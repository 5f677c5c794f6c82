/** Visiting members by clearing the lowest bit of a word until it is zero. */
module BitsetEach {
  import opened Words
  import opened WordSets
  import opened Bitset
  import opened BitsetScan

  /** base plus the position of each one bit, as the clearing loop meets them. */
  function WordList(w: Word, base: nat): (r: seq<nat>)
    decreases w
  {
    if w == 0 then []
    else
      ClearLowestSmaller(w);
      [base + Ctz(w)] + WordList(ClearLowest(w), base)
  }

  /** w is the part of word from position pos on. */
  ghost predicate RestOf(w: Word, word: Word, pos: nat) {
    pos <= 64 && forall t: nat :: t < 64 ==> (Bit(w, t) <==> pos <= t && Bit(word, t))
  }

  lemma RestEmpty(ws: seq<Word>, x: nat, pos: nat)
    requires x < |ws| && RestOf(0, ws[x], pos)
    ensures Listing(Members(ws), 64 * x + pos) == Listing(Members(ws), 64 * (x + 1))
  {
    forall y: nat | 64 * x + pos <= y < 64 * (x + 1) ensures y !in Members(ws) {
      DivMod(x, y - 64 * x);
      BitZero(y - 64 * x);
      InMembers(ws, y);
    }
    ListingSkip(Members(ws), 64 * x + pos, 64 * (x + 1));
  }

  lemma RestStep(w: Word, word: Word, pos: nat)
    requires w > 0 && RestOf(w, word, pos)
    ensures RestOf(ClearLowest(w), word, Ctz(w) + 1)
  {
    CtzBelow(w);
    CtzBit(w, 0);
    forall t: nat | t < 64 ensures Bit(ClearLowest(w), t) <==> Ctz(w) + 1 <= t && Bit(word, t) {
      ClearLowestBit(w, t);
      CtzBit(w, t);
    }
  }

  /** The lowest bit of what is left of a word is the next member. */
  lemma LowestIsNext(ws: seq<Word>, x: nat, w: Word, pos: nat)
    requires x < |ws| && w > 0 && RestOf(w, ws[x], pos)
    ensures Listing(Members(ws), 64 * x + Ctz(w) + 1) == Listing(Members(ws), 64 * x + pos) + [64 * x + Ctz(w)]
  {
    CtzBelow(w);
    CtzBit(w, 0);
    DivMod(x, Ctz(w));
    InMembers(ws, 64 * x + Ctz(w));
    forall y: nat | 64 * x + pos <= y < 64 * x + Ctz(w) ensures y !in Members(ws) {
      CtzBit(w, y - 64 * x);
      DivMod(x, y - 64 * x);
      InMembers(ws, y);
    }
    ListingNext(Members(ws), 64 * x + pos, 64 * x + Ctz(w));
  }

  /** What the clearing loop meets in the rest of word x, added to the members before it. */
  lemma {:induction false} WordListing(ws: seq<Word>, x: nat, w: Word, pos: nat)
    requires x < |ws| && RestOf(w, ws[x], pos)
    ensures Listing(Members(ws), 64 * x + pos) + WordList(w, 64 * x) == Listing(Members(ws), 64 * (x + 1))
    decreases w
  {
    if w == 0 {
      RestEmpty(ws, x, pos);
    } else {
      LowestIsNext(ws, x, w, pos);
      RestStep(w, ws[x], pos);
      ClearLowestSmaller(w);
      WordListing(ws, x, ClearLowest(w), Ctz(w) + 1);
      Join(Listing(Members(ws), 64 * x + pos), 64 * x + Ctz(w), WordList(ClearLowest(w), 64 * x));
    }
  }

  lemma Join(a: seq<nat>, x: nat, b: seq<nat>)
    ensures (a + [x]) + b == a + ([x] + b)
  {
  }

  lemma WholeWord(ws: seq<Word>, x: nat, base: nat)
    requires x < |ws| && base == 64 * x
    ensures Listing(Members(ws), base) + WordList(ws[x], base) == Listing(Members(ws), base + 64)
  {
    WordListing(ws, x, ws[x], 0);
  }

  // ---------- bitset_for_each ----------

  /** What a callback answers: whether to go on, and its own new state. */
  datatype Reply<P> = Reply(goOn: bool, state: P)

  /** The callback given the numbers one after the other, until it says to stop. */
  function Feed<P>(step: (nat, P) -> Reply<P>, p: P, xs: seq<nat>): (r: Reply<P>) {
    if xs == [] then Reply(true, p)
    else
      var r := Feed(step, p, xs[..|xs| - 1]);
      if r.goOn then step(xs[|xs| - 1], r.state) else r
  }

  lemma FeedSnoc<P>(step: (nat, P) -> Reply<P>, p: P, xs: seq<nat>, x: nat)
    requires Feed(step, p, xs).goOn
    ensures Feed(step, p, xs + [x]) == step(x, Feed(step, p, xs).state)
  {
    assert (xs + [x])[..|xs|] == xs;
  }

  lemma {:induction false} FeedStops<P>(step: (nat, P) -> Reply<P>, p: P, xs: seq<nat>, ys: seq<nat>)
    requires !Feed(step, p, xs).goOn
    ensures Feed(step, p, xs + ys) == Feed(step, p, xs)
  {
    if ys == [] {
      assert xs + ys == xs;
    } else {
      var n := |ys| - 1;
      FeedStops(step, p, xs, ys[..n]);
      assert (xs + ys)[..|xs| + n] == xs + ys[..n];
    }
  }

  lemma {:induction false} ListingGrows(s: set<nat>, i: nat, j: nat)
    requires i <= j
    ensures Listing(s, i) <= Listing(s, j)
  {
    if i < j {
      ListingGrows(s, i, j - 1);
    }
  }

  /** Once the callback has stopped, nothing further changes what it answered. */
  lemma StoppedFor<P>(step: (nat, P) -> Reply<P>, p: P, s: set<nat>, seen: seq<nat>, i: nat, j: nat)
    requires i <= j && seen <= Listing(s, i) && !Feed(step, p, seen).goOn
    ensures Feed(step, p, Listing(s, j)) == Feed(step, p, seen)
  {
    ListingGrows(s, i, j);
    var all := Listing(s, j);
    FeedStops(step, p, seen, all[|seen|..]);
    assert seen + all[|seen|..] == all;
  }

  /** The inner loop: the members of one word, until the callback stops. */
  method EachInWord<P>(word: Word, base: nat, step: (nat, P) -> Reply<P>, p1: P,
                       ghost p0: P, ghost seen0: seq<nat>)
    returns (uninterrupted: bool, p: P, ghost seen: seq<nat>)
    requires Feed(step, p0, seen0) == Reply(true, p1)
    ensures Feed(step, p0, seen) == Reply(uninterrupted, p) && seen <= seen0 + WordList(word, base)
    ensures uninterrupted ==> seen == seen0 + WordList(word, base)
  {
    var w := word;
    p, seen := p1, seen0;
    while w != 0
      invariant Feed(step, p0, seen) == Reply(true, p)
      invariant seen + WordList(w, base) == seen0 + WordList(word, base)
      decreases w
    {
      var r := Ctz(w);
      FeedSnoc(step, p0, seen, r + base);
      Join(seen, r + base, WordList(ClearLowest(w), base));
      seen := seen + [r + base];
      var reply := step(r + base, p);
      p := reply.state;
      if !reply.goOn {
        return false, p, seen;
      }
      ClearLowestSmaller(w);
      w := ClearLowest(w);
    }
    return true, p, seen;
  }

  /** The callback gets the members in increasing order until it stops; the result says whether it did. */
  method ForEach<P>(b: Bitset, step: (nat, P) -> Reply<P>, p0: P) returns (uninterrupted: bool, p: P)
    requires b.Valid()
    ensures Reply(uninterrupted, p) == Feed(step, p0, Listing(b.Elements(), 64 * b.arraysize))
  {
    ghost var ws, s := b.Contents(), b.Elements();
    var base := 0;
    p := p0;
    for i := 0 to b.arraysize
      invariant base == 64 * i && Feed(step, p0, Listing(s, base)) == Reply(true, p)
    {
      WholeWord(ws, i, base);
      ghost var seen;
      uninterrupted, p, seen := EachInWord(b.words[i], base, step, p, p0, Listing(s, base));
      base := base + 64;
      if !uninterrupted {
        StoppedFor(step, p0, s, seen, base, 64 * b.arraysize);
        return false, p;
      }
    }
    return true, p;
  }

  /** Collecting what a callback gets: it is the list of members, and as long as the count. */
  method VisitByEach(b: Bitset) returns (visited: seq<nat>)
    requires b.Valid()
    ensures IsListing(visited, b.Elements())
  {
    var step := (x: nat, seen: seq<nat>) => Reply(true, seen + [x]);
    var uninterrupted;
    ghost var n := 64 * b.arraysize;
    uninterrupted, visited := ForEach(b, step, []);
    FeedCollects(step, Listing(b.Elements(), n));
    ListingIs(b.Elements(), n);
  }

  lemma {:induction false} FeedCollects(step: (nat, seq<nat>) -> Reply<seq<nat>>, xs: seq<nat>)
    requires forall x: nat, seen: seq<nat> :: step(x, seen) == Reply(true, seen + [x])
    ensures Feed(step, [], xs) == Reply(true, xs)
  {
    if xs != [] {
      FeedCollects(step, xs[..|xs| - 1]);
      assert xs == xs[..|xs| - 1] + [xs[|xs| - 1]];
    }
  }
}
