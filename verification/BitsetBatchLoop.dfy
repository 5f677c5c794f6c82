/** Going through a bitset batch after batch, and when that lists its members. */
module BitsetBatchLoop {
  import opened Words
  import opened WordSets
  import opened Bitset
  import opened BitsetScan
  import opened BitsetEach
  import opened BitsetBatch

  /** What one call puts into the buffer. */
  function Batch(ws: seq<Word>, capacity: nat, start: nat): (r: seq<nat>)
    ensures |r| <= capacity
  {
    var all := Reported(ws, start / 64, start % 64);
    all[..Min(capacity, |all|)]
  }

  datatype Visit = Ended(out: seq<nat>) | Running

  function Before(batch: seq<nat>, more: Visit): (v: Visit) {
    if more.Running? then Running else Ended(batch + more.out)
  }

  /** All batches together, if the loop ends before n calls have reported something. */
  function Visited(call: nat -> seq<nat>, start: nat, n: nat): (v: Visit)
    decreases n
  {
    var batch := call(start);
    if batch == [] then Ended([])
    else if n == 0 then Running
    else Before(batch, Visited(call, batch[|batch| - 1] + 1, n - 1))
  }

  /** The documented loop ends, and has listed the members. */
  ghost predicate Lists(ws: seq<Word>, capacity: nat, n: nat) {
    var v := Visited((p: nat) => Batch(ws, capacity, p), 0, n);
    v.Ended? && IsListing(v.out, Members(ws))
  }

  /** No full batch ends between two members in the same word. */
  predicate EndsWithWords(l: seq<nat>, capacity: nat)
    requires capacity > 0
    decreases |l|
  {
    |l| > capacity ==> l[capacity - 1] / 64 < l[capacity] / 64 && EndsWithWords(l[capacity..], capacity)
  }

  // ---------- The members from a position on ----------

  lemma SameEmpty(a: seq<nat>, b: seq<nat>)
    requires forall x :: x in a <==> x in b
    ensures a == [] <==> b == []
  {
    assert |a| > 0 ==> a[0] in a;
    assert |b| > 0 ==> b[0] in b;
  }

  lemma {:induction false} OneListing(a: seq<nat>, b: seq<nat>)
    requires Increasing(a) && Increasing(b) && forall x :: x in a <==> x in b
    ensures a == b
  {
    SameEmpty(a, b);
    if a != [] {
      var m, n := |a| - 1, |b| - 1;
      assert a[m] in b && b[n] in a;
      forall x ensures x in a[..m] <==> x in b[..n] {
        assert x in a <==> x in a[..m] || x == a[m];
        assert x in b <==> x in b[..n] || x == b[n];
      }
      OneListing(a[..m], b[..n]);
      assert a == a[..m] + [a[m]] && b == b[..n] + [b[n]];
    }
  }

  ghost predicate ListsFrom(l: seq<nat>, s: set<nat>, p: nat) {
    Increasing(l) && forall x: nat :: x in l <==> x in s && p <= x
  }

  lemma Suffix(l: seq<nat>, s: set<nat>, p: nat, k: nat)
    requires ListsFrom(l, s, p) && 0 < k <= |l|
    ensures ListsFrom(l[k..], s, l[k - 1] + 1)
  {
    forall x: nat ensures x in l[k..] <==> x in s && l[k - 1] + 1 <= x {
      if x in s && l[k - 1] + 1 <= x {
        assert l[k - 1] in l;
        var i :| 0 <= i < |l| && l[i] == x;
        assert l[k..][i - k] == x;
      }
    }
  }

  /** p starts a word, or no member follows in its word. */
  ghost predicate StartsWord(s: set<nat>, p: nat) {
    p % 64 == 0 || forall y: nat :: p <= y < 64 * (p / 64 + 1) ==> y !in s
  }

  lemma AlignedMeans(ws: seq<Word>, p: nat)
    ensures Aligned(ws, p / 64, p % 64) <==> StartsWord(Members(ws), p)
  {
    var x, from := p / 64, p % 64;
    forall y: nat ensures y in Members(ws) <==> Has(ws, y) {
      InMembers(ws, y);
    }
    if x < |ws| {
      if Shr(ws[x], from) == 0 {
        forall y: nat | p <= y < 64 * (x + 1) ensures y !in Members(ws) {
          NoneInWord(ws, x, from, y);
        }
      } else {
        FirstInWord(ws, x, from, p);
        assert p + Ctz(Shr(ws[x], from)) in Members(ws);
      }
    }
  }

  /** Going on after the first k members starts a word exactly when the next one is in another word. */
  lemma Restart(l: seq<nat>, s: set<nat>, p: nat, k: nat)
    requires ListsFrom(l, s, p) && 0 < k <= |l|
    ensures StartsWord(s, l[k - 1] + 1) <==> k == |l| || l[k - 1] / 64 < l[k] / 64
  {
    Suffix(l, s, p, k);
    if k == |l| {
      forall y: nat | l[k - 1] + 1 <= y ensures y !in s {
        assert y !in l[k..];
      }
    } else {
      assert l[k] in l[k..];
      forall y: nat | l[k - 1] + 1 <= y < l[k] ensures y !in s {
        assert y !in l[k..];
      }
    }
  }

  // ---------- Calls that are right where a word starts, and only there ----------

  lemma BatchRight(ws: seq<Word>, capacity: nat, p: nat, l: seq<nat>)
    requires StartsWord(Members(ws), p) && ListsFrom(l, Members(ws), p)
    ensures Batch(ws, capacity, p) == l[..Min(capacity, |l|)]
  {
    AlignedMeans(ws, p);
    ReportedIff(ws, p / 64, p % 64);
    OneListing(Reported(ws, p / 64, p % 64), l);
  }

  lemma BatchEarly(ws: seq<Word>, capacity: nat, p: nat, y: nat)
    requires capacity > 0 && !StartsWord(Members(ws), p) && y in Members(ws) && p <= y
    ensures Batch(ws, capacity, p) != [] && Batch(ws, capacity, p)[0] < y
  {
    AlignedMeans(ws, p);
    var x, from := p / 64, p % 64;
    assert Reported(ws, x, from)[0] == 64 * x + Ctz(Shr(ws[x], from));
    InMembers(ws, y);
    FirstInWord(ws, x, from, y);
  }

  // ---------- The loop ----------

  type Due = (nat, seq<nat>) -> bool

  predicate Begins(batch: seq<nat>, l: seq<nat>) {
    |batch| <= |l| && l[..|batch|] == batch
  }

  /** Of what is due, the part after a batch is due at the next position. */
  ghost predicate Then(due: Due, batch: seq<nat>, l: seq<nat>) {
    Begins(batch, l) && batch != [] && due(batch[|batch| - 1] + 1, l[|batch|..])
  }

  /** What calls do where the loop will go right, where it will go wrong later, and where it goes wrong at once. */
  ghost predicate Calls(call: nat -> seq<nat>, right: Due, wrong: Due, bad: Due) {
    (forall p: nat, l: seq<nat> {:trigger call(p), right(p, l)} ::
       right(p, l) ==> if l == [] then call(p) == [] else Then(right, call(p), l)) &&
    (forall p: nat, l: seq<nat> {:trigger call(p), wrong(p, l)} ::
       wrong(p, l) ==> Then(wrong, call(p), l) || Then(bad, call(p), l)) &&
    forall p: nat, l: seq<nat> {:trigger call(p), bad(p, l)} ::
      bad(p, l) ==> l != [] && call(p) != [] && call(p)[0] < l[0]
  }

  /** What the loop collects after a batch of l, and what l has after it. */
  lemma TurnEnds(call: nat -> seq<nat>, p: nat, n: nat, l: seq<nat>)
    requires n > 0 && call(p) != [] && Begins(call(p), l)
    ensures var batch := call(p);
            Visited(call, p, n) == Ended(l) <==>
            Visited(call, batch[|batch| - 1] + 1, n - 1) == Ended(l[|batch|..])
  {
    var batch := call(p);
    BeforeParts(batch, l[|batch|..], Visited(call, batch[|batch| - 1] + 1, n - 1));
    assert l == batch + l[|batch|..];
  }

  lemma {:induction false} VisitsRight(call: nat -> seq<nat>, right: Due, wrong: Due, bad: Due,
                                       p: nat, l: seq<nat>, n: nat)
    requires Calls(call, right, wrong, bad) && right(p, l) && |l| <= n
    ensures Visited(call, p, n) == Ended(l)
    decreases |l|
  {
    if l != [] {
      var batch := call(p);
      VisitsRight(call, right, wrong, bad, batch[|batch| - 1] + 1, l[|batch|..], n - 1);
      TurnEnds(call, p, n, l);
    }
  }

  lemma {:induction false} VisitsWrong(call: nat -> seq<nat>, right: Due, wrong: Due, bad: Due,
                                       p: nat, l: seq<nat>, n: nat)
    requires Calls(call, right, wrong, bad) && wrong(p, l)
    ensures Visited(call, p, n) != Ended(l)
    decreases n
  {
    if n > 0 {
      var batch := call(p);
      var next, rest := batch[|batch| - 1] + 1, l[|batch|..];
      if wrong(next, rest) {
        VisitsWrong(call, right, wrong, bad, next, rest, n - 1);
      } else {
        VisitsBad(call, right, wrong, bad, next, rest, n - 1);
      }
      TurnEnds(call, p, n, l);
    }
  }

  lemma VisitsBad(call: nat -> seq<nat>, right: Due, wrong: Due, bad: Due, p: nat, l: seq<nat>, n: nat)
    requires Calls(call, right, wrong, bad) && bad(p, l)
    ensures Visited(call, p, n) != Ended(l)
  {
    VisitedTurn(call, p, n, call(p));
  }

  lemma BeforeParts(batch: seq<nat>, rest: seq<nat>, more: Visit)
    ensures Before(batch, more) == Ended(batch + rest) ==> more == Ended(rest)
  {
    if more.Ended? && batch + more.out == batch + rest {
      assert rest == (batch + rest)[|batch|..];
      assert more.out == (batch + more.out)[|batch|..];
    }
  }

  // ---------- The calls of the documented loop ----------

  ghost predicate Good(s: set<nat>, p: nat, l: seq<nat>) {
    StartsWord(s, p) && ListsFrom(l, s, p)
  }

  ghost predicate Bad(s: set<nat>, p: nat, l: seq<nat>) {
    !StartsWord(s, p) && ListsFrom(l, s, p) && l != []
  }

  lemma GoodTurn(ws: seq<Word>, capacity: nat, p: nat, l: seq<nat>, k: nat)
    requires capacity > 0 && Good(Members(ws), p, l) && k == Min(capacity, |l|)
    ensures Batch(ws, capacity, p) == l[..k]
    ensures l != [] ==> if k == |l| || l[k - 1] / 64 < l[k] / 64 then Good(Members(ws), l[k - 1] + 1, l[k..])
                        else Bad(Members(ws), l[k - 1] + 1, l[k..])
  {
    BatchRight(ws, capacity, p, l);
    if l != [] {
      Suffix(l, Members(ws), p, k);
      Restart(l, Members(ws), p, k);
    }
  }

  lemma EndsTurn(l: seq<nat>, capacity: nat, k: nat)
    requires capacity > 0 && k == Min(capacity, |l|)
    ensures EndsWithWords(l, capacity) <==>
            (k == |l| || l[k - 1] / 64 < l[k] / 64) && EndsWithWords(l[k..], capacity)
  {
  }

  lemma BadTurn(ws: seq<Word>, capacity: nat, p: nat, l: seq<nat>)
    requires capacity > 0 && Bad(Members(ws), p, l)
    ensures Batch(ws, capacity, p) != [] && Batch(ws, capacity, p)[0] < l[0]
  {
    assert l[0] in l;
    BatchEarly(ws, capacity, p, l[0]);
  }

  lemma IsThen(due: Due, batch: seq<nat>, l: seq<nat>, k: nat)
    requires 0 < k <= |l| && batch == l[..k] && due(l[k - 1] + 1, l[k..])
    ensures Then(due, batch, l)
  {
  }

  lemma RightNext(ws: seq<Word>, capacity: nat, p: nat, l: seq<nat>, k: nat)
    requires capacity > 0 && Good(Members(ws), p, l) && EndsWithWords(l, capacity) && l != [] && k == Min(capacity, |l|)
    ensures Good(Members(ws), l[k - 1] + 1, l[k..]) && EndsWithWords(l[k..], capacity)
  {
    GoodTurn(ws, capacity, p, l, k);
    EndsTurn(l, capacity, k);
  }

  lemma WrongNext(ws: seq<Word>, capacity: nat, p: nat, l: seq<nat>)
    requires capacity > 0 && Good(Members(ws), p, l) && !EndsWithWords(l, capacity)
    ensures |l| > capacity
    ensures Bad(Members(ws), l[capacity - 1] + 1, l[capacity..]) ||
            (Good(Members(ws), l[capacity - 1] + 1, l[capacity..]) && !EndsWithWords(l[capacity..], capacity))
  {
    EndsTurn(l, capacity, Min(capacity, |l|));
    GoodTurn(ws, capacity, p, l, capacity);
  }

  lemma CallsAre(ws: seq<Word>, capacity: nat, call: nat -> seq<nat>, right: Due, wrong: Due, bad: Due)
    requires capacity > 0 && forall p: nat :: call(p) == Batch(ws, capacity, p)
    requires forall p: nat, l: seq<nat> :: right(p, l) <==> Good(Members(ws), p, l) && EndsWithWords(l, capacity)
    requires forall p: nat, l: seq<nat> :: wrong(p, l) <==> Good(Members(ws), p, l) && !EndsWithWords(l, capacity)
    requires forall p: nat, l: seq<nat> :: bad(p, l) <==> Bad(Members(ws), p, l)
    ensures Calls(call, right, wrong, bad)
  {
    forall p: nat, l: seq<nat> | right(p, l) ensures if l == [] then call(p) == [] else Then(right, call(p), l) {
      var k := Min(capacity, |l|);
      GoodTurn(ws, capacity, p, l, k);
      if l != [] {
        RightNext(ws, capacity, p, l, k);
        IsThen(right, call(p), l, k);
      }
    }
    forall p: nat, l: seq<nat> | wrong(p, l) ensures Then(wrong, call(p), l) || Then(bad, call(p), l) {
      WrongNext(ws, capacity, p, l);
      GoodTurn(ws, capacity, p, l, capacity);
      IsThen(if bad(l[capacity - 1] + 1, l[capacity..]) then bad else wrong, call(p), l, capacity);
    }
    forall p: nat, l: seq<nat> | bad(p, l) ensures l != [] && call(p) != [] && call(p)[0] < l[0] {
      BadTurn(ws, capacity, p, l);
    }
  }

  lemma AllMembers(ws: seq<Word>, n: nat)
    requires n == 64 * |ws|
    ensures IsListing(Listing(Members(ws), n), Members(ws)) && Good(Members(ws), 0, Listing(Members(ws), n))
  {
    ListingIs(Members(ws), n);
  }

  /** The documented loop lists the members exactly when no full batch ends within the members of a word. */
  lemma BatchesIff(ws: seq<Word>, capacity: nat)
    requires capacity > 0
    ensures (exists n: nat :: Lists(ws, capacity, n)) <==> EndsWithWords(Listing(Members(ws), 64 * |ws|), capacity)
  {
    var s, l := Members(ws), Listing(Members(ws), 64 * |ws|);
    var call := (p: nat) => Batch(ws, capacity, p);
    var right: Due := (p: nat, t: seq<nat>) => Good(s, p, t) && EndsWithWords(t, capacity);
    var wrong: Due := (p: nat, t: seq<nat>) => Good(s, p, t) && !EndsWithWords(t, capacity);
    var bad: Due := (p: nat, t: seq<nat>) => Bad(s, p, t);
    AllMembers(ws, 64 * |ws|);
    CallsAre(ws, capacity, call, right, wrong, bad);
    if EndsWithWords(l, capacity) {
      VisitsRight(call, right, wrong, bad, 0, l, |l|);
      assert Lists(ws, capacity, |l|);
    } else {
      forall n: nat ensures !Lists(ws, capacity, n) {
        VisitsWrong(call, right, wrong, bad, 0, l, n);
        if Lists(ws, capacity, n) {
          OneListing(Visited(call, 0, n).out, l);
        }
      }
    }
  }

  lemma VisitedTurn(call: nat -> seq<nat>, p: nat, n: nat, batch: seq<nat>)
    requires call(p) == batch && batch != []
    ensures Visited(call, p, n) ==
            if n == 0 then Running else Before(batch, Visited(call, batch[|batch| - 1] + 1, n - 1))
  {
  }

  /** The set {1, 2} in batches of one: 1, and then 0 for ever. */
  lemma NeverEnds(n: nat)
    ensures Members([6]) == {1, 2} && Visited((p: nat) => Batch([6], 1, p), 0, n) == Running
  {
    var call := (p: nat) => Batch([6], 1, p);
    ReportedExample();
    CallsOnSix();
    GoesRound(call, 1, n);
    VisitedTurn(call, 0, n, [1]);
    if n > 0 {
      GoesRound(call, 2, n - 1);
    }
  }

  lemma CallsOnSix()
    ensures Batch([6], 1, 0) == [1] && Batch([6], 1, 1) == [0] && Batch([6], 1, 2) == [0]
  {
    assert Shr(6, 0) == 6 && Shr(6, 1) == 3 && Shr(6, 2) == 1;
    assert Ctz(6) == 1 && Ctz(3) == 0 && Ctz(1) == 0;
    FirstOf(6, 0);
    FirstOf(6, 1);
    FirstOf(6, 2);
  }

  lemma ListHead(w: Word, base: nat, more: seq<nat>)
    requires w > 0
    ensures WordList(w, base) != [] && (WordList(w, base) + more)[..1] == [Ctz(w) + base]
  {
  }

  lemma FirstOf(w: Word, from: nat)
    requires from < 64 && Shr(w, from) > 0
    ensures Batch([w], 1, from) == [Ctz(Shr(w, from))]
  {
    assert from / 64 == 0 && from % 64 == from;
    ReportedFrom([w], 0, from, 0);
    ListHead(Shr(w, from), 0, Rest([w], 1));
  }

  lemma {:induction false} GoesRound(call: nat -> seq<nat>, p: nat, n: nat)
    requires call(p) == call(1) == [0]
    ensures Visited(call, p, n) == Running
    decreases n
  {
    if n > 0 {
      GoesRound(call, 1, n - 1);
    }
  }

  // ---------- The documented loop ----------

  lemma CollectTurn(call: nat -> seq<nat>, at: nat, m: nat, visited: seq<nat>, batch: seq<nat>, next: nat, all: Visit)
    requires call(at) == batch && batch != [] && next == batch[|batch| - 1] + 1
    requires all.Ended? && Before(visited, Visited(call, at, m)) == all
    ensures m > 0 && Before(visited + batch, Visited(call, next, m - 1)) == all
  {
    VisitedTurn(call, at, m, batch);
    var more := Visited(call, next, m - 1);
    assert visited + (batch + more.out) == (visited + batch) + more.out;
  }

  lemma CollectEnd(call: nat -> seq<nat>, at: nat, m: nat, visited: seq<nat>, all: Visit)
    requires call(at) == [] && Before(visited, Visited(call, at, m)) == all
    ensures all == Ended(visited)
  {
    assert visited + [] == visited;
  }

  /** One call, for a loop that knows no more than what calls report. */
  method GetBatch(b: Bitset, buffer: array<nat>, capacity: nat, start: nat,
                  ghost ws: seq<Word>, ghost call: nat -> seq<nat>)
    returns (howmany: nat, next: nat)
    requires b.Valid() && b.Contents() == ws && capacity <= buffer.Length && CallsBatch(call, ws, capacity)
    modifies buffer
    ensures b.Valid() && b.Contents() == ws && howmany <= capacity && buffer[..howmany] == call(start)
    ensures howmany > 0 ==> next == call(start)[howmany - 1]
  {
    howmany, next := NextSetBits(b, buffer, capacity, start);
    assert call(start) == Batch(ws, capacity, start);
  }

  ghost predicate CallsBatch(call: nat -> seq<nat>, ws: seq<Word>, capacity: nat) {
    forall p: nat {:trigger Batch(ws, capacity, p)} :: call(p) == Batch(ws, capacity, p)
  }

  /** It collects the batches, whenever it ends. */
  method VisitByBatch(b: Bitset, capacity: nat, ghost ws: seq<Word>, ghost call: nat -> seq<nat>, ghost n: nat)
    returns (visited: seq<nat>)
    requires b.Valid() && b.Contents() == ws && CallsBatch(call, ws, capacity) && Visited(call, 0, n).Ended?
    ensures Ended(visited) == Visited(call, 0, n)
  {
    var buffer := new nat[capacity];
    visited := [];
    ghost var at, m, all := 0, n, Visited(call, 0, n);
    var howmany, startfrom := GetBatch(b, buffer, capacity, 0, ws, call);
    assert Before([], all) == all;
    while howmany > 0
      invariant b.Valid() && b.Contents() == ws
      invariant 0 <= howmany <= capacity == buffer.Length && buffer[..howmany] == call(at)
      invariant howmany > 0 ==> startfrom == call(at)[howmany - 1]
      invariant Before(visited, Visited(call, at, m)) == all
      decreases m
    {
      CollectTurn(call, at, m, visited, buffer[..howmany], startfrom + 1, all);
      visited := visited + buffer[..howmany];
      at, m := startfrom + 1, m - 1;
      howmany, startfrom := GetBatch(b, buffer, capacity, startfrom + 1, ws, call);
    }
    assert buffer[..0] == [];
    CollectEnd(call, at, m, visited, all);
  }
}
