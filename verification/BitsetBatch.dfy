/** Members in batches, and when the batches are right. */
module BitsetBatch {
  import opened Words
  import opened WordSets
  import opened Bitset
  import opened BitsetScan
  import opened BitsetEach

  /** The members in words x and above, word after word. */
  function Rest(ws: seq<Word>, x: nat): (r: seq<nat>)
    decreases |ws| - x
  {
    if x >= |ws| then [] else WordList(ws[x], 64 * x) + Rest(ws, x + 1)
  }

  /** All that is reported when the scan starts in word x at bit from. */
  function Reported(ws: seq<Word>, x: nat, from: nat): (r: seq<nat>) {
    if x >= |ws| then [] else WordList(Shr(ws[x], from), 64 * x) + Rest(ws, x + 1)
  }

  lemma RestFrom(ws: seq<Word>, x: nat, base: nat)
    requires x < |ws| && base == 64 * x
    ensures Rest(ws, x) == WordList(ws[x], base) + Rest(ws, x + 1)
  {
  }

  lemma ReportedFrom(ws: seq<Word>, x: nat, from: nat, base: nat)
    requires x < |ws| && base == 64 * x
    ensures Reported(ws, x, from) == WordList(Shr(ws[x], from), base) + Rest(ws, x + 1)
  {
  }

  /** One word's part of a batch; full says that the buffer has no more room. */
  method FillFromWord(word: Word, base: nat, buffer: array<nat>, start: nat, capacity: nat)
    returns (howmany: nat, full: bool, ghost left: seq<nat>)
    requires start < capacity <= buffer.Length
    modifies buffer
    ensures start <= howmany <= capacity && full == (howmany == capacity)
    ensures buffer[..howmany] + left == old(buffer[..start]) + WordList(word, base) && (!full ==> left == [])
  {
    var w := word;
    howmany := start;
    while w != 0
      invariant start <= howmany < capacity
      invariant buffer[..howmany] + WordList(w, base) == old(buffer[..start]) + WordList(word, base)
      decreases w
    {
      ClearLowestSmaller(w);
      ghost var done, more := buffer[..howmany], WordList(ClearLowest(w), base);
      var r := Ctz(w);
      Join(done, r + base, more);
      buffer[howmany] := r + base;
      howmany := howmany + 1;
      assert buffer[..howmany] == done + [r + base];
      if howmany == capacity {
        return howmany, true, more;
      }
      w := ClearLowest(w);
    }
    return howmany, false, [];
  }

  /** Fill the buffer from word start on, leaving out the bits of that word below from. */
  method Fill(b: Bitset, buffer: array<nat>, capacity: nat, start: nat, from: nat)
    returns (howmany: nat, ghost left: seq<nat>)
    requires b.Valid() && start < b.arraysize && 0 < capacity <= buffer.Length
    modifies buffer
    ensures howmany <= capacity && buffer[..howmany] + left == Reported(b.Contents(), start, from)
    ensures howmany < capacity ==> left == []
  {
    ghost var ws := b.Contents();
    ghost var all := Reported(ws, start, from);
    var x := start;
    var w := Shr(b.words[x], from);
    var base := 64 * x;
    howmany := 0;
    ReportedFrom(ws, start, from, base);
    while true
      invariant x < b.arraysize && base == 64 * x && howmany < capacity
      invariant buffer[..howmany] + (WordList(w, base) + Rest(ws, x + 1)) == all
      decreases b.arraysize - x
    {
      ghost var done, list, rest := buffer[..howmany], WordList(w, base), Rest(ws, x + 1);
      var full;
      howmany, full, left := FillFromWord(w, base, buffer, howmany, capacity);
      Regroup(buffer[..howmany], left, done, list, rest);
      left := left + rest;
      x := x + 1;
      if full || x == b.arraysize {
        return;
      }
      base := base + 64;
      w := b.words[x];
      RestFrom(ws, x, base);
    }
  }

  lemma Regroup(now: seq<nat>, left: seq<nat>, done: seq<nat>, list: seq<nat>, rest: seq<nat>)
    requires now + left == done + list
    ensures now + (left + rest) == done + (list + rest)
  {
    assert now + (left + rest) == (now + left) + rest;
  }

  /** The first members of the report, as many as fit, and where to go on from. */
  method NextSetBits(b: Bitset, buffer: array<nat>, capacity: nat, startfrom: nat)
    returns (howmany: nat, next: nat)
    requires b.Valid() && capacity <= buffer.Length
    modifies buffer
    ensures howmany == Min(capacity, |Reported(b.Contents(), startfrom / 64, startfrom % 64)|)
    ensures buffer[..howmany] == Reported(b.Contents(), startfrom / 64, startfrom % 64)[..howmany]
    ensures next == if howmany > 0 then buffer[howmany - 1] else startfrom
  {
    if capacity == 0 {
      return 0, startfrom;
    }
    if startfrom / 64 >= b.arraysize {
      return 0, startfrom;
    }
    ghost var left;
    howmany, left := Fill(b, buffer, capacity, startfrom / 64, startfrom % 64);
    assert Reported(b.Contents(), startfrom / 64, startfrom % 64)[..howmany] == buffer[..howmany];
    next := if howmany > 0 then buffer[howmany - 1] else startfrom;
  }

  // ---------- When the report is right ----------

  lemma {:induction false} InWordList(w: Word, base: nat, y: nat)
    ensures y in WordList(w, base) <==> base <= y < base + 64 && Bit(w, y - base)
    decreases w
  {
    if w == 0 {
      if y >= base {
        BitZero(y - base);
      }
    } else {
      CtzBelow(w);
      CtzBit(w, 0);
      ClearLowestSmaller(w);
      InWordList(ClearLowest(w), base, y);
      if y >= base {
        ClearLowestBit(w, y - base);
      }
    }
  }

  lemma Glue(a: seq<nat>, b: seq<nat>, m: nat)
    requires Increasing(a) && Increasing(b) && (forall x :: x in a ==> x < m) && (forall x :: x in b ==> m <= x)
    ensures Increasing(a + b)
  {
    forall i, j | 0 <= i < j < |a + b| ensures (a + b)[i] < (a + b)[j] {
      if i < |a| <= j {
        assert a[i] in a;
        assert b[j - |a|] in b;
      }
    }
  }

  lemma {:induction false} WordListIncreasing(w: Word, base: nat)
    ensures Increasing(WordList(w, base))
    decreases w
  {
    if w != 0 {
      ClearLowestSmaller(w);
      var c, rest := base + Ctz(w), WordList(ClearLowest(w), base);
      WordListIncreasing(ClearLowest(w), base);
      forall x | x in rest ensures c + 1 <= x {
        InWordList(ClearLowest(w), base, x);
        ClearLowestBit(w, x - base);
        CtzBit(w, x - base);
      }
      Glue([c], rest, c + 1);
    }
  }

  lemma {:induction false} InRest(ws: seq<Word>, x: nat, y: nat)
    ensures y in Rest(ws, x) <==> Has(ws, y) && 64 * x <= y
    decreases |ws| - x
  {
    if x < |ws| {
      InWordList(ws[x], 64 * x, y);
      InRest(ws, x + 1, y);
      if 64 * x <= y < 64 * (x + 1) {
        DivMod(x, y - 64 * x);
      }
    }
  }

  lemma {:induction false} RestIncreasing(ws: seq<Word>, x: nat)
    ensures Increasing(Rest(ws, x))
    decreases |ws| - x
  {
    if x < |ws| {
      WordListIncreasing(ws[x], 64 * x);
      RestIncreasing(ws, x + 1);
      var list, rest, m := WordList(ws[x], 64 * x), Rest(ws, x + 1), 64 * (x + 1);
      forall y | y in list ensures y < m {
        InWordList(ws[x], 64 * x, y);
      }
      forall y | y in rest ensures m <= y {
        InRest(ws, x + 1, y);
      }
      Glue(list, rest, m);
    }
  }

  /** An increasing list is as long as the set of its numbers. */
  lemma {:induction false} IncreasingSize(r: seq<nat>, s: set<nat>)
    requires Increasing(r) && forall x :: x in r <==> x in s
    ensures |r| == |s|
  {
    if r == [] {
      assert s == {};
    } else {
      var n := |r| - 1;
      assert r == r[..n] + [r[n]];
      IncreasingSize(r[..n], s - {r[n]});
    }
  }

  /** The members at or after a position. */
  function From(s: set<nat>, start: nat): (r: set<nat>) {
    set x | x in s && start <= x
  }

  lemma RestIs(ws: seq<Word>, x: nat)
    ensures IsListing(Rest(ws, x), From(Members(ws), 64 * x))
  {
    RestIncreasing(ws, x);
    forall y: nat ensures y in Rest(ws, x) <==> y in From(Members(ws), 64 * x) {
      InRest(ws, x, y);
      InMembers(ws, y);
    }
    IncreasingSize(Rest(ws, x), From(Members(ws), 64 * x));
  }

  /** The scan starts at the beginning of a word, or has no members left in the word it starts in. */
  predicate Aligned(ws: seq<Word>, x: nat, from: nat) {
    from == 0 || x >= |ws| || Shr(ws[x], from) == 0
  }

  lemma FromSkips(ws: seq<Word>, x: nat, from: nat)
    requires x >= |ws| || (from < 64 && Shr(ws[x], from) == 0)
    ensures From(Members(ws), 64 * x + from) == From(Members(ws), 64 * (x + 1))
  {
    var here, above := From(Members(ws), 64 * x + from), From(Members(ws), 64 * (x + 1));
    forall y: nat ensures y in here <==> y in above {
      InMembers(ws, y);
      if x < |ws| && 64 * x + from <= y < 64 * (x + 1) {
        NoneInWord(ws, x, from, y);
      }
    }
  }

  lemma ReportedRight(ws: seq<Word>, x: nat, from: nat)
    requires from < 64 && Aligned(ws, x, from)
    ensures IsListing(Reported(ws, x, from), From(Members(ws), 64 * x + from))
  {
    if x < |ws| && Shr(ws[x], from) != 0 {
      RestIs(ws, x);
      RestFrom(ws, x, 64 * x);
    } else {
      RestIs(ws, x + 1);
      FromSkips(ws, x, from);
      if x < |ws| {
        ReportedFrom(ws, x, from, 64 * x);
      }
    }
  }

  lemma ReportedWrong(ws: seq<Word>, x: nat, from: nat)
    requires from < 64 && !Aligned(ws, x, from)
    ensures !IsListing(Reported(ws, x, from), From(Members(ws), 64 * x + from))
  {
    var first := 64 * x + Ctz(Shr(ws[x], from));
    FoundInWord(ws, 64 * x + from, x, from);
    assert Reported(ws, x, from)[0] == first;
    assert first in Reported(ws, x, from);
    assert first !in From(Members(ws), 64 * x + from);
  }

  /** The batches list the members at or after the start exactly when the scan starts aligned. */
  lemma ReportedIff(ws: seq<Word>, x: nat, from: nat)
    requires from < 64
    ensures IsListing(Reported(ws, x, from), From(Members(ws), 64 * x + from)) <==> Aligned(ws, x, from)
  {
    if Aligned(ws, x, from) {
      ReportedRight(ws, x, from);
    } else {
      ReportedWrong(ws, x, from);
    }
  }

  /** The set {1, 2}: going on from 2 reports 0. */
  lemma ReportedExample()
    ensures Members([6]) == {1, 2} && Reported([6], 0, 2) == [0]
  {
    assert Bit(6, 0) == false && Bit(6, 1) && Bit(6, 2) && Bit(6, 3) == false;
    forall x: nat ensures Has([6], x) <==> x in {1, 2} {
      if 3 < x < 64 {
        assert 6 < Pow2(3);
        BitHigh(6, 3, x);
      }
    }
    SameMembers([6], {1, 2});
    assert Shr(6, 1) == 3 && Shr(6, 2) == 1;
    ClearLowestSmaller(1);
    assert Ctz(1) == 0 && ClearLowest(1) == 0;
    assert WordList(1, 0) == [0] + WordList(0, 0);
    assert Rest([6], 1) == [];
  }
}
