/** Sequences of 64-bit words as sets of natural numbers. */
module WordSets {
  import opened Words

  /** The number x is in the set: bit x % 64 of word x / 64. */
  predicate Has(ws: seq<Word>, x: nat) {
    x / 64 < |ws| && Bit(ws[x / 64], x % 64)
  }

  function Members(ws: seq<Word>): (s: set<nat>) {
    set x: nat | x < 64 * |ws| && Has(ws, x)
  }

  lemma InMembers(ws: seq<Word>, x: nat)
    ensures x in Members(ws) <==> Has(ws, x)
  {
  }

  lemma SameMembers(a: seq<Word>, s: set<nat>)
    requires forall x: nat :: Has(a, x) <==> x in s
    ensures Members(a) == s
  {
    forall x: nat ensures x in Members(a) <==> x in s {
      InMembers(a, x);
    }
  }

  /** The numbers of s, each plus k. */
  function Shifted(s: set<nat>, k: nat): (r: set<nat>) {
    set x | x in s :: x + k
  }

  lemma InShifted(s: set<nat>, k: nat, y: nat)
    ensures y in Shifted(s, k) <==> y >= k && y - k in s
  {
    if y >= k && y - k in s {
      assert y == (y - k) + k;
    }
  }

  /** The numbers of s that are at least k, each less k. */
  function Dropped(s: set<nat>, k: nat): (r: set<nat>) {
    set x | x in s && x >= k :: x - k
  }

  lemma InDropped(s: set<nat>, k: nat, y: nat)
    ensures y in Dropped(s, k) <==> y + k in s
  {
    if y + k in s {
      assert y == (y + k) - k;
    }
  }

  /** Shifting right undoes shifting left. */
  lemma DropShift(s: set<nat>, k: nat)
    ensures Dropped(Shifted(s, k), k) == s
  {
    forall y: nat ensures y in Dropped(Shifted(s, k), k) <==> y in s {
      InDropped(Shifted(s, k), k, y);
      InShifted(s, k, y + k);
    }
  }

  // ---------- Cardinality ----------

  lemma {:induction false} ShiftedSize(s: set<nat>, k: nat)
    ensures |Shifted(s, k)| == |s|
    decreases |s|
  {
    if s != {} {
      var x :| x in s;
      ShiftedSize(s - {x}, k);
      forall y: nat ensures y in Shifted(s, k) <==> y in Shifted(s - {x}, k) + {x + k} {
        InShifted(s, k, y);
        InShifted(s - {x}, k, y);
      }
      assert Shifted(s, k) == Shifted(s - {x}, k) + {x + k};
      InShifted(s - {x}, k, x + k);
    }
  }

  /** The positions of the one bits below n. */
  function Ones(w: nat, n: nat): (s: set<nat>) {
    set i: nat | i < n && Bit(w, i)
  }

  lemma {:induction false} PopCountIs(w: nat, n: nat)
    requires w < Pow2(n)
    ensures PopCount(w) == |Ones(w, n)|
  {
    if n == 0 {
      assert Ones(w, 0) == {};
    } else {
      PopCountIs(w / 2, n - 1);
      OnesHalve(w, n);
      ShiftedSize(Ones(w / 2, n - 1), 1);
      if w % 2 == 1 {
        InShifted(Ones(w / 2, n - 1), 1, 0);
      }
    }
  }

  lemma OnesHalve(w: nat, n: nat)
    requires n > 0
    ensures Ones(w, n) == Shifted(Ones(w / 2, n - 1), 1) + if w % 2 == 1 then {0} else {}
  {
    forall y: nat
      ensures y in Ones(w, n) <==> y in Shifted(Ones(w / 2, n - 1), 1) + if w % 2 == 1 then {0} else {}
    {
      InShifted(Ones(w / 2, n - 1), 1, y);
    }
  }

  /** The one bits of all words. */
  function TotalCount(ws: seq<Word>): (n: nat) {
    if ws == [] then 0 else TotalCount(ws[..|ws| - 1]) + PopCount(ws[|ws| - 1])
  }

  lemma {:induction false} TotalCountIs(ws: seq<Word>)
    ensures TotalCount(ws) == |Members(ws)|
  {
    if ws == [] {
      assert Members(ws) == {};
    } else {
      var n := |ws| - 1;
      TotalCountIs(ws[..n]);
      WordIsPow2();
      PopCountIs(ws[n], 64);
      ShiftedSize(Ones(ws[n], 64), 64 * n);
      MembersSnoc(ws);
      assert Members(ws[..n]) !! Shifted(Ones(ws[n], 64), 64 * n) by {
        forall y: nat | y in Members(ws[..n]) ensures y !in Shifted(Ones(ws[n], 64), 64 * n) {
          InShifted(Ones(ws[n], 64), 64 * n, y);
        }
      }
    }
  }

  lemma MembersSnoc(ws: seq<Word>)
    requires ws != []
    ensures var n := |ws| - 1; Members(ws) == Members(ws[..n]) + Shifted(Ones(ws[n], 64), 64 * n)
  {
    var n := |ws| - 1;
    forall y: nat ensures y in Members(ws) <==> y in Members(ws[..n]) + Shifted(Ones(ws[n], 64), 64 * n) {
      InMembers(ws, y);
      InMembers(ws[..n], y);
      InShifted(Ones(ws[n], 64), 64 * n, y);
      if y >= 64 * n {
        assert y / 64 == n ==> y % 64 == y - 64 * n;
      }
    }
  }

  // ---------- Wordwise operations on words of two lengths ----------

  function WordAt(ws: seq<Word>, k: nat): (w: Word) {
    if k < |ws| then ws[k] else 0
  }

  lemma HasAt(ws: seq<Word>, x: nat)
    ensures Has(ws, x) <==> Bit(WordAt(ws, x / 64), x % 64)
  {
    if x / 64 >= |ws| {
      BitZero(x % 64);
    }
  }

  function Max(a: nat, b: nat): (m: nat) {
    if a < b then b else a
  }

  function Min(a: nat, b: nat): (m: nat) {
    if a < b then a else b
  }

  function UnionWords(a: seq<Word>, b: seq<Word>): (r: seq<Word>) {
    seq(Max(|a|, |b|), k requires 0 <= k => OrW(WordAt(a, k), WordAt(b, k)))
  }

  function XorWords(a: seq<Word>, b: seq<Word>): (r: seq<Word>) {
    seq(Max(|a|, |b|), k requires 0 <= k => XorW(WordAt(a, k), WordAt(b, k)))
  }

  function AndWords(a: seq<Word>, b: seq<Word>): (r: seq<Word>) {
    seq(|a|, k requires 0 <= k => AndW(WordAt(a, k), WordAt(b, k)))
  }

  function MinusWords(a: seq<Word>, b: seq<Word>): (r: seq<Word>) {
    seq(|a|, k requires 0 <= k => AndW(WordAt(a, k), Not(WordAt(b, k))))
  }

  lemma UnionMembers(a: seq<Word>, b: seq<Word>)
    ensures Members(UnionWords(a, b)) == Members(a) + Members(b)
  {
    var r := UnionWords(a, b);
    forall x: nat ensures Has(r, x) <==> x in Members(a) + Members(b) {
      InMembers(a, x);
      InMembers(b, x);
      HasAt(a, x);
      HasAt(b, x);
      OrBit(WordAt(a, x / 64), WordAt(b, x / 64), x % 64);
      BitZero(x % 64);
    }
    SameMembers(r, Members(a) + Members(b));
  }

  /** The symmetric difference of two sets. */
  function Toggle(a: set<nat>, b: set<nat>): (r: set<nat>) {
    (a - b) + (b - a)
  }

  lemma XorMembers(a: seq<Word>, b: seq<Word>)
    ensures Members(XorWords(a, b)) == Toggle(Members(a), Members(b))
  {
    var r := XorWords(a, b);
    forall x: nat ensures Has(r, x) <==> x in Toggle(Members(a), Members(b)) {
      InMembers(a, x);
      InMembers(b, x);
      HasAt(a, x);
      HasAt(b, x);
      XorBit(WordAt(a, x / 64), WordAt(b, x / 64), x % 64);
      BitZero(x % 64);
    }
    SameMembers(r, Toggle(Members(a), Members(b)));
  }

  lemma AndMembers(a: seq<Word>, b: seq<Word>)
    ensures Members(AndWords(a, b)) == Members(a) * Members(b)
  {
    var r := AndWords(a, b);
    forall x: nat ensures Has(r, x) <==> x in Members(a) * Members(b) {
      InMembers(a, x);
      InMembers(b, x);
      HasAt(b, x);
      AndBit(WordAt(a, x / 64), WordAt(b, x / 64), x % 64);
    }
    SameMembers(r, Members(a) * Members(b));
  }

  lemma MinusMembers(a: seq<Word>, b: seq<Word>)
    ensures Members(MinusWords(a, b)) == Members(a) - Members(b)
  {
    var r := MinusWords(a, b);
    forall x: nat ensures Has(r, x) <==> x in Members(a) - Members(b) {
      InMembers(a, x);
      InMembers(b, x);
      HasAt(b, x);
      AndBit(WordAt(a, x / 64), Not(WordAt(b, x / 64)), x % 64);
      NotBit(WordAt(b, x / 64), x % 64);
    }
    SameMembers(r, Members(a) - Members(b));
  }

  /** Inclusion and exclusion, for words of any two lengths. */
  lemma InclusionExclusion(a: seq<Word>, b: seq<Word>)
    ensures TotalCount(UnionWords(a, b)) + TotalCount(AndWords(a, b)) == TotalCount(a) + TotalCount(b)
  {
    TotalCountIs(UnionWords(a, b));
    TotalCountIs(AndWords(a, b));
    TotalCountIs(a);
    TotalCountIs(b);
    UnionMembers(a, b);
    AndMembers(a, b);
    assert |Members(a) + Members(b)| + |Members(a) * Members(b)| == |Members(a)| + |Members(b)|;
  }
}
