/** Comparing bitsets, and how far the comparisons look. */
module BitsetCompare {
  import opened Words
  import opened WordSets
  import opened Bitset
  import opened BitsetScan

  /** The bits both bitsets have room for. */
  function Common(a: seq<Word>, b: seq<Word>): (n: nat) {
    64 * Min(|a|, |b|)
  }

  ghost predicate Agree(a: seq<Word>, b: seq<Word>, k: nat) {
    forall x: nat :: x < 64 * k ==> (Has(a, x) <==> Has(b, x))
  }

  lemma AgreeStep(a: seq<Word>, b: seq<Word>, k: nat)
    requires k < |a| && k < |b| && Agree(a, b, k) && a[k] == b[k]
    ensures Agree(a, b, k + 1)
  {
    forall x: nat | x < 64 * (k + 1) ensures Has(a, x) <==> Has(b, x) {
      if x >= 64 * k {
        DivMod(k, x - 64 * k);
      }
    }
  }

  lemma DisagreeAt(a: seq<Word>, b: seq<Word>, k: nat, n: nat)
    requires k < |a| && k < |b| && k < n && a[k] != b[k]
    ensures !Agree(a, b, n)
  {
    if Agree(a, b, n) {
      WordIsPow2();
      forall i: nat | i < 64 ensures Bit(a[k], i) == Bit(b[k], i) {
        DivMod(k, i);
        assert Has(a, 64 * k + i) <==> Has(b, 64 * k + i);
      }
      BitsDetermine(a[k], b[k], 64);
    }
  }

  /** bitset_equal: whether the two agree on the bits both have room for. */
  method Equal(b1: Bitset, b2: Bitset) returns (same: bool)
    requires b1.Valid() && b2.Valid()
    ensures same <==> Agree(b1.Contents(), b2.Contents(), Min(b1.arraysize, b2.arraysize))
  {
    ghost var ws, bs := b1.Contents(), b2.Contents();
    var minlength := Min(b1.arraysize, b2.arraysize);
    for k := 0 to minlength
      invariant Agree(ws, bs, k)
    {
      if b1.words[k] != b2.words[k] {
        DisagreeAt(ws, bs, k, minlength);
        return false;
      }
      AgreeStep(ws, bs, k);
    }
    return true;
  }

  /** The sets are the same below n, and nothing above n can tell them apart. */
  lemma AgreeIs(a: seq<Word>, b: seq<Word>)
    ensures Agree(a, b, Min(|a|, |b|)) <==> Below(Members(a), Common(a, b)) == Below(Members(b), Common(a, b))
  {
    var n := Common(a, b);
    var p, q := Below(Members(a), n), Below(Members(b), n);
    if Agree(a, b, Min(|a|, |b|)) {
      forall x: nat ensures x in p <==> x in q {
        InMembers(a, x);
        InMembers(b, x);
      }
    } else {
      var x: nat :| x < n && !(Has(a, x) <==> Has(b, x));
      InMembers(a, x);
      InMembers(b, x);
      assert !(x in p <==> x in q);
    }
  }

  /** No member lies beyond the bits that both have room for. */
  ghost predicate NothingBeyond(a: seq<Word>, n: nat) {
    forall x :: x in Members(a) ==> x < n
  }

  /** bitset_equal answers yes exactly for equal sets. */
  ghost predicate EqualRight(a: seq<Word>, b: seq<Word>) {
    Agree(a, b, Min(|a|, |b|)) <==> Members(a) == Members(b)
  }

  /** The sets are equal exactly when the answer is yes and neither has members beyond the common words. */
  lemma EqualMeans(a: seq<Word>, b: seq<Word>)
    ensures var same, n := Agree(a, b, Min(|a|, |b|)), Common(a, b);
            Members(a) == Members(b) <==> same && NothingBeyond(a, n) && NothingBeyond(b, n)
  {
    AgreeIs(a, b);
    OneFits(a, b);
    if NothingBeyond(a, Common(a, b)) && NothingBeyond(b, Common(a, b)) {
      assert Below(Members(a), Common(a, b)) == Members(a);
      assert Below(Members(b), Common(a, b)) == Members(b);
    }
  }

  /**
   * bitset_equal is right exactly when either the common words differ,
   * or neither bitset has members beyond them.
   */
  lemma EqualIff(a: seq<Word>, b: seq<Word>)
    ensures EqualRight(a, b) <==>
            (Agree(a, b, Min(|a|, |b|)) ==> NothingBeyond(a, Common(a, b)) && NothingBeyond(b, Common(a, b)))
  {
    EqualMeans(a, b);
  }

  /** The shorter of the two has nothing beyond the common words, so anything there tells them apart. */
  lemma OneFits(a: seq<Word>, b: seq<Word>)
    ensures NothingBeyond(a, Common(a, b)) || NothingBeyond(b, Common(a, b))
    ensures Members(a) == Members(b) ==> NothingBeyond(a, Common(a, b)) && NothingBeyond(b, Common(a, b))
  {
    if |a| <= |b| {
      assert NothingBeyond(a, 64 * |a|);
    } else {
      assert NothingBeyond(b, 64 * |b|);
    }
  }

  // ---------- bitset_subseteq ----------

  ghost predicate Included(a: seq<Word>, b: seq<Word>, k: nat) {
    forall x: nat :: x < 64 * k && Has(a, x) ==> Has(b, x)
  }

  lemma IncludedStep(a: seq<Word>, b: seq<Word>, k: nat)
    requires k < |a| && k < |b| && Included(a, b, k) && AndW(a[k], b[k]) == a[k]
    ensures Included(a, b, k + 1)
  {
    forall x: nat | x < 64 * (k + 1) && Has(a, x) ensures Has(b, x) {
      if x >= 64 * k {
        DivMod(k, x - 64 * k);
        AndBit(a[k], b[k], x - 64 * k);
      }
    }
  }

  lemma ExcludedAt(a: seq<Word>, b: seq<Word>, k: nat, n: nat)
    requires k < |a| && k < |b| && k < n && AndW(a[k], b[k]) != a[k]
    ensures !Included(a, b, n)
  {
    if Included(a, b, n) {
      WordIsPow2();
      forall i: nat | i < 64 ensures Bit(AndW(a[k], b[k]), i) == Bit(a[k], i) {
        DivMod(k, i);
        AndBit(a[k], b[k], i);
        assert Has(a, 64 * k + i) ==> Has(b, 64 * k + i);
      }
      BitsDetermine(AndW(a[k], b[k]), a[k], 64);
    }
  }

  method Subseteq(b1: Bitset, b2: Bitset) returns (inside: bool)
    requires b1.Valid() && b2.Valid()
    ensures inside <==> Included(b1.Contents(), b2.Contents(), Min(b1.arraysize, b2.arraysize))
  {
    ghost var ws, bs := b1.Contents(), b2.Contents();
    var minlength := Min(b1.arraysize, b2.arraysize);
    for k := 0 to minlength
      invariant Included(ws, bs, k)
    {
      if AndW(b1.words[k], b2.words[k]) != b1.words[k] {
        ExcludedAt(ws, bs, k, minlength);
        return false;
      }
      IncludedStep(ws, bs, k);
    }
    return true;
  }

  /** bitset_subseteq answers yes exactly for subsets. */
  ghost predicate SubseteqRight(a: seq<Word>, b: seq<Word>) {
    Included(a, b, Min(|a|, |b|)) <==> Members(a) <= Members(b)
  }

  /**
   * bitset_subseteq is right exactly when either it answers no,
   * or the first bitset has no members beyond the common words; what the second has there does not matter.
   */
  lemma SubseteqIff(a: seq<Word>, b: seq<Word>)
    ensures SubseteqRight(a, b) <==> (Included(a, b, Min(|a|, |b|)) ==> NothingBeyond(a, Common(a, b)))
  {
    SubseteqMeans(a, b);
  }

  /** One set is inside the other exactly when the answer is yes and it has no members beyond the common words. */
  lemma SubseteqMeans(a: seq<Word>, b: seq<Word>)
    ensures Members(a) <= Members(b) <==> Included(a, b, Min(|a|, |b|)) && NothingBeyond(a, Common(a, b))
  {
    var n := Common(a, b);
    if Included(a, b, Min(|a|, |b|)) {
      if NothingBeyond(a, n) {
        forall x | x in Members(a) ensures x in Members(b) {
          InMembers(a, x);
          InMembers(b, x);
        }
      } else {
        var x :| x in Members(a) && x >= n;
        InMembers(b, x);
        InMembers(a, x);
      }
    } else {
      var x: nat :| x < n && Has(a, x) && !Has(b, x);
      InMembers(a, x);
      InMembers(b, x);
    }
  }

  // ---------- Which arrays may be compared ----------

  predicate AllZero(ws: seq<Word>) {
    forall k :: 0 <= k < |ws| ==> ws[k] == 0
  }

  /** Members beyond the first words are one bits in the others. */
  lemma BeyondTail(p: seq<Word>, t: seq<Word>)
    ensures NothingBeyond(p + t, 64 * |p|) <==> AllZero(t)
  {
    var a := p + t;
    if AllZero(t) {
      forall x | x in Members(a) ensures x < 64 * |p| {
        InMembers(a, x);
        BitZero(x % 64);
      }
    } else {
      var k :| 0 <= k < |t| && t[k] != 0;
      CtzBelow(t[k]);
      CtzBit(t[k], 0);
      var x := 64 * (|p| + k) + Ctz(t[k]);
      DivMod(|p| + k, Ctz(t[k]));
      InMembers(a, x);
    }
  }

  function Blank(m: nat): (ws: seq<Word>)
    ensures |ws| == m
  {
    seq(m, _ => 0)
  }

  /** bitset_equal is right on all arrays with given words behind the common ones exactly when those words are zero. */
  lemma EqualSafe(m: nat, ta: seq<Word>, tb: seq<Word>)
    requires ta == [] || tb == []
    ensures (forall p: seq<Word>, q: seq<Word> :: |p| == |q| == m ==> EqualRight(p + ta, q + tb))
       <==> AllZero(ta) && AllZero(tb)
  {
    if AllZero(ta) && AllZero(tb) {
      forall p: seq<Word>, q: seq<Word> | |p| == |q| == m ensures EqualRight(p + ta, q + tb) {
        EqualIff(p + ta, q + tb);
        BeyondTail(p, ta);
        BeyondTail(q, tb);
      }
    } else {
      var z := Blank(m);
      EqualIff(z + ta, z + tb);
      BeyondTail(z, ta);
      BeyondTail(z, tb);
      assert Agree(z + ta, z + tb, m);
      assert !EqualRight(z + ta, z + tb);
    }
  }

  /** bitset_subseteq is right on all arrays exactly when the words that only the first has are zero. */
  lemma SubseteqSafe(m: nat, ta: seq<Word>, tb: seq<Word>)
    requires ta == [] || tb == []
    ensures (forall p: seq<Word>, q: seq<Word> :: |p| == |q| == m ==> SubseteqRight(p + ta, q + tb)) <==> AllZero(ta)
  {
    if AllZero(ta) {
      forall p: seq<Word>, q: seq<Word> | |p| == |q| == m ensures SubseteqRight(p + ta, q + tb) {
        SubseteqIff(p + ta, q + tb);
        BeyondTail(p, ta);
      }
    } else {
      var z := Blank(m);
      SubseteqIff(z + ta, z + tb);
      BeyondTail(z, ta);
      assert Included(z + ta, z + tb, m);
      assert !SubseteqRight(z + ta, z + tb);
    }
  }

  /** The empty bitset passes for equal to any other, and for a superset of it. */
  lemma EqualExample()
    ensures Agree([], [1], 0) && Included([1], [], 0)
    ensures Members([1]) == {0} && Members([]) == {}
  {
    forall x: nat ensures Has([1], x) <==> x in {0} {
      if 0 < x < 64 {
        assert 1 < Pow2(1);
        BitHigh(1, 1, x);
      }
    }
    SameMembers([1], {0});
  }
}
