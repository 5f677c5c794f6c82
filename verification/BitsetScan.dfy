/** Scanning the members of a bitset in increasing order. */
module BitsetScan {
  import opened Words
  import opened WordSets
  import opened Bitset

  // ---------- The members in order ----------

  /** The members below n, in increasing order. */
  function Listing(s: set<nat>, n: nat): (r: seq<nat>) {
    if n == 0 then [] else Listing(s, n - 1) + if n - 1 in s then [n - 1] else []
  }

  predicate Increasing(r: seq<nat>) {
    forall i, j :: 0 <= i < j < |r| ==> r[i] < r[j]
  }

  lemma {:induction false} ListingHolds(s: set<nat>, n: nat, x: nat)
    ensures x in Listing(s, n) <==> x in s && x < n
  {
    if n > 0 {
      ListingHolds(s, n - 1, x);
    }
  }

  lemma {:induction false} ListingIncreasing(s: set<nat>, n: nat)
    ensures Increasing(Listing(s, n))
  {
    if n > 0 {
      ListingIncreasing(s, n - 1);
      var r := Listing(s, n - 1);
      forall i: nat | i < |r| ensures r[i] < n - 1 {
        ListingHolds(s, n - 1, r[i]);
      }
    }
  }

  function Below(s: set<nat>, n: nat): (r: set<nat>) {
    set x | x in s && x < n
  }

  lemma {:induction false} ListingSize(s: set<nat>, n: nat)
    ensures |Listing(s, n)| == |Below(s, n)|
  {
    if n == 0 {
      assert Below(s, n) == {};
    } else {
      ListingSize(s, n - 1);
      assert Below(s, n) == Below(s, n - 1) + if n - 1 in s then {n - 1} else {};
    }
  }

  /** The numbers of r are those of s, each once and in increasing order. */
  ghost predicate IsListing(r: seq<nat>, s: set<nat>) {
    Increasing(r) && |r| == |s| && forall x :: x in r <==> x in s
  }

  lemma ListingIs(s: set<nat>, n: nat)
    requires forall x :: x in s ==> x < n
    ensures IsListing(Listing(s, n), s)
  {
    ListingIncreasing(s, n);
    ListingSize(s, n);
    assert Below(s, n) == s;
    forall x ensures x in Listing(s, n) <==> x in s {
      ListingHolds(s, n, x);
    }
  }

  /** Where there are no members, the listing does not grow. */
  lemma {:induction false} ListingSkip(s: set<nat>, i: nat, j: nat)
    requires i <= j && forall x :: i <= x < j ==> x !in s
    ensures Listing(s, j) == Listing(s, i)
  {
    if i < j {
      ListingSkip(s, i, j - 1);
    }
  }

  lemma ListingNext(s: set<nat>, i: nat, j: nat)
    requires i <= j && j in s && forall x :: i <= x < j ==> x !in s
    ensures Listing(s, j + 1) == Listing(s, i) + [j]
  {
    ListingSkip(s, i, j);
  }

  // ---------- Single words ----------

  /** The first one bit of word x at or after bit from is the first member from 64 * x + from on. */
  lemma FirstInWord(ws: seq<Word>, x: nat, from: nat, y: nat)
    requires x < |ws| && from < 64 && Shr(ws[x], from) > 0
    ensures from + Ctz(Shr(ws[x], from)) < 64
    ensures Has(ws, 64 * x + from + Ctz(Shr(ws[x], from)))
    ensures 64 * x + from <= y < 64 * x + from + Ctz(Shr(ws[x], from)) ==> !Has(ws, y)
  {
    var w := Shr(ws[x], from);
    CtzBit(w, if y >= 64 * x + from then y - 64 * x - from else 0);
    ShrBit(ws[x], from, Ctz(w));
    if from + Ctz(w) >= 64 {
      WordIsPow2();
      BitHigh(ws[x], 64, from + Ctz(w));
    }
    DivMod(x, from + Ctz(w));
    if 64 * x + from <= y < 64 * x + from + Ctz(w) {
      ShrBit(ws[x], from, y - 64 * x - from);
      DivMod(x, y - 64 * x);
    }
  }

  lemma DivMod(x: nat, r: nat)
    requires r < 64
    ensures (64 * x + r) / 64 == x && (64 * x + r) % 64 == r
  {
  }

  /** A word that is zero from a bit on has no members there. */
  lemma NoneInWord(ws: seq<Word>, x: nat, from: nat, y: nat)
    requires x < |ws| && from < 64 && Shr(ws[x], from) == 0 && 64 * x + from <= y < 64 * x + 64
    ensures !Has(ws, y)
  {
    ShrBit(ws[x], from, y - 64 * x - from);
    BitZero(y - 64 * x - from);
    DivMod(x, y - 64 * x);
  }

  // ---------- Next member ----------

  /** The first member at or after i, if there is one. */
  ghost predicate IsNext(s: set<nat>, i: nat, found: bool, j: nat) {
    if found then i <= j && j in s && forall x :: i <= x < j ==> x !in s
    else forall x :: x in s ==> x < i
  }

  lemma FoundInWord(ws: seq<Word>, i: nat, x: nat, from: nat)
    requires x < |ws| && from < 64 && i <= 64 * x + from && Shr(ws[x], from) > 0
    requires forall y: nat :: i <= y < 64 * x + from ==> !Has(ws, y)
    ensures IsNext(Members(ws), i, true, 64 * x + from + Ctz(Shr(ws[x], from)))
  {
    var j := 64 * x + from + Ctz(Shr(ws[x], from));
    FirstInWord(ws, x, from, 0);
    InMembers(ws, j);
    forall y: nat | i <= y < j ensures y !in Members(ws) {
      InMembers(ws, y);
      FirstInWord(ws, x, from, y);
    }
  }

  lemma NoneBelow(ws: seq<Word>, i: nat, x: nat, from: nat)
    requires x < |ws| && from < 64 && Shr(ws[x], from) == 0
    requires forall y: nat :: i <= y < 64 * x + from ==> !Has(ws, y)
    ensures forall y: nat :: i <= y < 64 * (x + 1) ==> !Has(ws, y)
  {
    forall y: nat | i <= y < 64 * (x + 1) ensures !Has(ws, y) {
      if y >= 64 * x + from {
        NoneInWord(ws, x, from, y);
      }
    }
  }

  method NextSetBit(b: Bitset, i: nat) returns (found: bool, j: nat)
    requires b.Valid()
    ensures IsNext(b.Elements(), i, found, j) && (!found ==> j == i)
  {
    ghost var ws := b.Contents();
    j := i;
    var x := i / 64;
    if x >= b.arraysize {
      return false, i;
    }
    var w := Shr(b.words[x], i % 64);
    if w != 0 {
      FoundInWord(ws, i, x, i % 64);
      return true, i + Ctz(w);
    }
    NoneBelow(ws, i, x, i % 64);
    x := x + 1;
    while x < b.arraysize
      invariant i <= 64 * x && x <= b.arraysize
      invariant forall y: nat :: i <= y < 64 * x ==> !Has(ws, y)
    {
      w := b.words[x];
      if w != 0 {
        FoundInWord(ws, i, x, 0);
        return true, x * 64 + Ctz(w);
      }
      NoneBelow(ws, i, x, 0);
      x := x + 1;
    }
    return false, i;
  }

  /** for (i = 0; nextSetBit(b, &i); i++): the loop visits the members, each once, in increasing order. */
  method VisitByNext(b: Bitset) returns (visited: seq<nat>)
    requires b.Valid()
    ensures IsListing(visited, b.Elements())
  {
    ghost var s, bound := b.Elements(), 64 * b.arraysize;
    visited := [];
    var i := 0;
    var found, j := NextSetBit(b, i);
    while found
      invariant visited == Listing(s, i) && IsNext(s, i, found, j)
      decreases bound - i, found
    {
      ListingNext(s, i, j);
      visited := visited + [j];
      i := j + 1;
      found, j := NextSetBit(b, i);
    }
    ListingIs(s, i);
  }

  // ---------- Least and greatest member ----------

  method Minimum(b: Bitset) returns (m: nat)
    requires b.Valid()
    ensures if b.Elements() == {} then m == 0 else IsNext(b.Elements(), 0, true, m)
  {
    ghost var ws := b.Contents();
    for k := 0 to b.arraysize
      invariant forall y: nat :: y < 64 * k ==> !Has(ws, y)
    {
      var w := b.words[k];
      if w != 0 {
        FoundInWord(ws, 0, k, 0);
        return Ctz(w) + k * 64;
      }
      NoneBelow(ws, 0, k, 0);
    }
    return 0;
  }

  lemma LastInWord(ws: seq<Word>, k: nat, y: nat)
    requires k < |ws| && ws[k] > 0
    ensures Has(ws, 64 * k + Log2(ws[k]))
    ensures 64 * k + Log2(ws[k]) < y < 64 * (k + 1) ==> !Has(ws, y)
  {
    Log2Below(ws[k]);
    Log2Bit(ws[k], if y >= 64 * k then y - 64 * k else 0);
    DivMod(k, Log2(ws[k]));
    if 64 * k <= y < 64 * (k + 1) {
      DivMod(k, y - 64 * k);
    }
  }

  ghost predicate IsGreatest(s: set<nat>, m: nat) {
    m in s && forall x :: x in s ==> x <= m
  }

  lemma Greatest(ws: seq<Word>, k: nat)
    requires k < |ws| && ws[k] > 0
    requires forall y: nat :: 64 * (k + 1) <= y ==> !Has(ws, y)
    ensures IsGreatest(Members(ws), Log2(ws[k]) + k * 64)
  {
    LastInWord(ws, k, 0);
    InMembers(ws, Log2(ws[k]) + k * 64);
    forall x | x in Members(ws) ensures x <= Log2(ws[k]) + k * 64 {
      InMembers(ws, x);
      LastInWord(ws, k, x);
    }
  }

  method Maximum(b: Bitset) returns (m: nat)
    requires b.Valid()
    ensures if b.Elements() == {} then m == 0 else IsGreatest(b.Elements(), m)
  {
    ghost var ws := b.Contents();
    var k: nat := b.arraysize;
    while k > 0
      invariant k <= b.arraysize
      invariant forall y: nat :: 64 * k <= y ==> !Has(ws, y)
    {
      var w := b.words[k - 1];
      if w != 0 {
        m := Log2(w) + (k - 1) * 64;
        Greatest(ws, k - 1);
        return m;
      }
      NoneAbove(ws, k - 1);
      k := k - 1;
    }
    return 0;
  }

  lemma NoneAbove(ws: seq<Word>, k: nat)
    requires k < |ws| && ws[k] == 0
    requires forall y: nat :: 64 * (k + 1) <= y ==> !Has(ws, y)
    ensures forall y: nat :: 64 * k <= y ==> !Has(ws, y)
  {
    forall y: nat | 64 * k <= y ensures !Has(ws, y) {
      if y < 64 * (k + 1) {
        NoneInWord(ws, k, 0, y);
      }
    }
  }
}
