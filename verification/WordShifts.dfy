/** Shifting a whole sequence of words by any number of bits. */
module WordShifts {
  import opened Words
  import opened WordSets

  lemma {:induction false} OrZero(a: nat)
    ensures Or(a, 0) == a
  {
    if a > 0 {
      OrZero(a / 2);
    }
  }

  /** Word i after a shift to the left by e words and k bits. */
  function LeftWord(ws: seq<Word>, e: nat, k: nat, i: nat): (w: Word)
    requires k < 64
  {
    if i < e then 0
    else if k == 0 then WordAt(ws, i - e)
    else MergeUp(ws, k, i - e)
  }

  /** Word j with its bits moved up by k, filled from the word below. */
  function MergeUp(ws: seq<Word>, k: nat, j: nat): (w: Word)
    requires 0 < k < 64
  {
    if j == 0 then Shl(WordAt(ws, 0), k)
    else OrW(Shl(WordAt(ws, j), k), Shr(WordAt(ws, j - 1), 64 - k))
  }

  function LeftWords(ws: seq<Word>, e: nat, k: nat): (r: seq<Word>)
    requires k < 64
  {
    seq(|ws| + e + (if k == 0 then 0 else 1), i requires 0 <= i => LeftWord(ws, e, k, i))
  }

  /** Word i after a shift to the right by e words and k bits. */
  function RightWord(ws: seq<Word>, e: nat, k: nat, i: nat): (w: Word)
    requires k < 64
  {
    if k == 0 then WordAt(ws, i + e) else MergeDown(ws, k, i + e)
  }

  /** Word j with its bits moved down by k, filled from the word above. */
  function MergeDown(ws: seq<Word>, k: nat, j: nat): (w: Word)
    requires 0 < k < 64
  {
    if j + 1 >= |ws| then Shr(WordAt(ws, j), k)
    else OrW(Shr(WordAt(ws, j), k), Shl(WordAt(ws, j + 1), 64 - k))
  }

  function RightWords(ws: seq<Word>, e: nat, k: nat): (r: seq<Word>)
    requires e <= |ws| && k < 64
  {
    seq(|ws| - e, i requires 0 <= i => RightWord(ws, e, k, i))
  }

  /** Bit b of a merged word comes from k bits further down. */
  lemma MergeUpBit(ws: seq<Word>, k: nat, j: nat, b: nat)
    requires 0 < k < 64 && b < 64
    ensures Bit(MergeUp(ws, k, j), b) <==> 64 * j + b >= k && Has(ws, 64 * j + b - k)
  {
    var up := WordAt(ws, j);
    ShlBit(up, k, b);
    if j > 0 {
      var below := WordAt(ws, j - 1);
      ShrBit(below, 64 - k, b);
      OrBit(Shl(up, k), Shr(below, 64 - k), b);
      WordIsPow2();
      if b >= k {
        BitHigh(below, 64, b + (64 - k));
      }
    }
    if 64 * j + b >= k {
      HasAt(ws, 64 * j + b - k);
      DivMod64(64 * j + b - k, if b >= k then j else j - 1, if b >= k then b - k else 64 + b - k);
    }
  }

  lemma DivMod64(x: nat, q: int, r: nat)
    requires x == 64 * q + r && r < 64
    ensures x / 64 == q && x % 64 == r
  {
  }

  /** Bit b of a merged word comes from k bits further up. */
  lemma MergeDownBit(ws: seq<Word>, k: nat, j: nat, b: nat)
    requires 0 < k < 64 && b < 64
    ensures Bit(MergeDown(ws, k, j), b) <==> Has(ws, 64 * j + b + k)
  {
    var high, low := WordAt(ws, j), WordAt(ws, j + 1);
    ShrBit(high, k, b);
    ShlBit(low, 64 - k, b);
    OrBit(Shr(high, k), Shl(low, 64 - k), b);
    HasAt(ws, 64 * j + b + k);
    DivMod64(64 * j + b + k, if b + k < 64 then j else j + 1, if b + k < 64 then b + k else b + k - 64);
    if b + k >= 64 {
      WordIsPow2();
      BitHigh(high, 64, b + k);
      BitZero(b + k - 64);
    }
  }

  lemma LeftBit(ws: seq<Word>, e: nat, k: nat, i: nat, b: nat)
    requires b < 64 && k < 64
    ensures Bit(LeftWord(ws, e, k, i), b) <==> 64 * i + b >= 64 * e + k && Has(ws, 64 * i + b - (64 * e + k))
  {
    if i < e {
      BitZero(b);
    } else if k == 0 {
      HasAt(ws, 64 * i + b - 64 * e);
      DivMod64(64 * i + b - 64 * e, i - e, b);
    } else {
      MergeUpBit(ws, k, i - e, b);
    }
  }

  lemma RightBit(ws: seq<Word>, e: nat, k: nat, i: nat, b: nat)
    requires b < 64 && k < 64
    ensures Bit(RightWord(ws, e, k, i), b) <==> Has(ws, 64 * i + b + 64 * e + k)
  {
    if k == 0 {
      HasAt(ws, 64 * i + b + 64 * e);
      DivMod64(64 * i + b + 64 * e, i + e, b);
    } else {
      MergeDownBit(ws, k, i + e, b);
    }
  }

  /** The words of a left shift stand for the numbers moved up. */
  lemma LeftMembers(ws: seq<Word>, e: nat, k: nat, s: nat)
    requires k < 64 && s == 64 * e + k
    ensures Members(LeftWords(ws, e, k)) == Shifted(Members(ws), s)
  {
    var r := LeftWords(ws, e, k);
    forall y: nat ensures Has(r, y) <==> y in Shifted(Members(ws), s) {
      InShifted(Members(ws), s, y);
      LeftBit(ws, e, k, y / 64, y % 64);
      if y >= s {
        InMembers(ws, y - s);
      }
    }
    SameMembers(r, Shifted(Members(ws), s));
  }

  /** The words of a right shift stand for the numbers moved down, without those that would fall below zero. */
  lemma RightMembers(ws: seq<Word>, e: nat, k: nat, s: nat)
    requires e <= |ws| && k < 64 && s == 64 * e + k
    ensures Members(RightWords(ws, e, k)) == Dropped(Members(ws), s)
  {
    var r := RightWords(ws, e, k);
    forall y: nat ensures Has(r, y) <==> y in Dropped(Members(ws), s) {
      InDropped(Members(ws), s, y);
      RightBit(ws, e, k, y / 64, y % 64);
      InMembers(ws, y + s);
    }
    SameMembers(r, Dropped(Members(ws), s));
  }

  /** Shifting right by as much as one has shifted left gives back the set. */
  lemma ShiftRoundTrip(ws: seq<Word>, e: nat, k: nat)
    requires k < 64
    ensures Members(RightWords(LeftWords(ws, e, k), e, k)) == Members(ws)
  {
    var s := 64 * e + k;
    LeftMembers(ws, e, k, s);
    RightMembers(LeftWords(ws, e, k), e, k, s);
    DropShift(Members(ws), s);
  }

  /** The words of a left shift, put together. */
  lemma LeftAssembled(r: seq<Word>, ws: seq<Word>, e: nat, k: nat)
    requires k < 64 && |r| == |ws| + e + (if k == 0 then 0 else 1)
    requires forall p: nat :: p < e ==> r[p] == 0
    requires forall p: nat :: p + e < |r| ==> r[p + e] == if k == 0 then ws[p] else MergeUp(ws, k, p)
    ensures r == LeftWords(ws, e, k)
  {
    forall i: nat | i < |r| ensures r[i] == LeftWord(ws, e, k, i) {
      if i >= e {
        assert r[(i - e) + e] == r[i];
      }
    }
  }

  lemma RightAssembled(r: seq<Word>, ws: seq<Word>, e: nat, k: nat)
    requires k < 64 && e <= |ws| && |r| == |ws| - e
    requires forall p: nat :: p < |r| ==> r[p] == if k == 0 then ws[p + e] else MergeDown(ws, k, p + e)
    ensures r == RightWords(ws, e, k)
  {
  }
}
