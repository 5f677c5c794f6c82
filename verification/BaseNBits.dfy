/** Moving bits between bytes and groups of bits with shifts and masks. */
module BaseNBits {
  import opened Words
  import opened BitStrings

  lemma SmallPowers()
    ensures Pow2(4) == 16 && Pow2(5) == 32 && Pow2(6) == 64 && Pow2(8) == 256
  {
    assert Pow2(2) == 4;
    assert Pow2(4) == 16;
    assert Pow2(6) == 64;
  }

  // ---------- Single bits ----------

  lemma {:induction false} AndAtMost(a: nat, b: nat)
    ensures And(a, b) <= b
  {
    if a > 0 && b > 0 {
      AndAtMost(a / 2, b / 2);
    }
  }

  /** Conversion to unsigned char: the low eight bits. */
  function Truncate(x: Word): (b: Byte) {
    AndAtMost(x, 255);
    AndW(x, 255)
  }

  /** ~(0xff << c) */
  function Low(c: nat): (m: Word) {
    Not(Shl(255, c))
  }

  lemma {:induction false} OnesBit(n: nat, i: nat)
    ensures Bit(Pow2(n) - 1, i) <==> i < n
  {
    if n == 0 {
      BitZero(i);
    } else {
      assert (Pow2(n) - 1) / 2 == Pow2(n - 1) - 1;
      if i > 0 {
        OnesBit(n - 1, i - 1);
      }
    }
  }

  lemma TruncateBit(x: Word, i: nat)
    ensures Bit(Truncate(x), i) <==> i < 8 && Bit(x, i)
  {
    SmallPowers();
    OnesBit(8, i);
    AndBit(x, 255, i);
  }

  lemma LowBit(c: nat, i: nat)
    requires i < 64
    ensures Bit(Low(c), i) <==> !(c <= i < c + 8)
  {
    NotBit(Shl(255, c), i);
    ShlBit(255, c, i);
    SmallPowers();
    if i >= c {
      OnesBit(8, i - c);
    }
  }

  /** Masking with ~(0xff << c) keeps the low c bits of a byte. */
  lemma MaskBit(x: Word, c: nat, i: nat)
    requires c <= 8
    ensures Bit(Truncate(AndW(x, Low(c))), i) <==> i < c && Bit(x, i)
  {
    TruncateBit(AndW(x, Low(c)), i);
    if i < 8 {
      AndBit(x, Low(c), i);
      LowBit(c, i);
    }
  }

  lemma {:induction false} HighZero(x: nat, n: nat, m: nat)
    requires n <= m && x < Pow2(m) && forall i: nat :: n <= i < m ==> !Bit(x, i)
    ensures x < Pow2(n)
  {
    if n == 0 {
      if m > 0 {
        assert !Bit(x, 0);
        forall i: nat | 0 <= i < m - 1 ensures !Bit(x / 2, i) {
          assert !Bit(x, i + 1);
        }
        HighZero(x / 2, 0, m - 1);
      }
    } else {
      forall i: nat | n - 1 <= i < m - 1 ensures !Bit(x / 2, i) {
        assert !Bit(x, i + 1);
      }
      HighZero(x / 2, n - 1, m - 1);
    }
  }

  lemma Fits(x: Byte, c: nat)
    requires c <= 8 && forall i: nat :: c <= i < 8 ==> !Bit(x, i)
    ensures x < Pow2(c)
  {
    SmallPowers();
    HighZero(x, c, 8);
  }

  /** Two bit strings of a number are the same when their bits are. */
  lemma BitsAre(v: nat, n: nat, r: seq<bool>)
    requires |r| == n && forall j: nat :: j < n ==> (r[j] <==> Bit(v, n - 1 - j))
    ensures Bits(v, n) == r
  {
    forall j: nat | j < n ensures Bits(v, n)[j] == r[j] {
      BitsAt(v, n, j);
    }
  }

  // ---------- Taking groups out of bytes ----------

  /** count bits from start on, from one byte. */
  function ExtractPartial(value: Byte, start: nat, count: nat): (d: Byte)
    requires start + count < 8
  {
    var t1 := Truncate(Shr(value, 8 - count - start));
    Truncate(AndW(t1, Low(count)))
  }

  lemma PartialBit(value: Byte, start: nat, count: nat, i: nat)
    requires start + count < 8
    ensures Bit(ExtractPartial(value, start, count), i) <==> i < count && Bit(value, i + (8 - count - start))
  {
    MaskBit(Truncate(Shr(value, 8 - count - start)), count, i);
    TruncateBit(Shr(value, 8 - count - start), i);
    ShrBit(value, 8 - count - start, i);
  }

  lemma PartialAt(value: Byte, start: nat, count: nat, j: nat)
    requires start + count < 8 && j < count
    ensures Bit(ExtractPartial(value, start, count), count - 1 - j) <==> Bits(value, 8)[start + j]
  {
    PartialBit(value, start, count, count - 1 - j);
    BitsAt(value, 8, start + j);
  }

  lemma PartialSmall(value: Byte, start: nat, count: nat)
    requires start + count < 8
    ensures ExtractPartial(value, start, count) < Pow2(count)
  {
    var d := ExtractPartial(value, start, count);
    forall i: nat | count <= i < 8 ensures !Bit(d, i) {
      PartialBit(value, start, count, i);
    }
    Fits(d, count);
  }

  lemma PartialBits(value: Byte, start: nat, count: nat)
    requires start + count < 8
    ensures Bits(ExtractPartial(value, start, count), count) == Bits(value, 8)[start..start + count]
  {
    var d, r := ExtractPartial(value, start, count), Bits(value, 8)[start..start + count];
    forall j: nat | j < count ensures r[j] <==> Bit(d, count - 1 - j) {
      PartialAt(value, start, count, j);
    }
    BitsAre(d, count, r);
  }

  /** count bits from start on, the last of them from the next byte. */
  function ExtractOverlapping(previous: Byte, next: Byte, start: nat, count: nat): (d: Byte)
    requires start < 8 <= start + count < 16 && count <= 8
  {
    var inNext := count - (8 - start);
    Truncate(AndW(Merged(previous, next, inNext), Low(count)))
  }

  /** (previous << inNext) | (next >> (8 - inNext) & ~(0xff << inNext)) */
  function Merged(previous: Byte, next: Byte, inNext: nat): (m: Word)
    requires inNext <= 8
  {
    OrW(Truncate(Shl(previous, inNext)), Truncate(AndW(Shr(next, 8 - inNext), Low(inNext))))
  }

  lemma UpperPart(previous: Byte, inNext: nat, i: nat)
    ensures Bit(Truncate(Shl(previous, inNext)), i) <==> inNext <= i < 8 && Bit(previous, i - inNext)
  {
    TruncateBit(Shl(previous, inNext), i);
    if i < 8 {
      ShlBit(previous, inNext, i);
    }
  }

  lemma LowerPart(next: Byte, inNext: nat, i: nat)
    requires inNext <= 8
    ensures Bit(Truncate(AndW(Shr(next, 8 - inNext), Low(inNext))), i) <==> i < inNext && Bit(next, i + (8 - inNext))
  {
    MaskBit(Shr(next, 8 - inNext), inNext, i);
    ShrBit(next, 8 - inNext, i);
  }

  lemma MergedBit(previous: Byte, next: Byte, inNext: nat, i: nat)
    requires inNext <= 8 && i < 8
    ensures Bit(OrW(Truncate(Shl(previous, inNext)), Truncate(AndW(Shr(next, 8 - inNext), Low(inNext)))), i)
       <==> if i < inNext then Bit(next, i + (8 - inNext)) else Bit(previous, i - inNext)
  {
    OrBit(Truncate(Shl(previous, inNext)), Truncate(AndW(Shr(next, 8 - inNext), Low(inNext))), i);
    UpperPart(previous, inNext, i);
    LowerPart(next, inNext, i);
  }

  /** merged is previous moved up by inNext, with the inNext highest bits of next below it. */
  ghost predicate Merge(merged: Word, previous: Byte, next: Byte, inNext: nat)
    requires inNext <= 8
  {
    forall i: nat ::
      i < 8 ==> (Bit(merged, i) <==> if i < inNext then Bit(next, i + (8 - inNext)) else Bit(previous, i - inNext))
  }

  /** r is the low count bits of merged. */
  ghost predicate Masked(r: Byte, merged: Word, count: nat) {
    forall i: nat :: i < 8 ==> (Bit(r, i) <==> i < count && Bit(merged, i))
  }

  lemma MergedIs(previous: Byte, next: Byte, inNext: nat)
    requires inNext <= 8
    ensures Merge(Merged(previous, next, inNext), previous, next, inNext)
  {
    forall i: nat | i < 8
      ensures Bit(Merged(previous, next, inNext), i)
         <==> if i < inNext then Bit(next, i + (8 - inNext)) else Bit(previous, i - inNext)
    {
      MergedBit(previous, next, inNext, i);
    }
  }

  lemma MaskedIs(merged: Word, count: nat)
    requires count <= 8
    ensures Masked(Truncate(AndW(merged, Low(count))), merged, count)
  {
    forall i: nat | i < 8 ensures Bit(Truncate(AndW(merged, Low(count))), i) <==> i < count && Bit(merged, i) {
      MaskBit(merged, count, i);
    }
  }

  lemma OverlapAt(r: Byte, merged: Word, previous: Byte, next: Byte, start: nat, count: nat, j: nat)
    requires start < 8 <= start + count < 16 && j < count <= 8
    requires Masked(r, merged, count) && Merge(merged, previous, next, start + count - 8)
    ensures Bit(r, count - 1 - j) <==>
            if j < 8 - start then Bits(previous, 8)[start + j] else Bits(next, 8)[j - (8 - start)]
  {
    if j < 8 - start {
      BitsAt(previous, 8, start + j);
    } else {
      BitsAt(next, 8, j - (8 - start));
    }
  }

  lemma OverlapBits(r: Byte, merged: Word, previous: Byte, next: Byte, start: nat, count: nat)
    requires start < 8 <= start + count < 16 && count <= 8
    requires Masked(r, merged, count) && Merge(merged, previous, next, start + count - 8)
    ensures Bits(r, count) == Bits(previous, 8)[start..] + Bits(next, 8)[..count - (8 - start)]
  {
    var bits := Bits(previous, 8)[start..] + Bits(next, 8)[..count - (8 - start)];
    forall j: nat | j < count ensures bits[j] <==> Bit(r, count - 1 - j) {
      OverlapAt(r, merged, previous, next, start, count, j);
    }
    BitsAre(r, count, bits);
  }

  lemma OverlappingBits(previous: Byte, next: Byte, start: nat, count: nat)
    requires start < 8 <= start + count < 16 && count <= 8
    ensures ExtractOverlapping(previous, next, start, count) < Pow2(count)
    ensures Bits(ExtractOverlapping(previous, next, start, count), count)
         == Bits(previous, 8)[start..] + Bits(next, 8)[..count - (8 - start)]
  {
    var inNext := count - (8 - start);
    var merged := Merged(previous, next, inNext);
    MergedIs(previous, next, inNext);
    MaskedIs(merged, count);
    Fits(Truncate(AndW(merged, Low(count))), count);
    OverlapBits(Truncate(AndW(merged, Low(count))), merged, previous, next, start, count);
  }

  // ---------- Putting groups into bytes ----------

  /** The high cur bits of a buffer are in use, the others are zero. */
  ghost predicate Clean(buffer: Byte, cur: nat) {
    cur <= 8 && forall i: nat :: i < 8 - cur ==> !Bit(buffer, i)
  }

  /** buffer |= value << (8 - cur - count) */
  function Append(buffer: Byte, value: Byte, cur: nat, count: nat): (r: Byte)
    requires cur + count <= 8
  {
    Truncate(OrW(buffer, Shl(value, 8 - cur - count)))
  }

  lemma AppendBit(buffer: Byte, value: Byte, cur: nat, count: nat, i: nat)
    requires cur + count <= 8 && i < 8
    ensures Bit(Append(buffer, value, cur, count), i)
       <==> Bit(buffer, i) || (i >= 8 - cur - count && Bit(value, i - (8 - cur - count)))
  {
    var shifted := Shl(value, 8 - cur - count);
    TruncateBit(OrW(buffer, shifted), i);
    OrBit(buffer, shifted, i);
    ShlBit(value, 8 - cur - count, i);
  }

  lemma AppendAt(buffer: Byte, value: Byte, cur: nat, count: nat, j: nat)
    requires cur + count <= 8 && Clean(buffer, cur) && value < Pow2(count) && j < cur + count
    ensures Bit(Append(buffer, value, cur, count), 7 - j)
       <==> if j < cur then Bits(buffer, 8)[j] else Bits(value, count)[j - cur]
  {
    AppendBit(buffer, value, cur, count, 7 - j);
    if j < cur {
      BitsAt(buffer, 8, j);
      BitHigh(value, count, 7 - j - (8 - cur - count));
    } else {
      BitsAt(value, count, j - cur);
    }
  }

  lemma AppendClean(buffer: Byte, value: Byte, cur: nat, count: nat)
    requires cur + count <= 8 && Clean(buffer, cur)
    ensures Clean(Append(buffer, value, cur, count), cur + count)
  {
    forall i: nat | i < 8 - (cur + count) ensures !Bit(Append(buffer, value, cur, count), i) {
      AppendBit(buffer, value, cur, count, i);
    }
  }

  lemma AppendBits(buffer: Byte, value: Byte, cur: nat, count: nat)
    requires cur + count <= 8 && Clean(buffer, cur) && value < Pow2(count)
    ensures Bits(Append(buffer, value, cur, count), 8)[..cur + count] == Bits(buffer, 8)[..cur] + Bits(value, count)
  {
    var r := Append(buffer, value, cur, count);
    var left, right := Bits(r, 8)[..cur + count], Bits(buffer, 8)[..cur] + Bits(value, count);
    forall j: nat | j < cur + count ensures left[j] == right[j] {
      AppendAt(buffer, value, cur, count, j);
      BitsAt(r, 8, j);
    }
    assert left == right;
  }

  /** buffer |= value >> inNext: the upper bits of a group that does not fit. */
  function AppendHead(buffer: Byte, value: Byte, inNext: nat): (r: Byte) {
    Truncate(OrW(buffer, Shr(value, inNext)))
  }

  lemma AppendHeadBit(buffer: Byte, value: Byte, inNext: nat, i: nat)
    requires i < 8
    ensures Bit(AppendHead(buffer, value, inNext), i) <==> Bit(buffer, i) || Bit(value, i + inNext)
  {
    TruncateBit(OrW(buffer, Shr(value, inNext)), i);
    OrBit(buffer, Shr(value, inNext), i);
    ShrBit(value, inNext, i);
  }

  /** r has the bits of buffer and those of value moved down by inNext. */
  ghost predicate HeadOf(r: Byte, buffer: Byte, value: Byte, inNext: nat) {
    forall i: nat {:trigger Bit(r, i)} :: i < 8 ==> (Bit(r, i) <==> Bit(buffer, i) || Bit(value, i + inNext))
  }

  lemma HeadAt(r: Byte, buffer: Byte, value: Byte, cur: nat, count: nat, j: nat)
    requires cur < 8 < cur + count && count <= 8 && Clean(buffer, cur) && value < Pow2(count) && j < 8
    requires HeadOf(r, buffer, value, cur + count - 8)
    ensures Bit(r, 7 - j) <==> if j < cur then Bits(buffer, 8)[j] else Bits(value, count)[j - cur]
  {
    if j < cur {
      BitsAt(buffer, 8, j);
      BitHigh(value, count, 7 - j + (cur + count - 8));
    } else {
      BitsAt(value, count, j - cur);
    }
  }

  lemma HeadBits(r: Byte, buffer: Byte, value: Byte, cur: nat, count: nat)
    requires cur < 8 < cur + count && count <= 8 && Clean(buffer, cur) && value < Pow2(count)
    requires HeadOf(r, buffer, value, cur + count - 8)
    ensures Bits(r, 8) == Bits(buffer, 8)[..cur] + Bits(value, count)[..8 - cur]
  {
    var bits := Bits(buffer, 8)[..cur] + Bits(value, count)[..8 - cur];
    forall j: nat | j < 8 ensures bits[j] <==> Bit(r, 8 - 1 - j) {
      HeadAt(r, buffer, value, cur, count, j);
    }
    BitsAre(r, 8, bits);
  }

  lemma AppendHeadBits(buffer: Byte, value: Byte, cur: nat, count: nat)
    requires cur < 8 < cur + count && count <= 8 && Clean(buffer, cur) && value < Pow2(count)
    ensures Bits(AppendHead(buffer, value, cur + count - 8), 8) ==
            Bits(buffer, 8)[..cur] + Bits(value, count)[..8 - cur]
  {
    var inNext := cur + count - 8;
    var r := AppendHead(buffer, value, inNext);
    forall i: nat | i < 8 ensures Bit(r, i) <==> Bit(buffer, i) || Bit(value, i + inNext) {
      AppendHeadBit(buffer, value, inNext, i);
    }
    HeadBits(r, buffer, value, cur, count);
  }

  lemma ZeroClean()
    ensures Clean(0, 0)
  {
    forall i: nat | i < 8 ensures !Bit(0, i) {
      BitZero(i);
    }
  }

  lemma AppendTailAt(value: Byte, count: nat, inNext: nat, j: nat)
    requires j < inNext <= count <= 8
    ensures Bit(Append(0, value, 0, inNext), 7 - j) == Bits(value, count)[count - inNext + j]
  {
    AppendBit(0, value, 0, inNext, 7 - j);
    BitZero(7 - j);
    BitsAt(value, count, count - inNext + j);
  }

  /** The lower bits, in a new buffer. */
  lemma AppendTailBits(value: Byte, count: nat, inNext: nat)
    requires 0 < inNext <= count <= 8
    ensures Bits(Append(0, value, 0, inNext), 8)[..inNext] == Bits(value, count)[count - inNext..]
  {
    var r := Append(0, value, 0, inNext);
    var left, right := Bits(r, 8)[..inNext], Bits(value, count)[count - inNext..];
    forall j: nat | j < inNext ensures left[j] == right[j] {
      BitsAt(r, 8, j);
      AppendTailAt(value, count, inNext, j);
    }
    assert left == right;
  }
}
