/** Words as bit vectors: what the operations of SipHash do to the bits is what they do to the numbers. */
module SipHashBits {
  import opened Words
  import opened LittleEndian
  import WordShifts
  import opened SipHash
  import opened BitVectors

  function One(b: bool): (n: nat) {
    if b then 1 else 0
  }

  /** The number that the lowest n bits of v make. */
  function Low(v: bv64, n: nat): (r: nat)
    decreases n, v
  {
    if n == 0 then 0 else One(Odd(v)) + 2 * Low(v >> 1, n - 1)
  }

  lemma {:induction false} LowBelow(v: bv64, n: nat)
    ensures Low(v, n) < Pow2(n)
    decreases n
  {
    if n > 0 {
      LowBelow(v >> 1, n - 1);
    }
  }

  /** The number of a bit vector. */
  function W(v: bv64): (w: Word) {
    WordIsPow2();
    LowBelow(v, 64);
    Low(v, 64)
  }

  // ---------- Exclusive or ----------

  lemma {:induction false} LowXor(a: bv64, b: bv64, c: bv64, n: nat)
    requires Differs(a, b, c, n)
    ensures Low(c, n) == Xor(Low(a, n), Low(b, n))
    decreases n
  {
    if n > 0 {
      LowXor(a >> 1, b >> 1, c >> 1, n - 1);
      XorStep(Low(a >> 1, n - 1), Low(b >> 1, n - 1), Odd(a), Odd(b));
    }
  }

  lemma XorStep(x: nat, y: nat, a: bool, b: bool)
    ensures Xor(One(a) + 2 * x, One(b) + 2 * y) == One(a != b) + 2 * Xor(x, y)
  {
  }

  lemma WXor(a: bv64, b: bv64, c: bv64)
    requires c == a ^ b
    ensures W(c) == XorW(W(a), W(b))
  {
    XorDiffers(a, b, c, 64);
    LowXor(a, b, c, 64);
  }

  // ---------- Addition ----------

  /** Adding up, from the lowest bit: a carry goes in and a carry comes out. */
  lemma {:induction false} LowSum(a: bv64, b: bv64, x: bv64, s: bv64, n: nat) returns (carry: bool)
    requires n > 0 && Adds(a, b, x, s, n)
    ensures Low(a, n) + Low(b, n) + One(Odd(x)) == Low(s, n) + Scaled(One(carry), n)
    decreases n
  {
    if n == 1 {
      carry := Two(Odd(a), Odd(b), Odd(x));
    } else {
      carry := LowSum(a >> 1, b >> 1, x >> 1, s >> 1, n - 1);
    }
  }

  lemma SumOf(a: bv64, b: bv64, s: bv64, x: bv64, n: nat)
    requires n == 64 && Adds(a, b, x, s, n) && !Odd(x)
    requires Low(a, n) < WORD && Low(b, n) < WORD && Low(s, n) < WORD
    ensures Low(s, n) == Add(Low(a, n), Low(b, n))
  {
    var carry := LowSum(a, b, x, s, n);
    ScaledOne(carry, n);
    WordIsPow2();
  }

  lemma {:induction false} ScaledOne(b: bool, n: nat)
    ensures Scaled(One(b), n) == if b then Pow2(n) else 0
  {
    if n > 0 {
      ScaledOne(b, n - 1);
    }
  }

  lemma WAdds(a: bv64, b: bv64, x: bv64, s: bv64)
    requires Adds(a, b, x, s, 64) && !Odd(x)
    ensures W(s) == Add(W(a), W(b))
  {
    assert W(a) < WORD && W(b) < WORD && W(s) < WORD;
    SumOf(a, b, s, x, 64);
  }

  lemma WSum(a: bv64, b: bv64, s: bv64)
    requires IsSum(a, b, s)
    ensures W(s) == Add(W(a), W(b))
  {
    SumAdds(a, b, s);
    WAdds(a, b, a ^ b ^ s, s);
  }

  // ---------- Rotation ----------

  /** Only the lowest n bits count. */
  lemma {:induction false} LowSame(u: bv64, v: bv64, n: nat)
    requires Same(u, v, n)
    ensures Low(u, n) == Low(v, n)
    decreases n
  {
    if n > 0 {
      LowSame(u >> 1, v >> 1, n - 1);
    }
  }

  /** The highest of n + 1 bits. */
  lemma {:induction false} LowTop(v: bv64, n: nat)
    ensures Low(v, n + 1) == Low(v, n) + Scaled(One(Has(v, n)), n)
    decreases n
  {
    if n > 0 {
      LowTop(v >> 1, n - 1);
    }
  }

  const TOP: nat := 0x8000_0000_0000_0000

  lemma TopIs(n: nat)
    requires n == 63
    ensures Pow2(n) == TOP
  {
    WordIsPow2();
    assert Pow2(n + 1) == 2 * Pow2(n);
  }

  /** Twice the number, with what is above 2^64 added at the lowest place. */
  lemma LowTurn(v: bv64, t: bv64, n: nat)
    requires n == 63 && Odd(t) == Has(v, n) && Same(t >> 1, v, n)
    ensures Low(t, n + 1) == if Low(v, n + 1) < Pow2(n) then 2 * Low(v, n + 1) else 2 * (Low(v, n + 1) - Pow2(n)) + 1
  {
    LowSame(t >> 1, v, n);
    LowTop(v, n);
    LowBelow(v, n);
    ScaledOne(Has(v, n), n);
  }

  lemma WTurn(v: bv64, t: bv64)
    requires t == Turn(v)
    ensures W(t) == if W(v) < TOP then 2 * W(v) else 2 * (W(v) - TOP) + 1
  {
    TurnSame(v, t);
    LowTurn(v, t, 63);
    TopIs(63);
  }

  lemma {:induction false} SpinParts(v: bv64, n: nat) returns (h: nat, l: nat)
    requires n <= 64
    ensures h < Pow2(n) && l < Pow2(64 - n)
    ensures W(v) == Scaled(h, 64 - n) + l && W(Spin(v, n)) == Scaled(l, n) + h
    decreases n
  {
    if n == 0 {
      h, l := SpinNone(v);
    } else {
      h, l := SpinParts(v, n - 1);
      WTurn(Spin(v, n - 1), Spin(v, n));
      h, l := PartsTurn(h, l, n - 1, 64 - n, W(v), W(Spin(v, n - 1)));
    }
  }

  lemma SpinNone(v: bv64) returns (h: nat, l: nat)
    ensures h < Pow2(0) && l < Pow2(64) && W(v) == Scaled(h, 64) + l && W(v) == Scaled(l, 0) + h
  {
    h, l := 0, W(v);
    ScaledZero(64);
    WordIsPow2();
  }

  /** A number of two parts, turned by one more place. */
  lemma PartsTurn(h: nat, l: nat, m: nat, n: nat, x: nat, y: nat) returns (h': nat, l': nat)
    requires m + n == 63 && h < Pow2(m) && l < Pow2(n + 1) && x == Scaled(h, n + 1) + l && y == Scaled(l, m) + h
    ensures h' < Pow2(m + 1) && l' < Pow2(n) && x == Scaled(h', n) + l'
    ensures Scaled(l', m + 1) + h' == if y < TOP then 2 * y else 2 * (y - TOP) + 1
  {
    TopIs(n + m);
    ScaledPow(n, m);
    ScaledDouble(h, n);
    if l < Pow2(n) {
      h', l' := 2 * h, l;
      ScaledLess(l, Pow2(n), m);
    } else {
      h', l' := 2 * h + 1, l - Pow2(n);
      ScaledPlus(2 * h, 1, n);
      ScaledPow(0, n);
      ScaledPlus(Pow2(n), l', m);
    }
  }

  lemma {:induction false} ScaledZero(n: nat)
    ensures Scaled(0, n) == 0
  {
    if n > 0 {
      ScaledZero(n - 1);
    }
  }

  lemma {:induction false} ScaledDouble(b: nat, s: nat)
    ensures Scaled(2 * b, s) == Scaled(b, s + 1)
  {
    if s > 0 {
      ScaledDouble(b, s - 1);
    }
  }

  lemma {:induction false} ScaledLess(a: nat, b: nat, s: nat)
    requires a < b
    ensures Scaled(a, s) + Pow2(s) <= Scaled(b, s)
  {
    if s > 0 {
      ScaledLess(a, b, s - 1);
    }
  }

  lemma {:induction false} ScaledPlus(a: nat, b: nat, s: nat)
    ensures Scaled(a + b, s) == Scaled(a, s) + Scaled(b, s)
  {
    if s > 0 {
      ScaledPlus(a, b, s - 1);
    }
  }

  lemma {:induction false} ScaledPow(k: nat, s: nat)
    ensures Scaled(Pow2(k), s) == Pow2(k + s)
  {
    if s > 0 {
      ScaledPow(k, s - 1);
    }
  }

  lemma {:induction false} ScaledPos(h: nat, s: nat)
    ensures h > 0 ==> Scaled(h, s) >= Pow2(s)
  {
    if s > 0 {
      ScaledPos(h, s - 1);
    }
  }

  lemma ScaledHalf(h: nat, s: nat)
    ensures Scaled(h, s) == Scaled(h / 2, s + 1) + if h % 2 == 1 then Pow2(s) else 0
  {
    ScaledDouble(h / 2, s);
    ScaledPlus(2 * (h / 2), h % 2, s);
    ScaledPow(0, s);
    ScaledZero(s);
  }

  /** A left shift drops the high part. */
  lemma {:induction false} ShlParts(x: Word, h: nat, l: nat, b: nat)
    requires b <= 64 && l < Pow2(64 - b) && x == Scaled(h, 64 - b) + l
    ensures Shl(x, b) == Scaled(l, b)
  {
    if b == 0 {
      ScaledPos(h, 64);
      ScaledZero(64);
      WordIsPow2();
    } else {
      var odd := h % 2;
      var l1 := l + if odd == 1 then Pow2(64 - b) else 0;
      ScaledHalf(h, 64 - b);
      assert Pow2(65 - b) == 2 * Pow2(64 - b);
      ShlParts(x, h / 2, l1, b - 1);
      ScaledPlus(l, Pow2(64 - b), b);
      ScaledPow(64 - b, b);
      WordIsPow2();
      ScaledBelow(l, 64 - b, b);
    }
  }

  lemma {:induction false} ShrFirst(x: Word, s: nat)
    requires s > 0
    ensures Shr(x, s) == Shr(x / 2, s - 1)
  {
    if s > 1 {
      ShrFirst(x, s - 1);
    }
  }

  /** A right shift drops the low part. */
  lemma {:induction false} ShrParts(x: Word, h: nat, l: nat, s: nat)
    requires l < Pow2(s) && x == Scaled(h, s) + l
    ensures Shr(x, s) == h
  {
    if s > 0 {
      ShrFirst(x, s);
      ShrParts(x / 2, h, l / 2, s - 1);
    }
  }

  lemma {:induction false} OrSwap(a: nat, b: nat)
    ensures Or(a, b) == Or(b, a)
    decreases a + b
  {
    if a == 0 {
      WordShifts.OrZero(b);
    } else if b == 0 {
      WordShifts.OrZero(a);
    } else {
      OrSwap(a / 2, b / 2);
    }
  }

  /** To rotate is to exchange the high and the low part. */
  lemma RotateParts(x: Word, b: Amount, h: nat, l: nat)
    requires l < Pow2(64 - b) && h < Pow2(b) && x == Scaled(h, 64 - b) + l
    ensures RotateLeft(x, b) == Scaled(l, b) + h
  {
    ShlParts(x, h, l, b);
    ShrParts(x, h, l, 64 - b);
    OrSwap(Scaled(l, b), h);
    OrIsPlus(h, l, b);
  }

  lemma SpinIs(v: bv64, n: nat)
    requires n <= 64
    ensures W(Spin(v, n)) == RotateLeft(W(v), n)
  {
    var h, l := SpinParts(v, n);
    RotateParts(W(v), n, h, l);
  }

  // ---------- Bytes ----------

  function Octet(v: bv64): (b: Byte) {
    One(v & 1 == 1) + 2 * One(v & 2 == 2) + 4 * One(v & 4 == 4) + 8 * One(v & 8 == 8) +
    16 * One(v & 16 == 16) + 32 * One(v & 32 == 32) + 64 * One(v & 64 == 64) + 128 * One(v & 128 == 128)
  }

  lemma LowNibble(v: bv64, n: nat)
    ensures Low(v, n + 4) == One(v & 1 == 1) + 2 * One(v & 2 == 2) + 4 * One(v & 4 == 4) + 8 * One(v & 8 == 8) +
                             16 * Low(v >> 4, n)
  {
    assert Low(v >> 3, n + 1) == One(v & 8 == 8) + 2 * Low(v >> 4, n);
    assert Low(v >> 2, n + 2) == One(v & 4 == 4) + 2 * Low(v >> 3, n + 1);
    assert Low(v >> 1, n + 3) == One(v & 2 == 2) + 2 * Low(v >> 2, n + 2);
  }

  lemma HighNibble(v: bv64, n: nat)
    ensures Low(v >> 4, n + 4) == One(v & 16 == 16) + 2 * One(v & 32 == 32) + 4 * One(v & 64 == 64) +
                                  8 * One(v & 128 == 128) + 16 * Low(v >> 8, n)
  {
    LowNibble(v >> 4, n);
  }

  /** The lowest byte of a bit vector. */
  lemma LowOctet(v: bv64, n: nat)
    ensures Low(v, n + 8) == Octet(v) + 256 * Low(v >> 8, n)
  {
    LowNibble(v, n + 4);
    HighNibble(v, n);
  }

  /** v has the bytes bs, the lowest first. */
  predicate Spells(octet: bv64 -> Byte, v: bv64, bs: seq<Byte>)
    decreases |bs|, v
  {
    bs == [] || (octet(v) == bs[0] && Spells(octet, v >> 8, bs[1..]))
  }

  lemma {:induction false} LowBytes(v: bv64, bs: seq<Byte>)
    requires Spells(Octet, v, bs)
    ensures Low(v, 8 * |bs|) == LE(bs)
    decreases |bs|
  {
    if bs != [] {
      LowBytes(v >> 8, bs[1..]);
      LowOctet(v, 8 * (|bs| - 1));
    }
  }

  lemma SpellsMore(octet: bv64 -> Byte, v: bv64, u: bv64, bs: seq<Byte>)
    requires u == v >> 8 && Spells(octet, u, bs)
    ensures Spells(octet, v, [octet(v)] + bs)
  {
    assert ([octet(v)] + bs)[1..] == bs;
  }

  lemma SpellsFour(octet: bv64 -> Byte, v0: bv64, v1: bv64, v2: bv64, v3: bv64, v4: bv64, bs: seq<Byte>)
    requires v1 == v0 >> 8 && v2 == v1 >> 8 && v3 == v2 >> 8 && v4 == v3 >> 8 && Spells(octet, v4, bs)
    ensures Spells(octet, v0, [octet(v0)] + ([octet(v1)] + ([octet(v2)] + ([octet(v3)] + bs))))
  {
    SpellsMore(octet, v3, v4, bs);
    SpellsMore(octet, v2, v3, [octet(v3)] + bs);
    SpellsMore(octet, v1, v2, [octet(v2)] + ([octet(v3)] + bs));
    SpellsMore(octet, v0, v1, [octet(v1)] + ([octet(v2)] + ([octet(v3)] + bs)));
  }

  lemma SpellsEight(octet: bv64 -> Byte, v0: bv64, v1: bv64, v2: bv64, v3: bv64, v4: bv64, v5: bv64, v6: bv64,
                    v7: bv64, bs: seq<Byte>)
    requires v1 == v0 >> 8 && v2 == v1 >> 8 && v3 == v2 >> 8 && v4 == v3 >> 8
    requires v5 == v4 >> 8 && v6 == v5 >> 8 && v7 == v6 >> 8
    requires bs == [octet(v0), octet(v1), octet(v2), octet(v3), octet(v4), octet(v5), octet(v6), octet(v7)]
    ensures Spells(octet, v0, bs)
  {
    var high := [octet(v4)] + ([octet(v5)] + ([octet(v6)] + ([octet(v7)] + [])));
    SpellsFour(octet, v4, v5, v6, v7, v7 >> 8, []);
    SpellsFour(octet, v0, v1, v2, v3, v4, high);
    assert [octet(v0)] + ([octet(v1)] + ([octet(v2)] + ([octet(v3)] + high))) == bs;
  }

  function ByPlace(b0: nat, b1: nat, b2: nat, b3: nat, b4: nat, b5: nat, b6: nat, b7: nat): (n: nat) {
    b0 + 0x100 * b1 + 0x1_0000 * b2 + 0x100_0000 * b3 + 0x1_0000_0000 * b4 +
    0x100_0000_0000 * b5 + 0x1_0000_0000_0000 * b6 + 0x100_0000_0000_0000 * b7
  }

  lemma LEEight(bs: seq<Byte>)
    requires |bs| == 8
    ensures LE(bs) == ByPlace(bs[0], bs[1], bs[2], bs[3], bs[4], bs[5], bs[6], bs[7])
  {
    assert LE(bs[6..]) == bs[6] + 256 * LE(bs[7..]) && LE(bs[7..]) == bs[7];
    assert LE(bs[4..]) == bs[4] + 256 * LE(bs[5..]) && LE(bs[5..]) == bs[5] + 256 * LE(bs[6..]);
    assert LE(bs[2..]) == bs[2] + 256 * LE(bs[3..]) && LE(bs[3..]) == bs[3] + 256 * LE(bs[4..]);
    assert LE(bs) == bs[0] + 256 * LE(bs[1..]) && LE(bs[1..]) == bs[1] + 256 * LE(bs[2..]);
  }

  /** The number of a bit vector is the little-endian word of its bytes. */
  lemma WBytes(v: bv64, bs: seq<Byte>)
    requires |bs| == 8 && Spells(Octet, v, bs)
    ensures W(v) == WordOf(bs) == ByPlace(bs[0], bs[1], bs[2], bs[3], bs[4], bs[5], bs[6], bs[7])
  {
    LowBytes(v, bs);
    LEEight(bs);
  }
}
