/** Little-endian words, built up with shifts and bitwise or. */
module LittleEndian {
  import opened Words

  /** The number with the given base-256 digits, lowest first. */
  function LE(bs: seq<Byte>): (n: nat) {
    if bs == [] then 0 else bs[0] + 256 * LE(bs[1..])
  }

  /** b times two to the s, without a word's limit. */
  function Scaled(b: nat, s: nat): (n: nat) {
    if s == 0 then b else 2 * Scaled(b, s - 1)
  }

  lemma ScaledByte(b: nat, s: nat)
    ensures Scaled(b, s + 8) == 256 * Scaled(b, s)
  {
    assert Scaled(b, s + 2) == 4 * Scaled(b, s);
    assert Scaled(b, s + 4) == 4 * Scaled(b, s + 2);
    assert Scaled(b, s + 6) == 4 * Scaled(b, s + 4);
    assert Scaled(b, s + 8) == 4 * Scaled(b, s + 6);
  }

  lemma {:induction false} LESnoc(bs: seq<Byte>, b: Byte)
    ensures LE(bs + [b]) == LE(bs) + Scaled(b, 8 * |bs|)
  {
    if bs == [] {
      assert [] + [b] == [b];
      assert [b][1..] == [];
    } else {
      assert (bs + [b])[1..] == bs[1..] + [b];
      LESnoc(bs[1..], b);
      ScaledByte(b, 8 * (|bs| - 1));
    }
  }

  lemma {:induction false} ScaledBelow(b: nat, n: nat, s: nat)
    requires b < Pow2(n)
    ensures Scaled(b, s) < Pow2(n + s)
  {
    if s > 0 {
      ScaledBelow(b, n, s - 1);
      assert Pow2(n + s) == 2 * Pow2(n + (s - 1));
    }
  }

  lemma {:induction false} PowersGrow(a: nat, b: nat)
    requires a <= b
    ensures Pow2(a) <= Pow2(b)
  {
    if a < b {
      PowersGrow(a, b - 1);
    }
  }

  /** A left shift that loses nothing is a multiplication. */
  lemma {:induction false} ShlScaled(w: Word, n: nat, s: nat)
    requires w < Pow2(n) && n + s <= 64
    ensures Shl(w, s) == Scaled(w, s)
  {
    if s > 0 {
      ShlScaled(w, n, s - 1);
      ScaledBelow(w, n, s);
      PowersGrow(n + s, 64);
      WordIsPow2();
    }
  }

  /** Bitwise or with something scaled past a number is addition. */
  lemma {:induction false} OrIsPlus(a: nat, b: nat, s: nat)
    requires a < Pow2(s)
    ensures Or(a, Scaled(b, s)) == a + Scaled(b, s)
  {
    if s == 0 {
      OrZeroLeft(b);
    } else {
      OrIsPlus(a / 2, b, s - 1);
      assert Scaled(b, s) / 2 == Scaled(b, s - 1) && Scaled(b, s) % 2 == 0;
    }
  }

  lemma {:induction false} OrZeroLeft(a: nat)
    ensures Or(0, a) == a
  {
    if a > 0 {
      OrZeroLeft(a / 2);
    }
  }

  lemma {:induction false} LEBelow(bs: seq<Byte>)
    ensures LE(bs) < Pow2(8 * |bs|)
  {
    if bs != [] {
      LEBelow(bs[1..]);
      Pow2Byte(8 * (|bs| - 1));
    }
  }

  lemma Pow2Byte(s: nat)
    ensures Pow2(s + 8) == 256 * Pow2(s)
  {
    assert Pow2(s + 2) == 4 * Pow2(s);
    assert Pow2(s + 4) == 4 * Pow2(s + 2);
    assert Pow2(s + 6) == 4 * Pow2(s + 4);
    assert Pow2(s + 8) == 4 * Pow2(s + 6);
  }

  /** At most eight bytes make a word. */
  lemma LEWord(bs: seq<Byte>)
    requires |bs| <= 8
    ensures LE(bs) < WORD
  {
    LEBelow(bs);
    PowersGrow(8 * |bs|, 64);
    WordIsPow2();
  }

  lemma ByteBelow(b: Byte)
    ensures b < Pow2(8)
  {
    Pow2Byte(0);
  }

  /** m |= b << (8 * |bs|) puts byte b on top of the bytes that are there. */
  lemma OrByte(bs: seq<Byte>, b: Byte, m: Word, s: nat)
    requires |bs| < 8 && m == LE(bs) && s == 8 * |bs|
    ensures OrW(m, Shl(b, s)) == LE(bs + [b])
  {
    LESnoc(bs, b);
    LEBelow(bs);
    ByteBelow(b);
    ShlScaled(b, 8, s);
    OrIsPlus(m, b, s);
  }
}
