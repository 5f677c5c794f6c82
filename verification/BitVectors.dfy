/** Bit vectors bit by bit, from the lowest one up: exclusive or, addition with carries, and rotation. */
module BitVectors {

  predicate Odd(v: bv64) {
    v & 1 == 1
  }

  // ---------- Exclusive or ----------

  /** Bit by bit, for n bits: c is the exclusive or of a and b. */
  predicate Differs(a: bv64, b: bv64, c: bv64, n: nat)
    decreases n, a
  {
    n == 0 || (Odd(c) == (Odd(a) != Odd(b)) && Differs(a >> 1, b >> 1, c >> 1, n - 1))
  }

  lemma XorBits(a: bv64, b: bv64)
    ensures Odd(a ^ b) == (Odd(a) != Odd(b)) && (a ^ b) >> 1 == (a >> 1) ^ (b >> 1)
  {
  }

  lemma {:induction false} XorDiffers(a: bv64, b: bv64, c: bv64, n: nat)
    requires c == a ^ b
    ensures Differs(a, b, c, n)
    decreases n
  {
    if n > 0 {
      XorBits(a, b);
      XorDiffers(a >> 1, b >> 1, c >> 1, n - 1);
    }
  }

  // ---------- Addition ----------

  /** The bits that at least two of the three have. */
  function Majority(a: bv64, b: bv64, x: bv64): (r: bv64) {
    (a & b) | (x & (a | b))
  }

  /** Two of the three. */
  predicate Two(a: bool, b: bool, c: bool) {
    (a && b) || (c && (a || b))
  }

  /** Bit by bit: x has the carries into the sum s of a and b, for n bits. */
  predicate Adds(a: bv64, b: bv64, x: bv64, s: bv64, n: nat)
    decreases n, a
  {
    n == 0 || (Odd(s) == ((Odd(a) != Odd(b)) != Odd(x)) && (n > 1 ==> Odd(x >> 1) == Two(Odd(a), Odd(b), Odd(x))) &&
               Adds(a >> 1, b >> 1, x >> 1, s >> 1, n - 1))
  }

  /** m has its lowest n bits. */
  predicate Full(m: bv64, n: nat)
    decreases n, m
  {
    n == 0 || (Odd(m) && Full(m >> 1, n - 1))
  }

  lemma FullByte(m: bv64, n: nat)
    requires m & 0xff == 0xff && Full(m >> 8, n)
    ensures Full(m, n + 8)
  {
    assert Full(m >> 7, n + 1);
    assert Full(m >> 6, n + 2);
    assert Full(m >> 5, n + 3);
    assert Full(m >> 4, n + 4);
    assert Full(m >> 3, n + 5);
    assert Full(m >> 2, n + 6);
    assert Full(m >> 1, n + 7);
  }

  lemma FullRest()
    ensures Full(0x7fff_ffff_ffff_ffff, 63)
  {
    assert Full(0x1, 1) && Full(0x3, 2) && Full(0x7, 3) && Full(0xf, 4) && Full(0x1f, 5) && Full(0x3f, 6) &&
           Full(0x7f, 7);
    FullByte(0x7fff, 7);
    FullByte(0x7f_ffff, 15);
    FullByte(0x7fff_ffff, 23);
    FullByte(0x7f_ffff_ffff, 31);
    FullByte(0x7fff_ffff_ffff, 39);
    FullByte(0x7f_ffff_ffff_ffff, 47);
    FullByte(0x7fff_ffff_ffff_ffff, 55);
  }

  /** Within m, the bits of x are the carries into the sum of a and b. */
  predicate Carries(a: bv64, b: bv64, x: bv64, s: bv64, m: bv64) {
    s == a ^ b ^ x && ((x >> 1) ^ Majority(a, b, x)) & m == 0
  }

  lemma CarriesDown(a: bv64, b: bv64, x: bv64, s: bv64, m: bv64)
    requires Carries(a, b, x, s, m)
    ensures Carries(a >> 1, b >> 1, x >> 1, s >> 1, m >> 1)
  {
  }

  lemma CarriesBit(a: bv64, b: bv64, x: bv64, s: bv64, m: bv64)
    requires Carries(a, b, x, s, m)
    ensures Odd(s) == ((Odd(a) != Odd(b)) != Odd(x)) && (Odd(m) ==> Odd(x >> 1) == Two(Odd(a), Odd(b), Odd(x)))
  {
  }

  lemma {:induction false} CarriesAdd(a: bv64, b: bv64, x: bv64, s: bv64, m: bv64, n: nat)
    requires n > 0 && Full(m, n - 1) && Carries(a, b, x, s, m)
    ensures Adds(a, b, x, s, n)
    decreases n
  {
    CarriesBit(a, b, x, s, m);
    if n > 1 {
      CarriesDown(a, b, x, s, m);
      CarriesAdd(a >> 1, b >> 1, x >> 1, s >> 1, m >> 1, n - 1);
    }
  }

  /** s is the sum of a and b: the bits in which it is not their exclusive or are the carries. */
  predicate IsSum(a: bv64, b: bv64, s: bv64) {
    var x := a ^ b ^ s;
    Carries(a, b, x, s, 0x7fff_ffff_ffff_ffff) && !Odd(x)
  }

  lemma SumAdds(a: bv64, b: bv64, s: bv64)
    requires IsSum(a, b, s)
    ensures var x := a ^ b ^ s; Adds(a, b, x, s, 64) && !Odd(x)
  {
    FullRest();
    CarriesAdd(a, b, a ^ b ^ s, s, 0x7fff_ffff_ffff_ffff, 64);
  }

  // ---------- Rotation ----------

  /** u and v have the same n lowest bits. */
  predicate Same(u: bv64, v: bv64, n: nat)
    decreases n, u
  {
    n == 0 || (Odd(u) == Odd(v) && Same(u >> 1, v >> 1, n - 1))
  }

  lemma SameStep(u: bv64, v: bv64, m: bv64)
    requires u & m == v & m
    ensures (u >> 1) & (m >> 1) == (v >> 1) & (m >> 1) && (Odd(m) ==> Odd(u) == Odd(v))
  {
  }

  lemma {:induction false} MaskSame(u: bv64, v: bv64, m: bv64, n: nat)
    requires Full(m, n) && u & m == v & m
    ensures Same(u, v, n)
    decreases n
  {
    if n > 0 {
      SameStep(u, v, m);
      MaskSame(u >> 1, v >> 1, m >> 1, n - 1);
    }
  }

  /** Bit n of v, which is bit 0 after n steps down. */
  predicate Has(v: bv64, n: nat)
    decreases n, v
  {
    if n == 0 then Odd(v) else Has(v >> 1, n - 1)
  }

  /** t has bit n and no lower one, and no higher one either. */
  predicate Single(t: bv64, n: nat)
    decreases n, t
  {
    if n == 0 then t == 1 else !Odd(t) && Single(t >> 1, n - 1)
  }

  lemma SingleByte(t: bv64, n: nat)
    requires t & 0xff == 0 && Single(t >> 8, n)
    ensures Single(t, n + 8)
  {
    assert Single(t >> 7, n + 1);
    assert Single(t >> 6, n + 2);
    assert Single(t >> 5, n + 3);
    assert Single(t >> 4, n + 4);
    assert Single(t >> 3, n + 5);
    assert Single(t >> 2, n + 6);
    assert Single(t >> 1, n + 7);
  }

  lemma SingleTop()
    ensures Single(0x8000_0000_0000_0000, 63)
  {
    assert Single(0x2, 1) && Single(0x4, 2) && Single(0x8, 3) && Single(0x10, 4);
    assert Single(0x20, 5) && Single(0x40, 6) && Single(0x80, 7);
    SingleByte(0x8000, 7);
    SingleByte(0x80_0000, 15);
    SingleByte(0x8000_0000, 23);
    SingleByte(0x80_0000_0000, 31);
    SingleByte(0x8000_0000_0000, 39);
    SingleByte(0x80_0000_0000_0000, 47);
    SingleByte(0x8000_0000_0000_0000, 55);
  }

  predicate Meets(v: bv64, t: bv64) {
    v & t != 0
  }

  lemma MeetsStep(v: bv64, t: bv64)
    ensures !Odd(t) ==> Meets(v, t) == Meets(v >> 1, t >> 1)
    ensures t == 1 ==> Meets(v, t) == Odd(v)
  {
  }

  lemma {:induction false} MeetsHas(v: bv64, t: bv64, n: nat)
    requires Single(t, n)
    ensures Meets(v, t) == Has(v, n)
    decreases n
  {
    MeetsStep(v, t);
    if n > 0 {
      MeetsHas(v >> 1, t >> 1, n - 1);
    }
  }

  /** A rotation by one place. */
  function Turn(v: bv64): (r: bv64) {
    (v << 1) | (v >> 63)
  }

  lemma TurnBits(v: bv64)
    ensures Odd(Turn(v)) == Meets(v, 0x8000_0000_0000_0000)
    ensures (Turn(v) >> 1) & 0x7fff_ffff_ffff_ffff == v & 0x7fff_ffff_ffff_ffff
  {
  }

  /** The highest bit becomes the lowest, and the others move up. */
  lemma TurnSame(v: bv64, t: bv64)
    requires t == Turn(v)
    ensures Odd(t) == Has(v, 63) && Same(t >> 1, v, 63)
  {
    TurnBits(v);
    SingleTop();
    MeetsHas(v, 0x8000_0000_0000_0000, 63);
    FullRest();
    MaskSame(t >> 1, v, 0x7fff_ffff_ffff_ffff, 63);
  }

  /** A rotation by n places, one after the other. */
  function Spin(v: bv64, n: nat): (r: bv64)
    decreases n, v
  {
    if n == 0 then v else Turn(Spin(v, n - 1))
  }

  lemma {:induction false} SpinTwice(v: bv64, m: nat, n: nat)
    ensures Spin(v, m + n) == Spin(Spin(v, m), n)
    decreases n
  {
    if n > 0 {
      SpinTwice(v, m, n - 1);
    }
  }

  lemma Spin4(v: bv64)
    ensures Spin(v, 4) == (v << 4) | (v >> 60)
  {
    assert Spin(v, 1) == (v << 1) | (v >> 63);
    assert Spin(v, 2) == (v << 2) | (v >> 62);
    assert Spin(v, 3) == (v << 3) | (v >> 61);
  }

  lemma Spin8(v: bv64)
    ensures Spin(v, 8) == (v << 8) | (v >> 56)
  {
    Spin4(v);
    Spin4((v << 4) | (v >> 60));
    SpinTwice(v, 4, 4);
  }

  lemma Spin12(v: bv64)
    ensures Spin(v, 12) == (v << 12) | (v >> 52)
  {
    Spin8(v);
    Spin4((v << 8) | (v >> 56));
    SpinTwice(v, 8, 4);
  }

  lemma Spin13(v: bv64)
    ensures Spin(v, 13) == (v << 13) | (v >> 51)
  {
    Spin12(v);
  }

  lemma Spin16(v: bv64)
    ensures Spin(v, 16) == (v << 16) | (v >> 48)
  {
    Spin8(v);
    Spin8((v << 8) | (v >> 56));
    SpinTwice(v, 8, 8);
  }

  lemma Spin17(v: bv64)
    ensures Spin(v, 17) == (v << 17) | (v >> 47)
  {
    Spin16(v);
  }

  lemma Spin21(v: bv64)
    ensures Spin(v, 21) == (v << 21) | (v >> 43)
  {
    Spin17(v);
    Spin4((v << 17) | (v >> 47));
    SpinTwice(v, 17, 4);
  }

  lemma Spin32(v: bv64)
    ensures Spin(v, 32) == (v << 32) | (v >> 32)
  {
    Spin16(v);
    Spin16((v << 16) | (v >> 48));
    SpinTwice(v, 16, 16);
  }
}
