/**
  Number theory behind the in-place block exchange of getopt: the greatest
  common divisor, and the cycles of the rotation that moves every cell of a
  ring of m + k cells forward by k.
*/
module Cycles {

  /**
    The product of two integers, as a recursive function: proofs below use it
    through the named laws that follow instead of through the solver's own
    nonlinear arithmetic.
  */
  ghost function Times(a: int, b: int): int
    decreases if a < 0 then -a else a
  {
    if a == 0 then 0
    else if a > 0 then b + Times(a - 1, b)
    else Times(a + 1, b) - b
  }

  lemma {:induction false} TimesIsProduct(a: int, b: int)
    ensures Times(a, b) == a * b
    decreases if a < 0 then -a else a
  {
    if a > 0 {
      TimesIsProduct(a - 1, b);
      assert (a - 1) * b + b == a * b;
    } else if a < 0 {
      TimesIsProduct(a + 1, b);
      assert (a + 1) * b - b == a * b;
    }
  }

  lemma TimesCommutes(a: int, b: int)
    ensures Times(a, b) == Times(b, a)
  {
    TimesIsProduct(a, b);
    TimesIsProduct(b, a);
  }

  lemma TimesAdd(a: int, b: int, c: int)
    ensures Times(a, b + c) == Times(a, b) + Times(a, c)
    ensures Times(a, b - c) == Times(a, b) - Times(a, c)
  {
    TimesIsProduct(a, b);
    TimesIsProduct(a, c);
    TimesIsProduct(a, b + c);
    TimesIsProduct(a, b - c);
    assert a * (b + c) == a * b + a * c;
    assert a * (b - c) == a * b - a * c;
  }

  lemma TimesMinus(a: int, b: int, c: int)
    ensures Times(a - b, c) == Times(a, c) - Times(b, c)
    ensures Times(a + b, c) == Times(a, c) + Times(b, c)
  {
    TimesCommutes(a - b, c);
    TimesCommutes(a + b, c);
    TimesCommutes(a, c);
    TimesCommutes(b, c);
    TimesAdd(c, a, b);
  }

  lemma {:induction false} TimesAssociates(a: int, b: int, c: int)
    ensures Times(Times(a, b), c) == Times(a, Times(b, c))
    decreases if a < 0 then -a else a
  {
    if a > 0 {
      TimesAssociates(a - 1, b, c);
      TimesMinus(b, Times(a - 1, b), c);
    } else if a < 0 {
      TimesAssociates(a + 1, b, c);
      TimesMinus(Times(a + 1, b), b, c);
    }
  }

  /** A multiple of n strictly between -n and n is zero. */
  lemma SmallMultiple(n: int, q: int)
    requires -n < Times(n, q) < n
    ensures q == 0
  {
    TimesIsProduct(n, q);
    assert q >= 1 ==> n * q >= n;
    assert q <= -1 ==> n * q <= -n;
  }

  lemma CancelFactor(g: int, a: int, b: int)
    requires g > 0 && Times(g, a) == Times(g, b)
    ensures a == b
  {
    TimesAdd(g, a, b);
    SmallMultiple(g, a - b);
  }

  lemma DivMod(a: int, b: int)
    requires b > 0
    ensures a == Times(b, a / b) + a % b
  {
    TimesIsProduct(b, a / b);
  }

  lemma ResidueOf(i: nat, t: int, g: nat)
    requires i < g
    ensures (i + Times(g, t)) % g == i && (i + Times(g, t)) / g == t
  {
    var x := i + Times(g, t);
    DivMod(x, g);
    TimesAdd(g, x / g, t);
    SmallMultiple(g, x / g - t);
  }

  /** Euclid's recursion, the specification of the gcd loop. */
  function GcdOf(a: nat, b: nat): (g: nat)
    ensures a + b > 0 ==> g > 0
    ensures b > 0 ==> g <= b
    decreases b
  {
    if b == 0 then a else GcdOf(b, a % b)
  }

  /** The gcd divides both arguments. */
  lemma {:induction false} GcdDivides(a: nat, b: nat) returns (p: int, q: int)
    ensures a == Times(GcdOf(a, b), p) && b == Times(GcdOf(a, b), q)
    decreases b
  {
    if b == 0 {
      p, q := 1, 0;
      TimesCommutes(a, 1);
      TimesCommutes(a, 0);
    } else {
      var u, v := GcdDivides(b, a % b);
      var g, s := GcdOf(b, a % b), a / b;
      p, q := Times(u, s) + v, u;
      DivMod(a, b);
      TimesAssociates(g, u, s);
      TimesAdd(g, Times(u, s), v);
    }
  }

  /** The gcd is an integer combination of its arguments. */
  lemma {:induction false} Bezout(a: nat, b: nat) returns (x: int, y: int)
    ensures Times(a, x) + Times(b, y) == GcdOf(a, b)
    decreases b
  {
    if b == 0 {
      x, y := 1, 0;
      TimesCommutes(a, 1);
    } else {
      var u, v := Bezout(b, a % b);
      var s := a / b;
      x, y := v, u - Times(s, v);
      DivMod(a, b);
      TimesAdd(b, u, Times(s, v));
      TimesAssociates(b, s, v);
      TimesAdd(v, Times(b, s), a % b);
      TimesCommutes(v, Times(b, s));
      TimesCommutes(v, a % b);
      TimesCommutes(v, a);
    }
  }

  /** Every common divisor divides the gcd, so no common divisor is larger. */
  lemma GcdGreatest(a: nat, b: nat, d: nat, p: nat, q: nat) returns (k: int)
    requires a == Times(d, p) && b == Times(d, q)
    ensures GcdOf(a, b) == Times(d, k)
    ensures a + b > 0 ==> d <= GcdOf(a, b)
  {
    var x, y := Bezout(a, b);
    k := Times(p, x) + Times(q, y);
    TimesAssociates(d, p, x);
    TimesAssociates(d, q, y);
    TimesAdd(d, Times(p, x), Times(q, y));
    TimesIsProduct(d, k);
    if a + b > 0 && GcdOf(a, b) < d {
      SmallMultiple(d, k);
    }
  }

  /** One step around a ring of m + k cells: forward by k, or back by m, which is the same cell. */
  function Next(p: nat, m: nat, k: nat): (r: nat)
    requires p < m + k
    ensures r < m + k
  {
    if p >= m then p - m else p + k
  }

  /** The position after j steps from c. */
  ghost function Pos(c: nat, j: nat, m: nat, k: nat): (p: nat)
    requires c < m + k
    ensures p < m + k
  {
    if j == 0 then c else Next(Pos(c, j - 1, m, k), m, k)
  }

  /** j steps from c are j times k ahead, less the whole turns w. */
  lemma {:induction false} PosForm(c: nat, j: nat, m: nat, k: nat) returns (w: int)
    requires c < m + k
    ensures Pos(c, j, m, k) == c + Times(j, k) - Times(w, m + k)
  {
    if j == 0 {
      w := 0;
    } else {
      var v := PosForm(c, j - 1, m, k);
      w := if Pos(c, j - 1, m, k) >= m then v + 1 else v;
      TimesCommutes(v, m + k);
      TimesCommutes(v + 1, m + k);
      TimesAdd(m + k, v, 1);
      TimesCommutes(m + k, 1);
    }
  }

  /**
    A ring of m + k cells seen as g = gcd(m, k) interleaved cycles of length
    len, with the witnesses that g divides m and k and is a combination of them.
  */
  datatype RingData = RingData(m: nat, k: nat, g: nat, len: nat, p: int, q: int, x: int, z: int) {
    ghost predicate Valid() {
      && 0 < g <= k
      && 0 < len
      && m == Times(g, p)
      && k == Times(g, q)
      && m + k == Times(g, len)
      && g == Times(x, m + k) + Times(z, k)
    }
  }

  type Ring = r: RingData | r.Valid() ghost witness RingData(0, 1, 1, 1, 0, 1, 0, 1)

  lemma GcdRing(m: nat, k: nat) returns (r: Ring)
    requires k > 0
    ensures r.m == m && r.k == k && r.g == GcdOf(m, k) && r.len == (m + k) / r.g
  {
    var g := GcdOf(m, k);
    var p, q := GcdDivides(m, k);
    TimesAdd(g, p, q);
    ResidueOf(0, p + q, g);
    if p + q <= 0 { TimesIsProduct(g, p + q); }
    var x, z := RingBezout(m, k);
    r := RingData(m, k, g, p + q, p, q, x, z);
  }

  lemma RingBezout(m: nat, k: nat) returns (x: int, z: int)
    ensures GcdOf(m, k) == Times(x, m + k) + Times(z, k)
  {
    var u, v := Bezout(m, k);
    x, z := u, v - u;
    TimesAdd(u, m, k);
    TimesCommutes(m, u);
    TimesCommutes(k, v);
    TimesMinus(v, u, k);
  }

  /** Steps keep the residue modulo the number of cycles: distinct cycles are disjoint. */
  lemma PosResidue(r: Ring, i: nat, j: nat)
    requires i < r.g
    ensures Pos(r.m + i, j, r.m, r.k) % r.g == i
  {
    var t := PosMultiple(r, i, j);
    ResidueOf(i, t, r.g);
  }

  lemma {:induction false} PosMultiple(r: Ring, i: nat, j: nat) returns (t: int)
    requires i < r.g
    ensures Pos(r.m + i, j, r.m, r.k) == i + Times(r.g, t)
  {
    if j == 0 {
      t := r.p;
    } else {
      var u := PosMultiple(r, i, j - 1);
      t := if Pos(r.m + i, j - 1, r.m, r.k) >= r.m then u - r.p else u + r.q;
      TimesAdd(r.g, u, r.p);
      TimesAdd(r.g, u, r.q);
    }
  }

  lemma FullTurn(r: Ring)
    ensures Times(r.len, r.k) == Times(r.q, r.m + r.k)
  {
    TimesAssociates(r.len, r.g, r.q);
    TimesCommutes(r.len, r.g);
    TimesCommutes(r.q, r.m + r.k);
  }

  /** After len steps the cycle is back at its start. */
  lemma PosCloses(r: Ring, c: nat)
    requires c < r.m + r.k
    ensures Pos(c, r.len, r.m, r.k) == c
  {
    FullTurn(r);
    var w := PosForm(c, r.len, r.m, r.k);
    SameCell(r.m + r.k, r.q, w, Pos(c, r.len, r.m, r.k), c);
  }

  /** Cells of a ring of n cells that differ by whole turns are equal. */
  lemma SameCell(n: nat, q: int, w: int, a: nat, b: nat)
    requires a < n && b < n && a == b + Times(q, n) - Times(w, n)
    ensures a == b
  {
    TimesCommutes(q, n);
    TimesCommutes(w, n);
    TimesAdd(n, q, w);
    SmallMultiple(n, q - w);
  }

  /** g times d, as d times the combination that makes g. */
  lemma RingTimes(r: Ring, d: int)
    ensures Times(r.g, d) == Times(Times(d, r.x), r.m + r.k) + Times(Times(d, r.z), r.k)
  {
    TimesCommutes(r.g, d);
    TimesAdd(d, Times(r.x, r.m + r.k), Times(r.z, r.k));
    TimesAssociates(d, r.x, r.m + r.k);
    TimesAssociates(d, r.z, r.k);
  }

  /** A whole number of turns takes a multiple of len steps. */
  lemma StepsOfTurns(r: Ring, d: int, q: int) returns (t: int)
    requires Times(d, r.k) == Times(q, r.m + r.k)
    ensures d == Times(r.len, t)
  {
    var n := r.m + r.k;
    RingTimes(r, d);
    t := Times(d, r.x) + Times(r.z, q);
    assert Times(Times(d, r.z), r.k) == Times(Times(r.z, q), n) by {
      TimesCommutes(d, r.z);
      TimesAssociates(r.z, d, r.k);
      TimesAssociates(r.z, q, n);
    }
    assert Times(r.g, d) == Times(n, t) by {
      TimesCommutes(Times(d, r.x), n);
      TimesCommutes(Times(r.z, q), n);
      TimesAdd(n, Times(d, r.x), Times(r.z, q));
    }
    TimesAssociates(r.g, r.len, t);
    CancelFactor(r.g, d, Times(r.len, t));
  }

  /** Before the cycle closes, no position repeats. */
  lemma PosDistinct(r: Ring, c: nat, a: nat, b: nat)
    requires c < r.m + r.k && a < b && b - a < r.len
    ensures Pos(c, a, r.m, r.k) != Pos(c, b, r.m, r.k)
  {
    var v := PosForm(c, a, r.m, r.k);
    var w := PosForm(c, b, r.m, r.k);
    if Pos(c, a, r.m, r.k) == Pos(c, b, r.m, r.k) {
      TimesMinus(b, a, r.k);
      TimesMinus(w, v, r.m + r.k);
      var t := StepsOfTurns(r, b - a, w - v);
      SmallMultiple(r.len, t);
      TimesCommutes(r.len, 0);
    }
  }

  /** Any multiple of g is, up to whole turns e, some number j < len of steps. */
  lemma MultipleInSteps(r: Ring, t: int) returns (j: nat, e: int)
    ensures j < r.len && Times(r.g, t) == Times(e, r.m + r.k) + Times(j, r.k)
  {
    var n := r.m + r.k;
    RingTimes(r, t);
    FullTurn(r);
    var s := Times(t, r.z);
    var w;
    j, w := s % r.len, s / r.len;
    e := Times(t, r.x) + Times(w, r.q);
    DivMod(s, r.len);
    assert Times(s, r.k) == Times(Times(w, r.q), n) + Times(j, r.k) by {
      TimesMinus(Times(r.len, w), j, r.k);
      TimesCommutes(r.len, w);
      TimesAssociates(w, r.len, r.k);
      TimesAssociates(w, r.q, n);
    }
    TimesMinus(Times(t, r.x), Times(w, r.q), n);
  }

  /** A cycle visits every cell of its residue class: together the cycles cover the ring. */
  lemma PosCovers(r: Ring, i: nat, p: nat) returns (j: nat)
    requires p < r.m + r.k && i < r.g && p % r.g == i
    ensures j < r.len && Pos(r.m + i, j, r.m, r.k) == p
  {
    DivMod(p, r.g);
    TimesAdd(r.g, p / r.g, r.p);
    var e;
    j, e := MultipleInSteps(r, p / r.g - r.p);
    var w := PosForm(r.m + i, j, r.m, r.k);
    TimesMinus(0, e, r.m + r.k);
    SameCell(r.m + r.k, -e, w, Pos(r.m + i, j, r.m, r.k), p);
  }
}
