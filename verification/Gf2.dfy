/** Polynomials over the field of two elements, and division by x^16 + x^12 + x^5 + 1. */
module Gf2 {
  function Zeros(n: nat): (r: seq<bool>) {
    seq(n, _ => false)
  }

  /** A polynomial of degree below 16: the coefficient of x^15 first. */
  type Poly = p: seq<bool> | |p| == 16 witness seq(16, _ => false)

  /** Coefficient i, from x^15 down, of x^12 + x^5 + 1. */
  predicate Gen(i: nat) {
    i == 3 || i == 10 || i == 15
  }

  // ---------- Long division ----------

  /** A dividend less the generator times the power of x that cancels its leading term. */
  function Reduced(bits: seq<bool>): (r: seq<bool>)
    requires |bits| > 16
    ensures |r| == |bits| - 1
  {
    seq(|bits| - 1, i requires 0 <= i < |bits| - 1 => bits[i + 1] != (bits[0] && Gen(i)))
  }

  /** Long division: cancel leading terms until the degree is below 16. */
  function Remainder(bits: seq<bool>): (p: Poly)
    requires |bits| >= 16
    decreases |bits|
  {
    if |bits| == 16 then bits else Remainder(Reduced(bits))
  }

  // ---------- Division bit by bit ----------

  /** x * p + d * x^16, less the generator where that has a term x^16. */
  function Step(p: Poly, d: bool): (r: Poly) {
    seq(16, i requires 0 <= i < 16 => (i < 15 && p[i + 1]) != ((p[0] != d) && Gen(i)))
  }

  function Divide(p: Poly, bits: seq<bool>): (r: Poly)
    decreases |bits|
  {
    if bits == [] then p else Divide(Step(p, bits[0]), bits[1..])
  }

  lemma {:induction false} DivideConcat(p: Poly, a: seq<bool>, b: seq<bool>)
    ensures Divide(p, a + b) == Divide(Divide(p, a), b)
    decreases |a|
  {
    if a == [] {
      assert a + b == b;
    } else {
      assert (a + b)[1..] == a[1..] + b;
      DivideConcat(Step(p, a[0]), a[1..], b);
    }
  }

  lemma DivideSnoc(p: Poly, a: seq<bool>, d: bool)
    ensures Divide(p, a + [d]) == Step(Divide(p, a), d)
  {
    DivideConcat(p, a, [d]);
    assert [d][1..] == [];
  }

  /** p added to the leading sixteen terms. */
  function AddFront(p: Poly, bits: seq<bool>): (r: seq<bool>)
    requires |bits| >= 16
  {
    seq(|bits|, i requires 0 <= i < |bits| => bits[i] != (i < 16 && p[i]))
  }

  /** Cancelling the leading term of a dividend to which the register has been added is one step of the register. */
  lemma ReducedStep(p: Poly, bits: seq<bool>)
    requires |bits| > 16
    ensures Reduced(AddFront(p, bits)) == AddFront(Step(p, bits[0]), bits[1..])
  {
  }

  lemma {:induction false} RemainderStep(p: Poly, a: seq<bool>)
    ensures Remainder(AddFront(p, a + Zeros(16))) == Divide(p, a)
    decreases |a|
  {
    var bits := a + Zeros(16);
    if a == [] {
      assert AddFront(p, bits) == p;
    } else {
      ReducedStep(p, bits);
      assert bits[1..] == a[1..] + Zeros(16);
      RemainderStep(Step(p, a[0]), a[1..]);
    }
  }

  /** Dividing bit by bit from zero is long division of the message times x^16. */
  lemma DivideIsRemainder(a: seq<bool>)
    ensures Divide(Zeros(16), a) == Remainder(a + Zeros(16))
  {
    RemainderStep(Zeros(16), a);
    assert AddFront(Zeros(16), a + Zeros(16)) == a + Zeros(16);
  }

  // ---------- Linearity ----------

  function Plus(a: seq<bool>, b: seq<bool>): (r: seq<bool>)
    requires |a| == |b|
    ensures |r| == |a|
  {
    seq(|a|, i requires 0 <= i < |a| => a[i] != b[i])
  }

  lemma PlusConcat(a: seq<bool>, c: seq<bool>, b: seq<bool>, d: seq<bool>)
    requires |a| == |b| && |c| == |d|
    ensures Plus(a + c, b + d) == Plus(a, b) + Plus(c, d)
  {
  }

  lemma StepLinear(p: Poly, q: Poly, x: bool, y: bool)
    ensures Step(Plus(p, q), x != y) == Plus(Step(p, x), Step(q, y))
  {
  }

  lemma {:induction false} DivideLinear(p: Poly, q: Poly, a: seq<bool>, b: seq<bool>)
    requires |a| == |b|
    ensures Divide(Plus(p, q), Plus(a, b)) == Plus(Divide(p, a), Divide(q, b))
    decreases |a|
  {
    if a != [] {
      StepLinear(p, q, a[0], b[0]);
      assert Plus(a, b)[1..] == Plus(a[1..], b[1..]);
      DivideLinear(Step(p, a[0]), Step(q, b[0]), a[1..], b[1..]);
    }
  }

  // ---------- What divides to zero ----------

  lemma StepZero(p: Poly, d: bool, r: Poly)
    requires Step(p, d) == r && !r[15]
    ensures p[0] == d && forall i: nat :: i < 15 ==> p[i + 1] == r[i]
  {
    assert r[15] == (p[0] != d);
  }

  /** Up to sixteen bits bring a register to zero only when they are its own leading bits, and the others zero. */
  lemma {:induction false} OnlyItself(p: Poly, bits: seq<bool>)
    requires |bits| <= 16 && Divide(p, bits) == Zeros(16)
    ensures p == bits + Zeros(16 - |bits|)
    decreases |bits|
  {
    if bits != [] {
      var r := Step(p, bits[0]);
      OnlyItself(r, bits[1..]);
      StepZero(p, bits[0], r);
      var q := bits + Zeros(16 - |bits|);
      forall i: nat | i < 16 ensures p[i] == q[i] {
        if i > 0 {
          assert p[(i - 1) + 1] == r[i - 1];
        }
      }
    }
  }

  /** And those do bring it to zero. */
  lemma {:induction false} ItselfCancels(p: Poly, bits: seq<bool>)
    requires |bits| <= 16 && p == bits + Zeros(16 - |bits|)
    ensures Divide(p, bits) == Zeros(16)
    decreases |bits|
  {
    if bits != [] {
      assert Step(p, bits[0]) == bits[1..] + Zeros(17 - |bits|);
      ItselfCancels(Step(p, bits[0]), bits[1..]);
    }
  }

  /** Fewer than seventeen bits that are not all zero leave a remainder, however many zeros come before and after. */
  lemma BurstRemains(before: nat, burst: seq<bool>, after: nat)
    requires |burst| <= 16 && true in burst
    ensures Divide(Zeros(16), Zeros(before) + burst + Zeros(after)) != Zeros(16)
  {
    var none := Zeros(16);
    DivideZeros(none, before);
    DivideConcat(none, Zeros(before) + burst, Zeros(after));
    DivideConcat(none, Zeros(before), burst);
    var k :| 0 <= k < |burst| && burst[k];
    var q := burst + Zeros(16 - |burst|);
    assert q[k];
    if Divide(none, burst) == none {
      OnlyItself(none, burst);
    }
    DivideZeros(Divide(none, burst), after);
  }

  /** Zero bits keep zero, and nothing else becomes zero by them. */
  lemma {:induction false} DivideZeros(p: Poly, n: nat)
    ensures Divide(p, Zeros(n)) == Zeros(16) <==> p == Zeros(16)
    decreases n
  {
    if n > 0 {
      assert Zeros(n)[1..] == Zeros(n - 1);
      DivideZeros(Step(p, false), n - 1);
      StepsToZero(p);
    }
  }

  lemma StepsToZero(p: Poly)
    ensures Step(p, false) == Zeros(16) <==> p == Zeros(16)
  {
    if Step(p, false) == Zeros(16) {
      StepZero(p, false, Zeros(16));
      forall i: nat | i < 16 ensures !p[i] {
        if i > 0 {
          assert p[(i - 1) + 1] == Zeros(16)[i - 1];
        }
      }
    }
  }
}
