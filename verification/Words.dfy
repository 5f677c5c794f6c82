/**
  64-bit words as numbers below 2^64, their bits, and the operators of C on
  them, each defined by halving.
*/
module Words {

  const WORD: nat := 0x1_0000_0000_0000_0000

  type Word = w: nat | w < WORD

  type Byte = b: nat | b < 256

  function Pow2(n: nat): (p: nat)
    ensures p > 0
  {
    if n == 0 then 1 else 2 * Pow2(n - 1)
  }

  lemma WordIsPow2()
    ensures WORD == Pow2(64)
  {
    assert Pow2(8) == 256;
    assert Pow2(16) == 256 * Pow2(8);
    assert Pow2(24) == 256 * Pow2(16);
    assert Pow2(32) == 256 * Pow2(24);
    assert Pow2(40) == 256 * Pow2(32);
    assert Pow2(48) == 256 * Pow2(40);
    assert Pow2(56) == 256 * Pow2(48);
    assert Pow2(64) == 256 * Pow2(56);
  }

  /** Bit i of a number. */
  predicate Bit(w: nat, i: nat) {
    if i == 0 then w % 2 == 1 else Bit(w / 2, i - 1)
  }

  lemma {:induction false} BitZero(i: nat)
    ensures !Bit(0, i)
  {
    if i > 0 {
      BitZero(i - 1);
    }
  }

  /** A number below 2^n has no bits from n on. */
  lemma {:induction false} BitHigh(w: nat, n: nat, i: nat)
    requires w < Pow2(n) && n <= i
    ensures !Bit(w, i)
  {
    if n == 0 {
      BitZero(i);
    } else {
      BitHigh(w / 2, n - 1, i - 1);
    }
  }

  /** Two numbers below 2^n with the same bits are equal. */
  lemma {:induction false} BitsDetermine(a: nat, b: nat, n: nat)
    requires a < Pow2(n) && b < Pow2(n) && forall i: nat :: i < n ==> Bit(a, i) == Bit(b, i)
    ensures a == b
  {
    if n > 0 {
      assert Bit(a, 0) == Bit(b, 0);
      forall i: nat | i < n - 1 ensures Bit(a / 2, i) == Bit(b / 2, i) {
        assert Bit(a, i + 1) == Bit(b, i + 1);
      }
      BitsDetermine(a / 2, b / 2, n - 1);
    }
  }

  // ---------- Bitwise operators ----------

  function And(a: nat, b: nat): (r: nat)
    ensures r <= a && r <= b
    decreases a
  {
    if a == 0 then 0 else 2 * And(a / 2, b / 2) + (if a % 2 == 1 && b % 2 == 1 then 1 else 0)
  }

  function Or(a: nat, b: nat): (r: nat)
    ensures a <= r <= a + b
    decreases a
  {
    if a == 0 then b else 2 * Or(a / 2, b / 2) + (if a % 2 == 1 || b % 2 == 1 then 1 else 0)
  }

  function Xor(a: nat, b: nat): (r: nat)
    ensures r <= a + b
    decreases a
  {
    if a == 0 then b else 2 * Xor(a / 2, b / 2) + (if a % 2 != b % 2 then 1 else 0)
  }

  function Not(w: Word): (r: Word) {
    WORD - 1 - w
  }

  lemma {:induction false} AndBit(a: nat, b: nat, i: nat)
    ensures Bit(And(a, b), i) == (Bit(a, i) && Bit(b, i))
  {
    if a == 0 {
      BitZero(i);
    } else if i > 0 {
      AndBit(a / 2, b / 2, i - 1);
    }
  }

  lemma {:induction false} OrBit(a: nat, b: nat, i: nat)
    ensures Bit(Or(a, b), i) == (Bit(a, i) || Bit(b, i))
  {
    if a == 0 {
      BitZero(i);
    } else if i > 0 {
      OrBit(a / 2, b / 2, i - 1);
    }
  }

  lemma {:induction false} XorBit(a: nat, b: nat, i: nat)
    ensures Bit(Xor(a, b), i) == (Bit(a, i) != Bit(b, i))
  {
    if a == 0 {
      BitZero(i);
    } else if i > 0 {
      XorBit(a / 2, b / 2, i - 1);
    }
  }

  lemma {:induction false} OrBound(a: nat, b: nat, n: nat)
    requires a < Pow2(n) && b < Pow2(n)
    ensures Or(a, b) < Pow2(n)
  {
    if n > 0 && a > 0 {
      OrBound(a / 2, b / 2, n - 1);
    }
  }

  lemma {:induction false} XorBound(a: nat, b: nat, n: nat)
    requires a < Pow2(n) && b < Pow2(n)
    ensures Xor(a, b) < Pow2(n)
  {
    if n > 0 && a > 0 {
      XorBound(a / 2, b / 2, n - 1);
    }
  }

  function AndW(a: Word, b: Word): (r: Word) {
    And(a, b)
  }

  function OrW(a: Word, b: Word): (r: Word) {
    WordIsPow2();
    OrBound(a, b, 64);
    Or(a, b)
  }

  function XorW(a: Word, b: Word): (r: Word) {
    WordIsPow2();
    XorBound(a, b, 64);
    Xor(a, b)
  }

  lemma {:induction false} ComplementBit(w: nat, n: nat, i: nat)
    requires w < Pow2(n) && i < n
    ensures Bit(Pow2(n) - 1 - w, i) == !Bit(w, i)
  {
    var c := Pow2(n) - 1 - w;
    assert c / 2 == Pow2(n - 1) - 1 - w / 2;
    if i > 0 {
      ComplementBit(w / 2, n - 1, i - 1);
    }
  }

  lemma NotBit(w: Word, i: nat)
    requires i < 64
    ensures Bit(Not(w), i) == !Bit(w, i)
  {
    WordIsPow2();
    ComplementBit(w, 64, i);
  }

  // ---------- Shifts ----------

  /** w << 1, the top bit falling off. */
  function Double(w: Word): (r: Word) {
    if 2 * w < WORD then 2 * w else 2 * w - WORD
  }

  /** w << s */
  function Shl(w: Word, s: nat): (r: Word) {
    if s == 0 then w else Double(Shl(w, s - 1))
  }

  /** w >> s */
  function Shr(w: Word, s: nat): (r: Word)
    ensures r <= w
  {
    if s == 0 then w else Shr(w, s - 1) / 2
  }

  /** Taking away the bit above them leaves the lower bits alone. */
  lemma {:induction false} DropTopBit(w: nat, n: nat, i: nat)
    requires w >= Pow2(n) && i < n
    ensures Bit(w - Pow2(n), i) == Bit(w, i)
  {
    assert (w - Pow2(n)) / 2 == w / 2 - Pow2(n - 1);
    if i > 0 {
      DropTopBit(w / 2, n - 1, i - 1);
    }
  }

  lemma DoubleBit(w: Word, i: nat)
    requires i < 64
    ensures Bit(Double(w), i) == (i > 0 && Bit(w, i - 1))
  {
    assert Bit(2 * w, i) == (i > 0 && Bit(w, i - 1));
    if 2 * w >= WORD {
      WordIsPow2();
      DropTopBit(2 * w, 64, i);
    }
  }

  lemma {:induction false} ShlBit(w: Word, s: nat, i: nat)
    requires i < 64
    ensures Bit(Shl(w, s), i) == (i >= s && Bit(w, i - s))
  {
    if s > 0 {
      DoubleBit(Shl(w, s - 1), i);
      if i > 0 {
        ShlBit(w, s - 1, i - 1);
      }
    }
  }

  lemma {:induction false} ShrBit(w: Word, s: nat, i: nat)
    ensures Bit(Shr(w, s), i) == Bit(w, i + s)
  {
    if s > 0 {
      ShrBit(w, s - 1, i + 1);
      assert Bit(Shr(w, s - 1), i + 1) == Bit(Shr(w, s - 1) / 2, i);
    }
  }

  // ---------- Counting and scanning ----------

  /** The number of one bits. */
  function PopCount(w: nat): (n: nat) {
    if w == 0 then 0 else w % 2 + PopCount(w / 2)
  }

  /** The number of zero bits below the lowest one bit. */
  function Ctz(w: nat): (n: nat)
    requires w > 0
  {
    if w % 2 == 1 then 0 else 1 + Ctz(w / 2)
  }

  /** The position of the highest one bit, 63 - clz(w). */
  function Log2(w: nat): (n: nat)
    requires w > 0
  {
    if w == 1 then 0 else 1 + Log2(w / 2)
  }

  lemma {:induction false} CtzBit(w: nat, i: nat)
    requires w > 0
    ensures Bit(w, Ctz(w)) && (i < Ctz(w) ==> !Bit(w, i))
  {
    if w % 2 == 0 {
      CtzBit(w / 2, if i > 0 then i - 1 else 0);
    }
  }

  lemma {:induction false} Log2Bit(w: nat, i: nat)
    requires w > 0
    ensures Bit(w, Log2(w)) && (i > Log2(w) ==> !Bit(w, i))
  {
    if w == 1 {
      if i > 0 {
        BitZero(i - 1);
      }
    } else {
      Log2Bit(w / 2, if i > 0 then i - 1 else 0);
    }
  }

  lemma CtzBelow(w: Word)
    requires w > 0
    ensures Ctz(w) < 64
  {
    CtzBit(w, 0);
    if Ctz(w) >= 64 {
      WordIsPow2();
      BitHigh(w, 64, Ctz(w));
    }
  }

  lemma Log2Below(w: Word)
    requires w > 0
    ensures Log2(w) < 64
  {
    Log2Bit(w, 0);
    if Log2(w) >= 64 {
      WordIsPow2();
      BitHigh(w, 64, Log2(w));
    }
  }

  /** A word with a one bit is not zero. */
  lemma {:induction false} BitNonZero(w: nat, i: nat)
    requires Bit(w, i)
    ensures w > 0
  {
    if w == 0 {
      BitZero(i);
    }
  }

  /** w ^ (w & (~w + 1)) */
  function ClearLowest(w: Word): (r: Word)
    requires w > 0
  {
    XorW(w, AndW(w, WORD - w))
  }

  lemma LowestOdd(w: nat, n: nat)
    requires w < Pow2(n) && w % 2 == 1
    ensures And(w, Pow2(n) - w) == 1
  {
    var c := Pow2(n) - w;
    assert w / 2 < Pow2(n - 1);
    assert c % 2 == 1 && c / 2 == Pow2(n - 1) - 1 - w / 2;
    NoCommonBits(w / 2, n - 1);
    assert And(w, c) == 2 * And(w / 2, c / 2) + 1;
  }

  lemma LowestEven(w: nat, n: nat)
    requires 0 < w < Pow2(n) && w % 2 == 0
    ensures n > 0 && w / 2 < Pow2(n - 1) && And(w, Pow2(n) - w) == 2 * And(w / 2, Pow2(n - 1) - w / 2)
  {
    var c := Pow2(n) - w;
    assert c / 2 == Pow2(n - 1) - w / 2;
  }

  /** w & (~w + 1) is the lowest one bit alone. */
  lemma {:induction false} LowestAlone(w: nat, n: nat, i: nat)
    requires 0 < w < Pow2(n)
    ensures Bit(And(w, Pow2(n) - w), i) == (i == Ctz(w))
  {
    if w % 2 == 1 {
      LowestOdd(w, n);
      if i > 0 {
        BitZero(i - 1);
      }
    } else {
      LowestEven(w, n);
      if i > 0 {
        LowestAlone(w / 2, n - 1, i - 1);
      }
    }
  }

  lemma {:induction false} NoCommonBits(w: nat, n: nat)
    requires w < Pow2(n)
    ensures And(w, Pow2(n) - 1 - w) == 0
  {
    if w > 0 {
      assert (Pow2(n) - 1 - w) / 2 == Pow2(n - 1) - 1 - w / 2;
      NoCommonBits(w / 2, n - 1);
    }
  }

  lemma ClearLowestBit(w: Word, i: nat)
    requires w > 0
    ensures Bit(ClearLowest(w), i) == (Bit(w, i) && i != Ctz(w))
  {
    WordIsPow2();
    LowestAlone(w, 64, i);
    XorBit(w, AndW(w, WORD - w), i);
    CtzBit(w, 0);
  }

  /** Clearing the lowest one bit makes the word smaller: scanning a word terminates. */
  lemma {:induction false} ClearLowestSmaller(w: Word)
    requires w > 0
    ensures ClearLowest(w) < w
  {
    WordIsPow2();
    var r := ClearLowest(w);
    forall i: nat | Bit(r, i) ensures Bit(w, i) {
      ClearLowestBit(w, i);
    }
    SubsetAtMost(r, w);
    ClearLowestBit(w, Ctz(w));
    CtzBit(w, 0);
    assert r != w;
  }

  lemma {:induction false} SubsetAtMost(a: nat, b: nat)
    requires forall i: nat :: Bit(a, i) ==> Bit(b, i)
    ensures a <= b
  {
    if a > 0 {
      assert Bit(a, 0) ==> Bit(b, 0);
      forall i: nat | Bit(a / 2, i) ensures Bit(b / 2, i) {
        assert Bit(a, i + 1) ==> Bit(b, i + 1);
      }
      SubsetAtMost(a / 2, b / 2);
    }
  }
}
