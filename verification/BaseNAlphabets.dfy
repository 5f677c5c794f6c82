/** The three alphabets. */
module BaseNAlphabets {
  import opened Words
  import opened BaseNBits

  const UPPER := "ABCDEFGHIJKLMNOPQRSTUVWXYZ"
  const LOWER := "abcdefghijklmnopqrstuvwxyz"
  const DIGITS := "0123456789"

  /** What decode answers for a character outside the alphabet. */
  const ERROR := 255

  datatype Base = B16 | B32 | B64 {
    /** Bits in a group. */
    function Group(): (g: nat)
      ensures 4 <= g <= 6
    {
      match this
      case B16 => 4
      case B32 => 5
      case B64 => 6
    }

    /** The length of an encoded text is a multiple of this. */
    function Unit(): (u: nat)
      ensures u > 0
    {
      match this
      case B16 => 2
      case B32 => 8
      case B64 => 4
    }

    function Dictionary(): (d: string) {
      match this
      case B16 => DIGITS + "ABCDEF"
      case B32 => UPPER + "234567"
      case B64 => UPPER + LOWER + DIGITS + "+/"
    }

    function Digit(index: nat): (c: char)
      requires index < |Dictionary()|
    {
      Dictionary()[index]
    }

    function Decode(c: char): (v: Byte) {
      match this
      case B16 =>
        if '0' <= c <= '9' then (c - '0') as int
        else if 'A' <= c <= 'F' then (c - 'A') as int + 10
        else ERROR
      case B32 =>
        if 'A' <= c <= 'Z' then (c - 'A') as int
        else if '2' <= c <= '7' then (c - '2') as int + 26
        else ERROR
      case B64 =>
        if 'A' <= c <= 'Z' then (c - 'A') as int
        else if 'a' <= c <= 'z' then (c - 'a') as int + 26
        else if '0' <= c <= '9' then (c - '0') as int + 52
        else if c == '+' then 62
        else if c == '/' then 63
        else ERROR
    }
  }

  lemma UpperAt(k: nat)
    requires k < 26
    ensures UPPER[k] as int == 'A' as int + k
  {
  }

  lemma LowerAt(k: nat)
    requires k < 26
    ensures LOWER[k] as int == 'a' as int + k
  {
  }

  lemma DigitsAt(k: nat)
    requires k < 10
    ensures DIGITS[k] as int == '0' as int + k
  {
  }

  lemma DictionarySize(b: Base)
    ensures |b.Dictionary()| == Pow2(b.Group())
  {
    SmallPowers();
  }

  /** Every digit decodes to its index. */
  lemma DecodeDigit(b: Base, v: nat)
    requires v < |b.Dictionary()|
    ensures b.Decode(b.Digit(v)) == v && v != ERROR
  {
    match b
    case B16 => DecodeDigit16(v);
    case B32 => DecodeDigit32(v);
    case B64 => DecodeDigit64(v);
  }

  lemma DecodeDigit16(v: nat)
    requires v < 16
    ensures B16.Decode(B16.Digit(v)) == v
  {
    if v < 10 {
      DigitsAt(v);
    } else {
      assert "ABCDEF"[v - 10] == UPPER[v - 10];
      UpperAt(v - 10);
    }
  }

  lemma DecodeDigit32(v: nat)
    requires v < 32
    ensures B32.Decode(B32.Digit(v)) == v
  {
    if v < 26 {
      UpperAt(v);
    } else {
      assert "234567"[v - 26] as int == '2' as int + (v - 26);
    }
  }

  function Code64(v: nat): (code: nat) {
    if v < 26 then 'A' as int + v
    else if v < 52 then 'a' as int + (v - 26)
    else if v < 62 then '0' as int + (v - 52)
    else if v == 62 then '+' as int else '/' as int
  }

  lemma Parts64(v: nat)
    requires v < 64
    ensures B64.Digit(v) == if v < 26 then UPPER[v] else (LOWER + DIGITS + "+/")[v - 26]
  {
    assert B64.Dictionary() == UPPER + (LOWER + DIGITS + "+/");
  }

  lemma LowerParts(v: nat)
    requires v < 38
    ensures (LOWER + DIGITS + "+/")[v] == if v < 26 then LOWER[v] else (DIGITS + "+/")[v - 26]
  {
    assert LOWER + DIGITS + "+/" == LOWER + (DIGITS + "+/");
  }

  lemma LastCode(v: nat)
    requires v < 12
    ensures (DIGITS + "+/")[v] as int == Code64(v + 52)
  {
    if v < 10 {
      DigitsAt(v);
    }
  }

  lemma LowerCode(v: nat)
    requires v < 38
    ensures (LOWER + DIGITS + "+/")[v] as int == Code64(v + 26)
  {
    LowerParts(v);
    if v < 26 {
      LowerAt(v);
    } else {
      LastCode(v - 26);
    }
  }

  lemma DigitCode64(v: nat)
    requires v < 64
    ensures B64.Digit(v) as int == Code64(v)
  {
    Parts64(v);
    if v < 26 {
      UpperAt(v);
    } else {
      LowerCode(v - 26);
    }
  }

  lemma DecodeCode64(c: char, v: nat)
    requires v < 64 && c as int == Code64(v)
    ensures B64.Decode(c) == v
  {
  }

  lemma DecodeDigit64(v: nat)
    requires v < 64
    ensures B64.Decode(B64.Digit(v)) == v
  {
    DigitCode64(v);
    DecodeCode64(B64.Digit(v), v);
  }

  /** The character codes of the alphabets, as tables 1, 3 and 5 of RFC 4648 give them. */
  function Code(b: Base, v: nat): (code: nat) {
    match b
    case B16 => if v < 10 then 48 + v else 65 + (v - 10)
    case B32 => if v < 26 then 65 + v else 50 + (v - 26)
    case B64 =>
      if v < 26 then 65 + v
      else if v < 52 then 97 + (v - 26)
      else if v < 62 then 48 + (v - 52)
      else if v == 62 then 43 else 47
  }

  lemma DigitCode16(v: nat)
    requires v < 16
    ensures B16.Digit(v) as int == Code(B16, v)
  {
    if v < 10 {
      DigitsAt(v);
    } else {
      assert "ABCDEF"[v - 10] == UPPER[v - 10];
      UpperAt(v - 10);
    }
  }

  lemma DigitCode32(v: nat)
    requires v < 32
    ensures B32.Digit(v) as int == Code(B32, v)
  {
    if v < 26 {
      UpperAt(v);
    } else {
      assert "234567"[v - 26] as int == '2' as int + (v - 26);
    }
  }

  /** Each alphabet, character by character. */
  lemma DigitCode(b: Base, v: nat)
    requires v < |b.Dictionary()|
    ensures b.Digit(v) as int == Code(b, v)
  {
    match b
    case B16 => DigitCode16(v);
    case B32 => DigitCode32(v);
    case B64 => DigitCode64(v);
  }

  /** A character decodes to v exactly when it is the one with the code of v. */
  lemma DecodeCode(b: Base, c: char, v: nat)
    requires v < Pow2(b.Group())
    ensures b.Decode(c) == v <==> c as int == Code(b, v)
  {
    SmallPowers();
  }

  /** What decodes is a digit, and decodes to less than the size of the alphabet. */
  lemma DecodeSmall(b: Base, c: char)
    ensures b.Decode(c) == ERROR || b.Decode(c) < Pow2(b.Group())
  {
    SmallPowers();
  }

  predicate IsSpace(c: char) {
    c == ' ' || ('\t' <= c <= '\r')
  }

  lemma NoDigits(b: Base, c: char)
    requires IsSpace(c) || c == '='
    ensures b.Decode(c) == ERROR
  {
  }
}
