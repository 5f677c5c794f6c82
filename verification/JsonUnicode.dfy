/** Escaped characters in strings: from hexadecimal digits by way of surrogates to UTF-8. */
module JsonUnicode {
  import opened JsonValue
  import opened JsonText
  import opened JsonReader

  const LAST_CODE_POINT: nat := 0x10ffff

  // ---------- Reading UTF-8, as section 3 of RFC 3629 lays it out ----------

  /** The number of bytes that a first byte announces; zero for a byte that cannot be first. */
  function Announced(lead: nat): (n: nat) {
    if lead < 0x80 then 1
    else if 0xC0 <= lead < 0xE0 then 2
    else if 0xE0 <= lead < 0xF0 then 3
    else if 0xF0 <= lead < 0xF8 then 4
    else 0
  }

  /** The bits of a first byte that belong to the code point. */
  function LeadBits(lead: nat): (v: nat) {
    match Announced(lead)
    case 1 => lead
    case 2 => lead - 0xC0
    case 3 => lead - 0xE0
    case 4 => lead - 0xF0
    case _ => 0
  }

  predicate Continues(byte: nat) {
    0x80 <= byte <= 0xBF
  }

  /** The bits of v followed by six more from each further byte. */
  function Join(v: nat, bytes: string): (cp: Option<nat>)
    decreases |bytes|
  {
    if bytes == "" then Some(v)
    else if Continues(bytes[0] as nat) then Join(64 * v + (bytes[0] as nat - 0x80), bytes[1..])
    else None
  }

  /** The code point that a sequence of bytes stands for, if it is one. */
  function ReadUtf8(bytes: string): (cp: Option<nat>) {
    if bytes == "" || |bytes| != Announced(bytes[0] as nat) then None
    else Join(LeadBits(bytes[0] as nat), bytes[1..])
  }

  lemma Join1(v: nat, a: char)
    requires Continues(a as nat)
    ensures Join(v, [a]) == Some(64 * v + (a as nat - 0x80))
  {
    assert [a][1..] == "";
  }

  lemma Join2(v: nat, a: char, b: char)
    requires Continues(a as nat) && Continues(b as nat)
    ensures Join(v, [a, b]) == Some(64 * (64 * v + (a as nat - 0x80)) + (b as nat - 0x80))
  {
    assert [a, b][1..] == [b];
    Join1(64 * v + (a as nat - 0x80), b);
  }

  lemma Join3(v: nat, a: char, b: char, c: char)
    requires Continues(a as nat) && Continues(b as nat) && Continues(c as nat)
    ensures Join(v, [a, b, c]) ==
            Some(64 * (64 * (64 * v + (a as nat - 0x80)) + (b as nat - 0x80)) + (c as nat - 0x80))
  {
    assert [a, b, c][1..] == [b, c];
    Join2(64 * v + (a as nat - 0x80), b, c);
  }

  lemma ReadsTwo(cp: nat)
    requires 0x80 <= cp < 0x800
    ensures ReadUtf8(Utf8(cp)) == Some(cp)
  {
    var s := Utf8(cp);
    assert s[1..] == [s[1]];
    Join1(cp / 64, s[1]);
  }

  lemma ReadsThree(cp: nat)
    requires 0x800 <= cp < 0x10000
    ensures ReadUtf8(Utf8(cp)) == Some(cp)
  {
    var s := Utf8(cp);
    assert s[1..] == [s[1], s[2]];
    Join2(cp / 4096, s[1], s[2]);
    assert 64 * (cp / 4096) + cp / 64 % 64 == cp / 64;
  }

  lemma ReadsFour(cp: nat)
    requires 0x10000 <= cp <= LAST_CODE_POINT
    ensures ReadUtf8(Utf8(cp)) == Some(cp)
  {
    var s := Utf8(cp);
    assert s[1..] == [s[1], s[2], s[3]];
    Join3(cp / 262144, s[1], s[2], s[3]);
    assert 64 * (cp / 262144) + cp / 4096 % 64 == cp / 4096;
    assert 64 * (cp / 4096) + cp / 64 % 64 == cp / 64;
  }

  /** Reading gives back every code point that is written, and the form is the shortest. */
  lemma Utf8Reads(cp: nat)
    requires cp <= LAST_CODE_POINT
    ensures ReadUtf8(Utf8(cp)) == Some(cp)
    ensures |Utf8(cp)| == if cp < 0x80 then 1 else if cp < 0x800 then 2 else if cp < 0x10000 then 3 else 4
  {
    if cp < 0x80 {
      assert Utf8(cp)[1..] == "";
    } else if cp < 0x800 {
      ReadsTwo(cp);
    } else if cp < 0x10000 {
      ReadsThree(cp);
    } else {
      ReadsFour(cp);
    }
  }

  // ---------- Hexadecimal digits ----------

  /** The character is digit d, in either case. */
  predicate SpellsDigit(c: char, d: nat) {
    d < 16 && (c == "0123456789abcdef"[d] || c == "0123456789ABCDEF"[d])
  }

  lemma DigitReads(c: char, d: nat)
    requires SpellsDigit(c, d)
    ensures HexValue(c) == Some(d)
  {
    if d < 10 {
      DecimalDigit(d);
    } else {
      LetterDigit(d);
    }
  }

  lemma DecimalDigit(d: nat)
    requires d < 10
    ensures "0123456789abcdef"[d] == "0123456789ABCDEF"[d] == (0x30 + d) as char
  {
  }

  lemma LetterDigit(d: nat)
    requires 10 <= d < 16
    ensures "0123456789abcdef"[d] == (0x61 + d - 10) as char && "0123456789ABCDEF"[d] == (0x41 + d - 10) as char
  {
  }

  /** Four digits that make up u. */
  predicate Spells(ds: string, u: nat) {
    |ds| == 4 && u < 0x10000 && SpellsDigit(ds[0], u / 4096) && SpellsDigit(ds[1], u / 256 % 16) &&
    SpellsDigit(ds[2], u / 16 % 16) && SpellsDigit(ds[3], u % 16)
  }

  lemma HexStep(s: string, n: nat, u: nat, d: nat)
    requires 0 < n <= |s| && SpellsDigit(s[0], d)
    ensures Hex(s, n, u) == Hex(s[1..], n - 1, u * 16 + d)
  {
    DigitReads(s[0], d);
  }

  lemma FourDigits(s: string, a: nat, b: nat, c: nat, d: nat)
    requires |s| >= 4 && SpellsDigit(s[0], a) && SpellsDigit(s[1], b) && SpellsDigit(s[2], c) && SpellsDigit(s[3], d)
    ensures Hex(s, 4, 0) == Good(((a * 16 + b) * 16 + c) * 16 + d)
  {
    var s1, s2, s3 := s[1..], s[2..], s[3..];
    assert s1[1..] == s2 && s2[1..] == s3;
    HexStep(s, 4, 0, a);
    HexStep(s1, 3, a, b);
    HexStep(s2, 2, a * 16 + b, c);
    HexStep(s3, 1, (a * 16 + b) * 16 + c, d);
  }

  lemma ByDigits(u: nat)
    ensures ((u / 4096 * 16 + u / 256 % 16) * 16 + u / 16 % 16) * 16 + u % 16 == u
  {
    assert u / 4096 * 16 + u / 256 % 16 == u / 256;
    assert u / 256 * 16 + u / 16 % 16 == u / 16;
  }

  lemma EscapeReads(ds: string, u: nat, rest: string)
    requires Spells(ds, u)
    ensures EscapeSequence(ds + rest) == Good(u)
  {
    FourDigits(ds + rest, u / 4096, u / 256 % 16, u / 16 % 16, u % 16);
    ByDigits(u);
  }

  // ---------- Code points ----------

  predicate IsHighSurrogate(u: nat) {
    0xD800 <= u <= 0xDBFF
  }

  /** The two surrogates of a code point beyond the first plane, as in section 7 of RFC 8259. */
  function HighSurrogate(cp: nat): (u: nat)
    requires 0x10000 <= cp <= LAST_CODE_POINT
    ensures IsHighSurrogate(u)
  {
    0xD800 + (cp - 0x10000) / 1024
  }

  function LowSurrogate(cp: nat): (u: nat)
    requires 0x10000 <= cp <= LAST_CODE_POINT
    ensures 0xDC00 <= u <= 0xDFFF
  {
    0xDC00 + (cp - 0x10000) % 1024
  }

  /** The characters after "\u" stand for cp: four digits, or those of two surrogates. */
  ghost predicate Escapes(text: string, cp: nat) {
    if cp < 0x10000 then Spells(text, cp) && !IsHighSurrogate(cp)
    else
      cp <= LAST_CODE_POINT && |text| == 10 && Spells(text[..4], HighSurrogate(cp)) &&
      text[4] == '\\' && text[5] == 'u' &&
      Spells(text[6..], LowSurrogate(cp))
  }

  lemma SurrogatesJoin(cp: nat)
    requires 0x10000 <= cp <= LAST_CODE_POINT
    ensures 0x10000 + HighSurrogate(cp) % 0x400 * 0x400 + LowSurrogate(cp) % 0x400 == cp
  {
    var k := cp - 0x10000;
    assert (0xD800 + k / 1024) % 0x400 == k / 1024;
    assert (0xDC00 + k % 1024) % 0x400 == k % 1024;
  }

  lemma PairReads(text: string, cp: nat, rest: string)
    requires cp >= 0x10000 && Escapes(text, cp)
    ensures CodePoint(text + rest) == Good((cp, 10))
  {
    var s, u, v := text + rest, HighSurrogate(cp), LowSurrogate(cp);
    assert EscapeSequence(s) == Good(u) by {
      assert s == text[..4] + (text[4..] + rest);
      EscapeReads(text[..4], u, text[4..] + rest);
    }
    assert EscapeSequence(s[6..]) == Good(v) by {
      assert s[6..] == text[6..] + rest;
      EscapeReads(text[6..], v, rest);
    }
    SurrogatesJoin(cp);
  }

  /** The reader takes every escaped code point for what it is. */
  lemma CodePointReads(text: string, cp: nat, rest: string)
    requires Escapes(text, cp)
    ensures CodePoint(text + rest) == Good((cp, |text|))
  {
    if cp < 0x10000 {
      EscapeReads(text, cp, rest);
    } else {
      PairReads(text, cp, rest);
    }
  }

  /** In a string, an escaped code point becomes the bytes that stand for it in UTF-8. */
  lemma EscapedDecodes(text: string, cp: nat, rest: string)
    requires Escapes(text, cp)
    ensures DecodeBody("\\u" + text + rest) == Prepend(Utf8(cp), DecodeBody(rest))
    ensures ReadUtf8(Utf8(cp)) == Some(cp)
  {
    var b := "\\u" + text + rest;
    assert b[2..] == text + rest && b[2 + |text|..] == rest;
    CodePointReads(text, cp, rest);
    Utf8Reads(cp);
  }

  /** The other escapes, by the codes of section 7 of RFC 8259. */
  lemma SimpleEscapeCodes(c: char, d: char)
    ensures SimpleEscape(c) == Some(d) <==>
            (c as nat, d as nat) in {(0x22, 0x22), (0x5C, 0x5C), (0x2F, 0x2F), (0x62, 0x08), (0x66, 0x0C), (0x6E, 0x0A),
                                     (0x72, 0x0D), (0x74, 0x09)}
  {
  }
}
