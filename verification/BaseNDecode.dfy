/** Decoding, and what encoding and decoding do to each other. */
module BaseNDecode {
  import opened Words
  import opened BitStrings
  import opened BaseNBits
  import opened BaseNAlphabets
  import opened BaseN

  // ---------- Decoding ----------

  /** The bytes out and the cur high bits of the buffer are the bits of the digits. */
  ghost predicate Holds(b: Base, ds: seq<nat>, out: seq<Byte>, buffer: Byte, cur: nat) {
    cur < 8 && Clean(buffer, cur) && Flatten(out, 8) + Bits(buffer, 8)[..cur] == Flatten(ds, b.Group())
  }

  lemma Same(p: seq<bool>, x: seq<bool>, y: seq<bool>, z: seq<bool>)
    requires x + y == z
    ensures (p + x) + y == p + z
  {
  }

  /** The group fits and leaves room. */
  lemma FitsStep(b: Base, ds: seq<nat>, out: seq<Byte>, buffer: Byte, cur: nat, v: Byte)
    requires Holds(b, ds, out, buffer, cur) && v < Pow2(b.Group()) && cur + b.Group() < 8
    ensures Holds(b, ds + [v], out, Append(buffer, v, cur, b.Group()), cur + b.Group())
  {
    var g := b.Group();
    AppendClean(buffer, v, cur, g);
    AppendBits(buffer, v, cur, g);
    FlattenSnoc(ds, v, g);
    Same(Flatten(out, 8), Bits(buffer, 8)[..cur], Bits(v, g), Bits(Append(buffer, v, cur, g), 8)[..cur + g]);
  }

  /** The group fills the byte. */
  lemma FillsStep(b: Base, ds: seq<nat>, out: seq<Byte>, buffer: Byte, cur: nat, v: Byte)
    requires Holds(b, ds, out, buffer, cur) && v < Pow2(b.Group()) && cur + b.Group() == 8
    ensures Holds(b, ds + [v], out + [Append(buffer, v, cur, b.Group())], 0, 0)
  {
    var g := b.Group();
    var full := Append(buffer, v, cur, g);
    AppendBits(buffer, v, cur, g);
    FlattenSnoc(ds, v, g);
    FlattenSnoc(out, full, 8);
    ZeroClean();
    assert Bits(full, 8)[..8] == Bits(full, 8);
    Same(Flatten(out, 8), Bits(buffer, 8)[..cur], Bits(v, g), Bits(full, 8));
  }

  /** The group spans the byte and the next. */
  lemma SpansStep(b: Base, ds: seq<nat>, out: seq<Byte>, buffer: Byte, cur: nat, v: Byte)
    requires Holds(b, ds, out, buffer, cur) && v < Pow2(b.Group()) && cur + b.Group() > 8
    ensures var inNext := cur + b.Group() - 8;
            Holds(b, ds + [v], out + [AppendHead(buffer, v, inNext)], Append(0, v, 0, inNext), inNext)
  {
    var g := b.Group();
    var inNext := cur + g - 8;
    var full, rest := AppendHead(buffer, v, inNext), Append(0, v, 0, inNext);
    AppendHeadBits(buffer, v, cur, g);
    ZeroClean();
    AppendClean(0, v, 0, inNext);
    AppendTailBits(v, g, inNext);
    FlattenSnoc(ds, v, g);
    FlattenSnoc(out, full, 8);
    Spread(Flatten(out, 8), Bits(buffer, 8)[..cur], Bits(v, g), 8 - cur);
  }

  lemma Spread(p: seq<bool>, x: seq<bool>, y: seq<bool>, s: nat)
    requires s <= |y|
    ensures (p + (x + y[..s])) + y[s..] == (p + x) + y
  {
    assert y == y[..s] + y[s..];
  }

  /** One digit: into the buffer, flushing it when it is full. */
  method TakeDigit(b: Base, v: Byte, bytes: seq<Byte>, buf: Byte, current: nat, ghost ds: seq<nat>)
    returns (out: seq<Byte>, buffer: Byte, cur: nat)
    requires v < Pow2(b.Group()) && Holds(b, ds, bytes, buf, current)
    ensures Holds(b, ds + [v], out, buffer, cur)
  {
    var g := b.Group();
    out, buffer, cur := bytes, buf, current;
    var inCurrent := (if cur + g < 8 then cur + g else 8) - cur;
    if inCurrent == g {
      buffer := Append(buffer, v, cur, g);
      cur := cur + g;
      if cur == 8 {
        FillsStep(b, ds, bytes, buf, current, v);
        out := out + [buffer];
        buffer, cur := 0, 0;
      } else {
        FitsStep(b, ds, bytes, buf, current, v);
      }
    } else {
      SpansStep(b, ds, bytes, buf, current, v);
      var inNext := g - inCurrent;
      buffer := AppendHead(buffer, v, inNext);
      out := out + [buffer];
      buffer := Append(0, v, 0, inNext);
      cur := inNext;
    }
  }

  method Decode(b: Base, text: string) returns (out: seq<Byte>)
    ensures out == Decoded(b, text)
  {
    var buffer: Byte, cur: nat := 0, 0;
    out := [];
    ZeroClean();
    ghost var ds: seq<nat> := [];
    for k := 0 to |text|
      invariant ds == DigitsOf(b, text[..k]) && Holds(b, ds, out, buffer, cur)
    {
      assert text[..k + 1][..k] == text[..k];
      if IsSpace(text[k]) {
        NoDigits(b, text[k]);
        continue;
      }
      var value := b.Decode(text[k]);
      if value == ERROR {
        continue;
      }
      DecodeSmall(b, text[k]);
      out, buffer, cur := TakeDigit(b, value, out, buffer, cur, ds);
      ds := ds + [value];
    }
    assert text[..|text|] == text;
    AllBytes(out);
    GroupsFlatten(out, 8, Bits(buffer, 8)[..cur]);
  }

  lemma AllBytes(out: seq<Byte>)
    ensures Fit(out, 8)
  {
    SmallPowers();
  }

  // ---------- Round trips ----------

  lemma {:induction false} DigitsConcat(b: Base, x: string, y: string)
    ensures DigitsOf(b, x + y) == DigitsOf(b, x) + DigitsOf(b, y)
  {
    if y == [] {
      assert x + y == x;
    } else {
      var n := |y| - 1;
      DigitsConcat(b, x, y[..n]);
      assert (x + y)[..|x| + n] == x + y[..n];
    }
  }

  /** The digits of what is spelt are what was spelt. */
  lemma {:induction false} DigitsSpelt(b: Base, ds: seq<nat>)
    requires Fit(ds, b.Group())
    ensures DigitsOf(b, Spell(b, ds)) == ds
  {
    if ds != [] {
      var n := |ds| - 1;
      assert ds == ds[..n] + [ds[n]];
      SpellSnoc(b, ds[..n], ds[n]);
      DigitsSpelt(b, ds[..n]);
      DecodeDigit(b, ds[n]);
      assert Spell(b, ds)[..n] == Spell(b, ds[..n]);
    }
  }

  lemma {:induction false} DigitsPads(b: Base, p: nat)
    ensures DigitsOf(b, Pads(p)) == []
  {
    if p > 0 {
      DigitsPads(b, p - 1);
      assert Pads(p)[..p - 1] == Pads(p - 1);
      NoDigits(b, '=');
    }
  }

  lemma EncodedDigits(b: Base, data: seq<Byte>)
    ensures DigitsOf(b, Encoded(b, data)) == Regrouped(data, b.Group())
  {
    var ds := Regrouped(data, b.Group());
    RegroupedFlat(data, b.Group());
    DigitsSpelt(b, ds);
    DigitsPads(b, Padding(b, |ds|));
    DigitsConcat(b, Spell(b, ds), Pads(Padding(b, |ds|)));
  }

  /** The characters of a text that belong to the alphabet. */
  function Kept(b: Base, text: string): (r: string) {
    if text == [] then []
    else
      var c := text[|text| - 1];
      Kept(b, text[..|text| - 1]) + if b.Decode(c) == ERROR then [] else [c]
  }

  /** Only the characters of the alphabet have any effect. */
  lemma {:induction false} DigitsKept(b: Base, text: string)
    ensures DigitsOf(b, text) == DigitsOf(b, Kept(b, text))
  {
    if text != [] {
      var n := |text| - 1;
      DigitsKept(b, text[..n]);
      var kept := Kept(b, text[..n]);
      if b.Decode(text[n]) == ERROR {
        assert Kept(b, text) == kept;
      } else {
        assert Kept(b, text)[..|kept|] == kept;
      }
    }
  }

  /** A text that has the alphabet's characters of an encoding, in order, decodes to what was encoded. */
  lemma RoundTrip(b: Base, data: seq<Byte>, text: string)
    requires Kept(b, text) == Kept(b, Encoded(b, data))
    ensures Decoded(b, text) == data
  {
    DigitsKept(b, text);
    DigitsKept(b, Encoded(b, data));
    EncodedDigits(b, data);
    AllBytes(data);
    JoinRegrouped(data, b.Group());
  }

  lemma {:induction false} KeptConcat(b: Base, x: string, y: string)
    ensures Kept(b, x + y) == Kept(b, x) + Kept(b, y)
  {
    if y == [] {
      assert x + y == x;
    } else {
      var n := |y| - 1;
      KeptConcat(b, x, y[..n]);
      assert (x + y)[..|x| + n] == x + y[..n];
    }
  }

  lemma {:induction false} KeptNoise(b: Base, noise: string)
    requires forall k :: 0 <= k < |noise| ==> b.Decode(noise[k]) == ERROR
    ensures Kept(b, noise) == []
  {
    if noise != [] {
      KeptNoise(b, noise[..|noise| - 1]);
    }
  }

  /** Characters outside the alphabet may be put in anywhere. */
  lemma Inserted(b: Base, before: string, noise: string, after: string)
    requires forall k :: 0 <= k < |noise| ==> b.Decode(noise[k]) == ERROR
    ensures Kept(b, before + noise + after) == Kept(b, before + after)
  {
    KeptConcat(b, before + noise, after);
    KeptConcat(b, before, noise);
    KeptConcat(b, before, after);
    KeptNoise(b, noise);
  }

  method EncodeAndDecode(b: Base, data: seq<Byte>, at: nat, noise: string) returns (text: string, back: seq<Byte>)
    requires forall k :: 0 <= k < |noise| ==> IsSpace(noise[k]) || noise[k] == '='
    ensures back == data && text == Encoded(b, data)
  {
    text := Encode(b, data);
    var n := if at < |text| then at else |text|;
    forall k | 0 <= k < |noise| ensures b.Decode(noise[k]) == ERROR {
      NoDigits(b, noise[k]);
    }
    Inserted(b, text[..n], noise, text[n..]);
    assert text[..n] + text[n..] == text;
    RoundTrip(b, data, text[..n] + noise + text[n..]);
    back := Decode(b, text[..n] + noise + text[n..]);
  }

  // ---------- Lengths ----------

  /** Bits in n groups. */
  function BitsIn(b: Base, n: nat): (r: nat) {
    match b
    case B16 => 4 * n
    case B32 => 5 * n
    case B64 => 6 * n
  }

  lemma {:induction false} FlattenLength(b: Base, ds: seq<nat>)
    ensures |Flatten(ds, b.Group())| == BitsIn(b, |ds|)
  {
    if ds != [] {
      FlattenLength(b, ds[1..]);
    }
  }

  lemma {:induction false} ByteLength(data: seq<nat>)
    ensures |Flatten(data, 8)| == 8 * |data|
  {
    if data != [] {
      ByteLength(data[1..]);
    }
  }

  /** As many digits as it takes for all bits and no more, padded to a multiple of the unit. */
  lemma EncodedLength(b: Base, data: seq<Byte>)
    ensures var n, len := |Regrouped(data, b.Group())|, |Encoded(b, data)|;
            8 * |data| <= BitsIn(b, n) < 8 * |data| + b.Group() &&
            n <= len < n + b.Unit() && len % b.Unit() == 0
  {
    var ds := Regrouped(data, b.Group());
    RegroupedFlat(data, b.Group());
    FlattenLength(b, ds);
    ByteLength(data);
    PaddingLeast(b, |ds|);
  }
}
