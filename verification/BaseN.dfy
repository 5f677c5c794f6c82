/** The base-16, base-32 and base-64 codec. */
module BaseN {
  import opened Words
  import opened BitStrings
  import opened BaseNBits
  import opened BaseNAlphabets

  // ---------- What is encoded and decoded ----------

  function Spell(b: Base, ds: seq<nat>): (text: string)
    requires Fit(ds, b.Group())
  {
    DictionarySize(b);
    seq(|ds|, k requires 0 <= k < |ds| => b.Digit(ds[k]))
  }

  /** Pad characters that bring n digits to a multiple of the unit. */
  function Padding(b: Base, n: nat): (p: nat) {
    match b
    case B16 => if n % 2 == 0 then 0 else 1
    case B32 => if n % 8 == 0 then 0 else 8 - n % 8
    case B64 => if n % 4 == 0 then 0 else 4 - n % 4
  }

  /** The fewest that do. */
  lemma PaddingLeast(b: Base, n: nat)
    ensures Padding(b, n) < b.Unit() && (n + Padding(b, n)) % b.Unit() == 0
  {
    match b
    case B16 =>
    case B32 => Round8(n);
    case B64 =>
  }

  lemma Round8(n: nat)
    ensures n % 8 != 0 ==> (n + (8 - n % 8)) % 8 == 0
  {
    assert n == 8 * (n / 8) + n % 8;
    assert n + (8 - n % 8) == 8 * (n / 8 + 1);
  }

  function Pads(p: nat): (text: string) {
    seq(p, _ => '=')
  }

  function Encoded(b: Base, data: seq<Byte>): (text: string) {
    var ds := Regrouped(data, b.Group());
    RegroupedFlat(data, b.Group());
    Spell(b, ds) + Pads(Padding(b, |ds|))
  }

  /** The digits of a text; all other characters are passed over. */
  function DigitsOf(b: Base, text: string): (ds: seq<nat>) {
    if text == [] then []
    else
      var c := text[|text| - 1];
      DigitsOf(b, text[..|text| - 1]) + if b.Decode(c) == ERROR then [] else [b.Decode(c)]
  }

  function Decoded(b: Base, text: string): (data: seq<nat>) {
    Joined(DigitsOf(b, text), b.Group())
  }

  // ---------- Encoding ----------

  /** Byte k of the data; a zero byte follows the last. */
  function ByteAt(data: seq<Byte>, k: nat): (v: Byte) {
    if k < |data| then data[k] else 0
  }

  lemma ZeroBits(n: nat)
    ensures n <= 8 ==> Bits(0, 8)[..n] == Zeros(n)
  {
    if n <= 8 {
      forall j: nat | j < n ensures !Bits(0, 8)[..n][j] {
        BitsAt(0, 8, j);
        BitZero(7 - j);
      }
    }
  }

  /** The bits before bit s of byte k. */
  function Before(data: seq<Byte>, k: nat, s: nat): (r: seq<bool>)
    requires k <= |data| && s <= 8
  {
    Flatten(data[..k], 8) + Bits(ByteAt(data, k), 8)[..s]
  }

  lemma BeforeNext(data: seq<Byte>, k: nat)
    requires k < |data|
    ensures Flatten(data[..k + 1], 8) == Flatten(data[..k], 8) + Bits(data[k], 8)
  {
    assert data[..k + 1] == data[..k] + [data[k]];
    FlattenSnoc(data[..k], data[k], 8);
  }

  lemma Extend(p: seq<bool>, x: seq<bool>, s: nat, t: nat)
    requires s <= t <= |x|
    ensures (p + x[..s]) + x[s..t] == p + x[..t]
  {
  }

  lemma Cross(p: seq<bool>, x: seq<bool>, s: nat, y: seq<bool>)
    requires s <= |x|
    ensures (p + x[..s]) + (x[s..] + y) == (p + x) + y
  {
    assert x == x[..s] + x[s..];
  }

  /** The digits hold the bits before bit s of byte k. */
  ghost predicate Reached(b: Base, data: seq<Byte>, ds: seq<nat>, k: nat, s: nat) {
    k <= |data| && s < 8 && Fit(ds, b.Group()) && Flatten(ds, b.Group()) == Before(data, k, s)
  }

  /** A group out of one byte. */
  lemma PartialStep(b: Base, data: seq<Byte>, ds: seq<nat>, k: nat, s: nat)
    requires Reached(b, data, ds, k, s) && k < |data| && s + b.Group() < 8
    ensures Reached(b, data, ds + [ExtractPartial(data[k], s, b.Group())], k, s + b.Group())
  {
    var g := b.Group();
    var v := ExtractPartial(data[k], s, g);
    PartialSmall(data[k], s, g);
    PartialBits(data[k], s, g);
    FlattenSnoc(ds, v, g);
    Extend(Flatten(data[..k], 8), Bits(data[k], 8), s, s + g);
  }

  /** A group out of two bytes. */
  lemma OverlapStep(b: Base, data: seq<Byte>, ds: seq<nat>, k: nat, s: nat)
    requires Reached(b, data, ds, k, s) && k < |data| && 8 <= s + b.Group()
    ensures Reached(b, data, ds + [ExtractOverlapping(data[k], ByteAt(data, k + 1), s, b.Group())],
                    k + 1, s + b.Group() - 8)
  {
    var g, next := b.Group(), ByteAt(data, k + 1);
    var v := ExtractOverlapping(data[k], next, s, g);
    OverlappingBits(data[k], next, s, g);
    FlattenSnoc(ds, v, g);
    BeforeNext(data, k);
    Cross(Flatten(data[..k], 8), Bits(data[k], 8), s, Bits(next, 8)[..g - (8 - s)]);
  }

  /** When all bytes are used up, the digits are the regrouping. */
  lemma AllReached(b: Base, data: seq<Byte>, ds: seq<nat>, s: nat)
    requires Reached(b, data, ds, |data|, s) && s < b.Group()
    ensures ds == Regrouped(data, b.Group())
  {
    ZeroBits(s);
    assert data[..|data|] == data;
    RegroupedUnique(ds, data, b.Group(), s);
  }

  lemma SpellSnoc(b: Base, ds: seq<nat>, v: nat)
    requires Fit(ds + [v], b.Group())
    ensures Fit(ds, b.Group()) && v < |b.Dictionary()| && Spell(b, ds + [v]) == Spell(b, ds) + [b.Digit(v)]
  {
    DictionarySize(b);
    assert (ds + [v])[|ds|] == v;
    forall k | 0 <= k < |ds| ensures ds[k] < Pow2(b.Group()) {
      assert (ds + [v])[k] == ds[k];
    }
  }

  /** The main loop: groups from one byte where they fit, across the border to the next byte where they do not. */
  method EncodeDigits(b: Base, data: seq<Byte>) returns (out: string, startBit: nat, ghost ds: seq<nat>)
    ensures ds == Regrouped(data, b.Group()) && Fit(ds, b.Group()) && out == Spell(b, ds)
    ensures startBit == Position(b, |ds|)
  {
    var g := b.Group();
    var iter := 0;
    var hasBacklog, backlog: Byte := false, 0;
    out, startBit, ds := [], 0, [];
    while hasBacklog || iter != |data|
      invariant iter <= |data| && (hasBacklog ==> 0 < iter && backlog == data[iter - 1] && startBit + g >= 8)
      invariant Reached(b, data, ds, if hasBacklog then iter - 1 else iter, startBit)
      invariant out == Spell(b, ds) && startBit == Position(b, |ds|)
      invariant !hasBacklog && iter == |data| ==> startBit < g
      decreases |data| - iter, hasBacklog, 8 - startBit
    {
      if !hasBacklog {
        if startBit + g < 8 {
          var v := ExtractPartial(data[iter], startBit, g);
          PartialStep(b, data, ds, iter, startBit);
          out, startBit, ds := Emit(b, out, v, startBit, ds);
        } else {
          backlog := data[iter];
          iter := iter + 1;
          hasBacklog := true;
        }
      } else {
        OverlapStep(b, data, ds, iter - 1, startBit);
        var v;
        if iter == |data| {
          v := ExtractOverlapping(backlog, 0, startBit, g);
        } else {
          v := ExtractOverlapping(backlog, data[iter], startBit, g);
        }
        hasBacklog := false;
        out, startBit, ds := Emit(b, out, v, startBit, ds);
      }
    }
    AllReached(b, data, ds, startBit);
  }

  /** *out++ = encode(v), and the position one group further. */
  method Emit(b: Base, text: string, v: Byte, start: nat, ghost digits: seq<nat>)
    returns (out: string, startBit: nat, ghost ds: seq<nat>)
    requires Fit(digits + [v], b.Group()) && Fit(digits, b.Group()) && text == Spell(b, digits)
    requires start == Position(b, |digits|)
    ensures ds == digits + [v] && out == Spell(b, ds) && startBit == Position(b, |ds|)
    ensures startBit == if start + b.Group() < 8 then start + b.Group() else start + b.Group() - 8
  {
    SpellSnoc(b, digits, v);
    PositionStep(b, |digits|);
    out, startBit, ds := text + [b.Digit(v)], (start + b.Group()) % 8, digits + [v];
  }

  // ---------- Bit positions and padding ----------

  /** The position in a byte after n groups. */
  function Position(b: Base, n: nat): (r: nat)
    ensures r < 8
  {
    match b
    case B16 => 4 * (n % 2)
    case B32 => 5 * (n % 8) % 8
    case B64 => 6 * (n % 4) % 8
  }

  lemma NextMod(n: nat)
    ensures (n + 1) % 2 == 1 - n % 2
    ensures (n + 1) % 4 == if n % 4 == 3 then 0 else n % 4 + 1
    ensures (n + 1) % 8 == if n % 8 == 7 then 0 else n % 8 + 1
  {
  }

  /** (a + 5) % 8 and (a + 6) % 8 where a is itself such a remainder. */
  lemma SmallSteps(k: nat)
    requires k < 8
    ensures (5 * k % 8 + 5) % 8 == if k == 7 then 0 else 5 * (k + 1) % 8
    ensures k < 4 ==> (6 * k % 8 + 6) % 8 == if k == 3 then 0 else 6 * (k + 1) % 8
  {
    if k < 4 {
      assert k == 0 || k == 1 || k == 2 || k == 3;
    } else {
      assert k == 4 || k == 5 || k == 6 || k == 7;
    }
  }

  lemma PositionStep(b: Base, n: nat)
    ensures (Position(b, n) + b.Group()) % 8 == Position(b, n + 1)
  {
    NextMod(n);
    SmallSteps(n % 8);
    SmallSteps(n % 4);
  }

  lemma PositionZero(b: Base, n: nat)
    ensures Position(b, n) == 0 <==> Padding(b, n) == 0
  {
    match b
    case B16 =>
    case B32 => Zero5(n % 8);
    case B64 =>
  }

  lemma Zero5(k: nat)
    requires k < 8
    ensures 5 * k % 8 == 0 <==> k == 0
  {
    assert k == 0 || k == 1 || k == 2 || k == 3 || k == 4 || k == 5 || k == 6 || k == 7;
  }

  /** How often the padding loop runs after n groups. */
  lemma PaddingStep(b: Base, n: nat)
    ensures Padding(b, n) == if Position(b, n) == 0 then 0 else Padding(b, n + 1) + 1
  {
    PositionZero(b, n);
    NextMod(n);
  }

  /** The padding loop ends: each character brings the position one group further, until it is zero. */
  method Encode(b: Base, data: seq<Byte>) returns (text: string)
    ensures text == Encoded(b, data)
  {
    var startBit;
    ghost var ds;
    text, startBit, ds := EncodeDigits(b, data);
    ghost var n := 0;
    while startBit != 0
      invariant startBit == Position(b, |ds| + n) && text == Spell(b, ds) + Pads(n)
      invariant n + Padding(b, |ds| + n) == Padding(b, |ds|)
      decreases Padding(b, |ds| + n)
    {
      PaddingStep(b, |ds| + n);
      PositionStep(b, |ds| + n);
      text := text + ['='];
      startBit := (startBit + b.Group()) % 8;
      n := n + 1;
    }
    PaddingStep(b, |ds| + n);
  }
}
