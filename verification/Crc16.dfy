/** CRC-16/XMODEM, driven by a table and bit by bit. */
module Crc16 {
  import opened Gf2

  // ---------- Bit by bit ----------

  /** One message bit: the register moves up, and x^16 + x^12 + x^5 + 1 is taken away where a term x^16 comes up. */
  function Shift(r: bv16, bit: bool): (next: bv16) {
    if (r & 0x8000 != 0) != bit then (r << 1) ^ 0x1021 else r << 1
  }

  /** The eight bits of a byte, highest first. */
  function ShiftByte(r: bv16, b: bv8): (next: bv16) {
    Shift(Shift(Shift(Shift(ShiftHalf(r, b), b & 8 != 0), b & 4 != 0), b & 2 != 0), b & 1 != 0)
  }

  function ShiftHalf(r: bv16, b: bv8): (next: bv16) {
    Shift(Shift(Shift(Shift(r, b & 0x80 != 0), b & 0x40 != 0), b & 0x20 != 0), b & 0x10 != 0)
  }

  // ---------- The table ----------

  /** One line of the table. */
  function Pick(k: bv16, a0: bv16, a1: bv16, a2: bv16, a3: bv16, a4: bv16, a5: bv16, a6: bv16, a7: bv16): (v: bv16) {
    if k == 0 then a0 else if k == 1 then a1 else if k == 2 then a2 else if k == 3 then a3
    else if k == 4 then a4 else if k == 5 then a5 else if k == 6 then a6 else a7
  }

  function Table(i: bv16): (v: bv16)
    requires i < 256
  {
    if i < 8 then Pick(i & 7, 0x0000, 0x1021, 0x2042, 0x3063, 0x4084, 0x50a5, 0x60c6, 0x70e7)
    else if i < 16 then Pick(i & 7, 0x8108, 0x9129, 0xa14a, 0xb16b, 0xc18c, 0xd1ad, 0xe1ce, 0xf1ef)
    else if i < 24 then Pick(i & 7, 0x1231, 0x0210, 0x3273, 0x2252, 0x52b5, 0x4294, 0x72f7, 0x62d6)
    else if i < 32 then Pick(i & 7, 0x9339, 0x8318, 0xb37b, 0xa35a, 0xd3bd, 0xc39c, 0xf3ff, 0xe3de)
    else if i < 40 then Pick(i & 7, 0x2462, 0x3443, 0x0420, 0x1401, 0x64e6, 0x74c7, 0x44a4, 0x5485)
    else if i < 48 then Pick(i & 7, 0xa56a, 0xb54b, 0x8528, 0x9509, 0xe5ee, 0xf5cf, 0xc5ac, 0xd58d)
    else if i < 56 then Pick(i & 7, 0x3653, 0x2672, 0x1611, 0x0630, 0x76d7, 0x66f6, 0x5695, 0x46b4)
    else if i < 64 then Pick(i & 7, 0xb75b, 0xa77a, 0x9719, 0x8738, 0xf7df, 0xe7fe, 0xd79d, 0xc7bc)
    else if i < 72 then Pick(i & 7, 0x48c4, 0x58e5, 0x6886, 0x78a7, 0x0840, 0x1861, 0x2802, 0x3823)
    else if i < 80 then Pick(i & 7, 0xc9cc, 0xd9ed, 0xe98e, 0xf9af, 0x8948, 0x9969, 0xa90a, 0xb92b)
    else if i < 88 then Pick(i & 7, 0x5af5, 0x4ad4, 0x7ab7, 0x6a96, 0x1a71, 0x0a50, 0x3a33, 0x2a12)
    else if i < 96 then Pick(i & 7, 0xdbfd, 0xcbdc, 0xfbbf, 0xeb9e, 0x9b79, 0x8b58, 0xbb3b, 0xab1a)
    else if i < 104 then Pick(i & 7, 0x6ca6, 0x7c87, 0x4ce4, 0x5cc5, 0x2c22, 0x3c03, 0x0c60, 0x1c41)
    else if i < 112 then Pick(i & 7, 0xedae, 0xfd8f, 0xcdec, 0xddcd, 0xad2a, 0xbd0b, 0x8d68, 0x9d49)
    else if i < 120 then Pick(i & 7, 0x7e97, 0x6eb6, 0x5ed5, 0x4ef4, 0x3e13, 0x2e32, 0x1e51, 0x0e70)
    else if i < 128 then Pick(i & 7, 0xff9f, 0xefbe, 0xdfdd, 0xcffc, 0xbf1b, 0xaf3a, 0x9f59, 0x8f78)
    else if i < 136 then Pick(i & 7, 0x9188, 0x81a9, 0xb1ca, 0xa1eb, 0xd10c, 0xc12d, 0xf14e, 0xe16f)
    else if i < 144 then Pick(i & 7, 0x1080, 0x00a1, 0x30c2, 0x20e3, 0x5004, 0x4025, 0x7046, 0x6067)
    else if i < 152 then Pick(i & 7, 0x83b9, 0x9398, 0xa3fb, 0xb3da, 0xc33d, 0xd31c, 0xe37f, 0xf35e)
    else if i < 160 then Pick(i & 7, 0x02b1, 0x1290, 0x22f3, 0x32d2, 0x4235, 0x5214, 0x6277, 0x7256)
    else if i < 168 then Pick(i & 7, 0xb5ea, 0xa5cb, 0x95a8, 0x8589, 0xf56e, 0xe54f, 0xd52c, 0xc50d)
    else if i < 176 then Pick(i & 7, 0x34e2, 0x24c3, 0x14a0, 0x0481, 0x7466, 0x6447, 0x5424, 0x4405)
    else if i < 184 then Pick(i & 7, 0xa7db, 0xb7fa, 0x8799, 0x97b8, 0xe75f, 0xf77e, 0xc71d, 0xd73c)
    else if i < 192 then Pick(i & 7, 0x26d3, 0x36f2, 0x0691, 0x16b0, 0x6657, 0x7676, 0x4615, 0x5634)
    else if i < 200 then Pick(i & 7, 0xd94c, 0xc96d, 0xf90e, 0xe92f, 0x99c8, 0x89e9, 0xb98a, 0xa9ab)
    else if i < 208 then Pick(i & 7, 0x5844, 0x4865, 0x7806, 0x6827, 0x18c0, 0x08e1, 0x3882, 0x28a3)
    else if i < 216 then Pick(i & 7, 0xcb7d, 0xdb5c, 0xeb3f, 0xfb1e, 0x8bf9, 0x9bd8, 0xabbb, 0xbb9a)
    else if i < 224 then Pick(i & 7, 0x4a75, 0x5a54, 0x6a37, 0x7a16, 0x0af1, 0x1ad0, 0x2ab3, 0x3a92)
    else if i < 232 then Pick(i & 7, 0xfd2e, 0xed0f, 0xdd6c, 0xcd4d, 0xbdaa, 0xad8b, 0x9de8, 0x8dc9)
    else if i < 240 then Pick(i & 7, 0x7c26, 0x6c07, 0x5c64, 0x4c45, 0x3ca2, 0x2c83, 0x1ce0, 0x0cc1)
    else if i < 248 then Pick(i & 7, 0xef1f, 0xff3e, 0xcf5d, 0xdf7c, 0xaf9b, 0xbfba, 0x8fd9, 0x9ff8)
    else Pick(i & 7, 0x6e17, 0x7e36, 0x4e55, 0x5e74, 0x2e93, 0x3eb2, 0x0ed1, 0x1ef0)
  }

  /** Each entry of the table is what eight zero bits make of its index. */
  lemma TableIs(i: bv16)
    requires i < 256
    ensures Table(i) == ShiftByte(i << 8, 0)
  {
  }

  /** One turn of the loop. */
  function Next(crc: bv16, b: bv8): (r: bv16) {
    ((crc << 8) & 0xFFFF) ^ Table(((crc >> 8) ^ (b as bv16)) & 0x00FF)
  }

  /** A turn of the loop is eight bits of the message. */
  lemma NextIs(crc: bv16, b: bv8)
    ensures Next(crc, b) == ShiftByte(crc, b)
  {
    TableIs(((crc >> 8) ^ (b as bv16)) & 0x00FF);
  }

  // ---------- The register as a polynomial ----------

  function Mask(i: nat): (m: bv16)
    requires i < 16
  {
    if i == 0 then 0x8000 else if i == 1 then 0x4000 else if i == 2 then 0x2000 else if i == 3 then 0x1000
    else if i == 4 then 0x0800 else if i == 5 then 0x0400 else if i == 6 then 0x0200 else if i == 7 then 0x0100
    else if i == 8 then 0x0080 else if i == 9 then 0x0040 else if i == 10 then 0x0020 else if i == 11 then 0x0010
    else if i == 12 then 0x0008 else if i == 13 then 0x0004 else if i == 14 then 0x0002 else 0x0001
  }

  /** The coefficient of x^(15 - i). */
  predicate Coefficient(r: bv16, i: nat)
    requires i < 16
  {
    r & Mask(i) != 0
  }

  lemma UpAt(r: bv16, i: nat)
    requires i < 16
    ensures Coefficient(r << 1, i) == (i < 15 && Coefficient(r, i + 1))
  {
  }

  lemma FlipAt(r: bv16, i: nat)
    requires i < 16
    ensures Coefficient(r ^ 0x1021, i) == (Coefficient(r, i) != Gen(i))
  {
  }

  lemma TopIs(r: bv16)
    ensures Coefficient(r, 0) == (r & 0x8000 != 0)
  {
  }

  function Reg(r: bv16): (p: Poly) {
    seq(16, i requires 0 <= i < 16 => Coefficient(r, i))
  }

  lemma ShiftAt(r: bv16, bit: bool, i: nat)
    requires i < 16
    ensures Coefficient(Shift(r, bit), i) == Step(Reg(r), bit)[i]
  {
    UpAt(r, i);
    FlipAt(r << 1, i);
    TopIs(r);
  }

  /** One bit of the message is one step of the division. */
  lemma ShiftIs(r: bv16, bit: bool)
    ensures Reg(Shift(r, bit)) == Step(Reg(r), bit)
  {
    forall i: nat | i < 16 ensures Reg(Shift(r, bit))[i] == Step(Reg(r), bit)[i] {
      ShiftAt(r, bit, i);
    }
  }

  // ---------- Bytes ----------

  function Mask8(i: nat): (m: bv8)
    requires i < 8
  {
    if i == 0 then 0x80 else if i == 1 then 0x40 else if i == 2 then 0x20 else if i == 3 then 0x10
    else if i == 4 then 0x08 else if i == 5 then 0x04 else if i == 6 then 0x02 else 0x01
  }

  /** Bit i of a byte, the highest first. */
  predicate BitOf(b: bv8, i: nat)
    requires i < 8
  {
    b & Mask8(i) != 0
  }

  function ByteBits(b: bv8): (bits: seq<bool>)
    ensures |bits| == 8
  {
    seq(8, i requires 0 <= i < 8 => BitOf(b, i))
  }

  lemma Bits8(b: bv8)
    ensures BitOf(b, 0) == (b & 0x80 != 0) && BitOf(b, 1) == (b & 0x40 != 0)
    ensures BitOf(b, 2) == (b & 0x20 != 0) && BitOf(b, 3) == (b & 0x10 != 0)
    ensures BitOf(b, 4) == (b & 8 != 0) && BitOf(b, 5) == (b & 4 != 0)
    ensures BitOf(b, 6) == (b & 2 != 0) && BitOf(b, 7) == (b & 1 != 0)
  {
  }

  /** The register after the first n bits of a byte. */
  function ShiftBits(r: bv16, b: bv8, n: nat): (next: bv16)
    requires n <= 8
  {
    if n == 0 then r else Shift(ShiftBits(r, b, n - 1), BitOf(b, n - 1))
  }

  lemma ShiftByteBits(r: bv16, b: bv8)
    ensures ShiftByte(r, b) == ShiftBits(r, b, 8)
  {
    Bits8(b);
    assert ShiftBits(r, b, 1) == Shift(r, b & 0x80 != 0);
    assert ShiftBits(r, b, 2) == Shift(Shift(r, b & 0x80 != 0), b & 0x40 != 0);
    assert ShiftBits(r, b, 4) == ShiftHalf(r, b);
    assert ShiftBits(r, b, 6) == Shift(Shift(ShiftBits(r, b, 4), b & 8 != 0), b & 4 != 0);
    assert ShiftBits(r, b, 8) == Shift(Shift(ShiftBits(r, b, 6), b & 2 != 0), b & 1 != 0);
  }

  lemma {:induction false} ShiftBitsIs(r: bv16, b: bv8, n: nat)
    requires n <= 8
    ensures Reg(ShiftBits(r, b, n)) == Divide(Reg(r), ByteBits(b)[..n])
  {
    if n > 0 {
      ShiftBitsIs(r, b, n - 1);
      ShiftIs(ShiftBits(r, b, n - 1), BitOf(b, n - 1));
      DivideSnoc(Reg(r), ByteBits(b)[..n - 1], BitOf(b, n - 1));
      assert ByteBits(b)[..n] == ByteBits(b)[..n - 1] + [BitOf(b, n - 1)];
    }
  }

  /** A turn of the loop divides by eight bits. */
  lemma NextDivides(crc: bv16, b: bv8)
    ensures Reg(Next(crc, b)) == Divide(Reg(crc), ByteBits(b))
  {
    NextIs(crc, b);
    ShiftByteBits(crc, b);
    ShiftBitsIs(crc, b, 8);
    assert ByteBits(b)[..8] == ByteBits(b);
  }

  // ---------- Messages ----------

  function MessageBits(msg: seq<bv8>): (bits: seq<bool>)
    ensures |bits| == 8 * |msg|
  {
    if msg == [] then [] else MessageBits(msg[..|msg| - 1]) + ByteBits(msg[|msg| - 1])
  }

  /** The message, times x^16, divided by the generator: what the checksum is to be. */
  function Checksum(msg: seq<bv8>): (p: Poly) {
    Remainder(MessageBits(msg) + Zeros(16))
  }

  lemma ChecksumDivides(msg: seq<bv8>)
    ensures Checksum(msg) == Divide(Zeros(16), MessageBits(msg))
  {
    DivideIsRemainder(MessageBits(msg));
  }

  method Crc(buf: seq<bv8>) returns (crc: bv16)
    ensures Reg(crc) == Checksum(buf)
  {
    crc := 0;
    ZeroReg();
    for counter := 0 to |buf|
      invariant Reg(crc) == Divide(Zeros(16), MessageBits(buf[..counter]))
    {
      NextDivides(crc, buf[counter]);
      DivideConcat(Zeros(16), MessageBits(buf[..counter]), ByteBits(buf[counter]));
      assert buf[..counter + 1][..counter] == buf[..counter];
      crc := Next(crc, buf[counter]);
    }
    assert buf[..|buf|] == buf;
    ChecksumDivides(buf);
  }

  lemma ZeroReg()
    ensures Reg(0) == Zeros(16)
  {
  }

  // ---------- Linearity ----------

  function Xored(a: seq<bv8>, b: seq<bv8>): (r: seq<bv8>)
    requires |a| == |b|
  {
    seq(|a|, k requires 0 <= k < |a| => a[k] ^ b[k])
  }

  lemma XorHigh(a: bv8, b: bv8, i: nat)
    requires i < 4
    ensures BitOf(a ^ b, i) == (BitOf(a, i) != BitOf(b, i))
  {
  }

  lemma XorLow(a: bv8, b: bv8, i: nat)
    requires 4 <= i < 8
    ensures BitOf(a ^ b, i) == (BitOf(a, i) != BitOf(b, i))
  {
  }

  lemma XorAt(a: bv8, b: bv8, i: nat)
    requires i < 8
    ensures BitOf(a ^ b, i) == (BitOf(a, i) != BitOf(b, i))
  {
    if i < 4 {
      XorHigh(a, b, i);
    } else {
      XorLow(a, b, i);
    }
  }

  lemma ByteXor(a: bv8, b: bv8)
    ensures ByteBits(a ^ b) == Plus(ByteBits(a), ByteBits(b))
  {
    forall i: nat | i < 8 ensures ByteBits(a ^ b)[i] == Plus(ByteBits(a), ByteBits(b))[i] {
      XorAt(a, b, i);
    }
  }

  lemma XoredParts(a: seq<bv8>, b: seq<bv8>)
    requires |a| == |b| > 0
    ensures var n := |a| - 1; Xored(a, b)[..n] == Xored(a[..n], b[..n]) && Xored(a, b)[n] == a[n] ^ b[n]
  {
  }

  lemma {:induction false} MessageXor(a: seq<bv8>, b: seq<bv8>)
    requires |a| == |b|
    ensures MessageBits(Xored(a, b)) == Plus(MessageBits(a), MessageBits(b))
  {
    if a != [] {
      var n := |a| - 1;
      MessageXor(a[..n], b[..n]);
      ByteXor(a[n], b[n]);
      XoredParts(a, b);
      PlusConcat(MessageBits(a[..n]), ByteBits(a[n]), MessageBits(b[..n]), ByteBits(b[n]));
    }
  }

  /** The checksum of the exclusive or of two messages is that of their checksums. */
  lemma Linear(a: seq<bv8>, b: seq<bv8>)
    requires |a| == |b|
    ensures Checksum(Xored(a, b)) == Plus(Checksum(a), Checksum(b))
  {
    ChecksumDivides(a);
    ChecksumDivides(b);
    ChecksumDivides(Xored(a, b));
    MessageXor(a, b);
    DivideLinear(Zeros(16), Zeros(16), MessageBits(a), MessageBits(b));
    assert Plus(Zeros(16), Zeros(16)) == Zeros(16);
  }

  // ---------- Appending the checksum ----------

  function High(r: bv16): (b: bv8) {
    (r >> 8) as bv8
  }

  function Low(r: bv16): (b: bv8) {
    (r & 0xFF) as bv8
  }

  lemma HighAt(r: bv16, i: nat)
    requires i < 8
    ensures BitOf(High(r), i) == Coefficient(r, i)
  {
  }

  lemma LowAt(r: bv16, i: nat)
    requires i < 8
    ensures BitOf(Low(r), i) == Coefficient(r, i + 8)
  {
  }

  lemma RegBytes(r: bv16)
    ensures Reg(r) == ByteBits(High(r)) + ByteBits(Low(r))
  {
    forall i: nat | i < 16 ensures Reg(r)[i] == (ByteBits(High(r)) + ByteBits(Low(r)))[i] {
      if i < 8 {
        HighAt(r, i);
      } else {
        LowAt(r, i - 8);
      }
    }
  }

  lemma AppendedBits(msg: seq<bv8>, h: bv8, l: bv8)
    ensures MessageBits(msg + [h, l]) == MessageBits(msg) + (ByteBits(h) + ByteBits(l))
  {
    assert (msg + [h, l])[..|msg| + 1] == msg + [h];
    assert (msg + [h])[..|msg|] == msg;
  }

  /** A message and two more bytes divide without remainder exactly when the two are the checksum, high byte first. */
  lemma Residue(msg: seq<bv8>, h: bv8, l: bv8)
    ensures Checksum(msg + [h, l]) == Zeros(16) <==> ByteBits(h) + ByteBits(l) == Checksum(msg)
  {
    var p, bits := Checksum(msg), ByteBits(h) + ByteBits(l);
    AppendedBits(msg, h, l);
    ChecksumDivides(msg);
    ChecksumDivides(msg + [h, l]);
    DivideConcat(Zeros(16), MessageBits(msg), bits);
    assert bits + Zeros(0) == bits;
    if Divide(p, bits) == Zeros(16) {
      OnlyItself(p, bits);
    }
    if bits == p {
      ItselfCancels(p, bits);
    }
  }

  method CrcAndAppend(msg: seq<bv8>) returns (crc: bv16, whole: seq<bv8>)
    ensures Reg(crc) == Checksum(msg) && whole == msg + [High(crc), Low(crc)] && Checksum(whole) == Zeros(16)
  {
    crc := Crc(msg);
    RegBytes(crc);
    Residue(msg, High(crc), Low(crc));
    whole := msg + [High(crc), Low(crc)];
  }

  /** Messages that differ, and differ only within sixteen adjacent bits, have different checksums. */
  lemma BurstDetected(a: seq<bv8>, b: seq<bv8>, at: nat, burst: seq<bool>)
    requires |a| == |b| && |burst| <= 16 && true in burst && at + |burst| <= 8 * |a|
    requires Plus(MessageBits(a), MessageBits(b)) == Zeros(at) + burst + Zeros(8 * |a| - at - |burst|)
    ensures Checksum(a) != Checksum(b)
  {
    var d := Xored(a, b);
    MessageXor(a, b);
    Linear(a, b);
    ChecksumDivides(d);
    BurstRemains(at, burst, 8 * |a| - at - |burst|);
    PlusSame(Checksum(a));
  }

  lemma PlusSame(p: Poly)
    ensures Plus(p, p) == Zeros(16)
  {
  }
}
