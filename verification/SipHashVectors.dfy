/** The published results of SipHash-2-4. */
module SipHashVectors {
  import opened Words
  import opened LittleEndian
  import opened SipHash
  import opened BitVectors
  import opened SipHashBits

  // ---------- The hash on bit vectors ----------

  datatype Four = Four(v0: bv64, v1: bv64, v2: bv64, v3: bv64)

  function Plus(a: bv64, b: bv64): (r: bv64) {
    a + b
  }

  function Exclusive(a: bv64, b: bv64): (r: bv64) {
    a ^ b
  }

  function Left13(a: bv64): (r: bv64) {
    (a << 13) | (a >> 51)
  }

  function Left16(a: bv64): (r: bv64) {
    (a << 16) | (a >> 48)
  }

  function Left17(a: bv64): (r: bv64) {
    (a << 17) | (a >> 47)
  }

  function Left21(a: bv64): (r: bv64) {
    (a << 21) | (a >> 43)
  }

  function Left32(a: bv64): (r: bv64) {
    (a << 32) | (a >> 32)
  }

  function Round(v: Four): (r: Four) {
    var v0, v2 := Plus(v.v0, v.v1), Plus(v.v2, v.v3);
    var v1, v3 := Exclusive(Left13(v.v1), v0), Exclusive(Left16(v.v3), v2);
    var w2, w0 := Plus(v2, v1), Plus(Left32(v0), v3);
    Four(w0, Exclusive(Left17(v1), w2), Left32(w2), Exclusive(Left21(v3), w0))
  }

  function Block(v: Four, m: bv64): (r: Four) {
    var w := Round(Round(Keyed(v, m)));
    Four(Exclusive(w.v0, m), w.v1, w.v2, w.v3)
  }

  function Final(v: Four): (h: bv64) {
    var w := Round(Round(Round(Round(Marked(v)))));
    Exclusive(Exclusive(Exclusive(w.v0, w.v1), w.v2), w.v3)
  }

  ghost predicate Agree(w: bv64 -> Word, ops: Ops, sum: (bv64, bv64, bv64) -> bool) {
    (forall a, b {:trigger w(Plus(a, b))} :: sum(a, b, Plus(a, b)) ==> w(Plus(a, b)) == ops.add(w(a), w(b))) &&
    (forall a, b {:trigger w(Exclusive(a, b))} :: w(Exclusive(a, b)) == ops.xor(w(a), w(b))) &&
    (forall a {:trigger w(Left13(a))} :: w(Left13(a)) == ops.rotl(w(a), 13)) &&
    (forall a {:trigger w(Left16(a))} :: w(Left16(a)) == ops.rotl(w(a), 16)) &&
    (forall a {:trigger w(Left17(a))} :: w(Left17(a)) == ops.rotl(w(a), 17)) &&
    (forall a {:trigger w(Left21(a))} :: w(Left21(a)) == ops.rotl(w(a), 21)) &&
    (forall a {:trigger w(Left32(a))} :: w(Left32(a)) == ops.rotl(w(a), 32))
  }

  function Vec(w: bv64 -> Word, v: Four): (r: Vector) {
    Vector(w(v.v0), w(v.v1), w(v.v2), w(v.v3))
  }

  lemma MachineAgrees()
    ensures Agree(W, MACHINE, IsSum)
  {
    forall a, b | IsSum(a, b, Plus(a, b)) ensures W(Plus(a, b)) == MACHINE.add(W(a), W(b)) {
      WSum(a, b, Plus(a, b));
    }
    forall a, b ensures W(Exclusive(a, b)) == MACHINE.xor(W(a), W(b)) {
      WXor(a, b, Exclusive(a, b));
    }
    forall a ensures W(Left13(a)) == MACHINE.rotl(W(a), 13) {
      Spin13(a);
      SpinIs(a, 13);
    }
    forall a ensures W(Left16(a)) == MACHINE.rotl(W(a), 16) {
      Spin16(a);
      SpinIs(a, 16);
    }
    forall a ensures W(Left17(a)) == MACHINE.rotl(W(a), 17) {
      Spin17(a);
      SpinIs(a, 17);
    }
    forall a ensures W(Left21(a)) == MACHINE.rotl(W(a), 21) {
      Spin21(a);
      SpinIs(a, 21);
    }
    forall a ensures W(Left32(a)) == MACHINE.rotl(W(a), 32) {
      Spin32(a);
      SpinIs(a, 32);
    }
  }

  /** The additions of a round are sums. */
  predicate Sound(sum: (bv64, bv64, bv64) -> bool, v: Four) {
    var v0, v2 := Plus(v.v0, v.v1), Plus(v.v2, v.v3);
    var v1, v3 := Exclusive(Left13(v.v1), v0), Exclusive(Left16(v.v3), v2);
    sum(v.v0, v.v1, v0) && sum(v.v2, v.v3, v2) && sum(v2, v1, Plus(v2, v1)) && sum(Left32(v0), v3, Plus(Left32(v0), v3))
  }

  lemma RoundAgrees(w: bv64 -> Word, ops: Ops, sum: (bv64, bv64, bv64) -> bool, v: Four)
    requires Agree(w, ops, sum) && Sound(sum, v)
    ensures Vec(w, Round(v)) == ops.Round(Vec(w, v))
  {
  }

  function Keyed(v: Four, m: bv64): (r: Four) {
    Four(v.v0, v.v1, v.v2, Exclusive(v.v3, m))
  }

  lemma BlockAgrees(w: bv64 -> Word, ops: Ops, sum: (bv64, bv64, bv64) -> bool, v: Four, m: bv64)
    requires Agree(w, ops, sum) && Sound(sum, Keyed(v, m)) && Sound(sum, Round(Keyed(v, m)))
    ensures Vec(w, Block(v, m)) == ops.Block(Vec(w, v), w(m))
  {
    var u := Keyed(v, m);
    RoundAgrees(w, ops, sum, u);
    RoundAgrees(w, ops, sum, Round(u));
  }

  function Marked(v: Four): (r: Four) {
    Four(v.v0, v.v1, Exclusive(v.v2, 0xff), v.v3)
  }

  lemma FinalAgrees(w: bv64 -> Word, ops: Ops, sum: (bv64, bv64, bv64) -> bool, v: Four)
    requires Agree(w, ops, sum) && w(0xff) == 0xff
    requires Sound(sum, Marked(v)) && Sound(sum, Round(Marked(v)))
    requires Sound(sum, Round(Round(Marked(v)))) && Sound(sum, Round(Round(Round(Marked(v)))))
    ensures w(Final(v)) == ops.Final(Vec(w, v))
  {
    var u := Marked(v);
    RoundAgrees(w, ops, sum, u);
    RoundAgrees(w, ops, sum, Round(u));
    RoundAgrees(w, ops, sum, Round(Round(u)));
    RoundAgrees(w, ops, sum, Round(Round(Round(u))));
  }

  // ---------- Numerals ----------

  /** The number of a bit vector is the little-endian word of its bytes. */
  lemma Numeral(v0: bv64, v1: bv64, v2: bv64, v3: bv64, v4: bv64, v5: bv64, v6: bv64, v7: bv64)
    requires v1 == v0 >> 8 && v2 == v1 >> 8 && v3 == v2 >> 8 && v4 == v3 >> 8
    requires v5 == v4 >> 8 && v6 == v5 >> 8 && v7 == v6 >> 8
    ensures W(v0) == WordOf([Octet(v0), Octet(v1), Octet(v2), Octet(v3), Octet(v4), Octet(v5), Octet(v6), Octet(v7)])
    ensures W(v0) == ByPlace(Octet(v0), Octet(v1), Octet(v2), Octet(v3),
                                Octet(v4), Octet(v5), Octet(v6), Octet(v7))
  {
    var bs := [Octet(v0), Octet(v1), Octet(v2), Octet(v3), Octet(v4), Octet(v5), Octet(v6), Octet(v7)];
    SpellsEight(Octet, v0, v1, v2, v3, v4, v5, v6, v7, bs);
    WBytes(v0, bs);
  }

  /** The constants of the hash stand for themselves. */
  predicate Reads(w: bv64 -> Word) {
    w(0xff) == 0xff && w(0x736f6d6570736575) == 0x736f6d6570736575 && w(0x646f72616e646f6d) == 0x646f72616e646f6d &&
    w(0x6c7967656e657261) == 0x6c7967656e657261 && w(0x7465646279746573) == 0x7465646279746573
  }

  lemma NumeralFF()
    ensures W(0xff) == 0xff
  {
    Numeral(0xff, 0x0, 0x0, 0x0, 0x0, 0x0, 0x0, 0x0);
  }

  lemma Numeral0()
    ensures W(0x736f6d6570736575) == 0x736f6d6570736575
  {
    Numeral(0x736f6d6570736575, 0x736f6d65707365, 0x736f6d657073, 0x736f6d6570, 0x736f6d65, 0x736f6d, 0x736f, 0x73);
  }

  lemma Numeral1()
    ensures W(0x646f72616e646f6d) == 0x646f72616e646f6d
  {
    Numeral(0x646f72616e646f6d, 0x646f72616e646f, 0x646f72616e64, 0x646f72616e, 0x646f7261, 0x646f72, 0x646f, 0x64);
  }

  lemma Numeral2()
    ensures W(0x6c7967656e657261) == 0x6c7967656e657261
  {
    Numeral(0x6c7967656e657261, 0x6c7967656e6572, 0x6c7967656e65, 0x6c7967656e, 0x6c796765, 0x6c7967, 0x6c79, 0x6c);
  }

  lemma Numeral3()
    ensures W(0x7465646279746573) == 0x7465646279746573
  {
    Numeral(0x7465646279746573, 0x74656462797465, 0x746564627974, 0x7465646279, 0x74656462, 0x746564, 0x7465, 0x74);
  }

  lemma Numerals()
    ensures Reads(W)
  {
    NumeralFF();
    Numeral0();
    Numeral1();
    Numeral2();
    Numeral3();
  }

  lemma NumeralLow()
    ensures W(0x706050403020100) == WordOf([0, 1, 2, 3, 4, 5, 6, 7])
  {
    Numeral(0x706050403020100, 0x7060504030201, 0x70605040302, 0x706050403, 0x7060504, 0x70605, 0x706, 0x7);
  }

  lemma NumeralHigh()
    ensures W(0xf0e0d0c0b0a0908) == WordOf([8, 9, 10, 11, 12, 13, 14, 15])
  {
    Numeral(0xf0e0d0c0b0a0908, 0xf0e0d0c0b0a09, 0xf0e0d0c0b0a, 0xf0e0d0c0b, 0xf0e0d0c, 0xf0e0d, 0xf0e, 0xf);
  }

  lemma NumeralZero()
    ensures W(0) == WordOf([0, 0, 0, 0, 0, 0, 0, 0])
  {
    Numeral(0x0, 0x0, 0x0, 0x0, 0x0, 0x0, 0x0, 0x0);
  }

  lemma NumeralEmpty()
    ensures W(0x726fdb47dd0e0e31) == 0x726fdb47dd0e0e31
  {
    Numeral(0x726fdb47dd0e0e31, 0x726fdb47dd0e0e, 0x726fdb47dd0e, 0x726fdb47dd, 0x726fdb47, 0x726fdb, 0x726f, 0x72);
  }

  lemma NumeralFifteen()
    ensures W(0xa129ca6149be45e5) == 0xa129ca6149be45e5
  {
    Numeral(0xa129ca6149be45e5, 0xa129ca6149be45, 0xa129ca6149be, 0xa129ca6149, 0xa129ca61, 0xa129ca, 0xa129, 0xa1);
  }

  // ---------- The hash of messages of one and of two blocks ----------

  lemma OneBlock(ops: Ops, key: seq<Byte>, msg: seq<Byte>)
    requires |key| == 16 && |msg| < 8
    ensures ops.Hash(key, msg)
         == ops.Final(ops.Block(ops.Init(WordOf(key[..8]), WordOf(key[8..])), WordOf(Padded(msg))))
  {
    BlocksOne(ops, ops.Init(WordOf(key[..8]), WordOf(key[8..])), Padded(msg));
  }

  lemma TwoBlocks(ops: Ops, key: seq<Byte>, msg: seq<Byte>)
    requires |key| == 16 && 8 <= |msg| < 16
    ensures var v := ops.Init(WordOf(key[..8]), WordOf(key[8..]));
            ops.Hash(key, msg) == ops.Final(ops.Block(ops.Block(v, WordOf(Padded(msg)[..8])), WordOf(Padded(msg)[8..])))
  {
    BlocksOne(ops, ops.Init(WordOf(key[..8]), WordOf(key[8..])), Padded(msg)[..8]);
  }

  lemma BlocksOne(ops: Ops, v: Vector, block: seq<Byte>)
    requires |block| == 8
    ensures ops.Blocks(v, block) == ops.Block(v, WordOf(block))
  {
    assert block[..0] == [] && block[0..] == block;
  }

  // ---------- The published results ----------

  lemma Start(w: bv64 -> Word, ops: Ops)
    requires Agree(w, ops, IsSum) && Reads(w)
    ensures ops.Init(w(0x706050403020100), w(0xf0e0d0c0b0a0908))
         == Vec(w, Four(0x7469686173716475, 0x6b617f6d656e6665, 0x6b7f62616d677361, 0x7b6b696e727e6c7b))
  {
    assert w(Exclusive(0x736f6d6570736575, 0x706050403020100)) == w(0x7469686173716475);
    assert w(Exclusive(0x646f72616e646f6d, 0xf0e0d0c0b0a0908)) == w(0x6b617f6d656e6665);
    assert w(Exclusive(0x6c7967656e657261, 0x706050403020100)) == w(0x6b7f62616d677361);
    assert w(Exclusive(0x7465646279746573, 0xf0e0d0c0b0a0908)) == w(0x7b6b696e727e6c7b);
  }

  lemma EmptyBlock(w: bv64 -> Word, ops: Ops)
    requires Agree(w, ops, IsSum)
    ensures ops.Block(Vec(w, Four(0x7469686173716475, 0x6b617f6d656e6665, 0x6b7f62616d677361, 0x7b6b696e727e6c7b)),
                      w(0x0))
         == Vec(w, Four(0x75126fd44af190b6, 0x84235164f06142b, 0x37b04f9f8026831d, 0x1b4678cde8253231))
  {
    BlockAgrees(w, ops, IsSum, Four(0x7469686173716475, 0x6b617f6d656e6665, 0x6b7f62616d677361, 0x7b6b696e727e6c7b),
                0x0);
  }

  lemma EmptyFinal(w: bv64 -> Word, ops: Ops)
    requires Agree(w, ops, IsSum) && Reads(w)
    ensures ops.Final(Vec(w, Four(0x75126fd44af190b6, 0x84235164f06142b, 0x37b04f9f8026831d,
                                  0x1b4678cde8253231))) == w(0x726fdb47dd0e0e31)
  {
    FinalAgrees(w, ops, IsSum, Four(0x75126fd44af190b6, 0x84235164f06142b, 0x37b04f9f8026831d, 0x1b4678cde8253231));
  }

  lemma FirstBlock(w: bv64 -> Word, ops: Ops)
    requires Agree(w, ops, IsSum)
    ensures ops.Block(Vec(w, Four(0x7469686173716475, 0x6b617f6d656e6665, 0x6b7f62616d677361, 0x7b6b696e727e6c7b)),
                      w(0x706050403020100))
         == Vec(w, Four(0x4a017198de0a59e0, 0xd52f6f62a4f59a4, 0x634cb3577b01fd3d, 0xa5224d6f55c7d9c8))
  {
    BlockAgrees(w, ops, IsSum, Four(0x7469686173716475, 0x6b617f6d656e6665, 0x6b7f62616d677361, 0x7b6b696e727e6c7b),
                0x706050403020100);
  }

  lemma SecondBlock(w: bv64 -> Word, ops: Ops)
    requires Agree(w, ops, IsSum)
    ensures ops.Block(Vec(w, Four(0x4a017198de0a59e0, 0xd52f6f62a4f59a4, 0x634cb3577b01fd3d, 0xa5224d6f55c7d9c8)),
                      w(0xf0e0d0c0b0a0908))
         == Vec(w, Four(0x3c85b3ab6f55be51, 0x414fc3fb98efe374, 0xccf13ea527b9f4bd, 0x5293f5da84008f82))
  {
    BlockAgrees(w, ops, IsSum, Four(0x4a017198de0a59e0, 0xd52f6f62a4f59a4, 0x634cb3577b01fd3d, 0xa5224d6f55c7d9c8),
                0xf0e0d0c0b0a0908);
  }

  lemma FifteenFinal(w: bv64 -> Word, ops: Ops)
    requires Agree(w, ops, IsSum) && Reads(w)
    ensures ops.Final(Vec(w, Four(0x3c85b3ab6f55be51, 0x414fc3fb98efe374, 0xccf13ea527b9f4bd,
                                  0x5293f5da84008f82))) == w(0xa129ca6149be45e5)
  {
    FinalAgrees(w, ops, IsSum, Four(0x3c85b3ab6f55be51, 0x414fc3fb98efe374, 0xccf13ea527b9f4bd, 0x5293f5da84008f82));
  }

  lemma Empty(w: bv64 -> Word, ops: Ops, key: seq<Byte>)
    requires Agree(w, ops, IsSum) && Reads(w) && |key| == 16
    requires w(0x706050403020100) == WordOf(key[..8]) && w(0xf0e0d0c0b0a0908) == WordOf(key[8..]) &&
             w(0) == WordOf(Padded([]))
    ensures ops.Hash(key, []) == w(0x726fdb47dd0e0e31)
  {
    OneBlock(ops, key, []);
    Start(w, ops);
    EmptyBlock(w, ops);
    EmptyFinal(w, ops);
  }

  lemma Fifteen(w: bv64 -> Word, ops: Ops, key: seq<Byte>, msg: seq<Byte>)
    requires Agree(w, ops, IsSum) && Reads(w) && |key| == 16 && |msg| == 15
    requires w(0x706050403020100) == WordOf(key[..8]) && w(0xf0e0d0c0b0a0908) == WordOf(key[8..])
    requires w(0x706050403020100) == WordOf(Padded(msg)[..8]) && w(0xf0e0d0c0b0a0908) == WordOf(Padded(msg)[8..])
    ensures ops.Hash(key, msg) == w(0xa129ca6149be45e5)
  {
    TwoBlocks(ops, key, msg);
    Start(w, ops);
    FirstBlock(w, ops);
    SecondBlock(w, ops);
    FifteenFinal(w, ops);
  }

  lemma KeyWords(key: seq<Byte>)
    requires key == [0, 1, 2, 3, 4, 5, 6, 7, 8, 9, 10, 11, 12, 13, 14, 15]
    ensures W(0x706050403020100) == WordOf(key[..8]) && W(0xf0e0d0c0b0a0908) == WordOf(key[8..])
  {
    NumeralLow();
    NumeralHigh();
    assert key[..8] == [0, 1, 2, 3, 4, 5, 6, 7] && key[8..] == [8, 9, 10, 11, 12, 13, 14, 15];
  }

  lemma PaddedFull(msg: seq<Byte>)
    requires |msg| == 15
    ensures Padded(msg)[..8] == msg[..8] && Padded(msg)[8..] == msg[8..] + [15]
  {
    assert Padded(msg) == msg + [15];
  }

  lemma MessageWords(msg: seq<Byte>)
    requires msg == [0, 1, 2, 3, 4, 5, 6, 7, 8, 9, 10, 11, 12, 13, 14]
    ensures W(0x706050403020100) == WordOf(Padded(msg)[..8]) && W(0xf0e0d0c0b0a0908) == WordOf(Padded(msg)[8..])
  {
    NumeralLow();
    NumeralHigh();
    PaddedFull(msg);
    assert msg[..8] == [0, 1, 2, 3, 4, 5, 6, 7] && msg[8..] + [15] == [8, 9, 10, 11, 12, 13, 14, 15];
  }

  lemma EmptyWord()
    ensures W(0) == WordOf(Padded([]))
  {
    NumeralZero();
    assert Padded([]) == [0, 0, 0, 0, 0, 0, 0, 0];
  }

  /** Under the key of the bytes 0 to 15, the empty message. */
  lemma EmptyMessage(key: seq<Byte>)
    requires key == [0, 1, 2, 3, 4, 5, 6, 7, 8, 9, 10, 11, 12, 13, 14, 15]
    ensures MACHINE.Hash(key, []) == 0x726fdb47dd0e0e31
  {
    MachineAgrees();
    Numerals();
    KeyWords(key);
    EmptyWord();
    Empty(W, MACHINE, key);
    NumeralEmpty();
  }

  /** Under the key of the bytes 0 to 15, the message of the bytes 0 to 14. */
  lemma FifteenBytes(key: seq<Byte>, msg: seq<Byte>)
    requires key == [0, 1, 2, 3, 4, 5, 6, 7, 8, 9, 10, 11, 12, 13, 14, 15]
    requires msg == [0, 1, 2, 3, 4, 5, 6, 7, 8, 9, 10, 11, 12, 13, 14]
    ensures MACHINE.Hash(key, msg) == 0xa129ca6149be45e5
  {
    MachineAgrees();
    Numerals();
    KeyWords(key);
    MessageWords(msg);
    Fifteen(W, MACHINE, key, msg);
    NumeralFifteen();
  }
}
