/** The streaming SipHash object, and what it computes. */
module SipHashStream {
  import opened Words
  import opened WordShifts
  import opened LittleEndian
  import opened SipHash

  class SipHash24 {
    const ops: Ops
    var idx: nat
    var v0: Word
    var v1: Word
    var v2: Word
    var v3: Word
    var m: Word
    var inputLen: Byte

    ghost function Vec(): (v: Vector)
      reads this
    {
      Vector(v0, v1, v2, v3)
    }

    ghost function View(): (p: Progress)
      reads this
    {
      Progress(Vec(), m, idx, inputLen)
    }

    /** On a block boundary nothing is left of an unfinished block. */
    ghost predicate Valid()
      reads this
    {
      idx < 8 && (idx == 0 ==> m == 0)
    }

    constructor (ops: Ops, key: seq<Byte>)
      requires |key| == 16
      ensures this.ops == ops && Valid()
      ensures View() == Progress(ops.Init(ops.Load(key[..8]), ops.Load(key[8..])), 0, 0, 0)
    {
      var k0, k1 := ops.Load(key[..8]), ops.Load(key[8..]);
      this.ops := ops;
      v0 := ops.xor(0x736f6d6570736575, k0);
      v1 := ops.xor(0x646f72616e646f6d, k1);
      v2 := ops.xor(0x6c7967656e657261, k0);
      v3 := ops.xor(0x7465646279746573, k1);
      idx := 0;
      inputLen := 0;
      m := 0;
    }

    method Compress()
      modifies this`v0, this`v1, this`v2, this`v3
      ensures Vec() == ops.Round(old(Vec()))
    {
      v0 := ops.add(v0, v1);
      v1 := ops.rotl(v1, 13);
      v1 := ops.xor(v1, v0);
      v0 := ops.rotl(v0, 32);
      v2 := ops.add(v2, v3);
      v3 := ops.rotl(v3, 16);
      v3 := ops.xor(v3, v2);
      v0 := ops.add(v0, v3);
      v3 := ops.rotl(v3, 21);
      v3 := ops.xor(v3, v0);
      v2 := ops.add(v2, v1);
      v1 := ops.rotl(v1, 17);
      v1 := ops.xor(v1, v2);
      v2 := ops.rotl(v2, 32);
    }

    method DigestBlock()
      modifies this`v0, this`v1, this`v2, this`v3, this`m, this`idx
      ensures Vec() == ops.Block(old(Vec()), old(m)) && m == 0 && idx == 0
    {
      v3 := ops.xor(v3, m);
      Compress();
      Compress();
      v0 := ops.xor(v0, m);
      idx := 0;
      m := 0;
    }

    /** One turn of the byte loop. */
    method AbsorbByte(b: Byte)
      requires Valid()
      modifies this
      ensures Valid() && View() == ops.Step(old(View()), b)
    {
      inputLen := (inputLen + 1) % 256;
      m := ops.or(m, ops.shl(b, idx * 8));
      idx := idx + 1;
      if idx >= 8 {
        DigestBlock();
      }
    }

    /** One turn of the loop over blocks. */
    method TakeBlock(block: seq<Byte>)
      requires |block| == 8
      modifies this
      ensures View() == Progress(ops.Block(old(Vec()), ops.Load(block)), 0, 0, (old(inputLen) + 8) % 256)
    {
      inputLen := (inputLen + 8) % 256;
      m := ops.Load(block);
      DigestBlock();
    }

    /** It is the same as eight turns of the byte loop. */
    method AbsorbBlock(block: seq<Byte>)
      requires Valid() && idx == 0 && |block| == 8 && Positional(ops)
      modifies this
      ensures Valid() && idx == 0 && View() == ops.Feed(old(View()), block)
    {
      FeedBlock(ops, Vec(), inputLen, block);
      TakeBlock(block);
    }

    /** The loop over whole blocks. */
    method AbsorbBlocks(data: seq<Byte>, count: nat)
      requires Valid() && idx == 0 && Positional(ops) && 8 * count <= |data|
      modifies this
      ensures Valid() && View() == ops.Feed(old(View()), data[..8 * count])
    {
      for k := 0 to count
        invariant idx == 0 && Valid() && View() == ops.Feed(old(View()), data[..8 * k])
      {
        ghost var before, block := data[..8 * k], data[8 * k..8 * (k + 1)];
        FeedConcat(ops, old(View()), before, block);
        assert data[..8 * (k + 1)] == before + block;
        AbsorbBlock(data[8 * k..8 * (k + 1)]);
      }
    }

    /** Whatever is taken in blocks, the result is that of the bytes one after the other. */
    method Update(data: seq<Byte>)
      requires Valid() && Positional(ops)
      modifies this
      ensures Valid() && View() == ops.Feed(old(View()), data)
    {
      var at := 0;
      if idx == 0 {
        AbsorbBlocks(data, |data| / 8);
        at := 8 * (|data| / 8);
      }
      while at != |data|
        invariant at <= |data| && Valid() && View() == ops.Feed(old(View()), data[..at])
        decreases |data| - at
      {
        assert data[..at + 1][..at] == data[..at];
        AbsorbByte(data[at]);
        at := at + 1;
      }
      assert data[..at] == data;
    }

    method Finish() returns (h: Word)
      modifies this`v0, this`v1, this`v2, this`v3
      ensures h == ops.Final(old(Vec()))
    {
      v2 := ops.xor(v2, 0xff);
      Compress();
      Compress();
      Compress();
      Compress();
      h := ops.xor(ops.xor(ops.xor(v0, v1), v2), v3);
    }

    /** The unfinished block, with the length in its highest byte. */
    method LastWord()
      requires Valid() && forall x :: ops.or(x, 0) == x
      modifies this`idx, this`m
      ensures m == ops.or(old(m), ops.shl(inputLen, 56))
    {
      while idx < 7
        invariant idx <= 7 && m == old(m)
      {
        m := ops.or(m, 0);
        idx := idx + 1;
      }
      m := ops.or(m, ops.shl(inputLen, idx * 8));
    }

    method Digest() returns (h: Word)
      requires Valid() && forall x :: ops.or(x, 0) == x
      modifies this
      ensures h == ops.Digest(old(View()))
    {
      LastWord();
      DigestBlock();
      h := Finish();
    }
  }

  // ---------- The hash of the whole message ----------

  function Whole(msg: seq<Byte>): (r: seq<Byte>)
    ensures |r| % 8 == 0
  {
    msg[..|msg| - |msg| % 8]
  }

  function Rest(msg: seq<Byte>): (r: seq<Byte>)
    ensures |r| == |msg| % 8
  {
    msg[|msg| - |msg| % 8..]
  }

  lemma BlocksSnoc(ops: Ops, v: Vector, msg: seq<Byte>, block: seq<Byte>)
    requires |msg| % 8 == 0 && |block| == 8
    ensures ops.Blocks(v, msg + block) == ops.Block(ops.Blocks(v, msg), WordOf(block))
  {
    assert (msg + block)[..|msg|] == msg && (msg + block)[|msg|..] == block;
  }

  lemma Lengths(n: nat)
    ensures (n + 1) % 8 == if n % 8 == 7 then 0 else n % 8 + 1
    ensures (n % 256 + 1) % 256 == (n + 1) % 256
  {
    NextMod8(n);
    LengthStep(0, n);
  }

  lemma NextMod8(n: nat)
    ensures (n + 1) % 8 == if n % 8 == 7 then 0 else n % 8 + 1
  {
  }

  /** A byte that does not complete a block only makes the rest longer. */
  lemma ByteStays(msg: seq<Byte>, b: Byte)
    requires |msg| % 8 < 7
    ensures Whole(msg + [b]) == Whole(msg) && Rest(msg + [b]) == Rest(msg) + [b]
  {
    Lengths(|msg|);
  }

  /** The eighth byte completes a block. */
  lemma ByteCompletes(msg: seq<Byte>, b: Byte)
    requires |msg| % 8 == 7
    ensures Whole(msg + [b]) == Whole(msg) + (Rest(msg) + [b]) && Rest(msg + [b]) == []
  {
    Lengths(|msg|);
    assert msg == Whole(msg) + Rest(msg);
  }

  /** What the object holds after a message. */
  function After(ops: Ops, v: Vector, msg: seq<Byte>): (p: Progress) {
    Progress(ops.Blocks(v, Whole(msg)), WordOf(Rest(msg)), |msg| % 8, |msg| % 256)
  }

  lemma StepAfter(ops: Ops, v: Vector, msg: seq<Byte>, b: Byte)
    requires Positional(ops)
    ensures ops.Step(After(ops, v, msg), b) == After(ops, v, msg + [b])
  {
    Lengths(|msg|);
    assert ops.or(WordOf(Rest(msg)), ops.shl(b, |msg| % 8 * 8)) == WordOf(Rest(msg) + [b]);
    if |msg| % 8 == 7 {
      ByteCompletes(msg, b);
      BlocksSnoc(ops, v, Whole(msg), Rest(msg) + [b]);
    } else {
      ByteStays(msg, b);
    }
  }

  lemma {:induction false} FeedAfter(ops: Ops, v: Vector, msg: seq<Byte>)
    requires Positional(ops)
    ensures ops.Feed(Progress(v, 0, 0, 0), msg) == After(ops, v, msg)
  {
    if msg != [] {
      var n := |msg| - 1;
      FeedAfter(ops, v, msg[..n]);
      StepAfter(ops, v, msg[..n], msg[n]);
      assert msg == msg[..n] + [msg[n]];
    }
  }

  /** Zero bytes on top do not change a little-endian number. */
  lemma {:induction false} LEZeros(bs: seq<Byte>, n: nat)
    ensures LE(bs + seq(n, _ => 0)) == LE(bs)
  {
    var zeros: seq<Byte> := seq(n, _ => 0);
    if n == 0 {
      assert bs + zeros == bs;
    } else {
      LEZeros(bs, n - 1);
      var fewer: seq<Byte> := seq(n - 1, _ => 0);
      assert bs + zeros == (bs + fewer) + [0];
      LESnoc(bs + fewer, 0);
      ScaledZero(8 * |bs + fewer|);
    }
  }

  lemma {:induction false} ScaledZero(s: nat)
    ensures Scaled(0, s) == 0
  {
    if s > 0 {
      ScaledZero(s - 1);
    }
  }

  /** The rest of the message with the length on top is the last block of the padded message. */
  lemma LastBlock(ops: Ops, v: Vector, msg: seq<Byte>)
    requires Positional(ops)
    ensures ops.Blocks(v, Padded(msg))
         == ops.Block(ops.Blocks(v, Whole(msg)), ops.or(WordOf(Rest(msg)), ops.shl(|msg| % 256, 56)))
  {
    var bs: seq<Byte> := Rest(msg) + seq(7 - |msg| % 8, _ => 0);
    assert msg == Whole(msg) + Rest(msg);
    assert Padded(msg) == Whole(msg) + (bs + [|msg| % 256]);
    LEZeros(Rest(msg), 7 - |msg| % 8);
    BlocksSnoc(ops, v, Whole(msg), bs + [|msg| % 256]);
  }

  /** The digest of the bytes fed one after the other is SipHash-2-4 of the message. */
  lemma DigestIsHash(ops: Ops, key: seq<Byte>, msg: seq<Byte>)
    requires |key| == 16 && Positional(ops)
    ensures ops.Digest(ops.Feed(Progress(ops.Init(WordOf(key[..8]), WordOf(key[8..])), 0, 0, 0), msg)) ==
            ops.Hash(key, msg)
  {
    var v := ops.Init(WordOf(key[..8]), WordOf(key[8..]));
    FeedAfter(ops, v, msg);
    LastBlock(ops, v, msg);
  }

  lemma LoadIsWord(ops: Ops, p: seq<Byte>)
    requires |p| == 8 && Positional(ops)
    ensures ops.Load(p) == WordOf(p)
  {
    LoadPartial(ops, p);
    PartialIsWord(ops, p, 8);
    assert p[..8] == p;
  }

  lemma {:induction false} PartialIsWord(ops: Ops, p: seq<Byte>, n: nat)
    requires n <= |p| && n <= 8 && Positional(ops)
    ensures Partial(ops, p, n) == WordOf(p[..n])
  {
    if n > 0 {
      PartialIsWord(ops, p, n - 1);
      assert p[..n] == p[..n - 1] + [p[n - 1]];
    }
  }

  // ---------- Splitting a message ----------

  function Concat(chunks: seq<seq<Byte>>): (r: seq<Byte>) {
    if chunks == [] then [] else Concat(chunks[..|chunks| - 1]) + chunks[|chunks| - 1]
  }

  /** However a message is cut into pieces, updating with the pieces gives the hash of the whole. */
  method HashPieces(ops: Ops, key: seq<Byte>, chunks: seq<seq<Byte>>) returns (h: Word)
    requires |key| == 16 && Positional(ops) && forall x :: ops.or(x, 0) == x
    ensures h == ops.Hash(key, Concat(chunks))
  {
    var sip := new SipHash24(ops, key);
    ghost var start := sip.View();
    LoadIsWord(ops, key[..8]);
    LoadIsWord(ops, key[8..]);
    for k := 0 to |chunks|
      invariant sip.ops == ops && sip.Valid() && sip.View() == ops.Feed(start, Concat(chunks[..k]))
    {
      assert chunks[..k + 1][..k] == chunks[..k];
      FeedConcat(ops, start, Concat(chunks[..k]), chunks[k]);
      sip.Update(chunks[k]);
    }
    assert chunks[..|chunks|] == chunks;
    DigestIsHash(ops, key, Concat(chunks));
    h := sip.Digest();
  }

  /** The same with the operations of the machine. */
  method HashMessage(key: seq<Byte>, chunks: seq<seq<Byte>>) returns (h: Word)
    requires |key| == 16
    ensures h == MACHINE.Hash(key, Concat(chunks))
  {
    MachinePositional();
    forall x: Word ensures MACHINE.or(x, 0) == x {
      OrZero(x);
    }
    h := HashPieces(MACHINE, key, chunks);
  }
}
