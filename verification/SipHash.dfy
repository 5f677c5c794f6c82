/** SipHash-2-4: the hash of a whole message, and the byte-at-a-time form of it. */
module SipHash {
  import opened Words
  import opened LittleEndian

  datatype Vector = Vector(v0: Word, v1: Word, v2: Word, v3: Word)

  type Amount = b: nat | b <= 64

  /** What a hash in progress consists of: the vector, the bytes of an unfinished block, and the length. */
  datatype Progress = Progress(v: Vector, m: Word, idx: nat, len: Byte)

  /** The operations on words that the hash is made of. */
  datatype Ops = Ops(add: (Word, Word) -> Word, xor: (Word, Word) -> Word, or: (Word, Word) -> Word,
                     rotl: (Word, Amount) -> Word, shl: (Word, nat) -> Word) {

    /** SipRound: two half rounds, each on two pairs at once. */
    function Round(v: Vector): (r: Vector) {
      var v0, v2 := add(v.v0, v.v1), add(v.v2, v.v3);
      var v1, v3 := xor(rotl(v.v1, 13), v0), xor(rotl(v.v3, 16), v2);
      var w2, w0 := add(v2, v1), add(rotl(v0, 32), v3);
      var w1, w3 := xor(rotl(v1, 17), w2), xor(rotl(v3, 21), w0);
      Vector(w0, w1, rotl(w2, 32), w3)
    }

    /** Two rounds for a block of the message. */
    function Block(v: Vector, m: Word): (r: Vector) {
      var w := Round(Round(Vector(v.v0, v.v1, v.v2, xor(v.v3, m))));
      Vector(xor(w.v0, m), w.v1, w.v2, w.v3)
    }

    /** Four rounds at the end. */
    function Final(v: Vector): (h: Word) {
      var w := Round(Round(Round(Round(Vector(v.v0, v.v1, xor(v.v2, 0xff), v.v3)))));
      xor(xor(xor(w.v0, w.v1), w.v2), w.v3)
    }

    function Init(k0: Word, k1: Word): (v: Vector) {
      Vector(xor(0x736f6d6570736575, k0), xor(0x646f72616e646f6d, k1),
             xor(0x6c7967656e657261, k0), xor(0x7465646279746573, k1))
    }

    /** The word of eight bytes, lowest first. */
    function Load(p: seq<Byte>): (w: Word)
      requires |p| == 8
    {
      or(or(or(or(or(or(or(p[0], shl(p[1], 8)), shl(p[2], 16)), shl(p[3], 24)),
                        shl(p[4], 32)), shl(p[5], 40)), shl(p[6], 48)), shl(p[7], 56))
    }

    /** One byte more: into the unfinished block, which the eighth byte completes. */
    function Step(p: Progress, b: Byte): (r: Progress) {
      var m := or(p.m, shl(b, p.idx * 8));
      var len := (p.len + 1) % 256;
      if p.idx + 1 >= 8 then Progress(Block(p.v, m), 0, 0, len) else Progress(p.v, m, p.idx + 1, len)
    }

    /** The simple form: one byte after the other. */
    function Feed(p: Progress, data: seq<Byte>): (r: Progress) {
      Fold(Step, p, data)
    }

    /** The length goes on top of the unfinished block, which is then the last. */
    function Digest(p: Progress): (h: Word) {
      Final(Block(p.v, or(p.m, shl(p.len, 56))))
    }

    // ---------- The hash of a whole message ----------

    /** The blocks of eight bytes, one after the other. */
    function Blocks(v: Vector, msg: seq<Byte>): (r: Vector)
      requires |msg| % 8 == 0
    {
      if msg == [] then v else Block(Blocks(v, msg[..|msg| - 8]), WordOf(msg[|msg| - 8..]))
    }

    function Hash(key: seq<Byte>, msg: seq<Byte>): (h: Word)
      requires |key| == 16
    {
      Final(Blocks(Init(WordOf(key[..8]), WordOf(key[8..])), Padded(msg)))
    }
  }

  /** f applied to the elements one after the other. */
  function Fold<A, B>(f: (A, B) -> A, a: A, xs: seq<B>): (r: A) {
    if xs == [] then a else f(Fold(f, a, xs[..|xs| - 1]), xs[|xs| - 1])
  }

  lemma {:induction false} FoldConcat<A, B>(f: (A, B) -> A, a: A, xs: seq<B>, ys: seq<B>)
    ensures Fold(f, a, xs + ys) == Fold(f, Fold(f, a, xs), ys)
  {
    if ys == [] {
      assert xs + ys == xs;
    } else {
      var n := |ys| - 1;
      FoldConcat(f, a, xs, ys[..n]);
      assert (xs + ys)[..|xs| + n] == xs + ys[..n];
    }
  }

  /** The little-endian word of at most eight bytes. */
  function WordOf(bs: seq<Byte>): (w: Word)
    requires |bs| <= 8
  {
    LEWord(bs);
    LE(bs)
  }

  /** Zeros to seven bytes past a block, and the length modulo 256 as the eighth. */
  function Padded(msg: seq<Byte>): (r: seq<Byte>)
    ensures |r| % 8 == 0
  {
    msg + seq(7 - |msg| % 8, _ => 0) + [|msg| % 256]
  }

  // ---------- The machine's operations ----------

  function Add(x: Word, y: Word): (r: Word) {
    if x + y < WORD then x + y else x + y - WORD
  }

  function RotateLeft(x: Word, b: Amount): (r: Word) {
    OrW(Shl(x, b), Shr(x, 64 - b))
  }

  const MACHINE := Ops((x, y) => Add(x, y), (x, y) => XorW(x, y), (x, y) => OrW(x, y),
                       (x, b) => RotateLeft(x, b), (x, s) => Shl(x, s))

  /** A byte shifted to its place and joined with the bytes below it makes the word of all of them. */
  ghost predicate Positional(ops: Ops) {
    forall bs: seq<Byte>, b: Byte {:trigger bs + [b]} ::
      |bs| < 8 ==> ops.or(WordOf(bs), ops.shl(b, |bs| * 8)) == WordOf(bs + [b])
  }

  lemma MachinePositional()
    ensures Positional(MACHINE)
  {
    forall bs: seq<Byte>, b: Byte {:trigger bs + [b]} | |bs| < 8
      ensures MACHINE.or(WordOf(bs), MACHINE.shl(b, |bs| * 8)) == WordOf(bs + [b])
    {
      OrByte(bs, b, WordOf(bs), |bs| * 8);
    }
  }

  lemma FirstByte(ops: Ops, b: Byte)
    requires Positional(ops)
    ensures ops.or(0, ops.shl(b, 0)) == b
  {
    var none: seq<Byte> := [];
    assert none + [b] == [b];
    assert [b][1..] == [];
  }

  // ---------- The fast form against the simple one ----------

  lemma FeedConcat(ops: Ops, p: Progress, a: seq<Byte>, b: seq<Byte>)
    ensures ops.Feed(p, a + b) == ops.Feed(ops.Feed(p, a), b)
  {
    FoldConcat(ops.Step, p, a, b);
  }

  /** The word of the first n of eight bytes, as the bytes are put in. */
  function Partial(ops: Ops, p: seq<Byte>, n: nat): (w: Word)
    requires n <= |p|
  {
    if n == 0 then 0 else ops.or(Partial(ops, p, n - 1), ops.shl(p[n - 1], (n - 1) * 8))
  }

  lemma LoadPartial(ops: Ops, p: seq<Byte>)
    requires |p| == 8 && Positional(ops)
    ensures ops.Load(p) == Partial(ops, p, 8)
  {
    FirstByte(ops, p[0]);
    assert Partial(ops, p, 1) == p[0];
    assert Partial(ops, p, 2) == ops.or(p[0], ops.shl(p[1], 8));
    assert Partial(ops, p, 4) == ops.or(ops.or(Partial(ops, p, 2), ops.shl(p[2], 16)), ops.shl(p[3], 24));
    assert Partial(ops, p, 6) == ops.or(ops.or(Partial(ops, p, 4), ops.shl(p[4], 32)), ops.shl(p[5], 40));
    assert Partial(ops, p, 8) == ops.or(ops.or(Partial(ops, p, 6), ops.shl(p[6], 48)), ops.shl(p[7], 56));
  }

  function Length(len: Byte, n: nat): (r: Byte) {
    (len + n) % 256
  }

  lemma LengthStep(len: Byte, n: nat)
    ensures (Length(len, n) + 1) % 256 == Length(len, n + 1)
  {
  }

  /** Fewer than eight bytes from a block boundary stay in the unfinished block. */
  lemma {:induction false} FeedPartial(ops: Ops, v: Vector, len: Byte, block: seq<Byte>, n: nat)
    requires |block| == 8 && n < 8
    ensures ops.Feed(Progress(v, 0, 0, len), block[..n]) == Progress(v, Partial(ops, block, n), n, Length(len, n))
  {
    if n > 0 {
      FeedPartial(ops, v, len, block, n - 1);
      LengthStep(len, n - 1);
      assert block[..n][..n - 1] == block[..n - 1];
    }
  }

  /** Eight bytes from a block boundary are one block. */
  lemma FeedBlock(ops: Ops, v: Vector, len: Byte, block: seq<Byte>)
    requires |block| == 8 && Positional(ops)
    ensures ops.Feed(Progress(v, 0, 0, len), block) == Progress(ops.Block(v, ops.Load(block)), 0, 0, (len + 8) % 256)
  {
    FeedPartial(ops, v, len, block, 7);
    LengthStep(len, 7);
    LoadPartial(ops, block);
    assert ops.Feed(Progress(v, 0, 0, len), block) == ops.Step(ops.Feed(Progress(v, 0, 0, len), block[..7]), block[7]);
  }
}
