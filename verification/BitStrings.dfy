/** Numbers as bit strings, highest bit first, and bit strings cut into groups of equal length. */
module BitStrings {
  import opened Words

  /** The n lowest bits of v, highest first. */
  function Bits(v: nat, n: nat): (r: seq<bool>)
    ensures |r| == n
  {
    if n == 0 then [] else Bits(v / 2, n - 1) + [v % 2 == 1]
  }

  function Value(bits: seq<bool>): (v: nat) {
    if bits == [] then 0 else 2 * Value(bits[..|bits| - 1]) + if bits[|bits| - 1] then 1 else 0
  }

  lemma {:induction false} BitsAt(v: nat, n: nat, j: nat)
    requires j < n
    ensures Bits(v, n)[j] == Bit(v, n - 1 - j)
  {
    if j < n - 1 {
      BitsAt(v / 2, n - 1, j);
    }
  }

  lemma {:induction false} ValueBits(bits: seq<bool>)
    ensures Value(bits) < Pow2(|bits|) && Bits(Value(bits), |bits|) == bits
  {
    if bits != [] {
      ValueBits(bits[..|bits| - 1]);
      assert bits == bits[..|bits| - 1] + [bits[|bits| - 1]];
    }
  }

  lemma {:induction false} BitsValue(v: nat, n: nat)
    requires v < Pow2(n)
    ensures Value(Bits(v, n)) == v
  {
    if n > 0 {
      BitsValue(v / 2, n - 1);
      assert Bits(v, n)[..n - 1] == Bits(v / 2, n - 1);
    }
  }

  function Zeros(n: nat): (r: seq<bool>) {
    seq(n, _ => false)
  }

  // ---------- Groups ----------

  /** The numbers one after the other, n bits each. */
  function Flatten(ds: seq<nat>, n: nat): (r: seq<bool>) {
    if ds == [] then [] else Bits(ds[0], n) + Flatten(ds[1..], n)
  }

  lemma Associative(a: seq<bool>, b: seq<bool>, c: seq<bool>)
    ensures (a + b) + c == a + (b + c)
  {
  }

  lemma {:induction false} FlattenSnoc(ds: seq<nat>, d: nat, n: nat)
    ensures Flatten(ds + [d], n) == Flatten(ds, n) + Bits(d, n)
  {
    if ds == [] {
      assert [] + [d] == [d];
      assert [d][1..] == [];
    } else {
      assert (ds + [d])[1..] == ds[1..] + [d];
      FlattenSnoc(ds[1..], d, n);
      Associative(Bits(ds[0], n), Flatten(ds[1..], n), Bits(d, n));
    }
  }

  predicate Fit(ds: seq<nat>, n: nat) {
    forall k :: 0 <= k < |ds| ==> ds[k] < Pow2(n)
  }

  /** The full groups of n bits, as numbers; a shorter rest is left out. */
  function Groups(bits: seq<bool>, n: nat): (ds: seq<nat>)
    requires n > 0
  {
    if |bits| < n then [] else [Value(bits[..n])] + Groups(bits[n..], n)
  }

  predicate Whole(len: nat, n: nat)
    requires n > 0
  {
    len == 0 || (len >= n && Whole(len - n, n))
  }

  /** Bits missing to a whole number of groups. */
  function Missing(len: nat, n: nat): (m: nat)
    requires n > 0
    ensures m < n && Whole(len + m, n)
  {
    if len == 0 then 0 else if len < n then n - len else Missing(len - n, n)
  }

  /** A bit string of whole groups is its groups put together again. */
  lemma {:induction false} FlattenGroups(bits: seq<bool>, n: nat)
    requires n > 0 && Whole(|bits|, n)
    ensures Fit(Groups(bits, n), n) && Flatten(Groups(bits, n), n) == bits
    decreases |bits|
  {
    if bits != [] {
      FlattenGroups(bits[n..], n);
      ValueBits(bits[..n]);
      FitCons(Value(bits[..n]), Groups(bits[n..], n), n);
      assert bits == bits[..n] + bits[n..];
    }
  }

  lemma FitCons(d: nat, ds: seq<nat>, n: nat)
    requires d < Pow2(n) && Fit(ds, n)
    ensures Fit([d] + ds, n) && Flatten([d] + ds, n) == Bits(d, n) + Flatten(ds, n)
  {
    assert ([d] + ds)[1..] == ds;
  }

  /** Cutting gives back the numbers that were put together, whatever short rest follows. */
  lemma {:induction false} GroupsFlatten(ds: seq<nat>, n: nat, rest: seq<bool>)
    requires n > 0 && Fit(ds, n) && |rest| < n
    ensures Groups(Flatten(ds, n) + rest, n) == ds
  {
    if ds == [] {
      assert Flatten(ds, n) + rest == rest;
    } else {
      GroupsFlatten(ds[1..], n, rest);
      var bits := Flatten(ds, n) + rest;
      Associative(Bits(ds[0], n), Flatten(ds[1..], n), rest);
      assert bits[..n] == Bits(ds[0], n) && bits[n..] == Flatten(ds[1..], n) + rest;
      BitsValue(ds[0], n);
    }
  }

  // ---------- Regrouping ----------

  /** The bytes cut into groups of g bits, the last one filled up with zeros. */
  function Regrouped(data: seq<nat>, g: nat): (ds: seq<nat>)
    requires g > 0
  {
    Groups(Flatten(data, 8) + Zeros(Missing(|Flatten(data, 8)|, g)), g)
  }

  /** The groups of g bits cut into bytes, a last partial one left out. */
  function Joined(ds: seq<nat>, g: nat): (data: seq<nat>) {
    Groups(Flatten(ds, g), 8)
  }

  lemma RegroupedFlat(data: seq<nat>, g: nat)
    requires g > 0
    ensures Fit(Regrouped(data, g), g)
    ensures Flatten(Regrouped(data, g), g) == Flatten(data, 8) + Zeros(Missing(|Flatten(data, 8)|, g))
  {
    FlattenGroups(Flatten(data, 8) + Zeros(Missing(|Flatten(data, 8)|, g)), g);
  }

  /** Regrouping to at most eight bits and joining gives back the bytes. */
  lemma JoinRegrouped(data: seq<nat>, g: nat)
    requires 0 < g <= 8 && Fit(data, 8)
    ensures Joined(Regrouped(data, g), g) == data
  {
    RegroupedFlat(data, g);
    GroupsFlatten(data, 8, Zeros(Missing(|Flatten(data, 8)|, g)));
  }

  /** Groups that hold the bytes' bits and fewer than g zeros more are the regrouping. */
  lemma RegroupedUnique(ds: seq<nat>, data: seq<nat>, g: nat, z: nat)
    requires 0 < g && z < g && Fit(ds, g) && Flatten(ds, g) == Flatten(data, 8) + Zeros(z)
    ensures Regrouped(data, g) == ds
  {
    FlattenWhole(ds, g);
    MissingUnique(|Flatten(data, 8)|, g, z);
    GroupsFlatten(ds, g, []);
    assert Flatten(ds, g) + [] == Flatten(ds, g);
  }

  lemma {:induction false} FlattenWhole(ds: seq<nat>, g: nat)
    requires g > 0
    ensures Whole(|Flatten(ds, g)|, g)
  {
    if ds != [] {
      FlattenWhole(ds[1..], g);
    }
  }

  lemma {:induction false} MissingUnique(len: nat, g: nat, z: nat)
    requires 0 < g && z < g && Whole(len + z, g)
    ensures z == Missing(len, g)
  {
    if len >= g {
      MissingUnique(len - g, g, z);
    }
  }
}
