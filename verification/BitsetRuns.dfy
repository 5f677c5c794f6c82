/** Any run of operations on any number of bitsets keeps each equal to a mathematical set. */
module BitsetRuns {
  import opened WordSets
  import opened Bitset

  /** What a caller can know of a bitset: how many words it has in use, and its set. */
  datatype View = View(size: nat, members: set<nat>)

  datatype Change =
    | Insert(i: nat)
    | Remove(i: nat)
    | Empty
    | MoveUp(s: nat)
    | MoveDown(s: nat)
    | Shrink

  datatype Combination = Union | Intersection | Difference | SymmetricDifference

  datatype Op = One(target: nat, change: Change) | Two(target: nat, how: Combination, operand: nat)

  ghost function Changed(v: View, c: Change): (r: View)
    requires Allowed(v, c)
  {
    match c
    case Insert(i) => View(Max(v.size, i / 64 + 1), v.members + {i})
    case Remove(i) => View(v.size, v.members - {i})
    case Empty => View(v.size, {})
    case MoveUp(s) => View(LeftSize(v.size, s / 64, s % 64), Shifted(v.members, s))
    case MoveDown(s) => View(v.size - s / 64, Dropped(v.members, s))
    case Shrink => View(TrimmedSize(v.members, v.size), v.members)
  }

  /** A shift by part of a word reads a word of the array, so there must be one. */
  predicate Allowed(v: View, c: Change) {
    match c
    case MoveUp(s) => s % 64 == 0 || v.size > 0
    case MoveDown(s) => if s % 64 == 0 then s / 64 <= v.size else s / 64 < v.size
    case _ => true
  }

  function Combined(v: View, how: Combination, u: View): (r: View) {
    match how
    case Union => View(Max(v.size, u.size), v.members + u.members)
    case Intersection => View(v.size, v.members * u.members)
    case Difference => View(v.size, v.members - u.members)
    case SymmetricDifference => View(Max(v.size, u.size), Toggle(v.members, u.members))
  }

  predicate Legal(vs: seq<View>, op: Op) {
    op.target < |vs| &&
    match op
    case One(t, c) => Allowed(vs[t], c)
    case Two(_, _, u) => u < |vs|
  }

  ghost function After(vs: seq<View>, op: Op): (r: seq<View>)
    requires Legal(vs, op)
    ensures |r| == |vs|
  {
    match op
    case One(t, c) => vs[t := Changed(vs[t], c)]
    case Two(t, how, u) => vs[t := Combined(vs[t], how, vs[u])]
  }

  ghost predicate LegalRun(vs: seq<View>, ops: seq<Op>)
    decreases |ops|
  {
    ops == [] || (Legal(vs, ops[0]) && LegalRun(After(vs, ops[0]), ops[1..]))
  }

  /** The sets after a run, by the set operations alone. */
  ghost function AfterRun(vs: seq<View>, ops: seq<Op>): (r: seq<View>)
    requires LegalRun(vs, ops)
    ensures |r| == |vs|
    decreases |ops|
  {
    if ops == [] then vs else AfterRun(After(vs, ops[0]), ops[1..])
  }

  // ---------- The bitsets ----------

  ghost function ViewOf(b: Bitset): (v: View)
    requires b.Valid()
    reads b, b.words
  {
    View(b.arraysize, b.Elements())
  }

  /** The bitsets are different objects with different memory. */
  ghost predicate Separate(pool: seq<Bitset>)
    reads pool
  {
    (forall k :: 0 <= k < |pool| ==> pool[k].Valid()) &&
    forall j, k :: 0 <= j < k < |pool| ==> pool[j] != pool[k] && pool[j].words != pool[k].words
  }

  ghost function Memory(pool: seq<Bitset>): (m: set<object>)
    reads pool
  {
    set k: nat | k < |pool| :: pool[k].words
  }

  ghost function Views(pool: seq<Bitset>): (vs: seq<View>)
    requires Separate(pool)
    reads pool, Memory(pool)
  {
    seq(|pool|, k requires 0 <= k < |pool| && Separate(pool) reads pool, Memory(pool) => ViewOf(pool[k]))
  }

  method Apply(b: Bitset, c: Change)
    requires b.Valid() && Allowed(ViewOf(b), c)
    modifies b, b.words
    ensures b.Valid() && (b.words == old(b.words) || fresh(b.words))
    ensures ViewOf(b) == Changed(old(ViewOf(b)), c)
  {
    match c
    case Insert(i) => b.Set(i);
    case Remove(i) => b.Unset(i);
    case Empty => b.Clear();
    case MoveUp(s) => b.ShiftLeft(s);
    case MoveDown(s) => b.ShiftRight(s);
    case Shrink => b.Trim();
  }

  method Combine(b: Bitset, how: Combination, other: Bitset)
    requires b.Valid() && b.Apart(other)
    modifies b, b.words
    ensures b.Valid() && (b.words == old(b.words) || fresh(b.words))
    ensures ViewOf(b) == Combined(old(ViewOf(b)), how, old(ViewOf(other)))
  {
    match how
    case Union => b.InplaceUnion(other);
    case Intersection => b.InplaceIntersection(other);
    case Difference => b.InplaceDifference(other);
    case SymmetricDifference => b.InplaceSymmetricDifference(other);
  }

  method Step(pool: seq<Bitset>, op: Op)
    requires Separate(pool) && Legal(Views(pool), op)
    modifies pool, Memory(pool)
    ensures Separate(pool) && Views(pool) == After(old(Views(pool)), op)
    ensures forall k :: 0 <= k < |pool| ==> pool[k].words == old(pool[k].words) || fresh(pool[k].words)
  {
    var b := pool[op.target];
    assert b.words in Memory(pool);
    match op {
      case One(_, c) => Apply(b, c);
      case Two(_, how, u) => Combine(b, how, pool[u]);
    }
    assert forall k :: 0 <= k < |pool| && k != op.target ==> ViewOf(pool[k]) == old(ViewOf(pool[k]));
  }

  /** Every run: the bitsets end with the sets that the set operations give. */
  method Run(pool: seq<Bitset>, ops: seq<Op>)
    requires Separate(pool) && LegalRun(Views(pool), ops)
    modifies pool, Memory(pool)
    ensures Separate(pool) && Views(pool) == AfterRun(old(Views(pool)), ops)
  {
    var n := 0;
    assert ops[0..] == ops;
    while n < |ops|
      invariant n <= |ops| && Separate(pool) && LegalRun(Views(pool), ops[n..])
      invariant AfterRun(Views(pool), ops[n..]) == AfterRun(old(Views(pool)), ops)
      invariant forall k :: 0 <= k < |pool| ==> pool[k].words == old(pool[k].words) || fresh(pool[k].words)
    {
      assert ops[n..][0] == ops[n] && ops[n..][1..] == ops[n + 1..];
      Step(pool, ops[n]);
      n := n + 1;
    }
  }
}
