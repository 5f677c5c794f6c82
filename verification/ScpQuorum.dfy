/** Quorum sets: slices, blocking sets and quorums. */
module ScpQuorum {

  type Node = nat

  /** threshold of the validators and inner sets have to agree. */
  datatype QSet = QSet(threshold: UInt32, validators: seq<Node>, inner: seq<QSet>)

  const UINT32: nat := 0x1_0000_0000

  type UInt32 = n: nat | n < UINT32

  /** How many members it takes to count the threshold down to zero, which wraps around if it starts there. */
  function Needed(threshold: UInt32): (n: nat) {
    if threshold == 0 then UINT32 else threshold
  }

  // ---------- What they mean ----------

  /** How many of the validators are in s. */
  function Hits(vs: seq<Node>, s: set<Node>): (n: nat)
    ensures n <= |vs|
  {
    if vs == [] then 0 else Hits(vs[..|vs| - 1], s) + if vs[|vs| - 1] in s then 1 else 0
  }

  /** How many of the inner sets have a slice in s. */
  function Slices(qs: seq<QSet>, s: set<Node>): (n: nat)
    ensures n <= |qs|
    decreases qs
  {
    if qs == [] then 0 else Slices(qs[..|qs| - 1], s) + if Slice(qs[|qs| - 1], s) then 1 else 0
  }

  /** s contains a slice. */
  predicate Slice(q: QSet, s: set<Node>)
    decreases q
  {
    Needed(q.threshold) <= Hits(q.validators, s) + Slices(q.inner, s)
  }

  /** How many of the inner sets are blocked by s. */
  function Blocked(qs: seq<QSet>, s: set<Node>): (n: nat)
    ensures n <= |qs|
    decreases qs
  {
    if qs == [] then 0 else Blocked(qs[..|qs| - 1], s) + if Blocking(qs[|qs| - 1], s) then 1 else 0
  }

  /** s has so many of the members that the others are fewer than the threshold. */
  predicate Blocking(q: QSet, s: set<Node>)
    decreases q
  {
    var hits := Hits(q.validators, s) + Blocked(q.inner, s);
    q.threshold > 0 && hits > 0 && |q.validators| + |q.inner| < q.threshold + hits
  }

  // ---------- Slices and blocking sets ----------

  lemma {:induction false} HitsGrow(vs: seq<Node>, s: set<Node>, t: set<Node>)
    requires s <= t
    ensures Hits(vs, s) <= Hits(vs, t)
  {
    if vs != [] {
      HitsGrow(vs[..|vs| - 1], s, t);
    }
  }

  lemma {:induction false} SlicesGrow(qs: seq<QSet>, s: set<Node>, t: set<Node>)
    requires s <= t
    ensures Slices(qs, s) <= Slices(qs, t)
    decreases qs
  {
    if qs != [] {
      SlicesGrow(qs[..|qs| - 1], s, t);
      SliceGrows(qs[|qs| - 1], s, t);
    }
  }

  /** A larger set contains every slice that a smaller one does. */
  lemma {:induction false} SliceGrows(q: QSet, s: set<Node>, t: set<Node>)
    requires s <= t
    ensures Slice(q, s) ==> Slice(q, t)
    decreases q
  {
    HitsGrow(q.validators, s, t);
    SlicesGrow(q.inner, s, t);
  }

  lemma {:induction false} HitsApart(vs: seq<Node>, s: set<Node>, t: set<Node>)
    requires s !! t
    ensures Hits(vs, s) + Hits(vs, t) <= |vs|
  {
    if vs != [] {
      HitsApart(vs[..|vs| - 1], s, t);
    }
  }

  lemma {:induction false} BlockedApart(qs: seq<QSet>, s: set<Node>, t: set<Node>)
    requires s !! t
    ensures Blocked(qs, s) + Slices(qs, t) <= |qs|
    decreases qs
  {
    if qs != [] {
      BlockedApart(qs[..|qs| - 1], s, t);
      BlockingApart(qs[|qs| - 1], s, t);
    }
  }

  /** A blocking set meets every slice. */
  lemma {:induction false} BlockingApart(q: QSet, s: set<Node>, t: set<Node>)
    requires s !! t
    ensures !(Blocking(q, s) && Slice(q, t))
    decreases q
  {
    HitsApart(q.validators, s, t);
    BlockedApart(q.inner, s, t);
  }

  /** Every threshold is at least one and at most the number of members. */
  predicate Sane(q: QSet) {
    0 < q.threshold <= |q.validators| + |q.inner| && forall i :: 0 <= i < |q.inner| ==> Sane(q.inner[i])
  }

  lemma {:induction false} HitsTogether(vs: seq<Node>, s: set<Node>, t: set<Node>)
    requires forall n :: n in vs ==> n in s || n in t
    ensures Hits(vs, s) + Hits(vs, t) >= |vs|
  {
    if vs != [] {
      HitsTogether(vs[..|vs| - 1], s, t);
      assert vs[|vs| - 1] in vs;
    }
  }

  ghost function Nodes(q: QSet): (ns: set<Node>)
    decreases q
  {
    (set i: nat | i < |q.validators| :: q.validators[i]) + InnerNodes(q.inner)
  }

  ghost function InnerNodes(qs: seq<QSet>): (ns: set<Node>)
    decreases qs
  {
    if qs == [] then {} else InnerNodes(qs[..|qs| - 1]) + Nodes(qs[|qs| - 1])
  }

  lemma {:induction false} BlockedTogether(qs: seq<QSet>, s: set<Node>, t: set<Node>)
    requires InnerNodes(qs) <= s + t && forall i :: 0 <= i < |qs| ==> Sane(qs[i])
    ensures Blocked(qs, s) + Slices(qs, t) >= |qs|
    decreases qs
  {
    if qs != [] {
      BlockedTogether(qs[..|qs| - 1], s, t);
      BlockingTogether(qs[|qs| - 1], s, t);
    }
  }

  /** With all nodes of a sane quorum set in s or t, s blocks it or t contains a slice of it. */
  lemma {:induction false} BlockingTogether(q: QSet, s: set<Node>, t: set<Node>)
    requires Sane(q) && Nodes(q) <= s + t
    ensures Blocking(q, s) || Slice(q, t)
    decreases q
  {
    var vs := q.validators;
    forall n | n in vs ensures n in s || n in t {
      var i :| 0 <= i < |vs| && vs[i] == n;
      assert vs[i] in Nodes(q);
    }
    HitsTogether(vs, s, t);
    BlockedTogether(q.inner, s, t);
  }

  /** For a sane quorum set, a set of nodes is blocking exactly when the other nodes contain no slice. */
  lemma BlockingDual(q: QSet, s: set<Node>)
    requires Sane(q)
    ensures Blocking(q, s) <==> !Slice(q, Nodes(q) - s)
  {
    BlockingApart(q, s, Nodes(q) - s);
    BlockingTogether(q, s, Nodes(q) - s);
  }

  // ---------- Inner sets ----------

  lemma SingletonIs(n: Node, s: set<Node>)
    ensures (Slice(QSet(1, [n], []), s) <==> n in s) && (Blocking(QSet(1, [n], []), s) <==> n in s)
  {
    assert [n][..0] == [];
  }

  /** An inner set of one validator counts as that validator does, for slices and for blocking sets. */
  lemma InnerSingleton(t: UInt32, vs: seq<Node>, inner: seq<QSet>, n: Node, s: set<Node>)
    ensures Slice(QSet(t, vs, inner + [QSet(1, [n], [])]), s) <==> Slice(QSet(t, vs + [n], inner), s)
    ensures Blocking(QSet(t, vs, inner + [QSet(1, [n], [])]), s) <==> Blocking(QSet(t, vs + [n], inner), s)
  {
    SingletonIs(n, s);
    assert (inner + [QSet(1, [n], [])])[..|inner|] == inner;
    assert (vs + [n])[..|vs|] == vs;
  }

  /** A quorum set that asks for all of its one inner set is that inner set. */
  lemma InnerAlone(q: QSet, s: set<Node>)
    ensures Slice(QSet(1, [], [q]), s) <==> Slice(q, s)
    ensures Blocking(QSet(1, [], [q]), s) <==> Blocking(q, s)
  {
    assert [q][..0] == [];
  }

  // ---------- As they are computed ----------

  /** One less, in 32 bits. */
  function Decrement(n: UInt32): (r: UInt32) {
    if n == 0 then UINT32 - 1 else n - 1
  }

  /** What is left of the threshold after n hits; zero is reached only by as many as are needed. */
  function LeftAfter(threshold: UInt32, n: nat): (left: UInt32)
    requires n <= Needed(threshold)
  {
    if n <= threshold then threshold - n else UINT32 - n
  }

  /** The loop over the validators; done says that the threshold is reached. */
  method SliceValidators(vs: seq<Node>, nodeSet: set<Node>, threshold: UInt32)
    returns (done: bool, thresholdLeft: UInt32)
    ensures done ==> Needed(threshold) <= Hits(vs, nodeSet)
    ensures !done ==> Hits(vs, nodeSet) < Needed(threshold) && thresholdLeft == LeftAfter(threshold, Hits(vs, nodeSet))
  {
    thresholdLeft := threshold;
    for i := 0 to |vs|
      invariant Hits(vs[..i], nodeSet) < Needed(threshold)
      invariant thresholdLeft == LeftAfter(threshold, Hits(vs[..i], nodeSet))
    {
      assert vs[..i + 1][..i] == vs[..i];
      if vs[i] in nodeSet {
        thresholdLeft := Decrement(thresholdLeft);
        if thresholdLeft <= 0 {
          HitsPrefix(vs, i + 1, nodeSet);
          return true, 0;
        }
      }
    }
    assert vs[..|vs|] == vs;
    return false, thresholdLeft;
  }

  /** The loop over the inner sets. */
  method SliceInner(inner: seq<QSet>, nodeSet: set<Node>, threshold: UInt32, left: UInt32, ghost hits: nat)
    returns (done: bool)
    requires hits < Needed(threshold) && left == LeftAfter(threshold, hits)
    ensures done <==> Needed(threshold) <= hits + Slices(inner, nodeSet)
    decreases inner
  {
    var thresholdLeft := left;
    for i := 0 to |inner|
      invariant hits + Slices(inner[..i], nodeSet) < Needed(threshold)
      invariant thresholdLeft == LeftAfter(threshold, hits + Slices(inner[..i], nodeSet))
    {
      assert inner[..i + 1][..i] == inner[..i];
      var slice := IsQuorumSlice(inner[i], nodeSet);
      if slice {
        thresholdLeft := Decrement(thresholdLeft);
        if thresholdLeft <= 0 {
          SlicesPrefix(inner, i + 1, nodeSet);
          return true;
        }
      }
    }
    assert inner[..|inner|] == inner;
    return false;
  }

  method IsQuorumSlice(q: QSet, nodeSet: set<Node>) returns (r: bool)
    ensures r == Slice(q, nodeSet)
    decreases q
  {
    var left;
    r, left := SliceValidators(q.validators, nodeSet, q.threshold);
    if !r {
      r := SliceInner(q.inner, nodeSet, q.threshold, left, Hits(q.validators, nodeSet));
    }
  }

  lemma {:induction false} HitsPrefix(vs: seq<Node>, n: nat, s: set<Node>)
    requires n <= |vs|
    ensures Hits(vs[..n], s) <= Hits(vs, s)
    decreases |vs| - n
  {
    if n == |vs| {
      assert vs[..n] == vs;
    } else {
      assert vs[..n + 1][..n] == vs[..n];
      HitsPrefix(vs, n + 1, s);
    }
  }

  lemma {:induction false} SlicesPrefix(qs: seq<QSet>, n: nat, s: set<Node>)
    requires n <= |qs|
    ensures Slices(qs[..n], s) <= Slices(qs, s)
    decreases |qs| - n
  {
    if n == |qs| {
      assert qs[..n] == qs;
    } else {
      assert qs[..n + 1][..n] == qs[..n];
      SlicesPrefix(qs, n + 1, s);
    }
  }

  lemma {:induction false} BlockedPrefix(qs: seq<QSet>, n: nat, s: set<Node>)
    requires n <= |qs|
    ensures Blocked(qs[..n], s) <= Blocked(qs, s)
    decreases |qs| - n
  {
    if n == |qs| {
      assert qs[..n] == qs;
    } else {
      assert qs[..n + 1][..n] == qs[..n];
      BlockedPrefix(qs, n + 1, s);
    }
  }

  method BlockValidators(vs: seq<Node>, nodeSet: set<Node>, total: int) returns (done: bool, leftTillBlock: int)
    ensures done ==> total <= Hits(vs, nodeSet) && Hits(vs, nodeSet) > 0
    ensures !done ==> leftTillBlock == total - Hits(vs, nodeSet) && (Hits(vs, nodeSet) == 0 || leftTillBlock > 0)
  {
    leftTillBlock := total;
    for i := 0 to |vs|
      invariant leftTillBlock == total - Hits(vs[..i], nodeSet) && (Hits(vs[..i], nodeSet) == 0 || leftTillBlock > 0)
    {
      assert vs[..i + 1][..i] == vs[..i];
      if vs[i] in nodeSet {
        leftTillBlock := leftTillBlock - 1;
        if leftTillBlock <= 0 {
          HitsPrefix(vs, i + 1, nodeSet);
          return true, 0;
        }
      }
    }
    assert vs[..|vs|] == vs;
    return false, leftTillBlock;
  }

  method BlockInner(inner: seq<QSet>, nodeSet: set<Node>, left: int, ghost hits: nat) returns (done: bool)
    requires hits == 0 || left > 0
    ensures done <==> left <= Blocked(inner, nodeSet) && hits + Blocked(inner, nodeSet) > 0
    decreases inner
  {
    var leftTillBlock := left;
    for i := 0 to |inner|
      invariant leftTillBlock == left - Blocked(inner[..i], nodeSet)
      invariant hits + Blocked(inner[..i], nodeSet) == 0 || leftTillBlock > 0
    {
      assert inner[..i + 1][..i] == inner[..i];
      var blocks := IsVBlocking(inner[i], nodeSet);
      if blocks {
        leftTillBlock := leftTillBlock - 1;
        if leftTillBlock <= 0 {
          BlockedPrefix(inner, i + 1, nodeSet);
          return true;
        }
      }
    }
    assert inner[..|inner|] == inner;
    return false;
  }

  method IsVBlocking(q: QSet, nodeSet: set<Node>) returns (r: bool)
    ensures r == Blocking(q, nodeSet)
    decreases q
  {
    if q.threshold == 0 {
      return false;
    }
    var left: int := 1 + |q.validators| + |q.inner| - q.threshold;
    r, left := BlockValidators(q.validators, nodeSet, left);
    if !r {
      r := BlockInner(q.inner, nodeSet, left, Hits(q.validators, nodeSet));
    }
  }

  // ---------- Quorums ----------

  /** Each member of u has a slice in u. */
  ghost predicate Closed(u: set<Node>, qf: map<Node, QSet>) {
    forall n :: n in u ==> n in qf && Slice(qf[n], u)
  }

  /** Some of the nodes are a quorum that contains a slice of q. */
  ghost predicate HasQuorum(q: QSet, nodes: set<Node>, qf: map<Node, QSet>) {
    exists u: set<Node> :: u <= nodes && Closed(u, qf) && Slice(q, u)
  }

  lemma StaysIn(u: set<Node>, p: set<Node>, f: set<Node>, qf: map<Node, QSet>)
    requires u <= p && Closed(u, qf) && forall n :: n in p && n in qf && Slice(qf[n], p) ==> n in f
    ensures u <= f
  {
    forall n | n in u ensures n in f {
      SliceGrows(qf[n], u, p);
    }
  }

  /** The members whose quorum sets have a slice among the nodes. */
  method Filtered(nodes: set<Node>, qf: map<Node, QSet>) returns (f: set<Node>)
    ensures forall n :: n in f <==> n in nodes && n in qf && Slice(qf[n], nodes)
  {
    f := {};
    var todo := nodes;
    while todo != {}
      invariant todo <= nodes
      invariant forall n :: n in f <==> n in nodes - todo && n in qf && Slice(qf[n], nodes)
      decreases |todo|
    {
      var n :| n in todo;
      todo := todo - {n};
      if n in qf {
        var slice := IsQuorumSlice(qf[n], nodes);
        if slice {
          f := f + {n};
        }
      }
    }
  }

  /** Dropping nodes without a slice until none is left to drop finds a quorum whenever there is one. */
  method IsQuorum(q: QSet, nodes: set<Node>, qf: map<Node, QSet>) returns (r: bool)
    ensures r <==> HasQuorum(q, nodes, qf)
  {
    var pNodes := nodes;
    var fNodes := Filtered(pNodes, qf);
    while |fNodes| != |pNodes|
      invariant fNodes <= pNodes <= nodes
      invariant forall n :: n in fNodes <==> n in pNodes && n in qf && Slice(qf[n], pNodes)
      invariant forall u: set<Node> :: u <= nodes && Closed(u, qf) ==> u <= pNodes
      decreases |pNodes|
    {
      forall u: set<Node> | u <= nodes && Closed(u, qf) ensures u <= fNodes {
        StaysIn(u, pNodes, fNodes, qf);
      }
      Fewer(fNodes, pNodes);
      pNodes := fNodes;
      fNodes := Filtered(pNodes, qf);
    }
    SameSize(fNodes, pNodes);
    assert Closed(pNodes, qf);
    r := IsQuorumSlice(q, pNodes);
    if !r {
      forall u: set<Node> | u <= nodes && Closed(u, qf) ensures !Slice(q, u) {
        SliceGrows(q, u, pNodes);
      }
    }
  }

  lemma Fewer(a: set<Node>, b: set<Node>)
    requires a <= b
    ensures |a| <= |b| && (a != b ==> |a| < |b|)
  {
    assert b == a + (b - a);
  }

  lemma SameSize(a: set<Node>, b: set<Node>)
    requires a <= b && |a| == |b|
    ensures a == b
  {
    Fewer(a, b);
  }

  // ---------- Federated voting ----------

  /** A blocking set accepts, or a quorum votes or accepts. */
  ghost predicate Accepts(q: QSet, accepting: set<Node>, voting: set<Node>, qf: map<Node, QSet>) {
    Blocking(q, accepting) || HasQuorum(q, accepting + voting, qf)
  }

  method FederatedAccept(q: QSet, accepting: set<Node>, voting: set<Node>, qf: map<Node, QSet>) returns (r: bool)
    ensures r <==> Accepts(q, accepting, voting, qf)
  {
    r := IsVBlocking(q, accepting);
    if !r {
      r := IsQuorum(q, accepting + voting, qf);
    }
  }

  method FederatedRatify(q: QSet, voting: set<Node>, qf: map<Node, QSet>) returns (r: bool)
    ensures r <==> HasQuorum(q, voting, qf)
  {
    r := IsQuorum(q, voting, qf);
  }
}
