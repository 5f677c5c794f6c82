/** What has been claimed so far, by whom, and with what backing. */
module ScpClaims {
  import opened ScpQuorum
  import opened ScpStatement
  import opened ScpWorld

  ghost predicate Said(log: seq<Event>, w: Node, c: Claim) {
    exists i: nat :: i < |log| && log[i].node == w && Says(log[i].st, c)
  }

  ghost predicate Anyone(log: seq<Event>, c: Claim) {
    exists i: nat :: i < |log| && Says(log[i].st, c)
  }

  /** Every good node of some sufficient set has said it. */
  ghost predicate BackedBy(sys: Good, log: seq<Event>, c: Claim, u: set<Node>) {
    Enough(sys, u) && forall w :: w in u && w in sys.good ==> Said(log, w, c)
  }

  ghost predicate Backed(sys: Good, log: seq<Event>, c: Claim) {
    exists u: set<Node> :: BackedBy(sys, log, c, u)
  }

  /** The node voted to abort k before anyone accepted that. */
  ghost predicate Pure(log: seq<Event>, w: Node, k: Ballot) {
    exists i: nat ::
      i < |log| && log[i].node == w && Says(log[i].st, VotesAbort(k)) && !Anyone(log[..i], AcceptsAbort(k))
  }

  ghost predicate PurelyBackedBy(sys: Good, log: seq<Event>, k: Ballot, u: set<Node>) {
    Enough(sys, u) && forall w :: w in u && w in sys.good ==> Pure(log, w, k)
  }

  ghost predicate PurelyBacked(sys: Good, log: seq<Event>, k: Ballot) {
    exists u: set<Node> :: PurelyBackedBy(sys, log, k, u)
  }

  ghost predicate AllWellFormed(log: seq<Event>) {
    forall i: nat :: i < |log| ==> WellFormed(log[i].st)
  }

  // ---------- What follows from what ----------

  lemma SaidEntails(log: seq<Event>, w: Node, d: Claim, c: Claim)
    requires AllWellFormed(log) && Entails(d, c) && Said(log, w, d)
    ensures Said(log, w, c)
  {
    var i: nat :| i < |log| && log[i].node == w && Says(log[i].st, d);
    assert Says(log[i].st, c);
  }

  lemma AnyoneEntails(log: seq<Event>, d: Claim, c: Claim)
    requires AllWellFormed(log) && Entails(d, c) && Anyone(log, d)
    ensures Anyone(log, c)
  {
    var i: nat :| i < |log| && Says(log[i].st, d);
    assert Says(log[i].st, c);
  }

  lemma BackedEntails(sys: Good, log: seq<Event>, d: Claim, c: Claim)
    requires AllWellFormed(log) && Entails(d, c) && Backed(sys, log, d)
    ensures Backed(sys, log, c)
  {
    var u: set<Node> :| BackedBy(sys, log, d, u);
    forall w | w in u && w in sys.good ensures Said(log, w, c) {
      SaidEntails(log, w, d, c);
    }
    assert BackedBy(sys, log, c, u);
  }

  // ---------- One statement more ----------

  lemma SaidMore(log: seq<Event>, e: Event, w: Node, c: Claim)
    ensures Said(log + [e], w, c) <==> Said(log, w, c) || (e.node == w && Says(e.st, c))
  {
    var more := log + [e];
    if Said(log, w, c) {
      var i: nat :| i < |log| && log[i].node == w && Says(log[i].st, c);
      assert more[i] == log[i];
    }
    if e.node == w && Says(e.st, c) {
      assert more[|log|] == e;
    }
    if Said(more, w, c) {
      var i: nat :| i < |more| && more[i].node == w && Says(more[i].st, c);
      if i < |log| {
        assert log[i] == more[i];
      }
    }
  }

  lemma AnyoneMore(log: seq<Event>, e: Event, c: Claim)
    ensures Anyone(log + [e], c) <==> Anyone(log, c) || Says(e.st, c)
  {
    var more := log + [e];
    if Anyone(log, c) {
      var i: nat :| i < |log| && Says(log[i].st, c);
      assert more[i] == log[i];
    }
    if Says(e.st, c) {
      assert more[|log|] == e;
    }
    if Anyone(more, c) {
      var i: nat :| i < |more| && Says(more[i].st, c);
      if i < |log| {
        assert log[i] == more[i];
      }
    }
  }

  lemma BackedMore(sys: Good, log: seq<Event>, e: Event, c: Claim)
    requires Backed(sys, log, c)
    ensures Backed(sys, log + [e], c)
  {
    var u: set<Node> :| BackedBy(sys, log, c, u);
    forall w | w in u && w in sys.good ensures Said(log + [e], w, c) {
      SaidMore(log, e, w, c);
    }
    assert BackedBy(sys, log + [e], c, u);
  }

  lemma PureMore(log: seq<Event>, e: Event, w: Node, k: Ballot)
    ensures Pure(log + [e], w, k) <==>
            Pure(log, w, k) || (e.node == w && Says(e.st, VotesAbort(k)) && !Anyone(log, AcceptsAbort(k)))
  {
    var more := log + [e];
    forall i: nat | i <= |log| ensures more[..i] == log[..i] {
    }
    assert log[..|log|] == log;
    if Pure(log, w, k) {
      var i: nat :| i < |log| && log[i].node == w && Says(log[i].st, VotesAbort(k)) &&
        !Anyone(log[..i], AcceptsAbort(k));
      assert more[i] == log[i] && more[..i] == log[..i];
    }
    if e.node == w && Says(e.st, VotesAbort(k)) && !Anyone(log, AcceptsAbort(k)) {
      assert more[|log|] == e && more[..|log|] == log;
    }
    if Pure(more, w, k) {
      var i: nat :| i < |more| && more[i].node == w && Says(more[i].st, VotesAbort(k)) &&
        !Anyone(more[..i], AcceptsAbort(k));
      if i < |log| {
        assert log[i] == more[i] && more[..i] == log[..i];
      }
    }
  }

  lemma PurelyBackedMore(sys: Good, log: seq<Event>, e: Event, k: Ballot)
    requires PurelyBacked(sys, log, k)
    ensures PurelyBacked(sys, log + [e], k)
  {
    var u: set<Node> :| PurelyBackedBy(sys, log, k, u);
    forall w | w in u && w in sys.good ensures Pure(log + [e], w, k) {
      PureMore(log, e, w, k);
    }
    assert PurelyBackedBy(sys, log + [e], k, u);
  }

  lemma AnyoneBefore(log: seq<Event>, i: nat, c: Claim)
    requires i <= |log| && Anyone(log[..i], c)
    ensures Anyone(log, c)
  {
    var j: nat :| j < i && Says(log[..i][j].st, c);
    assert log[j] == log[..i][j];
  }

  /** As long as no one has accepted it, every vote is pure. */
  lemma PureNow(log: seq<Event>, w: Node, k: Ballot)
    requires Said(log, w, VotesAbort(k))
    ensures Pure(log, w, k) || Anyone(log, AcceptsAbort(k))
  {
    var i: nat :| i < |log| && log[i].node == w && Says(log[i].st, VotesAbort(k));
    if Anyone(log[..i], AcceptsAbort(k)) {
      AnyoneBefore(log, i, AcceptsAbort(k));
    }
  }

  lemma PurelyBackedNow(sys: Good, log: seq<Event>, k: Ballot)
    requires Backed(sys, log, VotesAbort(k)) && !Anyone(log, AcceptsAbort(k))
    ensures PurelyBacked(sys, log, k)
  {
    var u: set<Node> :| BackedBy(sys, log, VotesAbort(k), u);
    forall w | w in u && w in sys.good ensures Pure(log, w, k) {
      PureNow(log, w, k);
    }
    assert PurelyBackedBy(sys, log, k, u);
  }

  // ---------- Quorums ----------

  lemma Meet(sys: Good, u: set<Node>, v: set<Node>) returns (w: Node)
    requires Intact(sys) && Enough(sys, u) && Enough(sys, v)
    ensures w in u && w in v && w in sys.good
  {
    w :| w in u && w in v && w in sys.good;
  }

  /** Some good node has said what is backed. */
  lemma BackedSaid(sys: Good, log: seq<Event>, c: Claim)
    requires Intact(sys) && Backed(sys, log, c)
    ensures Anyone(log, c)
  {
    var u: set<Node> :| BackedBy(sys, log, c, u);
    var w := Meet(sys, u, u);
    assert Said(log, w, c);
    var i: nat :| i < |log| && log[i].node == w && Says(log[i].st, c);
    assert Says(log[i].st, c);
  }
}
