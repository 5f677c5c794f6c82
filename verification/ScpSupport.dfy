/** From the quorums a node sees to backing by good nodes. */
module ScpSupport {
  import opened ScpQuorum
  import opened ScpStatement
  import opened ScpWorld
  import opened ScpClaims

  /** What the quorum that made a node externalize has said. */
  ghost predicate SettledBy(sys: Good, log: seq<Event>, w: Node, k: Ballot, u: set<Node>) {
    w in sys.good && BackedBy(sys, log, Settles(k), u) && Slice(sys.q[w], u)
  }

  ghost predicate Settled(sys: Good, log: seq<Event>, w: Node, k: Ballot) {
    exists u: set<Node> :: SettledBy(sys, log, w, k, u)
  }

  ghost predicate AllSettled(sys: Good, log: seq<Event>) {
    forall i: nat :: i < |log| && log[i].st.Externalize? ==> Settled(sys, log, log[i].node, log[i].st.commit)
  }

  /** What an externalizing node says, the nodes that made it externalize have said too. */
  ghost predicate Inherited(c: Claim) {
    forall e: Statement, st: Statement ::
      e.Externalize? && Says(e, c) && WellFormed(st) && Says(st, Settles(e.commit)) ==> Says(st, c)
  }

  lemma InheritedClaims(k: Ballot)
    ensures Inherited(VotesAbort(k)) && Inherited(VotesPrepared(k)) && Inherited(Settles(k))
  {
  }

  lemma SaidInLog(log: seq<Event>, n: Node, st: Statement, c: Claim)
    requires Event(n, st) in log && Says(st, c)
    ensures Said(log, n, c)
  {
    var i: nat :| i < |log| && log[i] == Event(n, st);
    assert log[i].node == n && Says(log[i].st, c);
  }

  lemma SettledSays(sys: Good, log: seq<Event>, w: Node, st: Statement, c: Claim) returns (u: set<Node>)
    requires AllSettled(sys, log) && AllWellFormed(log) && Event(w, st) in log && st.Externalize?
    requires Inherited(c) && Says(st, c)
    ensures w in sys.good && BackedBy(sys, log, c, u) && Slice(sys.q[w], u)
  {
    var i: nat :| i < |log| && log[i] == Event(w, st);
    assert log[i].st.Externalize?;
    u :| SettledBy(sys, log, w, st.commit, u);
    forall n | n in u && n in sys.good ensures Said(log, n, c) {
      var j: nat :| j < |log| && log[j].node == n && Says(log[j].st, Settles(st.commit));
      assert Says(log[j].st, c);
    }
  }

  /** The good nodes of a quorum one sees, and what they say. */
  ghost predicate Seen(sys: Good, log: seq<Event>, v: View, u: set<Node>, c: Claim) {
    Honest(sys, log, v) && Closed(u, v.qf) && u <= v.st.Keys &&
    forall n :: n in u && n in sys.good ==> Says(v.st[n], c)
  }

  ghost function Externalized(sys: Good, v: View, u: set<Node>): (x: set<Node>)
    requires u <= v.st.Keys
  {
    set n | n in u && n in sys.good && v.st[n].Externalize?
  }

  /** All good nodes have said c, and all but those still left over have a slice. */
  ghost predicate Almost(sys: Good, log: seq<Event>, c: Claim, u: set<Node>, left: set<Node>) {
    (forall n :: n in u && n in sys.good ==> Said(log, n, c)) &&
    forall n :: n in u && n in sys.good && n !in left ==> Slice(sys.q[n], u)
  }

  lemma AlmostSeen(sys: Good, log: seq<Event>, v: View, u: set<Node>, c: Claim)
    requires Seen(sys, log, v, u, c)
    ensures Almost(sys, log, c, u, Externalized(sys, v, u))
  {
    forall n | n in u && n in sys.good ensures Said(log, n, c) {
      SaidInLog(log, n, v.st[n], c);
    }
  }

  lemma AlmostJoin(sys: Good, log: seq<Event>, c: Claim, u: set<Node>, left: set<Node>, w: Node, x: set<Node>)
    requires Almost(sys, log, c, u, left) && BackedBy(sys, log, c, x) && w in sys.good && Slice(sys.q[w], x)
    ensures Almost(sys, log, c, u + x, left - {w})
  {
    forall n | n in u + x && n in sys.good && n !in left - {w} ensures Slice(sys.q[n], u + x) {
      SliceGrows(sys.q[n], u, u + x);
      SliceGrows(sys.q[n], x, u + x);
    }
  }

  lemma {:induction false} CloseOver(sys: Good, log: seq<Event>, v: View, u: set<Node>, c: Claim,
                                     left: set<Node>, now: set<Node>) returns (all: set<Node>)
    requires AllSettled(sys, log) && AllWellFormed(log) && Inherited(c) && Seen(sys, log, v, u, c)
    requires left <= Externalized(sys, v, u) && u <= now && Almost(sys, log, c, now, left)
    ensures u <= all && Almost(sys, log, c, all, {})
    decreases |left|
  {
    if left == {} {
      all := now;
    } else {
      var w :| w in left;
      var x := SettledSays(sys, log, w, v.st[w], c);
      AlmostJoin(sys, log, c, now, left, w, x);
      all := CloseOver(sys, log, v, u, c, left - {w}, now + x);
    }
  }

  /** A quorum that a good node sees saying c gives a backing of c, with a slice of that node. */
  lemma SeenBacked(sys: Good, log: seq<Event>, w: Node, v: View, u: set<Node>, c: Claim) returns (all: set<Node>)
    requires AllSettled(sys, log) && AllWellFormed(log) && Inherited(c) && Seen(sys, log, v, u, c)
    requires w in sys.good && Slice(sys.q[w], u)
    ensures BackedBy(sys, log, c, all) && Slice(sys.q[w], all)
  {
    AlmostSeen(sys, log, v, u, c);
    all := CloseOver(sys, log, v, u, c, Externalized(sys, v, u), u);
    SliceGrows(sys.q[w], u, all);
  }

  // ---------- What the conditions for acting give ----------

  lemma HeardAnyone(sys: Good, log: seq<Event>, v: View, n: Node, c: Claim)
    requires Honest(sys, log, v) && n in v.st && n in sys.good && Says(v.st[n], c)
    ensures Anyone(log, c)
  {
    var i: nat :| i < |log| && log[i] == Event(n, v.st[n]);
    assert Says(log[i].st, c);
  }

  /** What is ratified has been said by some good node. */
  lemma RatifiedAnyone(sys: Good, log: seq<Event>, w: Node, v: View, c: Claim)
    requires Intact(sys) && Honest(sys, log, v) && w in sys.good && Ratified(sys, w, v, c)
    ensures Anyone(log, c)
  {
    var u: set<Node> :| u <= Saying(v, c) && Closed(u, v.qf) && Slice(sys.q[w], u);
    if exists n :: n in u && n in sys.good {
      var n :| n in u && n in sys.good;
      HeardAnyone(sys, log, v, n, c);
    } else {
      assert Enough(sys, u);
      var n := Meet(sys, u, u);
    }
  }

  ghost predicate SeenFor(sys: Good, log: seq<Event>, w: Node, v: View, c: Claim)
    requires w in sys.good
  {
    exists u: set<Node> :: Seen(sys, log, v, u, c) && Slice(sys.q[w], u)
  }

  lemma RatifiedSeen(sys: Good, log: seq<Event>, w: Node, v: View, c: Claim)
    requires Honest(sys, log, v) && w in sys.good && Ratified(sys, w, v, c)
    ensures SeenFor(sys, log, w, v, c)
  {
    var u: set<Node> :| u <= Saying(v, c) && Closed(u, v.qf) && Slice(sys.q[w], u);
    assert Seen(sys, log, v, u, c);
  }

  lemma BlockingAnyone(sys: Good, log: seq<Event>, w: Node, v: View, c: Claim)
    requires Intact(sys) && Honest(sys, log, v) && w in sys.good && Blocking(sys.q[w], Saying(v, c))
    ensures Anyone(log, c)
  {
    if Saying(v, c) !! sys.good {
      BlockingApart(sys.q[w], Saying(v, c), sys.good);
    } else {
      var n :| n in Saying(v, c) && n in sys.good;
      HeardAnyone(sys, log, v, n, c);
    }
  }

  /** To accept is to follow a good node that has accepted, or a quorum whose good nodes have all voted. */
  lemma AcceptedCases(sys: Good, log: seq<Event>, w: Node, v: View, voted: Claim, accepted: Claim)
    requires Intact(sys) && Honest(sys, log, v) && w in sys.good && Accepted(sys, w, v, voted, accepted)
    ensures Anyone(log, accepted) || SeenFor(sys, log, w, v, voted)
  {
    if Blocking(sys.q[w], Saying(v, accepted)) {
      BlockingAnyone(sys, log, w, v, accepted);
    } else {
      var u: set<Node> :| u <= Saying(v, accepted) + Saying(v, voted) && Closed(u, v.qf) && Slice(sys.q[w], u);
      if exists n :: n in u && n in sys.good && n in Saying(v, accepted) {
        var n :| n in u && n in sys.good && n in Saying(v, accepted);
        HeardAnyone(sys, log, v, n, accepted);
      } else {
        assert Seen(sys, log, v, u, voted);
      }
    }
  }

  lemma SeenEntails(sys: Good, log: seq<Event>, v: View, u: set<Node>, d: Claim, c: Claim)
    requires Seen(sys, log, v, u, d) && AllWellFormed(log) && Entails(d, c)
    ensures Seen(sys, log, v, u, c)
  {
    forall n | n in u && n in sys.good ensures Says(v.st[n], c) {
      var i: nat :| i < |log| && log[i] == Event(n, v.st[n]);
      assert WellFormed(log[i].st);
    }
  }

  lemma SeenForBacked(sys: Good, log: seq<Event>, w: Node, v: View, d: Claim, c: Claim)
    requires AllSettled(sys, log) && AllWellFormed(log) && w in sys.good && SeenFor(sys, log, w, v, d)
    requires Inherited(c) && Entails(d, c)
    ensures Backed(sys, log, c) && exists u: set<Node> :: BackedBy(sys, log, c, u) && Slice(sys.q[w], u)
  {
    var u: set<Node> :| Seen(sys, log, v, u, d) && Slice(sys.q[w], u);
    SeenEntails(sys, log, v, u, d, c);
    var all := SeenBacked(sys, log, w, v, u, c);
  }
}
