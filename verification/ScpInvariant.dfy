/** What holds of everything said so far, and is kept by every justified statement. */
module ScpInvariant {
  import opened ScpQuorum
  import opened ScpStatement
  import opened ScpWorld
  import opened ScpClaims
  import opened ScpSupport

  /** The commitment to x from n on goes back to a quorum that pledged to commit some (m, x), m <= n. */
  ghost predicate Origin(sys: Good, log: seq<Event>, x: Value, n: nat) {
    exists m: nat :: m <= n && Backed(sys, log, Pledges(Ballot(m, x)))
  }

  ghost predicate AbortsBacked(sys: Good, log: seq<Event>) {
    forall k :: Anyone(log, AcceptsAbort(k)) ==> PurelyBacked(sys, log, k)
  }

  ghost predicate CommitsOriginate(sys: Good, log: seq<Event>) {
    forall x, lo, hi :: lo <= hi && Anyone(log, AcceptsCommit(x, lo, hi)) ==> Origin(sys, log, x, lo)
  }

  ghost predicate CommitsPrepared(sys: Good, log: seq<Event>) {
    forall x, lo, hi :: lo <= hi && Anyone(log, AcceptsCommit(x, lo, hi)) ==>
      Backed(sys, log, VotesPrepared(Ballot(hi, x)))
  }

  ghost predicate PledgesPrepared(log: seq<Event>) {
    forall k :: Anyone(log, Pledges(k)) ==> Anyone(log, HasPrepared(k))
  }

  /** No node has pledged to commit a ballot and purely voted to abort it. */
  ghost predicate Consistent(log: seq<Event>) {
    forall w, k :: !(Said(log, w, Pledges(k)) && Pure(log, w, k))
  }

  ghost predicate LogInv(sys: Good, log: seq<Event>) {
    AllWellFormed(log) && AllSettled(sys, log) && AbortsBacked(sys, log) && CommitsOriginate(sys, log) &&
    CommitsPrepared(sys, log) && PledgesPrepared(log) && Consistent(log)
  }

  // ---------- Statements that may be made ----------

  ghost predicate AbortsJustified(sys: Good, log: seq<Event>, st: Statement) {
    forall k :: Says(st, AcceptsAbort(k)) ==> Anyone(log, AcceptsAbort(k)) || Backed(sys, log, VotesAbort(k))
  }

  ghost predicate CommitsJustified(sys: Good, log: seq<Event>, st: Statement) {
    forall x, lo, hi :: lo <= hi && Says(st, AcceptsCommit(x, lo, hi)) ==>
                          Origin(sys, log, x, lo) && Backed(sys, log, VotesPrepared(Ballot(hi, x)))
  }

  ghost predicate PledgesJustified(log: seq<Event>, w: Node, st: Statement) {
    forall k :: Says(st, Pledges(k)) ==> Anyone(log, HasPrepared(k)) && !Said(log, w, VotesAbort(k))
  }

  ghost predicate VotesJustified(log: seq<Event>, w: Node, st: Statement) {
    forall k :: Says(st, VotesAbort(k)) && Said(log, w, Pledges(k)) ==> Anyone(log, AcceptsAbort(k))
  }

  ghost predicate Justified(sys: Good, log: seq<Event>, w: Node, st: Statement) {
    WellFormed(st) && AbortsJustified(sys, log, st) && CommitsJustified(sys, log, st) && PledgesJustified(log, w, st) &&
    VotesJustified(log, w, st) && (st.Externalize? ==> Settled(sys, log, w, st.commit))
  }

  // ---------- A justified statement keeps everything ----------

  lemma AbortsBackedMore(sys: Good, log: seq<Event>, e: Event)
    requires AbortsBacked(sys, log) && AbortsJustified(sys, log, e.st)
    ensures AbortsBacked(sys, log + [e])
  {
    forall k | Anyone(log + [e], AcceptsAbort(k)) ensures PurelyBacked(sys, log + [e], k) {
      AnyoneMore(log, e, AcceptsAbort(k));
      if !Anyone(log, AcceptsAbort(k)) {
        PurelyBackedNow(sys, log, k);
      }
      PurelyBackedMore(sys, log, e, k);
    }
  }

  lemma OriginMore(sys: Good, log: seq<Event>, e: Event, x: Value, n: nat)
    requires Origin(sys, log, x, n)
    ensures Origin(sys, log + [e], x, n)
  {
    var m: nat :| m <= n && Backed(sys, log, Pledges(Ballot(m, x)));
    BackedMore(sys, log, e, Pledges(Ballot(m, x)));
  }

  lemma CommitsMore(sys: Good, log: seq<Event>, e: Event)
    requires CommitsOriginate(sys, log) && CommitsPrepared(sys, log) && CommitsJustified(sys, log, e.st)
    ensures CommitsOriginate(sys, log + [e]) && CommitsPrepared(sys, log + [e])
  {
    forall x, lo, hi | lo <= hi && Anyone(log + [e], AcceptsCommit(x, lo, hi))
      ensures Origin(sys, log + [e], x, lo) && Backed(sys, log + [e], VotesPrepared(Ballot(hi, x)))
    {
      AnyoneMore(log, e, AcceptsCommit(x, lo, hi));
      assert Origin(sys, log, x, lo) && Backed(sys, log, VotesPrepared(Ballot(hi, x)));
      OriginMore(sys, log, e, x, lo);
      BackedMore(sys, log, e, VotesPrepared(Ballot(hi, x)));
    }
  }

  lemma PledgesMore(log: seq<Event>, e: Event)
    requires PledgesPrepared(log) && PledgesJustified(log, e.node, e.st)
    ensures PledgesPrepared(log + [e])
  {
    forall k | Anyone(log + [e], Pledges(k)) ensures Anyone(log + [e], HasPrepared(k)) {
      AnyoneMore(log, e, Pledges(k));
      AnyoneMore(log, e, HasPrepared(k));
    }
  }

  lemma NotBoth(st: Statement, k: Ballot)
    ensures !(Says(st, Pledges(k)) && Says(st, VotesAbort(k)))
  {
  }

  lemma PureSaid(log: seq<Event>, w: Node, k: Ballot)
    requires Pure(log, w, k)
    ensures Said(log, w, VotesAbort(k))
  {
    var i: nat :| i < |log| && log[i].node == w && Says(log[i].st, VotesAbort(k)) && !Anyone(log[..i], AcceptsAbort(k));
    assert Says(log[i].st, VotesAbort(k));
  }

  lemma ConsistentMore(log: seq<Event>, e: Event)
    requires Consistent(log) && PledgesJustified(log, e.node, e.st) && VotesJustified(log, e.node, e.st)
    ensures Consistent(log + [e])
  {
    forall w, k ensures !(Said(log + [e], w, Pledges(k)) && Pure(log + [e], w, k)) {
      SaidMore(log, e, w, Pledges(k));
      PureMore(log, e, w, k);
      NotBoth(e.st, k);
      if Pure(log, w, k) {
        PureSaid(log, w, k);
      }
    }
  }

  lemma SettledMore(sys: Good, log: seq<Event>, e: Event, w: Node, k: Ballot)
    requires Settled(sys, log, w, k)
    ensures Settled(sys, log + [e], w, k)
  {
    var u: set<Node> :| SettledBy(sys, log, w, k, u);
    forall n | n in u && n in sys.good ensures Said(log + [e], n, Settles(k)) {
      SaidMore(log, e, n, Settles(k));
    }
    assert SettledBy(sys, log + [e], w, k, u);
  }

  lemma AllSettledMore(sys: Good, log: seq<Event>, e: Event)
    requires AllSettled(sys, log) && (e.st.Externalize? ==> Settled(sys, log, e.node, e.st.commit))
    ensures AllSettled(sys, log + [e])
  {
    var more := log + [e];
    forall i: nat | i < |more| && more[i].st.Externalize? ensures Settled(sys, more, more[i].node, more[i].st.commit) {
      if i < |log| {
        assert more[i] == log[i];
      }
      SettledMore(sys, log, e, more[i].node, more[i].st.commit);
    }
  }

  lemma LogStep(sys: Good, log: seq<Event>, e: Event)
    requires LogInv(sys, log) && Justified(sys, log, e.node, e.st)
    ensures LogInv(sys, log + [e])
  {
    AbortsBackedMore(sys, log, e);
    CommitsMore(sys, log, e);
    PledgesMore(log, e);
    ConsistentMore(log, e);
    AllSettledMore(sys, log, e);
  }

  // ---------- Agreement ----------

  /** What a quorum has pledged to commit, no good node accepts as aborted. */
  lemma PledgedNotAborted(sys: Good, log: seq<Event>, k: Ballot)
    requires Intact(sys) && LogInv(sys, log) && Backed(sys, log, Pledges(k))
    ensures !Anyone(log, AcceptsAbort(k))
  {
    if Anyone(log, AcceptsAbort(k)) {
      var u: set<Node> :| BackedBy(sys, log, Pledges(k), u);
      var v: set<Node> :| PurelyBackedBy(sys, log, k, v);
      var w := Meet(sys, u, v);
    }
  }

  /** What has been pledged by a quorum has been accepted as prepared, so that all below it is aborted. */
  lemma PledgedAborts(sys: Good, log: seq<Event>, k: Ballot, a: Ballot)
    requires Intact(sys) && LogInv(sys, log) && Backed(sys, log, Pledges(k)) && LessAndIncompatible(a, k)
    ensures Anyone(log, AcceptsAbort(a))
  {
    BackedSaid(sys, log, Pledges(k));
    PreparedAborts(k, a);
    AnyoneEntails(log, HasPrepared(k), AcceptsAbort(a));
  }

  lemma PledgesOrdered(sys: Good, log: seq<Event>, a: Ballot, b: Ballot)
    requires Intact(sys) && LogInv(sys, log) && Backed(sys, log, Pledges(a)) && Backed(sys, log, Pledges(b))
    ensures !LessAndIncompatible(a, b)
  {
    PledgedNotAborted(sys, log, a);
    if LessAndIncompatible(a, b) {
      PledgedAborts(sys, log, b, a);
    }
  }

  lemma PledgesAgree(sys: Good, log: seq<Event>, a: Ballot, b: Ballot)
    requires Intact(sys) && LogInv(sys, log) && Backed(sys, log, Pledges(a)) && Backed(sys, log, Pledges(b))
    ensures a.x == b.x
  {
    PledgesOrdered(sys, log, a, b);
    PledgesOrdered(sys, log, b, a);
  }

  /** Whatever good nodes commit to has the same value. */
  lemma OriginsAgree(sys: Good, log: seq<Event>, x: Value, m: nat, y: Value, n: nat)
    requires Intact(sys) && LogInv(sys, log) && Origin(sys, log, x, m) && Origin(sys, log, y, n)
    ensures x == y
  {
    var i: nat :| i <= m && Backed(sys, log, Pledges(Ballot(i, x)));
    var j: nat :| j <= n && Backed(sys, log, Pledges(Ballot(j, y)));
    PledgesAgree(sys, log, Ballot(i, x), Ballot(j, y));
  }
}
