/** The steps of a node that is still preparing. */
module ScpPrepare {
  import opened ScpQuorum
  import opened ScpStatement
  import opened ScpNode
  import opened ScpWorld
  import opened ScpClaims
  import opened ScpSupport
  import opened ScpInvariant

  // ---------- What holds of a node ----------

  ghost predicate Spoken(log: seq<Event>, w: Node, s: Local) {
    Sound(s) && (s.c.Some? ==> s.c.value.n > 0) && (s == FRESH || Event(w, StatementOf(s)) in log)
  }

  predicate Fits(s: Local, st: Statement) {
    st.Prepare? && Le(st.ballot, Current(s)) &&
    (s.c.Some? ==> st.ballot.x == s.c.value.x || Lt(st.ballot, s.c.value))
  }

  /** So far the node has voted for its current ballot or lower ones, and against nothing it would commit. */
  ghost predicate Preparing(log: seq<Event>, w: Node, s: Local) {
    forall i: nat :: i < |log| && log[i].node == w ==> Fits(s, log[i].st)
  }

  predicate Covers(s: Local, k: Ballot) {
    s.c.Some? && s.h.Some? && s.c.value.x == k.x && s.c.value.n <= k.n <= s.h.value.n
  }

  /** What the node has pledged it still stands for, or it has been accepted as aborted. */
  ghost predicate Standing(log: seq<Event>, w: Node, s: Local) {
    forall k :: Said(log, w, Pledges(k)) ==> Covers(s, k) || Anyone(log, AcceptsAbort(k))
  }

  ghost predicate NodeInv(log: seq<Event>, w: Node, s: Local) {
    Spoken(log, w, s) && (s.phase == PREPARE ==> Preparing(log, w, s) && Standing(log, w, s))
  }

  // ---------- Accepting ----------

  /** The ballot may be accepted as prepared. */
  ghost predicate MayAccept(sys: Good, log: seq<Event>, b: Ballot) {
    Anyone(log, HasPrepared(b)) || Backed(sys, log, VotesPrepared(b))
  }

  lemma MayAcceptAborts(sys: Good, log: seq<Event>, b: Ballot, k: Ballot)
    requires AllWellFormed(log) && MayAccept(sys, log, b) && LessAndIncompatible(k, b)
    ensures Anyone(log, AcceptsAbort(k)) || Backed(sys, log, VotesAbort(k))
  {
    PreparedAborts(b, k);
    if Anyone(log, HasPrepared(b)) {
      AnyoneEntails(log, HasPrepared(b), AcceptsAbort(k));
    } else {
      BackedEntails(sys, log, VotesPrepared(b), VotesAbort(k));
    }
  }

  lemma PrepareAborts(sys: Good, log: seq<Event>, st: Statement)
    requires AllWellFormed(log) && st.Prepare?
    requires st.prepared.Some? ==> MayAccept(sys, log, st.prepared.value)
    requires st.preparedPrime.Some? ==> MayAccept(sys, log, st.preparedPrime.value)
    ensures AbortsJustified(sys, log, st)
  {
    forall k | Says(st, AcceptsAbort(k)) ensures Anyone(log, AcceptsAbort(k)) || Backed(sys, log, VotesAbort(k)) {
      if st.prepared.Some? && LessAndIncompatible(k, st.prepared.value) {
        MayAcceptAborts(sys, log, st.prepared.value, k);
      } else {
        MayAcceptAborts(sys, log, st.preparedPrime.value, k);
      }
    }
  }

  lemma AnyoneInLog(log: seq<Event>, w: Node, st: Statement, c: Claim)
    requires Event(w, st) in log && Says(st, c)
    ensures Anyone(log, c)
  {
    var i: nat :| i < |log| && log[i] == Event(w, st);
    assert Says(log[i].st, c);
  }

  /** What a node has accepted as prepared it has said. */
  lemma OldPrepared(sys: Good, log: seq<Event>, w: Node, s: Local)
    requires Spoken(log, w, s) && s.phase == PREPARE
    ensures s.p.Some? ==> MayAccept(sys, log, s.p.value)
    ensures s.pp.Some? ==> MayAccept(sys, log, s.pp.value)
  {
    if s.p.Some? {
      AnyoneInLog(log, w, StatementOf(s), HasPrepared(s.p.value));
    }
    if s.pp.Some? {
      AnyoneInLog(log, w, StatementOf(s), HasPrepared(s.pp.value));
    }
  }

  // ---------- Pledging and voting ----------

  lemma NoAbortVotes(log: seq<Event>, w: Node, s: Local, k: Ballot)
    requires Preparing(log, w, s) && s.c.Some? && LessAndCompatible(s.c.value, k)
    ensures !Said(log, w, VotesAbort(k))
  {
  }

  lemma OldPledges(log: seq<Event>, w: Node, s: Local, k: Ballot)
    requires PledgesPrepared(log) && Spoken(log, w, s) && s.phase == PREPARE && Preparing(log, w, s)
    requires Covers(s, k)
    ensures Anyone(log, HasPrepared(k)) && !Said(log, w, VotesAbort(k))
  {
    NoAbortVotes(log, w, s, k);
    AnyoneInLog(log, w, StatementOf(s), Pledges(k));
  }

  /** A vote for a ballot that is compatible with what the node would commit. */
  lemma PrepareVotes(log: seq<Event>, w: Node, s: Local, st: Statement)
    requires Standing(log, w, s) && st.Prepare? && (s.c.Some? ==> st.ballot.x == s.c.value.x)
    ensures VotesJustified(log, w, st)
  {
  }

  /** Pledges that the node already stands for. */
  lemma SamePledges(log: seq<Event>, w: Node, s: Local, st: Statement)
    requires PledgesPrepared(log) && Spoken(log, w, s) && s.phase == PREPARE && Preparing(log, w, s)
    requires st.Prepare? && forall k :: Says(st, Pledges(k)) ==> Covers(s, k)
    ensures PledgesJustified(log, w, st)
  {
    forall k | Says(st, Pledges(k)) ensures Anyone(log, HasPrepared(k)) && !Said(log, w, VotesAbort(k)) {
      OldPledges(log, w, s, k);
    }
  }

  // ---------- The steps ----------

  lemma BumpJustified(sys: Good, log: seq<Event>, w: Node, s: Local, n: nat, x: Value)
    requires LogInv(sys, log) && NodeInv(log, w, s) && s.phase == PREPARE && Ready(s, Bump(n, x))
    requires Sound(Act(s, Bump(n, x)))
    ensures Justified(sys, log, w, StatementOf(Act(s, Bump(n, x))))
  {
    var t := Act(s, Bump(n, x));
    var st := StatementOf(t);
    StatementWellFormed(t);
    OldPrepared(sys, log, w, s);
    PrepareAborts(sys, log, st);
    SamePledges(log, w, s, st);
    PrepareVotes(log, w, s, st);
  }

  lemma MayAcceptBallot(sys: Good, log: seq<Event>, w: Node, v: View, b: Ballot)
    requires Intact(sys) && LogInv(sys, log) && Honest(sys, log, v) && w in sys.good
    requires Accepted(sys, w, v, VotesPrepared(b), HasPrepared(b))
    ensures MayAccept(sys, log, b)
  {
    AcceptedCases(sys, log, w, v, VotesPrepared(b), HasPrepared(b));
    if !Anyone(log, HasPrepared(b)) {
      InheritedClaims(b);
      SeenForBacked(sys, log, w, v, VotesPrepared(b), VotesPrepared(b));
    }
  }

  /** What accepting a ballot does to a preparing node. */
  lemma AcceptPreparedKeeps(s: Local, b: Ballot)
    requires s.phase == PREPARE && Sound(s) && Sound(SetAcceptPrepared(s, b))
    ensures var t := SetAcceptPrepared(s, b);
            t.phase == PREPARE && t.b == s.b && t.h == s.h && (t.c == s.c || t.c == None) &&
            (t.p == s.p || t.p == Some(b)) && (t.pp == s.pp || t.pp == s.p || t.pp == Some(b))
  {
  }

  lemma AcceptPreparedMade(sys: Good, log: seq<Event>, w: Node, s: Local, b: Ballot)
    requires LogInv(sys, log) && NodeInv(log, w, s) && s.phase == PREPARE && MayAccept(sys, log, b)
    requires Sound(SetAcceptPrepared(s, b))
    ensures Justified(sys, log, w, StatementOf(SetAcceptPrepared(s, b)))
  {
    var t := SetAcceptPrepared(s, b);
    var st := StatementOf(t);
    AcceptPreparedKeeps(s, b);
    StatementWellFormed(t);
    OldPrepared(sys, log, w, s);
    PrepareAborts(sys, log, st);
    SamePledges(log, w, s, st);
    PrepareVotes(log, w, s, st);
  }

  lemma AcceptPreparedJustified(sys: Good, log: seq<Event>, w: Node, s: Local, v: View, b: Ballot)
    requires Intact(sys) && LogInv(sys, log) && NodeInv(log, w, s) && s.phase == PREPARE && w in sys.good
    requires Honest(sys, log, v) && Supported(sys, w, v, AcceptPrepared(b)) && Sound(SetAcceptPrepared(s, b))
    ensures Justified(sys, log, w, StatementOf(SetAcceptPrepared(s, b)))
  {
    MayAcceptBallot(sys, log, w, v, b);
    AcceptPreparedMade(sys, log, w, s, b);
  }

  /** What confirming does to a preparing node: if it would commit, then up to the ballot confirmed. */
  lemma ConfirmPreparedKeeps(s: Local, newC: Option<Ballot>, newH: Ballot)
    requires Sound(s) && Ready(s, ConfirmPrepared(newC, newH)) && Sound(SetConfirmPrepared(s, newC, newH))
    ensures var t := SetConfirmPrepared(s, newC, newH);
            t.phase == PREPARE && t.p == s.p && t.pp == s.pp && Le(Current(s), Current(t)) &&
            (s.c.Some? ==> t.c == s.c) && (s.c.None? ==> t.c == None || t.c == newC) &&
            (t.c.Some? ==> t.h == Some(newH) || (t.c == s.c && t.h == s.h))
  {
  }

  lemma NewPledges(log: seq<Event>, w: Node, s: Local, newC: Option<Ballot>, newH: Ballot, k: Ballot)
    requires AllWellFormed(log) && PledgesPrepared(log) && NodeInv(log, w, s) && Ready(s, ConfirmPrepared(newC, newH))
    requires Sound(SetConfirmPrepared(s, newC, newH)) && Anyone(log, HasPrepared(newH))
    requires Covers(SetConfirmPrepared(s, newC, newH), k)
    ensures Anyone(log, HasPrepared(k)) && !Said(log, w, VotesAbort(k))
  {
    ConfirmPreparedKeeps(s, newC, newH);
    if Covers(s, k) {
      OldPledges(log, w, s, k);
    } else {
      PreparedDown(newH, k);
      AnyoneEntails(log, HasPrepared(newH), HasPrepared(k));
      if s.c.Some? {
        NoAbortVotes(log, w, s, k);
      } else {
        Below(log, w, s, newC.value, k);
      }
    }
  }

  /** The node has not voted against what is not below its ballot. */
  lemma Below(log: seq<Event>, w: Node, s: Local, c: Ballot, k: Ballot)
    requires Preparing(log, w, s) && Le(Current(s), c) && LessAndCompatible(c, k)
    ensures !Said(log, w, VotesAbort(k))
  {
  }

  lemma ConfirmPreparedMade(sys: Good, log: seq<Event>, w: Node, s: Local, newC: Option<Ballot>, newH: Ballot)
    requires LogInv(sys, log) && NodeInv(log, w, s) && Anyone(log, HasPrepared(newH))
    requires Ready(s, ConfirmPrepared(newC, newH)) && Sound(SetConfirmPrepared(s, newC, newH))
    ensures Justified(sys, log, w, StatementOf(SetConfirmPrepared(s, newC, newH)))
  {
    var t := SetConfirmPrepared(s, newC, newH);
    var st := StatementOf(t);
    ConfirmPreparedKeeps(s, newC, newH);
    StatementWellFormed(t);
    OldPrepared(sys, log, w, s);
    PrepareAborts(sys, log, st);
    forall k | Says(st, Pledges(k)) ensures Anyone(log, HasPrepared(k)) && !Said(log, w, VotesAbort(k)) {
      NewPledges(log, w, s, newC, newH, k);
    }
    PrepareVotes(log, w, s, st);
  }

  lemma ConfirmPreparedJustified(sys: Good, log: seq<Event>, w: Node, s: Local, v: View, newC: Option<Ballot>,
                                 newH: Ballot)
    requires Intact(sys) && LogInv(sys, log) && NodeInv(log, w, s) && w in sys.good && Honest(sys, log, v)
    requires Ready(s, ConfirmPrepared(newC, newH)) && Supported(sys, w, v, ConfirmPrepared(newC, newH))
    requires Sound(SetConfirmPrepared(s, newC, newH))
    ensures Justified(sys, log, w, StatementOf(SetConfirmPrepared(s, newC, newH)))
  {
    RatifiedAnyone(sys, log, w, v, HasPrepared(newH));
    ConfirmPreparedMade(sys, log, w, s, newC, newH);
  }
}
