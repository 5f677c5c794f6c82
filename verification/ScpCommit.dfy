/** The steps of a node that accepts to commit, or has. */
module ScpCommit {
  import opened ScpQuorum
  import opened ScpStatement
  import opened ScpNode
  import opened ScpWorld
  import opened ScpClaims
  import opened ScpSupport
  import opened ScpInvariant
  import opened ScpPrepare

  /** A node may vote again as it has voted before. */
  lemma VotesAgain(log: seq<Event>, w: Node, was: Statement, st: Statement)
    requires Consistent(log) && Event(w, was) in log
    requires forall k :: Says(st, VotesAbort(k)) ==> Says(was, VotesAbort(k))
    ensures VotesJustified(log, w, st)
  {
    forall k | Says(st, VotesAbort(k)) && Said(log, w, Pledges(k)) ensures Anyone(log, AcceptsAbort(k)) {
      SaidInLog(log, w, was, VotesAbort(k));
      PureNow(log, w, k);
    }
  }

  lemma NoPledges(log: seq<Event>, w: Node, st: Statement)
    requires !st.Prepare?
    ensures PledgesJustified(log, w, st)
  {
  }

  // ---------- What accepting to commit rests on ----------

  lemma OriginUp(sys: Good, log: seq<Event>, x: Value, m: nat, n: nat)
    requires Origin(sys, log, x, m) && m <= n
    ensures Origin(sys, log, x, n)
  {
  }

  /** A good node that votes to commit and is not preparing has accepted to commit. */
  lemma CommittedVoter(sys: Good, log: seq<Event>, n: Node, st: Statement, x: Value, lo: nat, hi: nat)
    requires AllWellFormed(log) && CommitsOriginate(sys, log) && Event(n, st) in log
    requires !st.Prepare? && Says(st, VotesCommit(x, lo, hi))
    ensures Origin(sys, log, x, lo)
  {
    var i: nat :| i < |log| && log[i] == Event(n, st);
    assert WellFormed(log[i].st);
    var m := if st.Confirm? then st.nCommit else st.commit.n;
    assert Says(log[i].st, AcceptsCommit(x, m, m));
    OriginUp(sys, log, x, m, lo);
  }

  lemma AllPreparing(sys: Good, log: seq<Event>, w: Node, v: View, u: set<Node>, x: Value, lo: nat, hi: nat)
    requires Seen(sys, log, v, u, VotesCommit(x, lo, hi)) && w in sys.good && Slice(sys.q[w], u) && lo <= hi
    requires forall n :: n in u && n in sys.good ==> v.st[n].Prepare?
    ensures Backed(sys, log, Pledges(Ballot(lo, x)))
  {
    var c := Pledges(Ballot(lo, x));
    assert Seen(sys, log, v, u, c);
    AlmostSeen(sys, log, v, u, c);
    assert BackedBy(sys, log, c, u);
  }

  lemma SeenOrigin(sys: Good, log: seq<Event>, w: Node, v: View, x: Value, lo: nat, hi: nat)
    requires AllWellFormed(log) && CommitsOriginate(sys, log) && w in sys.good && lo <= hi
    requires SeenFor(sys, log, w, v, VotesCommit(x, lo, hi))
    ensures Origin(sys, log, x, lo)
  {
    var u: set<Node> :| Seen(sys, log, v, u, VotesCommit(x, lo, hi)) && Slice(sys.q[w], u);
    if exists n :: n in u && n in sys.good && !v.st[n].Prepare? {
      var n :| n in u && n in sys.good && !v.st[n].Prepare?;
      CommittedVoter(sys, log, n, v.st[n], x, lo, hi);
    } else {
      AllPreparing(sys, log, w, v, u, x, lo, hi);
    }
  }

  /** What a node needs to accept to commit (lo, x) to (hi, x). */
  ghost predicate MayCommit(sys: Good, log: seq<Event>, x: Value, lo: nat, hi: nat) {
    Origin(sys, log, x, lo) && Backed(sys, log, VotesPrepared(Ballot(hi, x)))
  }

  lemma AcceptedMayCommit(sys: Good, log: seq<Event>, w: Node, v: View, x: Value, lo: nat, hi: nat)
    requires Intact(sys) && LogInv(sys, log) && Honest(sys, log, v) && w in sys.good && lo <= hi
    requires Accepted(sys, w, v, VotesCommit(x, lo, hi), AcceptsCommit(x, lo, hi))
    ensures MayCommit(sys, log, x, lo, hi)
  {
    AcceptedCases(sys, log, w, v, VotesCommit(x, lo, hi), AcceptsCommit(x, lo, hi));
    if !Anyone(log, AcceptsCommit(x, lo, hi)) {
      SeenOrigin(sys, log, w, v, x, lo, hi);
      CommitVotesPrepare(x, lo, hi, hi);
      InheritedClaims(Ballot(hi, x));
      SeenForBacked(sys, log, w, v, VotesCommit(x, lo, hi), VotesPrepared(Ballot(hi, x)));
    }
  }

  lemma ConfirmCommits(sys: Good, log: seq<Event>, st: Statement)
    requires AllWellFormed(log) && st.Confirm? && MayCommit(sys, log, st.ballot.x, st.nCommit, st.nH)
    ensures CommitsJustified(sys, log, st)
  {
    var x := st.ballot.x;
    forall y, a, b | a <= b && Says(st, AcceptsCommit(y, a, b))
      ensures Origin(sys, log, y, a) && Backed(sys, log, VotesPrepared(Ballot(b, y)))
    {
      OriginUp(sys, log, x, st.nCommit, a);
      PreparedDown(Ballot(st.nH, x), Ballot(b, x));
      BackedEntails(sys, log, VotesPrepared(Ballot(st.nH, x)), VotesPrepared(Ballot(b, x)));
    }
  }

  // ---------- From preparing to committing ----------

  /** The ballot a commitment goes back to: accepted as prepared, and by no one as aborted. */
  ghost predicate Anchor(log: seq<Event>, a: Ballot) {
    Anyone(log, HasPrepared(a)) && !Anyone(log, AcceptsAbort(a))
  }

  lemma PledgedAnchor(sys: Good, log: seq<Event>, a: Ballot)
    requires Intact(sys) && LogInv(sys, log) && Backed(sys, log, Pledges(a))
    ensures Anchor(log, a)
  {
    PledgedNotAborted(sys, log, a);
    BackedSaid(sys, log, Pledges(a));
  }

  lemma OriginAnchor(sys: Good, log: seq<Event>, x: Value, n: nat) returns (m: nat)
    requires Intact(sys) && LogInv(sys, log) && Origin(sys, log, x, n)
    ensures m <= n && Anchor(log, Ballot(m, x))
  {
    m :| m <= n && Backed(sys, log, Pledges(Ballot(m, x)));
    PledgedAnchor(sys, log, Ballot(m, x));
  }

  /** No ballot above what is being committed has been accepted as prepared for another value. */
  lemma NotAbove(log: seq<Event>, w: Node, s: Local, a: Ballot, hi: nat)
    requires Spoken(log, w, s) && s.phase == PREPARE && s.p.Some? && Anchor(log, a) && a.n <= hi
    ensures s.p.value.x == a.x || s.p.value.n <= hi
  {
    if s.p.value.x != a.x && s.p.value.n > hi {
      AnyoneInLog(log, w, StatementOf(s), AcceptsAbort(a));
    }
  }

  lemma EnterAborts(sys: Good, log: seq<Event>, w: Node, s: Local, x: Value, hi: nat, st: Statement)
    requires AllWellFormed(log) && Spoken(log, w, s) && s.phase == PREPARE && s.p.Some?
    requires Backed(sys, log, VotesPrepared(Ballot(hi, x))) && (s.p.value.x == x || s.p.value.n <= hi)
    requires st.Confirm? && st.ballot.x == x && st.nPrepared == s.p.value.n
    ensures AbortsJustified(sys, log, st)
  {
    OldPrepared(sys, log, w, s);
    var top := Ballot(hi, x);
    assert MayAccept(sys, log, top);
    forall k | Says(st, AcceptsAbort(k)) ensures Anyone(log, AcceptsAbort(k)) || Backed(sys, log, VotesAbort(k)) {
      MayAcceptAborts(sys, log, if s.p.value.x == x then s.p.value else top, k);
    }
  }

  /** What the node has pledged for another value has been accepted as aborted. */
  lemma PledgeGone(log: seq<Event>, a: Ballot, k: Ballot)
    requires AllWellFormed(log) && Anchor(log, a) && k.x != a.x && Anyone(log, HasPrepared(k))
    ensures Anyone(log, AcceptsAbort(k))
  {
    if Lt(k, a) {
      PreparedAborts(a, k);
      AnyoneEntails(log, HasPrepared(a), AcceptsAbort(k));
    } else {
      PreparedAborts(k, a);
      AnyoneEntails(log, HasPrepared(k), AcceptsAbort(a));
    }
  }

  lemma EnterVotes(log: seq<Event>, w: Node, s: Local, a: Ballot, st: Statement)
    requires AllWellFormed(log) && PledgesPrepared(log) && NodeInv(log, w, s) && s.phase == PREPARE
    requires Anchor(log, a) && st.Confirm? && st.ballot.x == a.x
    ensures VotesJustified(log, w, st)
  {
    forall k | Says(st, VotesAbort(k)) && Said(log, w, Pledges(k)) ensures Anyone(log, AcceptsAbort(k)) {
      if Covers(s, k) {
        OldPledges(log, w, s, k);
        PledgeGone(log, a, k);
      }
    }
  }

  /** What accepting to commit does to a node. */
  lemma AcceptCommitKeeps(s: Local, x: Value, lo: nat, hi: nat)
    requires Sound(s) && Ready(s, AcceptCommit(x, lo, hi)) && Sound(Act(s, AcceptCommit(x, lo, hi)))
    ensures var t := Act(s, AcceptCommit(x, lo, hi));
            t.phase == CONFIRM && t.p == s.p && t.c == Some(Ballot(lo, x)) && t.h == Some(Ballot(hi, x)) &&
            t.b.value.x == x
  {
  }

  lemma EnterMade(sys: Good, log: seq<Event>, w: Node, s: Local, x: Value, lo: nat, hi: nat, a: Ballot)
    requires LogInv(sys, log) && NodeInv(log, w, s) && s.phase == PREPARE && Ready(s, AcceptCommit(x, lo, hi))
    requires MayCommit(sys, log, x, lo, hi) && Anchor(log, a) && a.x == x && a.n <= lo
    requires Sound(Act(s, AcceptCommit(x, lo, hi)))
    ensures Justified(sys, log, w, StatementOf(Act(s, AcceptCommit(x, lo, hi))))
  {
    var t := Act(s, AcceptCommit(x, lo, hi));
    var st := StatementOf(t);
    AcceptCommitKeeps(s, x, lo, hi);
    StatementWellFormed(t);
    ConfirmCommits(sys, log, st);
    NotAbove(log, w, s, a, hi);
    EnterAborts(sys, log, w, s, x, hi, st);
    NoPledges(log, w, st);
    EnterVotes(log, w, s, a, st);
  }

  // ---------- While committing ----------

  lemma AbortsAgain(sys: Good, log: seq<Event>, w: Node, was: Statement, st: Statement)
    requires Event(w, was) in log && forall k :: Says(st, AcceptsAbort(k)) ==> Says(was, AcceptsAbort(k))
    ensures AbortsJustified(sys, log, st)
  {
    forall k | Says(st, AcceptsAbort(k)) ensures Anyone(log, AcceptsAbort(k)) || Backed(sys, log, VotesAbort(k)) {
      AnyoneInLog(log, w, was, AcceptsAbort(k));
    }
  }

  lemma CommitsAgain(sys: Good, log: seq<Event>, w: Node, was: Statement, st: Statement)
    requires CommitsOriginate(sys, log) && CommitsPrepared(sys, log) && Event(w, was) in log
    requires forall x, lo, hi :: Says(st, AcceptsCommit(x, lo, hi)) ==> Says(was, AcceptsCommit(x, lo, hi))
    ensures CommitsJustified(sys, log, st)
  {
    forall x, lo, hi | lo <= hi && Says(st, AcceptsCommit(x, lo, hi))
      ensures Origin(sys, log, x, lo) && Backed(sys, log, VotesPrepared(Ballot(hi, x)))
    {
      AnyoneInLog(log, w, was, AcceptsCommit(x, lo, hi));
    }
  }

  lemma ExtendMade(sys: Good, log: seq<Event>, w: Node, s: Local, x: Value, lo: nat, hi: nat)
    requires LogInv(sys, log) && NodeInv(log, w, s) && s.phase == CONFIRM && Ready(s, AcceptCommit(x, lo, hi))
    requires MayCommit(sys, log, x, lo, hi) && Sound(Act(s, AcceptCommit(x, lo, hi)))
    ensures Justified(sys, log, w, StatementOf(Act(s, AcceptCommit(x, lo, hi))))
  {
    var t, was := Act(s, AcceptCommit(x, lo, hi)), StatementOf(s);
    var st := StatementOf(t);
    AcceptCommitKeeps(s, x, lo, hi);
    StatementWellFormed(t);
    ConfirmCommits(sys, log, st);
    AbortsAgain(sys, log, w, was, st);
    NoPledges(log, w, st);
    VotesAgain(log, w, was, st);
  }

  lemma AcceptCommitJustified(sys: Good, log: seq<Event>, w: Node, s: Local, v: View, x: Value, lo: nat, hi: nat)
    requires Intact(sys) && LogInv(sys, log) && NodeInv(log, w, s) && w in sys.good && Honest(sys, log, v)
    requires Ready(s, AcceptCommit(x, lo, hi)) && Supported(sys, w, v, AcceptCommit(x, lo, hi))
    requires Sound(Act(s, AcceptCommit(x, lo, hi)))
    ensures Justified(sys, log, w, StatementOf(Act(s, AcceptCommit(x, lo, hi))))
  {
    AcceptedMayCommit(sys, log, w, v, x, lo, hi);
    if s.phase == PREPARE {
      var m := OriginAnchor(sys, log, x, lo);
      EnterMade(sys, log, w, s, x, lo, hi, Ballot(m, x));
    } else {
      ExtendMade(sys, log, w, s, x, lo, hi);
    }
  }

  lemma BumpAgain(sys: Good, log: seq<Event>, w: Node, s: Local, n: nat, x: Value)
    requires LogInv(sys, log) && NodeInv(log, w, s) && s.phase == CONFIRM && Ready(s, Bump(n, x))
    requires Sound(Act(s, Bump(n, x)))
    ensures Justified(sys, log, w, StatementOf(Act(s, Bump(n, x))))
  {
    var t, was := Act(s, Bump(n, x)), StatementOf(s);
    var st := StatementOf(t);
    StatementWellFormed(t);
    CommitsAgain(sys, log, w, was, st);
    AbortsAgain(sys, log, w, was, st);
    NoPledges(log, w, st);
    VotesAgain(log, w, was, st);
  }

  lemma AcceptHigher(sys: Good, log: seq<Event>, w: Node, s: Local, b: Ballot)
    requires LogInv(sys, log) && NodeInv(log, w, s) && s.phase == CONFIRM && Ready(s, AcceptPrepared(b))
    requires MayAccept(sys, log, b) && Sound(Act(s, AcceptPrepared(b)))
    ensures Justified(sys, log, w, StatementOf(Act(s, AcceptPrepared(b))))
  {
    var t, was := Act(s, AcceptPrepared(b)), StatementOf(s);
    var st := StatementOf(t);
    StatementWellFormed(t);
    assert t == s.(p := Some(b));
    CommitsAgain(sys, log, w, was, st);
    forall k | Says(st, AcceptsAbort(k)) ensures Anyone(log, AcceptsAbort(k)) || Backed(sys, log, VotesAbort(k)) {
      MayAcceptAborts(sys, log, b, k);
    }
    NoPledges(log, w, st);
    VotesAgain(log, w, was, st);
  }

  lemma AcceptHigherJustified(sys: Good, log: seq<Event>, w: Node, s: Local, v: View, b: Ballot)
    requires Intact(sys) && LogInv(sys, log) && NodeInv(log, w, s) && s.phase == CONFIRM && w in sys.good
    requires Honest(sys, log, v) && Ready(s, AcceptPrepared(b)) && Supported(sys, w, v, AcceptPrepared(b))
    requires Sound(Act(s, AcceptPrepared(b)))
    ensures Justified(sys, log, w, StatementOf(Act(s, AcceptPrepared(b))))
  {
    MayAcceptBallot(sys, log, w, v, b);
    AcceptHigher(sys, log, w, s, b);
  }

  // ---------- Externalizing ----------

  lemma CommitSettles(x: Value, lo: nat, hi: nat)
    requires lo <= hi
    ensures Entails(AcceptsCommit(x, lo, hi), Settles(Ballot(lo, x)))
  {
  }

  lemma RatifiedSettled(sys: Good, log: seq<Event>, w: Node, v: View, x: Value, lo: nat, hi: nat)
    requires LogInv(sys, log) && Honest(sys, log, v) && w in sys.good && lo <= hi
    requires Ratified(sys, w, v, AcceptsCommit(x, lo, hi))
    ensures Settled(sys, log, w, Ballot(lo, x)) && Backed(sys, log, Settles(Ballot(lo, x)))
  {
    RatifiedSeen(sys, log, w, v, AcceptsCommit(x, lo, hi));
    CommitSettles(x, lo, hi);
    InheritedClaims(Ballot(lo, x));
    SeenForBacked(sys, log, w, v, AcceptsCommit(x, lo, hi), Settles(Ballot(lo, x)));
    var u: set<Node> :| BackedBy(sys, log, Settles(Ballot(lo, x)), u) && Slice(sys.q[w], u);
    assert SettledBy(sys, log, w, Ballot(lo, x), u);
  }

  lemma ExternalizeAborts(sys: Good, log: seq<Event>, st: Statement)
    requires AllWellFormed(log) && st.Externalize? && Backed(sys, log, Settles(st.commit))
    ensures AbortsJustified(sys, log, st)
  {
    forall k | Says(st, AcceptsAbort(k)) ensures Anyone(log, AcceptsAbort(k)) || Backed(sys, log, VotesAbort(k)) {
      SettledVotes(st.commit, k, 0);
      BackedEntails(sys, log, Settles(st.commit), VotesAbort(k));
    }
  }

  lemma ExternalizeCommits(sys: Good, log: seq<Event>, st: Statement)
    requires AllWellFormed(log) && st.Externalize? && Backed(sys, log, Settles(st.commit))
    requires Origin(sys, log, st.commit.x, st.commit.n)
    ensures CommitsJustified(sys, log, st)
  {
    var c := st.commit;
    forall y, a, b | a <= b && Says(st, AcceptsCommit(y, a, b))
      ensures Origin(sys, log, y, a) && Backed(sys, log, VotesPrepared(Ballot(b, y)))
    {
      OriginUp(sys, log, c.x, c.n, a);
      SettledVotes(c, Ballot(0, c.x + 1), b);
      BackedEntails(sys, log, Settles(c), VotesPrepared(Ballot(b, c.x)));
    }
  }

  lemma ExternalizeMade(sys: Good, log: seq<Event>, w: Node, s: Local, x: Value, lo: nat, hi: nat)
    requires LogInv(sys, log) && NodeInv(log, w, s) && Ready(s, ConfirmCommit(x, lo, hi))
    requires Settled(sys, log, w, Ballot(lo, x)) && Backed(sys, log, Settles(Ballot(lo, x))) && Origin(sys, log, x, lo)
    requires Sound(Act(s, ConfirmCommit(x, lo, hi)))
    ensures Justified(sys, log, w, StatementOf(Act(s, ConfirmCommit(x, lo, hi))))
  {
    var t, was := Act(s, ConfirmCommit(x, lo, hi)), StatementOf(s);
    var st := StatementOf(t);
    StatementWellFormed(t);
    ExternalizeAborts(sys, log, st);
    ExternalizeCommits(sys, log, st);
    NoPledges(log, w, st);
    VotesAgain(log, w, was, st);
  }

  lemma ConfirmCommitJustified(sys: Good, log: seq<Event>, w: Node, s: Local, v: View, x: Value, lo: nat, hi: nat)
    requires Intact(sys) && LogInv(sys, log) && NodeInv(log, w, s) && w in sys.good && Honest(sys, log, v)
    requires Ready(s, ConfirmCommit(x, lo, hi)) && Supported(sys, w, v, ConfirmCommit(x, lo, hi))
    requires Sound(Act(s, ConfirmCommit(x, lo, hi)))
    ensures Justified(sys, log, w, StatementOf(Act(s, ConfirmCommit(x, lo, hi))))
  {
    RatifiedSettled(sys, log, w, v, x, lo, hi);
    RatifiedAnyone(sys, log, w, v, AcceptsCommit(x, lo, hi));
    ExternalizeMade(sys, log, w, s, x, lo, hi);
  }
}
