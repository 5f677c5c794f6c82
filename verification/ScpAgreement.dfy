/** Every step keeps the invariant, so that in every run good nodes externalize the same value. */
module ScpAgreement {
  import opened ScpQuorum
  import opened ScpStatement
  import opened ScpNode
  import opened ScpWorld
  import opened ScpClaims
  import opened ScpInvariant
  import opened ScpPrepare
  import opened ScpCommit

  ghost predicate Inv(sys: Good, a: World) {
    a.at.Keys == sys.good && LogInv(sys, a.log) && forall w :: w in a.at ==> NodeInv(a.log, w, a.at[w])
  }

  lemma StartInv(sys: Good, a: World)
    requires Start(sys, a)
    ensures Inv(sys, a)
  {
  }

  // ---------- The statement is justified ----------

  lemma Justifies(sys: Good, log: seq<Event>, w: Node, s: Local, v: View, act: Action)
    requires Intact(sys) && LogInv(sys, log) && NodeInv(log, w, s) && w in sys.good && Honest(sys, log, v)
    requires Ready(s, act) && Supported(sys, w, v, act) && Sound(Act(s, act))
    ensures Justified(sys, log, w, StatementOf(Act(s, act)))
  {
    match act
    case Bump(n, x) =>
      if s.phase == PREPARE {
        BumpJustified(sys, log, w, s, n, x);
      } else {
        BumpAgain(sys, log, w, s, n, x);
      }
    case AcceptPrepared(b) =>
      if s.phase == PREPARE {
        AcceptPreparedJustified(sys, log, w, s, v, b);
      } else {
        AcceptHigherJustified(sys, log, w, s, v, b);
      }
    case ConfirmPrepared(newC, newH) => ConfirmPreparedJustified(sys, log, w, s, v, newC, newH);
    case AcceptCommit(x, lo, hi) => AcceptCommitJustified(sys, log, w, s, v, x, lo, hi);
    case ConfirmCommit(x, lo, hi) => ConfirmCommitJustified(sys, log, w, s, v, x, lo, hi);
  }

  // ---------- The nodes ----------

  /** A statement of another node. */
  lemma OthersKeep(log: seq<Event>, e: Event, w: Node, s: Local)
    requires NodeInv(log, w, s) && e.node != w
    ensures NodeInv(log + [e], w, s)
  {
    var more := log + [e];
    if s.phase == PREPARE {
      forall i: nat | i < |more| && more[i].node == w ensures Fits(s, more[i].st) {
        assert more[i] == log[i];
      }
      forall k | Said(more, w, Pledges(k)) ensures Covers(s, k) || Anyone(more, AcceptsAbort(k)) {
        SaidMore(log, e, w, Pledges(k));
        AnyoneMore(log, e, AcceptsAbort(k));
      }
    }
  }

  /** How a preparing node goes on: its ballot does not fall, and it keeps what it would commit or sees it aborted. */
  predicate Forward(s: Local, t: Local) {
    s.phase == PREPARE && t.phase == PREPARE && Le(Current(s), Current(t)) &&
    (t.c.Some? ==> t.c == s.c || (s.c.None? && Le(Current(s), t.c.value))) &&
    (s.c.Some? && t.c.Some? ==> s.h.Some? && t.h.Some? && s.h.value.n <= t.h.value.n) &&
    (s.c.Some? && t.c.None? ==> s.h.Some? && Aborts(t, s.h.value))
  }

  lemma ActForward(s: Local, act: Action)
    requires Sound(s) && Ready(s, act) && Sound(Act(s, act)) && Act(s, act).phase == PREPARE
    ensures Forward(s, Act(s, act))
  {
    match act
    case Bump(n, x) =>
    case AcceptPrepared(b) =>
    case ConfirmPrepared(newC, newH) =>
    case AcceptCommit(x, lo, hi) =>
    case ConfirmCommit(x, lo, hi) =>
  }

  lemma FitsForward(s: Local, t: Local, st: Statement)
    requires Forward(s, t) && Fits(s, st)
    ensures Fits(t, st)
  {
  }

  lemma FitsOwn(t: Local)
    requires Sound(t) && t.phase == PREPARE
    ensures Fits(t, StatementOf(t))
  {
  }

  lemma CoversOwn(t: Local, k: Ballot)
    requires Sound(t) && t.phase == PREPARE && Says(StatementOf(t), Pledges(k))
    ensures Covers(t, k)
  {
  }

  lemma CoversForward(s: Local, t: Local, k: Ballot)
    requires Sound(s) && Sound(t) && Forward(s, t) && Covers(s, k)
    ensures Covers(t, k) || Says(StatementOf(t), AcceptsAbort(k))
  {
  }

  lemma PreparingMore(log: seq<Event>, w: Node, s: Local, t: Local)
    requires Preparing(log, w, s) && Forward(s, t) && Sound(t)
    ensures Preparing(log + [Event(w, StatementOf(t))], w, t)
  {
    var more := log + [Event(w, StatementOf(t))];
    forall i: nat | i < |more| && more[i].node == w ensures Fits(t, more[i].st) {
      if i < |log| {
        assert more[i] == log[i];
        FitsForward(s, t, log[i].st);
      } else {
        FitsOwn(t);
      }
    }
  }

  lemma StandingMore(log: seq<Event>, w: Node, s: Local, t: Local)
    requires Standing(log, w, s) && Forward(s, t) && Sound(s) && Sound(t)
    ensures Standing(log + [Event(w, StatementOf(t))], w, t)
  {
    var e := Event(w, StatementOf(t));
    forall k | Said(log + [e], w, Pledges(k)) ensures Covers(t, k) || Anyone(log + [e], AcceptsAbort(k)) {
      SaidMore(log, e, w, Pledges(k));
      AnyoneMore(log, e, AcceptsAbort(k));
      if Says(e.st, Pledges(k)) {
        CoversOwn(t, k);
      } else if Covers(s, k) {
        CoversForward(s, t, k);
      }
    }
  }

  lemma ActSpoken(log: seq<Event>, w: Node, s: Local, act: Action)
    requires Spoken(log, w, s) && Ready(s, act) && Sound(Act(s, act))
    ensures Spoken(log + [Event(w, StatementOf(Act(s, act)))], w, Act(s, act))
  {
    var e := Event(w, StatementOf(Act(s, act)));
    assert (log + [e])[|log|] == e;
  }

  lemma ActorKeeps(log: seq<Event>, w: Node, s: Local, act: Action)
    requires NodeInv(log, w, s) && Ready(s, act) && Sound(Act(s, act))
    ensures NodeInv(log + [Event(w, StatementOf(Act(s, act)))], w, Act(s, act))
  {
    var t := Act(s, act);
    ActSpoken(log, w, s, act);
    if t.phase == PREPARE {
      ActForward(s, act);
      PreparingMore(log, w, s, t);
      StandingMore(log, w, s, t);
    }
  }

  // ---------- Steps and runs ----------

  lemma StepKeeps(sys: Good, a: World, b: World, w: Node, v: View, act: Action)
    requires Intact(sys) && Inv(sys, a) && StepBy(sys, a, b, w, v, act)
    ensures Inv(sys, b)
  {
    var s := a.at[w];
    var e := Event(w, StatementOf(Act(s, act)));
    Justifies(sys, a.log, w, s, v, act);
    LogStep(sys, a.log, e);
    NodesKeep(sys, a, b, w, act, e);
  }

  lemma NodesKeep(sys: Good, a: World, b: World, w: Node, act: Action, e: Event)
    requires Inv(sys, a) && w in a.at && Ready(a.at[w], act) && Sound(Act(a.at[w], act))
    requires e == Event(w, StatementOf(Act(a.at[w], act))) && b == World(a.log + [e], a.at[w := Act(a.at[w], act)])
    ensures forall n :: n in b.at ==> NodeInv(b.log, n, b.at[n])
  {
    ActorKeeps(a.log, w, a.at[w], act);
    forall n | n in b.at ensures NodeInv(b.log, n, b.at[n]) {
      if n != w {
        OthersKeep(a.log, e, n, a.at[n]);
      }
    }
  }

  lemma StepInv(sys: Good, a: World, b: World)
    requires Intact(sys) && Inv(sys, a) && Step(sys, a, b)
    ensures Inv(sys, b)
  {
    var w, v, act :| StepBy(sys, a, b, w, v, act);
    StepKeeps(sys, a, b, w, v, act);
  }

  /** Every world that a run reaches has the invariant. */
  lemma {:induction false} RunInv(sys: Good, ws: seq<World>)
    requires Intact(sys) && Run(sys, ws)
    ensures Inv(sys, ws[|ws| - 1])
  {
    if |ws| == 1 {
      StartInv(sys, ws[0]);
    } else {
      var before, a, b := ws[..|ws| - 1], ws[|ws| - 2], ws[|ws| - 1];
      assert before[|before| - 1] == a && Run(sys, before) && Step(sys, a, b);
      RunInv(sys, before);
      StepInv(sys, a, b);
    }
  }

  lemma ExternalizedOrigin(sys: Good, a: World, w: Node)
    requires Inv(sys, a) && w in a.at && a.at[w].phase == EXTERNALIZE
    ensures Origin(sys, a.log, a.at[w].c.value.x, a.at[w].c.value.n)
  {
    var s := a.at[w];
    var c := s.c.value;
    AnyoneInLog(a.log, w, StatementOf(s), AcceptsCommit(c.x, c.n, c.n));
  }

  /** However a run goes, any two good nodes that have externalized have externalized the same value. */
  lemma Agreement(sys: Good, ws: seq<World>, v: Node, w: Node)
    requires Intact(sys) && Run(sys, ws) && v in sys.good && w in sys.good
    ensures var at := ws[|ws| - 1].at;
            v in at && w in at &&
            (at[v].phase == EXTERNALIZE && at[w].phase == EXTERNALIZE ==>
               at[v].c.Some? && at[w].c.Some? && at[v].c.value.x == at[w].c.value.x)
  {
    RunInv(sys, ws);
    AgreeAt(sys, ws[|ws| - 1], v, w);
  }

  lemma AgreeAt(sys: Good, a: World, v: Node, w: Node)
    requires Intact(sys) && Inv(sys, a) && v in sys.good && w in sys.good
    ensures v in a.at && w in a.at &&
            (a.at[v].phase == EXTERNALIZE && a.at[w].phase == EXTERNALIZE ==>
               a.at[v].c.Some? && a.at[w].c.Some? && a.at[v].c.value.x == a.at[w].c.value.x)
  {
    if a.at[v].phase == EXTERNALIZE && a.at[w].phase == EXTERNALIZE {
      ExternalizedOrigin(sys, a, v);
      ExternalizedOrigin(sys, a, w);
      var c, d := a.at[v].c.value, a.at[w].c.value;
      OriginsAgree(sys, a.log, c.x, c.n, d.x, d.n);
    }
  }
}
