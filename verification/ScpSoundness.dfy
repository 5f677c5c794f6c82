/** When the actions of a node keep the invariants that the source asserts. */
module ScpSoundness {
  import opened ScpQuorum
  import opened ScpStatement
  import opened ScpNode
  import opened ScpWorld

  // ---------- One action ----------

  /** What a node would have to check before it acts. */
  predicate Safe(s: Local, a: Action)
    requires Sound(s)
  {
    match a
    case Bump(n, _) => s.b.None? ==> n > 0
    case AcceptPrepared(ballot) =>
      s.pp.Some? ==> if s.phase == PREPARE then s.p.Some? || s.pp.value.x != ballot.x
                     else !LessAndIncompatible(s.h.value, s.pp.value)
    case ConfirmPrepared(_, newH) =>
      (s.b.None? ==> newH.n > 0) && (s.c.Some? && s.b.value.x != newH.x ==> !Lt(s.b.value, newH))
    case AcceptCommit(_, _, _) => s.p.Some?
    case ConfirmCommit(_, _, _) => true
  }

  /** An action that a node is ready for keeps the invariants exactly when it is safe. */
  lemma SoundIff(s: Local, a: Action)
    requires Sound(s) && Ready(s, a)
    ensures Sound(Act(s, a)) <==> Safe(s, a)
  {
  }

  // ---------- Every run ----------

  /**
   * There is no p' without p. A node that prepares would commit nothing that it has accepted as aborted;
   * afterwards it has no p'.
   */
  predicate Clean(s: Local) {
    (s.pp.Some? ==> s.p.Some?) &&
    if s.phase == PREPARE then s.c.Some? && s.h.Some? ==> !Aborts(s, s.h.value) else s.pp.None?
  }

  lemma CleanStep(s: Local, a: Action)
    requires Sound(s) && Clean(s) && Ready(s, a) && Sound(Act(s, a))
    ensures Clean(Act(s, a))
  {
  }

  lemma {:induction false} RunClean(sys: Good, ws: seq<World>)
    requires Run(sys, ws)
    ensures var at := ws[|ws| - 1].at; at.Keys == sys.good && forall w :: w in at ==> Sound(at[w]) && Clean(at[w])
  {
    if |ws| > 1 {
      RunClean(sys, ws[..|ws| - 1]);
      var a, b := ws[|ws| - 2], ws[|ws| - 1];
      assert ws[..|ws| - 1][|ws| - 2] == a;
      var w, v, act :| StepBy(sys, a, b, w, v, act);
      CleanStep(a.at[w], act);
    }
  }

  /** Accepting a ballot as prepared is safe in every run. */
  lemma AcceptingSafe(sys: Good, ws: seq<World>, w: Node, ballot: Ballot)
    requires Run(sys, ws) && w in sys.good && w in ws[|ws| - 1].at && Ready(ws[|ws| - 1].at[w], AcceptPrepared(ballot))
    ensures Sound(Act(ws[|ws| - 1].at[w], AcceptPrepared(ballot)))
  {
    RunClean(sys, ws);
    SoundIff(ws[|ws| - 1].at[w], AcceptPrepared(ballot));
  }

  /** Confirming a ballot as prepared is safe in every run for a node that need not first accept it itself. */
  lemma ConfirmingSafe(sys: Good, ws: seq<World>, w: Node, newC: Option<Ballot>, newH: Ballot)
    requires Run(sys, ws) && w in sys.good && w in ws[|ws| - 1].at && newH.n > 0
    requires var s := ws[|ws| - 1].at[w]; Ready(s, ConfirmPrepared(newC, newH)) && !Ready(s, AcceptPrepared(newH))
    ensures Sound(Act(ws[|ws| - 1].at[w], ConfirmPrepared(newC, newH)))
  {
    RunClean(sys, ws);
    SoundIff(ws[|ws| - 1].at[w], ConfirmPrepared(newC, newH));
  }
}
