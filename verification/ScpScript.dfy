/** Runs told in advance: who acts when, having heard what. */
module ScpScript {
  import opened ScpQuorum
  import opened ScpStatement
  import opened ScpNode
  import opened ScpWorld

  /**
   * Node n is at stage(n, i) after i actions of its own, and does action(n, i) next.
   * At time k it is order(k) that acts, has(n, k) is how often n has acted before,
   * and heard(k) says of which nodes it has heard, and after how many of their actions.
   */
  datatype Script = Script(sys: Good, length: nat, stage: (Node, nat) -> Local, action: (Node, nat) -> Action,
                           order: nat -> Node, has: (Node, nat) -> nat, heard: nat -> map<Node, nat>)

  function Said(s: Local): (st: Statement) {
    if Sound(s) then StatementOf(s) else Externalize(Ballot(0, 0), 0)
  }

  /** The view of someone who has heard good nodes that have not externalized. */
  function Hears(sc: Script, heard: map<Node, nat>): (v: View) {
    View(map n | n in heard :: Said(sc.stage(n, heard[n])), map n | n in heard && n in sc.sys.q :: sc.sys.q[n])
  }

  function Now(sc: Script, n: Node, k: nat): (s: Local) {
    sc.stage(n, sc.has(n, k))
  }

  function Does(sc: Script, k: nat): (a: Action) {
    sc.action(sc.order(k), sc.has(sc.order(k), k))
  }

  ghost predicate Counts(sc: Script) {
    (forall n :: n in sc.sys.good ==> sc.has(n, 0) == 0 && sc.stage(n, 0) == FRESH) &&
    forall k: nat, n :: k < sc.length && n in sc.sys.good ==>
                          sc.has(n, k + 1) == sc.has(n, k) + if n == sc.order(k) then 1 else 0
  }

  /** What is heard has been said, by nodes that have not externalized. */
  ghost predicate HeardSaid(sc: Script, k: nat) {
    forall n :: n in sc.heard(k) ==> n in sc.sys.good && 0 < sc.heard(k)[n] <= sc.has(n, k) &&
                                     Sound(sc.stage(n, sc.heard(k)[n])) &&
                                     sc.stage(n, sc.heard(k)[n]).phase != EXTERNALIZE
  }

  ghost predicate MayAct(sc: Script, k: nat) {
    var w := sc.order(k);
    w in sc.sys.good && Ready(Now(sc, w, k), Does(sc, k)) && Sound(Act(Now(sc, w, k), Does(sc, k))) &&
    Act(Now(sc, w, k), Does(sc, k)) == sc.stage(w, sc.has(w, k) + 1) &&
    Supported(sc.sys, w, Hears(sc, sc.heard(k)), Does(sc, k))
  }

  ghost predicate Plays(sc: Script) {
    Counts(sc) && forall k: nat :: k < sc.length ==> HeardSaid(sc, k) && MayAct(sc, k)
  }

  // ---------- The run of a script ----------

  function Log(sc: Script, k: nat): (log: seq<Event>) {
    if k == 0 then [] else Log(sc, k - 1) + [Event(sc.order(k - 1), Said(Now(sc, sc.order(k - 1), k)))]
  }

  function At(sc: Script, k: nat): (a: World) {
    World(Log(sc, k), map n | n in sc.sys.good :: Now(sc, n, k))
  }

  lemma {:induction false} WasSaid(sc: Script, k: nat, n: Node, i: nat)
    requires Counts(sc) && k <= sc.length && n in sc.sys.good && 0 < i <= sc.has(n, k)
    ensures Event(n, Said(sc.stage(n, i))) in Log(sc, k)
    decreases k
  {
    if i <= sc.has(n, k - 1) {
      WasSaid(sc, k - 1, n, i);
    }
  }

  lemma HearsHonestly(sc: Script, k: nat)
    requires Counts(sc) && k <= sc.length && HeardSaid(sc, k)
    ensures Honest(sc.sys, Log(sc, k), Hears(sc, sc.heard(k)))
  {
    var v := Hears(sc, sc.heard(k));
    forall n | n in v.st && n in sc.sys.good ensures Event(n, v.st[n]) in Log(sc, k) {
      WasSaid(sc, k, n, sc.heard(k)[n]);
    }
  }

  lemma PlayStep(sc: Script, k: nat)
    requires Plays(sc) && k < sc.length
    ensures StepBy(sc.sys, At(sc, k), At(sc, k + 1), sc.order(k), Hears(sc, sc.heard(k)), Does(sc, k))
  {
    HearsHonestly(sc, k);
    var w := sc.order(k);
    var s := Act(Now(sc, w, k), Does(sc, k));
    assert MayAct(sc, k);
    assert At(sc, k + 1).at == At(sc, k).at[w := s];
  }

  lemma PlaySteps(sc: Script, k: nat, a: World, b: World)
    requires Plays(sc) && k < sc.length && a == At(sc, k) && b == At(sc, k + 1)
    ensures Step(sc.sys, a, b)
  {
    PlayStep(sc, k);
  }

  lemma PlayStarts(sc: Script)
    requires Counts(sc)
    ensures Run(sc.sys, [At(sc, 0)])
  {
    assert Start(sc.sys, At(sc, 0));
  }

  lemma RunSnoc(sys: Good, ws: seq<World>, a: World, b: World)
    requires Run(sys, ws) && ws != [] && ws[|ws| - 1] == a && Step(sys, a, b)
    ensures Run(sys, ws + [b])
  {
    var all := ws + [b];
    assert all[..|all| - 1] == ws && all[|all| - 2] == a && all[|all| - 1] == b;
  }

  lemma {:induction false} PlayRuns(sc: Script, k: nat, a: World) returns (ws: seq<World>)
    requires Plays(sc) && k <= sc.length && a == At(sc, k)
    ensures ws != [] && Run(sc.sys, ws) && ws[|ws| - 1] == a
    decreases k
  {
    if k == 0 {
      ws := [a];
      PlayStarts(sc);
    } else {
      var before := At(sc, k - 1);
      ws := PlayRuns(sc, k - 1, before);
      PlaySteps(sc, k - 1, before, a);
      RunSnoc(sc.sys, ws, before, a);
      ws := ws + [a];
    }
  }

  lemma Play(sc: Script) returns (ws: seq<World>)
    requires Plays(sc)
    ensures ws != [] && Run(sc.sys, ws)
    ensures forall n :: n in sc.sys.good ==> n in ws[|ws| - 1].at && ws[|ws| - 1].at[n] == Now(sc, n, sc.length)
  {
    ws := PlayRuns(sc, sc.length, At(sc, sc.length));
  }

  lemma HonestLater(sys: Good, log: seq<Event>, e: Event, v: View)
    requires Honest(sys, log, v)
    ensures Honest(sys, log + [e], v)
  {
  }

  lemma PlayEnd(sc: Script, k: nat, a: World, b: World, v: View)
    requires Plays(sc) && k < sc.length && a == At(sc, k) && b == At(sc, k + 1) && v == Hears(sc, sc.heard(k))
    ensures StepBy(sc.sys, a, b, sc.order(k), v, Does(sc, k)) && Honest(sc.sys, b.log, v)
  {
    PlayStep(sc, k);
    HonestLater(sc.sys, a.log, Event(sc.order(k), Said(Now(sc, sc.order(k), k + 1))), v);
  }

  lemma PlayLastWorlds(sc: Script, k: nat, a: World, b: World, v: View) returns (ws: seq<World>)
    requires Plays(sc) && sc.length == k + 1
    requires a == At(sc, k) && b == At(sc, k + 1) && v == Hears(sc, sc.heard(k))
    ensures |ws| > 1 && Run(sc.sys, ws) && ws[|ws| - 2] == a && ws[|ws| - 1] == b
    ensures StepBy(sc.sys, a, b, sc.order(k), v, Does(sc, k)) && Honest(sc.sys, b.log, v)
  {
    ws := PlayRuns(sc, k, a);
    PlaySteps(sc, k, a, b);
    RunSnoc(sc.sys, ws, a, b);
    ws := ws + [b];
    PlayEnd(sc, k, a, b, v);
  }

  /** The same, with the last step that the script tells and what its node had heard. */
  lemma PlayLast(sc: Script, k: nat, w: Node, v: View, act: Action, s: Local) returns (ws: seq<World>)
    requires Plays(sc) && sc.length == k + 1 && w == sc.order(k) && v == Hears(sc, sc.heard(k))
    requires act == Does(sc, k) && s == Now(sc, w, k + 1)
    ensures |ws| > 1 && Run(sc.sys, ws)
    ensures StepBy(sc.sys, ws[|ws| - 2], ws[|ws| - 1], w, v, act) && Honest(sc.sys, ws[|ws| - 1].log, v)
    ensures w in ws[|ws| - 1].at && ws[|ws| - 1].at[w] == s
  {
    ws := PlayLastWorlds(sc, k, At(sc, k), At(sc, k + 1), v);
  }

  // ---------- Support ----------

  /** Where all of a quorum say so, the claim is ratified and can be accepted. */
  lemma AllSay(sys: Good, w: Node, v: View, u: set<Node>, c: Claim)
    requires w in sys.good && Slice(sys.q[w], u) && Closed(u, v.qf)
    requires forall n :: n in u ==> n in v.st && Says(v.st[n], c)
    ensures Ratified(sys, w, v, c)
    ensures forall accepted: Claim :: Accepted(sys, w, v, c, accepted)
  {
    assert u <= Saying(v, c);
    forall accepted: Claim ensures Accepted(sys, w, v, c, accepted) {
      assert u <= Saying(v, accepted) + Saying(v, c);
    }
  }

  lemma HeardSay(sc: Script, heard: map<Node, nat>, w: Node, u: set<Node>, c: Claim)
    requires w in sc.sys.good && Slice(sc.sys.q[w], u)
    requires forall n :: n in u ==> n in heard && n in sc.sys.q && Slice(sc.sys.q[n], u)
    requires forall n :: n in u ==> Says(Said(sc.stage(n, heard[n])), c)
    ensures Ratified(sc.sys, w, Hears(sc, heard), c)
    ensures forall accepted: Claim :: Accepted(sc.sys, w, Hears(sc, heard), c, accepted)
  {
    AllSay(sc.sys, w, Hears(sc, heard), u, c);
  }
}
