/** The assumptions can be met, and runs do come to an end. */
module ScpExample {
  import opened ScpQuorum
  import opened ScpStatement
  import opened ScpNode
  import opened ScpWorld
  import opened ScpScript

  // ---------- Three good nodes of four ----------

  const THREE_OF_FOUR := QSet(3, [0, 1, 2, 3], [])

  lemma HitsOfFour(s: set<Node>)
    ensures Hits([0, 1, 2, 3], s) == (if 0 in s then 1 else 0) + (if 1 in s then 1 else 0)
                                   + (if 2 in s then 1 else 0) + (if 3 in s then 1 else 0)
  {
    assert [0, 1, 2, 3][..3] == [0, 1, 2];
    assert [0, 1, 2][..2] == [0, 1];
    assert [0, 1][..1] == [0];
    assert [0][..0] == [];
    assert Hits([0], s) == if 0 in s then 1 else 0;
    assert Hits([0, 1], s) == Hits([0], s) + if 1 in s then 1 else 0;
    assert Hits([0, 1, 2], s) == Hits([0, 1], s) + if 2 in s then 1 else 0;
  }

  function Four(): (sys: Good) {
    System({0, 1, 2}, map[0 := THREE_OF_FOUR, 1 := THREE_OF_FOUR, 2 := THREE_OF_FOUR])
  }

  lemma SliceOfFour(s: set<Node>)
    ensures Slice(THREE_OF_FOUR, s) <==> Hits([0, 1, 2, 3], s) >= 3
  {
  }

  /** One faulty node among four that each ask for three is no danger. */
  lemma FourIntact()
    ensures Intact(Four())
  {
    var sys := Four();
    HitsOfFour(sys.good);
    SliceOfFour(sys.good);
    forall u: set<Node>, v: set<Node> | Enough(sys, u) && Enough(sys, v)
      ensures exists w :: w in u && w in v && w in sys.good
    {
      HitsOfFour(u);
      HitsOfFour(v);
      SliceOfFour(u);
      SliceOfFour(v);
      assert (0 in u && 0 in v) || (1 in u && 1 in v) || (2 in u && 2 in v);
    }
  }

  // ---------- The three externalize ----------

  /** Where a node is after each of its eight steps towards x: it prepares twice, and commits both ballots. */
  function Stage(x: Value, i: nat): (s: Local)
    requires i <= 8
    ensures Sound(s)
  {
    var b, d := Ballot(1, x), Ballot(2, x);
    if i == 0 then FRESH
    else if i == 1 then Local(PREPARE, Some(b), None, None, None, None, None)
    else if i == 2 then Local(PREPARE, Some(b), Some(b), None, None, None, None)
    else if i == 3 then Local(PREPARE, Some(b), Some(b), None, Some(b), Some(b), Some(x))
    else if i == 4 then Local(PREPARE, Some(d), Some(b), None, Some(b), Some(b), Some(x))
    else if i == 5 then Local(PREPARE, Some(d), Some(d), None, Some(b), Some(b), Some(x))
    else if i == 6 then Local(PREPARE, Some(d), Some(d), None, Some(b), Some(d), Some(x))
    else if i == 7 then Local(CONFIRM, Some(d), Some(d), None, Some(b), Some(d), Some(x))
    else Local(EXTERNALIZE, Some(d), Some(d), None, Some(b), Some(d), Some(x))
  }

  function StageAction(x: Value, i: nat): (a: Action)
    requires i < 8
  {
    var b, d := Ballot(1, x), Ballot(2, x);
    if i == 0 then Bump(1, x)
    else if i == 1 then AcceptPrepared(b)
    else if i == 2 then ConfirmPrepared(Some(b), b)
    else if i == 3 then Bump(2, x)
    else if i == 4 then AcceptPrepared(d)
    else if i == 5 then ConfirmPrepared(None, d)
    else if i == 6 then AcceptCommit(x, 1, 2)
    else ConfirmCommit(x, 1, 2)
  }

  lemma StageActs(x: Value, i: nat)
    requires i < 8
    ensures Ready(Stage(x, i), StageAction(x, i)) && Act(Stage(x, i), StageAction(x, i)) == Stage(x, i + 1)
  {
  }

  /** In each of eight rounds the three act in turn, on what all three have said in the round before. */
  function InTurn(x: Value): (sc: Script) {
    Script(Four(), 24,
           (n: Node, i: nat) => if i <= 8 then Stage(x, i) else FRESH,
           (n: Node, i: nat) => if i < 8 then StageAction(x, i) else StageAction(x, 7),
           (k: nat) => k % 3,
           (n: Node, k: nat) => Turns(n, k),
           (k: nat) => Round(k / 3))
  }

  function Round(r: nat): (heard: map<Node, nat>) {
    if r == 0 then map[] else map[0 := r, 1 := r, 2 := r]
  }

  /** How often n has had its turn before time k. */
  function Turns(n: Node, k: nat): (i: nat) {
    if n < 3 then (k + 2 - n) / 3 else 0
  }

  lemma TurnsStep(n: Node, k: nat)
    requires n < 3
    ensures Turns(n, k + 1) == Turns(n, k) + if n == k % 3 then 1 else 0
  {
  }

  lemma CountsInTurn(x: Value)
    ensures Counts(InTurn(x))
  {
    var sc := InTurn(x);
    forall k: nat, n | k < sc.length && n in sc.sys.good
      ensures sc.has(n, k + 1) == sc.has(n, k) + if n == sc.order(k) then 1 else 0
    {
      TurnsStep(n, k);
    }
  }

  lemma AllThreeSay(x: Value, r: nat, w: Node, c: Claim)
    requires 0 < r <= 8 && w < 3 && Says(StatementOf(Stage(x, r)), c)
    ensures Ratified(Four(), w, Hears(InTurn(x), Round(r)), c)
    ensures forall accepted: Claim :: Accepted(Four(), w, Hears(InTurn(x), Round(r)), c, accepted)
  {
    var u: set<Node> := {0, 1, 2};
    HitsOfFour(u);
    SliceOfFour(u);
    HeardSay(InTurn(x), Round(r), w, u, c);
  }

  lemma RoundSupported(x: Value, r: nat, w: Node)
    requires r < 8 && w < 3
    ensures Supported(Four(), w, Hears(InTurn(x), Round(r)), StageAction(x, r))
  {
    if r == 1 {
      AllThreeSay(x, r, w, VotesPrepared(Ballot(1, x)));
    } else if r == 2 {
      AllThreeSay(x, r, w, HasPrepared(Ballot(1, x)));
    } else if r == 4 {
      AllThreeSay(x, r, w, VotesPrepared(Ballot(2, x)));
    } else if r == 5 {
      AllThreeSay(x, r, w, HasPrepared(Ballot(2, x)));
    } else if r == 6 {
      AllThreeSay(x, r, w, VotesCommit(x, 1, 2));
    } else if r == 7 {
      AllThreeSay(x, r, w, AcceptsCommit(x, 1, 2));
    }
  }

  lemma RoundHeard(x: Value, k: nat, r: nat)
    requires k < 24 && 3 * r <= k < 3 * r + 3
    ensures HeardSaid(InTurn(x), k)
  {
    assert InTurn(x).heard(k) == Round(r);
    assert forall n: Node :: n < 3 ==> r <= Turns(n, k);
  }

  lemma TurnActs(x: Value, k: nat, r: nat, w: Node)
    requires k < 24 && k == 3 * r + w && w < 3
    ensures MayAct(InTurn(x), k)
  {
    var sc := InTurn(x);
    assert sc.order(k) == w && sc.has(w, k) == r && sc.heard(k) == Round(r);
    StageActs(x, r);
    RoundSupported(x, r, w);
  }

  lemma InTurnPlays(x: Value)
    ensures Plays(InTurn(x))
  {
    CountsInTurn(x);
    forall k: nat | k < InTurn(x).length ensures HeardSaid(InTurn(x), k) && MayAct(InTurn(x), k) {
      RoundHeard(x, k, k / 3);
      TurnActs(x, k, k / 3, k % 3);
    }
  }

  /** For every value there is a run in which the three all externalize it. */
  lemma SomeRunExternalizes(x: Value) returns (ws: seq<World>)
    ensures ws != [] && Run(Four(), ws)
    ensures forall n :: n in Four().good ==> n in ws[|ws| - 1].at && ws[|ws| - 1].at[n] == Stage(x, 8)
    ensures Stage(x, 8).phase == EXTERNALIZE
    ensures Stage(x, 8).c == Some(Ballot(1, x)) && Stage(x, 8).h == Some(Ballot(2, x))
  {
    InTurnPlays(x);
    ws := Play(InTurn(x));
    assert forall n: Node :: n < 3 ==> Turns(n, 24) == 8;
  }
}
