/** A run of an intact network after which a node can break the invariants that the source asserts. */
module ScpMisstep {
  import opened ScpQuorum
  import opened ScpStatement
  import opened ScpNode
  import opened ScpWorld
  import opened ScpScript
  import opened ScpSoundness

  // ---------- Three nodes that need two of them, and one that follows the first ----------

  const TWO_OF_THREE := QSet(2, [1, 2, 3], [])

  function Followed(): (sys: Good) {
    System({0, 1, 2, 3}, map[0 := Singleton(1), 1 := TWO_OF_THREE, 2 := TWO_OF_THREE, 3 := TWO_OF_THREE])
  }

  lemma SliceOfThree(s: set<Node>)
    ensures Slice(TWO_OF_THREE, s) <==> (1 in s && 2 in s) || (1 in s && 3 in s) || (2 in s && 3 in s)
  {
    assert [1, 2, 3][..2] == [1, 2];
    assert [1, 2][..1] == [1];
    assert [1][..0] == [];
    assert Hits([1], s) == if 1 in s then 1 else 0;
    assert Hits([1, 2], s) == Hits([1], s) + if 2 in s then 1 else 0;
  }

  lemma SliceOfFirst(s: set<Node>)
    ensures (Slice(Singleton(1), s) <==> 1 in s) && (Blocking(Singleton(1), s) <==> 1 in s)
  {
    assert [1][..0] == [];
  }

  lemma FollowedIntact()
    ensures Intact(Followed())
  {
    var sys := Followed();
    SliceOfThree(sys.good);
    SliceOfFirst(sys.good);
    forall u: set<Node>, v: set<Node> | Enough(sys, u) && Enough(sys, v)
      ensures exists w :: w in u && w in v && w in sys.good
    {
      SliceOfThree(u);
      SliceOfThree(v);
      SliceOfFirst(u);
      SliceOfFirst(v);
      assert (1 in u && 1 in v) || (2 in u && 2 in v) || (3 in u && 3 in v);
    }
  }

  // ---------- The script ----------

  const X1 := Ballot(1, 7)
  const Y2 := Ballot(2, 8)
  const X3 := Ballot(3, 7)

  function Preparing(b: Ballot, p: Option<Ballot>, pp: Option<Ballot>): (s: Local) {
    Local(PREPARE, Some(b), p, pp, None, None, None)
  }

  /** Node 1 goes from X1 to Y2 to X3, node 2 from X1 to Y2, and node 0 pledges to commit X1. */
  function Stage(n: Node, i: nat): (s: Local) {
    if i == 0 then FRESH
    else if n == 0 then
      if i == 1 then Preparing(X1, None, None)
      else if i == 2 then Preparing(X1, Some(X1), None)
      else Local(PREPARE, Some(X1), Some(if i == 3 then X1 else X3), None, Some(X1), Some(X1), Some(7))
    else if n == 3 then Preparing(X3, None, None)
    else
      if i == 1 then Preparing(X1, None, None)
      else if i == 2 then Preparing(X1, Some(X1), None)
      else if i == 3 then Preparing(Y2, Some(X1), None)
      else if i == 4 then Preparing(Y2, Some(Y2), Some(X1))
      else if i == 5 then Preparing(X3, Some(Y2), Some(X1))
      else Preparing(X3, Some(X3), Some(Y2))
  }

  function Next(n: Node, i: nat): (a: Action) {
    if n == 0 then
      if i == 0 then Bump(1, 7)
      else if i == 1 then AcceptPrepared(X1)
      else if i == 2 then ConfirmPrepared(Some(X1), X1)
      else AcceptPrepared(X3)
    else if n == 3 then Bump(3, 7)
    else
      if i == 0 then Bump(1, 7)
      else if i == 1 then AcceptPrepared(X1)
      else if i == 2 then Bump(2, 8)
      else if i == 3 then AcceptPrepared(Y2)
      else if i == 4 then Bump(3, 7)
      else AcceptPrepared(X3)
  }

  const ORDER: seq<Node> := [1, 2, 1, 2, 0, 0, 0, 1, 2, 1, 2, 1, 3, 1, 0]

  function Has(n: Node, k: nat): (i: nat) {
    if n == 0 then if k <= 4 then 0 else if k == 5 then 1 else if k == 6 then 2 else if k <= 14 then 3 else 4
    else if n == 1 then
      if k == 0 then 0 else if k <= 2 then 1 else if k <= 7 then 2 else if k <= 9 then 3
      else if k <= 11 then 4 else if k <= 13 then 5 else 6
    else if n == 2 then if k <= 1 then 0 else if k <= 3 then 1 else if k <= 8 then 2 else if k <= 10 then 3 else 4
    else if k <= 12 then 0 else 1
  }

  function Heard(k: nat): (heard: map<Node, nat>) {
    if k == 2 || k == 3 then map[1 := 1, 2 := 1]
    else if k == 5 || k == 6 then map[1 := 2, 2 := 2]
    else if k == 9 || k == 10 then map[1 := 3, 2 := 3]
    else if k == 13 then map[1 := 5, 3 := 1]
    else if k == 14 then map[1 := 6, 2 := 4]
    else map[]
  }

  function Overtaken(): (sc: Script) {
    Script(Followed(), 15, (n: Node, i: nat) => Stage(n, i), (n: Node, i: nat) => Next(n, i),
           (k: nat) => if k < 15 then ORDER[k] else 0, (n: Node, k: nat) => Has(n, k), (k: nat) => Heard(k))
  }

  lemma OvertakenCounts()
    ensures Counts(Overtaken())
  {
    var sc := Overtaken();
    forall k: nat, n | k < sc.length && n in sc.sys.good
      ensures sc.has(n, k + 1) == sc.has(n, k) + if n == sc.order(k) then 1 else 0
    {
      HasStep(n, k);
    }
  }

  lemma HasStep(n: Node, k: nat)
    requires k < 15 && n < 4
    ensures Has(n, k + 1) == Has(n, k) + if n == ORDER[k] then 1 else 0
  {
  }

  lemma StageSound(n: Node, i: nat)
    requires n < 4
    ensures Sound(Stage(n, i)) && Stage(n, i).phase == PREPARE
  {
  }

  lemma HeardBefore(k: nat, n: Node)
    requires k < 15 && n in Heard(k)
    ensures n < 4 && 0 < Heard(k)[n] <= Has(n, k)
  {
  }

  lemma OvertakenHeard(k: nat)
    requires k < 15
    ensures HeardSaid(Overtaken(), k)
  {
    var sc := Overtaken();
    forall n | n in sc.heard(k)
      ensures n in sc.sys.good && 0 < sc.heard(k)[n] <= sc.has(n, k)
      ensures Sound(sc.stage(n, sc.heard(k)[n])) && sc.stage(n, sc.heard(k)[n]).phase != EXTERNALIZE
    {
      HeardBefore(k, n);
      StageSound(n, Heard(k)[n]);
    }
  }

  /** Two of the three that have said so are enough for everyone who follows one of them. */
  lemma TwoSay(heard: map<Node, nat>, w: Node, a: Node, b: Node, c: Claim)
    requires w < 4 && a in heard && b in heard && a != b && 1 <= a <= 3 && 1 <= b <= 3 && (w == 0 ==> a == 1)
    requires Says(Said(Stage(a, heard[a])), c) && Says(Said(Stage(b, heard[b])), c)
    ensures Ratified(Followed(), w, Hears(Overtaken(), heard), c)
    ensures forall accepted: Claim :: Accepted(Followed(), w, Hears(Overtaken(), heard), c, accepted)
  {
    SliceOfThree({a, b});
    SliceOfFirst({a, b});
    HeardSay(Overtaken(), heard, w, {a, b}, c);
  }

  /** The node that follows the first accepts what that one has accepted. */
  lemma FirstSays(heard: map<Node, nat>, voted: Claim, accepted: Claim)
    requires 1 in heard && Says(Said(Stage(1, heard[1])), accepted)
    ensures Accepted(Followed(), 0, Hears(Overtaken(), heard), voted, accepted)
  {
    SliceOfFirst(Saying(Hears(Overtaken(), heard), accepted));
  }

  lemma OvertakenSupported(k: nat)
    requires k < 15
    ensures Supported(Followed(), ORDER[k], Hears(Overtaken(), Heard(k)), Next(ORDER[k], Has(ORDER[k], k)))
  {
    if k == 2 || k == 3 {
      TwoSay(Heard(k), ORDER[k], 1, 2, VotesPrepared(X1));
    } else if k == 5 {
      FirstSays(Heard(k), VotesPrepared(X1), HasPrepared(X1));
    } else if k == 6 {
      TwoSay(Heard(k), 0, 1, 2, HasPrepared(X1));
    } else if k == 9 || k == 10 {
      TwoSay(Heard(k), ORDER[k], 1, 2, VotesPrepared(Y2));
    } else if k == 13 {
      TwoSay(Heard(k), 1, 1, 3, VotesPrepared(X3));
    } else if k == 14 {
      FirstSays(Heard(k), VotesPrepared(X3), HasPrepared(X3));
    }
  }

  lemma OvertakenActs(k: nat)
    requires k < 15
    ensures MayAct(Overtaken(), k)
  {
    OvertakenSupported(k);
    NextActs(ORDER[k], Has(ORDER[k], k));
  }

  lemma NextActs(n: Node, i: nat)
    requires n < 4 && (n == 0 ==> i < 4) && (n == 1 ==> i < 6) && (n == 2 ==> i < 4) && (n == 3 ==> i < 1)
    ensures Ready(Stage(n, i), Next(n, i)) && Act(Stage(n, i), Next(n, i)) == Stage(n, i + 1) && Sound(Stage(n, i + 1))
  {
  }

  lemma OvertakenPlays()
    ensures Plays(Overtaken())
  {
    OvertakenCounts();
    forall k: nat | k < Overtaken().length ensures HeardSaid(Overtaken(), k) && MayAct(Overtaken(), k) {
      OvertakenHeard(k);
      OvertakenActs(k);
    }
  }

  // ---------- The step that fails ----------

  /**
   * Node 0 has pledged to commit X1. It hears that node 1 has accepted X3 and Y2, and node 2 Y2. It accepts X3, the
   * highest, which leaves its pledge alone; and then it confirms Y2, which drops the high ballot and not the pledge.
   */
  lemma Misstep() returns (ws: seq<World>, v: View)
    ensures Intact(Followed()) && |ws| > 1 && Run(Followed(), ws)
    ensures StepBy(Followed(), ws[|ws| - 2], ws[|ws| - 1], 0, v, AcceptPrepared(X3))
    ensures 0 in ws[|ws| - 1].at && Sound(ws[|ws| - 1].at[0])
    ensures Honest(Followed(), ws[|ws| - 1].log, v) && Supported(Followed(), 0, v, ConfirmPrepared(None, Y2))
    ensures Ready(ws[|ws| - 1].at[0], ConfirmPrepared(None, Y2))
    ensures !Sound(Act(ws[|ws| - 1].at[0], ConfirmPrepared(None, Y2)))
  {
    FollowedIntact();
    OvertakenPlays();
    v := Hears(Overtaken(), Heard(14));
    ws := PlayLast(Overtaken(), 14, 0, v, AcceptPrepared(X3), Stage(0, 4));
    ConfirmSupported();
    StageBreaks();
  }

  lemma ConfirmSupported()
    ensures Supported(Followed(), 0, Hears(Overtaken(), Heard(14)), ConfirmPrepared(None, Y2))
  {
    TwoSay(Heard(14), 0, 1, 2, HasPrepared(Y2));
  }

  lemma StageBreaks()
    ensures Sound(Stage(0, 4)) && Ready(Stage(0, 4), ConfirmPrepared(None, Y2))
    ensures !Sound(Act(Stage(0, 4), ConfirmPrepared(None, Y2)))
  {
    SoundIff(Stage(0, 4), ConfirmPrepared(None, Y2));
  }
}
