/** The nodes together: what they have said, and the steps they take. */
module ScpWorld {
  import opened ScpQuorum
  import opened ScpStatement
  import opened ScpNode

  /** The nodes that follow the protocol, with their quorum sets. All others may say anything. */
  datatype System = System(good: set<Node>, q: map<Node, QSet>)

  type Good = sys: System | sys.good <= sys.q.Keys witness System({}, map[])

  datatype Event = Event(node: Node, st: Statement)

  /** All statements made by good nodes, in order, and where each of these nodes is. */
  datatype World = World(log: seq<Event>, at: map<Node, Local>)

  // ---------- Quorums of good nodes ----------

  /** Enough for some good node, and for every good node in it. */
  ghost predicate Enough(sys: Good, u: set<Node>) {
    (exists w :: w in sys.good && Slice(sys.q[w], u)) &&
    forall w :: w in u && w in sys.good ==> Slice(sys.q[w], u)
  }

  /** The good nodes are enough for each of them, and whatever is enough twice has a good node in common. */
  ghost predicate Intact(sys: Good) {
    (forall w :: w in sys.good ==> Slice(sys.q[w], sys.good)) &&
    forall u: set<Node>, v: set<Node> :: Enough(sys, u) && Enough(sys, v) ==>
      exists w :: w in u && w in v && w in sys.good
  }

  // ---------- What a node has heard ----------

  /** The latest statement of each node, and the quorum sets that go with them. */
  datatype View = View(st: map<Node, Statement>, qf: map<Node, QSet>)

  function Singleton(n: Node): (q: QSet) {
    QSet(1, [n], [])
  }

  /** Of good nodes one hears only what they have said; one that has externalized needs no other. */
  ghost predicate Honest(sys: Good, log: seq<Event>, v: View) {
    (forall n :: n in v.st && n in sys.good ==> Event(n, v.st[n]) in log) &&
    forall n :: n in v.st && n in sys.good && n in v.qf ==>
                  v.qf[n] == if v.st[n].Externalize? then Singleton(n) else sys.q[n]
  }

  ghost function Saying(v: View, c: Claim): (ns: set<Node>) {
    set n | n in v.st && Says(v.st[n], c)
  }

  ghost predicate Accepted(sys: Good, w: Node, v: View, voted: Claim, accepted: Claim)
    requires w in sys.good
  {
    Accepts(sys.q[w], Saying(v, accepted), Saying(v, voted), v.qf)
  }

  ghost predicate Ratified(sys: Good, w: Node, v: View, claim: Claim)
    requires w in sys.good
  {
    HasQuorum(sys.q[w], Saying(v, claim), v.qf)
  }

  /** What the others have to have said for a node to act. */
  ghost predicate Supported(sys: Good, w: Node, v: View, a: Action)
    requires w in sys.good
  {
    match a
    case Bump(_, _) => true
    case AcceptPrepared(b) => Accepted(sys, w, v, VotesPrepared(b), HasPrepared(b))
    case ConfirmPrepared(newC, newH) =>
      Ratified(sys, w, v, HasPrepared(newH)) && (newC.Some? ==> Ratified(sys, w, v, HasPrepared(newC.value)))
    case AcceptCommit(x, lo, hi) => Accepted(sys, w, v, VotesCommit(x, lo, hi), AcceptsCommit(x, lo, hi))
    case ConfirmCommit(x, lo, hi) => Ratified(sys, w, v, AcceptsCommit(x, lo, hi))
  }

  // ---------- Steps and runs ----------

  /** A good node acts on what it has heard, and says where it then is. */
  ghost predicate StepBy(sys: Good, a: World, b: World, w: Node, v: View, act: Action) {
    w in sys.good && w in a.at && Honest(sys, a.log, v) && Ready(a.at[w], act) && Supported(sys, w, v, act) &&
    var s := Act(a.at[w], act);
    Sound(s) && b == World(a.log + [Event(w, StatementOf(s))], a.at[w := s])
  }

  ghost predicate Step(sys: Good, a: World, b: World) {
    exists w, v, act :: StepBy(sys, a, b, w, v, act)
  }

  ghost predicate Start(sys: Good, a: World) {
    a.log == [] && a.at.Keys == sys.good && forall w :: w in sys.good ==> a.at[w] == FRESH
  }

  /** A run, whose last world is any that can be reached. */
  ghost predicate Run(sys: Good, ws: seq<World>) {
    if |ws| <= 1 then |ws| == 1 && Start(sys, ws[0])
    else Run(sys, ws[..|ws| - 1]) && Step(sys, ws[|ws| - 2], ws[|ws| - 1])
  }
}
