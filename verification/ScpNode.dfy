/** One node of the ballot protocol: its state and how its state changes. */
module ScpNode {
  import opened ScpStatement

  datatype Phase = PREPARE | CONFIRM | EXTERNALIZE

  /** The current ballot b, the two highest ballots accepted as prepared, and the interval c to h. */
  datatype Local = Local(phase: Phase, b: Option<Ballot>, p: Option<Ballot>, pp: Option<Ballot>,
                         c: Option<Ballot>, h: Option<Ballot>, override: Option<Value>)

  const FRESH := Local(PREPARE, None, None, None, None, None, None)

  /** The ballot of a node that has none yet is the lowest of all. */
  function Current(s: Local): (b: Ballot) {
    if s.b.Some? then s.b.value else Ballot(0, 0)
  }

  function Counter(b: Option<Ballot>): (n: nat) {
    if b.Some? then b.value.n else 0
  }

  // ---------- The invariants that the source asserts ----------

  predicate Sound(s: Local) {
    (s.b.Some? ==> s.b.value.n > 0) &&
    (s.p.Some? && s.pp.Some? ==> LessAndIncompatible(s.pp.value, s.p.value)) &&
    (s.h.Some? ==> s.b.Some? && LessAndCompatible(s.h.value, s.b.value)) &&
    (s.c.Some? ==> s.h.Some? && LessAndCompatible(s.c.value, s.h.value)) &&
    (s.phase != PREPARE ==> s.c.Some? && s.p.Some?)
  }

  function StatementOf(s: Local): (st: Statement)
    requires Sound(s)
  {
    match s.phase
    case PREPARE => Prepare(Current(s), s.p, s.pp, Counter(s.c), Counter(s.h))
    case CONFIRM => Confirm(s.b.value, s.p.value.n, s.c.value.n, s.h.value.n)
    case EXTERNALIZE => Externalize(s.c.value, s.h.value.n)
  }

  lemma StatementWellFormed(s: Local)
    requires Sound(s)
    ensures WellFormed(StatementOf(s))
  {
  }

  // ---------- How the state changes ----------

  function BumpTo(s: Local, ballot: Ballot): (r: Local) {
    s.(b := Some(ballot), h := if s.h.Some? && s.h.value.x != ballot.x then None else s.h)
  }

  function UpdateIfNeeded(s: Local, h: Ballot): (r: Local) {
    if s.b.None? || Lt(s.b.value, h) then BumpTo(s, h) else s
  }

  /** The two highest ballots accepted as prepared that are not compatible. */
  function SetPrepared(s: Local, ballot: Ballot): (r: Local) {
    if s.p.None? then s.(p := Some(ballot))
    else if Lt(s.p.value, ballot) then
      s.(p := Some(ballot), pp := if s.p.value.x != ballot.x then s.p else s.pp)
    else if Lt(ballot, s.p.value) &&
            (s.pp.None? || (Lt(s.pp.value, ballot) && s.p.value.x != ballot.x)) then
      s.(pp := Some(ballot))
    else s
  }

  predicate Aborts(s: Local, k: Ballot) {
    (s.p.Some? && LessAndIncompatible(k, s.p.value)) || (s.pp.Some? && LessAndIncompatible(k, s.pp.value))
  }

  function SetAcceptPrepared(s: Local, ballot: Ballot): (r: Local) {
    var t := SetPrepared(s, ballot);
    if t.c.Some? && t.h.Some? && Aborts(t, t.h.value) then t.(c := None) else t
  }

  function SetConfirmPrepared(s: Local, newC: Option<Ballot>, newH: Ballot): (r: Local) {
    var t := s.(override := Some(newH.x));
    var u :=
      if t.b.None? || t.b.value.x == newH.x then
        t.(h := if t.h.None? || Lt(t.h.value, newH) then Some(newH) else t.h,
           c := if newC.Some? then newC else t.c)
      else t;
    UpdateIfNeeded(u, newH)
  }

  function SetAcceptCommit(s: Local, c: Ballot, h: Ballot): (r: Local) {
    var t := s.(override := Some(h.x), c := Some(c), h := Some(h));
    var u :=
      if s.phase == PREPARE then
        var v := t.(phase := CONFIRM, pp := None);
        if v.b.Some? && !LessAndCompatible(h, v.b.value) then BumpTo(v, h) else v
      else t;
    UpdateIfNeeded(u, h)
  }

  function SetConfirmCommit(s: Local, c: Ballot, h: Ballot): (r: Local) {
    UpdateIfNeeded(s.(c := Some(c), h := Some(h)), h).(phase := EXTERNALIZE)
  }

  // ---------- Actions ----------

  datatype Action =
    | Bump(n: nat, x: Value)
    | AcceptPrepared(ballot: Ballot)
    | ConfirmPrepared(newC: Option<Ballot>, newH: Ballot)
    | AcceptCommit(cx: Value, lo: nat, hi: nat)
    | ConfirmCommit(ex: Value, elo: nat, ehi: nat)

  /** What the node itself asks for before it acts; what it asks of the others comes on top. */
  predicate Ready(s: Local, a: Action) {
    match a
    case Bump(n, x) =>
      var ballot := Ballot(n, if s.override.Some? then s.override.value else x);
      s.phase != EXTERNALIZE &&
      (s.b.None? || Lt(s.b.value, ballot)) && (s.b.Some? && s.c.Some? ==> s.c.value.x == ballot.x)
    case AcceptPrepared(ballot) =>
      s.phase != EXTERNALIZE &&
      (s.phase == CONFIRM ==>
         s.p.Some? && s.c.Some? && LessAndCompatible(s.p.value, ballot) && s.c.value.x == ballot.x) &&
      (s.pp.Some? ==> Lt(s.pp.value, ballot)) && (s.p.Some? ==> !LessAndCompatible(ballot, s.p.value))
    case ConfirmPrepared(newC, newH) =>
      s.phase == PREPARE && s.p.Some? && (s.h.Some? ==> Lt(s.h.value, newH)) &&
      (newC.Some? ==>
         s.c.None? && !Aborts(s, newH) && newC.value.n > 0 &&
         Le(Current(s), newC.value) && LessAndCompatible(newC.value, newH))
    case AcceptCommit(x, lo, hi) =>
      s.phase != EXTERNALIZE && 0 < lo <= hi &&
      (s.phase == CONFIRM ==> s.h.Some? && s.h.value.x == x && s.h.value.n < hi)
    case ConfirmCommit(x, lo, hi) =>
      s.phase == CONFIRM && 0 < lo <= hi && s.c.Some? && s.c.value.x == x
  }

  function Act(s: Local, a: Action): (r: Local) {
    match a
    case Bump(n, x) => BumpTo(s, Ballot(n, if s.override.Some? then s.override.value else x))
    case AcceptPrepared(ballot) => SetAcceptPrepared(s, ballot)
    case ConfirmPrepared(newC, newH) => SetConfirmPrepared(s, newC, newH)
    case AcceptCommit(x, lo, hi) => SetAcceptCommit(s, Ballot(lo, x), Ballot(hi, x))
    case ConfirmCommit(x, lo, hi) => SetConfirmCommit(s, Ballot(lo, x), Ballot(hi, x))
  }
}
