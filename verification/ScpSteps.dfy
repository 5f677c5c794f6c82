/** What a node holds and says after each step of a run. */
module ScpSteps {
  import opened ScpQuorum
  import opened ScpStatement
  import opened ScpNode
  import opened ScpWorld
  import opened ScpSoundness

  function Higher(b: Option<Ballot>, k: Ballot): (r: Ballot) {
    if b.Some? && Lt(k, b.value) then b.value else k
  }

  /** While it prepares a node says its ballot, what it has prepared, and the counters of c and h. */
  predicate SaysPreparing(t: Local, st: Statement) {
    t.phase == PREPARE && st.Prepare? && st.prepared == t.p && st.preparedPrime == t.pp &&
    (if t.b.Some? then st.ballot == t.b.value else st.ballot == Ballot(0, 0)) &&
    (if t.c.Some? then st.nC == t.c.value.n else st.nC == 0) &&
    (if t.h.Some? then st.nH == t.h.value.n else st.nH == 0)
  }

  // ---------- The answer to each action ----------

  /** A move to ballot (n, y), where y is the remembered value if there is one. */
  predicate Bumped(s: Local, n: nat, x: Value, t: Local, st: Statement) {
    var k := Ballot(n, if s.override.Some? then s.override.value else x);
    t.phase == s.phase && t.b == Some(k) && t.p == s.p && t.pp == s.pp && t.c == s.c && t.override == s.override &&
    t.h == (if s.h.Some? && s.h.value.x == k.x then s.h else None) &&
    if s.phase == PREPARE then SaysPreparing(t, st)
    else s.p.Some? && s.c.Some? && s.h.Some? && st == Confirm(k, s.p.value.n, s.c.value.n, s.h.value.n)
  }

  /** The pledge is given up exactly when the ballot accepted as prepared aborts it. */
  predicate PreparedAccepted(s: Local, k: Ballot, t: Local, st: Statement) {
    t.phase == s.phase && t.b == s.b && t.h == s.h && t.override == s.override &&
    t.c == (if s.phase == PREPARE && s.h.Some? && LessAndIncompatible(s.h.value, k) then None else s.c) &&
    (t.p == Some(k) || t.pp == Some(k)) &&
    if s.phase == PREPARE then SaysPreparing(t, st)
    else t.b.Some? && t.c.Some? && t.h.Some? && t.p == Some(k) &&
         st == Confirm(t.b.value, k.n, t.c.value.n, t.h.value.n)
  }

  /** On a compatible ballot h becomes the ballot confirmed, and c is set if asked for. */
  predicate PreparedConfirmed(s: Local, newC: Option<Ballot>, newH: Ballot, t: Local, st: Statement) {
    t.p == s.p && t.pp == s.pp && t.override == Some(newH.x) && SaysPreparing(t, st) &&
    if s.b.None? || s.b.value.x == newH.x then
      t.b == Some(Higher(s.b, newH)) && t.h == Some(newH) && t.c == (if newC.Some? then newC else s.c)
    else if Lt(s.b.value, newH) then t.b == Some(newH) && t.h == None && t.c == None
    else t.b == s.b && t.h == s.h && t.c == s.c
  }

  /** The ballot moves to the end of the interval unless it is there or beyond with the same value. */
  predicate CommitAccepted(s: Local, x: Value, lo: nat, hi: nat, t: Local, st: Statement) {
    t.phase == CONFIRM && t.c == Some(Ballot(lo, x)) && t.h == Some(Ballot(hi, x)) && t.override == Some(x) &&
    t.p == s.p && t.pp == None && t.b.Some? && t.p.Some? &&
    t.b == (if s.b.Some? && s.b.value.x == x && hi <= s.b.value.n then s.b else Some(Ballot(hi, x))) &&
    st == Confirm(t.b.value, t.p.value.n, lo, hi)
  }

  predicate CommitConfirmed(s: Local, x: Value, lo: nat, hi: nat, t: Local, st: Statement) {
    t.phase == EXTERNALIZE && t.c == Some(Ballot(lo, x)) && t.h == Some(Ballot(hi, x)) &&
    t.b == Some(Higher(s.b, Ballot(hi, x))) && t.p == s.p && t.pp == None && t.override == s.override &&
    st == Externalize(Ballot(lo, x), hi)
  }

  predicate Answers(s: Local, a: Action, t: Local, st: Statement) {
    match a
    case Bump(n, x) => Bumped(s, n, x, t, st)
    case AcceptPrepared(k) => PreparedAccepted(s, k, t, st)
    case ConfirmPrepared(newC, newH) => PreparedConfirmed(s, newC, newH, t, st)
    case AcceptCommit(x, lo, hi) => CommitAccepted(s, x, lo, hi, t, st)
    case ConfirmCommit(x, lo, hi) => CommitConfirmed(s, x, lo, hi, t, st)
  }

  lemma BumpAnswers(s: Local, n: nat, x: Value)
    requires Sound(s) && Ready(s, Bump(n, x)) && Sound(Act(s, Bump(n, x)))
    ensures Answers(s, Bump(n, x), Act(s, Bump(n, x)), StatementOf(Act(s, Bump(n, x))))
  {
  }

  lemma AcceptPreparedAnswers(s: Local, k: Ballot)
    requires Sound(s) && Clean(s) && Ready(s, AcceptPrepared(k)) && Sound(Act(s, AcceptPrepared(k)))
    ensures Answers(s, AcceptPrepared(k), Act(s, AcceptPrepared(k)), StatementOf(Act(s, AcceptPrepared(k))))
  {
  }

  lemma ConfirmPreparedAnswers(s: Local, newC: Option<Ballot>, newH: Ballot)
    requires Sound(s) && Ready(s, ConfirmPrepared(newC, newH)) && Sound(Act(s, ConfirmPrepared(newC, newH)))
    ensures Answers(s, ConfirmPrepared(newC, newH), Act(s, ConfirmPrepared(newC, newH)),
                    StatementOf(Act(s, ConfirmPrepared(newC, newH))))
  {
  }

  lemma CommitAnswers(s: Local, a: Action)
    requires (a.AcceptCommit? || a.ConfirmCommit?) && Sound(s) && Clean(s) && Ready(s, a) && Sound(Act(s, a))
    ensures Answers(s, a, Act(s, a), StatementOf(Act(s, a)))
  {
  }

  // ---------- Every run ----------

  /** However a run has gone, the next step answers its action: in what the node holds, and in what it says. */
  lemma EveryStepAnswers(sys: Good, ws: seq<World>, b: World, w: Node, v: View, act: Action)
    requires Run(sys, ws) && StepBy(sys, ws[|ws| - 1], b, w, v, act)
    ensures var a := ws[|ws| - 1];
            w in a.at && w in b.at && |b.log| == |a.log| + 1 && b.log[..|a.log|] == a.log &&
            b.log[|a.log|].node == w && Answers(a.at[w], act, b.at[w], b.log[|a.log|].st) &&
            forall n :: n in a.at && n != w ==> n in b.at && b.at[n] == a.at[n]
  {
    RunClean(sys, ws);
    var s := ws[|ws| - 1].at[w];
    match act
    case Bump(n, x) => BumpAnswers(s, n, x);
    case AcceptPrepared(k) => AcceptPreparedAnswers(s, k);
    case ConfirmPrepared(newC, newH) => ConfirmPreparedAnswers(s, newC, newH);
    case AcceptCommit(_, _, _) => CommitAnswers(s, act);
    case ConfirmCommit(_, _, _) => CommitAnswers(s, act);
  }
}
