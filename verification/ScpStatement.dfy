/** Ballots, statements and what statements claim. */
module ScpStatement {

  datatype Option<T> = None | Some(value: T)

  type Value = nat

  datatype Ballot = Ballot(n: nat, x: Value)

  // ---------- Ballots ----------

  /** Ballots are ordered by counter and then by value. */
  predicate Lt(a: Ballot, b: Ballot) {
    a.n < b.n || (a.n == b.n && a.x < b.x)
  }

  predicate Le(a: Ballot, b: Ballot) {
    !Lt(b, a)
  }

  predicate LessAndCompatible(a: Ballot, b: Ballot) {
    Le(a, b) && a.x == b.x
  }

  /** To prepare b is to abort every ballot a of this kind. */
  predicate LessAndIncompatible(a: Ballot, b: Ballot) {
    Le(a, b) && a.x != b.x
  }

  // ---------- Statements ----------

  datatype Statement =
    | Prepare(ballot: Ballot, prepared: Option<Ballot>, preparedPrime: Option<Ballot>, nC: nat, nH: nat)
    | Confirm(ballot: Ballot, nPrepared: nat, nCommit: nat, nH: nat)
    | Externalize(commit: Ballot, nH: nat)

  predicate WellFormed(st: Statement) {
    match st
    case Prepare(b, _, _, nC, nH) => nC != 0 ==> nC <= nH <= b.n
    case Confirm(_, _, nC, nH) => nC <= nH
    case Externalize(_, _) => true
  }

  /** What a statement may claim about ballots. */
  datatype Claim =
    /** votes to prepare b */
    | VotesPrepared(b: Ballot)
    /** accepts b as prepared */
    | HasPrepared(b: Ballot)
    /** votes to commit the ballots (lo, x) to (hi, x) */
    | VotesCommit(x: Value, lo: nat, hi: nat)
    /** accepts to commit them */
    | AcceptsCommit(x: Value, lo: nat, hi: nat)
    /** votes to abort k */
    | VotesAbort(k: Ballot)
    /** accepts k as aborted */
    | AcceptsAbort(k: Ballot)
    /** votes to commit k while still preparing */
    | Pledges(k: Ballot)
    /** votes for the value of k from (k.n, k.x) on without end */
    | Settles(k: Ballot)

  predicate Says(st: Statement, c: Claim) {
    match c
    case VotesPrepared(b) => SaysVotesPrepared(st, b)
    case HasPrepared(b) => SaysHasPrepared(st, b)
    case VotesCommit(x, lo, hi) => SaysVotesCommit(st, x, lo, hi)
    case AcceptsCommit(x, lo, hi) => SaysAcceptsCommit(st, x, lo, hi)
    case VotesAbort(k) => SaysVotesAbort(st, k)
    case AcceptsAbort(k) => SaysAcceptsAbort(st, k)
    case Pledges(k) => st.Prepare? && SaysVotesCommit(st, k.x, k.n, k.n)
    case Settles(k) => SaysSettles(st, k)
  }

  predicate SaysVotesPrepared(st: Statement, b: Ballot) {
    match st
    case Prepare(v, _, _, _, _) => LessAndCompatible(b, v)
    case Confirm(v, _, _, _) => b.x == v.x
    case Externalize(v, _) => b.x == v.x
  }

  predicate SaysHasPrepared(st: Statement, b: Ballot) {
    match st
    case Prepare(_, p, pp, _, _) =>
      (p.Some? && LessAndCompatible(b, p.value)) || (pp.Some? && LessAndCompatible(b, pp.value))
    case Confirm(v, nP, _, _) => LessAndCompatible(b, Ballot(nP, v.x))
    case Externalize(v, _) => b.x == v.x
  }

  predicate SaysVotesCommit(st: Statement, x: Value, lo: nat, hi: nat) {
    match st
    case Prepare(v, _, _, nC, nH) => x == v.x && nC != 0 && nC <= lo && hi <= nH
    case Confirm(v, _, nC, _) => x == v.x && nC <= lo
    case Externalize(v, _) => x == v.x && v.n <= lo
  }

  predicate SaysAcceptsCommit(st: Statement, x: Value, lo: nat, hi: nat) {
    match st
    case Prepare(_, _, _, _, _) => false
    case Confirm(v, _, nC, nH) => x == v.x && nC <= lo && hi <= nH
    case Externalize(v, _) => x == v.x && v.n <= lo
  }

  predicate SaysVotesAbort(st: Statement, k: Ballot) {
    match st
    case Prepare(v, _, _, _, _) => LessAndIncompatible(k, v)
    case Confirm(v, _, _, _) => k.x != v.x
    case Externalize(v, _) => k.x != v.x
  }

  predicate SaysAcceptsAbort(st: Statement, k: Ballot) {
    match st
    case Prepare(_, p, pp, _, _) =>
      (p.Some? && LessAndIncompatible(k, p.value)) || (pp.Some? && LessAndIncompatible(k, pp.value))
    case Confirm(v, nP, _, _) => LessAndIncompatible(k, Ballot(nP, v.x))
    case Externalize(v, _) => k.x != v.x
  }

  predicate SaysSettles(st: Statement, k: Ballot) {
    match st
    case Prepare(_, _, _, _, _) => false
    case Confirm(v, _, nC, _) => v.x == k.x && nC <= k.n
    case Externalize(v, _) => v.x == k.x && v.n <= k.n
  }

  // ---------- What follows from what ----------

  /** c follows from d in every well-formed statement. */
  ghost predicate Entails(d: Claim, c: Claim) {
    forall st :: WellFormed(st) && Says(st, d) ==> Says(st, c)
  }

  lemma PreparedAborts(b: Ballot, k: Ballot)
    requires LessAndIncompatible(k, b)
    ensures Entails(VotesPrepared(b), VotesAbort(k)) && Entails(HasPrepared(b), AcceptsAbort(k))
  {
  }

  lemma PreparedDown(b: Ballot, k: Ballot)
    requires LessAndCompatible(k, b)
    ensures Entails(VotesPrepared(b), VotesPrepared(k)) && Entails(HasPrepared(b), HasPrepared(k))
  {
  }

  lemma CommitVotesPrepare(x: Value, lo: nat, hi: nat, k: nat)
    requires lo <= hi && k <= hi
    ensures Entails(VotesCommit(x, lo, hi), VotesPrepared(Ballot(k, x)))
  {
  }

  lemma SettledVotes(k: Ballot, a: Ballot, m: nat)
    requires a.x != k.x
    ensures Entails(Settles(k), VotesAbort(a)) && Entails(Settles(k), VotesPrepared(Ballot(m, k.x)))
  {
  }
}
