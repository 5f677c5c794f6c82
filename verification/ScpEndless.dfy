/** Later statements as earlier ones with counters that go on without end. */
module ScpEndless {
  import opened ScpStatement

  /** From m on, a node that prepares says c when its ballot and its h are at k. */
  ghost predicate PreparingFrom(x: Value, nP: nat, nC: nat, c: Claim, m: nat) {
    forall k: nat :: m <= k ==> Says(Prepare(Ballot(k, x), Some(Ballot(nP, x)), None, nC, k), c)
  }

  /** From m on, a node that confirms says c when its ballot, p and h are all at k. */
  ghost predicate ConfirmingFrom(n: nat, x: Value, c: Claim, m: nat) {
    forall k: nat :: m <= k ==> Says(Confirm(Ballot(k, x), k, n, k), c)
  }

  /** The claims of the protocol, on ballots and on intervals that are not empty. */
  predicate OfProtocol(c: Claim) {
    match c
    case VotesPrepared(_) | HasPrepared(_) => true
    case VotesCommit(_, lo, hi) => lo <= hi
    case AcceptsCommit(_, lo, hi) => lo <= hi
    case _ => false
  }

  /** To confirm is to vote as one would in the end, preparing with ever higher counters. */
  lemma ConfirmIsEndless(n: nat, x: Value, nP: nat, nC: nat, nH: nat, c: Claim)
    requires nC > 0 && OfProtocol(c) && !c.AcceptsCommit?
    ensures Says(Confirm(Ballot(n, x), nP, nC, nH), c) <==> exists m: nat :: PreparingFrom(x, nP, nC, c, m)
  {
    if Says(Confirm(Ballot(n, x), nP, nC, nH), c) {
      assert PreparingFrom(x, nP, nC, c, Reach(c));
    } else {
      forall m: nat ensures !PreparingFrom(x, nP, nC, c, m) {
        assert !Says(Prepare(Ballot(m, x), Some(Ballot(nP, x)), None, nC, m), c);
      }
    }
  }

  /** To externalize is to say what one would in the end, confirming with ever higher counters. */
  lemma ExternalizeIsEndless(n: nat, x: Value, nH: nat, c: Claim)
    requires OfProtocol(c)
    ensures Says(Externalize(Ballot(n, x), nH), c) <==> exists m: nat :: ConfirmingFrom(n, x, c, m)
  {
    if Says(Externalize(Ballot(n, x), nH), c) {
      assert ConfirmingFrom(n, x, c, Reach(c));
    } else {
      forall m: nat ensures !ConfirmingFrom(n, x, c, m) {
        assert !Says(Confirm(Ballot(m, x), m, n, m), c);
      }
    }
  }

  /** A counter beyond those in the claim. */
  function Reach(c: Claim): (m: nat)
    requires OfProtocol(c)
  {
    match c
    case VotesPrepared(b) => b.n
    case HasPrepared(b) => b.n
    case VotesCommit(_, _, hi) => hi
    case AcceptsCommit(_, _, hi) => hi
  }
}
