/** What p and p' are: the two highest ballots accepted as prepared that are not compatible. */
module ScpPrepared {
  import opened ScpStatement
  import opened ScpNode

  predicate Highest(b: Ballot, bs: seq<Ballot>) {
    b in bs && forall k :: k in bs ==> Le(k, b)
  }

  /** p is the highest of the ballots, and p' the highest of those that are not compatible with p. */
  predicate TwoHighest(p: Option<Ballot>, pp: Option<Ballot>, bs: seq<Ballot>) {
    if p.None? then bs == [] && pp.None?
    else
      Highest(p.value, bs) &&
      if pp.None? then forall k :: k in bs ==> k.x == p.value.x
      else pp.value in bs && pp.value.x != p.value.x && forall k :: k in bs && k.x != p.value.x ==> Le(k, pp.value)
  }

  /** setPrepared keeps the two highest exactly when there is a p', or the ballot is not below a compatible p. */
  lemma SetPreparedIff(s: Local, bs: seq<Ballot>, ballot: Ballot)
    requires TwoHighest(s.p, s.pp, bs)
    ensures var t := SetPrepared(s, ballot);
            TwoHighest(t.p, t.pp, bs + [ballot]) <==>
            s.p.None? || s.pp.Some? || !(Lt(ballot, s.p.value) && ballot.x == s.p.value.x)
  {
    var t, all := SetPrepared(s, ballot), bs + [ballot];
    assert forall k :: k in all <==> k in bs || k == ballot;
  }

  /** A ballot that a preparing node does not even consider would change nothing. */
  lemma NotReady(s: Local, bs: seq<Ballot>, ballot: Ballot)
    requires s.phase == PREPARE && TwoHighest(s.p, s.pp, bs) && !Ready(s, AcceptPrepared(ballot))
    ensures TwoHighest(s.p, s.pp, bs + [ballot])
  {
    var all := bs + [ballot];
    assert forall k :: k in all <==> k in bs || k == ballot;
  }

  /** A node that is offered ballots one after the other, and accepts each that it is ready for. */
  function Offered(s: Local, bs: seq<Ballot>): (t: Local) {
    if bs == [] then s
    else
      var t := Offered(s, bs[..|bs| - 1]);
      if Ready(t, AcceptPrepared(bs[|bs| - 1])) then SetAcceptPrepared(t, bs[|bs| - 1]) else t
  }

  /** Whatever ballots a preparing node is offered, in whatever order, p and p' are the two highest of them. */
  lemma {:induction false} PreparedAreHighest(s: Local, bs: seq<Ballot>)
    requires s.phase == PREPARE && s.p.None? && s.pp.None?
    ensures var t := Offered(s, bs); t.phase == PREPARE && TwoHighest(t.p, t.pp, bs)
  {
    if bs != [] {
      var n := |bs| - 1;
      PreparedAreHighest(s, bs[..n]);
      var t := Offered(s, bs[..n]);
      assert bs == bs[..n] + [bs[n]];
      if Ready(t, AcceptPrepared(bs[n])) {
        SetPreparedIff(t, bs[..n], bs[n]);
      } else {
        NotReady(t, bs[..n], bs[n]);
      }
    }
  }
}
