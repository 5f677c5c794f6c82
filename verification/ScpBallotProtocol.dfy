/** The ballot protocol object: the updates of a node's state, field by field. */
module ScpBallotProtocol {
  import opened ScpStatement
  import opened ScpNode

  class BallotProtocol {
    var phase: Phase
    var currentBallot: Option<Ballot>
    var prepared: Option<Ballot>
    var preparedPrime: Option<Ballot>
    var commit: Option<Ballot>
    var highBallot: Option<Ballot>
    var valueOverride: Option<Value>

    ghost function View(): (s: Local)
      reads this
    {
      Local(phase, currentBallot, prepared, preparedPrime, commit, highBallot, valueOverride)
    }

    constructor ()
      ensures View() == FRESH
    {
      phase := PREPARE;
      currentBallot, prepared, preparedPrime, commit, highBallot := None, None, None, None, None;
      valueOverride := None;
    }

    method BumpToBallot(ballot: Ballot)
      modifies this
      ensures View() == BumpTo(old(View()), ballot)
    {
      currentBallot := Some(ballot);
      if highBallot.Some? && ballot.x != highBallot.value.x {
        highBallot := None;
      }
    }

    method UpdateCurrentIfNeeded(h: Ballot) returns (didWork: bool)
      modifies this
      ensures View() == UpdateIfNeeded(old(View()), h)
      ensures didWork <==> old(currentBallot).None? || Lt(old(currentBallot).value, h)
    {
      didWork := false;
      if currentBallot.None? || Lt(currentBallot.value, h) {
        BumpToBallot(h);
        didWork := true;
      }
    }

    /** False where the source refuses the ballot; otherwise the ballot is the current one. */
    method UpdateCurrentValue(ballot: Ballot) returns (updated: bool)
      modifies this
      ensures updated <==> old(phase) != EXTERNALIZE && (old(currentBallot).None? ||
                             (Lt(old(currentBallot).value, ballot) &&
                              (old(commit).Some? ==> old(commit).value.x == ballot.x)))
      ensures View() == if updated then BumpTo(old(View()), ballot) else old(View())
    {
      if phase != PREPARE && phase != CONFIRM {
        return false;
      }
      updated := false;
      if currentBallot.None? {
        BumpToBallot(ballot);
        updated := true;
      } else {
        if commit.Some? && commit.value.x != ballot.x {
          return false;
        }
        if Lt(currentBallot.value, ballot) {
          BumpToBallot(ballot);
          updated := true;
        }
      }
    }

    method BumpState(value: Value, n: nat) returns (updated: bool)
      modifies this
      ensures updated <==> Ready(old(View()), Bump(n, value))
      ensures View() == if updated then Act(old(View()), Bump(n, value)) else old(View())
    {
      var newb := Ballot(n, if valueOverride.Some? then valueOverride.value else value);
      updated := UpdateCurrentValue(newb);
    }

    method SetPreparedBallot(ballot: Ballot) returns (didWork: bool)
      modifies this
      ensures View() == SetPrepared(old(View()), ballot) && (didWork <==> View() != old(View()))
    {
      didWork := false;
      if prepared.Some? {
        if Lt(prepared.value, ballot) {
          if prepared.value.x != ballot.x {
            preparedPrime := prepared;
          }
          prepared := Some(ballot);
          didWork := true;
        } else if Lt(ballot, prepared.value) {
          if preparedPrime.None? || (Lt(preparedPrime.value, ballot) && prepared.value.x != ballot.x) {
            preparedPrime := Some(ballot);
            didWork := true;
          }
        }
      } else {
        prepared := Some(ballot);
        didWork := true;
      }
    }

    method SetAccepted(ballot: Ballot) returns (didWork: bool)
      modifies this
      ensures View() == SetAcceptPrepared(old(View()), ballot) && (didWork <==> View() != old(View()))
    {
      didWork := SetPreparedBallot(ballot);
      if commit.Some? && highBallot.Some? {
        if (prepared.Some? && LessAndIncompatible(highBallot.value, prepared.value)) ||
           (preparedPrime.Some? && LessAndIncompatible(highBallot.value, preparedPrime.value)) {
          commit := None;
          didWork := true;
        }
      }
    }

    method SetConfirmed(newC: Option<Ballot>, newH: Ballot) returns (didWork: bool)
      modifies this
      ensures View() == SetConfirmPrepared(old(View()), newC, newH)
      ensures didWork <==> View() != old(View()).(override := Some(newH.x)) ||
                           (newC.Some? && (old(currentBallot).None? || old(currentBallot).value.x == newH.x))
    {
      didWork := false;
      valueOverride := Some(newH.x);
      if currentBallot.None? || currentBallot.value.x == newH.x {
        if highBallot.None? || Lt(highBallot.value, newH) {
          didWork := true;
          highBallot := Some(newH);
        }
        if newC.Some? {
          commit := newC;
          didWork := true;
        }
      }
      var bumped := UpdateCurrentIfNeeded(newH);
      didWork := bumped || didWork;
    }

    method SetAcceptedCommit(c: Ballot, h: Ballot) returns (didWork: bool)
      modifies this
      ensures didWork <==> old(phase) == PREPARE || old(highBallot) != Some(h) || old(commit) != Some(c)
      ensures View() == if didWork then SetAcceptCommit(old(View()), c, h) else old(View()).(override := Some(h.x))
    {
      didWork := false;
      valueOverride := Some(h.x);
      if highBallot != Some(h) || commit != Some(c) {
        commit := Some(c);
        highBallot := Some(h);
        didWork := true;
      }
      if phase == PREPARE {
        phase := CONFIRM;
        if currentBallot.Some? && !LessAndCompatible(h, currentBallot.value) {
          BumpToBallot(h);
        }
        preparedPrime := None;
        didWork := true;
      }
      if didWork {
        var _ := UpdateCurrentIfNeeded(h);
      }
    }

    method SetConfirmedCommit(c: Ballot, h: Ballot)
      modifies this
      ensures View() == SetConfirmCommit(old(View()), c, h)
    {
      commit := Some(c);
      highBallot := Some(h);
      var _ := UpdateCurrentIfNeeded(h);
      phase := EXTERNALIZE;
    }
  }
}
