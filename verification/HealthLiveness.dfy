/**
 `Stop` returns. Runs are infinite here. Two things are asked of the scheduler and the
 testers: the program goes on as long as it can, which includes that a test returns; and a
 select that could accept the close again and again does so at some point.
 */
module HealthLiveness {
  import opened HealthProtocol

  ghost predicate StepAt(p: Params, b: nat -> State, l: nat -> Step, i: nat) {
    Next(p, b(i), l(i), b(i + 1))
  }

  ghost predicate Behaviour(p: Params, b: nat -> State, l: nat -> Step) {
    Init(b(0)) && forall i: nat :: StepAt(p, b, l, i)
  }

  ghost predicate CanMove(p: Params, s: State) {
    exists step: Step, s': State :: !step.Tick? && Next(p, s, step, s')
  }

  ghost predicate MovesAt(l: nat -> Step, j: nat) {
    !l(j).Tick?
  }

  /** Time does not pass for ever while the program can make a step. */
  ghost predicate GoesOn(p: Params, b: nat -> State, l: nat -> Step) {
    forall i: nat :: CanMove(p, b(i)) ==> exists j: nat :: i <= j && MovesAt(l, j)
  }

  /** The run loop waits in a select with the close case armed, and `Stop` offers a close. */
  ghost predicate CloseReady(s: State) {
    s.stop == Offering && s.run.Selecting? && s.run.closing && s.closing == Open
  }

  ghost predicate ReadyFrom(b: nat -> State, i: nat) {
    exists j: nat :: i <= j && CloseReady(b(j))
  }

  ghost predicate ClosedFrom(l: nat -> Step, i: nat) {
    exists j: nat :: i <= j && l(j).AcceptClose?
  }

  /** A select that is ready to accept a close time and again accepts one time and again. */
  ghost predicate FairSelect(b: nat -> State, l: nat -> Step) {
    (forall i: nat :: ReadyFrom(b, i)) ==> forall i: nat :: ClosedFrom(l, i)
  }

  lemma {:induction false} BehaviourIsSafe(p: Params, b: nat -> State, l: nat -> Step, i: nat)
    requires Behaviour(p, b, l)
    ensures Safe(b(i))
  {
    if i > 0 {
      BehaviourIsSafe(p, b, l, i - 1);
      assert StepAt(p, b, l, i - 1);
      StepKeepsSafe(p, b(i - 1), l(i - 1), b(i));
    }
  }

  /** Only the time differs. */
  ghost predicate SameButTime(s: State, s': State) {
    s' == s.(now := s'.now)
  }

  /** The first step other than a tick, given that there is one. */
  lemma {:induction false} NextMove(p: Params, b: nat -> State, l: nat -> Step, i: nat, k: nat) returns (j: nat)
    requires Behaviour(p, b, l) && i <= k && MovesAt(l, k)
    ensures i <= j && MovesAt(l, j) && SameButTime(b(i), b(j))
    decreases k - i
  {
    if MovesAt(l, i) {
      j := i;
    } else {
      assert StepAt(p, b, l, i);
      j := NextMove(p, b, l, i + 1, k);
    }
  }

  /** The step that a pending `Stop` is waiting for, some time later. */
  lemma StopMoves(p: Params, b: nat -> State, l: nat -> Step, i: nat) returns (j: nat)
    requires Behaviour(p, b, l) && GoesOn(p, b, l) && b(i).stop != Idle && p.frequency > 0 && p.retryTime > 0
    ensures i <= j && MovesAt(l, j) && SameButTime(b(i), b(j)) && Safe(b(j)) && StepAt(p, b, l, j)
  {
    BehaviourIsSafe(p, b, l, i);
    var step, s' := StopNotStuck(p, b(i));
    assert CanMove(p, b(i));
    var k: nat :| i <= k && MovesAt(l, k);
    j := NextMove(p, b, l, i, k);
    BehaviourIsSafe(p, b, l, j);
    assert StepAt(p, b, l, j);
  }

  /** Once the close is accepted every step brings `Stop` closer to its end. */
  lemma AcceptedStep(p: Params, s: State, step: Step, s': State)
    requires Safe(s) && s.stop != Idle && s.stop != Offering && Next(p, s, step, s') && !step.Tick?
    ensures Remaining(s') < Remaining(s) && s'.stop != Offering
  {
  }

  lemma {:induction false} AcceptedFinishes(p: Params, b: nat -> State, l: nat -> Step, i: nat) returns (j: nat)
    requires Behaviour(p, b, l) && GoesOn(p, b, l) && p.frequency > 0 && p.retryTime > 0
    requires b(i).stop != Offering
    ensures i <= j && b(j).stop == Idle
    decreases Remaining(b(i))
  {
    if b(i).stop == Idle {
      j := i;
    } else {
      var k := StopMoves(p, b, l, i);
      AcceptedStep(p, b(k), l(k), b(k + 1));
      j := AcceptedFinishes(p, b, l, k + 1);
    }
  }

  /** While it is offered, every step but a timer brings the run loop closer to the select. */
  lemma OfferedStep(p: Params, s: State, step: Step, s': State)
    requires Safe(s) && s.stop == Offering && !CloseReady(s) && Next(p, s, step, s') && !step.Tick?
    ensures s'.stop == Offering && Remaining(s') < Remaining(s)
  {
  }

  lemma {:induction false} OfferedGetsReady(p: Params, b: nat -> State, l: nat -> Step, i: nat) returns (j: nat)
    requires Behaviour(p, b, l) && GoesOn(p, b, l) && p.frequency > 0 && p.retryTime > 0
    requires b(i).stop == Offering
    ensures i <= j && CloseReady(b(j))
    decreases Remaining(b(i))
  {
    if CloseReady(b(i)) {
      j := i;
    } else {
      var k := StopMoves(p, b, l, i);
      OfferedStep(p, b(k), l(k), b(k + 1));
      j := OfferedGetsReady(p, b, l, k + 1);
    }
  }

  /** An offer stands until it is accepted. */
  lemma {:induction false} OfferStands(p: Params, b: nat -> State, l: nat -> Step, i: nat, k: nat)
    requires Behaviour(p, b, l) && b(i).stop == Offering && !ClosedFrom(l, i) && i <= k
    ensures b(k).stop == Offering
    decreases k
  {
    if k > i {
      OfferStands(p, b, l, i, k - 1);
      assert StepAt(p, b, l, k - 1);
      assert !l(k - 1).AcceptClose?;
    }
  }

  lemma OfferIsAccepted(p: Params, b: nat -> State, l: nat -> Step, i: nat)
    requires Behaviour(p, b, l) && GoesOn(p, b, l) && FairSelect(b, l) && p.frequency > 0 && p.retryTime > 0
    requires b(i).stop == Offering
    ensures ClosedFrom(l, i)
  {
    if !ClosedFrom(l, i) {
      forall k: nat ensures ReadyFrom(b, k) {
        var from := if k < i then i else k;
        OfferStands(p, b, l, i, from);
        var j := OfferedGetsReady(p, b, l, from);
      }
    }
  }

  /** In every fair run every call of `Stop` comes to its end. */
  lemma StopFinishes(p: Params, b: nat -> State, l: nat -> Step, i: nat) returns (j: nat)
    requires Behaviour(p, b, l) && GoesOn(p, b, l) && FairSelect(b, l) && p.frequency > 0 && p.retryTime > 0
    ensures i <= j && b(j).stop == Idle
  {
    if b(i).stop != Offering {
      j := AcceptedFinishes(p, b, l, i);
    } else {
      OfferIsAccepted(p, b, l, i);
      var k: nat :| i <= k && l(k).AcceptClose?;
      assert StepAt(p, b, l, k);
      j := AcceptedFinishes(p, b, l, k + 1);
    }
  }
}
