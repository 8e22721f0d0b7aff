/**
 One health test as an interleaving of three goroutines: the run loop, the poll it
 spawns, and a caller of `Stop`. Channels are unbuffered, so a send and its receive
 are one step. Calls of `Stop` are serialised by the test runner's mutex.
 */
module HealthProtocol {
  import opened Common

  /** One second in nanoseconds. */
  const SECOND := 1_000_000_000

  datatype Params = Params(frequency: int, retryTime: int, timeout: int, retries: int, healthyInitially: bool)

  /** `NewTest` raises the three durations to at least one second. */
  function Clamp(p: Params): (c: Params)
    ensures c.frequency >= 1_000_000_000 && (c.frequency == p.frequency || p.frequency < c.frequency == 1_000_000_000)
    ensures c.retryTime >= 1_000_000_000 && (c.retryTime == p.retryTime || p.retryTime < c.retryTime == 1_000_000_000)
    ensures c.timeout >= 1_000_000_000 && (c.timeout == p.timeout || p.timeout < c.timeout == 1_000_000_000)
    ensures c.retries == p.retries && c.healthyInitially == p.healthyInitially
  {
    p.(frequency := Max(p.frequency, SECOND),
       retryTime := Max(p.retryTime, SECOND),
       timeout := Max(p.timeout, SECOND))
  }

  /** A channel field of the test. Times are nanoseconds since Go's zero time. */
  datatype Chan = Nil | Open | Closed

  /** Where the run loop is. In `Selecting`, `closing` says whether the close case is armed. */
  datatype RunPc = NotStarted | Launching | LoopTop | Selecting(closing: bool, timer: Option<int>) | Replying | Exited

  datatype PollPc = Testing | Sending(result: bool)

  /** Where a call of `Stop` is; `Idle` when there is none. */
  datatype StopPc = Idle | Offering | AwaitingReply | CloseClosing | ClearClosing | CloseHealth | ClearHealth

  /**
   `fault` is a panic: a send on a closed channel, or a close of one that is not open.
   `starts` and `results` record the poll start times and the results delivered.
   */
  datatype State = State(
    now: int,
    closing: Chan,
    health: Chan,
    run: RunPc,
    polls: seq<PollPc>,
    stop: StopPc,
    pollStart: Option<int>,
    nextPoll: int,
    failCount: nat,
    healthy: bool,
    fault: bool,
    starts: seq<int>,
    results: seq<bool>)

  datatype Step =
    | Tick(time: int)
    | Start
    | Launch(delay: int)
    | Arm
    | FireTimer
    | TestReturns(i: nat, result: bool)
    | SendResult(i: nat)
    | CallStop
    | AcceptClose
    | Reply
    | DoCloseClosing
    | DoClearClosing
    | DoCloseHealth
    | DoClearHealth

  /** A test as `addTest` starts it; its first health is copied from the test added. */
  ghost predicate Init(s: State) {
    && s.closing == Nil && s.health == Nil && s.run == NotStarted && s.polls == [] && s.stop == Idle
    && s.pollStart == None && s.failCount == 0 && !s.fault
    && s.starts == [] && s.results == []
  }

  /** What the run loop does with a poll result. */
  function AfterResult(p: Params, s: State, h: bool): (s': State)
  {
    var fails := if h then 0 else s.failCount + 1;
    var down := !h && fails >= p.retries;
    s.(healthy := if h then true else if down then false else s.healthy,
       failCount := fails,
       nextPoll := (if s.pollStart.Some? then s.pollStart.value else 0) + (if down then p.retryTime else p.frequency),
       pollStart := None,
       run := LoopTop,
       results := s.results + [h])
  }

  /** The cases of the next select: close and timer only while no poll is under way. */
  function Armed(s: State): (pc: RunPc) {
    if s.pollStart.None? then Selecting(true, Some(Max(s.now, s.nextPoll))) else Selecting(false, None)
  }

  function Drop(polls: seq<PollPc>, i: nat): (r: seq<PollPc>)
    requires i < |polls|
  {
    polls[..i] + polls[i + 1..]
  }

  /** Poll `i` sends its result: a nil channel blocks for ever, a closed one panics. */
  ghost predicate Send(p: Params, s: State, i: nat, s': State)
    requires i < |s.polls| && s.polls[i].Sending?
  {
    match s.health
    case Nil => false
    case Closed => s' == s.(fault := true)
    case Open => s.run.Selecting? && s' == AfterResult(p, s, s.polls[i].result).(polls := Drop(s.polls, i))
  }

  ghost predicate Next(p: Params, s: State, step: Step, s': State) {
    match step
    case Tick(t) => s.now <= t && s' == s.(now := t)
    case Start => s.run == NotStarted && s' == s.(closing := Open, health := Open, run := Launching)
    case Launch(delay) =>
      && s.run == Launching
      && 0 <= delay < (if s.healthy then p.frequency else p.retryTime)
      && s' == s.(nextPoll := s.now + delay, pollStart := None, failCount := 0, run := LoopTop)
    case Arm =>
      && s.run == LoopTop
      && s' == s.(run := Armed(s))
    case FireTimer =>
      && s.run.Selecting? && s.run.timer.Some? && s.now >= s.run.timer.value
      && s' == s.(pollStart := Some(s.now), polls := s.polls + [Testing], run := LoopTop, starts := s.starts + [s.now])
    case TestReturns(i, r) =>
      i < |s.polls| && s.polls[i] == Testing && s' == s.(polls := s.polls[i := Sending(r)])
    case SendResult(i) => i < |s.polls| && s.polls[i].Sending? && Send(p, s, i, s')
    case CallStop => s.stop == Idle && s.closing == Open && s' == s.(stop := Offering)
    case AcceptClose =>
      && s.stop == Offering && s.run.Selecting? && s.run.closing && s.closing == Open
      && s' == s.(run := Replying, stop := AwaitingReply)
    case Reply =>
      s.run == Replying && s.stop == AwaitingReply && s' == s.(run := Exited, stop := CloseClosing)
    case DoCloseClosing =>
      && s.stop == CloseClosing
      && s' == s.(closing := Closed, stop := ClearClosing, fault := s.fault || s.closing != Open)
    case DoClearClosing => s.stop == ClearClosing && s' == s.(closing := Nil, stop := CloseHealth)
    case DoCloseHealth =>
      && s.stop == CloseHealth
      && s' == s.(health := Closed, stop := ClearHealth, fault := s.fault || s.health != Open)
    case DoClearHealth => s.stop == ClearHealth && s' == s.(health := Nil, stop := Idle)
  }

  /** Consecutive states are connected by the steps. */
  ghost predicate Follows(p: Params, trace: seq<State>, steps: seq<Step>) {
    |trace| == |steps| + 1 && forall i :: 0 <= i < |steps| ==> Next(p, trace[i], steps[i], trace[i + 1])
  }

  /** A finite run of the system. */
  ghost predicate Run(p: Params, trace: seq<State>, steps: seq<Step>) {
    Follows(p, trace, steps) && Init(trace[0])
  }

  // ---------- safety ----------

  /** Which channels are open, by where the run loop and `Stop` are. */
  ghost predicate ChannelsFit(s: State) {
    match s.run
    case NotStarted => s.closing == Nil && s.health == Nil && s.stop == Idle
    case Replying => s.closing == Open && s.health == Open && s.stop == AwaitingReply
    case Exited =>
      (match s.stop
       case CloseClosing => s.closing == Open && s.health == Open
       case ClearClosing => s.closing == Closed && s.health == Open
       case CloseHealth => s.closing == Nil && s.health == Open
       case ClearHealth => s.closing == Nil && s.health == Closed
       case Idle => s.closing == Nil && s.health == Nil
       case _ => false)
    case _ => s.closing == Open && s.health == Open && (s.stop == Idle || s.stop == Offering)
  }

  /** A poll is in flight exactly while `pollStart` is set, and only while the loop runs. */
  ghost predicate PollsFit(s: State) {
    && |s.polls| <= 1
    && (s.polls != [] <==> s.pollStart.Some?)
    && (s.pollStart.Some? ==> s.run == LoopTop || s.run.Selecting?)
    && (s.run.Selecting? ==>
          && (s.run.closing <==> s.pollStart.None?)
          && (s.run.timer.Some? <==> s.pollStart.None?))
  }

  ghost predicate Safe(s: State) {
    ChannelsFit(s) && PollsFit(s) && !s.fault
  }

  lemma StepKeepsSafe(p: Params, s: State, step: Step, s': State)
    requires Safe(s) && Next(p, s, step, s')
    ensures Safe(s')
  {
  }

  lemma {:induction false} RunIsSafe(p: Params, trace: seq<State>, steps: seq<Step>, k: nat)
    requires Run(p, trace, steps) && k < |trace|
    ensures Safe(trace[k])
  {
    if k > 0 {
      RunIsSafe(p, trace, steps, k - 1);
      assert Next(p, trace[k - 1], steps[k - 1], trace[k]);
      StepKeepsSafe(p, trace[k - 1], steps[k - 1], trace[k]);
    }
  }

  /**
   In every state of every interleaving: at most one poll is in flight; it is in
   flight exactly when `pollStart` is set; a poll about to send finds an open channel;
   a close is accepted only with no poll outstanding; and nothing has panicked.
   */
  lemma PollProtocol(p: Params, trace: seq<State>, steps: seq<Step>, k: nat)
    requires Run(p, trace, steps) && k < |trace|
    ensures var s := trace[k];
            && |s.polls| <= 1
            && (|s.polls| == 1 <==> s.pollStart.Some?)
            && (s.polls != [] ==> s.health == Open)
            && (k < |steps| && steps[k].AcceptClose? ==> s.polls == [])
            && !s.fault
  {
    RunIsSafe(p, trace, steps, k);
    if k < |steps| {
      assert Next(p, trace[k], steps[k], trace[k + 1]);
    }
  }

  // ---------- progress of Stop ----------

  /** How many steps a pending `Stop` still needs at most. */
  ghost function Remaining(s: State): (n: nat) {
    match s.stop
    case Idle => 0
    case ClearHealth => 1
    case CloseHealth => 2
    case ClearClosing => 3
    case CloseClosing => 4
    case AwaitingReply => 5
    case Offering =>
      6 + (if s.run.Launching? then 2
           else if s.pollStart.None? then (if s.run.LoopTop? then 1 else 0)
           else 3 + (if s.polls == [Testing] then 1 else 0) + (if s.run.LoopTop? then 1 else 0))
  }

  /** A pending `Stop` is never stuck: some step of the program brings it closer to its end. */
  lemma StopNotStuck(p: Params, s: State) returns (step: Step, s': State)
    requires Safe(s) && s.stop != Idle && p.frequency > 0 && p.retryTime > 0
    ensures Next(p, s, step, s') && Remaining(s') < Remaining(s)
  {
    match s.stop
    case AwaitingReply => step, s' := Reply, s.(run := Exited, stop := CloseClosing);
    case CloseClosing => step, s' := DoCloseClosing, s.(closing := Closed, stop := ClearClosing);
    case ClearClosing => step, s' := DoClearClosing, s.(closing := Nil, stop := CloseHealth);
    case CloseHealth => step, s' := DoCloseHealth, s.(health := Closed, stop := ClearHealth);
    case ClearHealth => step, s' := DoClearHealth, s.(health := Nil, stop := Idle);
    case Offering =>
      if s.run.Launching? {
        step, s' := Launch(0), s.(nextPoll := s.now, pollStart := None, failCount := 0, run := LoopTop);
      } else if s.run.LoopTop? {
        step := Arm;
        s' := s.(run := Armed(s));
      } else if s.pollStart.None? {
        step, s' := AcceptClose, s.(run := Replying, stop := AwaitingReply);
      } else if s.polls[0] == Testing {
        step, s' := TestReturns(0, true), s.(polls := s.polls[0 := Sending(true)]);
      } else {
        step, s' := SendResult(0), AfterResult(p, s, s.polls[0].result).(polls := Drop(s.polls, 0));
      }
  }

  /** From every safe state with a `Stop` pending the program can finish it, within 11 steps. */
  lemma {:induction false} StopCanFinish(p: Params, s: State) returns (trace: seq<State>, steps: seq<Step>)
    requires Safe(s) && p.frequency > 0 && p.retryTime > 0
    ensures |trace| == |steps| + 1 && |steps| <= Remaining(s) <= 11 && trace[0] == s
    ensures Follows(p, trace, steps)
    ensures trace[|steps|].stop == Idle && (s.stop != Idle ==> trace[|steps|].run == Exited)
    decreases Remaining(s)
  {
    if s.stop == Idle {
      trace, steps := [s], [];
    } else {
      var step, s' := StopNotStuck(p, s);
      StepKeepsSafe(p, s, step, s');
      var trace', steps' := StopCanFinish(p, s');
      trace, steps := [s] + trace', [step] + steps';
      FollowsCons(p, s, step, trace', steps');
    }
  }

  lemma FollowsCons(p: Params, s: State, step: Step, trace: seq<State>, steps: seq<Step>)
    requires Follows(p, trace, steps) && Next(p, s, step, trace[0])
    ensures Follows(p, [s] + trace, [step] + steps)
  {
    var trace', steps' := [s] + trace, [step] + steps;
    forall i | 0 <= i < |steps'| ensures Next(p, trace'[i], steps'[i], trace'[i + 1]) {
      if i > 0 {
        assert Next(p, trace[i - 1], steps[i - 1], trace[i]);
      }
    }
  }

  // ---------- hysteresis ----------

  function TrailingFailures(rs: seq<bool>): (n: nat) {
    if rs == [] || rs[|rs| - 1] then 0 else 1 + TrailingFailures(rs[..|rs| - 1])
  }

  /** Down after enough failures in a row; else up once there was a success; else as at first. */
  function Verdict(p: Params, initial: bool, rs: seq<bool>): (healthy: bool) {
    if TrailingFailures(rs) >= Max(1, p.retries) then false
    else if true in rs then true
    else initial
  }

  lemma VerdictStep(p: Params, initial: bool, rs: seq<bool>, h: bool)
    ensures TrailingFailures(rs + [h]) == if h then 0 else TrailingFailures(rs) + 1
    ensures Verdict(p, initial, rs + [h]) ==
            if h then true
            else if TrailingFailures(rs) + 1 >= p.retries then false
            else Verdict(p, initial, rs)
  {
    assert (rs + [h])[..|rs|] == rs;
    assert (rs + [h])[|rs|] == h;
  }

  ghost predicate Judges(p: Params, initial: bool, failCount: nat, healthy: bool, results: seq<bool>) {
    failCount == TrailingFailures(results) && healthy == Verdict(p, initial, results)
  }

  ghost predicate Judged(p: Params, initial: bool, s: State) {
    && Judges(p, initial, s.failCount, s.healthy, s.results)
    && (s.run == NotStarted || s.run == Launching ==> s.results == [])
  }

  lemma ResultIsJudged(p: Params, initial: bool, s: State, h: bool)
    requires Judged(p, initial, s)
    ensures Judged(p, initial, AfterResult(p, s, h))
  {
    VerdictStep(p, initial, s.results, h);
  }

  lemma StepKeepsJudged(p: Params, initial: bool, s: State, step: Step, s': State)
    requires Safe(s) && Judged(p, initial, s) && Next(p, s, step, s')
    ensures Judged(p, initial, s')
  {
    if step.SendResult? && s.health == Open {
      ResultIsJudged(p, initial, s, s.polls[step.i].result);
    } else if !step.Launch? {
      assert s'.failCount == s.failCount && s'.healthy == s.healthy && s'.results == s.results;
    }
  }

  /** After any interleaving the health state is the verdict on the results delivered so far. */
  lemma {:induction false} HealthIsVerdict(p: Params, trace: seq<State>, steps: seq<Step>, k: nat)
    requires Run(p, trace, steps) && k < |trace|
    ensures Judged(p, trace[0].healthy, trace[k])
  {
    if k > 0 {
      HealthIsVerdict(p, trace, steps, k - 1);
      RunIsSafe(p, trace, steps, k - 1);
      assert Next(p, trace[k - 1], steps[k - 1], trace[k]);
      StepKeepsJudged(p, trace[0].healthy, trace[k - 1], steps[k - 1], trace[k]);
    }
  }

  // ---------- poll spacing ----------

  function MinGap(p: Params): (n: int) {
    Min(p.frequency, p.retryTime)
  }

  ghost predicate Spaced(p: Params, s: State) {
    && Gaps(s.starts, MinGap(p))
    && (s.run.Selecting? && s.run.timer.Some? ==> s.run.timer.value >= s.nextPoll)
    && (s.run == NotStarted || s.run == Launching ==> s.starts == [])
    && (s.starts != [] ==>
          var last := s.starts[|s.starts| - 1];
          if s.pollStart.Some? then s.pollStart.value == last else s.nextPoll >= last + MinGap(p))
    && (s.starts == [] ==> s.pollStart.None?)
  }

  lemma StepKeepsSpaced(p: Params, s: State, step: Step, s': State)
    requires Safe(s) && Spaced(p, s) && Next(p, s, step, s')
    ensures Spaced(p, s')
  {
    if step.FireTimer? {
      FireKeepsSpaced(p, s, s');
    }
  }

  ghost predicate Gaps(starts: seq<int>, gap: int) {
    forall i :: 0 < i < |starts| ==> starts[i] - starts[i - 1] >= gap
  }

  lemma SpacedSnoc(starts: seq<int>, now: int, gap: int)
    requires Gaps(starts, gap) && (starts != [] ==> now - starts[|starts| - 1] >= gap)
    ensures Gaps(starts + [now], gap)
  {
  }

  /** A poll starts no earlier than `nextPoll`. */
  lemma FireKeepsSpaced(p: Params, s: State, s': State)
    requires Safe(s) && Spaced(p, s) && Next(p, s, FireTimer, s')
    ensures Spaced(p, s')
  {
    SpacedSnoc(s.starts, s.now, MinGap(p));
  }

  lemma {:induction false} RunIsSpaced(p: Params, trace: seq<State>, steps: seq<Step>, k: nat)
    requires Run(p, trace, steps) && k < |trace|
    ensures Spaced(p, trace[k])
  {
    if k > 0 {
      RunIsSpaced(p, trace, steps, k - 1);
      RunIsSafe(p, trace, steps, k - 1);
      assert Next(p, trace[k - 1], steps[k - 1], trace[k]);
      StepKeepsSpaced(p, trace[k - 1], steps[k - 1], trace[k]);
    }
  }

  /** Polls of a test made by `NewTest` start at least one second apart, in every interleaving. */
  lemma PollsOneSecondApart(p: Params, trace: seq<State>, steps: seq<Step>, k: nat, i: nat)
    requires Run(Clamp(p), trace, steps) && k < |trace| && 0 < i < |trace[k].starts|
    ensures trace[k].starts[i] - trace[k].starts[i - 1] >= Min(Clamp(p).frequency, Clamp(p).retryTime) >= SECOND
  {
    RunIsSpaced(Clamp(p), trace, steps, k);
  }

  // ---------- when the next poll is due ----------

  /** How long after the start of a poll the next one is due, by the results so far. */
  function DueAfter(p: Params, rs: seq<bool>): (d: int)
    requires rs != []
  {
    if !rs[|rs| - 1] && TrailingFailures(rs) >= p.retries then p.retryTime else p.frequency
  }

  ghost predicate GapAt(p: Params, starts: seq<int>, results: seq<bool>, i: nat)
    requires 0 < i < |starts| <= |results| + 1
  {
    starts[i] >= starts[i - 1] + DueAfter(p, results[..i])
  }

  ghost predicate GapsKept(p: Params, starts: seq<int>, results: seq<bool>) {
    |starts| <= |results| + 1 && forall i: nat :: 0 < i < |starts| ==> GapAt(p, starts, results, i)
  }

  /** Every result belongs to a start, and `nextPoll` is when the next poll is due. */
  ghost predicate OnTime(p: Params, s: State) {
    && GapsKept(p, s.starts, s.results)
    && |s.starts| == |s.results| + (if s.pollStart.Some? then 1 else 0)
    && (s.pollStart.Some? ==> s.pollStart.value == s.starts[|s.starts| - 1])
    && (s.pollStart.None? && s.starts != [] ==> s.nextPoll == s.starts[|s.starts| - 1] + DueAfter(p, s.results))
    && (s.run.Selecting? && s.run.timer.Some? ==> s.nextPoll <= s.run.timer.value <= Max(s.now, s.nextPoll))
    && (s.run == NotStarted || s.run == Launching ==> s.starts == [])
  }

  lemma GapsStart(p: Params, starts: seq<int>, results: seq<bool>, now: int)
    requires GapsKept(p, starts, results) && |starts| == |results|
    requires starts != [] ==> now >= starts[|starts| - 1] + DueAfter(p, results)
    ensures GapsKept(p, starts + [now], results)
  {
    var starts' := starts + [now];
    forall i: nat | 0 < i < |starts'| ensures GapAt(p, starts', results, i) {
      if i < |starts| {
        assert GapAt(p, starts, results, i);
      } else {
        assert results[..i] == results;
      }
    }
  }

  lemma GapsResult(p: Params, starts: seq<int>, results: seq<bool>, h: bool)
    requires GapsKept(p, starts, results) && |starts| == |results| + 1
    ensures GapsKept(p, starts, results + [h])
  {
    forall i: nat | 0 < i < |starts| ensures GapAt(p, starts, results + [h], i) {
      assert GapAt(p, starts, results, i);
      assert (results + [h])[..i] == results[..i];
    }
  }

  lemma StepKeepsOnTime(p: Params, initial: bool, s: State, step: Step, s': State)
    requires Safe(s) && Judged(p, initial, s) && OnTime(p, s) && Next(p, s, step, s')
    ensures OnTime(p, s')
  {
    if step.SendResult? && s.health == Open {
      ResultOnTime(p, initial, s, s.polls[step.i].result);
    } else if step.FireTimer? {
      GapsStart(p, s.starts, s.results, s.now);
    }
  }

  lemma ResultOnTime(p: Params, initial: bool, s: State, h: bool)
    requires Safe(s) && Judged(p, initial, s) && OnTime(p, s) && s.pollStart.Some?
    ensures OnTime(p, AfterResult(p, s, h))
  {
    GapsResult(p, s.starts, s.results, h);
    VerdictStep(p, initial, s.results, h);
    assert (s.results + [h])[|s.results|] == h;
  }

  lemma {:induction false} RunIsOnTime(p: Params, trace: seq<State>, steps: seq<Step>, k: nat)
    requires Run(p, trace, steps) && k < |trace|
    ensures OnTime(p, trace[k])
  {
    if k > 0 {
      RunIsOnTime(p, trace, steps, k - 1);
      RunIsSafe(p, trace, steps, k - 1);
      HealthIsVerdict(p, trace, steps, k - 1);
      assert Next(p, trace[k - 1], steps[k - 1], trace[k]);
      StepKeepsOnTime(p, trace[0].healthy, trace[k - 1], steps[k - 1], trace[k]);
    }
  }

  /** The last `n` results are failures. */
  ghost predicate LastFailed(rs: seq<bool>, n: nat) {
    n <= |rs| && forall j :: |rs| - n <= j < |rs| ==> !rs[j]
  }

  lemma {:induction false} TrailingIff(rs: seq<bool>, n: nat)
    ensures TrailingFailures(rs) >= n <==> LastFailed(rs, n)
  {
    if rs != [] && n > 0 && !rs[|rs| - 1] {
      var front := rs[..|rs| - 1];
      TrailingIff(front, n - 1);
      if LastFailed(front, n - 1) {
        assert forall j :: |rs| - n <= j < |rs| - 1 ==> front[j] == rs[j];
      }
      if LastFailed(rs, n) {
        assert forall j :: |front| - (n - 1) <= j < |front| ==> front[j] == rs[j];
      }
    }
  }

  /**
   The health in every reachable state: down when the last results are failures, as many as
   the retries and at least one; else up after any success; else as it was at the start.
   */
  lemma HealthWritten(p: Params, trace: seq<State>, steps: seq<Step>, k: nat)
    requires Run(p, trace, steps) && k < |trace|
    ensures var n := if p.retries > 1 then p.retries else 1;
            trace[k].healthy <==>
            !LastFailed(trace[k].results, n) && (true in trace[k].results || trace[0].healthy)
  {
    HealthIsVerdict(p, trace, steps, k);
    TrailingIff(trace[k].results, if p.retries > 1 then p.retries else 1);
  }

  lemma DueWritten(p: Params, rs: seq<bool>)
    requires rs != []
    ensures var n := if p.retries > 1 then p.retries else 1;
            DueAfter(p, rs) == if LastFailed(rs, n) then p.retryTime else p.frequency
  {
    TrailingIff(rs, if p.retries > 1 then p.retries else 1);
  }

  /**
   In every interleaving a poll starts no earlier than the frequency after the one before,
   or the retry time once the last results are failures, as many as the retries.
   */
  lemma PollsNotEarly(p: Params, trace: seq<State>, steps: seq<Step>, k: nat, i: nat)
    requires Run(p, trace, steps) && k < |trace| && 0 < i < |trace[k].starts|
    ensures i <= |trace[k].results|
    ensures var n := if p.retries > 1 then p.retries else 1;
            trace[k].starts[i] >= trace[k].starts[i - 1] +
            (if LastFailed(trace[k].results[..i], n) then p.retryTime else p.frequency)
  {
    var s := trace[k];
    RunIsOnTime(p, trace, steps, k);
    assert GapAt(p, s.starts, s.results, i);
    DueWritten(p, s.results[..i]);
  }

  /** When that time has come, and not before, a waiting run loop can start the next poll. */
  lemma PollIsDue(p: Params, trace: seq<State>, steps: seq<Step>, k: nat)
    requires Run(p, trace, steps) && k < |trace|
    requires trace[k].run.Selecting? && trace[k].polls == [] && trace[k].starts != []
    ensures var s, n := trace[k], if p.retries > 1 then p.retries else 1;
            (exists s' :: Next(p, s, FireTimer, s')) <==>
            s.now >= s.starts[|s.starts| - 1] + (if LastFailed(s.results, n) then p.retryTime else p.frequency)
  {
    var s := trace[k];
    RunIsOnTime(p, trace, steps, k);
    RunIsSafe(p, trace, steps, k);
    DueWritten(p, s.results);
    if s.now >= s.nextPoll {
      var s' := s.(pollStart := Some(s.now), polls := [Testing], run := LoopTop, starts := s.starts + [s.now]);
      assert Next(p, s, FireTimer, s');
    }
  }

  /** The first poll comes at a random time within one interval of the start. */
  lemma {:induction false} FirstPollSpread(p: Params, trace: seq<State>, steps: seq<Step>, k: nat) returns (j: nat)
    requires Run(p, trace, steps) && k < |trace| && trace[k].starts == []
    requires trace[k].run != NotStarted && trace[k].run != Launching
    ensures j < k && steps[j].Launch?
    ensures trace[j].now <= trace[k].nextPoll
            < trace[j].now + (if trace[j].healthy then p.frequency else p.retryTime)
  {
    RunIsOnTime(p, trace, steps, k - 1);
    RunIsSafe(p, trace, steps, k - 1);
    assert Next(p, trace[k - 1], steps[k - 1], trace[k]);
    if steps[k - 1].Launch? {
      j := k - 1;
    } else {
      j := FirstPollSpread(p, trace, steps, k - 1);
    }
  }
}
