/**
 The worker supervisor of gateway-host/src/workers.rs and the health verdict of
 gateway-api/src/health.rs.

 What the environment does in a run, such as which `select!` branch fires and
 what a port answers, is given as data. So is the panic strategy of the build: with
 `aborts` any panic ends the process, otherwise it unwinds and `catch_unwind` can
 catch it. Times are nanoseconds. Aborting a task after the shutdown deadline is
 outside the model.
 */
module Supervisor {
  import opened Common
  import opened WorkerPlan

  // ----- A leased cycle

  datatype TaskResult = TaskOk | TaskFailed | TaskPanicked

  /** The answer of a lease port call under its timeout. */
  datatype PortResult = PortOk | PortFailed | PortPanicked | PortTimedOut

  /** `Unwound`: a panic carries the supervising task away. `Aborted`: a panic ends the process. */
  datatype Outcome = Succeeded | Busy(retryAfter: Option<nat>) | Failed | ShuttingDown | Unwound | Aborted

  /** What an uncaught panic does. */
  function Fatal(aborts: bool): Outcome { if aborts then Aborted else Unwound }

  /** A result that a panic spoils only in an aborting build. */
  function Caught(aborts: bool, panicked: bool, outcome: Outcome): Outcome {
    if aborts && panicked then Aborted else outcome
  }

  /** The supervisor makes no further round. */
  predicate Final(o: Outcome) { o == ShuttingDown || Lost(o) }

  predicate Lost(o: Outcome) { o == Unwound || o == Aborted }

  /**
   What one `select!` of `run_leased_cycle` yields. `RenewCallPanics`: the call of
   `renew` panics before it returns a future, so nothing catches the panic.
   */
  datatype Select = CycleReady(result: TaskResult) | Cancelled | RenewalDue(reply: PortResult) | RenewCallPanics

  datatype CycleEvent =
    | CycleStarted
    | Renewed
    | CycleCancelled
    | CycleEnded
    | CycleLost
    | Released(reply: PortResult)

  /**
   What a leased cycle meets: whether the call of `run_cycle` panics before it returns
   a future, the selects, how the task ends after them or when it is cancelled, and the
   answer to the release.
   */
  datatype Cycle = Cycle(startPanics: bool, selects: seq<Select>, last: TaskResult, release: PortResult)

  /** Why the cycle ends. */
  datatype End = Finished(result: TaskResult) | Shutdown | LeaseLost | PanickedAway

  function LoopEnd(aborts: bool, selects: seq<Select>, last: TaskResult): End {
    if selects == [] then TaskEnd(aborts, last, Finished(last))
    else match selects[0]
      case CycleReady(result) => TaskEnd(aborts, result, Finished(result))
      case Cancelled => TaskEnd(aborts, last, Shutdown)
      case RenewCallPanics => PanickedAway
      case RenewalDue(PortOk) => LoopEnd(aborts, selects[1..], last)
      case RenewalDue(PortPanicked) => if aborts then PanickedAway else LeaseLost
      case RenewalDue(_) => TaskEnd(aborts, last, LeaseLost)
  }

  /** The end, unless the task panics and panics abort. */
  function TaskEnd(aborts: bool, result: TaskResult, end: End): End {
    if aborts && result == TaskPanicked then PanickedAway else end
  }

  function EndOf(aborts: bool, c: Cycle): End {
    if c.startPanics then PanickedAway else LoopEnd(aborts, c.selects, c.last)
  }

  /** The loop reaches select `i`. */
  predicate Reached(selects: seq<Select>, i: nat) {
    i <= |selects| && forall j :: 0 <= j < i ==> selects[j] == RenewalDue(PortOk)
  }

  /** A panic outside any future: nothing can catch it. */
  ghost predicate PanicEscapes(c: Cycle) {
    c.startPanics || exists i: nat :: Reached(c.selects, i) && i < |c.selects| && c.selects[i] == RenewCallPanics
  }

  predicate PanicsAt(c: Cycle, i: nat)
    requires i <= |c.selects|
  {
    if i == |c.selects| then c.last == TaskPanicked
    else match c.selects[i]
      case CycleReady(result) => result == TaskPanicked
      case Cancelled => c.last == TaskPanicked
      case RenewalDue(reply) => reply == PortPanicked || (reply != PortOk && c.last == TaskPanicked)
      case RenewCallPanics => true
  }

  /** Any panic that is met before the release, in a call, in the task or in a renewal. */
  ghost predicate MeetsPanic(c: Cycle) {
    c.startPanics || exists i: nat :: Reached(c.selects, i) && PanicsAt(c, i)
  }

  ghost predicate LosesRelease(aborts: bool, c: Cycle) {
    if aborts then MeetsPanic(c) else PanicEscapes(c)
  }

  lemma ReachedShifts(selects: seq<Select>, i: nat)
    requires selects != [] && selects[0] == RenewalDue(PortOk)
    ensures Reached(selects, i + 1) <==> Reached(selects[1..], i)
  {
    assert forall j :: 0 <= j < |selects| - 1 ==> selects[1..][j] == selects[j + 1];
  }

  lemma {:induction false} LoopPanicsIff(aborts: bool, c: Cycle)
    requires !c.startPanics
    ensures LoopEnd(aborts, c.selects, c.last) == PanickedAway <==> LosesRelease(aborts, c)
    decreases |c.selects|
  {
    if c.selects != [] && c.selects[0] == RenewalDue(PortOk) {
      var rest := c.(selects := c.selects[1..]);
      LoopPanicsIff(aborts, rest);
      forall i: nat
        ensures Reached(c.selects, i + 1) <==> Reached(rest.selects, i)
      {
        ReachedShifts(c.selects, i);
      }
      if LosesRelease(aborts, rest) {
        var i: nat :| Reached(rest.selects, i) &&
          if aborts then PanicsAt(rest, i) else i < |rest.selects| && rest.selects[i] == RenewCallPanics;
        assert Reached(c.selects, i + 1);
      }
      if LosesRelease(aborts, c) {
        var i: nat :| Reached(c.selects, i) &&
          if aborts then PanicsAt(c, i) else i < |c.selects| && c.selects[i] == RenewCallPanics;
        assert i > 0 && Reached(c.selects, i - 1 + 1) && Reached(rest.selects, i - 1);
      }
    } else {
      assert Reached(c.selects, 0);
    }
  }

  lemma PanicsIff(aborts: bool, c: Cycle)
    ensures EndOf(aborts, c) == PanickedAway <==> LosesRelease(aborts, c)
  {
    if !c.startPanics {
      LoopPanicsIff(aborts, c);
    }
  }

  /** Where the loop stops renewing. */
  function Decider(selects: seq<Select>): (i: nat)
    ensures Reached(selects, i) && (i < |selects| ==> selects[i] != RenewalDue(PortOk))
    ensures forall j: nat :: Reached(selects, j) && (j < |selects| ==> selects[j] != RenewalDue(PortOk)) ==> j == i
  {
    if selects == [] || selects[0] != RenewalDue(PortOk) then 0
    else
      var i := Decider(selects[1..]);
      assert forall j :: 0 <= j < |selects| - 1 ==> selects[1..][j] == selects[j + 1];
      i + 1
  }

  lemma {:induction false} LoopEndAtDecider(aborts: bool, selects: seq<Select>, last: TaskResult)
    ensures LoopEnd(aborts, selects, last) == LoopEnd(aborts, selects[Decider(selects)..], last)
  {
    if selects != [] && selects[0] == RenewalDue(PortOk) {
      LoopEndAtDecider(aborts, selects[1..], last);
      assert selects[Decider(selects)..] == selects[1..][Decider(selects[1..])..];
    } else {
      assert selects[0..] == selects;
    }
  }

  /** The task ends by itself with `result`, before any shutdown or lost lease. */
  ghost predicate TaskEnds(c: Cycle, result: TaskResult) {
    exists i: nat :: Reached(c.selects, i) &&
      if i < |c.selects| then c.selects[i] == CycleReady(result) else c.last == result
  }

  /** Shutdown comes while the cycle runs and the lease is held. */
  ghost predicate ShutdownComes(c: Cycle) {
    exists i: nat :: Reached(c.selects, i) && i < |c.selects| && c.selects[i] == Cancelled
  }

  lemma EndIff(aborts: bool, c: Cycle)
    requires !LosesRelease(aborts, c)
    ensures EndOf(aborts, c) != PanickedAway
    ensures forall result :: EndOf(aborts, c) == Finished(result) <==> TaskEnds(c, result)
    ensures EndOf(aborts, c) == Shutdown <==> ShutdownComes(c)
  {
    PanicsIff(aborts, c);
    LoopEndAtDecider(aborts, c.selects, c.last);
    var i := Decider(c.selects);
    if i < |c.selects| {
      assert c.selects[i..][0] == c.selects[i];
    }
  }

  /** Success needs the task and the release; shutdown survives a failed release. */
  function LeasedOutcome(aborts: bool, end: End, release: PortResult): Outcome {
    match end
    case PanickedAway => Fatal(aborts)
    case Shutdown => Caught(aborts, release == PortPanicked, ShuttingDown)
    case LeaseLost => Caught(aborts, release == PortPanicked, Failed)
    case Finished(result) =>
      Caught(aborts, release == PortPanicked, if result == TaskOk && release == PortOk then Succeeded else Failed)
  }

  /** The cycle starts once, ends once, and the single release comes after its end. */
  ghost predicate ReleasedOnceAfterEnd(trace: seq<CycleEvent>) {
    && |trace| >= 3 && trace[0] == CycleStarted
    && trace[|trace| - 1].Released? && trace[|trace| - 2] == CycleEnded
    && forall i :: 0 < i < |trace| - 2 ==> trace[i] == Renewed || trace[i] == CycleCancelled
  }

  ghost predicate NeverReleased(trace: seq<CycleEvent>) {
    forall i :: 0 <= i < |trace| ==> !trace[i].Released?
  }

  /**
   `run_leased_cycle`. Once the token is read, the release is attempted exactly once,
   after the cycle future has ended, if and only if no panic escapes where panics
   unwind, and no panic at all is met before it where panics abort.
   */
  method RunLeasedCycle(aborts: bool, tokenPanics: bool, c: Cycle) returns (outcome: Outcome, trace: seq<CycleEvent>)
    ensures tokenPanics ==> outcome == Caught(aborts, true, Failed) && trace == []
    ensures !tokenPanics ==> outcome == LeasedOutcome(aborts, EndOf(aborts, c), c.release)
    ensures LosesRelease(aborts, c) ==> NeverReleased(trace) && (!tokenPanics ==> outcome == Fatal(aborts))
    ensures !tokenPanics && !LosesRelease(aborts, c) ==>
      ReleasedOnceAfterEnd(trace) && trace[|trace| - 1] == Released(c.release)
    ensures !tokenPanics && !LosesRelease(aborts, c) ==> (CycleCancelled in trace <==> !EndOf(aborts, c).Finished?)
    ensures outcome == Succeeded <==>
      !tokenPanics && c.release == PortOk && !LosesRelease(aborts, c) && TaskEnds(c, TaskOk)
    ensures outcome == ShuttingDown <==>
      !tokenPanics && !LosesRelease(aborts, c) && !(aborts && c.release == PortPanicked) && ShutdownComes(c)
    ensures outcome == Aborted <==> aborts && (tokenPanics || LosesRelease(aborts, c) || c.release == PortPanicked)
    ensures outcome == Unwound <==> !aborts && !tokenPanics && LosesRelease(aborts, c)
    ensures !outcome.Busy?
  {
    PanicsIff(aborts, c);
    if !LosesRelease(aborts, c) {
      EndIff(aborts, c);
    }
    if tokenPanics {
      return Caught(aborts, true, Failed), [];
    }
    if c.startPanics {
      return Fatal(aborts), [];
    }
    var end;
    end, trace := RunSelects(aborts, c.selects, c.last);
    if end == PanickedAway {
      return Fatal(aborts), trace;
    }
    trace := trace + [Released(c.release)];
    if aborts && c.release == PortPanicked {
      return Aborted, trace;
    }
    outcome := if end == Finished(TaskOk) then Succeeded else if end == Shutdown then ShuttingDown else Failed;
    if c.release != PortOk && outcome != ShuttingDown {
      outcome := Failed;
    }
  }

  /** The loop of `run_leased_cycle`. */
  method RunSelects(aborts: bool, selects: seq<Select>, last: TaskResult) returns (end: End, trace: seq<CycleEvent>)
    ensures end == LoopEnd(aborts, selects, last)
    ensures |trace| >= 2 && trace[0] == CycleStarted && NeverReleased(trace)
    ensures trace[|trace| - 1] == if end == PanickedAway then CycleLost else CycleEnded
    ensures forall j :: 0 < j < |trace| - 1 ==> trace[j] == Renewed || trace[j] == CycleCancelled
    ensures end != PanickedAway ==> (CycleCancelled in trace <==> !end.Finished?)
  {
    trace := [CycleStarted];
    var i := 0;
    while true
      invariant 0 <= i <= |selects|
      invariant |trace| >= 1 && trace[0] == CycleStarted
      invariant LoopEnd(aborts, selects, last) == LoopEnd(aborts, selects[i..], last)
      invariant forall j :: 0 < j < |trace| ==> trace[j] == Renewed
      decreases |selects| - i
    {
      var select := if i < |selects| then selects[i] else CycleReady(last);
      match select {
        case CycleReady(result) =>
          end := TaskEnd(aborts, result, Finished(result));
        case Cancelled =>
          trace := trace + [CycleCancelled];
          end := TaskEnd(aborts, last, Shutdown);
        case RenewCallPanics =>
          end := PanickedAway;
        case RenewalDue(reply) =>
          if reply == PortOk {
            trace := trace + [Renewed];
            i := i + 1;
            continue;
          }
          if aborts && reply == PortPanicked {
            end := PanickedAway;
          } else {
            trace := trace + [CycleCancelled];
            end := TaskEnd(aborts, last, LeaseLost);
          }
      }
      trace := trace + [if end == PanickedAway then CycleLost else CycleEnded];
      return;
    }
  }

  // ----- One round of the supervisor

  /** A local cycle: it ends, shutdown comes first and then it ends, or the call of `run_cycle` panics. */
  datatype LocalEnd = Ran(result: TaskResult) | Interrupted(result: TaskResult) | CallPanicked

  /** What a scheduled round meets: without a lease, or at each point of taking one. */
  datatype Attempt =
    | Local(end: LocalEnd)
    | AcquireInterrupted
    | AcquireFailed
    | AcquirePanicked
    | AcquireCallPanics
    | LeaseBusy(retryAfter: Option<nat>)
    | Leased(tokenPanics: bool, cycle: Cycle)

  /** `run_local_cycle` and `acquire_and_run`. */
  function OutcomeOf(aborts: bool, a: Attempt): Outcome {
    match a
    case Local(Ran(result)) => Caught(aborts, result == TaskPanicked, if result == TaskOk then Succeeded else Failed)
    case Local(Interrupted(result)) => Caught(aborts, result == TaskPanicked, ShuttingDown)
    case Local(CallPanicked) => Fatal(aborts)
    case AcquireInterrupted => ShuttingDown
    case AcquireFailed => Failed
    case AcquirePanicked => Caught(aborts, true, Failed)
    case AcquireCallPanics => Fatal(aborts)
    case LeaseBusy(retryAfter) => Busy(retryAfter)
    case Leased(tokenPanics, cycle) =>
      if tokenPanics then Caught(aborts, true, Failed) else LeasedOutcome(aborts, EndOf(aborts, cycle), cycle.release)
  }

  /** One round: an acquired lease is run by `RunLeasedCycle`; otherwise nothing is released. */
  method RunRound(aborts: bool, a: Attempt) returns (outcome: Outcome, trace: seq<CycleEvent>)
    ensures outcome == OutcomeOf(aborts, a)
    ensures (outcome == Unwound ==> !aborts) && (outcome == Aborted ==> aborts)
    ensures !a.Leased? ==> NeverReleased(trace)
    ensures a.Leased? && !a.tokenPanics ==>
      if LosesRelease(aborts, a.cycle) then NeverReleased(trace) else ReleasedOnceAfterEnd(trace)
  {
    trace := [];
    match a {
      case Local(Ran(result)) =>
        trace := [CycleStarted, if aborts && result == TaskPanicked then CycleLost else CycleEnded];
        outcome := Caught(aborts, result == TaskPanicked, if result == TaskOk then Succeeded else Failed);
      case Local(Interrupted(result)) =>
        trace := [CycleStarted, CycleCancelled, if aborts && result == TaskPanicked then CycleLost else CycleEnded];
        outcome := Caught(aborts, result == TaskPanicked, ShuttingDown);
      case Local(CallPanicked) => outcome := Fatal(aborts);
      case AcquireInterrupted => outcome := ShuttingDown;
      case AcquireFailed => outcome := Failed;
      case AcquirePanicked => outcome := Caught(aborts, true, Failed);
      case AcquireCallPanics => outcome := Fatal(aborts);
      case LeaseBusy(retryAfter) => outcome := Busy(retryAfter);
      case Leased(tokenPanics, cycle) =>
        outcome, trace := RunLeasedCycle(aborts, tokenPanics, cycle);
    }
  }

  /** Some call or future of a round without a lease panics. */
  predicate Panics(a: Attempt)
    requires !a.Leased?
  {
    || a == AcquirePanicked || a == AcquireCallPanics
    || (a.Local? && (a.end.CallPanicked? || a.end.result == TaskPanicked))
  }

  /** A local round succeeds exactly on a good result, and a lease that is not got neither succeeds nor runs. */
  lemma RoundIff(aborts: bool, a: Attempt)
    requires !a.Leased?
    ensures OutcomeOf(aborts, a) == Succeeded <==> a == Local(Ran(TaskOk))
    ensures OutcomeOf(aborts, a) == ShuttingDown <==>
      a == AcquireInterrupted || (a.Local? && a.end.Interrupted? && !(aborts && a.end.result == TaskPanicked))
    ensures forall retry :: OutcomeOf(aborts, a) == Busy(retry) <==> a == LeaseBusy(retry)
    ensures OutcomeOf(aborts, a) == Unwound <==> !aborts && (a == Local(CallPanicked) || a == AcquireCallPanics)
    ensures OutcomeOf(aborts, a) == Aborted <==> aborts && Panics(a)
  {
  }

  function Outcomes(aborts: bool, attempts: seq<Attempt>): (outcomes: seq<Outcome>)
    ensures |outcomes| == |attempts|
    ensures forall i :: 0 <= i < |attempts| ==> outcomes[i] == OutcomeOf(aborts, attempts[i])
  {
    seq(|attempts|, i requires 0 <= i < |attempts| => OutcomeOf(aborts, attempts[i]))
  }

  // ----- Backoff

  /** The largest `Duration`, in nanoseconds. */
  const DURATION_MAX: nat := 18_446_744_073_709_551_615 * 1_000_000_000 + 999_999_999

  /** `take_backoff`: `checked_mul` falls back to the maximum. */
  function NextBackoff(backoff: nat, maximum: nat): nat {
    if 2 * backoff > DURATION_MAX then maximum else Min(2 * backoff, maximum)
  }

  function Pow2(n: nat): (r: nat)
    ensures r >= 1
  {
    if n == 0 then 1 else 2 * Pow2(n - 1)
  }

  /** `min(initial * 2^n, maximum)`. */
  function Backoff(s: WorkerSchedule, n: nat): nat { Min(s.initialBackoff * Pow2(n), s.maximumBackoff) }

  lemma BackoffDoubles(initial: nat, maximum: nat, n: nat)
    requires maximum <= DURATION_MAX
    ensures NextBackoff(Min(initial * Pow2(n), maximum), maximum) == Min(initial * Pow2(n + 1), maximum)
  {
    assert initial * Pow2(n + 1) == 2 * (initial * Pow2(n));
  }

  lemma BackoffIsPositive(initial: nat, maximum: nat, n: nat)
    requires initial > 0 && maximum > 0
    ensures Min(initial * Pow2(n), maximum) > 0
  {
    assert initial * Pow2(n) >= initial;
  }

  /** Failures since the last success among the first `i` rounds; a busy round changes nothing. */
  function FailuresSince(outcomes: seq<Outcome>, i: nat): nat
    requires i <= |outcomes|
  {
    if i == 0 then 0
    else match outcomes[i - 1]
      case Succeeded => 0
      case Failed => FailuresSince(outcomes, i - 1) + 1
      case _ => FailuresSince(outcomes, i - 1)
  }

  function CountFailed(outcomes: seq<Outcome>): nat {
    if outcomes == [] then 0
    else CountFailed(outcomes[..|outcomes| - 1]) + if outcomes[|outcomes| - 1] == Failed then 1 else 0
  }

  /** With no success since `k`, where one was or the run began, the failures are those of the rounds since. */
  lemma {:induction false} FailuresSinceCounts(outcomes: seq<Outcome>, k: nat, i: nat)
    requires k <= i <= |outcomes| && (k == 0 || outcomes[k - 1] == Succeeded)
    requires forall j :: k <= j < i ==> outcomes[j] != Succeeded
    ensures FailuresSince(outcomes, i) == CountFailed(outcomes[k..i])
  {
    if k < i {
      FailuresSinceCounts(outcomes, k, i - 1);
      assert outcomes[k..i][..i - 1 - k] == outcomes[k..i - 1];
    }
  }

  /** The delay after round `i`, in closed form. */
  function DelayAfter(s: WorkerSchedule, outcomes: seq<Outcome>, i: nat): nat
    requires i < |outcomes| && !Final(outcomes[i])
  {
    match outcomes[i]
    case Succeeded => s.interval
    case Busy(retryAfter) =>
      Min(if retryAfter.Some? && retryAfter.value > 0 then retryAfter.value else s.interval, s.maximumBackoff)
    case _ => Backoff(s, FailuresSince(outcomes, i))
  }

  lemma DelayIsPositive(s: WorkerSchedule, outcomes: seq<Outcome>, i: nat)
    requires ValidSchedule(s) && i < |outcomes| && !Final(outcomes[i])
    ensures DelayAfter(s, outcomes, i) > 0
  {
    BackoffIsPositive(s.initialBackoff, s.maximumBackoff, FailuresSince(outcomes, i));
  }

  /** A success is followed by the interval, a busy lease by its own advice or the interval, capped by the maximum. */
  lemma OtherDelays(s: WorkerSchedule, outcomes: seq<Outcome>, i: nat)
    requires i < |outcomes| && !Final(outcomes[i])
    ensures outcomes[i] == Succeeded ==> DelayAfter(s, outcomes, i) == s.interval
    ensures outcomes[i].Busy? ==>
      var advice := outcomes[i].retryAfter;
      var delay := DelayAfter(s, outcomes, i);
      && delay <= s.maximumBackoff
      && (delay == s.maximumBackoff || (advice.Some? && advice.value > 0 && delay == advice.value)
          || ((advice.None? || advice.value == 0) && delay == s.interval))
      && (advice.Some? && advice.value > 0 ==> delay <= advice.value)
      && (advice.None? || advice.value == 0 ==> delay <= s.interval)
  {
  }

  /** After the n-th failure since a success the delay is `min(initial * 2^(n-1), maximum)`. */
  lemma FailureDelayIsExponential(s: WorkerSchedule, outcomes: seq<Outcome>, i: nat)
    requires i < |outcomes| && outcomes[i] == Failed
    ensures var n := FailuresSince(outcomes, i + 1);
            n >= 1 && DelayAfter(s, outcomes, i) == Min(s.initialBackoff * Pow2(n - 1), s.maximumBackoff)
  {
    assert FailuresSince(outcomes, i + 1) == FailuresSince(outcomes, i) + 1;
  }

  // ----- Health

  datatype RuntimeState = Starting | AcquiringLease | OnStandby | Running | Idle | BackingOff | Stopped | Disabled

  const U32_MAX: nat := 0xFFFF_FFFF

  datatype Snapshot = Snapshot(
    state: RuntimeState, consecutiveFailures: nat, lastSuccessAt: Option<int>, lastFailureAt: Option<int>)

  const INSTALLED: Snapshot := Snapshot(Starting, 0, None, None)

  datatype HealthOp = SetAcquiring | SetStandby | SetRunning | SetSucceeded(now: int) | SetFailed(now: int) | SetStopped

  function ApplyOp(s: Snapshot, op: HealthOp): Snapshot {
    match op
    case SetAcquiring => s.(state := AcquiringLease)
    case SetStandby => s.(state := OnStandby, consecutiveFailures := 0)
    case SetRunning => s.(state := Running)
    case SetSucceeded(now) => s.(state := Idle, consecutiveFailures := 0, lastSuccessAt := Some(now))
    case SetFailed(now) =>
      s.(state := BackingOff, consecutiveFailures := Min(s.consecutiveFailures + 1, U32_MAX),
         lastFailureAt := Some(now))
    case SetStopped => s.(state := Stopped)
  }

  function ApplyOps(s: Snapshot, ops: seq<HealthOp>): Snapshot {
    if ops == [] then s else ApplyOp(ApplyOps(s, ops[..|ops| - 1]), ops[|ops| - 1])
  }

  /** `worker_is_healthy`. */
  predicate IsHealthy(s: Snapshot) {
    match s.state
    case Disabled => true
    case OnStandby => true
    case Running => s.consecutiveFailures == 0
    case AcquiringLease => s.consecutiveFailures == 0 && s.lastSuccessAt.Some?
    case Idle => s.consecutiveFailures == 0 && s.lastSuccessAt.Some?
    case _ => false
  }

  /** `WorkerHealthRegistry::snapshot`: an old success is shown as backing off. */
  function Shown(s: Snapshot, freshness: nat, now: int): Snapshot {
    if (s.state == Running || s.state == Idle) && s.lastSuccessAt.Some? && now - s.lastSuccessAt.value > freshness
    then s.(state := BackingOff) else s
  }

  /** Some failure has had no success or standby after it. */
  predicate FailurePending(ops: seq<HealthOp>) {
    ops != [] && match ops[|ops| - 1]
      case SetFailed(_) => true
      case SetSucceeded(_) => false
      case SetStandby => false
      case _ => FailurePending(ops[..|ops| - 1])
  }

  predicate EverSucceeded(ops: seq<HealthOp>) {
    exists i :: 0 <= i < |ops| && ops[i].SetSucceeded?
  }

  lemma {:induction false} OpsTracked(ops: seq<HealthOp>)
    ensures ApplyOps(INSTALLED, ops).consecutiveFailures > 0 <==> FailurePending(ops)
    ensures ApplyOps(INSTALLED, ops).lastSuccessAt.Some? <==> EverSucceeded(ops)
  {
    if ops != [] {
      var front := ops[..|ops| - 1];
      OpsTracked(front);
      assert forall i :: 0 <= i < |front| ==> front[i] == ops[i];
    }
  }

  /** From any failure until the next success or standby the worker is judged unhealthy. */
  lemma UnhealthyUntilRecovered(ops: seq<HealthOp>, freshness: nat, now: int)
    requires FailurePending(ops)
    ensures !IsHealthy(Shown(ApplyOps(INSTALLED, ops), freshness, now))
  {
    OpsTracked(ops);
    HealthyOnlyByStandby(ops);
  }

  lemma HealthyOnlyByStandby(ops: seq<HealthOp>)
    requires FailurePending(ops)
    ensures ApplyOps(INSTALLED, ops).state != OnStandby && ApplyOps(INSTALLED, ops).state != Disabled
  {
  }

  /** The last success is missing or recent enough at `now`. */
  predicate Fresh(s: Snapshot, freshness: nat, now: int) {
    s.lastSuccessAt.Some? ==> now - s.lastSuccessAt.value <= freshness
  }

  /** Exactly when a worker is judged healthy at `now`, by its last operation and its history. */
  lemma HealthyIff(ops: seq<HealthOp>, freshness: nat, now: int)
    requires ops != []
    ensures var s := ApplyOps(INSTALLED, ops);
      IsHealthy(Shown(s, freshness, now)) <==>
        match ops[|ops| - 1]
        case SetStandby => true
        case SetSucceeded(at) => now - at <= freshness
        case SetRunning => !FailurePending(ops) && Fresh(s, freshness, now)
        case SetAcquiring => !FailurePending(ops) && EverSucceeded(ops)
        case _ => false
  {
    OpsTracked(ops);
  }

  lemma PendingAppends(ops: seq<HealthOp>, last: HealthOp)
    ensures FailurePending(ops + [last]) <==>
      match last
      case SetFailed(_) => true
      case SetSucceeded(_) => false
      case SetStandby => false
      case _ => FailurePending(ops)
  {
    assert (ops + [last])[..|ops|] == ops;
  }

  /**
   In a build whose panics unwind, a worker whose supervisor was carried away reports
   nothing more. If it was running, had no failure pending and never succeeded, it is
   judged healthy at every later time; after a success, until that is stale.
   */
  lemma UnwoundWorkerHealth(attempts: seq<Attempt>, clock: seq<int>, n: nat, freshness: nat, now: int)
    requires n < |attempts| == |clock| && OutcomeOf(false, attempts[n]) == Unwound
    requires attempts[n].Local? || attempts[n].Leased?
    ensures var ops := AllOps(false, attempts, clock, n + 1);
      IsHealthy(Shown(ApplyOps(INSTALLED, ops), freshness, now)) <==>
        !FailurePending(ops) && Fresh(ApplyOps(INSTALLED, ops), freshness, now)
  {
    var ops := AllOps(false, attempts, clock, n + 1);
    assert ops[|ops| - 1] == SetRunning;
    HealthyIff(ops, freshness, now);
  }

  /** A daemon reports only running, failed and stopped, so after one failure it is never healthy again. */
  lemma {:induction false} DaemonNeverRecovers(ops: seq<HealthOp>, f: nat, freshness: nat, now: int)
    requires forall i :: 0 <= i < |ops| ==> ops[i].SetRunning? || ops[i].SetFailed? || ops[i].SetStopped?
    requires f < |ops| && ops[f].SetFailed?
    ensures FailurePending(ops) && !IsHealthy(Shown(ApplyOps(INSTALLED, ops), freshness, now))
  {
    if f < |ops| - 1 && !ops[|ops| - 1].SetFailed? {
      DaemonNeverRecovers(ops[..|ops| - 1], f, freshness, now);
    }
    OpsTracked(ops);
  }

  // ----- The registry and the supervision loops

  datatype HealthEntry = HealthEntry(snapshot: Snapshot, freshness: nat)

  class WorkerHealthRegistry {
    var states: map<WorkerId, HealthEntry>

    constructor (states: map<WorkerId, HealthEntry>)
      ensures this.states == states
    {
      this.states := states;
    }

    /** `update`; an unknown worker is ignored. */
    method Update(id: WorkerId, op: HealthOp)
      modifies this
      ensures states.Keys == old(states).Keys
      ensures id in states ==> states[id].snapshot == ApplyOp(old(states)[id].snapshot, op)
      ensures id in states ==> states[id].freshness == old(states)[id].freshness
      ensures forall other :: other in states && other != id ==> states[other] == old(states)[other]
    {
      if id in states {
        states := states[id := states[id].(snapshot := ApplyOp(states[id].snapshot, op))];
      }
    }
  }

  /** What a round reports before its outcome is known. */
  function EntryOps(a: Attempt): (ops: seq<HealthOp>)
    ensures forall i :: 0 <= i < |ops| ==> ops[i].SetAcquiring? || ops[i].SetRunning?
  {
    if a.Local? then [SetRunning]
    else if a.Leased? && !a.tokenPanics then [SetAcquiring, SetRunning] else [SetAcquiring]
  }

  function OutcomeOps(outcome: Outcome, now: int): seq<HealthOp> {
    match outcome
    case Succeeded => [SetSucceeded(now)]
    case Busy(_) => [SetStandby]
    case Failed => [SetFailed(now)]
    case _ => []
  }

  /** The health operations of one round. */
  function OpsOf(aborts: bool, a: Attempt, now: int): seq<HealthOp> {
    EntryOps(a) + OutcomeOps(OutcomeOf(aborts, a), now)
  }

  /** The health operations of the first `n` rounds. */
  function AllOps(aborts: bool, attempts: seq<Attempt>, clock: seq<int>, n: nat): seq<HealthOp>
    requires n <= |attempts| == |clock|
  {
    if n == 0 then [] else AllOps(aborts, attempts, clock, n - 1) + OpsOf(aborts, attempts[n - 1], clock[n - 1])
  }

  /** A failure is pending exactly when the last round that had a result failed. */
  lemma PendingFollowsRounds(aborts: bool, attempts: seq<Attempt>, clock: seq<int>, n: nat)
    requires 0 < n <= |attempts| == |clock|
    ensures FailurePending(AllOps(aborts, attempts, clock, n)) <==>
      match OutcomeOf(aborts, attempts[n - 1])
      case Failed => true
      case Succeeded => false
      case Busy(_) => false
      case _ => FailurePending(AllOps(aborts, attempts, clock, n - 1))
  {
    var before, entry := AllOps(aborts, attempts, clock, n - 1), EntryOps(attempts[n - 1]);
    var closing := OutcomeOps(OutcomeOf(aborts, attempts[n - 1]), clock[n - 1]);
    EntryKeepsPending(before, entry);
    assert before + (entry + closing) == before + entry + closing;
    if closing == [] {
      assert before + entry + closing == before + entry;
    } else {
      PendingAppends(before + entry, closing[0]);
    }
  }

  lemma {:induction false} EntryKeepsPending(ops: seq<HealthOp>, entry: seq<HealthOp>)
    requires forall i :: 0 <= i < |entry| ==> entry[i].SetAcquiring? || entry[i].SetRunning?
    ensures FailurePending(ops + entry) == FailurePending(ops)
  {
    if entry == [] {
      assert ops + entry == ops;
    } else {
      var n := |entry| - 1;
      EntryKeepsPending(ops, entry[..n]);
      PendingAppends(ops + entry[..n], entry[n]);
      assert ops + entry == ops + entry[..n] + [entry[n]];
    }
  }

  /** While a round is under way only the state changes: running once a task can run, acquiring before. */
  lemma EntryShows(s: Snapshot, a: Attempt)
    ensures ApplyOps(s, EntryOps(a)) ==
      s.(state := if a.Local? || (a.Leased? && !a.tokenPanics) then Running else AcquiringLease)
    ensures EntryOps(a) != [] && ApplyOp(s, EntryOps(a)[0]) == s.(state := if a.Local? then Running else AcquiringLease)
  {
    var ops := EntryOps(a);
    OpsOneByOne(s, ops);
  }

  lemma OpsOneByOne(s: Snapshot, ops: seq<HealthOp>)
    ensures |ops| == 1 ==> ApplyOps(s, ops) == ApplyOp(s, ops[0])
    ensures |ops| == 2 ==> ApplyOps(s, ops) == ApplyOp(ApplyOp(s, ops[0]), ops[1])
  {
    if |ops| == 1 {
      assert ops[..0] == [];
    } else if |ops| == 2 {
      assert ops[..1][..0] == [];
      assert ApplyOps(s, ops[..1]) == ApplyOp(s, ops[0]);
    }
  }

  /** What a round leaves in the snapshot of its worker, by its outcome. */
  lemma RoundLeaves(aborts: bool, s: Snapshot, a: Attempt, now: int)
    ensures var after := ApplyOps(s, OpsOf(aborts, a, now));
      match OutcomeOf(aborts, a)
      case Succeeded => after == s.(state := Idle, consecutiveFailures := 0, lastSuccessAt := Some(now))
      case Busy(_) => after == s.(state := OnStandby, consecutiveFailures := 0)
      case Failed => after == s.(state := BackingOff, lastFailureAt := Some(now),
                                 consecutiveFailures := Min(s.consecutiveFailures + 1, U32_MAX))
      case _ => after == ApplyOps(s, EntryOps(a))
  {
    var closing := OutcomeOps(OutcomeOf(aborts, a), now);
    OpsCompose(s, EntryOps(a), closing);
    EntryShows(s, a);
    OpsOneByOne(ApplyOps(s, EntryOps(a)), closing);
  }

  /** The registry after `ops` on worker `id`: its entry follows the operations, the others are untouched. */
  ghost predicate Reported(before: map<WorkerId, HealthEntry>, after: map<WorkerId, HealthEntry>, id: WorkerId,
                           ops: seq<HealthOp>)
  {
    && after.Keys == before.Keys
    && (forall other :: other in before && other != id ==> after[other] == before[other])
    && (id in before ==> after[id] == before[id].(snapshot := ApplyOps(before[id].snapshot, ops)))
  }

  lemma {:induction false} OpsCompose(s: Snapshot, a: seq<HealthOp>, b: seq<HealthOp>)
    ensures ApplyOps(s, a + b) == ApplyOps(ApplyOps(s, a), b)
  {
    if b == [] {
      assert a + b == a;
    } else {
      var n := |b| - 1;
      assert (a + b)[..|a| + n] == a + b[..n];
      OpsCompose(s, a, b[..n]);
    }
  }

  lemma ReportedComposes(m0: map<WorkerId, HealthEntry>, m1: map<WorkerId, HealthEntry>, m2: map<WorkerId, HealthEntry>,
                         id: WorkerId, a: seq<HealthOp>, b: seq<HealthOp>)
    requires Reported(m0, m1, id, a) && Reported(m1, m2, id, b)
    ensures Reported(m0, m2, id, a + b)
  {
    if id in m0 {
      OpsCompose(m0[id].snapshot, a, b);
    }
  }

  method Report(registry: WorkerHealthRegistry, id: WorkerId, ops: seq<HealthOp>)
    modifies registry
    ensures Reported(old(registry.states), registry.states, id, ops)
  {
    for k := 0 to |ops|
      invariant Reported(old(registry.states), registry.states, id, ops[..k])
    {
      assert ops[..k + 1][..k] == ops[..k];
      registry.Update(id, ops[k]);
    }
    assert ops[..|ops|] == ops;
  }

  /** Reports `ops` on top of what has been reported since `start`. */
  method ReportMore(registry: WorkerHealthRegistry, id: WorkerId, ghost start: map<WorkerId, HealthEntry>,
                    ghost done: seq<HealthOp>, ops: seq<HealthOp>)
    requires Reported(start, registry.states, id, done)
    modifies registry
    ensures Reported(start, registry.states, id, done + ops)
  {
    ghost var before := registry.states;
    Report(registry, id, ops);
    ReportedComposes(start, before, registry.states, id, done, ops);
  }

  /** The delay of one round and the backoff it leaves. */
  method TakeDelay(s: WorkerSchedule, ghost outcomes: seq<Outcome>, ghost i: nat, outcome: Outcome, backoff: nat)
    returns (delay: nat, next: nat)
    requires ValidSchedule(s) && s.maximumBackoff <= DURATION_MAX
    requires i < |outcomes| && outcome == outcomes[i] && !Final(outcome)
    requires backoff == Backoff(s, FailuresSince(outcomes, i))
    ensures delay == DelayAfter(s, outcomes, i) > 0
    ensures next == Backoff(s, FailuresSince(outcomes, i + 1))
  {
    DelayIsPositive(s, outcomes, i);
    match outcome {
      case Succeeded =>
        return s.interval, s.initialBackoff;
      case Busy(retryAfter) =>
        delay := if retryAfter.Some? && retryAfter.value > 0 then retryAfter.value else s.interval;
        return Min(delay, s.maximumBackoff), backoff;
      case Failed =>
        BackoffDoubles(s.initialBackoff, s.maximumBackoff, FailuresSince(outcomes, i));
        return backoff, NextBackoff(backoff, s.maximumBackoff);
    }
  }

  /** One turn of the loop: the round, and unless it is final its delay and the backoff it leaves. */
  method RunAndDelay(aborts: bool, s: WorkerSchedule, a: Attempt, ghost outcomes: seq<Outcome>, ghost i: nat,
                     backoff: nat)
    returns (outcome: Outcome, delay: nat, next: nat)
    requires ValidSchedule(s) && s.maximumBackoff <= DURATION_MAX
    requires i < |outcomes| && outcomes[i] == OutcomeOf(aborts, a)
    requires backoff == Backoff(s, FailuresSince(outcomes, i))
    ensures outcome == outcomes[i]
    ensures !Final(outcome) ==> delay == DelayAfter(s, outcomes, i) > 0
    ensures !Final(outcome) ==> next == Backoff(s, FailuresSince(outcomes, i + 1))
  {
    delay, next := 0, backoff;
    var result, _ := RunRound(aborts, a);
    outcome := result;
    if !Final(outcome) {
      delay, next := TakeDelay(s, outcomes, i, outcome, backoff);
    }
  }

  /** The delays slept after the first rounds, none of which is final. */
  ghost predicate Slept(s: WorkerSchedule, outcomes: seq<Outcome>, delays: seq<nat>) {
    && |delays| <= |outcomes|
    && forall i :: 0 <= i < |delays| ==> !Final(outcomes[i]) && delays[i] == DelayAfter(s, outcomes, i) > 0
  }

  lemma SleptOnce(s: WorkerSchedule, outcomes: seq<Outcome>, delays: seq<nat>, delay: nat)
    requires Slept(s, outcomes, delays) && |delays| < |outcomes| && !Final(outcomes[|delays|])
    requires delay == DelayAfter(s, outcomes, |delays|) > 0
    ensures Slept(s, outcomes, delays + [delay])
  {
  }

  /** What the supervisor reports when it ends after `n` sleeps: nothing if a panic ends it. */
  function LastOps(outcomes: seq<Outcome>, n: nat): seq<HealthOp> {
    if n < |outcomes| && Lost(outcomes[n]) then [] else [SetStopped]
  }

  method ReportRound(aborts: bool, id: WorkerId, attempts: seq<Attempt>, clock: seq<int>, i: nat,
                     registry: WorkerHealthRegistry, ghost start: map<WorkerId, HealthEntry>)
    requires i < |attempts| == |clock|
    requires Reported(start, registry.states, id, AllOps(aborts, attempts, clock, i))
    modifies registry
    ensures Reported(start, registry.states, id, AllOps(aborts, attempts, clock, i + 1))
  {
    ReportMore(registry, id, start, AllOps(aborts, attempts, clock, i), OpsOf(aborts, attempts[i], clock[i]));
  }

  /** The loop of `supervise_scheduled`. */
  method RunRounds(aborts: bool, id: WorkerId, s: WorkerSchedule, attempts: seq<Attempt>, clock: seq<int>,
                   registry: WorkerHealthRegistry)
    returns (delays: seq<nat>)
    requires ValidSchedule(s) && s.maximumBackoff <= DURATION_MAX && |clock| == |attempts|
    modifies registry
    ensures Slept(s, Outcomes(aborts, attempts), delays)
    ensures |delays| < |attempts| ==> Final(OutcomeOf(aborts, attempts[|delays|]))
    ensures Reported(old(registry.states), registry.states, id,
                     AllOps(aborts, attempts, clock, Min(|delays| + 1, |attempts|)))
  {
    delays := [];
    var backoff := s.initialBackoff;
    ghost var outcomes := Outcomes(aborts, attempts);
    for i := 0 to |attempts|
      invariant |delays| == i && Slept(s, outcomes, delays)
      invariant backoff == Backoff(s, FailuresSince(outcomes, i))
      invariant Reported(old(registry.states), registry.states, id, AllOps(aborts, attempts, clock, i))
    {
      ReportRound(aborts, id, attempts, clock, i, registry, old(registry.states));
      var outcome, delay;
      outcome, delay, backoff := RunAndDelay(aborts, s, attempts[i], outcomes, i, backoff);
      if Final(outcome) {
        return;
      }
      SleptOnce(s, outcomes, delays, delay);
      delays := delays + [delay];
    }
  }

  /**
   `supervise_scheduled` over the rounds it meets: the delay it sleeps after each
   round, up to a final one, and the health it reports.
   */
  method SuperviseScheduled(aborts: bool, id: WorkerId, s: WorkerSchedule, attempts: seq<Attempt>, clock: seq<int>,
                            registry: WorkerHealthRegistry)
    returns (delays: seq<nat>)
    requires ValidSchedule(s) && s.maximumBackoff <= DURATION_MAX && |clock| == |attempts|
    modifies registry
    ensures Slept(s, Outcomes(aborts, attempts), delays)
    ensures |delays| < |attempts| ==> Final(OutcomeOf(aborts, attempts[|delays|]))
    ensures Reported(old(registry.states), registry.states, id,
                     AllOps(aborts, attempts, clock, Min(|delays| + 1, |attempts|))
                     + LastOps(Outcomes(aborts, attempts), |delays|))
    ensures id in registry.states && !(|delays| < |attempts| && Lost(OutcomeOf(aborts, attempts[|delays|]))) ==>
      registry.states[id].snapshot.state == Stopped
  {
    delays := RunRounds(aborts, id, s, attempts, clock, registry);
    ReportMore(registry, id, old(registry.states), AllOps(aborts, attempts, clock, Min(|delays| + 1, |attempts|)),
               LastOps(Outcomes(aborts, attempts), |delays|));
  }

  /** The health operations of a daemon that has exited at the given times. */
  function DaemonOps(clock: seq<int>): (ops: seq<HealthOp>)
    ensures forall i :: 0 <= i < |ops| ==> ops[i].SetRunning? || ops[i].SetFailed?
    ensures clock != [] ==> ops != [] && ops[|ops| - 1].SetFailed?
  {
    if clock == [] then []
    else DaemonOps(clock[..|clock| - 1]) + [SetRunning, SetFailed(clock[|clock| - 1])]
  }

  /** The delays slept after successive exits of a daemon. */
  ghost predicate Restarted(r: RestartPolicy, delays: seq<nat>) {
    forall i :: 0 <= i < |delays| ==> delays[i] == Min(r.initialBackoff * Pow2(i), r.maximumBackoff) > 0
  }

  method TakeRestartDelay(r: RestartPolicy, delays: seq<nat>, backoff: nat) returns (after: seq<nat>, next: nat)
    requires ValidRestart(r) && r.maximumBackoff <= DURATION_MAX
    requires Restarted(r, delays) && backoff == Min(r.initialBackoff * Pow2(|delays|), r.maximumBackoff)
    ensures |after| == |delays| + 1 && Restarted(r, after)
    ensures next == Min(r.initialBackoff * Pow2(|after|), r.maximumBackoff)
  {
    BackoffDoubles(r.initialBackoff, r.maximumBackoff, |delays|);
    BackoffIsPositive(r.initialBackoff, r.maximumBackoff, |delays|);
    after := delays + [backoff];
    next := NextBackoff(backoff, r.maximumBackoff);
  }

  /** One exit of a daemon's task. */
  datatype Exit = Exit(result: TaskResult, at: int)

  /**
   How a daemon's supervision ends after its exits: shutdown between runs, shutdown
   during one that then ends, or a panic in the call of `run`.
   */
  datatype DaemonEnd = StoppedBetweenRuns | StoppedDuringRun(result: TaskResult) | RunCallPanics

  /** The exits that are restarted: all, or where panics abort those before the first panic. */
  function Restarts(aborts: bool, exits: seq<Exit>): (n: nat)
    ensures n <= |exits|
    ensures forall i :: 0 <= i < n ==> !(aborts && exits[i].result == TaskPanicked)
    ensures n < |exits| ==> aborts && exits[n].result == TaskPanicked
  {
    if exits == [] || (aborts && exits[0].result == TaskPanicked) then 0 else 1 + Restarts(aborts, exits[1..])
  }

  function Times(exits: seq<Exit>): seq<int> {
    seq(|exits|, i requires 0 <= i < |exits| => exits[i].at)
  }

  function DaemonLastOps(aborts: bool, end: DaemonEnd): seq<HealthOp> {
    match end
    case StoppedBetweenRuns => [SetStopped]
    case StoppedDuringRun(result) => if aborts && result == TaskPanicked then [SetRunning] else [SetRunning, SetStopped]
    case RunCallPanics => [SetRunning]
  }

  /**
   `supervise_daemon` over the exits of its task. The backoff is never reset. Where
   panics abort, a panicking exit is the last thing that happens.
   */
  method SuperviseDaemon(aborts: bool, id: WorkerId, r: RestartPolicy, exits: seq<Exit>, end: DaemonEnd,
                         registry: WorkerHealthRegistry)
    returns (delays: seq<nat>)
    requires ValidRestart(r) && r.maximumBackoff <= DURATION_MAX
    modifies registry
    ensures |delays| == Restarts(aborts, exits) && Restarted(r, delays)
    ensures Reported(old(registry.states), registry.states, id,
                     DaemonOps(Times(exits)[..|delays|])
                     + if |delays| < |exits| then [SetRunning] else DaemonLastOps(aborts, end))
  {
    delays := [];
    var backoff := r.initialBackoff;
    ghost var clock := Times(exits);
    for i := 0 to |exits|
      invariant |delays| == i && Restarted(r, delays)
      invariant i <= Restarts(aborts, exits)
      invariant backoff == Min(r.initialBackoff * Pow2(i), r.maximumBackoff)
      invariant Reported(old(registry.states), registry.states, id, DaemonOps(clock[..i]))
    {
      if aborts && exits[i].result == TaskPanicked {
        ReportMore(registry, id, old(registry.states), DaemonOps(clock[..i]), [SetRunning]);
        return;
      }
      ReportMore(registry, id, old(registry.states), DaemonOps(clock[..i]), [SetRunning, SetFailed(exits[i].at)]);
      DaemonOpsStep(clock, i);
      delays, backoff := TakeRestartDelay(r, delays, backoff);
    }
    ReportMore(registry, id, old(registry.states), DaemonOps(clock[..|exits|]), DaemonLastOps(aborts, end));
  }

  lemma DaemonOpsStep(clock: seq<int>, i: nat)
    requires i < |clock|
    ensures DaemonOps(clock[..i + 1]) == DaemonOps(clock[..i]) + [SetRunning, SetFailed(clock[i])]
  {
    assert clock[..i + 1][..i] == clock[..i];
  }
}
