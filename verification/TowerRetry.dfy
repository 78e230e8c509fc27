/**
  The Tower retry loop under a shared logical deadline: physical calls, backoff sleeps and readiness
  waits, each checked against one request clock.

  Time is absolute. Wherever the loop waits or computes, the world may take extra time; a world without
  extra time has ideal timers.
 */
module TowerRetry {
  import opened Wrappers
  import opened Retry
  import opened Deadline

  /** `TokioRequestBudget`: a budget bound to the instant it started. */
  datatype RequestBudget = RequestBudget(core: LogicalBudget, started: nat)
  {
    function Elapsed(now: nat): nat {
      if now < started then 0 else now - started
    }
  }

  /**
    How a wait ends: finished, refused before it began, stopped at the logical deadline, by its own timer,
    or because a backoff would use up the budget, or not at all.
   */
  datatype WaitEnd = Finished | Refused | AtDeadline | AtTimer | AtBackoff | Never

  datatype Waited = Waited(end: WaitEnd, now: nat)

  /** `timeout` around work that takes `takes` (`None`: for ever); the timer fires `late` after it is due. */
  function Timeout(b: RequestBudget, now: nat, requested: nat, takes: Option<nat>, late: nat): Waited {
    var elapsed := b.Elapsed(now);
    if b.core.IsExhausted(elapsed) then Waited(Refused, now)
    else
      var remaining := b.core.Remaining(elapsed);
      var effective := b.core.ClampChild(elapsed, requested);
      if takes.Some? && takes.value <= effective + late then Waited(Finished, now + takes.value)
      else if remaining.Some? && remaining.value <= requested then Waited(AtDeadline, now + effective + late)
      else Waited(AtTimer, now + effective + late)
  }

  /** `sleep_backoff`. */
  function SleepBackoff(b: RequestBudget, now: nat, delay: nat, late: nat): Waited {
    if !b.core.CanWait(b.Elapsed(now), delay) then Waited(AtBackoff, now)
    else if b.core.IsExhausted(b.Elapsed(now + delay + late)) then Waited(AtDeadline, now + delay + late)
    else Waited(Finished, now + delay + late)
  }

  /** Extra time the world takes: before the call, at its timer, before and at the sleep, before and at readiness. */
  datatype Lags = Lags(beforeCall: nat, callTimer: nat, beforeSleep: nat, sleepTimer: nat,
                       beforeReady: nat, readyTimer: nat)
  {
    predicate Within(most: nat) {
      && beforeCall <= most && callTimer <= most
      && beforeSleep <= most && sleepTimer <= most
      && beforeReady <= most && readyTimer <= most
    }
  }

  /** One attempt as the world plays it. */
  datatype Round = Round(callTakes: Option<nat>, callOk: bool, decision: RetryDecision, entropy: nat,
                         readyTakes: Option<nat>, readyOk: bool, lags: Lags)

  /**
    What one attempt has done so far: made its request, called the service at some elapsed time, had the
    error classified, slept, and found the service ready again.
   */
  datatype Trail = Trail(attempt: nat, made: bool, called: Option<nat>, classified: bool,
                         slept: Option<Duration>, ready: bool)

  function Untouched(n: nat): Trail {
    Trail(n, false, None, false, None, false)
  }

  /**
    How an attempt ends. The three runtime stops are those of the Tokio budget; `Hung` is a readiness wait
    without a deadline that never ends; `Onward` leads to the next attempt.
   */
  datatype Ending =
    | Response
    | CallFailed
    | ReadinessFailed
    | LogicalDeadlineExceeded
    | ChildTimeout
    | BackoffWouldExhaustBudget
    | Hung
    | Onward

  /** A finished call: its result, the trails of its attempts, and the time. */
  datatype TowerRun = TowerRun(result: Ending, log: seq<Trail>, now: nat)

  datatype Setup = Setup(policy: RetryPolicy, budget: RequestBudget, attemptTimeout: Duration, started: nat)

  /** The wait for readiness after a backoff: bounded by the remaining budget, unbounded without one. */
  function AwaitReady(b: RequestBudget, now: nat, takes: Option<nat>, lag: nat, late: nat): Waited {
    match b.core.Remaining(b.Elapsed(now))
    case Some(remaining) => Timeout(b, now + lag, remaining, takes, late)
    case None => if takes.None? then Waited(Never, now) else Waited(Finished, now + lag + takes.value)
  }

  /** How one attempt leaves the body of the loop. */
  datatype RoundEnd = RoundEnd(ending: Ending, trail: Trail, now: nat)

  /** The time since the call to the service began. */
  function Since(started: nat, now: nat): Duration {
    if now < started then 0 else Clip(now - started)
  }

  /** How the recovery after a failed attempt ends, given its sleep and its wait for readiness. */
  function Recovered(r: Round, t: Trail, delay: Duration, slept: Waited, ready: Waited): RoundEnd {
    if slept.end == AtBackoff then RoundEnd(BackoffWouldExhaustBudget, t, slept.now)
    else if slept.end != Finished then RoundEnd(LogicalDeadlineExceeded, t.(slept := Some(delay)), slept.now)
    else if ready.end == Never then RoundEnd(Hung, t.(slept := Some(delay)), ready.now)
    else if ready.end == AtTimer then RoundEnd(ChildTimeout, t.(slept := Some(delay)), ready.now)
    else if ready.end != Finished then RoundEnd(LogicalDeadlineExceeded, t.(slept := Some(delay)), ready.now)
    else if !r.readyOk then RoundEnd(ReadinessFailed, t.(slept := Some(delay)), ready.now)
    else RoundEnd(Onward, t.(slept := Some(delay), ready := true), ready.now)
  }

  /** Sleep and wait for readiness after an attempt failed; `t` is its trail so far. */
  function Recover(s: Setup, r: Round, t: Trail, delay: Duration, now: nat): RoundEnd {
    var slept := SleepBackoff(s.budget, now + r.lags.beforeSleep, delay, r.lags.sleepTimer);
    var ready := AwaitReady(s.budget, slept.now, r.readyTakes, r.lags.beforeReady, r.lags.readyTimer);
    Recovered(r, t, delay, slept, ready)
  }

  /** What follows a call; `next` is the policy's answer should it have failed. */
  function Resume(s: Setup, r: Round, t: Trail, called: Waited, next: Option<Duration>): RoundEnd {
    if called.end == Refused then RoundEnd(LogicalDeadlineExceeded, Untouched(t.attempt), called.now)
    else if called.end == AtTimer then RoundEnd(ChildTimeout, t, called.now)
    else if called.end != Finished then RoundEnd(LogicalDeadlineExceeded, t, called.now)
    else if r.callOk then RoundEnd(Response, t, called.now)
    else if next.None? then RoundEnd(CallFailed, t.(classified := true), called.now)
    else Recover(s, r, t.(classified := true), next.value, called.now)
  }

  /** The trail of attempt `n` once the call has begun. */
  function Begun(n: nat, elapsed: nat): Trail {
    Trail(n, true, Some(elapsed), false, None, false)
  }

  /** Attempt `n`, begun at `now`. */
  function Attempt(s: Setup, r: Round, n: U32, now: nat): RoundEnd {
    var at := now + r.lags.beforeCall;
    var called := Timeout(s.budget, at, s.attemptTimeout, r.callTakes, r.lags.callTimer);
    var next := NextDelay(s.policy, n, Since(s.started, called.now), r.decision, r.entropy);
    Resume(s, r, Begun(n, s.budget.Elapsed(at)), called, next)
  }

  function Logged(log: seq<Trail>, rest: TowerRun): TowerRun {
    rest.(log := log + rest.log)
  }

  /** The run from attempt `n` on. Only an attempt below the limit is ever followed by another. */
  function RunFrom(s: Setup, world: nat -> Round, n: U32, now: nat): TowerRun
    decreases s.policy.maxAttempts - n
  {
    var end := Attempt(s, world(n), n, now);
    if end.ending != Onward then TowerRun(end.ending, [end.trail], end.now)
    else Logged([end.trail], RunFrom(s, world, n + 1, end.now))
  }

  // ----- What every run looks like -----

  /** Readiness is waited for with exactly what remains, so it can only stop at the logical deadline. */
  lemma ReadinessStopsAtDeadline(b: RequestBudget, now: nat, takes: Option<nat>, lag: nat, late: nat)
    ensures var w := AwaitReady(b, now, takes, lag, late);
            && (w.end == Never ==> b.core.limit.None?)
            && w.end != AtTimer && w.end != AtBackoff
  {
  }

  /** A call is stopped by its own timer or at the deadline, never for its backoff, and begins only before the deadline. */
  lemma TimeoutStops(b: RequestBudget, now: nat, requested: nat, takes: Option<nat>, late: nat)
    ensures var w := Timeout(b, now, requested, takes, late);
            && w.end != Never && w.end != AtBackoff
            && (w.end == Refused <==> b.core.limit.Some? && b.Elapsed(now) >= b.core.limit.value)
            && (w.end == Finished ==> takes.Some?)
  {
  }

  /**
    The trail of attempt `n`: a call is made for exactly one request, and only before the deadline; only a
    call that ended in an error is classified; only a retryable error below the attempt limit is followed
    by a sleep, of the scheduled length; and readiness comes after the sleep.
   */
  ghost predicate WellTrodden(s: Setup, r: Round, n: nat, t: Trail) {
    && t.attempt == n <= s.policy.maxAttempts
    && (t.made <==> t.called.Some?)
    && (t.called.Some? && s.budget.core.limit.Some? ==> t.called.value < s.budget.core.limit.value)
    && (t.classified ==> t.called.Some? && r.callTakes.Some? && !r.callOk)
    && (t.slept.Some? ==>
          && t.classified && n < s.policy.maxAttempts && r.decision == Retry
          && t.slept.value == DelayAfter(s.policy.backoff, n, r.entropy))
    && (t.ready ==> t.slept.Some? && r.readyOk)
  }

  /** What ends a run decides how far its last attempt came; a runtime stop or readiness error is not classified. */
  ghost predicate EndsAt(result: Ending, t: Trail) {
    && (t.ready <==> result == Onward)
    && match result
       case Onward => true
       case Response => t.called.Some? && !t.classified
       case CallFailed => t.classified && t.slept.None?
       case ReadinessFailed => t.slept.Some?
       case Hung => t.slept.Some?
       case ChildTimeout => t.called.Some? && !t.classified
       case BackoffWouldExhaustBudget => t.classified && t.slept.None?
       case LogicalDeadlineExceeded => !t.classified || t.slept.Some?
  }

  ghost predicate WellLeft(s: Setup, end: RoundEnd) {
    EndsAt(end.ending, end.trail) && (end.ending == Hung ==> s.budget.core.limit.None?)
  }

  lemma RecoveryIsWell(s: Setup, r: Round, n: nat, t: Trail, delay: Duration, now: nat)
    requires WellTrodden(s, r, n, t) && t.classified && t.slept.None? && !t.ready
    requires WellTrodden(s, r, n, t.(slept := Some(delay)))
    ensures WellLeft(s, Recover(s, r, t, delay, now)) && WellTrodden(s, r, n, Recover(s, r, t, delay, now).trail)
  {
    hide SleepBackoff, AwaitReady, DelayAfter;
    var slept := SleepBackoff(s.budget, now + r.lags.beforeSleep, delay, r.lags.sleepTimer);
    ReadinessStopsAtDeadline(s.budget, slept.now, r.readyTakes, r.lags.beforeReady, r.lags.readyTimer);
  }

  /** The policy's answer is a delay only for a retryable error below the attempt limit. */
  lemma NextDelayIsScheduled(p: RetryPolicy, n: U32, elapsed: Duration, decision: RetryDecision, entropy: nat)
    ensures var next := NextDelay(p, n, elapsed, decision, entropy);
            next.Some? ==> n < p.maxAttempts && decision == Retry && next.value == DelayAfter(p.backoff, n, entropy)
  {
  }

  lemma ResumptionIsWell(s: Setup, r: Round, n: nat, t: Trail, called: Waited, next: Option<Duration>)
    requires t.called.Some? && t == Begun(n, t.called.value) && n <= s.policy.maxAttempts
    requires called.end != Never && (called.end == Finished ==> r.callTakes.Some?)
    requires called.end != Refused ==> s.budget.core.limit.None? || t.called.value < s.budget.core.limit.value
    requires next.Some? && called.end == Finished && !r.callOk ==>
               WellTrodden(s, r, n, t.(classified := true, slept := next))
    ensures WellLeft(s, Resume(s, r, t, called, next)) && WellTrodden(s, r, n, Resume(s, r, t, called, next).trail)
  {
    if called.end == Finished && !r.callOk && next.Some? {
      RecoveryIsWell(s, r, n, t.(classified := true), next.value, called.now);
    }
  }

  lemma AttemptIsWell(s: Setup, r: Round, n: U32, now: nat)
    requires 1 <= n <= s.policy.maxAttempts
    ensures WellLeft(s, Attempt(s, r, n, now)) && WellTrodden(s, r, n, Attempt(s, r, n, now).trail)
  {
    hide Timeout, NextDelay, DelayAfter, Recover;
    var at := now + r.lags.beforeCall;
    var called := Timeout(s.budget, at, s.attemptTimeout, r.callTakes, r.lags.callTimer);
    var next := NextDelay(s.policy, n, Since(s.started, called.now), r.decision, r.entropy);
    TimeoutStops(s.budget, at, s.attemptTimeout, r.callTakes, r.lags.callTimer);
    NextDelayIsScheduled(s.policy, n, Since(s.started, called.now), r.decision, r.entropy);
    ResumptionIsWell(s, r, n, Begun(n, s.budget.Elapsed(at)), called, next);
  }

  /** Attempt after attempt, each but the last leaving the service ready for the next. */
  ghost predicate WellRun(s: Setup, world: nat -> Round, n: nat, run: TowerRun) {
    && 0 < |run.log| <= s.policy.maxAttempts - n + 1
    && (forall i :: 0 <= i < |run.log| ==> WellTrodden(s, world(n + i), n + i, run.log[i]))
    && (forall i :: 0 <= i < |run.log| - 1 ==> run.log[i].ready)
    && run.result != Onward && EndsAt(run.result, run.log[|run.log| - 1])
    && (run.result == Hung ==> s.budget.core.limit.None?)
  }

  lemma WellRunExtends(s: Setup, world: nat -> Round, n: nat, t: Trail, rest: TowerRun)
    requires n < s.policy.maxAttempts && WellTrodden(s, world(n), n, t) && t.ready
    requires WellRun(s, world, n + 1, rest)
    ensures WellRun(s, world, n, Logged([t], rest))
  {
    forall i | 0 <= i < |rest.log| + 1 ensures WellTrodden(s, world(n + i), n + i, ([t] + rest.log)[i]) {
      if i > 0 {
        assert WellTrodden(s, world((n + 1) + (i - 1)), (n + 1) + (i - 1), rest.log[i - 1]);
      }
    }
  }

  /**
    Every run, whatever the world does: at most `max_attempts` physical calls, one request made for each,
    each admitted before the deadline; readiness between one call and the next; runtime stops and
    readiness errors end the run unclassified; and only a request without a deadline can hang.
   */
  lemma {:induction false} RunsAreWell(s: Setup, world: nat -> Round, n: U32, now: nat)
    requires 1 <= n <= s.policy.maxAttempts
    ensures WellRun(s, world, n, RunFrom(s, world, n, now))
    decreases s.policy.maxAttempts - n
  {
    hide Attempt, DelayAfter;
    var end := Attempt(s, world(n), n, now);
    AttemptIsWell(s, world(n), n, now);
    if end.ending == Onward {
      RunsAreWell(s, world, n + 1, end.now);
      WellRunExtends(s, world, n, end.trail, RunFrom(s, world, n + 1, end.now));
    }
  }

  // ----- What a run comes to -----
  //
  // Each ending, and each moment, in terms of the clock, the limits and what the world does.

  /** How long the request has run at `now`. */
  ghost function Past(b: RequestBudget, now: nat): nat {
    if b.started <= now then now - b.started else 0
  }

  /** The logical deadline is reached. */
  ghost predicate Over(b: RequestBudget, now: nat) {
    b.core.limit.Some? && b.core.limit.value <= Past(b, now)
  }

  /** A wait of `span` from `now` on does not end before the logical deadline. */
  ghost predicate Overlong(b: RequestBudget, now: nat, span: nat) {
    b.core.limit.Some? && b.core.limit.value <= Past(b, now) + span
  }

  /** Work begun at `now` is over before its timer fires, and before the deadline's. */
  ghost predicate InGoodTime(b: RequestBudget, now: nat, requested: nat, takes: Option<nat>, late: nat) {
    && takes.Some?
    && takes.value <= requested + late
    && (b.core.limit.Some? ==> Past(b, now) + takes.value <= b.core.limit.value + late)
  }

  /** When the deadline's timer, set at `now`, fires. */
  ghost function DeadlineFires(b: RequestBudget, now: nat, late: nat): nat
    requires b.core.limit.Some? && !Over(b, now)
  {
    now + (b.core.limit.value - Past(b, now)) + late
  }

  /**
    Work is refused exactly once the deadline is reached. Otherwise it finishes if it is in time, and is
    stopped, if not, by whichever comes first: the deadline, which also wins a tie, or its own timeout.
   */
  lemma TimeoutMeaning(b: RequestBudget, now: nat, requested: nat, takes: Option<nat>, late: nat)
    ensures var w := Timeout(b, now, requested, takes, late);
            if Over(b, now) then w == Waited(Refused, now)
            else if InGoodTime(b, now, requested, takes, late) then w == Waited(Finished, now + takes.value)
            else if Overlong(b, now, requested) then w == Waited(AtDeadline, DeadlineFires(b, now, late))
            else w == Waited(AtTimer, now + requested + late)
  {
  }

  /** A backoff is slept exactly if it ends before the deadline, and then has succeeded unless it woke too late. */
  lemma SleepMeaning(b: RequestBudget, now: nat, delay: nat, late: nat)
    ensures var w := SleepBackoff(b, now, delay, late);
            var woke := now + delay + late;
            if Overlong(b, now, delay) then w == Waited(AtBackoff, now)
            else if Over(b, woke) then w == Waited(AtDeadline, woke)
            else w == Waited(Finished, woke)
  {
    BudgetIsADeadline(b.core, b.Elapsed(now), delay);
  }

  /** Readiness is waited for until the deadline, or without one for as long as it takes. */
  lemma ReadinessMeaning(b: RequestBudget, now: nat, takes: Option<nat>, lag: nat, late: nat)
    ensures var w := AwaitReady(b, now, takes, lag, late);
            var at := now + lag;
            if b.core.limit.None? then w == if takes.None? then Waited(Never, now) else Waited(Finished, at + takes.value)
            else if Over(b, at) then w == Waited(Refused, at)
            else if takes.Some? && Past(b, at) + takes.value <= b.core.limit.value + late
            then w == Waited(Finished, at + takes.value)
            else w == Waited(AtDeadline, DeadlineFires(b, at, late))
  {
    if b.core.limit.Some? {
      hide Timeout;
      var remaining := b.core.Remaining(b.Elapsed(now)).value;
      TimeoutMeaning(b, now + lag, remaining, takes, late);
    }
  }

  /** What happens in attempt `n` of setup `s`, as `r` plays it, begun at `now`. */
  datatype Story = Story(s: Setup, r: Round, n: U32, now: nat)
  {
    ghost function CallAt(): nat {
      now + r.lags.beforeCall
    }

    ghost predicate Called() {
      !Over(s.budget, CallAt())
    }

    /** The call came to an end of its own. */
    ghost predicate Finished() {
      Called() && InGoodTime(s.budget, CallAt(), s.attemptTimeout, r.callTakes, r.lags.callTimer)
    }

    ghost function FinishedAt(): nat
      requires Finished()
    {
      CallAt() + r.callTakes.value
    }

    ghost predicate Failed() {
      Finished() && !r.callOk
    }

    ghost function Delay(): Duration {
      DelayAfter(s.policy.backoff, n, r.entropy)
    }

    ghost predicate Retried() {
      Failed() && Grants(s.policy, n, if s.started <= FinishedAt() then FinishedAt() - s.started else 0, r.decision, Delay())
    }

    ghost function SleepAt(): nat
      requires Finished()
    {
      FinishedAt() + r.lags.beforeSleep
    }

    ghost predicate Slept() {
      Retried() && !Overlong(s.budget, SleepAt(), Delay())
    }

    ghost function WokeAt(): nat
      requires Finished()
    {
      SleepAt() + Delay() + r.lags.sleepTimer
    }

    ghost predicate WokeInTime() {
      Slept() && !Over(s.budget, WokeAt())
    }

    ghost function ReadyAt(): nat
      requires Finished()
    {
      WokeAt() + r.lags.beforeReady
    }

    /** The wait for readiness came to an end of its own. */
    ghost predicate Answered() {
      && WokeInTime()
      && r.readyTakes.Some?
      && (s.budget.core.limit.Some? ==>
            && !Over(s.budget, ReadyAt())
            && Past(s.budget, ReadyAt()) + r.readyTakes.value <= s.budget.core.limit.value + r.lags.readyTimer)
    }

    ghost function Ending(): Ending {
      if !Called() then LogicalDeadlineExceeded
      else if !Finished() then
        if Overlong(s.budget, CallAt(), s.attemptTimeout) then LogicalDeadlineExceeded else ChildTimeout
      else if r.callOk then Response
      else if !Retried() then CallFailed
      else if !Slept() then BackoffWouldExhaustBudget
      else if !WokeInTime() then LogicalDeadlineExceeded
      else if Answered() then (if r.readyOk then Onward else ReadinessFailed)
      else if s.budget.core.limit.None? then Hung
      else LogicalDeadlineExceeded
    }

    ghost function EndedAt(): nat {
      if !Called() then CallAt()
      else if !Finished() then
        if Overlong(s.budget, CallAt(), s.attemptTimeout)
        then DeadlineFires(s.budget, CallAt(), r.lags.callTimer)
        else CallAt() + s.attemptTimeout + r.lags.callTimer
      else if !Retried() then FinishedAt()
      else if !Slept() then SleepAt()
      else if !WokeInTime() then WokeAt()
      else if Answered() then ReadyAt() + r.readyTakes.value
      else if s.budget.core.limit.None? then WokeAt()
      else if Over(s.budget, ReadyAt()) then ReadyAt()
      else DeadlineFires(s.budget, ReadyAt(), r.lags.readyTimer)
    }

    ghost function Told(): Trail {
      Trail(n, Called(), if Called() then Some(Past(s.budget, CallAt())) else None, Failed(),
            if Slept() then Some(Delay()) else None, Answered() && r.readyOk)
    }
  }

  /**
    An attempt ends as its story says, in its result, its trail and its time. A response comes only from a call
    that succeeded, and every such call gives one; a call that failed in time, and no other, is classified, and
    its error is the result exactly if no retry is granted.
   */
  lemma AttemptMeaning(s: Setup, r: Round, n: U32, now: nat)
    ensures var story := Story(s, r, n, now);
            Attempt(s, r, n, now) == RoundEnd(story.Ending(), story.Told(), story.EndedAt())
  {
    hide Timeout, SleepBackoff, AwaitReady, NextDelay, DelayAfter, Grants, Over, Overlong, InGoodTime, DeadlineFires;
    var story := Story(s, r, n, now);
    var at := story.CallAt();
    TimeoutMeaning(s.budget, at, s.attemptTimeout, r.callTakes, r.lags.callTimer);
    if story.Finished() {
      var failedAt := story.FinishedAt();
      NextDelayMeaning(s.policy, n, if s.started <= failedAt then failedAt - s.started else 0, r.decision, r.entropy);
      SleepMeaning(s.budget, story.SleepAt(), story.Delay(), r.lags.sleepTimer);
      ReadinessMeaning(s.budget, story.WokeAt(), r.readyTakes, r.lags.beforeReady, r.lags.readyTimer);
    }
  }

  /** Only an attempt below the limit is followed by another. */
  lemma OnwardLeavesRoom(s: Setup, r: Round, n: U32, now: nat)
    ensures Attempt(s, r, n, now).ending == Onward ==> n < s.policy.maxAttempts
  {
    hide Timeout, NextDelay, Recover;
    var at := now + r.lags.beforeCall;
    var called := Timeout(s.budget, at, s.attemptTimeout, r.callTakes, r.lags.callTimer);
    NextDelayIsScheduled(s.policy, n, Since(s.started, called.now), r.decision, r.entropy);
  }

  /** The run is the story of attempt `n`, begun at `now`, and of those after it, each from where the last ended. */
  ghost predicate Tells(s: Setup, world: nat -> Round, n: U32, now: nat, run: TowerRun)
    decreases |run.log|
  {
    && run.log != []
    && var story := Story(s, world(n), n, now);
       run.log[0] == story.Told()
       && if story.Ending() == Onward
          then n < s.policy.maxAttempts && Tells(s, world, n + 1, story.EndedAt(), run.(log := run.log[1..]))
          else |run.log| == 1 && run.result == story.Ending() && run.now == story.EndedAt()
  }

  /** Every run, whatever the world does: the stories of its attempts, the result being that of the last. */
  lemma {:induction false} RunsTellTheirStory(s: Setup, world: nat -> Round, n: U32, now: nat)
    ensures Tells(s, world, n, now, RunFrom(s, world, n, now))
    decreases s.policy.maxAttempts - n
  {
    hide Attempt;
    AttemptMeaning(s, world(n), n, now);
    var end := Attempt(s, world(n), n, now);
    if end.ending == Onward {
      OnwardLeavesRoom(s, world(n), n, now);
      var rest := RunFrom(s, world, n + 1, end.now);
      RunsTellTheirStory(s, world, n + 1, end.now);
      assert Logged([end.trail], rest).(log := Logged([end.trail], rest).log[1..]) == rest;
    }
  }

  /** The last attempt, begun at `start`, gives the run its result. */
  ghost predicate DecidedBy(story: Story, run: TowerRun) {
    && run.log != [] && run.log[|run.log| - 1] == story.Told()
    && run.result == story.Ending() != Onward && run.now == story.EndedAt()
    && (run.result == Response <==> story.Finished() && story.r.callOk)
    && (run.result == CallFailed <==> story.Failed() && !story.Retried())
    && (run.result == ReadinessFailed <==> story.Answered() && !story.r.readyOk)
    && (run.result == BackoffWouldExhaustBudget <==> story.Retried() && !story.Slept())
    && (run.result == ChildTimeout <==>
          story.Called() && !story.Finished() && !Overlong(story.s.budget, story.CallAt(), story.s.attemptTimeout))
  }

  /**
    The result of every run, from the last attempt's own circumstances: a response exactly for a call that
    finished with success, the call's error exactly for one that finished with an error for which no retry is
    granted, a child timeout exactly for one stopped before the logical deadline.
   */
  lemma {:induction false} LastAttemptDecides(s: Setup, world: nat -> Round, n: U32, now: nat)
    ensures var run := RunFrom(s, world, n, now);
            exists last: U32, start: nat ::
              last == n + |run.log| - 1 && DecidedBy(Story(s, world(last), last, start), run)
    decreases s.policy.maxAttempts - n
  {
    hide Attempt, Over, Overlong, InGoodTime, Grants, DelayAfter;
    AttemptMeaning(s, world(n), n, now);
    var run := RunFrom(s, world, n, now);
    var end := Attempt(s, world(n), n, now);
    if end.ending != Onward {
      assert DecidedBy(Story(s, world(n), n, now), run);
    } else {
      OnwardLeavesRoom(s, world(n), n, now);
      LastAttemptDecides(s, world, n + 1, end.now);
      var rest := RunFrom(s, world, n + 1, end.now);
      var last: U32, start: nat :|
        last == n + 1 + |rest.log| - 1 && DecidedBy(Story(s, world(last), last, start), rest);
      assert run == Logged([end.trail], rest);
      assert DecidedBy(Story(s, world(last), last, start), run);
    }
  }

  // ----- The loop -----

  /** The rest of the body, after a failure that is to be retried. */
  method RecoverFrom(s: Setup, r: Round, begun: Trail, delay: Duration, failedAt: nat) returns (end: RoundEnd)
    ensures end == Recover(s, r, begun, delay, failedAt)
  {
    hide SleepBackoff, AwaitReady;
    var slept := SleepBackoff(s.budget, failedAt + r.lags.beforeSleep, delay, r.lags.sleepTimer);
    if slept.end == AtBackoff {
      return RoundEnd(BackoffWouldExhaustBudget, begun, slept.now);
    }
    var trail := begun.(slept := Some(delay));
    if slept.end != Finished {
      return RoundEnd(LogicalDeadlineExceeded, trail, slept.now);
    }
    var ready := AwaitReady(s.budget, slept.now, r.readyTakes, r.lags.beforeReady, r.lags.readyTimer);
    if ready.end == Never {
      return RoundEnd(Hung, trail, ready.now);
    }
    if ready.end != Finished {
      return RoundEnd(if ready.end == AtTimer then ChildTimeout else LogicalDeadlineExceeded, trail, ready.now);
    }
    if !r.readyOk {
      return RoundEnd(ReadinessFailed, trail, ready.now);
    }
    end := RoundEnd(Onward, trail.(ready := true), ready.now);
  }

  /** The body of the loop. */
  method OneAttempt(s: Setup, r: Round, attempt: U32, start: nat) returns (end: RoundEnd)
    ensures end == Attempt(s, r, attempt, start)
  {
    hide Timeout, NextDelay, Recover;
    var now := start + r.lags.beforeCall;
    var trail := Untouched(attempt);
    var called := Timeout(s.budget, now, s.attemptTimeout, r.callTakes, r.lags.callTimer);
    if called.end == Refused {
      return RoundEnd(LogicalDeadlineExceeded, trail, called.now);
    }
    trail := trail.(made := true, called := Some(s.budget.Elapsed(now)));
    now := called.now;
    if called.end != Finished {
      return RoundEnd(if called.end == AtTimer then ChildTimeout else LogicalDeadlineExceeded, trail, now);
    }
    if r.callOk {
      return RoundEnd(Response, trail, now);
    }
    trail := trail.(classified := true);
    var next := NextDelay(s.policy, attempt, Since(s.started, now), r.decision, r.entropy);
    if next.None? {
      return RoundEnd(CallFailed, trail, now);
    }
    end := RecoverFrom(s, r, trail, next.value, now);
  }

  lemma Regroup(log: seq<Trail>, t: Trail, rest: TowerRun)
    ensures Logged(log, Logged([t], rest)) == Logged(log + [t], rest)
  {
    assert log + ([t] + rest.log) == (log + [t]) + rest.log;
  }

  /** `TowerRetryService::call`. */
  method Call(s: Setup, world: nat -> Round) returns (run: TowerRun)
    requires s.policy.Valid()
    ensures run == RunFrom(s, world, 1, s.started)
  {
    hide Attempt;
    var attempt: U32 := 1;
    var now: nat := s.started;
    var log: seq<Trail> := [];
    while true
      invariant 1 <= attempt <= s.policy.maxAttempts
      invariant RunFrom(s, world, 1, s.started) == Logged(log, RunFrom(s, world, attempt, now))
      decreases s.policy.maxAttempts - attempt
    {
      OnwardLeavesRoom(s, world(attempt), attempt, now);
      var end := OneAttempt(s, world(attempt), attempt, now);
      if end.ending != Onward {
        return TowerRun(end.ending, log + [end.trail], end.now);
      }
      Regroup(log, end.trail, RunFrom(s, world, attempt + 1, end.now));
      log := log + [end.trail];
      now := end.now;
      attempt := attempt + 1;
    }
  }

  // ----- Ending by the deadline -----

  /** The world never takes more than `most` extra at a time. */
  ghost predicate PromptWorld(world: nat -> Round, most: nat) {
    forall n :: world(n).lags.Within(most)
  }

  function DeadlineOf(b: RequestBudget): nat
    requires b.core.limit.Some?
  {
    b.started + b.core.limit.value
  }

  /** Work that is not refused ends by the deadline, but for the lateness of its timer. */
  lemma TimeoutEndsByDeadline(b: RequestBudget, now: nat, requested: nat, takes: Option<nat>, late: nat)
    requires b.core.limit.Some? && b.started <= now
    ensures var w := Timeout(b, now, requested, takes, late);
            now <= w.now && if w.end == Refused then w.now == now else w.now <= DeadlineOf(b) + late
  {
  }

  /** A backoff that is admitted ends by the deadline, but for the lateness of its timer. */
  lemma SleepEndsByDeadline(b: RequestBudget, now: nat, delay: Duration, late: nat)
    requires b.core.limit.Some? && b.started <= now
    ensures var w := SleepBackoff(b, now, delay, late);
            now <= w.now && if w.end == AtBackoff then w.now == now else w.now <= DeadlineOf(b) + late
    ensures var w := SleepBackoff(b, now, delay, late);
            w.end == Finished ==> w.now < DeadlineOf(b)
  {
    BudgetIsADeadline(b.core, b.Elapsed(now), delay);
  }

  /** The end of a part of an attempt: by twice `most` after the deadline, or by `most` if the run goes on. */
  ghost predicate InTime(b: RequestBudget, end: RoundEnd, most: nat)
    requires b.core.limit.Some?
  {
    && b.started <= end.now <= DeadlineOf(b) + 2 * most
    && (end.ending == Onward ==> end.now <= DeadlineOf(b) + most)
  }

  lemma RecoveryEndsByDeadline(s: Setup, r: Round, t: Trail, delay: Duration, now: nat, most: nat)
    requires s.budget.core.limit.Some? && r.lags.Within(most)
    requires s.budget.started <= now <= DeadlineOf(s.budget) + most
    ensures InTime(s.budget, Recover(s, r, t, delay, now), most)
  {
    hide SleepBackoff, Timeout;
    var slept := SleepBackoff(s.budget, now + r.lags.beforeSleep, delay, r.lags.sleepTimer);
    SleepEndsByDeadline(s.budget, now + r.lags.beforeSleep, delay, r.lags.sleepTimer);
    var remaining := s.budget.core.Remaining(s.budget.Elapsed(slept.now)).value;
    TimeoutEndsByDeadline(s.budget, slept.now + r.lags.beforeReady, remaining, r.readyTakes, r.lags.readyTimer);
  }

  lemma ResumptionEndsByDeadline(s: Setup, r: Round, t: Trail, called: Waited, next: Option<Duration>, most: nat)
    requires s.budget.core.limit.Some? && r.lags.Within(most)
    requires s.budget.started <= called.now
    requires called.now <= DeadlineOf(s.budget) + if called.end == Refused then 2 * most else most
    ensures InTime(s.budget, Resume(s, r, t, called, next), most)
  {
    hide Recover;
    if called.end == Finished && next.Some? {
      RecoveryEndsByDeadline(s, r, t.(classified := true), next.value, called.now, most);
    }
  }

  lemma AttemptEndsByDeadline(s: Setup, r: Round, n: U32, now: nat, most: nat)
    requires s.budget.core.limit.Some? && r.lags.Within(most)
    requires s.budget.started <= now <= DeadlineOf(s.budget) + most
    ensures InTime(s.budget, Attempt(s, r, n, now), most)
  {
    hide Timeout, Resume, NextDelay;
    var at := now + r.lags.beforeCall;
    var called := Timeout(s.budget, at, s.attemptTimeout, r.callTakes, r.lags.callTimer);
    TimeoutEndsByDeadline(s.budget, at, s.attemptTimeout, r.callTakes, r.lags.callTimer);
    var next := NextDelay(s.policy, n, Since(s.started, called.now), r.decision, r.entropy);
    ResumptionEndsByDeadline(s, r, Begun(n, s.budget.Elapsed(at)), called, next, most);
  }

  /**
    When the world never takes more than `most` extra at a time, a bounded request that starts before its
    deadline is over at most twice that after it. With ideal timers, `most == 0`, it is over by its deadline.
   */
  lemma {:induction false} CallEndsByDeadline(s: Setup, world: nat -> Round, n: U32, now: nat, most: nat)
    requires s.budget.core.limit.Some? && PromptWorld(world, most)
    requires s.budget.started <= now <= DeadlineOf(s.budget) + most
    ensures RunFrom(s, world, n, now).now <= DeadlineOf(s.budget) + 2 * most
    decreases s.policy.maxAttempts - n
  {
    hide Attempt;
    var end := Attempt(s, world(n), n, now);
    AttemptEndsByDeadline(s, world(n), n, now, most);
    if end.ending == Onward {
      OnwardLeavesRoom(s, world(n), n, now);
      CallEndsByDeadline(s, world, n + 1, end.now, most);
    }
  }
}
