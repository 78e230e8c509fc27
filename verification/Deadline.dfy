/** The logical-request budget, and the shadow execution budget composed over a retry policy. */
module Deadline {
  import opened Wrappers
  import opened Retry

  /** Elapsed times and spans are natural numbers here; nothing in the budget saturates but the subtraction. */
  datatype LogicalBudget = LogicalBudget(limit: Option<nat>)
  {
    function Remaining(elapsed: nat): Option<nat> {
      match limit
      case None => None
      case Some(l) => Some(if l < elapsed then 0 else l - elapsed)
    }

    predicate IsExhausted(elapsed: nat) {
      limit.Some? && elapsed >= limit.value
    }

    function ClampChild(elapsed: nat, requested: nat): nat {
      match Remaining(elapsed)
      case None => requested
      case Some(remaining) => Min(requested, remaining)
    }

    predicate CanWait(elapsed: nat, delay: nat) {
      match Remaining(elapsed)
      case None => true
      case Some(remaining) => remaining != 0 && delay < remaining
    }
  }

  /**
    The four questions are one deadline: work may wait exactly if it ends strictly before the limit; a
    clamped child ends by the limit, and gets all it asked for if that fits; a wait that is allowed
    leaves a budget that is not exhausted.
   */
  lemma BudgetIsADeadline(b: LogicalBudget, elapsed: nat, span: nat)
    ensures b.CanWait(elapsed, span) <==> b.limit.None? || elapsed + span < b.limit.value
    ensures b.Remaining(elapsed).Some? <==> b.limit.Some?
    ensures b.limit.Some? && elapsed <= b.limit.value ==> elapsed + b.Remaining(elapsed).value == b.limit.value
    ensures b.limit.Some? && elapsed >= b.limit.value ==> b.Remaining(elapsed).value == b.ClampChild(elapsed, span) == 0
    ensures b.IsExhausted(elapsed) <==> b.limit.Some? && elapsed >= b.limit.value
    ensures b.IsExhausted(elapsed) <==> b.Remaining(elapsed) == Some(0)
    ensures b.limit.Some? && elapsed <= b.limit.value <= elapsed + span ==>
              elapsed + b.ClampChild(elapsed, span) == b.limit.value
    ensures b.CanWait(elapsed, span) ==> !b.IsExhausted(elapsed + span) && b.ClampChild(elapsed, span) == span
    ensures b.limit.Some? && elapsed <= b.limit.value ==> elapsed + b.ClampChild(elapsed, span) <= b.limit.value
    ensures b.limit.None? || elapsed + span <= b.limit.value ==> b.ClampChild(elapsed, span) == span
    ensures forall later: nat :: elapsed <= later && b.limit.Some? ==>
              b.Remaining(later).value <= b.Remaining(elapsed).value
  {
  }

  // ----- Shadow execution -----

  datatype ShadowPolicy = ShadowPolicy(deadline: Duration, retryPolicy: Option<RetryPolicy>)
  {
    function EffectiveDeadline(primaryRemaining: Duration): Duration {
      Min(deadline, primaryRemaining)
    }

    function NextRetryDelay(attempt: U32, elapsed: Duration, decision: RetryDecision, entropy: nat): Option<Duration> {
      match retryPolicy
      case None => None
      case Some(p) =>
        match NextDelay(p, attempt, elapsed, decision, entropy)
        case None => None
        case Some(delay) => if Plus(elapsed, delay) <= deadline then Some(delay) else None
    }
  }

  /** The retry policy a shadow policy amounts to: the same, with the tighter of the two elapsed budgets. */
  function Tightened(s: ShadowPolicy): RetryPolicy
    requires s.retryPolicy.Some?
  {
    var p := s.retryPolicy.value;
    p.(maxElapsed := Some(match p.maxElapsed case None => s.deadline case Some(m) => Min(m, s.deadline)))
  }

  /**
    A shadow retry is granted exactly if retries are enabled, the retry policy grants it, and it fits the shadow
    deadline, unless that deadline is Duration::MAX; its delay is the retry policy's.
   */
  lemma ShadowRetryMeaning(s: ShadowPolicy, attempt: U32, elapsed: Duration, decision: RetryDecision, entropy: nat)
    ensures var r := s.NextRetryDelay(attempt, elapsed, decision, entropy);
            if s.retryPolicy.None? then r == None
            else
              var p := s.retryPolicy.value;
              var delay := DelayAfter(p.backoff, attempt, entropy);
              r == if Grants(p, attempt, elapsed, decision, delay)
                      && (s.deadline == DURATION_MAX || elapsed + delay <= s.deadline)
                   then Some(delay) else None
  {
    hide DelayAfter, NextDelay;
    if s.retryPolicy.Some? {
      NextDelayMeaning(s.retryPolicy.value, attempt, elapsed, decision, entropy);
    }
  }

  /** A shadow retry is admitted, with its delay, exactly when the tightened retry policy admits it. */
  lemma ShadowRetriesAreTightenedRetries(s: ShadowPolicy, attempt: U32, elapsed: Duration,
                                         decision: RetryDecision, entropy: nat)
    ensures s.NextRetryDelay(attempt, elapsed, decision, entropy)
         == if s.retryPolicy.None? then None else NextDelay(Tightened(s), attempt, elapsed, decision, entropy)
  {
  }

  /** A retry loop under that policy sleeps no longer in total than the shadow deadline. */
  lemma ShadowSleepsFitDeadline(s: ShadowPolicy, world: nat -> Turn)
    requires s.retryPolicy.Some? && s.retryPolicy.value.Valid() && s.deadline < DURATION_MAX
    ensures Sum(RetryFrom(Tightened(s), world, 1, 0).delays) <= s.deadline
  {
    RetryIsBounded(Tightened(s), world);
  }

  /** The shadow deadline bounds the total sleep of every retry loop that runs under it. */
  ghost predicate ShadowDeadlineHolds(deadline: Duration) {
    forall p: RetryPolicy, world: nat -> Turn ::
      p.Valid() ==> Sum(RetryFrom(Tightened(ShadowPolicy(deadline, Some(p))), world, 1, 0).delays) <= deadline
  }

  /** It does so exactly if it is not Duration::MAX. */
  lemma ShadowDeadlineHoldsIff(deadline: Duration)
    ensures ShadowDeadlineHolds(deadline) <==> deadline < DURATION_MAX
  {
    if deadline < DURATION_MAX {
      forall p: RetryPolicy, world: nat -> Turn | p.Valid()
        ensures Sum(RetryFrom(Tightened(ShadowPolicy(deadline, Some(p))), world, 1, 0).delays) <= deadline
      {
        ShadowSleepsFitDeadline(ShadowPolicy(deadline, Some(p)), world);
      }
    } else {
      PatientSleepsTwice();
      assert PATIENT.Valid() && Tightened(ShadowPolicy(deadline, Some(PATIENT))) == PATIENT;
    }
  }

  /** The effective deadline is the shorter of the shadow's own and what the primary has left. */
  lemma EffectiveDeadlineIsShorter(s: ShadowPolicy, primaryRemaining: Duration)
    ensures s.EffectiveDeadline(primaryRemaining) <= s.deadline
    ensures s.EffectiveDeadline(primaryRemaining) <= primaryRemaining
    ensures s.EffectiveDeadline(primaryRemaining) in {s.deadline, primaryRemaining}
  {
  }

  /** Inside a bounded primary request the effective shadow deadline never reaches past the primary's. */
  lemma ShadowEndsWithPrimary(s: ShadowPolicy, b: LogicalBudget, elapsed: Duration)
    requires b.limit.Some? && b.limit.value <= DURATION_MAX && !b.IsExhausted(elapsed)
    ensures elapsed + s.EffectiveDeadline(b.Remaining(elapsed).value) <= b.limit.value
    ensures s.EffectiveDeadline(b.Remaining(elapsed).value) == b.ClampChild(elapsed, s.deadline)
  {
  }
}
