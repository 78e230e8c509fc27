/** Bounded retries: saturating exponential backoff, the retry policy, and the synchronous retry loop. */
module Retry {
  import opened Wrappers

  /** The longest `Duration`, in nanoseconds: u64::MAX seconds and 999,999,999 nanoseconds. */
  const DURATION_MAX: nat := 18_446_744_073_709_551_615_999_999_999

  type Duration = n: int | 0 <= n <= DURATION_MAX

  /** `Duration::saturating_add`. */
  function Plus(a: Duration, b: Duration): Duration {
    Min(a + b, DURATION_MAX)
  }

  /** `Duration::saturating_mul`. */
  function Times(a: Duration, m: U32): Duration {
    Min(a * m, DURATION_MAX)
  }

  /** A measured time span as a `Duration`. */
  function Clip(span: nat): Duration {
    Min(span, DURATION_MAX)
  }

  datatype RetryDecision = Retry | DoNotRetry

  datatype Jitter = NoJitter | FullJitter | EqualJitter

  datatype BackoffError = ZeroInitialDelay | MaximumBelowInitial | FactorBelowOne

  datatype Backoff = Backoff(initial: Duration, maximum: Duration, factor: U32, jitter: Jitter)
  {
    predicate Valid() {
      0 < initial <= maximum && factor >= 1
    }

    static function New(initial: Duration, maximum: Duration, factor: U32, jitter: Jitter)
      : (r: Result<Backoff, BackoffError>)
      ensures r.Ok? <==> Backoff(initial, maximum, factor, jitter).Valid()
      ensures r.Ok? ==> r.value == Backoff(initial, maximum, factor, jitter)
      ensures r.Err? ==> (r.error == ZeroInitialDelay <==> initial == 0)
      ensures r.Err? ==> (r.error == MaximumBelowInitial <==> maximum < initial)
    {
      if initial == 0 then Err(ZeroInitialDelay)
      else if maximum < initial then Err(MaximumBelowInitial)
      else if factor < 1 then Err(FactorBelowOne)
      else Ok(Backoff(initial, maximum, factor, jitter))
    }
  }

  /** `u32::saturating_pow`: multiply, saturating, `exponent` times. */
  function SaturatingPow(factor: U32, exponent: nat): U32 {
    if exponent == 0 then 1 else Min(SaturatingPow(factor, exponent - 1) * factor, U32_MAX)
  }

  function Pow(factor: nat, exponent: nat): nat {
    if exponent == 0 then 1 else Pow(factor, exponent - 1) * factor
  }

  /** The delay before jitter. */
  function Cap(b: Backoff, attempt: U32): Duration {
    Min(Times(b.initial, SaturatingPow(b.factor, SaturatingSub32(attempt, 1))), b.maximum)
  }

  /**
    A draw from 0 up to and including `maximum`, but no more than u64::MAX. As `entropy` ranges over the
    natural numbers, every value of that range is drawn.
   */
  function RandomDuration(maximum: Duration, entropy: nat): Duration {
    Min(entropy, Min(maximum, U64_MAX))
  }

  function DelayAfter(b: Backoff, attempt: U32, entropy: nat): Duration {
    var cap := Cap(b, attempt);
    match b.jitter
    case NoJitter => cap
    case FullJitter => RandomDuration(cap, entropy)
    case EqualJitter => Plus(cap / 2, RandomDuration(cap - cap / 2, entropy))
  }

  // ----- Backoff in closed form -----

  lemma {:induction false} PowGrows(factor: nat, fewer: nat, more: nat)
    requires factor >= 1 && fewer <= more
    ensures 1 <= Pow(factor, fewer) <= Pow(factor, more)
    decreases more
  {
    if fewer < more {
      PowGrows(factor, fewer, more - 1);
      assert Pow(factor, more - 1) * factor >= Pow(factor, more - 1);
    } else if more > 0 {
      PowGrows(factor, more - 1, more - 1);
      assert Pow(factor, more - 1) * factor >= 1;
    }
  }

  /** Saturating at every multiplication is saturating once at the end. */
  lemma {:induction false} SaturatingPowIsCappedPow(factor: U32, exponent: nat)
    requires factor >= 1
    ensures SaturatingPow(factor, exponent) == Min(Pow(factor, exponent), U32_MAX)
    decreases exponent
  {
    if exponent == 0 {
    } else {
      SaturatingPowIsCappedPow(factor, exponent - 1);
      if Pow(factor, exponent - 1) >= U32_MAX {
        assert U32_MAX * factor >= U32_MAX;
        assert Pow(factor, exponent - 1) * factor >= U32_MAX;
      }
    }
  }

  lemma ProductsGrow(a: nat, b: nat, c: nat)
    requires a <= b
    ensures c * a <= c * b && a * c <= b * c
  {
  }

  /** The delay before jitter, whatever the jitter; an attempt of zero counts as the first. */
  lemma CapClosedForm(b: Backoff, attempt: U32)
    requires b.Valid()
    ensures Cap(b, attempt)
         == Min(b.initial * Min(Pow(b.factor, if attempt == 0 then 0 else attempt - 1), U32_MAX), b.maximum)
  {
    SaturatingPowIsCappedPow(b.factor, if attempt == 0 then 0 else attempt - 1);
  }

  /** Without jitter the delay is min(initial * min(factor^(attempt-1), 2^32-1), maximum), and it never shrinks. */
  lemma BackoffClosedForm(b: Backoff, attempt: U32, entropy: nat)
    requires b.Valid() && b.jitter == NoJitter && attempt >= 1
    ensures DelayAfter(b, attempt, entropy)
         == Min(b.initial * Min(Pow(b.factor, attempt - 1), U32_MAX), b.maximum)
    ensures forall later: U32 :: attempt <= later ==> DelayAfter(b, attempt, entropy) <= DelayAfter(b, later, entropy)
  {
    SaturatingPowIsCappedPow(b.factor, attempt - 1);
    forall later: U32 | attempt <= later
      ensures DelayAfter(b, attempt, entropy) <= DelayAfter(b, later, entropy)
    {
      SaturatingPowIsCappedPow(b.factor, later - 1);
      PowGrows(b.factor, attempt - 1, later - 1);
      ProductsGrow(SaturatingPow(b.factor, attempt - 1), SaturatingPow(b.factor, later - 1), b.initial);
    }
  }

  /** The delay if nothing saturated but the maximum. */
  function Exponential(b: Backoff, attempt: U32): nat
    requires attempt >= 1
  {
    Min(b.initial * Pow(b.factor, attempt - 1), b.maximum)
  }

  lemma {:induction false} DoublingPassesU32(factor: nat, exponent: nat)
    requires factor >= 2
    ensures Pow(factor, exponent) >= Pow(2, exponent)
    decreases exponent
  {
    if exponent == 0 {
    } else {
      DoublingPassesU32(factor, exponent - 1);
      assert Pow(factor, exponent - 1) * factor >= Pow(2, exponent - 1) * 2;
    }
  }

  lemma Associates(a: nat, b: nat, c: nat)
    ensures (a * b) * c == a * (b * c)
  {
  }

  lemma {:induction false} PowAdds(factor: nat, m: nat, n: nat)
    ensures Pow(factor, m + n) == Pow(factor, m) * Pow(factor, n)
    decreases n
  {
    if n == 0 {
    } else {
      PowAdds(factor, m, n - 1);
      Associates(Pow(factor, m), Pow(factor, n - 1), factor);
    }
  }

  lemma TwoToThe32()
    ensures Pow(2, 32) == U32_MAX + 1
  {
    assert Pow(2, 4) == 16;
    PowAdds(2, 4, 4);
    PowAdds(2, 8, 8);
    PowAdds(2, 16, 16);
  }

  lemma {:induction false} PowOfOne(exponent: nat)
    ensures Pow(1, exponent) == 1
    decreases exponent
  {
    if exponent == 0 {
    } else {
      PowOfOne(exponent - 1);
    }
  }

  /** The u32 multiplier is invisible for all attempts exactly when factor = 1 or maximum <= initial * (2^32 - 1). */
  lemma BackoffIsExponentialIff(b: Backoff)
    requires b.Valid()
    ensures (forall attempt: U32 :: attempt >= 1 ==> Cap(b, attempt) == Exponential(b, attempt))
        <==> b.factor == 1 || b.maximum <= b.initial * U32_MAX
  {
    forall attempt: U32 | attempt >= 1
      ensures b.factor == 1 || b.maximum <= b.initial * U32_MAX ==> Cap(b, attempt) == Exponential(b, attempt)
    {
      SaturatingPowIsCappedPow(b.factor, attempt - 1);
      PowOfOne(attempt - 1);
      if Pow(b.factor, attempt - 1) > U32_MAX {
        ProductsGrow(U32_MAX, Pow(b.factor, attempt - 1), b.initial);
      }
    }
    if b.factor != 1 && b.maximum > b.initial * U32_MAX {
      SaturatingPowIsCappedPow(b.factor, 32);
      DoublingPassesU32(b.factor, 32);
      TwoToThe32();
      ProductsGrow(U32_MAX + 1, Pow(b.factor, 32), b.initial);
      assert Cap(b, 33) != Exponential(b, 33);
    }
  }

  /** Full jitter stays in [0, cap]; equal jitter in [floor(cap / 2), cap]; the maximum always holds. */
  lemma JitterStaysBounded(b: Backoff, attempt: U32, entropy: nat)
    ensures DelayAfter(b, attempt, entropy) <= Cap(b, attempt) <= b.maximum
    ensures b.jitter == EqualJitter ==> DelayAfter(b, attempt, entropy) >= Cap(b, attempt) / 2
  {
  }

  ghost predicate Drawn(b: Backoff, attempt: U32, delay: nat) {
    exists entropy :: DelayAfter(b, attempt, entropy) == delay
  }

  /** Every value from `lo` to `hi` is the delay of some draw. */
  ghost predicate Reaches(b: Backoff, attempt: U32, lo: nat, hi: nat) {
    forall delay: nat :: lo <= delay <= hi ==> Drawn(b, attempt, delay)
  }

  /** The delays that can be drawn: the cap itself, or what lies in the jitter's range and fits a u64 of nanoseconds. */
  lemma DrawnIff(b: Backoff, attempt: U32, delay: nat)
    ensures var cap := Cap(b, attempt);
            Drawn(b, attempt, delay)
            <==> match b.jitter
                 case NoJitter => delay == cap
                 case FullJitter => delay <= Min(cap, U64_MAX)
                 case EqualJitter => cap / 2 <= delay <= cap && delay - cap / 2 <= U64_MAX
  {
    hide Cap;
    var cap := Cap(b, attempt);
    assert DelayAfter(b, attempt, delay) == delay || b.jitter != FullJitter || delay > Min(cap, U64_MAX);
    if b.jitter == EqualJitter && cap / 2 <= delay <= cap && delay - cap / 2 <= U64_MAX {
      assert DelayAfter(b, attempt, delay - cap / 2) == delay;
    }
    if b.jitter == NoJitter {
      assert DelayAfter(b, attempt, 0) == cap;
    }
  }

  /** Full jitter reaches all of [0, cap] exactly if the cap is at most u64::MAX nanoseconds. */
  lemma FullJitterReaches(b: Backoff, attempt: U32)
    requires b.jitter == FullJitter
    ensures Reaches(b, attempt, 0, Cap(b, attempt)) <==> Cap(b, attempt) <= U64_MAX
  {
    hide Cap, Drawn;
    forall delay: nat ensures Drawn(b, attempt, delay) <==> delay <= Min(Cap(b, attempt), U64_MAX) {
      DrawnIff(b, attempt, delay);
    }
    assert Drawn(b, attempt, Cap(b, attempt)) <==> Cap(b, attempt) <= U64_MAX;
  }

  /** Equal jitter reaches all of [floor(cap / 2), cap] exactly if the upper half is at most u64::MAX nanoseconds. */
  lemma EqualJitterReaches(b: Backoff, attempt: U32)
    requires b.jitter == EqualJitter
    ensures Reaches(b, attempt, Cap(b, attempt) / 2, Cap(b, attempt))
        <==> Cap(b, attempt) - Cap(b, attempt) / 2 <= U64_MAX
  {
    hide Cap, Drawn;
    var cap := Cap(b, attempt);
    forall delay: nat
      ensures Drawn(b, attempt, delay) <==> cap / 2 <= delay <= cap && delay - cap / 2 <= U64_MAX
    {
      DrawnIff(b, attempt, delay);
    }
    assert Drawn(b, attempt, cap) <==> cap - cap / 2 <= U64_MAX;
  }

  // ----- The policy -----

  datatype RetryPolicy = RetryPolicy(maxAttempts: U32, maxElapsed: Option<Duration>, backoff: Backoff)
  {
    predicate Valid() {
      maxAttempts > 0 && backoff.Valid()
    }
  }

  function NextDelay(p: RetryPolicy, attempt: U32, elapsed: Duration, decision: RetryDecision, entropy: nat)
    : Option<Duration>
  {
    if decision == DoNotRetry || attempt >= p.maxAttempts then None
    else
      var delay := DelayAfter(p.backoff, attempt, entropy);
      if p.maxElapsed.Some? && Plus(elapsed, delay) > p.maxElapsed.value then None else Some(delay)
  }

  /** Whether a failure of attempt `n` at time `elapsed` leaves room for a retry after `delay`. */
  predicate Grants(p: RetryPolicy, n: nat, elapsed: nat, decision: RetryDecision, delay: nat) {
    && decision == Retry
    && n < p.maxAttempts
    && (p.maxElapsed.None? || p.maxElapsed.value == DURATION_MAX || elapsed + delay <= p.maxElapsed.value)
  }

  /**
    A delay is granted exactly for a retryable failure with an attempt left and room for the delay in the
    elapsed budget, unless that budget is Duration::MAX; and it is the scheduled one.
   */
  lemma NextDelayMeaning(p: RetryPolicy, attempt: U32, elapsed: nat, decision: RetryDecision, entropy: nat)
    ensures var delay := DelayAfter(p.backoff, attempt, entropy);
            NextDelay(p, attempt, Clip(elapsed), decision, entropy)
            == if Grants(p, attempt, elapsed, decision, delay) then Some(delay) else None
  {
    hide DelayAfter;
  }

  /** An elapsed budget of Duration::MAX is no budget: the saturating sum never exceeds it. */
  lemma LongestBudgetIsNoBudget(p: RetryPolicy, attempt: U32, elapsed: Duration, decision: RetryDecision, entropy: nat)
    ensures NextDelay(p.(maxElapsed := Some(DURATION_MAX)), attempt, elapsed, decision, entropy)
         == NextDelay(p.(maxElapsed := None), attempt, elapsed, decision, entropy)
  {
  }

  // ----- The loop -----

  /**
    One round of the loop as the outside world plays it: how long the operation takes and how it ends,
    what the classifier says, the draw, and by how much the sleep overshoots.
   */
  datatype Turn = Turn(takes: nat, ok: bool, decision: RetryDecision, entropy: nat, overshoot: nat)

  /** `elapsed` is the time since the loop started. */
  datatype Outcome = Outcome(ok: bool, calls: nat, delays: seq<Duration>, elapsed: nat)

  /** The loop from attempt `attempt` on; `world(n)` is the n-th round. */
  function RetryFrom(p: RetryPolicy, world: nat -> Turn, attempt: U32, elapsed: nat): Outcome
    decreases p.maxAttempts - attempt
  {
    var turn := world(attempt);
    var failedAt := elapsed + turn.takes;
    if turn.ok then Outcome(true, 1, [], failedAt)
    else
      match NextDelay(p, attempt, Clip(failedAt), turn.decision, turn.entropy)
      case None => Outcome(false, 1, [], failedAt)
      case Some(delay) =>
        var rest := RetryFrom(p, world, attempt + 1, failedAt + delay + turn.overshoot);
        rest.(calls := rest.calls + 1, delays := [delay] + rest.delays)
  }

  /** The outcome of a loop that has slept `delays` before it goes on as `rest`. */
  function After(delays: seq<Duration>, rest: Outcome): Outcome {
    rest.(calls := rest.calls + |delays|, delays := delays + rest.delays)
  }

  lemma Regroup(delays: seq<Duration>, delay: Duration, rest: Outcome)
    ensures After(delays, After([delay], rest)) == After(delays + [delay], rest)
  {
    assert delays + ([delay] + rest.delays) == (delays + [delay]) + rest.delays;
  }

  /** One round that is retried. */
  lemma RetriedRound(p: RetryPolicy, world: nat -> Turn, attempt: U32, elapsed: nat, delay: Duration)
    requires var turn := world(attempt);
             !turn.ok
             && NextDelay(p, attempt, Clip(elapsed + turn.takes), turn.decision, turn.entropy) == Some(delay)
    ensures attempt < p.maxAttempts
    ensures var turn := world(attempt);
            RetryFrom(p, world, attempt, elapsed)
            == After([delay], RetryFrom(p, world, attempt + 1, elapsed + turn.takes + delay + turn.overshoot))
  {
  }

  /** A round that ends the loop. */
  lemma LastRound(p: RetryPolicy, world: nat -> Turn, attempt: U32, elapsed: nat, delays: seq<Duration>)
    requires var turn := world(attempt);
             turn.ok || NextDelay(p, attempt, Clip(elapsed + turn.takes), turn.decision, turn.entropy) == None
    ensures After(delays, RetryFrom(p, world, attempt, elapsed))
         == Outcome(world(attempt).ok, |delays| + 1, delays, elapsed + world(attempt).takes)
  {
  }

  lemma AfterNothing(r: Outcome)
    ensures After([], r) == r
  {
  }

  method RetryLoop(p: RetryPolicy, world: nat -> Turn) returns (r: Outcome)
    requires p.Valid()
    ensures r == RetryFrom(p, world, 1, 0)
  {
    hide Clip, NextDelay, After, RetryFrom;
    var elapsed: nat := 0;
    AfterNothing(RetryFrom(p, world, 1, 0));
    var attempt: U32 := 1;
    var delays: seq<Duration> := [];
    while true
      invariant 1 <= attempt <= p.maxAttempts
      invariant |delays| == attempt - 1
      invariant RetryFrom(p, world, 1, 0) == After(delays, RetryFrom(p, world, attempt, elapsed))
      decreases p.maxAttempts - attempt
    {
      var turn := world(attempt);
      elapsed := elapsed + turn.takes;
      if turn.ok {
        LastRound(p, world, attempt, elapsed - turn.takes, delays);
        return Outcome(true, attempt, delays, elapsed);
      }
      var next := NextDelay(p, attempt, Clip(elapsed), turn.decision, turn.entropy);
      if next.None? {
        LastRound(p, world, attempt, elapsed - turn.takes, delays);
        return Outcome(false, attempt, delays, elapsed);
      }
      RetriedRound(p, world, attempt, elapsed - turn.takes, next.value);
      Regroup(delays, next.value, RetryFrom(p, world, attempt + 1, elapsed + next.value + turn.overshoot));
      delays := delays + [next.value];
      elapsed := elapsed + next.value + turn.overshoot;
      attempt := attempt + 1;
    }
  }

  function Sum(delays: seq<Duration>): nat {
    if delays == [] then 0 else delays[0] + Sum(delays[1..])
  }

  /** When call `i` of a loop ends that sleeps `delays` between its calls. */
  function EndOfCall(world: nat -> Turn, attempt: nat, elapsed: nat, delays: seq<Duration>, i: nat): nat
    requires i <= |delays|
  {
    if i == 0 then elapsed + world(attempt).takes
    else
      EndOfCall(world, attempt, elapsed, delays, i - 1)
      + delays[i - 1] + world(attempt + i - 1).overshoot + world(attempt + i).takes
  }

  /** Round `n` failed at `failedAt`, and was followed by the delay scheduled for it, for which there was room. */
  ghost predicate RetriedAfter(p: RetryPolicy, world: nat -> Turn, n: int, failedAt: nat, delay: Duration) {
    && 0 < n < p.maxAttempts
    && !world(n).ok
    && delay == DelayAfter(p.backoff, n, world(n).entropy)
    && Grants(p, n, failedAt, world(n).decision, delay)
  }

  ghost predicate Scheduled(p: RetryPolicy, world: nat -> Turn, attempt: nat, elapsed: nat, delays: seq<Duration>) {
    forall i :: 0 <= i < |delays| ==>
      RetriedAfter(p, world, attempt + i, EndOfCall(world, attempt, elapsed, delays, i), delays[i])
  }

  lemma {:induction false} EndOfCallCons(world: nat -> Turn, attempt: nat, elapsed: nat,
                                         delay: Duration, rest: seq<Duration>, i: nat)
    requires i <= |rest|
    ensures var slept := elapsed + world(attempt).takes + delay + world(attempt).overshoot;
            EndOfCall(world, attempt, elapsed, [delay] + rest, i + 1) == EndOfCall(world, attempt + 1, slept, rest, i)
    decreases i
  {
    if i == 0 {
      assert EndOfCall(world, attempt, elapsed, [delay] + rest, 0) == elapsed + world(attempt).takes;
    } else {
      EndOfCallCons(world, attempt, elapsed, delay, rest, i - 1);
    }
  }

  lemma FirstEndOfCall(world: nat -> Turn, attempt: nat, elapsed: nat, delays: seq<Duration>)
    ensures EndOfCall(world, attempt, elapsed, delays, 0) == elapsed + world(attempt).takes
  {
  }

  lemma ScheduledAt(p: RetryPolicy, world: nat -> Turn, attempt: nat, elapsed: nat, delays: seq<Duration>, i: nat)
    requires Scheduled(p, world, attempt, elapsed, delays) && i < |delays|
    ensures RetriedAfter(p, world, attempt + i, EndOfCall(world, attempt, elapsed, delays, i), delays[i])
  {
  }

  lemma ScheduledCons(p: RetryPolicy, world: nat -> Turn, attempt: nat, elapsed: nat, delay: Duration,
                      slept: nat, rest: seq<Duration>)
    requires slept == elapsed + world(attempt).takes + delay + world(attempt).overshoot
    requires RetriedAfter(p, world, attempt, elapsed + world(attempt).takes, delay)
    requires Scheduled(p, world, attempt + 1, slept, rest)
    ensures Scheduled(p, world, attempt, elapsed, [delay] + rest)
  {
    hide RetriedAfter, EndOfCall;
    var delays := [delay] + rest;
    forall i | 0 <= i < |delays|
      ensures RetriedAfter(p, world, attempt + i, EndOfCall(world, attempt, elapsed, delays, i), delays[i])
    {
      if i == 0 {
        FirstEndOfCall(world, attempt, elapsed, delays);
      } else {
        EndOfCallCons(world, attempt, elapsed, delay, rest, i - 1);
        ScheduledAt(p, world, attempt + 1, slept, rest, i - 1);
      }
    }
  }

  /** Round `n` ended the loop: with a success, or with a failure that left no room for a retry. */
  ghost predicate EndedBy(p: RetryPolicy, world: nat -> Turn, n: nat, r: Outcome) {
    && 0 < n <= p.maxAttempts
    && r.ok == world(n).ok
    && (!r.ok ==> !Grants(p, n, r.elapsed, world(n).decision, DelayAfter(p.backoff, n, world(n).entropy)))
  }

  lemma NothingScheduled(p: RetryPolicy, world: nat -> Turn, attempt: nat, elapsed: nat)
    ensures Scheduled(p, world, attempt, elapsed, [])
  {
  }

  /**
    Every call but the last failed, was retryable with attempts and budget left, and was retried after the
    delay scheduled for it; the last one succeeded or was not to be retried, and its result is the loop's.
    Time passes in the calls, the delays and their overshoots, and nowhere else.
   */
  lemma {:induction false} RetryFollowsSchedule(p: RetryPolicy, world: nat -> Turn, attempt: U32, elapsed: nat)
    requires 1 <= attempt <= p.maxAttempts
    ensures var r := RetryFrom(p, world, attempt, elapsed);
            && 1 <= r.calls <= p.maxAttempts - attempt + 1
            && |r.delays| == r.calls - 1
            && r.elapsed == EndOfCall(world, attempt, elapsed, r.delays, |r.delays|)
            && Scheduled(p, world, attempt, elapsed, r.delays)
            && EndedBy(p, world, attempt + r.calls - 1, r)
    decreases p.maxAttempts - attempt
  {
    hide DelayAfter, NextDelay, Clip, Scheduled, EndOfCall;
    var turn := world(attempt);
    var failedAt := elapsed + turn.takes;
    NextDelayMeaning(p, attempt, failedAt, turn.decision, turn.entropy);
    var next := NextDelay(p, attempt, Clip(failedAt), turn.decision, turn.entropy);
    if !turn.ok && next.Some? {
      var slept := failedAt + next.value + turn.overshoot;
      var rest := RetryFrom(p, world, attempt + 1, slept);
      RetryFollowsSchedule(p, world, attempt + 1, slept);
      RetriedRound(p, world, attempt, elapsed, next.value);
      ScheduledCons(p, world, attempt, elapsed, next.value, slept, rest.delays);
      EndOfCallCons(world, attempt, elapsed, next.value, rest.delays, |rest.delays|);
    } else {
      NothingScheduled(p, world, attempt, elapsed);
      FirstEndOfCall(world, attempt, elapsed, []);
    }
  }

  lemma SumCons(delay: Duration, rest: seq<Duration>)
    ensures Sum([delay] + rest) == delay + Sum(rest)
  {
    assert ([delay] + rest)[1..] == rest;
  }

  lemma AdmittedFits(p: RetryPolicy, attempt: U32, failedAt: nat, decision: RetryDecision, entropy: nat)
    requires p.maxElapsed.Some? && p.maxElapsed.value < DURATION_MAX
    requires NextDelay(p, attempt, Clip(failedAt), decision, entropy).Some?
    ensures failedAt + NextDelay(p, attempt, Clip(failedAt), decision, entropy).value <= p.maxElapsed.value
  {
  }

  /** The scheduled delays fit into what is left of the elapsed budget, unless that budget is Duration::MAX. */
  lemma {:induction false} SleepsFitElapsedBudget(p: RetryPolicy, world: nat -> Turn, attempt: U32, elapsed: nat)
    requires p.maxElapsed.Some? && p.maxElapsed.value < DURATION_MAX
    ensures var delays := RetryFrom(p, world, attempt, elapsed).delays;
            delays != [] ==> elapsed + Sum(delays) <= p.maxElapsed.value
    decreases p.maxAttempts - attempt
  {
    hide Clip, NextDelay;
    var turn := world(attempt);
    var failedAt := elapsed + turn.takes;
    var next := NextDelay(p, attempt, Clip(failedAt), turn.decision, turn.entropy);
    if !turn.ok && next.Some? {
      AdmittedFits(p, attempt, failedAt, turn.decision, turn.entropy);
      RetriedRound(p, world, attempt, elapsed, next.value);
      var slept := failedAt + next.value + turn.overshoot;
      SleepsFitElapsedBudget(p, world, attempt + 1, slept);
      SumCons(next.value, RetryFrom(p, world, attempt + 1, slept).delays);
    }
  }

  lemma {:induction false} SumIsBounded(delays: seq<Duration>, most: nat)
    requires forall i :: 0 <= i < |delays| ==> delays[i] <= most
    ensures Sum(delays) <= |delays| * most
    decreases |delays|
  {
    if delays == [] {
    } else {
      SumIsBounded(delays[1..], most);
      assert (|delays| - 1) * most + most == |delays| * most;
    }
  }

  lemma DelaysAreBounded(p: RetryPolicy, world: nat -> Turn, attempt: nat, elapsed: nat, delays: seq<Duration>)
    requires Scheduled(p, world, attempt, elapsed, delays)
    ensures forall i :: 0 <= i < |delays| ==> delays[i] <= p.backoff.maximum
  {
    hide EndOfCall, Scheduled, DelayAfter;
    forall i | 0 <= i < |delays| ensures delays[i] <= p.backoff.maximum {
      ScheduledAt(p, world, attempt, elapsed, delays, i);
      JitterStaysBounded(p.backoff, attempt + i, world(attempt + i).entropy);
    }
  }

  /** The whole loop: at most max_attempts calls, one sleep fewer, and both bounds on the total scheduled sleep. */
  lemma RetryIsBounded(p: RetryPolicy, world: nat -> Turn)
    requires p.Valid()
    ensures var r := RetryFrom(p, world, 1, 0);
            && 1 <= r.calls <= p.maxAttempts
            && |r.delays| == r.calls - 1
            && Sum(r.delays) <= (p.maxAttempts - 1) * p.backoff.maximum
            && (p.maxElapsed.Some? && p.maxElapsed.value < DURATION_MAX ==> Sum(r.delays) <= p.maxElapsed.value)
  {
    hide RetryFrom, EndOfCall, Scheduled, EndedBy, Sum;
    var r := RetryFrom(p, world, 1, 0);
    RetryFollowsSchedule(p, world, 1, 0);
    DelaysAreBounded(p, world, 1, 0, r.delays);
    SumIsBounded(r.delays, p.backoff.maximum);
    ProductsGrow(|r.delays|, p.maxAttempts - 1, p.backoff.maximum);
    if p.maxElapsed.Some? && p.maxElapsed.value < DURATION_MAX {
      SleepsFitElapsedBudget(p, world, 1, 0);
    }
  }

  // ----- The elapsed budget, exactly -----

  /** The budget bounds the total sleep of every loop that runs under it. */
  ghost predicate BudgetHolds(budget: Duration) {
    forall p: RetryPolicy, world: nat -> Turn ::
      p.Valid() && p.maxElapsed == Some(budget) ==> Sum(RetryFrom(p, world, 1, 0).delays) <= budget
  }

  /** Three attempts and the longest delays there are, under a budget of Duration::MAX. */
  const PATIENT := RetryPolicy(3, Some(DURATION_MAX), Backoff(DURATION_MAX, DURATION_MAX, 1, NoJitter))

  function AlwaysFails(): nat -> Turn {
    _ => Turn(0, false, Retry, 0, 0)
  }

  lemma PatientDelays(attempt: U32, elapsed: nat)
    requires 1 <= attempt <= 2
    ensures NextDelay(PATIENT, attempt, Clip(elapsed), Retry, 0) == Some(DURATION_MAX)
  {
    SaturatingPowIsCappedPow(1, attempt - 1);
    PowOfOne(attempt - 1);
  }

  /** It sleeps twice as long as its budget. */
  lemma PatientSleepsTwice()
    ensures Sum(RetryFrom(PATIENT, AlwaysFails(), 1, 0).delays) == 2 * DURATION_MAX
  {
    PatientDelays(1, 0);
    PatientDelays(2, DURATION_MAX);
    var last := RetryFrom(PATIENT, AlwaysFails(), 3, 2 * DURATION_MAX);
    assert last.delays == [];
    var second := RetryFrom(PATIENT, AlwaysFails(), 2, DURATION_MAX);
    assert second.delays == [DURATION_MAX] + last.delays;
    SumCons(DURATION_MAX, last.delays);
    SumCons(DURATION_MAX, second.delays);
  }

  /** An elapsed budget bounds the total sleep of every loop exactly if it is not Duration::MAX. */
  lemma BudgetHoldsIff(budget: Duration)
    ensures BudgetHolds(budget) <==> budget < DURATION_MAX
  {
    if budget < DURATION_MAX {
      forall p: RetryPolicy, world: nat -> Turn | p.Valid() && p.maxElapsed == Some(budget)
        ensures Sum(RetryFrom(p, world, 1, 0).delays) <= budget
      {
        RetryIsBounded(p, world);
      }
    } else {
      PatientSleepsTwice();
      assert PATIENT.Valid() && PATIENT.maxElapsed == Some(budget);
    }
  }
}
