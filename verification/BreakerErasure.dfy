/**
  Stale permits. The breaker tells a late outcome by comparing `u64` generations that wrap. Here the
  wrapping breaker is compared with one whose generation never wraps, and both with the run from which
  every late outcome has been deleted.
 */
module BreakerErasure {
  import opened Wrappers
  import opened Breaker
  import opened BreakerRuns

  // ----- The wrapping generation -----

  function WrapTicket(t: Ticket): Ticket {
    t.(generation := t.generation % WRAP)
  }

  function WrapShared(s: Shared): Shared {
    s.(generation := s.generation % WRAP)
  }

  /** The machine the source really runs, seen from the one that does not wrap. */
  function Wrapped(m: Machine): Machine {
    Machine(WrapShared(m.shared), map p | p in m.permits :: WrapTicket(m.permits[p]), m.issued)
  }

  /** How many transitions permit `p` has lived through. */
  function Age(m: Machine, p: nat): int
    requires p in m.permits
  {
    m.shared.generation - m.permits[p].generation
  }

  /** The event does not complete a permit whose age is a positive multiple of 2^64. */
  predicate Unaliased(m: Machine, e: Event) {
    match Completes(e)
    case None => true
    case Some(p) => p in m.permits ==> Age(m, p) == 0 || Age(m, p) % WRAP != 0
  }

  predicate Timely(c: Config, m: Machine, events: seq<Event>)
    decreases |events|
  {
    events == [] || (Unaliased(m, events[0]) && Timely(c, Step(c, m, events[0], 0).0, events[1..]))
  }

  /** The code's staleness check is right exactly for the permits that are not aliased. */
  lemma WrappedCheckIsExact(c: Config, m: Machine, p: nat)
    requires Accounted(c, m) && p in m.permits
    ensures (p in Live(Wrapped(m)) <==> p in Live(m)) <==> Age(m, p) == 0 || Age(m, p) % WRAP != 0
  {
    var g, h := m.shared.generation, m.permits[p].generation;
    assert g % WRAP == h % WRAP <==> (g - h) % WRAP == 0;
  }

  /** What an outcome needs, besides the generation, to act on a mode. */
  predicate Fits(mode: Mode, kind: PermitKind) {
    (mode.ClosedMode? && kind.ClosedKind?) || (mode.HalfOpenMode? && kind.HalfOpenKind?)
  }

  /**
    When a late outcome changes the state of the wrapping breaker: only if its permit is aliased and of the
    kind of the current mode. A failure then always does, a success unless it resets a failure count of
    zero, and an abandonment exactly in HalfOpen with a probe in flight.
   */
  lemma LateOutcomeActsIff(c: Config, m: Machine, p: nat, now: nat)
    requires c.Valid() && Accounted(c, m) && p in m.permits && p !in Live(m)
    ensures var w := Wrapped(m);
            var mode := w.shared.mode;
            var acts := Age(m, p) % WRAP == 0 && Fits(mode, m.permits[p].kind);
            && (Step(c, w, Event(now, Fail(p)), WRAP).0.shared != w.shared <==> acts)
            && (Step(c, w, Event(now, Succeed(p)), WRAP).0.shared != w.shared <==> acts && mode != ClosedMode(0))
            && (Step(c, w, Event(now, Abandon(p)), WRAP).0.shared != w.shared
                <==> acts && mode.HalfOpenMode? && mode.inFlight > 0)
  {
    WrappedCheckIsExact(c, m, p);
    assert p in Live(Wrapped(m)) <==> Age(m, p) % WRAP == 0;
  }

  lemma BumpWraps(generation: nat)
    ensures Bump(generation % WRAP, WRAP) == Bump(generation, 0) % WRAP
  {
  }

  lemma RefreshWraps(s: Shared, now: nat)
    ensures Refresh(WrapShared(s), now, WRAP) == WrapShared(Refresh(s, now, 0))
  {
    BumpWraps(s.generation);
  }

  lemma AdmissionWraps(c: Config, m: Machine, e: Event)
    requires Completes(e).None?
    ensures var (n, response) := Step(c, m, e, 0);
            Step(c, Wrapped(m), e, WRAP) == (Wrapped(n), response)
  {
    hide Refresh;
    RefreshWraps(m.shared, e.at);
    var n := Step(c, m, e, 0).0;
    var w := Step(c, Wrapped(m), e, WRAP).0;
    assert w.permits == Wrapped(n).permits;
  }

  /** An outcome acts on the wrapping breaker as on the other one if both find its permit current, or neither. */
  lemma RecordWraps(c: Config, s: Shared, t: Ticket, now: nat)
    requires s.generation == t.generation <==> s.generation % WRAP == t.generation % WRAP
    ensures RecordSuccess(c, WrapShared(s), WrapTicket(t), WRAP) == WrapShared(RecordSuccess(c, s, t, 0))
    ensures RecordFailure(c, WrapShared(s), WrapTicket(t), now, WRAP) == WrapShared(RecordFailure(c, s, t, now, 0))
    ensures RecordAbandon(WrapShared(s), WrapTicket(t)) == WrapShared(RecordAbandon(s, t))
  {
    BumpWraps(s.generation);
  }

  lemma CompletionWraps(c: Config, m: Machine, e: Event, p: nat)
    requires Accounted(c, m) && Unaliased(m, e) && Completes(e) == Some(p)
    ensures var (n, response) := Step(c, m, e, 0);
            Step(c, Wrapped(m), e, WRAP) == (Wrapped(n), response)
  {
    hide RecordSuccess, RecordFailure, RecordAbandon;
    if p in m.permits {
      WrappedCheckIsExact(c, m, p);
      RecordWraps(c, m.shared, m.permits[p], e.at);
      var rest := m.(permits := m.permits - {p});
      assert Wrapped(m).permits - {p} == Wrapped(rest).permits;
    }
  }

  lemma StepWraps(c: Config, m: Machine, e: Event)
    requires c.Valid() && Accounted(c, m) && Unaliased(m, e)
    ensures var (n, response) := Step(c, m, e, 0);
            Step(c, Wrapped(m), e, WRAP) == (Wrapped(n), response)
  {
    hide Step, Accounted;
    if Completes(e).None? {
      AdmissionWraps(c, m, e);
    } else {
      CompletionWraps(c, m, e, Completes(e).value);
    }
  }

  /** Without aliasing the wrapping breaker does, at every step of every run, what the unbounded one does. */
  lemma {:induction false} WrappingRefinesUnbounded(c: Config, m: Machine, events: seq<Event>)
    requires c.Valid() && Accounted(c, m) && Timely(c, m, events)
    ensures Exec(c, Wrapped(m), events, WRAP) == Wrapped(Exec(c, m, events, 0))
    decreases |events|
  {
    if events == [] {
    } else {
      StepWraps(c, m, events[0]);
      StepKeepsAccounts(c, m, events[0]);
      WrappingRefinesUnbounded(c, Step(c, m, events[0], 0).0, events[1..]);
    }
  }

  lemma GenerationGrowsByOne(c: Config, m: Machine, e: Event)
    ensures m.shared.generation <= Step(c, m, e, 0).0.shared.generation <= m.shared.generation + 1
  {
  }

  /** A run of fewer than 2^64 events cannot alias a permit. */
  lemma {:induction false} ShortRunsAreTimely(c: Config, m: Machine, events: seq<Event>)
    requires c.Valid() && Accounted(c, m)
    requires m.shared.generation + |events| < WRAP
    ensures Timely(c, m, events)
    decreases |events|
  {
    if events == [] {
    } else {
      StepKeepsAccounts(c, m, events[0]);
      GenerationGrowsByOne(c, m, events[0]);
      ShortRunsAreTimely(c, Step(c, m, events[0], 0).0, events[1..]);
    }
  }

  /**
    The accounts of the wrapping breaker: `in_flight` counts the outstanding probes of the current
    generation, at most the threshold, with `successes` below it; Closed stays below its own threshold;
    Open has no current permit.
   */
  lemma WrappingBreakerIsAccounted(c: Config, events: seq<Event>)
    requires c.Valid() && Timely(c, START, events)
    ensures var w := Exec(c, START, events, WRAP);
            var m := Exec(c, START, events, 0);
            w.permits.Keys == m.permits.Keys
            && match w.shared.mode
               case ClosedMode(failures) =>
                 failures < c.failureThreshold && forall p <- Live(m) :: w.permits[p].kind.ClosedKind?
               case OpenMode(_) => Live(m) == {}
               case HalfOpenMode(inFlight, successes) =>
                 && inFlight == |Live(m)| <= c.halfOpenSuccessThreshold
                 && successes < c.halfOpenSuccessThreshold
                 && forall p <- Live(m) :: w.permits[p].kind.HalfOpenKind?
  {
    assert Live(START) == {};
    assert Wrapped(START) == START;
    WrappingRefinesUnbounded(c, START, events);
    RunKeepsAccounts(c, START, events);
  }

  /**
    A completion that the code takes for current, unless its permit is aliased, meets the mode its permit
    was issued in: no saturating operation clips, and the fall-through arms are never taken.
   */
  lemma WrappingCompletionsAreExact(c: Config, events: seq<Event>, p: nat)
    requires c.Valid() && Timely(c, START, events)
    requires p in Live(Exec(c, START, events, WRAP))
    requires var m := Exec(c, START, events, 0);
             p in m.permits ==> Age(m, p) == 0 || Age(m, p) % WRAP != 0
    ensures var w := Exec(c, START, events, WRAP);
            var current := Live(Exec(c, START, events, 0));
            && p in current
            && match w.shared.mode
               case ClosedMode(failures) =>
                 w.permits[p].kind.ClosedKind? && SaturatingAdd32(failures, 1) == failures + 1
               case OpenMode(_) => false
               case HalfOpenMode(inFlight, successes) =>
                 && w.permits[p].kind.HalfOpenKind?
                 && SaturatingSub32(inFlight, 1) == inFlight - 1 == |current - {p}|
                 && SaturatingAdd32(successes, 1) == successes + 1
  {
    assert Live(START) == {};
    assert Wrapped(START) == START;
    WrappingRefinesUnbounded(c, START, events);
    RunKeepsAccounts(c, START, events);
    WrappedCheckIsExact(c, Exec(c, START, events, 0), p);
    CurrentCompletionsAreExact(c, events, p);
  }

  /** A caller the code rejects found the circuit open and unexpired, or every probe slot taken by a live probe. */
  lemma WrappingRejectionHasACause(c: Config, events: seq<Event>, now: nat)
    requires c.Valid() && Timely(c, START, events)
    requires Step(c, Exec(c, START, events, WRAP), Event(now, Admit), WRAP).1 == Rejected
    ensures var w := Exec(c, START, events, WRAP);
            var current := Live(Exec(c, START, events, 0));
            && current <= Live(w)
            && (|| (w.shared.mode.OpenMode? && now < w.shared.mode.until)
                || (w.shared.mode.HalfOpenMode? && |current| == c.halfOpenSuccessThreshold
                    && exists p :: p in current && w.permits[p].kind.HalfOpenKind?))
  {
    var m := Exec(c, START, events, 0);
    assert Live(START) == {};
    assert Wrapped(START) == START;
    WrappingRefinesUnbounded(c, START, events);
    RunKeepsAccounts(c, START, events);
    StepWraps(c, m, Event(now, Admit));
    RejectionHasACause(c, events, now);
    assert forall p <- Live(m) :: p in Live(Wrapped(m));
  }

  // ----- Erasing late outcomes -----

  /** The event would complete a permit that is no longer current. */
  predicate Late(m: Machine, e: Event) {
    Completes(e).Some? && Completes(e).value !in Live(m)
  }

  function Erase(c: Config, m: Machine, events: seq<Event>, modulus: nat): seq<Event>
    decreases |events|
  {
    if events == [] then []
    else
      var rest := Erase(c, Step(c, m, events[0], modulus).0, events[1..], modulus);
      if Late(m, events[0]) then rest else [events[0]] + rest
  }

  /** One step as seen from outside: the event, its answer, and the shared state after it. */
  datatype Moment = Moment(event: Event, response: Response, shared: Shared)

  function Trace(c: Config, m: Machine, events: seq<Event>, modulus: nat): seq<Moment>
    decreases |events|
  {
    if events == [] then []
    else
      var (n, response) := Step(c, m, events[0], modulus);
      [Moment(events[0], response, n.shared)] + Trace(c, n, events[1..], modulus)
  }

  /** The trace without the moments at which a late outcome arrived. */
  function LiveTrace(c: Config, m: Machine, events: seq<Event>, modulus: nat): seq<Moment>
    decreases |events|
  {
    if events == [] then []
    else
      var (n, response) := Step(c, m, events[0], modulus);
      var rest := LiveTrace(c, n, events[1..], modulus);
      if Late(m, events[0]) then rest else [Moment(events[0], response, n.shared)] + rest
  }

  /** `n` is `m` with, possibly, more forgotten permits outstanding. */
  ghost predicate Covers(n: Machine, m: Machine) {
    && n.shared == m.shared
    && n.issued == m.issued
    && forall p <- m.permits :: p in n.permits && n.permits[p] == m.permits[p]
  }

  lemma LateStepChangesNothing(c: Config, n: Machine, m: Machine, e: Event, modulus: nat)
    requires Covers(n, m) && Late(m, e)
    ensures Covers(n, Step(c, m, e, modulus).0)
  {
  }

  lemma LiveStepIsShared(c: Config, n: Machine, m: Machine, e: Event, modulus: nat)
    requires Covers(n, m) && !Late(m, e)
    ensures Covers(Step(c, n, e, modulus).0, Step(c, m, e, modulus).0)
    ensures Step(c, n, e, modulus).1 == Step(c, m, e, modulus).1
  {
  }

  /** Deleting every late outcome leaves every remaining answer and every remaining state as it was. */
  lemma {:induction false} ErasureChangesNothing(c: Config, n: Machine, m: Machine, events: seq<Event>, modulus: nat)
    requires Covers(n, m)
    ensures Trace(c, n, Erase(c, m, events, modulus), modulus) == LiveTrace(c, m, events, modulus)
    ensures Covers(Exec(c, n, Erase(c, m, events, modulus), modulus), Exec(c, m, events, modulus))
    decreases |events|
  {
    if events == [] {
    } else {
      var e, rest := events[0], events[1..];
      var m' := Step(c, m, e, modulus).0;
      if Late(m, e) {
        LateStepChangesNothing(c, n, m, e, modulus);
        ErasureChangesNothing(c, n, m', rest, modulus);
      } else {
        LiveStepIsShared(c, n, m, e, modulus);
        var n' := Step(c, n, e, modulus).0;
        ErasureChangesNothing(c, n', m', rest, modulus);
        var erased := Erase(c, m', rest, modulus);
        assert Erase(c, m, events, modulus)[1..] == erased;
      }
    }
  }

  function WrapMoments(moments: seq<Moment>): seq<Moment> {
    seq(|moments|, i requires 0 <= i < |moments| => moments[i].(shared := WrapShared(moments[i].shared)))
  }

  lemma {:induction false} LiveTraceWraps(c: Config, m: Machine, events: seq<Event>)
    requires c.Valid() && Accounted(c, m) && Timely(c, m, events)
    ensures LiveTrace(c, Wrapped(m), events, WRAP) == WrapMoments(LiveTrace(c, m, events, 0))
    decreases |events|
  {
    if events == [] {
    } else {
      var e := events[0];
      StepWraps(c, m, e);
      StepKeepsAccounts(c, m, e);
      if Completes(e).Some? && Completes(e).value in m.permits {
        WrappedCheckIsExact(c, m, Completes(e).value);
      }
      LiveTraceWraps(c, Step(c, m, e, 0).0, events[1..]);
    }
  }

  lemma {:induction false} ErasureWraps(c: Config, m: Machine, events: seq<Event>)
    requires c.Valid() && Accounted(c, m) && Timely(c, m, events)
    ensures Erase(c, Wrapped(m), events, WRAP) == Erase(c, m, events, 0)
    decreases |events|
  {
    hide Step, Accounted;
    if events == [] {
    } else {
      var e := events[0];
      StepWraps(c, m, e);
      StepKeepsAccounts(c, m, e);
      if Completes(e).Some? && Completes(e).value in m.permits {
        WrappedCheckIsExact(c, m, Completes(e).value);
      }
      ErasureWraps(c, Step(c, m, e, 0).0, events[1..]);
    }
  }

  /**
    A permit issued in an earlier epoch cannot influence the breaker. On any run without aliasing, every
    answer and state of the wrapping breaker, except at late outcomes, is what it would have been with the
    truly late outcomes deleted, and is that of the never-wrapping breaker with them deleted.
   */
  lemma LateOutcomesAreHarmless(c: Config, events: seq<Event>)
    requires c.Valid() && Timely(c, START, events)
    ensures LiveTrace(c, START, events, WRAP) == Trace(c, START, Erase(c, START, events, 0), WRAP)
    ensures LiveTrace(c, START, events, WRAP)
         == WrapMoments(Trace(c, START, Erase(c, START, events, 0), 0))
  {
    assert Live(START) == {};
    assert Wrapped(START) == START;
    ErasureChangesNothing(c, START, START, events, 0);
    ErasureChangesNothing(c, START, START, events, WRAP);
    ErasureWraps(c, START, events);
    LiveTraceWraps(c, START, events);
  }

  // ----- Why aliasing must be excluded -----

  lemma {:induction false} ExecInTwo(c: Config, m: Machine, first: seq<Event>, second: seq<Event>, modulus: nat)
    ensures Exec(c, m, first + second, modulus) == Exec(c, Exec(c, m, first, modulus), second, modulus)
    decreases |first|
  {
    if first == [] {
      assert first + second == second;
    } else {
      assert (first + second)[1..] == first[1..] + second;
      ExecInTwo(c, Step(c, m, first[0], modulus).0, first[1..], second, modulus);
    }
  }

  const HASTY := Config(1, 1, 1)

  const FIRST_PERMIT: map<nat, Ticket> := map[0 := Ticket(0, ClosedKind)]

  /** Permit 0 has been out since generation 0. */
  function ClosedSince(generation: nat, issued: nat): Machine {
    Machine(Shared(generation, ClosedMode(0)), FIRST_PERMIT, issued)
  }

  function OpenSince(generation: nat, issued: nat, until: nat): Machine {
    Machine(Shared(generation, OpenMode(until)), FIRST_PERMIT, issued)
  }

  function AdmitAndFail(at: nat, p: nat): seq<Event> {
    [Event(at, Admit), Event(at, Fail(p))]
  }

  function AdmitAndSucceed(at: nat, p: nat): seq<Event> {
    [Event(at, Admit), Event(at, Succeed(p))]
  }

  lemma TwoSteps(m: Machine, events: seq<Event>)
    requires |events| == 2
    ensures Exec(HASTY, m, events, 0) == Step(HASTY, Step(HASTY, m, events[0], 0).0, events[1], 0).0
  {
    var m' := Step(HASTY, m, events[0], 0).0;
    assert Exec(HASTY, m', events[1..], 0) == Exec(HASTY, Step(HASTY, m', events[1], 0).0, events[1..][1..], 0);
  }

  lemma Trips(generation: nat, issued: nat, at: nat)
    requires issued > 0
    ensures Exec(HASTY, ClosedSince(generation, issued), AdmitAndFail(at, issued), 0)
         == OpenSince(generation + 1, issued + 1, at + 1)
  {
    TwoSteps(ClosedSince(generation, issued), AdmitAndFail(at, issued));
    assert FIRST_PERMIT[issued := Ticket(generation, ClosedKind)] - {issued} == FIRST_PERMIT;
  }

  lemma ProbeFails(generation: nat, issued: nat, until: nat)
    requires issued > 0
    ensures Exec(HASTY, OpenSince(generation, issued, until), AdmitAndFail(until, issued), 0)
         == OpenSince(generation + 2, issued + 1, until + 1)
  {
    TwoSteps(OpenSince(generation, issued, until), AdmitAndFail(until, issued));
    assert FIRST_PERMIT[issued := Ticket(generation + 1, HalfOpenKind)] - {issued} == FIRST_PERMIT;
  }

  lemma ProbeSucceeds(generation: nat, issued: nat, until: nat)
    requires issued > 0
    ensures Exec(HASTY, OpenSince(generation, issued, until), AdmitAndSucceed(until, issued), 0)
         == ClosedSince(generation + 2, issued + 1)
  {
    TwoSteps(OpenSince(generation, issued, until), AdmitAndSucceed(until, issued));
    assert FIRST_PERMIT[issued := Ticket(generation + 1, HalfOpenKind)] - {issued} == FIRST_PERMIT;
  }

  /** A probe that fails as soon as it is admitted, `rounds` times over. */
  function FailedProbes(issued: nat, until: nat, rounds: nat): seq<Event>
    decreases rounds
  {
    if rounds == 0 then []
    else AdmitAndFail(until, issued) + FailedProbes(issued + 1, until + 1, rounds - 1)
  }

  lemma {:induction false} ProbesKeepFailing(generation: nat, issued: nat, until: nat, rounds: nat)
    requires issued > 0
    ensures Exec(HASTY, OpenSince(generation, issued, until), FailedProbes(issued, until, rounds), 0)
         == OpenSince(generation + 2 * rounds, issued + rounds, until + rounds)
    decreases rounds
  {
    if rounds == 0 {
    } else {
      ProbeFails(generation, issued, until);
      ExecInTwo(HASTY, OpenSince(generation, issued, until), AdmitAndFail(until, issued),
                FailedProbes(issued + 1, until + 1, rounds - 1), 0);
      ProbesKeepFailing(generation + 2, issued + 1, until + 1, rounds - 1);
    }
  }

  /** Permit 0 is issued and kept; the circuit trips and recovers. */
  function TripAndRecover(): seq<Event> {
    ([Event(0, Admit)] + AdmitAndFail(0, 1)) + AdmitAndSucceed(1, 2)
  }

  /** The circuit trips and recovers, trips again, fails some probes, and recovers. */
  function LongRun(rounds: nat): seq<Event> {
    ((TripAndRecover() + AdmitAndFail(1, 3)) + FailedProbes(4, 2, rounds))
    + AdmitAndSucceed(rounds + 2, rounds + 4)
  }

  lemma TrippedAndRecovered()
    ensures Exec(HASTY, START, TripAndRecover(), 0) == ClosedSince(3, 3)
  {
    var first := [Event(0, Admit)];
    assert Exec(HASTY, START, first, 0) == Exec(HASTY, Step(HASTY, START, first[0], 0).0, first[1..], 0);
    assert Exec(HASTY, START, first, 0) == ClosedSince(0, 1);
    ExecInTwo(HASTY, START, first + AdmitAndFail(0, 1), AdmitAndSucceed(1, 2), 0);
    ExecInTwo(HASTY, START, first, AdmitAndFail(0, 1), 0);
    Trips(0, 1, 0);
    ProbeSucceeds(1, 2, 1);
  }

  lemma LongRunEnds(rounds: nat)
    ensures Exec(HASTY, START, LongRun(rounds), 0) == ClosedSince(6 + 2 * rounds, 5 + rounds)
  {
    var first := TripAndRecover();
    TrippedAndRecovered();
    ExecInTwo(HASTY, START, (first + AdmitAndFail(1, 3)) + FailedProbes(4, 2, rounds),
              AdmitAndSucceed(rounds + 2, rounds + 4), 0);
    ExecInTwo(HASTY, START, first + AdmitAndFail(1, 3), FailedProbes(4, 2, rounds), 0);
    ExecInTwo(HASTY, START, first, AdmitAndFail(1, 3), 0);
    Trips(3, 3, 1);
    ProbesKeepFailing(4, 4, 2, rounds);
    ProbeSucceeds(4 + 2 * rounds, 4 + rounds, 2 + rounds);
  }

  // The run completes only fresh permits, so the wrapping breaker follows it too.

  lemma {:induction false} TimelyInTwo(c: Config, m: Machine, first: seq<Event>, second: seq<Event>)
    requires Timely(c, m, first) && Timely(c, Exec(c, m, first, 0), second)
    ensures Timely(c, m, first + second)
    decreases |first|
  {
    if first == [] {
      assert first + second == second;
    } else {
      assert (first + second)[1..] == first[1..] + second;
      TimelyInTwo(c, Step(c, m, first[0], 0).0, first[1..], second);
    }
  }

  lemma TimelyTwoSteps(m: Machine, events: seq<Event>)
    requires |events| == 2
    requires Unaliased(m, events[0]) && Unaliased(Step(HASTY, m, events[0], 0).0, events[1])
    ensures Timely(HASTY, m, events)
  {
    var m' := Step(HASTY, m, events[0], 0).0;
    assert Timely(HASTY, Step(HASTY, m', events[1], 0).0, events[1..][1..]);
    assert Timely(HASTY, m', events[1..]);
  }

  lemma {:induction false} FailedProbesAreTimely(generation: nat, issued: nat, until: nat, rounds: nat)
    requires issued > 0
    ensures Timely(HASTY, OpenSince(generation, issued, until), FailedProbes(issued, until, rounds))
    decreases rounds
  {
    if rounds == 0 {
    } else {
      var m := OpenSince(generation, issued, until);
      TimelyTwoSteps(m, AdmitAndFail(until, issued));
      ProbeFails(generation, issued, until);
      FailedProbesAreTimely(generation + 2, issued + 1, until + 1, rounds - 1);
      TimelyInTwo(HASTY, m, AdmitAndFail(until, issued), FailedProbes(issued + 1, until + 1, rounds - 1));
    }
  }

  lemma TripAndRecoverIsTimely()
    ensures Timely(HASTY, START, TripAndRecover())
  {
    assert Live(START) == {};
    ShortRunsAreTimely(HASTY, START, TripAndRecover());
  }

  lemma TripIsTimely(generation: nat, issued: nat, at: nat)
    requires issued > 0
    ensures Timely(HASTY, ClosedSince(generation, issued), AdmitAndFail(at, issued))
  {
    TimelyTwoSteps(ClosedSince(generation, issued), AdmitAndFail(at, issued));
  }

  lemma RecoveryIsTimely(generation: nat, issued: nat, until: nat)
    requires issued > 0
    ensures Timely(HASTY, OpenSince(generation, issued, until), AdmitAndSucceed(until, issued))
  {
    TimelyTwoSteps(OpenSince(generation, issued, until), AdmitAndSucceed(until, issued));
  }

  lemma LongRunIsTimely(rounds: nat)
    ensures Timely(HASTY, START, LongRun(rounds))
  {
    hide Step, Exec, Timely, FailedProbes, TripAndRecover, AdmitAndFail, AdmitAndSucceed, ClosedSince, OpenSince;
    var first, second := TripAndRecover(), AdmitAndFail(1, 3);
    var third, last := FailedProbes(4, 2, rounds), AdmitAndSucceed(rounds + 2, rounds + 4);
    TripAndRecoverIsTimely();
    TrippedAndRecovered();
    TripIsTimely(3, 3, 1);
    TimelyInTwo(HASTY, START, first, second);
    ExecInTwo(HASTY, START, first, second, 0);
    Trips(3, 3, 1);
    FailedProbesAreTimely(4, 4, 2, rounds);
    TimelyInTwo(HASTY, START, first + second, third);
    ExecInTwo(HASTY, START, first + second, third, 0);
    ProbesKeepFailing(4, 4, 2, rounds);
    RecoveryIsTimely(4 + 2 * rounds, 4 + rounds, 2 + rounds);
    TimelyInTwo(HASTY, START, (first + second) + third, last);
  }

  /**
    The bound cannot be dropped: there is a run of 2^64 transitions after which the failure of a permit
    issued in generation 0 opens the wrapping breaker, while the never-wrapping one ignores it.
   */
  lemma AliasedPermitOpensTheCircuit(rounds: nat, now: nat)
    requires 6 + 2 * rounds == WRAP
    ensures var m := Exec(HASTY, START, LongRun(rounds), 0);
            var w := Exec(HASTY, START, LongRun(rounds), WRAP);
            var late := Event(now, Fail(0));
            && 0 in m.permits && Age(m, 0) == WRAP
            && w == Wrapped(m)
            && w.shared.mode == m.shared.mode == ClosedMode(0)
            && Step(HASTY, m, late, 0).0.shared == m.shared
            && Step(HASTY, w, late, WRAP).0.shared.mode.OpenMode?
  {
    LongRunEnds(rounds);
    LongRunIsTimely(rounds);
    assert Live(START) == {};
    assert Wrapped(START) == START;
    WrappingRefinesUnbounded(HASTY, START, LongRun(rounds));
  }
}
