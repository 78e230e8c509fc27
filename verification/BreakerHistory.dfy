/**
  What the breaker's counters remember. A chronicle records, beside the machine, what happened to the
  permits of the current epoch (an epoch is the life of one generation) and how every earlier epoch
  ended.
 */
module BreakerHistory {
  import opened Breaker
  import opened BreakerRuns
  import BreakerErasure

  datatype Entry = Entered | Good | Bad | Dropped

  datatype Epoch = Epoch(state: CircuitState, log: seq<Entry>, next: CircuitState)

  datatype Chronicle = Chronicle(machine: Machine, log: seq<Entry>, past: seq<Epoch>)

  const BLANK := Chronicle(START, [], [])

  /** Close the books of the current epoch if the generation has moved on. */
  function Turn(h: Chronicle, after: Shared): Chronicle {
    var before := h.machine.shared;
    if after.generation == before.generation then h
    else h.(past := h.past + [Epoch(before.mode.Visible(), h.log, after.mode.Visible())], log := [])
  }

  function EntryOf(e: Event): Entry {
    match e.op
    case Succeed(_) => Good
    case Fail(_) => Bad
    case Abandon(_) => Dropped
    case _ => Entered
  }

  /** One step of the machine, written down. */
  function Write(c: Config, h: Chronicle, e: Event): Chronicle {
    var (n, response) := Step(c, h.machine, e, 0);
    match Completes(e)
    case None =>
      var turned := Turn(h, Refresh(h.machine.shared, e.at, 0));
      turned.(machine := n, log := if response.Admitted? then turned.log + [Entered] else turned.log)
    case Some(p) =>
      if p !in Live(h.machine) then h.(machine := n)
      else Turn(h.(log := h.log + [EntryOf(e)]), n.shared).(machine := n)
  }

  function Chronicled(c: Config, h: Chronicle, events: seq<Event>): Chronicle
    decreases |events|
  {
    if events == [] then h else Chronicled(c, Write(c, h, events[0]), events[1..])
  }

  lemma {:induction false} ChronicleFollowsMachine(c: Config, h: Chronicle, events: seq<Event>)
    ensures Chronicled(c, h, events).machine == Exec(c, h.machine, events, 0)
    decreases |events|
  {
    if events == [] {
    } else {
      ChronicleFollowsMachine(c, Write(c, h, events[0]), events[1..]);
    }
  }

  function Count(log: seq<Entry>, entry: Entry): nat {
    if log == [] then 0
    else Count(log[..|log| - 1], entry) + (if log[|log| - 1] == entry then 1 else 0)
  }

  /** Failures since the last success; admissions and drops do not interrupt a run of failures. */
  function TrailingFailures(log: seq<Entry>): nat {
    if log == [] then 0
    else
      match log[|log| - 1]
      case Bad => TrailingFailures(log[..|log| - 1]) + 1
      case Good => 0
      case _ => TrailingFailures(log[..|log| - 1])
  }

  /** No prefix of the log has reached `limit` failures in a row. */
  ghost predicate NeverReached(log: seq<Entry>, limit: nat) {
    forall k :: 0 <= k <= |log| ==> TrailingFailures(log[..k]) < limit
  }

  /** The mode is what the log of the epoch says it is. */
  ghost predicate ModeTellsLog(c: Config, mode: Mode, log: seq<Entry>) {
    match mode
    case ClosedMode(failures) => failures == TrailingFailures(log) && NeverReached(log, c.failureThreshold)
    case OpenMode(_) => log == []
    case HalfOpenMode(inFlight, successes) =>
      && Count(log, Entered) == successes + Count(log, Dropped) + inFlight
      && successes == Count(log, Good)
      && Count(log, Bad) == 0
  }

  /** How an epoch may end. */
  ghost predicate EndedWell(c: Config, epoch: Epoch) {
    match epoch.state
    case Closed =>
      && epoch.next == Open
      && epoch.log != []
      && TrailingFailures(epoch.log) == c.failureThreshold
      && NeverReached(epoch.log[..|epoch.log| - 1], c.failureThreshold)
    case Open => epoch.log == [] && epoch.next == HalfOpen
    case HalfOpen =>
      && (epoch.next == Closed || epoch.next == Open)
      && (epoch.next == Closed ==>
            Count(epoch.log, Good) == c.halfOpenSuccessThreshold && Count(epoch.log, Bad) == 0)
      && (epoch.next == Open ==>
            && Count(epoch.log, Bad) == 1 && epoch.log[|epoch.log| - 1] == Bad
            && Count(epoch.log, Good) < c.halfOpenSuccessThreshold)
  }

  /** The state in which epoch `i` begins, if the epochs follow one another. */
  function Entering(past: seq<Epoch>, i: nat): CircuitState
    requires i <= |past|
  {
    if i == 0 then Closed else past[i - 1].next
  }

  /** The epochs follow one another: the first is Closed, and each ends in the state the next one has. */
  ghost predicate Chained(past: seq<Epoch>, now: CircuitState) {
    && (forall i :: 0 <= i < |past| ==> past[i].state == Entering(past, i))
    && now == Entering(past, |past|)
  }

  ghost predicate Faithful(c: Config, h: Chronicle) {
    && Accounted(c, h.machine)
    && Chained(h.past, h.machine.shared.mode.Visible())
    && ModeTellsLog(c, h.machine.shared.mode, h.log)
    && |h.past| == h.machine.shared.generation
    && (forall i :: 0 <= i < |h.past| ==> EndedWell(c, h.past[i]))
  }

  lemma NeverReachedExtends(log: seq<Entry>, entry: Entry, limit: nat)
    requires NeverReached(log, limit)
    requires TrailingFailures(log + [entry]) < limit
    ensures NeverReached(log + [entry], limit)
  {
    var longer := log + [entry];
    forall k | 0 <= k <= |longer| ensures TrailingFailures(longer[..k]) < limit {
      if k <= |log| {
        assert longer[..k] == log[..k];
      } else {
        assert longer[..k] == longer;
      }
    }
  }

  lemma LogGrows(log: seq<Entry>, entry: Entry)
    ensures forall x :: Count(log + [entry], x) == Count(log, x) + (if x == entry then 1 else 0)
    ensures TrailingFailures(log + [entry])
         == match entry case Bad => TrailingFailures(log) + 1 case Good => 0 case _ => TrailingFailures(log)
  {
    assert (log + [entry])[..|log|] == log;
  }

  /** A current permit met the mode that issued it, and the counters have room for its outcome. */
  ghost predicate Matches(c: Config, s: Shared, t: Ticket) {
    && t.generation == s.generation
    && match s.mode
       case ClosedMode(failures) => t.kind.ClosedKind? && failures < c.failureThreshold
       case OpenMode(_) => false
       case HalfOpenMode(inFlight, successes) =>
         t.kind.HalfOpenKind? && inFlight > 0 && successes < c.halfOpenSuccessThreshold
  }

  /** The log, with one more entry, explains the state `after`: the same epoch, or a new one. */
  ghost predicate Explains(c: Config, before: Shared, log: seq<Entry>, after: Shared) {
    if after.generation == before.generation
    then after.mode.Visible() == before.mode.Visible() && ModeTellsLog(c, after.mode, log)
    else
      && after.generation == before.generation + 1
      && ModeTellsLog(c, after.mode, [])
      && EndedWell(c, Epoch(before.mode.Visible(), log, after.mode.Visible()))
  }

  lemma SuccessIsExplained(c: Config, s: Shared, t: Ticket, log: seq<Entry>)
    requires c.Valid() && Matches(c, s, t) && ModeTellsLog(c, s.mode, log)
    ensures Explains(c, s, log + [Good], RecordSuccess(c, s, t, 0))
  {
    LogGrows(log, Good);
    if s.mode.ClosedMode? {
      NeverReachedExtends(log, Good, c.failureThreshold);
    }
  }

  lemma FailureIsExplained(c: Config, s: Shared, t: Ticket, now: nat, log: seq<Entry>)
    requires c.Valid() && Matches(c, s, t) && ModeTellsLog(c, s.mode, log)
    ensures Explains(c, s, log + [Bad], RecordFailure(c, s, t, now, 0))
  {
    LogGrows(log, Bad);
    assert (log + [Bad])[..|log|] == log;
    if s.mode.ClosedMode? && s.mode.consecutiveFailures + 1 < c.failureThreshold {
      NeverReachedExtends(log, Bad, c.failureThreshold);
    }
  }

  lemma AbandonIsExplained(c: Config, s: Shared, t: Ticket, log: seq<Entry>)
    requires c.Valid() && Matches(c, s, t) && ModeTellsLog(c, s.mode, log)
    ensures Explains(c, s, log + [Dropped], RecordAbandon(s, t))
  {
    LogGrows(log, Dropped);
    if s.mode.ClosedMode? {
      NeverReachedExtends(log, Dropped, c.failureThreshold);
    }
  }

  lemma AcquireIsExplained(c: Config, s: Shared, now: nat, log: seq<Entry>)
    requires c.Valid() && !s.mode.OpenMode? && ModeTellsLog(c, s.mode, log)
    ensures var (after, ticket) := Acquire(c, s, now, 0);
            after.generation == s.generation
            && ModeTellsLog(c, after.mode, if ticket.Some? then log + [Entered] else log)
  {
    LogGrows(log, Entered);
    if s.mode.ClosedMode? {
      assert log[..|log|] == log;
      NeverReachedExtends(log, Entered, c.failureThreshold);
    }
  }

  /** The chronicle after the refresh that every observation and admission begins with. */
  function Refreshed(h: Chronicle, e: Event): Chronicle {
    var s := Refresh(h.machine.shared, e.at, 0);
    Turn(h, s).(machine := h.machine.(shared := s))
  }

  lemma TurnKeepsChain(h: Chronicle, after: Shared)
    requires Chained(h.past, h.machine.shared.mode.Visible())
    requires after.generation == h.machine.shared.generation ==>
               after.mode.Visible() == h.machine.shared.mode.Visible()
    ensures Chained(Turn(h, after).past, after.mode.Visible())
  {
    if after.generation != h.machine.shared.generation {
      var past := Turn(h, after).past;
      forall i: nat | i < |past| ensures past[i].state == Entering(past, i) {
        assert Entering(past, i) == Entering(h.past, i);
      }
    }
  }

  lemma RefreshIsFaithful(c: Config, h: Chronicle, e: Event)
    requires c.Valid() && Faithful(c, h)
    ensures Faithful(c, Refreshed(h, e))
  {
    RefreshKeepsAccounts(c, h.machine, e.at);
    TurnKeepsChain(h, Refresh(h.machine.shared, e.at, 0));
  }

  lemma AdmissionAppends(c: Config, h: Chronicle, e: Event)
    requires e.op.Admit? && !Refreshed(h, e).machine.shared.mode.OpenMode?
    ensures var r := Refreshed(h, e);
            var n := Write(c, h, e);
            var (after, ticket) := Acquire(c, r.machine.shared, e.at, 0);
            && n.past == r.past
            && n.log == (if ticket.Some? then r.log + [Entered] else r.log)
            && n.machine.shared == after && after.mode.Visible() == r.machine.shared.mode.Visible()
  {
  }

  lemma AdmissionIsFaithful(c: Config, h: Chronicle, e: Event)
    requires c.Valid() && Faithful(c, h) && Completes(e).None?
    ensures Faithful(c, Write(c, h, e))
  {
    RefreshIsFaithful(c, h, e);
    var r := Refreshed(h, e);
    if e.op.Admit? && !r.machine.shared.mode.OpenMode? {
      StepKeepsAccounts(c, h.machine, e);
      AcquireIsExplained(c, r.machine.shared, e.at, r.log);
      AdmissionAppends(c, h, e);
    }
  }

  lemma LivePermitMatches(c: Config, m: Machine, p: nat)
    requires c.Valid() && Accounted(c, m) && p in Live(m)
    ensures Matches(c, m.shared, m.permits[p])
  {
  }

  lemma StaleIsIgnored(c: Config, m: Machine, e: Event)
    requires Completes(e).Some? && Completes(e).value !in Live(m)
    ensures Step(c, m, e, 0).0.shared == m.shared
  {
  }

  lemma WrittenTurn(c: Config, h: Chronicle, log: seq<Entry>, after: Shared, n: Chronicle)
    requires Faithful(c, h) && Explains(c, h.machine.shared, log, after) && Accounted(c, n.machine)
    requires n.machine.shared == after
    requires var turned := Turn(h.(log := log), after); n.log == turned.log && n.past == turned.past
    ensures Faithful(c, n)
  {
    TurnKeepsChain(h.(log := log), after);
  }

  lemma CompletionIsFaithful(c: Config, h: Chronicle, e: Event)
    requires c.Valid() && Faithful(c, h) && Completes(e).Some?
    ensures Faithful(c, Write(c, h, e))
  {
    hide RecordSuccess, RecordFailure, RecordAbandon, Explains, ModeTellsLog, EndedWell, Matches;
    StepKeepsAccounts(c, h.machine, e);
    var p := Completes(e).value;
    var before := h.machine.shared;
    var after := Step(c, h.machine, e, 0).0.shared;
    if p in Live(h.machine) {
      var t := h.machine.permits[p];
      LivePermitMatches(c, h.machine, p);
      match e.op {
        case Succeed(_) => SuccessIsExplained(c, before, t, h.log);
        case Fail(_) => FailureIsExplained(c, before, t, e.at, h.log);
        case Abandon(_) => AbandonIsExplained(c, before, t, h.log);
      }
      assert Explains(c, before, h.log + [EntryOf(e)], after);
      WrittenTurn(c, h, h.log + [EntryOf(e)], after, Write(c, h, e));
    } else {
      StaleIsIgnored(c, h.machine, e);
    }
  }

  /**
    Over every run: the counters are functions of the epoch's outcomes; a Closed epoch ends exactly when
    the failure run first reaches the threshold; in HalfOpen, admitted = successes + abandoned + in
    flight; a HalfOpen epoch that closes saw exactly the threshold of successes and no failure, and one
    that reopens saw exactly one failure, its last outcome; and each epoch begins in the state that the
    one before it led to.
   */
  lemma {:induction false} RunsAreFaithful(c: Config, h: Chronicle, events: seq<Event>)
    requires c.Valid() && Faithful(c, h)
    ensures Faithful(c, Chronicled(c, h, events))
    decreases |events|
  {
    if events == [] {
    } else {
      if Completes(events[0]).None? {
        AdmissionIsFaithful(c, h, events[0]);
      } else {
        CompletionIsFaithful(c, h, events[0]);
      }
      RunsAreFaithful(c, Write(c, h, events[0]), events[1..]);
    }
  }

  lemma StateIsAFunctionOfHistory(c: Config, events: seq<Event>)
    requires c.Valid()
    ensures var h := Chronicled(c, BLANK, events);
            && h.machine == Exec(c, START, events, 0)
            && ModeTellsLog(c, h.machine.shared.mode, h.log)
            && (forall i :: 0 <= i < |h.past| ==> EndedWell(c, h.past[i]))
            && Chained(h.past, h.machine.shared.mode.Visible())
  {
    assert Live(START) == {};
    assert Faithful(c, BLANK);
    RunsAreFaithful(c, BLANK, events);
    ChronicleFollowsMachine(c, BLANK, events);
  }

  /** So are the counters of the wrapping breaker, as long as no permit is aliased. */
  lemma WrappingStateIsAFunctionOfHistory(c: Config, events: seq<Event>)
    requires c.Valid() && BreakerErasure.Timely(c, START, events)
    ensures var h := Chronicled(c, BLANK, events);
            var w := Exec(c, START, events, WRAP);
            && w.shared.generation == |h.past| % WRAP
            && ModeTellsLog(c, w.shared.mode, h.log)
            && (forall i :: 0 <= i < |h.past| ==> EndedWell(c, h.past[i]))
            && Chained(h.past, w.shared.mode.Visible())
  {
    assert Live(START) == {};
    assert BreakerErasure.Wrapped(START) == START;
    BreakerErasure.WrappingRefinesUnbounded(c, START, events);
    assert Faithful(c, BLANK);
    RunsAreFaithful(c, BLANK, events);
    ChronicleFollowsMachine(c, BLANK, events);
  }
}
