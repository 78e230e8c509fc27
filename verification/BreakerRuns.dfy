/**
  Runs of the circuit breaker. Any number of callers share one breaker; each locked section is one
  step, and permits stay outstanding across transitions until they are completed or dropped.

  Permits are named by the order in which they were issued. A completion that names a permit that is
  not outstanding changes nothing: the owner of a permit gives it up when it completes it.
 */
module BreakerRuns {
  import opened Wrappers
  import opened Breaker

  datatype Machine = Machine(shared: Shared, permits: map<nat, Ticket>, issued: nat)

  datatype Op = Observe | Admit | Succeed(p: nat) | Fail(p: nat) | Abandon(p: nat)

  datatype Event = Event(at: nat, op: Op)

  datatype Response = Seen(state: CircuitState) | Admitted(p: nat) | Rejected | Done

  const START := Machine(Shared(0, ClosedMode(0)), map[], 0)

  function Step(c: Config, m: Machine, e: Event, modulus: nat): (Machine, Response) {
    match e.op
    case Observe =>
      var s := Refresh(m.shared, e.at, modulus);
      (m.(shared := s), Seen(s.mode.Visible()))
    case Admit =>
      var (s, ticket) := Acquire(c, m.shared, e.at, modulus);
      (match ticket
       case None => (m.(shared := s), Rejected)
       case Some(t) => (Machine(s, m.permits[m.issued := t], m.issued + 1), Admitted(m.issued)))
    case Succeed(p) =>
      if p !in m.permits then (m, Done)
      else (m.(shared := RecordSuccess(c, m.shared, m.permits[p], modulus), permits := m.permits - {p}), Done)
    case Fail(p) =>
      if p !in m.permits then (m, Done)
      else (m.(shared := RecordFailure(c, m.shared, m.permits[p], e.at, modulus), permits := m.permits - {p}), Done)
    case Abandon(p) =>
      if p !in m.permits then (m, Done)
      else (m.(shared := RecordAbandon(m.shared, m.permits[p]), permits := m.permits - {p}), Done)
  }

  function Exec(c: Config, m: Machine, events: seq<Event>, modulus: nat): Machine
    decreases |events|
  {
    if events == [] then m else Exec(c, Step(c, m, events[0], modulus).0, events[1..], modulus)
  }

  /** The permit a completing or abandoning event names. */
  function Completes(e: Event): Option<nat> {
    match e.op
    case Succeed(p) => Some(p)
    case Fail(p) => Some(p)
    case Abandon(p) => Some(p)
    case _ => None
  }

  /**
    What is answered, in any state of either breaker. An observer sees the mode, an Open circuit whose timeout is
    over being HalfOpen already. A caller is admitted, under the next free name, unless the circuit is seen Open
    or all probes are out.
   */
  lemma AnswerMeaning(c: Config, m: Machine, e: Event, modulus: nat)
    requires c.Valid()
    ensures var answer := Step(c, m, e, modulus).1;
            var mode := m.shared.mode;
            var expired := mode.OpenMode? && mode.until <= e.at;
            match e.op
            case Observe =>
              && (answer == Seen(Closed) <==> mode.ClosedMode?)
              && (answer == Seen(Open) <==> mode.OpenMode? && !expired)
              && (answer == Seen(HalfOpen) <==> mode.HalfOpenMode? || expired)
            case Admit =>
              && (answer == Admitted(m.issued)
                  <==> mode.ClosedMode? || expired
                       || (mode.HalfOpenMode? && mode.inFlight < c.halfOpenSuccessThreshold))
              && (answer == Rejected
                  <==> (mode.OpenMode? && !expired)
                       || (mode.HalfOpenMode? && mode.inFlight >= c.halfOpenSuccessThreshold))
            case _ => answer == Done
  {
  }

  /** The answers of a run. */
  function Responses(c: Config, m: Machine, events: seq<Event>, modulus: nat): seq<Response>
    decreases |events|
  {
    if events == [] then []
    else
      var (n, response) := Step(c, m, events[0], modulus);
      [response] + Responses(c, n, events[1..], modulus)
  }

  lemma {:induction false} OneEventMore(c: Config, m: Machine, events: seq<Event>, e: Event, modulus: nat)
    ensures var (n, response) := Step(c, Exec(c, m, events, modulus), e, modulus);
            && Exec(c, m, events + [e], modulus) == n
            && Responses(c, m, events + [e], modulus) == Responses(c, m, events, modulus) + [response]
    decreases |events|
  {
    hide Step;
    if events == [] {
      var one := [e];
      assert events + [e] == one;
      assert Exec(c, m, one, modulus) == Exec(c, Step(c, m, e, modulus).0, one[1..], modulus);
      assert Responses(c, m, one, modulus)
          == [Step(c, m, e, modulus).1] + Responses(c, Step(c, m, e, modulus).0, one[1..], modulus);
    } else {
      assert (events + [e])[1..] == events[1..] + [e];
      OneEventMore(c, Step(c, m, events[0], modulus).0, events[1..], e, modulus);
    }
  }

  // ----- Permit accounting -----

  /** The outstanding permits issued in the current generation. */
  function Live(m: Machine): set<nat> {
    set p | p in m.permits && m.permits[p].generation == m.shared.generation
  }

  /** The books of a breaker whose generation never wraps. */
  ghost predicate Accounted(c: Config, m: Machine) {
    && (forall p <- m.permits :: p < m.issued && m.permits[p].generation <= m.shared.generation)
    && match m.shared.mode
       case ClosedMode(failures) =>
         failures < c.failureThreshold && (forall p <- Live(m) :: m.permits[p].kind.ClosedKind?)
       case OpenMode(_) => Live(m) == {}
       case HalfOpenMode(inFlight, successes) =>
         && inFlight == |Live(m)| <= c.halfOpenSuccessThreshold
         && successes < c.halfOpenSuccessThreshold
         && (forall p <- Live(m) :: m.permits[p].kind.HalfOpenKind?)
  }

  lemma LiveAfterTransition(m: Machine, n: Machine)
    requires forall p <- m.permits :: m.permits[p].generation <= m.shared.generation
    requires n.permits.Keys <= m.permits.Keys && forall p <- n.permits :: n.permits[p] == m.permits[p]
    requires n.shared.generation > m.shared.generation
    ensures Live(n) == {}
  {
  }

  lemma LiveAfterRemoval(m: Machine, n: Machine, p: nat)
    requires p in m.permits && n.permits == m.permits - {p}
    requires n.shared.generation == m.shared.generation
    ensures Live(n) == Live(m) - {p}
    ensures p in Live(m) ==> |Live(n)| == |Live(m)| - 1
  {
  }

  lemma RefreshKeepsAccounts(c: Config, m: Machine, now: nat)
    requires c.Valid() && Accounted(c, m)
    ensures Accounted(c, m.(shared := Refresh(m.shared, now, 0)))
  {
    var n := m.(shared := Refresh(m.shared, now, 0));
    if n != m {
      LiveAfterTransition(m, n);
    } else {
      assert Live(n) == Live(m);
    }
  }

  /** A permit of the current generation is issued, in HalfOpen together with a slot. */
  lemma IssueKeepsAccounts(c: Config, m: Machine, after: Shared, t: Ticket)
    requires Accounted(c, m)
    requires t.generation == after.generation == m.shared.generation
    requires match m.shared.mode
             case ClosedMode(_) => after.mode == m.shared.mode && t.kind.ClosedKind?
             case OpenMode(_) => false
             case HalfOpenMode(inFlight, successes) =>
               inFlight < c.halfOpenSuccessThreshold && after.mode == HalfOpenMode(inFlight + 1, successes)
               && t.kind.HalfOpenKind?
    ensures Accounted(c, Machine(after, m.permits[m.issued := t], m.issued + 1))
  {
    var n := Machine(after, m.permits[m.issued := t], m.issued + 1);
    assert Live(n) == Live(m) + {m.issued};
  }

  lemma AdmitKeepsAccounts(c: Config, m: Machine, e: Event)
    requires c.Valid() && Accounted(c, m) && e.op == Admit
    ensures Accounted(c, Step(c, m, e, 0).0)
  {
    hide Accounted, Refresh;
    RefreshKeepsAccounts(c, m, e.at);
    var r := m.(shared := Refresh(m.shared, e.at, 0));
    var (after, ticket) := Acquire(c, m.shared, e.at, 0);
    if ticket.Some? {
      IssueKeepsAccounts(c, r, after, ticket.value);
    } else {
      assert Step(c, m, e, 0).0 == r;
    }
  }

  lemma LiveCompletionKeepsAccounts(c: Config, m: Machine, e: Event, p: nat)
    requires c.Valid() && Accounted(c, m) && Completes(e) == Some(p) && p in Live(m)
    ensures Accounted(c, Step(c, m, e, 0).0)
  {
    var n := Step(c, m, e, 0).0;
    if n.shared.generation > m.shared.generation {
      LiveAfterTransition(m, n);
    } else {
      LiveAfterRemoval(m, n, p);
    }
  }

  lemma CompletionKeepsAccounts(c: Config, m: Machine, e: Event)
    requires c.Valid() && Accounted(c, m) && Completes(e).Some?
    ensures Accounted(c, Step(c, m, e, 0).0)
  {
    var p := Completes(e).value;
    if p in Live(m) {
      LiveCompletionKeepsAccounts(c, m, e, p);
    } else if p in m.permits {
      var n := Step(c, m, e, 0).0;
      assert n == m.(permits := m.permits - {p});
      LiveAfterRemoval(m, n, p);
    }
  }

  lemma StepKeepsAccounts(c: Config, m: Machine, e: Event)
    requires c.Valid() && Accounted(c, m)
    ensures Accounted(c, Step(c, m, e, 0).0)
  {
    match e.op
    case Observe => RefreshKeepsAccounts(c, m, e.at);
    case Admit => AdmitKeepsAccounts(c, m, e);
    case _ => CompletionKeepsAccounts(c, m, e);
  }

  lemma {:induction false} RunKeepsAccounts(c: Config, m: Machine, events: seq<Event>)
    requires c.Valid() && Accounted(c, m)
    ensures Accounted(c, Exec(c, m, events, 0))
    decreases |events|
  {
    if events == [] {
    } else {
      StepKeepsAccounts(c, m, events[0]);
      RunKeepsAccounts(c, Step(c, m, events[0], 0).0, events[1..]);
    }
  }

  /**
    In every reachable state a completion of a current permit meets the mode it was issued in, no
    saturating operation clips, and the fall-through arms are never taken.
   */
  lemma CurrentCompletionsAreExact(c: Config, events: seq<Event>, p: nat)
    requires c.Valid()
    requires p in Live(Exec(c, START, events, 0))
    ensures var m := Exec(c, START, events, 0);
            match m.shared.mode
            case ClosedMode(failures) =>
              m.permits[p].kind.ClosedKind? && SaturatingAdd32(failures, 1) == failures + 1
            case OpenMode(_) => false
            case HalfOpenMode(inFlight, successes) =>
              && m.permits[p].kind.HalfOpenKind?
              && SaturatingSub32(inFlight, 1) == inFlight - 1 == |Live(m) - {p}|
              && SaturatingAdd32(successes, 1) == successes + 1
  {
    assert Live(START) == {};
    RunKeepsAccounts(c, START, events);
  }

  /** A rejected caller found the circuit open and unexpired, or every probe slot taken by a live probe. */
  lemma RejectionHasACause(c: Config, events: seq<Event>, now: nat)
    requires c.Valid()
    requires Step(c, Exec(c, START, events, 0), Event(now, Admit), 0).1 == Rejected
    ensures var m := Exec(c, START, events, 0);
            || (m.shared.mode.OpenMode? && now < m.shared.mode.until)
            || (m.shared.mode.HalfOpenMode? && |Live(m)| == c.halfOpenSuccessThreshold
                && exists p :: p in Live(m) && m.permits[p].kind.HalfOpenKind?)
  {
    var m := Exec(c, START, events, 0);
    assert Live(START) == {};
    RunKeepsAccounts(c, START, events);
    if m.shared.mode.HalfOpenMode? {
      assert Live(m) != {};
      var p :| p in Live(m);
    }
  }
}
