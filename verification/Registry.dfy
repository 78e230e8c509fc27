/**
  The per-route resource registry: a map behind a reader-writer lock, whose `get_or_create` first looks
  under the read lock and only then, in a second critical section, looks again and inserts.
 */
module Registry {
  import opened Wrappers
  import opened Routing
  import Breaker
  import Bulkhead
  import RetryBudget

  // ----- The objects -----

  datatype ResourcePolicy = ResourcePolicy(breaker: Breaker.Config, bulkheadCapacity: nat, budget: RetryBudget.BudgetConfig)

  /** The resources of one execution namespace of a route. */
  class NamespaceResources {
    const breaker: Breaker.CircuitBreaker
    const bulkhead: Bulkhead.Bulkhead
    const budget: RetryBudget.SharedRetryBudget

    /** Everything mutable that the namespace reaches. */
    ghost function Repr(): set<object> {
      {breaker, bulkhead.inFlight, budget}
    }

    /** As new, under `policy`. */
    ghost predicate Unused(policy: ResourcePolicy)
      reads Repr()
    {
      && breaker.config == policy.breaker && breaker.Contents() == Breaker.Shared(0, Breaker.ClosedMode(0))
      && bulkhead.capacity == policy.bulkheadCapacity && bulkhead.inFlight.value == 0
      && budget.config == policy.budget && budget.available == policy.budget.capacity
    }

    constructor (policy: ResourcePolicy)
      ensures fresh(Repr()) && Unused(policy)
    {
      breaker := new Breaker.CircuitBreaker(policy.breaker);
      bulkhead := new Bulkhead.Bulkhead(policy.bulkheadCapacity);
      budget := new RetryBudget.SharedRetryBudget(policy.budget);
    }
  }

  class RouteResources {
    const primary: NamespaceResources
    const shadow: NamespaceResources

    ghost function Repr(): set<object> {
      primary.Repr() + shadow.Repr()
    }

    /** The two namespaces share nothing, and each is as new under its own policy. */
    ghost predicate Unused(primaryPolicy: ResourcePolicy, shadowPolicy: ResourcePolicy)
      reads Repr()
    {
      primary.Repr() !! shadow.Repr() && primary.Unused(primaryPolicy) && shadow.Unused(shadowPolicy)
    }

    constructor (primaryPolicy: ResourcePolicy, shadowPolicy: ResourcePolicy)
      ensures fresh(Repr()) && Unused(primaryPolicy, shadowPolicy)
    {
      primary := new NamespaceResources(primaryPolicy);
      shadow := new NamespaceResources(shadowPolicy);
    }
  }

  class RouteResourceRegistry {
    const primaryPolicy: ResourcePolicy
    const shadowPolicy: ResourcePolicy
    var routes: map<RouteId, RouteResources>

    constructor (primaryPolicy: ResourcePolicy, shadowPolicy: ResourcePolicy)
      ensures this.primaryPolicy == primaryPolicy && this.shadowPolicy == shadowPolicy && routes == map[]
    {
      this.primaryPolicy := primaryPolicy;
      this.shadowPolicy := shadowPolicy;
      routes := map[];
    }

    /** The first critical section of `get_or_create`, and the whole of `get`. */
    method Get(route: RouteId) returns (r: Option<RouteResources>)
      ensures r == if route in routes then Some(routes[route]) else None
    {
      r := if route in routes then Some(routes[route]) else None;
    }

    /** The second critical section of `get_or_create`. */
    method GetOrInsert(route: RouteId) returns (r: RouteResources)
      modifies this
      ensures route in old(routes) ==> r == old(routes)[route] && routes == old(routes)
      ensures route !in old(routes) ==>
                fresh(r) && fresh(r.Repr()) && r.Unused(primaryPolicy, shadowPolicy)
                && routes == old(routes)[route := r]
    {
      if route !in routes {
        var created := new RouteResources(primaryPolicy, shadowPolicy);
        routes := routes[route := created];
      }
      r := routes[route];
    }

    method GetOrCreate(route: RouteId) returns (r: RouteResources)
      modifies this
      ensures route in old(routes) ==> r == old(routes)[route] && routes == old(routes)
      ensures route !in old(routes) ==>
                fresh(r) && fresh(r.Repr()) && r.Unused(primaryPolicy, shadowPolicy)
                && routes == old(routes)[route := r]
    {
      var found := Get(route);
      if found.Some? {
        return found.value;
      }
      r := GetOrInsert(route);
    }

    method Retire(route: RouteId) returns (r: Option<RouteResources>)
      modifies this
      ensures r == if route in old(routes) then Some(old(routes)[route]) else None
      ensures routes == old(routes) - {route}
    {
      r := if route in routes then Some(routes[route]) else None;
      routes := routes - {route};
    }
  }

  // ----- Interleavings -----

  /** A registry under any number of threads. Resource sets are numbered in the order they are created. */
  datatype Machine = Machine(routes: map<RouteId, nat>, created: nat, pending: map<nat, RouteId>)

  datatype Step =
    | Look(thread: nat, route: RouteId)
    | Insert(thread: nat)
    | Get(thread: nat, route: RouteId)
    | Retire(thread: nat, route: RouteId)

  /** What a finished operation returned. */
  datatype Event =
    | Found(thread: nat, route: RouteId, resources: nat)
    | Got(thread: nat, route: RouteId, answer: Option<nat>)
    | Retired(thread: nat, route: RouteId, answer: Option<nat>)

  const START := Machine(map[], 0, map[])

  function Lookup(routes: map<RouteId, nat>, route: RouteId): Option<nat> {
    if route in routes then Some(routes[route]) else None
  }

  function Next(m: Machine, s: Step): (Machine, seq<Event>) {
    match s
    case Look(t, route) =>
      if t in m.pending then (m, [])
      else if route in m.routes then (m, [Found(t, route, m.routes[route])])
      else (m.(pending := m.pending[t := route]), [])
    case Insert(t) =>
      if t !in m.pending then (m, [])
      else
        var route := m.pending[t];
        var idle := m.pending - {t};
        if route in m.routes then (m.(pending := idle), [Found(t, route, m.routes[route])])
        else (Machine(m.routes[route := m.created], m.created + 1, idle), [Found(t, route, m.created)])
    case Get(t, route) => if t in m.pending then (m, []) else (m, [Got(t, route, Lookup(m.routes, route))])
    case Retire(t, route) =>
      if t in m.pending then (m, [])
      else (m.(routes := m.routes - {route}), [Retired(t, route, Lookup(m.routes, route))])
  }

  /** The machine and, in the order in which they took effect, the answers it has given. */
  function Run(steps: seq<Step>): (Machine, seq<Event>) {
    if steps == [] then (START, [])
    else
      var (m, log) := Run(steps[..|steps| - 1]);
      var (n, more) := Next(m, steps[|steps| - 1]);
      (n, log + more)
  }

  // ----- The atomic map -----

  datatype Atomic = Atomic(routes: map<RouteId, nat>, created: nat)

  /** One whole operation on an atomic registry; `None` if it would not give that answer. */
  function AtomicStep(a: Atomic, e: Event): Option<Atomic> {
    match e
    case Found(_, route, id) =>
      if route in a.routes then (if id == a.routes[route] then Some(a) else None)
      else if id == a.created then Some(Atomic(a.routes[route := id], a.created + 1))
      else None
    case Got(_, route, answer) => if answer == Lookup(a.routes, route) then Some(a) else None
    case Retired(_, route, answer) =>
      if answer == Lookup(a.routes, route) then Some(a.(routes := a.routes - {route})) else None
  }

  function AtomicRun(log: seq<Event>): Option<Atomic> {
    if log == [] then Some(Atomic(map[], 0))
    else
      match AtomicRun(log[..|log| - 1])
      case None => None
      case Some(a) => AtomicStep(a, log[|log| - 1])
  }

  function View(m: Machine): Atomic {
    Atomic(m.routes, m.created)
  }

  /** A critical section that gives no answer changes no registration; one that does is a whole atomic operation. */
  lemma StepIsAtomic(m: Machine, s: Step)
    ensures var (n, more) := Next(m, s);
            && |more| <= 1
            && (more == [] ==> View(n) == View(m))
            && (more != [] ==> AtomicStep(View(m), more[0]) == Some(View(n)))
  {
  }

  lemma AtomicRunAppends(log: seq<Event>, e: Event)
    requires AtomicRun(log).Some?
    ensures AtomicRun(log + [e]) == AtomicStep(AtomicRun(log).value, e)
  {
    hide AtomicStep;
    assert (log + [e])[..|log|] == log;
  }

  lemma EmptyLogIsStart()
    ensures AtomicRun([]) == Some(View(START))
  {
  }

  /** Every interleaving is a history of the atomic registry: its answers, in the order of their last critical section. */
  lemma {:induction false} RunsAreAtomic(steps: seq<Step>)
    ensures AtomicRun(Run(steps).1) == Some(View(Run(steps).0))
    decreases |steps|
  {
    hide Next, AtomicStep, AtomicRun;
    if steps == [] {
      EmptyLogIsStart();
    } else {
      var before := steps[..|steps| - 1];
      RunsAreAtomic(before);
      var (m, log) := Run(before);
      var more := Next(m, steps[|steps| - 1]).1;
      StepIsAtomic(m, steps[|steps| - 1]);
      if more == [] {
        assert log + more == log;
      } else {
        AtomicRunAppends(log, more[0]);
        assert more == [more[0]];
      }
    }
  }

  // ----- Periods between retirements -----

  /** The set an operation handed to its caller: created, looked up or retired. */
  function HandedOut(e: Event): Option<nat> {
    match e
    case Found(_, _, id) => Some(id)
    case Got(_, _, answer) => answer
    case Retired(_, _, answer) => answer
  }

  /** Route `route` is retired somewhere at or after position `from`. */
  ghost predicate RetiredSince(log: seq<Event>, from: int, route: RouteId) {
    exists k :: 0 <= from <= k < |log| && log[k].Retired? && log[k].route == route
  }

  /** A set handed out is still registered exactly if its route has not been retired since. */
  ghost predicate Remembered(a: Atomic, log: seq<Event>, i: int)
    requires 0 <= i < |log| && HandedOut(log[i]).Some?
  {
    var id := HandedOut(log[i]).value;
    && id < a.created
    && (!RetiredSince(log, i, log[i].route) ==> log[i].route in a.routes && a.routes[log[i].route] == id)
    && (RetiredSince(log, i, log[i].route) ==> forall r <- a.routes :: a.routes[r] != id)
  }

  ghost predicate Kept(a: Atomic, log: seq<Event>) {
    && (forall r <- a.routes :: a.routes[r] < a.created)
    && (forall r, q :: r in a.routes && q in a.routes && a.routes[r] == a.routes[q] ==> r == q)
    && (forall i :: 0 <= i < |log| && HandedOut(log[i]).Some? ==> Remembered(a, log, i))
  }

  lemma RetiredSinceExtends(log: seq<Event>, e: Event, from: nat, route: RouteId)
    requires from <= |log|
    ensures RetiredSince(log + [e], from, route)
        <==> RetiredSince(log, from, route) || (e.Retired? && e.route == route)
  {
    var longer := log + [e];
    if RetiredSince(log, from, route) {
      var k :| from <= k < |log| && log[k].Retired? && log[k].route == route;
      assert longer[k] == log[k];
    }
    if e.Retired? && e.route == route {
      assert longer[|log|] == e;
    }
    if RetiredSince(longer, from, route) {
      var k :| from <= k < |longer| && longer[k].Retired? && longer[k].route == route;
      assert k < |log| ==> log[k] == longer[k];
    }
  }

  lemma StepKeeps(a: Atomic, log: seq<Event>, e: Event)
    requires Kept(a, log) && AtomicStep(a, e).Some?
    ensures Kept(AtomicStep(a, e).value, log + [e])
  {
    var b := AtomicStep(a, e).value;
    var longer := log + [e];
    forall i | 0 <= i < |longer| && HandedOut(longer[i]).Some? ensures Remembered(b, longer, i) {
      RetiredSinceExtends(log, e, i, longer[i].route);
      if i < |log| {
        assert longer[i] == log[i] && Remembered(a, log, i);
      } else {
        assert !RetiredSince(log, i, e.route);
      }
    }
  }

  lemma {:induction false} HistoriesAreKept(log: seq<Event>)
    requires AtomicRun(log).Some?
    ensures Kept(AtomicRun(log).value, log)
    decreases |log|
  {
    if log == [] {
    } else {
      var before := log[..|log| - 1];
      HistoriesAreKept(before);
      StepKeeps(AtomicRun(before).value, before, log[|log| - 1]);
      assert before + [log[|log| - 1]] == log;
    }
  }

  lemma {:induction false} HistoriesArePrefixClosed(log: seq<Event>, n: nat)
    requires AtomicRun(log).Some? && n <= |log|
    ensures AtomicRun(log[..n]).Some?
    decreases |log|
  {
    if n < |log| {
      HistoriesArePrefixClosed(log[..|log| - 1], n);
      assert log[..|log| - 1][..n] == log[..n];
    } else {
      assert log[..n] == log;
    }
  }

  lemma HandingOutAgain(a: Atomic, log: seq<Event>, i: nat, e: Event)
    requires Kept(a, log) && AtomicStep(a, e).Some?
    requires i < |log| && HandedOut(log[i]).Some? && HandedOut(e).Some?
    ensures HandedOut(log[i]) == HandedOut(e) <==> log[i].route == e.route && !RetiredSince(log, i, e.route)
  {
    hide RetiredSince;
    assert Remembered(a, log, i);
  }

  /**
    In every interleaving, two operations hand out the same resource set exactly if they are for the same
    route and that route was not retired between them: one set per route and period, never shared with
    another route or another period. This covers `get_or_create`, a `get` that finds something, and the
    retirement that ends the period.
   */
  lemma LookupsConvergeWithinAPeriod(steps: seq<Step>, i: nat, j: nat)
    requires var log := Run(steps).1; i < j < |log| && HandedOut(log[i]).Some? && HandedOut(log[j]).Some?
    ensures var log := Run(steps).1;
            HandedOut(log[i]) == HandedOut(log[j])
            <==> log[i].route == log[j].route && !RetiredSince(log[..j], i, log[i].route)
  {
    hide Run, Kept;
    var log := Run(steps).1;
    RunsAreAtomic(steps);
    HistoriesArePrefixClosed(log, j + 1);
    HistoriesArePrefixClosed(log, j);
    assert log[..j + 1][..j] == log[..j];
    HistoriesAreKept(log[..j]);
    var a := AtomicRun(log[..j]).value;
    assert log[..j][i] == log[i];
    assert AtomicStep(a, log[j]).Some?;
    HandingOutAgain(a, log[..j], i, log[j]);
  }

  // ----- Answers -----

  /**
    Every operation is answered: a thread that is free gets the answer of a `get` or a retirement at once, and
    that of a `get_or_create` at once if the route is registered; otherwise that thread has only its insertion
    left, which answers it. No other step answers.
   */
  lemma StepReplies(m: Machine, s: Step)
    ensures var (n, events) := Next(m, s);
            var free := s.thread !in m.pending;
            match s
            case Look(t, route) =>
              if free && route in m.routes then n == m && events == [Found(t, route, m.routes[route])]
              else events == [] && n.routes == m.routes
                   && n.pending == if free then m.pending[t := route] else m.pending
            case Insert(t) =>
              if free then n == m && events == []
              else
                t !in n.pending && m.pending[t] in n.routes
                && events == [Found(t, m.pending[t], n.routes[m.pending[t]])]
            case Get(t, route) =>
              n == m && if free then |events| == 1 && events[0].Got? && events[0].thread == t && events[0].route == route
                        else events == []
            case Retire(t, route) =>
              if free then
                |events| == 1 && events[0].Retired? && events[0].thread == t && events[0].route == route
                && route !in n.routes
              else n == m && events == []
  {
  }

  /** Some lookup has handed out a set of this route that was not retired since. */
  ghost predicate FoundSinceRetired(log: seq<Event>, route: RouteId) {
    exists i :: 0 <= i < |log| && log[i].Found? && log[i].route == route && !RetiredSince(log, i, route)
  }

  lemma NotRetiredYet(log: seq<Event>, route: RouteId)
    ensures !RetiredSince(log, |log|, route)
  {
  }

  lemma FoundSinceExtends(log: seq<Event>, e: Event, route: RouteId)
    ensures FoundSinceRetired(log + [e], route)
        <==> (e.Found? && e.route == route) || (FoundSinceRetired(log, route) && !(e.Retired? && e.route == route))
  {
    hide RetiredSince;
    var longer := log + [e];
    forall i | 0 <= i <= |log| ensures RetiredSince(longer, i, route)
                                       <==> RetiredSince(log, i, route) || (e.Retired? && e.route == route)
    {
      RetiredSinceExtends(log, e, i, route);
    }
    if FoundSinceRetired(log, route) && !(e.Retired? && e.route == route) {
      var i :| 0 <= i < |log| && log[i].Found? && log[i].route == route && !RetiredSince(log, i, route);
      assert longer[i] == log[i];
    }
    if e.Found? && e.route == route {
      NotRetiredYet(log, route);
      assert longer[|log|] == e;
    }
    if FoundSinceRetired(longer, route) {
      var i :| 0 <= i < |longer| && longer[i].Found? && longer[i].route == route && !RetiredSince(longer, i, route);
      assert i < |log| ==> log[i] == longer[i];
    }
  }

  lemma {:induction false} RegisteredIff(log: seq<Event>, route: RouteId)
    requires AtomicRun(log).Some?
    ensures route in AtomicRun(log).value.routes <==> FoundSinceRetired(log, route)
    decreases |log|
  {
    if log == [] {
    } else {
      var before, e := log[..|log| - 1], log[|log| - 1];
      assert before + [e] == log;
      RegisteredIff(before, route);
      FoundSinceExtends(before, e, route);
    }
  }

  /** A `get` or a retirement finds a set exactly if a lookup has handed one out and it was not retired since. */
  lemma AnswersFindWhatIsThere(steps: seq<Step>, j: nat)
    requires var log := Run(steps).1; j < |log| && !log[j].Found?
    ensures var log := Run(steps).1;
            log[j].answer.Some? <==> FoundSinceRetired(log[..j], log[j].route)
  {
    hide Run, FoundSinceRetired;
    var log := Run(steps).1;
    RunsAreAtomic(steps);
    HistoriesArePrefixClosed(log, j + 1);
    HistoriesArePrefixClosed(log, j);
    assert log[..j + 1][..j] == log[..j];
    RegisteredIff(log[..j], log[j].route);
  }
}
