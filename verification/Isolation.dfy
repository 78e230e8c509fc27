/**
  Primary and shadow work on the same routes, interleaved at will.

  A resource set is a pair of namespaces, and a namespace is three handles to shared mutable cells: a
  breaker, a bulkhead and a retry budget. Whoever holds a set may use either namespace, also after the
  set was retired from the registry: retirement drops a reference and touches no cell.
 */
module Isolation {
  import opened Wrappers
  import BreakerRuns
  import Breaker
  import BulkheadRuns
  import RetryBudget
  import Registry

  datatype Side = Primary | Shadow

  /** Where the cells of a namespace are. */
  datatype Handles = Handles(breaker: nat, bulkhead: nat, budget: nat)

  datatype Owner = Owner(id: nat, side: Side)

  datatype Heap = Heap(
    sets: seq<map<Side, Handles>>,
    breakers: seq<BreakerRuns.Machine>,
    bulkheads: seq<BulkheadRuns.Machine>,
    budgets: seq<U32>)

  datatype Action =
    | UseBreaker(event: BreakerRuns.Event)
    | UseBulkhead(access: BulkheadRuns.Step)
    | UseBudget(op: RetryBudget.BudgetOp)

  datatype Answer =
    | FromBreaker(response: BreakerRuns.Response)
    | FromBulkhead(replies: seq<(nat, bool)>)
    | FromBudget(decision: Option<RetryBudget.BudgetDecision>)

  datatype Op = Create | On(owner: Owner, action: Action)

  datatype Trace = Trace(heap: Heap, log: seq<(Owner, Answer)>)

  /** The construction policies of the registry. */
  datatype Policies = Policies(primary: Registry.ResourcePolicy, shadow: Registry.ResourcePolicy)
  {
    function Of(side: Side): Registry.ResourcePolicy {
      if side == Primary then primary else shadow
    }
  }

  const EMPTY := Heap([], [], [], [])

  /** A new set: every cell of both namespaces is newly allocated. */
  function Allocate(h: Heap, p: Policies): Heap {
    var primary := Handles(|h.breakers|, |h.bulkheads|, |h.budgets|);
    var shadow := Handles(|h.breakers| + 1, |h.bulkheads| + 1, |h.budgets| + 1);
    Heap(
      h.sets + [map[Primary := primary, Shadow := shadow]],
      h.breakers + [BreakerRuns.START, BreakerRuns.START],
      h.bulkheads + [BulkheadRuns.START, BulkheadRuns.START],
      h.budgets + [p.primary.budget.capacity, p.shadow.budget.capacity])
  }

  predicate Exists(h: Heap, o: Owner) {
    o.id < |h.sets| && o.side in h.sets[o.id]
  }

  function At(h: Heap, o: Owner): Handles
    requires Exists(h, o)
  {
    h.sets[o.id][o.side]
  }

  predicate InBounds(h: Heap, at: Handles) {
    at.breaker < |h.breakers| && at.bulkhead < |h.bulkheads| && at.budget < |h.budgets|
  }

  /** An operation through the handles `at`, under the policy its cells were built from. */
  function Act(h: Heap, at: Handles, p: Registry.ResourcePolicy, a: Action): (Heap, Answer)
    requires InBounds(h, at)
  {
    match a
    case UseBreaker(e) =>
      var (m, response) := BreakerRuns.Step(p.breaker, h.breakers[at.breaker], e, Breaker.WRAP);
      (h.(breakers := h.breakers[at.breaker := m]), FromBreaker(response))
    case UseBulkhead(s) =>
      var m := h.bulkheads[at.bulkhead];
      (h.(bulkheads := h.bulkheads[at.bulkhead := BulkheadRuns.Next(p.bulkheadCapacity, m, s)]),
       FromBulkhead(BulkheadRuns.Reply(p.bulkheadCapacity, m, s)))
    case UseBudget(op) =>
      var (available, decision) := RetryBudget.Step(p.budget, h.budgets[at.budget], op);
      (h.(budgets := h.budgets[at.budget := available]), FromBudget(decision))
  }

  function Next(p: Policies, t: Trace, op: Op): Trace {
    match op
    case Create => t.(heap := Allocate(t.heap, p))
    case On(o, a) =>
      if Exists(t.heap, o) && InBounds(t.heap, At(t.heap, o)) then
        var (h, answer) := Act(t.heap, At(t.heap, o), p.Of(o.side), a);
        Trace(h, t.log + [(o, answer)])
      else t
  }

  function Run(p: Policies, ops: seq<Op>): Trace {
    if ops == [] then Trace(EMPTY, []) else Next(p, Run(p, ops[..|ops| - 1]), ops[|ops| - 1])
  }

  // ----- No two namespaces share a cell -----

  ghost predicate Apart(a: Handles, b: Handles) {
    a.breaker != b.breaker && a.bulkhead != b.bulkhead && a.budget != b.budget
  }

  ghost predicate Separate(h: Heap) {
    && (forall o: Owner :: o.id < |h.sets| ==> o.side in h.sets[o.id])
    && (forall o :: Exists(h, o) ==> InBounds(h, At(h, o)))
    && (forall o, q :: Exists(h, o) && Exists(h, q) && o != q ==> Apart(At(h, o), At(h, q)))
  }

  lemma AllocationSeparates(h: Heap, p: Policies)
    requires Separate(h)
    ensures Separate(Allocate(h, p))
  {
    var n := Allocate(h, p);
    forall o: Owner | o.id < |n.sets| ensures o.side in n.sets[o.id] {
      assert o.side == Primary || o.side == Shadow;
      assert o.id < |h.sets| ==> o.side in h.sets[o.id];
    }
    forall o | Exists(n, o)
      ensures InBounds(n, At(n, o))
      ensures o.id < |h.sets| ==> Exists(h, o) && At(n, o) == At(h, o) && InBounds(h, At(h, o))
    {
      if o.id < |h.sets| {
        assert n.sets[o.id] == h.sets[o.id];
        assert Exists(h, o);
      } else {
        assert o.side == Primary || o.side == Shadow;
      }
    }
    forall o, q | Exists(n, o) && Exists(n, q) && o != q ensures Apart(At(n, o), At(n, q)) {
      assert o.side == Primary || o.side == Shadow;
      assert q.side == Primary || q.side == Shadow;
      assert InBounds(n, At(n, o)) && InBounds(n, At(n, q));
    }
  }

  // ----- Erasure -----

  /** What a namespace consists of. */
  datatype Namespace = Namespace(breaker: BreakerRuns.Machine, bulkhead: BulkheadRuns.Machine, available: U32)

  function View(h: Heap, o: Owner): Option<Namespace> {
    if Exists(h, o) && InBounds(h, At(h, o)) then
      var at := At(h, o);
      Some(Namespace(h.breakers[at.breaker], h.bulkheads[at.bulkhead], h.budgets[at.budget]))
    else None
  }

  /** The operations left when only the owners in `kept` act. Sets are still created. */
  function Keep(ops: seq<Op>, kept: Owner -> bool): seq<Op> {
    if ops == [] then []
    else
      var last := ops[|ops| - 1];
      Keep(ops[..|ops| - 1], kept) + (if last.Create? || kept(last.owner) then [last] else [])
  }

  function AnswersTo(log: seq<(Owner, Answer)>, kept: Owner -> bool): seq<(Owner, Answer)> {
    if log == [] then []
    else
      var last := log[|log| - 1];
      AnswersTo(log[..|log| - 1], kept) + (if kept(last.0) then [last] else [])
  }

  /** The two runs have allocated alike, and agree on what the kept owners can see. */
  ghost predicate Alike(full: Trace, own: Trace, kept: Owner -> bool) {
    && Separate(full.heap) && Separate(own.heap)
    && full.heap.sets == own.heap.sets
    && |full.heap.breakers| == |own.heap.breakers|
    && |full.heap.bulkheads| == |own.heap.bulkheads|
    && |full.heap.budgets| == |own.heap.budgets|
    && (forall o :: kept(o) ==> View(full.heap, o) == View(own.heap, o))
    && AnswersTo(full.log, kept) == own.log
  }

  /** What one operation does to the heap: it answers from, and changes, its own namespace alone. */
  lemma ActionStaysInside(h: Heap, o: Owner, p: Registry.ResourcePolicy, a: Action)
    requires Separate(h) && Exists(h, o)
    ensures var n := Act(h, At(h, o), p, a).0;
            && Separate(n) && n.sets == h.sets
            && |n.breakers| == |h.breakers| && |n.bulkheads| == |h.bulkheads| && |n.budgets| == |h.budgets|
            && (forall q :: q != o ==> View(n, q) == View(h, q))
  {
    hide BreakerRuns.Step, BulkheadRuns.Next, BulkheadRuns.Reply, RetryBudget.Step;
    var n := Act(h, At(h, o), p, a).0;
    forall q ensures Exists(n, q) == Exists(h, q) && (Exists(h, q) ==> At(n, q) == At(h, q)) {
    }
    forall q | q != o ensures View(n, q) == View(h, q) {
      if Exists(h, q) {
        assert Apart(At(h, o), At(h, q));
      }
    }
  }

  /** A namespace's answers and next state depend on that namespace alone. */
  lemma ActionIsLocal(h: Heap, g: Heap, o: Owner, p: Registry.ResourcePolicy, a: Action)
    requires Separate(h) && Separate(g) && h.sets == g.sets && Exists(h, o) && View(h, o) == View(g, o)
    ensures var (m, x) := Act(h, At(h, o), p, a);
            var (n, y) := Act(g, At(g, o), p, a);
            x == y && View(m, o) == View(n, o)
  {
    hide BreakerRuns.Step, BulkheadRuns.Next, BulkheadRuns.Reply, RetryBudget.Step;
  }

  lemma AllocationKeepsAlike(p: Policies, full: Trace, own: Trace, kept: Owner -> bool)
    requires Alike(full, own, kept)
    ensures Alike(Next(p, full, Create), Next(p, own, Create), kept)
  {
    AllocationSeparates(full.heap, p);
    AllocationSeparates(own.heap, p);
    var m, n := Allocate(full.heap, p), Allocate(own.heap, p);
    forall o | kept(o) ensures View(m, o) == View(n, o) {
      if o.id < |full.heap.sets| {
        assert View(full.heap, o) == View(own.heap, o) && InBounds(full.heap, At(full.heap, o));
      }
    }
  }

  lemma AnswersAppend(log: seq<(Owner, Answer)>, e: (Owner, Answer), kept: Owner -> bool)
    ensures AnswersTo(log + [e], kept) == AnswersTo(log, kept) + (if kept(e.0) then [e] else [])
  {
    assert (log + [e])[..|log|] == log;
  }

  lemma ActionKeepsAlike(p: Policies, full: Trace, own: Trace, op: Op, kept: Owner -> bool)
    requires Alike(full, own, kept) && op.On?
    ensures Alike(Next(p, full, op), if kept(op.owner) then Next(p, own, op) else own, kept)
  {
    hide Act, AnswersTo;
    var o := op.owner;
    if Exists(full.heap, o) {
      var policy := p.Of(o.side);
      ActionStaysInside(full.heap, o, policy, op.action);
      AnswersAppend(full.log, (o, Act(full.heap, At(full.heap, o), policy, op.action).1), kept);
      if kept(o) {
        ActionStaysInside(own.heap, o, policy, op.action);
        ActionIsLocal(full.heap, own.heap, o, policy, op.action);
      }
    }
  }

  /**
    However operations on any number of namespaces interleave, deleting all those of owners outside `kept`,
    clock readings untouched, leaves every state and every answer of the owners inside it unchanged.
   */
  lemma {:induction false} OthersAreInvisible(p: Policies, ops: seq<Op>, kept: Owner -> bool)
    ensures Alike(Run(p, ops), Run(p, Keep(ops, kept)), kept)
    decreases |ops|
  {
    if ops == [] {
    } else {
      var before, last := ops[..|ops| - 1], ops[|ops| - 1];
      OthersAreInvisible(p, before, kept);
      var rest := Keep(before, kept);
      if last.Create? {
        AllocationKeepsAlike(p, Run(p, before), Run(p, rest), kept);
      } else {
        ActionKeepsAlike(p, Run(p, before), Run(p, rest), last, kept);
      }
      if last.Create? || kept(last.owner) {
        assert (rest + [last])[..|rest|] == rest;
      } else {
        assert rest + [] == rest;
      }
    }
  }

  /** Erasing all shadow work leaves every primary state and every primary answer, on every route, as it was. */
  lemma ShadowIsInvisible(p: Policies, ops: seq<Op>)
    ensures var primary := (o: Owner) => o.side == Primary;
            var full, own := Run(p, ops), Run(p, Keep(ops, primary));
            && AnswersTo(full.log, primary) == own.log
            && forall id :: View(full.heap, Owner(id, Primary)) == View(own.heap, Owner(id, Primary))
  {
    OthersAreInvisible(p, ops, (o: Owner) => o.side == Primary);
  }

  // ----- Every namespace by itself -----

  /** A namespace that is alone in the world, once its set, the one numbered `id`, is created. */
  datatype Solo = Solo(created: nat, state: Option<Namespace>, answers: seq<Answer>)

  function Serve(p: Registry.ResourcePolicy, n: Namespace, a: Action): (Namespace, Answer) {
    match a
    case UseBreaker(e) =>
      var (m, response) := BreakerRuns.Step(p.breaker, n.breaker, e, Breaker.WRAP);
      (n.(breaker := m), FromBreaker(response))
    case UseBulkhead(s) =>
      (n.(bulkhead := BulkheadRuns.Next(p.bulkheadCapacity, n.bulkhead, s)),
       FromBulkhead(BulkheadRuns.Reply(p.bulkheadCapacity, n.bulkhead, s)))
    case UseBudget(op) =>
      var (available, decision) := RetryBudget.Step(p.budget, n.available, op);
      (n.(available := available), FromBudget(decision))
  }

  function RunAlone(p: Policies, ops: seq<Op>, o: Owner): Solo {
    if ops == [] then Solo(0, None, [])
    else
      var solo := RunAlone(p, ops[..|ops| - 1], o);
      match ops[|ops| - 1]
      case Create =>
        var own := if solo.created != o.id then solo.state
                   else Some(Namespace(BreakerRuns.START, BulkheadRuns.START, p.Of(o.side).budget.capacity));
        solo.(created := solo.created + 1, state := own)
      case On(q, a) =>
        if q != o || solo.state.None? then solo
        else
          var (n, answer) := Serve(p.Of(o.side), solo.state.value, a);
          solo.(state := Some(n), answers := solo.answers + [answer])
  }

  function AnswersOf(log: seq<(Owner, Answer)>, o: Owner): seq<Answer> {
    if log == [] then []
    else
      var last := log[|log| - 1];
      AnswersOf(log[..|log| - 1], o) + (if last.0 == o then [last.1] else [])
  }

  ghost predicate Mirrors(t: Trace, solo: Solo, o: Owner) {
    && Separate(t.heap) && |t.heap.sets| == solo.created
    && View(t.heap, o) == solo.state
    && AnswersOf(t.log, o) == solo.answers
  }

  lemma AllocationMirrors(p: Policies, t: Trace, solo: Solo, o: Owner)
    requires Mirrors(t, solo, o)
    ensures var own := Some(Namespace(BreakerRuns.START, BulkheadRuns.START, p.Of(o.side).budget.capacity));
            View(Allocate(t.heap, p), o) == if |t.heap.sets| == o.id then own else solo.state
  {
    AllocationSeparates(t.heap, p);
    var n := Allocate(t.heap, p);
    assert o.side == Primary || o.side == Shadow;
    if o.id < |t.heap.sets| {
      assert Exists(t.heap, o) && InBounds(t.heap, At(t.heap, o)) && At(n, o) == At(t.heap, o);
    }
  }

  /** An action through the handles is that action on the namespace. */
  lemma ActionServes(h: Heap, o: Owner, p: Registry.ResourcePolicy, a: Action)
    requires Separate(h) && Exists(h, o)
    ensures var (n, answer) := Act(h, At(h, o), p, a);
            Some(Serve(p, View(h, o).value, a).0) == View(n, o) && answer == Serve(p, View(h, o).value, a).1
  {
    hide BreakerRuns.Step, BulkheadRuns.Next, BulkheadRuns.Reply, RetryBudget.Step;
  }

  lemma ActionMirrors(p: Policies, t: Trace, solo: Solo, o: Owner, op: Op)
    requires Mirrors(t, solo, o) && op.On?
    ensures var n := Next(p, t, op);
            && Separate(n.heap) && n.heap.sets == t.heap.sets
            && (op.owner != o || solo.state.None? ==> View(n.heap, o) == solo.state && AnswersOf(n.log, o) == solo.answers)
            && (op.owner == o && solo.state.Some? ==>
                  (var (own, answer) := Serve(p.Of(o.side), solo.state.value, op.action);
                   View(n.heap, o) == Some(own) && AnswersOf(n.log, o) == solo.answers + [answer]))
  {
    hide Act, Serve;
    var q := op.owner;
    if Exists(t.heap, q) {
      var policy := p.Of(q.side);
      ActionStaysInside(t.heap, q, policy, op.action);
      ActionServes(t.heap, q, policy, op.action);
      var answer := Act(t.heap, At(t.heap, q), policy, op.action).1;
      assert (t.log + [(q, answer)])[..|t.log|] == t.log;
    }
  }

  lemma NothingIsMirrored(o: Owner)
    ensures Mirrors(Trace(EMPTY, []), Solo(0, None, []), o)
  {
  }

  /** Sharing one heap, every namespace gives the answers, and reaches the state, that it would give and reach alone. */
  lemma {:induction false} NamespacesAreIndependent(p: Policies, ops: seq<Op>, o: Owner)
    ensures Mirrors(Run(p, ops), RunAlone(p, ops, o), o)
    decreases |ops|
  {
    hide Serve, Act, View, AnswersOf;
    if ops == [] {
      NothingIsMirrored(o);
    } else {
      var before, last := ops[..|ops| - 1], ops[|ops| - 1];
      NamespacesAreIndependent(p, before, o);
      var t, solo := Run(p, before), RunAlone(p, before, o);
      if last.Create? {
        AllocationMirrors(p, t, solo, o);
        AllocationSeparates(t.heap, p);
      } else {
        ActionMirrors(p, t, solo, o, last);
      }
    }
  }

  // ----- Every namespace is its parts -----

  function Created(ops: seq<Op>): nat {
    if ops == [] then 0 else Created(ops[..|ops| - 1]) + (if ops[|ops| - 1].Create? then 1 else 0)
  }

  /** What an owner does, from the creation of its set on. */
  function Own(ops: seq<Op>, o: Owner): seq<Action> {
    if ops == [] then []
    else
      var before, last := ops[..|ops| - 1], ops[|ops| - 1];
      Own(before, o) + (if last.On? && last.owner == o && o.id < Created(before) then [last.action] else [])
  }

  function BreakerEvents(actions: seq<Action>): seq<BreakerRuns.Event> {
    if actions == [] then []
    else
      var last := actions[|actions| - 1];
      BreakerEvents(actions[..|actions| - 1]) + (if last.UseBreaker? then [last.event] else [])
  }

  function BulkheadSteps(actions: seq<Action>): seq<BulkheadRuns.Step> {
    if actions == [] then []
    else
      var last := actions[|actions| - 1];
      BulkheadSteps(actions[..|actions| - 1]) + (if last.UseBulkhead? then [last.access] else [])
  }

  function BudgetOps(actions: seq<Action>): seq<RetryBudget.BudgetOp> {
    if actions == [] then []
    else
      var last := actions[|actions| - 1];
      BudgetOps(actions[..|actions| - 1]) + (if last.UseBudget? then [last.op] else [])
  }

  function BreakerAnswers(answers: seq<Answer>): seq<BreakerRuns.Response> {
    if answers == [] then []
    else
      var last := answers[|answers| - 1];
      BreakerAnswers(answers[..|answers| - 1]) + (if last.FromBreaker? then [last.response] else [])
  }

  function BulkheadAnswers(answers: seq<Answer>): seq<(nat, bool)> {
    if answers == [] then []
    else
      var last := answers[|answers| - 1];
      BulkheadAnswers(answers[..|answers| - 1]) + (if last.FromBulkhead? then last.replies else [])
  }

  function BudgetAnswers(answers: seq<Answer>): seq<Option<RetryBudget.BudgetDecision>> {
    if answers == [] then []
    else
      var last := answers[|answers| - 1];
      BudgetAnswers(answers[..|answers| - 1]) + (if last.FromBudget? then [last.decision] else [])
  }

  lemma ActionsAppend(actions: seq<Action>, a: Action)
    ensures BreakerEvents(actions + [a]) == BreakerEvents(actions) + (if a.UseBreaker? then [a.event] else [])
    ensures BulkheadSteps(actions + [a]) == BulkheadSteps(actions) + (if a.UseBulkhead? then [a.access] else [])
    ensures BudgetOps(actions + [a]) == BudgetOps(actions) + (if a.UseBudget? then [a.op] else [])
  {
    assert (actions + [a])[..|actions|] == actions;
  }

  lemma AnswersGrow(answers: seq<Answer>, x: Answer)
    ensures BreakerAnswers(answers + [x]) == BreakerAnswers(answers) + (if x.FromBreaker? then [x.response] else [])
    ensures BulkheadAnswers(answers + [x]) == BulkheadAnswers(answers) + (if x.FromBulkhead? then x.replies else [])
    ensures BudgetAnswers(answers + [x]) == BudgetAnswers(answers) + (if x.FromBudget? then [x.decision] else [])
  {
    assert (answers + [x])[..|answers|] == answers;
  }

  ghost predicate BreakerIsRun(p: Registry.ResourcePolicy, m: BreakerRuns.Machine,
                               answers: seq<BreakerRuns.Response>, events: seq<BreakerRuns.Event>) {
    && m == BreakerRuns.Exec(p.breaker, BreakerRuns.START, events, Breaker.WRAP)
    && answers == BreakerRuns.Responses(p.breaker, BreakerRuns.START, events, Breaker.WRAP)
  }

  ghost predicate BulkheadIsRun(p: Registry.ResourcePolicy, m: BulkheadRuns.Machine,
                                replies: seq<(nat, bool)>, steps: seq<BulkheadRuns.Step>) {
    var l := BulkheadRuns.Run(p.bulkheadCapacity, steps);
    m == l.machine && replies == l.replies
  }

  ghost predicate BudgetIsRun(p: Registry.ResourcePolicy, available: U32,
                              answers: seq<Option<RetryBudget.BudgetDecision>>, ops: seq<RetryBudget.BudgetOp>) {
    && available == RetryBudget.Left(p.budget, p.budget.capacity, ops)
    && answers == RetryBudget.Answers(p.budget, p.budget.capacity, ops)
  }

  /** A namespace is a breaker, a bulkhead and a budget, each in the state, and giving the answers, of its own run. */
  ghost predicate IsItsParts(p: Registry.ResourcePolicy, n: Namespace, answers: seq<Answer>, actions: seq<Action>) {
    && BreakerIsRun(p, n.breaker, BreakerAnswers(answers), BreakerEvents(actions))
    && BulkheadIsRun(p, n.bulkhead, BulkheadAnswers(answers), BulkheadSteps(actions))
    && BudgetIsRun(p, n.available, BudgetAnswers(answers), BudgetOps(actions))
  }

  lemma BreakerRunsOn(p: Registry.ResourcePolicy, m: BreakerRuns.Machine, answers: seq<BreakerRuns.Response>,
                      events: seq<BreakerRuns.Event>, e: BreakerRuns.Event)
    requires BreakerIsRun(p, m, answers, events)
    ensures var (n, response) := BreakerRuns.Step(p.breaker, m, e, Breaker.WRAP);
            BreakerIsRun(p, n, answers + [response], events + [e])
  {
    BreakerRuns.OneEventMore(p.breaker, BreakerRuns.START, events, e, Breaker.WRAP);
  }

  lemma BulkheadRunsOn(p: Registry.ResourcePolicy, m: BulkheadRuns.Machine, replies: seq<(nat, bool)>,
                       steps: seq<BulkheadRuns.Step>, s: BulkheadRuns.Step)
    requires BulkheadIsRun(p, m, replies, steps)
    ensures BulkheadIsRun(p, BulkheadRuns.Next(p.bulkheadCapacity, m, s),
                          replies + BulkheadRuns.Reply(p.bulkheadCapacity, m, s), steps + [s])
  {
    assert (steps + [s])[..|steps|] == steps;
  }

  lemma BudgetRunsOn(p: Registry.ResourcePolicy, available: U32, answers: seq<Option<RetryBudget.BudgetDecision>>,
                     ops: seq<RetryBudget.BudgetOp>, op: RetryBudget.BudgetOp)
    requires BudgetIsRun(p, available, answers, ops)
    ensures var (left, answer) := RetryBudget.Step(p.budget, available, op);
            BudgetIsRun(p, left, answers + [answer], ops + [op])
  {
    RetryBudget.LeftAfter(p.budget, p.budget.capacity, ops, op);
  }

  lemma ServiceKeepsParts(p: Registry.ResourcePolicy, n: Namespace, answers: seq<Answer>, actions: seq<Action>, a: Action)
    requires IsItsParts(p, n, answers, actions)
    ensures var (after, answer) := Serve(p, n, a);
            IsItsParts(p, after, answers + [answer], actions + [a])
  {
    hide BreakerIsRun, BulkheadIsRun, BudgetIsRun, BreakerEvents, BulkheadSteps, BudgetOps,
         BreakerAnswers, BulkheadAnswers, BudgetAnswers;
    ActionsAppend(actions, a);
    AnswersGrow(answers, Serve(p, n, a).1);
    var events, steps, ops := BreakerEvents(actions), BulkheadSteps(actions), BudgetOps(actions);
    var told, replies, decisions := BreakerAnswers(answers), BulkheadAnswers(answers), BudgetAnswers(answers);
    assert events + [] == events && steps + [] == steps && ops + [] == ops;
    assert told + [] == told && replies + [] == replies && decisions + [] == decisions;
    match a {
      case UseBreaker(e) => BreakerRunsOn(p, n.breaker, told, events, e);
      case UseBulkhead(s) => BulkheadRunsOn(p, n.bulkhead, replies, steps, s);
      case UseBudget(op) => BudgetRunsOn(p, n.available, decisions, ops, op);
    }
  }

  lemma FreshIsItsParts(p: Registry.ResourcePolicy)
    ensures IsItsParts(p, Namespace(BreakerRuns.START, BulkheadRuns.START, p.budget.capacity), [], [])
  {
  }

  ghost predicate SoloIsItsParts(p: Policies, solo: Solo, o: Owner, created: nat, actions: seq<Action>) {
    && solo.created == created
    && (solo.state.Some? <==> o.id < created)
    && (solo.state.None? ==> solo.answers == [] && actions == [])
    && (solo.state.Some? ==> IsItsParts(p.Of(o.side), solo.state.value, solo.answers, actions))
  }

  lemma {:induction false} SolosAreTheirParts(p: Policies, ops: seq<Op>, o: Owner)
    ensures SoloIsItsParts(p, RunAlone(p, ops, o), o, Created(ops), Own(ops, o))
    decreases |ops|
  {
    hide IsItsParts, Serve;
    if ops == [] {
    } else {
      var before, last := ops[..|ops| - 1], ops[|ops| - 1];
      SolosAreTheirParts(p, before, o);
      var solo := RunAlone(p, before, o);
      assert Own(before, o) + [] == Own(before, o);
      if last.Create? {
        FreshIsItsParts(p.Of(o.side));
      } else if last.owner == o && solo.state.Some? {
        ServiceKeepsParts(p.Of(o.side), solo.state.value, solo.answers, Own(before, o), last.action);
      }
    }
  }

  /**
    In every interleaving, every namespace exists once its set was created, and its breaker, bulkhead and budget
    are in the state, and have given the answers, that their own runs lead to: those of the machines about which
    everything else is proved.
   */
  lemma NamespacesAreTheirParts(p: Policies, ops: seq<Op>, o: Owner)
    ensures var t := Run(p, ops);
            var policy := match o.side case Primary => p.primary case Shadow => p.shadow;
            && (View(t.heap, o).Some? <==> o.id < Created(ops))
            && (View(t.heap, o).Some? ==>
                  IsItsParts(policy, View(t.heap, o).value, AnswersOf(t.log, o), Own(ops, o)))
  {
    hide IsItsParts, View, AnswersOf, RunAlone;
    NamespacesAreIndependent(p, ops, o);
    SolosAreTheirParts(p, ops, o);
  }
}
