/**
  Any number of threads on one bulkhead, interleaved between the atomic accesses of the reservation
  loop, and the proof that together they behave like one atomic bounded counter.
 */
module BulkheadRuns {
  import opened Wrappers
  import opened Bulkhead

  /** Where a thread stands: outside the loop, or about to test and exchange the value it holds. */
  datatype Pc = Idle | Trying(current: nat)

  /** `permits` maps every permit not yet dropped to its `released` flag. */
  datatype Machine = Machine(counter: nat, pcs: map<nat, Pc>, permits: map<nat, bool>, issued: nat)

  datatype Step =
    | Load(thread: nat)
    | Exchange(thread: nat, spurious: bool)
    | Reject(thread: nat)
    | ReleaseInner(permit: nat)
    | Drop(permit: nat)

  const START := Machine(0, map[], map[], 0)

  function PcOf(m: Machine, thread: nat): Pc {
    if thread in m.pcs then m.pcs[thread] else Idle
  }

  predicate Enabled(capacity: nat, m: Machine, s: Step) {
    match s
    case Load(t) => PcOf(m, t).Idle?
    case Exchange(t, _) => PcOf(m, t).Trying? && PcOf(m, t).current < capacity
    case Reject(t) => PcOf(m, t).Trying? && PcOf(m, t).current >= capacity
    case ReleaseInner(p) => p in m.permits
    case Drop(p) => p in m.permits
  }

  function GiveBack(m: Machine, p: nat): Machine
    requires p in m.permits
  {
    if m.permits[p] then m
    else m.(counter := FetchSubOne(m.counter), permits := m.permits[p := true])
  }

  function Next(capacity: nat, m: Machine, s: Step): Machine {
    if !Enabled(capacity, m, s) then m
    else
      match s
      case Load(t) => m.(pcs := m.pcs[t := Trying(m.counter)])
      case Exchange(t, spurious) =>
        if m.counter == m.pcs[t].current && !spurious
        then Machine(m.counter + 1, m.pcs[t := Idle], m.permits[m.issued := false], m.issued + 1)
        else m.(pcs := m.pcs[t := Trying(m.counter)])
      case Reject(t) => m.(pcs := m.pcs[t := Idle])
      case ReleaseInner(p) => GiveBack(m, p)
      case Drop(p) => var n := GiveBack(m, p); n.(permits := n.permits - {p})
  }

  // ----- The counter counts the held slots -----

  function Held(m: Machine): set<nat> {
    set p | p in m.permits && !m.permits[p]
  }

  ghost predicate Sound(capacity: nat, m: Machine) {
    && m.counter == |Held(m)| <= capacity
    && forall p <- m.permits :: p < m.issued
  }

  lemma GiveBackReleases(capacity: nat, m: Machine, p: nat)
    requires Sound(capacity, m) && p in m.permits
    ensures Sound(capacity, GiveBack(m, p)) && GiveBack(m, p).permits.Keys == m.permits.Keys
    ensures GiveBack(m, p).permits[p] && p !in Held(GiveBack(m, p))
    ensures p in Held(m) ==> GiveBack(m, p).counter == m.counter - 1
  {
    assert Held(GiveBack(m, p)) == Held(m) - {p};
  }

  lemma ThreadStepIsSound(capacity: nat, m: Machine, s: Step)
    requires Sound(capacity, m) && !s.ReleaseInner? && !s.Drop?
    ensures Sound(capacity, Next(capacity, m, s))
  {
    var n := Next(capacity, m, s);
    if n.issued > m.issued {
      assert n.permits == m.permits[m.issued := false];
      assert Held(n) == Held(m) + {m.issued};
    } else {
      assert Held(n) == Held(m);
    }
  }

  lemma NextIsSound(capacity: nat, m: Machine, s: Step)
    requires Sound(capacity, m)
    ensures Sound(capacity, Next(capacity, m, s))
  {
    if s.ReleaseInner? || s.Drop? {
      if s.permit in m.permits {
        GiveBackReleases(capacity, m, s.permit);
        assert s.Drop? ==> Held(Next(capacity, m, s)) == Held(GiveBack(m, s.permit));
      }
    } else {
      ThreadStepIsSound(capacity, m, s);
    }
  }

  // ----- Linearisation -----

  /** The steps of the atomic counter: a whole reservation, or a slot given back. */
  datatype Atomic = Take(thread: nat, ok: bool) | Give(permit: nat)

  /** One step of the atomic bounded counter; `None` if it would not give that answer. */
  function AtomicStep(capacity: nat, n: nat, a: Atomic): Option<nat> {
    match a
    case Take(_, ok) => if ok != (n < capacity) then None else if ok then Some(n + 1) else Some(n)
    case Give(_) => if n == 0 then None else Some(n - 1)
  }

  function AtomicRun(capacity: nat, log: seq<Atomic>): Option<nat> {
    if log == [] then Some(0)
    else
      match AtomicRun(capacity, log[..|log| - 1])
      case None => None
      case Some(n) => AtomicStep(capacity, n, log[|log| - 1])
  }

  /** A run as it is seen from outside, with the atomic steps it stands for. */
  datatype Ledger = Ledger(machine: Machine, linear: seq<Atomic>, calls: seq<nat>, replies: seq<(nat, bool)>)

  /** The atomic step a thread's access stands for: a reservation takes effect at the access that decides it. */
  function Effect(capacity: nat, m: Machine, s: Step): seq<Atomic> {
    if !Enabled(capacity, m, s) then []
    else
      match s
      case Load(t) => if m.counter >= capacity then [Take(t, false)] else []
      case Exchange(t, spurious) =>
        if m.counter == m.pcs[t].current && !spurious then [Take(t, true)]
        else if m.counter >= capacity then [Take(t, false)]
        else []
      case Reject(_) => []
      case ReleaseInner(p) => if m.permits[p] then [] else [Give(p)]
      case Drop(p) => if m.permits[p] then [] else [Give(p)]
  }

  function Call(capacity: nat, m: Machine, s: Step): seq<nat> {
    if s.Load? && Enabled(capacity, m, s) then [s.thread] else []
  }

  function Reply(capacity: nat, m: Machine, s: Step): seq<(nat, bool)> {
    if !Enabled(capacity, m, s) then []
    else
      match s
      case Exchange(t, spurious) => if m.counter == m.pcs[t].current && !spurious then [(t, true)] else []
      case Reject(t) => [(t, false)]
      case _ => []
  }

  function Run(capacity: nat, steps: seq<Step>): Ledger {
    if steps == [] then Ledger(START, [], [], [])
    else
      var l := Run(capacity, steps[..|steps| - 1]);
      var s := steps[|steps| - 1];
      Ledger(Next(capacity, l.machine, s),
             l.linear + Effect(capacity, l.machine, s),
             l.calls + Call(capacity, l.machine, s),
             l.replies + Reply(capacity, l.machine, s))
  }

  function TakesOf(log: seq<Atomic>, thread: nat): seq<bool> {
    if log == [] then []
    else
      var last := log[|log| - 1];
      TakesOf(log[..|log| - 1], thread) + (if last.Take? && last.thread == thread then [last.ok] else [])
  }

  function RepliesTo(replies: seq<(nat, bool)>, thread: nat): seq<bool> {
    if replies == [] then []
    else
      var last := replies[|replies| - 1];
      RepliesTo(replies[..|replies| - 1], thread) + (if last.0 == thread then [last.1] else [])
  }

  function CallsBy(calls: seq<nat>, thread: nat): nat {
    if calls == [] then 0
    else CallsBy(calls[..|calls| - 1], thread) + (if calls[|calls| - 1] == thread then 1 else 0)
  }

  /** The answer a thread is bound to give but has not given yet. */
  function Decided(capacity: nat, m: Machine, thread: nat): seq<bool> {
    if PcOf(m, thread).Trying? && PcOf(m, thread).current >= capacity then [false] else []
  }

  ghost predicate Linear(capacity: nat, l: Ledger, thread: nat) {
    && TakesOf(l.linear, thread) == RepliesTo(l.replies, thread) + Decided(capacity, l.machine, thread)
    && CallsBy(l.calls, thread) == |RepliesTo(l.replies, thread)| + (if PcOf(l.machine, thread).Trying? then 1 else 0)
  }

  function OwnTake(more: seq<Atomic>, thread: nat): seq<bool> {
    if more != [] && more[0].Take? && more[0].thread == thread then [more[0].ok] else []
  }

  function OwnReply(more: seq<(nat, bool)>, thread: nat): seq<bool> {
    if more != [] && more[0].0 == thread then [more[0].1] else []
  }

  /** How many slots a log gives back. */
  function Gives(log: seq<Atomic>): nat {
    if log == [] then 0 else Gives(log[..|log| - 1]) + (if log[|log| - 1].Give? then 1 else 0)
  }

  /** How many slots a log gives back for one permit. */
  function GivenBackBy(log: seq<Atomic>, p: nat): nat {
    if log == [] then 0 else GivenBackBy(log[..|log| - 1], p) + (if log[|log| - 1] == Give(p) then 1 else 0)
  }

  lemma AppendAtomic(capacity: nat, log: seq<Atomic>, more: seq<Atomic>, thread: nat)
    requires |more| <= 1
    ensures TakesOf(log + more, thread) == TakesOf(log, thread) + OwnTake(more, thread)
    ensures AtomicRun(capacity, log).Some? ==>
              (AtomicRun(capacity, log + more)
               == if more == [] then AtomicRun(capacity, log)
                  else AtomicStep(capacity, AtomicRun(capacity, log).value, more[0]))
    ensures Gives(log + more) == Gives(log) + (if more != [] && more[0].Give? then 1 else 0)
    ensures forall p :: GivenBackBy(log + more, p) == GivenBackBy(log, p) + (if more == [Give(p)] then 1 else 0)
  {
    if more == [] {
      assert log + more == log;
    } else {
      assert (log + more)[..|log|] == log;
    }
  }

  lemma AppendReply(replies: seq<(nat, bool)>, more: seq<(nat, bool)>, thread: nat)
    requires |more| <= 1
    ensures RepliesTo(replies + more, thread)
         == RepliesTo(replies, thread) + OwnReply(more, thread)
  {
    if more == [] {
      assert replies + more == replies;
    } else {
      assert (replies + more)[..|replies|] == replies;
    }
  }

  lemma AppendCall(calls: seq<nat>, more: seq<nat>, thread: nat)
    requires |more| <= 1
    ensures CallsBy(calls + more, thread) == CallsBy(calls, thread) + (if more != [] && more[0] == thread then 1 else 0)
  {
    if more == [] {
      assert calls + more == calls;
    } else {
      assert (calls + more)[..|calls|] == calls;
    }
  }

  /** After every run: the counter equals the slots held, is at most the capacity, and never wraps. */
  lemma {:induction false} CounterIsHeldSlots(capacity: nat, steps: seq<Step>)
    ensures Sound(capacity, Run(capacity, steps).machine)
    decreases |steps|
  {
    if steps == [] {
      assert Held(START) == {};
    } else {
      CounterIsHeldSlots(capacity, steps[..|steps| - 1]);
      NextIsSound(capacity, Run(capacity, steps[..|steps| - 1]).machine, steps[|steps| - 1]);
    }
  }

  lemma StepRefines(capacity: nat, m: Machine, s: Step)
    requires Sound(capacity, m)
    ensures var effect := Effect(capacity, m, s);
            var after := Next(capacity, m, s).counter;
            |effect| <= 1
            && if effect == [] then after == m.counter
               else AtomicStep(capacity, m.counter, effect[0]) == Some(after)
  {
    if (s.ReleaseInner? || s.Drop?) && s.permit in m.permits {
      GiveBackReleases(capacity, m, s.permit);
      assert s.permit in Held(m) ==> Held(m) != {};
    }
  }

  /** After every run the atomic counter has taken the same steps legally and holds the same value. */
  lemma {:induction false} RunsRefineAtomicCounter(capacity: nat, steps: seq<Step>)
    ensures AtomicRun(capacity, Run(capacity, steps).linear) == Some(Run(capacity, steps).machine.counter)
    decreases |steps|
  {
    if steps == [] {
    } else {
      var before := Run(capacity, steps[..|steps| - 1]);
      var s := steps[|steps| - 1];
      RunsRefineAtomicCounter(capacity, steps[..|steps| - 1]);
      CounterIsHeldSlots(capacity, steps[..|steps| - 1]);
      StepRefines(capacity, before.machine, s);
      AppendAtomic(capacity, before.linear, Effect(capacity, before.machine, s), 0);
    }
  }

  /** Whether the step is an access of the given thread. */
  predicate IsAccessOf(s: Step, thread: nat) {
    !s.ReleaseInner? && !s.Drop? && s.thread == thread
  }

  /** What other threads and the permits do leaves a thread where it stands. */
  lemma OtherStepAnswers(capacity: nat, m: Machine, s: Step, thread: nat)
    requires !IsAccessOf(s, thread)
    ensures PcOf(Next(capacity, m, s), thread) == PcOf(m, thread)
    ensures OwnTake(Effect(capacity, m, s), thread) == []
    ensures OwnReply(Reply(capacity, m, s), thread) == []
    ensures thread !in Call(capacity, m, s)
  {
  }

  /** A thread's own access: what it decides is what it answers, now or at its next access. */
  lemma OwnStepAnswers(capacity: nat, m: Machine, s: Step, thread: nat)
    requires IsAccessOf(s, thread)
    ensures var n := Next(capacity, m, s);
            && Decided(capacity, m, thread) + OwnTake(Effect(capacity, m, s), thread)
            == OwnReply(Reply(capacity, m, s), thread) + Decided(capacity, n, thread)
            && (if PcOf(m, thread).Trying? then 1 else 0) + (if thread in Call(capacity, m, s) then 1 else 0)
            == |OwnReply(Reply(capacity, m, s), thread)| + (if PcOf(n, thread).Trying? then 1 else 0)
  {
  }

  lemma StepAnswers(capacity: nat, m: Machine, s: Step, thread: nat)
    ensures var n := Next(capacity, m, s);
            && Decided(capacity, m, thread) + OwnTake(Effect(capacity, m, s), thread)
            == OwnReply(Reply(capacity, m, s), thread) + Decided(capacity, n, thread)
            && (if PcOf(m, thread).Trying? then 1 else 0) + (if thread in Call(capacity, m, s) then 1 else 0)
            == |OwnReply(Reply(capacity, m, s), thread)| + (if PcOf(n, thread).Trying? then 1 else 0)
  {
    hide Next, Effect, Reply, Call, OwnTake, OwnReply, PcOf;
    if IsAccessOf(s, thread) {
      OwnStepAnswers(capacity, m, s, thread);
    } else {
      OtherStepAnswers(capacity, m, s, thread);
    }
  }

  lemma Regroup(given: seq<bool>, a: seq<bool>, b: seq<bool>, c: seq<bool>, d: seq<bool>)
    requires a + b == c + d
    ensures (given + a) + b == (given + c) + d
  {
    assert (given + a) + b == given + (a + b);
    assert (given + c) + d == given + (c + d);
  }

  lemma LinearExtends(capacity: nat, before: Ledger, after: Ledger,
                      takes: seq<Atomic>, calls: seq<nat>, replies: seq<(nat, bool)>, thread: nat)
    requires Linear(capacity, before, thread)
    requires |takes| <= 1 && |calls| <= 1 && |replies| <= 1
    requires after.linear == before.linear + takes && after.calls == before.calls + calls
    requires after.replies == before.replies + replies
    requires Decided(capacity, before.machine, thread) + OwnTake(takes, thread)
          == OwnReply(replies, thread) + Decided(capacity, after.machine, thread)
    requires (if PcOf(before.machine, thread).Trying? then 1 else 0) + (if thread in calls then 1 else 0)
          == |OwnReply(replies, thread)| + (if PcOf(after.machine, thread).Trying? then 1 else 0)
    ensures Linear(capacity, after, thread)
  {
    AppendAtomic(capacity, before.linear, takes, thread);
    AppendReply(before.replies, replies, thread);
    AppendCall(before.calls, calls, thread);
    Regroup(RepliesTo(before.replies, thread), Decided(capacity, before.machine, thread), OwnTake(takes, thread),
            OwnReply(replies, thread), Decided(capacity, after.machine, thread));
  }

  lemma LinearStep(capacity: nat, before: Ledger, after: Ledger, s: Step, thread: nat)
    requires Linear(capacity, before, thread)
    requires after == Ledger(Next(capacity, before.machine, s),
                             before.linear + Effect(capacity, before.machine, s),
                             before.calls + Call(capacity, before.machine, s),
                             before.replies + Reply(capacity, before.machine, s))
    ensures Linear(capacity, after, thread)
  {
    StepAnswers(capacity, before.machine, s, thread);
    LinearExtends(capacity, before, after, Effect(capacity, before.machine, s),
                  Call(capacity, before.machine, s), Reply(capacity, before.machine, s), thread);
  }

  /**
    At every point of every run, each thread's answers are, in order, those of the atomic counter, with
    at most one answer decided and not yet given; and it has made exactly one call more than it has had
    answers while it is inside the loop. So each reservation takes effect between its call and its answer.
   */
  lemma {:induction false} AnswersAreLinearised(capacity: nat, steps: seq<Step>, thread: nat)
    ensures Linear(capacity, Run(capacity, steps), thread)
    decreases |steps|
  {
    if steps == [] {
    } else {
      var before := Run(capacity, steps[..|steps| - 1]);
      var s := steps[|steps| - 1];
      AnswersAreLinearised(capacity, steps[..|steps| - 1], thread);
      LinearStep(capacity, before, Run(capacity, steps), s, thread);
    }
  }

  /** A rejection takes effect at an access where every slot was held. */
  lemma RejectionSawEverySlotHeld(capacity: nat, steps: seq<Step>, s: Step, thread: nat)
    requires Effect(capacity, Run(capacity, steps).machine, s) == [Take(thread, false)]
    ensures |Held(Run(capacity, steps).machine)| == capacity
  {
    CounterIsHeldSlots(capacity, steps);
  }

  lemma StepBalances(capacity: nat, m: Machine, s: Step)
    requires Sound(capacity, m)
    ensures var effect := Effect(capacity, m, s);
            var n := Next(capacity, m, s);
            n.counter + (if effect != [] && effect[0].Give? then 1 else 0) + m.issued == m.counter + n.issued
  {
    StepRefines(capacity, m, s);
  }

  lemma {:induction false} SlotsBalance(capacity: nat, steps: seq<Step>)
    ensures var l := Run(capacity, steps); Gives(l.linear) + l.machine.counter == l.machine.issued
    decreases |steps|
  {
    if steps == [] {
    } else {
      var before := Run(capacity, steps[..|steps| - 1]);
      var s := steps[|steps| - 1];
      SlotsBalance(capacity, steps[..|steps| - 1]);
      CounterIsHeldSlots(capacity, steps[..|steps| - 1]);
      StepRefines(capacity, before.machine, s);
      StepBalances(capacity, before.machine, s);
      AppendAtomic(capacity, before.linear, Effect(capacity, before.machine, s), 0);
    }
  }

  /** What a permit should have given back: nothing before it is issued and while it holds its slot, then one slot. */
  function Owed(m: Machine, p: nat): nat {
    if p < m.issued && p !in Held(m) then 1 else 0
  }

  lemma StepGivesBackOwed(capacity: nat, m: Machine, s: Step, p: nat)
    requires Sound(capacity, m)
    ensures Owed(Next(capacity, m, s), p) == Owed(m, p) + (if Effect(capacity, m, s) == [Give(p)] then 1 else 0)
  {
  }

  /** Every permit ever issued has given back exactly one slot, unless it is still held. */
  lemma {:induction false} EachPermitReleasesOnce(capacity: nat, steps: seq<Step>, p: nat)
    ensures var l := Run(capacity, steps);
            GivenBackBy(l.linear, p) == if p < l.machine.issued && p !in Held(l.machine) then 1 else 0
    decreases |steps|
  {
    hide Next, Effect, Held;
    if steps == [] {
    } else {
      var before := Run(capacity, steps[..|steps| - 1]);
      var s := steps[|steps| - 1];
      EachPermitReleasesOnce(capacity, steps[..|steps| - 1], p);
      CounterIsHeldSlots(capacity, steps[..|steps| - 1]);
      StepRefines(capacity, before.machine, s);
      StepGivesBackOwed(capacity, before.machine, s, p);
      AppendAtomic(capacity, before.linear, Effect(capacity, before.machine, s), 0);
    }
  }

  /** In total: slots given back and slots held are the permits issued. */
  lemma SlotsAreConserved(capacity: nat, steps: seq<Step>)
    ensures var l := Run(capacity, steps);
            Gives(l.linear) + |Held(l.machine)| == l.machine.issued
  {
    SlotsBalance(capacity, steps);
    CounterIsHeldSlots(capacity, steps);
  }

  /** An explicit release followed by the drop gives back what the drop alone would. */
  lemma ReleaseThenDropIsDrop(capacity: nat, m: Machine, p: nat)
    requires p in m.permits
    ensures Next(capacity, Next(capacity, m, ReleaseInner(p)), Drop(p)) == Next(capacity, m, Drop(p))
  {
    assert m.permits[p := true] - {p} == m.permits - {p};
  }

  // ----- Progress -----

  /** The step is another thread's successful reservation, or a slot given back. */
  predicate Advances(capacity: nat, m: Machine, s: Step, thread: nat) {
    var effect := Effect(capacity, m, s);
    effect != [] && (effect[0].Give? || (effect[0].ok && effect[0].thread != thread))
  }

  ghost predicate AdvancesAt(capacity: nat, steps: seq<Step>, k: int, thread: nat) {
    0 <= k < |steps| && Advances(capacity, Run(capacity, steps[..k]).machine, steps[k], thread)
  }

  /** Only such a step changes the counter under a thread. */
  lemma OtherStepKeepsCounter(capacity: nat, m: Machine, s: Step, thread: nat)
    requires !IsAccessOf(s, thread) && !Advances(capacity, m, s, thread)
    ensures Next(capacity, m, s).counter == m.counter
  {
  }

  /** An access that leaves the thread in the loop leaves it with the value the counter then has. */
  lemma AccessObserves(capacity: nat, m: Machine, s: Step, thread: nat)
    requires IsAccessOf(s, thread) && Enabled(capacity, m, s)
    ensures var n := Next(capacity, m, s); PcOf(n, thread).Trying? ==> PcOf(n, thread).current == n.counter
  {
  }

  lemma RunAppends(capacity: nat, steps: seq<Step>, s: Step)
    ensures Run(capacity, steps + [s]).machine == Next(capacity, Run(capacity, steps).machine, s)
  {
    assert (steps + [s])[..|steps|] == steps;
  }

  /** Between two accesses of a thread the counter stays as it is unless the system advances. */
  lemma {:induction false} UnchangedWithoutAdvance(capacity: nat, before: seq<Step>, between: seq<Step>, thread: nat)
    requires forall s <- between :: !IsAccessOf(s, thread)
    ensures var m, n := Run(capacity, before).machine, Run(capacity, before + between).machine;
            && PcOf(n, thread) == PcOf(m, thread)
            && (n.counter == m.counter
                || exists k :: |before| <= k && AdvancesAt(capacity, before + between, k, thread))
    decreases |between|
  {
    hide Next, Effect, Enabled, Run, PcOf, Advances;
    if between == [] {
      assert before + between == before;
    } else {
      var last := |between| - 1;
      var s, fewer := between[last], between[..last];
      var steps := before + fewer;
      assert before + between == steps + [s];
      UnchangedWithoutAdvance(capacity, before, fewer, thread);
      RunAppends(capacity, steps, s);
      OtherStepAnswers(capacity, Run(capacity, steps).machine, s, thread);
      if Advances(capacity, Run(capacity, steps).machine, s, thread) {
        assert (steps + [s])[..|steps|] == steps;
        assert AdvancesAt(capacity, before + between, |steps|, thread);
      } else {
        OtherStepKeepsCounter(capacity, Run(capacity, steps).machine, s, thread);
        if k :| |before| <= k && AdvancesAt(capacity, steps, k, thread) {
          assert (steps + [s])[..k] == steps[..k] && (steps + [s])[k] == steps[k];
          assert AdvancesAt(capacity, before + between, k, thread);
        }
      }
    }
  }

  /**
    The loop is lock-free: an exchange that fails, but not spuriously, fails because since this thread's
    last access another thread has taken a slot or a slot was given back.
   */
  lemma FailedExchangeMeansProgress(capacity: nat, before: seq<Step>, access: Step, between: seq<Step>, thread: nat)
    requires IsAccessOf(access, thread) && Enabled(capacity, Run(capacity, before).machine, access)
    requires forall s <- between :: !IsAccessOf(s, thread)
    requires var n := Run(capacity, before + [access] + between).machine;
             Enabled(capacity, n, Exchange(thread, false))
             && Reply(capacity, n, Exchange(thread, false)) == []
    ensures exists k :: |before| < k && AdvancesAt(capacity, before + [access] + between, k, thread)
  {
    RunAppends(capacity, before, access);
    AccessObserves(capacity, Run(capacity, before).machine, access, thread);
    UnchangedWithoutAdvance(capacity, before + [access], between, thread);
  }
}
