/** Bounded failover from route to route within one logical request. */
module Failover {
  import opened Wrappers
  import opened Routing
  import opened Eligibility

  datatype RouteOutcome = Succeeded | RetrySameRoute | FailOver | Stop

  datatype StopReason = CallerTerminal | RouteAttemptBudgetExhausted | NoRemainingEligibleRoute

  datatype RouteAttempt = RouteAttempt(generation: U64, ordinal: nat, routeId: RouteId)

  datatype Decision = Complete | RetryCurrent | MoveTo(next: RouteAttempt) | Halt(reason: StopReason)

  /** `Inconsistent` is the source's `RouteFailoverError`; `Panicked` the overflow of the total weight. */
  datatype Answer = Decided(decision: Decision) | Inconsistent | Panicked

  /** What is fixed for the lifetime of one logical request. */
  datatype Policy = Policy(snapshot: RouteTable, eligibility: RouteEligibility, maxRoutes: nat)

  /** What failover changes. */
  datatype Progress = Progress(attempted: set<RouteId>, current: RouteAttempt)

  function Begin(p: Policy, primary: RouteId): Progress {
    Progress({primary}, RouteAttempt(p.snapshot.generation, 0, primary))
  }

  function Classify(p: Policy, s: Progress, outcome: RouteOutcome, draw: Draw): (Progress, Answer) {
    match outcome
    case Succeeded => (s, Decided(Complete))
    case RetrySameRoute => (s, Decided(RetryCurrent))
    case Stop => (s, Decided(Halt(CallerTerminal)))
    case FailOver =>
      if |s.attempted| >= p.maxRoutes then (s, Decided(Halt(RouteAttemptBudgetExhausted)))
      else
        match SelectWeighted(p.snapshot, p.eligibility, s.attempted, draw)
        case GenerationMismatch => (s, Inconsistent)
        case OutOfRange => (s, Inconsistent)
        case Overflowed => (s, Panicked)
        case NothingLeft => (s, Decided(Halt(NoRemainingEligibleRoute)))
        case Selected(k) =>
          if k >= |p.snapshot.routes| then (s, Panicked)
          else
            var next := RouteAttempt(p.snapshot.generation, |s.attempted|, p.snapshot.routes[k].id);
            (Progress(s.attempted + {next.routeId}, next), Decided(MoveTo(next)))
  }

  class RouteFailover {
    const policy: Policy
    var attempted: set<RouteId>
    var current: RouteAttempt

    function State(): Progress
      reads this
    {
      Progress(attempted, current)
    }

    /** `from_primary`. */
    constructor FromPrimary(policy: Policy, primary: RouteId)
      ensures this.policy == policy && State() == Begin(policy, primary)
    {
      this.policy := policy;
      attempted := {primary};
      current := RouteAttempt(policy.snapshot.generation, 0, primary);
    }

    /** `from_primary_eligibility`; `None` is the source's `RouteFailoverError`. */
    static method FromPrimaryEligibility(policy: Policy, primary: RouteId) returns (r: Option<RouteFailover>)
      ensures r.Some? <==> policy.eligibility.generation == policy.snapshot.generation
                           && primary in policy.eligibility.eligible
      ensures r.Some? ==> fresh(r.value) && r.value.policy == policy && r.value.State() == Begin(policy, primary)
    {
      if policy.eligibility.generation != policy.snapshot.generation || primary !in policy.eligibility.eligible {
        return None;
      }
      var failover := new RouteFailover.FromPrimary(policy, primary);
      r := Some(failover);
    }

    method ClassifyWith(outcome: RouteOutcome, draw: Draw) returns (r: Answer)
      modifies this
      ensures (State(), r) == Classify(policy, old(State()), outcome, draw)
    {
      match outcome {
        case Succeeded => return Decided(Complete);
        case RetrySameRoute => return Decided(RetryCurrent);
        case Stop => return Decided(Halt(CallerTerminal));
        case FailOver =>
      }
      if |attempted| >= policy.maxRoutes {
        return Decided(Halt(RouteAttemptBudgetExhausted));
      }
      var selection, _ := SelectWeightedWith(policy.snapshot, policy.eligibility, attempted, draw);
      SelectionMeaning(policy.snapshot, policy.eligibility, attempted, draw);
      match selection {
        case GenerationMismatch => return Inconsistent;
        case OutOfRange => return Inconsistent;
        case Overflowed => return Panicked;
        case NothingLeft => return Decided(Halt(NoRemainingEligibleRoute));
        case Selected(k) =>
          var next := RouteAttempt(policy.snapshot.generation, |attempted|, policy.snapshot.routes[k].id);
          attempted := attempted + {next.routeId};
          current := next;
          return Decided(MoveTo(next));
      }
    }
  }

  // ----- Runs -----

  datatype Input = Input(outcome: RouteOutcome, draw: Draw)

  /** The routes a request visits, in order, with the progress it ends in. */
  datatype Journey = Journey(progress: Progress, visits: seq<RouteId>)

  function Travel(p: Policy, j: Journey, input: Input): Journey {
    var (s, answer) := Classify(p, j.progress, input.outcome, input.draw);
    Journey(s, if answer.Decided? && answer.decision.MoveTo? then j.visits + [s.current.routeId] else j.visits)
  }

  function Travels(p: Policy, primary: RouteId, inputs: seq<Input>): Journey {
    if inputs == [] then Journey(Begin(p, primary), [primary])
    else Travel(p, Travels(p, primary, inputs[..|inputs| - 1]), inputs[|inputs| - 1])
  }

  ghost predicate Consistent(p: Policy, j: Journey) {
    && (forall a, b :: 0 <= a < b < |j.visits| ==> j.visits[a] != j.visits[b])
    && (forall id <- j.visits :: id in p.eligibility.eligible)
    && j.progress.attempted == (set id | id in j.visits)
    && 0 < |j.visits| == |j.progress.attempted| <= p.maxRoutes
    && j.progress.current
       == RouteAttempt(p.snapshot.generation, |j.visits| - 1, j.visits[|j.visits| - 1])
  }

  /** Only a move changes anything: retries, terminal outcomes, exhausted budgets and bad draws do not. */
  lemma OnlyMovesChangeState(p: Policy, s: Progress, outcome: RouteOutcome, draw: Draw)
    ensures var (n, answer) := Classify(p, s, outcome, draw);
            if answer.Decided? && answer.decision.MoveTo?
            then outcome == FailOver && n.current == answer.decision.next
                 && n.current.routeId in p.eligibility.eligible - s.attempted
                 && n.attempted == s.attempted + {n.current.routeId}
                 && n.current.ordinal == |s.attempted| < p.maxRoutes
                 && n.current.generation == p.snapshot.generation
            else n == s
  {
    SelectionMeaning(p.snapshot, p.eligibility, s.attempted, draw);
  }

  /** One more visit, to an eligible route not tried before, within the budget. */
  lemma VisitKeepsConsistent(p: Policy, j: Journey, id: RouteId)
    requires Consistent(p, j) && id in p.eligibility.eligible - j.progress.attempted
    requires |j.progress.attempted| < p.maxRoutes
    ensures var next := RouteAttempt(p.snapshot.generation, |j.progress.attempted|, id);
            Consistent(p, Journey(Progress(j.progress.attempted + {id}, next), j.visits + [id]))
  {
    var visits := j.visits + [id];
    assert (set x | x in visits) == (set x | x in j.visits) + {id};
    assert |j.progress.attempted + {id}| == |j.progress.attempted| + 1;
  }

  lemma TravelKeepsConsistent(p: Policy, j: Journey, input: Input)
    requires Consistent(p, j)
    ensures Consistent(p, Travel(p, j, input))
  {
    hide Classify, Consistent;
    OnlyMovesChangeState(p, j.progress, input.outcome, input.draw);
    var n := Travel(p, j, input);
    if n.visits != j.visits {
      VisitKeepsConsistent(p, j, n.progress.current.routeId);
    } else {
      assert n.progress == j.progress;
    }
  }

  /**
    In every run the visited routes are a duplicate-free log of eligible routes of one generation, whose
    length is the current ordinal plus one and at most the budget.
   */
  lemma {:induction false} JourneysAreConsistent(p: Policy, primary: RouteId, inputs: seq<Input>)
    requires p.maxRoutes > 0 && primary in p.eligibility.eligible
    ensures Consistent(p, Travels(p, primary, inputs))
    decreases |inputs|
  {
    if inputs == [] {
      assert (set id | id in [primary]) == {primary};
    } else {
      JourneysAreConsistent(p, primary, inputs[..|inputs| - 1]);
      TravelKeepsConsistent(p, Travels(p, primary, inputs[..|inputs| - 1]), inputs[|inputs| - 1]);
    }
  }

  /** Which answer each outcome gets, in every state and for every draw; `left` is the weight still untried. */
  lemma DecisionMeaning(p: Policy, s: Progress, outcome: RouteOutcome, draw: Draw)
    ensures var answer := Classify(p, s, outcome, draw).1;
            var untried := p.eligibility.eligible - s.attempted;
            var left := Weight(p.snapshot.routes, untried);
            var same := p.eligibility.generation == p.snapshot.generation;
            var asks := outcome == FailOver && |s.attempted| < p.maxRoutes;
            && (answer == Decided(Complete) <==> outcome == Succeeded)
            && (answer == Decided(RetryCurrent) <==> outcome == RetrySameRoute)
            && (answer == Decided(Halt(CallerTerminal)) <==> outcome == Stop)
            && (answer == Decided(Halt(RouteAttemptBudgetExhausted))
                <==> outcome == FailOver && |s.attempted| >= p.maxRoutes)
            && (answer == Decided(Halt(NoRemainingEligibleRoute)) <==> asks && same && left == 0)
            && (answer == Inconsistent <==> asks && (!same || (0 < left <= U64_MAX && draw(left) >= left)))
            && (answer == Panicked <==> asks && same && left > U64_MAX)
            && (answer.Decided? && answer.decision.MoveTo?
                <==> asks && same && 0 < left <= U64_MAX && draw(left) < left)
            && (answer.Decided? && answer.decision.MoveTo? ==>
                  var next := answer.decision.next;
                  && next.generation == p.snapshot.generation && next.ordinal == |s.attempted|
                  && exists k :: 0 <= k < |p.snapshot.routes| && next.routeId == p.snapshot.routes[k].id
                                 && Pick(p.snapshot.routes, untried, draw(left)) == Some(k))
  {
    hide Weight, Pick;
    SelectionMeaning(p.snapshot, p.eligibility, s.attempted, draw);
  }

  lemma {:induction false} CandidateHasWeight(routes: seq<Route>, ids: set<RouteId>, k: nat, i: nat)
    requires k <= i < |routes| && routes[i].id in ids && routes[i].weight > 0
    ensures WeightFrom(routes, ids, k) > 0
    decreases i - k
  {
    if k == i {
    } else {
      CandidateHasWeight(routes, ids, k + 1, i);
    }
  }

  lemma {:induction false} NoCandidateNoWeight(routes: seq<Route>, ids: set<RouteId>, k: nat)
    requires k <= |routes| && ids == {}
    ensures WeightFrom(routes, ids, k) == 0
    decreases |routes| - k
  {
    if k == |routes| {
    } else {
      NoCandidateNoWeight(routes, ids, k + 1);
    }
  }

  /** Something can be drawn exactly while an eligible route is untried. */
  lemma RemainingWeight(p: Policy, tried: set<RouteId>)
    requires Justified(p.snapshot, p.eligibility)
    ensures Weight(p.snapshot.routes, p.eligibility.eligible - tried) > 0 <==> p.eligibility.eligible - tried != {}
  {
    var routes, ids := p.snapshot.routes, p.eligibility.eligible - tried;
    if ids == {} {
      NoCandidateNoWeight(routes, ids, 0);
    } else {
      var id :| id in ids;
      assert id in UsableIds(routes);
      var r :| r in routes && r.Usable() && r.id == id;
      var i :| 0 <= i < |routes| && routes[i] == r;
      CandidateHasWeight(routes, ids, 0, i);
    }
  }

  /** The draw stays below the bound this step offers, if it offers one. */
  predicate InRange(p: Policy, s: Progress, draw: Draw) {
    var offer := Offer(p.snapshot, p.eligibility, s.attempted);
    offer.Some? ==> draw(offer.value) < offer.value
  }

  ghost predicate DrawsInRange(p: Policy, primary: RouteId, inputs: seq<Input>) {
    forall n :: 0 <= n < |inputs| ==> InRange(p, Travels(p, primary, inputs[..n]).progress, inputs[n].draw)
  }

  /** One failover with a draw in range: it moves unless the budget is spent or every eligible route was tried. */
  lemma FailoverAnswer(p: Policy, s: Progress, draw: Draw)
    requires Justified(p.snapshot, p.eligibility) && s.attempted <= p.eligibility.eligible && InRange(p, s, draw)
    ensures var (n, answer) := Classify(p, s, FailOver, draw);
            && answer.Decided?
            && (answer.decision == Halt(RouteAttemptBudgetExhausted) <==> |s.attempted| >= p.maxRoutes)
            && (answer.decision == Halt(NoRemainingEligibleRoute)
                <==> |s.attempted| < p.maxRoutes && s.attempted == p.eligibility.eligible)
            && (answer.decision.MoveTo?
                <==> |s.attempted| < p.maxRoutes && s.attempted < p.eligibility.eligible)
  {
    RemainingWeight(p, s.attempted);
    JustifiedNeverOverflows(p.snapshot, p.eligibility, s.attempted, draw);
    SelectionMeaning(p.snapshot, p.eligibility, s.attempted, draw);
    CheckedTotalIsWeight(p.snapshot.routes, p.eligibility.eligible - s.attempted, 0, 0);
    if p.eligibility.eligible - s.attempted == {} {
      assert forall id <- p.eligibility.eligible :: id !in p.eligibility.eligible - s.attempted;
      assert s.attempted == p.eligibility.eligible;
    }
  }

  lemma ProperSubsetIsSmaller<T>(a: set<T>, b: set<T>)
    requires a < b
    ensures |a| < |b|
  {
    assert b == a + (b - a);
    assert |b| == |a| + |b - a|;
  }

  /** How often a request was asked to fail over. */
  function Asked(inputs: seq<Input>): nat {
    if inputs == [] then 0
    else Asked(inputs[..|inputs| - 1]) + (if inputs[|inputs| - 1].outcome == FailOver then 1 else 0)
  }

  /** One more input: a failover makes one more visit while budget and routes last, and nothing else makes any. */
  lemma TravelVisits(p: Policy, j: Journey, input: Input)
    requires Justified(p.snapshot, p.eligibility) && Consistent(p, j) && InRange(p, j.progress, input.draw)
    ensures |Travel(p, j, input).visits|
         == if input.outcome == FailOver then Min(|j.visits| + 1, Min(p.maxRoutes, |p.eligibility.eligible|))
            else |j.visits|
  {
    hide Classify, InRange, Justified;
    OnlyMovesChangeState(p, j.progress, input.outcome, input.draw);
    assert j.progress.attempted <= p.eligibility.eligible;
    if j.progress.attempted < p.eligibility.eligible {
      ProperSubsetIsSmaller(j.progress.attempted, p.eligibility.eligible);
    } else {
      assert j.progress.attempted == p.eligibility.eligible;
    }
    if input.outcome == FailOver {
      FailoverAnswer(p, j.progress, input.draw);
    }
  }

  /**
    With draws in range, whatever else happens to it, a request visits one route more for each failover
    asked of it, until it has visited min(max_routes, number of eligible routes); then it stops for good.
   */
  lemma {:induction false} FailoverExhausts(p: Policy, primary: RouteId, inputs: seq<Input>)
    requires p.maxRoutes > 0 && Justified(p.snapshot, p.eligibility) && primary in p.eligibility.eligible
    requires DrawsInRange(p, primary, inputs)
    ensures |Travels(p, primary, inputs).visits|
         == Min(Asked(inputs) + 1, Min(p.maxRoutes, |p.eligibility.eligible|))
    decreases |inputs|
  {
    hide Travel, InRange, Justified, Consistent;
    if inputs == [] {
      if {primary} < p.eligibility.eligible {
        ProperSubsetIsSmaller({primary}, p.eligibility.eligible);
      } else {
        assert {primary} == p.eligibility.eligible;
      }
    } else {
      var n := |inputs| - 1;
      assert forall k :: 0 <= k < n ==> inputs[..n][..k] == inputs[..k];
      FailoverExhausts(p, primary, inputs[..n]);
      JourneysAreConsistent(p, primary, inputs[..n]);
      TravelVisits(p, Travels(p, primary, inputs[..n]), inputs[n]);
    }
  }

  /** In any run, whatever its outcomes and draws, "no remaining route" means that every eligible route was tried. */
  lemma NoRemainingMeansAllTried(p: Policy, primary: RouteId, inputs: seq<Input>, draw: Draw)
    requires p.maxRoutes > 0 && Justified(p.snapshot, p.eligibility) && primary in p.eligibility.eligible
    requires var s := Travels(p, primary, inputs).progress;
             Classify(p, s, FailOver, draw).1 == Decided(Halt(NoRemainingEligibleRoute))
    ensures forall id <- p.eligibility.eligible :: id in Travels(p, primary, inputs).visits
  {
    var j := Travels(p, primary, inputs);
    JourneysAreConsistent(p, primary, inputs);
    SelectionMeaning(p.snapshot, p.eligibility, j.progress.attempted, draw);
    RemainingWeight(p, j.progress.attempted);
  }
}
