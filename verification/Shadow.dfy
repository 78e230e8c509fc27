/** Planning a primary route and, for a sampled fraction of requests, a shadow route beside it. */
module Shadow {
  import opened Wrappers
  import opened Routing
  import opened Eligibility

  const PARTS_PER_MILLION: U32 := 1_000_000

  type SampleDraw = U32 -> U32

  datatype SamplingError = PartsPerMillionOutOfRange | SampleOutOfRange

  datatype ShadowSampling = ShadowSampling(partsPerMillion: U32)
  {
    predicate Valid() {
      partsPerMillion <= PARTS_PER_MILLION
    }

    static function New(partsPerMillion: U32): (r: Result<ShadowSampling, SamplingError>)
      ensures r.Ok? <==> partsPerMillion <= PARTS_PER_MILLION
      ensures r.Ok? ==> r.value.partsPerMillion == partsPerMillion
      ensures r.Err? ==> r.error == PartsPerMillionOutOfRange
    {
      if partsPerMillion > PARTS_PER_MILLION then Err(PartsPerMillionOutOfRange)
      else Ok(ShadowSampling(partsPerMillion))
    }

    predicate Draws() {
      partsPerMillion != 0 && partsPerMillion != PARTS_PER_MILLION
    }

    /** `sample_with`, as a function of the value drawn, which only a sampling that draws looks at. */
    function SampleAt(selected: U32): Result<bool, SamplingError> {
      if partsPerMillion == 0 then Ok(false)
      else if partsPerMillion == PARTS_PER_MILLION then Ok(true)
      else if selected >= PARTS_PER_MILLION then Err(SampleOutOfRange)
      else Ok(selected < partsPerMillion)
    }

    function Sampled(draw: SampleDraw): bool {
      SampleAt(draw(PARTS_PER_MILLION)) == Ok(true)
    }
  }

  lemma {:induction false} SameSize(a: set<U32>, b: set<nat>)
    requires forall d: int :: d in a <==> d in b
    ensures |a| == |b|
    decreases |a|
  {
    if d :| d in a {
      SameSize(a - {d}, b - {d});
    } else {
      assert b == {};
    }
  }

  /**
    A draw below parts_per_million samples and any other in range does not. At the extremes the draw is not
    looked at; between them one out of range is an error.
   */
  lemma SampleMeaning(s: ShadowSampling, selected: U32)
    requires s.Valid()
    ensures selected < PARTS_PER_MILLION ==> s.SampleAt(selected) == Ok(selected < s.partsPerMillion)
    ensures selected >= PARTS_PER_MILLION ==>
              s.SampleAt(selected) == if s.partsPerMillion == 0 then Ok(false)
                                      else if s.partsPerMillion == PARTS_PER_MILLION then Ok(true)
                                      else Err(SampleOutOfRange)
  {
  }

  /** Planning samples whenever sampling is complete, and otherwise on a draw in range below parts_per_million. */
  lemma SampledMeaning(s: ShadowSampling, draw: SampleDraw)
    ensures s.Sampled(draw)
        <==> s.partsPerMillion == PARTS_PER_MILLION
             || draw(PARTS_PER_MILLION) < Min(s.partsPerMillion, PARTS_PER_MILLION)
  {
  }

  /** Of the million draws exactly `parts_per_million` sample, at the extremes as in between. */
  lemma SamplingIsExact(s: ShadowSampling)
    requires s.Valid()
    ensures |set d: U32 | 0 <= d < PARTS_PER_MILLION && s.SampleAt(d) == Ok(true)| == s.partsPerMillion
    ensures forall d: U32 :: d < PARTS_PER_MILLION ==> s.SampleAt(d).Ok?
  {
    var sampling := set d: U32 | 0 <= d < PARTS_PER_MILLION && s.SampleAt(d) == Ok(true);
    SpanSize(0, s.partsPerMillion);
    assert forall d: U32 :: Between(0, d, s.partsPerMillion) <==> d in sampling;
    SameSize(sampling, Span(0, s.partsPerMillion));
  }

  datatype RoutePlan = RoutePlan(generation: U64, primary: RouteId, shadow: Option<RouteId>, shadowSampled: bool)

  datatype PlanError =
    | PrimarySelection(error: TableError)
    | EligibilityMismatch
    | EligibleDrawOutOfRange
    | NoEligiblePrimary
    | PlanPanic

  /** The bounds a planner passes to its three draws, in order; `None` where it does not draw. */
  datatype Offers = Offers(primary: Option<U64>, sample: Option<U32>, shadow: Option<U64>)

  datatype Planned = Planned(result: Result<RoutePlan, PlanError>, offers: Offers)

  // ----- The shadow selection of the unfiltered planner -----

  predicate ShadowCandidate(r: Route, primary: RouteId) {
    r.id != primary && r.enabled && r.weight > 0
  }

  /** The checked sum over the shadow candidates from position `k` on. */
  function ShadowTotal(routes: seq<Route>, primary: RouteId, k: nat, sum: U64): Option<U64>
    requires k <= |routes|
    decreases |routes| - k
  {
    if k == |routes| then Some(sum)
    else if !ShadowCandidate(routes[k], primary) then ShadowTotal(routes, primary, k + 1, sum)
    else if sum + routes[k].weight > U64_MAX then None
    else ShadowTotal(routes, primary, k + 1, sum + routes[k].weight)
  }

  lemma {:induction false} ShadowTotalIsCheckedTotal(routes: seq<Route>, primary: RouteId, k: nat, sum: U64)
    requires Distinct(routes) && k <= |routes|
    ensures ShadowTotal(routes, primary, k, sum) == CheckedTotal(routes, UsableIds(routes) - {primary}, k, sum)
    decreases |routes| - k
  {
    if k == |routes| {
    } else {
      assert routes[k].id in UsableIds(routes) <==> routes[k].Usable();
      var own := Share(routes, UsableIds(routes) - {primary}, k);
      if sum + own <= U64_MAX {
        ShadowTotalIsCheckedTotal(routes, primary, k + 1, sum + own);
      }
    }
  }

  function ShadowOffer(t: RouteTable, primary: RouteId): Option<U64> {
    match ShadowTotal(t.routes, primary, 0, 0)
    case None => None
    case Some(total) => if total == 0 then None else Some(total)
  }

  function SelectShadow(t: RouteTable, primary: RouteId, draw: Draw): Option<nat> {
    match ShadowOffer(t, primary)
    case None => None
    case Some(total) =>
      if draw(total) >= total then None else Pick(t.routes, UsableIds(t.routes) - {primary}, draw(total))
  }

  /** `select_shadow`. */
  method SelectShadowWith(t: RouteTable, primary: RouteId, draw: Draw) returns (r: Option<nat>)
    requires Valid(t)
    ensures r == SelectShadow(t, primary, draw)
  {
    var checked := ShadowTotal(t.routes, primary, 0, 0);
    if checked.None? || checked.value == 0 {
      return None;
    }
    var total := checked.value;
    var selected := draw(total);
    if selected >= total {
      return None;
    }
    ghost var ids := UsableIds(t.routes) - {primary};
    var cursor: nat := selected;
    for i := 0 to |t.routes|
      invariant PickFrom(t.routes, ids, i, cursor) == Pick(t.routes, ids, selected)
    {
      var route := t.routes[i];
      assert route.id in UsableIds(t.routes) <==> route.Usable();
      if route.id == primary || !route.enabled || route.weight == 0 {
        continue;
      }
      if cursor < route.weight {
        return Some(i);
      }
      cursor := cursor - route.weight;
    }
    r := None;
  }

  // ----- The two planners -----

  function IdAt(t: RouteTable, k: Option<nat>): Option<RouteId> {
    match k
    case None => None
    case Some(i) => if i < |t.routes| then Some(t.routes[i].id) else None
  }

  function SampleOffer(s: ShadowSampling): Option<U32> {
    if s.Draws() then Some(PARTS_PER_MILLION) else None
  }

  /** `RoutePlanner::plan_with`. */
  function PlanWith(t: RouteTable, s: ShadowSampling, primaryDraw: Draw, sampleDraw: SampleDraw, shadowDraw: Draw)
    : Planned
  {
    match Select(t, primaryDraw(t.eligibleWeight))
    case Err(e) => Planned(Err(PrimarySelection(e)), Offers(Some(t.eligibleWeight), None, None))
    case Ok(k) =>
      if k >= |t.routes| then Planned(Err(PlanPanic), Offers(Some(t.eligibleWeight), None, None))
      else
        var primary := t.routes[k].id;
        var sampled := s.Sampled(sampleDraw);
        var shadow := if sampled then SelectShadow(t, primary, shadowDraw) else None;
        Planned(Ok(RoutePlan(t.generation, primary, IdAt(t, shadow), sampled)),
                Offers(Some(t.eligibleWeight), SampleOffer(s), if sampled then ShadowOffer(t, primary) else None))
  }

  /** `RoutePlanner::plan_eligible_with`. */
  function PlanEligibleWith(t: RouteTable, e: RouteEligibility, s: ShadowSampling,
                            primaryDraw: Draw, sampleDraw: SampleDraw, shadowDraw: Draw): Planned
  {
    var asked := Offers(Offer(t, e, {}), None, None);
    match SelectWeighted(t, e, {}, primaryDraw)
    case GenerationMismatch => Planned(Err(EligibilityMismatch), asked)
    case OutOfRange => Planned(Err(EligibleDrawOutOfRange), asked)
    case NothingLeft => Planned(Err(NoEligiblePrimary), asked)
    case Overflowed => Planned(Err(PlanPanic), asked)
    case Selected(k) =>
      if k >= |t.routes| then Planned(Err(PlanPanic), asked)
      else
        var primary := t.routes[k].id;
        var sampled := s.Sampled(sampleDraw);
        var asked := asked.(sample := SampleOffer(s), shadow := if sampled then Offer(t, e, {primary}) else None);
        if !sampled then Planned(Ok(RoutePlan(t.generation, primary, None, false)), asked)
        else
          match SelectWeighted(t, e, {primary}, shadowDraw)
          case Selected(i) => Planned(Ok(RoutePlan(t.generation, primary, IdAt(t, Some(i)), true)), asked)
          case Overflowed => Planned(Err(PlanPanic), asked)
          case _ => Planned(Ok(RoutePlan(t.generation, primary, None, true)), asked)
  }

  /** The eligible planner's error for an error of the unfiltered one. */
  function Corresponding(e: PlanError): PlanError {
    if e == PrimarySelection(DrawOutOfRange) then EligibleDrawOutOfRange else e
  }

  /**
    With every route eligible the two planners agree: same plan or corresponding error, and the same
    ranges offered to the same draws, for every table, sampling and draws.
   */
  lemma PlannersAgree(t: RouteTable, s: ShadowSampling, primaryDraw: Draw, sampleDraw: SampleDraw, shadowDraw: Draw)
    requires Valid(t)
    ensures var plain := PlanWith(t, s, primaryDraw, sampleDraw, shadowDraw);
            var filtered := PlanEligibleWith(t, AllRoutes(t), s, primaryDraw, sampleDraw, shadowDraw);
            && filtered.offers == plain.offers
            && filtered.result == match plain.result case Ok(plan) => Ok(plan) case Err(e) => Err(Corresponding(e))
  {
    var ids := UsableIds(t.routes);
    assert AllRoutes(t).eligible == ids;
    assert ids - {} == ids;
    CheckedTotalIsWeight(t.routes, ids, 0, 0);
    SelectionMeaning(t, AllRoutes(t), {}, primaryDraw);
    match SelectWeighted(t, AllRoutes(t), {}, primaryDraw) {
      case Selected(k) =>
        var primary := t.routes[k].id;
        JustifiedNeverOverflows(t, AllRoutes(t), {primary}, shadowDraw);
        SelectionMeaning(t, AllRoutes(t), {primary}, shadowDraw);
        ShadowTotalIsCheckedTotal(t.routes, primary, 0, 0);
        CheckedTotalIsWeight(t.routes, ids - {primary}, 0, 0);
      case _ =>
    }
  }

  /** What plans promise, whatever the eligibility and the draws. */
  lemma PlanMeaning(t: RouteTable, e: RouteEligibility, s: ShadowSampling,
                    primaryDraw: Draw, sampleDraw: SampleDraw, shadowDraw: Draw)
    ensures var p := PlanEligibleWith(t, e, s, primaryDraw, sampleDraw, shadowDraw).result;
            var total := Weight(t.routes, e.eligible - {});
            match p
            case Err(error) =>
              && (error == EligibilityMismatch <==> t.generation != e.generation)
              && (error == PlanPanic <==> t.generation == e.generation && total > U64_MAX)
              && (error == NoEligiblePrimary <==> t.generation == e.generation && total == 0)
              && (error == EligibleDrawOutOfRange
                  <==> t.generation == e.generation && 0 < total <= U64_MAX && primaryDraw(total) >= total)
            case Ok(plan) =>
              && t.generation == e.generation && 0 < total <= U64_MAX
              && plan.generation == t.generation
              && plan.primary in e.eligible
              && IdAt(t, Pick(t.routes, e.eligible - {}, primaryDraw(total))) == Some(plan.primary)
              && (plan.shadowSampled
                  <==> s.partsPerMillion == PARTS_PER_MILLION
                       || sampleDraw(PARTS_PER_MILLION) < Min(s.partsPerMillion, PARTS_PER_MILLION))
              && var rest := Weight(t.routes, e.eligible - {plan.primary});
                 && rest <= total
                 && (plan.shadow.Some? ==>
                       && plan.shadowSampled && plan.shadow.value in e.eligible && plan.shadow.value != plan.primary
                       && IdAt(t, Pick(t.routes, e.eligible - {plan.primary}, shadowDraw(rest))) == plan.shadow)
                 && (plan.shadow.None? <==> !plan.shadowSampled || rest == 0 || shadowDraw(rest) >= rest)
  {
    SampledMeaning(s, sampleDraw);
    SelectionMeaning(t, e, {}, primaryDraw);
    match SelectWeighted(t, e, {}, primaryDraw) {
      case Selected(k) =>
        var primary := t.routes[k].id;
        WeightGrows(t.routes, e.eligible - {primary}, e.eligible - {}, 0);
        SelectionMeaning(t, e, {primary}, shadowDraw);
      case _ =>
    }
  }

  /**
    Which draws a plan asks for and within which bounds: the primary's if there is a weight to draw from, the
    sample's once there is a primary and sampling is neither off nor complete, the shadow's for a sampled
    request that has another candidate.
   */
  lemma OffersMeaning(t: RouteTable, e: RouteEligibility, s: ShadowSampling,
                      primaryDraw: Draw, sampleDraw: SampleDraw, shadowDraw: Draw)
    ensures var p := PlanEligibleWith(t, e, s, primaryDraw, sampleDraw, shadowDraw);
            var total := Weight(t.routes, e.eligible - {});
            && p.offers.primary == (if t.generation == e.generation && 0 < total <= U64_MAX then Some(total) else None)
            && (p.offers.sample == if p.result.Ok? && s.partsPerMillion !in {0, PARTS_PER_MILLION}
                                   then Some(PARTS_PER_MILLION) else None)
            && (p.result.Err? ==> p.offers.shadow.None?)
            && (p.result.Ok? ==>
                  var rest := Weight(t.routes, e.eligible - {p.result.value.primary});
                  p.offers.shadow == if p.result.value.shadowSampled && rest > 0 then Some(rest) else None)
  {
    SelectionMeaning(t, e, {}, primaryDraw);
    OfferMeaning(t, e, {});
    match SelectWeighted(t, e, {}, primaryDraw) {
      case Selected(k) =>
        var primary := t.routes[k].id;
        WeightGrows(t.routes, e.eligible - {primary}, e.eligible - {}, 0);
        SelectionMeaning(t, e, {primary}, shadowDraw);
        OfferMeaning(t, e, {primary});
      case _ =>
    }
  }

  /** The unfiltered planner fails exactly on a primary draw out of range, and always offers the table's weight. */
  lemma PlainPlanFailsIff(t: RouteTable, s: ShadowSampling, primaryDraw: Draw, sampleDraw: SampleDraw, shadowDraw: Draw)
    requires Valid(t)
    ensures var p := PlanWith(t, s, primaryDraw, sampleDraw, shadowDraw);
            && (p.result.Err? <==> primaryDraw(t.eligibleWeight) >= t.eligibleWeight)
            && (p.result.Err? ==> p.result.error == PrimarySelection(DrawOutOfRange))
            && p.offers.primary == Some(t.eligibleWeight)
  {
    if primaryDraw(t.eligibleWeight) < t.eligibleWeight {
      PickLandsInOwnSpan(t.routes, UsableIds(t.routes), 0, primaryDraw(t.eligibleWeight));
    }
  }

  /** The primary, or the reason there is none. */
  function PrimaryOf(p: Planned): Result<RouteId, PlanError> {
    match p.result
    case Ok(plan) => Ok(plan.primary)
    case Err(e) => Err(e)
  }

  /** Once a primary is selected nothing that follows can panic, so the plan has that primary. */
  lemma PrimaryIsSelectedAlone(t: RouteTable, e: RouteEligibility, s: ShadowSampling,
                               primaryDraw: Draw, sampleDraw: SampleDraw, shadowDraw: Draw)
    ensures var k := SelectWeighted(t, e, {}, primaryDraw);
            var p := PrimaryOf(PlanEligibleWith(t, e, s, primaryDraw, sampleDraw, shadowDraw));
            k.Selected? ==> k.index < |t.routes| && p == Ok(t.routes[k.index].id)
  {
    SelectionMeaning(t, e, {}, primaryDraw);
    var k := SelectWeighted(t, e, {}, primaryDraw);
    if k.Selected? {
      var primary := t.routes[k.index].id;
      WeightGrows(t.routes, e.eligible - {primary}, e.eligible - {}, 0);
      SelectionMeaning(t, e, {primary}, shadowDraw);
    }
  }

  /** Neither planner lets the sampling, the sample draw or the shadow draw near the primary. */
  lemma ShadowCannotTouchPrimary(t: RouteTable, e: RouteEligibility, primaryDraw: Draw,
                                 s: ShadowSampling, sampleDraw: SampleDraw, shadowDraw: Draw,
                                 s': ShadowSampling, sampleDraw': SampleDraw, shadowDraw': Draw)
    ensures PrimaryOf(PlanEligibleWith(t, e, s, primaryDraw, sampleDraw, shadowDraw))
         == PrimaryOf(PlanEligibleWith(t, e, s', primaryDraw, sampleDraw', shadowDraw'))
    ensures PrimaryOf(PlanWith(t, s, primaryDraw, sampleDraw, shadowDraw))
         == PrimaryOf(PlanWith(t, s', primaryDraw, sampleDraw', shadowDraw'))
  {
    PrimaryIsSelectedAlone(t, e, s, primaryDraw, sampleDraw, shadowDraw);
    PrimaryIsSelectedAlone(t, e, s', primaryDraw, sampleDraw', shadowDraw');
  }
}
