/**
  Route tables, weighted selection, and the store that publishes one table after another.

  Weighted selection is specified once, over a set of candidate ids: `Weight` adds the candidates'
  weights and `Pick` says which candidate a draw falls on.
 */
module Routing {
  import opened Wrappers

  type RouteId = id: string | id != "" witness "r"

  datatype Route = Route(id: RouteId, weight: U64, enabled: bool)
  {
    predicate Usable() { enabled && weight > 0 }
  }

  datatype TableError =
    | EmptyRouteTable
    | DuplicateRouteId
    | NoWeightedEligibleRoute
    | WeightOverflow
    | DrawOutOfRange
    | GenerationExhausted

  datatype RouteTable = RouteTable(generation: U64, routes: seq<Route>, eligibleWeight: U64)

  /** A source of draws: the value it returns when asked for one below the given bound. */
  type Draw = U64 -> U64

  predicate Distinct(routes: seq<Route>) {
    forall i, j :: 0 <= i < j < |routes| ==> routes[i].id != routes[j].id
  }

  function UsableIds(routes: seq<Route>): set<RouteId> {
    set r | r in routes && r.Usable() :: r.id
  }

  /** Total weight of the routes before `n` that are enabled and have positive weight. */
  function UsableWeight(routes: seq<Route>, n: nat): nat
    requires n <= |routes|
  {
    if n == 0 then 0
    else UsableWeight(routes, n - 1) + (if routes[n - 1].Usable() then routes[n - 1].weight else 0)
  }

  /** What route `k` contributes when only the routes with an id in `ids` are candidates. */
  function Share(routes: seq<Route>, ids: set<RouteId>, k: nat): nat
    requires k < |routes|
  {
    if routes[k].id in ids then routes[k].weight else 0
  }

  /** Total weight of the candidates from position `k` on. */
  function WeightFrom(routes: seq<Route>, ids: set<RouteId>, k: nat): nat
    requires k <= |routes|
    decreases |routes| - k
  {
    if k == |routes| then 0 else Share(routes, ids, k) + WeightFrom(routes, ids, k + 1)
  }

  function Weight(routes: seq<Route>, ids: set<RouteId>): nat {
    WeightFrom(routes, ids, 0)
  }

  /** The candidate on which a draw falls when the candidates from `k` on are laid end to end. */
  function PickFrom(routes: seq<Route>, ids: set<RouteId>, k: nat, cursor: nat): Option<nat>
    requires k <= |routes|
    decreases |routes| - k
  {
    if k == |routes| then None
    else if cursor < Share(routes, ids, k) then Some(k)
    else PickFrom(routes, ids, k + 1, cursor - Share(routes, ids, k))
  }

  function Pick(routes: seq<Route>, ids: set<RouteId>, draw: nat): Option<nat> {
    PickFrom(routes, ids, 0, draw)
  }

  /** Where the span of route `k` starts. */
  function Start(routes: seq<Route>, ids: set<RouteId>, k: nat): nat
    requires k <= |routes|
  {
    if k == 0 then 0 else Start(routes, ids, k - 1) + Share(routes, ids, k - 1)
  }

  ghost predicate Valid(t: RouteTable) {
    && Distinct(t.routes)
    && t.eligibleWeight == Weight(t.routes, UsableIds(t.routes)) > 0
  }

  // ----- Sums -----

  lemma {:induction false} WeightGrows(routes: seq<Route>, fewer: set<RouteId>, more: set<RouteId>, k: nat)
    requires k <= |routes|
    requires forall r <- routes :: r.id in fewer && r.weight > 0 ==> r.id in more
    ensures WeightFrom(routes, fewer, k) <= WeightFrom(routes, more, k)
    decreases |routes| - k
  {
    if k == |routes| {
    } else {
      WeightGrows(routes, fewer, more, k + 1);
    }
  }

  lemma {:induction false} WeightInTwo(routes: seq<Route>, ids: set<RouteId>, k: nat)
    requires k <= |routes|
    ensures Start(routes, ids, k) + WeightFrom(routes, ids, k) == Weight(routes, ids)
    decreases k
  {
    if k == 0 {
    } else {
      WeightInTwo(routes, ids, k - 1);
    }
  }

  lemma {:induction false} UsableWeightIsWeight(routes: seq<Route>, n: nat)
    requires Distinct(routes) && n <= |routes|
    ensures UsableWeight(routes, n) == Start(routes, UsableIds(routes), n)
    decreases n
  {
    if n == 0 {
    } else {
      UsableWeightIsWeight(routes, n - 1);
      assert routes[n - 1].id in UsableIds(routes) <==> routes[n - 1].Usable();
    }
  }

  // ----- Construction -----

  /** What the construction loop still has to decide after the routes before `i`. */
  function Scan(routes: seq<Route>, i: nat, ids: set<RouteId>, weight: U64): Result<U64, TableError>
    requires i <= |routes|
    decreases |routes| - i
  {
    if i == |routes| then Ok(weight)
    else if routes[i].id in ids then Err(DuplicateRouteId)
    else if routes[i].Usable() && weight + routes[i].weight > U64_MAX then Err(WeightOverflow)
    else Scan(routes, i + 1, ids + {routes[i].id}, if routes[i].Usable() then weight + routes[i].weight else weight)
  }

  function Build(generation: U64, routes: seq<Route>): Result<RouteTable, TableError> {
    if routes == [] then Err(EmptyRouteTable)
    else
      match Scan(routes, 0, {}, 0)
      case Err(e) => Err(e)
      case Ok(weight) =>
        if weight == 0 then Err(NoWeightedEligibleRoute) else Ok(RouteTable(generation, routes, weight))
  }

  method NewTable(generation: U64, routes: seq<Route>) returns (r: Result<RouteTable, TableError>)
    ensures r == Build(generation, routes)
  {
    if |routes| == 0 {
      return Err(EmptyRouteTable);
    }
    var ids: set<RouteId> := {};
    var eligibleWeight: U64 := 0;
    for i := 0 to |routes|
      invariant Scan(routes, i, ids, eligibleWeight) == Scan(routes, 0, {}, 0)
    {
      var route := routes[i];
      if route.id in ids {
        return Err(DuplicateRouteId);
      }
      ids := ids + {route.id};
      if route.enabled && route.weight > 0 {
        if eligibleWeight + route.weight > U64_MAX {
          return Err(WeightOverflow);
        }
        eligibleWeight := eligibleWeight + route.weight;
      }
    }
    if eligibleWeight == 0 {
      return Err(NoWeightedEligibleRoute);
    }
    r := Ok(RouteTable(generation, routes, eligibleWeight));
  }

  /** Route `i` repeats an earlier id. */
  ghost predicate RepeatsAt(routes: seq<Route>, i: int) {
    0 <= i < |routes| && exists j :: 0 <= j < i && routes[j].id == routes[i].id
  }

  /** Adding route `i` takes the total past u64. */
  ghost predicate OverflowsAt(routes: seq<Route>, i: int) {
    0 <= i < |routes| && UsableWeight(routes, i) <= U64_MAX < UsableWeight(routes, i + 1)
  }

  ghost predicate Clean(routes: seq<Route>, n: nat) {
    forall k :: 0 <= k < n ==> !RepeatsAt(routes, k) && !OverflowsAt(routes, k)
  }

  /** The error for the first route at fault; a repeated id is noticed before an overflow. */
  ghost predicate FirstFault(routes: seq<Route>, k: nat, e: TableError) {
    && k < |routes|
    && Clean(routes, k)
    && if RepeatsAt(routes, k) then e == DuplicateRouteId else OverflowsAt(routes, k) && e == WeightOverflow
  }

  ghost predicate HasFirstFault(routes: seq<Route>, e: TableError) {
    exists k :: FirstFault(routes, k, e)
  }

  function IdsBefore(routes: seq<Route>, n: nat): set<RouteId>
    requires n <= |routes|
  {
    set j | 0 <= j < n :: routes[j].id
  }

  /** The construction loop reports the first route at fault, and the whole usable weight if there is none. */
  lemma {:induction false} ScanFindsFirstFault(routes: seq<Route>, i: nat, weight: U64)
    requires i <= |routes| && Clean(routes, i) && weight == UsableWeight(routes, i)
    ensures var r := Scan(routes, i, IdsBefore(routes, i), weight);
            if r.Ok? then r.value == UsableWeight(routes, |routes|) && Clean(routes, |routes|)
            else HasFirstFault(routes, r.error)
    decreases |routes| - i
  {
    if i == |routes| {
    } else {
      assert routes[i].id in IdsBefore(routes, i) <==> RepeatsAt(routes, i);
      assert IdsBefore(routes, i + 1) == IdsBefore(routes, i) + {routes[i].id};
      if RepeatsAt(routes, i) {
        assert FirstFault(routes, i, DuplicateRouteId);
      } else if OverflowsAt(routes, i) {
        assert FirstFault(routes, i, WeightOverflow);
      } else {
        ScanFindsFirstFault(routes, i + 1, UsableWeight(routes, i + 1));
      }
    }
  }

  /** Construction fails with the error of the first route at fault; a table without usable weight comes last. */
  lemma BuildReportsFirstFault(generation: U64, routes: seq<Route>)
    ensures var r := Build(generation, routes);
            if r.Ok? then routes != [] && Clean(routes, |routes|)
            else if routes == [] then r.error == EmptyRouteTable
            else if r.error == NoWeightedEligibleRoute
            then Clean(routes, |routes|) && UsableWeight(routes, |routes|) == 0
            else HasFirstFault(routes, r.error)
  {
    assert IdsBefore(routes, 0) == {};
    ScanFindsFirstFault(routes, 0, 0);
  }

  lemma {:induction false} UsableWeightGrows(routes: seq<Route>, n: nat)
    requires n <= |routes|
    ensures UsableWeight(routes, n) <= UsableWeight(routes, |routes|)
    decreases |routes| - n
  {
    if n == |routes| {
    } else {
      UsableWeightGrows(routes, n + 1);
    }
  }

  lemma CleanIsDistinct(routes: seq<Route>)
    requires Clean(routes, |routes|)
    ensures Distinct(routes)
  {
    forall i, j | 0 <= i < j < |routes| ensures routes[i].id != routes[j].id {
      assert !RepeatsAt(routes, j);
    }
  }

  lemma FittingDistinctIsClean(routes: seq<Route>)
    requires Distinct(routes) && UsableWeight(routes, |routes|) <= U64_MAX
    ensures forall e :: !HasFirstFault(routes, e)
  {
    hide UsableWeight;
    forall k | 0 <= k < |routes| ensures !OverflowsAt(routes, k) && !RepeatsAt(routes, k) {
      UsableWeightGrows(routes, k + 1);
    }
  }

  lemma NoIdsBefore(routes: seq<Route>)
    ensures IdsBefore(routes, 0) == {} && UsableWeight(routes, 0) == 0 && Clean(routes, 0)
  {
  }

  /** A table is built exactly from non-empty routes with distinct ids whose usable weight is in 1..u64::MAX. */
  lemma TableIsBuiltWhenValid(generation: U64, routes: seq<Route>)
    ensures Build(generation, routes).Ok?
            <==> routes != [] && Distinct(routes) && 0 < UsableWeight(routes, |routes|) <= U64_MAX
    ensures Build(generation, routes).Ok? ==>
              Valid(Build(generation, routes).value)
              && Build(generation, routes).value
                 == RouteTable(generation, routes, UsableWeight(routes, |routes|))
  {
    hide Scan, UsableWeight, IdsBefore, Clean, HasFirstFault, UsableIds, Weight;
    NoIdsBefore(routes);
    ScanFindsFirstFault(routes, 0, 0);
    if Build(generation, routes).Ok? || Scan(routes, 0, {}, 0) == Ok(0) {
      CleanIsDistinct(routes);
    }
    if Distinct(routes) {
      if UsableWeight(routes, |routes|) <= U64_MAX {
        FittingDistinctIsClean(routes);
      }
      UsableWeightIsWeight(routes, |routes|);
      WeightInTwo(routes, UsableIds(routes), |routes|);
    }
  }

  // ----- Selection -----

  /** A table's answer to a draw. */
  function Select(t: RouteTable, selected: nat): Result<nat, TableError> {
    if selected >= t.eligibleWeight then Err(DrawOutOfRange)
    else
      match Pick(t.routes, UsableIds(t.routes), selected)
      case Some(k) => Ok(k)
      case None => Err(DrawOutOfRange)
  }

  /** `RouteTable::select_with`. */
  method SelectWith(t: RouteTable, draw: Draw) returns (r: Result<nat, TableError>)
    requires Valid(t)
    ensures r == Select(t, draw(t.eligibleWeight))
    ensures r.Err? <==> draw(t.eligibleWeight) >= t.eligibleWeight
    ensures r.Ok? ==> r.value < |t.routes| && t.routes[r.value].Usable()
  {
    var selected := draw(t.eligibleWeight);
    if selected >= t.eligibleWeight {
      return Err(DrawOutOfRange);
    }
    ghost var ids := UsableIds(t.routes);
    var cursor: nat := selected;
    for i := 0 to |t.routes|
      invariant cursor < WeightFrom(t.routes, ids, i)
      invariant PickFrom(t.routes, ids, i, cursor) == Pick(t.routes, ids, selected)
    {
      var route := t.routes[i];
      assert route.id in ids <==> route.Usable();
      if !route.enabled || route.weight == 0 {
        continue;
      }
      if cursor < route.weight {
        return Ok(i);
      }
      cursor := cursor - route.weight;
    }
    assert false;
  }

  /** Every draw below the total weight falls into the span of exactly the candidate picked, and no other draw does. */
  lemma {:induction false} PickLandsInOwnSpan(routes: seq<Route>, ids: set<RouteId>, k: nat, cursor: nat)
    requires k <= |routes|
    ensures PickFrom(routes, ids, k, cursor).Some? <==> cursor < WeightFrom(routes, ids, k)
    ensures PickFrom(routes, ids, k, cursor).Some? ==>
              var j := PickFrom(routes, ids, k, cursor).value;
              && k <= j < |routes| && routes[j].id in ids
              && Start(routes, ids, j) <= Start(routes, ids, k) + cursor < Start(routes, ids, j) + routes[j].weight
    decreases |routes| - k
  {
    if k < |routes| && cursor >= Share(routes, ids, k) {
      PickLandsInOwnSpan(routes, ids, k + 1, cursor - Share(routes, ids, k));
    }
  }

  lemma {:induction false} StartsAscend(routes: seq<Route>, ids: set<RouteId>, j: nat, k: nat)
    requires j < k <= |routes|
    ensures Start(routes, ids, j) + Share(routes, ids, j) <= Start(routes, ids, k)
    decreases k
  {
    if j == k - 1 {
    } else {
      StartsAscend(routes, ids, j, k - 1);
    }
  }

  lemma SpanIsPicked(routes: seq<Route>, ids: set<RouteId>, k: nat, draw: nat)
    requires k < |routes| && routes[k].id in ids
    requires Start(routes, ids, k) <= draw < Start(routes, ids, k) + routes[k].weight
    ensures Pick(routes, ids, draw) == Some(k) && draw < Weight(routes, ids)
  {
    WeightInTwo(routes, ids, k);
    PickLandsInOwnSpan(routes, ids, 0, draw);
    var j := Pick(routes, ids, draw).value;
    if j < k {
      StartsAscend(routes, ids, j, k);
    } else if k < j {
      StartsAscend(routes, ids, k, j);
    }
  }

  /** The draws that select route `k`. */
  function DrawsFor(routes: seq<Route>, ids: set<RouteId>, k: nat): set<nat> {
    set d | 0 <= d < Weight(routes, ids) && Pick(routes, ids, d) == Some(k)
  }

  predicate Between(lo: nat, d: nat, hi: nat) {
    lo <= d < hi
  }

  /** The integers from `lo` up to, not including, `hi`. */
  function Span(lo: nat, hi: nat): set<nat> {
    set d | 0 <= d < hi && Between(lo, d, hi)
  }

  lemma {:induction false} SpanSize(lo: nat, hi: nat)
    requires lo <= hi
    ensures |Span(lo, hi)| == hi - lo
    decreases hi - lo
  {
    if lo == hi {
      assert Span(lo, hi) == {};
    } else {
      SpanSize(lo, hi - 1);
      assert Span(lo, hi) == Span(lo, hi - 1) + {hi - 1} by {
        assert Between(lo, hi - 1, hi);
        assert forall d :: Between(lo, d, hi) <==> Between(lo, d, hi - 1) || d == hi - 1;
      }
    }
  }

  lemma DrawSelects(routes: seq<Route>, ids: set<RouteId>, k: nat, d: nat)
    requires k < |routes|
    ensures d in DrawsFor(routes, ids, k)
        <==> Between(Start(routes, ids, k), d, Start(routes, ids, k) + Share(routes, ids, k))
  {
    if Between(Start(routes, ids, k), d, Start(routes, ids, k) + Share(routes, ids, k)) {
      SpanIsPicked(routes, ids, k, d);
    } else if Pick(routes, ids, d) == Some(k) {
      PickLandsInOwnSpan(routes, ids, 0, d);
    }
  }

  lemma DrawsAreSpan(routes: seq<Route>, ids: set<RouteId>, k: nat)
    requires k < |routes|
    ensures DrawsFor(routes, ids, k)
         == Span(Start(routes, ids, k), Start(routes, ids, k) + Share(routes, ids, k))
  {
    var span := Span(Start(routes, ids, k), Start(routes, ids, k) + Share(routes, ids, k));
    forall d: nat ensures d in DrawsFor(routes, ids, k) <==> d in span {
      DrawSelects(routes, ids, k, d);
    }
  }

  /** Selection is an exact partition: a candidate receives `weight` consecutive draws, any other route none. */
  lemma SelectionIsExactPartition(routes: seq<Route>, ids: set<RouteId>, k: nat)
    requires k < |routes|
    ensures DrawsFor(routes, ids, k)
         == Span(Start(routes, ids, k), Start(routes, ids, k) + Share(routes, ids, k))
    ensures |DrawsFor(routes, ids, k)| == if routes[k].id in ids then routes[k].weight else 0
  {
    DrawsAreSpan(routes, ids, k);
    SpanSize(Start(routes, ids, k), Start(routes, ids, k) + Share(routes, ids, k));
  }

  lemma TableSpans(t: RouteTable, k: nat)
    requires Valid(t) && k < |t.routes|
    ensures forall d: nat :: Select(t, d) == Ok(k)
                             <==> t.routes[k].Usable()
                                  && UsableWeight(t.routes, k) <= d < UsableWeight(t.routes, k + 1)
  {
    hide Pick, Weight, Start;
    var ids := UsableIds(t.routes);
    assert t.routes[k].id in ids <==> t.routes[k].Usable();
    UsableWeightIsWeight(t.routes, k);
    forall d: nat
      ensures Select(t, d) == Ok(k)
              <==> t.routes[k].Usable()
                   && UsableWeight(t.routes, k) <= d < UsableWeight(t.routes, k + 1)
    {
      DrawSelects(t.routes, ids, k, d);
    }
  }

  /** In a table: every usable route gets exactly its weight in draws, every other route none, and no draw is lost. */
  lemma TableSelectionIsExact(t: RouteTable, k: nat)
    requires Valid(t) && k < |t.routes|
    ensures |set d | 0 <= d < t.eligibleWeight && Select(t, d) == Ok(k)|
         == if t.routes[k].Usable() then t.routes[k].weight else 0
    ensures forall d :: 0 <= d < t.eligibleWeight ==> Select(t, d).Ok?
    ensures forall d :: d >= t.eligibleWeight ==> Select(t, d) == Err(DrawOutOfRange)
    ensures forall d: nat :: Select(t, d) == Ok(k)
                             <==> t.routes[k].Usable()
                                  && UsableWeight(t.routes, k) <= d < UsableWeight(t.routes, k + 1)
  {
    TableSpans(t, k);
    var ids := UsableIds(t.routes);
    assert t.routes[k].id in ids <==> t.routes[k].Usable();
    SelectionIsExactPartition(t.routes, ids, k);
    forall d: nat | d < t.eligibleWeight ensures Select(t, d).Ok? {
      PickLandsInOwnSpan(t.routes, ids, 0, d);
    }
    assert (set d | 0 <= d < t.eligibleWeight && Select(t, d) == Ok(k)) == DrawsFor(t.routes, ids, k);
  }

  // ----- The store -----

  function Replacement(current: RouteTable, routes: seq<Route>): Result<RouteTable, TableError> {
    if current.generation == U64_MAX then Err(GenerationExhausted) else Build(current.generation + 1, routes)
  }

  class RouteTableStore {
    var current: RouteTable

    constructor (initial: RouteTable)
      ensures current == initial
    {
      current := initial;
    }

    method Snapshot() returns (t: RouteTable)
      ensures t == current
    {
      t := current;
    }

    method Replace(routes: seq<Route>) returns (r: Result<RouteTable, TableError>)
      modifies this
      ensures r == Replacement(old(current), routes)
      ensures current == if r.Ok? then r.value else old(current)
    {
      if current.generation == U64_MAX {
        return Err(GenerationExhausted);
      }
      r := NewTable(current.generation + 1, routes);
      if r.Ok? {
        current := r.value;
      }
    }
  }

  lemma FaultsAreOfTheRoutes(routes: seq<Route>)
    ensures !HasFirstFault(routes, GenerationExhausted)
  {
  }

  /**
    What a replacement comes to, in terms of the routes offered alone: they are published, unchanged, under the
    next generation exactly if they are fit for a table and there is a next generation; otherwise the error is
    that of a spent generation or, if there is one left, that of the first fault.
   */
  lemma ReplacementMeaning(current: RouteTable, routes: seq<Route>)
    ensures var r := Replacement(current, routes);
            var fit := routes != [] && Distinct(routes) && 0 < UsableWeight(routes, |routes|) <= U64_MAX;
            && (r.Ok? <==> current.generation < U64_MAX && fit)
            && (r.Ok? ==>
                  r.value.routes == routes && r.value.generation == current.generation + 1
                  && r.value.eligibleWeight == UsableWeight(routes, |routes|) && Valid(r.value))
            && (r == Err(GenerationExhausted) <==> current.generation == U64_MAX)
            && (r.Err? && current.generation < U64_MAX ==>
                  if routes == [] then r.error == EmptyRouteTable
                  else if r.error == NoWeightedEligibleRoute
                  then Clean(routes, |routes|) && UsableWeight(routes, |routes|) == 0
                  else HasFirstFault(routes, r.error))
  {
    if current.generation < U64_MAX {
      hide Build, Clean, UsableWeight, Valid, Distinct;
      TableIsBuiltWhenValid(current.generation + 1, routes);
      BuildReportsFirstFault(current.generation + 1, routes);
      FaultsAreOfTheRoutes(routes);
    }
  }

  /** Every table a store ever publishes, oldest first, over a run of replacements. */
  function Published(initial: RouteTable, batches: seq<seq<Route>>): (tables: seq<RouteTable>)
    ensures |tables| > 0
  {
    if batches == [] then [initial]
    else
      var before := Published(initial, batches[..|batches| - 1]);
      match Replacement(before[|before| - 1], batches[|batches| - 1])
      case Err(_) => before
      case Ok(next) => before + [next]
  }

  lemma PublishedUnfolds(initial: RouteTable, batches: seq<seq<Route>>)
    requires batches != []
    ensures var before := Published(initial, batches[..|batches| - 1]);
            var r := Replacement(before[|before| - 1], batches[|batches| - 1]);
            Published(initial, batches) == if r.Ok? then before + [r.value] else before
  {
    hide Replacement;
  }

  lemma PublishedAppends(initial: RouteTable, batches: seq<seq<Route>>, batch: seq<Route>)
    ensures var before := Published(initial, batches);
            var r := Replacement(before[|before| - 1], batch);
            Published(initial, batches + [batch]) == if r.Ok? then before + [r.value] else before
  {
    hide Replacement, Published;
    var longer := batches + [batch];
    assert longer[|longer| - 1] == batch && longer[..|longer| - 1] == batches;
    PublishedUnfolds(initial, longer);
  }

  lemma FitReplacement(current: RouteTable, routes: seq<Route>)
    ensures var r := Replacement(current, routes);
            if current.generation < U64_MAX && routes != [] && Distinct(routes)
               && 0 < UsableWeight(routes, |routes|) <= U64_MAX
            then r == Ok(RouteTable(current.generation + 1, routes, UsableWeight(routes, |routes|)))
            else r.Err?
  {
    hide Replacement, UsableWeight, Distinct, Valid, Clean, HasFirstFault;
    ReplacementMeaning(current, routes);
  }

  /**
    Over every run, one batch more: it is published, as it is, after the tables published so far, exactly if it
    is fit and a generation is left; otherwise the published tables stay as they were.
   */
  lemma BatchIsPublishedIff(initial: RouteTable, batches: seq<seq<Route>>, batch: seq<Route>)
    ensures var before := Published(initial, batches);
            var after := Published(initial, batches + [batch]);
            var last := before[|before| - 1];
            if last.generation < U64_MAX && batch != [] && Distinct(batch) && 0 < UsableWeight(batch, |batch|) <= U64_MAX
            then after == before + [RouteTable(last.generation + 1, batch, UsableWeight(batch, |batch|))]
            else after == before
  {
    hide Replacement, UsableWeight, Distinct, Published;
    var before := Published(initial, batches);
    PublishedAppends(initial, batches, batch);
    FitReplacement(before[|before| - 1], batch);
  }

  lemma {:induction false} GenerationsCountPublications(initial: RouteTable, batches: seq<seq<Route>>)
    requires Valid(initial)
    ensures var tables := Published(initial, batches);
            && tables[0] == initial
            && forall i :: 0 <= i < |tables| ==> Valid(tables[i]) && tables[i].generation == initial.generation + i
    decreases |batches|
  {
    if batches == [] {
    } else {
      GenerationsCountPublications(initial, batches[..|batches| - 1]);
      var before := Published(initial, batches[..|batches| - 1]);
      var last := before[|before| - 1];
      if last.generation < U64_MAX {
        TableIsBuiltWhenValid(last.generation + 1, batches[|batches| - 1]);
      }
    }
  }

  /** Among the tables of one store, the generation identifies the table. */
  lemma GenerationIdentifiesTable(initial: RouteTable, batches: seq<seq<Route>>, a: RouteTable, b: RouteTable)
    requires Valid(initial)
    requires a in Published(initial, batches) && b in Published(initial, batches)
    ensures Valid(a) && Valid(b)
    ensures a.generation == b.generation ==> a == b
  {
    GenerationsCountPublications(initial, batches);
  }
}
