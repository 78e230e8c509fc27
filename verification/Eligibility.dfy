/** Which routes a logical request may use, and weighted selection among them. */
module Eligibility {
  import opened Wrappers
  import opened Routing

  datatype RouteEligibility = RouteEligibility(generation: U64, eligible: set<RouteId>)

  function FromPredicate(t: RouteTable, accepts: Route -> bool): RouteEligibility {
    RouteEligibility(t.generation, set r | r in t.routes && r.Usable() && accepts(r) :: r.id)
  }

  function AllRoutes(t: RouteTable): RouteEligibility {
    FromPredicate(t, _ => true)
  }

  /** An id is eligible exactly if the table has an enabled route of positive weight with that id that is accepted. */
  lemma EligibleIffAccepted(t: RouteTable, accepts: Route -> bool, id: RouteId)
    ensures id in FromPredicate(t, accepts).eligible
        <==> exists k :: 0 <= k < |t.routes| && t.routes[k].id == id
                         && t.routes[k].enabled && t.routes[k].weight > 0 && accepts(t.routes[k])
    ensures FromPredicate(t, accepts).generation == t.generation
  {
    if id in FromPredicate(t, accepts).eligible {
      var r :| r in t.routes && r.Usable() && accepts(r) && r.id == id;
      var k :| 0 <= k < |t.routes| && t.routes[k] == r;
    }
  }

  /**
    The outcome of a selection. `Overflowed` is the panic of the source's `expect` on the total weight;
    the lemmas below say when it can be reached.
   */
  datatype Selection =
    | Selected(index: nat)
    | NothingLeft
    | GenerationMismatch
    | OutOfRange
    | Overflowed

  /** The checked sum of the candidates' weights from position `k` on. */
  function CheckedTotal(routes: seq<Route>, ids: set<RouteId>, k: nat, sum: U64): Option<U64>
    requires k <= |routes|
    decreases |routes| - k
  {
    if k == |routes| then Some(sum)
    else if sum + Share(routes, ids, k) > U64_MAX then None
    else CheckedTotal(routes, ids, k + 1, sum + Share(routes, ids, k))
  }

  lemma {:induction false} CheckedTotalIsWeight(routes: seq<Route>, ids: set<RouteId>, k: nat, sum: U64)
    requires k <= |routes|
    ensures CheckedTotal(routes, ids, k, sum)
         == if sum + WeightFrom(routes, ids, k) <= U64_MAX then Some(sum + WeightFrom(routes, ids, k)) else None
    decreases |routes| - k
  {
    if k < |routes| && sum + Share(routes, ids, k) <= U64_MAX {
      CheckedTotalIsWeight(routes, ids, k + 1, sum + Share(routes, ids, k));
    }
  }

  /** The bound a selection offers to its draw; `None` if it does not draw. */
  function Offer(t: RouteTable, e: RouteEligibility, excluded: set<RouteId>): Option<U64> {
    if t.generation != e.generation then None
    else
      match CheckedTotal(t.routes, e.eligible - excluded, 0, 0)
      case None => None
      case Some(total) => if total == 0 then None else Some(total)
  }

  function SelectWeighted(t: RouteTable, e: RouteEligibility, excluded: set<RouteId>, draw: Draw): Selection {
    if t.generation != e.generation then GenerationMismatch
    else
      match CheckedTotal(t.routes, e.eligible - excluded, 0, 0)
      case None => Overflowed
      case Some(total) =>
        if total == 0 then NothingLeft
        else if draw(total) >= total then OutOfRange
        else
          match Pick(t.routes, e.eligible - excluded, draw(total))
          case None => Overflowed
          case Some(k) => Selected(k)
  }

  /** `select_weighted_with`; `offered` records the bound passed to `draw`, if it was called. */
  method SelectWeightedWith(t: RouteTable, e: RouteEligibility, excluded: set<RouteId>, draw: Draw)
    returns (r: Selection, offered: Option<U64>)
    ensures r == SelectWeighted(t, e, excluded, draw)
    ensures offered == Offer(t, e, excluded)
  {
    if t.generation != e.generation {
      return GenerationMismatch, None;
    }
    var checked := CheckedTotal(t.routes, e.eligible - excluded, 0, 0);
    if checked.None? {
      return Overflowed, None;
    }
    var total := checked.value;
    if total == 0 {
      return NothingLeft, None;
    }
    offered := Some(total);
    var selected := draw(total);
    if selected >= total {
      return OutOfRange, offered;
    }
    ghost var ids := e.eligible - excluded;
    CheckedTotalIsWeight(t.routes, ids, 0, 0);
    var cursor: nat := selected;
    for i := 0 to |t.routes|
      invariant cursor < WeightFrom(t.routes, ids, i)
      invariant PickFrom(t.routes, ids, i, cursor) == Pick(t.routes, ids, selected)
    {
      var route := t.routes[i];
      if !(route.id in e.eligible && route.id !in excluded) {
        continue;
      }
      if cursor < route.weight {
        return Selected(i), offered;
      }
      cursor := cursor - route.weight;
    }
    assert false;
  }

  /** What a selection means, for every table, eligibility, exclusion set and draw. */
  lemma SelectionMeaning(t: RouteTable, e: RouteEligibility, excluded: set<RouteId>, draw: Draw)
    ensures var r := SelectWeighted(t, e, excluded, draw);
            var total := Weight(t.routes, e.eligible - excluded);
            && (r == GenerationMismatch <==> t.generation != e.generation)
            && (r == Overflowed <==> t.generation == e.generation && total > U64_MAX)
            && (r == NothingLeft <==> t.generation == e.generation && total == 0)
            && (r == OutOfRange <==> t.generation == e.generation && 0 < total <= U64_MAX && draw(total) >= total)
            && (r.Selected? ==>
                  && r.index < |t.routes|
                  && t.routes[r.index].id in e.eligible && t.routes[r.index].id !in excluded
                  && t.routes[r.index].weight > 0
                  && Pick(t.routes, e.eligible - excluded, draw(total)) == Some(r.index))
  {
    var ids := e.eligible - excluded;
    CheckedTotalIsWeight(t.routes, ids, 0, 0);
    var total := Weight(t.routes, ids);
    if 0 < total <= U64_MAX && draw(total) < total {
      PickLandsInOwnSpan(t.routes, ids, 0, draw(total));
    }
  }

  /** A selection draws exactly if the generations agree and the candidates' weight is a positive u64, which it offers. */
  lemma OfferMeaning(t: RouteTable, e: RouteEligibility, excluded: set<RouteId>)
    ensures var total := Weight(t.routes, e.eligible - excluded);
            Offer(t, e, excluded) == if t.generation == e.generation && 0 < total <= U64_MAX then Some(total) else None
  {
    CheckedTotalIsWeight(t.routes, e.eligible - excluded, 0, 0);
  }

  /** The eligibility holds only routes that the table has enabled with positive weight. */
  ghost predicate Justified(t: RouteTable, e: RouteEligibility) {
    Valid(t) && e.generation == t.generation && e.eligible <= UsableIds(t.routes)
  }

  /** A subset of a table's usable routes cannot overflow the total, whatever is excluded. */
  lemma JustifiedNeverOverflows(t: RouteTable, e: RouteEligibility, excluded: set<RouteId>, draw: Draw)
    requires Justified(t, e)
    ensures SelectWeighted(t, e, excluded, draw) != Overflowed
    ensures Weight(t.routes, e.eligible - excluded) <= t.eligibleWeight
  {
    WeightGrows(t.routes, e.eligible - excluded, UsableIds(t.routes), 0);
    SelectionMeaning(t, e, excluded, draw);
  }

  /**
    Among the tables one store publishes, the generation check is enough: an eligibility built from one
    snapshot and accepted for another holds only usable routes of it, and selection cannot panic.
   */
  lemma GenerationJustifiesEligibility(initial: RouteTable, batches: seq<seq<Route>>,
                                       source: RouteTable, t: RouteTable, accepts: Route -> bool,
                                       excluded: set<RouteId>, draw: Draw)
    requires Valid(initial)
    requires source in Published(initial, batches) && t in Published(initial, batches)
    requires t.generation == FromPredicate(source, accepts).generation
    ensures Justified(t, FromPredicate(source, accepts))
    ensures SelectWeighted(t, FromPredicate(source, accepts), excluded, draw) != Overflowed
  {
    GenerationIdentifiesTable(initial, batches, source, t);
    JustifiedNeverOverflows(t, FromPredicate(source, accepts), excluded, draw);
  }

  /** Two tables built by hand with one generation number can make the `expect` fire. */
  lemma HandBuiltTablesCanOverflow()
    ensures var source := Build(0, [Route("a", 1, true), Route("b", 1, true)]);
            var t := Build(0, [Route("a", U64_MAX, true), Route("b", 1, false)]);
            && source.Ok? && t.Ok?
            && SelectWeighted(t.value, AllRoutes(source.value), {}, _ => 0) == Overflowed
  {
    var first := [Route("a", 1, true), Route("b", 1, true)];
    var second := [Route("a", U64_MAX, true), Route("b", 1, false)];
    TableIsBuiltWhenValid(0, first);
    TableIsBuiltWhenValid(0, second);
    assert UsableWeight(first, 1) == 1;
    assert UsableWeight(second, 1) == U64_MAX;
    var ids := AllRoutes(Build(0, first).value).eligible;
    assert first[0] in first && first[1] in first;
    assert WeightFrom(second, ids - {}, 2) == 0;
    assert WeightFrom(second, ids - {}, 1) == 1;
    SelectionMeaning(Build(0, second).value, AllRoutes(Build(0, first).value), {}, _ => 0);
  }
}
