/**
  Failover samples routes without replacement, with exact weights: each order of visits is produced by
  as many vectors of draws as the product of the visited routes' weights.
 */
module FailoverSampling {
  import opened Wrappers
  import opened Routing
  import opened Eligibility
  import opened Failover

  /** The positions visited when each draw selects among the candidates that remain. */
  function Visited(routes: seq<Route>, ids: set<RouteId>, draws: seq<nat>): seq<nat> {
    if draws == [] then []
    else
      match Pick(routes, ids, draws[0])
      case None => []
      case Some(k) =>
        if k >= |routes| then [] else [k] + Visited(routes, ids - {routes[k].id}, draws[1..])
  }

  /** Every draw lies in the range offered at its step. */
  predicate Offered(routes: seq<Route>, ids: set<RouteId>, draws: seq<nat>) {
    draws == [] ||
    (draws[0] < Weight(routes, ids)
     && match Pick(routes, ids, draws[0])
        case None => false
        case Some(k) => k < |routes| && Offered(routes, ids - {routes[k].id}, draws[1..]))
  }

  /** The vectors that begin with a draw of `heads` and continue as a vector of `tails`. */
  function Extend(heads: set<nat>, tails: set<seq<nat>>): set<seq<nat>> {
    set d, rest | d in heads && rest in tails :: [d] + rest
  }

  lemma SameTail(d: nat, rest: seq<nat>, e: nat, other: seq<nat>)
    requires [d] + rest == [e] + other
    ensures d == e && rest == other
  {
    assert d == ([d] + rest)[0] && e == ([e] + other)[0];
    assert rest == ([d] + rest)[1..] && other == ([e] + other)[1..];
  }

  lemma {:induction false} SingleHeadSize(d: nat, tails: set<seq<nat>>)
    ensures |Extend({d}, tails)| == |tails|
    decreases |tails|
  {
    if tails == {} {
      assert Extend({d}, tails) == {};
    } else {
      var rest :| rest in tails;
      var fewer := tails - {rest};
      SingleHeadSize(d, fewer);
      assert Extend({d}, tails) == Extend({d}, fewer) + {[d] + rest} by {
        assert tails == fewer + {rest};
        forall v ensures v in Extend({d}, tails) <==> v in Extend({d}, fewer) || v == [d] + rest {
          if v in Extend({d}, tails) {
            var other :| other in tails && v == [d] + other;
            assert other in fewer ==> v in Extend({d}, fewer);
          }
        }
      }
      assert [d] + rest !in Extend({d}, fewer) by {
        if [d] + rest in Extend({d}, fewer) {
          var other :| other in fewer && [d] + rest == [d] + other;
          SameTail(d, rest, d, other);
        }
      }
    }
  }

  lemma {:induction false} ExtendSize(heads: set<nat>, tails: set<seq<nat>>)
    ensures |Extend(heads, tails)| == |heads| * |tails|
    decreases |heads|
  {
    if heads == {} {
      assert Extend(heads, tails) == {};
    } else {
      var d :| d in heads;
      var fewer := heads - {d};
      ExtendSize(fewer, tails);
      SingleHeadSize(d, tails);
      assert Extend(heads, tails) == Extend(fewer, tails) + Extend({d}, tails);
      assert Extend(fewer, tails) !! Extend({d}, tails) by {
        assert forall v <- Extend(fewer, tails) :: |v| > 0 && v[0] in fewer;
        assert forall v <- Extend({d}, tails) :: |v| > 0 && v[0] == d;
      }
      assert |heads| == |fewer| + 1;
      assert (|fewer| + 1) * |tails| == |fewer| * |tails| + |tails|;
    }
  }

  /** The order names positions of the table. */
  predicate InTable(routes: seq<Route>, order: seq<nat>) {
    forall i :: 0 <= i < |order| ==> order[i] < |routes|
  }

  /** The draw vectors that visit exactly the given positions in the given order. */
  function VectorsFor(routes: seq<Route>, ids: set<RouteId>, order: seq<nat>): set<seq<nat>>
    requires InTable(routes, order)
    decreases |order|
  {
    if order == [] then {[]}
    else Extend(DrawsFor(routes, ids, order[0]), VectorsFor(routes, ids - {routes[order[0]].id}, order[1..]))
  }

  lemma HeadAndTail(heads: set<nat>, tails: set<seq<nat>>, d: nat, rest: seq<nat>)
    ensures [d] + rest in Extend(heads, tails) <==> d in heads && rest in tails
  {
    if [d] + rest in Extend(heads, tails) {
      var e, other :| e in heads && other in tails && [d] + rest == [e] + other;
      SameTail(d, rest, e, other);
    }
  }

  /** They are the vectors of offered draws whose visits are that order, no more and no fewer. */
  lemma {:induction false} VectorsForMeaning(routes: seq<Route>, ids: set<RouteId>, order: seq<nat>, draws: seq<nat>)
    requires InTable(routes, order)
    ensures draws in VectorsFor(routes, ids, order)
        <==> |draws| == |order| && Offered(routes, ids, draws) && Visited(routes, ids, draws) == order
    decreases |order|
  {
    if order != [] && draws != [] {
      var d, rest := draws[0], draws[1..];
      var left := ids - {routes[order[0]].id};
      assert draws == [d] + rest;
      PickLandsInOwnSpan(routes, ids, 0, d);
      VectorsForMeaning(routes, left, order[1..], rest);
      HeadAndTail(DrawsFor(routes, ids, order[0]), VectorsFor(routes, left, order[1..]), d, rest);
      if Pick(routes, ids, d) == Some(order[0]) {
        assert Visited(routes, ids, draws) == [order[0]] + Visited(routes, left, rest);
        assert Visited(routes, ids, draws) == order <==> Visited(routes, left, rest) == order[1..];
      }
    }
  }

  function Product(routes: seq<Route>, order: seq<nat>): nat
    requires InTable(routes, order)
    decreases |order|
  {
    if order == [] then 1 else routes[order[0]].weight * Product(routes, order[1..])
  }

  /** The number of draw vectors that produce a visit order is the product of the visited weights. */
  lemma {:induction false} OrdersAreWeightedByProduct(routes: seq<Route>, ids: set<RouteId>, order: seq<nat>)
    requires Distinct(routes) && InTable(routes, order)
    requires forall i :: 0 <= i < |order| ==> routes[order[i]].id in ids
    requires forall i, j :: 0 <= i < j < |order| ==> order[i] != order[j]
    ensures |VectorsFor(routes, ids, order)| == Product(routes, order)
    decreases |order|
  {
    if order == [] {
    } else {
      var k := order[0];
      var left := ids - {routes[k].id};
      assert forall i :: 0 <= i < |order[1..]| ==> order[1..][i] == order[i + 1] != k;
      OrdersAreWeightedByProduct(routes, left, order[1..]);
      SelectionIsExactPartition(routes, ids, k);
      ExtendSize(DrawsFor(routes, ids, k), VectorsFor(routes, left, order[1..]));
    }
  }

  // ----- The failover run behind a draw vector -----

  function Constant(d: U64): Draw {
    _ => d
  }

  /** Ask for a failover once per draw. */
  function Asks(draws: seq<U64>): seq<Input> {
    seq(|draws|, i requires 0 <= i < |draws| => Input(FailOver, Constant(draws[i])))
  }

  function IdsAt(routes: seq<Route>, order: seq<nat>): seq<RouteId>
    requires InTable(routes, order)
  {
    seq<RouteId>(|order|, i requires 0 <= i < |order| && order[i] < |routes| => routes[order[i]].id)
  }

  function Chosen(ids: seq<RouteId>): set<RouteId> {
    set id | id in ids
  }

  lemma OneVisit(routes: seq<Route>, ids: set<RouteId>, d: nat)
    requires Offered(routes, ids, [d])
    ensures Pick(routes, ids, d).Some? && Pick(routes, ids, d).value < |routes| && d < Weight(routes, ids)
    ensures Visited(routes, ids, [d]) == [Pick(routes, ids, d).value]
  {
    var one := [d];
    var k := Pick(routes, ids, one[0]).value;
    assert Visited(routes, ids, one) == [k] + Visited(routes, ids - {routes[k].id}, one[1..]);
  }

  lemma VisitsCons(routes: seq<Route>, ids: set<RouteId>, k: nat, rest: seq<nat>)
    requires k < |routes| && InTable(routes, rest)
    ensures InTable(routes, [k] + rest)
    ensures ids - {routes[k].id} - Chosen(IdsAt(routes, rest)) == ids - Chosen(IdsAt(routes, [k] + rest))
  {
    assert IdsAt(routes, [k] + rest) == [routes[k].id] + IdsAt(routes, rest);
  }

  lemma NoVisitsTakeNothing(routes: seq<Route>, ids: set<RouteId>)
    ensures InTable(routes, []) && ids - Chosen(IdsAt(routes, [])) == ids
  {
  }

  /** A vector one draw longer visits one more of what the shorter one left. */
  lemma {:induction false} VisitsExtend(routes: seq<Route>, ids: set<RouteId>, draws: seq<nat>, d: nat)
    requires Offered(routes, ids, draws + [d])
    ensures Offered(routes, ids, draws) && |Visited(routes, ids, draws)| == |draws|
    ensures InTable(routes, Visited(routes, ids, draws))
    ensures var left := ids - Chosen(IdsAt(routes, Visited(routes, ids, draws)));
            && d < Weight(routes, left)
            && Pick(routes, left, d).Some? && Pick(routes, left, d).value < |routes|
            && Visited(routes, ids, draws + [d]) == Visited(routes, ids, draws) + [Pick(routes, left, d).value]
    decreases |draws|
  {
    hide Weight, Pick, Chosen, IdsAt;
    if draws == [] {
      assert draws + [d] == [d];
      NoVisitsTakeNothing(routes, ids);
      OneVisit(routes, ids, d);
    } else {
      var k := Pick(routes, ids, draws[0]).value;
      var left := ids - {routes[k].id};
      assert (draws + [d])[1..] == draws[1..] + [d];
      VisitsExtend(routes, left, draws[1..], d);
      var rest := Visited(routes, left, draws[1..]);
      assert Visited(routes, ids, draws) == [k] + rest;
      VisitsCons(routes, ids, k, rest);
    }
  }

  lemma StartsAtFirst(p: Policy, first: U64)
    requires Justified(p.snapshot, p.eligibility)
    requires Offered(p.snapshot.routes, p.eligibility.eligible, [first])
    ensures var visited := Visited(p.snapshot.routes, p.eligibility.eligible, [first]);
            && |visited| == 1 && InTable(p.snapshot.routes, visited)
            && SelectWeighted(p.snapshot, p.eligibility, {}, Constant(first)) == Selected(visited[0])
            && p.snapshot.routes[visited[0]].id in p.eligibility.eligible
            && IdsAt(p.snapshot.routes, visited) == [p.snapshot.routes[visited[0]].id]
  {
    OneVisit(p.snapshot.routes, p.eligibility.eligible, first);
    assert p.eligibility.eligible - {} == p.eligibility.eligible;
    JustifiedNeverOverflows(p.snapshot, p.eligibility, {}, Constant(first));
    SelectionMeaning(p.snapshot, p.eligibility, {}, Constant(first));
  }

  lemma LastMove(p: Policy, j: Journey, visited: seq<nat>, d: U64)
    requires Justified(p.snapshot, p.eligibility) && Consistent(p, j)
    requires InTable(p.snapshot.routes, visited) && j.visits == IdsAt(p.snapshot.routes, visited)
    requires |visited| < p.maxRoutes
    requires var left := p.eligibility.eligible - Chosen(j.visits);
             && d < Weight(p.snapshot.routes, left)
             && Pick(p.snapshot.routes, left, d).Some? && Pick(p.snapshot.routes, left, d).value < |p.snapshot.routes|
    ensures var k := Pick(p.snapshot.routes, p.eligibility.eligible - Chosen(j.visits), d).value;
            Travel(p, j, Input(FailOver, Constant(d))).visits == IdsAt(p.snapshot.routes, visited + [k])
  {
    JustifiedNeverOverflows(p.snapshot, p.eligibility, j.progress.attempted, Constant(d));
    SelectionMeaning(p.snapshot, p.eligibility, j.progress.attempted, Constant(d));
  }

  /**
    The failover machine, started from the route its first draw selects and asked to fail over once per
    further draw, visits exactly the routes of `Visited`. So the counting above is about its runs.
   */
  lemma {:induction false} FailoverFollowsVector(p: Policy, first: U64, draws: seq<U64>)
    requires Justified(p.snapshot, p.eligibility)
    requires Offered(p.snapshot.routes, p.eligibility.eligible, [first] + draws)
    requires |draws| < p.maxRoutes
    ensures var visited := Visited(p.snapshot.routes, p.eligibility.eligible, [first] + draws);
            && |visited| == |draws| + 1 && InTable(p.snapshot.routes, visited)
            && SelectWeighted(p.snapshot, p.eligibility, {}, Constant(first)) == Selected(visited[0])
            && p.snapshot.routes[visited[0]].id in p.eligibility.eligible
            && Travels(p, p.snapshot.routes[visited[0]].id, Asks(draws)).visits == IdsAt(p.snapshot.routes, visited)
    decreases |draws|
  {
    var routes, ids := p.snapshot.routes, p.eligibility.eligible;
    if draws == [] {
      var v: seq<nat> := [first];
      assert [first] + draws == v;
      StartsAtFirst(p, first);
    } else {
      var n := |draws| - 1;
      var d := draws[n];
      var shorter: seq<nat> := [first] + draws[..n];
      assert [first] + draws == shorter + [d];
      VisitsExtend(routes, ids, shorter, d);
      FailoverFollowsVector(p, first, draws[..n]);
      var visited := Visited(routes, ids, shorter);
      var primary := routes[visited[0]].id;
      assert Asks(draws)[..n] == Asks(draws[..n]);
      var before := Travels(p, primary, Asks(draws[..n]));
      JourneysAreConsistent(p, primary, Asks(draws[..n]));
      LastMove(p, before, visited, d);
    }
  }

  // ----- The draws offered are the draws in range -----

  lemma OneOffer(routes: seq<Route>, ids: set<RouteId>, d: nat)
    requires d < Weight(routes, ids)
    ensures Offered(routes, ids, [d])
  {
    PickLandsInOwnSpan(routes, ids, 0, d);
    var one := [d];
    assert Offered(routes, ids - {routes[Pick(routes, ids, d).value].id}, one[1..]);
  }

  /** A draw below what the visits so far leave makes a vector one draw longer. */
  lemma {:induction false} OfferedExtends(routes: seq<Route>, ids: set<RouteId>, draws: seq<nat>, d: nat)
    requires Offered(routes, ids, draws) && InTable(routes, Visited(routes, ids, draws))
    requires d < Weight(routes, ids - Chosen(IdsAt(routes, Visited(routes, ids, draws))))
    ensures Offered(routes, ids, draws + [d])
    decreases |draws|
  {
    hide Weight, Chosen, IdsAt;
    if draws == [] {
      NoVisitsTakeNothing(routes, ids);
      OneOffer(routes, ids, d);
      assert draws + [d] == [d];
    } else {
      var k := Pick(routes, ids, draws[0]).value;
      var left := ids - {routes[k].id};
      var rest := Visited(routes, left, draws[1..]);
      assert Visited(routes, ids, draws) == [k] + rest;
      assert InTable(routes, rest) by {
        assert forall i :: 0 <= i < |rest| ==> rest[i] == ([k] + rest)[i + 1];
      }
      VisitsCons(routes, ids, k, rest);
      OfferedExtends(routes, left, draws[1..], d);
      assert (draws + [d])[1..] == draws[1..] + [d];
    }
  }

  /** Whether the machine, begun with draw `first`, meets only draws below the bounds it offers. */
  ghost predicate MachineInRange(p: Policy, first: U64, draws: seq<U64>) {
    && first < Weight(p.snapshot.routes, p.eligibility.eligible)
    && match SelectWeighted(p.snapshot, p.eligibility, {}, Constant(first))
       case Selected(k) =>
         k < |p.snapshot.routes| && DrawsInRange(p, p.snapshot.routes[k].id, Asks(draws))
       case _ => false
  }

  /** While candidates remain, a step's draw is in range exactly if it is below what is left. */
  lemma InRangeIsBelowWeight(p: Policy, tried: set<RouteId>, s: Progress, d: U64)
    requires Justified(p.snapshot, p.eligibility) && s.attempted == tried
    requires p.eligibility.eligible - tried != {}
    ensures InRange(p, s, Constant(d)) <==> d < Weight(p.snapshot.routes, p.eligibility.eligible - tried)
  {
    RemainingWeight(p, tried);
    JustifiedNeverOverflows(p.snapshot, p.eligibility, tried, Constant(d));
    CheckedTotalIsWeight(p.snapshot.routes, p.eligibility.eligible - tried, 0, 0);
  }

  lemma MachineInRangeExtends(p: Policy, first: U64, draws: seq<U64>, d: U64)
    requires MachineInRange(p, first, draws)
    ensures var k := SelectWeighted(p.snapshot, p.eligibility, {}, Constant(first)).index;
            MachineInRange(p, first, draws + [d])
            <==> InRange(p, Travels(p, p.snapshot.routes[k].id, Asks(draws)).progress, Constant(d))
  {
    hide InRange, Travels;
    var k := SelectWeighted(p.snapshot, p.eligibility, {}, Constant(first)).index;
    var primary := p.snapshot.routes[k].id;
    var asks, longer := Asks(draws), Asks(draws + [d]);
    assert longer == asks + [Input(FailOver, Constant(d))];
    assert longer[..|draws|] == asks;
    forall n | 0 <= n < |draws| ensures longer[n] == asks[n] && longer[..n] == asks[..n] {
    }
    if InRange(p, Travels(p, primary, asks).progress, Constant(d)) {
      forall n | 0 <= n < |longer| ensures InRange(p, Travels(p, primary, longer[..n]).progress, longer[n].draw) {
        assert n < |draws| ==> InRange(p, Travels(p, primary, asks[..n]).progress, asks[n].draw);
      }
    } else {
      assert longer[|draws|].draw == Constant(d);
    }
  }

  lemma MachineInRangeShrinks(p: Policy, first: U64, draws: seq<U64>, n: nat)
    requires MachineInRange(p, first, draws) && n <= |draws|
    ensures MachineInRange(p, first, draws[..n])
  {
    hide InRange, Travels;
    var asks, fewer := Asks(draws), Asks(draws[..n]);
    forall i | 0 <= i < n ensures fewer[i] == asks[i] && fewer[..i] == asks[..i] {
    }
  }

  /** Where the machine stands after an offered vector: it has tried just the routes of its visits. */
  lemma StandsAfterVisits(p: Policy, first: U64, draws: seq<U64>)
    requires Justified(p.snapshot, p.eligibility) && |draws| < p.maxRoutes
    requires Offered(p.snapshot.routes, p.eligibility.eligible, [first] + draws)
    ensures var visited := Visited(p.snapshot.routes, p.eligibility.eligible, [first] + draws);
            var k := SelectWeighted(p.snapshot, p.eligibility, {}, Constant(first));
            && InTable(p.snapshot.routes, visited)
            && k.Selected? && k.index < |p.snapshot.routes|
            && var tried := Travels(p, p.snapshot.routes[k.index].id, Asks(draws)).progress.attempted;
               tried == Chosen(IdsAt(p.snapshot.routes, visited))
               && tried <= p.eligibility.eligible && |tried| == |draws| + 1
  {
    hide Travel, SelectWeighted, Offered;
    FailoverFollowsVector(p, first, draws);
    var visited := Visited(p.snapshot.routes, p.eligibility.eligible, [first] + draws);
    JourneysAreConsistent(p, p.snapshot.routes[visited[0]].id, Asks(draws));
  }

  lemma FirstDrawInRange(p: Policy, first: U64)
    requires Justified(p.snapshot, p.eligibility)
    ensures Offered(p.snapshot.routes, p.eligibility.eligible, [first])
        <==> p.eligibility.eligible != {} && MachineInRange(p, first, [])
  {
    var routes, ids := p.snapshot.routes, p.eligibility.eligible;
    assert ids - {} == ids;
    RemainingWeight(p, {});
    JustifiedNeverOverflows(p.snapshot, p.eligibility, {}, Constant(first));
    SelectionMeaning(p.snapshot, p.eligibility, {}, Constant(first));
    if first < Weight(routes, ids) {
      OneOffer(routes, ids, first);
    }
  }

  /** One draw more: what is offered next is what the machine has in range next. */
  lemma NextDrawInRange(p: Policy, first: U64, draws: seq<U64>, d: U64)
    requires Justified(p.snapshot, p.eligibility) && |draws| < p.maxRoutes
    requires Offered(p.snapshot.routes, p.eligibility.eligible, [first] + draws) && MachineInRange(p, first, draws)
    ensures Offered(p.snapshot.routes, p.eligibility.eligible, [first] + draws + [d])
        <==> |draws| + 1 < |p.eligibility.eligible| && MachineInRange(p, first, draws + [d])
  {
    hide Offered, Visited, MachineInRange, InRange, Travels, Weight, Justified, SelectWeighted, IdsAt;
    var routes, ids := p.snapshot.routes, p.eligibility.eligible;
    var vector: seq<nat> := [first] + draws;
    StandsAfterVisits(p, first, draws);
    MachineInRangeExtends(p, first, draws, d);
    var k := SelectWeighted(p.snapshot, p.eligibility, {}, Constant(first)).index;
    var s := Travels(p, routes[k].id, Asks(draws)).progress;
    var left := ids - Chosen(IdsAt(routes, Visited(routes, ids, vector)));
    RemainingWeight(p, s.attempted);
    if left == {} {
      assert forall id <- ids :: id in left || id in s.attempted;
      assert ids == s.attempted;
      if Offered(routes, ids, vector + [d]) {
        VisitsExtend(routes, ids, vector, d);
        assert false;
      }
    } else {
      assert s.attempted < ids;
      ProperSubsetIsSmaller(s.attempted, ids);
      InRangeIsBelowWeight(p, s.attempted, s, d);
      if d < Weight(routes, left) {
        OfferedExtends(routes, ids, vector, d);
      } else if Offered(routes, ids, vector + [d]) {
        VisitsExtend(routes, ids, vector, d);
        assert false;
      }
    }
  }

  /**
    A vector is offered exactly if there are routes enough for it and the machine that it drives meets only
    draws in range. So the vectors counted above are all the machine's runs of that length, and no others.
   */
  lemma {:induction false} OfferedIffInRange(p: Policy, first: U64, draws: seq<U64>)
    requires Justified(p.snapshot, p.eligibility) && |draws| < p.maxRoutes
    ensures Offered(p.snapshot.routes, p.eligibility.eligible, [first] + draws)
        <==> |draws| < |p.eligibility.eligible| && MachineInRange(p, first, draws)
    decreases |draws|
  {
    hide Offered, MachineInRange, Justified;
    if draws == [] {
      var v: seq<nat> := [first];
      assert [first] + draws == v;
      FirstDrawInRange(p, first);
    } else {
      var n := |draws| - 1;
      var d := draws[n];
      var shorter: seq<nat> := [first] + draws[..n];
      assert [first] + draws == shorter + [d];
      assert draws == draws[..n] + [d];
      OfferedIffInRange(p, first, draws[..n]);
      if Offered(p.snapshot.routes, p.eligibility.eligible, shorter + [d]) {
        VisitsExtend(p.snapshot.routes, p.eligibility.eligible, shorter, d);
        NextDrawInRange(p, first, draws[..n], d);
      } else if MachineInRange(p, first, draws) && |draws| < |p.eligibility.eligible| {
        MachineInRangeShrinks(p, first, draws, n);
        NextDrawInRange(p, first, draws[..n], d);
      }
    }
  }

  // ----- Sampling without replacement, by the machine -----

  lemma {:induction false} OfferedDrawsFit(routes: seq<Route>, ids: set<RouteId>, draws: seq<nat>, most: nat)
    requires Offered(routes, ids, draws) && Weight(routes, ids) <= most
    ensures forall i :: 0 <= i < |draws| ==> draws[i] < most
    decreases |draws|
  {
    if draws == [] {
    } else {
      var left := ids - {routes[Pick(routes, ids, draws[0]).value].id};
      WeightGrows(routes, left, ids, 0);
      OfferedDrawsFit(routes, left, draws[1..], most);
      assert forall i :: 0 < i < |draws| ==> draws[i] == draws[1..][i - 1];
    }
  }

  lemma SameVisits(routes: seq<Route>, a: seq<nat>, b: seq<nat>)
    requires Distinct(routes) && InTable(routes, a) && InTable(routes, b)
    ensures IdsAt(routes, a) == IdsAt(routes, b) <==> a == b
  {
    if IdsAt(routes, a) == IdsAt(routes, b) {
      assert |a| == |IdsAt(routes, a)| == |IdsAt(routes, b)| == |b|;
      forall i | 0 <= i < |a| ensures a[i] == b[i] {
        assert routes[a[i]].id == IdsAt(routes, a)[i] == IdsAt(routes, b)[i] == routes[b[i]].id;
      }
    }
  }

  /** The machine, drawing `vector` one after another and always in range, visits `order`. */
  ghost predicate DrivesAlong(p: Policy, vector: seq<nat>, order: seq<nat>)
    requires order != [] && InTable(p.snapshot.routes, order)
  {
    && |vector| == |order|
    && (forall i :: 0 <= i < |vector| ==> vector[i] <= U64_MAX)
    && MachineInRange(p, vector[0], vector[1..])
    && SelectWeighted(p.snapshot, p.eligibility, {}, Constant(vector[0])) == Selected(order[0])
    && Travels(p, p.snapshot.routes[order[0]].id, Asks(vector[1..])).visits == IdsAt(p.snapshot.routes, order)
  }

  lemma OfferedVectorDrives(p: Policy, vector: seq<nat>, order: seq<nat>)
    requires Justified(p.snapshot, p.eligibility) && 0 < |order| <= p.maxRoutes && InTable(p.snapshot.routes, order)
    requires |vector| == |order| && Offered(p.snapshot.routes, p.eligibility.eligible, vector)
    ensures DrivesAlong(p, vector, order)
        <==> Visited(p.snapshot.routes, p.eligibility.eligible, vector) == order
  {
    hide Offered, Visited, MachineInRange, Travels, SelectWeighted, IdsAt, Weight;
    var routes, ids := p.snapshot.routes, p.eligibility.eligible;
    JustifiedNeverOverflows(p.snapshot, p.eligibility, {}, Constant(0));
    assert ids - {} == ids;
    OfferedDrawsFit(routes, ids, vector, p.snapshot.eligibleWeight);
    var draws: seq<U64> := vector[1..];
    assert [vector[0]] + draws == vector;
    OfferedIffInRange(p, vector[0], draws);
    FailoverFollowsVector(p, vector[0], draws);
    SameVisits(routes, Visited(routes, ids, vector), order);
  }

  lemma DrivingVectorIsOffered(p: Policy, vector: seq<nat>, order: seq<nat>)
    requires Justified(p.snapshot, p.eligibility) && 0 < |order| <= p.maxRoutes && InTable(p.snapshot.routes, order)
    requires DrivesAlong(p, vector, order)
    ensures Offered(p.snapshot.routes, p.eligibility.eligible, vector)
  {
    hide Offered, MachineInRange, Travels, SelectWeighted;
    var draws: seq<U64> := vector[1..];
    var primary := p.snapshot.routes[order[0]].id;
    SelectionMeaning(p.snapshot, p.eligibility, {}, Constant(vector[0]));
    JourneysAreConsistent(p, primary, Asks(draws));
    var tried := Travels(p, primary, Asks(draws)).progress.attempted;
    assert tried <= p.eligibility.eligible;
    assert |tried| <= |p.eligibility.eligible| by {
      if tried != p.eligibility.eligible {
        ProperSubsetIsSmaller(tried, p.eligibility.eligible);
      }
    }
    assert [vector[0]] + draws == vector;
    OfferedIffInRange(p, vector[0], draws);
  }

  lemma DrivingIsAsLong(p: Policy, vector: seq<nat>, order: seq<nat>)
    requires order != [] && InTable(p.snapshot.routes, order) && DrivesAlong(p, vector, order)
    ensures |vector| == |order|
  {
  }

  /**
    The whole of it: the draw vectors that drive the failover machine along an order of distinct eligible
    routes are those counted above, and there are as many as the product of the routes' weights.
   */
  lemma FailoverSamplesWithoutReplacement(p: Policy, order: seq<nat>)
    requires Justified(p.snapshot, p.eligibility) && 0 < |order| <= p.maxRoutes && InTable(p.snapshot.routes, order)
    requires forall i :: 0 <= i < |order| ==> p.snapshot.routes[order[i]].id in p.eligibility.eligible
    requires forall i, j :: 0 <= i < j < |order| ==> order[i] != order[j]
    ensures var vectors := VectorsFor(p.snapshot.routes, p.eligibility.eligible, order);
            && (forall v: seq<nat> :: v in vectors <==> DrivesAlong(p, v, order))
            && |vectors| == Product(p.snapshot.routes, order)
  {
    hide Offered, Visited, DrivesAlong, VectorsFor;
    var routes, ids := p.snapshot.routes, p.eligibility.eligible;
    forall v: seq<nat> ensures v in VectorsFor(routes, ids, order) <==> DrivesAlong(p, v, order) {
      VectorsForMeaning(routes, ids, order, v);
      if DrivesAlong(p, v, order) {
        DrivingVectorIsOffered(p, v, order);
        DrivingIsAsLong(p, v, order);
        OfferedVectorDrives(p, v, order);
      } else if v in VectorsFor(routes, ids, order) {
        OfferedVectorDrives(p, v, order);
      }
    }
    OrdersAreWeightedByProduct(routes, ids, order);
  }
}
