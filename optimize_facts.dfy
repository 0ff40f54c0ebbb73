/**
 * What the optimized scheduling route promises, stated over the functions
 * of `OptimizeRoute`: the running clock, the matrix locations of the legs,
 * the visiting order, the response objects and the rows written.
 */
module OptimizeFacts {
  import opened Wrappers
  import opened Orders
  import opened TimeWindow
  import opened OptimizeRoute

  // ---------------------------------------------------------------------
  // The clock

  /** The clock starts half an hour after the stored start hour: 10:30 when none is stored. */
  lemma ClockStart(orders: seq<Order>, geocode: string -> Option<seq<Num>>, setting: Option<real>,
                   plan: Plan, matrix: MatrixData, le: (string, string) -> bool)
    requires TotalPreorder(le)
    ensures var w := MakeWalk(orders, geocode, setting, plan, matrix, le);
            WellFormed(w) && ClockAt(w, 0) == (if setting.Some? then setting.value else 10.0) + 0.5
  {
    MakeWalkWellFormed(orders, geocode, setting, plan, matrix, le);
  }

  /**
   * Each stop starts after the travel from the previous one and lasts its
   * service time; the next stop starts no earlier than this one ends,
   * because the clock carries the unrounded end forward.
   */
  lemma {:induction false} ClockChain(w: Walk, i: int)
    requires WellFormed(w) && NonNegative(w.durations) && 0 <= i < |w.ordered|
    ensures StartAt(w, i) >= ClockAt(w, i)
    ensures EndAt(w, i) == StartAt(w, i) + ServiceHours(w.ordered[i].kind)
    ensures ClockAt(w, i + 1) == EndAt(w, i)
    ensures i + 1 < |w.ordered| ==> StartAt(w, i + 1) >= EndAt(w, i)
  {
    assert TravelMinutes(w, i) >= 0.0;
    if i + 1 < |w.ordered| {
      assert TravelMinutes(w, i + 1) >= 0.0;
    }
  }

  /** The clock never runs backwards: each stop starts no earlier than any stop before it ends. */
  lemma {:induction false} ClockMonotone(w: Walk, i: int, j: int)
    requires WellFormed(w) && NonNegative(w.durations) && 0 <= i < j < |w.ordered|
    ensures StartAt(w, j) >= EndAt(w, i) + 0.5 * (j - i - 1) as real
    decreases j - i
  {
    ClockChain(w, j - 1);
    if i < j - 1 {
      ClockMonotone(w, i, j - 1);
      assert EndAt(w, j - 1) >= StartAt(w, j - 1) + 0.5;
    }
  }

  /** So every stop gets a window whose two halves differ, snapped to half hours around the stop. */
  lemma StopWindow(w: Walk, i: int)
    requires WellFormed(w) && NonNegative(w.durations) && 0 <= i < |w.ordered|
    ensures WindowAt(w, i) == Render(FloorHalfHour(StartAt(w, i))) + " - " + Render(WindowEnd(StartAt(w, i), EndAt(w, i)))
    ensures Minutes(FloorHalfHour(StartAt(w, i))) < Minutes(WindowEnd(StartAt(w, i), EndAt(w, i)))
    ensures 0.0 <= StartAt(w, i) && EndAt(w, i) < 99.0 ==> IsWindowText(WindowAt(w, i))
  {
    ClockChain(w, i);
    WindowHalvesDiffer(StartAt(w, i), EndAt(w, i));
    WindowOrdered(StartAt(w, i), EndAt(w, i));
    if 0.0 <= StartAt(w, i) && EndAt(w, i) < 99.0 {
      WindowShape(StartAt(w, i), EndAt(w, i));
    }
  }

  // ---------------------------------------------------------------------
  // Matrix locations

  /**
   * With distinct ids, the handler numbers order `k` of `validOrders` as it
   * stands after the fallback's sort as matrix location `k + 1`, while
   * position `k` of the coordinates holds the `k`-th geocoded order's
   * position; only geocoded orders are visited.
   */
  lemma WalkNumbering(orders: seq<Order>, geocode: string -> Option<seq<Num>>, setting: Option<real>,
                      plan: Plan, matrix: MatrixData, le: (string, string) -> bool)
    requires TotalPreorder(le) && DistinctIds(orders)
    ensures var w := MakeWalk(orders, geocode, setting, plan, matrix, le);
            var valid := Geocoded(orders, geocode);
            var numbered := Candidates(plan, valid, le);
            && WellFormed(w) && DistinctIds(valid) && |w.coords| == |valid| == |numbered|
            && (forall k :: 0 <= k < |numbered| ==> numbered[k].id in w.index && w.index[numbered[k].id] == k + 1)
            && (forall k :: 0 <= k < |valid| ==> geocode(valid[k].address) == Some(w.coords[k]))
            && (forall k :: 0 <= k < |w.ordered| ==> w.ordered[k] in valid)
  {
    MakeWalkWellFormed(orders, geocode, setting, plan, matrix, le);
    var w := MakeWalk(orders, geocode, setting, plan, matrix, le);
    var valid := Geocoded(orders, geocode);
    var numbered := Candidates(plan, valid, le);
    GeocodedDistinct(orders, geocode);
    GeocodedSpec(orders, geocode);
    SortByAddressSpec(valid, le);
    DistinctPermutation(valid, numbered);
    assert |numbered| == |multiset(numbered)| == |multiset(valid)| == |valid|;
    forall k | 0 <= k < |numbered| ensures numbered[k].id in w.index && w.index[numbered[k].id] == k + 1 {
      MatrixIndexOfDistinct(numbered, k);
    }
    forall k | 0 <= k < |w.ordered| ensures w.ordered[k] in valid {
      StopIsGeocoded(orders, geocode, setting, plan, matrix, le, k);
    }
  }

  /** The corrected walk numbers geocoded order `k` as location `k + 1`, the position of its coordinates. */
  lemma CorrectedNumbering(orders: seq<Order>, geocode: string -> Option<seq<Num>>, setting: Option<real>,
                           plan: Plan, matrix: MatrixData, le: (string, string) -> bool)
    requires TotalPreorder(le) && DistinctIds(orders)
    ensures var w := CorrectedWalk(orders, geocode, setting, plan, matrix, le);
            var valid := Geocoded(orders, geocode);
            && WellFormed(w) && DistinctIds(valid)
            && (forall k :: 0 <= k < |valid| ==> valid[k].id in w.index && w.index[valid[k].id] == k + 1)
            && (forall k :: 0 <= k < |w.ordered| ==> w.ordered[k] in valid)
  {
    MakeWalkWellFormed(orders, geocode, setting, plan, matrix, le);
    var w := CorrectedWalk(orders, geocode, setting, plan, matrix, le);
    var valid := Geocoded(orders, geocode);
    GeocodedDistinct(orders, geocode);
    forall k | 0 <= k < |valid| ensures valid[k].id in w.index && w.index[valid[k].id] == k + 1 {
      MatrixIndexOfDistinct(valid, k);
    }
    forall k | 0 <= k < |w.ordered| ensures w.ordered[k] in valid {
      StopIsGeocoded(orders, geocode, setting, plan, matrix, le, k);
    }
  }

  /**
   * Under a numbering that gives geocoded order `k` location `k + 1`, the
   * first leg leaves from the warehouse (location 0), every later leg from
   * the previous stop's location, and each stop's location is its own
   * position among the geocoded orders.
   */
  lemma LegLocations(w: Walk, valid: seq<Order>, i: int)
    requires WellFormed(w) && DistinctIds(valid)
    requires forall k :: 0 <= k < |valid| ==> valid[k].id in w.index && w.index[valid[k].id] == k + 1
    requires 0 <= i < |w.ordered| && w.ordered[i] in valid
    ensures FromIndex(w, i) == (if i == 0 then 0 else ToIndex(w, i - 1))
    ensures 1 <= ToIndex(w, i) <= |valid| && valid[ToIndex(w, i) - 1] == w.ordered[i]
  {
    var p :| 0 <= p < |valid| && valid[p] == w.ordered[i];
    assert ToIndex(w, i) == p + 1;
  }

  /** Every visited order is one of the geocoded orders. */
  lemma StopIsGeocoded(orders: seq<Order>, geocode: string -> Option<seq<Num>>, setting: Option<real>,
                       plan: Plan, matrix: MatrixData, le: (string, string) -> bool, i: int)
    requires TotalPreorder(le)
    requires 0 <= i < |MakeWalk(orders, geocode, setting, plan, matrix, le).ordered|
    ensures MakeWalk(orders, geocode, setting, plan, matrix, le).ordered[i] in Geocoded(orders, geocode)
  {
    var valid := Geocoded(orders, geocode);
    var candidates := Candidates(plan, valid, le);
    SortByAddressSpec(valid, le);
    var o := MakeWalk(orders, geocode, setting, plan, matrix, le).ordered[i];
    assert o in candidates;
    assert o in multiset(candidates);
  }

  /**
   * The corrected numbering puts every stop at its own geocoded position:
   * the coordinates reported for stop `i`, and the matrix row and column
   * its legs are read from, belong to that stop's address.
   */
  lemma StopLocations(orders: seq<Order>, geocode: string -> Option<seq<Num>>, setting: Option<real>,
                      plan: Plan, matrix: MatrixData, le: (string, string) -> bool, i: int)
    requires TotalPreorder(le) && DistinctIds(orders)
    requires 0 <= i < |CorrectedWalk(orders, geocode, setting, plan, matrix, le).ordered|
    ensures var w := CorrectedWalk(orders, geocode, setting, plan, matrix, le);
            WellFormed(w) && geocode(w.ordered[i].address) == Some(w.coords[ToIndex(w, i) - 1])
  {
    var w := CorrectedWalk(orders, geocode, setting, plan, matrix, le);
    var valid := Geocoded(orders, geocode);
    CorrectedNumbering(orders, geocode, setting, plan, matrix, le);
    LegLocations(w, valid, i);
    var p := ToIndex(w, i) - 1;
    GeocodedSpec(orders, geocode);
    assert w.coords == GeocodedCoords(orders, geocode);
    assert geocode(valid[p].address) == Some(w.coords[p]);
  }

  /**
   * When the optimizer returns a route nothing is sorted, so the handler's
   * own numbering already puts every stop at its geocoded position.
   */
  lemma RoutedStopLocations(orders: seq<Order>, geocode: string -> Option<seq<Num>>, setting: Option<real>,
                            plan: Plan, matrix: MatrixData, le: (string, string) -> bool, i: int)
    requires TotalPreorder(le) && DistinctIds(orders) && !NoRoutes(plan)
    requires 0 <= i < |MakeWalk(orders, geocode, setting, plan, matrix, le).ordered|
    ensures var w := MakeWalk(orders, geocode, setting, plan, matrix, le);
            WellFormed(w) && geocode(w.ordered[i].address) == Some(w.coords[ToIndex(w, i) - 1])
  {
    WalkNumbering(orders, geocode, setting, plan, matrix, le);
    LegLocations(MakeWalk(orders, geocode, setting, plan, matrix, le), Geocoded(orders, geocode), i);
  }

  /** A collation with "a" before every other address and every other pair tied. */
  function FirstA(x: string, y: string): bool { x == "a" || y != "a" }

  function Plain(id: int, address: string): Order
  {
    Order(id, address, "Transport", None, None, None, None, None, None, None, None, None, None)
  }

  function TwoPlaces(address: string): Option<seq<Num>>
  {
    if address == "b" then Some([Finite(1.0), Finite(1.0)]) else Some([Finite(2.0), Finite(2.0)])
  }

  /**
   * The fallback as written: two orders posted as [1 at "b", 2 at "a"] and
   * no route found. The sort visits order 2 first and numbers it location
   * 1, but location 1 holds order 1's coordinates, so order 2 is reported
   * at, and timed from, the wrong place; the corrected walk gives it
   * location 2, its own.
   */
  lemma SortedNumberingMisplacesStops(orders: seq<Order>, setting: Option<real>, matrix: MatrixData)
    requires orders == [Plain(1, "b"), Plain(2, "a")]
    ensures TotalPreorder(FirstA)
    ensures var w := MakeWalk(orders, TwoPlaces, setting, Plan(None), matrix, FirstA);
            var c := CorrectedWalk(orders, TwoPlaces, setting, Plan(None), matrix, FirstA);
            && WellFormed(w) && WellFormed(c) && |w.ordered| == 2 && c.ordered == w.ordered
            && w.ordered[0] == Plain(2, "a")
            && ToIndex(w, 0) == 1 && TwoPlaces("a") != Some(w.coords[ToIndex(w, 0) - 1])
            && ToIndex(c, 0) == 2 && TwoPlaces("a") == Some(c.coords[ToIndex(c, 0) - 1])
  {
    FirstAPreorder();
    MakeWalkWellFormed(orders, TwoPlaces, setting, Plan(None), matrix, FirstA);
    ExampleWalks(orders, setting, matrix);
    ExampleLocations(orders, [Plain(2, "a"), Plain(1, "b")]);
  }

  /** The two numberings of the example: along the sorted list, and along the posted one. */
  lemma ExampleLocations(orders: seq<Order>, sorted: seq<Order>)
    requires orders == [Plain(1, "b"), Plain(2, "a")] && sorted == [Plain(2, "a"), Plain(1, "b")]
    ensures MatrixIndex(sorted) == map[2 := 1, 1 := 2]
    ensures MatrixIndex(orders) == map[1 := 1, 2 := 2]
  {
    assert sorted[..1] == [Plain(2, "a")] && sorted[..1][..0] == [];
    assert MatrixIndex(sorted[..1]) == map[2 := 1];
    assert orders[..1] == [Plain(1, "b")] && orders[..1][..0] == [];
    assert MatrixIndex(orders[..1]) == map[1 := 1];
  }

  lemma FirstAPreorder()
    ensures TotalPreorder(FirstA)
  {
  }

  /** The handler's and the corrected walk of the example, field by field. */
  lemma ExampleWalks(orders: seq<Order>, setting: Option<real>, matrix: MatrixData)
    requires orders == [Plain(1, "b"), Plain(2, "a")]
    ensures var w := MakeWalk(orders, TwoPlaces, setting, Plan(None), matrix, FirstA);
            var c := CorrectedWalk(orders, TwoPlaces, setting, Plan(None), matrix, FirstA);
            var sorted := [Plain(2, "a"), Plain(1, "b")];
            && w.ordered == c.ordered == sorted
            && w.coords == c.coords == [[Finite(1.0), Finite(1.0)], [Finite(2.0), Finite(2.0)]]
            && w.index == MatrixIndex(sorted) && c.index == MatrixIndex(orders)
  {
    TwoOrders(orders);
    var sorted := [Plain(2, "a"), Plain(1, "b")];
    ResolveOwnIds(sorted, 0);
    assert Ids(sorted)[0..] == Ids(sorted);
    assert sorted[0..] == sorted;
  }

  /** The two orders of the example: both geocode, and the sort puts the one at "a" first. */
  lemma TwoOrders(orders: seq<Order>)
    requires orders == [Plain(1, "b"), Plain(2, "a")]
    ensures && Geocoded(orders, TwoPlaces) == orders
            && GeocodedCoords(orders, TwoPlaces) == [[Finite(1.0), Finite(1.0)], [Finite(2.0), Finite(2.0)]]
            && Candidates(Plan(None), orders, FirstA) == [Plain(2, "a"), Plain(1, "b")]
  {
    var b, a := Plain(1, "b"), Plain(2, "a");
    assert orders[..1] == [b];
    assert [b][..0] == [];
    assert orders[1..] == [a];
    assert TwoPlaces(a.address) == Some([Finite(2.0), Finite(2.0)]);
    assert TwoPlaces(b.address) == Some([Finite(1.0), Finite(1.0)]);
    assert Geocoded([b], TwoPlaces) == [b];
    assert Geocoded(orders, TwoPlaces) == Geocoded([b], TwoPlaces) + [a];
    assert GeocodedCoords([b], TwoPlaces) == [[Finite(1.0), Finite(1.0)]];
    assert GeocodedCoords(orders, TwoPlaces) == GeocodedCoords([b], TwoPlaces) + [[Finite(2.0), Finite(2.0)]];
    assert [a][1..] == [];
    assert SortByAddress([a], FirstA) == Insert(a, [], FirstA) == [a];
    assert SortByAddress(orders, FirstA) == Insert(b, [a], FirstA);
    assert !FirstA(b.address, a.address);
    assert Insert(b, [a], FirstA) == [a] + Insert(b, [], FirstA);
  }

  // ---------------------------------------------------------------------
  // The visiting order

  /**
   * Without a route the stops are the geocoded orders sorted by address:
   * sorted under the collation and a permutation of the geocoded orders.
   */
  lemma FallbackVisitsSorted(orders: seq<Order>, geocode: string -> Option<seq<Num>>, setting: Option<real>,
                             plan: Plan, matrix: MatrixData, le: (string, string) -> bool)
    requires TotalPreorder(le) && DistinctIds(orders) && NoRoutes(plan)
    ensures var stops := MakeWalk(orders, geocode, setting, plan, matrix, le).ordered;
            && stops == SortByAddress(Geocoded(orders, geocode), le)
            && SortedByAddress(stops, le)
            && multiset(stops) == multiset(Geocoded(orders, geocode))
  {
    var valid := Geocoded(orders, geocode);
    var sorted := SortByAddress(valid, le);
    SortByAddressSpec(valid, le);
    GeocodedDistinct(orders, geocode);
    DistinctPermutation(valid, sorted);
    ResolveOwnIds(sorted, 0);
    assert Ids(sorted)[0..] == Ids(sorted);
    assert sorted[0..] == sorted;
  }

  /** When the route has steps and each job id names a geocoded order, the stops follow the jobs exactly. */
  lemma OptimizedVisitsJobs(orders: seq<Order>, geocode: string -> Option<seq<Num>>, setting: Option<real>,
                            plan: Plan, matrix: MatrixData, le: (string, string) -> bool)
    requires TotalPreorder(le) && HasSteps(plan)
    requires forall k :: 0 <= k < |PlanJobs(plan)| ==> FindById(Geocoded(orders, geocode), PlanJobs(plan)[k]).Some?
    ensures var stops := MakeWalk(orders, geocode, setting, plan, matrix, le).ordered;
            var jobs := PlanJobs(plan);
            |stops| == |jobs| && forall k :: 0 <= k < |jobs| ==> jobs[k] == Some(stops[k].id)
  {
    var valid := Geocoded(orders, geocode);
    assert Candidates(plan, valid, le) == valid;
    var jobs := PlanJobs(plan);
    ResolveAllKnown(jobs, valid);
  }

  /** A route without a `steps` list keeps the geocoded orders in posting order. */
  lemma StepsMissingKeepsOrder(orders: seq<Order>, geocode: string -> Option<seq<Num>>, setting: Option<real>,
                               plan: Plan, matrix: MatrixData, le: (string, string) -> bool)
    requires TotalPreorder(le) && DistinctIds(orders) && !NoRoutes(plan) && !HasSteps(plan)
    ensures MakeWalk(orders, geocode, setting, plan, matrix, le).ordered == Geocoded(orders, geocode)
  {
    var valid := Geocoded(orders, geocode);
    GeocodedDistinct(orders, geocode);
    ResolveOwnIds(valid, 0);
    assert Ids(valid)[0..] == Ids(valid);
    assert valid[0..] == valid;
  }

  // ---------------------------------------------------------------------
  // The response and the rows written

  lemma {:induction false} EntriesAt(w: Walk, n: int, k: int)
    requires WellFormed(w) && 0 <= k < n <= |w.ordered|
    ensures Entries(w, n)[k] == Entry(w, k)
  {
    if k < n - 1 {
      EntriesAt(w, n - 1, k);
    }
  }

  lemma {:induction false} WritesAt(w: Walk, n: int, k: int)
    requires WellFormed(w) && 0 <= k < n <= |w.ordered|
    ensures Writes(w, n)[k] == (w.ordered[k].id, WindowAt(w, k))
  {
    if k < n - 1 {
      WritesAt(w, n - 1, k);
    }
  }

  /** A missing or empty order list is refused before anything is written. */
  lemma NoOrdersRefused(orders: Option<seq<Order>>, geocode: string -> Option<seq<Num>>, setting: Option<real>,
                        plan: Option<Plan>, matrix: Option<MatrixData>, le: (string, string) -> bool)
    requires TotalPreorder(le)
    requires orders.None? || orders.value == []
    ensures Response(orders, geocode, setting, plan, matrix, le) == Err(NoOrders)
    ensures StoreWrites(orders, geocode, setting, plan, matrix, le) == []
  {
  }

  /** With a warehouse that geocodes but no order that does, the request fails and writes nothing. */
  lemma NoValidOrdersRefused(orders: seq<Order>, geocode: string -> Option<seq<Num>>, setting: Option<real>,
                             plan: Option<Plan>, matrix: Option<MatrixData>, le: (string, string) -> bool)
    requires TotalPreorder(le) && orders != [] && geocode(WarehouseAddress).Some?
    requires forall k :: 0 <= k < |orders| ==> geocode(orders[k].address).None?
    ensures Response(Some(orders), geocode, setting, plan, matrix, le) == Err(NoValidAddresses)
    ensures StoreWrites(Some(orders), geocode, setting, plan, matrix, le) == []
  {
    NoneGeocoded(orders, geocode);
  }

  lemma {:induction false} NoneGeocoded(orders: seq<Order>, geocode: string -> Option<seq<Num>>)
    requires forall k :: 0 <= k < |orders| ==> geocode(orders[k].address).None?
    ensures Geocoded(orders, geocode) == []
  {
    if orders != [] {
      NoneGeocoded(orders[..|orders| - 1], geocode);
    }
  }

  /** Some order geocodes exactly when the geocoding loop keeps one. */
  lemma SomeGeocoded(orders: seq<Order>, geocode: string -> Option<seq<Num>>)
    ensures Geocoded(orders, geocode) != [] <==> exists k :: 0 <= k < |orders| && geocode(orders[k].address).Some?
  {
    GeocodedSpec(orders, geocode);
    var valid := Geocoded(orders, geocode);
    if valid != [] {
      assert valid[0] in orders;
      var k :| 0 <= k < |orders| && orders[k] == valid[0];
    }
    if k :| 0 <= k < |orders| && geocode(orders[k].address).Some? {
      assert orders[k] in valid;
    }
  }

  /**
   * The handler gets as far as the walk exactly when there are orders, the
   * warehouse geocodes, at least one order geocodes and both provider calls
   * answered; every stop of that walk is then an order of the request whose
   * address geocodes.
   */
  lemma RequestOutcome(orders: seq<Order>, geocode: string -> Option<seq<Num>>, setting: Option<real>,
                       plan: Option<Plan>, matrix: Option<MatrixData>, le: (string, string) -> bool)
    requires TotalPreorder(le)
    ensures var p := Prepare(Some(orders), geocode, setting, plan, matrix, le);
            && (p.Ok? <==> && orders != [] && geocode(WarehouseAddress).Some?
                           && (exists k :: 0 <= k < |orders| && geocode(orders[k].address).Some?)
                           && plan.Some? && matrix.Some?)
            && (p.Ok? ==> forall k :: 0 <= k < |p.value.ordered| ==>
                            p.value.ordered[k] in orders && geocode(p.value.ordered[k].address).Some?)
  {
    SomeGeocoded(orders, geocode);
    PreparedWalk(orders, geocode, setting, plan, matrix, le);
    if plan.Some? && matrix.Some? {
      StopsGeocoded(orders, geocode, setting, plan.value, matrix.value, le);
    }
  }

  lemma PreparedWalk(orders: seq<Order>, geocode: string -> Option<seq<Num>>, setting: Option<real>,
                     plan: Option<Plan>, matrix: Option<MatrixData>, le: (string, string) -> bool)
    requires TotalPreorder(le)
    ensures var p := Prepare(Some(orders), geocode, setting, plan, matrix, le);
            && (p.Ok? <==> && orders != [] && geocode(WarehouseAddress).Some? && Geocoded(orders, geocode) != []
                           && plan.Some? && matrix.Some?)
            && (p.Ok? ==> p.value == MakeWalk(orders, geocode, setting, plan.value, matrix.value, le))
  {
  }

  /** Every stop of the handler's walk is an order of the request whose address geocodes. */
  lemma StopsGeocoded(orders: seq<Order>, geocode: string -> Option<seq<Num>>, setting: Option<real>,
                      plan: Plan, matrix: MatrixData, le: (string, string) -> bool)
    requires TotalPreorder(le)
    ensures var w := MakeWalk(orders, geocode, setting, plan, matrix, le);
            forall k :: 0 <= k < |w.ordered| ==>
              w.ordered[k] in orders && geocode(w.ordered[k].address).Some? && w.ordered[k].id in w.inputs
  {
    GeocodedSpec(orders, geocode);
    var w := MakeWalk(orders, geocode, setting, plan, matrix, le);
    forall k | 0 <= k < |w.ordered|
      ensures w.ordered[k] in orders && geocode(w.ordered[k].address).Some? && w.ordered[k].id in w.inputs
    {
      StopIsGeocoded(orders, geocode, setting, plan, matrix, le, k);
      var j :| 0 <= j < |orders| && orders[j] == w.ordered[k];
    }
  }

  /**
   * Once the walk `w` is prepared, the handler answers one object per stop:
   * object `k` carries stop `k`'s id, window and leg minutes, and the
   * coordinates of the location its leg ends at, longitude first, or the
   * caller's own when those are malformed.
   */
  lemma AnsweredStop(orders: seq<Order>, geocode: string -> Option<seq<Num>>, setting: Option<real>,
                     plan: Option<Plan>, matrix: Option<MatrixData>, le: (string, string) -> bool, w: Walk, k: int)
    requires TotalPreorder(le)
    requires Prepare(Some(orders), geocode, setting, plan, matrix, le) == Ok(w) && 0 <= k < |w.ordered|
    ensures var r := Response(Some(orders), geocode, setting, plan, matrix, le);
            && WellFormed(w) && r.Ok? && |r.value| == |w.ordered|
            && r.value[k].id == w.ordered[k].id
            && r.value[k].timeRange == Some(WindowAt(w, k))
            && r.value[k].travelTime == Some(Finite(TravelMinutes(w, k)))
            && var pair := w.coords[ToIndex(w, k) - 1];
               var orig := Original(w.inputs, w.ordered[k]);
               r.value[k].coords == if CoordsOk(Some(Swapped(pair))) || orig.coords.None? then Some(Swapped(pair)) else orig.coords
  {
    PreparedAnswer(orders, geocode, setting, plan, matrix, le, w);
    EntryFields(w, k);
  }

  /** Once the walk `w` is prepared, the handler issues one update per stop, update `k` writing stop `k`'s window to its row. */
  lemma StoredStop(orders: seq<Order>, geocode: string -> Option<seq<Num>>, setting: Option<real>,
                   plan: Option<Plan>, matrix: Option<MatrixData>, le: (string, string) -> bool, w: Walk, k: int)
    requires TotalPreorder(le)
    requires Prepare(Some(orders), geocode, setting, plan, matrix, le) == Ok(w) && 0 <= k < |w.ordered|
    ensures var writes := StoreWrites(Some(orders), geocode, setting, plan, matrix, le);
            && WellFormed(w) && |writes| == |w.ordered|
            && writes[k] == (w.ordered[k].id, WindowAt(w, k))
  {
    PreparedAnswer(orders, geocode, setting, plan, matrix, le, w);
    WritesAt(w, |w.ordered|, k);
  }

  lemma PreparedAnswer(orders: seq<Order>, geocode: string -> Option<seq<Num>>, setting: Option<real>,
                       plan: Option<Plan>, matrix: Option<MatrixData>, le: (string, string) -> bool, w: Walk)
    requires TotalPreorder(le)
    requires Prepare(Some(orders), geocode, setting, plan, matrix, le) == Ok(w)
    ensures && WellFormed(w)
            && (forall k :: 0 <= k < |w.ordered| ==> w.ordered[k].id in w.inputs)
            && Response(Some(orders), geocode, setting, plan, matrix, le) == Ok(ValidatedAll(Entries(w, |w.ordered|), w.inputs))
            && StoreWrites(Some(orders), geocode, setting, plan, matrix, le) == Writes(w, |w.ordered|)
  {
    PreparedWalk(orders, geocode, setting, plan, matrix, le);
    StopsGeocoded(orders, geocode, setting, plan.value, matrix.value, le);
  }

  /**
   * The object answered for stop `k`: the caller's own object for that id
   * (every field it sent kept) with the stop's id, address, type, leg,
   * distance and window laid over it, and the stop's coordinates swapped
   * to longitude first unless they are not two finite numbers and the
   * caller sent coordinates of its own, which are then kept.
   */
  lemma EntryFields(w: Walk, k: int)
    requires WellFormed(w) && 0 <= k < |w.ordered|
    ensures var r := ValidatedAll(Entries(w, |w.ordered|), w.inputs);
            var orig := Original(w.inputs, w.ordered[k]);
            var pair := w.coords[ToIndex(w, k) - 1];
            && |r| == |w.ordered|
            && r[k].id == w.ordered[k].id && r[k].address == w.ordered[k].address
            && r[k].kind == w.ordered[k].kind
            && r[k].timeRange == Some(WindowAt(w, k))
            && r[k].travelTime == Some(Finite(TravelMinutes(w, k)))
            && r[k].distanceKm == Some(Finite(DistanceKm(w, k)))
            && (w.ordered[k].id in w.inputs ==>
                  r[k].coords == if CoordsOk(Some(Swapped(pair))) || orig.coords.None? then Some(Swapped(pair)) else orig.coords)
            && (w.ordered[k].id !in w.inputs ==> r[k].coords == Some(Swapped(pair)))
            && r[k].clientName == orig.clientName && r[k].phoneNumber == orig.phoneNumber
            && r[k].description == orig.description && r[k].completed == orig.completed
            && r[k].completedAt == orig.completedAt && r[k].photoUrls == orig.photoUrls
  {
    AnsweredAt(w, k);
    EntryMerged(w, k);
    MergedFields(w.inputs, w.ordered[k], w.coords[ToIndex(w, k) - 1], LegAt(w, k));
  }

  lemma EntryMerged(w: Walk, k: int)
    requires WellFormed(w) && 0 <= k < |w.ordered|
    ensures var o := w.ordered[k];
            Entry(w, k) == Merged(Original(w.inputs, o), o, w.coords[ToIndex(w, k) - 1], LegAt(w, k))
  {
    assert Entry(w, k) == EntryWith(w, k, LegAt(w, k));
  }

  lemma AnsweredAt(w: Walk, k: int)
    requires WellFormed(w) && 0 <= k < |w.ordered|
    ensures var r := ValidatedAll(Entries(w, |w.ordered|), w.inputs);
            var o := w.ordered[k];
            |r| == |w.ordered| && r[k] == Validated(Entry(w, k), w.inputs)
  {
    var e := Entries(w, |w.ordered|);
    EntriesAt(w, |w.ordered|, k);
    ValidatedAt(e, w.inputs, k);
  }

  lemma ValidatedAt(u: seq<Order>, inputs: map<int, Order>, k: int)
    requires 0 <= k < |u|
    ensures ValidatedAll(u, inputs)[k] == Validated(u[k], inputs)
  {
  }

  /**
   * An answered object: the stop's id, address, type and leg over the
   * caller's fields, with the swapped pair as coordinates, or the caller's
   * own when the pair is malformed.
   */
  lemma MergedFields(inputs: map<int, Order>, o: Order, pair: seq<Num>, leg: Leg)
    ensures var orig := Original(inputs, o);
            var r := Validated(Merged(orig, o, pair, leg), inputs);
            && r.id == o.id && r.address == o.address && r.kind == o.kind
            && r.timeRange == Some(leg.window)
            && r.travelTime == Some(Finite(leg.travelMinutes))
            && r.distanceKm == Some(Finite(leg.distanceKm))
            && (o.id in inputs ==>
                  r.coords == if CoordsOk(Some(Swapped(pair))) || orig.coords.None? then Some(Swapped(pair)) else orig.coords)
            && (o.id !in inputs ==> r.coords == Some(Swapped(pair)))
            && r.clientName == orig.clientName && r.phoneNumber == orig.phoneNumber
            && r.description == orig.description && r.completed == orig.completed
            && r.completedAt == orig.completedAt && r.photoUrls == orig.photoUrls
  {
    if o.id in inputs {
      assert Original(inputs, o) == inputs[o.id];
    }
  }

  /** The caller's object for an id that occurs once in the request is that object. */
  lemma OriginalIsCallers(orders: seq<Order>, o: Order, k: int)
    requires 0 <= k < |orders| && orders[k].id == o.id
    requires forall l :: 0 <= l < |orders| && l != k ==> orders[l].id != o.id
    ensures Original(IndexById(orders), o) == orders[k]
  {
    IndexByIdLast(orders, k);
  }

  /**
   * The rows written are exactly the visited ids, in visiting order, each
   * with its own stop's window; a row whose id is not visited is untouched.
   */
  lemma StoreWritesSpec(w: Walk, rows: map<int, Option<string>>, id: int)
    requires WellFormed(w)
    ensures var writes := Writes(w, |w.ordered|);
            var after := ApplyWrites(rows, writes);
            && (forall k :: 0 <= k < |writes| ==> writes[k] == (w.ordered[k].id, WindowAt(w, k)))
            && after.Keys == rows.Keys
            && ((forall k :: 0 <= k < |w.ordered| ==> w.ordered[k].id != id) && id in rows ==> after[id] == rows[id])
  {
    var writes := Writes(w, |w.ordered|);
    forall k | 0 <= k < |writes| ensures writes[k] == (w.ordered[k].id, WindowAt(w, k)) {
      WritesAt(w, |w.ordered|, k);
    }
    if forall k :: 0 <= k < |w.ordered| ==> w.ordered[k].id != id {
      ApplyWritesUntouched(rows, writes, id);
    }
  }

  /** When no stop is visited twice, each visited row ends up holding its own stop's window. */
  lemma StoreHoldsWindow(w: Walk, rows: map<int, Option<string>>, k: int)
    requires WellFormed(w) && DistinctIds(w.ordered) && 0 <= k < |w.ordered| && w.ordered[k].id in rows
    ensures ApplyWrites(rows, Writes(w, |w.ordered|))[w.ordered[k].id] == Some(WindowAt(w, k))
  {
    var writes := Writes(w, |w.ordered|);
    forall l | 0 <= l < |writes| ensures writes[l] == (w.ordered[l].id, WindowAt(w, l)) {
      WritesAt(w, |w.ordered|, l);
    }
    ApplyWritesLast(rows, writes, k);
  }

  /** With distinct ids in the request, no stop is visited twice. */
  lemma VisitedDistinct(orders: seq<Order>, geocode: string -> Option<seq<Num>>, setting: Option<real>,
                        plan: Plan, matrix: MatrixData, le: (string, string) -> bool)
    requires TotalPreorder(le) && DistinctIds(orders)
    requires HasSteps(plan) ==> forall i, j :: 0 <= i < j < |PlanJobs(plan)| ==> PlanJobs(plan)[i] != PlanJobs(plan)[j]
    ensures DistinctIds(MakeWalk(orders, geocode, setting, plan, matrix, le).ordered)
  {
    var valid := Geocoded(orders, geocode);
    var candidates := Candidates(plan, valid, le);
    SortByAddressSpec(valid, le);
    GeocodedDistinct(orders, geocode);
    DistinctPermutation(valid, candidates);
    if HasSteps(plan) {
      ResolveDistinct(PlanJobs(plan), candidates);
    } else {
      ResolveOwnIds(candidates, 0);
      assert Ids(candidates)[0..] == Ids(candidates);
      assert candidates[0..] == candidates;
    }
  }

  /** Resolving ids that never repeat gives orders whose ids never repeat. */
  lemma {:induction false} ResolveDistinct(ids: seq<Option<int>>, c: seq<Order>)
    requires forall i, j :: 0 <= i < j < |ids| ==> ids[i] != ids[j]
    ensures DistinctIds(Resolve(ids, c))
    ensures forall k :: 0 <= k < |Resolve(ids, c)| ==> Some(Resolve(ids, c)[k].id) in ids
  {
    if ids != [] {
      var tail := ids[1..];
      ResolveDistinct(tail, c);
      var rest := Resolve(tail, c);
      var r := Resolve(ids, c);
      forall k | 0 <= k < |rest| ensures Some(rest[k].id) != ids[0] {
        assert Some(rest[k].id) in tail;
      }
      match FindById(c, ids[0])
      case None => {
        assert r == rest;
      }
      case Some(o) => {
        assert r == [o] + rest;
        forall i, j | 0 <= i < j < |r| ensures r[i].id != r[j].id {
          if i > 0 {
            assert r[i] == rest[i - 1] && r[j] == rest[j - 1];
          } else {
            assert r[j] == rest[j - 1];
          }
        }
        forall k | 0 <= k < |r| ensures Some(r[k].id) in ids {
          if k > 0 {
            assert r[k] == rest[k - 1];
            assert Some(rest[k - 1].id) in tail;
          }
        }
      }
    }
  }
}
