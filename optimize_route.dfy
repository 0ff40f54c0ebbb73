/**
 * The optimized scheduling route (`POST /api/travel-optimize`): geocode the
 * warehouse and every order, ask the route optimizer for a visiting order
 * (falling back to an address sort when it finds no route), walk that order
 * over the duration/distance matrix from the warehouse with a running clock,
 * write one window per order to the store, and merge the results back onto
 * the objects the caller sent.
 *
 * The geocoder, the settings row, the optimizer and the matrix are inputs:
 * `geocode` maps an address to its coordinates or to a failure, `setting`
 * is the stored start hour or None, `plan` and `matrix` the two responses
 * or None when the request failed.
 */
module OptimizeRoute {
  import opened Wrappers
  import opened Orders
  import opened TimeWindow

  /** The depot every route starts from. */
  const WarehouseAddress: string := "Starowiejska 10, 08-110 Siedlce"

  /** This route starts the clock half an hour after the stored start hour. */
  const WarmUpHours: real := 0.5

  /** The three service types whose distance is reported as 0. */
  const KnownKinds: seq<string> := ["Transport", "Transport + wniesienie", "Transport + wniesienie + montaż"]

  datatype StepKind = StartStep | JobStep | EndStep

  /** One step of an optimized route; only job steps name an order id. */
  datatype Step = Step(kind: StepKind, id: Option<int>)

  datatype Route = Route(steps: Option<seq<Step>>)

  /** The optimization response; `routes` is absent or empty when no solution was found. */
  datatype Plan = Plan(routes: Option<seq<Route>>)

  datatype Failure =
    | NoOrders
    | GeocodingFailed(address: string)
    | NoValidAddresses
    | ProviderFailed

  /** The `error` text of the response (a provider failure carries the runtime's own message). */
  function Message(f: Failure): (m: Option<string>)
    ensures f.NoOrders? ==> m == Some("Brak zleceń")
    ensures f.GeocodingFailed? ==> m == Some("Nie znaleziono współrzędnych: " + f.address)
    ensures f.NoValidAddresses? ==> m == Some("Brak poprawnych adresów do optymalizacji")
    ensures m.None? <==> f.ProviderFailed?
  {
    match f
    case NoOrders => Some("Brak zleceń")
    case GeocodingFailed(a) => Some("Nie znaleziono współrzędnych: " + a)
    case NoValidAddresses => Some("Brak poprawnych adresów do optymalizacji")
    case ProviderFailed => None
  }

  /** Service time in hours: 0.5 for plain transport, 1 with carrying in, 1.7 for anything else. */
  function ServiceHours(kind: string): (h: real)
    ensures 0.5 <= h <= 1.7
    ensures h == 0.5 <==> kind == "Transport"
    ensures h == 1.0 <==> kind == "Transport + wniesienie"
    ensures kind != "Transport" && kind != "Transport + wniesienie" ==> h == 1.7
  {
    if kind == "Transport" then 0.5
    else if kind == "Transport + wniesienie" then 1.0
    else 1.7
  }

  // ---------------------------------------------------------------------
  // Geocoding and bookkeeping

  /** The orders that geocode (`validOrders`), in input order. */
  function Geocoded(orders: seq<Order>, geocode: string -> Option<seq<Num>>): seq<Order>
  {
    if orders == [] then []
    else
      var o := orders[|orders| - 1];
      Geocoded(orders[..|orders| - 1], geocode) + (if geocode(o.address).Some? then [o] else [])
  }

  /** Their coordinates (`coords`), aligned with `Geocoded`. */
  function GeocodedCoords(orders: seq<Order>, geocode: string -> Option<seq<Num>>): seq<seq<Num>>
  {
    if orders == [] then []
    else
      var o := orders[|orders| - 1];
      GeocodedCoords(orders[..|orders| - 1], geocode) + (if geocode(o.address).Some? then [geocode(o.address).value] else [])
  }

  /**
   * `validOrders` holds exactly the orders whose address geocodes, and
   * `coords[k]` is the position of `validOrders[k]`.
   */
  lemma {:induction false} GeocodedSpec(orders: seq<Order>, geocode: string -> Option<seq<Num>>)
    ensures |GeocodedCoords(orders, geocode)| == |Geocoded(orders, geocode)|
    ensures forall k :: 0 <= k < |Geocoded(orders, geocode)| ==>
              geocode(Geocoded(orders, geocode)[k].address) == Some(GeocodedCoords(orders, geocode)[k])
    ensures forall o :: o in Geocoded(orders, geocode) <==> o in orders && geocode(o.address).Some?
  {
    if orders != [] {
      var init := orders[..|orders| - 1];
      GeocodedSpec(init, geocode);
      assert orders == init + [orders[|orders| - 1]];
    }
  }

  /** `inputById`: each id maps to the last input order carrying it. */
  function IndexById(s: seq<Order>): (m: map<int, Order>)
    ensures forall k :: 0 <= k < |s| ==> s[k].id in m
    ensures forall id :: id in m ==> m[id] in s && m[id].id == id
  {
    if s == [] then map[]
    else IndexById(s[..|s| - 1])[s[|s| - 1].id := s[|s| - 1]]
  }

  /** The order an id maps to is the last one with that id. */
  lemma {:induction false} IndexByIdLast(s: seq<Order>, k: int)
    requires 0 <= k < |s|
    requires forall l :: k < l < |s| ==> s[l].id != s[k].id
    ensures IndexById(s)[s[k].id] == s[k]
  {
    if k < |s| - 1 {
      IndexByIdLast(s[..|s| - 1], k);
    }
  }

  /**
   * `idToMatrixIndex`: order `k` of `s` gets matrix location `k + 1`,
   * location 0 being the warehouse; a repeated id keeps its last location.
   */
  function MatrixIndex(s: seq<Order>): map<int, int>
  {
    if s == [] then map[]
    else MatrixIndex(s[..|s| - 1])[s[|s| - 1].id := |s|]
  }

  /** Every visited id has a location, and it is the location of an order with that id. */
  lemma {:induction false} MatrixIndexSpec(s: seq<Order>)
    ensures forall k :: 0 <= k < |s| ==> s[k].id in MatrixIndex(s)
    ensures forall id :: id in MatrixIndex(s) ==> 1 <= MatrixIndex(s)[id] <= |s| && s[MatrixIndex(s)[id] - 1].id == id
  {
    if s != [] {
      var init := s[..|s| - 1];
      MatrixIndexSpec(init);
      var m0 := MatrixIndex(init);
      var m := MatrixIndex(s);
      assert m == m0[s[|s| - 1].id := |s|];
      forall k | 0 <= k < |s| ensures s[k].id in m {
        if k < |s| - 1 {
          assert init[k] == s[k];
        }
      }
      forall id | id in m ensures 1 <= m[id] <= |s| && s[m[id] - 1].id == id {
        if id != s[|s| - 1].id {
          assert m[id] == m0[id];
          assert s[m0[id] - 1] == init[m0[id] - 1];
        }
      }
    }
  }

  lemma MatrixIndexOfDistinct(s: seq<Order>, k: int)
    requires DistinctIds(s) && 0 <= k < |s|
    ensures s[k].id in MatrixIndex(s) && MatrixIndex(s)[s[k].id] == k + 1
  {
    MatrixIndexSpec(s);
    var m := MatrixIndex(s);
    assert s[k].id in m;
    var j := m[s[k].id] - 1;
    assert 0 <= j < |s| && s[j].id == s[k].id;
  }

  // ---------------------------------------------------------------------
  // The address sort of the fallback

  /** `localeCompare(...) <= 0` must be a total preorder for the sort to mean anything. */
  ghost predicate TotalPreorder(le: (string, string) -> bool)
  {
    && (forall a, b :: le(a, b) || le(b, a))
    && (forall a, b, c :: le(a, b) && le(b, c) ==> le(a, c))
  }

  predicate SortedByAddress(s: seq<Order>, le: (string, string) -> bool)
  {
    forall i, j :: 0 <= i < j < |s| ==> le(s[i].address, s[j].address)
  }

  function Insert(x: Order, s: seq<Order>, le: (string, string) -> bool): seq<Order>
  {
    if s == [] then [x]
    else if le(x.address, s[0].address) then [x] + s
    else [s[0]] + Insert(x, s[1..], le)
  }

  /** `validOrders.sort(...)` by address under the collation `le`, as a stable insertion sort. */
  function SortByAddress(s: seq<Order>, le: (string, string) -> bool): seq<Order>
  {
    if s == [] then [] else Insert(s[0], SortByAddress(s[1..], le), le)
  }

  lemma {:induction false} InsertPermutation(x: Order, s: seq<Order>, le: (string, string) -> bool)
    ensures multiset(Insert(x, s, le)) == multiset(s) + multiset{x}
  {
    if s != [] && !le(x.address, s[0].address) {
      InsertPermutation(x, s[1..], le);
      assert s == [s[0]] + s[1..];
    }
  }

  lemma {:induction false} InsertSorted(x: Order, s: seq<Order>, le: (string, string) -> bool)
    requires TotalPreorder(le) && SortedByAddress(s, le)
    ensures SortedByAddress(Insert(x, s, le), le)
    ensures Insert(x, s, le)[0] == x || (s != [] && Insert(x, s, le)[0] == s[0])
  {
    if s == [] {
    } else if le(x.address, s[0].address) {
      var out := [x] + s;
      forall i, j | 0 <= i < j < |out| ensures le(out[i].address, out[j].address) {
        if i == 0 {
          assert le(s[0].address, s[j - 1].address) || j == 1;
        } else {
          assert out[i] == s[i - 1] && out[j] == s[j - 1];
        }
      }
    } else {
      var tail := s[1..];
      InsertSorted(x, tail, le);
      var r := Insert(x, tail, le);
      assert le(s[0].address, r[0].address) by {
        if r[0] != x {
          assert r[0] == s[1];
        }
      }
      var out := [s[0]] + r;
      forall i, j | 0 <= i < j < |out| ensures le(out[i].address, out[j].address) {
        if i > 0 {
          assert out[i] == r[i - 1] && out[j] == r[j - 1];
        } else if j > 1 {
          assert le(r[0].address, r[j - 1].address);
        }
      }
    }
  }

  /** The fallback order is sorted by address and a permutation of the geocoded orders. */
  lemma {:induction false} SortByAddressSpec(s: seq<Order>, le: (string, string) -> bool)
    requires TotalPreorder(le)
    ensures SortedByAddress(SortByAddress(s, le), le)
    ensures multiset(SortByAddress(s, le)) == multiset(s)
  {
    if s != [] {
      SortByAddressSpec(s[1..], le);
      InsertSorted(s[0], SortByAddress(s[1..], le), le);
      InsertPermutation(s[0], SortByAddress(s[1..], le), le);
      assert s == [s[0]] + s[1..];
    }
  }

  // ---------------------------------------------------------------------
  // The visiting order

  /** `!result.routes || result.routes.length === 0`. */
  predicate NoRoutes(plan: Plan)
  {
    plan.routes.None? || |plan.routes.value| == 0
  }

  /** `validOrders` after the fallback has (or has not) sorted it in place. */
  function Candidates(plan: Plan, valid: seq<Order>, le: (string, string) -> bool): seq<Order>
  {
    if NoRoutes(plan) then SortByAddress(valid, le) else valid
  }

  /** Whether the first route lists its steps (`routes[0].steps`). */
  predicate HasSteps(plan: Plan)
  {
    !NoRoutes(plan) && plan.routes.value[0].steps.Some?
  }

  /** The job ids of the first route's steps. */
  function PlanJobs(plan: Plan): seq<Option<int>>
    requires HasSteps(plan)
  {
    JobIds(plan.routes.value[0].steps.value)
  }

  /** The ids of the job steps, in the optimizer's order. */
  function JobIds(steps: seq<Step>): (ids: seq<Option<int>>)
    ensures |ids| <= |steps|
  {
    if steps == [] then []
    else (if steps[0].kind == JobStep then [steps[0].id] else []) + JobIds(steps[1..])
  }

  /** A single step contributes its id exactly when it is a job. */
  lemma JobIdsOfStep(s: Step)
    ensures s.kind == JobStep ==> JobIds([s]) == [s.id]
    ensures s.kind != JobStep ==> JobIds([s]) == []
  {
    assert [s][1..] == [];
  }

  /** The job ids of consecutive stretches of steps follow each other, in the optimizer's order. */
  lemma {:induction false} JobIdsAppend(a: seq<Step>, b: seq<Step>)
    ensures JobIds(a + b) == JobIds(a) + JobIds(b)
  {
    if a == [] {
      assert a + b == b;
    } else {
      var head := if a[0].kind == JobStep then [a[0].id] else [];
      assert (a + b)[0] == a[0];
      assert (a + b)[1..] == a[1..] + b;
      assert JobIds(a + b) == head + JobIds(a[1..] + b);
      JobIdsAppend(a[1..], b);
      assert head + (JobIds(a[1..]) + JobIds(b)) == (head + JobIds(a[1..])) + JobIds(b);
    }
  }

  /** Every job id is the id of a job step, and every job step's id is among them. */
  lemma {:induction false} JobIdsMembers(steps: seq<Step>)
    ensures forall x :: x in JobIds(steps) <==> exists k :: 0 <= k < |steps| && steps[k].kind == JobStep && steps[k].id == x
  {
    if steps != [] {
      JobIdsMembers(steps[1..]);
      forall x ensures x in JobIds(steps) <==> exists k :: 0 <= k < |steps| && steps[k].kind == JobStep && steps[k].id == x {
        if x in JobIds(steps[1..]) {
          var k :| 0 <= k < |steps[1..]| && steps[1..][k].kind == JobStep && steps[1..][k].id == x;
          assert steps[k + 1] == steps[1..][k];
        }
        if exists k :: 0 <= k < |steps| && steps[k].kind == JobStep && steps[k].id == x {
          var k :| 0 <= k < |steps| && steps[k].kind == JobStep && steps[k].id == x;
          if k > 0 {
            assert steps[1..][k - 1] == steps[k];
          }
        }
      }
    }
  }

  function Ids(s: seq<Order>): (ids: seq<Option<int>>)
    ensures |ids| == |s| && forall k :: 0 <= k < |s| ==> ids[k] == Some(s[k].id)
  {
    seq(|s|, k requires 0 <= k < |s| => Some(s[k].id))
  }

  /**
   * `orderedIds`: the job ids of the first route when it has steps, the ids
   * of `validOrders` otherwise (an empty job list is kept: `[]` is truthy).
   */
  function OrderedIds(plan: Plan, candidates: seq<Order>): seq<Option<int>>
  {
    if HasSteps(plan) then PlanJobs(plan) else Ids(candidates)
  }

  /** `validOrders.find((o) => o.id === id)`: the first order with that id. */
  function FindById(c: seq<Order>, id: Option<int>): (r: Option<Order>)
    ensures r.Some? ==> r.value in c && id == Some(r.value.id)
    ensures r.None? <==> forall k :: 0 <= k < |c| ==> id != Some(c[k].id)
  {
    if c == [] then None
    else if Some(c[0].id) == id then Some(c[0])
    else FindById(c[1..], id)
  }

  /** `find` answers the first order carrying the id: no earlier order has it. */
  lemma {:induction false} FindByIdFirst(c: seq<Order>, id: Option<int>)
    ensures FindById(c, id).Some? ==>
              exists k :: 0 <= k < |c| && c[k] == FindById(c, id).value && forall j :: 0 <= j < k ==> Some(c[j].id) != id
  {
    if c == [] {
    } else if Some(c[0].id) == id {
      assert c[0] == FindById(c, id).value;
    } else {
      var rest := c[1..];
      FindByIdFirst(rest, id);
      var r := FindById(c, id);
      assert r == FindById(rest, id);
      if r.Some? {
        var k :| 0 <= k < |rest| && rest[k] == r.value && forall j :: 0 <= j < k ==> Some(rest[j].id) != id;
        assert c[k + 1] == rest[k];
        forall j | 0 <= j < k + 1
          ensures Some(c[j].id) != id
        {
          if j > 0 {
            assert c[j] == rest[j - 1];
          }
        }
      }
    }
  }


  /** `orderedIds.map(find).filter(Boolean)`: unknown ids are dropped. */
  function Resolve(ids: seq<Option<int>>, c: seq<Order>): (r: seq<Order>)
    ensures |r| <= |ids|
    ensures forall k :: 0 <= k < |r| ==> r[k] in c
  {
    if ids == [] then []
    else
      (match FindById(c, ids[0]) case Some(o) => [o] case None => []) + Resolve(ids[1..], c)
  }

  /** When every id is known the visiting order has one order per id, in the optimizer's order. */
  lemma {:induction false} ResolveAllKnown(ids: seq<Option<int>>, c: seq<Order>)
    requires forall k :: 0 <= k < |ids| ==> FindById(c, ids[k]).Some?
    ensures |Resolve(ids, c)| == |ids|
    ensures forall k :: 0 <= k < |ids| ==> ids[k] == Some(Resolve(ids, c)[k].id)
  {
    if ids != [] {
      assert FindById(c, ids[0]).Some?;
      ResolveAllKnown(ids[1..], c);
    }
  }

  /** Ids that name no geocoded order are skipped, and nothing else is. */
  lemma {:induction false} ResolveSkipsUnknown(ids: seq<Option<int>>, c: seq<Order>)
    ensures |Resolve(ids, c)| == |ids| <==> forall k :: 0 <= k < |ids| ==> FindById(c, ids[k]).Some?
  {
    if ids != [] {
      ResolveSkipsUnknown(ids[1..], c);
      if FindById(c, ids[0]).Some? {
        assert forall k :: 1 <= k < |ids| ==> ids[k] == ids[1..][k - 1];
      }
    }
  }

  lemma {:induction false} FindFirst(c: seq<Order>, k: int)
    requires DistinctIds(c) && 0 <= k < |c|
    ensures FindById(c, Some(c[k].id)) == Some(c[k])
  {
    if k > 0 {
      FindFirst(c[1..], k - 1);
    }
  }

  /** With distinct ids, resolving a list's own ids gives the list back. */
  lemma {:induction false} ResolveOwnIds(c: seq<Order>, n: nat)
    requires DistinctIds(c) && n <= |c|
    ensures Resolve(Ids(c)[n..], c) == c[n..]
    decreases |c| - n
  {
    if n < |c| {
      FindFirst(c, n);
      ResolveOwnIds(c, n + 1);
      assert Ids(c)[n..][1..] == Ids(c)[n + 1..];
      assert c[n..] == [c[n]] + c[n + 1..];
    }
  }

  // ---------------------------------------------------------------------
  // Distinct ids survive filtering and sorting

  lemma {:induction false} DistinctCount(s: seq<Order>, x: Order)
    requires DistinctIds(s)
    ensures multiset(s)[x] <= 1
  {
    if s != [] {
      var init := s[..|s| - 1];
      DistinctCount(init, x);
      assert s == init + [s[|s| - 1]];
      forall p | 0 <= p < |init| ensures init[p] != s[|s| - 1] {
        assert s[p].id != s[|s| - 1].id;
      }
      assert s[|s| - 1] !in init;
    }
  }

  lemma OnceCounted(s: seq<Order>, i: int, j: int)
    requires 0 <= i < j < |s| && multiset(s)[s[i]] <= 1
    ensures s[i] != s[j]
  {
    assert s == s[..i] + [s[i]] + s[i + 1..j] + [s[j]] + s[j + 1..];
  }

  lemma DistinctPermutation(a: seq<Order>, b: seq<Order>)
    requires DistinctIds(a) && multiset(a) == multiset(b)
    ensures DistinctIds(b)
  {
    forall i, j | 0 <= i < j < |b| ensures b[i].id != b[j].id {
      DistinctCount(a, b[i]);
      OnceCounted(b, i, j);
      assert b[i] in multiset(a) && b[j] in multiset(a);
      var p :| 0 <= p < |a| && a[p] == b[i];
      var q :| 0 <= q < |a| && a[q] == b[j];
      assert p != q;
    }
  }

  lemma {:induction false} GeocodedDistinct(orders: seq<Order>, geocode: string -> Option<seq<Num>>)
    requires DistinctIds(orders)
    ensures DistinctIds(Geocoded(orders, geocode))
  {
    if orders != [] {
      var init := orders[..|orders| - 1];
      assert DistinctIds(init);
      GeocodedDistinct(init, geocode);
      GeocodedSpec(init, geocode);
      var g := Geocoded(init, geocode);
      var o := orders[|orders| - 1];
      forall k | 0 <= k < |g| ensures g[k].id != o.id {
        assert g[k] in init;
        var p :| 0 <= p < |init| && init[p] == g[k];
        assert orders[p] == g[k];
      }
    }
  }

  // ---------------------------------------------------------------------
  // The walk

  /**
   * Everything the schedule loop reads: the visiting order, the matrix
   * location of each id, the geocoded coordinates (location k + 1 is
   * `coords[k]`), the caller's objects by id, the matrices and the clock's
   * starting value.
   */
  datatype Walk = Walk(
    ordered: seq<Order>,
    index: map<int, int>,
    coords: seq<seq<Num>>,
    inputs: map<int, Order>,
    durations: Matrix,
    distances: Matrix,
    t0: real)

  /** Every visited order has a matrix location that names one of the coordinates. */
  predicate WellFormed(w: Walk)
  {
    forall k :: 0 <= k < |w.ordered| ==> w.ordered[k].id in w.index && 1 <= w.index[w.ordered[k].id] <= |w.coords|
  }

  /** The leg into stop `i` starts at the warehouse for the first stop, at the previous stop otherwise. */
  function FromIndex(w: Walk, i: int): int
    requires WellFormed(w) && 0 <= i < |w.ordered|
  {
    if i == 0 then 0 else w.index[w.ordered[i - 1].id]
  }

  function ToIndex(w: Walk, i: int): int
    requires WellFormed(w) && 0 <= i < |w.ordered|
  {
    w.index[w.ordered[i].id]
  }

  /** `travelSeconds / 60`, a missing duration counting as 0 seconds. */
  function TravelMinutes(w: Walk, i: int): real
    requires WellFormed(w) && 0 <= i < |w.ordered|
  {
    EntryOrZero(w.durations, FromIndex(w, i), ToIndex(w, i)) / 60.0
  }

  /** 0 for the three known service types, the leg's metres / 1000 otherwise. */
  function DistanceKm(w: Walk, i: int): real
    requires WellFormed(w) && 0 <= i < |w.ordered|
  {
    if w.ordered[i].kind in KnownKinds then 0.0
    else EntryOrZero(w.distances, FromIndex(w, i), ToIndex(w, i)) / 1000.0
  }

  /** `currentTime` before stop `i`: the unrounded end of the stop before. */
  function ClockAt(w: Walk, i: int): real
    requires WellFormed(w) && 0 <= i <= |w.ordered|
  {
    if i == 0 then w.t0
    else ClockAt(w, i - 1) + TravelMinutes(w, i - 1) / 60.0 + ServiceHours(w.ordered[i - 1].kind)
  }

  function StartAt(w: Walk, i: int): real
    requires WellFormed(w) && 0 <= i < |w.ordered|
  {
    ClockAt(w, i) + TravelMinutes(w, i) / 60.0
  }

  function EndAt(w: Walk, i: int): real
    requires WellFormed(w) && 0 <= i < |w.ordered|
  {
    StartAt(w, i) + ServiceHours(w.ordered[i].kind)
  }

  function WindowAt(w: Walk, i: int): string
    requires WellFormed(w) && 0 <= i < |w.ordered|
  {
    Window(StartAt(w, i), EndAt(w, i))
  }

  /** What the loop computes for one stop: the leg's minutes and kilometres, and the window. */
  datatype Leg = Leg(travelMinutes: real, distanceKm: real, window: string)

  function LegAt(w: Walk, i: int): Leg
    requires WellFormed(w) && 0 <= i < |w.ordered|
  {
    Leg(TravelMinutes(w, i), DistanceKm(w, i), WindowAt(w, i))
  }

  /** `[coordPair[1], coordPair[0]]`, a missing element reading as a non-number. */
  function Swapped(pair: seq<Num>): seq<Num>
  {
    [if |pair| > 1 then pair[1] else NotFinite, if |pair| > 0 then pair[0] else NotFinite]
  }

  /**
   * `{ ...orig, id, address, type, coords, travelTime, distanceKm, timeRange }`:
   * the caller's object with the stop's computed fields spread over it.
   */
  function Merged(orig: Order, o: Order, pair: seq<Num>, leg: Leg): Order
  {
    orig.(id := o.id, address := o.address, kind := o.kind,
          coords := Some(Swapped(pair)),
          travelTime := Some(Finite(leg.travelMinutes)),
          distanceKm := Some(Finite(leg.distanceKm)),
          timeRange := Some(leg.window))
  }

  /** The caller's object for an order: `inputById.get(id) || o`. */
  function Original(inputs: map<int, Order>, o: Order): Order
  {
    if o.id in inputs then inputs[o.id] else o
  }

  /** The object pushed for stop `i`. */
  function Entry(w: Walk, i: int): Order
    requires WellFormed(w) && 0 <= i < |w.ordered|
  {
    EntryWith(w, i, LegAt(w, i))
  }

  /**
   * The object pushed for stop `i` once its leg is known: the caller's
   * object spread under the stop's fields, with `coords[toIndex - 1]`.
   */
  function EntryWith(w: Walk, i: int, leg: Leg): Order
    requires WellFormed(w) && 0 <= i < |w.ordered|
  {
    Merged(Original(w.inputs, w.ordered[i]), w.ordered[i], w.coords[ToIndex(w, i) - 1], leg)
  }

  /** Two finite numbers. */
  predicate CoordsOk(c: Option<seq<Num>>)
  {
    c.Some? && |c.value| == 2 && c.value[0].Finite? && c.value[1].Finite?
  }

  /** The fresh coordinates unless they are malformed and the caller sent an array of its own. */
  function Validated(u: Order, inputs: map<int, Order>): Order
  {
    if !CoordsOk(u.coords) && u.id in inputs && inputs[u.id].coords.Some? then u.(coords := inputs[u.id].coords)
    else u
  }

  /** The objects pushed for the first `n` stops, in visiting order. */
  function Entries(w: Walk, n: int): (r: seq<Order>)
    requires WellFormed(w) && 0 <= n <= |w.ordered|
    ensures |r| == n
  {
    if n == 0 then [] else Entries(w, n - 1) + [Entry(w, n - 1)]
  }

  /** The `UPDATE ... SET time_range` statements issued for the first `n` stops, in order. */
  function Writes(w: Walk, n: int): (r: seq<(int, string)>)
    requires WellFormed(w) && 0 <= n <= |w.ordered|
    ensures |r| == n
  {
    if n == 0 then [] else Writes(w, n - 1) + [(w.ordered[n - 1].id, WindowAt(w, n - 1))]
  }

  function ValidatedAll(u: seq<Order>, inputs: map<int, Order>): (r: seq<Order>)
    ensures |r| == |u|
  {
    seq(|u|, k requires 0 <= k < |u| => Validated(u[k], inputs))
  }

  // ---------------------------------------------------------------------
  // The whole request

  /** The walk the handler sets up, or the error it stops with before writing anything. */
  function Prepare(orders: Option<seq<Order>>, geocode: string -> Option<seq<Num>>, setting: Option<real>,
                   plan: Option<Plan>, matrix: Option<MatrixData>, le: (string, string) -> bool): (r: Result<Walk, Failure>)
    requires TotalPreorder(le)
    ensures r.Ok? ==> WellFormed(r.value)
  {
    if orders.None? || |orders.value| == 0 then Err(NoOrders)
    else if geocode(WarehouseAddress).None? then Err(GeocodingFailed(WarehouseAddress))
    else
      var valid := Geocoded(orders.value, geocode);
      if |valid| == 0 then Err(NoValidAddresses)
      else if plan.None? || matrix.None? then Err(ProviderFailed)
      else
        var w := MakeWalk(orders.value, geocode, setting, plan.value, matrix.value, le);
        MakeWalkWellFormed(orders.value, geocode, setting, plan.value, matrix.value, le);
        Ok(w)
  }

  /**
   * The walk as the handler sets it up: the stops resolved from `validOrders`
   * and `idToMatrixIndex` numbered from `validOrders` as it stands after the
   * fallback's in-place sort, while `coords` (and with them the matrix
   * locations) stay in geocoding order.
   */
  function MakeWalk(orders: seq<Order>, geocode: string -> Option<seq<Num>>, setting: Option<real>,
                    plan: Plan, matrix: MatrixData, le: (string, string) -> bool): Walk
  {
    var valid := Geocoded(orders, geocode);
    var candidates := Candidates(plan, valid, le);
    Walk(Resolve(OrderedIds(plan, candidates), candidates), MatrixIndex(candidates), GeocodedCoords(orders, geocode),
         IndexById(orders), matrix.durations, matrix.distances, StartHour(setting) + WarmUpHours)
  }

  /**
   * The same walk with the matrix locations numbered in geocoding order,
   * the order of `coords`, as the numbering evidently intends.
   */
  function CorrectedWalk(orders: seq<Order>, geocode: string -> Option<seq<Num>>, setting: Option<real>,
                         plan: Plan, matrix: MatrixData, le: (string, string) -> bool): Walk
  {
    MakeWalk(orders, geocode, setting, plan, matrix, le).(index := MatrixIndex(Geocoded(orders, geocode)))
  }

  /** A numbering of any permutation of the geocoded orders gives every stop a location among the coordinates. */
  lemma NumberedStops(w: Walk, valid: seq<Order>, numbered: seq<Order>)
    requires multiset(numbered) == multiset(valid) && |w.coords| == |valid| && w.index == MatrixIndex(numbered)
    requires forall k :: 0 <= k < |w.ordered| ==> w.ordered[k] in valid
    ensures WellFormed(w)
  {
    MatrixIndexSpec(numbered);
    assert |numbered| == |multiset(numbered)| == |multiset(valid)| == |valid|;
    forall k | 0 <= k < |w.ordered| ensures w.ordered[k].id in w.index && 1 <= w.index[w.ordered[k].id] <= |w.coords| {
      var o := w.ordered[k];
      assert o in multiset(numbered);
      var p :| 0 <= p < |numbered| && numbered[p] == o;
    }
  }

  lemma MakeWalkWellFormed(orders: seq<Order>, geocode: string -> Option<seq<Num>>, setting: Option<real>,
                           plan: Plan, matrix: MatrixData, le: (string, string) -> bool)
    requires TotalPreorder(le)
    ensures WellFormed(MakeWalk(orders, geocode, setting, plan, matrix, le))
    ensures WellFormed(CorrectedWalk(orders, geocode, setting, plan, matrix, le))
  {
    var valid := Geocoded(orders, geocode);
    var candidates := Candidates(plan, valid, le);
    GeocodedSpec(orders, geocode);
    SortByAddressSpec(valid, le);
    StopsAmongGeocoded(orders, geocode, setting, plan, matrix, le);
    NumberedStops(MakeWalk(orders, geocode, setting, plan, matrix, le), valid, candidates);
    NumberedStops(CorrectedWalk(orders, geocode, setting, plan, matrix, le), valid, valid);
  }

  lemma StopsAmongGeocoded(orders: seq<Order>, geocode: string -> Option<seq<Num>>, setting: Option<real>,
                           plan: Plan, matrix: MatrixData, le: (string, string) -> bool)
    requires TotalPreorder(le)
    ensures var w := MakeWalk(orders, geocode, setting, plan, matrix, le);
            forall k :: 0 <= k < |w.ordered| ==> w.ordered[k] in Geocoded(orders, geocode)
  {
    var valid := Geocoded(orders, geocode);
    var candidates := Candidates(plan, valid, le);
    SortByAddressSpec(valid, le);
    var stops := Resolve(OrderedIds(plan, candidates), candidates);
    forall k | 0 <= k < |stops| ensures stops[k] in valid {
      assert stops[k] in candidates;
      assert stops[k] in multiset(candidates);
    }
  }

  /** The response: the merged objects, one per visited order, or the error. */
  function Response(orders: Option<seq<Order>>, geocode: string -> Option<seq<Num>>, setting: Option<real>,
                    plan: Option<Plan>, matrix: Option<MatrixData>, le: (string, string) -> bool): Result<seq<Order>, Failure>
    requires TotalPreorder(le)
  {
    match Prepare(orders, geocode, setting, plan, matrix, le)
    case Ok(w) => Ok(ValidatedAll(Entries(w, |w.ordered|), w.inputs))
    case Err(e) => Err(e)
  }

  /** The `UPDATE`s the handler issues, in order. */
  function StoreWrites(orders: Option<seq<Order>>, geocode: string -> Option<seq<Num>>, setting: Option<real>,
                       plan: Option<Plan>, matrix: Option<MatrixData>, le: (string, string) -> bool): seq<(int, string)>
    requires TotalPreorder(le)
  {
    match Prepare(orders, geocode, setting, plan, matrix, le)
    case Ok(w) => Writes(w, |w.ordered|)
    case Err(_) => []
  }

  /** `inputById`. */
  method IndexInputs(input: seq<Order>) returns (inputById: map<int, Order>)
    ensures inputById == IndexById(input)
  {
    inputById := map[];
    var i := 0;
    while i < |input|
      invariant 0 <= i <= |input|
      invariant inputById == IndexById(input[..i])
    {
      assert input[..i + 1][..i] == input[..i];
      inputById := inputById[input[i].id := input[i]];
      i := i + 1;
    }
    assert input[..|input|] == input;
  }

  /** The sequential geocoding loop that fills `coords` and `validOrders`. */
  method GeocodeOrders(input: seq<Order>, geocode: string -> Option<seq<Num>>)
    returns (validOrders: seq<Order>, coords: seq<seq<Num>>)
    ensures validOrders == Geocoded(input, geocode)
    ensures coords == GeocodedCoords(input, geocode)
  {
    coords := [];
    validOrders := [];
    var i := 0;
    while i < |input|
      invariant 0 <= i <= |input|
      invariant validOrders == Geocoded(input[..i], geocode)
      invariant coords == GeocodedCoords(input[..i], geocode)
    {
      assert input[..i + 1][..i] == input[..i];
      var c := geocode(input[i].address);
      if c.Some? {
        coords := coords + [c.value];
        validOrders := validOrders + [input[i]];
      }
      i := i + 1;
    }
    assert input[..|input|] == input;
  }

  /** The `idToMatrixIndex` loop. */
  method NumberLocations(s: seq<Order>) returns (idToMatrixIndex: map<int, int>)
    ensures idToMatrixIndex == MatrixIndex(s)
  {
    idToMatrixIndex := map[];
    var i := 0;
    while i < |s|
      invariant 0 <= i <= |s|
      invariant idToMatrixIndex == MatrixIndex(s[..i])
    {
      assert s[..i + 1][..i] == s[..i];
      idToMatrixIndex := idToMatrixIndex[s[i].id := i + 1];
      i := i + 1;
    }
    assert s[..|s|] == s;
  }

  /** The leg into stop `i` and the stop's unrounded start and end, from the clock before it. */
  method StopTimes(w: Walk, i: int, currentTime: real) returns (travelMinutes: real, distanceKm: real, start: real, end: real)
    requires WellFormed(w) && 0 <= i < |w.ordered|
    requires currentTime == ClockAt(w, i)
    ensures travelMinutes == TravelMinutes(w, i) && distanceKm == DistanceKm(w, i)
    ensures start == StartAt(w, i) && end == EndAt(w, i)
    ensures end == ClockAt(w, i + 1)
  {
    var o := w.ordered[i];
    var toIndex := w.index[o.id];
    var fromIndex := if i == 0 then 0 else w.index[w.ordered[i - 1].id];
    var travelSeconds := EntryOrZero(w.durations, fromIndex, toIndex);
    travelMinutes := travelSeconds / 60.0;
    distanceKm := if o.kind in KnownKinds then 0.0
                  else EntryOrZero(w.distances, fromIndex, toIndex) / 1000.0;
    var durationHours := ServiceHours(o.kind);
    start := currentTime + travelMinutes / 60.0;
    end := start + durationHours;
  }

  /** One pass of the schedule loop body: the leg, the window and the merged object of stop `i`. */
  method PlanStop(w: Walk, i: int, currentTime: real) returns (entry: Order, timeRange: string, next: real)
    requires WellFormed(w) && 0 <= i < |w.ordered|
    requires currentTime == ClockAt(w, i)
    ensures next == ClockAt(w, i + 1)
    ensures timeRange == WindowAt(w, i)
    ensures entry == Entry(w, i)
  {
    var travelMinutes, distanceKm, start, end := StopTimes(w, i, currentTime);
    next := end;
    timeRange := Window(start, end);
    var leg := Leg(travelMinutes, distanceKm, timeRange);
    LegOf(w, i, leg, start, end);
    entry := EntryWith(w, i, leg);
    EntryOf(w, i, leg);
  }

  lemma EntryOf(w: Walk, i: int, leg: Leg)
    requires WellFormed(w) && 0 <= i < |w.ordered| && leg == LegAt(w, i)
    ensures EntryWith(w, i, leg) == Entry(w, i)
  {
  }

  lemma LegOf(w: Walk, i: int, leg: Leg, start: real, end: real)
    requires WellFormed(w) && 0 <= i < |w.ordered|
    requires start == StartAt(w, i) && end == EndAt(w, i)
    requires leg == Leg(TravelMinutes(w, i), DistanceKm(w, i), Window(start, end))
    ensures leg == LegAt(w, i) && leg.window == WindowAt(w, i)
  {
  }

  /** The schedule loop: one window written and one merged object pushed per stop. */
  method WalkStops(store: OrderStore, w: Walk) returns (updatedOrders: seq<Order>)
    requires WellFormed(w)
    modifies store
    ensures updatedOrders == Entries(w, |w.ordered|)
    ensures store.timeRanges == ApplyWrites(old(store.timeRanges), Writes(w, |w.ordered|))
  {
    var currentTime := w.t0;
    updatedOrders := [];
    var i := 0;
    while i < |w.ordered|
      invariant 0 <= i <= |w.ordered|
      invariant currentTime == ClockAt(w, i)
      invariant updatedOrders == Entries(w, i)
      invariant store.timeRanges == ApplyWrites(old(store.timeRanges), Writes(w, i))
    {
      var entry, timeRange, next := PlanStop(w, i, currentTime);
      currentTime := next;
      store.SetTimeRange(w.ordered[i].id, timeRange);
      updatedOrders := updatedOrders + [entry];
      assert Writes(w, i + 1)[..i] == Writes(w, i);
      i := i + 1;
    }
  }

  /**
   * The handler: it checks the input, geocodes the warehouse and the orders,
   * sorts them by address when the optimizer found no route, resolves the
   * visiting order, numbers the matrix locations and walks the stops.
   */
  method Optimize(store: OrderStore, orders: Option<seq<Order>>, geocode: string -> Option<seq<Num>>,
                  setting: Option<real>, plan: Option<Plan>, matrix: Option<MatrixData>,
                  le: (string, string) -> bool)
    returns (res: Result<seq<Order>, Failure>)
    requires TotalPreorder(le)
    modifies store
    ensures res == Response(orders, geocode, setting, plan, matrix, le)
    ensures store.timeRanges == ApplyWrites(old(store.timeRanges), StoreWrites(orders, geocode, setting, plan, matrix, le))
  {
    if orders.None? || |orders.value| == 0 {
      return Err(NoOrders);
    }
    var input := orders.value;
    if geocode(WarehouseAddress).None? {
      return Err(GeocodingFailed(WarehouseAddress));
    }
    var inputById := IndexInputs(input);
    var validOrders, coords := GeocodeOrders(input, geocode);
    if |validOrders| == 0 {
      return Err(NoValidAddresses);
    }
    if plan.None? || matrix.None? {
      return Err(ProviderFailed);
    }
    var startHour := StartHour(setting);

    if NoRoutes(plan.value) {
      validOrders := SortByAddress(validOrders, le);
    }
    var orderedOrders := Resolve(OrderedIds(plan.value, validOrders), validOrders);
    // Numbered from the list as it stands now; `coords` keeps geocoding order.
    var idToMatrixIndex := NumberLocations(validOrders);

    var w := Walk(orderedOrders, idToMatrixIndex, coords, inputById,
                  matrix.value.durations, matrix.value.distances, startHour + WarmUpHours);
    assert w == MakeWalk(input, geocode, setting, plan.value, matrix.value, le);
    MakeWalkWellFormed(input, geocode, setting, plan.value, matrix.value, le);
    var updatedOrders := WalkStops(store, w);
    res := Ok(ValidatedAll(updatedOrders, inputById));
  }
}
