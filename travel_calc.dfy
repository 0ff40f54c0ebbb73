/**
 * The sequential scheduling route (`POST /api/travel-calc`): keep the
 * caller's order, geocode every address, read each leg from the matrix
 * entry between two consecutive positions, and walk the stops with a
 * running clock that adds a full hour before every stop, writing one window
 * per order to the store.
 *
 * Arithmetic follows JavaScript where the matrix can make it leave the
 * reals: a missing matrix entry is `undefined`, which turns every sum it
 * enters into NaN (`NotFinite`), while a null entry counts as 0. A missing
 * matrix row makes the read itself throw, which ends the request with the
 * rows already written kept.
 *
 * The geocoder, the matrix response and the settings row are inputs, as in
 * the optimized route.
 */
module TravelCalc {
  import opened Wrappers
  import opened Orders
  import opened TimeWindow

  datatype Failure =
    | NoOrders
    | GeocodingFailed(address: string)
    | ProviderFailed
    | RowMissing

  /** The `error` text of the response (a failed fetch or a missing row carries the runtime's own message). */
  function Message(f: Failure): (m: Option<string>)
    ensures f.NoOrders? ==> m == Some("Brak zleceń")
    ensures f.GeocodingFailed? ==> m == Some("Nie znaleziono współrzędnych dla adresu: " + f.address)
    ensures m.None? <==> f.ProviderFailed? || f.RowMissing?
  {
    match f
    case NoOrders => Some("Brak zleceń")
    case GeocodingFailed(a) => Some("Nie znaleziono współrzędnych dla adresu: " + a)
    case ProviderFailed => None
    case RowMissing => None
  }

  /** Service time in hours: 0.1 for plain transport, 0.6 with carrying in, 2 for anything else. */
  function ServiceHours(kind: string): (h: real)
    ensures 0.1 <= h <= 2.0
    ensures h == 0.1 <==> kind == "Transport"
    ensures h == 0.6 <==> kind == "Transport + wniesienie"
    ensures kind != "Transport" && kind != "Transport + wniesienie" ==> h == 2.0
  {
    if kind == "Transport" then 0.1
    else if kind == "Transport + wniesienie" then 0.6
    else 2.0
  }

  // ---------------------------------------------------------------------
  // Numbers that may be NaN

  /** `a + b`: NaN as soon as either side is. */
  function Add(a: Num, b: Num): Num
  {
    if a.Finite? && b.Finite? then Finite(a.value + b.value) else NotFinite
  }

  /** `a / d` for a positive constant `d`. */
  function Over(a: Num, d: real): Num
    requires d > 0.0
  {
    if a.Finite? then Finite(a.value / d) else NotFinite
  }

  /** `floorHalfHour` of a number that may be NaN: `Math.floor(NaN)` is NaN and `NaN < 30` is false. */
  function FloorText(t: Num): string
  {
    if t.Finite? then Render(FloorHalfHour(t.value)) else "NaN:30"
  }

  /** `ceilHalfHour` of a number that may be NaN: no comparison holds, so the last branch renders `NaN + 1`. */
  function CeilText(t: Num): string
  {
    if t.Finite? then Render(CeilHalfHour(t.value)) else "NaN:00"
  }

  /** `fixTimeRange(floorHalfHour(start), ceilHalfHour(end))`. */
  function WindowOf(start: Num, end: Num): string
  {
    FixTimeRange(FloorText(start), CeilText(end))
  }

  // ---------------------------------------------------------------------
  // Legs between consecutive positions

  /**
   * Stop `i` can read its leg: the first stop reads nothing, every later
   * stop reads row `i - 1` of both matrices, and a missing row throws.
   */
  predicate Readable(m: MatrixData, i: int)
  {
    i == 0 || (0 <= i - 1 < |m.durations| && i - 1 < |m.distances|)
  }

  /** Every stop before `n` can read its leg. */
  predicate ReadableUpTo(m: MatrixData, n: int)
  {
    forall k :: 0 <= k < n ==> Readable(m, k)
  }

  /** `row[i]` of a row that exists: `undefined` (NaN once used) when missing, 0 when null. */
  function Cell(row: seq<Option<real>>, i: int): Num
  {
    if 0 <= i < |row| then (match row[i] case None => Finite(0.0) case Some(x) => Finite(x))
    else NotFinite
  }

  /** `travelSeconds / 60`: 0 for the first stop, `durations[i - 1][i] / 60` afterwards. */
  function TravelMinutes(m: MatrixData, i: int): Num
    requires 0 <= i && Readable(m, i)
  {
    if i == 0 then Finite(0.0) else Over(Cell(m.durations[i - 1], i), 60.0)
  }

  /** 0 for the first stop, `distances[i - 1][i] / 1000` afterwards. */
  function DistanceKm(m: MatrixData, i: int): Num
    requires 0 <= i && Readable(m, i)
  {
    if i == 0 then Finite(0.0) else Over(Cell(m.distances[i - 1], i), 1000.0)
  }

  // ---------------------------------------------------------------------
  // The clock

  /** One run of the loop: the caller's orders, the matrix and the stored start hour. */
  datatype Calc = Calc(orders: seq<Order>, matrix: MatrixData, startHour: real)

  /** `currentTime` before stop `i`: the start hour, then the unrounded end of the stop before. */
  function ClockAt(c: Calc, i: int): Num
    requires 0 <= i <= |c.orders| && ReadableUpTo(c.matrix, i)
  {
    if i == 0 then Finite(c.startHour)
    else
      var start := Add(Add(ClockAt(c, i - 1), Finite(1.0)), Over(TravelMinutes(c.matrix, i - 1), 60.0));
      Add(start, Finite(ServiceHours(c.orders[i - 1].kind)))
  }

  /** `currentTime + 1 + travelMinutes / 60`. */
  function StartAt(c: Calc, i: int): Num
    requires 0 <= i < |c.orders| && ReadableUpTo(c.matrix, i + 1)
  {
    Add(Add(ClockAt(c, i), Finite(1.0)), Over(TravelMinutes(c.matrix, i), 60.0))
  }

  /** `start + durationHours`: the clock after stop `i`. */
  function EndAt(c: Calc, i: int): Num
    requires 0 <= i < |c.orders| && ReadableUpTo(c.matrix, i + 1)
  {
    Add(StartAt(c, i), Finite(ServiceHours(c.orders[i].kind)))
  }

  function WindowAt(c: Calc, i: int): string
    requires 0 <= i < |c.orders| && ReadableUpTo(c.matrix, i + 1)
  {
    WindowOf(StartAt(c, i), EndAt(c, i))
  }

  /** What the loop computes for one stop. */
  datatype Leg = Leg(travelMinutes: Num, distanceKm: Num, window: string)

  function LegAt(c: Calc, i: int): Leg
    requires 0 <= i < |c.orders| && ReadableUpTo(c.matrix, i + 1)
  {
    Leg(TravelMinutes(c.matrix, i), DistanceKm(c.matrix, i), WindowAt(c, i))
  }

  /** `{ ...o, travelTime, distanceKm, time_range }`. */
  function Spread(o: Order, leg: Leg): Order
  {
    o.(travelTime := Some(leg.travelMinutes), distanceKm := Some(leg.distanceKm), timeRange := Some(leg.window))
  }

  function Entry(c: Calc, i: int): Order
    requires 0 <= i < |c.orders| && ReadableUpTo(c.matrix, i + 1)
  {
    Spread(c.orders[i], LegAt(c, i))
  }

  /** The objects pushed for the first `n` stops. */
  function Entries(c: Calc, n: int): (r: seq<Order>)
    requires 0 <= n <= |c.orders| && ReadableUpTo(c.matrix, n)
    ensures |r| == n
  {
    if n == 0 then [] else Entries(c, n - 1) + [Entry(c, n - 1)]
  }

  /** The `UPDATE`s issued for the first `n` stops, in input order. */
  function Writes(c: Calc, n: int): (r: seq<(int, string)>)
    requires 0 <= n <= |c.orders| && ReadableUpTo(c.matrix, n)
    ensures |r| == n
  {
    if n == 0 then [] else Writes(c, n - 1) + [(c.orders[n - 1].id, WindowAt(c, n - 1))]
  }

  /** Object `k` pushed is stop `k`'s. */
  lemma {:induction false} EntriesAt(c: Calc, n: int, k: int)
    requires 0 <= k < n <= |c.orders| && ReadableUpTo(c.matrix, n)
    ensures Entries(c, n)[k] == Entry(c, k)
  {
    var before, last := Entries(c, n - 1), Entry(c, n - 1);
    assert Entries(c, n) == before + [last];
    if k < n - 1 {
      EntriesAt(c, n - 1, k);
      assert (before + [last])[k] == before[k];
    }
  }

  /** Update `k` writes stop `k`'s window to order `k`'s id. */
  lemma {:induction false} WritesAt(c: Calc, n: int, k: int)
    requires 0 <= k < n <= |c.orders| && ReadableUpTo(c.matrix, n)
    ensures Writes(c, n)[k] == (c.orders[k].id, WindowAt(c, k))
  {
    var before, last := Writes(c, n - 1), (c.orders[n - 1].id, WindowAt(c, n - 1));
    assert Writes(c, n) == before + [last];
    if k < n - 1 {
      WritesAt(c, n - 1, k);
      assert (before + [last])[k] == before[k];
    }
  }

  /** One more stop's `UPDATE` applied to the table. */
  lemma WritesStep(c: Calc, n: int, rows: map<int, Option<string>>)
    requires 0 <= n < |c.orders| && ReadableUpTo(c.matrix, n + 1)
    ensures ApplyWrites(rows, Writes(c, n + 1)) == Written(ApplyWrites(rows, Writes(c, n)), c.orders[n].id, WindowAt(c, n))
  {
    var before, last := Writes(c, n), (c.orders[n].id, WindowAt(c, n));
    assert Writes(c, n + 1) == before + [last];
    assert (before + [last])[..n] == before;
  }

  /** How many stops the loop completes: all of them, or those before the first missing row. */
  function Completed(c: Calc): (n: nat)
    ensures n <= |c.orders| && ReadableUpTo(c.matrix, n)
    ensures n < |c.orders| ==> !Readable(c.matrix, n)
  {
    var rows := if |c.matrix.durations| < |c.matrix.distances| then |c.matrix.durations| else |c.matrix.distances|;
    if |c.orders| <= rows + 1 then |c.orders| else rows + 1
  }

  // ---------------------------------------------------------------------
  // The whole request

  /**
   * The address the failed request reports: the first one in input order
   * that does not geocode. `Promise.all` fails when any geocode does, with
   * whichever failure settles first; the model fixes that choice.
   */
  function FirstUngeocoded(orders: seq<Order>, geocode: string -> Option<seq<Num>>): (r: Option<string>)
    ensures r.None? <==> forall k :: 0 <= k < |orders| ==> geocode(orders[k].address).Some?
    ensures r.Some? ==> exists k :: 0 <= k < |orders| && orders[k].address == r.value && geocode(r.value).None?
  {
    if orders == [] then None
    else if geocode(orders[0].address).None? then Some(orders[0].address)
    else FirstUngeocoded(orders[1..], geocode)
  }

  /** The run the handler sets up, or the error it stops with before writing anything. */
  function Prepare(orders: Option<seq<Order>>, geocode: string -> Option<seq<Num>>, matrix: Option<MatrixData>,
                   setting: Option<real>): Result<Calc, Failure>
  {
    if orders.None? || |orders.value| == 0 then Err(NoOrders)
    else match FirstUngeocoded(orders.value, geocode)
      case Some(a) => Err(GeocodingFailed(a))
      case None =>
        if matrix.None? then Err(ProviderFailed)
        else Ok(Calc(orders.value, matrix.value, StartHour(setting)))
  }

  /** The response: every stop's object, or the error the run ended with. */
  function Response(orders: Option<seq<Order>>, geocode: string -> Option<seq<Num>>, matrix: Option<MatrixData>,
                    setting: Option<real>): Result<seq<Order>, Failure>
  {
    match Prepare(orders, geocode, matrix, setting)
    case Err(e) => Err(e)
    case Ok(c) => if Completed(c) == |c.orders| then Ok(Entries(c, |c.orders|)) else Err(RowMissing)
  }

  /** The `UPDATE`s the handler issues before it answers, in order. */
  function StoreWrites(orders: Option<seq<Order>>, geocode: string -> Option<seq<Num>>, matrix: Option<MatrixData>,
                       setting: Option<real>): seq<(int, string)>
  {
    match Prepare(orders, geocode, matrix, setting)
    case Err(_) => []
    case Ok(c) => Writes(c, Completed(c))
  }

  // ---------------------------------------------------------------------
  // The handler

  /** The leg and the times of stop `i`, from the clock before it. */
  method StopTimes(c: Calc, i: int, currentTime: Num) returns (travelMinutes: Num, distanceKm: Num, start: Num, end: Num)
    requires 0 <= i < |c.orders| && ReadableUpTo(c.matrix, i + 1)
    requires currentTime == ClockAt(c, i)
    ensures travelMinutes == TravelMinutes(c.matrix, i) && distanceKm == DistanceKm(c.matrix, i)
    ensures start == StartAt(c, i) && end == EndAt(c, i)
  {
    assert Readable(c.matrix, i);
    var travelSeconds := if i == 0 then Finite(0.0) else Cell(c.matrix.durations[i - 1], i);
    travelMinutes := Over(travelSeconds, 60.0);
    distanceKm := if i == 0 then Finite(0.0) else Over(Cell(c.matrix.distances[i - 1], i), 1000.0);
    var durationHours := ServiceHours(c.orders[i].kind);
    start := Add(Add(currentTime, Finite(1.0)), Over(travelMinutes, 60.0));
    end := Add(start, Finite(durationHours));
  }

  /**
   * One pass of the loop body after the reads succeeded: stop `i`'s window
   * is written to its order's row and its object is pushed.
   */
  method PlanStop(store: OrderStore, c: Calc, i: int, currentTime: Num, updatedOrders: seq<Order>,
                  ghost rows: map<int, Option<string>>)
    returns (updated: seq<Order>, next: Num)
    requires 0 <= i < |c.orders| && ReadableUpTo(c.matrix, i + 1)
    requires currentTime == ClockAt(c, i) && updatedOrders == Entries(c, i)
    requires store.timeRanges == ApplyWrites(rows, Writes(c, i))
    modifies store
    ensures next == ClockAt(c, i + 1) && updated == Entries(c, i + 1)
    ensures store.timeRanges == ApplyWrites(rows, Writes(c, i + 1))
  {
    var travelMinutes, distanceKm, start, end := StopTimes(c, i, currentTime);
    next := end;
    var startStr := FloorText(start);
    var endStr := CeilText(end);
    var timeRange := FixTimeRange(startStr, endStr);
    assert timeRange == WindowAt(c, i);
    store.SetTimeRange(c.orders[i].id, timeRange);
    WritesStep(c, i, rows);
    var leg := Leg(travelMinutes, distanceKm, timeRange);
    assert leg == LegAt(c, i);
    updated := updatedOrders + [Spread(c.orders[i], leg)];
  }

  /**
   * The schedule loop: one window written and one object pushed per stop,
   * in input order, until a stop finds its matrix row missing.
   */
  method WalkStops(store: OrderStore, c: Calc) returns (res: Result<seq<Order>, Failure>)
    modifies store
    ensures res == (if Completed(c) == |c.orders| then Ok(Entries(c, |c.orders|)) else Err(RowMissing))
    ensures store.timeRanges == ApplyWrites(old(store.timeRanges), Writes(c, Completed(c)))
  {
    ghost var rows := store.timeRanges;
    var currentTime := Finite(c.startHour);
    var updatedOrders := [];
    var i := 0;
    while i < |c.orders|
      invariant 0 <= i <= Completed(c)
      invariant ReadableUpTo(c.matrix, i)
      invariant currentTime == ClockAt(c, i)
      invariant updatedOrders == Entries(c, i)
      invariant store.timeRanges == ApplyWrites(rows, Writes(c, i))
    {
      if !Readable(c.matrix, i) {
        // `matrixData.durations[i - 1]` or `matrixData.distances[i - 1]` is undefined: the read throws.
        assert i == Completed(c) < |c.orders|;
        return Err(RowMissing);
      }
      updatedOrders, currentTime := PlanStop(store, c, i, currentTime, updatedOrders, rows);
      i := i + 1;
    }
    assert i == Completed(c) == |c.orders|;
    return Ok(updatedOrders);
  }

  /** The handler: it checks the input, geocodes every order and walks them in the order given. */
  method Calculate(store: OrderStore, orders: Option<seq<Order>>, geocode: string -> Option<seq<Num>>,
                   matrix: Option<MatrixData>, setting: Option<real>)
    returns (res: Result<seq<Order>, Failure>)
    modifies store
    ensures res == Response(orders, geocode, matrix, setting)
    ensures store.timeRanges == ApplyWrites(old(store.timeRanges), StoreWrites(orders, geocode, matrix, setting))
  {
    if orders.None? || |orders.value| == 0 {
      return Err(NoOrders);
    }
    var failed := FirstUngeocoded(orders.value, geocode);
    if failed.Some? {
      return Err(GeocodingFailed(failed.value));
    }
    if matrix.None? {
      return Err(ProviderFailed);
    }
    var startHour := StartHour(setting);
    res := WalkStops(store, Calc(orders.value, matrix.value, startHour));
  }
}
