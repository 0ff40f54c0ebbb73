/**
 * What the sequential scheduling route promises, stated over the functions
 * of `TravelCalc`: when a request is refused, the running clock with its
 * hour before every stop, how NaN enters and spreads, the windows, the
 * objects answered and the rows written.
 */
module TravelCalcFacts {
  import opened Wrappers
  import opened Orders
  import opened TimeWindow
  import opened TravelCalc

  // ---------------------------------------------------------------------
  // The request

  /**
   * The run starts exactly when there are orders, every address geocodes
   * and the matrix request answered; it walks the orders as sent, and its
   * clock starts at the stored start hour (10 when none) with no warm-up.
   */
  lemma RequestOutcome(orders: Option<seq<Order>>, geocode: string -> Option<seq<Num>>,
                       matrix: Option<MatrixData>, setting: Option<real>)
    ensures var p := Prepare(orders, geocode, matrix, setting);
            p.Ok? <==> && orders.Some? && orders.value != []
                       && (forall k :: 0 <= k < |orders.value| ==> geocode(orders.value[k].address).Some?)
                       && matrix.Some?
    ensures var p := Prepare(orders, geocode, matrix, setting);
            p.Ok? ==> && p.value.orders == orders.value && p.value.matrix == matrix.value
                      && ClockAt(p.value, 0) == Finite(if setting.Some? then setting.value else 10.0)
  {
  }

  /** A missing or empty order list is refused before anything is computed or written. */
  lemma NoOrdersRefused(orders: Option<seq<Order>>, geocode: string -> Option<seq<Num>>,
                        matrix: Option<MatrixData>, setting: Option<real>)
    requires orders.None? || orders.value == []
    ensures Response(orders, geocode, matrix, setting) == Err(NoOrders)
    ensures StoreWrites(orders, geocode, matrix, setting) == []
  {
  }

  /** One address that does not geocode fails the whole request, naming such an address, before any write. */
  lemma UngeocodedRefused(orders: seq<Order>, geocode: string -> Option<seq<Num>>,
                          matrix: Option<MatrixData>, setting: Option<real>, k: int)
    requires 0 <= k < |orders| && geocode(orders[k].address).None?
    ensures var r := Response(Some(orders), geocode, matrix, setting);
            && r.Err? && r.error.GeocodingFailed?
            && (exists j :: 0 <= j < |orders| && orders[j].address == r.error.address)
    ensures StoreWrites(Some(orders), geocode, matrix, setting) == []
  {
  }

  /**
   * Once the run is set up, the rows written are those of the stops the
   * loop completed; the answer is every stop's object when it completed
   * them all, and the missing-row error otherwise. A refused request
   * answers with its error and writes nothing.
   */
  lemma ResponseOfRun(orders: Option<seq<Order>>, geocode: string -> Option<seq<Num>>,
                      matrix: Option<MatrixData>, setting: Option<real>)
    ensures var p := Prepare(orders, geocode, matrix, setting);
            var r := Response(orders, geocode, matrix, setting);
            var writes := StoreWrites(orders, geocode, matrix, setting);
            && (p.Err? ==> r == Err(p.error) && writes == [])
            && (p.Ok? ==> && writes == Writes(p.value, Completed(p.value))
                          && (r.Ok? <==> ReadableUpTo(p.value.matrix, |p.value.orders|))
                          && (r.Ok? ==> r.value == Entries(p.value, |p.value.orders|))
                          && (r.Err? ==> r.error == RowMissing))
  {
    var p := Prepare(orders, geocode, matrix, setting);
    if p.Ok? {
      CompletedAll(p.value);
    }
  }

  /** The loop completes every stop exactly when every stop can read its row. */
  lemma CompletedAll(c: Calc)
    ensures Completed(c) == |c.orders| <==> ReadableUpTo(c.matrix, |c.orders|)
  {
    if Completed(c) < |c.orders| {
      assert !Readable(c.matrix, Completed(c));
    }
  }

  // ---------------------------------------------------------------------
  // The answer and the rows written

  /**
   * The answer keeps the input order and length: object `k` is the `k`-th
   * order as sent, every field kept, with its leg's minutes, kilometres and
   * window laid over it.
   */
  lemma EntriesKeepOrder(c: Calc, k: int)
    requires ReadableUpTo(c.matrix, |c.orders|) && 0 <= k < |c.orders|
    ensures var r := Entries(c, |c.orders|);
            && |r| == |c.orders|
            && r[k].(travelTime := c.orders[k].travelTime, distanceKm := c.orders[k].distanceKm,
                     timeRange := c.orders[k].timeRange) == c.orders[k]
            && r[k].travelTime == Some(TravelMinutes(c.matrix, k))
            && r[k].distanceKm == Some(DistanceKm(c.matrix, k))
            && r[k].timeRange == Some(WindowAt(c, k))
  {
    EntriesAt(c, |c.orders|, k);
  }

  /**
   * The rows written by the first `n` stops: stop `k`'s window goes to
   * order `k`'s own id, in input order; no row appears or disappears, and a
   * row whose id none of them carries is untouched.
   */
  lemma StoreWritesSpec(c: Calc, n: int, rows: map<int, Option<string>>, id: int)
    requires 0 <= n <= |c.orders| && ReadableUpTo(c.matrix, n)
    ensures var writes := Writes(c, n);
            var after := ApplyWrites(rows, writes);
            && (forall k :: 0 <= k < n ==> writes[k] == (c.orders[k].id, WindowAt(c, k)))
            && after.Keys == rows.Keys
            && ((forall k :: 0 <= k < n ==> c.orders[k].id != id) && id in rows ==> after[id] == rows[id])
  {
    var writes := Writes(c, n);
    forall k | 0 <= k < n
      ensures writes[k] == (c.orders[k].id, WindowAt(c, k))
    {
      WritesAt(c, n, k);
    }
    if forall k :: 0 <= k < n ==> c.orders[k].id != id {
      ApplyWritesUntouched(rows, writes, id);
    }
  }

  /** With distinct ids, each order's row ends up holding its own stop's window. */
  lemma StoreHoldsWindow(c: Calc, n: int, rows: map<int, Option<string>>, k: int)
    requires 0 <= k < n <= |c.orders| && ReadableUpTo(c.matrix, n)
    requires DistinctIds(c.orders) && c.orders[k].id in rows
    ensures ApplyWrites(rows, Writes(c, n))[c.orders[k].id] == Some(WindowAt(c, k))
  {
    var writes := Writes(c, n);
    forall l | 0 <= l < n
      ensures writes[l] == (c.orders[l].id, WindowAt(c, l))
    {
      WritesAt(c, n, l);
    }
    ApplyWritesLast(rows, writes, k);
  }

  // ---------------------------------------------------------------------
  // The clock

  /**
   * With non-negative durations, a stop whose start is a number starts at
   * least an hour after the clock before it, ends at least six minutes
   * later, and the clock after it is its unrounded end.
   */
  lemma HourBeforeStop(c: Calc, i: int)
    requires 0 <= i < |c.orders| && ReadableUpTo(c.matrix, i + 1) && NonNegative(c.matrix.durations)
    requires StartAt(c, i).Finite?
    ensures ClockAt(c, i).Finite? && StartAt(c, i).value >= ClockAt(c, i).value + 1.0
    ensures EndAt(c, i).Finite? && EndAt(c, i).value >= StartAt(c, i).value + 0.1
    ensures ClockAt(c, i + 1) == EndAt(c, i)
  {
    assert Readable(c.matrix, i);
    if i > 0 {
      var row := c.matrix.durations[i - 1];
      if 0 <= i < |row| && row[i].Some? {
        assert row[i].value >= 0.0;
      }
    }
  }

  /** So each stop starts at least one hour per stop after any earlier stop ends. */
  lemma {:induction false} ClockMonotone(c: Calc, i: int, j: int)
    requires 0 <= i < j < |c.orders| && ReadableUpTo(c.matrix, j + 1) && NonNegative(c.matrix.durations)
    requires StartAt(c, j).Finite?
    ensures EndAt(c, i).Finite? && StartAt(c, j).value >= EndAt(c, i).value + (j - i) as real
    decreases j - i
  {
    HourBeforeStop(c, j);
    assert ClockAt(c, j) == EndAt(c, j - 1);
    if i < j - 1 {
      HourBeforeStop(c, j - 1);
      ClockMonotone(c, i, j - 1);
    }
  }

  // ---------------------------------------------------------------------
  // NaN

  /** Every matrix entry the first `n` stops read is present (it may be null). */
  predicate CellsPresent(m: MatrixData, n: int)
  {
    forall k :: 1 <= k < n ==> CellPresent(m, k)
  }

  /** Stop `k` finds its row and, in it, the duration entry it reads. */
  predicate CellPresent(m: MatrixData, k: int)
    requires k >= 1
  {
    k - 1 < |m.durations| && k < |m.durations[k - 1]|
  }

  /** When every entry read is present, every clock up to stop `n` is a number. */
  lemma {:induction false} ClockFinite(c: Calc, n: int)
    requires 0 <= n <= |c.orders| && ReadableUpTo(c.matrix, n) && CellsPresent(c.matrix, n)
    ensures ClockAt(c, n).Finite?
  {
    if n > 0 {
      ClockFinite(c, n - 1);
      assert Readable(c.matrix, n - 1);
      if n - 1 >= 1 {
        assert CellPresent(c.matrix, n - 1);
      }
    }
  }

  /** A missing duration entry makes that stop's start NaN. */
  lemma MissingCellIsNaN(c: Calc, i: int)
    requires 1 <= i < |c.orders| && ReadableUpTo(c.matrix, i + 1)
    requires !CellPresent(c.matrix, i)
    ensures StartAt(c, i).NotFinite? && EndAt(c, i).NotFinite? && ClockAt(c, i + 1).NotFinite?
  {
    assert Readable(c.matrix, i);
  }

  /** Once the clock is NaN it stays NaN for every later stop. */
  lemma {:induction false} NaNPersists(c: Calc, i: int, j: int)
    requires 0 <= i <= j <= |c.orders| && ReadableUpTo(c.matrix, j)
    requires ClockAt(c, i).NotFinite?
    ensures ClockAt(c, j).NotFinite?
    decreases j - i
  {
    if i < j {
      assert ClockAt(c, i + 1) == EndAt(c, i);
      NaNPersists(c, i + 1, j);
    }
  }

  /** A NaN start gives the window `NaN:30 - NaN:00`, whose halves still differ. */
  lemma NaNWindow(c: Calc, i: int)
    requires 0 <= i < |c.orders| && ReadableUpTo(c.matrix, i + 1)
    requires StartAt(c, i).NotFinite?
    ensures WindowAt(c, i) == "NaN:30 - NaN:00"
  {
    assert EndAt(c, i).NotFinite?;
    assert FloorText(StartAt(c, i)) != CeilText(EndAt(c, i)) by {
      assert FloorText(StartAt(c, i))[4] != CeilText(EndAt(c, i))[4];
    }
  }

  // ---------------------------------------------------------------------
  // The windows

  /**
   * A stop whose start is a number gets the optimized route's window of
   * its start and end: the floor of the start, then the snapped end or the
   * start plus 30 minutes, later than the start, and of the exact shape
   * `HH:MM - HH:MM` inside hours 0..98.
   */
  lemma StopWindow(c: Calc, i: int)
    requires 0 <= i < |c.orders| && ReadableUpTo(c.matrix, i + 1)
    requires StartAt(c, i).Finite?
    ensures EndAt(c, i).Finite?
    ensures var s, e := StartAt(c, i).value, EndAt(c, i).value;
            && WindowAt(c, i) == Window(s, e)
            && WindowAt(c, i) == Render(FloorHalfHour(s)) + " - " + Render(WindowEnd(s, e))
            && Minutes(FloorHalfHour(s)) < Minutes(WindowEnd(s, e))
            && (0.0 <= s && e < 99.0 ==> IsWindowText(WindowAt(c, i)))
  {
    var s, e := StartAt(c, i).value, EndAt(c, i).value;
    assert e == s + ServiceHours(c.orders[i].kind);
    WindowHalvesDiffer(s, e);
    WindowOrdered(s, e);
    if 0.0 <= s && e < 99.0 {
      WindowShape(s, e);
    }
  }
}
