/**
 * What both scheduling routes share: the order object a client posts, the
 * matrix responses, and the `time_range` column of the orders table that
 * each route rewrites one row at a time.
 */
module Orders {
  import opened Wrappers

  /** A slot that JSON or arithmetic fills: a finite number, or NaN/null/a missing element. */
  datatype Num = Finite(value: real) | NotFinite

  /**
   * An order object as the client posts it and as the routes return it.
   * `kind` is the `type` field; every field after `kind` may be absent.
   */
  datatype Order = Order(
    id: int,
    address: string,
    kind: string,
    clientName: Option<string>,
    phoneNumber: Option<string>,
    timeRange: Option<string>,
    description: Option<string>,
    completed: Option<bool>,
    completedAt: Option<string>,
    photoUrls: Option<seq<string>>,
    coords: Option<seq<Num>>,
    travelTime: Option<Num>,
    distanceKm: Option<Num>)

  /** No id occurs twice. */
  predicate DistinctIds(s: seq<Order>)
  {
    forall i, j :: 0 <= i < j < |s| ==> s[i].id != s[j].id
  }

  /** `start_hour ?? 10`. */
  const DefaultStartHour: real := 10.0

  /** `settings.rows[0]?.start_hour ?? 10`: the stored start hour, 10 when there is no settings row. */
  function StartHour(setting: Option<real>): real
  {
    match setting
    case None => DefaultStartHour
    case Some(h) => h
  }

  /** A `durations` or `distances` matrix of the routing provider; a null entry is None. */
  type Matrix = seq<seq<Option<real>>>

  /** The matrix response: durations in seconds and distances in metres between locations. */
  datatype MatrixData = MatrixData(durations: Matrix, distances: Matrix)

  /** `m?.[i]?.[j] ?? 0`: a missing row, a missing entry and null all read as 0. */
  function EntryOrZero(m: Matrix, i: int, j: int): real
  {
    if 0 <= i < |m| && 0 <= j < |m[i]| && m[i][j].Some? then m[i][j].value else 0.0
  }

  /** No entry of the matrix is negative (durations and distances never are). */
  predicate NonNegative(m: Matrix)
  {
    forall i, j :: 0 <= i < |m| && 0 <= j < |m[i]| && m[i][j].Some? ==> m[i][j].value >= 0.0
  }

  /** The rows after `UPDATE orders SET time_range = w WHERE id = id`. */
  function Written(rows: map<int, Option<string>>, id: int, w: string): (r: map<int, Option<string>>)
    ensures r.Keys == rows.Keys
    ensures id in rows ==> r[id] == Some(w)
    ensures forall k :: k in rows && k != id ==> r[k] == rows[k]
  {
    if id in rows then rows[id := Some(w)] else rows
  }

  /** A sequence of such updates, issued in order: no row appears or disappears. */
  function ApplyWrites(rows: map<int, Option<string>>, writes: seq<(int, string)>): (r: map<int, Option<string>>)
    ensures r.Keys == rows.Keys
  {
    if writes == [] then rows
    else
      var last := writes[|writes| - 1];
      Written(ApplyWrites(rows, writes[..|writes| - 1]), last.0, last.1)
  }

  /** A row whose id is never written keeps its value. */
  lemma {:induction false} ApplyWritesUntouched(rows: map<int, Option<string>>, writes: seq<(int, string)>, k: int)
    requires forall j :: 0 <= j < |writes| ==> writes[j].0 != k
    ensures k in rows ==> ApplyWrites(rows, writes)[k] == rows[k]
  {
    if writes != [] {
      ApplyWritesUntouched(rows, writes[..|writes| - 1], k);
    }
  }

  /** An existing row ends up with the last window written to its id. */
  lemma {:induction false} ApplyWritesLast(rows: map<int, Option<string>>, writes: seq<(int, string)>, j: int)
    requires 0 <= j < |writes| && writes[j].0 in rows
    requires forall l :: j < l < |writes| ==> writes[l].0 != writes[j].0
    ensures ApplyWrites(rows, writes)[writes[j].0] == Some(writes[j].1)
  {
    if j < |writes| - 1 {
      ApplyWritesLast(rows, writes[..|writes| - 1], j);
    }
  }

  /** The orders table a scheduling run writes to, reduced to each row's `time_range`. */
  class OrderStore {
    var timeRanges: map<int, Option<string>>

    constructor (rows: map<int, Option<string>>)
      ensures timeRanges == rows
    {
      timeRanges := rows;
    }

    /** `UPDATE orders SET time_range = w WHERE id = id`: a missing id changes nothing. */
    method SetTimeRange(id: int, w: string)
      modifies this
      ensures timeRanges == Written(old(timeRanges), id, w)
    {
      if id in timeRanges {
        timeRanges := timeRanges[id := Some(w)];
      }
    }
  }
}
