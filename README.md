# Delivery scheduler of the driver app, in Dafny

This project models the scheduling core of a small delivery-dispatch web
application, together with its ZIP export of orders. An administrator posts a
list of orders (client, address, service type). The scheduler gives every
order a delivery time window `"HH:MM - HH:MM"` and writes that window into
the `time_range` column of the orders table.

The model covers three route handlers:

- **`POST /api/travel-optimize`** (`OptimizeRoute`, facts in `OptimizeFacts`).
  - It geocodes the warehouse and every order, and keeps only the orders that
    geocode.
  - It takes the visiting order from the optimizer's `job` steps. When the
    optimizer found no route, it sorts the orders by address instead. Unknown
    ids are dropped.
  - It numbers the matrix locations, with the warehouse as location 0.
  - It walks the stops with a running clock that starts at
    `startHour + 0.5`. It writes one window per stop and merges each result
    onto the caller's own object, with a fallback for malformed coordinates.
- **`POST /api/travel-calc`** (`TravelCalc`, facts in `TravelCalcFacts`).
  - It keeps the caller's order and reads each leg from the matrix entry
    `[i-1][i]`.
  - It adds a full hour before every stop, using its own table of service
    times.
  - It follows JavaScript where the matrix can push the arithmetic out of
    the reals: a missing entry gives NaN, a null entry gives 0, and a missing
    row throws.
- **`GET /api/export-transports`** (`Sanitizing`, `ExportTransports`, facts
  in `ExportFacts`).
  - `sanitize` has NFD normalisation as a parameter, followed by its four
    regular-expression passes.
  - Each order gets a numbered folder named after the client, an `info.txt`
    and files `photo_N.jpg`. The archive is a class whose folders and files
    the handler fills.

The half-hour helpers `floorHalfHour`, `ceilHalfHour` and `fixTimeRange` are
textually identical in both scheduling routes, so `TimeWindow` states them
once. Times are exact `real` fractional hours, and `Math.round(x)` is
`floor(x + 0.5)`. The helpers are modelled on the text they produce:
`String(n)`, `padStart`, `split(":")` and `Number` come from `JsText`.
`Orders` holds the shared order object, the matrices and the orders table.
That table is an `OrderStore` object whose `time_range` map each `UPDATE`
rewrites one row at a time.

The geocoder, the optimizer and matrix responses, the settings row, the
collation of `localeCompare`, NFD, `toLocaleString`, the photo downloads and
the clock are parameters.

Where the code departs from what it evidently intends, the model follows the
code:

- `OptimizeRoute.Optimize` numbers the matrix locations as the code does,
  along `validOrders` after the fallback's in-place sort, while `coords`
  stays in geocoding order. With no route this can report another order's
  coordinates and read the wrong matrix entries; see "## Findings". The
  numbering in geocoding order is the separate `OptimizeRoute.CorrectedWalk`,
  and `OptimizeFacts.StopLocations` is proved about it. With a route, no sort
  happens and the two numberings agree (`OptimizeFacts.RoutedStopLocations`).

- `floorHalfHour`/`ceilHalfHour` snap `t` rounded to the minute, not `t`
  itself. So a start can snap to half a minute after `t`, and an end to half
  a minute before it. `TimeWindow.FloorHalfHourBounds` and
  `TimeWindow.CeilHalfHourBounds` state the exact bounds.
- An order whose address does not geocode is absent from the optimized
  route's answer. It is not merged back.
- A missing matrix duration counts as 0 seconds in the optimized route. In
  the sequential route it makes the times NaN. It is never replaced by the
  service duration.
- The sequential route fails the whole request when any address fails to
  geocode (`Promise.all`).
- The two routes keep their own service-time tables and clock offsets.

## Model

| member | source | states |
|---|---|---|
| `TimeWindow.Round` | app/api/travel-optimize/route.ts:77 | `Math.round` gives an integer within half a unit of its argument (halves round up) |
| `TimeWindow.MinuteOf` | app/api/travel-optimize/route.ts:76-77 | the rounded minute of a time lies in 0..60; 60 is possible |
| `TimeWindow.FloorHalfHourBounds` | app/api/travel-optimize/route.ts:75-80 | `floorHalfHour` keeps `floor(t)` as hour and gives minute 00 below a rounded minute of 30, else 30; never after `t` rounded to the minute and at most 30 minutes before it, exactly 30 only when the minute rounded to 60; at most half a minute after the exact `t` and less than 30 minutes before it |
| `TimeWindow.CeilHalfHourBounds` | app/api/travel-optimize/route.ts:82-89 | `ceilHalfHour` lands on a half hour; it is unchanged exactly when the rounded minute is 0 or 30, and otherwise is the next boundary less than 30 minutes later (carrying to `h+1:00` above minute 30) |
| `TimeWindow.FloorHalfHourMonotone` | app/api/travel-optimize/route.ts:75-80 | a later time never snaps down to an earlier clock |
| `TimeWindow.CeilHalfHourMonotone` | app/api/travel-optimize/route.ts:82-89 | a later time never snaps up to an earlier clock |
| `TimeWindow.FloorBeforeCeil` | app/api/travel-optimize/route.ts:75-89 | for `t1 <= t2`, `floorHalfHour(t1)` is no later than `ceilHalfHour(t2)` |
| `TimeWindow.MinuteSixtyEdge` | app/api/travel-optimize/route.ts:76-88 | 10.9999 h has rounded minute 60, floors to 10:30 and ceils to 11:00 |
| `TimeWindow.RenderShape` | app/api/travel-optimize/route.ts:78-79 | a clock with hour 0..99 and minute 0..59 is written as exactly `HH:MM` |
| `TimeWindow.ParseRender` | app/api/travel-optimize/route.ts:93 | `split(":").map(Number)` reads the hour and the minute of a written clock back exactly |
| `TimeWindow.RenderInjective` | app/api/travel-optimize/route.ts:92 | two written clocks are equal strings exactly when they are the same clock |
| `TimeWindow.Widen` | app/api/travel-optimize/route.ts:94-99 | adding 30 minutes with the carry into the hour gives a clock 30 minutes later whose minute stays in 0..59; no wrap at 24 |
| `TimeWindow.FixTimeRangeEqual` | app/api/travel-optimize/route.ts:92-102 | `fixTimeRange(s, s)` is `s - ` followed by `s` plus 30 minutes |
| `TimeWindow.FixTimeRangeOfClocks` | app/api/travel-optimize/route.ts:91-105 | on written clocks `fixTimeRange` gives `start - end`, with an end equal to the start replaced by the start plus 30 minutes |
| `TimeWindow.WindowText` | app/api/travel-optimize/route.ts:268-270 | a stop's window is its floored start, ` - `, and its ceiled end or, when the two coincide, the start plus 30 minutes |
| `TimeWindow.WindowOrdered` | app/api/travel-optimize/route.ts:268-270 | for a stop that does not end before it starts, the window's end is strictly after its start and on a half hour |
| `TimeWindow.WindowHalvesDiffer` | app/api/travel-optimize/route.ts:91-105 | the two halves of every such window are different strings |
| `TimeWindow.WindowCovers` | app/api/travel-optimize/route.ts:268-270 | the window starts no later than half a minute after the stop starts and ends later than half a minute before the stop ends |
| `TimeWindow.WindowShape` | app/api/travel-optimize/route.ts:268-270 | a stop inside hours 0..98 gets a window of the exact shape `HH:MM - HH:MM` |
| `JsText.NatToStringSpec` | app/api/travel-optimize/route.ts:78 | `String(n)` is a non-empty digit string without a leading zero, one digit exactly below 10 |
| `JsText.NatToStringRoundTrip` | app/api/travel-optimize/route.ts:93 | reading back the digits `String(n)` writes gives `n` |
| `JsText.PadStartSpec` | app/api/travel-optimize/route.ts:78 | `padStart` gives at least the width, ends with the text and has only the fill character before it |
| `JsText.Split` | app/api/travel-optimize/route.ts:93 | `split` gives at least one piece and no piece holds the separator |
| `JsText.SplitJoin` | app/api/export-transports/route.ts:38 | splitting joined lines gives the lines back when none holds the separator |
| `JsText.NumberOfPadded` | app/api/travel-optimize/route.ts:100-102 | `Number(String(n).padStart(2, "0"))` is `n` for every integer, negative ones included |
| `Orders.Written` | app/api/travel-optimize/route.ts:272-276 | an `UPDATE` of one id sets that row's window if the row exists and changes no other row and no key |
| `Orders.OrderStore.SetTimeRange` | app/api/travel-calc/route.ts:119-123 | the store's rows after the update are `Written` of the rows before |
| `Orders.ApplyWrites` | app/api/travel-calc/route.ts:119-123 | a sequence of updates never adds or removes a row |
| `Orders.ApplyWritesUntouched` | app/api/travel-calc/route.ts:119-123 | a row whose id no update names keeps its value |
| `Orders.ApplyWritesLast` | app/api/travel-optimize/route.ts:272-276 | an existing row ends with the window of the last update naming it |
| `TravelCalc.Message` | app/api/travel-calc/route.ts:20-21 | the error text names the failing address after `Nie znaleziono współrzędnych dla adresu: `; no orders gives `Brak zleceń` (line 66); a failed fetch or a missing row, and only those, carry the runtime's own text |
| `TravelCalc.ServiceHours` | app/api/travel-calc/route.ts:103-108 | service time is 0.1 h exactly for `Transport`, 0.6 h exactly for `Transport + wniesienie`, 2 h otherwise |
| `TravelCalc.Entries` | app/api/travel-calc/route.ts:125-130 | one object is pushed per completed stop |
| `TravelCalc.EntriesAt` | app/api/travel-calc/route.ts:125-130 | object `k` pushed is stop `k`'s order with its leg and window |
| `TravelCalc.Writes` | app/api/travel-calc/route.ts:119-123 | one update is issued per completed stop |
| `TravelCalc.WritesAt` | app/api/travel-calc/route.ts:119-123 | update `k` writes stop `k`'s window to order `k`'s id |
| `TravelCalc.Completed` | app/api/travel-calc/route.ts:96-101 | the loop completes every stop, or stops at the first stop whose matrix row is missing |
| `TravelCalc.FirstUngeocoded` | app/api/travel-calc/route.ts:69-71 | no address is reported exactly when every address geocodes; a reported one is an order's address that does not geocode |
| `TravelCalc.StopTimes` | app/api/travel-calc/route.ts:98-111 | the leg's minutes and kilometres and the stop's start and end are those of the walk's definition |
| `TravelCalc.PlanStop` | app/api/travel-calc/route.ts:96-131 | one loop pass advances the clock to the stop's end, pushes its object and writes its window |
| `TravelCalc.WalkStops` | app/api/travel-calc/route.ts:92-131 | the loop answers every stop's object in input order, or the missing-row error, and the store holds exactly the updates of the completed stops |
| `TravelCalc.Calculate` | app/api/travel-calc/route.ts:61-137 | the handler's answer and the store's final rows are the request's response and updates |
| `TravelCalcFacts.RequestOutcome` | app/api/travel-calc/route.ts:64-93 | the run starts exactly when there are orders, every address geocodes and the matrix answered; it keeps the caller's orders and its clock starts at the stored start hour (10 by default) with no warm-up |
| `TravelCalcFacts.NoOrdersRefused` | app/api/travel-calc/route.ts:65-66 | a missing or empty list answers `Brak zleceń` and writes nothing |
| `TravelCalcFacts.UngeocodedRefused` | app/api/travel-calc/route.ts:69-71 | one address that does not geocode fails the request, naming such an address, with nothing written |
| `TravelCalcFacts.ResponseOfRun` | app/api/travel-calc/route.ts:96-137 | a refused request writes nothing; otherwise the updates are those of the completed stops and the answer is every stop's object exactly when every stop found its row |
| `TravelCalcFacts.CompletedAll` | app/api/travel-calc/route.ts:96-101 | the loop completes every stop exactly when every stop can read its row |
| `TravelCalcFacts.EntriesKeepOrder` | app/api/travel-calc/route.ts:125-130 | the answer has the input's length and order; object `k` is input `k` with all its fields, with travel time, distance and window laid over it |
| `TravelCalcFacts.StoreWritesSpec` | app/api/travel-calc/route.ts:119-123 | stop `k`'s window goes to order `k`'s id in input order; no row appears or disappears; a row no order names is untouched |
| `TravelCalcFacts.StoreHoldsWindow` | app/api/travel-calc/route.ts:119-123 | with distinct ids each order's row ends holding its own window |
| `TravelCalcFacts.HourBeforeStop` | app/api/travel-calc/route.ts:110-112 | with non-negative durations each stop starts at least one hour after the clock before it, lasts at least six minutes, and the clock becomes its unrounded end |
| `TravelCalcFacts.ClockMonotone` | app/api/travel-calc/route.ts:96-112 | stop `j` starts at least `j - i` hours after stop `i` ends |
| `TravelCalcFacts.ClockFinite` | app/api/travel-calc/route.ts:98-99 | when every matrix entry read is present (even null), every clock is a number |
| `TravelCalcFacts.MissingCellIsNaN` | app/api/travel-calc/route.ts:98-111 | a missing duration entry makes that stop's start, end and the next clock NaN |
| `TravelCalcFacts.NaNPersists` | app/api/travel-calc/route.ts:110-112 | once the clock is NaN it stays NaN |
| `TravelCalcFacts.NaNWindow` | app/api/travel-calc/route.ts:114-116 | a NaN start gives the window `NaN:30 - NaN:00` |
| `TravelCalcFacts.StopWindow` | app/api/travel-calc/route.ts:114-116 | a stop with a numeric start gets the shared helpers' window: floored start, later end, halves different, `HH:MM - HH:MM` inside hours 0..98 |
| `OptimizeRoute.Message` | app/api/travel-optimize/route.ts:52 | the error text names the failing address after `Nie znaleziono współrzędnych: `; no orders gives `Brak zleceń` (line 129), no geocoded order `Brak poprawnych adresów do optymalizacji` (line 150); a provider failure, and only that, carries the runtime's own text |
| `OptimizeRoute.ServiceHours` | app/api/travel-optimize/route.ts:257-262 | service time is 0.5 h exactly for `Transport`, 1 h exactly for `Transport + wniesienie`, 1.7 h otherwise |
| `OptimizeRoute.GeocodedSpec` | app/api/travel-optimize/route.ts:139-147 | `validOrders` holds exactly the orders that geocode and `coords[k]` is the position of `validOrders[k]` |
| `OptimizeRoute.IndexById` | app/api/travel-optimize/route.ts:136-137 | every input id is in `inputById` and maps to an input order with that id |
| `OptimizeRoute.IndexByIdLast` | app/api/travel-optimize/route.ts:136-137 | an id maps to the last input order carrying it |
| `OptimizeRoute.MatrixIndexSpec` | app/api/travel-optimize/route.ts:231-234 | every id gets a location in `1..n` whose order carries that id |
| `OptimizeRoute.MatrixIndexOfDistinct` | app/api/travel-optimize/route.ts:231-234 | with distinct ids order `k` gets location `k + 1` |
| `OptimizeRoute.SortByAddressSpec` | app/api/travel-optimize/route.ts:193-197 | the fallback order is sorted by address under the collation and is a permutation of the geocoded orders |
| `OptimizeRoute.JobIds` | app/api/travel-optimize/route.ts:200-203 | the job ids are no more than the steps |
| `OptimizeRoute.JobIdsOfStep` | app/api/travel-optimize/route.ts:202-203 | a job step contributes its own id, any other step nothing |
| `OptimizeRoute.JobIdsAppend` | app/api/travel-optimize/route.ts:200-203 | filter-then-map keeps the steps' order: the ids of `a + b` are the ids of `a` followed by those of `b` |
| `OptimizeRoute.JobIdsMembers` | app/api/travel-optimize/route.ts:200-203 | an id is among the job ids exactly when some job step carries it |
| `OptimizeRoute.FindById` | app/api/travel-optimize/route.ts:206 | `find` gives an order of the list with the id, and nothing exactly when no order has it |
| `OptimizeRoute.FindByIdFirst` | app/api/travel-optimize/route.ts:206 | the order `find` gives is the first with the id: no earlier order carries it |
| `OptimizeRoute.Resolve` | app/api/travel-optimize/route.ts:205-207 | the visiting order holds only known orders, at most one per id |
| `OptimizeRoute.ResolveAllKnown` | app/api/travel-optimize/route.ts:205-207 | when every id is known there is one stop per id, in the optimizer's order |
| `OptimizeRoute.ResolveSkipsUnknown` | app/api/travel-optimize/route.ts:205-207 | nothing is dropped exactly when every id is known |
| `OptimizeRoute.ResolveOwnIds` | app/api/travel-optimize/route.ts:200-207 | resolving a list's own ids gives the list back |
| `OptimizeRoute.GeocodedDistinct` | app/api/travel-optimize/route.ts:139-147 | filtering keeps ids distinct |
| `OptimizeRoute.Entries` | app/api/travel-optimize/route.ts:281-290 | one object per stop |
| `OptimizeRoute.Writes` | app/api/travel-optimize/route.ts:272-276 | one update per stop |
| `OptimizeRoute.ValidatedAll` | app/api/travel-optimize/route.ts:294-307 | the validation keeps the number of objects |
| `OptimizeRoute.Prepare` | app/api/travel-optimize/route.ts:231-243 | a prepared walk gives every stop a location `toIndex` in `1..coords.length` under `idToMatrixIndex` as written, so `coords[toIndex - 1]` always names a position |
| `OptimizeRoute.MakeWalkWellFormed` | app/api/travel-optimize/route.ts:193-243 | both the numbering as written (along the list after the fallback sort) and the numbering in geocoding order give every stop a location that names one of the coordinates |
| `OptimizeRoute.IndexInputs` | app/api/travel-optimize/route.ts:136-137 | the loop builds `inputById` |
| `OptimizeRoute.GeocodeOrders` | app/api/travel-optimize/route.ts:139-147 | the geocoding loop fills `validOrders` and `coords` with the orders that geocode and their positions |
| `OptimizeRoute.NumberLocations` | app/api/travel-optimize/route.ts:231-234 | the numbering loop builds `idToMatrixIndex` from the list it is given, `validOrders` as it stands at that point; its locations are those `MatrixIndexSpec` states |
| `OptimizeRoute.StopTimes` | app/api/travel-optimize/route.ts:240-266 | the leg's minutes and kilometres and the stop's start and end are those of the walk's definition, and the end is the next clock |
| `OptimizeRoute.PlanStop` | app/api/travel-optimize/route.ts:239-290 | one loop pass gives the stop's window, its merged object and the next clock |
| `OptimizeRoute.WalkStops` | app/api/travel-optimize/route.ts:236-291 | the loop pushes every stop's object in visiting order and the store holds exactly the stops' updates |
| `OptimizeRoute.Optimize` | app/api/travel-optimize/route.ts:124-318 | the handler, with the numbering as written, answers exactly the request's response and leaves the store holding the request's updates; the response and updates are characterised by `OptimizeFacts.RequestOutcome`, `AnsweredStop`, `StoredStop` and `StoreWritesSpec` |
| `OptimizeFacts.ClockStart` | app/api/travel-optimize/route.ts:236 | the clock starts half an hour after the stored start hour, 10:30 when none is stored |
| `OptimizeFacts.ClockChain` | app/api/travel-optimize/route.ts:264-266 | each stop starts after the clock, lasts its service time, the clock becomes its unrounded end, and the next stop starts no earlier |
| `OptimizeFacts.ClockMonotone` | app/api/travel-optimize/route.ts:239-266 | stop `j` starts at least half an hour per intervening stop after stop `i` ends |
| `OptimizeFacts.StopWindow` | app/api/travel-optimize/route.ts:268-270 | every stop's window has a floored start, a later end, and the `HH:MM - HH:MM` shape inside hours 0..98 |
| `OptimizeFacts.WalkNumbering` | app/api/travel-optimize/route.ts:193-234 | in the walk as written, with distinct ids, order `k` of the list as numbered (sorted by address when there are no routes) gets location `k + 1`, `coords[k]` is the position of geocoded order `k`, and only geocoded orders are visited |
| `OptimizeFacts.CorrectedNumbering` | app/api/travel-optimize/route.ts:139-147 | in the walk numbered in geocoding order, geocoded order `k` gets location `k + 1`, the index of its own position in `coords`, and only geocoded orders are visited |
| `OptimizeFacts.LegLocations` | app/api/travel-optimize/route.ts:241-243 | the first leg leaves location 0, every later leg leaves the previous stop's location, and a stop's location is its own geocoded position |
| `OptimizeFacts.StopIsGeocoded` | app/api/travel-optimize/route.ts:205-207 | every visited order is a geocoded order |
| `OptimizeFacts.StopLocations` | app/api/travel-optimize/route.ts:278 | in the walk numbered in geocoding order, the coordinates reported for every stop are its own address's position |
| `OptimizeFacts.RoutedStopLocations` | app/api/travel-optimize/route.ts:189-278 | in the walk as written, when the optimizer returned a route (no sort), the coordinates reported for every stop are its own address's position |
| `OptimizeFacts.SortedNumberingMisplacesStops` | app/api/travel-optimize/route.ts:193-278 | orders `[1 at "b", 2 at "a"]` and no route: as written, order 2 is visited first with location 1, which holds order 1's position; numbered in geocoding order it gets location 2, its own |
| `OptimizeFacts.FallbackVisitsSorted` | app/api/travel-optimize/route.ts:189-207 | with no routes the stops are the geocoded orders sorted by address, a permutation of them |
| `OptimizeFacts.OptimizedVisitsJobs` | app/api/travel-optimize/route.ts:200-207 | with steps and known job ids the stops follow the job steps exactly |
| `OptimizeFacts.StepsMissingKeepsOrder` | app/api/travel-optimize/route.ts:200-203 | a route without steps keeps the geocoded orders in posting order |
| `OptimizeFacts.NoOrdersRefused` | app/api/travel-optimize/route.ts:128-129 | a missing or empty list answers `Brak zleceń` and writes nothing |
| `OptimizeFacts.NoValidOrdersRefused` | app/api/travel-optimize/route.ts:149-150 | when no order geocodes the request fails and writes nothing |
| `OptimizeFacts.RequestOutcome` | app/api/travel-optimize/route.ts:127-236 | the walk runs exactly when there are orders, the warehouse geocodes, some order geocodes and both provider calls answered; every order it visits is one of the caller's orders whose address geocodes |
| `OptimizeFacts.AnsweredStop` | app/api/travel-optimize/route.ts:236-307 | a run walk answers one object per stop, in visiting order; object `k` carries stop `k`'s id, its window and its travel minutes, and its coordinates are `coords[toIndex - 1]` swapped when they are two finite numbers or the caller sent none, the caller's otherwise |
| `OptimizeFacts.StoredStop` | app/api/travel-optimize/route.ts:239-276 | a run walk issues one update per stop, in visiting order; update `k` writes stop `k`'s window to its id |
| `OptimizeFacts.EntryFields` | app/api/travel-optimize/route.ts:278-307 | object `k` is the caller's object with the stop's id, address, type, travel time, distance and window laid over it; its coordinates are `coords[toIndex - 1]` swapped, replaced by the caller's array only when they are not two finite numbers and the caller sent one; all other fields kept |
| `OptimizeFacts.MergedFields` | app/api/travel-optimize/route.ts:280-307 | the spread of one stop and its validation, field by field, for any caller's object, leg and coordinate pair |
| `OptimizeFacts.OriginalIsCallers` | app/api/travel-optimize/route.ts:280 | the caller's object for an id sent once is that object |
| `OptimizeFacts.StoreWritesSpec` | app/api/travel-optimize/route.ts:272-276 | the updates are the visited ids in visiting order with their windows; no row appears or disappears; unvisited rows are untouched |
| `OptimizeFacts.StoreHoldsWindow` | app/api/travel-optimize/route.ts:272-276 | each visited row ends holding its own window when no stop repeats |
| `OptimizeFacts.VisitedDistinct` | app/api/travel-optimize/route.ts:200-207 | distinct input ids and non-repeating job ids give no repeated stop |
| `OptimizeFacts.ResolveDistinct` | app/api/travel-optimize/route.ts:205-207 | resolving ids that never repeat gives stops whose ids never repeat, each among the ids |
| `Sanitizing.Keep` | app/api/export-transports/route.ts:77-78 | a deleting pass keeps only characters of its class, each from its input |
| `Sanitizing.KeepCounts` | app/api/export-transports/route.ts:77-78 | a deleting pass removes exactly the characters outside its class and keeps every other character as often as before |
| `Sanitizing.KeepAppend` | app/api/export-transports/route.ts:77-78 | a deleting pass keeps the surviving characters in order |
| `Sanitizing.KeepAll` | app/api/export-transports/route.ts:77-78 | a pass whose class holds every character changes nothing |
| `Sanitizing.Filtered` | app/api/export-transports/route.ts:76-78 | after the two deleting passes no U+0300–U+036F mark is left and only `[\w\s-]` remains |
| `Sanitizing.TrimStart` | app/api/export-transports/route.ts:79 | dropping leading white space leaves a suffix that does not start with white space |
| `Sanitizing.TrimEnd` | app/api/export-transports/route.ts:79 | dropping trailing white space leaves a prefix that does not end with white space |
| `Sanitizing.Trim` | app/api/export-transports/route.ts:79 | the trimmed text neither starts nor ends with white space |
| `Sanitizing.TrimInside` | app/api/export-transports/route.ts:79 | `trim` only keeps characters of its input |
| `Sanitizing.TrimPadding` | app/api/export-transports/route.ts:79 | `trim` drops exactly the white space at both ends |
| `Sanitizing.CollapseSpacesSpec` | app/api/export-transports/route.ts:80 | the result has no white space and only underscores or characters of its input |
| `Sanitizing.CollapseNoSpace` | app/api/export-transports/route.ts:80 | a text without white space goes through unchanged |
| `Sanitizing.CollapseAppend` | app/api/export-transports/route.ts:80 | collapsing splits over a boundary that is not preceded by white space |
| `Sanitizing.CollapseRun` | app/api/export-transports/route.ts:80 | each maximal white-space run becomes exactly one `_` |
| `Sanitizing.Sanitize` | app/api/export-transports/route.ts:74-81 | `sanitize` gives only `[A-Za-z0-9_-]` |
| `Sanitizing.SanitizeIdempotent` | app/api/export-transports/route.ts:74-81 | `sanitize` leaves its own output unchanged when NFD leaves plain ASCII alone |
| `Sanitizing.SanitizeSafe` | app/api/export-transports/route.ts:74-81 | text of only `[A-Za-z0-9_-]` that NFD leaves alone goes through `sanitize` unchanged |
| `ExportTransports.Message` | app/api/export-transports/route.ts:14 | an empty table answers `Brak zleceń do eksportu.`; a failed export `Błąd eksportu ZIP.` (line 70) |
| `ExportTransports.Status` | app/api/export-transports/route.ts:14 | an empty table answers status 404; a failed export status 500 (line 70) |
| `ExportTransports.SelectedSpec` | app/api/export-transports/route.ts:11 | the query answers every row exactly once, in ascending id order |
| `ExportTransports.FolderNumber` | app/api/export-transports/route.ts:20 | the folder number has at least two digits |
| `ExportTransports.FolderName` | app/api/export-transports/route.ts:20-22 | a folder name is safe `[A-Za-z0-9_-]` text without `/` |
| `ExportTransports.PhotoName` | app/api/export-transports/route.ts:49 | a photo name starts with `photo_` and is never `info.txt` |
| `ExportTransports.NonEmpty` | app/api/export-transports/route.ts:37 | `.filter(Boolean)` leaves no empty line |
| `ExportTransports.PhotoWrites` | app/api/export-transports/route.ts:44-49 | the photo files all go into the order's folder and none is named `info.txt` |
| `ExportTransports.RowWrites` | app/api/export-transports/route.ts:40-49 | everything an order writes goes into its own folder |
| `ExportTransports.FolderNames` | app/api/export-transports/route.ts:19-22 | there is one folder name per order |
| `ExportTransports.Archive.Folder` | app/api/export-transports/route.ts:24 | creating a folder adds it and changes no file |
| `ExportTransports.Archive.File` | app/api/export-transports/route.ts:40 | writing a file sets its path's content and changes no folder |
| `ExportTransports.AddPhotos` | app/api/export-transports/route.ts:43-54 | the photo loop writes each downloaded photo under its 1-based name and skips failed downloads |
| `ExportTransports.AddOrder` | app/api/export-transports/route.ts:24-54 | one order adds its folder, its `info.txt` and its downloaded photos |
| `ExportTransports.AddNumbered` | app/api/export-transports/route.ts:19-55 | one pass of the order loop adds the numbered folder of that order on top of the earlier ones |
| `ExportTransports.AddOrders` | app/api/export-transports/route.ts:19-55 | the order loop builds every order's folder, in order, into the empty archive |
| `ExportTransports.Export` | app/api/export-transports/route.ts:9-72 | a failed query answers the 500 error, an empty table the 404 error, and otherwise the export of the rows in ascending id order |
| `ExportFacts.FolderPosition` | app/api/export-transports/route.ts:20-22 | a folder name before its first `_` is the 1-based position, zero-padded to at least two digits |
| `ExportFacts.FolderNamesDistinct` | app/api/export-transports/route.ts:19-22 | orders at different positions never share a folder |
| `ExportFacts.PhotoPosition` | app/api/export-transports/route.ts:49 | a photo name is `photo_`, then digits reading back as the photo's 1-based position `i + 1`, then `.jpg` |
| `ExportFacts.PhotoNamesDistinct` | app/api/export-transports/route.ts:49 | different photo positions give different names |
| `ExportFacts.AttachmentDate` | app/api/export-transports/route.ts:59-65 | the download is named `transporty_<date>.zip` after the date part of the instant |
| `ExportFacts.InfoLinesKept` | app/api/export-transports/route.ts:27-37 | the first seven lines are always kept, and the completion-time line is kept exactly when there is a completion time |
| `ExportFacts.InfoTextSplit` | app/api/export-transports/route.ts:27-38 | `info.txt` splits into seven lines, eight with a completion time, each the line of its field |
| `ExportFacts.InfoTextLines` | app/api/export-transports/route.ts:27-38 | `info.txt` read back line by line gives each field, `Brak` for a missing or empty description, `Tak`/`Nie` for completion, and the completion time exactly when there is one |
| `ExportFacts.PhotosBuilt` | app/api/export-transports/route.ts:44-53 | photo `j` is written exactly when its download succeeded, with the downloaded bytes |
| `ExportFacts.PhotoStep` | app/api/export-transports/route.ts:44-53 | one photo pass adds the photo under its 1-based name exactly when its download succeeded and leaves the archive as it was otherwise |
| `ExportFacts.FolderNamesSeparate` | app/api/export-transports/route.ts:19-22 | the folder names are distinct and free of `/` |
| `ExportFacts.FolderEmptyBefore` | app/api/export-transports/route.ts:19-55 | before an order is reached its folder is empty |
| `ExportFacts.FolderKeptAfter` | app/api/export-transports/route.ts:19-55 | later orders leave an earlier order's folder alone |
| `ExportFacts.LaterWrites` | app/api/export-transports/route.ts:19-55 | the writes of later orders follow those of earlier ones, each into the folder of one of the later orders |
| `ExportFacts.OrderStep` | app/api/export-transports/route.ts:40-53 | an order's step leaves its `info.txt` and exactly its downloaded photos in its folder |
| `ExportFacts.FolderPerOrder` | app/api/export-transports/route.ts:19-24 | the archive has one folder per order |
| `ExportFacts.ExportedOrder` | app/api/export-transports/route.ts:19-55 | the download holds each order's `info.txt` in its numbered folder, and photo `j` exactly when it exists and downloaded |
| `ExportFacts.ExportedFolders` | app/api/export-transports/route.ts:19-65 | the download has exactly the orders' folders, one per order, and is named after the date |

## Left out

- Network calls are inputs, not modelled: `getCoords`, the optimization
  `fetch` and the matrix `fetch`.
  - The geocoder is a function from address to coordinates or failure. The
    region check and the retry with ", Siedlce"
    (app/api/travel-optimize/route.ts:57-67) happen inside it.
  - The optimizer and the matrix responses are `Option` values, None when
    the request failed.
  - The job list sent to the optimizer (app/api/travel-optimize/route.ts:157-184)
    is not modelled. The optimizer's answer is taken as given, whatever it
    was asked.
- SQL is reduced to what the core reads and writes.
  - `initDb` is not modelled.
  - The settings query is an `Option<real>` start hour.
  - The `UPDATE` statements are `OrderStore.SetTimeRange`.
  - The export's `SELECT` is an insertion sort by id over the table's rows,
    or None when the query fails.
- Error messages of runtime exceptions (a failed fetch, a missing matrix
  row) are not modelled. The model records only that such a request fails.
- The JSON envelope (`ok`, `warehouse`, console logging) is not modelled.
  The responses are the `updated` list or the error.
- `localeCompare(..., "pl", {sensitivity: "base"})` is a comparator
  parameter that is assumed to be a total preorder.
- TravelCalc.Calculate: when several addresses fail to geocode, the model
  reports the first failing one in input order (`TravelCalc.FirstUngeocoded`).
  `Promise.all` (app/api/travel-calc/route.ts:69-71) rejects with whichever
  failing geocode settles first, which depends on network timing and is not
  modelled.
- OptimizeRoute.SortByAddressSpec: states sorted and a permutation, not the
  stability of `Array.prototype.sort`.
- `String.normalize("NFD")` is a parameter.
- `new Date(completed_at).toLocaleString("pl-PL")` is a parameter over the
  stored instant.
- `new Date().toISOString()` is the `now` parameter.
- The ZIP encoding (`generateAsync`) is not modelled. The archive is its set
  of folders and its files by path.
- `zip.folder` never returns null for a name, so the `continue` at
  app/api/export-transports/route.ts:25 is not modelled.
- A photo download is a function that is None when the fetch or reading its
  body throws.
- Fractional hours are exact reals. IEEE-754 rounding in `(t - h) * 60` is
  not modelled.
- `Number(s)` is modelled only on optionally signed digit strings, and every
  other string reads as NaN. Only written clocks reach it.
- TimeWindow.WindowShape: the `HH:MM - HH:MM` shape is proved only for stops
  inside hours 0..98. Negative hours, and hours of 100 and more, write
  differently.
- TravelCalcFacts.StopWindow: states the window only for a stop whose start
  is a number. NaN starts are covered by `TravelCalcFacts.NaNWindow`.
- The UI pages and components, the order CRUD routes, the upload route, the
  geocode and travel-time routes, and `lib/db.ts` are not part of this model.
- The client-side `time_range` sort of app/page.tsx is not part of this model.

## Findings

| source | as written | input that shows it | evidently intended | confidence | as-written member | corrected member |
|---|---|---|---|---|---|---|
| app/api/travel-optimize/route.ts:193-234 | When the optimizer finds no route, `validOrders` is sorted in place but `coords` is not. `idToMatrixIndex` is then numbered along the sorted list, so a stop's matrix location and `coords[toIndex - 1]` belong to a different order. | orders `[1 at "b", 2 at "a"]`, no routes: order 2 is visited first and numbered location 1, which holds order 1's coordinates | each order keeps the location of its own coordinates (numbering in geocoding order, `OptimizeRoute.CorrectedWalk`); the handler `OptimizeRoute.Optimize` keeps the code as written | high; not executed | `OptimizeFacts.SortedNumberingMisplacesStops` | `OptimizeFacts.StopLocations` |
