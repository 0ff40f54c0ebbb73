/**
 * Half-hour snapping and window formatting, the helpers `floorHalfHour`,
 * `ceilHalfHour` and `fixTimeRange`. Both scheduling routes carry identical
 * copies of them; the model states them once.
 *
 * A time is a fractional hour of the day (10.5 is 10:30), modelled as an
 * exact `real`. Both snapping helpers first split `t` into the hour
 * `h = floor(t)` and the minute `m = round((t - h) * 60)`, which lies in
 * 0..60; minute 60 (t = 10.9999, say) is kept as the source has it.
 */
module TimeWindow {
  import opened Wrappers
  import opened JsText

  /** JavaScript's `Math.round`: the nearest integer, halves rounding up. */
  function Round(x: real): (r: int)
    ensures x - 0.5 < r as real <= x + 0.5
  {
    (x + 0.5).Floor
  }

  /** An hour and a minute, before they are written out as `HH:MM`. */
  datatype Clock = Clock(hour: int, minute: int)

  /** Minutes since midnight (hours past 24 are not wrapped). */
  function Minutes(c: Clock): int { 60 * c.hour + c.minute }

  /** `String(n)`, with None standing for NaN. */
  function NumberText(n: Option<int>): string
  {
    match n
    case None => "NaN"
    case Some(v) => IntToString(v)
  }

  /** `String(n).padStart(2, "0")`. */
  function Pad2(n: Option<int>): string
  {
    PadStart(NumberText(n), 2, '0')
  }

  /** The `HH:MM` text of a clock, as the helpers write it. */
  function Render(c: Clock): string
  {
    Pad2(Some(c.hour)) + ":" + Pad2(Some(c.minute))
  }

  /** `Math.floor(t)`. */
  function HourOf(t: real): int { t.Floor }

  /** `Math.round((t - h) * 60)`: the minute within the hour, 60 when it rounds up. */
  function MinuteOf(t: real): (m: int)
    ensures 0 <= m <= 60
  {
    Round((t - HourOf(t) as real) * 60.0)
  }

  /** The clock `floorHalfHour(t)` renders: `h:00` below minute 30, `h:30` from it on. */
  function FloorHalfHour(t: real): Clock
  {
    Clock(HourOf(t), if MinuteOf(t) < 30 then 0 else 30)
  }

  /**
   * The clock `ceilHalfHour(t)` renders: the minute unchanged on 0 and 30,
   * `h:30` below 30, `h+1:00` above it.
   */
  function CeilHalfHour(t: real): Clock
  {
    var h, m := HourOf(t), MinuteOf(t);
    if m == 0 || m == 30 then Clock(h, m)
    else if m < 30 then Clock(h, 30)
    else Clock(h + 1, 0)
  }

  /** NaN-propagating `x + k`. */
  function AddNum(x: Option<int>, k: int): Option<int>
  {
    match x
    case None => None
    case Some(v) => Some(v + k)
  }

  /** `const [h, m] = s.split(":").map(Number)`; a missing piece reads as NaN. */
  function ClockFields(s: string): (Option<int>, Option<int>)
  {
    var parts := Split(s, ':');
    (NumberOf(parts[0]), if |parts| >= 2 then NumberOf(parts[1]) else None)
  }

  /** The end `fixTimeRange` writes for a degenerate window starting at `h:m`. */
  function WidenedText(h: Option<int>, m: Option<int>): string
  {
    var (h', m') := WidenedFields(h, m);
    Pad2(h') + ":" + Pad2(m')
  }

  /** `newH = h; newM = m + 30; if (newM >= 60) { newH += 1; newM -= 60; }` */
  function WidenedFields(h: Option<int>, m: Option<int>): (Option<int>, Option<int>)
  {
    var newM := AddNum(m, 30);
    if newM.Some? && newM.value >= 60 then (AddNum(h, 1), AddNum(newM, -60)) else (h, newM)
  }

  /**
   * `fixTimeRange(start, end)`: `"start - end"`, except that equal halves
   * get an end 30 minutes after the start, read back from `start`; the
   * minute carries into the hour and the hour does not wrap at 24.
   */
  function FixTimeRange(start: string, end: string): string
  {
    if start == end then
      var (h, m) := ClockFields(start);
      start + " - " + WidenedText(h, m)
    else
      start + " - " + end
  }

  /** The window a stop from `startT` to `endT` is given. */
  function Window(startT: real, endT: real): string
  {
    FixTimeRange(Render(FloorHalfHour(startT)), Render(CeilHalfHour(endT)))
  }

  /** A clock 30 minutes later, the way `fixTimeRange` carries the minute. */
  function Widen(c: Clock): (w: Clock)
    ensures Minutes(w) == Minutes(c) + 30
    ensures 0 <= c.minute < 60 ==> 0 <= w.minute < 60
  {
    if c.minute + 30 >= 60 then Clock(c.hour + 1, c.minute + 30 - 60)
    else Clock(c.hour, c.minute + 30)
  }

  /** The end clock of a window: the snapped end, widened from the start when the two coincide. */
  function WindowEnd(startT: real, endT: real): Clock
  {
    var a, b := FloorHalfHour(startT), CeilHalfHour(endT);
    if a == b then Widen(a) else b
  }

  // ---------------------------------------------------------------------
  // Snapping

  lemma FloorShift(x: real, n: int)
    ensures (x + n as real).Floor == x.Floor + n
  {
  }

  /** Hour and minute together are `t` rounded to the minute. */
  lemma RoundedMinutes(t: real)
    ensures 60 * HourOf(t) + MinuteOf(t) == Round(60.0 * t)
  {
    var h := HourOf(t);
    var y := (t - h as real) * 60.0 + 0.5;
    assert 60.0 * t + 0.5 == y + (60 * h) as real;
    FloorShift(y, 60 * h);
  }

  /**
   * `floorHalfHour(t)` keeps the hour of `t` and snaps the rounded minute
   * down to 0 or 30. The result is never after `t` rounded to the minute,
   * and at most 30 minutes before it, exactly 30 only when the minute
   * rounded up to 60. Against the exact time this means at most half a
   * minute after `t` and less than 30 minutes before it.
   */
  lemma FloorHalfHourBounds(t: real)
    ensures FloorHalfHour(t).hour == HourOf(t)
    ensures FloorHalfHour(t).minute == (if MinuteOf(t) < 30 then 0 else 30)
    ensures Minutes(FloorHalfHour(t)) <= Round(60.0 * t) <= Minutes(FloorHalfHour(t)) + 30
    ensures Round(60.0 * t) == Minutes(FloorHalfHour(t)) + 30 <==> MinuteOf(t) == 60
    ensures Minutes(FloorHalfHour(t)) as real <= 60.0 * t + 0.5
    ensures 60.0 * t < Minutes(FloorHalfHour(t)) as real + 30.0
  {
    RoundedMinutes(t);
    var h := HourOf(t);
    assert h as real <= t < h as real + 1.0;
  }

  /**
   * `ceilHalfHour(t)` is the first half-hour boundary at or after `t`
   * rounded to the minute: unchanged exactly when the rounded minute is on
   * a boundary. Against the exact time it is at most half a minute before
   * `t` and less than 30 minutes after it.
   */
  lemma CeilHalfHourBounds(t: real)
    ensures CeilHalfHour(t).minute == 0 || CeilHalfHour(t).minute == 30
    ensures Round(60.0 * t) <= Minutes(CeilHalfHour(t)) < Round(60.0 * t) + 30
    ensures Minutes(CeilHalfHour(t)) == Round(60.0 * t) <==> Round(60.0 * t) % 30 == 0
    ensures MinuteOf(t) == 0 || MinuteOf(t) == 30 ==> CeilHalfHour(t) == Clock(HourOf(t), MinuteOf(t))
    ensures 60.0 * t - 0.5 < Minutes(CeilHalfHour(t)) as real < 60.0 * t + 30.0
  {
    RoundedMinutes(t);
    var h := HourOf(t);
    assert h as real <= t < h as real + 1.0;
    var m := MinuteOf(t);
    assert (60 * h + m) % 30 == m % 30;
  }

  lemma RoundMonotone(x: real, y: real)
    requires x <= y
    ensures Round(x) <= Round(y)
  {
  }

  /** Later times never snap to an earlier start. */
  lemma FloorHalfHourMonotone(t1: real, t2: real)
    requires t1 <= t2
    ensures Minutes(FloorHalfHour(t1)) <= Minutes(FloorHalfHour(t2))
  {
    FloorHalfHourBounds(t1);
    FloorHalfHourBounds(t2);
    RoundMonotone(60.0 * t1, 60.0 * t2);
    if HourOf(t1) == HourOf(t2) {
      RoundedMinutes(t1);
      RoundedMinutes(t2);
    }
  }

  lemma CeilOnBoundary(t: real)
    ensures Minutes(CeilHalfHour(t)) == 30 * (2 * CeilHalfHour(t).hour + CeilHalfHour(t).minute / 30)
  {
  }

  /** Later times never snap to an earlier end. */
  lemma CeilHalfHourMonotone(t1: real, t2: real)
    requires t1 <= t2
    ensures Minutes(CeilHalfHour(t1)) <= Minutes(CeilHalfHour(t2))
  {
    CeilHalfHourBounds(t1);
    CeilHalfHourBounds(t2);
    RoundMonotone(60.0 * t1, 60.0 * t2);
    CeilOnBoundary(t1);
    CeilOnBoundary(t2);
    var c1, c2 := CeilHalfHour(t1), CeilHalfHour(t2);
    HalfHoursOrdered(2 * c1.hour + c1.minute / 30, 2 * c2.hour + c2.minute / 30, Round(60.0 * t1), Round(60.0 * t2));
  }

  /** The first half-hour mark at or after `r1` is not after any mark at or after `r2 >= r1`. */
  lemma HalfHoursOrdered(a: int, b: int, r1: int, r2: int)
    requires r1 <= r2 && 30 * a < r1 + 30 && r2 <= 30 * b
    ensures 30 * a <= 30 * b
  {
  }

  /** A start snapped down is never after an end, at or after it, snapped up. */
  lemma FloorBeforeCeil(t1: real, t2: real)
    requires t1 <= t2
    ensures Minutes(FloorHalfHour(t1)) <= Minutes(CeilHalfHour(t2))
  {
    FloorHalfHourBounds(t1);
    CeilHalfHourBounds(t2);
    RoundMonotone(60.0 * t1, 60.0 * t2);
  }

  /** The minute-60 edge: 10.9999 h rounds to 10:60, which snaps to 10:30 and 11:00. */
  lemma MinuteSixtyEdge()
    ensures MinuteOf(10.9999) == 60
    ensures FloorHalfHour(10.9999) == Clock(10, 30)
    ensures CeilHalfHour(10.9999) == Clock(11, 0)
  {
  }

  // ---------------------------------------------------------------------
  // Formatting

  /** `HH:MM`: two digits, a colon, two digits. */
  predicate IsClockText(s: string)
  {
    |s| == 5 && IsDigit(s[0]) && IsDigit(s[1]) && s[2] == ':' && IsDigit(s[3]) && IsDigit(s[4])
  }

  /** `HH:MM - HH:MM`. */
  predicate IsWindowText(w: string)
  {
    |w| == 13 && IsClockText(w[..5]) && w[5..8] == " - " && IsClockText(w[8..])
  }

  lemma Pad2Digits(n: int)
    requires 0 <= n < 100
    ensures |Pad2(Some(n))| == 2 && IsDigit(Pad2(Some(n))[0]) && IsDigit(Pad2(Some(n))[1])
  {
    var d := NatToString(n);
    NatToStringSpec(n);
    assert Pad2(Some(n)) == PadStart(d, 2, '0');
    var z := PaddedDigits(d);
    var p := z + d;
    assert |p| == 2;
    assert IsDigit(p[0]) by { if |z| > 0 { assert p[0] == z[0]; } else { assert p[0] == d[0]; } }
    assert IsDigit(p[1]) by { assert p[1] == d[1 - |z|]; }
  }

  lemma ClockTextOf(p: string, q: string)
    requires |p| == 2 && IsDigit(p[0]) && IsDigit(p[1])
    requires |q| == 2 && IsDigit(q[0]) && IsDigit(q[1])
    ensures IsClockText(p + ":" + q)
  {
  }

  /** A clock of hour 0..99 and minute 0..59 renders as `HH:MM`. */
  lemma RenderShape(c: Clock)
    requires 0 <= c.hour < 100 && 0 <= c.minute < 60
    ensures IsClockText(Render(c))
  {
    Pad2Digits(c.hour);
    Pad2Digits(c.minute);
    ClockTextOf(Pad2(Some(c.hour)), Pad2(Some(c.minute)));
  }

  lemma IntTextNoColon(n: int)
    ensures ':' !in IntToString(n)
  {
    var d := NatToString(if n < 0 then -n else n);
    NatToStringSpec(if n < 0 then -n else n);
    assert forall i :: 0 <= i < |d| ==> IsDigit(d[i]);
    if n < 0 {
      var t := "-" + d;
      assert IntToString(n) == t;
      forall i | 0 <= i < |t| ensures t[i] != ':' {
        if i > 0 { assert t[i] == d[i - 1]; }
      }
    }
  }

  lemma Pad2NoColon(n: int)
    ensures ':' !in Pad2(Some(n))
  {
    var s := IntToString(n);
    IntTextNoColon(n);
    var p := PadStart(s, 2, '0');
    PadStartSpec(s, 2, '0');
    assert Pad2(Some(n)) == p;
    forall i | 0 <= i < |p| ensures p[i] != ':' {
      if i >= |p| - |s| {
        assert p[i] == p[|p| - |s|..][i - (|p| - |s|)];
      }
    }
  }

  lemma SplitRender(c: Clock)
    ensures Split(Render(c), ':') == [Pad2(Some(c.hour)), Pad2(Some(c.minute))]
  {
    var a, b := Pad2(Some(c.hour)), Pad2(Some(c.minute));
    Pad2NoColon(c.hour);
    Pad2NoColon(c.minute);
    assert Render(c) == a + [':'] + b;
    SplitAtSeparator(a, ':', b);
    SplitPlain(b, ':');
  }

  /** `split(":").map(Number)` reads a rendered clock back exactly. */
  lemma ParseRender(c: Clock)
    ensures var parts := Split(Render(c), ':');
            |parts| == 2 && NumberOf(parts[0]) == Some(c.hour) && NumberOf(parts[1]) == Some(c.minute)
  {
    SplitRender(c);
    NumberOfPadded(c.hour);
    NumberOfPadded(c.minute);
  }

  /** Two clocks render alike only when they are the same clock. */
  lemma RenderInjective(a: Clock, b: Clock)
    ensures Render(a) == Render(b) <==> a == b
  {
    if Render(a) == Render(b) {
      ParseRender(a);
      ParseRender(b);
    }
  }

  lemma FixTimeRangeOfFields(s: string, h: int, m: int)
    requires ClockFields(s) == (Some(h), Some(m))
    ensures FixTimeRange(s, s) == s + " - " + WidenedText(Some(h), Some(m))
  {
  }

  lemma ClockFieldsOfRender(a: Clock)
    ensures ClockFields(Render(a)) == (Some(a.hour), Some(a.minute))
  {
    ParseRender(a);
  }

  lemma WidenedFieldsOfClock(a: Clock)
    ensures WidenedFields(Some(a.hour), Some(a.minute)) == (Some(Widen(a).hour), Some(Widen(a).minute))
  {
  }

  lemma WidenedTextOfFields(h: Option<int>, m: Option<int>, w: Clock)
    requires WidenedFields(h, m) == (Some(w.hour), Some(w.minute))
    ensures WidenedText(h, m) == Render(w)
  {
  }

  lemma WidenedTextOfClock(a: Clock)
    ensures WidenedText(Some(a.hour), Some(a.minute)) == Render(Widen(a))
  {
    WidenedFieldsOfClock(a);
    WidenedTextOfFields(Some(a.hour), Some(a.minute), Widen(a));
  }

  lemma FixTimeRangeEqual(a: Clock)
    ensures FixTimeRange(Render(a), Render(a)) == Render(a) + " - " + Render(Widen(a))
  {
    ClockFieldsOfRender(a);
    WidenedTextOfClock(a);
    FixTimeRangeOfFields(Render(a), a.hour, a.minute);
  }

  /**
   * On rendered clocks `fixTimeRange` writes the start, `" - "` and the end,
   * and replaces an end equal to the start by the start plus 30 minutes.
   */
  lemma FixTimeRangeOfClocks(a: Clock, b: Clock)
    ensures FixTimeRange(Render(a), Render(b)) == Render(a) + " - " + Render(if a == b then Widen(a) else b)
  {
    RenderInjective(a, b);
    if a == b {
      FixTimeRangeEqual(a);
    }
  }

  /**
   * Every window is `floor(start) - end'`, where `end'` is the snapped end,
   * or the start plus 30 minutes when the two snap to the same clock.
   */
  lemma WindowText(startT: real, endT: real)
    ensures Window(startT, endT) == Render(FloorHalfHour(startT)) + " - " + Render(WindowEnd(startT, endT))
  {
    FixTimeRangeOfClocks(FloorHalfHour(startT), CeilHalfHour(endT));
  }

  /**
   * For a stop that does not end before it starts, the window's end is
   * strictly after its start, and both lie on half-hour boundaries.
   */
  lemma WindowOrdered(startT: real, endT: real)
    requires startT <= endT
    ensures Minutes(FloorHalfHour(startT)) < Minutes(WindowEnd(startT, endT))
    ensures WindowEnd(startT, endT).minute == 0 || WindowEnd(startT, endT).minute == 30
  {
    FloorBeforeCeil(startT, endT);
    CeilHalfHourBounds(endT);
  }

  /** So the two halves of such a window always differ. */
  lemma WindowHalvesDiffer(startT: real, endT: real)
    requires startT <= endT
    ensures Window(startT, endT) == Render(FloorHalfHour(startT)) + " - " + Render(WindowEnd(startT, endT))
    ensures Render(FloorHalfHour(startT)) != Render(WindowEnd(startT, endT))
  {
    WindowText(startT, endT);
    WindowOrdered(startT, endT);
    RenderInjective(FloorHalfHour(startT), WindowEnd(startT, endT));
  }

  /**
   * The window covers the exact stop, up to the half minute that rounding
   * to the minute can cost at each end.
   */
  lemma WindowCovers(startT: real, endT: real)
    requires startT <= endT
    ensures Minutes(FloorHalfHour(startT)) as real <= 60.0 * startT + 0.5
    ensures 60.0 * endT - 0.5 < Minutes(WindowEnd(startT, endT)) as real
  {
    FloorHalfHourBounds(startT);
    CeilHalfHourBounds(endT);
    FloorBeforeCeil(startT, endT);
  }

  lemma WindowTextOf(x: string, y: string)
    requires IsClockText(x) && IsClockText(y)
    ensures IsWindowText(x + " - " + y)
  {
    var w := x + " - " + y;
    assert w[..5] == x;
    assert w[5..8] == " - ";
    assert w[8..] == y;
  }

  /** A stop inside hours 0..98 gets a window of the exact shape `HH:MM - HH:MM`. */
  lemma WindowShape(startT: real, endT: real)
    requires 0.0 <= startT <= endT < 99.0
    ensures IsWindowText(Window(startT, endT))
  {
    WindowText(startT, endT);
    WindowOrdered(startT, endT);
    var a, e := FloorHalfHour(startT), WindowEnd(startT, endT);
    FloorHalfHourBounds(startT);
    CeilHalfHourBounds(endT);
    assert 0 <= a.hour < 100 && 0 <= a.minute < 60;
    RenderShape(a);
    assert 0 <= e.hour < 100 && 0 <= e.minute < 60;
    RenderShape(e);
    WindowTextOf(Render(a), Render(e));
  }
}
