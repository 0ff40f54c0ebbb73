/**
 * The handful of JavaScript string primitives the routes rely on:
 * `String(n)` for integers, `padStart`, `split` and `join` with a
 * one-character separator, and `Number(s)` on decimal digit strings.
 */
module JsText {
  import opened Wrappers

  predicate IsDigit(c: char) { '0' <= c <= '9' }

  predicate AllDigits(s: string) { forall i :: 0 <= i < |s| ==> IsDigit(s[i]) }

  function DigitChar(d: nat): (c: char)
    requires d < 10
    ensures IsDigit(c) && c as int - '0' as int == d
  {
    ('0' as int + d) as char
  }

  /** The value of a decimal digit string; leading zeros add nothing. */
  function DigitsValue(s: string): nat
    requires AllDigits(s)
  {
    if s == [] then 0 else DigitsValue(s[..|s| - 1]) * 10 + (s[|s| - 1] as int - '0' as int)
  }

  /** `String(n)` for a non-negative integer: its decimal digits, without leading zeros. */
  function NatToString(n: nat): string
  {
    if n < 10 then [DigitChar(n)] else NatToString(n / 10) + [DigitChar(n % 10)]
  }

  /** `String(n)` is a non-empty digit string, one digit below 10 and at most two below 100, with no leading zero. */
  lemma {:induction false} NatToStringSpec(n: nat)
    ensures var s := NatToString(n);
            && 1 <= |s| && AllDigits(s)
            && (|s| == 1 <==> n < 10)
            && (n < 100 ==> |s| <= 2)
            && (s[0] == '0' ==> n == 0)
  {
    if n >= 10 {
      NatToStringSpec(n / 10);
      var p := NatToString(n / 10);
      assert NatToString(n)[0] == p[0];
    }
  }

  /** Reading back the digits `String(n)` writes gives `n`. */
  lemma {:induction false} NatToStringRoundTrip(n: nat)
    ensures AllDigits(NatToString(n)) && DigitsValue(NatToString(n)) == n
  {
    NatToStringSpec(n);
    if n >= 10 {
      var p := NatToString(n / 10);
      var s := NatToString(n);
      assert s[..|s| - 1] == p;
      NatToStringRoundTrip(n / 10);
    }
  }

  /** `String(n)` for any integer: a minus sign before the digits of a negative number. */
  function IntToString(n: int): string
  {
    if n < 0 then "-" + NatToString(-n) else NatToString(n)
  }

  /** `s.padStart(width, fill)` for a one-character `fill`. */
  function PadStart(s: string, width: nat, fill: char): string
    decreases width - |s|
  {
    if |s| < width then PadStart([fill] + s, width, fill) else s
  }

  /** The padded text is `width` long at least, ends with `s` and has only `fill` before it. */
  lemma {:induction false} PadStartSpec(s: string, width: nat, fill: char)
    ensures var r := PadStart(s, width, fill);
            && |r| == (if |s| < width then width else |s|)
            && r[|r| - |s|..] == s
            && forall i :: 0 <= i < |r| - |s| ==> r[i] == fill
    decreases width - |s|
  {
    if |s| < width {
      PadStartSpec([fill] + s, width, fill);
      var r := PadStart(s, width, fill);
      assert r[|r| - |s| - 1..] == [fill] + s;
      assert r[|r| - |s|..] == ([fill] + s)[1..];
    }
  }

  lemma {:induction false} ZerosValue(z: string)
    requires forall i :: 0 <= i < |z| ==> z[i] == '0'
    ensures AllDigits(z) && DigitsValue(z) == 0
  {
    if z != [] {
      ZerosValue(z[..|z| - 1]);
    }
  }

  /** Zeros in front of a digit string leave its value unchanged. */
  lemma {:induction false} LeadingZerosValue(z: string, s: string)
    requires forall i :: 0 <= i < |z| ==> z[i] == '0'
    requires AllDigits(s)
    ensures AllDigits(z + s) && DigitsValue(z + s) == DigitsValue(s)
    decreases |s|
  {
    if s == [] {
      assert z + s == z;
      ZerosValue(z);
    } else {
      var zs := z + s;
      assert zs[..|zs| - 1] == z + s[..|s| - 1];
      LeadingZerosValue(z, s[..|s| - 1]);
    }
  }

  /** `s.split(sep)`: the pieces between the separators, in order. */
  function Split(s: string, sep: char): (parts: seq<string>)
    ensures |parts| >= 1
    ensures forall k :: 0 <= k < |parts| ==> sep !in parts[k]
  {
    if s == [] then [""]
    else
      var rest := Split(s[1..], sep);
      if s[0] == sep then [""] + rest else [[s[0]] + rest[0]] + rest[1..]
  }

  /** `parts.join(sep)`. */
  function Join(parts: seq<string>, sep: char): string
  {
    if |parts| == 0 then ""
    else if |parts| == 1 then parts[0]
    else parts[0] + [sep] + Join(parts[1..], sep)
  }

  lemma {:induction false} SplitPlain(a: string, sep: char)
    requires sep !in a
    ensures Split(a, sep) == [a]
  {
    if a != [] {
      SplitPlain(a[1..], sep);
      assert a[0] != sep;
      assert [a[0]] + a[1..] == a;
    }
  }

  lemma {:induction false} SplitAtSeparator(a: string, sep: char, b: string)
    requires sep !in a
    ensures Split(a + [sep] + b, sep) == [a] + Split(b, sep)
  {
    if a == [] {
      assert a + [sep] + b == [sep] + b;
      assert ([sep] + b)[1..] == b;
    } else {
      var s := a + [sep] + b;
      assert s[1..] == a[1..] + [sep] + b;
      SplitAtSeparator(a[1..], sep, b);
      assert [a[0]] + a[1..] == a;
    }
  }

  /** Splitting a joined list gives the list back when no piece contains the separator. */
  lemma {:induction false} SplitJoin(parts: seq<string>, sep: char)
    requires |parts| >= 1
    requires forall k :: 0 <= k < |parts| ==> sep !in parts[k]
    ensures Split(Join(parts, sep), sep) == parts
  {
    if |parts| == 1 {
      SplitPlain(parts[0], sep);
    } else {
      SplitJoin(parts[1..], sep);
      SplitAtSeparator(parts[0], sep, Join(parts[1..], sep));
      assert [parts[0]] + parts[1..] == parts;
    }
  }

  /**
   * `Number(s)` on an optionally signed decimal digit string; None stands
   * for NaN, what every other string in this model converts to.
   */
  function NumberOf(s: string): Option<int>
  {
    if |s| >= 2 && s[0] == '-' && AllDigits(s[1..]) then Some(0 - DigitsValue(s[1..]) as int)
    else if |s| >= 1 && AllDigits(s) then Some(DigitsValue(s) as int)
    else None
  }

  lemma NumberOfNegative(n: int)
    requires n < 0
    ensures NumberOf(PadStart(IntToString(n), 2, '0')) == Some(n)
  {
    var d := NatToString(-n);
    NatToStringSpec(-n);
    var p := "-" + d;
    assert IntToString(n) == p;
    assert PadStart(p, 2, '0') == p;
    assert p[1..] == d;
    NatToStringRoundTrip(-n);
  }

  lemma NumberOfDigits(p: string)
    requires |p| >= 1 && AllDigits(p)
    ensures NumberOf(p) == Some(DigitsValue(p) as int)
  {
    assert p[0] != '-';
  }

  lemma PaddedDigits(d: string) returns (z: string)
    requires AllDigits(d)
    ensures PadStart(d, 2, '0') == z + d
    ensures forall i :: 0 <= i < |z| ==> z[i] == '0'
  {
    var p := PadStart(d, 2, '0');
    PadStartSpec(d, 2, '0');
    z := p[..|p| - |d|];
    assert p == z + d;
  }

  lemma NumberOfNonNegative(n: nat)
    ensures NumberOf(PadStart(IntToString(n), 2, '0')) == Some(n)
  {
    var d := NatToString(n);
    NatToStringSpec(n);
    assert IntToString(n) == d;
    var z := PaddedDigits(d);
    LeadingZerosValue(z, d);
    NatToStringRoundTrip(n);
    NumberOfDigits(z + d);
  }

  /** `Number(String(n).padStart(2, "0"))` is `n` again. */
  lemma NumberOfPadded(n: int)
    ensures NumberOf(PadStart(IntToString(n), 2, '0')) == Some(n)
  {
    if n < 0 {
      NumberOfNegative(n);
    } else {
      NumberOfNonNegative(n);
    }
  }
}
