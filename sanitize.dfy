/**
 * The `sanitize` helper of the ZIP export, which turns a client name into
 * a folder-name fragment: NFD normalisation, then four regular-expression
 * passes. The regular expressions carry no `u` flag, so `\w` is ASCII
 * `[A-Za-z0-9_]`, while `\s` and `trim` use JavaScript's whitespace set.
 * NFD itself is a library call and is a parameter here.
 */
module Sanitizing {

  /** `\w` without the `u` flag. */
  predicate IsWordChar(c: char)
  {
    'A' <= c <= 'Z' || 'a' <= c <= 'z' || '0' <= c <= '9' || c == '_'
  }

  /** `\s`, which is also what `trim` removes: JavaScript's white space and line terminators. */
  predicate IsSpace(c: char)
  {
    || c == '\t' || c == '\n' || c == '\U{B}' || c == '\U{C}' || c == '\r' || c == ' '
    || c == '\U{A0}' || c == '\U{1680}' || ('\U{2000}' <= c <= '\U{200A}')
    || c == '\U{2028}' || c == '\U{2029}' || c == '\U{202F}' || c == '\U{205F}'
    || c == '\U{3000}' || c == '\U{FEFF}'
  }

  /** U+0300 to U+036F: the combining diacritical marks NFD splits off accented letters. */
  predicate IsCombiningMark(c: char)
  {
    '\U{300}' <= c <= '\U{36F}'
  }

  predicate NotMark(c: char)
  {
    !IsCombiningMark(c)
  }

  /** `[\w\s-]`: what the second pass keeps. */
  predicate IsKept(c: char)
  {
    IsWordChar(c) || IsSpace(c) || c == '-'
  }

  /** `[A-Za-z0-9_-]`: the characters a sanitized name is made of. */
  predicate IsSafe(c: char)
  {
    IsWordChar(c) || c == '-'
  }

  predicate AllSafe(s: string)
  {
    forall i :: 0 <= i < |s| ==> IsSafe(s[i])
  }

  predicate NoSpace(s: string)
  {
    forall i :: 0 <= i < |s| ==> !IsSpace(s[i])
  }

  predicate AllSpace(s: string)
  {
    forall i :: 0 <= i < |s| ==> IsSpace(s[i])
  }

  /**
   * `s.replace(/[^…]/g, "")` for a character class `p`: every character
   * outside `p` is deleted and the others stay, each as often as before.
   */
  function Keep(s: string, p: char -> bool): (r: string)
    ensures forall i :: 0 <= i < |r| ==> p(r[i]) && r[i] in s
  {
    if s == [] then []
    else (if p(s[0]) then [s[0]] else []) + Keep(s[1..], p)
  }

  /** Leading white space dropped: what is left is a suffix that does not start with white space. */
  function TrimStart(s: string): (r: string)
    ensures |r| <= |s| && r == s[|s| - |r|..]
    ensures AllSpace(s[..|s| - |r|])
    ensures r == [] || !IsSpace(r[0])
  {
    if s != [] && IsSpace(s[0]) then TrimStart(s[1..]) else s
  }

  /** Trailing white space dropped: what is left is a prefix that does not end with white space. */
  function TrimEnd(s: string): (r: string)
    ensures |r| <= |s| && r == s[..|r|]
    ensures AllSpace(s[|r|..])
    ensures r == [] || !IsSpace(r[|r| - 1])
  {
    if s != [] && IsSpace(s[|s| - 1]) then TrimEnd(s[..|s| - 1]) else s
  }

  /** `s.trim()`. */
  function Trim(s: string): (r: string)
    ensures r == [] || (!IsSpace(r[0]) && !IsSpace(r[|r| - 1]))
  {
    var t := TrimStart(s);
    assert TrimEnd(t) == [] || TrimEnd(t)[0] == t[0];
    TrimEnd(t)
  }

  /** What `trim` leaves is a piece of its input. */
  lemma TrimInside(s: string)
    ensures forall i :: 0 <= i < |Trim(s)| ==> Trim(s)[i] in s
  {
    var t := TrimStart(s);
    var r := Trim(s);
    PieceOf(s, t, |s| - |t|);
    PieceOf(t, r, 0);
  }

  /** A slice of a text holds only characters of that text. */
  lemma PieceOf(s: string, t: string, lo: int)
    requires 0 <= lo <= |s| && lo + |t| <= |s| && t == s[lo..lo + |t|]
    ensures forall i :: 0 <= i < |t| ==> t[i] in s
  {
    forall i | 0 <= i < |t|
      ensures t[i] in s
    {
      assert t[i] == s[lo + i];
    }
  }

  /**
   * `s.replace(/\s+/g, "_")`: every run of white space becomes one
   * underscore, written where the run ends.
   */
  function CollapseSpaces(s: string): string
  {
    if s == [] then []
    else
      var rest := CollapseSpaces(s[1..]);
      if !IsSpace(s[0]) then [s[0]] + rest
      else if |s| > 1 && IsSpace(s[1]) then rest
      else "_" + rest
  }

  /** The last pass leaves no white space: only underscores and characters of its input. */
  lemma {:induction false} CollapseSpacesSpec(s: string)
    ensures NoSpace(CollapseSpaces(s))
    ensures forall i :: 0 <= i < |CollapseSpaces(s)| ==> CollapseSpaces(s)[i] == '_' || CollapseSpaces(s)[i] in s
  {
    if s != [] {
      CollapseSpacesSpec(s[1..]);
      var rest, r := CollapseSpaces(s[1..]), CollapseSpaces(s);
      var h: string := if !IsSpace(s[0]) then [s[0]] else if |s| > 1 && IsSpace(s[1]) then [] else "_";
      assert r == h + rest;
      assert s == [s[0]] + s[1..];
      forall i | 0 <= i < |r|
        ensures !IsSpace(r[i]) && (r[i] == '_' || r[i] in s)
      {
        if i >= |h| {
          assert r[i] == rest[i - |h|];
        }
      }
    }
  }

  /** The two character passes, before white space is dealt with. */
  function Filtered(nfd: string -> string, s: string): (r: string)
    ensures forall i :: 0 <= i < |r| ==> IsKept(r[i]) && !IsCombiningMark(r[i])
  {
    Keep(Keep(nfd(s), NotMark), IsKept)
  }

  /** `sanitize(str)`: only `[A-Za-z0-9_-]` is left. */
  function Sanitize(nfd: string -> string, s: string): (r: string)
    ensures AllSafe(r)
  {
    var f := Filtered(nfd, s);
    TrimInside(f);
    var r := CollapseSpaces(Trim(f));
    CollapseSpacesSpec(Trim(f));
    assert forall i :: 0 <= i < |r| ==> IsSafe(r[i]) by {
      forall i | 0 <= i < |r|
        ensures IsSafe(r[i])
      {
        if r[i] != '_' {
          assert r[i] in Trim(f);
          assert r[i] in f;
        }
      }
    }
    r
  }

  // ---------------------------------------------------------------------
  // What each pass does

  /** A pass deletes nothing when every character is in its class. */
  lemma {:induction false} KeepAll(s: string, p: char -> bool)
    requires forall i :: 0 <= i < |s| ==> p(s[i])
    ensures Keep(s, p) == s
  {
    if s != [] {
      KeepAll(s[1..], p);
      assert [s[0]] + s[1..] == s;
    }
  }

  /**
   * A pass deletes exactly the characters outside its class: each other
   * character stays, as often as before.
   */
  lemma {:induction false} KeepCounts(s: string, p: char -> bool, c: char)
    ensures multiset(Keep(s, p))[c] == if p(c) then multiset(s)[c] else 0
  {
    if s != [] {
      KeepCounts(s[1..], p, c);
      assert s == [s[0]] + s[1..];
    }
  }

  /** A pass keeps the surviving characters in their order: it works piece by piece. */
  lemma {:induction false} KeepAppend(a: string, b: string, p: char -> bool)
    ensures Keep(a + b, p) == Keep(a, p) + Keep(b, p)
  {
    if a != [] {
      assert (a + b)[1..] == a[1..] + b;
      KeepAppend(a[1..], b, p);
    } else {
      assert a + b == b;
    }
  }

  /** White space in front of a text that does not start with white space is all `trimStart` removes. */
  lemma {:induction false} TrimStartSpaces(w: string, t: string)
    requires AllSpace(w) && (t == [] || !IsSpace(t[0]))
    ensures TrimStart(w + t) == t
  {
    if w != [] {
      assert (w + t)[1..] == w[1..] + t;
      TrimStartSpaces(w[1..], t);
    } else {
      assert w + t == t;
    }
  }

  /** White space after a text that does not end with white space is all `trimEnd` removes. */
  lemma {:induction false} TrimEndSpaces(t: string, w: string)
    requires AllSpace(w) && (t == [] || !IsSpace(t[|t| - 1]))
    ensures TrimEnd(t + w) == t
  {
    if w != [] {
      assert (t + w)[..|t + w| - 1] == t + w[..|w| - 1];
      TrimEndSpaces(t, w[..|w| - 1]);
    } else {
      assert t + w == t;
    }
  }

  /**
   * `trim` drops exactly the leading and trailing white space: a text with
   * no white space at either end comes back from any padding unchanged.
   */
  lemma TrimPadding(w1: string, t: string, w2: string)
    requires AllSpace(w1) && AllSpace(w2)
    requires t == [] || (!IsSpace(t[0]) && !IsSpace(t[|t| - 1]))
    ensures Trim(w1 + t + w2) == t
  {
    if t == [] {
      assert w1 + t + w2 == w1 + w2;
      assert AllSpace(w1 + w2);
      TrimStartSpaces(w1 + w2, []);
      assert w1 + w2 + [] == w1 + w2;
      assert TrimStart(w1 + w2) == [];
    } else {
      assert w1 + t + w2 == w1 + (t + w2);
      TrimStartSpaces(w1, t + w2);
      TrimEndSpaces(t, w2);
    }
  }

  /** A text without white space goes through the last pass unchanged. */
  lemma {:induction false} CollapseNoSpace(s: string)
    requires NoSpace(s)
    ensures CollapseSpaces(s) == s
  {
    if s != [] {
      CollapseNoSpace(s[1..]);
      assert [s[0]] + s[1..] == s;
    }
  }

  /** A run of white space at the very front becomes one underscore. */
  lemma {:induction false} LeadingRun(w: string, b: string)
    requires w != [] && AllSpace(w)
    requires b == [] || !IsSpace(b[0])
    ensures CollapseSpaces(w + b) == "_" + CollapseSpaces(b)
  {
    var s := w + b;
    assert s[0] == w[0] && s[1..] == w[1..] + b;
    if |w| > 1 {
      assert s[1] == w[1];
      LeadingRun(w[1..], b);
    } else {
      assert s[1..] == b;
    }
  }

  /**
   * The last pass works piece by piece when the first piece does not end
   * in white space: no run straddles the seam.
   */
  lemma {:induction false} CollapseAppend(x: string, y: string)
    requires x == [] || !IsSpace(x[|x| - 1])
    ensures CollapseSpaces(x + y) == CollapseSpaces(x) + CollapseSpaces(y)
  {
    if x == [] {
      assert x + y == y;
    } else {
      var s, t := x + y, x[1..];
      assert s[0] == x[0] && s[1..] == t + y;
      if |x| == 1 {
        assert t == [] && t + y == y;
      } else {
        assert s[1] == x[1] && t[|t| - 1] == x[|x| - 1];
        CollapseAppend(t, y);
        var p, q := CollapseSpaces(t), CollapseSpaces(y);
        var h: string := if !IsSpace(x[0]) then [x[0]] else if IsSpace(x[1]) then [] else "_";
        assert CollapseSpaces(s) == h + CollapseSpaces(t + y);
        assert CollapseSpaces(x) == h + p;
        assert h + (p + q) == (h + p) + q;
      }
    }
  }

  /**
   * Each maximal run of white space becomes exactly one underscore: a run
   * between two texts that do not touch it with white space of their own
   * turns into a single `_` between what those texts turn into.
   */
  lemma CollapseRun(a: string, w: string, b: string)
    requires w != [] && AllSpace(w)
    requires a == [] || !IsSpace(a[|a| - 1])
    requires b == [] || !IsSpace(b[0])
    ensures CollapseSpaces(a + w + b) == CollapseSpaces(a) + "_" + CollapseSpaces(b)
  {
    var x, y := CollapseSpaces(a), CollapseSpaces(b);
    calc {
      CollapseSpaces(a + w + b);
      { assert a + w + b == a + (w + b); }
      CollapseSpaces(a + (w + b));
      { CollapseAppend(a, w + b); }
      x + CollapseSpaces(w + b);
      { LeadingRun(w, b); }
      x + ("_" + y);
      x + "_" + y;
    }
  }

  /**
   * `sanitize` is idempotent: its output is plain ASCII `[A-Za-z0-9_-]`,
   * which NFD leaves alone and every later pass lets through unchanged.
   */
  lemma SanitizeIdempotent(nfd: string -> string, s: string)
    requires forall t :: AllSafe(t) ==> nfd(t) == t
    ensures Sanitize(nfd, Sanitize(nfd, s)) == Sanitize(nfd, s)
  {
    SanitizeSafe(nfd, Sanitize(nfd, s));
  }

  lemma SafeNoSpace(y: string)
    requires AllSafe(y)
    ensures NoSpace(y)
  {
    forall i | 0 <= i < |y| ensures !IsSpace(y[i]) {
      assert IsSafe(y[i]);
    }
  }

  /** The character passes keep a text made only of `[A-Za-z0-9_-]` as it is. */
  lemma FilteredSafe(nfd: string -> string, y: string)
    requires AllSafe(y) && nfd(y) == y
    ensures Filtered(nfd, y) == y
  {
    KeepAll(y, NotMark);
    KeepAll(y, IsKept);
  }

  /** `trim` leaves a text without white space as it is. */
  lemma TrimNoSpace(y: string)
    requires NoSpace(y)
    ensures Trim(y) == y
  {
    assert y == [] || !IsSpace(y[0]);
    assert TrimStart(y) == y;
    assert y == [] || !IsSpace(y[|y| - 1]);
    assert TrimEnd(y) == y;
  }

  /** A text made only of `[A-Za-z0-9_-]`, which NFD leaves alone, comes out of `sanitize` unchanged. */
  lemma SanitizeSafe(nfd: string -> string, y: string)
    requires AllSafe(y) && nfd(y) == y
    ensures Sanitize(nfd, y) == y
  {
    FilteredSafe(nfd, y);
    SafeNoSpace(y);
    TrimNoSpace(y);
    CollapseNoSpace(y);
    calc {
      Sanitize(nfd, y);
      CollapseSpaces(Trim(Filtered(nfd, y)));
      CollapseSpaces(Trim(y));
      CollapseSpaces(y);
      y;
    }
  }
}
