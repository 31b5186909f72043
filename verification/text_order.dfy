/**
 * Python's ordering of `str` values (lexicographic by code point; a proper
 * prefix is smaller) and the half-open publication window that both scripts
 * filter on.
 *
 * Dafny's `<` on sequences means "proper prefix", so the order is defined
 * here.
 */
module TextOrder {

  /** Python's `a < b` on strings. */
  predicate Less(a: string, b: string)
    ensures Less(a, b) ==> b != []
    ensures a == [] ==> (Less(a, b) <==> b != [])
    decreases |a|
  {
    if |b| == 0 then false
    else if |a| == 0 then true
    else if a[0] != b[0] then a[0] < b[0]
    else Less(a[1..], b[1..])
  }

  /** Python's `a <= b` on strings. */
  predicate LessEq(a: string, b: string) {
    a == b || Less(a, b)
  }

  /** A half-open publication window `[start, end)` on raw timestamp strings. */
  datatype Window = Window(start: string, end: string)

  /** The window both scripts hardcode: the calendar year 2024. */
  const Year2024 := Window("2024-01-01T00:00:00Z", "2025-01-01T00:00:00Z")

  /**
   * `w.start <= s < w.end`, compared as Python strings. A window with an
   * empty end keeps nothing, and one with an empty start is bounded above only.
   */
  predicate InWindow(w: Window, s: string)
    ensures InWindow(w, s) ==> w.end != []
    ensures w.start == [] ==> (InWindow(w, s) <==> Less(s, w.end))
  {
    LessEq(w.start, s) && Less(s, w.end)
  }

  /** Only a non-empty window keeps anything. */
  lemma InWindowNonEmpty(w: Window, s: string)
    requires InWindow(w, s)
    ensures Less(w.start, w.end)
  {
    if w.start != s {
      LessTransitive(w.start, s, w.end);
    }
  }

  lemma {:induction false} LessIrreflexive(a: string)
    ensures !Less(a, a)
  {
    if |a| > 0 {
      LessIrreflexive(a[1..]);
    }
  }

  lemma {:induction false} LessTransitive(a: string, b: string, c: string)
    requires Less(a, b) && Less(b, c)
    ensures Less(a, c)
  {
    if |a| > 0 && a[0] == b[0] && b[0] == c[0] {
      LessTransitive(a[1..], b[1..], c[1..]);
    }
  }

  /** Python's string comparison is total: exactly one of `a < b`, `a == b`, `b < a` holds. */
  lemma {:induction false} LessTrichotomy(a: string, b: string)
    ensures Less(a, b) || a == b || Less(b, a)
    ensures !(Less(a, b) && Less(b, a))
  {
    if |a| > 0 && |b| > 0 && a[0] == b[0] {
      LessTrichotomy(a[1..], b[1..]);
      if a[1..] == b[1..] {
        assert a == [a[0]] + a[1..] && b == [b[0]] + b[1..];
      }
    }
    if a == b {
      LessIrreflexive(a);
    }
  }

  /** The order is lexicographic: the first position where the strings differ decides it, by code point. */
  lemma {:induction false} LessFirstDiff(a: string, b: string, i: nat)
    requires i < |a| && i < |b| && a[..i] == b[..i] && a[i] != b[i]
    ensures Less(a, b) <==> a[i] < b[i]
  {
    if i > 0 {
      assert a[1..][..i - 1] == a[..i][1..] == b[..i][1..] == b[1..][..i - 1];
      LessFirstDiff(a[1..], b[1..], i - 1);
    }
  }

  /** A proper prefix sorts first, as in Python (`"2024" < "2024-01"`). */
  lemma {:induction false} PrefixLess(a: string, b: string)
    requires |a| < |b| && a == b[..|a|]
    ensures Less(a, b)
  {
    if |a| > 0 {
      assert a[1..] == b[1..][..|a| - 1];
      PrefixLess(a[1..], b[1..]);
    }
  }

  /** The window is half-open: its start is kept whenever the window is not empty, its end never is. */
  lemma WindowHalfOpen(w: Window)
    ensures InWindow(w, w.start) <==> Less(w.start, w.end)
    ensures !InWindow(w, w.end)
  {
    if InWindow(w, w.start) {
      InWindowNonEmpty(w, w.start);
    }
    LessIrreflexive(w.end);
  }

  /** The hardcoded year is a non-empty window: its first instant is kept and its end instant is not. */
  lemma Year2024HalfOpen()
    ensures InWindow(Year2024, "2024-01-01T00:00:00Z")
    ensures !InWindow(Year2024, "2025-01-01T00:00:00Z")
  {
    WindowHalfOpen(Year2024);
  }

  /** A mid-year instant lies in the hardcoded window. */
  lemma Year2024Contains()
    ensures InWindow(Year2024, "2024-06-01T00:00:00Z")
  {
  }

  /** The window is an interval: anything between two kept strings is kept. */
  lemma WindowConvex(w: Window, a: string, b: string, c: string)
    requires InWindow(w, a) && InWindow(w, c)
    requires LessEq(a, b) && LessEq(b, c)
    ensures InWindow(w, b)
  {
    if a != b {
      if w.start != a {
        LessTransitive(w.start, a, b);
      }
    }
    if b != c {
      LessTransitive(b, c, w.end);
    }
  }
}
