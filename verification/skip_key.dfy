/** The skip-list key of a reported abbreviation: the first match of
    `([A-Z]{2,})(?![a-z])` in a window over the identifier, and what that key
    is in terms of the abbreviation's own letters. */
module SkipKeys {
  import opened Chars
  import opened RegexScan

  /** The key pattern at `p`: the greedy run of capitals, given back one
      character when a lowercase letter follows it. */
  function KeyMatchAt(w: string, p: nat): (r: Option<nat>)
    requires p <= |w|
    ensures r.Some? ==> p + 2 <= r.value <= |w|
    ensures r.Some? ==> forall k :: p <= k < r.value ==> IsUpper(w[k])
  {
    var u := RunEnd(w, p, Upper);
    RunEndIsMaximal(w, p, Upper);
    if u - p >= 2 && (u == |w| || !IsLower(w[u])) then Some(u)
    else if u - p >= 3 then Some(u - 1)
    else None
  }

  /** The first match of the key pattern in `w` from `p`, or "" (the value of
      a failed `Match`). */
  function SkipKeyFrom(w: string, p: nat): (key: string)
    requires p <= |w|
    ensures key == "" || (|key| >= 2 && forall k :: 0 <= k < |key| ==> IsUpper(key[k]))
    decreases |w| - p
  {
    if p == |w| then ""
    else
      match KeyMatchAt(w, p)
      case Some(e) => w[p..e]
      case None => SkipKeyFrom(w, p + 1)
  }

  function SkipKey(w: string): string {
    SkipKeyFrom(w, 0)
  }

  /** The capital letters of `w`, in order. */
  function Capitals(w: string): (r: string)
    ensures |r| <= |w|
    ensures forall k :: 0 <= k < |r| ==> IsUpper(r[k])
  {
    if |w| == 0 then []
    else (if IsUpper(w[0]) then [w[0]] else []) + Capitals(w[1..])
  }

  lemma {:induction false} CapitalsAppend(x: string, y: string)
    ensures Capitals(x + y) == Capitals(x) + Capitals(y)
  {
    if |x| > 0 {
      assert (x + y)[1..] == x[1..] + y;
      CapitalsAppend(x[1..], y);
    } else {
      assert x + y == y;
    }
  }

  lemma {:induction false} CapitalsOfDigits(x: string)
    requires forall k :: 0 <= k < |x| ==> IsDigit(x[k])
    ensures Capitals(x) == []
  {
    if |x| > 0 {
      CapitalsOfDigits(x[1..]);
    }
  }

  lemma {:induction false} CapitalsOfUppers(x: string)
    requires forall k :: 0 <= k < |x| ==> IsUpper(x[k])
    ensures Capitals(x) == x
  {
    if |x| > 0 {
      CapitalsOfUppers(x[1..]);
      assert x == [x[0]] + x[1..];
    }
  }

  /** The key search passes over digits without a match. */
  lemma {:induction false} KeySkipsDigits(w: string, q: nat, j: nat)
    requires q <= j <= |w| && ClassOn(w, q, j, Digit)
    ensures SkipKeyFrom(w, q) == SkipKeyFrom(w, j)
    decreases j - q
  {
    if q < j {
      RunEndStopsAt(w, q, q, Upper);
      assert KeyMatchAt(w, q) == None;
      KeySkipsDigits(w, q + 1, j);
    }
  }

  /** A window made of digits then a maximal run of at least two capitals:
      the key is that run, less its last capital when a lowercase letter
      follows it (the run is then at least three long). */
  lemma KeyOfCapitalRun(w: string, j: nat, m: nat)
    requires j + 2 <= m <= |w|
    requires ClassOn(w, 0, j, Digit) && ClassOn(w, j, m, Upper)
    requires m < |w| ==> !IsUpper(w[m])
    requires m < |w| && IsLower(w[m]) ==> m - j >= 3
    ensures SkipKey(w) == if m < |w| && IsLower(w[m]) then w[j..m - 1] else w[j..m]
  {
    KeySkipsDigits(w, 0, j);
    if m < |w| {
      RunEndStopsAt(w, j, m, Upper);
    } else {
      RunEndAtLeast(w, j, m, Upper);
    }
  }

  /** The key of a window that starts at a reported abbreviation `s[p..e]` and
      ends at `e` or one character after it. The key is the abbreviation's
      capitals, except that when the window takes in a lowercase letter right
      after a final capital, that capital is given back. */
  lemma SpanKey(s: string, p: nat, we: nat)
    requires p <= |s| && MatchAt(s, p).Some?
    requires var e := MatchAt(s, p).value; we == e || we == e + 1 <= |s|
    ensures var e := MatchAt(s, p).value;
      var caps := Capitals(s[p..e]);
      && |caps| >= 2
      && SkipKey(s[p..we]) ==
         if we > e && IsLower(s[e]) && IsUpper(s[e - 1]) then caps[..|caps| - 1] else caps
  {
    var e := MatchAt(s, p).value;
    var k := MatchHasShape(s, p);
    if p < k && ClassOn(s, p, k, Digit) && ClassOn(s, k, e, Upper) {
      CapitalsOfSplit(s, p, k, e, Digit, Upper);
      RunKey(s, p, k, e, we);
    } else if k == p {
      CapitalsOfSplit(s, p, p, e, Digit, Upper);
      RunKey(s, p, p, e, we);
    } else {
      CapitalsOfSplit(s, p, k, e, Upper, Digit);
      RunKey(s, p, p, k, we);
    }
  }

  /** The capitals of a digit run next to a capital run are the capital run. */
  lemma CapitalsOfSplit(s: string, p: nat, k: nat, e: nat, a: CharClass, b: CharClass)
    requires p <= k <= e <= |s| && a != b
    requires ClassOn(s, p, k, a) && ClassOn(s, k, e, b)
    ensures Capitals(s[p..e]) == if a == Upper then s[p..k] else s[k..e]
  {
    assert s[p..e] == s[p..k] + s[k..e];
    CapitalsAppend(s[p..k], s[k..e]);
    if a == Upper {
      CapitalsOfUppers(s[p..k]);
      CapitalsOfDigits(s[k..e]);
    } else {
      CapitalsOfDigits(s[p..k]);
      CapitalsOfUppers(s[k..e]);
    }
  }

  /** The key of `s[p..we]` when it holds digits `s[p..k]`, then a maximal
      capital run `s[k..m]`. */
  lemma RunKey(s: string, p: nat, k: nat, m: nat, we: nat)
    requires p <= k && k + 2 <= m <= we <= |s|
    requires ClassOn(s, p, k, Digit) && ClassOn(s, k, m, Upper)
    requires m < we ==> !IsUpper(s[m])
    requires m < we && IsLower(s[m]) ==> m - k >= 3
    ensures SkipKey(s[p..we]) == if m < we && IsLower(s[m]) then s[k..m - 1] else s[k..m]
  {
    var w := s[p..we];
    ClassOnSlice(s, p, we, 0, k - p, Digit);
    ClassOnSlice(s, p, we, k - p, m - p, Upper);
    KeyOfCapitalRun(w, k - p, m - p);
    SliceOfSlice(s, p, we, k - p, m - p);
    SliceOfSlice(s, p, we, k - p, m - p - 1);
  }
}
