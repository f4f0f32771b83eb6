/** The two regular expressions both matcher copies run, written out as
    explicit scanners:

      abbreviation pattern  `\d+[A-Z]{2,}$|\d+[A-Z]{3,}|[A-Z]{2,}$|[A-Z]{2,}\d+|[A-Z]{3,}`
      skip-key pattern      `([A-Z]{2,})(?![a-z])`

    `Regex.Matches` tries start positions left to right; at each one it tries
    the alternatives in the order written and the first that matches wins; a
    match resumes the scan at its end. Because `\d` and `[A-Z]` share no
    character, every greedy quantifier in an alternative takes the whole
    maximal run, so backtracking never changes an alternative's result: it
    matches exactly the longest word of its language, or nothing. */
module RegexScan {
  import opened Chars

  /** A regex match: `Index` and `Value.Length`. */
  datatype Span = Span(index: nat, length: nat) {
    function End(): nat { index + length }
    /** `Match.Value` */
    function Value(s: string): string
      requires End() <= |s|
    {
      s[index..End()]
    }
  }

  datatype CharClass = Digit | Upper

  predicate InClass(c: char, cls: CharClass) {
    match cls
    case Digit => IsDigit(c)
    case Upper => IsUpper(c)
  }

  /** End of the maximal run of `cls` characters that starts at `p`. */
  function RunEnd(s: string, p: nat, cls: CharClass): (e: nat)
    requires p <= |s|
    ensures p <= e <= |s|
    decreases |s| - p
  {
    if p < |s| && InClass(s[p], cls) then RunEnd(s, p + 1, cls) else p
  }

  /** `RunEnd` ends the maximal run: every character before it is in the
      class and the character at it, if any, is not. */
  lemma {:induction false} RunEndIsMaximal(s: string, p: nat, cls: CharClass)
    requires p <= |s|
    ensures forall k :: p <= k < RunEnd(s, p, cls) ==> InClass(s[k], cls)
    ensures RunEnd(s, p, cls) == |s| || !InClass(s[RunEnd(s, p, cls)], cls)
    decreases |s| - p
  {
    if p < |s| && InClass(s[p], cls) {
      RunEndIsMaximal(s, p + 1, cls);
    }
  }

  // ---------------------------------------------------------------------------
  // The five alternatives of the abbreviation pattern. Each returns the end of
  // its match at `p`, or None.

  /** `\d+[A-Z]{2,}$` */
  function Alt1(s: string, p: nat): Option<nat>
    requires p <= |s|
  {
    var d := RunEnd(s, p, Digit);
    var u := RunEnd(s, d, Upper);
    if d > p && u - d >= 2 && u == |s| then Some(u) else None
  }

  /** `\d+[A-Z]{3,}` */
  function Alt2(s: string, p: nat): Option<nat>
    requires p <= |s|
  {
    var d := RunEnd(s, p, Digit);
    var u := RunEnd(s, d, Upper);
    if d > p && u - d >= 3 then Some(u) else None
  }

  /** `[A-Z]{2,}$` */
  function Alt3(s: string, p: nat): Option<nat>
    requires p <= |s|
  {
    var u := RunEnd(s, p, Upper);
    if u - p >= 2 && u == |s| then Some(u) else None
  }

  /** `[A-Z]{2,}\d+` */
  function Alt4(s: string, p: nat): Option<nat>
    requires p <= |s|
  {
    var u := RunEnd(s, p, Upper);
    var d := RunEnd(s, u, Digit);
    if u - p >= 2 && d > u then Some(d) else None
  }

  /** `[A-Z]{3,}` */
  function Alt5(s: string, p: nat): Option<nat>
    requires p <= |s|
  {
    var u := RunEnd(s, p, Upper);
    if u - p >= 3 then Some(u) else None
  }

  /** Alternative number `alt` (1 to 5) at `p`. */
  function AltAt(alt: nat, s: string, p: nat): Option<nat>
    requires 1 <= alt <= 5 && p <= |s|
  {
    match alt
    case 1 => Alt1(s, p)
    case 2 => Alt2(s, p)
    case 3 => Alt3(s, p)
    case 4 => Alt4(s, p)
    case _ => Alt5(s, p)
  }

  /** The abbreviation pattern at `p`: ordered alternation, first alternative
      that matches wins. */
  function MatchAt(s: string, p: nat): (r: Option<nat>)
    requires p <= |s|
    ensures r.Some? ==> p + 2 <= r.value <= |s|
  {
    if Alt1(s, p).Some? then Alt1(s, p)
    else if Alt2(s, p).Some? then Alt2(s, p)
    else if Alt3(s, p).Some? then Alt3(s, p)
    else if Alt4(s, p).Some? then Alt4(s, p)
    else Alt5(s, p)
  }

  // ---------------------------------------------------------------------------
  // The languages of the alternatives, stated without any scanning, and the
  // fact that each alternative returns the longest word of its language.

  /** Every character of `s[from..to]` is in `cls`. */
  ghost predicate ClassOn(s: string, from: nat, to: nat, cls: CharClass)
    requires to <= |s|
  {
    forall k :: from <= k < to ==> InClass(s[k], cls)
  }

  lemma SliceOfSlice(s: string, p: nat, q: nat, a: nat, b: nat)
    requires p <= q <= |s| && a <= b <= q - p
    ensures s[p..q][a..b] == s[p + a..p + b]
  {
    assert forall i :: 0 <= i < b - a ==> s[p..q][a..b][i] == s[p + a..p + b][i];
  }

  lemma ClassOnSlice(s: string, p: nat, q: nat, a: nat, b: nat, cls: CharClass)
    requires p <= q <= |s| && a <= b <= q - p
    requires ClassOn(s, p + a, p + b, cls)
    ensures ClassOn(s[p..q], a, b, cls)
  {
    assert forall i :: a <= i < b ==> s[p..q][i] == s[p + i];
  }

  /** `s[p..e]` is a word of `\d+[A-Z]{n,}` */
  ghost predicate DigitsThenUppers(s: string, p: nat, e: nat, n: nat)
    requires e <= |s|
  {
    exists k :: p < k && k + n <= e && ClassOn(s, p, k, Digit) && ClassOn(s, k, e, Upper)
  }

  /** `s[p..e]` is a word of `[A-Z]{2,}\d+` */
  ghost predicate UppersThenDigits(s: string, p: nat, e: nat)
    requires e <= |s|
  {
    exists k :: p + 2 <= k < e && ClassOn(s, p, k, Upper) && ClassOn(s, k, e, Digit)
  }

  /** `s[p..e]` is a match of alternative `alt` at `p`, anchors included. */
  ghost predicate InLanguage(alt: nat, s: string, p: nat, e: nat)
    requires p <= e <= |s|
  {
    match alt
    case 1 => e == |s| && DigitsThenUppers(s, p, e, 2)
    case 2 => DigitsThenUppers(s, p, e, 3)
    case 3 => e == |s| && p + 2 <= e && ClassOn(s, p, e, Upper)
    case 4 => UppersThenDigits(s, p, e)
    case _ => p + 3 <= e && ClassOn(s, p, e, Upper)
  }

  /** A run covering `[p, q)` extends at least to `q`. */
  lemma {:induction false} RunEndAtLeast(s: string, p: nat, q: nat, cls: CharClass)
    requires p <= q <= |s|
    requires ClassOn(s, p, q, cls)
    ensures RunEnd(s, p, cls) >= q
    decreases q - p
  {
    if p < q {
      RunEndAtLeast(s, p + 1, q, cls);
    }
  }

  /** A run covering `[p, q)` and stopped by `s[q]` ends at `q`. */
  lemma {:induction false} RunEndStopsAt(s: string, p: nat, q: nat, cls: CharClass)
    requires p <= q < |s|
    requires ClassOn(s, p, q, cls)
    requires !InClass(s[q], cls)
    ensures RunEnd(s, p, cls) == q
    decreases q - p
  {
    if p < q {
      RunEndStopsAt(s, p + 1, q, cls);
    }
  }

  /** Where a class-`a` part meets a class-`b` part, the class-`a` run ends. */
  lemma SplitAtRunEnd(s: string, p: nat, k: nat, e: nat, a: CharClass, b: CharClass)
    requires a != b && p <= k < e <= |s|
    requires ClassOn(s, p, k, a) && ClassOn(s, k, e, b)
    ensures RunEnd(s, p, a) == k
  {
    assert InClass(s[k], b);
    RunEndStopsAt(s, p, k, a);
  }

  lemma DigitLedAlternatives(alt: nat, s: string, p: nat)
    requires (alt == 1 || alt == 2) && p <= |s|
    ensures AltAt(alt, s, p).Some? ==>
              var e := AltAt(alt, s, p).value;
              p <= e <= |s| && InLanguage(alt, s, p, e)
    ensures forall e :: p <= e <= |s| && InLanguage(alt, s, p, e) ==>
              AltAt(alt, s, p).Some? && e <= AltAt(alt, s, p).value
  {
    var n := if alt == 1 then 2 else 3;
    var d := RunEnd(s, p, Digit);
    var u := RunEnd(s, d, Upper);
    RunEndIsMaximal(s, p, Digit);
    RunEndIsMaximal(s, d, Upper);
    if AltAt(alt, s, p).Some? {
      assert DigitsThenUppers(s, p, u, n) by {
        assert ClassOn(s, p, d, Digit) && ClassOn(s, d, u, Upper);
      }
    }
    forall e | p <= e <= |s| && InLanguage(alt, s, p, e)
      ensures AltAt(alt, s, p).Some? && e <= AltAt(alt, s, p).value
    {
      var k :| p < k && k + n <= e && ClassOn(s, p, k, Digit) && ClassOn(s, k, e, Upper);
      SplitAtRunEnd(s, p, k, e, Digit, Upper);
      RunEndAtLeast(s, k, e, Upper);
    }
  }

  lemma UpperLedAlternatives(alt: nat, s: string, p: nat)
    requires 3 <= alt <= 5 && p <= |s|
    ensures AltAt(alt, s, p).Some? ==>
              var e := AltAt(alt, s, p).value;
              p <= e <= |s| && InLanguage(alt, s, p, e)
    ensures forall e :: p <= e <= |s| && InLanguage(alt, s, p, e) ==>
              AltAt(alt, s, p).Some? && e <= AltAt(alt, s, p).value
  {
    var u := RunEnd(s, p, Upper);
    var d := RunEnd(s, u, Digit);
    RunEndIsMaximal(s, p, Upper);
    RunEndIsMaximal(s, u, Digit);
    if alt == 4 && AltAt(alt, s, p).Some? {
      assert UppersThenDigits(s, p, d) by {
        assert ClassOn(s, p, u, Upper) && ClassOn(s, u, d, Digit);
      }
    }
    forall e | p <= e <= |s| && InLanguage(alt, s, p, e)
      ensures AltAt(alt, s, p).Some? && e <= AltAt(alt, s, p).value
    {
      if alt == 4 {
        var k :| p + 2 <= k < e && ClassOn(s, p, k, Upper) && ClassOn(s, k, e, Digit);
        SplitAtRunEnd(s, p, k, e, Upper, Digit);
        RunEndAtLeast(s, k, e, Digit);
      } else {
        RunEndAtLeast(s, p, e, Upper);
      }
    }
  }

  /** Every alternative returns the longest word of its own language that
      starts at `p`, and None exactly when there is no such word. */
  lemma AlternativeIsLongestMatch(alt: nat, s: string, p: nat)
    requires 1 <= alt <= 5 && p <= |s|
    ensures AltAt(alt, s, p).Some? ==>
              var e := AltAt(alt, s, p).value;
              p <= e <= |s| && InLanguage(alt, s, p, e)
    ensures forall e :: p <= e <= |s| && InLanguage(alt, s, p, e) ==>
              AltAt(alt, s, p).Some? && e <= AltAt(alt, s, p).value
  {
    if alt <= 2 {
      DigitLedAlternatives(alt, s, p);
    } else {
      UpperLedAlternatives(alt, s, p);
    }
  }

  // ---------------------------------------------------------------------------
  // The scan: `Regex.Matches` for the abbreviation pattern.

  /** Spans that start at or after `from`, end by `n`, are at least two
      characters long, and are strictly increasing and non-overlapping. */
  ghost predicate SpansWithin(spans: seq<Span>, from: nat, n: nat) {
    && (forall i :: 0 <= i < |spans| ==> from <= spans[i].index && spans[i].End() <= n && spans[i].length >= 2)
    && (forall i :: 0 < i < |spans| ==> spans[i - 1].End() <= spans[i].index)
  }

  /** Spans in increasing order are pairwise disjoint, not only neighbours. */
  lemma {:induction false} SpansWithinPairwise(spans: seq<Span>, from: nat, n: nat, i: nat, j: nat)
    requires SpansWithin(spans, from, n) && i < j < |spans|
    ensures spans[i].End() <= spans[j].index
    decreases j - i
  {
    if i + 1 < j {
      SpansWithinPairwise(spans, from, n, i + 1, j);
    }
  }

  /** What follows the first span lies after it. */
  lemma SpansWithinTail(spans: seq<Span>, from: nat, n: nat)
    requires SpansWithin(spans, from, n) && |spans| > 0
    ensures SpansWithin(spans[1..], spans[0].End(), n)
  {
    forall i | 0 <= i < |spans[1..]|
      ensures spans[0].End() <= spans[1..][i].index
    {
      SpansWithinPairwise(spans, from, n, 0, i + 1);
    }
  }

  /** A span put before spans that follow it keeps them in order. */
  lemma SpansWithinCons(sp: Span, spans: seq<Span>, from: nat, n: nat)
    requires from <= sp.index && sp.End() <= n && sp.length >= 2
    requires SpansWithin(spans, sp.End(), n)
    ensures SpansWithin(spans, from, n) && SpansWithin([sp] + spans, from, n)
  {
    assert forall i :: 0 < i < |[sp] + spans| ==> ([sp] + spans)[i] == spans[i - 1];
  }

  /** `Regex.Matches(s, pattern)` with the scan begun at `p`. */
  function Scan(s: string, p: nat): (r: seq<Span>)
    requires p <= |s|
    ensures SpansWithin(r, p, |s|)
    decreases |s| - p
  {
    if p == |s| then []
    else
      match MatchAt(s, p)
      case Some(e) => [Span(p, e - p)] + Scan(s, e)
      case None => Scan(s, p + 1)
  }

  /** No start position in `[from, to)` matches the pattern. */
  ghost predicate NoMatchIn(s: string, from: nat, to: nat)
    requires from <= to <= |s|
  {
    forall q :: from <= q < to ==> MatchAt(s, q).None?
  }

  /** The defining property of a leftmost, non-overlapping match sequence
      starting at `from`: each span is the pattern's match at its own start,
      no position passed over matches, and the scan resumes at a span's end. */
  ghost predicate LeftmostMatches(s: string, from: nat, spans: seq<Span>)
    requires from <= |s|
    decreases |spans|
  {
    if |spans| == 0 then NoMatchIn(s, from, |s|)
    else
      var sp := spans[0];
      && from <= sp.index < |s|
      && MatchAt(s, sp.index) == Some(sp.End())
      && NoMatchIn(s, from, sp.index)
      && LeftmostMatches(s, sp.End(), spans[1..])
  }

  /** `Scan` produces the leftmost match sequence. */
  lemma {:induction false} ScanIsLeftmost(s: string, from: nat)
    requires from <= |s|
    ensures LeftmostMatches(s, from, Scan(s, from))
    decreases |s| - from
  {
    if from == |s| {
      assert Scan(s, from) == [];
    } else if MatchAt(s, from).Some? {
      var e := MatchAt(s, from).value;
      ScanIsLeftmost(s, e);
      ScanHit(s, from, e);
    } else {
      ScanIsLeftmost(s, from + 1);
      ScanMiss(s, from);
    }
  }

  lemma ScanHit(s: string, from: nat, e: nat)
    requires from < |s| && MatchAt(s, from) == Some(e)
    requires LeftmostMatches(s, e, Scan(s, e))
    ensures LeftmostMatches(s, from, Scan(s, from))
  {
    ScanHitStep(s, from, e);
    LeftmostCons(s, from, e, Scan(s, e));
  }

  lemma ScanMiss(s: string, from: nat)
    requires from < |s| && MatchAt(s, from).None?
    requires LeftmostMatches(s, from + 1, Scan(s, from + 1))
    ensures LeftmostMatches(s, from, Scan(s, from))
  {
    ScanMissStep(s, from);
    LeftmostSkip(s, from, Scan(s, from + 1));
  }

  /** A match at the scan position is reported, and the scan resumes at its end. */
  lemma ScanHitStep(s: string, from: nat, e: nat)
    requires from < |s| && MatchAt(s, from) == Some(e)
    ensures Scan(s, from) == [Span(from, e - from)] + Scan(s, e)
  {
  }

  /** No match at the scan position: the scan moves on by one character. */
  lemma ScanMissStep(s: string, from: nat)
    requires from < |s| && MatchAt(s, from).None?
    ensures Scan(s, from) == Scan(s, from + 1)
  {
  }

  lemma LeftmostCons(s: string, from: nat, e: nat, rest: seq<Span>)
    requires from < e <= |s| && MatchAt(s, from) == Some(e)
    requires LeftmostMatches(s, e, rest)
    ensures LeftmostMatches(s, from, [Span(from, e - from)] + rest)
  {
    var spans := [Span(from, e - from)] + rest;
    assert spans[1..] == rest;
    assert NoMatchIn(s, from, from);
  }

  lemma LeftmostSkip(s: string, from: nat, spans: seq<Span>)
    requires from < |s| && MatchAt(s, from).None?
    requires LeftmostMatches(s, from + 1, spans)
    ensures LeftmostMatches(s, from, spans)
  {
    if |spans| == 0 {
      assert NoMatchIn(s, from, |s|);
    } else {
      assert NoMatchIn(s, from, spans[0].index);
    }
  }

  /** Each span is the pattern's match at its own start. */
  ghost predicate SpansAreMatches(s: string, spans: seq<Span>) {
    forall i :: 0 <= i < |spans| ==> spans[i].index < |s| && MatchAt(s, spans[i].index) == Some(spans[i].End())
  }

  lemma MatchesCons(s: string, sp: Span, spans: seq<Span>)
    requires sp.index < |s| && MatchAt(s, sp.index) == Some(sp.End())
    requires SpansAreMatches(s, spans)
    ensures SpansAreMatches(s, [sp] + spans)
  {
    assert forall i :: 0 < i < |[sp] + spans| ==> ([sp] + spans)[i] == spans[i - 1];
  }

  /** Every span the scan reports is the pattern's match at its own start. */
  lemma {:induction false} ScanSpansAreMatches(s: string, from: nat)
    requires from <= |s|
    ensures SpansAreMatches(s, Scan(s, from))
    decreases |s| - from
  {
    if from < |s| {
      match MatchAt(s, from)
      case Some(e) =>
        ScanSpansAreMatches(s, e);
        ScanHitStep(s, from, e);
        MatchesCons(s, Span(from, e - from), Scan(s, e));
      case None =>
        ScanSpansAreMatches(s, from + 1);
        ScanMissStep(s, from);
    }
  }

  lemma SpanInScanIsMatch(s: string, from: nat, sp: Span)
    requires from <= |s| && sp in Scan(s, from)
    ensures sp.index < |s| && MatchAt(s, sp.index) == Some(sp.End())
  {
    ScanSpansAreMatches(s, from);
  }

  /** The leftmost match sequence is unique: any sequence with that property
      is what `Scan` returns. */
  lemma {:induction false} LeftmostIsScan(s: string, from: nat, spans: seq<Span>)
    requires from <= |s|
    requires LeftmostMatches(s, from, spans)
    ensures spans == Scan(s, from)
    decreases |s| - from
  {
    if from == |s| {
      LeftmostAtEnd(s, spans);
    } else if |spans| > 0 && spans[0].index == from {
      LeftmostTail(s, from, spans);
      LeftmostIsScan(s, spans[0].End(), spans[1..]);
      LeftmostHeadStep(s, from, spans);
    } else {
      LeftmostSkipStep(s, from, spans);
      LeftmostIsScan(s, from + 1, spans);
      ScanMissStep(s, from);
    }
  }

  /** Nothing is left to match at the end of the string. */
  lemma LeftmostAtEnd(s: string, spans: seq<Span>)
    requires LeftmostMatches(s, |s|, spans)
    ensures spans == [] == Scan(s, |s|)
  {
  }

  /** What follows the first span is leftmost from that span's end. */
  lemma LeftmostTail(s: string, from: nat, spans: seq<Span>)
    requires from <= |s| && |spans| > 0
    requires LeftmostMatches(s, from, spans)
    ensures from < spans[0].End() <= |s|
    ensures MatchAt(s, spans[0].index) == Some(spans[0].End())
    ensures LeftmostMatches(s, spans[0].End(), spans[1..])
  {
  }

  lemma LeftmostHeadStep(s: string, from: nat, spans: seq<Span>)
    requires from < |s| && |spans| > 0 && spans[0].index == from
    requires MatchAt(s, from) == Some(spans[0].End())
    requires spans[1..] == Scan(s, spans[0].End())
    ensures spans == Scan(s, from)
  {
    var e := spans[0].End();
    ScanHitStep(s, from, e);
    assert spans[0] == Span(from, e - from);
    assert spans == [spans[0]] + spans[1..];
  }

  lemma LeftmostSkipStep(s: string, from: nat, spans: seq<Span>)
    requires from < |s| && (|spans| == 0 || spans[0].index != from)
    requires LeftmostMatches(s, from, spans)
    ensures MatchAt(s, from).None?
    ensures LeftmostMatches(s, from + 1, spans)
  {
    if |spans| == 0 {
      assert NoMatchIn(s, from + 1, |s|);
    } else {
      assert NoMatchIn(s, from + 1, spans[0].index);
    }
  }

  // ---------------------------------------------------------------------------
  // Steps for evaluating the scan on a given name.

  /** The run of `cls` at `p` ends exactly at `q`. */
  lemma RunEndIs(s: string, p: nat, q: nat, cls: CharClass)
    requires p <= q <= |s| && ClassOn(s, p, q, cls) && (q == |s| || !InClass(s[q], cls))
    ensures RunEnd(s, p, cls) == q
  {
    if q < |s| {
      RunEndStopsAt(s, p, q, cls);
    } else {
      RunEndAtLeast(s, p, q, cls);
    }
  }

  /** A character that is neither a digit nor a capital starts no match. */
  lemma ScanPassesOver(s: string, p: nat)
    requires p < |s| && !IsDigit(s[p]) && !IsUpper(s[p])
    ensures Scan(s, p) == Scan(s, p + 1)
  {
    RunEndIs(s, p, p, Digit);
    RunEndIs(s, p, p, Upper);
  }

  /** There is a run of two capitals at `i` that the pattern must report:
      it ends the string, or continues with a third capital or a digit. */
  ghost predicate CapitalPairAt(s: string, i: nat) {
    && i + 2 <= |s| && IsUpper(s[i]) && IsUpper(s[i + 1])
    && (i + 2 == |s| || IsUpper(s[i + 2]) || IsDigit(s[i + 2]))
  }

  /** The scan from `from` finds nothing exactly when no such capital pair
      starts at or after `from`. */
  lemma {:induction false} ScanEmptyIff(s: string, from: nat)
    requires from <= |s|
    ensures Scan(s, from) == [] <==> forall i :: from <= i ==> !CapitalPairAt(s, i)
    decreases |s| - from
  {
    if from < |s| {
      ScanEmptyIff(s, from + 1);
      match MatchAt(s, from)
      case Some(e) =>
        MatchHasCapitalPair(s, from);
      case None =>
        assert !CapitalPairAt(s, from) by {
          if CapitalPairAt(s, from) {
            CapitalPairMatches(s, from);
          }
        }
    } else {
      assert forall i :: from <= i ==> !CapitalPairAt(s, i);
    }
  }

  /** A capital pair makes the pattern match at its start. */
  lemma CapitalPairMatches(s: string, i: nat)
    requires CapitalPairAt(s, i)
    ensures MatchAt(s, i).Some?
  {
    RunEndAtLeast(s, i, i + 2, Upper);
    var u := RunEnd(s, i, Upper);
    if i + 2 < |s| && IsDigit(s[i + 2]) {
      RunEndStopsAt(s, i, i + 2, Upper);
      assert Alt4(s, i).Some?;
    } else if i + 2 < |s| {
      RunEndAtLeast(s, i, i + 3, Upper);
      assert Alt5(s, i).Some?;
    } else {
      assert Alt3(s, i).Some?;
    }
  }

  /** A match at `p` contains a capital pair at or after `p`. */
  lemma MatchHasCapitalPair(s: string, p: nat)
    requires p <= |s| && MatchAt(s, p).Some?
    ensures exists i :: p <= i && CapitalPairAt(s, i)
  {
    var d := RunEnd(s, p, Digit);
    var u := RunEnd(s, p, Upper);
    RunEndIsMaximal(s, p, Upper);
    RunEndIsMaximal(s, u, Digit);
    if Alt1(s, p).Some? || Alt2(s, p).Some? {
      var u2 := RunEnd(s, d, Upper);
      RunEndIsMaximal(s, d, Upper);
      if u2 == |s| {
        assert CapitalPairAt(s, u2 - 2);
      } else {
        assert CapitalPairAt(s, d);
      }
    } else if Alt3(s, p).Some? {
      assert CapitalPairAt(s, u - 2);
    } else if Alt4(s, p).Some? {
      assert CapitalPairAt(s, u - 2);
    } else {
      assert CapitalPairAt(s, p);
    }
  }

  // ---------------------------------------------------------------------------
  // The shape of a match: what characters a reported span is made of.

  /** A match at `p` ending at `e` is one of three shapes, split at `k`:
      digits then capitals (the first two alternatives), capitals then digits
      (the fourth), or capitals only (the third and fifth). A capital run that
      does not reach the end of the string is at least three long and is not
      followed by another capital; a digit tail is not followed by a digit. */
  ghost predicate MatchShape(s: string, p: nat, e: nat, k: nat)
    requires p <= k <= e <= |s|
  {
    || (&& p < k && ClassOn(s, p, k, Digit) && ClassOn(s, k, e, Upper)
        && (if e == |s| then e - k >= 2 else e - k >= 3 && !IsUpper(s[e])))
    || (&& p + 2 <= k < e && ClassOn(s, p, k, Upper) && ClassOn(s, k, e, Digit)
        && (e == |s| || !IsDigit(s[e])))
    || (&& k == p && ClassOn(s, p, e, Upper)
        && (if e == |s| then e - p >= 2 else e - p >= 3 && !IsUpper(s[e])))
  }

  lemma MatchHasShape(s: string, p: nat) returns (k: nat)
    requires p <= |s| && MatchAt(s, p).Some?
    ensures p <= k <= MatchAt(s, p).value
    ensures MatchShape(s, p, MatchAt(s, p).value, k)
  {
    var e := MatchAt(s, p).value;
    var d := RunEnd(s, p, Digit);
    var u := RunEnd(s, p, Upper);
    RunEndIsMaximal(s, p, Digit);
    RunEndIsMaximal(s, p, Upper);
    if d > p {
      RunEndIsMaximal(s, d, Upper);
      k := d;
    } else if Alt3(s, p).Some? || Alt4(s, p).None? {
      k := p;
    } else {
      RunEndIsMaximal(s, u, Digit);
      k := u;
    }
  }

  // ---------------------------------------------------------------------------
  // The interface variant `^I|(pattern)`, used for names of interfaces.

  /** The pattern `^I|(pattern)` at `p`: the anchored `I` is tried first and
      can only match at index 0; everywhere else the abbreviation pattern
      decides. */
  function InterfaceMatchAt(s: string, p: nat): (r: Option<nat>)
    requires p <= |s|
    ensures r.Some? ==> p < r.value <= |s|
  {
    if p == 0 && |s| > 0 && s[0] == 'I' then Some(1) else MatchAt(s, p)
  }

  /** `Regex.Matches(s, "^I|(pattern)")` with the scan begun at `p`. */
  function InterfaceScan(s: string, p: nat): seq<Span>
    requires p <= |s|
    decreases |s| - p
  {
    if p == |s| then []
    else
      match InterfaceMatchAt(s, p)
      case Some(e) => [Span(p, e - p)] + InterfaceScan(s, e)
      case None => InterfaceScan(s, p + 1)
  }

  /** Past index 0 the anchored alternative never matches, so the two
      patterns find the same matches. */
  lemma {:induction false} InterfaceScanPastStart(s: string, p: nat)
    requires 0 < p <= |s|
    ensures InterfaceScan(s, p) == Scan(s, p)
    decreases |s| - p
  {
    if p < |s| {
      match MatchAt(s, p)
      case Some(e) => InterfaceScanPastStart(s, e);
      case None => InterfaceScanPastStart(s, p + 1);
    }
  }

  /** For a name that starts with `I`, the first match of `^I|(pattern)` is
      the `I` alone, and the rest are the abbreviation pattern's matches from
      index 1. */
  lemma InterfaceScanLeadsWithI(s: string)
    requires |s| > 0 && s[0] == 'I'
    ensures InterfaceScan(s, 0) == [Span(0, 1)] + Scan(s, 1)
  {
    InterfaceScanPastStart(s, 1);
  }
}
