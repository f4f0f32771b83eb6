/** The settings-driven abbreviation matcher shared by the analyzers and the
    fixers, the analyzer's report decision, and the global cap on registered
    code fixes. */
module AbbreviationHelper {
  import opened Chars
  import opened RegexScan
  import opened SkipKeys

  /** The number of code fixes forwarded before the rest are dropped. */
  const MaxRenameCount: int := 1000

  /** An interface name that starts with `I`: the matcher prepends the
      alternative `^I`, which takes the first character as a match of its own
      and is then thrown away, so scanning in effect begins at index 1. */
  predicate SkipsInterfacePrefix(name: string, parentIsInterface: bool) {
    parentIsInterface && |name| > 0 && name[0] == 'I'
  }

  /** The index at which the abbreviation scan in effect begins. */
  function ScanStart(name: string, parentIsInterface: bool): (start: nat)
    ensures start <= |name| && start <= 1
    ensures start == 1 <==> SkipsInterfacePrefix(name, parentIsInterface)
  {
    if SkipsInterfacePrefix(name, parentIsInterface) then 1 else 0
  }

  /** The matches `GetAbbreviationsInSymbol` looks at before the skip check:
      for an `I`-led interface name, those of `^I|(pattern)` less the first
      one; otherwise those of the pattern. The dropped first match is the
      `I` itself, and what is left is the pattern's scan from `ScanStart`. */
  function PatternMatches(name: string, parentIsInterface: bool): (r: seq<Span>)
    ensures SkipsInterfacePrefix(name, parentIsInterface) ==> InterfaceScan(name, 0) == [Span(0, 1)] + r
    ensures r == Scan(name, ScanStart(name, parentIsInterface))
  {
    if SkipsInterfacePrefix(name, parentIsInterface) then
      InterfaceScanLeadsWithI(name);
      InterfaceScan(name, 0)[1..]
    else Scan(name, 0)
  }

  /** The text the skip key is looked for in: the match plus the character
      after it, when there is one. */
  function SettingsWindow(name: string, sp: Span): (w: string)
    requires sp.End() <= |name|
  {
    var length := sp.End();
    var length' := if |name| > length then length + 1 else length;
    name[sp.index..length']
  }

  /** The registered-abbreviation key of a match: the first run of two or more
      capitals in its window that is not followed by a lowercase letter. */
  function SettingsKey(name: string, sp: Span): string
    requires sp.End() <= |name|
  {
    SkipKey(SettingsWindow(name, sp))
  }

  /** The matches whose key is not in the skip set, in their original order. */
  function KeepUnskipped(name: string, matches: seq<Span>, skip: set<string>): (r: seq<Span>)
    requires forall i :: 0 <= i < |matches| ==> matches[i].End() <= |name|
    ensures forall sp :: sp in r <==> sp in matches && SettingsKey(name, sp) !in skip
  {
    if |matches| == 0 then []
    else
      var rest := KeepUnskipped(name, matches[1..], skip);
      if SettingsKey(name, matches[0]) in skip then rest else [matches[0]] + rest
  }

  /** Dropping matches keeps the rest in order. */
  lemma {:induction false} KeepUnskippedKeepsOrder(name: string, matches: seq<Span>, skip: set<string>, from: nat)
    requires SpansWithin(matches, from, |name|)
    ensures SpansWithin(KeepUnskipped(name, matches, skip), from, |name|)
  {
    if |matches| > 0 {
      SpansWithinTail(matches, from, |name|);
      KeepUnskippedKeepsOrder(name, matches[1..], skip, matches[0].End());
      SpansWithinCons(matches[0], KeepUnskipped(name, matches[1..], skip), from, |name|);
    }
  }

  /** `GetAbbreviationsInSymbol`: the leftmost matches of the abbreviation
      pattern in `name`, past the `I` of an interface name, less those whose
      key is a registered abbreviation. */
  function AbbreviationsInSymbol(name: string, parentIsInterface: bool, skip: set<string>): (r: seq<Span>)
    ensures SpansWithin(r, ScanStart(name, parentIsInterface), |name|)
    ensures forall sp :: sp in r <==>
      sp in Scan(name, ScanStart(name, parentIsInterface)) && SettingsKey(name, sp) !in skip
  {
    var start := ScanStart(name, parentIsInterface);
    KeepUnskippedKeepsOrder(name, Scan(name, start), skip, start);
    KeepUnskipped(name, PatternMatches(name, parentIsInterface), skip)
  }

  /** When no match is keyed by a skipped abbreviation, every match is kept,
      in scan order. */
  lemma {:induction false} KeepUnskippedKeepsAll(name: string, matches: seq<Span>, skip: set<string>)
    requires forall i :: 0 <= i < |matches| ==> matches[i].End() <= |name|
    requires forall i :: 0 <= i < |matches| ==> SettingsKey(name, matches[i]) !in skip
    ensures KeepUnskipped(name, matches, skip) == matches
  {
    if |matches| > 0 {
      KeepUnskippedKeepsAll(name, matches[1..], skip);
      assert [matches[0]] + matches[1..] == matches;
    }
  }

  /** When every match is keyed by a skipped abbreviation, none is kept. */
  lemma {:induction false} KeepUnskippedDropsAll(name: string, matches: seq<Span>, skip: set<string>)
    requires forall i :: 0 <= i < |matches| ==> matches[i].End() <= |name|
    requires forall i :: 0 <= i < |matches| ==> SettingsKey(name, matches[i]) in skip
    ensures KeepUnskipped(name, matches, skip) == []
  {
    if |matches| > 0 {
      KeepUnskippedDropsAll(name, matches[1..], skip);
    }
  }

  /** A reported match is dropped exactly when its capitals are registered, or,
      when a lowercase letter follows a final capital, its capitals less that
      last one (the last capital begins the next word). */
  lemma SettingsSkipsRegisteredCapitals(name: string, parentIsInterface: bool, skip: set<string>, sp: Span)
    requires sp in Scan(name, ScanStart(name, parentIsInterface))
    ensures sp.End() <= |name| && |Capitals(sp.Value(name))| >= 2
    ensures var caps := Capitals(sp.Value(name));
      var key := if sp.End() < |name| && IsLower(name[sp.End()]) && IsUpper(name[sp.End() - 1])
                 then caps[..|caps| - 1] else caps;
      sp in AbbreviationsInSymbol(name, parentIsInterface, skip) <==> key !in skip
  {
    SettingsKeyOfMatch(name, ScanStart(name, parentIsInterface), sp);
  }

  /** The settings key of a match, in terms of its capitals. */
  lemma SettingsKeyOfMatch(name: string, start: nat, sp: Span)
    requires start <= |name| && sp in Scan(name, start)
    ensures sp.End() <= |name| && |Capitals(sp.Value(name))| >= 2
    ensures var caps := Capitals(sp.Value(name));
      SettingsKey(name, sp) ==
        if sp.End() < |name| && IsLower(name[sp.End()]) && IsUpper(name[sp.End() - 1])
        then caps[..|caps| - 1] else caps
  {
    SpanInScanIsMatch(name, start, sp);
    MatchSettingsKey(name, sp);
  }

  lemma MatchSettingsKey(name: string, sp: Span)
    requires sp.index < |name| && MatchAt(name, sp.index) == Some(sp.End())
    ensures sp.End() <= |name| && |Capitals(sp.Value(name))| >= 2
    ensures var caps := Capitals(sp.Value(name));
      SettingsKey(name, sp) ==
        if sp.End() < |name| && IsLower(name[sp.End()]) && IsUpper(name[sp.End() - 1])
        then caps[..|caps| - 1] else caps
  {
    var we := if |name| > sp.End() then sp.End() + 1 else sp.End();
    SpanKey(name, sp.index, we);
    assert SettingsWindow(name, sp) == name[sp.index..we];
  }

  // ---------------------------------------------------------------------------
  // The analyzer's decision.

  /** The identifier token an analyzer checks. */
  datatype Token = Token(isMissing: bool, valueText: string, parentIsInterface: bool)

  predicate IsIdentifierValid(t: Token) {
    !t.isMissing && |t.valueText| > 0
  }

  /** `CheckElementNameToken`: whether a diagnostic is reported for `t`. */
  function CheckElementNameToken(t: Token, skip: set<string>): (report: bool)
    ensures report ==> IsIdentifierValid(t)
    ensures var scanned := Scan(t.valueText, ScanStart(t.valueText, t.parentIsInterface));
      report <==> (IsIdentifierValid(t) && SomeUnskipped(t.valueText, scanned, skip))
  {
    if !IsIdentifierValid(t) then false
    else
      var scanned := Scan(t.valueText, ScanStart(t.valueText, t.parentIsInterface));
      var matches := AbbreviationsInSymbol(t.valueText, t.parentIsInterface, skip);
      assert matches == KeepUnskipped(t.valueText, scanned, skip);
      KeptIffSomeUnskipped(t.valueText, scanned, skip);
      if |matches| == 0 then false
      else
        assert matches[0] in matches;
        true
  }

  /** Some match is not keyed by a skipped abbreviation. */
  predicate SomeUnskipped(name: string, matches: seq<Span>, skip: set<string>)
    requires forall i :: 0 <= i < |matches| ==> matches[i].End() <= |name|
  {
    exists i :: 0 <= i < |matches| && SettingsKey(name, matches[i]) !in skip
  }

  /** The filter keeps something exactly when some match is not skipped. */
  lemma {:induction false} KeptIffSomeUnskipped(name: string, matches: seq<Span>, skip: set<string>)
    requires forall i :: 0 <= i < |matches| ==> matches[i].End() <= |name|
    ensures |KeepUnskipped(name, matches, skip)| > 0 <==> SomeUnskipped(name, matches, skip)
  {
    if |matches| > 0 {
      KeptIffSomeUnskipped(name, matches[1..], skip);
      if SomeUnskipped(name, matches[1..], skip) {
        var i :| 0 <= i < |matches[1..]| && SettingsKey(name, matches[1..][i]) !in skip;
        assert matches[i + 1] == matches[1..][i];
      }
      if SomeUnskipped(name, matches, skip) && SettingsKey(name, matches[0]) in skip {
        var i :| 0 <= i < |matches| && SettingsKey(name, matches[i]) !in skip;
        assert matches[1..][i - 1] == matches[i];
      }
    }
  }

  /** With nothing registered, a valid identifier is reported exactly when two
      capitals at or after the scan start are followed by the end of the name,
      a third capital or a digit. */
  lemma ReportIffCapitalPair(t: Token)
    ensures CheckElementNameToken(t, {}) <==>
      IsIdentifierValid(t) &&
      exists i :: ScanStart(t.valueText, t.parentIsInterface) <= i && CapitalPairAt(t.valueText, i)
  {
    var start := ScanStart(t.valueText, t.parentIsInterface);
    ScanEmptyIff(t.valueText, start);
    var scanned := Scan(t.valueText, start);
    ScanSpansAreMatches(t.valueText, start);
    KeepUnskippedKeepsAll(t.valueText, scanned, {});
  }

  // ---------------------------------------------------------------------------
  // The fix counter: a static C# `int` bumped before every registration.

  newtype Int32 = x: int | -0x8000_0000 <= x < 0x8000_0000

  /** C#'s unchecked `++` on `int`: wraps from the largest value to the smallest. */
  function Increment(x: Int32): (r: Int32)
    ensures (r as int - x as int - 1) % 0x1_0000_0000 == 0
  {
    if x == 0x7FFF_FFFF then -0x8000_0000 else x + 1
  }

  datatype Registration = Registration(count: Int32, forwarded: bool)

  /** `RegisterCodeFix`: bump the counter, then forward the fix unless the
      counter has passed the cap. */
  function RegisterCodeFix(count: Int32): (r: Registration)
    ensures r.count == Increment(count)
    ensures r.forwarded <==> r.count as int <= MaxRenameCount
    ensures count as int < MaxRenameCount ==> r.forwarded && r.count as int == count as int + 1
    ensures MaxRenameCount <= count as int < 0x7FFF_FFFF ==> !r.forwarded && r.count as int == count as int + 1
    ensures count as int == 0x7FFF_FFFF ==> r.forwarded && r.count as int == -0x8000_0000
  {
    var count' := Increment(count);
    Registration(count', count' as int <= MaxRenameCount)
  }

  /** `n` registrations in a row from `count`: the final counter and how many
      fixes were forwarded. */
  function RegisterMany(count: Int32, n: nat): (r: (Int32, nat))
    ensures r.1 <= n
    decreases n
  {
    if n == 0 then (count, 0)
    else
      var step := RegisterCodeFix(count);
      var rest := RegisterMany(step.count, n - 1);
      (rest.0, rest.1 + if step.forwarded then 1 else 0)
  }

  /** From a fresh counter, `n` registrations forward the first 1000 and drop
      the rest, as long as the counter does not wrap. */
  lemma {:induction false} RegisterManyForwardsAtMostCap(count: Int32, n: nat)
    requires 0 <= count as int && count as int + n < 0x8000_0000
    ensures RegisterMany(count, n).0 as int == count as int + n
    ensures RegisterMany(count, n).1 ==
      if count as int >= MaxRenameCount then 0
      else if count as int + n <= MaxRenameCount then n
      else MaxRenameCount - count as int
    decreases n
  {
    if n > 0 {
      RegisterManyForwardsAtMostCap(count + 1, n - 1);
    }
  }

  /** Once the counter wraps past the largest `int`, fixes are forwarded again. */
  lemma CounterWrapResumesForwarding()
    ensures RegisterCodeFix(0x7FFF_FFFF).forwarded
    ensures !RegisterCodeFix(0x7FFF_FFFE).forwarded
  {
  }
}
