/** The Visual Basic fix provider: the same recasing as the C# one, with its
    own field rule, a rule that keeps the capital after leading digits, and no
    uniqueness check. */
module VbFixProvider {
  import opened Chars
  import opened RegexScan
  import opened Recasing
  import AbbreviationHelper

  /** The declaration `RenameVBHelper.GetParentDeclaration` finds above the
      identifier. A variable declarator carries the declared accessibility of
      its field, when its parent is a field declaration. */
  datatype VbDeclaration =
    | VbParameter
    | VbVariable(field: Option<Accessibility>)
    | VbOther

  /** The abbreviations the fixer recases: the settings matcher, whose
      interface test looks for a C# interface and so never fires here. */
  function VbSpans(name: string, skip: set<string>): (spans: seq<Span>)
    ensures SpansWithin(spans, 0, |name|)
  {
    AbbreviationHelper.AbbreviationsInSymbol(name, false, skip)
  }

  /** The first character is lowercased: after a leading `_`, at the start of a
      parameter, of a local variable, or of a field at most private. A more
      accessible field keeps it in upper case. */
  predicate VbLowersFirst(orig: string, sp: Span, decl: Option<VbDeclaration>) {
    || (sp.index == 1 && |orig| > 0 && orig[0] == '_')
    || (sp.index == 0 && decl == Some(VbParameter))
    || (sp.index == 0 && decl.Some? && decl.value.VbVariable?
        && (decl.value.field.None? || AtMostPrivate(decl.value.field.value)))
  }

  /** `^\d+([A-Z])[^\d]`: leading digits, a capital, then a non-digit. The
      result is the index of the capital. */
  function DigitRuleIndex(v: string): (r: Option<nat>)
    ensures r.Some? ==>
      && 1 <= r.value && r.value + 1 < |v|
      && ClassOn(v, 0, r.value, Digit) && IsUpper(v[r.value]) && !IsDigit(v[r.value + 1])
  {
    var d := RunEnd(v, 0, Digit);
    RunEndIsMaximal(v, 0, Digit);
    if d >= 1 && d + 1 < |v| && IsUpper(v[d]) && !IsDigit(v[d + 1]) then Some(d) else None
  }

  /** The pattern matches whenever leading digits are followed by a capital
      and then a non-digit. */
  lemma DigitRuleFires(v: string, d: nat)
    requires 1 <= d && d + 1 < |v| && ClassOn(v, 0, d, Digit) && IsUpper(v[d]) && !IsDigit(v[d + 1])
    ensures DigitRuleIndex(v) == Some(d)
  {
    RunEndStopsAt(v, 0, d, Digit);
  }

  /** The first character of a recased abbreviation. */
  function VbFirst(orig: string, sp: Span, decl: Option<VbDeclaration>): char
    requires sp.End() <= |orig| && sp.length >= 2
  {
    var first := ToUpper(ToLower(orig[sp.index]));
    var first := if sp.index == 1 && |orig| > 0 && orig[0] == '_' then ToLower(first) else first;
    var first := if sp.index == 0 && decl == Some(VbParameter) then ToLower(first) else first;
    if sp.index == 0 && decl.Some? && decl.value.VbVariable? then
      if decl.value.field.Some? then
        if AtMostPrivate(decl.value.field.value) then ToLower(first) else first
      else ToLower(first)
    else first
  }

  /** The abbreviation lowercased, with its first character from `VbFirst`
      and the digit rule applied. */
  function VbCased(orig: string, sp: Span, decl: Option<VbDeclaration>): (w: string)
    requires sp.End() <= |orig| && sp.length >= 2
    ensures |w| == sp.length
  {
    var v := sp.Value(orig);
    var w := [VbFirst(orig, sp, decl)] + LowerString(v)[1..];
    match DigitRuleIndex(v)
    case Some(d) => w[d := ToUpper(v[d])]
    case None => w
  }

  /** The recased text of one abbreviation: the last character is put in upper
      case when the abbreviation does not end the name. */
  function VbWord(orig: string, sp: Span, decl: Option<VbDeclaration>): (w: string)
    requires sp.End() <= |orig| && sp.length >= 2
    ensures |w| == sp.length
  {
    var w := VbCased(orig, sp, decl);
    if sp.End() != |orig| then w[|w| - 1 := ToUpper(w[|w| - 1])] else w
  }

  lemma VbCasedAt(orig: string, sp: Span, decl: Option<VbDeclaration>, k: nat)
    requires sp.End() <= |orig| && sp.length >= 2 && k < sp.length
    ensures var c := orig[sp.index + k];
      VbCased(orig, sp, decl)[k] ==
        if k == 0 then VbFirst(orig, sp, decl)
        else if DigitRuleIndex(sp.Value(orig)) == Some(k) then c
        else ToLower(c)
  {
    var v := sp.Value(orig);
    assert v[k] == orig[sp.index + k];
    var w := [VbFirst(orig, sp, decl)] + LowerString(v)[1..];
    assert w[k] == if k == 0 then VbFirst(orig, sp, decl) else ToLower(v[k]);
    match DigitRuleIndex(v)
    case Some(d) =>
      assert VbCased(orig, sp, decl) == w[d := ToUpper(v[d])];
      if k == d {
        assert IsUpper(v[d]);
      }
    case None =>
      assert VbCased(orig, sp, decl) == w;
  }

  lemma VbFirstIs(orig: string, sp: Span, decl: Option<VbDeclaration>)
    requires sp.End() <= |orig| && sp.length >= 2
    ensures var c := orig[sp.index];
      VbFirst(orig, sp, decl) == if VbLowersFirst(orig, sp, decl) then ToLower(c) else ToUpper(c)
  {
    var c := orig[sp.index];
    CaseMappingsKeepLetter(c);
    CaseMappingsKeepLetter(ToLower(c));
  }

  /** Character `k` of a recased abbreviation, in terms of the original one. */
  lemma VbWordAt(orig: string, sp: Span, decl: Option<VbDeclaration>, k: nat)
    requires sp.End() <= |orig| && sp.length >= 2 && k < sp.length
    ensures var w := VbWord(orig, sp, decl);
      var c := orig[sp.index + k];
      && SameIgnoringCase(w[k], c)
      && (k == 0 ==> w[k] == if VbLowersFirst(orig, sp, decl) then ToLower(c) else ToUpper(c))
      && (0 < k < sp.length - 1 ==>
            w[k] == if DigitRuleIndex(sp.Value(orig)) == Some(k) then c else ToLower(c))
      && (k == sp.length - 1 ==>
            w[k] == if sp.End() != |orig| then ToUpper(c) else ToLower(c))
  {
    var c := orig[sp.index + k];
    VbWordFromCased(orig, sp, decl, k);
    VbCasedAt(orig, sp, decl, k);
    VbFirstIs(orig, sp, decl);
    CaseMappingsKeepLetter(c);
    if k == sp.length - 1 {
      CaseMappingsKeepLetter(ToLower(c));
    }
  }

  lemma VbWordFromCased(orig: string, sp: Span, decl: Option<VbDeclaration>, k: nat)
    requires sp.End() <= |orig| && sp.length >= 2 && k < sp.length
    ensures var w := VbCased(orig, sp, decl);
      VbWord(orig, sp, decl)[k] == if k == sp.length - 1 && sp.End() != |orig| then ToUpper(w[k]) else w[k]
  {
  }

  lemma VbWordSameLetters(orig: string, sp: Span, decl: Option<VbDeclaration>, k: nat)
    requires sp.End() <= |orig| && sp.length >= 2 && k < sp.length
    ensures SameIgnoringCase(VbWord(orig, sp, decl)[k], orig[sp.index + k])
  {
    VbWordAt(orig, sp, decl, k);
  }

  /** An abbreviation the matcher reports that starts with digits keeps the
      capital after those digits in upper case: the digits are always followed
      by at least two capitals. */
  lemma DigitLedKeepsCapital(name: string, skip: set<string>, sp: Span, decl: Option<VbDeclaration>)
    requires sp in VbSpans(name, skip) && IsDigit(name[sp.index])
    ensures var d := RunEnd(sp.Value(name), 0, Digit);
      && 1 <= d < sp.length - 1
      && IsUpper(name[sp.index + d])
      && VbWord(name, sp, decl)[d] == name[sp.index + d]
  {
    assert AbbreviationHelper.ScanStart(name, false) == 0;
    assert sp in Scan(name, 0);
    SpanInScanIsMatch(name, 0, sp);
    var p, e := sp.index, sp.End();
    var k := MatchHasShape(name, p);
    assert !IsUpper(name[p]);
    assert p < k && ClassOn(name, p, k, Digit) && ClassOn(name, k, e, Upper) && e - k >= 2;
    DigitRunThenCapitals(name, sp, k, decl);
  }

  lemma DigitRunThenCapitals(name: string, sp: Span, k: nat, decl: Option<VbDeclaration>)
    requires sp.index < k && k + 2 <= sp.End() <= |name| && sp.length >= 2
    requires ClassOn(name, sp.index, k, Digit) && ClassOn(name, k, sp.End(), Upper)
    ensures var d := RunEnd(sp.Value(name), 0, Digit);
      && 1 <= d < sp.length - 1
      && IsUpper(name[sp.index + d])
      && VbWord(name, sp, decl)[d] == name[sp.index + d]
  {
    var v := sp.Value(name);
    var d := k - sp.index;
    DigitRunInValue(name, sp, k);
    RunEndStopsAt(v, 0, d, Digit);
    DigitRuleFires(v, d);
    DigitRuleKeeps(name, sp, decl, d);
    assert RunEnd(v, 0, Digit) == d && sp.index + d == k;
  }

  /** The character the digit rule picks keeps its case. */
  lemma DigitRuleKeeps(orig: string, sp: Span, decl: Option<VbDeclaration>, d: nat)
    requires sp.End() <= |orig| && sp.length >= 2
    requires DigitRuleIndex(sp.Value(orig)) == Some(d)
    ensures d < sp.length && VbWord(orig, sp, decl)[d] == orig[sp.index + d]
  {
    VbWordAt(orig, sp, decl, d);
  }

  lemma DigitRunInValue(name: string, sp: Span, k: nat)
    requires sp.index < k && k + 2 <= sp.End() <= |name|
    requires ClassOn(name, sp.index, k, Digit) && ClassOn(name, k, sp.End(), Upper)
    ensures var v, d := sp.Value(name), k - sp.index;
      ClassOn(v, 0, d, Digit) && v[d] == name[k] && IsUpper(v[d]) && IsUpper(v[d + 1])
  {
    ClassOnSlice(name, sp.index, sp.End(), 0, k - sp.index, Digit);
    assert IsUpper(name[k]) && IsUpper(name[k + 1]);
  }

  /** `"_"` for a field at most private whose name begins with an abbreviation. */
  function VbPrefix(spans: seq<Span>, decl: Option<VbDeclaration>): (prefix: string)
    ensures prefix == "" || prefix == "_"
  {
    if StartsName(spans)
       && decl.Some? && decl.value.VbVariable? && decl.value.field.Some? && AtMostPrivate(decl.value.field.value)
    then "_" else ""
  }

  /** The loop sets the prefix when any abbreviation starts the name of a
      field that is at most private. */
  lemma VbPrefixIffLeadingPrivateField(spans: seq<Span>, decl: Option<VbDeclaration>, n: nat)
    requires SpansWithin(spans, 0, n)
    ensures VbPrefix(spans, decl) == "_" <==>
      && (exists k :: 0 <= k < |spans| && spans[k].index == 0)
      && decl.Some? && decl.value.VbVariable? && decl.value.field.Some?
      && (decl.value.field.value == NotApplicable || decl.value.field.value == Private)
  {
    StartsNameIffAny(spans, n);
    if decl.Some? && decl.value.VbVariable? && decl.value.field.Some? {
      AtMostPrivateIsPrivateOrNone(decl.value.field.value);
    }
  }

  function VbWords(orig: string, spans: seq<Span>, decl: Option<VbDeclaration>): (words: seq<string>)
    requires SpansWithin(spans, 0, |orig|)
    ensures WordsFit(spans, words)
  {
    seq(|spans|, k requires 0 <= k < |spans| => VbWord(orig, spans[k], decl))
  }

  function VbBody(name: string, spans: seq<Span>, decl: Option<VbDeclaration>): (body: string)
    requires SpansWithin(spans, 0, |name|)
    ensures |body| == |name|
  {
    Assemble(name, spans, VbWords(name, spans, decl), 0)
  }

  /** Inside an abbreviation, the body has the recased text of that abbreviation. */
  lemma VbBodyInSpan(name: string, spans: seq<Span>, decl: Option<VbDeclaration>, k: nat, i: nat)
    requires SpansWithin(spans, 0, |name|) && k < |spans| && spans[k].index <= i < spans[k].End()
    ensures VbBody(name, spans, decl)[i] == VbWord(name, spans[k], decl)[i - spans[k].index]
  {
    var words := VbWords(name, spans, decl);
    AssembleInSpan(name, spans, words, k, i);
    assert words[k] == VbWord(name, spans[k], decl);
  }

  /** The body, position by position: unchanged outside the abbreviations,
      changed in case at most inside them. */
  lemma VbBodyAt(name: string, spans: seq<Span>, decl: Option<VbDeclaration>, i: nat)
    requires SpansWithin(spans, 0, |name|) && i < |name|
    ensures !Covered(spans, i) ==> VbBody(name, spans, decl)[i] == name[i]
    ensures SameIgnoringCase(VbBody(name, spans, decl)[i], name[i])
  {
    if Covered(spans, i) {
      var k :| 0 <= k < |spans| && spans[k].index <= i < spans[k].End();
      VbBodySameLetters(name, spans, decl, k, i);
    } else {
      VbBodyOutside(name, spans, decl, i);
      CaseMappingsKeepLetter(name[i]);
    }
  }

  /** Inside an abbreviation, the body has the original letter in some case. */
  lemma VbBodySameLetters(name: string, spans: seq<Span>, decl: Option<VbDeclaration>, k: nat, i: nat)
    requires SpansWithin(spans, 0, |name|) && k < |spans| && spans[k].index <= i < spans[k].End()
    ensures SameIgnoringCase(VbBody(name, spans, decl)[i], name[i])
  {
    var sp, j := spans[k], i - spans[k].index;
    VbWordSameLetters(name, sp, decl, j);
    assert sp.index + j == i;
    VbBodyInSpan(name, spans, decl, k, i);
  }

  /** Outside the abbreviations, the body keeps the original character. */
  lemma VbBodyOutside(name: string, spans: seq<Span>, decl: Option<VbDeclaration>, i: nat)
    requires SpansWithin(spans, 0, |name|) && i < |name| && !Covered(spans, i)
    ensures VbBody(name, spans, decl)[i] == name[i]
  {
    AssembleOutside(name, spans, VbWords(name, spans, decl), i);
  }

  /** The name offered: the prefix, then the name with every abbreviation recased. */
  function VbCandidate(name: string, decl: Option<VbDeclaration>, skip: set<string>): string {
    VbRecased(name, VbSpans(name, skip), decl)
  }

  /** The prefix, then the name with the given spans recased. */
  function VbRecased(name: string, spans: seq<Span>, decl: Option<VbDeclaration>): string
    requires SpansWithin(spans, 0, |name|)
  {
    VbPrefix(spans, decl) + VbBody(name, spans, decl)
  }

  lemma VbRecasedSameLetters(name: string, spans: seq<Span>, decl: Option<VbDeclaration>)
    requires SpansWithin(spans, 0, |name|)
    ensures RecasedOnly(name, VbRecased(name, spans, decl))
  {
    var body := VbBody(name, spans, decl);
    forall i | 0 <= i < |name|
      ensures SameIgnoringCase(body[i], name[i])
    {
      VbBodyAt(name, spans, decl, i);
    }
    PrefixedRecased(name, VbPrefix(spans, decl), body);
  }

  /** `RegisterCodeFixesAsync` for one diagnostic: with a declaration, the
      candidate is offered as it is. It differs from the original name only in
      letter case, and by a leading `_` at most. */
  function VbRegisterCodeFixes(name: string, decl: Option<VbDeclaration>, skip: set<string>): (fix: Option<string>)
    ensures fix.Some? <==> decl.Some?
    ensures fix.Some? ==> RecasedOnly(name, fix.value)
    ensures fix.Some? ==> fix.value == VbCandidate(name, decl, skip)
  {
    if decl.None? then None
    else
      var spans := VbSpans(name, skip);
      VbRecasedSameLetters(name, spans, decl);
      Some(VbRecased(name, spans, decl))
  }
}
