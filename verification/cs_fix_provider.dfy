/** The C# fix provider: recase each reported abbreviation, add the `_`
    prefix a private field gets, and append the first numeric suffix that
    makes the name free in its scope. */
module CsFixProvider {
  import opened Chars
  import opened RegexScan
  import opened Recasing
  import opened RenameHelper

  /** The declaration `GetParentDeclaration` finds above the identifier. A
      variable declarator carries the declared accessibility of the field it
      belongs to, when it belongs to one. */
  datatype CsDeclaration =
    | ParameterDecl
    | VariableDecl(field: Option<Accessibility>)
    | InterfaceDecl
    | NamespaceDecl
    | OtherDecl

  /** The token's parent is an interface declaration exactly when the
      declaration found above it is one. */
  predicate ParentIsInterface(decl: Option<CsDeclaration>) {
    decl == Some(InterfaceDecl)
  }

  /** The abbreviations the fixer recases. */
  function CsSpans(name: string, decl: Option<CsDeclaration>): (spans: seq<Span>)
    ensures SpansWithin(spans, 0, |name|)
  {
    AbbreveaturesInSymbol(name, ParentIsInterface(decl))
  }

  /** The first character of the span is lowercased: after a leading `_`, or at
      the start of a parameter or variable name. */
  predicate LowersFirst(orig: string, sp: Span, decl: Option<CsDeclaration>) {
    || (sp.index == 1 && |orig| > 0 && orig[0] == '_')
    || (sp.index == 0 && decl.Some? && (decl.value.ParameterDecl? || decl.value.VariableDecl?))
  }

  /** The branch for an interface name whose abbreviation starts at its `I`. */
  predicate UppersSecond(orig: string, sp: Span, decl: Option<CsDeclaration>)
    requires sp.End() <= |orig| && sp.length >= 2
  {
    sp.index == 0 && ParentIsInterface(decl) && orig[sp.index] == 'I'
  }

  /** The first character of a recased abbreviation: put in upper case, then
      in lower case again after a leading `_` or at the start of a parameter
      or variable name. */
  function CsFirst(orig: string, sp: Span, decl: Option<CsDeclaration>): char
    requires sp.End() <= |orig| && sp.length >= 2
  {
    var first := ToUpper(ToLower(orig[sp.index]));
    var first := if sp.index == 1 && |orig| > 0 && orig[0] == '_' then ToLower(first) else first;
    var first := if sp.index == 0 && decl == Some(ParameterDecl) then ToLower(first) else first;
    if sp.index == 0 && decl.Some? && decl.value.VariableDecl? then ToLower(first) else first
  }

  /** The abbreviation lowercased, with its first character from `CsFirst`
      and its second in upper case in the interface branch. */
  function CsCased(orig: string, sp: Span, decl: Option<CsDeclaration>): (w: string)
    requires sp.End() <= |orig| && sp.length >= 2
    ensures |w| == sp.length
  {
    var low := LowerString(sp.Value(orig));
    var second := if UppersSecond(orig, sp, decl) then ToUpper(low[1]) else low[1];
    [CsFirst(orig, sp, decl), second] + low[2..]
  }

  /** The recased text of one abbreviation: the last character is put in upper
      case when the abbreviation does not end the name. */
  function CsWord(orig: string, sp: Span, decl: Option<CsDeclaration>): (w: string)
    requires sp.End() <= |orig| && sp.length >= 2
    ensures |w| == sp.length
  {
    var w := CsCased(orig, sp, decl);
    if sp.End() != |orig| then w[|w| - 1 := ToUpper(w[|w| - 1])] else w
  }

  lemma CsFirstIs(orig: string, sp: Span, decl: Option<CsDeclaration>)
    requires sp.End() <= |orig| && sp.length >= 2
    ensures var c := orig[sp.index];
      CsFirst(orig, sp, decl) == if LowersFirst(orig, sp, decl) then ToLower(c) else ToUpper(c)
  {
    var c := orig[sp.index];
    CaseMappingsKeepLetter(c);
    CaseMappingsKeepLetter(ToLower(c));
  }

  lemma CsCasedAt(orig: string, sp: Span, decl: Option<CsDeclaration>, k: nat)
    requires sp.End() <= |orig| && sp.length >= 2 && k < sp.length
    ensures var c := orig[sp.index + k];
      CsCased(orig, sp, decl)[k] ==
        if k == 0 then CsFirst(orig, sp, decl)
        else if k == 1 && UppersSecond(orig, sp, decl) then ToUpper(ToLower(c))
        else ToLower(c)
  {
    assert sp.Value(orig)[k] == orig[sp.index + k];
  }

  lemma CsWordSameLetters(orig: string, sp: Span, decl: Option<CsDeclaration>, k: nat)
    requires sp.End() <= |orig| && sp.length >= 2 && k < sp.length
    ensures SameIgnoringCase(CsWord(orig, sp, decl)[k], orig[sp.index + k])
  {
    CsWordAt(orig, sp, decl, k);
  }

  /** Character `k` of a recased abbreviation, in terms of the original one. */
  lemma CsWordAt(orig: string, sp: Span, decl: Option<CsDeclaration>, k: nat)
    requires sp.End() <= |orig| && sp.length >= 2 && k < sp.length
    ensures var w := CsWord(orig, sp, decl);
      var c := orig[sp.index + k];
      && SameIgnoringCase(w[k], c)
      && (k == 0 ==> w[k] == if LowersFirst(orig, sp, decl) then ToLower(c) else ToUpper(c))
      && (0 < k < sp.length - 1 ==>
            w[k] == if k == 1 && UppersSecond(orig, sp, decl) then ToUpper(c) else ToLower(c))
      && (k == sp.length - 1 ==>
            w[k] == if sp.End() != |orig| || (k == 1 && UppersSecond(orig, sp, decl)) then ToUpper(c) else ToLower(c))
  {
    var c := orig[sp.index + k];
    CsCasedAt(orig, sp, decl, k);
    CsFirstIs(orig, sp, decl);
    CaseMappingsKeepLetter(c);
    CaseMappingsKeepLetter(ToLower(c));
  }

  /** `"_"` for a private field whose name begins with an abbreviation. */
  function CsPrefix(spans: seq<Span>, decl: Option<CsDeclaration>): (prefix: string)
    ensures prefix == "" || prefix == "_"
  {
    if StartsName(spans)
       && decl.Some? && decl.value.VariableDecl? && decl.value.field.Some? && AtMostPrivate(decl.value.field.value)
    then "_" else ""
  }

  /** The loop sets the prefix when any abbreviation starts the name of a
      field that is at most private. */
  lemma CsPrefixIffLeadingPrivateField(spans: seq<Span>, decl: Option<CsDeclaration>, n: nat)
    requires SpansWithin(spans, 0, n)
    ensures CsPrefix(spans, decl) == "_" <==>
      && (exists k :: 0 <= k < |spans| && spans[k].index == 0)
      && decl.Some? && decl.value.VariableDecl? && decl.value.field.Some?
      && (decl.value.field.value == NotApplicable || decl.value.field.value == Private)
  {
    StartsNameIffAny(spans, n);
    if decl.Some? && decl.value.VariableDecl? && decl.value.field.Some? {
      AtMostPrivateIsPrivateOrNone(decl.value.field.value);
    }
  }

  function CsWords(orig: string, spans: seq<Span>, decl: Option<CsDeclaration>): (words: seq<string>)
    requires SpansWithin(spans, 0, |orig|)
    ensures WordsFit(spans, words)
  {
    seq(|spans|, k requires 0 <= k < |spans| => CsWord(orig, spans[k], decl))
  }

  /** The name before the uniqueness check: the prefix, then the original name
      with every abbreviation recased. */
  function CsCandidate(name: string, decl: Option<CsDeclaration>): string {
    CsRecased(name, CsSpans(name, decl), decl)
  }

  /** The prefix, then the name with the given spans recased. */
  function CsRecased(name: string, spans: seq<Span>, decl: Option<CsDeclaration>): string
    requires SpansWithin(spans, 0, |name|)
  {
    CsPrefix(spans, decl) + CsBody(name, spans, decl)
  }

  function CsBody(name: string, spans: seq<Span>, decl: Option<CsDeclaration>): (body: string)
    requires SpansWithin(spans, 0, |name|)
    ensures |body| == |name|
  {
    Assemble(name, spans, CsWords(name, spans, decl), 0)
  }

  /** Inside an abbreviation, the body has the recased text of that abbreviation. */
  lemma CsBodyInSpan(name: string, spans: seq<Span>, decl: Option<CsDeclaration>, k: nat, i: nat)
    requires SpansWithin(spans, 0, |name|) && k < |spans| && spans[k].index <= i < spans[k].End()
    ensures CsBody(name, spans, decl)[i] == CsWord(name, spans[k], decl)[i - spans[k].index]
  {
    var words := CsWords(name, spans, decl);
    AssembleInSpan(name, spans, words, k, i);
    assert words[k] == CsWord(name, spans[k], decl);
  }

  /** The body, position by position: unchanged outside the abbreviations,
      changed in case at most inside them. */
  lemma CsBodyAt(name: string, spans: seq<Span>, decl: Option<CsDeclaration>, i: nat)
    requires SpansWithin(spans, 0, |name|) && i < |name|
    ensures !Covered(spans, i) ==> CsBody(name, spans, decl)[i] == name[i]
    ensures SameIgnoringCase(CsBody(name, spans, decl)[i], name[i])
  {
    if Covered(spans, i) {
      var k :| 0 <= k < |spans| && spans[k].index <= i < spans[k].End();
      CsBodySameLetters(name, spans, decl, k, i);
    } else {
      CsBodyOutside(name, spans, decl, i);
      CaseMappingsKeepLetter(name[i]);
    }
  }

  /** Inside an abbreviation, the body has the original letter in some case. */
  lemma CsBodySameLetters(name: string, spans: seq<Span>, decl: Option<CsDeclaration>, k: nat, i: nat)
    requires SpansWithin(spans, 0, |name|) && k < |spans| && spans[k].index <= i < spans[k].End()
    ensures SameIgnoringCase(CsBody(name, spans, decl)[i], name[i])
  {
    var sp := spans[k];
    CsBodyInSpan(name, spans, decl, k, i);
    CsWordSameLetters(name, sp, decl, i - sp.index);
    assert sp.index + (i - sp.index) == i;
  }

  /** Outside the abbreviations, the body keeps the original character. */
  lemma CsBodyOutside(name: string, spans: seq<Span>, decl: Option<CsDeclaration>, i: nat)
    requires SpansWithin(spans, 0, |name|) && i < |name| && !Covered(spans, i)
    ensures CsBody(name, spans, decl)[i] == name[i]
  {
    AssembleOutside(name, spans, CsWords(name, spans, decl), i);
  }

  /** The candidate is the original name, with a `_` in front at most, and with
      only the case of characters inside abbreviations changed; inside an
      abbreviation each character is the one `CsWord` gives it. */
  lemma CsCandidateShape(name: string, spans: seq<Span>, decl: Option<CsDeclaration>, i: nat)
    requires SpansWithin(spans, 0, |name|) && i < |name|
    ensures var prefix := CsPrefix(spans, decl);
      var candidate := CsRecased(name, spans, decl);
      && (prefix == "" || prefix == "_")
      && |candidate| == |prefix| + |name|
      && candidate[..|prefix|] == prefix
      && (!Covered(spans, i) ==> candidate[|prefix| + i] == name[i])
      && SameIgnoringCase(candidate[|prefix| + i], name[i])
      && forall k :: 0 <= k < |spans| && spans[k].index <= i < spans[k].End() ==>
           candidate[|prefix| + i] == CsWord(name, spans[k], decl)[i - spans[k].index]
  {
    var prefix := CsPrefix(spans, decl);
    var body := CsBody(name, spans, decl);
    assert (prefix + body)[|prefix| + i] == body[i];
    CsBodyAt(name, spans, decl, i);
    forall k | 0 <= k < |spans| && spans[k].index <= i < spans[k].End()
      ensures body[i] == CsWord(name, spans[k], decl)[i - spans[k].index]
    {
      CsBodyInSpan(name, spans, decl, k, i);
    }
  }

  /** The interface branch never fires: an interface name that starts with `I`
      has no abbreviation at index 0. So an interface name is recased like any
      other declaration that is not a parameter or variable. */
  lemma InterfaceRecasedAsOther(name: string, k: nat)
    requires k < |CsSpans(name, Some(InterfaceDecl))|
    ensures var sp := CsSpans(name, Some(InterfaceDecl))[k];
      !UppersSecond(name, sp, Some(InterfaceDecl))
      && CsWord(name, sp, Some(InterfaceDecl)) == CsWord(name, sp, Some(OtherDecl))
  {
    var spans := CsSpans(name, Some(InterfaceDecl));
    assert spans == AbbreveaturesInSymbol(name, true);
    var sp := spans[k];
    assert sp.index >= AbbreviationHelper.ScanStart(name, true);
    var a := CsWord(name, sp, Some(InterfaceDecl));
    var b := CsWord(name, sp, Some(OtherDecl));
    assert !UppersSecond(name, sp, Some(InterfaceDecl));
    assert |a| == |b|;
    assert forall j :: 0 <= j < |a| ==> a[j] == b[j];
  }

  // ---------------------------------------------------------------------------
  // The numeric suffix.

  /** The `index`-th name tried: the base name, then the base name followed by
      1, 2, ... */
  function Probe(baseName: string, index: nat): (name: string)
    ensures index == 0 ==> name == baseName
    ensures index > 0 ==> |name| > |baseName| && name[..|baseName|] == baseName
  {
    if index == 0 then baseName else baseName + NatToString(index)
  }

  /** Distinct indices give distinct names. */
  lemma ProbeInjective(baseName: string, i: nat, j: nat)
    requires Probe(baseName, i) == Probe(baseName, j)
    ensures i == j
  {
    if i > 0 && j > 0 {
      assert NatToString(i) == Probe(baseName, i)[|baseName|..];
      assert NatToString(j) == Probe(baseName, j)[|baseName|..];
      NatToStringInjective(i, j);
    }
  }

  function ProbeSet(baseName: string, n: nat): set<string> {
    set j | 0 <= j < n :: Probe(baseName, j)
  }

  lemma {:induction false} ProbeSetSize(baseName: string, n: nat)
    ensures |ProbeSet(baseName, n)| == n
  {
    if n > 0 {
      ProbeSetSize(baseName, n - 1);
      ProbeSetGrows(baseName, n - 1);
      AddNewElement(ProbeSet(baseName, n - 1), Probe(baseName, n - 1));
    }
  }

  lemma AddNewElement<T>(a: set<T>, x: T)
    requires x !in a
    ensures |a + {x}| == |a| + 1
  {
  }

  /** Each probe adds a name not seen before. */
  lemma ProbeSetGrows(baseName: string, n: nat)
    ensures ProbeSet(baseName, n + 1) == ProbeSet(baseName, n) + {Probe(baseName, n)}
    ensures Probe(baseName, n) !in ProbeSet(baseName, n)
  {
    assert ProbeSet(baseName, n + 1) == ProbeSet(baseName, n) + {Probe(baseName, n)};
    if Probe(baseName, n) in ProbeSet(baseName, n) {
      var j :| 0 <= j < n && Probe(baseName, j) == Probe(baseName, n);
      ProbeInjective(baseName, j, n);
    }
  }

  /** `n` taken probes in a row need at least `n` taken names. */
  lemma ProbesExhaustTaken(symbol: Symbol, baseName: string, n: nat)
    requires forall j :: 0 <= j < n ==> !IsValidNewMemberName(symbol, Probe(baseName, j))
    ensures n <= |TakenNames(symbol)|
  {
    forall x | x in ProbeSet(baseName, n)
      ensures x in TakenNames(symbol)
    {
      var j :| 0 <= j < n && x == Probe(baseName, j);
      IsValidIffNotTaken(symbol, x);
    }
    ProbeSetSize(baseName, n);
    var probes, taken := ProbeSet(baseName, n), TakenNames(symbol);
    assert taken == probes + (taken - probes) && probes * (taken - probes) == {};
  }

  /** The suffix loop: try the probes in order and stop at the first valid
      one. It stops after at most as many steps as there are taken names. */
  method ResolveUniqueName(symbol: Symbol, baseName: string) returns (newName: string, index: nat)
    ensures newName == Probe(baseName, index)
    ensures IsValidNewMemberName(symbol, newName)
    ensures forall j :: 0 <= j < index ==> !IsValidNewMemberName(symbol, Probe(baseName, j))
    ensures index <= |TakenNames(symbol)|
    ensures IsValidNewMemberName(symbol, baseName) ==> newName == baseName
  {
    index := 0;
    newName := baseName;
    while !IsValidNewMemberName(symbol, newName)
      invariant newName == Probe(baseName, index)
      invariant forall j :: 0 <= j < index ==> !IsValidNewMemberName(symbol, Probe(baseName, j))
      invariant index <= |TakenNames(symbol)|
      decreases |TakenNames(symbol)| - index
    {
      ProbesExhaustTaken(symbol, baseName, index + 1);
      index := index + 1;
      newName := baseName + NatToString(index);
    }
    assert index > 0 ==> !IsValidNewMemberName(symbol, Probe(baseName, 0));
  }

  /** `RegisterCodeFixesAsync` for one diagnostic: the name offered, if any. A
      namespace is renamed to the candidate unchecked; any other declaration
      needs its declared symbol and gets the first free probe. */
  method RegisterCodeFixes(name: string, decl: Option<CsDeclaration>, symbol: Option<Symbol>)
    returns (fix: Option<string>)
    ensures decl == Some(NamespaceDecl) ==> fix == Some(CsCandidate(name, decl))
    ensures decl.None? || (decl != Some(NamespaceDecl) && symbol.None?) ==> fix.None?
    ensures decl.Some? && decl != Some(NamespaceDecl) && symbol.Some? ==>
      && fix.Some?
      && IsValidNewMemberName(symbol.value, fix.value)
      && (exists index: nat :: fix.value == Probe(CsCandidate(name, decl), index)
            && forall j :: 0 <= j < index ==> !IsValidNewMemberName(symbol.value, Probe(CsCandidate(name, decl), j)))
  {
    var newName := CsCandidate(name, decl);
    if decl == Some(NamespaceDecl) {
      fix := Some(newName);
    } else if decl.Some? {
      if symbol.None? {
        fix := None;
      } else {
        var unique, index := ResolveUniqueName(symbol.value, newName);
        fix := Some(unique);
      }
    } else {
      fix := None;
    }
  }
}
