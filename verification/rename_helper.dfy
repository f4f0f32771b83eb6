/** The C# fixer's copy of the abbreviation matcher, with its fixed skip set,
    and the check that a new name does not collide with a name already in
    scope. */
module RenameHelper {
  import opened Chars
  import opened RegexScan
  import opened SkipKeys
  import AbbreviationHelper

  /** The abbreviations this copy never reports. */
  const AbbreviationsToSkip: set<string> := {"AX", "DTO"}

  /** The end of the text the skip key is looked for in. The guard compares
      the name's length with the match end the wrong way round, so it never
      holds and the window is the match alone. */
  function RenameWindowEnd(name: string, sp: Span): (we: int)
    requires sp.End() <= |name|
    ensures we == sp.End()
  {
    var length := sp.End();
    if |name| < length then length + 1 else length
  }

  function RenameKey(name: string, sp: Span): string
    requires sp.End() <= |name|
  {
    SkipKey(name[sp.index..RenameWindowEnd(name, sp)])
  }

  /** The matches whose key is not one of the fixed skipped abbreviations, in
      their original order. */
  function KeepUnregistered(name: string, matches: seq<Span>): (r: seq<Span>)
    requires forall i :: 0 <= i < |matches| ==> matches[i].End() <= |name|
    ensures forall sp :: sp in r <==> sp in matches && RenameKey(name, sp) !in AbbreviationsToSkip
  {
    if |matches| == 0 then []
    else
      var rest := KeepUnregistered(name, matches[1..]);
      if RenameKey(name, matches[0]) in AbbreviationsToSkip then rest else [matches[0]] + rest
  }

  lemma {:induction false} KeepUnregisteredKeepsOrder(name: string, matches: seq<Span>, from: nat)
    requires SpansWithin(matches, from, |name|)
    ensures SpansWithin(KeepUnregistered(name, matches), from, |name|)
  {
    if |matches| > 0 {
      SpansWithinTail(matches, from, |name|);
      KeepUnregisteredKeepsOrder(name, matches[1..], matches[0].End());
      SpansWithinCons(matches[0], KeepUnregistered(name, matches[1..]), from, |name|);
    }
  }

  /** When no match is keyed by a skipped abbreviation, every match is kept,
      in scan order. */
  lemma {:induction false} KeepUnregisteredKeepsAll(name: string, matches: seq<Span>)
    requires forall i :: 0 <= i < |matches| ==> matches[i].End() <= |name|
    requires forall i :: 0 <= i < |matches| ==> RenameKey(name, matches[i]) !in AbbreviationsToSkip
    ensures KeepUnregistered(name, matches) == matches
  {
    if |matches| > 0 {
      KeepUnregisteredKeepsAll(name, matches[1..]);
      assert [matches[0]] + matches[1..] == matches;
    }
  }

  /** When every match is keyed by `AX` or `DTO`, none is kept. */
  lemma {:induction false} KeepUnregisteredDropsAll(name: string, matches: seq<Span>)
    requires forall i :: 0 <= i < |matches| ==> matches[i].End() <= |name|
    requires forall i :: 0 <= i < |matches| ==> RenameKey(name, matches[i]) in AbbreviationsToSkip
    ensures KeepUnregistered(name, matches) == []
  {
    if |matches| > 0 {
      KeepUnregisteredDropsAll(name, matches[1..]);
    }
  }

  /** `GetAbbreveaturesInSymbol`: the same scan as the settings copy, past the
      `I` of an interface name, less the matches keyed `AX` or `DTO`. */
  function AbbreveaturesInSymbol(name: string, parentIsInterface: bool): (r: seq<Span>)
    ensures SpansWithin(r, AbbreviationHelper.ScanStart(name, parentIsInterface), |name|)
    ensures forall sp :: sp in r <==>
      sp in Scan(name, AbbreviationHelper.ScanStart(name, parentIsInterface))
      && RenameKey(name, sp) !in AbbreviationsToSkip
  {
    var start := AbbreviationHelper.ScanStart(name, parentIsInterface);
    KeepUnregisteredKeepsOrder(name, Scan(name, start), start);
    KeepUnregistered(name, AbbreviationHelper.PatternMatches(name, parentIsInterface))
  }

  /** A match is dropped exactly when its capitals, all of them, spell `AX`
      or `DTO`: `MyDTO` is clean, while `DTOName` keeps `DTON`. */
  lemma RenameSkipsExactCapitals(name: string, parentIsInterface: bool, sp: Span)
    requires sp in Scan(name, AbbreviationHelper.ScanStart(name, parentIsInterface))
    ensures sp.End() <= |name|
    ensures sp in AbbreveaturesInSymbol(name, parentIsInterface) <==>
      Capitals(sp.Value(name)) !in AbbreviationsToSkip
  {
    SpanInScanIsMatch(name, AbbreviationHelper.ScanStart(name, parentIsInterface), sp);
    RenameKeyOfMatch(name, sp);
  }

  /** The key of a match is its capitals. */
  lemma RenameKeyOfMatch(name: string, sp: Span)
    requires sp.index < |name| && MatchAt(name, sp.index) == Some(sp.End())
    ensures sp.End() <= |name| && RenameKey(name, sp) == Capitals(sp.Value(name))
  {
    SpanKey(name, sp.index, sp.End());
  }

  /** When no match's capitals spell a skipped abbreviation, the copy reports
      every match, in scan order. */
  lemma RenameKeepsCleanMatches(name: string, parentIsInterface: bool)
    requires forall sp :: sp in Scan(name, AbbreviationHelper.ScanStart(name, parentIsInterface)) ==>
      Capitals(sp.Value(name)) !in AbbreviationsToSkip
    ensures AbbreveaturesInSymbol(name, parentIsInterface) ==
      Scan(name, AbbreviationHelper.ScanStart(name, parentIsInterface))
  {
    var start := AbbreviationHelper.ScanStart(name, parentIsInterface);
    var matches := Scan(name, start);
    forall i | 0 <= i < |matches|
      ensures matches[i].End() <= |name| && RenameKey(name, matches[i]) !in AbbreviationsToSkip
    {
      SpanInScanIsMatch(name, start, matches[i]);
      RenameKeyOfMatch(name, matches[i]);
    }
    KeepUnregisteredKeepsAll(name, matches);
  }

  /** The two copies of the matcher given the same skip set differ only on a
      match that ends in a capital followed by a lowercase letter. */
  lemma CopiesDifferOnlyBeforeLowercase(name: string, parentIsInterface: bool, sp: Span)
    requires sp in Scan(name, AbbreviationHelper.ScanStart(name, parentIsInterface))
    requires sp.End() == |name| || !IsLower(name[sp.End()]) || !IsUpper(name[sp.End() - 1])
    ensures sp in AbbreveaturesInSymbol(name, parentIsInterface) <==>
      sp in AbbreviationHelper.AbbreviationsInSymbol(name, parentIsInterface, AbbreviationsToSkip)
  {
    RenameSkipsExactCapitals(name, parentIsInterface, sp);
    AbbreviationHelper.SettingsSkipsRegisteredCapitals(name, parentIsInterface, AbbreviationsToSkip, sp);
  }

  // ---------------------------------------------------------------------------
  // The scope a renamed symbol lives in.

  datatype TypeKind = Class | Struct | Interface | Enum | Delegate | OtherTypeKind

  /** The declarations `LocalNameFinder` stops at. */
  datatype LocalKind =
    | VariableDeclarator | Parameter | TypeParameter | CatchDeclaration
    | QueryContinuation | FromClause | LetClause | JoinClause | JoinIntoClause
    | ForEachStatement | LabeledStatement

  /** A node of a method's syntax that carries a name: one of the visited
      declarations, an anonymous-object member (whose `name =` part may be
      absent), or any node the walker does not look at. */
  datatype LocalNode =
    | Declares(kind: LocalKind, identifier: string)
    | AnonymousMember(nameEquals: Option<string>)
    | Unvisited(identifier: string)

  datatype Method = Method(parameters: seq<string>, typeParameters: seq<string>, syntax: seq<LocalNode>)

  /** What the symbol is declared in. A method container lists the method and
      then the methods around it, innermost first. */
  datatype Container =
    | NamespaceContainer(namespaceMembers: set<string>)
    | TypeContainer(typeKind: TypeKind, typeName: string, typeMembers: set<string>)
    | MethodContainer(innermost: Method, enclosing: seq<Method>)
    | OtherContainer

  datatype SymbolKind = NamedType(typeKind: TypeKind, memberNames: set<string>) | OtherSymbol

  datatype Symbol = Symbol(kind: SymbolKind, container: Container)

  predicate IsClassOrStruct(k: TypeKind) {
    k == Class || k == Struct
  }

  /** The names a node of a method's syntax makes unavailable. */
  function NodeNames(node: LocalNode): set<string> {
    match node
    case Declares(_, identifier) => {identifier}
    case AnonymousMember(Some(identifier)) => {identifier}
    case AnonymousMember(None) => {}
    case Unvisited(_) => {}
  }

  /** `LocalNameFinder`: walk the nodes, setting `Found` when a visited node
      declares `name`. */
  function LocalNameFinder(name: string, nodes: seq<LocalNode>): (found: bool)
    ensures found <==> exists i :: 0 <= i < |nodes| && name in NodeNames(nodes[i])
  {
    if |nodes| == 0 then false
    else
      var hit := match nodes[0]
        case Declares(_, identifier) => identifier == name
        case AnonymousMember(nameEquals) => nameEquals == Some(name)
        case Unvisited(_) => false;
      var rest := LocalNameFinder(name, nodes[1..]);
      assert forall i :: 1 <= i < |nodes| ==> nodes[i] == nodes[1..][i - 1];
      hit || rest
  }

  predicate DeclaresParameter(m: Method, name: string) {
    name in m.parameters || name in m.typeParameters
  }

  /** The loop over the enclosing methods: none has a parameter or type
      parameter called `name`. */
  function EnclosingMethodsClear(enclosing: seq<Method>, name: string): bool {
    if |enclosing| == 0 then true
    else !DeclaresParameter(enclosing[0], name) && EnclosingMethodsClear(enclosing[1..], name)
  }

  function Outermost(innermost: Method, enclosing: seq<Method>): Method {
    if |enclosing| == 0 then innermost else enclosing[|enclosing| - 1]
  }

  /** `IsValidNewMemberNameAsync`: whether `symbol` may be renamed to `name`
      without clashing with a member, the containing type, a sibling, a
      parameter of an enclosing method or a local of the outermost method. */
  function IsValidNewMemberName(symbol: Symbol, name: string): bool {
    if symbol.kind.NamedType? && IsClassOrStruct(symbol.kind.typeKind) && name in symbol.kind.memberNames then
      false
    else
      match symbol.container
      case NamespaceContainer(members) => name !in members
      case TypeContainer(typeKind, typeName, members) =>
        if IsClassOrStruct(typeKind) && typeName == name then false
        else name !in members
      case MethodContainer(innermost, enclosing) =>
        if DeclaresParameter(innermost, name) then false
        else if !EnclosingMethodsClear(enclosing, name) then false
        else !LocalNameFinder(name, Outermost(innermost, enclosing).syntax)
      case OtherContainer => true
  }

  // ---------------------------------------------------------------------------
  // The same check, stated as a set of names already taken.

  function ParameterNames(methods: seq<Method>): set<string> {
    set i, x | 0 <= i < |methods| && x in methods[i].parameters + methods[i].typeParameters :: x
  }

  function LocalNames(nodes: seq<LocalNode>): set<string> {
    set i, x | 0 <= i < |nodes| && x in NodeNames(nodes[i]) :: x
  }

  /** Every name the symbol cannot be renamed to. */
  function TakenNames(symbol: Symbol): set<string> {
    var own := if symbol.kind.NamedType? && IsClassOrStruct(symbol.kind.typeKind)
      then symbol.kind.memberNames else {};
    own +
      match symbol.container
      case NamespaceContainer(members) => members
      case TypeContainer(typeKind, typeName, members) =>
        members + (if IsClassOrStruct(typeKind) then {typeName} else {})
      case MethodContainer(innermost, enclosing) =>
        ParameterNames([innermost] + enclosing) + LocalNames(Outermost(innermost, enclosing).syntax)
      case OtherContainer => {}
  }

  lemma {:induction false} EnclosingMethodsClearIff(enclosing: seq<Method>, name: string)
    ensures EnclosingMethodsClear(enclosing, name) <==> name !in ParameterNames(enclosing)
  {
    if |enclosing| > 0 {
      EnclosingMethodsClearIff(enclosing[1..], name);
      if name in ParameterNames(enclosing) {
        var i, x :| 0 <= i < |enclosing| && x in enclosing[i].parameters + enclosing[i].typeParameters && x == name;
        if i > 0 {
          assert enclosing[1..][i - 1] == enclosing[i];
        }
      }
      if name in ParameterNames(enclosing[1..]) {
        var i, x :| 0 <= i < |enclosing[1..]| && x in enclosing[1..][i].parameters + enclosing[1..][i].typeParameters && x == name;
        assert enclosing[i + 1] == enclosing[1..][i];
      }
      if DeclaresParameter(enclosing[0], name) {
        assert name in enclosing[0].parameters + enclosing[0].typeParameters;
      }
    }
  }

  /** A name is valid exactly when it is not taken. */
  lemma IsValidIffNotTaken(symbol: Symbol, name: string)
    ensures IsValidNewMemberName(symbol, name) <==> name !in TakenNames(symbol)
  {
    match symbol.container
    case MethodContainer(innermost, enclosing) =>
      EnclosingMethodsClearIff([innermost] + enclosing, name);
      assert ([innermost] + enclosing)[1..] == enclosing;
      var nodes := Outermost(innermost, enclosing).syntax;
      assert LocalNameFinder(name, nodes) <==> name in LocalNames(nodes);
    case _ =>
  }
}
