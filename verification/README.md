# Abbreviation detector and renamer, modelled in Dafny

ApplyCodeFixers runs a Roslyn analyzer over C# and Visual Basic projects. The
analyzer reports every identifier that contains an abbreviation, and two fix
providers rename such identifiers. An abbreviation is a run of capitals, with
or without digits, found by the regular expression

    \d+[A-Z]{2,}$|\d+[A-Z]{3,}|[A-Z]{2,}$|[A-Z]{2,}\d+|[A-Z]{3,}

Examples: `DB33`, `TFT` and `222DXS` in `Name773DB33TFTname222DXS`. The
fixers recase each abbreviation (`Db33`, `TfT`, `222dxs`), add a `_` to a
private field whose name starts with one, and, in C#, append the first
numeric suffix that makes the new name free in its scope.

The model is functional: names are `string`, matches are `Span(index, length)`,
and each piece of the pipeline is a pure function with lemmas about it.

| file | module | what it holds |
|---|---|---|
| `chars.dfy` | `Chars` | ASCII character classes, `char.ToLower`/`ToUpper`, `int.ToString()` and its inverse |
| `regex_scan.dfy` | `RegexScan` | the abbreviation pattern as an explicit scanner: the five alternatives, ordered alternation, the leftmost non-overlapping scan, and proofs that it is the scan `Regex.Matches` defines |
| `skip_key.dfy` | `SkipKeys` | the key pattern `([A-Z]{2,})(?![a-z])` and what its match is for a window over a reported abbreviation |
| `abbreviation_helper.dfy` | `AbbreviationHelper` | `GetAbbreviationsInSymbol` (skip set from settings), the analyzer's report decision, and the `RegisterCodeFix` counter cap, which neither fixer calls |
| `rename_helper.dfy` | `RenameHelper` | `GetAbbreveaturesInSymbol` (fixed skip set `{"AX", "DTO"}`), `IsValidNewMemberNameAsync` and `LocalNameFinder` over an abstract scope |
| `recasing.dfy` | `Recasing` | accessibility, and assembling a new name from the gaps and the recased abbreviations |
| `cs_fix_provider.dfy` | `CsFixProvider` | the C# fixer: per-character casing rules, the `_` prefix, the numeric-suffix loop, the namespace bypass |
| `vb_fix_provider.dfy` | `VbFixProvider` | the Visual Basic fixer: its own field rule, the digit rule, no uniqueness check |
| `doc_examples.dfy` | `DocExamples` | the names listed in the matcher's documentation comment and the fixer's unit test, worked through the model |

The matcher exists twice in the source, and the model keeps both copies:

- `AbbreviationHelper.AbbreviationsInSymbol` looks for the skip key in the
  match plus the character after it.
- `RenameHelper.AbbreveaturesInSymbol` looks in the match alone, because its
  extension guard `ValueText.Length < match.Index + match.Value.Length` can
  never hold.

In both copies, an interface name that starts with `I` gets the extra
alternative `^I`. That alternative wins at index 0, and its match is thrown
away. The model scans with `^I|(pattern)` as the source does
(`RegexScan.InterfaceScan`) and drops the first match
(`AbbreviationHelper.PatternMatches`). It proves that what is left is the
plain pattern's scan from index 1 (`ScanStart`).

Where the code does something other than its comments, its test or its
evident intent suggest, the model follows the code:

- `IDDeal` as an interface name has no abbreviation at all: `DD` before a
  lowercase letter matches no alternative. So no fix `IDeal` is offered
  (`DocExamples.AbbreviationsOfIDDeal`).
- The C# fixer's branch that re-uppercases the second character of an
  interface abbreviation starting with `I` can never fire, because no
  reported span of such a name starts at index 0
  (`CsFixProvider.InterfaceRecasedAsOther`).
- The rename counter is a plain static `int` incremented without
  synchronisation. It is modelled as a sequential counter with C#'s
  unchecked wrap-around.
- Neither fixer calls `AbbreviationHelper.RegisterCodeFix`. Both register
  their fixes with `context.RegisterCodeFix` directly
  (AbbreviationFixCodeFixProvider.cs lines 120 and 145,
  AbbreviationVBFixProvider.cs line 122). So the cap of 1000 limits none of
  the fixes the two fixers offer. The model keeps the capped method on its
  own, and the fixer models are not subject to it.
- The unit test expects `ABCd` → `abCd` and `abcDE` → `abcdE`. The code
  gives `_abCd` and `abcDe` for these private fields. The model follows the
  code and does not state the test's values.

## Model

| member | source | states |
|---|---|---|
| RegexScan.RunEndIsMaximal | AbbreviationFix/AbbreviationFix/AbbreviationHelper.cs:37 | A greedy `\d+` or `[A-Z]+` run covers only characters of its class and stops at the first character outside it, or at the end of the name. |
| RegexScan.MatchAt | AbbreviationFix/AbbreviationFix/AbbreviationHelper.cs:37 | A match of the abbreviation pattern is at least two characters long and lies inside the name. |
| RegexScan.AlternativeIsLongestMatch | AbbreviationFix/AbbreviationFix/AbbreviationHelper.cs:37 | Each of the five alternatives, with its anchor, returns a word of its own language starting at the position. It returns the longest such word, and fails exactly when there is none. So greedy matching without backtracking gives the regex's result. |
| RegexScan.MatchHasShape | AbbreviationFix/AbbreviationFix/AbbreviationHelper.cs:37 | A match is digits then capitals, capitals then digits, or capitals only. A capital run that does not end the name has at least three capitals and is not followed by a capital. A digit tail is not followed by a digit. |
| RegexScan.Scan | AbbreviationFix/AbbreviationFix/AbbreviationHelper.cs:47-49 | The matches start at or after the scan start, end inside the name, are at least two characters long, and are strictly increasing and non-overlapping. |
| RegexScan.SpansWithinPairwise | AbbreviationFix/AbbreviationFix/AbbreviationHelper.cs:47-49 | Any two matches, not only neighbours, are disjoint and in order. |
| RegexScan.ScanIsLeftmost | AbbreviationFix/AbbreviationFix/AbbreviationHelper.cs:47-49 | The scan returns the leftmost match sequence. Each span is the pattern's match at its own start, no position passed over starts a match, and scanning resumes at a match's end. |
| RegexScan.LeftmostIsScan | AbbreviationFix/AbbreviationFix/AbbreviationHelper.cs:47-49 | The leftmost match sequence is unique: any sequence with that property equals the scan. |
| RegexScan.ScanSpansAreMatches | AbbreviationFix/AbbreviationFix/AbbreviationHelper.cs:47-49 | Every reported span is exactly the pattern's match at its index. |
| RegexScan.ScanEmptyIff | AbbreviationFix/AbbreviationFix/AbbreviationHelper.cs:47-49 | The scan finds nothing exactly when no two capitals at or after the start are followed by the end of the name, a third capital or a digit. |
| SkipKeys.SkipKeyFrom | AbbreviationFix/AbbreviationFix/AbbreviationHelper.cs:66-69 | The skip key is either empty, the value of a failed match, or at least two capitals. |
| SkipKeys.KeyOfCapitalRun | AbbreviationFix/AbbreviationFix/AbbreviationHelper.cs:66-69 | For digits followed by a maximal capital run, the key is that run. When a lowercase letter follows the run, the key gives back the run's last capital. |
| SkipKeys.SpanKey | AbbreviationFix/AbbreviationFix/AbbreviationHelper.cs:58-69 | For a window that is a reported match, or the match plus one character, the key is the match's capitals. The one exception: when the extra character is lowercase and follows a capital, the key is those capitals less the last one. |
| RegexScan.InterfaceScanPastStart | AbbreviationFix/AbbreviationFix/AbbreviationHelper.cs:39-47 | Past index 0 the anchored `^I` never matches, so the interface pattern finds the same matches as the plain pattern. |
| RegexScan.InterfaceScanLeadsWithI | AbbreviationFix/AbbreviationFix/AbbreviationHelper.cs:39-47 | For a name starting with `I`, the first match of the interface pattern (the alternative `^I` before the plain pattern) is the `I` alone, followed by the pattern's matches from index 1. |
| AbbreviationHelper.PatternMatches | AbbreviationFix/AbbreviationFix/AbbreviationHelper.cs:39-56 | For an `I`-led interface name, the discarded first match is exactly the `I`, and the matches kept are the plain pattern's scan from index 1. Any other name is scanned from 0. |
| AbbreviationHelper.KeepUnskipped | AbbreviationFix/AbbreviationFix/AbbreviationHelper.cs:71-76 | A match is kept exactly when its settings key is not in the skip set. |
| AbbreviationHelper.KeepUnskippedKeepsOrder | AbbreviationFix/AbbreviationFix/AbbreviationHelper.cs:71-76 | Filtering keeps the surviving matches in scan order and non-overlapping. |
| AbbreviationHelper.KeepUnskippedKeepsAll | AbbreviationFix/AbbreviationFix/AbbreviationHelper.cs:71-76 | When no key is skipped, for example with an empty skip set, the output is the scan output unchanged. |
| AbbreviationHelper.KeepUnskippedDropsAll | AbbreviationFix/AbbreviationFix/AbbreviationHelper.cs:71-74 | When every key is skipped, nothing is returned. |
| AbbreviationHelper.AbbreviationsInSymbol | AbbreviationFix/AbbreviationFix/AbbreviationHelper.cs:35-78 | `GetAbbreviationsInSymbol` returns, in order, exactly the scan's matches from the scan start whose settings key is not skipped. |
| AbbreviationHelper.SettingsSkipsRegisteredCapitals | AbbreviationFix/AbbreviationFix/AbbreviationHelper.cs:58-74 | A scanned match is dropped exactly when its key is in the skip set. The key is its capitals, less the last one when a lowercase letter follows a final capital. |
| AbbreviationHelper.CheckElementNameToken | AbbreviationFix/AbbreviationFix/AbbreviationHelper.cs:80-94 | A diagnostic is reported exactly when the identifier is valid and some match of the scan has a settings key outside the skip set. |
| AbbreviationHelper.KeptIffSomeUnskipped | AbbreviationFix/AbbreviationFix/AbbreviationHelper.cs:71-76 | The skip filter returns something exactly when some match's settings key is not skipped. |
| AbbreviationHelper.ReportIffCapitalPair | AbbreviationFix/AbbreviationFix/AbbreviationHelper.cs:80-111 | With nothing skipped, a diagnostic is reported exactly when the identifier is not missing and not empty, and holds a capital pair at or after the scan start that the pattern must match. |
| AbbreviationHelper.Increment | AbbreviationFix/AbbreviationFix/AbbreviationHelper.cs:98 | The counter's `++` is addition modulo 2^32 in the signed 32-bit range. |
| AbbreviationHelper.RegisterCodeFix | AbbreviationFix/AbbreviationFix/AbbreviationHelper.cs:96-106 | Below 1000, including negative counts, a call forwards the fix and adds one. From 1000 up to 2^31 - 2 it drops the fix and adds one. At 2^31 - 1 the counter wraps to -2^31 and the fix is forwarded. |
| AbbreviationHelper.RegisterManyForwardsAtMostCap | AbbreviationFix/AbbreviationFix/AbbreviationHelper.cs:96-106 | Without wrap-around, `n` calls raise the counter by `n`. Of them, exactly those until the counter reaches 1000 are forwarded, and none after. |
| AbbreviationHelper.CounterWrapResumesForwarding | AbbreviationFix/AbbreviationFix/AbbreviationHelper.cs:98-100 | After 2^31 - 1 the counter wraps to a negative value, and fixes are forwarded again. |
| RenameHelper.RenameWindowEnd | StyleCop.Analyzers/StyleCop.Analyzers.CodeFixes/Helpers/RenameHelper.cs:61-65 | The extension guard never holds, so the key window ends where the match ends. |
| RenameHelper.KeepUnregistered | StyleCop.Analyzers/StyleCop.Analyzers.CodeFixes/Helpers/RenameHelper.cs:74-79 | A match is kept exactly when its key is neither `AX` nor `DTO`. |
| RenameHelper.KeepUnregisteredKeepsOrder | StyleCop.Analyzers/StyleCop.Analyzers.CodeFixes/Helpers/RenameHelper.cs:74-79 | Filtering keeps the surviving matches in scan order and non-overlapping. |
| RenameHelper.KeepUnregisteredKeepsAll | StyleCop.Analyzers/StyleCop.Analyzers.CodeFixes/Helpers/RenameHelper.cs:74-79 | When no key is `AX` or `DTO`, the output is the scan output unchanged. |
| RenameHelper.KeepUnregisteredDropsAll | StyleCop.Analyzers/StyleCop.Analyzers.CodeFixes/Helpers/RenameHelper.cs:74-77 | When every key is `AX` or `DTO`, nothing is returned. |
| RenameHelper.AbbreveaturesInSymbol | StyleCop.Analyzers/StyleCop.Analyzers.CodeFixes/Helpers/RenameHelper.cs:38-81 | `GetAbbreveaturesInSymbol` returns, in order, exactly the scan's matches from the scan start whose key is not `AX` or `DTO`. |
| RenameHelper.RenameSkipsExactCapitals | StyleCop.Analyzers/StyleCop.Analyzers.CodeFixes/Helpers/RenameHelper.cs:61-77 | A scanned match is dropped exactly when all of its capitals spell `AX` or `DTO`. |
| RenameHelper.RenameKeepsCleanMatches | StyleCop.Analyzers/StyleCop.Analyzers.CodeFixes/Helpers/RenameHelper.cs:74-79 | When no match's capitals spell `AX` or `DTO`, this copy returns the scan output unchanged. |
| RenameHelper.CopiesDifferOnlyBeforeLowercase | StyleCop.Analyzers/StyleCop.Analyzers.CodeFixes/Helpers/RenameHelper.cs:61-77 | Given the same skip set, the two matcher copies agree on every match that does not end in a capital followed by a lowercase letter. |
| RenameHelper.LocalNameFinder | StyleCop.Analyzers/StyleCop.Analyzers.CodeFixes/Helpers/RenameHelper.cs:245-315 | `Found` is set exactly when some visited declaration in the method's syntax has the name. The visited declarations are: variable, parameter, type parameter, catch, query continuation, from, let, join, join-into, foreach, label, and an anonymous member's `name =`. |
| RenameHelper.EnclosingMethodsClearIff | StyleCop.Analyzers/StyleCop.Analyzers.CodeFixes/Helpers/RenameHelper.cs:160-169 | The walk out through the enclosing methods finds no clash exactly when no parameter or type parameter of those methods has the name. |
| RenameHelper.IsValidIffNotTaken | StyleCop.Analyzers/StyleCop.Analyzers.CodeFixes/Helpers/RenameHelper.cs:101-188 | `IsValidNewMemberNameAsync` accepts a name exactly when it is not one of the taken names. For a class or struct symbol, these are its members. In a namespace, they are the siblings. In a type, they are the siblings, plus the type's own name when it is a class or struct. In a method, they are the parameters and type parameters of it and of every enclosing method, and the locals of the outermost one. |
| Recasing.AtMostPrivateIsPrivateOrNone | AbbreviationFix/AbbreviationFix/AbbreviationFixCodeFixProvider.cs:79 | `accessibility <= Accessibility.Private` holds exactly for `NotApplicable` and `Private`. |
| Recasing.StartsNameIffAny | AbbreviationFix/AbbreviationFix/AbbreviationFixCodeFixProvider.cs:64-83 | Some abbreviation starts the name exactly when the first one does, so checking the first span decides the prefix. |
| Recasing.Assemble | AbbreviationFix/AbbreviationFix/AbbreviationFixCodeFixProvider.cs:51-103 | Copying the gaps and appending the recased abbreviations gives a body exactly as long as the original name. |
| Recasing.AssembleAt | AbbreviationFix/AbbreviationFix/AbbreviationFixCodeFixProvider.cs:51-103 | Position by position: a character outside every span is the original one, and a character inside a span comes from that span's recased text, at the same offset. |
| Recasing.PrefixedRecased | AbbreviationFix/AbbreviationFix/AbbreviationFixCodeFixProvider.cs:103-105 | A prefix of `""` or `"_"` followed by a body of the original length that changes only letter case is a recasing of the name. |
| CsFixProvider.CsFirstIs | AbbreviationFix/AbbreviationFix/AbbreviationFixCodeFixProvider.cs:55-87 | The first character of a recased abbreviation is lowercase in three cases: after a leading `_` at index 1, at index 0 of a parameter, and at index 0 of any variable. Otherwise it is uppercase. |
| CsFixProvider.CsWordAt | AbbreviationFix/AbbreviationFix/AbbreviationFixCodeFixProvider.cs:55-98 | Each character of a recased abbreviation is the original letter in some case. The first follows `CsFirstIs`. The middle ones are lowercase, except the second in the interface branch. The last is uppercase exactly when the abbreviation does not end the name, or the interface branch applies. |
| CsFixProvider.CsPrefixIffLeadingPrivateField | AbbreviationFix/AbbreviationFix/AbbreviationFixCodeFixProvider.cs:64-83 | The name gets the `_` prefix exactly when some abbreviation starts it and it names a field whose accessibility is `NotApplicable` or `Private`. |
| CsFixProvider.CsBodyAt | AbbreviationFix/AbbreviationFix/AbbreviationFixCodeFixProvider.cs:51-103 | Outside the abbreviations the body keeps the original character. Everywhere it keeps the original letter, up to case. |
| CsFixProvider.CsCandidateShape | AbbreviationFix/AbbreviationFix/AbbreviationFixCodeFixProvider.cs:49-105 | The candidate is the prefix (`""` or `"_"`) followed by a body of the original length. The body matches the original outside abbreviations, differs only in case inside them, and inside span `k` is that span's recased text. |
| CsFixProvider.InterfaceRecasedAsOther | AbbreviationFix/AbbreviationFix/AbbreviationFixCodeFixProvider.cs:89-92 | The interface second-character branch never fires on a reported span. So an interface name is recased like any other non-parameter, non-variable declaration. |
| CsFixProvider.Probe | AbbreviationFix/AbbreviationFix/AbbreviationFixCodeFixProvider.cs:137-143 | Probe 0 is the base name itself. Probe `i > 0` is the base name followed by more characters. |
| CsFixProvider.ProbeInjective | AbbreviationFix/AbbreviationFix/AbbreviationFixCodeFixProvider.cs:141-142 | Different suffix indices give different names. |
| CsFixProvider.ProbeSetSize | AbbreviationFix/AbbreviationFix/AbbreviationFixCodeFixProvider.cs:137-143 | The first `n` probes are `n` distinct names. |
| CsFixProvider.ProbesExhaustTaken | AbbreviationFix/AbbreviationFix/AbbreviationFixCodeFixProvider.cs:137-143 | `n` rejected probes in a row need at least `n` taken names. So the loop cannot run past the number of taken names. |
| CsFixProvider.ResolveUniqueName | AbbreviationFix/AbbreviationFix/AbbreviationFixCodeFixProvider.cs:137-143 | The loop terminates and returns the first valid probe. Every earlier probe is invalid, the index is bounded by the number of taken names, and a valid base name is returned unchanged. |
| CsFixProvider.RegisterCodeFixes | AbbreviationFix/AbbreviationFix/AbbreviationFixCodeFixProvider.cs:107-150 | A namespace gets the candidate unchecked. No declaration, or no declared symbol, means no fix. Otherwise the fix is the first valid probe of the candidate. |
| VbFixProvider.DigitRuleIndex | AbbreviationFix/AbbreviationFix/AbbreviationVBFixProvider.cs:93-100 | When `^\d+([A-Z])[^\d]` matches, the group is a capital that comes after only digits and before a non-digit. |
| VbFixProvider.DigitRuleFires | AbbreviationFix/AbbreviationFix/AbbreviationVBFixProvider.cs:93-95 | Conversely, leading digits, then a capital, then a non-digit make the rule pick that capital. |
| VbFixProvider.VbFirstIs | AbbreviationFix/AbbreviationFix/AbbreviationVBFixProvider.cs:54-89 | The first character is lowercase in these cases: after a leading `_` at index 1, at index 0 of a parameter, at index 0 of a non-field variable, and at index 0 of a field that is at most private. Otherwise it is uppercase; a more accessible field keeps it uppercase. |
| VbFixProvider.VbWordAt | AbbreviationFix/AbbreviationFix/AbbreviationVBFixProvider.cs:54-106 | Each character is the original letter in some case. The first follows `VbFirstIs`. The middle ones are lowercase, except the capital the digit rule picks, which is kept. The last is uppercase exactly when the abbreviation does not end the name. |
| VbFixProvider.DigitLedKeepsCapital | AbbreviationFix/AbbreviationFix/AbbreviationVBFixProvider.cs:92-100 | In a reported abbreviation that starts with digits, the capital after the digits comes before the last character and stays uppercase. |
| VbFixProvider.VbPrefixIffLeadingPrivateField | AbbreviationFix/AbbreviationFix/AbbreviationVBFixProvider.cs:63-83 | The name gets the `_` prefix exactly when some abbreviation starts it and it names a field whose accessibility is `NotApplicable` or `Private`. |
| VbFixProvider.VbBodyAt | AbbreviationFix/AbbreviationFix/AbbreviationVBFixProvider.cs:50-111 | Outside the abbreviations the body keeps the original character. Everywhere it keeps the original letter, up to case. |
| VbFixProvider.VbRecasedSameLetters | AbbreviationFix/AbbreviationFix/AbbreviationVBFixProvider.cs:48-113 | The new name is the original with a `_` in front at most, and with only letter case changed. |
| VbFixProvider.VbRegisterCodeFixes | AbbreviationFix/AbbreviationFix/AbbreviationVBFixProvider.cs:113-128 | A fix is offered exactly when there is a declaration. It is the VB candidate as it is, so every VB casing rule holds of it, with no uniqueness check; it only recases the name. |
| Chars.NatToString | AbbreviationFix/AbbreviationFix/AbbreviationFixCodeFixProvider.cs:142 | The suffix is one or more decimal digits, without a leading zero, and ends in the value's last digit. |
| Chars.NatToStringRoundTrip | AbbreviationFix/AbbreviationFix/AbbreviationFixCodeFixProvider.cs:142 | Reading the suffix back as a decimal number gives the index. |
| Chars.NatToStringInjective | AbbreviationFix/AbbreviationFix/AbbreviationFixCodeFixProvider.cs:142 | Different indices give different suffixes. |
| DocExamples.AbbreviationsOfNAME | AbbreviationFix/AbbreviationFix/AbbreviationHelper.cs:22 | `NAME` has one abbreviation, `NAME`. |
| DocExamples.AbbreviationsOfNameDDisable3DD | AbbreviationFix/AbbreviationFix/AbbreviationHelper.cs:23 | `NameDDisable3DD` has one abbreviation, `3DD`. |
| DocExamples.AbbreviationsOfName3DDaDDaDD | AbbreviationFix/AbbreviationFix/AbbreviationHelper.cs:24 | `Name3DDaDDaDD` has one abbreviation, the final `DD`. The comment marks it with two. |
| DocExamples.AbbreviationsOfName3DS1 | AbbreviationFix/AbbreviationFix/AbbreviationHelper.cs:25 | `Name3DS1` has one abbreviation, `DS1`. |
| DocExamples.AbbreviationsOfNameDX3 | AbbreviationFix/AbbreviationFix/AbbreviationHelper.cs:26 | `NameDX3` has one abbreviation, `DX3`. |
| DocExamples.AbbreviationsOfDX3name | AbbreviationFix/AbbreviationFix/AbbreviationHelper.cs:27 | `DX3name` has one abbreviation, `DX3`. |
| DocExamples.AbbreviationsOfD3Xcase | AbbreviationFix/AbbreviationFix/AbbreviationHelper.cs:28 | `D3Xcase` has no abbreviation, whatever the skip set. |
| DocExamples.AbbreviationsOfName773 | AbbreviationFix/AbbreviationFix/AbbreviationHelper.cs:29 | `Name773DB33TFTname222DXS` has exactly `DB33`, `TFT` and `222DXS`, in that order. |
| DocExamples.AbbreviationsOfName33nA | AbbreviationFix/AbbreviationFix/AbbreviationHelper.cs:30 | `Name33nA` has no abbreviation, whatever the skip set. |
| DocExamples.AbbreviationsOfIDDeal | AbbreviationFix/AbbreviationFix/AbbreviationHelper.cs:39-56 | As an interface name, `IDDeal` has no abbreviation. As another name, it has `IDD`. |
| DocExamples.SkipKeysOfDTOName | StyleCop.Analyzers/StyleCop.Analyzers.CodeFixes/Helpers/RenameHelper.cs:61-77 | With `DTO` skipped, the settings copy drops `DTON` from `DTOName`. The fixer's copy keeps it, because its key is `DTON`. |
| DocExamples.SkipKeysOfMyDTO | StyleCop.Analyzers/StyleCop.Analyzers.CodeFixes/Helpers/RenameHelper.cs:74-77 | Both copies drop the `DTO` of `MyDTO`. |
| DocExamples.CsCandidateOfName773 | AbbreviationFix/AbbreviationFix/AbbreviationFixCodeFixProvider.cs:49-105 | The C# fixer recases `Name773DB33TFTname222DXS` on a class to `Name773Db33TfTname222dxs`. |
| DocExamples.VbCandidateOfName773 | AbbreviationFix/AbbreviationFix/AbbreviationVBFixProvider.cs:48-113 | The Visual Basic fixer gives `Name773Db33TfTname222Dxs`: the digit rule keeps the `D` after `222`. |
| DocExamples.CsCandidateOfTYPEname | AbbreviationFix/AbbreviationFix.Test/UnitTests.cs:38-57 | The class `TYPEname` becomes `TypEname`. |
| DocExamples.ProbesOfSomeVar | AbbreviationFix/AbbreviationFix.Test/UnitTests.cs:38-44 | In the test's class, `_someVar` is taken and `_someVar1` is free. |
| DocExamples.FixOfSOMEVar | AbbreviationFix/AbbreviationFix.Test/UnitTests.cs:40-60 | The private field `SOMEVar` is renamed to `_someVar1`, because `_someVar` already exists. |

## Left out

- Roslyn plumbing is not modelled. The declaration kind, the field's accessibility, the declared symbol and its scope are inputs. This covers syntax-node dispatch in the analyzers, the `GetParentDeclaration` tree walks, semantic-model calls, `CodeAction` creation and `RenameSymbolAsync`. They depend on the compiler's object model, which is not part of this model.
- The namespace scope is a set of member names. In the source it is the compilation namespace, which also holds types from referenced assemblies.
- The accessibility lookup in `AccessLevelVBHelper.cs` depends on code that is not part of this model. Accessibility is an input, ordered as Roslyn's enumeration is.
- Loading the skip set from the JSON settings is not modelled. The skip set is a parameter.
- Culture-sensitive case mapping and non-ASCII `\d` are not modelled: identifiers are treated as ASCII. `$` is the end of the name only. .NET's `$` also matches before a final newline, which an identifier never contains.
- AbbreviationHelper.PatternMatches: an interface name that is empty makes the source throw on `ValueText[0]`. The model scans it from 0, which returns no match. Callers never pass an empty identifier.
- CsFixProvider.ResolveUniqueName: the suffix index is an unbounded `nat`. The source uses an `int`; the index never exceeds the number of taken names, so it stays far below the point where it would wrap.
- Async code, cancellation and the loop over several diagnostics in one context are not modelled. Each fix provider is modelled for one diagnostic.
- `Debug.WriteLine` in the Visual Basic fixer is left out. It is output only.
- The console driver in `Program.cs` is left out: project loading, parallel application of fixes, and exit codes.
- AbbreviationHelper.RegisterCodeFix: the shared counter is modelled as a value passed from call to call. Concurrent increments are not modelled.
- The unit test's expectations `abCd`, `abcdE` and `StdNameWithTwoCapsCcharacters` are not stated. The fix provider and analyzer classes that test names are not part of this model, and the code gives other values.
