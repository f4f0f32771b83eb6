/** Worked examples: names from the analyzer's documentation and the fixer's
    unit test, run through the matcher and the two fix providers. Each
    example is stated for a string literal; the proofs go through a
    character-by-character description of that literal. */
module DocExamples {
  import opened Chars
  import opened RegexScan
  import opened SkipKeys
  import AbbreviationHelper
  import opened RenameHelper
  import opened Recasing
  import opened CsFixProvider
  import opened VbFixProvider

  // ---------------------------------------------------------------------------
  // Name773DB33TFTname222DXS

  /** `s` is `Name773DB33TFTname222DXS`, character by character. */
  predicate SpellsName773(s: string) {
    |s| == 24 && s[0] == 'N' && s[1] == 'a' && s[2] == 'm' && s[3] == 'e' && s[4] == '7'
    && s[5] == '7' && s[6] == '3' && s[7] == 'D' && s[8] == 'B' && s[9] == '3' && s[10] == '3'
    && s[11] == 'T' && s[12] == 'F' && s[13] == 'T' && s[14] == 'n' && s[15] == 'a'
    && s[16] == 'm' && s[17] == 'e' && s[18] == '2' && s[19] == '2' && s[20] == '2'
    && s[21] == 'D' && s[22] == 'X' && s[23] == 'S'
  }

  lemma CharsName773At0(s: string)
    requires s == "Name773DB33TFTname222DXS"
    ensures |s| == 24 && s[0] == 'N' && s[1] == 'a' && s[2] == 'm' && s[3] == 'e' && s[4] == '7'
      && s[5] == '7'
  {
  }

  lemma CharsName773At6(s: string)
    requires s == "Name773DB33TFTname222DXS"
    ensures |s| == 24 && s[6] == '3' && s[7] == 'D' && s[8] == 'B' && s[9] == '3' && s[10] == '3'
      && s[11] == 'T'
  {
  }

  lemma CharsName773At12(s: string)
    requires s == "Name773DB33TFTname222DXS"
    ensures |s| == 24 && s[12] == 'F' && s[13] == 'T' && s[14] == 'n' && s[15] == 'a' && s[16] == 'm'
      && s[17] == 'e'
  {
  }

  lemma CharsName773At18(s: string)
    requires s == "Name773DB33TFTname222DXS"
    ensures |s| == 24 && s[18] == '2' && s[19] == '2' && s[20] == '2' && s[21] == 'D' && s[22] == 'X'
      && s[23] == 'S'
  {
  }

  /** The predicate holds of that string and of no other. */
  lemma SpellsName773Exactly(s: string)
    ensures SpellsName773(s) <==> s == "Name773DB33TFTname222DXS"
  {
    if s == "Name773DB33TFTname222DXS" {
      CharsName773At0(s);
      CharsName773At6(s);
      CharsName773At12(s);
      CharsName773At18(s);
    }
  }

  lemma ScanName773From18(s: string)
    requires SpellsName773(s)
    ensures Scan(s, 18) == [Span(18, 6)]
  {
    RunEndIs(s, 18, 21, Digit); RunEndIs(s, 18, 18, Upper); RunEndIs(s, 21, 24, Upper);
    assert MatchAt(s, 18) == Some(24);
    ScanHitStep(s, 18, 24);
  }

  lemma ScanName773From16(s: string)
    requires SpellsName773(s)
    ensures Scan(s, 16) == [Span(18, 6)]
  {
    ScanName773From18(s);
    ScanPassesOver(s, 17);
    ScanPassesOver(s, 16);
  }

  lemma ScanName773From14(s: string)
    requires SpellsName773(s)
    ensures Scan(s, 14) == [Span(18, 6)]
  {
    ScanName773From16(s);
    ScanPassesOver(s, 15);
    ScanPassesOver(s, 14);
  }

  lemma ScanName773From11(s: string)
    requires SpellsName773(s)
    ensures Scan(s, 11) == [Span(11, 3), Span(18, 6)]
  {
    ScanName773From14(s);
    RunEndIs(s, 11, 11, Digit); RunEndIs(s, 11, 14, Upper); RunEndIs(s, 14, 14, Digit);
    assert MatchAt(s, 11) == Some(14);
    ScanHitStep(s, 11, 14);
  }

  lemma ScanName773From7(s: string)
    requires SpellsName773(s)
    ensures Scan(s, 7) == [Span(7, 4), Span(11, 3), Span(18, 6)]
  {
    ScanName773From11(s);
    RunEndIs(s, 7, 7, Digit); RunEndIs(s, 7, 9, Upper); RunEndIs(s, 9, 11, Digit);
    assert MatchAt(s, 7) == Some(11);
    ScanHitStep(s, 7, 11);
  }

  lemma ScanName773From6(s: string)
    requires SpellsName773(s)
    ensures Scan(s, 6) == [Span(7, 4), Span(11, 3), Span(18, 6)]
  {
    ScanName773From7(s);
    RunEndIs(s, 6, 7, Digit); RunEndIs(s, 6, 6, Upper); RunEndIs(s, 7, 9, Upper);
    assert MatchAt(s, 6).None?;
    ScanMissStep(s, 6);
  }

  lemma ScanName773From5(s: string)
    requires SpellsName773(s)
    ensures Scan(s, 5) == [Span(7, 4), Span(11, 3), Span(18, 6)]
  {
    ScanName773From6(s);
    RunEndIs(s, 5, 7, Digit); RunEndIs(s, 5, 5, Upper); RunEndIs(s, 7, 9, Upper);
    assert MatchAt(s, 5).None?;
    ScanMissStep(s, 5);
  }

  lemma ScanName773From4(s: string)
    requires SpellsName773(s)
    ensures Scan(s, 4) == [Span(7, 4), Span(11, 3), Span(18, 6)]
  {
    ScanName773From5(s);
    RunEndIs(s, 4, 7, Digit); RunEndIs(s, 4, 4, Upper); RunEndIs(s, 7, 9, Upper);
    assert MatchAt(s, 4).None?;
    ScanMissStep(s, 4);
  }

  lemma ScanName773From2(s: string)
    requires SpellsName773(s)
    ensures Scan(s, 2) == [Span(7, 4), Span(11, 3), Span(18, 6)]
  {
    ScanName773From4(s);
    ScanPassesOver(s, 3);
    ScanPassesOver(s, 2);
  }

  lemma ScanName773From1(s: string)
    requires SpellsName773(s)
    ensures Scan(s, 1) == [Span(7, 4), Span(11, 3), Span(18, 6)]
  {
    ScanName773From2(s);
    ScanPassesOver(s, 1);
  }

  lemma ScanName773From0(s: string)
    requires SpellsName773(s)
    ensures Scan(s, 0) == [Span(7, 4), Span(11, 3), Span(18, 6)]
  {
    ScanName773From1(s);
    RunEndIs(s, 0, 0, Digit); RunEndIs(s, 0, 1, Upper); RunEndIs(s, 1, 1, Digit);
    assert MatchAt(s, 0).None?;
    ScanMissStep(s, 0);
  }

  /** Three abbreviations: `DB33`, `TFT` and `222DXS`. The lowercase `name`
      ends the middle run, and digits join the capitals before or after them. */
  lemma AbbreviationsOfName773(s: string)
    requires s == "Name773DB33TFTname222DXS"
    ensures AbbreviationHelper.AbbreviationsInSymbol(s, false, {}) == [Span(7, 4), Span(11, 3), Span(18, 6)]
    ensures s[7..11] == "DB33" && s[11..14] == "TFT" && s[18..24] == "222DXS"
  {
    SpellsName773Exactly(s);
    AbbreviationsName773(s);
  }

  lemma AbbreviationsName773(s: string)
    requires SpellsName773(s)
    ensures AbbreviationHelper.AbbreviationsInSymbol(s, false, {}) == [Span(7, 4), Span(11, 3), Span(18, 6)]
  {
    ScanName773From0(s);
    AbbreviationHelper.KeepUnskippedKeepsAll(s, [Span(7, 4), Span(11, 3), Span(18, 6)], {});
  }

  /** The keys of the three abbreviations are their capitals, none of them
      `AX` or `DTO`. */
  lemma RenameKeysName773(s: string)
    requires SpellsName773(s)
    ensures RenameKey(s, Span(7, 4)) == s[7..9]
    ensures RenameKey(s, Span(11, 3)) == s[11..14]
    ensures RenameKey(s, Span(18, 6)) == s[21..24]
  {
    RunKey(s, 7, 7, 9, 11);
    RunKey(s, 11, 11, 14, 14);
    RunKey(s, 18, 21, 24, 24);
  }

  lemma CsSpansName773(s: string)
    requires SpellsName773(s)
    ensures CsSpans(s, Some(OtherDecl)) == [Span(7, 4), Span(11, 3), Span(18, 6)]
  {
    ScanName773From0(s);
    RenameKeysName773(s);
    var m := [Span(7, 4), Span(11, 3), Span(18, 6)];
    assert s[7..9][0] == 'D' && s[11..14][0] == 'T' && s[21..24][0] == 'D' && s[21..24][1] == 'X';
    assert forall i :: 0 <= i < |m| ==> RenameKey(s, m[i]) !in AbbreviationsToSkip;
    KeepUnregisteredKeepsAll(s, m);
  }

  lemma AssembleName773From14(s: string, w: string)
    requires SpellsName773(s) && |w| == 6
    ensures Assemble(s, [Span(18, 6)], [w], 14) == s[14..18] + w
  {
    assert s[24..] == [];
  }

  lemma AssembleName773From11(s: string, w1: string, w2: string)
    requires SpellsName773(s) && |w1| == 3 && |w2| == 6
    ensures Assemble(s, [Span(11, 3), Span(18, 6)], [w1, w2], 11) == w1 + s[14..18] + w2
  {
    AssembleName773From14(s, w2);
    assert [Span(11, 3), Span(18, 6)][1..] == [Span(18, 6)];
    assert [w1, w2][1..] == [w2];
  }

  lemma AssembleName773From0(s: string, w0: string, w1: string, w2: string)
    requires SpellsName773(s) && |w0| == 4 && |w1| == 3 && |w2| == 6
    ensures Assemble(s, [Span(7, 4), Span(11, 3), Span(18, 6)], [w0, w1, w2], 0)
      == s[..7] + w0 + w1 + s[14..18] + w2
  {
    AssembleName773From11(s, w1, w2);
    assert [Span(7, 4), Span(11, 3), Span(18, 6)][1..] == [Span(11, 3), Span(18, 6)];
    assert [w0, w1, w2][1..] == [w1, w2];
  }

  lemma CsWordDb33(s: string)
    requires SpellsName773(s)
    ensures CsWord(s, Span(7, 4), Some(OtherDecl)) == "Db33"
  {
    CsWordAt(s, Span(7, 4), Some(OtherDecl), 0);
    CsWordAt(s, Span(7, 4), Some(OtherDecl), 1);
    CsWordAt(s, Span(7, 4), Some(OtherDecl), 2);
    CsWordAt(s, Span(7, 4), Some(OtherDecl), 3);
  }

  lemma CsWordTfT(s: string)
    requires SpellsName773(s)
    ensures CsWord(s, Span(11, 3), Some(OtherDecl)) == "TfT"
  {
    CsWordAt(s, Span(11, 3), Some(OtherDecl), 0);
    CsWordAt(s, Span(11, 3), Some(OtherDecl), 1);
    CsWordAt(s, Span(11, 3), Some(OtherDecl), 2);
  }

  lemma CsWord222dxs(s: string)
    requires SpellsName773(s)
    ensures CsWord(s, Span(18, 6), Some(OtherDecl)) == "222dxs"
  {
    CsWordAt(s, Span(18, 6), Some(OtherDecl), 0);
    CsWordAt(s, Span(18, 6), Some(OtherDecl), 1);
    CsWordAt(s, Span(18, 6), Some(OtherDecl), 2);
    CsWordAt(s, Span(18, 6), Some(OtherDecl), 3);
    CsWordAt(s, Span(18, 6), Some(OtherDecl), 4);
    CsWordAt(s, Span(18, 6), Some(OtherDecl), 5);
  }

  lemma CsCandidateName773(s: string)
    requires SpellsName773(s)
    ensures CsCandidate(s, Some(OtherDecl)) == s[..7] + "Db33" + "TfT" + s[14..18] + "222dxs"
  {
    CsSpansName773(s);
    CsRecasedName773(s, [Span(7, 4), Span(11, 3), Span(18, 6)]);
  }

  lemma CsRecasedName773(s: string, spans: seq<Span>)
    requires SpellsName773(s) && spans == [Span(7, 4), Span(11, 3), Span(18, 6)]
    ensures CsRecased(s, spans, Some(OtherDecl)) == s[..7] + "Db33" + "TfT" + s[14..18] + "222dxs"
  {
    CsBodyName773(s, spans);
    assert CsPrefix(spans, Some(OtherDecl)) == "";
  }

  lemma CsWordsName773(s: string, spans: seq<Span>)
    requires SpellsName773(s) && spans == [Span(7, 4), Span(11, 3), Span(18, 6)]
    ensures CsWords(s, spans, Some(OtherDecl)) == ["Db33", "TfT", "222dxs"]
  {
    CsWordDb33(s);
    CsWordTfT(s);
    CsWord222dxs(s);
  }

  lemma CsBodyName773(s: string, spans: seq<Span>)
    requires SpellsName773(s) && spans == [Span(7, 4), Span(11, 3), Span(18, 6)]
    ensures CsBody(s, spans, Some(OtherDecl)) == s[..7] + "Db33" + "TfT" + s[14..18] + "222dxs"
  {
    CsWordsName773(s, spans);
    AssembleName773From0(s, "Db33", "TfT", "222dxs");
  }

  lemma PiecesName773(s: string)
    requires SpellsName773(s)
    ensures s[..7] == "Name773" && s[14..18] == "name"
  {
  }

  /** The C# fixer, renaming a class: each abbreviation is lowercased after
      its first character, and the last character of the two that do not
      end the name goes back to upper case. */
  lemma CsCandidateOfName773(s: string)
    requires SpellsName773(s)
    ensures CsCandidate(s, Some(OtherDecl)) == "Name773" + "Db33" + "TfT" + "name" + "222dxs"
  {
    CsCandidateName773(s);
    PiecesName773(s);
  }

  lemma VbSpansName773(s: string)
    requires SpellsName773(s)
    ensures VbSpans(s, {}) == [Span(7, 4), Span(11, 3), Span(18, 6)]
  {
    AbbreviationsName773(s);
  }

  lemma VbWord222Dxs(s: string)
    requires SpellsName773(s)
    ensures VbWord(s, Span(18, 6), Some(VbOther)) == "222Dxs"
  {
    var sp := Span(18, 6);
    var v := sp.Value(s);
    assert v[0] == '2' && v[1] == '2' && v[2] == '2' && v[3] == 'D' && v[4] == 'X';
    DigitRuleFires(v, 3);
    VbWordAt(s, sp, Some(VbOther), 0);
    VbWordAt(s, sp, Some(VbOther), 1);
    VbWordAt(s, sp, Some(VbOther), 2);
    VbWordAt(s, sp, Some(VbOther), 3);
    VbWordAt(s, sp, Some(VbOther), 4);
    VbWordAt(s, sp, Some(VbOther), 5);
  }

  lemma VbWordDb33(s: string)
    requires SpellsName773(s)
    ensures VbWord(s, Span(7, 4), Some(VbOther)) == "Db33"
  {
    var sp := Span(7, 4);
    VbWordAt(s, sp, Some(VbOther), 0);
    VbWordAt(s, sp, Some(VbOther), 1);
    VbWordAt(s, sp, Some(VbOther), 2);
    VbWordAt(s, sp, Some(VbOther), 3);
  }

  lemma VbWordTfT(s: string)
    requires SpellsName773(s)
    ensures VbWord(s, Span(11, 3), Some(VbOther)) == "TfT"
  {
    var sp := Span(11, 3);
    VbWordAt(s, sp, Some(VbOther), 0);
    VbWordAt(s, sp, Some(VbOther), 1);
    VbWordAt(s, sp, Some(VbOther), 2);
  }

  lemma VbCandidateName773(s: string)
    requires SpellsName773(s)
    ensures VbCandidate(s, Some(VbOther), {}) == s[..7] + "Db33" + "TfT" + s[14..18] + "222Dxs"
  {
    VbSpansName773(s);
    VbRecasedName773(s, [Span(7, 4), Span(11, 3), Span(18, 6)]);
  }

  lemma VbRecasedName773(s: string, spans: seq<Span>)
    requires SpellsName773(s) && spans == [Span(7, 4), Span(11, 3), Span(18, 6)]
    ensures VbRecased(s, spans, Some(VbOther)) == s[..7] + "Db33" + "TfT" + s[14..18] + "222Dxs"
  {
    VbBodyName773(s, spans);
    assert VbPrefix(spans, Some(VbOther)) == "";
  }

  lemma VbWordsName773(s: string, spans: seq<Span>)
    requires SpellsName773(s) && spans == [Span(7, 4), Span(11, 3), Span(18, 6)]
    ensures VbWords(s, spans, Some(VbOther)) == ["Db33", "TfT", "222Dxs"]
  {
    VbWordDb33(s);
    VbWordTfT(s);
    VbWord222Dxs(s);
  }

  lemma VbBodyName773(s: string, spans: seq<Span>)
    requires SpellsName773(s) && spans == [Span(7, 4), Span(11, 3), Span(18, 6)]
    ensures VbBody(s, spans, Some(VbOther)) == s[..7] + "Db33" + "TfT" + s[14..18] + "222Dxs"
  {
    VbWordsName773(s, spans);
    AssembleName773From0(s, "Db33", "TfT", "222Dxs");
  }

  /** The Visual Basic fixer on the same name: it also keeps the capital
      that follows the leading digits of `222DXS`. */
  lemma VbCandidateOfName773(s: string)
    requires SpellsName773(s)
    ensures VbCandidate(s, Some(VbOther), {}) == "Name773" + "Db33" + "TfT" + "name" + "222Dxs"
  {
    VbCandidateName773(s);
    PiecesName773(s);
  }

  // ---------------------------------------------------------------------------
  // The class and field of the fixer's unit test

  /** `s` is `TYPEname`, character by character. */
  predicate SpellsTYPEname(s: string) {
    |s| == 8 && s[0] == 'T' && s[1] == 'Y' && s[2] == 'P' && s[3] == 'E' && s[4] == 'n'
    && s[5] == 'a' && s[6] == 'm' && s[7] == 'e'
  }

  lemma CharsTYPEnameAt0(s: string)
    requires s == "TYPEname"
    ensures |s| == 8 && s[0] == 'T' && s[1] == 'Y' && s[2] == 'P' && s[3] == 'E' && s[4] == 'n'
      && s[5] == 'a'
  {
  }

  lemma CharsTYPEnameAt6(s: string)
    requires s == "TYPEname"
    ensures |s| == 8 && s[6] == 'm' && s[7] == 'e'
  {
  }

  /** The predicate holds of that string and of no other. */
  lemma SpellsTYPEnameExactly(s: string)
    ensures SpellsTYPEname(s) <==> s == "TYPEname"
  {
    if s == "TYPEname" {
      CharsTYPEnameAt0(s);
      CharsTYPEnameAt6(s);
    }
  }

  lemma ScanTYPEnameFrom6(s: string)
    requires SpellsTYPEname(s)
    ensures Scan(s, 6) == []
  {
    ScanPassesOver(s, 7);
    ScanPassesOver(s, 6);
  }

  lemma ScanTYPEnameFrom4(s: string)
    requires SpellsTYPEname(s)
    ensures Scan(s, 4) == []
  {
    ScanTYPEnameFrom6(s);
    ScanPassesOver(s, 5);
    ScanPassesOver(s, 4);
  }

  lemma ScanTYPEnameFrom0(s: string)
    requires SpellsTYPEname(s)
    ensures Scan(s, 0) == [Span(0, 4)]
  {
    ScanTYPEnameFrom4(s);
    RunEndIs(s, 0, 0, Digit); RunEndIs(s, 0, 4, Upper); RunEndIs(s, 4, 4, Digit);
    assert MatchAt(s, 0) == Some(4);
    ScanHitStep(s, 0, 4);
  }

  /** `s` is `SOMEVar`, character by character. */
  predicate SpellsSOMEVar(s: string) {
    |s| == 7 && s[0] == 'S' && s[1] == 'O' && s[2] == 'M' && s[3] == 'E' && s[4] == 'V'
    && s[5] == 'a' && s[6] == 'r'
  }

  lemma CharsSOMEVarAt0(s: string)
    requires s == "SOMEVar"
    ensures |s| == 7 && s[0] == 'S' && s[1] == 'O' && s[2] == 'M' && s[3] == 'E' && s[4] == 'V'
      && s[5] == 'a'
  {
  }

  lemma CharsSOMEVarAt6(s: string)
    requires s == "SOMEVar"
    ensures |s| == 7 && s[6] == 'r'
  {
  }

  /** The predicate holds of that string and of no other. */
  lemma SpellsSOMEVarExactly(s: string)
    ensures SpellsSOMEVar(s) <==> s == "SOMEVar"
  {
    if s == "SOMEVar" {
      CharsSOMEVarAt0(s);
      CharsSOMEVarAt6(s);
    }
  }

  lemma ScanSOMEVarFrom5(s: string)
    requires SpellsSOMEVar(s)
    ensures Scan(s, 5) == []
  {
    ScanPassesOver(s, 6);
    ScanPassesOver(s, 5);
  }

  lemma ScanSOMEVarFrom0(s: string)
    requires SpellsSOMEVar(s)
    ensures Scan(s, 0) == [Span(0, 5)]
  {
    ScanSOMEVarFrom5(s);
    RunEndIs(s, 0, 0, Digit); RunEndIs(s, 0, 5, Upper); RunEndIs(s, 5, 5, Digit);
    assert MatchAt(s, 0) == Some(5);
    ScanHitStep(s, 0, 5);
  }

  /** A single abbreviation at the start of the name. */
  lemma AssembleLeading(s: string, n: nat, w: string)
    requires 2 <= n <= |s| && |w| == n
    ensures Assemble(s, [Span(0, n)], [w], 0) == w + s[n..]
  {
    assert s[0..0] == [];
  }

  lemma CsSpansTYPEname(s: string)
    requires SpellsTYPEname(s)
    ensures CsSpans(s, Some(OtherDecl)) == [Span(0, 4)]
  {
    ScanTYPEnameFrom0(s);
    CapitalsOfSplit(s, 0, 4, 4, Upper, Digit);
    RenameKeepsCleanMatches(s, false);
  }

  lemma CsWordTypE(s: string)
    requires SpellsTYPEname(s)
    ensures CsWord(s, Span(0, 4), Some(OtherDecl)) == "TypE"
  {
    CsWordAt(s, Span(0, 4), Some(OtherDecl), 0);
    CsWordAt(s, Span(0, 4), Some(OtherDecl), 1);
    CsWordAt(s, Span(0, 4), Some(OtherDecl), 2);
    CsWordAt(s, Span(0, 4), Some(OtherDecl), 3);
  }

  /** The class `TYPEname` becomes `TypEname`: `TYPE` is an abbreviation that
      does not end the name, so its last letter stays a capital. */
  lemma CsCandidateOfTYPEname(s: string)
    requires SpellsTYPEname(s)
    ensures CsCandidate(s, Some(OtherDecl)) == "TypE" + "name"
  {
    CsSpansTYPEname(s);
    CsWordTypE(s);
    assert CsWords(s, [Span(0, 4)], Some(OtherDecl)) == ["TypE"];
    AssembleLeading(s, 4, "TypE");
    assert s[4..] == "name";
  }

  lemma CsSpansSOMEVar(s: string)
    requires SpellsSOMEVar(s)
    ensures CsSpans(s, Some(VariableDecl(Some(Private)))) == [Span(0, 5)]
  {
    ScanSOMEVarFrom0(s);
    CapitalsOfSplit(s, 0, 5, 5, Upper, Digit);
    RenameKeepsCleanMatches(s, false);
  }

  lemma CsWordSomeV(s: string)
    requires SpellsSOMEVar(s)
    ensures CsWord(s, Span(0, 5), Some(VariableDecl(Some(Private)))) == "someV"
  {
    var decl := Some(VariableDecl(Some(Private)));
    CsWordAt(s, Span(0, 5), decl, 0);
    CsWordAt(s, Span(0, 5), decl, 1);
    CsWordAt(s, Span(0, 5), decl, 2);
    CsWordAt(s, Span(0, 5), decl, 3);
    CsWordAt(s, Span(0, 5), decl, 4);
  }

  /** The private field `SOMEVar` becomes `_someVar`: the abbreviation starts
      the name of a private field, so it is lowercased and prefixed. */
  lemma CsCandidateOfSOMEVar(s: string)
    requires SpellsSOMEVar(s)
    ensures CsCandidate(s, Some(VariableDecl(Some(Private)))) == "_" + "someV" + "ar"
  {
    var decl := Some(VariableDecl(Some(Private)));
    CsSpansSOMEVar(s);
    CsWordSomeV(s);
    assert CsWords(s, [Span(0, 5)], decl) == ["someV"];
    AssembleLeading(s, 5, "someV");
    assert CsPrefix([Span(0, 5)], decl) == "_" by {
      assert [Span(0, 5)][0].index == 0;
    }
    assert s[5..] == "ar";
  }

  /** The class of the unit test, as the scope of its fields. */
  function UnitTestFieldScope(): Symbol {
    Symbol(OtherSymbol, TypeContainer(Class, "TYPEname",
      {"_someVar", "SOMEVar", "ABCd", "abcDE", "StdNameWithTwoCapsCCharacters"}))
  }

  lemma ProbesOfSomeVar(base: string)
    requires base == "_" + "someV" + "ar"
    ensures !IsValidNewMemberName(UnitTestFieldScope(), Probe(base, 0))
    ensures Probe(base, 1) == "_someVar1" && IsValidNewMemberName(UnitTestFieldScope(), Probe(base, 1))
  {
    assert base == "_someVar";
    assert NatToString(1) == "1";
  }

  /** `_someVar` is already a field of the class, so the fixer offers
      `_someVar1`. */
  method FixOfSOMEVar(s: string) returns (fix: Option<string>)
    requires SpellsSOMEVar(s)
    ensures fix == Some("_someVar1")
  {
    var decl := Some(VariableDecl(Some(Private)));
    CsCandidateOfSOMEVar(s);
    var base := CsCandidate(s, decl);
    ProbesOfSomeVar(base);
    fix := RegisterCodeFixes(s, decl, Some(UnitTestFieldScope()));
    var index: nat :| fix.value == Probe(base, index)
      && forall j :: 0 <= j < index ==> !IsValidNewMemberName(UnitTestFieldScope(), Probe(base, j));
    assert index == 1;
  }

  // ---------------------------------------------------------------------------
  // Single abbreviations and names without one

  /** `s` is `NAME`, character by character. */
  predicate SpellsNAME(s: string) {
    |s| == 4 && s[0] == 'N' && s[1] == 'A' && s[2] == 'M' && s[3] == 'E'
  }

  lemma CharsNAMEAt0(s: string)
    requires s == "NAME"
    ensures |s| == 4 && s[0] == 'N' && s[1] == 'A' && s[2] == 'M' && s[3] == 'E'
  {
  }

  /** The predicate holds of that string and of no other. */
  lemma SpellsNAMEExactly(s: string)
    ensures SpellsNAME(s) <==> s == "NAME"
  {
    if s == "NAME" {
      CharsNAMEAt0(s);
    }
  }

  lemma ScanNAMEFrom0(s: string)
    requires SpellsNAME(s)
    ensures Scan(s, 0) == [Span(0, 4)]
  {
    RunEndIs(s, 0, 0, Digit); RunEndIs(s, 0, 4, Upper); RunEndIs(s, 4, 4, Digit);
    assert MatchAt(s, 0) == Some(4);
    ScanHitStep(s, 0, 4);
  }

  /** `NAME` has one abbreviation, `NAME`: a capital run that ends the name. */
  lemma AbbreviationsOfNAME(s: string)
    requires SpellsNAME(s)
    ensures AbbreviationHelper.AbbreviationsInSymbol(s, false, {}) == [Span(0, 4)]
    ensures s[0..4] == "NAME"
  {
    ScanNAMEFrom0(s);
    AbbreviationHelper.KeepUnskippedKeepsAll(s, Scan(s, 0), {});
  }

  /** `s` is `NameDX3`, character by character. */
  predicate SpellsNameDX3(s: string) {
    |s| == 7 && s[0] == 'N' && s[1] == 'a' && s[2] == 'm' && s[3] == 'e' && s[4] == 'D'
    && s[5] == 'X' && s[6] == '3'
  }

  lemma CharsNameDX3At0(s: string)
    requires s == "NameDX3"
    ensures |s| == 7 && s[0] == 'N' && s[1] == 'a' && s[2] == 'm' && s[3] == 'e' && s[4] == 'D'
      && s[5] == 'X'
  {
  }

  lemma CharsNameDX3At6(s: string)
    requires s == "NameDX3"
    ensures |s| == 7 && s[6] == '3'
  {
  }

  /** The predicate holds of that string and of no other. */
  lemma SpellsNameDX3Exactly(s: string)
    ensures SpellsNameDX3(s) <==> s == "NameDX3"
  {
    if s == "NameDX3" {
      CharsNameDX3At0(s);
      CharsNameDX3At6(s);
    }
  }

  lemma ScanNameDX3From4(s: string)
    requires SpellsNameDX3(s)
    ensures Scan(s, 4) == [Span(4, 3)]
  {
    RunEndIs(s, 4, 4, Digit); RunEndIs(s, 4, 6, Upper); RunEndIs(s, 6, 7, Digit);
    assert MatchAt(s, 4) == Some(7);
    ScanHitStep(s, 4, 7);
  }

  lemma ScanNameDX3From2(s: string)
    requires SpellsNameDX3(s)
    ensures Scan(s, 2) == [Span(4, 3)]
  {
    ScanNameDX3From4(s);
    ScanPassesOver(s, 3);
    ScanPassesOver(s, 2);
  }

  lemma ScanNameDX3From1(s: string)
    requires SpellsNameDX3(s)
    ensures Scan(s, 1) == [Span(4, 3)]
  {
    ScanNameDX3From2(s);
    ScanPassesOver(s, 1);
  }

  lemma ScanNameDX3From0(s: string)
    requires SpellsNameDX3(s)
    ensures Scan(s, 0) == [Span(4, 3)]
  {
    ScanNameDX3From1(s);
    RunEndIs(s, 0, 0, Digit); RunEndIs(s, 0, 1, Upper); RunEndIs(s, 1, 1, Digit);
    assert MatchAt(s, 0).None?;
    ScanMissStep(s, 0);
  }

  /** `NameDX3` has one abbreviation, `DX3`: capitals followed by digits. */
  lemma AbbreviationsOfNameDX3(s: string)
    requires SpellsNameDX3(s)
    ensures AbbreviationHelper.AbbreviationsInSymbol(s, false, {}) == [Span(4, 3)]
    ensures s[4..7] == "DX3"
  {
    ScanNameDX3From0(s);
    AbbreviationHelper.KeepUnskippedKeepsAll(s, Scan(s, 0), {});
  }

  /** `s` is `DX3name`, character by character. */
  predicate SpellsDX3name(s: string) {
    |s| == 7 && s[0] == 'D' && s[1] == 'X' && s[2] == '3' && s[3] == 'n' && s[4] == 'a'
    && s[5] == 'm' && s[6] == 'e'
  }

  lemma CharsDX3nameAt0(s: string)
    requires s == "DX3name"
    ensures |s| == 7 && s[0] == 'D' && s[1] == 'X' && s[2] == '3' && s[3] == 'n' && s[4] == 'a'
      && s[5] == 'm'
  {
  }

  lemma CharsDX3nameAt6(s: string)
    requires s == "DX3name"
    ensures |s| == 7 && s[6] == 'e'
  {
  }

  /** The predicate holds of that string and of no other. */
  lemma SpellsDX3nameExactly(s: string)
    ensures SpellsDX3name(s) <==> s == "DX3name"
  {
    if s == "DX3name" {
      CharsDX3nameAt0(s);
      CharsDX3nameAt6(s);
    }
  }

  lemma ScanDX3nameFrom5(s: string)
    requires SpellsDX3name(s)
    ensures Scan(s, 5) == []
  {
    ScanPassesOver(s, 6);
    ScanPassesOver(s, 5);
  }

  lemma ScanDX3nameFrom3(s: string)
    requires SpellsDX3name(s)
    ensures Scan(s, 3) == []
  {
    ScanDX3nameFrom5(s);
    ScanPassesOver(s, 4);
    ScanPassesOver(s, 3);
  }

  lemma ScanDX3nameFrom0(s: string)
    requires SpellsDX3name(s)
    ensures Scan(s, 0) == [Span(0, 3)]
  {
    ScanDX3nameFrom3(s);
    RunEndIs(s, 0, 0, Digit); RunEndIs(s, 0, 2, Upper); RunEndIs(s, 2, 3, Digit);
    assert MatchAt(s, 0) == Some(3);
    ScanHitStep(s, 0, 3);
  }

  /** `DX3name` has one abbreviation, `DX3`: capitals followed by digits, before a lowercase letter. */
  lemma AbbreviationsOfDX3name(s: string)
    requires SpellsDX3name(s)
    ensures AbbreviationHelper.AbbreviationsInSymbol(s, false, {}) == [Span(0, 3)]
    ensures s[0..3] == "DX3"
  {
    ScanDX3nameFrom0(s);
    AbbreviationHelper.KeepUnskippedKeepsAll(s, Scan(s, 0), {});
  }

  /** `s` is `Name3DS1`, character by character. */
  predicate SpellsName3DS1(s: string) {
    |s| == 8 && s[0] == 'N' && s[1] == 'a' && s[2] == 'm' && s[3] == 'e' && s[4] == '3'
    && s[5] == 'D' && s[6] == 'S' && s[7] == '1'
  }

  lemma CharsName3DS1At0(s: string)
    requires s == "Name3DS1"
    ensures |s| == 8 && s[0] == 'N' && s[1] == 'a' && s[2] == 'm' && s[3] == 'e' && s[4] == '3'
      && s[5] == 'D'
  {
  }

  lemma CharsName3DS1At6(s: string)
    requires s == "Name3DS1"
    ensures |s| == 8 && s[6] == 'S' && s[7] == '1'
  {
  }

  /** The predicate holds of that string and of no other. */
  lemma SpellsName3DS1Exactly(s: string)
    ensures SpellsName3DS1(s) <==> s == "Name3DS1"
  {
    if s == "Name3DS1" {
      CharsName3DS1At0(s);
      CharsName3DS1At6(s);
    }
  }

  lemma ScanName3DS1From5(s: string)
    requires SpellsName3DS1(s)
    ensures Scan(s, 5) == [Span(5, 3)]
  {
    RunEndIs(s, 5, 5, Digit); RunEndIs(s, 5, 7, Upper); RunEndIs(s, 7, 8, Digit);
    assert MatchAt(s, 5) == Some(8);
    ScanHitStep(s, 5, 8);
  }

  lemma ScanName3DS1From4(s: string)
    requires SpellsName3DS1(s)
    ensures Scan(s, 4) == [Span(5, 3)]
  {
    ScanName3DS1From5(s);
    RunEndIs(s, 4, 5, Digit); RunEndIs(s, 4, 4, Upper); RunEndIs(s, 5, 7, Upper);
    assert MatchAt(s, 4).None?;
    ScanMissStep(s, 4);
  }

  lemma ScanName3DS1From2(s: string)
    requires SpellsName3DS1(s)
    ensures Scan(s, 2) == [Span(5, 3)]
  {
    ScanName3DS1From4(s);
    ScanPassesOver(s, 3);
    ScanPassesOver(s, 2);
  }

  lemma ScanName3DS1From1(s: string)
    requires SpellsName3DS1(s)
    ensures Scan(s, 1) == [Span(5, 3)]
  {
    ScanName3DS1From2(s);
    ScanPassesOver(s, 1);
  }

  lemma ScanName3DS1From0(s: string)
    requires SpellsName3DS1(s)
    ensures Scan(s, 0) == [Span(5, 3)]
  {
    ScanName3DS1From1(s);
    RunEndIs(s, 0, 0, Digit); RunEndIs(s, 0, 1, Upper); RunEndIs(s, 1, 1, Digit);
    assert MatchAt(s, 0).None?;
    ScanMissStep(s, 0);
  }

  /** `Name3DS1` has one abbreviation, `DS1`: capitals between digits, taken with the digits after them. */
  lemma AbbreviationsOfName3DS1(s: string)
    requires SpellsName3DS1(s)
    ensures AbbreviationHelper.AbbreviationsInSymbol(s, false, {}) == [Span(5, 3)]
    ensures s[5..8] == "DS1"
  {
    ScanName3DS1From0(s);
    AbbreviationHelper.KeepUnskippedKeepsAll(s, Scan(s, 0), {});
  }

  /** `s` is `NameDDisable3DD`, character by character. */
  predicate SpellsNameDDisable3DD(s: string) {
    |s| == 15 && s[0] == 'N' && s[1] == 'a' && s[2] == 'm' && s[3] == 'e' && s[4] == 'D'
    && s[5] == 'D' && s[6] == 'i' && s[7] == 's' && s[8] == 'a' && s[9] == 'b' && s[10] == 'l'
    && s[11] == 'e' && s[12] == '3' && s[13] == 'D' && s[14] == 'D'
  }

  lemma CharsNameDDisable3DDAt0(s: string)
    requires s == "NameDDisable3DD"
    ensures |s| == 15 && s[0] == 'N' && s[1] == 'a' && s[2] == 'm' && s[3] == 'e' && s[4] == 'D'
      && s[5] == 'D'
  {
  }

  lemma CharsNameDDisable3DDAt6(s: string)
    requires s == "NameDDisable3DD"
    ensures |s| == 15 && s[6] == 'i' && s[7] == 's' && s[8] == 'a' && s[9] == 'b' && s[10] == 'l'
      && s[11] == 'e'
  {
  }

  lemma CharsNameDDisable3DDAt12(s: string)
    requires s == "NameDDisable3DD"
    ensures |s| == 15 && s[12] == '3' && s[13] == 'D' && s[14] == 'D'
  {
  }

  /** The predicate holds of that string and of no other. */
  lemma SpellsNameDDisable3DDExactly(s: string)
    ensures SpellsNameDDisable3DD(s) <==> s == "NameDDisable3DD"
  {
    if s == "NameDDisable3DD" {
      CharsNameDDisable3DDAt0(s);
      CharsNameDDisable3DDAt6(s);
      CharsNameDDisable3DDAt12(s);
    }
  }

  lemma ScanNameDDisable3DDFrom12(s: string)
    requires SpellsNameDDisable3DD(s)
    ensures Scan(s, 12) == [Span(12, 3)]
  {
    RunEndIs(s, 12, 13, Digit); RunEndIs(s, 12, 12, Upper); RunEndIs(s, 13, 15, Upper);
    assert MatchAt(s, 12) == Some(15);
    ScanHitStep(s, 12, 15);
  }

  lemma ScanNameDDisable3DDFrom10(s: string)
    requires SpellsNameDDisable3DD(s)
    ensures Scan(s, 10) == [Span(12, 3)]
  {
    ScanNameDDisable3DDFrom12(s);
    ScanPassesOver(s, 11);
    ScanPassesOver(s, 10);
  }

  lemma ScanNameDDisable3DDFrom8(s: string)
    requires SpellsNameDDisable3DD(s)
    ensures Scan(s, 8) == [Span(12, 3)]
  {
    ScanNameDDisable3DDFrom10(s);
    ScanPassesOver(s, 9);
    ScanPassesOver(s, 8);
  }

  lemma ScanNameDDisable3DDFrom6(s: string)
    requires SpellsNameDDisable3DD(s)
    ensures Scan(s, 6) == [Span(12, 3)]
  {
    ScanNameDDisable3DDFrom8(s);
    ScanPassesOver(s, 7);
    ScanPassesOver(s, 6);
  }

  lemma ScanNameDDisable3DDFrom5(s: string)
    requires SpellsNameDDisable3DD(s)
    ensures Scan(s, 5) == [Span(12, 3)]
  {
    ScanNameDDisable3DDFrom6(s);
    RunEndIs(s, 5, 5, Digit); RunEndIs(s, 5, 6, Upper); RunEndIs(s, 6, 6, Digit);
    assert MatchAt(s, 5).None?;
    ScanMissStep(s, 5);
  }

  lemma ScanNameDDisable3DDFrom4(s: string)
    requires SpellsNameDDisable3DD(s)
    ensures Scan(s, 4) == [Span(12, 3)]
  {
    ScanNameDDisable3DDFrom5(s);
    RunEndIs(s, 4, 4, Digit); RunEndIs(s, 4, 6, Upper); RunEndIs(s, 6, 6, Digit);
    assert MatchAt(s, 4).None?;
    ScanMissStep(s, 4);
  }

  lemma ScanNameDDisable3DDFrom2(s: string)
    requires SpellsNameDDisable3DD(s)
    ensures Scan(s, 2) == [Span(12, 3)]
  {
    ScanNameDDisable3DDFrom4(s);
    ScanPassesOver(s, 3);
    ScanPassesOver(s, 2);
  }

  lemma ScanNameDDisable3DDFrom1(s: string)
    requires SpellsNameDDisable3DD(s)
    ensures Scan(s, 1) == [Span(12, 3)]
  {
    ScanNameDDisable3DDFrom2(s);
    ScanPassesOver(s, 1);
  }

  lemma ScanNameDDisable3DDFrom0(s: string)
    requires SpellsNameDDisable3DD(s)
    ensures Scan(s, 0) == [Span(12, 3)]
  {
    ScanNameDDisable3DDFrom1(s);
    RunEndIs(s, 0, 0, Digit); RunEndIs(s, 0, 1, Upper); RunEndIs(s, 1, 1, Digit);
    assert MatchAt(s, 0).None?;
    ScanMissStep(s, 0);
  }

  /** `NameDDisable3DD` has one abbreviation, `3DD`: digits followed by capitals that end the name. */
  lemma AbbreviationsOfNameDDisable3DD(s: string)
    requires SpellsNameDDisable3DD(s)
    ensures AbbreviationHelper.AbbreviationsInSymbol(s, false, {}) == [Span(12, 3)]
    ensures s[12..15] == "3DD"
  {
    ScanNameDDisable3DDFrom0(s);
    AbbreviationHelper.KeepUnskippedKeepsAll(s, Scan(s, 0), {});
  }

  /** `s` is `Name3DDaDDaDD`, character by character. */
  predicate SpellsName3DDaDDaDD(s: string) {
    |s| == 13 && s[0] == 'N' && s[1] == 'a' && s[2] == 'm' && s[3] == 'e' && s[4] == '3'
    && s[5] == 'D' && s[6] == 'D' && s[7] == 'a' && s[8] == 'D' && s[9] == 'D' && s[10] == 'a'
    && s[11] == 'D' && s[12] == 'D'
  }

  lemma CharsName3DDaDDaDDAt0(s: string)
    requires s == "Name3DDaDDaDD"
    ensures |s| == 13 && s[0] == 'N' && s[1] == 'a' && s[2] == 'm' && s[3] == 'e' && s[4] == '3'
      && s[5] == 'D'
  {
  }

  lemma CharsName3DDaDDaDDAt6(s: string)
    requires s == "Name3DDaDDaDD"
    ensures |s| == 13 && s[6] == 'D' && s[7] == 'a' && s[8] == 'D' && s[9] == 'D' && s[10] == 'a'
      && s[11] == 'D'
  {
  }

  lemma CharsName3DDaDDaDDAt12(s: string)
    requires s == "Name3DDaDDaDD"
    ensures |s| == 13 && s[12] == 'D'
  {
  }

  /** The predicate holds of that string and of no other. */
  lemma SpellsName3DDaDDaDDExactly(s: string)
    ensures SpellsName3DDaDDaDD(s) <==> s == "Name3DDaDDaDD"
  {
    if s == "Name3DDaDDaDD" {
      CharsName3DDaDDaDDAt0(s);
      CharsName3DDaDDaDDAt6(s);
      CharsName3DDaDDaDDAt12(s);
    }
  }

  lemma ScanName3DDaDDaDDFrom11(s: string)
    requires SpellsName3DDaDDaDD(s)
    ensures Scan(s, 11) == [Span(11, 2)]
  {
    RunEndIs(s, 11, 11, Digit); RunEndIs(s, 11, 13, Upper); RunEndIs(s, 13, 13, Digit);
    assert MatchAt(s, 11) == Some(13);
    ScanHitStep(s, 11, 13);
  }

  lemma ScanName3DDaDDaDDFrom10(s: string)
    requires SpellsName3DDaDDaDD(s)
    ensures Scan(s, 10) == [Span(11, 2)]
  {
    ScanName3DDaDDaDDFrom11(s);
    ScanPassesOver(s, 10);
  }

  lemma ScanName3DDaDDaDDFrom9(s: string)
    requires SpellsName3DDaDDaDD(s)
    ensures Scan(s, 9) == [Span(11, 2)]
  {
    ScanName3DDaDDaDDFrom10(s);
    RunEndIs(s, 9, 9, Digit); RunEndIs(s, 9, 10, Upper); RunEndIs(s, 10, 10, Digit);
    assert MatchAt(s, 9).None?;
    ScanMissStep(s, 9);
  }

  lemma ScanName3DDaDDaDDFrom8(s: string)
    requires SpellsName3DDaDDaDD(s)
    ensures Scan(s, 8) == [Span(11, 2)]
  {
    ScanName3DDaDDaDDFrom9(s);
    RunEndIs(s, 8, 8, Digit); RunEndIs(s, 8, 10, Upper); RunEndIs(s, 10, 10, Digit);
    assert MatchAt(s, 8).None?;
    ScanMissStep(s, 8);
  }

  lemma ScanName3DDaDDaDDFrom7(s: string)
    requires SpellsName3DDaDDaDD(s)
    ensures Scan(s, 7) == [Span(11, 2)]
  {
    ScanName3DDaDDaDDFrom8(s);
    ScanPassesOver(s, 7);
  }

  lemma ScanName3DDaDDaDDFrom6(s: string)
    requires SpellsName3DDaDDaDD(s)
    ensures Scan(s, 6) == [Span(11, 2)]
  {
    ScanName3DDaDDaDDFrom7(s);
    RunEndIs(s, 6, 6, Digit); RunEndIs(s, 6, 7, Upper); RunEndIs(s, 7, 7, Digit);
    assert MatchAt(s, 6).None?;
    ScanMissStep(s, 6);
  }

  lemma ScanName3DDaDDaDDFrom5(s: string)
    requires SpellsName3DDaDDaDD(s)
    ensures Scan(s, 5) == [Span(11, 2)]
  {
    ScanName3DDaDDaDDFrom6(s);
    RunEndIs(s, 5, 5, Digit); RunEndIs(s, 5, 7, Upper); RunEndIs(s, 7, 7, Digit);
    assert MatchAt(s, 5).None?;
    ScanMissStep(s, 5);
  }

  lemma ScanName3DDaDDaDDFrom4(s: string)
    requires SpellsName3DDaDDaDD(s)
    ensures Scan(s, 4) == [Span(11, 2)]
  {
    ScanName3DDaDDaDDFrom5(s);
    RunEndIs(s, 4, 5, Digit); RunEndIs(s, 4, 4, Upper); RunEndIs(s, 5, 7, Upper);
    assert MatchAt(s, 4).None?;
    ScanMissStep(s, 4);
  }

  lemma ScanName3DDaDDaDDFrom2(s: string)
    requires SpellsName3DDaDDaDD(s)
    ensures Scan(s, 2) == [Span(11, 2)]
  {
    ScanName3DDaDDaDDFrom4(s);
    ScanPassesOver(s, 3);
    ScanPassesOver(s, 2);
  }

  lemma ScanName3DDaDDaDDFrom1(s: string)
    requires SpellsName3DDaDDaDD(s)
    ensures Scan(s, 1) == [Span(11, 2)]
  {
    ScanName3DDaDDaDDFrom2(s);
    ScanPassesOver(s, 1);
  }

  lemma ScanName3DDaDDaDDFrom0(s: string)
    requires SpellsName3DDaDDaDD(s)
    ensures Scan(s, 0) == [Span(11, 2)]
  {
    ScanName3DDaDDaDDFrom1(s);
    RunEndIs(s, 0, 0, Digit); RunEndIs(s, 0, 1, Upper); RunEndIs(s, 1, 1, Digit);
    assert MatchAt(s, 0).None?;
    ScanMissStep(s, 0);
  }

  /** `Name3DDaDDaDD` has one abbreviation, `DD`: the only capital run that is not followed by a lowercase letter. */
  lemma AbbreviationsOfName3DDaDDaDD(s: string)
    requires SpellsName3DDaDDaDD(s)
    ensures AbbreviationHelper.AbbreviationsInSymbol(s, false, {}) == [Span(11, 2)]
    ensures s[11..13] == "DD"
  {
    ScanName3DDaDDaDDFrom0(s);
    AbbreviationHelper.KeepUnskippedKeepsAll(s, Scan(s, 0), {});
  }

  /** `s` is `D3Xcase`, character by character. */
  predicate SpellsD3Xcase(s: string) {
    |s| == 7 && s[0] == 'D' && s[1] == '3' && s[2] == 'X' && s[3] == 'c' && s[4] == 'a'
    && s[5] == 's' && s[6] == 'e'
  }

  lemma CharsD3XcaseAt0(s: string)
    requires s == "D3Xcase"
    ensures |s| == 7 && s[0] == 'D' && s[1] == '3' && s[2] == 'X' && s[3] == 'c' && s[4] == 'a'
      && s[5] == 's'
  {
  }

  lemma CharsD3XcaseAt6(s: string)
    requires s == "D3Xcase"
    ensures |s| == 7 && s[6] == 'e'
  {
  }

  /** The predicate holds of that string and of no other. */
  lemma SpellsD3XcaseExactly(s: string)
    ensures SpellsD3Xcase(s) <==> s == "D3Xcase"
  {
    if s == "D3Xcase" {
      CharsD3XcaseAt0(s);
      CharsD3XcaseAt6(s);
    }
  }

  lemma ScanD3XcaseFrom5(s: string)
    requires SpellsD3Xcase(s)
    ensures Scan(s, 5) == []
  {
    ScanPassesOver(s, 6);
    ScanPassesOver(s, 5);
  }

  lemma ScanD3XcaseFrom3(s: string)
    requires SpellsD3Xcase(s)
    ensures Scan(s, 3) == []
  {
    ScanD3XcaseFrom5(s);
    ScanPassesOver(s, 4);
    ScanPassesOver(s, 3);
  }

  lemma ScanD3XcaseFrom2(s: string)
    requires SpellsD3Xcase(s)
    ensures Scan(s, 2) == []
  {
    ScanD3XcaseFrom3(s);
    RunEndIs(s, 2, 2, Digit); RunEndIs(s, 2, 3, Upper); RunEndIs(s, 3, 3, Digit);
    assert MatchAt(s, 2).None?;
    ScanMissStep(s, 2);
  }

  lemma ScanD3XcaseFrom1(s: string)
    requires SpellsD3Xcase(s)
    ensures Scan(s, 1) == []
  {
    ScanD3XcaseFrom2(s);
    RunEndIs(s, 1, 2, Digit); RunEndIs(s, 1, 1, Upper); RunEndIs(s, 2, 3, Upper);
    assert MatchAt(s, 1).None?;
    ScanMissStep(s, 1);
  }

  lemma ScanD3XcaseFrom0(s: string)
    requires SpellsD3Xcase(s)
    ensures Scan(s, 0) == []
  {
    ScanD3XcaseFrom1(s);
    RunEndIs(s, 0, 0, Digit); RunEndIs(s, 0, 1, Upper); RunEndIs(s, 1, 2, Digit);
    assert MatchAt(s, 0).None?;
    ScanMissStep(s, 0);
  }

  /** `D3Xcase` has no abbreviation, whatever the skip set. */
  lemma AbbreviationsOfD3Xcase(s: string, skip: set<string>)
    requires SpellsD3Xcase(s)
    ensures AbbreviationHelper.AbbreviationsInSymbol(s, false, skip) == []
  {
    ScanD3XcaseFrom0(s);
  }

  /** `s` is `Name33nA`, character by character. */
  predicate SpellsName33nA(s: string) {
    |s| == 8 && s[0] == 'N' && s[1] == 'a' && s[2] == 'm' && s[3] == 'e' && s[4] == '3'
    && s[5] == '3' && s[6] == 'n' && s[7] == 'A'
  }

  lemma CharsName33nAAt0(s: string)
    requires s == "Name33nA"
    ensures |s| == 8 && s[0] == 'N' && s[1] == 'a' && s[2] == 'm' && s[3] == 'e' && s[4] == '3'
      && s[5] == '3'
  {
  }

  lemma CharsName33nAAt6(s: string)
    requires s == "Name33nA"
    ensures |s| == 8 && s[6] == 'n' && s[7] == 'A'
  {
  }

  /** The predicate holds of that string and of no other. */
  lemma SpellsName33nAExactly(s: string)
    ensures SpellsName33nA(s) <==> s == "Name33nA"
  {
    if s == "Name33nA" {
      CharsName33nAAt0(s);
      CharsName33nAAt6(s);
    }
  }

  lemma ScanName33nAFrom7(s: string)
    requires SpellsName33nA(s)
    ensures Scan(s, 7) == []
  {
    RunEndIs(s, 7, 7, Digit); RunEndIs(s, 7, 8, Upper); RunEndIs(s, 8, 8, Digit);
    assert MatchAt(s, 7).None?;
    ScanMissStep(s, 7);
  }

  lemma ScanName33nAFrom6(s: string)
    requires SpellsName33nA(s)
    ensures Scan(s, 6) == []
  {
    ScanName33nAFrom7(s);
    ScanPassesOver(s, 6);
  }

  lemma ScanName33nAFrom5(s: string)
    requires SpellsName33nA(s)
    ensures Scan(s, 5) == []
  {
    ScanName33nAFrom6(s);
    RunEndIs(s, 5, 6, Digit); RunEndIs(s, 5, 5, Upper); RunEndIs(s, 6, 6, Upper);
    assert MatchAt(s, 5).None?;
    ScanMissStep(s, 5);
  }

  lemma ScanName33nAFrom4(s: string)
    requires SpellsName33nA(s)
    ensures Scan(s, 4) == []
  {
    ScanName33nAFrom5(s);
    RunEndIs(s, 4, 6, Digit); RunEndIs(s, 4, 4, Upper); RunEndIs(s, 6, 6, Upper);
    assert MatchAt(s, 4).None?;
    ScanMissStep(s, 4);
  }

  lemma ScanName33nAFrom2(s: string)
    requires SpellsName33nA(s)
    ensures Scan(s, 2) == []
  {
    ScanName33nAFrom4(s);
    ScanPassesOver(s, 3);
    ScanPassesOver(s, 2);
  }

  lemma ScanName33nAFrom1(s: string)
    requires SpellsName33nA(s)
    ensures Scan(s, 1) == []
  {
    ScanName33nAFrom2(s);
    ScanPassesOver(s, 1);
  }

  lemma ScanName33nAFrom0(s: string)
    requires SpellsName33nA(s)
    ensures Scan(s, 0) == []
  {
    ScanName33nAFrom1(s);
    RunEndIs(s, 0, 0, Digit); RunEndIs(s, 0, 1, Upper); RunEndIs(s, 1, 1, Digit);
    assert MatchAt(s, 0).None?;
    ScanMissStep(s, 0);
  }

  /** `Name33nA` has no abbreviation, whatever the skip set. */
  lemma AbbreviationsOfName33nA(s: string, skip: set<string>)
    requires SpellsName33nA(s)
    ensures AbbreviationHelper.AbbreviationsInSymbol(s, false, skip) == []
  {
    ScanName33nAFrom0(s);
  }

  // ---------------------------------------------------------------------------
  // The interface prefix

  /** `s` is `IDDeal`, character by character. */
  predicate SpellsIDDeal(s: string) {
    |s| == 6 && s[0] == 'I' && s[1] == 'D' && s[2] == 'D' && s[3] == 'e' && s[4] == 'a'
    && s[5] == 'l'
  }

  lemma CharsIDDealAt0(s: string)
    requires s == "IDDeal"
    ensures |s| == 6 && s[0] == 'I' && s[1] == 'D' && s[2] == 'D' && s[3] == 'e' && s[4] == 'a'
      && s[5] == 'l'
  {
  }

  /** The predicate holds of that string and of no other. */
  lemma SpellsIDDealExactly(s: string)
    ensures SpellsIDDeal(s) <==> s == "IDDeal"
  {
    if s == "IDDeal" {
      CharsIDDealAt0(s);
    }
  }

  lemma ScanIDDealFrom4(s: string)
    requires SpellsIDDeal(s)
    ensures Scan(s, 4) == []
  {
    ScanPassesOver(s, 5);
    ScanPassesOver(s, 4);
  }

  lemma ScanIDDealFrom3(s: string)
    requires SpellsIDDeal(s)
    ensures Scan(s, 3) == []
  {
    ScanIDDealFrom4(s);
    ScanPassesOver(s, 3);
  }

  lemma ScanIDDealFrom0(s: string)
    requires SpellsIDDeal(s)
    ensures Scan(s, 0) == [Span(0, 3)]
  {
    ScanIDDealFrom3(s);
    RunEndIs(s, 0, 0, Digit); RunEndIs(s, 0, 3, Upper); RunEndIs(s, 3, 3, Digit);
    assert MatchAt(s, 0) == Some(3);
    ScanHitStep(s, 0, 3);
  }

  lemma ScanIDDealFrom2(s: string)
    requires SpellsIDDeal(s)
    ensures Scan(s, 2) == []
  {
    ScanIDDealFrom3(s);
    RunEndIs(s, 2, 2, Digit); RunEndIs(s, 2, 3, Upper); RunEndIs(s, 3, 3, Digit);
    assert MatchAt(s, 2).None?;
    ScanMissStep(s, 2);
  }

  lemma ScanIDDealFrom1(s: string)
    requires SpellsIDDeal(s)
    ensures Scan(s, 1) == []
  {
    ScanIDDealFrom2(s);
    RunEndIs(s, 1, 1, Digit); RunEndIs(s, 1, 3, Upper); RunEndIs(s, 3, 3, Digit);
    assert MatchAt(s, 1).None?;
    ScanMissStep(s, 1);
  }

  /** In an interface the `I` is not part of an abbreviation, and `DD`
      before a lowercase letter is too short to be one; in a class, `IDD` is
      an abbreviation. */
  lemma AbbreviationsOfIDDeal(s: string, skip: set<string>)
    requires SpellsIDDeal(s)
    ensures AbbreviationHelper.AbbreviationsInSymbol(s, true, skip) == []
    ensures AbbreviationHelper.AbbreviationsInSymbol(s, false, {}) == [Span(0, 3)]
  {
    ScanIDDealFrom1(s);
    ScanIDDealFrom0(s);
    AbbreviationHelper.KeepUnskippedKeepsAll(s, Scan(s, 0), {});
  }

  // ---------------------------------------------------------------------------
  // The two skip keys

  /** `s` is `DTOName`, character by character. */
  predicate SpellsDTOName(s: string) {
    |s| == 7 && s[0] == 'D' && s[1] == 'T' && s[2] == 'O' && s[3] == 'N' && s[4] == 'a'
    && s[5] == 'm' && s[6] == 'e'
  }

  lemma CharsDTONameAt0(s: string)
    requires s == "DTOName"
    ensures |s| == 7 && s[0] == 'D' && s[1] == 'T' && s[2] == 'O' && s[3] == 'N' && s[4] == 'a'
      && s[5] == 'm'
  {
  }

  lemma CharsDTONameAt6(s: string)
    requires s == "DTOName"
    ensures |s| == 7 && s[6] == 'e'
  {
  }

  /** The predicate holds of that string and of no other. */
  lemma SpellsDTONameExactly(s: string)
    ensures SpellsDTOName(s) <==> s == "DTOName"
  {
    if s == "DTOName" {
      CharsDTONameAt0(s);
      CharsDTONameAt6(s);
    }
  }

  lemma ScanDTONameFrom5(s: string)
    requires SpellsDTOName(s)
    ensures Scan(s, 5) == []
  {
    ScanPassesOver(s, 6);
    ScanPassesOver(s, 5);
  }

  lemma ScanDTONameFrom4(s: string)
    requires SpellsDTOName(s)
    ensures Scan(s, 4) == []
  {
    ScanDTONameFrom5(s);
    ScanPassesOver(s, 4);
  }

  lemma ScanDTONameFrom0(s: string)
    requires SpellsDTOName(s)
    ensures Scan(s, 0) == [Span(0, 4)]
  {
    ScanDTONameFrom4(s);
    RunEndIs(s, 0, 0, Digit); RunEndIs(s, 0, 4, Upper); RunEndIs(s, 4, 4, Digit);
    assert MatchAt(s, 0) == Some(4);
    ScanHitStep(s, 0, 4);
  }

  /** `s` is `MyDTO`, character by character. */
  predicate SpellsMyDTO(s: string) {
    |s| == 5 && s[0] == 'M' && s[1] == 'y' && s[2] == 'D' && s[3] == 'T' && s[4] == 'O'
  }

  lemma CharsMyDTOAt0(s: string)
    requires s == "MyDTO"
    ensures |s| == 5 && s[0] == 'M' && s[1] == 'y' && s[2] == 'D' && s[3] == 'T' && s[4] == 'O'
  {
  }

  /** The predicate holds of that string and of no other. */
  lemma SpellsMyDTOExactly(s: string)
    ensures SpellsMyDTO(s) <==> s == "MyDTO"
  {
    if s == "MyDTO" {
      CharsMyDTOAt0(s);
    }
  }

  lemma ScanMyDTOFrom2(s: string)
    requires SpellsMyDTO(s)
    ensures Scan(s, 2) == [Span(2, 3)]
  {
    RunEndIs(s, 2, 2, Digit); RunEndIs(s, 2, 5, Upper); RunEndIs(s, 5, 5, Digit);
    assert MatchAt(s, 2) == Some(5);
    ScanHitStep(s, 2, 5);
  }

  lemma ScanMyDTOFrom1(s: string)
    requires SpellsMyDTO(s)
    ensures Scan(s, 1) == [Span(2, 3)]
  {
    ScanMyDTOFrom2(s);
    ScanPassesOver(s, 1);
  }

  lemma ScanMyDTOFrom0(s: string)
    requires SpellsMyDTO(s)
    ensures Scan(s, 0) == [Span(2, 3)]
  {
    ScanMyDTOFrom1(s);
    RunEndIs(s, 0, 0, Digit); RunEndIs(s, 0, 1, Upper); RunEndIs(s, 1, 1, Digit);
    assert MatchAt(s, 0).None?;
    ScanMissStep(s, 0);
  }

  /** With `DTO` registered, the settings matcher drops `DTON` in `DTOName`,
      whose key is `DTO` because a lowercase letter follows, while the C#
      fixer's copy keeps it, whose key is the whole run `DTON`. */
  lemma SkipKeysOfDTOName(s: string)
    requires SpellsDTOName(s)
    ensures AbbreviationHelper.AbbreviationsInSymbol(s, false, {"DTO"}) == []
    ensures AbbreveaturesInSymbol(s, false) == [Span(0, 4)]
  {
    ScanDTONameFrom0(s);
    SpanInScanIsMatch(s, 0, Span(0, 4));
    SpanKey(s, 0, 5);
    CapitalsOfSplit(s, 0, 4, 4, Upper, Digit);
    assert s[..4][..3] == "DTO";
    assert AbbreviationHelper.SettingsWindow(s, Span(0, 4)) == s[0..5];
    assert AbbreviationHelper.SettingsKey(s, Span(0, 4)) == "DTO";
    AbbreviationHelper.KeepUnskippedDropsAll(s, Scan(s, 0), {"DTO"});
    RenameKeepsCleanMatches(s, false);
  }

  /** `MyDTO` ends in `DTO`, which both copies skip. */
  lemma SkipKeysOfMyDTO(s: string)
    requires SpellsMyDTO(s)
    ensures AbbreviationHelper.AbbreviationsInSymbol(s, false, {"DTO"}) == []
    ensures AbbreveaturesInSymbol(s, false) == []
  {
    ScanMyDTOFrom0(s);
    SpanInScanIsMatch(s, 0, Span(2, 3));
    SpanKey(s, 2, 5);
    CapitalsOfSplit(s, 2, 5, 5, Upper, Digit);
    assert s[2..5] == "DTO";
    assert AbbreviationHelper.SettingsWindow(s, Span(2, 3)) == s[2..5];
    assert AbbreviationHelper.SettingsKey(s, Span(2, 3)) == "DTO";
    assert RenameKey(s, Span(2, 3)) == "DTO";
    AbbreviationHelper.KeepUnskippedDropsAll(s, Scan(s, 0), {"DTO"});
    KeepUnregisteredDropsAll(s, Scan(s, 0));
  }
}
