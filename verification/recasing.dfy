/** What the two fix providers share: the declared accessibility of a field,
    and the assembly of a new name from the original one and the recased text
    of each abbreviation. */
module Recasing {
  import opened Chars
  import opened RegexScan

  /** Roslyn's `Accessibility`, in declaration order. */
  datatype Accessibility =
    | NotApplicable | Private | ProtectedAndInternal | Protected | Internal | ProtectedOrInternal | Public

  function Rank(a: Accessibility): nat {
    match a
    case NotApplicable => 0
    case Private => 1
    case ProtectedAndInternal => 2
    case Protected => 3
    case Internal => 4
    case ProtectedOrInternal => 5
    case Public => 6
  }

  /** `accessibility <= Accessibility.Private` */
  predicate AtMostPrivate(a: Accessibility) {
    Rank(a) <= Rank(Private)
  }

  lemma AtMostPrivateIsPrivateOrNone(a: Accessibility)
    ensures AtMostPrivate(a) <==> a == NotApplicable || a == Private
  {
  }

  /** An abbreviation begins the name. Spans are in increasing order, so only
      the first one can. */
  predicate StartsName(spans: seq<Span>) {
    |spans| > 0 && spans[0].index == 0
  }

  lemma StartsNameIffAny(spans: seq<Span>, n: nat)
    requires SpansWithin(spans, 0, n)
    ensures StartsName(spans) <==> exists k :: 0 <= k < |spans| && spans[k].index == 0
  {
    if k :| 0 <= k < |spans| && spans[k].index == 0 {
      if k > 0 {
        SpansWithinPairwise(spans, 0, n, 0, k);
      }
    }
  }

  /** `fix` is `name` with a `_` in front at most, and with only the case of
      letters changed. */
  predicate RecasedOnly(name: string, fix: string) {
    var p := |fix| - |name|;
    && (p == 0 || (p == 1 && fix[0] == '_'))
    && forall i :: 0 <= i < |name| ==> SameIgnoringCase(fix[p + i], name[i])
  }

  lemma PrefixedRecased(name: string, prefix: string, body: string)
    requires prefix == "" || prefix == "_"
    requires |body| == |name| && forall i :: 0 <= i < |name| ==> SameIgnoringCase(body[i], name[i])
    ensures RecasedOnly(name, prefix + body)
  {
    assert forall i :: 0 <= i < |name| ==> (prefix + body)[|prefix| + i] == body[i];
  }

  /** Whether position `i` lies inside one of the spans. */
  ghost predicate Covered(spans: seq<Span>, i: nat) {
    exists k :: 0 <= k < |spans| && spans[k].index <= i < spans[k].End()
  }

  /** One recased text per span, each as long as its span. */
  ghost predicate WordsFit(spans: seq<Span>, words: seq<string>) {
    |words| == |spans| && forall k :: 0 <= k < |spans| ==> |words[k]| == spans[k].length
  }

  /** The body of the new name from `cursor` on: the gap before each span is
      copied, the span is replaced by its recased text, and the rest of the
      name after the last span is copied. */
  function Assemble(orig: string, spans: seq<Span>, words: seq<string>, cursor: nat): (r: string)
    requires cursor <= |orig| && SpansWithin(spans, cursor, |orig|) && WordsFit(spans, words)
    ensures |r| == |orig| - cursor
    decreases |spans|
  {
    if |spans| == 0 then orig[cursor..]
    else
      var sp := spans[0];
      SpansWithinTail(spans, cursor, |orig|);
      orig[cursor..sp.index] + words[0] + Assemble(orig, spans[1..], words[1..], sp.End())
  }

  /** Inside the gap before the first span, or inside the first span. */
  lemma AssembleHead(orig: string, spans: seq<Span>, words: seq<string>, cursor: nat, i: nat)
    requires cursor <= |orig| && SpansWithin(spans, cursor, |orig|) && WordsFit(spans, words)
    requires |spans| > 0 && cursor <= i < spans[0].End()
    ensures Assemble(orig, spans, words, cursor)[i - cursor] ==
      if i < spans[0].index then orig[i] else words[0][i - spans[0].index]
  {
    SpansWithinTail(spans, cursor, |orig|);
    var rest := Assemble(orig, spans[1..], words[1..], spans[0].End());
    assert Assemble(orig, spans, words, cursor) == orig[cursor..spans[0].index] + words[0] + rest;
  }

  /** After the first span, the body is the body of the remaining spans. */
  lemma AssembleTail(orig: string, spans: seq<Span>, words: seq<string>, cursor: nat, i: nat)
    requires cursor <= |orig| && SpansWithin(spans, cursor, |orig|) && WordsFit(spans, words)
    requires |spans| > 0 && spans[0].End() <= i < |orig|
    ensures SpansWithin(spans[1..], spans[0].End(), |orig|) && WordsFit(spans[1..], words[1..])
    ensures Assemble(orig, spans, words, cursor)[i - cursor] ==
      Assemble(orig, spans[1..], words[1..], spans[0].End())[i - spans[0].End()]
  {
    SpansWithinTail(spans, cursor, |orig|);
    var rest := Assemble(orig, spans[1..], words[1..], spans[0].End());
    assert Assemble(orig, spans, words, cursor) == orig[cursor..spans[0].index] + words[0] + rest;
  }

  /** Position by position: a character inside a span comes from that span's
      recased text, any other character is the original one. */
  lemma {:induction false} AssembleAt(orig: string, spans: seq<Span>, words: seq<string>, cursor: nat, i: nat)
    requires cursor <= |orig| && SpansWithin(spans, cursor, |orig|) && WordsFit(spans, words)
    requires cursor <= i < |orig|
    ensures !Covered(spans, i) ==> Assemble(orig, spans, words, cursor)[i - cursor] == orig[i]
    ensures forall k :: 0 <= k < |spans| && spans[k].index <= i < spans[k].End() ==>
      Assemble(orig, spans, words, cursor)[i - cursor] == words[k][i - spans[k].index]
    decreases |spans|
  {
    if |spans| > 0 {
      var x := Assemble(orig, spans, words, cursor)[i - cursor];
      if i < spans[0].End() {
        AssembleHead(orig, spans, words, cursor, i);
        CharInHead(orig, spans, words, cursor, i, x);
      } else {
        AssembleTail(orig, spans, words, cursor, i);
        AssembleAt(orig, spans[1..], words[1..], spans[0].End(), i);
        CharInTail(orig, spans, words, i, x);
      }
    }
  }

  /** Inside span `k`, the assembled name has that span's recased text. */
  lemma AssembleInSpan(orig: string, spans: seq<Span>, words: seq<string>, k: nat, i: nat)
    requires SpansWithin(spans, 0, |orig|) && WordsFit(spans, words)
    requires k < |spans| && spans[k].index <= i < spans[k].End()
    ensures Assemble(orig, spans, words, 0)[i] == words[k][i - spans[k].index]
  {
    AssembleAt(orig, spans, words, 0, i);
  }

  /** Outside every span, the assembled name has the original character. */
  lemma AssembleOutside(orig: string, spans: seq<Span>, words: seq<string>, i: nat)
    requires SpansWithin(spans, 0, |orig|) && WordsFit(spans, words)
    requires i < |orig| && !Covered(spans, i)
    ensures Assemble(orig, spans, words, 0)[i] == orig[i]
  {
    AssembleAt(orig, spans, words, 0, i);
  }

  /** `x` is the character at `i` of a name assembled from these spans. */
  ghost predicate CharAt(orig: string, spans: seq<Span>, words: seq<string>, i: nat, x: char)
    requires i < |orig| && WordsFit(spans, words)
  {
    && (!Covered(spans, i) ==> x == orig[i])
    && forall k :: 0 <= k < |spans| && spans[k].index <= i < spans[k].End() && i - spans[k].index < |words[k]| ==>
         x == words[k][i - spans[k].index]
  }

  lemma CharInHead(orig: string, spans: seq<Span>, words: seq<string>, cursor: nat, i: nat, x: char)
    requires cursor <= |orig| && SpansWithin(spans, cursor, |orig|) && WordsFit(spans, words)
    requires |spans| > 0 && cursor <= i < spans[0].End()
    requires x == if i < spans[0].index then orig[i] else words[0][i - spans[0].index]
    ensures CharAt(orig, spans, words, i, x)
  {
    forall k | 0 < k < |spans|
      ensures !(spans[k].index <= i)
    {
      SpansWithinPairwise(spans, cursor, |orig|, 0, k);
    }
    if spans[0].index <= i {
      assert Covered(spans, i) by {
        assert spans[0].index <= i < spans[0].End();
      }
    }
  }

  lemma CharInTail(orig: string, spans: seq<Span>, words: seq<string>, i: nat, x: char)
    requires i < |orig| && WordsFit(spans, words) && |spans| > 0 && spans[0].End() <= i
    requires WordsFit(spans[1..], words[1..]) && CharAt(orig, spans[1..], words[1..], i, x)
    ensures CharAt(orig, spans, words, i, x)
  {
    if Covered(spans, i) {
      var k :| 0 <= k < |spans| && spans[k].index <= i < spans[k].End();
      assert spans[1..][k - 1] == spans[k];
    }
    forall k | 0 < k < |spans| && spans[k].index <= i < spans[k].End()
      ensures x == words[k][i - spans[k].index]
    {
      assert spans[1..][k - 1] == spans[k] && words[1..][k - 1] == words[k];
    }
  }
}
