/**
 * The page data that the in-page script of index.js:44-52 returns. The DOM is
 * not modelled: the `innerText` of the first `h1` (absent when there is no
 * `h1`), `document.title`, the `innerText` of every `p` and `li` element and
 * the resolved `src` of every `img`, each in document order, are inputs.
 */
module Extract {
  import opened Wrappers

  /** What the in-page script reads from the rendered document. */
  datatype RawPage = RawPage(h1: Option<string>, docTitle: string, blockTexts: seq<string>, imageSrcs: seq<string>)

  /** `{ title, paragraphs, images }` as the script returns it. */
  datatype Page = Page(title: string, paragraphs: seq<string>, images: seq<string>)

  /** The title used when the page has neither an `h1` text nor a document title. */
  const Placeholder: string := "Enginn titill"

  /**
   * The code points `String.prototype.trim` removes: ECMAScript WhiteSpace
   * (TAB, VT, FF, ZWNBSP and the space separators) and LineTerminator.
   */
  predicate IsJsSpace(c: char) {
    || c == '\t' || c == '\U{000B}' || c == '\U{000C}' || c == '\U{FEFF}'
    || c == ' ' || c == '\U{00A0}' || c == '\U{1680}' || '\U{2000}' <= c <= '\U{200A}'
    || c == '\U{202F}' || c == '\U{205F}' || c == '\U{3000}'
    || c == '\n' || c == '\r' || c == '\U{2028}' || c == '\U{2029}'
  }

  predicate AllSpace(s: string) {
    forall k :: 0 <= k < |s| ==> IsJsSpace(s[k])
  }

  /** Every character of `s` at a position in `lo..hi` is white space. */
  predicate SpaceIn(s: string, lo: nat, hi: nat)
    requires lo <= hi <= |s|
  {
    forall k :: lo <= k < hi ==> IsJsSpace(s[k])
  }

  /** Neither end of `s` is white space. */
  predicate IsTrimmed(s: string) {
    s == [] || (!IsJsSpace(s[0]) && !IsJsSpace(s[|s| - 1]))
  }

  /** The length of the longest all-space prefix. */
  function LeadingSpace(s: string): (n: nat)
    ensures n <= |s| && SpaceIn(s, 0, n)
    ensures n < |s| ==> !IsJsSpace(s[n])
  {
    if s != [] && IsJsSpace(s[0]) then
      var m := LeadingSpace(s[1..]);
      assert forall k :: 1 <= k < m + 1 ==> s[k] == s[1..][k - 1];
      m + 1
    else 0
  }

  /** The length of the longest all-space suffix. */
  function TrailingSpace(s: string): (n: nat)
    ensures n <= |s| && SpaceIn(s, |s| - n, |s|)
    ensures n < |s| ==> !IsJsSpace(s[|s| - n - 1])
  {
    if s != [] && IsJsSpace(s[|s| - 1]) then
      TrailingSpace(s[..|s| - 1]) + 1
    else 0
  }

  /** `String.prototype.trim`: no white space is left at either end. */
  function Trim(s: string): (r: string)
    ensures IsTrimmed(r)
  {
    var i := LeadingSpace(s);
    var t := s[i..];
    t[..|t| - TrailingSpace(t)]
  }

  /**
   * What `Trim` removes: the result is the slice of `s` left after removing
   * white space at both ends, and what it removed is white space.
   */
  lemma TrimShape(s: string)
    ensures var r, i := Trim(s), LeadingSpace(s);
      && i + |r| <= |s| && r == s[i..i + |r|]
      && SpaceIn(s, 0, i) && SpaceIn(s, i + |r|, |s|)
  {
    var i := LeadingSpace(s);
    var t := s[i..];
    var j := TrailingSpace(t);
    assert Trim(s) == s[i..|s| - j];
    assert SpaceIn(s, |s| - j, |s|) by {
      forall k | |s| - j <= k < |s| ensures s[k] == t[k - i] {}
    }
  }

  /** The first `h1`'s text when it is non-empty, else the document title when non-empty, else the placeholder. */
  function Title(h1: Option<string>, docTitle: string): (r: string)
    ensures r != []
    ensures h1.Some? && h1.value != [] ==> r == h1.value
    ensures (h1.None? || h1.value == []) && docTitle != [] ==> r == docTitle
    ensures (h1.None? || h1.value == []) && docTitle == [] ==> r == Placeholder
  {
    if h1.Some? && h1.value != [] then h1.value
    else if docTitle != [] then docTitle
    else Placeholder
  }

  /** Every element's text with white space trimmed at both ends, in order. */
  function TrimAll(texts: seq<string>): (r: seq<string>)
    ensures |r| == |texts|
    ensures forall k :: 0 <= k < |r| ==> r[k] == Trim(texts[k])
  {
    if texts == [] then [] else [Trim(texts[0])] + TrimAll(texts[1..])
  }

  /** The non-empty strings of `ts`, in order. */
  function NonBlank(ts: seq<string>): (r: seq<string>)
    ensures |r| <= |ts|
    ensures forall k :: 0 <= k < |r| ==> r[k] != [] && r[k] in ts
  {
    if ts == [] then []
    else if ts[0] != [] then [ts[0]] + NonBlank(ts[1..])
    else NonBlank(ts[1..])
  }

  /** The trimmed texts with the empty results dropped, in order. */
  function Paragraphs(texts: seq<string>): (r: seq<string>)
    ensures |r| <= |texts|
    ensures forall k :: 0 <= k < |r| ==> r[k] != [] && IsTrimmed(r[k])
  {
    NonBlank(TrimAll(texts))
  }

  /** The index of each non-empty string of `ts`, counting the first as `base`. */
  function SourcesOf(ts: seq<string>, base: nat): seq<nat> {
    if ts == [] then []
    else if ts[0] != [] then [base] + SourcesOf(ts[1..], base + 1)
    else SourcesOf(ts[1..], base + 1)
  }

  /** For each paragraph, the index of the element it came from. */
  function ParagraphSources(texts: seq<string>): seq<nat> {
    SourcesOf(TrimAll(texts), 0)
  }

  /** One source per kept string, each an index of `ts` counted from `base`. */
  lemma {:induction false} SourcesOfBounds(ts: seq<string>, base: nat)
    ensures |SourcesOf(ts, base)| == |NonBlank(ts)|
    ensures forall k :: 0 <= k < |SourcesOf(ts, base)| ==> base <= SourcesOf(ts, base)[k] < base + |ts|
  {
    if ts != [] {
      SourcesOfBounds(ts[1..], base + 1);
    }
  }

  /** Kept string `k` is the string of `ts` at its source index. */
  lemma {:induction false} KeptFromSource(ts: seq<string>, base: nat, k: nat)
    requires k < |NonBlank(ts)|
    ensures var idx := SourcesOf(ts, base);
      && k < |idx| && base <= idx[k] < base + |ts| && NonBlank(ts)[k] == ts[idx[k] - base]
  {
    SourcesOfBounds(ts, base);
    if ts[0] == [] || k > 0 {
      var k' := if ts[0] != [] then k - 1 else k;
      KeptFromSource(ts[1..], base + 1, k');
    }
  }

  /** Paragraph `k` is the trimmed text of element `ParagraphSources(texts)[k]`. */
  lemma ParagraphsFromSources(texts: seq<string>)
    ensures var idx := ParagraphSources(texts);
      && |idx| == |Paragraphs(texts)|
      && forall k :: 0 <= k < |idx| ==> idx[k] < |texts| && Paragraphs(texts)[k] == Trim(texts[idx[k]])
  {
    var ts := TrimAll(texts);
    SourcesOfBounds(ts, 0);
    forall k | 0 <= k < |ParagraphSources(texts)|
      ensures Paragraphs(texts)[k] == Trim(texts[ParagraphSources(texts)[k]])
    {
      KeptFromSource(ts, 0, k);
    }
  }

  /** The source indices are at least `base` and increase. */
  lemma {:induction false} SourcesOfIncrease(ts: seq<string>, base: nat)
    ensures forall k :: 0 <= k < |SourcesOf(ts, base)| ==> base <= SourcesOf(ts, base)[k]
    ensures forall k, m :: 0 <= k < m < |SourcesOf(ts, base)| ==> SourcesOf(ts, base)[k] < SourcesOf(ts, base)[m]
  {
    if ts != [] {
      SourcesOfIncrease(ts[1..], base + 1);
    }
  }

  /** The source indices increase: paragraphs keep document order. */
  lemma SourcesIncrease(texts: seq<string>)
    ensures forall k, m :: 0 <= k < m < |ParagraphSources(texts)| ==>
      ParagraphSources(texts)[k] < ParagraphSources(texts)[m]
  {
    SourcesOfIncrease(TrimAll(texts), 0);
  }

  /** Every non-empty string of `ts` has its index, counted from `base`, among the sources. */
  lemma {:induction false} SourcesOfComplete(ts: seq<string>, base: nat)
    ensures forall j :: 0 <= j < |ts| && ts[j] != [] ==> base + j in SourcesOf(ts, base)
  {
    if ts != [] {
      SourcesOfComplete(ts[1..], base + 1);
      forall j | 1 <= j < |ts| && ts[j] != [] ensures base + j in SourcesOf(ts[1..], base + 1) {
        assert ts[1..][j - 1] == ts[j];
      }
    }
  }

  /** Every element whose trimmed text is non-empty yields a paragraph: only blank ones are dropped. */
  lemma SourcesComplete(texts: seq<string>)
    ensures forall j :: 0 <= j < |texts| && Trim(texts[j]) != [] ==> j in ParagraphSources(texts)
  {
    var ts := TrimAll(texts);
    SourcesOfComplete(ts, 0);
    forall j | 0 <= j < |texts| && Trim(texts[j]) != [] ensures j in ParagraphSources(texts) {
      assert ts[j] != [];
    }
  }

  /** The script's result: the title is never empty, the paragraphs are trimmed and non-empty. */
  function ExtractPage(raw: RawPage): (p: Page)
    ensures p.title != []
    ensures forall k :: 0 <= k < |p.paragraphs| ==> p.paragraphs[k] != [] && IsTrimmed(p.paragraphs[k])
    ensures p.images == raw.imageSrcs
  {
    Page(Title(raw.h1, raw.docTitle), Paragraphs(raw.blockTexts), raw.imageSrcs)
  }

  /** Trimming twice is trimming once. */
  lemma TrimIdempotent(s: string)
    ensures Trim(Trim(s)) == Trim(s)
  {
    var r := Trim(s);
    TrimShape(r);
    var i := LeadingSpace(r);
    assert r != [] ==> i == 0;
    var r2 := Trim(r);
    assert |r2| == |r|;
  }

  /** A text made of white space only yields no paragraph. */
  lemma BlankTextDropped(s: string)
    requires AllSpace(s)
    ensures Trim(s) == []
    ensures Paragraphs([s]) == []
  {
    TrimShape(s);
  }
}
