/**
 * The document-name sanitiser of index.js:78-82. The title is lowercased;
 * every character outside `[a-z0-9]` becomes a hyphen; each run of hyphens
 * becomes one; a hyphen at the start and one at the end are removed; and
 * `.md` is appended. Each step is one function below; `Stem` is the
 * composition before the suffix, `FileName` the whole name.
 */
module Sanitiser {

  /** The characters the class `[a-z0-9]` accepts. */
  predicate IsAlnum(c: char) {
    'a' <= c <= 'z' || '0' <= c <= '9'
  }

  /** The characters a sanitised stem may contain. */
  predicate IsStemChar(c: char) {
    IsAlnum(c) || c == '-'
  }

  /** The ASCII part of `String.prototype.toLowerCase`. */
  function LowerChar(c: char): char {
    if 'A' <= c <= 'Z' then (c as int - 'A' as int + 'a' as int) as char else c
  }

  function Lower(s: string): string {
    seq(|s|, i requires 0 <= i < |s| => LowerChar(s[i]))
  }

  /** The first replacement: every character outside `[a-z0-9]` becomes a hyphen. */
  function Dash(s: string): string {
    seq(|s|, i requires 0 <= i < |s| => if IsAlnum(s[i]) then s[i] else '-')
  }

  /** No two adjacent hyphens. */
  predicate NoDoubleHyphen(s: string) {
    forall i :: 0 <= i < |s| - 1 ==> !(s[i] == '-' && s[i + 1] == '-')
  }

  /** Neither the first nor the last character is a hyphen. */
  predicate NoEdgeHyphen(s: string) {
    |s| > 0 ==> s[0] != '-' && s[|s| - 1] != '-'
  }

  /** What a sanitised stem looks like: `[a-z0-9-]*`, no `--`, no hyphen at either end. */
  predicate IsStem(s: string) {
    && (forall i :: 0 <= i < |s| ==> IsStemChar(s[i]))
    && NoDoubleHyphen(s)
    && NoEdgeHyphen(s)
  }

  /** `s` with every hyphen removed. */
  function Unhyphenated(s: string): string {
    if s == [] then []
    else (if s[0] == '-' then [] else [s[0]]) + Unhyphenated(s[1..])
  }

  /** The `[a-z0-9]` characters of `s`, in order. */
  function Alnums(s: string): string {
    if s == [] then []
    else (if IsAlnum(s[0]) then [s[0]] else []) + Alnums(s[1..])
  }

  /**
   * The second replacement: every maximal run of hyphens becomes one hyphen.
   * The result starts with the same character, has no `--`, keeps every
   * other character in order and introduces no new character. These clauses
   * alone would also hold if every hyphen after the first character were
   * dropped; that each run leaves exactly one hyphen is `CollapseFixpoint`
   * and, for dashed input, `CollapseDash`.
   */
  function Collapse(s: string): (r: string)
    ensures |s| > 0 ==> |r| > 0 && r[0] == s[0]
    ensures NoDoubleHyphen(r)
    ensures Unhyphenated(r) == Unhyphenated(s)
    ensures forall i :: 0 <= i < |r| ==> r[i] in s
  {
    if |s| <= 1 then s
    else if s[0] == '-' && s[1] == '-' then Collapse(s[1..])
    else [s[0]] + Collapse(s[1..])
  }

  /**
   * The third replacement: drops a hyphen at the start and a hyphen at the
   * end. On "-" the first alternative consumes the only character, so the
   * result is "".
   */
  function Strip(s: string): string {
    var a := if |s| > 0 && s[0] == '-' then s[1..] else s;
    if |a| > 0 && a[|a| - 1] == '-' then a[..|a| - 1] else a
  }

  /** The sanitised title before the `.md` suffix. */
  function Stem(title: string): string {
    Strip(Collapse(Dash(Lower(title))))
  }

  /** The document's file name. */
  function FileName(title: string): string {
    Stem(title) + ".md"
  }

  /** The stem is shaped as a stem: `[a-z0-9-]*`, no `--`, no hyphen at either end. */
  lemma StemShape(title: string)
    ensures IsStem(Stem(title))
  {
    StripKeepsStemShape(Collapse(Dash(Lower(title))));
  }

  /** The file name is a well-shaped stem followed by `.md`. */
  lemma FileNameShape(title: string)
    ensures |FileName(title)| >= 3
    ensures FileName(title)[|FileName(title)| - 3..] == ".md"
    ensures IsStem(FileName(title)[..|FileName(title)| - 3])
  {
    var s := Stem(title);
    StemShape(title);
    assert (s + ".md")[..|s|] == s;
  }

  lemma StripKeepsStemShape(c: string)
    requires forall i :: 0 <= i < |c| ==> IsStemChar(c[i])
    requires NoDoubleHyphen(c)
    ensures IsStem(Strip(c))
  {
    var a := if |c| > 0 && c[0] == '-' then c[1..] else c;
    assert forall i :: 0 <= i < |a| ==> IsStemChar(a[i]);
    assert NoDoubleHyphen(a);
  }

  lemma {:induction false} UnhyphenatedAppend(a: string, b: string)
    ensures Unhyphenated(a + b) == Unhyphenated(a) + Unhyphenated(b)
  {
    if a == [] {
      assert a + b == b;
    } else {
      assert (a + b)[1..] == a[1..] + b;
      UnhyphenatedAppend(a[1..], b);
    }
  }

  lemma {:induction false} UnhyphenatedDash(u: string)
    ensures Unhyphenated(Dash(u)) == Alnums(u)
  {
    if u != [] {
      assert Dash(u)[1..] == Dash(u[1..]);
      UnhyphenatedDash(u[1..]);
    }
  }

  lemma UnhyphenatedStrip(s: string)
    ensures Unhyphenated(Strip(s)) == Unhyphenated(s)
  {
    var a := if |s| > 0 && s[0] == '-' then s[1..] else s;
    assert Unhyphenated(a) == Unhyphenated(s);
    if |a| > 0 && a[|a| - 1] == '-' {
      assert a == a[..|a| - 1] + ['-'];
      UnhyphenatedAppend(a[..|a| - 1], ['-']);
    }
  }

  /**
   * Sanitising keeps every letter and digit of the lowercased title, in order,
   * and adds none: removing the hyphens from the stem gives exactly them.
   */
  lemma StemKeepsAlnums(title: string)
    ensures Unhyphenated(Stem(title)) == Alnums(Lower(title))
  {
    var c := Collapse(Dash(Lower(title)));
    UnhyphenatedDash(Lower(title));
    UnhyphenatedStrip(c);
  }

  lemma {:induction false} CollapseFixpoint(s: string)
    requires NoDoubleHyphen(s)
    ensures Collapse(s) == s
  {
    if |s| > 1 {
      assert !(s[0] == '-' && s[1] == '-');
      assert NoDoubleHyphen(s[1..]) by {
        forall i | 0 <= i < |s[1..]| - 1 ensures !(s[1..][i] == '-' && s[1..][i + 1] == '-') {
          assert s[1..][i] == s[i + 1] && s[1..][i + 1] == s[i + 2];
        }
      }
      CollapseFixpoint(s[1..]);
    }
  }

  /** A string already shaped as a stem is its own stem. */
  lemma StemFixpoint(s: string)
    requires IsStem(s)
    ensures Stem(s) == s
  {
    assert Lower(s) == s;
    assert Dash(Lower(s)) == s;
    CollapseFixpoint(s);
  }

  /** Sanitising is idempotent: the stem of a stem is itself. */
  lemma StemIdempotent(title: string)
    ensures Stem(Stem(title)) == Stem(title)
    ensures FileName(Stem(title)) == FileName(title)
  {
    StemShape(title);
    StemFixpoint(Stem(title));
  }

  lemma {:induction false} AllHyphens(s: string)
    requires Unhyphenated(s) == []
    ensures forall i :: 0 <= i < |s| ==> s[i] == '-'
  {
    if s != [] {
      AllHyphens(s[1..]);
      forall i | 0 <= i < |s| ensures s[i] == '-' {
        if i > 0 { assert s[i] == s[1..][i - 1]; }
      }
    }
  }

  /** A title without letters or digits is sanitised without error, to the bare suffix. */
  lemma NoAlnumTitle(title: string)
    requires Alnums(Lower(title)) == []
    ensures Stem(title) == []
    ensures FileName(title) == ".md"
  {
    var s := Stem(title);
    StemShape(title);
    StemKeepsAlnums(title);
    AllHyphens(s);
  }

  /** The maximal runs of `[a-z0-9]` characters in `s`, in order. */
  function Words(s: string): seq<string> {
    if s == [] then []
    else
      var w := Words(s[1..]);
      if !IsAlnum(s[0]) then w
      else if |s| > 1 && IsAlnum(s[1]) && w != [] then [[s[0]] + w[0]] + w[1..]
      else [[s[0]]] + w
  }

  /** The words with a single hyphen between neighbours. */
  function Join(ws: seq<string>): string {
    if ws == [] then []
    else if |ws| == 1 then ws[0]
    else ws[0] + "-" + Join(ws[1..])
  }

  /** A non-empty run of letters and digits. */
  predicate IsWord(w: string) {
    w != [] && forall j :: 0 <= j < |w| ==> IsAlnum(w[j])
  }

  /** Words are non-empty runs of letters and digits; there are none only when `s` has no letter or digit. */
  lemma {:induction false} WordsShape(s: string)
    ensures forall k :: 0 <= k < |Words(s)| ==> IsWord(Words(s)[k])
    ensures Words(s) == [] <==> forall i :: 0 <= i < |s| ==> !IsAlnum(s[i])
  {
    if s != [] {
      var s' := s[1..];
      WordsShape(s');
      var w := Words(s');
      assert forall i :: 1 <= i < |s| ==> s[i] == s'[i - 1];
      if !IsAlnum(s[0]) {
        WordsSep(s);
      } else if |s| > 1 && IsAlnum(s[1]) {
        WordsAlnumAlnum(s);
        assert IsWord([s[0]] + w[0]);
        assert Words(s)[1..] == w[1..];
      } else {
        WordsAlnumEnd(s);
        assert Words(s)[1..] == w;
      }
    }
  }

  /** A leading separator belongs to no word. */
  lemma WordsSep(u: string)
    requires |u| > 0 && !IsAlnum(u[0])
    ensures Words(u) == Words(u[1..])
  {
  }

  /** A letter or digit followed by another extends the first word of the rest. */
  lemma WordsAlnumAlnum(u: string)
    requires |u| > 1 && IsAlnum(u[0]) && IsAlnum(u[1])
    ensures Words(u[1..]) != []
    ensures Words(u) == [[u[0]] + Words(u[1..])[0]] + Words(u[1..])[1..]
  {
    assert u[1..][0] == u[1];
  }

  /** A letter or digit followed by a separator, or by nothing, is a word by itself. */
  lemma WordsAlnumEnd(u: string)
    requires |u| > 0 && IsAlnum(u[0]) && (|u| == 1 || !IsAlnum(u[1]))
    ensures Words(u) == [[u[0]]] + Words(u[1..])
  {
  }

  /** Prefixing the first word with `c` prefixes the joined string with `c`. */
  lemma JoinMergeHead(c: char, w: seq<string>)
    requires w != []
    ensures Join([[c] + w[0]] + w[1..]) == [c] + Join(w)
  {
    var x := [c] + w[0];
    var rest := w[1..];
    if rest != [] {
      var j := Join(rest);
      assert ([x] + rest)[1..] == rest;
      assert x + "-" + j == [c] + (w[0] + "-" + j);
    }
  }

  /** A new one-character first word. */
  lemma JoinNewHead(c: char, w: seq<string>)
    ensures Join([[c]] + w) == if w == [] then [c] else [c] + "-" + Join(w)
  {
    assert ([[c]] + w)[1..] == w;
  }

  /** Joined words of letters and digits begin and end with a letter or digit. */
  lemma {:induction false} JoinEdges(ws: seq<string>)
    requires ws != []
    requires forall k :: 0 <= k < |ws| ==> IsWord(ws[k])
    ensures Join(ws) != [] && IsAlnum(Join(ws)[0]) && IsAlnum(Join(ws)[|Join(ws)| - 1])
  {
    if |ws| > 1 {
      JoinEdges(ws[1..]);
      assert IsWord(ws[0]);
    } else {
      assert IsWord(ws[0]);
    }
  }

  /** The hyphen the dashed form of `u` starts with, if any. */
  function LeadHyphen(u: string): string {
    if |u| > 0 && !IsAlnum(u[0]) then "-" else ""
  }

  /** The hyphen collapsing leaves after the last word of `u`, if any. */
  function TrailHyphen(u: string): string {
    if |u| > 0 && !IsAlnum(u[|u| - 1]) && Words(u) != [] then "-" else ""
  }

  /** Collapsing the dashed form of `u` looks at its first two characters. */
  lemma CollapseDashHead(u: string)
    requires |u| > 1
    ensures Collapse(Dash(u)) ==
      if !IsAlnum(u[0]) && !IsAlnum(u[1]) then Collapse(Dash(u[1..]))
      else [if IsAlnum(u[0]) then u[0] else '-'] + Collapse(Dash(u[1..]))
  {
    assert Dash(u)[1..] == Dash(u[1..]);
  }

  // Regroupings of concatenations used by the steps below.

  lemma RegroupJoin(c: string, j: string, t: string)
    ensures c + ("" + j + t) == "" + (c + j) + t
  {
  }

  lemma RegroupHyphen(c: string, j: string, t: string)
    ensures c + ("-" + j + t) == "" + (c + "-" + j) + t
  {
  }

  lemma RegroupLast(c: string)
    ensures c + ("-" + "" + "") == "" + c + "-"
  {
  }

  lemma RegroupLeadHyphen(j: string, t: string)
    ensures "-" + ("" + j + t) == "-" + j + t
  {
  }

  /** The collapse of `u` from that of its tail, when `u` starts with two letters or digits. */
  lemma StepAlnumAlnum(u: string)
    requires |u| > 1 && IsAlnum(u[0]) && IsAlnum(u[1])
    requires Collapse(Dash(u[1..])) == LeadHyphen(u[1..]) + Join(Words(u[1..])) + TrailHyphen(u[1..])
    ensures Collapse(Dash(u)) == LeadHyphen(u) + Join(Words(u)) + TrailHyphen(u)
  {
    var u' := u[1..];
    CollapseDashHead(u);
    WordsAlnumAlnum(u);
    JoinMergeHead(u[0], Words(u'));
    assert u'[|u'| - 1] == u[|u| - 1];
    RegroupJoin([u[0]], Join(Words(u')), TrailHyphen(u'));
  }

  /** The same when `u` starts with a letter or digit and then a separator. */
  lemma StepAlnumSep(u: string)
    requires |u| > 1 && IsAlnum(u[0]) && !IsAlnum(u[1])
    requires Collapse(Dash(u[1..])) == LeadHyphen(u[1..]) + Join(Words(u[1..])) + TrailHyphen(u[1..])
    ensures Collapse(Dash(u)) == LeadHyphen(u) + Join(Words(u)) + TrailHyphen(u)
  {
    var u' := u[1..];
    CollapseDashHead(u);
    WordsAlnumEnd(u);
    JoinNewHead(u[0], Words(u'));
    assert u'[|u'| - 1] == u[|u| - 1];
    if Words(u') == [] {
      WordsShape(u');
      RegroupLast([u[0]]);
    } else {
      RegroupHyphen([u[0]], Join(Words(u')), TrailHyphen(u'));
    }
  }

  /** The same when `u` starts with a separator. */
  lemma StepSep(u: string)
    requires |u| > 1 && !IsAlnum(u[0])
    requires Collapse(Dash(u[1..])) == LeadHyphen(u[1..]) + Join(Words(u[1..])) + TrailHyphen(u[1..])
    ensures Collapse(Dash(u)) == LeadHyphen(u) + Join(Words(u)) + TrailHyphen(u)
  {
    var u' := u[1..];
    CollapseDashHead(u);
    WordsSep(u);
    assert u'[|u'| - 1] == u[|u| - 1];
    if IsAlnum(u[1]) {
      RegroupLeadHyphen(Join(Words(u')), TrailHyphen(u'));
    }
  }

  /** Collapsing the dashed form gives the joined words between the edge hyphens. */
  lemma {:induction false} CollapseDash(u: string)
    ensures Collapse(Dash(u)) == LeadHyphen(u) + Join(Words(u)) + TrailHyphen(u)
    decreases |u|
  {
    if |u| > 1 {
      CollapseDash(u[1..]);
      if !IsAlnum(u[0]) {
        StepSep(u);
      } else if IsAlnum(u[1]) {
        StepAlnumAlnum(u);
      } else {
        StepAlnumSep(u);
      }
    }
  }

  /** Stripping a hyphen at either end of a string with alphanumeric edges gives the string back. */
  lemma StripEdges(lead: string, j: string, t: string)
    requires lead == "" || lead == "-"
    requires t == "" || t == "-"
    requires j == [] ==> t == ""
    requires j != [] ==> IsAlnum(j[0]) && IsAlnum(j[|j| - 1])
    ensures Strip(lead + j + t) == j
  {
    var a := j + t;
    assert lead == "-" ==> (lead + j + t)[1..] == a;
    assert lead == "" ==> lead + j + t == a;
    if t == "-" {
      assert a[..|a| - 1] == j;
    } else {
      assert a == j;
    }
  }

  /** Stripping the edge hyphens leaves exactly the joined words. */
  lemma StripJoined(u: string)
    ensures Strip(LeadHyphen(u) + Join(Words(u)) + TrailHyphen(u)) == Join(Words(u))
  {
    var w := Words(u);
    if w != [] {
      WordsShape(u);
      JoinEdges(w);
    }
    StripEdges(LeadHyphen(u), Join(w), TrailHyphen(u));
  }

  /**
   * The stem is the maximal runs of letters and digits of the lowercased
   * title, joined by single hyphens.
   */
  lemma StemIsJoinedWords(title: string)
    ensures Stem(title) == Join(Words(Lower(title)))
  {
    CollapseDash(Lower(title));
    StripJoined(Lower(title));
  }

  lemma ExampleLowered()
    ensures Lower("Um reikninginn minn") == "um reikninginn minn"
  {
    var t, l := "Um reikninginn minn", "um reikninginn minn";
    forall i | 0 <= i < |t| ensures Lower(t)[i] == l[i] {
    }
  }

  lemma ExampleDashed()
    ensures Dash("um reikninginn minn") == "um-reikninginn-minn"
  {
    var l, d := "um reikninginn minn", "um-reikninginn-minn";
    forall i | 0 <= i < |l| ensures Dash(l)[i] == d[i] {
    }
  }

  lemma ExampleSingleHyphens()
    ensures NoDoubleHyphen("um-reikninginn-minn")
  {
    var d := "um-reikninginn-minn";
    forall i | 0 <= i < |d| - 1 ensures !(d[i] == '-' && d[i + 1] == '-') {
    }
  }

  lemma ExampleCollapsed()
    ensures Collapse(Dash(Lower("Um reikninginn minn"))) == "um-reikninginn-minn"
  {
    ExampleLowered();
    ExampleDashed();
    ExampleSingleHyphens();
    CollapseFixpoint("um-reikninginn-minn");
  }

  lemma ExampleStripped()
    ensures Strip("um-reikninginn-minn") == "um-reikninginn-minn"
  {
  }

  /** The title of a page on the help site: spaces become single hyphens, capitals are lowered. */
  lemma FileNameExample()
    ensures FileName("Um reikninginn minn") == "um-reikninginn-minn" + ".md"
  {
    ExampleCollapsed();
    ExampleStripped();
  }
}
