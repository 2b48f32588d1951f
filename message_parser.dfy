/** The web app's post-processing of an assistant answer (packages/webapp/src/message-parser.ts):
    `<<question>>` follow-ups are pulled out, an unterminated trailing `<<` is cut off, the rest is
    trimmed and split on `[label]` citations, which are numbered by first appearance. */
module MessageParser {
  import opened Wrappers
  import Text
  import opened ChatProtocol

  /** The delimiters of a pattern `open([^c]+)close`, where `c` is the first character of
      `close`: both patterns of the parser have this shape. */
  datatype Delims = Delims(open: string, close: string) {
    predicate Valid() { |open| > 0 && |close| > 0 }
  }

  /** `/<<([^>]+)>>/g` */
  const Followup := Delims("<<", ">>")
  /** `/\[([^\]]+)]/g` */
  const Citation := Delims("[", "]")

  /** The run of characters other than `stop` at the start of `t`: what a greedy `[^stop]+` takes. */
  function BodyLen(t: string, stop: char): (n: nat)
    ensures n <= |t|
  {
    if t == [] || t[0] == stop then 0 else 1 + BodyLen(t[1..], stop)
  }

  /** The run is as long as possible and holds no `stop`. */
  lemma {:induction false} BodyLenRun(t: string, stop: char)
    ensures stop !in t[..BodyLen(t, stop)]
    ensures BodyLen(t, stop) < |t| ==> t[BodyLen(t, stop)] == stop
  {
    if t != [] && t[0] != stop {
      BodyLenRun(t[1..], stop);
      assert t[..BodyLen(t, stop)] == [t[0]] + t[1..][..BodyLen(t[1..], stop)];
    }
  }

  /** A match found at the start of the text: the captured group and the text after the match. */
  datatype Match = Match(capture: string, rest: string)

  /** Whether the pattern matches at the very start of `t`. The body cannot contain the first
      closing character, so the greedy body either ends right before the closing delimiter or
      the pattern does not match here at all. */
  function MatchAt(t: string, d: Delims): (r: Option<Match>)
    requires d.Valid()
    ensures r.Some? ==> |r.value.rest| < |t|
  {
    if |d.open| <= |t| && t[..|d.open|] == d.open then
      var n := BodyLen(t[|d.open|..], d.close[0]);
      var e := |d.open| + n;
      if n > 0 && e + |d.close| <= |t| && t[e..e + |d.close|] == d.close
      then Some(Match(t[|d.open|..e], t[e + |d.close|..]))
      else None
    else None
  }

  /** A match is the opening delimiter, a non-empty capture without the first closing
      character, the closing delimiter, and then the rest of the text. */
  lemma MatchShape(t: string, d: Delims)
    requires d.Valid() && MatchAt(t, d).Some?
    ensures var m := MatchAt(t, d).value;
            && t == d.open + m.capture + d.close + m.rest
            && m.capture != "" && d.close[0] !in m.capture
  {
    var o := |d.open|;
    var u := t[o..];
    var n := BodyLen(u, d.close[0]);
    var e := o + n;
    BodyLenRun(u, d.close[0]);
    assert t[o..e] == u[..n];
    SplitFour(t, o, e, e + |d.close|);
  }

  lemma SplitFour(t: string, a: nat, b: nat, c: nat)
    requires a <= b <= c <= |t|
    ensures t == t[..a] + t[a..b] + t[b..c] + t[c..]
  {
  }

  /** The result of a global match scan, as `split` with a capturing pattern returns it: text
      between matches at even indices, captures at odd indices. The scan is leftmost and resumes
      after each match, so matches do not overlap. */
  function Parts(t: string, d: Delims): (r: seq<string>)
    requires d.Valid()
    ensures |r| % 2 == 1
    decreases |t|
  {
    if t == [] then [""]
    else
      match MatchAt(t, d)
      case Some(m) => ["", m.capture] + Parts(m.rest, d)
      case None =>
        var rest := Parts(t[1..], d);
        [[t[0]] + rest[0]] + rest[1..]
  }

  /** The scan misses no match: the first text part is a prefix of the text at none of whose
      positions the pattern matches. */
  lemma {:induction false} PartsFirstNoMatch(t: string, d: Delims)
    requires d.Valid()
    ensures |Parts(t, d)[0]| <= |t| && t[..|Parts(t, d)[0]|] == Parts(t, d)[0]
    ensures forall i :: 0 <= i < |Parts(t, d)[0]| ==> MatchAt(t[i..], d).None?
    decreases |t|
  {
    if t != [] && MatchAt(t, d).None? {
      var rest := Parts(t[1..], d);
      PartsFirstNoMatch(t[1..], d);
      var p0 := Parts(t, d)[0];
      assert p0 == [t[0]] + rest[0];
      assert t[..|p0|] == [t[0]] + t[1..][..|rest[0]|];
      forall i | 0 <= i < |p0|
        ensures MatchAt(t[i..], d).None?
      {
        if i == 0 {
          assert t[i..] == t;
        } else {
          assert t[i..] == t[1..][i - 1..];
        }
      }
    }
  }

  /** The scan takes the leftmost match: when there are parts after the first text part, the
      pattern matches right after it, its capture is the next part and the parts after that
      are those of the text after the match; with no further part the first part is the whole
      text, so a text without any match comes back whole. */
  lemma {:induction false} PartsNextMatch(t: string, d: Delims)
    requires d.Valid()
    ensures |Parts(t, d)[0]| <= |t|
    ensures |Parts(t, d)| == 1 ==> Parts(t, d)[0] == t
    ensures |Parts(t, d)| > 1 ==>
      var m := MatchAt(t[|Parts(t, d)[0]|..], d);
      m.Some? && Parts(t, d)[1] == m.value.capture && Parts(t, d)[2..] == Parts(m.value.rest, d)
    decreases |t|
  {
    if t != [] {
      var p := Parts(t, d);
      match MatchAt(t, d)
      case Some(m) =>
        assert p == ["", m.capture] + Parts(m.rest, d);
        assert t[|p[0]|..] == t;
      case None =>
        var rest := Parts(t[1..], d);
        PartsNextMatch(t[1..], d);
        assert p == [[t[0]] + rest[0]] + rest[1..];
        if |p| > 1 {
          assert t[|p[0]|..] == t[1..][|rest[0]|..];
          assert p[1] == rest[1] && p[2..] == rest[2..];
        } else {
          assert t == [t[0]] + t[1..];
        }
    }
  }

  /** Puts each capture back between its delimiters. */
  function Weave(parts: seq<string>, d: Delims): string
    requires |parts| % 2 == 1
    decreases |parts|
  {
    if |parts| == 1 then parts[0] else parts[0] + d.open + parts[1] + d.close + Weave(parts[2..], d)
  }

  lemma WeaveAtMatch(t: string, d: Delims)
    requires d.Valid() && t != [] && MatchAt(t, d).Some?
    requires Weave(Parts(MatchAt(t, d).value.rest, d), d) == MatchAt(t, d).value.rest
    ensures Weave(Parts(t, d), d) == t
  {
    var m := MatchAt(t, d).value;
    MatchShape(t, d);
    var p := Parts(t, d);
    assert p == ["", m.capture] + Parts(m.rest, d);
    assert p[0] == "" && p[1] == m.capture && p[2..] == Parts(m.rest, d);
    assert Weave(p, d) == p[0] + d.open + p[1] + d.close + Weave(p[2..], d);
    assert "" + d.open == d.open;
  }

  /** The parts of text that does not start with a match: its first character joins the first
      text part of the rest. */
  lemma PartsAtPlain(t: string, d: Delims)
    requires d.Valid() && t != [] && MatchAt(t, d).None?
    ensures var parts := Parts(t[1..], d);
            Parts(t, d) == [[t[0]] + parts[0]] + parts[1..]
  {
  }

  lemma WeavePrepend(c: char, parts: seq<string>, d: Delims)
    requires |parts| % 2 == 1
    ensures Weave([[c] + parts[0]] + parts[1..], d) == [c] + Weave(parts, d)
  {
    var q := [[c] + parts[0]] + parts[1..];
    if |parts| > 1 {
      assert q[2..] == parts[2..];
      assert Weave(q, d) == [c] + (parts[0] + d.open + parts[1] + d.close + Weave(parts[2..], d));
    }
  }

  lemma WeaveAtPlain(t: string, d: Delims)
    requires d.Valid() && t != [] && MatchAt(t, d).None?
    requires Weave(Parts(t[1..], d), d) == t[1..]
    ensures Weave(Parts(t, d), d) == t
  {
    PartsAtPlain(t, d);
    WeavePrepend(t[0], Parts(t[1..], d), d);
    assert [t[0]] + t[1..] == t;
  }

  /** Splitting with a capture loses nothing: weaving the captures back gives the text. */
  lemma {:induction false} WeaveParts(t: string, d: Delims)
    requires d.Valid()
    ensures Weave(Parts(t, d), d) == t
    decreases |t|
  {
    if t != [] {
      var m := MatchAt(t, d);
      if m.Some? {
        WeaveParts(m.value.rest, d);
        WeaveAtMatch(t, d);
      } else {
        WeaveParts(t[1..], d);
        WeaveAtPlain(t, d);
      }
    }
  }

  /** The parts at odd indices: the captures, in order. */
  function Odds(parts: seq<string>): seq<string>
    decreases |parts|
  {
    if |parts| < 2 then [] else [parts[1]] + Odds(parts[2..])
  }

  /** The parts at even indices: the text around the captures, in order. */
  function Evens(parts: seq<string>): seq<string>
    decreases |parts|
  {
    if |parts| < 2 then parts else [parts[0]] + Evens(parts[2..])
  }

  lemma {:induction false} OddsIndex(parts: seq<string>)
    ensures |Odds(parts)| == |parts| / 2
    ensures forall j :: 0 <= j < |Odds(parts)| ==> Odds(parts)[j] == parts[2 * j + 1]
    decreases |parts|
  {
    if |parts| >= 2 {
      OddsIndex(parts[2..]);
      forall j | 1 <= j < |Odds(parts)|
        ensures Odds(parts)[j] == parts[2 * j + 1]
      {
        assert Odds(parts)[j] == Odds(parts[2..])[j - 1];
        assert parts[2..][2 * (j - 1) + 1] == parts[2 * j + 1];
      }
    }
  }

  lemma {:induction false} OddsSnoc(s: seq<string>, x: string)
    ensures Odds(s + [x]) == if |s| % 2 == 1 then Odds(s) + [x] else Odds(s)
    decreases |s|
  {
    if |s| >= 2 {
      assert (s + [x])[2..] == s[2..] + [x];
      OddsSnoc(s[2..], x);
    } else if |s| == 1 {
      assert (s + [x])[2..] == [];
    }
  }

  /** One step of the scan over text that starts with a match: the match adds no text and
      contributes its capture. */
  lemma StepMatch(t: string, d: Delims)
    requires d.Valid() && t != [] && MatchAt(t, d).Some?
    ensures var m := MatchAt(t, d).value;
            && Text.Concat(Evens(Parts(t, d))) == Text.Concat(Evens(Parts(m.rest, d)))
            && Odds(Parts(t, d)) == [m.capture] + Odds(Parts(m.rest, d))
  {
    var m := MatchAt(t, d).value;
    var p := Parts(t, d);
    assert p[2..] == Parts(m.rest, d);
    assert Evens(p) == [""] + Evens(Parts(m.rest, d));
  }

  /** One step of the scan over text that does not start with a match: its first character is
      plain text. */
  lemma StepPlain(t: string, d: Delims)
    requires d.Valid() && t != [] && MatchAt(t, d).None?
    ensures Text.Concat(Evens(Parts(t, d))) == [t[0]] + Text.Concat(Evens(Parts(t[1..], d)))
    ensures Odds(Parts(t, d)) == Odds(Parts(t[1..], d))
  {
    PartsAtPlain(t, d);
    ConcatEvensPrepend(t[0], Parts(t[1..], d));
    OddsPrepend(t[0], Parts(t[1..], d));
  }

  lemma ConcatEvensPrepend(c: char, parts: seq<string>)
    requires |parts| % 2 == 1
    ensures Text.Concat(Evens([[c] + parts[0]] + parts[1..])) == [c] + Text.Concat(Evens(parts))
  {
    EvensPrepend(c, parts);
    var e := Evens(parts);
    ConcatCons([c] + parts[0], e[1..]);
    ConcatCons(parts[0], e[1..]);
    assert e == [parts[0]] + e[1..];
    Text.AppendAssoc([c], parts[0], Text.Concat(e[1..]));
  }

  lemma OddsPrepend(c: char, parts: seq<string>)
    requires |parts| % 2 == 1
    ensures Odds([[c] + parts[0]] + parts[1..]) == Odds(parts)
  {
    var q := [[c] + parts[0]] + parts[1..];
    if |parts| > 1 {
      assert q[2..] == parts[2..];
      assert q[1] == parts[1];
    }
  }

  lemma EvensPrepend(c: char, parts: seq<string>)
    requires |parts| % 2 == 1
    ensures Evens(parts) != [] && Evens(parts)[0] == parts[0]
    ensures Evens([[c] + parts[0]] + parts[1..]) == [[c] + parts[0]] + Evens(parts)[1..]
  {
    var q := [[c] + parts[0]] + parts[1..];
    if |parts| > 1 {
      assert q[0] == [c] + parts[0];
      assert q[2..] == parts[2..];
      assert Evens(q) == [q[0]] + Evens(parts[2..]);
      assert Evens(parts) == [parts[0]] + Evens(parts[2..]);
    } else {
      assert q == [[c] + parts[0]];
    }
  }

  lemma ConcatCons(x: string, rest: seq<string>)
    ensures Text.Concat([x] + rest) == x + Text.Concat(rest)
  {
    assert ([x] + rest)[1..] == rest;
  }

  /** The captures of `t`, in order, are non-empty and free of the first closing character. */
  lemma {:induction false} CapturesWellFormed(t: string, d: Delims)
    requires d.Valid()
    ensures forall q :: q in Odds(Parts(t, d)) ==> q != "" && d.close[0] !in q
    decreases |t|
  {
    if t != [] {
      var m := MatchAt(t, d);
      if m.Some? {
        StepMatch(t, d);
        MatchShape(t, d);
        CapturesWellFormed(m.value.rest, d);
      } else {
        StepPlain(t, d);
        CapturesWellFormed(t[1..], d);
      }
    }
  }

  /** The `replaceAll` of the follow-up pattern with a callback that records each capture and
      replaces the match with nothing: the text without the matches, and the captures in order. */
  method ExtractFollowups(content: string) returns (text: string, followups: seq<string>)
    ensures text == Text.Concat(Evens(Parts(content, Followup)))
    ensures followups == Odds(Parts(content, Followup))
  {
    text, followups := "", [];
    var t := content;
    while t != []
      invariant Text.Concat(Evens(Parts(content, Followup))) == text + Text.Concat(Evens(Parts(t, Followup)))
      invariant Odds(Parts(content, Followup)) == followups + Odds(Parts(t, Followup))
      decreases |t|
    {
      match MatchAt(t, Followup)
      case Some(m) =>
        StepMatch(t, Followup);
        followups := followups + [m.capture];
        t := m.rest;
      case None =>
        StepPlain(t, Followup);
        Text.AppendAssoc(text, [t[0]], Text.Concat(Evens(Parts(t[1..], Followup))));
        text := text + [t[0]];
        t := t[1..];
    }
  }

  /** The text the answer is displayed from: follow-ups removed, cut at the first remaining `<<`
      (an unterminated question still being streamed), then trimmed. */
  function DisplayText(content: string): string
  {
    Text.Trim(Text.PrefixBefore(Text.Concat(Evens(Parts(content, Followup))), "<<"))
  }

  /** The displayed text never shows `<<`, and it neither starts nor ends with whitespace. */
  lemma DisplayTextClean(content: string)
    ensures !Text.Contains(DisplayText(content), "<<")
    ensures var s := DisplayText(content);
            s != [] ==> !Text.IsJsWhitespace(s[0]) && !Text.IsJsWhitespace(s[|s| - 1])
  {
    var cut := Text.PrefixBefore(Text.Concat(Evens(Parts(content, Followup))), "<<");
    Text.TrimKeepsAbsent(cut, "<<");
    Text.TrimEnds(cut);
  }

  /** The labels in the order of their first appearance. */
  function FirstOccurrences(labels: seq<string>): seq<string>
  {
    if labels == [] then []
    else
      var p := FirstOccurrences(labels[..|labels| - 1]);
      var x := labels[|labels| - 1];
      if x in p then p else p + [x]
  }

  /** No label is listed twice. */
  predicate Distinct(r: seq<string>)
  {
    forall i, j :: 0 <= i < j < |r| ==> r[i] != r[j]
  }

  /** Every label is listed, nothing else is, and no label is listed twice. */
  lemma {:induction false} FirstOccurrencesSpec(labels: seq<string>)
    ensures forall x :: x in FirstOccurrences(labels) <==> x in labels
    ensures Distinct(FirstOccurrences(labels))
  {
    if labels != [] {
      var init := labels[..|labels| - 1];
      var x := labels[|labels| - 1];
      var p := FirstOccurrences(init);
      FirstOccurrencesSpec(init);
      assert labels == init + [x];
      if x !in p {
        var r := p + [x];
        assert FirstOccurrences(labels) == r;
        forall i, j | 0 <= i < j < |r|
          ensures r[i] != r[j]
        {
          assert r[i] == p[i] && p[i] in p;
          if j < |p| {
            assert r[j] == p[j];
          } else {
            assert r[j] == x;
          }
        }
      }
    }
  }

  /** The listing of `FirstOccurrences` follows first appearance: a label listed before another
      one also appears first before that one's first appearance. */
  lemma {:induction false} FirstOccurrencesOrder(labels: seq<string>, i: nat, j: nat)
    requires i < j < |FirstOccurrences(labels)|
    ensures var r := FirstOccurrences(labels);
            IndexOf(labels, r[i]) < IndexOf(labels, r[j])
  {
    var r := FirstOccurrences(labels);
    var init := labels[..|labels| - 1];
    var x := labels[|labels| - 1];
    var p := FirstOccurrences(init);
    FirstOccurrencesSpec(init);
    assert labels == init + [x];
    assert r[i] == p[i] && r[i] in init;
    IndexOfPrefix(init, x, r[i]);
    if j < |p| {
      assert r[j] == p[j] && r[j] in init;
      IndexOfPrefix(init, x, r[j]);
      FirstOccurrencesOrder(init, i, j);
    } else {
      assert r[j] == x && x !in init;
      assert IndexOf(labels, x) == |init|;
    }
  }

  /** `Array.prototype.indexOf`: the first index holding `x`, or -1. */
  function IndexOf(s: seq<string>, x: string): (r: int)
    ensures -1 <= r < |s|
    ensures r == -1 <==> x !in s
    ensures r >= 0 ==> s[r] == x && forall j :: 0 <= j < r ==> s[j] != x
  {
    if s == [] then -1
    else if s[0] == x then 0
    else var r := IndexOf(s[1..], x); if r == -1 then -1 else r + 1
  }

  /** Appending leaves the index of an element already present as it was. */
  lemma IndexOfPrefix(s: seq<string>, y: string, x: string)
    requires x in s
    ensures IndexOf(s + [y], x) == IndexOf(s, x)
  {
    var i := IndexOf(s, x);
    assert (s + [y])[i] == x;
    assert forall j :: 0 <= j < i ==> (s + [y])[j] == s[j];
  }

  /** The labels of completed citations: every capture except one that ends the parts list. */
  function CompletedLabels(parts: seq<string>): seq<string>
  {
    if parts == [] then [] else Odds(parts[..|parts| - 1])
  }

  /** A rendered piece of the answer: plain text, a reference to a citation with its 1-based
      number (the arguments of the `renderCitationReference` callback), or nothing. */
  datatype Fragment = Plain(text: string) | Reference(citation: string, index: int) | Nothing

  /** What the `map` over the split parts renders at index `k`, given the final citation list. */
  function FragmentAt(parts: seq<string>, citations: seq<string>, k: nat): Fragment
    requires k < |parts|
  {
    if k % 2 == 0 then Plain(parts[k])
    else if k + 1 < |parts| then Reference(parts[k], IndexOf(citations, parts[k]) + 1)
    else Nothing
  }

  /** The labels of the citations among the first `i` parts that the `map` has handled. */
  function Seen(parts: seq<string>, i: nat): seq<string>
    requires i <= |parts|
  {
    if i < |parts| then Odds(parts[..i]) else CompletedLabels(parts)
  }

  /** The `map` over the parts of the citation split: even parts are text; an odd part that is
      not last is a citation, listed on first sight and numbered by its place in the list. */
  method RenderParts(parts: seq<string>) returns (fragments: seq<Fragment>, citations: seq<string>)
    ensures citations == FirstOccurrences(CompletedLabels(parts))
    ensures |fragments| == |parts|
    ensures forall k :: 0 <= k < |parts| ==> fragments[k] == FragmentAt(parts, citations, k)
  {
    fragments, citations := [], [];
    var i := 0;
    while i < |parts|
      invariant 0 <= i <= |parts|
      invariant citations == FirstOccurrences(Seen(parts, i))
      invariant |fragments| == i
      invariant forall k :: 0 <= k < i && k % 2 == 1 && k + 1 < |parts| ==> parts[k] in citations
      invariant forall k :: 0 <= k < i ==> fragments[k] == FragmentAt(parts, citations, k)
    {
      var f, next := RenderPart(parts, citations, i);
      RenderStep(parts, fragments, citations, next, i);
      AppendFragment(parts, fragments, next, f, i);
      citations := next;
      fragments := fragments + [f];
      i := i + 1;
    }
  }

  /** The `map` callback for the part at index `i`: text for an even part, nothing for a last
      odd part, and otherwise a reference whose label is listed on first sight and numbered by
      its place in the list, so the fragment already has its final number. */
  method RenderPart(parts: seq<string>, citations: seq<string>, i: nat) returns (f: Fragment, next: seq<string>)
    requires i < |parts|
    ensures next == if i % 2 == 1 && i + 1 < |parts| && parts[i] !in citations
                    then citations + [parts[i]] else citations
    ensures f == FragmentAt(parts, next, i)
  {
    next := citations;
    if i % 2 == 0 {
      f := Plain(parts[i]);
    } else if i + 1 < |parts| {
      var index := IndexOf(citations, parts[i]);
      if index == -1 {
        next := citations + [parts[i]];
        IndexOfNew(citations, parts[i]);
        index := |next|;
      } else {
        index := index + 1;
      }
      f := Reference(parts[i], index);
    } else {
      f := Nothing;
    }
  }

  /** One step of the `map`: the citation list grows by the label of a completed citation seen
      for the first time, and what was rendered so far keeps its numbers. */
  lemma RenderStep(parts: seq<string>, fragments: seq<Fragment>, citations: seq<string>, next: seq<string>, i: nat)
    requires i < |parts| && |fragments| == i
    requires citations == FirstOccurrences(Seen(parts, i))
    requires forall k :: 0 <= k < i && k % 2 == 1 && k + 1 < |parts| ==> parts[k] in citations
    requires forall k :: 0 <= k < i ==> fragments[k] == FragmentAt(parts, citations, k)
    requires next == if i % 2 == 1 && i + 1 < |parts| && parts[i] !in citations
                     then citations + [parts[i]] else citations
    ensures next == FirstOccurrences(Seen(parts, i + 1))
    ensures forall k :: 0 <= k < i + 1 && k % 2 == 1 && k + 1 < |parts| ==> parts[k] in next
    ensures forall k :: 0 <= k < i ==> fragments[k] == FragmentAt(parts, next, k)
  {
    CitationsStep(parts, citations, next, i);
    if next != citations {
      FragmentsStable(parts, fragments, citations, parts[i], i);
    }
  }

  /** The citation list after one more part is the first occurrences of the labels seen so far. */
  lemma CitationsStep(parts: seq<string>, citations: seq<string>, next: seq<string>, i: nat)
    requires i < |parts|
    requires citations == FirstOccurrences(Seen(parts, i))
    requires next == if i % 2 == 1 && i + 1 < |parts| && parts[i] !in citations
                     then citations + [parts[i]] else citations
    ensures next == FirstOccurrences(Seen(parts, i + 1))
  {
    SeenStep(parts, i);
    FirstOccurrencesSnoc(Seen(parts, i), parts[i]);
  }

  /** Fragments rendered before a new label is listed keep their numbers. */
  lemma FragmentsStable(parts: seq<string>, fragments: seq<Fragment>, citations: seq<string>, y: string, i: nat)
    requires i <= |parts| && |fragments| == i
    requires forall k :: 0 <= k < i && k % 2 == 1 && k + 1 < |parts| ==> parts[k] in citations
    requires forall k :: 0 <= k < i ==> fragments[k] == FragmentAt(parts, citations, k)
    ensures forall k :: 0 <= k < i ==> fragments[k] == FragmentAt(parts, citations + [y], k)
  {
    forall k | 0 <= k < i
      ensures fragments[k] == FragmentAt(parts, citations + [y], k)
    {
      FragmentStable(parts, citations, y, k);
    }
  }

  lemma AppendFragment(parts: seq<string>, fragments: seq<Fragment>, citations: seq<string>, f: Fragment, i: nat)
    requires i < |parts| && |fragments| == i
    requires forall k :: 0 <= k < i ==> fragments[k] == FragmentAt(parts, citations, k)
    requires f == FragmentAt(parts, citations, i)
    ensures forall k :: 0 <= k < i + 1 ==> (fragments + [f])[k] == FragmentAt(parts, citations, k)
  {
  }

  lemma IndexOfNew(s: seq<string>, x: string)
    requires x !in s
    ensures IndexOf(s + [x], x) == |s|
  {
    assert (s + [x])[|s|] == x;
    assert forall j :: 0 <= j < |s| ==> (s + [x])[j] == s[j];
  }

  lemma SeenStep(parts: seq<string>, i: nat)
    requires i < |parts|
    ensures Seen(parts, i + 1) ==
      if i % 2 == 1 && i + 1 < |parts| then Seen(parts, i) + [parts[i]] else Seen(parts, i)
  {
    assert parts[..i + 1] == parts[..i] + [parts[i]];
    OddsSnoc(parts[..i], parts[i]);
  }

  lemma FirstOccurrencesSnoc(s: seq<string>, x: string)
    ensures FirstOccurrences(s + [x]) ==
      if x in FirstOccurrences(s) then FirstOccurrences(s) else FirstOccurrences(s) + [x]
  {
    assert (s + [x])[..|s|] == s;
  }

  /** A fragment whose citation is already listed keeps its number when the list grows. */
  lemma FragmentStable(parts: seq<string>, citations: seq<string>, y: string, k: nat)
    requires k < |parts|
    requires k % 2 == 1 && k + 1 < |parts| ==> parts[k] in citations
    ensures FragmentAt(parts, citations + [y], k) == FragmentAt(parts, citations, k)
  {
    if k % 2 == 1 && k + 1 < |parts| {
      IndexOfPrefix(citations, y, parts[k]);
    }
  }

  /** Every completed citation renders with the number of its label in `citations`: repeats of a
      label reuse the number of its first appearance. */
  lemma ReferenceNumbers(parts: seq<string>, k: nat)
    requires k < |parts| && k % 2 == 1 && k + 1 < |parts|
    ensures var cs := FirstOccurrences(CompletedLabels(parts));
            var f := FragmentAt(parts, cs, k);
            && f.Reference? && f.citation == parts[k]
            && 1 <= f.index <= |cs| && cs[f.index - 1] == parts[k]
  {
    var init := parts[..|parts| - 1];
    OddsIndex(init);
    FirstOccurrencesSpec(Odds(init));
    assert Odds(init)[k / 2] == parts[k];
  }

  /** What `parseMessageIntoHtml` returns. */
  datatype ParsedMessage = ParsedMessage(
    html: seq<Fragment>,
    citations: seq<string>,
    followupQuestions: seq<string>,
    role: Role,
    context: Option<map<string, string>>)

  method ParseMessageIntoHtml(message: ChatMessage) returns (r: ParsedMessage)
    ensures r.role == message.role && r.context == message.context
    ensures message.role == User ==>
      r.html == [Plain(message.content)] && r.citations == [] && r.followupQuestions == []
    ensures message.role != User ==>
      && r.followupQuestions == Odds(Parts(message.content, Followup))
      && var parts := Parts(DisplayText(message.content), Citation);
      && r.citations == FirstOccurrences(CompletedLabels(parts))
      && |r.html| == |parts|
      && forall k :: 0 <= k < |parts| ==> r.html[k] == FragmentAt(parts, r.citations, k)
  {
    if message.role == User {
      return ParsedMessage([Plain(message.content)], [], [], message.role, message.context);
    }
    var text, followups := ExtractFollowups(message.content);
    text := Text.Trim(Text.PrefixBefore(text, "<<"));
    var parts := Parts(text, Citation);
    var html, citations := RenderParts(parts);
    r := ParsedMessage(html, citations, followups, message.role, message.context);
  }
}
