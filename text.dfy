/** String helpers with the meaning JavaScript gives them: `join`, `split` on a
    one-character separator, `split(sep)[0]`, and `trim`. */
module Text {
  import opened Wrappers

  /** `parts.join('')`. */
  function Concat(parts: seq<string>): string
  {
    if parts == [] then "" else parts[0] + Concat(parts[1..])
  }

  lemma AppendAssoc(a: string, b: string, c: string)
    ensures a + (b + c) == (a + b) + c
  {
  }

  lemma {:induction false} ConcatAppend(a: seq<string>, b: seq<string>)
    ensures Concat(a + b) == Concat(a) + Concat(b)
  {
    if a == [] {
      assert a + b == b;
    } else {
      assert (a + b)[1..] == a[1..] + b;
      ConcatAppend(a[1..], b);
    }
  }

  /** `parts.join(sep)`: the parts in order with `sep` between neighbours. */
  function Join(parts: seq<string>, sep: string): string
  {
    if |parts| == 0 then ""
    else if |parts| == 1 then parts[0]
    else parts[0] + sep + Join(parts[1..], sep)
  }

  /** Where part `i` starts in `Join(parts, sep)`: every earlier part and its separator come first. */
  function JoinOffset(parts: seq<string>, sep: string, i: nat): nat
    requires i <= |parts|
  {
    if i == 0 then 0 else |parts[0]| + |sep| + JoinOffset(parts[1..], sep, i - 1)
  }

  /** A slice of `a + b` that lies past `a` is a slice of `b`. */
  lemma SliceAfter(a: string, b: string, p: nat, q: nat)
    requires p <= q <= |b|
    ensures (a + b)[|a| + p..|a| + q] == b[p..q]
  {
    assert forall k :: p <= k < q ==> (a + b)[|a| + k] == b[k];
  }

  /** Part `i` sits at `JoinOffset(parts, sep, i)`. */
  lemma {:induction false} JoinAt(parts: seq<string>, sep: string, i: nat)
    requires i < |parts|
    ensures JoinOffset(parts, sep, i) + |parts[i]| <= |Join(parts, sep)|
    ensures Join(parts, sep)[JoinOffset(parts, sep, i)..JoinOffset(parts, sep, i) + |parts[i]|] == parts[i]
  {
    if |parts| == 1 {
    } else if i == 0 {
      assert Join(parts, sep) == parts[0] + (sep + Join(parts[1..], sep));
    } else {
      JoinAt(parts[1..], sep, i - 1);
      var o := JoinOffset(parts[1..], sep, i - 1);
      assert parts[1..][i - 1] == parts[i];
      assert Join(parts, sep) == (parts[0] + sep) + Join(parts[1..], sep);
      SliceAfter(parts[0] + sep, Join(parts[1..], sep), o, o + |parts[i]|);
    }
  }

  /** Every part but the last is followed by exactly one separator, and the last part ends the
      result: `n` parts are joined with `n - 1` separators. */
  lemma {:induction false} JoinSeparatorAt(parts: seq<string>, sep: string, i: nat)
    requires i < |parts|
    ensures var e := JoinOffset(parts, sep, i) + |parts[i]|;
            && (i + 1 < |parts| ==> e + |sep| <= |Join(parts, sep)| && Join(parts, sep)[e..e + |sep|] == sep)
            && (i + 1 == |parts| ==> e == |Join(parts, sep)|)
  {
    if |parts| == 1 {
    } else if i == 0 {
      assert Join(parts, sep) == parts[0] + (sep + Join(parts[1..], sep));
      SliceAfter(parts[0], sep + Join(parts[1..], sep), 0, |sep|);
    } else {
      JoinSeparatorAt(parts[1..], sep, i - 1);
      var e := JoinOffset(parts[1..], sep, i - 1) + |parts[i]|;
      assert parts[1..][i - 1] == parts[i];
      assert Join(parts, sep) == (parts[0] + sep) + Join(parts[1..], sep);
      if i + 1 < |parts| {
        SliceAfter(parts[0] + sep, Join(parts[1..], sep), e, e + |sep|);
      }
    }
  }

  /** `s.split(c)` for a one-character separator `c`. */
  function SplitOn(s: string, c: char): (r: seq<string>)
    ensures |r| >= 1
    ensures forall k :: 0 <= k < |r| ==> c !in r[k]
  {
    if s == [] then [""]
    else
      var rest := SplitOn(s[1..], c);
      if s[0] == c then [""] + rest else [[s[0]] + rest[0]] + rest[1..]
  }

  /** Splitting on `c` and joining with `c` gives back the string: split is lossless. */
  lemma {:induction false} JoinSplitOn(s: string, c: char)
    ensures Join(SplitOn(s, c), [c]) == s
  {
    if s != [] {
      var rest := SplitOn(s[1..], c);
      JoinSplitOn(s[1..], c);
      if s[0] == c {
        assert SplitOn(s, c) == [""] + rest;
        assert ([""] + rest)[1..] == rest;
      } else {
        var r := SplitOn(s, c);
        assert r == [[s[0]] + rest[0]] + rest[1..];
        if |rest| == 1 {
          assert Join(rest, [c]) == rest[0];
        } else {
          assert Join(rest, [c]) == rest[0] + [c] + Join(rest[1..], [c]);
          assert r[1..] == rest[1..];
        }
      }
    }
  }

  /** The first part of `s.split(c)` is the text before the first `c`, or all of `s`. */
  lemma {:induction false} SplitOnHead(s: string, c: char)
    ensures var r := SplitOn(s, c);
            && |r[0]| <= |s| && s[..|r[0]|] == r[0]
            && (c in s ==> |r[0]| < |s| && s[|r[0]|] == c)
            && (c !in s ==> r == [s])
  {
    if s != [] {
      SplitOnHead(s[1..], c);
      var rest := SplitOn(s[1..], c);
      if s[0] != c {
        var h := [s[0]] + rest[0];
        assert SplitOn(s, c)[0] == h;
        assert s[..|h|] == [s[0]] + s[1..][..|rest[0]|];
        if c in s {
          assert c in s[1..];
          assert s[|h|] == s[1..][|rest[0]|];
        } else {
          assert c !in s[1..];
          assert rest == [s[1..]];
          assert [s[0]] + s[1..] == s;
        }
      }
    }
  }

  /** `t` occurs in `s` starting at index `i`. */
  predicate OccursAt(s: string, t: string, i: int)
  {
    0 <= i && i + |t| <= |s| && s[i..i + |t|] == t
  }

  predicate Contains(s: string, t: string)
  {
    exists i :: 0 <= i <= |s| && OccursAt(s, t, i)
  }

  /** `s.split(sep)[0]`: everything before the first occurrence of `sep`. */
  function PrefixBefore(s: string, sep: string): (r: string)
    requires |sep| > 0
    ensures |r| <= |s| && s[..|r|] == r
    ensures !Contains(r, sep)
    ensures |r| < |s| ==> OccursAt(s, sep, |r|)
  {
    if |s| < |sep| then
      assert forall i :: !OccursAt(s, sep, i);
      s
    else if s[..|sep|] == sep then
      assert forall i :: !OccursAt("", sep, i);
      ""
    else
      var rest := PrefixBefore(s[1..], sep);
      var r := [s[0]] + rest;
      NoOccurrenceCons(s, rest, sep);
      assert |r| < |s| ==> s[|r|..|r| + |sep|] == s[1..][|rest|..|rest| + |sep|];
      r
  }

  /** Putting the first character of `s` back in front of a piece of `s[1..]` without `sep`
      creates no occurrence when `s` does not start with `sep`. */
  lemma NoOccurrenceCons(s: string, rest: string, sep: string)
    requires |sep| > 0 && |sep| <= |s| && s[..|sep|] != sep
    requires |rest| < |s| && s[1..][..|rest|] == rest && !Contains(rest, sep)
    ensures !Contains([s[0]] + rest, sep)
  {
    var r := [s[0]] + rest;
    assert |sep| <= |r| ==> r[..|sep|] == s[..|sep|];
    forall i | 1 <= i
      ensures !OccursAt(r, sep, i)
    {
      if OccursAt(r, sep, i) {
        assert r[i..i + |sep|] == rest[i - 1..i - 1 + |sep|];
        assert OccursAt(rest, sep, i - 1);
      }
    }
  }

  /** An occurrence inside a piece of `s` is an occurrence in `s`; so a piece of a string
      without `t` has no `t` either. */
  lemma InfixOccurrence(s: string, t: string, a: nat, b: nat)
    requires a <= b <= |s|
    ensures forall i :: OccursAt(s[a..b], t, i) ==> OccursAt(s, t, a + i)
    ensures !Contains(s, t) ==> !Contains(s[a..b], t)
  {
    forall i | OccursAt(s[a..b], t, i)
      ensures OccursAt(s, t, a + i)
    {
      var u := s[a..b];
      var x, y := u[i..i + |t|], s[a + i..a + i + |t|];
      forall k | 0 <= k < |t|
        ensures x[k] == y[k]
      {
        assert u[i + k] == s[a + i + k];
      }
      assert x == y;
    }
  }

  /** The characters ECMAScript's `String.prototype.trim` removes: WhiteSpace and LineTerminator. */
  predicate IsJsWhitespace(c: char)
  {
    || c == '\t' || c == '\n' || c == '\U{B}' || c == '\U{C}' || c == '\r' || c == ' '
    || c == '\U{A0}' || c == '\U{1680}' || ('\U{2000}' <= c <= '\U{200A}')
    || c == '\U{2028}' || c == '\U{2029}' || c == '\U{202F}' || c == '\U{205F}'
    || c == '\U{3000}' || c == '\U{FEFF}'
  }

  /** `s.trimStart()`: what is left once the leading whitespace is dropped. */
  function TrimStart(s: string): (r: string)
    ensures |r| <= |s| && r == s[|s| - |r|..]
  {
    if s != [] && IsJsWhitespace(s[0]) then TrimStart(s[1..]) else s
  }

  /** `s.trimEnd()`: what is left once the trailing whitespace is dropped. */
  function TrimEnd(s: string): (r: string)
    ensures |r| <= |s| && r == s[..|r|]
  {
    if s != [] && IsJsWhitespace(s[|s| - 1]) then TrimEnd(s[..|s| - 1]) else s
  }

  /** `trimStart` drops whitespace only, and all of it. */
  lemma {:induction false} TrimStartDrops(s: string)
    ensures forall k :: 0 <= k < |s| - |TrimStart(s)| ==> IsJsWhitespace(s[k])
    ensures TrimStart(s) != [] ==> !IsJsWhitespace(TrimStart(s)[0])
  {
    if s != [] && IsJsWhitespace(s[0]) {
      TrimStartDrops(s[1..]);
      forall k | 1 <= k < |s| - |TrimStart(s)|
        ensures IsJsWhitespace(s[k])
      {
        assert s[k] == s[1..][k - 1];
      }
    }
  }

  /** `trimEnd` drops whitespace only, and all of it. */
  lemma {:induction false} TrimEndDrops(s: string)
    ensures forall k :: |TrimEnd(s)| <= k < |s| ==> IsJsWhitespace(s[k])
    ensures TrimEnd(s) != [] ==> !IsJsWhitespace(TrimEnd(s)[|TrimEnd(s)| - 1])
  {
    if s != [] && IsJsWhitespace(s[|s| - 1]) {
      TrimEndDrops(s[..|s| - 1]);
    }
  }

  /** `s.trim()`. */
  function Trim(s: string): string
  {
    TrimEnd(TrimStart(s))
  }

  /** What `trim` keeps is one contiguous piece of the input. */
  lemma TrimIsInfix(s: string)
    ensures |s| - |TrimStart(s)| + |Trim(s)| <= |s|
    ensures s[|s| - |TrimStart(s)|..|s| - |TrimStart(s)| + |Trim(s)|] == Trim(s)
  {
    var t := TrimStart(s);
    var r := TrimEnd(t);
    var a := |s| - |t|;
    SliceOfSuffix(s, a, |r|);
  }

  lemma SliceOfSuffix(s: string, a: nat, n: nat)
    requires a + n <= |s|
    ensures s[a..][..n] == s[a..a + n]
  {
  }

  /** Everything `trim` drops, before and after the piece it keeps, is whitespace. */
  lemma TrimDropsWhitespace(s: string)
    ensures forall k :: 0 <= k < |s| - |TrimStart(s)| ==> IsJsWhitespace(s[k])
    ensures forall k :: |s| - |TrimStart(s)| + |Trim(s)| <= k < |s| ==> IsJsWhitespace(s[k])
  {
    var t := TrimStart(s);
    var r := TrimEnd(t);
    var a := |s| - |t|;
    TrimStartDrops(s);
    TrimEndDrops(t);
    WhitespaceTailShift(s, a, |r|);
  }

  lemma WhitespaceTailShift(s: string, a: nat, n: nat)
    requires a + n <= |s|
    requires forall k :: n <= k < |s[a..]| ==> IsJsWhitespace(s[a..][k])
    ensures forall k :: a + n <= k < |s| ==> IsJsWhitespace(s[k])
  {
    forall k | a + n <= k < |s|
      ensures IsJsWhitespace(s[k])
    {
      assert s[a..][k - a] == s[k];
    }
  }

  /** Trimming text that does not contain `t` cannot make `t` appear. */
  lemma TrimKeepsAbsent(s: string, t: string)
    requires !Contains(s, t)
    ensures !Contains(Trim(s), t)
  {
    TrimIsInfix(s);
    var a := |s| - |TrimStart(s)|;
    InfixOccurrence(s, t, a, a + |Trim(s)|);
  }

  /** What `trim` keeps neither starts nor ends with whitespace. */
  lemma TrimEnds(s: string)
    ensures Trim(s) != [] ==> !IsJsWhitespace(Trim(s)[0]) && !IsJsWhitespace(Trim(s)[|Trim(s)| - 1])
  {
    var t := TrimStart(s);
    var r := TrimEnd(t);
    TrimStartDrops(s);
    TrimEndDrops(t);
    if r != [] {
      assert r[0] == t[0];
    }
  }

  /** The text after `prefix`, when `t` starts with it. */
  function StripPrefix(t: string, prefix: string): Option<string>
  {
    if |prefix| <= |t| && t[..|prefix|] == prefix then Some(t[|prefix|..]) else None
  }

  lemma StripPrefixOf(prefix: string, rest: string)
    ensures StripPrefix(prefix + rest, prefix) == Some(rest)
  {
    assert (prefix + rest)[..|prefix|] == prefix;
    assert (prefix + rest)[|prefix|..] == rest;
  }
}
