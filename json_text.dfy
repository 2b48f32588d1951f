/** JSON text as the API writes it: how `JSON.stringify` writes a string value, a reader that
    takes such a value back the way `JSON.parse` does, and the framing of newline-delimited JSON. */
module JsonText {
  import opened Wrappers
  import Text

  function HexDigit(n: nat): (c: char)
    requires n < 16
  {
    if n < 10 then ('0' as int + n) as char else ('a' as int + n - 10) as char
  }

  function HexValue(c: char): (r: Option<nat>)
    ensures r.Some? ==> r.value < 16
  {
    if '0' <= c <= '9' then Some(c as int - '0' as int)
    else if 'a' <= c <= 'f' then Some(c as int - 'a' as int + 10)
    else if 'A' <= c <= 'F' then Some(c as int - 'A' as int + 10)
    else None
  }

  lemma HexRoundTrip(n: nat)
    requires n < 16
    ensures HexValue(HexDigit(n)) == Some(n)
  {
  }

  /** How `JSON.stringify` writes one character inside a string literal: the quote, the
      backslash and the control characters are escaped, with the short forms where JSON has
      them and `\u00XX` in lower-case hex otherwise. (A Dafny character is a Unicode scalar
      value, so the lone surrogates `JSON.stringify` also escapes do not arise.) */
  function EscapeChar(c: char): string
  {
    if c == '"' then "\\\""
    else if c == '\\' then "\\\\"
    else if c == '\U{8}' then "\\b"
    else if c == '\t' then "\\t"
    else if c == '\n' then "\\n"
    else if c == '\U{C}' then "\\f"
    else if c == '\r' then "\\r"
    else if (c as int) < 0x20 then "\\u00" + [HexDigit(c as int / 16), HexDigit(c as int % 16)]
    else [c]
  }

  function Escape(s: string): string
  {
    if s == [] then "" else EscapeChar(s[0]) + Escape(s[1..])
  }

  /** A string without quotes, backslashes or control characters is written as it is. */
  lemma {:induction false} EscapePlain(s: string)
    requires forall i :: 0 <= i < |s| ==> s[i] != '"' && s[i] != '\\' && s[i] as int >= 0x20
    ensures Escape(s) == s
  {
    if s != [] {
      EscapePlain(s[1..]);
      assert EscapeChar(s[0]) == [s[0]];
      assert s == [s[0]] + s[1..];
    }
  }

  /** A string value as `JSON.stringify` writes it. */
  function Quote(s: string): string
  {
    "\"" + Escape(s) + "\""
  }

  /** The character an escape sequence stands for, and how many characters after the backslash
      it takes. A `\u` escape naming a surrogate is refused: it has no character of its own. */
  function ReadEscape(t: string): (r: Option<(char, nat)>)
    ensures r.Some? ==> 1 <= r.value.1 <= |t|
  {
    if t == [] then None
    else if t[0] == '"' || t[0] == '\\' || t[0] == '/' then Some((t[0], 1))
    else if t[0] == 'b' then Some(('\U{8}', 1))
    else if t[0] == 'f' then Some(('\U{C}', 1))
    else if t[0] == 'n' then Some(('\n', 1))
    else if t[0] == 'r' then Some(('\r', 1))
    else if t[0] == 't' then Some(('\t', 1))
    else if t[0] == 'u' && |t| >= 5 then
      match (HexValue(t[1]), HexValue(t[2]), HexValue(t[3]), HexValue(t[4]))
      case (Some(a), Some(b), Some(c), Some(d)) =>
        var v := ((a * 16 + b) * 16 + c) * 16 + d;
        if 0xD800 <= v < 0xE000 then None else Some((v as char, 5))
      case _ => None
    else None
  }

  /** Reads the inside of a string value up to its closing quote, as `JSON.parse` does: the
      decoded text and what follows the quote. An unescaped control character is an error. */
  function ReadChars(t: string): Option<(string, string)>
    decreases |t|
  {
    if t == [] then None
    else if t[0] == '"' then Some(("", t[1..]))
    else if t[0] == '\\' then
      match ReadEscape(t[1..])
      case None => None
      case Some((c, n)) =>
        match ReadChars(t[1 + n..])
        case None => None
        case Some((s, rest)) => Some(([c] + s, rest))
    else if (t[0] as int) < 0x20 then None
    else
      match ReadChars(t[1..])
      case None => None
      case Some((s, rest)) => Some(([t[0]] + s, rest))
  }

  /** Reads one string value at the start of `t`. */
  function ReadString(t: string): Option<(string, string)>
  {
    if t != [] && t[0] == '"' then ReadChars(t[1..]) else None
  }

  /** Reading an escaped character gives back the character. */
  lemma ReadEscapedChar(c: char, t: string)
    ensures ReadChars(EscapeChar(c) + t) ==
      match ReadChars(t)
      case None => None
      case Some((s, rest)) => Some(([c] + s, rest))
  {
    var e := EscapeChar(c);
    if c == '"' || c == '\\' || c == '\U{8}' || c == '\t' || c == '\n' || c == '\U{C}' || c == '\r' {
      assert |e| == 2 && e[0] == '\\';
      assert (e + t)[1..] == [e[1]] + t;
      assert (e + t)[2..] == t;
    } else if (c as int) < 0x20 {
      ReadUnicodeEscape(c, t);
    } else {
      assert (e + t)[1..] == t;
    }
  }

  /** A control character without a short escape is written `\u00XX` and read back from it. */
  lemma ReadUnicodeEscape(c: char, t: string)
    requires (c as int) < 0x20
    requires !(c == '"' || c == '\\' || c == '\U{8}' || c == '\t' || c == '\n' || c == '\U{C}' || c == '\r')
    ensures ReadChars(EscapeChar(c) + t) ==
      match ReadChars(t)
      case None => None
      case Some((s, rest)) => Some(([c] + s, rest))
  {
    var e := EscapeChar(c);
    var hi, lo := c as int / 16, c as int % 16;
    HexRoundTrip(hi);
    HexRoundTrip(lo);
    assert hi == 0 || hi == 1;
    assert HexValue('0') == Some(0);
    var u := (e + t)[1..];
    assert u[..5] == ['u', '0', '0', HexDigit(hi), HexDigit(lo)];
    assert ReadEscape(u) == Some((c, 5));
    assert (e + t)[6..] == t;
  }

  /** `JSON.parse` reads back what `JSON.stringify` wrote, and stops right after it. */
  lemma {:induction false} ReadQuote(s: string, rest: string)
    ensures ReadString(Quote(s) + rest) == Some((s, rest))
  {
    ReadEscapedBody(s, rest);
    assert Quote(s) + rest == "\"" + (Escape(s) + "\"" + rest);
  }

  lemma {:induction false} ReadEscapedBody(s: string, rest: string)
    ensures ReadChars(Escape(s) + "\"" + rest) == Some((s, rest))
  {
    if s == [] {
      assert Escape(s) + "\"" + rest == "\"" + rest;
    } else {
      ReadEscapedBody(s[1..], rest);
      ReadEscapedChar(s[0], Escape(s[1..]) + "\"" + rest);
      assert Escape(s) + "\"" + rest == EscapeChar(s[0]) + (Escape(s[1..]) + "\"" + rest);
      assert [s[0]] + s[1..] == s;
    }
  }

  /** `JSON.stringify` never writes a control character inside a string value, so a serialized
      record never contains a line break. */
  lemma {:induction false} EscapeHasNoControl(s: string)
    ensures forall k :: 0 <= k < |Escape(s)| ==> (Escape(s)[k] as int) >= 0x20
  {
    if s != [] {
      EscapeHasNoControl(s[1..]);
      var e := EscapeChar(s[0]);
      if (s[0] as int) < 0x20 && !(s[0] == '\U{8}' || s[0] == '\t' || s[0] == '\n' || s[0] == '\U{C}' || s[0] == '\r') {
        HexRoundTrip(s[0] as int / 16);
        assert (HexDigit(s[0] as int / 16) as int) >= 0x30;
        assert (HexDigit(s[0] as int % 16) as int) >= 0x30;
      }
      assert forall k :: 0 <= k < |e| ==> (e[k] as int) >= 0x20;
      assert Escape(s) == e + Escape(s[1..]);
    }
  }

  lemma QuoteHasNoNewline(s: string)
    ensures '\n' !in Quote(s)
  {
    EscapeHasNoControl(s);
    var q := Quote(s);
    forall k | 0 <= k < |q|
      ensures q[k] != '\n'
    {
      if 0 < k < |q| - 1 {
        assert q[k] == Escape(s)[k - 1];
      }
    }
  }

  /** Newline-delimited JSON framing: the body split on line breaks, each line ended by one.
      A body whose last line is not terminated is incomplete. */
  function NdjsonLines(body: string): Option<seq<string>>
  {
    var parts := Text.SplitOn(body, '\n');
    if parts[|parts| - 1] == "" then Some(parts[..|parts| - 1]) else None
  }

  /** The values of NDJSON lines, each read with `decode`; nothing when a line does not read. */
  function DecodeLines<T>(lines: seq<string>, decode: string -> Option<T>): (r: Option<seq<T>>)
    ensures r.Some? ==> |r.value| == |lines|
  {
    if lines == [] then Some([])
    else
      var first :- decode(lines[0]);
      var rest :- DecodeLines(lines[1..], decode);
      Some([first] + rest)
  }

  lemma {:induction false} SplitOnLine(line: string, rest: string)
    requires '\n' !in line
    ensures Text.SplitOn(line + "\n" + rest, '\n') == [line] + Text.SplitOn(rest, '\n')
  {
    if line == [] {
      assert (line + "\n" + rest)[1..] == rest;
    } else {
      SplitOnLine(line[1..], rest);
      assert (line + "\n" + rest)[1..] == line[1..] + "\n" + rest;
      assert [line[0]] + line[1..] == line;
    }
  }

  /** Emitting each line followed by one line break is undone by the NDJSON framing, provided no
      line holds a line break of its own. */
  lemma {:induction false} NdjsonRoundTrip(lines: seq<string>, emitted: seq<string>)
    requires |emitted| == |lines|
    requires forall k :: 0 <= k < |lines| ==> emitted[k] == lines[k] + "\n" && '\n' !in lines[k]
    ensures NdjsonLines(Text.Concat(emitted)) == Some(lines)
  {
    if lines == [] {
      assert Text.Concat(emitted) == "";
    } else {
      NdjsonRoundTrip(lines[1..], emitted[1..]);
      var rest := Text.Concat(emitted[1..]);
      assert Text.Concat(emitted) == lines[0] + "\n" + rest;
      SplitOnLine(lines[0], rest);
      var parts := Text.SplitOn(rest, '\n');
      assert parts[|parts| - 1] == "";
      assert parts[..|parts| - 1] == lines[1..];
      var all := [lines[0]] + parts;
      assert all[..|all| - 1] == [lines[0]] + parts[..|parts| - 1];
      assert [lines[0]] + lines[1..] == lines;
    }
  }
}
