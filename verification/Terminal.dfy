/**
  Terminal control sequences in the build diagnostics
  (rust/otap-dataflow/xtask/src/diagnostics.rs): painting and linking text, and
  stripping the sequences again.
 */
module Terminal {
  import opened Options
  import opened Texts

  const ESC: char := '\U{1b}'
  const BEL: char := '\U{7}'

  // ---------- stripping ----------

  predicate Final(c: char) { '@' <= c <= '~' }

  /** Behind the character that ends a control sequence. */
  function AfterControl(s: string): (r: string)
    ensures |r| <= |s|
  {
    if s == "" then "" else if Final(s[0]) then s[1..] else AfterControl(s[1..])
  }

  /** Behind the BEL, or the ESC and backslash, that ends an operating system command. */
  function AfterCommand(s: string, prev: char): (r: string)
    ensures |r| <= |s|
    decreases |s|
  {
    if s == "" then ""
    else if s[0] == BEL || (prev == ESC && s[0] == '\\') then s[1..]
    else AfterCommand(s[1..], s[0])
  }

  /** What is left when an escape character and what belongs to it are dropped. */
  function AfterEscape(s: string): (r: string)
    requires s != "" && s[0] == ESC
    ensures |r| < |s|
  {
    if |s| > 1 && s[1] == '[' then AfterControl(s[2..])
    else if |s| > 1 && s[1] == ']' then AfterCommand(s[2..], '\0')
    else s[1..]
  }

  function Strip(s: string): string
    decreases |s|
  {
    if s == "" then ""
    else if s[0] == ESC then Strip(AfterEscape(s))
    else [s[0]] + Strip(s[1..])
  }

  lemma {:induction false} StripHasNoEscape(s: string)
    ensures ESC !in Strip(s)
    decreases |s|
  {
    if s != "" {
      StripHasNoEscape(if s[0] == ESC then AfterEscape(s) else s[1..]);
    }
  }

  lemma {:induction false} StripKeepsPlain(s: string)
    requires ESC !in s
    ensures Strip(s) == s
    decreases |s|
  {
    if s != "" {
      assert forall c :: c in s[1..] ==> c in s;
      StripKeepsPlain(s[1..]);
      assert s == [s[0]] + s[1..];
    }
  }

  lemma StripIdempotent(s: string)
    ensures Strip(Strip(s)) == Strip(s)
  {
    StripHasNoEscape(s);
    StripKeepsPlain(Strip(s));
  }

  // ---------- texts that end outside a sequence ----------

  /** A control sequence ends within `s`. */
  predicate ControlEnds(s: string) { s != "" && (Final(s[0]) || ControlEnds(s[1..])) }

  /** A command ends within `s`. */
  predicate CommandEnds(s: string, prev: char)
    decreases |s|
  {
    s != "" && (s[0] == BEL || (prev == ESC && s[0] == '\\') || CommandEnds(s[1..], s[0]))
  }

  /** Every sequence that `s` opens is also closed in `s`. */
  predicate Complete(s: string)
    decreases |s|
  {
    s == "" ||
    (if s[0] == ESC then
       |s| > 1 && Complete(AfterEscape(s)) &&
       (s[1] == '[' ==> ControlEnds(s[2..])) && (s[1] == ']' ==> CommandEnds(s[2..], '\0'))
     else Complete(s[1..]))
  }

  lemma {:induction false} ControlAppend(s: string, t: string)
    requires ControlEnds(s)
    ensures AfterControl(s + t) == AfterControl(s) + t
  {
    assert (s + t)[0] == s[0] && (s + t)[1..] == s[1..] + t;
    if !Final(s[0]) {
      ControlAppend(s[1..], t);
    }
  }

  lemma {:induction false} CommandAppend(s: string, prev: char, t: string)
    requires CommandEnds(s, prev)
    ensures AfterCommand(s + t, prev) == AfterCommand(s, prev) + t
    decreases |s|
  {
    assert (s + t)[0] == s[0] && (s + t)[1..] == s[1..] + t;
    if s[0] != BEL && !(prev == ESC && s[0] == '\\') {
      CommandAppend(s[1..], s[0], t);
    }
  }

  lemma {:induction false} EscapeAppend(s: string, t: string)
    requires s != "" && s[0] == ESC && Complete(s)
    ensures (s + t)[0] == ESC && AfterEscape(s + t) == AfterEscape(s) + t
  {
    var st := s + t;
    assert st[0] == s[0] && st[1] == s[1] && st[1..] == s[1..] + t && st[2..] == s[2..] + t;
    if s[1] == '[' {
      ControlAppend(s[2..], t);
    } else if s[1] == ']' {
      CommandAppend(s[2..], '\0', t);
    }
  }

  /** Stripping goes piece by piece. */
  lemma {:induction false} StripAppend(s: string, t: string)
    requires Complete(s)
    ensures Strip(s + t) == Strip(s) + Strip(t)
    decreases |s|
  {
    if s == "" {
      assert s + t == t;
    } else if s[0] == ESC {
      EscapeAppend(s, t);
      StripAppend(AfterEscape(s), t);
    } else {
      assert (s + t)[0] == s[0] && (s + t)[1..] == s[1..] + t;
      StripAppend(s[1..], t);
    }
  }

  lemma {:induction false} CompleteAppend(s: string, t: string)
    requires Complete(s) && Complete(t)
    ensures Complete(s + t)
    decreases |s|
  {
    if s == "" {
      assert s + t == t;
    } else if s[0] == ESC {
      EscapeAppend(s, t);
      CompleteAppend(AfterEscape(s), t);
      var st := s + t;
      assert st[1] == s[1] && st[2..] == s[2..] + t;
      if s[1] == '[' { ControlStillEnds(s[2..], t); }
      if s[1] == ']' { CommandStillEnds(s[2..], '\0', t); }
    } else {
      assert (s + t)[0] == s[0] && (s + t)[1..] == s[1..] + t;
      CompleteAppend(s[1..], t);
    }
  }

  lemma {:induction false} ControlStillEnds(s: string, t: string)
    requires ControlEnds(s)
    ensures ControlEnds(s + t)
  {
    assert (s + t)[0] == s[0] && (s + t)[1..] == s[1..] + t;
    if !Final(s[0]) { ControlStillEnds(s[1..], t); }
  }

  lemma {:induction false} CommandStillEnds(s: string, prev: char, t: string)
    requires CommandEnds(s, prev)
    ensures CommandEnds(s + t, prev)
    decreases |s|
  {
    assert (s + t)[0] == s[0] && (s + t)[1..] == s[1..] + t;
    if s[0] != BEL && !(prev == ESC && s[0] == '\\') { CommandStillEnds(s[1..], s[0], t); }
  }

  lemma {:induction false} PlainIsComplete(s: string)
    requires ESC !in s
    ensures Complete(s)
    decreases |s|
  {
    if s != "" {
      assert forall c :: c in s[1..] ==> c in s;
      PlainIsComplete(s[1..]);
    }
  }

  // ---------- rendering ----------

  function Paint(text: string, style: string, colors: bool): string {
    if !colors || style == "" then text
    else [ESC, '['] + style + "m" + text + [ESC, '[', '0', 'm']
  }

  function Link(uri: string, styled: string): string {
    [ESC, ']', '8', ';', ';'] + uri + [ESC, '\\'] + styled + [ESC, ']', '8', ';', ';', ESC, '\\']
  }

  /** Styles are numbers separated by semicolons. */
  predicate StyleChars(style: string) {
    forall i :: 0 <= i < |style| ==> '0' <= style[i] <= '9' || style[i] == ';'
  }

  /** A control sequence with a style vanishes. */
  lemma {:induction false} StyleVanishes(style: string, t: string)
    requires StyleChars(style)
    ensures AfterControl(style + "m" + t) == t && ControlEnds(style + "m")
  {
    if style == "" {
      assert style + "m" + t == "m" + t && ("m" + t)[1..] == t;
      assert style + "m" == "m";
    } else {
      StyleVanishes(style[1..], t);
      assert (style + "m" + t)[1..] == style[1..] + "m" + t;
      assert (style + "m")[1..] == style[1..] + "m";
    }
  }

  lemma ControlSequence(style: string)
    requires StyleChars(style)
    ensures var s := [ESC, '['] + style + "m"; Complete(s) && Strip(s) == ""
  {
    var s := [ESC, '['] + style + "m";
    StyleVanishes(style, "");
    assert s[2..] == style + "m" && style + "m" + "" == style + "m";
    assert AfterEscape(s) == "";
  }

  /** A text without BEL and without ESC runs on to the end of the command. */
  lemma {:induction false} CommandRuns(s: string, prev: char, t: string)
    requires ESC !in s && BEL !in s && prev != ESC
    ensures AfterCommand(s + [ESC, '\\'] + t, prev) == t && CommandEnds(s + [ESC, '\\'], prev)
    decreases |s|
  {
    var rest := s + [ESC, '\\'] + t;
    if s == "" {
      assert rest == [ESC, '\\'] + t && rest[1..] == ['\\'] + t && rest[1..][1..] == t;
      assert s + [ESC, '\\'] == [ESC, '\\'] && [ESC, '\\'][1..] == ['\\'];
    } else {
      assert forall c :: c in s[1..] ==> c in s;
      assert s[0] in s;
      CommandRuns(s[1..], s[0], t);
      assert rest[0] == s[0] && rest[1..] == s[1..] + [ESC, '\\'] + t;
      assert (s + [ESC, '\\'])[1..] == s[1..] + [ESC, '\\'];
    }
  }

  lemma CommandSequence(body: string)
    requires ESC !in body && BEL !in body
    ensures var s := [ESC, ']'] + body + [ESC, '\\']; Complete(s) && Strip(s) == ""
  {
    var s := [ESC, ']'] + body + [ESC, '\\'];
    CommandRuns(body, '\0', "");
    assert s[2..] == body + [ESC, '\\'] && body + [ESC, '\\'] + "" == body + [ESC, '\\'];
    assert AfterEscape(s) == "";
  }

  /** Text wrapped in sequences that vanish is what remains. */
  lemma Wrapped(open: string, text: string, close: string)
    requires Complete(open) && Complete(text) && Complete(close) && Strip(open) == "" && Strip(close) == ""
    ensures Complete(open + text + close) && Strip(open + text + close) == Strip(text)
  {
    StripAppend(open, text);
    CompleteAppend(open, text);
    StripAppend(open + text, close);
    CompleteAppend(open + text, close);
  }

  lemma StripPaint(text: string, style: string, colors: bool)
    requires ESC !in text && StyleChars(style)
    ensures Strip(Paint(text, style, colors)) == text && Complete(Paint(text, style, colors))
  {
    PlainIsComplete(text);
    StripKeepsPlain(text);
    if colors && style != "" {
      ControlSequence(style);
      ControlSequence("0");
      assert [ESC, '['] + "0" + "m" == [ESC, '[', '0', 'm'];
      Wrapped([ESC, '['] + style + "m", text, [ESC, '[', '0', 'm']);
    }
  }

  lemma StripLink(uri: string, styled: string)
    requires ESC !in uri && BEL !in uri && Complete(styled)
    ensures Strip(Link(uri, styled)) == Strip(styled) && Complete(Link(uri, styled))
  {
    CommandSequence("8;;" + uri);
    CommandSequence("8;;");
    assert [ESC, ']'] + ("8;;" + uri) + [ESC, '\\'] == [ESC, ']', '8', ';', ';'] + uri + [ESC, '\\'];
    assert [ESC, ']'] + "8;;" + [ESC, '\\'] == [ESC, ']', '8', ';', ';', ESC, '\\'];
    Wrapped([ESC, ']', '8', ';', ';'] + uri + [ESC, '\\'], styled, [ESC, ']', '8', ';', ';', ESC, '\\']);
  }

  // ---------- file links ----------

  predicate Unreserved(b: byte) {
    0x41 <= b <= 0x5a || 0x61 <= b <= 0x7a || 0x30 <= b <= 0x39 ||
    b == 0x2d || b == 0x5f || b == 0x2e || b == 0x7e || b == 0x2f || b == 0x3a
  }

  function UpperHexDigit(d: nat): char
    requires d < 16
  {
    if d < 10 then (0x30 + d) as char else (0x41 + d - 10) as char
  }

  function UriPart(b: byte): string {
    if Unreserved(b) then [b as char] else ['%', UpperHexDigit(b / 16), UpperHexDigit(b % 16)]
  }

  function UriParts(path: seq<byte>): string {
    if path == [] then "" else UriPart(path[0]) + UriParts(path[1..])
  }

  function Uri(path: seq<byte>): string { "file://" + UriParts(path) }

  function HexValue(c: char): int {
    if '0' <= c <= '9' then c as int - 0x30 else c as int - 0x41 + 10
  }

  /** Reads a link's path back. */
  function UriPath(s: string): seq<int> {
    if s == "" then []
    else if s[0] == '%' && |s| >= 3 then [HexValue(s[1]) * 16 + HexValue(s[2])] + UriPath(s[3..])
    else [s[0] as int] + UriPath(s[1..])
  }

  /** The link names the path, and nothing in it can end the escape sequence
      that carries it. */
  lemma {:induction false} UriNamesPath(path: seq<byte>)
    ensures UriPath(UriParts(path)) == path
    ensures ESC !in UriParts(path) && BEL !in UriParts(path)
    decreases |path|
  {
    if path != [] {
      UriNamesPath(path[1..]);
      var part, rest := UriPart(path[0]), UriParts(path[1..]);
      var s := part + rest;
      assert s[|part|..] == rest && s[0] == part[0];
      assert path == [path[0]] + path[1..];
      if !Unreserved(path[0]) {
        assert s[1] == part[1] && s[2] == part[2];
      }
    }
  }

  /** Letters, digits and `-_.~/:` stand for themselves, all else is escaped. */
  lemma UriPartExactly(b: byte)
    ensures |UriPart(b)| == 1 <==>
            'A' as int <= b <= 'Z' as int || 'a' as int <= b <= 'z' as int || '0' as int <= b <= '9' as int ||
            b == '-' as int || b == '_' as int || b == '.' as int || b == '~' as int || b == '/' as int || b == ':' as int
  {
  }

  /** A link to a report shows the path, painted or not, and strips back to it. */
  function RenderPath(path: seq<byte>, display: string, colors: bool, links: bool): string {
    var styled := Paint(display, "4;34", colors);
    if links then Link(Uri(path), styled) else styled
  }

  lemma StripRenderedPath(path: seq<byte>, display: string, colors: bool, links: bool)
    requires ESC !in display
    ensures Strip(RenderPath(path, display, colors, links)) == display
    ensures Complete(RenderPath(path, display, colors, links))
  {
    StripPaint(display, "4;34", colors);
    if links {
      UriNamesPath(path);
      assert ESC !in "file://" && BEL !in "file://";
      StripLink(Uri(path), Paint(display, "4;34", colors));
    }
  }

  // ---------- whole lines ----------

  /** A piece of a diagnostics line. */
  datatype Piece =
    | Plain(text: string)
    | Painted(text: string, style: string)
    | Report(path: seq<byte>, text: string)

  function Render(pieces: seq<Piece>, colors: bool, links: bool): string {
    if pieces == [] then ""
    else
      (match pieces[0]
       case Plain(text) => text
       case Painted(text, style) => Paint(text, style, colors)
       case Report(path, text) => RenderPath(path, text, colors, links)) + Render(pieces[1..], colors, links)
  }

  function Visible(pieces: seq<Piece>): string {
    if pieces == [] then "" else pieces[0].text + Visible(pieces[1..])
  }

  /** Stripping any rendered line gives its visible text. */
  lemma {:induction false} StripRendered(pieces: seq<Piece>, colors: bool, links: bool)
    requires forall i :: 0 <= i < |pieces| ==> ESC !in pieces[i].text && (pieces[i].Painted? ==> StyleChars(pieces[i].style))
    ensures Strip(Render(pieces, colors, links)) == Visible(pieces)
    decreases |pieces|
  {
    if pieces != [] {
      StripRendered(pieces[1..], colors, links);
      var rest := Render(pieces[1..], colors, links);
      match pieces[0]
      case Plain(text) =>
        PlainIsComplete(text);
        StripKeepsPlain(text);
        StripAppend(text, rest);
      case Painted(text, style) =>
        StripPaint(text, style, colors);
        StripAppend(Paint(text, style, colors), rest);
      case Report(path, text) =>
        StripRenderedPath(path, text, colors, links);
        StripAppend(RenderPath(path, text, colors, links), rest);
    }
  }

  // ---------- the code ----------

  /** The loop over the characters, with the two inner loops that skip a
      sequence. */
  method StripTerminalSequences(value: string) returns (result: string)
    ensures result == Strip(value)
  {
    result := "";
    var rest := value;
    while rest != ""
      invariant result + Strip(rest) == Strip(value)
      decreases |rest|
    {
      var ch := rest[0];
      ghost var before := rest;
      rest := rest[1..];
      if ch == ESC {
        if rest != "" && rest[0] == '[' {
          rest := SkipControl(rest[1..]);
        } else if rest != "" && rest[0] == ']' {
          rest := SkipCommand(rest[1..]);
        }
        assert rest == AfterEscape(before);
      } else {
        Assoc(result, [ch], Strip(rest));
        result := result + [ch];
      }
    }
    assert result + "" == result;
  }

  method SkipControl(s: string) returns (rest: string)
    ensures rest == AfterControl(s)
  {
    rest := s;
    while rest != ""
      invariant AfterControl(rest) == AfterControl(s)
      decreases |rest|
    {
      var next := rest[0];
      rest := rest[1..];
      if Final(next) {
        return;
      }
    }
  }

  method SkipCommand(s: string) returns (rest: string)
    ensures rest == AfterCommand(s, '\0')
  {
    rest := s;
    var prev := '\0';
    while rest != ""
      invariant AfterCommand(rest, prev) == AfterCommand(s, '\0')
      decreases |rest|
    {
      var next := rest[0];
      rest := rest[1..];
      if next == BEL || (prev == ESC && next == '\\') {
        return;
      }
      prev := next;
    }
  }

  method TimingReportUri(path: seq<byte>) returns (uri: string)
    ensures uri == Uri(path)
  {
    uri := "file://";
    for i := 0 to |path|
      invariant uri + UriParts(path[i..]) == Uri(path)
    {
      assert path[i..][1..] == path[i + 1..];
      Assoc(uri, UriPart(path[i]), UriParts(path[i + 1..]));
      uri := uri + UriPart(path[i]);
    }
    assert uri + "" == uri;
  }
}
