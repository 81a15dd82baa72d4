/**
  A terminal, written apart from the code that strips its sequences: what it
  shows, in which style and with which link.

  ECMA-48 ends a control sequence at the first character from 0x40 to 0x7e; `m`
  selects the style.  An operating system command ends at BEL or at ESC and
  backslash; command 8 sets the link.
 */
module TerminalDisplay {
  import opened Options
  import opened Texts
  import opened Terminal

  /** A character on the screen. */
  datatype Cell = Cell(c: char, style: string, link: string)

  /** Where the character that ends a control sequence is, or the length. */
  function FinalAt(s: string): (k: nat)
    ensures k <= |s| && (k < |s| ==> 0x40 <= s[k] as int <= 0x7e)
    ensures forall i :: 0 <= i < k ==> !(0x40 <= s[i] as int <= 0x7e)
  {
    if s == "" || 0x40 <= s[0] as int <= 0x7e then 0
    else
      var k := FinalAt(s[1..]);
      assert forall i :: 0 < i < k + 1 ==> s[i] == s[1..][i - 1];
      k + 1
  }

  predicate StringTerminator(s: string, k: nat) {
    k + 1 < |s| && s[k] as int == 0x1b && s[k + 1] as int == 0x5c
  }

  predicate Terminates(s: string, k: nat) { k < |s| && (s[k] as int == 7 || StringTerminator(s, k)) }

  /** Where the BEL, or the ESC and backslash, that ends a command is, or the
      length. */
  function TerminatorAt(s: string): (k: nat)
    ensures k <= |s| && (k < |s| ==> Terminates(s, k)) && forall i :: 0 <= i < k ==> !Terminates(s, i)
  {
    if s == "" || Terminates(s, 0) then 0
    else
      var k := TerminatorAt(s[1..]);
      assert forall i {:trigger Terminates(s, i)} :: 0 < i < k + 1 ==> (Terminates(s, i) <==> Terminates(s[1..], i - 1));
      assert k < |s[1..]| ==> Terminates(s, k + 1);
      k + 1
  }

  /** What follows the command that `s` is inside of. */
  function BehindCommand(s: string): (r: string)
    ensures |r| <= |s|
  {
    var k := TerminatorAt(s);
    if k == |s| then "" else if StringTerminator(s, k) then s[k + 2..] else s[k + 1..]
  }

  /** Style 0 is none. */
  function Styled(params: string): string { if params == "0" then "" else params }

  function Linked(command: string, link: string): string {
    if |command| >= 3 && command[0] == '8' && command[1] == ';' && command[2] == ';' then command[3..] else link
  }

  /** What a terminal shows from this style and link on. */
  function Display(s: string, style: string, link: string): seq<Cell>
    decreases |s|
  {
    if s == "" then []
    else if s[0] as int != 0x1b then [Cell(s[0], style, link)] + Display(s[1..], style, link)
    else if |s| > 1 && s[1] == '[' then
      var k := FinalAt(s[2..]);
      if k == |s[2..]| then []
      else Display(s[2..][k + 1..], if s[2..][k] == 'm' then Styled(s[2..][..k]) else style, link)
    else if |s| > 1 && s[1] == ']' then
      Display(BehindCommand(s[2..]), style, Linked(s[2..][..TerminatorAt(s[2..])], link))
    else Display(s[1..], style, link)
  }

  function Characters(cells: seq<Cell>): string {
    if cells == [] then "" else [cells[0].c] + Characters(cells[1..])
  }

  // ---------- stripping leaves what is shown ----------

  lemma {:induction false} ControlSkipped(s: string)
    ensures AfterControl(s) == if FinalAt(s) == |s| then "" else s[FinalAt(s) + 1..]
    decreases |s|
  {
    if s != "" && !Final(s[0]) {
      ControlSkipped(s[1..]);
      FinalNext(s);
    }
  }

  lemma FinalNext(s: string)
    requires s != "" && !(0x40 <= s[0] as int <= 0x7e)
    ensures FinalAt(s) == FinalAt(s[1..]) + 1
  {
  }

  lemma {:induction false} CommandSkipped(s: string, prev: char)
    ensures AfterCommand(s, prev) ==
            if prev == ESC && s != "" && s[0] == '\\' then s[1..] else BehindCommand(s)
    decreases |s|
  {
    if s != "" && !(prev == ESC && s[0] == '\\') {
      CommandSkipped(s[1..], s[0]);
      CommandNext(s);
    }
  }

  lemma CommandNext(s: string)
    requires s != ""
    ensures BehindCommand(s) ==
            if s[0] == BEL then s[1..]
            else if s[0] == ESC && |s| > 1 && s[1] == '\\' then s[1..][1..]
            else BehindCommand(s[1..])
  {
    if !Terminates(s, 0) {
      assert TerminatorAt(s) == TerminatorAt(s[1..]) + 1;
    }
  }

  /** The characters that are left are those the terminal shows. */
  lemma {:induction false} StripShows(s: string, style: string, link: string)
    ensures Strip(s) == Characters(Display(s, style, link))
    decreases |s|
  {
    if s == "" {
    } else if s[0] != ESC {
      StripShows(s[1..], style, link);
      ShowsFirst(Cell(s[0], style, link), Display(s[1..], style, link));
    } else {
      StripShowsEscape(s, style, link);
    }
  }

  lemma ShowsFirst(cell: Cell, rest: seq<Cell>)
    ensures Characters([cell] + rest) == [cell.c] + Characters(rest)
  {
    assert ([cell] + rest)[1..] == rest;
  }

  lemma {:induction false} StripShowsEscape(s: string, style: string, link: string)
    requires s != "" && s[0] == ESC
    ensures Strip(s) == Characters(Display(s, style, link))
    decreases |s|, 0
  {
    if |s| > 1 && s[1] == '[' {
      ControlShows(s, style, link);
    } else if |s| > 1 && s[1] == ']' {
      CommandSkipped(s[2..], '\0');
      StripShows(BehindCommand(s[2..]), style, Linked(s[2..][..TerminatorAt(s[2..])], link));
    } else {
      StripShows(s[1..], style, link);
    }
  }

  lemma {:induction false} ControlShows(s: string, style: string, link: string)
    requires |s| > 1 && s[0] == ESC && s[1] == '['
    ensures Strip(s) == Characters(Display(s, style, link))
    decreases |s|, 0, 0
  {
    var body := s[2..];
    var k := FinalAt(body);
    ControlSkipped(body);
    if k < |body| {
      StripShows(body[k + 1..], if body[k] == 'm' then Styled(body[..k]) else style, link);
    }
  }

  // ---------- rendered lines show their pieces ----------

  function Cells(text: string, style: string, link: string): seq<Cell> {
    seq(|text|, i requires 0 <= i < |text| => Cell(text[i], style, link))
  }

  lemma {:induction false} TextShows(text: string, rest: string, style: string, link: string)
    requires ESC !in text
    ensures Display(text + rest, style, link) == Cells(text, style, link) + Display(rest, style, link)
    decreases |text|
  {
    if text == "" {
      assert text + rest == rest;
    } else {
      TextShows(text[1..], rest, style, link);
      assert text[0] in text;
      assert (text + rest)[0] == text[0] && (text + rest)[1..] == text[1..] + rest;
      assert Cells(text, style, link) == [Cell(text[0], style, link)] + Cells(text[1..], style, link);
    }
  }

  lemma {:induction false} StyleShows(params: string, rest: string, style: string, link: string)
    requires StyleChars(params)
    ensures Display([ESC, '['] + params + "m" + rest, style, link) == Display(rest, Styled(params), link)
  {
    var s := [ESC, '['] + params + "m" + rest;
    var body := params + "m" + rest;
    assert s[2..] == body && s[0] == ESC && s[1] == '[';
    assert forall i :: 0 <= i < |params| ==> body[i] == params[i];
    assert body[|params|] == 'm';
    assert FinalAt(body) == |params|;
    assert body[..|params|] == params && body[|params| + 1..] == rest;
  }

  lemma {:induction false} LinkShows(uri: string, rest: string, style: string, link: string)
    requires ESC !in uri && BEL !in uri
    ensures Display([ESC, ']', '8', ';', ';'] + uri + [ESC, '\\'] + rest, style, link) == Display(rest, style, uri)
  {
    var command := "8;;" + uri;
    var body := command + [ESC, '\\'] + rest;
    var s := [ESC, ']', '8', ';', ';'] + uri + [ESC, '\\'] + rest;
    assert s == [ESC, ']'] + body;
    assert s[2..] == body;
    CommandBody(command, rest);
    assert command[3..] == uri;
  }

  lemma {:induction false} CommandBody(command: string, rest: string)
    requires ESC !in command && BEL !in command
    ensures var body := command + [ESC, '\\'] + rest;
            TerminatorAt(body) == |command| && body[..|command|] == command && BehindCommand(body) == rest
  {
    var body := command + [ESC, '\\'] + rest;
    forall i | 0 <= i < |command| ensures !Terminates(body, i) {
      assert body[i] == command[i];
      assert command[i] in command;
    }
    assert body[|command|] == ESC && body[|command| + 1] == '\\';
    assert Terminates(body, |command|);
    assert body[|command| + 2..] == rest;
  }

  lemma {:induction false} PaintShows(text: string, params: string, colors: bool, rest: string, link: string)
    requires ESC !in text && StyleChars(params)
    ensures Display(Paint(text, params, colors) + rest, "", link) ==
            Cells(text, if colors then Styled(params) else "", link) + Display(rest, "", link)
  {
    if !colors || params == "" {
      TextShows(text, rest, "", link);
    } else {
      var close := [ESC, '[', '0', 'm'];
      PaintRegroups(text, params, rest);
      StyleShows(params, text + (close + rest), "", link);
      TextShows(text, close + rest, Styled(params), link);
      assert close + rest == [ESC, '['] + "0" + "m" + rest;
      StyleShows("0", rest, Styled(params), link);
    }
  }

  lemma PaintRegroups(text: string, params: string, rest: string)
    ensures [ESC, '['] + params + "m" + text + [ESC, '[', '0', 'm'] + rest ==
            [ESC, '['] + params + "m" + (text + ([ESC, '[', '0', 'm'] + rest))
  {
    Assoc([ESC, '['] + params + "m" + text, [ESC, '[', '0', 'm'], rest);
    Assoc([ESC, '['] + params + "m", text, [ESC, '[', '0', 'm'] + rest);
  }

  lemma {:induction false} ReportShows(path: seq<byte>, text: string, colors: bool, links: bool, rest: string)
    requires ESC !in text
    ensures Display(RenderPath(path, text, colors, links) + rest, "", "") ==
            Cells(text, if colors then "4;34" else "", if links then Uri(path) else "") + Display(rest, "", "")
  {
    if !links {
      PaintShows(text, "4;34", colors, rest, "");
    } else {
      var uri, styled := Uri(path), Paint(text, "4;34", colors);
      var close := [ESC, ']', '8', ';', ';', ESC, '\\'];
      UriNamesPath(path);
      assert ESC !in "file://" && BEL !in "file://";
      LinkRegroups(uri, styled, rest);
      LinkShows(uri, styled + (close + rest), "", "");
      PaintShows(text, "4;34", colors, close + rest, uri);
      LinkEnds(rest, uri);
    }
  }

  lemma LinkEnds(rest: string, link: string)
    ensures Display([ESC, ']', '8', ';', ';', ESC, '\\'] + rest, "", link) == Display(rest, "", "")
  {
    assert [ESC, ']', '8', ';', ';', ESC, '\\'] + rest == [ESC, ']', '8', ';', ';'] + "" + [ESC, '\\'] + rest;
    LinkShows("", rest, "", link);
  }

  lemma LinkRegroups(uri: string, styled: string, rest: string)
    ensures Link(uri, styled) + rest ==
            [ESC, ']', '8', ';', ';'] + uri + [ESC, '\\'] + (styled + ([ESC, ']', '8', ';', ';', ESC, '\\'] + rest))
  {
    var open, close := [ESC, ']', '8', ';', ';'] + uri + [ESC, '\\'], [ESC, ']', '8', ';', ';', ESC, '\\'];
    Assoc(open + styled, close, rest);
    Assoc(open, styled, close + rest);
  }

  /** What each piece of a line is to look like. */
  function Expected(pieces: seq<Piece>, colors: bool, links: bool): seq<Cell> {
    if pieces == [] then []
    else
      (match pieces[0]
       case Plain(text) => Cells(text, "", "")
       case Painted(text, style) => Cells(text, if colors then Styled(style) else "", "")
       case Report(path, text) => Cells(text, if colors then "4;34" else "", if links then Uri(path) else "")) +
      Expected(pieces[1..], colors, links)
  }

  /** A rendered line shows every piece in its style, if colours are on, and with
      its link, if links are on, and leaves the terminal as it was. */
  lemma {:induction false} RenderShows(pieces: seq<Piece>, colors: bool, links: bool)
    requires forall i :: 0 <= i < |pieces| ==> ESC !in pieces[i].text
    requires forall i :: 0 <= i < |pieces| && pieces[i].Painted? ==> StyleChars(pieces[i].style)
    ensures Display(Render(pieces, colors, links), "", "") == Expected(pieces, colors, links)
    decreases |pieces|
  {
    if pieces != [] {
      RenderShows(pieces[1..], colors, links);
      var rest := Render(pieces[1..], colors, links);
      match pieces[0]
      case Plain(text) => TextShows(text, rest, "", "");
      case Painted(text, style) => PaintShows(text, style, colors, rest, "");
      case Report(path, text) => ReportShows(path, text, colors, links, rest);
    }
  }
}
