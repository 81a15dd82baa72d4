/**
  The Rust comment lexer of the non-ASCII guard (tools/sanitycheck.py): it finds
  the `//` line comments of a source text, so that a marker inside a string or
  another comment is not taken for one.

  `Step` is one turn of the scanner's loop on the values of its variables, and
  `Run` the whole loop; the method at the end is the loop itself.
 */
module RustLexer {
  import opened Options
  import opened Texts

  datatype Mode = Normal | InString | InRaw | InBlock

  /** The variables of `line_comment_starts`. */
  datatype Lexer = Lexer(i: nat, lineno: nat, lineStart: nat, mode: Mode, hashes: nat, depth: int,
                         escaped: bool, starts: map<nat, int>)

  const INITIAL: Lexer := Lexer(0, 1, 0, Normal, 0, 0, false, map[])

  predicate At(text: string, i: int, c: char) { 0 <= i < |text| && text[i] == c }

  // ---------- the searches the scanner makes ----------

  function FindNewline(text: string, i: nat): (j: nat)
    requires i <= |text|
    ensures i <= j <= |text|
    ensures forall k :: i <= k < j ==> text[k] != '\n'
    ensures j < |text| ==> text[j] == '\n'
    decreases |text| - i
  {
    if i == |text| || text[i] == '\n' then i else FindNewline(text, i + 1)
  }

  /** Past the `#`s that start at `j`. */
  function SkipHashes(text: string, j: nat): (h: nat)
    requires j <= |text|
    ensures j <= h <= |text|
    ensures forall k :: j <= k < h ==> text[k] == '#'
    ensures !At(text, h, '#')
    decreases |text| - j
  {
    if At(text, j, '#') then SkipHashes(text, j + 1) else j
  }

  /** The first `}` in `text[j..end]`, or -1. */
  function FindBrace(text: string, j: nat, end: nat): (k: int)
    ensures k == -1 || (j <= k < end && At(text, k, '}') && forall l :: j <= l < k ==> !At(text, l, '}'))
    ensures k == -1 ==> forall l :: j <= l < end ==> !At(text, l, '}')
    decreases end - j
  {
    if j >= end then -1 else if At(text, j, '}') then j else FindBrace(text, j + 1, end)
  }

  predicate PrefixLetter(text: string, i: int) { At(text, i, 'b') || At(text, i, 'r') || At(text, i, 'c') }

  /** Up to two letters of `b`, `r` and `c` at `i`. */
  function Prefix(text: string, i: nat): (p: string)
    ensures |p| <= 2 && (p == "" || i + |p| <= |text|)
  {
    if !PrefixLetter(text, i) then ""
    else if !PrefixLetter(text, i + 1) then [text[i]]
    else [text[i], text[i + 1]]
  }

  /** `_scan_char`: past the closing quote if a char literal starts at `i`. */
  function ScanChar(text: string, i: nat): (r: Option<nat>)
    ensures r.Some? ==> i < r.value <= |text|
  {
    if i + 1 >= |text| then None
    else if text[i + 1] == '\\' then
      var j :=
        if At(text, i + 2, 'x') then i + 5
        else if At(text, i + 2, 'u') then
          var k := FindBrace(text, i + 2, i + 12);
          if k != -1 then k + 1 else i + 3
        else i + 3;
      if At(text, j, '\'') then Some(j + 1) else None
    else if At(text, i + 2, '\'') then Some(i + 3)
    else None
  }

  /** `text[i..i + k]` is `k` hashes. */
  predicate HashesAt(text: string, i: nat, k: nat) {
    i + k <= |text| && forall j :: i <= j < i + k ==> text[j] == '#'
  }

  // ---------- one turn of the loop ----------

  function NormalStep(text: string, s: Lexer): (t: Lexer)
    requires s.i < |text| && text[s.i] != '\n'
    ensures s.i < t.i <= |text|
  {
    var i, c := s.i, text[s.i];
    if c == '/' && At(text, i + 1, '/') then
      s.(i := FindNewline(text, i),
         starts := if s.lineno in s.starts then s.starts else s.starts[s.lineno := i - s.lineStart])
    else if c == '/' && At(text, i + 1, '*') then s.(i := i + 2, mode := InBlock, depth := 1)
    else if c == '"' then s.(i := i + 1, mode := InString, escaped := false)
    else if PrefixLetter(text, i) then PrefixStep(text, s)
    else if c == '\'' then
      var e := ScanChar(text, i);
      s.(i := if e.Some? then e.value else i + 1)
    else s.(i := i + 1)
  }

  function PrefixStep(text: string, s: Lexer): (t: Lexer)
    requires s.i < |text| && PrefixLetter(text, s.i)
    ensures s.i < t.i <= |text|
  {
    var p := Prefix(text, s.i);
    var j := s.i + |p|;
    var h := SkipHashes(text, j);
    if (p == "r" || p == "br" || p == "cr") && At(text, h, '"') then
      s.(i := h + 1, mode := InRaw, hashes := h - j)
    else if (p == "b" || p == "c") && At(text, j, '"') then
      s.(i := j + 1, mode := InString, escaped := false)
    else s.(i := s.i + 1)
  }

  function Step(text: string, s: Lexer): (t: Lexer)
    requires s.i < |text|
    ensures s.i < t.i <= |text|
  {
    var i, c := s.i, text[s.i];
    if c == '\n' then s.(i := i + 1, lineno := s.lineno + 1, lineStart := i + 1, escaped := false)
    else
      match s.mode
      case Normal => NormalStep(text, s)
      case InString =>
        if s.escaped then s.(i := i + 1, escaped := false)
        else if c == '\\' then s.(i := i + 1, escaped := true)
        else if c == '"' then s.(i := i + 1, mode := Normal)
        else s.(i := i + 1)
      case InRaw =>
        if c == '"' && HashesAt(text, i + 1, s.hashes) then s.(i := i + 1 + s.hashes, mode := Normal)
        else s.(i := i + 1)
      case InBlock =>
        if c == '/' && At(text, i + 1, '*') then s.(i := i + 2, depth := s.depth + 1)
        else if c == '*' && At(text, i + 1, '/') then
          s.(i := i + 2, depth := s.depth - 1, mode := if s.depth - 1 == 0 then Normal else InBlock)
        else s.(i := i + 1)
  }

  /** The whole scan; it ends because every turn moves forward. */
  function Run(text: string, s: Lexer): map<nat, int>
    decreases |text| - s.i
  {
    if s.i >= |text| then s.starts else Run(text, Step(text, s))
  }

  // ---------- Rust tokens ----------

  datatype StringItem = Plain(c: char) | Escaped(c: char)

  datatype Part = Ch(c: char) | Nested(parts: seq<Part>)

  /** What is between the quotes of a char literal: the bytes of one character,
      or an escape. */
  datatype CharBody =
    | Single(bytes: string)
    | Hex(d1: char, d2: char)
    | Unicode(digits: string)
    | Simple(c: char)

  type Nonempty = s: string | s != "" witness "_"

  /** A word is an identifier, a keyword or a number; one directly behind a
      literal is its suffix.  `Tick` is a quote by itself, which no Rust text has:
      the scanner takes other quotes for one. */
  datatype Token =
    | Code(c: char)
    | Space(bytes: Nonempty)
    | Word(name: Nonempty)
    | Suffix(name: Nonempty)
    | Lifetime(name: Nonempty)
    | Tick
    | CharLit(literal: CharBody)
    | Str(prefix: string, items: seq<StringItem>)
    | Raw(prefix: string, hashes: nat, body: string)
    | Block(parts: seq<Part>)
    | Line(body: string)

  function ItemText(x: StringItem): string {
    match x case Plain(c) => [c] case Escaped(c) => ['\\', c]
  }

  function ItemsText(items: seq<StringItem>): string {
    if items == [] then "" else ItemText(items[0]) + ItemsText(items[1..])
  }

  function Hashes(k: nat): (s: string)
    ensures |s| == k && forall i :: 0 <= i < k ==> s[i] == '#'
  {
    seq(k, i => '#')
  }

  function PartText(p: Part): string {
    match p case Ch(c) => [c] case Nested(parts) => "/*" + (PartsText(parts) + "*/")
  }

  function PartsText(parts: seq<Part>): string {
    if parts == [] then "" else PartText(parts[0]) + PartsText(parts[1..])
  }

  function CharText(b: CharBody): string {
    match b
    case Single(bytes) => bytes
    case Hex(d1, d2) => ['\\', 'x', d1, d2]
    case Unicode(digits) => "\\u{" + digits + "}"
    case Simple(c) => ['\\', c]
  }

  function TokenText(t: Token): (s: string)
    ensures s != ""
  {
    match t
    case Code(c) => [c]
    case Space(bytes) => bytes
    case Word(name) => name
    case Suffix(name) => name
    case Lifetime(name) => "'" + name
    case Tick => "'"
    case CharLit(b) => "'" + CharText(b) + "'"
    case Str(prefix, items) => prefix + ("\"" + (ItemsText(items) + "\""))
    case Raw(prefix, k, body) => prefix + (Hashes(k) + ("\"" + (body + ("\"" + Hashes(k)))))
    case Block(parts) => "/*" + (PartsText(parts) + "*/")
    case Line(body) => "//" + body
  }

  function Text(tokens: seq<Token>): string {
    if tokens == [] then "" else TokenText(tokens[0]) + Text(tokens[1..])
  }

  // ---------- which token sequences are well formed ----------

  predicate StartsWith(s: string, c: char) { s != "" && s[0] == c }

  /** A string literal starts here, in one of its prefixed forms. */
  predicate OpensString(s: string) {
    (StartsWith(s, 'b') && StartsWith(s[1..], '"')) ||
    (StartsWith(s, 'c') && StartsWith(s[1..], '"')) ||
    (StartsWith(s, 'r') && OpensRaw(s[1..])) ||
    (StartsWith(s, 'b') && StartsWith(s[1..], 'r') && OpensRaw(s[2..])) ||
    (StartsWith(s, 'c') && StartsWith(s[1..], 'r') && OpensRaw(s[2..]))
  }

  /** Any number of hashes and then a quote. */
  predicate OpensRaw(s: string) {
    StartsWith(s, '"') || (StartsWith(s, '#') && OpensRaw(s[1..]))
  }

  predicate Continues(c: char) { c as int >= 0x80 }

  /** White space of several bytes starts here (U+0085, U+200E, U+200F, U+2028
      or U+2029), or the byte-order mark. */
  predicate OpensSpace(s: string) { |s| >= 2 && (IsSpace(s[..2]) || (|s| >= 3 && IsSpace(s[..3]))) }

  predicate IsSpace(bytes: string) {
    bytes == ['\U{C2}', '\U{85}'] || bytes == ['\U{EF}', '\U{BB}', '\U{BF}'] ||
    (|bytes| == 3 && bytes[0] == '\U{E2}' && bytes[1] == '\U{80}' &&
     (bytes[2] == '\U{8E}' || bytes[2] == '\U{8F}' || bytes[2] == '\U{A8}' || bytes[2] == '\U{A9}'))
  }

  predicate WordChar(c: char) {
    'a' <= c <= 'z' || 'A' <= c <= 'Z' || '0' <= c <= '9' || c == '_' || Continues(c)
  }

  predicate WordChars(s: string) { forall i :: 0 <= i < |s| ==> WordChar(s[i]) }

  predicate HasNoSpace(s: string) { s == "" || (!OpensSpace(s) && HasNoSpace(s[1..])) }

  predicate IsWord(s: string) { s != "" && WordChars(s) && HasNoSpace(s) }

  /** A word goes on, or begins, here. */
  predicate WordAhead(s: string) { s != "" && WordChar(s[0]) && !OpensSpace(s) }

  predicate EscapeDigit(c: char) { '0' <= c <= '9' || 'a' <= c <= 'f' || 'A' <= c <= 'F' || c == '_' }

  /** A char literal of Rust: a character of one byte, a character whose UTF-8
      encoding has several, or an escape.  Underscores may separate the digits
      of a Unicode escape. */
  predicate LegalChar(b: CharBody) {
    match b
    case Single(bytes) =>
      (|bytes| == 1 && bytes[0] != '\n' && bytes[0] != '\\') ||
      (|bytes| >= 2 && forall i :: 0 <= i < |bytes| ==> Continues(bytes[i]))
    case Hex(d1, d2) => d1 != '\n' && d2 != '\n'
    case Unicode(digits) => forall i :: 0 <= i < |digits| ==> EscapeDigit(digits[i])
    case Simple(c) => c != '\n' && c != 'x' && c != 'u'
  }

  /** The scanner looks one byte, or ten characters of an escape, ahead for the
      end of a literal. */
  predicate ShortChar(b: CharBody) {
    match b
    case Single(bytes) => |bytes| == 1
    case Unicode(digits) => |digits| <= 7
    case _ => true
  }

  /** A nested comment's text up to `rest` cannot be cut differently. */
  predicate PartFits(p: Part, rest: string) {
    match p
    case Ch(c) => !(c == '/' && StartsWith(rest, '*')) && !(c == '*' && StartsWith(rest, '/'))
    case Nested(parts) => PartsFit(parts)
  }

  predicate PartsFit(parts: seq<Part>) {
    parts == [] || (PartFits(parts[0], PartsText(parts[1..]) + "*/") && PartsFit(parts[1..]))
  }

  /** No quote in the body has enough hashes behind it to close the literal. */
  predicate StaysOpen(body: string, k: nat) {
    forall i :: 0 <= i < |body| && body[i] == '"' ==> !HashesAt(body, i + 1, k)
  }

  /** The token, followed by `rest`, is what Rust's longest-match rule reads.
      The rule is that of the editions from 2021 on, except that an identifier
      may stand directly before a quote, as it could until then. */
  predicate Fits(t: Token, rest: string) {
    match t
    case Code(c) => !WordChar(c) && c != '"' && c != '\'' && !OpensComment(c, rest)
    case Space(bytes) => IsSpace(bytes)
    case Word(name) => IsWord(name) && !WordAhead(rest) && !OpensString(name + rest)
    case Suffix(name) => IsWord(name) && !WordAhead(rest)
    case Lifetime(name) => IsWord(name) && !WordAhead(rest) && !StartsWith(rest, '\'')
    case Tick => false
    case CharLit(b) => LegalChar(b)
    case Str(prefix, items) =>
      (prefix == "" || prefix == "b" || prefix == "c") &&
      forall i :: 0 <= i < |items| ==> items[i].Plain? ==> items[i].c != '"' && items[i].c != '\\'
    case Raw(prefix, k, body) => (prefix == "r" || prefix == "br" || prefix == "cr") && StaysOpen(body, k)
    case Block(parts) => PartsFit(parts)
    case Line(body) => '\n' !in body && (rest == "" || rest[0] == '\n')
  }

  predicate OpensComment(c: char, rest: string) { c == '/' && (StartsWith(rest, '/') || StartsWith(rest, '*')) }

  predicate Literal(t: Token) { t.CharLit? || t.Str? || t.Raw? }

  predicate WellFormed(tokens: seq<Token>) { Lexed(tokens, false) }

  /** A word directly behind a literal is its suffix, and there is no other
      suffix. */
  predicate Lexed(tokens: seq<Token>, behindLiteral: bool) {
    tokens == [] ||
    (Fits(tokens[0], Text(tokens[1..])) &&
     (if behindLiteral then WordAhead(Text(tokens)) ==> tokens[0].Suffix? else !tokens[0].Suffix?) &&
     Lexed(tokens[1..], Literal(tokens[0])))
  }

  /** Every char literal is one the scanner finds the end of. */
  predicate ShortLiterals(tokens: seq<Token>) {
    forall i :: 0 <= i < |tokens| && tokens[i].CharLit? ==> ShortChar(tokens[i].literal)
  }

  /** A word, a suffix or the name of a lifetime that ends in `r`. */
  predicate EndsInR(t: Token) { (t.Word? || t.Suffix? || t.Lifetime?) && LastIsR(t.name) }

  predicate LastIsR(name: string) { name != "" && name[|name| - 1] == 'r' }

  /** Nothing that ends in `r` stands directly before a quote, or before hashes
      and a quote: the scanner would take the `r` for a raw string's. */
  predicate Apart(tokens: seq<Token>) {
    tokens == [] || ((EndsInR(tokens[0]) ==> !OpensRaw(Text(tokens[1..]))) && Apart(tokens[1..]))
  }

  // ---------- what the scanner takes for a token ----------

  /** A Unicode escape without a closing brace where the scanner looks for it. */
  predicate CutOff(rest: string) {
    |rest| > 2 && rest[0] == '\\' && rest[1] == 'u' && rest[2] != '\'' &&
    forall k :: 1 <= k < 11 && k < |rest| ==> rest[k] != '}'
  }

  /** The scanner reads `t` as a token of its own: short char literals, words it
      sees no raw string at the end of, any character that opens nothing, and a
      quote alone, also in front of an escape that is too long. */
  predicate Read(t: Token, rest: string) {
    match t
    case Code(c) => c != '"' && c != '\'' && !OpensComment(c, rest) && !OpensString([c] + rest)
    case Tick => rest == "" || (rest[0] != '\\' && !StartsWith(rest[1..], '\'')) || CutOff(rest)
    case CharLit(b) => Fits(t, rest) && ShortChar(b)
    case _ => Fits(t, rest) && (EndsInR(t) ==> !OpensRaw(rest))
  }

  predicate AllRead(tokens: seq<Token>) {
    tokens == [] || (Read(tokens[0], Text(tokens[1..])) && AllRead(tokens[1..]))
  }

  lemma {:induction false} ReadableIsRead(tokens: seq<Token>, behindLiteral: bool)
    requires Lexed(tokens, behindLiteral) && ShortLiterals(tokens) && Apart(tokens)
    ensures AllRead(tokens)
    decreases |tokens|
  {
    if tokens != [] {
      FitIsRead(tokens[0], Text(tokens[1..]));
      ReadableIsRead(tokens[1..], Literal(tokens[0]));
    }
  }

  lemma FitIsRead(t: Token, rest: string)
    requires Fits(t, rest) && (t.CharLit? ==> ShortChar(t.literal)) && (EndsInR(t) ==> !OpensRaw(rest))
    ensures Read(t, rest)
  {
    if t.Code? {
      assert !OpensString([t.c] + rest);
    }
  }

  // ---------- lines ----------

  /** The 1-based line that the text after `p` is on. */
  function LineNo(p: string): (n: nat)
    ensures n >= 1
  {
    if p == "" then 1 else LineNo(p[..|p| - 1]) + (if p[|p| - 1] == '\n' then 1 else 0)
  }

  /** Where the last line of `p` begins. */
  function LineStart(p: string): (n: nat)
    ensures n <= |p|
  {
    if p == "" then 0 else if p[|p| - 1] == '\n' then |p| else LineStart(p[..|p| - 1])
  }

  /** The offset within its line of the text after `p`. */
  function Column(p: string): nat { |p| - LineStart(p) }

  /** The scanner's line variables are right for where it is. */
  ghost predicate OnLine(text: string, s: Lexer) {
    s.i <= |text| && s.lineno == LineNo(text[..s.i]) && s.lineStart == LineStart(text[..s.i])
  }

  lemma {:induction false} SameLine(text: string, i: nat, j: nat)
    requires i <= j <= |text| && forall k :: i <= k < j ==> text[k] != '\n'
    ensures LineNo(text[..j]) == LineNo(text[..i]) && LineStart(text[..j]) == LineStart(text[..i])
    decreases j - i
  {
    if i < j {
      SameLine(text, i, j - 1);
      assert text[..j][..j - 1] == text[..j - 1];
    }
  }

  lemma NextLine(text: string, i: nat)
    requires i < |text| && text[i] == '\n'
    ensures LineNo(text[..i + 1]) == LineNo(text[..i]) + 1 && LineStart(text[..i + 1]) == i + 1
  {
    assert text[..i + 1][..i] == text[..i];
  }

  /** A turn that skips no newline keeps the line variables right. */
  lemma StepKeepsLine(text: string, s: Lexer)
    requires s.i < |text| && OnLine(text, s)
    requires text[s.i] != '\n' ==> forall k :: s.i <= k < Step(text, s).i ==> text[k] != '\n'
    ensures OnLine(text, Step(text, s))
  {
    if text[s.i] == '\n' {
      NextLine(text, s.i);
    } else {
      SameLine(text, s.i, Step(text, s).i);
    }
  }

  /** The same for any move that skips no newline. */
  lemma MoveKeepsLine(text: string, s: Lexer, t: Lexer)
    requires OnLine(text, s) && s.i <= t.i <= |text| && t.lineno == s.lineno && t.lineStart == s.lineStart
    requires forall k :: s.i <= k < t.i ==> text[k] != '\n'
    ensures OnLine(text, t)
  {
    SameLine(text, s.i, t.i);
  }

  // ---------- scanning one token ----------

  /** Between tokens. */
  ghost predicate Ready(text: string, s: Lexer) { OnLine(text, s) && s.mode == Normal }

  lemma Ahead(text: string, i: nat, a: string, b: string)
    requires i <= |text| && text[i..] == a + b
    ensures i + |a| <= |text| && text[i + |a|..] == b
    ensures forall k :: 0 <= k < |a| ==> text[i + k] == a[k]
    ensures |b| > 0 ==> i + |a| < |text| && text[i + |a|] == b[0]
  {
    assert |text[i..]| == |text| - i;
    assert text[i + |a|..] == text[i..][|a|..];
    assert forall k :: 0 <= k < |a| ==> text[i..][k] == (a + b)[k];
    assert |b| > 0 ==> text[i..][|a|] == (a + b)[|a|];
  }

  /** What `Ahead` says of the text behind `a`, and of one character of `a`. */
  lemma Behind(text: string, i: nat, a: string, b: string)
    requires i <= |text| && text[i..] == a + b
    ensures i + |a| <= |text| && text[i + |a|..] == b
  {
    Ahead(text, i, a, b);
  }

  lemma Within(text: string, i: nat, a: string, b: string, k: nat)
    requires i <= |text| && text[i..] == a + b && k < |a|
    ensures At(text, i + k, a[k])
  {
    Ahead(text, i, a, b);
  }

  lemma RunStep(text: string, s: Lexer)
    requires s.i < |text|
    ensures Run(text, s) == Run(text, Step(text, s))
  {
  }

  lemma {:induction false} RawOpening(text: string, j: nat)
    requires j <= |text|
    ensures OpensRaw(text[j..]) <==> At(text, SkipHashes(text, j), '"')
    decreases |text| - j
  {
    if At(text, j, '#') {
      RawOpening(text, j + 1);
      assert text[j..][1..] == text[j + 1..];
    }
  }

  /** Whether a string opens at `i`, in terms of the characters there. */
  predicate OpensAt(text: string, i: nat)
    requires i < |text|
  {
    ((At(text, i, 'b') || At(text, i, 'c')) && At(text, i + 1, '"')) ||
    (At(text, i, 'r') && At(text, SkipHashes(text, i + 1), '"')) ||
    ((At(text, i, 'b') || At(text, i, 'c')) && At(text, i + 1, 'r') && At(text, SkipHashes(text, i + 2), '"'))
  }

  lemma OpensHere(text: string, i: nat)
    requires i < |text|
    ensures OpensString(text[i..]) <==> OpensAt(text, i)
  {
    var w := text[i..];
    assert w[0] == text[i] && w[1..] == text[i + 1..];
    RawOpening(text, i + 1);
    if i + 1 < |text| {
      assert w[1] == text[i + 1] && w[2..] == text[i + 2..];
      RawOpening(text, i + 2);
    }
  }

  /** A letter that does not open a string is skipped alone. */
  lemma PrefixSkips(text: string, s: Lexer)
    requires s.i < |text| && PrefixLetter(text, s.i) && !OpensAt(text, s.i)
    ensures PrefixStep(text, s) == s.(i := s.i + 1)
  {
  }

  lemma ScanCode(text: string, s: Lexer, c: char, rest: string) returns (t: Lexer)
    requires Ready(text, s) && text[s.i..] == [c] + rest && Read(Code(c), rest)
    ensures Run(text, s) == Run(text, t) && Ready(text, t) && t.i == s.i + 1 && t.starts == s.starts
  {
    Ahead(text, s.i, [c], rest);
    t := Step(text, s);
    if c != '\n' && PrefixLetter(text, s.i) {
      OpensHere(text, s.i);
      PrefixSkips(text, s);
    }
    assert t.i == s.i + 1 && t.mode == Normal && t.starts == s.starts;
    StepKeepsLine(text, s);
  }

  lemma ScanTick(text: string, s: Lexer, rest: string) returns (t: Lexer)
    requires Ready(text, s) && text[s.i..] == "'" + rest && Read(Tick, rest)
    ensures Run(text, s) == Run(text, t) && Ready(text, t) && t == s.(i := s.i + 1) && text[t.i..] == rest
  {
    Ahead(text, s.i, "'", rest);
    NoCharAfterTick(text, s.i, rest);
    t := Step(text, s);
    StepKeepsLine(text, s);
  }

  lemma NoCharAfterTick(text: string, i: nat, rest: string)
    requires i < |text| && text[i + 1..] == rest && Read(Tick, rest)
    ensures ScanChar(text, i) == None
  {
    assert |rest| == |text| - i - 1 && forall k :: 0 <= k < |rest| ==> rest[k] == text[i + 1 + k];
    if CutOff(rest) {
      assert text[i + 1] == rest[0] && text[i + 2] == rest[1] && text[i + 3] == rest[2];
      forall l | i + 2 <= l < i + 12 ensures !At(text, l, '}') {
        if l < |text| {
          assert text[l] == rest[l - i - 1];
        }
      }
      assert FindBrace(text, i + 2, i + 12) == -1;
    } else if rest != "" {
      assert text[i + 1] == rest[0];
      assert |rest| > 1 ==> text[i + 2] == rest[1] == rest[1..][0];
    }
  }

  // ---------- words ----------

  /** The scanner sees a raw string open at `i`. */
  predicate RawAt(text: string, i: nat) {
    var p := Prefix(text, i);
    (p == "r" || p == "br" || p == "cr") && At(text, SkipHashes(text, i + |p|), '"')
  }

  /** A character of a word is passed over, even before a string it is taken for
      the prefix of: a byte or C string ends where the plain one does. */
  lemma SkipLetter(text: string, s: Lexer)
    requires s.mode == Normal && s.i < |text| && WordChar(text[s.i]) && !RawAt(text, s.i)
    ensures Run(text, s) == Run(text, s.(i := s.i + 1))
  {
    var next := s.(i := s.i + 1);
    if PrefixLetter(text, s.i) && Step(text, s) != next {
      assert Step(text, s) == s.(i := s.i + 2, mode := InString, escaped := false) == Step(text, next);
    }
  }

  lemma {:induction false} SkipLetters(text: string, s: Lexer, j: nat)
    requires s.mode == Normal && s.i <= j <= |text|
    requires forall k :: s.i <= k < j ==> WordChar(text[k]) && !RawAt(text, k)
    ensures Run(text, s) == Run(text, s.(i := j))
    decreases j - s.i
  {
    if s.i < j {
      SkipLetter(text, s);
      SkipLetters(text, s.(i := s.i + 1), j);
    }
  }

  /** A raw string that seems to open within a word does so at its end. */
  lemma RawAtEnd(text: string, i: nat, w: string, rest: string, k: nat)
    requires i <= |text| && text[i..] == w + rest && WordChars(w) && !WordAhead(rest) && i <= k < i + |w|
    ensures RawAt(text, k) ==> LastIsR(w) && OpensRaw(rest)
  {
    if RawAt(text, k) {
      var end := i + |w|;
      Ahead(text, i, w, rest);
      forall l | i <= l < end ensures WordChar(text[l]) {
        assert text[l] == w[l - i];
      }
      assert !PrefixLetter(text, end);
      RawPrefixEnds(text, k, end);
      assert text[end - 1] == w[|w| - 1];
      RawOpening(text, end);
    }
  }

  /** The prefix ends where the word characters do. */
  lemma RawPrefixEnds(text: string, k: nat, end: nat)
    requires k < end <= |text| && RawAt(text, k) && !PrefixLetter(text, end)
    requires forall l :: k <= l < end ==> WordChar(text[l])
    ensures k + |Prefix(text, k)| == end && text[end - 1] == 'r' && At(text, SkipHashes(text, end), '"')
  {
    var q := k + |Prefix(text, k)|;
    assert At(text, q, '#') || At(text, q, '"');
    assert q >= end;
  }

  lemma ScanWord(text: string, s: Lexer, w: string, rest: string) returns (t: Lexer)
    requires Ready(text, s) && text[s.i..] == w + rest && WordChars(w) && !WordAhead(rest)
    requires LastIsR(w) ==> !OpensRaw(rest)
    ensures Run(text, s) == Run(text, t) && Ready(text, t) && t == s.(i := s.i + |w|)
  {
    forall k | s.i <= k < s.i + |w| ensures !RawAt(text, k) {
      RawAtEnd(text, s.i, w, rest, k);
    }
    t := PassLetters(text, s, w, rest);
  }

  lemma PassLetters(text: string, s: Lexer, w: string, rest: string) returns (t: Lexer)
    requires Ready(text, s) && text[s.i..] == w + rest && WordChars(w)
    requires forall k :: s.i <= k < s.i + |w| ==> !RawAt(text, k)
    ensures Run(text, s) == Run(text, t) && Ready(text, t) && t == s.(i := s.i + |w|) && text[t.i..] == rest
  {
    Ahead(text, s.i, w, rest);
    t := s.(i := s.i + |w|);
    forall k | s.i <= k < t.i ensures WordChar(text[k]) {
      assert text[k] == w[k - s.i];
    }
    SkipLetters(text, s, t.i);
    MoveKeepsLine(text, s, t);
  }

  lemma ScanSpace(text: string, s: Lexer, bytes: string, rest: string) returns (t: Lexer)
    requires Ready(text, s) && text[s.i..] == bytes + rest && IsSpace(bytes)
    ensures Run(text, s) == Run(text, t) && Ready(text, t) && t == s.(i := s.i + |bytes|)
  {
    SpaceBytes(bytes);
    forall k | s.i <= k < s.i + |bytes| ensures !RawAt(text, k) {
      Within(text, s.i, bytes, rest, k - s.i);
    }
    t := PassLetters(text, s, bytes, rest);
  }

  lemma SpaceBytes(bytes: string)
    requires IsSpace(bytes)
    ensures WordChars(bytes) && forall k :: 0 <= k < |bytes| ==> Continues(bytes[k])
  {
  }

  lemma ScanLifetime(text: string, s: Lexer, name: string, rest: string) returns (t: Lexer)
    requires Ready(text, s) && text[s.i..] == ("'" + name) + rest && name != "" && Read(Lifetime(name), rest)
    ensures Run(text, s) == Run(text, t) && Ready(text, t) && t.starts == s.starts && t.i == s.i + 1 + |name|
  {
    Assoc("'", name, rest);
    NameAfterTick(name, rest);
    Behind(text, s.i, "'", name + rest);
    var u := ScanTick(text, s, name + rest);
    t := ScanWord(text, u, name, rest);
  }

  /** Words in each of their places, and white space of several bytes. */
  lemma ScanName(text: string, s: Lexer, tok: Token, rest: string) returns (t: Lexer)
    requires tok.Space? || tok.Word? || tok.Suffix? || tok.Lifetime?
    requires Ready(text, s) && text[s.i..] == TokenText(tok) + rest && Read(tok, rest)
    ensures Run(text, s) == Run(text, t) && Ready(text, t) && t.starts == s.starts && t.i == s.i + |TokenText(tok)|
  {
    match tok
    case Space(bytes) => t := ScanSpace(text, s, bytes, rest);
    case Word(name) => t := ScanWord(text, s, name, rest);
    case Suffix(name) => t := ScanWord(text, s, name, rest);
    case Lifetime(name) => t := ScanLifetime(text, s, name, rest);
  }

  lemma NameAfterTick(name: string, rest: string)
    requires name != "" && WordChars(name) && !StartsWith(rest, '\'')
    ensures Read(Tick, name + rest)
  {
    var w := name + rest;
    assert w[0] == name[0];
    assert |w| > 1 ==> w[1..][0] == w[1] && w[1] == if |name| > 1 then name[1] else rest[0];
  }

  // ---------- char literals ----------

  /** The scanner finds the end of a char literal exactly when it is short; it
      takes the opening quote of any other for a lifetime's. */
  lemma CharLiteralFound(text: string, i: nat, b: CharBody, rest: string)
    requires i <= |text| && text[i..] == ("'" + CharText(b) + "'") + rest && LegalChar(b)
    ensures ScanChar(text, i) == if ShortChar(b) then Some(i + |CharText(b)| + 2) else None
  {
    var lit := "'" + CharText(b) + "'";
    Within(text, i, lit, rest, 1);
    Within(text, i, lit, rest, 2);
    Within(text, i, lit, rest, |lit| - 1);
    match b
    case Unicode(digits) => UnicodeFound(text, i, digits, rest);
    case _ =>
  }

  lemma UnicodeFound(text: string, i: nat, digits: string, rest: string)
    requires i <= |text| && text[i..] == ("'" + CharText(Unicode(digits)) + "'") + rest && LegalChar(Unicode(digits))
    ensures ScanChar(text, i) == if |digits| <= 7 then Some(i + |digits| + 6) else None
  {
    var lit := "'" + CharText(Unicode(digits)) + "'";
    Ahead(text, i, lit, rest);
    assert text[i + 1] == lit[1] == '\\' && text[i + 2] == lit[2] == 'u' && text[i + 3] == lit[3] == '{';
    var close := i + 4 + |digits|;
    assert text[close] == lit[4 + |digits|] == '}' && text[close + 1] == lit[5 + |digits|] == '\'';
    forall k | i + 2 <= k < close ensures !At(text, k, '}') {
      assert text[k] == lit[k - i];
      assert k >= i + 4 ==> lit[k - i] == digits[k - i - 4];
    }
    assert At(text, close, '}');
    assert FindBrace(text, i + 2, i + 12) == if |digits| <= 7 then close else -1;
  }

  lemma ScanCharLit(text: string, s: Lexer, b: CharBody, rest: string) returns (t: Lexer)
    requires Ready(text, s) && text[s.i..] == ("'" + CharText(b) + "'") + rest && LegalChar(b) && ShortChar(b)
    ensures Run(text, s) == Run(text, t) && Ready(text, t) && t.starts == s.starts
    ensures t.i == s.i + |CharText(b)| + 2
  {
    var lit := "'" + CharText(b) + "'";
    CharLiteralFound(text, s.i, b, rest);
    NoNewlineInChar(b);
    NoNewlines(text, s.i, lit, rest);
    Within(text, s.i, lit, rest, 0);
    t := s.(i := s.i + |CharText(b)| + 2);
    QuoteStep(text, s, t);
    MoveKeepsLine(text, s, t);
  }

  lemma QuoteStep(text: string, s: Lexer, t: Lexer)
    requires s.mode == Normal && At(text, s.i, '\'') && ScanChar(text, s.i) == Some(t.i) && t == s.(i := t.i)
    ensures Run(text, s) == Run(text, t)
  {
    RunStep(text, s);
  }

  lemma NoNewlineInChar(b: CharBody)
    requires LegalChar(b)
    ensures '\n' !in "'" + CharText(b) + "'"
  {
    if b.Unicode? {
      assert '\n' !in "\\u{" + b.digits + "}";
    }
  }

  /** The dictionary after a comment at `s`, if the token is one. */
  function Noted(s: Lexer, comment: bool): map<nat, int> {
    if comment && s.lineno !in s.starts then s.starts[s.lineno := s.i - s.lineStart] else s.starts
  }

  lemma ScanLine(text: string, s: Lexer, body: string, rest: string) returns (t: Lexer)
    requires Ready(text, s) && text[s.i..] == ("//" + body) + rest && Fits(Line(body), rest)
    ensures Run(text, s) == Run(text, t) && Ready(text, t) && t.i == s.i + 2 + |body| && t.starts == Noted(s, true)
  {
    Within(text, s.i, "//" + body, rest, 0);
    Within(text, s.i, "//" + body, rest, 1);
    CommentEnd(text, s.i, body, rest);
    CommentStep(text, s);
    t := Step(text, s);
    MoveKeepsLine(text, s, t);
  }

  lemma CommentStep(text: string, s: Lexer)
    requires s.mode == Normal && At(text, s.i, '/') && At(text, s.i + 1, '/')
    ensures Run(text, s) == Run(text, Step(text, s))
    ensures Step(text, s) ==
            s.(i := FindNewline(text, s.i),
               starts := if s.lineno in s.starts then s.starts else s.starts[s.lineno := s.i - s.lineStart])
  {
  }

  lemma CommentEnd(text: string, i: nat, body: string, rest: string)
    requires i <= |text| && text[i..] == ("//" + body) + rest && Fits(Line(body), rest)
    ensures FindNewline(text, i) == i + 2 + |body|
  {
    NoNewlines(text, i, "//" + body, rest);
    Ahead(text, i, "//" + body, rest);
  }

  // ---------- strings ----------

  lemma ScanItem(text: string, s: Lexer, x: StringItem, more: string) returns (t: Lexer)
    requires OnLine(text, s) && s.mode == InString && !s.escaped && text[s.i..] == ItemText(x) + more
    requires x.Plain? ==> x.c != '"' && x.c != '\\'
    ensures Run(text, s) == Run(text, t) && OnLine(text, t) && t.i == s.i + |ItemText(x)| && text[t.i..] == more
    ensures t.mode == InString && !t.escaped && t.starts == s.starts
  {
    var item := ItemText(x);
    Ahead(text, s.i, item, more);
    assert text[s.i] == item[0];
    t := Step(text, s);
    StepKeepsLine(text, s);
    if x.Escaped? {
      assert text[s.i + 1] == item[1];
      StepKeepsLine(text, t);
      t := Step(text, t);
    }
  }

  lemma {:induction false} ScanItems(text: string, s: Lexer, items: seq<StringItem>, tail: string) returns (t: Lexer)
    requires OnLine(text, s) && s.mode == InString && !s.escaped
    requires text[s.i..] == ItemsText(items) + tail && Fits(Str("", items), tail)
    ensures Run(text, s) == Run(text, t) && OnLine(text, t) && t.i == s.i + |ItemsText(items)|
    ensures t.mode == InString && !t.escaped && t.starts == s.starts
    decreases |items|
  {
    if items == [] {
      t := s;
    } else {
      var more := ItemsText(items[1..]) + tail;
      var item := ItemText(items[0]);
      Assoc(item, ItemsText(items[1..]), tail);
      var u := ScanItem(text, s, items[0], more);
      t := ScanItems(text, u, items[1..], tail);
    }
  }

  /** From inside a string to behind its closing quote. */
  lemma ScanStringRest(text: string, s: Lexer, items: seq<StringItem>, rest: string) returns (t: Lexer)
    requires OnLine(text, s) && s.mode == InString && !s.escaped
    requires text[s.i..] == ItemsText(items) + ("\"" + rest) && Fits(Str("", items), rest)
    ensures Run(text, s) == Run(text, t) && Ready(text, t) && t.i == s.i + |ItemsText(items)| + 1
    ensures t.starts == s.starts
  {
    var u := ScanItems(text, s, items, "\"" + rest);
    Ahead(text, s.i, ItemsText(items), "\"" + rest);
    t := Step(text, u);
    StepKeepsLine(text, u);
  }

  lemma ScanStr(text: string, s: Lexer, prefix: string, items: seq<StringItem>, rest: string) returns (t: Lexer)
    requires Ready(text, s) && text[s.i..] == TokenText(Str(prefix, items)) + rest && Fits(Str(prefix, items), rest)
    ensures Run(text, s) == Run(text, t) && Ready(text, t) && t.starts == s.starts
    ensures t.i == s.i + |TokenText(Str(prefix, items))|
  {
    var tail := ItemsText(items) + ("\"" + rest);
    StrTokenText(prefix, items, rest);
    var u := StringOpens(text, s, prefix, tail);
    t := ScanStringRest(text, u, items, rest);
  }

  lemma {:induction false} StrTokenText(prefix: string, items: seq<StringItem>, rest: string)
    ensures TokenText(Str(prefix, items)) + rest == (prefix + "\"") + (ItemsText(items) + ("\"" + rest))
  {
  }

  lemma StringOpens(text: string, s: Lexer, prefix: string, tail: string) returns (t: Lexer)
    requires Ready(text, s) && (prefix == "" || prefix == "b" || prefix == "c")
    requires text[s.i..] == (prefix + "\"") + tail
    ensures Run(text, s) == Run(text, t) && OnLine(text, t) && t.mode == InString && !t.escaped
    ensures t.i == s.i + |prefix| + 1 && t.starts == s.starts && text[t.i..] == tail
  {
    var opening := prefix + "\"";
    Behind(text, s.i, opening, tail);
    Within(text, s.i, opening, tail, 0);
    Within(text, s.i, opening, tail, |prefix|);
    StringOpensStep(text, s, |prefix|);
    t := s.(i := s.i + |opening|, mode := InString, escaped := false);
    MoveKeepsLine(text, s, t);
  }

  lemma StringOpensStep(text: string, s: Lexer, n: nat)
    requires s.mode == Normal && n <= 1 && At(text, s.i + n, '"')
    requires n == 1 ==> At(text, s.i, 'b') || At(text, s.i, 'c')
    ensures Step(text, s) == s.(i := s.i + n + 1, mode := InString, escaped := false)
  {
  }

  // ---------- raw strings ----------

  /** One character of the body, which does not close the literal. */
  lemma ScanRawChar(text: string, s: Lexer) returns (t: Lexer)
    requires OnLine(text, s) && s.mode == InRaw && s.i < |text|
    requires text[s.i] == '"' ==> !HashesAt(text, s.i + 1, s.hashes)
    ensures Run(text, s) == Run(text, t) && OnLine(text, t) && t.i == s.i + 1
    ensures t.mode == InRaw && t.hashes == s.hashes && t.starts == s.starts
  {
    t := Step(text, s);
    StepKeepsLine(text, s);
  }

  lemma {:induction false} ScanRawBody(text: string, s: Lexer, body: string, from: nat, tail: string) returns (t: Lexer)
    requires OnLine(text, s) && s.mode == InRaw && from <= |body| && StaysOpen(body, s.hashes)
    requires text[s.i..] == body[from..] + ("\"" + tail)
    ensures Run(text, s) == Run(text, t) && OnLine(text, t) && t.i == s.i + |body| - from
    ensures t.mode == InRaw && t.hashes == s.hashes && t.starts == s.starts
    decreases |body| - from
  {
    if from == |body| {
      t := s;
    } else {
      BodyChar(text, s.i, body, from, tail);
      HashesWithin(text, s.i, body, from, tail, s.hashes);
      var u := ScanRawChar(text, s);
      t := ScanRawBody(text, u, body, from + 1, tail);
    }
  }

  lemma BodyChar(text: string, i: nat, body: string, from: nat, tail: string)
    requires i <= |text| && from < |body| && text[i..] == body[from..] + ("\"" + tail)
    ensures i < |text| && text[i] == body[from] && text[i + 1..] == body[from + 1..] + ("\"" + tail)
  {
    assert body[from..] == [body[from]] + body[from + 1..];
    Assoc([body[from]], body[from + 1..], "\"" + tail);
    Ahead(text, i, [body[from]], body[from + 1..] + ("\"" + tail));
  }

  /** Hashes behind a quote of the body are within the body. */
  lemma HashesWithin(text: string, i: nat, body: string, from: nat, tail: string, k: nat)
    requires i <= |text| && from < |body| && text[i..] == body[from..] + ("\"" + tail)
    ensures HashesAt(text, i + 1, k) ==> HashesAt(body, from + 1, k)
  {
    Ahead(text, i, body[from..], "\"" + tail);
    if HashesAt(text, i + 1, k) {
      assert text[i + |body| - from] == '"';
      assert i + 1 + k <= i + |body| - from;
      forall j | from + 1 <= j < from + 1 + k ensures body[j] == '#' {
        assert body[j] == body[from..][j - from] == text[i + j - from];
      }
    }
  }

  lemma SkipExactly(text: string, j: nat, k: nat, tail: string)
    requires j <= |text| && text[j..] == Hashes(k) + ("\"" + tail)
    ensures SkipHashes(text, j) == j + k && At(text, j + k, '"')
  {
    Ahead(text, j, Hashes(k), "\"" + tail);
    var h := SkipHashes(text, j);
    assert forall l :: j <= l < j + k ==> text[l] == Hashes(k)[l - j] == '#';
    assert h >= j + k by {
      assert h < j + k ==> At(text, h, '#');
    }
  }

  lemma RawPrefix(text: string, i: nat, prefix: string, k: nat, tail: string)
    requires i <= |text| && (prefix == "r" || prefix == "br" || prefix == "cr")
    requires text[i..] == prefix + (Hashes(k) + ("\"" + tail))
    ensures i < |text| && PrefixLetter(text, i) && Prefix(text, i) == prefix
    ensures text[i + |prefix|..] == Hashes(k) + ("\"" + tail)
  {
    var more := Hashes(k) + ("\"" + tail);
    Ahead(text, i, prefix, more);
    Within(text, i, prefix, more, 0);
    Within(text, i, prefix, more, |prefix| - 1);
    assert more[0] == '#' || more[0] == '"' by { assert k > 0 ==> more[0] == Hashes(k)[0]; }
  }

  lemma RawOpens(text: string, s: Lexer, prefix: string, k: nat, tail: string)
    requires OnLine(text, s) && s.mode == Normal && (prefix == "r" || prefix == "br" || prefix == "cr")
    requires text[s.i..] == prefix + (Hashes(k) + ("\"" + tail))
    ensures s.i < |text| && text[s.i] != '\n'
    ensures Step(text, s) == s.(i := s.i + |prefix| + k + 1, mode := InRaw, hashes := k)
  {
    RawPrefix(text, s.i, prefix, k, tail);
    SkipExactly(text, s.i + |prefix|, k, tail);
  }

  lemma ScanRawClose(text: string, s: Lexer, rest: string) returns (t: Lexer)
    requires OnLine(text, s) && s.mode == InRaw && text[s.i..] == ("\"" + Hashes(s.hashes)) + rest
    ensures Run(text, s) == Run(text, t) && Ready(text, t) && t.i == s.i + 1 + s.hashes && t.starts == s.starts
  {
    var closing := "\"" + Hashes(s.hashes);
    Ahead(text, s.i, closing, rest);
    assert text[s.i] == closing[0];
    assert forall j :: s.i + 1 <= j < s.i + 1 + s.hashes ==> text[j] == closing[j - s.i] == '#';
    t := Step(text, s);
    StepKeepsLine(text, s);
  }

  lemma ScanRawOpen(text: string, s: Lexer, prefix: string, k: nat, tail: string) returns (t: Lexer)
    requires Ready(text, s) && (prefix == "r" || prefix == "br" || prefix == "cr")
    requires text[s.i..] == prefix + (Hashes(k) + ("\"" + tail))
    ensures Run(text, s) == Run(text, t) && OnLine(text, t) && t.mode == InRaw && t.hashes == k
    ensures t.i == s.i + |prefix| + k + 1 && t.starts == s.starts && text[t.i..] == tail
  {
    RawOpens(text, s, prefix, k, tail);
    RunStep(text, s);
    t := s.(i := s.i + |prefix| + k + 1, mode := InRaw, hashes := k);
    BehindRawOpening(text, s.i, prefix, k, tail);
    MoveKeepsLine(text, s, t);
  }

  lemma BehindRawOpening(text: string, i: nat, prefix: string, k: nat, tail: string)
    requires i <= |text| && (prefix == "r" || prefix == "br" || prefix == "cr")
    requires text[i..] == prefix + (Hashes(k) + ("\"" + tail))
    ensures var j := i + |prefix| + k + 1;
            j <= |text| && text[j..] == tail && forall l :: i <= l < j ==> text[l] != '\n'
  {
    var opening := prefix + (Hashes(k) + "\"");
    Assoc(prefix, Hashes(k) + "\"", tail);
    Assoc(Hashes(k), "\"", tail);
    RawOpeningText(prefix, k);
    NoNewlines(text, i, opening, tail);
    Behind(text, i, opening, tail);
  }

  lemma NoNewlines(text: string, i: nat, a: string, b: string)
    requires i <= |text| && text[i..] == a + b && '\n' !in a
    ensures i + |a| <= |text| && forall k :: i <= k < i + |a| ==> text[k] != '\n'
  {
    Ahead(text, i, a, b);
    forall k | i <= k < i + |a| ensures text[k] != '\n' {
      assert text[i + (k - i)] == a[k - i];
    }
  }

  lemma ScanRaw(text: string, s: Lexer, prefix: string, k: nat, body: string, rest: string) returns (t: Lexer)
    requires Ready(text, s) && text[s.i..] == TokenText(Raw(prefix, k, body)) + rest && Fits(Raw(prefix, k, body), rest)
    ensures Run(text, s) == Run(text, t) && Ready(text, t) && t.starts == s.starts
    ensures t.i == s.i + |TokenText(Raw(prefix, k, body))|
  {
    RawTokenText(prefix, k, body, rest);
    var u := ScanRawOpen(text, s, prefix, k, body + ("\"" + (Hashes(k) + rest)));
    t := ScanRawRest(text, u, body, rest);
  }

  /** From inside a raw string to behind its closing quote and hashes. */
  lemma ScanRawRest(text: string, s: Lexer, body: string, rest: string) returns (t: Lexer)
    requires OnLine(text, s) && s.mode == InRaw && StaysOpen(body, s.hashes)
    requires text[s.i..] == body + ("\"" + (Hashes(s.hashes) + rest))
    ensures Run(text, s) == Run(text, t) && Ready(text, t) && t.starts == s.starts
    ensures t.i == s.i + |body| + 1 + s.hashes
  {
    var closing := "\"" + (Hashes(s.hashes) + rest);
    assert body[0..] == body;
    var u := ScanRawBody(text, s, body, 0, Hashes(s.hashes) + rest);
    Ahead(text, s.i, body, closing);
    Assoc("\"", Hashes(s.hashes), rest);
    t := ScanRawClose(text, u, rest);
  }

  lemma RawTokenText(prefix: string, k: nat, body: string, rest: string)
    ensures TokenText(Raw(prefix, k, body)) + rest ==
            prefix + (Hashes(k) + ("\"" + (body + ("\"" + (Hashes(k) + rest)))))
    ensures |TokenText(Raw(prefix, k, body))| == |prefix| + k + 1 + |body| + 1 + k
  {
    var h := Hashes(k);
    Assoc(prefix, h + ("\"" + (body + ("\"" + h))), rest);
    Assoc(h, "\"" + (body + ("\"" + h)), rest);
    Assoc("\"", body + ("\"" + h), rest);
    Assoc(body, "\"" + h, rest);
    Assoc("\"", h, rest);
  }

  lemma RawOpeningText(prefix: string, k: nat)
    requires prefix == "r" || prefix == "br" || prefix == "cr"
    ensures '\n' !in prefix + (Hashes(k) + "\"")
  {
    assert '\n' !in Hashes(k);
  }

  // ---------- block comments ----------

  /** Two characters that open or close a comment, in one turn. */
  lemma BlockMark(text: string, s: Lexer, mark: string, rest: string) returns (t: Lexer)
    requires OnLine(text, s) && s.mode == InBlock && (mark == "/*" || mark == "*/") && text[s.i..] == mark + rest
    ensures Run(text, s) == Run(text, t) && OnLine(text, t) && t.i == s.i + 2 && t.starts == s.starts && text[t.i..] == rest
    ensures t.depth == s.depth + (if mark == "/*" then 1 else -1)
    ensures t.mode == if t.depth == 0 && mark == "*/" then Normal else InBlock
  {
    Ahead(text, s.i, mark, rest);
    assert text[s.i] == mark[0] && text[s.i + 1] == mark[1];
    t := Step(text, s);
    StepKeepsLine(text, s);
  }

  lemma BlockChar(text: string, s: Lexer, c: char, rest: string) returns (t: Lexer)
    requires OnLine(text, s) && s.mode == InBlock && PartFits(Ch(c), rest) && text[s.i..] == [c] + rest
    ensures Run(text, s) == Run(text, t) && OnLine(text, t) && t.i == s.i + 1 && t.starts == s.starts && text[t.i..] == rest
    ensures t.depth == s.depth && t.mode == InBlock
  {
    Ahead(text, s.i, [c], rest);
    t := Step(text, s);
    assert t.i == s.i + 1 && t.mode == InBlock && t.starts == s.starts && t.depth == s.depth;
    StepKeepsLine(text, s);
  }

  lemma {:induction false} ScanParts(text: string, s: Lexer, parts: seq<Part>, tail: string) returns (t: Lexer)
    requires OnLine(text, s) && s.mode == InBlock && s.depth >= 1 && PartsFit(parts)
    requires text[s.i..] == PartsText(parts) + ("*/" + tail)
    ensures Run(text, s) == Run(text, t) && OnLine(text, t) && t.i == s.i + |PartsText(parts)|
    ensures t.mode == InBlock && t.depth == s.depth && t.starts == s.starts && text[t.i..] == "*/" + tail
    decreases parts, 1
  {
    if parts == [] {
      t := s;
      assert PartsText(parts) + ("*/" + tail) == "*/" + tail;
    } else {
      var u := ScanPart(text, s, parts, tail);
      t := ScanParts(text, u, parts[1..], tail);
    }
  }

  lemma {:induction false} ScanPart(text: string, s: Lexer, parts: seq<Part>, tail: string) returns (t: Lexer)
    requires OnLine(text, s) && s.mode == InBlock && s.depth >= 1 && parts != [] && PartsFit(parts)
    requires text[s.i..] == PartsText(parts) + ("*/" + tail)
    ensures Run(text, s) == Run(text, t) && OnLine(text, t) && t.i == s.i + |PartText(parts[0])|
    ensures t.mode == InBlock && t.depth == s.depth && t.starts == s.starts
    ensures text[t.i..] == PartsText(parts[1..]) + ("*/" + tail)
    decreases parts, 0
  {
    var more := PartsText(parts[1..]) + ("*/" + tail);
    Assoc(PartText(parts[0]), PartsText(parts[1..]), "*/" + tail);
    match parts[0]
    case Ch(c) =>
      assert more[0] == (PartsText(parts[1..]) + "*/")[0];
      t := BlockChar(text, s, c, more);
    case Nested(inner) => t := ScanNested(text, s, inner, more);
  }

  lemma {:induction false} ScanNested(text: string, s: Lexer, inner: seq<Part>, more: string) returns (t: Lexer)
    requires OnLine(text, s) && s.mode == InBlock && s.depth >= 1 && PartsFit(inner)
    requires text[s.i..] == ("/*" + (PartsText(inner) + "*/")) + more
    ensures Run(text, s) == Run(text, t) && OnLine(text, t) && t.i == s.i + |PartsText(inner)| + 4
    ensures t.mode == InBlock && t.depth == s.depth && t.starts == s.starts && text[t.i..] == more
    decreases inner, 2
  {
    NestedText(inner, more);
    var u := BlockMark(text, s, "/*", PartsText(inner) + ("*/" + more));
    var v := ScanParts(text, u, inner, more);
    t := BlockMark(text, v, "*/", more);
  }

  lemma {:induction false} NestedText(inner: seq<Part>, more: string)
    ensures ("/*" + (PartsText(inner) + "*/")) + more == "/*" + (PartsText(inner) + ("*/" + more))
  {
    Assoc("/*", PartsText(inner) + "*/", more);
    Assoc(PartsText(inner), "*/", more);
  }

  lemma ScanBlock(text: string, s: Lexer, parts: seq<Part>, rest: string) returns (t: Lexer)
    requires Ready(text, s) && text[s.i..] == TokenText(Block(parts)) + rest && PartsFit(parts)
    ensures Run(text, s) == Run(text, t) && Ready(text, t) && t.starts == s.starts
    ensures t.i == s.i + |TokenText(Block(parts))|
  {
    NestedText(parts, rest);
    var u := BlockOpens(text, s, PartsText(parts) + ("*/" + rest));
    var v := ScanParts(text, u, parts, rest);
    t := BlockMark(text, v, "*/", rest);
  }

  lemma BlockOpens(text: string, s: Lexer, more: string) returns (t: Lexer)
    requires Ready(text, s) && text[s.i..] == "/*" + more
    ensures Run(text, s) == Run(text, t) && OnLine(text, t) && t.mode == InBlock && t.depth == 1
    ensures t.i == s.i + 2 && t.starts == s.starts && text[t.i..] == more
  {
    Ahead(text, s.i, "/*", more);
    assert text[s.i] == '/' && text[s.i + 1] == '*';
    t := Step(text, s);
    StepKeepsLine(text, s);
  }

  lemma ScanLiteral(text: string, s: Lexer, tok: Token, rest: string) returns (t: Lexer)
    requires Literal(tok) && Ready(text, s) && text[s.i..] == TokenText(tok) + rest && Read(tok, rest)
    ensures Run(text, s) == Run(text, t) && Ready(text, t) && t.starts == s.starts && t.i == s.i + |TokenText(tok)|
  {
    match tok
    case CharLit(b) => t := ScanCharLit(text, s, b, rest);
    case Str(prefix, items) => t := ScanStr(text, s, prefix, items, rest);
    case Raw(prefix, k, body) => t := ScanRaw(text, s, prefix, k, body, rest);
  }

  lemma ScanOther(text: string, s: Lexer, tok: Token, rest: string) returns (t: Lexer)
    requires tok.Code? || tok.Tick? || tok.Block? || tok.Line?
    requires Ready(text, s) && text[s.i..] == TokenText(tok) + rest && Read(tok, rest)
    ensures Run(text, s) == Run(text, t) && Ready(text, t) && t.i == s.i + |TokenText(tok)|
    ensures t.starts == Noted(s, tok.Line?)
  {
    match tok
    case Code(c) => t := ScanCode(text, s, c, rest);
    case Tick => t := ScanTick(text, s, rest);
    case Block(parts) => t := ScanBlock(text, s, parts, rest);
    case Line(body) => t := ScanLine(text, s, body, rest);
  }

  /** Scanning any token the scanner reads ends right behind it, between tokens,
      and notes a comment exactly when the token is a line comment. */
  lemma ScanToken(text: string, s: Lexer, tok: Token, rest: string) returns (t: Lexer)
    requires Ready(text, s) && text[s.i..] == TokenText(tok) + rest && Read(tok, rest)
    ensures Run(text, s) == Run(text, t) && Ready(text, t) && t.i == s.i + |TokenText(tok)| && text[t.i..] == rest
    ensures t.starts == Noted(s, tok.Line?)
  {
    Behind(text, s.i, TokenText(tok), rest);
    if Literal(tok) {
      t := ScanLiteral(text, s, tok, rest);
    } else if tok.Space? || tok.Word? || tok.Suffix? || tok.Lifetime? {
      t := ScanName(text, s, tok, rest);
    } else {
      t := ScanOther(text, s, tok, rest);
    }
  }

  // ---------- the whole text ----------

  /** Line and column of token `j`. */
  function Position(tokens: seq<Token>, j: nat): (nat, int)
    requires j <= |tokens|
  {
    (LineNo(Text(tokens[..j])), Column(Text(tokens[..j])))
  }

  /** Where the line comments among the first `k` tokens are. */
  ghost function Comments(tokens: seq<Token>, k: nat): set<(nat, int)>
    requires k <= |tokens|
  {
    set j | 0 <= j < k && tokens[j].Line? :: Position(tokens, j)
  }

  /** The scanner's dictionary as lines and columns. */
  ghost function Reported(starts: map<nat, int>): set<(nat, int)> {
    set l | l in starts :: (l, starts[l])
  }

  lemma {:induction false} TextSplit(tokens: seq<Token>, k: nat)
    requires k <= |tokens|
    ensures Text(tokens) == Text(tokens[..k]) + Text(tokens[k..])
    decreases k
  {
    if k == 0 {
      assert tokens[..k] == [] && tokens[k..] == tokens;
    } else {
      var first, middle, last := TokenText(tokens[0]), tokens[..k][1..], tokens[k..];
      TextSplit(tokens[1..], k - 1);
      assert tokens[1..][..k - 1] == middle && tokens[1..][k - 1..] == last;
      Assoc(first, Text(middle), Text(last));
      assert Text(tokens[..k]) == first + Text(middle);
    }
  }

  lemma {:induction false} ReadFrom(tokens: seq<Token>, k: nat)
    requires k < |tokens| && AllRead(tokens)
    ensures Read(tokens[k], Text(tokens[k + 1..]))
    decreases k
  {
    if k > 0 {
      ReadFrom(tokens[1..], k - 1);
      assert tokens[1..][k..] == tokens[k + 1..];
    }
  }

  lemma {:induction false} LineNoMonotone(text: string, i: nat, j: nat)
    requires i <= j <= |text|
    ensures LineNo(text[..i]) <= LineNo(text[..j])
    decreases j - i
  {
    if i < j {
      LineNoMonotone(text, i, j - 1);
      assert text[..j][..j - 1] == text[..j - 1];
    }
  }

  /** The comments noted so far are on lines already begun, and one on the
      current line leaves nothing but its end. */
  ghost predicate Settled(text: string, s: Lexer) {
    (forall l :: l in s.starts ==> l <= s.lineno) &&
    (s.lineno in s.starts ==> s.i >= |text| || text[s.i] == '\n')
  }

  lemma StaysSettled(text: string, s: Lexer, t: Lexer, line: bool)
    requires OnLine(text, s) && OnLine(text, t) && Settled(text, s) && s.i < t.i <= |text|
    requires t.starts == Noted(s, line)
    requires line ==> text[s.i] != '\n' && (t.i == |text| || text[t.i] == '\n')
    ensures Settled(text, t)
    ensures line ==> s.lineno !in s.starts
  {
    LineNoMonotone(text, s.i, t.i);
    if s.lineno in s.starts {
      NextLine(text, s.i);
      LineNoMonotone(text, s.i + 1, t.i);
    }
  }

  lemma LineEnds(text: string, i: nat, tok: Token, rest: string)
    requires i <= |text| && tok.Line? && text[i..] == TokenText(tok) + rest && Fits(tok, rest)
    ensures var j := i + |TokenText(tok)|;
            i < j <= |text| && text[i] != '\n' && (j == |text| || text[j] == '\n')
  {
    Ahead(text, i, TokenText(tok), rest);
    assert text[i] == TokenText(tok)[0] == '/';
  }

  /** The scanner stands before token `k` and has noted the comments before it. */
  ghost predicate Reached(tokens: seq<Token>, k: nat, s: Lexer) {
    k <= |tokens| && Ready(Text(tokens), s) && Settled(Text(tokens), s) &&
    s.i == |Text(tokens[..k])| && Reported(s.starts) == Comments(tokens, k)
  }

  lemma {:induction false} PositionHere(tokens: seq<Token>, k: nat, s: Lexer)
    requires k < |tokens| && OnLine(Text(tokens), s) && s.i == |Text(tokens[..k])|
    ensures Position(tokens, k) == (s.lineno, s.i - s.lineStart)
  {
    TokenHere(tokens, k);
    assert Text(tokens)[..s.i] == Text(tokens[..k]);
  }

  lemma {:induction false} ScanNext(tokens: seq<Token>, k: nat, s: Lexer) returns (t: Lexer)
    requires k < |tokens| && AllRead(tokens) && Reached(tokens, k, s)
    ensures Run(Text(tokens), s) == Run(Text(tokens), t) && Reached(tokens, k + 1, t)
  {
    ReadFrom(tokens, k);
    t := ScanNextToken(tokens, k, s);
    PositionHere(tokens, k, s);
    NextComments(tokens, k, s.starts, t.starts);
  }

  /** The same, with the dictionary still to be compared. */
  lemma {:induction false} ScanNextToken(tokens: seq<Token>, k: nat, s: Lexer) returns (t: Lexer)
    requires k < |tokens| && Read(tokens[k], Text(tokens[k + 1..]))
    requires Ready(Text(tokens), s) && Settled(Text(tokens), s) && s.i == |Text(tokens[..k])|
    ensures Run(Text(tokens), s) == Run(Text(tokens), t) && Ready(Text(tokens), t) && Settled(Text(tokens), t)
    ensures t.i == |Text(tokens[..k + 1])|
    ensures tokens[k].Line? ==> s.lineno !in s.starts
    ensures t.starts == if tokens[k].Line? then s.starts[s.lineno := s.i - s.lineStart] else s.starts
  {
    TokenHere(tokens, k);
    t := ScanSettled(Text(tokens), s, tokens[k], Text(tokens[k + 1..]));
  }

  lemma ScanSettled(text: string, s: Lexer, tok: Token, rest: string) returns (t: Lexer)
    requires Ready(text, s) && Settled(text, s) && text[s.i..] == TokenText(tok) + rest && Read(tok, rest)
    ensures Run(text, s) == Run(text, t) && Ready(text, t) && Settled(text, t) && t.i == s.i + |TokenText(tok)|
    ensures tok.Line? ==> s.lineno !in s.starts
    ensures t.starts == Noted(s, tok.Line?)
  {
    t := ScanToken(text, s, tok, rest);
    if tok.Line? {
      LineEnds(text, s.i, tok, rest);
    }
    StaysSettled(text, s, t, tok.Line?);
  }

  lemma {:induction false} ScanFrom(tokens: seq<Token>, k: nat, s: Lexer)
    requires AllRead(tokens) && Reached(tokens, k, s)
    ensures Reported(Run(Text(tokens), s)) == Comments(tokens, |tokens|)
    decreases |tokens| - k
  {
    if k == |tokens| {
      assert tokens[..k] == tokens;
    } else {
      var t := ScanNext(tokens, k, s);
      ScanFrom(tokens, k + 1, t);
    }
  }

  lemma {:induction false} TokenHere(tokens: seq<Token>, k: nat)
    requires k < |tokens|
    ensures var text, at := Text(tokens), |Text(tokens[..k])|;
            at <= |text| && text[..at] == Text(tokens[..k]) && text[at..] == TokenText(tokens[k]) + Text(tokens[k + 1..]) &&
            |Text(tokens[..k + 1])| == at + |TokenText(tokens[k])|
  {
    TextSplit(tokens, k);
    TextSplit(tokens, k + 1);
    assert tokens[k..][0] == tokens[k] && tokens[k..][1..] == tokens[k + 1..];
  }

  lemma NextComments(tokens: seq<Token>, k: nat, before: map<nat, int>, after: map<nat, int>)
    requires k < |tokens| && Reported(before) == Comments(tokens, k)
    requires tokens[k].Line? ==> Position(tokens, k).0 !in before
    requires after == if tokens[k].Line? then before[Position(tokens, k).0 := Position(tokens, k).1] else before
    ensures Reported(after) == Comments(tokens, k + 1)
  {
    var p := Position(tokens, k);
    if tokens[k].Line? {
      ReportedInsert(before, p.0, p.1);
      assert Comments(tokens, k + 1) == Comments(tokens, k) + {p};
    } else {
      assert Comments(tokens, k + 1) == Comments(tokens, k);
    }
  }

  lemma ReportedInsert(m: map<nat, int>, k: nat, v: int)
    requires k !in m
    ensures Reported(m[k := v]) == Reported(m) + {(k, v)}
  {
    var n := m[k := v];
    forall q | q in Reported(m) + {(k, v)} ensures q in Reported(n) {
      if q == (k, v) {
        assert k in n && q == (k, n[k]);
      } else {
        var l :| l in m && q == (l, m[l]);
        assert l in n && q == (l, n[l]);
      }
    }
  }

  /** The scanner reports exactly the line and column of each line comment. */
  ghost predicate Correct(tokens: seq<Token>) {
    Reported(Run(Text(tokens), INITIAL)) == Comments(tokens, |tokens|)
  }

  lemma ScanReads(tokens: seq<Token>)
    requires AllRead(tokens)
    ensures Correct(tokens)
  {
    assert Text(tokens)[..0] == "" && tokens[..0] == [];
    ScanFrom(tokens, 0, INITIAL);
  }

  /** On every Rust text whose char literals are short, and in which no word
      that ends in `r` touches a string, the scanner is right. */
  lemma ScanFindsComments(tokens: seq<Token>)
    requires WellFormed(tokens) && ShortLiterals(tokens) && Apart(tokens)
    ensures Correct(tokens)
  {
    ReadableIsRead(tokens, false);
    ScanReads(tokens);
  }

  // ---------- char literals that are too long ----------

  function Codes(s: string): (r: seq<Token>)
    ensures |r| == |s| && forall i :: 0 <= i < |r| ==> r[i] == Code(s[i])
  {
    if s == "" then [] else [Code(s[0])] + Codes(s[1..])
  }

  /** A character that is code wherever it stands, or a letter with such a
      character behind it. */
  predicate PlainCode(s: string) {
    forall i :: 0 <= i < |s| ==>
      s[i] != '"' && s[i] != '\'' && s[i] != '/' && s[i] != 'r' && ((s[i] == 'b' || s[i] == 'c') ==> i + 1 < |s|)
  }

  lemma PlainCodeFits(s: string, more: string)
    requires s != "" && PlainCode(s)
    ensures Read(Code(s[0]), s[1..] + more)
  {
    var after := s[1..] + more;
    assert |s| > 1 ==> after[0] == s[1];
    assert ([s[0]] + after)[1..] == after;
  }

  lemma FirstRead(t: Token, more: seq<Token>)
    requires Read(t, Text(more)) && AllRead(more)
    ensures AllRead([t] + more) && Text([t] + more) == TokenText(t) + Text(more)
  {
    assert ([t] + more)[1..] == more;
  }

  /** Every character of `w` is code before the rest and `more`. */
  predicate Skipped(w: string, more: string) {
    w == "" || (Read(Code(w[0]), w[1..] + more) && Skipped(w[1..], more))
  }

  lemma {:induction false} SkippedRead(w: string, more: seq<Token>)
    requires Skipped(w, Text(more)) && AllRead(more)
    ensures Text(Codes(w) + more) == w + Text(more) && AllRead(Codes(w) + more)
    decreases |w|
  {
    if w == "" {
      assert Codes(w) + more == more;
    } else {
      SkippedRead(w[1..], more);
      FirstRead(Code(w[0]), Codes(w[1..]) + more);
      Assoc([Code(w[0])], Codes(w[1..]), more);
      Assoc([w[0]], w[1..], Text(more));
      assert w == [w[0]] + w[1..];
    }
  }

  lemma {:induction false} PlainSkipped(s: string, more: string)
    requires PlainCode(s)
    ensures Skipped(s, more)
    decreases |s|
  {
    if s != "" {
      PlainCodeFits(s, more);
      PlainSkipped(s[1..], more);
    }
  }

  /** A char literal, another that holds a double quote, and a comment. */
  function Program(b: CharBody): seq<Token> {
    [CharLit(b), Code(','), CharLit(Single("\"")), Line("\"")]
  }

  /** The same text as the scanner reads it when the first literal is too long. */
  function Misreading(b: CharBody): seq<Token> {
    [Tick] + (Codes(CharText(b)) + Tail())
  }

  function Tail(): seq<Token> {
    [CharLit(Single(",")), Str("", [Plain('\''), Plain('/'), Plain('/')])]
  }

  lemma TailRead()
    ensures AllRead(Tail()) && Text(Tail()) == "','\"'//\""
  {
    var str := Tail()[1];
    assert Tail()[1..] == [str];
    assert [str][1..] == [];
    assert ItemsText([Plain('/')]) == "/" by { assert [Plain('/')][1..] == []; }
    assert ItemsText([Plain('/'), Plain('/')]) == "//" by { assert [Plain('/'), Plain('/')][1..] == [Plain('/')]; }
    assert ItemsText(str.items) == "'//" by { assert str.items[1..] == [Plain('/'), Plain('/')]; }
    assert TokenText(str) == "\"'//\"";
    assert Text([str]) == TokenText(str) + "";
  }

  /** The tokens behind the first literal. */
  lemma {:induction false} ProgramRest()
    ensures var rest := [Code(','), CharLit(Single("\"")), Line("\"")];
            Lexed(rest, true) && Text(rest) == ",'\"'//\""
  {
    var x, y, z := Code(','), CharLit(Single("\"")), Line("\"");
    assert [x, y, z][1..] == [y, z] && [y, z][1..] == [z] && [z][1..] == [];
    assert Text([z]) == "//\"" && Lexed([z], true);
    assert Text([y, z]) == "'\"'//\"" && Lexed([y, z], false);
    assert Fits(x, Text([y, z]));
  }

  lemma {:induction false} ProgramText(b: CharBody)
    ensures Text(Program(b)) == ("'" + CharText(b)) + "','\"'//\""
    ensures LegalChar(b) ==> WellFormed(Program(b))
  {
    ProgramRest();
    assert Program(b)[1..] == [Code(','), CharLit(Single("\"")), Line("\"")];
    assert ("'" + CharText(b) + "'") + ",'\"'//\"" == ("'" + CharText(b)) + "','\"'//\"";
  }

  lemma LongIsPlain(b: CharBody)
    requires LegalChar(b) && !ShortChar(b)
    ensures PlainCode(CharText(b))
  {
    var s := CharText(b);
    if b.Unicode? {
      forall i | 0 <= i < |s|
        ensures s[i] != '"' && s[i] != '\'' && s[i] != '/' && s[i] != 'r' && ((s[i] == 'b' || s[i] == 'c') ==> i + 1 < |s|)
      {
        assert 3 <= i < 3 + |b.digits| ==> s[i] == b.digits[i - 3];
      }
    }
  }

  lemma LongTick(b: CharBody, more: string)
    requires LegalChar(b) && !ShortChar(b)
    ensures Read(Tick, CharText(b) + more)
  {
    var s := CharText(b);
    var rest := s + more;
    assert forall k :: 0 <= k < |s| ==> rest[k] == s[k];
    if b.Unicode? {
      assert forall k :: 3 <= k < 3 + |b.digits| ==> s[k] == b.digits[k - 3];
      assert CutOff(rest);
    } else {
      assert rest[1..][0] == s[1];
    }
  }

  lemma LongIsMisread(b: CharBody)
    requires LegalChar(b) && !ShortChar(b)
    ensures AllRead(Misreading(b)) && Text(Misreading(b)) == Text(Program(b))
  {
    LongIsPlain(b);
    TailRead();
    PlainSkipped(CharText(b), Text(Tail()));
    SkippedRead(CharText(b), Tail());
    ProgramText(b);
    LongTick(b, Text(Tail()));
    FirstRead(Tick, Codes(CharText(b)) + Tail());
    Assoc("'", CharText(b), Text(Tail()));
  }

  lemma NothingReported(tokens: seq<Token>)
    requires Correct(tokens) && NoComment(tokens)
    ensures Run(Text(tokens), INITIAL) == map[]
  {
    var found := Run(Text(tokens), INITIAL);
    assert Comments(tokens, |tokens|) == {};
    if l :| l in found {
      IsReported(found, l);
    }
  }

  lemma IsReported(starts: map<nat, int>, l: nat)
    requires l in starts
    ensures (l, starts[l]) in Reported(starts)
  {
  }

  lemma MissedComment(tokens: seq<Token>, j: nat)
    requires Run(Text(tokens), INITIAL) == map[] && j < |tokens| && tokens[j].Line?
    ensures !Correct(tokens)
  {
    assert Position(tokens, j) in Comments(tokens, |tokens|);
  }

  /** After any literal that is too long the scanner can miss a comment. */
  lemma {:induction false} LongCharHidesComment(b: CharBody)
    requires LegalChar(b) && !ShortChar(b)
    ensures WellFormed(Program(b)) && Run(Text(Program(b)), INITIAL) == map[] && !Correct(Program(b))
  {
    ProgramText(b);
    NothingFound(b);
    MissedComment(Program(b), 3);
  }

  lemma {:induction false} NothingFound(b: CharBody)
    requires LegalChar(b) && !ShortChar(b)
    ensures Run(Text(Program(b)), INITIAL) == map[]
  {
    LongIsMisread(b);
    var tokens := Misreading(b);
    ScanReads(tokens);
    forall j | 0 <= j < |tokens| ensures !tokens[j].Line? {
      assert 1 <= j < 1 + |CharText(b)| ==> tokens[j] == Codes(CharText(b))[j - 1];
    }
    NothingReported(tokens);
  }

  /** All char literals but `b` are short. */
  predicate ShortBut(tokens: seq<Token>, b: CharBody) {
    forall i :: 0 <= i < |tokens| && tokens[i].CharLit? ==> ShortChar(tokens[i].literal) || tokens[i].literal == b
  }

  /** The condition is exact: the scanner is right on every Rust text in which
      `b` may occur beside short literals, exactly when `b` is short. */
  lemma ShortIsExact(b: CharBody)
    requires LegalChar(b)
    ensures ShortChar(b) <==>
            forall tokens :: WellFormed(tokens) && ShortBut(tokens, b) && Apart(tokens) ==> Correct(tokens)
  {
    if ShortChar(b) {
      forall tokens | WellFormed(tokens) && ShortBut(tokens, b) && Apart(tokens) ensures Correct(tokens) {
        ScanFindsComments(tokens);
      }
    } else {
      LongCharHidesComment(b);
      ProgramIsApart(b);
    }
  }

  lemma {:induction false} ProgramIsApart(b: CharBody)
    ensures ShortBut(Program(b), b) && Apart(Program(b))
  {
    NoWordsApart(Program(b));
  }

  lemma {:induction false} NoWordsApart(tokens: seq<Token>)
    requires forall i :: 0 <= i < |tokens| ==> !EndsInR(tokens[i])
    ensures Apart(tokens)
    decreases |tokens|
  {
    if tokens != [] {
      NoWordsApart(tokens[1..]);
    }
  }

  /** The character of the largest code point, its digits set apart by
      underscores: the comment at column 21 is missed. */
  lemma LongEscapeDesynchronizes()
    ensures Run(("'" + CharText(Unicode("1_0_F_F_F_F"))) + "','\"'//\"", INITIAL) == map[]
  {
    ProgramText(Unicode("1_0_F_F_F_F"));
    LongCharHidesComment(Unicode("1_0_F_F_F_F"));
  }

  /** A character of two bytes, e with an acute accent: the comment at column 8
      is missed. */
  lemma MultiByteCharDesynchronizes()
    ensures Run(("'" + ['\U{C3}', '\U{A9}']) + "','\"'//\"", INITIAL) == map[]
  {
    var b := Single(['\U{C3}', '\U{A9}']);
    ProgramText(b);
    LongCharHidesComment(b);
  }

  // ---------- words that end in r before a string ----------

  /** A string that holds an escaped quote and two slashes. */
  const QUOTED: Token := Str("", [Escaped('"'), Plain('/'), Plain('/')])

  lemma QuotedText()
    ensures TokenText(QUOTED) == "\"\\\"//\"" && Text([QUOTED]) == "\"\\\"//\""
  {
    assert [Plain('/')][1..] == [];
    assert [Plain('/'), Plain('/')][1..] == [Plain('/')];
    assert QUOTED.items[1..] == [Plain('/'), Plain('/')];
    assert ItemsText([Plain('/')]) == "/";
    assert ItemsText([Plain('/'), Plain('/')]) == "//";
    assert ItemsText(QUOTED.items) == "\\\"//";
    assert [QUOTED][1..] == [];
  }

  predicate RawLetters(p: string) { p == "r" || p == "br" || p == "cr" }

  /** The scanner finds no longer prefix than `p` at the end of `w + p`. */
  predicate Longest(w: string, p: string) {
    RawLetters(p) && (p == "r" && w != "" ==> w[|w| - 1] != 'b' && w[|w| - 1] != 'c')
  }

  lemma SplitName(name: string) returns (w: string, p: string)
    requires WordChars(name) && LastIsR(name)
    ensures name == w + p && Longest(w, p) && WordChars(w)
  {
    var n := |name|;
    var k := if n > 1 && (name[n - 2] == 'b' || name[n - 2] == 'c') then n - 2 else n - 1;
    w, p := name[..k], name[k..];
  }

  /** What the scanner takes the end of the word and the string behind it for. */
  function FalseEnd(p: string): seq<Token> { [Raw(p, 0, "\\"), Line("\"")] }

  lemma {:induction false} FalseEndRead(p: string)
    requires RawLetters(p)
    ensures AllRead(FalseEnd(p)) && Text(FalseEnd(p)) == p + "\"\\\"//\""
  {
    var raw, line := Raw(p, 0, "\\"), Line("\"");
    assert FalseEnd(p)[1..] == [line] && [line][1..] == [];
    assert Text([line]) == "//\"" && AllRead([line]);
    RawTokenText(p, 0, "\\", "//\"");
    assert Hashes(0) + "//\"" == "//\"";
    assert Hashes(0) + ("\"" + ("\\" + ("\"" + "//\""))) == "\"\\\"//\"";
  }

  /** In front of the prefix the scanner sees no string open. */
  lemma NoneOpensBefore(w: string, p: string, more: string)
    requires w != "" && WordChars(w) && Longest(w, p)
    ensures Read(Code(w[0]), w[1..] + (p + more))
  {
    var rest := w[1..] + (p + more);
    var s := [w[0]] + rest;
    assert s[1..] == rest;
    assert rest[0] == if |w| > 1 then w[1] else p[0];
    if |w| + |p| > 2 {
      assert s[2..][0] == rest[1] == if |w| > 2 then w[2] else p[2 - |w|];
    }
  }

  lemma {:induction false} WordSkipped(w: string, p: string, more: string)
    requires WordChars(w) && Longest(w, p)
    ensures Skipped(w, p + more)
    decreases |w|
  {
    if w != "" {
      NoneOpensBefore(w, p, more);
      WordSkipped(w[1..], p, more);
    }
  }

  /** A token before a string, behind an empty string if it is a suffix. */
  function Touching(t: Token): seq<Token> {
    if t.Suffix? then [Str("", []), t, QUOTED] else [t, QUOTED]
  }

  /** A token that ends in `r` and may stand before a quote: a word that is the
      prefix of a raw string does not. */
  predicate Misleading(t: Token) {
    EndsInR(t) && !(t.Word? && (t.name == "r" || t.name == "br" || t.name == "cr"))
  }

  lemma {:induction false} TouchingFits(t: Token)
    requires Misleading(t) && IsWord(t.name)
    ensures WellFormed(Touching(t))
  {
    QuotedText();
    WordBeforeQuote(t);
    var pair := [t, QUOTED];
    assert pair[1..] == [QUOTED] && [QUOTED][1..] == [];
    assert Lexed([QUOTED], false) && Lexed(pair, t.Suffix?);
    if t.Suffix? {
      assert Touching(t)[1..] == pair;
    }
  }

  /** What is in front of the name. */
  function Lead(t: Token): seq<Token> {
    if t.Suffix? then [Str("", [])] else if t.Lifetime? then [Tick] else []
  }

  lemma {:induction false} LeadText(t: Token)
    ensures Text(Lead(t)) == if t.Suffix? then "\"\"" else if t.Lifetime? then "'" else ""
    ensures '\n' !in Text(Lead(t))
  {
    if Lead(t) != [] {
      assert Lead(t)[1..] == [];
      assert TokenText(Str("", [])) == "\"\"";
    }
  }

  lemma {:induction false} TouchingText(t: Token)
    requires EndsInR(t)
    ensures Text(Touching(t)) == Text(Lead(t)) + (t.name + "\"\\\"//\"")
  {
    QuotedText();
    LeadText(t);
    var pair := [t, QUOTED];
    assert pair[1..] == [QUOTED];
    assert Text(pair) == TokenText(t) + "\"\\\"//\"";
    if t.Suffix? {
      assert Touching(t)[1..] == pair;
    } else if t.Lifetime? {
      Assoc("'", t.name, "\"\\\"//\"");
    }
  }

  lemma WordBeforeQuote(t: Token)
    requires Misleading(t) && IsWord(t.name)
    ensures Fits(t, "\"\\\"//\"")
  {
    var s := t.name + "\"\\\"//\"";
    assert forall i :: 0 <= i < |t.name| ==> s[i] == t.name[i];
    if |t.name| > 1 {
      assert s[1..][0] == s[1] == t.name[1];
      if |t.name| > 2 {
        assert s[2..][0] == s[2] == t.name[2];
      }
    }
  }

  /** The scanner's reading: the lead, the letters, a raw string and a comment. */
  lemma {:induction false} MisreadRead(t: Token, w: string, p: string)
    requires EndsInR(t) && t.name == w + p && WordChars(t.name) && WordChars(w) && Longest(w, p)
    ensures var tokens := Lead(t) + (Codes(w) + FalseEnd(p));
            AllRead(tokens) && Text(tokens) == Text(Touching(t))
  {
    var q := "\"\\\"//\"";
    FalseEndRead(p);
    WordSkipped(w, p, q);
    SkippedRead(w, FalseEnd(p));
    Assoc(w, p, q);
    TouchingText(t);
    NameAfterTick(t.name, q);
    LeadRead(t, Codes(w) + FalseEnd(p));
  }

  lemma {:induction false} LeadRead(t: Token, more: seq<Token>)
    requires AllRead(more) && Read(Tick, Text(more))
    ensures AllRead(Lead(t) + more) && Text(Lead(t) + more) == Text(Lead(t)) + Text(more)
  {
    LeadText(t);
    if t.Suffix? {
      EmptyFirst(more);
    } else if t.Lifetime? {
      FirstRead(Tick, more);
    } else {
      assert Lead(t) + more == more;
    }
  }

  lemma {:induction false} EmptyFirst(more: seq<Token>)
    requires AllRead(more)
    ensures AllRead([Str("", [])] + more) && Text([Str("", [])] + more) == "\"\"" + Text(more)
  {
    FirstRead(Str("", []), more);
    assert TokenText(Str("", [])) == "\"\"";
  }

  predicate NoComment(tokens: seq<Token>) { forall i :: 0 <= i < |tokens| ==> !tokens[i].Line? }

  /** If only the last token is a comment, on the first line, it is all that is
      reported. */
  lemma {:induction false} OneComment(before: seq<Token>, last: Token)
    requires Correct(before + [last]) && NoComment(before) && last.Line? && '\n' !in Text(before)
    ensures Run(Text(before + [last]), INITIAL) == map[1 := |Text(before)|]
  {
    var tokens, text := before + [last], Text(before);
    assert tokens[..|before|] == before;
    SameLine(text, 0, |text|);
    assert text[..|text|] == text && text[..0] == "";
    assert Position(tokens, |before|) == (1, |text|);
    OneCommentAt(tokens, |before|);
    OnlyOne(Run(Text(tokens), INITIAL), 1, |text|);
  }

  lemma {:induction false} OneCommentAt(tokens: seq<Token>, k: nat)
    requires k < |tokens| && forall i :: 0 <= i < |tokens| ==> (tokens[i].Line? <==> i == k)
    ensures Comments(tokens, |tokens|) == {Position(tokens, k)}
  {
  }

  lemma OnlyOne(starts: map<nat, int>, line: nat, column: int)
    requires Reported(starts) == {(line, column)}
    ensures starts == map[line := column]
  {
    forall l | l in starts ensures (l, starts[l]) == (line, column) {
      IsReported(starts, l);
    }
    assert (line, column) in Reported(starts);
  }

  lemma {:induction false} FalselyReported(t: Token)
    requires EndsInR(t) && WordChars(t.name)
    ensures Run(Text(Touching(t)), INITIAL) == map[1 := |Text(Touching(t))| - 3]
  {
    var before := FalseStart(t);
    ReportedOnce(before, "\"");
  }

  lemma {:induction false} FalseStart(t: Token) returns (before: seq<Token>)
    requires EndsInR(t) && WordChars(t.name)
    ensures NoComment(before) && Correct(before + [Line("\"")]) && '\n' !in Text(before + [Line("\"")])
    ensures Text(before + [Line("\"")]) == Text(Touching(t))
  {
    NoNewlineTouching(t);
    var w, p := SplitName(t.name);
    MisreadRead(t, w, p);
    before := BeforeComment(t, w, p);
    ScanReads(before + [Line("\"")]);
  }

  lemma {:induction false} BeforeComment(t: Token, w: string, p: string) returns (before: seq<Token>)
    ensures Lead(t) + (Codes(w) + FalseEnd(p)) == before + [Line("\"")] && NoComment(before)
  {
    before := Lead(t) + (Codes(w) + [Raw(p, 0, "\\")]);
  }

  /** The same for the text. */
  lemma {:induction false} ReportedOnce(before: seq<Token>, body: string)
    requires Correct(before + [Line(body)]) && NoComment(before) && '\n' !in Text(before + [Line(body)])
    ensures var text := Text(before + [Line(body)]);
            Run(text, INITIAL) == map[1 := |text| - |body| - 2]
  {
    LastOff(before, Line(body));
    OneComment(before, Line(body));
  }

  lemma {:induction false} LastOff(before: seq<Token>, last: Token)
    ensures Text(before + [last]) == Text(before) + TokenText(last)
  {
    var tokens := before + [last];
    TextSplit(tokens, |before|);
    assert tokens[..|before|] == before && tokens[|before|..] == [last] && [last][1..] == [];
  }

  lemma {:induction false} NoNewlineTouching(t: Token)
    requires EndsInR(t) && WordChars(t.name)
    ensures '\n' !in Text(Touching(t))
  {
    TouchingText(t);
    LeadText(t);
    assert '\n' !in t.name;
    assert '\n' !in "\"\\\"//\"";
  }

  /** Behind any word, suffix or lifetime that ends in `r` the scanner can report
      a comment where there is none. */
  lemma {:induction false} WordFakesComment(t: Token)
    requires Misleading(t) && IsWord(t.name)
    ensures WellFormed(Touching(t)) && NoComment(Touching(t))
    ensures Run(Text(Touching(t)), INITIAL) == map[1 := |Text(Touching(t))| - 3] && !Correct(Touching(t))
  {
    TouchingFits(t);
    FalselyReported(t);
    FalseIsWrong(Touching(t), 1, |Text(Touching(t))| - 3);
  }

  lemma FalseIsWrong(tokens: seq<Token>, line: nat, column: int)
    requires Run(Text(tokens), INITIAL) == map[line := column] && NoComment(tokens)
    ensures !Correct(tokens)
  {
    assert line in map[line := column];
    if Correct(tokens) {
      NothingReported(tokens);
    }
  }

  /** Only `t` may touch a string with an `r` at its end. */
  predicate ApartBut(tokens: seq<Token>, t: Token) {
    tokens == [] ||
    ((EndsInR(tokens[0]) && tokens[0] != t ==> !OpensRaw(Text(tokens[1..]))) && ApartBut(tokens[1..], t))
  }

  /** This condition is exact too. */
  lemma ApartIsExact(t: Token)
    requires (t.Word? || t.Suffix? || t.Lifetime?) && IsWord(t.name)
    ensures !Misleading(t) <==>
            forall tokens :: WellFormed(tokens) && ShortLiterals(tokens) && ApartBut(tokens, t) ==> Correct(tokens)
  {
    if Misleading(t) {
      WordFakesComment(t);
      OnlyItTouches(t);
    } else {
      forall tokens | WellFormed(tokens) && ShortLiterals(tokens) && ApartBut(tokens, t) ensures Correct(tokens) {
        HarmlessIsApart(tokens, t, false);
        ScanFindsComments(tokens);
      }
    }
  }

  lemma {:induction false} OnlyItTouches(t: Token)
    requires EndsInR(t)
    ensures ApartBut(Touching(t), t) && ShortLiterals(Touching(t))
  {
    var pair := [t, QUOTED];
    assert pair[1..] == [QUOTED] && [QUOTED][1..] == [];
    assert ApartBut([QUOTED], t) && ApartBut(pair, t);
    if t.Suffix? {
      assert Touching(t)[1..] == pair;
    }
  }

  lemma {:induction false} HarmlessIsApart(tokens: seq<Token>, t: Token, behindLiteral: bool)
    requires Lexed(tokens, behindLiteral) && ApartBut(tokens, t) && !Misleading(t)
    ensures Apart(tokens)
    decreases |tokens|
  {
    if tokens != [] {
      if tokens[0] == t && EndsInR(t) {
        HarmlessFits(t, Text(tokens[1..]));
      }
      HarmlessIsApart(tokens[1..], t, Literal(tokens[0]));
    }
  }

  /** A word that is a raw string's prefix stands before no quote. */
  lemma HarmlessFits(t: Token, rest: string)
    requires EndsInR(t) && !Misleading(t) && Fits(t, rest)
    ensures !OpensRaw(rest)
  {
    if OpensRaw(rest) {
      PrefixOpens(t.name, rest);
    }
  }

  lemma PrefixOpens(p: string, rest: string)
    requires (p == "r" || p == "br" || p == "cr") && OpensRaw(rest)
    ensures OpensString(p + rest)
  {
    var s := p + rest;
    assert s[|p|..] == rest;
    assert |p| == 2 ==> s[1..][0] == 'r';
  }

  /** The lifetime `'r` before a string: the slashes inside it, at column 5, are
      taken for a comment. */
  lemma {:induction false} LifetimeFakesComment(text: string)
    requires text == "'" + ("r" + "\"\\\"//\"")
    ensures WellFormed([Lifetime("r"), QUOTED]) && Text([Lifetime("r"), QUOTED]) == text
    ensures Run(text, INITIAL) == map[1 := 5]
  {
    var t := Lifetime("r");
    assert Touching(t) == [t, QUOTED];
    TouchingFits(t);
    TouchingText(t);
    LeadText(t);
    FalselyReported(t);
  }

  // ---------- the code ----------

  /** `b` stands at `i`, between its quotes. */
  predicate LiteralAt(text: string, i: nat, b: CharBody) {
    var end := i + |CharText(b)| + 2;
    end <= |text| && text[i..end] == "'" + CharText(b) + "'"
  }

  /** Finds the end of every char literal that is short, and of no other. */
  method ScanCharLiteral(text: string, i: nat) returns (r: Option<nat>)
    requires i < |text|
    ensures r == ScanChar(text, i)
    ensures forall b :: LegalChar(b) && LiteralAt(text, i, b) ==>
              r == if ShortChar(b) then Some(i + |CharText(b)| + 2) else None
  {
    forall b | LegalChar(b) && LiteralAt(text, i, b)
      ensures ScanChar(text, i) == if ShortChar(b) then Some(i + |CharText(b)| + 2) else None
    {
      var end := i + |CharText(b)| + 2;
      assert text[i..] == text[i..end] + text[end..];
      CharLiteralFound(text, i, b, text[end..]);
    }
    if i + 1 >= |text| {
      return None;
    }
    if text[i + 1] == '\\' {
      var j := i + 2;
      if j < |text| && text[j] == 'x' {
        j := j + 3;
      } else if j < |text| && text[j] == 'u' {
        var k := FindBrace(text, j, j + 10);
        j := if k != -1 then k + 1 else j + 1;
      } else {
        j := j + 1;
      }
      return if j < |text| && text[j] == '\'' then Some(j + 1) else None;
    }
    if i + 2 < |text| && text[i + 2] == '\'' {
      return Some(i + 3);
    }
    return None;
  }

  method ReadPrefix(text: string, i: nat) returns (prefix: string, j: nat)
    requires i < |text|
    ensures prefix == Prefix(text, i) && j == i + |prefix|
  {
    prefix, j := "", i;
    while j < |text| && (text[j] == 'b' || text[j] == 'r' || text[j] == 'c') && |prefix| < 2
      invariant i <= j <= |text| && j == i + |prefix| && |prefix| <= 2
      invariant forall k :: i <= k < j ==> PrefixLetter(text, k) && prefix[k - i] == text[k]
    {
      prefix := prefix + [text[j]];
      j := j + 1;
    }
  }

  method CountHashes(text: string, j: nat) returns (h: nat)
    requires j <= |text|
    ensures h == SkipHashes(text, j)
  {
    h := j;
    while h < |text| && text[h] == '#'
      invariant j <= h <= |text| && SkipHashes(text, h) == SkipHashes(text, j)
    {
      h := h + 1;
    }
  }

  /** A turn of the loop in normal mode, at a letter that may begin a string. */
  method PrefixTurn(text: string, s: Lexer) returns (t: Lexer)
    requires s.i < |text| && PrefixLetter(text, s.i)
    ensures t == PrefixStep(text, s)
  {
    var prefix, j := ReadPrefix(text, s.i);
    if prefix == "r" || prefix == "br" || prefix == "cr" {
      var h := CountHashes(text, j);
      if h < |text| && text[h] == '"' {
        return s.(i := h + 1, mode := InRaw, hashes := h - j);
      }
    }
    if (prefix == "b" || prefix == "c") && j < |text| && text[j] == '"' {
      return s.(i := j + 1, mode := InString, escaped := false);
    }
    return s.(i := s.i + 1);
  }

  method NormalTurn(text: string, s: Lexer) returns (t: Lexer)
    requires s.i < |text| && text[s.i] != '\n'
    ensures t == NormalStep(text, s)
  {
    var i, c := s.i, text[s.i];
    if c == '/' && i + 1 < |text| && text[i + 1] == '/' {
      var starts := s.starts;
      if s.lineno !in starts {
        starts := starts[s.lineno := i - s.lineStart];
      }
      return s.(i := FindNewline(text, i), starts := starts);
    }
    if c == '/' && i + 1 < |text| && text[i + 1] == '*' {
      return s.(i := i + 2, mode := InBlock, depth := 1);
    }
    if c == '"' {
      return s.(i := i + 1, mode := InString, escaped := false);
    }
    if c == 'r' || c == 'b' || c == 'c' {
      t := PrefixTurn(text, s);
      return;
    }
    if c == '\'' {
      var e := ScanCharLiteral(text, i);
      return s.(i := if e.Some? then e.value else i + 1);
    }
    return s.(i := i + 1);
  }

  /** Every text is scanned to its end; on Rust with short char literals, and no
      word that ends in `r` before a string, the result is exactly the line
      comments. */
  method LineCommentStarts(text: string) returns (starts: map<nat, int>)
    ensures starts == Run(text, INITIAL)
    ensures forall tokens :: WellFormed(tokens) && ShortLiterals(tokens) && Apart(tokens) && Text(tokens) == text ==>
              Reported(starts) == Comments(tokens, |tokens|)
  {
    var s := INITIAL;
    while s.i < |text|
      invariant Run(text, s) == Run(text, INITIAL)
      decreases |text| - s.i
    {
      var i, c := s.i, text[s.i];
      ghost var next := Step(text, s);
      if c == '\n' {
        s := s.(i := i + 1, lineno := s.lineno + 1, lineStart := i + 1, escaped := false);
      } else if s.mode == Normal {
        s := NormalTurn(text, s);
      } else if s.mode == InString {
        if s.escaped {
          s := s.(escaped := false);
        } else if c == '\\' {
          s := s.(escaped := true);
        } else if c == '"' {
          s := s.(mode := Normal);
        }
        s := s.(i := i + 1);
      } else if s.mode == InRaw {
        if c == '"' && HashesAt(text, i + 1, s.hashes) {
          s := s.(i := i + 1 + s.hashes, mode := Normal);
        } else {
          s := s.(i := i + 1);
        }
      } else {
        if c == '/' && i + 1 < |text| && text[i + 1] == '*' {
          s := s.(i := i + 2, depth := s.depth + 1);
        } else if c == '*' && i + 1 < |text| && text[i + 1] == '/' {
          s := s.(i := i + 2, depth := s.depth - 1);
          if s.depth == 0 {
            s := s.(mode := Normal);
          }
        } else {
          s := s.(i := i + 1);
        }
      }
      assert s == next;
    }
    starts := s.starts;
    forall tokens | WellFormed(tokens) && ShortLiterals(tokens) && Apart(tokens) && Text(tokens) == text
      ensures Reported(starts) == Comments(tokens, |tokens|)
    {
      ScanFindsComments(tokens);
    }
  }
}
