/**
  Canonical identifiers of decoded JSON (go/pkg/otel/assert/equiv.go).

  Objects are compared up to key order and arrays up to the order of their
  elements, at every depth: keys and element identifiers are sorted before they
  are written.  A number is represented by the shortest decimal text that
  `strconv.FormatFloat` prints for it, which differs between different floats.
  `pr` is the character class `strconv.IsPrint`, which quoting consults.
 */
module CanonicalJson {
  import opened Ordering
  import opened Options
  import opened Texts

  datatype Json =
    | Null
    | Bool(b: bool)
    | Number(text: string)
    | Str(s: string)
    | Arr(items: seq<Json>)
    | Obj(fields: map<string, Json>)

  // ---------- quoting ----------

  function LowerHexDigit(d: nat): char
    requires d < 16
  {
    if d < 10 then ('0' as int + d) as char else ('a' as int + d - 10) as char
  }

  function Hex(n: nat, k: nat): (s: string)
    ensures |s| == k
  {
    if k == 0 then "" else Hex(n / 16, k - 1) + [LowerHexDigit(n % 16)]
  }

  /** `n` has no more than `k` hexadecimal digits. */
  predicate FitsHex(n: nat, k: nat) {
    if k == 0 then n == 0 else FitsHex(n / 16, k - 1)
  }

  function HexValue(c: char): int {
    if '0' <= c <= '9' then c as int - '0' as int else c as int - 'a' as int + 10
  }

  /** The number that hexadecimal digits stand for. */
  function HexNumber(s: string): int {
    if s == "" then 0 else 16 * HexNumber(s[..|s| - 1]) + HexValue(s[|s| - 1])
  }

  lemma {:induction false} HexReads(n: nat, k: nat)
    requires FitsHex(n, k)
    ensures HexNumber(Hex(n, k)) == n
  {
    if k > 0 {
      HexReads(n / 16, k - 1);
      assert Hex(n, k)[..k - 1] == Hex(n / 16, k - 1);
    }
  }

  /** The letter after the backslash for the control characters that have one. */
  function ShortEscape(c: char): string {
    match c as int
    case 7 => "a"
    case 8 => "b"
    case 12 => "f"
    case 10 => "n"
    case 13 => "r"
    case 9 => "t"
    case 11 => "v"
    case _ => ""
  }

  /** One character inside a Go-quoted string. */
  function Escape(c: char, pr: char -> bool): (s: string)
    ensures s != "" && s[0] != '"'
  {
    if c == '"' || c == '\\' then ['\\', c]
    else if pr(c) then [c]
    else if ShortEscape(c) != "" then ['\\'] + ShortEscape(c)
    else if c < ' ' || c as int == 0x7f then ['\\', 'x'] + Hex(c as int, 2)
    else if c as int < 0x1_0000 then ['\\', 'u'] + Hex(c as int, 4)
    else ['\\', 'U'] + Hex(c as int, 8)
  }

  function EscapeAll(s: string, pr: char -> bool): string {
    if s == "" then "" else Escape(s[0], pr) + EscapeAll(s[1..], pr)
  }

  function Quote(s: string, pr: char -> bool): string { "\"" + EscapeAll(s, pr) + "\"" }

  lemma {:induction false} CharFitsHex(c: char)
    ensures c as int < 0x100 ==> FitsHex(c as int, 2)
    ensures c as int < 0x1_0000 ==> FitsHex(c as int, 4)
    ensures FitsHex(c as int, 8)
  {
    FewerDigits(c as int, 2, 0x100);
    FewerDigits(c as int, 4, 0x1_0000);
    FewerDigits(c as int, 8, 0x1_0000_0000);
  }

  lemma {:induction false} FewerDigits(n: nat, k: nat, most: nat)
    requires (k == 2 && most == 0x100) || (k == 4 && most == 0x1_0000) || (k == 8 && most == 0x1_0000_0000)
    ensures n < most ==> FitsHex(n, k)
  {
    if n < most {
      var a := n / 16 / 16;
      assert FitsHex(n, k) == FitsHex(n / 16, k - 1) == FitsHex(a, k - 2);
      if k == 4 {
        FewerDigits(a, 2, 0x100);
      } else if k == 8 {
        var b := a / 16 / 16;
        assert FitsHex(a, 6) == FitsHex(a / 16, 5) == FitsHex(b, 4);
        FewerDigits(b, 4, 0x1_0000);
      }
    }
  }

  // ---------- reading a quoted string ----------

  predicate Scalar(n: int) { 0 <= n < 0xd800 || 0xe000 <= n < 0x11_0000 }

  /** One character that is written as `k` hexadecimal digits. */
  function ReadHex(s: string, k: nat): (r: Option<(char, string)>)
    ensures r.Some? ==> |r.value.1| <= |s|
  {
    if k <= |s| && Scalar(HexNumber(s[..k])) then Some((HexNumber(s[..k]) as char, s[k..])) else None
  }

  /** The character a letter stands for behind a backslash. */
  function Unescape(c: char): Option<char> {
    if c == '"' || c == '\\' then Some(c)
    else if c == 'a' then Some('\U{07}')
    else if c == 'b' then Some('\U{08}')
    else if c == 't' then Some('\U{09}')
    else if c == 'n' then Some('\U{0a}')
    else if c == 'v' then Some('\U{0b}')
    else if c == 'f' then Some('\U{0c}')
    else if c == 'r' then Some('\U{0d}')
    else None
  }

  /** One character of a quoted string, and what follows it. */
  function ReadChar(s: string): (r: Option<(char, string)>)
    requires s != ""
    ensures r.Some? ==> |r.value.1| < |s|
  {
    if s[0] != '\\' then Some((s[0], s[1..]))
    else if |s| < 2 then None
    else if s[1] == 'x' then ReadHex(s[2..], 2)
    else if s[1] == 'u' then ReadHex(s[2..], 4)
    else if s[1] == 'U' then ReadHex(s[2..], 8)
    else
      var c := Unescape(s[1]);
      if c.Some? then Some((c.value, s[2..])) else None
  }

  /** The characters up to the closing quote. */
  function ReadString(s: string): (r: Option<(string, string)>)
    ensures r.Some? ==> |r.value.1| < |s|
    decreases |s|
  {
    if s == "" then None
    else if s[0] == '"' then Some(("", s[1..]))
    else
      var first := ReadChar(s);
      if first.None? then None
      else
        var rest := ReadString(first.value.1);
        if rest.Some? then Some(([first.value.0] + rest.value.0, rest.value.1)) else None
  }

  lemma HexCharReads(c: char, k: nat, x: string)
    requires k == 2 || k == 4 || k == 8
    requires FitsHex(c as int, k)
    ensures ReadHex(Hex(c as int, k) + x, k) == Some((c, x))
  {
    var h := Hex(c as int, k);
    HexReads(c as int, k);
    assert (h + x)[..k] == h && (h + x)[k..] == x;
  }

  /** An escaped character is read back from any context. */
  lemma EscapeReads(c: char, pr: char -> bool, x: string)
    ensures ReadChar(Escape(c, pr) + x) == Some((c, x))
  {
    var e := Escape(c, pr);
    var s := e + x;
    assert s[0] == e[0];
    if e[0] != '\\' {
      assert s[1..] == x;
    } else {
      assert s[1] == e[1] && s[2..] == e[2..] + x;
      EscapedReads(c, pr, x);
    }
  }

  lemma EscapedReads(c: char, pr: char -> bool, x: string)
    requires Escape(c, pr)[0] == '\\'
    ensures var e := Escape(c, pr);
            |e| >= 2 &&
            (if e[1] == 'x' then ReadHex(e[2..] + x, 2)
             else if e[1] == 'u' then ReadHex(e[2..] + x, 4)
             else if e[1] == 'U' then ReadHex(e[2..] + x, 8)
             else if Unescape(e[1]).Some? then Some((Unescape(e[1]).value, e[2..] + x))
             else None) == Some((c, x))
  {
    var e := Escape(c, pr);
    CharFitsHex(c);
    if e[1] == 'x' {
      HexCharReads(c, 2, x);
      assert e[2..] == Hex(c as int, 2);
    } else if e[1] == 'u' {
      HexCharReads(c, 4, x);
      assert e[2..] == Hex(c as int, 4);
    } else if e[1] == 'U' {
      HexCharReads(c, 8, x);
      assert e[2..] == Hex(c as int, 8);
    } else {
      assert e[2..] + x == x;
    }
  }

  lemma {:induction false} EscapedFirst(s: string, pr: char -> bool, w: string)
    requires s != ""
    ensures EscapeAll(s, pr) + w == Escape(s[0], pr) + (EscapeAll(s[1..], pr) + w)
    ensures (EscapeAll(s, pr) + w)[0] != '"'
  {
    var first, rest := Escape(s[0], pr), EscapeAll(s[1..], pr);
    assert EscapeAll(s, pr) == first + rest;
    assert first + rest + w == first + (rest + w);
  }

  /** What is quoted is read back. */
  lemma {:induction false} StringReads(s: string, pr: char -> bool, x: string)
    ensures ReadString(EscapeAll(s, pr) + ("\"" + x)) == Some((s, x))
    decreases |s|
  {
    if s == "" {
      assert EscapeAll(s, pr) + ("\"" + x) == "\"" + x;
      assert ("\"" + x)[1..] == x;
    } else {
      var more := EscapeAll(s[1..], pr) + ("\"" + x);
      EscapedFirst(s, pr, "\"" + x);
      EscapeReads(s[0], pr, more);
      StringReads(s[1..], pr, x);
      NextReads(EscapeAll(s, pr) + ("\"" + x), s[0], more, s[1..], x);
      assert s == [s[0]] + s[1..];
    }
  }

  lemma {:induction false} NextReads(s: string, c: char, more: string, t: string, x: string)
    requires s != "" && s[0] != '"' && ReadChar(s) == Some((c, more)) && ReadString(more) == Some((t, x))
    ensures ReadString(s) == Some(([c] + t, x))
  {
  }

  lemma {:induction false} QuoteSplit(s: string, t: string, pr: char -> bool, x: string, y: string)
    requires Quote(s, pr) + x == Quote(t, pr) + y
    ensures s == t && x == y
  {
    Regroup("\"", EscapeAll(s, pr), "\"", x);
    Regroup("\"", EscapeAll(t, pr), "\"", y);
    Drop("\"", EscapeAll(s, pr) + ("\"" + x), EscapeAll(t, pr) + ("\"" + y));
    StringReads(s, pr, x);
    StringReads(t, pr, y);
  }

  // ---------- identifiers ----------

  function Join(parts: seq<string>): string {
    if parts == [] then "" else if |parts| == 1 then parts[0] else parts[0] + "," + Join(parts[1..])
  }

  ghost function Id(j: Json, pr: char -> bool): string
    decreases j, 1
  {
    match j
    case Null => "null"
    case Bool(b) => if b then "true" else "false"
    case Number(text) => text
    case Str(s) => Quote(s, pr)
    case Arr(items) => "[" + Join(Sort(Ids(j, items, pr), Codes)) + "]"
    case Obj(fields) => "{" + Join(Members(j, SortedStrings(fields.Keys), pr)) + "}"
  }

  ghost function Ids(whole: Json, items: seq<Json>, pr: char -> bool): (r: seq<string>)
    requires forall i :: 0 <= i < |items| ==> items[i] < whole
    ensures |r| == |items| && forall i :: 0 <= i < |r| ==> r[i] == Id(items[i], pr)
    decreases whole, 0, |items|
  {
    if items == [] then [] else [Id(items[0], pr)] + Ids(whole, items[1..], pr)
  }

  ghost function Member(key: string, id: string): string { "\"" + key + "\":" + id }

  ghost function Members(obj: Json, keys: seq<string>, pr: char -> bool): (r: seq<string>)
    requires obj.Obj? && forall k :: k in keys ==> k in obj.fields
    ensures |r| == |keys|
    ensures forall i :: 0 <= i < |r| ==> r[i] == Member(keys[i], Id(obj.fields[keys[i]], pr))
    decreases obj, 0, |keys|
  {
    if keys == [] then []
    else
      assert keys[0] in keys;
      [Member(keys[0], Id(obj.fields[keys[0]], pr))] + Members(obj, keys[1..], pr)
  }

  // ---------- what callers must respect ----------

  predicate NumberChar(c: char) { '0' <= c <= '9' || c == '-' || c == '.' }

  /** Keys contain no quote, which the identifier does not escape in keys, and
      numbers are decimal texts. */
  predicate Readable(j: Json) {
    match j
    case Number(text) => text != "" && forall i :: 0 <= i < |text| ==> NumberChar(text[i])
    case Arr(items) => forall i :: 0 <= i < |items| ==> Readable(items[i])
    case Obj(fields) => forall k :: k in fields ==> '"' !in k && Readable(fields[k])
    case _ => true
  }

  // ---------- equality up to order ----------

  /** Equal up to key order and the order of array elements at every depth. */
  ghost predicate Same(a: Json, b: Json)
    decreases a, 1
  {
    match (a, b)
    case (Null, Null) => true
    case (Bool(x), Bool(y)) => x == y
    case (Number(x), Number(y)) => x == y
    case (Str(x), Str(y)) => x == y
    case (Arr(xs), Arr(ys)) => Rearranged(a, xs, ys)
    case (Obj(f), Obj(g)) => f.Keys == g.Keys && forall k :: k in f && k in g ==> Same(f[k], g[k])
    case _ => false
  }

  /** `ys` is an arrangement of `xs`: the first of `xs` is somewhere in `ys`, and
      the rest of `ys` is an arrangement of the rest. */
  ghost predicate Rearranged(whole: Json, xs: seq<Json>, ys: seq<Json>)
    requires forall i :: 0 <= i < |xs| ==> xs[i] < whole
    decreases whole, 0, |xs|
  {
    if xs == [] then ys == []
    else exists j :: 0 <= j < |ys| && Same(xs[0], ys[j]) && Rearranged(whole, xs[1..], Without(ys, j))
  }

  function Without<T>(xs: seq<T>, j: nat): (r: seq<T>)
    requires j < |xs|
    ensures |r| == |xs| - 1
  {
    xs[..j] + xs[j + 1..]
  }

  // ---------- unique readability ----------

  predicate Delimiter(c: char) { c == ',' || c == ']' || c == '}' }

  /** What can come after an identifier. */
  predicate Follows(x: string) { x == "" || Delimiter(x[0]) }

  /** However two such texts are continued, they are told apart. */
  ghost predicate Apart(p: string, q: string) {
    forall u, v :: Follows(u) && Follows(v) && p + u == q + v ==> p == q && u == v
  }

  predicate Starts(p: string) { p != "" && !Delimiter(p[0]) }

  /** What follows the first of several joined parts. */
  function AfterFirst(parts: seq<string>, x: string): (r: string)
    requires parts != []
    ensures Follows(x) ==> Follows(r)
  {
    if |parts| == 1 then x else "," + (Join(parts[1..]) + x)
  }

  lemma JoinFirst(parts: seq<string>, x: string)
    requires parts != []
    ensures Join(parts) + x == parts[0] + AfterFirst(parts, x)
  {
  }

  lemma {:induction false} JoinSplit(ps: seq<string>, qs: seq<string>, c: char, x: string, y: string)
    requires Delimiter(c) && c != ','
    requires forall i :: 0 <= i < |ps| ==> Starts(ps[i])
    requires forall i :: 0 <= i < |qs| ==> Starts(qs[i])
    requires forall i, j :: 0 <= i < |ps| && 0 <= j < |qs| ==> Apart(ps[i], qs[j])
    requires Join(ps) + ([c] + x) == Join(qs) + ([c] + y)
    ensures ps == qs && x == y
    decreases |ps|
  {
    OnlyEmptyCloses(ps, c, x);
    OnlyEmptyCloses(qs, c, y);
    if ps == [] {
      assert "" + ([c] + x) == [c] + x && "" + ([c] + y) == [c] + y;
      Drop([c], x, y);
    } else {
      JoinFirst(ps, [c] + x);
      JoinFirst(qs, [c] + y);
      assert Apart(ps[0], qs[0]);
      AfterFirstSplit(ps, qs, c, x, y);
      if |ps| > 1 {
        JoinSplit(ps[1..], qs[1..], c, x, y);
      }
      assert ps == [ps[0]] + ps[1..] && qs == [qs[0]] + qs[1..];
    }
  }

  lemma OnlyEmptyCloses(parts: seq<string>, c: char, x: string)
    requires Delimiter(c) && forall i :: 0 <= i < |parts| ==> Starts(parts[i])
    ensures (Join(parts) + ([c] + x))[0] == c <==> parts == []
  {
    if parts != [] {
      JoinFirst(parts, [c] + x);
      assert (Join(parts) + ([c] + x))[0] == parts[0][0];
    }
  }

  lemma AfterFirstSplit(ps: seq<string>, qs: seq<string>, c: char, x: string, y: string)
    requires ps != [] && qs != [] && c != ','
    requires AfterFirst(ps, [c] + x) == AfterFirst(qs, [c] + y)
    ensures |ps| == 1 <==> |qs| == 1
    ensures |ps| == 1 ==> x == y
    ensures |ps| > 1 ==> Join(ps[1..]) + ([c] + x) == Join(qs[1..]) + ([c] + y)
  {
    assert AfterFirst(ps, [c] + x)[0] == AfterFirst(qs, [c] + y)[0];
    if |ps| == 1 {
      Drop([c], x, y);
    } else {
      Drop(",", Join(ps[1..]) + ([c] + x), Join(qs[1..]) + ([c] + y));
    }
  }

  lemma NumberSplit(m: string, n: string, u: string, v: string)
    requires forall i :: 0 <= i < |m| ==> NumberChar(m[i])
    requires forall i :: 0 <= i < |n| ==> NumberChar(n[i])
    requires Follows(u) && Follows(v) && m + u == n + v
    ensures m == n && u == v
  {
    var s, t := m + u, n + v;
    assert |m| >= |n| by {
      assert forall i :: 0 <= i < |n| ==> NumberChar(t[i]);
      assert u != "" ==> s[|m|] == u[0];
    }
    assert |n| >= |m| by {
      assert forall i :: 0 <= i < |m| ==> NumberChar(s[i]);
      assert v != "" ==> t[|n|] == v[0];
    }
    assert m == s[..|m|] && n == t[..|n|];
    Drop(m, u, v);
  }

  lemma {:induction false} IdStarts(j: Json, pr: char -> bool)
    requires Readable(j)
    ensures Starts(Id(j, pr))
  {
  }

  lemma {:induction false} MemberSplit(k: string, l: string, p: string, q: string, u: string, v: string)
    requires '"' !in k && '"' !in l && Apart(p, q) && Follows(u) && Follows(v)
    requires Member(k, p) + u == Member(l, q) + v
    ensures k == l && p == q && u == v
  {
    MemberText(k, p, u);
    MemberText(l, q, v);
    Drop("\"", k + ['"'] + (":" + (p + u)), l + ['"'] + (":" + (q + v)));
    SplitAtDelimiter(k, l, '"', ":" + (p + u), ":" + (q + v));
    Drop(":", p + u, q + v);
  }

  lemma MemberText(k: string, p: string, u: string)
    ensures Member(k, p) + u == "\"" + (k + ['"'] + (":" + (p + u)))
  {
    assert "\":" == ['"'] + ":";
  }

  function Kind(j: Json): char {
    match j
    case Null => 'n'
    case Bool(b) => if b then 't' else 'f'
    case Number(_) => '0'
    case Str(_) => '"'
    case Arr(_) => '['
    case Obj(_) => '{'
  }

  /** The first character of an identifier tells its kind. */
  lemma {:induction false} IdKind(j: Json, pr: char -> bool)
    requires Readable(j)
    ensures Id(j, pr) != "" && Kind(j) == if NumberChar(Id(j, pr)[0]) then '0' else Id(j, pr)[0]
  {
  }

  lemma {:induction false} IdSplit(a: Json, b: Json, pr: char -> bool, u: string, v: string)
    requires Readable(a) && Readable(b) && Follows(u) && Follows(v) && Id(a, pr) + u == Id(b, pr) + v
    ensures Id(a, pr) == Id(b, pr) && u == v
    decreases a, 1
  {
    IdKind(a, pr);
    IdKind(b, pr);
    assert Id(a, pr)[0] == (Id(a, pr) + u)[0] && Id(b, pr)[0] == (Id(b, pr) + v)[0];
    match a
    case Arr(_) => ArraysApart(a, b, pr, u, v);
    case Obj(_) => ObjectsApart(a, b, pr, u, v);
    case Str(x) => QuoteSplit(x, b.s, pr, u, v);
    case Number(x) => NumberSplit(x, b.text, u, v);
    case Null => Drop(Id(a, pr), u, v);
    case Bool(_) => Drop(Id(a, pr), u, v);
  }

  /** Identifiers form a code that can be read back from any context. */
  lemma {:induction false} IdsApart(a: Json, b: Json, pr: char -> bool)
    requires Readable(a) && Readable(b)
    ensures Apart(Id(a, pr), Id(b, pr))
    decreases a, 2
  {
    forall u, v | Follows(u) && Follows(v) && Id(a, pr) + u == Id(b, pr) + v
      ensures Id(a, pr) == Id(b, pr) && u == v
    {
      IdSplit(a, b, pr, u, v);
    }
  }

  /** Bracketed lists of told-apart parts are told apart. */
  lemma {:induction false} BracketSplit(ps: seq<string>, qs: seq<string>, o: string, c: char, u: string, v: string)
    requires Delimiter(c) && c != ','
    requires forall i :: 0 <= i < |ps| ==> Starts(ps[i])
    requires forall i :: 0 <= i < |qs| ==> Starts(qs[i])
    requires forall i, j :: 0 <= i < |ps| && 0 <= j < |qs| ==> Apart(ps[i], qs[j])
    requires o + Join(ps) + [c] + u == o + Join(qs) + [c] + v
    ensures ps == qs && u == v
  {
    Regroup(o, Join(ps), [c], u);
    Regroup(o, Join(qs), [c], v);
    Drop(o, Join(ps) + ([c] + u), Join(qs) + ([c] + v));
    JoinSplit(ps, qs, c, u, v);
  }

  /** The identifiers written for the elements of an array. */
  ghost function Elements(a: Json, pr: char -> bool): (r: seq<string>)
    requires a.Arr?
  {
    Sort(Ids(a, a.items, pr), Codes)
  }

  lemma {:induction false} ElementSource(a: Json, pr: char -> bool, i: nat) returns (m: nat)
    requires a.Arr? && i < |Elements(a, pr)|
    ensures m < |a.items| && Elements(a, pr)[i] == Id(a.items[m], pr)
  {
    SortMembers(Ids(a, a.items, pr), Codes);
    assert Elements(a, pr)[i] in Ids(a, a.items, pr);
    m :| 0 <= m < |a.items| && Ids(a, a.items, pr)[m] == Elements(a, pr)[i];
  }

  lemma {:induction false} ElementStarts(a: Json, pr: char -> bool)
    requires a.Arr? && Readable(a)
    ensures forall i :: 0 <= i < |Elements(a, pr)| ==> Starts(Elements(a, pr)[i])
  {
    forall i | 0 <= i < |Elements(a, pr)| ensures Starts(Elements(a, pr)[i]) {
      var m := ElementSource(a, pr, i);
      IdStarts(a.items[m], pr);
    }
  }

  lemma {:induction false} ArraysApart(a: Json, b: Json, pr: char -> bool, u: string, v: string)
    requires a.Arr? && b.Arr? && Readable(a) && Readable(b) && Id(a, pr) + u == Id(b, pr) + v
    ensures Elements(a, pr) == Elements(b, pr) && u == v
    decreases a, 0
  {
    var ps, qs := Elements(a, pr), Elements(b, pr);
    ElementStarts(a, pr);
    ElementStarts(b, pr);
    forall i, j | 0 <= i < |ps| && 0 <= j < |qs| ensures Apart(ps[i], qs[j]) {
      var m := ElementSource(a, pr, i);
      var n := ElementSource(b, pr, j);
      IdsApart(a.items[m], b.items[n], pr);
    }
    BracketSplit(ps, qs, "[", ']', u, v);
  }

  /** The members written for an object, sorted by key. */
  ghost function Body(a: Json, pr: char -> bool): (r: seq<string>)
    requires a.Obj?
  {
    Members(a, SortedStrings(a.fields.Keys), pr)
  }

  lemma {:induction false} BodyStarts(a: Json, pr: char -> bool)
    requires a.Obj?
    ensures forall i :: 0 <= i < |Body(a, pr)| ==> Starts(Body(a, pr)[i])
  {
  }

  lemma {:induction false} ObjectsApart(a: Json, b: Json, pr: char -> bool, u: string, v: string)
    requires a.Obj? && b.Obj? && Readable(a) && Readable(b) && Id(a, pr) + u == Id(b, pr) + v
    ensures Body(a, pr) == Body(b, pr) && u == v
    decreases a, 0
  {
    var k, l := SortedStrings(a.fields.Keys), SortedStrings(b.fields.Keys);
    var ps, qs := Body(a, pr), Body(b, pr);
    BodyStarts(a, pr);
    BodyStarts(b, pr);
    forall i, j | 0 <= i < |ps| && 0 <= j < |qs| ensures Apart(ps[i], qs[j]) {
      assert k[i] in k && l[j] in l;
      MembersApart(a, b, k[i], l[j], pr);
    }
    BracketSplit(ps, qs, "{", '}', u, v);
  }

  lemma {:induction false} MembersApart(a: Json, b: Json, k: string, l: string, pr: char -> bool)
    requires a.Obj? && b.Obj? && Readable(a) && Readable(b) && k in a.fields && l in b.fields
    ensures Apart(Member(k, Id(a.fields[k], pr)), Member(l, Id(b.fields[l], pr)))
    decreases a, 0, 0
  {
    IdsApart(a.fields[k], b.fields[l], pr);
    var p, q := Id(a.fields[k], pr), Id(b.fields[l], pr);
    forall u, v | Follows(u) && Follows(v) && Member(k, p) + u == Member(l, q) + v
      ensures Member(k, p) == Member(l, q) && u == v
    {
      MemberSplit(k, l, p, q, u, v);
    }
  }

  // ---------- the identifier decides equality up to order ----------

  /** Two documents have the same identifier exactly when they are equal up to
      key order and array order at every depth. */
  lemma {:induction false} IdIdentifies(a: Json, b: Json, pr: char -> bool)
    requires Readable(a) && Readable(b)
    ensures Id(a, pr) == Id(b, pr) <==> Same(a, b)
    decreases a, 1
  {
    IdKind(a, pr);
    IdKind(b, pr);
    if Kind(a) == Kind(b) {
      match a
      case Arr(_) => ArraysIdentified(a, b, pr);
      case Obj(_) => ObjectsIdentified(a, b, pr);
      case Str(x) => if Id(a, pr) == Id(b, pr) { QuoteSplit(x, b.s, pr, "", ""); }
      case _ =>
    }
  }

  lemma {:induction false} ArraysIdentified(a: Json, b: Json, pr: char -> bool)
    requires a.Arr? && b.Arr? && Readable(a) && Readable(b)
    ensures Id(a, pr) == Id(b, pr) <==> Rearranged(a, a.items, b.items)
    decreases a, 0, |a.items| + 2
  {
    ArrayElements(a, b, pr);
    SameElements(a, b, pr);
    ItemsIdentified(a, b, pr);
  }

  lemma {:induction false} ItemsIdentified(a: Json, b: Json, pr: char -> bool)
    requires a.Arr? && b.Arr? && Readable(a) && Readable(b)
    ensures multiset(Ids(a, a.items, pr)) == multiset(Ids(b, b.items, pr)) <==> Rearranged(a, a.items, b.items)
    decreases a, 0, |a.items| + 1
  {
    if multiset(Ids(a, a.items, pr)) == multiset(Ids(b, b.items, pr)) {
      IdsRearranged(a, b, a.items, b.items, pr);
    } else if Rearranged(a, a.items, b.items) {
      RearrangedIds(a, b, a.items, b.items, pr);
    }
  }

  lemma {:induction false} ArrayElements(a: Json, b: Json, pr: char -> bool)
    requires a.Arr? && b.Arr? && Readable(a) && Readable(b)
    ensures Id(a, pr) == Id(b, pr) <==> Elements(a, pr) == Elements(b, pr)
  {
    if Id(a, pr) == Id(b, pr) {
      ArraysApart(a, b, pr, "", "");
    }
  }

  lemma {:induction false} SameElements(a: Json, b: Json, pr: char -> bool)
    requires a.Arr? && b.Arr?
    ensures Elements(a, pr) == Elements(b, pr) <==> multiset(Ids(a, a.items, pr)) == multiset(Ids(b, b.items, pr))
  {
    var p, q := Ids(a, a.items, pr), Ids(b, b.items, pr);
    if multiset(p) == multiset(q) {
      CodesKeepApart(p);
      SortPermutation(p, q, Codes);
    }
  }

  ghost predicate PartsOf(whole: Json, xs: seq<Json>) {
    forall i :: 0 <= i < |xs| ==> xs[i] < whole && Readable(xs[i])
  }

  lemma {:induction false} FewerParts(whole: Json, xs: seq<Json>, j: nat)
    requires PartsOf(whole, xs) && j < |xs|
    ensures PartsOf(whole, Without(xs, j)) && PartsOf(whole, xs[1..])
  {
    forall i | 0 <= i < |Without(xs, j)| ensures Without(xs, j)[i] < whole && Readable(Without(xs, j)[i]) {
      assert Without(xs, j)[i] == if i < j then xs[i] else xs[i + 1];
    }
  }

  /** Equal first identifiers can be taken off both sides. */
  lemma {:induction false} MatchFirst(a: Json, b: Json, xs: seq<Json>, ys: seq<Json>, j: nat, pr: char -> bool)
    requires PartsOf(a, xs) && PartsOf(b, ys) && xs != [] && j < |ys|
    requires PartsOf(a, xs[1..]) && PartsOf(b, Without(ys, j)) && Id(xs[0], pr) == Id(ys[j], pr)
    ensures multiset(Ids(a, xs, pr)) == multiset(Ids(b, ys, pr)) <==>
            multiset(Ids(a, xs[1..], pr)) == multiset(Ids(b, Without(ys, j), pr))
  {
    FirstId(a, xs, pr);
    RemoveAt(Ids(b, ys, pr), j);
    IdsWithout(b, ys, j, pr);
    TakeAway(Id(xs[0], pr), multiset(Ids(a, xs[1..], pr)), multiset(Ids(b, Without(ys, j), pr)));
  }

  lemma {:induction false} FirstId(a: Json, xs: seq<Json>, pr: char -> bool)
    requires PartsOf(a, xs) && xs != [] && PartsOf(a, xs[1..])
    ensures multiset(Ids(a, xs, pr)) == multiset{Id(xs[0], pr)} + multiset(Ids(a, xs[1..], pr))
  {
    assert Ids(a, xs, pr) == [Id(xs[0], pr)] + Ids(a, xs[1..], pr);
  }

  lemma {:induction false} IdsWithout(b: Json, ys: seq<Json>, j: nat, pr: char -> bool)
    requires PartsOf(b, ys) && j < |ys| && PartsOf(b, Without(ys, j))
    ensures Ids(b, Without(ys, j), pr) == Without(Ids(b, ys, pr), j)
  {
  }

  lemma RemoveAt(ids: seq<string>, j: nat)
    requires j < |ids|
    ensures multiset(ids) == multiset{ids[j]} + multiset(Without(ids, j))
  {
    assert ids == ids[..j] + [ids[j]] + ids[j + 1..];
  }

  lemma TakeAway<T>(x: T, m: multiset<T>, n: multiset<T>)
    ensures multiset{x} + m == multiset{x} + n <==> m == n
  {
    assert multiset{x} + m - multiset{x} == m && multiset{x} + n - multiset{x} == n;
  }

  lemma {:induction false} IdsRearranged(a: Json, b: Json, xs: seq<Json>, ys: seq<Json>, pr: char -> bool)
    requires PartsOf(a, xs) && PartsOf(b, ys)
    requires multiset(Ids(a, xs, pr)) == multiset(Ids(b, ys, pr))
    ensures Rearranged(a, xs, ys)
    decreases a, 0, |xs|
  {
    if xs == [] {
      assert |multiset(Ids(b, ys, pr))| == |ys|;
    } else {
      assert Ids(a, xs, pr)[0] in multiset(Ids(b, ys, pr));
      var j :| 0 <= j < |ys| && Ids(b, ys, pr)[j] == Id(xs[0], pr);
      FewerParts(a, xs, 0);
      FewerParts(b, ys, j);
      MatchFirst(a, b, xs, ys, j, pr);
      IdIdentifies(xs[0], ys[j], pr);
      IdsRearranged(a, b, xs[1..], Without(ys, j), pr);
    }
  }

  lemma {:induction false} RearrangedIds(a: Json, b: Json, xs: seq<Json>, ys: seq<Json>, pr: char -> bool)
    requires PartsOf(a, xs) && PartsOf(b, ys) && Rearranged(a, xs, ys)
    ensures multiset(Ids(a, xs, pr)) == multiset(Ids(b, ys, pr))
    decreases a, 0, |xs|
  {
    if xs == [] {
      assert Ids(a, xs, pr) == Ids(b, ys, pr);
    } else {
      var j :| 0 <= j < |ys| && Same(xs[0], ys[j]) && Rearranged(a, xs[1..], Without(ys, j));
      FewerParts(a, xs, 0);
      FewerParts(b, ys, j);
      IdIdentifies(xs[0], ys[j], pr);
      RearrangedIds(a, b, xs[1..], Without(ys, j), pr);
      MatchFirst(a, b, xs, ys, j, pr);
    }
  }

  lemma {:induction false} ObjectsIdentified(a: Json, b: Json, pr: char -> bool)
    requires a.Obj? && b.Obj? && Readable(a) && Readable(b)
    ensures Id(a, pr) == Id(b, pr) <==> Same(a, b)
    decreases a, 0, 1
  {
    if Id(a, pr) == Id(b, pr) {
      ObjectsApart(a, b, pr, "", "");
      SameBodySameKeys(a, b, pr);
      forall x | x in a.fields && x in b.fields ensures Same(a.fields[x], b.fields[x]) {
        IdIdentifies(a.fields[x], b.fields[x], pr);
      }
    }
    if Same(a, b) {
      var k := SortedStrings(a.fields.Keys);
      forall i | 0 <= i < |k| ensures Body(a, pr)[i] == Body(b, pr)[i] {
        assert k[i] in k;
        IdIdentifies(a.fields[k[i]], b.fields[k[i]], pr);
      }
      assert Body(a, pr) == Body(b, pr);
    }
  }

  lemma {:induction false} SameMember(a: Json, b: Json, k: string, l: string, pr: char -> bool)
    requires a.Obj? && b.Obj? && Readable(a) && Readable(b) && k in a.fields && l in b.fields
    requires Member(k, Id(a.fields[k], pr)) == Member(l, Id(b.fields[l], pr))
    ensures k == l && Id(a.fields[k], pr) == Id(b.fields[l], pr)
  {
    IdsApart(a.fields[k], b.fields[l], pr);
    MemberSplit(k, l, Id(a.fields[k], pr), Id(b.fields[l], pr), "", "");
  }

  lemma SortedStringsInjective(s: set<string>, t: set<string>)
    requires SortedStrings(s) == SortedStrings(t)
    ensures s == t
  {
    assert forall x :: x in s <==> x in SortedStrings(s);
    assert forall x :: x in t <==> x in SortedStrings(t);
  }

  lemma {:induction false} SameBodyAt(a: Json, b: Json, pr: char -> bool, i: nat)
    requires a.Obj? && b.Obj? && Readable(a) && Readable(b) && Body(a, pr) == Body(b, pr)
    requires i < |SortedStrings(a.fields.Keys)|
    ensures |SortedStrings(a.fields.Keys)| == |SortedStrings(b.fields.Keys)|
    ensures var k := SortedStrings(a.fields.Keys)[i];
            k == SortedStrings(b.fields.Keys)[i] &&
            k in a.fields && k in b.fields && Id(a.fields[k], pr) == Id(b.fields[k], pr)
  {
    var k, l := SortedStrings(a.fields.Keys), SortedStrings(b.fields.Keys);
    assert |k| == |Body(a, pr)| == |l|;
    assert k[i] in k && l[i] in l;
    assert Body(a, pr)[i] == Body(b, pr)[i];
    SameMember(a, b, k[i], l[i], pr);
  }

  lemma {:induction false} SameBodyKeyLists(a: Json, b: Json, pr: char -> bool)
    requires a.Obj? && b.Obj? && Readable(a) && Readable(b) && Body(a, pr) == Body(b, pr)
    ensures SortedStrings(a.fields.Keys) == SortedStrings(b.fields.Keys)
  {
    var k, l := SortedStrings(a.fields.Keys), SortedStrings(b.fields.Keys);
    assert |k| == |Body(a, pr)| && |l| == |Body(b, pr)|;
    forall i | 0 <= i < |k| ensures k[i] == l[i] {
      SameBodyAt(a, b, pr, i);
    }
  }

  lemma {:induction false} SameBodySameKeys(a: Json, b: Json, pr: char -> bool)
    requires a.Obj? && b.Obj? && Readable(a) && Readable(b) && Body(a, pr) == Body(b, pr)
    ensures a.fields.Keys == b.fields.Keys
    ensures forall x :: x in a.fields && x in b.fields ==> Id(a.fields[x], pr) == Id(b.fields[x], pr)
  {
    var k := SortedStrings(a.fields.Keys);
    SameBodyKeyLists(a, b, pr);
    SortedStringsInjective(a.fields.Keys, b.fields.Keys);
    forall x | x in a.fields && x in b.fields ensures Id(a.fields[x], pr) == Id(b.fields[x], pr) {
      assert x in k;
      var i :| 0 <= i < |k| && k[i] == x;
      SameBodyAt(a, b, pr, i);
    }
  }

  /** Without the condition on keys the identifier is ambiguous: a key with
      quotes can look like two members. */
  lemma {:induction false} QuoteInKeyCollides(a: string, b: string, m: string, n: string, pr: char -> bool)
    requires a != b && LexLeq(Codes(a), Codes(b))
    ensures var c := a + "\":" + m + ",\"" + b;
            var one := Obj(map[c := Number(n)]);
            var two := Obj(map[a := Number(m), b := Number(n)]);
            Id(one, pr) == Id(two, pr) && !Same(one, two)
  {
    var c := a + "\":" + m + ",\"" + b;
    var one, two := Obj(map[c := Number(n)]), Obj(map[a := Number(m), b := Number(n)]);
    OneMember(c, Number(n), pr);
    TwoMembers(a, Number(m), b, Number(n), pr);
    MemberTexts(a, b, m, n);
    DifferentCounts(one, two);
  }

  lemma {:induction false} DifferentCounts(a: Json, b: Json)
    requires a.Obj? && b.Obj? && |a.fields| != |b.fields|
    ensures !Same(a, b)
  {
    assert |a.fields.Keys| == |a.fields| && |b.fields.Keys| == |b.fields|;
  }

  lemma {:induction false} OneMember(k: string, v: Json, pr: char -> bool)
    ensures Id(Obj(map[k := v]), pr) == "{" + Member(k, Id(v, pr)) + "}"
  {
    var obj := Obj(map[k := v]);
    CodesKeepApart([k]);
    SortOfSorted([k], Codes);
    assert obj.fields.Keys == {k};
    AnyListing([k], {k});
    assert Body(obj, pr) == [Member(k, Id(v, pr))];
  }

  lemma {:induction false} TwoMembers(k: string, v: Json, l: string, w: Json, pr: char -> bool)
    requires k != l && LexLeq(Codes(k), Codes(l))
    ensures Id(Obj(map[k := v, l := w]), pr) == "{" + (Member(k, Id(v, pr)) + "," + Member(l, Id(w, pr))) + "}"
  {
    var obj := Obj(map[k := v, l := w]);
    assert obj.fields.Keys == {k, l} && obj.fields[k] == v && obj.fields[l] == w;
    TwoBody(obj, k, l, pr);
    JoinTwo(Member(k, Id(v, pr)), Member(l, Id(w, pr)));
  }

  lemma {:induction false} TwoBody(obj: Json, k: string, l: string, pr: char -> bool)
    requires obj.Obj? && obj.fields.Keys == {k, l} && k != l && LexLeq(Codes(k), Codes(l))
    ensures k in obj.fields && l in obj.fields
    ensures Body(obj, pr) == [Member(k, Id(obj.fields[k], pr)), Member(l, Id(obj.fields[l], pr))]
  {
    SortedTwo(k, l);
    var body := Members(obj, [k, l], pr);
    assert Body(obj, pr) == body;
    assert |body| == 2 && body[0] == Member(k, Id(obj.fields[k], pr)) && body[1] == Member(l, Id(obj.fields[l], pr));
  }

  lemma {:induction false} SortedTwo(k: string, l: string)
    requires k != l && LexLeq(Codes(k), Codes(l))
    ensures SortedStrings({k, l}) == [k, l]
  {
    CodesKeepApart([k, l]);
    SortOfSorted([k, l], Codes);
    AnyListing([k, l], {k, l});
  }

  lemma JoinTwo(p: string, q: string)
    ensures Join([p, q]) == p + "," + q
  {
    assert [p, q][1..] == [q];
  }

  lemma MemberTexts(a: string, b: string, m: string, n: string)
    ensures Member(a, m) + "," + Member(b, n) == Member(a + "\":" + m + ",\"" + b, n)
  {
    assert ",\"" == "," + "\"";
  }

  // ---------- the code ----------

  lemma {:induction false} JoinAppend(parts: seq<string>, p: string)
    ensures Join(parts + [p]) == (if parts == [] then "" else Join(parts) + ",") + p
    decreases |parts|
  {
    if parts == [] {
      assert parts + [p] == [p];
    } else {
      assert (parts + [p])[1..] == parts[1..] + [p];
      JoinAppend(parts[1..], p);
    }
  }

  lemma {:induction false} JoinNext(parts: seq<string>, i: nat)
    requires i < |parts|
    ensures Join(parts[..i + 1]) == (if i == 0 then "" else Join(parts[..i]) + ",") + parts[i]
  {
    JoinAppend(parts[..i], parts[i]);
    assert parts[..i + 1] == parts[..i] + [parts[i]];
  }

  lemma {:induction false} WriteNext(o: string, parts: seq<string>, i: nat)
    requires i < |parts|
    ensures o + Join(parts[..i + 1]) == (o + Join(parts[..i]) + (if i == 0 then "" else ",")) + parts[i]
  {
    JoinNext(parts, i);
  }

  /** The keys of a Go map, in whatever order ranging over it gives, then sorted. */
  method CollectKeys(fields: map<string, Json>) returns (keys: seq<string>)
    ensures keys == SortedStrings(fields.Keys)
  {
    keys := [];
    var todo := fields.Keys;
    while todo != {}
      invariant todo <= fields.Keys && NoDuplicates(keys)
      invariant forall x :: x in keys <==> x in fields.Keys && x !in todo
      decreases todo
    {
      var k :| k in todo;
      keys := keys + [k];
      todo := todo - {k};
    }
    AnyListing(keys, fields.Keys);
    keys := Sort(keys, Codes);
  }

  method CanonicalObjectId(j: Json, pr: char -> bool) returns (id: string)
    ensures id == Id(j, pr)
    decreases j, 2
  {
    match j {
      case Null => id := "null";
      case Obj(fields) => id := CanonicalMapId(j, pr);
      case Arr(items) => id := CanonicalSliceId(j, pr);
      case Number(text) => id := text;
      case Str(s) => id := Quote(s, pr);
      case Bool(b) => id := if b then "true" else "false";
    }
  }

  method CanonicalMapId(obj: Json, pr: char -> bool) returns (id: string)
    requires obj.Obj?
    ensures id == Id(obj, pr)
    decreases obj, 1
  {
    var keys := CollectKeys(obj.fields);
    ghost var body := Body(obj, pr);
    id := "{";
    for i := 0 to |keys|
      invariant id == "{" + Join(body[..i]) && (i > 0 ==> |id| > 1)
    {
      assert keys[i] in keys;
      if |id| > 1 {
        id := id + ",";
      }
      var value := CanonicalObjectId(obj.fields[keys[i]], pr);
      WriteNext("{", body, i);
      id := id + ("\"" + keys[i] + "\":" + value);
    }
    assert body[..|keys|] == body;
    id := id + "}";
  }

  /** Sorted element identifiers between brackets. */
  method JoinIds(itemIds: seq<string>) returns (id: string)
    ensures id == "[" + Join(Sort(itemIds, Codes)) + "]"
  {
    var sorted := Sort(itemIds, Codes);
    id := "[";
    for i := 0 to |sorted|
      invariant id == "[" + Join(sorted[..i])
    {
      if i > 0 {
        id := id + ",";
      }
      WriteNext("[", sorted, i);
      id := id + sorted[i];
    }
    assert sorted[..|sorted|] == sorted;
    id := id + "]";
  }

  method CanonicalSliceId(arr: Json, pr: char -> bool) returns (id: string)
    requires arr.Arr?
    ensures id == Id(arr, pr)
    decreases arr, 1
  {
    ghost var ids := Ids(arr, arr.items, pr);
    var itemIds: seq<string> := [];
    for i := 0 to |arr.items|
      invariant |itemIds| == i && forall j :: 0 <= j < i ==> itemIds[j] == ids[j]
    {
      var itemId := CanonicalObjectId(arr.items[i], pr);
      itemIds := itemIds + [itemId];
    }
    assert itemIds == ids;
    id := JoinIds(itemIds);
  }

  function Objects(objects: seq<map<string, Json>>): (r: seq<Json>)
    ensures |r| == |objects| && forall i :: 0 <= i < |r| ==> r[i] == Obj(objects[i])
  {
    seq(|objects|, i requires 0 <= i < |objects| => Obj(objects[i]))
  }

  /** A slice of maps has the identifier of the array of those objects. */
  method CanonicalSliceMapId(objects: seq<map<string, Json>>, pr: char -> bool) returns (id: string)
    ensures id == Id(Arr(Objects(objects)), pr)
  {
    var itemIds: seq<string> := [];
    for i := 0 to |objects|
      invariant |itemIds| == i && forall j :: 0 <= j < i ==> itemIds[j] == Id(Obj(objects[j]), pr)
    {
      var itemId := CanonicalMapId(Obj(objects[i]), pr);
      itemIds := itemIds + [itemId];
    }
    ObjectIds(objects, itemIds, pr);
    id := JoinIds(itemIds);
  }

  lemma {:induction false} ObjectIds(objects: seq<map<string, Json>>, ids: seq<string>, pr: char -> bool)
    requires |ids| == |objects| && forall j :: 0 <= j < |ids| ==> ids[j] == Id(Obj(objects[j]), pr)
    ensures ids == Ids(Arr(Objects(objects)), Objects(objects), pr)
  {
  }
}
