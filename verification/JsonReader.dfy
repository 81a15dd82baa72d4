/**
  A reader of canonical identifiers, written apart from the code that prints
  them: what an identifier denotes, and that it denotes the document it was
  printed for.
 */
module JsonReader {
  import opened Options
  import opened Ordering
  import opened Texts
  import opened CanonicalJson

  predicate Opens(s: string, c: char) { s != "" && s[0] == c }

  predicate Spells(s: string, a: char, b: char, c: char, d: char) {
    |s| >= 4 && s[0] == a && s[1] == b && s[2] == c && s[3] == d
  }

  /** How many characters of a number `s` starts with. */
  function NumberEnd(s: string): (k: nat)
    ensures k <= |s| && (forall i :: 0 <= i < k ==> NumberChar(s[i])) && (k < |s| ==> !NumberChar(s[k]))
  {
    if s == "" || !NumberChar(s[0]) then 0
    else
      var k := NumberEnd(s[1..]);
      assert forall i :: 0 < i < k + 1 ==> s[i] == s[1..][i - 1];
      k + 1
  }

  function ReadJson(s: string): (r: Option<(Json, string)>)
    ensures r.Some? ==> |r.value.1| < |s|
    decreases |s|, 1
  {
    if Opens(s, '"') then
      var r := ReadString(s[1..]);
      if r.Some? then Some((Str(r.value.0), r.value.1)) else None
    else if Opens(s, '[') then
      var r := ReadItems(s[1..]);
      if r.Some? then Some((Arr(r.value.0), r.value.1)) else None
    else if Opens(s, '{') then
      var r := ReadMembers(s[1..]);
      if r.Some? then Some((Obj(r.value.0), r.value.1)) else None
    else if NumberEnd(s) > 0 then Some((Number(s[..NumberEnd(s)]), s[NumberEnd(s)..]))
    else if Spells(s, 'n', 'u', 'l', 'l') then Some((Null, s[4..]))
    else if Spells(s, 't', 'r', 'u', 'e') then Some((Bool(true), s[4..]))
    else if Spells(s, 'f', 'a', 'l', 's') && Opens(s[4..], 'e') then Some((Bool(false), s[5..]))
    else None
  }

  function ReadItems(s: string): (r: Option<(seq<Json>, string)>)
    ensures r.Some? ==> |r.value.1| < |s|
    decreases |s|, 3
  {
    if Opens(s, ']') then Some(([], s[1..])) else ReadMoreItems(s)
  }

  function ReadMoreItems(s: string): (r: Option<(seq<Json>, string)>)
    ensures r.Some? ==> |r.value.1| < |s|
    decreases |s|, 2
  {
    var j := ReadJson(s);
    if j.None? then None
    else if Opens(j.value.1, ']') then Some(([j.value.0], j.value.1[1..]))
    else if Opens(j.value.1, ',') then
      var more := ReadMoreItems(j.value.1[1..]);
      if more.Some? then Some(([j.value.0] + more.value.0, more.value.1)) else None
    else None
  }

  function ReadMembers(s: string): (r: Option<(map<string, Json>, string)>)
    ensures r.Some? ==> |r.value.1| < |s|
    decreases |s|, 3
  {
    if Opens(s, '}') then Some((map[], s[1..])) else ReadMoreMembers(s)
  }

  /** A key between quotes, in which nothing is escaped. */
  function ReadKey(s: string): (r: Option<(string, string)>)
    ensures r.Some? ==> |r.value.1| < |s|
  {
    if !Opens(s, '"') then None
    else
      var k := IndexOf(s[1..], '"');
      if k < |s[1..]| && Opens(s[1..][k + 1..], ':') then Some((s[1..][..k], s[1..][k + 1..][1..])) else None
  }

  function ReadMoreMembers(s: string): (r: Option<(map<string, Json>, string)>)
    ensures r.Some? ==> |r.value.1| < |s|
    decreases |s|, 2
  {
    var key := ReadKey(s);
    if key.None? then None
    else
      var j := ReadJson(key.value.1);
      if j.None? then None
      else if Opens(j.value.1, '}') then Some((map[key.value.0 := j.value.0], j.value.1[1..]))
      else if Opens(j.value.1, ',') then
        var more := ReadMoreMembers(j.value.1[1..]);
        if more.Some? then Some((more.value.0[key.value.0 := j.value.0], more.value.1)) else None
      else None
  }

  // ---------- identifiers read back ----------

  /** In every context the text reads as `k`, which has the text for identifier. */
  ghost predicate ReadsAs(p: string, k: Json, pr: char -> bool) {
    Readable(k) && Id(k, pr) == p && forall x :: Follows(x) ==> ReadJson(p + x) == Some((k, x))
  }

  ghost predicate ReadsBack(p: string, pr: char -> bool) { exists k :: ReadsAs(p, k, pr) }

  ghost function Reading(p: string, pr: char -> bool): (k: Json)
    requires ReadsBack(p, pr)
    ensures ReadsAs(p, k, pr)
  {
    var k :| ReadsAs(p, k, pr);
    k
  }

  lemma {:induction false} LeafReads(j: Json, pr: char -> bool, x: string)
    requires Readable(j) && !j.Arr? && !j.Obj? && Follows(x)
    ensures ReadJson(Id(j, pr) + x) == Some((j, x))
  {
    match j
    case Number(text) => NumberReads(text, x);
    case Str(s) => TextReads(s, pr, x);
    case _ => NameReads(j, pr, x);
  }

  lemma {:induction false} NameReads(j: Json, pr: char -> bool, x: string)
    requires j.Null? || j.Bool?
    ensures ReadJson(Id(j, pr) + x) == Some((j, x))
  {
    var w := Id(j, pr);
    NameBegins(w, x);
    WordReads(j, w + x, x);
  }

  lemma NameBegins(w: string, x: string)
    requires 4 <= |w| <= 5
    ensures var s := w + x;
            s[0] == w[0] && s[1] == w[1] && s[2] == w[2] && s[3] == w[3] && (|w| == 5 ==> s[4..][0] == w[4]) &&
            s[|w|..] == x
  {
  }

  lemma WordReads(j: Json, s: string, x: string)
    requires j == Null ==> Spells(s, 'n', 'u', 'l', 'l') && s[4..] == x
    requires j == Bool(true) ==> Spells(s, 't', 'r', 'u', 'e') && s[4..] == x
    requires j == Bool(false) ==> Spells(s, 'f', 'a', 'l', 's') && Opens(s[4..], 'e') && s[5..] == x
    requires j.Null? || j.Bool?
    ensures ReadJson(s) == Some((j, x))
  {
    assert NumberEnd(s) == 0;
  }

  lemma {:induction false} TextReads(t: string, pr: char -> bool, x: string)
    ensures ReadJson(Quote(t, pr) + x) == Some((Str(t), x))
  {
    Regroup("\"", EscapeAll(t, pr), "\"", x);
    var body := EscapeAll(t, pr) + ("\"" + x);
    assert ("\"" + body)[1..] == body;
    StringReads(t, pr, x);
  }

  lemma NumberReads(text: string, x: string)
    requires text != "" && (forall i :: 0 <= i < |text| ==> NumberChar(text[i])) && Follows(x)
    ensures ReadJson(text + x) == Some((Number(text), x))
  {
    var s := text + x;
    assert forall i :: 0 <= i < |text| ==> s[i] == text[i];
    assert x != "" ==> s[|text|] == x[0];
    assert s[..|text|] == text && s[|text|..] == x;
  }

  /** Every identifier is read back. */
  lemma {:induction false} IdReads(j: Json, pr: char -> bool)
    requires Readable(j)
    ensures ReadsBack(Id(j, pr), pr)
    decreases j
  {
    if j.Arr? {
      forall i | 0 <= i < |j.items| ensures ReadsBack(Id(j.items[i], pr), pr) {
        IdReads(j.items[i], pr);
      }
      ArrayReads(j, pr);
    } else if j.Obj? {
      forall k | k in j.fields ensures ReadsBack(Id(j.fields[k], pr), pr) {
        IdReads(j.fields[k], pr);
      }
      ObjectReads(j, pr);
    } else {
      forall x | Follows(x) ensures ReadJson(Id(j, pr) + x) == Some((j, x)) {
        LeafReads(j, pr, x);
      }
      assert ReadsAs(Id(j, pr), j, pr);
    }
  }

  // ---------- arrays ----------

  ghost predicate AllReadAs(ps: seq<string>, ks: seq<Json>, pr: char -> bool) {
    |ps| == |ks| && forall i :: 0 <= i < |ps| ==> Starts(ps[i]) && ReadsAs(ps[i], ks[i], pr)
  }

  lemma {:induction false} ItemsRead(ps: seq<string>, ks: seq<Json>, pr: char -> bool, x: string)
    requires AllReadAs(ps, ks, pr) && ps != []
    ensures ReadMoreItems(Join(ps) + ("]" + x)) == Some((ks, x))
    decreases |ps|
  {
    JoinFirst(ps, "]" + x);
    var after := AfterFirst(ps, "]" + x);
    assert ReadJson(ps[0] + after) == Some((ks[0], after));
    if |ps| == 1 {
      assert after[1..] == x && ks == [ks[0]];
    } else {
      ItemsRead(ps[1..], ks[1..], pr, x);
      assert after[1..] == Join(ps[1..]) + ("]" + x);
      assert ks == [ks[0]] + ks[1..];
    }
  }

  lemma {:induction false} ListReads(ps: seq<string>, ks: seq<Json>, pr: char -> bool, x: string)
    requires AllReadAs(ps, ks, pr)
    ensures ReadJson("[" + Join(ps) + "]" + x) == Some((Arr(ks), x))
  {
    Regroup("[", Join(ps), "]", x);
    var body := Join(ps) + ("]" + x);
    assert ("[" + body)[1..] == body;
    OnlyEmptyCloses(ps, ']', x);
    if ps == [] {
      assert body == "]" + x && body[1..] == x;
    } else {
      ItemsRead(ps, ks, pr, x);
    }
  }

  lemma {:induction false} ListIdentified(ps: seq<string>, ks: seq<Json>, pr: char -> bool)
    requires AllReadAs(ps, ks, pr) && SortedBy(ps, Codes)
    ensures Readable(Arr(ks)) && Id(Arr(ks), pr) == "[" + Join(ps) + "]"
  {
    assert Ids(Arr(ks), ks, pr) == ps;
    CodesKeepApart(ps);
    SortOfSorted(ps, Codes);
  }

  lemma {:induction false} ArrayReads(a: Json, pr: char -> bool)
    requires a.Arr? && Readable(a) && forall i :: 0 <= i < |a.items| ==> ReadsBack(Id(a.items[i], pr), pr)
    ensures ReadsBack(Id(a, pr), pr)
  {
    var ps := Elements(a, pr);
    ElementStarts(a, pr);
    forall i | 0 <= i < |ps| ensures ReadsBack(ps[i], pr) {
      var m := ElementSource(a, pr, i);
    }
    var ks := seq(|ps|, i requires 0 <= i < |ps| => Reading(ps[i], pr));
    ListIdentified(ps, ks, pr);
    forall x | Follows(x) ensures ReadJson(Id(a, pr) + x) == Some((Arr(ks), x)) {
      ListReads(ps, ks, pr, x);
    }
    assert ReadsAs(Id(a, pr), Arr(ks), pr);
  }

  // ---------- objects ----------

  lemma {:induction false} KeyReads(k: string, p: string, u: string)
    requires '"' !in k
    ensures ReadKey(Member(k, p) + u) == Some((k, p + u))
  {
    MemberText(k, p, u);
    var body := k + ['"'] + (":" + (p + u));
    var s := "\"" + body;
    assert s[1..] == body;
    FirstDelimiter(k, '"', ":" + (p + u));
    assert body[..|k|] == k && body[|k| + 1..] == ":" + (p + u);
    assert (":" + (p + u))[1..] == p + u;
  }

  /** The fields of `keys`, as they are read. */
  ghost function Readings(obj: Json, keys: seq<string>, pr: char -> bool): (m: map<string, Json>)
    requires KeysRead(obj, keys, pr)
  {
    map k | k in keys :: Reading(Id(obj.fields[k], pr), pr)
  }

  ghost predicate KeysRead(obj: Json, keys: seq<string>, pr: char -> bool) {
    obj.Obj? && forall k :: k in keys ==> '"' !in k && k in obj.fields && ReadsBack(Id(obj.fields[k], pr), pr)
  }

  lemma {:induction false} MembersRead(obj: Json, keys: seq<string>, pr: char -> bool, x: string)
    requires KeysRead(obj, keys, pr) && keys != []
    ensures ReadMoreMembers(Join(Members(obj, keys, pr)) + ("}" + x)) == Some((Readings(obj, keys, pr), x))
    decreases |keys|
  {
    var s := Join(Members(obj, keys, pr)) + ("}" + x);
    var t, j := FirstMember(obj, keys, pr, x);
    if |keys| == 1 {
      LastMember(s, keys[0], t, j, x);
      assert Readings(obj, keys, pr) == map[keys[0] := j];
    } else {
      MembersRead(obj, keys[1..], pr, x);
      NextMember(s, keys[0], t, j, Join(Members(obj, keys[1..], pr)) + ("}" + x), Readings(obj, keys[1..], pr), x);
      MoreReadings(obj, keys, pr);
    }
  }

  lemma {:induction false} MoreReadings(obj: Json, keys: seq<string>, pr: char -> bool)
    requires KeysRead(obj, keys, pr) && keys != []
    ensures KeysRead(obj, keys[1..], pr) && keys[0] in keys
    ensures Readings(obj, keys, pr) == Readings(obj, keys[1..], pr)[keys[0] := Reading(Id(obj.fields[keys[0]], pr), pr)]
  {
    assert keys == [keys[0]] + keys[1..];
  }

  /** The first key and value, and what follows them. */
  lemma {:induction false} FirstMember(obj: Json, keys: seq<string>, pr: char -> bool, x: string)
    returns (t: string, j: Json)
    requires KeysRead(obj, keys, pr) && keys != []
    ensures keys[0] in keys && j == Reading(Id(obj.fields[keys[0]], pr), pr)
    ensures ReadKey(Join(Members(obj, keys, pr)) + ("}" + x)) == Some((keys[0], t))
    ensures ReadJson(t) == Some((j, if |keys| == 1 then "}" + x else "," + (Join(Members(obj, keys[1..], pr)) + ("}" + x))))
  {
    var ps := Members(obj, keys, pr);
    assert keys[0] in keys;
    var p := Id(obj.fields[keys[0]], pr);
    j := Reading(p, pr);
    JoinFirst(ps, "}" + x);
    var after := AfterFirst(ps, "}" + x);
    KeyReads(keys[0], p, after);
    t := p + after;
    if |keys| > 1 {
      assert ps[1..] == Members(obj, keys[1..], pr);
    }
  }

  lemma {:induction false} LastMember(s: string, k: string, t: string, j: Json, x: string)
    requires ReadKey(s) == Some((k, t)) && ReadJson(t) == Some((j, "}" + x))
    ensures ReadMoreMembers(s) == Some((map[k := j], x))
  {
    assert ("}" + x)[1..] == x;
  }

  lemma {:induction false} NextMember(s: string, k: string, t: string, j: Json, more: string, m: map<string, Json>, x: string)
    requires ReadKey(s) == Some((k, t)) && ReadJson(t) == Some((j, "," + more)) && ReadMoreMembers(more) == Some((m, x))
    ensures ReadMoreMembers(s) == Some((m[k := j], x))
  {
    assert ("," + more)[1..] == more;
  }

  lemma {:induction false} BracesRead(obj: Json, keys: seq<string>, pr: char -> bool, x: string)
    requires KeysRead(obj, keys, pr)
    ensures ReadJson("{" + Join(Members(obj, keys, pr)) + "}" + x) == Some((Obj(Readings(obj, keys, pr)), x))
  {
    var ps := Members(obj, keys, pr);
    Regroup("{", Join(ps), "}", x);
    var body := Join(ps) + ("}" + x);
    assert ("{" + body)[1..] == body;
    OnlyEmptyCloses(ps, '}', x);
    if keys == [] {
      assert body == "}" + x && body[1..] == x;
    } else {
      MembersRead(obj, keys, pr, x);
    }
  }

  lemma {:induction false} ReadingsIdentified(a: Json, keys: seq<string>, pr: char -> bool)
    requires KeysRead(a, keys, pr) && keys == SortedStrings(a.fields.Keys)
    ensures Readable(Obj(Readings(a, keys, pr))) && Id(Obj(Readings(a, keys, pr)), pr) == Id(a, pr)
  {
    var b := Obj(Readings(a, keys, pr));
    assert b.fields.Keys == a.fields.Keys;
    assert Members(b, keys, pr) == Members(a, keys, pr);
  }

  lemma {:induction false} ObjectReads(a: Json, pr: char -> bool)
    requires a.Obj? && Readable(a) && forall k :: k in a.fields ==> ReadsBack(Id(a.fields[k], pr), pr)
    ensures ReadsBack(Id(a, pr), pr)
  {
    var keys := SortedStrings(a.fields.Keys);
    ReadingsIdentified(a, keys, pr);
    var b := Obj(Readings(a, keys, pr));
    forall x | Follows(x) ensures ReadJson(Id(a, pr) + x) == Some((b, x)) {
      BracesRead(a, keys, pr, x);
    }
    assert ReadsAs(Id(a, pr), b, pr);
  }

  /** In every context an identifier reads as a document that is equal, up to key
      order and array order at every depth, to the one it was printed for. */
  lemma IdReadsBack(j: Json, pr: char -> bool, x: string)
    requires Readable(j) && Follows(x)
    ensures var r := ReadJson(Id(j, pr) + x);
            r.Some? && r.value.1 == x && Same(r.value.0, j)
  {
    IdReads(j, pr);
    var k := Reading(Id(j, pr), pr);
    IdIdentifies(k, j, pr);
  }
}
