/**
  Arrow schemas and the identifiers that `SchemaToID` prints for them
  (go/pkg/arrow/schema.go).

  `Print` writes a type that is already in canonical form; `Canon` drops the
  attributes the identifier does not show and sorts the fields of every level.
  The methods at the end follow the Go code, which sorts and prints in one
  pass, and are proved to return `Print` of `Canon`.
 */
module SchemaId {
  import opened Ordering
  import opened Options
  import opened Texts
  import Decimal

  datatype Primitive =
    | Bool | I8 | I16 | I32 | I64 | U8 | U16 | U32 | U64 | F32 | F64 | Str | Bin

  datatype Field = Field(name: string, dtype: DataType, nullable: bool)

  datatype DataType =
    | Prim(kind: Primitive)
    | Timestamp(unit: nat, zone: string)
    | Duration(unit: nat)
    | Struct(fields: seq<Field>)
    | List(elem: Field)
    | Dictionary(index: DataType, value: DataType, ordered: bool)
    | DenseUnion(fields: seq<Field>)
    | SparseUnion(fields: seq<Field>)
    | Map(key: DataType, item: DataType, keysSorted: bool)
    | FixedSizeBinary(width: int)
    | Unsupported(description: string)

  type Schema = seq<Field>

  function FieldKey(f: Field): seq<int> { Codes(f.name) }

  function SortedFields(fields: seq<Field>): (r: seq<Field>)
    ensures |r| == |fields|
  {
    Sort(fields, FieldKey)
  }

  // ---------- what callers must respect ----------

  /** A name the identifier can carry: the first ':' after it ends it, and it
      cannot be taken for the end of an empty field list. */
  predicate ReadableName(name: string) {
    ':' !in name && (name == "" || name[0] != '}')
  }

  predicate DistinctNames(fields: seq<Field>) {
    forall i, j :: 0 <= i < j < |fields| ==> fields[i].name != fields[j].name
  }

  /** Every level has distinct readable field names and only types the switch
      in `DataTypeToID` knows. */
  predicate WellNamed(t: DataType) {
    match t
    case Struct(fs) => WellNamedFields(fs)
    case DenseUnion(fs) => WellNamedFields(fs)
    case SparseUnion(fs) => WellNamedFields(fs)
    case List(e) => WellNamed(e.dtype)
    case Dictionary(i, v, _) => WellNamed(i) && WellNamed(v)
    case Map(k, v, _) => WellNamed(k) && WellNamed(v)
    case Unsupported(_) => false
    case _ => true
  }

  predicate WellNamedFields(fs: seq<Field>) {
    DistinctNames(fs) &&
    forall f :: f in fs ==> ReadableName(f.name) && WellNamed(f.dtype)
  }

  /** The switch in `DataTypeToID` has a case for every type inside `t`. */
  predicate Supported(t: DataType) {
    match t
    case Struct(fs) => AllSupported(fs)
    case DenseUnion(fs) => AllSupported(fs)
    case SparseUnion(fs) => AllSupported(fs)
    case List(e) => Supported(e.dtype)
    case Dictionary(i, v, _) => Supported(i) && Supported(v)
    case Map(k, v, _) => Supported(k) && Supported(v)
    case Unsupported(_) => false
    case _ => true
  }

  predicate AllSupported(fs: seq<Field>) { forall f :: f in fs ==> Supported(f.dtype) }

  // ---------- equality up to field order ----------

  /** Equal up to the order of fields at every level, and up to the attributes
      the identifier leaves out: nullability, units, time zones, the element
      field of a list, dictionary and map ordering flags. */
  ghost predicate Same(a: DataType, b: DataType) {
    match (a, b)
    case (Prim(j), Prim(k)) => j == k
    case (Timestamp(_, _), Timestamp(_, _)) => true
    case (Duration(_), Duration(_)) => true
    case (FixedSizeBinary(w), FixedSizeBinary(v)) => w == v
    case (List(e), List(f)) => Same(e.dtype, f.dtype)
    case (Dictionary(i, v, _), Dictionary(j, w, _)) => Same(i, j) && Same(v, w)
    case (Map(k, v, _), Map(l, w, _)) => Same(k, l) && Same(v, w)
    case (Struct(fs), Struct(gs)) => SameFields(fs, gs)
    case (DenseUnion(fs), DenseUnion(gs)) => SameFields(fs, gs)
    case (SparseUnion(fs), SparseUnion(gs)) => SameFields(fs, gs)
    case _ => false
  }

  ghost predicate SameFields(fs: seq<Field>, gs: seq<Field>) {
    |fs| == |gs| &&
    forall i :: 0 <= i < |fs| ==>
      exists j :: 0 <= j < |gs| && fs[i].name == gs[j].name && Same(fs[i].dtype, gs[j].dtype)
  }

  // ---------- canonical form ----------

  function Canon(t: DataType): (r: DataType) {
    match t
    case Timestamp(_, _) => Timestamp(0, "")
    case Duration(_) => Duration(0)
    case Struct(fs) => Struct(SortedFields(CanonFields(fs)))
    case DenseUnion(fs) => DenseUnion(SortedFields(CanonFields(fs)))
    case SparseUnion(fs) => SparseUnion(SortedFields(CanonFields(fs)))
    case List(e) => List(Field("", Canon(e.dtype), false))
    case Dictionary(i, v, _) => Dictionary(Canon(i), Canon(v), false)
    case Map(k, v, _) => Map(Canon(k), Canon(v), false)
    case _ => t
  }

  function CanonFields(fs: seq<Field>): (r: seq<Field>)
    ensures |r| == |fs|
    ensures forall i :: 0 <= i < |fs| ==> r[i] == Field(fs[i].name, Canon(fs[i].dtype), false)
  {
    if fs == [] then []
    else [Field(fs[0].name, Canon(fs[0].dtype), false)] + CanonFields(fs[1..])
  }

  function CanonField(f: Field): Field { Field(f.name, Canon(f.dtype), false) }

  function CanonSchema(s: Schema): Schema { SortedFields(CanonFields(s)) }

  // ---------- printing a canonical type ----------

  function Sig(k: Primitive): string {
    match k
    case Bool => "Bol"
    case I8 => "I8"
    case I16 => "I16"
    case I32 => "I32"
    case I64 => "I64"
    case U8 => "U8"
    case U16 => "U16"
    case U32 => "U32"
    case U64 => "U64"
    case F32 => "F32"
    case F64 => "F64"
    case Str => "Str"
    case Bin => "Bin"
  }

  function Print(t: DataType): string {
    match t
    case Prim(k) => Sig(k)
    case Timestamp(_, _) => "Tns"
    case Duration(_) => "Dur"
    case Struct(fs) => "{" + PrintFields(fs) + "}"
    case List(e) => "[" + Print(e.dtype) + "]"
    case Dictionary(i, v, _) => "Dic<" + Print(i) + "," + Print(v) + ">"
    case DenseUnion(fs) => "DU{" + PrintFields(fs) + "}"
    case SparseUnion(fs) => "SU{" + PrintFields(fs) + "}"
    case Map(k, v, _) => "Map<" + Print(k) + "," + Print(v) + ">"
    case FixedSizeBinary(w) => "FSB<" + Decimal.FormatInt(w) + ">"
    case Unsupported(_) => ""
  }

  function PrintField(f: Field): string { f.name + ":" + Print(f.dtype) }

  function PrintFields(fs: seq<Field>): string {
    if fs == [] then ""
    else if |fs| == 1 then PrintField(fs[0])
    else PrintField(fs[0]) + "," + PrintFields(fs[1..])
  }

  /** The identifier of a schema. */
  function Id(s: Schema): string { PrintFields(CanonSchema(s)) }

  // ---------- unique readability ----------

  /** Canonical types as the identifier can show them: readable names, known
      types, and nothing in the attributes that are not printed. */
  predicate Plain(t: DataType) {
    match t
    case Timestamp(u, z) => u == 0 && z == ""
    case Duration(u) => u == 0
    case Struct(fs) => PlainFields(fs)
    case DenseUnion(fs) => PlainFields(fs)
    case SparseUnion(fs) => PlainFields(fs)
    case List(e) => e.name == "" && !e.nullable && Plain(e.dtype)
    case Dictionary(i, v, o) => !o && Plain(i) && Plain(v)
    case Map(k, v, s) => !s && Plain(k) && Plain(v)
    case Unsupported(_) => false
    case _ => true
  }

  predicate PlainFields(fs: seq<Field>) {
    forall f :: f in fs ==> ReadableName(f.name) && !f.nullable && Plain(f.dtype)
  }

  // ---------- a reader of identifiers ----------

  predicate Starts(s: string, c: char) { s != "" && s[0] == c }

  predicate Spells(s: string, a: char, b: char, c: char) { |s| >= 3 && s[0] == a && s[1] == b && s[2] == c }

  /** A type that holds no other, and what follows it. */
  function ReadLeaf(s: string): (r: Option<(DataType, string)>)
    ensures r.Some? ==> |r.value.1| < |s|
  {
    if |s| >= 2 && s[0] == 'I' && s[1] == '8' then Some((Prim(I8), s[2..]))
    else if |s| >= 2 && s[0] == 'U' && s[1] == '8' then Some((Prim(U8), s[2..]))
    else if Spells(s, 'I', '1', '6') then Some((Prim(I16), s[3..]))
    else if Spells(s, 'I', '3', '2') then Some((Prim(I32), s[3..]))
    else if Spells(s, 'I', '6', '4') then Some((Prim(I64), s[3..]))
    else if Spells(s, 'U', '1', '6') then Some((Prim(U16), s[3..]))
    else if Spells(s, 'U', '3', '2') then Some((Prim(U32), s[3..]))
    else if Spells(s, 'U', '6', '4') then Some((Prim(U64), s[3..]))
    else if Spells(s, 'F', '3', '2') then Some((Prim(F32), s[3..]))
    else if Spells(s, 'F', '6', '4') then Some((Prim(F64), s[3..]))
    else if Spells(s, 'B', 'o', 'l') then Some((Prim(Bool), s[3..]))
    else if Spells(s, 'S', 't', 'r') then Some((Prim(Str), s[3..]))
    else if Spells(s, 'B', 'i', 'n') then Some((Prim(Bin), s[3..]))
    else if Spells(s, 'T', 'n', 's') then Some((Timestamp(0, ""), s[3..]))
    else if Spells(s, 'D', 'u', 'r') then Some((Duration(0), s[3..]))
    else None
  }

  function ReadType(s: string): (r: Option<(DataType, string)>)
    ensures r.Some? ==> |r.value.1| < |s|
    decreases |s|, 1
  {
    if ReadLeaf(s).Some? then ReadLeaf(s)
    else if Starts(s, '[') then
      var e := ReadType(s[1..]);
      if e.Some? && Starts(e.value.1, ']') then Some((List(Field("", e.value.0, false)), e.value.1[1..])) else None
    else if Starts(s, '{') then
      var r := ReadFields(s[1..]);
      if r.Some? then Some((Struct(r.value.0), r.value.1)) else None
    else if Spells(s, 'D', 'U', '{') then
      var r := ReadFields(s[3..]);
      if r.Some? then Some((DenseUnion(r.value.0), r.value.1)) else None
    else if Spells(s, 'S', 'U', '{') then
      var r := ReadFields(s[3..]);
      if r.Some? then Some((SparseUnion(r.value.0), r.value.1)) else None
    else if Spells(s, 'D', 'i', 'c') && Starts(s[3..], '<') then
      var r := ReadPair(s[4..]);
      if r.Some? then Some((Dictionary(r.value.0, r.value.1, false), r.value.2)) else None
    else if Spells(s, 'M', 'a', 'p') && Starts(s[3..], '<') then
      var r := ReadPair(s[4..]);
      if r.Some? then Some((Map(r.value.0, r.value.1, false), r.value.2)) else None
    else if Spells(s, 'F', 'S', 'B') && Starts(s[3..], '<') then
      var k := IndexOf(s[4..], '>');
      if k < |s[4..]| then Some((FixedSizeBinary(Decimal.ParseInt(s[4..][..k])), s[4..][k + 1..])) else None
    else None
  }

  /** Two types with a comma between and a bracket behind them. */
  function ReadPair(s: string): (r: Option<(DataType, DataType, string)>)
    ensures r.Some? ==> |r.value.2| < |s|
    decreases |s|, 2
  {
    var a := ReadType(s);
    if a.None? || !Starts(a.value.1, ',') then None
    else
      var b := ReadType(a.value.1[1..]);
      if b.Some? && Starts(b.value.1, '>') then Some((a.value.0, b.value.0, b.value.1[1..])) else None
  }

  /** Fields up to the closing brace. */
  function ReadFields(s: string): (r: Option<(seq<Field>, string)>)
    ensures r.Some? ==> |r.value.1| < |s|
    decreases |s|, 3
  {
    if Starts(s, '}') then Some(([], s[1..])) else ReadMore(s)
  }

  function ReadMore(s: string): (r: Option<(seq<Field>, string)>)
    ensures r.Some? ==> |r.value.1| < |s|
    decreases |s|, 2
  {
    var k := IndexOf(s, ':');
    if k == |s| then None
    else
      var t := ReadType(s[k + 1..]);
      if t.None? then None
      else if Starts(t.value.1, '}') then Some(([Field(s[..k], t.value.0, false)], t.value.1[1..]))
      else if Starts(t.value.1, ',') then
        var more := ReadMore(t.value.1[1..]);
        if more.Some? then Some(([Field(s[..k], t.value.0, false)] + more.value.0, more.value.1)) else None
      else None
  }

  predicate Leaf(t: DataType) { t.Prim? || t.Timestamp? || t.Duration? }

  lemma {:induction false} LeafReads(t: DataType, x: string)
    requires Leaf(t) && Plain(t)
    ensures ReadLeaf(Print(t) + x) == Some((t, x))
  {
    var w := Print(t);
    Begins(w, x);
    match t
    case Prim(k) => PrimReads(k, w + x, x);
    case _ =>
  }

  lemma Begins(w: string, x: string)
    requires 2 <= |w| <= 3
    ensures var s := w + x;
            s[0] == w[0] && s[1] == w[1] && (|w| == 3 ==> s[2] == w[2]) && s[|w|..] == x
  {
  }

  lemma PrimReads(k: Primitive, s: string, x: string)
    requires var w := Sig(k);
             |s| == |w| + |x| && s[0] == w[0] && s[1] == w[1] && (|w| == 3 ==> s[2] == w[2]) && s[|w|..] == x
    ensures ReadLeaf(s) == Some((Prim(k), x))
  {
  }

  /** Every printed type is read back, from any context. */
  lemma {:induction false} PrintReads(t: DataType, x: string)
    requires Plain(t)
    ensures ReadType(Print(t) + x) == Some((t, x))
    decreases t, 1
  {
    match t
    case Struct(fs) => StructReads(t, fs, x);
    case DenseUnion(fs) => DenseUnionReads(t, fs, x);
    case SparseUnion(fs) => SparseUnionReads(t, fs, x);
    case List(e) => ElementReads(t, e.dtype, x);
    case Dictionary(i, v, _) => DictionaryReads(t, i, v, x);
    case Map(k, v, _) => MapReads(t, k, v, x);
    case FixedSizeBinary(w) => WidthReads(w, x);
    case _ => LeafReads(t, x);
  }

  lemma {:induction false} DictionaryReads(whole: DataType, i: DataType, v: DataType, x: string)
    requires Plain(i) && Plain(v) && i < whole && v < whole
    ensures ReadType("Dic<" + Print(i) + "," + Print(v) + ">" + x) == Some((Dictionary(i, v, false), x))
    decreases whole, 0, 1
  {
    PairReads(whole, i, v, x);
    PairOpens("Dic<", Print(i), Print(v), x);
    DictionaryForm("Dic<" + Print(i) + "," + Print(v) + ">" + x, i, v, x);
  }

  lemma {:induction false} DictionaryForm(s: string, i: DataType, v: DataType, x: string)
    requires |s| > 4 && Spells(s, 'D', 'i', 'c') && s[3..][0] == '<' && ReadPair(s[4..]) == Some((i, v, x))
    ensures ReadType(s) == Some((Dictionary(i, v, false), x))
  {
  }

  lemma {:induction false} MapReads(whole: DataType, k: DataType, v: DataType, x: string)
    requires Plain(k) && Plain(v) && k < whole && v < whole
    ensures ReadType("Map<" + Print(k) + "," + Print(v) + ">" + x) == Some((Map(k, v, false), x))
    decreases whole, 0, 1
  {
    PairReads(whole, k, v, x);
    PairOpens("Map<", Print(k), Print(v), x);
    MapForm("Map<" + Print(k) + "," + Print(v) + ">" + x, k, v, x);
  }

  lemma {:induction false} MapForm(s: string, k: DataType, v: DataType, x: string)
    requires |s| > 4 && Spells(s, 'M', 'a', 'p') && s[3..][0] == '<' && ReadPair(s[4..]) == Some((k, v, x))
    ensures ReadType(s) == Some((Map(k, v, false), x))
  {
  }

  lemma {:induction false} StructReads(whole: DataType, fs: seq<Field>, x: string)
    requires PlainFields(fs) && forall f :: f in fs ==> f.dtype < whole
    ensures ReadType("{" + PrintFields(fs) + "}" + x) == Some((Struct(fs), x))
    decreases whole, 0, |fs| + 2
  {
    BracedReads(whole, fs, x);
    BracedOpens("{", PrintFields(fs), x);
  }

  lemma {:induction false} DenseUnionReads(whole: DataType, fs: seq<Field>, x: string)
    requires PlainFields(fs) && forall f :: f in fs ==> f.dtype < whole
    ensures ReadType("DU{" + PrintFields(fs) + "}" + x) == Some((DenseUnion(fs), x))
    decreases whole, 0, |fs| + 2
  {
    BracedReads(whole, fs, x);
    BracedOpens("DU{", PrintFields(fs), x);
  }

  lemma {:induction false} SparseUnionReads(whole: DataType, fs: seq<Field>, x: string)
    requires PlainFields(fs) && forall f :: f in fs ==> f.dtype < whole
    ensures ReadType("SU{" + PrintFields(fs) + "}" + x) == Some((SparseUnion(fs), x))
    decreases whole, 0, |fs| + 2
  {
    BracedReads(whole, fs, x);
    BracedOpens("SU{", PrintFields(fs), x);
  }

  lemma {:induction false} WidthReads(w: int, x: string)
    ensures ReadType("FSB<" + Decimal.FormatInt(w) + ">" + x) == Some((FixedSizeBinary(w), x))
  {
    var m := Decimal.FormatInt(w);
    WidthOpens(m, x);
    FirstDelimiter(m, '>', x);
    assert (m + ['>'] + x)[..|m|] == m && (m + ['>'] + x)[|m| + 1..] == x;
    Decimal.ParseFormatted(w);
  }

  lemma {:induction false} WidthOpens(m: string, x: string)
    ensures var s := "FSB<" + m + ">" + x;
            |s| > 4 && s[0] == 'F' && s[1] == 'S' && s[2] == 'B' && s[3..][0] == '<' && s[4..] == m + ['>'] + x
  {
    assert "FSB<" + m + ">" + x == "FSB<" + (m + ['>'] + x);
  }

  lemma {:induction false} ElementReads(whole: DataType, e: DataType, x: string)
    requires Plain(e) && e < whole
    ensures ReadType("[" + Print(e) + "]" + x) == Some((List(Field("", e, false)), x))
    decreases whole, 0, 0
  {
    PrintReads(e, "]" + x);
    ListReads("[" + Print(e) + "]" + x, Print(e), e, x);
  }

  lemma {:induction false} ListReads(s: string, elem: string, e: DataType, x: string)
    requires s == "[" + elem + "]" + x && ReadType(elem + ("]" + x)) == Some((e, "]" + x))
    ensures ReadType(s) == Some((List(Field("", e, false)), x))
  {
    Regroup("[", elem, "]", x);
    assert s[0] == '[' && s[1..] == elem + ("]" + x);
    assert ("]" + x)[1..] == x;
  }

  lemma {:induction false} PairReads(whole: DataType, a: DataType, b: DataType, x: string)
    requires Plain(a) && Plain(b) && a < whole && b < whole
    ensures ReadPair(Print(a) + ("," + (Print(b) + (">" + x)))) == Some((a, b, x))
    decreases whole, 0, 0
  {
    var more := Print(b) + (">" + x);
    PrintReads(a, "," + more);
    assert ("," + more)[1..] == more;
    PrintReads(b, ">" + x);
    assert (">" + x)[1..] == x;
  }

  lemma {:induction false} PairOpens(open: string, a: string, b: string, x: string)
    requires |open| == 4
    ensures var s := open + a + "," + b + ">" + x;
            |s| > 4 && s[0] == open[0] && s[1] == open[1] && s[2] == open[2] && s[3..][0] == open[3] &&
            s[4..] == a + ("," + (b + (">" + x)))
  {
    PairRegroup(open, a, b, x);
  }

  lemma {:induction false} PairRegroup(open: string, i: string, v: string, x: string)
    ensures open + i + "," + v + ">" + x == open + (i + ("," + (v + (">" + x))))
  {
    Regroup(open + i, ",", v, ">" + x);
    assert open + i + "," + v + ">" + x == open + i + "," + v + (">" + x);
    Regroup(open, i, "", "," + (v + (">" + x)));
  }

  lemma {:induction false} BracedOpens(open: string, fields: string, x: string)
    requires |open| == 1 || |open| == 3
    ensures var s := open + fields + "}" + x;
            |s| > |open| && s[0] == open[0] && (|open| == 3 ==> s[1] == open[1] && s[2] == open[2]) &&
            s[|open|..] == fields + ("}" + x)
  {
    Regroup(open, fields, "}", x);
  }

  lemma {:induction false} BracedReads(whole: DataType, fs: seq<Field>, x: string)
    requires PlainFields(fs) && forall f :: f in fs ==> f.dtype < whole
    ensures ReadFields(PrintFields(fs) + ("}" + x)) == Some((fs, x))
    decreases whole, 0, |fs| + 1
  {
    var s := PrintFields(fs) + ("}" + x);
    if fs == [] {
      assert s == "}" + x && s[1..] == x;
    } else {
      FirstField(fs, x);
      assert fs[0] in fs;
      assert s[0] == (fs[0].name + [':'])[0];
      MoreReads(whole, fs, x);
    }
  }

  /** What follows the first field of a list that is then closed. */
  function AfterFirst(fs: seq<Field>, x: string): string
    requires fs != []
  {
    if |fs| == 1 then "}" + x else "," + (PrintFields(fs[1..]) + ("}" + x))
  }

  lemma {:induction false} FirstField(fs: seq<Field>, x: string)
    requires fs != []
    ensures PrintFields(fs) + ("}" + x) == fs[0].name + [':'] + (Print(fs[0].dtype) + AfterFirst(fs, x))
  {
  }

  lemma {:induction false} MoreReads(whole: DataType, fs: seq<Field>, x: string)
    requires fs != [] && PlainFields(fs) && forall f :: f in fs ==> f.dtype < whole
    ensures ReadMore(PrintFields(fs) + ("}" + x)) == Some((fs, x))
    decreases whole, 0, |fs|
  {
    HeadReads(whole, fs, x);
    if |fs| > 1 {
      MoreReads(whole, fs[1..], x);
    }
    var more := if |fs| == 1 then "" else PrintFields(fs[1..]) + ("}" + x);
    StepReads(PrintFields(fs) + ("}" + x), fs, AfterFirst(fs, x), more, x);
  }

  /** One turn of the reader. */
  lemma {:induction false} StepReads(s: string, fs: seq<Field>, after: string, more: string, x: string)
    requires fs != [] && FieldReads(s, fs[0], after) && after == if |fs| == 1 then "}" + x else "," + more
    requires |fs| > 1 ==> ReadMore(more) == Some((fs[1..], x))
    ensures ReadMore(s) == Some((fs, x))
  {
    if |fs| == 1 {
      LastReads(s, fs[0], x);
      assert fs == [fs[0]];
    } else {
      NextReads(s, fs[0], more, fs[1..], x);
      assert fs == [fs[0]] + fs[1..];
    }
  }

  /** `s` starts with the field, and goes on with `after`. */
  ghost predicate FieldReads(s: string, f: Field, after: string) {
    var k := IndexOf(s, ':');
    k < |s| && Field(s[..k], f.dtype, false) == f && ReadType(s[k + 1..]) == Some((f.dtype, after))
  }

  lemma {:induction false} HeadReads(whole: DataType, fs: seq<Field>, x: string)
    requires fs != [] && PlainFields(fs) && fs[0].dtype < whole
    ensures FieldReads(PrintFields(fs) + ("}" + x), fs[0], AfterFirst(fs, x))
    decreases whole, 0, 0
  {
    assert fs[0] in fs;
    FirstReads(fs, x);
    PrintReads(fs[0].dtype, AfterFirst(fs, x));
  }

  lemma {:induction false} LastReads(s: string, f: Field, x: string)
    requires FieldReads(s, f, "}" + x)
    ensures ReadMore(s) == Some(([f], x))
  {
    assert ("}" + x)[1..] == x;
  }

  lemma {:induction false} NextReads(s: string, f: Field, more: string, fs: seq<Field>, x: string)
    requires FieldReads(s, f, "," + more) && ReadMore(more) == Some((fs, x))
    ensures ReadMore(s) == Some(([f] + fs, x))
  {
    assert ("," + more)[1..] == more;
  }

  /** The first name ends at the first ':'. */
  lemma {:induction false} FirstReads(fs: seq<Field>, x: string)
    requires fs != [] && ':' !in fs[0].name
    ensures var s := PrintFields(fs) + ("}" + x);
            var k := IndexOf(s, ':');
            k < |s| && s[..k] == fs[0].name && s[k + 1..] == Print(fs[0].dtype) + AfterFirst(fs, x)
  {
    FirstField(fs, x);
    FirstDelimiter(fs[0].name, ':', Print(fs[0].dtype) + AfterFirst(fs, x));
  }

  /** Types can be told apart in any context. */
  lemma {:induction false} PrintSplit(a: DataType, b: DataType, x: string, y: string)
    requires Plain(a) && Plain(b) && Print(a) + x == Print(b) + y
    ensures a == b && x == y
  {
    PrintReads(a, x);
    PrintReads(b, y);
  }

  function Tag(t: DataType): int {
    match t
    case Prim(k) => (match k case Bool => 0 case I8 => 1 case I16 => 2 case I32 => 3 case I64 => 4
                     case U8 => 5 case U16 => 6 case U32 => 7 case U64 => 8
                     case F32 => 9 case F64 => 10 case Str => 11 case Bin => 12)
    case Timestamp(_, _) => 13
    case Duration(_) => 14
    case Struct(_) => 15
    case List(_) => 16
    case Dictionary(_, _, _) => 17
    case DenseUnion(_) => 18
    case SparseUnion(_) => 19
    case Map(_, _, _) => 20
    case FixedSizeBinary(_) => 21
    case Unsupported(_) => 22
  }

  // ---------- the canonical form decides equality up to order ----------

  lemma {:induction false} CanonIsPlain(t: DataType)
    requires WellNamed(t)
    ensures Plain(Canon(t))
    decreases t, 1
  {
    match t
    case Struct(fs) => CanonFieldsArePlain(t, fs);
    case DenseUnion(fs) => CanonFieldsArePlain(t, fs);
    case SparseUnion(fs) => CanonFieldsArePlain(t, fs);
    case List(e) => CanonIsPlain(e.dtype);
    case Dictionary(i, v, _) => CanonIsPlain(i); CanonIsPlain(v);
    case Map(k, v, _) => CanonIsPlain(k); CanonIsPlain(v);
    case _ =>
  }

  lemma {:induction false} CanonFieldsArePlain(whole: DataType, fs: seq<Field>)
    requires WellNamedFields(fs)
    requires forall f :: f in fs ==> f.dtype < whole
    ensures PlainFields(SortedFields(CanonFields(fs)))
    decreases whole, 0
  {
    SortMembers(CanonFields(fs), FieldKey);
    forall g | g in CanonFields(fs) ensures ReadableName(g.name) && !g.nullable && Plain(g.dtype) {
      var i :| 0 <= i < |fs| && CanonFields(fs)[i] == g;
      assert fs[i] in fs;
      CanonIsPlain(fs[i].dtype);
    }
  }

  lemma {:induction false} TagsDecide(a: DataType, b: DataType)
    requires Tag(a) != Tag(b)
    ensures Canon(a) != Canon(b) && !Same(a, b)
  {
    CanonKeepsTag(a);
    CanonKeepsTag(b);
  }

  lemma {:induction false} CanonKeepsTag(t: DataType)
    ensures Tag(Canon(t)) == Tag(t)
  {
  }

  lemma {:induction false} CanonDecidesSame(a: DataType, b: DataType)
    requires WellNamed(a) && WellNamed(b)
    ensures Canon(a) == Canon(b) <==> Same(a, b)
    decreases a, 1
  {
    if Tag(a) != Tag(b) {
      TagsDecide(a, b);
    } else {
      match a
      case List(e) => CanonDecidesSame(e.dtype, b.elem.dtype);
      case Dictionary(i, v, _) =>
        CanonDecidesSame(i, b.index);
        CanonDecidesSame(v, b.value);
      case Map(k, v, _) =>
        CanonDecidesSame(k, b.key);
        CanonDecidesSame(v, b.item);
      case Struct(fs) => CanonDecidesSameFields(a, fs, b.fields);
      case DenseUnion(fs) => CanonDecidesSameFields(a, fs, b.fields);
      case SparseUnion(fs) => CanonDecidesSameFields(a, fs, b.fields);
      case _ =>
    }
  }

  lemma {:induction false} CanonDecidesSameFields(whole: DataType, fs: seq<Field>, gs: seq<Field>)
    requires WellNamedFields(fs) && WellNamedFields(gs)
    requires forall f :: f in fs ==> f.dtype < whole
    ensures SortedFields(CanonFields(fs)) == SortedFields(CanonFields(gs)) <==> SameFields(fs, gs)
    decreases whole, 0
  {
    forall i, j | 0 <= i < |fs| && 0 <= j < |gs|
      ensures Canon(fs[i].dtype) == Canon(gs[j].dtype) <==> Same(fs[i].dtype, gs[j].dtype)
    {
      assert fs[i] in fs && gs[j] in gs;
      CanonDecidesSame(fs[i].dtype, gs[j].dtype);
    }
    if SortedFields(CanonFields(fs)) == SortedFields(CanonFields(gs)) {
      EqualSortsMatch(fs, gs);
    }
    if SameFields(fs, gs) {
      MatchesSortEqually(fs, gs);
    }
  }

  /** Field `i` of one list and field `j` of the other print alike. */
  ghost predicate Matches(f: Field, g: Field) {
    f.name == g.name && Canon(f.dtype) == Canon(g.dtype)
  }

  lemma {:induction false} EqualSortsMatch(fs: seq<Field>, gs: seq<Field>)
    requires SortedFields(CanonFields(fs)) == SortedFields(CanonFields(gs))
    ensures |fs| == |gs|
    ensures forall i :: 0 <= i < |fs| ==> exists j :: 0 <= j < |gs| && Matches(fs[i], gs[j])
  {
    var a, b := CanonFields(fs), CanonFields(gs);
    EqualSortsMembers(a, b, FieldKey);
    forall i | 0 <= i < |fs| ensures exists j :: 0 <= j < |gs| && Matches(fs[i], gs[j]) {
      assert a[i] in a;
      var j :| 0 <= j < |b| && b[j] == a[i];
      assert Matches(fs[i], gs[j]);
    }
  }

  lemma {:induction false} MatchesSortEqually(fs: seq<Field>, gs: seq<Field>)
    requires DistinctNames(fs) && DistinctNames(gs) && |fs| == |gs|
    requires forall i :: 0 <= i < |fs| ==> exists j :: 0 <= j < |gs| && Matches(fs[i], gs[j])
    ensures SortedFields(CanonFields(fs)) == SortedFields(CanonFields(gs))
  {
    var a, b := CanonFields(fs), CanonFields(gs);
    forall x | x in a ensures x in b {
      var i :| 0 <= i < |a| && a[i] == x;
      var j :| 0 <= j < |gs| && Matches(fs[i], gs[j]);
      assert b[j] == x;
    }
    EqualByInclusion(a, b);
    NamesKeepApart(a);
    SortPermutation(a, b, FieldKey);
  }

  lemma {:induction false} NamesKeepApart(fs: seq<Field>)
    requires DistinctNames(fs)
    ensures KeyedApart(fs, FieldKey)
  {
    forall x, y | x in fs && y in fs && FieldKey(x) == FieldKey(y) ensures x == y {
      CodesInjective(x.name, y.name);
    }
  }

  // ---------- the identifier identifies ----------

  /** Two schemas have the same identifier exactly when they are equal up to
      the order of fields at every level. */
  lemma {:induction false} IdIdentifiesSchema(s: Schema, t: Schema)
    requires WellNamedFields(s) && WellNamedFields(t)
    ensures Id(s) == Id(t) <==> SameFields(s, t)
  {
    var a, b := CanonSchema(s), CanonSchema(t);
    CanonFieldsArePlain(Struct(s), s);
    CanonFieldsArePlain(Struct(t), t);
    CanonDecidesSameFields(Struct(s), s, t);
    if Id(s) == Id(t) {
      FieldsRead(a);
      FieldsRead(b);
    }
  }

  // ---------- the identifier reads back ----------

  /** Fields are in the order of their names at every level. */
  ghost predicate InOrder(t: DataType) {
    match t
    case Struct(fs) => FieldsInOrder(fs)
    case DenseUnion(fs) => FieldsInOrder(fs)
    case SparseUnion(fs) => FieldsInOrder(fs)
    case List(e) => InOrder(e.dtype)
    case Dictionary(i, v, _) => InOrder(i) && InOrder(v)
    case Map(k, v, _) => InOrder(k) && InOrder(v)
    case _ => true
  }

  ghost predicate FieldsInOrder(fs: seq<Field>) {
    SortedBy(fs, FieldKey) && forall f :: f in fs ==> InOrder(f.dtype)
  }

  lemma {:induction false} CanonIsSame(t: DataType)
    requires WellNamed(t)
    ensures Same(Canon(t), t) && InOrder(Canon(t))
    decreases t, 1
  {
    match t
    case Struct(fs) => CanonFieldsAreSame(t, fs);
    case DenseUnion(fs) => CanonFieldsAreSame(t, fs);
    case SparseUnion(fs) => CanonFieldsAreSame(t, fs);
    case List(e) => CanonIsSame(e.dtype);
    case Dictionary(i, v, _) => CanonIsSame(i); CanonIsSame(v);
    case Map(k, v, _) => CanonIsSame(k); CanonIsSame(v);
    case _ =>
  }

  lemma {:induction false} CanonFieldsAreSame(whole: DataType, fs: seq<Field>)
    requires WellNamedFields(fs)
    requires forall f :: f in fs ==> f.dtype < whole
    ensures SameFields(SortedFields(CanonFields(fs)), fs) && FieldsInOrder(SortedFields(CanonFields(fs)))
    decreases whole, 0, 1
  {
    var gs := SortedFields(CanonFields(fs));
    SortMembers(CanonFields(fs), FieldKey);
    forall g | g in gs ensures HasSame(g, fs) && InOrder(g.dtype) {
      CanonFieldIsSame(whole, fs, g);
    }
    AllHaveSame(gs, fs);
  }

  ghost predicate HasSame(g: Field, fs: seq<Field>) {
    exists j :: 0 <= j < |fs| && g.name == fs[j].name && Same(g.dtype, fs[j].dtype)
  }

  lemma {:induction false} AllHaveSame(gs: seq<Field>, fs: seq<Field>)
    requires |gs| == |fs| && forall g :: g in gs ==> HasSame(g, fs)
    ensures SameFields(gs, fs)
  {
    forall i | 0 <= i < |gs|
      ensures exists j :: 0 <= j < |fs| && gs[i].name == fs[j].name && Same(gs[i].dtype, fs[j].dtype)
    {
      assert HasSame(gs[i], fs);
    }
    assert forall i :: 0 <= i < |gs| ==>
      exists j :: 0 <= j < |fs| && gs[i].name == fs[j].name && Same(gs[i].dtype, fs[j].dtype);
  }

  lemma {:induction false} CanonFieldIsSame(whole: DataType, fs: seq<Field>, g: Field)
    requires WellNamedFields(fs) && g in CanonFields(fs)
    requires forall f :: f in fs ==> f.dtype < whole
    ensures HasSame(g, fs) && InOrder(g.dtype)
    decreases whole, 0, 0
  {
    var j :| 0 <= j < |fs| && CanonFields(fs)[j] == g;
    assert fs[j] in fs;
    CanonIsSame(fs[j].dtype);
    assert g.name == fs[j].name && Same(g.dtype, fs[j].dtype);
  }

  /** The text reads as a type equal to `t` up to the order of fields, its own
      in the order of their names. */
  ghost predicate Denotes(text: string, t: DataType) {
    ReadType(text).Some? && ReadType(text).value.1 == "" &&
    Same(ReadType(text).value.0, t) && InOrder(ReadType(text).value.0)
  }

  lemma {:induction false} TypeReadsBack(t: DataType)
    requires WellNamed(t)
    ensures Denotes(Print(Canon(t)), t)
  {
    CanonIsPlain(t);
    CanonIsSame(t);
    PrintReads(Canon(t), "");
    assert Print(Canon(t)) + "" == Print(Canon(t));
  }

  /** The same for the fields of a schema, which no brace closes. */
  ghost predicate DenotesSchema(text: string, s: Schema) {
    var r := ReadFields(text + "}");
    r.Some? && r.value.1 == "" && SameFields(r.value.0, s) && FieldsInOrder(r.value.0)
  }

  lemma {:induction false} IdReadsBack(s: Schema)
    requires WellNamedFields(s)
    ensures DenotesSchema(Id(s), s)
  {
    CanonFieldsArePlain(Struct(s), s);
    CanonFieldsAreSame(Struct(s), s);
    FieldsRead(CanonSchema(s));
  }

  lemma {:induction false} FieldsRead(fs: seq<Field>)
    requires PlainFields(fs)
    ensures ReadFields(PrintFields(fs) + "}") == Some((fs, ""))
  {
    BracedReads(Struct(fs), fs, "");
    assert "}" + "" == "}";
  }

  /** The index type comes first. */
  lemma {:induction false} DictionaryExample(name: string)
    ensures Id([Field(name, Dictionary(Prim(U8), Prim(Str), false), false)]) == name + ":" + "Dic<U8,Str>"
  {
    var f := Field(name, Dictionary(Prim(U8), Prim(Str), false), false);
    CanonicalSchema([f]);
    assert Print(f.dtype) == "Dic<U8,Str>";
  }

  /** Without the condition on names the identifier is ambiguous: one field
      whose name holds a ':' can print like two fields. */
  lemma {:induction false} ColonInNameCollides(a: string, b: string)
    requires LexLeq(Codes(a), Codes(b)) && a != b
    ensures var p := Prim(Bool);
            var s := [Field(a + ":Bol," + b, p, false)];
            var t := [Field(a, p, false), Field(b, p, false)];
            Id(s) == Id(t) && !SameFields(s, t)
  {
    var f, g, h := Field(a, Prim(Bool), false), Field(b, Prim(Bool), false), Field(a + ":Bol," + b, Prim(Bool), false);
    SortedBools([h]);
    SortedBools([f, g]);
    calc {
      PrintFields([f, g]);
      { assert [f, g][1..] == [g]; }
      PrintField(f) + "," + PrintField(g);
      { BoolTexts(a, b); }
      PrintField(h);
      PrintFields([h]);
    }
  }

  lemma BoolTexts(a: string, b: string)
    ensures (a + ":" + "Bol") + "," + (b + ":" + "Bol") == (a + ":Bol," + b) + ":" + "Bol"
  {
  }

  lemma {:induction false} SortedBools(fs: seq<Field>)
    requires forall f :: f in fs ==> f == Field(f.name, Prim(Bool), false)
    requires SortedBy(fs, FieldKey) && DistinctNames(fs)
    ensures Id(fs) == PrintFields(fs)
  {
    assert CanonFields(fs) == fs;
    SortedAlready(fs);
  }

  lemma {:induction false} SortedAlready(fs: seq<Field>)
    requires SortedBy(fs, FieldKey) && DistinctNames(fs)
    ensures SortedFields(fs) == fs
  {
    NamesKeepApart(fs);
    SortOfSorted(fs, FieldKey);
  }

  function BoolField(name: string): Field { Field(name, Prim(Bool), false) }

  function StructField(name: string, fields: seq<Field>): Field { Field(name, Struct(fields), false) }

  lemma {:induction false} CanonicalStruct(name: string, fs: seq<Field>)
    requires CanonFields(fs) == fs && SortedBy(fs, FieldKey) && DistinctNames(fs)
    ensures CanonField(StructField(name, fs)) == StructField(name, fs)
  {
    SortedAlready(fs);
  }

  lemma {:induction false} CanonicalSchema(fs: seq<Field>)
    requires (forall i :: 0 <= i < |fs| ==> CanonField(fs[i]) == fs[i]) && SortedBy(fs, FieldKey) && DistinctNames(fs)
    ensures CanonFields(fs) == fs && Id(fs) == PrintFields(fs)
  {
    assert CanonFields(fs) == fs;
    SortedAlready(fs);
  }

  /** Nor is it enough that names hold no ':': after an empty struct, a name that
      begins with '}' can close the struct it is in. */
  lemma {:induction false} BraceInNameCollides(p: string, q: string, z: string)
    requires ':' !in p && ':' !in q && ':' !in z
    requires p != q && LexLeq(Codes(p), Codes(q)) && "}," + q != z && LexLeq(Codes("}," + q), Codes(z))
    ensures var s := [StructField(p, [StructField("}," + q, []), BoolField(z)])];
            var t := [StructField(p, []), StructField(q, [BoolField("}," + z)])];
            Id(s) == Id(t) && !SameFields(s, t)
  {
    OneStructCanonical(p, q, z);
    TwoStructsCanonical(p, q, z);
    OneStructText(p, q, z);
    TwoStructsText(p, q, z);
    BraceTexts(p, q, z);
  }

  lemma {:induction false} OneStructCanonical(p: string, q: string, z: string)
    requires "}," + q != z && LexLeq(Codes("}," + q), Codes(z))
    ensures var s := [StructField(p, [StructField("}," + q, []), BoolField(z)])];
            Id(s) == PrintFields(s)
  {
    var inner := [StructField("}," + q, []), BoolField(z)];
    CanonicalStruct("}," + q, []);
    CanonicalSchema(inner);
    CanonicalStruct(p, inner);
    CanonicalSchema([StructField(p, inner)]);
  }

  lemma {:induction false} TwoStructsCanonical(p: string, q: string, z: string)
    requires p != q && LexLeq(Codes(p), Codes(q))
    ensures var t := [StructField(p, []), StructField(q, [BoolField("}," + z)])];
            Id(t) == PrintFields(t)
  {
    CanonicalStruct(p, []);
    CanonicalSchema([BoolField("}," + z)]);
    CanonicalStruct(q, [BoolField("}," + z)]);
    CanonicalSchema([StructField(p, []), StructField(q, [BoolField("}," + z)])]);
  }

  lemma {:induction false} PrintTwo(f: Field, g: Field)
    ensures PrintFields([f, g]) == PrintField(f) + "," + PrintField(g)
  {
    assert [f, g][1..] == [g];
  }

  lemma {:induction false} PrintBool(name: string)
    ensures PrintFields([BoolField(name)]) == name + ":" + "Bol"
  {
    assert PrintField(BoolField(name)) == name + ":" + "Bol";
  }

  lemma {:induction false} PrintStruct(name: string, fs: seq<Field>, text: string)
    requires PrintFields(fs) == text
    ensures PrintField(StructField(name, fs)) == name + ":" + ("{" + text + "}")
  {
  }

  lemma {:induction false} PrintEmptyStruct(name: string)
    ensures PrintField(StructField(name, [])) == name + ":" + "{}"
  {
    PrintStruct(name, [], "");
    assert "{" + "" + "}" == "{}";
  }

  lemma {:induction false} OneStructText(p: string, q: string, z: string)
    ensures PrintFields([StructField(p, [StructField("}," + q, []), BoolField(z)])]) ==
            p + ":" + ("{" + ((("}," + q) + ":" + "{}") + "," + (z + ":" + "Bol")) + "}")
  {
    PrintEmptyStruct("}," + q);
    PrintTwo(StructField("}," + q, []), BoolField(z));
    PrintStruct(p, [StructField("}," + q, []), BoolField(z)], (("}," + q) + ":" + "{}") + "," + (z + ":" + "Bol"));
  }

  lemma {:induction false} TwoStructsText(p: string, q: string, z: string)
    ensures PrintFields([StructField(p, []), StructField(q, [BoolField("}," + z)])]) ==
            (p + ":" + "{}") + "," + (q + ":" + ("{" + (("}," + z) + ":" + "Bol") + "}"))
  {
    PrintEmptyStruct(p);
    PrintBool("}," + z);
    PrintStruct(q, [BoolField("}," + z)], ("}," + z) + ":" + "Bol");
    PrintTwo(StructField(p, []), StructField(q, [BoolField("}," + z)]));
  }

  lemma {:induction false} BraceTexts(p: string, q: string, z: string)
    ensures p + ":" + ("{" + ((("}," + q) + ":" + "{}") + "," + (z + ":" + "Bol")) + "}") ==
            (p + ":" + "{}") + "," + (q + ":" + ("{" + (("}," + z) + ":" + "Bol") + "}"))
  {
  }

  // ---------- the code ----------

  /** Sorting looks at names only, so it may come before or after. */
  lemma {:induction false} SortCanonCommutes(fs: seq<Field>)
    ensures CanonFields(SortedFields(fs)) == SortedFields(CanonFields(fs))
  {
    SortCommutes(fs, CanonField, FieldKey, FieldKey);
    assert Apply(CanonField, fs) == CanonFields(fs);
    assert Apply(CanonField, SortedFields(fs)) == CanonFields(SortedFields(fs));
  }

  lemma {:induction false} PrintFieldsAppend(fs: seq<Field>, f: Field)
    ensures PrintFields(fs + [f]) == (if fs == [] then "" else PrintFields(fs) + ",") + PrintField(f)
  {
    if fs == [] {
      assert fs + [f] == [f];
    } else {
      assert (fs + [f])[1..] == fs[1..] + [f];
      PrintFieldsAppend(fs[1..], f);
    }
  }

  method FieldToId(ghost whole: DataType, field: Field) returns (r: Option<string>)
    requires field.dtype < whole
    ensures r.Some? <==> Supported(field.dtype)
    ensures r.Some? ==> r.value == PrintField(CanonField(field))
    decreases whole, 0, 0
  {
    r := DataTypeToId(field.dtype);
    if r.Some? {
      r := Some(field.name + ":" + r.value);
    }
  }

  /** The text of the first `i` fields, with commas between them. */
  function Joined(fs: seq<Field>, i: nat): string
    requires i <= |fs|
  {
    if i == 0 then ""
    else if i == 1 then PrintField(fs[0])
    else Joined(fs, i - 1) + "," + PrintField(fs[i - 1])
  }

  lemma {:induction false} JoinedPrints(fs: seq<Field>, i: nat)
    requires i <= |fs|
    ensures Joined(fs, i) == PrintFields(fs[..i])
    decreases i
  {
    if i > 1 {
      JoinedPrints(fs, i - 1);
      PrintFieldsAppend(fs[..i - 1], fs[i - 1]);
      assert fs[..i] == fs[..i - 1] + [fs[i - 1]];
    }
  }

  lemma {:induction false} JoinStep(fs: seq<Field>, i: nat)
    requires i < |fs|
    ensures Joined(fs, i + 1) == (if i == 0 then "" else Joined(fs, i) + ",") + PrintField(fs[i])
  {
    assert "" + PrintField(fs[i]) == PrintField(fs[i]);
  }

  /** The first `i` fields have types the switch knows. */
  predicate SupportedTo(fs: seq<Field>, i: nat)
    requires i <= |fs|
  {
    i == 0 || (SupportedTo(fs, i - 1) && Supported(fs[i - 1].dtype))
  }

  lemma {:induction false} SupportedAll(fs: seq<Field>, i: nat)
    requires i <= |fs|
    ensures SupportedTo(fs, i) <==> AllSupported(fs[..i])
    decreases i
  {
    if i > 0 {
      SupportedAll(fs, i - 1);
      assert fs[..i] == fs[..i - 1] + [fs[i - 1]];
    }
  }

  lemma {:induction false} SupportedPermuted(fs: seq<Field>, gs: seq<Field>)
    requires forall f :: f in fs <==> f in gs
    ensures AllSupported(fs) <==> AllSupported(gs)
  {
  }

  lemma NotAllSupported(fs: seq<Field>, i: nat)
    requires i < |fs| && !Supported(fs[i].dtype)
    ensures !AllSupported(fs)
  {
    assert fs[i] in fs;
  }

  lemma {:induction false} AllJoined(fs: seq<Field>)
    ensures Joined(CanonFields(fs), |fs|) == PrintFields(CanonFields(fs))
    ensures SupportedTo(fs, |fs|) <==> AllSupported(fs)
  {
    JoinedPrints(CanonFields(fs), |fs|);
    SupportedAll(fs, |fs|);
    assert CanonFields(fs)[..|fs|] == CanonFields(fs) && fs[..|fs|] == fs;
  }

  /** The loop that joins the fields in the given order. */
  method JoinFields(ghost whole: DataType, sorted: seq<Field>) returns (r: Option<string>)
    requires forall i :: 0 <= i < |sorted| ==> sorted[i].dtype < whole
    ensures r.Some? <==> AllSupported(sorted)
    ensures r.Some? ==> r.value == PrintFields(CanonFields(sorted))
    decreases whole, 0, 1
  {
    ghost var canon := CanonFields(sorted);
    var id := "";
    for i := 0 to |sorted|
      invariant id == Joined(canon, i)
      invariant SupportedTo(sorted, i)
    {
      if i != 0 {
        id := id + ",";
      }
      var fieldId := FieldToId(whole, sorted[i]);
      if fieldId == None {
        NotAllSupported(sorted, i);
        return None;
      }
      id := id + fieldId.value;
      JoinStep(canon, i);
      assert canon[i] == CanonField(sorted[i]);
    }
    AllJoined(sorted);
    r := Some(id);
  }

  /** Sorts the fields by name and joins them, for a schema, a struct and the unions. */
  method FieldsToId(ghost whole: DataType, fields: seq<Field>) returns (r: Option<string>)
    requires forall f :: f in fields ==> f.dtype < whole
    ensures r.Some? <==> AllSupported(fields)
    ensures r.Some? ==> r.value == PrintFields(SortedFields(CanonFields(fields)))
    decreases whole, 0, 2
  {
    var sorted := Sort(fields, FieldKey);
    SortMembers(fields, FieldKey);
    forall i | 0 <= i < |sorted| ensures sorted[i].dtype < whole {
      assert sorted[i] in fields;
    }
    r := JoinFields(whole, sorted);
    SortCanonCommutes(fields);
    SupportedPermuted(sorted, fields);
  }

  method DataTypeToId(t: DataType) returns (r: Option<string>)
    ensures r.Some? <==> Supported(t)
    ensures r.Some? ==> r.value == Print(Canon(t))
    ensures r.Some? && WellNamed(t) ==> Denotes(r.value, t)
    decreases t, 1
  {
    if WellNamed(t) {
      TypeReadsBack(t);
    }
    match t {
      case Prim(k) => r := Some(Sig(k));
      case Timestamp(_, _) => r := Some("Tns");
      case Duration(_) => r := Some("Dur");
      case FixedSizeBinary(width) => r := Some("FSB<" + Decimal.FormatInt(width) + ">");
      case Unsupported(_) => r := None;
      case _ => r := NestedToId(t);
    }
  }

  /** The cases of the switch for types that hold other types. */
  method NestedToId(t: DataType) returns (r: Option<string>)
    requires !Leaf(t) && !t.FixedSizeBinary? && !t.Unsupported?
    ensures r.Some? <==> Supported(t)
    ensures r.Some? ==> r.value == Print(Canon(t))
    decreases t, 0, 4
  {
    match t {
      case Struct(fields) => r := BracedToId(t, "{", fields);
      case List(elem) => r := ElementToId(t, elem.dtype);
      case Dictionary(index, value, _) => r := PairToId(t, "Dic<", index, value);
      case DenseUnion(fields) => r := BracedToId(t, "DU{", fields);
      case SparseUnion(fields) => r := BracedToId(t, "SU{", fields);
      case Map(key, item, _) => r := PairToId(t, "Map<", key, item);
    }
  }

  method ElementToId(ghost whole: DataType, elem: DataType) returns (r: Option<string>)
    requires elem < whole
    ensures r.Some? <==> Supported(elem)
    ensures r.Some? ==> r.value == "[" + Print(Canon(elem)) + "]"
    decreases whole, 0, 0
  {
    r := DataTypeToId(elem);
    if r.Some? {
      r := Some("[" + r.value + "]");
    }
  }

  method BracedToId(ghost whole: DataType, open: string, fields: seq<Field>) returns (r: Option<string>)
    requires forall f :: f in fields ==> f.dtype < whole
    ensures r.Some? <==> AllSupported(fields)
    ensures r.Some? ==> r.value == open + PrintFields(SortedFields(CanonFields(fields))) + "}"
    decreases whole, 0, 3
  {
    r := FieldsToId(whole, fields);
    if r.Some? {
      r := Some(open + r.value + "}");
    }
  }

  method PairToId(ghost whole: DataType, open: string, a: DataType, b: DataType) returns (r: Option<string>)
    requires a < whole && b < whole
    ensures r.Some? <==> Supported(a) && Supported(b)
    ensures r.Some? ==> r.value == open + Print(Canon(a)) + "," + Print(Canon(b)) + ">"
    decreases whole, 0, 0
  {
    var i := DataTypeToId(a);
    var v := DataTypeToId(b);
    r := if i.Some? && v.Some? then Some(open + i.value + "," + v.value + ">") else None;
  }

  method SchemaToId(schema: Schema) returns (r: Option<string>)
    ensures r.Some? <==> AllSupported(schema)
    ensures r.Some? ==> r.value == Id(schema)
    ensures r.Some? && WellNamedFields(schema) ==> DenotesSchema(r.value, schema)
  {
    if WellNamedFields(schema) {
      IdReadsBack(schema);
    }
    r := FieldsToId(Struct(schema), schema);
  }
}
