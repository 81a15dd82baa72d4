/**
  CBOR serialization of attribute values (go/pkg/otel/common/cbor.go).

  `Enc` writes the items the code asks its encoder for, in the layout of
  sections 3.1 and 3.2.2 of RFC 8949: maps and slices have indefinite length.
  `Parse` is the decoder on the same subset, with the library's limits on
  nesting and size and its check that text is valid UTF-8.  `MayDecode` is the
  second half, which copies the decoded tree into a value; a decoded map has no
  order, so any order of its entries may come out.
 */
module Cbor {
  import opened Options
  import opened Ordering
  import opened Texts
  import opened Pdata
  import opened Utf8

  const MAX_NESTED_LEVELS: nat := 32
  const MAX_ARRAY_ELEMENTS: nat := 131072
  const MAX_MAP_PAIRS: nat := 131072

  const BREAK: byte := 0xff

  // ---------- item heads ----------

  function Pow256(k: nat): (p: nat)
    ensures p > 0
  {
    if k == 0 then 1 else 256 * Pow256(k - 1)
  }

  /** The `k` low bytes of `n`, most significant first. */
  function BigEndian(n: nat, k: nat): (r: seq<byte>)
    ensures |r| == k
  {
    if k == 0 then [] else BigEndian(n / 256, k - 1) + [n % 256]
  }

  function Number(s: seq<byte>): nat {
    if s == [] then 0 else Number(s[..|s| - 1]) * 256 + s[|s| - 1]
  }

  lemma {:induction false} BigEndianNumber(n: nat, k: nat)
    requires n < Pow256(k)
    ensures Number(BigEndian(n, k)) == n
  {
    if k > 0 {
      BigEndianNumber(n / 256, k - 1);
      assert BigEndian(n, k)[..k - 1] == BigEndian(n / 256, k - 1);
    }
  }

  /** Major type and argument in the shortest form. */
  function Head(major: nat, n: nat): (r: seq<byte>)
    requires major < 7 && n < 0x1_0000_0000_0000_0000
    ensures r != [] && r[0] / 32 == major
  {
    if n < 24 then [major * 32 + n]
    else if n < 0x100 then [major * 32 + 24] + BigEndian(n, 1)
    else if n < 0x1_0000 then [major * 32 + 25] + BigEndian(n, 2)
    else if n < 0x1_0000_0000 then [major * 32 + 26] + BigEndian(n, 4)
    else [major * 32 + 27] + BigEndian(n, 8)
  }

  /** How many bytes of argument follow the initial byte. */
  function ArgumentSize(info: nat): nat {
    if info < 24 then 0 else if info == 24 then 1 else if info == 25 then 2 else if info == 26 then 4 else 8
  }

  datatype Argument = Argument(n: nat, rest: seq<byte>)

  /** The argument of the item `bs` starts with; `None` for the reserved and
      the indefinite forms, and when the input ends early. */
  function ReadArgument(bs: seq<byte>): (r: Option<Argument>)
    requires bs != []
    ensures r.Some? ==> |r.value.rest| < |bs|
  {
    var info := bs[0] % 32;
    var size := ArgumentSize(info);
    if info > 27 || |bs| < 1 + size then None
    else if size == 0 then Some(Argument(info, bs[1..]))
    else Some(Argument(Number(bs[1..1 + size]), bs[1 + size..]))
  }

  lemma ReadHead(major: nat, n: nat, x: seq<byte>)
    requires major < 7 && n < 0x1_0000_0000_0000_0000
    ensures ReadArgument(Head(major, n) + x) == Some(Argument(n, x))
    ensures (Head(major, n) + x)[0] / 32 == major && (Head(major, n) + x)[0] % 32 < 28
  {
    var bs := Head(major, n) + x;
    var size := if n < 24 then 0 else if n < 0x100 then 1 else if n < 0x1_0000 then 2 else if n < 0x1_0000_0000 then 4 else 8;
    assert bs[0] == Head(major, n)[0];
    assert |Head(major, n)| == 1 + size;
    assert bs[1 + size..] == x;
    if size > 0 {
      assert bs[1..1 + size] == BigEndian(n, size);
      Powers();
      BigEndianNumber(n, size);
    }
  }

  lemma Powers()
    ensures Pow256(1) == 0x100 && Pow256(2) == 0x1_0000 && Pow256(4) == 0x1_0000_0000
    ensures Pow256(8) == 0x1_0000_0000_0000_0000
  {
    assert Pow256(3) == 256 * Pow256(2);
    assert Pow256(4) == 256 * Pow256(3);
    assert Pow256(5) == 256 * Pow256(4);
    assert Pow256(6) == 256 * Pow256(5);
    assert Pow256(7) == 256 * Pow256(6);
  }

  // ---------- encoding ----------

  const POSITIVE_INFINITY: bits64 := 0x7FF0_0000_0000_0000
  const NEGATIVE_INFINITY: bits64 := 0xFFF0_0000_0000_0000
  const QUIET_NAN: bits64 := 0x7FF8_0000_0000_0000

  /** Doubles take eight bytes, except that NaN and the infinities are written
      as half floats. */
  function EncDouble(bits: bits64): seq<byte> {
    if IsNaN(bits) then [0xf9, 0x7e, 0x00]
    else if bits == POSITIVE_INFINITY then [0xf9, 0x7c, 0x00]
    else if bits == NEGATIVE_INFINITY then [0xf9, 0xfc, 0x00]
    else [0xfb] + BigEndian(bits, 8)
  }

  /** Strings and byte strings have a length that fits Go's int. */
  predicate Sized(v: Value) {
    match v
    case Str(s) => |s| < 0x8000_0000_0000_0000
    case Bytes(s) => |s| < 0x8000_0000_0000_0000
    case Slice(items) => forall i :: 0 <= i < |items| ==> Sized(items[i])
    case Map(entries) =>
      forall i :: 0 <= i < |entries| ==> |entries[i].key| < 0x8000_0000_0000_0000 && Sized(entries[i].value)
    case _ => true
  }

  function Enc(v: Value): (r: seq<byte>)
    requires Sized(v)
    ensures r != [] && r[0] != BREAK
    decreases v
  {
    match v
    case Str(s) => Head(3, |s|) + s
    case Int(n) => if n >= 0 then Head(0, n) else Head(1, -1 - n)
    case Double(bits) => EncDouble(bits)
    case Bool(b) => [if b then 0xf5 else 0xf4]
    case Map(entries) => [0xbf] + EncEntries(entries) + [BREAK]
    case Slice(items) => [0x9f] + EncItems(items) + [BREAK]
    case Bytes(s) => if s == [] then [0xf6] else Head(2, |s|) + s
    case Empty => [0xf6]
  }

  function EncItems(items: seq<Value>): seq<byte>
    requires Sized(Slice(items))
    decreases items
  {
    if items == [] then [] else Enc(items[0]) + EncItems(items[1..])
  }

  function EncEntries(entries: seq<Entry>): seq<byte>
    requires Sized(Map(entries))
    decreases entries
  {
    if entries == [] then []
    else Head(3, |entries[0].key|) + entries[0].key + Enc(entries[0].value) + EncEntries(entries[1..])
  }

  /** Examples from appendix A of RFC 8949. */
  lemma NumberExamples()
    ensures Enc(Int(0)) == [0x00] && Enc(Int(23)) == [0x17] && Enc(Int(24)) == [0x18, 0x18]
    ensures Enc(Int(1000)) == [0x19, 0x03, 0xe8] && Enc(Int(1000000)) == [0x1a, 0x00, 0x0f, 0x42, 0x40]
    ensures Enc(Int(-1)) == [0x20] && Enc(Int(-1000)) == [0x39, 0x03, 0xe7]
  {
    assert BigEndian(24, 1) == [0x18];
    assert BigEndian(1000, 2) == [0x03, 0xe8];
    assert BigEndian(1000000, 3) == [0x0f, 0x42, 0x40];
    assert BigEndian(1000000, 4) == [0x00, 0x0f, 0x42, 0x40] by {
      BigEndianZero(1000000, 3);
    }
    assert BigEndian(999, 2) == [0x03, 0xe7];
  }

  lemma {:induction false} BigEndianZero(n: nat, k: nat)
    requires n < Pow256(k)
    ensures BigEndian(n, k + 1) == [0] + BigEndian(n, k)
  {
    if k > 0 {
      BigEndianZero(n / 256, k - 1);
    }
  }

  lemma DoubleExamples()
    ensures Enc(Double(0x3ff0_0000_0000_0000)) == [0xfb, 0x3f, 0xf0, 0, 0, 0, 0, 0, 0]
    ensures Enc(Double(POSITIVE_INFINITY)) == [0xf9, 0x7c, 0x00] && Enc(Double(QUIET_NAN)) == [0xf9, 0x7e, 0x00]
  {
    assert BigEndian(0x3ff0, 2) == [0x3f, 0xf0];
    assert BigEndian(0x3ff0_0000, 4) == [0x3f, 0xf0, 0, 0];
    assert BigEndian(0x3ff0_0000_0000, 6) == [0x3f, 0xf0, 0, 0, 0, 0];
    assert BigEndian(0x3ff0_0000_0000_0000, 8) == [0x3f, 0xf0, 0, 0, 0, 0, 0, 0];
  }

  lemma SimpleExamples()
    ensures Enc(Bool(false)) == [0xf4] && Enc(Bool(true)) == [0xf5] && Enc(Empty) == [0xf6]
    ensures Enc(Bytes([1, 2, 3, 4])) == [0x44, 1, 2, 3, 4] && Enc(Str([0x61])) == [0x61, 0x61]
  {
  }

  lemma NestedExamples()
    ensures Enc(Slice([])) == [0x9f, 0xff] && Enc(Map([])) == [0xbf, 0xff]
    ensures Enc(Map([Entry([0x61], Int(1))])) == [0xbf, 0x61, 0x61, 0x01, 0xff]
  {
    var e := Entry([0x61], Int(1));
    assert [e][1..] == [];
    assert EncEntries([e]) == [0x61] + [0x61] + [0x01] + [];
  }

  // ---------- decoding into a tree ----------

  datatype Pair = Pair(key: Tree, value: Tree)

  /** What the decoder library produces for an `interface{}` target. */
  datatype Tree =
    | Nil
    | Text(s: seq<byte>)
    | Unsigned(u: nat)
    | Negative(n: int)
    | Float(bits: bits64)
    | Boolean(b: bool)
    | Blob(s: seq<byte>)
    | Items(items: seq<Tree>)
    | Pairs(pairs: seq<Pair>)

  datatype Parsed<+T> = Parsed(tree: T, rest: seq<byte>)

  /** The simple values and floats this encoder writes. */
  function ParseSimple(bs: seq<byte>): (r: Option<Parsed<Tree>>)
    requires bs != []
    ensures r.Some? ==> |r.value.rest| < |bs|
  {
    if bs[0] == 0xf4 then Some(Parsed(Boolean(false), bs[1..]))
    else if bs[0] == 0xf5 then Some(Parsed(Boolean(true), bs[1..]))
    else if bs[0] == 0xf6 then Some(Parsed(Nil, bs[1..]))
    else if bs[0] == 0xfb && |bs| >= 9 then
      NumberBound(bs[1..9]);
      Powers();
      Some(Parsed(Float(Number(bs[1..9])), bs[9..]))
    else if |bs| >= 3 && bs[..3] == [0xf9, 0x7c, 0x00] then Some(Parsed(Float(POSITIVE_INFINITY), bs[3..]))
    else if |bs| >= 3 && bs[..3] == [0xf9, 0xfc, 0x00] then Some(Parsed(Float(NEGATIVE_INFINITY), bs[3..]))
    else if |bs| >= 3 && bs[..3] == [0xf9, 0x7e, 0x00] then Some(Parsed(Float(QUIET_NAN), bs[3..]))
    else None
  }

  lemma {:induction false} NumberBound(s: seq<byte>)
    ensures Number(s) < Pow256(|s|)
  {
    if s != [] {
      NumberBound(s[..|s| - 1]);
    }
  }

  /** One item, inside `depth` arrays and maps. */
  function Parse(bs: seq<byte>, depth: nat): (r: Option<Parsed<Tree>>)
    ensures r.Some? ==> |r.value.rest| < |bs|
    decreases |bs|, 0
  {
    if bs == [] then None
    else if bs[0] == 0x9f || bs[0] == 0xbf then
      if depth >= MAX_NESTED_LEVELS then None
      else if bs[0] == 0x9f then
        match ParseItems(bs[1..], depth + 1, 0)
        case None => None
        case Some(p) => Some(Parsed(Items(p.tree), p.rest))
      else
        match ParsePairs(bs[1..], depth + 1, 0)
        case None => None
        case Some(p) => Some(Parsed(Pairs(p.tree), p.rest))
    else if bs[0] / 32 == 7 then ParseSimple(bs)
    else
      match ReadArgument(bs)
      case None => None
      case Some(Argument(n, rest)) =>
        if bs[0] / 32 == 0 then Some(Parsed(Unsigned(n), rest))
        else if bs[0] / 32 == 1 then Some(Parsed(Negative(-1 - n), rest))
        else if bs[0] / 32 > 3 || n > |rest| then None
        else if bs[0] / 32 == 2 then Some(Parsed(Blob(rest[..n]), rest[n..]))
        else if ValidUtf8(rest[..n]) then Some(Parsed(Text(rest[..n]), rest[n..]))
        else None
  }

  function ParseItems(bs: seq<byte>, depth: nat, count: nat): (r: Option<Parsed<seq<Tree>>>)
    ensures r.Some? ==> |r.value.rest| < |bs|
    decreases |bs|, 1
  {
    if bs == [] then None
    else if bs[0] == BREAK then Some(Parsed([], bs[1..]))
    else
      match Parse(bs, depth)
      case None => None
      case Some(item) =>
        if count + 1 > MAX_ARRAY_ELEMENTS then None
        else
          match ParseItems(item.rest, depth, count + 1)
          case None => None
          case Some(more) => Some(Parsed([item.tree] + more.tree, more.rest))
  }

  function ParsePairs(bs: seq<byte>, depth: nat, count: nat): (r: Option<Parsed<seq<Pair>>>)
    ensures r.Some? ==> |r.value.rest| < |bs|
    decreases |bs|, 1
  {
    if bs == [] then None
    else if bs[0] == BREAK then Some(Parsed([], bs[1..]))
    else
      match Parse(bs, depth)
      case None => None
      case Some(key) =>
        match Parse(key.rest, depth)
        case None => None
        case Some(value) =>
          if count + 1 > MAX_MAP_PAIRS then None
          else
            match ParsePairs(value.rest, depth, count + 1)
            case None => None
            case Some(more) => Some(Parsed([Pair(key.tree, value.tree)] + more.tree, more.rest))
  }

  // ---------- parsing what was encoded ----------

  /** The decoder accepts the encoding: text is valid UTF-8, and nesting and
      sizes keep to its limits. */
  predicate Accepted(v: Value, depth: nat)
    decreases v
  {
    match v
    case Str(s) => ValidUtf8(s)
    case Slice(items) => depth < MAX_NESTED_LEVELS && AcceptedItems(items, depth + 1, 0)
    case Map(entries) => depth < MAX_NESTED_LEVELS && AcceptedEntries(entries, depth + 1, 0)
    case _ => true
  }

  /** The same for the items of an array, of which `count` came before. */
  predicate AcceptedItems(items: seq<Value>, depth: nat, count: nat)
    decreases items
  {
    (items != [] ==> count + |items| <= MAX_ARRAY_ELEMENTS) &&
    forall i :: 0 <= i < |items| ==> Accepted(items[i], depth)
  }

  /** The same for the entries of a map. */
  predicate AcceptedEntries(entries: seq<Entry>, depth: nat, count: nat)
    decreases entries
  {
    (entries != [] ==> count + |entries| <= MAX_MAP_PAIRS) &&
    forall i :: 0 <= i < |entries| ==> ValidUtf8(entries[i].key) && Accepted(entries[i].value, depth)
  }

  /** The library's limits: 32 levels, and 131072 elements or pairs in each. */
  lemma LimitsExactly(items: seq<Value>, entries: seq<Entry>, depth: nat)
    ensures Accepted(Slice(items), depth) <==>
            depth < 32 && |items| <= 131072 && forall i :: 0 <= i < |items| ==> Accepted(items[i], depth + 1)
    ensures Accepted(Map(entries), depth) <==>
            depth < 32 && |entries| <= 131072 &&
            forall i :: 0 <= i < |entries| ==> ValidUtf8(entries[i].key) && Accepted(entries[i].value, depth + 1)
  {
  }

  /** The tree a value is read back as. */
  function TreeOf(v: Value): Tree {
    match v
    case Empty => Nil
    case Str(s) => Text(s)
    case Int(n) => if n >= 0 then Unsigned(n) else Negative(n)
    case Double(bits) => Float(if IsNaN(bits) then QUIET_NAN else bits)
    case Bool(b) => Boolean(b)
    case Bytes(s) => if s == [] then Nil else Blob(s)
    case Slice(items) => Items(TreesOf(items))
    case Map(entries) => Pairs(PairsOf(entries))
  }

  function TreesOf(items: seq<Value>): (r: seq<Tree>)
    ensures |r| == |items| && forall i :: 0 <= i < |r| ==> r[i] == TreeOf(items[i])
  {
    if items == [] then [] else [TreeOf(items[0])] + TreesOf(items[1..])
  }

  function PairsOf(entries: seq<Entry>): (r: seq<Pair>)
    ensures |r| == |entries| && forall i :: 0 <= i < |r| ==> r[i] == Pair(Text(entries[i].key), TreeOf(entries[i].value))
  {
    if entries == [] then []
    else [Pair(Text(entries[0].key), TreeOf(entries[0].value))] + PairsOf(entries[1..])
  }

  lemma ParseText(s: seq<byte>, depth: nat, x: seq<byte>)
    requires |s| < 0x8000_0000_0000_0000
    ensures Parse(Head(3, |s|) + s + x, depth) == if ValidUtf8(s) then Some(Parsed(Text(s), x)) else None
  {
    ReadHead(3, |s|, s + x);
    assert Head(3, |s|) + s + x == Head(3, |s|) + (s + x);
    assert (s + x)[..|s|] == s && (s + x)[|s|..] == x;
  }

  lemma ParseBlob(s: seq<byte>, depth: nat, x: seq<byte>)
    requires |s| < 0x8000_0000_0000_0000
    ensures Parse(Head(2, |s|) + s + x, depth) == Some(Parsed(Blob(s), x))
  {
    ReadHead(2, |s|, s + x);
    assert Head(2, |s|) + s + x == Head(2, |s|) + (s + x);
    assert (s + x)[..|s|] == s && (s + x)[|s|..] == x;
  }

  lemma ParseInt(n: int64, depth: nat, x: seq<byte>)
    ensures Parse(Enc(Int(n)) + x, depth) == Some(Parsed(TreeOf(Int(n)), x))
  {
    if n >= 0 {
      ReadHead(0, n, x);
    } else {
      ReadHead(1, -1 - n, x);
    }
  }

  /** The three half floats the encoder writes. */
  function HalfFloat(b: byte): bits64 {
    if b == 0x7c then POSITIVE_INFINITY else if b == 0xfc then NEGATIVE_INFINITY else QUIET_NAN
  }

  lemma ParseHalfFloat(b: byte, depth: nat, x: seq<byte>)
    requires b == 0x7c || b == 0xfc || b == 0x7e
    ensures Parse([0xf9, b, 0x00] + x, depth) == Some(Parsed(Float(HalfFloat(b)), x))
  {
    var bs := [0xf9, b, 0x00] + x;
    assert bs[..3] == [0xf9, b, 0x00] && bs[3..] == x;
    assert bs[..3][1] == b;
  }

  lemma ParseFullFloat(bits: bits64, depth: nat, x: seq<byte>)
    ensures Parse([0xfb] + BigEndian(bits, 8) + x, depth) == Some(Parsed(Float(bits), x))
  {
    var bs := [0xfb] + BigEndian(bits, 8) + x;
    assert bs[1..9] == BigEndian(bits, 8) && bs[9..] == x;
    Powers();
    BigEndianNumber(bits, 8);
  }

  lemma ParseDouble(bits: bits64, depth: nat, x: seq<byte>)
    ensures Parse(EncDouble(bits) + x, depth) == Some(Parsed(TreeOf(Double(bits)), x))
  {
    var nan := IsNaN(bits);
    assert TreeOf(Double(bits)) == Float(if nan then QUIET_NAN else bits);
    if nan {
      assert EncDouble(bits) == [0xf9, 0x7e, 0x00];
      ParseHalfFloat(0x7e, depth, x);
    } else if bits == POSITIVE_INFINITY {
      assert EncDouble(bits) == [0xf9, 0x7c, 0x00];
      ParseHalfFloat(0x7c, depth, x);
    } else if bits == NEGATIVE_INFINITY {
      assert EncDouble(bits) == [0xf9, 0xfc, 0x00];
      ParseHalfFloat(0xfc, depth, x);
    } else {
      assert EncDouble(bits) == [0xfb] + BigEndian(bits, 8);
      ParseFullFloat(bits, depth, x);
    }
  }

  /** Parsing an encoded value, whatever follows it, consumes exactly its bytes
      and gives its tree; and fails exactly when the decoder's limits are
      exceeded. */
  lemma {:induction false} ParseEncoded(v: Value, depth: nat, x: seq<byte>)
    requires Sized(v)
    ensures Parse(Enc(v) + x, depth) == if Accepted(v, depth) then Some(Parsed(TreeOf(v), x)) else None
    decreases v, 1
  {
    match v
    case Str(s) => ParseText(s, depth, x);
    case Int(n) => ParseInt(n, depth, x);
    case Double(bits) => ParseDouble(bits, depth, x);
    case Bool(b) => ParseOneByte(if b then 0xf5 else 0xf4, depth, x);
    case Empty => ParseOneByte(0xf6, depth, x);
    case Bytes(s) => if s == [] { ParseOneByte(0xf6, depth, x); } else { ParseBlob(s, depth, x); }
    case Slice(items) => ParseSlice(v, items, depth, x);
    case Map(entries) => ParseMap(v, entries, depth, x);
  }

  lemma {:induction false} ParseSlice(v: Value, items: seq<Value>, depth: nat, x: seq<byte>)
    requires Sized(v) && v == Slice(items)
    ensures Parse(Enc(v) + x, depth) == if Accepted(v, depth) then Some(Parsed(TreeOf(v), x)) else None
    decreases v, 0
  {
    ParseEncodedItems(items, depth + 1, 0, x);
    ParseOpenArray(EncItems(items), depth, x);
    assert Enc(v) == [0x9f] + EncItems(items) + [BREAK];
  }

  lemma {:induction false} ParseMap(v: Value, entries: seq<Entry>, depth: nat, x: seq<byte>)
    requires Sized(v) && v == Map(entries)
    ensures Parse(Enc(v) + x, depth) == if Accepted(v, depth) then Some(Parsed(TreeOf(v), x)) else None
    decreases v, 0
  {
    ParseEncodedEntries(entries, depth + 1, 0, x);
    ParseOpenMap(EncEntries(entries), depth, x);
    assert Enc(v) == [0xbf] + EncEntries(entries) + [BREAK];
  }

  lemma ParseOneByte(b: byte, depth: nat, x: seq<byte>)
    requires b == 0xf4 || b == 0xf5 || b == 0xf6
    ensures Parse([b] + x, depth) == Some(Parsed(if b == 0xf6 then Nil else Boolean(b == 0xf5), x))
  {
    assert ([b] + x)[1..] == x;
  }

  /** A container is parsed by the loop for its kind, one level deeper. */
  lemma ParseOpenArray(body: seq<byte>, depth: nat, x: seq<byte>)
    ensures Parse([0x9f] + body + [BREAK] + x, depth) ==
            if depth >= MAX_NESTED_LEVELS then None
            else
              match ParseItems(body + ([BREAK] + x), depth + 1, 0)
              case None => None
              case Some(p) => Some(Parsed(Items(p.tree), p.rest))
  {
    assert ([0x9f] + body + [BREAK] + x)[1..] == body + ([BREAK] + x);
  }

  lemma ParseOpenMap(body: seq<byte>, depth: nat, x: seq<byte>)
    ensures Parse([0xbf] + body + [BREAK] + x, depth) ==
            if depth >= MAX_NESTED_LEVELS then None
            else
              match ParsePairs(body + ([BREAK] + x), depth + 1, 0)
              case None => None
              case Some(p) => Some(Parsed(Pairs(p.tree), p.rest))
  {
    assert ([0xbf] + body + [BREAK] + x)[1..] == body + ([BREAK] + x);
  }

  lemma {:induction false} ParseEncodedItems(items: seq<Value>, depth: nat, count: nat, x: seq<byte>)
    requires Sized(Slice(items))
    ensures ParseItems(EncItems(items) + ([BREAK] + x), depth, count) ==
            if AcceptedItems(items, depth, count) then Some(Parsed(TreesOf(items), x)) else None
    decreases items
  {
    if items == [] {
      assert EncItems(items) + ([BREAK] + x) == [BREAK] + x;
      assert ([BREAK] + x)[1..] == x;
    } else {
      var more := EncItems(items[1..]) + ([BREAK] + x);
      Assoc(Enc(items[0]), EncItems(items[1..]), [BREAK] + x);
      ParseEncoded(items[0], depth, more);
      ParseItem(items[0], depth, count, more);
      AcceptedFirstItem(items, depth, count);
      ParseEncodedItems(items[1..], depth, count + 1, x);
    }
  }

  lemma AcceptedFirstItem(items: seq<Value>, depth: nat, count: nat)
    requires items != []
    ensures AcceptedItems(items, depth, count) <==>
            count + 1 <= MAX_ARRAY_ELEMENTS && Accepted(items[0], depth) && AcceptedItems(items[1..], depth, count + 1)
  {
    assert items == [items[0]] + items[1..];
    if AcceptedItems(items[1..], depth, count + 1) {
      forall i | 1 <= i < |items| ensures Accepted(items[i], depth) {
        assert items[i] == items[1..][i - 1];
      }
    }
  }

  lemma ParseItem(v: Value, depth: nat, count: nat, more: seq<byte>)
    requires Sized(v)
    requires Parse(Enc(v) + more, depth) == if Accepted(v, depth) then Some(Parsed(TreeOf(v), more)) else None
    ensures ParseItems(Enc(v) + more, depth, count) ==
            if !Accepted(v, depth) || count + 1 > MAX_ARRAY_ELEMENTS then None
            else
              match ParseItems(more, depth, count + 1)
              case None => None
              case Some(p) => Some(Parsed([TreeOf(v)] + p.tree, p.rest))
  {
    assert Enc(v) != [] && (Enc(v) + more)[0] != BREAK;
  }

  lemma {:induction false} ParseEncodedEntries(entries: seq<Entry>, depth: nat, count: nat, x: seq<byte>)
    requires Sized(Map(entries))
    ensures ParsePairs(EncEntries(entries) + ([BREAK] + x), depth, count) ==
            if AcceptedEntries(entries, depth, count) then Some(Parsed(PairsOf(entries), x)) else None
    decreases entries
  {
    if entries == [] {
      assert EncEntries(entries) + ([BREAK] + x) == [BREAK] + x;
      assert ([BREAK] + x)[1..] == x;
    } else {
      var more := EncEntries(entries[1..]) + ([BREAK] + x);
      ParseEncoded(entries[0].value, depth, more);
      ParseEntry(entries[0], depth, count, more);
      Regroup(Head(3, |entries[0].key|) + entries[0].key, Enc(entries[0].value), EncEntries(entries[1..]), [BREAK] + x);
      AcceptedFirst(entries, depth, count);
      ParseEncodedEntries(entries[1..], depth, count + 1, x);
    }
  }

  lemma AcceptedFirst(entries: seq<Entry>, depth: nat, count: nat)
    requires entries != []
    ensures AcceptedEntries(entries, depth, count) <==>
            count + 1 <= MAX_MAP_PAIRS && ValidUtf8(entries[0].key) && Accepted(entries[0].value, depth) &&
            AcceptedEntries(entries[1..], depth, count + 1)
  {
    assert entries == [entries[0]] + entries[1..];
    if AcceptedEntries(entries[1..], depth, count + 1) {
      forall i | 1 <= i < |entries| ensures ValidUtf8(entries[i].key) && Accepted(entries[i].value, depth) {
        assert entries[i] == entries[1..][i - 1];
      }
    }
  }

  lemma ParseEntry(e: Entry, depth: nat, count: nat, more: seq<byte>)
    requires |e.key| < 0x8000_0000_0000_0000 && Sized(e.value)
    requires Parse(Enc(e.value) + more, depth) ==
             if Accepted(e.value, depth) then Some(Parsed(TreeOf(e.value), more)) else None
    ensures ParsePairs(Head(3, |e.key|) + e.key + (Enc(e.value) + more), depth, count) ==
            if ValidUtf8(e.key) && Accepted(e.value, depth) && count + 1 <= MAX_MAP_PAIRS then
              (match ParsePairs(more, depth, count + 1)
               case None => None
               case Some(p) => Some(Parsed([Pair(Text(e.key), TreeOf(e.value))] + p.tree, p.rest)))
            else None
  {
    ParseText(e.key, depth, Enc(e.value) + more);
    assert (Head(3, |e.key|) + e.key + (Enc(e.value) + more))[0] == Head(3, |e.key|)[0];
  }

  // ---------- from the tree to a value ----------

  /** The pair a Go map keeps for key `k`, the last with that key, or -1. */
  function KeptAt(ps: seq<Pair>, k: Tree): (i: int)
    ensures -1 <= i < |ps|
    ensures i >= 0 ==> ps[i].key == k
    ensures forall j :: i < j < |ps| ==> ps[j].key != k
  {
    if ps == [] then -1
    else if ps[|ps| - 1].key == k then |ps| - 1
    else KeptAt(ps[..|ps| - 1], k)
  }

  /** No number out of int64 range and no map key that is not text. */
  ghost predicate Convertible(t: Tree) {
    match t
    case Unsigned(u) => u < 0x8000_0000_0000_0000
    case Negative(n) => -0x8000_0000_0000_0000 <= n < 0
    case Items(ts) => forall i :: 0 <= i < |ts| ==> Convertible(ts[i])
    case Pairs(ps) => forall i :: 0 <= i < |ps| ==>
                        ps[i].key.Text? && (KeptAt(ps, ps[i].key) == i ==> Convertible(ps[i].value))
    case _ => true
  }

  /** `after` is a value that decoding `t` into `before` may leave; a null
      leaves it alone, and the entries of a map come in any order. */
  ghost predicate MayDecode(t: Tree, before: Value, after: Value)
    decreases t
  {
    match t
    case Nil => after == before
    case Text(s) => after == Str(s)
    case Unsigned(u) => u < 0x8000_0000_0000_0000 && after == Int(u)
    case Negative(n) => -0x8000_0000_0000_0000 <= n < 0 && after == Int(n)
    case Float(bits) => after == Double(bits)
    case Boolean(b) => after == Bool(b)
    case Blob(s) => after == Bytes(s)
    case Items(ts) =>
      after.Slice? && |after.items| == |ts| &&
      forall i :: 0 <= i < |ts| ==> MayDecode(ts[i], Empty, after.items[i])
    case Pairs(ps) =>
      after.Map? && DistinctKeys(after.entries) &&
      (forall i :: 0 <= i < |ps| ==> ps[i].key.Text? && HasKey(after.entries, ps[i].key.s)) &&
      (forall j :: 0 <= j < |after.entries| ==>
        var i := KeptAt(ps, Text(after.entries[j].key));
        i >= 0 && MayDecode(ps[i].value, Empty, after.entries[j].value))
  }

  predicate HasKey(entries: seq<Entry>, key: seq<byte>) {
    exists j :: 0 <= j < |entries| && entries[j].key == key
  }

  /** What survives serialization: an empty byte string becomes Empty. */
  function Normal(v: Value): Value {
    match v
    case Bytes(s) => if s == [] then Empty else v
    case Slice(items) => Slice(NormalItems(items))
    case Map(entries) => Map(NormalEntries(entries))
    case _ => v
  }

  function NormalItems(items: seq<Value>): (r: seq<Value>)
    ensures |r| == |items| && forall i :: 0 <= i < |r| ==> r[i] == Normal(items[i])
  {
    if items == [] then [] else [Normal(items[0])] + NormalItems(items[1..])
  }

  function NormalEntries(entries: seq<Entry>): (r: seq<Entry>)
    ensures |r| == |entries| && forall i :: 0 <= i < |r| ==> r[i] == Entry(entries[i].key, Normal(entries[i].value))
  {
    if entries == [] then [] else [Entry(entries[0].key, Normal(entries[0].value))] + NormalEntries(entries[1..])
  }

  lemma {:induction false} TreeConvertible(v: Value)
    ensures Convertible(TreeOf(v))
    decreases v
  {
    match v
    case Slice(items) =>
      forall i | 0 <= i < |items| ensures Convertible(TreesOf(items)[i]) { TreeConvertible(items[i]); }
    case Map(entries) =>
      forall i | 0 <= i < |entries| ensures Convertible(PairsOf(entries)[i].value) { TreeConvertible(entries[i].value); }
    case _ =>
  }

  lemma {:induction false} DecodedEqual(v: Value, out: Value)
    requires ProperMaps(v) && NoNaN(v) && MayDecode(TreeOf(v), Empty, out)
    ensures ValuesEqual(Normal(v), out)
    decreases v, 1
  {
    match v
    case Slice(items) =>
      forall i | 0 <= i < |items| ensures ValuesEqual(NormalItems(items)[i], out.items[i]) {
        assert items[i] in items;
        assert MayDecode(TreesOf(items)[i], Empty, out.items[i]);
        DecodedEqual(items[i], out.items[i]);
      }
    case Map(entries) => DecodedMapEqual(v, entries, out.entries);
    case _ =>
  }

  lemma {:induction false} DecodedMapEqual(v: Value, es: seq<Entry>, fs: seq<Entry>)
    requires v == Map(es) && ProperMaps(v) && NoNaN(v) && MayDecode(TreeOf(v), Empty, Map(fs))
    ensures ValuesEqual(Normal(v), Map(fs))
    decreases v, 0
  {
    SameKeyCount(es, fs);
    forall i | 0 <= i < |es| ensures FoundEqual(NormalEntries(es)[i], fs) {
      var j := KeyIndex(es, fs, i);
      assert es[i] in es;
      DecodedEqual(es[i].value, fs[j].value);
      GetOwn(fs, j);
    }
  }

  /** The entry that a decoded one came from. */
  lemma {:induction false} KeySource(es: seq<Entry>, fs: seq<Entry>, j: nat) returns (k: nat)
    requires j < |fs| && MayDecode(Pairs(PairsOf(es)), Empty, Map(fs))
    ensures k < |es| && es[k].key == fs[j].key && MayDecode(TreeOf(es[k].value), Empty, fs[j].value)
  {
    var ps := PairsOf(es);
    k := KeptAt(ps, Text(fs[j].key));
    assert ps[k] == Pair(Text(es[k].key), TreeOf(es[k].value));
  }

  lemma {:induction false} SameKeyIndex(es: seq<Entry>, i: nat, k: nat)
    requires DistinctKeys(es) && i < |es| && k < |es| && es[i].key == es[k].key
    ensures i == k
  {
  }

  /** Where an entry ended up after decoding. */
  lemma {:induction false} KeyIndex(es: seq<Entry>, fs: seq<Entry>, i: nat) returns (j: nat)
    requires i < |es| && DistinctKeys(es) && MayDecode(Pairs(PairsOf(es)), Empty, Map(fs))
    ensures j < |fs| && fs[j].key == es[i].key && MayDecode(TreeOf(es[i].value), Empty, fs[j].value)
  {
    j := KeyAt(es, fs, i);
    var k := KeySource(es, fs, j);
    SameKeyIndex(es, i, k);
  }

  lemma {:induction false} KeyAt(es: seq<Entry>, fs: seq<Entry>, i: nat) returns (j: nat)
    requires i < |es| && MayDecode(Pairs(PairsOf(es)), Empty, Map(fs))
    ensures j < |fs| && fs[j].key == es[i].key
  {
    var ps := PairsOf(es);
    assert ps[i].key == Text(es[i].key);
    assert HasKey(fs, es[i].key);
    j :| 0 <= j < |fs| && fs[j].key == es[i].key;
  }

  lemma {:induction false} KeysAppear(es: seq<Entry>, fs: seq<Entry>, x: seq<byte>)
    requires MayDecode(Pairs(PairsOf(es)), Empty, Map(fs))
    ensures x in Keys(es) <==> x in Keys(fs)
  {
    if x in Keys(es) {
      var i :| 0 <= i < |es| && Keys(es)[i] == x;
      var j := KeyAt(es, fs, i);
      assert Keys(fs)[j] == x;
    }
    if x in Keys(fs) {
      var j :| 0 <= j < |fs| && Keys(fs)[j] == x;
      var k := KeySource(es, fs, j);
      assert Keys(es)[k] == x;
    }
  }

  lemma {:induction false} SameKeyCount(es: seq<Entry>, fs: seq<Entry>)
    requires DistinctKeys(es) && MayDecode(Pairs(PairsOf(es)), Empty, Map(fs))
    ensures |es| == |fs|
  {
    forall x | x in Keys(es) ensures x in Keys(fs) {
      KeysAppear(es, fs, x);
    }
    forall x | x in Keys(fs) ensures x in Keys(es) {
      KeysAppear(es, fs, x);
    }
    assert DistinctKeys(fs);
    EqualLength(Keys(es), Keys(fs));
  }

  /** A NaN equals nothing, and none is lost on the way. */
  lemma {:induction false} EqualHasNoNaN(v: Value, w: Value)
    requires ValuesEqual(Normal(v), w)
    ensures NoNaN(v)
    decreases v
  {
    match v
    case Slice(items) =>
      forall x | x in items ensures NoNaN(x) {
        var i :| 0 <= i < |items| && items[i] == x;
        assert ValuesEqual(NormalItems(items)[i], w.items[i]);
        EqualHasNoNaN(x, w.items[i]);
      }
    case Map(entries) =>
      forall e | e in entries ensures NoNaN(e.value) {
        var i :| 0 <= i < |entries| && entries[i] == e;
        assert FoundEqual(NormalEntries(entries)[i], w.entries);
        EqualHasNoNaN(e.value, Get(w.entries, e.key).value);
      }
    case _ =>
  }

  /** Reading back what was written, with anything after it: the decoder accepts
      it exactly when it keeps to the limits and stops right behind it, and the
      value the copy leaves equals the original, with its empty byte strings
      replaced by Empty, exactly when no NaN is in it. */
  lemma RoundTrip(v: Value, suffix: seq<byte>)
    requires Sized(v) && ProperMaps(v)
    ensures Parse(Enc(v) + suffix, 0).Some? <==> Accepted(v, 0)
    ensures Accepted(v, 0) ==>
            var p := Parse(Enc(v) + suffix, 0).value;
            p.rest == suffix && Convertible(p.tree) &&
            forall out :: MayDecode(p.tree, Empty, out) ==> (ValuesEqual(Normal(v), out) <==> NoNaN(v))
  {
    ParseEncoded(v, 0, suffix);
    TreeConvertible(v);
    if Accepted(v, 0) {
      forall out | MayDecode(TreeOf(v), Empty, out) ensures ValuesEqual(Normal(v), out) <==> NoNaN(v) {
        if NoNaN(v) {
          DecodedEqual(v, out);
        } else if ValuesEqual(Normal(v), out) {
          EqualHasNoNaN(v, out);
        }
      }
    }
  }

  // ---------- the code ----------

  lemma EncItemsFirst(items: seq<Value>)
    requires items != [] && Sized(Slice(items))
    ensures EncItems(items) == Enc(items[0]) + EncItems(items[1..])
  {
  }

  lemma {:induction false} EncItemsAppend(items: seq<Value>, v: Value)
    requires Sized(Slice(items)) && Sized(v) && Sized(Slice(items + [v]))
    ensures EncItems(items + [v]) == EncItems(items) + Enc(v)
    decreases |items|
  {
    if items == [] {
      assert items + [v] == [v];
      EncItemsFirst([v]);
    } else {
      var rest := items[1..];
      assert (items + [v])[1..] == rest + [v];
      EncItemsAppend(rest, v);
      EncItemsFirst(items + [v]);
      EncItemsFirst(items);
      Assoc(Enc(items[0]), EncItems(rest), Enc(v));
    }
  }

  function EncEntry(e: Entry): seq<byte>
    requires |e.key| < 0x8000_0000_0000_0000 && Sized(e.value)
  {
    Head(3, |e.key|) + e.key + Enc(e.value)
  }

  lemma EncEntriesFirst(entries: seq<Entry>)
    requires entries != [] && Sized(Map(entries))
    ensures EncEntries(entries) == EncEntry(entries[0]) + EncEntries(entries[1..])
  {
  }

  lemma {:induction false} EncEntriesAppend(entries: seq<Entry>, e: Entry)
    requires Sized(Map(entries)) && Sized(Map(entries + [e])) && |e.key| < 0x8000_0000_0000_0000 && Sized(e.value)
    ensures EncEntries(entries + [e]) == EncEntries(entries) + EncEntry(e)
    decreases |entries|
  {
    if entries == [] {
      assert entries + [e] == [e];
      EncEntriesFirst([e]);
    } else {
      var rest := entries[1..];
      assert (entries + [e])[1..] == rest + [e];
      EncEntriesAppend(rest, e);
      EncEntriesFirst(entries + [e]);
      EncEntriesFirst(entries);
      Assoc(EncEntry(entries[0]), EncEntries(rest), EncEntry(e));
    }
  }

  lemma Enclosed(before: seq<byte>, open: byte, body: seq<byte>)
    ensures before + [open] + body + [BREAK] == before + ([open] + body + [BREAK])
  {
    Regroup(before, [open], body, [BREAK]);
    Assoc([open], body, [BREAK]);
  }

  /** The encoder and the buffer it appends to. */
  class Encoder {
    var buf: seq<byte>

    constructor ()
      ensures buf == []
    {
      buf := [];
    }

    method EncodeText(s: seq<byte>)
      requires |s| < 0x8000_0000_0000_0000
      modifies this
      ensures buf == old(buf) + (Head(3, |s|) + s)
    {
      buf := buf + (Head(3, |s|) + s);
    }

    /** Appends exactly the encoding of `v`, whatever was written before. */
    method EncodeValue(v: Value)
      requires Sized(v)
      modifies this
      ensures buf == old(buf) + Enc(v)
      decreases v, 1
    {
      match v {
        case Str(s) => EncodeText(s);
        case Int(n) => buf := buf + (if n >= 0 then Head(0, n) else Head(1, -1 - n));
        case Double(bits) => buf := buf + EncDouble(bits);
        case Bool(b) => buf := buf + [if b then 0xf5 else 0xf4];
        case Map(entries) => EncodeMap(v, entries);
        case Slice(items) => EncodeSlice(v, items);
        case Bytes(s) => buf := buf + (if s == [] then [0xf6] else Head(2, |s|) + s);
        case Empty => buf := buf + [0xf6];
      }
    }

    method EncodeMap(ghost whole: Value, entries: seq<Entry>)
      requires whole == Map(entries) && Sized(whole)
      modifies this
      ensures buf == old(buf) + ([0xbf] + EncEntries(entries) + [BREAK])
      decreases whole, 0, 1
    {
      ghost var before := buf;
      buf := buf + [0xbf];
      ghost var start := buf;
      for i := 0 to |entries|
        invariant buf == start + EncEntries(entries[..i])
      {
        EncEntriesNext(entries, i);
        Assoc(start, EncEntries(entries[..i]), EncEntry(entries[i]));
        EncodeEntry(whole, entries[i]);
      }
      assert entries[..|entries|] == entries;
      buf := buf + [BREAK];
      Enclosed(before, 0xbf, EncEntries(entries));
    }

    method EncodeEntry(ghost whole: Value, e: Entry)
      requires e.value < whole && |e.key| < 0x8000_0000_0000_0000 && Sized(e.value)
      modifies this
      ensures buf == old(buf) + EncEntry(e)
      decreases whole, 0, 0
    {
      EncodeText(e.key);
      EncodeValue(e.value);
    }

    static lemma EncEntriesNext(entries: seq<Entry>, i: nat)
      requires Sized(Map(entries)) && i < |entries|
      ensures EncEntries(entries[..i + 1]) == EncEntries(entries[..i]) + EncEntry(entries[i])
    {
      EncEntriesAppend(entries[..i], entries[i]);
      assert entries[..i + 1] == entries[..i] + [entries[i]];
    }

    method EncodeSlice(ghost whole: Value, items: seq<Value>)
      requires whole == Slice(items) && Sized(whole)
      modifies this
      ensures buf == old(buf) + ([0x9f] + EncItems(items) + [BREAK])
      decreases whole, 0
    {
      ghost var before := buf;
      buf := buf + [0x9f];
      ghost var start := buf;
      for i := 0 to |items|
        invariant buf == start + EncItems(items[..i])
      {
        EncItemsAppend(items[..i], items[i]);
        assert items[..i + 1] == items[..i] + [items[i]];
        Assoc(start, EncItems(items[..i]), Enc(items[i]));
        EncodeValue(items[i]);
      }
      assert items[..|items|] == items;
      buf := buf + [BREAK];
      Enclosed(before, 0x9f, EncItems(items));
    }
  }

  method Serialize(v: Value) returns (data: seq<byte>)
    requires Sized(v)
    ensures data == Enc(v)
  {
    var enc := new Encoder();
    enc.EncodeValue(v);
    data := enc.buf;
  }

  /** A value that decoding writes into. */
  class Cell {
    var value: Value

    constructor (v: Value)
      ensures value == v
    {
      value := v;
    }
  }

  /** The map the decoder builds from the pairs it read. */
  function MapOf(ps: seq<Pair>): map<Tree, Tree> {
    if ps == [] then map[]
    else
      var last := ps[|ps| - 1];
      MapOf(ps[..|ps| - 1])[last.key := last.value]
  }

  lemma {:induction false} MapKeeps(ps: seq<Pair>, k: Tree)
    ensures k in MapOf(ps) <==> KeptAt(ps, k) >= 0
    ensures k in MapOf(ps) ==> MapOf(ps)[k] == ps[KeptAt(ps, k)].value
    decreases |ps|
  {
    if ps != [] {
      MapKeeps(ps[..|ps| - 1], k);
    }
  }

  /** Copies a tree into `target`; on failure the target is left part way. */
  method Decode(t: Tree, target: Cell) returns (ok: bool)
    modifies target
    ensures ok <==> Convertible(t)
    ensures ok ==> MayDecode(t, old(target.value), target.value)
    decreases t, 1
  {
    ok := true;
    match t {
      case Nil =>
      case Text(s) => target.value := Str(s);
      case Unsigned(u) =>
        if u >= 0x8000_0000_0000_0000 {
          return false;
        }
        target.value := Int(u);
      case Negative(n) =>
        if n >= 0 || n < -0x8000_0000_0000_0000 {
          return false;
        }
        target.value := Int(n);
      case Float(bits) => target.value := Double(bits);
      case Boolean(b) => target.value := Bool(b);
      case Blob(s) => target.value := Bytes(s);
      case Items(ts) => ok := DecodeItems(t, ts, target);
      case Pairs(ps) => ok := DecodePairs(t, ps, target);
    }
  }

  method DecodeItems(ghost t: Tree, ts: seq<Tree>, target: Cell) returns (ok: bool)
    requires t == Items(ts)
    modifies target
    ensures ok <==> Convertible(t)
    ensures ok ==> MayDecode(t, old(target.value), target.value)
    decreases t, 0
  {
    target.value := Slice([]);
    for i := 0 to |ts|
      invariant target.value.Slice? && |target.value.items| == i
      invariant forall j :: 0 <= j < i ==> Convertible(ts[j]) && MayDecode(ts[j], Empty, target.value.items[j])
    {
      var item := new Cell(Empty);
      ok := Decode(ts[i], item);
      if !ok {
        return;
      }
      target.value := Slice(target.value.items + [item.value]);
    }
    ok := true;
  }

  method DecodePairs(ghost t: Tree, ps: seq<Pair>, target: Cell) returns (ok: bool)
    requires t == Pairs(ps)
    modifies target
    ensures ok <==> Convertible(t)
    ensures ok ==> MayDecode(t, old(target.value), target.value)
    decreases t, 0
  {
    var typed := MapOf(ps);
    var todo := typed.Keys;
    target.value := Map([]);
    while todo != {}
      invariant todo <= typed.Keys
      invariant target.value.Map? && DistinctKeys(target.value.entries)
      invariant forall k :: k in typed && k !in todo ==> k.Text? && Convertible(typed[k])
      invariant Copied(typed, todo, target.value.entries)
      decreases todo
    {
      var k :| k in todo;
      KeptFor(t, ps, k);
      if !k.Text? {
        return false;
      }
      var slot := new Cell(Empty);
      ok := Decode(typed[k], slot);
      if !ok {
        return;
      }
      CopyOne(typed, todo, target.value.entries, k, slot.value);
      target.value := Map(target.value.entries + [Entry(k.s, slot.value)]);
      todo := todo - {k};
    }
    AllCopied(ps, target.value.entries);
    ok := true;
  }

  /** The pair a key's value comes from; the whole converts only if it does. */
  lemma {:induction false} KeptFor(t: Tree, ps: seq<Pair>, k: Tree)
    requires t == Pairs(ps) && k in MapOf(ps)
    ensures MapOf(ps)[k] < t
    ensures Convertible(t) ==> k.Text? && Convertible(MapOf(ps)[k])
  {
    MapKeeps(ps, k);
    assert ps[KeptAt(ps, k)].key == k;
  }

  /** The entries written so far are the keys no longer to do, with their values. */
  ghost predicate Copied(typed: map<Tree, Tree>, todo: set<Tree>, entries: seq<Entry>) {
    (forall k :: k in typed && k !in todo && k.Text? ==> HasKey(entries, k.s)) &&
    (forall j :: 0 <= j < |entries| ==>
      Text(entries[j].key) in typed && Text(entries[j].key) !in todo &&
      MayDecode(typed[Text(entries[j].key)], Empty, entries[j].value))
  }

  lemma {:induction false} CopyOne(typed: map<Tree, Tree>, todo: set<Tree>, entries: seq<Entry>, k: Tree, v: Value)
    requires k in todo && k in typed && k.Text? && MayDecode(typed[k], Empty, v)
    requires Copied(typed, todo, entries) && DistinctKeys(entries)
    ensures Copied(typed, todo - {k}, entries + [Entry(k.s, v)]) && DistinctKeys(entries + [Entry(k.s, v)])
  {
    var after := entries + [Entry(k.s, v)];
    forall l | l in typed && l !in todo - {k} && l.Text? ensures HasKey(after, l.s) {
      if l == k {
        assert after[|entries|].key == l.s;
      } else {
        assert HasKey(entries, l.s);
        var j :| 0 <= j < |entries| && entries[j].key == l.s;
        assert after[j].key == l.s;
      }
    }
  }

  lemma {:induction false} AllCopied(ps: seq<Pair>, entries: seq<Entry>)
    requires DistinctKeys(entries) && Copied(MapOf(ps), {}, entries)
    requires forall k :: k in MapOf(ps) ==> k.Text? && Convertible(MapOf(ps)[k])
    ensures MayDecode(Pairs(ps), Empty, Map(entries)) && Convertible(Pairs(ps))
  {
    forall i | 0 <= i < |ps|
      ensures ps[i].key.Text? && HasKey(entries, ps[i].key.s)
      ensures KeptAt(ps, ps[i].key) == i ==> Convertible(ps[i].value)
    {
      MapKeeps(ps, ps[i].key);
    }
    forall j | 0 <= j < |entries|
      ensures var i := KeptAt(ps, Text(entries[j].key)); i >= 0 && MayDecode(ps[i].value, Empty, entries[j].value)
    {
      MapKeeps(ps, Text(entries[j].key));
    }
  }

  /** Decodes the first item of `data` into `target`. */
  method Deserialize(data: seq<byte>, target: Cell) returns (ok: bool)
    modifies target
    ensures ok <==> Parse(data, 0).Some? && Convertible(Parse(data, 0).value.tree)
    ensures ok ==> MayDecode(Parse(data, 0).value.tree, old(target.value), target.value)
  {
    var parsed := Parse(data, 0);
    if parsed == None {
      return false;
    }
    ok := Decode(parsed.value.tree, target);
  }

  /** Serialize, append anything, deserialize into an empty value. */
  method SerializeAndBack(v: Value, suffix: seq<byte>) returns (result: Option<Value>)
    requires Sized(v) && ProperMaps(v)
    ensures result.Some? <==> Accepted(v, 0)
    ensures result.Some? ==> (ValuesEqual(Normal(v), result.value) <==> NoNaN(v))
  {
    var data := Serialize(v);
    var target := new Cell(Empty);
    var ok := Deserialize(data + suffix, target);
    RoundTrip(v, suffix);
    result := if ok then Some(target.value) else None;
  }
}
