/**
  OTel attribute values (`pcommon.Value`) and their equality
  (go/pkg/otel/pdata/value.go).

  Go strings are byte sequences.  A map keeps its entries in order and looks a
  key up from the front.  A double is its 64 bits, compared as IEEE 754 does:
  NaN equals nothing and the two zeros are equal.
 */
module Pdata {
  import opened Options
  import opened Ordering
  import opened Texts

  type int64 = n: int | -0x8000_0000_0000_0000 <= n < 0x8000_0000_0000_0000
  type bits64 = n: int | 0 <= n < 0x1_0000_0000_0000_0000

  datatype Entry = Entry(key: seq<byte>, value: Value)

  datatype Value =
    | Empty
    | Str(text: seq<byte>)
    | Int(n: int64)
    | Double(bits: bits64)
    | Bool(b: bool)
    | Map(entries: seq<Entry>)
    | Slice(items: seq<Value>)
    | Bytes(raw: seq<byte>)

  /** The double without its sign bit. */
  function Magnitude(bits: bits64): int { bits % 0x8000_0000_0000_0000 }

  const INFINITY: int := 0x7FF0_0000_0000_0000

  predicate IsNaN(bits: bits64) { Magnitude(bits) > INFINITY }

  predicate DoubleEq(a: bits64, b: bits64) {
    !IsNaN(a) && !IsNaN(b) && (a == b || (Magnitude(a) == 0 && Magnitude(b) == 0))
  }

  /** The fields of a binary64 of IEEE 754: a NaN has the greatest exponent and a
      fraction other than zero; a zero has nothing but a sign. */
  lemma DoubleFields(bits: bits64)
    ensures IsNaN(bits) <==> bits / 0x10_0000_0000_0000 % 0x800 == 0x7FF && bits % 0x10_0000_0000_0000 != 0
    ensures Magnitude(bits) == 0 <==> bits == 0 || bits == 0x8000_0000_0000_0000
  {
    var exponent, fraction := bits / 0x10_0000_0000_0000, bits % 0x10_0000_0000_0000;
    assert bits == 0x10_0000_0000_0000 * exponent + fraction;
    var e := if exponent < 0x800 then exponent else exponent - 0x800;
    assert exponent % 0x800 == e;
    assert Magnitude(bits) == 0x10_0000_0000_0000 * e + fraction;
  }

  /** `Map.Get`: the first entry with the key. */
  function Get(entries: seq<Entry>, key: seq<byte>): (r: Option<Value>)
    ensures r.Some? <==> exists i :: 0 <= i < |entries| && entries[i].key == key
    ensures r.Some? ==> exists i :: 0 <= i < |entries| && entries[i] == Entry(key, r.value)
  {
    if entries == [] then None
    else if entries[0].key == key then
      assert entries[0] == Entry(key, entries[0].value);
      Some(entries[0].value)
    else
      var r := Get(entries[1..], key);
      assert forall i :: 0 <= i < |entries[1..]| ==> entries[1..][i] == entries[i + 1];
      assert forall i :: 1 <= i < |entries| ==> entries[i] == entries[1..][i - 1];
      r
  }

  predicate ValuesEqual(v: Value, w: Value) {
    match (v, w)
    case (Empty, Empty) => true
    case (Str(s), Str(t)) => s == t
    case (Bool(a), Bool(b)) => a == b
    case (Int(m), Int(n)) => m == n
    case (Double(a), Double(b)) => DoubleEq(a, b)
    case (Slice(xs), Slice(ys)) => |xs| == |ys| && forall i :: 0 <= i < |xs| ==> ValuesEqual(xs[i], ys[i])
    case (Map(es), Map(fs)) => |es| == |fs| && forall i :: 0 <= i < |es| ==> FoundEqual(es[i], fs)
    case (Bytes(a), Bytes(b)) => a == b
    case _ => false
  }

  /** The entry's key is found in `fs` with an equal value. */
  predicate FoundEqual(e: Entry, fs: seq<Entry>) {
    var found := Get(fs, e.key);
    found.Some? && ValuesEqual(e.value, found.value)
  }

  // ---------- equality is an equivalence ----------

  predicate DistinctKeys(entries: seq<Entry>) {
    forall i, j :: 0 <= i < j < |entries| ==> entries[i].key != entries[j].key
  }

  /** Map keys are distinct at every depth, as map semantics asks. */
  predicate ProperMaps(v: Value) {
    match v
    case Slice(items) => forall x :: x in items ==> ProperMaps(x)
    case Map(entries) => DistinctKeys(entries) && forall e :: e in entries ==> ProperMaps(e.value)
    case _ => true
  }

  predicate NoNaN(v: Value) {
    match v
    case Double(bits) => !IsNaN(bits)
    case Slice(items) => forall x :: x in items ==> NoNaN(x)
    case Map(entries) => forall e :: e in entries ==> NoNaN(e.value)
    case _ => true
  }

  lemma GetOwn(entries: seq<Entry>, i: nat)
    requires DistinctKeys(entries) && i < |entries|
    ensures Get(entries, entries[i].key) == Some(entries[i].value)
  {
    var r := Get(entries, entries[i].key);
    var j :| 0 <= j < |entries| && entries[j] == Entry(entries[i].key, r.value);
    assert i == j;
  }

  // ---------- what equality means ----------

  function EntryKey(e: Entry): seq<int> { e.key }

  /** The value with the entries of every map sorted by key, and every zero
      positive. */
  function Normal(v: Value): Value {
    match v
    case Double(bits) => if Magnitude(bits) == 0 then Double(0) else v
    case Slice(items) => Slice(NormalItems(items))
    case Map(entries) => Map(Sort(NormalEntries(entries), EntryKey))
    case _ => v
  }

  function NormalItems(items: seq<Value>): (r: seq<Value>)
    ensures |r| == |items|
    ensures forall i :: 0 <= i < |items| ==> r[i] == Normal(items[i])
  {
    if items == [] then [] else [Normal(items[0])] + NormalItems(items[1..])
  }

  function NormalEntries(entries: seq<Entry>): (r: seq<Entry>)
    ensures |r| == |entries|
    ensures forall i :: 0 <= i < |entries| ==> r[i] == Entry(entries[i].key, Normal(entries[i].value))
  {
    if entries == [] then [] else [Entry(entries[0].key, Normal(entries[0].value))] + NormalEntries(entries[1..])
  }

  /** Two values are equal exactly when neither holds a NaN and they are the same
      but for the order of map entries and the signs of zeros. */
  lemma {:induction false} EqualExactly(v: Value, w: Value)
    requires ProperMaps(v) && ProperMaps(w)
    ensures ValuesEqual(v, w) <==> NoNaN(v) && NoNaN(w) && Normal(v) == Normal(w)
    decreases v, 1
  {
    match (v, w)
    case (Slice(xs), Slice(ys)) => EqualSlices(v, xs, ys);
    case (Map(es), Map(fs)) => EqualMaps(v, es, fs);
    case _ =>
  }

  lemma {:induction false} EqualSlices(whole: Value, xs: seq<Value>, ys: seq<Value>)
    requires ProperMaps(Slice(xs)) && ProperMaps(Slice(ys)) && forall x :: x in xs ==> x < whole
    ensures ValuesEqual(Slice(xs), Slice(ys)) <==>
            NoNaN(Slice(xs)) && NoNaN(Slice(ys)) && NormalItems(xs) == NormalItems(ys)
    decreases whole, 0
  {
    if |xs| == |ys| {
      forall i | 0 <= i < |xs|
        ensures ValuesEqual(xs[i], ys[i]) <==> NoNaN(xs[i]) && NoNaN(ys[i]) && NormalItems(xs)[i] == NormalItems(ys)[i]
      {
        assert xs[i] in xs && ys[i] in ys;
        EqualExactly(xs[i], ys[i]);
      }
    }
  }

  /** The entries have the same key and values that are equal. */
  predicate EntriesAgree(e: Entry, f: Entry) {
    e.key == f.key && NoNaN(e.value) && NoNaN(f.value) && Normal(e.value) == Normal(f.value)
  }

  predicate AgreesIn(e: Entry, fs: seq<Entry>) { exists j :: 0 <= j < |fs| && EntriesAgree(e, fs[j]) }

  predicate AllAgree(es: seq<Entry>, fs: seq<Entry>) {
    |es| == |fs| && forall i :: 0 <= i < |es| ==> AgreesIn(es[i], fs)
  }

  lemma {:induction false} EqualMaps(whole: Value, es: seq<Entry>, fs: seq<Entry>)
    requires ProperMaps(Map(es)) && ProperMaps(Map(fs)) && forall e :: e in es ==> e.value < whole
    ensures ValuesEqual(Map(es), Map(fs)) <==>
            NoNaN(Map(es)) && NoNaN(Map(fs)) && Sort(NormalEntries(es), EntryKey) == Sort(NormalEntries(fs), EntryKey)
    decreases whole, 0
  {
    forall i | 0 <= i < |es| ensures FoundEqual(es[i], fs) <==> AgreesIn(es[i], fs) {
      assert es[i] in es;
      if j :| 0 <= j < |fs| && fs[j].key == es[i].key {
        assert fs[j] in fs;
        GetOwn(fs, j);
        EqualExactly(es[i].value, fs[j].value);
        OnlyHere(es[i], fs, j);
      }
    }
    assert |es| == |fs| ==>
      (ValuesEqual(Map(es), Map(fs)) <==> forall i :: 0 <= i < |es| ==> FoundEqual(es[i], fs));
    AgreeExactly(es, fs);
  }

  lemma OnlyHere(e: Entry, fs: seq<Entry>, j: nat)
    requires DistinctKeys(fs) && j < |fs| && fs[j].key == e.key
    ensures AgreesIn(e, fs) <==> EntriesAgree(e, fs[j])
  {
  }

  lemma {:induction false} AgreeExactly(es: seq<Entry>, fs: seq<Entry>)
    requires DistinctKeys(es) && DistinctKeys(fs)
    ensures AllAgree(es, fs) <==>
            NoNaN(Map(es)) && NoNaN(Map(fs)) && Sort(NormalEntries(es), EntryKey) == Sort(NormalEntries(fs), EntryKey)
  {
    if AllAgree(es, fs) {
      AgreeingSortEqually(es, fs);
    } else if NoNaN(Map(es)) && NoNaN(Map(fs)) && Sort(NormalEntries(es), EntryKey) == Sort(NormalEntries(fs), EntryKey) {
      EqualSortsAgree(es, fs);
    }
  }

  lemma {:induction false} EqualSortsAgree(es: seq<Entry>, fs: seq<Entry>)
    requires NoNaN(Map(es)) && NoNaN(Map(fs)) && Sort(NormalEntries(es), EntryKey) == Sort(NormalEntries(fs), EntryKey)
    ensures AllAgree(es, fs)
  {
    var a, b := NormalEntries(es), NormalEntries(fs);
    EqualSortsMembers(a, b, EntryKey);
    forall i | 0 <= i < |es| ensures AgreesIn(es[i], fs) {
      assert a[i] in a && es[i] in es;
      var j :| 0 <= j < |b| && b[j] == a[i];
      assert fs[j] in fs && EntriesAgree(es[i], fs[j]);
    }
  }

  lemma {:induction false} AgreeingSortEqually(es: seq<Entry>, fs: seq<Entry>)
    requires DistinctKeys(es) && DistinctKeys(fs) && AllAgree(es, fs)
    ensures NoNaN(Map(es)) && NoNaN(Map(fs)) && Sort(NormalEntries(es), EntryKey) == Sort(NormalEntries(fs), EntryKey)
  {
    AgreeingPermute(es, fs);
    SortPermutation(NormalEntries(es), NormalEntries(fs), EntryKey);
    AgreeingHoldNoNaN(es, fs);
  }

  lemma {:induction false} AgreeingPermute(es: seq<Entry>, fs: seq<Entry>)
    requires DistinctKeys(es) && DistinctKeys(fs) && AllAgree(es, fs)
    ensures multiset(NormalEntries(es)) == multiset(NormalEntries(fs)) && KeyedApart(NormalEntries(es), EntryKey)
  {
    var a, b := NormalEntries(es), NormalEntries(fs);
    forall x | x in a ensures x in b {
      var i :| 0 <= i < |a| && a[i] == x;
      assert AgreesIn(es[i], fs);
      var j :| 0 <= j < |fs| && EntriesAgree(es[i], fs[j]);
      assert b[j] == x;
    }
    NormalApart(es);
    NormalApart(fs);
    EqualByInclusion(a, b);
  }

  lemma {:induction false} NormalApart(es: seq<Entry>)
    requires DistinctKeys(es)
    ensures NoDuplicates(NormalEntries(es)) && KeyedApart(NormalEntries(es), EntryKey)
  {
  }

  lemma {:induction false} AgreeingHoldNoNaN(es: seq<Entry>, fs: seq<Entry>)
    requires DistinctKeys(es) && DistinctKeys(fs) && AllAgree(es, fs)
    ensures NoNaN(Map(es)) && NoNaN(Map(fs))
  {
    forall e | e in es ensures NoNaN(e.value) {
      var i :| 0 <= i < |es| && es[i] == e;
      assert AgreesIn(es[i], fs);
    }
    forall f | f in fs ensures NoNaN(f.value) {
      var j :| 0 <= j < |fs| && fs[j] == f;
      AgreesBack(es, fs, j);
    }
  }

  lemma {:induction false} AgreesBack(es: seq<Entry>, fs: seq<Entry>, j: nat)
    requires DistinctKeys(es) && DistinctKeys(fs) && AllAgree(es, fs) && j < |fs|
    ensures NoNaN(fs[j].value)
  {
    var a, b := NormalEntries(es), NormalEntries(fs);
    AgreeingPermute(es, fs);
    assert b[j] in multiset(a);
    var i :| 0 <= i < |a| && a[i] == b[j];
    assert AgreesIn(es[i], fs);
    OnlyHere(es[i], fs, j);
  }

  /** A value equals itself exactly when no NaN hides in it. */
  lemma EqualReflexive(v: Value)
    requires ProperMaps(v)
    ensures ValuesEqual(v, v) <==> NoNaN(v)
  {
    EqualExactly(v, v);
  }

  lemma EqualSymmetric(v: Value, w: Value)
    requires ProperMaps(v) && ProperMaps(w) && ValuesEqual(v, w)
    ensures ValuesEqual(w, v)
  {
    EqualExactly(v, w);
    EqualExactly(w, v);
  }

  function Keys(entries: seq<Entry>): (r: seq<seq<byte>>)
    ensures |r| == |entries|
    ensures forall i :: 0 <= i < |r| ==> r[i] == entries[i].key
  {
    seq(|entries|, i requires 0 <= i < |entries| => entries[i].key)
  }

  /** Equal maps with distinct keys have the same keys, so lookups work both ways. */
  lemma SameKeys(es: seq<Entry>, fs: seq<Entry>)
    requires DistinctKeys(es) && DistinctKeys(fs) && |es| == |fs|
    requires forall i :: 0 <= i < |es| ==> Get(fs, es[i].key).Some?
    ensures multiset(Keys(es)) == multiset(Keys(fs))
  {
    var a, b := Keys(es), Keys(fs);
    forall k | k in a ensures k in b {
      var i :| 0 <= i < |a| && a[i] == k;
      assert Get(fs, es[i].key).Some?;
      var j :| 0 <= j < |fs| && fs[j].key == k;
      assert b[j] == k;
    }
    EqualByInclusion(a, b);
  }

  lemma {:induction false} EqualTransitive(u: Value, v: Value, w: Value)
    requires ValuesEqual(u, v) && ValuesEqual(v, w)
    ensures ValuesEqual(u, w)
    decreases u
  {
    match (u, v, w)
    case (Slice(xs), Slice(ys), Slice(zs)) =>
      forall i | 0 <= i < |xs| ensures ValuesEqual(xs[i], zs[i]) {
        EqualTransitive(xs[i], ys[i], zs[i]);
      }
    case (Map(es), Map(fs), Map(gs)) =>
      forall i | 0 <= i < |es| ensures FoundEqual(es[i], gs) {
        var found := Get(fs, es[i].key).value;
        assert FoundEqual(es[i], fs);
        var j :| 0 <= j < |fs| && fs[j] == Entry(es[i].key, found);
        assert FoundEqual(fs[j], gs);
        EqualTransitive(es[i].value, found, Get(gs, es[i].key).value);
      }
    case _ =>
  }

  // ---------- the code ----------

  method CompareValues(v: Value, w: Value) returns (equal: bool)
    ensures equal == ValuesEqual(v, w)
    ensures ProperMaps(v) && ProperMaps(w) ==> (equal <==> NoNaN(v) && NoNaN(w) && Normal(v) == Normal(w))
    decreases v, 1
  {
    if ProperMaps(v) && ProperMaps(w) {
      EqualExactly(v, w);
    }
    match (v, w) {
      case (Empty, Empty) => equal := true;
      case (Str(s), Str(t)) => equal := s == t;
      case (Bool(a), Bool(b)) => equal := a == b;
      case (Int(m), Int(n)) => equal := m == n;
      case (Double(a), Double(b)) => equal := DoubleEq(a, b);
      case (Slice(xs), Slice(ys)) => equal := CompareSlices(v, xs, ys);
      case (Map(es), Map(fs)) => equal := CompareMaps(v, es, fs);
      case (Bytes(a), Bytes(b)) => equal := CompareBytes(a, b);
      case _ => equal := false;
    }
  }

  method CompareSlices(ghost whole: Value, xs: seq<Value>, ys: seq<Value>) returns (equal: bool)
    requires forall i :: 0 <= i < |xs| ==> xs[i] < whole
    ensures equal <==> |xs| == |ys| && forall i :: 0 <= i < |xs| ==> ValuesEqual(xs[i], ys[i])
    decreases whole, 0
  {
    if |xs| != |ys| {
      return false;
    }
    for i := 0 to |xs|
      invariant forall j :: 0 <= j < i ==> ValuesEqual(xs[j], ys[j])
    {
      var same := CompareValues(xs[i], ys[i]);
      if !same {
        return false;
      }
    }
    equal := true;
  }

  method CompareMaps(ghost whole: Value, es: seq<Entry>, fs: seq<Entry>) returns (equal: bool)
    requires forall i :: 0 <= i < |es| ==> es[i].value < whole
    ensures equal <==> |es| == |fs| && forall i :: 0 <= i < |es| ==> FoundEqual(es[i], fs)
    decreases whole, 0
  {
    if |es| != |fs| {
      return false;
    }
    var ne := false;
    var i := 0;
    while i < |es| && !ne
      invariant 0 <= i <= |es|
      invariant !ne ==> forall j :: 0 <= j < i ==> FoundEqual(es[j], fs)
      invariant ne ==> i < |es| && !FoundEqual(es[i], fs)
      decreases |es| - i, !ne
    {
      var found := Get(fs, es[i].key);
      var same := false;
      if found.Some? {
        same := CompareValues(es[i].value, found.value);
      }
      if same {
        i := i + 1;
      } else {
        ne := true;
      }
    }
    equal := !ne;
  }

  method CompareBytes(a: seq<byte>, b: seq<byte>) returns (equal: bool)
    ensures equal <==> a == b
  {
    if |a| != |b| {
      return false;
    }
    for i := 0 to |a|
      invariant a[..i] == b[..i]
    {
      if a[i] != b[i] {
        return false;
      }
    }
    equal := true;
  }
}
