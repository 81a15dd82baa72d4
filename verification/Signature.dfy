/**
  Data-point signatures (go/pkg/otel/metrics/data_point.go): the bytes by which
  data points that belong together are found.

  `Sig` is the signature of a value on its own; the methods append to a buffer
  as the Go code does.
 */
module Signature {
  import opened Options
  import opened Ordering
  import opened Texts
  import opened Pdata
  import Decimal

  /** The low `k` bytes of `n`, least significant first. */
  function LowBytes(n: int, k: nat): (r: seq<byte>)
    ensures |r| == k
    decreases k
  {
    if k == 0 then [] else [n % 256] + LowBytes(n / 256, k - 1)
  }

  /** The low 64 bits of `n`, least significant byte first. */
  function LittleEndian(n: int): (r: seq<byte>)
    ensures |r| == 8
  {
    LowBytes(n, 8)
  }

  /** The number that bytes stand for, the last one counting most. */
  function Number(s: seq<byte>): nat {
    if s == [] then 0 else s[0] + 256 * Number(s[1..])
  }

  function Power256(k: nat): (p: nat) { if k == 0 then 1 else 256 * Power256(k - 1) }

  lemma {:induction false} LowBytesNumber(n: int, k: nat) returns (high: int)
    ensures n == Number(LowBytes(n, k)) + Scaled(k, high) && Number(LowBytes(n, k)) < Power256(k)
    decreases k
  {
    if k == 0 {
      high := n;
    } else {
      high := LowBytesNumber(n / 256, k - 1);
      assert LowBytes(n, k)[1..] == LowBytes(n / 256, k - 1);
    }
  }

  /** `high` times the `k`-th power of 256. */
  function Scaled(k: nat, high: int): int
    decreases k
  {
    if k == 0 then high else 256 * Scaled(k - 1, high)
  }

  /** Read back as an unsigned or as a signed number. */
  lemma LittleEndianReads(n: int)
    ensures 0 <= n < Decimal.TWO_64 ==> Number(LittleEndian(n)) == n
    ensures -Decimal.TWO_63 <= n < Decimal.TWO_63 ==> Decimal.Wrap64(Number(LittleEndian(n))) == n
  {
    var low, high := LowAndHigh(n);
    SignOfLow(n, low, high);
  }

  lemma LowAndHigh(n: int) returns (low: nat, high: int)
    ensures low == Number(LittleEndian(n)) < Decimal.TWO_64 && n == low + Decimal.TWO_64 * high
  {
    high := LowBytesNumber(n, 8);
    low := Number(LittleEndian(n));
    EightBytes(high);
  }

  lemma SignOfLow(n: int, low: nat, high: int)
    requires low < Decimal.TWO_64 && n == low + Decimal.TWO_64 * high
    ensures 0 <= n < Decimal.TWO_64 ==> low == n
    ensures -Decimal.TWO_63 <= n < Decimal.TWO_63 ==> Decimal.Wrap64(low) == n
  {
    Decimal.WrapTurns(low);
  }

  lemma EightBytes(high: int)
    ensures Power256(8) == Decimal.TWO_64 && Scaled(8, high) == Decimal.TWO_64 * high
  {
    assert Power256(2) == 0x1_0000 && Scaled(2, high) == 0x1_0000 * high;
    assert Power256(4) == 0x1_0000_0000 && Scaled(4, high) == 0x1_0000_0000 * high;
    assert Power256(6) == 0x1_0000_0000_0000 && Scaled(6, high) == 0x1_0000_0000_0000 * high;
  }

  /** The entries a map contributes, in the order they are written. */
  function Written(entries: seq<Entry>, skip: seq<byte>): (r: seq<Entry>)
    ensures forall e :: e in r <==> e in entries && e.key != skip
  {
    var kept := Without(entries, skip);
    WithoutMembers(entries, skip);
    SortMembers(kept, EntryKey);
    Sort(kept, EntryKey)
  }

  function Kept(e: Entry, skip: seq<byte>): seq<Entry> { if e.key == skip then [] else [e] }

  function Without(entries: seq<Entry>, skip: seq<byte>): seq<Entry> {
    if entries == [] then [] else Kept(entries[0], skip) + Without(entries[1..], skip)
  }

  lemma {:induction false} WithoutMembers(entries: seq<Entry>, skip: seq<byte>)
    ensures forall e :: e in Without(entries, skip) <==> e in entries && e.key != skip
  {
    if entries != [] {
      WithoutMembers(entries[1..], skip);
      assert forall e :: e in entries <==> e == entries[0] || e in entries[1..];
    }
  }

  function Sig(v: Value): seq<byte>
    decreases v, 2
  {
    match v
    case Empty => []
    case Bool(b) => [if b then 1 else 0]
    case Int(n) => LittleEndian(n)
    case Double(bits) => LittleEndian(bits)
    case Bytes(raw) => raw
    case Str(text) => text
    case Slice(items) => SliceSig(v, items)
    case Map(_) => MapSig(v, [])
  }

  /** The signature of a map without the entries under one key. */
  function MapSig(v: Value, skip: seq<byte>): seq<byte>
    requires v.Map?
    decreases v, 1
  {
    WrittenInside(v, skip);
    EntriesSig(v, Written(v.entries, skip))
  }

  lemma {:induction false} WrittenInside(v: Value, skip: seq<byte>)
    requires v.Map?
    ensures var r := Written(v.entries, skip); forall i :: 0 <= i < |r| ==> r[i].value < v
  {
    var r := Written(v.entries, skip);
    forall i | 0 <= i < |r| ensures r[i].value < v {
      assert r[i] in v.entries;
    }
  }

  function SliceSig(whole: Value, items: seq<Value>): seq<byte>
    requires forall i :: 0 <= i < |items| ==> items[i] < whole
    decreases whole, 0, |items|
  {
    if items == [] then [] else Sig(items[0]) + SliceSig(whole, items[1..])
  }

  function EntriesSig(whole: Value, entries: seq<Entry>): seq<byte>
    requires forall i :: 0 <= i < |entries| ==> entries[i].value < whole
    decreases whole, 0, |entries|
  {
    if entries == [] then []
    else (entries[0].key + Sig(entries[0].value)) + EntriesSig(whole, entries[1..])
  }

  // ---------- equal values and their signatures ----------

  /** Of two equal values: their zeros have the same signs, except under keys
      that are not written. */
  predicate SameZeros(v: Value, w: Value) {
    match (v, w)
    case (Double(a), Double(b)) => a == b
    case (Slice(xs), Slice(ys)) => |xs| == |ys| && forall i :: 0 <= i < |xs| ==> SameZeros(xs[i], ys[i])
    case (Map(es), Map(fs)) => forall i :: 0 <= i < |es| && es[i].key != [] ==> FoundSameZeros(es[i], fs)
    case _ => true
  }

  predicate FoundSameZeros(e: Entry, fs: seq<Entry>) {
    var found := Get(fs, e.key);
    found.Some? && SameZeros(e.value, found.value)
  }

  /** The same for the entries of two maps. */
  predicate EntriesSameZeros(es: seq<Entry>, fs: seq<Entry>, skip: seq<byte>) {
    forall i :: 0 <= i < |es| && es[i].key != skip ==> FoundSameZeros(es[i], fs)
  }

  lemma Halves<T>(a: seq<T>, b: seq<T>, c: seq<T>, d: seq<T>)
    requires |a| == |c|
    ensures a + b == c + d <==> a == c && b == d
  {
    if a + b == c + d {
      assert a == (a + b)[..|a|] && c == (c + d)[..|a|];
      assert b == (a + b)[|a|..] && d == (c + d)[|a|..];
    }
  }

  lemma ZeroSigs(a: bits64, b: bits64)
    ensures LittleEndian(a) == LittleEndian(b) <==> a == b
  {
    LittleEndianReads(a);
    LittleEndianReads(b);
  }

  /** Equal values have signatures of the same length, and the same signature
      exactly when their zeros have the same signs. */
  lemma {:induction false} EqualValuesSameSig(v: Value, w: Value)
    requires ProperMaps(v) && ProperMaps(w) && ValuesEqual(v, w)
    ensures |Sig(v)| == |Sig(w)| && (Sig(v) == Sig(w) <==> SameZeros(v, w))
    decreases v, 1
  {
    match (v, w)
    case (Double(a), Double(b)) => ZeroSigs(a, b);
    case (Slice(xs), Slice(ys)) => SameSliceSig(v, w, xs, ys);
    case (Map(es), Map(fs)) => SameMapSig(v, w, es, fs, []);
    case _ =>
  }

  lemma {:induction false} SameMapSig(v: Value, w: Value, es: seq<Entry>, fs: seq<Entry>, skip: seq<byte>)
    requires v == Map(es) && w == Map(fs) && ProperMaps(v) && ProperMaps(w) && ValuesEqual(v, w)
    ensures var a, b := MapSig(v, skip), MapSig(w, skip);
            |a| == |b| && (a == b <==> EntriesSameZeros(es, fs, skip))
    decreases v, 0
  {
    var a, b := Written(es, skip), Written(fs, skip);
    SameWrittenKeys(es, fs, skip);
    WrittenInside(v, skip);
    WrittenInside(w, skip);
    forall i | 0 <= i < |a| ensures ProperMaps(a[i].value) { assert a[i] in es; }
    forall i | 0 <= i < |b| ensures ProperMaps(b[i].value) { assert b[i] in fs; }
    SameEntriesSig(v, w, a, b);
    WrittenZeros(es, fs, skip);
  }

  /** The zeros of the entries written are those of the entries. */
  lemma {:induction false} WrittenZeros(es: seq<Entry>, fs: seq<Entry>, skip: seq<byte>)
    requires DistinctKeys(es) && DistinctKeys(fs) && ValuesEqual(Map(es), Map(fs))
    requires |Written(es, skip)| == |Written(fs, skip)|
    requires forall i :: 0 <= i < |Written(es, skip)| ==> Written(es, skip)[i].key == Written(fs, skip)[i].key
    ensures PairwiseSameZeros(Written(es, skip), Written(fs, skip)) <==> EntriesSameZeros(es, fs, skip)
  {
    var a, b := Written(es, skip), Written(fs, skip);
    forall i | 0 <= i < |a| ensures FoundSameZeros(a[i], fs) <==> SameZeros(a[i].value, b[i].value) {
      assert b[i] in fs;
      FoundOwn(fs, a[i], b[i]);
    }
    if PairwiseSameZeros(a, b) {
      forall m | 0 <= m < |es| && es[m].key != skip ensures FoundSameZeros(es[m], fs) {
        assert es[m] in a;
      }
    }
    if EntriesSameZeros(es, fs, skip) {
      forall i | 0 <= i < |a| ensures SameZeros(a[i].value, b[i].value) {
        assert a[i] in es;
        FoundInEntries(es, fs, skip, a[i]);
      }
    }
  }

  lemma {:induction false} FoundOwn(fs: seq<Entry>, e: Entry, f: Entry)
    requires DistinctKeys(fs) && f in fs && e.key == f.key
    ensures FoundSameZeros(e, fs) <==> SameZeros(e.value, f.value)
  {
    var n :| 0 <= n < |fs| && fs[n] == f;
    GetOwn(fs, n);
  }

  lemma {:induction false} FoundInEntries(es: seq<Entry>, fs: seq<Entry>, skip: seq<byte>, e: Entry)
    requires EntriesSameZeros(es, fs, skip) && e in es && e.key != skip
    ensures FoundSameZeros(e, fs)
  {
    var m :| 0 <= m < |es| && es[m] == e;
    assert FoundSameZeros(es[m], fs);
  }

  predicate PairwiseSameZeros(es: seq<Entry>, fs: seq<Entry>)
    requires |es| == |fs|
  {
    forall i :: 0 <= i < |es| ==> SameZeros(es[i].value, fs[i].value)
  }

  lemma {:induction false} SameSliceSig(v: Value, w: Value, xs: seq<Value>, ys: seq<Value>)
    requires forall i :: 0 <= i < |xs| ==> xs[i] < v && ProperMaps(xs[i])
    requires forall i :: 0 <= i < |ys| ==> ys[i] < w && ProperMaps(ys[i])
    requires |xs| == |ys| && forall i :: 0 <= i < |xs| ==> ValuesEqual(xs[i], ys[i])
    ensures |SliceSig(v, xs)| == |SliceSig(w, ys)|
    ensures SliceSig(v, xs) == SliceSig(w, ys) <==> forall i :: 0 <= i < |xs| ==> SameZeros(xs[i], ys[i])
    decreases v, 0, |xs|
  {
    if xs != [] {
      EqualValuesSameSig(xs[0], ys[0]);
      SameSliceSig(v, w, xs[1..], ys[1..]);
      Halves(Sig(xs[0]), SliceSig(v, xs[1..]), Sig(ys[0]), SliceSig(w, ys[1..]));
      assert (forall i :: 0 <= i < |xs| ==> SameZeros(xs[i], ys[i])) <==>
             SameZeros(xs[0], ys[0]) && forall i :: 0 <= i < |xs[1..]| ==> SameZeros(xs[1..][i], ys[1..][i]) by {
        assert forall i :: 1 <= i < |xs| ==> xs[i] == xs[1..][i - 1] && ys[i] == ys[1..][i - 1];
      }
    }
  }

  lemma {:induction false} SameEntriesSig(v: Value, w: Value, es: seq<Entry>, fs: seq<Entry>)
    requires forall i :: 0 <= i < |es| ==> es[i].value < v && ProperMaps(es[i].value)
    requires forall i :: 0 <= i < |fs| ==> fs[i].value < w && ProperMaps(fs[i].value)
    requires |es| == |fs|
    requires forall i :: 0 <= i < |es| ==> es[i].key == fs[i].key && ValuesEqual(es[i].value, fs[i].value)
    ensures |EntriesSig(v, es)| == |EntriesSig(w, fs)|
    ensures EntriesSig(v, es) == EntriesSig(w, fs) <==> PairwiseSameZeros(es, fs)
    decreases v, 0, |es|
  {
    if es != [] {
      EqualValuesSameSig(es[0].value, fs[0].value);
      SameEntriesSig(v, w, es[1..], fs[1..]);
      Halves(es[0].key, Sig(es[0].value), fs[0].key, Sig(fs[0].value));
      Halves(es[0].key + Sig(es[0].value), EntriesSig(v, es[1..]), fs[0].key + Sig(fs[0].value), EntriesSig(w, fs[1..]));
      FirstPair(es, fs);
    }
  }

  lemma FirstPair(es: seq<Entry>, fs: seq<Entry>)
    requires |es| == |fs| > 0
    ensures PairwiseSameZeros(es, fs) <==>
            SameZeros(es[0].value, fs[0].value) && PairwiseSameZeros(es[1..], fs[1..])
  {
    assert forall i :: 1 <= i < |es| ==> es[i] == es[1..][i - 1] && fs[i] == fs[1..][i - 1];
  }

  function Whole(k: seq<byte>): seq<int> { k }

  /** Equal maps write the same keys in the same order, with equal values. */
  lemma {:induction false} SameWrittenKeys(es: seq<Entry>, fs: seq<Entry>, skip: seq<byte>)
    requires DistinctKeys(es) && DistinctKeys(fs) && ValuesEqual(Map(es), Map(fs))
    ensures var a, b := Written(es, skip), Written(fs, skip);
            |a| == |b| && forall i :: 0 <= i < |a| ==> a[i].key == b[i].key && ValuesEqual(a[i].value, b[i].value)
  {
    var a, b := Written(es, skip), Written(fs, skip);
    assert forall i :: 0 <= i < |es| ==> FoundEqual(es[i], fs);
    SameKeys(es, fs);
    WrittenKeys(es, skip);
    WrittenKeys(fs, skip);
    SortedUnique(Keys(a), Keys(b), Whole);
    assert |Keys(a)| == |Keys(b)|;
    forall i | 0 <= i < |a| ensures a[i].key == b[i].key && ValuesEqual(a[i].value, b[i].value) {
      assert Keys(a)[i] == Keys(b)[i];
      assert a[i] in es && b[i] in fs;
      var m :| 0 <= m < |es| && es[m] == a[i];
      var n :| 0 <= n < |fs| && fs[n] == b[i];
      assert FoundEqual(es[m], fs);
      GetOwn(fs, n);
    }
  }

  function KeyOf(e: Entry): seq<byte> { e.key }

  /** The keys written are the keys kept, sorted. */
  lemma {:induction false} WrittenKeys(es: seq<Entry>, skip: seq<byte>)
    ensures multiset(Keys(Written(es, skip))) == multiset(Keys(es))[skip := 0]
    ensures SortedBy(Keys(Written(es, skip)), Whole)
    ensures KeyedApart(Keys(Written(es, skip)), Whole)
  {
    var kept := Without(es, skip);
    SortCommutes(kept, KeyOf, EntryKey, Whole);
    assert Apply(KeyOf, kept) == Keys(kept);
    assert Apply(KeyOf, Written(es, skip)) == Keys(Written(es, skip));
    WithoutKeys(es, skip);
  }

  lemma KeysFirst(e: Entry, rest: seq<Entry>)
    ensures multiset(Keys([e] + rest)) == multiset{e.key} + multiset(Keys(rest))
  {
    assert Keys([e] + rest) == [e.key] + Keys(rest);
  }

  lemma {:induction false} WithoutKeys(es: seq<Entry>, skip: seq<byte>)
    ensures multiset(Keys(Without(es, skip))) == multiset(Keys(es))[skip := 0]
  {
    if es == [] {
      assert Keys(es) == [];
    } else {
      var rest := Without(es[1..], skip);
      assert es == [es[0]] + es[1..];
      WithoutKeys(es[1..], skip);
      KeysFirst(es[0], es[1..]);
      KeysFirst(es[0], rest);
      ForgetOne(multiset(Keys(es[1..])), es[0].key, skip);
      assert es[0].key == skip ==> Without(es, skip) == rest;
    }
  }

  lemma ForgetOne<T>(m: multiset<T>, x: T, skip: T)
    ensures (multiset{x} + m)[skip := 0] == (if x == skip then multiset{} else multiset{x}) + m[skip := 0]
  {
  }

  /** The two zeros are equal but sign differently. */
  lemma ZerosSignDifferently()
    ensures ValuesEqual(Double(0), Double(0x8000_0000_0000_0000))
    ensures Sig(Double(0)) != Sig(Double(0x8000_0000_0000_0000))
  {
    ZeroSigs(0, 0x8000_0000_0000_0000);
  }

  /** The converse does not hold: lengths and types are not part of a signature. */
  lemma SigForgetsBoundaries(s: seq<byte>, t: seq<byte>)
    ensures Sig(Slice([Str(s), Str(t)])) == Sig(Str(s + t)) == Sig(Bytes(s + t))
  {
    var v := Slice([Str(s), Str(t)]);
    assert [Str(s), Str(t)][1..] == [Str(t)];
    assert Sig(v) == Sig(Str(s)) + SliceSig(v, [Str(t)]);
    assert SliceSig(v, [Str(t)]) == Sig(Str(t)) + SliceSig(v, []);
  }

  // ---------- what a signature tells ----------

  /** What is written for a value that holds no other. */
  lemma LeafSigs(n: int64, bits: bits64, s: seq<byte>)
    ensures |Sig(Int(n))| == 8 && Decimal.Wrap64(Number(Sig(Int(n)))) == n
    ensures |Sig(Double(bits))| == 8 && Number(Sig(Double(bits))) == bits
    ensures Sig(Str(s)) == Sig(Bytes(s)) == s
    ensures Sig(Bool(true)) == [1] && Sig(Bool(false)) == [0] && Sig(Empty) == []
  {
    LittleEndianReads(n);
    LittleEndianReads(bits);
  }

  lemma {:induction false} SliceSigInside(v: Value, w: Value, xs: seq<Value>)
    requires forall i :: 0 <= i < |xs| ==> xs[i] < v && xs[i] < w
    ensures SliceSig(v, xs) == SliceSig(w, xs)
    decreases |xs|
  {
    if xs != [] {
      SliceSigInside(v, w, xs[1..]);
    }
  }

  /** The items one after the other. */
  lemma {:induction false} SliceSigGrows(xs: seq<Value>, x: Value)
    ensures Sig(Slice([])) == [] && Sig(Slice(xs + [x])) == Sig(Slice(xs)) + Sig(x)
  {
    var v := Slice(xs + [x]);
    forall i | 0 <= i < |xs| ensures xs[i] < v {
      assert v.items[i] == xs[i];
    }
    assert x == v.items[|xs|];
    SliceSigAppend(v, xs, x);
    SliceSigInside(v, Slice(xs), xs);
  }

  lemma {:induction false} EntriesSigInside(v: Value, w: Value, es: seq<Entry>)
    requires forall i :: 0 <= i < |es| ==> es[i].value < v && es[i].value < w
    ensures EntriesSig(v, es) == EntriesSig(w, es)
    decreases |es|
  {
    if es != [] {
      EntriesSigInside(v, w, es[1..]);
    }
  }

  predicate KeyAfter(es: seq<Entry>, key: seq<byte>) {
    forall e :: e in es ==> e.key != key && LexLeq(EntryKey(e), key)
  }

  /** The entries by ascending keys, each its key and then its value, without the
      one to skip. */
  lemma {:induction false} MapSigGrows(es: seq<Entry>, e: Entry, skip: seq<byte>)
    requires DistinctKeys(es) && KeyAfter(es, e.key)
    ensures MapSig(Map([]), skip) == [] && Sig(Map(es)) == MapSig(Map(es), [])
    ensures MapSig(Map(es + [e]), skip) == MapSig(Map(es), skip) + if e.key == skip then [] else e.key + Sig(e.value)
  {
    var v, w, a := Map(es + [e]), Map(es), Written(es, skip);
    WrittenGrows(es, e, skip);
    forall i | 0 <= i < |a| ensures a[i].value < v && a[i].value < w {
      assert a[i] in es;
      assert a[i] in v.entries;
    }
    EntriesSigInside(v, w, a);
    assert e in v.entries;
    EntriesGrow(v, a, e, skip);
  }

  lemma {:induction false} EntriesGrow(v: Value, a: seq<Entry>, e: Entry, skip: seq<byte>)
    requires e.value < v && forall i :: 0 <= i < |a| ==> a[i].value < v
    ensures (forall i :: 0 <= i < |a + Kept(e, skip)| ==> (a + Kept(e, skip))[i].value < v) &&
            EntriesSig(v, a + Kept(e, skip)) == EntriesSig(v, a) + if e.key == skip then [] else e.key + Sig(e.value)
  {
    if e.key == skip {
      assert a + Kept(e, skip) == a;
    } else {
      EntriesSigAppend(v, a, e);
    }
  }

  lemma {:induction false} WrittenGrows(es: seq<Entry>, e: Entry, skip: seq<byte>)
    requires DistinctKeys(es) && KeyAfter(es, e.key)
    ensures Written(es + [e], skip) == Written(es, skip) + Kept(e, skip)
  {
    WithoutAppend(es, e, skip);
    if e.key == skip {
      assert Without(es, skip) + [] == Without(es, skip);
    } else {
      WrittenApart(es, e, skip);
      assert KeyAfter(Written(es, skip), e.key);
      SortGrows(Without(es, skip), e);
    }
  }

  lemma {:induction false} SortGrows(kept: seq<Entry>, e: Entry)
    requires KeyAfter(Sort(kept, EntryKey), e.key) && KeyedApart(Sort(kept, EntryKey) + [e], EntryKey)
    ensures Sort(kept + [e], EntryKey) == Sort(kept, EntryKey) + [e]
  {
    var a := Sort(kept, EntryKey) + [e];
    assert multiset(a) == multiset(kept + [e]);
    SortedEndsWith(Sort(kept, EntryKey), e);
    SortPermutation(a, kept + [e], EntryKey);
    SortOfSorted(a, EntryKey);
  }

  lemma {:induction false} SortedEndsWith(a: seq<Entry>, e: Entry)
    requires SortedBy(a, EntryKey) && KeyAfter(a, e.key)
    ensures SortedBy(a + [e], EntryKey)
  {
    var b := a + [e];
    forall i, j | 0 <= i < j < |b| ensures LexLeq(EntryKey(b[i]), EntryKey(b[j])) {
      assert b[i] == a[i] && a[i] in a;
    }
  }

  lemma {:induction false} WrittenApart(es: seq<Entry>, e: Entry, skip: seq<byte>)
    requires DistinctKeys(es) && KeyAfter(es, e.key)
    ensures KeyedApart(Written(es, skip) + [e], EntryKey)
  {
    var b := Written(es, skip) + [e];
    forall x, y | x in b && y in b && EntryKey(x) == EntryKey(y) ensures x == y {
      assert x == e || x in es;
      assert y == e || y in es;
    }
  }

  // ---------- data points ----------

  datatype DataPoint = DataPoint(start: bits64, time: bits64, attributes: seq<Entry>)

  function PointSig(p: DataPoint, multivariateKey: seq<byte>): seq<byte> {
    LittleEndian(p.start) + LittleEndian(p.time) + MapSig(Map(p.attributes), multivariateKey)
  }

  /** Data points with the same times and equal attributes have the same
      signature, whatever order the attributes are in, exactly when the zeros
      among the attributes written have the same signs. */
  lemma EqualPointsSameSig(p: DataPoint, q: DataPoint, multivariateKey: seq<byte>)
    requires p.start == q.start && p.time == q.time
    requires ProperMaps(Map(p.attributes)) && ProperMaps(Map(q.attributes))
    requires ValuesEqual(Map(p.attributes), Map(q.attributes))
    ensures PointSig(p, multivariateKey) == PointSig(q, multivariateKey) <==>
            EntriesSameZeros(p.attributes, q.attributes, multivariateKey)
  {
    var v, w := Map(p.attributes), Map(q.attributes);
    SameMapSig(v, w, p.attributes, q.attributes, multivariateKey);
    var times := LittleEndian(p.start) + LittleEndian(p.time);
    Halves(times, MapSig(v, multivariateKey), times, MapSig(w, multivariateKey));
  }

  /** Both times, in bytes 0 to 7 and 8 to 15, and then the attributes. */
  lemma PointReads(p: DataPoint, multivariateKey: seq<byte>)
    ensures var s := PointSig(p, multivariateKey);
            |s| >= 16 && Number(s[..8]) == p.start && Number(s[8..16]) == p.time &&
            s[16..] == MapSig(Map(p.attributes), multivariateKey)
  {
    var s := PointSig(p, multivariateKey);
    assert s[..8] == LittleEndian(p.start) && s[8..16] == LittleEndian(p.time);
    LittleEndianReads(p.start);
    LittleEndianReads(p.time);
  }

  /** Points that are merged have the same times. */
  lemma SamePointSig(p: DataPoint, q: DataPoint, multivariateKey: seq<byte>)
    requires PointSig(p, multivariateKey) == PointSig(q, multivariateKey)
    ensures p.start == q.start && p.time == q.time
    ensures MapSig(Map(p.attributes), multivariateKey) == MapSig(Map(q.attributes), multivariateKey)
  {
    PointReads(p, multivariateKey);
    PointReads(q, multivariateKey);
  }

  // ---------- the code ----------

  lemma {:induction false} EntriesSigAppend(whole: Value, es: seq<Entry>, e: Entry)
    requires forall i :: 0 <= i < |es| ==> es[i].value < whole
    requires e.value < whole
    ensures EntriesSig(whole, es + [e]) == EntriesSig(whole, es) + (e.key + Sig(e.value))
    decreases |es|
  {
    if es != [] {
      assert (es + [e])[1..] == es[1..] + [e];
      EntriesSigAppend(whole, es[1..], e);
    }
  }

  lemma {:induction false} SliceSigAppend(whole: Value, xs: seq<Value>, x: Value)
    requires forall i :: 0 <= i < |xs| ==> xs[i] < whole
    requires x < whole
    ensures SliceSig(whole, xs + [x]) == SliceSig(whole, xs) + Sig(x)
    decreases |xs|
  {
    if xs != [] {
      assert (xs + [x])[1..] == xs[1..] + [x];
      SliceSigAppend(whole, xs[1..], x);
    }
  }

  /** The entries but the multivariate key, collected and sorted by key. */
  method CollectEntries(entries: seq<Entry>, multivariateKey: seq<byte>) returns (tmp: seq<Entry>)
    ensures tmp == Written(entries, multivariateKey)
  {
    tmp := [];
    for i := 0 to |entries|
      invariant tmp == Without(entries[..i], multivariateKey)
    {
      WithoutAppend(entries[..i], entries[i], multivariateKey);
      assert entries[..i + 1] == entries[..i] + [entries[i]];
      if entries[i].key != multivariateKey {
        tmp := tmp + [entries[i]];
      }
    }
    assert entries[..|entries|] == entries;
    tmp := Sort(tmp, EntryKey);
  }

  method AppendEntries(sig: seq<byte>, whole: Value, tmp: seq<Entry>) returns (r: seq<byte>)
    requires forall j :: 0 <= j < |tmp| ==> tmp[j].value < whole
    ensures r == sig + EntriesSig(whole, tmp)
    decreases whole, 0
  {
    r := sig;
    for i := 0 to |tmp|
      invariant r == sig + EntriesSig(whole, tmp[..i])
    {
      EntriesSigAppend(whole, tmp[..i], tmp[i]);
      assert tmp[..i + 1] == tmp[..i] + [tmp[i]];
      Regroup(sig, EntriesSig(whole, tmp[..i]), tmp[i].key, Sig(tmp[i].value));
      r := r + tmp[i].key;
      r := AppendValueSig(r, tmp[i].value);
    }
    assert tmp[..|tmp|] == tmp;
  }

  method AppendMapSig(sig: seq<byte>, whole: Value, entries: seq<Entry>, multivariateKey: seq<byte>)
    returns (r: seq<byte>)
    requires whole == Map(entries)
    ensures r == sig + MapSig(whole, multivariateKey)
    decreases whole, 1
  {
    var tmp := CollectEntries(entries, multivariateKey);
    r := AppendEntries(sig, whole, tmp);
  }

  lemma {:induction false} WithoutAppend(es: seq<Entry>, e: Entry, skip: seq<byte>)
    ensures Without(es + [e], skip) == Without(es, skip) + Kept(e, skip)
  {
    if es == [] {
      assert es + [e] == [e] && [e][1..] == [];
      assert Kept(e, skip) + [] == Kept(e, skip) && [] + Kept(e, skip) == Kept(e, skip);
    } else {
      assert (es + [e])[0] == es[0] && (es + [e])[1..] == es[1..] + [e];
      WithoutAppend(es[1..], e, skip);
      Assoc(Kept(es[0], skip), Without(es[1..], skip), Kept(e, skip));
    }
  }

  method AppendSliceSig(sig: seq<byte>, whole: Value, items: seq<Value>) returns (r: seq<byte>)
    requires whole == Slice(items)
    ensures r == sig + SliceSig(whole, items)
    decreases whole, 0
  {
    r := sig;
    for i := 0 to |items|
      invariant r == sig + SliceSig(whole, items[..i])
    {
      SliceSigAppend(whole, items[..i], items[i]);
      assert items[..i + 1] == items[..i] + [items[i]];
      r := AppendValueSig(r, items[i]);
    }
    assert items[..|items|] == items;
  }

  /** Appending a value's signature never depends on what the buffer holds. */
  method AppendValueSig(sig: seq<byte>, value: Value) returns (r: seq<byte>)
    ensures r == sig + Sig(value)
    decreases value, 2
  {
    match value {
      case Bool(b) => r := sig + [if b then 1 else 0];
      case Int(n) => r := sig + LittleEndian(n);
      case Double(bits) => r := sig + LittleEndian(bits);
      case Bytes(raw) => r := sig + raw;
      case Str(text) => r := sig + text;
      case Slice(items) => r := AppendSliceSig(sig, value, items);
      case Map(entries) => r := AppendMapSig(sig, value, entries, []);
      case Empty => r := sig;
    }
  }

  method DataPointSig(p: DataPoint, multivariateKey: seq<byte>) returns (r: seq<byte>)
    ensures r == PointSig(p, multivariateKey)
    ensures |r| >= 16 && Number(r[..8]) == p.start && Number(r[8..16]) == p.time
  {
    PointReads(p, multivariateKey);
    r := LittleEndian(p.start) + LittleEndian(p.time);
    r := AppendMapSig(r, Map(p.attributes), p.attributes, multivariateKey);
  }
}
