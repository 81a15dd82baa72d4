/**
  Lexicographic order and sorting.

  Go compares strings byte by byte and Rust compares `&str` the same way; both
  repositories sort field names, map keys and package names with that order.
  `Sort` stands for the library sort each of them calls; `SortedUnique` says
  when it does not matter which sorting algorithm that is.
 */
module Ordering {

  /** Lexicographic order on sequences of byte or character codes. */
  predicate LexLeq(a: seq<int>, b: seq<int>) {
    a == [] ||
    (b != [] && (a[0] < b[0] || (a[0] == b[0] && LexLeq(a[1..], b[1..]))))
  }

  lemma {:induction false} LexTotal(a: seq<int>, b: seq<int>)
    ensures LexLeq(a, b) || LexLeq(b, a)
  {
    if a != [] && b != [] {
      LexTotal(a[1..], b[1..]);
    }
  }

  lemma {:induction false} LexTransitive(a: seq<int>, b: seq<int>, c: seq<int>)
    requires LexLeq(a, b) && LexLeq(b, c)
    ensures LexLeq(a, c)
  {
    if a != [] && a[0] == b[0] && b[0] == c[0] {
      LexTransitive(a[1..], b[1..], c[1..]);
    }
  }

  lemma {:induction false} LexAntisymmetric(a: seq<int>, b: seq<int>)
    requires LexLeq(a, b) && LexLeq(b, a)
    ensures a == b
  {
    if a != [] {
      LexAntisymmetric(a[1..], b[1..]);
      assert a == [a[0]] + a[1..] && b == [b[0]] + b[1..];
    }
  }

  /** The character codes of a string, by which strings are compared. */
  function Codes(s: string): (c: seq<int>)
    ensures |c| == |s|
    ensures forall i :: 0 <= i < |s| ==> c[i] == s[i] as int
  {
    seq(|s|, i requires 0 <= i < |s| => s[i] as int)
  }

  lemma {:induction false} CodesInjective(s: string, t: string)
    requires Codes(s) == Codes(t)
    ensures s == t
  {
    assert |Codes(s)| == |s| && |Codes(t)| == |t|;
    forall i | 0 <= i < |s| ensures s[i] == t[i] {
      assert Codes(s)[i] == Codes(t)[i];
    }
  }

  ghost predicate SortedBy<T>(xs: seq<T>, key: T -> seq<int>) {
    forall i, j :: 0 <= i < j < |xs| ==> LexLeq(key(xs[i]), key(xs[j]))
  }

  function Insert<T>(x: T, xs: seq<T>, key: T -> seq<int>): seq<T> {
    if xs == [] || LexLeq(key(x), key(xs[0])) then [x] + xs
    else [xs[0]] + Insert(x, xs[1..], key)
  }

  lemma {:induction false} InsertPermutes<T>(x: T, xs: seq<T>, key: T -> seq<int>)
    ensures multiset(Insert(x, xs, key)) == multiset{x} + multiset(xs)
  {
    if xs != [] && !LexLeq(key(x), key(xs[0])) {
      InsertPermutes(x, xs[1..], key);
      assert xs == [xs[0]] + xs[1..];
    }
  }

  lemma {:induction false} InsertSorts<T>(x: T, xs: seq<T>, key: T -> seq<int>)
    requires SortedBy(xs, key)
    ensures SortedBy(Insert(x, xs, key), key)
  {
    if xs == [] {
    } else if LexLeq(key(x), key(xs[0])) {
      forall j | 0 <= j < |xs| ensures LexLeq(key(x), key(xs[j])) {
        if j > 0 { LexTransitive(key(x), key(xs[0]), key(xs[j])); }
      }
    } else {
      var rest := Insert(x, xs[1..], key);
      InsertSorts(x, xs[1..], key);
      forall j | 0 <= j < |rest| ensures LexLeq(key(xs[0]), key(rest[j])) {
        LexTotal(key(x), key(xs[0]));
        InsertPermutes(x, xs[1..], key);
        assert rest[j] in multiset(rest);
        if rest[j] != x {
          var k :| 0 <= k < |xs[1..]| && xs[1..][k] == rest[j];
          assert xs[k + 1] == rest[j];
        }
      }
    }
  }

  /** A sorted permutation of `xs`. */
  function Sort<T>(xs: seq<T>, key: T -> seq<int>): (r: seq<T>)
    ensures SortedBy(r, key)
    ensures multiset(r) == multiset(xs)
    ensures |r| == |xs|
  {
    if xs == [] then []
    else
      var rest := Sort(xs[1..], key);
      var r := Insert(xs[0], rest, key);
      SortStep(xs[0], xs[1..], rest, key);
      assert [xs[0]] + xs[1..] == xs;
      r
  }

  lemma SortStep<T>(x: T, xs: seq<T>, sorted: seq<T>, key: T -> seq<int>)
    requires SortedBy(sorted, key) && multiset(sorted) == multiset(xs) && |sorted| == |xs|
    ensures var r := Insert(x, sorted, key);
            SortedBy(r, key) && multiset(r) == multiset([x] + xs) && |r| == |xs| + 1
  {
    InsertPermutes(x, sorted, key);
    InsertSorts(x, sorted, key);
    assert |multiset(Insert(x, sorted, key))| == |sorted| + 1;
  }

  lemma {:induction false} SortMembers<T>(xs: seq<T>, key: T -> seq<int>)
    ensures forall x :: x in Sort(xs, key) <==> x in xs
  {
    assert forall x :: x in Sort(xs, key) <==> x in multiset(Sort(xs, key));
    assert forall x :: x in xs <==> x in multiset(xs);
  }

  /** The key tells the elements of `xs` apart. */
  ghost predicate KeyedApart<T>(xs: seq<T>, key: T -> seq<int>) {
    forall x, y :: x in xs && y in xs && key(x) == key(y) ==> x == y
  }

  /** Two sorted permutations of the same elements are the same sequence, once
      the key tells those elements apart. */
  lemma {:induction false} SortedUnique<T>(a: seq<T>, b: seq<T>, key: T -> seq<int>)
    requires SortedBy(a, key) && SortedBy(b, key) && multiset(a) == multiset(b)
    requires KeyedApart(a, key)
    ensures a == b
    decreases |a|
  {
    assert |multiset(a)| == |a| && |multiset(b)| == |b|;
    if a != [] {
      SameLeast(a, b, key);
      SameRest(a, b);
      assert forall x :: x in a[1..] ==> x in a;
      SortedUnique(a[1..], b[1..], key);
      assert a == [a[0]] + a[1..] && b == [b[0]] + b[1..];
    }
  }

  lemma {:induction false} SameRest<T>(a: seq<T>, b: seq<T>)
    requires a != [] && b != [] && a[0] == b[0] && multiset(a) == multiset(b)
    ensures multiset(a[1..]) == multiset(b[1..])
  {
    assert a == [a[0]] + a[1..];
    assert b == [b[0]] + b[1..];
    assert multiset(a[1..]) == multiset(a) - multiset{a[0]};
    assert multiset(b[1..]) == multiset(b) - multiset{b[0]};
  }

  lemma {:induction false} SameLeast<T>(a: seq<T>, b: seq<T>, key: T -> seq<int>)
    requires SortedBy(a, key) && SortedBy(b, key) && multiset(a) == multiset(b)
    requires KeyedApart(a, key) && a != [] && b != []
    ensures a[0] == b[0]
  {
    assert a[0] in multiset(b) && b[0] in multiset(a);
    LexTotal(key(a[0]), key(a[0]));
    LexTotal(key(b[0]), key(b[0]));
    var i :| 0 <= i < |b| && b[i] == a[0];
    var j :| 0 <= j < |a| && a[j] == b[0];
    assert LexLeq(key(a[0]), key(a[j])) && LexLeq(key(b[0]), key(b[i]));
    LexAntisymmetric(key(a[0]), key(b[0]));
  }

  /** The sort of a list depends only on its elements, not on their order. */
  lemma {:induction false} SortPermutation<T>(a: seq<T>, b: seq<T>, key: T -> seq<int>)
    requires multiset(a) == multiset(b)
    requires KeyedApart(a, key)
    ensures Sort(a, key) == Sort(b, key)
  {
    SortMembers(a, key);
    assert KeyedApart(Sort(a, key), key);
    SortedUnique(Sort(a, key), Sort(b, key), key);
  }

  lemma {:induction false} SortOfSorted<T>(a: seq<T>, key: T -> seq<int>)
    requires SortedBy(a, key) && KeyedApart(a, key)
    ensures Sort(a, key) == a
  {
    SortedUnique(a, Sort(a, key), key);
  }

  lemma {:induction false} EqualSortsMembers<T>(a: seq<T>, b: seq<T>, key: T -> seq<int>)
    requires Sort(a, key) == Sort(b, key)
    ensures |a| == |b| && forall x :: x in a ==> x in b
  {
    SortMembers(a, key);
    SortMembers(b, key);
  }

  function Apply<S, T>(f: S -> T, xs: seq<S>): (r: seq<T>)
    ensures |r| == |xs| && forall i :: 0 <= i < |xs| ==> r[i] == f(xs[i])
  {
    seq(|xs|, i requires 0 <= i < |xs| => f(xs[i]))
  }

  /** The change `f` keeps the sort key. */
  ghost predicate KeepsKey<S(!new), T>(f: S -> T, key: S -> seq<int>, key': T -> seq<int>) {
    forall y :: key'(f(y)) == key(y)
  }

  lemma ApplyFirst<S, T>(f: S -> T, x: S, xs: seq<S>)
    ensures Apply(f, [x] + xs) == [f(x)] + Apply(f, xs)
  {
  }

  lemma {:induction false} InsertCommutes<S(!new), T>(x: S, xs: seq<S>, f: S -> T, key: S -> seq<int>, key': T -> seq<int>)
    requires KeepsKey(f, key, key')
    ensures Apply(f, Insert(x, xs, key)) == Insert(f(x), Apply(f, xs), key')
    decreases |xs|
  {
    if xs == [] || LexLeq(key(x), key(xs[0])) {
      ApplyFirst(f, x, xs);
    } else {
      var rest := xs[1..];
      assert Apply(f, xs)[1..] == Apply(f, rest);
      InsertCommutes(x, rest, f, key, key');
      ApplyFirst(f, xs[0], Insert(x, rest, key));
    }
  }

  lemma {:induction false} ApplyRest<S, T>(f: S -> T, xs: seq<S>)
    requires xs != []
    ensures Apply(f, xs)[0] == f(xs[0]) && Apply(f, xs)[1..] == Apply(f, xs[1..])
  {
  }

  lemma {:induction false} SortFirst<T>(xs: seq<T>, key: T -> seq<int>)
    requires xs != []
    ensures Sort(xs, key) == Insert(xs[0], Sort(xs[1..], key), key)
  {
  }

  /** Sorting looks at keys only, so a change that keeps them may come before
      or after. */
  lemma {:induction false} SortCommutes<S(!new), T>(xs: seq<S>, f: S -> T, key: S -> seq<int>, key': T -> seq<int>)
    requires KeepsKey(f, key, key')
    ensures Apply(f, Sort(xs, key)) == Sort(Apply(f, xs), key')
    decreases |xs|
  {
    if xs != [] {
      SortCommutes(xs[1..], f, key, key');
      InsertCommutes(xs[0], Sort(xs[1..], key), f, key, key');
      SortFirst(xs, key);
      ApplyRest(f, xs);
      SortFirst(Apply(f, xs), key');
    }
  }

  ghost predicate NoDuplicates<T>(xs: seq<T>) {
    forall i, j :: 0 <= i < j < |xs| ==> xs[i] != xs[j]
  }

  lemma {:induction false} NoDuplicatesMultiset<T>(xs: seq<T>)
    requires NoDuplicates(xs)
    ensures multiset(xs) == multiset(set x | x in xs)
    ensures |set x | x in xs| == |xs|
  {
    if xs != [] {
      NoDuplicatesMultiset(xs[1..]);
      assert xs == [xs[0]] + xs[1..];
      assert xs[0] !in xs[1..];
      AddedToSet(xs[0], set x | x in xs[1..]);
      assert (set x | x in xs) == {xs[0]} + set x | x in xs[1..];
    }
  }

  lemma AddedToSet<T>(x: T, s: set<T>)
    requires x !in s
    ensures multiset({x} + s) == multiset{x} + multiset(s) && |{x} + s| == |s| + 1
  {
  }

  /** Lists without repetition, equally long, one within the other, hold the
      same elements. */
  lemma {:induction false} EqualByInclusion<T>(a: seq<T>, b: seq<T>)
    requires NoDuplicates(a) && NoDuplicates(b) && |a| == |b|
    requires forall x :: x in a ==> x in b
    ensures multiset(a) == multiset(b)
  {
    NoDuplicatesMultiset(a);
    NoDuplicatesMultiset(b);
    EqualByCardinality(set x | x in a, set x | x in b);
  }

  /** Lists without repetition that hold the same elements are equally long. */
  lemma {:induction false} EqualLength<T>(a: seq<T>, b: seq<T>)
    requires NoDuplicates(a) && NoDuplicates(b)
    requires forall x :: x in a <==> x in b
    ensures |a| == |b|
  {
    NoDuplicatesMultiset(a);
    NoDuplicatesMultiset(b);
    assert (set x | x in a) == (set x | x in b);
  }

  lemma {:induction false} EqualByCardinality<T>(a: set<T>, b: set<T>)
    requires a <= b && |a| == |b|
    ensures a == b
  {
    assert b == a + (b - a);
    assert |b| == |a| + |b - a|;
  }

  // ---------- sets of strings ----------

  lemma CodesKeepApart(xs: seq<string>)
    ensures KeyedApart(xs, Codes)
  {
    forall x, y | x in xs && y in xs && Codes(x) == Codes(y) ensures x == y {
      CodesInjective(x, y);
    }
  }

  /** The members of a set in some order; sorting makes the order immaterial. */
  ghost function Listed(s: set<string>): (r: seq<string>)
    ensures NoDuplicates(r) && forall x :: x in r <==> x in s
  {
    if s == {} then []
    else
      var x :| x in s;
      [x] + Listed(s - {x})
  }

  ghost function SortedStrings(s: set<string>): (r: seq<string>)
    ensures forall x :: x in r <==> x in s
  {
    SortMembers(Listed(s), Codes);
    Sort(Listed(s), Codes)
  }

  /** However a set of strings is listed, it sorts to the same sequence. */
  lemma {:induction false} AnyListing(xs: seq<string>, s: set<string>)
    requires NoDuplicates(xs) && forall x :: x in xs <==> x in s
    ensures Sort(xs, Codes) == SortedStrings(s)
  {
    EqualLength(xs, Listed(s));
    EqualByInclusion(xs, Listed(s));
    CodesKeepApart(xs);
    SortPermutation(xs, Listed(s), Codes);
  }
}
