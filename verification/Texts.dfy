/** Bytes, and cutting concatenated texts apart again. */
module Texts {

  type byte = b: int | 0 <= b < 256

  /** A text that avoids the delimiter `d` ends where the first `d` is. */
  lemma SplitAtDelimiter<T>(a: seq<T>, b: seq<T>, d: T, x: seq<T>, y: seq<T>)
    requires d !in a && d !in b
    requires a + [d] + x == b + [d] + y
    ensures a == b && x == y
  {
    var s, t := a + [d] + x, b + [d] + y;
    assert s[|a|] == d && t[|b|] == d;
    assert |a| <= |b| by {
      assert forall i :: 0 <= i < |a| ==> s[i] == a[i];
    }
    assert |b| <= |a| by {
      assert forall i :: 0 <= i < |b| ==> t[i] == b[i];
    }
    assert s[..|a|] == a && t[..|b|] == b;
    assert s[|a| + 1..] == x && t[|b| + 1..] == y;
  }

  /** Where `d` is first, or the length of the text. */
  function IndexOf<T(==)>(s: seq<T>, d: T): (k: nat)
    ensures k <= |s| && d !in s[..k] && (k < |s| ==> s[k] == d)
  {
    if s == [] || s[0] == d then 0
    else
      var k := IndexOf(s[1..], d);
      assert s[..k + 1] == [s[0]] + s[1..][..k];
      k + 1
  }

  lemma FirstDelimiter<T>(a: seq<T>, d: T, x: seq<T>)
    requires d !in a
    ensures IndexOf(a + [d] + x, d) == |a|
  {
    var s := a + [d] + x;
    assert s[|a|] == d && s[..|a|] == a;
    FirstIsThere(s, d, |a|);
  }

  lemma {:induction false} FirstIsThere<T>(s: seq<T>, d: T, k: nat)
    requires k < |s| && s[k] == d && d !in s[..k]
    ensures IndexOf(s, d) == k
    decreases k
  {
    if k > 0 {
      assert s[0] == s[..k][0];
      assert s[1..][..k - 1] == s[..k][1..];
      FirstIsThere(s[1..], d, k - 1);
    }
  }

  lemma Drop<T>(p: seq<T>, x: seq<T>, y: seq<T>)
    requires p + x == p + y
    ensures x == y
  {
    assert x == (p + x)[|p|..] && y == (p + y)[|p|..];
  }

  lemma Assoc<T>(p: seq<T>, q: seq<T>, x: seq<T>)
    ensures p + q + x == p + (q + x)
  {
  }

  lemma Regroup<T>(p: seq<T>, q: seq<T>, r: seq<T>, x: seq<T>)
    ensures p + q + r + x == p + (q + (r + x))
  {
  }
}
