/** UTF-8 as RFC 3629 defines it, which the CBOR decoder demands of text. */
module Utf8 {
  import opened Texts

  predicate Continuation(b: byte) { 0x80 <= b <= 0xbf }

  /** Well-formed UTF-8. */
  predicate ValidUtf8(s: seq<byte>)
    decreases |s|
  {
    if s == [] then true
    else if s[0] < 0x80 then ValidUtf8(s[1..])
    else if 0xc2 <= s[0] <= 0xdf then |s| >= 2 && Continuation(s[1]) && ValidUtf8(s[2..])
    else if 0xe0 <= s[0] <= 0xef then
      |s| >= 3 && Continuation(s[1]) && Continuation(s[2]) &&
      (s[0] == 0xe0 ==> s[1] >= 0xa0) && (s[0] == 0xed ==> s[1] <= 0x9f) && ValidUtf8(s[3..])
    else if 0xf0 <= s[0] <= 0xf4 then
      |s| >= 4 && Continuation(s[1]) && Continuation(s[2]) && Continuation(s[3]) &&
      (s[0] == 0xf0 ==> s[1] >= 0x90) && (s[0] == 0xf4 ==> s[1] <= 0x8f) && ValidUtf8(s[4..])
    else false
  }

  // ---------- the encoder it is the range of ----------

  /** A Unicode scalar value: any code point but the surrogates. */
  predicate Scalar(n: int) { 0 <= n < 0xd800 || 0xe000 <= n < 0x11_0000 }

  function EncodeScalar(n: int): (r: seq<byte>)
    requires Scalar(n)
    ensures 1 <= |r| <= 4
  {
    if n < 0x80 then [n]
    else if n < 0x800 then [0xc0 + n / 0x40, 0x80 + n % 0x40]
    else if n < 0x1_0000 then [0xe0 + n / 0x1000, 0x80 + n / 0x40 % 0x40, 0x80 + n % 0x40]
    else [0xf0 + n / 0x4_0000, 0x80 + n / 0x1000 % 0x40, 0x80 + n / 0x40 % 0x40, 0x80 + n % 0x40]
  }

  predicate Scalars(ns: seq<int>) { forall i :: 0 <= i < |ns| ==> Scalar(ns[i]) }

  function Encode(ns: seq<int>): seq<byte>
    requires Scalars(ns)
  {
    if ns == [] then [] else EncodeScalar(ns[0]) + Encode(ns[1..])
  }

  lemma FirstValid(n: int, x: seq<byte>)
    requires Scalar(n)
    ensures ValidUtf8(EncodeScalar(n) + x) <==> ValidUtf8(x)
  {
    var e := EncodeScalar(n);
    var s := e + x;
    assert s[0] == e[0] && s[|e|..] == x;
    assert |e| >= 2 ==> s[1] == e[1];
    assert |e| >= 3 ==> s[2] == e[2];
    assert |e| == 4 ==> s[3] == e[3];
  }

  /** The scalar value that well-formed text starts with. */
  lemma FirstScalar(s: seq<byte>) returns (n: int, k: nat)
    requires s != [] && ValidUtf8(s)
    ensures Scalar(n) && 0 < k <= |s| && s[..k] == EncodeScalar(n) && ValidUtf8(s[k..])
  {
    if s[0] < 0x80 {
      n, k := s[0], 1;
    } else if s[0] <= 0xdf {
      n, k := TwoBytes(s[0], s[1]), 2;
    } else if s[0] <= 0xef {
      n, k := ThreeBytes(s[0], s[1], s[2]), 3;
    } else {
      n, k := FourBytes(s[0], s[1], s[2], s[3]), 4;
    }
  }

  function TwoBytes(a: byte, b: byte): (n: int)
    requires 0xc2 <= a <= 0xdf && Continuation(b)
    ensures Scalar(n) && EncodeScalar(n) == [a, b]
  {
    (a - 0xc0) * 0x40 + (b - 0x80)
  }

  function ThreeBytes(a: byte, b: byte, c: byte): (n: int)
    requires 0xe0 <= a <= 0xef && Continuation(b) && Continuation(c)
    requires (a == 0xe0 ==> b >= 0xa0) && (a == 0xed ==> b <= 0x9f)
    ensures Scalar(n) && EncodeScalar(n) == [a, b, c]
  {
    var n := (a - 0xe0) * 0x1000 + (b - 0x80) * 0x40 + (c - 0x80);
    assert n / 0x40 == (a - 0xe0) * 0x40 + (b - 0x80);
    n
  }

  function FourBytes(a: byte, b: byte, c: byte, d: byte): (n: int)
    requires 0xf0 <= a <= 0xf4 && Continuation(b) && Continuation(c) && Continuation(d)
    requires (a == 0xf0 ==> b >= 0x90) && (a == 0xf4 ==> b <= 0x8f)
    ensures Scalar(n) && EncodeScalar(n) == [a, b, c, d]
  {
    Sextets(a - 0xf0, b - 0x80, c - 0x80, d - 0x80);
    (a - 0xf0) * 0x4_0000 + (b - 0x80) * 0x1000 + (c - 0x80) * 0x40 + (d - 0x80)
  }

  lemma Sextets(p: nat, q: nat, r: nat, t: nat)
    requires q < 0x40 && r < 0x40 && t < 0x40
    ensures var n := p * 0x4_0000 + q * 0x1000 + r * 0x40 + t;
            n / 0x4_0000 == p && n / 0x1000 % 0x40 == q && n / 0x40 % 0x40 == r && n % 0x40 == t
  {
    var n := p * 0x4_0000 + q * 0x1000 + r * 0x40 + t;
    assert n / 0x40 == p * 0x1000 + q * 0x40 + r;
    assert n / 0x1000 == p * 0x40 + q;
  }

  lemma {:induction false} EncodedIsValid(ns: seq<int>)
    requires Scalars(ns)
    ensures ValidUtf8(Encode(ns))
    decreases |ns|
  {
    if ns != [] {
      EncodedIsValid(ns[1..]);
      FirstValid(ns[0], Encode(ns[1..]));
    }
  }

  lemma {:induction false} ValidIsEncoded(s: seq<byte>) returns (ns: seq<int>)
    requires ValidUtf8(s)
    ensures Scalars(ns) && s == Encode(ns)
    decreases |s|
  {
    if s == [] {
      ns := [];
    } else {
      var n, k := FirstScalar(s);
      var rest := ValidIsEncoded(s[k..]);
      ns := [n] + rest;
      assert ns[1..] == rest && s == s[..k] + s[k..];
    }
  }

  /** Text is well formed exactly when it encodes some scalar values. */
  lemma ValidExactly(s: seq<byte>)
    ensures ValidUtf8(s) <==> exists ns :: Scalars(ns) && s == Encode(ns)
  {
    if ValidUtf8(s) {
      var ns := ValidIsEncoded(s);
    }
    if ns :| Scalars(ns) && s == Encode(ns) {
      EncodedIsValid(ns);
    }
  }
}
