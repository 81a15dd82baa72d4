/**
  Machine integers and their decimal text, as `fmt.Sprintf("%d", n)` prints
  them.
 */
module Decimal {

  const TWO_63: int := 0x8000_0000_0000_0000
  const TWO_64: int := 0x1_0000_0000_0000_0000

  /** The int64 with the same low 64 bits as `n`: what an int64 holds after
      arithmetic whose exact result is `n`. */
  function Wrap64(n: int): (r: int)
    ensures -TWO_63 <= r < TWO_63
    ensures -TWO_63 <= n < TWO_63 ==> r == n
    decreases if -TWO_63 <= n < TWO_63 then 0 else if n < 0 then -n else n
  {
    if n >= TWO_63 then Wrap64(n - TWO_64)
    else if n < -TWO_63 then Wrap64(n + TWO_64)
    else n
  }

  /** How often `n` has gone round. */
  function Turns(n: int): int
    decreases if -TWO_63 <= n < TWO_63 then 0 else if n < 0 then -n else n
  {
    if n >= TWO_63 then Turns(n - TWO_64) + 1
    else if n < -TWO_63 then Turns(n + TWO_64) - 1
    else 0
  }

  lemma {:induction false} WrapTurns(n: int)
    ensures n == Wrap64(n) + TWO_64 * Turns(n)
    decreases if -TWO_63 <= n < TWO_63 then 0 else if n < 0 then -n else n
  {
    if n >= TWO_63 {
      WrapTurns(n - TWO_64);
    } else if n < -TWO_63 {
      WrapTurns(n + TWO_64);
    }
  }

  lemma WholeTurns(d: int, t: int)
    requires -TWO_64 < d < TWO_64
    ensures (d + TWO_64 * t) % TWO_64 == 0 <==> d == 0
  {
    var x := d + TWO_64 * t;
    assert x == TWO_64 * (x / TWO_64) + x % TWO_64;
    if d == 0 {
      assert x % TWO_64 == TWO_64 * (t - x / TWO_64);
    }
  }

  lemma WrapCongruence(i: int, j: int)
    ensures Wrap64(i) == Wrap64(j) <==> (i - j) % TWO_64 == 0
  {
    WrapTurns(i);
    WrapTurns(j);
    WholeTurns(Wrap64(i) - Wrap64(j), Turns(i) - Turns(j));
  }

  /** Numbers less than 2^64 apart differ after the wrap. */
  lemma WrapApart(i: int, j: int)
    requires i < j < i + TWO_64
    ensures Wrap64(i) != Wrap64(j)
  {
    WrapTurns(i);
    WrapTurns(j);
  }

  /** Numbers a whole turn apart are equal after the wrap. */
  lemma WrapAround(i: int)
    ensures Wrap64(i + TWO_64) == Wrap64(i)
  {
    WrapTurns(i);
    WrapTurns(i + TWO_64);
  }

  /** Counting up by one commutes with the wrap. */
  lemma WrapStep(n: int)
    ensures Wrap64(Wrap64(n) + 1) == Wrap64(n + 1)
  {
    WrapTurns(n);
    WrapTurns(n + 1);
    WrapTurns(Wrap64(n) + 1);
  }

  function Digit(d: nat): (c: char)
    requires d < 10
    ensures '0' <= c <= '9' && c as int == '0' as int + d
  {
    ('0' as int + d) as char
  }

  function Digits(n: nat): (s: string)
    ensures s != [] && (n > 0 ==> s[0] != '0')
    ensures forall i :: 0 <= i < |s| ==> '0' <= s[i] <= '9'
  {
    if n < 10 then [Digit(n)] else Digits(n / 10) + [Digit(n % 10)]
  }

  function FormatInt(n: int): (s: string)
    ensures s != []
    ensures forall i :: 0 <= i < |s| ==> '0' <= s[i] <= '9' || s[i] == '-'
  {
    if n < 0 then "-" + Digits(-n) else Digits(n)
  }

  /** The number that decimal digits stand for, the first one counting most. */
  function Value(s: string): int {
    if s == "" then 0 else 10 * Value(s[..|s| - 1]) + (s[|s| - 1] as int - '0' as int)
  }

  function ParseInt(s: string): int {
    if s != "" && s[0] == '-' then -Value(s[1..]) else Value(s)
  }

  lemma {:induction false} DigitsValue(n: nat)
    ensures Value(Digits(n)) == n
  {
    var s := Digits(n);
    if n < 10 {
      assert Value(s[..0]) == 0;
    } else {
      DigitsValue(n / 10);
      assert s[..|s| - 1] == Digits(n / 10);
    }
  }

  /** What is printed is read back as the number. */
  lemma ParseFormatted(n: int)
    ensures ParseInt(FormatInt(n)) == n
  {
    var s := FormatInt(n);
    if n < 0 {
      assert s[1..] == Digits(-n);
      DigitsValue(-n);
    } else {
      DigitsValue(n);
    }
  }

  lemma FormatInjective(m: int, n: int)
    requires FormatInt(m) == FormatInt(n)
    ensures m == n
  {
    ParseFormatted(m);
    ParseFormatted(n);
  }
}
