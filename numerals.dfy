/**
 * Positional numerals as Python writes them: the digits of `bin(n)` and of
 * `str(n)`, their value, and the decimal text of an integer.
 */
module Numerals {

  /** Digits of `n` in `base`, most significant first, without leading zeros; `[0]` for zero. */
  function Digits(n: nat, base: nat): (ds: seq<nat>)
    requires base >= 2
    ensures |ds| >= 1
    ensures forall i :: 0 <= i < |ds| ==> ds[i] < base
    ensures n > 0 ==> ds[0] != 0
    decreases n
  {
    if n < base then [n]
    else
      DivModFacts(n, base);
      Digits(n / base, base) + [n % base]
  }

  lemma DivModFacts(n: nat, base: nat)
    requires base >= 2 && n >= base
    ensures 1 <= n / base < n && n % base < base
    ensures n == (n / base) * base + n % base
  {
  }

  /** The number a digit sequence denotes (leading zeros allowed). */
  function Value(ds: seq<nat>, base: nat): nat
  {
    if ds == [] then 0 else Value(ds[..|ds| - 1], base) * base + ds[|ds| - 1]
  }

  function Zeros(k: nat): (zs: seq<nat>)
    ensures |zs| == k && forall i :: 0 <= i < k ==> zs[i] == 0
  {
    seq(k, _ => 0)
  }

  function Pow(base: nat, e: nat): (p: nat)
    ensures base >= 1 ==> p >= 1
  {
    if e == 0 then 1 else base * Pow(base, e - 1)
  }

  lemma {:induction false} ValueOfDigits(n: nat, base: nat)
    requires base >= 2
    ensures Value(Digits(n, base), base) == n
    decreases n
  {
    if n >= base {
      var ds := Digits(n, base);
      DivModFacts(n, base);
      assert ds[..|ds| - 1] == Digits(n / base, base);
      ValueOfDigits(n / base, base);
    }
  }

  lemma {:induction false} ValueAppend(ds: seq<nat>, es: seq<nat>, base: nat)
    ensures Value(ds + es, base) == Value(ds, base) * Pow(base, |es|) + Value(es, base)
    decreases |es|
  {
    if es == [] {
      assert ds + es == ds;
    } else {
      var last := es[|es| - 1];
      var init := es[..|es| - 1];
      assert (ds + es)[..|ds + es| - 1] == ds + init;
      ValueAppend(ds, init, base);
      assert Value(ds + es, base) == Value(ds + init, base) * base + last;
      assert Pow(base, |es|) == base * Pow(base, |init|);
      ShiftDigit(Value(ds, base), Pow(base, |init|), Value(init, base), base, last);
    }
  }

  /** The arithmetic of one more digit: (v * p + w) * b + d == v * (b * p) + (w * b + d). */
  lemma ShiftDigit(v: int, p: int, w: int, b: int, d: int)
    ensures (v * p + w) * b + d == v * (b * p) + (w * b + d)
  {
    assert (v * p) * b == v * (b * p);
  }

  lemma {:induction false} ValueOfZeros(k: nat, base: nat)
    ensures Value(Zeros(k), base) == 0
  {
    if k > 0 {
      assert Zeros(k)[..k - 1] == Zeros(k - 1);
      ValueOfZeros(k - 1, base);
    }
  }

  /** Leading zeros do not change the value: the basis of zero padding. */
  lemma LeadingZeros(k: nat, ds: seq<nat>, base: nat)
    ensures Value(Zeros(k) + ds, base) == Value(ds, base)
  {
    ValueAppend(Zeros(k), ds, base);
    ValueOfZeros(k, base);
  }

  /** A one followed by `k` zeros is `base` to the power `k`. */
  lemma OneThenZeros(k: nat, base: nat)
    ensures Value([1] + Zeros(k), base) == Pow(base, k)
  {
    ValueAppend([1], Zeros(k), base);
    ValueOfZeros(k, base);
    assert [1][..0] == [];
  }

  lemma DigitStepBounds(n: nat, q: nat, r: nat, base: nat, p: nat, p1: nat)
    requires n == q * base + r && r < base
    requires q < p && p1 <= q
    ensures n < base * p && base * p1 <= n
  {
    assert q + 1 <= p;
    assert (q + 1) * base <= p * base;
    assert p1 * base <= q * base;
  }

  lemma {:induction false} DigitsCountBound(n: nat, base: nat)
    requires base >= 2
    ensures n < Pow(base, |Digits(n, base)|)
    ensures n > 0 ==> Pow(base, |Digits(n, base)| - 1) <= n
    decreases n
  {
    if n >= base {
      var q, r := n / base, n % base;
      DivModFacts(n, base);
      DigitsCountBound(q, base);
      var k := |Digits(q, base)|;
      assert |Digits(n, base)| == k + 1;
      DigitStepBounds(n, q, r, base, Pow(base, k), Pow(base, k - 1));
    }
  }

  lemma MulAtLeast(x: nat, p: nat)
    requires x >= 1
    ensures x * p >= p
  {
  }

  lemma {:induction false} PowMono(base: nat, a: nat, b: nat)
    requires base >= 1 && a <= b
    ensures Pow(base, a) <= Pow(base, b)
    decreases b
  {
    if a < b {
      PowMono(base, a, b - 1);
      MulAtLeast(base, Pow(base, b - 1));
    }
  }

  /** More digits means a larger number: the digit count is monotonic. */
  lemma DigitsCountMono(n: nat, m: nat, base: nat)
    requires base >= 2 && n <= m
    ensures |Digits(n, base)| <= |Digits(m, base)|
  {
    var a, b := |Digits(n, base)|, |Digits(m, base)|;
    if a > b {
      DigitsCountBound(n, base);
      DigitsCountBound(m, base);
      PowMono(base, b, a - 1);
    }
  }

  /** The character of a decimal digit. */
  function DigitChar(d: nat): char
    requires d < 10
  {
    (48 + d) as char
  }

  predicate IsDigitChar(c: char)
  {
    '0' <= c <= '9'
  }

  function CharDigit(c: char): nat
    requires IsDigitChar(c)
  {
    (c as int - 48) as nat
  }

  /** The text of a digit sequence. */
  function Chars(ds: seq<nat>): (s: string)
    requires forall i :: 0 <= i < |ds| ==> ds[i] < 10
    ensures |s| == |ds|
    ensures forall i :: 0 <= i < |s| ==> IsDigitChar(s[i]) && CharDigit(s[i]) == ds[i]
  {
    seq(|ds|, i requires 0 <= i < |ds| => DigitChar(ds[i]))
  }

  /** The digit sequence a digit text stands for. */
  function DigitsOf(s: string): (ds: seq<nat>)
    requires forall i :: 0 <= i < |s| ==> IsDigitChar(s[i])
    ensures |ds| == |s| && forall i :: 0 <= i < |s| ==> ds[i] == CharDigit(s[i])
  {
    seq(|s|, i requires 0 <= i < |s| => CharDigit(s[i]))
  }

  /** Python's `str(i)` for an integer. */
  function IntToString(i: int): (s: string)
    ensures |s| >= 1
    ensures forall k :: 0 <= k < |s| ==> s[k] != '#'
  {
    if i < 0 then "-" + Chars(Digits(-i, 10)) else Chars(Digits(i, 10))
  }

  /** Python's `int(s)` restricted to an optional minus sign and decimal digits. */
  function ParseInt(s: string): int
    requires |s| >= 1
    requires forall k :: 1 <= k < |s| ==> IsDigitChar(s[k])
    requires s[0] == '-' || IsDigitChar(s[0])
  {
    if s[0] == '-' then -(Value(DigitsOf(s[1..]), 10) as int) else Value(DigitsOf(s), 10)
  }

  lemma IntToStringRoundTrip(i: int)
    ensures var s := IntToString(i);
      (forall k :: 1 <= k < |s| ==> IsDigitChar(s[k])) && (s[0] == '-' || IsDigitChar(s[0]))
      && ParseInt(s) == i
  {
    var s := IntToString(i);
    if i < 0 {
      var ds := Digits(-i, 10);
      assert s[1..] == Chars(ds);
      DigitsOfChars(ds);
      ValueOfDigits(-i, 10);
    } else {
      DigitsOfChars(Digits(i, 10));
      ValueOfDigits(i, 10);
    }
  }

  /** Reading back the text of a digit sequence gives the digits. */
  lemma DigitsOfChars(ds: seq<nat>)
    requires forall i :: 0 <= i < |ds| ==> ds[i] < 10
    ensures DigitsOf(Chars(ds)) == ds
  {
    var s := Chars(ds);
    assert forall i :: 0 <= i < |ds| ==> DigitsOf(s)[i] == ds[i];
  }

  /** Distinct integers have distinct decimal texts. */
  lemma IntToStringInjective(a: int, b: int)
    requires IntToString(a) == IntToString(b)
    ensures a == b
  {
    IntToStringRoundTrip(a);
    IntToStringRoundTrip(b);
  }

  /** Python's `int(x)` on a float: truncation toward zero. */
  function Trunc(x: real): (t: int)
    ensures x >= 0.0 ==> t >= 0 && t as real <= x < t as real + 1.0
  {
    if x >= 0.0 then x.Floor else -((-x).Floor)
  }

  /** `int(N * r)` lies in 0 .. N for a ratio in [0, 1]. */
  lemma TruncRatio(N: nat, r: real)
    requires 0.0 <= r <= 1.0
    ensures 0 <= Trunc(N as real * r) <= N
  {
    var a := N as real;
    assert 0.0 <= a * r;
    assert 0.0 <= a * (1.0 - r);
    assert a * r + a * (1.0 - r) == a;
  }
}
