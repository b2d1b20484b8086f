/** Decimal numerals, as printf's %d writes them and as streams read them. */
module Decimal {

  predicate IsDigit(c: char) {
    '0' <= c <= '9'
  }

  predicate AllDigits(s: string) {
    forall i :: 0 <= i < |s| ==> IsDigit(s[i])
  }

  function Digit(d: nat): (c: char)
    requires d < 10
    ensures IsDigit(c) && c as int - '0' as int == d
  {
    '0' + d as char
  }

  function Digits(n: nat): (s: string)
    ensures |s| >= 1 && AllDigits(s)
  {
    if n < 10 then [Digit(n)] else Digits(n / 10) + [Digit(n % 10)]
  }

  /** What printf's %d writes. */
  function Numeral(n: int): string {
    if n >= 0 then Digits(n) else "-" + Digits(-n)
  }

  function Value(c: char): nat {
    if IsDigit(c) then c as int - '0' as int else 0
  }

  /** The number the characters of a stretch stand for; other characters count as 0. */
  function NumberAt(s: string, from: nat, end: nat): nat
    requires from <= end <= |s|
  {
    if from == end then 0 else 10 * NumberAt(s, from, end - 1) + Value(s[end - 1])
  }

  lemma {:induction false} NumberSame(s: string, i: nat, t: string, n: nat)
    requires i + n <= |s| && n <= |t| && forall k :: 0 <= k < n ==> s[i + k] == t[k]
    ensures NumberAt(s, i, i + n) == NumberAt(t, 0, n)
  {
    if n == 0 {
    } else {
      NumberSame(s, i, t, n - 1);
      assert s[i + (n - 1)] == t[n - 1];
    }
  }

  lemma NumberAppend(t: string, c: char)
    ensures NumberAt(t + [c], 0, |t| + 1) == 10 * NumberAt(t, 0, |t|) + Value(c)
  {
    NumberSame(t + [c], 0, t, |t|);
  }

  /** What is written reads as itself. */
  lemma {:induction false} NumberInDigits(n: nat)
    ensures NumberAt(Digits(n), 0, |Digits(n)|) == n
  {
    if n < 10 {
    } else {
      NumberInDigits(n / 10);
      NumberAppend(Digits(n / 10), Digit(n % 10));
    }
  }

  /** Numbers are written without leading zeros. */
  lemma {:induction false} NoLeadingZero(n: nat)
    ensures |Digits(n)| > 1 ==> Digits(n)[0] != '0'
  {
    if n < 10 {
    } else {
      NoLeadingZero(n / 10);
    }
  }

  /** Digits count from the left: each further one multiplies by ten what stands before it. */
  lemma DecimalPlaces(ds: string, c: char)
    requires AllDigits(ds) && '0' <= c <= '9'
    ensures NumberAt("", 0, 0) == 0
    ensures NumberAt(ds + [c], 0, |ds| + 1) == 10 * NumberAt(ds, 0, |ds|) + (c as int - 48)
  {
    NumberAppend(ds, c);
  }

  function Power10(k: nat): nat {
    if k == 0 then 1 else 10 * Power10(k - 1)
  }

  lemma {:induction false} DigitsBound(n: nat, k: nat)
    requires k >= 1 && n < Power10(k)
    ensures |Digits(n)| <= k
  {
    if n < 10 {
    } else {
      DigitsBound(n / 10, k - 1);
    }
  }

  predicate IsInt32(n: int) {
    -0x8000_0000 <= n < 0x8000_0000
  }

  /** A 32-bit integer takes at most a sign and ten digits. */
  lemma NumeralBound(n: int)
    requires IsInt32(n)
    ensures 1 <= |Numeral(n)| <= 11
  {
    assert Power10(2) == 100;
    assert Power10(4) == 10_000;
    assert Power10(6) == 1_000_000;
    assert Power10(8) == 100_000_000;
    assert Power10(10) == 10_000_000_000;
    DigitsBound(if n >= 0 then n else -n, 10);
  }
}
