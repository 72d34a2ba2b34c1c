/**
 Positional numerals as printed by Go's strconv and fmt and by Python's str: no leading zeros,
 lower-case digits. Printing is invertible, hence injective, in every base up to 16.
 */
module Numerals {

  predicate IsDigit(c: char) {
    '0' <= c <= '9' || 'a' <= c <= 'f'
  }

  predicate AllDigits(s: string) {
    forall i :: 0 <= i < |s| ==> IsDigit(s[i])
  }

  function DigitChar(v: nat): (c: char)
    requires v < 16
    ensures IsDigit(c) && (v < 10 <==> '0' <= c <= '9')
  {
    if v < 10 then '0' + v as char else 'a' + (v - 10) as char
  }

  function DigitValue(c: char): (v: nat)
    requires IsDigit(c)
    ensures v < 16
  {
    if '0' <= c <= '9' then (c - '0') as nat else 10 + (c - 'a') as nat
  }

  lemma DigitValueOf(v: nat)
    requires v < 16
    ensures DigitValue(DigitChar(v)) == v
  {
  }

  function Print(n: nat, base: nat): (s: string)
    requires 2 <= base <= 16
    ensures s != "" && AllDigits(s)
    ensures base <= 10 ==> forall i :: 0 <= i < |s| ==> '0' <= s[i] <= '9'
    decreases n
  {
    if n < base then [DigitChar(n)]
    else
      QuotientShrinks(n, base);
      Print(n / base, base) + [DigitChar(n % base)]
  }

  lemma QuotientShrinks(n: nat, base: nat)
    requires 2 <= base <= n
    ensures 0 < n / base < n && n == n / base * base + n % base
  {
    var q, r := n / base, n % base;
    assert n == q * base + r;
    TimesAtLeast(q, base);
  }

  lemma TimesAtLeast(q: nat, base: nat)
    requires base >= 2
    ensures q * base >= 2 * q
  {
  }

  /** The number a digit string denotes. */
  function Parse(s: string, base: nat): nat
    requires 2 <= base <= 16 && AllDigits(s)
  {
    if s == "" then 0 else Parse(s[..|s| - 1], base) * base + DigitValue(s[|s| - 1])
  }

  lemma ParseSnoc(s: string, c: char, base: nat)
    requires 2 <= base <= 16 && AllDigits(s) && IsDigit(c)
    ensures AllDigits(s + [c])
    ensures Parse(s + [c], base) == Parse(s, base) * base + DigitValue(c)
  {
    assert (s + [c])[..|s|] == s;
  }

  lemma {:induction false} ParsePrint(n: nat, base: nat)
    requires 2 <= base <= 16
    ensures Parse(Print(n, base), base) == n
    decreases n
  {
    if n < base {
      DigitValueOf(n);
      ParseSnoc("", DigitChar(n), base);
      assert [] + [DigitChar(n)] == [DigitChar(n)];
    } else {
      QuotientShrinks(n, base);
      var q, r := n / base, n % base;
      ParsePrint(q, base);
      DigitValueOf(r);
      ParseSnoc(Print(q, base), DigitChar(r), base);
    }
  }

  /** Different numbers print differently. */
  lemma PrintInjective(m: nat, n: nat, base: nat)
    requires 2 <= base <= 16
    requires Print(m, base) == Print(n, base)
    ensures m == n
  {
    ParsePrint(m, base);
    ParsePrint(n, base);
  }

  /** No punctuation ever occurs in a printed number. */
  lemma PrintHasNo(n: nat, base: nat, c: char)
    requires 2 <= base <= 16
    requires !IsDigit(c)
    ensures c !in Print(n, base)
  {
  }
}
