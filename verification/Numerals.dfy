/** Positional numerals as Go prints and reads them: decimal for ports, prefix
    lengths, octets and versions, lower-case hexadecimal for IPv6 groups. */
module Numerals {

  predicate IsBase(b: nat) { b == 10 || b == 16 }

  function DigitChar(d: nat): char
    requires d < 16
  {
    if d < 10 then '0' + d as char else 'a' + (d - 10) as char
  }

  predicate IsDigit(c: char, b: nat) {
    '0' <= c <= '9' || (b == 16 && ('a' <= c <= 'f' || 'A' <= c <= 'F'))
  }

  function DigitValue(c: char): nat
    requires IsDigit(c, 16)
  {
    if '0' <= c <= '9' then (c - '0') as nat
    else if 'a' <= c <= 'f' then (c - 'a') as nat + 10
    else (c - 'A') as nat + 10
  }

  predicate AllDigits(s: string, b: nat) {
    forall i :: 0 <= i < |s| ==> IsDigit(s[i], b)
  }

  // Division and multiplication by a known base, which keeps proofs linear.
  function Quotient(n: nat, b: nat): nat { if b == 16 then n / 16 else n / 10 }
  function Remainder(n: nat, b: nat): nat { if b == 16 then n % 16 else n % 10 }
  function Shifted(n: nat, b: nat): nat { if b == 16 then n * 16 else n * 10 }

  function Print(n: nat, b: nat): string
    requires IsBase(b)
  {
    if n < b then [DigitChar(n)] else Print(Quotient(n, b), b) + [DigitChar(Remainder(n, b))]
  }

  function Value(s: string, b: nat): nat
    requires IsBase(b) && AllDigits(s, b)
  {
    if s == "" then 0 else Shifted(Value(s[..|s| - 1], b), b) + DigitValue(s[|s| - 1])
  }

  /** A numeral without superfluous leading zeros. */
  predicate Canonical(s: string) {
    |s| == 1 || (|s| > 1 && s[0] != '0')
  }

  lemma {:induction false} ValueOfPrint(n: nat, b: nat)
    requires IsBase(b)
    ensures AllDigits(Print(n, b), b) && Canonical(Print(n, b))
    ensures n > 0 ==> Print(n, b)[0] != '0'
    ensures Value(Print(n, b), b) == n
  {
    if n >= b {
      ValueOfPrint(Quotient(n, b), b);
      var p := Print(Quotient(n, b), b);
      assert Print(n, b)[..|Print(n, b)| - 1] == p;
    }
  }

  /** Canonical decimal text is exactly what printing its value gives back. */
  lemma {:induction false} PrintOfValue(s: string)
    requires AllDigits(s, 10) && Canonical(s)
    ensures Print(Value(s, 10), 10) == s
    ensures |s| > 1 ==> Value(s, 10) >= 10
  {
    var n := |s|;
    if n == 1 {
      assert Value(s[..0], 10) == 0;
    } else {
      var init := s[..n - 1];
      assert init[0] == s[0];
      PrintOfValue(init);
      if |init| == 1 {
        assert Value(init[..0], 10) == 0;
      }
      assert Value(s, 10) / 10 == Value(init, 10);
      assert init + [s[n - 1]] == s;
    }
  }

  lemma PrintInjective(m: nat, n: nat)
    requires Print(m, 10) == Print(n, 10)
    ensures m == n
  {
    ValueOfPrint(m, 10);
    ValueOfPrint(n, 10);
  }

  /** The digits, as they are written and as they are read. */
  lemma Digits(d: nat)
    requires d < 16
    ensures DigitChar(d) == "0123456789abcdef"[d]
    ensures DigitValue("0123456789abcdef"[d]) == d && DigitValue("0123456789ABCDEF"[d]) == d
    ensures IsDigit("0123456789abcdef"[d], 16) && IsDigit("0123456789ABCDEF"[d], 16)
    ensures IsDigit("0123456789abcdef"[d], 10) <==> d < 10
  {
  }

  /** No other character is a digit. */
  lemma OnlyDigits(c: char)
    ensures IsDigit(c, 10) ==> c in "0123456789"
    ensures IsDigit(c, 16) ==> c in "0123456789" || c in "abcdef" || c in "ABCDEF"
  {
    if IsDigit(c, 10) { assert "0123456789"[(c - '0') as int] == c; }
    if 'a' <= c <= 'f' { assert "abcdef"[(c - 'a') as int] == c; }
    if 'A' <= c <= 'F' { assert "ABCDEF"[(c - 'A') as int] == c; }
  }

  /** A numeral grows by one digit at its end. */
  lemma OneDigitMore(q: nat, d: nat)
    ensures d < 10 ==> Print(d, 10) == ["0123456789"[d]]
    ensures d < 10 && q > 0 ==> Print(10 * q + d, 10) == Print(q, 10) + ["0123456789"[d]]
    ensures d < 16 ==> Print(d, 16) == ["0123456789abcdef"[d]]
    ensures d < 16 && q > 0 ==> Print(16 * q + d, 16) == Print(q, 16) + ["0123456789abcdef"[d]]
  {
    if d < 16 { Digits(d); }
    hide DigitChar;
  }

  /** The number of digits at the start of s. */
  function LeadingDigits(s: string, b: nat): (n: nat)
    ensures n <= |s|
  {
    if s != "" && IsDigit(s[0], b) then 1 + LeadingDigits(s[1..], b) else 0
  }

  /** A run of digits ends exactly where the first other character stands. */
  lemma {:induction false} LeadingDigitsOf(d: string, rest: string, b: nat)
    requires AllDigits(d, b)
    requires rest == "" || !IsDigit(rest[0], b)
    ensures LeadingDigits(d + rest, b) == |d|
  {
    if d == "" {
      assert d + rest == rest;
    } else {
      assert (d + rest)[1..] == d[1..] + rest;
      LeadingDigitsOf(d[1..], rest, b);
    }
  }

  lemma {:induction false} LeadingDigitsAreDigits(s: string, b: nat)
    ensures AllDigits(s[..LeadingDigits(s, b)], b)
    ensures LeadingDigits(s, b) < |s| ==> !IsDigit(s[LeadingDigits(s, b)], b)
  {
    if s != "" && IsDigit(s[0], b) {
      LeadingDigitsAreDigits(s[1..], b);
      var n := LeadingDigits(s[1..], b);
      assert forall i :: 1 <= i < n + 1 ==> s[i] == s[1..][..n][i - 1];
      if n + 1 < |s| { assert s[n + 1] == s[1..][n]; }
    }
  }
}
