/** The text that a C++ output stream writes for a non-negative integer
    (`s << step`, `s << proxyoffset[pos]`, `s << base_output+j`): base ten,
    no sign, no leading zeros. */
module Decimal {

  predicate IsDigit(c: char) {
    '0' <= c <= '9'
  }

  predicate AllDigits(s: string) {
    forall i :: 0 <= i < |s| ==> IsDigit(s[i])
  }

  /** A well-formed rendering: at least one digit, and no leading zero
      unless the number is zero itself. */
  predicate Canonical(s: string) {
    0 < |s| && AllDigits(s) && (|s| > 1 ==> s[0] != '0')
  }

  function DigitChar(d: nat): (c: char)
    requires d < 10
    ensures IsDigit(c) && c as int - '0' as int == d
  {
    ('0' as int + d) as char
  }

  function DigitValue(c: char): (d: nat)
    requires IsDigit(c)
    ensures d < 10 && DigitChar(d) == c
  {
    c as int - '0' as int
  }

  /** The characters written for `n`: the digits of `n / 10`, then the last digit. */
  function FromNat(n: nat): string
    decreases n
  {
    if n < 10 then [DigitChar(n)] else FromNat(n / 10) + [DigitChar(n % 10)]
  }

  /** What is written is a well-formed decimal numeral. */
  lemma {:induction false} FromNatCanonical(n: nat)
    ensures Canonical(FromNat(n))
    decreases n
  {
    if n >= 10 {
      FromNatCanonical(n / 10);
      var s := FromNat(n);
      assert s[0] == FromNat(n / 10)[0];
    }
  }

  /** Reads a string of digits back as a number (the partner of FromNat). */
  function ToNat(s: string): (n: nat)
    requires AllDigits(s)
  {
    if s == [] then 0 else ToNat(s[..|s| - 1]) * 10 + DigitValue(s[|s| - 1])
  }

  /** Writing a number and reading it back gives the number. */
  lemma {:induction false} ToNatFromNat(n: nat)
    ensures Canonical(FromNat(n))
    ensures ToNat(FromNat(n)) == n
    decreases n
  {
    FromNatCanonical(n);
    var s := FromNat(n);
    if n >= 10 {
      ToNatFromNat(n / 10);
      assert s[..|s| - 1] == FromNat(n / 10);
    }
  }

  /** A digit string that does not start with '0' denotes a positive number. */
  lemma {:induction false} LeadingNonzeroIsPositive(s: string)
    requires AllDigits(s) && 0 < |s| && s[0] != '0'
    ensures ToNat(s) > 0
    decreases |s|
  {
    if |s| > 1 {
      var p := s[..|s| - 1];
      assert p[0] == s[0];
      LeadingNonzeroIsPositive(p);
    }
  }

  /** Reading a canonical string and writing the number gives the string back. */
  lemma {:induction false} FromNatToNat(s: string)
    requires Canonical(s)
    ensures FromNat(ToNat(s)) == s
    decreases |s|
  {
    if |s| > 1 {
      var p := s[..|s| - 1];
      assert p[0] == s[0];
      LeadingNonzeroIsPositive(p);
      FromNatToNat(p);
      FromNatCanonical(ToNat(s) / 10);
      var n := ToNat(s);
      assert n / 10 == ToNat(p) && n % 10 == DigitValue(s[|s| - 1]);
      assert s == p + [s[|s| - 1]];
    }
  }

  /** Distinct numbers are written as distinct strings, so names built from
      them (`values_3`, `values_13`) never collide. */
  lemma FromNatInjective(m: nat, n: nat)
    requires FromNat(m) == FromNat(n)
    ensures m == n
  {
    ToNatFromNat(m);
    ToNatFromNat(n);
  }
}
