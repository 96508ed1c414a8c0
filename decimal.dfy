/**
 * Decimal digit strings: the text `parseInt(s, 10)` and `Number(s)` read when
 * `s` is made of decimal digits only, and the text JavaScript produces when a
 * non-negative integer is concatenated with a string.
 */
module Decimal {

  predicate IsDigit(c: char)
  {
    '0' <= c <= '9'
  }

  /** A non-empty run of decimal digits. */
  predicate IsDigits(s: string)
  {
    |s| >= 1 && forall i :: 0 <= i < |s| ==> IsDigit(s[i])
  }

  /** Digits with no leading zero (or the single digit "0"): the form JavaScript prints. */
  predicate IsCanonical(s: string)
  {
    IsDigits(s) && (s[0] == '0' ==> |s| == 1)
  }

  function DigitChar(d: nat): (c: char)
    requires d < 10
    ensures IsDigit(c)
  {
    ('0' as int + d) as char
  }

  function DigitValue(c: char): (d: nat)
    requires IsDigit(c)
    ensures d < 10
  {
    c as int - '0' as int
  }

  /** The value of a run of digits, most significant first. */
  function ValueOf(s: string): (v: nat)
    requires forall i :: 0 <= i < |s| ==> IsDigit(s[i])
  {
    if s == [] then 0 else ValueOf(s[..|s| - 1]) * 10 + DigitValue(s[|s| - 1])
  }

  /** A run of digits is worth nothing exactly when every digit is `0`. */
  lemma {:induction false} ValueOfZero(s: string)
    requires forall i :: 0 <= i < |s| ==> IsDigit(s[i])
    ensures ValueOf(s) == 0 <==> forall i :: 0 <= i < |s| ==> s[i] == '0'
  {
    if s != [] {
      var init := s[..|s| - 1];
      ValueOfZero(init);
      assert forall i :: 0 <= i < |init| ==> init[i] == s[i];
    }
  }

  /** `String(n)` for a non-negative integer. */
  function Show(n: nat): (s: string)
    ensures IsCanonical(s)
  {
    if n < 10 then [DigitChar(n)]
    else
      var s := Show(n / 10) + [DigitChar(n % 10)];
      assert s[0] == Show(n / 10)[0];
      s
  }

  /** Reading back what `Show` printed gives the number. */
  lemma {:induction false} ValueOfShow(n: nat)
    ensures ValueOf(Show(n)) == n
  {
    if n >= 10 {
      var s := Show(n);
      ValueOfShow(n / 10);
      assert s[..|s| - 1] == Show(n / 10);
    }
  }

  /** A canonical digit string with at least two digits is worth at least 10. */
  lemma {:induction false} ValueOfLeadingDigit(s: string)
    requires IsDigits(s) && s[0] != '0'
    ensures |s| >= 2 ==> ValueOf(s) >= 10
    ensures ValueOf(s) >= 1
  {
    if |s| >= 2 {
      ValueOfLeadingDigit(s[..|s| - 1]);
    }
  }

  /** Printing the value of a canonical digit string gives the string back. */
  lemma {:induction false} ShowValueOf(s: string)
    requires IsCanonical(s)
    ensures Show(ValueOf(s)) == s
  {
    var n := ValueOf(s);
    if |s| == 1 {
      assert s[..0] == [] && ValueOf(s[..0]) == 0;
      assert n == DigitValue(s[0]) < 10;
      assert Show(n) == [DigitChar(n)];
    } else {
      var init := s[..|s| - 1];
      ValueOfLeadingDigit(s);
      ValueOfLeadingDigit(init);
      assert init[0] == s[0];
      ShowValueOf(init);
      assert n / 10 == ValueOf(init);
      assert s == init + [s[|s| - 1]];
    }
  }

  /** Two canonical strings with the same value are the same string. */
  lemma CanonicalUnique(s: string, t: string)
    requires IsCanonical(s) && IsCanonical(t)
    requires ValueOf(s) == ValueOf(t)
    ensures s == t
  {
    ShowValueOf(s);
    ShowValueOf(t);
  }
}
