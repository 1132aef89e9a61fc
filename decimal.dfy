/** Decimal rendering of integers (`Number.prototype.toString` and
    `toString(10)` on integral values) and `parseInt(s, 10)`. */
module Decimal {
  import opened Wrappers
  import Text

  predicate IsDigit(c: char)
  {
    '0' <= c <= '9'
  }

  function DigitChar(d: nat): (c: char)
    requires d < 10
    ensures IsDigit(c) && c as int - '0' as int == d
  {
    ('0' as int + d) as char
  }

  /** Value of a string of decimal digits, most significant first. */
  function DigitsValue(ds: string): nat
    requires forall i :: 0 <= i < |ds| ==> IsDigit(ds[i])
  {
    if ds == [] then 0
    else
      assert IsDigit(ds[|ds| - 1]);
      var d: nat := ds[|ds| - 1] as int - '0' as int;
      10 * DigitsValue(ds[..|ds| - 1]) + d
  }

  /** The shortest decimal digits of `n`. */
  function Digits(n: nat): (ds: string)
    ensures |ds| >= 1
    ensures forall i :: 0 <= i < |ds| ==> IsDigit(ds[i])
    ensures DigitsValue(ds) == n
    ensures |ds| > 1 ==> ds[0] != '0'
  {
    if n < 10 then [DigitChar(n)]
    else
      var ds := Digits(n / 10) + [DigitChar(n % 10)];
      assert ds[..|ds| - 1] == Digits(n / 10);
      ds
  }

  /** `n.toString()` for an integral number. */
  function IntToString(n: int): (s: string)
    ensures |s| >= 1
    ensures n >= 0 ==> s == Digits(n)
    ensures n < 0 ==> s == "-" + Digits(-n)
  {
    if n < 0 then "-" + Digits(-n) else Digits(n)
  }

  /** Length of the longest prefix of `s` made only of digits. */
  function LeadingDigits(s: string): (k: nat)
    ensures k <= |s|
    ensures forall i :: 0 <= i < k ==> IsDigit(s[i])
    ensures k < |s| ==> !IsDigit(s[k])
  {
    if s != [] && IsDigit(s[0]) then 1 + LeadingDigits(s[1..]) else 0
  }

  /** Unsigned part of `parseInt`: the longest digit prefix, or `NaN`
      (None) when there is none. */
  function ParseDigits(s: string): Option<nat>
  {
    var k := LeadingDigits(s);
    if k == 0 then None else Some(DigitsValue(s[..k]))
  }

  /** `parseInt(s, 10)`: leading white space is skipped, one optional sign
      is read, then the longest run of digits; anything after it is
      ignored. None stands for `NaN`. */
  function ParseInt(s: string): Option<int>
  {
    var t := s[Text.LeadingWhitespace(s)..];
    if t != [] && t[0] == '-' then
      match ParseDigits(t[1..])
      case None => None
      case Some(v) => Some(0 - v)
    else if t != [] && t[0] == '+' then
      ParseDigits(t[1..])
    else
      ParseDigits(t)
  }

  lemma DigitsAreAllDigits(n: nat)
    ensures LeadingDigits(Digits(n)) == |Digits(n)|
  {
  }

  /** The digits of `n` read back as `n`. */
  lemma ParseDigitsOf(n: nat)
    ensures ParseDigits(Digits(n)) == Some(n)
  {
    DigitsAreAllDigits(n);
    assert Digits(n)[..|Digits(n)|] == Digits(n);
  }

  /** A non-negative integer's digits parse back to it. */
  lemma ParseIntDigits(n: nat)
    ensures ParseInt(Digits(n)) == Some(n)
  {
    var s := Digits(n);
    assert Text.LeadingWhitespace(s) == 0;
    assert s[0..] == s;
    ParseDigitsOf(n);
  }

  /** A minus sign and the digits of `n` parse back to `-n`. */
  lemma ParseIntNegative(n: nat)
    ensures ParseInt("-" + Digits(n)) == Some(0 - n as int)
  {
    var s := "-" + Digits(n);
    assert Text.LeadingWhitespace(s) == 0;
    assert s[0..] == s && s[1..] == Digits(n);
    ParseDigitsOf(n);
  }

  /** Rendering an integer and parsing it back gives the same integer:
      the cursor a page returns selects exactly its own timestamp. */
  lemma ParseIntToString(n: int)
    ensures ParseInt(IntToString(n)) == Some(n)
  {
    if n < 0 {
      ParseIntNegative(-n);
    } else {
      ParseIntDigits(n);
    }
  }
}
