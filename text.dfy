/** Decimal text as the C and C++ runtimes produce and read it: the rendering
    of an `int` on an output stream, and `atoi` (which also stands for the
    integer reads of the XML helpers). */
module Text {

  predicate IsDigit(c: char) {
    '0' <= c <= '9'
  }

  /** The characters `isspace` accepts in the "C" locale. */
  predicate IsSpace(c: char) {
    c == ' ' || c == '\t' || c == '\n' || c == '\U{B}' || c == '\U{C}' || c == '\r'
  }

  function DigitChar(d: nat): (c: char)
    requires d < 10
    ensures IsDigit(c) && c as int - '0' as int == d
  {
    ('0' as int + d) as char
  }

  function DigitValue(c: char): (d: nat)
    requires IsDigit(c)
    ensures d < 10 && DigitChar(d) == c
  {
    c as int - '0' as int
  }

  predicate AllDigits(s: string) {
    forall i :: 0 <= i < |s| ==> IsDigit(s[i])
  }

  /** Decimal digits of `n`, most significant first, without leading zeros. */
  function NatToString(n: nat): (s: string)
    ensures |s| > 0 && AllDigits(s)
    ensures s[0] == '0' <==> n == 0
    decreases n
  {
    if n < 10 then [DigitChar(n)] else NatToString(n / 10) + [DigitChar(n % 10)]
  }

  /** What `os << n` writes for an `int`: a minus sign for negatives, then the digits. */
  function IntToString(n: int): (s: string)
    ensures |s| > 0
    ensures (s[0] == '-') <==> n < 0
    ensures n >= 0 ==> AllDigits(s)
    ensures n < 0 ==> AllDigits(s[1..]) && |s| > 1
  {
    if n < 0 then "-" + NatToString(-n) else NatToString(n)
  }

  /** The value of a string of decimal digits. */
  function DigitsValue(s: string): nat
    requires AllDigits(s)
  {
    if s == [] then 0 else DigitsValue(s[..|s| - 1]) * 10 + DigitValue(s[|s| - 1])
  }

  /** Length of the longest prefix made of digits. */
  function DigitPrefixLength(s: string): (k: nat)
    ensures k <= |s| && AllDigits(s[..k])
    ensures k < |s| ==> !IsDigit(s[k])
  {
    if s == [] || !IsDigit(s[0]) then 0
    else
      var k := 1 + DigitPrefixLength(s[1..]);
      assert s[..k] == [s[0]] + s[1..][..k - 1];
      k
  }

  function SkipSpaces(s: string): (t: string)
    ensures |t| <= |s| && t == s[|s| - |t|..]
    ensures t != [] ==> !IsSpace(t[0])
  {
    if s != [] && IsSpace(s[0]) then SkipSpaces(s[1..]) else s
  }

  /** The value of the digits at the head of `s` (0 when there are none). */
  function LeadingValue(s: string): nat {
    DigitsValue(s[..DigitPrefixLength(s)])
  }

  /** `atoi`: leading white space, an optional sign, then the longest run of
      digits; 0 when no digit follows. */
  function Atoi(s: string): (n: int)
    ensures s == [] ==> n == 0
  {
    var t := SkipSpaces(s);
    if t != [] && t[0] == '-' then 0 - LeadingValue(t[1..]) as int
    else if t != [] && t[0] == '+' then LeadingValue(t[1..])
    else LeadingValue(t)
  }

  lemma {:induction false} DigitsValueOfNatToString(n: nat)
    ensures DigitsValue(NatToString(n)) == n
    decreases n
  {
    var s := NatToString(n);
    if n >= 10 {
      DigitsValueOfNatToString(n / 10);
      assert s[..|s| - 1] == NatToString(n / 10);
    }
  }

  lemma LeadingValueOfDigits(s: string)
    requires AllDigits(s)
    ensures LeadingValue(s) == DigitsValue(s)
  {
    assert s[..DigitPrefixLength(s)] == s;
  }

  /** `atoi` of a non-empty run of digits is its value. */
  lemma AtoiOfDigits(d: string)
    requires d != [] && AllDigits(d)
    ensures Atoi(d) == DigitsValue(d)
  {
    assert SkipSpaces(d) == d;
    LeadingValueOfDigits(d);
  }

  /** `atoi` of a minus sign and a non-empty run of digits is the negated value. */
  lemma AtoiOfNegatedDigits(d: string)
    requires d != [] && AllDigits(d)
    ensures Atoi("-" + d) == 0 - DigitsValue(d) as int
  {
    var s := "-" + d;
    assert SkipSpaces(s) == s && s[1..] == d;
    LeadingValueOfDigits(d);
  }

  /** Reading back what `os << n` writes gives `n` again. */
  lemma AtoiOfIntToString(n: int)
    ensures Atoi(IntToString(n)) == n
  {
    if n < 0 {
      var d := NatToString(-n);
      assert IntToString(n) == "-" + d;
      AtoiOfNegatedDigits(d);
      DigitsValueOfNatToString(-n);
    } else {
      var d := NatToString(n);
      assert IntToString(n) == d;
      AtoiOfDigits(d);
      DigitsValueOfNatToString(n);
    }
  }

  /** A number below the modulus is its own remainder. */
  lemma ModOfSmaller(k: nat, n: nat)
    requires k < n
    ensures k % n == k
  {
  }
}
