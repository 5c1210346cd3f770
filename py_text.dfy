/**
 * The pieces of Python's text built-ins the updater relies on:
 * `str.strip()` with no argument, and `str()` applied to an integer.
 */
module PyText {
  import opened Wrappers

  // ---------------------------------------------------------------------
  // str.strip()
  // ---------------------------------------------------------------------

  /** `c.isspace()` in Python 3: the characters `str.strip()` removes. */
  predicate IsSpace(c: char) {
    var k := c as int;
    || 0x09 <= k <= 0x0d
    || 0x1c <= k <= 0x20
    || k == 0x85 || k == 0xa0 || k == 0x1680
    || 0x2000 <= k <= 0x200a
    || k == 0x2028 || k == 0x2029 || k == 0x202f || k == 0x205f || k == 0x3000
  }

  /** `s.lstrip()`: the longest suffix of `s` that does not start with whitespace. */
  function TrimStart(s: string): (r: string)
    ensures |r| <= |s| && r == s[|s| - |r|..]
    ensures forall k :: 0 <= k < |s| - |r| ==> IsSpace(s[k])
    ensures r == [] || !IsSpace(r[0])
  {
    if s != [] && IsSpace(s[0]) then TrimStart(s[1..]) else s
  }

  /** `s.rstrip()`: the longest prefix of `s` that does not end with whitespace. */
  function TrimEnd(s: string): (r: string)
    ensures |r| <= |s| && r == s[..|r|]
    ensures forall k :: |r| <= k < |s| ==> IsSpace(s[k])
    ensures r == [] || !IsSpace(r[|r| - 1])
  {
    if s != [] && IsSpace(s[|s| - 1]) then TrimEnd(s[..|s| - 1]) else s
  }

  /**
   * `s.strip()`: a slice of `s` that neither starts nor ends with
   * whitespace, everything cut off on either side being whitespace.
   */
  function Strip(s: string): (r: string)
    ensures r == [] || (!IsSpace(r[0]) && !IsSpace(r[|r| - 1]))
    ensures var i := |s| - |TrimStart(s)|;
            && i + |r| <= |s| && r == s[i..i + |r|]
            && (forall k :: 0 <= k < i ==> IsSpace(s[k]))
            && (forall k :: i + |r| <= k < |s| ==> IsSpace(s[k]))
  {
    TrimEnd(TrimStart(s))
  }

  // ---------------------------------------------------------------------
  // str(n) for an integer n, and a reading of it back
  // ---------------------------------------------------------------------

  predicate IsDigit(c: char) {
    '0' <= c <= '9'
  }

  function DigitChar(d: nat): (c: char)
    requires d < 10
    ensures IsDigit(c) && c as int - '0' as int == d
  {
    "0123456789"[d]
  }

  function DigitValue(c: char): nat
    requires IsDigit(c)
  {
    c as int - '0' as int
  }

  predicate AllDigits(s: string) {
    forall k :: 0 <= k < |s| ==> IsDigit(s[k])
  }

  /** The decimal digits of `n`, most significant first, without leading zeros. */
  function NatToString(n: nat): (r: string)
    ensures |r| >= 1 && AllDigits(r)
    ensures r[0] == '0' <==> n == 0
    decreases n
  {
    if n < 10 then [DigitChar(n)] else NatToString(n / 10) + [DigitChar(n % 10)]
  }

  /** `str(n)`: an optional minus sign followed by the digits of `|n|`. */
  function IntToString(n: int): (r: string)
    ensures |r| >= 1
    ensures r[0] == '-' <==> n < 0
  {
    if n < 0 then "-" + NatToString(-n) else NatToString(n)
  }

  /** The number a string of decimal digits denotes. */
  function DigitsValue(s: string): nat
    requires AllDigits(s)
    decreases |s|
  {
    if s == [] then 0 else DigitsValue(s[..|s| - 1]) * 10 + DigitValue(s[|s| - 1])
  }

  /**
   * An optional '-' followed by at least one decimal digit, read as an
   * integer; `None` for anything else. It is the inverse of `IntToString`
   * on the strings `IntToString` produces.
   */
  function ParseInt(s: string): Option<int> {
    if |s| >= 2 && s[0] == '-' && AllDigits(s[1..]) then Some(0 - DigitsValue(s[1..]) as int)
    else if |s| >= 1 && AllDigits(s) then Some(DigitsValue(s))
    else None
  }

  lemma {:induction false} DigitsValueOfNatToString(n: nat)
    ensures DigitsValue(NatToString(n)) == n
    decreases n
  {
    if n >= 10 {
      DigitsValueOfNatToString(n / 10);
      var r := NatToString(n);
      assert r[..|r| - 1] == NatToString(n / 10);
    }
  }

  lemma ParseSignedDigits(digits: string)
    requires |digits| >= 1 && AllDigits(digits)
    ensures ParseInt(digits) == Some(DigitsValue(digits) as int)
    ensures ParseInt("-" + digits) == Some(0 - DigitsValue(digits) as int)
  {
    assert ("-" + digits)[1..] == digits;
  }

  /** Reading back what `str()` wrote gives the integer again. */
  lemma ParseIntToString(n: int)
    ensures ParseInt(IntToString(n)) == Some(n)
  {
    var digits := NatToString(if n < 0 then -n else n);
    DigitsValueOfNatToString(if n < 0 then -n else n);
    ParseSignedDigits(digits);
  }

  /** Distinct integers are rendered as distinct strings. */
  lemma IntToStringInjective(a: int, b: int)
    ensures IntToString(a) == IntToString(b) ==> a == b
  {
    ParseIntToString(a);
    ParseIntToString(b);
  }
}
