/**
 * The C and C++ standard-library services the parsers rely on: the character
 * classes of <cctype> in the "C" locale and the integer conversion std::stoi.
 */
module CLib {
  import opened Wrappers

  predicate IsDigit(c: char) {
    '0' <= c <= '9'
  }

  /** isspace in the "C" locale. */
  predicate IsSpace(c: char) {
    c == ' ' || c == '\t' || c == '\n' || c == '\r' || c == '\U{B}' || c == '\U{C}'
  }

  function SkipSpace(s: string, i: nat): (r: nat)
    requires i <= |s|
    ensures i <= r <= |s| && (r < |s| ==> !IsSpace(s[r]))
    decreases |s| - i
  {
    if i < |s| && IsSpace(s[i]) then SkipSpace(s, i + 1) else i
  }

  function DigitsEnd(s: string, i: nat): (r: nat)
    requires i <= |s|
    ensures i <= r <= |s| && (r < |s| ==> !IsDigit(s[r]))
    ensures forall k :: i <= k < r ==> IsDigit(s[k])
    decreases |s| - i
  {
    if i < |s| && IsDigit(s[i]) then DigitsEnd(s, i + 1) else i
  }

  /** The value of a run of decimal digits. */
  function DigitsValue(digits: string): nat
    requires forall k :: 0 <= k < |digits| ==> IsDigit(digits[k])
    decreases |digits|
  {
    if digits == [] then 0
    else
      assert IsDigit(digits[|digits| - 1]);
      10 * DigitsValue(digits[..|digits| - 1]) + (digits[|digits| - 1] as int - '0' as int)
  }

  const IntMin := -0x8000_0000
  const IntMax := 0x7FFF_FFFF

  /** std::stoi: leading white space, an optional sign, then digits; none gives invalid_argument, a value outside int gives out_of_range. */
  function StoI(s: string): Result<int, Exception> {
    var i := SkipSpace(s, 0);
    var negative := i < |s| && s[i] == '-';
    var j := if i < |s| && (s[i] == '-' || s[i] == '+') then i + 1 else i;
    var k := DigitsEnd(s, j);
    if k == j then Err(InvalidArgument)
    else
      var magnitude: int := DigitsValue(s[j..k]);
      var value: int := if negative then -magnitude else magnitude;
      if IntMin <= value <= IntMax then Ok(value) else Err(OutOfRange)
  }

  /** The decimal text of a number, as written in the input. */
  function DecimalText(n: nat): (r: string)
    ensures r != [] && forall k :: 0 <= k < |r| ==> IsDigit(r[k])
  {
    if n < 10 then [('0' as int + n) as char] else DecimalText(n / 10) + [('0' as int + n % 10) as char]
  }

  lemma {:induction false} DecimalTextValue(n: nat)
    ensures DigitsValue(DecimalText(n)) == n
  {
    if n >= 10 {
      DecimalTextValue(n / 10);
      var t := DecimalText(n);
      assert t[..|t| - 1] == DecimalText(n / 10);
    }
  }

  /** std::stoi on a run of digits followed by a non-digit gives the value of the digits. */
  lemma StoIOfDigits(text: string, n: nat)
    requires 0 < n < |text| && !IsDigit(text[n])
    requires forall k :: 0 <= k < n ==> IsDigit(text[k])
    requires DigitsValue(text[..n]) <= IntMax
    ensures StoI(text) == Ok(DigitsValue(text[..n]))
  {
    assert SkipSpace(text, 0) == 0;
    assert DigitsEnd(text, 0) == n by {
      DigitsEndAt(text, 0, n);
    }
    assert text[0..n] == text[..n];
  }

  lemma DigitsEndAt(s: string, i: nat, n: nat)
    requires i <= n < |s| && !IsDigit(s[n]) && forall k :: i <= k < n ==> IsDigit(s[k])
    ensures DigitsEnd(s, i) == n
    decreases n - i
  {
    if i < n {
      DigitsEndAt(s, i + 1, n);
    }
  }

  /** ASCII lower case, as tolower in the "C" locale. */
  function ToLower(c: char): char {
    if 'A' <= c <= 'Z' then (c as int + 32) as char else c
  }

  /** Whether s starts with the lower-case word, its letters compared ignoring case. */
  predicate StartsWithIgnoringCase(s: string, word: string) {
    |word| <= |s| && forall k :: 0 <= k < |word| ==> ToLower(s[k]) == word[k]
  }

  /**
   * Whether std::stod (strtod) converts a prefix of s: after white space and an
   * optional sign comes a decimal digit, a '.' followed by a digit, or INF or
   * NAN in any case (hexadecimal text starts with the digit 0). On any other
   * text std::stod throws invalid_argument.
   */
  predicate StoDAccepts(s: string) {
    var i := SkipSpace(s, 0);
    var j := if i < |s| && (s[i] == '-' || s[i] == '+') then i + 1 else i;
    || (j < |s| && IsDigit(s[j]))
    || (j + 1 < |s| && s[j] == '.' && IsDigit(s[j + 1]))
    || StartsWithIgnoringCase(s[j..], "inf")
    || StartsWithIgnoringCase(s[j..], "nan")
  }

  /** std::stod accepts the decimal text of any number, negative or not, whatever follows it. */
  lemma StoDAcceptsDecimal(negative: bool, n: nat, rest: string)
    ensures StoDAccepts((if negative then "-" else "") + DecimalText(n) + rest)
  {
    var s := (if negative then "-" else "") + DecimalText(n) + rest;
    assert !IsSpace(s[0]);
    assert SkipSpace(s, 0) == 0;
    if negative {
      assert s[1] == DecimalText(n)[0];
    } else {
      assert s[0] == DecimalText(n)[0];
    }
  }

  /** Text that starts with a letter other than i or n, and the empty text, are not numbers to std::stod. */
  lemma StoDRejectsWords(c: char, rest: string)
    requires 'a' <= ToLower(c) <= 'z' && ToLower(c) != 'i' && ToLower(c) != 'n'
    ensures !StoDAccepts([c] + rest)
    ensures !StoDAccepts([])
  {
    var s := [c] + rest;
    assert !IsSpace(s[0]) && SkipSpace(s, 0) == 0;
    assert ToLower(s[0]) == ToLower(c);
  }
}
