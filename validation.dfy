/** The input checks of account opening and profile update. Only ASCII digits
    and letters are modelled. */
module Validation {

  predicate IsDigitChar(c: char) {
    '0' <= c <= '9'
  }

  /** `str.isdigit()`: non-empty and made of digits only. */
  predicate IsDigits(s: string) {
    |s| > 0 && forall k :: 0 <= k < |s| ==> IsDigitChar(s[k])
  }

  predicate ValidPin(pin: string) {
    |pin| == 4 && IsDigits(pin)
  }

  predicate ValidMobile(mobile: string) {
    |mobile| == 10 && IsDigits(mobile)
  }

  /** The only e-mail check: an `@` and a `.` somewhere. */
  predicate ValidEmail(email: string) {
    '@' in email && '.' in email
  }

  function UpperChar(c: char): char {
    if 'a' <= c <= 'z' then (c as int - 32) as char else c
  }

  /** `str.upper()` on ASCII letters (used for the card holder name). */
  function Upper(s: string): (r: string)
    ensures |r| == |s|
    ensures forall k :: 0 <= k < |r| ==> !('a' <= r[k] <= 'z')
    ensures forall k :: 0 <= k < |r| ==> r[k] == s[k] || ('a' <= s[k] <= 'z' && r[k] as int == s[k] as int - 32)
  {
    seq(|s|, k requires 0 <= k < |s| => UpperChar(s[k]))
  }
}
