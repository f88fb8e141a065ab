/** The identifier generators, as functions of their random draws: the draws are
    what `random.choices` / `random.randint(0, 9)` returned. */
module Identifiers {

  import opened Validation

  /** One draw of a decimal digit. */
  type Digit = d: int | 0 <= d < 10

  /** One draw of an uppercase letter, as its position in `A`..`Z`. */
  type Letter = l: int | 0 <= l < 26

  function DigitChar(d: Digit): char {
    ('0' as int + d) as char
  }

  function LetterChar(l: Letter): char {
    ('A' as int + l) as char
  }

  predicate IsUpperLetter(c: char) {
    'A' <= c <= 'Z'
  }

  /** The digits joined into a string; each character decodes back to its draw. */
  function DigitString(ds: seq<Digit>): (r: string)
    ensures |r| == |ds|
    ensures forall k :: 0 <= k < |r| ==> IsDigitChar(r[k]) && r[k] as int - '0' as int == ds[k]
  {
    if ds == [] then [] else DigitString(ds[..|ds| - 1]) + [DigitChar(ds[|ds| - 1])]
  }

  /** The letters joined into a string; each character decodes back to its draw. */
  function LetterString(ls: seq<Letter>): (r: string)
    ensures |r| == |ls|
    ensures forall k :: 0 <= k < |r| ==> IsUpperLetter(r[k]) && r[k] as int - 'A' as int == ls[k]
  {
    if ls == [] then [] else LetterString(ls[..|ls| - 1]) + [LetterChar(ls[|ls| - 1])]
  }

  function DigitOf(c: char): Digit
    requires IsDigitChar(c)
  {
    c as int - '0' as int
  }

  function LetterOf(c: char): Letter
    requires IsUpperLetter(c)
  {
    c as int - 'A' as int
  }

  /** Decoding a string of digits back into draws. */
  function DigitsOf(s: string): (ds: seq<Digit>)
    requires forall k :: 0 <= k < |s| ==> IsDigitChar(s[k])
    ensures |ds| == |s|
    ensures forall k :: 0 <= k < |s| ==> ds[k] == s[k] as int - '0' as int
  {
    if s == [] then [] else DigitsOf(s[..|s| - 1]) + [DigitOf(s[|s| - 1])]
  }

  function LettersOf(s: string): (ls: seq<Letter>)
    requires forall k :: 0 <= k < |s| ==> IsUpperLetter(s[k])
    ensures |ls| == |s|
    ensures forall k :: 0 <= k < |s| ==> ls[k] == s[k] as int - 'A' as int
  {
    if s == [] then [] else LettersOf(s[..|s| - 1]) + [LetterOf(s[|s| - 1])]
  }

  /** Four uppercase letters followed by six digits. */
  predicate IsAccountNumber(r: string) {
    && |r| == 10
    && (forall k :: 0 <= k < 4 ==> IsUpperLetter(r[k]))
    && (forall k :: 4 <= k < 10 ==> IsDigitChar(r[k]))
  }

  /** `LN` followed by eight digits. */
  predicate IsLoanId(r: string) {
    |r| == 10 && r[..2] == "LN" && IsDigits(r[2..])
  }

  function AccountNumber(letters: seq<Letter>, digits: seq<Digit>): (r: string)
    requires |letters| == 4 && |digits| == 6
    ensures IsAccountNumber(r)
  {
    LetterString(letters) + DigitString(digits)
  }

  function CardNumber(ds: seq<Digit>): (r: string)
    requires |ds| == 16
    ensures |r| == 16 && IsDigits(r)
  {
    DigitString(ds)
  }

  function Cvv(ds: seq<Digit>): (r: string)
    requires |ds| == 3
    ensures |r| == 3 && IsDigits(r)
  {
    DigitString(ds)
  }

  function Otp(ds: seq<Digit>): (r: string)
    requires |ds| == 6
    ensures |r| == 6 && IsDigits(r)
  {
    DigitString(ds)
  }

  function LoanId(ds: seq<Digit>): (r: string)
    requires |ds| == 8
    ensures IsLoanId(r)
  {
    var r := "LN" + DigitString(ds);
    assert r[2..] == DigitString(ds);
    r
  }

  /** Decoding a generated digit string gives back its draws. */
  lemma DigitStringRoundTrip(ds: seq<Digit>)
    ensures DigitsOf(DigitString(ds)) == ds
  {
  }

  /** Every digit string is generated by the draws it decodes to. */
  lemma DigitsOfRoundTrip(s: string)
    requires forall k :: 0 <= k < |s| ==> IsDigitChar(s[k])
    ensures DigitString(DigitsOf(s)) == s
  {
  }

  /** Distinct draws give distinct account numbers, and every number of the format
      can be drawn: the generator is a bijection onto the format. */
  lemma {:induction false} AccountNumberBijective(letters: seq<Letter>, digits: seq<Digit>, r: string)
    requires |letters| == 4 && |digits| == 6
    requires IsAccountNumber(r)
    ensures AccountNumber(LettersOf(r[..4]), DigitsOf(r[4..])) == r
    ensures LettersOf(AccountNumber(letters, digits)[..4]) == letters
    ensures DigitsOf(AccountNumber(letters, digits)[4..]) == digits
  {
    var a := AccountNumber(letters, digits);
    assert a[..4] == LetterString(letters);
    assert a[4..] == DigitString(digits);
    var ls, ds := LettersOf(r[..4]), DigitsOf(r[4..]);
    assert LetterString(ls) == r[..4];
    assert DigitString(ds) == r[4..];
    assert r[..4] + r[4..] == r;
  }

  /** The same for loan ids: the eight digits after `LN` are exactly the draws. */
  lemma LoanIdDecodes(ds: seq<Digit>)
    requires |ds| == 8
    ensures DigitsOf(LoanId(ds)[2..]) == ds
  {
    assert LoanId(ds)[2..] == DigitString(ds);
  }
}
