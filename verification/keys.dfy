/** Keys of the hash table.

    The table's hash function reads a key as a decimal integer, so the keys it
    can hash are the strings of decimal digits, optionally preceded by a minus
    sign. This module defines that key language, the integer a key denotes,
    and the canonical spelling of an integer as a key (its inverse).
 */
module Keys {

  predicate IsDigit(c: char) {
    '0' <= c <= '9'
  }

  function DigitValue(c: char): (d: nat)
    requires IsDigit(c)
    ensures d < 10
  {
    (c as int - '0' as int) as nat
  }

  function DigitChar(d: nat): (c: char)
    requires d < 10
    ensures IsDigit(c) && DigitValue(c) == d
  {
    ('0' as int + d) as char
  }

  predicate AllDigits(s: string) {
    forall i :: 0 <= i < |s| ==> IsDigit(s[i])
  }

  /** The part of a key after an optional leading minus sign. */
  function Magnitude(s: string): string {
    if |s| > 0 && s[0] == '-' then s[1..] else s
  }

  /** A key the hash function accepts: an optional '-' followed by at least one digit. */
  predicate IsDecimalKey(s: string) {
    |Magnitude(s)| > 0 && AllDigits(Magnitude(s))
  }

  /** The value of a string of decimal digits, most significant digit first. */
  function DigitsValue(s: string): nat
    requires AllDigits(s)
  {
    if |s| == 0 then 0 else DigitsValue(s[..|s| - 1]) * 10 + DigitValue(s[|s| - 1])
  }

  /** The integer a key denotes; leading zeros are allowed and "-0" denotes 0. */
  function ParseKey(s: string): (v: int)
    requires IsDecimalKey(s)
    ensures s[0] == '-' ==> v <= 0
    ensures s[0] != '-' ==> v >= 0
  {
    if s[0] == '-' then -(DigitsValue(s[1..]) as int) else DigitsValue(s)
  }

  /** The shortest digit string denoting `n`. */
  function NatDigits(n: nat): (s: string)
    ensures |s| > 0 && AllDigits(s)
    decreases n
  {
    if n < 10 then [DigitChar(n)] else NatDigits(n / 10) + [DigitChar(n % 10)]
  }

  /** The canonical key spelling of an integer. */
  function KeyOf(n: int): (s: string)
    ensures IsDecimalKey(s)
  {
    if n < 0 then "-" + NatDigits(-n) else NatDigits(n)
  }

  lemma {:induction false} DigitsValueOfNatDigits(n: nat)
    ensures DigitsValue(NatDigits(n)) == n
    decreases n
  {
    if n >= 10 {
      var s := NatDigits(n / 10);
      var c := DigitChar(n % 10);
      assert (s + [c])[..|s + [c]| - 1] == s;
      DigitsValueOfNatDigits(n / 10);
    }
  }

  /** Every integer is hashed from its canonical spelling as itself: reading
      is a left inverse of spelling. */
  lemma ParseKeyOfKeyOf(n: int)
    ensures ParseKey(KeyOf(n)) == n
  {
    if n < 0 {
      assert KeyOf(n)[1..] == NatDigits(-n);
      DigitsValueOfNatDigits(-n);
    } else {
      DigitsValueOfNatDigits(n);
    }
  }

  lemma {:induction false} LeadingZeroAddsNothing(m: string)
    requires AllDigits(m)
    ensures AllDigits("0" + m) && DigitsValue("0" + m) == DigitsValue(m)
    decreases |m|
  {
    if |m| > 0 {
      assert ("0" + m)[..|"0" + m| - 1] == "0" + m[..|m| - 1];
      LeadingZeroAddsNothing(m[..|m| - 1]);
    }
  }

  /** A leading zero does not change the integer a key denotes. */
  lemma ParseKeyIgnoresLeadingZero(m: string)
    requires |m| > 0 && AllDigits(m)
    ensures IsDecimalKey(m) && IsDecimalKey("0" + m)
    ensures ParseKey("0" + m) == ParseKey(m)
  {
    LeadingZeroAddsNothing(m);
  }

  /** A leading minus sign negates the integer the digits denote, so "-0"
      denotes 0. */
  lemma ParseKeyOfNegated(m: string)
    requires |m| > 0 && AllDigits(m)
    ensures IsDecimalKey(m) && IsDecimalKey("-" + m)
    ensures ParseKey("-" + m) == -ParseKey(m)
  {
    assert ("-" + m)[1..] == m;
  }

  /** No key the hash function accepts is the empty string that marks a free bucket. */
  lemma DecimalKeyIsNotSentinel(s: string)
    requires IsDecimalKey(s)
    ensures s != ""
  {
  }
}
