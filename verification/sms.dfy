/** Phone numbers for text messages: the canonical `+1XXXXXXXXXX` form and the matching validity test. */
module Sms {
  import Text
  import Seqs

  /** `phoneNumber.replace(/\D/g, '')`: every ASCII digit of `s`, in order. */
  function Digits(s: string): (d: string)
    ensures Text.AllDecimalDigits(d)
    ensures forall i :: 0 <= i < |s| && Text.IsDecimalDigit(s[i]) ==> s[i] in d
    ensures |d| == Seqs.Count(s, Text.IsDecimalDigit)
    ensures Seqs.Subsequence(d, s)
    ensures Text.AllDecimalDigits(s) ==> d == s
  {
    Seqs.Filter(s, Text.IsDecimalDigit)
  }

  /** Digit extraction works piecewise over any split of the text. */
  lemma DigitsAppend(a: string, b: string)
    ensures Digits(a + b) == Digits(a) + Digits(b)
  {
    Seqs.FilterAppend(a, b, Text.IsDecimalDigit);
  }

  /** Ten digits, or eleven starting with the country code 1. */
  predicate ValidDigits(d: string) {
    |d| == 10 || (|d| == 11 && Text.StartsWith(d, "1"))
  }

  function ValidatePhoneNumber(phoneNumber: string): (ok: bool)
    ensures ok <==> ValidDigits(Digits(phoneNumber))
  {
    var cleaned := Digits(phoneNumber);
    |cleaned| == 10 || (|cleaned| == 11 && Text.StartsWith(cleaned, "1"))
  }

  /** Ten digits get `+1` in front, eleven starting with 1 get `+`; anything else is returned as given. */
  function FormatPhoneNumber(phoneNumber: string): (r: string)
    ensures var d := Digits(phoneNumber);
            && (|d| == 10 ==> r == "+1" + d)
            && (|d| == 11 && d[0] == '1' ==> r == "+" + d)
            && (!ValidDigits(d) ==> r == phoneNumber)
  {
    var cleaned := Digits(phoneNumber);
    if |cleaned| == 10 then "+1" + cleaned
    else if |cleaned| == 11 && Text.StartsWith(cleaned, "1") then "+" + cleaned
    else phoneNumber
  }

  /** A valid number formats to `+1` and ten more digits; an invalid one comes back unchanged. */
  lemma FormattedShape(phoneNumber: string)
    ensures var r := FormatPhoneNumber(phoneNumber);
            if ValidatePhoneNumber(phoneNumber) then
              |r| == 12 && r[..2] == "+1" && Text.AllDecimalDigits(r[1..])
            else r == phoneNumber
  {
    var d := Digits(phoneNumber);
    var r := FormatPhoneNumber(phoneNumber);
    if |d| == 10 {
      assert r[1..] == "1" + d;
    } else if ValidDigits(d) {
      assert r[1..] == d;
    }
  }

  /** Formatting a valid number again changes nothing, and the result is still valid. */
  lemma FormatIdempotent(phoneNumber: string)
    requires ValidatePhoneNumber(phoneNumber)
    ensures ValidatePhoneNumber(FormatPhoneNumber(phoneNumber))
    ensures FormatPhoneNumber(FormatPhoneNumber(phoneNumber)) == FormatPhoneNumber(phoneNumber)
  {
    var d := Digits(phoneNumber);
    var r := FormatPhoneNumber(phoneNumber);
    var tail := r[1..];
    assert r == "+" + tail;
    assert Digits("+") == "";
    DigitsAppend("+", tail);
    assert Digits(r) == tail;
  }

  /** A number is valid exactly when its formatted form is. */
  lemma FormatPreservesValidity(phoneNumber: string)
    ensures ValidatePhoneNumber(phoneNumber) <==> ValidatePhoneNumber(FormatPhoneNumber(phoneNumber))
  {
    if ValidatePhoneNumber(phoneNumber) {
      FormatIdempotent(phoneNumber);
    }
  }

  /** Formatting keeps the digits the number carried, apart from an added country code. */
  lemma FormatKeepsDigits(phoneNumber: string)
    requires ValidatePhoneNumber(phoneNumber)
    ensures var d := Digits(phoneNumber);
            var r := FormatPhoneNumber(phoneNumber);
            r[|r| - 10..] == d[|d| - 10..]
  {
  }
}
