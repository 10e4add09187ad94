/**
 * The JavaScript string operations the website relies on, over `seq<char>`
 * (UTF-16 code units in JavaScript, one `char` each here): whitespace
 * trimming, case mapping, substring search, `Number.prototype.toString`,
 * `String.prototype.padStart` and the global `parseInt`.
 */
module Text {
  import opened Wrappers

  // ---------------------------------------------------------------------
  // Digits and positional values
  // ---------------------------------------------------------------------

  predicate IsDecimalDigit(c: char) {
    '0' <= c <= '9'
  }

  predicate AllDecimalDigits(s: string) {
    forall i :: 0 <= i < |s| ==> IsDecimalDigit(s[i])
  }

  /** The value `parseInt` gives an alphanumeric character (36 for anything else). */
  function DigitValue(c: char): (v: nat)
    ensures v <= 36
    ensures IsDecimalDigit(c) ==> v < 10
    ensures v < 10 ==> IsDecimalDigit(c)
  {
    if '0' <= c <= '9' then c as int - '0' as int
    else if 'a' <= c <= 'z' then c as int - 'a' as int + 10
    else if 'A' <= c <= 'Z' then c as int - 'A' as int + 10
    else 36
  }

  predicate IsRadixDigit(c: char, radix: nat) {
    DigitValue(c) < radix
  }

  /** The number a string of digits denotes in `radix`, most significant digit first. */
  function NumberValue(s: string, radix: nat): nat {
    if |s| == 0 then 0 else NumberValue(s[..|s| - 1], radix) * radix + DigitValue(s[|s| - 1])
  }

  lemma NumberValueAppend(a: string, c: char, radix: nat)
    ensures NumberValue(a + [c], radix) == NumberValue(a, radix) * radix + DigitValue(c)
  {
    assert (a + [c])[..|a|] == a;
  }

  /** Leading zeros do not change the value of a digit string. */
  lemma {:induction false} NumberValueLeadingZeros(zeros: string, s: string, radix: nat)
    requires forall i :: 0 <= i < |zeros| ==> zeros[i] == '0'
    ensures NumberValue(zeros + s, radix) == NumberValue(s, radix)
  {
    if |s| == 0 {
      assert zeros + s == zeros;
      AllZerosValue(zeros, radix);
    } else {
      var init := s[..|s| - 1];
      var last := s[|s| - 1];
      assert zeros + s == (zeros + init) + [last];
      assert s == init + [last];
      NumberValueAppend(zeros + init, last, radix);
      NumberValueAppend(init, last, radix);
      NumberValueLeadingZeros(zeros, init, radix);
    }
  }

  lemma {:induction false} AllZerosValue(zeros: string, radix: nat)
    requires forall i :: 0 <= i < |zeros| ==> zeros[i] == '0'
    ensures NumberValue(zeros, radix) == 0
  {
    if |zeros| > 0 {
      AllZerosValue(zeros[..|zeros| - 1], radix);
    }
  }

  /** The longest prefix of `s` made of digits of `radix`. */
  function RadixPrefix(s: string, radix: nat): (p: string)
    ensures |p| <= |s| && p == s[..|p|]
    ensures forall i :: 0 <= i < |p| ==> IsRadixDigit(p[i], radix)
    ensures |p| < |s| ==> !IsRadixDigit(s[|p|], radix)
  {
    if |s| > 0 && IsRadixDigit(s[0], radix) then [s[0]] + RadixPrefix(s[1..], radix) else []
  }

  // ---------------------------------------------------------------------
  // Number.prototype.toString and String.prototype.padStart
  // ---------------------------------------------------------------------

  function DecimalDigit(d: nat): char
    requires d < 10
  {
    ('0' as int + d) as char
  }

  /** The decimal text JavaScript prints for a non-negative integer. */
  function DecimalString(n: nat): (s: string)
    ensures 1 <= |s|
    ensures AllDecimalDigits(s)
    ensures NumberValue(s, 10) == n
    ensures |s| == 1 || s[0] != '0'
  {
    if n < 10 then [DecimalDigit(n)]
    else
      var init := DecimalString(n / 10);
      NumberValueAppend(init, DecimalDigit(n % 10), 10);
      init + [DecimalDigit(n % 10)]
  }

  lemma DecimalStringAtMostFour(n: nat)
    requires n < 10000
    ensures |DecimalString(n)| <= 4
  {
    if n >= 10 {
      assert |DecimalString(n)| == |DecimalString(n / 10)| + 1;
      if n / 10 >= 10 {
        assert |DecimalString(n / 10)| == |DecimalString(n / 100)| + 1;
        if n / 100 >= 10 {
          assert |DecimalString(n / 100)| == |DecimalString(n / 1000)| + 1;
        }
      }
    }
  }

  /** `s.padStart(len, fill)` with a one-character filler. */
  function PadStart(s: string, len: nat, fill: char): (r: string)
    ensures |r| == if |s| >= len then |s| else len
    ensures r[|r| - |s|..] == s
    ensures forall i :: 0 <= i < |r| - |s| ==> r[i] == fill
  {
    if |s| >= len then s else seq(len - |s|, _ => fill) + s
  }

  // ---------------------------------------------------------------------
  // Whitespace and String.prototype.trim
  // ---------------------------------------------------------------------

  /** ECMAScript WhiteSpace and LineTerminator code points. */
  predicate IsJsWhitespace(c: char) {
    || ('\t' <= c <= '\r')                      // TAB, LF, VT, FF, CR
    || c == ' ' || c == '\U{00A0}' || c == '\U{1680}'
    || ('\U{2000}' <= c <= '\U{200A}')
    || c == '\U{2028}' || c == '\U{2029}' || c == '\U{202F}'
    || c == '\U{205F}' || c == '\U{3000}' || c == '\U{FEFF}'
  }

  predicate AllWhitespace(s: string) {
    forall i :: 0 <= i < |s| ==> IsJsWhitespace(s[i])
  }

  function TrimStart(s: string): (r: string)
    ensures |r| <= |s| && r == s[|s| - |r|..]
    ensures forall i :: 0 <= i < |s| - |r| ==> IsJsWhitespace(s[i])
    ensures |r| > 0 ==> !IsJsWhitespace(r[0])
  {
    if |s| > 0 && IsJsWhitespace(s[0]) then TrimStart(s[1..]) else s
  }

  function TrimEnd(s: string): (r: string)
    ensures |r| <= |s| && r == s[..|r|]
    ensures forall i :: |r| <= i < |s| ==> IsJsWhitespace(s[i])
    ensures |r| > 0 ==> !IsJsWhitespace(r[|r| - 1])
  {
    if |s| > 0 && IsJsWhitespace(s[|s| - 1]) then TrimEnd(s[..|s| - 1]) else s
  }

  /** `r` is `s` with surrounding whitespace removed, `r` starting at index `i` of `s`. */
  predicate TrimmedAt(s: string, r: string, i: int) {
    && 0 <= i && i + |r| <= |s|
    && s[i..i + |r|] == r
    && AllWhitespace(s[..i])
    && AllWhitespace(s[i + |r|..])
    && (|r| > 0 ==> !IsJsWhitespace(r[0]) && !IsJsWhitespace(r[|r| - 1]))
  }

  /** `s.trim()`. */
  function Trim(s: string): (r: string)
    ensures exists i :: TrimmedAt(s, r, i)
  {
    var front := TrimStart(s);
    var r := TrimEnd(front);
    var i := |s| - |front|;
    assert s[i + |r|..] == front[|r|..];
    assert s[i..i + |r|] == r;
    assert TrimmedAt(s, r, i);
    r
  }

  /** Trimming twice is trimming once. */
  lemma TrimIdempotent(s: string)
    ensures Trim(Trim(s)) == Trim(s)
  {
    var r := Trim(s);
    var i :| TrimmedAt(s, r, i);
    assert TrimStart(r) == r;
    assert TrimEnd(r) == r;
  }

  // ---------------------------------------------------------------------
  // Case mapping (toLowerCase / toUpperCase)
  // ---------------------------------------------------------------------

  /** `toLowerCase` on one code unit: ASCII letters, and KELVIN SIGN which lower-cases to ASCII `k`. */
  function LowerChar(c: char): char {
    if 'A' <= c <= 'Z' then (c as int + 32) as char
    else if c == '\U{212A}' then 'k'
    else c
  }

  /** `toUpperCase` on one code unit: ASCII letters, and LATIN SMALL LETTER LONG S / DOTLESS I,
      which upper-case to ASCII `S` / `I`. */
  function UpperChar(c: char): char {
    if 'a' <= c <= 'z' then (c as int - 32) as char
    else if c == '\U{017F}' then 'S'
    else if c == '\U{0131}' then 'I'
    else c
  }

  function ToLower(s: string): (r: string)
    ensures |r| == |s|
    ensures forall i :: 0 <= i < |s| ==> r[i] == LowerChar(s[i])
  {
    seq(|s|, i requires 0 <= i < |s| => LowerChar(s[i]))
  }

  function ToUpper(s: string): (r: string)
    ensures |r| == |s|
    ensures forall i :: 0 <= i < |s| ==> r[i] == UpperChar(s[i])
  {
    seq(|s|, i requires 0 <= i < |s| => UpperChar(s[i]))
  }

  // ---------------------------------------------------------------------
  // Substring search (String.prototype.includes / startsWith)
  // ---------------------------------------------------------------------

  predicate StartsWith(s: string, prefix: string) {
    |prefix| <= |s| && s[..|prefix|] == prefix
  }

  predicate OccursAt(s: string, t: string, i: int) {
    0 <= i && i + |t| <= |s| && s[i..i + |t|] == t
  }

  /** `s.includes(t)`; the empty string occurs in every string. */
  predicate Contains(s: string, t: string) {
    exists i | 0 <= i <= |s| - |t| :: OccursAt(s, t, i)
  }

  // ---------------------------------------------------------------------
  // The global parseInt(string, radix)
  // ---------------------------------------------------------------------

  /**
   * `parseInt(input, radix)`, with `radix == 0` for an absent radix. Leading
   * whitespace and one sign are skipped; radix 0 or 16 also skips a `0x`/`0X`
   * prefix; the longest run of digits that follows is read; no digit gives
   * `NaN`, here `None`.
   */
  function ParseInt(input: string, radix: int): Option<int> {
    if radix != 0 && (radix < 2 || radix > 36) then None
    else ParseSigned(TrimStart(input), radix)
  }

  /** parseInt after the leading whitespace: one optional sign, then the magnitude. */
  function ParseSigned(s: string, radix: int): Option<int>
    requires radix == 0 || 2 <= radix <= 36
  {
    var negative := |s| > 0 && s[0] == '-';
    var unsigned := if |s| > 0 && (s[0] == '-' || s[0] == '+') then s[1..] else s;
    match ParseMagnitude(unsigned, radix)
    case None => None
    case Some(m) => Some(if negative then -m else m)
  }

  /** The unsigned part of parseInt: optional `0x` prefix, then the longest run of digits. */
  function ParseMagnitude(unsigned: string, radix: int): (r: Option<int>)
    requires radix == 0 || 2 <= radix <= 36
    ensures r.Some? ==> r.value >= 0
  {
    var hexPrefix := (radix == 0 || radix == 16) && |unsigned| >= 2 && unsigned[0] == '0'
                     && (unsigned[1] == 'x' || unsigned[1] == 'X');
    var base: nat := if hexPrefix then 16 else if radix == 0 then 10 else radix;
    var body := if hexPrefix then unsigned[2..] else unsigned;
    var digits := RadixPrefix(body, base);
    if digits == [] then None else Some(NumberValue(digits, base))
  }

  /** A letter or digit is neither whitespace nor a sign. */
  lemma AlphanumericIsPlain(c: char)
    requires DigitValue(c) < 36
    ensures !IsJsWhitespace(c) && c != '-' && c != '+'
  {
  }

  /** A string that starts with a digit is left alone by the whitespace and sign steps of parseInt. */
  lemma ParseIntOfDigitString(s: string, radix: int)
    requires |s| > 0 && DigitValue(s[0]) < 36
    requires radix == 0 || 2 <= radix <= 36
    ensures ParseInt(s, radix) == ParseMagnitude(s, radix)
  {
    AlphanumericIsPlain(s[0]);
    assert TrimStart(s) == s;
    assert ParseInt(s, radix) == ParseSigned(s, radix);
  }

  /** parseInt reads back the decimal text of a non-negative integer. */
  lemma ParseIntDecimal(n: nat)
    ensures ParseInt(DecimalString(n), 0) == Some(n)
  {
    var s := DecimalString(n);
    ParseIntOfDigitString(s, 0);
    assert |s| >= 2 ==> IsDecimalDigit(s[1]);
    RadixPrefixAll(s, 10);
  }

  /** With an explicit radix, a run of digits of that radix is read completely. */
  lemma ParseMagnitudeOfDigits(s: string, radix: int)
    requires 2 <= radix <= 36 && |s| >= 1
    requires forall i :: 0 <= i < |s| ==> IsRadixDigit(s[i], radix)
    ensures ParseMagnitude(s, radix) == Some(NumberValue(s, radix))
  {
    if radix == 16 && |s| >= 2 {
      assert IsRadixDigit(s[1], 16);
      assert s[1] != 'x' && s[1] != 'X';
    }
    RadixPrefixAll(s, radix);
  }

  /** parseInt with radix 16 reads a run of hexadecimal digits completely. */
  lemma ParseIntHex(s: string)
    requires |s| >= 1
    requires forall i :: 0 <= i < |s| ==> IsRadixDigit(s[i], 16)
    ensures ParseInt(s, 16) == Some(NumberValue(s, 16))
  {
    ParseIntOfDigitString(s, 16);
    ParseMagnitudeOfDigits(s, 16);
  }

  lemma {:induction false} RadixPrefixAll(s: string, radix: nat)
    requires forall i :: 0 <= i < |s| ==> IsRadixDigit(s[i], radix)
    ensures RadixPrefix(s, radix) == s
  {
    if |s| > 0 {
      RadixPrefixAll(s[1..], radix);
    }
  }
}
