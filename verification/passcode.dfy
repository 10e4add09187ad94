/**
 * The daily admin passcode: the first eight hex digits of SHA-256(date + secret),
 * reduced modulo 10000, zero-padded to four digits and prefixed with `SPA`.
 * server.js and get-passcode.js carry the same function; both are this model.
 * SHA-256 itself is a parameter: any function that yields 64 lowercase hex digits.
 */
module Passcode {
  import opened Wrappers
  import Text

  const CodePrefix: string := "SPA"
  const FallbackSecret: string := "fallback-secret"

  /** `process.env.ADMIN_SECRET || 'fallback-secret'`: an unset or empty secret falls back. */
  function EffectiveSecret(env: Option<string>): (secret: string)
    ensures secret != ""
    ensures env.Some? && env.value != "" ==> secret == env.value
    ensures env.None? || env.value == "" ==> secret == FallbackSecret
  {
    if env.Some? && env.value != "" then env.value else FallbackSecret
  }

  /** What `digest('hex')` of SHA-256 produces. */
  predicate IsHexDigest(d: string) {
    |d| == 64 && forall i :: 0 <= i < |d| ==> '0' <= d[i] <= '9' || 'a' <= d[i] <= 'f'
  }

  /** `n.toString().padStart(4, '0')` for a residue mod 10000: four decimal digits denoting `n`. */
  function FourDigits(n: nat): (p: string)
    requires n < 10000
    ensures |p| == 4 && Text.AllDecimalDigits(p)
    ensures Text.NumberValue(p, 10) == n
  {
    var digits := Text.DecimalString(n);
    Text.DecimalStringAtMostFour(n);
    var padded := Text.PadStart(digits, 4, '0');
    assert padded == padded[..4 - |digits|] + digits;
    Text.NumberValueLeadingZeros(padded[..4 - |digits|], digits, 10);
    padded
  }

  /** The code for one digest: `SPA` and four decimal digits whose value is the digest's leading 32 bits mod 10000. */
  function CodeFromDigest(digest: string): (code: string)
    requires IsHexDigest(digest)
    ensures |code| == 7
    ensures code[..3] == CodePrefix
    ensures Text.AllDecimalDigits(code[3..])
    ensures Text.NumberValue(code[3..], 10) == Text.NumberValue(digest[..8], 16) % 10000
  {
    var head := digest[..8];
    assert forall i :: 0 <= i < |head| ==> Text.IsRadixDigit(head[i], 16);
    Text.ParseIntHex(head);
    var numericCode := Text.ParseInt(head, 16).value % 10000;
    var code := CodePrefix + FourDigits(numericCode);
    assert code[3..] == FourDigits(numericCode);
    code
  }

  /**
   * `generateDailyPasscode()` for the UTC calendar date `today` (`YYYY-MM-DD`, the
   * first part of `toISOString()`), the environment's secret and a SHA-256 hex function.
   */
  function DailyPasscode(today: string, secretEnv: Option<string>, sha256Hex: string -> string): (code: string)
    requires IsHexDigest(sha256Hex(today + EffectiveSecret(secretEnv)))
    ensures |code| == 7 && code[..3] == CodePrefix
    ensures Text.AllDecimalDigits(code[3..])
    ensures Text.NumberValue(code[3..], 10)
            == Text.NumberValue(sha256Hex(today + EffectiveSecret(secretEnv))[..8], 16) % 10000
  {
    CodeFromDigest(sha256Hex(today + EffectiveSecret(secretEnv)))
  }

  /** An unset and an empty secret both give the code of the literal fallback secret. */
  lemma UnsetSecretFallsBack(today: string, sha256Hex: string -> string)
    requires IsHexDigest(sha256Hex(today + FallbackSecret))
    ensures DailyPasscode(today, None, sha256Hex) == DailyPasscode(today, Some(FallbackSecret), sha256Hex)
    ensures DailyPasscode(today, Some(""), sha256Hex) == DailyPasscode(today, None, sha256Hex)
  {
    assert EffectiveSecret(None) == FallbackSecret;
    assert EffectiveSecret(Some(FallbackSecret)) == FallbackSecret;
    assert EffectiveSecret(Some("")) == FallbackSecret;
  }

  /**
   * Two digests give the same code exactly when their leading 32 bits agree modulo
   * 10000: the rest of the digest is ignored, and the 4-digit text loses nothing more.
   */
  lemma SameCodeIffSameResidue(d1: string, d2: string)
    requires IsHexDigest(d1) && IsHexDigest(d2)
    ensures CodeFromDigest(d1) == CodeFromDigest(d2)
            <==> Text.NumberValue(d1[..8], 16) % 10000 == Text.NumberValue(d2[..8], 16) % 10000
  {
    var h1, h2 := d1[..8], d2[..8];
    assert forall i :: 0 <= i < |h1| ==> Text.IsRadixDigit(h1[i], 16);
    assert forall i :: 0 <= i < |h2| ==> Text.IsRadixDigit(h2[i], 16);
    Text.ParseIntHex(h1);
    Text.ParseIntHex(h2);
  }
}
