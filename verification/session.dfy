/**
 * Admin authentication: the daily-passcode login, the JWT payload it issues,
 * and the token check every admin route and the visit gate use. Signing and
 * signature verification are foreign: `decode` stands for `jwt.verify`'s
 * signature check and payload parsing, and the expiry check it then applies
 * is modelled here.
 */
module Session {
  import opened Wrappers
  import opened Json
  import Text
  import Passcode

  /** Tokens expire 30 minutes after issue. */
  const TokenLifetimeSeconds: int := 30 * 60

  /** The JWT claims the server reads or writes. Claims absent from a token are `None`. */
  datatype Payload = Payload(isAdmin: Option<bool>, loginTime: Option<string>, exp: Option<int>)

  /** generateJWT's payload at `now`: `exp` is the issue time in whole seconds plus 1800. */
  function IssuePayload(now: Instant): (p: Payload)
    ensures p.isAdmin == Some(true) && p.loginTime == Some(now.iso)
    ensures p.exp.Some?
    ensures p.exp.value * 1000 <= now.ms + TokenLifetimeSeconds * 1000 < p.exp.value * 1000 + 1000
  {
    Payload(Some(true), Some(now.iso), Some(now.ms / 1000 + TokenLifetimeSeconds))
  }

  /** jsonwebtoken rejects a token once the clock, in whole seconds, has reached `exp`. */
  predicate Expired(p: Payload, nowMs: int) {
    p.exp.Some? && nowMs / 1000 >= p.exp.value
  }

  /** `verifyJWT(token)`: the decoded payload, or `None` (null) for a bad signature or an expired token. */
  function VerifyJwt(token: string, nowMs: int, decode: string -> Option<Payload>): (r: Option<Payload>)
    ensures r.Some? ==> decode(token) == r
    ensures r.Some? <==> decode(token).Some? && !Expired(decode(token).value, nowMs)
  {
    match decode(token)
    case None => None
    case Some(p) => if Expired(p, nowMs) then None else Some(p)
  }

  /** `isValidAdminToken(req)` for the request's `adminToken` cookie. */
  function IsValidAdminToken(cookie: Option<string>, nowMs: int, decode: string -> Option<Payload>): (valid: bool)
    ensures valid <==> cookie.Some? && cookie.value != "" && decode(cookie.value).Some?
                       && decode(cookie.value).value.isAdmin == Some(true)
                       && !Expired(decode(cookie.value).value, nowMs)
  {
    if cookie.None? || cookie.value == "" then false
    else
      match VerifyJwt(cookie.value, nowMs, decode)
      case None => false
      case Some(p) => p.isAdmin == Some(true)
  }

  /**
   * A token issued at `issued` (and signed so that `decode` gives back its payload)
   * is accepted for every check before `exp`, in particular for the first 1799
   * seconds, and refused from 30 minutes after issue on.
   */
  lemma TokenLifetime(issued: Instant, nowMs: int, token: string, decode: string -> Option<Payload>)
    requires token != "" && decode(token) == Some(IssuePayload(issued))
    ensures IsValidAdminToken(Some(token), nowMs, decode) <==> nowMs / 1000 < issued.ms / 1000 + TokenLifetimeSeconds
    ensures issued.ms <= nowMs && nowMs + 1000 <= issued.ms + TokenLifetimeSeconds * 1000
            ==> IsValidAdminToken(Some(token), nowMs, decode)
    ensures nowMs >= issued.ms + TokenLifetimeSeconds * 1000 ==> !IsValidAdminToken(Some(token), nowMs, decode)
  {
  }

  /** The reply of `POST /admin/login`. */
  datatype LoginOutcome =
    | Granted(payload: Payload)   // a token with this payload is set as the `adminToken` cookie
    | Denied                      // "Invalid passcode"
    | Crashed                     // `toUpperCase` called on a non-string: Express answers 500

  /** `POST /admin/login` with body field `passcode`, against today's code. */
  function Login(passcode: Option<JsonValue>, dailyCode: string, now: Instant): (r: LoginOutcome)
    ensures r.Granted? <==> Truthy(passcode) && passcode.value.JStr? && Text.ToUpper(passcode.value.s) == dailyCode
    ensures r.Granted? ==> r.payload == IssuePayload(now)
    ensures r.Crashed? <==> Truthy(passcode) && !passcode.value.JStr?
  {
    if !Truthy(passcode) then Denied
    else if !passcode.value.JStr? then Crashed
    else if Text.ToUpper(passcode.value.s) != dailyCode then Denied
    else Granted(IssuePayload(now))
  }

  /** The daily code typed in lower case is accepted. */
  lemma LowerCaseCodeAccepted(code: string, now: Instant)
    requires |code| == 7 && code[..3] == Passcode.CodePrefix && Text.AllDecimalDigits(code[3..])
    ensures Login(Some(JStr(Text.ToLower(code))), code, now).Granted?
  {
    var lower := Text.ToLower(code);
    forall i | 3 <= i < 7
      ensures Text.IsDecimalDigit(code[i])
    {
      assert code[i] == code[3..][i - 3];
    }
    assert Text.ToUpper(lower) == code;
  }

  /** Only a passcode of the daily code's length can be accepted, and the issued token then opens the admin routes. */
  lemma GrantedLoginOpensAdmin(passcode: Option<JsonValue>, dailyCode: string, now: Instant,
                               token: string, decode: string -> Option<Payload>)
    requires Login(passcode, dailyCode, now).Granted?
    requires token != "" && decode(token) == Some(Login(passcode, dailyCode, now).payload)
    ensures |passcode.value.s| == |dailyCode|
    ensures IsValidAdminToken(Some(token), now.ms, decode)
  {
    TokenLifetime(now, now.ms, token, decode);
  }
}
