/**
 * The visit-notification gate that runs before every route: a chain of skip
 * filters, then a per-IP debounce over the "last notified" map. Sending the
 * e-mail is fire-and-forget and not modelled; `Notify` is the decision to send.
 */
module VisitGate {
  import opened Wrappers
  import opened Json
  import Text
  import Session

  const LocalhostIPs: seq<string> := ["127.0.0.1", "::1"]
  const DefaultExcludedPaths: seq<string> :=
    ["/track-page-view", "/analytics-data", "/favicon.ico", "/robots.txt", "/sitemap.xml"]
  const BotUserAgents: seq<string> :=
    ["bot", "crawler", "spider", "scraper", "facebook", "twitter", "google", "bing", "yahoo"]
  const DefaultRateLimitMinutes: int := 60
  const MsPerMinute: int := 60 * 1000
  /** A visitor not notified about for a day counts as new. */
  const NewVisitorMinutes: int := 24 * 60

  /** `visitNotificationSettings`. `excludeIPs` holds whatever array the admin last sent, after the two localhost entries. */
  datatype Settings = Settings(
    enabled: bool,
    notifyEmail: Option<string>,
    excludeIPs: seq<JsonValue>,
    excludePaths: seq<string>,
    botUserAgents: seq<string>,
    rateLimit: map<string, int>,   // client IP -> time of the last notification (ms)
    rateLimitMinutes: int)

  /** The settings at start-up; the notify address is `BUSINESS_EMAIL || EMAIL_USER`. */
  function InitialSettings(businessEmail: Option<string>, emailUser: Option<string>): (s: Settings)
    ensures s.enabled && s.rateLimit == map[] && LocalhostExcluded(s)
    ensures s.rateLimitMinutes == DefaultRateLimitMinutes
  {
    var notify := if businessEmail.Some? && businessEmail.value != "" then businessEmail else emailUser;
    Settings(true, notify, [JStr(LocalhostIPs[0]), JStr(LocalhostIPs[1])], DefaultExcludedPaths,
             BotUserAgents, map[], DefaultRateLimitMinutes)
  }

  /** Both localhost addresses are excluded. */
  predicate LocalhostExcluded(s: Settings) {
    JStr(LocalhostIPs[0]) in s.excludeIPs && JStr(LocalhostIPs[1]) in s.excludeIPs
  }

  /** The request facts the gate reads. */
  datatype Request = Request(
    ip: string,                  // getClientIP(req)
    userAgent: Option<string>,   // the User-Agent header, if sent
    path: string,
    verb: string,                // the HTTP method
    adminToken: Option<string>)  // the adminToken cookie, if sent

  /** `isBot(userAgent)`: an empty agent, or one whose lower-cased text contains a listed word. */
  predicate IsBot(userAgent: string, bots: seq<string>) {
    || userAgent == ""
    || exists i | 0 <= i < |bots| :: Text.Contains(Text.ToLower(userAgent), bots[i])
  }

  datatype SkipReason = Disabled | ExcludedPath | ExcludedIP | AdminVisitor | BotVisitor | NotGet | TooSoon

  datatype Outcome = Skipped(reason: SkipReason) | Notify(isNewVisitor: bool)

  datatype GateStep = GateStep(outcome: Outcome, settings: Settings)

  /** `rateLimit[clientIP] || 0` for an IP that is an ordinary key; `GateAsWritten` covers the inherited names. */
  function LastNotified(s: Settings, ip: string): int {
    if ip in s.rateLimit then s.rateLimit[ip] else 0
  }

  predicate PathExcluded(s: Settings, path: string) {
    exists i | 0 <= i < |s.excludePaths| :: Text.Contains(path, s.excludePaths[i])
  }

  /** The first skip filter that applies, in the order the middleware tests them. */
  function FirstSkip(s: Settings, req: Request, nowMs: int, decode: string -> Option<Session.Payload>): Option<SkipReason> {
    if !s.enabled then Some(Disabled)
    else if PathExcluded(s, req.path) then Some(ExcludedPath)
    else if JStr(req.ip) in s.excludeIPs then Some(ExcludedIP)
    else if Session.IsValidAdminToken(req.adminToken, nowMs, decode) then Some(AdminVisitor)
    else if IsBot(req.userAgent.GetOr(""), s.botUserAgents) then Some(BotVisitor)
    else if req.verb != "GET" then Some(NotGet)
    else None
  }

  /**
   * `visitNotificationMiddleware` at clock `nowMs`, as intended: every client IP
   * is an ordinary key of the map (see `GateAsWritten`). The source compares
   * `(now - last) / 60000 < rateLimitMinutes` in floating point; over integers
   * that is `now - last < rateLimitMinutes * 60000`.
   */
  function Gate(s: Settings, req: Request, nowMs: int, decode: string -> Option<Session.Payload>): (r: GateStep)
    ensures !s.enabled ==> r == GateStep(Skipped(Disabled), s)
    ensures PathExcluded(s, req.path) ==> r.outcome.Skipped? && r.settings == s
    ensures JStr(req.ip) in s.excludeIPs ==> r.outcome.Skipped? && r.settings == s
    ensures Session.IsValidAdminToken(req.adminToken, nowMs, decode) ==> r.outcome.Skipped? && r.settings == s
    ensures IsBot(req.userAgent.GetOr(""), s.botUserAgents) ==> r.outcome.Skipped? && r.settings == s
    ensures req.verb != "GET" ==> r.outcome.Skipped? && r.settings == s
    ensures FirstSkip(s, req, nowMs, decode).None? ==>
              (r.outcome.Notify? <==> nowMs - LastNotified(s, req.ip) >= s.rateLimitMinutes * MsPerMinute)
    ensures r.outcome.Skipped? ==> r.settings == s
    ensures r.outcome.Notify? ==>
              && r.settings == s.(rateLimit := s.rateLimit[req.ip := nowMs])
              && (r.outcome.isNewVisitor <==> nowMs - LastNotified(s, req.ip) > NewVisitorMinutes * MsPerMinute)
  {
    match FirstSkip(s, req, nowMs, decode)
    case Some(reason) => GateStep(Skipped(reason), s)
    case None =>
      var elapsed := nowMs - LastNotified(s, req.ip);
      if elapsed < s.rateLimitMinutes * MsPerMinute then GateStep(Skipped(TooSoon), s)
      else
        GateStep(Notify(elapsed > NewVisitorMinutes * MsPerMinute),
                 s.(rateLimit := s.rateLimit[req.ip := nowMs]))
  }

  /**
   * One notification per window and IP: after a notification at `t1`, a request
   * from the same IP before the window closes is suppressed without touching the
   * map, and the first one after it is notified again.
   */
  lemma OneNotificationPerWindow(s: Settings, req: Request, t1: int, t2: int, t3: int,
                                 decode: string -> Option<Session.Payload>)
    requires req.adminToken.None? || t1 <= t2
    requires Gate(s, req, t1, decode).outcome.Notify?
    requires t2 - t1 < s.rateLimitMinutes * MsPerMinute <= t3 - t1
    ensures Gate(Gate(s, req, t1, decode).settings, req, t2, decode)
            == GateStep(Skipped(TooSoon), Gate(s, req, t1, decode).settings)
    ensures Gate(Gate(s, req, t1, decode).settings, req, t3, decode).outcome.Notify?
  {
    var s1 := Gate(s, req, t1, decode).settings;
    assert FirstSkip(s, req, t1, decode).None?;
    if req.adminToken.Some? {
      AdminTokenStaysInvalid(req.adminToken, t1, t2, decode);
      AdminTokenStaysInvalid(req.adminToken, t1, t3, decode);
    }
    assert FirstSkip(s1, req, t2, decode).None?;
    assert FirstSkip(s1, req, t3, decode).None?;
    assert LastNotified(s1, req.ip) == t1;
  }

  /**
   * Whether `rateLimit[ip]` on the plain object reads a member every object
   * inherits instead of a recorded time. An own entry hides an inherited name,
   * except `__proto__`, which no assignment can make an own entry.
   */
  predicate ReadsInherited(s: Settings, ip: string) {
    ip == "__proto__" || (ip in ObjectPrototypeMembers && ip !in s.rateLimit)
  }

  /**
   * The middleware as server.js writes it, on a plain object. An inherited member
   * is truthy, so `now - last` is NaN: `NaN < rateLimitMinutes` fails and the visit
   * is notified, and `NaN > 24 * 60` fails, so it never counts as new. The
   * assignment makes an own entry, except for `__proto__`, whose setter ignores a
   * number.
   */
  function GateAsWritten(s: Settings, req: Request, nowMs: int, decode: string -> Option<Session.Payload>): (r: GateStep)
    ensures FirstSkip(s, req, nowMs, decode).Some? || !ReadsInherited(s, req.ip) ==> r == Gate(s, req, nowMs, decode)
    ensures FirstSkip(s, req, nowMs, decode).None? && ReadsInherited(s, req.ip) ==> r.outcome == Notify(false)
    ensures req.ip == "__proto__" ==> r.settings == s
    ensures req.ip != "__proto__" && r.outcome.Notify? ==> r.settings == s.(rateLimit := s.rateLimit[req.ip := nowMs])
  {
    if FirstSkip(s, req, nowMs, decode).None? && ReadsInherited(s, req.ip) then
      GateStep(Notify(false), if req.ip == "__proto__" then s else s.(rateLimit := s.rateLimit[req.ip := nowMs]))
    else Gate(s, req, nowMs, decode)
  }

  /**
   * As written, a client whose forwarded address is `__proto__` is notified about
   * on every request, where the debounce should hold the second one back.
   */
  lemma ProtoIPNeverDebounced(s: Settings, req: Request, t1: int, t2: int,
                              decode: string -> Option<Session.Payload>)
    requires req.ip == "__proto__" && req.adminToken.None?
    requires Gate(s, req, t1, decode).outcome.Notify?
    requires t2 - t1 < s.rateLimitMinutes * MsPerMinute
    ensures GateAsWritten(s, req, t1, decode) == GateStep(Notify(false), s)
    ensures GateAsWritten(GateAsWritten(s, req, t1, decode).settings, req, t2, decode) == GateStep(Notify(false), s)
    ensures Gate(Gate(s, req, t1, decode).settings, req, t2, decode).outcome == Skipped(TooSoon)
  {
    OneNotificationPerWindow(s, req, t1, t2, t1 + s.rateLimitMinutes * MsPerMinute, decode);
    assert FirstSkip(s, req, t2, decode) == FirstSkip(s, req, t1, decode);
  }

  /** As written, the first visit from an inherited name such as `constructor` is never reported as new. */
  lemma InheritedIPNeverNew(s: Settings, req: Request, nowMs: int, decode: string -> Option<Session.Payload>)
    requires req.ip == "constructor" && req.ip !in s.rateLimit
    requires FirstSkip(s, req, nowMs, decode).None?
    requires nowMs > NewVisitorMinutes * MsPerMinute && nowMs >= s.rateLimitMinutes * MsPerMinute
    ensures GateAsWritten(s, req, nowMs, decode).outcome == Notify(false)
    ensures Gate(s, req, nowMs, decode).outcome == Notify(true)
  {
  }

  /** A cookie that does not pass the admin check never passes it later: expiry only moves one way. */
  lemma AdminTokenStaysInvalid(cookie: Option<string>, t1: int, t2: int, decode: string -> Option<Session.Payload>)
    requires t1 <= t2 && !Session.IsValidAdminToken(cookie, t1, decode)
    ensures !Session.IsValidAdminToken(cookie, t2, decode)
  {
    assert t1 / 1000 <= t2 / 1000;
  }

  /** A request never changes what the gate remembers about any other IP. */
  lemma OtherIPsUntouched(s: Settings, req: Request, nowMs: int, other: string,
                          decode: string -> Option<Session.Payload>)
    requires other != req.ip
    ensures LastNotified(Gate(s, req, nowMs, decode).settings, other) == LastNotified(s, other)
  {
  }

  /** While localhost is excluded, a request from localhost is never notified about. */
  lemma LocalhostNeverNotified(s: Settings, req: Request, nowMs: int, decode: string -> Option<Session.Payload>)
    requires LocalhostExcluded(s) && req.ip in LocalhostIPs
    ensures !Gate(s, req, nowMs, decode).outcome.Notify?
  {
  }

  /** The fields of `POST /admin/visit-notifications`; an absent field is `None`. */
  datatype SettingsUpdate = SettingsUpdate(
    enabled: Option<JsonValue>,
    notifyEmail: Option<JsonValue>,
    excludeIPs: Option<JsonValue>,
    rateLimitMinutes: Option<JsonValue>)

  /**
   * The settings update: each field is taken only when it has the right type
   * (a boolean; a non-empty string; an array, always after the two localhost
   * addresses; a non-zero number). Everything else is left as it was.
   */
  function UpdateSettings(s: Settings, u: SettingsUpdate): (r: Settings)
    ensures r.rateLimit == s.rateLimit && r.excludePaths == s.excludePaths && r.botUserAgents == s.botUserAgents
    ensures r.enabled == if u.enabled.Some? && u.enabled.value.JBool? then u.enabled.value.b else s.enabled
    ensures r.notifyEmail == if Truthy(u.notifyEmail) && u.notifyEmail.value.JStr?
                             then Some(u.notifyEmail.value.s) else s.notifyEmail
    ensures r.rateLimitMinutes == if Truthy(u.rateLimitMinutes) && u.rateLimitMinutes.value.JNum?
                                  then u.rateLimitMinutes.value.n else s.rateLimitMinutes
    ensures u.excludeIPs.Some? && u.excludeIPs.value.JArr? ==>
              r.excludeIPs == [JStr(LocalhostIPs[0]), JStr(LocalhostIPs[1])] + u.excludeIPs.value.items
    ensures !(u.excludeIPs.Some? && u.excludeIPs.value.JArr?) ==> r.excludeIPs == s.excludeIPs
  {
    var enabled := if u.enabled.Some? && u.enabled.value.JBool? then u.enabled.value.b else s.enabled;
    var notify := if Truthy(u.notifyEmail) && u.notifyEmail.value.JStr? then Some(u.notifyEmail.value.s) else s.notifyEmail;
    var excluded := if u.excludeIPs.Some? && u.excludeIPs.value.JArr?
                    then [JStr(LocalhostIPs[0]), JStr(LocalhostIPs[1])] + u.excludeIPs.value.items
                    else s.excludeIPs;
    var minutes := if Truthy(u.rateLimitMinutes) && u.rateLimitMinutes.value.JNum?
                   then u.rateLimitMinutes.value.n else s.rateLimitMinutes;
    s.(enabled := enabled, notifyEmail := notify, excludeIPs := excluded, rateLimitMinutes := minutes)
  }

  /** Localhost stays excluded through every settings update and every gate decision. */
  lemma LocalhostAlwaysExcluded(s: Settings, u: SettingsUpdate, req: Request, nowMs: int,
                                decode: string -> Option<Session.Payload>)
    requires LocalhostExcluded(s)
    ensures LocalhostExcluded(UpdateSettings(s, u))
    ensures LocalhostExcluded(Gate(s, req, nowMs, decode).settings)
    ensures LocalhostExcluded(GateAsWritten(s, req, nowMs, decode).settings)
  {
    var r := UpdateSettings(s, u);
    if u.excludeIPs.Some? && u.excludeIPs.value.JArr? {
      assert r.excludeIPs[0] == JStr(LocalhostIPs[0]) && r.excludeIPs[1] == JStr(LocalhostIPs[1]);
    }
  }

  /** Sending the same update twice has the effect of sending it once. */
  lemma UpdateIdempotent(s: Settings, u: SettingsUpdate)
    ensures UpdateSettings(UpdateSettings(s, u), u) == UpdateSettings(s, u)
  {
  }

  /** An update with no usable field changes nothing. */
  lemma EmptyUpdateChangesNothing(s: Settings)
    ensures UpdateSettings(s, SettingsUpdate(None, None, None, None)) == s
  {
  }

  /** `POST /admin/visit-notifications/enable` and `/disable`. */
  function SetEnabled(s: Settings, on: bool): (r: Settings)
    ensures r == UpdateSettings(s, SettingsUpdate(Some(JBool(on)), None, None, None))
  {
    s.(enabled := on)
  }

  /**
   * A request without a User-Agent header counts as a bot: once it gets past the
   * path, IP and admin filters it is skipped as one, and the map is untouched.
   */
  lemma MissingUserAgentIsBot(s: Settings, req: Request, nowMs: int, decode: string -> Option<Session.Payload>)
    requires req.userAgent.None? || req.userAgent == Some("")
    requires s.enabled && !PathExcluded(s, req.path) && JStr(req.ip) !in s.excludeIPs
    requires !Session.IsValidAdminToken(req.adminToken, nowMs, decode)
    ensures Gate(s, req, nowMs, decode) == GateStep(Skipped(BotVisitor), s)
  {
  }

  /** A user agent is a bot whatever the case of its ASCII letters. */
  lemma BotCheckIgnoresCase(userAgent: string, bots: seq<string>)
    ensures IsBot(Text.ToLower(userAgent), bots) == IsBot(userAgent, bots)
  {
    assert Text.ToLower(Text.ToLower(userAgent)) == Text.ToLower(userAgent);
  }
}
