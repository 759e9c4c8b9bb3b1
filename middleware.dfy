/** The request-level layer: which paths are limited, how a request is
  * classified and attributed, the responses the layer produces, the
  * suspicious-activity rules, and the address-block gate. */
module Middleware {
  import opened Common
  import opened Keys
  import opened Policy
  import opened Counters
  import opened Decision
  import opened Http
  import opened Logs
  import opened Blocks
  import opened RateLimiter

  /** Paths neither checked nor recorded. */
  const ExcludedPaths: seq<string> := ["/admin/jsi18n/", "/favicon.ico", "/static/", "/media/", "/health/"]

  /** Paths named as needing strict limits (the list is never consulted by
    * the request handling itself). */
  const StrictPaths: seq<string> :=
    ["/auth/login/", "/auth/register/", "/auth/forgot-password/", "/auth/reset-password/", "/auth/2fa/"]

  /** Paths whose failed requests are fed to the block rules. */
  const MonitoredPaths: seq<string> := ["/auth/", "/admin/"]

  predicate IsExcludedPath(path: string) {
    StartsWithAny(path, ExcludedPaths)
  }

  predicate IsStrictPath(path: string) {
    StartsWithAny(path, StrictPaths)
  }

  predicate IsMonitoredPath(path: string) {
    StartsWithAny(path, MonitoredPaths)
  }

  /** The action a path is limited as: the first substring test that hits. */
  function ActionType(path: string): string {
    if Contains(path, "/auth/login/") || Contains(path, "/auth/google/") then "login"
    else if Contains(path, "/auth/register/") then "register"
    else if Contains(path, "/auth/forgot-password/") || Contains(path, "/auth/reset-password/") then "password_reset"
    else if Contains(path, "/auth/2fa/") then "2fa"
    else if Contains(path, "/auth/") then "auth"
    else if Contains(path, "/admin/") then "admin"
    else "api"
  }

  /** The substrings that make a path a login-class action. */
  const LoginClassMarkers: seq<string> :=
    ["/auth/login/", "/auth/google/", "/auth/register/", "/auth/forgot-password/", "/auth/reset-password/", "/auth/2fa/"]

  /** A path containing any login-class marker contains `/auth/`. */
  lemma MarkerImpliesAuth(path: string, m: string)
    requires m in LoginClassMarkers && Contains(path, m)
    ensures Contains(path, "/auth/")
  {
    assert Contains(m, "/auth/") by {
      assert "/auth/" <= m;
    }
    ContainsTransitive(path, m, "/auth/");
  }

  /** A path is classified `api` exactly when it contains neither `/auth/`
    * nor `/admin/`; every other path is one of the six named actions. */
  lemma ApiExactlyOutsideAuthAndAdmin(path: string)
    ensures ActionType(path) == "api" <==> !Contains(path, "/auth/") && !Contains(path, "/admin/")
    ensures ActionType(path) in ["login", "register", "password_reset", "2fa", "auth", "admin", "api"]
  {
    if !Contains(path, "/auth/") {
      forall m | m in LoginClassMarkers
        ensures !Contains(path, m)
      {
        if Contains(path, m) {
          MarkerImpliesAuth(path, m);
        }
      }
      assert LoginClassMarkers[0] == "/auth/login/" && LoginClassMarkers[1] == "/auth/google/";
      assert LoginClassMarkers[2] == "/auth/register/" && LoginClassMarkers[3] == "/auth/forgot-password/";
      assert LoginClassMarkers[4] == "/auth/reset-password/" && LoginClassMarkers[5] == "/auth/2fa/";
    }
  }

  /** A path is limited with the login columns exactly when it contains a
    * login-class marker. */
  lemma LoginLimitsIffMarker(path: string)
    ensures ConfigAction(ActionType(path)) == "login" <==> exists m :: m in LoginClassMarkers && Contains(path, m)
  {
    var ms := LoginClassMarkers;
    assert ms[0] == "/auth/login/" && ms[1] == "/auth/google/" && ms[2] == "/auth/register/";
    assert ms[3] == "/auth/forgot-password/" && ms[4] == "/auth/reset-password/" && ms[5] == "/auth/2fa/";
    if ConfigAction(ActionType(path)) == "login" {
      var k := if Contains(path, ms[0]) then 0 else if Contains(path, ms[1]) then 1
               else if Contains(path, ms[2]) then 2 else if Contains(path, ms[3]) then 3
               else if Contains(path, ms[4]) then 4 else 5;
      assert ms[k] in ms && Contains(path, ms[k]);
    }
  }

  /** A prefix is a substring. */
  lemma PrefixContains(path: string, p: string)
    requires p <= path
    ensures Contains(path, p)
  {
  }

  /** Every strict path is limited with the login columns. */
  lemma StrictPathsUseLoginLimits(path: string)
    requires IsStrictPath(path)
    ensures ConfigAction(ActionType(path)) == "login"
  {
    var p :| p in StrictPaths && p <= path;
    PrefixContains(path, p);
    LoginLimitsIffMarker(path);
    assert p in LoginClassMarkers;
  }

  /** A monitored path is never limited as `api`. */
  lemma MonitoredPathsAreNotApi(path: string)
    requires IsMonitoredPath(path)
    ensures ActionType(path) != "api"
  {
    var p :| p in MonitoredPaths && p <= path;
    PrefixContains(path, p);
    ApiExactlyOutsideAuthAndAdmin(path);
  }

  /** The form fields that may name the account a request is for. */
  const IdentifierFields: seq<string> := ["email", "username", "user", "login"]

  /** The value of the first of `fields` that `m` holds. */
  function FirstField(fields: seq<string>, m: map<string, string>): (r: Option<string>)
    ensures r.None? <==> forall i :: 0 <= i < |fields| ==> fields[i] !in m
    ensures r.Some? ==> exists i :: 0 <= i < |fields| && fields[i] in m && r.value == m[fields[i]]
                                   && forall j :: 0 <= j < i ==> fields[j] !in m
    decreases |fields|
  {
    if fields == [] then None
    else if fields[0] in m then Some(m[fields[0]])
    else
      var r := FirstField(fields[1..], m);
      assert r.Some? ==> exists i :: 0 <= i < |fields[1..]| && fields[1..][i] in m && r.value == m[fields[1..][i]]
                                   && forall j :: 0 <= j < i ==> fields[1..][j] !in m;
      assert r.Some? ==> exists i :: 0 < i < |fields| && fields[i] in m && r.value == m[fields[i]]
                                   && forall j :: 0 < j < i ==> fields[j] !in m;
      r
  }

  /** The account a request is attributed to: the signed-in account's email
    * (its username when the email is empty), else for a POST the first
    * identifier field of the form, then of the parsed body; else none. */
  function UserIdentifier(req: Request): Option<string> {
    if req.user.Some? then
      Some(if req.user.value.email != "" then req.user.value.email else req.user.value.username)
    else if req.httpMethod == "POST" then
      match FirstField(IdentifierFields, req.post)
      case Some(v) => Some(v)
      case None => if req.data.Some? then FirstField(IdentifierFields, req.data.value) else None
    else None
  }

  predicate FieldHolds(m: map<string, string>, f: string, v: string) {
    f in m && m[f] == v
  }

  /** The identifier always comes from the request: the account, or a
    * POST field among the four names; form fields win over the body; any
    * other anonymous request has none. */
  lemma UserIdentifierSources(req: Request)
    ensures req.user.Some? ==>
      (UserIdentifier(req).Some? && UserIdentifier(req).value in {req.user.value.email, req.user.value.username})
    ensures req.user.None? && req.httpMethod != "POST" ==> UserIdentifier(req).None?
    ensures req.user.None? && UserIdentifier(req).Some? ==>
      (exists f :: f in IdentifierFields && (FieldHolds(req.post, f, UserIdentifier(req).value)
                                             || (req.data.Some? && FieldHolds(req.data.value, f, UserIdentifier(req).value))))
    ensures req.user.None? && req.httpMethod == "POST" && (exists f :: f in IdentifierFields && f in req.post) ==>
      UserIdentifier(req).Some? && exists f :: f in IdentifierFields && FieldHolds(req.post, f, UserIdentifier(req).value)
  {
    if req.user.None? && req.httpMethod == "POST" {
      var fs := IdentifierFields;
      var fromPost := FirstField(fs, req.post);
      if fromPost.Some? {
        var i :| 0 <= i < |fs| && fs[i] in req.post && fromPost.value == req.post[fs[i]];
        assert fs[i] in fs && FieldHolds(req.post, fs[i], UserIdentifier(req).value);
      } else {
        if req.data.Some? {
          var fromData := FirstField(fs, req.data.value);
          if fromData.Some? {
            var i :| 0 <= i < |fs| && fs[i] in req.data.value && fromData.value == req.data.value[fs[i]];
            assert fs[i] in fs && FieldHolds(req.data.value, fs[i], UserIdentifier(req).value);
          }
        }
      }
    }
  }

  /** What a regular-expression search reports: whether the pattern was
    * found, or that the pattern does not compile. */
  datatype RegexResult = Found(matched: bool) | BadPattern

  /** A regular-expression search of `path` for `pattern`. */
  type Search = (string, string) -> RegexResult

  /** Pattern matching with the substring test as fallback for a pattern
    * that does not compile. */
  predicate PathMatches(path: string, pattern: string, search: Search) {
    match search(pattern, path)
    case Found(b) => b
    case BadPattern => Contains(path, pattern)
  }

  /** A rule fires for a path when it is on, has a pattern, and matches. */
  predicate Fires(rule: BlockRule, path: string, search: Search) {
    rule.active && rule.pattern.Some? && PathMatches(path, rule.pattern.value, search)
  }

  /** The rules that fire for a path, in table order. */
  function MatchingRules(rules: seq<BlockRule>, path: string, search: Search): seq<BlockRule>
    decreases |rules|
  {
    if rules == [] then []
    else
      MatchingRules(rules[..|rules| - 1], path, search)
        + (if Fires(rules[|rules| - 1], path, search) then [rules[|rules| - 1]] else [])
  }

  /** The matching rules of one more table row. */
  lemma MatchingStep(rules: seq<BlockRule>, i: int, path: string, search: Search)
    requires 0 <= i < |rules|
    ensures MatchingRules(rules[..i + 1], path, search)
      == MatchingRules(rules[..i], path, search) + (if Fires(rules[i], path, search) then [rules[i]] else [])
  {
    assert rules[..i + 1][..i] == rules[..i];
  }

  /** Firing one more rule escalates the address's row once more. */
  lemma EscalateStep(records: map<string, BlockRecord>, ip: string, fired: seq<BlockRule>, rule: BlockRule, now: int)
    ensures EscalateAll(records, ip, fired + [rule], now)
      == EscalateAll(records, ip, fired, now)[ip := Escalate(Lookup(EscalateAll(records, ip, fired, now), ip), rule, now)]
  {
    assert (fired + [rule])[..|fired|] == fired;
  }

  /** Every firing rule is applied, as often as it appears; no other rule
    * is. */
  lemma {:induction false} MatchingRulesExactly(rules: seq<BlockRule>, path: string, search: Search, r: BlockRule)
    ensures multiset(MatchingRules(rules, path, search))[r] == if Fires(r, path, search) then multiset(rules)[r] else 0
    ensures r in MatchingRules(rules, path, search) <==> r in rules && Fires(r, path, search)
    decreases |rules|
  {
    if rules != [] {
      var front := rules[..|rules| - 1];
      var last := rules[|rules| - 1];
      MatchingRulesExactly(front, path, search, r);
      assert rules == front + [last];
      assert multiset(rules) == multiset(front) + multiset{last};
    }
  }

  /** One fired rule adds one attempt: the block table after the failed
    * request carries as many new attempts for the address as rules fired. */
  lemma SuspiciousActivityCounts(records: map<string, BlockRecord>, ip: string, rules: seq<BlockRule>,
                                 path: string, search: Search, now: int)
    ensures AttemptsOf(EscalateAll(records, ip, MatchingRules(rules, path, search), now), ip)
      == AttemptsOf(records, ip) + |MatchingRules(rules, path, search)|
    ensures (exists r :: r in rules && Fires(r, path, search)) ==>
      ip in EscalateAll(records, ip, MatchingRules(rules, path, search), now)
  {
    EscalateAllCounts(records, ip, MatchingRules(rules, path, search), now);
    if exists r :: r in rules && Fires(r, path, search) {
      var r :| r in rules && Fires(r, path, search);
      MatchingRulesExactly(rules, path, search, r);
    }
  }

  const IpReason: string := "Too many requests from your IP address"
  const UserReason: string := "Too many requests for this account"
  const BlockedReason: string := "Your IP address has been temporarily blocked"

  /** The causes of a refusal, in address, account, block order. */
  function Reasons(v: Verdict): seq<string> {
    (if v.ipLimited then [IpReason] else [])
    + (if v.userLimited then [UserReason] else [])
    + (if v.ipBlocked then [BlockedReason] else [])
  }

  /** Python's `sep.join(parts)`. */
  function JoinWith(sep: string, parts: seq<string>): string
    decreases |parts|
  {
    if parts == [] then ""
    else if |parts| == 1 then parts[0]
    else JoinWith(sep, parts[..|parts| - 1]) + sep + parts[|parts| - 1]
  }

  function ReasonText(v: Verdict): string {
    if Reasons(v) == [] then "Rate limit exceeded" else JoinWith(". ", Reasons(v))
  }

  /** The 429 response of a refused request. */
  function RateLimitExceeded(v: Verdict): Response {
    Response(429,
             map["Retry-After" := IntToString(v.retryAfter), "X-RateLimit-Exceeded" := "true"],
             RateLimitedBody("Rate limit exceeded", ReasonText(v) + ". Please try again later.",
                             v.retryAfter, None, Some(v)))
  }

  /** Each cause is named once, in order; a refused request always names at
    * least one, so the generic text is never used for one. */
  lemma {:induction false} ReasonsMeaning(v: Verdict)
    ensures |Reasons(v)| == (if v.ipLimited then 1 else 0) + (if v.userLimited then 1 else 0) + (if v.ipBlocked then 1 else 0)
    ensures Reasons(v) == [] <==> !v.Limited()
    ensures v.ipLimited ==> Reasons(v)[0] == IpReason
    ensures v.ipBlocked ==> Reasons(v)[|Reasons(v)| - 1] == BlockedReason
    ensures Reasons(v) == [IpReason, UserReason, BlockedReason] <==> v.ipLimited && v.userLimited && v.ipBlocked
  {
  }

  /** A refusal for one cause names that cause alone. */
  lemma SingleCauseMessages(v: Verdict)
    ensures v.ipLimited && !v.userLimited && !v.ipBlocked ==>
      RateLimitExceeded(v).body.message == IpReason + ". Please try again later."
    ensures !v.ipLimited && v.userLimited && !v.ipBlocked ==>
      RateLimitExceeded(v).body.message == UserReason + ". Please try again later."
    ensures !v.ipLimited && !v.userLimited && v.ipBlocked ==>
      RateLimitExceeded(v).body.message == BlockedReason + ". Please try again later."
  {
  }

  /** A refusal for all three causes names them in order, joined by ". ". */
  lemma AllCausesMessage(v: Verdict)
    requires v.ipLimited && v.userLimited && v.ipBlocked
    ensures RateLimitExceeded(v).body.message
      == IpReason + ". " + UserReason + ". " + BlockedReason + ". Please try again later."
  {
    var rs := Reasons(v);
    assert rs == [IpReason, UserReason, BlockedReason];
    assert rs[..2] == [IpReason, UserReason] && rs[..2][..1] == [IpReason];
    assert JoinWith(". ", rs[..2]) == IpReason + ". " + UserReason;
  }

  /** A refusal caused by the address block alone tells the client to
    * retry after 0 seconds. */
  lemma BlockOnlyRefusalSaysRetryNow(v: Verdict)
    requires v.WellFormed() && v.ipBlocked && !v.ipLimited && !v.userLimited
    ensures RateLimitExceeded(v).headers["Retry-After"] == "0"
    ensures RateLimitExceeded(v).body.retryAfter == 0
  {
    RetryAfterZeroExactlyWithoutCounterTrip(v);
  }

  /** The response with the limit headers of a check added. */
  function AddRateLimitHeaders(resp: Response, v: Verdict): Response {
    var withLimit :=
      if Minute in v.ipInfo.stats then
        resp.headers["X-RateLimit-Limit" := IntToString(v.ipInfo.stats[Minute].limit)]
                    ["X-RateLimit-Remaining" := IntToString(v.ipInfo.stats[Minute].remaining)]
      else resp.headers;
    var withRetry := if v.retryAfter != 0 then withLimit["Retry-After" := IntToString(v.retryAfter)] else withLimit;
    resp.(headers := withRetry)
  }

  /** After a check that let the request through, the headers carry the
    * address's per-minute limit and what is left of it, which is positive,
    * and no retry delay is added. */
  lemma PassedCheckHeaders(s: Stores, mode: Mode, c: RateLimitConfig, action: string, ip: string, user: Option<string>,
                           records: map<string, BlockRecord>, resp: Response, now: int)
    requires !CheckVerdict(s, mode, c, action, ip, user, records, now).Limited()
    ensures var v := CheckVerdict(s, mode, c, action, ip, user, records, now);
      var limit := Limit(c, action, Ip, Minute);
      var count := WindowCount(s, mode, Key(action, Ip, ip, Minute), now);
      && count < limit
      && AddRateLimitHeaders(resp, v) == resp.(headers := resp.headers["X-RateLimit-Limit" := IntToString(limit)]
                                                                   ["X-RateLimit-Remaining" := IntToString(limit - count)])
  {
    var v := CheckVerdict(s, mode, c, action, ip, user, records, now);
    CheckVerdictMeaning(s, mode, c, action, ip, user, records, now);
    assert Minute in AllWindows;
    assert Minute in v.ipInfo.stats;
  }

  /** The 403 response of a blocked address. */
  function BlockedResponse(r: BlockRecord): Response {
    Response(403, map[], BlockedBody("Access denied", "Your IP address has been blocked due to suspicious activity.",
                                     r.blockedAt, r.reason))
  }

  /** The gate's answer: refuse a resolved address whose active row still
    * blocks it. */
  function GateResponse(records: map<string, BlockRecord>, req: Request, now: int): Option<Response> {
    if Truthy(req.clientIp) && req.clientIp.value in records && BlockedNow(records[req.clientIp.value], now)
    then Some(BlockedResponse(records[req.clientIp.value]))
    else None
  }

  /** The gate refuses exactly the requests whose check would report the
    * address as blocked, except that an unresolved address always passes
    * the gate while the check attributes it to the loopback address. */
  lemma GateAgreesWithCheck(s: Stores, mode: Mode, c: RateLimitConfig, action: string, req: Request,
                            user: Option<string>, records: map<string, BlockRecord>, now: int)
    ensures Truthy(req.clientIp) ==>
      (GateResponse(records, req, now).Some? <==> CheckVerdict(s, mode, c, action, ClientIp(req), user, records, now).ipBlocked)
    ensures !Truthy(req.clientIp) ==> GateResponse(records, req, now).None?
    ensures GateResponse(records, req, now).Some? ==> GateResponse(records, req, now).value.status == 403
  {
  }

  /** The limiting middleware, bound to the limiter, the block table and
    * the log it writes. */
  class RateLimitMiddleware {
    const limiter: Limiter
    const registry: BlockRegistry
    const audit: AuditLog

    constructor (limiter: Limiter, registry: BlockRegistry, audit: AuditLog)
      ensures this.limiter == limiter && this.registry == registry && this.audit == audit
    {
      this.limiter := limiter;
      this.registry := registry;
      this.audit := audit;
    }

    /** Before the view: skip excluded paths; otherwise check the request
      * and refuse it, or attach the verdict to it. */
    method ProcessRequest(req: Request, attrs: RequestAttributes, now: int) returns (resp: Option<Response>)
      modifies limiter, registry, audit, attrs
      ensures limiter.backendDown == old(limiter.backendDown)
      ensures attrs.rateLimitChecked == old(attrs.rateLimitChecked)
      ensures audit.twoFactorAttempts == old(audit.twoFactorAttempts)
      ensures IsExcludedPath(req.path) ==>
        && resp.None?
        && limiter.Stores() == old(limiter.Stores())
        && registry.records == old(registry.records)
        && audit.visitorLogs == old(audit.visitorLogs)
        && attrs.rateLimitInfo == old(attrs.rateLimitInfo)
      ensures !IsExcludedPath(req.path) ==>
        var v := CheckVerdict(old(limiter.Stores()), limiter.Mode(), limiter.config, ActionType(req.path),
                              ClientIp(req), UserIdentifier(req), old(registry.records), now);
        && resp == (if v.Limited() then Some(RateLimitExceeded(v)) else None)
        && attrs.rateLimitInfo == (if v.Limited() then old(attrs.rateLimitInfo) else Some(v))
        && limiter.Stores() == CheckedStores(old(limiter.Stores()), limiter.Mode(), ActionType(req.path),
                                             ClientIp(req), UserIdentifier(req), now)
        && registry.records == RecordsAfterCheck(old(registry.records), ClientIp(req), now)
        && audit.visitorLogs == old(audit.visitorLogs) + [Saved(AttemptLog(req, UserIdentifier(req), v.Limited(), now), now)]
    {
      if IsExcludedPath(req.path) {
        return None;
      }
      var action := ActionType(req.path);
      var userIdentifier := UserIdentifier(req);
      var limited, info := limiter.CheckRateLimit(req, action, userIdentifier, registry, audit, now);
      if limited {
        return Some(RateLimitExceeded(info));
      }
      attrs.rateLimitInfo := Some(info);
      resp := None;
    }

    /** Fire every rule that matches the failed request's path. */
    method HandleSuspiciousActivity(ip: string, path: string, rules: seq<BlockRule>, search: Search, now: int)
      modifies registry
      ensures registry.records == EscalateAll(old(registry.records), ip, MatchingRules(rules, path, search), now)
    {
      ghost var r0 := registry.records;
      var i := 0;
      while i < |rules|
        invariant 0 <= i <= |rules|
        invariant registry.records == EscalateAll(r0, ip, MatchingRules(rules[..i], path, search), now)
      {
        MatchingStep(rules, i, path, search);
        var rule := rules[i];
        ghost var fired := MatchingRules(rules[..i], path, search);
        if rule.active && rule.pattern.Some? && PathMatches(path, rule.pattern.value, search) {
          assert MatchingRules(rules[..i + 1], path, search) == fired + [rule];
          EscalateStep(r0, ip, fired, rule, now);
          registry.ApplyBlockRule(ip, rule, now);
        } else {
          assert MatchingRules(rules[..i + 1], path, search) == fired;
        }
        i := i + 1;
      }
      assert rules[..|rules|] == rules;
    }

    /** After the view: skip excluded paths; otherwise record the outcome,
      * add the limit headers of an attached verdict, and feed a failure on
      * a monitored path to the block rules. */
    method ProcessResponse(req: Request, attrs: RequestAttributes, resp: Response, rules: seq<BlockRule>,
                           search: Search, now: int) returns (out: Response)
      modifies limiter, registry
      ensures limiter.backendDown == old(limiter.backendDown)
      ensures IsExcludedPath(req.path) ==>
        out == resp && limiter.Stores() == old(limiter.Stores()) && registry.records == old(registry.records)
      ensures !IsExcludedPath(req.path) ==>
        && limiter.Stores() == RecordedRequest(old(limiter.Stores()), limiter.Mode(), ActionType(req.path), ClientIp(req),
                                               UserIdentifier(req), IsSuccess(resp.status), now)
        && out == (if attrs.rateLimitInfo.Some? then AddRateLimitHeaders(resp, attrs.rateLimitInfo.value) else resp)
        && registry.records ==
             (if !IsSuccess(resp.status) && IsMonitoredPath(req.path)
              then EscalateAll(old(registry.records), ClientIp(req), MatchingRules(rules, req.path, search), now)
              else old(registry.records))
    {
      if IsExcludedPath(req.path) {
        return resp;
      }
      var success := 200 <= resp.status < 400;
      var action := ActionType(req.path);
      var userIdentifier := UserIdentifier(req);
      limiter.RecordRequest(req, action, userIdentifier, success, now);
      out := resp;
      if attrs.rateLimitInfo.Some? {
        out := AddRateLimitHeaders(resp, attrs.rateLimitInfo.value);
      }
      if !success && IsMonitoredPath(req.path) {
        HandleSuspiciousActivity(ClientIp(req), req.path, rules, search, now);
      }
    }

    /** One request through the middleware around a view that answers
      * `view`: the check, then the view only when the request passed, then
      * the response step on whichever response came out, so that a refusal
      * is itself recorded as a failed request. */
    method Handle(req: Request, attrs: RequestAttributes, view: Response, rules: seq<BlockRule>, search: Search, now: int)
      returns (out: Response, viewCalled: bool)
      modifies limiter, registry, audit, attrs
      ensures limiter.backendDown == old(limiter.backendDown)
      ensures IsExcludedPath(req.path) ==>
        out == view && viewCalled && limiter.Stores() == old(limiter.Stores()) && registry.records == old(registry.records)
      ensures !IsExcludedPath(req.path) ==>
        var action := ActionType(req.path);
        var ip := ClientIp(req);
        var user := UserIdentifier(req);
        var v := CheckVerdict(old(limiter.Stores()), limiter.Mode(), limiter.config, action, ip, user, old(registry.records), now);
        var first := if v.Limited() then RateLimitExceeded(v) else view;
        var checked := RecordsAfterCheck(old(registry.records), ip, now);
        && viewCalled == !v.Limited()
        && limiter.Stores() == RecordedRequest(CheckedStores(old(limiter.Stores()), limiter.Mode(), action, ip, user, now),
                                               limiter.Mode(), action, ip, user, IsSuccess(first.status), now)
        && out == (if v.Limited()
                   then (if old(attrs.rateLimitInfo).Some? then AddRateLimitHeaders(first, old(attrs.rateLimitInfo).value) else first)
                   else AddRateLimitHeaders(view, v))
        && registry.records ==
             (if !IsSuccess(first.status) && IsMonitoredPath(req.path)
              then EscalateAll(checked, ip, MatchingRules(rules, req.path, search), now)
              else checked)
    {
      var early := ProcessRequest(req, attrs, now);
      var response: Response;
      if early.Some? {
        response := early.value;
        viewCalled := false;
      } else {
        response := view;
        viewCalled := true;
      }
      out := ProcessResponse(req, attrs, response, rules, search, now);
    }
  }

  /** The address-block gate. */
  class IPBlockMiddleware {
    const registry: BlockRegistry

    constructor (registry: BlockRegistry)
      ensures this.registry == registry
    {
      this.registry := registry;
    }

    /** Refuse a request from an address whose active row still blocks it;
      * the row is switched off when found expired. */
    method ProcessRequest(req: Request, now: int) returns (resp: Option<Response>)
      modifies registry
      ensures resp == GateResponse(old(registry.records), req, now)
      ensures !Truthy(req.clientIp) ==> registry.records == old(registry.records)
      ensures Truthy(req.clientIp) ==> registry.records == RecordsAfterCheck(old(registry.records), req.clientIp.value, now)
    {
      if !Truthy(req.clientIp) {
        return None;
      }
      var ip := req.clientIp.value;
      if ip in registry.records && registry.records[ip].active {
        var r := registry.records[ip];
        var blocked := registry.IsBlocked(ip, now);
        if blocked {
          return Some(BlockedResponse(r));
        }
      }
      resp := None;
    }
  }
}
