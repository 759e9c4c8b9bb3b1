/** The view decorator: check a request before the view, refuse it or run
  * the view, then record the outcome. */
module Decorators {
  import opened Common
  import opened Keys
  import opened Policy
  import opened Counters
  import opened Decision
  import opened Http
  import opened Logs
  import opened Blocks
  import opened RateLimiter
  import Middleware

  /** The decorator's arguments. */
  datatype Options = Options(action: string, perUser: bool, perIp: bool, failOnLimit: bool)

  /** The decorator with its defaults for the given action. */
  function RateLimitOptions(action: string): Options {
    Options(action, true, true, true)
  }

  const LoginRateLimit: Options := RateLimitOptions("login")
  const RegisterRateLimit: Options := RateLimitOptions("register")
  const PasswordResetRateLimit: Options := RateLimitOptions("password_reset")
  const TwoFactorRateLimit: Options := RateLimitOptions("2fa")

  /** The four ready-made decorators check both scopes, refuse over the
    * limit, and are all limited with the login columns. */
  lemma BoundDecorators(c: RateLimitConfig, scope: Scope, w: Window)
    ensures forall o :: o in [LoginRateLimit, RegisterRateLimit, PasswordResetRateLimit, TwoFactorRateLimit] ==>
      o.perUser && o.perIp && o.failOnLimit && ConfigAction(o.action) == "login"
      && Limit(c, o.action, scope, w) == Limit(c, "login", scope, w)
  {
  }

  /** The account the decorator attributes a request to: only with
    * `perUser`; the signed-in account's email (or username), else for a
    * POST the `email` of the parsed body, then of the form. */
  function DecoratorIdentifier(req: Request, perUser: bool): Option<string> {
    if !perUser then None
    else if req.user.Some? then
      Some(if req.user.value.email != "" then req.user.value.email else req.user.value.username)
    else if req.httpMethod == "POST" then
      if req.data.Some? && "email" in req.data.value then Some(req.data.value["email"])
      else if "email" in req.post then Some(req.post["email"])
      else None
    else None
  }

  /** The decorator and the middleware agree on signed-in accounts, but for
    * an anonymous POST carrying an `email` in both the form and the body
    * they name different accounts: the middleware reads the form first,
    * the decorator the body. */
  lemma IdentifiersDisagreeOnPostOrder(form: string, body: string)
    requires form != body
    ensures var req := Request("/auth/login/", "POST", None, None, map["email" := form], Some(map["email" := body]));
      && Middleware.UserIdentifier(req) == Some(form)
      && DecoratorIdentifier(req, true) == Some(body)
  {
    var req := Request("/auth/login/", "POST", None, None, map["email" := form], Some(map["email" := body]));
    var fs := Middleware.IdentifierFields;
    assert fs[0] == "email";
    assert Middleware.FirstField(fs, req.post) == Some(form);
  }

  /** Signed-in requests are attributed alike by both layers. */
  lemma IdentifiersAgreeWhenSignedIn(req: Request)
    requires req.user.Some?
    ensures DecoratorIdentifier(req, true) == Middleware.UserIdentifier(req)
    ensures DecoratorIdentifier(req, false).None?
  {
  }

  /** Whether the decorator calls the limiter at all. */
  predicate Checks(o: Options) {
    o.perIp || o.perUser
  }

  /** Whether a verdict makes the decorator refuse the request. */
  predicate Refuses(o: Options, v: Verdict) {
    Checks(o) && v.Limited() && o.failOnLimit
  }

  /** Switching `perIp` off changes nothing while `perUser` is on: the
    * limiter checks the address anyway, so an address over its limit is
    * refused even with no account named. */
  lemma PerIpOffStillChecksAddress(o: Options, s: Stores, mode: Mode, c: RateLimitConfig, req: Request,
                                   records: map<string, BlockRecord>, now: int)
    requires o.perUser && o.failOnLimit
    ensures var v := CheckVerdict(s, mode, c, o.action, ClientIp(req), DecoratorIdentifier(req, true), records, now);
      Refuses(o.(perIp := false), v) == Refuses(o, v)
    ensures var v := CheckVerdict(s, mode, c, o.action, ClientIp(req), DecoratorIdentifier(req, true), records, now);
      (exists w :: w in AllWindows
         && WindowCount(s, mode, Key(o.action, Ip, ClientIp(req), w), now) >= Limit(c, o.action, Ip, w))
      ==> Refuses(o.(perIp := false), v)
  {
    CheckVerdictMeaning(s, mode, c, o.action, ClientIp(req), DecoratorIdentifier(req, true), records, now);
  }

  /** The causes of a refusal in the decorator's wording. */
  function DecoratorReasons(v: Verdict): seq<string> {
    (if v.ipLimited then ["Too many requests from your IP"] else [])
    + (if v.userLimited then ["Too many requests for this account"] else [])
    + (if v.ipBlocked then ["IP address temporarily blocked"] else [])
  }

  /** The decorator's 429 response; it carries the action, not the
    * verdict. */
  function DecoratorRefusal(v: Verdict, action: string): Response {
    var reasons := DecoratorReasons(v);
    var reason := if reasons == [] then "Rate limit exceeded" else Middleware.JoinWith(". ", reasons);
    Response(429,
             map["Retry-After" := IntToString(v.retryAfter), "X-RateLimit-Exceeded" := "true"],
             RateLimitedBody("Rate limit exceeded", reason + ". Please try again later.", v.retryAfter, Some(action), None))
  }

  /** The decorator's refusal has the middleware's status, headers and
    * retry delay, and differs only in wording and in naming the action
    * instead of attaching the verdict. */
  lemma RefusalsAgreeButForWording(v: Verdict, action: string)
    requires v.Limited()
    ensures DecoratorRefusal(v, action).status == Middleware.RateLimitExceeded(v).status == 429
    ensures DecoratorRefusal(v, action).headers == Middleware.RateLimitExceeded(v).headers
    ensures DecoratorRefusal(v, action).body.retryAfter == Middleware.RateLimitExceeded(v).body.retryAfter
    ensures |DecoratorReasons(v)| == |Middleware.Reasons(v)| > 0
    ensures DecoratorRefusal(v, action).body.action == Some(action) && DecoratorRefusal(v, action).body.detail.None?
  {
    Middleware.ReasonsMeaning(v);
  }

  /** A view wrapped by the decorator with fixed options. */
  class RateLimitedView {
    const options: Options
    const limiter: Limiter
    const registry: BlockRegistry
    const audit: AuditLog

    constructor (options: Options, limiter: Limiter, registry: BlockRegistry, audit: AuditLog)
      ensures this.options == options && this.limiter == limiter && this.registry == registry && this.audit == audit
    {
      this.options := options;
      this.limiter := limiter;
      this.registry := registry;
      this.audit := audit;
    }

    /** One call of the wrapped view, whose own answer is `view`: an
      * already-checked request goes straight to the view; otherwise check
      * (when a scope is asked for), refuse without calling the view or
      * recording, or mark the request, call the view once and record its
      * outcome once. */
    method Wrapper(req: Request, attrs: RequestAttributes, view: Response, now: int)
      returns (out: Response, viewCalled: bool)
      modifies limiter, registry, audit, attrs
      ensures limiter.backendDown == old(limiter.backendDown)
      ensures audit.twoFactorAttempts == old(audit.twoFactorAttempts)
      ensures old(attrs.rateLimitChecked) ==>
        && out == view && viewCalled
        && limiter.Stores() == old(limiter.Stores()) && registry.records == old(registry.records)
        && audit.visitorLogs == old(audit.visitorLogs)
        && attrs.rateLimitChecked && attrs.rateLimitInfo == old(attrs.rateLimitInfo)
      ensures !old(attrs.rateLimitChecked) ==>
        var ip := ClientIp(req);
        var user := DecoratorIdentifier(req, options.perUser);
        var v := CheckVerdict(old(limiter.Stores()), limiter.Mode(), limiter.config, options.action, ip, user,
                              old(registry.records), now);
        var checked := if Checks(options)
                       then CheckedStores(old(limiter.Stores()), limiter.Mode(), options.action, ip, user, now)
                       else old(limiter.Stores());
        && viewCalled == !Refuses(options, v)
        && registry.records == (if Checks(options) then RecordsAfterCheck(old(registry.records), ip, now) else old(registry.records))
        && audit.visitorLogs == (if Checks(options)
                                 then old(audit.visitorLogs) + [Saved(AttemptLog(req, user, v.Limited(), now), now)]
                                 else old(audit.visitorLogs))
        && (Refuses(options, v) ==>
              && out == DecoratorRefusal(v, options.action)
              && limiter.Stores() == checked
              && !attrs.rateLimitChecked && attrs.rateLimitInfo == old(attrs.rateLimitInfo))
        && (!Refuses(options, v) ==>
              && out == view
              && limiter.Stores() == RecordedRequest(checked, limiter.Mode(), options.action, ip, user, IsSuccess(view.status), now)
              && attrs.rateLimitChecked
              && attrs.rateLimitInfo == (if Checks(options) then Some(v) else old(attrs.rateLimitInfo)))
    {
      if attrs.rateLimitChecked {
        return view, true;
      }
      var userIdentifier := DecoratorIdentifier(req, options.perUser);
      if options.perIp || options.perUser {
        var limited, info := limiter.CheckRateLimit(req, options.action, userIdentifier, registry, audit, now);
        if limited && options.failOnLimit {
          return DecoratorRefusal(info, options.action), false;
        }
        attrs.rateLimitInfo := Some(info);
      }
      attrs.rateLimitChecked := true;
      out := view;
      viewCalled := true;
      var success := 200 <= out.status < 400;
      limiter.RecordRequest(req, options.action, userIdentifier, success, now);
    }
  }
}
