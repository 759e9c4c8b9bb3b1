/** The stored rate-limit policy and the limit the limiter derives from
  * it for an action, scope and window. */
module Policy {
  import opened Common
  import opened Keys

  /** One row of the rate-limit configuration table. */
  datatype RateLimitConfig = RateLimitConfig(
    name: string,
    loginIpPerMinute: int, loginIpPerHour: int, loginIpPerDay: int,
    loginUserPerMinute: int, loginUserPerHour: int, loginUserPerDay: int,
    apiIpPerMinute: int, apiIpPerHour: int,
    apiUserPerMinute: int, apiUserPerHour: int,
    ipLockoutDuration: int, userLockoutDuration: int,
    enableProgressiveDelays: bool, suspiciousActivityThreshold: int,
    isActive: bool)

  /** The row the limiter creates when no active configuration exists, also
    * standing for the object it falls back to; its values are the column
    * defaults. */
  function DefaultConfig(): RateLimitConfig {
    RateLimitConfig("default", 5, 20, 100, 3, 10, 50, 60, 1000, 100, 2000, 900, 600, true, 3, true)
  }

  /** The configuration the limiter adopts at start-up: the active row when
    * the lookup finds one; otherwise the row it creates, or the stand-in
    * object when the lookup or the creation raises. Both limit login-class
    * actions to 5/20/100 per address and 3/10/50 per account and the api to
    * 60/1000 per address and 100/2000 per account, with the column defaults
    * for the lockouts. */
  function LoadConfig(active: Option<RateLimitConfig>): (c: RateLimitConfig)
    ensures active.Some? ==> c == active.value
    ensures active.None? ==>
      && Limit(c, "login", Ip, Minute) == 5 && Limit(c, "login", Ip, Hour) == 20 && Limit(c, "login", Ip, Day) == 100
      && Limit(c, "login", User, Minute) == 3 && Limit(c, "login", User, Hour) == 10 && Limit(c, "login", User, Day) == 50
      && Limit(c, "api", Ip, Minute) == 60 && Limit(c, "api", Ip, Hour) == 1000
      && Limit(c, "api", User, Minute) == 100 && Limit(c, "api", User, Hour) == 2000
      && c.ipLockoutDuration == 900 && c.userLockoutDuration == 600
      && c.enableProgressiveDelays && c.suspiciousActivityThreshold == 3 && c.isActive
  {
    active.GetOr(DefaultConfig())
  }

  /** Registration, password reset and second-factor checks are limited with
    * the login columns; every other action looks up its own columns. */
  function ConfigAction(action: string): string {
    if action in ["register", "password_reset", "2fa"] then "login" else action
  }

  /** The configuration column `{configAction}_{scope}_limit_per_{window}`,
    * when the table has one. There are login columns for every window and
    * api columns for the minute and the hour only. */
  function ConfiguredLimit(c: RateLimitConfig, configAction: string, scope: Scope, w: Window): Option<int> {
    if configAction == "login" then
      match (scope, w)
      case (Ip, Minute) => Some(c.loginIpPerMinute)
      case (Ip, Hour) => Some(c.loginIpPerHour)
      case (Ip, Day) => Some(c.loginIpPerDay)
      case (User, Minute) => Some(c.loginUserPerMinute)
      case (User, Hour) => Some(c.loginUserPerHour)
      case (User, Day) => Some(c.loginUserPerDay)
    else if configAction == "api" then
      match (scope, w)
      case (Ip, Minute) => Some(c.apiIpPerMinute)
      case (Ip, Hour) => Some(c.apiIpPerHour)
      case (User, Minute) => Some(c.apiUserPerMinute)
      case (User, Hour) => Some(c.apiUserPerHour)
      case (_, Day) => None
    else
      None
  }

  /** The limit used when the configuration has no column for the request. */
  function FallbackLimit(scope: Scope, w: Window): int {
    match (scope, w)
    case (Ip, Minute) => 60
    case (Ip, Hour) => 1000
    case (Ip, Day) => 10000
    case (User, Minute) => 100
    case (User, Hour) => 2000
    case (User, Day) => 50000
  }

  /** The limit the limiter enforces on counter `Key(action, scope, _, w)`. */
  function Limit(c: RateLimitConfig, action: string, scope: Scope, w: Window): int {
    ConfiguredLimit(c, ConfigAction(action), scope, w).GetOr(FallbackLimit(scope, w))
  }

  /** The login-class actions share the login limits (their counters stay
    * separate, because keys carry the original action). */
  lemma LoginClassSharesLoginLimits(c: RateLimitConfig, action: string, scope: Scope, w: Window)
    requires action in ["register", "password_reset", "2fa"]
    ensures Limit(c, action, scope, w) == Limit(c, "login", scope, w)
    ensures ConfiguredLimit(c, ConfigAction(action), scope, w).Some?
  {
  }

  /** An action with no columns of its own, and the api day window, are
    * limited by the built-in fallbacks whatever the configuration says. */
  lemma UnconfiguredUsesFallback(c: RateLimitConfig, action: string, scope: Scope, w: Window)
    ensures ConfiguredLimit(c, ConfigAction(action), scope, w).None? <==>
      (ConfigAction(action) != "login" && (ConfigAction(action) != "api" || w == Day))
    ensures ConfiguredLimit(c, ConfigAction(action), scope, w).None? ==>
      Limit(c, action, scope, w) == FallbackLimit(scope, w)
  {
  }
}
