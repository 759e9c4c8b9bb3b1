# Rate limiting and address blocking of the sign-in backend

This project models, in Dafny, the request-throttling and IP-blocking layer of the Django
authentication backend of `Google-SignIn-SignUp`.

- **The limiter** (`rate_limiter.py`) counts each client address and each account in three
  sliding windows of one minute, one hour and one day, for each action. It keeps the counts either
  in sorted sets on a Redis server or, when that server was unreachable at start-up, in lists of
  timestamps in the process-local cache. A check compares the counts against the configured limits
  and the blocked-address table. It then reports a verdict with a retry delay and writes a visitor
  log row. Recording a request adds it to every window of the address scope and, when the
  account identifier is non-empty, to every window of the account scope as well.
- **The middleware** (`middleware.py`):
  - classifies each path as an action;
  - works out which account a request is for;
  - refuses requests over their limit with a 429;
  - records every outcome, its own refusals included;
  - turns failed requests on monitored paths into block-rule attempts.

  A second middleware refuses addresses that are blocked, with a 403.
- **The view decorator** (`decorators.py`) performs the same check around a single view, with its
  own wording and its own way of extracting the identifier.
- **The other parts:**
  - the blocked-address record with its lazily expiring status (`models.py`);
  - the block rules;
  - the administrative API views and the admin screen actions;
  - the maintenance command that clears counters, old logs and expired blocks;
  - the backup codes of the second factor.

Modules follow the system's structure:

- `Keys` holds the counter keys.
- `Policy` holds the configured limits.
- `Counters` models both stores as values, with pure pruning and recording steps.
- `Decision` holds the per-window figures, the tripped window and the verdict.
- `RateLimiter` holds the `Limiter` class, whose methods are proved against the functions of the
  modules above.
- `IntConversion` models Python's `int()` on request values, which the administrative views use.
- The remaining modules are `Http`, `Logs`, `Blocks`, `Middleware`, `Decorators`, `ApiViews`,
  `Admin`, `ClearCommand` and `TwoFactor`.

Time is an explicit number of seconds, `now`.

Things the model exposes about the code:

- **The two stores count differently.**
  - The sorted-set store removes scores in `[0, window_start]`, so an event exactly one window old
    is dropped. The cache keeps `ts >= window_start`, so the same event is kept.
  - Sorted-set members are `"{time}:{success}"`, so two requests with the same outcome in the same
    second count once, however many there are (`RateLimiter.SameSecondBurst`). In the cache each counts.
- **The cache shortens counter lifetimes.** Whenever a cache read drops an old timestamp, it
  rewrites the list with a 300-second lifetime, for every window. The 2-hour and 2-day lifetimes of
  the hour and day lists are lost until the next record (`Counters.PruneRewriteShortensLifetime`).
- **The middleware's refusals are themselves recorded.** A 429 from the middleware still passes
  through the response step, so it is recorded as a failure and can fire block rules.
- **A rule-created block starts active.** A block row created by a rule takes the column default
  `is_active=True`. The address is therefore blocked from the first failure, whatever the rule's
  `max_attempts` threshold.
- **The configuration view need not show what the limiter enforces.** The limiter reads the
  configuration table once, when its single instance is built at import time: the active row if
  there is one, otherwise a row named `default` that it creates with the default limits. Any
  exception on the way (in the lookup or in the creation, for example when an inactive row named
  `default` already exists and names are unique, `models.py:170`) makes it fall back to an unsaved
  stand-in object with the same limits. The configuration view queries the table afresh on every
  request. So an admin who edits the active row, or switches it off, changes what the view shows
  (a 404 in the second case) but not what the limiter enforces; and after a fallback the view
  shows whatever the table holds, a 404 or an active row the limiter does not use. The model
  keeps the two apart: the limiter's constructor takes the start-up outcome, and the view takes
  the table at the time of the call.

Where the program's own comments and help texts promise something the code does not do, the
model follows the code:

- The `max_attempts` help text reads "Max attempts before blocking" (`models.py:266`), and
  `_apply_block_rule` says it activates the block once the threshold is exceeded
  (`middleware.py:287`). A rule-created row is nonetheless active at once, so the code never waits
  for the threshold.
- The comment on `strict_paths` (`middleware.py:38-45`) names the paths that need stricter
  limiting. `_is_strict_path` is never called, so the list is never consulted.
- The fallback reason "Rate limit exceeded" (`middleware.py:192`, `decorators.py:61`) can never be
  shown for a refused request, because every refusal names at least one cause.

## Model

| member | source | states |
|---|---|---|
| Keys.ScopeKeysExactly | Google-SignIn-SignUp/apps/backend/authentication/rate_limiter.py:158-160 | The keys a scope checks are exactly the keys of its action, scope and identifier, one per window, each once |
| Keys.KeyNameHasPrefix | Google-SignIn-SignUp/apps/backend/authentication/rate_limiter.py:160 | Every counter key starts with `rate_limit:` |
| Keys.TtlCoversWindow | Google-SignIn-SignUp/apps/backend/authentication/rate_limiter.py:317-323 | Each key's lifetime on recording is twice its window |
| Keys.KeyNameInjective | Google-SignIn-SignUp/apps/backend/authentication/rate_limiter.py:160 | Distinct counters have distinct key strings when action names carry no colon, even if the identifier does |
| Keys.RateLimitKeys | Google-SignIn-SignUp/apps/backend/authentication/rate_limiter.py:88-95 | One `rate_limit:{action}:{identifier}:{window}` name per window, in order |
| Keys.RateLimitKeysMatchCounters | Google-SignIn-SignUp/apps/backend/authentication/rate_limiter.py:88-95 | The key builder names the limiter's counters only when given a scope-prefixed identifier |
| Policy.LoadConfig | Google-SignIn-SignUp/apps/backend/authentication/rate_limiter.py:42-82 | The active row found at start-up is adopted. Otherwise (no active row, or the lookup or creation raised) the created row or the stand-in object limits login-class actions to 5/20/100 per address and 3/10/50 per account and api to 60/1000 and 100/2000, with lockouts 900/600 and threshold 3; the created row is active |
| Policy.LoginClassSharesLoginLimits | Google-SignIn-SignUp/apps/backend/authentication/rate_limiter.py:145-153 | register, password_reset and 2fa are limited with the login columns |
| Policy.UnconfiguredUsesFallback | Google-SignIn-SignUp/apps/backend/authentication/rate_limiter.py:149-153 | A limit comes from the fallback exactly when no column exists for it: other actions, and the api day window |
| Counters.KeepFromMeaning | Google-SignIn-SignUp/apps/backend/authentication/rate_limiter.py:243-244 | The cache filter keeps exactly the timestamps at or after the window start, with their multiplicity |
| Counters.PruningAddsNothing | Google-SignIn-SignUp/apps/backend/authentication/rate_limiter.py:222-253 | Pruning never adds a member or a timestamp to any key |
| Counters.RecordAddsOneEvent | Google-SignIn-SignUp/apps/backend/authentication/rate_limiter.py:281-330 | Recording adds exactly the new member, or exactly one timestamp at the end |
| Counters.SameSecondCollapses | Google-SignIn-SignUp/apps/backend/authentication/rate_limiter.py:281-330 | A same-second, same-outcome repeat leaves a sorted set unchanged but lengthens the cached list |
| Counters.BoundaryEvent | Google-SignIn-SignUp/apps/backend/authentication/rate_limiter.py:222-247 | An event exactly at the window start is dropped by the sorted set and kept by the cache |
| Counters.SortedSetsCountAtMostCache | Google-SignIn-SignUp/apps/backend/authentication/rate_limiter.py:222-253 | For one history, the sorted-set count never exceeds the cache count |
| Counters.PruneRewriteShortensLifetime | Google-SignIn-SignUp/apps/backend/authentication/rate_limiter.py:246-247 | A pruning rewrite keeps the surviving timestamps but lets the list expire 300 s later, whatever the window |
| Counters.ApplyAllAt | Google-SignIn-SignUp/apps/backend/authentication/rate_limiter.py:158-176 | Over distinct keys, each key ends as if operated on alone |
| Decision.Stat | Google-SignIn-SignUp/apps/backend/authentication/rate_limiter.py:162-168 | The remaining count is `limit - count` while the count is under the limit and 0 once it has reached it, so it is never negative |
| Decision.LongestTripped | Google-SignIn-SignUp/apps/backend/authentication/rate_limiter.py:170-172 | The reported window exists iff some window tripped, and it is the longest tripped window |
| Decision.OverwriteKeepsLongest | Google-SignIn-SignUp/apps/backend/authentication/rate_limiter.py:158-172 | The loop's repeated overwrite of `blocked_window` leaves the longest tripped window |
| Decision.RetryAfter | Google-SignIn-SignUp/apps/backend/authentication/rate_limiter.py:436-457 | The retry delay is 0 iff neither scope tripped; otherwise it is the larger blocked window's length |
| Decision.RetryAfterZeroExactlyWithoutCounterTrip | Google-SignIn-SignUp/apps/backend/authentication/rate_limiter.py:130-141 | A refusal with a 0 delay is caused by an address block alone |
| Http.ClientIp | Google-SignIn-SignUp/apps/backend/authentication/rate_limiter.py:83-87 | The resolved address, or `127.0.0.1` when none is resolved; never empty |
| Logs.Saved | Google-SignIn-SignUp/apps/backend/authentication/models.py:248-251 | Saving changes only the unix timestamp: a zero stamp becomes the current time and any other stamp is kept, so a saved row is unstamped only when saved at time 0 |
| Logs.SaveStampsOnce | Google-SignIn-SignUp/apps/backend/authentication/models.py:248-251 | Re-saving keeps the first stamp |
| Logs.AuditLog.InsertVisitorLog | Google-SignIn-SignUp/apps/backend/authentication/models.py:248-251 | Appends the saved row and leaves the attempts table unchanged |
| Blocks.BlockCheckCases | Google-SignIn-SignUp/apps/backend/authentication/models.py:322-336 | Inactive rows never block and permanent rows always do; timed rows block through their expiry second; only the expired case writes |
| Blocks.BlockCheckComposes | Google-SignIn-SignUp/apps/backend/authentication/models.py:322-336 | The lazy switch-off never changes a later answer |
| Blocks.EscalateKeepsHistory | Google-SignIn-SignUp/apps/backend/authentication/middleware.py:260-300 | A rule firing adds one attempt, never switches a row off, and keeps its reason and rule |
| Blocks.FirstEscalationBlocks | Google-SignIn-SignUp/apps/backend/authentication/middleware.py:260-300 | A rule-created row is active from its first attempt |
| Blocks.DefaultRuleFirstFailure | Google-SignIn-SignUp/apps/backend/authentication/models.py:257-270 | With a default rule, the first failure blocks for one hour |
| Blocks.EscalateAllCounts | Google-SignIn-SignUp/apps/backend/authentication/middleware.py:232-300 | Each firing adds exactly one attempt to the address's row; other rows are unchanged |
| Blocks.BlockRegistry.IsBlocked | Google-SignIn-SignUp/apps/backend/authentication/models.py:322-336 | Answers the status of the row and saves the switch-off of an expired row |
| Blocks.BlockRegistry.IsIpBlocked | Google-SignIn-SignUp/apps/backend/authentication/rate_limiter.py:386-402 | Blocked iff a row exists that blocks now; a missing row changes nothing |
| Blocks.BlockRegistry.ApplyBlockRule | Google-SignIn-SignUp/apps/backend/authentication/middleware.py:260-300 | Fetches or creates the row and escalates it once |
| RateLimiter.ScopeLimitedIff | Google-SignIn-SignUp/apps/backend/authentication/rate_limiter.py:142-214 | A scope is limited iff some window's count reached its limit |
| RateLimiter.CheckVerdictMeaning | Google-SignIn-SignUp/apps/backend/authentication/rate_limiter.py:96-141 | The verdict is well formed and refuses exactly on an address trip, a named account's trip, or a block |
| RateLimiter.UnreachableStoreOnlyBlocks | Google-SignIn-SignUp/apps/backend/authentication/rate_limiter.py:222-253 | With a failing store and positive limits, only a block refuses |
| RateLimiter.CheckAddsNothing | Google-SignIn-SignUp/apps/backend/authentication/rate_limiter.py:96-141 | A check removes events and never adds one |
| RateLimiter.RecordTouchesOnlyItsKeys | Google-SignIn-SignUp/apps/backend/authentication/rate_limiter.py:254-385 | Recording writes exactly 3 or 6 keys, each gaining the event; every other key is unchanged |
| RateLimiter.ClearedKeysExactly | Google-SignIn-SignUp/apps/backend/authentication/rate_limiter.py:481-513 | A clear deletes exactly the named scopes' keys of the named action |
| RateLimiter.ClearWithoutActionKeepsAll | Google-SignIn-SignUp/apps/backend/authentication/rate_limiter.py:487-497 | Without an action, a clear deletes nothing |
| RateLimiter.BurstInSortedSet | Google-SignIn-SignUp/apps/backend/authentication/rate_limiter.py:281-302 | Any number of same-second records with one outcome adds exactly the one member `"{time}:{success}"` to a key's sorted set |
| RateLimiter.SameSecondBurst | Google-SignIn-SignUp/apps/backend/authentication/rate_limiter.py:215-247 | From empty stores, `n` same-second records count once in the sorted-set store and `n` times in the cache, in every window |
| RateLimiter.BurstAgainstLoginLimit | Google-SignIn-SignUp/apps/backend/authentication/rate_limiter.py:179-213 | Against the default account login limit of 3 per minute, a same-second burst never trips the sorted-set store, while the cache trips exactly from the third record on |
| RateLimiter.BurstInCache | Google-SignIn-SignUp/apps/backend/authentication/rate_limiter.py:358-385 | Each same-second record appends one timestamp to a key's cached list |
| RateLimiter.Limiter.GetRequestCount | Google-SignIn-SignUp/apps/backend/authentication/rate_limiter.py:215-253 | Returns the count from the store in use and leaves that store pruned |
| RateLimiter.Limiter.CheckScope | Google-SignIn-SignUp/apps/backend/authentication/rate_limiter.py:142-214 | Reports the scope's figures and its longest tripped window, as read from the starting state |
| RateLimiter.Limiter.CheckRateLimit | Google-SignIn-SignUp/apps/backend/authentication/rate_limiter.py:96-141 | Returns the verdict of the starting state; prunes both scopes, applies the block check and appends the log row |
| RateLimiter.Limiter.RecordRequest | Google-SignIn-SignUp/apps/backend/authentication/rate_limiter.py:254-273 | Records for the address and, for a non-empty identifier, for the account |
| RateLimiter.Limiter.GetRateLimitStatus | Google-SignIn-SignUp/apps/backend/authentication/rate_limiter.py:458-480 | Without Redis, reports nothing and changes nothing; otherwise reports both scopes' figures |
| RateLimiter.Limiter.ClearRateLimit | Google-SignIn-SignUp/apps/backend/authentication/rate_limiter.py:481-513 | Deletes exactly the cleared keys from Redis; without Redis, changes nothing |
| RateLimiter.Limiter.ClearAllCounters | Google-SignIn-SignUp/apps/backend/authentication/management/commands/clear_rate_limits.py:66-79 | Deletes every `rate_limit:` key on the Redis server |
| Middleware.ApiExactlyOutsideAuthAndAdmin | Google-SignIn-SignUp/apps/backend/authentication/middleware.py:140-157 | A path is `api` iff it contains neither `/auth/` nor `/admin/`; the action is always one of seven |
| Middleware.LoginLimitsIffMarker | Google-SignIn-SignUp/apps/backend/authentication/middleware.py:140-157 | A path uses the login limits iff it contains a login-class marker |
| Middleware.StrictPathsUseLoginLimits | Google-SignIn-SignUp/apps/backend/authentication/middleware.py:38-45 | Every strict path is limited with the login columns |
| Middleware.MonitoredPathsAreNotApi | Google-SignIn-SignUp/apps/backend/authentication/middleware.py:47-51 | A monitored path is never classified as `api` |
| Middleware.FirstField | Google-SignIn-SignUp/apps/backend/authentication/middleware.py:166-176 | Returns nothing iff no listed field is present; otherwise the value of a listed field |
| Middleware.UserIdentifierSources | Google-SignIn-SignUp/apps/backend/authentication/middleware.py:158-178 | The account, else a POST identifier field, with form fields before body fields; other anonymous requests have none |
| Middleware.MatchingRulesExactly | Google-SignIn-SignUp/apps/backend/authentication/middleware.py:232-259 | Exactly the active rules with a matching pattern fire, with multiplicity; a bad regex falls back to substring |
| Middleware.SuspiciousActivityCounts | Google-SignIn-SignUp/apps/backend/authentication/middleware.py:232-251 | A failed request adds one attempt per fired rule |
| Middleware.ReasonsMeaning | Google-SignIn-SignUp/apps/backend/authentication/middleware.py:179-213 | Each cause is named once, in order; a refusal always names at least one |
| Middleware.SingleCauseMessages | Google-SignIn-SignUp/apps/backend/authentication/middleware.py:179-213 | A single-cause refusal's message names just that cause |
| Middleware.AllCausesMessage | Google-SignIn-SignUp/apps/backend/authentication/middleware.py:179-213 | An all-causes refusal joins the three reasons with ". " |
| Middleware.BlockOnlyRefusalSaysRetryNow | Google-SignIn-SignUp/apps/backend/authentication/middleware.py:179-213 | A block-only refusal carries `Retry-After: 0` |
| Middleware.PassedCheckHeaders | Google-SignIn-SignUp/apps/backend/authentication/middleware.py:214-231 | A passed check adds the per-minute limit, a positive remaining count and no retry header |
| Middleware.GateAgreesWithCheck | Google-SignIn-SignUp/apps/backend/authentication/middleware.py:312-342 | The gate refuses, with a 403, exactly the resolved addresses the check reports as blocked |
| Middleware.RateLimitMiddleware.ProcessRequest | Google-SignIn-SignUp/apps/backend/authentication/middleware.py:53-84 | Excluded paths pass untouched; otherwise the request is checked and refused with the 429 or given the verdict |
| Middleware.RateLimitMiddleware.HandleSuspiciousActivity | Google-SignIn-SignUp/apps/backend/authentication/middleware.py:232-251 | The table after every matching rule has escalated the address once |
| Middleware.RateLimitMiddleware.ProcessResponse | Google-SignIn-SignUp/apps/backend/authentication/middleware.py:85-118 | Records the outcome, adds headers from an attached verdict, and feeds monitored failures to the rules |
| Middleware.RateLimitMiddleware.Handle | Google-SignIn-SignUp/apps/backend/authentication/middleware.py:53-118 | The view runs only when the request passes; every response, the 429 included, is recorded |
| Middleware.IPBlockMiddleware.ProcessRequest | Google-SignIn-SignUp/apps/backend/authentication/middleware.py:312-342 | Refuses a blocked resolved address with a 403 and saves an expiry switch-off |
| Decorators.BoundDecorators | Google-SignIn-SignUp/apps/backend/authentication/decorators.py:104-121 | The four ready-made decorators check both scopes, refuse over the limit, and share the login limits |
| Decorators.IdentifiersDisagreeOnPostOrder | Google-SignIn-SignUp/apps/backend/authentication/decorators.py:31-39 | For an anonymous POST, the decorator prefers the body `email` where the middleware prefers the form |
| Decorators.IdentifiersAgreeWhenSignedIn | Google-SignIn-SignUp/apps/backend/authentication/decorators.py:31-33 | Signed-in requests are attributed alike by both layers; `per_user=False` names no account |
| Decorators.PerIpOffStillChecksAddress | Google-SignIn-SignUp/apps/backend/authentication/decorators.py:42-49 | With `per_user` on, turning `per_ip` off changes no refusal |
| Decorators.RefusalsAgreeButForWording | Google-SignIn-SignUp/apps/backend/authentication/decorators.py:49-78 | The decorator's 429 has the middleware's status, headers and delay; only its wording and action field differ |
| Decorators.RateLimitedView.Wrapper | Google-SignIn-SignUp/apps/backend/authentication/decorators.py:24-98 | A checked request goes straight to the view; otherwise the request is refused, or checked, passed to the view once and recorded |
| ApiViews.UnblockIpView | Google-SignIn-SignUp/apps/backend/authentication/api_views.py:211-251 | 400 without an address; 404 without an active row; otherwise that row is switched off and the counters are left unchanged |
| ApiViews.AdminBlockFields | Google-SignIn-SignUp/apps/backend/authentication/api_views.py:252-312 | What an admin block sets, and that it keeps the rule, the attempts and a permanent block's expiry |
| ApiViews.AdminBlockIdempotent | Google-SignIn-SignUp/apps/backend/authentication/api_views.py:252-312 | Blocking twice with the same arguments gives the same row |
| ApiViews.AdminBlockHolds | Google-SignIn-SignUp/apps/backend/authentication/api_views.py:252-312 | A permanent block holds always; a timed one holds exactly until its end |
| ApiViews.BlockIpView | Google-SignIn-SignUp/apps/backend/authentication/api_views.py:252-312 | 500 when `int()` refuses the block length, before the address is looked at; otherwise 400 without an address; otherwise the row is created or updated as an admin block for the converted number of hours |
| ApiViews.RequestedHoursCases | Google-SignIn-SignUp/apps/backend/authentication/api_views.py:257 | The block length is 24 hours when absent, the number a digit string spells, the whole part of a float, and a failure for null or for text that is not a number |
| IntConversion.TextRoundTrip | Google-SignIn-SignUp/apps/backend/authentication/api_views.py:257 | `int(str(n)) == n` for every integer, also with surrounding whitespace |
| IntConversion.DecimalRoundTrip | Google-SignIn-SignUp/apps/backend/authentication/api_views.py:257 | The decimal digits of a natural number read back as that number |
| IntConversion.NoDigitsNoNumber | Google-SignIn-SignUp/apps/backend/authentication/api_views.py:317 | `int()` refuses any string without a digit |
| IntConversion.TruncationBounds | Google-SignIn-SignUp/apps/backend/authentication/api_views.py:257 | `int()` of a float keeps its sign and drops less than one, toward zero |
| ApiViews.PageMeaning | Google-SignIn-SignUp/apps/backend/authentication/api_views.py:313-380 | A valid page holds the rows at positions offset..offset+size in order; the page count is the ceiling |
| ApiViews.EveryRowOnItsPage | Google-SignIn-SignUp/apps/backend/authentication/api_views.py:313-380 | Every row is on exactly one page, and that page is within the page count |
| ApiViews.BadPageSizesFail | Google-SignIn-SignUp/apps/backend/authentication/api_views.py:313-380 | A page size of 0, or a negative slice, fails |
| ApiViews.VisitorLogsView | Google-SignIn-SignUp/apps/backend/authentication/api_views.py:313-380 | 500 exactly when `page`, `page_size` or `days` is not a number or the page cannot be computed; otherwise the requested page |
| ApiViews.DefaultListing | Google-SignIn-SignUp/apps/backend/authentication/api_views.py:313-380 | With no parameters, the listing shows the first 50 rows |
| ApiViews.ListingFromQuery | Google-SignIn-SignUp/apps/backend/authentication/api_views.py:317-340 | A page and page size sent as numbers give that page; a page parameter without a digit fails the listing |
| ApiViews.RateLimitConfigView | Google-SignIn-SignUp/apps/backend/authentication/api_views.py:61-108 | 404 iff the table has no active row at the time of the call; otherwise that row, which need not be the configuration the limiter loaded at start-up |
| Admin.StatusAgreesWithCheck | Google-SignIn-SignUp/apps/backend/authentication/admin.py:149-157 | The status column shows an active block iff the check blocks, and `Expired` iff the check would switch the row off |
| Admin.UnblockIps | Google-SignIn-SignUp/apps/backend/authentication/admin.py:160-162 | Switches the selected rows off and counts the rows that exist |
| Admin.MakePermanent | Google-SignIn-SignUp/apps/backend/authentication/admin.py:165-167 | Makes the selected rows permanent and active |
| Admin.ExtendBlock | Google-SignIn-SignUp/apps/backend/authentication/admin.py:170-174 | Sets the selected rows to expire 24 h from now and switches them on |
| Admin.BulkActionEffects | Google-SignIn-SignUp/apps/backend/authentication/admin.py:160-174 | Unblocked rows never block, permanent rows always block, extended rows block through the next 24 h |
| ClearCommand.DispatchPrecedence | Google-SignIn-SignUp/apps/backend/authentication/management/commands/clear_rate_limits.py:48-60 | `--all` wins over `--expired`, which wins over the targeted clear; with no target, the command fails |
| ClearCommand.KeepWhereMeaning | Google-SignIn-SignUp/apps/backend/authentication/management/commands/clear_rate_limits.py:134-148 | An element survives the filter iff it was present and is kept |
| ClearCommand.RetentionExactly | Google-SignIn-SignUp/apps/backend/authentication/management/commands/clear_rate_limits.py:134-148 | A log row or attempt stays iff its time is not before now minus `days` days |
| ClearCommand.ClearOldLogs | Google-SignIn-SignUp/apps/backend/authentication/management/commands/clear_rate_limits.py:134-148 | Deletes exactly the old rows and returns how many of each were deleted |
| ClearCommand.SweepIsTheLazyCheck | Google-SignIn-SignUp/apps/backend/authentication/management/commands/clear_rate_limits.py:85-91 | The expiry sweep matches the per-row check on every row, and changes no answer now or later |
| ClearCommand.DeactivateExpiredBlocks | Google-SignIn-SignUp/apps/backend/authentication/management/commands/clear_rate_limits.py:85-91 | Switches off the expired timed rows and counts them |
| ClearCommand.ClearedKeysSplit | Google-SignIn-SignUp/apps/backend/authentication/management/commands/clear_rate_limits.py:115-130 | Clearing the address and then the account deletes the same keys as one combined clear |
| ClearCommand.ClearSpecificLimits | Google-SignIn-SignUp/apps/backend/authentication/management/commands/clear_rate_limits.py:113-132 | Deletes the named counters of the action and switches off the address's active row |
| ClearCommand.ClearAllData | Google-SignIn-SignUp/apps/backend/authentication/management/commands/clear_rate_limits.py:62-93 | Clears every Redis counter, the old logs and the expired blocks |
| ClearCommand.ClearExpiredData | Google-SignIn-SignUp/apps/backend/authentication/management/commands/clear_rate_limits.py:95-111 | Clears the old logs and the expired blocks, but no counter |
| ClearCommand.HandleCommand | Google-SignIn-SignUp/apps/backend/authentication/management/commands/clear_rate_limits.py:48-60 | Runs the dispatched branch with that branch's effects; an error changes nothing |
| TwoFactor.UnusedCountBounds | Google-SignIn-SignUp/apps/backend/authentication/models.py:136-137 | The unused count is at most the code count, and equals it iff no code is used |
| TwoFactor.CodeShape | Google-SignIn-SignUp/apps/backend/authentication/models.py:81-84 | A code has 8 characters from the 32-character alphabet, with no I, O, 0 or 1 |
| TwoFactor.FreshCodesVerify | Google-SignIn-SignUp/apps/backend/authentication/models.py:125-127 | Each fresh code accepts its own plaintext; all fresh codes are unused |
| TwoFactor.UsedCodeRejects | Google-SignIn-SignUp/apps/backend/authentication/models.py:125-133 | A used code accepts nothing |
| TwoFactor.UserTwoFactor.GenerateBackupCodes | Google-SignIn-SignUp/apps/backend/authentication/models.py:75-95 | Replaces all codes with `max(count, 0)` fresh ones from the random source (ten by default), and sets the counter to `count` |
| TwoFactor.UserTwoFactor.MarkAsUsed | Google-SignIn-SignUp/apps/backend/authentication/models.py:129-138 | Marks the code used at `now` and recounts the unused codes |
| TwoFactor.GenerationCountAgrees | Google-SignIn-SignUp/apps/backend/authentication/models.py:80-92 | After generation, the counter matches the unused codes iff `count >= 0` |
| TwoFactor.UseLowersCount | Google-SignIn-SignUp/apps/backend/authentication/models.py:129-138 | Using an unused code lowers the count by one; reusing a used code leaves it unchanged |

## Left out

- **Network connections.** The Redis connection and its start-up ping, `REDIS_URL`, and `logger`
  output are not modelled. Whether Redis answered at start-up is a constructor argument.
- **Exceptions.** Exceptions inside store calls are modelled through one flag, `backendDown`: the
  store counts 0 and writes nothing. No operation of the model sets that flag; it stands for a
  store that fails, and a caller sets it. Database exceptions are not modelled.
- **Concurrency.** Concurrent requests sharing counters or rows are not modelled. Each operation
  is one atomic step.
- **Regular expressions.** `re.search` is a function parameter whose result is "found", "not
  found" or "pattern does not compile".
- **Hashing and randomness.** SHA-256 is a function parameter, and so is `secrets.choice`; the
  model states equalities of hashes, not properties of the hash function.
- **Encryption.** The Fernet encryption of the TOTP secret and the encryption-key lookup are not
  modelled. They depend on a foreign cryptography library.
- **Visitor-log fields.** `_log_attempt` stores the user agent, the session and the user foreign
  key. The model keeps only the columns the limiting layer reads.
- **Start-up configuration row.** The limiter creates a default configuration row at start-up. The
  model uses the values of that row but not the database write.
- LoadConfig: the stand-in object built when the start-up load raises has no `name` and no
  `is_active` attribute. The model gives it the created row's values for both; the limiter reads
  neither.
- **Status and dashboard views.** The `rate_limit_status` and `security_dashboard` views are
  aggregation and presentation only. Their core call, `GetRateLimitStatus`, is modelled.
- **Admin list filters.** The admin screens' list and filter configuration is not modelled.
- **Log listing: filtering and ordering.** The visitor-log listing takes rows that are already
  filtered and sorted newest first. The query-string filters and the database ordering are not
  modelled.
- **`int()` on text.** Python also accepts underscores between digits, non-ASCII digits and
  non-ASCII whitespace. The model refuses those strings. Non-finite floats (which raise) are not
  representable as `real`.
- **Overflowing lengths.** A block length or `days` value so large that `timedelta` overflows
  raises `OverflowError`, and so a 500. The model has unbounded times and does not fail there.
- BlockIpView: `ip_address` and `reason` are strings or absent. A JSON null, number or boolean
  there is not modelled: a null `reason` reaches a non-null column and a numeric address fails
  the address field's preparation, each a 500 the model does not produce.
- UnblockIpView: `ip_address` is a string or absent. A JSON null, number or boolean there is not
  modelled.
- DecoratorIdentifier: body values are strings. A JSON `0`, `false` or null under `email` names
  no account in the program, through the truthiness test on the identifier, and a non-zero
  number would be rendered with `str()` into the key; neither is modelled.
- UserIdentifier: body and form values are strings. JSON null, numbers and booleans in the body
  are not modelled.
- BlockIpView: `is_permanent` is taken as a boolean. Python's truthiness of other
  JSON values (a non-empty string such as `"false"` counts as true) is not modelled.
- **Decorator and middleware nesting.** `Handle` and `Wrapper` take the view's answer as an opaque
  response. A decorated view inside the middleware is not composed as one call chain.
- **The `rate_limit_checked` flag.** The flag the decorator sets is modelled as an attribute. The
  middleware does not read it, and neither does the model.
- **Second-factor checks.** No limiter over second-factor attempts exists in the modelled code.
  The attempts table appears only in the retention sweep.
- **Command output.** The command's console output is not modelled. The counts it prints are the
  values the methods return.
