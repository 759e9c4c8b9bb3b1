/** The maintenance command that clears limiter data: all of it, only the
  * expired part, or the counters of one address or account. */
module ClearCommand {
  import opened Common
  import opened Keys
  import opened Logs
  import opened Blocks
  import opened RateLimiter

  /** The command-line options. */
  datatype CommandOptions = CommandOptions(ip: Option<string>, user: Option<string>, action: string,
                                           all: bool, expired: bool, days: int)

  /** The options with nothing given: action `login`, 30 days kept. */
  const DefaultOptions: CommandOptions := CommandOptions(None, None, "login", false, false, 30)

  /** What the command does. */
  datatype Command =
    | ClearAll(days: int)
    | ClearExpired(days: int)
    | ClearSpecific(ip: Option<string>, user: Option<string>, action: string)
    | CommandError(message: string)

  /** Which branch the options select, first match. */
  function Dispatch(o: CommandOptions): Command {
    if o.all then ClearAll(o.days)
    else if o.expired then ClearExpired(o.days)
    else if Truthy(o.ip) || Truthy(o.user) then ClearSpecific(o.ip, o.user, o.action)
    else CommandError("Please specify --ip, --user, --all, or --expired")
  }

  /** `--all` wins over everything, `--expired` over the targeted clear, and
    * with no target at all the command fails. */
  lemma DispatchPrecedence(o: CommandOptions)
    ensures o.all ==> Dispatch(o).ClearAll?
    ensures !o.all && o.expired ==> Dispatch(o).ClearExpired?
    ensures Dispatch(o).ClearSpecific? <==> !o.all && !o.expired && (Truthy(o.ip) || Truthy(o.user))
    ensures Dispatch(o).CommandError? <==> !o.all && !o.expired && !Truthy(o.ip) && !Truthy(o.user)
    ensures Dispatch(DefaultOptions).CommandError?
  {
  }

  /** The elements of `xs` that satisfy `keep`, in order. */
  function KeepWhere<T>(xs: seq<T>, keep: T -> bool): seq<T>
    decreases |xs|
  {
    if xs == [] then []
    else KeepWhere(xs[..|xs| - 1], keep) + (if keep(xs[|xs| - 1]) then [xs[|xs| - 1]] else [])
  }

  /** Filtering keeps every occurrence of a kept element and drops every
    * other one. */
  lemma {:induction false} KeepWhereCounts<T>(xs: seq<T>, keep: T -> bool, x: T)
    ensures multiset(KeepWhere(xs, keep))[x] == if keep(x) then multiset(xs)[x] else 0
    decreases |xs|
  {
    if xs != [] {
      var front := xs[..|xs| - 1];
      var last := xs[|xs| - 1];
      KeepWhereCounts(front, keep, x);
      assert xs == front + [last];
      assert multiset(xs) == multiset(front) + multiset{last};
      assert multiset(KeepWhere(xs, keep)) == multiset(KeepWhere(front, keep)) + multiset(if keep(last) then [last] else []);
    }
  }

  /** An element survives the filter iff it was there and is kept. */
  lemma KeepWhereMeaning<T>(xs: seq<T>, keep: T -> bool, x: T)
    ensures x in KeepWhere(xs, keep) <==> x in xs && keep(x)
  {
    KeepWhereCounts(xs, keep, x);
    assert x in KeepWhere(xs, keep) <==> multiset(KeepWhere(xs, keep))[x] > 0;
    assert x in xs <==> multiset(xs)[x] > 0;
  }

  /** Filtering never lengthens a sequence. */
  lemma {:induction false} KeepWhereShrinks<T>(xs: seq<T>, keep: T -> bool)
    ensures |KeepWhere(xs, keep)| <= |xs|
    decreases |xs|
  {
    if xs != [] {
      KeepWhereShrinks(xs[..|xs| - 1], keep);
    }
  }

  /** The start of the retained period, `days` days before `now`. */
  function Cutoff(now: int, days: int): int {
    now - days * 86400
  }

  function VisitorLogsKept(logs: seq<VisitorLog>, cutoff: int): seq<VisitorLog> {
    KeepWhere(logs, (l: VisitorLog) => l.timestamp >= cutoff)
  }

  function AttemptsKept(attempts: seq<TwoFactorAttempt>, cutoff: int): seq<TwoFactorAttempt> {
    KeepWhere(attempts, (a: TwoFactorAttempt) => a.createdAt >= cutoff)
  }

  /** The retention sweep deletes exactly the rows older than the cutoff:
    * a row stays iff its time is at or after the cutoff. */
  lemma RetentionExactly(logs: seq<VisitorLog>, attempts: seq<TwoFactorAttempt>, now: int, days: int,
                         l: VisitorLog, a: TwoFactorAttempt)
    ensures l in VisitorLogsKept(logs, Cutoff(now, days)) <==> l in logs && !(l.timestamp < now - days * 86400)
    ensures a in AttemptsKept(attempts, Cutoff(now, days)) <==> a in attempts && !(a.createdAt < now - days * 86400)
  {
    KeepWhereMeaning(logs, (l: VisitorLog) => l.timestamp >= Cutoff(now, days), l);
    KeepWhereMeaning(attempts, (a: TwoFactorAttempt) => a.createdAt >= Cutoff(now, days), a);
  }

  /** Delete the visitor logs and second-factor attempts older than `days`
    * days; report how many of each went. */
  method ClearOldLogs(audit: AuditLog, days: int, now: int) returns (logCount: int, attemptCount: int)
    modifies audit
    ensures audit.visitorLogs == VisitorLogsKept(old(audit.visitorLogs), Cutoff(now, days))
    ensures audit.twoFactorAttempts == AttemptsKept(old(audit.twoFactorAttempts), Cutoff(now, days))
    ensures logCount == |old(audit.visitorLogs)| - |audit.visitorLogs| >= 0
    ensures attemptCount == |old(audit.twoFactorAttempts)| - |audit.twoFactorAttempts| >= 0
  {
    var cutoff := now - days * 86400;
    var keptLogs := VisitorLogsKept(audit.visitorLogs, cutoff);
    var keptAttempts := AttemptsKept(audit.twoFactorAttempts, cutoff);
    KeepWhereShrinks(audit.visitorLogs, (l: VisitorLog) => l.timestamp >= cutoff);
    KeepWhereShrinks(audit.twoFactorAttempts, (a: TwoFactorAttempt) => a.createdAt >= cutoff);
    logCount := |audit.visitorLogs| - |keptLogs|;
    attemptCount := |audit.twoFactorAttempts| - |keptAttempts|;
    audit.visitorLogs := keptLogs;
    audit.twoFactorAttempts := keptAttempts;
  }

  /** A row the expiry sweep switches off: on, timed, and past its expiry. */
  predicate ExpiredRow(r: BlockRecord, now: int) {
    r.active && !r.permanent && r.expiresAt.Some? && r.expiresAt.value < now
  }

  function DeactivatedExpired(records: map<string, BlockRecord>, now: int): map<string, BlockRecord> {
    map ip | ip in records :: if ExpiredRow(records[ip], now) then records[ip].(active := false) else records[ip]
  }

  /** The bulk sweep does to every row what the status check does to one,
    * so it changes no answer of the check now or later. */
  lemma SweepIsTheLazyCheck(records: map<string, BlockRecord>, now: int)
    ensures DeactivatedExpired(records, now).Keys == records.Keys
    ensures forall ip :: ip in records ==> DeactivatedExpired(records, now)[ip] == AfterBlockCheck(records[ip], now)
    ensures forall ip, t :: ip in records && now <= t ==>
      BlockedNow(DeactivatedExpired(records, now)[ip], t) == BlockedNow(records[ip], t)
  {
    forall ip, t | ip in records && now <= t
      ensures BlockedNow(DeactivatedExpired(records, now)[ip], t) == BlockedNow(records[ip], t)
    {
      BlockCheckComposes(records[ip], now, t);
    }
  }

  /** Switch off every expired timed row; report how many. */
  method DeactivateExpiredBlocks(registry: BlockRegistry, now: int) returns (count: int)
    modifies registry
    ensures registry.records == DeactivatedExpired(old(registry.records), now)
    ensures count == |set ip | ip in old(registry.records) && ExpiredRow(old(registry.records)[ip], now)|
  {
    var rows := registry.records;
    count := |set ip | ip in rows && ExpiredRow(rows[ip], now)|;
    registry.records := DeactivatedExpired(rows, now);
  }

  /** The block table after the targeted clear: the address's active row,
    * if any, is switched off; an account clear touches no row. */
  function RecordsAfterSpecificClear(records: map<string, BlockRecord>, ip: Option<string>): map<string, BlockRecord> {
    if Truthy(ip) && ip.value in records && records[ip.value].active
    then records[ip.value := records[ip.value].(active := false)]
    else records
  }

  /** Clearing the address and the account one after the other deletes
    * the keys of clearing both at once. */
  lemma ClearedKeysSplit(ip: Option<string>, user: Option<string>, action: Option<string>)
    ensures ClearedKeys(ip, None, action) + ClearedKeys(None, user, action) == ClearedKeys(ip, user, action)
  {
    var both := ClearList(ip, user, action);
    assert both == ClearList(ip, None, action) + ClearList(None, user, action);
  }

  /** Clear the counters of one address and/or account for an action, and
    * unblock the address. */
  method ClearSpecificLimits(limiter: Limiter, registry: BlockRegistry, ip: Option<string>, user: Option<string>, action: string)
    modifies limiter, registry
    ensures limiter.backendDown == old(limiter.backendDown) && limiter.cache == old(limiter.cache)
    ensures limiter.redisAvailable && !limiter.backendDown ==>
      limiter.sortedSets == old(limiter.sortedSets) - ClearedKeys(ip, user, Some(action))
    ensures !limiter.redisAvailable || limiter.backendDown ==> limiter.sortedSets == old(limiter.sortedSets)
    ensures registry.records == RecordsAfterSpecificClear(old(registry.records), ip)
  {
    ClearedKeysSplit(ip, user, Some(action));
    ghost var before := limiter.sortedSets;
    if Truthy(ip) {
      limiter.ClearRateLimit(ip, None, Some(action));
      var addr := ip.value;
      if addr in registry.records && registry.records[addr].active {
        registry.records := registry.records[addr := registry.records[addr].(active := false)];
      }
    }
    ghost var middle := limiter.sortedSets;
    assert limiter.redisAvailable && !limiter.backendDown ==> middle == before - ClearedKeys(ip, None, Some(action));
    if Truthy(user) {
      limiter.ClearRateLimit(None, user, Some(action));
    }
  }

  /** `--all`: every counter, the old logs, the expired blocks. */
  method ClearAllData(limiter: Limiter, registry: BlockRegistry, audit: AuditLog, days: int, now: int)
    modifies limiter, registry, audit
    ensures limiter.backendDown == old(limiter.backendDown) && limiter.cache == old(limiter.cache)
    ensures limiter.redisAvailable && !limiter.backendDown ==> limiter.sortedSets == map[]
    ensures !limiter.redisAvailable || limiter.backendDown ==> limiter.sortedSets == old(limiter.sortedSets)
    ensures audit.visitorLogs == VisitorLogsKept(old(audit.visitorLogs), Cutoff(now, days))
    ensures audit.twoFactorAttempts == AttemptsKept(old(audit.twoFactorAttempts), Cutoff(now, days))
    ensures registry.records == DeactivatedExpired(old(registry.records), now)
  {
    limiter.ClearAllCounters();
    var _, _ := ClearOldLogs(audit, days, now);
    var _ := DeactivateExpiredBlocks(registry, now);
  }

  /** `--expired`: the old logs and the expired blocks; no counter. */
  method ClearExpiredData(registry: BlockRegistry, audit: AuditLog, days: int, now: int)
    modifies registry, audit
    ensures audit.visitorLogs == VisitorLogsKept(old(audit.visitorLogs), Cutoff(now, days))
    ensures audit.twoFactorAttempts == AttemptsKept(old(audit.twoFactorAttempts), Cutoff(now, days))
    ensures registry.records == DeactivatedExpired(old(registry.records), now)
  {
    var _, _ := ClearOldLogs(audit, days, now);
    var _ := DeactivateExpiredBlocks(registry, now);
  }

  /** The command: dispatch on the options, then run the selected clear;
    * an error changes nothing. */
  method HandleCommand(o: CommandOptions, limiter: Limiter, registry: BlockRegistry, audit: AuditLog, now: int)
    returns (cmd: Command)
    modifies limiter, registry, audit
    ensures cmd == Dispatch(o)
    ensures limiter.backendDown == old(limiter.backendDown) && limiter.cache == old(limiter.cache)
    ensures cmd.CommandError? || cmd.ClearExpired? || !limiter.redisAvailable || limiter.backendDown ==>
      limiter.sortedSets == old(limiter.sortedSets)
    ensures cmd.ClearAll? && limiter.redisAvailable && !limiter.backendDown ==> limiter.sortedSets == map[]
    ensures cmd.ClearSpecific? && limiter.redisAvailable && !limiter.backendDown ==>
      limiter.sortedSets == old(limiter.sortedSets) - ClearedKeys(o.ip, o.user, Some(o.action))
    ensures cmd.ClearAll? || cmd.ClearExpired? ==>
      && audit.visitorLogs == VisitorLogsKept(old(audit.visitorLogs), Cutoff(now, o.days))
      && audit.twoFactorAttempts == AttemptsKept(old(audit.twoFactorAttempts), Cutoff(now, o.days))
      && registry.records == DeactivatedExpired(old(registry.records), now)
    ensures cmd.ClearSpecific? || cmd.CommandError? ==>
      audit.visitorLogs == old(audit.visitorLogs) && audit.twoFactorAttempts == old(audit.twoFactorAttempts)
    ensures cmd.ClearSpecific? ==> registry.records == RecordsAfterSpecificClear(old(registry.records), o.ip)
    ensures cmd.CommandError? ==> registry.records == old(registry.records)
  {
    cmd := Dispatch(o);
    if o.all {
      ClearAllData(limiter, registry, audit, o.days, now);
    } else if o.expired {
      ClearExpiredData(registry, audit, o.days, now);
    } else if Truthy(o.ip) || Truthy(o.user) {
      ClearSpecificLimits(limiter, registry, o.ip, o.user, o.action);
    }
  }
}
