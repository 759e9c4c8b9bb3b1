/** The limiter: per-address and per-account sliding-window checks over
  * the counter store, the recording of requests, the read-only status
  * report and the administrative clearing of counters. */
module RateLimiter {
  import opened Common
  import opened Keys
  import opened Policy
  import opened Counters
  import opened Decision
  import opened Http
  import opened Logs
  import opened Blocks

  /** The figures a check of one scope reports for every window, read from
    * the stores `s` as they were when the check began. */
  function ScopeStats(s: Stores, mode: Mode, c: RateLimitConfig, action: string, scope: Scope, id: string, now: int): map<Window, WindowStat> {
    map w | w in AllWindows :: WindowStatOf(s, mode, c, Key(action, scope, id, w), now)
  }

  /** The figures of one counter: its count against its limit. */
  function WindowStatOf(s: Stores, mode: Mode, c: RateLimitConfig, k: Key, now: int): WindowStat {
    Stat(WindowCount(s, mode, k, now), Limit(c, k.action, k.scope, k.window))
  }

  /** The information reported for a scope. */
  function ScopeReport(s: Stores, mode: Mode, c: RateLimitConfig, action: string, scope: Scope, id: string, now: int): ScopeInfo {
    InfoOf(ScopeStats(s, mode, c, action, scope, id, now))
  }

  /** The account scope is consulted only for a non-empty identifier. */
  function UserReport(s: Stores, mode: Mode, c: RateLimitConfig, action: string, user: Option<string>, now: int): ScopeInfo {
    if Truthy(user) then ScopeReport(s, mode, c, action, User, user.value, now) else NoInfo
  }

  /** The verdict of one check, as a function of the state it starts from. */
  function CheckVerdict(s: Stores, mode: Mode, c: RateLimitConfig, action: string, ip: string, user: Option<string>,
                        records: map<string, BlockRecord>, now: int): Verdict
  {
    var ipInfo := ScopeReport(s, mode, c, action, Ip, ip, now);
    var userInfo := UserReport(s, mode, c, action, user, now);
    Verdict(AnyTripped(ipInfo.stats), Truthy(user) && AnyTripped(userInfo.stats),
            ip in records && BlockedNow(records[ip], now),
            ipInfo, userInfo, RetryAfter(ipInfo, userInfo))
  }

  /** The stores after one check: the address keys, then (for a non-empty
    * identifier) the account keys, are pruned. */
  function CheckedStores(s: Stores, mode: Mode, action: string, ip: string, user: Option<string>, now: int): Stores {
    var afterIp := ApplyAll(s, mode, Prune, ScopeKeys(action, Ip, ip), now);
    if Truthy(user) then ApplyAll(afterIp, mode, Prune, ScopeKeys(action, User, user.value), now) else afterIp
  }

  /** The stores after one request was recorded. */
  function RecordedRequest(s: Stores, mode: Mode, action: string, ip: string, user: Option<string>, success: bool, now: int): Stores {
    var afterIp := ApplyAll(s, mode, Add(success), ScopeKeys(action, Ip, ip), now);
    if Truthy(user) then ApplyAll(afterIp, mode, Add(success), ScopeKeys(action, User, user.value), now) else afterIp
  }

  /** The keys recording writes: three per address, three more per account. */
  function TouchedKeys(action: string, ip: string, user: Option<string>): seq<Key> {
    ScopeKeys(action, Ip, ip) + (if Truthy(user) then ScopeKeys(action, User, user.value) else [])
  }

  /** The block table after the check's block lookup for `ip`. */
  function RecordsAfterCheck(records: map<string, BlockRecord>, ip: string, now: int): map<string, BlockRecord> {
    if ip in records then records[ip := AfterBlockCheck(records[ip], now)] else records
  }

  /** The visitor log row a check writes. */
  function AttemptLog(req: Request, user: Option<string>, limited: bool, now: int): VisitorLog {
    VisitorLog(ClientIp(req), req.path, req.httpMethod, req.user.Some?, user, limited, None, now, now)
  }

  /** The counter keys a clear deletes: a scope's three keys, only when an
    * action is named too. */
  function ClearList(ip: Option<string>, user: Option<string>, action: Option<string>): seq<Key> {
    (if Truthy(ip) && Truthy(action) then ScopeKeys(action.value, Ip, ip.value) else [])
    + (if Truthy(user) && Truthy(action) then ScopeKeys(action.value, User, user.value) else [])
  }

  function ClearedKeys(ip: Option<string>, user: Option<string>, action: Option<string>): set<Key> {
    set k | k in ClearList(ip, user, action)
  }

  /** The status report: the addresses and figures of both scopes. */
  datatype StatusReport = StatusReport(ip: string, ipStatus: ScopeInfo, userStatus: ScopeInfo, timestamp: int)

  /** The same window means the same key of one scope. */
  lemma ScopeKeyAt(action: string, scope: Scope, id: string, w: Window) returns (i: int)
    ensures 0 <= i < 3 && ScopeKeys(action, scope, id)[i] == Key(action, scope, id, w)
    ensures AllWindows[i] == w
  {
    i := if w == Minute then 0 else if w == Hour then 1 else 2;
  }

  /** Work on the address keys leaves every account counter unchanged. */
  lemma OtherScopeWindow(s: Stores, mode: Mode, op: Op, c: RateLimitConfig, action: string, id: string, k: Key, now: int)
    requires k.scope == User
    ensures WindowStatOf(ApplyAll(s, mode, op, ScopeKeys(action, Ip, id), now), mode, c, k, now)
      == WindowStatOf(s, mode, c, k, now)
  {
    ApplyAllUntouched(s, mode, op, ScopeKeys(action, Ip, id), k, now);
    CountIsLocal(ApplyAll(s, mode, op, ScopeKeys(action, Ip, id), now), s, mode, k, now - WindowSeconds(k.window), now);
  }

  /** Work on one scope's keys leaves the other scope's figures unchanged. */
  lemma OtherScopeUnaffected(s: Stores, mode: Mode, op: Op, c: RateLimitConfig, action: string,
                             id: string, otherId: string, now: int)
    ensures ScopeStats(ApplyAll(s, mode, op, ScopeKeys(action, Ip, id), now), mode, c, action, User, otherId, now)
      == ScopeStats(s, mode, c, action, User, otherId, now)
  {
    var after := ScopeStats(ApplyAll(s, mode, op, ScopeKeys(action, Ip, id), now), mode, c, action, User, otherId, now);
    var before := ScopeStats(s, mode, c, action, User, otherId, now);
    forall w | w in AllWindows
      ensures w in after && w in before && after[w] == before[w]
    {
      OtherScopeWindow(s, mode, op, c, action, id, Key(action, User, otherId, w), now);
    }
    assert after.Keys == before.Keys;
  }

  /** `LastTripped` reads only the windows it walks. */
  lemma {:induction false} LastTrippedFrame(s1: map<Window, WindowStat>, s2: map<Window, WindowStat>, ws: seq<Window>)
    requires forall i :: 0 <= i < |ws| ==> ws[i] in s1 && ws[i] in s2 && s1[ws[i]] == s2[ws[i]]
    ensures LastTripped(s1, ws) == LastTripped(s2, ws)
    decreases |ws|
  {
    if ws != [] {
      LastTrippedFrame(s1, s2, ws[..|ws| - 1]);
    }
  }

  /** The loop's prefixes of the key and window lists grow by one element. */
  lemma PrefixStep(ks: seq<Key>, ws: seq<Window>, i: int)
    requires ws == AllWindows && |ks| == 3 && forall j, l :: 0 <= j < l < 3 ==> ks[j] != ks[l]
    requires 0 <= i < 3
    ensures ks[..i + 1] == ks[..i] + [ks[i]] && ks[i] !in ks[..i]
    ensures ws[..i + 1] == ws[..i] + [ws[i]] && ws[i] !in ws[..i]
    ensures forall v :: v in ws[..i] ==> v in ws
  {
  }

  /** One step of the pruning loop: the key read next was not touched by
    * the earlier steps, and pruning it extends the fold by one key. */
  lemma PruneStep(cur: Stores, s0: Stores, mode: Mode, c: RateLimitConfig, ks: seq<Key>, i: int, now: int)
    requires 0 <= i < |ks| && ks[i] !in ks[..i] && ks[..i + 1] == ks[..i] + [ks[i]]
    requires cur == ApplyAll(s0, mode, Prune, ks[..i], now)
    ensures WindowStatOf(cur, mode, c, ks[i], now) == WindowStatOf(s0, mode, c, ks[i], now)
    ensures Apply(cur, mode, Prune, ks[i], now) == ApplyAll(s0, mode, Prune, ks[..i + 1], now)
  {
    ApplyAllUntouched(s0, mode, Prune, ks[..i], ks[i], now);
    CountIsLocal(cur, s0, mode, ks[i], now - WindowSeconds(ks[i].window), now);
    assert ks[..i + 1][..i] == ks[..i];
  }

  /** Applying the operation to one more key of `ks` extends the fold. */
  lemma FoldStep(s: Stores, mode: Mode, op: Op, ks: seq<Key>, i: int, now: int)
    requires 0 <= i < |ks|
    ensures ApplyAll(s, mode, op, ks[..i + 1], now) == Apply(ApplyAll(s, mode, op, ks[..i], now), mode, op, ks[i], now)
  {
    assert ks[..i + 1][..i] == ks[..i];
  }

  /** The windows the loop has read after `i` steps. */
  function WindowsBefore(i: int): set<Window> {
    if i <= 0 then {} else if i == 1 then {Minute} else if i == 2 then {Minute, Hour} else {Minute, Hour, Day}
  }

  /** The figures `f` gives for the first `i` windows, shortest first. */
  function Gathered(f: Window -> WindowStat, i: int): map<Window, WindowStat>
    requires 0 <= i <= 3
    decreases i
  {
    if i == 0 then map[] else Gathered(f, i - 1)[AllWindows[i - 1] := f(AllWindows[i - 1])]
  }

  /** The windows gathered after `i` steps, and after all three the figures
    * of every window. */
  lemma GatheredKeys(f: Window -> WindowStat, i: int)
    requires 0 <= i <= 3
    ensures Gathered(f, i).Keys == WindowsBefore(i)
    ensures i == 3 ==> Gathered(f, i) == map w | w in AllWindows :: f(w)
  {
    if i == 3 {
      assert Gathered(f, 3) == map[Minute := f(Minute), Hour := f(Hour), Day := f(Day)];
    }
  }

  /** The figures of one scope's counters, window by window. */
  function ScopeStat(s: Stores, mode: Mode, c: RateLimitConfig, action: string, scope: Scope, id: string, now: int): Window -> WindowStat {
    w => WindowStatOf(s, mode, c, Key(action, scope, id, w), now)
  }

  /** The figures the loop has gathered after `i` steps. */
  function StatsUpTo(s: Stores, mode: Mode, c: RateLimitConfig, action: string, scope: Scope, id: string, i: int, now: int): map<Window, WindowStat>
    requires 0 <= i <= 3
  {
    Gathered(ScopeStat(s, mode, c, action, scope, id, now), i)
  }

  /** The stores after the loop has pruned `i` keys. */
  function PrunedUpTo(s: Stores, mode: Mode, action: string, scope: Scope, id: string, i: int, now: int): Stores
    requires 0 <= i <= 3
  {
    ApplyAll(s, mode, Prune, ScopeKeys(action, scope, id)[..i], now)
  }

  /** One pruning step of the window loop: the next key still reads as in
    * the starting stores, and pruning it extends the fold by one key. */
  lemma PruneLoopStep(s: Stores, mode: Mode, c: RateLimitConfig, action: string, scope: Scope, id: string, i: int, now: int)
    requires 0 <= i < 3
    ensures var k := Key(action, scope, id, AllWindows[i]);
      && ScopeKeys(action, scope, id)[i] == k
      && WindowStatOf(PrunedUpTo(s, mode, action, scope, id, i, now), mode, c, k, now) == WindowStatOf(s, mode, c, k, now)
      && Apply(PrunedUpTo(s, mode, action, scope, id, i, now), mode, Prune, k, now) == PrunedUpTo(s, mode, action, scope, id, i + 1, now)
  {
    var ks := ScopeKeys(action, scope, id);
    ScopeKeysExactly(action, scope, id);
    PrefixStep(ks, AllWindows, i);
    PruneStep(PrunedUpTo(s, mode, action, scope, id, i, now), s, mode, c, ks, i, now);
  }

  /** One gathering step of the window loop: the next window's figures are
    * added, and a tripped window becomes the reported one. */
  lemma StatsLoopStep(before: map<Window, WindowStat>, after: map<Window, WindowStat>, i: int, st: WindowStat)
    requires 0 <= i < 3
    requires before.Keys == WindowsBefore(i)
    requires after == before[AllWindows[i] := st]
    ensures after.Keys == WindowsBefore(i + 1)
    ensures LongestTripped(after) == if Tripped(st) then Some(AllWindows[i]) else LongestTripped(before)
  {
  }

  /** The figures after one more step are the figures before it with the
    * next window's added. */
  lemma StatsUpToStep(s: Stores, mode: Mode, c: RateLimitConfig, action: string, scope: Scope, id: string, i: int, now: int)
    requires 0 <= i < 3
    ensures StatsUpTo(s, mode, c, action, scope, id, i, now).Keys == WindowsBefore(i)
    ensures StatsUpTo(s, mode, c, action, scope, id, i + 1, now)
      == StatsUpTo(s, mode, c, action, scope, id, i, now)[AllWindows[i] := WindowStatOf(s, mode, c, Key(action, scope, id, AllWindows[i]), now)]
  {
    GatheredKeys(ScopeStat(s, mode, c, action, scope, id, now), i);
  }

  /** After three steps the loop holds the scope's figures; before the
    * first it holds none. */
  lemma StatsLoopDone(s: Stores, mode: Mode, c: RateLimitConfig, action: string, scope: Scope, id: string, now: int)
    ensures StatsUpTo(s, mode, c, action, scope, id, 3, now) == ScopeStats(s, mode, c, action, scope, id, now)
    ensures StatsUpTo(s, mode, c, action, scope, id, 0, now) == map[]
  {
    GatheredKeys(ScopeStat(s, mode, c, action, scope, id, now), 3);
  }

  /** After three steps the loop has pruned every key of the scope; before
    * the first it has pruned none. */
  lemma PruneLoopDone(s: Stores, mode: Mode, action: string, scope: Scope, id: string, now: int)
    ensures PrunedUpTo(s, mode, action, scope, id, 3, now) == ApplyAll(s, mode, Prune, ScopeKeys(action, scope, id), now)
    ensures PrunedUpTo(s, mode, action, scope, id, 0, now) == s
  {
    assert ScopeKeys(action, scope, id)[..3] == ScopeKeys(action, scope, id);
  }

  /** A scope is limited exactly when one of its windows has a count that
    * reached the window's limit. */
  lemma ScopeLimitedIff(s: Stores, mode: Mode, c: RateLimitConfig, action: string, scope: Scope, id: string, now: int)
    ensures AnyTripped(ScopeStats(s, mode, c, action, scope, id, now)) <==>
      exists w :: w in AllWindows
        && WindowCount(s, mode, Key(action, scope, id, w), now) >= Limit(c, action, scope, w)
  {
    var stats := ScopeStats(s, mode, c, action, scope, id, now);
    if AnyTripped(stats) {
      var w :| w in stats && Tripped(stats[w]);
      assert w in AllWindows;
    }
    if exists w :: w in AllWindows
        && WindowCount(s, mode, Key(action, scope, id, w), now) >= Limit(c, action, scope, w)
    {
      var w :| w in AllWindows
        && WindowCount(s, mode, Key(action, scope, id, w), now) >= Limit(c, action, scope, w);
      assert w in stats && Tripped(stats[w]);
    }
  }

  /** Every check yields a well-formed verdict; it refuses exactly when a
    * window of the address or (for a non-empty identifier) of the account
    * reached its limit, or the address is blocked; and an account is
    * limited only when one was named. */
  lemma CheckVerdictMeaning(s: Stores, mode: Mode, c: RateLimitConfig, action: string, ip: string, user: Option<string>,
                            records: map<string, BlockRecord>, now: int)
    ensures var v := CheckVerdict(s, mode, c, action, ip, user, records, now);
      && v.WellFormed()
      && (v.Limited() <==>
          (exists w :: w in AllWindows
             && WindowCount(s, mode, Key(action, Ip, ip, w), now) >= Limit(c, action, Ip, w))
          || (Truthy(user) &&
              (exists w :: w in AllWindows && WindowCount(s, mode, Key(action, User, user.value, w), now) >= Limit(c, action, User, w)))
          || (ip in records && BlockedNow(records[ip], now)))
      && (!Truthy(user) ==> !v.userLimited && v.userInfo == NoInfo)
      && (v.ipBlocked && !v.ipLimited && !v.userLimited ==> v.retryAfter == 0)
  {
    ScopeLimitedIff(s, mode, c, action, Ip, ip, now);
    if Truthy(user) {
      ScopeLimitedIff(s, mode, c, action, User, user.value, now);
    }
  }

  /** A store that cannot be reached counts nothing, so only an address
    * block can refuse a request. */
  lemma UnreachableStoreOnlyBlocks(c: RateLimitConfig, s: Stores, action: string, ip: string, user: Option<string>,
                                   records: map<string, BlockRecord>, now: int)
    requires forall scope: Scope, w: Window :: Limit(c, action, scope, w) > 0
    ensures CheckVerdict(s, Unreachable, c, action, ip, user, records, now).Limited()
      <==> ip in records && BlockedNow(records[ip], now)
  {
    CheckVerdictMeaning(s, Unreachable, c, action, ip, user, records, now);
  }

  /** A check only removes events: no key gains a member or a timestamp. */
  lemma CheckAddsNothing(s: Stores, mode: Mode, action: string, ip: string, user: Option<string>, k: Key, now: int)
    ensures Members(CheckedStores(s, mode, action, ip, user, now).sortedSets, k, now) <= Members(s.sortedSets, k, now)
    ensures multiset(Timestamps(CheckedStores(s, mode, action, ip, user, now).cache, k, now))
      <= multiset(Timestamps(s.cache, k, now))
  {
    var afterIp := ApplyAll(s, mode, Prune, ScopeKeys(action, Ip, ip), now);
    PruningAddsNothing(s, mode, ScopeKeys(action, Ip, ip), k, now);
    if Truthy(user) {
      PruningAddsNothing(afterIp, mode, ScopeKeys(action, User, user.value), k, now);
    }
  }

  lemma SameAtReads(s1: Stores, s2: Stores, k: Key, now: int)
    requires SameAt(s1, s2, k)
    ensures Members(s1.sortedSets, k, now) == Members(s2.sortedSets, k, now)
    ensures Timestamps(s1.cache, k, now) == Timestamps(s2.cache, k, now)
  {
  }

  /** Recording writes exactly the three address keys and, for a non-empty
    * identifier, the three account keys: each gains the new event (one
    * member, or one timestamp at the end), and every other key is as it
    * was. */
  lemma {:induction false} RecordTouchesOnlyItsKeys(s: Stores, mode: Mode, action: string, ip: string, user: Option<string>,
                                                    success: bool, k: Key, now: int)
    ensures |TouchedKeys(action, ip, user)| == if Truthy(user) then 6 else 3
    ensures k !in TouchedKeys(action, ip, user) ==> SameAt(RecordedRequest(s, mode, action, ip, user, success, now), s, k)
    ensures k in TouchedKeys(action, ip, user) && mode == SortedSets ==>
      Members(RecordedRequest(s, mode, action, ip, user, success, now).sortedSets, k, now)
        == Members(s.sortedSets, k, now) + {Member(now, success)}
    ensures k in TouchedKeys(action, ip, user) && mode == LocalCache ==>
      Timestamps(RecordedRequest(s, mode, action, ip, user, success, now).cache, k, now)
        == Timestamps(s.cache, k, now) + [now]
  {
    var ipKeys := ScopeKeys(action, Ip, ip);
    var afterIp := ApplyAll(s, mode, Add(success), ipKeys, now);
    var result := RecordedRequest(s, mode, action, ip, user, success, now);
    ScopeKeysExactly(action, Ip, ip);
    if k in ipKeys {
      RecordAddsOneEvent(s, mode, success, ipKeys, k, now);
      if Truthy(user) {
        ApplyAllUntouched(afterIp, mode, Add(success), ScopeKeys(action, User, user.value), k, now);
        SameAtReads(result, afterIp, k, now);
      }
    } else {
      ApplyAllUntouched(s, mode, Add(success), ipKeys, k, now);
      if Truthy(user) {
        var userKeys := ScopeKeys(action, User, user.value);
        ScopeKeysExactly(action, User, user.value);
        if k in userKeys {
          RecordAddsOneEvent(afterIp, mode, success, userKeys, k, now);
          SameAtReads(afterIp, s, k, now);
        } else {
          ApplyAllUntouched(afterIp, mode, Add(success), userKeys, k, now);
        }
      }
    }
  }

  /** A clear deletes exactly the named scopes' keys of the named action. */
  lemma ClearedKeysExactly(ip: Option<string>, user: Option<string>, action: Option<string>, k: Key)
    ensures k in ClearedKeys(ip, user, action) <==>
      Truthy(action) && k.action == action.value
      && ((Truthy(ip) && k.scope == Ip && k.identifier == ip.value)
          || (Truthy(user) && k.scope == User && k.identifier == user.value))
  {
    if Truthy(action) && k.action == action.value {
      if Truthy(ip) && k.scope == Ip && k.identifier == ip.value {
        var i := ScopeKeyAt(action.value, Ip, ip.value, k.window);
        assert ClearList(ip, user, action)[i] == k;
      } else if Truthy(user) && k.scope == User && k.identifier == user.value {
        var i := ScopeKeyAt(action.value, User, user.value, k.window);
        var off := if Truthy(ip) then 3 else 0;
        assert ClearList(ip, user, action)[off + i] == k;
      }
    }
  }

  /** Without an action, a clear deletes nothing. */
  lemma ClearWithoutActionKeepsAll(ip: Option<string>, user: Option<string>)
    ensures ClearedKeys(ip, user, None) == {}
  {
  }

  /** `n` records of one key, one after another, all in the second `now`. */
  function RecordedTimes(s: Stores, mode: Mode, k: Key, success: bool, now: int, n: nat): Stores
    decreases n
  {
    if n == 0 then s else Recorded(RecordedTimes(s, mode, k, success, now, n - 1), mode, k, success, now)
  }

  /** A same-second burst in the sorted set adds one member, however long
    * it is. */
  lemma {:induction false} BurstInSortedSet(s: Stores, k: Key, success: bool, now: int, n: nat)
    requires n >= 1
    ensures Members(RecordedTimes(s, SortedSets, k, success, now, n).sortedSets, k, now)
      == Members(s.sortedSets, k, now) + {Member(now, success)}
    decreases n
  {
    assert now < now + KeyTtl(k.window);
    if n > 1 {
      BurstInSortedSet(s, k, success, now, n - 1);
    }
  }

  /** A same-second burst in the cache appends one timestamp per record. */
  lemma {:induction false} BurstInCache(s: Stores, k: Key, success: bool, now: int, n: nat)
    ensures Timestamps(RecordedTimes(s, LocalCache, k, success, now, n).cache, k, now)
      == Timestamps(s.cache, k, now) + seq(n, _ => now)
    decreases n
  {
    assert now < now + KeyTtl(k.window);
    if n > 0 {
      BurstInCache(s, k, success, now, n - 1);
      assert seq(n - 1, _ => now) + [now] == seq(n, _ => now);
    }
  }

  /** From empty stores, `n` same-second records of one outcome count once
    * in the sorted set and `n` times in the cache, in every window. */
  lemma SameSecondBurst(k: Key, success: bool, now: int, n: nat)
    requires n >= 1
    ensures WindowCount(RecordedTimes(Stores(map[], map[]), SortedSets, k, success, now, n), SortedSets, k, now) == 1
    ensures WindowCount(RecordedTimes(Stores(map[], map[]), LocalCache, k, success, now, n), LocalCache, k, now) == n
  {
    var empty := Stores(map[], map[]);
    BurstInSortedSet(empty, k, success, now, n);
    var z := RecordedTimes(empty, SortedSets, k, success, now, n);
    assert Members(z.sortedSets, k, now) == {Member(now, success)};
    assert Surviving({Member(now, success)}, now - WindowSeconds(k.window)) == {Member(now, success)};
    BurstInCache(empty, k, success, now, n);
    KeepFromLength(seq(n, _ => now), now - WindowSeconds(k.window));
  }

  /** Against the default limit of three failed logins per account and
    * minute, a same-second burst never trips the sorted-set store, while
    * the cache trips exactly from the third record on. */
  lemma BurstAgainstLoginLimit(k: Key, now: int, n: nat)
    requires k.action == "login" && k.scope == User && k.window == Minute && n >= 1
    ensures WindowCount(RecordedTimes(Stores(map[], map[]), SortedSets, k, false, now, n), SortedSets, k, now)
      < Limit(LoadConfig(None), k.action, k.scope, k.window)
    ensures (WindowCount(RecordedTimes(Stores(map[], map[]), LocalCache, k, false, now, n), LocalCache, k, now)
             >= Limit(LoadConfig(None), k.action, k.scope, k.window)) <==> n >= 3
  {
    SameSecondBurst(k, false, now, n);
  }

  /** The limiter: the loaded configuration, which store answers, and the
    * counters in both stores. */
  class Limiter {
    /** Whether the sorted-set server answered when the limiter started. */
    const redisAvailable: bool
    const config: RateLimitConfig
    var sortedSets: map<Key, SortedSet>
    var cache: map<Key, CacheEntry>
    /** The store in use currently raises on every call. */
    var backendDown: bool

    /** `activeConfig` is what the start-up load found: the active row, or
      * None when there was none or the lookup or the creation raised. The
      * limiter keeps the result for its whole life. */
    constructor (redisReachable: bool, activeConfig: Option<RateLimitConfig>)
      ensures redisAvailable == redisReachable && config == LoadConfig(activeConfig)
      ensures sortedSets == map[] && cache == map[] && !backendDown
    {
      redisAvailable := redisReachable;
      config := LoadConfig(activeConfig);
      sortedSets := map[];
      cache := map[];
      backendDown := false;
    }

    function Stores(): Counters.Stores
      reads this
    {
      Counters.Stores(sortedSets, cache)
    }

    function Mode(): Mode
      reads this
    {
      if backendDown then Unreachable else if redisAvailable then SortedSets else LocalCache
    }

    /** Prune and count one key in whichever store is in use. */
    method GetRequestCount(k: Key, windowStart: int, now: int) returns (count: nat)
      modifies this
      ensures backendDown == old(backendDown)
      ensures count == Count(old(Stores()), Mode(), k, windowStart, now)
      ensures Stores() == Pruned(old(Stores()), Mode(), k, windowStart, now)
    {
      if backendDown {
        return 0;
      }
      if redisAvailable {
        var rest := Surviving(Members(sortedSets, k, now), windowStart);
        if rest == {} {
          sortedSets := sortedSets - {k};
        } else {
          sortedSets := sortedSets[k := SortedSet(rest, sortedSets[k].expiresAt)];
        }
        count := |rest|;
      } else {
        var timestamps := Timestamps(cache, k, now);
        var valid := KeepFrom(timestamps, windowStart);
        if |valid| != |timestamps| {
          cache := cache[k := CacheEntry(valid, now + PruneRewriteTimeout)];
        }
        count := |valid|;
      }
    }

    /** Read one window of one scope: its count against its limit. */
    method CheckWindow(k: Key, now: int) returns (st: WindowStat)
      modifies this
      ensures backendDown == old(backendDown)
      ensures st == WindowStatOf(old(Stores()), Mode(), config, k, now)
      ensures Stores() == Apply(old(Stores()), Mode(), Prune, k, now)
    {
      var windowStart := now - WindowSeconds(k.window);
      var limit := Limit(config, k.action, k.scope, k.window);
      var count := GetRequestCount(k, windowStart, now);
      st := Stat(count, limit);
    }

    /** Check the three windows of one scope, shortest first. */
    method CheckScope(action: string, scope: Scope, id: string, now: int) returns (limited: bool, info: ScopeInfo)
      modifies this
      ensures backendDown == old(backendDown)
      ensures info == ScopeReport(old(Stores()), Mode(), config, action, scope, id, now)
      ensures limited == AnyTripped(info.stats)
      ensures Stores() == ApplyAll(old(Stores()), Mode(), Prune, ScopeKeys(action, scope, id), now)
    {
      ghost var s0 := Stores();
      ghost var mode := Mode();
      StatsLoopDone(s0, mode, config, action, scope, id, now);
      PruneLoopDone(s0, mode, action, scope, id, now);
      var ks := ScopeKeys(action, scope, id);
      var stats: map<Window, WindowStat> := map[];
      var blockedWindow: Option<Window> := None;
      limited := false;
      var i := 0;
      while i < 3
        invariant 0 <= i <= 3
        invariant backendDown == old(backendDown) && Mode() == mode
        invariant Stores() == PrunedUpTo(s0, mode, action, scope, id, i, now)
        invariant stats == StatsUpTo(s0, mode, config, action, scope, id, i, now)
        invariant blockedWindow == LongestTripped(stats)
        invariant limited == blockedWindow.Some?
      {
        var k := ks[i];
        PruneLoopStep(s0, mode, config, action, scope, id, i, now);
        StatsUpToStep(s0, mode, config, action, scope, id, i, now);
        var st := CheckWindow(k, now);
        StatsLoopStep(stats, stats[k.window := st], i, st);
        stats := stats[k.window := st];
        if st.count >= st.limit {
          limited := true;
          blockedWindow := Some(k.window);
        }
        i := i + 1;
      }
      info := ScopeInfo(stats, blockedWindow);
    }

    /** The counter part of a check: the address scope, then the account
      * scope for a non-empty identifier. */
    method CheckScopes(action: string, ip: string, userIdentifier: Option<string>, now: int)
      returns (ipLimited: bool, ipInfo: ScopeInfo, userLimited: bool, userInfo: ScopeInfo)
      modifies this
      ensures backendDown == old(backendDown)
      ensures ipInfo == ScopeReport(old(Stores()), Mode(), config, action, Ip, ip, now)
      ensures userInfo == UserReport(old(Stores()), Mode(), config, action, userIdentifier, now)
      ensures ipLimited == AnyTripped(ipInfo.stats)
      ensures userLimited == (Truthy(userIdentifier) && AnyTripped(userInfo.stats))
      ensures Stores() == CheckedStores(old(Stores()), Mode(), action, ip, userIdentifier, now)
    {
      ghost var s0 := Stores();
      ipLimited, ipInfo := CheckScope(action, Ip, ip, now);
      userLimited, userInfo := false, NoInfo;
      if Truthy(userIdentifier) {
        OtherScopeUnaffected(s0, Mode(), Prune, config, action, ip, userIdentifier.value, now);
        userLimited, userInfo := CheckScope(action, User, userIdentifier.value, now);
      }
    }

    /** One check of a request: address figures, account figures for a
      * non-empty identifier, the address block, then the visitor log row. */
    method CheckRateLimit(req: Request, action: string, userIdentifier: Option<string>,
                          registry: BlockRegistry, audit: AuditLog, now: int)
      returns (limited: bool, verdict: Verdict)
      modifies this, registry, audit
      ensures backendDown == old(backendDown)
      ensures verdict == CheckVerdict(old(Stores()), Mode(), config, action, ClientIp(req), userIdentifier,
                                      old(registry.records), now)
      ensures limited == verdict.Limited()
      ensures Stores() == CheckedStores(old(Stores()), Mode(), action, ClientIp(req), userIdentifier, now)
      ensures registry.records == RecordsAfterCheck(old(registry.records), ClientIp(req), now)
      ensures audit.visitorLogs == old(audit.visitorLogs) + [Saved(AttemptLog(req, userIdentifier, limited, now), now)]
      ensures audit.twoFactorAttempts == old(audit.twoFactorAttempts)
    {
      var ip := ClientIp(req);
      var ipLimited, ipInfo, userLimited, userInfo := CheckScopes(action, ip, userIdentifier, now);
      var ipBlocked := registry.IsIpBlocked(ip, now);
      limited := ipLimited || userLimited || ipBlocked;
      audit.InsertVisitorLog(AttemptLog(req, userIdentifier, limited, now), now);
      verdict := Verdict(ipLimited, userLimited, ipBlocked, ipInfo, userInfo, RetryAfter(ipInfo, userInfo));
    }

    /** Record one request under the three keys of one scope. */
    method RecordScope(action: string, scope: Scope, id: string, success: bool, now: int)
      modifies this
      ensures backendDown == old(backendDown)
      ensures Stores() == ApplyAll(old(Stores()), Mode(), Add(success), ScopeKeys(action, scope, id), now)
    {
      ghost var s0 := Stores();
      ghost var mode := Mode();
      var ks := ScopeKeys(action, scope, id);
      var i := 0;
      while i < 3
        invariant 0 <= i <= 3
        invariant backendDown == old(backendDown) && Mode() == mode
        invariant Stores() == ApplyAll(s0, mode, Add(success), ks[..i], now)
      {
        FoldStep(s0, mode, Add(success), ks, i, now);
        ghost var before := Stores();
        var k := ks[i];
        var timeout := KeyTtl(k.window);
        if backendDown {
        } else if redisAvailable {
          sortedSets := sortedSets[k := SortedSet(Members(sortedSets, k, now) + {Member(now, success)}, Some(now + timeout))];
        } else {
          var timestamps := Timestamps(cache, k, now);
          cache := cache[k := CacheEntry(timestamps + [now], now + timeout)];
        }
        assert Stores() == Recorded(before, mode, k, success, now);
        i := i + 1;
      }
      assert ks[..3] == ks;
    }

    /** Record one request for its address and, for a non-empty identifier,
      * for the account. */
    method RecordRequest(req: Request, action: string, userIdentifier: Option<string>, success: bool, now: int)
      modifies this
      ensures backendDown == old(backendDown)
      ensures Stores() == RecordedRequest(old(Stores()), Mode(), action, ClientIp(req), userIdentifier, success, now)
    {
      var ip := ClientIp(req);
      RecordScope(action, Ip, ip, success, now);
      if Truthy(userIdentifier) {
        RecordScope(action, User, userIdentifier.value, success, now);
      }
    }

    /** The figures of both scopes without recording anything; nothing at
      * all without the sorted-set server. */
    method GetRateLimitStatus(req: Request, action: string, userIdentifier: Option<string>, now: int)
      returns (status: Option<StatusReport>)
      modifies this
      ensures backendDown == old(backendDown)
      ensures !redisAvailable ==> status.None? && Stores() == old(Stores())
      ensures redisAvailable ==> status == Some(StatusReport(ClientIp(req),
                ScopeReport(old(Stores()), Mode(), config, action, Ip, ClientIp(req), now),
                UserReport(old(Stores()), Mode(), config, action, userIdentifier, now), now))
      ensures redisAvailable ==> Stores() == CheckedStores(old(Stores()), Mode(), action, ClientIp(req), userIdentifier, now)
    {
      if !redisAvailable {
        return None;
      }
      var ip := ClientIp(req);
      var _, ipInfo, _, userInfo := CheckScopes(action, ip, userIdentifier, now);
      status := Some(StatusReport(ip, ipInfo, userInfo, now));
    }

    /** Delete the named scopes' keys of the named action from the
      * sorted-set server; without it, do nothing. */
    method ClearRateLimit(ip: Option<string>, user: Option<string>, action: Option<string>)
      modifies this
      ensures backendDown == old(backendDown) && cache == old(cache)
      ensures redisAvailable && !backendDown ==> sortedSets == old(sortedSets) - ClearedKeys(ip, user, action)
      ensures !redisAvailable || backendDown ==> sortedSets == old(sortedSets)
    {
      if !redisAvailable {
        return;
      }
      var keysToDelete: seq<Key> := [];
      if Truthy(ip) && Truthy(action) {
        keysToDelete := keysToDelete + ScopeKeys(action.value, Ip, ip.value);
      }
      if Truthy(user) && Truthy(action) {
        keysToDelete := keysToDelete + ScopeKeys(action.value, User, user.value);
      }
      assert keysToDelete == ClearList(ip, user, action);
      if keysToDelete != [] && !backendDown {
        sortedSets := sortedSets - (set k | k in keysToDelete);
      }
    }

    /** Delete every key named under the limiter's prefix from the
      * sorted-set server, which is every counter it holds. */
    method ClearAllCounters()
      modifies this
      ensures backendDown == old(backendDown) && cache == old(cache)
      ensures redisAvailable && !backendDown ==> sortedSets == map[]
      ensures !redisAvailable || backendDown ==> sortedSets == old(sortedSets)
    {
      if redisAvailable && !backendDown {
        ghost var before := sortedSets;
        sortedSets := sortedSets - (set k | k in sortedSets && KeyPrefix <= KeyName(k));
        forall k | k in before
          ensures KeyPrefix <= KeyName(k)
        {
          KeyNameHasPrefix(k);
        }
        assert sortedSets.Keys == {};
      }
    }
  }
}
