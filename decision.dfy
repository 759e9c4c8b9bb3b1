/** What a rate-limit check reports: the per-window figures of each scope,
  * the window that tripped, and the combined verdict with its retry delay. */
module Decision {
  import opened Common
  import opened Keys

  /** `{window}_count`, `{window}_limit` and `{window}_remaining`. */
  datatype WindowStat = WindowStat(count: int, limit: int, remaining: int)

  function Stat(count: int, limit: int): (s: WindowStat)
    ensures s.count == count && s.limit == limit
    ensures s.remaining >= 0 && s.remaining >= limit - count
    ensures s.remaining == 0 <==> count >= limit
    ensures count < limit ==> s.remaining == limit - count
  {
    WindowStat(count, limit, Max(0, limit - count))
  }

  /** A window trips once its count reaches its limit. */
  predicate Tripped(s: WindowStat) {
    s.count >= s.limit
  }

  /** The information of one scope: figures per window checked, and the
    * `blocked_window` entry when one is present. */
  datatype ScopeInfo = ScopeInfo(stats: map<Window, WindowStat>, blocked: Option<Window>)

  /** The empty information of a scope that was not checked. */
  const NoInfo: ScopeInfo := ScopeInfo(map[], None)

  predicate AnyTripped(stats: map<Window, WindowStat>) {
    exists w :: w in stats && Tripped(stats[w])
  }

  /** Reference reading of `blocked_window`: the longest tripped window. */
  function LongestTripped(stats: map<Window, WindowStat>): (r: Option<Window>)
    ensures r.Some? <==> AnyTripped(stats)
    ensures r.Some? ==> r.value in stats && Tripped(stats[r.value])
    ensures r.Some? ==> forall w :: w in stats && Tripped(stats[w]) ==> WindowSeconds(w) <= WindowSeconds(r.value)
  {
    if Day in stats && Tripped(stats[Day]) then Some(Day)
    else if Hour in stats && Tripped(stats[Hour]) then Some(Hour)
    else if Minute in stats && Tripped(stats[Minute]) then Some(Minute)
    else
      assert forall w :: w in stats ==> w == Minute || w == Hour || w == Day;
      None
  }

  /** `blocked_window` as the check writes it: walking `ws` in order, each
    * tripped window overwrites the entry. */
  function LastTripped(stats: map<Window, WindowStat>, ws: seq<Window>): Option<Window>
    requires forall i :: 0 <= i < |ws| ==> ws[i] in stats
    decreases |ws|
  {
    if ws == [] then None
    else if Tripped(stats[ws[|ws| - 1]]) then Some(ws[|ws| - 1])
    else LastTripped(stats, ws[..|ws| - 1])
  }

  /** Walking the windows shortest first, the last overwrite is the longest
    * tripped window. */
  lemma OverwriteKeepsLongest(stats: map<Window, WindowStat>)
    requires Minute in stats && Hour in stats && Day in stats
    ensures LastTripped(stats, AllWindows) == LongestTripped(stats)
  {
    assert AllWindows[..2] == [Minute, Hour];
    assert AllWindows[..2][..1] == [Minute];
    assert [Minute][..0] == [];
  }

  /** The information the check reports for a scope with the given figures. */
  function InfoOf(stats: map<Window, WindowStat>): ScopeInfo {
    ScopeInfo(stats, LongestTripped(stats))
  }

  /** The seconds to wait for a tripped window; nothing when none tripped. */
  function Delay(w: Option<Window>): seq<int> {
    match w
    case Some(v) => [WindowSeconds(v)]
    case None => []
  }

  /** `retry_after`: the longest delay over both scopes, or 0. */
  function RetryAfter(ip: ScopeInfo, user: ScopeInfo): (r: int)
    ensures r == 0 <==> ip.blocked.None? && user.blocked.None?
    ensures ip.blocked.Some? ==> r >= WindowSeconds(ip.blocked.value)
    ensures user.blocked.Some? ==> r >= WindowSeconds(user.blocked.value)
    ensures r != 0 ==>
      (ip.blocked.Some? && r == WindowSeconds(ip.blocked.value))
      || (user.blocked.Some? && r == WindowSeconds(user.blocked.value))
  {
    var delays := Delay(ip.blocked) + Delay(user.blocked);
    if delays == [] then 0
    else if |delays| == 1 then delays[0]
    else Max(delays[0], delays[1])
  }

  /** The result of one check. */
  datatype Verdict = Verdict(ipLimited: bool, userLimited: bool, ipBlocked: bool,
                             ipInfo: ScopeInfo, userInfo: ScopeInfo, retryAfter: int)
  {
    /** The request is refused when any of the three causes holds. */
    predicate Limited() {
      ipLimited || userLimited || ipBlocked
    }

    /** The shape every check produces: a scope is limited exactly when it
      * reports a blocked window, and the delay is computed from them. */
    predicate WellFormed() {
      (ipLimited <==> ipInfo.blocked.Some?)
      && (userLimited <==> userInfo.blocked.Some?)
      && retryAfter == RetryAfter(ipInfo, userInfo)
    }
  }

  /** A refusal caused only by an address block carries a retry delay of 0;
    * every refusal caused by a counter carries a positive one. */
  lemma RetryAfterZeroExactlyWithoutCounterTrip(v: Verdict)
    requires v.WellFormed()
    ensures v.retryAfter == 0 <==> !v.ipLimited && !v.userLimited
    ensures v.retryAfter >= 0
    ensures v.Limited() && v.retryAfter == 0 ==> v.ipBlocked
  {
  }
}
