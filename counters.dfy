/** The two interchangeable counter stores behind the limiter, as values:
  * the shared sorted-set server (members scored by request time) and the
  * process-local cache (a list of timestamps per key). Keys expire at an
  * absolute deadline; an expired key reads as absent. */
module Counters {
  import opened Common
  import opened Keys

  /** A sorted-set member `{time}:{success}`; its score is `time`. */
  datatype Member = Member(time: int, success: bool)

  datatype SortedSet = SortedSet(members: set<Member>, expiresAt: Option<int>)

  datatype CacheEntry = CacheEntry(timestamps: seq<int>, expiresAt: int)

  /** Which store answers: the sorted-set server when it was reachable at
    * start-up, the local cache otherwise; `Unreachable` is a store whose
    * every call raises. */
  datatype Mode = SortedSets | LocalCache | Unreachable

  datatype Stores = Stores(sortedSets: map<Key, SortedSet>, cache: map<Key, CacheEntry>)

  /** Timeout the local cache gives a list it rewrites after pruning it. */
  const PruneRewriteTimeout: int := 300

  /** The members a read of `k` sees at `now`. */
  function Members(zs: map<Key, SortedSet>, k: Key, now: int): set<Member> {
    if k in zs && (zs[k].expiresAt.None? || now < zs[k].expiresAt.value) then zs[k].members else {}
  }

  /** The list a cache read of `k` sees at `now` (the `[]` default when missing or expired). */
  function Timestamps(cs: map<Key, CacheEntry>, k: Key, now: int): seq<int> {
    if k in cs && now < cs[k].expiresAt then cs[k].timestamps else []
  }

  /** What a removal of the scores in `[0, windowStart]` leaves behind. */
  function Surviving(ms: set<Member>, windowStart: int): set<Member> {
    set m | m in ms && !(0 <= m.time <= windowStart)
  }

  /** The timestamps at or after `windowStart`, in their stored order. */
  function KeepFrom(ts: seq<int>, windowStart: int): seq<int>
    decreases |ts|
  {
    if ts == [] then
      []
    else
      var kept := KeepFrom(ts[..|ts| - 1], windowStart);
      if ts[|ts| - 1] >= windowStart then kept + [ts[|ts| - 1]] else kept
  }

  /** The filter keeps every occurrence of a timestamp at or after the
    * window start and no other. */
  lemma {:induction false} KeepFromCounts(ts: seq<int>, windowStart: int, t: int)
    ensures multiset(KeepFrom(ts, windowStart))[t] == if t >= windowStart then multiset(ts)[t] else 0
    decreases |ts|
  {
    if ts != [] {
      var front := ts[..|ts| - 1];
      var last := ts[|ts| - 1];
      assert ts == front + [last];
      KeepFromCounts(front, windowStart, t);
      assert multiset(ts) == multiset(front) + multiset{last};
      if last >= windowStart {
        assert multiset(KeepFrom(ts, windowStart)) == multiset(KeepFrom(front, windowStart)) + multiset{last};
      }
    }
  }

  /** The filter shortens the list exactly when some timestamp is older
    * than the window start. */
  lemma {:induction false} KeepFromLength(ts: seq<int>, windowStart: int)
    ensures |KeepFrom(ts, windowStart)| <= |ts|
    ensures |KeepFrom(ts, windowStart)| == |ts| <==> forall i :: 0 <= i < |ts| ==> ts[i] >= windowStart
    decreases |ts|
  {
    if ts != [] {
      var front := ts[..|ts| - 1];
      KeepFromLength(front, windowStart);
      assert forall i :: 0 <= i < |front| ==> front[i] == ts[i];
    }
  }

  /** The filter keeps every occurrence of a timestamp at or after the
    * window start and no other, so it shortens the list exactly when some
    * timestamp is older. */
  lemma KeepFromMeaning(ts: seq<int>, windowStart: int)
    ensures forall t :: multiset(KeepFrom(ts, windowStart))[t] == if t >= windowStart then multiset(ts)[t] else 0
    ensures forall t :: t in KeepFrom(ts, windowStart) <==> t in ts && t >= windowStart
    ensures multiset(KeepFrom(ts, windowStart)) <= multiset(ts)
    ensures |KeepFrom(ts, windowStart)| <= |ts|
    ensures |KeepFrom(ts, windowStart)| == |ts| <==> forall i :: 0 <= i < |ts| ==> ts[i] >= windowStart
  {
    var r := KeepFrom(ts, windowStart);
    forall t
      ensures multiset(r)[t] == if t >= windowStart then multiset(ts)[t] else 0
    {
      KeepFromCounts(ts, windowStart, t);
    }
    assert forall t :: t in r <==> multiset(r)[t] > 0;
    assert forall t :: t in ts <==> multiset(ts)[t] > 0;
    KeepFromLength(ts, windowStart);
  }

  /** Requests a read of `k` counts in the window starting at `windowStart`. */
  function Count(s: Stores, mode: Mode, k: Key, windowStart: int, now: int): nat {
    match mode
    case SortedSets => |Surviving(Members(s.sortedSets, k, now), windowStart)|
    case LocalCache => |KeepFrom(Timestamps(s.cache, k, now), windowStart)|
    case Unreachable => 0
  }

  /** The count a window check reads for `k`: its window ends now. */
  function WindowCount(s: Stores, mode: Mode, k: Key, now: int): nat {
    Count(s, mode, k, now - WindowSeconds(k.window), now)
  }

  /** The stores after that read: the sorted-set server drops the old
    * members (and the key once it is empty); the cache rewrites the list,
    * with a fresh timeout, only when it dropped something. */
  function Pruned(s: Stores, mode: Mode, k: Key, windowStart: int, now: int): Stores {
    match mode
    case SortedSets =>
      var rest := Surviving(Members(s.sortedSets, k, now), windowStart);
      if rest == {} then s.(sortedSets := s.sortedSets - {k})
      else s.(sortedSets := s.sortedSets[k := SortedSet(rest, s.sortedSets[k].expiresAt)])
    case LocalCache =>
      var ts := Timestamps(s.cache, k, now);
      var valid := KeepFrom(ts, windowStart);
      if |valid| != |ts| then s.(cache := s.cache[k := CacheEntry(valid, now + PruneRewriteTimeout)])
      else s
    case Unreachable => s
  }

  /** The stores after recording one request at `now` under `k`: the
    * member or timestamp is added and the key's lifetime reset. */
  function Recorded(s: Stores, mode: Mode, k: Key, success: bool, now: int): Stores {
    match mode
    case SortedSets =>
      s.(sortedSets := s.sortedSets[k := SortedSet(Members(s.sortedSets, k, now) + {Member(now, success)},
                                                   Some(now + KeyTtl(k.window)))])
    case LocalCache =>
      s.(cache := s.cache[k := CacheEntry(Timestamps(s.cache, k, now) + [now], now + KeyTtl(k.window))])
    case Unreachable => s
  }

  /** One store operation of the limiter's per-window loops. */
  datatype Op = Prune | Add(success: bool)

  function Apply(s: Stores, mode: Mode, op: Op, k: Key, now: int): Stores {
    match op
    case Prune => Pruned(s, mode, k, now - WindowSeconds(k.window), now)
    case Add(success) => Recorded(s, mode, k, success, now)
  }

  /** `op` applied to each key of `ks` in turn. */
  function ApplyAll(s: Stores, mode: Mode, op: Op, ks: seq<Key>, now: int): Stores
    decreases |ks|
  {
    if ks == [] then s else Apply(ApplyAll(s, mode, op, ks[..|ks| - 1], now), mode, op, ks[|ks| - 1], now)
  }

  /** Two store states agree on key `k`, in both stores. */
  predicate SameAt(s1: Stores, s2: Stores, k: Key) {
    (k in s1.sortedSets <==> k in s2.sortedSets)
    && (k in s1.sortedSets ==> s1.sortedSets[k] == s2.sortedSets[k])
    && (k in s1.cache <==> k in s2.cache)
    && (k in s1.cache ==> s1.cache[k] == s2.cache[k])
  }

  /** An operation on one key leaves every other key as it was, and what it
    * does to its own key depends on nothing but that key. */
  lemma ApplyIsLocal(s1: Stores, s2: Stores, mode: Mode, op: Op, k: Key, other: Key, now: int)
    ensures other != k ==> SameAt(Apply(s1, mode, op, k, now), s1, other)
    ensures SameAt(s1, s2, k) ==> SameAt(Apply(s1, mode, op, k, now), Apply(s2, mode, op, k, now), k)
  {
  }

  lemma {:induction false} ApplyAllUntouched(s: Stores, mode: Mode, op: Op, ks: seq<Key>, k: Key, now: int)
    requires k !in ks
    ensures SameAt(ApplyAll(s, mode, op, ks, now), s, k)
    decreases |ks|
  {
    if ks != [] {
      ApplyAllUntouched(s, mode, op, ks[..|ks| - 1], k, now);
      ApplyIsLocal(ApplyAll(s, mode, op, ks[..|ks| - 1], now), s, mode, op, ks[|ks| - 1], k, now);
    }
  }

  /** On a key list without repetitions, each listed key ends up as if it
    * had been operated on alone. */
  lemma {:induction false} ApplyAllAt(s: Stores, mode: Mode, op: Op, ks: seq<Key>, k: Key, now: int)
    requires forall i, j :: 0 <= i < j < |ks| ==> ks[i] != ks[j]
    requires k in ks
    ensures SameAt(ApplyAll(s, mode, op, ks, now), Apply(s, mode, op, k, now), k)
    decreases |ks|
  {
    var front := ks[..|ks| - 1];
    var last := ks[|ks| - 1];
    var mid := ApplyAll(s, mode, op, front, now);
    if k == last {
      assert k !in front;
      ApplyAllUntouched(s, mode, op, front, k, now);
      ApplyIsLocal(mid, s, mode, op, k, k, now);
    } else {
      ApplyAllAt(s, mode, op, front, k, now);
      ApplyIsLocal(mid, s, mode, op, last, k, now);
    }
  }

  /** The count a read reports depends only on the key it reads. */
  lemma CountIsLocal(s1: Stores, s2: Stores, mode: Mode, k: Key, windowStart: int, now: int)
    requires SameAt(s1, s2, k)
    ensures Count(s1, mode, k, windowStart, now) == Count(s2, mode, k, windowStart, now)
  {
  }

  /** Pruning never adds an event: at the same instant every key sees a
    * subset of its former members and a sub-multiset of its timestamps. */
  lemma {:induction false} PruningAddsNothing(s: Stores, mode: Mode, ks: seq<Key>, k: Key, now: int)
    ensures Members(ApplyAll(s, mode, Prune, ks, now).sortedSets, k, now) <= Members(s.sortedSets, k, now)
    ensures multiset(Timestamps(ApplyAll(s, mode, Prune, ks, now).cache, k, now))
      <= multiset(Timestamps(s.cache, k, now))
    decreases |ks|
  {
    if ks != [] {
      var mid := ApplyAll(s, mode, Prune, ks[..|ks| - 1], now);
      PruningAddsNothing(s, mode, ks[..|ks| - 1], k, now);
      PruneOneAddsNothing(mid, mode, ks[|ks| - 1], k, now);
    }
  }

  lemma PruneOneAddsNothing(s: Stores, mode: Mode, pruned: Key, k: Key, now: int)
    ensures Members(Apply(s, mode, Prune, pruned, now).sortedSets, k, now) <= Members(s.sortedSets, k, now)
    ensures multiset(Timestamps(Apply(s, mode, Prune, pruned, now).cache, k, now))
      <= multiset(Timestamps(s.cache, k, now))
  {
    if mode == LocalCache && k == pruned {
      var ts := Timestamps(s.cache, k, now);
      assert now < now + PruneRewriteTimeout;
      KeepFromMeaning(ts, now - WindowSeconds(pruned.window));
    }
  }

  /** A cache read that drops an old timestamp rewrites the list with a
    * five-minute lifetime whatever the window: an hour or day list that is
    * read and then not written for five minutes is gone, events still
    * inside its window included. */
  lemma PruneRewriteShortensLifetime(s: Stores, k: Key, now: int)
    requires var ts := Timestamps(s.cache, k, now);
      |KeepFrom(ts, now - WindowSeconds(k.window))| != |ts|
    ensures var after := Pruned(s, LocalCache, k, now - WindowSeconds(k.window), now);
      && Timestamps(after.cache, k, now) == KeepFrom(Timestamps(s.cache, k, now), now - WindowSeconds(k.window))
      && Timestamps(after.cache, k, now + PruneRewriteTimeout) == []
  {
  }

  /** Recording on distinct keys adds exactly the new event to each of them:
    * one member to the sorted set, one timestamp to the end of the list. */
  lemma RecordAddsOneEvent(s: Stores, mode: Mode, success: bool, ks: seq<Key>, k: Key, now: int)
    requires forall i, j :: 0 <= i < j < |ks| ==> ks[i] != ks[j]
    requires k in ks
    ensures mode == SortedSets ==>
      Members(ApplyAll(s, mode, Add(success), ks, now).sortedSets, k, now)
        == Members(s.sortedSets, k, now) + {Member(now, success)}
    ensures mode == LocalCache ==>
      Timestamps(ApplyAll(s, mode, Add(success), ks, now).cache, k, now) == Timestamps(s.cache, k, now) + [now]
  {
    ApplyAllAt(s, mode, Add(success), ks, k, now);
    assert now < now + KeyTtl(k.window);
  }

  /** Two requests with the same outcome in the same second are one member
    * of the sorted set, but two entries of the cached list. */
  lemma SameSecondCollapses(s: Stores, k: Key, success: bool, now: int)
    ensures var once := Recorded(s, SortedSets, k, success, now);
      Recorded(once, SortedSets, k, success, now) == once
    ensures var once := Recorded(s, LocalCache, k, success, now);
      |Timestamps(Recorded(once, LocalCache, k, success, now).cache, k, now)|
        == |Timestamps(s.cache, k, now)| + 2
  {
    assert now < now + KeyTtl(k.window);
    var once := Recorded(s, SortedSets, k, success, now);
    assert Members(once.sortedSets, k, now) == Members(s.sortedSets, k, now) + {Member(now, success)};
  }

  /** The window boundary: an event exactly `windowStart` old is dropped by
    * the sorted-set server (its removal range is inclusive) but kept by the
    * local cache (it keeps `ts >= windowStart`). */
  lemma BoundaryEvent(ms: set<Member>, ts: seq<int>, windowStart: int, success: bool)
    requires windowStart >= 0
    ensures Member(windowStart, success) !in Surviving(ms, windowStart)
    ensures windowStart in ts ==> windowStart in KeepFrom(ts, windowStart)
  {
    KeepFromMeaning(ts, windowStart);
  }

  function Times(es: seq<Member>): (ts: seq<int>)
    ensures |ts| == |es| && forall i :: 0 <= i < |es| ==> ts[i] == es[i].time
  {
    seq(|es|, i requires 0 <= i < |es| => es[i].time)
  }

  function Elements(es: seq<Member>): set<Member> {
    set e | e in es
  }

  lemma KeepFromSnoc(ts: seq<int>, t: int, windowStart: int)
    ensures KeepFrom(ts + [t], windowStart)
      == KeepFrom(ts, windowStart) + (if t >= windowStart then [t] else [])
  {
    assert (ts + [t])[..|ts|] == ts;
  }

  lemma SurvivingAdd(ms: set<Member>, e: Member, windowStart: int)
    ensures Surviving(ms + {e}, windowStart)
      == Surviving(ms, windowStart) + (if 0 <= e.time <= windowStart then {} else {e})
  {
  }

  /** For one history of requests with non-negative times, the sorted-set
    * store never counts more than the local cache: it merges repeated
    * members and drops the boundary second. */
  lemma {:induction false} SortedSetsCountAtMostCache(es: seq<Member>, windowStart: int)
    requires forall i :: 0 <= i < |es| ==> es[i].time >= 0
    ensures |Surviving(Elements(es), windowStart)| <= |KeepFrom(Times(es), windowStart)|
    decreases |es|
  {
    if es != [] {
      var front := es[..|es| - 1];
      var e := es[|es| - 1];
      SortedSetsCountAtMostCache(front, windowStart);
      assert es == front + [e];
      assert Elements(es) == Elements(front) + {e};
      assert Times(es) == Times(front) + [e.time];
      KeepFromSnoc(Times(front), e.time, windowStart);
      SurvivingAdd(Elements(front), e, windowStart);
    }
  }
}
