/** Sliding windows, counter scopes and the names of the counters the
  * limiter keeps in its store. */
module Keys {

  /** The three sliding windows, in the order the limiter walks them. */
  datatype Window = Minute | Hour | Day

  /** Whose traffic a counter measures: a client address or an account. */
  datatype Scope = Ip | User

  /** One counter: `rate_limit:{action}:{scope}:{identifier}:{window}`. */
  datatype Key = Key(action: string, scope: Scope, identifier: string, window: Window)

  const AllWindows: seq<Window> := [Minute, Hour, Day]

  /** Length of the sliding window, in seconds. */
  function WindowSeconds(w: Window): int {
    match w
    case Minute => 60
    case Hour => 3600
    case Day => 86400
  }

  /** Lifetime given to a counter key each time a request is recorded in it. */
  function KeyTtl(w: Window): int {
    match w
    case Minute => 120
    case Hour => 7200
    case Day => 172800
  }

  function WindowName(w: Window): string {
    match w
    case Minute => "minute"
    case Hour => "hour"
    case Day => "day"
  }

  function ScopeName(s: Scope): string {
    match s
    case Ip => "ip"
    case User => "user"
  }

  const KeyPrefix: string := "rate_limit:"

  /** The store key the limiter reads and writes for `k`. */
  function KeyName(k: Key): string {
    KeyPrefix + Join(k.action, Join(ScopeName(k.scope), Join(k.identifier, WindowName(k.window))))
  }

  /** Two name segments separated by a colon. */
  function Join(a: string, b: string): string {
    a + ":" + b
  }

  /** The three keys of one scope, in window order. */
  function ScopeKeys(action: string, scope: Scope, identifier: string): (ks: seq<Key>)
    ensures |ks| == 3
    ensures forall i :: 0 <= i < 3 ==> ks[i] == Key(action, scope, identifier, AllWindows[i])
  {
    [Key(action, scope, identifier, Minute), Key(action, scope, identifier, Hour), Key(action, scope, identifier, Day)]
  }

  /** A scope's keys are exactly the keys of its action, scope and
    * identifier, one per window, each once. */
  lemma ScopeKeysExactly(action: string, scope: Scope, identifier: string)
    ensures var ks := ScopeKeys(action, scope, identifier);
      && (forall k: Key :: k in ks <==> k.action == action && k.scope == scope && k.identifier == identifier)
      && (forall i, j :: 0 <= i < j < |ks| ==> ks[i] != ks[j])
  {
    var ks := ScopeKeys(action, scope, identifier);
    forall k: Key | k.action == action && k.scope == scope && k.identifier == identifier
      ensures k in ks
    {
      match k.window
      case Minute => assert k == ks[0];
      case Hour => assert k == ks[1];
      case Day => assert k == ks[2];
    }
  }

  predicate ColonFree(s: string) {
    forall i :: 0 <= i < |s| ==> s[i] != ':'
  }

  /** Every key lives under the common prefix, so a prefix scan finds them all. */
  lemma KeyNameHasPrefix(k: Key)
    ensures KeyPrefix <= KeyName(k)
  {
  }

  /** A key outlives its window: each record keeps events at least one
    * full window beyond their age limit. */
  lemma TtlCoversWindow(w: Window)
    ensures KeyTtl(w) == 2 * WindowSeconds(w)
  {
  }

  lemma JoinShape(a: string, b: string)
    ensures |Join(a, b)| == |a| + 1 + |b|
    ensures Join(a, b)[|a|] == ':'
    ensures forall i :: 0 <= i < |a| ==> Join(a, b)[i] == a[i]
    ensures forall i :: 0 <= i < |b| ==> Join(a, b)[|a| + 1 + i] == b[i]
  {
  }

  /** Splitting at the first colon: a colon-free head is recovered exactly. */
  lemma {:induction false} SplitFirstColon(a1: string, r1: string, a2: string, r2: string)
    requires ColonFree(a1) && ColonFree(a2)
    requires Join(a1, r1) == Join(a2, r2)
    ensures a1 == a2 && r1 == r2
  {
    var s := Join(a1, r1);
    assert |a1| == |a2| by {
      JoinShape(a1, r1);
      JoinShape(a2, r2);
      if |a1| < |a2| {
        assert false;
      } else if |a2| < |a1| {
        assert false;
      }
    }
    assert a1 == s[..|a1|] == a2;
    assert r1 == s[|a1| + 1..] == r2;
  }

  /** Splitting at the last colon: a colon-free tail is recovered exactly. */
  lemma {:induction false} SplitLastColon(x1: string, w1: string, x2: string, w2: string)
    requires ColonFree(w1) && ColonFree(w2)
    requires Join(x1, w1) == Join(x2, w2)
    ensures x1 == x2 && w1 == w2
  {
    var s := Join(x1, w1);
    assert |w1| == |w2| by {
      JoinShape(x1, w1);
      JoinShape(x2, w2);
      if |w1| < |w2| {
        assert false;
      } else if |w2| < |w1| {
        assert false;
      }
    }
    assert x1 == s[..|x1|] == x2;
    assert w1 == s[|x1| + 1..] == w2;
  }

  /** Distinct counters have distinct store keys whenever the action names
    * carry no colon (every action the limiter is called with): the
    * identifier may contain colons, yet it is delimited by the scope on one
    * side and the colon-free window name on the other. */
  lemma {:induction false} KeyNameInjective(k1: Key, k2: Key)
    requires ColonFree(k1.action) && ColonFree(k2.action)
    requires KeyName(k1) == KeyName(k2)
    ensures k1 == k2
  {
    var t1 := Join(k1.identifier, WindowName(k1.window));
    var t2 := Join(k2.identifier, WindowName(k2.window));
    var r1 := Join(ScopeName(k1.scope), t1);
    var r2 := Join(ScopeName(k2.scope), t2);
    assert Join(k1.action, r1) == KeyName(k1)[|KeyPrefix|..] == KeyName(k2)[|KeyPrefix|..] == Join(k2.action, r2);
    SplitFirstColon(k1.action, r1, k2.action, r2);
    SplitFirstColon(ScopeName(k1.scope), t1, ScopeName(k2.scope), t2);
    assert k1.scope == k2.scope;
    SplitLastColon(k1.identifier, WindowName(k1.window), k2.identifier, WindowName(k2.window));
    assert k1.window == k2.window;
  }

  /** The key-list builder of the limiter: one
    * `rate_limit:{action}:{identifier}:{window}` name per window name. */
  function RateLimitKeys(identifier: string, action: string, windows: seq<string>): (names: seq<string>)
    ensures |names| == |windows|
    ensures forall i :: 0 <= i < |windows| ==>
      names[i] == KeyPrefix + action + ":" + identifier + ":" + windows[i]
  {
    if windows == [] then
      []
    else
      RateLimitKeys(identifier, action, windows[..|windows| - 1])
        + [KeyPrefix + action + ":" + identifier + ":" + windows[|windows| - 1]]
  }

  /** The builder writes no scope segment of its own: it names the limiter's
    * counters only when the identifier passed in is already scope-prefixed. */
  lemma RateLimitKeysMatchCounters(action: string, scope: Scope, identifier: string)
    ensures RateLimitKeys(ScopeName(scope) + ":" + identifier, action, ["minute", "hour", "day"])
      == seq(3, i requires 0 <= i < 3 => KeyName(ScopeKeys(action, scope, identifier)[i]))
  {
    var names := RateLimitKeys(ScopeName(scope) + ":" + identifier, action, ["minute", "hour", "day"]);
    var ks := ScopeKeys(action, scope, identifier);
    forall i | 0 <= i < 3
      ensures names[i] == KeyName(ks[i])
    {
      assert WindowName(AllWindows[i]) == ["minute", "hour", "day"][i];
      KeyNameRegrouped(ks[i]);
    }
  }

  /** The counter name, grouped as the key builder writes it. */
  lemma KeyNameRegrouped(k: Key)
    ensures KeyName(k) == KeyPrefix + k.action + ":" + (ScopeName(k.scope) + ":" + k.identifier) + ":" + WindowName(k.window)
  {
  }
}
