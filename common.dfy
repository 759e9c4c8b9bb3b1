/** Small shared vocabulary: optional values, Python truthiness of
  * optional strings, substring search and integer rendering. */
module Common {

  datatype Option<T> = None | Some(value: T) {
    function GetOr(default: T): T {
      match this
      case Some(v) => v
      case None => default
    }
  }

  /** Python's truthiness of a value that may be missing or an empty string. */
  predicate Truthy(o: Option<string>) {
    o.Some? && o.value != ""
  }

  function Max(a: int, b: int): int {
    if a >= b then a else b
  }

  function Min(a: int, b: int): int {
    if a <= b then a else b
  }

  /** `sub in s` on Python strings, defined by scanning start positions. */
  predicate Contains(s: string, sub: string)
    decreases |s|
  {
    sub <= s || (|s| > 0 && Contains(s[1..], sub))
  }

  /** The position-based reading of `Contains`: `sub` occurs at index `i`. */
  predicate OccursAt(s: string, sub: string, i: int) {
    0 <= i && i + |sub| <= |s| && s[i..i + |sub|] == sub
  }

  lemma {:induction false} OccursAtContains(s: string, sub: string, i: int)
    requires OccursAt(s, sub, i)
    ensures Contains(s, sub)
    decreases i
  {
    if i == 0 {
      assert s[..|sub|] == sub;
    } else {
      assert s[1..][i - 1..i - 1 + |sub|] == s[i..i + |sub|];
      OccursAtContains(s[1..], sub, i - 1);
    }
  }

  lemma {:induction false} ContainsOccurs(s: string, sub: string) returns (i: int)
    requires Contains(s, sub)
    ensures OccursAt(s, sub, i)
    decreases |s|
  {
    if sub <= s {
      i := 0;
      assert s[..|sub|] == sub;
    } else {
      var j := ContainsOccurs(s[1..], sub);
      assert s[1..][j..j + |sub|] == s[j + 1..j + 1 + |sub|];
      i := j + 1;
    }
  }

  /** A substring of a substring is a substring: the step that lets
    * `/auth/login/` in a path imply `/auth/` in it. */
  lemma {:induction false} ContainsTransitive(s: string, mid: string, sub: string)
    requires Contains(s, mid) && Contains(mid, sub)
    ensures Contains(s, sub)
  {
    var i := ContainsOccurs(s, mid);
    var j := ContainsOccurs(mid, sub);
    assert s[i + j..i + j + |sub|] == sub by {
      forall k | 0 <= k < |sub|
        ensures s[i + j..i + j + |sub|][k] == sub[k]
      {
        assert sub[k] == mid[j + k] == s[i + j + k];
      }
    }
    OccursAtContains(s, sub, i + j);
  }

  /** A string starts with some entry of `prefixes` (a chain of `startswith` tests). */
  predicate StartsWithAny(s: string, prefixes: seq<string>) {
    exists p :: p in prefixes && p <= s
  }

  /** Decimal rendering of a natural number, as Python's `str`. */
  function NatToString(n: nat): string
    decreases n
  {
    if n < 10 then [DigitChar(n)] else NatToString(n / 10) + [DigitChar(n % 10)]
  }

  function DigitChar(d: nat): char
    requires d < 10
  {
    "0123456789"[d]
  }

  /** Python's `str` on an integer. */
  function IntToString(n: int): string {
    if n < 0 then "-" + NatToString(-n) else NatToString(n)
  }
}
