/** Python's `int()` applied to a value taken from a request body: the
  * numbers it accepts, the strings it parses and the values it refuses. */
module IntConversion {
  import opened Common

  /** A value as a request body can carry it. A JSON number with a
    * fraction arrives as a float, modelled by the real it stands for. */
  datatype RawValue =
    | NullValue
    | BoolValue(b: bool)
    | IntValue(n: int)
    | FloatValue(x: real)
    | TextValue(s: string)
    | OtherValue

  predicate IsDigit(c: char) {
    '0' <= c <= '9'
  }

  predicate AllDigits(s: string) {
    forall i :: 0 <= i < |s| ==> IsDigit(s[i])
  }

  /** The whitespace `str.strip()` removes, ASCII part. */
  predicate IsSpace(c: char) {
    c in {' ', '\t', '\n', '\r', '\U{0B}', '\U{0C}'}
  }

  /** The value of a string of decimal digits, leading zeros allowed. */
  function DigitsValue(s: string): nat
    requires AllDigits(s)
    decreases |s|
  {
    if s == [] then 0 else DigitsValue(s[..|s| - 1]) * 10 + ((s[|s| - 1] as int) - ('0' as int))
  }

  function TrimStart(s: string): string
    decreases |s|
  {
    if s != [] && IsSpace(s[0]) then TrimStart(s[1..]) else s
  }

  function TrimEnd(s: string): string
    decreases |s|
  {
    if s != [] && IsSpace(s[|s| - 1]) then TrimEnd(s[..|s| - 1]) else s
  }

  /** `str.strip()` on the ASCII whitespace. */
  function Strip(s: string): string {
    TrimEnd(TrimStart(s))
  }

  /** An optional sign followed by at least one digit, read as a number. */
  function ParseSigned(t: string): Option<int> {
    if |t| > 0 && (t[0] == '-' || t[0] == '+') then
      if |t| > 1 && AllDigits(t[1..]) then Some(if t[0] == '-' then -(DigitsValue(t[1..]) as int) else DigitsValue(t[1..]))
      else None
    else if |t| > 0 && AllDigits(t) then Some(DigitsValue(t))
    else None
  }

  /** `int(s)` for a string: surrounding whitespace is ignored; anything
    * else than a signed run of digits raises `ValueError` (None). */
  function ParseInt(s: string): Option<int> {
    ParseSigned(Strip(s))
  }

  /** `int(x)` for a float: the fraction is cut off, toward zero. */
  function TruncateTowardZero(x: real): int {
    if x >= 0.0 then x.Floor else -((-x).Floor)
  }

  /** `int(v)`, or None when it raises (`TypeError` for null and for
    * containers, `ValueError` for a string that is not a number). */
  function PyInt(v: RawValue): Option<int> {
    match v
    case NullValue => None
    case BoolValue(b) => Some(if b then 1 else 0)
    case IntValue(n) => Some(n)
    case FloatValue(x) => Some(TruncateTowardZero(x))
    case TextValue(s) => ParseInt(s)
    case OtherValue => None
  }

  /** The digits `str(n)` writes read back as `n`. */
  lemma {:induction false} DecimalRoundTrip(n: nat)
    ensures |NatToString(n)| > 0 && AllDigits(NatToString(n))
    ensures DigitsValue(NatToString(n)) == n
    decreases n
  {
    if n >= 10 {
      DecimalRoundTrip(n / 10);
      var s := NatToString(n);
      assert s[..|s| - 1] == NatToString(n / 10);
    }
  }

  /** `int(str(n)) == n` for every integer, with or without surrounding
    * whitespace. */
  lemma TextRoundTrip(n: int, pad: string)
    requires forall i :: 0 <= i < |pad| ==> IsSpace(pad[i])
    ensures ParseInt(IntToString(n)) == Some(n)
    ensures ParseInt(pad + IntToString(n) + pad) == Some(n)
  {
    var s := IntToString(n);
    var m: nat := if n < 0 then -n else n;
    DecimalRoundTrip(m);
    assert s[0] == '-' || IsDigit(s[0]);
    assert IsDigit(s[|s| - 1]);
    assert Strip(s) == s;
    if n < 0 {
      assert s[1..] == NatToString(m);
    }
    PaddingStrips(pad, s);
  }

  /** Whitespace around a string that starts and ends with something else
    * is stripped away and nothing more. */
  lemma PaddingStrips(pad: string, s: string)
    requires forall i :: 0 <= i < |pad| ==> IsSpace(pad[i])
    requires |s| > 0 && !IsSpace(s[0]) && !IsSpace(s[|s| - 1])
    ensures Strip(pad + s + pad) == s
  {
    TrimStartPad(pad, s + pad);
    assert pad + s + pad == pad + (s + pad);
    TrimEndPad(s, pad);
  }

  lemma {:induction false} TrimStartPad(pad: string, s: string)
    requires forall i :: 0 <= i < |pad| ==> IsSpace(pad[i])
    requires |s| > 0 && !IsSpace(s[0])
    ensures TrimStart(pad + s) == s
    decreases |pad|
  {
    if pad != [] {
      assert (pad + s)[1..] == pad[1..] + s;
      TrimStartPad(pad[1..], s);
    }
  }

  lemma {:induction false} TrimEndPad(s: string, pad: string)
    requires forall i :: 0 <= i < |pad| ==> IsSpace(pad[i])
    requires |s| > 0 && !IsSpace(s[|s| - 1])
    ensures TrimEnd(s + pad) == s
    decreases |pad|
  {
    if pad != [] {
      assert (s + pad)[..|s + pad| - 1] == s + pad[..|pad| - 1];
      TrimEndPad(s, pad[..|pad| - 1]);
    }
  }

  /** A string with no digit in it is never a number. */
  lemma NoDigitsNoNumber(s: string)
    requires forall i :: 0 <= i < |s| ==> !IsDigit(s[i])
    ensures ParseInt(s) == None
  {
    StripIsSlice(s);
  }

  /** Stripping keeps a contiguous part of the string. */
  lemma StripIsSlice(s: string)
    ensures exists i, j :: 0 <= i <= j <= |s| && Strip(s) == s[i..j]
  {
    var i := TrimStartSlice(s);
    var j := TrimEndSlice(s[i..]);
    assert s[i..][..j] == s[i..i + j];
  }

  lemma {:induction false} TrimStartSlice(s: string) returns (i: int)
    ensures 0 <= i <= |s| && TrimStart(s) == s[i..]
    decreases |s|
  {
    if s != [] && IsSpace(s[0]) {
      var k := TrimStartSlice(s[1..]);
      assert s[1..][k..] == s[k + 1..];
      i := k + 1;
    } else {
      i := 0;
    }
  }

  lemma {:induction false} TrimEndSlice(s: string) returns (j: int)
    ensures 0 <= j <= |s| && TrimEnd(s) == s[..j]
    decreases |s|
  {
    if s != [] && IsSpace(s[|s| - 1]) {
      j := TrimEndSlice(s[..|s| - 1]);
      assert s[..|s| - 1][..j] == s[..j];
    } else {
      j := |s|;
    }
  }

  /** A float loses only its fraction: the result has the float's sign and
    * lies less than one away from it, on the side of zero. */
  lemma TruncationBounds(x: real)
    ensures var n := TruncateTowardZero(x);
      && (x >= 0.0 ==> 0 <= n && n as real <= x < n as real + 1.0)
      && (x < 0.0 ==> n <= 0 && n as real - 1.0 < x <= n as real)
  {
  }
}
