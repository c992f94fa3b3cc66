/**
 * The few pieces of JavaScript value semantics that the viewer components rely on:
 * nullable values, numbers with their non-finite values, integer rounding, and the
 * string operations `toLowerCase`, `indexOf`, `includes`, `substring`, `trim` and
 * number-to-string conversion.
 *
 * Finite numbers are exact rationals (`real`), so floating-point rounding is not modelled.
 */
module JsValues {

  /** A value that may be `null` (or `undefined`). */
  datatype Option<+T> = None | Some(value: T)

  /** A JavaScript string is truthy exactly when it is present and non-empty. */
  predicate Truthy(s: Option<string>)
    ensures !Truthy(s) <==> s == None || s == Some("")
  {
    s.Some? && s.value != ""
  }

  // ---------------------------------------------------------------------------
  // Numbers
  // ---------------------------------------------------------------------------

  /** A JavaScript number: a finite value, one of the two infinities, or NaN. */
  datatype Number = Finite(v: real) | PosInfinity | NegInfinity | NaN

  /** `Math.floor` on a finite value. */
  function Floor(x: real): (r: int)
    ensures r as real <= x < r as real + 1.0
  {
    x.Floor
  }

  /** `Math.ceil` on a finite value: the least integer not below `x`. */
  function Ceil(x: real): (r: int)
    ensures x <= r as real < x + 1.0
  {
    -Floor(-x)
  }

  /** `Math.round` on a finite value: halves round up, towards positive infinity. */
  function Round(x: real): (r: int)
    ensures r as real - 0.5 <= x < r as real + 0.5
  {
    Floor(x + 0.5)
  }

  /** `a / b` for two finite numbers (signed zeros are not distinguished). */
  function Divide(a: real, b: real): (r: Number)
    ensures r.Finite? <==> b != 0.0
    ensures r.Finite? ==> r.v * b == a
    ensures b == 0.0 && a > 0.0 ==> r == PosInfinity
    ensures b == 0.0 && a < 0.0 ==> r == NegInfinity
    ensures b == 0.0 && a == 0.0 ==> r == NaN
  {
    if b != 0.0 then Finite(a / b)
    else if a > 0.0 then PosInfinity
    else if a < 0.0 then NegInfinity
    else NaN
  }

  /** `n * k` for a finite `k`; an infinity times zero is NaN. */
  function Times(n: Number, k: real): (r: Number)
    ensures r.Finite? <==> n.Finite?
    ensures n.Finite? ==> r.v == n.v * k
    ensures !n.Finite? && k == 0.0 ==> r == NaN
    ensures n == NaN ==> r == NaN
    ensures (n == PosInfinity && k > 0.0) || (n == NegInfinity && k < 0.0) ==> r == PosInfinity
    ensures (n == PosInfinity && k < 0.0) || (n == NegInfinity && k > 0.0) ==> r == NegInfinity
  {
    match n
    case Finite(v) => Finite(v * k)
    case NaN => NaN
    case PosInfinity => if k > 0.0 then PosInfinity else if k < 0.0 then NegInfinity else NaN
    case NegInfinity => if k > 0.0 then NegInfinity else if k < 0.0 then PosInfinity else NaN
  }

  /** `Math.ceil(n)`: non-finite values pass through. */
  function CeilNumber(n: Number): (r: Number)
    ensures r.Finite? <==> n.Finite?
    ensures n.Finite? ==> IsWhole(r) && n.v <= r.v < n.v + 1.0
    ensures !n.Finite? ==> r == n
  {
    if n.Finite? then Finite(Ceil(n.v) as real) else n
  }

  /** `Math.round(n)`: non-finite values pass through. */
  function RoundNumber(n: Number): (r: Number)
    ensures r.Finite? <==> n.Finite?
    ensures n.Finite? ==> IsWhole(r) && r.v - 0.5 <= n.v < r.v + 0.5
    ensures !n.Finite? ==> r == n
  {
    if n.Finite? then Finite(Round(n.v) as real) else n
  }

  /** `Math.max(m, n)` for a finite `m`: NaN wins over everything. */
  function MaxNumber(m: real, n: Number): (r: Number)
    ensures r == NaN <==> n == NaN
    ensures r != NegInfinity
    ensures r.Finite? ==> m <= r.v && (r.v == m || (n.Finite? && r.v == n.v))
    ensures n.Finite? ==> r.Finite? && n.v <= r.v
    ensures n == NegInfinity ==> r == Finite(m)
    ensures n == PosInfinity ==> r == PosInfinity
  {
    match n
    case Finite(v) => Finite(if m < v then v else m)
    case NaN => NaN
    case PosInfinity => PosInfinity
    case NegInfinity => Finite(m)
  }

  /** True of a number that holds a whole value. */
  predicate IsWhole(n: Number) {
    n.Finite? && n.v == n.v.Floor as real
  }

  // ---------------------------------------------------------------------------
  // Strings
  // ---------------------------------------------------------------------------

  /** Lower-casing of one character (ASCII letters only). */
  function LowerChar(c: char): char {
    if 'A' <= c <= 'Z' then (c as int - 'A' as int + 'a' as int) as char else c
  }

  /** `s.toLowerCase()`, as a per-character, length-preserving map. */
  function Lower(s: string): (r: string)
    ensures |r| == |s|
    ensures forall k :: 0 <= k < |s| ==> r[k] == LowerChar(s[k])
  {
    seq(|s|, k requires 0 <= k < |s| => LowerChar(s[k]))
  }

  /** Lower-casing commutes with slicing. */
  lemma LowerSlice(s: string, a: nat, b: nat)
    requires a <= b <= |s|
    ensures Lower(s[a..b]) == Lower(s)[a..b]
  {
  }

  /** Lower-casing distributes over concatenation. */
  lemma LowerAppend(s: string, t: string)
    ensures Lower(s + t) == Lower(s) + Lower(t)
  {
  }

  /** `q` occurs in `s` at position `i`. */
  predicate OccursAt(s: string, q: string, i: int) {
    0 <= i && i + |q| <= |s| && s[i..i + |q|] == q
  }

  /** `s.includes(q)`: the bound on the position only limits the search to where `q` fits. */
  predicate Contains(s: string, q: string)
    ensures Contains(s, q) <==> exists i :: OccursAt(s, q, i)
    ensures Contains(s, q) ==> |q| <= |s|
  {
    exists i :: 0 <= i <= |s| - |q| && OccursAt(s, q, i)
  }

  /** The first position at or after `from` where `q` occurs in `s`, or -1. */
  function IndexFrom(s: string, q: string, from: nat): (r: int)
    ensures r == -1 || (from <= r && OccursAt(s, q, r))
    ensures r == -1 ==> forall i :: from <= i ==> !OccursAt(s, q, i)
    ensures r != -1 ==> forall i :: from <= i < r ==> !OccursAt(s, q, i)
    decreases |s| - from
  {
    if from + |q| > |s| then -1
    else if s[from..from + |q|] == q then from
    else IndexFrom(s, q, from + 1)
  }

  /** `s.indexOf(q)`: the first occurrence of `q` in `s`, or -1 when there is none. */
  function IndexOf(s: string, q: string): (r: int)
    ensures -1 <= r
    ensures 0 <= r <==> Contains(s, q)
    ensures 0 <= r ==> OccursAt(s, q, r) && forall i :: 0 <= i < r ==> !OccursAt(s, q, i)
  {
    IndexFrom(s, q, 0)
  }

  /** Clamps an index into [0, n], as `substring` does with its arguments. */
  function ClampIndex(i: int, n: nat): (r: nat)
    ensures r <= n
    ensures 0 <= i <= n ==> r == i
  {
    if i < 0 then 0 else if i > n then n else i
  }

  /** `s.substring(a, b)`: both ends clamped into the string, swapped when out of order. */
  function Substring(s: string, a: int, b: int): (r: string)
    ensures 0 <= a <= b <= |s| ==> r == s[a..b]
    ensures |r| <= |s|
  {
    var lo, hi := ClampIndex(a, |s|), ClampIndex(b, |s|);
    if lo <= hi then s[lo..hi] else s[hi..lo]
  }

  /** The characters that `trim` removes: white space and line terminators. */
  predicate IsJsWhiteSpace(c: char) {
    c == ' ' || c == '\t' || c == '\n' || c == '\r' || c == '\U{000B}' || c == '\U{000C}'
    || c == '\U{00A0}' || c == '\U{1680}' || ('\U{2000}' <= c <= '\U{200A}')
    || c == '\U{2028}' || c == '\U{2029}' || c == '\U{202F}' || c == '\U{205F}'
    || c == '\U{3000}' || c == '\U{FEFF}'
  }

  /** `s` without its leading white space. */
  function TrimStart(s: string): string {
    if s != [] && IsJsWhiteSpace(s[0]) then TrimStart(s[1..]) else s
  }

  /** `s` without its trailing white space. */
  function TrimEnd(s: string): string {
    if s != [] && IsJsWhiteSpace(s[|s| - 1]) then TrimEnd(s[..|s| - 1]) else s
  }

  /**
   * `s.trim()`: the slice of `s` left after dropping white space at both ends, which
   * neither starts nor ends with white space.
   */
  function Trim(s: string): (r: string)
    ensures exists i, j ::
      && 0 <= i <= j <= |s|
      && r == s[i..j]
      && (forall k :: 0 <= k < i ==> IsJsWhiteSpace(s[k]))
      && (forall k :: j <= k < |s| ==> IsJsWhiteSpace(s[k]))
    ensures r != [] ==> !IsJsWhiteSpace(r[0]) && !IsJsWhiteSpace(r[|r| - 1])
  {
    TrimShape(s);
    TrimEnd(TrimStart(s))
  }

  /** Trimming the front drops a run of white space: what is left is a suffix. */
  lemma {:induction false} TrimStartSuffix(s: string) returns (i: nat)
    ensures i <= |s| && TrimStart(s) == s[i..]
    ensures forall k :: 0 <= k < i ==> IsJsWhiteSpace(s[k])
  {
    if s != [] && IsJsWhiteSpace(s[0]) {
      var i' := TrimStartSuffix(s[1..]);
      i := i' + 1;
      assert s[1..][i'..] == s[i..];
      assert forall k :: 1 <= k < i ==> s[k] == s[1..][k - 1];
    } else {
      i := 0;
    }
  }

  /** Trimming the back drops a run of white space: what is left is a prefix. */
  lemma {:induction false} TrimEndPrefix(s: string) returns (j: nat)
    ensures j <= |s| && TrimEnd(s) == s[..j]
    ensures forall k :: j <= k < |s| ==> IsJsWhiteSpace(s[k])
    ensures TrimEnd(s) != [] ==> !IsJsWhiteSpace(TrimEnd(s)[|TrimEnd(s)| - 1])
  {
    if s != [] && IsJsWhiteSpace(s[|s| - 1]) {
      j := TrimEndPrefix(s[..|s| - 1]);
      assert s[..|s| - 1][..j] == s[..j];
      assert forall k :: j <= k < |s| - 1 ==> s[k] == s[..|s| - 1][k];
    } else {
      j := |s|;
    }
  }

  /** The shape of `Trim(s)`, as its contract states it. */
  lemma TrimShape(s: string)
    ensures exists i, j ::
      && 0 <= i <= j <= |s|
      && TrimEnd(TrimStart(s)) == s[i..j]
      && (forall k :: 0 <= k < i ==> IsJsWhiteSpace(s[k]))
      && (forall k :: j <= k < |s| ==> IsJsWhiteSpace(s[k]))
    ensures var r := TrimEnd(TrimStart(s));
      r != [] ==> !IsJsWhiteSpace(r[0]) && !IsJsWhiteSpace(r[|r| - 1])
  {
    var i := TrimStartSuffix(s);
    var t := s[i..];
    var j := TrimEndPrefix(t);
    assert t[..j] == s[i..i + j];
    assert forall k :: i + j <= k < |s| ==> s[k] == t[k - i];
    TrimStartHead(s);
  }

  /** Trimming the front leaves nothing exactly when every character is white space. */
  lemma {:induction false} TrimStartEmpty(s: string)
    ensures TrimStart(s) == [] <==> forall k :: 0 <= k < |s| ==> IsJsWhiteSpace(s[k])
  {
    if s != [] && IsJsWhiteSpace(s[0]) {
      TrimStartEmpty(s[1..]);
      assert forall k :: 1 <= k < |s| ==> s[k] == s[1..][k - 1];
    }
  }

  /** Trimming the back leaves nothing exactly when every character is white space. */
  lemma {:induction false} TrimEndEmpty(s: string)
    ensures TrimEnd(s) == [] <==> forall k :: 0 <= k < |s| ==> IsJsWhiteSpace(s[k])
  {
    if s != [] && IsJsWhiteSpace(s[|s| - 1]) {
      TrimEndEmpty(s[..|s| - 1]);
      assert forall k :: 0 <= k < |s| - 1 ==> s[k] == s[..|s| - 1][k];
    }
  }

  /** What is left after trimming the front starts with a character that is not white space. */
  lemma {:induction false} TrimStartHead(s: string)
    ensures TrimStart(s) != [] ==> !IsJsWhiteSpace(TrimStart(s)[0])
  {
    if s != [] && IsJsWhiteSpace(s[0]) {
      TrimStartHead(s[1..]);
    }
  }

  /** `s.trim()` is empty exactly when every character of `s` is white space. */
  lemma TrimEmpty(s: string)
    ensures Trim(s) == [] <==> forall k :: 0 <= k < |s| ==> IsJsWhiteSpace(s[k])
  {
    TrimStartEmpty(s);
    TrimStartHead(s);
    TrimEndEmpty(TrimStart(s));
  }

  /**
   * `!s.trim()`: every character is white space, so that trimming leaves the empty
   * string.
   */
  predicate IsBlank(s: string)
    ensures IsBlank(s) <==> Trim(s) == []
  {
    TrimEmpty(s);
    forall k :: 0 <= k < |s| ==> IsJsWhiteSpace(s[k])
  }

  /** The decimal digit for `d`. */
  function DigitChar(d: nat): char
    requires d < 10
  {
    ('0' as int + d) as char
  }

  /** The decimal digits of `n` without leading zeros, as `String(n)` writes them. */
  function Digits(n: nat): (r: string)
    ensures |r| > 0
    ensures forall k :: 0 <= k < |r| ==> '0' <= r[k] <= '9'
    ensures r[0] == '0' ==> n == 0 && |r| == 1
  {
    if n < 10 then [DigitChar(n)] else Digits(n / 10) + [DigitChar(n % 10)]
  }

  /** Reads a string of decimal digits back as a number. */
  function ParseDigits(s: string): nat
    requires forall k :: 0 <= k < |s| ==> '0' <= s[k] <= '9'
  {
    if s == [] then 0
    else ParseDigits(s[..|s| - 1]) * 10 + (s[|s| - 1] as int - '0' as int)
  }

  /** Writing a number in decimal and reading it back gives the number. */
  lemma {:induction false} DigitsRoundTrip(n: nat)
    ensures ParseDigits(Digits(n)) == n
  {
    if n >= 10 {
      var s := Digits(n);
      assert s[..|s| - 1] == Digits(n / 10);
      DigitsRoundTrip(n / 10);
    }
  }

  /** `String(i)` for a whole number: a minus sign for negatives, then the decimal digits of |i|. */
  function IntToString(i: int): (r: string)
    ensures i < 0 <==> (|r| > 0 && r[0] == '-')
    ensures i >= 0 ==> (forall k :: 0 <= k < |r| ==> '0' <= r[k] <= '9') && ParseDigits(r) == i
    ensures i >= 0 ==> |r| > 0 && (r[0] == '0' ==> i == 0)
    ensures i == 0 ==> r == "0"
    ensures i < 0 ==> (forall k :: 1 <= k < |r| ==> '0' <= r[k] <= '9') && ParseDigits(r[1..]) == -i
    ensures i < 0 ==> |r| > 1 && r[1] != '0'
  {
    if i < 0 then
      DigitsRoundTrip(-i);
      assert ("-" + Digits(-i))[1..] == Digits(-i);
      "-" + Digits(-i)
    else
      DigitsRoundTrip(i);
      Digits(i)
  }
}
