/**
 * JavaScript's `parseFloat` and `parseInt` (with no radix), as far as the version-range
 * classifier uses them. A parsed decimal is kept exactly, as `m * 10^e`, so comparisons with
 * whole numbers are exact; a comparison with `NaN` is false.
 */
module JsNumber {
  import opened Wrappers
  import opened Text

  datatype Num = NaN | PosInf | NegInf | Finite(m: int, e: int)

  /** `m * 10^n`. */
  function Scale(m: int, n: nat): int {
    if n == 0 then m else 10 * Scale(m, n - 1)
  }

  /** `v` with the sign a `SignOf` multiplier gives it. */
  function Signed(sign: int, v: int): int {
    if sign < 0 then -v else v
  }

  /** The length of the run of decimal digits that `s` starts with. */
  function LeadingDigits(s: string): (r: nat)
    ensures r <= |s|
    ensures forall i :: 0 <= i < r ==> IsDigit(s[i])
    ensures r < |s| ==> !IsDigit(s[r])
  {
    if s != [] && IsDigit(s[0]) then 1 + LeadingDigits(s[1..]) else 0
  }

  predicate AllDigits(s: string) {
    forall i :: 0 <= i < |s| ==> IsDigit(s[i])
  }

  lemma LeadingDigitsAll(s: string)
    requires AllDigits(s)
    ensures LeadingDigits(s) == |s|
  {
    if s != [] {
      LeadingDigitsAll(s[1..]);
    }
  }

  lemma {:induction false} LeadingDigitsStop(d: string, x: string)
    requires AllDigits(d) && (x == [] || !IsDigit(x[0]))
    ensures LeadingDigits(d + x) == |d|
    decreases |d|
  {
    if d == [] {
      assert d + x == x;
    } else {
      assert (d + x)[1..] == d[1..] + x;
      LeadingDigitsStop(d[1..], x);
    }
  }

  /** The sign a literal may start with: the multiplier and the number of characters it takes. */
  function SignOf(t: string): (r: (int, nat))
    ensures r.1 <= |t| && (r.0 == 1 || r.0 == -1)
  {
    if t != [] && t[0] == '-' then (-1, 1) else if t != [] && t[0] == '+' then (1, 1) else (1, 0)
  }

  /** The exponent part `e[+-]digits` at the start of `s`, if it is complete. */
  function ExponentOf(s: string): int {
    if |s| >= 2 && (s[0] == 'e' || s[0] == 'E') then
      var sg := SignOf(s[1..]);
      var ds := s[1 + sg.1..];
      var n := LeadingDigits(ds);
      if n == 0 then 0 else Signed(sg.0, DigitsValue(ds[..n]))
    else 0
  }

  /**
   * The digits of a decimal literal at the start of `u` (integer part, then fraction), how many
   * of them are the fraction, and the text after them.
   */
  function Mantissa(u: string): (r: (string, nat, string))
    ensures AllDigits(r.0) && r.1 <= |r.0|
  {
    var n1 := LeadingDigits(u);
    var afterInt := u[n1..];
    if afterInt != [] && afterInt[0] == '.' then
      var n2 := LeadingDigits(afterInt[1..]);
      var digits := u[..n1] + afterInt[1..][..n2];
      assert forall i :: 0 <= i < |digits| ==> IsDigit(digits[i]) by {
        forall i | 0 <= i < |digits| ensures IsDigit(digits[i]) {
          if i >= n1 { assert digits[i] == afterInt[1..][i - n1]; }
        }
      }
      (digits, n2, afterInt[1 + n2..])
    else (u[..n1], 0, afterInt)
  }

  /**
   * `parseFloat(s)`: after leading whitespace, the longest prefix that is a decimal literal
   * (`Infinity`, or digits with an optional fraction and exponent); `NaN` when there is none.
   */
  function ParseFloat(s: string): Num {
    var t := TrimStart(s);
    var sg := SignOf(t);
    var u := t[sg.1..];
    if StartsWith(u, "Infinity") then (if sg.0 < 0 then NegInf else PosInf)
    else
      var mt := Mantissa(u);
      if mt.0 == [] then NaN
      else Finite(Signed(sg.0, DigitsValue(mt.0)), ExponentOf(mt.2) - mt.1)
  }

  /** The sign of `n - k`; `None` for `NaN`. */
  function CompareTo(n: Num, k: int): (r: Option<int>)
    ensures r.Some? ==> -1 <= r.value <= 1
    ensures r.None? <==> n == NaN
  {
    match n
    case NaN => None
    case PosInf => Some(1)
    case NegInf => Some(-1)
    case Finite(m, e) =>
      var p := if e >= 0 then (Scale(m, e), k) else (m, Scale(k, -e));
      Some(if p.0 < p.1 then -1 else if p.0 == p.1 then 0 else 1)
  }

  predicate Le(n: Num, k: int) { CompareTo(n, k).Some? && CompareTo(n, k).value <= 0 }
  predicate Lt(n: Num, k: int) { CompareTo(n, k).Some? && CompareTo(n, k).value < 0 }
  predicate Ge(n: Num, k: int) { CompareTo(n, k).Some? && CompareTo(n, k).value >= 0 }
  predicate Gt(n: Num, k: int) { CompareTo(n, k).Some? && CompareTo(n, k).value > 0 }

  /** A literal that starts with a digit is read by its mantissa alone. */
  lemma ParseFloatFromDigit(s: string)
    requires s != [] && IsDigit(s[0])
    ensures var mt := Mantissa(s);
      ParseFloat(s) == if mt.0 == [] then NaN else Finite(DigitsValue(mt.0), ExponentOf(mt.2) - mt.1)
  {
    TrimStartNoSpace(s);
    assert SignOf(s) == (1, 0);
    assert s[0..] == s;
    NotInfinity(s);
  }

  lemma NotInfinity(s: string)
    requires s != [] && IsDigit(s[0])
    ensures !StartsWith(s, "Infinity")
  {
    if |s| >= 8 { assert s[..8][0] == s[0]; }
  }

  /** A run of digits followed by a character that cannot continue a literal reads as that whole number. */
  lemma ParseFloatDigits(d: string, x: string)
    requires d != [] && AllDigits(d)
    requires x == [] || (!IsDigit(x[0]) && x[0] != '.' && x[0] != 'e' && x[0] != 'E')
    ensures ParseFloat(d + x) == Finite(DigitsValue(d), 0)
  {
    assert (d + x)[0] == d[0];
    ParseFloatFromDigit(d + x);
    MantissaWhole(d, x);
    assert ExponentOf(x) == 0;
  }

  lemma MantissaWhole(d: string, x: string)
    requires AllDigits(d)
    requires x == [] || (!IsDigit(x[0]) && x[0] != '.')
    ensures Mantissa(d + x) == (d, 0, x)
  {
    var s := d + x;
    LeadingDigitsStop(d, x);
    assert s[..|d|] == d && s[|d|..] == x;
  }

  /** The value comparisons on whole numbers are the integer ones. */
  lemma CompareWhole(v: int, k: int)
    ensures Le(Finite(v, 0), k) <==> v <= k
    ensures Lt(Finite(v, 0), k) <==> v < k
    ensures Ge(Finite(v, 0), k) <==> v >= k
    ensures Gt(Finite(v, 0), k) <==> v > k
  {
  }

  function HexDigitValue(c: char): (r: Option<nat>)
    ensures r.Some? ==> r.value < 16
  {
    if '0' <= c <= '9' then Some(c as int - '0' as int)
    else if 'a' <= c <= 'f' then Some(c as int - 'a' as int + 10)
    else if 'A' <= c <= 'F' then Some(c as int - 'A' as int + 10)
    else None
  }

  /** The value of the leading digits of `s` in base 16, with how many there are. */
  function LeadingHex(s: string, acc: nat): (r: (nat, nat))
    ensures r.1 <= |s|
    decreases |s|
  {
    if s != [] && HexDigitValue(s[0]).Some? then
      var h := LeadingHex(s[1..], 16 * acc + HexDigitValue(s[0]).value);
      (h.0, h.1 + 1)
    else (acc, 0)
  }

  /**
   * `parseInt(s)`: after leading whitespace and a sign, a `0x` prefix selects base 16; the
   * leading digits of the base are read, and `NaN` (here `None`) when there are none.
   */
  function ParseInt(s: string): (r: Option<int>) {
    var t := TrimStart(s);
    var sg := SignOf(t);
    var u := t[sg.1..];
    if StartsWith(u, "0x") || StartsWith(u, "0X") then
      var h := LeadingHex(u[2..], 0);
      if h.1 == 0 then None else Some(Signed(sg.0, h.0))
    else
      var n := LeadingDigits(u);
      if n == 0 then None else Some(Signed(sg.0, DigitsValue(u[..n])))
  }

  /** A run of decimal digits reads as its value. */
  lemma ParseIntDigits(d: string)
    requires d != [] && AllDigits(d)
    ensures ParseInt(d) == Some(DigitsValue(d))
  {
    assert IsDigit(d[0]);
    TrimStartNoSpace(d);
    assert SignOf(d) == (1, 0);
    assert d[0..] == d;
    assert !StartsWith(d, "0x") && !StartsWith(d, "0X") by {
      if |d| >= 2 { assert d[..2][1] == d[1]; assert IsDigit(d[1]); }
    }
    LeadingDigitsAll(d);
    assert d[..|d|] == d;
  }
}
