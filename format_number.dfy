/**
 * `format_number` of the packages page: a download count written with a T/B/M/K suffix. The
 * count is modelled as an integer and every division as exact rational arithmetic.
 */
module NumberFormat {
  import opened Wrappers
  import opened Text

  /** The thresholds, largest first, with their suffixes. */
  const Thresholds: seq<(nat, string)> := [(1_000_000_000_000, "T"), (1_000_000_000, "B"), (1_000_000, "M"), (1_000, "K")]

  /** The first threshold from `i` on that `a` reaches. */
  function FirstThreshold(a: nat, i: nat): (r: Option<nat>)
    requires i <= |Thresholds|
    ensures r.Some? ==> i <= r.value < |Thresholds| && Thresholds[r.value].0 <= a
    ensures r.Some? ==> forall j :: i <= j < r.value ==> a < Thresholds[j].0
    ensures r.None? ==> forall j :: i <= j < |Thresholds| ==> a < Thresholds[j].0
    decreases |Thresholds| - i
  {
    if i == |Thresholds| then None
    else if a >= Thresholds[i].0 then Some(i)
    else FirstThreshold(a, i + 1)
  }

  /** How a quotient is brought to a whole number. */
  datatype Rounding = Nearest | Down

  /** `Math.round(a / d)` (halves round up), or `Math.floor(a / d)`. */
  function RoundDiv(a: nat, d: nat, mode: Rounding): (r: nat)
    requires d > 0
    ensures mode == Nearest ==> 2 * r * d <= 2 * a + d < 2 * r * d + 2 * d
    ensures mode == Down ==> r * d <= a < r * d + d
  {
    match mode
    case Nearest => (2 * a + d) / (2 * d)
    case Down => a / d
  }

  /** `(q / 10).toFixed(1).replace(/\.0$/, '')` for a count `q` of tenths. */
  function OneDecimal(q: nat): string {
    var whole := NatToString(q / 10);
    if q % 10 == 0 then whole else whole + "." + [DigitChar(q % 10)]
  }

  /** The text never ends in `.0`, and it has a decimal point exactly when the tenth is not zero. */
  lemma OneDecimalShape(q: nat)
    ensures !EndsWith(OneDecimal(q), ".0")
    ensures (exists i :: 0 <= i < |OneDecimal(q)| && OneDecimal(q)[i] == '.') <==> q % 10 != 0
  {
    var whole := NatToString(q / 10);
    assert forall i :: 0 <= i < |whole| ==> whole[i] != '.';
    if q % 10 == 0 {
      assert |whole| < 2 || whole[|whole| - 2..][0] == whole[|whole| - 2];
    } else {
      var r := whole + "." + [DigitChar(q % 10)];
      assert r[|whole|] == '.';
      assert r[|r| - 2..][1] == r[|r| - 1] == DigitChar(q % 10) != '0';
    }
  }

  /** The tenths read back: the digits before the point are the whole part, the one after it the tenth. */
  lemma OneDecimalValue(q: nat)
    ensures var r := OneDecimal(q);
      if q % 10 == 0 then DigitsValue(r) == q / 10
      else |r| >= 3 && r[|r| - 2] == '.' && DigitsValue(r[..|r| - 2]) == q / 10 && DigitsValue(r[|r| - 1..]) == q % 10
  {
    var whole := NatToString(q / 10);
    NatToStringValue(q / 10);
    if q % 10 != 0 {
      var r := whole + "." + [DigitChar(q % 10)];
      assert r[..|r| - 2] == whole;
      assert r[|r| - 1..] == [DigitChar(q % 10)];
      assert [DigitChar(q % 10)][..0] == [];
    }
  }

  /** The number in units of threshold `v`: one rounded decimal below ten units, else a whole number. */
  function Scaled(a: nat, v: nat, mode: Rounding): string
    requires v >= 10
  {
    if a < 10 * v then OneDecimal(RoundDiv(a, v / 10, mode)) else NatToString(RoundDiv(a, v, mode))
  }

  /** The magnitude with the suffix of the first threshold it reaches, or in full below them all. */
  function Magnitude(a: nat, mode: Rounding): string {
    match FirstThreshold(a, 0)
    case Some(i) => Scaled(a, Thresholds[i].0, mode) + Thresholds[i].1
    case None => NatToString(a)
  }

  function Abs(n: int): nat {
    if n < 0 then -n else n
  }

  /** `format_number`, with the rounding as a parameter. */
  function FormatWith(n: int, mode: Rounding): string {
    if n == 0 then "0" else (if n < 0 then "-" else "") + Magnitude(Abs(n), mode)
  }

  /** `format_number` as written, with `Math.round`. */
  function FormatNumber(n: int): string {
    FormatWith(n, Nearest)
  }

  /** `format_number` with the quotient truncated, which is what its documented examples show. */
  function FormatNumberTruncated(n: int): string {
    FormatWith(n, Down)
  }

  /** Zero is `0`, and a negative count is `-` and the format of its magnitude. */
  lemma SignAndZero(n: int, mode: Rounding)
    ensures FormatWith(0, mode) == "0"
    ensures n < 0 ==> FormatWith(n, mode) == "-" + FormatWith(-n, mode)
  {
    if n < 0 {
      assert Abs(n) == Abs(-n);
      assert FormatWith(-n, mode) == "" + Magnitude(Abs(n), mode);
    }
  }

  /**
   * The suffix is that of the largest threshold the magnitude reaches, and the number before it
   * is the magnitude in units of that threshold.
   */
  lemma LargestThreshold(n: int, i: nat, mode: Rounding)
    requires i < |Thresholds| && Thresholds[i].0 <= Abs(n)
    requires forall j :: 0 <= j < i ==> Abs(n) < Thresholds[j].0
    ensures FormatWith(n, mode) == (if n < 0 then "-" else "") + Scaled(Abs(n), Thresholds[i].0, mode) + Thresholds[i].1
  {
    var r := FirstThreshold(Abs(n), 0);
    assert r.Some? && r.value == i;
    assert Magnitude(Abs(n), mode) == Scaled(Abs(n), Thresholds[i].0, mode) + Thresholds[i].1;
  }

  /** Below a thousand the magnitude is written out in full, with no suffix. */
  lemma BelowThousand(n: int, mode: Rounding)
    requires n != 0 && Abs(n) < 1000
    ensures FormatWith(n, mode) == (if n < 0 then "-" else "") + NatToString(Abs(n))
  {
  }

  /**
   * Below ten units the tenths shown are the nearest to the exact quotient (halves up);
   * from ten units on the whole number shown is the nearest.
   */
  lemma ScaledNearest(a: nat, v: nat)
    requires v >= 10 && v % 10 == 0
    ensures a < 10 * v ==> var q := RoundDiv(a, v / 10, Nearest);
      Scaled(a, v, Nearest) == OneDecimal(q) && 2 * q * (v / 10) <= 2 * a + v / 10 < 2 * q * (v / 10) + 2 * (v / 10)
    ensures a >= 10 * v ==> var q := RoundDiv(a, v, Nearest);
      Scaled(a, v, Nearest) == NatToString(q) && 2 * q * v <= 2 * a + v < 2 * q * v + 2 * v
  {
  }

  lemma NatToString3(n: nat)
    requires 100 <= n < 1000
    ensures NatToString(n) == [DigitChar(n / 100), DigitChar(n / 10 % 10), DigitChar(n % 10)]
  {
    assert NatToString(n / 10) == NatToString(n / 100) + [DigitChar(n / 10 % 10)];
  }

  lemma NatToString2(n: nat)
    requires 10 <= n < 100
    ensures NatToString(n) == [DigitChar(n / 10), DigitChar(n % 10)]
  {
  }

  /** The threshold scan, spelled out. */
  lemma ThresholdOf(a: nat)
    ensures FirstThreshold(a, 0) ==
      if a >= 1_000_000_000_000 then Some(0) else if a >= 1_000_000_000 then Some(1)
      else if a >= 1_000_000 then Some(2) else if a >= 1_000 then Some(3) else None
  {
    assert FirstThreshold(a, 3) == if a >= 1_000 then Some(3) else FirstThreshold(a, 4);
    assert FirstThreshold(a, 2) == if a >= 1_000_000 then Some(2) else FirstThreshold(a, 3);
  }

  /** The magnitude in thousands or millions, once the threshold is known. */
  lemma MagnitudeOf(a: nat, mode: Rounding)
    ensures 1_000 <= a < 1_000_000 ==> Magnitude(a, mode) == Scaled(a, 1_000, mode) + "K"
    ensures 1_000_000 <= a < 1_000_000_000 ==> Magnitude(a, mode) == Scaled(a, 1_000_000, mode) + "M"
    ensures a < 1_000 ==> Magnitude(a, mode) == NatToString(a)
  {
    ThresholdOf(a);
  }

  /** The documented examples with three significant digits are met. */
  lemma DocumentedWholeExamples()
    ensures FormatNumber(437) == "437"
    ensures FormatNumber(437000) == "437K"
    ensures FormatNumber(437000000) == "437M"
  {
    NatToString3(437);
    MagnitudeOf(437, Nearest);
    MagnitudeOf(437000, Nearest);
    MagnitudeOf(437000000, Nearest);
    assert RoundDiv(437000, 1000, Nearest) == 437;
    assert RoundDiv(437000000, 1000000, Nearest) == 437;
  }

  /** As written, 4370 rounds up to `4.4K` and 43700 to `44K`, where the documentation shows `4.3K` and `43K`. */
  lemma RoundedExamples()
    ensures FormatNumber(4370) == "4.4K" && FormatNumber(4370) != "4.3K"
    ensures FormatNumber(43700) == "44K"
  {
    MagnitudeOf(4370, Nearest);
    MagnitudeOf(43700, Nearest);
    NatToString2(44);
    assert RoundDiv(4370, 100, Nearest) == 44;
    assert OneDecimal(44) == "4" + "." + "4";
    assert RoundDiv(43700, 1000, Nearest) == 44;
  }

  /** A positive count is formatted as its magnitude. */
  lemma PositiveFormat(n: int, mode: Rounding)
    requires n > 0
    ensures FormatWith(n, mode) == Magnitude(n, mode)
  {
    assert Abs(n) == n;
  }

  /** Truncated, below ten units the tenths are the quotient by a tenth of the unit; from ten units on, the whole quotient. */
  lemma ScaledDown(a: nat, v: nat)
    requires v >= 10
    ensures a < 10 * v ==> Scaled(a, v, Down) == OneDecimal(a / (v / 10))
    ensures a >= 10 * v ==> Scaled(a, v, Down) == NatToString(a / v)
  {
  }

  /** Tenths between one and ten with a non-zero tenth: the digit, the point and the tenth. */
  lemma OneDecimalTwoDigits(q: nat)
    requires 10 <= q < 100 && q % 10 != 0
    ensures OneDecimal(q) == [DigitChar(q / 10), '.', DigitChar(q % 10)]
  {
    assert NatToString(q / 10) == [DigitChar(q / 10)];
  }

  /** Truncated, a count below ten thousand with a non-zero tenth is its thousands, the point and that tenth. */
  lemma DownThousandsTenths(a: nat)
    requires 1_000 <= a < 10_000 && a / 100 % 10 != 0
    ensures FormatNumberTruncated(a) == [DigitChar(a / 1_000), '.', DigitChar(a / 100 % 10), 'K']
  {
    PositiveFormat(a, Down);
    MagnitudeOf(a, Down);
    ScaledDown(a, 1_000);
    OneDecimalTwoDigits(a / 100);
    assert a / 100 / 10 == a / 1_000;
  }

  /** Truncated, a count from ten thousand to a million is its whole thousands. */
  lemma DownThousandsWhole(a: nat)
    requires 10_000 <= a < 1_000_000
    ensures FormatNumberTruncated(a) == NatToString(a / 1_000) + "K"
  {
    PositiveFormat(a, Down);
    MagnitudeOf(a, Down);
    ScaledDown(a, 1_000);
  }

  /** Truncated, a count below ten million with a non-zero tenth is its millions, the point and that tenth. */
  lemma DownMillionsTenths(a: nat)
    requires 1_000_000 <= a < 10_000_000 && a / 100_000 % 10 != 0
    ensures FormatNumberTruncated(a) == [DigitChar(a / 1_000_000), '.', DigitChar(a / 100_000 % 10), 'M']
  {
    PositiveFormat(a, Down);
    MagnitudeOf(a, Down);
    ScaledDown(a, 1_000_000);
    OneDecimalTwoDigits(a / 100_000);
    assert a / 100_000 / 10 == a / 1_000_000;
  }

  /** Truncated, a count from ten million to a billion is its whole millions. */
  lemma DownMillionsWhole(a: nat)
    requires 10_000_000 <= a < 1_000_000_000
    ensures FormatNumberTruncated(a) == NatToString(a / 1_000_000) + "M"
  {
    PositiveFormat(a, Down);
    MagnitudeOf(a, Down);
    ScaledDown(a, 1_000_000);
  }

  lemma Text43()
    ensures NatToString(43) == "43"
  {
    NatToString2(43);
    assert DigitChar(4) == '4' && DigitChar(3) == '3';
  }

  lemma Text437()
    ensures NatToString(437) == "437"
  {
    NatToString3(437);
    assert DigitChar(4) == '4' && DigitChar(3) == '3' && DigitChar(7) == '7';
  }

  /** Truncating the quotient meets the documented examples below a million. */
  lemma TruncatedThousands(n: int)
    ensures n == 437 ==> FormatNumberTruncated(n) == "437"
    ensures n == 4370 ==> FormatNumberTruncated(n) == "4.3K"
    ensures n == 43700 ==> FormatNumberTruncated(n) == "43K"
    ensures n == 437000 ==> FormatNumberTruncated(n) == "437K"
  {
    if n == 437 {
      Text437();
      PositiveFormat(n, Down);
      MagnitudeOf(n, Down);
    } else if n == 4370 {
      assert n / 1_000 == 4 && n / 100 % 10 == 3 && DigitChar(4) == '4' && DigitChar(3) == '3';
      DownThousandsTenths(n);
      assert [DigitChar(n / 1_000), '.', DigitChar(n / 100 % 10), 'K'] == "4.3K";
    } else if n == 43700 {
      Text43();
      DownThousandsWhole(n);
      assert n / 1_000 == 43;
    } else if n == 437000 {
      Text437();
      DownThousandsWhole(n);
      assert n / 1_000 == 437;
    }
  }

  /** Truncating the quotient meets the documented examples in millions. */
  lemma TruncatedMillions(n: int)
    ensures n == 4370000 ==> FormatNumberTruncated(n) == "4.3M"
    ensures n == 43700000 ==> FormatNumberTruncated(n) == "43M"
    ensures n == 437000000 ==> FormatNumberTruncated(n) == "437M"
  {
    if n == 4370000 {
      assert n / 1_000_000 == 4 && n / 100_000 % 10 == 3 && DigitChar(4) == '4' && DigitChar(3) == '3';
      DownMillionsTenths(n);
      assert [DigitChar(n / 1_000_000), '.', DigitChar(n / 100_000 % 10), 'M'] == "4.3M";
    } else if n == 43700000 {
      Text43();
      DownMillionsWhole(n);
      assert n / 1_000_000 == 43;
    } else if n == 437000000 {
      Text437();
      DownMillionsWhole(n);
      assert n / 1_000_000 == 437;
    }
  }

  /** Truncation shows the largest number of tenths (or units) that does not exceed the quotient. */
  lemma ScaledTruncated(a: nat, v: nat)
    requires v >= 10 && v % 10 == 0
    ensures a < 10 * v ==> var q := RoundDiv(a, v / 10, Down);
      Scaled(a, v, Down) == OneDecimal(q) && q * (v / 10) <= a < q * (v / 10) + v / 10
    ensures a >= 10 * v ==> var q := RoundDiv(a, v, Down);
      Scaled(a, v, Down) == NatToString(q) && q * v <= a < q * v + v
  {
  }
}
