/** The Garmin field converters: text cells of a Garmin activity export to
    optional integers, decimals and minutes:seconds times.  The empty cell,
    `--` and `0` mean "not recorded"; thousands separators are dropped. */
module GarminHelpers {
  import opened Wrappers
  import opened Digits
  import opened Dates
  import Helpers

  /** The cells Garmin uses for a missing measurement, compared as exact text */
  predicate IsSentinel(s: string) {
    s == "" || s == "--" || s == "0"
  }

  /** `s.replace(",", "")` */
  function RemoveCommas(s: string): (r: string)
    ensures forall i | 0 <= i < |r| :: r[i] != ','
    ensures |r| <= |s|
    ensures (forall i | 0 <= i < |s| :: s[i] != ',') ==> r == s
  {
    if s == [] then []
    else if s[0] == ',' then RemoveCommas(s[1..])
    else [s[0]] + RemoveCommas(s[1..])
  }

  /** Python's `int(s)` on ASCII text: an optional sign and at least one
      digit; `None` where Python raises `ValueError` */
  function ParseInt(s: string): (r: Option<int>)
    ensures AllDigits(s) && |s| >= 1 ==> r == Some(ValueOf(s))
  {
    if |s| >= 1 && (s[0] == '+' || s[0] == '-') then
      var body := s[1..];
      if |body| >= 1 && AllDigits(body) then
        var v: int := ValueOf(body);
        Some(if s[0] == '-' then -v else v)
      else None
    else if |s| >= 1 && AllDigits(s) then Some(ValueOf(s))
    else None
  }

  /** The unsigned value of `whole.frac` */
  function FixedPoint(whole: string, frac: string): (v: real)
    requires AllDigits(whole) && AllDigits(frac)
    ensures v >= 0.0
  {
    (ValueOf(whole) as real) + (ValueOf(frac) as real) / (Pow10(|frac|) as real)
  }

  /** An unsigned decimal numeral: digits with an optional fractional part,
      at least one digit in all */
  function ParseUnsignedDecimal(s: string): (r: Option<real>)
    ensures r.Some? ==> r.value >= 0.0
    ensures AllDigits(s) && |s| >= 1 ==> r == Some(ValueOf(s) as real)
  {
    match Helpers.IndexOf(s, '.')
    case None =>
      if |s| >= 1 && AllDigits(s) then Some(ValueOf(s) as real) else None
    case Some(j) =>
      var whole, frac := s[..j], s[j + 1..];
      if |whole| + |frac| >= 1 && AllDigits(whole) && AllDigits(frac) then
        Some(FixedPoint(whole, frac))
      else None
  }

  /** `Decimal(s)` on plain ASCII numerals: an optional sign and an
      unsigned decimal; `None` where the model signals `InvalidOperation` */
  function ParseDecimal(s: string): (r: Option<real>)
    ensures AllDigits(s) && |s| >= 1 ==> r == Some(ValueOf(s) as real)
  {
    if |s| >= 1 && (s[0] == '+' || s[0] == '-') then
      match ParseUnsignedDecimal(s[1..])
      case None => None
      case Some(v) => Some(if s[0] == '-' then -v else v)
    else ParseUnsignedDecimal(s)
  }

  /** `garmin_to_int` */
  function GarminToInt(s: string): (r: Result<Option<int>>)
    ensures IsSentinel(s) ==> r == Success(None)
    ensures r.Success? && r.value.Some? ==> ParseInt(RemoveCommas(s)) == r.value
    ensures r.Failure? <==> !IsSentinel(s) && ParseInt(RemoveCommas(s)).None?
  {
    if IsSentinel(s) then Success(None)
    else
      match ParseInt(RemoveCommas(s))
      case Some(n) => Success(Some(n))
      case None => Failure(ValueError("int"))
  }

  /** `garmin_to_decimal` */
  function GarminToDecimal(s: string): (r: Result<Option<real>>)
    ensures IsSentinel(s) ==> r == Success(None)
    ensures r.Success? && r.value.Some? ==> ParseDecimal(RemoveCommas(s)) == r.value
    ensures r.Failure? <==> !IsSentinel(s) && ParseDecimal(RemoveCommas(s)).None?
  {
    if IsSentinel(s) then Success(None)
    else
      match ParseDecimal(RemoveCommas(s))
      case Some(v) => Success(Some(v))
      case None => Failure(InvalidOperation("decimal"))
  }

  /** `datetime.strptime(s, "%M:%S").time()`: minutes and seconds of one
      or two digits each, both below sixty; no comma stripping */
  function ParseMinutesSeconds(s: string): (r: Option<TimeOfDay>)
    ensures r.Some? ==> r.value.hour == 0 && 0 <= r.value.minute < 60 && 0 <= r.value.second < 60
  {
    match Helpers.IndexOf(s, ':')
    case None => None
    case Some(j) =>
      var m := Helpers.SmallNumber(s[..j], 0, 59);
      var sec := Helpers.SmallNumber(s[j + 1..], 0, 59);
      if m.Some? && sec.Some? then Some(TimeOfDay(0, m.value, sec.value)) else None
  }

  /** `garmin_to_time` */
  function GarminToTime(s: string): (r: Result<Option<TimeOfDay>>)
    ensures IsSentinel(s) ==> r == Success(None)
    ensures r.Success? && r.value.Some? ==> ParseMinutesSeconds(s) == r.value
    ensures r.Failure? <==> !IsSentinel(s) && ParseMinutesSeconds(s).None?
  {
    if IsSentinel(s) then Success(None)
    else
      match ParseMinutesSeconds(s)
      case Some(t) => Success(Some(t))
      case None => Failure(ValueError("time"))
  }

  /** `n` with a comma between every group of three digits, as Garmin
      writes large counts (`1,234`) */
  function Grouped(n: nat): string
  {
    if n < 1000 then DecimalString(n)
    else Grouped(n / 1000) + "," + ZeroPadded(n % 1000, 3)
  }

  lemma {:induction false} RemoveCommasConcat(a: string, b: string)
    ensures RemoveCommas(a + b) == RemoveCommas(a) + RemoveCommas(b)
  {
    if a != [] {
      assert (a + b)[1..] == a[1..] + b;
      RemoveCommasConcat(a[1..], b);
    } else {
      assert a + b == b;
    }
  }

  /** Dropping the separators of `Grouped(n)` leaves the digits of `n` */
  lemma {:induction false} UngroupedDigits(n: nat)
    ensures var u := RemoveCommas(Grouped(n)); AllDigits(u) && |u| >= 1 && ValueOf(u) == n
  {
    if n < 1000 {
      ValueOfDecimalString(n);
    } else {
      var hi, lo := Grouped(n / 1000), ZeroPadded(n % 1000, 3);
      UngroupedDigits(n / 1000);
      RemoveCommasConcat(hi + ",", lo);
      RemoveCommasConcat(hi, ",");
      assert RemoveCommas(",") == "";
      assert RemoveCommas(lo) == lo;
      assert Pow10(3) == 1000;
      assert |lo| == 3;
      ValueOfZeroPadded(n % 1000, 3);
      var u := RemoveCommas(Grouped(n));
      assert Grouped(n) == (hi + ",") + lo;
      assert u == RemoveCommas(hi) + lo;
      ValueOfConcat(RemoveCommas(hi), lo);
      assert ValueOf(u) == (n / 1000) * 1000 + n % 1000;
    }
  }

  /** A positive count reads back as itself, written plainly or with
      thousands separators */
  lemma GarminToIntReadsCounts(n: nat)
    requires n > 0
    ensures GarminToInt(DecimalString(n)) == Success(Some(n))
    ensures GarminToInt(Grouped(n)) == Success(Some(n))
  {
    var plain := DecimalString(n);
    ValueOfDecimalString(n);
    assert plain != "0" by { assert plain[0] != '0'; }
    UngroupedDigits(n);
    GroupedNotSentinel(n);
  }

  /** The same for decimals: a positive whole number of miles reads back
      exactly, with or without separators */
  lemma GarminToDecimalReadsWholeNumbers(n: nat)
    requires n > 0
    ensures GarminToDecimal(DecimalString(n)) == Success(Some(n as real))
    ensures GarminToDecimal(Grouped(n)) == Success(Some(n as real))
  {
    var plain := DecimalString(n);
    ValueOfDecimalString(n);
    assert plain != "0" by { assert plain[0] != '0'; }
    UngroupedDigits(n);
    GroupedNotSentinel(n);
  }

  lemma GroupedNotSentinel(n: nat)
    requires n > 0
    ensures !IsSentinel(Grouped(n))
  {
    if n < 1000 {
      assert DecimalString(n)[0] != '0';
    } else {
      assert |Grouped(n)| >= 5;
    }
  }

  /** Every minutes:seconds time written as `MM:SS` reads back */
  lemma GarminToTimeReadsPaces(m: nat, s: nat)
    requires m < 60 && s < 60
    ensures GarminToTime(ZeroPadded(m, 2) + ":" + ZeroPadded(s, 2)) == Success(Some(TimeOfDay(0, m, s)))
  {
    var mm, ss := ZeroPadded(m, 2), ZeroPadded(s, 2);
    var t := mm + ":" + ss;
    assert Pow10(2) == 100;
    ValueOfZeroPadded(m, 2);
    ValueOfZeroPadded(s, 2);
    assert IsDigit(t[0]) && IsDigit(t[1]) && t[2] == ':';
    assert Helpers.IndexOf(t, ':') == Some(2);
    assert t[..2] == mm && t[3..] == ss;
    assert |t| == 5;
  }

  /** Only the exact cell `0` is a sentinel: `00` is the number zero */
  lemma SentinelIsExactText()
    ensures GarminToInt("00") == Success(Some(0))
    ensures GarminToInt("--") == Success(None)
  {
    assert RemoveCommas("00") == "00";
  }

  /** A negative count passes through unchecked */
  lemma NegativeCountRead()
    ensures GarminToInt("-12") == Success(Some(-12))
  {
    assert RemoveCommas("-12") == "-12";
    assert ValueOf("12") == 12;
  }

  /** A thousands separator is dropped before the number is read */
  lemma SeparatorDropped()
    ensures GarminToInt("1,234") == Success(Some(1234))
  {
    assert RemoveCommas("1,234") == "1234";
    assert ValueOf("1234") == 1234 by {
      assert "1234"[..3] == "123";
      assert "123"[..2] == "12";
      assert "12"[..1] == "1";
    }
  }
}
