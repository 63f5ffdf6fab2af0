/** The date and duration helpers shared by the activity, goal and athlete
    code: `td_cvt`, `is_date` and `parse_date`. */
module Helpers {
  import opened Wrappers
  import opened Digits
  import opened Dates

  /** Python's `datetime.timedelta` at whole-second resolution.  Python
      keeps `0 <= seconds < 86400`; `days` may be negative. */
  datatype TimeDelta = TimeDelta(days: int, seconds: int)

  /** The normalised timedelta of a signed number of seconds, as
      `timedelta(seconds=total)` builds it */
  function FromSeconds(total: int): (td: TimeDelta)
    ensures 0 <= td.seconds < 86400
    ensures 86400 * td.days + td.seconds == total
  {
    TimeDelta(total / 86400, total % 86400)
  }

  /** `td_cvt`: whole hours, minutes and seconds of a timedelta.  Python's
      `//` and `%` floor, which for the positive divisors used here is what
      Dafny's Euclidean `/` and `%` compute. */
  function TdCvt(td: TimeDelta): (hms: (int, int, int))
    ensures 3600 * hms.0 + 60 * hms.1 + hms.2 == 86400 * td.days + td.seconds
    ensures 0 <= hms.1 < 60 && 0 <= hms.2 < 60
    ensures td.days >= 0 && td.seconds >= 0 ==> hms.0 >= 24 * td.days
  {
    var total := td.days * 86400 + td.seconds;
    var rest := total % 3600;
    (total / 3600, rest / 60, rest % 60)
  }

  /** The decomposition `TdCvt` returns is the only one with minutes and
      seconds below sixty, so hours absorb whole days instead of wrapping */
  lemma TdCvtUnique(td: TimeDelta, h: int, m: int, s: int)
    requires 3600 * h + 60 * m + s == 86400 * td.days + td.seconds
    requires 0 <= m < 60 && 0 <= s < 60
    ensures TdCvt(td) == (h, m, s)
  {
    var r := TdCvt(td);
    var x := 60 * m + s;
    var y := 60 * r.1 + r.2;
    assert 0 <= x < 3600 && 0 <= y < 3600;
    assert 3600 * (h - r.0) == y - x;
    assert h == r.0;
    assert 60 * (m - r.1) == r.2 - s;
  }

  /** A token of one or two ASCII digits whose value lies in [lo, hi] */
  function SmallNumber(t: string, lo: int, hi: int): (r: Option<nat>)
    ensures r.Some? ==> lo <= r.value <= hi && 1 <= |t| <= 2 && AllDigits(t)
  {
    if 1 <= |t| <= 2 && AllDigits(t) && lo <= ValueOf(t) <= hi then Some(ValueOf(t))
    else None
  }

  /** The month field of `%m`: `1`..`9`, `01`..`09`, `10`..`12` */
  function MonthField(t: string): Option<nat> {
    SmallNumber(t, 1, 12)
  }

  /** The day field of `%d`: `1`..`9`, `01`..`31`, or a space and `1`..`9` */
  function DayField(t: string): (r: Option<nat>)
    ensures r.Some? ==> 1 <= r.value <= 31
  {
    if |t| == 2 && t[0] == ' ' && '1' <= t[1] <= '9' then Some(DigitValue(t[1]))
    else SmallNumber(t, 1, 31)
  }

  /** Position of the first `c` in `s` */
  function IndexOf(s: string, c: char): (r: Option<nat>)
    ensures r.Some? ==> r.value < |s| && s[r.value] == c
    ensures r.Some? ==> forall i | 0 <= i < r.value :: s[i] != c
    ensures r.None? ==> forall i | 0 <= i < |s| :: s[i] != c
  {
    if s == [] then None
    else if s[0] == c then Some(0)
    else match IndexOf(s[1..], c)
      case None => None
      case Some(i) => Some(i + 1)
  }

  /** `parse_date`: `datetime.strptime(s, "%Y-%m-%d").date()`, `None` where
      Python raises `ValueError`: four digits of year, a dash, the month
      field, a dash, the day field and nothing after it, naming a real date */
  function ParseDate(s: string): (r: Option<Date>)
    ensures r.Some? ==> ValidDate(r.value)
  {
    if |s| < 5 || !AllDigits(s[..4]) || s[4] != '-' then None
    else
      var rest := s[5..];
      match IndexOf(rest, '-')
      case None => None
      case Some(j) =>
        var m := MonthField(rest[..j]);
        var d := DayField(rest[j + 1..]);
        if m.None? || d.None? then None
        else
          var date := Date(ValueOf(s[..4]), m.value, d.value);
          if ValidDate(date) then Some(date) else None
  }

  /** `is_date`: whether `parse_date` would succeed; the two share one
      format, so this holds by definition */
  predicate IsDate(s: string) {
    ParseDate(s).Some?
  }

  /** The `YYYY-MM-DD` text of a date, as `date.isoformat()` writes it */
  function IsoDate(d: Date): string
    requires ValidDate(d)
  {
    ZeroPadded(d.year, 4) + "-" + ZeroPadded(d.month, 2) + "-" + ZeroPadded(d.day, 2)
  }

  /** `parse_date` reads four year digits, a month field of one or two
      digits and a day field of one or two digits, and accepts exactly the
      real dates among them */
  lemma {:induction false} ParseDateFields(ys: string, ms: string, ds: string)
    requires |ys| == 4 && AllDigits(ys)
    requires 1 <= |ms| <= 2 && AllDigits(ms) && 1 <= ValueOf(ms) <= 12
    requires 1 <= |ds| <= 2 && AllDigits(ds) && 1 <= ValueOf(ds) <= 31
    ensures var d := Date(ValueOf(ys), ValueOf(ms), ValueOf(ds));
            ParseDate(ys + "-" + ms + "-" + ds) == if ValidDate(d) then Some(d) else None
  {
    var s := ys + "-" + ms + "-" + ds;
    assert s[..4] == ys && s[4] == '-';
    var rest := s[5..];
    assert rest == ms + ("-" + ds);
    IndexAfterDigits(ms, "-" + ds);
    assert IndexOf(rest, '-') == Some(|ms|);
    assert rest[..|ms|] == ms && rest[|ms| + 1..] == ds;
    assert MonthField(ms) == Some(ValueOf(ms));
    assert IsDigit(ds[0]);
    assert DayField(ds) == Some(ValueOf(ds));
  }

  /** The first dash after a run of digits is the one that ends it */
  lemma {:induction false} IndexAfterDigits(digits: string, tail: string)
    requires AllDigits(digits) && |tail| > 0 && tail[0] == '-'
    ensures IndexOf(digits + tail, '-') == Some(|digits|)
  {
    if digits == [] {
      assert digits + tail == tail;
    } else {
      assert (digits + tail)[1..] == digits[1..] + tail;
      assert IsDigit(digits[0]);
      IndexAfterDigits(digits[1..], tail);
    }
  }

  /** Every representable date survives formatting and `parse_date` */
  lemma ParseIsoDate(d: Date)
    requires ValidDate(d)
    ensures ParseDate(IsoDate(d)) == Some(d)
  {
    ValueOfZeroPadded(d.year, 4);
    ValueOfZeroPadded(d.month, 2);
    ValueOfZeroPadded(d.day, 2);
    ParseDateFields(ZeroPadded(d.year, 4), ZeroPadded(d.month, 2), ZeroPadded(d.day, 2));
  }

  /** `is_date` accepts every date written as `YYYY-MM-DD` */
  lemma IsDateAcceptsIso(d: Date)
    requires ValidDate(d)
    ensures IsDate(IsoDate(d))
  {
    ParseIsoDate(d);
  }

  /** `is_date` checks the calendar, not only the shape: February 29 is
      no date in a common year */
  lemma IsDateRefusesCommonLeapDay()
    ensures !IsDate("2023-02-29")
  {
    NumeralValues();
    ParseDateFields("2023", "02", "29");
    assert "2023" + "-" + "02" + "-" + "29" == "2023-02-29";
  }

  /** ... and is one in a leap year */
  lemma IsDateAcceptsLeapDay()
    ensures IsDate("2024-02-29")
  {
    NumeralValues();
    ParseDateFields("2024", "02", "29");
    assert "2024" + "-" + "02" + "-" + "29" == "2024-02-29";
  }

  /** Month and day need no leading zero */
  lemma IsDateAcceptsUnpadded()
    ensures IsDate("2024-2-9")
  {
    NumeralValues();
    ParseDateFields("2024", "2", "9");
    assert "2024" + "-" + "2" + "-" + "9" == "2024-2-9";
  }

  lemma NumeralValues()
    ensures AllDigits("2023") && ValueOf("2023") == 2023
    ensures AllDigits("2024") && ValueOf("2024") == 2024
    ensures AllDigits("02") && ValueOf("02") == 2
    ensures AllDigits("29") && ValueOf("29") == 29
    ensures AllDigits("2") && ValueOf("2") == 2
    ensures AllDigits("9") && ValueOf("9") == 9
  {
    assert "2023"[..3] == "202" && "202"[..2] == "20" && "20"[..1] == "2" && "2"[..0] == "";
    assert "2024"[..3] == "202";
    assert "02"[..1] == "0" && "0"[..0] == "" && "29"[..1] == "2" && "9"[..0] == "";
  }
}
