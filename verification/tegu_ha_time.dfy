/** The timestamp parser of the failover controller (`extract_dt` in system/tegu_ha.py):
    `time.strptime(date + " " + time, "%Y-%m-%d %H:%M:%S")` followed by `time.mktime`. */
module HaTime {
  import opened Wrappers
  import opened Strs
  import opened Nums

  /** Outcome of a Python call: a returned value, or an exception that escapes it. */
  datatype Py<T> = Returns(v: T) | Raises

  datatype DateTime = DateTime(year: nat, month: nat, day: nat, hour: nat, minute: nat, second: nat)

  predicate IsLeap(y: int) { y % 4 == 0 && (y % 100 != 0 || y % 400 == 0) }

  function DaysInMonth(y: int, m: nat): nat
    requires 1 <= m <= 12
  {
    if m == 2 then (if IsLeap(y) then 29 else 28)
    else if m == 4 || m == 6 || m == 9 || m == 11 then 30
    else 31
  }

  function YearLen(y: int): nat { if IsLeap(y) then 366 else 365 }

  /** A calendar date `datetime.date` accepts (year 1 .. 9999 from four digits). */
  predicate ValidDate(dt: DateTime)
  {
    1 <= dt.year && 1 <= dt.month <= 12 && 1 <= dt.day <= DaysInMonth(dt.year, dt.month)
  }

  // ---- the field patterns of `_strptime` -------------------------------------------------

  predicate D(c: char) { '0' <= c <= '9' }

  /** `%Y`: exactly four digits. */
  predicate YearText(s: string) { |s| == 4 && D(s[0]) && D(s[1]) && D(s[2]) && D(s[3]) }
  /** `%m`: `1[0-2]|0[1-9]|[1-9]`. */
  predicate MonthText(s: string)
  {
    (|s| == 2 && s[0] == '1' && '0' <= s[1] <= '2') || (|s| == 2 && s[0] == '0' && '1' <= s[1] <= '9')
    || (|s| == 1 && '1' <= s[0] <= '9')
  }
  /** `%d`: `3[01]|[12]\d|0[1-9]|[1-9]` (the ` [1-9]` alternative needs a blank, which a
      whitespace-split token never holds). */
  predicate DayText(s: string)
  {
    (|s| == 2 && s[0] == '3' && '0' <= s[1] <= '1') || (|s| == 2 && '1' <= s[0] <= '2' && D(s[1]))
    || (|s| == 2 && s[0] == '0' && '1' <= s[1] <= '9') || (|s| == 1 && '1' <= s[0] <= '9')
  }
  /** `%H`: `2[0-3]|[0-1]\d|\d`. */
  predicate HourText(s: string)
  {
    (|s| == 2 && s[0] == '2' && '0' <= s[1] <= '3') || (|s| == 2 && '0' <= s[0] <= '1' && D(s[1]))
    || (|s| == 1 && D(s[0]))
  }
  /** `%M`: `[0-5]\d|\d`. */
  predicate MinuteText(s: string)
  {
    (|s| == 2 && '0' <= s[0] <= '5' && D(s[1])) || (|s| == 1 && D(s[0]))
  }
  /** `%S`: `6[0-1]|[0-5]\d|\d` (61 admits a leap second). */
  predicate SecondText(s: string)
  {
    (|s| == 2 && s[0] == '6' && '0' <= s[1] <= '1') || (|s| == 2 && '0' <= s[0] <= '5' && D(s[1]))
    || (|s| == 1 && D(s[0]))
  }

  /** Parse of `date + " " + time` against `%Y-%m-%d %H:%M:%S`. Every field is a run of digits
      ended by a fixed separator, so the pattern matches exactly when the text splits at the
      separators into three runs each in its field's language. An impossible date (February
      30th, year 0) makes `_strptime` raise `ValueError`; None stands for every failure. */
  function ParseStamp(date: string, time: string): (r: Option<DateTime>)
    ensures r.Some? ==> ValidDate(r.value) && r.value.hour <= 23 && r.value.minute <= 59 && r.value.second <= 61
  {
    var ds := Split(date, '-');
    var ts := Split(time, ':');
    if |ds| == 3 && |ts| == 3 && YearText(ds[0]) && MonthText(ds[1]) && DayText(ds[2])
       && HourText(ts[0]) && MinuteText(ts[1]) && SecondText(ts[2]) then
      var dt := DateTime(DigitsVal(ds[0]), DigitsVal(ds[1]), DigitsVal(ds[2]),
                         DigitsVal(ts[0]), DigitsVal(ts[1]), DigitsVal(ts[2]));
      assert dt.month <= 12 && dt.day <= 31 && dt.hour <= 23 && dt.minute <= 59 && dt.second <= 61 by {
        FieldBounds(ds[1], ds[2], ts[0], ts[1], ts[2]);
      }
      if ValidDate(dt) then Some(dt) else None
    else None
  }

  lemma FieldBounds(m: string, d: string, h: string, mi: string, s: string)
    requires MonthText(m) && DayText(d) && HourText(h) && MinuteText(mi) && SecondText(s)
    requires AllDigits(m) && AllDigits(d) && AllDigits(h) && AllDigits(mi) && AllDigits(s)
    ensures 1 <= DigitsVal(m) <= 12 && 1 <= DigitsVal(d) <= 31
    ensures DigitsVal(h) <= 23 && DigitsVal(mi) <= 59 && DigitsVal(s) <= 61
  {
    MonthBound(m); DayBound(d); HourBound(h); MinuteBound(mi); SecondBound(s);
  }

  lemma MonthBound(s: string)
    requires MonthText(s) && AllDigits(s)
    ensures 1 <= DigitsVal(s) <= 12
  {
    TwoDigits(s);
  }

  lemma DayBound(s: string)
    requires DayText(s) && AllDigits(s)
    ensures 1 <= DigitsVal(s) <= 31
  {
    TwoDigits(s);
  }

  lemma HourBound(s: string)
    requires HourText(s) && AllDigits(s)
    ensures DigitsVal(s) <= 23
  {
    TwoDigits(s);
  }

  lemma MinuteBound(s: string)
    requires MinuteText(s) && AllDigits(s)
    ensures DigitsVal(s) <= 59
  {
    TwoDigits(s);
  }

  lemma SecondBound(s: string)
    requires SecondText(s) && AllDigits(s)
    ensures DigitsVal(s) <= 61
  {
    TwoDigits(s);
  }

  lemma TwoDigits(s: string)
    requires AllDigits(s) && 1 <= |s| <= 2
    ensures |s| == 1 ==> DigitsVal(s) == (s[0] - '0') as nat
    ensures |s| == 2 ==> DigitsVal(s) == (s[0] - '0') as nat * 10 + (s[1] - '0') as nat
  {
    if |s| == 2 { assert s[..1][..0] == ""; }
    else { assert s[..0] == ""; }
  }

  // ---- seconds since the epoch -----------------------------------------------------------

  /** Days from 0001-01-01 to January 1st of year `y`. */
  function DaysBeforeYear(y: int): int
    requires y >= 1
  {
    365 * (y - 1) + (y - 1) / 4 - (y - 1) / 100 + (y - 1) / 400
  }

  function DaysBeforeMonth(y: int, m: nat): nat
    requires 1 <= m <= 12
  {
    [0, 31, 59, 90, 120, 151, 181, 212, 243, 273, 304, 334][m - 1] + (if m > 2 && IsLeap(y) then 1 else 0)
  }

  /** Day number of a date, counted from 0001-01-01. */
  function DayNumber(dt: DateTime): int
    requires ValidDate(dt)
  {
    DaysBeforeYear(dt.year) + DaysBeforeMonth(dt.year, dt.month) + dt.day - 1
  }

  const EPOCH_DAY: int := 719162

  /** `int(time.mktime(t))` with the clock's time zone taken as UTC. A second of 60 or 61
      carries into the next minute as `mktime` normalises it. */
  function Epoch(dt: DateTime): int
    requires ValidDate(dt)
  {
    (DayNumber(dt) - EPOCH_DAY) * 86400 + dt.hour * 3600 + dt.minute * 60 + dt.second
  }

  /** The year `time.mktime` hands to the C library. Python 2 takes two-digit years by
      default (`time.accept2dyear`): 69..99 become 1969..1999 and 0..68 become 2000..2068.
      Any other year before 1900 is refused with `ValueError`. */
  function MkYear(y: nat): (r: Option<nat>)
    ensures r.None? <==> 100 <= y < 1900
    ensures r.Some? ==> r.value >= 1900 && r.value % 100 == y % 100
    ensures y >= 1900 ==> r == Some(y)
  {
    if y >= 1900 then Some(y)
    else if 69 <= y <= 99 then Some(y + 1900)
    else if y <= 68 then Some(y + 2000)
    else None
  }

  /** Moving a year by 1900 or 2000 keeps its leap years, so the date stays valid. */
  lemma ShiftedValid(dt: DateTime, y: nat)
    requires ValidDate(dt) && dt.year < 100 && (y == dt.year + 1900 || y == dt.year + 2000)
    ensures ValidDate(dt.(year := y))
  {
    assert IsLeap(y) == IsLeap(dt.year);
  }

  /** `int(time.mktime(t))` of a parsed stamp: the epoch seconds of the stamp with its year
      read as `mktime` reads it, or None where `mktime` raises. */
  function MkTime(dt: DateTime): (r: Option<int>)
    requires ValidDate(dt)
    ensures r.None? <==> 100 <= dt.year < 1900
    ensures dt.year >= 1900 ==> r == Some(Epoch(dt))
    ensures r.Some? && dt.year < 100 ==>
      var y := MkYear(dt.year).value; ValidDate(dt.(year := y)) && r.value == Epoch(dt.(year := y))
  {
    match MkYear(dt.year)
    case None => None
    case Some(y) =>
      if y == dt.year then Some(Epoch(dt))
      else
        ShiftedValid(dt, y);
        Some(Epoch(dt.(year := y)))
  }

  /** `extract_dt(str, c1, c2)`: whitespace field c1 is the date, field c2 the time whose
      fraction after the first '.' is dropped. A parse failure returns 0, and so does a year
      that `mktime` refuses. When field c2 (or c1) does not exist, the handler itself indexes
      the missing token or the unbound `ttoks`, so the exception escapes instead. */
  function ExtractDt(s: string, c1: nat, c2: nat): (r: Py<int>)
    ensures r.Raises? <==> c1 >= |Fields(s)| || c2 >= |Fields(s)|
    ensures r.Returns? ==>
      var p := ParseStamp(Fields(s)[c1], Split(Fields(s)[c2], '.')[0]);
      && (p.None? ==> r.v == 0)
      && (p.Some? && 100 <= p.value.year < 1900 ==> r.v == 0)
      && (p.Some? && p.value.year >= 1900 ==> r.v == Epoch(p.value))
      && (p.Some? && p.value.year < 100 ==> r.v == MkTime(p.value).value)
  {
    var toks := Fields(s);
    if c2 >= |toks| then Raises
    else
      var ttoks := Split(toks[c2], '.');
      if c1 >= |toks| then Raises
      else match ParseStamp(toks[c1], ttoks[0])
        case None => Returns(0)
        case Some(dt) =>
          match MkTime(dt)
          case None => Returns(0)
          case Some(t) => Returns(t)
  }

  // ---- properties ------------------------------------------------------------------------

  /** Two-digit, zero-padded text of n < 100 (`%02d`). */
  function Pad2(n: nat): string
    requires n < 100
  {
    [('0' as int + n / 10) as char, ('0' as int + n % 10) as char]
  }

  function Pad4(n: nat): string
    requires n < 10000
  {
    Pad2(n / 100) + Pad2(n % 100)
  }

  /** The date and time as `ls --full-time` and `tar --full-time` print them. */
  function DateText(dt: DateTime): string
    requires dt.year < 10000 && dt.month < 100 && dt.day < 100
  {
    Pad4(dt.year) + "-" + Pad2(dt.month) + "-" + Pad2(dt.day)
  }

  function TimeText(dt: DateTime): string
    requires dt.hour < 100 && dt.minute < 100 && dt.second < 100
  {
    Pad2(dt.hour) + ":" + Pad2(dt.minute) + ":" + Pad2(dt.second)
  }

  lemma Pad2Val(n: nat)
    requires n < 100
    ensures AllDigits(Pad2(n)) && DigitsVal(Pad2(n)) == n
  {
    TwoDigits(Pad2(n));
  }

  lemma Pad4Val(n: nat)
    requires n < 10000
    ensures AllDigits(Pad4(n)) && DigitsVal(Pad4(n)) == n
  {
    Pad2Val(n / 100);
    AppendPad2(Pad2(n / 100), n % 100);
  }

  lemma AppendPad2(x: string, k: nat)
    requires AllDigits(x) && k < 100
    ensures AllDigits(x + Pad2(k)) && DigitsVal(x + Pad2(k)) == DigitsVal(x) * 100 + k
  {
    var p := Pad2(k);
    var s := x + p;
    assert s[..|s| - 1] == x + [p[0]];
    assert (x + [p[0]])[..|x|] == x;
  }

  /** Reading back a printed stamp gives the same date and time: the parser accepts every
      valid stamp with a year of at least 1000 and no leap second. */
  lemma ParseStampRoundTrip(dt: DateTime)
    requires ValidDate(dt) && 1000 <= dt.year <= 9999 && dt.hour <= 23 && dt.minute <= 59 && dt.second <= 59
    ensures ParseStamp(DateText(dt), TimeText(dt)) == Some(dt)
  {
    DateRoundTrip(dt);
    TimeRoundTrip(dt);
  }

  lemma DateRoundTrip(dt: DateTime)
    requires ValidDate(dt) && 1000 <= dt.year <= 9999
    ensures var ds := Split(DateText(dt), '-');
      |ds| == 3 && YearText(ds[0]) && MonthText(ds[1]) && DayText(ds[2]) &&
      AllDigits(ds[0]) && AllDigits(ds[1]) && AllDigits(ds[2]) &&
      DigitsVal(ds[0]) == dt.year && DigitsVal(ds[1]) == dt.month && DigitsVal(ds[2]) == dt.day
  {
    DateSplit(dt);
    Pad4Val(dt.year); Pad2Val(dt.month); Pad2Val(dt.day);
    MonthPad(dt.month); DayPad(dt.day);
  }

  /** The printed date splits at its dashes into the padded year, month and day. */
  lemma DateSplit(dt: DateTime)
    requires dt.year < 10000 && dt.month < 100 && dt.day < 100
    ensures Split(DateText(dt), '-') == [Pad4(dt.year), Pad2(dt.month), Pad2(dt.day)]
  {
    var y, mo, d := Pad4(dt.year), Pad2(dt.month), Pad2(dt.day);
    assert '-' !in y && '-' !in mo && '-' !in d;
    SplitCons(mo, d, '-');
    SplitCons(y, mo + "-" + d, '-');
    assert DateText(dt) == y + "-" + (mo + "-" + d);
  }

  lemma MonthPad(m: nat)
    requires 1 <= m <= 12
    ensures MonthText(Pad2(m))
  {
    if m < 10 { assert m / 10 == 0 && m % 10 == m; }
    else { assert m / 10 == 1 && m % 10 == m - 10; }
  }

  lemma DayPad(d: nat)
    requires 1 <= d <= 31
    ensures DayText(Pad2(d))
  {
    if d < 10 { assert d / 10 == 0 && d % 10 == d; }
    else if d < 20 { assert d / 10 == 1 && d % 10 == d - 10; }
    else if d < 30 { assert d / 10 == 2 && d % 10 == d - 20; }
    else { assert d / 10 == 3 && d % 10 == d - 30; }
  }

  lemma TimeRoundTrip(dt: DateTime)
    requires dt.hour <= 23 && dt.minute <= 59 && dt.second <= 59
    ensures var ts := Split(TimeText(dt), ':');
      |ts| == 3 && HourText(ts[0]) && MinuteText(ts[1]) && SecondText(ts[2]) &&
      AllDigits(ts[0]) && AllDigits(ts[1]) && AllDigits(ts[2]) &&
      DigitsVal(ts[0]) == dt.hour && DigitsVal(ts[1]) == dt.minute && DigitsVal(ts[2]) == dt.second
  {
    TimeSplit(dt);
    Pad2Val(dt.hour); Pad2Val(dt.minute); Pad2Val(dt.second);
    HourPad(dt.hour); SixtyPad(dt.minute); SixtyPad(dt.second);
  }

  /** The printed time splits at its colons into the padded hour, minute and second. */
  lemma TimeSplit(dt: DateTime)
    requires dt.hour < 100 && dt.minute < 100 && dt.second < 100
    ensures Split(TimeText(dt), ':') == [Pad2(dt.hour), Pad2(dt.minute), Pad2(dt.second)]
  {
    var h, mi, s := Pad2(dt.hour), Pad2(dt.minute), Pad2(dt.second);
    assert ':' !in h && ':' !in mi && ':' !in s;
    SplitCons(mi, s, ':');
    SplitCons(h, mi + ":" + s, ':');
    assert TimeText(dt) == h + ":" + (mi + ":" + s);
  }

  lemma HourPad(h: nat)
    requires h <= 23
    ensures HourText(Pad2(h))
  {
    if h < 10 { assert h / 10 == 0 && h % 10 == h; }
    else if h < 20 { assert h / 10 == 1 && h % 10 == h - 10; }
    else { assert h / 10 == 2 && h % 10 == h - 20; }
  }

  /** Minutes and seconds below 60 print in both `%M` and `%S`. */
  lemma SixtyPad(n: nat)
    requires n <= 59
    ensures MinuteText(Pad2(n)) && SecondText(Pad2(n))
  {
    var q := n / 10;
    assert 0 <= q <= 5 && n % 10 == n - 10 * q;
  }

  /** A listing whose date and time columns hold a printed stamp (with any fraction after the
      seconds) extracts to that stamp's epoch seconds. */
  lemma ExtractDtOfListing(s: string, c1: nat, c2: nat, dt: DateTime, frac: string)
    requires ValidDate(dt) && 1900 <= dt.year <= 9999 && dt.hour <= 23 && dt.minute <= 59 && dt.second <= 59
    requires c1 < |Fields(s)| && c2 < |Fields(s)|
    requires Fields(s)[c1] == DateText(dt) && Fields(s)[c2] == TimeText(dt) + "." + frac
    ensures ExtractDt(s, c1, c2) == Returns(Epoch(dt))
  {
    assert '.' !in TimeText(dt);
    SplitCons(TimeText(dt), frac, '.');
    ParseStampRoundTrip(dt);
  }

  /** A listing dated in the years 1000..1899 extracts to 0, as `mktime` refuses the year. */
  lemma ExtractDtBefore1900(s: string, c1: nat, c2: nat, dt: DateTime, frac: string)
    requires ValidDate(dt) && 1000 <= dt.year < 1900 && dt.hour <= 23 && dt.minute <= 59 && dt.second <= 59
    requires c1 < |Fields(s)| && c2 < |Fields(s)|
    requires Fields(s)[c1] == DateText(dt) && Fields(s)[c2] == TimeText(dt) + "." + frac
    ensures ExtractDt(s, c1, c2) == Returns(0)
  {
    assert '.' !in TimeText(dt);
    SplitCons(TimeText(dt), frac, '.');
    ParseStampRoundTrip(dt);
  }

  /** Euclidean quotients are unique. */
  lemma DivUnique(y: int, k: int, q: int, r: int)
    requires k > 0 && y == k * q + r && 0 <= r < k
    ensures y / k == q && y % k == r
  {
    var q0, r0 := y / k, y % k;
    assert y == k * q0 + r0;
    assert k * q - k * q0 == r0 - r;
    assert k * (q - q0) == k * q - k * q0;
    if q > q0 {
      MulAtLeast(k, q - q0);
    } else if q < q0 {
      MulAtLeast(k, q0 - q);
    }
  }

  lemma {:induction false} MulAtLeast(k: int, t: int)
    requires k > 0 && t >= 1
    ensures k * t >= k
    decreases t
  {
    if t > 1 {
      MulAtLeast(k, t - 1);
      assert k * t == k * (t - 1) + k;
    }
  }

  /** Stepping from y-1 to y raises the quotient by one exactly when k divides y. */
  lemma DivStep(y: int, k: int)
    requires k > 0
    ensures y / k - (y - 1) / k == if y % k == 0 then 1 else 0
  {
    var q, r := (y - 1) / k, (y - 1) % k;
    if r == k - 1 {
      DivUnique(y, k, q + 1, 0);
    } else {
      DivUnique(y, k, q, r + 1);
    }
  }

  lemma DaysBeforeYearStep(y: int)
    requires y >= 1
    ensures DaysBeforeYear(y + 1) == DaysBeforeYear(y) + YearLen(y)
  {
    DivStep(y, 4); DivStep(y, 100); DivStep(y, 400);
    if y % 100 == 0 { DivUnique(y, 4, 25 * (y / 100), 0); }
    if y % 400 == 0 { DivUnique(y, 100, 4 * (y / 400), 0); }
  }

  lemma {:induction false} DaysBeforeYearMono(y1: int, y2: int)
    requires 1 <= y1 < y2
    ensures DaysBeforeYear(y1) + YearLen(y1) <= DaysBeforeYear(y2)
    decreases y2 - y1
  {
    DaysBeforeYearStep(y1);
    if y1 + 1 < y2 {
      DaysBeforeYearMono(y1 + 1, y2);
    }
  }

  lemma MonthStep(y: int, m: nat)
    requires 1 <= m < 12
    ensures DaysBeforeMonth(y, m + 1) == DaysBeforeMonth(y, m) + DaysInMonth(y, m)
  {
  }

  lemma {:induction false} MonthMono(y: int, m1: nat, m2: nat)
    requires 1 <= m1 < m2 <= 12
    ensures DaysBeforeMonth(y, m1) + DaysInMonth(y, m1) <= DaysBeforeMonth(y, m2)
    decreases m2 - m1
  {
    MonthStep(y, m1);
    if m1 + 1 < m2 {
      MonthMono(y, m1 + 1, m2);
    }
  }

  lemma DayOfYearBound(dt: DateTime)
    requires ValidDate(dt)
    ensures DaysBeforeMonth(dt.year, dt.month) + dt.day - 1 < YearLen(dt.year)
  {
  }

  /** Calendar order of two date-times. */
  predicate Before(a: DateTime, b: DateTime)
  {
    a.year < b.year || (a.year == b.year && (a.month < b.month || (a.month == b.month &&
    (a.day < b.day || (a.day == b.day && (a.hour < b.hour || (a.hour == b.hour &&
    (a.minute < b.minute || (a.minute == b.minute && a.second < b.second)))))))))
  }

  lemma DayNumberMono(a: DateTime, b: DateTime)
    requires ValidDate(a) && ValidDate(b)
    requires a.year < b.year || (a.year == b.year && (a.month < b.month || (a.month == b.month && a.day < b.day)))
    ensures DayNumber(a) < DayNumber(b)
  {
    if a.year < b.year {
      DayOfYearBound(a);
      DaysBeforeYearMono(a.year, b.year);
    } else if a.month < b.month {
      MonthMono(a.year, a.month, b.month);
    }
  }

  /** A later stamp yields a larger timestamp, so the most recent checkpoint wins the
      comparison (for stamps without a leap second). */
  lemma EpochMonotone(a: DateTime, b: DateTime)
    requires ValidDate(a) && ValidDate(b)
    requires a.hour <= 23 && a.minute <= 59 && a.second <= 59
    requires b.hour <= 23 && b.minute <= 59 && b.second <= 59
    requires Before(a, b)
    ensures Epoch(a) < Epoch(b)
  {
    var sa := a.hour * 3600 + a.minute * 60 + a.second;
    var sb := b.hour * 3600 + b.minute * 60 + b.second;
    assert 0 <= sa < 86400 && 0 <= sb < 86400;
    if a.year != b.year || a.month != b.month || a.day != b.day {
      DayNumberMono(a, b);
      var na, nb := DayNumber(a) - EPOCH_DAY, DayNumber(b) - EPOCH_DAY;
      assert na + 1 <= nb;
      assert (na + 1) * 86400 <= nb * 86400;
    }
  }
}
