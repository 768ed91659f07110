/** UTC calendar arithmetic behind JavaScript `Date`: milliseconds since
    1970-01-01T00:00:00Z to and from civil date and time, the 24-character
    `toISOString` form, and the `Date` constructor applied to that form.
    Years 0000 to 9999 are covered, the range in which `toISOString` writes
    a four-digit year. */
module Calendar {
  import opened Optional
  import opened Numerals
  import opened Text

  const MsPerSecond: int := 1000
  const MsPerMinute: int := 60000
  const MsPerHour: int := 3600000
  const MsPerDay: int := 86400000

  predicate IsLeapYear(y: int) {
    y % 4 == 0 && (y % 100 != 0 || y % 400 == 0)
  }

  function DaysInYear(y: int): int {
    if IsLeapYear(y) then 366 else 365
  }

  function DaysInMonth(y: int, m: int): int
    requires 1 <= m <= 12
  {
    if m == 2 then (if IsLeapYear(y) then 29 else 28)
    else if m == 4 || m == 6 || m == 9 || m == 11 then 30
    else 31
  }

  /** Days of year `y` before the first of month `m` (13 means the end of the year). */
  function DaysBeforeMonth(y: int, m: int): int
    requires 1 <= m <= 13
  {
    var cumulative := [0, 31, 59, 90, 120, 151, 181, 212, 243, 273, 304, 334, 365];
    cumulative[m - 1] + (if m > 2 && IsLeapYear(y) then 1 else 0)
  }

  lemma DaysBeforeMonthStep(y: int, m: int)
    requires 1 <= m <= 12
    ensures DaysBeforeMonth(y, m + 1) == DaysBeforeMonth(y, m) + DaysInMonth(y, m)
    ensures DaysBeforeMonth(y, 13) == DaysInYear(y)
  {
  }

  lemma {:induction false} DaysBeforeMonthMonotone(y: int, a: int, b: int)
    requires 1 <= a < b <= 13
    ensures DaysBeforeMonth(y, a) + DaysInMonth(y, a) <= DaysBeforeMonth(y, b)
    decreases b - a
  {
    DaysBeforeMonthStep(y, a);
    if a + 1 < b {
      DaysBeforeMonthMonotone(y, a + 1, b);
    }
  }

  /** Days from 0000-01-01 to the first of January of year `y`. */
  function DaysBeforeYear(y: nat): nat {
    if y == 0 then 0 else DaysBeforeYear(y - 1) + DaysInYear(y - 1)
  }

  lemma {:induction false} DaysBeforeYearMonotone(a: nat, b: nat)
    requires a < b
    ensures DaysBeforeYear(a) + DaysInYear(a) <= DaysBeforeYear(b)
    decreases b - a
  {
    if a + 1 < b {
      DaysBeforeYearMonotone(a + 1, b);
    }
  }

  /** The day number of 1970-01-01, the zero of JavaScript time. */
  const EpochDay: nat := DaysBeforeYear(1970)

  /** The first millisecond of year 0000 and the first of year 10000. */
  const MinTime: int := -(EpochDay as int * MsPerDay)
  const EndTime: int := (DaysBeforeYear(10000) - EpochDay) * MsPerDay

  predicate InRange(t: int) {
    MinTime <= t < EndTime
  }

  datatype DateTime = DateTime(year: int, month: int, day: int,
                               hour: int, minute: int, second: int, millis: int)

  predicate ValidDate(d: DateTime) {
    && 0 <= d.year <= 9999
    && 1 <= d.month <= 12
    && 1 <= d.day <= DaysInMonth(d.year, d.month)
    && 0 <= d.hour < 24 && 0 <= d.minute < 60 && 0 <= d.second < 60
    && 0 <= d.millis < 1000
  }

  function DayNumber(d: DateTime): int
    requires ValidDate(d)
  {
    DaysBeforeYear(d.year) + DaysBeforeMonth(d.year, d.month) + d.day - 1
  }

  function MillisOfDay(d: DateTime): int {
    d.hour * MsPerHour + d.minute * MsPerMinute + d.second * MsPerSecond + d.millis
  }

  /** `Date.UTC` for a valid date: the JavaScript time of `d`. */
  function ToMillis(d: DateTime): (t: int)
    requires ValidDate(d)
    ensures InRange(t)
  {
    DayNumberBound(d);
    ScaledBelow(DayNumber(d) - EpochDay, DaysBeforeYear(10000) - EpochDay, MillisOfDay(d));
    (DayNumber(d) - EpochDay) * MsPerDay + MillisOfDay(d)
  }

  lemma ScaledBelow(a: int, b: int, r: int)
    requires a < b && 0 <= r < MsPerDay
    ensures a * MsPerDay + r < b * MsPerDay
  {
  }

  lemma DayNumberBound(d: DateTime)
    requires ValidDate(d)
    ensures 0 <= DayNumber(d) < DaysBeforeYear(10000)
  {
    DaysBeforeMonthMonotone(d.year, d.month, 13);
    DaysBeforeMonthStep(d.year, 12);
    DaysBeforeYearMonotone(d.year, 10000);
  }

  /** Splits a day count from 0000-01-01 into a year (counting from `y`)
      and the day of that year. */
  function YearOf(days: nat, y: nat): (r: (nat, nat))
    ensures DaysBeforeYear(r.0) + r.1 == DaysBeforeYear(y) + days
    ensures r.1 < DaysInYear(r.0) && y <= r.0
    decreases days
  {
    if days < DaysInYear(y) then (y, days) else YearOf(days - DaysInYear(y), y + 1)
  }

  /** Splits a day of year into a month (counting from `m`) and a
      1-based day of that month. */
  function MonthOf(y: int, doy: nat, m: int): (r: (int, int))
    requires 1 <= m <= 12
    requires DaysBeforeMonth(y, m) + doy < DaysInYear(y)
    ensures m <= r.0 <= 12 && 1 <= r.1 <= DaysInMonth(y, r.0)
    ensures DaysBeforeMonth(y, r.0) + r.1 - 1 == DaysBeforeMonth(y, m) + doy
    decreases 12 - m
  {
    DaysBeforeMonthStep(y, m);
    if doy < DaysInMonth(y, m) then (m, doy + 1)
    else MonthOf(y, doy - DaysInMonth(y, m), m + 1)
  }

  lemma YearOfUnique(days: nat, y: nat, r: nat)
    requires DaysBeforeYear(y) + r == days && r < DaysInYear(y)
    ensures YearOf(days, 0) == (y, r)
  {
    var (y', r') := YearOf(days, 0);
    if y' < y {
      DaysBeforeYearMonotone(y', y);
    } else if y < y' {
      DaysBeforeYearMonotone(y, y');
    }
  }

  lemma MonthOfUnique(y: int, doy: nat, m: int, day: int)
    requires 1 <= m <= 12 && 1 <= day <= DaysInMonth(y, m)
    requires DaysBeforeMonth(y, m) + day - 1 == doy
    requires doy < DaysInYear(y)
    ensures MonthOf(y, doy, 1) == (m, day)
  {
    var (m', d') := MonthOf(y, doy, 1);
    if m' < m {
      DaysBeforeMonthMonotone(y, m', m);
    } else if m < m' {
      DaysBeforeMonthMonotone(y, m, m');
    }
  }

  /** The day number and the millisecond of the day of a time in range. */
  lemma DayOfTime(t: int)
    requires InRange(t)
    ensures 0 <= t / MsPerDay + EpochDay < DaysBeforeYear(10000)
    ensures t == (t / MsPerDay) * MsPerDay + t % MsPerDay
  {
  }

  lemma YearBelowEnd(days: nat)
    requires days < DaysBeforeYear(10000)
    ensures YearOf(days, 0).0 < 10000
  {
    var y := YearOf(days, 0).0;
    if y >= 10000 {
      if y > 10000 {
        DaysBeforeYearMonotone(10000, y);
      }
    }
  }

  /** The clock fields of a millisecond of the day, hours first. */
  function Clock(ms: int): (c: (int, int, int, int))
    requires 0 <= ms < MsPerDay
    ensures 0 <= c.0 < 24 && 0 <= c.1 < 60 && 0 <= c.2 < 60 && 0 <= c.3 < 1000
    ensures c.0 * MsPerHour + c.1 * MsPerMinute + c.2 * MsPerSecond + c.3 == ms
  {
    var inHour := ms % MsPerHour;
    var inMinute := inHour % MsPerMinute;
    (ms / MsPerHour, inHour / MsPerMinute, inMinute / MsPerSecond, inMinute % MsPerSecond)
  }

  /** The civil UTC date and time of JavaScript time `t` (`getUTCFullYear`,
      `getUTCMonth() + 1`, `getUTCDate`, `getUTCHours`, ...). */
  function FromMillis(t: int): (d: DateTime)
    requires InRange(t)
    ensures ValidDate(d) && ToMillis(d) == t
    ensures DayNumber(d) == t / MsPerDay + EpochDay && MillisOfDay(d) == t % MsPerDay
  {
    DayOfTime(t);
    var days: nat := t / MsPerDay + EpochDay;
    YearBelowEnd(days);
    var (y, doy) := YearOf(days, 0);
    DaysBeforeMonthStep(y, 12);
    var (m, day) := MonthOf(y, doy, 1);
    var c := Clock(t % MsPerDay);
    var d := DateTime(y, m, day, c.0, c.1, c.2, c.3);
    assert DayNumber(d) == days;
    DaySplitInverse(t, days - EpochDay, MillisOfDay(d));
    d
  }

  lemma DaySplitInverse(t: int, days: int, ms: int)
    requires days == t / MsPerDay && ms == t % MsPerDay
    ensures t == days * MsPerDay + ms
  {
  }

  /** Whole days and the time of day of `days * MsPerDay + ms`. */
  lemma DaySplit(days: int, ms: int)
    requires 0 <= ms < MsPerDay
    ensures (days * MsPerDay + ms) / MsPerDay == days
    ensures (days * MsPerDay + ms) % MsPerDay == ms
  {
    var x := days * MsPerDay + ms;
    var q, r := x / MsPerDay, x % MsPerDay;
    assert (q - days) * MsPerDay == ms - r;
  }

  lemma DivModUnique(x: int, q: int, r: int, k: int)
    requires k > 0 && 0 <= r < k && x == q * k + r
    ensures x / k == q && x % k == r
  {
    var q', r' := x / k, x % k;
    if q' > q {
      MulAtLeast(q' - q, k);
    } else if q' < q {
      MulAtLeast(q - q', k);
    }
  }

  lemma {:induction false} MulAtLeast(a: int, k: int)
    requires a >= 1 && k > 0
    ensures a * k >= k
    decreases a
  {
    if a > 1 {
      MulAtLeast(a - 1, k);
      assert a * k == (a - 1) * k + k;
    }
  }

  /** The clock fields are recovered from the millisecond of the day. */
  lemma ClockSplit(d: DateTime)
    requires ValidDate(d)
    ensures 0 <= MillisOfDay(d) < MsPerDay
    ensures Clock(MillisOfDay(d)) == (d.hour, d.minute, d.second, d.millis)
  {
    var ms := MillisOfDay(d);
    var sec := d.second * 1000 + d.millis;
    var m := d.minute * 60000 + sec;
    DivModUnique(ms, d.hour, m, 3600000);
    DivModUnique(m, d.minute, sec, 60000);
    DivModUnique(sec, d.second, d.millis, 1000);
  }

  /** Each valid date is the civil form of exactly one JavaScript time. */
  lemma FromToMillis(d: DateTime)
    requires ValidDate(d)
    ensures FromMillis(ToMillis(d)) == d
  {
    var t := ToMillis(d);
    DaySplit(DayNumber(d) - EpochDay, MillisOfDay(d));
    DateUnique(FromMillis(t), d);
  }

  /** A valid date is determined by its day number and its millisecond of the day. */
  lemma DateUnique(a: DateTime, b: DateTime)
    requires ValidDate(a) && ValidDate(b)
    requires DayNumber(a) == DayNumber(b) && MillisOfDay(a) == MillisOfDay(b)
    ensures a == b
  {
    CivilDayUnique(a);
    CivilDayUnique(b);
    ClockSplit(a);
    ClockSplit(b);
  }

  /** The day number of a valid date splits back into its year, month and day. */
  lemma CivilDayUnique(d: DateTime)
    requires ValidDate(d)
    ensures var doy := DaysBeforeMonth(d.year, d.month) + d.day - 1;
      && 0 <= doy < DaysInYear(d.year)
      && YearOf(DayNumber(d), 0) == (d.year, doy)
      && MonthOf(d.year, doy, 1) == (d.month, d.day)
  {
    DaysBeforeMonthMonotone(d.year, d.month, 13);
    DaysBeforeMonthStep(d.year, 12);
    var doy := DaysBeforeMonth(d.year, d.month) + d.day - 1;
    YearOfUnique(DayNumber(d), d.year, doy);
    MonthOfUnique(d.year, doy, d.month, d.day);
  }

  /** Two-digit field, as `toISOString` and `zeroPad(n, 2)` write it. */
  function Two(n: int): (s: string)
    requires 0 <= n < 100
    ensures |s| == 2 && AllDigits(s) && ParseDigits(s) == n
  {
    Fixed(n, 2)
  }

  /** `YYYY<sep>MM<sep>DD`, ten characters. */
  function DateText(d: DateTime, sep: char): (s: string)
    requires ValidDate(d)
    ensures |s| == 10
  {
    Fixed(d.year, 4) + [sep] + Two(d.month) + [sep] + Two(d.day)
  }

  /** `Date.prototype.toISOString` for a valid date: `YYYY-MM-DDTHH:mm:ss.sssZ`. */
  function IsoText(d: DateTime): (s: string)
    requires ValidDate(d)
    ensures |s| == 24
  {
    DateText(d, '-') + "T" + ClockText(d)
  }

  /** `HH:mm:ss.sssZ`, thirteen characters. */
  function ClockText(d: DateTime): (s: string)
    requires ValidDate(d)
    ensures |s| == 13
  {
    Two(d.hour) + ":" + Two(d.minute) + ":" + Two(d.second) + "." + Fixed(d.millis, 3) + "Z"
  }

  function ToIsoString(t: int): (s: string)
    requires InRange(t)
    ensures |s| == 24
  {
    IsoText(FromMillis(t))
  }

  /** The digit field of `s` from `i` to `j`, read as a number. */
  function Field(s: string, i: nat, j: nat): Option<nat>
    requires i <= j <= |s|
  {
    if AllDigits(s[i..j]) then Some(ParseDigits(s[i..j])) else None
  }

  /** The seven numeric fields of a string shaped `YYYY-MM-DDTHH:mm:ss.sssZ`,
      or `None` when the shape or a digit is wrong. */
  function IsoFields(s: string): (r: Option<DateTime>)
    ensures r.Some? ==> |s| == 24
  {
    if |s| != 24 || s[4] != '-' || s[7] != '-' || s[10] != 'T' || s[13] != ':'
       || s[16] != ':' || s[19] != '.' || s[23] != 'Z'
    then None
    else
      var y, mo, d := Field(s, 0, 4), Field(s, 5, 7), Field(s, 8, 10);
      var h, mi, se, ms := Field(s, 11, 13), Field(s, 14, 16), Field(s, 17, 19), Field(s, 20, 23);
      if y.None? || mo.None? || d.None? || h.None? || mi.None? || se.None? || ms.None? then None
      else Some(DateTime(y.value, mo.value, d.value, h.value, mi.value, se.value, ms.value))
  }

  /** The JavaScript `Date` constructor on a string of the form
      `YYYY-MM-DDTHH:mm:ss.sssZ`; `None` stands for an invalid date. Any
      other shape is treated as invalid, and so is a calendar date that
      does not exist. */
  function ParseIso(s: string): (r: Option<int>)
    ensures r.Some? ==> InRange(r.value)
  {
    match IsoFields(s)
    case None => None
    case Some(d) => if ValidDate(d) then Some(ToMillis(d)) else None
  }

  /** The fields of a string of the ISO shape, read at their positions. */
  lemma ParseIsoFields(s: string, d: DateTime)
    requires ValidDate(d)
    requires |s| == 24 && s[4] == '-' && s[7] == '-' && s[10] == 'T' && s[13] == ':'
    requires s[16] == ':' && s[19] == '.' && s[23] == 'Z'
    requires s[0..4] == Fixed(d.year, 4) && s[5..7] == Two(d.month) && s[8..10] == Two(d.day)
    requires s[11..13] == Two(d.hour) && s[14..16] == Two(d.minute) && s[17..19] == Two(d.second)
    requires s[20..23] == Fixed(d.millis, 3)
    ensures IsoFields(s) == Some(d)
  {
    FieldOf(s, 0, 4, Fixed(d.year, 4));
    FieldOf(s, 5, 7, Two(d.month));
    FieldOf(s, 8, 10, Two(d.day));
    FieldOf(s, 11, 13, Two(d.hour));
    FieldOf(s, 14, 16, Two(d.minute));
    FieldOf(s, 17, 19, Two(d.second));
    FieldOf(s, 20, 23, Fixed(d.millis, 3));
  }

  lemma FieldOf(s: string, i: nat, j: nat, text: string)
    requires i <= j <= |s| && s[i..j] == text && AllDigits(text)
    ensures Field(s, i, j) == Some(ParseDigits(text))
  {
  }

  lemma DateTextShape(d: DateTime, sep: char)
    requires ValidDate(d)
    ensures var s := DateText(d, sep);
      s[4] == sep && s[7] == sep
      && s[0..4] == Fixed(d.year, 4) && s[5..7] == Two(d.month) && s[8..10] == Two(d.day)
  {
    ConcatParts(Fixed(d.year, 4), [sep], Two(d.month), [sep], Two(d.day));
  }

  lemma ClockTextShape(d: DateTime)
    requires ValidDate(d)
    ensures var s := ClockText(d);
      s[2] == ':' && s[5] == ':' && s[8] == '.' && s[12] == 'Z'
      && s[0..2] == Two(d.hour) && s[3..5] == Two(d.minute) && s[6..8] == Two(d.second)
      && s[9..12] == Fixed(d.millis, 3)
  {
    var h, mi, se, ms := Two(d.hour), Two(d.minute), Two(d.second), Fixed(d.millis, 3);
    ConcatParts(h + ":", mi, ":" + se, ".", ms + "Z");
    ConcatParts(h, ":", mi, ":", se);
  }

  lemma IsoTextShape(d: DateTime)
    requires ValidDate(d)
    ensures var s := IsoText(d);
      s[..10] == DateText(d, '-') && s[10] == 'T' && s[11..] == ClockText(d)
  {
    var s := IsoText(d);
    var dd, c := DateText(d, '-'), ClockText(d);
    assert s == dd + "T" + c;
    assert s[11..] == c;
  }

  /** Writing a date and reading it back gives its time: the ISO text is
      a faithful representation. */
  lemma ParseIsoText(d: DateTime)
    requires ValidDate(d)
    ensures ParseIso(IsoText(d)) == Some(ToMillis(d))
  {
    var s := IsoText(d);
    IsoTextShape(d);
    DateTextShape(d, '-');
    ClockTextShape(d);
    var dd, c := DateText(d, '-'), ClockText(d);
    assert s[0..4] == dd[0..4] && s[5..7] == dd[5..7] && s[8..10] == dd[8..10];
    assert s[11..13] == c[0..2] && s[14..16] == c[3..5] && s[17..19] == c[6..8];
    assert s[20..23] == c[9..12] && s[13] == c[2] && s[16] == c[5] && s[19] == c[8] && s[23] == c[12];
    ParseIsoFields(s, d);
    assert IsoFields(s) == Some(d);
  }

  /** `toISOString` and the `Date` constructor are inverse on the covered range. */
  lemma ParseToIsoString(t: int)
    requires InRange(t)
    ensures ParseIso(ToIsoString(t)) == Some(t)
  {
    ParseIsoText(FromMillis(t));
  }
}
