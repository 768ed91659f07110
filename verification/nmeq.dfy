/** The pure helpers of the NMEQ component: the one-decimal formatting of
    levels, the hourly data file names and their reading back, the hour
    stepping of the file loader, the length clamp of a rolling window, and
    the set-up of a new data window. */
module Nmeq {
  import opened Optional
  import opened Text
  import opened Numerals
  import Calendar
  import DataWindow

  // ---------------------------------------------------------------------
  // formatFloat
  // ---------------------------------------------------------------------

  /** `formatFloat` on the text of a value (a number is first turned into
      text by `"" + value`): with a point, the text is cut one character
      after its first point; without one, `".0"` is appended. */
  function FormatFloat(s: string): (r: string)
    ensures '.' in r
    ensures '.' !in s ==> r == s + ".0"
    ensures '.' in s ==> |r| <= |s| && r == s[..|r|] && IndexOf(r, '.') == IndexOf(s, '.')
    ensures '.' in s ==> |r| <= IndexOf(s, '.') + 2 && (|r| == |s| || |r| == IndexOf(s, '.') + 2)
  {
    var p := IndexOf(s, '.');
    if p > -1 then
      if |s| > p + 2 then
        var r := Substring(s, 0, p + 2);
        assert r[p] == '.' && r[..p] == s[..p];
        r
      else s
    else
      var r := s + ".0";
      assert r[|s|] == '.';
      r
  }

  /** Formatting what is already formatted changes nothing. */
  lemma FormatFloatIdempotent(s: string)
    ensures FormatFloat(FormatFloat(s)) == FormatFloat(s)
  {
    var r := FormatFloat(s);
    if '.' !in s {
      var p := |s|;
      assert r[p] == '.' && r[..p] == s;
      IndexOfAt(r, '.', p);
    }
  }

  /** A whole number is written with one zero decimal. */
  lemma FormatWhole(n: nat)
    ensures FormatFloat(NatToString(n)) == NatToString(n) + ".0"
  {
    DigitsOnly(NatToString(n), '.');
  }

  // ---------------------------------------------------------------------
  // Data file names
  // ---------------------------------------------------------------------

  /** `zeroPad(n, 2)` of a field below 100. */
  function Pad2(n: nat): (s: string)
    requires n < 100
    ensures s == Calendar.Two(n)
  {
    FixedIsZeroPad(n, 2);
    ZeroPad(NatToString(n), 2)
  }

  /** `getFileName`: the data of UTC hour `HH` of day `YYYY-MM-DD` is in
      the file `YYYY/MM/DD/HH.csv`. `None` for a time outside the years
      0000 to 9999, the range the calendar covers. */
  function GetFileName(t: int): (r: Option<string>)
    ensures r.Some? <==> Calendar.InRange(t)
    ensures r.Some? ==> var d := Calendar.FromMillis(t);
      r.value == Calendar.DateText(d, '/') + "/" + Calendar.Two(d.hour) + ".csv"
  {
    if !Calendar.InRange(t) then None
    else
      var d := Calendar.FromMillis(t);
      YearOfIso(d);
      Some(Substring(Calendar.ToIsoString(t), 0, 4) + "/" + Pad2(d.month) + "/" + Pad2(d.day) + "/" + Pad2(d.hour) + ".csv")
  }

  /** The first four characters of the ISO text are the year. */
  lemma YearOfIso(d: Calendar.DateTime)
    requires Calendar.ValidDate(d)
    ensures Substring(Calendar.IsoText(d), 0, 4) == Fixed(d.year, 4)
  {
    Calendar.IsoTextShape(d);
    Calendar.DateTextShape(d, '-');
    var s := Calendar.IsoText(d);
    assert s[0..4] == s[..10][0..4];
  }

  /** Where the date, the hour and the extension sit in a file name. */
  lemma NameParts(dt: string, h: string)
    requires |dt| == 10 && |h| == 2
    ensures var name := dt + "/" + h + ".csv";
      && |name| == 17 && name[..10] == dt && name[10] == '/' && name[11..13] == h && name[13..] == ".csv"
      && name[..4] == dt[..4] && name[4] == dt[4] && name[5..7] == dt[5..7] && name[7] == dt[7]
      && name[8..10] == dt[8..10]
  {
    var name := dt + "/" + h + ".csv";
    assert name[11..13] == h;
    assert name[13..] == ".csv";
  }

  /** The file names are of one shape: 17 characters, three slashes, and
      the `.csv` extension. */
  lemma FileNameShape(t: int)
    requires Calendar.InRange(t)
    ensures var name := GetFileName(t).value;
      |name| == 17 && name[4] == '/' && name[7] == '/' && name[10] == '/' && name[13..] == ".csv"
      && AllDigits(name[..4]) && AllDigits(name[5..7]) && AllDigits(name[8..10]) && AllDigits(name[11..13])
  {
    var d := Calendar.FromMillis(t);
    var dt, h := Calendar.DateText(d, '/'), Calendar.Two(d.hour);
    Calendar.DateTextShape(d, '/');
    NameParts(dt, h);
    assert dt[..4] == dt[0..4];
  }

  /** The start of the UTC hour holding time `t` (JavaScript times count
      from an epoch at a whole hour). */
  function HourStart(t: int): (h: int)
    ensures h <= t < h + Calendar.MsPerHour && h % Calendar.MsPerHour == 0
  {
    t / Calendar.MsPerHour * Calendar.MsPerHour
  }

  /** A time in hour `k` since the epoch starts its hour at `k` hours. */
  lemma HourStartOf(t: int, k: int)
    requires k * Calendar.MsPerHour <= t < k * Calendar.MsPerHour + Calendar.MsPerHour
    ensures HourStart(t) == k * Calendar.MsPerHour
  {
    Calendar.DivModUnique(t, k, t - k * Calendar.MsPerHour, Calendar.MsPerHour);
  }

  /** The date with its minutes, seconds and milliseconds dropped. */
  function WholeHour(d: Calendar.DateTime): (h: Calendar.DateTime)
    requires Calendar.ValidDate(d)
    ensures Calendar.ValidDate(h) && Calendar.ToMillis(h) == HourStart(Calendar.ToMillis(d))
  {
    WholeHourTime(d);
    d.(minute := 0, second := 0, millis := 0)
  }

  lemma WholeHourTime(d: Calendar.DateTime)
    requires Calendar.ValidDate(d)
    ensures var h := d.(minute := 0, second := 0, millis := 0);
      Calendar.ValidDate(h) && Calendar.ToMillis(h) == HourStart(Calendar.ToMillis(d))
  {
    var h := d.(minute := 0, second := 0, millis := 0);
    var k := (Calendar.DayNumber(d) - Calendar.EpochDay) * 24 + d.hour;
    assert Calendar.ValidDate(h) && Calendar.DayNumber(h) == Calendar.DayNumber(d);
    assert Calendar.ToMillis(h) == k * Calendar.MsPerHour;
    HourStartOf(Calendar.ToMillis(d), k);
  }

  /** Slashes become dashes in the date part of a file name. */
  lemma DateTextDashes(d: Calendar.DateTime)
    requires Calendar.ValidDate(d)
    ensures ReplaceChar(Calendar.DateText(d, '/'), '/', '-') == Calendar.DateText(d, '-')
  {
    var y, m, dd := Fixed(d.year, 4), Calendar.Two(d.month), Calendar.Two(d.day);
    DigitsOnly(y, '/');
    DigitsOnly(m, '/');
    DigitsOnly(dd, '/');
    ReplaceCharAbsent(y, '/', '-');
    ReplaceCharAbsent(m, '/', '-');
    ReplaceCharAbsent(dd, '/', '-');
    ReplaceCharConcat(y + "/" + m + "/", dd, '/', '-');
    ReplaceCharConcat(y + "/" + m, "/", '/', '-');
    ReplaceCharConcat(y + "/", m, '/', '-');
    ReplaceCharConcat(y, "/", '/', '-');
  }

  /** The time a file name stands for, as the loader reads it back: the
      date with slashes turned into dashes, and the hour, as an ISO time
      at the start of that hour. `None` for an invalid date. */
  function FileStartTime(name: string): Option<int> {
    Calendar.ParseIso(ReplaceChar(Substring(name, 0, 10), '/', '-') + "T" + Substring(name, 11, 13) + ":00:00.000Z")
  }

  /** Zero written with two and with three digits. */
  lemma ZeroFields()
    ensures Calendar.Two(0) == "00" && Fixed(0, 3) == "000"
  {
    assert DigitChar(0) == '0';
    assert Fixed(0, 1) == "0";
    assert Fixed(0, 2) == "00";
  }

  lemma ClockOfHour(hh: string)
    ensures hh + ":" + "00" + ":" + "00" + "." + "000" + "Z" == hh + ":00:00.000Z"
  {
  }

  /** The clock of a whole hour. */
  lemma WholeHourClock(d: Calendar.DateTime)
    requires Calendar.ValidDate(d)
    ensures Calendar.ClockText(WholeHour(d)) == Calendar.Two(d.hour) + ":00:00.000Z"
  {
    ZeroFields();
    ClockOfHour(Calendar.Two(d.hour));
  }

  /** The ISO text of a whole hour. */
  lemma WholeHourText(d: Calendar.DateTime)
    requires Calendar.ValidDate(d)
    ensures Calendar.IsoText(WholeHour(d)) == Calendar.DateText(d, '-') + "T" + Calendar.Two(d.hour) + ":00:00.000Z"
  {
    var h := WholeHour(d);
    WholeHourClock(d);
    assert Calendar.DateText(h, '-') == Calendar.DateText(d, '-');
  }

  /** Reading back the name of the file of time `t` gives the start of the
      UTC hour of `t`: the loader resumes at the hour the file covers. */
  lemma FileNameRoundTrip(t: int)
    requires Calendar.InRange(t)
    ensures FileStartTime(GetFileName(t).value) == Some(HourStart(t))
  {
    var d := Calendar.FromMillis(t);
    var dt, h := Calendar.DateText(d, '/'), Calendar.Two(d.hour);
    NameParts(dt, h);
    var name := GetFileName(t).value;
    assert Substring(name, 0, 10) == dt;
    assert Substring(name, 11, 13) == h;
    DateTextDashes(d);
    WholeHourText(d);
    Calendar.ParseIsoText(WholeHour(d));
  }

  // ---------------------------------------------------------------------
  // Hour stepping of the file loader
  // ---------------------------------------------------------------------

  /** The number of the UTC hour holding time `t`, counted from the epoch. */
  function HourIndex(t: int): int {
    t / Calendar.MsPerHour
  }

  /** Later times are in the same or a later hour. */
  lemma HourIndexMonotone(a: int, b: int)
    requires a <= b
    ensures HourIndex(a) <= HourIndex(b)
  {
    var ka, kb := HourIndex(a), HourIndex(b);
    if ka > kb {
      Calendar.MulAtLeast(ka - kb, Calendar.MsPerHour);
      assert false;
    }
  }

  /** The loader's step to the next file: the first whole hour after `t`
      (`Math.floor(t / 3600 / 1000) * 3600 * 1000 + 3600 * 1000`; the
      quotient of integer milliseconds is exact). */
  function NextHour(t: int): (r: int)
    ensures HourStart(r) == r && t < r && r - Calendar.MsPerHour <= t
    ensures HourIndex(r) == HourIndex(t) + 1 && HourIndex(r - 1) == HourIndex(t)
  {
    var k := HourIndex(t);
    HourStartOf(k * Calendar.MsPerHour + Calendar.MsPerHour, k + 1);
    Calendar.DivModUnique(k * Calendar.MsPerHour + Calendar.MsPerHour, k + 1, 0, Calendar.MsPerHour);
    Calendar.DivModUnique(k * Calendar.MsPerHour + Calendar.MsPerHour - 1, k, Calendar.MsPerHour - 1, Calendar.MsPerHour);
    k * Calendar.MsPerHour + Calendar.MsPerHour
  }

  /** The times the loader opens a file at: `cur`, then whole hours, while
      before `end`. The loop ends because every step moves forward. */
  function HourSteps(cur: int, end: int): (r: seq<int>)
    ensures |r| > 0 <==> cur < end
    ensures |r| > 0 ==> r[0] == cur
    ensures forall k :: 0 <= k < |r| ==> cur <= r[k] < end
    decreases end - cur
  {
    if cur < end then [cur] + HourSteps(NextHour(cur), end) else []
  }

  /** Every hour from `cur` up to `end` is among the steps. */
  lemma {:induction false} HourStepsCover(cur: int, end: int, t: int)
    requires cur <= t < end
    ensures exists k :: 0 <= k < |HourSteps(cur, end)| && HourIndex(HourSteps(cur, end)[k]) == HourIndex(t)
    decreases end - cur
  {
    var r := HourSteps(cur, end);
    if HourIndex(t) != HourIndex(cur) {
      var n := NextHour(cur);
      HourIndexMonotone(cur, t);
      assert n <= t by {
        if t < n {
          HourIndexMonotone(t, n - 1);
        }
      }
      HourStepsCover(n, end, t);
      var k :| 0 <= k < |HourSteps(n, end)| && HourIndex(HourSteps(n, end)[k]) == HourIndex(t);
      assert r[k + 1] == HourSteps(n, end)[k];
    } else {
      assert HourIndex(r[0]) == HourIndex(t);
    }
  }

  /** Each time is in a later hour than the one before it. */
  predicate HoursIncrease(r: seq<int>) {
    forall i, j :: 0 <= i < j < |r| ==> HourIndex(r[i]) < HourIndex(r[j])
  }

  /** The steps are in strictly later hours each: no hour is opened twice. */
  lemma {:induction false} HourStepsIncreasing(cur: int, end: int)
    ensures HoursIncrease(HourSteps(cur, end))
    decreases end - cur
  {
    var r := HourSteps(cur, end);
    if cur < end {
      var n := NextHour(cur);
      var rest := HourSteps(n, end);
      HourStepsIncreasing(n, end);
      forall i, j | 0 <= i < j < |r|
        ensures HourIndex(r[i]) < HourIndex(r[j])
      {
        assert r[j] == rest[j - 1];
        if i == 0 {
          HourIndexMonotone(n, rest[j - 1]);
        } else {
          assert r[i] == rest[i - 1];
        }
      }
    }
  }

  /** The file of a time depends on its hour only. */
  lemma SameHourSameFile(a: int, b: int)
    requires Calendar.InRange(a) && Calendar.InRange(b) && HourIndex(a) == HourIndex(b)
    ensures GetFileName(a) == GetFileName(b)
  {
    var da, db := Calendar.FromMillis(a), Calendar.FromMillis(b);
    var wa, wb := WholeHour(da), WholeHour(db);
    Calendar.FromToMillis(wa);
    Calendar.FromToMillis(wb);
    assert wa == wb;
    assert Calendar.DateText(da, '/') == Calendar.DateText(db, '/');
  }

  /** Times in different hours have different files. */
  lemma OtherHourOtherFile(a: int, b: int)
    requires Calendar.InRange(a) && Calendar.InRange(b) && HourIndex(a) != HourIndex(b)
    ensures GetFileName(a) != GetFileName(b)
  {
    FileNameRoundTrip(a);
    FileNameRoundTrip(b);
    HourStartOf(a, HourIndex(a));
    HourStartOf(b, HourIndex(b));
    if HourIndex(a) < HourIndex(b) {
      Calendar.MulAtLeast(HourIndex(b) - HourIndex(a), Calendar.MsPerHour);
    } else {
      Calendar.MulAtLeast(HourIndex(a) - HourIndex(b), Calendar.MsPerHour);
    }
  }

  // ---------------------------------------------------------------------
  // The downloads of one update of the data window
  // ---------------------------------------------------------------------

  /** A file download: the file name and the byte offset it is read from. */
  datatype Download = Download(name: string, offset: int)

  /** Where the loader starts: at the hour of the last file read when one
      is named (an empty name counts as none), and otherwise at the window
      start. `None` when the name does not read back as a date, which
      makes the loop condition false. */
  function LoaderStart(lastFile: Option<string>, windowStart: int): Option<int> {
    if lastFile.Some? && lastFile.value != "" then FileStartTime(lastFile.value) else Some(windowStart)
  }

  /** The download of the file of time `t`: from `bytesRead` if it is the
      last file read, and from the beginning otherwise. */
  function FileDownload(t: int, lastFile: Option<string>, bytesRead: int): (d: Download)
    requires Calendar.InRange(t)
    ensures d.name == GetFileName(t).value
  {
    var name := GetFileName(t).value;
    Download(name, if lastFile == Some(name) then bytesRead else 0)
  }

  /** All steps have a file name. */
  predicate Nameable(hours: seq<int>) {
    forall k :: 0 <= k < |hours| ==> Calendar.InRange(hours[k])
  }

  /** The downloads `updateDataWindow` starts, in order: one per hour from
      the loader start while before the window end, and none unless the
      window is fixed or aggregates the past (`loads`). `None` when an hour
      lies outside the years 0000 to 9999 the calendar covers. */
  function Downloads(lastFile: Option<string>, bytesRead: int, windowStart: int, windowEnd: int,
                     loads: bool): (r: Option<seq<Download>>)
    ensures !loads ==> r == Some([])
    ensures loads && LoaderStart(lastFile, windowStart).Some? ==>
      var hours := HourSteps(LoaderStart(lastFile, windowStart).value, windowEnd);
      (r.Some? <==> Nameable(hours)) && (r.Some? ==> |r.value| == |hours|)
  {
    if !loads then Some([])
    else match LoaderStart(lastFile, windowStart)
      case None => Some([])
      case Some(start) =>
        var hours := HourSteps(start, windowEnd);
        if Nameable(hours) then
          Some(seq(|hours|, k requires 0 <= k < |hours| => FileDownload(hours[k], lastFile, bytesRead)))
        else None
  }

  /** Each hour of `[start, windowEnd)` has its file downloaded. */
  lemma DownloadsCover(lastFile: Option<string>, bytesRead: int, windowStart: int, windowEnd: int, t: int)
    requires LoaderStart(lastFile, windowStart).Some?
    requires Downloads(lastFile, bytesRead, windowStart, windowEnd, true).Some?
    requires LoaderStart(lastFile, windowStart).value <= t < windowEnd && Calendar.InRange(t)
    ensures exists k :: (0 <= k < |Downloads(lastFile, bytesRead, windowStart, windowEnd, true).value|
      && Downloads(lastFile, bytesRead, windowStart, windowEnd, true).value[k].name == GetFileName(t).value)
  {
    var start := LoaderStart(lastFile, windowStart).value;
    var hours := HourSteps(start, windowEnd);
    var r := Downloads(lastFile, bytesRead, windowStart, windowEnd, true).value;
    HourStepsCover(start, windowEnd, t);
    var k :| 0 <= k < |hours| && HourIndex(hours[k]) == HourIndex(t);
    SameHourSameFile(hours[k], t);
    assert r[k].name == GetFileName(t).value;
  }

  /** No file is downloaded twice in one update. */
  lemma DownloadsDistinct(lastFile: Option<string>, bytesRead: int, windowStart: int, windowEnd: int, loads: bool)
    requires Downloads(lastFile, bytesRead, windowStart, windowEnd, loads).Some?
    ensures var r := Downloads(lastFile, bytesRead, windowStart, windowEnd, loads).value;
      forall i, j :: 0 <= i < j < |r| ==> r[i].name != r[j].name
  {
    var r := Downloads(lastFile, bytesRead, windowStart, windowEnd, loads).value;
    if loads && LoaderStart(lastFile, windowStart).Some? {
      var hours := HourSteps(LoaderStart(lastFile, windowStart).value, windowEnd);
      HourStepsIncreasing(LoaderStart(lastFile, windowStart).value, windowEnd);
      forall i, j | 0 <= i < j < |r|
        ensures r[i].name != r[j].name
      {
        OtherHourOtherFile(hours[i], hours[j]);
      }
    }
  }

  /** The hour index of the start of an hour. */
  lemma HourStartIndex(t: int)
    ensures HourIndex(HourStart(t)) == HourIndex(t)
  {
    Calendar.DivModUnique(HourStart(t), HourIndex(t), 0, Calendar.MsPerHour);
  }

  /** Resuming after file `name` of time `t`: the first download is that
      file again, read on from `bytesRead`, and every other one is read
      from the beginning. */
  lemma DownloadsResume(t: int, bytesRead: int, windowStart: int, windowEnd: int)
    requires Calendar.InRange(t) && HourStart(t) < windowEnd
    requires Downloads(GetFileName(t), bytesRead, windowStart, windowEnd, true).Some?
    ensures var r := Downloads(GetFileName(t), bytesRead, windowStart, windowEnd, true).value;
      && |r| > 0 && r[0] == Download(GetFileName(t).value, bytesRead)
      && forall k :: 1 <= k < |r| ==> r[k].offset == 0
  {
    var name := GetFileName(t);
    FileNameShape(t);
    FileNameRoundTrip(t);
    assert LoaderStart(name, windowStart) == Some(HourStart(t));
    var r := Downloads(name, bytesRead, windowStart, windowEnd, true).value;
    var hours := HourSteps(HourStart(t), windowEnd);
    HourStartIndex(t);
    SameHourSameFile(HourStart(t), t);
    assert r[0] == Download(name.value, bytesRead);
    DownloadsDistinct(name, bytesRead, windowStart, windowEnd, true);
    forall k | 1 <= k < |r|
      ensures r[k].offset == 0
    {
      assert r[k].name != r[0].name;
    }
  }

  /** Without a last file, the loader starts at the file of the window
      start and reads every file from the beginning. */
  lemma DownloadsFresh(windowStart: int, windowEnd: int, bytesRead: int)
    requires windowStart < windowEnd
    requires Downloads(None, bytesRead, windowStart, windowEnd, true).Some?
    ensures var r := Downloads(None, bytesRead, windowStart, windowEnd, true).value;
      && |r| > 0 && Calendar.InRange(windowStart) && r[0].name == GetFileName(windowStart).value
      && forall k :: 0 <= k < |r| ==> r[k].offset == 0
  {
    assert LoaderStart(None, windowStart) == Some(windowStart);
    var hours := HourSteps(windowStart, windowEnd);
    var r := Downloads(None, bytesRead, windowStart, windowEnd, true).value;
    assert hours[0] == windowStart && Calendar.InRange(hours[0]);
    forall k | 0 <= k < |r|
      ensures r[k].offset == 0
    {
      assert r[k] == FileDownload(hours[k], None, bytesRead);
    }
  }

  // ---------------------------------------------------------------------
  // Window length and time range
  // ---------------------------------------------------------------------

  /** The longest rolling window, two hours. */
  const RollingLimit: int := 7200000

  /** What the component keeps about the window to load: its start date
      (`None` for a rolling window) and its length in milliseconds (`None`
      when it is `NaN`). */
  datatype View = View(date: Option<int>, lengthMillis: Option<int>)

  /** The component starts with a rolling window of one hour. */
  const InitialView: View := View(None, Some(3600000))

  /** A length above the rolling limit (`NaN` is not). */
  predicate TooLong(len: Option<int>) {
    len.Some? && len.value > RollingLimit
  }

  /** A rolling view is at most two hours long. */
  predicate RollingBounded(v: View) {
    v.date.None? ==> !TooLong(v.lengthMillis)
  }

  /** The outcome of a settings change: nothing to do, or a window to load. */
  datatype Change = Keep | Reload(view: View)

  /** `setWindowDuration`. `given` is false when no value is passed,
      `requested` is the `parseInt` of the value (`None` for `NaN`),
      `sameAsCurrent` is the outcome of the loose comparison of the passed
      value with the current length, and `rolling` says whether the current
      data window is rolling. A rolling window gets at most the limit; a
      request above it is dropped when it equals the current length. */
  function SetWindowDuration(v: View, rolling: bool, given: bool, requested: Option<int>, sameAsCurrent: bool): (c: Change)
    ensures !given || sameAsCurrent ==> c == Keep
    ensures c.Reload? ==> c.view.date == v.date
    ensures c.Reload? && rolling ==> !TooLong(c.view.lengthMillis)
    ensures c.Reload? && rolling && TooLong(requested) ==> c.view.lengthMillis == Some(RollingLimit)
    ensures c.Reload? && !(rolling && TooLong(requested)) ==> c.view.lengthMillis == requested
    ensures given && !sameAsCurrent ==> (c.Keep? <==> rolling && TooLong(requested) && v.lengthMillis == requested)
  {
    if !given || sameAsCurrent then Keep
    else if rolling && requested.Some? && requested.value > RollingLimit then
      if v.lengthMillis != requested then Reload(View(v.date, Some(RollingLimit))) else Keep
    else Reload(View(v.date, requested))
  }

  /** `setTimeRange`: a new start date, or `None` for a rolling window,
      which is shortened to the limit. Nothing happens when the date is the
      current one. */
  function SetTimeRange(v: View, date: Option<int>): (c: Change)
    ensures c.Keep? <==> date == v.date
    ensures c.Reload? ==> c.view.date == date
    ensures c.Reload? && (date.Some? || !TooLong(v.lengthMillis)) ==> c.view.lengthMillis == v.lengthMillis
    ensures c.Reload? && date.None? && TooLong(v.lengthMillis) ==> c.view.lengthMillis == Some(RollingLimit)
  {
    if date.Some? && v.date.Some? && date.value == v.date.value then Keep
    else if date.None? && v.date.None? then Keep
    else
      var len := if date.None? && v.lengthMillis.Some? && v.lengthMillis.value > RollingLimit
                 then Some(RollingLimit) else v.lengthMillis;
      Reload(View(date, len))
  }

  /** A rolling view never gets longer than two hours: the initial view is
      bounded, and both settings changes keep it so (a duration change
      provided the data window's type matches the view's date). */
  lemma RollingStaysBounded(v: View, date: Option<int>, given: bool, requested: Option<int>, sameAsCurrent: bool)
    requires RollingBounded(v)
    ensures RollingBounded(InitialView)
    ensures SetTimeRange(v, date).Reload? ==> RollingBounded(SetTimeRange(v, date).view)
    ensures var c := SetWindowDuration(v, v.date.None?, given, requested, sameAsCurrent);
      c.Reload? ==> RollingBounded(c.view)
  {
  }

  // ---------------------------------------------------------------------
  // Setting up a data window
  // ---------------------------------------------------------------------

  /** The key a band threshold is stored under: points become underscores,
      as band names in the samples have them. */
  function ThresholdKey(key: string): (r: string)
    ensures '.' !in r && |r| == |key|
  {
    var r := ReplaceChar(key, '.', '_');
    assert forall i :: 0 <= i < |r| ==> r[i] != '.';
    r
  }

  /** The window thresholds from the band configuration, given as its
      keys in order with each band's one-hour limit: each key under its
      threshold key; a later key overwrites an earlier one of the same
      threshold key. */
  function Thresholds(config: seq<(string, real)>): (r: map<string, real>)
    ensures r.Keys == set i | 0 <= i < |config| :: ThresholdKey(config[i].0)
    ensures forall k :: k in r ==> '.' !in k
  {
    if |config| == 0 then map[]
    else
      var n := |config| - 1;
      var r := Thresholds(config[..n])[ThresholdKey(config[n].0) := config[n].1];
      assert forall i :: 0 <= i < n ==> config[..n][i] == config[i];
      r
  }

  /** The configuration lists each key once, as an object's keys are. */
  predicate DistinctKeys(config: seq<(string, real)>) {
    forall i, j :: 0 <= i < j < |config| ==> config[i].0 != config[j].0
  }

  /** When no key holds an underscore, distinct keys have distinct
      threshold keys, and each band's threshold is its own one-hour limit. */
  lemma {:induction false} ThresholdOfBand(config: seq<(string, real)>, i: int)
    requires DistinctKeys(config) && forall j :: 0 <= j < |config| ==> '_' !in config[j].0
    requires 0 <= i < |config|
    ensures Thresholds(config)[ThresholdKey(config[i].0)] == config[i].1
    decreases |config|
  {
    var n := |config| - 1;
    var front := config[..n];
    assert Thresholds(config) == Thresholds(front)[ThresholdKey(config[n].0) := config[n].1];
    if i < n {
      ReplaceCharInverse(config[i].0, '.', '_');
      ReplaceCharInverse(config[n].0, '.', '_');
      assert ThresholdKey(config[i].0) != ThresholdKey(config[n].0);
      assert front[i] == config[i];
      assert forall j :: 0 <= j < |front| ==> front[j] == config[j];
      assert DistinctKeys(front);
      ThresholdOfBand(front, i);
    }
  }

  /** What `initializeDataWindow` computes: the window bounds it reports
      and the window it creates. */
  datatype Setup = Setup(start: int, end: int, window: DataWindow.Window)

  /** `initializeDataWindow` for a start date (`None` for a rolling window
      ending now) and a length in milliseconds. The window is created with
      the length in seconds; it covers the reported bounds exactly when
      the length is a whole number of seconds. */
  function InitializeDataWindow(config: seq<(string, real)>, startTime: Option<int>, lengthMillis: int,
                                visible: seq<string>, aggregatePast: bool, now: int): (s: Setup)
    ensures s.end - s.start == lengthMillis
    ensures startTime.Some? ==> s.start == startTime.value
    ensures startTime.None? ==> s.end == now
    ensures lengthMillis % 1000 == 0 ==> s.window.start == s.start && s.window.end == s.end
    ensures s.window.length == lengthMillis / 1000
    ensures s.window.rolling <==> startTime.None?
    ensures s.window.thresholds == Thresholds(config) && s.window.visible == visible
    ensures s.window.aggregatePast == aggregatePast && s.window.status == DataWindow.Initializing
  {
    var end := if startTime.Some? then startTime.value + lengthMillis else now;
    var start := if startTime.Some? then startTime.value else end - lengthMillis;
    Setup(start, end, DataWindow.NewWindow(startTime, lengthMillis / 1000, Thresholds(config), visible, aggregatePast, now))
  }
}
