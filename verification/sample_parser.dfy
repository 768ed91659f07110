/** The per-second sample lines of the noise monitor and the events the
    data window is built from (`addDataToEvents`, `applyDataLineToWindow`).
    A line is tab separated: the slot time `YYYY-MM-DDTHH:mm:ss`, the
    receive time, then one level in dB per measured band. */
module Samples {
  import opened Optional
  import opened Text
  import opened Numerals
  import opened Calendar

  /** The band labels of a sample: four full-spectrum weightings, 36 third
      octaves and the bass band computed from six of them. */
  const Bands: seq<string> := ["LeqA", "LeqB", "LeqC", "LeqZ", "Leq6_3Hz", "Leq8Hz", "Leq10Hz",
    "Leq12_5Hz", "Leq16Hz", "Leq20Hz", "Leq25Hz", "Leq31_5Hz", "Leq40Hz", "Leq50Hz", "Leq63Hz",
    "Leq80Hz", "Leq100Hz", "Leq125Hz", "Leq160Hz", "Leq200Hz", "Leq250Hz", "Leq315Hz", "Leq400Hz",
    "Leq500Hz", "Leq630Hz", "Leq800Hz", "Leq1kHz", "Leq1_25kHz", "Leq1_6kHz", "Leq2kHz", "Leq2_5kHz",
    "Leq3_15kHz", "Leq4kHz", "Leq5kHz", "Leq6_3kHz", "Leq8kHz", "Leq10kHz", "Leq12_5kHz", "Leq16kHz",
    "Leq20kHz", "LeqBass"]

  /** The bands read from a line, all but the computed bass band. */
  const Measured: seq<string> := Bands[..40]

  const Bass: string := "LeqBass"

  /** The floating-point steps the model leaves abstract: the energy
      `10^(level/10)` of a level, the bass level computed from the six
      fields 11 to 16 of a line, and the level `10*log10(x)` of a mean
      energy. `None` stands for `NaN` (and, for a level, minus infinity). */
  datatype Numerics = Numerics(
    energy: Option<real> -> real,
    bass: seq<Option<string>> -> Option<real>,
    db: real -> Option<real>)

  /** One sample: its time in milliseconds, the values of its fields by
      name (the band levels, and once aggregated the `_10s`, `_5m` and
      `_1h` levels) and the energy of each band. */
  datatype Event = Event(time: int, data: map<string, Option<real>>, ee: map<string, real>)

  /** The field at index `i` of a split line; `None` is `undefined`. */
  function FieldAt(fields: seq<string>, i: nat): (r: Option<string>)
    ensures r.Some? <==> i < |fields|
  {
    if i < |fields| then Some(fields[i]) else None
  }

  /** `parseFloat` of a field, `undefined` giving `NaN`. */
  function ParseField(f: Option<string>): Option<real> {
    match f
    case None => None
    case Some(s) => ParseFloat(s)
  }

  /** The six fields the bass band is computed from: fields 11 to 16 of a
      line, which hold the 20 Hz to 63 Hz third octaves (the bands 9 to 14
      of `Bands`, shifted by the two time fields). */
  function BassFields(fields: seq<string>): (r: seq<Option<string>>)
    ensures |r| == 6 && forall k :: 0 <= k < 6 ==> r[k] == FieldAt(fields, 11 + k)
  {
    [FieldAt(fields, 11), FieldAt(fields, 12), FieldAt(fields, 13),
     FieldAt(fields, 14), FieldAt(fields, 15), FieldAt(fields, 16)]
  }

  /** The levels read from the fields of a line: label `labels[j]` from
      field `j + 2`, assigned in order so that a later label of the same
      name wins. */
  function Levels(fields: seq<string>, labels: seq<string>): (m: map<string, Option<real>>)
    ensures forall b :: b in m <==> b in labels
    ensures |labels| > 0 ==> m[labels[|labels| - 1]] == ParseField(FieldAt(fields, |labels| + 1))
    decreases |labels|
  {
    if |labels| == 0 then map[]
    else
      var n := |labels| - 1;
      var m := Levels(fields, labels[..n]);
      assert forall b :: b in labels <==> b in labels[..n] || b == labels[n];
      m[labels[n] := ParseField(FieldAt(fields, n + 2))]
  }

  /** A label that is not repeated later reads the field at its own
      position (two places after its index: the slot and receive times come
      first). */
  lemma {:induction false} LevelsAt(fields: seq<string>, labels: seq<string>, j: nat)
    requires j < |labels| && labels[j] !in labels[j + 1..]
    ensures Levels(fields, labels)[labels[j]] == ParseField(FieldAt(fields, j + 2))
    decreases |labels|
  {
    var n := |labels| - 1;
    if j < n {
      assert labels[..n][j + 1..] == labels[j + 1..n];
      assert labels[n] in labels[j + 1..];
      LevelsAt(fields, labels[..n], j);
    }
  }

  /** The sample a line describes at time `t`: the measured bands read
      from their fields, the bass band computed, and every band's energy
      that of its level. */
  function LineEvent(t: int, line: string, labels: seq<string>, num: Numerics): (e: Event)
    ensures e.time == t
    ensures e.data.Keys == e.ee.Keys && Bass in e.data
    ensures forall b :: b in e.data ==> e.ee[b] == num.energy(e.data[b])
    ensures e.data[Bass] == num.bass(BassFields(Split(line, "\t")))
    ensures forall b :: b in e.data ==> b in labels || b == Bass
    ensures forall b :: b in labels && b != Bass ==> b in e.data && e.data[b] == Levels(Split(line, "\t"), labels)[b]
  {
    var fields := Split(line, "\t");
    var data := Levels(fields, labels)[Bass := num.bass(BassFields(fields))];
    Event(t, data, map b | b in data :: num.energy(data[b]))
  }

  /** A measured band not repeated later in the labels holds the level
      parsed from its own field of the line. */
  lemma LineEventField(t: int, line: string, labels: seq<string>, num: Numerics, j: nat)
    requires j < |labels| && labels[j] != Bass && labels[j] !in labels[j + 1..]
    ensures labels[j] in LineEvent(t, line, labels, num).data
    ensures LineEvent(t, line, labels, num).data[labels[j]] == ParseField(FieldAt(Split(line, "\t"), j + 2))
  {
    LevelsAt(Split(line, "\t"), labels, j);
  }

  /** `applyDataLineToWindow`: one event is appended for the line, in
      order or not (an out-of-order line is only logged). */
  function ApplyDataLine(buffer: seq<Event>, t: int, line: string, labels: seq<string>, num: Numerics): (r: seq<Event>)
    ensures |r| == |buffer| + 1 && r[..|buffer|] == buffer
    ensures r[|buffer|] == LineEvent(t, line, labels, num)
  {
    buffer + [LineEvent(t, line, labels, num)]
  }

  /** The lines of a downloaded chunk: split at CR LF, empty lines dropped,
      and a first line starting with `I` (the header) dropped. */
  function DataLines(data: string): (lines: seq<string>)
    ensures forall k :: 0 <= k < |lines| ==> |lines[k]| > 0 && Find(lines[k], "\r\n").None?
    ensures |lines| > 0 ==> exists k :: 0 <= k < |Split(data, "\r\n")| && Split(data, "\r\n")[k] == lines[0]
    ensures var ne := NonEmpty(Split(data, "\r\n"));
      if |ne| > 0 && ne[0][0] == 'I' then lines == ne[1..] else lines == ne
  {
    var parts := Split(data, "\r\n");
    SplitPartsAreFree(data, "\r\n");
    var lines := NonEmpty(parts);
    if |lines| > 0 && lines[0][0] == 'I' then lines[1..] else lines
  }

  /** The non-empty strings of a list, in order. */
  function NonEmpty(parts: seq<string>): (r: seq<string>)
    ensures |r| <= |parts|
    ensures forall k :: 0 <= k < |r| ==> |r[k]| > 0 && r[k] in parts
    ensures forall k :: 0 <= k < |parts| && |parts[k]| > 0 ==> parts[k] in r
  {
    if |parts| == 0 then []
    else
      var rest := NonEmpty(parts[1..]);
      assert forall k :: 1 <= k < |parts| ==> parts[k] == parts[1..][k - 1];
      if |parts[0]| > 0 then [parts[0]] + rest else rest
  }

  /** The filter works part by part: filtering a concatenation
      concatenates the filtered halves, so with the membership facts of
      `NonEmpty` the kept parts are those of the input in their order. */
  lemma {:induction false} NonEmptyAppend(a: seq<string>, b: seq<string>)
    ensures NonEmpty(a + b) == NonEmpty(a) + NonEmpty(b)
    decreases |a|
  {
    if |a| == 0 {
      assert a + b == b;
    } else {
      assert (a + b)[0] == a[0];
      assert (a + b)[1..] == a[1..] + b;
      NonEmptyAppend(a[1..], b);
    }
  }

  /** The time of a line: the text before the first tab with `.000Z`
      appended, read by the `Date` constructor; `None` is an invalid date. */
  function LineTime(line: string): Option<int> {
    ParseIso(Substring(line, 0, IndexOf(line, '\t')) + ".000Z")
  }

  /** The slot time of a sample line as the monitor writes it: the first 19
      characters of the ISO form, `YYYY-MM-DDTHH:mm:ss`. */
  function SecondText(d: DateTime): (s: string)
    requires ValidDate(d)
    ensures |s| == 19
  {
    IsoText(d)[..19]
  }

  lemma DateChars(d: DateTime)
    requires ValidDate(d)
    ensures '\t' !in DateText(d, '-')
  {
    DateTextShape(d, '-');
    var s := DateText(d, '-');
    assert s == s[0..4] + [s[4]] + s[5..7] + [s[7]] + s[8..10];
    DigitsOnly(Fixed(d.year, 4), '\t');
    DigitsOnly(Two(d.month), '\t');
    DigitsOnly(Two(d.day), '\t');
  }

  lemma ClockChars(d: DateTime)
    requires ValidDate(d)
    ensures '\t' !in ClockText(d)[..8]
  {
    ClockTextShape(d);
    var c := ClockText(d);
    assert c[..8] == c[0..2] + [c[2]] + c[3..5] + [c[5]] + c[6..8];
    DigitsOnly(Two(d.hour), '\t');
    DigitsOnly(Two(d.minute), '\t');
    DigitsOnly(Two(d.second), '\t');
  }

  /** The slot time holds no tab. */
  lemma SecondTextTabFree(d: DateTime)
    requires ValidDate(d)
    ensures '\t' !in SecondText(d)
  {
    var s := IsoText(d);
    IsoTextShape(d);
    DateChars(d);
    ClockChars(d);
    assert s[..19] == s[..10] + [s[10]] + ClockText(d)[..8];
  }

  /** With `.000Z` appended, the slot time is the ISO form of a whole second. */
  lemma SecondTextIso(d: DateTime)
    requires ValidDate(d) && d.millis == 0
    ensures SecondText(d) + ".000Z" == IsoText(d)
  {
    var s := IsoText(d);
    IsoTextShape(d);
    ClockTextShape(d);
    var c := ClockText(d);
    assert s[19..] == c[8..];
    assert Fixed(0, 3) == "000";
    assert c[8..] == [c[8]] + c[9..12] + [c[12]];
    assert s == s[..19] + s[19..];
  }

  /** The slot time does not show the milliseconds. */
  lemma SecondTextWhole(d: DateTime)
    requires ValidDate(d)
    ensures SecondText(d) == SecondText(d.(millis := 0))
  {
    SecondTextParts(d);
    SecondTextParts(d.(millis := 0));
  }

  /** The slot time is the date, the `T` and the clock up to the seconds. */
  lemma SecondTextParts(d: DateTime)
    requires ValidDate(d)
    ensures SecondText(d) == DateText(d, '-') + "T" + Two(d.hour) + ":" + Two(d.minute) + ":" + Two(d.second)
  {
    var head := Two(d.hour) + ":" + Two(d.minute) + ":" + Two(d.second);
    var c := ClockText(d);
    assert c == head + ("." + Fixed(d.millis, 3) + "Z");
    assert c[..8] == head;
    var s := IsoText(d);
    assert s == (DateText(d, '-') + "T" + head) + ("." + Fixed(d.millis, 3) + "Z");
  }

  /** Dropping the milliseconds of a date moves its time back by them. */
  lemma WholeSecond(d: DateTime)
    requires ValidDate(d)
    ensures ToMillis(d.(millis := 0)) == ToMillis(d) - d.millis
  {
  }

  /** The slot time of a whole second, read back with `.000Z` appended,
      gives that second. */
  lemma ParseSecond(d: DateTime)
    requires ValidDate(d) && d.millis == 0
    ensures ParseIso(SecondText(d) + ".000Z") == Some(ToMillis(d))
  {
    SecondTextIso(d);
    ParseIsoText(d);
  }

  /** The slot time of a date, read back with `.000Z` appended, gives the
      date with its milliseconds dropped. */
  lemma SecondOfDate(d: DateTime)
    requires ValidDate(d)
    ensures ParseIso(SecondText(d) + ".000Z") == Some(ToMillis(d.(millis := 0)))
  {
    SecondTextWhole(d);
    ParseSecond(d.(millis := 0));
  }

  /** The start of the UTC second holding time `t`. */
  function SecondFloor(t: int): (p: int)
    requires InRange(t)
    ensures t - 1000 < p <= t
  {
    WholeSecond(FromMillis(t));
    ToMillis(FromMillis(t).(millis := 0))
  }

  /** The first 19 characters of `toISOString`, read back with `.000Z`
      appended, give the start of the second. */
  lemma SecondOfTime(t: int)
    requires InRange(t)
    ensures ParseIso(ToIsoString(t)[..19] + ".000Z") == Some(SecondFloor(t))
  {
    SecondOfDate(FromMillis(t));
  }

  /** A line written with the slot time of a whole second reads back as
      that second, whatever follows the tab. */
  lemma LineTimeOf(d: DateTime, rest: string)
    requires ValidDate(d) && d.millis == 0
    ensures LineTime(SecondText(d) + "\t" + rest) == Some(ToMillis(d))
  {
    var p := SecondText(d);
    var line := p + "\t" + rest;
    SecondTextTabFree(d);
    SecondTextIso(d);
    assert forall j :: 0 <= j < 19 ==> line[j] == p[j];
    IndexOfAt(line, '\t', 19);
    assert Substring(line, 0, 19) == p;
    ParseIsoText(d);
  }

  /** A line that ends the chunk: in a fixed window, a line of a valid time
      after the window end. An invalid time compares false and does not. */
  predicate Ends(line: string, rolling: bool, end: int) {
    !rolling && LineTime(line).Some? && LineTime(line).value > end
  }

  /** A line the window takes: one of a valid time no earlier than the
      window start. */
  predicate Takes(line: string, start: int) {
    LineTime(line).Some? && LineTime(line).value >= start
  }

  /** The number of lines the loop looks at: those before the first line
      that ends the chunk. */
  function Cut(lines: seq<string>, rolling: bool, end: int): (n: nat)
    ensures n <= |lines|
    ensures forall k :: 0 <= k < n ==> !Ends(lines[k], rolling, end)
    ensures n < |lines| ==> Ends(lines[n], rolling, end)
  {
    if |lines| == 0 || Ends(lines[0], rolling, end) then 0
    else
      var n := Cut(lines[1..], rolling, end);
      assert forall k :: 1 <= k < |lines| ==> lines[k] == lines[1..][k - 1];
      1 + n
  }

  /** The lines a window takes from a chunk, with their times: a line of an
      invalid or earlier time is passed over, and in a fixed window the
      first line after `end` ends the chunk. */
  function Kept(lines: seq<string>, rolling: bool, start: int, end: int): (r: seq<(int, string)>)
    ensures |r| <= |lines|
    ensures forall k :: 0 <= k < |r| ==> start <= r[k].0 && (!rolling ==> r[k].0 <= end)
    ensures forall k :: 0 <= k < |r| ==> r[k].1 in lines[..Cut(lines, rolling, end)] && LineTime(r[k].1) == Some(r[k].0)
    ensures forall k :: 0 <= k < Cut(lines, rolling, end) && Takes(lines[k], start) ==>
      (LineTime(lines[k]).value, lines[k]) in r
  {
    if |lines| == 0 then []
    else
      var t := LineTime(lines[0]);
      if !rolling && t.Some? && t.value > end then []
      else
        var rest := Kept(lines[1..], rolling, start, end);
        var r := Head(lines[0], start) + rest;
        KeptStep(lines, rolling, start, end, lines[1..], rest, r);
        r
  }

  /** The lines taken are those of the chunk's head and of its rest, and
      none after the cut. */
  lemma KeptStep(lines: seq<string>, rolling: bool, start: int, end: int,
                 tail: seq<string>, rest: seq<(int, string)>, r: seq<(int, string)>)
    requires |lines| > 0 && !Ends(lines[0], rolling, end) && tail == lines[1..]
    requires r == Head(lines[0], start) + rest
    requires forall k :: 0 <= k < |rest| ==> start <= rest[k].0 && (!rolling ==> rest[k].0 <= end)
    requires forall k :: 0 <= k < |rest| ==> LineTime(rest[k].1) == Some(rest[k].0)
    requires forall k :: 0 <= k < |rest| ==> rest[k].1 in tail[..Cut(tail, rolling, end)]
    requires forall k :: 0 <= k < Cut(tail, rolling, end) && Takes(tail[k], start) ==>
      (LineTime(tail[k]).value, tail[k]) in rest
    ensures forall k :: 0 <= k < |r| ==> start <= r[k].0 && (!rolling ==> r[k].0 <= end)
    ensures forall k :: 0 <= k < |r| ==> r[k].1 in lines[..Cut(lines, rolling, end)] && LineTime(r[k].1) == Some(r[k].0)
    ensures forall k :: 0 <= k < Cut(lines, rolling, end) && Takes(lines[k], start) ==>
      (LineTime(lines[k]).value, lines[k]) in r
  {
    CutStep(lines, rolling, end);
    var n := Cut(tail, rolling, end);
    var h := Head(lines[0], start);
    HeadTaken(lines[0], rolling, start, end, h);
    KeptStepSound(h, rest, r, rolling, start, end);
    KeptStepFrom(lines[..Cut(lines, rolling, end)], lines[0], tail[..n], h, rest, r);
    var want := (l: string) => Takes(l, start);
    var entry := (l: string) => (if LineTime(l).Some? then LineTime(l).value else 0, l);
    KeptStepComplete(lines, tail, n, h, rest, r, want, entry);
  }

  /** A head line that does not end the chunk contributes a line of the
      window with its own time. */
  lemma HeadTaken(line: string, rolling: bool, start: int, end: int, h: seq<(int, string)>)
    requires !Ends(line, rolling, end) && h == Head(line, start)
    ensures |h| <= 1
    ensures forall k :: 0 <= k < |h| ==> h[k].1 == line && start <= h[k].0 && (!rolling ==> h[k].0 <= end)
    ensures forall k :: 0 <= k < |h| ==> LineTime(h[k].1) == Some(h[k].0)
    ensures Takes(line, start) ==> (LineTime(line).value, line) in h
  {
  }

  lemma KeptStepSound(h: seq<(int, string)>, rest: seq<(int, string)>, r: seq<(int, string)>,
                      rolling: bool, start: int, end: int)
    requires r == h + rest
    requires forall k :: 0 <= k < |h| ==> start <= h[k].0 && (!rolling ==> h[k].0 <= end)
    requires forall k :: 0 <= k < |h| ==> LineTime(h[k].1) == Some(h[k].0)
    requires forall k :: 0 <= k < |rest| ==> start <= rest[k].0 && (!rolling ==> rest[k].0 <= end)
    requires forall k :: 0 <= k < |rest| ==> LineTime(rest[k].1) == Some(rest[k].0)
    ensures forall k :: 0 <= k < |r| ==> start <= r[k].0 && (!rolling ==> r[k].0 <= end)
    ensures forall k :: 0 <= k < |r| ==> LineTime(r[k].1) == Some(r[k].0)
  {
    forall k | 0 <= k < |r|
      ensures start <= r[k].0 && (!rolling ==> r[k].0 <= end) && LineTime(r[k].1) == Some(r[k].0)
    {
      if k >= |h| {
        assert r[k] == rest[k - |h|];
      }
    }
  }

  lemma KeptStepFrom(seen: seq<string>, first: string, more: seq<string>,
                     h: seq<(int, string)>, rest: seq<(int, string)>, r: seq<(int, string)>)
    requires seen == [first] + more && r == h + rest
    requires forall k :: 0 <= k < |h| ==> h[k].1 == first
    requires forall k :: 0 <= k < |rest| ==> rest[k].1 in more
    ensures forall k :: 0 <= k < |r| ==> r[k].1 in seen
  {
    forall k | 0 <= k < |r|
      ensures r[k].1 in seen
    {
      if k >= |h| {
        assert r[k] == rest[k - |h|];
      }
    }
  }

  /** If every wanted element of the rest and a wanted head are collected,
      every wanted element of the whole is. */
  lemma KeptStepComplete<T, U>(lines: seq<T>, tail: seq<T>, n: nat, h: seq<U>, rest: seq<U>, r: seq<U>,
                               want: T -> bool, entry: T -> U)
    requires |lines| > 0 && tail == lines[1..] && n <= |tail| && r == h + rest
    requires want(lines[0]) ==> entry(lines[0]) in h
    requires forall k :: 0 <= k < n && want(tail[k]) ==> entry(tail[k]) in rest
    ensures forall k :: 0 <= k < 1 + n && want(lines[k]) ==> entry(lines[k]) in r
  {
    forall k | 0 <= k < 1 + n && want(lines[k])
      ensures entry(lines[k]) in r
    {
      if k > 0 {
        assert lines[k] == tail[k - 1];
      }
    }
  }

  /** What one line contributes when the loop looks at it. */
  function Head(line: string, start: int): (h: seq<(int, string)>)
    ensures h == if Takes(line, start) then [(LineTime(line).value, line)] else []
  {
    var t := LineTime(line);
    if t.Some? && t.value >= start then [(t.value, line)] else []
  }

  /** A first line that does not end the chunk is looked at, and the rest
      is cut as on its own. */
  lemma CutStep(lines: seq<string>, rolling: bool, end: int)
    requires |lines| > 0 && !Ends(lines[0], rolling, end)
    ensures var n := Cut(lines[1..], rolling, end);
      && Cut(lines, rolling, end) == 1 + n
      && lines[..1 + n] == [lines[0]] + lines[1..][..n]
  {
    var n := Cut(lines[1..], rolling, end);
    assert lines[..1 + n] == [lines[0]] + lines[1..][..n];
  }

  /** The loop goes through the chunk in order: the lines taken from a
      concatenation are those taken from the first part, followed by those
      taken from the second unless the first part ended the chunk. */
  lemma {:induction false} KeptAppend(a: seq<string>, b: seq<string>, rolling: bool, start: int, end: int)
    ensures Kept(a + b, rolling, start, end) ==
      if Cut(a, rolling, end) < |a| then Kept(a, rolling, start, end)
      else Kept(a, rolling, start, end) + Kept(b, rolling, start, end)
    decreases |a|
  {
    if |a| == 0 {
      assert a + b == b;
    } else {
      var ab := a + b;
      assert ab[0] == a[0] && ab[1..] == a[1..] + b;
      KeptUnfold(ab, rolling, start, end, a[1..] + b);
      KeptUnfold(a, rolling, start, end, a[1..]);
      CutUnfold(a, rolling, end, a[1..]);
      if !Ends(a[0], rolling, end) {
        KeptAppend(a[1..], b, rolling, start, end);
        PrependBoth(Head(a[0], start), Kept(a[1..], rolling, start, end), Kept(b, rolling, start, end),
                    Kept(a[1..] + b, rolling, start, end), Cut(a[1..], rolling, end) < |a[1..]|);
      }
    }
  }

  lemma KeptUnfold(lines: seq<string>, rolling: bool, start: int, end: int, rest: seq<string>)
    requires |lines| > 0 && rest == lines[1..]
    ensures Kept(lines, rolling, start, end) ==
      if Ends(lines[0], rolling, end) then [] else Head(lines[0], start) + Kept(rest, rolling, start, end)
  {
  }

  lemma CutUnfold(lines: seq<string>, rolling: bool, end: int, rest: seq<string>)
    requires |lines| > 0 && rest == lines[1..]
    ensures Cut(lines, rolling, end) < |lines| <==> Ends(lines[0], rolling, end) || Cut(rest, rolling, end) < |rest|
  {
  }

  /** `addDataToEvents`: appends to `events` one event per line of `data`
      the window keeps. */
  function AddDataToEvents(data: string, events: seq<Event>, rolling: bool, start: int, end: int, num: Numerics): (r: seq<Event>)
    ensures |r| >= |events| && r[..|events|] == events
    ensures forall k :: |events| <= k < |r| ==> start <= r[k].time && (!rolling ==> r[k].time <= end)
    ensures var kept := Kept(DataLines(data), rolling, start, end);
      && |r| == |events| + |kept|
      && forall k :: 0 <= k < |kept| ==> r[|events| + k] == LineEvent(kept[k].0, kept[k].1, Measured, num)
  {
    var kept := Kept(DataLines(data), rolling, start, end);
    var r := Ingest(events, kept, Measured, num);
    IngestBounds(events, kept, r, rolling, start, end);
    r
  }

  /** Samples made from lines within the window bounds lie within them. */
  lemma IngestBounds(events: seq<Event>, kept: seq<(int, string)>, r: seq<Event>, rolling: bool, start: int, end: int)
    requires forall k :: 0 <= k < |kept| ==> start <= kept[k].0 && (!rolling ==> kept[k].0 <= end)
    requires |r| == |events| + |kept| && forall k :: 0 <= k < |kept| ==> r[|events| + k].time == kept[k].0
    ensures forall k :: |events| <= k < |r| ==> start <= r[k].time && (!rolling ==> r[k].time <= end)
  {
    forall k | |events| <= k < |r|
      ensures start <= r[k].time && (!rolling ==> r[k].time <= end)
    {
      assert r[|events| + (k - |events|)].time == kept[k - |events|].0;
    }
  }

  /** Applies the kept lines in order. */
  function Ingest(events: seq<Event>, kept: seq<(int, string)>, labels: seq<string>, num: Numerics): (r: seq<Event>)
    ensures |r| == |events| + |kept| && r[..|events|] == events
    ensures forall k :: 0 <= k < |kept| ==> r[|events| + k].time == kept[k].0
    ensures forall k :: 0 <= k < |kept| ==> r[|events| + k] == LineEvent(kept[k].0, kept[k].1, labels, num)
  {
    if |kept| == 0 then events
    else
      var n := |kept| - 1;
      ApplyDataLine(Ingest(events, kept[..n], labels, num), kept[n].0, kept[n].1, labels, num)
  }

  /** Every kept line becomes exactly one event, at the line's time. */
  lemma OneEventPerLine(data: string, events: seq<Event>, rolling: bool, start: int, end: int, num: Numerics)
    ensures var kept := Kept(DataLines(data), rolling, start, end);
      var r := AddDataToEvents(data, events, rolling, start, end, num);
      && |r| == |events| + |kept|
      && forall k :: 0 <= k < |kept| ==> r[|events| + k].time == kept[k].0 && LineTime(kept[k].1) == Some(r[|events| + k].time)
  {
  }
}
