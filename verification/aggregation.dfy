/** The aggregation pass of `addEvents`: for every sample not yet
    aggregated, the three spans slide forward, and then for every visible
    band the sample's level is read, its energy is added to the three sums,
    its 10 s, 5 min and 1 h levels are written, and its threshold colour is
    merged into the band's intervals. Afterwards the samples before the new
    window start that no span still needs are discarded. */
module Aggregation {
  import opened Optional
  import opened Text
  import opened Samples
  import opened Classification
  import opened Spans

  /** A field of a sample; `None` for a missing one (`undefined`). */
  function Field(data: map<string, Option<real>>, k: string): (v: Option<real>)
    ensures k in data ==> v == data[k]
    ensures k !in data ==> v.None?
  {
    if k in data then data[k] else None
  }

  /** What the aggregation of one sample updates: the sample's fields, the
      sums of the three spans and the bands' intervals. */
  datatype Row = Row(data: map<string, Option<real>>, s10: map<string, real>, s5: map<string, real>,
                     s1: map<string, real>, intervals: map<string, seq<Interval>>)

  /** The three sums and the intervals are kept for the same bands. */
  predicate Keyed(r: Row) {
    r.s5.Keys == r.s10.Keys && r.s1.Keys == r.s10.Keys && r.intervals.Keys == r.s10.Keys
  }

  /** Merging one more sample at `ts` keeps intervals ordered and without
      equal neighbours, and the last one then ends at `ts`. */
  predicate Fits(list: seq<Interval>, ts: int) {
    Ordered(list) && NoAdjacentSame(list) && (|list| > 0 ==> list[|list| - 1].end < ts)
  }

  predicate EndsAt(list: seq<Interval>, ts: int) {
    Ordered(list) && NoAdjacentSame(list) && |list| > 0 && list[|list| - 1].end == ts
  }

  /** Band `b` is untouched from `r` to `r'`. */
  predicate Untouched(r: Row, r': Row, b: string)
    requires b in r.s10 && b in r'.s10 && Keyed(r) && Keyed(r')
  {
    r'.s10[b] == r.s10[b] && r'.s5[b] == r.s5[b] && r'.s1[b] == r.s1[b] && r'.intervals[b] == r.intervals[b]
  }

  /** Band `b` took sample `e` once from `r` to `r'`: its energy is in the
      three sums and the sample is merged into its intervals. */
  predicate Added(r: Row, r': Row, b: string, e: Event)
    requires b in r.s10 && b in r'.s10 && Keyed(r) && Keyed(r')
  {
    && r'.s10[b] == r.s10[b] + Energy(e, b)
    && r'.s5[b] == r.s5[b] + Energy(e, b)
    && r'.s1[b] == r.s1[b] + Energy(e, b)
    && (Fits(r.intervals[b], e.time) ==> EndsAt(r'.intervals[b], e.time))
  }

  lemma SuffixesDiffer(lbl: string)
    ensures lbl + "_5m" != lbl + "_1h"
  {
    assert (lbl + "_5m")[|lbl| + 1] == '5';
    assert (lbl + "_1h")[|lbl| + 1] == '1';
  }

  /** The colour of a band's sample from the 5 min and 1 h levels of the
      band named without its first three characters (the `Leq` prefix),
      against that band's threshold. */
  function ColorOf(data: map<string, Option<real>>, lbl: string, thresholds: map<string, real>): Color {
    var band := Substring(lbl, 3, |lbl|);
    GetColor(Threshold(thresholds, band), Field(data, "Leq" + band + "_5m"), Field(data, "Leq" + band + "_1h"))
  }

  /** A label with the `Leq` prefix is rebuilt from its band. */
  lemma LeqBand(lbl: string)
    requires StartsWith(lbl, "Leq")
    ensures "Leq" + Substring(lbl, 3, |lbl|) == lbl
  {
    assert lbl == lbl[..3] + lbl[3..];
  }

  /** The fields one band step writes: the level, and the levels over
      the three spans. */
  function Written(data: map<string, Option<real>>, lbl: string, level: Option<real>,
                   l10: Option<real>, l5: Option<real>, l1: Option<real>): (d: map<string, Option<real>>)
    ensures Field(d, lbl) == level && Field(d, lbl + "_10s") == l10
    ensures Field(d, lbl + "_5m") == l5 && Field(d, lbl + "_1h") == l1
  {
    SuffixesDiffer(lbl);
    assert |lbl + "_10s"| != |lbl + "_5m"| && |lbl + "_10s"| != |lbl + "_1h"|;
    assert |lbl + "_10s"| != |lbl| && |lbl + "_5m"| != |lbl| && |lbl + "_1h"| != |lbl|;
    data[lbl := level][lbl + "_10s" := l10][lbl + "_5m" := l5][lbl + "_1h" := l1]
  }

  /** The aggregation of one visible band `lbl` for sample `e`: the level
      is read; the sample's energy is added to the three sums; the fields
      `_10s`, `_5m` and `_1h` get the level of the mean energy of each span
      (10, 300 and 3600 one-second samples); and the sample, with its level
      and the colour of its new 5 min and 1 h levels, is merged into the
      band's intervals. */
  function BandStep(r: Row, lbl: string, e: Event, thresholds: map<string, real>, num: Numerics): (r': Row)
    requires Keyed(r) && lbl in r.s10
    ensures Keyed(r') && r'.s10.Keys == r.s10.Keys
  {
    var level := Field(r.data, lbl);
    var a, b, c := r.s10[lbl] + Energy(e, lbl), r.s5[lbl] + Energy(e, lbl), r.s1[lbl] + Energy(e, lbl);
    var data := Written(r.data, lbl, level, num.db(a / 10.0), num.db(b / 300.0), num.db(c / 3600.0));
    Row(data, r.s10[lbl := a], r.s5[lbl := b], r.s1[lbl := c],
        r.intervals[lbl := Merge(r.intervals[lbl], e.time, level, ColorOf(data, lbl, thresholds))])
  }

  /** A merge at a later time than the last interval's end keeps the list
      ordered without equal neighbours and makes it end at that time. */
  lemma MergeFits(list: seq<Interval>, ts: int, level: Option<real>, color: Color)
    requires Fits(list, ts)
    ensures EndsAt(Merge(list, ts, level, color), ts)
  {
  }

  /** What one band step writes: the level read stays, the 5 min and 1 h
      fields hold the levels of the mean energies of their spans, and the
      merged sample has the band's level and the colour of those levels. */
  lemma BandStepLevels(r: Row, lbl: string, e: Event, thresholds: map<string, real>, num: Numerics)
    requires Keyed(r) && lbl in r.s10
    ensures var r' := BandStep(r, lbl, e, thresholds, num);
      && Field(r'.data, lbl) == Field(r.data, lbl)
      && Field(r'.data, lbl + "_10s") == num.db(r'.s10[lbl] / 10.0)
      && Field(r'.data, lbl + "_5m") == num.db(r'.s5[lbl] / 300.0)
      && Field(r'.data, lbl + "_1h") == num.db(r'.s1[lbl] / 3600.0)
      && r'.intervals[lbl] == Merge(r.intervals[lbl], e.time, Field(r.data, lbl), ColorOf(r'.data, lbl, thresholds))
  {
  }

  /** One band step adds the sample to its band and to no other. */
  lemma BandStepAdded(r: Row, lbl: string, e: Event, thresholds: map<string, real>, num: Numerics)
    requires Keyed(r) && lbl in r.s10
    ensures var r' := BandStep(r, lbl, e, thresholds, num);
      && Added(r, r', lbl, e)
      && forall b :: b in r.s10 && b != lbl ==> Untouched(r, r', b)
  {
    var r' := BandStep(r, lbl, e, thresholds, num);
    if Fits(r.intervals[lbl], e.time) {
      MergeFits(r.intervals[lbl], e.time, Field(r.data, lbl), ColorOf(r'.data, lbl, thresholds));
    }
  }

  /** The aggregation of all visible bands, in order. The bands not listed
      are untouched, and with no band listed twice each listed band takes
      the sample once. */
  function BandsStep(r: Row, bands: seq<string>, e: Event, thresholds: map<string, real>, num: Numerics): (r': Row)
    requires Keyed(r) && forall b :: b in bands ==> b in r.s10
    ensures Keyed(r') && r'.s10.Keys == r.s10.Keys
    ensures forall b :: b in r.s10 && b !in bands ==> Untouched(r, r', b)
    ensures Distinct(bands) ==> forall b :: b in bands ==> Added(r, r', b, e)
    decreases |bands|
  {
    if |bands| == 0 then r
    else
      var r1 := BandStep(r, bands[0], e, thresholds, num);
      BandStepAdded(r, bands[0], e, thresholds, num);
      assert forall b :: b in bands[1..] ==> b in bands;
      var r' := BandsStep(r1, bands[1..], e, thresholds, num);
      BandsStepNext(r, bands, e, r1, r');
      r'
  }

  lemma BandsStepNext(r: Row, bands: seq<string>, e: Event, r1: Row, r': Row)
    requires |bands| > 0 && Keyed(r) && Keyed(r1) && Keyed(r') && r1.s10.Keys == r.s10.Keys && r'.s10.Keys == r.s10.Keys
    requires (forall b :: b in bands ==> b in r.s10) && Added(r, r1, bands[0], e)
    requires forall b :: b in r.s10 && b != bands[0] ==> Untouched(r, r1, b)
    requires forall b :: b in r1.s10 && b !in bands[1..] ==> Untouched(r1, r', b)
    requires Distinct(bands[1..]) ==> forall b :: b in bands[1..] ==> Added(r1, r', b, e)
    ensures forall b :: b in r.s10 && b !in bands ==> Untouched(r, r', b)
    ensures Distinct(bands) ==> forall b :: b in bands ==> Added(r, r', b, e)
  {
    var head, tail := bands[0], bands[1..];
    assert bands == [head] + tail;
    forall b | b in r.s10 && b !in bands
      ensures Untouched(r, r', b)
    {
      UntouchedTwice(r, r1, r', b);
    }
    if Distinct(bands) {
      DistinctTail(bands);
      AddedThenUntouched(r, r1, r', head, e);
      forall b | b in tail
        ensures Added(r, r', b, e)
      {
        UntouchedThenAdded(r, r1, r', b, e);
      }
    }
  }

  lemma UntouchedTwice(r: Row, r1: Row, r2: Row, b: string)
    requires Keyed(r) && Keyed(r1) && Keyed(r2) && b in r.s10 && b in r1.s10 && b in r2.s10
    requires Untouched(r, r1, b) && Untouched(r1, r2, b)
    ensures Untouched(r, r2, b)
  {
  }

  lemma AddedThenUntouched(r: Row, r1: Row, r2: Row, b: string, e: Event)
    requires Keyed(r) && Keyed(r1) && Keyed(r2) && b in r.s10 && b in r1.s10 && b in r2.s10
    requires Added(r, r1, b, e) && Untouched(r1, r2, b)
    ensures Added(r, r2, b, e)
  {
  }

  lemma UntouchedThenAdded(r: Row, r1: Row, r2: Row, b: string, e: Event)
    requires Keyed(r) && Keyed(r1) && Keyed(r2) && b in r.s10 && b in r1.s10 && b in r2.s10
    requires Untouched(r, r1, b) && Added(r1, r2, b, e)
    ensures Added(r, r2, b, e)
  {
  }

  /** The suffixes of the fields the aggregation writes for a band. */
  const Suffixes: seq<string> := ["", "_10s", "_5m", "_1h"]

  predicate EndsWith(s: string, suffix: string) {
    |suffix| <= |s| && s[|s| - |suffix|..] == suffix
  }

  /** A band name that does not itself end like a written field, so that
      the fields of different bands never share a name. */
  predicate Unsuffixed(b: string) {
    !EndsWith(b, "_10s") && !EndsWith(b, "_5m") && !EndsWith(b, "_1h")
  }

  /** Band names as the data labels have them: `Leq` and the band, without
      a written field's suffix. */
  predicate BandNames(bands: seq<string>) {
    forall b :: b in bands ==> StartsWith(b, "Leq") && Unsuffixed(b)
  }

  lemma EndsWithAppend(c: string, t: string)
    ensures EndsWith(c + t, t)
  {
    assert (c + t)[|c|..] == t;
  }

  lemma SameSuffix(b: string, c: string, s: string)
    requires b != c
    ensures b + s != c + s
  {
    if |b| == |c| {
      assert (b + s)[..|b|] == b && (c + s)[..|c|] == c;
    }
  }

  lemma LastChar(x: string, t: string)
    requires |t| > 0
    ensures (x + t)[|x + t| - 1] == t[|t| - 1]
  {
  }

  /** Different unsuffixed bands write different fields. */
  lemma NamesDiffer(b: string, c: string, s: string, t: string)
    requires b != c && Unsuffixed(b) && Unsuffixed(c) && s in Suffixes && t in Suffixes
    ensures b + s != c + t
  {
    if s == t {
      SameSuffix(b, c, s);
    } else if s == "" {
      EndsWithAppend(c, t);
      assert b + s == b;
    } else if t == "" {
      EndsWithAppend(b, s);
      assert c + t == c;
    } else {
      LastChar(b, s);
      LastChar(c, t);
    }
  }

  /** The fields `Written` leaves alone. */
  lemma WrittenOther(data: map<string, Option<real>>, lbl: string, level: Option<real>,
                     l10: Option<real>, l5: Option<real>, l1: Option<real>, k: string)
    requires k != lbl && k != lbl + "_10s" && k != lbl + "_5m" && k != lbl + "_1h"
    ensures Field(Written(data, lbl, level, l10, l5, l1), k) == Field(data, k)
  {
  }

  lemma FieldsApart(b: string, lbl: string, s: string)
    requires b != lbl && Unsuffixed(b) && Unsuffixed(lbl) && s in Suffixes
    ensures b + s != lbl && b + s != lbl + "_10s" && b + s != lbl + "_5m" && b + s != lbl + "_1h"
  {
    NamesDiffer(b, lbl, s, "");
    assert lbl + "" == lbl;
    NamesDiffer(b, lbl, s, "_10s");
    NamesDiffer(b, lbl, s, "_5m");
    NamesDiffer(b, lbl, s, "_1h");
  }

  /** A band step writes only the fields of its own band. */
  lemma BandStepKeeps(r: Row, lbl: string, e: Event, thresholds: map<string, real>, num: Numerics, b: string, s: string)
    requires Keyed(r) && lbl in r.s10 && b != lbl && Unsuffixed(b) && Unsuffixed(lbl) && s in Suffixes
    ensures Field(BandStep(r, lbl, e, thresholds, num).data, b + s) == Field(r.data, b + s)
  {
    FieldsApart(b, lbl, s);
    var level := Field(r.data, lbl);
    var a, b', c := r.s10[lbl] + Energy(e, lbl), r.s5[lbl] + Energy(e, lbl), r.s1[lbl] + Energy(e, lbl);
    WrittenOther(r.data, lbl, level, num.db(a / 10.0), num.db(b' / 300.0), num.db(c / 3600.0), b + s);
  }

  /** The bands' steps leave the fields of a band not among them alone. */
  lemma {:induction false} BandsStepKeeps(r: Row, bands: seq<string>, e: Event, thresholds: map<string, real>,
                                          num: Numerics, b: string, s: string)
    requires Keyed(r) && (forall c :: c in bands ==> c in r.s10) && BandNames(bands)
    requires b !in bands && Unsuffixed(b) && s in Suffixes
    ensures Field(BandsStep(r, bands, e, thresholds, num).data, b + s) == Field(r.data, b + s)
    decreases |bands|
  {
    if |bands| > 0 {
      var r1 := BandStep(r, bands[0], e, thresholds, num);
      BandStepKeeps(r, bands[0], e, thresholds, num, b, s);
      assert forall c :: c in bands[1..] ==> c in bands;
      BandsStepKeeps(r1, bands[1..], e, thresholds, num, b, s);
    }
  }

  /** What a band's fields show once its step is done: the levels of the
      three sums' mean energies, and a last interval of the colour of the
      5 min and 1 h levels. */
  predicate ShowsIn(data: map<string, Option<real>>, s10: map<string, real>, s5: map<string, real>, s1: map<string, real>,
                    intervals: map<string, seq<Interval>>, b: string, thresholds: map<string, real>, num: Numerics)
  {
    && b in s10 && b in s5 && b in s1 && b in intervals
    && Field(data, b + "_10s") == num.db(s10[b] / 10.0)
    && Field(data, b + "_5m") == num.db(s5[b] / 300.0)
    && Field(data, b + "_1h") == num.db(s1[b] / 3600.0)
    && |intervals[b]| > 0 && intervals[b][|intervals[b]| - 1].color == ColorOf(data, b, thresholds)
  }

  predicate Shows(r: Row, b: string, thresholds: map<string, real>, num: Numerics) {
    ShowsIn(r.data, r.s10, r.s5, r.s1, r.intervals, b, thresholds, num)
  }

  lemma ShowsKept(r: Row, r': Row, b: string, thresholds: map<string, real>, num: Numerics)
    requires StartsWith(b, "Leq") && Keyed(r) && Keyed(r') && b in r.s10 && b in r'.s10 && Shows(r, b, thresholds, num) && Untouched(r, r', b)
    requires Field(r'.data, b + "_10s") == Field(r.data, b + "_10s")
    requires Field(r'.data, b + "_5m") == Field(r.data, b + "_5m")
    requires Field(r'.data, b + "_1h") == Field(r.data, b + "_1h")
    ensures Shows(r', b, thresholds, num)
  {
    LeqBand(b);
  }

  /** A band shows its sums and colour right after its own step. */
  lemma BandStepShows(r: Row, lbl: string, e: Event, thresholds: map<string, real>, num: Numerics)
    requires Keyed(r) && lbl in r.s10
    ensures Shows(BandStep(r, lbl, e, thresholds, num), lbl, thresholds, num)
  {
    BandStepLevels(r, lbl, e, thresholds, num);
  }

  /** After the steps of distinct unsuffixed bands, every one of them shows
      its sums and colour. */
  lemma {:induction false} BandsStepShows(r: Row, bands: seq<string>, e: Event, thresholds: map<string, real>, num: Numerics)
    requires Keyed(r) && (forall c :: c in bands ==> c in r.s10) && BandNames(bands) && Distinct(bands)
    ensures var r' := BandsStep(r, bands, e, thresholds, num);
      forall b :: b in bands ==> Shows(r', b, thresholds, num)
    decreases |bands|
  {
    if |bands| > 0 {
      var b0, tail := bands[0], bands[1..];
      var r1 := BandStep(r, b0, e, thresholds, num);
      var r' := BandsStep(r, bands, e, thresholds, num);
      assert forall c :: c in tail ==> c in bands;
      assert r' == BandsStep(r1, tail, e, thresholds, num);
      DistinctTail(bands);
      BandsStepShows(r1, tail, e, thresholds, num);
      BandStepShows(r, b0, e, thresholds, num);
      assert b0 in r1.s10 && b0 !in tail;
      assert Untouched(r1, r', b0);
      BandsStepKeeps(r1, tail, e, thresholds, num, b0, "_10s");
      BandsStepKeeps(r1, tail, e, thresholds, num, b0, "_5m");
      BandsStepKeeps(r1, tail, e, thresholds, num, b0, "_1h");
      ShowsKept(r1, r', b0, thresholds, num);
    }
  }

  /** The state of the aggregation loop: the samples, the index of the next
      sample to aggregate, the three spans and the bands' intervals. */
  datatype Agg = Agg(events: seq<Event>, next: nat, t10: Track, t5: Track, t1: Track,
                     intervals: map<string, seq<Interval>>)

  /** A span's oldest sample is one already aggregated (index 0 before any is). */
  predicate Cursor(t: Track, n: nat) {
    (n == 0 ==> t.idx == 0) && (n > 0 ==> t.idx < n)
  }

  /** The shape the loop needs: the next index within the samples, the span
      indices behind it, and sums and intervals kept for the bands `keys`. */
  predicate Shaped(a: Agg, keys: set<string>) {
    && a.next <= |a.events|
    && Cursor(a.t10, a.next) && Cursor(a.t5, a.next) && Cursor(a.t1, a.next)
    && a.t10.sums.Keys == keys && a.t5.sums.Keys == keys && a.t1.sums.Keys == keys
    && a.intervals.Keys == keys
  }

  /** A band's intervals are ordered, without equal neighbours, and end no
      later than the last of the first `n` samples. */
  predicate IntervalsOk(list: seq<Interval>, es: seq<Event>, n: nat)
    requires n <= |es|
  {
    Ordered(list) && NoAdjacentSame(list) && (|list| > 0 ==> n > 0 && list[|list| - 1].end <= es[n - 1].time)
  }

  /** The loop invariant: samples in time order, and the spans and the
      intervals right for the samples aggregated so far. */
  predicate Right(a: Agg)
    requires a.next <= |a.events|
  {
    && Increasing(a.events)
    && TrackOk(a.events, a.next, a.t10, Span10s)
    && TrackOk(a.events, a.next, a.t5, Span5m)
    && TrackOk(a.events, a.next, a.t1, Span1h)
    && forall b :: b in a.intervals ==> IntervalsOk(a.intervals[b], a.events, a.next)
  }

  /** The sums of all spans after the slides for the sample at `a.next`, and
      the row the bands are aggregated on. */
  function SlidRow(a: Agg, e: Event): (r: Row)
    requires a.next < |a.events| && a.t10.idx <= a.next && a.t5.idx <= a.next && a.t1.idx <= a.next
  {
    Row(e.data, Slide(a.events, a.t10.idx, a.next, Span10s, a.t10.sums).1,
        Slide(a.events, a.t5.idx, a.next, Span5m, a.t5.sums).1,
        Slide(a.events, a.t1.idx, a.next, Span1h, a.t1.sums).1, a.intervals)
  }

  /** The aggregation of the sample at `a.next`: the three spans slide
      forward, all visible bands are aggregated, and the sample takes its
      new fields. */
  function AggregateOne(a: Agg, visible: seq<string>, thresholds: map<string, real>, num: Numerics): (r: Agg)
    requires Shaped(a, KeySet(visible)) && a.next < |a.events|
    ensures Shaped(r, KeySet(visible)) && r.next == a.next + 1 && |r.events| == |a.events|
    ensures forall k :: 0 <= k < |a.events| && k != a.next ==> r.events[k] == a.events[k]
    ensures r.events[a.next] == a.events[a.next].(data := r.events[a.next].data)
  {
    var pos := a.next;
    var e := a.events[pos];
    var row := BandsStep(SlidRow(a, e), visible, e, thresholds, num);
    Agg(a.events[pos := e.(data := row.data)], pos + 1,
        Track(Slide(a.events, a.t10.idx, pos, Span10s, a.t10.sums).0, row.s10),
        Track(Slide(a.events, a.t5.idx, pos, Span5m, a.t5.sums).0, row.s5),
        Track(Slide(a.events, a.t1.idx, pos, Span1h, a.t1.sums).0, row.s1),
        row.intervals)
  }

  /** Each visible band took the sample once: its energy is in the sums
      and the sample is merged into its intervals. */
  lemma AggregateOneAdded(a: Agg, visible: seq<string>, thresholds: map<string, real>, num: Numerics)
    requires Shaped(a, KeySet(visible)) && a.next < |a.events| && Distinct(visible)
    ensures var e := a.events[a.next];
      var row0 := SlidRow(a, e);
      var row := BandsStep(row0, visible, e, thresholds, num);
      Keyed(row0) && Keyed(row) && row.s10.Keys == row0.s10.Keys == KeySet(visible)
      && forall b :: b in row0.s10 ==> Added(row0, row, b, e)
  {
  }

  /** The sums of each visible band grew by the sample's energy. */
  lemma AggregateOneSums(a: Agg, visible: seq<string>, thresholds: map<string, real>, num: Numerics)
    requires Shaped(a, KeySet(visible)) && a.next < |a.events| && Distinct(visible)
    ensures var e := a.events[a.next];
      var row0 := SlidRow(a, e);
      var row := BandsStep(row0, visible, e, thresholds, num);
      && row.s10.Keys == row0.s10.Keys && row.s5.Keys == row0.s5.Keys && row.s1.Keys == row0.s1.Keys
      && (forall b :: b in row.s10 ==> row.s10[b] == row0.s10[b] + Energy(e, b))
      && (forall b :: b in row.s5 ==> row.s5[b] == row0.s5[b] + Energy(e, b))
      && (forall b :: b in row.s1 ==> row.s1[b] == row0.s1[b] + Energy(e, b))
  {
    AggregateOneAdded(a, visible, thresholds, num);
  }

  /** The span `t'` is the span `t` slid for the sample at `pos`, with that
      sample's energies added to the slid sums. */
  predicate Stepped(es: seq<Event>, pos: nat, t: Track, t': Track, span: nat)
    requires t.idx <= pos < |es|
  {
    var s := Slide(es, t.idx, pos, span, t.sums);
    && t'.idx == s.0 && t'.sums.Keys == t.sums.Keys
    && forall b :: b in t'.sums ==> t'.sums[b] == s.1[b] + Energy(es[pos], b)
  }

  /** The three spans after one aggregation are the slid spans with the
      sample's energies added. */
  lemma AggregateOneStepped(a: Agg, visible: seq<string>, thresholds: map<string, real>, num: Numerics)
    requires Shaped(a, KeySet(visible)) && a.next < |a.events| && Distinct(visible)
    ensures var r := AggregateOne(a, visible, thresholds, num);
      && Stepped(a.events, a.next, a.t10, r.t10, Span10s)
      && Stepped(a.events, a.next, a.t5, r.t5, Span5m)
      && Stepped(a.events, a.next, a.t1, r.t1, Span1h)
  {
    AggregateOneSums(a, visible, thresholds, num);
  }

  /** Aggregating one more sample keeps the spans right. */
  lemma AggregateOneTracks(a: Agg, visible: seq<string>, thresholds: map<string, real>, num: Numerics)
    requires Shaped(a, KeySet(visible)) && a.next < |a.events| && Distinct(visible) && Right(a)
    ensures var r := AggregateOne(a, visible, thresholds, num);
      && Increasing(r.events)
      && TrackOk(r.events, r.next, r.t10, Span10s)
      && TrackOk(r.events, r.next, r.t5, Span5m)
      && TrackOk(r.events, r.next, r.t1, Span1h)
  {
    var r := AggregateOne(a, visible, thresholds, num);
    AggregateOneStepped(a, visible, thresholds, num);
    SameTimes(a, r);
    IncreasingSameClock(a.events, r.events);
    StepOk(a, r);
  }

  lemma IncreasingSameClock(es: seq<Event>, fs: seq<Event>)
    requires Increasing(es) && SameClock(es, fs)
    ensures Increasing(fs)
  {
  }

  /** Two sample lists with the same times and energies, index by index. */
  predicate SameClock(es: seq<Event>, fs: seq<Event>) {
    |fs| == |es| && forall k :: 0 <= k < |es| ==> fs[k].time == es[k].time && fs[k].ee == es[k].ee
  }

  lemma SameClockTrans(es: seq<Event>, fs: seq<Event>, gs: seq<Event>)
    requires SameClock(es, fs) && SameClock(fs, gs)
    ensures SameClock(es, gs)
  {
  }

  lemma SameTimes(a: Agg, r: Agg)
    requires |r.events| == |a.events| && a.next < |a.events|
    requires forall k :: 0 <= k < |a.events| && k != a.next ==> r.events[k] == a.events[k]
    requires r.events[a.next] == a.events[a.next].(data := r.events[a.next].data)
    ensures SameClock(a.events, r.events)
  {
  }

  /** Spans stepped for the sample at `a.next` are right for one more
      sample, over samples with the same times and energies. */
  lemma StepOk(a: Agg, r: Agg)
    requires a.next < |a.events| && SameClock(a.events, r.events) && r.next == a.next + 1
    requires Increasing(a.events) && TrackOk(a.events, a.next, a.t10, Span10s)
    requires TrackOk(a.events, a.next, a.t5, Span5m) && TrackOk(a.events, a.next, a.t1, Span1h)
    requires Stepped(a.events, a.next, a.t10, r.t10, Span10s)
    requires Stepped(a.events, a.next, a.t5, r.t5, Span5m)
    requires Stepped(a.events, a.next, a.t1, r.t1, Span1h)
    ensures TrackOk(r.events, r.next, r.t10, Span10s)
    ensures TrackOk(r.events, r.next, r.t5, Span5m)
    ensures TrackOk(r.events, r.next, r.t1, Span1h)
  {
    TrackAfter(a.events, r.events, a.next, r.next, a.t10, r.t10, Span10s);
    TrackAfter(a.events, r.events, a.next, r.next, a.t5, r.t5, Span5m);
    TrackAfter(a.events, r.events, a.next, r.next, a.t1, r.t1, Span1h);
  }

  /** A span after the slide for the sample at `pos` and the addition of
      that sample's energies, carried over to the samples with the updated
      fields. */
  lemma TrackAfter(es: seq<Event>, fs: seq<Event>, pos: nat, n: nat, t: Track, t': Track, span: nat)
    requires Increasing(es) && pos < |es| && n == pos + 1 && TrackOk(es, pos, t, span) && SameClock(es, fs)
    requires Stepped(es, pos, t, t', span)
    ensures TrackOk(fs, n, t', span)
  {
    TrackStep(es, pos, t, span, t'.sums);
    TrackRebase(es, fs, n, t', span);
  }

  /** Aggregating one more sample keeps the intervals right. */
  lemma AggregateOneIntervals(a: Agg, visible: seq<string>, thresholds: map<string, real>, num: Numerics)
    requires Shaped(a, KeySet(visible)) && a.next < |a.events| && Distinct(visible) && Right(a)
    ensures var r := AggregateOne(a, visible, thresholds, num);
      forall b :: b in r.intervals ==> IntervalsOk(r.intervals[b], r.events, r.next)
  {
    var pos, e := a.next, a.events[a.next];
    var row0 := SlidRow(a, e);
    var row := BandsStep(row0, visible, e, thresholds, num);
    var r := AggregateOne(a, visible, thresholds, num);
    AggregateOneAdded(a, visible, thresholds, num);
    assert r.events[pos].time == e.time;
    forall b | b in r.intervals
      ensures IntervalsOk(r.intervals[b], r.events, r.next)
    {
      var list := a.intervals[b];
      if |list| > 0 {
        assert a.events[pos - 1].time < e.time;
      }
      assert Fits(list, e.time);
    }
  }

  /** Aggregating one more sample keeps the loop invariant. */
  lemma AggregateOneRight(a: Agg, visible: seq<string>, thresholds: map<string, real>, num: Numerics)
    requires Shaped(a, KeySet(visible)) && a.next < |a.events| && Distinct(visible) && Right(a)
    ensures Right(AggregateOne(a, visible, thresholds, num))
  {
    AggregateOneTracks(a, visible, thresholds, num);
    AggregateOneIntervals(a, visible, thresholds, num);
  }

  /** The sample's new fields, the spans' sums and the intervals after one
      aggregation are those of the row the bands were aggregated on. */
  lemma AggregateOneRow(a: Agg, visible: seq<string>, thresholds: map<string, real>, num: Numerics)
    requires Shaped(a, KeySet(visible)) && a.next < |a.events|
    ensures var r := AggregateOne(a, visible, thresholds, num);
      var e := a.events[a.next];
      var row := BandsStep(SlidRow(a, e), visible, e, thresholds, num);
      && r.events[a.next].data == row.data && r.intervals == row.intervals
      && r.t10.sums == row.s10 && r.t5.sums == row.s5 && r.t1.sums == row.s1
  {
  }

  /** After its aggregation a sample shows, for each visible band, the
      levels of the mean energies of the three spans, and the band's last
      interval has the colour of the new 5 min and 1 h levels. */
  lemma AggregateOneLevels(a: Agg, visible: seq<string>, thresholds: map<string, real>, num: Numerics)
    requires Shaped(a, KeySet(visible)) && a.next < |a.events| && Distinct(visible) && BandNames(visible)
    ensures var r := AggregateOne(a, visible, thresholds, num);
      forall b :: b in visible ==>
        ShowsIn(r.events[a.next].data, r.t10.sums, r.t5.sums, r.t1.sums, r.intervals, b, thresholds, num)
  {
    var e := a.events[a.next];
    BandsStepShows(SlidRow(a, e), visible, e, thresholds, num);
    AggregateOneRow(a, visible, thresholds, num);
  }

  /** The levels a sample shows are those of the energy sums over the
      samples of the last 10 s, 5 min and 1 h up to and including it: each
      span starts at the first sample within its length of this one. */
  lemma AggregateOneMeans(a: Agg, visible: seq<string>, thresholds: map<string, real>, num: Numerics)
    requires Shaped(a, KeySet(visible)) && a.next < |a.events| && Distinct(visible) && BandNames(visible)
    requires Right(a)
    ensures var r := AggregateOne(a, visible, thresholds, num);
      && TrackOk(r.events, r.next, r.t10, Span10s)
      && TrackOk(r.events, r.next, r.t5, Span5m)
      && TrackOk(r.events, r.next, r.t1, Span1h)
      && forall b :: b in visible ==> MeanLevels(r.events, r.next, r.t10, r.t5, r.t1, b, num)
  {
    var r := AggregateOne(a, visible, thresholds, num);
    AggregateOneLevels(a, visible, thresholds, num);
    AggregateOneTracks(a, visible, thresholds, num);
    MeansOf(r.events, r.next, r.t10, r.t5, r.t1, r.intervals, visible, thresholds, num);
  }

  /** The last of the first `n` samples shows for band `b` the levels of
      the mean energies of the three spans ending at it. */
  predicate MeanLevels(es: seq<Event>, n: nat, t10: Track, t5: Track, t1: Track, b: string, num: Numerics)
    requires 0 < n <= |es| && t10.idx <= n && t5.idx <= n && t1.idx <= n
  {
    var d := es[n - 1].data;
    && Field(d, b + "_10s") == num.db(Sum(es, t10.idx, n, b) / 10.0)
    && Field(d, b + "_5m") == num.db(Sum(es, t5.idx, n, b) / 300.0)
    && Field(d, b + "_1h") == num.db(Sum(es, t1.idx, n, b) / 3600.0)
  }

  lemma MeansOf(es: seq<Event>, n: nat, t10: Track, t5: Track, t1: Track, intervals: map<string, seq<Interval>>,
                visible: seq<string>, thresholds: map<string, real>, num: Numerics)
    requires 0 < n <= |es|
    requires TrackOk(es, n, t10, Span10s) && TrackOk(es, n, t5, Span5m) && TrackOk(es, n, t1, Span1h)
    requires forall b :: b in visible ==> ShowsIn(es[n - 1].data, t10.sums, t5.sums, t1.sums, intervals, b, thresholds, num)
    ensures forall b :: b in visible ==> MeanLevels(es, n, t10, t5, t1, b, num)
  {
  }

  /** The aggregation loop: every sample from `a.next` on is aggregated, in
      order. Samples already aggregated are left as they are. */
  function AggregateAll(a: Agg, visible: seq<string>, thresholds: map<string, real>, num: Numerics): (r: Agg)
    requires Shaped(a, KeySet(visible))
    ensures Shaped(r, KeySet(visible)) && r.next == |r.events| == |a.events|
    ensures forall k :: 0 <= k < a.next ==> r.events[k] == a.events[k]
    decreases |a.events| - a.next
  {
    if a.next >= |a.events| then a
    else AggregateAll(AggregateOne(a, visible, thresholds, num), visible, thresholds, num)
  }

  /** The loop changes no sample's time or energies. */
  lemma {:induction false} AggregateAllTimes(a: Agg, visible: seq<string>, thresholds: map<string, real>, num: Numerics)
    requires Shaped(a, KeySet(visible))
    ensures SameClock(a.events, AggregateAll(a, visible, thresholds, num).events)
    decreases |a.events| - a.next
  {
    if a.next < |a.events| {
      var r1 := AggregateOne(a, visible, thresholds, num);
      SameTimes(a, r1);
      AggregateAllTimes(r1, visible, thresholds, num);
      SameClockTrans(a.events, r1.events, AggregateAll(a, visible, thresholds, num).events);
    }
  }

  /** The loop keeps its invariant through all samples. */
  lemma {:induction false} AggregateAllRight(a: Agg, visible: seq<string>, thresholds: map<string, real>, num: Numerics)
    requires Shaped(a, KeySet(visible)) && Distinct(visible) && Right(a)
    ensures Right(AggregateAll(a, visible, thresholds, num))
    decreases |a.events| - a.next
  {
    if a.next < |a.events| {
      AggregateOneRight(a, visible, thresholds, num);
      AggregateAllRight(AggregateOne(a, visible, thresholds, num), visible, thresholds, num);
    }
  }

  /** The discard scan from index `i`: it stops at the first sample that is
      not before the window start `start` or that is the oldest sample of
      one of the spans, or after the last sample. */
  function DiscardStop(es: seq<Event>, i: nat, start: int, c10: nat, c5: nat, c1: nat): (r: nat)
    requires i <= |es|
    ensures i <= r <= |es|
    ensures forall k :: i <= k < r ==> es[k].time < start
    ensures (i <= c10 ==> r <= c10) && (i <= c5 ==> r <= c5) && (i <= c1 ==> r <= c1)
    ensures r < |es| ==> es[r].time >= start || r == c10 || r == c5 || r == c1
    decreases |es| - i
  {
    if i == |es| || es[i].time >= start || i == c10 || i == c5 || i == c1 then i
    else DiscardStop(es, i + 1, start, c10, c5, c1)
  }

  /** The number of samples discarded: one less than where the scan stops,
      so one sample before the window that no span needs is kept. A scan
      that runs past the last sample throws when it logs the sample it
      stopped at; the error is caught and nothing is discarded. */
  function DiscardCount(a: Agg, start: int): (d: nat)
    ensures d <= |a.events|
    ensures forall k :: 0 <= k < d ==> a.events[k].time < start
    ensures d > 0 ==> d < |a.events| && a.events[d].time < start && d != a.t10.idx && d != a.t5.idx && d != a.t1.idx
    ensures a.t10.idx < |a.events| ==> d <= a.t10.idx
    ensures a.t5.idx < |a.events| ==> d <= a.t5.idx
    ensures a.t1.idx < |a.events| ==> d <= a.t1.idx
    ensures var i := DiscardStop(a.events, 0, start, a.t10.idx, a.t5.idx, a.t1.idx);
      d == if i == 0 || i == |a.events| then 0 else i - 1
  {
    var i := DiscardStop(a.events, 0, start, a.t10.idx, a.t5.idx, a.t1.idx);
    if i == |a.events| then 0
    else if i == 0 then 0
    else i - 1
  }

  /** After aggregation, the samples before the window start that no span
      needs any more, `DiscardCount` of them, are dropped at the front, and
      all indices move back by that count. */
  function Compact(a: Agg, start: int): (r: Agg)
    requires a.next == |a.events| && Cursor(a.t10, a.next) && Cursor(a.t5, a.next) && Cursor(a.t1, a.next)
    ensures r.next == |r.events| <= |a.events| && r.events == a.events[|a.events| - |r.events|..]
    ensures |a.events| > 0 ==> |r.events| > 0
    ensures forall k :: 0 <= k < |a.events| - |r.events| ==> a.events[k].time < start
    ensures Cursor(r.t10, r.next) && Cursor(r.t5, r.next) && Cursor(r.t1, r.next)
    ensures r.t10.sums == a.t10.sums && r.t5.sums == a.t5.sums && r.t1.sums == a.t1.sums
    ensures r.intervals == a.intervals
    ensures var d := DiscardCount(a, start);
      && r.events == a.events[d..] && r.next == a.next - d
      && r.t10.idx == a.t10.idx - d && r.t5.idx == a.t5.idx - d && r.t1.idx == a.t1.idx - d
  {
    Shift(a, DiscardCount(a, start))
  }

  /** The state with the first `d` samples dropped and every index moved
      back by `d`. */
  function Shift(a: Agg, d: nat): Agg
    requires d <= |a.events| && d <= a.next && d <= a.t10.idx && d <= a.t5.idx && d <= a.t1.idx
  {
    Agg(a.events[d..], a.next - d, Track(a.t10.idx - d, a.t10.sums), Track(a.t5.idx - d, a.t5.sums),
        Track(a.t1.idx - d, a.t1.sums), a.intervals)
  }

  /** Compaction keeps the invariant: the dropped samples are in no span,
      and the intervals still end no later than the last sample. */
  lemma CompactRight(a: Agg, start: int)
    requires a.next == |a.events| && Cursor(a.t10, a.next) && Cursor(a.t5, a.next) && Cursor(a.t1, a.next)
    requires Right(a)
    ensures Right(Compact(a, start))
  {
    ShiftRight(a, DiscardCount(a, start));
  }

  /** Dropping `d` samples that are in no span keeps the invariant. */
  lemma ShiftRight(a: Agg, d: nat)
    requires a.next == |a.events| && Right(a)
    requires d <= |a.events| && d <= a.t10.idx && d <= a.t5.idx && d <= a.t1.idx
    ensures Right(Shift(a, d))
  {
    var r := Shift(a, d);
    IncreasingSuffix(a.events, d, r.events);
    TrackShift(a.events, d, a.t10, Span10s, r.events, r.next, r.t10);
    TrackShift(a.events, d, a.t5, Span5m, r.events, r.next, r.t5);
    TrackShift(a.events, d, a.t1, Span1h, r.events, r.next, r.t1);
    ShiftIntervals(a.intervals, a.events, d, r.intervals, r.events, r.next);
  }

  lemma IncreasingSuffix(es: seq<Event>, d: nat, fs: seq<Event>)
    requires Increasing(es) && d <= |es| && fs == es[d..]
    ensures Increasing(fs)
  {
    forall i, j | 0 <= i < j < |es| - d
      ensures es[d..][i].time < es[d..][j].time
    {
      assert es[d..][i] == es[i + d] && es[d..][j] == es[j + d];
    }
  }

  lemma ShiftIntervals(intervals: map<string, seq<Interval>>, es: seq<Event>, d: nat,
                       shifted: map<string, seq<Interval>>, fs: seq<Event>, n: nat)
    requires d <= |es| && forall b :: b in intervals ==> IntervalsOk(intervals[b], es, |es|)
    requires |es| > 0 ==> d < |es|
    requires shifted == intervals && fs == es[d..] && n == |es| - d
    ensures forall b :: b in shifted ==> IntervalsOk(shifted[b], fs, n)
  {
    if |es| > 0 {
      assert es[d..][|es| - d - 1] == es[|es| - 1];
    }
  }

  /** After the loop the newest sample shows, for each visible band, the
      levels of the mean energies of the spans ending at it. */
  lemma {:induction false} AggregateAllMeans(a: Agg, visible: seq<string>, thresholds: map<string, real>, num: Numerics)
    requires Shaped(a, KeySet(visible)) && a.next < |a.events| && Distinct(visible) && BandNames(visible) && Right(a)
    ensures var r := AggregateAll(a, visible, thresholds, num);
      forall b :: b in visible ==> MeanLevels(r.events, r.next, r.t10, r.t5, r.t1, b, num)
    decreases |a.events| - a.next
  {
    var r1 := AggregateOne(a, visible, thresholds, num);
    if r1.next == |r1.events| {
      AggregateOneMeans(a, visible, thresholds, num);
      assert AggregateAll(a, visible, thresholds, num) == r1;
    } else {
      AggregateOneRight(a, visible, thresholds, num);
      AggregateAllMeans(r1, visible, thresholds, num);
    }
  }

  /** Compaction keeps what the newest sample shows true of the moved
      spans: the dropped samples are in none of them. */
  lemma CompactMeans(a: Agg, start: int, b: string, num: Numerics)
    requires 0 < a.next == |a.events| && Cursor(a.t10, a.next) && Cursor(a.t5, a.next) && Cursor(a.t1, a.next)
    requires MeanLevels(a.events, a.next, a.t10, a.t5, a.t1, b, num)
    ensures var c := Compact(a, start);
      0 < c.next && MeanLevels(c.events, c.next, c.t10, c.t5, c.t1, b, num)
  {
    var c := Compact(a, start);
    MeansShift(a.events, DiscardCount(a, start), a.t10, a.t5, a.t1, c.events, c.next, c.t10, c.t5, c.t1, b, num);
  }

  /** Dropping `d` samples at the front, none of them in a span, moves the
      spans back by `d` and keeps what the newest sample shows of them. */
  lemma MeansShift(es: seq<Event>, d: nat, t10: Track, t5: Track, t1: Track,
                   fs: seq<Event>, n: nat, u10: Track, u5: Track, u1: Track, b: string, num: Numerics)
    requires 0 < |es| && d <= t10.idx <= |es| && d <= t5.idx <= |es| && d <= t1.idx <= |es| && d < |es|
    requires fs == es[d..] && n == |es| - d
    requires u10 == Track(t10.idx - d, t10.sums) && u5 == Track(t5.idx - d, t5.sums) && u1 == Track(t1.idx - d, t1.sums)
    requires MeanLevels(es, |es|, t10, t5, t1, b, num)
    ensures 0 < n && MeanLevels(fs, n, u10, u5, u1, b, num)
  {
    var m := |es|;
    SumShift(es, d, t10.idx, m, b);
    SumShift(es, d, t5.idx, m, b);
    SumShift(es, d, t1.idx, m, b);
    assert fs[n - 1] == es[m - 1];
  }
}
