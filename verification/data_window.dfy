/** The data window (`NMDataWindow`): a rolling window that ends now or a
    fixed one from a given start, of a given length in seconds, holding the
    samples in it with their aggregated levels, the threshold intervals of
    the visible bands and the per-field minimum and maximum. `addEvents`
    appends new samples, aggregates them, moves the window, drops what
    fell out of it and recomputes the extremes. */
module DataWindow {
  import opened Optional
  import opened Text
  import Calendar
  import opened Samples
  import opened Classification
  import opened Spans
  import opened Aggregation
  import opened Extremes

  datatype Status = Initializing | Loaded

  /** The state of a window. `length` is in seconds, `start` and `end` in
      milliseconds; `agg` holds the samples, the index of the next one to
      aggregate, the three spans and the bands' intervals. */
  datatype Window = Window(rolling: bool, length: int, visible: seq<string>, aggregatePast: bool,
                           thresholds: map<string, real>, start: int, end: int, status: Status,
                           agg: Agg, min: map<string, Option<real>>, max: map<string, Option<real>>)

  /** No samples, no sums and no intervals. */
  const Empty: Agg := Agg([], 0, Track(0, map[]), Track(0, map[]), Track(0, map[]), map[])

  /** A new window. Without a start time it is rolling and ends at `now`;
      with one it is fixed and starts there. */
  function NewWindow(startTime: Option<int>, length: int, thresholds: map<string, real>, visible: seq<string>,
                     aggregatePast: bool, now: int): (w: Window)
    ensures w.rolling <==> startTime.None?
    ensures w.end - w.start == length * 1000
    ensures startTime.Some? ==> w.start == startTime.value
    ensures startTime.None? ==> w.end == now
    ensures w.status == Initializing && w.agg == Empty && w.min == map[] && w.max == map[]
  {
    var start := if startTime.Some? then startTime.value else now - length * 1000;
    Window(startTime.None?, length, visible, aggregatePast, thresholds, start, start + length * 1000,
           Initializing, Empty, map[], map[])
  }

  /** Two states of the same window: what it was created with is kept. */
  predicate SameConfig(w: Window, w': Window) {
    && w'.rolling == w.rolling && w'.length == w.length && w'.visible == w.visible
    && w'.aggregatePast == w.aggregatePast && w'.thresholds == w.thresholds
  }

  /** The aggregation state is either untouched, or kept for the visible
      bands with every sample aggregated. */
  predicate Wf(w: Window) {
    w.agg == Empty || (Shaped(w.agg, KeySet(w.visible)) && w.agg.next == |w.agg.events|)
  }

  /** The window invariant: no visible band listed twice, samples in time
      order with the spans and intervals right for them, and the window as
      long as configured. */
  predicate Valid(w: Window) {
    && Distinct(w.visible) && Wf(w) && Right(w.agg)
    && w.end - w.start == w.length * 1000
  }

  lemma NewWindowValid(startTime: Option<int>, length: int, thresholds: map<string, real>, visible: seq<string>,
                       aggregatePast: bool, now: int)
    requires Distinct(visible)
    ensures Valid(NewWindow(startTime, length, thresholds, visible, aggregatePast, now))
  {
  }

  function Zeros(visible: seq<string>): (m: map<string, real>)
    ensures m.Keys == KeySet(visible) && forall b :: b in m ==> m[b] == 0.0
  {
    map b | b in visible :: 0.0
  }

  function NoIntervals(visible: seq<string>): (m: map<string, seq<Interval>>)
    ensures m.Keys == KeySet(visible) && forall b :: b in m ==> m[b] == []
  {
    map b | b in visible :: []
  }

  /** The first aggregation sets up the sums of the visible bands at zero
      and gives each an empty interval list; that is, when the 5 min sums
      are still empty. */
  function Init(w: Window): (r: Window)
    requires Wf(w)
    ensures SameConfig(w, r) && r.start == w.start && r.end == w.end && r.status == w.status
    ensures r.min == w.min && r.max == w.max
    ensures r.agg.events == w.agg.events && r.agg.next == w.agg.next
    ensures r.agg.t10.idx == w.agg.t10.idx && r.agg.t5.idx == w.agg.t5.idx && r.agg.t1.idx == w.agg.t1.idx
    ensures Shaped(r.agg, KeySet(w.visible)) && r.agg.next == |r.agg.events|
  {
    if |w.agg.t5.sums| == 0 then
      var a := w.agg;
      var z := Zeros(w.visible);
      w.(agg := a.(t10 := Track(a.t10.idx, a.t10.sums + z), t5 := Track(a.t5.idx, a.t5.sums + z),
                   t1 := Track(a.t1.idx, a.t1.sums + z), intervals := a.intervals + NoIntervals(w.visible)))
    else w
  }

  /** The set-up keeps the invariant: sums of zero are right for no
      samples, and so are empty interval lists. */
  lemma InitRight(w: Window)
    requires Wf(w) && Right(w.agg)
    ensures Right(Init(w).agg)
  {
    if |w.agg.t5.sums| == 0 && w.agg != Empty {
      assert KeySet(w.visible) == {};
      assert Zeros(w.visible) == map[] && NoIntervals(w.visible) == map[];
      assert Init(w).agg == w.agg;
    }
  }

  /** The new end of the window: the second after the newest sample's, or
      `now` for a rolling window whose newest sample is more than a second
      older than that. */
  function NewEnd(newest: int, rolling: bool, now: int): (e: int)
    ensures newest < e
    ensures e <= newest + 1000 || (rolling && e == now)
    ensures e == now || e % 1000 == 0
  {
    var e := (newest / 1000) * 1000 + 1000;
    if rolling && e + 1000 < now then now else e
  }

  /** The new end is fixed by the whole second `s` just after the newest
      sample: it is `s` itself, unless the window is rolling and `s` is
      more than a second before `now`, when it is `now`. */
  lemma NewEndAt(newest: int, rolling: bool, now: int, s: int)
    requires s % 1000 == 0 && s - 1000 <= newest < s
    ensures NewEnd(newest, rolling, now) == if rolling && s + 1000 < now then now else s
  {
    var q := newest / 1000;
    assert s == (s / 1000) * 1000;
    assert q * 1000 <= newest < q * 1000 + 1000;
    WholeSecondAfter(q, s / 1000, newest);
  }

  /** Two multiples of 1000 that bracket the same time as a second agree. */
  lemma WholeSecondAfter(q: int, m: int, t: int)
    requires q * 1000 <= t < q * 1000 + 1000
    requires m * 1000 - 1000 <= t < m * 1000
    ensures m == q + 1
  {
  }

  /** Prunes the intervals of the listed bands; the empty band name is
      falsy in the band lookup and is skipped. */
  function PruneAll(intervals: map<string, seq<Interval>>, bands: seq<string>, start: int): (r: map<string, seq<Interval>>)
    requires forall b :: b in bands ==> b in intervals
    ensures r.Keys == intervals.Keys
    decreases |bands|
  {
    if |bands| == 0 then intervals
    else
      var b := bands[0];
      var next := if b == "" then intervals else intervals[b := Prune(intervals[b], start)];
      assert forall c :: c in bands[1..] ==> c in bands;
      PruneAll(next, bands[1..], start)
  }

  /** Each listed band but the empty name is pruned, once however often it
      is listed; every other band keeps its intervals. */
  lemma {:induction false} PruneAllAt(intervals: map<string, seq<Interval>>, bands: seq<string>, start: int, b: string)
    requires (forall c :: c in bands ==> c in intervals) && b in intervals
    ensures PruneAll(intervals, bands, start)[b] ==
      if b in bands && b != "" then Prune(intervals[b], start) else intervals[b]
    decreases |bands|
  {
    if |bands| > 0 {
      var c := bands[0];
      var next := if c == "" then intervals else intervals[c := Prune(intervals[c], start)];
      assert forall x :: x in bands[1..] ==> x in bands;
      PruneAllAt(next, bands[1..], start, b);
      assert b in bands <==> b == c || b in bands[1..];
      PruneIdempotent(intervals[b], start);
    }
  }

  lemma PruneIdempotent(list: seq<Interval>, start: int)
    ensures Prune(Prune(list, start), start) == Prune(list, start)
  {
    assert EndedPrefix(Prune(list, start), start) == 0;
  }

  /** What `addEvents` returns: `null` (nothing changed), the new state, or
      a thrown error with the state it left behind. */
  datatype Outcome = Unchanged | Returned(w: Window) | Threw(w: Window)

  /** `addEvents`. `input` is the sample list passed (`None` for a falsy
      one) and `now` the client clock. */
  function AddEvents(w: Window, input: Option<seq<Event>>, now: int, num: Numerics): (o: Outcome)
    requires Wf(w)
    ensures input.None? ==> o.Unchanged?
    ensures o.Returned? ==> o.w.status == Loaded
    ensures !o.Unchanged? ==> SameConfig(w, o.w)
    ensures o.Threw? ==> && o.w.agg.events == w.agg.events && o.w.agg.next == w.agg.next
                         && o.w.agg.t10.idx == w.agg.t10.idx && o.w.agg.t5.idx == w.agg.t5.idx
                         && o.w.agg.t1.idx == w.agg.t1.idx && o.w.start == w.start && o.w.end == w.end
  {
    if input.None? || (|input.value| == 0 && (!w.rolling || w.aggregatePast)) then Unchanged
    else if !w.rolling && |input.value| > 0 && input.value[0].time > w.end then Unchanged
    else if |input.value| == 0 then Returned(w.(status := Loaded))
    else if !Increasing(Appended(w, input.value)) then Threw(Init(w))
    else Returned(Take(w, input.value, now, num))
  }

  /** The new end of the window for a non-empty input. */
  function InputEnd(w: Window, es: seq<Event>, now: int): (e: int)
    requires |es| > 0
    ensures es[|es| - 1].time < e
  {
    NewEnd(es[|es| - 1].time, w.rolling, now)
  }

  /** The pass over a taken, chronological input: the window's sums and
      intervals are set up, the samples appended and aggregated, the window
      moved to end at the new end, and what fell out of it compacted. */
  function Take(w: Window, es: seq<Event>, now: int, num: Numerics): (r: Window)
    requires Wf(w) && |es| > 0
    ensures SameConfig(w, r) && r.status == Loaded && r.end == NewEnd(es[|es| - 1].time, w.rolling, now)
    ensures Retained(Appended(w, es), r.agg.events, r.start) && Newest(r, es[|es| - 1].time)
    ensures ExtremesShown(r)
    ensures Valid(w) && Increasing(Appended(w, es)) ==> Valid(r)
    ensures Valid(w) && Increasing(Appended(w, es)) && BandNames(w.visible) ==> MeansShown(r, num)
  {
    var end := InputEnd(w, es, now);
    var start := end - w.length * 1000;
    var c := Pass(w, es, num, start);
    PassClock(w, es, num, start);
    CommitExtremes(Init(w), c, start, end);
    PassValid(w, es, num, start, end);
    PassLevels(w, es, num, start, end);
    Commit(Init(w), c, start, end)
  }

  /** The samples held and the new ones, aggregated and compacted for a
      window that starts at `start`. */
  function Pass(w: Window, es: seq<Event>, num: Numerics, start: int): (c: Agg)
    requires Wf(w)
    ensures c.intervals.Keys == KeySet(w.visible)
  {
    Compact(Aggregated(w, es, num), start)
  }

  /** The samples `kept` are the newest of `all`, with the same times and
      energies, and those dropped are older than `start`. */
  predicate Retained(all: seq<Event>, kept: seq<Event>, start: int) {
    && |kept| <= |all| && SameClock(all[|all| - |kept|..], kept)
    && forall k :: 0 <= k < |all| - |kept| ==> all[k].time < start
  }

  /** The window holds samples, the newest of them at `t`, before its end. */
  predicate Newest(w: Window, t: int) {
    |w.agg.events| > 0 && w.agg.events[|w.agg.events| - 1].time == t < w.end
  }

  /** The minimum and maximum of each field of each visible band are the
      extremes of that field's column over the samples held. */
  predicate ExtremesShown(w: Window) {
    forall b, s :: b in w.visible && s in Suffixes ==>
      && Field(w.min, b + s) == Extreme(Column(w.agg.events, b + s), true)
      && Field(w.max, b + s) == Extreme(Column(w.agg.events, b + s), false)
  }

  /** The newest sample shows, for each visible band, the levels of the
      mean energies of the window's three spans. */
  predicate MeansShown(w: Window, num: Numerics) {
    var a := w.agg;
    && 0 < |a.events| && Cursor(a.t10, |a.events|) && Cursor(a.t5, |a.events|) && Cursor(a.t1, |a.events|)
    && forall b :: b in w.visible ==> MeanLevels(a.events, |a.events|, a.t10, a.t5, a.t1, b, num)
  }

  lemma SameClockSuffix(es: seq<Event>, fs: seq<Event>, d: nat)
    requires SameClock(es, fs) && d <= |es|
    ensures SameClock(es[d..], fs[d..])
  {
  }

  /** A suffix of a list with the same times and energies as `all`, whose
      dropped front is before `start`, is retained from `all`. */
  lemma RetainedOf(all: seq<Event>, fs: seq<Event>, kept: seq<Event>, start: int)
    requires SameClock(all, fs) && |kept| <= |fs| && kept == fs[|fs| - |kept|..]
    requires forall k :: 0 <= k < |fs| - |kept| ==> fs[k].time < start
    ensures Retained(all, kept, start)
    ensures |kept| > 0 ==> kept[|kept| - 1].time == all[|all| - 1].time
  {
    SameClockSuffix(all, fs, |fs| - |kept|);
  }

  /** The loop keeps the times and energies of the appended samples. */
  lemma AggregatedClock(w: Window, es: seq<Event>, num: Numerics)
    requires Wf(w)
    ensures SameClock(Appended(w, es), Aggregated(w, es, num).events)
  {
    AggregateAllTimes(Init(w).agg.(events := Appended(w, es)), w.visible, w.thresholds, num);
  }

  /** The pass keeps the newest samples, times and energies unchanged, and
      drops only samples before the new start. */
  lemma PassClock(w: Window, es: seq<Event>, num: Numerics, start: int)
    requires Wf(w) && |es| > 0
    ensures var c := Pass(w, es, num, start);
      && Retained(Appended(w, es), c.events, start)
      && |c.events| > 0 && c.events[|c.events| - 1].time == es[|es| - 1].time
  {
    var all, a := Appended(w, es), Aggregated(w, es, num);
    AggregatedClock(w, es, num);
    CompactRetained(all, a, start);
    assert Compact(a, start) == Pass(w, es, num, start);
  }

  /** Compaction retains the newest samples of a list with the same times
      and energies. */
  lemma CompactRetained(all: seq<Event>, a: Agg, start: int)
    requires a.next == |a.events| && Cursor(a.t10, a.next) && Cursor(a.t5, a.next) && Cursor(a.t1, a.next)
    requires SameClock(all, a.events)
    ensures var kept := Compact(a, start).events;
      && Retained(all, kept, start)
      && (|all| > 0 ==> |kept| > 0 && kept[|kept| - 1].time == all[|all| - 1].time)
  {
    RetainedOf(all, a.events, Compact(a, start).events, start);
  }

  /** The extremes a commit takes are those of the columns of the samples
      it keeps. */
  lemma CommitExtremes(w: Window, c: Agg, start: int, end: int)
    requires forall b :: b in w.visible ==> b in c.intervals
    ensures ExtremesShown(Commit(w, c, start, end))
  {
    forall b, s | b in w.visible && s in Suffixes
      ensures Field(Commit(w, c, start, end).min, b + s) == Extreme(Column(c.events, b + s), true)
      ensures Field(Commit(w, c, start, end).max, b + s) == Extreme(Column(c.events, b + s), false)
    {
      MinMaxOfField(c.events, w.visible, b, s);
    }
  }

  /** After the pass the newest sample shows, for each visible band, the
      levels of the mean energies of the window's spans. */
  lemma PassLevels(w: Window, es: seq<Event>, num: Numerics, start: int, end: int)
    requires Wf(w) && |es| > 0
    ensures Valid(w) && Increasing(Appended(w, es)) && BandNames(w.visible) ==>
      MeansShown(Commit(Init(w), Pass(w, es, num, start), start, end), num)
  {
    if Valid(w) && Increasing(Appended(w, es)) && BandNames(w.visible) {
      PassMeans(w, es, num, start);
      CommitMeans(Init(w), Pass(w, es, num, start), start, end, num);
    }
  }

  lemma PassMeans(w: Window, es: seq<Event>, num: Numerics, start: int)
    requires Valid(w) && Increasing(Appended(w, es)) && BandNames(w.visible) && |es| > 0
    ensures var c := Pass(w, es, num, start);
      && 0 < c.next == |c.events| && Cursor(c.t10, c.next) && Cursor(c.t5, c.next) && Cursor(c.t1, c.next)
      && forall b :: b in w.visible ==> MeanLevels(c.events, c.next, c.t10, c.t5, c.t1, b, num)
  {
    var w1 := Init(w);
    InitRight(w);
    ExtendRight(w1.agg, es);
    AggregateAllMeans(w1.agg.(events := Appended(w, es)), w.visible, w.thresholds, num);
    var a := Aggregated(w, es, num);
    forall b | b in w.visible
      ensures MeanLevels(Compact(a, start).events, Compact(a, start).next, Compact(a, start).t10,
                         Compact(a, start).t5, Compact(a, start).t1, b, num)
    {
      CompactMeans(a, start, b, num);
    }
  }

  lemma CommitMeans(w: Window, c: Agg, start: int, end: int, num: Numerics)
    requires forall b :: b in w.visible ==> b in c.intervals
    requires 0 < c.next == |c.events| && Cursor(c.t10, c.next) && Cursor(c.t5, c.next) && Cursor(c.t1, c.next)
    requires forall b :: b in w.visible ==> MeanLevels(c.events, c.next, c.t10, c.t5, c.t1, b, num)
    ensures MeansShown(Commit(w, c, start, end), num)
  {
  }

  /** The end of a pass that aggregated: the window moves to `[start, end]`,
      keeps the compacted samples and spans, prunes the intervals by the
      start the window had before the move, and takes the extremes of the
      samples it keeps. */
  function Commit(w: Window, c: Agg, start: int, end: int): (r: Window)
    requires forall b :: b in w.visible ==> b in c.intervals
    ensures SameConfig(w, r) && r.start == start && r.end == end && r.status == Loaded
    ensures r.agg.events == c.events && r.agg.next == c.next
    ensures r.agg.t10 == c.t10 && r.agg.t5 == c.t5 && r.agg.t1 == c.t1 && r.agg.intervals.Keys == c.intervals.Keys
  {
    var labels := Labels(w.visible);
    w.(status := Loaded, start := start, end := end,
       agg := c.(intervals := PruneAll(c.intervals, w.visible, w.start)),
       min := RunningExtremes(c.events, labels, true), max := RunningExtremes(c.events, labels, false))
  }

  /** A commit of a compacted state that is right keeps the invariant. */
  lemma CommitValid(w: Window, c: Agg, start: int, end: int)
    requires Distinct(w.visible) && Shaped(c, KeySet(w.visible)) && c.next == |c.events| && Right(c)
    requires end - start == w.length * 1000
    ensures Valid(Commit(w, c, start, end))
  {
    PruneAllOk(c.intervals, w.visible, w.start, c.events);
  }

  /** Appending samples that are later than all aggregated ones keeps the
      spans and the intervals right for the samples already aggregated. */
  lemma ExtendRight(a: Agg, more: seq<Event>)
    requires a.next <= |a.events| && Right(a) && Increasing(a.events + more)
    ensures Right(a.(events := a.events + more))
  {
    var fs := a.events + more;
    assert forall k :: 0 <= k < |a.events| ==> fs[k] == a.events[k];
    TrackRebase(a.events, fs, a.next, a.t10, Span10s);
    TrackRebase(a.events, fs, a.next, a.t5, Span5m);
    TrackRebase(a.events, fs, a.next, a.t1, Span1h);
    if a.next > 0 {
      assert fs[a.next - 1] == a.events[a.next - 1];
    }
  }

  /** Pruning keeps every band's intervals ordered, without equal
      neighbours and ending no later than the last sample. */
  lemma PruneAllOk(intervals: map<string, seq<Interval>>, bands: seq<string>, start: int, es: seq<Event>)
    requires forall b :: b in bands ==> b in intervals
    requires forall b :: b in intervals ==> IntervalsOk(intervals[b], es, |es|)
    ensures forall b :: b in intervals ==> IntervalsOk(PruneAll(intervals, bands, start)[b], es, |es|)
  {
    forall b | b in intervals
      ensures IntervalsOk(PruneAll(intervals, bands, start)[b], es, |es|)
    {
      PruneAllAt(intervals, bands, start, b);
      PruneOrdered(intervals[b], start);
    }
  }

  /** The samples a window holds before aggregation, with the new ones
      appended. */
  function Appended(w: Window, es: seq<Event>): (all: seq<Event>)
    ensures |all| == |w.agg.events| + |es| && (|es| > 0 ==> all[|all| - 1] == es[|es| - 1])
  {
    w.agg.events + es
  }

  /** The aggregation pass of `addEvents` before compaction. */
  function Aggregated(w: Window, es: seq<Event>, num: Numerics): (a: Agg)
    requires Wf(w)
    ensures Shaped(a, KeySet(w.visible)) && a.next == |a.events| == |Appended(w, es)|
  {
    AggregateAll(Init(w).agg.(events := Appended(w, es)), w.visible, w.thresholds, num)
  }

  /** The input is handled: it is non-empty, and a fixed window does not
      ignore it for starting after the window's end. */
  predicate Taken(w: Window, es: seq<Event>) {
    |es| > 0 && (w.rolling || es[0].time <= w.end)
  }

  /** `addEvents` throws exactly when it takes the input and the samples
      held followed by the new ones are not in strictly increasing time
      order. */
  lemma AddEventsThrows(w: Window, es: seq<Event>, now: int, num: Numerics)
    requires Wf(w)
    ensures AddEvents(w, Some(es), now, num).Threw? <==> Taken(w, es) && !Increasing(Appended(w, es))
    ensures var r := AddEvents(w, Some(es), now, num);
      r.Threw? ==> && r.w.agg.events == w.agg.events && r.w.agg.next == w.agg.next
                   && r.w.agg.t10.idx == w.agg.t10.idx && r.w.agg.t5.idx == w.agg.t5.idx
                   && r.w.agg.t1.idx == w.agg.t1.idx
                   && r.w.start == w.start && r.w.end == w.end
  {
  }

  /** An empty input changes nothing, except that a rolling window that does
      not aggregate the past is marked loaded. */
  lemma AddEventsEmpty(w: Window, now: int, num: Numerics)
    requires Wf(w)
    ensures AddEvents(w, Some([]), now, num) ==
      if w.rolling && !w.aggregatePast then Returned(w.(status := Loaded)) else Unchanged
  {
  }

  /** A taken, chronological input always gives a new state; one that is not
      taken gives none, or only the loaded mark for an empty input. */
  lemma AddEventsReturns(w: Window, es: seq<Event>, now: int, num: Numerics)
    requires Wf(w)
    ensures Taken(w, es) && Increasing(Appended(w, es)) ==> AddEvents(w, Some(es), now, num).Returned?
    ensures !Taken(w, es) && |es| > 0 ==> AddEvents(w, Some(es), now, num).Unchanged?
  {
  }

  /** `addEvents` keeps the window invariant, whether it returns or throws. */
  lemma AddEventsValid(w: Window, input: Option<seq<Event>>, now: int, num: Numerics)
    requires Valid(w)
    ensures var o := AddEvents(w, input, now, num);
      !o.Unchanged? ==> Valid(o.w)
  {
    var o := AddEvents(w, input, now, num);
    if !o.Unchanged? && input.Some? && |input.value| > 0 {
      InitRight(w);
      if o.Returned? {
        assert AddEvents(w, input, now, num) == Returned(Take(w, input.value, now, num));
      }
    }
  }

  /** The pass over a chronological input keeps the invariant. */
  lemma PassValid(w: Window, es: seq<Event>, num: Numerics, start: int, end: int)
    requires Wf(w) && end - start == w.length * 1000
    ensures Valid(w) && Increasing(Appended(w, es)) ==>
      Valid(Commit(Init(w), Pass(w, es, num, start), start, end))
  {
    if Valid(w) && Increasing(Appended(w, es)) {
      var w1 := Init(w);
      InitRight(w);
      ExtendRight(w1.agg, es);
      AggregateAllRight(w1.agg.(events := Appended(w, es)), w.visible, w.thresholds, num);
      var a := Aggregated(w, es, num);
      var c := Compact(a, start);
      CompactRight(a, start);
      assert Shaped(c, KeySet(w.visible));
      CommitValid(w1, c, start, end);
    }
  }

  /** A taken, chronological input moves the window to end just after the
      newest new sample (or at `now`), keeps the invariant, keeps the newest
      samples and drops only ones before the new start, shows the extremes
      of the samples held and, in the newest sample, the mean levels of the
      spans. */
  lemma AddEventsTaken(w: Window, es: seq<Event>, now: int, num: Numerics)
    requires Valid(w) && Taken(w, es) && Increasing(Appended(w, es))
    ensures var o := AddEvents(w, Some(es), now, num);
      && o.Returned? && Valid(o.w) && o.w.status == Loaded && o.w.end == NewEnd(es[|es| - 1].time, w.rolling, now)
      && Retained(Appended(w, es), o.w.agg.events, o.w.start) && Newest(o.w, es[|es| - 1].time)
      && ExtremesShown(o.w)
      && (BandNames(w.visible) ==> MeansShown(o.w, num))
  {
    assert AddEvents(w, Some(es), now, num) == Returned(Take(w, es, now, num));
  }

  /** The time `getNewestDateStr` reports: that of the newest sample, or
      the window's end when it holds none. */
  function NewestTime(w: Window): int {
    if |w.agg.events| > 0 then w.agg.events[|w.agg.events| - 1].time else w.end
  }

  /** `getNewestDateStr`: the first 19 characters of the ISO form of the
      newest time, `YYYY-MM-DDTHH:mm:ss`; `None` for a time outside the
      years 0000 to 9999, the range the calendar covers. */
  function NewestDateStr(w: Window): (s: Option<string>)
    ensures s.Some? <==> Calendar.InRange(NewestTime(w))
    ensures s.Some? ==> |s.value| == 19
  {
    var t := NewestTime(w);
    if Calendar.InRange(t) then Some(Calendar.ToIsoString(t)[..19]) else None
  }

  /** Read back with `.000Z` appended, as sample lines are, the reported
      text is the start of the second of the newest time, which is at most
      999 ms earlier. */
  lemma NewestDateStrRoundTrip(w: Window)
    requires Calendar.InRange(NewestTime(w))
    ensures NewestDateStr(w).Some?
    ensures Calendar.ParseIso(NewestDateStr(w).value + ".000Z") == Some(SecondFloor(NewestTime(w)))
  {
    SecondOfTime(NewestTime(w));
  }
}
