/** The traffic-light classification of the data window: the colour of one
    sample of one band, the threshold intervals that collect consecutive
    samples of the same colour, and the pruning of intervals that ended
    before the window. Levels are in dB; `None` stands for a level that is
    `NaN`, `undefined` or minus infinity, all of which compare false. */
module Classification {
  import opened Optional

  datatype Color = Green | Yellow | Orange | Red | Black

  /** How alarming a colour is, green lowest. */
  function Rank(c: Color): nat {
    match c
    case Green => 0
    case Yellow => 1
    case Orange => 2
    case Red => 3
    case Black => 4
  }

  /** JavaScript `x > y` for a level that may be missing. */
  predicate Above(x: Option<real>, y: real) {
    x.Some? && x.value > y
  }

  /** `x <= y` in the order where a missing level is below every level. */
  predicate AtMost(x: Option<real>, y: Option<real>) {
    x.None? || (y.Some? && x.value <= y.value)
  }

  /** The threshold of a band: the configured value, or 999 when the band
      has none or it is zero (both are falsy in JavaScript). */
  function Threshold(thresholds: map<string, real>, band: string): (t: real)
    ensures band in thresholds && thresholds[band] != 0.0 ==> t == thresholds[band]
    ensures band !in thresholds || thresholds[band] == 0.0 ==> t == 999.0
  {
    if band !in thresholds || thresholds[band] == 0.0 then 999.0 else thresholds[band]
  }

  /** `getColor`: black when the 1 h level is over the threshold; otherwise
      red or orange when the 5 min level is more than 3 dB over it (red when
      the 1 h level is also less than 3 dB under it); otherwise yellow when
      the 5 min level is over it; otherwise green. */
  function GetColor(t: real, level5m: Option<real>, level1h: Option<real>): (c: Color)
    ensures c == Black <==> Above(level1h, t)
    ensures c == Red <==> !Above(level1h, t) && Above(level5m, t + 3.0) && Above(level1h, t - 3.0)
    ensures c == Orange <==> Above(level5m, t + 3.0) && !Above(level1h, t - 3.0)
    ensures c == Yellow <==> Above(level5m, t) && !Above(level5m, t + 3.0) && !Above(level1h, t)
    ensures c == Green <==> !Above(level5m, t) && !Above(level1h, t)
  {
    if Above(level1h, t) then Black
    else if Above(level5m, t + 3.0) then
      if level1h.Some? && level1h.value + 3.0 > t then Red else Orange
    else if Above(level5m, t) then Yellow
    else Green
  }

  lemma AboveMonotone(x: Option<real>, y: Option<real>, t: real)
    requires AtMost(x, y) && Above(x, t)
    ensures Above(y, t)
  {
  }

  /** Higher levels never give a less alarming colour. */
  lemma ColorMonotone(t: real, a5m: Option<real>, a1h: Option<real>, b5m: Option<real>, b1h: Option<real>)
    requires AtMost(a5m, b5m) && AtMost(a1h, b1h)
    ensures Rank(GetColor(t, a5m, a1h)) <= Rank(GetColor(t, b5m, b1h))
  {
    if Above(a1h, t) { AboveMonotone(a1h, b1h, t); }
    if Above(a1h, t - 3.0) { AboveMonotone(a1h, b1h, t - 3.0); }
    if Above(a5m, t) { AboveMonotone(a5m, b5m, t); }
    if Above(a5m, t + 3.0) { AboveMonotone(a5m, b5m, t + 3.0); }
  }

  /** A threshold interval: from one second before its first sample to its
      last sample (milliseconds), the sum of the band's sample levels in it
      and its colour. */
  datatype Interval = Interval(start: int, end: int, total: Option<real>, color: Color)

  /** Adding two levels, a missing one making the sum missing. */
  function Plus(a: Option<real>, b: Option<real>): (r: Option<real>)
    ensures r.Some? <==> a.Some? && b.Some?
  {
    if a.Some? && b.Some? then Some(a.value + b.value) else None
  }

  /** Neighbouring intervals differ in colour. */
  predicate NoAdjacentSame(list: seq<Interval>) {
    forall i :: 0 < i < |list| ==> list[i - 1].color != list[i].color
  }

  /** Every interval ends after it starts and after the one before it. */
  predicate Ordered(list: seq<Interval>) {
    && (forall i :: 0 <= i < |list| ==> list[i].start < list[i].end)
    && (forall i :: 0 < i < |list| ==> list[i - 1].end < list[i].end)
  }

  /** The interval update for one sample at `ts` with level `level` and
      colour `color`: a new interval `[ts - 1000, ts]` when the list is empty
      or its last interval has another colour, otherwise the last interval
      is extended to `ts` and its total grows by `level`. */
  function Merge(list: seq<Interval>, ts: int, level: Option<real>, color: Color): (r: seq<Interval>)
    ensures |r| == (if |list| > 0 && list[|list| - 1].color == color then |list| else |list| + 1)
    ensures |r| > 0 && r[|r| - 1].color == color && r[|r| - 1].end == ts
    ensures forall i :: 0 <= i < |list| - 1 ==> r[i] == list[i]
    ensures |r| > |list| ==> r[..|list|] == list && r[|list|] == Interval(ts - 1000, ts, level, color)
    ensures |r| == |list| ==> r[|r| - 1] == list[|list| - 1].(end := ts, total := Plus(list[|list| - 1].total, level))
    ensures NoAdjacentSame(list) ==> NoAdjacentSame(r)
    ensures Ordered(list) && (|list| > 0 ==> list[|list| - 1].end < ts) ==> Ordered(r)
  {
    if |list| == 0 || list[|list| - 1].color != color then
      list + [Interval(ts - 1000, ts, level, color)]
    else
      var last := list[|list| - 1];
      list[..|list| - 1] + [last.(end := ts, total := Plus(last.total, level))]
  }

  /** One classified sample of a band. */
  datatype Sample = Sample(time: int, level: Option<real>, color: Color)

  /** The intervals built from a band's samples, one `Merge` per sample. */
  function MergeAll(list: seq<Interval>, samples: seq<Sample>): (r: seq<Interval>)
    decreases |samples|
  {
    if |samples| == 0 then list
    else
      var s := samples[|samples| - 1];
      Merge(MergeAll(list, samples[..|samples| - 1]), s.time, s.level, s.color)
  }

  function Colors(list: seq<Interval>): (r: seq<Color>)
    ensures |r| == |list| && forall i :: 0 <= i < |list| ==> r[i] == list[i].color
  {
    if |list| == 0 then [] else Colors(list[..|list| - 1]) + [list[|list| - 1].color]
  }

  /** A colour sequence with each run of equal neighbours written once. */
  function Runs(colors: seq<Color>): (r: seq<Color>)
    ensures |colors| > 0 ==> |r| > 0 && r[|r| - 1] == colors[|colors| - 1]
  {
    if |colors| == 0 then []
    else
      var prev := Runs(colors[..|colors| - 1]);
      var c := colors[|colors| - 1];
      if |prev| > 0 && prev[|prev| - 1] == c then prev else prev + [c]
  }

  /** The colours of a band's samples, in order. `Colors` reads the same
      field of intervals; the two are kept apart because `Sample` and
      `Interval` are different records. */
  function SampleColors(samples: seq<Sample>): (r: seq<Color>)
    ensures |r| == |samples| && forall i :: 0 <= i < |samples| ==> r[i] == samples[i].color
  {
    if |samples| == 0 then [] else SampleColors(samples[..|samples| - 1]) + [samples[|samples| - 1].color]
  }

  lemma ColorsOfMerge(list: seq<Interval>, ts: int, level: Option<real>, color: Color)
    ensures var prev := Colors(list);
      Colors(Merge(list, ts, level, color)) == if |prev| > 0 && prev[|prev| - 1] == color then prev else prev + [color]
  {
  }

  /** Starting from no intervals, the colours of the intervals are the
      colours of the samples with each run written once: an interval per
      run of equal colours. */
  lemma {:induction false} MergeAllRuns(samples: seq<Sample>)
    ensures Colors(MergeAll([], samples)) == Runs(SampleColors(samples))
    decreases |samples|
  {
    if |samples| > 0 {
      var n := |samples| - 1;
      MergeAllRuns(samples[..n]);
      assert SampleColors(samples)[..n] == SampleColors(samples[..n]);
      ColorsOfMerge(MergeAll([], samples[..n]), samples[n].time, samples[n].level, samples[n].color);
    }
  }

  /** The number of intervals with an end no later than `start` at the
      front of the list. */
  function EndedPrefix(list: seq<Interval>, start: int): (k: nat)
    ensures k <= |list|
    ensures forall i :: 0 <= i < k ==> list[i].end <= start
    ensures k < |list| ==> list[k].end > start
  {
    if |list| == 0 || list[0].end > start then 0
    else 1 + EndedPrefix(list[1..], start)
  }

  /** Pruning as intended: the intervals that ended by `start` at the front
      of the list are dropped. */
  function Prune(list: seq<Interval>, start: int): (r: seq<Interval>)
    ensures |r| <= |list| && r == list[|list| - |r|..]
    ensures forall i :: 0 <= i < |list| - |r| ==> list[i].end <= start
    ensures |r| > 0 ==> r[0].end > start
  {
    list[EndedPrefix(list, start)..]
  }

  /** On an ordered list nothing kept ended by `start`, and the kept
      intervals are still ordered without equal neighbours. */
  lemma PruneOrdered(list: seq<Interval>, start: int)
    requires Ordered(list) && NoAdjacentSame(list)
    ensures forall i :: 0 <= i < |Prune(list, start)| ==> Prune(list, start)[i].end > start
    ensures Ordered(Prune(list, start)) && NoAdjacentSame(Prune(list, start))
  {
    var r := Prune(list, start);
    var d := |list| - |r|;
    forall i | 0 <= i < |r| ensures r[i].end > start {
      EndsIncrease(list, d, d + i);
    }
  }

  lemma {:induction false} EndsIncrease(list: seq<Interval>, i: nat, j: nat)
    requires Ordered(list) && i <= j < |list|
    ensures list[i].end <= list[j].end
    decreases j - i
  {
    if i < j {
      EndsIncrease(list, i, j - 1);
    }
  }

  /** The pruning loop as written: its condition tests the compaction index
      `i` where the interval index `k` was meant. With `i` not below the
      list's length nothing is dropped; otherwise the loop runs past the end
      of the list when every interval ended by `start`, and reading the end
      of the missing interval throws a `TypeError` (`None`). */
  function PruneAsWritten(list: seq<Interval>, i: int, start: int): (r: Option<seq<Interval>>)
    ensures i >= |list| ==> r == Some(list)
  {
    if i >= |list| then Some(list)
    else
      var k := EndedPrefix(list, start);
      if k == |list| then None else Some(list[k..])
  }

  /** Where the loop does reach an interval that ends after `start`, the
      written loop drops what was intended. */
  lemma PruneAsWrittenAgrees(list: seq<Interval>, i: int, start: int)
    requires 0 <= i < |list|
    requires exists j :: 0 <= j < |list| && list[j].end > start
    ensures PruneAsWritten(list, i, start) == Some(Prune(list, start))
  {
    var j :| 0 <= j < |list| && list[j].end > start;
    assert EndedPrefix(list, start) <= j;
  }

  /** The two ways the written loop goes wrong: a stale interval stays when
      `i` is past the list, and the pass throws when every interval is
      stale. */
  lemma PruneAsWrittenDiffers()
    ensures var list := [Interval(0, 1000, Some(40.0), Green)];
      && PruneAsWritten(list, 1, 5000) == Some(list)
      && PruneAsWritten(list, 0, 5000).None?
      && Prune(list, 5000) == []
  {
    var list := [Interval(0, 1000, Some(40.0), Green)];
    assert EndedPrefix(list, 5000) == 1 by {
      assert EndedPrefix(list[1..], 5000) == 0;
    }
  }
}
