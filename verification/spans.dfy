/** The floating energy sums of the data window. For each new sample the
    window keeps, per band, the total energy of the samples of the last
    10 seconds, 5 minutes and 1 hour up to and including that sample; the
    left edge of each span is an index into the sample list that only moves
    forward. */
module Spans {
  import opened Samples

  const Span10s: nat := 10000
  const Span5m: nat := 300000
  const Span1h: nat := 3600000

  /** Sample times strictly increase along the list. */
  predicate Increasing(es: seq<Event>) {
    forall i, j :: 0 <= i < j < |es| ==> es[i].time < es[j].time
  }

  /** The energy of band `b` in a sample, 0 for a band it has none of. */
  function Energy(e: Event, b: string): real {
    if b in e.ee then e.ee[b] else 0.0
  }

  /** The total energy of band `b` in the samples at `lo` up to `hi - 1`. */
  function Sum(es: seq<Event>, lo: nat, hi: nat, b: string): real
    requires lo <= hi <= |es|
    decreases hi - lo
  {
    if lo == hi then 0.0 else Sum(es, lo, hi - 1, b) + Energy(es[hi - 1], b)
  }

  lemma {:induction false} SumFront(es: seq<Event>, lo: nat, hi: nat, b: string)
    requires lo < hi <= |es|
    ensures Sum(es, lo, hi, b) == Energy(es[lo], b) + Sum(es, lo + 1, hi, b)
    decreases hi - lo
  {
    if lo + 1 < hi {
      SumFront(es, lo, hi - 1, b);
    }
  }

  lemma {:induction false} SumSplit(es: seq<Event>, lo: nat, mid: nat, hi: nat, b: string)
    requires lo <= mid <= hi <= |es|
    ensures Sum(es, lo, hi, b) == Sum(es, lo, mid, b) + Sum(es, mid, hi, b)
    decreases hi - mid
  {
    if mid < hi {
      SumSplit(es, lo, mid, hi - 1, b);
    }
  }

  /** A sum only looks at energies: two lists with the same energies in the
      range have the same sums there. */
  lemma {:induction false} SumSameEnergy(es: seq<Event>, fs: seq<Event>, lo: nat, hi: nat, b: string)
    requires lo <= hi <= |es| && hi <= |fs|
    requires forall k :: lo <= k < hi ==> es[k].ee == fs[k].ee
    ensures Sum(es, lo, hi, b) == Sum(fs, lo, hi, b)
    decreases hi - lo
  {
    if lo < hi {
      SumSameEnergy(es, fs, lo, hi - 1, b);
    }
  }

  /** Dropping `d` samples at the front shifts the indices of a sum. */
  lemma {:induction false} SumShift(es: seq<Event>, d: nat, lo: nat, hi: nat, b: string)
    requires d <= lo <= hi <= |es|
    ensures Sum(es[d..], lo - d, hi - d, b) == Sum(es, lo, hi, b)
    decreases hi - lo
  {
    if lo < hi {
      SumShift(es, d, lo, hi - 1, b);
      assert es[d..][hi - 1 - d] == es[hi - 1];
    }
  }

  /** Subtracts the energies of a sample that leaves a span. */
  function Drop(sums: map<string, real>, e: Event): (r: map<string, real>)
    ensures r.Keys == sums.Keys
  {
    map b | b in sums :: sums[b] - Energy(e, b)
  }

  lemma DropFront(sums: map<string, real>, es: seq<Event>, idx: nat, hi: nat, r: map<string, real>)
    requires idx < hi <= |es|
    requires r.Keys == sums.Keys
    requires forall b :: b in sums ==> r[b] == Drop(sums, es[idx])[b] - Sum(es, idx + 1, hi, b)
    ensures forall b :: b in sums ==> r[b] == sums[b] - Sum(es, idx, hi, b)
  {
    forall b | b in sums
      ensures r[b] == sums[b] - Sum(es, idx, hi, b)
    {
      SumFront(es, idx, hi, b);
    }
  }

  /** The slide of a span's left edge before the sample at `pos` is added:
      while the oldest sample of the span is more than `span` ms older than
      the sample at `pos`, it leaves the span and its energies leave the
      sums. The slide stops at `pos` at the latest. */
  function Slide(es: seq<Event>, idx: nat, pos: nat, span: nat, sums: map<string, real>): (r: (nat, map<string, real>))
    requires idx <= pos < |es|
    ensures idx <= r.0 <= pos
    ensures es[pos].time - es[r.0].time <= span
    ensures forall k :: idx <= k < r.0 ==> es[pos].time - es[k].time > span
    ensures r.1.Keys == sums.Keys
    ensures forall b :: b in sums ==> r.1[b] == sums[b] - Sum(es, idx, r.0, b)
    decreases pos - idx
  {
    if es[pos].time - es[idx].time > span then
      var r := Slide(es, idx + 1, pos, span, Drop(sums, es[idx]));
      DropFront(sums, es, idx, r.0, r.1);
      r
    else (idx, sums)
  }

  /** One floating span: the index of its oldest sample and the energy sum
      of each band it tracks. */
  datatype Track = Track(idx: nat, sums: map<string, real>)

  /** The span is right after the first `n` samples: its oldest sample is
      the first one within `span` ms of sample `n - 1`, and each sum is the
      band's energy from there to sample `n - 1`. */
  predicate TrackOk(es: seq<Event>, n: nat, t: Track, span: nat)
    requires n <= |es|
  {
    && (n == 0 ==> t.idx == 0)
    && (n > 0 ==> t.idx < n && es[n - 1].time - es[t.idx].time <= span)
    && (n > 0 ==> forall k :: 0 <= k < t.idx ==> es[n - 1].time - es[k].time > span)
    && (t.idx <= n && forall b :: b in t.sums ==> t.sums[b] == Sum(es, t.idx, n, b))
  }

  /** Aggregating the sample at `pos`: after the slide, and with the
      sample's energies added to the slid sums, the span is right for one
      more sample. */
  lemma TrackStep(es: seq<Event>, pos: nat, t: Track, span: nat, added: map<string, real>)
    requires Increasing(es) && pos < |es| && TrackOk(es, pos, t, span)
    requires var r := Slide(es, t.idx, pos, span, t.sums);
      && added.Keys == t.sums.Keys
      && forall b :: b in added ==> added[b] == r.1[b] + Energy(es[pos], b)
    ensures TrackOk(es, pos + 1, Track(Slide(es, t.idx, pos, span, t.sums).0, added), span)
  {
    var r := Slide(es, t.idx, pos, span, t.sums);
    forall k | 0 <= k < r.0
      ensures es[pos].time - es[k].time > span
    {
      if k < t.idx {
        assert es[pos - 1].time < es[pos].time;
      }
    }
    forall b | b in added
      ensures added[b] == Sum(es, r.0, pos + 1, b)
    {
      SumSplit(es, t.idx, r.0, pos, b);
    }
  }

  /** Samples that keep their times and energies keep a right span right. */
  lemma TrackRebase(es: seq<Event>, fs: seq<Event>, n: nat, t: Track, span: nat)
    requires n <= |es| && n <= |fs| && TrackOk(es, n, t, span)
    requires forall k :: 0 <= k < n ==> es[k].time == fs[k].time && es[k].ee == fs[k].ee
    ensures TrackOk(fs, n, t, span)
  {
    forall b | b in t.sums
      ensures t.sums[b] == Sum(fs, t.idx, n, b)
    {
      SumSameEnergy(es, fs, t.idx, n, b);
    }
  }

  /** Discarding `d` samples at the front, none of them in the span, keeps
      the span right with its index moved back by `d`. */
  lemma TrackShift(es: seq<Event>, d: nat, t: Track, span: nat, fs: seq<Event>, n: nat, u: Track)
    requires TrackOk(es, |es|, t, span) && d <= t.idx && d <= |es|
    requires fs == es[d..] && n == |es| - d && u == Track(t.idx - d, t.sums)
    ensures TrackOk(fs, n, u, span)
  {
    forall b | b in t.sums
      ensures t.sums[b] == Sum(fs, t.idx - d, |es| - d, b)
    {
      SumShift(es, d, t.idx, |es|, b);
    }
    if |es| > d {
      assert fs[|fs| - 1] == es[|es| - 1];
      forall k | 0 <= k < t.idx - d
        ensures fs[|fs| - 1].time - fs[k].time > span
      {
        assert fs[k] == es[k + d];
      }
    }
  }
}
