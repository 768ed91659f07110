/** The minimum and maximum the data window shows for each field of each
    visible band (`addEvents`): one pass over the samples, and in each
    sample over the bands and the suffixes `""`, `_10s`, `_5m` and `_1h`.
    A value that is `undefined` or `NaN` is `None`. */
module Extremes {
  import opened Optional
  import opened Samples
  import opened Aggregation

  /** `x < y` for the minimum, `x > y` for the maximum. */
  predicate Beats(x: real, y: real, lower: bool) {
    if lower then x < y else x > y
  }

  /** One update of a running extreme `acc` by a value `d`: a missing
      extreme (falsy and not zero) takes any value, a present one only a
      value that beats it. */
  function Pick(acc: Option<real>, d: Option<real>, lower: bool): (r: Option<real>)
    ensures r == acc || r == d
    ensures acc.None? ==> r == d
    ensures acc.Some? && d.Some? && Beats(d.value, acc.value, lower) ==> r == d
    ensures acc.Some? && (d.None? || !Beats(d.value, acc.value, lower)) ==> r == acc
  {
    if acc.None? || (d.Some? && Beats(d.value, acc.value, lower)) then d else acc
  }

  /** Picking the same value twice is picking it once. */
  lemma PickIdempotent(acc: Option<real>, d: Option<real>, lower: bool)
    ensures Pick(Pick(acc, d, lower), d, lower) == Pick(acc, d, lower)
  {
  }

  /** The running extreme over a column, front to back. It is missing only
      when every value is, and otherwise it is a value of the column that
      no present value beats. */
  function Extreme(col: seq<Option<real>>, lower: bool): (r: Option<real>)
    ensures r.None? <==> forall k :: 0 <= k < |col| ==> col[k].None?
    ensures r.Some? ==> r in col
    ensures r.Some? ==> forall k :: 0 <= k < |col| && col[k].Some? ==> !Beats(col[k].value, r.value, lower)
  {
    if |col| == 0 then None
    else Pick(Extreme(col[..|col| - 1], lower), col[|col| - 1], lower)
  }

  /** The values of field `k` down the samples. */
  function Column(es: seq<Event>, k: string): (c: seq<Option<real>>)
    ensures |c| == |es| && forall i :: 0 <= i < |es| ==> c[i] == Field(es[i].data, k)
  {
    seq(|es|, i requires 0 <= i < |es| => Field(es[i].data, k))
  }

  /** The field names of the visible bands, band by band, each with the
      four suffixes in order. */
  function Labels(visible: seq<string>): (r: seq<string>)
    ensures |r| == 4 * |visible|
  {
    if |visible| == 0 then []
    else [visible[0], visible[0] + "_10s", visible[0] + "_5m", visible[0] + "_1h"] + Labels(visible[1..])
  }

  /** Every field of every visible band is among the labels. */
  lemma {:induction false} LabelsHave(visible: seq<string>, b: string, s: string)
    requires b in visible && s in Suffixes
    ensures b + s in Labels(visible)
    decreases |visible|
  {
    if visible[0] != b {
      LabelsHave(visible[1..], b, s);
    } else {
      assert b + "" == b;
    }
  }

  /** One sample's update of the running extremes, field by field. */
  function PickRow(acc: map<string, Option<real>>, d: map<string, Option<real>>, keys: seq<string>,
                   lower: bool): (r: map<string, Option<real>>)
    ensures r.Keys == acc.Keys + set k | k in keys
    decreases |keys|
  {
    if |keys| == 0 then acc
    else PickRow(acc[keys[0] := Pick(Field(acc, keys[0]), Field(d, keys[0]), lower)], d, keys[1..], lower)
  }

  /** A row update picks the sample's value into each listed field once,
      however often the field is listed, and leaves the others alone. */
  lemma {:induction false} PickRowAt(acc: map<string, Option<real>>, d: map<string, Option<real>>, keys: seq<string>,
                                     lower: bool, k: string)
    ensures Field(PickRow(acc, d, keys, lower), k) ==
      if k in keys then Pick(Field(acc, k), Field(d, k), lower) else Field(acc, k)
    decreases |keys|
  {
    if |keys| > 0 {
      var acc' := acc[keys[0] := Pick(Field(acc, keys[0]), Field(d, keys[0]), lower)];
      PickRowAt(acc', d, keys[1..], lower, k);
      assert k in keys <==> k == keys[0] || k in keys[1..];
      if k == keys[0] {
        PickIdempotent(Field(acc, k), Field(d, k), lower);
      }
    }
  }

  /** The extremes of all listed fields over the samples. */
  function RunningExtremes(es: seq<Event>, keys: seq<string>, lower: bool): (r: map<string, Option<real>>)
    ensures |es| > 0 ==> r.Keys == set k | k in keys
    ensures |es| == 0 ==> r == map[]
  {
    if |es| == 0 then map[]
    else PickRow(RunningExtremes(es[..|es| - 1], keys, lower), es[|es| - 1].data, keys, lower)
  }

  /** The extreme the pass keeps for a field is the extreme of the field's
      column. */
  lemma {:induction false} ExtremesColumn(es: seq<Event>, keys: seq<string>, lower: bool, k: string)
    requires k in keys
    ensures Field(RunningExtremes(es, keys, lower), k) == Extreme(Column(es, k), lower)
    decreases |es|
  {
    if |es| > 0 {
      var n := |es| - 1;
      ExtremesColumn(es[..n], keys, lower, k);
      PickRowAt(RunningExtremes(es[..n], keys, lower), es[n].data, keys, lower, k);
      assert Column(es, k)[..n] == Column(es[..n], k);
    }
  }

  /** For each field of each visible band: the minimum is a value of the
      field's column that no present value is below, the maximum one that
      none is above, and either is missing only when the whole column is. */
  lemma MinMaxOfField(es: seq<Event>, visible: seq<string>, b: string, s: string)
    requires b in visible && s in Suffixes
    ensures Field(RunningExtremes(es, Labels(visible), true), b + s) == Extreme(Column(es, b + s), true)
    ensures Field(RunningExtremes(es, Labels(visible), false), b + s) == Extreme(Column(es, b + s), false)
  {
    LabelsHave(visible, b, s);
    ExtremesColumn(es, Labels(visible), true, b + s);
    ExtremesColumn(es, Labels(visible), false, b + s);
  }
}
