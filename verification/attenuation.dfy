/** The attenuation controller (`Attenuation` in src/attenuation.js): per
    configured band it compares the latest 10-second level with the band's
    5-minute limit, steps the graphic-equaliser (GEQ) attenuation of that
    band down or back up, and asks the sound hardware to apply the new
    level.

    Attenuation levels are kept in half decibels: the code starts every band
    at 0 dB and only ever adds or subtracts 0.5 dB or 1 dB, so a level is
    always `h / 2` dB for an integer `h`, which binary floating point holds
    exactly. The device's own levels are arbitrary reals. The wall clock,
    the device query and the device update are not code of this module:
    the clock reading and the device's table are parameters and the
    updates are returned as requests, in the order the code issues them. */
module Attenuation {
  import opened Optional
  import opened Text
  import opened Numerals

  /** One band's configuration: the 5-minute and 1-hour limits in dB and
      the two waiting times in milliseconds. */
  datatype BandConfig = BandConfig(limit5m: real, limit1h: real, minIncDelay: int, minDecDelay: int)

  /** One band's controller state: the target level in half decibels and
      the wall-clock time (milliseconds) of the last change, if any. */
  datatype BandState = BandState(level: int, lastUpdate: Option<int>)

  /** The deepest attenuation the controller sets: -12 dB. */
  const Floor: int := -24

  /** A level in half decibels, in decibels. */
  function Db(h: int): real {
    h as real / 2.0
  }

  datatype Algorithm = Noop | SlopeBased

  /** The controller: the chosen algorithm (`None` when the name given to the
      constructor names none), the configured bands in key order, their
      configuration and their state. */
  datatype Controller = Controller(algorithm: Option<Algorithm>, bands: seq<string>,
                                   config: map<string, BandConfig>, info: map<string, BandState>)

  /** The controller's invariant: one configuration and one state per band,
      and every level between the floor and 0 dB. */
  predicate Valid(c: Controller) {
    && Distinct(c.bands)
    && c.config.Keys == KeySet(c.bands)
    && c.info.Keys == KeySet(c.bands)
    && (forall b :: b in c.info ==> Floor <= c.info[b].level <= 0)
  }

  /** The algorithm table lookup of the constructor and of
      `updateAttenuation`: `"noop"` and `"slope"` are known; any other name
      (or none) is replaced by `"attnNoop"`, which is not a key of the
      table, so the lookup later fails. */
  function AlgorithmOf(name: Option<string>): (r: Option<Algorithm>)
    ensures r.Some? <==> name == Some("noop") || name == Some("slope")
    ensures r == Some(SlopeBased) <==> name == Some("slope")
  {
    if name == Some("noop") then Some(Noop)
    else if name == Some("slope") then Some(SlopeBased)
    else None
  }

  /** The constructor: the bands are the configuration's keys in order and
      every band starts at 0 dB with no update yet. */
  function NewController(bands: seq<string>, config: map<string, BandConfig>, name: Option<string>): (c: Controller)
    requires Distinct(bands) && config.Keys == KeySet(bands)
    ensures Valid(c)
    ensures c.bands == bands && c.config == config && c.algorithm == AlgorithmOf(name)
    ensures forall b :: b in bands ==> c.info[b] == BandState(0, None)
  {
    Controller(AlgorithmOf(name), bands, config, map b | b in bands :: BandState(0, None))
  }

  /** `updateBandConfig`: each configured band whose key the new
      configuration also has takes the new entry; keys are never added. */
  function UpdateBandConfig(c: Controller, newConfig: map<string, BandConfig>): (r: Controller)
    ensures r.config.Keys == c.config.Keys
    ensures forall b :: b in c.config && b in newConfig ==> r.config[b] == newConfig[b]
    ensures forall b :: b in c.config && b !in newConfig ==> r.config[b] == c.config[b]
    ensures r.bands == c.bands && r.info == c.info && r.algorithm == c.algorithm
  {
    c.(config := map b | b in c.config :: if b in newConfig then newConfig[b] else c.config[b])
  }

  /** Updating the configuration keeps the controller valid, and a second
      update with the same entries changes nothing. */
  lemma UpdateBandConfigStable(c: Controller, newConfig: map<string, BandConfig>)
    requires Valid(c)
    ensures Valid(UpdateBandConfig(c, newConfig))
    ensures UpdateBandConfig(UpdateBandConfig(c, newConfig), newConfig) == UpdateBandConfig(c, newConfig)
  {
    var r := UpdateBandConfig(c, newConfig);
    var r2 := UpdateBandConfig(r, newConfig);
    assert r2.config == r.config;
  }

  /** The data-window label of a configured band: `"Leq"` and the key with
      every `.` written as `_` (`"31.5Hz"` gives `"Leq31_5Hz"`). */
  function BandId(band: string): (id: string)
    ensures StartsWith(id, "Leq") && |id| == |band| + 3
    ensures '.' !in band ==> id == "Leq" + band
  {
    "Leq" + ReplaceChar(band, '.', '_')
  }

  /** The text `bandNameToFrequency` hands to `parseFloat`, and whether it
      saw a `k`: a leading `"Leq"` and every `"Hz"` removed, then, when a `k`
      is left, every `k` removed, and `_` written as `.`. */
  function FrequencyText(name: string): (r: (string, bool))
    ensures |r.0| <= |name|
  {
    var s0 := if StartsWith(name, "Leq") then Substring(name, 3, |name|) else name;
    var s1 := ReplaceAll(s0, "Hz", "");
    var kilo := IndexOf(s1, 'k') > -1;
    var s2 := if kilo then ReplaceAll(s1, "k", "") else s1;
    (ReplaceChar(s2, '_', '.'), kilo)
  }

  /** `bandNameToFrequency`: the number read from `FrequencyText`, scaled by
      1000 when a `k` was seen. `None` stands for `NaN`. */
  function BandNameToFrequency(name: string): (f: Option<real>)
    ensures f.Some? ==> f.value >= 0.0
    ensures f.Some? <==> ParseFloat(FrequencyText(name).0).Some?
  {
    Scaled(ParseFloat(FrequencyText(name).0), FrequencyText(name).1)
  }

  /** A parsed number, times 1000 when `kilo`. */
  function Scaled(v: Option<real>, kilo: bool): (f: Option<real>)
    requires v.Some? ==> v.value >= 0.0
    ensures f.Some? ==> f.value >= 0.0
    ensures f.Some? <==> v.Some?
  {
    match v
    case None => None
    case Some(x) => Some(if kilo then x * 1000.0 else x)
  }

  /** The label of a standard band: integer digits, optional fraction
      digits after a point, an optional `k`, then `Hz` (`"31.5Hz"`, `"1kHz"`). */
  function BandLabel(whole: string, frac: string, kilo: bool): string {
    whole + Fraction(frac, '.') + (if kilo then "k" else "") + "Hz"
  }

  /** The fraction part of a label: nothing, or `point` and the digits. */
  function Fraction(frac: string, point: char): string {
    if |frac| > 0 then [point] + frac else ""
  }

  /** The frequency a standard band label names, in Hz. */
  function LabelFrequency(whole: string, frac: string, kilo: bool): (f: real)
    requires AllDigits(whole) && AllDigits(frac)
    ensures f >= 0.0
  {
    var v := DecimalValue(whole, frac);
    if kilo then v * 1000.0 else v
  }

  lemma FractionChars(frac: string, point: char, c: char)
    requires AllDigits(frac) && !IsDigit(c) && c != point
    ensures c !in Fraction(frac, point)
  {
    DigitsOnly(frac, c);
  }

  /** The data-window label of a standard band writes its point as `_`. */
  lemma BandIdOfLabel(whole: string, frac: string, kilo: bool)
    requires AllDigits(whole) && AllDigits(frac)
    ensures BandId(BandLabel(whole, frac, kilo)) == "Leq" + (whole + Fraction(frac, '_') + (if kilo then "k" else "") + "Hz")
  {
    var k := if kilo then "k" else "";
    DigitsOnly(whole, '.');
    DigitsOnly(frac, '.');
    ReplaceCharConcat(whole + Fraction(frac, '.') + k, "Hz", '.', '_');
    ReplaceCharConcat(whole + Fraction(frac, '.'), k, '.', '_');
    ReplaceCharConcat(whole, Fraction(frac, '.'), '.', '_');
    ReplaceCharAbsent(whole, '.', '_');
    ReplaceCharAbsent(k, '.', '_');
    ReplaceCharAbsent("Hz", '.', '_');
    if |frac| > 0 {
      ReplaceCharConcat(".", frac, '.', '_');
      ReplaceCharAbsent(frac, '.', '_');
    }
  }

  /** Removing every occurrence of a pattern that ends the text and does not
      start anywhere before it. */
  lemma DropSuffix(x: string, pat: string)
    requires |pat| > 0 && pat[0] !in x && pat[0] !in pat[1..]
    ensures ReplaceAll(x + pat, pat, "") == x
  {
    ReplaceAllSkipsPrefix(x, pat, pat, "");
    assert StartsWith(pat, pat);
    assert ReplaceAll(pat[|pat|..], pat, "") == "";
    assert x + "" == x;
  }

  /** What `bandNameToFrequency` hands to `parseFloat` for a standard band. */
  lemma FrequencyTextOfLabel(whole: string, frac: string, kilo: bool)
    requires AllDigits(whole) && AllDigits(frac)
    ensures FrequencyText(BandId(BandLabel(whole, frac, kilo))) == (whole + Fraction(frac, '.'), kilo)
  {
    var y := whole + Fraction(frac, '_');
    var k := if kilo then "k" else "";
    var x := y + k;
    var id := "Leq" + (x + "Hz");
    BandIdOfLabel(whole, frac, kilo);
    assert Substring(id, 3, |id|) == x + "Hz";
    DigitsOnly(whole, 'H');
    FractionChars(frac, '_', 'H');
    DropSuffix(x, "Hz");
    DigitsOnly(whole, 'k');
    FractionChars(frac, '_', 'k');
    assert 'k' in x <==> kilo;
    if kilo {
      DropSuffix(y, "k");
    } else {
      assert x == y;
    }
    ReplaceCharConcat(whole, Fraction(frac, '_'), '_', '.');
    DigitsOnly(whole, '_');
    ReplaceCharAbsent(whole, '_', '.');
    if |frac| > 0 {
      DigitsOnly(frac, '_');
      ReplaceCharConcat("_", frac, '_', '.');
      ReplaceCharAbsent(frac, '_', '.');
    }
  }

  /** `parseFloat` reads the digits of a standard band label back. */
  lemma ParseFraction(whole: string, frac: string)
    requires |whole| >= 1 && AllDigits(whole) && AllDigits(frac)
    ensures ParseFloat(whole + Fraction(frac, '.')) == Some(DecimalValue(whole, frac))
  {
    var text := whole + Fraction(frac, '.');
    if |frac| > 0 {
      assert text == whole + "." + frac + "";
      ParseFloatDecimal(whole, frac, "");
    } else {
      assert text == whole + "";
      ParseFloatWhole(whole, "");
      WholeDecimal(whole, frac);
    }
  }

  lemma WholeDecimal(whole: string, frac: string)
    requires AllDigits(whole) && |frac| == 0
    ensures DecimalValue(whole, frac) == ParseDigits(whole) as real
  {
    assert ParseDigits(frac) == 0 && Pow10(0) == 1;
  }

  /** The controller finds a standard band at the frequency its label names:
      `"Leq31_5Hz"` at 31.5 Hz, `"Leq1kHz"` at 1000 Hz. */
  lemma FrequencyOfLabel(whole: string, frac: string, kilo: bool)
    requires |whole| >= 1 && AllDigits(whole) && AllDigits(frac)
    ensures BandNameToFrequency(BandId(BandLabel(whole, frac, kilo))) == Some(LabelFrequency(whole, frac, kilo))
  {
    var name := BandId(BandLabel(whole, frac, kilo));
    var text := whole + Fraction(frac, '.');
    FrequencyTextOfLabel(whole, frac, kilo);
    ParseFraction(whole, frac);
    FrequencyOfText(name, text, kilo, DecimalValue(whole, frac));
    ScaledLabel(whole, frac, kilo);
  }

  lemma ScaledLabel(whole: string, frac: string, kilo: bool)
    requires AllDigits(whole) && AllDigits(frac)
    ensures Scaled(Some(DecimalValue(whole, frac)), kilo) == Some(LabelFrequency(whole, frac, kilo))
  {
  }

  lemma FrequencyOfText(name: string, text: string, kilo: bool, v: real)
    requires FrequencyText(name) == (text, kilo) && ParseFloat(text) == Some(v)
    ensures BandNameToFrequency(name) == Scaled(Some(v), kilo)
  {
  }

  /** One entry of the device's GEQ table as `getGeqSetting` reports it. */
  datatype GeqBand = GeqBand(frequency: real, level: real)

  /** `Array.prototype.find` on the table by frequency: the first entry
      whose frequency equals `f` (a `NaN` frequency equals nothing). */
  function FindBand(table: seq<GeqBand>, f: Option<real>): (r: Option<nat>)
    ensures r.Some? ==> r.value < |table| && Some(table[r.value].frequency) == f
    ensures r.Some? ==> forall j :: 0 <= j < r.value ==> Some(table[j].frequency) != f
    ensures r.None? ==> forall j :: 0 <= j < |table| ==> Some(table[j].frequency) != f
  {
    if |table| == 0 then None
    else if Some(table[0].frequency) == f then Some(0)
    else match FindBand(table[1..], f)
      case None => None
      case Some(i) => Some(i + 1)
  }

  /** The level the device reports for a band, 0 when no entry matches. */
  function DeviceLevel(table: seq<GeqBand>, f: Option<real>): (level: real)
    ensures FindBand(table, f).None? ==> level == 0.0
    ensures FindBand(table, f).Some? ==> level == table[FindBand(table, f).value].level
  {
    match FindBand(table, f)
    case None => 0.0
    case Some(i) => table[i].level
  }

  /** What `updateAttenuation` receives: the sample time (milliseconds) and
      the 10-second levels keyed by data-window label. */
  datatype Reading = Reading(time: int, leq10s: map<string, real>)

  /** The band's 10-second level; `None` stands for a missing entry, which
      the code turns into `NaN`. */
  function CurrentLevel(r: Reading, band: string): Option<real> {
    if BandId(band) in r.leq10s then Some(r.leq10s[BandId(band)]) else None
  }

  /** The rising-slope test of `attnSlopeBased`. The slope is the change
      from the band's own level to the current 10-second level per
      millisecond since the last change (0 before the first change); it is
      too steep when it exceeds a tenth of the headroom to the limit.
      Division by zero follows IEEE 754: a positive change gives +Infinity,
      which exceeds any bound, a negative one -Infinity and no change `NaN`,
      neither of which does; a `NaN` level exceeds nothing. */
  function SlopeExceeds(current: Option<real>, level: real, lastUpdate: Option<int>, limit: real, sampleTime: int): (r: bool)
    ensures r ==> current.Some?
    ensures current.Some? && lastUpdate.None? ==> (r <==> current.value > limit)
    ensures current.Some? && lastUpdate == Some(sampleTime) ==> (r <==> current.value > level)
  {
    match current
    case None => false
    case Some(c) =>
      var bound := (limit - c) * 0.1;
      match lastUpdate
      case None => 0.0 > bound
      case Some(t) =>
        var dt := sampleTime - t;
        if dt == 0 then c - level > 0.0
        else (c - level) / (dt as real) > bound
  }

  /** The attenuation increase in half decibels for an excess over the
      limit: 1 dB beyond 2 dB of excess, otherwise 0.5 dB. The code's 3 dB
      step for an excess beyond 4 dB sits behind the 2 dB test and is never
      taken. */
  function IncreaseStep(excess: real): (h: int)
    ensures h == 1 || h == 2
    ensures h == 2 <==> excess > 2.0
  {
    if excess > 2.0 then 2
    else if excess > 4.0 then 6
    else 1
  }

  /** The outcome for one band: skipped while a waiting time runs (no
      device update either), or a possibly new state and whether the
      device must be told the level. */
  datatype BandStep = Skipped | Stepped(state: BandState, send: bool)

  predicate Waiting(last: Option<int>, now: int, delay: int) {
    last.Some? && now - last.value < delay
  }

  /** One iteration of the band loop of `attnSlopeBased`. */
  function StepBand(cfg: BandConfig, st: BandState, device: real, current: Option<real>,
                    sampleTime: int, now: int): (r: BandStep)
    ensures r.Skipped? <==>
      || Waiting(st.lastUpdate, now, Min(cfg.minIncDelay, cfg.minDecDelay))
      || (SlopeExceeds(current, Db(st.level), st.lastUpdate, cfg.limit5m, sampleTime)
          && Waiting(st.lastUpdate, now, cfg.minIncDelay))
    ensures r.Stepped? ==> (r.send <==> device != Db(r.state.level))
    ensures Floor <= st.level ==>
      ((r.Stepped? && r.state.level < st.level) <==>
        && !Waiting(st.lastUpdate, now, Min(cfg.minIncDelay, cfg.minDecDelay))
        && SlopeExceeds(current, Db(st.level), st.lastUpdate, cfg.limit5m, sampleTime)
        && !Waiting(st.lastUpdate, now, cfg.minIncDelay)
        && Db(st.level) == device && st.level > Floor)
    ensures r.Stepped? && r.state.level < st.level ==>
      && current.Some?
      && st.level - r.state.level == Min(IncreaseStep(current.value - cfg.limit5m), st.level - Floor)
    ensures Floor <= st.level ==>
      ((r.Stepped? && r.state.level > st.level) <==>
        && !Waiting(st.lastUpdate, now, Min(cfg.minIncDelay, cfg.minDecDelay))
        && !SlopeExceeds(current, Db(st.level), st.lastUpdate, cfg.limit5m, sampleTime)
        && st.lastUpdate.Some? && now - st.lastUpdate.value > cfg.minDecDelay && st.level < 0)
    ensures Floor <= st.level && r.Stepped? && r.state.level > st.level ==> r.state.level == st.level + 1
    ensures r.Stepped? && r.state.lastUpdate != st.lastUpdate ==> r.state.lastUpdate == Some(now)
    ensures r.Stepped? && SlopeExceeds(current, Db(st.level), st.lastUpdate, cfg.limit5m, sampleTime) ==>
      if Db(st.level) != device then r.state == st else r.state.lastUpdate == Some(now)
    ensures r.Stepped? && !SlopeExceeds(current, Db(st.level), st.lastUpdate, cfg.limit5m, sampleTime) ==>
      if st.lastUpdate.Some? && now - st.lastUpdate.value > cfg.minDecDelay && st.level < 0
      then r.state.lastUpdate == Some(now) else r.state == st
    ensures r.Stepped? && Floor <= st.level <= 0 ==> Floor <= r.state.level <= 0
  {
    if Waiting(st.lastUpdate, now, Min(cfg.minIncDelay, cfg.minDecDelay)) then Skipped
    else
      var next :=
        if SlopeExceeds(current, Db(st.level), st.lastUpdate, cfg.limit5m, sampleTime) then
          if Waiting(st.lastUpdate, now, cfg.minIncDelay) then None
          else if Db(st.level) != device then Some(st)
          else Some(BandState(Max(st.level - IncreaseStep(current.value - cfg.limit5m), Floor), Some(now)))
        else if st.lastUpdate.Some? && now - st.lastUpdate.value > cfg.minDecDelay && st.level < 0 then
          Some(BandState(Min(st.level + 1, 0), Some(now)))
        else Some(st);
      match next
      case None => Skipped
      case Some(s) => Stepped(s, device != Db(s.level))
  }

  /** A change request the loop hands to `updateEQ`: the band key and the
      new level in half decibels. */
  datatype EqUpdate = EqUpdate(band: string, level: int)

  /** The step of `band` in a pass reading `table` and `reading` at `now`. */
  function StepOf(band: string, cfg: BandConfig, st: BandState, table: seq<GeqBand>, reading: Reading, now: int): (r: BandStep)
    ensures r.Stepped? ==> (r.send <==> DeviceLevel(table, BandNameToFrequency(BandId(band))) != Db(r.state.level))
    ensures r.Stepped? && Floor <= st.level <= 0 ==> Floor <= r.state.level <= 0
  {
    StepBand(cfg, st, DeviceLevel(table, BandNameToFrequency(BandId(band))),
             CurrentLevel(reading, band), reading.time, now)
  }

  /** The step of every band of a pass: a band without configuration
      does not occur in a valid controller and is skipped. */
  function StepFn(config: map<string, BandConfig>, table: seq<GeqBand>, reading: Reading, now: int): (string, BandState) -> BandStep {
    (b: string, st: BandState) => if b in config then StepOf(b, config[b], st, table, reading, now) else Skipped
  }

  lemma StepFnApplies(config: map<string, BandConfig>, table: seq<GeqBand>, reading: Reading, now: int, b: string, st: BandState)
    requires b in config
    ensures StepFn(config, table, reading, now)(b, st) == StepOf(b, config[b], st, table, reading, now)
  {
  }

  /** The new state of a band after `step`. */
  function After(step: (string, BandState) -> BandStep, b: string, st: BandState): BandState {
    var r := step(b, st);
    if r.Stepped? then r.state else st
  }

  /** A loop over `bands` in order: each band's step replaces its state and,
      when it asks for it, adds a request with the new level. */
  function Sweep(bands: seq<string>, info: map<string, BandState>, step: (string, BandState) -> BandStep)
    : (r: (map<string, BandState>, seq<EqUpdate>))
    requires forall b :: b in bands ==> b in info
    ensures r.0.Keys == info.Keys
    ensures |r.1| <= |bands|
    ensures forall k :: 0 <= k < |r.1| ==> r.1[k].band in bands
    decreases |bands|
  {
    if |bands| == 0 then (info, [])
    else
      var b := bands[0];
      var st := step(b, info[b]);
      var info' := info[b := After(step, b, info[b])];
      var out := if st.Stepped? && st.send then [EqUpdate(b, st.state.level)] else [];
      var rest := Sweep(bands[1..], info', step);
      (rest.0, out + rest.1)
  }

  /** The bands of a sweep do not influence each other: each band ends in
      the state its own step gives, and states of other keys are kept. */
  lemma {:induction false} SweepPointwise(bands: seq<string>, info: map<string, BandState>, step: (string, BandState) -> BandStep)
    requires forall b :: b in bands ==> b in info
    requires Distinct(bands)
    ensures forall b :: b in bands ==> Sweep(bands, info, step).0[b] == After(step, b, info[b])
    ensures forall b :: b in info && b !in bands ==> Sweep(bands, info, step).0[b] == info[b]
    decreases |bands|
  {
    if |bands| > 0 {
      var b0 := bands[0];
      var info' := info[b0 := After(step, b0, info[b0])];
      DistinctTail(bands);
      SweepPointwise(bands[1..], info', step);
      forall b | b in bands
        ensures Sweep(bands, info, step).0[b] == After(step, b, info[b])
      {
        if b != b0 {
          assert b in bands[1..];
        }
      }
    }
  }

  /** Request `k` of a sweep result names a band of the sweep whose step
      asked for a request, and carries the band's new level. */
  predicate RequestOk(r: (map<string, BandState>, seq<EqUpdate>), bands: seq<string>, info: map<string, BandState>,
                      step: (string, BandState) -> BandStep, k: int)
    requires 0 <= k < |r.1|
  {
    var e := r.1[k];
    && e.band in bands && e.band in info && e.band in r.0
    && step(e.band, info[e.band]).Stepped? && step(e.band, info[e.band]).send
    && e.level == r.0[e.band].level
  }

  /** Every request of a sweep carries the band's new level, and the band's
      step asked for it; and every band whose step asks gets its request. */
  lemma {:induction false} SweepRequests(bands: seq<string>, info: map<string, BandState>, step: (string, BandState) -> BandStep)
    requires forall b :: b in bands ==> b in info
    requires Distinct(bands)
    ensures forall k :: 0 <= k < |Sweep(bands, info, step).1| ==> RequestOk(Sweep(bands, info, step), bands, info, step, k)
    ensures forall b :: b in bands && step(b, info[b]).Stepped? && step(b, info[b]).send ==>
      EqUpdate(b, step(b, info[b]).state.level) in Sweep(bands, info, step).1
    decreases |bands|
  {
    SweepAsked(bands, info, step);
    forall b | b in bands && step(b, info[b]).Stepped? && step(b, info[b]).send
      ensures EqUpdate(b, step(b, info[b]).state.level) in Sweep(bands, info, step).1
    {
      AskedHas(bands, info, step, b);
    }
    if |bands| > 0 {
      var b0 := bands[0];
      var info' := info[b0 := After(step, b0, info[b0])];
      DistinctTail(bands);
      SweepRequests(bands[1..], info', step);
      SweepPointwise(bands[1..], info', step);
      var r := Sweep(bands, info, step);
      var rest := Sweep(bands[1..], info', step);
      var st := step(b0, info[b0]);
      var out := if st.Stepped? && st.send then [EqUpdate(b0, st.state.level)] else [];
      assert r.1 == out + rest.1 && r.0 == rest.0;
      forall k | 0 <= k < |r.1|
        ensures RequestOk(r, bands, info, step, k)
      {
        if k < |out| {
          assert r.1[k] == EqUpdate(b0, st.state.level);
          assert rest.0[b0] == info'[b0];
        } else {
          RequestFromRest(r, rest, out, bands, info, info', step, k);
        }
      }
    }
  }

  lemma SweepRequestAt(bands: seq<string>, info: map<string, BandState>, step: (string, BandState) -> BandStep, k: int)
    requires forall b :: b in bands ==> b in info
    requires Distinct(bands)
    requires 0 <= k < |Sweep(bands, info, step).1|
    ensures var e := Sweep(bands, info, step).1[k];
      && e.band in bands && step(e.band, info[e.band]).Stepped? && step(e.band, info[e.band]).send
      && e.level == step(e.band, info[e.band]).state.level
      && e.level == Sweep(bands, info, step).0[e.band].level
  {
    SweepRequests(bands, info, step);
    SweepPointwise(bands, info, step);
    assert RequestOk(Sweep(bands, info, step), bands, info, step, k);
  }

  lemma RequestFromRest(r: (map<string, BandState>, seq<EqUpdate>), rest: (map<string, BandState>, seq<EqUpdate>),
                        out: seq<EqUpdate>, bands: seq<string>, info: map<string, BandState>, info': map<string, BandState>,
                        step: (string, BandState) -> BandStep, k: int)
    requires |bands| > 0 && bands[0] !in bands[1..]
    requires r.1 == out + rest.1 && r.0 == rest.0
    requires |out| <= k < |r.1|
    requires RequestOk(rest, bands[1..], info', step, k - |out|)
    requires forall b :: b in bands ==> b in info
    requires forall b :: b in info && b != bands[0] ==> b in info' && info'[b] == info[b]
    ensures RequestOk(r, bands, info, step, k)
  {
    var e := rest.1[k - |out|];
    assert r.1[k] == e;
    assert e.band in bands && e.band != bands[0];
    assert info'[e.band] == info[e.band];
  }

  /** The requests a sweep ought to make, read off each band's own step
      from the starting states: one per band whose step asks for it, in
      band order. */
  function Asked(bands: seq<string>, info: map<string, BandState>, step: (string, BandState) -> BandStep): (r: seq<EqUpdate>)
    requires forall b :: b in bands ==> b in info
    ensures |r| <= |bands|
    decreases |bands|
  {
    if |bands| == 0 then []
    else
      var st := step(bands[0], info[bands[0]]);
      (if st.Stepped? && st.send then [EqUpdate(bands[0], st.state.level)] else []) + Asked(bands[1..], info, step)
  }

  /** Every band whose step asks for a request has it among the asked ones. */
  lemma {:induction false} AskedHas(bands: seq<string>, info: map<string, BandState>, step: (string, BandState) -> BandStep, b: string)
    requires forall b :: b in bands ==> b in info
    requires b in bands && step(b, info[b]).Stepped? && step(b, info[b]).send
    ensures EqUpdate(b, step(b, info[b]).state.level) in Asked(bands, info, step)
    decreases |bands|
  {
    var st := step(bands[0], info[bands[0]]);
    var out := if st.Stepped? && st.send then [EqUpdate(bands[0], st.state.level)] else [];
    assert Asked(bands, info, step) == out + Asked(bands[1..], info, step);
    if b == bands[0] {
      assert out[0] == EqUpdate(b, step(b, info[b]).state.level);
    } else {
      assert b in bands[1..];
      AskedHas(bands[1..], info, step, b);
    }
  }

  /** The asked requests depend only on the states of the swept bands. */
  lemma {:induction false} AskedFrame(bands: seq<string>, info: map<string, BandState>, info': map<string, BandState>,
                                      step: (string, BandState) -> BandStep)
    requires forall b :: b in bands ==> b in info && b in info' && info'[b] == info[b]
    ensures Asked(bands, info', step) == Asked(bands, info, step)
    decreases |bands|
  {
    if |bands| > 0 {
      assert forall b :: b in bands[1..] ==> b in bands;
      AskedFrame(bands[1..], info, info', step);
    }
  }

  /** A sweep over distinct bands makes exactly the asked requests, in band
      order: the state written for one band never changes another band's
      step. */
  lemma {:induction false} SweepAsked(bands: seq<string>, info: map<string, BandState>, step: (string, BandState) -> BandStep)
    requires forall b :: b in bands ==> b in info
    requires Distinct(bands)
    ensures Sweep(bands, info, step).1 == Asked(bands, info, step)
    decreases |bands|
  {
    if |bands| > 0 {
      var b0 := bands[0];
      var info' := info[b0 := After(step, b0, info[b0])];
      DistinctTail(bands);
      SweepAsked(bands[1..], info', step);
      AskedFrame(bands[1..], info, info', step);
    }
  }

  /** The band loop of `attnSlopeBased`, band by band in key order. */
  function Pass(c: Controller, table: seq<GeqBand>, reading: Reading, now: int): (r: (map<string, BandState>, seq<EqUpdate>))
    requires Valid(c)
  {
    Sweep(c.bands, c.info, StepFn(c.config, table, reading, now))
  }

  /** A pass keeps the controller valid and each band ends where its own
      step takes it. */
  lemma PassValid(c: Controller, table: seq<GeqBand>, reading: Reading, now: int)
    requires Valid(c)
    ensures var r := Pass(c, table, reading, now);
      && Valid(c.(info := r.0))
      && (forall b :: b in c.bands ==> r.0[b] == After(StepFn(c.config, table, reading, now), b, c.info[b]))
  {
    var step := StepFn(c.config, table, reading, now);
    SweepPointwise(c.bands, c.info, step);
    var r := Pass(c, table, reading, now);
    forall b | b in r.0
      ensures Floor <= r.0[b].level <= 0
    {
      assert b in c.bands;
      assert r.0[b] == After(step, b, c.info[b]);
    }
  }

  /** A request is made for a band exactly when its step ends at a level
      the device does not report, it carries that level, and the requests
      come in band order. */
  lemma PassRequests(c: Controller, table: seq<GeqBand>, reading: Reading, now: int)
    requires Valid(c)
    ensures var r := Pass(c, table, reading, now);
      forall k :: 0 <= k < |r.1| ==>
        && r.1[k].band in c.bands
        && r.1[k].level == r.0[r.1[k].band].level
        && DeviceLevel(table, BandNameToFrequency(BandId(r.1[k].band))) != Db(r.1[k].level)
    ensures var step := StepFn(c.config, table, reading, now); var r := Pass(c, table, reading, now);
      forall b :: b in c.bands ==>
        var st := step(b, c.info[b]);
        st.Stepped? && DeviceLevel(table, BandNameToFrequency(BandId(b))) != Db(st.state.level) ==>
        EqUpdate(b, r.0[b].level) in r.1
    ensures Pass(c, table, reading, now).1 == Asked(c.bands, c.info, StepFn(c.config, table, reading, now))
  {
    var step := StepFn(c.config, table, reading, now);
    var r := Pass(c, table, reading, now);
    assert r == Sweep(c.bands, c.info, step);
    SweepAsked(c.bands, c.info, step);
    SweepRequests(c.bands, c.info, step);
    SweepPointwise(c.bands, c.info, step);
    forall b | b in c.bands && step(b, c.info[b]).Stepped?
        && DeviceLevel(table, BandNameToFrequency(BandId(b))) != Db(step(b, c.info[b]).state.level)
      ensures EqUpdate(b, r.0[b].level) in r.1
    {
      StepFnApplies(c.config, table, reading, now, b, c.info[b]);
      assert step(b, c.info[b]).send;
      assert r.0[b] == step(b, c.info[b]).state;
    }
    forall k | 0 <= k < |r.1|
      ensures r.1[k].band in c.bands && r.1[k].level == r.0[r.1[k].band].level
      ensures DeviceLevel(table, BandNameToFrequency(BandId(r.1[k].band))) != Db(r.1[k].level)
    {
      SweepRequestAt(c.bands, c.info, step, k);
      RequestSent(c, table, reading, now, r.1[k].band, r.1[k].level);
    }
  }

  lemma RequestSent(c: Controller, table: seq<GeqBand>, reading: Reading, now: int, b: string, level: int)
    requires Valid(c) && b in c.bands
    requires var st := StepFn(c.config, table, reading, now)(b, c.info[b]);
      st.Stepped? && st.send && level == st.state.level
    ensures DeviceLevel(table, BandNameToFrequency(BandId(b))) != Db(level)
  {
    StepFnApplies(c.config, table, reading, now, b, c.info[b]);
  }

  /** A device update as `updateEQ` issues it: input channel 0, the band's
      frequency in Hz (`None` for `NaN`) and the level in dB. */
  datatype SetGeq = SetGeq(channel: int, frequency: Option<real>, level: real)

  /** The bands the device's GEQ does not have. */
  const Unavailable: seq<string> := ["A", "B", "C", "D"]

  /** `updateEQ` as written: the frequency is read from the band key after
      removing every `"Hz"` and writing every `k` as `"000"`, which is right
      for `"1kHz"` but reads `"1.25kHz"` as 1.25. */
  function UpdateEqAsWritten(band: string, level: int): (r: Option<SetGeq>)
    ensures r.None? <==> band in Unavailable
    ensures r.Some? ==> r.value.channel == 0 && r.value.level == Db(level)
  {
    if band in Unavailable then None
    else Some(SetGeq(0, ParseFloat(ReplaceAll(ReplaceAll(band, "Hz", ""), "k", "000")), Db(level)))
  }

  /** `updateEQ` with the frequency read the way the controller reads it
      when it looks the band up in the device's table. */
  function UpdateEq(band: string, level: int): (r: Option<SetGeq>)
    ensures r.None? <==> band in Unavailable
    ensures r.Some? ==> r.value.channel == 0 && r.value.level == Db(level)
    ensures r.Some? ==> r.value.frequency == BandNameToFrequency(BandId(band))
  {
    if band in Unavailable then None
    else Some(SetGeq(0, BandNameToFrequency(BandId(band)), Db(level)))
  }

  /** The band keys of the default configuration are not among the
      unavailable ones: a label ends in `"Hz"`. */
  lemma LabelAvailable(whole: string, frac: string, kilo: bool)
    ensures BandLabel(whole, frac, kilo) !in Unavailable
  {
    assert |BandLabel(whole, frac, kilo)| >= 2;
  }

  /** What `updateEQ` hands to `parseFloat` for a kilohertz label: every
      `k` written as `"000"` after the `"Hz"` is gone. */
  lemma AsWrittenKiloText(whole: string, frac: string)
    requires AllDigits(whole) && AllDigits(frac)
    ensures ReplaceAll(ReplaceAll(BandLabel(whole, frac, true), "Hz", ""), "k", "000") == whole + Fraction(frac, '.') + "000"
  {
    var y := whole + Fraction(frac, '.');
    DigitsOnly(whole, 'H');
    FractionChars(frac, '.', 'H');
    DropSuffix(y + "k", "Hz");
    DigitsOnly(whole, 'k');
    FractionChars(frac, '.', 'k');
    ReplaceAllSkipsPrefix(y, "k", "k", "000");
    assert StartsWith("k", "k");
    assert ReplaceAll("k"[1..], "k", "000") == "";
  }

  /** What `updateEQ` hands to `parseFloat` for a label without a `k`. */
  lemma AsWrittenText(whole: string, frac: string)
    requires AllDigits(whole) && AllDigits(frac)
    ensures ReplaceAll(ReplaceAll(BandLabel(whole, frac, false), "Hz", ""), "k", "000") == whole + Fraction(frac, '.')
  {
    var y := whole + Fraction(frac, '.');
    DigitsOnly(whole, 'H');
    FractionChars(frac, '.', 'H');
    assert BandLabel(whole, frac, false) == y + "Hz";
    DropSuffix(y, "Hz");
    DigitsOnly(whole, 'k');
    FractionChars(frac, '.', 'k');
  }

  /** `updateEQ` as written sends the frequency the controller looked up
      for every band whose label has no fractional kilohertz part. */
  lemma UpdateEqAgrees(whole: string, frac: string, kilo: bool, level: int)
    requires |whole| >= 1 && AllDigits(whole) && AllDigits(frac)
    requires !kilo || |frac| == 0
    ensures UpdateEqAsWritten(BandLabel(whole, frac, kilo), level) == UpdateEq(BandLabel(whole, frac, kilo), level)
    ensures UpdateEq(BandLabel(whole, frac, kilo), level).Some?
  {
    LabelAvailable(whole, frac, kilo);
    FrequencyOfLabel(whole, frac, kilo);
    if kilo {
      AsWrittenKilo(whole);
      assert frac == "";
    } else {
      AsWrittenPlain(whole, frac);
    }
  }

  /** `updateEQ` as written reads a whole kilohertz label right. */
  lemma AsWrittenKilo(whole: string)
    requires |whole| >= 1 && AllDigits(whole)
    ensures ParseFloat(ReplaceAll(ReplaceAll(BandLabel(whole, "", true), "Hz", ""), "k", "000"))
         == Some(LabelFrequency(whole, "", true))
  {
    AsWrittenKiloText(whole, "");
    assert whole + Fraction("", '.') + "000" == whole + "000";
    ParseDigitsThousand(whole);
    ParseFloatWhole(whole + "000", "");
    assert whole + "000" + "" == whole + "000";
    KiloWhole(whole);
  }

  /** `updateEQ` as written reads a hertz label right. */
  lemma AsWrittenPlain(whole: string, frac: string)
    requires |whole| >= 1 && AllDigits(whole) && AllDigits(frac)
    ensures ParseFloat(ReplaceAll(ReplaceAll(BandLabel(whole, frac, false), "Hz", ""), "k", "000"))
         == Some(LabelFrequency(whole, frac, false))
  {
    AsWrittenText(whole, frac);
    ParseFraction(whole, frac);
  }

  lemma KiloWhole(whole: string)
    requires |whole| >= 1 && AllDigits(whole)
    ensures AllDigits(whole + "000")
    ensures (ParseDigits(whole) * 1000) as real == LabelFrequency(whole, "", true)
  {
    ParseDigitsThousand(whole);
  }

  /** The discrepancy: for a label with a fractional kilohertz part,
      `updateEQ` as written sends the frequency in kHz where the device's
      table (and the controller) has it in Hz, a thousandth of it. */
  lemma UpdateEqAsWrittenKilo(whole: string, frac: string, level: int)
    requires |whole| >= 1 && AllDigits(whole) && AllDigits(frac) && |frac| > 0
    ensures UpdateEqAsWritten(BandLabel(whole, frac, true), level) == Some(SetGeq(0, Some(LabelFrequency(whole, frac, false)), Db(level)))
    ensures UpdateEq(BandLabel(whole, frac, true), level) == Some(SetGeq(0, Some(LabelFrequency(whole, frac, true)), Db(level)))
  {
    var name := BandLabel(whole, frac, true);
    LabelAvailable(whole, frac, true);
    AsWrittenKiloParse(whole, frac);
    AsWrittenFrequency(name, level, LabelFrequency(whole, frac, false));
    FrequencyOfLabel(whole, frac, true);
    CorrectedFrequency(name, level, LabelFrequency(whole, frac, true));
  }

  lemma AsWrittenFrequency(band: string, level: int, v: real)
    requires band !in Unavailable
    requires ParseFloat(ReplaceAll(ReplaceAll(band, "Hz", ""), "k", "000")) == Some(v)
    ensures UpdateEqAsWritten(band, level) == Some(SetGeq(0, Some(v), Db(level)))
  {
  }

  lemma CorrectedFrequency(band: string, level: int, v: real)
    requires band !in Unavailable
    requires BandNameToFrequency(BandId(band)) == Some(v)
    ensures UpdateEq(band, level) == Some(SetGeq(0, Some(v), Db(level)))
  {
  }

  lemma AsWrittenKiloParse(whole: string, frac: string)
    requires |whole| >= 1 && AllDigits(whole) && AllDigits(frac) && |frac| > 0
    ensures ParseFloat(ReplaceAll(ReplaceAll(BandLabel(whole, frac, true), "Hz", ""), "k", "000")) == Some(LabelFrequency(whole, frac, false))
  {
    AsWrittenKiloText(whole, frac);
    DecimalTrailingZeros(whole, frac);
    ParseFloatDecimal(whole, frac + "000", "");
    KiloTextShape(whole, frac);
  }

  /** A `k` in the label scales its frequency by a thousand. */
  lemma LabelFrequencyKilo(whole: string, frac: string)
    requires AllDigits(whole) && AllDigits(frac)
    ensures LabelFrequency(whole, frac, true) == LabelFrequency(whole, frac, false) * 1000.0
  {
  }

  lemma KiloTextShape(whole: string, frac: string)
    requires |frac| > 0
    ensures whole + "." + (frac + "000") + "" == whole + Fraction(frac, '.') + "000"
  {
    assert Fraction(frac, '.') == "." + frac;
  }

  /** The 1.25 kHz band of the default configuration is set at 1.25 Hz. */
  lemma UpdateEqExample(level: int)
    ensures UpdateEqAsWritten("1.25kHz", level) == Some(SetGeq(0, Some(1.25), Db(level)))
    ensures UpdateEq("1.25kHz", level) == Some(SetGeq(0, Some(1250.0), Db(level)))
  {
    assert BandLabel("1", "25", true) == "1.25kHz";
    UpdateEqAsWrittenKilo("1", "25", level);
    LabelValues();
  }

  lemma LabelValues()
    ensures LabelFrequency("1", "25", false) == 1.25
    ensures LabelFrequency("1", "25", true) == 1250.0
  {
    assert ParseDigits("1") == 1 && ParseDigits("25") == 25 && Pow10(2) == 100;
  }

  /** The device updates of a pass, in order; bands the GEQ lacks are dropped. */
  function Requests(updates: seq<EqUpdate>): (r: seq<SetGeq>)
    ensures |r| <= |updates|
    ensures (forall k :: 0 <= k < |updates| ==> updates[k].band !in Unavailable) ==>
      && |r| == |updates|
      && forall k :: 0 <= k < |r| ==> Some(r[k]) == UpdateEq(updates[k].band, updates[k].level)
    ensures (forall k :: 0 <= k < |updates| ==> updates[k].band in Unavailable) ==> r == []
  {
    if |updates| == 0 then []
    else
      var rest := Requests(updates[1..]);
      var r := RequestOf(updates[0]) + rest;
      RequestsStep(updates, updates[1..], rest, r, (u: EqUpdate) => u.band !in Unavailable,
                   (u: EqUpdate) => UpdateEq(u.band, u.level));
      r
  }

  /** One element in front: a list that keeps an element exactly when it
      passes `ok`, as its image under `f`, keeps the lengths and images. */
  lemma RequestsStep<T, U>(xs: seq<T>, rest: seq<T>, rs: seq<U>, r: seq<U>, ok: T -> bool, f: T -> Option<U>)
    requires |xs| > 0 && rest == xs[1..]
    requires |r| == |rs| + 1 || r == rs
    requires |r| == |rs| + 1 ==> ok(xs[0]) && Some(r[0]) == f(xs[0]) && r[1..] == rs
    requires r == rs ==> !ok(xs[0])
    requires |rs| <= |rest|
    requires (forall k :: 0 <= k < |rest| ==> ok(rest[k])) ==>
      |rs| == |rest| && forall k :: 0 <= k < |rs| ==> Some(rs[k]) == f(rest[k])
    requires (forall k :: 0 <= k < |rest| ==> !ok(rest[k])) ==> rs == []
    ensures |r| <= |xs|
    ensures (forall k :: 0 <= k < |xs| ==> ok(xs[k])) ==>
      |r| == |xs| && forall k :: 0 <= k < |r| ==> Some(r[k]) == f(xs[k])
    ensures (forall k :: 0 <= k < |xs| ==> !ok(xs[k])) ==> r == []
  {
    assert forall k :: 1 <= k < |xs| ==> xs[k] == rest[k - 1];
    if forall k :: 0 <= k < |xs| ==> ok(xs[k]) {
      assert ok(xs[0]) && forall k :: 0 <= k < |rest| ==> ok(rest[k]);
      assert forall k :: 1 <= k < |r| ==> r[k] == rs[k - 1];
    }
    if forall k :: 0 <= k < |xs| ==> !ok(xs[k]) {
      assert !ok(xs[0]) && forall k :: 0 <= k < |rest| ==> !ok(rest[k]);
    }
  }

  /** The device update of one request, if the GEQ has the band. */
  function RequestOf(u: EqUpdate): (r: seq<SetGeq>)
    ensures |r| <= 1 && (|r| == 1 <==> u.band !in Unavailable)
  {
    match UpdateEq(u.band, u.level)
    case None => []
    case Some(q) => [q]
  }

  lemma RequestsUnfold(updates: seq<EqUpdate>, rest: seq<EqUpdate>)
    requires |updates| > 0 && rest == updates[1..]
    ensures Requests(updates) == RequestOf(updates[0]) + Requests(rest)
  {
  }

  /** The requests follow the updates: those of a concatenation are the
      requests of the first part followed by those of the second. */
  lemma {:induction false} RequestsAppend(a: seq<EqUpdate>, b: seq<EqUpdate>)
    ensures Requests(a + b) == Requests(a) + Requests(b)
    decreases |a|
  {
    if |a| == 0 {
      assert a + b == b;
    } else {
      var ab := a + b;
      assert ab[0] == a[0] && ab[1..] == a[1..] + b;
      RequestsUnfold(ab, a[1..] + b);
      RequestsUnfold(a, a[1..]);
      RequestsAppend(a[1..], b);
      PrependBoth(RequestOf(a[0]), Requests(a[1..]), Requests(b), Requests(a[1..] + b), false);
    }
  }

  /** The result of `updateAttenuation`: `Failed` when no pass completes
      (the algorithm name names no algorithm, and the call rejects; or the
      device query fails, and the pass is abandoned without a change while
      the call itself resolves, since it does not wait for the algorithm),
      or the controller after the pass and the device updates it issued. */
  datatype PassResult = Failed | Done(controller: Controller, requests: seq<SetGeq>)

  /** `updateAttenuation`: runs the chosen algorithm on one reading. `table`
      is the device's answer to the GEQ query, `None` when the query failed;
      `now` is the wall clock. */
  function UpdateAttenuation(c: Controller, table: Option<seq<GeqBand>>, reading: Reading, now: int): (r: PassResult)
    requires Valid(c)
    ensures r.Failed? <==> c.algorithm.None? || (c.algorithm == Some(SlopeBased) && table.None?)
    ensures c.algorithm == Some(Noop) ==> r == Done(c, [])
    ensures r.Done? ==> Valid(r.controller) && r.controller.(info := c.info) == c
    ensures c.algorithm == Some(SlopeBased) && table.Some? ==>
      var p := Pass(c, table.value, reading, now);
      r == Done(c.(info := p.0), Requests(p.1))
    ensures c.algorithm == Some(SlopeBased) && table.Some? ==>
      var step := StepFn(c.config, table.value, reading, now);
      && r.Done? && r.requests == Requests(Asked(c.bands, c.info, step))
      && forall b :: b in c.bands ==> r.controller.info[b] == After(step, b, c.info[b])
  {
    match c.algorithm
    case None => Failed
    case Some(Noop) => Done(c, [])
    case Some(SlopeBased) =>
      match table
      case None => Failed
      case Some(t) =>
        PassValid(c, t, reading, now);
        PassRequests(c, t, reading, now);
        var p := Pass(c, t, reading, now);
        Done(c.(info := p.0), Requests(p.1))
  }
}
