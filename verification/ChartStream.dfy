/**
 One streaming pass that turns sampled rows into chart series.

 An `Observation` is one usable value of one series specification in one row.
 The dictionaries of the pass are specified from the list of observations made
 so far; the formula of a point is stated against the latest earlier observation
 of the same specification and dimensions.
 */
module ChartStream {
  import opened Prelude

  /** A row field: str(value), whether it is truthy, and its finite float if it has one. */
  datatype Value = Null | Field(text: string, truthy: bool, number: Option<real>)

  /** A row, with nested paths as keys. */
  type Row = map<string, Value>

  function Nested(row: Row, ref: string): Value {
    if ref in row then row[ref] else Null
  }

  function Number(v: Value): Option<real> {
    if v.Field? then v.number else None
  }

  function TextOrEmpty(v: Value): string {
    if v.Field? && v.truthy then v.text else ""
  }

  datatype Transform = Gauge | Rate | Delta | Ratio

  datatype Spec = Spec(
    name: string, valueRef: string, nameFromRef: Option<string>, denominatorRef: string,
    transform: Transform, epochRefs: seq<string>, scale: real)

  datatype Metric = Metric(partitionBy: seq<string>, series: seq<Spec>)

  datatype Sample = Sample(timestamp: string, monotonic: real, rows: seq<Row>)

  /** What the previous-value dictionaries are keyed by. */
  datatype SeriesId = SeriesId(spec: nat, dims: seq<string>)

  /** What the output series are keyed by. */
  datatype Key = Key(name: string, dims: seq<string>)

  datatype Observation = Observation(
    sample: nat, timestamp: string, monotonic: real, id: SeriesId, key: Key,
    numeric: real, denominator: real, epoch: seq<Value>)

  datatype Point = Point(t: string, value: Option<real>)

  // ---- the observations of the samples ----

  function Dimensions(partitionBy: seq<string>, row: Row): (dims: seq<string>)
    ensures |dims| == |partitionBy|
  {
    seq(|partitionBy|, i requires 0 <= i < |partitionBy| => TextOrEmpty(Nested(row, partitionBy[i])))
  }

  function Label(dims: seq<string>): string {
    if dims == [] then ""
    else
      var rest := Label(dims[1..]);
      if dims[0] == "" then rest
      else if rest == "" then dims[0]
      else dims[0] + ", " + rest
  }

  /** The name the specification gives to its series. */
  function SpecName(spec: Spec): string {
    if spec.name != "" then spec.name
    else if spec.nameFromRef.Some? && spec.nameFromRef.value != "" then spec.nameFromRef.value
    else if spec.valueRef != "" then spec.valueRef
    else "series"
  }

  /** A missing or falsy value of the row leaves the name of the specification. */
  function SeriesName(spec: Spec, row: Row, dims: seq<string>): string {
    var ref := if spec.nameFromRef.Some? then spec.nameFromRef.value else "";
    var named := Nested(row, ref);
    var base := if ref != "" && named.Field? && named.truthy then named.text else SpecName(spec);
    if Label(dims) == "" then base else base + " (" + Label(dims) + ")"
  }

  function Epoch(spec: Spec, row: Row): (epoch: seq<Value>)
    ensures |epoch| == |spec.epochRefs|
  {
    seq(|spec.epochRefs|, i requires 0 <= i < |spec.epochRefs| => Nested(row, spec.epochRefs[i]))
  }

  /** The observation that specification j makes of a row, unless a number is missing. */
  function Observe(metric: Metric, index: nat, sample: Sample, row: Row, j: nat): Option<Observation>
    requires j < |metric.series|
  {
    var spec := metric.series[j];
    var numeric := Number(Nested(row, spec.valueRef));
    var denominator := Number(Nested(row, spec.denominatorRef));
    var dims := Dimensions(metric.partitionBy, row);
    if numeric.None? || (spec.transform == Ratio && denominator.None?) then None
    else Some(Observation(
      index, sample.timestamp, sample.monotonic, SeriesId(j, dims), Key(SeriesName(spec, row, dims), dims),
      numeric.value, if spec.transform == Ratio then denominator.value else 0.0, Epoch(spec, row)))
  }

  function ObservedInRow(metric: Metric, index: nat, sample: Sample, row: Row, specs: nat): seq<Observation>
    requires specs <= |metric.series|
  {
    if specs == 0 then []
    else
      var o := Observe(metric, index, sample, row, specs - 1);
      ObservedInRow(metric, index, sample, row, specs - 1) + if o.Some? then [o.value] else []
  }

  function ObservedInSample(metric: Metric, index: nat, sample: Sample, rows: nat): seq<Observation>
    requires rows <= |sample.rows|
  {
    if rows == 0 then []
    else
      ObservedInSample(metric, index, sample, rows - 1)
      + ObservedInRow(metric, index, sample, sample.rows[rows - 1], |metric.series|)
  }

  function Observed(metric: Metric, samples: seq<Sample>, n: nat): seq<Observation>
    requires n <= |samples|
  {
    if n == 0 then []
    else Observed(metric, samples, n - 1) + ObservedInSample(metric, n - 1, samples[n - 1], |samples[n - 1].rows|)
  }

  // ---- the value of a point ----

  /** The latest observation of a specification and dimensions. */
  function Latest(done: seq<Observation>, id: SeriesId): Option<Observation> {
    if done == [] then None
    else if done[|done| - 1].id == id then Some(done[|done| - 1])
    else Latest(done[..|done| - 1], id)
  }

  /** The counters did not fall and the epoch is the same. */
  predicate Continues(spec: Spec, old': Observation, now: Observation) {
    old'.numeric <= now.numeric && old'.epoch == now.epoch
    && (spec.transform == Ratio ==> old'.denominator < now.denominator)
  }

  /** The point value a specification defines against the latest earlier observation. */
  function PointValue(spec: Spec, old': Option<Observation>, now: Observation): Option<real> {
    match spec.transform
    case Gauge => Some(now.numeric)
    case Rate =>
      if old'.Some? && Continues(spec, old'.value, now)
      then Some((now.numeric - old'.value.numeric) / Max(now.monotonic - old'.value.monotonic, 0.001)) else None
    case Delta =>
      if old'.Some? && Continues(spec, old'.value, now) then Some(now.numeric - old'.value.numeric) else None
    case Ratio =>
      if old'.Some? && Continues(spec, old'.value, now)
      then Some(Quotient(now.numeric - old'.value.numeric, now.denominator - old'.value.denominator, spec.scale))
      else None
  }

  function Quotient(delta: real, denominatorDelta: real, scale: real): real
    requires denominatorDelta > 0.0
  {
    delta / denominatorDelta * scale
  }

  ghost predicate InSpecs(specs: seq<Spec>, all: seq<Observation>) {
    forall k :: 0 <= k < |all| ==> all[k].id.spec < |specs|
  }

  function ValueAt(specs: seq<Spec>, all: seq<Observation>, k: nat): Option<real>
    requires k < |all| && all[k].id.spec < |specs|
  {
    PointValue(specs[all[k].id.spec], Latest(all[..k], all[k].id), all[k])
  }

  // ---- the dictionaries of the pass ----

  /** The points appended to a series so far. */
  function PointsOf(specs: seq<Spec>, done: seq<Observation>, key: Key): seq<Point>
    requires InSpecs(specs, done)
  {
    if done == [] then []
    else
      var n := |done| - 1;
      PointsOf(specs, done[..n], key)
      + if done[n].key == key then [Point(done[n].timestamp, ValueAt(specs, done, n))] else []
  }

  /** The series in the order they were first seen. */
  function OrderOf(done: seq<Observation>): seq<Key> {
    if done == [] then []
    else
      var before := OrderOf(done[..|done| - 1]);
      if done[|done| - 1].key in before then before else before + [done[|done| - 1].key]
  }

  datatype Previous = Previous(numeric: real, monotonic: real, epoch: seq<Value>)

  datatype PreviousRatio = PreviousRatio(numeric: real, denominator: real, monotonic: real, epoch: seq<Value>)

  datatype Pass = Pass(
    previous: map<SeriesId, Previous>,
    previousRatios: map<SeriesId, PreviousRatio>,
    order: seq<Key>,
    points: map<Key, seq<Point>>,
    active: seq<set<Key>>)

  predicate IsCounter(specs: seq<Spec>, id: SeriesId) {
    id.spec < |specs| && (specs[id.spec].transform == Rate || specs[id.spec].transform == Delta)
  }

  predicate IsRatio(specs: seq<Spec>, id: SeriesId) {
    id.spec < |specs| && specs[id.spec].transform == Ratio
  }

  ghost predicate PreviousAgree(specs: seq<Spec>, done: seq<Observation>, previous: map<SeriesId, Previous>) {
    forall id :: (id in previous <==> IsCounter(specs, id) && Latest(done, id).Some?)
      && (id in previous ==>
            var o := Latest(done, id).value; previous[id] == Previous(o.numeric, o.monotonic, o.epoch))
  }

  ghost predicate RatiosAgree(specs: seq<Spec>, done: seq<Observation>, ratios: map<SeriesId, PreviousRatio>) {
    forall id :: (id in ratios <==> IsRatio(specs, id) && Latest(done, id).Some?)
      && (id in ratios ==>
            var o := Latest(done, id).value;
            ratios[id] == PreviousRatio(o.numeric, o.denominator, o.monotonic, o.epoch))
  }

  ghost predicate PointsAgree(specs: seq<Spec>, done: seq<Observation>, order: seq<Key>, points: map<Key, seq<Point>>)
    requires InSpecs(specs, done)
  {
    && order == OrderOf(done) && points.Keys == set key | key in order
    && forall key :: key in points ==> points[key] == PointsOf(specs, done, key)
  }

  ghost predicate ActiveAgree(done: seq<Observation>, active: seq<set<Key>>) {
    && (forall k :: 0 <= k < |done| ==> done[k].sample < |active| && done[k].key in active[done[k].sample])
    && (forall i, key :: 0 <= i < |active| && key in active[i] ==>
          exists k :: 0 <= k < |done| && done[k].sample == i && done[k].key == key)
  }

  /** The dictionaries after a list of observations. */
  ghost predicate PassOf(specs: seq<Spec>, done: seq<Observation>, pass: Pass) {
    && InSpecs(specs, done)
    && PreviousAgree(specs, done, pass.previous) && RatiosAgree(specs, done, pass.previousRatios)
    && PointsAgree(specs, done, pass.order, pass.points) && ActiveAgree(done, pass.active)
  }

  // ---- the pass ----

  /** rate and delta: look up, replace, compare. */
  method CounterValue(specs: seq<Spec>, previous: map<SeriesId, Previous>, o: Observation, ghost done: seq<Observation>)
    returns (value: Option<real>, next: map<SeriesId, Previous>)
    requires IsCounter(specs, o.id) && PreviousAgree(specs, done, previous)
    ensures value == PointValue(specs[o.id.spec], Latest(done, o.id), o)
    ensures PreviousAgree(specs, done + [o], next)
  {
    assert (done + [o])[..|done|] == done;
    next := previous[o.id := Previous(o.numeric, o.monotonic, o.epoch)];
    if o.id !in previous || o.numeric < previous[o.id].numeric || o.epoch != previous[o.id].epoch {
      value := None;
    } else {
      var delta := o.numeric - previous[o.id].numeric;
      value := Some(
        if specs[o.id.spec].transform == Rate then delta / Max(o.monotonic - previous[o.id].monotonic, 0.001)
        else delta);
    }
  }

  /** ratio_of_deltas: a separate test for a denominator that did not grow. */
  method RatioValue(
      specs: seq<Spec>, ratios: map<SeriesId, PreviousRatio>, o: Observation, ghost done: seq<Observation>)
    returns (value: Option<real>, next: map<SeriesId, PreviousRatio>)
    requires IsRatio(specs, o.id) && RatiosAgree(specs, done, ratios)
    ensures value == PointValue(specs[o.id.spec], Latest(done, o.id), o)
    ensures RatiosAgree(specs, done + [o], next)
  {
    assert (done + [o])[..|done|] == done;
    next := ratios[o.id := PreviousRatio(o.numeric, o.denominator, o.monotonic, o.epoch)];
    if o.id !in ratios || o.numeric < ratios[o.id].numeric || o.denominator < ratios[o.id].denominator
       || o.epoch != ratios[o.id].epoch {
      value := None;
    } else {
      var old' := ratios[o.id];
      var denominatorDelta := o.denominator - old'.denominator;
      value := if denominatorDelta > 0.0
        then Some(Quotient(o.numeric - old'.numeric, denominatorDelta, specs[o.id.spec].scale)) else None;
    }
  }

  /** An observation of another kind leaves a previous-value dictionary alone. */
  lemma PreviousUntouched(specs: seq<Spec>, done: seq<Observation>, previous: map<SeriesId, Previous>, o: Observation)
    requires PreviousAgree(specs, done, previous) && !IsCounter(specs, o.id)
    ensures PreviousAgree(specs, done + [o], previous)
  {
    assert (done + [o])[..|done|] == done;
  }

  lemma RatiosUntouched(specs: seq<Spec>, done: seq<Observation>, ratios: map<SeriesId, PreviousRatio>, o: Observation)
    requires RatiosAgree(specs, done, ratios) && !IsRatio(specs, o.id)
    ensures RatiosAgree(specs, done + [o], ratios)
  {
    assert (done + [o])[..|done|] == done;
  }

  /** grouped.setdefault(key, ...)["points"].append(...) */
  method AppendPoint(specs: seq<Spec>, order: seq<Key>, points: map<Key, seq<Point>>, o: Observation,
                     value: Option<real>, ghost done: seq<Observation>)
    returns (order': seq<Key>, points': map<Key, seq<Point>>)
    requires InSpecs(specs, done) && o.id.spec < |specs| && PointsAgree(specs, done, order, points)
    requires value == PointValue(specs[o.id.spec], Latest(done, o.id), o)
    ensures InSpecs(specs, done + [o]) && PointsAgree(specs, done + [o], order', points')
  {
    ghost var all := done + [o];
    assert all[..|done|] == done;
    order', points' := order, points;
    if o.key !in points' {
      order' := order' + [o.key];
      points' := points'[o.key := []];
      FreshSeries(specs, done, o.key);
    }
    points' := points'[o.key := points'[o.key] + [Point(o.timestamp, value)]];
    assert ValueAt(specs, all, |done|) == value;
    assert o.key in order';
  }

  lemma {:induction false} FreshSeries(specs: seq<Spec>, done: seq<Observation>, key: Key)
    requires InSpecs(specs, done) && key !in OrderOf(done)
    ensures PointsOf(specs, done, key) == []
  {
    if done != [] {
      FreshSeries(specs, done[..|done| - 1], key);
    }
  }

  method MarkActive(active: seq<set<Key>>, o: Observation, ghost done: seq<Observation>)
    returns (active': seq<set<Key>>)
    requires ActiveAgree(done, active) && o.sample < |active|
    ensures |active'| == |active| && ActiveAgree(done + [o], active')
  {
    ghost var all := done + [o];
    active' := active[o.sample := active[o.sample] + {o.key}];
    forall i, key | 0 <= i < |active'| && key in active'[i]
      ensures exists k :: 0 <= k < |all| && all[k].sample == i && all[k].key == key
    {
      if key in active[i] {
        var k :| 0 <= k < |done| && done[k].sample == i && done[k].key == key;
        assert all[k] == done[k];
      } else {
        assert all[|done|].sample == i && all[|done|].key == key;
      }
    }
  }

  /** The innermost loop body for one usable value. */
  method ObserveOne(specs: seq<Spec>, pass: Pass, o: Observation, ghost done: seq<Observation>) returns (next: Pass)
    requires PassOf(specs, done, pass) && o.id.spec < |specs| && o.sample < |pass.active|
    ensures PassOf(specs, done + [o], next) && |next.active| == |pass.active|
  {
    var value, previous, ratios := Some(o.numeric), pass.previous, pass.previousRatios;
    if specs[o.id.spec].transform == Ratio {
      value, ratios := RatioValue(specs, ratios, o, done);
      PreviousUntouched(specs, done, previous, o);
    } else if specs[o.id.spec].transform == Rate || specs[o.id.spec].transform == Delta {
      value, previous := CounterValue(specs, previous, o, done);
      RatiosUntouched(specs, done, ratios, o);
    } else {
      PreviousUntouched(specs, done, previous, o);
      RatiosUntouched(specs, done, ratios, o);
    }
    var active := MarkActive(pass.active, o, done);
    var order, points := AppendPoint(specs, pass.order, pass.points, o, value, done);
    next := Pass(previous, ratios, order, points, active);
  }

  lemma {:induction false} ObservedRowIds(metric: Metric, index: nat, sample: Sample, row: Row, specs: nat)
    requires specs <= |metric.series|
    ensures forall o :: o in ObservedInRow(metric, index, sample, row, specs) ==>
              o.id.spec < |metric.series| && o.sample == index && o.timestamp == sample.timestamp
  {
    if specs > 0 {
      ObservedRowIds(metric, index, sample, row, specs - 1);
    }
  }

  /** The empty dictionaries before the first sample. */
  function EmptyPass(samples: nat): (pass: Pass)
    ensures |pass.active| == samples && PassOf([], [], pass)
  {
    Pass(map[], map[], [], map[], seq(samples, _ => {}))
  }

  lemma EmptyPassFits(specs: seq<Spec>, samples: nat)
    ensures PassOf(specs, [], EmptyPass(samples))
  {
  }

  /** The whole triple loop over samples, rows and series specifications. */
  method Stream(metric: Metric, samples: seq<Sample>) returns (pass: Pass)
    ensures |pass.active| == |samples|
    ensures PassOf(metric.series, Observed(metric, samples, |samples|), pass)
  {
    pass := EmptyPass(|samples|);
    EmptyPassFits(metric.series, |samples|);
    for i := 0 to |samples|
      invariant |pass.active| == |samples|
      invariant PassOf(metric.series, Observed(metric, samples, i), pass)
    {
      ghost var done := Observed(metric, samples, i);
      pass := StreamSample(metric, i, samples[i], pass, done);
    }
  }

  lemma NextRow(metric: Metric, i: nat, sample: Sample, r: nat, before: seq<Observation>)
    requires r < |sample.rows|
    ensures before + ObservedInSample(metric, i, sample, r)
            + ObservedInRow(metric, i, sample, sample.rows[r], |metric.series|)
         == before + ObservedInSample(metric, i, sample, r + 1)
  {
  }

  lemma NextSpec(metric: Metric, i: nat, sample: Sample, row: Row, j: nat, before: seq<Observation>)
    requires j < |metric.series|
    ensures var o := Observe(metric, i, sample, row, j);
            before + ObservedInRow(metric, i, sample, row, j + 1)
            == before + ObservedInRow(metric, i, sample, row, j) + (if o.Some? then [o.value] else [])
  {
  }

  method StreamSample(metric: Metric, i: nat, sample: Sample, pass: Pass, ghost before: seq<Observation>)
    returns (next: Pass)
    requires i < |pass.active| && PassOf(metric.series, before, pass)
    ensures |next.active| == |pass.active|
    ensures PassOf(metric.series, before + ObservedInSample(metric, i, sample, |sample.rows|), next)
  {
    next := pass;
    assert before + [] == before;
    for r := 0 to |sample.rows|
      invariant |next.active| == |pass.active|
      invariant PassOf(metric.series, before + ObservedInSample(metric, i, sample, r), next)
    {
      next := StreamRow(metric, i, sample, sample.rows[r], next, before + ObservedInSample(metric, i, sample, r));
      NextRow(metric, i, sample, r, before);
    }
  }

  method StreamRow(metric: Metric, i: nat, sample: Sample, row: Row, pass: Pass, ghost before: seq<Observation>)
    returns (next: Pass)
    requires i < |pass.active| && PassOf(metric.series, before, pass)
    ensures |next.active| == |pass.active|
    ensures PassOf(metric.series, before + ObservedInRow(metric, i, sample, row, |metric.series|), next)
  {
    next := pass;
    assert before + [] == before;
    for j := 0 to |metric.series|
      invariant |next.active| == |pass.active|
      invariant PassOf(metric.series, before + ObservedInRow(metric, i, sample, row, j), next)
    {
      next := StreamSpec(metric, i, sample, row, j, next, before + ObservedInRow(metric, i, sample, row, j));
      NextSpec(metric, i, sample, row, j, before);
    }
  }

  method StreamSpec(metric: Metric, i: nat, sample: Sample, row: Row, j: nat, pass: Pass, ghost done: seq<Observation>)
    returns (next: Pass)
    requires i < |pass.active| && j < |metric.series| && PassOf(metric.series, done, pass)
    ensures |next.active| == |pass.active|
    ensures var o := Observe(metric, i, sample, row, j);
            PassOf(metric.series, done + (if o.Some? then [o.value] else []), next)
  {
    next := pass;
    var o := Observe(metric, i, sample, row, j);
    if o.Some? {
      next := ObserveOne(metric.series, next, o.value, done);
    } else {
      assert done + [] == done;
    }
  }
}
