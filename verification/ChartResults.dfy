/**
 build_chart_result: the stream, aligned to the timeline, with coverage.

 The theorems read a point off the samples: which observation it shows, when it
 is a gap, and what the deltas of a stretch add up to.
 */
module ChartResults {
  import opened Prelude
  import opened ChartStream
  import opened ChartCoverage

  datatype Series = Series(key: Key, points: seq<Point>)

  datatype ChartResult = ChartResult(sampleCount: nat, seriesCount: nat, series: seq<Series>, coverage: Coverage)

  /** points_by_time.get(t): the last point written for t, if any. */
  function LookUp(points: seq<Point>, t: string): Option<real> {
    if points == [] then None
    else if points[|points| - 1].t == t then points[|points| - 1].value
    else LookUp(points[..|points| - 1], t)
  }

  function Timeline(samples: seq<Sample>): (timeline: seq<string>)
    ensures |timeline| == |samples|
    ensures forall i :: 0 <= i < |samples| ==> timeline[i] == samples[i].timestamp
  {
    seq(|samples|, i requires 0 <= i < |samples| => samples[i].timestamp)
  }

  function Align(points: seq<Point>, timeline: seq<string>): (aligned: seq<Point>)
    ensures |aligned| == |timeline|
    ensures forall i :: 0 <= i < |timeline| ==> aligned[i] == Point(timeline[i], LookUp(points, timeline[i]))
  {
    seq(|timeline|, i requires 0 <= i < |timeline| => Point(timeline[i], LookUp(points, timeline[i])))
  }

  predicate HasValue(points: seq<Point>) {
    exists i :: 0 <= i < |points| && points[i].value.Some?
  }

  /** The series of a list of keys that show at least one value, in order. */
  function Kept(specs: seq<Spec>, all: seq<Observation>, timeline: seq<string>, order: seq<Key>): seq<Series>
    requires forall k :: 0 <= k < |all| ==> all[k].id.spec < |specs|
  {
    if order == [] then []
    else
      var key := order[|order| - 1];
      var points := Align(PointsOf(specs, all, key), timeline);
      Kept(specs, all, timeline, order[..|order| - 1]) + if HasValue(points) then [Series(key, points)] else []
  }

  /** dict comprehension over the points, then one lookup per timestamp. */
  method AlignPoints(points: seq<Point>, timeline: seq<string>) returns (aligned: seq<Point>, any: bool)
    ensures aligned == Align(points, timeline) && any == HasValue(aligned)
  {
    var byTime: map<string, Option<real>> := map[];
    for i := 0 to |points|
      invariant forall t :: (t in byTime ==> byTime[t] == LookUp(points[..i], t))
                         && (t !in byTime ==> LookUp(points[..i], t) == None)
    {
      byTime := byTime[points[i].t := points[i].value];
      assert points[..i + 1][..i] == points[..i];
    }
    assert points[..|points|] == points;
    aligned, any := [], false;
    for i := 0 to |timeline|
      invariant |aligned| == i
      invariant forall j :: 0 <= j < i ==> aligned[j] == Point(timeline[j], LookUp(points, timeline[j]))
      invariant any == HasValue(aligned)
    {
      var t := timeline[i];
      var value := if t in byTime then byTime[t] else None;
      ghost var before := aligned;
      aligned := aligned + [Point(t, value)];
      any := any || value.Some?;
      HasValueStep(before, Point(t, value));
    }
  }

  lemma HasValueStep(points: seq<Point>, point: Point)
    ensures HasValue(points + [point]) <==> HasValue(points) || point.value.Some?
  {
    var longer := points + [point];
    assert longer[|points|] == point;
    if HasValue(points) {
      var i :| 0 <= i < |points| && points[i].value.Some?;
      assert longer[i] == points[i];
    }
  }

  ghost predicate ResultOf(metric: Metric, samples: seq<Sample>, result: ChartResult) {
    var all := Observed(metric, samples, |samples|);
    && InSpecs(metric.series, all)
    && result.sampleCount == |samples| && result.seriesCount == |result.series|
    && result.series == Kept(metric.series, all, Timeline(samples), OrderOf(all))
    && exists active :: |active| == |samples| && ActiveAgree(all, active) && result.coverage == CoverageOf(active)
  }

  /** build_chart_result */
  method BuildChartResult(metric: Metric, samples: seq<Sample>) returns (result: ChartResult)
    ensures ResultOf(metric, samples, result)
  {
    var timeline := Timeline(samples);
    var pass := Stream(metric, samples);
    ghost var all := Observed(metric, samples, |samples|);
    var series := AlignSeries(metric.series, pass, timeline, all);
    var coverage := ComputeCoverage(pass.active);
    result := ChartResult(|samples|, |series|, series, coverage);
  }

  method AlignSeries(specs: seq<Spec>, pass: Pass, timeline: seq<string>, ghost all: seq<Observation>)
    returns (series: seq<Series>)
    requires PassOf(specs, all, pass)
    ensures series == Kept(specs, all, timeline, OrderOf(all))
  {
    series := [];
    for i := 0 to |pass.order|
      invariant series == Kept(specs, all, timeline, pass.order[..i])
    {
      var key := pass.order[i];
      assert key in pass.order;
      var points, any := AlignPoints(pass.points[key], timeline);
      assert pass.order[..i + 1][..i] == pass.order[..i];
      if any {
        series := series + [Series(key, points)];
      }
    }
    assert pass.order[..|pass.order|] == pass.order;
  }

  // ---- what a point means ----

  /** j is the latest observation before k of the same specification and dimensions. */
  ghost predicate IsLatest(all: seq<Observation>, j: nat, k: nat) {
    j < k < |all| && all[j].id == all[k].id && forall i :: j < i < k ==> all[i].id != all[k].id
  }

  /** k is the last observation of a series at a timestamp. */
  ghost predicate IsLastAt(all: seq<Observation>, key: Key, t: string, k: nat) {
    && k < |all| && all[k].key == key && all[k].timestamp == t
    && forall i :: k < i < |all| ==> !(all[i].key == key && all[i].timestamp == t)
  }

  lemma {:induction false} LatestIs(all: seq<Observation>, id: SeriesId, j: nat)
    requires j < |all| && all[j].id == id && forall i :: j < i < |all| ==> all[i].id != id
    ensures Latest(all, id) == Some(all[j])
  {
    if j < |all| - 1 {
      LatestIs(all[..|all| - 1], id, j);
    }
  }

  lemma {:induction false} LatestExists(all: seq<Observation>, id: SeriesId) returns (j: nat)
    requires Latest(all, id).Some?
    ensures j < |all| && all[j].id == id && forall i :: j < i < |all| ==> all[i].id != id
  {
    if all[|all| - 1].id == id {
      j := |all| - 1;
    } else {
      j := LatestExists(all[..|all| - 1], id);
    }
  }

  /** A point shows the formula against the latest earlier observation. */
  lemma PointFormula(specs: seq<Spec>, all: seq<Observation>, j: nat, k: nat)
    requires InSpecs(specs, all) && IsLatest(all, j, k)
    ensures ValueAt(specs, all, k) == PointValue(specs[all[k].id.spec], Some(all[j]), all[k])
  {
    LatestIs(all[..k], all[k].id, j);
  }

  lemma LatestLink(all: seq<Observation>, k: nat)
    requires k < |all|
    ensures match Latest(all[..k], all[k].id)
            case None => !exists j: nat :: IsLatest(all, j, k)
            case Some(o) => exists j: nat :: IsLatest(all, j, k) && all[j] == o
  {
    if j: nat :| IsLatest(all, j, k) {
      LatestIs(all[..k], all[k].id, j);
    }
    if Latest(all[..k], all[k].id).Some? {
      var j := LatestExists(all[..k], all[k].id);
      LatestIs(all[..k], all[k].id, j);
      assert IsLatest(all, j, k);
    }
  }

  lemma ValueNeedsOld(spec: Spec, old': Option<Observation>, now: Observation)
    requires spec.transform != Gauge
    ensures PointValue(spec, old', now).Some? <==> old'.Some? && Continues(spec, old'.value, now)
  {
  }

  /** When a counter point is a gap: nothing earlier, a fallen counter, another epoch, a stuck denominator. */
  lemma GapExactly(specs: seq<Spec>, all: seq<Observation>, k: nat)
    requires InSpecs(specs, all) && k < |all| && specs[all[k].id.spec].transform != Gauge
    ensures ValueAt(specs, all, k).None? <==>
            !exists j: nat :: IsLatest(all, j, k) && Continues(specs[all[k].id.spec], all[j], all[k])
  {
    var old' := Latest(all[..k], all[k].id);
    LatestLink(all, k);
    ValueNeedsOld(specs[all[k].id.spec], old', all[k]);
    forall i: nat, j: nat | IsLatest(all, i, k) && IsLatest(all, j, k)
      ensures i == j
    {
      LatestUnique(all, i, j, k);
    }
  }

  /** No rate and no delta is negative; neither is a ratio with a scale that is not. */
  lemma NeverNegative(specs: seq<Spec>, all: seq<Observation>, k: nat)
    requires InSpecs(specs, all) && k < |all| && specs[all[k].id.spec].transform != Gauge
    requires specs[all[k].id.spec].transform == Ratio ==> specs[all[k].id.spec].scale >= 0.0
    ensures ValueAt(specs, all, k).Some? ==> ValueAt(specs, all, k).value >= 0.0
  {
    var spec := specs[all[k].id.spec];
    var old' := Latest(all[..k], all[k].id);
    if ValueAt(specs, all, k).Some? {
      var delta := all[k].numeric - old'.value.numeric;
      assert delta >= 0.0;
      if spec.transform == Rate {
        QuotientSign(delta, Max(all[k].monotonic - old'.value.monotonic, 0.001), 1.0);
      } else if spec.transform == Ratio {
        QuotientSign(delta, all[k].denominator - old'.value.denominator, spec.scale);
      }
    }
  }

  lemma QuotientSign(delta: real, base: real, scale: real)
    requires delta >= 0.0 && base > 0.0 && scale >= 0.0
    ensures delta / base >= 0.0 && delta / base * scale >= 0.0
  {
  }

  // ---- alignment ----

  lemma {:induction false} LookUpStep(points: seq<Point>, point: Point, t: string)
    ensures LookUp(points + [point], t) == if point.t == t then point.value else LookUp(points, t)
  {
    var longer := points + [point];
    assert longer[|longer| - 1] == point && longer[..|longer| - 1] == points;
  }

  lemma {:induction false} PointsStep(specs: seq<Spec>, all: seq<Observation>, key: Key, n: nat)
    requires InSpecs(specs, all) && n < |all|
    ensures PointsOf(specs, all[..n + 1], key) ==
            PointsOf(specs, all[..n], key)
            + if all[n].key == key then [Point(all[n].timestamp, ValueAt(specs, all, n))] else []
  {
    assert all[..n + 1][..n] == all[..n];
  }

  /** One more observation replaces what is found at its own key and timestamp. */
  lemma {:induction false} LookUpNewest(specs: seq<Spec>, all: seq<Observation>, key: Key, t: string, n: nat)
    requires InSpecs(specs, all) && n < |all|
    ensures LookUp(PointsOf(specs, all[..n + 1], key), t) ==
            if all[n].key == key && all[n].timestamp == t then ValueAt(specs, all, n)
            else LookUp(PointsOf(specs, all[..n], key), t)
  {
    PointsStep(specs, all, key, n);
    var points := PointsOf(specs, all[..n], key);
    if all[n].key == key {
      LookUpStep(points, Point(all[n].timestamp, ValueAt(specs, all, n)), t);
    } else {
      assert points + [] == points;
    }
  }

  /** Looking a timestamp up among the points of a series finds the last observation there. */
  lemma {:induction false} LookUpLast(specs: seq<Spec>, all: seq<Observation>, key: Key, t: string, n: nat, k: nat)
    requires InSpecs(specs, all) && n <= |all| && IsLastAt(all[..n], key, t, k)
    ensures LookUp(PointsOf(specs, all[..n], key), t) == ValueAt(specs, all, k)
  {
    var last := all[n - 1];
    LookUpNewest(specs, all, key, t, n - 1);
    if k < n - 1 {
      assert all[..n][n - 1] == last;
      LookUpLast(specs, all, key, t, n - 1, k);
    }
  }

  lemma {:induction false} LookUpNone(specs: seq<Spec>, all: seq<Observation>, key: Key, t: string, n: nat)
    requires InSpecs(specs, all) && n <= |all|
    requires forall k :: 0 <= k < n ==> !(all[k].key == key && all[k].timestamp == t)
    ensures LookUp(PointsOf(specs, all[..n], key), t) == None
  {
    if n > 0 {
      LookUpNone(specs, all, key, t, n - 1);
      LookUpNewest(specs, all, key, t, n - 1);
    }
  }

  lemma {:induction false} KeptAligned(
      specs: seq<Spec>, all: seq<Observation>, timeline: seq<string>, order: seq<Key>, i: nat)
    requires InSpecs(specs, all) && i < |Kept(specs, all, timeline, order)|
    ensures var s := Kept(specs, all, timeline, order)[i];
            s.key in order && s.points == Align(PointsOf(specs, all, s.key), timeline) && HasValue(s.points)
  {
    var init := order[..|order| - 1];
    if i < |Kept(specs, all, timeline, init)| {
      KeptAligned(specs, all, timeline, init, i);
    }
  }

  /** Every kept series has one point for each sample, at the sample's timestamp, and some value. */
  lemma {:induction false} ChartAligned(metric: Metric, samples: seq<Sample>, result: ChartResult, i: nat, p: nat)
    requires ResultOf(metric, samples, result) && i < |result.series| && p < |samples|
    ensures var all := Observed(metric, samples, |samples|);
            var s := result.series[i];
            && |s.points| == |samples| && s.points[p].t == samples[p].timestamp && HasValue(s.points)
            && s.points[p].value == LookUp(PointsOf(metric.series, all, s.key), samples[p].timestamp)
  {
    KeptAligned(metric.series, Observed(metric, samples, |samples|), Timeline(samples),
                OrderOf(Observed(metric, samples, |samples|)), i);
  }

  lemma {:induction false} LookUpWhole(specs: seq<Spec>, all: seq<Observation>, key: Key, t: string)
    requires InSpecs(specs, all)
    ensures forall k: nat :: IsLastAt(all, key, t, k) ==> LookUp(PointsOf(specs, all, key), t) == ValueAt(specs, all, k)
    ensures (forall k :: 0 <= k < |all| ==> !(all[k].key == key && all[k].timestamp == t)) ==>
              LookUp(PointsOf(specs, all, key), t) == None
  {
    assert all[..|all|] == all;
    forall k: nat | IsLastAt(all, key, t, k)
      ensures LookUp(PointsOf(specs, all, key), t) == ValueAt(specs, all, k)
    {
      LookUpLast(specs, all, key, t, |all|, k);
    }
    if forall k :: 0 <= k < |all| ==> !(all[k].key == key && all[k].timestamp == t) {
      LookUpNone(specs, all, key, t, |all|);
    }
  }

  /**
   The point at position p shows the last observation of its series with that
   timestamp, and is a gap when there is none.
   */
  lemma {:induction false} ChartPoint(
      metric: Metric, samples: seq<Sample>, result: ChartResult, all: seq<Observation>, i: nat, p: nat)
    requires all == Observed(metric, samples, |samples|) && InSpecs(metric.series, all)
    requires ResultOf(metric, samples, result) && i < |result.series| && p < |samples|
    ensures |result.series[i].points| == |samples|
    ensures forall k: nat :: IsLastAt(all, result.series[i].key, samples[p].timestamp, k) ==>
              result.series[i].points[p].value == ValueAt(metric.series, all, k)
    ensures (forall k :: 0 <= k < |all| ==>
               !(all[k].key == result.series[i].key && all[k].timestamp == samples[p].timestamp)) ==>
              result.series[i].points[p].value == None
  {
    ChartAligned(metric, samples, result, i, p);
    LookUpWhole(metric.series, all, result.series[i].key, samples[p].timestamp);
  }

  predicate DistinctTimes(samples: seq<Sample>) {
    forall i, j :: 0 <= i < j < |samples| ==> samples[i].timestamp != samples[j].timestamp
  }

  lemma {:induction false} SampleObservations(metric: Metric, index: nat, sample: Sample, rows: nat)
    requires rows <= |sample.rows|
    ensures forall o :: o in ObservedInSample(metric, index, sample, rows) ==>
              o.sample == index && o.timestamp == sample.timestamp
  {
    if rows > 0 {
      SampleObservations(metric, index, sample, rows - 1);
      ObservedRowIds(metric, index, sample, sample.rows[rows - 1], |metric.series|);
    }
  }

  lemma {:induction false} ObservationSamples(metric: Metric, samples: seq<Sample>, n: nat)
    requires n <= |samples|
    ensures forall o :: o in Observed(metric, samples, n) ==>
              o.sample < n && o.timestamp == samples[o.sample].timestamp
  {
    if n > 0 {
      ObservationSamples(metric, samples, n - 1);
      SampleObservations(metric, n - 1, samples[n - 1], |samples[n - 1].rows|);
    }
  }

  /** With distinct timestamps a point at position p shows an observation of sample p and of no other. */
  lemma {:induction false} PointOwnsItsSample(metric: Metric, samples: seq<Sample>, k: nat, p: nat)
    requires DistinctTimes(samples) && p < |samples| && k < |Observed(metric, samples, |samples|)|
    ensures var o := Observed(metric, samples, |samples|)[k];
            o.timestamp == samples[p].timestamp <==> o.sample == p
  {
    var o := Observed(metric, samples, |samples|)[k];
    assert o in Observed(metric, samples, |samples|);
    ObservationSamples(metric, samples, |samples|);
    if o.sample < p {
      assert samples[o.sample].timestamp != samples[p].timestamp;
    } else if p < o.sample {
      assert samples[p].timestamp != samples[o.sample].timestamp;
    }
  }

  /** Sample p brings an observation of the series. */
  ghost predicate Observes(all: seq<Observation>, key: Key, p: nat) {
    exists k :: 0 <= k < |all| && all[k].key == key && all[k].sample == p
  }

  /** No sample that brings an observation of the series shares its timestamp. */
  ghost predicate OwnTimes(all: seq<Observation>, samples: seq<Sample>, key: Key) {
    forall p: nat, q: nat {:trigger Observes(all, key, p), samples[q]} ::
      p < |samples| && q < |samples| && Observes(all, key, p) && samples[p].timestamp == samples[q].timestamp
      ==> p == q
  }

  /** Whatever observation the series shows at the position of sample p was made in sample p. */
  ghost predicate ShowsOwn(all: seq<Observation>, samples: seq<Sample>, key: Key) {
    forall p: nat, k: nat {:trigger IsLastAt(all, key, samples[p].timestamp, k)} ::
      p < |samples| && IsLastAt(all, key, samples[p].timestamp, k) ==> all[k].sample == p
  }

  lemma {:induction false} LastExists(all: seq<Observation>, key: Key, t: string, k: nat) returns (last: nat)
    requires k < |all| && all[k].key == key && all[k].timestamp == t
    ensures IsLastAt(all, key, t, last)
    decreases |all| - k
  {
    last := k;
    if i :| k < i < |all| && all[i].key == key && all[i].timestamp == t {
      last := LastExists(all, key, t, i);
    }
  }

  /** Every point of a series shows its own sample exactly when no sample of the series shares its timestamp. */
  lemma {:induction false} ShowsOwnExactly(metric: Metric, samples: seq<Sample>, key: Key)
    ensures var all := Observed(metric, samples, |samples|);
            ShowsOwn(all, samples, key) <==> OwnTimes(all, samples, key)
  {
    var all := Observed(metric, samples, |samples|);
    ObservationSamples(metric, samples, |samples|);
    if OwnTimes(all, samples, key) {
      forall p: nat, k: nat | p < |samples| && IsLastAt(all, key, samples[p].timestamp, k)
        ensures all[k].sample == p
      {
        assert all[k] in all;
        assert Observes(all, key, all[k].sample);
      }
    } else {
      var p: nat, q: nat :| p < |samples| && q < |samples| && Observes(all, key, p)
        && samples[p].timestamp == samples[q].timestamp && p != q;
      var k :| 0 <= k < |all| && all[k].key == key && all[k].sample == p;
      assert all[k] in all;
      var last := LastExists(all, key, samples[p].timestamp, k);
      assert IsLastAt(all, key, samples[q].timestamp, last);
    }
  }

  /** k is the last observation of a series in sample p. */
  ghost predicate IsLastIn(all: seq<Observation>, key: Key, p: nat, k: nat) {
    && k < |all| && all[k].key == key && all[k].sample == p
    && forall i :: k < i < |all| ==> !(all[i].key == key && all[i].sample == p)
  }

  /** The point of sample p shows what sample p brought for the series, and nothing if it brought nothing. */
  ghost predicate PointIsOwn(
      metric: Metric, all: seq<Observation>, points: seq<Point>, key: Key, p: nat)
    requires InSpecs(metric.series, all) && p < |points|
  {
    && (forall k: nat :: IsLastIn(all, key, p, k) ==> points[p].value == ValueAt(metric.series, all, k))
    && (!Observes(all, key, p) ==> points[p].value == None)
  }

  /** With own timestamps the last observation at the time of a sample is the last one in the sample. */
  lemma {:induction false} OwnLast(metric: Metric, samples: seq<Sample>, all: seq<Observation>, key: Key, p: nat)
    requires all == Observed(metric, samples, |samples|) && p < |samples| && OwnTimes(all, samples, key)
    ensures forall k: nat :: IsLastIn(all, key, p, k) ==> IsLastAt(all, key, samples[p].timestamp, k)
    ensures !Observes(all, key, p) ==>
              forall k :: 0 <= k < |all| ==> !(all[k].key == key && all[k].timestamp == samples[p].timestamp)
  {
    ObservationSamples(metric, samples, |samples|);
    forall k | 0 <= k < |all| && all[k].key == key
      ensures all[k].timestamp == samples[p].timestamp <==> all[k].sample == p
    {
      assert all[k] in all;
      assert Observes(all, key, all[k].sample);
    }
  }

  /** A series whose samples do not share their timestamps shows each sample at its own place. */
  lemma {:induction false} ChartPointIsOwn(
      metric: Metric, samples: seq<Sample>, result: ChartResult, all: seq<Observation>, i: nat, p: nat)
    requires all == Observed(metric, samples, |samples|) && InSpecs(metric.series, all)
    requires ResultOf(metric, samples, result) && i < |result.series| && p < |samples|
    requires OwnTimes(all, samples, result.series[i].key)
    ensures |result.series[i].points| == |samples|
    ensures PointIsOwn(metric, all, result.series[i].points, result.series[i].key, p)
  {
    ChartPoint(metric, samples, result, all, i, p);
    OwnLast(metric, samples, all, result.series[i].key, p);
  }

  function OneValue(value: real): Row {
    map["v" := Field("v", true, Some(value))]
  }

  const ONE_GAUGE := Metric([], [Spec("x", "v", None, "", Gauge, [], 1.0)])

  const SAME_TIME := [Sample("t", 0.0, [OneValue(1.0)]), Sample("t", 1.0, [OneValue(2.0)])]

  lemma SameTimeObserved()
    ensures var all := Observed(ONE_GAUGE, SAME_TIME, 2);
            && |all| == 2 && all[0].key == all[1].key == Key("x", [])
            && all[0].sample == 0 && all[0].numeric == 1.0 && all[1].sample == 1 && all[1].numeric == 2.0
            && all[0].timestamp == all[1].timestamp == "t" && InSpecs(ONE_GAUGE.series, all)
            && ValueAt(ONE_GAUGE.series, all, 1) == Some(2.0)
  {
    SameTimeSample(0, 1.0);
    SameTimeSample(1, 2.0);
    assert Observed(ONE_GAUGE, SAME_TIME, 1) == ObservedInSample(ONE_GAUGE, 0, SAME_TIME[0], 1);
  }

  lemma {:induction false} SameTimeSample(p: nat, value: real)
    requires p < 2 && SAME_TIME[p].rows == [OneValue(value)]
    ensures var seen := ObservedInSample(ONE_GAUGE, p, SAME_TIME[p], 1);
            |seen| == 1 && seen[0].sample == p && seen[0].timestamp == "t" && seen[0].numeric == value
            && seen[0].key == Key("x", []) && seen[0].id.spec == 0
  {
    var sample := SAME_TIME[p];
    var row := sample.rows[0];
    assert Dimensions([], row) == [];
    assert Nested(row, "v") == Field("v", true, Some(value));
    assert ObservedInRow(ONE_GAUGE, p, sample, row, 0) == [];
    assert |ObservedInRow(ONE_GAUGE, p, sample, row, 1)| == 1;
    assert ObservedInSample(ONE_GAUGE, p, sample, 0) == [];
  }

  /** Two samples at one timestamp share one point: the later value stands in both places. */
  lemma SameTimeSharesAPoint(result: ChartResult, i: nat)
    requires ResultOf(ONE_GAUGE, SAME_TIME, result) && i < |result.series| && result.series[i].key == Key("x", [])
    ensures |result.series[i].points| == 2
    ensures result.series[i].points[0].value == Some(2.0) && result.series[i].points[1].value == Some(2.0)
  {
    SameTimeObserved();
    var all := Observed(ONE_GAUGE, SAME_TIME, 2);
    assert IsLastAt(all, result.series[i].key, "t", 1);
    ChartPoint(ONE_GAUGE, SAME_TIME, result, all, i, 0);
    ChartPoint(ONE_GAUGE, SAME_TIME, result, all, i, 1);
  }

  // ---- stretches without a reset ----

  /** From observation j to observation k every step continues the one before. */
  ghost predicate Unbroken(specs: seq<Spec>, all: seq<Observation>, j: nat, k: nat)
    requires InSpecs(specs, all)
    decreases k
  {
    j <= k < |all| &&
    (j == k ||
     exists i: nat ::
       j <= i < k && IsLatest(all, i, k)
       && Continues(specs[all[k].id.spec], all[i], all[k]) && Unbroken(specs, all, j, i))
  }

  /** The sum of the point values of observation k's series after position j, up to k. */
  ghost function DeltaSum(specs: seq<Spec>, all: seq<Observation>, j: nat, k: nat): real
    requires InSpecs(specs, all) && j <= k < |all|
    decreases k
  {
    if i: nat :| j <= i < k && IsLatest(all, i, k) then
      DeltaSum(specs, all, j, i) + (if ValueAt(specs, all, k).Some? then ValueAt(specs, all, k).value else 0.0)
    else 0.0
  }

  lemma LatestUnique(all: seq<Observation>, i: nat, i': nat, k: nat)
    requires IsLatest(all, i, k) && IsLatest(all, i', k)
    ensures i == i'
  {
  }

  /** Over a stretch with no reset and no epoch change the deltas sum to last minus first. */
  lemma {:induction false} DeltasTelescope(specs: seq<Spec>, all: seq<Observation>, j: nat, k: nat)
    requires InSpecs(specs, all) && Unbroken(specs, all, j, k)
    requires specs[all[k].id.spec].transform == Delta
    ensures all[j].id == all[k].id
    ensures DeltaSum(specs, all, j, k) == all[k].numeric - all[j].numeric
    decreases k
  {
    if j < k {
      var i: nat :| j <= i < k && IsLatest(all, i, k)
        && Continues(specs[all[k].id.spec], all[i], all[k]) && Unbroken(specs, all, j, i);
      DeltasTelescope(specs, all, j, i);
      PointFormula(specs, all, i, k);
      forall i': nat | IsLatest(all, i', k)
        ensures i' == i
      {
        LatestUnique(all, i, i', k);
      }
    }
  }

  // ---- deltas as the chart shows them ----

  lemma {:induction false} SampleOrderKept(metric: Metric, samples: seq<Sample>, n: nat)
    requires n <= |samples|
    ensures forall i, j :: 0 <= i < j < |Observed(metric, samples, n)| ==>
              Observed(metric, samples, n)[i].sample <= Observed(metric, samples, n)[j].sample
  {
    if n > 0 {
      SampleOrderKept(metric, samples, n - 1);
      ObservationSamples(metric, samples, n - 1);
      SampleObservations(metric, n - 1, samples[n - 1], |samples[n - 1].rows|);
      var earlier := Observed(metric, samples, n - 1);
      var later := ObservedInSample(metric, n - 1, samples[n - 1], |samples[n - 1].rows|);
      var all := Observed(metric, samples, n);
      assert all == earlier + later;
      forall i, j | 0 <= i < j < |all|
        ensures all[i].sample <= all[j].sample
      {
        assert i < |earlier| ==> earlier[i] in earlier;
        assert i >= |earlier| ==> later[i - |earlier|] in later;
        assert j >= |earlier| ==> later[j - |earlier|] in later;
      }
    }
  }

  /** Observation k is the only one of its series in its sample, by the keys of the dictionaries and of the output. */
  ghost predicate Alone(all: seq<Observation>, k: nat) {
    && k < |all|
    && forall i :: 0 <= i < |all| && i != k && all[i].sample == all[k].sample ==>
         all[i].id != all[k].id && all[i].key != all[k].key
  }

  ghost predicate Follows(specs: seq<Spec>, all: seq<Observation>, i: nat, k: nat)
    requires InSpecs(specs, all)
  {
    i < |all| && k < |all| && all[k].id == all[i].id && Continues(specs[all[k].id.spec], all[i], all[k])
  }

  /** From sample p on each sample brings one observation of the series, each continuing the one before. */
  ghost predicate Steady(specs: seq<Spec>, all: seq<Observation>, key: Key, p: nat, at: seq<nat>)
    requires InSpecs(specs, all)
  {
    && (forall s :: 0 <= s < |at| ==> Alone(all, at[s]) && all[at[s]].sample == p + s && all[at[s]].key == key)
    && (forall s, t {:trigger at[s], at[t]} :: 0 <= s < |at| && t == s + 1 < |at| ==> Follows(specs, all, at[s], at[t]))
  }

  /** The sum of the points behind position p up to position q; a gap adds nothing. */
  function PointSum(points: seq<Point>, p: nat, q: nat): real
    requires p <= q < |points|
  {
    if p == q then 0.0
    else PointSum(points, p, q - 1) + if points[q].value.Some? then points[q].value.value else 0.0
  }

  /** Of two lone observations in neighbouring samples the first is the latest one before the second. */
  lemma {:induction false} NeighbourIsLatest(
      metric: Metric, samples: seq<Sample>, all: seq<Observation>, i: nat, k: nat)
    requires all == Observed(metric, samples, |samples|) && Alone(all, i) && Alone(all, k)
    requires all[i].id == all[k].id && all[k].sample == all[i].sample + 1
    ensures IsLatest(all, i, k)
  {
    SampleOrderKept(metric, samples, |samples|);
  }

  lemma {:induction false} DeltaIn(
      metric: Metric, samples: seq<Sample>, all: seq<Observation>, key: Key, p: nat, at: seq<nat>, s: nat)
    requires all == Observed(metric, samples, |samples|) && InSpecs(metric.series, all)
    requires Steady(metric.series, all, key, p, at) && 0 < s < |at|
    requires metric.series[all[at[s]].id.spec].transform == Delta
    ensures IsLastIn(all, key, p + s, at[s])
    ensures ValueAt(metric.series, all, at[s]) == Some(all[at[s]].numeric - all[at[s - 1]].numeric)
  {
    assert Follows(metric.series, all, at[s - 1], at[s]);
    NeighbourIsLatest(metric, samples, all, at[s - 1], at[s]);
    PointFormula(metric.series, all, at[s - 1], at[s]);
  }

  lemma {:induction false} DifferencesTelescope(points: seq<Point>, p: nat, values: seq<real>)
    requires values != [] && p + |values| <= |points|
    requires forall s :: 0 < s < |values| ==> points[p + s].value == Some(values[s] - values[s - 1])
    ensures PointSum(points, p, p + |values| - 1) == values[|values| - 1] - values[0]
    decreases |values|
  {
    var n := |values| - 1;
    if n > 0 {
      DifferencesTelescope(points, p, values[..n]);
      assert points[p + n].value == Some(values[n] - values[n - 1]);
    }
  }

  lemma {:induction false} SteadyId(
      specs: seq<Spec>, all: seq<Observation>, key: Key, p: nat, at: seq<nat>, s: nat)
    requires InSpecs(specs, all) && Steady(specs, all, key, p, at) && s < |at|
    ensures at[0] < |all| && at[s] < |all| && all[at[s]].id == all[at[0]].id
  {
    if s > 0 {
      SteadyId(specs, all, key, p, at, s - 1);
      assert Follows(specs, all, at[s - 1], at[s]);
    }
  }

  /** The point of a delta series in the middle of such a stretch. */
  lemma {:induction false} PointDelta(
      metric: Metric, samples: seq<Sample>, all: seq<Observation>, points: seq<Point>, key: Key, p: nat, at: seq<nat>,
      s: nat)
    requires all == Observed(metric, samples, |samples|) && InSpecs(metric.series, all)
    requires Steady(metric.series, all, key, p, at) && 0 < s < |at|
    requires p + s < |points| && PointIsOwn(metric, all, points, key, p + s)
    requires at[0] < |all| && metric.series[all[at[0]].id.spec].transform == Delta
    ensures at[s - 1] < |all| && at[s] < |all|
    ensures points[p + s].value == Some(all[at[s]].numeric - all[at[s - 1]].numeric)
  {
    SteadyId(metric.series, all, key, p, at, s);
    DeltaIn(metric, samples, all, key, p, at, s);
  }

  /** The numbers of the stretch. */
  ghost function Numerics(all: seq<Observation>, at: seq<nat>): (values: seq<real>)
    ensures |values| == |at|
    ensures forall s :: 0 <= s < |at| && at[s] < |all| ==> values[s] == all[at[s]].numeric
  {
    seq(|at|, s requires 0 <= s < |at| => if at[s] < |all| then all[at[s]].numeric else 0.0)
  }

  lemma {:induction false} DeltasOfPoints(
      metric: Metric, samples: seq<Sample>, all: seq<Observation>, points: seq<Point>, key: Key, p: nat, at: seq<nat>)
    requires all == Observed(metric, samples, |samples|) && InSpecs(metric.series, all)
    requires Steady(metric.series, all, key, p, at) && at != [] && p + |at| <= |points|
    requires forall q :: p <= q < |points| ==> PointIsOwn(metric, all, points, key, q)
    requires at[0] < |all| && metric.series[all[at[0]].id.spec].transform == Delta
    ensures at[|at| - 1] < |all|
    ensures PointSum(points, p, p + |at| - 1) == all[at[|at| - 1]].numeric - all[at[0]].numeric
  {
    var values := Numerics(all, at);
    forall s | 0 < s < |at|
      ensures points[p + s].value == Some(values[s] - values[s - 1])
    {
      PointDelta(metric, samples, all, points, key, p, at, s);
    }
    SteadyId(metric.series, all, key, p, at, |at| - 1);
    DifferencesTelescope(points, p, values);
  }

  /** Over samples without reset or epoch change the points of a delta series sum to the last value minus the first. */
  lemma {:induction false} ChartDeltasTelescope(
      metric: Metric, samples: seq<Sample>, result: ChartResult, all: seq<Observation>, i: nat, p: nat, at: seq<nat>)
    requires all == Observed(metric, samples, |samples|) && InSpecs(metric.series, all)
    requires ResultOf(metric, samples, result) && i < |result.series| && at != [] && p + |at| <= |samples|
    requires OwnTimes(all, samples, result.series[i].key)
    requires Steady(metric.series, all, result.series[i].key, p, at)
    requires at[0] < |all| && metric.series[all[at[0]].id.spec].transform == Delta
    ensures |result.series[i].points| == |samples| && at[|at| - 1] < |all|
    ensures PointSum(result.series[i].points, p, p + |at| - 1) == all[at[|at| - 1]].numeric - all[at[0]].numeric
  {
    var key, points := result.series[i].key, result.series[i].points;
    ChartPointIsOwn(metric, samples, result, all, i, p);
    forall q | p <= q < |points|
      ensures PointIsOwn(metric, all, points, key, q)
    {
      ChartPointIsOwn(metric, samples, result, all, i, q);
    }
    DeltasOfPoints(metric, samples, all, points, key, p, at);
  }

  // ---- series and coverage ----

  lemma {:induction false} OrderMeaning(all: seq<Observation>)
    ensures forall i, j :: 0 <= i < j < |OrderOf(all)| ==> OrderOf(all)[i] != OrderOf(all)[j]
    ensures forall key :: key in OrderOf(all) <==> exists k :: 0 <= k < |all| && all[k].key == key
  {
    if all != [] {
      var n := |all| - 1;
      OrderMeaning(all[..n]);
      forall key | exists k :: 0 <= k < |all| && all[k].key == key
        ensures key in OrderOf(all)
      {
        var k :| 0 <= k < |all| && all[k].key == key;
        if k < n {
          assert all[..n][k].key == key;
        }
      }
    }
  }

  lemma {:induction false} DistinctSize<T>(items: seq<T>, s: set<T>)
    requires forall i, j :: 0 <= i < j < |items| ==> items[i] != items[j]
    requires forall x :: x in items <==> x in s
    ensures |items| == |s|
  {
    if items == [] {
      assert s == {};
    } else {
      var n := |items| - 1;
      assert items[n] in s;
      assert items == items[..n] + [items[n]];
      DistinctSize(items[..n], s - {items[n]});
    }
  }

  lemma {:induction false} KeptCount(
      specs: seq<Spec>, all: seq<Observation>, timeline: seq<string>, order: seq<Key>)
    requires InSpecs(specs, all)
    ensures |Kept(specs, all, timeline, order)| <= |order|
  {
    if order != [] {
      KeptCount(specs, all, timeline, order[..|order| - 1]);
    }
  }

  /** The chart keeps at most the observed series, and its four coverage numbers obey the laws. */
  lemma {:induction false} ChartCoverageLaws(metric: Metric, samples: seq<Sample>, result: ChartResult)
    requires ResultOf(metric, samples, result)
    ensures var c := result.coverage;
            && result.seriesCount <= c.observedSeries
            && (c.missing == 0 <==> c.changes == 0) && c.changes <= 2 * c.missing
            && c.effectiveSamples <= result.sampleCount
            && c.observedSeries == |OrderOf(Observed(metric, samples, |samples|))|
  {
    var all := Observed(metric, samples, |samples|);
    var active :| |active| == |samples| && ActiveAgree(all, active) && result.coverage == CoverageOf(active);
    CoverageLaws(active);
    KeptCount(metric.series, all, Timeline(samples), OrderOf(all));
    OrderMeaning(all);
    var union := Union(active[FirstActive(active)..]);
    forall key
      ensures key in OrderOf(all) <==> key in union
    {
      UnionOfEffective(active, key);
      if key in OrderOf(all) {
        var k :| 0 <= k < |all| && all[k].key == key;
        assert key in active[all[k].sample];
      }
    }
    DistinctSize(OrderOf(all), union);
  }
}
