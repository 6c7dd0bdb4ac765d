/**
 What the points of a chart measure, said with the numbers of the rows: which
 observation a row gives, and how a point relates two of them.
 */
module ChartLaws {
  import opened Prelude
  import opened ChartStream
  import opened ChartResults

  // ---- from rows to observations ----

  /** Specification j makes observation o of the row in sample p. */
  ghost predicate IsObservationOf(metric: Metric, samples: seq<Sample>, p: nat, r: nat, j: nat, o: Observation)
    requires p < |samples| && r < |samples[p].rows| && j < |metric.series|
  {
    var spec, row := metric.series[j], samples[p].rows[r];
    && o.sample == p && o.timestamp == samples[p].timestamp && o.monotonic == samples[p].monotonic
    && o.id.spec == j && o.id.dims == o.key.dims && |o.id.dims| == |metric.partitionBy|
    && (forall d :: 0 <= d < |metric.partitionBy| ==> o.id.dims[d] == TextOrEmpty(Nested(row, metric.partitionBy[d])))
    && Number(Nested(row, spec.valueRef)) == Some(o.numeric)
    && (spec.transform == Ratio ==> Number(Nested(row, spec.denominatorRef)) == Some(o.denominator))
    && |o.epoch| == |spec.epochRefs|
    && (forall e :: 0 <= e < |spec.epochRefs| ==> o.epoch[e] == Nested(row, spec.epochRefs[e]))
  }

  /** A row counts for a specification: the numbers it needs are there. */
  predicate Counts(spec: Spec, row: Row) {
    && Number(Nested(row, spec.valueRef)).Some?
    && (spec.transform == Ratio ==> Number(Nested(row, spec.denominatorRef)).Some?)
  }

  lemma ObserveMeaning(metric: Metric, samples: seq<Sample>, p: nat, r: nat, j: nat)
    requires p < |samples| && r < |samples[p].rows| && j < |metric.series|
    ensures var o := Observe(metric, p, samples[p], samples[p].rows[r], j);
            && (o.Some? <==> Counts(metric.series[j], samples[p].rows[r]))
            && (o.Some? ==> IsObservationOf(metric, samples, p, r, j, o.value))
  {
  }

  lemma {:induction false} RowOrigin(metric: Metric, samples: seq<Sample>, p: nat, r: nat, specs: nat, o: Observation)
    returns (j: nat)
    requires p < |samples| && r < |samples[p].rows| && specs <= |metric.series|
    requires o in ObservedInRow(metric, p, samples[p], samples[p].rows[r], specs)
    ensures j < specs && IsObservationOf(metric, samples, p, r, j, o)
  {
    ObserveMeaning(metric, samples, p, r, specs - 1);
    if Observe(metric, p, samples[p], samples[p].rows[r], specs - 1) == Some(o) {
      j := specs - 1;
    } else {
      j := RowOrigin(metric, samples, p, r, specs - 1, o);
    }
  }

  lemma {:induction false} SampleOrigin(metric: Metric, samples: seq<Sample>, p: nat, rows: nat, o: Observation)
    returns (r: nat, j: nat)
    requires p < |samples| && rows <= |samples[p].rows|
    requires o in ObservedInSample(metric, p, samples[p], rows)
    ensures r < rows && j < |metric.series| && IsObservationOf(metric, samples, p, r, j, o)
  {
    if o in ObservedInSample(metric, p, samples[p], rows - 1) {
      r, j := SampleOrigin(metric, samples, p, rows - 1, o);
    } else {
      r := rows - 1;
      j := RowOrigin(metric, samples, p, r, |metric.series|, o);
    }
  }

  /** Every observation is what some specification makes of some row. */
  lemma {:induction false} ObservationOrigin(metric: Metric, samples: seq<Sample>, n: nat, o: Observation)
    returns (p: nat, r: nat, j: nat)
    requires n <= |samples| && o in Observed(metric, samples, n)
    ensures p < n && r < |samples[p].rows| && j < |metric.series| && IsObservationOf(metric, samples, p, r, j, o)
  {
    if o in Observed(metric, samples, n - 1) {
      p, r, j := ObservationOrigin(metric, samples, n - 1, o);
    } else {
      p := n - 1;
      r, j := SampleOrigin(metric, samples, p, |samples[p].rows|, o);
    }
  }

  lemma {:induction false} RowGives(metric: Metric, samples: seq<Sample>, p: nat, r: nat, specs: nat, j: nat)
    requires p < |samples| && r < |samples[p].rows| && j < specs <= |metric.series|
    ensures var o := Observe(metric, p, samples[p], samples[p].rows[r], j);
            o.Some? ==> o.value in ObservedInRow(metric, p, samples[p], samples[p].rows[r], specs)
  {
    if j < specs - 1 {
      RowGives(metric, samples, p, r, specs - 1, j);
    }
  }

  lemma {:induction false} SampleGives(metric: Metric, samples: seq<Sample>, p: nat, rows: nat, r: nat, o: Observation)
    requires p < |samples| && r < rows <= |samples[p].rows|
    requires o in ObservedInRow(metric, p, samples[p], samples[p].rows[r], |metric.series|)
    ensures o in ObservedInSample(metric, p, samples[p], rows)
  {
    if r < rows - 1 {
      SampleGives(metric, samples, p, rows - 1, r, o);
    }
  }

  lemma {:induction false} AllGive(metric: Metric, samples: seq<Sample>, n: nat, p: nat, o: Observation)
    requires p < n <= |samples| && o in ObservedInSample(metric, p, samples[p], |samples[p].rows|)
    ensures o in Observed(metric, samples, n)
  {
    var before := Observed(metric, samples, n - 1);
    var last := ObservedInSample(metric, n - 1, samples[n - 1], |samples[n - 1].rows|);
    if p < n - 1 {
      AllGive(metric, samples, n - 1, p, o);
      assert o in before;
    } else {
      assert o in last;
    }
    assert o in before + last;
  }

  /** Every row that counts for a specification gives an observation. */
  lemma {:induction false} RowIsObserved(metric: Metric, samples: seq<Sample>, p: nat, r: nat, j: nat)
    requires p < |samples| && r < |samples[p].rows| && j < |metric.series|
    requires Counts(metric.series[j], samples[p].rows[r])
    ensures exists o :: o in Observed(metric, samples, |samples|) && IsObservationOf(metric, samples, p, r, j, o)
  {
    ObserveMeaning(metric, samples, p, r, j);
    var o := Observe(metric, p, samples[p], samples[p].rows[r], j).value;
    RowGives(metric, samples, p, r, |metric.series|, j);
    SampleGives(metric, samples, p, |samples[p].rows|, r, o);
    AllGive(metric, samples, |samples|, p, o);
  }

  // ---- from observations to points ----

  /** The time between two observations, at least a millisecond. */
  function Between(was: Observation, now: Observation): (seconds: real)
    ensures seconds >= now.monotonic - was.monotonic && seconds >= 0.001
    ensures seconds == now.monotonic - was.monotonic || seconds == 0.001
  {
    if now.monotonic - was.monotonic < 0.001 then 0.001 else now.monotonic - was.monotonic
  }

  /** The counter did not fall and every epoch value is as it was. */
  predicate Comparable(was: Observation, now: Observation) {
    was.numeric <= now.numeric && was.epoch == now.epoch
  }

  /** What a point measures against the observation before. */
  predicate Measures(spec: Spec, was: Observation, now: Observation, value: Option<real>) {
    match spec.transform
    case Gauge => value == Some(now.numeric)
    case Delta =>
      && (value.Some? <==> Comparable(was, now))
      && (value.Some? ==> value.value == now.numeric - was.numeric)
    case Rate =>
      && (value.Some? <==> Comparable(was, now))
      && (value.Some? ==> value.value * Between(was, now) == now.numeric - was.numeric)
    case Ratio =>
      && (value.Some? <==> Comparable(was, now) && was.denominator < now.denominator)
      && (value.Some? ==>
            value.value * (now.denominator - was.denominator) == (now.numeric - was.numeric) * spec.scale)
  }

  lemma QuotientTimes(a: real, b: real, scale: real)
    requires b > 0.0
    ensures a / b * b == a && a / b * scale * b == a * scale
  {
    var q := a / b;
    assert q * b == a;
    assert q * scale * b == q * b * scale;
  }

  /** A point measures the growth since the latest earlier observation of its specification and dimensions. */
  lemma PointMeasures(specs: seq<Spec>, all: seq<Observation>, j: nat, k: nat)
    requires InSpecs(specs, all) && IsLatest(all, j, k)
    ensures Measures(specs[all[k].id.spec], all[j], all[k], ValueAt(specs, all, k))
  {
    PointFormula(specs, all, j, k);
    var spec, was, now := specs[all[k].id.spec], all[j], all[k];
    QuotientTimes(now.numeric - was.numeric, Between(was, now), 1.0);
    if was.denominator < now.denominator {
      QuotientTimes(now.numeric - was.numeric, now.denominator - was.denominator, spec.scale);
    }
  }

  /** The first observation is a gap, unless it is a gauge. */
  lemma FirstIsGap(specs: seq<Spec>, all: seq<Observation>, k: nat)
    requires InSpecs(specs, all) && k < |all| && !exists j: nat :: IsLatest(all, j, k)
    ensures ValueAt(specs, all, k) ==
            if specs[all[k].id.spec].transform == Gauge then Some(all[k].numeric) else None
  {
    LatestLink(all, k);
  }

  /** The point of the chart at the place of a sample measures what the sample brought for the series. */
  lemma {:induction false} ChartPointMeasures(
      metric: Metric, samples: seq<Sample>, result: ChartResult, all: seq<Observation>, i: nat, p: nat, j: nat, k: nat)
    requires all == Observed(metric, samples, |samples|) && InSpecs(metric.series, all)
    requires ResultOf(metric, samples, result) && i < |result.series| && p < |samples|
    requires OwnTimes(all, samples, result.series[i].key)
    requires IsLastIn(all, result.series[i].key, p, k) && IsLatest(all, j, k)
    ensures |result.series[i].points| == |samples|
    ensures Measures(metric.series[all[k].id.spec], all[j], all[k], result.series[i].points[p].value)
  {
    ChartPointIsOwn(metric, samples, result, all, i, p);
    PointMeasures(metric.series, all, j, k);
  }

  // ---- which series there are ----

  /** The positions ascend and are those of the keys that show some value. */
  ghost predicate PicksShown(
      specs: seq<Spec>, all: seq<Observation>, timeline: seq<string>, order: seq<Key>, picks: seq<nat>)
    requires InSpecs(specs, all)
  {
    && (forall m, n :: 0 <= m < n < |picks| ==> picks[m] < picks[n])
    && (forall m :: 0 <= m < |picks| ==> picks[m] < |order|)
    && forall i :: 0 <= i < |order| ==> (i in picks <==> HasValue(Align(PointsOf(specs, all, order[i]), timeline)))
  }

  lemma {:induction false} PicksShownStep(
      specs: seq<Spec>, all: seq<Observation>, timeline: seq<string>, init: seq<Key>, key: Key, picks: seq<nat>)
    requires InSpecs(specs, all) && PicksShown(specs, all, timeline, init, picks)
    ensures var shown := HasValue(Align(PointsOf(specs, all, key), timeline));
            PicksShown(specs, all, timeline, init + [key], if shown then picks + [|init|] else picks)
  {
    var order := init + [key];
    assert forall i :: 0 <= i < |init| ==> order[i] == init[i];
    assert forall m :: 0 <= m < |picks| ==> picks[m] in picks;
    assert |init| !in picks;
  }

  predicate KeysAt(series: seq<Series>, order: seq<Key>, picks: seq<nat>) {
    |series| == |picks| && forall m :: 0 <= m < |picks| ==> picks[m] < |order| && series[m].key == order[picks[m]]
  }

  lemma KeysAtStep(series: seq<Series>, init: seq<Key>, key: Key, picks: seq<nat>, points: seq<Point>)
    requires KeysAt(series, init, picks)
    ensures KeysAt(series, init + [key], picks)
    ensures KeysAt(series + [Series(key, points)], init + [key], picks + [|init|])
  {
  }

  lemma {:induction false} KeptStep(
      specs: seq<Spec>, all: seq<Observation>, timeline: seq<string>, init: seq<Key>, key: Key)
    requires InSpecs(specs, all)
    ensures var points := Align(PointsOf(specs, all, key), timeline);
            Kept(specs, all, timeline, init + [key]) ==
            if HasValue(points) then Kept(specs, all, timeline, init) + [Series(key, points)]
            else Kept(specs, all, timeline, init)
  {
    assert (init + [key])[..|init|] == init;
  }

  ghost predicate KeptAre(
      specs: seq<Spec>, all: seq<Observation>, timeline: seq<string>, order: seq<Key>, picks: seq<nat>)
    requires InSpecs(specs, all)
  {
    PicksShown(specs, all, timeline, order, picks) && KeysAt(Kept(specs, all, timeline, order), order, picks)
  }

  lemma {:induction false} KeptMore(
      specs: seq<Spec>, all: seq<Observation>, timeline: seq<string>, init: seq<Key>, key: Key, before: seq<nat>)
    returns (picks: seq<nat>)
    requires InSpecs(specs, all) && KeptAre(specs, all, timeline, init, before)
    ensures KeptAre(specs, all, timeline, init + [key], picks)
  {
    var points := Align(PointsOf(specs, all, key), timeline);
    PicksShownStep(specs, all, timeline, init, key, before);
    KeptStep(specs, all, timeline, init, key);
    KeysAtStep(Kept(specs, all, timeline, init), init, key, before, points);
    picks := if HasValue(points) then before + [|init|] else before;
  }

  /** The kept series are those of the keys that show some value, in the order of the keys. */
  lemma {:induction false} KeptExactly(
      specs: seq<Spec>, all: seq<Observation>, timeline: seq<string>, order: seq<Key>) returns (picks: seq<nat>)
    requires InSpecs(specs, all)
    ensures KeptAre(specs, all, timeline, order, picks)
  {
    if order == [] {
      picks := [];
    } else {
      var before := KeptExactly(specs, all, timeline, order[..|order| - 1]);
      picks := KeptMore(specs, all, timeline, order[..|order| - 1], order[|order| - 1], before);
      assert order == order[..|order| - 1] + [order[|order| - 1]];
    }
  }

  /** Some sample time shows a value of the series: the last observation there has one. */
  ghost predicate ShowsValue(metric: Metric, samples: seq<Sample>, all: seq<Observation>, key: Key)
    requires InSpecs(metric.series, all)
  {
    exists p: nat, k: nat {:trigger samples[p], ValueAt(metric.series, all, k)} ::
      p < |samples| && IsLastAt(all, key, samples[p].timestamp, k) && ValueAt(metric.series, all, k).Some?
  }

  lemma {:induction false} ValueShows(metric: Metric, samples: seq<Sample>, all: seq<Observation>, key: Key)
    requires InSpecs(metric.series, all)
    ensures HasValue(Align(PointsOf(metric.series, all, key), Timeline(samples))) <==>
            ShowsValue(metric, samples, all, key)
  {
    var points := Align(PointsOf(metric.series, all, key), Timeline(samples));
    if p :| 0 <= p < |points| && points[p].value.Some? {
      var t := samples[p].timestamp;
      LookUpWhole(metric.series, all, key, t);
      var k :| 0 <= k < |all| && all[k].key == key && all[k].timestamp == t;
      var last := LastExists(all, key, t, k);
      assert ValueAt(metric.series, all, last).Some?;
    }
    if ShowsValue(metric, samples, all, key) {
      var p: nat, k: nat :| p < |samples| && IsLastAt(all, key, samples[p].timestamp, k)
        && ValueAt(metric.series, all, k).Some?;
      LookUpWhole(metric.series, all, key, samples[p].timestamp);
      assert points[p].value.Some?;
    }
  }

  predicate HasSeries(result: ChartResult, key: Key) {
    exists i :: 0 <= i < |result.series| && result.series[i].key == key
  }

  /** The chart has a series exactly for each observed key that shows some value. */
  lemma {:induction false} SeriesExactly(
      metric: Metric, samples: seq<Sample>, result: ChartResult, all: seq<Observation>, key: Key)
    requires all == Observed(metric, samples, |samples|) && InSpecs(metric.series, all)
    requires ResultOf(metric, samples, result)
    ensures HasSeries(result, key) <==> ShowsValue(metric, samples, all, key)
  {
    var order := OrderOf(all);
    var picks := KeptExactly(metric.series, all, Timeline(samples), order);
    OrderMeaning(all);
    ValueShows(metric, samples, all, key);
    if i :| 0 <= i < |result.series| && result.series[i].key == key {
      assert picks[i] in picks && order[picks[i]] == key;
    }
    if ShowsValue(metric, samples, all, key) {
      var p: nat, k: nat :| p < |samples| && IsLastAt(all, key, samples[p].timestamp, k)
        && ValueAt(metric.series, all, k).Some?;
      assert all[k].key == key && key in order;
      var i :| 0 <= i < |order| && order[i] == key;
      var m :| 0 <= m < |picks| && picks[m] == i;
      assert result.series[m].key == key;
    }
  }

  /** Key a was observed where key b was not yet. */
  ghost predicate SeenFirst(all: seq<Observation>, a: Key, b: Key) {
    exists k :: 0 <= k < |all| && all[k].key == a && forall l :: 0 <= l <= k ==> all[l].key != b
  }

  lemma {:induction false} OrderIsFirstSeen(all: seq<Observation>)
    ensures forall i, j :: 0 <= i < j < |OrderOf(all)| ==> SeenFirst(all, OrderOf(all)[i], OrderOf(all)[j])
  {
    if all != [] {
      var n := |all| - 1;
      var init := all[..n];
      OrderIsFirstSeen(init);
      OrderMeaning(init);
      var order := OrderOf(init);
      forall i, j | 0 <= i < j < |OrderOf(all)|
        ensures SeenFirst(all, OrderOf(all)[i], OrderOf(all)[j])
      {
        var a, b := OrderOf(all)[i], OrderOf(all)[j];
        assert a == order[i] && a in order;
        var k :| 0 <= k < n && init[k].key == a && (j < |order| ==> forall l :: 0 <= l <= k ==> init[l].key != b);
        forall l | 0 <= l <= k
          ensures all[l].key != b
        {
          assert init[l] == all[l];
          assert j >= |order| ==> b !in order;
        }
        assert all[k].key == a;
      }
    }
  }

  /** The series stand in the order in which they were first observed, each of them once. */
  lemma {:induction false} SeriesInOrder(
      metric: Metric, samples: seq<Sample>, result: ChartResult, all: seq<Observation>, i: nat, j: nat)
    requires all == Observed(metric, samples, |samples|) && InSpecs(metric.series, all)
    requires ResultOf(metric, samples, result) && i < j < |result.series|
    ensures SeenFirst(all, result.series[i].key, result.series[j].key)
  {
    var picks := KeptExactly(metric.series, all, Timeline(samples), OrderOf(all));
    OrderIsFirstSeen(all);
    assert picks[i] < picks[j];
  }
}
