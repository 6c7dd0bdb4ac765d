/** The sampling schedule and the timing of the iostat stream, over exact reals. */
module Schedule {
  import opened Prelude

  datatype ScheduleError = DurationNotPositive | IntervalNotPositive | NoReports

  /** The least integer not below x. */
  function Ceiling(x: real): (c: int)
    ensures c as real - 1.0 < x <= c as real
  {
    -((-x).Floor)
  }

  /** A schedule as documented: from 0 by whole intervals, ending exactly at the duration. */
  ghost predicate IsSchedule(offsets: seq<real>, duration: real, interval: real)
    requires interval > 0.0
  {
    && |offsets| == Ceiling(duration / interval) + 1 && |offsets| >= 2
    && offsets[0] == 0.0 && offsets[|offsets| - 1] == duration
    && (forall i :: 0 <= i < |offsets| - 1 ==> offsets[i] == i as real * interval)
    && 0.0 < duration - offsets[|offsets| - 2] <= interval
  }

  lemma Product(k: int, interval: real, duration: real)
    requires interval > 0.0
    ensures k as real * interval < duration <==> k as real < duration / interval
    ensures (k + 1) as real * interval == k as real * interval + interval
  {
    var q := duration / interval;
    assert q * interval == duration;
    if k as real < q {
      assert (q - k as real) * interval > 0.0;
    } else {
      assert (k as real - q) * interval >= 0.0;
    }
  }

  /** schedule_offsets */
  method ScheduleOffsets(duration: real, interval: real) returns (result: Result<seq<real>, ScheduleError>)
    ensures duration <= 0.0 ==> result == Err(DurationNotPositive)
    ensures duration > 0.0 && interval <= 0.0 ==> result == Err(IntervalNotPositive)
    ensures duration > 0.0 && interval > 0.0 ==> result.Ok? && IsSchedule(result.value, duration, interval)
  {
    if duration <= 0.0 {
      return Err(DurationNotPositive);
    }
    if interval <= 0.0 {
      return Err(IntervalNotPositive);
    }
    var offsets := [0.0];
    var nextOffset := interval;
    ghost var k := 1;
    Product(0, interval, duration);
    while nextOffset < duration
      invariant k == |offsets| && nextOffset == k as real * interval
      invariant forall i :: 0 <= i < k ==> offsets[i] == i as real * interval
      invariant (k - 1) as real * interval < duration
      decreases (duration / interval).Floor - k
    {
      Product(k, interval, duration);
      offsets := offsets + [nextOffset];
      nextOffset := nextOffset + interval;
      k := k + 1;
    }
    Product(k, interval, duration);
    Product(k - 1, interval, duration);
    assert Ceiling(duration / interval) == k;
    offsets := offsets + [duration];
    return Ok(offsets);
  }

  lemma {:induction false} Multiples(offsets: seq<real>, interval: real, i: nat, j: nat)
    requires interval > 0.0 && i < j < |offsets|
    requires forall k :: 0 <= k < |offsets| ==> offsets[k] == k as real * interval
    ensures offsets[i] < offsets[j]
  {
    assert (j - i) as real * interval > 0.0;
    assert j as real * interval == i as real * interval + (j - i) as real * interval;
  }

  /** The offsets strictly increase; every gap but the last is one interval. */
  lemma ScheduleAscends(offsets: seq<real>, duration: real, interval: real)
    requires interval > 0.0 && IsSchedule(offsets, duration, interval)
    ensures forall i, j :: 0 <= i < j < |offsets| ==> offsets[i] < offsets[j]
    ensures forall i :: 0 <= i < |offsets| - 2 ==> offsets[i + 1] - offsets[i] == interval
  {
    var inner := offsets[..|offsets| - 1];
    forall i, j | 0 <= i < j < |offsets|
      ensures offsets[i] < offsets[j]
    {
      if j < |offsets| - 1 {
        Multiples(inner, interval, i, j);
      } else if i < |offsets| - 2 {
        Multiples(inner, interval, i, |offsets| - 2);
      }
    }
    forall i | 0 <= i < |offsets| - 2
      ensures offsets[i + 1] - offsets[i] == interval
    {
      Product(i, interval, duration);
    }
  }

  // ---- iostat ----

  /** Python's round to an integer: ties go to the even neighbour. */
  function PyRound(x: real): (r: int)
    ensures -0.5 <= x - r as real <= 0.5
    ensures (x - r as real == 0.5 || x - r as real == -0.5) ==> r % 2 == 0
  {
    var low := x.Floor;
    var part := x - low as real;
    if part < 0.5 then low
    else if part > 0.5 then low + 1
    else if low % 2 == 0 then low else low + 1
  }

  function MinReal(a: real, b: real): real {
    if b < a then b else a
  }

  /** iostat_sampling_parameters */
  function IostatParameters(duration: real, interval: real): (parameters: (int, int))
    requires duration > 0.0 && interval > 0.0
    ensures parameters.0 >= 1 && parameters.1 >= 1
    ensures parameters.1 > 1 ==> parameters.1 as real * parameters.0 as real <= duration
  {
    var rounded := PyRound(MinReal(interval, duration));
    var seconds := if rounded < 1 then 1 else rounded;
    var whole := (duration / seconds as real).Floor;
    FloorTimes(duration, seconds);
    (seconds, if whole < 1 then 1 else whole)
  }

  lemma FloorTimes(duration: real, seconds: int)
    requires seconds >= 1
    ensures (duration / seconds as real).Floor as real * seconds as real <= duration
  {
    var q := duration / seconds as real;
    assert q * seconds as real == duration;
    assert (q - q.Floor as real) * seconds as real >= 0.0;
  }

  /** The elapsed time of report number `index`. */
  function ElapsedAt(index: nat, seconds: int, duration: real): real {
    MinReal(index as real * seconds as real, duration)
  }

  /** The report numbers iostat_samples assigns: the last ones, ending at `points`. */
  function FirstIndex(reports: nat, points: int): int {
    if points - (if reports >= points then points else reports) + 1 > 1
    then points - (if reports >= points then points else reports) + 1 else 1
  }

  /** iostat_samples, reduced to the elapsed time it gives each kept report. */
  method IostatElapsed(reports: nat, duration: real, seconds: int, points: int)
    returns (result: Result<seq<real>, ScheduleError>)
    requires points >= 1
    ensures reports == 0 ==> result == Err(NoReports)
    ensures reports > 0 ==>
              && result.Ok? && |result.value| == (if reports >= points then points else reports)
              && FirstIndex(reports, points) + |result.value| - 1 == points
              && forall k :: 0 <= k < |result.value| ==>
                   result.value[k] == ElapsedAt(FirstIndex(reports, points) + k, seconds, duration)
  {
    if reports == 0 {
      return Err(NoReports);
    }
    var kept := if reports >= points then points else reports;
    var firstIndex := if points - kept + 1 > 1 then points - kept + 1 else 1;
    var samples: seq<real> := [];
    for offset := 0 to kept
      invariant |samples| == offset
      invariant forall k :: 0 <= k < offset ==> samples[k] == ElapsedAt(firstIndex + k, seconds, duration)
    {
      var index := firstIndex + offset;
      samples := samples + [ElapsedAt(index, seconds, duration)];
    }
    return Ok(samples);
  }

  lemma ElapsedPositive(a: nat, seconds: int, duration: real)
    requires a >= 1 && seconds >= 1 && duration > 0.0
    ensures 0.0 < ElapsedAt(a, seconds, duration) <= duration
  {
    assert a as real * seconds as real > 0.0;
  }

  lemma ElapsedGrows(a: nat, b: nat, seconds: int, points: int, duration: real)
    requires 1 <= a < b <= points && seconds >= 1 && points as real * seconds as real <= duration
    ensures 0.0 < ElapsedAt(a, seconds, duration) < ElapsedAt(b, seconds, duration) <= duration
  {
    assert a as real * seconds as real > 0.0;
    assert (b - a) as real * seconds as real > 0.0;
    assert (points - b) as real * seconds as real >= 0.0;
    assert points as real * seconds as real == b as real * seconds as real + (points - b) as real * seconds as real;
    assert b as real * seconds as real == a as real * seconds as real + (b - a) as real * seconds as real;
  }

  /**
   With the parameters computed for the window, the samples lie in (0, duration]
   in strictly increasing order and the last is report number `points`.
   */
  lemma IostatTimesAscend(reports: nat, duration: real, interval: real, times: seq<real>)
    requires duration > 0.0 && interval > 0.0 && reports > 0
    requires var (seconds, points) := IostatParameters(duration, interval);
             && |times| == (if reports >= points then points else reports)
             && forall k :: 0 <= k < |times| ==>
                  times[k] == ElapsedAt(FirstIndex(reports, points) + k, seconds, duration)
    ensures forall k :: 0 <= k < |times| ==> 0.0 < times[k] <= duration
    ensures forall j, k :: 0 <= j < k < |times| ==> times[j] < times[k]
    ensures var (seconds, points) := IostatParameters(duration, interval);
            times[|times| - 1] == ElapsedAt(points, seconds, duration)
  {
    var (seconds, points) := IostatParameters(duration, interval);
    var first := FirstIndex(reports, points);
    assert first >= 1 && first + |times| - 1 == points;
    forall k | 0 <= k < |times|
      ensures 0.0 < times[k] <= duration
    {
      ElapsedPositive(first + k, seconds, duration);
    }
    forall j, k | 0 <= j < k < |times|
      ensures times[j] < times[k]
    {
      ElapsedGrows(first + j, first + k, seconds, points, duration);
    }
  }

  /** Kept report k ends after its number of intervals, counted so that the last one has number `points`. */
  lemma ElapsedExactly(reports: nat, points: int, seconds: int, duration: real, k: nat)
    requires points >= 1 && k < (if reports >= points then points else reports)
    ensures var kept := if reports >= points then points else reports;
            var due := (points - kept + 1 + k) as real * seconds as real;
            ElapsedAt(FirstIndex(reports, points) + k, seconds, duration) == if duration < due then duration else due
  {
  }

  /**
   The seconds are the whole number nearest to the interval or the window,
   whichever is shorter, and at least one; the points are as many as fit into the
   window, and at least one.
   */
  lemma IostatParametersExactly(duration: real, interval: real)
    requires duration > 0.0 && interval > 0.0
    ensures var (seconds, points) := IostatParameters(duration, interval);
            var shorter := if interval < duration then interval else duration;
            && (if shorter <= 0.5 then seconds == 1 else -0.5 <= shorter - seconds as real <= 0.5)
            && (shorter - seconds as real == 0.5 || shorter - seconds as real == -0.5 ==>
                  seconds % 2 == 0 || seconds == 1)
            && duration < (points + 1) as real * seconds as real
            && (points == 1 || points as real * seconds as real <= duration)
  {
    var (seconds, points) := IostatParameters(duration, interval);
    PointsFill(duration, seconds, points);
  }

  lemma PointsFill(duration: real, seconds: int, points: int)
    requires duration > 0.0 && seconds >= 1
    requires points == if (duration / seconds as real).Floor < 1 then 1 else (duration / seconds as real).Floor
    ensures duration < (points + 1) as real * seconds as real
    ensures points == 1 || points as real * seconds as real <= duration
  {
    var q, s := duration / seconds as real, seconds as real;
    assert q * s == duration;
    MoreTimes(q, (points + 1) as real, s);
    assert duration < (points + 1) as real * s;
    if points != 1 {
      FloorTimes(duration, seconds);
    }
  }

  lemma MoreTimes(q: real, n: real, s: real)
    requires q < n && s > 0.0
    ensures q * s < n * s
  {
    assert (n - q) * s > 0.0;
  }
}
