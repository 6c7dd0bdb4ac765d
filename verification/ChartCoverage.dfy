/** Coverage accounting over the sets of series that each sample showed. */
module ChartCoverage {

  datatype Coverage = Coverage(effectiveSamples: nat, observedSeries: nat, missing: nat, changes: nat)

  /** The first sample that shows any series, or the number of samples. */
  function FirstActive<K>(active: seq<set<K>>): (first: nat)
    ensures first <= |active| && (first < |active| ==> active[first] != {})
    ensures forall i :: 0 <= i < first ==> active[i] == {}
  {
    if active == [] || active[0] != {} then 0 else 1 + FirstActive(active[1..])
  }

  function Union<K>(active: seq<set<K>>): (all: set<K>)
    ensures forall i :: 0 <= i < |active| ==> active[i] <= all
    ensures forall key :: key in all ==> exists i :: 0 <= i < |active| && key in active[i]
  {
    if active == [] then {} else Union(active[..|active| - 1]) + active[|active| - 1]
  }

  function Missing<K>(all: set<K>, active: seq<set<K>>): nat {
    if active == [] then 0
    else Missing(all, active[..|active| - 1]) + |all - active[|active| - 1]|
  }

  function Changes<K>(active: seq<set<K>>): nat {
    if |active| < 2 then 0
    else Changes(active[..|active| - 1]) + if active[|active| - 1] != active[|active| - 2] then 1 else 0
  }

  function CoverageOf<K>(active: seq<set<K>>): Coverage {
    var effective := active[FirstActive(active)..];
    var all := Union(effective);
    Coverage(|effective|, |all|, Missing(all, effective), Changes(effective))
  }

  lemma {:induction false} PrefixSteps<K>(all: set<K>, active: seq<set<K>>, i: nat)
    requires i < |active|
    ensures Union(active[..i + 1]) == Union(active[..i]) + active[i]
    ensures Missing(all, active[..i + 1]) == Missing(all, active[..i]) + |all - active[i]|
    ensures Changes(active[..i + 1]) ==
            Changes(active[..i]) + if i > 0 && active[i] != active[i - 1] then 1 else 0
  {
    assert active[..i + 1][..i] == active[..i];
  }

  /** set().union(*effective) */
  method UnionAll<K(==)>(active: seq<set<K>>) returns (all: set<K>)
    ensures all == Union(active)
  {
    all := {};
    for i := 0 to |active|
      invariant all == Union(active[..i])
    {
      PrefixSteps(all, active, i);
      all := all + active[i];
    }
    assert active[..|active|] == active;
  }

  /** The two sums over the effective samples. */
  method CountGaps<K(==)>(all: set<K>, active: seq<set<K>>) returns (missing: nat, changes: nat)
    ensures missing == Missing(all, active) && changes == Changes(active)
  {
    missing, changes := 0, 0;
    for i := 0 to |active|
      invariant missing == Missing(all, active[..i]) && changes == Changes(active[..i])
    {
      PrefixSteps(all, active, i);
      missing := missing + |all - active[i]|;
      if i > 0 && active[i] != active[i - 1] {
        changes := changes + 1;
      }
    }
    assert active[..|active|] == active;
  }

  /** The coverage block of build_chart_result. */
  method ComputeCoverage<K(==)>(active: seq<set<K>>) returns (coverage: Coverage)
    ensures coverage == CoverageOf(active)
  {
    var effective := active[FirstActive(active)..];
    var all := UnionAll(effective);
    var missing, changes := CountGaps(all, effective);
    coverage := Coverage(|effective|, |all|, missing, changes);
  }

  function TotalSize<K>(active: seq<set<K>>): nat {
    if active == [] then 0 else TotalSize(active[..|active| - 1]) + |active[|active| - 1]|
  }

  lemma {:induction false} MissingArithmetic<K>(all: set<K>, active: seq<set<K>>)
    requires forall i :: 0 <= i < |active| ==> active[i] <= all
    ensures Missing(all, active) == |active| * |all| - TotalSize(active)
  {
    if active != [] {
      var n := |active| - 1;
      MissingArithmetic(all, active[..n]);
      Difference(all, active[n]);
      assert |active| * |all| == n * |all| + |all|;
    }
  }

  lemma Difference<K>(all: set<K>, part: set<K>)
    requires part <= all
    ensures |all - part| == |all| - |part|
    ensures |all - part| == 0 <==> part == all
  {
    assert (all - part) + part == all;
    assert (all - part) !! part;
    if |all - part| == 0 {
      assert all - part == {};
    }
  }

  /** Nothing is missing exactly when every sample shows every series. */
  lemma {:induction false} MissingZero<K>(all: set<K>, active: seq<set<K>>)
    requires forall i :: 0 <= i < |active| ==> active[i] <= all
    ensures Missing(all, active) == 0 <==> forall i :: 0 <= i < |active| ==> active[i] == all
  {
    if active != [] {
      MissingZero(all, active[..|active| - 1]);
      Difference(all, active[|active| - 1]);
      assert active == active[..|active| - 1] + [active[|active| - 1]];
    }
  }

  lemma {:induction false} NoChanges<K>(active: seq<set<K>>)
    ensures Changes(active) == 0 <==> forall i :: 0 <= i < |active| ==> active[i] == active[0]
  {
    if |active| >= 2 {
      NoChanges(active[..|active| - 1]);
    }
  }

  lemma {:induction false} ChangesBound<K>(all: set<K>, active: seq<set<K>>)
    requires forall i :: 0 <= i < |active| ==> active[i] <= all
    ensures Changes(active) <= 2 * Missing(all, active)
    ensures |active| > 0 && active[|active| - 1] != all ==> Changes(active) + 1 <= 2 * Missing(all, active)
  {
    if active != [] {
      var n := |active| - 1;
      ChangesBound(all, active[..n]);
      Difference(all, active[n]);
    }
  }

  lemma {:induction false} UnionOfEqual<K>(active: seq<set<K>>)
    requires |active| > 0 && forall i :: 0 <= i < |active| ==> active[i] == active[0]
    ensures Union(active) == active[0]
  {
  }

  lemma {:induction false} EffectiveLaws<K>(active: seq<set<K>>)
    ensures var all := Union(active);
            && Missing(all, active) == |active| * |all| - TotalSize(active)
            && (Missing(all, active) == 0 <==> Changes(active) == 0)
            && Changes(active) <= 2 * Missing(all, active)
  {
    var all := Union(active);
    MissingArithmetic(all, active);
    MissingZero(all, active);
    NoChanges(active);
    ChangesBound(all, active);
    if active != [] && forall i :: 0 <= i < |active| ==> active[i] == active[0] {
      UnionOfEqual(active);
    }
  }

  /** The documented relations between the four coverage numbers. */
  lemma {:induction false} CoverageLaws<K>(active: seq<set<K>>)
    ensures var c := CoverageOf(active);
            && c.missing == c.effectiveSamples * c.observedSeries - TotalSize(active[FirstActive(active)..])
            && (c.missing == 0 <==> c.changes == 0)
            && c.changes <= 2 * c.missing
  {
    EffectiveLaws(active[FirstActive(active)..]);
  }

  lemma SameAll<K>(active: seq<set<K>>, effective: seq<set<K>>, first: nat)
    requires first <= |active| && effective == active[first..]
    ensures (forall i :: 0 <= i < |effective| ==> effective[i] == effective[0])
        <==> (forall i, j :: first <= i < |active| && first <= j < |active| ==> active[i] == active[j])
  {
    if forall i :: 0 <= i < |effective| ==> effective[i] == effective[0] {
      forall i, j | first <= i < |active| && first <= j < |active|
        ensures active[i] == active[j]
      {
        assert active[i] == effective[i - first] && active[j] == effective[j - first];
      }
    }
  }

  /** Samples before the first active one add no series. */
  lemma {:induction false} UnionOfEffective<K>(active: seq<set<K>>, key: K)
    ensures key in Union(active[FirstActive(active)..]) <==> exists i :: 0 <= i < |active| && key in active[i]
  {
    var first := FirstActive(active);
    var effective := active[first..];
    if i :| 0 <= i < |active| && key in active[i] {
      assert i >= first && effective[i - first] == active[i];
    }
  }

  /** chart_coverage_diagnostics warns exactly when an observation is missing. */
  predicate CoverageWarning(coverage: Coverage) {
    !(coverage.missing == 0 && coverage.changes == 0)
  }

  lemma {:induction false} WarningMeansGap<K>(active: seq<set<K>>)
    ensures CoverageWarning(CoverageOf(active)) <==>
              exists i, j :: FirstActive(active) <= i < |active| && FirstActive(active) <= j < |active|
                && active[i] != active[j]
  {
    var effective := active[FirstActive(active)..];
    CoverageLaws(active);
    NoChanges(effective);
    SameAll(active, effective, FirstActive(active));
  }
}
