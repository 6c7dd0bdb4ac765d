/**
 apply_chart_budget: bound a chart by series, points per series and total
 points, keeping the newest points.  The series objects are cut in place.
 */
module ChartBudget {
  import opened Prelude

  class Series<P> {
    var points: seq<P>

    constructor (points: seq<P>)
      ensures this.points == points
    {
      this.points := points;
    }
  }

  datatype Truncation = Truncation(
    originalSeries: nat, retainedSeries: nat, originalPoints: nat, retainedPoints: nat,
    maxSeries: int, perSeries: int, total: int)

  /** The chart result that the budget changes in place. */
  class Chart<P> {
    var series: seq<Series<P>>
    var seriesCount: nat
    var pointCount: nat
    var truncation: Option<Truncation>

    constructor (series: seq<Series<P>>)
      ensures this.series == series && truncation == None
    {
      this.series, seriesCount, pointCount, truncation := series, |series|, 0, None;
    }
  }

  datatype Diagnostic = ChartBudgetTruncated

  datatype BudgetError = BudgetNotPositive

  // ---- the budget as a function of the point lists ----

  function Min(a: int, b: int): int {
    if a < b then a else b
  }

  /** The newest n points. */
  function Newest<P>(points: seq<P>, n: nat): (kept: seq<P>)
    ensures |kept| == Min(|points|, n)
  {
    if |points| > n then points[|points| - n..] else points
  }

  function Total<P>(lists: seq<seq<P>>): nat {
    if lists == [] then 0 else |lists[0]| + Total(lists[1..])
  }

  function OneOrNone<P>(list: seq<P>): (lists: seq<seq<P>>) {
    if list == [] then [] else [list]
  }

  function DropEmpty<P>(lists: seq<seq<P>>): seq<seq<P>> {
    if lists == [] then []
    else OneOrNone(lists[0]) + DropEmpty(lists[1..])
  }

  /** A list cut to its own limit and then to what is left of the total. */
  function CutTo<P>(points: seq<P>, perSeries: nat, remaining: nat): (cut: seq<P>)
    ensures |cut| == Min(Min(|points|, perSeries), remaining)
  {
    Newest(Newest(points, perSeries), remaining)
  }

  lemma CutIsSuffix<P>(points: seq<P>, perSeries: nat, remaining: nat)
    ensures var cut := CutTo(points, perSeries, remaining); cut == points[|points| - |cut|..]
  {
  }

  /** Each list cut to its own limit and then to what is left of the total. */
  function Spend<P>(lists: seq<seq<P>>, perSeries: nat, remaining: nat): seq<seq<P>> {
    if lists == [] then []
    else
      var cut := CutTo(lists[0], perSeries, remaining);
      [cut] + Spend(lists[1..], perSeries, remaining - |cut|)
  }

  function Bounded<P>(lists: seq<seq<P>>, perSeries: nat, remaining: nat): seq<seq<P>> {
    DropEmpty(Spend(lists, perSeries, remaining))
  }

  /** What is left of a chart. */
  function Budgeted<P>(lists: seq<seq<P>>, maxSeries: nat, perSeries: nat, total: nat): seq<seq<P>> {
    Bounded(lists[..Min(|lists|, maxSeries)], perSeries, total)
  }

  // ---- the laws ----

  /** The points the series offer within their own limit. */
  function Offered<P>(lists: seq<seq<P>>, perSeries: nat): nat {
    if lists == [] then 0 else Min(|lists[0]|, perSeries) + Offered(lists[1..], perSeries)
  }

  lemma {:induction false} TotalCons<P>(list: seq<P>, rest: seq<seq<P>>)
    ensures Total([list] + rest) == |list| + Total(rest)
  {
    assert ([list] + rest)[1..] == rest;
  }

  lemma {:induction false} TotalKept<P>(cut: seq<P>, rest: seq<seq<P>>)
    ensures Total(OneOrNone(cut) + rest) == |cut| + Total(rest)
  {
    if cut == [] {
      assert [] + rest == rest;
    } else {
      TotalCons(cut, rest);
    }
  }

  lemma {:induction false} BoundedCons<P>(lists: seq<seq<P>>, perSeries: nat, remaining: nat)
    requires lists != []
    ensures var cut := CutTo(lists[0], perSeries, remaining);
            Bounded(lists, perSeries, remaining) ==
            OneOrNone(cut) + Bounded(lists[1..], perSeries, remaining - |cut|)
    ensures DropEmpty(lists) == OneOrNone(lists[0]) + DropEmpty(lists[1..])
  {
    var cut := CutTo(lists[0], perSeries, remaining);
    var rest := Spend(lists[1..], perSeries, remaining - |cut|);
    assert ([cut] + rest)[1..] == rest;
  }

  lemma KeptAndLeft(own: nat, remaining: nat, offered: nat)
    ensures var cut := Min(own, remaining); cut + Min(remaining - cut, offered) == Min(remaining, own + offered)
  {
  }

  lemma {:induction false} BoundedTotalStep<P>(lists: seq<seq<P>>, perSeries: nat, remaining: nat)
    requires lists != []
    requires var left := remaining - |CutTo(lists[0], perSeries, remaining)|;
             Total(Bounded(lists[1..], perSeries, left)) == Min(left, Offered(lists[1..], perSeries))
    ensures Total(Bounded(lists, perSeries, remaining)) == Min(remaining, Offered(lists, perSeries))
  {
    var cut := CutTo(lists[0], perSeries, remaining);
    BoundedCons(lists, perSeries, remaining);
    TotalKept(cut, Bounded(lists[1..], perSeries, remaining - |cut|));
    KeptAndLeft(Min(|lists[0]|, perSeries), remaining, Offered(lists[1..], perSeries));
  }

  lemma {:induction false} BoundedTotal<P>(lists: seq<seq<P>>, perSeries: nat, remaining: nat)
    ensures Total(Bounded(lists, perSeries, remaining)) == Min(remaining, Offered(lists, perSeries))
  {
    if lists != [] {
      BoundedTotal(lists[1..], perSeries, remaining - |CutTo(lists[0], perSeries, remaining)|);
      BoundedTotalStep(lists, perSeries, remaining);
    }
  }

  /** The chart keeps exactly the total budget or everything the other two limits leave. */
  lemma {:induction false} BudgetTotal<P>(lists: seq<seq<P>>, maxSeries: nat, perSeries: nat, total: nat)
    ensures Total(Budgeted(lists, maxSeries, perSeries, total))
         == Min(total, Offered(lists[..Min(|lists|, maxSeries)], perSeries))
  {
    var retained := lists[..Min(|lists|, maxSeries)];
    BoundedTotal(retained, perSeries, total);
  }

  /** A non-empty suffix no longer than the limit. */
  ghost predicate IsSuffix<P>(cut: seq<P>, list: seq<P>, perSeries: nat) {
    1 <= |cut| <= perSeries && |cut| <= |list| && cut == list[|list| - |cut|..]
  }

  /** kept[i] is a non-empty suffix of source[i], for every i there is. */
  ghost predicate Suffixes<P>(kept: seq<seq<P>>, source: seq<seq<P>>, perSeries: nat) {
    |kept| <= |source| && forall i :: 0 <= i < |kept| ==> IsSuffix(kept[i], source[i], perSeries)
  }

  lemma {:induction false} SpendNothing<P>(lists: seq<seq<P>>, perSeries: nat)
    ensures Bounded(lists, perSeries, 0) == []
  {
    if lists != [] {
      SpendNothing(lists[1..], perSeries);
    }
  }

  lemma SuffixesCons<P>(cut: seq<P>, list: seq<P>, kept: seq<seq<P>>, source: seq<seq<P>>, perSeries: nat)
    requires Suffixes(kept, source, perSeries)
    requires IsSuffix(cut, list, perSeries)
    ensures Suffixes([cut] + kept, [list] + source, perSeries)
  {
  }

  lemma GrowSuffixes<P>(cut: seq<P>, list: seq<P>, kept: seq<seq<P>>, source: seq<seq<P>>, perSeries: nat)
    requires Suffixes(kept, source, perSeries)
    requires if list == [] then cut == [] else IsSuffix(cut, list, perSeries)
    ensures Suffixes(OneOrNone(cut) + kept, OneOrNone(list) + source, perSeries)
  {
    if list == [] {
      assert [] + kept == kept && [] + source == source;
    } else {
      SuffixesCons(cut, list, kept, source, perSeries);
    }
  }

  /** Kept series i is a suffix of the i-th non-empty series, no longer than the limit. */
  lemma {:induction false} BoundedSuffixes<P>(lists: seq<seq<P>>, perSeries: nat, remaining: nat)
    requires perSeries > 0
    ensures Suffixes(Bounded(lists, perSeries, remaining), DropEmpty(lists), perSeries)
  {
    if remaining == 0 {
      SpendNothing(lists, perSeries);
    } else if lists != [] {
      var cut := CutTo(lists[0], perSeries, remaining);
      var kept := Bounded(lists[1..], perSeries, remaining - |cut|);
      BoundedSuffixes(lists[1..], perSeries, remaining - |cut|);
      BoundedCons(lists, perSeries, remaining);
      CutIsSuffix(lists[0], perSeries, remaining);
      GrowSuffixes(cut, lists[0], kept, DropEmpty(lists[1..]), perSeries);
    }
  }

  ghost predicate AllSizes<P>(lists: seq<seq<P>>, perSeries: nat) {
    forall i :: 0 <= i < |lists| ==> 1 <= |lists[i]| <= perSeries
  }

  /** The chart is within all three limits and has no empty series. */
  ghost predicate Within<P>(lists: seq<seq<P>>, maxSeries: nat, perSeries: nat, total: nat) {
    |lists| <= maxSeries && AllSizes(lists, perSeries) && Total(lists) <= total
  }

  lemma {:induction false} DropEmptyLength<P>(lists: seq<seq<P>>)
    ensures |DropEmpty(lists)| <= |lists|
    ensures |DropEmpty(lists)| == |lists| ==> DropEmpty(lists) == lists
  {
    if lists != [] {
      DropEmptyLength(lists[1..]);
      assert lists == [lists[0]] + lists[1..];
    }
  }

  /** The result respects all three limits. */
  lemma BudgetRespected<P>(lists: seq<seq<P>>, maxSeries: nat, perSeries: nat, total: nat)
    requires perSeries > 0
    ensures Within(Budgeted(lists, maxSeries, perSeries, total), maxSeries, perSeries, total)
    ensures Suffixes(Budgeted(lists, maxSeries, perSeries, total),
                     DropEmpty(lists[..Min(|lists|, maxSeries)]), perSeries)
  {
    var retained := lists[..Min(|lists|, maxSeries)];
    BoundedSuffixes(retained, perSeries, total);
    DropEmptyLength(retained);
    BudgetTotal(lists, maxSeries, perSeries, total);
  }

  lemma {:induction false} WithinUntouched<P>(lists: seq<seq<P>>, perSeries: nat, remaining: nat)
    requires AllSizes(lists, perSeries) && Total(lists) <= remaining
    ensures Bounded(lists, perSeries, remaining) == lists
  {
    if lists != [] {
      var cut := CutTo(lists[0], perSeries, remaining);
      CutIsSuffix(lists[0], perSeries, remaining);
      assert cut == lists[0];
      WithinUntouched(lists[1..], perSeries, remaining - |cut|);
      BoundedCons(lists, perSeries, remaining);
      assert lists == [lists[0]] + lists[1..];
    }
  }

  /** A chart is left alone exactly when it is within all limits and has no empty series. */
  lemma BudgetUnchanged<P>(lists: seq<seq<P>>, maxSeries: nat, perSeries: nat, total: nat)
    requires perSeries > 0
    ensures Budgeted(lists, maxSeries, perSeries, total) == lists <==> Within(lists, maxSeries, perSeries, total)
  {
    BudgetRespected(lists, maxSeries, perSeries, total);
    if Within(lists, maxSeries, perSeries, total) {
      assert lists[..Min(|lists|, maxSeries)] == lists;
      WithinUntouched(lists, perSeries, total);
    }
  }

  /** A second application changes no series. */
  lemma BudgetIdempotent<P>(lists: seq<seq<P>>, maxSeries: nat, perSeries: nat, total: nat)
    requires perSeries > 0
    ensures var once := Budgeted(lists, maxSeries, perSeries, total);
            Budgeted(once, maxSeries, perSeries, total) == once
  {
    BudgetRespected(lists, maxSeries, perSeries, total);
    BudgetUnchanged(Budgeted(lists, maxSeries, perSeries, total), maxSeries, perSeries, total);
  }

  lemma SuffixesRest<P>(kept: seq<seq<P>>, source: seq<seq<P>>, perSeries: nat)
    requires Suffixes(kept, source, perSeries) && kept != []
    ensures IsSuffix(kept[0], source[0], perSeries) && Suffixes(kept[1..], source[1..], perSeries)
  {
    forall i | 0 <= i < |kept[1..]|
      ensures IsSuffix(kept[1..][i], source[1..][i], perSeries)
    {
      assert kept[1..][i] == kept[i + 1] && source[1..][i] == source[i + 1];
    }
  }

  lemma {:induction false} SuffixesTotal<P>(kept: seq<seq<P>>, source: seq<seq<P>>, perSeries: nat)
    requires Suffixes(kept, source, perSeries) && |kept| == |source|
    ensures Total(kept) <= Total(source)
    ensures Total(kept) == Total(source) ==> kept == source
  {
    if kept != [] {
      var first, origin := kept[0], source[0];
      var rest, others := kept[1..], source[1..];
      SuffixesRest(kept, source, perSeries);
      SuffixesTotal(rest, others, perSeries);
      if Total(kept) == Total(source) {
        assert |first| == |origin| && first == origin[0..];
        assert kept == [first] + rest && source == [origin] + others;
      }
    }
  }

  /** Equal counts mean equal series: the test for truncation is exact. */
  lemma {:induction false} CountsDecide<P>(lists: seq<seq<P>>, maxSeries: nat, perSeries: nat, total: nat)
    requires perSeries > 0
    ensures var kept := Budgeted(lists, maxSeries, perSeries, total);
            kept == lists <==> |kept| == |lists| && Total(kept) == Total(lists)
  {
    var kept := Budgeted(lists, maxSeries, perSeries, total);
    var retained := lists[..Min(|lists|, maxSeries)];
    BudgetRespected(lists, maxSeries, perSeries, total);
    DropEmptyLength(retained);
    if |kept| == |lists| && Total(kept) == Total(lists) {
      assert retained == lists && DropEmpty(lists) == lists;
      SuffixesTotal(kept, lists, perSeries);
    }
  }

  // ---- the in-place algorithm ----

  function Lists<P>(series: seq<Series<P>>): (lists: seq<seq<P>>)
    reads series
    ensures |lists| == |series| && forall i :: 0 <= i < |series| ==> lists[i] == series[i].points
  {
    if series == [] then [] else [series[0].points] + Lists(series[1..])
  }

  ghost predicate Distinct<P>(series: seq<Series<P>>) {
    forall i, j :: 0 <= i < j < |series| ==> series[i] != series[j]
  }

  /** sum(len(series.points)) */
  method CountPoints<P>(series: seq<Series<P>>) returns (count: nat)
    ensures count == Total(Lists(series))
  {
    count := 0;
    ghost var lists := Lists(series);
    for i := 0 to |series|
      invariant lists == Lists(series) && count + Total(lists[i..]) == Total(lists)
    {
      count := count + |series[i].points|;
      assert lists[i..][1..] == lists[i + 1..];
    }
  }

  /** The first loop: each retained series keeps its newest points. */
  method CutEach<P>(retained: seq<Series<P>>, perSeries: nat)
    requires Distinct(retained) && perSeries > 0
    modifies retained
    ensures forall i :: 0 <= i < |retained| ==> retained[i].points == Newest(old(retained[i].points), perSeries)
  {
    for i := 0 to |retained|
      invariant forall j :: 0 <= j < i ==> retained[j].points == Newest(old(retained[j].points), perSeries)
      invariant forall j :: i <= j < |retained| ==> retained[j].points == old(retained[j].points)
    {
      var points := retained[i].points;
      if |points| > perSeries {
        retained[i].points := points[|points| - perSeries..];
      }
    }
  }

  /** One series of the second loop: cut it to what is left of the total. */
  method SpendOne<P>(series: Series<P>, remaining: nat) returns (left: nat)
    requires remaining > 0
    modifies series
    ensures series.points == Newest(old(series.points), remaining) && left == remaining - |series.points|
  {
    var points := series.points;
    if |points| > remaining {
      series.points := points[|points| - remaining..];
    }
    left := remaining - |series.points|;
  }

  /** The second loop before turn i: what is still as it was, and what is already kept. */
  ghost predicate SpentTo<P>(retained: seq<Series<P>>, bounded: seq<Series<P>>, i: nat, remaining: nat,
                             lists: seq<seq<P>>, perSeries: nat, goal: seq<seq<P>>)
    reads retained, bounded
  {
    && i <= |retained| == |lists|
    && (forall j :: i <= j < |retained| ==> retained[j].points == Newest(lists[j], perSeries))
    && (forall s :: s in bounded ==> s in retained[..i])
    && Lists(bounded) + Bounded(lists[i..], perSeries, remaining) == goal
  }

  /** One turn of the second loop: cut the series to what is left of the total, keep it unless it is empty. */
  method SpendTurn<P>(retained: seq<Series<P>>, bounded: seq<Series<P>>, i: nat, remaining: nat,
                      ghost lists: seq<seq<P>>, ghost perSeries: nat, ghost goal: seq<seq<P>>)
    returns (longer: seq<Series<P>>, left: nat)
    requires Distinct(retained) && i < |retained| && remaining > 0
    requires SpentTo(retained, bounded, i, remaining, lists, perSeries, goal)
    modifies retained[i]
    ensures SpentTo(retained, longer, i + 1, left, lists, perSeries, goal)
  {
    SpendStep(lists, perSeries, i, remaining, Lists(bounded), goal);
    NotYet(retained, bounded, i);
    ghost var before := Lists(bounded);
    left := SpendOne(retained[i], remaining);
    assert retained[i].points == CutTo(lists[i], perSeries, remaining);
    assert Lists(bounded) == before;
    longer := bounded;
    if retained[i].points != [] {
      ListsAppend(bounded, retained[i]);
      longer := bounded + [retained[i]];
    }
  }

  /** The second loop: spend the total in order, stop when it is used up, skip empty series. */
  method SpendTotal<P>(retained: seq<Series<P>>, total: nat, ghost lists: seq<seq<P>>, ghost perSeries: nat)
    returns (bounded: seq<Series<P>>)
    requires Distinct(retained) && |lists| == |retained| && perSeries > 0
    requires forall i :: 0 <= i < |retained| ==> retained[i].points == Newest(lists[i], perSeries)
    modifies retained
    ensures Lists(bounded) == Bounded(lists, perSeries, total)
    ensures forall s :: s in bounded ==> s in retained
  {
    SpendStart(retained, total, lists, perSeries);
    bounded := SpendAll(retained, total, lists, perSeries, Bounded(lists, perSeries, total));
  }

  method SpendAll<P>(retained: seq<Series<P>>, total: nat, ghost lists: seq<seq<P>>, ghost perSeries: nat,
                     ghost goal: seq<seq<P>>)
    returns (bounded: seq<Series<P>>)
    requires Distinct(retained) && SpentTo(retained, [], 0, total, lists, perSeries, goal)
    modifies retained
    ensures Lists(bounded) == goal
    ensures forall s :: s in bounded ==> s in retained
  {
    var remaining: nat := total;
    bounded := [];
    var i := 0;
    while i < |retained| && remaining > 0
      invariant SpentTo(retained, bounded, i, remaining, lists, perSeries, goal)
    {
      bounded, remaining := SpendTurn(retained, bounded, i, remaining, lists, perSeries, goal);
      i := i + 1;
    }
    SpendEnd(retained, bounded, i, remaining, lists, perSeries, goal);
  }

  lemma SpendStart<P>(retained: seq<Series<P>>, total: nat, lists: seq<seq<P>>, perSeries: nat)
    requires |lists| == |retained|
    requires forall i :: 0 <= i < |retained| ==> retained[i].points == Newest(lists[i], perSeries)
    ensures SpentTo(retained, [], 0, total, lists, perSeries, Bounded(lists, perSeries, total))
  {
    assert lists[0..] == lists;
    var goal := Bounded(lists, perSeries, total);
    assert Lists<P>([]) + goal == goal;
  }

  lemma {:induction false} SpendEnd<P>(
      retained: seq<Series<P>>, bounded: seq<Series<P>>, i: nat, remaining: nat, lists: seq<seq<P>>,
      perSeries: nat, goal: seq<seq<P>>)
    requires SpentTo(retained, bounded, i, remaining, lists, perSeries, goal)
    requires i == |retained| || remaining == 0
    ensures Lists(bounded) == goal
    ensures forall s :: s in bounded ==> s in retained
  {
    SpendOver(lists, perSeries, i, remaining, Lists(bounded));
  }

  lemma SpendOver<P>(lists: seq<seq<P>>, perSeries: nat, i: nat, remaining: nat, before: seq<seq<P>>)
    requires i <= |lists| && (i == |lists| || remaining == 0)
    ensures before + Bounded(lists[i..], perSeries, remaining) == before
  {
    if i == |lists| {
      assert lists[i..] == [];
    } else {
      SpendNothing(lists[i..], perSeries);
    }
  }

  lemma SpendStep<P>(lists: seq<seq<P>>, perSeries: nat, i: nat, remaining: nat, before: seq<seq<P>>, goal: seq<seq<P>>)
    requires i < |lists| && before + Bounded(lists[i..], perSeries, remaining) == goal
    ensures var cut := CutTo(lists[i], perSeries, remaining);
            (if cut == [] then before else before + [cut])
            + Bounded(lists[i + 1..], perSeries, remaining - |cut|) == goal
  {
    BoundedCons(lists[i..], perSeries, remaining);
    assert lists[i..][1..] == lists[i + 1..];
    var cut := CutTo(lists[i], perSeries, remaining);
    var rest := Bounded(lists[i + 1..], perSeries, remaining - |cut|);
    if cut == [] {
      assert [] + rest == rest;
    } else {
      assert before + [cut] + rest == before + ([cut] + rest);
    }
  }

  lemma NotYet<P>(retained: seq<Series<P>>, bounded: seq<Series<P>>, i: nat)
    requires Distinct(retained) && i < |retained|
    requires forall s :: s in bounded ==> s in retained[..i]
    ensures retained[i] !in bounded
    ensures forall j :: i < j < |retained| ==> retained[j] != retained[i]
    ensures forall s :: s in bounded || s == retained[i] ==> s in retained[..i + 1]
  {
    assert retained[..i + 1] == retained[..i] + [retained[i]];
  }

  lemma {:induction false} ListsAppend<P>(series: seq<Series<P>>, last: Series<P>)
    ensures Lists(series + [last]) == Lists(series) + [last.points]
  {
  }

  /** Both loops. */
  method BoundSeries<P>(original: seq<Series<P>>, maxSeries: nat, perSeries: nat, total: nat)
    returns (bounded: seq<Series<P>>)
    requires Distinct(original) && perSeries > 0
    modifies original
    ensures Lists(bounded) == Budgeted(old(Lists(original)), maxSeries, perSeries, total)
    ensures forall s :: s in bounded ==> s in original
  {
    ghost var lists := Lists(original);
    var retained := original[..Min(|original|, maxSeries)];
    CutEach(retained, perSeries);
    bounded := SpendTotal(retained, total, lists[..|retained|], perSeries);
  }

  /** The last part: the new series list, the counts and, if anything was cut, the truncation record. */
  method Publish<P(==)>(chart: Chart<P>, bounded: seq<Series<P>>, originalCount: nat, originalPoints: nat,
                        maxSeries: nat, perSeries: nat, total: nat, ghost lists: seq<seq<P>>)
    returns (diagnostics: seq<Diagnostic>)
    requires Lists(bounded) == lists <==> |bounded| == originalCount && Total(Lists(bounded)) == originalPoints
    modifies chart
    ensures chart.series == bounded && chart.seriesCount == |bounded|
    ensures chart.pointCount == Total(Lists(bounded))
    ensures diagnostics == if Lists(bounded) == lists then [] else [ChartBudgetTruncated]
    ensures chart.truncation == if diagnostics == [] then old(chart.truncation) else
              Some(Truncation(originalCount, |bounded|, originalPoints, Total(Lists(bounded)),
                              maxSeries, perSeries, total))
  {
    var retainedPoints := CountPoints(bounded);
    chart.series := bounded;
    chart.seriesCount := |bounded|;
    chart.pointCount := retainedPoints;
    if |bounded| == originalCount && retainedPoints == originalPoints {
      return [];
    }
    chart.truncation := Some(Truncation(
      originalCount, |bounded|, originalPoints, retainedPoints, maxSeries, perSeries, total));
    return [ChartBudgetTruncated];
  }

  /** apply_chart_budget for limits of at least one. */
  method ApplyLimits<P(==)>(chart: Chart<P>, maxSeries: nat, perSeries: nat, total: nat)
    returns (diagnostics: seq<Diagnostic>)
    requires Distinct(chart.series) && maxSeries > 0 && perSeries > 0 && total > 0
    modifies chart, chart.series
    ensures Lists(chart.series) == Budgeted(old(Lists(chart.series)), maxSeries, perSeries, total)
    ensures chart.seriesCount == |chart.series| && chart.pointCount == Total(Lists(chart.series))
    ensures diagnostics == if Lists(chart.series) == old(Lists(chart.series)) then [] else [ChartBudgetTruncated]
    ensures chart.truncation == if diagnostics == [] then old(chart.truncation) else
              Some(Truncation(old(|chart.series|), |chart.series|, Total(old(Lists(chart.series))),
                              Total(Lists(chart.series)), maxSeries, perSeries, total))
    ensures forall s :: s in chart.series ==> s in old(chart.series)
  {
    var original := chart.series;
    ghost var lists := Lists(original);
    var originalPoints := CountPoints(original);
    var bounded := BoundSeries(original, maxSeries, perSeries, total);
    CountsDecide(lists, maxSeries, perSeries, total);
    diagnostics := Publish(chart, bounded, |original|, originalPoints, maxSeries, perSeries, total, lists);
  }

  /** apply_chart_budget */
  method ApplyChartBudget<P(==)>(chart: Chart<P>, maxSeries: int, perSeries: int, total: int)
    returns (outcome: Result<seq<Diagnostic>, BudgetError>)
    requires Distinct(chart.series)
    modifies chart, chart.series
    ensures outcome.Err? <==> maxSeries < 1 || perSeries < 1 || total < 1
    ensures outcome.Err? ==> unchanged(chart) && Lists(chart.series) == old(Lists(chart.series))
    ensures outcome.Ok? ==>
              Lists(chart.series) == Budgeted(old(Lists(chart.series)), maxSeries, perSeries, total)
    ensures outcome.Ok? ==> chart.seriesCount == |chart.series| && chart.pointCount == Total(Lists(chart.series))
    ensures outcome.Ok? ==> (outcome.value == [] <==> Lists(chart.series) == old(Lists(chart.series)))
  {
    if maxSeries < 1 || perSeries < 1 || total < 1 {
      return Err(BudgetNotPositive);
    }
    var diagnostics := ApplyLimits(chart, maxSeries, perSeries, total);
    return Ok(diagnostics);
  }
}
