/** The order of a table's lines, said with the numbers and the texts of their cells. */
module TableRanking {
  import opened Prelude
  import opened ChartStream
  import opened Sorting
  import opened SnapshotTable
  import opened TableLaws

  // ---- texts ----

  /** The texts agree up to offset k, where a ends or has the lesser character. */
  predicate DiffersAt(a: string, b: string, k: nat) {
    k <= |a| && k < |b| && a[..k] == b[..k] && (k == |a| || a[k] < b[k])
  }

  /** The order of strings is that of the first difference. */
  lemma {:induction false} TextBeforeMeaning(a: string, b: string)
    ensures TextBefore(a, b) <==> exists k: nat :: DiffersAt(a, b, k)
  {
    if b != [] && a != [] {
      TextBeforeMeaning(a[1..], b[1..]);
      if k: nat :| DiffersAt(a[1..], b[1..], k) {
        if a[0] == b[0] {
          assert a[..k + 1] == [a[0]] + a[1..][..k] && b[..k + 1] == [b[0]] + b[1..][..k];
          assert DiffersAt(a, b, k + 1);
        }
      }
      if k: nat :| DiffersAt(a, b, k) {
        if k > 0 {
          assert a[..k][0] == b[..k][0];
          assert a[1..][..k - 1] == a[..k][1..] && b[1..][..k - 1] == b[..k][1..];
          assert DiffersAt(a[1..], b[1..], k - 1);
        }
      }
      if a[0] < b[0] {
        assert DiffersAt(a, b, 0);
      }
    } else if b != [] {
      assert DiffersAt(a, b, 0);
    }
  }

  // ---- stability ----

  /** The elements that pass a test, in their order. */
  function Passing<T>(test: T -> bool, s: seq<T>): seq<T> {
    if s == [] then [] else Passing(test, s[..|s| - 1]) + if test(s[|s| - 1]) then [s[|s| - 1]] else []
  }

  lemma {:induction false} PassingAppend<T>(test: T -> bool, a: seq<T>, b: seq<T>)
    ensures Passing(test, a + b) == Passing(test, a) + Passing(test, b)
  {
    if b == [] {
      assert a + b == a;
    } else {
      PassingAppend(test, a, b[..|b| - 1]);
      assert (a + b)[..|a + b| - 1] == a + b[..|b| - 1];
    }
  }

  lemma {:induction false} NonePass<T>(test: T -> bool, s: seq<T>)
    requires forall i :: 0 <= i < |s| ==> !test(s[i])
    ensures Passing(test, s) == []
  {
    if s != [] {
      NonePass(test, s[..|s| - 1]);
    }
  }

  lemma PassingOne<T>(test: T -> bool, x: T)
    ensures Passing(test, [x]) == if test(x) then [x] else []
  {
    assert [x][..0] == [];
  }

  /** Nothing that passes stands in a sorted list whose first element an element that passes precedes. */
  lemma {:induction false} NonePassBehind<T(!new)>(before: (T, T) -> bool, s: seq<T>, x: T, test: T -> bool)
    requires StrictOrder(before) && Sorted(before, s) && s != [] && before(x, s[0])
    requires test(x) && forall y, z :: test(y) && test(z) ==> !before(y, z)
    ensures Passing(test, s) == []
  {
    forall i | 0 <= i < |s|
      ensures !test(s[i])
    {
      Between(before, x, s[i], s[0]);
    }
    NonePass(test, s);
  }

  lemma {:induction false} InsertInFront<T(!new)>(before: (T, T) -> bool, s: seq<T>, x: T, test: T -> bool)
    requires StrictOrder(before) && Sorted(before, s) && s != [] && before(x, s[0])
    requires forall y, z :: test(y) && test(z) ==> !before(y, z)
    ensures Passing(test, [x] + s) == Passing(test, s + [x])
  {
    PassingAppend(test, s, [x]);
    PassingAppend(test, [x], s);
    PassingOne(test, x);
    if test(x) {
      NonePassBehind(before, s, x, test);
    }
  }

  lemma {:induction false} PassingAround<T>(test: T -> bool, first: T, rest: seq<T>, x: T, inserted: seq<T>)
    requires Passing(test, inserted) == Passing(test, rest + [x])
    ensures Passing(test, [first] + inserted) == Passing(test, [first] + rest + [x])
  {
    PassingAppend(test, [first], inserted);
    PassingAppend(test, [first], rest + [x]);
    assert [first] + rest + [x] == [first] + (rest + [x]);
  }

  /** An element goes in behind those it ties with. */
  lemma {:induction false} InsertStable<T(!new)>(before: (T, T) -> bool, s: seq<T>, x: T, test: T -> bool)
    requires StrictOrder(before) && Sorted(before, s)
    requires forall y, z :: test(y) && test(z) ==> !before(y, z)
    ensures Passing(test, Insert(before, s, x)) == Passing(test, s + [x])
  {
    if s == [] {
      assert s + [x] == [x];
    } else if before(x, s[0]) {
      InsertInFront(before, s, x, test);
    } else {
      InsertStable(before, s[1..], x, test);
      PassingAround(test, s[0], s[1..], x, Insert(before, s[1..], x));
      assert s == [s[0]] + s[1..];
    }
  }

  /** Sorting keeps the order of elements that tie. */
  lemma {:induction false} SortStable<T(!new)>(before: (T, T) -> bool, s: seq<T>, test: T -> bool)
    requires StrictOrder(before) && forall y, z :: test(y) && test(z) ==> !before(y, z)
    ensures Passing(test, Sort(before, s)) == Passing(test, s)
  {
    if s != [] {
      var init, last := s[..|s| - 1], s[|s| - 1];
      SortStable(before, init, test);
      SortMeaning(before, init);
      InsertStable(before, Sort(before, init), last, test);
      PassingAppend(test, Sort(before, init), [last]);
      PassingAppend(test, init, [last]);
      assert s == init + [last];
    }
  }

  // ---- the ranked lines ----

  function Folded(v: Value): string {
    Lower(if v.Field? && v.truthy then v.text else "")
  }

  /** A cell that is there but is no number. */
  predicate IsText(v: Value) {
    v != Null && Number(v).None?
  }

  /** A line with cell x may stand before one with cell y. */
  predicate InOrder(descending: bool, x: Value, y: Value) {
    && (Number(x).Some? && Number(y).Some? ==>
          if descending then Number(x).value >= Number(y).value else Number(x).value <= Number(y).value)
    && (if descending then Number(x).Some? ==> !IsText(y) else Number(y).Some? ==> !IsText(x))
    && (IsText(x) && IsText(y) ==>
          if descending then !TextBefore(Folded(x), Folded(y)) else !TextBefore(Folded(y), Folded(x)))
    && (x == Null ==> y == Null)
  }

  /** Every line has a cell in the column. */
  predicate HaveCells(lines: seq<Line>, i: nat) {
    forall k :: 0 <= k < |lines| ==> i < |lines[k].cells|
  }

  lemma RankingHasCells(table: Table, lines: seq<Line>, i: nat)
    requires SortIndex(table.columns, table.sortColumn, 0) == Some(i) && HaveCells(lines, i)
    ensures HaveCells(Ranked(table, lines), i)
  {
    RankingIsOrdered(table, lines, i);
    var ranked := Ranked(table, lines);
    forall k | 0 <= k < |ranked|
      ensures i < |ranked[k].cells|
    {
      InMultiset(ranked, ranked[k]);
      InMultiset(lines, ranked[k]);
    }
  }

  /**
   Numbers ascend or descend, they come before texts when ascending and behind
   them when descending, folded texts do the same, and missing cells come last.
   */
  lemma RankedInOrder(table: Table, lines: seq<Line>, i: nat, a: nat, b: nat)
    requires SortIndex(table.columns, table.sortColumn, 0) == Some(i) && HaveCells(lines, i)
    requires a < b < |Ranked(table, lines)|
    ensures HaveCells(Ranked(table, lines), i)
    ensures InOrder(table.descending, Ranked(table, lines)[a].cells[i], Ranked(table, lines)[b].cells[i])
  {
    RankingHasCells(table, lines, i);
    RankingIsOrdered(table, lines, i);
    var x, y := Ranked(table, lines)[a], Ranked(table, lines)[b];
    assert !RanksBefore(i, table.descending, y, x);
    if CellAt(x, i) == Null {
      MissingLast(table, lines, i, a, b);
    }
  }

  lemma MissingLast(table: Table, lines: seq<Line>, i: nat, a: nat, b: nat)
    requires SortIndex(table.columns, table.sortColumn, 0) == Some(i)
    requires a < b < |Ranked(table, lines)| && CellAt(Ranked(table, lines)[a], i) == Null
    ensures CellAt(Ranked(table, lines)[b], i) == Null
  {
    RankingIsOrdered(table, lines, i);
    assert !RanksBefore(i, table.descending, Ranked(table, lines)[b], Ranked(table, lines)[a]);
  }

  /** The cells rank alike: the same number, the same folded text, or both missing. */
  predicate Alike(x: Value, y: Value) {
    && (x == Null <==> y == Null) && Number(x) == Number(y)
    && (IsText(x) ==> Folded(x) == Folded(y))
  }

  function AlikeTo(i: nat, v: Value): Line -> bool {
    (line: Line) => i < |line.cells| && Alike(line.cells[i], v)
  }

  lemma {:induction false} PresentPasses(lines: seq<Line>, i: nat, present: bool, v: Value)
    requires HaveCells(lines, i)
    ensures Passing(AlikeTo(i, v), Present(lines, i, present)) ==
            if (v != Null) == present then Passing(AlikeTo(i, v), lines) else []
  {
    if lines != [] {
      var init, last := lines[..|lines| - 1], lines[|lines| - 1];
      PresentPasses(init, i, present, v);
      var kept := if (CellAt(last, i) != Null) == present then [last] else [];
      PassingAppend(AlikeTo(i, v), Present(init, i, present), kept);
      PassingOne(AlikeTo(i, v), last);
    }
  }

  /** Lines whose cells rank alike stay in the order in which their groups appeared. */
  lemma {:induction false} RankingIsStable(table: Table, lines: seq<Line>, i: nat, v: Value)
    requires SortIndex(table.columns, table.sortColumn, 0) == Some(i) && HaveCells(lines, i)
    ensures Passing(AlikeTo(i, v), Ranked(table, lines)) == Passing(AlikeTo(i, v), lines)
  {
    var before, test := LineBefore(i, table.descending), AlikeTo(i, v);
    LineBeforeIsOrder(i, table.descending);
    forall y: Line, z: Line | test(y) && test(z)
      ensures !before(y, z)
    {
      TextAsymmetric(Folded(v), Folded(v));
    }
    var present, missing := Present(lines, i, true), Present(lines, i, false);
    SortStable(before, present, test);
    PassingAppend(test, Sort(before, present), missing);
    PresentPasses(lines, i, true, v);
    PresentPasses(lines, i, false, v);
  }

  // ---- the rows of a table ----

  /** The lines of a table before they are ranked and limited. */
  function TableLines(table: Table, samples: seq<Sample>): seq<Line> {
    var sorted := Sort(Earlier(), samples);
    var all := EntriesOf(sorted, |sorted|);
    var order := KeysOf(table.keyRefs, all, |all|);
    LinesOf(table, order, map key | key in order :: GroupOf(table.keyRefs, all, |all|, key))
  }

  /** How many rows a table shows. */
  function Shown(limit: Option<int>, lines: nat): nat {
    if limit.Some? && limit.value > 0 && limit.value < lines then limit.value else lines
  }

  /** The first column with the name. */
  lemma {:induction false} SortIndexMeaning(columns: seq<Column>, name: string, i: nat)
    requires i <= |columns|
    ensures var at := SortIndex(columns, name, i);
            && (at.None? <==> forall k :: i <= k < |columns| ==> columns[k].name != name)
            && (at.Some? ==> i <= at.value && columns[at.value].name == name
                             && forall k :: i <= k < at.value ==> columns[k].name != name)
    decreases |columns| - i
  {
    if i < |columns| && columns[i].name != name {
      SortIndexMeaning(columns, name, i + 1);
    }
  }

  /** The rows are the cells of the first ranked lines, as many as the limit allows. */
  lemma TableShows(table: Table, samples: seq<Sample>)
    ensures var result, ranked := TableOf(table, samples), Ranked(table, TableLines(table, samples));
            && |result.rows| == result.rowCount == Shown(table.limit, |ranked|)
            && result.sampleCount == |samples|
            && forall a :: 0 <= a < |result.rows| ==> result.rows[a] == ranked[a].cells
    ensures (forall k :: 0 <= k < |table.columns| ==> table.columns[k].name != table.sortColumn) ==>
              Ranked(table, TableLines(table, samples)) == TableLines(table, samples)
  {
    EarlierIsOrder();
    SortMeaning(Earlier(), samples);
    SortIndexMeaning(table.columns, table.sortColumn, 0);
  }

  /**
   The limit keeps the top of the ranking: in the column that sorts, no line cut
   off has a larger number than a kept row when descending, or a smaller one when
   ascending.
   */
  lemma TopRows(table: Table, samples: seq<Sample>, i: nat, row: nat, cut: nat)
    requires SortIndex(table.columns, table.sortColumn, 0) == Some(i)
    requires row < |TableOf(table, samples).rows| <= cut < |Ranked(table, TableLines(table, samples))|
    ensures var ranked := Ranked(table, TableLines(table, samples));
            && i < |TableOf(table, samples).rows[row]| && i < |ranked[cut].cells|
            && InOrder(table.descending, TableOf(table, samples).rows[row][i], ranked[cut].cells[i])
            && multiset(ranked) == multiset(TableLines(table, samples))
  {
    var lines := TableLines(table, samples);
    TableShows(table, samples);
    LinesHaveCells(table, samples);
    RankedInOrder(table, lines, i, row, cut);
    RankingIsOrdered(table, lines, i);
  }

  lemma LinesHaveCells(table: Table, samples: seq<Sample>)
    ensures forall line :: line in TableLines(table, samples) ==> |line.cells| == |table.columns|
  {
    var sorted := Sort(Earlier(), samples);
    var all := EntriesOf(sorted, |sorted|);
    var order := KeysOf(table.keyRefs, all, |all|);
    CellsOfLines(table, order, map key | key in order :: GroupOf(table.keyRefs, all, |all|, key));
  }

  lemma {:induction false} CellsOfLines(table: Table, order: seq<GroupKey>, groups: map<GroupKey, Group>)
    requires forall key :: key in order ==> key in groups
    ensures forall line :: line in LinesOf(table, order, groups) ==> |line.cells| == |table.columns|
  {
    if order != [] {
      CellsOfLines(table, order[..|order| - 1], groups);
    }
  }

  /** The samples are taken in the order of their timestamps, and those that share one in the order they came. */
  lemma {:induction false} SamplesInOrder(samples: seq<Sample>, t: string)
    ensures var sorted := Sort(Earlier(), samples);
            && multiset(sorted) == multiset(samples)
            && (forall i, j :: 0 <= i < j < |sorted| ==> !TextBefore(sorted[j].timestamp, sorted[i].timestamp))
            && Passing((sample: Sample) => sample.timestamp == t, sorted)
               == Passing((sample: Sample) => sample.timestamp == t, samples)
  {
    EarlierIsOrder();
    SortMeaning(Earlier(), samples);
    TextAsymmetric(t, t);
    SortStable(Earlier(), samples, (sample: Sample) => sample.timestamp == t);
    var sorted := Sort(Earlier(), samples);
    forall i, j | 0 <= i < j < |sorted|
      ensures !TextBefore(sorted[j].timestamp, sorted[i].timestamp)
    {
      assert !Earlier()(sorted[j], sorted[i]);
    }
  }
}
