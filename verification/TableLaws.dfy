/** What grouping, dropping, ranking and limiting keep of the sampled rows. */
module TableLaws {
  import opened Prelude
  import opened ChartStream
  import opened Sorting
  import opened SnapshotTable

  // ---- every row in exactly one group ----

  /** The total weight of some rows. */
  function WeightOf(rows: seq<Row>, w: Row -> real): real {
    if rows == [] then 0.0 else WeightOf(rows[..|rows| - 1], w) + w(rows[|rows| - 1])
  }

  function EntryWeight(all: seq<Entry>, n: nat, w: Row -> real): real
    requires n <= |all|
  {
    if n == 0 then 0.0 else EntryWeight(all, n - 1, w) + w(all[n - 1].row)
  }

  /** The total weight of the groups of the first m keys. */
  function GroupWeight(keyRefs: seq<string>, all: seq<Entry>, n: nat, keys: seq<GroupKey>, m: nat, w: Row -> real): real
    requires n <= |all| && m <= |keys|
  {
    if m == 0 then 0.0
    else
      GroupWeight(keyRefs, all, n, keys, m - 1, w) + WeightOf(GroupOf(keyRefs, all, n, keys[m - 1]).rows, w)
  }

  /** The total weight of all groups of the first n rows. */
  function GroupedWeight(keyRefs: seq<string>, all: seq<Entry>, n: nat, w: Row -> real): real
    requires n <= |all|
  {
    var keys := KeysOf(keyRefs, all, n);
    GroupWeight(keyRefs, all, n, keys, |keys|, w)
  }

  lemma {:induction false} KeysMeaning(keyRefs: seq<string>, all: seq<Entry>, n: nat)
    requires n <= |all|
    ensures var keys := KeysOf(keyRefs, all, n);
            && (forall i, j :: 0 <= i < j < |keys| ==> keys[i] != keys[j])
            && (forall k :: 0 <= k < n ==> KeyAt(keyRefs, all, k) in keys)
  {
    if n > 0 {
      KeysMeaning(keyRefs, all, n - 1);
    }
  }

  lemma {:induction false} WeightStep(rows: seq<Row>, row: Row, w: Row -> real)
    ensures WeightOf(rows + [row], w) == WeightOf(rows, w) + w(row)
  {
    assert (rows + [row])[..|rows|] == rows;
  }

  predicate Among(keys: seq<GroupKey>, m: nat, key: GroupKey)
    requires m <= |keys|
  {
    exists i :: 0 <= i < m && keys[i] == key
  }

  /** One more row adds its weight to the group of its key and to no other. */
  lemma {:induction false} GroupWeightStep(
      keyRefs: seq<string>, all: seq<Entry>, n: nat, keys: seq<GroupKey>, m: nat, w: Row -> real)
    requires n < |all| && m <= |keys| && forall i, j :: 0 <= i < j < |keys| ==> keys[i] != keys[j]
    ensures GroupWeight(keyRefs, all, n + 1, keys, m, w) == GroupWeight(keyRefs, all, n, keys, m, w)
              + if Among(keys, m, KeyAt(keyRefs, all, n)) then w(all[n].row) else 0.0
  {
    if m > 0 {
      GroupWeightStep(keyRefs, all, n, keys, m - 1, w);
      WeightStep(GroupOf(keyRefs, all, n, keys[m - 1]).rows, all[n].row, w);
      if keys[m - 1] == KeyAt(keyRefs, all, n) {
        assert !Among(keys, m - 1, KeyAt(keyRefs, all, n));
      }
    }
  }

  lemma {:induction false} GroupWeightPrefix(
      keyRefs: seq<string>, all: seq<Entry>, n: nat, keys: seq<GroupKey>, more: seq<GroupKey>, m: nat, w: Row -> real)
    requires n <= |all| && m <= |keys| && m <= |more| && forall i :: 0 <= i < m ==> more[i] == keys[i]
    ensures GroupWeight(keyRefs, all, n, more, m, w) == GroupWeight(keyRefs, all, n, keys, m, w)
  {
    if m > 0 {
      GroupWeightPrefix(keyRefs, all, n, keys, more, m - 1, w);
    }
  }

  /** A row with a new key is a group of its own. */
  lemma {:induction false} FreshGroupWeight(
      keyRefs: seq<string>, all: seq<Entry>, n: nat, keys: seq<GroupKey>, w: Row -> real)
    requires n < |all| && keys == KeysOf(keyRefs, all, n) && KeyAt(keyRefs, all, n) !in keys
    ensures var more := keys + [KeyAt(keyRefs, all, n)];
            GroupWeight(keyRefs, all, n + 1, more, |more|, w)
            == GroupWeight(keyRefs, all, n + 1, keys, |keys|, w) + w(all[n].row)
  {
    var key := KeyAt(keyRefs, all, n);
    FreshGroup(keyRefs, all, n, key);
    WeightStep([], all[n].row, w);
    assert GroupOf(keyRefs, all, n + 1, key).rows == [] + [all[n].row];
    GroupWeightPrefix(keyRefs, all, n + 1, keys, keys + [key], |keys|, w);
  }

  lemma PartitionStep(keyRefs: seq<string>, all: seq<Entry>, n: nat, w: Row -> real)
    requires n < |all|
    ensures GroupedWeight(keyRefs, all, n + 1, w) == GroupedWeight(keyRefs, all, n, w) + w(all[n].row)
  {
    var keys := KeysOf(keyRefs, all, n);
    KeysMeaning(keyRefs, all, n);
    GroupWeightStep(keyRefs, all, n, keys, |keys|, w);
    if KeyAt(keyRefs, all, n) !in keys {
      assert !Among(keys, |keys|, KeyAt(keyRefs, all, n));
      FreshGroupWeight(keyRefs, all, n, keys, w);
    } else {
      assert Among(keys, |keys|, KeyAt(keyRefs, all, n));
    }
  }

  /**
   Every row belongs to exactly one group: whatever the rows weigh, the groups
   weigh the same as the rows.
   */
  lemma {:induction false} GroupsPartitionRows(keyRefs: seq<string>, all: seq<Entry>, n: nat, w: Row -> real)
    requires n <= |all|
    ensures GroupedWeight(keyRefs, all, n, w) == EntryWeight(all, n, w)
  {
    if n > 0 {
      GroupsPartitionRows(keyRefs, all, n - 1, w);
      PartitionStep(keyRefs, all, n - 1, w);
    }
  }

  /** Without key references each row is a group of its own. */
  lemma {:induction false} RowsStandAlone(all: seq<Entry>, n: nat, k: nat)
    requires k < n <= |all|
    ensures GroupOf([], all, n, Numbered(k)).rows == [all[k].row]
  {
    if k < n - 1 {
      RowsStandAlone(all, n - 1, k);
    } else {
      NumberedKeys(all, k);
      forall i | 0 <= i < k
        ensures KeysOf([], all, k)[i] != Numbered(k)
      {
      }
      FreshGroup([], all, k, Numbered(k));
    }
  }

  // ---- dropped groups ----

  /** What a row adds to the total of a reference. */
  function RefWeight(ref: string): Row -> real {
    (row: Row) => if Number(Nested(row, ref)).Some? then Number(Nested(row, ref)).value else 0.0
  }

  function LineWeight(lines: seq<Line>, w: Row -> real): real {
    if lines == [] then 0.0
    else LineWeight(lines[..|lines| - 1], w) + WeightOf(lines[|lines| - 1].group.rows, w)
  }

  lemma {:induction false} DroppedWeighNothing(refs: seq<string>, rows: seq<Row>, ref: string)
    requires ref in refs && !Lively(refs, rows)
    ensures WeightOf(rows, RefWeight(ref)) == 0.0
  {
    if rows != [] {
      var n := |rows| - 1;
      var j :| 0 <= j < |refs| && refs[j] == ref;
      assert !NonZero(Nested(rows[n], refs[j]));
      forall a, b | 0 <= a < n && 0 <= b < |refs|
        ensures !NonZero(Nested(rows[..n][a], refs[b]))
      {
        assert rows[..n][a] == rows[a];
      }
      DroppedWeighNothing(refs, rows[..n], ref);
    }
  }

  lemma {:induction false} LinesKeepWeight(
      table: Table, all: seq<Entry>, order: seq<GroupKey>, groups: map<GroupKey, Group>, ref: string)
    requires ref in table.dropZeroRefs
    requires forall key :: key in order ==> key in groups
    requires forall key :: key in order ==> groups[key] == GroupOf(table.keyRefs, all, |all|, key)
    ensures LineWeight(LinesOf(table, order, groups), RefWeight(ref))
         == GroupWeight(table.keyRefs, all, |all|, order, |order|, RefWeight(ref))
  {
    if order != [] {
      var m := |order| - 1;
      var key := order[m];
      LinesKeepWeight(table, all, order[..m], groups, ref);
      GroupWeightPrefix(table.keyRefs, all, |all|, order[..m], order, m, RefWeight(ref));
      var before := LinesOf(table, order[..m], groups);
      if KeepsGroup(table, groups[key]) {
        var line := Line(Cells(table.columns, key, groups[key]), groups[key]);
        assert (before + [line])[..|before|] == before;
      } else {
        DroppedWeighNothing(table.dropZeroRefs, groups[key].rows, ref);
        assert before + [] == before;
      }
    }
  }

  /** Dropping the all-zero groups leaves the total of every drop reference as it was. */
  lemma {:induction false} DroppingKeepsTotals(
      table: Table, all: seq<Entry>, order: seq<GroupKey>, groups: map<GroupKey, Group>, ref: string)
    requires ref in table.dropZeroRefs && GroupsAgree(table.keyRefs, all, |all|, order, groups)
    ensures LineWeight(LinesOf(table, order, groups), RefWeight(ref)) == EntryWeight(all, |all|, RefWeight(ref))
  {
    LinesKeepWeight(table, all, order, groups, ref);
    GroupsPartitionRows(table.keyRefs, all, |all|, RefWeight(ref));
  }

  // ---- rank and limit ----

  /** Does line a rank strictly before line b in column i? */
  predicate RanksBefore(i: nat, descending: bool, a: Line, b: Line) {
    CellAt(a, i) != Null && (CellAt(b, i) == Null || LineBefore(i, descending)(a, b))
  }

  lemma {:induction false} PresentOnly(lines: seq<Line>, i: nat, present: bool)
    ensures forall line :: line in Present(lines, i, present) ==> (CellAt(line, i) != Null) == present
  {
    if lines != [] {
      PresentOnly(lines[..|lines| - 1], i, present);
    }
  }

  lemma {:induction false} PresentAndMissing(lines: seq<Line>, i: nat)
    ensures multiset(Present(lines, i, true)) + multiset(Present(lines, i, false)) == multiset(lines)
  {
    if lines != [] {
      var init, last := lines[..|lines| - 1], lines[|lines| - 1];
      PresentAndMissing(init, i);
      assert lines == init + [last];
    }
  }

  /**
   The ranking permutes the lines and no later line ranks before an earlier one,
   so no line cut off by the limit ranks before a kept one.
   */
  lemma RankingIsOrdered(table: Table, lines: seq<Line>, i: nat)
    requires SortIndex(table.columns, table.sortColumn, 0) == Some(i)
    ensures multiset(Ranked(table, lines)) == multiset(lines)
    ensures forall a, b :: 0 <= a < b < |Ranked(table, lines)| ==>
              !RanksBefore(i, table.descending, Ranked(table, lines)[b], Ranked(table, lines)[a])
  {
    var before := LineBefore(i, table.descending);
    var present, missing := Present(lines, i, true), Present(lines, i, false);
    var sorted := Sort(before, present);
    LineBeforeIsOrder(i, table.descending);
    SortMeaning(before, present);
    PresentOnly(lines, i, true);
    PresentOnly(lines, i, false);
    PresentAndMissing(lines, i);
    var ranked := sorted + missing;
    forall a, b | 0 <= a < b < |ranked|
      ensures !RanksBefore(i, table.descending, ranked[b], ranked[a])
    {
      if b < |sorted| {
        InMultiset(sorted, ranked[a]);
        InMultiset(present, ranked[a]);
      } else {
        assert ranked[b] in missing;
      }
    }
  }

  lemma TopLines(table: Table, lines: seq<Line>, i: nat, kept: Line, cut: nat)
    requires SortIndex(table.columns, table.sortColumn, 0) == Some(i)
    requires kept in Limited(table.limit, Ranked(table, lines))
    requires |Limited(table.limit, Ranked(table, lines))| <= cut < |Ranked(table, lines)|
    ensures !RanksBefore(i, table.descending, Ranked(table, lines)[cut], kept)
    ensures table.limit.Some? && |Limited(table.limit, Ranked(table, lines))| == table.limit.value
  {
    RankingIsOrdered(table, lines, i);
  }

  // ---- the order of the samples ----

  /** With distinct timestamps the table does not depend on the order in which the samples arrive. */
  lemma TableIgnoresSampleOrder(table: Table, samples: seq<Sample>, permuted: seq<Sample>)
    requires multiset(samples) == multiset(permuted)
    requires forall i, j :: 0 <= i < j < |samples| ==> samples[i].timestamp != samples[j].timestamp
    ensures TableOf(table, samples) == TableOf(table, permuted)
  {
    EarlierIsOrder();
    forall i, j | 0 <= i < j < |samples|
      ensures Earlier()(samples[i], samples[j]) || Earlier()(samples[j], samples[i])
    {
      TextAsymmetric(samples[i].timestamp, samples[j].timestamp);
    }
    SortIgnoresOrder(Earlier(), samples, permuted);
  }

  // ---- reduced cells ----

  /** The maximum is one of the numbers and none is greater. */
  lemma {:induction false} MaximumIsGreatest(numbers: seq<real>)
    requires numbers != []
    ensures MaxOf(numbers) in numbers
    ensures forall i :: 0 <= i < |numbers| ==> numbers[i] <= MaxOf(numbers)
  {
    if |numbers| > 1 {
      MaximumIsGreatest(numbers[..|numbers| - 1]);
    }
  }

  lemma {:induction false} SumBounds(numbers: seq<real>, low: real, high: real)
    requires forall i :: 0 <= i < |numbers| ==> low <= numbers[i] <= high
    ensures low * |numbers| as real <= SumOf(numbers) <= high * |numbers| as real
  {
    if numbers != [] {
      SumBounds(numbers[..|numbers| - 1], low, high);
    }
  }

  lemma {:induction false} AverageOfNumbers(numbers: seq<real>, low: real, high: real)
    requires numbers != []
    requires forall i :: 0 <= i < |numbers| ==> low <= numbers[i] <= high
    ensures low <= SumOf(numbers) / |numbers| as real <= high
  {
    SumBounds(numbers, low, high);
    MeanBounds(SumOf(numbers), |numbers| as real, low, high);
  }

  /** An average cell lies between the least and the greatest number of its group. */
  lemma {:induction false} AverageBetween(group: Group, ref: string, name: string, key: GroupKey, low: real, high: real)
    requires ref != "" && Numbers(group.rows, ref) != []
    requires forall i :: 0 <= i < |Numbers(group.rows, ref)| ==> low <= Numbers(group.rows, ref)[i] <= high
    ensures var cell := Number(CellOf(ValueColumn(name, ref, Average), key, group));
            cell.Some? && low <= cell.value <= high
  {
    AverageOfNumbers(Numbers(group.rows, ref), low, high);
  }

  lemma MeanBounds(total: real, n: real, low: real, high: real)
    requires n > 0.0 && low * n <= total <= high * n
    ensures low <= total / n <= high
  {
    var average := total / n;
    assert average * n == total;
    assert (average - low) * n >= 0.0 && (high - average) * n >= 0.0;
  }

  lemma {:induction false} SumIsWeight(rows: seq<Row>, ref: string)
    ensures SumOf(Numbers(rows, ref)) == WeightOf(rows, RefWeight(ref))
  {
    if rows != [] {
      var before := Numbers(rows[..|rows| - 1], ref);
      var n := Number(Nested(rows[|rows| - 1], ref));
      SumIsWeight(rows[..|rows| - 1], ref);
      if n.Some? {
        assert (before + [n.value])[..|before|] == before;
      } else {
        assert before + [] == before;
      }
    }
  }

  /** A sum cell is the total of the group's rows, so the sum cells of a drop reference add up to all rows. */
  lemma {:induction false} SumCell(group: Group, ref: string, name: string, key: GroupKey)
    requires ref != "" && Numbers(group.rows, ref) != []
    ensures Number(CellOf(ValueColumn(name, ref, Sum), key, group)) == Some(WeightOf(group.rows, RefWeight(ref)))
  {
    SumIsWeight(group.rows, ref);
  }
}
