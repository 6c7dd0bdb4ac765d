/** What the cells of a table say about the sampled rows of their group. */
module TableCells {
  import opened Prelude
  import opened ChartStream
  import opened Sorting
  import opened SnapshotTable
  import opened TableLaws

  // ---- the rows of all samples ----

  lemma {:induction false} RowEntriesMeaning(sample: nat, rows: seq<Row>, r: nat, k: nat)
    requires k < r <= |rows|
    ensures |RowEntries(sample, rows, r)| == r && RowEntries(sample, rows, r)[k] == Entry(sample, rows[k])
  {
    RowEntriesPrefix(sample, rows, r - 1, r);
    if k < r - 1 {
      RowEntriesMeaning(sample, rows, r - 1, k);
    }
  }

  /** The rows of sample p stand together, in their order, behind those of the samples before it. */
  lemma {:induction false} EntriesMeaning(samples: seq<Sample>, n: nat, p: nat, r: nat)
    requires p < n <= |samples| && r < |samples[p].rows|
    ensures |EntriesOf(samples, p)| + r < |EntriesOf(samples, n)|
    ensures EntriesOf(samples, n)[|EntriesOf(samples, p)| + r] == Entry(p, samples[p].rows[r])
  {
    if p < n - 1 {
      EntriesMeaning(samples, n - 1, p, r);
    } else {
      RowEntriesMeaning(p, samples[p].rows, |samples[p].rows|, r);
    }
  }

  function RowCount(samples: seq<Sample>, n: nat): nat
    requires n <= |samples|
  {
    if n == 0 then 0 else RowCount(samples, n - 1) + |samples[n - 1].rows|
  }

  lemma {:induction false} EntriesCount(samples: seq<Sample>, n: nat)
    requires n <= |samples|
    ensures |EntriesOf(samples, n)| == RowCount(samples, n)
  {
    if n > 0 {
      EntriesCount(samples, n - 1);
      RowEntriesPrefix(n - 1, samples[n - 1].rows, |samples[n - 1].rows|, |samples[n - 1].rows|);
    }
  }

  // ---- the group of a key ----

  /** Row k is among the first n and has the key. */
  predicate Member(keyRefs: seq<string>, all: seq<Entry>, n: nat, key: GroupKey, k: nat) {
    k < n <= |all| && KeyAt(keyRefs, all, k) == key
  }

  /** Row k is the latest of its group among the first n. */
  ghost predicate LatestMember(keyRefs: seq<string>, all: seq<Entry>, n: nat, key: GroupKey, k: nat) {
    && Member(keyRefs, all, n, key, k)
    && forall j: nat :: k < j ==> !Member(keyRefs, all, n, key, j)
  }

  /** Some row of the group came from the sample. */
  ghost predicate FromSample(keyRefs: seq<string>, all: seq<Entry>, n: nat, key: GroupKey, sample: nat) {
    exists k: nat :: Member(keyRefs, all, n, key, k) && all[k].sample == sample
  }

  ghost predicate FromRow(keyRefs: seq<string>, all: seq<Entry>, n: nat, key: GroupKey, row: Row) {
    exists k: nat :: Member(keyRefs, all, n, key, k) && all[k].row == row
  }

  lemma MemberStep(keyRefs: seq<string>, all: seq<Entry>, n: nat, key: GroupKey)
    requires 0 < n <= |all|
    ensures forall k: nat :: Member(keyRefs, all, n, key, k) <==>
              Member(keyRefs, all, n - 1, key, k) || (k == n - 1 && KeyAt(keyRefs, all, n - 1) == key)
    ensures forall sample: nat :: FromSample(keyRefs, all, n, key, sample) <==>
              FromSample(keyRefs, all, n - 1, key, sample)
              || (KeyAt(keyRefs, all, n - 1) == key && all[n - 1].sample == sample)
    ensures forall row: Row :: FromRow(keyRefs, all, n, key, row) <==>
              FromRow(keyRefs, all, n - 1, key, row)
              || (KeyAt(keyRefs, all, n - 1) == key && all[n - 1].row == row)
  {
    assert KeyAt(keyRefs, all, n - 1) == key ==> Member(keyRefs, all, n, key, n - 1);
    forall sample: nat | FromSample(keyRefs, all, n - 1, key, sample)
      ensures FromSample(keyRefs, all, n, key, sample)
    {
      var k: nat :| Member(keyRefs, all, n - 1, key, k) && all[k].sample == sample;
      assert Member(keyRefs, all, n, key, k);
    }
    forall row: Row | FromRow(keyRefs, all, n - 1, key, row)
      ensures FromRow(keyRefs, all, n, key, row)
    {
      var k: nat :| Member(keyRefs, all, n - 1, key, k) && all[k].row == row;
      assert Member(keyRefs, all, n, key, k);
    }
  }

  /** A group holds the rows with its key and the samples they came from. */
  lemma {:induction false} GroupMeaning(keyRefs: seq<string>, all: seq<Entry>, n: nat, key: GroupKey)
    requires n <= |all|
    ensures var g := GroupOf(keyRefs, all, n, key);
            && (forall sample: nat :: sample in g.samples <==> FromSample(keyRefs, all, n, key, sample))
            && (forall row: Row :: row in g.rows <==> FromRow(keyRefs, all, n, key, row))
  {
    if n > 0 {
      GroupMeaning(keyRefs, all, n - 1, key);
      MemberStep(keyRefs, all, n, key);
    }
  }

  /** A group remembers the latest of its rows. */
  lemma {:induction false} GroupLast(keyRefs: seq<string>, all: seq<Entry>, n: nat, key: GroupKey, k: nat)
    requires LatestMember(keyRefs, all, n, key, k)
    ensures var g := GroupOf(keyRefs, all, n, key);
            g.rows != [] && g.last == g.rows[|g.rows| - 1] == all[k].row
  {
    if KeyAt(keyRefs, all, n - 1) == key {
      assert Member(keyRefs, all, n, key, n - 1);
    } else {
      MemberStep(keyRefs, all, n, key);
      var m := n - 1;
      forall j: nat | k < j
        ensures !Member(keyRefs, all, m, key, j)
      {
        assert !Member(keyRefs, all, n, key, j);
      }
      GroupLast(keyRefs, all, n - 1, key, k);
    }
  }

  // ---- the cells ----

  /** A key cell is what every row of the group has at the key's reference. */
  lemma {:induction false} KeyCell(
      keyRefs: seq<string>, all: seq<Entry>, n: nat, key: GroupKey, name: string, index: nat, k: nat)
    requires Member(keyRefs, all, n, key, k) && keyRefs != []
    ensures CellOf(KeyColumn(name, index), key, GroupOf(keyRefs, all, n, key)) ==
            if index < |keyRefs| then Nested(all[k].row, keyRefs[index]) else Null
  {
  }

  /** A last cell is the value in the latest row of the group. */
  lemma {:induction false} LastCell(
      keyRefs: seq<string>, all: seq<Entry>, n: nat, key: GroupKey, name: string, ref: string, k: nat)
    requires LatestMember(keyRefs, all, n, key, k)
    ensures CellOf(ValueColumn(name, ref, Last), key, GroupOf(keyRefs, all, n, key)) ==
            if ref == "" then Null else Nested(all[k].row, ref)
  {
    GroupLast(keyRefs, all, n, key, k);
  }

  /** A count cell is the number of samples that brought a row of the group. */
  lemma {:induction false} CountCell(
      keyRefs: seq<string>, all: seq<Entry>, n: nat, key: GroupKey, name: string, ref: string,
      samples: set<nat>)
    requires n <= |all|
    requires forall sample: nat :: sample in samples <==> FromSample(keyRefs, all, n, key, sample)
    ensures Number(CellOf(ValueColumn(name, ref, SampleCount), key, GroupOf(keyRefs, all, n, key)))
         == Some(|samples| as real)
  {
    GroupMeaning(keyRefs, all, n, key);
    assert GroupOf(keyRefs, all, n, key).samples == samples;
  }

  /** One for each row that has a number. */
  function HasNumber(ref: string): Row -> real {
    (row: Row) => if Number(Nested(row, ref)).Some? then 1.0 else 0.0
  }

  lemma {:induction false} NumbersCount(rows: seq<Row>, ref: string)
    ensures |Numbers(rows, ref)| as real == WeightOf(rows, HasNumber(ref))
  {
    if rows != [] {
      NumbersCount(rows[..|rows| - 1], ref);
    }
  }

  lemma {:induction false} NumbersMeaning(rows: seq<Row>, ref: string, x: real)
    ensures x in Numbers(rows, ref) <==> exists i :: 0 <= i < |rows| && Number(Nested(rows[i], ref)) == Some(x)
  {
    if rows != [] {
      var n := |rows| - 1;
      NumbersMeaning(rows[..n], ref, x);
      if i :| 0 <= i < |rows| && Number(Nested(rows[i], ref)) == Some(x) {
        assert i < n ==> rows[..n][i] == rows[i];
      }
    }
  }

  lemma MeanTimes(total: real, n: real)
    requires n != 0.0
    ensures total / n * n == total
  {
  }

  /** An average cell times the number of rows with a number is the total of those numbers. */
  lemma AverageCell(group: Group, ref: string, name: string, key: GroupKey)
    requires ref != "" && WeightOf(group.rows, HasNumber(ref)) != 0.0
    ensures var cell := CellOf(ValueColumn(name, ref, Average), key, group);
            && Number(cell).Some?
            && Number(cell).value * WeightOf(group.rows, HasNumber(ref)) == WeightOf(group.rows, RefWeight(ref))
  {
    var numbers := Numbers(group.rows, ref);
    NumbersCount(group.rows, ref);
    SumIsWeight(group.rows, ref);
    MeanTimes(SumOf(numbers), |numbers| as real);
  }

  /** Without a number in the group the reduced cells are empty. */
  lemma NoNumberCell(group: Group, ref: string, name: string, key: GroupKey, reduce: Reduce)
    requires reduce == Average || reduce == Maximum || reduce == Sum
    requires ref != "" ==> WeightOf(group.rows, HasNumber(ref)) == 0.0
    ensures CellOf(ValueColumn(name, ref, reduce), key, group) == Null
  {
    NumbersCount(group.rows, ref);
  }

  /** A maximum cell is the greatest number its reference has in the rows of the group. */
  lemma MaximumCell(group: Group, ref: string, name: string, key: GroupKey)
    requires ref != ""
    ensures var cell := CellOf(ValueColumn(name, ref, Maximum), key, group);
            && (cell == Null <==> forall i :: 0 <= i < |group.rows| ==> Number(Nested(group.rows[i], ref)).None?)
            && (cell != Null ==>
                  && Number(cell).Some?
                  && (exists i :: 0 <= i < |group.rows| && Number(Nested(group.rows[i], ref)) == Number(cell))
                  && forall i :: 0 <= i < |group.rows| && Number(Nested(group.rows[i], ref)).Some? ==>
                       Number(Nested(group.rows[i], ref)).value <= Number(cell).value)
  {
    var numbers := Numbers(group.rows, ref);
    forall i | 0 <= i < |group.rows| && Number(Nested(group.rows[i], ref)).Some?
      ensures Number(Nested(group.rows[i], ref)).value in numbers
    {
      NumbersMeaning(group.rows, ref, Number(Nested(group.rows[i], ref)).value);
    }
    if numbers != [] {
      MaximumIsGreatest(numbers);
      NumbersMeaning(group.rows, ref, MaxOf(numbers));
    }
  }

  // ---- the lines ----

  /** The line shows the cells of its columns for the group of a key. */
  predicate IsLineOf(table: Table, key: GroupKey, group: Group, line: Line) {
    && line.group == group && |line.cells| == |table.columns|
    && forall c :: 0 <= c < |table.columns| ==> line.cells[c] == CellOf(table.columns[c], key, group)
  }

  /** There is one line for each key whose group is not dropped, in their order. */
  lemma {:induction false} LinesMeaning(table: Table, order: seq<GroupKey>, groups: map<GroupKey, Group>)
    requires forall key :: key in order ==> key in groups
    ensures |LinesOf(table, order, groups)| == |Kept(table, order, groups)|
    ensures forall l :: 0 <= l < |LinesOf(table, order, groups)| ==>
              Kept(table, order, groups)[l] in groups
              && IsLineOf(table, Kept(table, order, groups)[l], groups[Kept(table, order, groups)[l]],
                          LinesOf(table, order, groups)[l])
  {
    if order != [] {
      var key := order[|order| - 1];
      LinesMeaning(table, order[..|order| - 1], groups);
      LivelyMeaning(table.dropZeroRefs, groups[key].rows);
      assert IsLineOf(table, key, groups[key], Line(Cells(table.columns, key, groups[key]), groups[key]));
    }
  }

  /** The keys whose groups are not dropped. */
  function Kept(table: Table, order: seq<GroupKey>, groups: map<GroupKey, Group>): seq<GroupKey>
    requires forall key :: key in order ==> key in groups
  {
    if order == [] then []
    else
      var key := order[|order| - 1];
      Kept(table, order[..|order| - 1], groups)
      + if table.dropZeroRefs == [] || HasNonZero(table.dropZeroRefs, groups[key].rows) then [key] else []
  }

  /** Some row has a number other than zero at some reference. */
  predicate HasNonZero(refs: seq<string>, rows: seq<Row>) {
    exists row, ref :: row in rows && ref in refs && Number(Nested(row, ref)).Some?
                       && Number(Nested(row, ref)).value != 0.0
  }

  lemma LivelyMeaning(refs: seq<string>, rows: seq<Row>)
    ensures Lively(refs, rows) <==> HasNonZero(refs, rows)
  {
    if row, ref :| row in rows && ref in refs && NonZero(Nested(row, ref)) {
      var i :| 0 <= i < |rows| && rows[i] == row;
      var j :| 0 <= j < |refs| && refs[j] == ref;
      assert NonZero(Nested(rows[i], refs[j]));
    }
    if i, j :| 0 <= i < |rows| && 0 <= j < |refs| && NonZero(Nested(rows[i], refs[j])) {
      assert rows[i] in rows && refs[j] in refs;
    }
  }

  /** Some of the first n rows has the key. */
  ghost predicate Appears(keyRefs: seq<string>, all: seq<Entry>, n: nat, key: GroupKey) {
    exists k: nat :: Member(keyRefs, all, n, key, k)
  }

  /** Key a has appeared where key b has not yet. */
  ghost predicate AppearsFirst(keyRefs: seq<string>, all: seq<Entry>, n: nat, a: GroupKey, b: GroupKey) {
    exists k: nat :: Member(keyRefs, all, n, a, k) && forall j: nat :: j <= k ==> !Member(keyRefs, all, n, b, j)
  }

  /** The keys stand in the order in which they first appear, each of them once. */
  lemma {:induction false} KeysInOrder(keyRefs: seq<string>, all: seq<Entry>, n: nat)
    requires n <= |all|
    ensures var keys := KeysOf(keyRefs, all, n);
            && (forall key: GroupKey :: key in keys <==> Appears(keyRefs, all, n, key))
            && (forall i, j :: 0 <= i < j < |keys| ==> AppearsFirst(keyRefs, all, n, keys[i], keys[j]))
  {
    if n > 0 {
      KeysInOrder(keyRefs, all, n - 1);
      var keys, key := KeysOf(keyRefs, all, n - 1), KeyAt(keyRefs, all, n - 1);
      var m := n - 1;
      assert Member(keyRefs, all, n, key, m);
      forall other: GroupKey
        ensures Appears(keyRefs, all, n, other) <==> other == key || Appears(keyRefs, all, m, other)
      {
        MemberStep(keyRefs, all, n, other);
        if k: nat :| Member(keyRefs, all, m, other, k) {
          assert Member(keyRefs, all, n, other, k);
        }
      }
      var longer := KeysOf(keyRefs, all, n);
      forall i, j | 0 <= i < j < |longer|
        ensures AppearsFirst(keyRefs, all, n, longer[i], longer[j])
      {
        KeyPairStep(keyRefs, all, n, keys, i, j);
      }
    }
  }

  lemma {:induction false} KeyPairStep(
      keyRefs: seq<string>, all: seq<Entry>, n: nat, keys: seq<GroupKey>, i: nat, j: nat)
    requires 0 < n <= |all| && keys == KeysOf(keyRefs, all, n - 1) && i < j < |KeysOf(keyRefs, all, n)|
    requires forall key: GroupKey :: key in keys <==> Appears(keyRefs, all, n - 1, key)
    requires forall a, b :: 0 <= a < b < |keys| ==> AppearsFirst(keyRefs, all, n - 1, keys[a], keys[b])
    ensures AppearsFirst(keyRefs, all, n, KeysOf(keyRefs, all, n)[i], KeysOf(keyRefs, all, n)[j])
  {
    var m, longer := n - 1, KeysOf(keyRefs, all, n);
    var a, b := longer[i], longer[j];
    assert i < |keys| && a == keys[i] && a in keys;
    var k: nat;
    if j < |keys| {
      assert AppearsFirst(keyRefs, all, m, keys[i], keys[j]);
      k :| Member(keyRefs, all, m, a, k) && forall l: nat :: l <= k ==> !Member(keyRefs, all, m, b, l);
    } else {
      assert b !in keys;
      k :| Member(keyRefs, all, m, a, k);
    }
    assert Member(keyRefs, all, n, a, k);
    forall l: nat | l <= k
      ensures !Member(keyRefs, all, n, b, l)
    {
      assert !Member(keyRefs, all, m, b, l);
    }
  }
}
