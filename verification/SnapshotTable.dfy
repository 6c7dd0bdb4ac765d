/**
 build_table_result: rows of all samples grouped by key, reduced to cells,
 sorted with missing values last, and limited.
 */
module SnapshotTable {
  import opened Prelude
  import opened ChartStream
  import opened Sorting

  datatype Reduce = Last | Average | Maximum | Sum | SampleCount

  datatype Column = KeyColumn(name: string, index: nat) | ValueColumn(name: string, ref: string, reduce: Reduce)

  datatype Table = Table(
    columns: seq<Column>, keyRefs: seq<string>, dropZeroRefs: seq<string>,
    sortColumn: string, descending: bool, limit: Option<int>)

  /** With no key references every row gets a number of its own. */
  datatype GroupKey = Keyed(values: seq<Value>) | Numbered(n: nat)

  /** A row and the position of its sample in timestamp order. */
  datatype Entry = Entry(sample: nat, row: Row)

  datatype Group = Group(rows: seq<Row>, last: Row, samples: set<nat>)

  datatype Line = Line(cells: seq<Value>, group: Group)

  // ---- samples in timestamp order ----

  function Earlier(): (Sample, Sample) -> bool {
    (a: Sample, b: Sample) => TextBefore(a.timestamp, b.timestamp)
  }

  lemma EarlierIsOrder()
    ensures StrictOrder(Earlier())
  {
    forall a: Sample, b: Sample | Earlier()(a, b)
      ensures !Earlier()(b, a)
    {
      TextAsymmetric(a.timestamp, b.timestamp);
    }
    forall a: Sample, b: Sample, c: Sample | Earlier()(a, c)
      ensures Earlier()(a, b) || Earlier()(b, c)
    {
      TextBetween(a.timestamp, b.timestamp, c.timestamp);
    }
  }

  function EntriesOf(samples: seq<Sample>, n: nat): seq<Entry>
    requires n <= |samples|
  {
    if n == 0 then []
    else EntriesOf(samples, n - 1) + RowEntries(n - 1, samples[n - 1].rows, |samples[n - 1].rows|)
  }

  function RowEntries(sample: nat, rows: seq<Row>, r: nat): seq<Entry>
    requires r <= |rows|
  {
    if r == 0 then [] else RowEntries(sample, rows, r - 1) + [Entry(sample, rows[r - 1])]
  }

  // ---- groups ----

  function KeyValues(keyRefs: seq<string>, row: Row): seq<Value> {
    seq(|keyRefs|, i requires 0 <= i < |keyRefs| => Nested(row, keyRefs[i]))
  }

  /** The key of the k-th row. */
  function KeyAt(keyRefs: seq<string>, all: seq<Entry>, k: nat): GroupKey
    requires k < |all|
  {
    if keyRefs == [] then Numbered(k) else Keyed(KeyValues(keyRefs, all[k].row))
  }

  /** The group a key has after the first n rows. */
  function GroupOf(keyRefs: seq<string>, all: seq<Entry>, n: nat, key: GroupKey): Group
    requires n <= |all|
  {
    if n == 0 then Group([], map[], {})
    else
      var g := GroupOf(keyRefs, all, n - 1, key);
      if KeyAt(keyRefs, all, n - 1) == key then
        Group(g.rows + [all[n - 1].row], all[n - 1].row, g.samples + {all[n - 1].sample})
      else g
  }

  /** The keys in the order they first appear. */
  function KeysOf(keyRefs: seq<string>, all: seq<Entry>, n: nat): seq<GroupKey>
    requires n <= |all|
  {
    if n == 0 then []
    else
      var keys := KeysOf(keyRefs, all, n - 1);
      if KeyAt(keyRefs, all, n - 1) in keys then keys else keys + [KeyAt(keyRefs, all, n - 1)]
  }

  ghost predicate GroupsAgree(keyRefs: seq<string>, all: seq<Entry>, n: nat,
                              order: seq<GroupKey>, groups: map<GroupKey, Group>)
    requires n <= |all|
  {
    && order == KeysOf(keyRefs, all, n) && (forall key :: key in groups <==> key in order)
    && forall key :: key in groups ==> groups[key] == GroupOf(keyRefs, all, n, key)
  }

  lemma {:induction false} FreshGroup(keyRefs: seq<string>, all: seq<Entry>, n: nat, key: GroupKey)
    requires n <= |all| && key !in KeysOf(keyRefs, all, n)
    ensures GroupOf(keyRefs, all, n, key) == Group([], map[], {})
  {
    if n > 0 {
      FreshGroup(keyRefs, all, n - 1, key);
    }
  }

  lemma {:induction false} NumberedKeys(all: seq<Entry>, n: nat)
    requires n <= |all|
    ensures |KeysOf([], all, n)| == n
    ensures forall i :: 0 <= i < n ==> KeysOf([], all, n)[i] == Numbered(i)
  {
    if n > 0 {
      NumberedKeys(all, n - 1);
    }
  }

  /** The body of the inner grouping loop. */
  method AddRow(keyRefs: seq<string>, order: seq<GroupKey>, groups: map<GroupKey, Group>, entry: Entry,
                ghost all: seq<Entry>, ghost n: nat)
    returns (order': seq<GroupKey>, groups': map<GroupKey, Group>)
    requires n < |all| && entry == all[n] && GroupsAgree(keyRefs, all, n, order, groups)
    ensures GroupsAgree(keyRefs, all, n + 1, order', groups')
  {
    var key := Keyed(KeyValues(keyRefs, entry.row));
    if keyRefs == [] {
      key := Numbered(|order|);
      NumberedKeys(all, n);
    }
    assert key == KeyAt(keyRefs, all, n);
    order', groups' := order, groups;
    if key !in groups' {
      FreshGroup(keyRefs, all, n, key);
      order' := order' + [key];
      groups' := groups'[key := Group([], map[], {})];
    }
    var group := groups'[key];
    groups' := groups'[key := Group(group.rows + [entry.row], entry.row, group.samples + {entry.sample})];
    assert order' == KeysOf(keyRefs, all, n + 1);
    assert forall k :: k in groups' <==> k in order';
  }

  method GroupRows(keyRefs: seq<string>, samples: seq<Sample>)
    returns (order: seq<GroupKey>, groups: map<GroupKey, Group>)
    ensures var all := EntriesOf(samples, |samples|); GroupsAgree(keyRefs, all, |all|, order, groups)
  {
    ghost var all := EntriesOf(samples, |samples|);
    order, groups := [], map[];
    for i := 0 to |samples|
      invariant |EntriesOf(samples, i)| <= |all|
      invariant GroupsAgree(keyRefs, all, |EntriesOf(samples, i)|, order, groups)
    {
      EntriesPrefix(samples, i + 1, |samples|);
      order, groups := GroupSample(keyRefs, samples, i, order, groups, all);
    }
  }

  lemma {:induction false} EntriesPrefix(samples: seq<Sample>, i: nat, n: nat)
    requires i <= n <= |samples|
    ensures EntriesOf(samples, i) <= EntriesOf(samples, n)
  {
    if i < n {
      EntriesPrefix(samples, i, n - 1);
    }
  }

  lemma {:induction false} RowEntriesPrefix(sample: nat, rows: seq<Row>, r: nat, n: nat)
    requires r <= n <= |rows|
    ensures |RowEntries(sample, rows, r)| == r && RowEntries(sample, rows, r) <= RowEntries(sample, rows, n)
  {
    if r > 0 && r == n {
      RowEntriesPrefix(sample, rows, r - 1, n - 1);
    } else if r < n {
      RowEntriesPrefix(sample, rows, r, n - 1);
    }
  }

  method GroupSample(keyRefs: seq<string>, samples: seq<Sample>, i: nat, order: seq<GroupKey>,
                     groups: map<GroupKey, Group>, ghost all: seq<Entry>)
    returns (order': seq<GroupKey>, groups': map<GroupKey, Group>)
    requires i < |samples| && EntriesOf(samples, i + 1) <= all
    requires |EntriesOf(samples, i)| <= |all|
    requires GroupsAgree(keyRefs, all, |EntriesOf(samples, i)|, order, groups)
    ensures GroupsAgree(keyRefs, all, |EntriesOf(samples, i + 1)|, order', groups')
  {
    var rows := samples[i].rows;
    ghost var start := |EntriesOf(samples, i)|;
    order', groups' := order, groups;
    RowEntriesPrefix(i, rows, |rows|, |rows|);
    for r := 0 to |rows|
      invariant start + r <= |all| && GroupsAgree(keyRefs, all, start + r, order', groups')
    {
      RowEntriesPrefix(i, rows, r + 1, |rows|);
      RowEntriesPrefix(i, rows, r, |rows|);
      assert EntriesOf(samples, i + 1)[start + r] == RowEntries(i, rows, |rows|)[r] == RowEntries(i, rows, r + 1)[r];
      order', groups' := AddRow(keyRefs, order', groups', Entry(i, rows[r]), all, start + r);
    }
  }

  // ---- cells ----

  function NumberCell(r: real): Value {
    Field("", r != 0.0, Some(r))
  }

  /** The numbers a reference has in a list of rows. */
  function Numbers(rows: seq<Row>, ref: string): seq<real> {
    if rows == [] then []
    else
      var n := Number(Nested(rows[|rows| - 1], ref));
      Numbers(rows[..|rows| - 1], ref) + if n.Some? then [n.value] else []
  }

  function SumOf(numbers: seq<real>): real {
    if numbers == [] then 0.0 else SumOf(numbers[..|numbers| - 1]) + numbers[|numbers| - 1]
  }

  function MaxOf(numbers: seq<real>): real
    requires numbers != []
  {
    if |numbers| == 1 then numbers[0] else Max(MaxOf(numbers[..|numbers| - 1]), numbers[|numbers| - 1])
  }

  function CellOf(column: Column, key: GroupKey, group: Group): Value {
    match column
    case KeyColumn(_, index) =>
      (match key
       case Keyed(values) => if index < |values| then values[index] else Null
       case Numbered(n) => if index == 0 then NumberCell(n as real) else Null)
    case ValueColumn(_, ref, reduce) =>
      var numbers := if ref == "" then [] else Numbers(group.rows, ref);
      match reduce
      case Average => if numbers == [] then Null else NumberCell(SumOf(numbers) / |numbers| as real)
      case Maximum => if numbers == [] then Null else NumberCell(MaxOf(numbers))
      case Sum => if numbers == [] then Null else NumberCell(SumOf(numbers))
      case SampleCount => NumberCell(|group.samples| as real)
      case Last => if ref == "" then Null else Nested(group.last, ref)
  }

  function Cells(columns: seq<Column>, key: GroupKey, group: Group): seq<Value> {
    seq(|columns|, i requires 0 <= i < |columns| => CellOf(columns[i], key, group))
  }

  predicate NonZero(v: Value) {
    Number(v).Some? && Number(v).value != 0.0
  }

  /** Some row of the group has a non-zero value for some drop reference. */
  predicate Lively(refs: seq<string>, rows: seq<Row>) {
    exists i, j :: 0 <= i < |rows| && 0 <= j < |refs| && NonZero(Nested(rows[i], refs[j]))
  }

  predicate KeepsGroup(table: Table, group: Group) {
    table.dropZeroRefs == [] || Lively(table.dropZeroRefs, group.rows)
  }

  /** The lines of the groups that are not dropped. */
  function LinesOf(table: Table, order: seq<GroupKey>, groups: map<GroupKey, Group>): seq<Line>
    requires forall key :: key in order ==> key in groups
  {
    if order == [] then []
    else
      var key := order[|order| - 1];
      LinesOf(table, order[..|order| - 1], groups)
      + if KeepsGroup(table, groups[key]) then [Line(Cells(table.columns, key, groups[key]), groups[key])] else []
  }

  // ---- sort and limit ----

  function SortIndex(columns: seq<Column>, name: string, i: nat): Option<nat>
    requires i <= |columns|
    ensures SortIndex(columns, name, i).Some? ==> SortIndex(columns, name, i).value < |columns|
    decreases |columns| - i
  {
    if i == |columns| then None
    else if columns[i].name == name then Some(i)
    else SortIndex(columns, name, i + 1)
  }

  /** sort_key order: numbers first, then folded text. */
  predicate CellBefore(a: Value, b: Value) {
    match (Number(a), Number(b))
    case (Some(x), Some(y)) => x < y
    case (Some(_), None) => true
    case (None, Some(_)) => false
    case (None, None) => TextBefore(Lower(TextOrEmpty(a)), Lower(TextOrEmpty(b)))
  }

  function CellAt(line: Line, i: nat): Value {
    if i < |line.cells| then line.cells[i] else Null
  }

  function LineBefore(i: nat, descending: bool): (Line, Line) -> bool {
    (a: Line, b: Line) =>
      if descending then CellBefore(CellAt(b, i), CellAt(a, i)) else CellBefore(CellAt(a, i), CellAt(b, i))
  }

  lemma CellOrder(a: Value, b: Value, c: Value)
    ensures CellBefore(a, b) ==> !CellBefore(b, a)
    ensures CellBefore(a, c) ==> CellBefore(a, b) || CellBefore(b, c)
  {
    var x, y, z := Lower(TextOrEmpty(a)), Lower(TextOrEmpty(b)), Lower(TextOrEmpty(c));
    TextAsymmetric(x, y);
    if TextBefore(x, z) {
      TextBetween(x, y, z);
    }
  }

  lemma LineBeforeIsOrder(i: nat, descending: bool)
    ensures StrictOrder(LineBefore(i, descending))
  {
    forall a: Line, b: Line, c: Line
      ensures LineBefore(i, descending)(a, b) ==> !LineBefore(i, descending)(b, a)
      ensures LineBefore(i, descending)(a, c) ==>
                LineBefore(i, descending)(a, b) || LineBefore(i, descending)(b, c)
    {
      CellOrder(CellAt(a, i), CellAt(b, i), CellAt(c, i));
      CellOrder(CellAt(b, i), CellAt(a, i), CellAt(c, i));
      CellOrder(CellAt(c, i), CellAt(b, i), CellAt(a, i));
    }
  }

  function Present(lines: seq<Line>, i: nat, present: bool): seq<Line> {
    if lines == [] then []
    else
      Present(lines[..|lines| - 1], i, present)
      + if (CellAt(lines[|lines| - 1], i) != Null) == present then [lines[|lines| - 1]] else []
  }

  /** present sorted, then missing in their own order. */
  function Ranked(table: Table, lines: seq<Line>): seq<Line> {
    match SortIndex(table.columns, table.sortColumn, 0)
    case None => lines
    case Some(i) => Sort(LineBefore(i, table.descending), Present(lines, i, true)) + Present(lines, i, false)
  }

  function Limited<T>(limit: Option<int>, lines: seq<T>): seq<T> {
    if limit.Some? && 0 < limit.value < |lines| then lines[..limit.value] else lines
  }

  datatype TableResult = TableResult(rows: seq<seq<Value>>, rowCount: nat, sampleCount: nat)

  function CellsOf(lines: seq<Line>): (rows: seq<seq<Value>>)
    ensures |rows| == |lines|
  {
    seq(|lines|, i requires 0 <= i < |lines| => lines[i].cells)
  }

  /** The table as a function of the samples. */
  function TableOf(table: Table, samples: seq<Sample>): TableResult {
    var sorted := Sort(Earlier(), samples);
    var all := EntriesOf(sorted, |sorted|);
    var order := KeysOf(table.keyRefs, all, |all|);
    var groups := map key | key in order :: GroupOf(table.keyRefs, all, |all|, key);
    var lines := Limited(table.limit, Ranked(table, LinesOf(table, order, groups)));
    TableResult(CellsOf(lines), |lines|, |sorted|)
  }

  /** The rendering loop over the groups. */
  method RenderGroups(table: Table, order: seq<GroupKey>, groups: map<GroupKey, Group>) returns (lines: seq<Line>)
    requires forall key :: key in order ==> key in groups
    ensures lines == LinesOf(table, order, groups)
  {
    lines := [];
    for k := 0 to |order|
      invariant lines == LinesOf(table, order[..k], groups)
    {
      var key := order[k];
      assert key in order;
      assert order[..k + 1][..k] == order[..k];
      if KeepsGroup(table, groups[key]) {
        lines := lines + [Line(Cells(table.columns, key, groups[key]), groups[key])];
      }
    }
    assert order[..|order|] == order;
  }

  /** build_table_result */
  method BuildTableResult(table: Table, samples: seq<Sample>) returns (result: TableResult)
    ensures result == TableOf(table, samples)
  {
    var sorted := Sort(Earlier(), samples);
    var order, groups := GroupRows(table.keyRefs, sorted);
    ghost var all := EntriesOf(sorted, |sorted|);
    assert groups == map key | key in order :: GroupOf(table.keyRefs, all, |all|, key);
    var lines := RenderGroups(table, order, groups);
    lines := Limited(table.limit, Ranked(table, lines));
    result := TableResult(CellsOf(lines), |lines|, |sorted|);
  }
}
