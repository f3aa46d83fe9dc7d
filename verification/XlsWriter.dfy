/** The workbook writer (XlsWriter in onadata/apps/viewer/xls_writer.py). */
module XlsWriter {
  import opened Common
  import opened Grouping
  import opened SheetNames

  datatype Cell = Num(n: int) | Txt(text: string)

  /** A row as the caller gives it: a dictionary from column names to values. */
  type Fields = seq<(string, Cell)>

  type Cells = map<(nat, nat), Cell>

  datatype Book = Book(
    sheets: map<string, Cells>,
    columns: map<string, seq<string>>,
    index: map<string, nat>,              // the row where the next row of a sheet goes
    generated: map<string, string>)       // requested name -> name of the sheet made for it

  const EmptyBook := Book(map[], map[], map[], map[])

  const SHEET_NAME_LIMIT: nat := 30

  // ---------------------------------------------------------------- reading the book

  function Columns(b: Book, sheet: string): seq<string> { if sheet in b.columns then b.columns[sheet] else [] }

  function Index(b: Book, sheet: string): nat { if sheet in b.index then b.index[sheet] else 1 }

  function Actual(b: Book, table: string): string { if table in b.generated then b.generated[table] else table }

  function ValueFor(row: Fields, column: string): Cell {
    match Get(row, column) case Some(c) => c case None => Txt("n/a")
  }

  /** One sheet: a header cell for every column, and otherwise only cells of columns in rows already used. */
  ghost predicate PageOk(cells: Cells, columns: seq<string>, index: nat) {
    && index >= 1
    && (forall p :: p in cells ==> p.0 < index && p.1 < |columns|)
    && (forall j: nat :: j < |columns| ==> (0, j) in cells && cells[(0, j)] == Txt(columns[j]))
  }

  ghost predicate SheetOk(b: Book, sheet: string) {
    if sheet in b.sheets then PageOk(b.sheets[sheet], Columns(b, sheet), Index(b, sheet))
    else Columns(b, sheet) == [] && Index(b, sheet) >= 1
  }

  ghost predicate BookOk(b: Book) {
    forall sheet :: SheetOk(b, sheet)
  }

  // ---------------------------------------------------------------- changing the book

  /** A new sheet's name: the first candidate, from the name cut to the limit, that no sheet has. */
  ghost predicate NewName(b: Book, name: string, unique: string) {
    exists k: nat :: CounterFits(k, SHEET_NAME_LIMIT) && FirstFree(b.sheets.Keys, Cut(name), k)
                     && unique == Candidate(Cut(name), k, SHEET_NAME_LIMIT)
  }

  function Cut(name: string): string { if |name| > SHEET_NAME_LIMIT then name[..SHEET_NAME_LIMIT] else name }

  ghost predicate FirstFree(sheets: set<string>, name: string, k: nat)
    requires CounterFits(k, SHEET_NAME_LIMIT)
  {
    && Candidate(name, k, SHEET_NAME_LIMIT) !in sheets
    && forall j: nat :: j < k ==> Candidate(name, j, SHEET_NAME_LIMIT) in sheets
  }

  function WithSheet(b: Book, name: string, unique: string): Book {
    b.(sheets := b.sheets[unique := map[]], generated := b.generated[name := unique])
  }

  function WithColumn(b: Book, sheet: string, column: string): Book {
    if sheet !in b.sheets then b
    else
      var cs := Columns(b, sheet);
      b.(sheets := b.sheets[sheet := b.sheets[sheet][(0, |cs|) := Txt(column)]],
         columns := b.columns[sheet := cs + [column]])
  }

  /** The columns of a row that the sheet lacks, in the row's order. */
  function WithColumns(b: Book, sheet: string, row: Fields): Book
    decreases |row|
  {
    if row == [] then b
    else
      var b' := if row[0].0 in Columns(b, sheet) then b else WithColumn(b, sheet, row[0].0);
      WithColumns(b', sheet, row[1..])
  }

  /** Writes one cell per column in row i. */
  function PutRow(cells: Cells, i: nat, columns: seq<string>, row: Fields): Cells {
    if columns == [] then cells
    else
      var n := |columns| - 1;
      PutRow(cells, i, columns[..n], row)[(i, n) := ValueFor(row, columns[n])]
  }

  function WithRow(b: Book, sheet: string, row: Fields): Book {
    var b' := WithColumns(b, sheet, row);
    var i := Index(b, sheet);
    var sheets := if sheet in b'.sheets
                  then b'.sheets[sheet := PutRow(b'.sheets[sheet], i, Columns(b', sheet), row)]
                  else b'.sheets;
    b'.(sheets := sheets, index := b'.index[sheet := i + 1])
  }

  function WithRows(b: Book, sheet: string, rows: seq<Fields>): Book
    decreases |rows|
  {
    if rows == [] then b else WithRows(WithRow(b, sheet, rows[0]), sheet, rows[1..])
  }

  type Tables = seq<(string, seq<Fields>)>

  function WithTables(b: Book, tables: Tables): Book
    decreases |tables|
  {
    if tables == [] then b else WithTables(WithRows(b, Actual(b, tables[0].0), tables[0].1), tables[1..])
  }

  // ---------------------------------------------------------------- rows made global

  function IntOf(c: Cell): int { if c.Num? then c.n else 0 }

  function TextOf(c: Cell): string { if c.Txt? then c.text else "" }

  /** A row carries its own position and its parent's (-1: none) and the parent's table. */
  predicate RowOk(row: Fields) {
    && Get(row, "_index").Some? && Get(row, "_index").value.Num?
    && Get(row, "_parent_index").Some? && Get(row, "_parent_index").value.Num?
    && (Get(row, "_parent_index").value.n != -1 ==>
          Get(row, "_parent_table_name").Some? && Get(row, "_parent_table_name").value.Txt?)
  }

  function Fixed(b: Book, table: string, row: Fields): Fields
    requires RowOk(row)
  {
    var row1 := Put(row, "_index", Num(Get(row, "_index").value.n + Index(b, table)));
    var parent := Get(row, "_parent_index").value.n;
    if parent == -1 then row1
    else Put(row1, "_parent_index", Num(parent + Index(b, Get(row, "_parent_table_name").value.text)))
  }

  ghost predicate TablesOk(tables: Tables) {
    forall q, k :: 0 <= q < |tables| && 0 <= k < |tables[q].1| ==> RowOk(tables[q].1[k])
  }

  function FixedTables(b: Book, tables: Tables): Tables
    requires TablesOk(tables)
  {
    seq(|tables|, q requires 0 <= q < |tables| =>
      (tables[q].0, seq(|tables[q].1|, k requires 0 <= k < |tables[q].1| => Fixed(b, tables[q].0, tables[q].1[k]))))
  }

  // ---------------------------------------------------------------- the invariant is kept, cells are never overwritten

  /** Nothing that was written changes. */
  ghost predicate CellsKept(a: Cells, b: Cells) {
    forall p :: p in a ==> p in b && b[p] == a[p]
  }

  ghost predicate SheetKept(b: Book, b': Book, sheet: string) {
    && (sheet in b.sheets ==> sheet in b'.sheets && CellsKept(b.sheets[sheet], b'.sheets[sheet]))
    && Columns(b, sheet) <= Columns(b', sheet)
    && Index(b, sheet) <= Index(b', sheet)
  }

  ghost predicate Kept(b: Book, b': Book) {
    forall sheet :: SheetKept(b, b', sheet)
  }

  lemma KeptTransitive(a: Book, b: Book, c: Book)
    requires Kept(a, b) && Kept(b, c)
    ensures Kept(a, c)
  {
    forall sheet ensures SheetKept(a, c, sheet) {
      assert SheetKept(a, b, sheet) && SheetKept(b, c, sheet);
    }
  }

  lemma WithSheetOk(b: Book, name: string, unique: string)
    requires BookOk(b) && unique !in b.sheets
    ensures BookOk(WithSheet(b, name, unique)) && Kept(b, WithSheet(b, name, unique))
  {
    var b' := WithSheet(b, name, unique);
    forall sheet ensures SheetOk(b', sheet) && SheetKept(b, b', sheet) {
      assert SheetOk(b, sheet);
      assert Columns(b', sheet) == Columns(b, sheet) && Index(b', sheet) == Index(b, sheet);
    }
  }

  lemma WithColumnOk(b: Book, sheet: string, column: string)
    requires BookOk(b)
    ensures sheet in b.sheets ==> (0, |Columns(b, sheet)|) !in b.sheets[sheet]
    ensures BookOk(WithColumn(b, sheet, column)) && Kept(b, WithColumn(b, sheet, column))
  {
    var b', n := WithColumn(b, sheet, column), |Columns(b, sheet)|;
    assert SheetOk(b, sheet);
    assert sheet in b.sheets ==> (0, n) !in b.sheets[sheet];
    forall s ensures SheetOk(b', s) && SheetKept(b, b', s) {
      assert SheetOk(b, s);
      assert Index(b', s) == Index(b, s);
      if s != sheet {
        assert Columns(b', s) == Columns(b, s) && (s in b'.sheets <==> s in b.sheets);
        assert s in b.sheets ==> b'.sheets[s] == b.sheets[s];
      }
    }
  }

  lemma {:induction false} WithColumnsOk(b: Book, sheet: string, row: Fields)
    requires BookOk(b)
    ensures var b' := WithColumns(b, sheet, row);
      && BookOk(b') && Kept(b, b')
      && b'.index == b.index && b'.generated == b.generated && b'.sheets.Keys == b.sheets.Keys
    decreases |row|
  {
    if row == [] {
      assert forall s :: SheetKept(b, b, s);
    } else {
      WithColumnOk(b, sheet, row[0].0);
      var b1 := if row[0].0 in Columns(b, sheet) then b else WithColumn(b, sheet, row[0].0);
      assert forall s :: SheetKept(b, b, s);
      WithColumnsOk(b1, sheet, row[1..]);
      KeptTransitive(b, b1, WithColumns(b1, sheet, row[1..]));
    }
  }

  lemma {:induction false} PutRowIs(cells: Cells, i: nat, columns: seq<string>, row: Fields, p: (nat, nat))
    ensures p in PutRow(cells, i, columns, row) <==> p in cells || (p.0 == i && p.1 < |columns|)
    ensures p.0 == i && p.1 < |columns| ==> PutRow(cells, i, columns, row)[p] == ValueFor(row, columns[p.1])
    ensures !(p.0 == i && p.1 < |columns|) && p in cells ==> PutRow(cells, i, columns, row)[p] == cells[p]
  {
    if columns != [] {
      PutRowIs(cells, i, columns[..|columns| - 1], row, p);
    }
  }

  /** A row's cells are new, and the sheet stays in order. */
  lemma PageWithRow(cells: Cells, columns: seq<string>, i: nat, row: Fields)
    requires PageOk(cells, columns, i)
    ensures PageOk(PutRow(cells, i, columns, row), columns, i + 1) && CellsKept(cells, PutRow(cells, i, columns, row))
  {
    forall p {
      PutRowIs(cells, i, columns, row, p);
    }
  }

  lemma WithRowOk(b: Book, sheet: string, row: Fields)
    requires BookOk(b)
    ensures BookOk(WithRow(b, sheet, row)) && Kept(b, WithRow(b, sheet, row))
  {
    WithColumnsOk(b, sheet, row);
    var b1, b', i := WithColumns(b, sheet, row), WithRow(b, sheet, row), Index(b, sheet);
    assert SheetOk(b1, sheet);
    if sheet in b1.sheets {
      PageWithRow(b1.sheets[sheet], Columns(b1, sheet), i, row);
    }
    forall s ensures SheetOk(b', s) && SheetKept(b1, b', s) {
      assert SheetOk(b1, s);
      assert Columns(b', s) == Columns(b1, s);
      if s != sheet {
        assert Index(b', s) == Index(b1, s) && (s in b'.sheets <==> s in b1.sheets);
        assert s in b1.sheets ==> b'.sheets[s] == b1.sheets[s];
      } else {
        assert Index(b', s) == i + 1 && Index(b1, s) == i;
      }
    }
    KeptTransitive(b, b1, b');
  }

  lemma {:induction false} WithRowsKept(b: Book, sheet: string, rows: seq<Fields>)
    requires BookOk(b)
    ensures BookOk(WithRows(b, sheet, rows)) && Kept(b, WithRows(b, sheet, rows))
    decreases |rows|
  {
    if rows == [] {
      assert forall s :: SheetKept(b, b, s);
    } else {
      WithRowOk(b, sheet, rows[0]);
      var b1 := WithRow(b, sheet, rows[0]);
      WithRowsKept(b1, sheet, rows[1..]);
      KeptTransitive(b, b1, WithRows(b1, sheet, rows[1..]));
    }
  }

  lemma {:induction false} WithTablesKept(b: Book, tables: Tables)
    requires BookOk(b)
    ensures BookOk(WithTables(b, tables)) && Kept(b, WithTables(b, tables))
    decreases |tables|
  {
    if tables == [] {
      assert forall s :: SheetKept(b, b, s);
    } else {
      var b1 := WithRows(b, Actual(b, tables[0].0), tables[0].1);
      WithRowsKept(b, Actual(b, tables[0].0), tables[0].1);
      WithTablesKept(b1, tables[1..]);
      KeptTransitive(b, b1, WithTables(b1, tables[1..]));
    }
  }

  // ---------------------------------------------------------------- the writer, updated in place

  class Row {
    var fields: Fields

    constructor (fields: Fields)
      ensures this.fields == fields
    {
      this.fields := fields;
    }
  }

  type Observation = seq<(string, seq<Row>)>

  /** Every row object occurs once. */
  ghost predicate DistinctRows(obs: Observation) {
    forall q, k, q', k' | 0 <= q < |obs| && 0 <= q' < |obs| && 0 <= k < |obs[q].1| && 0 <= k' < |obs[q'].1| ::
      obs[q].1[k] == obs[q'].1[k'] ==> q == q' && k == k'
  }

  function RowsOf(obs: Observation): set<Row> {
    set q, k | 0 <= q < |obs| && 0 <= k < |obs[q].1| :: obs[q].1[k]
  }

  function FieldsOf(rows: seq<Row>): seq<Fields>
    reads rows
  {
    seq(|rows|, k requires 0 <= k < |rows| reads rows => rows[k].fields)
  }

  function Contents(obs: Observation): Tables
    reads RowsOf(obs)
  {
    seq(|obs|, q requires 0 <= q < |obs| reads RowsOf(obs) =>
      (obs[q].0, FieldsOf(obs[q].1)))
  }

  class Writer {
    var sheets: map<string, Cells>
    var columns: map<string, seq<string>>
    var index: map<string, nat>
    var generated: map<string, string>

    constructor ()
      ensures Abs() == EmptyBook
    {
      new;
      ResetWorkbook();
    }

    function Abs(): Book
      reads this
    {
      Book(sheets, columns, index, generated)
    }

    method ResetWorkbook()
      modifies this
      ensures Abs() == EmptyBook && BookOk(Abs())
    {
      sheets, columns, index, generated := map[], map[], map[], map[];
    }

    method AddSheet(name: string)
      requires BookOk(Abs()) && Room(sheets.Keys, SHEET_NAME_LIMIT)
      modifies this
      ensures BookOk(Abs()) && Kept(old(Abs()), Abs())
      ensures exists unique ::
                && NewName(old(Abs()), name, unique) && unique !in old(sheets) && |unique| <= SHEET_NAME_LIMIT
                && Abs() == WithSheet(old(Abs()), name, unique)
    {
      var cut := if |name| > SHEET_NAME_LIMIT then name[..SHEET_NAME_LIMIT] else name;
      var unique, k := GenerateUniqueSheetName(cut, sheets.Keys, SHEET_NAME_LIMIT);
      assert FirstFree(sheets.Keys, Cut(name), k);
      assert NewName(Abs(), name, unique);
      WithSheetOk(Abs(), name, unique);
      generated := generated[name := unique];
      sheets := sheets[unique := map[]];
    }

    /** The workbook refuses to write a cell twice. */
    method WriteCell(sheet: string, i: nat, j: nat, v: Cell)
      requires sheet in sheets && (i, j) !in sheets[sheet]
      modifies `sheets
      ensures sheets == old(sheets)[sheet := old(sheets)[sheet][(i, j) := v]]
    {
      sheets := sheets[sheet := sheets[sheet][(i, j) := v]];
    }

    method AddColumn(sheet: string, column: string)
      requires BookOk(Abs())
      modifies this
      ensures BookOk(Abs()) && Abs() == WithColumn(old(Abs()), sheet, column)
    {
      WithColumnOk(Abs(), sheet, column);
      var n := |Columns(Abs(), sheet)|;
      if sheet in sheets {
        WriteCell(sheet, 0, n, Txt(column));
        columns := columns[sheet := Columns(Abs(), sheet) + [column]];
      }
    }

    method WriteRowCells(sheet: string, i: nat, row: Fields)
      requires BookOk(Abs()) && i == Index(Abs(), sheet)
      modifies `sheets
      ensures sheets == if sheet in old(sheets)
                        then old(sheets)[sheet := PutRow(old(sheets)[sheet], i, Columns(old(Abs()), sheet), row)]
                        else old(sheets)
    {
      var cs := Columns(Abs(), sheet);
      assert SheetOk(Abs(), sheet);
      if sheet !in sheets {
        return;
      }
      ghost var cells := sheets[sheet];
      var j := 0;
      while j < |cs|
        invariant 0 <= j <= |cs|
        invariant sheet in sheets && sheets[sheet] == PutRow(cells, i, cs[..j], row)
        invariant sheets == old(sheets)[sheet := sheets[sheet]]
      {
        assert cs[..j + 1][..j] == cs[..j];
        PutRowIs(cells, i, cs[..j], row, (i, j));
        WriteCell(sheet, i, j, ValueFor(row, cs[j]));
        j := j + 1;
      }
      assert cs[..j] == cs;
    }

    method AddRow(sheet: string, row: Fields)
      requires BookOk(Abs())
      modifies this
      ensures BookOk(Abs()) && Abs() == WithRow(old(Abs()), sheet, row)
    {
      WithRowOk(Abs(), sheet, row);
      WithColumnsOk(Abs(), sheet, row);
      var i := Index(Abs(), sheet);
      var k := 0;
      while k < |row|
        invariant 0 <= k <= |row|
        invariant BookOk(Abs()) && index == old(index)
        invariant WithColumns(Abs(), sheet, row[k..]) == WithColumns(old(Abs()), sheet, row)
      {
        assert row[k..][1..] == row[k + 1..];
        if row[k].0 !in Columns(Abs(), sheet) {
          AddColumn(sheet, row[k].0);
        }
        k := k + 1;
      }
      WriteRowCells(sheet, i, row);
      index := index[sheet := i + 1];
    }

    /** Rows get their position in the whole sheet; the counters are read under the requested names. */
    method FixIndices(obs: Observation)
      requires DistinctRows(obs) && TablesOk(Contents(obs))
      modifies RowsOf(obs)
      ensures Contents(obs) == FixedTables(Abs(), old(Contents(obs)))
    {
      ghost var before := Contents(obs);
      var q := 0;
      while q < |obs|
        invariant 0 <= q <= |obs|
        invariant forall q', k :: 0 <= q' < |obs| && 0 <= k < |obs[q'].1| ==>
          obs[q'].1[k].fields == if q' < q then Fixed(Abs(), obs[q'].0, before[q'].1[k]) else before[q'].1[k]
      {
        FixRows(obs[q].1, obs[q].0, before[q].1);
        q := q + 1;
      }
      forall p | 0 <= p < |obs| ensures Contents(obs)[p] == FixedTables(Abs(), before)[p] {
        assert Contents(obs)[p].1 == FixedTables(Abs(), before)[p].1;
      }
    }

    method FixRows(rows: seq<Row>, table: string, ghost before: seq<Fields>)
      requires NoDuplicates(rows) && |before| == |rows|
      requires forall k :: 0 <= k < |rows| ==> rows[k].fields == before[k] && RowOk(before[k])
      modifies rows
      ensures forall k :: 0 <= k < |rows| ==> rows[k].fields == Fixed(Abs(), table, before[k])
    {
      var k := 0;
      while k < |rows|
        invariant 0 <= k <= |rows|
        invariant forall j :: 0 <= j < |rows| ==>
          rows[j].fields == if j < k then Fixed(Abs(), table, before[j]) else before[j]
      {
        FixRow(rows[k], table, before[k]);
        k := k + 1;
      }
    }

    method FixRow(row: Row, table: string, ghost before: Fields)
      requires row.fields == before && RowOk(before)
      modifies row
      ensures row.fields == Fixed(Abs(), table, before)
    {
      var position := Num(IntOf(Get(row.fields, "_index").value) + Index(Abs(), table));
      GetPut(before, "_index", position, "_parent_index");
      GetPut(before, "_index", position, "_parent_table_name");
      row.fields := Put(row.fields, "_index", position);
      var parent := IntOf(Get(row.fields, "_parent_index").value);
      if parent != -1 {
        var i := Index(Abs(), TextOf(Get(row.fields, "_parent_table_name").value));
        row.fields := Put(row.fields, "_parent_index", Num(parent + i));
      }
    }

    /** A table's rows are written one after the other. */
    method AddRows(sheet: string, rows: seq<Row>)
      requires BookOk(Abs())
      modifies this
      ensures BookOk(Abs())
      ensures Abs() == WithRows(old(Abs()), sheet, FieldsOf(rows))
    {
      ghost var all := FieldsOf(rows);
      var k := 0;
      while k < |rows|
        invariant 0 <= k <= |rows| && BookOk(Abs())
        invariant WithRows(Abs(), sheet, all[k..]) == WithRows(old(Abs()), sheet, all)
      {
        assert all[k..][1..] == all[k + 1..];
        AddRow(sheet, rows[k].fields);
        k := k + 1;
      }
    }

    method AddObs(obs: Observation)
      requires BookOk(Abs()) && DistinctRows(obs) && TablesOk(Contents(obs))
      modifies this, RowsOf(obs)
      ensures BookOk(Abs()) && Kept(old(Abs()), Abs())
      ensures Contents(obs) == FixedTables(old(Abs()), old(Contents(obs)))
      ensures Abs() == WithTables(old(Abs()), FixedTables(old(Abs()), old(Contents(obs))))
    {
      FixIndices(obs);
      ghost var fixed := Contents(obs);
      WithTablesKept(Abs(), fixed);
      var q := 0;
      while q < |obs|
        invariant 0 <= q <= |obs|
        invariant BookOk(Abs()) && Contents(obs) == fixed
        invariant WithTables(Abs(), fixed[q..]) == WithTables(old(Abs()), fixed)
      {
        assert fixed[q..][1..] == fixed[q + 1..];
        assert FieldsOf(obs[q].1) == Contents(obs)[q].1;
        AddRows(Actual(Abs(), obs[q].0), obs[q].1);
        q := q + 1;
      }
    }
  }

  // ---------------------------------------------------------------- where a row is written

  /** In row i, some column of that name holds the value. */
  ghost predicate Holds(b: Book, sheet: string, i: nat, key: string, v: Cell) {
    sheet in b.sheets
    && exists j: nat :: j < |Columns(b, sheet)| && Columns(b, sheet)[j] == key
                        && (i, j) in b.sheets[sheet] && b.sheets[sheet][(i, j)] == v
  }

  lemma HoldsKept(b: Book, b': Book, sheet: string, i: nat, key: string, v: Cell)
    requires Kept(b, b') && Holds(b, sheet, i, key, v)
    ensures Holds(b', sheet, i, key, v)
  {
    assert SheetKept(b, b', sheet);
    var j: nat :| j < |Columns(b, sheet)| && Columns(b, sheet)[j] == key
                  && (i, j) in b.sheets[sheet] && b.sheets[sheet][(i, j)] == v;
    assert Columns(b', sheet)[j] == key && (i, j) in b'.sheets[sheet];
  }

  lemma {:induction false} RowHasColumns(b: Book, sheet: string, row: Fields, key: string)
    requires BookOk(b) && sheet in b.sheets && Get(row, key).Some?
    ensures key in Columns(WithColumns(b, sheet, row), sheet)
    decreases |row|
  {
    WithColumnOk(b, sheet, row[0].0);
    var b1 := if row[0].0 in Columns(b, sheet) then b else WithColumn(b, sheet, row[0].0);
    WithColumnsOk(b1, sheet, row[1..]);
    if row[0].0 == key {
      assert SheetKept(b1, WithColumns(b1, sheet, row[1..]), sheet);
      assert key in Columns(b1, sheet);
    } else {
      RowHasColumns(b1, sheet, row[1..], key);
    }
  }

  lemma RowWritten(b: Book, sheet: string, row: Fields, key: string)
    requires BookOk(b) && sheet in b.sheets && Get(row, key).Some?
    ensures Holds(WithRow(b, sheet, row), sheet, Index(b, sheet), key, Get(row, key).value)
  {
    RowHasColumns(b, sheet, row, key);
    WithColumnsOk(b, sheet, row);
    var b1, i := WithColumns(b, sheet, row), Index(b, sheet);
    var cs := Columns(b1, sheet);
    var j: nat :| j < |cs| && cs[j] == key;
    PutRowIs(b1.sheets[sheet], i, cs, row, (i, j));
    assert Columns(WithRow(b, sheet, row), sheet) == cs;
  }

  lemma FirstRowWritten(b: Book, sheet: string, rows: seq<Fields>, key: string)
    requires BookOk(b) && sheet in b.sheets && rows != [] && Get(rows[0], key).Some?
    ensures Holds(WithRows(b, sheet, rows), sheet, Index(b, sheet), key, Get(rows[0], key).value)
  {
    var b1 := WithRow(b, sheet, rows[0]);
    WithRowOk(b, sheet, rows[0]);
    WithRowsKept(b1, sheet, rows[1..]);
    RowWritten(b, sheet, rows[0], key);
    HoldsKept(b1, WithRows(b1, sheet, rows[1..]), sheet, Index(b, sheet), key, Get(rows[0], key).value);
  }

  /** Every value of the k-th row of a table stands in the k-th row after the rows the sheet had. */
  lemma {:induction false} RowsWritten(b: Book, sheet: string, rows: seq<Fields>, k: nat, key: string)
    requires BookOk(b) && sheet in b.sheets && k < |rows| && Get(rows[k], key).Some?
    ensures Holds(WithRows(b, sheet, rows), sheet, Index(b, sheet) + k, key, Get(rows[k], key).value)
    decreases |rows|
  {
    var b1 := WithRow(b, sheet, rows[0]);
    WithRowOk(b, sheet, rows[0]);
    if k == 0 {
      FirstRowWritten(b, sheet, rows, key);
    } else {
      RowsCounted(b, sheet, [rows[0]], sheet);
      OneRow(b, sheet, rows[0]);
      assert rows[1..][k - 1] == rows[k];
      RowsWritten(b1, sheet, rows[1..], k - 1, key);
    }
  }

  lemma OneRow(b: Book, sheet: string, row: Fields)
    ensures WithRows(b, sheet, [row]) == WithRow(b, sheet, row)
  {}

  lemma {:induction false} RowsCounted(b: Book, sheet: string, rows: seq<Fields>, other: string)
    requires BookOk(b)
    ensures var b' := WithRows(b, sheet, rows);
      && Index(b', other) == Index(b, other) + (if other == sheet then |rows| else 0)
      && b'.generated == b.generated && b'.sheets.Keys == b.sheets.Keys
    decreases |rows|
  {
    if rows != [] {
      WithColumnsOk(b, sheet, rows[0]);
      WithRowOk(b, sheet, rows[0]);
      RowsCounted(WithRow(b, sheet, rows[0]), sheet, rows[1..], other);
    }
  }

  /** How many rows a list of tables adds to a sheet. */
  function RowsFor(b: Book, tables: Tables, sheet: string): nat {
    if tables == [] then 0
    else (if Actual(b, tables[0].0) == sheet then |tables[0].1| else 0) + RowsFor(b, tables[1..], sheet)
  }

  lemma {:induction false} SameGenerated(b: Book, b': Book, tables: Tables, sheet: string)
    requires b.generated == b'.generated
    ensures RowsFor(b, tables, sheet) == RowsFor(b', tables, sheet)
  {
    if tables != [] {
      SameGenerated(b, b', tables[1..], sheet);
    }
  }

  /** The counter of a sheet goes up by the rows written to it, whatever name was asked for. */
  lemma {:induction false} TablesCounted(b: Book, tables: Tables, sheet: string)
    requires BookOk(b)
    ensures Index(WithTables(b, tables), sheet) == Index(b, sheet) + RowsFor(b, tables, sheet)
    decreases |tables|
  {
    if tables != [] {
      var first := Actual(b, tables[0].0);
      var b1 := WithRows(b, first, tables[0].1);
      RowsCounted(b, first, tables[0].1, sheet);
      WithRowsKept(b, first, tables[0].1);
      TablesCounted(b1, tables[1..], sheet);
      SameGenerated(b, b1, tables[1..], sheet);
    }
  }

  /** What a table's rows hold stays there while further tables are written. */
  lemma RowsStayWritten(b: Book, sheet: string, rows: seq<Fields>, more: Tables, k: nat, key: string)
    requires BookOk(b) && sheet in b.sheets && k < |rows| && Get(rows[k], key).Some?
    ensures Holds(WithTables(WithRows(b, sheet, rows), more), sheet, Index(b, sheet) + k, key, Get(rows[k], key).value)
  {
    var b1 := WithRows(b, sheet, rows);
    WithRowsKept(b, sheet, rows);
    WithTablesKept(b1, more);
    RowsWritten(b, sheet, rows, k, key);
    HoldsKept(b1, WithTables(b1, more), sheet, Index(b, sheet) + k, key, Get(rows[k], key).value);
  }

  /** Every value of the k-th row of the q-th table stands in the row computed from the counters. */
  lemma {:induction false} TablesWritten(b: Book, tables: Tables, q: nat, k: nat, key: string, v: Cell, sheet: string,
      i: nat)
    requires BookOk(b) && q < |tables| && k < |tables[q].1| && Get(tables[q].1[k], key) == Some(v)
    requires sheet == Actual(b, tables[q].0) && sheet in b.sheets
    requires i == Index(b, sheet) + RowsFor(b, tables[..q], sheet) + k
    ensures Holds(WithTables(b, tables), sheet, i, key, v)
    decreases |tables|
  {
    if q == 0 {
      RowsStayWritten(b, sheet, tables[0].1, tables[1..], k, key);
    } else {
      var first := Actual(b, tables[0].0);
      var b1 := WithRows(b, first, tables[0].1);
      RowsCounted(b, first, tables[0].1, sheet);
      WithRowsKept(b, first, tables[0].1);
      assert tables[1..][q - 1] == tables[q];
      assert tables[..q][1..] == tables[1..][..q - 1];
      SameGenerated(b, b1, tables[1..][..q - 1], sheet);
      TablesWritten(b1, tables[1..], q - 1, k, key, v, sheet, i);
    }
  }

  // ---------------------------------------------------------------- stored indices

  /** The row of the sheet where the k-th row of the q-th table of an observation is written. */
  function RowNumber(b: Book, tables: Tables, q: nat, k: nat): nat
    requires q < |tables|
  {
    var sheet := Actual(b, tables[q].0);
    Index(b, sheet) + RowsFor(b, tables[..q], sheet) + k
  }

  lemma {:induction false} FixedRowsFor(b: Book, tables: Tables, q: nat, sheet: string)
    requires TablesOk(tables) && q <= |tables|
    ensures RowsFor(b, FixedTables(b, tables)[..q], sheet) == RowsFor(b, tables[..q], sheet)
  {
    if q > 0 {
      assert tables[..q][1..] == tables[1..][..q - 1];
      assert forall i, k :: 0 <= i < |tables[1..]| && 0 <= k < |tables[1..][i].1| ==>
          tables[1..][i].1[k] == tables[i + 1].1[k];
      assert FixedTables(b, tables)[1..] == FixedTables(b, tables[1..]);
      assert FixedTables(b, tables)[..q][1..] == FixedTables(b, tables)[1..][..q - 1];
      FixedRowsFor(b, tables[1..], q - 1, sheet);
    }
  }

  /** A value of a row made global stands in the row of the sheet computed from the counters. */
  lemma FixedWritten(b: Book, tables: Tables, q: nat, k: nat, key: string, v: Cell)
    requires BookOk(b) && TablesOk(tables) && q < |tables| && k < |tables[q].1|
    requires Actual(b, tables[q].0) in b.sheets && Get(Fixed(b, tables[q].0, tables[q].1[k]), key) == Some(v)
    ensures Holds(WithTables(b, FixedTables(b, tables)), Actual(b, tables[q].0), RowNumber(b, tables, q, k), key, v)
  {
    FixedRowsFor(b, tables, q, Actual(b, tables[q].0));
    TablesWritten(b, FixedTables(b, tables), q, k, key, v, Actual(b, tables[q].0), RowNumber(b, tables, q, k));
  }

  /** The "_index" and "_parent_index" that are stored with a row. */
  function StoredIndex(b: Book, tables: Tables, q: nat, k: nat): Cell
    requires q < |tables| && k < |tables[q].1| && RowOk(tables[q].1[k])
  {
    ValueFor(Fixed(b, tables[q].0, tables[q].1[k]), "_index")
  }

  function StoredParent(b: Book, tables: Tables, q: nat, k: nat): Cell
    requires q < |tables| && k < |tables[q].1| && RowOk(tables[q].1[k])
  {
    ValueFor(Fixed(b, tables[q].0, tables[q].1[k]), "_parent_index")
  }

  /** They stand in the row of the sheet where the row is written. */
  lemma StoredIndicesWritten(b: Book, tables: Tables, q: nat, k: nat)
    requires BookOk(b) && TablesOk(tables) && q < |tables| && k < |tables[q].1| && Actual(b, tables[q].0) in b.sheets
    ensures var b', row := WithTables(b, FixedTables(b, tables)), RowNumber(b, tables, q, k);
            && Holds(b', Actual(b, tables[q].0), row, "_index", StoredIndex(b, tables, q, k))
            && Holds(b', Actual(b, tables[q].0), row, "_parent_index", StoredParent(b, tables, q, k))
  {
    FixedGet(b, tables[q].0, tables[q].1[k]);
    FixedWritten(b, tables, q, k, "_index", StoredIndex(b, tables, q, k));
    FixedWritten(b, tables, q, k, "_parent_index", StoredParent(b, tables, q, k));
  }

  lemma FixedGet(b: Book, table: string, row: Fields)
    requires RowOk(row)
    ensures var fixed := Fixed(b, table, row);
      && Get(fixed, "_index") == Some(Num(Get(row, "_index").value.n + Index(b, table)))
      && Get(fixed, "_parent_index") ==
           (var parent := Get(row, "_parent_index").value.n;
            if parent == -1 then Some(Num(-1))
                else Some(Num(parent + Index(b, Get(row, "_parent_table_name").value.text))))
  {
    var position := Num(Get(row, "_index").value.n + Index(b, table));
    var row1 := Put(row, "_index", position);
    GetPut(row, "_index", position, "_index");
    GetPut(row, "_index", position, "_parent_index");
    var parent := Get(row, "_parent_index").value.n;
    if parent != -1 {
      var v := Num(parent + Index(b, Get(row, "_parent_table_name").value.text));
      GetPut(row1, "_parent_index", v, "_index");
      GetPut(row1, "_parent_index", v, "_parent_index");
    }
  }

  lemma {:induction false} NoRowsFor(b: Book, tables: Tables, sheet: string)
    requires forall p :: 0 <= p < |tables| ==> Actual(b, tables[p].0) != sheet
    ensures RowsFor(b, tables, sheet) == 0
  {
    if tables != [] {
      NoRowsFor(b, tables[1..], sheet);
    }
  }

  // ---------------------------------------------------------------- runs

  datatype Call =
    | AddSheet(name: string, unique: string)
    | AddColumn(sheet: string, column: string)
    | AddRow(sheet: string, row: Fields)
    | AddObs(tables: Tables)

  /** A step of the writer, in terms of what its methods promise. */
  ghost predicate Step(b: Book, c: Call, b': Book) {
    match c
    case AddSheet(name, unique) => NewName(b, name, unique) && b' == WithSheet(b, name, unique)
    case AddColumn(sheet, column) => b' == WithColumn(b, sheet, column)
    case AddRow(sheet, row) => b' == WithRow(b, sheet, row)
    case AddObs(tables) => TablesOk(tables) && b' == WithTables(b, FixedTables(b, tables))
  }

  /** The books after each call of a run. */
  ghost predicate IsRun(books: seq<Book>, calls: seq<Call>) {
    |books| == |calls| + 1 && forall i :: 0 <= i < |calls| ==> Step(books[i], calls[i], books[i + 1])
  }

  lemma StepKeeps(b: Book, c: Call, b': Book)
    requires BookOk(b) && Step(b, c, b')
    ensures BookOk(b') && Kept(b, b')
  {
    match c
    case AddSheet(name, unique) =>
      var k: nat :| CounterFits(k, SHEET_NAME_LIMIT) && FirstFree(b.sheets.Keys, Cut(name), k)
                    && unique == Candidate(Cut(name), k, SHEET_NAME_LIMIT);
      WithSheetOk(b, name, unique);
    case AddColumn(sheet, column) => WithColumnOk(b, sheet, column);
    case AddRow(sheet, row) => WithRowOk(b, sheet, row);
    case AddObs(tables) => WithTablesKept(b, FixedTables(b, tables));
  }

  /** Over any run after a reset, sheets stay in order, no sheet is replaced and no cell written before changes. */
  lemma {:induction false} RunKeeps(books: seq<Book>, calls: seq<Call>, i: nat, j: nat)
    requires IsRun(books, calls) && books[0] == EmptyBook && i <= j < |books|
    ensures BookOk(books[i]) && BookOk(books[j]) && Kept(books[i], books[j])
    decreases j
  {
    if j == 0 {
      assert forall s :: SheetOk(EmptyBook, s) && SheetKept(EmptyBook, EmptyBook, s);
    } else if i == j {
      RunKeeps(books, calls, j - 1, j - 1);
      StepKeeps(books[j - 1], calls[j - 1], books[j]);
      assert forall s :: SheetKept(books[j], books[j], s);
    } else {
      RunKeeps(books, calls, i, j - 1);
      StepKeeps(books[j - 1], calls[j - 1], books[j]);
      KeptTransitive(books[i], books[j - 1], books[j]);
    }
  }

  // ---------------------------------------------------------------- stored indices over a run

  /** How many rows the first n calls wrote to a sheet. */
  function Written(books: seq<Book>, calls: seq<Call>, n: nat, sheet: string): nat
    requires n <= |calls| && |books| == |calls| + 1
  {
    if n == 0 then 0
    else Written(books, calls, n - 1, sheet) +
         match calls[n - 1]
         case AddRow(name, _) => if name == sheet then 1 else 0
         case AddObs(tables) => RowsFor(books[n - 1], tables, sheet)
         case _ => 0
  }

  /** A sheet's counter is one more than the rows written to it. */
  lemma {:induction false} CountersAre(books: seq<Book>, calls: seq<Call>, n: nat, sheet: string)
    requires IsRun(books, calls) && books[0] == EmptyBook && n <= |calls|
    ensures Index(books[n], sheet) == 1 + Written(books, calls, n, sheet)
    decreases n
  {
    if n > 0 {
      var b := books[n - 1];
      CountersAre(books, calls, n - 1, sheet);
      RunKeeps(books, calls, n - 1, n - 1);
      assert Step(b, calls[n - 1], books[n]);
      match calls[n - 1]
      case AddSheet(_, _) =>
      case AddColumn(_, _) =>
      case AddRow(name, row) =>
        OneRow(b, name, row);
        RowsCounted(b, name, [row], sheet);
      case AddObs(tables) => ObservationCounted(b, tables, sheet);
    }
  }

  lemma ObservationCounted(b: Book, tables: Tables, sheet: string)
    requires BookOk(b) && TablesOk(tables)
    ensures Index(WithTables(b, FixedTables(b, tables)), sheet) == Index(b, sheet) + RowsFor(b, tables, sheet)
  {
    var fixed := FixedTables(b, tables);
    TablesCounted(b, fixed, sheet);
    FixedRowsFor(b, tables, |tables|, sheet);
    assert fixed[..|tables|] == fixed && tables[..|tables|] == tables;
  }

  /** The tables of an observation go to different sheets. */
  ghost predicate DifferentSheets(b: Book, tables: Tables) {
    forall p, q :: 0 <= p < q < |tables| ==> Actual(b, tables[p].0) != Actual(b, tables[q].0)
  }

  /** Rows are numbered from 0 in each table. */
  ghost predicate Numbered(tables: Tables) {
    TablesOk(tables) &&
    forall q, k :: 0 <= q < |tables| && 0 <= k < |tables[q].1| ==> Get(tables[q].1[k], "_index") == Some(Num(k))
  }

  /** Every row of the table is stored with the number of the row of the sheet it is written in. */
  predicate IndicesRight(b: Book, tables: Tables, q: nat)
    requires q < |tables| && forall k :: 0 <= k < |tables[q].1| ==> RowOk(tables[q].1[k])
  {
    forall k | 0 <= k < |tables[q].1| :: StoredIndex(b, tables, q, k) == Num(RowNumber(b, tables, q, k))
  }

  /**
   Over any run, for an observation whose tables go to different sheets: a table's indices are right if and only if its
   name is its sheet's, or as many rows were written to a sheet of the requested name as to the table's own.
   */
  lemma RunIndicesExactly(books: seq<Book>, calls: seq<Call>, n: nat, q: nat)
    requires IsRun(books, calls) && books[0] == EmptyBook && n < |calls| && calls[n].AddObs?
    requires DifferentSheets(books[n], calls[n].tables) && Numbered(calls[n].tables)
    requires q < |calls[n].tables| && calls[n].tables[q].1 != []
    ensures var name, sheet := calls[n].tables[q].0, Actual(books[n], calls[n].tables[q].0);
            IndicesRight(books[n], calls[n].tables, q)
            <==> name == sheet || Written(books, calls, n, name) == Written(books, calls, n, sheet)
  {
    var b, tables := books[n], calls[n].tables;
    var name, sheet := tables[q].0, Actual(b, tables[q].0);
    CountersAre(books, calls, n, name);
    CountersAre(books, calls, n, sheet);
    NoRowsFor(b, tables[..q], sheet);
    forall k | 0 <= k < |tables[q].1|
      ensures StoredIndex(b, tables, q, k) == Num(k + Index(b, name))
    {
      FixedGet(b, name, tables[q].1[k]);
      assert Get(tables[q].1[k], "_index") == Some(Num(k));
    }
    assert RowNumber(b, tables, q, 0) == Index(b, sheet);
  }

  /** A stored parent is the row of row k' of table q' under the same condition on the parent's table. */
  lemma RunParentExactly(books: seq<Book>, calls: seq<Call>, n: nat, q: nat, k: nat, q': nat, k': nat)
    requires IsRun(books, calls) && books[0] == EmptyBook && n < |calls| && calls[n].AddObs?
    requires DifferentSheets(books[n], calls[n].tables) && TablesOk(calls[n].tables)
    requires q < |calls[n].tables| && k < |calls[n].tables[q].1| && q' < |calls[n].tables|
        && k' < |calls[n].tables[q'].1|
    requires Get(calls[n].tables[q].1[k], "_parent_index") == Some(Num(k'))
    requires Get(calls[n].tables[q].1[k], "_parent_table_name") == Some(Txt(calls[n].tables[q'].0))
    ensures var name, sheet := calls[n].tables[q'].0, Actual(books[n], calls[n].tables[q'].0);
            StoredParent(books[n], calls[n].tables, q, k) == Num(RowNumber(books[n], calls[n].tables, q', k'))
            <==> name == sheet || Written(books, calls, n, name) == Written(books, calls, n, sheet)
  {
    var b, tables := books[n], calls[n].tables;
    var name, sheet := tables[q'].0, Actual(b, tables[q'].0);
    CountersAre(books, calls, n, name);
    CountersAre(books, calls, n, sheet);
    NoRowsFor(b, tables[..q'], sheet);
    FixedGet(b, tables[q].0, tables[q].1[k]);
  }

  /** Every row goes to a sheet that was added. */
  ghost predicate ToSheets(books: seq<Book>, calls: seq<Call>)
    requires |books| == |calls| + 1
  {
    forall n :: 0 <= n < |calls| ==> CallToSheets(books[n], calls[n])
  }

  ghost predicate CallToSheets(b: Book, c: Call) {
    match c
    case AddRow(sheet, _) => sheet in b.sheets
    case AddObs(tables) => forall q :: 0 <= q < |tables| ==> Actual(b, tables[q].0) in b.sheets
    case _ => true
  }

  lemma {:induction false} NothingElsewhere(books: seq<Book>, calls: seq<Call>, n: nat, sheet: string)
    requires IsRun(books, calls) && books[0] == EmptyBook && ToSheets(books, calls) && n <= |calls|
    requires sheet !in books[n].sheets
    ensures Written(books, calls, n, sheet) == 0
    decreases n
  {
    if n > 0 {
      RunKeeps(books, calls, n - 1, n);
      assert SheetKept(books[n - 1], books[n], sheet);
      NothingElsewhere(books, calls, n - 1, sheet);
      assert CallToSheets(books[n - 1], calls[n - 1]);
      if calls[n - 1].AddObs? {
        NoRowsFor(books[n - 1], calls[n - 1].tables, sheet);
      }
    }
  }

  /**
   When rows go to sheets that were added and the requested name is no other table's sheet: a table's indices are right
   if and only if its name was not changed or its sheet has no rows yet.
   */
  lemma RenamedIndicesExactly(books: seq<Book>, calls: seq<Call>, n: nat, q: nat)
    requires IsRun(books, calls) && books[0] == EmptyBook && ToSheets(books, calls) && n < |calls| && calls[n].AddObs?
    requires DifferentSheets(books[n], calls[n].tables) && Numbered(calls[n].tables)
    requires q < |calls[n].tables| && calls[n].tables[q].1 != []
    requires var name := calls[n].tables[q].0; Actual(books[n], name) != name ==> name !in books[n].sheets
    ensures var name, sheet := calls[n].tables[q].0, Actual(books[n], calls[n].tables[q].0);
            IndicesRight(books[n], calls[n].tables, q) <==> name == sheet || Written(books, calls, n, sheet) == 0
  {
    RunIndicesExactly(books, calls, n, q);
    var name := calls[n].tables[q].0;
    if Actual(books[n], name) != name {
      NothingElsewhere(books, calls, n, name);
    }
  }

  /** An observation numbered from 0, whose tables have sheets of their own. */
  ghost predicate Plain(b: Book, tables: Tables) {
    && Numbered(tables) && DifferentSheets(b, tables)
    && forall q :: 0 <= q < |tables| ==> Actual(b, tables[q].0) != tables[q].0 ==> tables[q].0 !in b.sheets
  }

  ghost predicate PlainRun(books: seq<Book>, calls: seq<Call>) {
    && IsRun(books, calls) && books[0] == EmptyBook && ToSheets(books, calls)
    && forall n :: 0 <= n < |calls| && calls[n].AddObs? ==> Plain(books[n], calls[n].tables)
  }

  /** A table of an observation that brings rows for it. */
  predicate Brings(calls: seq<Call>, n: nat, q: nat) {
    n < |calls| && calls[n].AddObs? && q < |calls[n].tables| && calls[n].tables[q].1 != []
  }

  /** The table's name was not changed, or its sheet has no rows yet. */
  predicate KeptOrEmpty(books: seq<Book>, calls: seq<Call>, n: nat, q: nat)
    requires |books| == |calls| + 1 && Brings(calls, n, q)
  {
    var name, sheet := calls[n].tables[q].0, Actual(books[n], calls[n].tables[q].0);
    name == sheet || Written(books, calls, n, sheet) == 0
  }

  /** All indices stored over a run are right if and only if this holds of every table that brings rows. */
  lemma AllIndicesExactly(books: seq<Book>, calls: seq<Call>)
    requires PlainRun(books, calls)
    ensures forall n: nat, q: nat :: Brings(calls, n, q) ==> Plain(books[n], calls[n].tables)
    ensures (forall n: nat, q: nat :: Brings(calls, n, q) ==> IndicesRight(books[n], calls[n].tables, q))
            <==> (forall n: nat, q: nat :: Brings(calls, n, q) ==> KeptOrEmpty(books, calls, n, q))
  {
    forall n: nat, q: nat | Brings(calls, n, q)
      ensures Plain(books[n], calls[n].tables)
      ensures IndicesRight(books[n], calls[n].tables, q) <==> KeptOrEmpty(books, calls, n, q)
    {
      RenamedIndicesExactly(books, calls, n, q);
    }
  }

  // ---------------------------------------------------------------- runs with a long name

  /** One row, without a parent. */
  const ONE_ROW: Fields := [("_index", Num(0)), ("_parent_index", Num(-1))]

  function OneTable(name: string): Tables {
    [(name, [ONE_ROW])]
  }

  /** A sheet is added for the name, then two observations bring one row each. */
  function LongCalls(name: string): seq<Call> {
    [AddSheet(name, Cut(name)), AddObs(OneTable(name)), AddObs(OneTable(name))]
  }

  lemma OneTableOk(name: string)
    ensures Numbered(OneTable(name))
  {
    assert ONE_ROW[1..][0] == ("_parent_index", Num(-1));
    assert Get(ONE_ROW, "_index") == Some(Num(0));
    assert Get(ONE_ROW, "_parent_index") == Get(ONE_ROW[1..], "_parent_index");
  }

  /** For every name of more than 30 characters: the second observation's row is stored with a wrong index. */
  lemma LongNamesDrift(name: string, books: seq<Book>)
    requires |name| > SHEET_NAME_LIMIT && IsRun(books, LongCalls(name)) && books[0] == EmptyBook
    ensures Numbered(OneTable(name))
    ensures IndicesRight(books[1], OneTable(name), 0) && !IndicesRight(books[2], OneTable(name), 0)
  {
    var calls, sheet, tables := LongCalls(name), Cut(name), OneTable(name);
    OneTableOk(name);
    LongNameBooks(name, books);
    LongNameCounts(name, books, sheet);
    LongNameCounts(name, books, name);
    RunIndicesExactly(books, calls, 1, 0);
    RunIndicesExactly(books, calls, 2, 0);
  }

  lemma LongNameCounts(name: string, books: seq<Book>, sheet: string)
    requires |books| == 4 && Actual(books[1], name) == Cut(name)
    ensures Written(books, LongCalls(name), 1, sheet) == 0
    ensures Written(books, LongCalls(name), 2, sheet) == if sheet == Cut(name) then 1 else 0
  {
    var calls, tables := LongCalls(name), OneTable(name);
    assert Written(books, calls, 0, sheet) == 0 && calls[0].AddSheet?;
    assert tables[1..] == [] && RowsFor(books[1], tables[1..], sheet) == 0;
    assert calls[1] == AddObs(tables) && |tables[0].1| == 1;
  }

  lemma LongNameBooks(name: string, books: seq<Book>)
    requires |name| > SHEET_NAME_LIMIT && IsRun(books, LongCalls(name)) && books[0] == EmptyBook
    ensures Actual(books[1], name) == Actual(books[2], name) == Cut(name)
  {
    var calls := LongCalls(name);
    assert Step(books[0], calls[0], books[1]) && Step(books[1], calls[1], books[2]);
    RunKeeps(books, calls, 1, 1);
    GeneratedKept(books[1], FixedTables(books[1], OneTable(name)));
  }

  /** There is such a run for every such name. */
  lemma LongNamesRun(name: string) returns (books: seq<Book>)
    requires |name| > SHEET_NAME_LIMIT
    ensures IsRun(books, LongCalls(name)) && books[0] == EmptyBook
  {
    OneTableOk(name);
    var b1 := WithSheet(EmptyBook, name, Cut(name));
    var b2 := WithTables(b1, FixedTables(b1, OneTable(name)));
    books := [EmptyBook, b1, b2, WithTables(b2, FixedTables(b2, OneTable(name)))];
    assert CounterFits(0, SHEET_NAME_LIMIT) && FirstFree(EmptyBook.sheets.Keys, Cut(name), 0);
    assert NewName(EmptyBook, name, Cut(name));
  }

  lemma {:induction false} GeneratedKept(b: Book, tables: Tables)
    requires BookOk(b)
    ensures WithTables(b, tables).generated == b.generated
    decreases |tables|
  {
    if tables != [] {
      RowsCounted(b, Actual(b, tables[0].0), tables[0].1, "");
      WithRowsKept(b, Actual(b, tables[0].0), tables[0].1);
      GeneratedKept(WithRows(b, Actual(b, tables[0].0), tables[0].1), tables[1..]);
    }
  }
}
