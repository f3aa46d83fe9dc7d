/**
 What a call of the workbook writer leaves in the book, cell by cell and name by name
 (XlsWriter in onadata/apps/viewer/xls_writer.py).
 */
module XlsLaws {
  import opened Common
  import opened Grouping
  import opened Text
  import opened SheetNames
  import opened XlsWriter

  // ---------------------------------------------------------------- sheet names

  /** The next name tried: as much of the one before as fits 30 characters with the counter behind it. */
  ghost predicate Next(before: string, counter: nat, name: string) {
    exists n: nat ::
      && n <= |before| && name == before[..n] + Decimal(counter)
      && |name| <= 30 && (n == |before| || |name| == 30)
  }

  /** Names tried one after the other: the requested one, cut to 30 characters, then with counters 1, 2, ... */
  ghost predicate Tried(requested: string, names: seq<string>) {
    && names != []
    && names[0] == (if |requested| > 30 then requested[..30] else requested)
    && forall i | 0 < i < |names| :: Next(names[i - 1], i, names[i])
  }

  lemma NextCandidate(name: string, i: nat)
    requires CounterFits(i, 30) && i > 0 && |name| <= 30
    ensures CounterFits(i - 1, 30)
    ensures Next(Candidate(name, i - 1, 30), i, Candidate(name, i, 30))
  {
    FittingCounter(i, 30);
    CandidateLength(name, i - 1, 30);
    var before, allowed := Candidate(name, i - 1, 30), 30 - |Decimal(i)|;
    var n := if |before| > allowed then allowed else |before|;
    assert before[..|before|] == before;
    assert Candidate(name, i, 30) == before[..n] + Decimal(i);
  }

  /** The last of the names tried is the first that no sheet has. */
  ghost predicate FirstFreeTried(sheets: set<string>, requested: string, names: seq<string>) {
    && Tried(requested, names) && names[|names| - 1] !in sheets
    && forall i | 0 <= i < |names| - 1 :: names[i] in sheets
  }

  lemma CandidatesTried(sheets: set<string>, requested: string, k: nat) returns (names: seq<string>)
    requires CounterFits(k, 30) && FirstFree(sheets, Cut(requested), k)
    ensures FirstFreeTried(sheets, requested, names) && names[|names| - 1] == Candidate(Cut(requested), k, 30)
  {
    names := seq(k + 1, i requires 0 <= i < k + 1 => Candidate(Cut(requested), i, 30));
    forall i | 0 < i < |names|
      ensures Next(names[i - 1], i, names[i])
    {
      NextCandidate(Cut(requested), i);
    }
  }

  /** A new sheet has the first of the names tried that no sheet has. */
  lemma NewNameExactly(b: Book, requested: string, unique: string)
    requires NewName(b, requested, unique)
    ensures |unique| <= 30
    ensures exists names: seq<string> :: FirstFreeTried(b.sheets.Keys, requested, names) && names[|names| - 1] == unique
  {
    var k: nat :| CounterFits(k, SHEET_NAME_LIMIT) && FirstFree(b.sheets.Keys, Cut(requested), k)
                  && unique == Candidate(Cut(requested), k, SHEET_NAME_LIMIT);
    CandidateLength(Cut(requested), k, 30);
    var names := CandidatesTried(b.sheets.Keys, requested, k);
  }

  // ---------------------------------------------------------------- a row, cell by cell

  /** The row's value under a column's name, or "n/a". */
  ghost predicate CellFor(row: Fields, column: string, v: Cell) {
    if exists a | 0 <= a < |row| :: row[a].0 == column then
        exists a | 0 <= a < |row| :: row[a] == (column, v) && forall d | 0 <= d < a :: row[d].0 != column
    else v == Txt("n/a")
  }

  lemma {:induction false} ValueIsCell(row: Fields, column: string)
    ensures CellFor(row, column, ValueFor(row, column))
  {
    if row != [] && row[0].0 != column {
      var rest := row[1..];
      ValueIsCell(rest, column);
      assert forall a | 0 < a < |row| :: row[a] == rest[a - 1];
      if a :| 0 <= a < |rest| && rest[a] == (column, ValueFor(rest, column))
              && forall d | 0 <= d < a :: rest[d].0 != column {
        assert row[a + 1] == (column, ValueFor(row, column));
      }
    } else if row != [] {
      assert row[0] == (column, ValueFor(row, column));
    }
  }

  /** Positions in the row of the columns it adds. */
  ghost predicate AddedAt(columns: seq<string>, row: Fields, added: seq<string>, at: seq<nat>) {
    && |at| == |added|
    && (forall j | 0 <= j < |at| :: at[j] < |row| && row[at[j]].0 == added[j] && added[j] !in columns)
    && forall i, j | 0 <= i < j < |at| :: at[i] < at[j] && added[i] != added[j]
  }

  /** The columns a row adds: its keys that the sheet lacks, once each, in the row's order. */
  ghost predicate Adds(columns: seq<string>, row: Fields, added: seq<string>) {
    && (forall a | 0 <= a < |row| :: row[a].0 in columns || row[a].0 in added)
    && exists at :: AddedAt(columns, row, added, at)
  }

  function NewColumns(columns: seq<string>, row: Fields): seq<string>
    decreases |row|
  {
    if row == [] then []
    else if row[0].0 in columns then NewColumns(columns, row[1..])
    else [row[0].0] + NewColumns(columns + [row[0].0], row[1..])
  }

  lemma KnownFirst(columns: seq<string>, row: Fields, added: seq<string>, at: seq<nat>) returns (at': seq<nat>)
    requires row != [] && AddedAt(columns, row[1..], added, at)
    ensures AddedAt(columns, row, added, at')
  {
    at' := seq(|at|, j requires 0 <= j < |at| => at[j] + 1);
  }

  lemma NewFirst(columns: seq<string>, row: Fields, added: seq<string>, at: seq<nat>) returns (at': seq<nat>)
    requires row != [] && row[0].0 !in columns && AddedAt(columns + [row[0].0], row[1..], added, at)
    ensures AddedAt(columns, row, [row[0].0] + added, at')
  {
    var all, key := columns + [row[0].0], row[0].0;
    assert key in all && forall c :: c in columns ==> c in all;
    at' := seq(|at| + 1, j requires 0 <= j < |at| + 1 => if j == 0 then 0 else at[j - 1] + 1);
    forall j | 0 <= j < |at'|
      ensures at'[j] < |row| && row[at'[j]].0 == ([key] + added)[j] && ([key] + added)[j] !in columns
    {
      if j > 0 { assert added[j - 1] !in all && row[1..][at[j - 1]].0 == added[j - 1]; }
    }
  }

  lemma {:induction false} NewColumnsAdd(columns: seq<string>, row: Fields)
    ensures Adds(columns, row, NewColumns(columns, row))
    decreases |row|
  {
    var added := NewColumns(columns, row);
    if row == [] {
      assert AddedAt(columns, row, added, []);
    } else {
      var key, rest := row[0].0, row[1..];
      assert forall a | 0 < a < |row| :: row[a] == rest[a - 1];
      if key in columns {
        NewColumnsAdd(columns, rest);
        var at :| AddedAt(columns, rest, added, at);
        var at' := KnownFirst(columns, row, added, at);
      } else {
        NewColumnsAdd(columns + [key], rest);
        var at :| AddedAt(columns + [key], rest, added[1..], at);
        var at' := NewFirst(columns, row, added[1..], at);
        assert added == [key] + added[1..];
      }
    }
  }

  /** The other sheets are as before. */
  ghost predicate OthersSame(b: Book, b': Book, sheet: string) {
    forall s | s != sheet :: Columns(b', s) == Columns(b, s) && Index(b', s) == Index(b, s) && SamePage(b, b', s)
  }

  ghost predicate SamePage(b: Book, b': Book, s: string) {
    && (s in b.sheets <==> s in b'.sheets)
    && (s in b.sheets ==> b'.sheets[s] == b.sheets[s])
  }

  /** Adding a row's columns changes the columns and the header of that sheet only. */
  lemma {:induction false} ColumnsAdded(b: Book, sheet: string, row: Fields)
    requires BookOk(b) && sheet in b.sheets
    ensures Columns(WithColumns(b, sheet, row), sheet) == Columns(b, sheet) + NewColumns(Columns(b, sheet), row)
    ensures OthersSame(b, WithColumns(b, sheet, row), sheet)
    decreases |row|
  {
    var cs := Columns(b, sheet);
    if row != [] {
      if row[0].0 in cs {
        ColumnsAdded(b, sheet, row[1..]);
      } else {
        var b1 := WithColumn(b, sheet, row[0].0);
        WithColumnOk(b, sheet, row[0].0);
        ColumnsAdded(b1, sheet, row[1..]);
        assert Columns(b1, sheet) == cs + [row[0].0];
        Associates(cs, [row[0].0], NewColumns(cs + [row[0].0], row[1..]));
      }
    }
  }

  /** New cells of the sheet are the headers of new columns. */
  lemma {:induction false} HeadersAdded(b: Book, sheet: string, row: Fields, p: (nat, nat))
    requires BookOk(b) && sheet in b.sheets
    ensures var b' := WithColumns(b, sheet, row);
            && sheet in b'.sheets
            && (p in b'.sheets[sheet] <==>
                  p in b.sheets[sheet] || (p.0 == 0 && |Columns(b, sheet)| <= p.1 < |Columns(b', sheet)|))
    decreases |row|
  {
    if row != [] {
      var b1 := if row[0].0 in Columns(b, sheet) then b else WithColumn(b, sheet, row[0].0);
      WithColumnOk(b, sheet, row[0].0);
      HeadersAdded(b1, sheet, row[1..], p);
      WithColumnsOk(b1, sheet, row[1..]);
      assert SheetKept(b1, WithColumns(b1, sheet, row[1..]), sheet);
    }
  }

  /** The row under the sheet's rows holds the row's value or "n/a" in every column. */
  ghost predicate RowStands(cells: Cells, i: nat, columns: seq<string>, row: Fields) {
    forall j: nat | j < |columns| :: (i, j) in cells && CellFor(row, columns[j], cells[(i, j)])
  }

  lemma RowPut(cells: Cells, i: nat, columns: seq<string>, row: Fields)
    ensures RowStands(PutRow(cells, i, columns, row), i, columns, row)
    ensures forall p :: p in PutRow(cells, i, columns, row) <==> p in cells || (p.0 == i && p.1 < |columns|)
  {
    forall p
      ensures p in PutRow(cells, i, columns, row) <==> p in cells || (p.0 == i && p.1 < |columns|)
      ensures p.0 == i && p.1 < |columns| ==> CellFor(row, columns[p.1], PutRow(cells, i, columns, row)[p])
    {
      PutRowIs(cells, i, columns, row, p);
      if p.1 < |columns| {
        ValueIsCell(row, columns[p.1]);
      }
    }
  }

  /** Which cells the sheet has: those it had, the names of new columns on top, and those of the new row. */
  ghost predicate CellsAdded(cells: Cells, cells': Cells, i: nat, n: nat, n': nat) {
    forall p :: p in cells' <==> p in cells || (p.0 == 0 && n <= p.1 < n') || (p.0 == i && p.1 < n')
  }

  lemma RowAddsColumns(b: Book, sheet: string, row: Fields)
    requires BookOk(b) && sheet in b.sheets
    ensures var cs, cs' := Columns(b, sheet), Columns(WithRow(b, sheet, row), sheet);
            cs <= cs' && Adds(cs, row, cs'[|cs|..]) && cs' == Columns(WithColumns(b, sheet, row), sheet)
    ensures Index(WithRow(b, sheet, row), sheet) == Index(b, sheet) + 1
  {
    var cs, b1 := Columns(b, sheet), WithColumns(b, sheet, row);
    ColumnsAdded(b, sheet, row);
    NewColumnsAdd(cs, row);
    assert Columns(b1, sheet)[|cs|..] == NewColumns(cs, row);
  }

  lemma RowAddsCells(b: Book, sheet: string, row: Fields)
    requires BookOk(b) && sheet in b.sheets
    ensures var cells', cs, cs' := WithRow(b, sheet, row).sheets, Columns(b, sheet),
                Columns(WithColumns(b, sheet, row), sheet);
            && sheet in cells'
            && CellsAdded(b.sheets[sheet], cells'[sheet], Index(b, sheet), |cs|, |cs'|)
            && RowStands(cells'[sheet], Index(b, sheet), cs', row)
  {
    var b1, cs := WithColumns(b, sheet, row), Columns(b, sheet);
    var cs' := Columns(b1, sheet);
    WithColumnsOk(b, sheet, row);
    RowPut(b1.sheets[sheet], Index(b, sheet), cs', row);
    forall p: (nat, nat)
      ensures p in b1.sheets[sheet] <==> p in b.sheets[sheet] || (p.0 == 0 && |cs| <= p.1 < |cs'|)
    {
      HeadersAdded(b, sheet, row, p);
    }
  }

  lemma RowKeepsOthers(b: Book, sheet: string, row: Fields)
    requires BookOk(b) && sheet in b.sheets
    ensures OthersSame(b, WithRow(b, sheet, row), sheet)
  {
    ColumnsAdded(b, sheet, row);
    WithColumnsOk(b, sheet, row);
    OthersKept(b, WithColumns(b, sheet, row), WithRow(b, sheet, row), sheet);
  }

  /** After a row was added: the sheet has the row's missing columns behind its own, each with its name on top; the row
      holds the row's value or "n/a" in every column; every other cell and sheet is as before. */
  lemma RowExactly(b: Book, sheet: string, row: Fields)
    requires BookOk(b) && sheet in b.sheets
    ensures var b', i := WithRow(b, sheet, row), Index(b, sheet);
            var cs, cs' := Columns(b, sheet), Columns(b', sheet);
            && cs <= cs' && Adds(cs, row, cs'[|cs|..]) && Index(b', sheet) == i + 1
            && sheet in b'.sheets
            && CellsAdded(b.sheets[sheet], b'.sheets[sheet], i, |cs|, |cs'|)
            && CellsKept(b.sheets[sheet], b'.sheets[sheet])
            && PageOk(b'.sheets[sheet], cs', i + 1)
            && RowStands(b'.sheets[sheet], i, cs', row)
            && OthersSame(b, b', sheet)
  {
    RowAddsColumns(b, sheet, row);
    RowAddsCells(b, sheet, row);
    RowKeepsOthers(b, sheet, row);
    RowKeepsPage(b, sheet, row);
  }

  lemma RowKeepsPage(b: Book, sheet: string, row: Fields)
    requires BookOk(b) && sheet in b.sheets
    ensures var b' := WithRow(b, sheet, row);
            && sheet in b'.sheets && CellsKept(b.sheets[sheet], b'.sheets[sheet])
            && PageOk(b'.sheets[sheet], Columns(b', sheet), Index(b', sheet))
  {
    WithRowOk(b, sheet, row);
    assert SheetOk(WithRow(b, sheet, row), sheet) && SheetKept(b, WithRow(b, sheet, row), sheet);
  }

  lemma OthersKept(b: Book, b1: Book, b': Book, sheet: string)
    requires OthersSame(b, b1, sheet)
    requires forall s | s != sheet :: Columns(b', s) == Columns(b1, s) && Index(b', s) == Index(b1, s)
    requires forall s | s != sheet :: SamePage(b1, b', s)
    ensures OthersSame(b, b', sheet)
  {
    forall s | s != sheet
      ensures Columns(b', s) == Columns(b, s) && Index(b', s) == Index(b, s) && SamePage(b, b', s)
    {
      assert SamePage(b, b1, s) && SamePage(b1, b', s);
    }
  }

  /** Making a row global changes its positions only. */
  lemma FixedKeepsOthers(b: Book, table: string, row: Fields, key: string)
    requires RowOk(row) && key != "_index" && key != "_parent_index"
    ensures Get(Fixed(b, table, row), key) == Get(row, key)
  {
    var position := Num(Get(row, "_index").value.n + Index(b, table));
    var parent := Get(row, "_parent_index").value.n;
    GetPut(row, "_index", position, key);
    if parent != -1 {
      var v := Num(parent + Index(b, Get(row, "_parent_table_name").value.text));
      GetPut(Put(row, "_index", position), "_parent_index", v, key);
    }
  }

  // ---------------------------------------------------------------- where a table's rows go

  /** The n-th call adds a sheet for the name, and no call after it before the m-th does. */
  predicate LastAdded(calls: seq<Call>, m: nat, name: string, n: nat) {
    && n < m <= |calls| && calls[n].AddSheet? && calls[n].name == name
    && forall l | n < l < m :: calls[l].AddSheet? ==> calls[l].name != name
  }

  lemma NamesStep(b: Book, call: Call, b': Book, name: string)
    requires BookOk(b) && Step(b, call, b')
    ensures Actual(b', name) == if call.AddSheet? && call.name == name then call.unique else Actual(b, name)
  {
    match call
    case AddSheet(_, _) =>
    case AddColumn(_, _) =>
    case AddRow(sheet, row) =>
      OneRow(b, sheet, row);
      RowsCounted(b, sheet, [row], sheet);
    case AddObs(tables) => GeneratedKept(b, FixedTables(b, tables));
  }

  /** Sheets that a name stands for, call by call. */
  ghost predicate Follows(actual: seq<string>, calls: seq<Call>, name: string) {
    |actual| == |calls| + 1 && actual[0] == name && forall i | 0 <= i < |calls| :: FollowsAt(actual, calls, name, i)
  }

  predicate FollowsAt(actual: seq<string>, calls: seq<Call>, name: string, i: nat)
    requires i < |calls| && i + 1 < |actual|
  {
    actual[i + 1] == if calls[i].AddSheet? && calls[i].name == name then calls[i].unique else actual[i]
  }

  lemma {:induction false} FollowsLast(actual: seq<string>, calls: seq<Call>, m: nat, name: string)
    requires Follows(actual, calls, name) && m <= |calls|
    ensures forall n: nat :: LastAdded(calls, m, name, n) ==> actual[m] == calls[n].unique
    ensures (forall n | 0 <= n < m :: calls[n].AddSheet? ==> calls[n].name != name) ==> actual[m] == name
    decreases m
  {
    if m > 0 {
      FollowsLast(actual, calls, m - 1, name);
      assert FollowsAt(actual, calls, name, m - 1);
      forall n: nat | LastAdded(calls, m, name, n)
        ensures actual[m] == calls[n].unique
      {
        LastStep(calls, m, name, n);
      }
    }
  }

  lemma LastStep(calls: seq<Call>, m: nat, name: string, n: nat)
    requires m > 0 && LastAdded(calls, m, name, n)
    ensures if calls[m - 1].AddSheet? && calls[m - 1].name == name then n == m - 1
            else n < m - 1 && LastAdded(calls, m - 1, name, n)
  {}

  lemma RunNamesStep(books: seq<Book>, calls: seq<Call>, i: nat, name: string)
    requires IsRun(books, calls) && books[0] == EmptyBook && i < |calls|
    ensures Actual(books[i + 1], name)
            == if calls[i].AddSheet? && calls[i].name == name then calls[i].unique else Actual(books[i], name)
  {
    RunKeeps(books, calls, i, i);
    NamesStep(books[i], calls[i], books[i + 1], name);
  }

  /** Over any run, a table's rows go to the sheet that was last added for its name, and to the sheet of that very name
      if none was. */
  lemma RowsGoToLastAdded(books: seq<Book>, calls: seq<Call>, m: nat, name: string)
    requires IsRun(books, calls) && books[0] == EmptyBook && m <= |calls|
    ensures forall n: nat :: LastAdded(calls, m, name, n) ==> Actual(books[m], name) == calls[n].unique
    ensures (forall n | 0 <= n < m :: calls[n].AddSheet? ==> calls[n].name != name) ==> Actual(books[m], name) == name
  {
    var actual := seq(|books|, i requires 0 <= i < |books| => Actual(books[i], name));
    forall i | 0 <= i < |calls|
      ensures FollowsAt(actual, calls, name, i)
    {
      RunNamesStep(books, calls, i, name);
    }
    FollowsLast(actual, calls, m, name);
  }
}
