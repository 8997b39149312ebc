/** The two database modes mirror each other, and what the result sets of tables and columns hold. */
module CatalogTheorems {
  import opened OdbcTypes
  import opened CatalogContents

  // The mirror

  function SwapTables(rows: seq<TableRow>): (swapped: seq<TableRow>)
    ensures |swapped| == |rows|
  {
    seq(|rows|, i requires 0 <= i < |rows| => rows[i].Swapped())
  }

  function SwapColumns(rows: seq<ColumnRow>): (swapped: seq<ColumnRow>)
    ensures |swapped| == |rows|
  {
    seq(|rows|, i requires 0 <= i < |rows| => rows[i].Swapped())
  }

  lemma RowsMirror(database: string, names: seq<string>)
    ensures TableRows(false, database, names) == SwapTables(TableRows(true, database, names))
    ensures DatabaseRows(false, names) == SwapTables(DatabaseRows(true, names))
  {
  }

  lemma {:induction false} EachMirrors(service: Service, databases: seq<string>, pattern: string)
    ensures
      var catalogs := TablesOfEach(service, false, databases, pattern);
      var schemas := TablesOfEach(service, true, databases, pattern);
      catalogs.result == schemas.result && catalogs.rows == SwapTables(schemas.rows)
  {
    if databases != [] {
      EachMirrors(service, databases[1..], pattern);
      RowsMirror(databases[0], Matched(service, ShowTables(databases[0], pattern)).rows);
    }
  }

  lemma IdentifierMirrors(service: Service, identifier: string, table: string)
    ensures
      var catalogs := IdentifierTables(service, false, identifier, table);
      var schemas := IdentifierTables(service, true, identifier, table);
      catalogs.result == schemas.result && catalogs.rows == SwapTables(schemas.rows)
  {
  }

  lemma PatternMirrors(service: Service, database: Option<string>, table: Option<string>)
    ensures
      var catalogs := PatternTables(service, false, database, table);
      var schemas := PatternTables(service, true, database, table);
      catalogs.result == schemas.result && catalogs.rows == SwapTables(schemas.rows)
  {
    EachMirrors(service, Matched(service, ShowDatabases(OrAll(database))).rows, OrAll(table));
  }

  lemma TablesInMirror(service: Service, metadataId: bool, args: Arguments)
    ensures
      var catalogs := TablesIn(service, false, metadataId, args.Swapped());
      var schemas := TablesIn(service, true, metadataId, args);
      catalogs.result == schemas.result && catalogs.rows == SwapTables(schemas.rows)
  {
    if metadataId {
      if args.schema.Some? && args.table.Some? {
        IdentifierMirrors(service, args.schema.value, args.table.value);
      }
    } else {
      RowsMirror("", Matched(service, ShowDatabases(ALL)).rows);
      PatternMirrors(service, args.schema, args.table);
    }
  }

  /**
    With databases as catalogs, the tables of swapped arguments are the tables that the other mode
    lists, with catalog and schema swapped, under the same return code.
  */
  lemma TablesMirror(service: Service, metadataId: bool, args: Arguments)
    ensures
      var catalogs := Tables(service, false, metadataId, args.Swapped());
      var schemas := Tables(service, true, metadataId, args);
      catalogs.result == schemas.result && catalogs.rows == SwapTables(schemas.rows)
  {
    TablesInMirror(service, metadataId, args);
  }

  lemma ColumnsOfTableMirror(service: Service, filter: Option<string>, database: string, table: string)
    ensures
      var catalogs := ColumnsOfTable(service, false, filter, database, table);
      var schemas := ColumnsOfTable(service, true, filter, database, table);
      catalogs.result == schemas.result && catalogs.rows == SwapColumns(schemas.rows)
  {
  }

  lemma {:induction false} EachColumnsMirror(
      service: Service, filter: Option<string>, tables: seq<TableRow>, so: Answer<ColumnRow>)
    ensures
      var catalogs :=
        ColumnsOfEach(service, false, filter, SwapTables(tables), Answer(so.result, SwapColumns(so.rows)));
      var schemas := ColumnsOfEach(service, true, filter, tables, so);
      catalogs.result == schemas.result && catalogs.rows == SwapColumns(schemas.rows)
    decreases |tables|
  {
    if tables != [] {
      var database, table := NameOn(true, tables[0]), NameOf(tables[0]);
      ColumnsOfTableMirror(service, filter, database, table);
      var more := ColumnsOfTable(service, true, filter, database, table);
      assert SwapTables(tables)[1..] == SwapTables(tables[1..]);
      assert SwapColumns(so.rows + more.rows) == SwapColumns(so.rows) + SwapColumns(more.rows);
      EachColumnsMirror(service, filter, tables[1..], Extended(so.rows, more));
    }
  }

  lemma PatternColumnsMirror(service: Service, args: Arguments, filter: Option<string>)
    ensures
      var catalogs := PatternColumns(service, false, args.Swapped(), filter);
      var schemas := PatternColumns(service, true, args, filter);
      catalogs.result == schemas.result && catalogs.rows == SwapColumns(schemas.rows)
  {
    TablesMirror(service, false, args.(tableType := None));
    var tables := Tables(service, true, false, args.(tableType := None));
    EachColumnsMirror(service, filter, tables.rows, Answer(Success, []));
    assert SwapColumns([]) == [];
  }

  /** The same for columns. */
  lemma ColumnsMirror(service: Service, metadataId: bool, args: Arguments, column: Option<string>)
    ensures
      var catalogs := Columns(service, false, metadataId, args.Swapped(), column);
      var schemas := Columns(service, true, metadataId, args, column);
      catalogs.result == schemas.result && catalogs.rows == SwapColumns(schemas.rows)
  {
    if Refused(true, metadataId, args, column).None? {
      if metadataId {
        ColumnsOfTableMirror(service, column, args.schema.value, args.table.value);
        var more := ColumnsOfTable(service, true, column, args.schema.value, args.table.value);
        assert [] + more.rows == more.rows && [] + SwapColumns(more.rows) == SwapColumns(more.rows);
      } else {
        PatternColumnsMirror(service, args, Some(OrAll(column)));
      }
    }
  }

  // What is listed

  function TableBlocks(service: Service, asSchema: bool, databases: seq<string>, pattern: string)
    : seq<seq<TableRow>>
  {
    seq(|databases|, i requires 0 <= i < |databases| =>
      TableRows(asSchema, databases[i], Matched(service, ShowTables(databases[i], pattern)).rows))
  }

  /** Up to the first database whose listing fails, every table of every database, in order. */
  lemma {:induction false} EveryTableInOrder(
      service: Service, asSchema: bool, databases: seq<string>, pattern: string, good: nat)
    requires good <= |databases|
    requires forall i | 0 <= i < good :: Listed(Matched(service, ShowTables(databases[i], pattern)).result)
    requires good < |databases| ==> !Listed(Matched(service, ShowTables(databases[good], pattern)).result)
    ensures
      var listed := TablesOfEach(service, asSchema, databases, pattern);
      && listed.rows == Flatten(TableBlocks(service, asSchema, databases[..good], pattern))
      && listed.result == if good == |databases| then Success
                          else Matched(service, ShowTables(databases[good], pattern)).result
    decreases good
  {
    if good > 0 {
      EveryTableInOrder(service, asSchema, databases[1..], pattern, good - 1);
      assert databases[..good][1..] == databases[1..][..good - 1];
      assert TableBlocks(service, asSchema, databases[..good], pattern)[1..]
          == TableBlocks(service, asSchema, databases[1..][..good - 1], pattern);
    }
  }

  function ColumnBlocks(service: Service, asSchema: bool, filter: Option<string>, tables: seq<TableRow>)
    : seq<seq<ColumnRow>>
  {
    seq(|tables|, i requires 0 <= i < |tables| =>
      ColumnsOfTable(service, asSchema, filter, NameOn(asSchema, tables[i]), NameOf(tables[i])).rows)
  }

  predicate Described(service: Service, asSchema: bool, table: TableRow) {
    service.describe(Describe(NameOn(asSchema, table), NameOf(table))).execute == Success
  }

  lemma FirstBlock(
      service: Service, asSchema: bool, filter: Option<string>, tables: seq<TableRow>, rows: seq<ColumnRow>)
    requires tables != []
    ensures
      var more := ColumnsOfTable(service, asSchema, filter, NameOn(asSchema, tables[0]), NameOf(tables[0]));
      rows + Flatten(ColumnBlocks(service, asSchema, filter, tables))
      == rows + more.rows + Flatten(ColumnBlocks(service, asSchema, filter, tables[1..]))
  {
    var blocks := ColumnBlocks(service, asSchema, filter, tables);
    assert blocks[1..] == ColumnBlocks(service, asSchema, filter, tables[1..]);
    assert rows + (blocks[0] + Flatten(blocks[1..])) == rows + blocks[0] + Flatten(blocks[1..]);
  }

  /**
    Up to the first table that cannot be described, the columns of every table that pass the filter,
    in order; plain success only if there are any.
  */
  lemma {:induction false} EveryColumnInOrder(
      service: Service, asSchema: bool, filter: Option<string>, tables: seq<TableRow>,
      so: Answer<ColumnRow>, good: nat)
    requires good <= |tables| && forall i | 0 <= i < good :: Described(service, asSchema, tables[i])
    requires good < |tables| ==> !Described(service, asSchema, tables[good])
    ensures
      var listed := ColumnsOfEach(service, asSchema, filter, tables, so);
      && listed.rows == so.rows + Flatten(ColumnBlocks(service, asSchema, filter, tables[..good]))
      && listed.result == if good < |tables| then NoData
                          else if tables == [] then so.result
                          else if listed.rows == [] then SuccessWithInfo else Success
    decreases good
  {
    if good == 0 {
      assert so.rows + [] == so.rows;
    } else {
      assert Described(service, asSchema, tables[0]);
      var more := ColumnsOfTable(service, asSchema, filter, NameOn(asSchema, tables[0]), NameOf(tables[0]));
      EveryColumnInOrder(service, asSchema, filter, tables[1..], Extended(so.rows, more), good - 1);
      assert tables[..good][1..] == tables[1..][..good - 1];
      FirstBlock(service, asSchema, filter, tables[..good], so.rows);
    }
  }

  /**
    A column of a table is listed as often as it was described, if the filter is the wildcard or its name,
    and not at all otherwise; a filter that is missing is an empty name.
  */
  lemma {:induction false} PassingCounts(filter: Option<string>, columns: seq<Column>, column: Column)
    ensures multiset(Passing(filter, columns))[column]
         == if filter == Some("%") || filter == Some(column.name) || (filter == None && column.name == "")
            then multiset(columns)[column] else 0
    decreases |columns|
  {
    if columns != [] {
      var n := |columns| - 1;
      PassingCounts(filter, columns[..n], column);
      assert columns == columns[..n] + [columns[n]];
    }
  }

  /** Passing columns keep their order. */
  lemma {:induction false} PassingInOrder(filter: Option<string>, a: seq<Column>, b: seq<Column>)
    ensures Passing(filter, a + b) == Passing(filter, a) + Passing(filter, b)
    decreases |b|
  {
    if b == [] {
      assert a + b == a;
    } else {
      var n := |b| - 1;
      PassingInOrder(filter, a, b[..n]);
      assert (a + b)[..|a + b| - 1] == a + b[..n];
    }
  }

  /** A row opens a table with ordinal one, or goes on with the next ordinal in the table of the row before. */
  predicate Runs(rows: seq<ColumnRow>, i: nat)
    requires i < |rows|
  {
    rows[i].ordinal == 1
    || (i > 0 && rows[i].ordinal == rows[i - 1].ordinal + 1 && rows[i].table == rows[i - 1].table
        && rows[i].catalog == rows[i - 1].catalog && rows[i].schema == rows[i - 1].schema)
  }

  lemma TableRuns(
      service: Service, asSchema: bool, filter: Option<string>, database: string, table: string, i: nat)
    requires i < |ColumnsOfTable(service, asSchema, filter, database, table).rows|
    ensures Runs(ColumnsOfTable(service, asSchema, filter, database, table).rows, i)
  {
  }

  lemma RunsInFront(first: seq<ColumnRow>, rest: seq<ColumnRow>, i: nat)
    requires i < |first| && Runs(first, i)
    ensures Runs(first + rest, i)
  {
  }

  lemma RunsBehind(first: seq<ColumnRow>, rest: seq<ColumnRow>, i: nat)
    requires i < |rest| && Runs(rest, i)
    ensures Runs(first + rest, |first| + i)
  {
  }

  lemma {:induction false} OrdinalsRun(
      service: Service, asSchema: bool, filter: Option<string>, tables: seq<TableRow>, i: nat)
    requires i < |Flatten(ColumnBlocks(service, asSchema, filter, tables))|
    ensures Runs(Flatten(ColumnBlocks(service, asSchema, filter, tables)), i)
    decreases |tables|
  {
    var blocks := ColumnBlocks(service, asSchema, filter, tables);
    var first, rest := blocks[0], Flatten(blocks[1..]);
    assert blocks[1..] == ColumnBlocks(service, asSchema, filter, tables[1..]);
    if i < |first| {
      TableRuns(service, asSchema, filter, NameOn(asSchema, tables[0]), NameOf(tables[0]), i);
      RunsInFront(first, rest, i);
    } else {
      OrdinalsRun(service, asSchema, filter, tables[1..], i - |first|);
      RunsBehind(first, rest, i - |first|);
    }
  }

  /** The tables that the patterns select when every listing succeeds. */
  function Selected(service: Service, asSchema: bool, args: Arguments): seq<TableRow> {
    var databases := Matched(service, ShowDatabases(OrAll(args.Database(asSchema)))).rows;
    Flatten(TableBlocks(service, asSchema, databases, OrAll(args.table)))
  }

  predicate AllListed(service: Service, asSchema: bool, args: Arguments) {
    var databases := Matched(service, ShowDatabases(OrAll(args.Database(asSchema))));
    && databases.result == Success
    && forall i | 0 <= i < |databases.rows| ::
         Listed(Matched(service, ShowTables(databases.rows[i], OrAll(args.table))).result)
  }

  predicate AllDescribed(service: Service, asSchema: bool, tables: seq<TableRow>) {
    forall i | 0 <= i < |tables| :: Described(service, asSchema, tables[i])
  }

  predicate AllAnswer(service: Service, asSchema: bool, args: Arguments) {
    AllListed(service, asSchema, args) && AllDescribed(service, asSchema, Selected(service, asSchema, args))
  }

  /** The columns that pass the filter, of every selected table, in order. */
  function SelectedColumns(service: Service, asSchema: bool, args: Arguments, column: Option<string>)
    : seq<ColumnRow>
  {
    Flatten(ColumnBlocks(service, asSchema, Some(OrAll(column)), Selected(service, asSchema, args)))
  }

  /** The first test that fails, or their number. */
  function FirstFailing(tests: seq<bool>): (k: nat)
    ensures k <= |tests| && (forall i | 0 <= i < k :: tests[i]) && (k < |tests| ==> !tests[k])
  {
    if tests == [] || !tests[0] then 0 else 1 + FirstFailing(tests[1..])
  }

  lemma TablesOfPatterns(service: Service, asSchema: bool, args: Arguments, column: Option<string>)
    requires Refused(asSchema, false, args, column).None?
    ensures Tables(service, asSchema, false, args.(tableType := None))
         == PatternTables(service, asSchema, args.Database(asSchema), args.table)
  {
  }

  lemma SelectedAreTheTables(service: Service, asSchema: bool, args: Arguments)
    requires AllListed(service, asSchema, args)
    ensures PatternTables(service, asSchema, args.Database(asSchema), args.table)
         == WarnIfEmpty(Selected(service, asSchema, args))
  {
    var databases := Matched(service, ShowDatabases(OrAll(args.Database(asSchema)))).rows;
    EveryTableInOrder(service, asSchema, databases, OrAll(args.table), |databases|);
    assert databases[..|databases|] == databases;
  }

  lemma UnlistedIsNoSuccess(service: Service, asSchema: bool, args: Arguments)
    requires !AllListed(service, asSchema, args)
    ensures PatternTables(service, asSchema, args.Database(asSchema), args.table).result != Success
  {
    var databases := Matched(service, ShowDatabases(OrAll(args.Database(asSchema))));
    if databases.result == Success {
      var names, pattern := databases.rows, OrAll(args.table);
      var tests := seq(|names|, i requires 0 <= i < |names| =>
        Listed(Matched(service, ShowTables(names[i], pattern)).result));
      var good := FirstFailing(tests);
      assert forall i | 0 <= i < |names| :: tests[i] == Listed(Matched(service, ShowTables(names[i], pattern)).result);
      EveryTableInOrder(service, asSchema, names, pattern, good);
    }
  }

  /** All tables described: the passing columns, with a warning if there are none; else no success. */
  lemma ColumnsOfTables(service: Service, asSchema: bool, filter: Option<string>, tables: seq<TableRow>)
    requires tables != []
    ensures var answer := ColumnsOfEach(service, asSchema, filter, tables, Answer(Success, []));
      if AllDescribed(service, asSchema, tables)
      then answer == WarnIfEmpty(Flatten(ColumnBlocks(service, asSchema, filter, tables)))
      else answer.result == NoData
  {
    var tests := seq(|tables|, i requires 0 <= i < |tables| => Described(service, asSchema, tables[i]));
    var good := FirstFailing(tests);
    assert forall i | 0 <= i < |tables| :: tests[i] == Described(service, asSchema, tables[i]);
    EveryColumnInOrder(service, asSchema, filter, tables, Answer(Success, []), good);
    assert tables[..|tables|] == tables;
  }

  /**
    With search patterns, when the service answers every request: the columns that pass the filter, of
    every selected table, in order and no others.
  */
  lemma ColumnsOfEveryTable(service: Service, asSchema: bool, args: Arguments, column: Option<string>)
    requires Refused(asSchema, false, args, column).None? && AllAnswer(service, asSchema, args)
    ensures Columns(service, asSchema, false, args, column)
         == WarnIfEmpty(SelectedColumns(service, asSchema, args, column))
  {
    TablesOfPatterns(service, asSchema, args, column);
    SelectedAreTheTables(service, asSchema, args);
    var tables := Selected(service, asSchema, args);
    if tables != [] {
      ColumnsOfTables(service, asSchema, Some(OrAll(column)), tables);
    }
  }

  /**
    With search patterns, columns can be fetched exactly if the service answers every request and some
    selected table has a column that passes the filter.
  */
  lemma ColumnsSucceedExactly(service: Service, asSchema: bool, args: Arguments, column: Option<string>)
    requires Refused(asSchema, false, args, column).None?
    ensures Columns(service, asSchema, false, args, column).result == Success
            <==> AllAnswer(service, asSchema, args) && SelectedColumns(service, asSchema, args, column) != []
  {
    if AllAnswer(service, asSchema, args) {
      ColumnsOfEveryTable(service, asSchema, args, column);
    } else {
      TablesOfPatterns(service, asSchema, args, column);
      if AllListed(service, asSchema, args) {
        SelectedAreTheTables(service, asSchema, args);
        var tables := Selected(service, asSchema, args);
        if tables != [] {
          ColumnsOfTables(service, asSchema, Some(OrAll(column)), tables);
        }
      } else {
        UnlistedIsNoSuccess(service, asSchema, args);
      }
    }
  }
}
