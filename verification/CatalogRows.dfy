/** What the catalog functions list, field by field, in terms of the arguments and the service's own answers. */
module CatalogRows {
  import opened OdbcTypes
  import opened TextUtil
  import opened Segments
  import opened CatalogContents
  import opened CatalogTheorems

  // Rows

  /** The database stands on its side of the row, and nothing on the other one. */
  predicate Stands(asSchema: bool, row: TableRow, database: string, table: string) {
    && row.schema == Some(if asSchema then database else "")
    && row.catalog == Some(if asSchema then "" else database)
    && row.table == Some(table) && row.tableType == Some("TABLE")
  }

  /** One row for each name. */
  predicate RowsStand(asSchema: bool, rows: seq<TableRow>, database: string, tables: seq<string>) {
    |rows| == |tables| && forall j | 0 <= j < |rows| :: Stands(asSchema, rows[j], database, tables[j])
  }

  lemma TableRowsStand(asSchema: bool, database: string, tables: seq<string>)
    ensures RowsStand(asSchema, TableRows(asSchema, database, tables), database, tables)
  {
  }

  /** The columns query reads back what the tables query wrote. */
  lemma NamesAreRead(asSchema: bool, row: TableRow, database: string, table: string)
    requires Stands(asSchema, row, database, table)
    ensures NameOn(asSchema, row) == database && NameOf(row) == table
  {
  }

  // Search patterns

  /** The argument that names databases, and the one that does not. */
  predicate Sides(asSchema: bool, args: Arguments, database: Option<string>, other: Option<string>) {
    if asSchema then args.schema == database && args.catalog == other
    else args.catalog == database && args.schema == other
  }

  /** The side that names no database is left open. */
  predicate Open(other: Option<string>) {
    other == None || other == Some("") || other == Some("%")
  }

  /** The databases that the service lists for a pattern; a missing pattern is the wildcard. */
  function DatabasesLike(service: Service, pattern: Option<string>): Listing<string> {
    service.names("SHOW DATABASES LIKE '" + (if pattern == None then "%" else pattern.value) + "'")
  }

  function TablesLike(service: Service, database: string, pattern: Option<string>): Listing<string> {
    service.names(
      "SHOW TABLES FROM \"" + database + "\" LIKE '" + (if pattern == None then "%" else pattern.value) + "'")
  }

  /** The names of a listing that succeeded, or none. */
  function NamesOf(listing: Listing<string>): seq<string> {
    if listing.execute == Success then listing.rows else []
  }

  predicate AllTablesListed(service: Service, databases: seq<string>, table: Option<string>) {
    forall i | 0 <= i < |databases| ::
      TablesLike(service, databases[i], table).execute in {Success, NoData, SuccessWithInfo}
  }

  /** Block i holds the tables that the service lists for database i. */
  predicate BlocksStand(
      service: Service, asSchema: bool, blocks: seq<seq<TableRow>>, databases: seq<string>, table: Option<string>)
  {
    |blocks| == |databases|
    && forall i | 0 <= i < |databases| ::
         RowsStand(asSchema, blocks[i], databases[i], NamesOf(TablesLike(service, databases[i], table)))
  }

  lemma ListsByPattern(
      service: Service, asSchema: bool, args: Arguments, database: Option<string>, other: Option<string>)
    requires Sides(asSchema, args, database, other) && Open(other) && args.tableType == None
    requires database != Some("") && args.table != Some("")
    ensures Tables(service, asSchema, false, args) == PatternTables(service, asSchema, database, args.table)
  {
  }

  lemma BlockStands(service: Service, asSchema: bool, databases: seq<string>, table: Option<string>, i: nat)
    requires i < |databases|
    ensures
      var blocks := TableBlocks(service, asSchema, databases, OrAll(table));
      |blocks| == |databases|
      && RowsStand(asSchema, blocks[i], databases[i], NamesOf(TablesLike(service, databases[i], table)))
  {
    TableRowsStand(asSchema, databases[i], NamesOf(TablesLike(service, databases[i], table)));
  }

  /**
    With search patterns: the databases that the service lists, in its order, each with the tables that the
    service lists for it, in its order; the database stands on the side of the mode. No table is a warning.
  */
  lemma TablesByPattern(
      service: Service, asSchema: bool, args: Arguments, database: Option<string>, other: Option<string>)
    returns (blocks: seq<seq<TableRow>>)
    requires Sides(asSchema, args, database, other) && Open(other) && args.tableType == None
    requires database != Some("") && args.table != Some("")
    requires DatabasesLike(service, database).execute == Success
    requires AllTablesListed(service, DatabasesLike(service, database).rows, args.table)
    ensures BlocksStand(service, asSchema, blocks, DatabasesLike(service, database).rows, args.table)
    ensures blocks == TableBlocks(service, asSchema, DatabasesLike(service, database).rows, OrAll(args.table))
    ensures
      var answer := Tables(service, asSchema, false, args);
      answer.rows == Flatten(blocks)
      && answer.result == if Flatten(blocks) == [] then SuccessWithInfo else Success
  {
    var databases := DatabasesLike(service, database).rows;
    blocks := TableBlocks(service, asSchema, databases, OrAll(args.table));
    ListsByPattern(service, asSchema, args, database, other);
    EveryTableInOrder(service, asSchema, databases, OrAll(args.table), |databases|);
    assert databases[..|databases|] == databases;
    forall i | 0 <= i < |databases|
      ensures RowsStand(asSchema, blocks[i], databases[i], NamesOf(TablesLike(service, databases[i], args.table)))
    {
      BlockStands(service, asSchema, databases, args.table, i);
    }
  }

  lemma PatternIsSelected(
      service: Service, asSchema: bool, args: Arguments, database: Option<string>, other: Option<string>)
    requires Sides(asSchema, args, database, other)
    requires DatabasesLike(service, database).execute == Success
    requires AllTablesListed(service, DatabasesLike(service, database).rows, args.table)
    ensures
      Selected(service, asSchema, args)
      == Flatten(TableBlocks(service, asSchema, DatabasesLike(service, database).rows, OrAll(args.table)))
    ensures AllListed(service, asSchema, args)
  {
  }

  /** The list of databases only: one row for each, with the database on the side of the mode. */
  lemma DatabasesOnly(service: Service, asSchema: bool, args: Arguments)
    requires Sides(asSchema, args, Some("%"), Some("")) && args.table == Some("") && args.tableType == None
    requires DatabasesLike(service, None).execute == Success
    ensures
      var databases := DatabasesLike(service, None).rows;
      var answer := Tables(service, asSchema, false, args);
      && answer.result == Success && |answer.rows| == |databases|
      && forall i | 0 <= i < |databases| :: Stands(asSchema, answer.rows[i], databases[i], "")
  {
  }

  /** The list of table types only. */
  lemma TypesOnly(service: Service, asSchema: bool, metadataId: bool, args: Arguments)
    requires args == Arguments(Some(""), Some(""), Some(""), Some("%"))
    ensures Tables(service, asSchema, metadataId, args) == Answer(Success, [TableRow(None, None, None, Some("TABLE"))])
  {
  }

  /** Nothing is listed, with a warning, for a name on the side that has none, and for an empty name. */
  lemma NothingListed(
      service: Service, asSchema: bool, args: Arguments, database: Option<string>, other: Option<string>)
    requires Sides(asSchema, args, database, other) && args.tableType == None
    requires !Open(other) || database == Some("") || args.table == Some("")
    requires !(database == Some("%") && other == Some("") && args.table == Some(""))
    ensures Tables(service, asSchema, false, args) == Answer(SuccessWithInfo, [])
  {
  }

  predicate TypeNamed(item: string) {
    Trim(item) == "TABLE" || Trim(item) == "'TABLE'" || Trim(item) == "\"TABLE\""
  }

  /** An item of the list of table types is TABLE, bare or in quotes of either kind, with white space around it. */
  lemma TypeIsNamed(item: string)
    ensures NamesTable(item) <==> TypeNamed(item)
  {
    var s := Trim(item);
    if NamesTable(item) && s != "TABLE" {
      QuotedAgain(s);
    }
    assert "'TABLE'"[1..6] == "TABLE" && "\"TABLE\""[1..6] == "TABLE";
  }

  lemma QuotedAgain(s: string)
    requires |s| >= 2 && s[1..|s| - 1] == "TABLE"
    ensures s[0] == '\'' == s[|s| - 1] ==> s == "'TABLE'"
    ensures s[0] == '"' == s[|s| - 1] ==> s == "\"TABLE\""
  {
    assert s == [s[0]] + s[1..|s| - 1] + [s[|s| - 1]];
  }

  /** A list of table types that holds TABLE, or is empty or the wildcard, changes nothing; another lists nothing. */
  lemma TypesChosen(service: Service, asSchema: bool, metadataId: bool, args: Arguments, types: string)
    requires args.tableType == Some(types)
    requires args != Arguments(Some(""), Some(""), Some(""), Some("%"))
    ensures
      Tables(service, asSchema, metadataId, args)
      == if types == "" || types == "%" || (exists i :: 0 <= i < |Split(types, ',')| && TypeNamed(Split(types, ',')[i]))
         then Tables(service, asSchema, metadataId, args.(tableType := None))
         else Answer(SuccessWithInfo, [])
  {
    forall i | 0 <= i < |Split(types, ',')|
      ensures NamesTable(Split(types, ',')[i]) <==> TypeNamed(Split(types, ',')[i])
    {
      TypeIsNamed(Split(types, ',')[i]);
    }
  }

  // Identifiers

  /** Names are kept if they are the identifier in any mixture of cases, as often as they occur, in their order. */
  lemma {:induction false} AllNamedCounts(names: seq<string>, identifier: string, name: string)
    ensures multiset(AllNamed(names, identifier))[name]
         == if SameText(identifier, name) then multiset(names)[name] else 0
    decreases |names|
  {
    if names != [] {
      AllNamedCounts(names[1..], identifier, name);
      UpperAgrees(identifier, names[0]);
      assert names == [names[0]] + names[1..];
    }
  }

  lemma {:induction false} AllNamedInOrder(a: seq<string>, b: seq<string>, identifier: string)
    ensures AllNamed(a + b, identifier) == AllNamed(a, identifier) + AllNamed(b, identifier)
    decreases |a|
  {
    if a == [] {
      assert a + b == b;
    } else {
      AllNamedInOrder(a[1..], b, identifier);
      assert (a + b)[1..] == a[1..] + b;
    }
  }

  /** The first of the names that is the identifier in any mixture of cases. */
  predicate FirstIs(names: seq<string>, identifier: string, i: nat) {
    i < |names| && SameText(identifier, names[i]) && forall j | 0 <= j < i :: !SameText(identifier, names[j])
  }

  lemma {:induction false} FirstNamedIs(names: seq<string>, identifier: string, i: nat)
    requires FirstIs(names, identifier, i)
    ensures FirstNamed(names, identifier) == Some(names[i])
    decreases |names|
  {
    UpperAgrees(identifier, names[0]);
    if i > 0 {
      assert forall j | 0 <= j < i - 1 :: names[1..][j] == names[j + 1];
      FirstNamedIs(names[1..], identifier, i - 1);
    }
  }

  lemma {:induction false} NoneIsNamed(names: seq<string>, identifier: string)
    requires forall i | 0 <= i < |names| :: !SameText(identifier, names[i])
    ensures FirstNamed(names, identifier) == None
    decreases |names|
  {
    if names != [] {
      UpperAgrees(identifier, names[0]);
      NoneIsNamed(names[1..], identifier);
    }
  }

  /**
    With identifiers: the tables of the first database of that name, in any mixture of cases, whose names are
    the table's in any mixture of cases.
  */
  lemma TablesByIdentifier(
      service: Service, asSchema: bool, args: Arguments, database: string, other: Option<string>, i: nat)
    returns (tables: seq<string>)
    requires Sides(asSchema, args, Some(database), other) && args.table.Some? && args.tableType == None
    requires DatabasesLike(service, None).execute == Success
    requires FirstIs(DatabasesLike(service, None).rows, database, i)
    requires
      var found := DatabasesLike(service, None).rows[i];
      TablesLike(service, found, None).execute in {Success, NoData, SuccessWithInfo}
    ensures
      var found := DatabasesLike(service, None).rows[i];
      var listed := NamesOf(TablesLike(service, found, None));
      var answer := Tables(service, asSchema, true, args);
      && RowsStand(asSchema, answer.rows, found, tables)
      && (forall name :: multiset(tables)[name]
            == if SameText(args.table.value, name) then multiset(listed)[name] else 0)
      && answer.result == if tables == [] then SuccessWithInfo else Success
  {
    var found := DatabasesLike(service, None).rows[i];
    var listed := NamesOf(TablesLike(service, found, None));
    tables := AllNamed(listed, args.table.value);
    FirstNamedIs(DatabasesLike(service, None).rows, database, i);
    forall name
      ensures multiset(tables)[name] == if SameText(args.table.value, name) then multiset(listed)[name] else 0
    {
      AllNamedCounts(listed, args.table.value, name);
    }
    TableRowsStand(asSchema, found, tables);
  }

  /** Without a database of that name nothing is listed, with a warning. */
  lemma NoSuchDatabase(service: Service, asSchema: bool, args: Arguments, database: string, other: Option<string>)
    requires Sides(asSchema, args, Some(database), other) && args.table.Some? && args.tableType == None
    requires DatabasesLike(service, None).execute == Success
    requires
      var names := DatabasesLike(service, None).rows;
      forall i | 0 <= i < |names| :: !SameText(database, names[i])
    ensures Tables(service, asSchema, true, args) == Answer(SuccessWithInfo, [])
  {
    NoneIsNamed(DatabasesLike(service, None).rows, database);
  }

  // Columns

  /** The column's row: the database on the side of the mode, and the column's number in its table. */
  predicate ColumnStands(
      asSchema: bool, row: ColumnRow, database: string, table: string, column: Column, ordinal: nat)
  {
    && row.schema == (if asSchema then Some(database) else None)
    && row.catalog == (if asSchema then None else Some(database))
    && row.table == table && row.column == column && row.ordinal == ordinal
  }

  /** The columns of one table that pass a filter, numbered from one. */
  predicate ColumnsStand(
      service: Service, asSchema: bool, filter: Option<string>, rows: seq<ColumnRow>, database: string,
      table: string)
  {
    var columns := Passing(filter, service.describe("describe \"" + database + "\".\"" + table + "\"").rows);
    |rows| == |columns|
    && forall j | 0 <= j < |rows| :: ColumnStands(asSchema, rows[j], database, table, columns[j], j + 1)
  }

  lemma ColumnsOfTableStand(service: Service, asSchema: bool, filter: Option<string>, database: string, table: string)
    requires service.describe("describe \"" + database + "\".\"" + table + "\"").execute == Success
    ensures
      ColumnsStand(
        service, asSchema, filter, ColumnsOfTable(service, asSchema, filter, database, table).rows, database, table)
  {
    assert Describe(database, table) == "describe \"" + database + "\".\"" + table + "\"";
  }

  lemma ColumnsOfRowStand(
      service: Service, asSchema: bool, filter: Option<string>, tables: seq<TableRow>, i: nat, database: string,
      table: string)
    requires i < |tables| && Stands(asSchema, tables[i], database, table) && Described(service, asSchema, tables[i])
    ensures ColumnsStand(
      service, asSchema, filter, ColumnBlocks(service, asSchema, filter, tables)[i], database, table)
  {
    NamesAreRead(asSchema, tables[i], database, table);
    assert Describe(database, table) == "describe \"" + database + "\".\"" + table + "\"";
    ColumnsOfTableStand(service, asSchema, filter, database, table);
  }

  /** Every row of the blocks is row j of block i, for some i and j. */
  lemma {:induction false} FlatRow(blocks: seq<seq<TableRow>>, k: nat) returns (i: nat, j: nat)
    requires k < |Flatten(blocks)|
    ensures i < |blocks| && j < |blocks[i]| && Flatten(blocks)[k] == blocks[i][j]
    decreases |blocks|
  {
    if k < |blocks[0]| {
      i, j := 0, k;
    } else {
      i, j := FlatRow(blocks[1..], k - |blocks[0]|);
      i := i + 1;
    }
  }

  predicate TableDescribed(service: Service, database: string, table: string) {
    service.describe("describe \"" + database + "\".\"" + table + "\"").execute == Success
  }

  predicate AllTablesDescribed(service: Service, databases: seq<string>, table: Option<string>) {
    forall i, t | 0 <= i < |databases| && t in NamesOf(TablesLike(service, databases[i], table)) ::
      TableDescribed(service, databases[i], t)
  }

  lemma StandingIsDescribed(service: Service, asSchema: bool, row: TableRow, database: string, table: string)
    requires Stands(asSchema, row, database, table) && TableDescribed(service, database, table)
    ensures Described(service, asSchema, row)
  {
    NamesAreRead(asSchema, row, database, table);
    assert Describe(database, table) == "describe \"" + database + "\".\"" + table + "\"";
  }

  /** Every table listed for a pattern is one of the service's own, and can be described. */
  lemma SelectedDescribed(
      service: Service, asSchema: bool, args: Arguments, database: Option<string>, other: Option<string>,
      blocks: seq<seq<TableRow>>, k: nat)
    requires Sides(asSchema, args, database, other) && k < |Flatten(blocks)|
    requires BlocksStand(service, asSchema, blocks, DatabasesLike(service, database).rows, args.table)
    requires AllTablesDescribed(service, DatabasesLike(service, database).rows, args.table)
    ensures Described(service, asSchema, Flatten(blocks)[k])
  {
    var i, j := FlatRow(blocks, k);
    var found := DatabasesLike(service, database).rows[i];
    var names := NamesOf(TablesLike(service, found, args.table));
    assert names[j] in names;
    StandingIsDescribed(service, asSchema, blocks[i][j], found, names[j]);
  }

  /**
    With search patterns, if every request succeeds: for every table that is listed, in order, its columns that
    pass the filter. No column is a warning.
  */
  lemma ColumnsByPattern(
      service: Service, asSchema: bool, args: Arguments, database: Option<string>, other: Option<string>,
      column: Option<string>)
    returns (tables: seq<seq<TableRow>>, blocks: seq<seq<ColumnRow>>)
    requires Sides(asSchema, args, database, other) && Open(other)
    requires database != Some("") && args.table != Some("")
    requires DatabasesLike(service, database).execute == Success
    requires AllTablesListed(service, DatabasesLike(service, database).rows, args.table)
    requires AllTablesDescribed(service, DatabasesLike(service, database).rows, args.table)
    ensures BlocksStand(service, asSchema, tables, DatabasesLike(service, database).rows, args.table)
    ensures |blocks| == |Flatten(tables)|
    ensures forall k, d, t | 0 <= k < |blocks| && Stands(asSchema, Flatten(tables)[k], d, t) ::
      ColumnsStand(service, asSchema, Some(if column == None then "%" else column.value), blocks[k], d, t)
    ensures
      var answer := Columns(service, asSchema, false, args, column);
      answer.rows == Flatten(blocks)
      && answer.result == if Flatten(blocks) == [] then SuccessWithInfo else Success
  {
    var filter := Some(OrAll(column));
    tables := TablesByPattern(service, asSchema, args.(tableType := None), database, other);
    PatternIsSelected(service, asSchema, args, database, other);
    forall k | 0 <= k < |Flatten(tables)| ensures Described(service, asSchema, Flatten(tables)[k]) {
      SelectedDescribed(service, asSchema, args, database, other, tables, k);
    }
    blocks := ColumnBlocks(service, asSchema, filter, Flatten(tables));
    forall k, d, t | 0 <= k < |blocks| && Stands(asSchema, Flatten(tables)[k], d, t)
      ensures ColumnsStand(service, asSchema, filter, blocks[k], d, t)
    {
      ColumnsOfRowStand(service, asSchema, filter, Flatten(tables), k, d, t);
    }
    ColumnsOfEveryTable(service, asSchema, args, column);
  }

  /** With identifiers: the columns of that one table; a table that cannot be described has no data. */
  lemma ColumnsByIdentifier(
      service: Service, asSchema: bool, args: Arguments, database: string, other: Option<string>, column: string)
    requires Sides(asSchema, args, Some(database), other) && Open(other) && args.table.Some?
    requires database != "" && args.table.value != ""
    ensures
      var table := args.table.value;
      var answer := Columns(service, asSchema, true, args, Some(column));
      if TableDescribed(service, database, table)
      then ColumnsStand(service, asSchema, Some(column), answer.rows, database, table)
           && answer.result == if answer.rows == [] then SuccessWithInfo else Success
      else answer == Answer(NoData, [])
  {
    var table := args.table.value;
    assert Describe(database, table) == "describe \"" + database + "\".\"" + table + "\"";
    var rows := ColumnsOfTable(service, asSchema, Some(column), database, table).rows;
    assert [] + rows == rows;
    if TableDescribed(service, database, table) {
      ColumnsOfTableStand(service, asSchema, Some(column), database, table);
    }
  }

  /** The arguments of the columns query for which nothing is asked of the service. */
  lemma RefusedColumns(
      service: Service, asSchema: bool, metadataId: bool, args: Arguments, database: Option<string>,
      other: Option<string>, column: Option<string>)
    requires Sides(asSchema, args, database, other)
    ensures !Open(other) ==> Columns(service, asSchema, metadataId, args, column) == Answer(SuccessWithInfo, [])
    ensures Open(other) && metadataId && (database == None || args.table == None || column == None) ==>
      Columns(service, asSchema, metadataId, args, column) == Answer(Error, [])
    ensures
      Open(other) && (metadataId ==> database.Some? && args.table.Some? && column.Some?)
      && (database == Some("") || args.table == Some("")) ==>
        Columns(service, asSchema, metadataId, args, column) == Answer(SuccessWithInfo, [])
    ensures Refused(asSchema, metadataId, args, column) == None
            <==> Open(other) && (metadataId ==> database.Some? && args.table.Some? && column.Some?)
                 && database != Some("") && args.table != Some("")
  {
  }
}
