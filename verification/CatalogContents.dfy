/**
  What the catalog functions list, said once for both database modes.

  Databases are reported as schemas or as catalogs. The specification speaks of the database argument
  and of the other one; only Place knows on which side of a row the database goes. The service is a
  function from the text of a query to its answer.
*/
module CatalogContents {
  import opened OdbcTypes
  import opened TextUtil
  import opened Segments

  /** What executing a query returns, and the rows that can then be fetched. */
  datatype Listing<T> = Listing(execute: SqlResult, rows: seq<T>)

  datatype Column = Column(name: string, dataType: string, remarks: string)

  datatype Service = Service(names: string -> Listing<string>, describe: string -> Listing<Column>)

  datatype Arguments = Arguments(
    catalog: Option<string>, schema: Option<string>, table: Option<string>, tableType: Option<string>)
  {
    function Database(asSchema: bool): Option<string> {
      if asSchema then schema else catalog
    }

    function Other(asSchema: bool): Option<string> {
      if asSchema then catalog else schema
    }

    function Swapped(): Arguments {
      this.(catalog := schema, schema := catalog)
    }
  }

  datatype TableRow = TableRow(
    catalog: Option<string>, schema: Option<string>, table: Option<string>, tableType: Option<string>)
  {
    function Swapped(): TableRow {
      this.(catalog := schema, schema := catalog)
    }
  }

  datatype ColumnRow = ColumnRow(
    catalog: Option<string>, schema: Option<string>, table: string, column: Column, ordinal: nat)
  {
    function Swapped(): ColumnRow {
      this.(catalog := schema, schema := catalog)
    }
  }

  datatype Answer<T> = Answer(result: SqlResult, rows: seq<T>)

  const ALL := "%"

  // Texts of the queries

  function ShowDatabases(pattern: string): string {
    "SHOW DATABASES LIKE '" + pattern + "'"
  }

  function ShowTables(database: string, pattern: string): string {
    "SHOW TABLES FROM \"" + database + "\" LIKE '" + pattern + "'"
  }

  function Describe(database: string, table: string): string {
    "describe \"" + database + "\".\"" + table + "\""
  }

  function OrAll(pattern: Option<string>): string {
    if pattern.Some? then pattern.value else ALL
  }

  // Names

  /** No data is a warning, and any other failure is passed on; only success has names. */
  function Matched(service: Service, sql: string): (answer: Answer<string>)
    ensures
      var code := service.names(sql).execute;
      answer.result == if code == NoData then SuccessWithInfo else code
    ensures answer.rows == if service.names(sql).execute == Success then service.names(sql).rows else []
  {
    var listing := service.names(sql);
    match listing.execute
    case Success => Answer(Success, listing.rows)
    case NoData => Answer(SuccessWithInfo, [])
    case other => Answer(other, [])
  }

  /** The first name that is the identifier in any mixture of cases. */
  function FirstNamed(names: seq<string>, identifier: string): Option<string> {
    if names == [] then None
    else if ToUpper(identifier) == ToUpper(names[0]) then Some(names[0])
    else FirstNamed(names[1..], identifier)
  }

  // Tables

  function TableOf(asSchema: bool, database: string, table: string): TableRow {
    if asSchema then TableRow(Some(""), Some(database), Some(table), Some("TABLE"))
    else TableRow(Some(database), Some(""), Some(table), Some("TABLE"))
  }

  function DatabaseRows(asSchema: bool, databases: seq<string>): seq<TableRow> {
    seq(|databases|, i requires 0 <= i < |databases| => TableOf(asSchema, databases[i], ""))
  }

  function TableRows(asSchema: bool, database: string, tables: seq<string>): seq<TableRow> {
    seq(|tables|, i requires 0 <= i < |tables| => TableOf(asSchema, database, tables[i]))
  }

  function AllNamed(names: seq<string>, identifier: string): seq<string> {
    if names == [] then []
    else (if ToUpper(identifier) == ToUpper(names[0]) then [names[0]] else [])
         + AllNamed(names[1..], identifier)
  }

  predicate Listed(result: SqlResult) {
    result == Success || result == SuccessWithInfo
  }

  function WarnIfEmpty<T>(rows: seq<T>): Answer<T> {
    Answer(if rows == [] then SuccessWithInfo else Success, rows)
  }

  function AllDatabases(service: Service, asSchema: bool): Answer<TableRow> {
    var databases := Matched(service, ShowDatabases(ALL));
    if databases.result != Success then Answer(databases.result, [])
    else Answer(Success, DatabaseRows(asSchema, databases.rows))
  }

  function IdentifierTables(service: Service, asSchema: bool, identifier: string, table: string)
    : Answer<TableRow>
  {
    var databases := Matched(service, ShowDatabases(ALL));
    if databases.result != Success then Answer(databases.result, [])
    else match FirstNamed(databases.rows, identifier)
      case None => Answer(SuccessWithInfo, [])
      case Some(database) =>
        var tables := Matched(service, ShowTables(database, ALL));
        if !Listed(tables.result) then Answer(tables.result, [])
        else WarnIfEmpty(TableRows(asSchema, database, AllNamed(tables.rows, table)))
  }

  /** Database after database, until a listing fails; what came before the failure stays. */
  function TablesOfEach(service: Service, asSchema: bool, databases: seq<string>, pattern: string)
    : Answer<TableRow>
  {
    if databases == [] then Answer(Success, [])
    else
      var tables := Matched(service, ShowTables(databases[0], pattern));
      if !Listed(tables.result) then Answer(tables.result, [])
      else
        var rest := TablesOfEach(service, asSchema, databases[1..], pattern);
        Answer(rest.result, TableRows(asSchema, databases[0], tables.rows) + rest.rows)
  }

  function PatternTables(service: Service, asSchema: bool, database: Option<string>, table: Option<string>)
    : Answer<TableRow>
  {
    var databases := Matched(service, ShowDatabases(OrAll(database)));
    if databases.result != Success then Answer(databases.result, [])
    else
      var tables := TablesOfEach(service, asSchema, databases.rows, OrAll(table));
      if tables.result != Success then tables else WarnIfEmpty(tables.rows)
  }

  // The table type is a list of values, some of them quoted

  function Dequote(s: string): string {
    if |s| >= 2 && ((s[0] == '\'' && s[|s| - 1] == '\'') || (s[0] == '"' && s[|s| - 1] == '"'))
    then s[1..|s| - 1] else s
  }

  predicate NamesTable(item: string) {
    Dequote(Trim(item)) == "TABLE"
  }

  predicate AcceptsTables(tableType: string) {
    tableType == "" || tableType == ALL
    || exists i :: 0 <= i < |Split(tableType, ',')| && NamesTable(Split(tableType, ',')[i])
  }

  // The special cases

  predicate ListsTypes(args: Arguments) {
    args.tableType == Some(ALL) && args.catalog == Some("") && args.schema == Some("") && args.table == Some("")
  }

  /** One name is the wildcard, and all others are empty. */
  predicate ListsOnly(side: Option<string>, other: Option<string>, table: Option<string>) {
    side == Some(ALL) && other == Some("") && table == Some("")
  }

  predicate NamesSide(side: Option<string>) {
    side.Some? && side.value != "" && side.value != ALL
  }

  function TablesIn(service: Service, asSchema: bool, metadataId: bool, args: Arguments): Answer<TableRow> {
    var database, other := args.Database(asSchema), args.Other(asSchema);
    if metadataId then
      if database.None? || args.table.None? then Answer(Error, [])
      else IdentifierTables(service, asSchema, database.value, args.table.value)
    else if ListsOnly(database, other, args.table) then AllDatabases(service, asSchema)
    else if NamesSide(other) then Answer(SuccessWithInfo, [])
    else if ListsOnly(other, database, args.table) then Answer(SuccessWithInfo, [])
    else if database == Some("") || args.table == Some("") then Answer(SuccessWithInfo, [])
    else PatternTables(service, asSchema, database, args.table)
  }

  function Tables(service: Service, asSchema: bool, metadataId: bool, args: Arguments): Answer<TableRow> {
    if ListsTypes(args) then Answer(Success, [TableRow(None, None, None, Some("TABLE"))])
    else if args.tableType.Some? && !AcceptsTables(args.tableType.value) then Answer(SuccessWithInfo, [])
    else TablesIn(service, asSchema, metadataId, args)
  }

  // Columns

  predicate Passes(filter: Option<string>, name: string) {
    var text := if filter.Some? then filter.value else "";
    text == ALL || text == name
  }

  function Passing(filter: Option<string>, columns: seq<Column>): seq<Column> {
    if columns == [] then []
    else if Passes(filter, columns[|columns| - 1].name)
    then Passing(filter, columns[..|columns| - 1]) + [columns[|columns| - 1]]
    else Passing(filter, columns[..|columns| - 1])
  }

  function ColumnOf(asSchema: bool, database: string, table: string, column: Column, ordinal: nat): ColumnRow {
    if asSchema then ColumnRow(None, Some(database), table, column, ordinal)
    else ColumnRow(Some(database), None, table, column, ordinal)
  }

  /** The ordinals of a table's columns run from one. */
  function Numbered(asSchema: bool, database: string, table: string, columns: seq<Column>): seq<ColumnRow> {
    seq(|columns|, i requires 0 <= i < |columns| => ColumnOf(asSchema, database, table, columns[i], i + 1))
  }

  function ColumnsOfTable(
      service: Service, asSchema: bool, filter: Option<string>, database: string, table: string)
    : Answer<ColumnRow>
  {
    var listing := service.describe(Describe(database, table));
    if listing.execute != Success then Answer(NoData, [])
    else Answer(Success, Numbered(asSchema, database, table, Passing(filter, listing.rows)))
  }

  /** A table that cannot be described adds nothing; an empty collection is a warning. */
  function Extended(rows: seq<ColumnRow>, more: Answer<ColumnRow>): Answer<ColumnRow> {
    if more.result != Success then Answer(more.result, rows) else WarnIfEmpty(rows + more.rows)
  }

  function NameOn(asSchema: bool, row: TableRow): string {
    var side := if asSchema then row.schema else row.catalog;
    if side.Some? then side.value else ""
  }

  function NameOf(row: TableRow): string {
    if row.table.Some? then row.table.value else ""
  }

  /** Table after table, until one cannot be described. */
  function ColumnsOfEach(
      service: Service, asSchema: bool, filter: Option<string>, tables: seq<TableRow>, so: Answer<ColumnRow>)
    : Answer<ColumnRow>
    decreases |tables|
  {
    if tables == [] then so
    else
      var next := Extended(so.rows,
        ColumnsOfTable(service, asSchema, filter, NameOn(asSchema, tables[0]), NameOf(tables[0])));
      if !Listed(next.result) then next
      else ColumnsOfEach(service, asSchema, filter, tables[1..], next)
  }

  /** The tables are those of the original arguments, without a table type. */
  function PatternColumns(
      service: Service, asSchema: bool, args: Arguments, filter: Option<string>)
    : Answer<ColumnRow>
  {
    var tables := Tables(service, asSchema, false, args.(tableType := None));
    if tables.result != Success then Answer(SuccessWithInfo, [])
    else ColumnsOfEach(service, asSchema, filter, tables.rows, Answer(Success, []))
  }

  /** The arguments for which nothing is asked of the service. */
  function Refused(asSchema: bool, metadataId: bool, args: Arguments, column: Option<string>): Option<SqlResult> {
    var database, other := args.Database(asSchema), args.Other(asSchema);
    if NamesSide(other) then Some(SuccessWithInfo)
    else if metadataId && (database.None? || args.table.None? || column.None?) then Some(Error)
    else if database == Some("") || args.table == Some("") then Some(SuccessWithInfo)
    else None
  }

  function Columns(
      service: Service, asSchema: bool, metadataId: bool, args: Arguments, column: Option<string>)
    : Answer<ColumnRow>
  {
    match Refused(asSchema, metadataId, args, column)
    case Some(result) => Answer(result, [])
    case None =>
      if metadataId then
        Extended([], ColumnsOfTable(service, asSchema, column, args.Database(asSchema).value, args.table.value))
      else PatternColumns(service, asSchema, args, Some(OrAll(column)))
  }
}
