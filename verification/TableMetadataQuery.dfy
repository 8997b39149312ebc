/** The query behind SQLTables: builds the whole result set, then hands it out row by row. */
module TableMetadata {
  import opened OdbcTypes
  import opened TextUtil
  import opened Segments
  import opened CatalogContents

  lemma FirstNamedNext(names: seq<string>, i: nat, identifier: string)
    requires i < |names|
    ensures FirstNamed(names[i..], identifier)
         == if ToUpper(identifier) == ToUpper(names[i]) then Some(names[i])
            else FirstNamed(names[i + 1..], identifier)
  {
  }

  lemma AllNamedNext(matched: seq<string>, names: seq<string>, i: nat, identifier: string)
    requires i < |names|
    ensures matched + AllNamed(names[i..], identifier)
         == (if ToUpper(identifier) == ToUpper(names[i]) then matched + [names[i]] else matched)
            + AllNamed(names[i + 1..], identifier)
  {
    assert names[i..][1..] == names[i + 1..];
  }

  /** The answer for what remains, behind the rows collected so far. */
  function Behind(rows: seq<TableRow>, rest: Answer<TableRow>): Answer<TableRow> {
    Answer(rest.result, rows + rest.rows)
  }

  lemma TablesOfEachNext(
      service: Service, asSchema: bool, databases: seq<string>, i: nat, pattern: string, rows: seq<TableRow>)
    requires i < |databases|
    ensures
      var tables := Matched(service, ShowTables(databases[i], pattern));
      Behind(rows, TablesOfEach(service, asSchema, databases[i..], pattern))
      == if !Listed(tables.result) then Answer(tables.result, rows)
         else Behind(rows + TableRows(asSchema, databases[i], tables.rows),
                     TablesOfEach(service, asSchema, databases[i + 1..], pattern))
  {
  }

  class TableMetadataQuery {
    const service: Service
    const databaseAsSchema: bool
    const metadataId: bool
    const args: Arguments
    const allCatalogs: bool
    const allSchemas: bool
    const allTableTypes: bool
    var executed: bool
    var fetched: bool
    var meta: seq<TableRow>
    var cursor: nat

    ghost predicate Valid()
      reads this
    {
      && allCatalogs == (!metadataId && ListsOnly(args.catalog, args.schema, args.table))
      && allSchemas == (!metadataId && ListsOnly(args.schema, args.catalog, args.table))
      && allTableTypes == ListsTypes(args)
      && (executed ==> cursor <= |meta|)
      && (executed && !fetched ==> cursor == 0)
    }

    constructor (service: Service, databaseAsSchema: bool, metadataId: bool, args: Arguments)
      ensures Valid() && !executed
      ensures this.service == service && this.databaseAsSchema == databaseAsSchema
      ensures this.metadataId == metadataId && this.args == args
    {
      this.service, this.databaseAsSchema := service, databaseAsSchema;
      this.metadataId, this.args := metadataId, args;
      executed, fetched, meta, cursor := false, false, [], 0;
      var catalogs, schemas := false, false;
      if !metadataId {
        catalogs := args.catalog == Some(ALL) && args.schema == Some("") && args.table == Some("");
        schemas := args.schema == Some(ALL) && args.catalog == Some("") && args.table == Some("");
      }
      allCatalogs, allSchemas := catalogs, schemas;
      allTableTypes := args.tableType == Some(ALL) && args.catalog == Some("") && args.schema == Some("")
                       && args.table == Some("");
    }

    // Building the result set

    method GetMatchedDatabases(pattern: string) returns (result: SqlResult, names: seq<string>)
      ensures Answer(result, names) == Matched(service, ShowDatabases(pattern))
    {
      var listing := service.names("SHOW DATABASES LIKE '" + pattern + "'");
      if listing.execute == NoData {
        return SuccessWithInfo, [];
      } else if listing.execute != Success {
        return listing.execute, [];
      }
      return Success, listing.rows;
    }

    method GetMatchedTables(database: string, pattern: string) returns (result: SqlResult, names: seq<string>)
      ensures Answer(result, names) == Matched(service, ShowTables(database, pattern))
    {
      var listing := service.names("SHOW TABLES FROM \"" + database + "\" LIKE '" + pattern + "'");
      if listing.execute == NoData {
        return SuccessWithInfo, [];
      } else if listing.execute != Success {
        return listing.execute, [];
      }
      return Success, listing.rows;
    }

    method GetAllDatabases() returns (result: SqlResult)
      requires meta == []
      modifies this`meta
      ensures Answer(result, meta) == AllDatabases(service, databaseAsSchema)
    {
      var names;
      result, names := GetMatchedDatabases(ALL);
      if result != Success {
        return;
      }
      for i := 0 to |names|
        invariant meta == DatabaseRows(databaseAsSchema, names[..i])
      {
        if databaseAsSchema {
          meta := meta + [TableRow(Some(""), Some(names[i]), Some(""), Some("TABLE"))];
        } else {
          meta := meta + [TableRow(Some(names[i]), Some(""), Some(""), Some("TABLE"))];
        }
      }
      assert names[..|names|] == names;
      return Success;
    }

    /** Every table of a database whose name the loop keeps becomes a row. */
    method AddTables(database: string, names: seq<string>)
      modifies this`meta
      ensures meta == old(meta) + TableRows(databaseAsSchema, database, names)
    {
      for j := 0 to |names|
        invariant meta == old(meta) + TableRows(databaseAsSchema, database, names[..j])
      {
        if databaseAsSchema {
          meta := meta + [TableRow(Some(""), Some(database), Some(names[j]), Some("TABLE"))];
        } else {
          meta := meta + [TableRow(Some(database), Some(""), Some(names[j]), Some("TABLE"))];
        }
      }
      assert names[..|names|] == names;
    }

    method FindDatabase(names: seq<string>, identifier: string) returns (found: Option<string>)
      ensures found == FirstNamed(names, identifier)
    {
      var i: nat := 0;
      while i < |names|
        invariant i <= |names| && FirstNamed(names[i..], identifier) == FirstNamed(names, identifier)
      {
        FirstNamedNext(names, i, identifier);
        if ToUpper(identifier) == ToUpper(names[i]) {
          return Some(names[i]);
        }
        i := i + 1;
      }
      return None;
    }

    method MatchTables(names: seq<string>, identifier: string) returns (matched: seq<string>)
      ensures matched == AllNamed(names, identifier)
    {
      matched := [];
      var j: nat := 0;
      while j < |names|
        invariant j <= |names| && matched + AllNamed(names[j..], identifier) == AllNamed(names, identifier)
      {
        AllNamedNext(matched, names, j, identifier);
        if ToUpper(identifier) == ToUpper(names[j]) {
          matched := matched + [names[j]];
        }
        j := j + 1;
      }
    }

    method GetTablesWithIdentifier(identifier: string) returns (result: SqlResult)
      requires meta == [] && args.table.Some?
      modifies this`meta
      ensures Answer(result, meta)
           == IdentifierTables(service, databaseAsSchema, identifier, args.table.value)
    {
      var databases, tables;
      result, databases := GetMatchedDatabases(ALL);
      if result != Success {
        return;
      }
      var database := FindDatabase(databases, identifier);
      if database.None? {
        return SuccessWithInfo;
      }
      result, tables := GetMatchedTables(database.value, ALL);
      if result != Success && result != SuccessWithInfo {
        return;
      }
      var matched := MatchTables(tables, args.table.value);
      AddTables(database.value, matched);
      return if meta == [] then SuccessWithInfo else Success;
    }

    /** The loop over the databases; it stops at the first listing that fails. */
    method AddTablesOfEach(databases: seq<string>, pattern: string) returns (result: SqlResult)
      requires meta == []
      modifies this`meta
      ensures Answer(result, meta) == TablesOfEach(service, databaseAsSchema, databases, pattern)
    {
      ghost var all := TablesOfEach(service, databaseAsSchema, databases, pattern);
      var i: nat := 0;
      while i < |databases|
        invariant i <= |databases|
        invariant Behind(meta, TablesOfEach(service, databaseAsSchema, databases[i..], pattern)) == all
      {
        TablesOfEachNext(service, databaseAsSchema, databases, i, pattern, meta);
        var names;
        result, names := GetMatchedTables(databases[i], pattern);
        if result != Success && result != SuccessWithInfo {
          return;
        }
        AddTables(databases[i], names);
        i := i + 1;
      }
      return Success;
    }

    method GetTablesWithSearchPattern(database: Option<string>) returns (result: SqlResult)
      requires meta == []
      modifies this`meta
      ensures Answer(result, meta) == PatternTables(service, databaseAsSchema, database, args.table)
    {
      var names;
      result, names := GetMatchedDatabases(OrAll(database));
      if result != Success {
        return;
      }
      result := AddTablesOfEach(names, OrAll(args.table));
      if result == Success && meta == [] {
        result := SuccessWithInfo;
      }
    }

    /** The two modes, branch by branch. */
    method GetTables() returns (result: SqlResult)
      requires Valid() && meta == []
      modifies this`meta
      ensures Answer(result, meta) == TablesIn(service, databaseAsSchema, metadataId, args)
    {
      var catalog, schema, table := args.catalog, args.schema, args.table;
      if databaseAsSchema {
        if metadataId {
          if schema.None? || table.None? {
            return Error;
          }
          result := GetTablesWithIdentifier(schema.value);
        } else if allSchemas {
          result := GetAllDatabases();
        } else if catalog.Some? && catalog.value != "" && catalog.value != ALL {
          return SuccessWithInfo;
        } else if allCatalogs {
          return SuccessWithInfo;
        } else if schema == Some("") || table == Some("") {
          return SuccessWithInfo;
        } else {
          result := GetTablesWithSearchPattern(schema);
        }
      } else {
        if metadataId {
          if catalog.None? || table.None? {
            return Error;
          }
          result := GetTablesWithIdentifier(catalog.value);
        } else if allCatalogs {
          result := GetAllDatabases();
        } else if schema.Some? && schema.value != "" && schema.value != ALL {
          return SuccessWithInfo;
        } else if allSchemas {
          return SuccessWithInfo;
        } else if catalog == Some("") || table == Some("") {
          return SuccessWithInfo;
        } else {
          result := GetTablesWithSearchPattern(catalog);
        }
      }
    }

    method ValidTableType(tableType: string) returns (valid: bool)
      ensures valid <==> AcceptsTables(tableType)
    {
      if tableType == "" || tableType == ALL {
        return true;
      }
      var items := Split(tableType, ',');
      for i := 0 to |items|
        invariant forall j | 0 <= j < i :: !NamesTable(items[j])
      {
        if Dequote(Trim(items[i])) == "TABLE" {
          assert NamesTable(items[i]);
          return true;
        }
      }
      return false;
    }

    method MakeRequestGetTablesMeta() returns (result: SqlResult)
      requires Valid() && !executed
      modifies this`meta
      ensures Answer(result, meta) == Tables(service, databaseAsSchema, metadataId, args)
    {
      meta := [];
      if allTableTypes {
        meta := [TableRow(None, None, None, Some("TABLE"))];
        return Success;
      }
      if args.tableType.Some? {
        var valid := ValidTableType(args.tableType.value);
        if !valid {
          return SuccessWithInfo;
        }
      }
      result := GetTables();
    }

    method Close()
      modifies this
      ensures !executed && meta == [] && fetched == old(fetched)
    {
      meta, cursor, executed := [], 0, false;
    }

    method Execute() returns (result: SqlResult)
      requires Valid()
      modifies this
      ensures Valid()
      ensures Answer(result, meta) == Tables(service, databaseAsSchema, metadataId, args)
      ensures executed <==> result == Success || result == SuccessWithInfo
      ensures executed ==> FetchedRows() == 0
    {
      if executed {
        Close();
      }
      result := MakeRequestGetTablesMeta();
      if result == Success || result == SuccessWithInfo {
        executed, fetched := true, false;
        cursor := 0;
      }
    }

    // Handing it out

    /** How many rows have been handed out. */
    ghost function FetchedRows(): nat
      reads this
    {
      if !fetched then 0 else if cursor < |meta| then cursor + 1 else |meta|
    }

    method FetchNextRow() returns (result: SqlResult, row: Option<TableRow>)
      requires Valid()
      modifies this`fetched, this`cursor
      ensures Valid()
      ensures !old(executed) ==> result == Error && row == None
      ensures old(executed) && old(FetchedRows()) < |meta| ==>
        result == Success && row == Some(meta[old(FetchedRows())]) && FetchedRows() == old(FetchedRows()) + 1
      ensures old(executed) && old(FetchedRows()) == |meta| ==>
        result == NoData && row == None && FetchedRows() == |meta|
    {
      if !executed {
        return Error, None;
      } else if meta == [] {
        return NoData, None;
      }
      if !fetched {
        fetched := true;
      } else if cursor != |meta| {
        cursor := cursor + 1;
      }
      if cursor == |meta| {
        return NoData, None;
      }
      return Success, Some(meta[cursor]);
    }

    /** The number of the current row; before the first fetch it is already 1 if there are rows. */
    method RowNumber() returns (number: nat)
      requires Valid()
      ensures executed && fetched && cursor < |meta| ==> number == FetchedRows()
      ensures executed && !fetched ==> number == if meta == [] then 0 else 1
      ensures !executed || cursor == |meta| ==> number == 0
    {
      if !executed || cursor == |meta| {
        return 0;
      }
      return cursor + 1;
    }
  }
}
