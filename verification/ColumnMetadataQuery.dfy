/** The query behind SQLColumns: it describes the tables that its own table query finds. */
module ColumnMetadata {
  import opened OdbcTypes
  import opened CatalogContents
  import opened TableMetadata

  lemma PassingNext(filter: Option<string>, columns: seq<Column>, i: nat)
    requires i < |columns|
    ensures Passing(filter, columns[..i + 1])
         == Passing(filter, columns[..i]) + if Passes(filter, columns[i].name) then [columns[i]] else []
  {
    assert columns[..i + 1][..i] == columns[..i];
  }

  lemma NumberedNext(asSchema: bool, database: string, table: string, columns: seq<Column>, column: Column)
    ensures Numbered(asSchema, database, table, columns + [column])
         == Numbered(asSchema, database, table, columns)
            + [ColumnOf(asSchema, database, table, column, |columns| + 1)]
  {
  }

  lemma ColumnsOfEachNext(
      service: Service, asSchema: bool, filter: Option<string>, tables: seq<TableRow>, i: nat,
      so: Answer<ColumnRow>)
    requires i < |tables|
    ensures
      var next := Extended(so.rows,
        ColumnsOfTable(service, asSchema, filter, NameOn(asSchema, tables[i]), NameOf(tables[i])));
      ColumnsOfEach(service, asSchema, filter, tables[i..], so)
      == if Listed(next.result) then ColumnsOfEach(service, asSchema, filter, tables[i + 1..], next) else next
  {
  }

  lemma AllRemain(rows: seq<TableRow>)
    ensures rows[0..] == rows
  {
  }

  lemma NoneRemain(
      service: Service, asSchema: bool, filter: Option<string>, tables: seq<TableRow>, i: nat,
      so: Answer<ColumnRow>)
    requires i == |tables|
    ensures ColumnsOfEach(service, asSchema, filter, tables[i..], so) == so
  {
  }

  class ColumnMetadataQuery {
    const service: Service
    const databaseAsSchema: bool
    const metadataId: bool
    const original: Arguments
    const originalColumn: Option<string>
    const tables: TableMetadataQuery
    var args: Arguments
    var column: Option<string>
    var executed: bool
    var fetched: bool
    var meta: seq<ColumnRow>
    var cursor: nat

    /** Search patterns that were not given become the wildcard when the query is executed. */
    ghost predicate Filled()
      reads this
    {
      && args.catalog == Some(OrAll(original.catalog)) && args.schema == Some(OrAll(original.schema))
      && args.table == Some(OrAll(original.table)) && column == Some(OrAll(originalColumn))
    }

    ghost predicate Valid()
      reads this, tables
    {
      && tables.Valid() && tables.service == service && tables.databaseAsSchema == databaseAsSchema
      && tables.metadataId == metadataId && tables.args == original.(tableType := None)
      && ((args == original && column == originalColumn) || (!metadataId && Filled()))
      && (executed ==> cursor <= |meta|) && (executed && !fetched ==> cursor == 0)
    }

    constructor (
        service: Service, databaseAsSchema: bool, metadataId: bool, args: Arguments, column: Option<string>)
      ensures Valid() && !executed && fresh(tables)
      ensures this.service == service && this.databaseAsSchema == databaseAsSchema
      ensures this.metadataId == metadataId && original == args && originalColumn == column
    {
      this.service, this.databaseAsSchema, this.metadataId := service, databaseAsSchema, metadataId;
      this.original, this.originalColumn, this.args, this.column := args, column, args, column;
      executed, fetched, meta, cursor := false, false, [], 0;
      tables := new TableMetadataQuery(service, databaseAsSchema, metadataId, args.(tableType := None));
    }

    /** Columns that pass the filter are numbered from one within the table. */
    method MakeRequestGetColumnsMetaPerTable(database: string, table: string) returns (result: SqlResult)
      modifies this`meta
      ensures Answer(result, meta)
           == Extended(old(meta), ColumnsOfTable(service, databaseAsSchema, column, database, table))
    {
      var listing := service.describe("describe \"" + database + "\".\"" + table + "\"");
      assert Describe(database, table) == "describe \"" + database + "\".\"" + table + "\"";
      if listing.execute != Success {
        return NoData;
      }
      var columns := listing.rows;
      var prevPosition: nat := 0;
      for i := 0 to |columns|
        invariant prevPosition == |Passing(column, columns[..i])|
        invariant meta == old(meta)
          + Numbered(databaseAsSchema, database, table, Passing(column, columns[..i]))
      {
        PassingNext(column, columns, i);
        var filter := if column.Some? then column.value else "";
        if filter == ALL || filter == columns[i].name {
          NumberedNext(databaseAsSchema, database, table, Passing(column, columns[..i]), columns[i]);
          prevPosition := prevPosition + 1;
          if databaseAsSchema {
            meta := meta + [ColumnRow(None, Some(database), table, columns[i], prevPosition)];
          } else {
            meta := meta + [ColumnRow(Some(database), None, table, columns[i], prevPosition)];
          }
        }
      }
      assert columns[..|columns|] == columns;
      return if meta == [] then SuccessWithInfo else Success;
    }

    /** The loop over the tables found; it stops at the first table that cannot be described. */
    method AddColumnsOfEach() returns (result: SqlResult)
      requires tables.Valid() && tables.executed && tables.FetchedRows() == 0 && meta == []
      modifies this`meta, tables`fetched, tables`cursor
      ensures tables.Valid()
      ensures Answer(result, meta)
           == ColumnsOfEach(service, databaseAsSchema, column, tables.meta, Answer(Success, []))
    {
      result := Success;
      ghost var rows := tables.meta;
      ghost var all := ColumnsOfEach(service, databaseAsSchema, column, rows, Answer(Success, []));
      ghost var k: nat := 0;
      var fetch, row := tables.FetchNextRow();
      AllRemain(rows);
      while fetch == Success
        invariant tables.Valid() && tables.executed && tables.meta == rows
        invariant if fetch == Success
                  then k < |rows| && row == Some(rows[k]) && tables.FetchedRows() == k + 1
                  else k == |rows|
        invariant ColumnsOfEach(service, databaseAsSchema, column, rows[k..], Answer(result, meta)) == all
        decreases |rows| - k
      {
        result := AddColumnsOf(rows, k, row.value, result);
        if result != Success && result != SuccessWithInfo {
          return;
        }
        k := k + 1;
        fetch, row := tables.FetchNextRow();
      }
      NoneRemain(service, databaseAsSchema, column, rows, k, Answer(result, meta));
    }

    /** One round of the loop. */
    method AddColumnsOf(ghost rows: seq<TableRow>, ghost k: nat, row: TableRow, ghost so: SqlResult)
      returns (result: SqlResult)
      requires k < |rows| && row == rows[k]
      modifies this`meta
      ensures
        ColumnsOfEach(service, databaseAsSchema, column, rows[k..], Answer(so, old(meta)))
        == if Listed(result)
           then ColumnsOfEach(service, databaseAsSchema, column, rows[k + 1..], Answer(result, meta))
           else Answer(result, meta)
    {
      ColumnsOfEachNext(service, databaseAsSchema, column, rows, k, Answer(so, meta));
      result := MakeRequestGetColumnsMetaPerTable(NameOn(databaseAsSchema, row), NameOf(row));
    }

    method GetColumnsWithDatabaseSearchPattern(database: Option<string>) returns (result: SqlResult)
      requires Valid() && !executed && meta == [] && (metadataId ==> database.Some? && args.table.Some?)
      modifies this`meta, tables
      ensures Valid()
      ensures Answer(result, meta)
           == if metadataId
              then Extended([], ColumnsOfTable(service, databaseAsSchema, column, database.value, args.table.value))
              else PatternColumns(service, databaseAsSchema, original, column)
    {
      if !metadataId {
        result := tables.Execute();
        if result != Success {
          return SuccessWithInfo;
        }
        result := AddColumnsOfEach();
      } else {
        result := MakeRequestGetColumnsMetaPerTable(database.value, args.table.value);
      }
    }

    method Close()
      modifies this`meta, this`cursor, this`executed
      ensures !executed && meta == []
    {
      meta, cursor, executed := [], 0, false;
    }

    /** The checks before any request; missing search patterns are filled in on the way. */
    method CheckArguments() returns (refused: Option<SqlResult>)
      requires Valid() && !executed
      modifies this`args, this`column
      ensures Valid()
      ensures refused == Refused(databaseAsSchema, metadataId, original, originalColumn)
      ensures refused.None? && metadataId ==> args == original && column == originalColumn
      ensures refused.None? && !metadataId ==> Filled()
    {
      if databaseAsSchema && args.catalog.Some? && args.catalog.value != "" && args.catalog.value != ALL {
        return Some(SuccessWithInfo);
      } else if !databaseAsSchema && args.schema.Some? && args.schema.value != "" && args.schema.value != ALL {
        return Some(SuccessWithInfo);
      }
      if metadataId {
        if (databaseAsSchema && (args.schema == None || args.table == None))
           || (!databaseAsSchema && (args.catalog == None || args.table == None))
           || column == None {
          return Some(Error);
        }
      } else {
        args := args.(catalog := Some(OrAll(args.catalog)), schema := Some(OrAll(args.schema)),
                      table := Some(OrAll(args.table)));
        column := Some(OrAll(column));
      }
      if databaseAsSchema {
        if args.schema == Some("") || args.table == Some("") {
          return Some(SuccessWithInfo);
        }
      } else {
        if args.catalog == Some("") || args.table == Some("") {
          return Some(SuccessWithInfo);
        }
      }
      return None;
    }

    /** Only plain success makes the result set readable. */
    method Execute() returns (result: SqlResult)
      requires Valid()
      modifies this, tables
      ensures Valid()
      ensures
        var answer := Columns(service, databaseAsSchema, metadataId, original, originalColumn);
        result == answer.result && (executed <==> result == Success)
        && (executed ==> meta == answer.rows && FetchedRows() == 0)
    {
      if executed {
        Close();
      }
      var refused := CheckArguments();
      if refused.Some? {
        return refused.value;
      }
      meta := [];
      result := GetColumnsWithDatabaseSearchPattern(args.Database(databaseAsSchema));
      if result == Success {
        executed, fetched := true, false;
        cursor := 0;
      }
    }

    // Handing it out

    /** How many rows have been handed out. */
    ghost function FetchedRows(): nat
      reads this
    {
      if !fetched then 0 else if cursor < |meta| then cursor + 1 else |meta|
    }

    method FetchNextRow() returns (result: SqlResult, row: Option<ColumnRow>)
      requires Valid()
      modifies this`fetched, this`cursor
      ensures Valid()
      ensures !old(executed) ==> result == Error && row == None
      ensures old(executed) && old(FetchedRows()) < |meta| ==>
        result == Success && row == Some(meta[old(FetchedRows())]) && FetchedRows() == old(FetchedRows()) + 1
      ensures old(executed) && old(FetchedRows()) == |meta| ==>
        result == NoData && row == None && FetchedRows() == |meta|
    {
      if !executed {
        return Error, None;
      }
      if !fetched {
        fetched := true;
      } else if cursor != |meta| {
        cursor := cursor + 1;
      }
      if cursor == |meta| {
        return NoData, None;
      }
      return Success, Some(meta[cursor]);
    }

    /** The number of the current row; before the first fetch it is already 1 if there are rows. */
    method RowNumber() returns (number: nat)
      requires Valid()
      ensures executed && fetched && cursor < |meta| ==> number == FetchedRows()
      ensures executed && !fetched ==> number == if meta == [] then 0 else 1
      ensures !executed || cursor == |meta| ==> number == 0
    {
      if !executed || cursor == |meta| {
        return 0;
      }
      return cursor + 1;
    }
  }
}
