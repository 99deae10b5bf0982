/** The export writer for the SQL format: column selection, then one statement per row. */
module SqlExport {
  import opened Common
  import opened SqlPrinter
  import SqlReader
  import SqlRoundTrip

  datatype Error = UnknownColumn(name: string) | DuplicateColumn(name: string) | TableRequired | ColumnsNotInitialized

  /** Requested names are taken as they are, if they all exist and none is asked for twice. */
  predicate Selectable(columns: seq<string>, requested: seq<string>) {
    && (forall i | 0 <= i < |requested| :: requested[i] in columns)
    && (forall i, j | 0 <= i < j < |requested| :: requested[i] != requested[j])
  }

  class ExportWriter {
    const requestedNames: seq<string>
    const sqlTable: string
    var selectedNames: seq<string>
    var written: string
    var wroteBody: bool
    ghost var rows: seq<map<string, Value>>

    /** What has been written is the script of the rows so far. */
    ghost predicate Valid()
      reads this
    {
      && (rows != [] ==> selectedNames != [])
      && written == Script(sqlTable, selectedNames, rows)
      && (wroteBody <==> rows != [])
    }

    constructor (requested: seq<string>, sqlTable: string)
      ensures Valid() && rows == [] && selectedNames == [] && requestedNames == requested && this.sqlTable == sqlTable
    {
      requestedNames, this.sqlTable := requested, sqlTable;
      selectedNames, written, wroteBody, rows := [], "", false, [];
    }

    /** All columns when none is requested; otherwise the first offending name is reported. */
    method ResolveColumns(columns: seq<string>) returns (r: Result<seq<string>, Error>)
      ensures requestedNames == [] ==> r == Ok(columns)
      ensures requestedNames != [] ==>
        (r == Ok(requestedNames) <==> Selectable(columns, requestedNames)) && (r.Ok? ==> r.value == requestedNames)
      ensures r.Err? ==> exists i :: (0 <= i < |requestedNames| && Selectable(columns, requestedNames[..i])
        && r.error == if requestedNames[i] !in columns then UnknownColumn(requestedNames[i])
          else DuplicateColumn(requestedNames[i]))
    {
      if requestedNames == [] { return Ok(columns); }
      var seen, selected := {}, [];
      for i := 0 to |requestedNames|
        invariant selected == requestedNames[..i]
        invariant seen == set x | x in selected
        invariant Selectable(columns, requestedNames[..i])
      {
        var name := requestedNames[i];
        if name !in columns { return Err(UnknownColumn(name)); }
        if name in seen {
          assert !Selectable(columns, requestedNames) by {
            var j :| 0 <= j < i && requestedNames[..i][j] == name;
            assert requestedNames[j] == requestedNames[i];
          }
          return Err(DuplicateColumn(name));
        }
        seen, selected := seen + {name}, selected + [name];
        assert requestedNames[..i + 1] == requestedNames[..i] + [name];
      }
      assert requestedNames[..|requestedNames|] == requestedNames;
      return Ok(selected);
    }

    method OnColumns(columns: seq<string>) returns (error: Option<Error>)
      requires Valid() && rows == []
      modifies this`selectedNames
      ensures Valid()
      ensures error.None? ==>
        sqlTable != "" && selectedNames == if requestedNames == [] then columns else requestedNames
      ensures error.None? <==> sqlTable != "" && (requestedNames == [] || Selectable(columns, requestedNames))
    {
      var selected := ResolveColumns(columns);
      if selected.Err? { return Some(selected.error); }
      selectedNames := selected.value;
      error := if sqlTable == "" then Some(TableRequired) else None;
    }

    /** A row adds its line, and nothing else, to what was written. */
    method OnRow(row: map<string, Value>) returns (error: Option<Error>)
      requires Valid()
      modifies this`written, this`wroteBody, this`rows
      ensures Valid()
      ensures error == if selectedNames == [] then Some(ColumnsNotInitialized) else None
      ensures rows == if selectedNames == [] then old(rows) else old(rows) + [row]
    {
      if selectedNames == [] { return Some(ColumnsNotInitialized); }
      var filtered := SelectRow(row);
      var statement := BuildInsertStatement(filtered);
      assert Selected(filtered, selectedNames) == Selected(row, selectedNames);
      written := written + statement + "\n";
      wroteBody := true;
      rows := rows + [row];
      assert rows[..|rows| - 1] == old(rows);
      error := None;
    }

    method SelectRow(row: map<string, Value>) returns (selected: map<string, Value>)
      ensures selected == map name | name in selectedNames :: if name in row then row[name] else Null
    {
      selected := map[];
      for i := 0 to |selectedNames|
        invariant selected == map name | name in selectedNames[..i] :: if name in row then row[name] else Null
      {
        var name := selectedNames[i];
        assert selectedNames[..i + 1] == selectedNames[..i] + [name];
        selected := selected[name := if name in row then row[name] else Null];
      }
      assert selectedNames[..|selectedNames|] == selectedNames;
    }

    method BuildInsertStatement(row: map<string, Value>) returns (statement: string)
      ensures statement == Statement(sqlTable, selectedNames, Selected(row, selectedNames))
    {
      var columns, values := [], [];
      for i := 0 to |selectedNames|
        invariant columns == Quoted(selectedNames[..i])
        invariant values == Formatted(Selected(row, selectedNames[..i]))
      {
        var name := selectedNames[i];
        assert selectedNames[..i + 1] == selectedNames[..i] + [name];
        columns := columns + [QuoteIdentifier(name)];
        values := values + [FormatValue(if name in row then row[name] else Null)];
      }
      assert selectedNames[..|selectedNames|] == selectedNames;
      statement := "INSERT INTO " + QuoteTable(sqlTable) + " (" + Join(columns, ", ") + ") VALUES ("
        + Join(values, ", ") + ");";
    }

    /** At any time of an export, what was written reads back to exactly the rows so far. */
    lemma WrittenReadsBack()
      requires Valid() && selectedNames != []
      ensures SqlRoundTrip.ReadsBack(written, sqlTable, selectedNames, rows)
         <==> rows == [] || SqlRoundTrip.AllNamed(sqlTable, selectedNames)
    {
      SqlRoundTrip.ExportRoundTrip(sqlTable, selectedNames, rows);
    }
  }
}
