/**
  The warehouse tables behind the ledger: BQTable.GetOrCreate in its two
  versions (list-and-search, and get-or-NotFound-create), and the
  append-only insert_row / insert_rows.
 */
module Tables {
  import opened Wrappers
  import opened Text

  /** A fully qualified table, `project.dataset.table`. */
  datatype TableRef = TableRef(project: string, dataset: string, table: string)

  /** The exceptions table-id handling and the warehouse lookup can raise. */
  datatype IdError = IndexError | ValueError | NotFound

  /** The error a rejected streaming insert reports. */
  datatype InsertError = Rejected

  function OrElse(arg: Option<string>, current: string): string {
    if arg.Some? then arg.value else current
  }

  /** The dotted id of a table reference. */
  function IdString(t: TableRef): string {
    Join(".", [t.project, t.dataset, t.table])
  }

  /**
    GetOrCreate's id handling in pubsub_workers_integrated: split the
    stored id on '.', overwrite component 0, 1 or 2 with each argument
    that is given, then unpack exactly three components.
   */
  function ResolveTableId(tableId: string, project: Option<string>, dataset: Option<string>,
                          table: Option<string>): (r: Result<TableRef, IdError>)
    ensures var parts := Split(tableId, ".");
      && (r.Err? <==> |parts| != 3)
      && (r == Err(IndexError) <==> (dataset.Some? && |parts| < 2) || (table.Some? && |parts| < 3))
      && (r.Ok? ==> r.value == TableRef(OrElse(project, parts[0]), OrElse(dataset, parts[1]),
                                        OrElse(table, parts[2])))
  {
    var parts := Split(tableId, ".");
    var parts := if project.Some? then parts[0 := project.value] else parts;
    if dataset.Some? && |parts| < 2 then Err(IndexError)
    else
      var parts := if dataset.Some? then parts[1 := dataset.value] else parts;
      if table.Some? && |parts| < 3 then Err(IndexError)
      else
        var parts := if table.Some? then parts[2 := table.value] else parts;
        if |parts| != 3 then Err(ValueError)
        else Ok(TableRef(parts[0], parts[1], parts[2]))
  }

  /**
    Once resolved with dot-free arguments, the stored id resolves to the
    same table again when no argument is given, so a later call with no
    arguments addresses the same table.
   */
  lemma ResolveStable(tableId: string, project: Option<string>, dataset: Option<string>,
                      table: Option<string>)
    requires ResolveTableId(tableId, project, dataset, table).Ok?
    requires project.Some? ==> '.' !in project.value
    requires dataset.Some? ==> '.' !in dataset.value
    requires table.Some? ==> '.' !in table.value
    ensures var t := ResolveTableId(tableId, project, dataset, table).value;
      ResolveTableId(IdString(t), None, None, None) == Ok(t)
  {
    var t := ResolveTableId(tableId, project, dataset, table).value;
    var parts := Split(tableId, ".");
    SplitPiecesFree(tableId, ".");
    forall p | p in parts ensures '.' !in p {
      ContainsChar(p, '.');
    }
    assert parts[0] in parts && parts[1] in parts && parts[2] in parts;
    SplitJoin([t.project, t.dataset, t.table], '.');
  }

  /**
    GetOrCreate's id handling in updated_urlbuilder: the same overwrites
    of components 0, 1 and 2, but no unpacking, so the component list
    keeps whatever length the stored id had.
   */
  function ResolveTableParts(tableId: string, project: Option<string>, dataset: Option<string>,
                             table: Option<string>): (r: Result<seq<string>, IdError>)
    ensures var parts := Split(tableId, ".");
      && (r.Err? <==> (dataset.Some? && |parts| < 2) || (table.Some? && |parts| < 3))
      && (r.Ok? ==>
            |r.value| == |parts| && (|parts| > 3 ==> r.value[3..] == parts[3..])
            && r.value[0] == OrElse(project, parts[0])
            && (|parts| > 1 ==> r.value[1] == OrElse(dataset, parts[1]))
            && (|parts| > 2 ==> r.value[2] == OrElse(table, parts[2])))
  {
    var parts := Split(tableId, ".");
    var parts := if project.Some? then parts[0 := project.value] else parts;
    if dataset.Some? && |parts| < 2 then Err(IndexError)
    else
      var parts := if dataset.Some? then parts[1 := dataset.value] else parts;
      if table.Some? && |parts| < 3 then Err(IndexError)
      else Ok(if table.Some? then parts[2 := table.value] else parts)
  }

  /** The warehouse's catalogue: the datasets and tables that exist. */
  class Warehouse {
    var datasets: seq<(string, string)>
    var tables: seq<TableRef>

    constructor(datasets: seq<(string, string)>, tables: seq<TableRef>)
      ensures this.datasets == datasets && this.tables == tables
    {
      this.datasets := datasets;
      this.tables := tables;
    }
  }

  /**
    A BQTable: its dotted id, the table handle GetOrCreate obtains, and
    the rows stored in it, which are only ever appended to.
   */
  class BQTable<T> {
    var tableId: string
    var handle: Option<TableRef>
    var rows: seq<T>

    constructor(tableId: string, rows: seq<T>)
      ensures this.tableId == tableId && handle == None && this.rows == rows
    {
      this.tableId := tableId;
      handle := None;
      this.rows := rows;
    }

    /**
      GetOrCreate as in pubsub_workers_integrated: resolve the id, then
      search the project's datasets (stopping at the first match) and the
      dataset's tables, creating each only when it is not listed.
     */
    method GetOrCreate(wh: Warehouse, project: Option<string>, dataset: Option<string>,
                       table: Option<string>) returns (r: Result<TableRef, IdError>)
      modifies this, wh
      ensures r == ResolveTableId(old(tableId), project, dataset, table)
      ensures rows == old(rows)
      ensures r.Err? ==>
        tableId == old(tableId) && handle == old(handle)
        && wh.datasets == old(wh.datasets) && wh.tables == old(wh.tables)
      ensures r.Ok? ==> var t := r.value;
        && tableId == Join(".", [t.project, t.dataset, t.table])
        && handle == Some(t)
        && wh.datasets == old(wh.datasets)
             + (if (t.project, t.dataset) in old(wh.datasets) then [] else [(t.project, t.dataset)])
        && wh.tables == old(wh.tables) + (if t in old(wh.tables) then [] else [t])
    {
      r := ResolveTableId(tableId, project, dataset, table);
      if r.Err? {
        return;
      }
      var t := r.value;
      tableId := Join(".", [t.project, t.dataset, t.table]);

      var listed := wh.datasets;
      var found := false;
      var i := 0;
      while i < |listed| && !found
        invariant 0 <= i <= |listed|
        invariant found ==> (t.project, t.dataset) in listed
        invariant !found ==> forall k :: 0 <= k < i ==> listed[k] != (t.project, t.dataset)
        invariant tableId == Join(".", [t.project, t.dataset, t.table]) && rows == old(rows)
        invariant wh.datasets == listed && wh.tables == old(wh.tables)
      {
        if listed[i] == (t.project, t.dataset) {
          found := true;
        }
        i := i + 1;
      }
      if !found {
        wh.datasets := wh.datasets + [(t.project, t.dataset)];
      }

      var tables := wh.tables;
      ghost var datasetsNow := wh.datasets;
      handle := None;
      for k := 0 to |tables|
        invariant handle.Some? <==> t in tables[..k]
        invariant handle.Some? ==> handle.value == t
        invariant tableId == Join(".", [t.project, t.dataset, t.table]) && rows == old(rows)
        invariant wh.datasets == datasetsNow && wh.tables == tables
      {
        if tables[k] == t {
          handle := Some(t);
        }
      }
      assert tables[..|tables|] == tables;
      if handle.None? {
        wh.tables := wh.tables + [t];
        handle := Some(t);
      }
    }

    /**
      GetOrCreate as in updated_urlbuilder: resolve and store the id, then
      fetch the table or create it when it is not found. Building the table
      reference needs exactly three components; the warehouse client
      raises ValueError for any other count, after the id was stored. The
      creation raises NotFound in its turn when the dataset does not exist.
     */
    method GetOrCreateLookup(wh: Warehouse, project: Option<string>, dataset: Option<string>,
                             table: Option<string>) returns (r: Result<TableRef, IdError>)
      modifies this, wh
      ensures var parts := ResolveTableParts(old(tableId), project, dataset, table);
        && (parts.Err? ==> r == Err(parts.error) && tableId == old(tableId))
        && (parts.Ok? ==>
              tableId == Join(".", parts.value)
              && (|parts.value| != 3 ==> r == Err(ValueError))
              && (|parts.value| == 3 ==>
                    var t := TableRef(parts.value[0], parts.value[1], parts.value[2]);
                    && (r.Ok? <==> t in old(wh.tables) || (t.project, t.dataset) in old(wh.datasets))
                    && (r.Ok? ==> r.value == t)
                    && (r.Err? ==> r == Err(NotFound))))
      ensures rows == old(rows) && wh.datasets == old(wh.datasets)
      ensures r.Err? ==> handle == old(handle) && wh.tables == old(wh.tables)
      ensures r.Ok? ==>
        handle == Some(r.value)
        && wh.tables == old(wh.tables) + (if r.value in old(wh.tables) then [] else [r.value])
    {
      var parts := ResolveTableParts(tableId, project, dataset, table);
      if parts.Err? {
        return Err(parts.error);
      }
      tableId := Join(".", parts.value);
      if |parts.value| != 3 {
        return Err(ValueError);
      }
      var t := TableRef(parts.value[0], parts.value[1], parts.value[2]);
      if t !in wh.tables {
        if (t.project, t.dataset) !in wh.datasets {
          return Err(NotFound);
        }
        wh.tables := wh.tables + [t];
      }
      handle := Some(t);
      r := Ok(t);
    }

    /**
      insert_rows: one streaming insert of the whole batch. The warehouse
      either accepts it, appending the rows in order, or rejects it, and
      then nothing is stored and an error is reported. Stored rows are
      never altered.
     */
    method InsertRows(batch: seq<T>, accepted: bool) returns (errors: seq<InsertError>)
      modifies this
      ensures rows == old(rows) + (if accepted then batch else [])
      ensures errors == [] <==> accepted
      ensures tableId == old(tableId) && handle == old(handle)
    {
      if accepted {
        rows := rows + batch;
        errors := [];
      } else {
        errors := [Rejected];
      }
    }

    /** insert_row: insert_rows on the one-row list. */
    method InsertRow(row: T, accepted: bool) returns (errors: seq<InsertError>)
      modifies this
      ensures rows == old(rows) + (if accepted then [row] else [])
      ensures errors == [] <==> accepted
      ensures tableId == old(tableId) && handle == old(handle)
    {
      errors := InsertRows([row], accepted);
    }
  }
}
