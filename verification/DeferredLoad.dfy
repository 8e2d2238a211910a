// Restoring the rows of a whole schema. Rows are inserted table by table in load
// order with every reference that cannot be satisfied yet set to null; afterwards
// the references are put back, row by row, by primary key.
module DeferredLoad {
  import opened Wrappers
  import opened Totals
  import opened TableOrder

  type Value = int

  type Row = map<int, Option<Value>>

  // A foreign key: columns of this table naming a row of the target by its columns.
  datatype Reference = Reference(columns: seq<int>, target: int, targetColumns: seq<int>)

  datatype Table = Table(columns: set<int>, nullable: set<int>, primaryKey: set<int>, references: seq<Reference>)

  type Schema = map<int, Table>

  type Rows = map<int, seq<Row>>

  // ---- what a schema and its rows guarantee ----

  ghost predicate ValidReference(schema: Schema, t: Table, f: Reference) {
    && |f.columns| == |f.targetColumns| > 0
    && (forall i :: 0 <= i < |f.columns| ==> f.columns[i] in t.columns)
    && f.target in schema
    && (forall i :: 0 <= i < |f.columns| ==>
          f.targetColumns[i] in schema[f.target].columns && f.targetColumns[i] !in schema[f.target].nullable)
  }

  // Keys are never null, and references name columns that are never null.
  ghost predicate ValidSchema(schema: Schema) {
    forall t :: t in schema ==>
      && schema[t].primaryKey <= schema[t].columns
      && schema[t].primaryKey !! schema[t].nullable
      && forall j :: 0 <= j < |schema[t].references| ==> ValidReference(schema, schema[t], schema[t].references[j])
  }

  function Key(t: Table, row: Row): Row {
    map c | c in t.primaryKey && c in row :: row[c]
  }

  ghost predicate ValidRow(t: Table, row: Row) {
    row.Keys == t.columns
  }

  ghost predicate UniqueKeys(t: Table, rows: seq<Row>) {
    forall j, k :: 0 <= j < k < |rows| ==> Key(t, rows[j]) != Key(t, rows[k])
  }

  ghost predicate ValidRows(schema: Schema, rows: Rows) {
    rows.Keys == schema.Keys &&
    forall t :: t in schema ==>
      UniqueKeys(schema[t], rows[t]) && forall k :: 0 <= k < |rows[t]| ==> ValidRow(schema[t], rows[t][k])
  }

  // ---- referential integrity ----

  predicate Enforced(row: Row, f: Reference) {
    forall i :: 0 <= i < |f.columns| ==> f.columns[i] in row && row[f.columns[i]].Some?
  }

  predicate Names(row: Row, f: Reference, target: Row) {
    forall i :: 0 <= i < |f.columns| && i < |f.targetColumns| ==>
      && f.columns[i] in row && f.targetColumns[i] in target
      && row[f.columns[i]] == target[f.targetColumns[i]]
  }

  function RowsOf(db: Rows, t: int): seq<Row> {
    if t in db then db[t] else []
  }

  // A reference with a null column is not enforced; otherwise the row it names exists.
  ghost predicate Resolved(db: Rows, row: Row, f: Reference) {
    Enforced(row, f) ==> exists k :: 0 <= k < |RowsOf(db, f.target)| && Names(row, f, RowsOf(db, f.target)[k])
  }

  predicate Optional(t: Table, f: Reference) {
    exists i :: 0 <= i < |f.columns| && f.columns[i] in t.nullable
  }

  ghost predicate NoOptionalDangles(schema: Schema, db: Rows) {
    forall t, k, j :: t in schema && 0 <= k < |RowsOf(db, t)| && 0 <= j < |schema[t].references| &&
                      Optional(schema[t], schema[t].references[j]) ==>
      Resolved(db, RowsOf(db, t)[k], schema[t].references[j])
  }

  ghost predicate NothingDangles(schema: Schema, db: Rows) {
    forall t, k, j :: t in schema && 0 <= k < |RowsOf(db, t)| && 0 <= j < |schema[t].references| ==>
      Resolved(db, RowsOf(db, t)[k], schema[t].references[j])
  }

  // ---- the mandatory graph ----

  // A table waits for the targets of its references without a nullable column.
  function MandatoryGraph(schema: Schema): Graph {
    map t | t in schema ::
      set j | 0 <= j < |schema[t].references| && !Optional(schema[t], schema[t].references[j]) ::
        schema[t].references[j].target
  }

  // ---- nulling and restoring one row ----

  datatype Deferred = Deferred(table: int, key: Row, restore: Row)

  function NullableColumns(t: Table, row: Row, f: Reference): set<int> {
    set c | c in f.columns && c in t.nullable && c in row && row[c].Some?
  }

  function Nulled(row: Row, columns: set<int>): Row {
    map c | c in row :: if c in columns then None else row[c]
  }

  function Picked(row: Row, columns: set<int>): Row {
    map c | c in columns && c in row :: row[c]
  }

  // A row that agrees with the full one except for nulls in nullable columns.
  ghost predicate Agrees(t: Table, row: Row, full: Row) {
    row.Keys == full.Keys &&
    forall c :: c in row ==> row[c] == full[c] || (row[c].None? && c in t.nullable)
  }

  // Everything the row lacks is in some entry for its key.
  ghost predicate Covered(name: int, t: Table, row: Row, full: Row, entries: seq<Deferred>) {
    forall c :: c in row && c in full && row[c] != full[c] ==>
      exists e :: 0 <= e < |entries| && entries[e].table == name && entries[e].key == Key(t, full) &&
        c in entries[e].restore
  }

  // An entry holds values of the row it names.
  ghost predicate Faithful(schema: Schema, prepared: Rows, entry: Deferred) {
    && entry.table in schema && entry.table in prepared
    && exists k :: 0 <= k < |prepared[entry.table]| && Restores(schema[entry.table], prepared[entry.table][k], entry)
  }

  ghost predicate Restores(t: Table, full: Row, entry: Deferred) {
    && entry.key == Key(t, full)
    && entry.restore.Keys <= full.Keys
    && entry.restore.Keys <= t.nullable
    && forall c :: c in entry.restore ==> entry.restore[c] == full[c]
  }

  // Every nullable column of a reference to a table that is not loaded is null.
  ghost predicate Cleared(t: Table, row: Row, f: Reference) {
    forall c :: c in f.columns && c in t.nullable && c in row ==> row[c].None?
  }

  // The column belongs to a reference whose target is not loaded.
  ghost predicate WaitsForTarget(t: Table, c: int, inserted: set<int>) {
    exists j :: 0 <= j < |t.references| && t.references[j].target !in inserted && c in t.references[j].columns
  }

  // The inner loop: nulls what cannot be satisfied yet, and nothing else, and remembers it.
  method DeferRow(name: int, t: Table, full: Row, inserted: set<int>, entries: seq<Deferred>)
    returns (row: Row, after: seq<Deferred>)
    requires ValidRow(t, full) && t.primaryKey <= t.columns && t.primaryKey !! t.nullable
    ensures Agrees(t, row, full)
    ensures entries <= after
    ensures forall e :: |entries| <= e < |after| ==> after[e].table == name && Restores(t, full, after[e])
    ensures Covered(name, t, row, full, after)
    ensures forall j :: 0 <= j < |t.references| && t.references[j].target !in inserted ==>
              Cleared(t, row, t.references[j])
    ensures forall c :: c in row && c in full && row[c] != full[c] ==> WaitsForTarget(t, c, inserted)
    ensures |after| <= |entries| + |t.references|
  {
    hide Key;
    row, after := full, entries;
    for j := 0 to |t.references|
      invariant Agrees(t, row, full) && Key(t, row) == Key(t, full)
      invariant entries <= after
      invariant forall e :: |entries| <= e < |after| ==> after[e].table == name && Restores(t, full, after[e])
      invariant Covered(name, t, row, full, after)
      invariant forall i :: 0 <= i < j && t.references[i].target !in inserted ==> Cleared(t, row, t.references[i])
      invariant forall c :: c in row && c in full && row[c] != full[c] ==> WaitsForTarget(t, c, inserted)
      invariant |after| <= |entries| + j
    {
      var f := t.references[j];
      if f.target in inserted { continue; }
      var columns := NullableColumns(t, row, f);
      if columns == {} {
        NothingToClear(t, row, f);
        continue;
      }
      var entry := Deferred(name, Key(t, row), Picked(row, columns));
      ghost var before, had := row, after;
      row := Nulled(row, columns);
      after := after + [entry];
      DeferStep(name, t, full, before, columns, had, entry, f);
      forall i | 0 <= i < j && t.references[i].target !in inserted
        ensures Cleared(t, row, t.references[i])
      {
        assert Cleared(t, before, t.references[i]);
      }
    }
  }

  lemma NothingToClear(t: Table, row: Row, f: Reference)
    requires NullableColumns(t, row, f) == {}
    ensures Cleared(t, row, f)
  {
    forall c | c in f.columns && c in t.nullable && c in row
      ensures row[c].None?
    {
      assert c !in NullableColumns(t, row, f);
    }
  }

  lemma DeferStep(name: int, t: Table, full: Row, row: Row, columns: set<int>, entries: seq<Deferred>,
                  entry: Deferred, f: Reference)
    requires ValidRow(t, full) && t.primaryKey <= t.columns && t.primaryKey !! t.nullable
    requires Agrees(t, row, full) && Key(t, row) == Key(t, full) && Covered(name, t, row, full, entries)
    requires columns == NullableColumns(t, row, f)
    requires entry == Deferred(name, Key(t, row), Picked(row, columns))
    ensures var cleared := Nulled(row, columns);
            && Agrees(t, cleared, full) && Key(t, cleared) == Key(t, full)
            && Covered(name, t, cleared, full, entries + [entry])
            && Restores(t, full, entry)
            && Cleared(t, cleared, f)
  {
    var cleared := Nulled(row, columns);
    assert Key(t, cleared) == Key(t, row);
    var all := entries + [entry];
    forall c | c in cleared && c in full && cleared[c] != full[c]
      ensures exists e :: 0 <= e < |all| && all[e].table == name && all[e].key == Key(t, full) && c in all[e].restore
    {
      if c in columns {
        assert all[|entries|] == entry;
      } else {
        var e :| 0 <= e < |entries| && entries[e].table == name && entries[e].key == Key(t, full) &&
          c in entries[e].restore;
        assert all[e] == entries[e];
      }
    }
  }

  // ---- the state of a load ----

  // Rows present so far, the tables that are complete, and what is still to restore.
  ghost predicate Loading(schema: Schema, prepared: Rows, db: Rows, inserted: set<int>, entries: seq<Deferred>) {
    && db.Keys <= schema.Keys == prepared.Keys && inserted <= schema.Keys
    && (forall t :: t in schema ==> |RowsOf(db, t)| <= |prepared[t]|)
    && (forall t :: t in inserted ==> |RowsOf(db, t)| == |prepared[t]|)
    && (forall t, k :: t in schema && 0 <= k < |RowsOf(db, t)| ==>
          Present(schema, schema[t], t, RowsOf(db, t)[k], prepared[t][k], inserted, entries))
    && (forall e :: 0 <= e < |entries| ==> Faithful(schema, prepared, entries[e]))
  }

  ghost predicate Present(schema: Schema, t: Table, name: int, row: Row, full: Row, inserted: set<int>,
                          entries: seq<Deferred>) {
    && Agrees(t, row, full)
    && Covered(name, t, row, full, entries)
    && forall j :: 0 <= j < |t.references| && t.references[j].target !in inserted ==> Cleared(t, row, t.references[j])
  }

  lemma ClearedNotEnforced(t: Table, row: Row, f: Reference)
    requires Optional(t, f) && Cleared(t, row, f)
    ensures !Enforced(row, f)
  {
    var i :| 0 <= i < |f.columns| && f.columns[i] in t.nullable;
    var c := f.columns[i];
    assert c in f.columns;
    assert c in row ==> row[c].None?;
  }

  // An enforced reference of a partly restored row names the same row as before.
  lemma StillResolved(schema: Schema, prepared: Rows, db: Rows, t: Table, row: Row, full: Row, f: Reference)
    requires ValidSchema(schema) && ValidRows(schema, prepared) && ValidReference(schema, t, f)
    requires ValidRow(t, full) && Agrees(t, row, full)
    requires Resolved(prepared, full, f)
    requires |RowsOf(db, f.target)| == |prepared[f.target]|
    requires forall k :: 0 <= k < |prepared[f.target]| ==>
               Agrees(schema[f.target], RowsOf(db, f.target)[k], prepared[f.target][k])
    ensures Resolved(db, row, f)
  {
    if Enforced(row, f) {
      forall i | 0 <= i < |f.columns|
        ensures f.columns[i] in full && full[f.columns[i]] == row[f.columns[i]]
      {
        var c := f.columns[i];
        assert c in row && row[c].Some?;
      }
      assert Enforced(full, f);
      var k :| 0 <= k < |RowsOf(prepared, f.target)| && Names(full, f, RowsOf(prepared, f.target)[k]);
      var there, here := prepared[f.target][k], RowsOf(db, f.target)[k];
      assert ValidRow(schema[f.target], there);
      forall i | 0 <= i < |f.columns|
        ensures f.targetColumns[i] in here && row[f.columns[i]] == here[f.targetColumns[i]]
      {
        var c := f.targetColumns[i];
        assert c in there && c in here && here[c] == there[c];
        assert full[f.columns[i]] == there[c];
      }
      assert Names(row, f, here);
    }
  }

  lemma LoadingIsSound(schema: Schema, prepared: Rows, db: Rows, inserted: set<int>, entries: seq<Deferred>)
    requires ValidSchema(schema) && ValidRows(schema, prepared) && Loading(schema, prepared, db, inserted, entries)
    requires NoOptionalDangles(schema, prepared)
    ensures NoOptionalDangles(schema, db)
  {
    hide Resolved;
    hide Covered;
    hide Faithful;
    forall t, k, j | t in schema && 0 <= k < |RowsOf(db, t)| && 0 <= j < |schema[t].references| &&
                     Optional(schema[t], schema[t].references[j])
      ensures Resolved(db, RowsOf(db, t)[k], schema[t].references[j])
    {
      OneReference(schema, prepared, db, inserted, entries, t, k, j);
    }
  }

  lemma OneReference(schema: Schema, prepared: Rows, db: Rows, inserted: set<int>, entries: seq<Deferred>, t: int,
                     k: nat, j: nat)
    requires ValidSchema(schema) && ValidRows(schema, prepared) && Loading(schema, prepared, db, inserted, entries)
    requires t in schema && k < |RowsOf(db, t)| && j < |schema[t].references|
    requires var f := schema[t].references[j]; f.target !in inserted ==> Optional(schema[t], f)
    requires Resolved(prepared, RowsOf(prepared, t)[k], schema[t].references[j])
    ensures Resolved(db, RowsOf(db, t)[k], schema[t].references[j])
  {
    hide Covered;
    hide Faithful;
    hide Optional;
    hide Enforced;
    hide Names;
    var f, row, full := schema[t].references[j], RowsOf(db, t)[k], prepared[t][k];
    assert Present(schema, schema[t], t, row, full, inserted, entries);
    assert ValidRow(schema[t], full);
    if f.target in inserted {
      assert ValidReference(schema, schema[t], f);
      forall i | 0 <= i < |prepared[f.target]|
        ensures Agrees(schema[f.target], RowsOf(db, f.target)[i], prepared[f.target][i])
      {
        assert Present(schema, schema[f.target], f.target, RowsOf(db, f.target)[i], prepared[f.target][i], inserted,
          entries);
      }
      StillResolved(schema, prepared, db, schema[t], row, full, f);
    } else {
      ClearedNotEnforced(schema[t], row, f);
    }
  }

  // The row names a complete table, or a row of its own table that is not after it.
  ghost predicate RowReady(prepared: Rows, t: int, k: nat, f: Reference, inserted: set<int>)
    requires t in prepared && k < |prepared[t]|
  {
    Enforced(prepared[t][k], f) ==>
      f.target in inserted || (f.target == t && NamedUpTo(prepared[t], k, f))
  }

  ghost predicate NamedUpTo(rows: seq<Row>, k: nat, f: Reference)
    requires k < |rows|
  {
    exists i :: 0 <= i <= k && Names(rows[k], f, rows[i])
  }

  // Every mandatory reference of a row present is ready.
  ghost predicate RowsReady(schema: Schema, prepared: Rows, db: Rows, inserted: set<int>)
    requires schema.Keys <= prepared.Keys
  {
    forall t, k, j :: t in schema && 0 <= k < |RowsOf(db, t)| && k < |prepared[t]| &&
                      0 <= j < |schema[t].references| && !Optional(schema[t], schema[t].references[j]) ==>
      RowReady(prepared, t, k, schema[t].references[j], inserted)
  }

  lemma LoadingIsComplete(schema: Schema, prepared: Rows, db: Rows, inserted: set<int>, entries: seq<Deferred>)
    requires ValidSchema(schema) && ValidRows(schema, prepared) && Loading(schema, prepared, db, inserted, entries)
    requires NothingDangles(schema, prepared) && RowsReady(schema, prepared, db, inserted)
    ensures NothingDangles(schema, db)
  {
    hide Resolved;
    hide Covered;
    hide Faithful;
    hide Present;
    hide RowReady;
    forall t, k, j | t in schema && 0 <= k < |RowsOf(db, t)| && 0 <= j < |schema[t].references|
      ensures Resolved(db, RowsOf(db, t)[k], schema[t].references[j])
    {
      var f := schema[t].references[j];
      if Optional(schema[t], f) || f.target in inserted {
        OneReference(schema, prepared, db, inserted, entries, t, k, j);
      } else {
        assert RowReady(prepared, t, k, f, inserted);
        SelfReference(schema, prepared, db, inserted, entries, t, k, j);
      }
    }
  }

  // Columns that cannot be null are as prepared.
  lemma MandatoryColumns(schema: Schema, t: Table, row: Row, full: Row, f: Reference)
    requires ValidReference(schema, t, f) && !Optional(t, f) && Agrees(t, row, full) && ValidRow(t, full)
    ensures forall i :: 0 <= i < |f.columns| ==>
              f.columns[i] in row && f.columns[i] in full && row[f.columns[i]] == full[f.columns[i]]
    ensures Enforced(row, f) <==> Enforced(full, f)
  {
    forall i | 0 <= i < |f.columns|
      ensures f.columns[i] in row && f.columns[i] in full && row[f.columns[i]] == full[f.columns[i]]
    {
      var c := f.columns[i];
      assert c in t.columns && c !in t.nullable;
      assert c in row && c in full;
    }
  }

  lemma TargetColumns(schema: Schema, t: Table, row: Row, full: Row, f: Reference)
    requires ValidReference(schema, t, f) && Agrees(schema[f.target], row, full) && ValidRow(schema[f.target], full)
    ensures forall i :: 0 <= i < |f.targetColumns| ==>
              f.targetColumns[i] in row && f.targetColumns[i] in full &&
                row[f.targetColumns[i]] == full[f.targetColumns[i]]
  {
    forall i | 0 <= i < |f.targetColumns|
      ensures f.targetColumns[i] in row && f.targetColumns[i] in full
      ensures row[f.targetColumns[i]] == full[f.targetColumns[i]]
    {
      var c := f.targetColumns[i];
      assert c in schema[f.target].columns && c !in schema[f.target].nullable;
      assert c in row && c in full;
    }
  }

  // Within a table, a mandatory reference leads from the same row to the same row as
  // prepared.
  lemma SameNames(schema: Schema, t: int, f: Reference, a: Row, b: Row, fullA: Row, fullB: Row)
    requires t in schema && ValidReference(schema, schema[t], f) && !Optional(schema[t], f) && f.target == t
    requires Agrees(schema[t], a, fullA) && Agrees(schema[t], b, fullB)
    requires ValidRow(schema[t], fullA) && ValidRow(schema[t], fullB)
    ensures Names(a, f, b) <==> Names(fullA, f, fullB)
  {
    hide Agrees;
    hide ValidRow;
    MandatoryColumns(schema, schema[t], a, fullA, f);
    TargetColumns(schema, schema[t], b, fullB, f);
    hide ValidReference;
  }

  lemma AgreesAt(schema: Schema, prepared: Rows, db: Rows, inserted: set<int>, entries: seq<Deferred>, t: int, k: nat)
    requires ValidRows(schema, prepared) && Loading(schema, prepared, db, inserted, entries)
    requires t in schema && k < |RowsOf(db, t)|
    ensures k < |prepared[t]| && Agrees(schema[t], RowsOf(db, t)[k], prepared[t][k]) &&
            ValidRow(schema[t], prepared[t][k])
  {
    hide Covered;
    hide Faithful;
    assert Present(schema, schema[t], t, RowsOf(db, t)[k], prepared[t][k], inserted, entries);
  }

  lemma SelfReference(schema: Schema, prepared: Rows, db: Rows, inserted: set<int>, entries: seq<Deferred>,
                      t: int, k: nat, j: nat)
    requires ValidSchema(schema) && ValidRows(schema, prepared) && Loading(schema, prepared, db, inserted, entries)
    requires t in schema && k < |RowsOf(db, t)| && k < |prepared[t]| && j < |schema[t].references|
    requires var f := schema[t].references[j];
             !Optional(schema[t], f) && f.target !in inserted && RowReady(prepared, t, k, f, inserted)
    ensures Resolved(db, RowsOf(db, t)[k], schema[t].references[j])
  {
    hide Loading;
    hide Agrees;
    hide Names;
    hide ValidRow;
    hide Enforced;
    hide Optional;
    var f, row := schema[t].references[j], RowsOf(db, t)[k];
    assert ValidReference(schema, schema[t], f);
    hide ValidReference;
    AgreesAt(schema, prepared, db, inserted, entries, t, k);
    MandatoryColumns(schema, schema[t], row, prepared[t][k], f);
    if Enforced(row, f) {
      var i :| 0 <= i <= k && Names(prepared[t][k], f, prepared[t][i]);
      AgreesAt(schema, prepared, db, inserted, entries, t, i);
      SameNames(schema, t, f, row, RowsOf(db, t)[i], prepared[t][k], prepared[t][i]);
    }
  }
}
