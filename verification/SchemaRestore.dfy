// The restore as it runs against the database: insert in load order, then update
// the deferred references. Every intermediate state is recorded.
module SchemaRestore {
  import opened Wrappers
  import opened Totals
  import opened TableOrder
  import opened DeferredLoad

  // ---- one more row, one more table, one restored row ----

  function Inserted(db: Rows, t: int, row: Row): Rows {
    db[t := RowsOf(db, t) + [row]]
  }

  lemma InsertStep(schema: Schema, prepared: Rows, db: Rows, inserted: set<int>, entries: seq<Deferred>, t: int,
                   row: Row)
    requires Loading(schema, prepared, db, inserted, entries)
    requires t in schema && t !in inserted && |RowsOf(db, t)| < |prepared[t]|
    requires Present(schema, schema[t], t, row, prepared[t][|RowsOf(db, t)|], inserted, entries)
    ensures Loading(schema, prepared, Inserted(db, t, row), inserted, entries)
  {
  }

  lemma MoreEntries(schema: Schema, prepared: Rows, db: Rows, inserted: set<int>, entries: seq<Deferred>,
                    more: seq<Deferred>)
    requires Loading(schema, prepared, db, inserted, entries) && entries <= more
    requires forall e :: |entries| <= e < |more| ==> Faithful(schema, prepared, more[e])
    ensures Loading(schema, prepared, db, inserted, more)
  {
  }

  // A complete table counts as inserted from then on.
  lemma TableComplete(schema: Schema, prepared: Rows, db: Rows, inserted: set<int>, entries: seq<Deferred>, t: int)
    requires Loading(schema, prepared, db, inserted, entries)
    requires t in schema && |RowsOf(db, t)| == |prepared[t]|
    ensures Loading(schema, prepared, db, inserted + {t}, entries)
  {
  }

  function Restored(t: Table, row: Row, entry: Deferred): Row {
    if Key(t, row) == entry.key then row + entry.restore else row
  }

  function Updated(schema: Schema, db: Rows, entry: Deferred): Rows
    requires entry.table in schema
  {
    db[entry.table := seq(|RowsOf(db, entry.table)|, k requires 0 <= k < |RowsOf(db, entry.table)| =>
      Restored(schema[entry.table], RowsOf(db, entry.table)[k], entry))]
  }

  lemma SameKey(t: Table, row: Row, full: Row)
    requires Agrees(t, row, full) && t.primaryKey !! t.nullable
    ensures Key(t, row) == Key(t, full)
  {
    forall c | c in t.primaryKey && c in row
      ensures row[c] == full[c]
    {
    }
    assert Key(t, row).Keys == Key(t, full).Keys;
  }

  // Restoring the first entry: the row it names gains its values, no other row changes.
  lemma RestoreRow(name: int, t: Table, row: Row, full: Row, entries: seq<Deferred>)
    requires entries != [] && t.primaryKey !! t.nullable
    requires Agrees(t, row, full) && Covered(name, t, row, full, entries)
    requires entries[0].table == name ==> Key(t, full) == entries[0].key ==> Restores(t, full, entries[0])
    ensures var after := if entries[0].table == name then Restored(t, row, entries[0]) else row;
            Agrees(t, after, full) && Covered(name, t, after, full, entries[1..])
  {
    SameKey(t, row, full);
    var after := if entries[0].table == name then Restored(t, row, entries[0]) else row;
    forall c | c in after && c in full && after[c] != full[c]
      ensures exists e :: 0 <= e < |entries[1..]| && entries[1..][e].table == name &&
                entries[1..][e].key == Key(t, full) && c in entries[1..][e].restore
    {
      var e :| 0 <= e < |entries| && entries[e].table == name && entries[e].key == Key(t, full) &&
        c in entries[e].restore;
      assert e > 0 && entries[1..][e - 1] == entries[e];
    }
  }

  // The entry's key names exactly one row, and that row is the one it was taken from.
  lemma OnlyItsRow(schema: Schema, prepared: Rows, entry: Deferred, k: nat)
    requires ValidRows(schema, prepared) && Faithful(schema, prepared, entry)
    requires k < |prepared[entry.table]| && Key(schema[entry.table], prepared[entry.table][k]) == entry.key
    ensures Restores(schema[entry.table], prepared[entry.table][k], entry)
    ensures forall i :: 0 <= i < |prepared[entry.table]| ==>
              Key(schema[entry.table], prepared[entry.table][i]) == entry.key ==> i == k
  {
  }

  lemma UpdateStep(schema: Schema, prepared: Rows, db: Rows, entries: seq<Deferred>)
    requires ValidSchema(schema) && ValidRows(schema, prepared)
    requires Loading(schema, prepared, db, schema.Keys, entries) && entries != []
    ensures entries[0].table in schema
    ensures Loading(schema, prepared, Updated(schema, db, entries[0]), schema.Keys, entries[1..])
  {
    hide Agrees;
    hide Covered;
    hide Restores;
    hide Key;
    hide Restored;
    hide ValidReference;
    var entry := entries[0];
    assert Faithful(schema, prepared, entry);
    var after := Updated(schema, db, entry);
    forall u, k | u in schema && 0 <= k < |RowsOf(after, u)|
      ensures Present(schema, schema[u], u, RowsOf(after, u)[k], prepared[u][k], schema.Keys, entries[1..])
    {
      var row, full := RowsOf(db, u)[k], prepared[u][k];
      assert Present(schema, schema[u], u, row, full, schema.Keys, entries);
      if entry.table == u && Key(schema[u], full) == entry.key {
        OnlyItsRow(schema, prepared, entry, k);
      }
      RestoreRow(u, schema[u], row, full, entries);
      ReferencesInSchema(schema, u);
    }
    assert forall e :: 0 <= e < |entries[1..]| ==> entries[1..][e] == entries[e + 1];
  }

  lemma ReferencesInSchema(schema: Schema, u: int)
    requires ValidSchema(schema) && u in schema
    ensures forall j :: 0 <= j < |schema[u].references| ==> schema[u].references[j].target in schema
  {
  }

  // With nothing left to restore, every row is exactly as prepared.
  lemma LoadingDone(schema: Schema, prepared: Rows, db: Rows)
    requires Loading(schema, prepared, db, schema.Keys, [])
    ensures forall t :: t in schema ==> RowsOf(db, t) == prepared[t]
  {
    hide Faithful;
    hide Cleared;
    forall t | t in schema
      ensures RowsOf(db, t) == prepared[t]
    {
      forall k | 0 <= k < |prepared[t]|
        ensures RowsOf(db, t)[k] == prepared[t][k]
      {
        var row, full := RowsOf(db, t)[k], prepared[t][k];
        assert Present(schema, schema[t], t, row, full, schema.Keys, []);
        forall c | c in row
          ensures row[c] == full[c]
        {
        }
        assert row == full;
      }
    }
  }

  // ---- the mandatory order ----

  // In an acyclic order, everything a table mandatorily refers to precedes it, itself
  // aside.
  lemma ParentsBefore(schema: Schema, order: seq<int>, i: nat, j: nat)
    requires ValidSchema(schema)
    requires Permutes(order, schema.Keys) && WaitedFirst(MandatoryGraph(schema), order)
    requires i < |order| && order[i] in schema && j < |schema[order[i]].references|
    requires !Optional(schema[order[i]], schema[order[i]].references[j])
    ensures var target := schema[order[i]].references[j].target; target in Members(order[..i]) || target == order[i]
  {
  }

  // Loading in this order, every mandatory reference of every row is ready when the row
  // comes.
  ghost predicate RowsInOrder(schema: Schema, prepared: Rows, order: seq<int>) {
    forall p, k, j :: MandatoryAt(schema, prepared, order, p, k, j) ==>
      RowReady(prepared, order[p], k, schema[order[p]].references[j], Members(order[..p]))
  }

  ghost predicate MandatoryAt(schema: Schema, prepared: Rows, order: seq<int>, p: int, k: int, j: int) {
    && 0 <= p < |order| && order[p] in schema && order[p] in prepared
    && 0 <= k < |prepared[order[p]]| && 0 <= j < |schema[order[p]].references|
    && !Optional(schema[order[p]], schema[order[p]].references[j])
  }

  // Rows that refer to their own table come after the rows they name, or name themselves.
  ghost predicate SelfParentsFirst(schema: Schema, prepared: Rows) {
    forall t, k, j :: t in schema && t in prepared && 0 <= k < |prepared[t]| && 0 <= j < |schema[t].references| &&
                      !Optional(schema[t], schema[t].references[j]) && schema[t].references[j].target == t ==>
      RowReady(prepared, t, k, schema[t].references[j], {})
  }

  // Without a cycle of mandatory references only those within a table are left to order.
  lemma OnlySelfReferences(schema: Schema, prepared: Rows, order: seq<int>)
    requires ValidSchema(schema) && ValidRows(schema, prepared)
    requires Permutes(order, schema.Keys) && WaitedFirst(MandatoryGraph(schema), order)
    ensures RowsInOrder(schema, prepared, order) <==> SelfParentsFirst(schema, prepared)
  {
    hide ValidRows;
    hide NamedUpTo;
    hide Enforced;
    hide Optional;
    forall p, k, j | MandatoryAt(schema, prepared, order, p, k, j)
      ensures schema[order[p]].references[j].target in Members(order[..p]) ||
              schema[order[p]].references[j].target == order[p]
      ensures order[p] !in Members(order[..p])
    {
      ParentsBefore(schema, order, p, j);
      NextTable(schema, order, p);
    }
    hide WaitedFirst;
    hide MandatoryGraph;
    hide ValidSchema;
    if RowsInOrder(schema, prepared, order) {
      forall t, k, j | t in schema && t in prepared && 0 <= k < |prepared[t]| && 0 <= j < |schema[t].references| &&
                       !Optional(schema[t], schema[t].references[j]) && schema[t].references[j].target == t
        ensures RowReady(prepared, t, k, schema[t].references[j], {})
      {
        assert t in order;
        var p :| 0 <= p < |order| && order[p] == t;
        assert MandatoryAt(schema, prepared, order, p, k, j);
      }
    }
    if SelfParentsFirst(schema, prepared) {
      forall p, k, j | MandatoryAt(schema, prepared, order, p, k, j)
        ensures RowReady(prepared, order[p], k, schema[order[p]].references[j], Members(order[..p]))
      {
        var t := order[p];
        if schema[t].references[j].target == t { assert RowReady(prepared, t, k, schema[t].references[j], {}); }
      }
    }
  }

  // So in an order that keeps them ready, they are ready in each state.
  lemma ReadyByOrder(schema: Schema, prepared: Rows, db: Rows, order: seq<int>, i: nat)
    requires ValidRows(schema, prepared) && RowsInOrder(schema, prepared, order) && i <= |order|
    requires forall t :: RowsOf(db, t) != [] ==> t in Members(order[..i]) || (i < |order| && t == order[i])
    ensures RowsReady(schema, prepared, db, Members(order[..i]))
  {
    assert schema.Keys == prepared.Keys;
    hide ValidRows;
    hide NamedUpTo;
    hide Enforced;
    hide Optional;
    forall t, k, j | t in schema && 0 <= k < |RowsOf(db, t)| && k < |prepared[t]| &&
                     0 <= j < |schema[t].references| && !Optional(schema[t], schema[t].references[j])
      ensures RowReady(prepared, t, k, schema[t].references[j], Members(order[..i]))
    {
      var p := Position(order, i, t);
      assert MandatoryAt(schema, prepared, order, p, k, j);
      assert Members(order[..p]) <= Members(order[..i]) by {
        forall u | u in Members(order[..p])
          ensures u in Members(order[..i])
        {
          assert order[..i][..p] == order[..p];
        }
      }
    }
  }

  lemma Position(order: seq<int>, i: nat, t: int) returns (p: nat)
    requires i <= |order| && (t in Members(order[..i]) || (i < |order| && t == order[i]))
    ensures p <= i && p < |order| && order[p] == t
  {
    if t in Members(order[..i]) {
      p :| 0 <= p < i && order[..i][p] == t;
    } else {
      p := i;
    }
  }

  // ---- a row that comes too early ----

  // The state right after row k of the table at position p.
  ghost predicate RowCame(schema: Schema, prepared: Rows, db: Rows, order: seq<int>, p: nat, k: nat)
    requires p < |order|
  {
    && |RowsOf(db, order[p])| == k + 1
    && (forall t :: RowsOf(db, t) != [] ==> t in Members(order[..p]) || t == order[p])
    && (exists entries :: Loading(schema, prepared, db, Members(order[..p]), entries))
  }

  ghost predicate RowsCame(schema: Schema, prepared: Rows, states: seq<Rows>, order: seq<int>, p: nat)
    requires p < |order| && order[p] in prepared
  {
    forall k :: 0 <= k < |prepared[order[p]]| ==> Came(schema, prepared, states, order, p, k)
  }

  ghost predicate Came(schema: Schema, prepared: Rows, states: seq<Rows>, order: seq<int>, p: nat, k: nat)
    requires p < |order|
  {
    exists s :: 0 <= s < |states| && RowCame(schema, prepared, states[s], order, p, k)
  }

  lemma RowsCameBefore(schema: Schema, prepared: Rows, states: seq<Rows>, more: seq<Rows>, order: seq<int>, p: nat)
    requires p < |order| && order[p] in prepared && states <= more && RowsCame(schema, prepared, states, order, p)
    ensures RowsCame(schema, prepared, more, order, p)
  {
    hide RowCame;
    forall k | 0 <= k < |prepared[order[p]]|
      ensures Came(schema, prepared, more, order, p, k)
    {
      assert Came(schema, prepared, states, order, p, k);
      var s :| 0 <= s < |states| && RowCame(schema, prepared, states[s], order, p, k);
      assert more[s] == states[s];
    }
  }

  lemma TooEarlyDangles(schema: Schema, prepared: Rows, db: Rows, order: seq<int>, p: nat, k: nat, j: nat)
    requires ValidSchema(schema) && ValidRows(schema, prepared) && Permutes(order, schema.Keys)
    requires MandatoryAt(schema, prepared, order, p, k, j) && RowCame(schema, prepared, db, order, p, k)
    requires !RowReady(prepared, order[p], k, schema[order[p]].references[j], Members(order[..p]))
    ensures !NothingDangles(schema, db)
  {
    hide Loading;
    hide Agrees;
    hide Names;
    hide ValidRow;
    hide Enforced;
    hide Optional;
    hide Permutes;
    var t := order[p];
    var f, row := schema[t].references[j], RowsOf(db, t)[k];
    assert ValidReference(schema, schema[t], f);
    hide ValidReference;
    var entries :| Loading(schema, prepared, db, Members(order[..p]), entries);
    AgreesAt(schema, prepared, db, Members(order[..p]), entries, t, k);
    MandatoryColumns(schema, schema[t], row, prepared[t][k], f);
    forall i | 0 <= i < |RowsOf(db, f.target)|
      ensures !Names(row, f, RowsOf(db, f.target)[i])
    {
      assert f.target == t && i <= k;
      AgreesAt(schema, prepared, db, Members(order[..p]), entries, t, i);
      SameNames(schema, t, f, row, RowsOf(db, t)[i], prepared[t][k], prepared[t][i]);
    }
    assert !Resolved(db, row, f);
  }

  // If no reference ever dangles, the order keeps them ready.
  lemma NeverTooEarly(schema: Schema, prepared: Rows, states: seq<Rows>, order: seq<int>)
    requires ValidSchema(schema) && ValidRows(schema, prepared) && Permutes(order, schema.Keys)
    requires forall p :: 0 <= p < |order| ==> order[p] in prepared && RowsCame(schema, prepared, states, order, p)
    requires forall s :: 0 <= s < |states| ==> NothingDangles(schema, states[s])
    ensures RowsInOrder(schema, prepared, order)
  {
    hide ValidSchema;
    hide ValidRows;
    hide Permutes;
    hide NothingDangles;
    hide RowCame;
    hide RowReady;
    forall p, k, j | MandatoryAt(schema, prepared, order, p, k, j)
      ensures RowReady(prepared, order[p], k, schema[order[p]].references[j], Members(order[..p]))
    {
      assert RowsCame(schema, prepared, states, order, p);
      assert Came(schema, prepared, states, order, p, k);
      var s :| 0 <= s < |states| && RowCame(schema, prepared, states[s], order, p, k);
      if !RowReady(prepared, order[p], k, schema[order[p]].references[j], Members(order[..p])) {
        TooEarlyDangles(schema, prepared, states[s], order, p, k, j);
        assert false;
      }
    }
  }

  // The rows whose primary key is the given one.
  ghost function Matching(t: Table, rows: seq<Row>, key: Row): set<int> {
    set k | 0 <= k < |rows| && Key(t, rows[k]) == key
  }

  lemma NothingMatches(t: Table, rows: seq<Row>, key: Row)
    requires rows == []
    ensures |Matching(t, rows, key)| == 0
  {
    assert Matching(t, rows, key) == {};
  }

  lemma MatchingStep(t: Table, rows: seq<Row>, key: Row, k: nat)
    requires k < |rows|
    ensures |Matching(t, rows[..k + 1], key)| == |Matching(t, rows[..k], key)| + if Key(t, rows[k]) == key then 1 else 0
  {
    var more, fewer := Matching(t, rows[..k + 1], key), Matching(t, rows[..k], key);
    forall i
      ensures i in more <==> i in fewer || (i == k && Key(t, rows[k]) == key)
    {
    }
    if Key(t, rows[k]) == key { assert more == fewer + {k}; } else { assert more == fewer; }
  }

  class Database {
    var tables: Rows
    ghost var states: seq<Rows>

    constructor ()
      ensures tables == map[] && states == []
    {
      tables, states := map[], [];
    }

    method Insert(t: int, row: Row)
      modifies this
      ensures tables == Inserted(old(tables), t, row)
      ensures states == old(states) + [tables]
    {
      tables := tables[t := RowsOf(tables, t) + [row]];
      states := states + [tables];
    }

    // UPDATE ... WHERE the primary key matches; returns the number of rows hit.
    method Update(schema: Schema, entry: Deferred) returns (count: nat)
      requires entry.table in schema
      modifies this
      ensures tables == Updated(schema, old(tables), entry)
      ensures states == old(states) + [tables]
      ensures count == |Matching(schema[entry.table], RowsOf(old(tables), entry.table), entry.key)|
    {
      hide Key;
      hide Matching;
      var t, rows := schema[entry.table], RowsOf(tables, entry.table);
      var result: seq<Row> := [];
      count := 0;
      NothingMatches(t, rows[..0], entry.key);
      for k := 0 to |rows|
        invariant tables == old(tables) && states == old(states)
        invariant |result| == k && forall i :: 0 <= i < k ==> result[i] == Restored(t, rows[i], entry)
        invariant count == |Matching(t, rows[..k], entry.key)|
      {
        MatchingStep(t, rows, entry.key, k);
        if Key(t, rows[k]) == entry.key {
          result := result + [rows[k] + entry.restore];
          count := count + 1;
        } else {
          result := result + [rows[k]];
        }
      }
      assert rows[..|rows|] == rows;
      hide Restored;
      assert result == Updated(schema, tables, entry)[entry.table];
      tables := tables[entry.table := result];
      states := states + [tables];
    }

    // Nulls and inserts the rows of one table.
    method LoadTable(schema: Schema, prepared: Rows, t: int, inserted: set<int>, entries: seq<Deferred>)
      returns (more: seq<Deferred>)
      requires ValidSchema(schema) && ValidRows(schema, prepared) && t in schema && t !in inserted
      requires Loading(schema, prepared, tables, inserted, entries) && RowsOf(tables, t) == []
      modifies this
      ensures Loading(schema, prepared, tables, inserted + {t}, more)
      ensures forall u :: u != t ==> RowsOf(tables, u) == RowsOf(old(tables), u)
      ensures old(states) <= states
      ensures |states| == |old(states)| + |prepared[t]|
      ensures forall s :: |old(states)| <= s < |states| ==>
                LoadedSo(schema, prepared, states[s], old(tables), t, inserted, more) &&
                |RowsOf(states[s], t)| == s - |old(states)| + 1
    {
      hide Loading;
      hide Present;
      hide Restores;
      hide Faithful;
      hide UniqueKeys;
      hide ValidReference;
      var table, source := schema[t], prepared[t];
      var rows: seq<Row> := [];
      more := entries;
      for k := 0 to |source|
        invariant unchanged(this)
        invariant |rows| == k
        invariant Loading(schema, prepared, tables, inserted, more)
        invariant forall i :: 0 <= i < k ==> Present(schema, table, t, rows[i], source[i], inserted, more)
      {
        var row, grown := DeferRow(t, table, source[k], inserted, more);
        EntriesFaithful(schema, prepared, t, k, more, grown);
        MoreEntries(schema, prepared, tables, inserted, more, grown);
        forall i | 0 <= i < k
          ensures Present(schema, table, t, rows[i], source[i], inserted, grown)
        {
          StillPresent(schema, table, t, rows[i], source[i], inserted, more, grown);
        }
        IsPresent(schema, table, t, row, source[k], inserted, grown);
        rows, more := rows + [row], grown;
      }
      for k := 0 to |source|
        invariant Loading(schema, prepared, tables, inserted, more)
        invariant |RowsOf(tables, t)| == k
        invariant forall u :: u != t ==> RowsOf(tables, u) == RowsOf(old(tables), u)
        invariant old(states) <= states && |states| == |old(states)| + k
        invariant forall s :: |old(states)| <= s < |states| ==>
                    LoadedSo(schema, prepared, states[s], old(tables), t, inserted, more) &&
                    |RowsOf(states[s], t)| == s - |old(states)| + 1
      {
        InsertStep(schema, prepared, tables, inserted, more, t, rows[k]);
        Insert(t, rows[k]);
      }
      TableComplete(schema, prepared, tables, inserted, more, t);
    }

    // The whole restore. It loses no reference; the result is exactly the prepared rows; no
    // reference with a nullable column dangles in any state; and no reference at all does
    // if and only if each row comes when its mandatory references are ready.
    method RestoreAll(schema: Schema, prepared: Rows) returns (ok: bool)
      requires tables == map[] && states == []
      requires ValidSchema(schema) && ValidRows(schema, prepared)
      modifies this
      ensures ok
      ensures forall t :: t in schema ==> RowsOf(tables, t) == prepared[t]
      ensures NoOptionalDangles(schema, prepared) ==>
                forall s :: 0 <= s < |states| ==> NoOptionalDangles(schema, states[s])
      ensures NothingDangles(schema, prepared) ==>
                ((forall s :: 0 <= s < |states| ==> NothingDangles(schema, states[s])) <==>
                 RowsInOrder(schema, prepared, LoadOrder(MandatoryGraph(schema), schema.Keys)))
    {
      hide Loading;
      hide Cyclic;
      hide LoadOrder;
      hide MandatoryGraph;
      hide Permutes;
      hide WaitedFirst;
      hide ValidSchema;
      hide ValidRows;
      hide NoOptionalDangles;
      hide NothingDangles;
      hide RowsInOrder;
      hide RowsReady;
      hide RowsCame;
      hide Updated;
      hide Key;
      var order := ComputeLoadOrder(MandatoryGraph(schema), schema.Keys);
      LoadOrderCorrect(MandatoryGraph(schema), schema.Keys);
      ghost var ordered := RowsInOrder(schema, prepared, order);
      var entries: seq<Deferred> := [];
      NothingLoaded(schema, prepared, order);
      for i := 0 to |order|
        invariant Loading(schema, prepared, tables, Members(order[..i]), entries)
        invariant OnlyLoaded(tables, order, i)
        invariant forall s :: 0 <= s < |states| ==> Sound(schema, prepared, states[s], ordered)
        invariant forall p :: 0 <= p < i ==> order[p] in prepared && RowsCame(schema, prepared, states, order, p)
      {
        var t := order[i];
        NextTable(schema, order, i);
        SameTables(schema, prepared, t);
        ghost var before, had := tables, states;
        entries := LoadTable(schema, prepared, t, Members(order[..i]), entries);
        forall s | 0 <= s < |states|
          ensures Sound(schema, prepared, states[s], ordered)
        {
          if |had| <= s {
            assert LoadedSo(schema, prepared, states[s], before, t, Members(order[..i]), entries);
            if ordered { ReadyByOrder(schema, prepared, states[s], order, i); }
            LoadingSound(schema, prepared, states[s], Members(order[..i]), entries, ordered);
          } else {
            assert states[s] == had[s];
          }
        }
        TableCame(schema, prepared, before, had, states, entries, order, i);
        forall p | 0 <= p < i
          ensures order[p] in prepared && RowsCame(schema, prepared, states, order, p)
        {
          RowsCameBefore(schema, prepared, had, states, order, p);
        }
      }
      AllLoaded(schema, order);
      ghost var loaded := states;
      for i := 0 to |entries|
        invariant Loading(schema, prepared, tables, schema.Keys, entries[i..])
        invariant OnlyLoaded(tables, order, |order|)
        invariant forall s :: 0 <= s < |states| ==> Sound(schema, prepared, states[s], ordered)
        invariant loaded <= states
      {
        assert entries[i..][0] == entries[i] && entries[i..][1..] == entries[i + 1..];
        UpdateStep(schema, prepared, tables, entries[i..]);
        OneMatch(schema, prepared, tables, entries[i..]);
        var count := Update(schema, entries[i]);
        if count != 1 { return false; }
        LoadedTables(schema, prepared, tables, entries[i + 1..], order);
        if ordered { ReadyByOrder(schema, prepared, tables, order, |order|); }
        LoadingSound(schema, prepared, tables, schema.Keys, entries[i + 1..], ordered);
      }
      assert entries[|entries|..] == [];
      LoadingDone(schema, prepared, tables);
      forall s | 0 <= s < |states|
        ensures NoOptionalDangles(schema, prepared) ==> NoOptionalDangles(schema, states[s])
        ensures ordered && NothingDangles(schema, prepared) ==> NothingDangles(schema, states[s])
      {
        assert Sound(schema, prepared, states[s], ordered);
      }
      if forall s :: 0 <= s < |states| ==> NothingDangles(schema, states[s]) {
        forall p | 0 <= p < |order|
          ensures order[p] in prepared && RowsCame(schema, prepared, states, order, p)
        {
          RowsCameBefore(schema, prepared, loaded, states, order, p);
        }
        NeverTooEarly(schema, prepared, states, order);
      }
      return true;
    }
  }

  // In particular, when the mandatory references between tables have no cycle, the order
  // keeps every reference ready exactly when rows follow those of their own table they name.
  lemma AcyclicOrder(schema: Schema, prepared: Rows)
    requires ValidSchema(schema) && ValidRows(schema, prepared) && !Cyclic(MandatoryGraph(schema), schema.Keys)
    ensures RowsInOrder(schema, prepared, LoadOrder(MandatoryGraph(schema), schema.Keys)) <==>
            SelfParentsFirst(schema, prepared)
  {
    hide LoadOrder;
    hide Cyclic;
    hide RowsInOrder;
    hide SelfParentsFirst;
    LoadOrderCorrect(MandatoryGraph(schema), schema.Keys);
    OnlySelfReferences(schema, prepared, LoadOrder(MandatoryGraph(schema), schema.Keys));
  }

  // A child before its parent: nothing dangles in the rows as prepared, but the child comes
  // too early.
  lemma ChildFirst(child: int, parent: int)
    requires child != parent
    ensures var schema := map[0 := Table({0, 1}, {}, {0}, [Reference([1], 0, [0])])];
            var rows := map[0 := [map[0 := Some(child), 1 := Some(parent)], map[0 := Some(parent), 1 := Some(parent)]]];
            && ValidSchema(schema) && ValidRows(schema, rows) && NothingDangles(schema, rows)
            && !SelfParentsFirst(schema, rows)
  {
    var f := Reference([1], 0, [0]);
    var schema := map[0 := Table({0, 1}, {}, {0}, [f])];
    var first, second: Row := map[0 := Some(child), 1 := Some(parent)], map[0 := Some(parent), 1 := Some(parent)];
    var rows := map[0 := [first, second]];
    ChildFirstValid(schema, rows, first, second, f);
    assert Names(first, f, second) && Names(second, f, second);
    assert f.columns[0] == 1 && f.targetColumns[0] == 0 && first[1] != first[0];
    assert !Names(first, f, first);
    assert Enforced(first, f) && !Optional(schema[0], f);
    assert RowsOf(rows, 0)[1] == second;
    assert !NamedUpTo(rows[0], 0, f);
    assert !RowReady(rows, 0, 0, schema[0].references[0], {});
  }

  lemma ChildFirstValid(schema: Schema, rows: Rows, first: Row, second: Row, f: Reference)
    requires f == Reference([1], 0, [0]) && schema == map[0 := Table({0, 1}, {}, {0}, [f])]
    requires first.Keys == second.Keys == {0, 1} && first[0] != second[0] && rows == map[0 := [first, second]]
    ensures ValidSchema(schema) && ValidRows(schema, rows)
  {
    assert Key(schema[0], first)[0] == first[0] && Key(schema[0], second)[0] == second[0];
    assert ValidReference(schema, schema[0], f);
  }

  lemma SameTables(schema: Schema, prepared: Rows, t: int)
    requires ValidRows(schema, prepared) && t in schema
    ensures t in prepared
  {
  }

  lemma TableCame(schema: Schema, prepared: Rows, before: Rows, had: seq<Rows>, states: seq<Rows>,
                  entries: seq<Deferred>, order: seq<int>, p: nat)
    requires p < |order| && order[p] in prepared && OnlyLoaded(before, order, p)
    requires |states| == |had| + |prepared[order[p]]|
    requires forall s :: |had| <= s < |states| ==>
               LoadedSo(schema, prepared, states[s], before, order[p], Members(order[..p]), entries) &&
               |RowsOf(states[s], order[p])| == s - |had| + 1
    ensures RowsCame(schema, prepared, states, order, p)
  {
    hide Loading;
    forall k | 0 <= k < |prepared[order[p]]|
      ensures Came(schema, prepared, states, order, p, k)
    {
      var s := |had| + k;
      assert LoadedSo(schema, prepared, states[s], before, order[p], Members(order[..p]), entries);
      assert RowCame(schema, prepared, states[s], order, p, k);
    }
  }

  lemma LoadedTables(schema: Schema, prepared: Rows, db: Rows, entries: seq<Deferred>, order: seq<int>)
    requires Loading(schema, prepared, db, schema.Keys, entries) && Members(order[..|order|]) == schema.Keys
    ensures OnlyLoaded(db, order, |order|)
  {
    hide Present;
    hide Faithful;
  }

  ghost predicate Sound(schema: Schema, prepared: Rows, db: Rows, ordered: bool) {
    && (NoOptionalDangles(schema, prepared) ==> NoOptionalDangles(schema, db))
    && (ordered && NothingDangles(schema, prepared) ==> NothingDangles(schema, db))
  }

  lemma LoadingSound(schema: Schema, prepared: Rows, db: Rows, inserted: set<int>, entries: seq<Deferred>,
                     ordered: bool)
    requires ValidSchema(schema) && ValidRows(schema, prepared) && Loading(schema, prepared, db, inserted, entries)
    requires ordered ==> schema.Keys <= prepared.Keys && RowsReady(schema, prepared, db, inserted)
    ensures Sound(schema, prepared, db, ordered)
  {
    hide Loading;
    hide RowsReady;
    hide NoOptionalDangles;
    hide NothingDangles;
    hide ValidSchema;
    hide ValidRows;
    if NoOptionalDangles(schema, prepared) { LoadingIsSound(schema, prepared, db, inserted, entries); }
    if ordered && NothingDangles(schema, prepared) { LoadingIsComplete(schema, prepared, db, inserted, entries); }
  }

  // Only the first i tables of the order have rows.
  ghost predicate OnlyLoaded(db: Rows, order: seq<int>, i: nat)
    requires i <= |order|
  {
    forall t :: RowsOf(db, t) != [] ==> t in Members(order[..i])
  }

  lemma NothingLoaded(schema: Schema, prepared: Rows, order: seq<int>)
    requires ValidRows(schema, prepared)
    ensures Members(order[..0]) == {}
    ensures Loading(schema, prepared, map[], {}, [])
    ensures OnlyLoaded(map[], order, 0)
  {
  }

  lemma NextTable(schema: Schema, order: seq<int>, i: nat)
    requires Permutes(order, schema.Keys) && i < |order|
    ensures order[i] in schema && order[i] !in Members(order[..i])
    ensures Members(order[..i + 1]) == Members(order[..i]) + {order[i]}
  {
    assert order[i] in order;
    assert order[..i + 1] == order[..i] + [order[i]];
    assert forall k :: 0 <= k < i ==> order[..i][k] != order[i];
  }

  lemma AllLoaded(schema: Schema, order: seq<int>)
    requires Permutes(order, schema.Keys)
    ensures Members(order[..|order|]) == schema.Keys
  {
    assert order[..|order|] == order;
    forall t
      ensures t in Members(order) <==> t in schema.Keys
    {
      assert t in order <==> t in schema.Keys;
    }
  }

  // The update of the first entry hits exactly one row.
  lemma OneMatch(schema: Schema, prepared: Rows, db: Rows, entries: seq<Deferred>)
    requires ValidSchema(schema) && ValidRows(schema, prepared)
    requires Loading(schema, prepared, db, schema.Keys, entries) && entries != []
    ensures entries[0].table in schema
    ensures |Matching(schema[entries[0].table], RowsOf(db, entries[0].table), entries[0].key)| == 1
  {
    hide Agrees;
    hide Covered;
    hide Cleared;
    hide Key;
    hide ValidReference;
    var entry := entries[0];
    assert Faithful(schema, prepared, entry);
    var t := schema[entry.table];
    var j :| 0 <= j < |prepared[entry.table]| && Restores(t, prepared[entry.table][j], entry);
    OnlyItsRow(schema, prepared, entry, j);
    var matches := Matching(t, RowsOf(db, entry.table), entry.key);
    forall k | 0 <= k < |RowsOf(db, entry.table)|
      ensures k in matches <==> k == j
    {
      assert Present(schema, t, entry.table, RowsOf(db, entry.table)[k], prepared[entry.table][k], schema.Keys,
        entries);
      SameKey(t, RowsOf(db, entry.table)[k], prepared[entry.table][k]);
    }
    assert matches == {j};
  }

  // A state while table t is being filled.
  ghost predicate LoadedSo(schema: Schema, prepared: Rows, db: Rows, before: Rows, t: int, inserted: set<int>,
                           entries: seq<Deferred>) {
    Loading(schema, prepared, db, inserted, entries) && forall u :: u != t ==> RowsOf(db, u) == RowsOf(before, u)
  }

  lemma IsPresent(schema: Schema, t: Table, name: int, row: Row, full: Row, inserted: set<int>, entries: seq<Deferred>)
    requires Agrees(t, row, full) && Covered(name, t, row, full, entries)
    requires forall j :: 0 <= j < |t.references| && t.references[j].target !in inserted ==>
               Cleared(t, row, t.references[j])
    ensures Present(schema, t, name, row, full, inserted, entries)
  {
  }

  lemma StillPresent(schema: Schema, t: Table, name: int, row: Row, full: Row, inserted: set<int>,
                     entries: seq<Deferred>, more: seq<Deferred>)
    requires Present(schema, t, name, row, full, inserted, entries) && entries <= more
    ensures Present(schema, t, name, row, full, inserted, more)
  {
  }

  lemma EntriesFaithful(schema: Schema, prepared: Rows, t: int, k: nat, entries: seq<Deferred>, more: seq<Deferred>)
    requires t in schema && t in prepared && k < |prepared[t]| && |entries| <= |more|
    requires forall e :: |entries| <= e < |more| ==> more[e].table == t && Restores(schema[t], prepared[t][k], more[e])
    ensures forall e :: |entries| <= e < |more| ==> Faithful(schema, prepared, more[e])
  {
  }
}
