/** The in-memory SQL engine with its rows and its table maps as objects: statements change rows in place,
    snapshots hold copies of them. */
module MemoryStore {
  import opened Sequences
  import opened SqlScanner
  import opened MemoryTables

  class Row {
    var fields: Fields

    constructor (fields: Fields)
      ensures this.fields == fields
    {
      this.fields := fields;
    }
  }

  ghost predicate Distinct(rows: seq<Row>) {
    forall i, j :: 0 <= i < j < |rows| ==> rows[i] != rows[j]
  }

  ghost function Values(rows: seq<Row>): (vs: seq<Fields>)
    reads rows
    ensures |vs| == |rows| && forall i :: 0 <= i < |rows| ==> vs[i] == rows[i].fields
  {
    seq(|rows|, i requires 0 <= i < |rows| reads rows => rows[i].fields)
  }

  /** Copies of rows: new objects with the same fields. */
  method CopyRows(rows: seq<Row>) returns (copies: seq<Row>)
    ensures fresh(copies) && Distinct(copies) && Values(copies) == Values(rows)
  {
    copies := [];
    for i := 0 to |rows|
      invariant |copies| == i && fresh(copies) && Distinct(copies)
      invariant forall k :: 0 <= k < i ==> copies[k].fields == rows[k].fields
    {
      var copy := new Row(rows[i].fields);
      copies := copies + [copy];
    }
  }

  /** The assignments of a SET clause, carried out one by one on the row itself. */
  method ApplySet(setClause: string, row: Row, ctx: Context, engine: Engine)
    modifies row
    ensures row.fields == AssignAll(old(row.fields), CutAll(Split(setClause, COMMA)), ctx, engine)
  {
    var assignments := ParseAssignments(setClause);
    assert assignments[0..] == assignments;
    for i := 0 to |assignments|
      invariant AssignAll(old(row.fields), assignments, ctx, engine) == AssignAll(row.fields, assignments[i..], ctx, engine)
    {
      assert assignments[i..][0] == assignments[i] && assignments[i..][1..] == assignments[i + 1..];
      var a := assignments[i];
      if a.valRaw != "" {
        match engine.value(a.valRaw, row.fields, ctx) {
          case None =>
          case Some(v) => row.fields := row.fields[Column(a.col) := v];
        }
      }
    }
  }

  lemma UpdatedRowCases(row: Fields, setClause: string, where: string, ctx: Context, engine: Engine)
    ensures UpdatedRow(row, setClause, where, ctx, engine) ==
      if Selected(where, row, ctx, engine) then AssignAll(row, CutAll(Split(setClause, COMMA)), ctx, engine) else row
  {
  }

  lemma ChangedIs(row: Fields, setClause: string, where: string, ctx: Context, engine: Engine)
    ensures Changed(setClause, ctx, engine)(row) == AssignAll(row, CutAll(Split(setClause, COMMA)), ctx, engine)
    ensures Chosen(where, ctx, engine)(row) == Selected(where, row, ctx, engine) == !Spared(where, ctx, engine)(row)
  {
  }

  /** The UPDATE loop: the selected rows are changed in place, and reported. */
  method UpdateInPlace(rows: seq<Row>, setClause: string, where: string, ctx: Context, engine: Engine)
    returns (changed: seq<Fields>)
    requires Distinct(rows)
    modifies rows
    ensures Values(rows) == UpdatedRows(old(Values(rows)), setClause, where, ctx, engine)
    ensures changed == Map(Filter(old(Values(rows)), Chosen(where, ctx, engine)), Changed(setClause, ctx, engine))
  {
    hide AssignAll, Selected, UpdatedRow, Split, CutAll, Filter, Map, Changed, Chosen, Spared;
    ghost var vs, p, f := Values(rows), Chosen(where, ctx, engine), Changed(setClause, ctx, engine);
    changed := [];
    Nothing(p, f);
    for i := 0 to |rows|
      invariant forall k :: 0 <= k < i ==>
        rows[k].fields == UpdatedRow(vs[k], setClause, where, ctx, engine)
      invariant forall k :: i <= k < |rows| ==> rows[k].fields == vs[k]
      invariant changed == Map(Filter(vs[..i], p), f)
    {
      UpdatedRowCases(rows[i].fields, setClause, where, ctx, engine);
      ChangedIs(vs[i], setClause, where, ctx, engine);
      OneMore(vs, i, p, f);
      if Selected(where, rows[i].fields, ctx, engine) {
        ApplySet(setClause, rows[i], ctx, engine);
        changed := changed + [rows[i].fields];
      }
    }
    assert vs[..|rows|] == vs;
  }

  lemma Nothing(p: Fields -> bool, f: Fields -> Fields)
    ensures Filter([], p) == [] == Map(Filter([], p), f)
  {
  }

  lemma OneMore(vs: seq<Fields>, i: nat, p: Fields -> bool, f: Fields -> Fields)
    requires i < |vs|
    ensures Filter(vs[..i + 1], p) == Filter(vs[..i], p) + if p(vs[i]) then [vs[i]] else []
    ensures Map(Filter(vs[..i + 1], p), f) == Map(Filter(vs[..i], p), f) + if p(vs[i]) then [f(vs[i])] else []
  {
    assert vs[..i + 1] == vs[..i] + [vs[i]];
    FilterSnoc(vs[..i], vs[i], p);
    if p(vs[i]) {
      MapSnoc(Filter(vs[..i], p), vs[i], f);
    }
  }

  lemma RowMore(rows: seq<Row>, row: Row)
    requires Distinct(rows) && row !in rows
    ensures Distinct(rows + [row]) && Values(rows + [row]) == Values(rows) + [row.fields]
  {
  }

  lemma NoRows()
    ensures Distinct([]) && Values([]) == []
  {
  }

  /** A row of a list without repetitions is not among those before it. */
  lemma RowNotBefore(rows: seq<Row>, i: nat)
    requires Distinct(rows) && i < |rows|
    ensures rows[i] !in rows[..i] && rows[..i + 1] == rows[..i] + [rows[i]]
  {
  }

  /** The DELETE loop: the rows that stay, the same objects in the same order, and the fields of the others. */
  method Remaining(rows: seq<Row>, where: string, ctx: Context, engine: Engine)
    returns (remaining: seq<Row>, removed: seq<Fields>)
    requires Distinct(rows)
    ensures Values(remaining) == Filter(Values(rows), Spared(where, ctx, engine))
    ensures Distinct(remaining) && forall r :: r in remaining ==> r in rows
    ensures removed == Filter(Values(rows), Chosen(where, ctx, engine))
  {
    hide Selected, Filter, Map, Chosen, Spared, Distinct, Values;
    remaining, removed := [], [];
    ghost var vs, p, q, f := Values(rows), Spared(where, ctx, engine), Chosen(where, ctx, engine), (r: Fields) => r;
    Nothing(p, f);
    Nothing(q, f);
    NoRows();
    for i := 0 to |rows|
      invariant Values(remaining) == Filter(vs[..i], p)
      invariant Distinct(remaining) && forall r :: r in remaining ==> r in rows[..i]
      invariant removed == Filter(vs[..i], q)
    {
      RowNotBefore(rows, i);
      OneMore(vs, i, p, f);
      OneMore(vs, i, q, f);
      ChangedIs(vs[i], "", where, ctx, engine);
      if Selected(where, rows[i].fields, ctx, engine) {
        removed := removed + [rows[i].fields];
      } else {
        RowMore(remaining, rows[i]);
        remaining := remaining + [rows[i]];
      }
    }
    assert vs[..|rows|] == vs;
  }

  /** A SELECT of all columns: the rows a WHERE clause chooses, up to a limit. */
  method Choose(rows: seq<Row>, where: string, limit: Option<nat>, ctx: Context, engine: Engine)
    returns (chosen: seq<Fields>)
    ensures chosen == Limited(Filter(Values(rows), Chosen(where, ctx, engine)), limit)
  {
    hide Selected, Filter, Map, Chosen, Spared;
    chosen := [];
    ghost var vs, p, f := Values(rows), Chosen(where, ctx, engine), (r: Fields) => r;
    Nothing(p, f);
    for i := 0 to |rows|
      invariant chosen == Filter(vs[..i], p)
    {
      OneMore(vs, i, p, f);
      ChangedIs(vs[i], "", where, ctx, engine);
      if Selected(where, rows[i].fields, ctx, engine) {
        chosen := chosen + [rows[i].fields];
      }
    }
    assert vs[..|rows|] == vs;
    if limit.Some? {
      chosen := Take(chosen, limit.value);
    }
  }

  /** The search an INSERT makes before it adds a row. */
  method FindConflict(table: string, rows: seq<Row>, newRow: Row) returns (conflictIdx: int)
    ensures conflictIdx == FirstConflict(table, Values(rows), newRow.fields)
  {
    var i := 0;
    ghost var vs := Values(rows);
    assert vs[0..] == vs;
    while i < |rows|
      invariant 0 <= i <= |rows|
      invariant var k := FirstConflict(table, vs[i..], newRow.fields);
        FirstConflict(table, vs, newRow.fields) == if k == -1 then -1 else k + i
    {
      assert vs[i..][0] == rows[i].fields && vs[i..][1..] == vs[i + 1..];
      if Conflicts(table, rows[i].fields, newRow.fields) {
        return i;
      }
      i := i + 1;
    }
    return -1;
  }

  /** Every row object stands at one place of one table only, and all of them are in `repr`. */
  ghost predicate Separate(tables: map<string, seq<Row>>, repr: set<Row>) {
    && (forall t, r :: t in tables && r in tables[t] ==> r in repr)
    && (forall t :: t in tables ==> Distinct(tables[t]))
    && (forall t, u, r :: t in tables && u in tables && r in tables[t] && r in tables[u] ==> t == u)
  }

  /** A row of one table is in no other, and nowhere else in its own. */
  lemma OnePlace(tables: map<string, seq<Row>>, repr: set<Row>, name: string, i: nat)
    requires Separate(tables, repr) && name in tables && i < |tables[name]|
    ensures tables[name][i] in repr
    ensures forall t :: t in tables && t != name ==> tables[name][i] !in tables[t]
    ensures forall k :: 0 <= k < |tables[name]| && k != i ==> tables[name][k] != tables[name][i]
  {
    assert tables[name][i] in tables[name];
  }

  /** A copy of every row of every table. */
  method CopyTables(tables: map<string, seq<Row>>) returns (copy: map<string, seq<Row>>, ghost made: set<Row>)
    ensures copy.Keys == tables.Keys && fresh(made) && Separate(copy, made)
    ensures forall t :: t in tables ==> Values(copy[t]) == Values(tables[t])
  {
    copy := map[];
    made := {};
    var names := tables.Keys;
    while names != {}
      invariant names <= tables.Keys && copy.Keys == tables.Keys - names
      invariant fresh(made) && forall r :: r in made ==> allocated(r)
      invariant Separate(copy, made)
      invariant forall t :: t in copy ==> Values(copy[t]) == Values(tables[t])
      decreases names
    {
      var name :| name in names;
      var copies := CopyRows(tables[name]);
      assert forall r :: r in copies ==> r !in made;
      made := made + set r | r in copies;
      copy := copy[name := copies];
      names := names - {name};
    }
  }

  /** The map from table names to lists of rows, and the rows it may hold. */
  class TableMap {
    var rows: map<string, seq<Row>>
    ghost var repr: set<Row>

    ghost predicate Valid()
      reads this
    {
      Separate(rows, repr)
    }

    ghost function Contents(): (vs: map<string, seq<Fields>>)
      requires Valid()
      reads this, repr
      ensures vs.Keys == rows.Keys && forall t :: t in rows ==> vs[t] == Values(rows[t])
    {
      map t | t in rows :: Values(rows[t])
    }

    constructor ()
      ensures Valid() && repr == {} && Contents() == map[]
    {
      rows := map[];
      repr := {};
    }

    /** A copy of every row of every table. */
    constructor CopyOf(tables: TableMap)
      requires tables.Valid()
      ensures Valid() && fresh(repr) && Contents() == old(tables.Contents())
    {
      hide Distinct, Separate, Values;
      ghost var wanted := tables.Contents();
      var copy, made := CopyTables(tables.rows);
      assert forall t :: t in copy ==> Values(copy[t]) == wanted[t];
      rows := copy;
      repr := made;
    }

    /** A table that is asked for exists from then on. */
    method Get(name: string) returns (list: seq<Row>)
      requires Valid()
      modifies this
      ensures Valid() && repr == old(repr)
      ensures name in rows && list == rows[name] && Distinct(list) && forall r :: r in list ==> r in repr
      ensures rows == if name in old(rows) then old(rows) else old(rows)[name := []]
      ensures Contents() == Listed(old(Contents()), name)
    {
      if name !in rows {
        rows := rows[name := []];
      }
      list := rows[name];
    }

    /** Gives a table another list of rows, taken from the table itself or new. */
    method Set(name: string, list: seq<Row>)
      requires Valid() && name in rows && Distinct(list)
      requires forall r :: r in list ==> r in rows[name] || r !in repr
      modifies this
      ensures Valid() && repr == old(repr) + (set r | r in list)
      ensures Contents() == old(Contents())[name := Values(list)]
      ensures rows == old(rows)[name := list]
    {
      repr := repr + set r | r in list;
      rows := rows[name := list];
    }

    /** Changes rows of one table in place: the other tables keep their contents. */
    method ChangeInPlace(name: string, setClause: string, where: string, ctx: Context, engine: Engine)
      returns (changed: seq<Fields>)
      requires Valid() && name in rows
      modifies repr
      ensures Valid()
      ensures Contents() ==
        old(Contents())[name := UpdatedRows(old(Contents())[name], setClause, where, ctx, engine)]
      ensures changed ==
        Map(Filter(old(Contents())[name], Chosen(where, ctx, engine)), Changed(setClause, ctx, engine))
    {
      hide UpdatedRows, UpdatedRow, Map, Filter, Chosen, Changed;
      ghost var before := Contents();
      changed := UpdateInPlace(rows[name], setClause, where, ctx, engine);
      forall t | t in rows && t != name ensures Values(rows[t]) == before[t] {
        assert before[t] == old(Values(rows[t]));
        forall i | 0 <= i < |rows[t]| ensures rows[t][i].fields == old(rows[t][i].fields) {
          assert rows[t][i] in rows[t] && rows[t][i] !in rows[name];
        }
      }
    }

    /** `Object.assign` on one row of a table. */
    method Merge(name: string, i: nat, extra: Fields)
      requires Valid() && name in rows && i < |rows[name]|
      modifies repr
      ensures Valid()
      ensures Contents() == old(Contents())[name := old(Contents())[name][i := old(Contents())[name][i] + extra]]
      ensures rows[name][i].fields == old(rows[name][i].fields) + extra
    {
      hide Separate, Distinct;
      ghost var before := Contents();
      var row := rows[name][i];
      OnePlace(rows, repr, name, i);
      row.fields := row.fields + extra;
      forall t | t in rows && t != name ensures Values(rows[t]) == before[t] {
        assert before[t] == old(Values(rows[t]));
      }
      assert Values(rows[name]) == before[name][i := before[name][i] + extra];
    }

    method Append(name: string, newRow: Row)
      requires Valid() && name in rows && newRow !in repr
      modifies this
      ensures Valid() && repr == old(repr) + {newRow}
      ensures Contents() == old(Contents())[name := old(Contents())[name] + [newRow.fields]]
    {
      var list := rows[name];
      assert Values(list + [newRow]) == Values(list) + [newRow.fields];
      Set(name, list + [newRow]);
    }

    method Replace(name: string, i: nat, newRow: Row)
      requires Valid() && name in rows && newRow !in repr && i < |rows[name]|
      modifies this
      ensures Valid() && repr == old(repr) + {newRow}
      ensures Contents() == old(Contents())[name := old(Contents())[name][i := newRow.fields]]
    {
      var list := rows[name];
      assert list[i := newRow][i] == newRow;
      assert Values(list[i := newRow]) == Values(list)[i := newRow.fields];
      Set(name, list[i := newRow]);
    }

    method Update(name: string, setClause: string, where: string, ctx: Context, engine: Engine)
      returns (changed: seq<Fields>)
      requires Valid()
      modifies this, repr
      ensures Valid() && repr == old(repr)
      ensures var ts := Listed(old(Contents()), name);
        && Contents() == ts[name := UpdatedRows(ts[name], setClause, where, ctx, engine)]
        && changed == Map(Filter(ts[name], Chosen(where, ctx, engine)), Changed(setClause, ctx, engine))
    {
      hide UpdatedRows, Separate, Map, Filter, Chosen, Changed;
      var list := Get(name);
      changed := ChangeInPlace(name, setClause, where, ctx, engine);
    }

    method Delete(name: string, where: string, ctx: Context, engine: Engine) returns (removed: seq<Fields>)
      requires Valid()
      modifies this
      ensures Valid() && repr == old(repr)
      ensures var ts := Listed(old(Contents()), name);
        && Contents() == ts[name := Filter(ts[name], Spared(where, ctx, engine))]
        && removed == Filter(ts[name], Chosen(where, ctx, engine))
    {
      hide Filter, Spared, Chosen;
      var list := Get(name);
      var remaining: seq<Row>;
      remaining, removed := Remaining(list, where, ctx, engine);
      Set(name, remaining);
    }

    method Select(name: string, where: string, limit: Option<nat>, ctx: Context, engine: Engine)
      returns (chosen: seq<Fields>)
      requires Valid()
      modifies this
      ensures Valid() && repr == old(repr) && Contents() == Listed(old(Contents()), name)
      ensures chosen == Limited(Filter(Listed(old(Contents()), name)[name], Chosen(where, ctx, engine)), limit)
    {
      hide Filter, Chosen, Limited;
      var list := Get(name);
      chosen := Choose(list, where, limit, ctx, engine);
    }

    method Insert(name: string, newRow: Row, mode: OnConflict) returns (returned: Fields)
      requires Valid() && newRow !in repr
      modifies this, repr
      ensures Valid() && repr <= old(repr) + {newRow}
      ensures var ts := Listed(old(Contents()), name);
        && Contents() == ts[name := InsertRow(name, ts[name], old(newRow.fields), mode)]
        && returned == InsertedRow(name, ts[name], old(newRow.fields), mode)
    {
      hide Conflicts, FirstConflict, Separate, InsertRow, InsertedRow, Listed, Distinct, Values;
      var list := Get(name);
      var conflictIdx := FindConflict(name, list, newRow);
      InsertRowCases(name, Values(list), newRow.fields, mode);
      returned := newRow.fields;
      if conflictIdx >= 0 {
        match mode {
          case DoNothing => returned := list[conflictIdx].fields;
          case DoUpdate =>
            Merge(name, conflictIdx, newRow.fields);
            returned := list[conflictIdx].fields;
          case Unhandled => Replace(name, conflictIdx, newRow);
        }
      } else {
        Append(name, newRow);
      }
    }

    method InsertNew(name: string, fields: Fields, mode: OnConflict) returns (returned: Fields)
      requires Valid()
      modifies this, repr
      ensures Valid() && fresh(repr - old(repr))
      ensures var ts := Listed(old(Contents()), name);
        && Contents() == ts[name := InsertRow(name, ts[name], fields, mode)]
        && returned == InsertedRow(name, ts[name], fields, mode)
    {
      hide InsertRow, InsertedRow, Separate, Listed;
      ghost var before := Contents();
      var newRow := new Row(fields);
      assert Contents() == before;
      returned := Insert(name, newRow, mode);
    }

    method Drop(names: seq<string>)
      requires Valid()
      modifies this
      ensures Valid() && repr == old(repr)
      ensures Contents() == Without(old(Contents()), names)
    {
      assert names[0..] == names;
      for i := 0 to |names|
        invariant Valid() && repr == old(repr)
        invariant Without(old(Contents()), names) == Without(Contents(), names[i..])
      {
        assert names[i..][0] == names[i] && names[i..][1..] == names[i + 1..];
        ghost var before := Contents();
        rows := rows - {names[i]};
        assert Contents() == before - {names[i]};
      }
    }
  }

  datatype Snapshot = Snapshot(tables: TableMap, serialCounters: map<string, nat>)

  class MemoryPostgresStore {
    var tables: TableMap
    var serialCounters: map<string, nat>
    var snapshotStack: seq<Snapshot>
    const engine: Engine
    ghost var repr: set<object>

    ghost predicate Owns(m: TableMap)
      reads this, repr
    {
      m in repr && m.repr <= repr && m.Valid()
    }

    /** No map and no row is shared between the live tables and a snapshot, or between two snapshots. */
    ghost predicate Valid()
      reads this, repr
    {
      && Owns(tables)
      && (forall k :: 0 <= k < |snapshotStack| ==> Owns(snapshotStack[k].tables))
      && (forall k :: 0 <= k < |snapshotStack| ==> Apart(tables, snapshotStack[k].tables))
      && (forall k, l :: 0 <= k < l < |snapshotStack| ==> Apart(snapshotStack[k].tables, snapshotStack[l].tables))
    }

    ghost function Live(): View
      requires Valid()
      reads this, repr
    {
      View(tables.Contents(), serialCounters)
    }

    ghost function Saved(): (vs: seq<View>)
      requires Valid()
      reads this, repr
      ensures |vs| == |snapshotStack|
      ensures forall k :: 0 <= k < |vs| ==>
        vs[k] == View(snapshotStack[k].tables.Contents(), snapshotStack[k].serialCounters)
    {
      seq(|snapshotStack|, k requires Valid() && 0 <= k < |snapshotStack| reads this, repr =>
        View(snapshotStack[k].tables.Contents(), snapshotStack[k].serialCounters))
    }

    ghost function Current(): StoreView
      requires Valid()
      reads this, repr
    {
      StoreView(Live(), Saved())
    }

    constructor (engine: Engine)
      ensures Valid() && fresh(repr) && this.engine == engine
      ensures Current() == StoreView(View(map[], map[]), [])
    {
      var empty := new TableMap();
      tables := empty;
      serialCounters := map[];
      snapshotStack := [];
      this.engine := engine;
      repr := {empty};
    }

    /** Pushing a snapshot that shares nothing with the store. */
    method PushSnapshot(snap: Snapshot)
      requires Valid() && snap.tables.Valid()
      requires snap.tables !in repr && snap.tables.repr !! repr
      modifies this`snapshotStack, this`repr
      ensures Valid() && repr == old(repr) + {snap.tables} + snap.tables.repr
      ensures Live() == old(Live())
      ensures Saved() == old(Saved()) + [View(snap.tables.Contents(), snap.serialCounters)]
    {
      hide Separate;
      ghost var stack := snapshotStack;
      snapshotStack := snapshotStack + [snap];
      repr := repr + {snap.tables} + snap.tables.repr;
      assert forall k :: 0 <= k < |stack| ==> snapshotStack[k] == stack[k];
    }

    method TakeSnapshot() returns (snap: Snapshot)
      requires Valid()
      ensures Valid() && snap.tables.Valid() && fresh(snap.tables) && fresh(snap.tables.repr)
      ensures Live() == old(Live()) && Saved() == old(Saved())
      ensures View(snap.tables.Contents(), snap.serialCounters) == old(Live())
    {
      hide Separate, Apart;
      var snapTables := new TableMap.CopyOf(tables);
      snap := Snapshot(snapTables, serialCounters);
    }

    method BeginTransaction()
      requires Valid()
      modifies this
      ensures Valid() && fresh(repr - old(repr)) && Current() == Exec(old(Current()), Begin, engine)
    {
      hide Exec, Valid, Live, Saved;
      ExecBegins(Current(), engine);
      var snap := TakeSnapshot();
      PushSnapshot(snap);
    }

    method CommitTransaction()
      requires Valid()
      modifies this
      ensures Valid() && repr == old(repr) && Current() == Exec(old(Current()), Commit, engine)
    {
      hide Apply, Separate;
      if snapshotStack != [] {
        snapshotStack := snapshotStack[..|snapshotStack| - 1];
      }
    }

    method RollbackTransaction()
      requires Valid()
      modifies this
      ensures Valid() && repr == old(repr) && Current() == Exec(old(Current()), Rollback, engine)
    {
      hide Apply, Separate;
      if snapshotStack != [] {
        var lastSnap := snapshotStack[|snapshotStack| - 1];
        snapshotStack := snapshotStack[..|snapshotStack| - 1];
        tables := lastSnap.tables;
        serialCounters := lastSnap.serialCounters;
      }
    }

    method CreateTable(table: string)
      requires Valid()
      modifies tables
      ensures Valid() && Saved() == old(Saved())
      ensures Live() == Apply(old(Live()), Statement.CreateTable(table), engine)
    {
      hide Separate;
      var _ := tables.Get(table);
    }

    method DropTables(names: seq<string>)
      requires Valid()
      modifies tables
      ensures Valid() && Saved() == old(Saved())
      ensures Live() == Apply(old(Live()), Statement.DropTables(names), engine)
    {
      hide Separate;
      tables.Drop(names);
    }

    method NextSerial(table: string) returns (next: nat)
      modifies this`serialCounters
      ensures next == Serial(old(serialCounters), table)
      ensures next == if table in old(serialCounters) then old(serialCounters)[table] + 1 else 1
      ensures serialCounters == old(serialCounters)[table := next]
    {
      next := (if table in serialCounters then serialCounters[table] else 0) + 1;
      serialCounters := serialCounters[table := next];
    }

    method NewSerial(table: string) returns (serial: nat)
      requires Valid()
      modifies this`serialCounters
      ensures Valid() && Saved() == old(Saved()) && Live().tables == old(Live().tables)
      ensures serial == if table == "mailbox" then Serial(old(Live().counters), table) else 0
      ensures Live().counters ==
        if table == "mailbox" then old(Live().counters)[table := serial] else old(Live().counters)
    {
      hide Separate, Apart, Serial;
      serial := 0;
      if table == "mailbox" {
        serial := NextSerial(table);
      }
    }

    /** A new row goes to the live tables; no snapshot can hold it. */
    method Place(table: string, fields: Fields, mode: OnConflict) returns (returned: Fields)
      requires Valid()
      modifies this`repr, tables, tables.repr
      ensures Valid() && fresh(repr - old(repr)) && Saved() == old(Saved())
      ensures Live().counters == old(Live().counters)
      ensures var ts := Listed(old(Live().tables), table);
        && Live().tables == ts[table := InsertRow(table, ts[table], fields, mode)]
        && returned == InsertedRow(table, ts[table], fields, mode)
    {
      hide Separate, InsertRow, InsertedRow, Listed;
      returned := tables.InsertNew(table, fields, mode);
      repr := repr + tables.repr;
    }

    /** Reports the row, of which RETURNING shows columns. */
    method Insert(table: string, values: Fields, mode: OnConflict, ctx: Context) returns (result: seq<Fields>)
      requires Valid()
      modifies this`repr, this`serialCounters, tables, tables.repr
      ensures Valid() && fresh(repr - old(repr)) && Saved() == old(Saved())
      ensures Live() == Apply(old(Live()), Statement.Insert(table, values, mode, ctx), engine)
      ensures result == Reply(old(Live()), Statement.Insert(table, values, mode, ctx), engine)
    {
      hide Valid, Live, Saved, NewRow, InsertRow, InsertedRow, Listed, Apply, Reply;
      ghost var before := Live();
      var serial := NewSerial(table);
      var returned := Place(table, NewRow(table, serial, values, ctx.now), mode);
      ApplyInsert(before, table, values, mode, ctx, serial, Live(), engine);
      return [returned];
    }

    /** Reports the rows changed; their number is the row count. */
    method Update(table: string, setClause: string, where: string, ctx: Context) returns (result: seq<Fields>)
      requires Valid()
      modifies tables, tables.repr
      ensures Valid() && Saved() == old(Saved())
      ensures Live() == Apply(old(Live()), Statement.Update(table, setClause, where, ctx), engine)
      ensures result == Reply(old(Live()), Statement.Update(table, setClause, where, ctx), engine)
    {
      hide Separate, UpdatedRows, Map, Filter, Chosen, Changed;
      result := tables.Update(table, setClause, where, ctx, engine);
    }

    method Delete(table: string, where: string, ctx: Context) returns (result: seq<Fields>)
      requires Valid()
      modifies tables
      ensures Valid() && Saved() == old(Saved())
      ensures Live() == Apply(old(Live()), Statement.Delete(table, where, ctx), engine)
      ensures result == Reply(old(Live()), Statement.Delete(table, where, ctx), engine)
    {
      hide Separate, Filter, Spared, Chosen;
      result := tables.Delete(table, where, ctx, engine);
    }

    method Select(table: string, where: string, limit: Option<nat>, ctx: Context) returns (result: seq<Fields>)
      requires Valid()
      modifies tables
      ensures Valid() && Saved() == old(Saved())
      ensures Live() == Apply(old(Live()), Statement.Select(table, where, limit, ctx), engine)
      ensures result == Reply(old(Live()), Statement.Select(table, where, limit, ctx), engine)
    {
      hide Separate, Filter, Chosen, Limited;
      result := tables.Select(table, where, limit, ctx, engine);
    }

    method ExecuteSingle(c: Command) returns (result: seq<Fields>)
      requires Valid()
      modifies this, repr
      ensures Valid() && fresh(repr - old(repr)) && Current() == Exec(old(Current()), c, engine)
      ensures result == Result(old(Current()), c, engine)
    {
      hide Apply, Reply, Separate, Apart;
      result := [];
      match c {
        case Begin => BeginTransaction();
        case Commit => CommitTransaction();
        case Rollback => RollbackTransaction();
        case Execute(stmt) =>
          match stmt {
            case CreateTable(table) =>
              CreateTable(table);
              NoReply(old(Live()), stmt, engine);
            case DropTables(names) =>
              DropTables(names);
              NoReply(old(Live()), stmt, engine);
            case Insert(table, values, mode, ctx) => result := Insert(table, values, mode, ctx);
            case Update(table, setClause, where, ctx) => result := Update(table, setClause, where, ctx);
            case Delete(table, where, ctx) => result := Delete(table, where, ctx);
            case Select(table, where, limit, ctx) => result := Select(table, where, limit, ctx);
          }
      }
    }

    /** MAIN: every run of commands, in any order, does what the values say, and never lets a row be shared
        between the live tables and a snapshot or between two snapshots. The result is the last command's. */
    method ExecuteAll(cs: seq<Command>) returns (lastResult: seq<Fields>)
      requires Valid()
      modifies this, repr
      ensures Valid() && fresh(repr - old(repr)) && Current() == ExecAll(old(Current()), cs, engine)
      ensures lastResult == LastResult(old(Current()), cs, engine)
    {
      hide Exec, Result, Valid, Current;
      lastResult := [];
      ghost var start := Current();
      ExecNothing(start, engine);
      for i := 0 to |cs|
        invariant Valid() && fresh(repr - old(repr))
        invariant Current() == ExecAll(start, cs[..i], engine)
        invariant lastResult == LastResult(start, cs[..i], engine)
      {
        assert cs[..i + 1] == cs[..i] + [cs[i]];
        ExecMore(start, cs[..i], cs[i], engine);
        lastResult := ExecuteSingle(cs[i]);
      }
      assert cs[..|cs|] == cs;
    }
  }

  ghost predicate Apart(a: TableMap, b: TableMap)
    reads a, b
  {
    a != b && a.repr !! b.repr
  }
}
