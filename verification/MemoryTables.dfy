/** What the in-memory SQL engine's statements do to its tables, as values, and what nested transactions
    mean. How an SQL text becomes a statement, and how a token becomes a value, is left to an `Engine`. */
module MemoryTables {
  import opened Sequences
  import opened SqlScanner
  import opened WhereEvaluator

  datatype Value = Null | Num(n: int) | Str(s: string)

  type Fields = map<string, Value>

  /** The parameters and the time a statement is executed with. */
  datatype Context = Context(params: seq<Value>, now: Value)

  /** `holds` decides a single predicate of a row; `value` is what a token of an assignment evaluates to in
      a row, or nothing when the token is not understood and the assignment is skipped. */
  datatype Engine = Engine(holds: (string, Fields, Context) -> bool, value: (string, Fields, Context) -> Option<Value>)

  datatype OnConflict = DoNothing | DoUpdate | Unhandled

  datatype Statement =
    | CreateTable(table: string)
    | DropTables(names: seq<string>)
    | Insert(table: string, values: Fields, mode: OnConflict, ctx: Context)
    | Update(table: string, setClause: string, where: string, ctx: Context)
    | Delete(table: string, where: string, ctx: Context)
    | Select(table: string, where: string, limit: Option<nat>, ctx: Context)

  datatype Command = Begin | Commit | Rollback | Execute(stmt: Statement)

  datatype View = View(tables: map<string, seq<Fields>>, counters: map<string, nat>)

  /** The live tables, and the snapshots of the transactions still open, oldest first. */
  datatype StoreView = StoreView(live: View, stack: seq<View>)

  // ---------------------------------------------------------------------------
  // Rows
  // ---------------------------------------------------------------------------

  function Field(row: Fields, col: string): Option<Value> {
    if col in row then Some(row[col]) else None
  }

  predicate SameOn(a: Fields, b: Fields, cols: seq<string>) {
    forall i :: 0 <= i < |cols| ==> Field(a, cols[i]) == Field(b, cols[i])
  }

  /** The engine's own idea of which rows collide, table by table. */
  predicate Conflicts(table: string, row: Fields, newRow: Fields) {
    if table == "users" then
      SameOn(row, newRow, ["id"]) || SameOn(row, newRow, ["username"]) || SameOn(row, newRow, ["email"])
    else if table == "rooms" then SameOn(row, newRow, ["id"])
    else if table == "schema_migrations" then SameOn(row, newRow, ["version"])
    else if table == "user_devices" then SameOn(row, newRow, ["user_id", "device_id"])
    else if table == "signed_prekeys" || table == "one_time_prekeys" then
      SameOn(row, newRow, ["user_id", "device_id", "key_id"])
    else if table == "message_deliveries" || table == "mailbox" then SameOn(row, newRow, ["message_id"])
    else if table == "refresh_tokens" then SameOn(row, newRow, ["token_hash"])
    else false
  }

  function FirstConflict(table: string, rows: seq<Fields>, newRow: Fields): (i: int)
    ensures -1 <= i < |rows|
  {
    if rows == [] then -1
    else if Conflicts(table, rows[0], newRow) then 0
    else var k := FirstConflict(table, rows[1..], newRow); if k == -1 then -1 else k + 1
  }

  /** The conflict found is the first one, and none is missed. */
  lemma {:induction false} FirstConflictIsFirst(table: string, rows: seq<Fields>, newRow: Fields)
    ensures var i := FirstConflict(table, rows, newRow);
      && (i >= 0 ==> Conflicts(table, rows[i], newRow))
      && forall k :: 0 <= k < (if i == -1 then |rows| else i) ==> !Conflicts(table, rows[k], newRow)
  {
    if rows != [] && !Conflicts(table, rows[0], newRow) {
      FirstConflictIsFirst(table, rows[1..], newRow);
      var j := FirstConflict(table, rows[1..], newRow);
      forall k | 0 <= k < (if j == -1 then |rows| else j + 1) ensures !Conflicts(table, rows[k], newRow) {
        if k > 0 {
          assert rows[k] == rows[1..][k - 1];
        }
      }
    }
  }

  predicate Falsy(v: Option<Value>) {
    v == None || v == Some(Null) || v == Some(Num(0)) || v == Some(Str(""))
  }

  function WithDefault(row: Fields, col: string, v: Value): Fields {
    if col in row then row else row[col := v]
  }

  /** The row an INSERT makes: a serial id in `mailbox` only, then the columns given, then the defaults. */
  function NewRow(table: string, serial: nat, values: Fields, now: Value): Fields {
    var given := (if table == "mailbox" then map["id" := Num(serial)] else map[]) + values;
    var dated := if Falsy(Field(given, "created_at")) then given["created_at" := now] else given;
    if table == "messages" then WithDefault(dated, "is_deleted", Num(0))
    else if table == "mailbox" then WithDefault(dated, "status", Str("queued"))
    else if table == "message_deliveries" then
      WithDefault(WithDefault(dated, "status", Str("queued")), "attempt_count", Num(0))
    else if table == "refresh_tokens" then WithDefault(dated, "is_revoked", Num(0))
    else dated
  }

  function InsertRow(table: string, rows: seq<Fields>, newRow: Fields, mode: OnConflict): seq<Fields> {
    var i := FirstConflict(table, rows, newRow);
    if i == -1 then rows + [newRow]
    else match mode
      case DoNothing => rows
      case DoUpdate => rows[i := rows[i] + newRow]
      case Unhandled => rows[i := newRow]
  }

  lemma InsertRowCases(table: string, rows: seq<Fields>, newRow: Fields, mode: OnConflict)
    ensures var i := FirstConflict(table, rows, newRow);
      && (i == -1 ==> InsertRow(table, rows, newRow, mode) == rows + [newRow])
      && (i >= 0 && mode.DoNothing? ==> InsertRow(table, rows, newRow, mode) == rows)
      && (i >= 0 && mode.DoUpdate? ==> InsertRow(table, rows, newRow, mode) == rows[i := rows[i] + newRow])
      && (i >= 0 && mode.Unhandled? ==> InsertRow(table, rows, newRow, mode) == rows[i := newRow])
      && (i == -1 || mode.Unhandled? ==> InsertedRow(table, rows, newRow, mode) == newRow)
      && (i >= 0 && mode.DoNothing? ==> InsertedRow(table, rows, newRow, mode) == rows[i])
      && (i >= 0 && mode.DoUpdate? ==> InsertedRow(table, rows, newRow, mode) == rows[i] + newRow)
  {
  }

  /** A column name without its table prefix. */
  function Column(col: string): string {
    var dot := IndexOf(col, '.');
    if dot == -1 then col
    else var rest := col[dot + 1..]; var next := IndexOf(rest, '.'); if next == -1 then rest else rest[..next]
  }

  function Assign(row: Fields, a: Assignment, ctx: Context, engine: Engine): Fields {
    if a.valRaw == "" then row
    else match engine.value(a.valRaw, row, ctx)
      case None => row
      case Some(v) => row[Column(a.col) := v]
  }

  /** Assignments take effect one after another, each seeing the ones before it. */
  function AssignAll(row: Fields, assignments: seq<Assignment>, ctx: Context, engine: Engine): Fields
    decreases |assignments|
  {
    if assignments == [] then row
    else AssignAll(Assign(row, assignments[0], ctx, engine), assignments[1..], ctx, engine)
  }

  function Atoms(row: Fields, ctx: Context, engine: Engine): string -> bool {
    p => engine.holds(p, row, ctx)
  }

  predicate Selected(where: string, row: Fields, ctx: Context, engine: Engine) {
    EvalWhere(where, Atoms(row, ctx, engine))
  }

  function UpdatedRow(row: Fields, setClause: string, where: string, ctx: Context, engine: Engine): Fields {
    if Selected(where, row, ctx, engine)
    then AssignAll(row, CutAll(Split(setClause, COMMA)), ctx, engine)
    else row
  }

  function UpdatedRows(rows: seq<Fields>, setClause: string, where: string, ctx: Context, engine: Engine): (r: seq<Fields>)
    ensures |r| == |rows|
    ensures forall i :: 0 <= i < |rows| ==> r[i] == UpdatedRow(rows[i], setClause, where, ctx, engine)
  {
    seq(|rows|, i requires 0 <= i < |rows| => UpdatedRow(rows[i], setClause, where, ctx, engine))
  }

  function Spared(where: string, ctx: Context, engine: Engine): Fields -> bool {
    row => !Selected(where, row, ctx, engine)
  }

  function Chosen(where: string, ctx: Context, engine: Engine): Fields -> bool {
    row => Selected(where, row, ctx, engine)
  }

  function Changed(setClause: string, ctx: Context, engine: Engine): Fields -> Fields {
    row => AssignAll(row, CutAll(Split(setClause, COMMA)), ctx, engine)
  }

  /** The row an INSERT reports: its own, or the one it came into conflict with, as it is left. */
  function InsertedRow(table: string, rows: seq<Fields>, newRow: Fields, mode: OnConflict): Fields {
    var i := FirstConflict(table, rows, newRow);
    if i == -1 then newRow
    else match mode
      case DoNothing => rows[i]
      case DoUpdate => rows[i] + newRow
      case Unhandled => newRow
  }

  // ---------------------------------------------------------------------------
  // Statements
  // ---------------------------------------------------------------------------

  /** A table that is asked for exists from then on. */
  function Listed(tables: map<string, seq<Fields>>, table: string): (r: map<string, seq<Fields>>)
    ensures table in r
  {
    if table in tables then tables else tables[table := []]
  }

  function WithTable(v: View, table: string): (r: View)
    ensures table in r.tables
  {
    v.(tables := Listed(v.tables, table))
  }

  function Serial(counters: map<string, nat>, table: string): nat {
    (if table in counters then counters[table] else 0) + 1
  }

  function Without(tables: map<string, seq<Fields>>, names: seq<string>): map<string, seq<Fields>>
    decreases |names|
  {
    if names == [] then tables else Without(tables - {names[0]}, names[1..])
  }

  function Apply(view: View, stmt: Statement, engine: Engine): View {
    match stmt
    case CreateTable(table) => WithTable(view, table)
    case DropTables(names) => view.(tables := Without(view.tables, names))
    case Insert(table, values, mode, ctx) =>
      var v := WithTable(view, table);
      var serial := if table == "mailbox" then Serial(v.counters, table) else 0;
      var newRow := NewRow(table, serial, values, ctx.now);
      View(v.tables[table := InsertRow(table, v.tables[table], newRow, mode)],
           if table == "mailbox" then v.counters[table := serial] else v.counters)
    case Update(table, setClause, where, ctx) =>
      var v := WithTable(view, table);
      v.(tables := v.tables[table := UpdatedRows(v.tables[table], setClause, where, ctx, engine)])
    case Delete(table, where, ctx) =>
      var v := WithTable(view, table);
      v.(tables := v.tables[table := Filter(v.tables[table], Spared(where, ctx, engine))])
    case Select(table, _, _, _) => WithTable(view, table)
  }

  /** The rows a statement reports, all columns of them: those it put in, changed or took out, or chose. */
  function Reply(view: View, stmt: Statement, engine: Engine): seq<Fields> {
    match stmt
    case CreateTable(_) => []
    case DropTables(_) => []
    case Insert(table, values, mode, ctx) =>
      var serial := if table == "mailbox" then Serial(view.counters, table) else 0;
      [InsertedRow(table, Listed(view.tables, table)[table], NewRow(table, serial, values, ctx.now), mode)]
    case Update(table, setClause, where, ctx) =>
      Map(Filter(Listed(view.tables, table)[table], Chosen(where, ctx, engine)), Changed(setClause, ctx, engine))
    case Delete(table, where, ctx) => Filter(Listed(view.tables, table)[table], Chosen(where, ctx, engine))
    case Select(table, where, limit, ctx) =>
      Limited(Filter(Listed(view.tables, table)[table], Chosen(where, ctx, engine)), limit)
  }

  function Limited(rows: seq<Fields>, limit: Option<nat>): seq<Fields> {
    if limit.Some? then Take(rows, limit.value) else rows
  }

  lemma ApplyInsert(v: View, table: string, values: Fields, mode: OnConflict, ctx: Context, serial: nat, r: View,
                    engine: Engine)
    requires serial == if table == "mailbox" then Serial(v.counters, table) else 0
    requires r.counters == if table == "mailbox" then v.counters[table := serial] else v.counters
    requires var ts := Listed(v.tables, table);
      r.tables == ts[table := InsertRow(table, ts[table], NewRow(table, serial, values, ctx.now), mode)]
    ensures r == Apply(v, Insert(table, values, mode, ctx), engine)
    ensures var newRow := NewRow(table, serial, values, ctx.now);
      Reply(v, Insert(table, values, mode, ctx), engine) ==
        [InsertedRow(table, Listed(v.tables, table)[table], newRow, mode)]
  {
  }

  function Exec(s: StoreView, c: Command, engine: Engine): StoreView {
    match c
    case Begin => s.(stack := s.stack + [s.live])
    case Commit => if s.stack == [] then s else s.(stack := s.stack[..|s.stack| - 1])
    case Rollback =>
      if s.stack == [] then s else StoreView(s.stack[|s.stack| - 1], s.stack[..|s.stack| - 1])
    case Execute(stmt) => s.(live := Apply(s.live, stmt, engine))
  }

  function Result(s: StoreView, c: Command, engine: Engine): seq<Fields> {
    if c.Execute? then Reply(s.live, c.stmt, engine) else []
  }

  function ExecAll(s: StoreView, cs: seq<Command>, engine: Engine): StoreView
    decreases |cs|
  {
    if cs == [] then s else ExecAll(Exec(s, cs[0], engine), cs[1..], engine)
  }

  /** The result of a run is that of its last command. */
  function LastResult(s: StoreView, cs: seq<Command>, engine: Engine): seq<Fields> {
    if cs == [] then [] else Result(ExecAll(s, cs[..|cs| - 1], engine), cs[|cs| - 1], engine)
  }

  // ---------------------------------------------------------------------------
  // What a statement reports
  // ---------------------------------------------------------------------------

  lemma FilterHead<T>(x: T, s: seq<T>, p: T -> bool)
    ensures Filter([x] + s, p) == if p(x) then [x] + Filter(s, p) else Filter(s, p)
  {
    assert ([x] + s)[1..] == s;
  }

  lemma MapHead<T, U>(x: T, s: seq<T>, f: T -> U)
    ensures Map([x] + s, f) == [f(x)] + Map(s, f)
  {
  }

  /** The elements a predicate rejects, and the images of those it accepts, are the images under a function that
      leaves the rejected ones alone. */
  lemma {:induction false} Parts<T(!new)>(s: seq<T>, yes: T -> bool, no: T -> bool, f: T -> T, g: T -> T)
    requires forall x :: no(x) == !yes(x) && g(x) == if yes(x) then f(x) else x
    ensures multiset(Map(s, g)) == multiset(Filter(s, no)) + multiset(Map(Filter(s, yes), f))
  {
    if s == [] {
    } else {
      hide Filter, Map;
      var x, rest := s[0], s[1..];
      assert s == [x] + rest;
      Parts(rest, yes, no, f, g);
      MapHead(x, rest, g);
      FilterHead(x, rest, no);
      FilterHead(x, rest, yes);
      MapHead(x, Filter(rest, yes), f);
    }
  }

  lemma UpdatedAreReported(rows: seq<Fields>, setClause: string, where: string, ctx: Context, engine: Engine)
    ensures multiset(UpdatedRows(rows, setClause, where, ctx, engine)) ==
      multiset(Filter(rows, Spared(where, ctx, engine))) +
      multiset(Map(Filter(rows, Chosen(where, ctx, engine)), Changed(setClause, ctx, engine)))
  {
    hide Selected, AssignAll, Split, CutAll, Filter;
    var g := (row: Fields) => UpdatedRow(row, setClause, where, ctx, engine);
    assert UpdatedRows(rows, setClause, where, ctx, engine) == Map(rows, g);
    Parts(rows, Chosen(where, ctx, engine), Spared(where, ctx, engine), Changed(setClause, ctx, engine), g);
  }

  lemma DeletedAreReported(rows: seq<Fields>, where: string, ctx: Context, engine: Engine)
    ensures multiset(rows) ==
      multiset(Filter(rows, Spared(where, ctx, engine))) + multiset(Filter(rows, Chosen(where, ctx, engine)))
  {
    hide Selected, Filter;
    var id, chosen := (row: Fields) => row, Filter(rows, Chosen(where, ctx, engine));
    Parts(rows, Chosen(where, ctx, engine), Spared(where, ctx, engine), id, id);
    assert Map(rows, id) == rows && Map(chosen, id) == chosen;
  }

  /** MAIN: what a statement reports is the difference it makes, row for row. An UPDATE leaves the rows it did
      not choose and those it reports; a DELETE takes out those it reports and leaves the others; an INSERT
      leaves the row it reports in the table; a SELECT reports rows of the table and changes none. */
  lemma ReplyIsTheDifference(v: View, stmt: Statement, engine: Engine)
    requires stmt.Insert? || stmt.Update? || stmt.Delete? || stmt.Select?
    ensures var rows, after := Listed(v.tables, stmt.table)[stmt.table], Apply(v, stmt, engine).tables[stmt.table];
      var reply := Reply(v, stmt, engine);
      && (stmt.Update? ==>
            multiset(after) == multiset(Filter(rows, Spared(stmt.where, stmt.ctx, engine))) + multiset(reply))
      && (stmt.Delete? ==> multiset(rows) == multiset(after) + multiset(reply))
      && (stmt.Insert? ==> |reply| == 1 && reply[0] in after && |rows| <= |after| <= |rows| + 1)
      && (stmt.Select? ==> after == rows && forall r :: r in reply ==> r in rows)
  {
    hide Selected, UpdatedRows, AssignAll, NewRow, Conflicts, FirstConflict;
    var rows := Listed(v.tables, stmt.table)[stmt.table];
    match stmt {
      case Insert(table, values, mode, ctx) =>
        var serial := if table == "mailbox" then Serial(v.counters, table) else 0;
        InsertedIsThere(table, rows, NewRow(table, serial, values, ctx.now), mode);
      case Update(table, setClause, where, ctx) =>
        UpdatedAreReported(rows, setClause, where, ctx, engine);
      case Delete(table, where, ctx) =>
        DeletedAreReported(rows, where, ctx, engine);
      case Select(table, where, limit, ctx) =>
        FilterAllIn(rows, Chosen(where, ctx, engine));
    }
  }

  lemma InsertedIsThere(table: string, rows: seq<Fields>, newRow: Fields, mode: OnConflict)
    ensures InsertedRow(table, rows, newRow, mode) in InsertRow(table, rows, newRow, mode)
    ensures |rows| <= |InsertRow(table, rows, newRow, mode)| <= |rows| + 1
  {
    hide Conflicts, FirstConflict;
    var i, after := FirstConflict(table, rows, newRow), InsertRow(table, rows, newRow, mode);
    if i == -1 {
      assert after[|rows|] == newRow;
    } else {
      assert after[i] == InsertedRow(table, rows, newRow, mode);
    }
  }

  // ---------------------------------------------------------------------------
  // Nested transactions
  // ---------------------------------------------------------------------------

  /** A well-nested program: statements and whole transactions, each of which commits or rolls back. */
  datatype Script =
    | Done
    | Step(stmt: Statement, rest: Script)
    | Transaction(body: Script, commit: bool, rest: Script)

  function Commands(p: Script): seq<Command> {
    match p
    case Done => []
    case Step(stmt, rest) => [Execute(stmt)] + Commands(rest)
    case Transaction(body, commit, rest) =>
      [Begin] + Commands(body) + [if commit then Commit else Rollback] + Commands(rest)
  }

  /** What a well-nested program should mean: a transaction that commits does what its body does, and one
      that rolls back does nothing. */
  function Outcome(p: Script, v: View, engine: Engine): View {
    match p
    case Done => v
    case Step(stmt, rest) => Outcome(rest, Apply(v, stmt, engine), engine)
    case Transaction(body, commit, rest) =>
      Outcome(rest, if commit then Outcome(body, v, engine) else v, engine)
  }

  lemma {:induction false} ExecConcat(s: StoreView, a: seq<Command>, b: seq<Command>, engine: Engine)
    ensures ExecAll(s, a + b, engine) == ExecAll(ExecAll(s, a, engine), b, engine)
    decreases |a|
  {
    hide Exec;
    if a == [] {
      assert a + b == b;
    } else {
      ExecConcat(Exec(s, a[0], engine), a[1..], b, engine);
      assert (a + b)[0] == a[0] && (a + b)[1..] == a[1..] + b;
    }
  }

  lemma ExecOne(s: StoreView, c: Command, engine: Engine)
    ensures ExecAll(s, [c], engine) == Exec(s, c, engine)
  {
    hide Exec;
    assert [c][1..] == [];
  }

  /** The snapshot pushed by a BEGIN is the one its COMMIT or ROLLBACK pops. */
  lemma Bracket(s: StoreView, inside: View, commit: bool, engine: Engine)
    ensures Exec(StoreView(inside, Exec(s, Begin, engine).stack), if commit then Commit else Rollback, engine)
         == StoreView(if commit then inside else s.live, s.stack)
  {
    assert (s.stack + [s.live])[..|s.stack|] == s.stack;
  }

  /** MAIN: with its one stack of snapshots the engine gives every well-nested program its meaning, from any
      state: each rollback restores the tables and the counters exactly as they were at its own BEGIN. */
  lemma {:induction false} NestingIsRespected(p: Script, s: StoreView, engine: Engine)
    ensures ExecAll(s, Commands(p), engine) == StoreView(Outcome(p, s.live, engine), s.stack)
    decreases p
  {
    hide Exec, Apply, ExecAll;
    match p {
      case Done =>
        ExecNothing(s, engine);
      case Step(stmt, rest) =>
        ExecOne(s, Execute(stmt), engine);
        ExecConcat(s, [Execute(stmt)], Commands(rest), engine);
        ExecStatement(s, stmt, engine);
        NestingIsRespected(rest, s.(live := Apply(s.live, stmt, engine)), engine);
      case Transaction(body, commit, rest) =>
        var end: Command := if commit then Commit else Rollback;
        var begun := Exec(s, Begin, engine);
        var inside := Outcome(body, s.live, engine);
        ExecBegins(s, engine);
        ExecOne(s, Begin, engine);
        NestingIsRespected(body, begun, engine);
        ExecConcat(s, [Begin], Commands(body), engine);
        ExecOne(StoreView(inside, begun.stack), end, engine);
        ExecConcat(s, [Begin] + Commands(body), [end], engine);
        Bracket(s, inside, commit, engine);
        NestingIsRespected(rest, StoreView(if commit then inside else s.live, s.stack), engine);
        ExecConcat(s, [Begin] + Commands(body) + [end], Commands(rest), engine);
    }
  }

  lemma ExecMore(s: StoreView, cs: seq<Command>, c: Command, engine: Engine)
    ensures ExecAll(s, cs + [c], engine) == Exec(ExecAll(s, cs, engine), c, engine)
    ensures LastResult(s, cs + [c], engine) == Result(ExecAll(s, cs, engine), c, engine)
  {
    hide Exec, ExecAll, Result;
    ExecConcat(s, cs, [c], engine);
    ExecOne(ExecAll(s, cs, engine), c, engine);
    assert (cs + [c])[..|cs|] == cs && (cs + [c])[|cs|] == c;
  }

  lemma NoReply(v: View, stmt: Statement, engine: Engine)
    requires stmt.CreateTable? || stmt.DropTables?
    ensures Reply(v, stmt, engine) == []
  {
  }

  lemma ExecNothing(s: StoreView, engine: Engine)
    ensures ExecAll(s, [], engine) == s
  {
  }

  lemma ExecBegins(s: StoreView, engine: Engine)
    ensures Exec(s, Begin, engine) == StoreView(s.live, s.stack + [s.live])
  {
  }

  lemma ExecStatement(s: StoreView, stmt: Statement, engine: Engine)
    ensures Exec(s, Execute(stmt), engine) == s.(live := Apply(s.live, stmt, engine))
  {
  }
}
