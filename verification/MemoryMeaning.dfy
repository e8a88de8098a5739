/** What the statements of the in-memory SQL engine mean: which rows a printed WHERE clause picks, what a printed
    SET clause assigns, what row an INSERT makes, and that keys stay unique. */
module MemoryMeaning {
  import opened Sequences
  import opened SqlScanner
  import opened WhereEvaluator
  import opened MemoryTables

  // ---------------------------------------------------------------------------
  // WHERE
  // ---------------------------------------------------------------------------

  /** The row satisfies the condition, each predicate of which holds or not as the engine has it. */
  predicate Satisfies(c: Cond, row: Fields, ctx: Context, engine: Engine) {
    Meaning(c, p => engine.holds(p, row, ctx))
  }

  function Meeting(c: Cond, ctx: Context, engine: Engine): Fields -> bool {
    row => Satisfies(c, row, ctx, engine)
  }

  function NotMeeting(c: Cond, ctx: Context, engine: Engine): Fields -> bool {
    row => !Satisfies(c, row, ctx, engine)
  }

  lemma {:induction false} MeaningAgrees(c: Cond, f: string -> bool, g: string -> bool)
    requires forall p :: f(p) == g(p)
    ensures Meaning(c, f) == Meaning(c, g)
  {
    match c {
      case Atom(_) =>
      case Paren(inner) => MeaningAgrees(inner, f, g);
      case And(l, r) =>
        MeaningAgrees(l, f, g);
        MeaningAgrees(r, f, g);
      case Or(l, r) =>
        MeaningAgrees(l, f, g);
        MeaningAgrees(r, f, g);
    }
  }

  /** The text of a condition selects the rows that satisfy it, and a blank clause selects every row. */
  lemma SelectedMeans(c: Cond, row: Fields, ctx: Context, engine: Engine)
    requires WellBracketed(c)
    ensures Selected(Text(c), row, ctx, engine) == Satisfies(c, row, ctx, engine)
  {
    hide EvalWhere, WellBracketed, Text;
    EvalMeansTree(c, Atoms(row, ctx, engine));
    MeaningAgrees(c, Atoms(row, ctx, engine), p => engine.holds(p, row, ctx));
  }

  lemma ChosenMeet(rows: seq<Fields>, c: Cond, ctx: Context, engine: Engine)
    requires WellBracketed(c)
    ensures Filter(rows, Chosen(Text(c), ctx, engine)) == Filter(rows, Meeting(c, ctx, engine))
    ensures Filter(rows, Spared(Text(c), ctx, engine)) == Filter(rows, NotMeeting(c, ctx, engine))
  {
    hide WellBracketed, Text, Selected, Satisfies, Filter;
    forall row ensures Selected(Text(c), row, ctx, engine) == Satisfies(c, row, ctx, engine) {
      SelectedMeans(c, row, ctx, engine);
    }
    FilterAgree(rows, Chosen(Text(c), ctx, engine), Meeting(c, ctx, engine));
    FilterAgree(rows, Spared(Text(c), ctx, engine), NotMeeting(c, ctx, engine));
  }

  /** MAIN: a DELETE takes out, and reports, exactly the rows that satisfy its condition, and leaves the others in
      order. */
  lemma DeleteMeans(v: View, table: string, c: Cond, ctx: Context, engine: Engine)
    requires WellBracketed(c)
    ensures var stmt, rows := Delete(table, Text(c), ctx), Listed(v.tables, table)[table];
      && Apply(v, stmt, engine).tables[table] == Filter(rows, NotMeeting(c, ctx, engine))
      && Reply(v, stmt, engine) == Filter(rows, Meeting(c, ctx, engine))
  {
    hide WellBracketed, Text, Spared, Chosen, Filter;
    ChosenMeet(Listed(v.tables, table)[table], c, ctx, engine);
  }

  /** MAIN: a SELECT reports exactly the rows that satisfy its condition, in order, the first `limit` of them, and
      changes no row. */
  lemma SelectMeans(v: View, table: string, c: Cond, limit: Option<nat>, ctx: Context, engine: Engine)
    requires WellBracketed(c)
    ensures var stmt, rows := Select(table, Text(c), limit, ctx), Listed(v.tables, table)[table];
      var found, reply := Filter(rows, Meeting(c, ctx, engine)), Reply(v, stmt, engine);
      && Apply(v, stmt, engine).tables[table] == rows
      && (limit.None? ==> reply == found)
      && (limit.Some? ==> reply == if limit.value < |found| then found[..limit.value] else found)
  {
    hide WellBracketed, Text, Chosen, Filter;
    ChosenMeet(Listed(v.tables, table)[table], c, ctx, engine);
  }

  /** MAIN: an UPDATE carries out its assignments on exactly the rows that satisfy its condition, and reports those. */
  lemma UpdateMeans(v: View, table: string, c: Cond, assignments: seq<Assignment>, ctx: Context, engine: Engine)
    requires WellBracketed(c) && assignments != [] && forall a :: a in assignments ==> GoodAssignment(a)
    ensures var stmt, rows := Update(table, SetText(assignments), Text(c), ctx), Listed(v.tables, table)[table];
      var after := Apply(v, stmt, engine).tables[table];
      && |after| == |rows|
      && (forall i :: 0 <= i < |rows| ==>
            after[i] == (if Satisfies(c, rows[i], ctx, engine) then AssignAll(rows[i], assignments, ctx, engine) else rows[i]))
      && Reply(v, stmt, engine) ==
           Map(Filter(rows, Meeting(c, ctx, engine)), row => AssignAll(row, assignments, ctx, engine))
  {
    hide WellBracketed, Text, Chosen, Filter, GoodAssignment, SetText, Selected, Satisfies, AssignAll, Split, CutAll;
    var rows := Listed(v.tables, table)[table];
    ChosenMeet(rows, c, ctx, engine);
    SetTextCuts(assignments);
    forall i | 0 <= i < |rows| ensures Selected(Text(c), rows[i], ctx, engine) == Satisfies(c, rows[i], ctx, engine) {
      SelectedMeans(c, rows[i], ctx, engine);
    }
    var found := Filter(rows, Meeting(c, ctx, engine));
    assert Map(found, Changed(SetText(assignments), ctx, engine))
        == Map(found, row => AssignAll(row, assignments, ctx, engine));
  }

  /** Without a condition a statement is about every row. */
  lemma BlankMeansAll(v: View, table: string, where: string, limit: Option<nat>, ctx: Context, engine: Engine)
    requires Trim(where) == ""
    ensures var rows := Listed(v.tables, table)[table];
      && Apply(v, Delete(table, where, ctx), engine).tables[table] == []
      && Reply(v, Delete(table, where, ctx), engine) == rows
      && Reply(v, Select(table, where, None, ctx), engine) == rows
  {
    var rows := Listed(v.tables, table)[table];
    FilterAll(rows, Chosen(where, ctx, engine));
    FilterNone(rows, Spared(where, ctx, engine));
  }

  lemma {:induction false} WithoutMeans(tables: map<string, seq<Fields>>, names: seq<string>, t: string)
    ensures t in Without(tables, names) <==> t in tables && t !in names
    ensures t in tables && t !in names ==> Without(tables, names)[t] == tables[t]
    decreases |names|
  {
    if names != [] {
      WithoutMeans(tables - {names[0]}, names[1..], t);
      assert t in names <==> t == names[0] || t in names[1..];
    }
  }

  /** A CREATE adds an empty table unless it is there; a DROP removes exactly the tables it names. */
  lemma TablesComeAndGo(v: View, table: string, names: seq<string>, engine: Engine, t: string)
    ensures var created, dropped := Apply(v, CreateTable(table), engine).tables, Apply(v, DropTables(names), engine).tables;
      && (t in created <==> t in v.tables || t == table)
      && (t in v.tables ==> created[t] == v.tables[t]) && (table !in v.tables ==> created[table] == [])
      && (t in dropped <==> t in v.tables && t !in names)
      && (t in dropped ==> dropped[t] == v.tables[t])
  {
    WithoutMeans(v.tables, names, t);
  }

  /** A run answers with its last command: what a statement reports on the tables as they are by then, and nothing
      for a transaction's bracket. */
  lemma LastCommandAnswers(s: StoreView, cs: seq<Command>, stmt: Statement, bracket: Command, engine: Engine)
    requires !bracket.Execute?
    ensures LastResult(s, cs + [Execute(stmt)], engine) == Reply(ExecAll(s, cs, engine).live, stmt, engine)
    ensures LastResult(s, cs + [bracket], engine) == []
  {
    hide Reply, ExecAll, Exec;
    ExecMore(s, cs, Execute(stmt), engine);
    ExecMore(s, cs, bracket, engine);
  }

  // ---------------------------------------------------------------------------
  // SET
  // ---------------------------------------------------------------------------

  function AssignmentText(a: Assignment): string {
    a.col + " = " + a.valRaw
  }

  /** The assignments of a SET clause as they are written. */
  function SetText(assignments: seq<Assignment>): string {
    if assignments == [] then ""
    else if |assignments| == 1 then AssignmentText(assignments[0])
    else AssignmentText(assignments[0]) + ", " + SetText(assignments[1..])
  }

  /** A column and a token, neither of them blank at the ends, with brackets and quotes balanced and no comma or
      equals sign where it would cut. */
  predicate GoodAssignment(a: Assignment) {
    Trimmed(a.col) && Trimmed(a.valRaw) && '=' !in a.col && Piece(AssignmentText(a), COMMA)
  }

  lemma CutsItself(a: Assignment)
    requires GoodAssignment(a)
    ensures Cut(AssignmentText(a)) == [a]
  {
    hide Piece;
    var t := AssignmentText(a);
    var n := |a.col|;
    assert t[..n + 1] == a.col + " " && t[n + 1] == '=' && t[n + 2..] == " " + a.valRaw;
    var eq := IndexOf(t, '=');
    assert forall i :: 0 <= i < n ==> t[i] == a.col[i];
    assert eq == n + 1;
    TrimSpace(a.col);
    TrimSpace(a.valRaw);
    TrimOfTrimmed(a.col);
    TrimOfTrimmed(a.valRaw);
  }

  /** A space at the front of the current piece makes no difference. */
  lemma {:induction false} SplitSpace(s: string, cur: string, st: Scan)
    ensures SplitFrom(s, COMMA, " " + cur, st) == SplitFrom(s, COMMA, cur, st)
    decreases |s|
  {
    TrimSpace(cur);
    if s == "" {
    } else if Cuts(s, COMMA, st) {
    } else {
      assert " " + cur + [s[0]] == " " + (cur + [s[0]]);
      SplitSpace(s[1..], cur + [s[0]], Advance(st, s[0]));
    }
  }

  lemma SpaceSkipped(rest: string)
    ensures SplitFrom(" " + rest, COMMA, "", TOP) == SplitFrom(rest, COMMA, "", TOP)
  {
    assert (" " + rest)[0] == ' ' && (" " + rest)[1..] == rest;
    assert "" + " " == " " + "";
    SplitSpace(rest, "", TOP);
  }

  /** The first assignment is split off. */
  lemma FirstSplitOff(first: string, rest: string)
    requires Piece(first, COMMA)
    ensures SplitFrom(first + ", " + rest, COMMA, "", TOP) == [first] + SplitFrom(rest, COMMA, "", TOP)
  {
    hide SplitFrom, Piece;
    Delimiters();
    SpaceSkipped(rest);
    TakeFirst(first, " " + rest, COMMA);
    assert first + ", " + rest == first + COMMA + (" " + rest);
  }

  lemma OnlyPiece(p: string)
    requires Piece(p, COMMA)
    ensures SplitFrom(p, COMMA, "", TOP) == [p]
  {
    hide SplitFrom, Piece;
    Delimiters();
    TakeOnly(p, COMMA);
  }

  lemma {:induction false} SetTextSplits(assignments: seq<Assignment>)
    requires assignments != [] && forall a :: a in assignments ==> GoodAssignment(a)
    ensures SplitFrom(SetText(assignments), COMMA, "", TOP) == Map(assignments, AssignmentText)
    decreases |assignments|
  {
    hide SplitFrom, Piece, AssignmentText, Trimmed;
    assert assignments[0] in assignments;
    var first, rest := AssignmentText(assignments[0]), assignments[1..];
    if |assignments| == 1 {
      OnlyPiece(first);
    } else {
      assert forall a :: a in rest ==> a in assignments;
      SetTextSplits(rest);
      FirstSplitOff(first, SetText(rest));
      assert Map(assignments, AssignmentText) == [first] + Map(rest, AssignmentText);
    }
  }

  lemma {:induction false} CutAllTexts(assignments: seq<Assignment>)
    requires forall a :: a in assignments ==> GoodAssignment(a)
    ensures CutAll(Map(assignments, AssignmentText)) == assignments
    decreases |assignments|
  {
    hide GoodAssignment, AssignmentText, Cut;
    if assignments != [] {
      var rest := assignments[1..];
      assert assignments[0] in assignments && forall a :: a in rest ==> a in assignments;
      CutAllTexts(rest);
      CutsItself(assignments[0]);
      assert Map(assignments, AssignmentText)[1..] == Map(rest, AssignmentText);
      assert assignments == [assignments[0]] + rest;
    }
  }

  /** MAIN: the text of a SET clause is cut into the assignments it was written from. */
  lemma SetTextCuts(assignments: seq<Assignment>)
    requires assignments != [] && forall a :: a in assignments ==> GoodAssignment(a)
    ensures CutAll(Split(SetText(assignments), COMMA)) == assignments
  {
    hide SplitFrom, GoodAssignment, CutAll;
    SetTextSplits(assignments);
    CutAllTexts(assignments);
  }

  /** MAIN: assignments take effect in order: the last one gives its column the value its token has after all the
      others, or changes nothing when the token is blank or not understood. */
  lemma {:induction false} AssignmentsInOrder(row: Fields, before: seq<Assignment>, a: Assignment, ctx: Context,
                                              engine: Engine)
    ensures AssignAll(row, [], ctx, engine) == row
    ensures var soFar := AssignAll(row, before, ctx, engine);
      AssignAll(row, before + [a], ctx, engine) ==
        if a.valRaw != "" && engine.value(a.valRaw, soFar, ctx).Some?
        then soFar[Column(a.col) := engine.value(a.valRaw, soFar, ctx).value]
        else soFar
    decreases |before|
  {
    if before == [] {
      assert before + [a] == [a] && [a][1..] == [];
    } else {
      assert (before + [a])[0] == before[0] && (before + [a])[1..] == before[1..] + [a];
      AssignmentsInOrder(Assign(row, before[0], ctx, engine), before[1..], a, ctx, engine);
    }
  }

  /** A column is named with or without its table. */
  lemma ColumnMeans(table: string, col: string)
    requires '.' !in table && '.' !in col
    ensures Column(col) == col && Column(table + "." + col) == col
  {
    var full := table + "." + col;
    var n := |table|;
    assert full[n] == '.' && full[n + 1..] == col;
    var dot := IndexOf(full, '.');
    assert forall i :: 0 <= i < n ==> full[i] == table[i];
    assert dot == n;
  }

  // ---------------------------------------------------------------------------
  // INSERT: the row
  // ---------------------------------------------------------------------------

  /** What a column of a new row is when it is not given. */
  function Default(table: string, col: string, serial: nat, now: Value): Option<Value> {
    if col == "created_at" then Some(now)
    else if table == "messages" && col == "is_deleted" then Some(Num(0))
    else if table == "mailbox" && col == "id" then Some(Num(serial))
    else if table in {"mailbox", "message_deliveries"} && col == "status" then Some(Str("queued"))
    else if table == "message_deliveries" && col == "attempt_count" then Some(Num(0))
    else if table == "refresh_tokens" && col == "is_revoked" then Some(Num(0))
    else None
  }

  /** A column is given, where a creation date that is nothing, zero or "" is not. */
  predicate Given(values: Fields, col: string) {
    col in values && (col == "created_at" ==> values[col] !in {Null, Num(0), Str("")})
  }

  lemma DefaultColumn(row: Fields, c: string, v: Value, col: string)
    ensures Field(WithDefault(row, c, v), col) == if col == c && c !in row then Some(v) else Field(row, col)
    ensures c in WithDefault(row, c, v) && (col in WithDefault(row, c, v) <==> col == c || col in row)
  {
  }

  /** MAIN: every column of a new row is what it is given or, when it is not, its table's default; the row has no
      others. */
  lemma NewRowMeans(table: string, serial: nat, values: Fields, now: Value, col: string)
    ensures Field(NewRow(table, serial, values, now), col) ==
      if Given(values, col) then Some(values[col]) else Default(table, col, serial, now)
  {
    hide WithDefault;
    var given := (if table == "mailbox" then map["id" := Num(serial)] else map[]) + values;
    var dated := if Falsy(Field(given, "created_at")) then given["created_at" := now] else given;
    assert Field(dated, col) ==
      if Given(values, col) then Some(values[col])
      else if col == "created_at" then Some(now)
      else if table == "mailbox" && col == "id" then Some(Num(serial)) else None;
    DefaultColumn(dated, "is_deleted", Num(0), col);
    DefaultColumn(dated, "status", Str("queued"), col);
    DefaultColumn(WithDefault(dated, "status", Str("queued")), "attempt_count", Num(0), col);
    DefaultColumn(dated, "is_revoked", Num(0), col);
  }

  function IsInsertInto(table: string): Statement -> bool {
    (stmt: Statement) => stmt.Insert? && stmt.table == table
  }

  function ApplyAll(v: View, stmts: seq<Statement>, engine: Engine): View {
    if stmts == [] then v else Apply(ApplyAll(v, stmts[..|stmts| - 1], engine), stmts[|stmts| - 1], engine)
  }

  lemma {:induction false} CounterCounts(stmts: seq<Statement>, engine: Engine)
    ensures var counters := ApplyAll(View(map[], map[]), stmts, engine).counters;
      (if "mailbox" in counters then counters["mailbox"] else 0) == Count(stmts, IsInsertInto("mailbox"))
    decreases |stmts|
  {
    hide NewRow, InsertRow, UpdatedRows, Spared, Listed;
    if stmts != [] {
      var n := |stmts| - 1;
      CounterCounts(stmts[..n], engine);
      assert stmts == stmts[..n] + [stmts[n]];
      FilterSnoc(stmts[..n], stmts[n], IsInsertInto("mailbox"));
    }
  }

  lemma NoConflictInserted(rows: seq<Fields>, newRow: Fields, mode: OnConflict)
    requires forall r :: r in rows ==> Field(r, "message_id") != Field(newRow, "message_id")
    ensures InsertedRow("mailbox", rows, newRow, mode) == newRow
  {
    hide FirstConflict, Conflicts;
    FirstConflictIsFirst("mailbox", rows, newRow);
    KeyOf("mailbox", ["message_id"]);
    assert forall r :: SameKey(r, newRow, ["message_id"]) ==> Field(r, "message_id") == Field(newRow, "message_id");
  }

  /** MAIN: over every run of statements the rows of `mailbox` are numbered from one in the order of the inserts,
      those that came into conflict included. */
  lemma NumberedInOrder(stmts: seq<Statement>, values: Fields, mode: OnConflict, ctx: Context, engine: Engine)
    requires "id" !in values
    ensures var v := ApplyAll(View(map[], map[]), stmts, engine);
      var rows := Listed(v.tables, "mailbox")["mailbox"];
      var reply := Reply(v, Insert("mailbox", values, mode, ctx), engine);
      (forall r :: r in rows ==> Field(r, "message_id") != Field(values, "message_id")) ==>
        |reply| == 1 && "id" in reply[0] && reply[0]["id"] == Num(Count(stmts, IsInsertInto("mailbox")) + 1)
  {
    hide ApplyAll, NewRow, InsertedRow, Listed, Default;
    CounterCounts(stmts, engine);
    var v := ApplyAll(View(map[], map[]), stmts, engine);
    var rows, serial := Listed(v.tables, "mailbox")["mailbox"], Serial(v.counters, "mailbox");
    NewRowNumber(serial, values, ctx.now);
    if forall r :: r in rows ==> Field(r, "message_id") != Field(values, "message_id") {
      NoConflictInserted(rows, NewRow("mailbox", serial, values, ctx.now), mode);
    }
  }

  lemma NewRowNumber(serial: nat, values: Fields, now: Value)
    requires "id" !in values
    ensures Field(NewRow("mailbox", serial, values, now), "id") == Some(Num(serial))
    ensures Field(NewRow("mailbox", serial, values, now), "message_id") == Field(values, "message_id")
  {
    hide NewRow;
    NewRowMeans("mailbox", serial, values, now, "id");
    NewRowMeans("mailbox", serial, values, now, "message_id");
  }

  // ---------------------------------------------------------------------------
  // INSERT: keys
  // ---------------------------------------------------------------------------

  /** The tables with one key, and its columns: the primary key, or the unique columns by which rows are looked up. */
  predicate HasKey(table: string, cols: seq<string>) {
    || (table == "rooms" && cols == ["id"])
    || (table == "schema_migrations" && cols == ["version"])
    || (table == "user_devices" && cols == ["user_id", "device_id"])
    || (table in {"signed_prekeys", "one_time_prekeys"} && cols == ["user_id", "device_id", "key_id"])
    || (table in {"message_deliveries", "mailbox"} && cols == ["message_id"])
    || (table == "refresh_tokens" && cols == ["token_hash"])
  }

  /** The rows have the same key: no column of it tells them apart. */
  predicate SameKey(a: Fields, b: Fields, cols: seq<string>) {
    forall c :: c in cols ==> Field(a, c) == Field(b, c)
  }

  ghost predicate UniqueOn(rows: seq<Fields>, cols: seq<string>) {
    forall i, j :: 0 <= i < j < |rows| ==> !SameKey(rows[i], rows[j], cols)
  }

  lemma SameOnMeans(a: Fields, b: Fields, cols: seq<string>)
    ensures SameOn(a, b, cols) <==> SameKey(a, b, cols)
  {
    if SameKey(a, b, cols) {
      forall i | 0 <= i < |cols| ensures Field(a, cols[i]) == Field(b, cols[i]) {
        assert cols[i] in cols;
      }
    }
  }

  lemma KeyOf(table: string, cols: seq<string>)
    requires HasKey(table, cols)
    ensures forall a, b :: Conflicts(table, a, b) <==> SameKey(a, b, cols)
  {
    hide SameOn;
    forall a, b ensures Conflicts(table, a, b) <==> SameKey(a, b, cols) {
      SameOnMeans(a, b, cols);
    }
  }

  /** MAIN: an INSERT into a table with a key adds its row when no row has the same key; otherwise it leaves the
      row that has it, merges the new row into it, or puts the new row in its place, as the statement asks. */
  lemma InsertMeans(table: string, cols: seq<string>, rows: seq<Fields>, newRow: Fields, mode: OnConflict)
    requires HasKey(table, cols) && UniqueOn(rows, cols)
    ensures var after := InsertRow(table, rows, newRow, mode);
      && ((forall r :: r in rows ==> !SameKey(r, newRow, cols)) ==> after == rows + [newRow])
      && (forall i :: 0 <= i < |rows| && SameKey(rows[i], newRow, cols) ==>
            after == rows[i := if mode.DoNothing? then rows[i] else if mode.DoUpdate? then rows[i] + newRow else newRow])
  {
    hide FirstConflict, Conflicts, HasKey;
    KeyOf(table, cols);
    FirstConflictIsFirst(table, rows, newRow);
    var k := FirstConflict(table, rows, newRow);
    forall i | 0 <= i < |rows| && SameKey(rows[i], newRow, cols) ensures i == k {
      if k != -1 && i != k {
        SameKeyBoth(rows[k], rows[i], newRow, cols);
      }
    }
  }

  lemma SameKeyBoth(a: Fields, b: Fields, c: Fields, cols: seq<string>)
    requires SameKey(a, c, cols) && SameKey(b, c, cols)
    ensures SameKey(a, b, cols) && SameKey(b, a, cols)
  {
  }

  /** A row merged with one of the same key keeps it. */
  lemma MergedKey(a: Fields, b: Fields, cols: seq<string>)
    requires SameKey(a, b, cols)
    ensures SameKey(a + b, a, cols) && SameKey(a + b, b, cols)
  {
  }

  /** MAIN: no INSERT gives two rows of a table the same key. */
  lemma KeysStayUnique(table: string, cols: seq<string>, rows: seq<Fields>, newRow: Fields, mode: OnConflict)
    requires HasKey(table, cols) && UniqueOn(rows, cols)
    ensures UniqueOn(InsertRow(table, rows, newRow, mode), cols)
  {
    hide InsertRow, HasKey, SameKey;
    InsertMeans(table, cols, rows, newRow, mode);
    if i :| 0 <= i < |rows| && SameKey(rows[i], newRow, cols) {
      var put := if mode.DoNothing? then rows[i] else if mode.DoUpdate? then rows[i] + newRow else newRow;
      KeyItself(rows[i], newRow, cols);
      MergedKey(rows[i], newRow, cols);
      ReplacedUnique(rows, i, put, cols);
    } else {
      assert forall r :: r in rows ==> !SameKey(r, newRow, cols);
    }
  }

  lemma KeyItself(a: Fields, b: Fields, cols: seq<string>)
    requires SameKey(a, b, cols)
    ensures SameKey(a, a, cols) && SameKey(b, a, cols)
  {
  }

  lemma ReplacedUnique(rows: seq<Fields>, i: nat, put: Fields, cols: seq<string>)
    requires UniqueOn(rows, cols) && i < |rows| && SameKey(put, rows[i], cols)
    ensures UniqueOn(rows[i := put], cols)
  {
    hide SameKey;
    var after := rows[i := put];
    forall a, b | 0 <= a < b < |after| ensures !SameKey(after[a], after[b], cols) {
      if SameKey(after[a], after[b], cols) {
        SameKeyThrough(after[a], after[b], put, rows[i], cols);
      }
    }
  }

  lemma SameKeyThrough(a: Fields, b: Fields, put: Fields, was: Fields, cols: seq<string>)
    requires SameKey(put, was, cols) && SameKey(a, b, cols)
    ensures a == put ==> SameKey(was, b, cols)
    ensures b == put ==> SameKey(a, was, cols)
  {
  }

  /** The three keys of `users`. */
  const USER_KEYS := ["id", "username", "email"]

  ghost predicate UsersUnique(rows: seq<Fields>) {
    forall c :: c in USER_KEYS ==> UniqueOn(rows, [c])
  }

  /** Two user rows clash when they share any one of the three. */
  predicate Clash(a: Fields, b: Fields) {
    exists c :: c in USER_KEYS && Field(a, c) == Field(b, c)
  }

  lemma UsersConflict()
    ensures forall a, b :: Conflicts("users", a, b) <==> Clash(a, b)
  {
    forall a, b ensures Conflicts("users", a, b) <==> Clash(a, b) {
      assert "id" in USER_KEYS && "username" in USER_KEYS && "email" in USER_KEYS;
      SameOnMeans(a, b, ["id"]);
      SameOnMeans(a, b, ["username"]);
      SameOnMeans(a, b, ["email"]);
    }
  }

  lemma UsersUniqueMeans(rows: seq<Fields>)
    ensures UsersUnique(rows) <==> forall i, j :: 0 <= i < j < |rows| ==> !Clash(rows[i], rows[j])
  {
    if UsersUnique(rows) {
      forall i, j | 0 <= i < j < |rows| ensures !Clash(rows[i], rows[j]) {
        if c :| c in USER_KEYS && Field(rows[i], c) == Field(rows[j], c) {
          assert UniqueOn(rows, [c]) && SameKey(rows[i], rows[j], [c]);
        }
      }
    }
    if forall i, j :: 0 <= i < j < |rows| ==> !Clash(rows[i], rows[j]) {
      forall c | c in USER_KEYS ensures UniqueOn(rows, [c]) {
        forall i, j | 0 <= i < j < |rows| ensures !SameKey(rows[i], rows[j], [c]) {
          assert c in [c] && !Clash(rows[i], rows[j]);
        }
      }
    }
  }

  lemma PutUnique(rows: seq<Fields>, i: nat, put: Fields)
    requires UsersUnique(rows) && i < |rows|
    ensures UsersUnique(rows[i := put]) <==> forall k :: 0 <= k < |rows| && k != i ==> !Clash(rows[k], put)
  {
    hide UsersUnique, Clash;
    var after := rows[i := put];
    UsersUniqueMeans(rows);
    UsersUniqueMeans(after);
    ClashFlips();
    assert after[i] == put && forall k :: 0 <= k < |rows| && k != i ==> after[k] == rows[k];
  }

  /** MAIN: `users` has three keys and an INSERT looks for one conflict only. What it puts in the place of the first
      row it finds, the new row or the merged one, leaves all three unique if and only if that clashes with no
      other row; a row that is not put in, or that clashes with none, always does. */
  lemma UserKeysStayUniqueIff(rows: seq<Fields>, newRow: Fields, mode: OnConflict)
    requires UsersUnique(rows)
    ensures var i, after := FirstConflict("users", rows, newRow), InsertRow("users", rows, newRow, mode);
      && (i == -1 || mode.DoNothing? ==> UsersUnique(after))
      && (i >= 0 && !mode.DoNothing? ==>
            var put := if mode.DoUpdate? then rows[i] + newRow else newRow;
            (UsersUnique(after) <==> forall k :: 0 <= k < |rows| && k != i ==> !Clash(rows[k], put)))
  {
    hide FirstConflict, Conflicts, UsersUnique, Clash;
    UsersConflict();
    FirstConflictIsFirst("users", rows, newRow);
    var i := FirstConflict("users", rows, newRow);
    if i == -1 {
      UsersUniqueMeans(rows);
      UsersUniqueMeans(rows + [newRow]);
    } else {
      PutUnique(rows, i, newRow);
      PutUnique(rows, i, rows[i] + newRow);
    }
  }

  function User(id: string, username: string, email: string): Fields {
    map["id" := Str(id), "username" := Str(username), "email" := Str(email)]
  }

  /** So it can go wrong: a row that has one user's id and another's name replaces the first, and two users bear one
      name. */
  lemma UserKeysCanClash()
    ensures var rows, newRow := [User("1", "ann", "a@x"), User("2", "bob", "b@x")], User("1", "bob", "c@x");
      UsersUnique(rows) && !UsersUnique(InsertRow("users", rows, newRow, Unhandled))
  {
    var ann, bob, newRow := User("1", "ann", "a@x"), User("2", "bob", "b@x"), User("1", "bob", "c@x");
    hide FirstConflict, Conflicts, UsersUnique;
    var rows := [ann, bob];
    UsersUniqueMeans(rows);
    assert !Clash(ann, bob);
    UserKeysStayUniqueIff(rows, newRow, Unhandled);
    UsersConflict();
    FirstConflictIsFirst("users", rows, newRow);
    assert "id" in USER_KEYS && "username" in USER_KEYS;
    assert Clash(rows[0], newRow) && Clash(rows[1], newRow);
    assert FirstConflict("users", rows, newRow) == 0;
  }

  lemma ClashFlips()
    ensures forall a, b :: Clash(a, b) <==> Clash(b, a)
  {
  }
}
