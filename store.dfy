/** The state of the SQLite store behind the program and the effect of each
    statement the storage layer issues on it: the three model tables, the
    undo tables (`undo_steps`, `undo_statements`), the `foreign_keys` pragma
    and the persisted `user_version`.

    The per-table triggers are part of every write: an insert appends a
    delete of the new rowid, an update appends an UPDATE of every field
    back to its old value (without a WHERE clause), and a delete appends,
    before the row goes, a re-insert of all its fields. Each goes to the
    step with the largest id, or to no step when there is none. */
module Store {
  import opened Wrappers
  import opened Values

  datatype Table = Accounts | Transactions | TagRules

  function Arity(t: Table): nat {
    match t
    case Accounts => AccountArity
    case Transactions => TransactionArity
    case TagRules => TagRuleArity
  }

  /** The first field of `transactions` and `tag_rules` is an INTEGER PRIMARY
      KEY, that is the rowid itself; the key of `accounts` is its name. */
  predicate KeyIsRowid(t: Table) { t != Accounts }

  /** A stored row: its rowid and its field values. */
  datatype Entry = Entry(rowid: int, image: Row)

  /** The model tables. Each is kept in ascending rowid order, the order in
      which a plain SELECT returns rows. */
  datatype Tables = Tables(accounts: seq<Entry>, transactions: seq<Entry>, tagRules: seq<Entry>) {
    function Get(t: Table): seq<Entry> {
      match t
      case Accounts => accounts
      case Transactions => transactions
      case TagRules => tagRules
    }

    function Set(t: Table, rows: seq<Entry>): (r: Tables)
      ensures r.Get(t) == rows
      ensures forall u :: u != t ==> r.Get(u) == Get(u)
    {
      match t
      case Accounts => this.(accounts := rows)
      case Transactions => this.(transactions := rows)
      case TagRules => this.(tagRules := rows)
    }
  }

  const EmptyTables: Tables := Tables([], [], [])

  /** An undo statement, as the triggers write it. */
  datatype Op =
    | DeleteRowid(table: Table, rowid: int)   // DELETE FROM t WHERE rowid = r
    | SetAll(table: Table, image: Row)        // UPDATE t SET f1 = v1, ... (no WHERE)
    | InsertImage(table: Table, image: Row)   // INSERT INTO t(f1, ...) VALUES(v1, ...)

  /** A row of `undo_statements`: the step it belongs to (NULL when no step
      existed) and the statement. */
  datatype Captured = Captured(stepId: Option<int>, op: Op)

  /** A row of `undo_steps`. */
  datatype Step = Step(id: int, name: string)

  datatype State = State(
    tables: Tables,
    steps: seq<Step>,            // in id order
    statements: seq<Captured>,   // in insertion order
    nextStepId: int,             // step ids are never reused
    foreignKeys: bool,           // PRAGMA foreign_keys
    version: nat,                // PRAGMA user_version
    rejected: set<(Table, Row)>) // rows refused by constraints of the schema other than the keys

  /** The result of one statement (or a group of them): the new state and
      what the caller sees. */
  datatype Outcome<T> = Outcome(state: State, result: Result<T>)

  const UniqueFailed: string := "UNIQUE constraint failed"
  const ConstraintFailed: string := "constraint failed"
  const DatatypeMismatch: string := "datatype mismatch"
  const WrongValueCount: string := "wrong number of values"
  const NothingToUndo: string := "there is nothing to undo."
  const DuplicateNotFound: string := "values are not unique, but can't find the duplicate."

  // -----------------------------------------------------------------------
  // Validity of a state

  predicate SortedByRowid(rows: seq<Entry>) {
    forall i, j :: 0 <= i < j < |rows| ==> rows[i].rowid < rows[j].rowid
  }

  /** All fields but the first are equal and none is NULL: a violation of the
      UNIQUE constraint across the non-key fields (NULLs are distinct). */
  predicate NonKeyClash(a: Row, b: Row) {
    |a| == |b| && forall i :: 1 <= i < |a| ==> a[i] == b[i] && !a[i].Null?
  }

  /** Two rows that cannot be stored together. */
  predicate Clash(a: Row, b: Row) {
    (|a| > 0 && |b| > 0 && a[0] == b[0] && !a[0].Null?) || NonKeyClash(a, b)
  }

  predicate WellFormedEntry(t: Table, e: Entry) {
    |e.image| == Arity(t)
    && (if KeyIsRowid(t) then e.image[0] == Integer(e.rowid) else !e.image[0].Null?)
  }

  predicate ValidRows(t: Table, rows: seq<Entry>) {
    SortedByRowid(rows)
    && (forall x | x in rows :: WellFormedEntry(t, x))
    && (forall x, y | x in rows && y in rows && x != y :: !Clash(x.image, y.image))
  }

  predicate ValidTables(ts: Tables) {
    ValidRows(Accounts, ts.accounts) && ValidRows(Transactions, ts.transactions) && ValidRows(TagRules, ts.tagRules)
  }

  predicate StepsAscending(steps: seq<Step>) {
    forall i, j :: 0 <= i < j < |steps| ==> steps[i].id < steps[j].id
  }

  predicate Valid(s: State) {
    ValidTables(s.tables)
    && StepsAscending(s.steps)
    && (forall i :: 0 <= i < |s.steps| ==> s.steps[i].id < s.nextStepId)
    && (forall i :: 0 <= i < |s.statements| && s.statements[i].stepId.Some? ==> s.statements[i].stepId.value < s.nextStepId)
  }

  /** Everything but the model tables and the undo statements is unchanged:
      writes to the model tables touch nothing else. */
  predicate SameSession(a: State, b: State) {
    a.steps == b.steps && a.nextStepId == b.nextStepId && a.foreignKeys == b.foreignKeys
    && a.version == b.version && a.rejected == b.rejected
  }

  // -----------------------------------------------------------------------
  // Rows

  function Images(rows: seq<Entry>): (r: seq<Row>)
    ensures |r| == |rows| && forall i :: 0 <= i < |rows| ==> r[i] == rows[i].image
  {
    if |rows| == 0 then [] else [rows[0].image] + Images(rows[1..])
  }

  /** `SELECT <all fields> FROM t`. */
  function SelectAll(s: State, t: Table): seq<Row> {
    Images(s.tables.Get(t))
  }

  /** The rowid SQLite picks for a row without an explicit one: one more than
      the largest in use. */
  function FreshRowid(rows: seq<Entry>): (r: int)
    ensures SortedByRowid(rows) ==> forall i :: 0 <= i < |rows| ==> rows[i].rowid < r
  {
    if |rows| == 0 then 1 else rows[|rows| - 1].rowid + 1
  }

  /** Where a row with this rowid goes: before the first larger or equal rowid. */
  function InsertPos(rows: seq<Entry>, rowid: int): (p: nat)
    ensures p <= |rows|
    ensures forall i :: 0 <= i < p ==> rows[i].rowid < rowid
    ensures p < |rows| ==> rows[p].rowid >= rowid
  {
    if |rows| == 0 || rows[0].rowid >= rowid then 0 else 1 + InsertPos(rows[1..], rowid)
  }

  function InsertSorted(rows: seq<Entry>, e: Entry): (r: seq<Entry>)
    ensures |r| == |rows| + 1
  {
    var p := InsertPos(rows, e.rowid);
    rows[..p] + [e] + rows[p..]
  }

  function RemoveAt(rows: seq<Entry>, k: nat): (r: seq<Entry>)
    requires k < |rows|
    ensures |r| == |rows| - 1
    ensures forall i :: 0 <= i < k ==> r[i] == rows[i]
    ensures forall i :: k <= i < |r| ==> r[i] == rows[i + 1]
  {
    rows[..k] + rows[k + 1..]
  }

  /** The position of the row with this rowid. */
  function FindRowid(rows: seq<Entry>, rowid: int): (r: Option<nat>)
    ensures r.Some? ==> r.value < |rows| && rows[r.value].rowid == rowid
    ensures r.None? ==> forall i :: 0 <= i < |rows| ==> rows[i].rowid != rowid
  {
    if |rows| == 0 then None
    else if rows[0].rowid == rowid then Some(0)
    else
      var r := FindRowid(rows[1..], rowid);
      if r.Some? then Some(r.value + 1) else None
  }

  /** The first row matching `WHERE <first field> = key`; NULL matches nothing. */
  function FindKey(rows: seq<Entry>, key: Value): (r: Option<nat>)
    ensures r.Some? ==> r.value < |rows| && |rows[r.value].image| > 0 && rows[r.value].image[0] == key && !key.Null?
    ensures r.None? ==> forall i :: 0 <= i < |rows| && |rows[i].image| > 0 ==> rows[i].image[0] != key || key.Null?
  {
    if |rows| == 0 || key.Null? then None
    else if |rows[0].image| > 0 && rows[0].image[0] == key then Some(0)
    else
      var r := FindKey(rows[1..], key);
      if r.Some? then Some(r.value + 1) else None
  }

  /** `WHERE (f2, ..., fn) IS (v2, ..., vn)`: all but the first field equal,
      NULL matching NULL. */
  predicate SameNonKey(a: Row, b: Row) {
    |a| == |b| && |a| > 0 && a[1..] == b[1..]
  }

  /** The first row, in rowid order, whose non-key fields are those of `image`. */
  function FindNonKey(rows: seq<Entry>, image: Row): (r: Option<nat>)
    ensures r.Some? ==> r.value < |rows| && SameNonKey(rows[r.value].image, image)
    ensures r.Some? ==> forall i :: 0 <= i < r.value ==> !SameNonKey(rows[i].image, image)
    ensures r.None? ==> forall i :: 0 <= i < |rows| ==> !SameNonKey(rows[i].image, image)
  {
    if |rows| == 0 then None
    else if SameNonKey(rows[0].image, image) then Some(0)
    else
      var r := FindNonKey(rows[1..], image);
      if r.Some? then Some(r.value + 1) else None
  }

  /** Some stored row, other than the one at `except`, cannot coexist with `image`. */
  predicate ConflictExcept(rows: seq<Entry>, image: Row, except: int) {
    exists i :: 0 <= i < |rows| && i != except && Clash(rows[i].image, image)
  }

  // -----------------------------------------------------------------------
  // Triggers

  /** `SELECT MAX(id) FROM undo_steps`. */
  function LastStepId(s: State): Option<int> {
    if |s.steps| == 0 then None else Some(s.steps[|s.steps| - 1].id)
  }

  /** A trigger appends an undo statement for the step with the largest id. */
  function Capture(s: State, op: Op): (r: State)
    ensures SameSession(s, r) && r.tables == s.tables
    ensures r.statements == s.statements + [Captured(LastStepId(s), op)]
  {
    s.(statements := s.statements + [Captured(LastStepId(s), op)])
  }

  // -----------------------------------------------------------------------
  // Statements on the model tables

  /** The rowid an INSERT of `image` gets, or an error for a non-integer key
      in a table whose key is the rowid. */
  function RowidFor(rows: seq<Entry>, t: Table, image: Row): Result<int>
    requires |image| > 0
  {
    if !KeyIsRowid(t) || image[0].Null? then Ok(FreshRowid(rows))
    else if image[0].Integer? then Ok(image[0].i)
    else Err(DatatypeMismatch)
  }

  /** `INSERT INTO t(<all fields>) VALUES(<image>)`, with its AFTER INSERT
      trigger; the result is the stored row (what RETURNING gives back). */
  function Insert(s: State, t: Table, image: Row): (o: Outcome<Row>)
    ensures SameSession(s, o.state)
    ensures o.result.Err? ==> o.state == s
    ensures o.result.Ok? ==> |o.result.value| == Arity(t) && (KeyIsRowid(t) ==> o.result.value[0].Integer?)
  {
    var rows := s.tables.Get(t);
    if |image| != Arity(t) then Outcome(s, Err(WrongValueCount))
    else
      match RowidFor(rows, t, image)
      case Err(e) => Outcome(s, Err(e))
      case Ok(rowid) =>
        var stored := if KeyIsRowid(t) then image[0 := Integer(rowid)] else image;
        if ConflictExcept(rows, stored, -1) then Outcome(s, Err(UniqueFailed))
        else if (t, stored) in s.rejected then Outcome(s, Err(ConstraintFailed))
        else
          var s1 := s.(tables := s.tables.Set(t, InsertSorted(rows, Entry(rowid, stored))));
          Outcome(Capture(s1, DeleteRowid(t, rowid)), Ok(stored))
  }

  /** `UPDATE t SET (<all fields>) = (<image>) WHERE <first field> = image[0]`,
      with its AFTER UPDATE trigger. */
  function UpdateByKey(s: State, t: Table, image: Row): (o: Outcome<()>)
    ensures SameSession(s, o.state)
    ensures o.result.Err? ==> o.state == s
  {
    var rows := s.tables.Get(t);
    if |image| != Arity(t) then Outcome(s, Err(WrongValueCount))
    else
      match FindKey(rows, image[0])
      case None => Outcome(s, Ok(()))
      case Some(k) =>
        if ConflictExcept(rows, image, k) then Outcome(s, Err(UniqueFailed))
        else if (t, image) in s.rejected then Outcome(s, Err(ConstraintFailed))
        else
          var s1 := s.(tables := s.tables.Set(t, rows[k := Entry(rows[k].rowid, image)]));
          Outcome(Capture(s1, SetAll(t, rows[k].image)), Ok(()))
  }

  /** `DELETE FROM t WHERE <first field> = key`, with its BEFORE DELETE
      trigger; the result is the change count. */
  function DeleteByKey(s: State, t: Table, key: Value): (o: Outcome<nat>)
    ensures SameSession(s, o.state) && o.result.Ok?
  {
    var rows := s.tables.Get(t);
    match FindKey(rows, key)
    case None => Outcome(s, Ok(0))
    case Some(k) =>
      var s1 := Capture(s, InsertImage(t, rows[k].image));
      Outcome(s1.(tables := s1.tables.Set(t, RemoveAt(rows, k))), Ok(1))
  }

  /** `DELETE FROM t WHERE rowid = r`, with its BEFORE DELETE trigger. */
  function DeleteRowidStmt(s: State, t: Table, rowid: int): (r: State)
    ensures SameSession(s, r)
  {
    var rows := s.tables.Get(t);
    match FindRowid(rows, rowid)
    case None => s
    case Some(k) =>
      var s1 := Capture(s, InsertImage(t, rows[k].image));
      s1.(tables := s1.tables.Set(t, RemoveAt(rows, k)))
  }

  /** Every row takes `image` (keeping its rowid unless the key is the rowid). */
  function Overwrite(t: Table, rows: seq<Entry>, image: Row): (r: seq<Entry>)
    requires KeyIsRowid(t) ==> |image| > 0 && image[0].Integer?
    ensures |r| == |rows|
    ensures forall i :: 0 <= i < |r| ==> r[i].image == image
  {
    if |rows| == 0 then []
    else [Entry(if KeyIsRowid(t) then image[0].i else rows[0].rowid, image)] + Overwrite(t, rows[1..], image)
  }

  /** The AFTER UPDATE trigger, once per updated row, in scan order. */
  function CaptureEach(s: State, t: Table, before: seq<Entry>): (r: State)
    ensures SameSession(s, r) && r.tables == s.tables
    ensures |r.statements| == |s.statements| + |before|
    decreases |before|
  {
    if |before| == 0 then s else CaptureEach(Capture(s, SetAll(t, before[0].image)), t, before[1..])
  }

  /** `UPDATE t SET f1 = v1, ...` without a WHERE clause: every row receives
      the same values, so with two rows or more the key is duplicated and
      the statement fails as a whole. */
  function SetAllStmt(s: State, t: Table, image: Row): (o: Outcome<()>)
    ensures SameSession(s, o.state)
    ensures o.result.Err? ==> o.state == s
  {
    var rows := s.tables.Get(t);
    if |image| != Arity(t) then Outcome(s, Err(WrongValueCount))
    else if |rows| == 0 then Outcome(s, Ok(()))
    else if KeyIsRowid(t) && !image[0].Integer? then Outcome(s, Err(DatatypeMismatch))
    else if |rows| >= 2 && Clash(image, image) then Outcome(s, Err(UniqueFailed))
    else if (t, image) in s.rejected then Outcome(s, Err(ConstraintFailed))
    else
      var s1 := s.(tables := s.tables.Set(t, Overwrite(t, rows, image)));
      Outcome(CaptureEach(s1, t, rows), Ok(()))
  }

  /** Running one captured statement. */
  function Execute(s: State, op: Op): (o: Outcome<()>)
    ensures SameSession(s, o.state)
  {
    match op
    case DeleteRowid(t, rowid) => Outcome(DeleteRowidStmt(s, t, rowid), Ok(()))
    case SetAll(t, image) => SetAllStmt(s, t, image)
    case InsertImage(t, image) =>
      var o := Insert(s, t, image);
      Outcome(o.state, if o.result.Ok? then Ok(()) else Err(o.result.msg))
  }

  /** Running statements in order, stopping at the first failure. */
  function Replay(s: State, ops: seq<Op>): (o: Outcome<()>)
    ensures SameSession(s, o.state)
    decreases |ops|
  {
    if |ops| == 0 then Outcome(s, Ok(()))
    else
      var o := Execute(s, ops[0]);
      if o.result.Err? then o else Replay(o.state, ops[1..])
  }

  // -----------------------------------------------------------------------
  // The facade (impl_model_operations)

  datatype NewOrExisting = New(row: Row) | Existing(row: Row)

  predicate StartsWith(s: string, prefix: string) {
    |prefix| <= |s| && s[..|prefix|] == prefix
  }

  /** `insert_or_get`: insert; on a UNIQUE violation, the first row whose
      non-key fields are those of `image` (compared with IS). */
  function InsertOrGet(s: State, t: Table, image: Row): (o: Outcome<NewOrExisting>)
    ensures SameSession(s, o.state)
    ensures o.result.Err? || o.result.value.Existing? ==> o.state == s
    ensures Insert(s, t, image).result.Ok? <==> o.result.Ok? && o.result.value.New?
    ensures Insert(s, t, image).result.Ok? ==> o == Outcome(Insert(s, t, image).state, Ok(New(Insert(s, t, image).result.value)))
  {
    var o := Insert(s, t, image);
    match o.result
    case Ok(row) => Outcome(o.state, Ok(New(row)))
    case Err(e) =>
      if !StartsWith(e, UniqueFailed) then Outcome(o.state, Err(e))
      else
        var rows := o.state.tables.Get(t);
        match FindNonKey(rows, image)
        case None => Outcome(o.state, Err(DuplicateNotFound))
        case Some(k) => Outcome(o.state, Ok(Existing(rows[k].image)))
  }

  // -----------------------------------------------------------------------
  // Undo steps

  /** The statements of the given step, in the order they were captured. */
  function StatementsOf(stmts: seq<Captured>, stepId: int): (ops: seq<Op>)
    ensures |ops| <= |stmts|
  {
    if |stmts| == 0 then []
    else
      var rest := StatementsOf(stmts[1..], stepId);
      if stmts[0].stepId == Some(stepId) then [stmts[0].op] + rest else rest
  }

  /** The undo statements of the step with the largest id. */
  function PendingOps(s: State): seq<Op> {
    match LastStepId(s)
    case None => []
    case Some(id) => StatementsOf(s.statements, id)
  }

  function StepIds(steps: seq<Step>): set<int> {
    set i | 0 <= i < |steps| :: steps[i].id
  }

  function KeepSteps(steps: seq<Step>, bound: int): (r: seq<Step>)
    ensures |r| <= |steps|
    ensures forall i :: 0 <= i < |r| ==> r[i].id > bound
  {
    if |steps| == 0 then []
    else
      var rest := KeepSteps(steps[1..], bound);
      if steps[0].id > bound then [steps[0]] + rest else rest
  }

  function DropStatementsOf(stmts: seq<Captured>, ids: set<int>): (r: seq<Captured>)
    ensures |r| <= |stmts|
    ensures forall x :: x in r ==> x in stmts && !(x.stepId.Some? && x.stepId.value in ids)
  {
    if |stmts| == 0 then []
    else
      var rest := DropStatementsOf(stmts[1..], ids);
      if stmts[0].stepId.Some? && stmts[0].stepId.value in ids then rest else [stmts[0]] + rest
  }

  /** Deleting the steps with id at most `bound`; the ON DELETE CASCADE of
      `undo_statements` takes their statements along only while foreign
      keys are enforced. */
  function DeleteStepsUpTo(s: State, bound: int): State {
    var gone := set i | 0 <= i < |s.steps| && s.steps[i].id <= bound :: s.steps[i].id;
    s.(steps := KeepSteps(s.steps, bound),
       statements := if s.foreignKeys then DropStatementsOf(s.statements, gone) else s.statements)
  }

  /** `DELETE FROM undo_steps`. */
  function DeleteAllSteps(s: State): State {
    s.(steps := [],
       statements := if s.foreignKeys then DropStatementsOf(s.statements, StepIds(s.steps)) else s.statements)
  }

  /** `DELETE FROM undo_steps WHERE id = <id>`. */
  function DeleteStep(s: State, id: int): State {
    var gone := if id in StepIds(s.steps) then {id} else {};
    s.(steps := RemoveStep(s.steps, id),
       statements := if s.foreignKeys then DropStatementsOf(s.statements, gone) else s.statements)
  }

  function RemoveStep(steps: seq<Step>, id: int): (r: seq<Step>)
    ensures forall x :: x in r <==> x in steps && x.id != id
  {
    if |steps| == 0 then []
    else
      var rest := RemoveStep(steps[1..], id);
      assert forall x :: x in steps <==> x == steps[0] || x in steps[1..];
      if steps[0].id == id then rest else [steps[0]] + rest
  }

  /** `begin_undo_step`: append a step, then delete every step whose id is at
      most the largest id minus `maxSteps`. */
  function BeginUndoStep(s: State, name: string, maxSteps: nat): State {
    var s1 := s.(steps := s.steps + [Step(s.nextStepId, name)], nextStepId := s.nextStepId + 1);
    DeleteStepsUpTo(s1, s.nextStepId - maxSteps)
  }

  /** `get_last_undo_step`: the name of the step with the largest id. */
  function GetLastUndoStep(s: State): Result<string> {
    if |s.steps| == 0 then Err(NothingToUndo) else Ok(s.steps[|s.steps| - 1].name)
  }

  /** `undo_last_step`. Foreign keys are switched off for the whole call (and
      back on at every exit); the newest step's statements are run in
      capture order, their own triggers appending to that same step; then
      the step is deleted, with foreign keys still off. */
  function UndoLastStep(s: State): Outcome<()> {
    var s1 := s.(foreignKeys := false);
    var ops := PendingOps(s1);
    if |ops| == 0 then Outcome(s1.(foreignKeys := true), Err(NothingToUndo))
    else
      var o := Replay(s1, ops);
      if o.result.Err? then Outcome(o.state.(foreignKeys := true), o.result)
      else Outcome(DeleteStep(o.state, LastStepId(s1).value).(foreignKeys := true), Ok(()))
  }

  /** SQL `x NOT IN (list)`: true only when `x` is absent and the list holds
      no NULL; with a NULL it is never true. */
  predicate NotInStatements(stmts: seq<Captured>, id: int) {
    (forall i :: 0 <= i < |stmts| ==> stmts[i].stepId.Some?)
    && (forall i :: 0 <= i < |stmts| ==> stmts[i].stepId != Some(id))
  }

  function KeepReferenced(steps: seq<Step>, stmts: seq<Captured>): (r: seq<Step>)
    ensures forall x :: x in r <==> x in steps && !NotInStatements(stmts, x.id)
  {
    if |steps| == 0 then []
    else
      var rest := KeepReferenced(steps[1..], stmts);
      assert forall x :: x in steps <==> x == steps[0] || x in steps[1..];
      if NotInStatements(stmts, steps[0].id) then rest else [steps[0]] + rest
  }

  /** `initialize_undo`: optionally wipe every step, then delete the steps
      that own no statement. */
  function InitializeUndo(s: State, fromScratch: bool): State {
    var s1 := if fromScratch then DeleteAllSteps(s) else s;
    var kept := KeepReferenced(s1.steps, s1.statements);
    var gone := set i | 0 <= i < |s1.steps| && s1.steps[i] !in kept :: s1.steps[i].id;
    s1.(steps := kept,
        statements := if s1.foreignKeys then DropStatementsOf(s1.statements, gone) else s1.statements)
  }
}
