/** The `undo` command (src/commands/undo.rs): every command opens a step
    with a fixed retention window, and `undo` asks for the newest step's
    name before undoing it. The end-to-end history of the module's tests is
    proved here on the database object. */
module Undo {
  import opened Wrappers
  import opened Numerals
  import opened Values
  import opened Store
  import opened StoreFacts
  import opened SqliteImpl

  /** The retention window every step is opened with. */
  const MaxUndoSteps: nat := 128

  /** `begin_undo_step`. */
  method BeginUndoStep(db: SqliteDatabase, name: string)
    modifies db
    ensures db.Snapshot() == Store.BeginUndoStep(old(db.Snapshot()), name, MaxUndoSteps)
  {
    db.BeginUndoStep(name, MaxUndoSteps);
  }

  /** `command_undo`: the newest step's name is read first, for the
      confirmation prompt (taken as accepted), so with no step the command
      fails and the store is untouched. */
  method CommandUndo(db: SqliteDatabase) returns (r: Result<()>)
    modifies db
    ensures old(db.steps) == [] ==> r == Err(NothingToUndo) && db.Snapshot() == old(db.Snapshot())
    ensures old(db.steps) != [] ==>
      db.Snapshot() == UndoLastStep(old(db.Snapshot())).state && r == UndoLastStep(old(db.Snapshot())).result
  {
    var name := db.GetLastUndoStep();
    if name.Err? {
      return Err(name.msg);
    }
    r := db.UndoLastStep();
  }

  // -----------------------------------------------------------------------
  // The history of `truncate_history`: one account per step, one step more
  // than the window holds

  function AccountName(k: nat): string {
    "account_" + NatToString(k)
  }

  function StepName(k: nat): string {
    "undo_truncate_step_" + NatToString(k)
  }

  function AccountRowFor(k: nat): Row {
    AccountToRow(Account(AccountName(k), None, false))
  }

  lemma AccountNamesDistinct(a: nat, b: nat)
    requires a != b
    ensures AccountName(a) != AccountName(b)
  {
    assert AccountName(a)[8..] == NatToString(a);
    assert AccountName(b)[8..] == NatToString(b);
    NatToStringValue(a);
    NatToStringValue(b);
  }

  function Min(a: nat, b: nat): nat {
    if a < b then a else b
  }

  /** Step ids run without gaps up to the last id handed out. */
  predicate Consecutive(s: State) {
    forall i :: 0 <= i < |s.steps| ==> s.steps[i].id == s.nextStepId - |s.steps| + i
  }

  /** The step owns at least one statement, and every one is a delete. */
  predicate Undoable(stmts: seq<Captured>, id: int) {
    |StatementsOf(stmts, id)| > 0 && AllDeletes(StatementsOf(stmts, id))
  }

  predicate UndoableBut(s: State, id: int) {
    forall i :: 0 <= i < |s.steps| && s.steps[i].id != id ==> Undoable(s.statements, s.steps[i].id)
  }

  predicate AllUndoable(s: State) {
    forall i :: 0 <= i < |s.steps| ==> Undoable(s.statements, s.steps[i].id)
  }

  /** No stored account carries the name of round `k` or of a later one. */
  ghost predicate NamesAhead(s: State, k: nat) {
    forall x, j | x in s.tables.accounts && k <= j && |x.image| > 0 :: x.image[0] != Text(AccountName(j))
  }

  ghost predicate History(s: State, k: nat) {
    Valid(s) && Consecutive(s) && |s.steps| == Min(k, MaxUndoSteps) && AllUndoable(s)
    && NamesAhead(s, k) && s.rejected == {}
  }

  /** With gapless ids, opening a step keeps every step while the window
      has room and drops exactly the oldest once it is full. */
  lemma BeginWindow(s: State, name: string)
    requires Valid(s) && Consecutive(s) && |s.steps| <= MaxUndoSteps
    ensures Store.BeginUndoStep(s, name, MaxUndoSteps).steps
      == (if |s.steps| < MaxUndoSteps then s.steps else s.steps[1..]) + [Step(s.nextStepId, name)]
  {
    var bound := s.nextStepId - MaxUndoSteps;
    BeginUndoStepSteps(s, name, MaxUndoSteps);
    if |s.steps| < MaxUndoSteps {
      KeepStepsAll(s.steps, bound);
    } else {
      KeepStepsAll(s.steps[1..], bound);
    }
  }

  /** Opening the step of round `k`: the ids stay gapless, the window
      grows by one until it is full, and the new step owns nothing yet. */
  lemma BeginConsecutive(s: State, k: nat)
    requires History(s, k)
    ensures var s1 := Store.BeginUndoStep(s, StepName(k), MaxUndoSteps);
      && Valid(s1) && Consecutive(s1) && |s1.steps| == Min(k + 1, MaxUndoSteps)
      && LastStepId(s1) == Some(s.nextStepId) && StatementsOf(s1.statements, s.nextStepId) == []
      && s1.tables == s.tables && s1.rejected == {}
  {
    var N := s.nextStepId;
    FreshStep(s, StepName(k), MaxUndoSteps);
    BeginWindow(s, StepName(k));
    var kept := if |s.steps| < MaxUndoSteps then s.steps else s.steps[1..];
    assert forall i :: 0 <= i < |kept| ==> kept[i].id == N - |kept| + i;
  }

  /** Opening the step of round `k` leaves the statements of every older
      surviving step as they were. */
  lemma BeginUndoable(s: State, k: nat)
    requires History(s, k)
    ensures UndoableBut(Store.BeginUndoStep(s, StepName(k), MaxUndoSteps), s.nextStepId)
  {
    var N := s.nextStepId;
    var s1 := Store.BeginUndoStep(s, StepName(k), MaxUndoSteps);
    BeginWindow(s, StepName(k));
    forall i | 0 <= i < |s1.steps| && s1.steps[i].id != N
      ensures Undoable(s1.statements, s1.steps[i].id)
    {
      var j := if |s.steps| < MaxUndoSteps then i else i + 1;
      assert s.steps[j] == s1.steps[i];
      assert s.steps[j].id == N - |s.steps| + j;
      BeginUndoStepKeeps(s, StepName(k), MaxUndoSteps, s.steps[j].id);
    }
  }

  /** The account of round `k` clashes with no stored account. */
  lemma RoundInsertAccepted(s1: State, k: nat)
    requires Valid(s1) && NamesAhead(s1, k) && s1.rejected == {}
    ensures Insert(s1, Accounts, AccountRowFor(k)).result.Ok?
  {
    var row := AccountRowFor(k);
    var rows := s1.tables.accounts;
    forall y | y in rows ensures !Clash(y.image, row) {
      assert !NonKeyClash(y.image, row) by {
        assert row[1].Null?;
      }
    }
    InsertAccepted(s1, Accounts, row, FreshRowid(rows));
  }

  /** A delete captured into the step just opened makes that step undoable
      and leaves the other steps undoable. */
  lemma RoundUndoable(s1: State, s2: State, c: Captured, n: int)
    requires UndoableBut(s1, n) && StatementsOf(s1.statements, n) == []
    requires s2.steps == s1.steps && s2.statements == s1.statements + [c]
    requires c.stepId == Some(n) && c.op.DeleteRowid?
    ensures AllUndoable(s2)
  {
    forall i | 0 <= i < |s2.steps| ensures Undoable(s2.statements, s2.steps[i].id) {
      StatementsOfAppend(s1.statements, c, s2.steps[i].id);
    }
  }

  /** Storing the account of round `k` leaves no name of a later round. */
  lemma RoundNamesAhead(s1: State, s2: State, k: nat, e: Entry)
    requires NamesAhead(s1, k) && e.image == AccountRowFor(k)
    requires Elems(s2.tables.accounts) == Elems(s1.tables.accounts) + {e}
    ensures NamesAhead(s2, k + 1)
  {
    forall x, j | x in s2.tables.accounts && k + 1 <= j && |x.image| > 0 ensures x.image[0] != Text(AccountName(j)) {
      assert x in Elems(s2.tables.accounts);
      AccountNamesDistinct(k, j);
    }
  }

  /** Inserting the account of round `k` into the step just opened. */
  lemma InsertKeepsHistory(s: State, s1: State, k: nat)
    requires History(s, k)
    requires s1 == Store.BeginUndoStep(s, StepName(k), MaxUndoSteps)
    ensures var o := InsertOrGet(s1, Accounts, AccountRowFor(k));
      o.result.Ok? && o.result.value.New? && History(o.state, k + 1)
  {
    var N := s.nextStepId;
    var row := AccountRowFor(k);
    BeginConsecutive(s, k);
    BeginUndoable(s, k);
    RoundInsertAccepted(s1, k);
    var o := Insert(s1, Accounts, row);
    var rowid := InsertedRowid(s1, Accounts, row);
    InsertEffect(s1, Accounts, row);
    RoundUndoable(s1, o.state, Captured(Some(N), DeleteRowid(Accounts, rowid)), N);
    RoundNamesAhead(s1, o.state, k, Entry(rowid, o.result.value));
  }

  /** Undoing the newest step of a history whose steps each own only
      deletes: it succeeds and removes exactly that step. */
  lemma UndoRound(s: State)
    requires StepsAscending(s.steps) && AllUndoable(s) && |s.steps| > 0
    ensures var u := UndoLastStep(s);
      && u.result.Ok? && u.state.steps == s.steps[..|s.steps| - 1]
      && StepsAscending(u.state.steps) && AllUndoable(u.state)
  {
    var last := s.steps[|s.steps| - 1].id;
    var ops := PendingOps(s);
    assert ops == StatementsOf(s.statements, last);
    ReplayDeletesOk(s, ops);
    UndoIsReplay(s);
    UndoStepBookkeeping(s);
    var u := UndoLastStep(s);
    var s0 := s.(foreignKeys := false);
    assert u.state.statements == Replay(s0, PendingOps(s0)).state.statements;
    forall i | 0 <= i < |u.state.steps| ensures Undoable(u.state.statements, u.state.steps[i].id) {
      assert u.state.steps[i] == s.steps[i];
      ReplayKeeps(s0, PendingOps(s0), s.steps[i].id);
    }
  }

  /** undo.rs `truncate_history`: with one step more than the window holds,
      each opened by a command that inserts one account, every insert is
      new, exactly `MaxUndoSteps` undos succeed, and the next one fails. */
  method TruncateHistory(db: SqliteDatabase) returns (inserted: nat, undone: nat, last: Result<()>)
    requires Valid(db.Snapshot()) && db.steps == [] && db.tables.accounts == [] && db.rejected == {}
    modifies db
    ensures inserted == MaxUndoSteps + 1 && undone == MaxUndoSteps && last == Err(NothingToUndo)
  {
    inserted := 0;
    var step := 0;
    while step < MaxUndoSteps + 1
      invariant 0 <= step <= MaxUndoSteps + 1 && inserted == step
      invariant History(db.Snapshot(), step)
    {
      ghost var s := db.Snapshot();
      BeginUndoStep(db, StepName(step));
      ghost var s1 := db.Snapshot();
      InsertKeepsHistory(s, s1, step);
      var r := db.InsertOrGet(Accounts, AccountRowFor(step));
      if r.Ok? && r.value.New? {
        inserted := inserted + 1;
      }
      step := step + 1;
    }
    undone := 0;
    var i := 0;
    while i < MaxUndoSteps
      invariant 0 <= i <= MaxUndoSteps && undone == i
      invariant StepsAscending(db.steps) && AllUndoable(db.Snapshot()) && |db.steps| == MaxUndoSteps - i
    {
      UndoRound(db.Snapshot());
      var r := CommandUndo(db);
      if r.Ok? {
        undone := undone + 1;
      }
      i := i + 1;
    }
    last := CommandUndo(db);
  }
}
