/** The SQLite-backed database: one connection whose session state (the
    tables, the undo tables, `foreign_keys` and `user_version`) the methods
    update in place. Each method is proved against the statement semantics
    of module Store. */
module SqliteImpl {
  import opened Wrappers
  import opened Values
  import opened Store
  import opened Migrations

  class SqliteDatabase {
    var tables: Tables
    var steps: seq<Step>
    var statements: seq<Captured>
    var nextStepId: int
    var foreignKeys: bool
    var version: nat
    const rejected: set<(Table, Row)>

    function Snapshot(): State
      reads this
    {
      State(tables, steps, statements, nextStepId, foreignKeys, version, rejected)
    }

    /** A freshly opened, empty database: SQLite starts with foreign keys off
        and `user_version` 0. */
    constructor (rejected: set<(Table, Row)>)
      ensures Snapshot() == State(EmptyTables, [], [], 1, false, 0, rejected)
    {
      tables := EmptyTables;
      steps := [];
      statements := [];
      nextStepId := 1;
      foreignKeys := false;
      version := 0;
      this.rejected := rejected;
    }

    /** The effect of one statement: the new session state. */
    method Apply(s: State)
      requires s.rejected == rejected
      modifies this
      ensures Snapshot() == s
    {
      tables, steps, statements, nextStepId, foreignKeys, version := s.tables, s.steps, s.statements, s.nextStepId, s.foreignKeys, s.version;
    }

    /** `perform_migrations`. */
    method PerformMigrations(ms: seq<Migration>, bumpOk: nat -> bool) returns (r: Result<bool>)
      requires |ms| >= 1
      modifies this
      ensures var m := Migrate(old(tables), old(version), ms, bumpOk);
        tables == m.tables && version == m.version
      ensures r == MigrateResult(old(tables), old(version), ms, bumpOk)
      ensures steps == old(steps) && statements == old(statements) && nextStepId == old(nextStepId)
      ensures foreignKeys == old(foreignKeys)
    {
      var prev := version;
      var next := prev + 1;
      while next < |ms|
        invariant next == version + 1 && version >= prev
        invariant var total := Migrate(old(tables), prev, ms, bumpOk);
          var rest := RunFrom(tables, version, next, ms, bumpOk);
          rest.tables == total.tables && rest.version == total.version && rest.error == total.error
        invariant steps == old(steps) && statements == old(statements) && nextStepId == old(nextStepId)
        invariant foreignKeys == old(foreignKeys)
        decreases |ms| - next
      {
        // BEGIN TRANSACTION; the script; on failure ROLLBACK.
        var outcome := ms[next].script(tables);
        if outcome.Err? {
          return Err(FailedScript(ms[next].name, outcome.msg));
        }
        // PRAGMA user_version = next; on failure ROLLBACK.
        if !bumpOk(next) {
          return Err(FailedVersionBump);
        }
        // END TRANSACTION
        tables := outcome.value;
        version := next;
        next := next + 1;
      }
      return Ok(prev < |ms| - 1);
    }

    /** `initialize_sqlite`: enforce foreign keys, then migrate. */
    method InitializeSqlite(ms: seq<Migration>, bumpOk: nat -> bool) returns (r: Result<bool>)
      requires |ms| >= 1
      modifies this
      ensures var m := Migrate(old(tables), old(version), ms, bumpOk);
        tables == m.tables && version == m.version && foreignKeys
      ensures var expected := MigrateResult(old(tables), old(version), ms, bumpOk);
        r == if expected.Ok? then expected else Err("failed to apply migration: " + expected.msg)
      ensures steps == old(steps) && statements == old(statements) && nextStepId == old(nextStepId)
    {
      foreignKeys := true;
      r := PerformMigrations(ms, bumpOk);
      if r.Err? {
        r := Err("failed to apply migration: " + r.msg);
      }
    }

    /** `initialize_undo`. */
    method InitializeUndo(fromScratch: bool)
      modifies this
      ensures Snapshot() == Store.InitializeUndo(old(Snapshot()), fromScratch)
    {
      Apply(Store.InitializeUndo(Snapshot(), fromScratch));
    }

    /** Opening the database: migrate, then prepare undo, wiping the undo
        history when the schema changed. */
    method Open(ms: seq<Migration>, bumpOk: nat -> bool) returns (r: Result<()>)
      requires |ms| >= 1
      modifies this
      ensures var m := Migrate(old(tables), old(version), ms, bumpOk);
        var expected := MigrateResult(old(tables), old(version), ms, bumpOk);
        var migrated := old(Snapshot()).(tables := m.tables, version := m.version, foreignKeys := true);
        && (expected.Err? ==> Snapshot() == migrated && r.Err?)
        && (expected.Ok? ==> Snapshot() == Store.InitializeUndo(migrated, expected.value) && r.Ok?)
    {
      var updated := InitializeSqlite(ms, bumpOk);
      if updated.Err? {
        return Err(updated.msg);
      }
      InitializeUndo(updated.value);
      return Ok(());
    }

    /** `begin_undo_step`. */
    method BeginUndoStep(name: string, maxSteps: nat)
      modifies this
      ensures Snapshot() == Store.BeginUndoStep(old(Snapshot()), name, maxSteps)
    {
      // INSERT INTO undo_steps VALUES(NULL, name)
      steps := steps + [Step(nextStepId, name)];
      nextStepId := nextStepId + 1;
      // DELETE FROM undo_steps WHERE id <= (SELECT MAX(id) FROM undo_steps) - maxSteps
      Apply(DeleteStepsUpTo(Snapshot(), nextStepId - 1 - maxSteps));
    }

    /** `get_last_undo_step`. */
    method GetLastUndoStep() returns (r: Result<string>)
      ensures r.Ok? <==> |steps| > 0
      ensures r.Ok? ==> r.value == steps[|steps| - 1].name
      ensures r.Err? ==> r.msg == NothingToUndo
    {
      if |steps| == 0 {
        return Err(NothingToUndo);
      }
      return Ok(steps[|steps| - 1].name);
    }

    /** One captured statement. */
    method Execute(op: Op) returns (r: Result<()>)
      modifies this
      ensures Snapshot() == Store.Execute(old(Snapshot()), op).state
      ensures r == Store.Execute(old(Snapshot()), op).result
    {
      var o := Store.Execute(Snapshot(), op);
      Apply(o.state);
      r := o.result;
    }

    /** `undo_last_step`. */
    method UndoLastStep() returns (r: Result<()>)
      modifies this
      ensures Snapshot() == Store.UndoLastStep(old(Snapshot())).state
      ensures r == Store.UndoLastStep(old(Snapshot())).result
    {
      // SuspendForeignKeys::new
      foreignKeys := false;
      var suspended := Snapshot();
      var ops := PendingOps(suspended);
      if |ops| == 0 {
        foreignKeys := true;
        return Err(NothingToUndo);
      }
      var i := 0;
      while i < |ops|
        invariant 0 <= i <= |ops|
        invariant Replay(Snapshot(), ops[i..]) == Replay(suspended, ops)
        invariant steps == suspended.steps && !foreignKeys
      {
        assert ops[i..][1..] == ops[i + 1..];
        r := Execute(ops[i]);
        if r.Err? {
          foreignKeys := true;
          return;
        }
        i := i + 1;
      }
      // DELETE FROM undo_steps WHERE id = <the step's id>, foreign keys still off
      Apply(DeleteStep(Snapshot(), LastStepId(suspended).value));
      // the guard is dropped
      foreignKeys := true;
      r := Ok(());
    }

    /** `get_all`: every row, in rowid order. */
    method GetAll(t: Table) returns (rows: seq<Row>)
      ensures |rows| == |tables.Get(t)|
      ensures forall i :: 0 <= i < |rows| ==> rows[i] == tables.Get(t)[i].image
    {
      rows := SelectAll(Snapshot(), t);
    }

    /** `update`. */
    method Update(t: Table, image: Row) returns (r: Result<()>)
      modifies this
      ensures Snapshot() == UpdateByKey(old(Snapshot()), t, image).state
      ensures r == UpdateByKey(old(Snapshot()), t, image).result
    {
      var o := UpdateByKey(Snapshot(), t, image);
      Apply(o.state);
      r := o.result;
    }

    /** `insert_or_get`. */
    method InsertOrGet(t: Table, image: Row) returns (r: Result<NewOrExisting>)
      modifies this
      ensures Snapshot() == Store.InsertOrGet(old(Snapshot()), t, image).state
      ensures r == Store.InsertOrGet(old(Snapshot()), t, image).result
    {
      var o := Store.InsertOrGet(Snapshot(), t, image);
      Apply(o.state);
      r := o.result;
    }

    /** `delete`: by the first field of `image`; the change count. */
    method Delete(t: Table, image: Row) returns (r: Result<nat>)
      requires |image| > 0
      modifies this
      ensures Snapshot() == DeleteByKey(old(Snapshot()), t, image[0]).state
      ensures r == DeleteByKey(old(Snapshot()), t, image[0]).result
    {
      var o := DeleteByKey(Snapshot(), t, image[0]);
      Apply(o.state);
      r := o.result;
    }
  }
}
