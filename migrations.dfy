/** The schema migration runner: an ordered list of scripts whose entry 0 is
    a sentinel, a persisted `user_version` naming the last script applied,
    and one transaction per script. */
module Migrations {
  import opened Wrappers
  import opened Store

  /** A named script; it either transforms the tables or fails, and a failed
      script leaves nothing behind (its transaction is rolled back). */
  datatype Migration = Migration(name: string, script: Tables -> Result<Tables>)

  /** Where a run stops: the tables, the persisted version, the indices of
      the scripts attempted (in order) and the error, if any. */
  datatype Migrated = Migrated(tables: Tables, version: nat, attempted: seq<nat>, error: Option<string>)

  function FailedScript(name: string, e: string): string {
    "migration '" + name + "' failed (" + e + ")"
  }

  const FailedVersionBump: string := "failed to update version"

  /** The loop from index `next` on, with `version` persisted so far.
      `bumpOk(v)` says whether `PRAGMA user_version = v` succeeds. */
  function RunFrom(ts: Tables, version: nat, next: nat, ms: seq<Migration>, bumpOk: nat -> bool): Migrated
    decreases |ms| - next
  {
    if next >= |ms| then Migrated(ts, version, [], None)
    else
      match ms[next].script(ts)
      case Err(e) => Migrated(ts, version, [next], Some(FailedScript(ms[next].name, e)))
      case Ok(ts1) =>
        if !bumpOk(next) then Migrated(ts, version, [next], Some(FailedVersionBump))
        else
          var rest := RunFrom(ts1, next, next + 1, ms, bumpOk);
          rest.(attempted := [next] + rest.attempted)
  }

  /** `perform_migrations` from persisted version `prev`. */
  function Migrate(ts: Tables, prev: nat, ms: seq<Migration>, bumpOk: nat -> bool): Migrated {
    RunFrom(ts, prev, prev + 1, ms, bumpOk)
  }

  /** What `perform_migrations` returns: an error, or whether any script was
      pending. */
  function MigrateResult(ts: Tables, prev: nat, ms: seq<Migration>, bumpOk: nat -> bool): Result<bool>
    requires |ms| >= 1
  {
    var m := Migrate(ts, prev, ms, bumpOk);
    if m.error.Some? then Err(m.error.value) else Ok(prev < |ms| - 1)
  }

  /** The consecutive indices lo, lo + 1, ..., hi - 1. */
  function Range(lo: nat, hi: nat): (r: seq<nat>)
    ensures |r| == if lo <= hi then hi - lo else 0
    ensures forall i :: 0 <= i < |r| ==> r[i] == lo + i
    decreases hi - lo
  {
    if lo >= hi then [] else [lo] + Range(lo + 1, hi)
  }

  /** The scripts attempted are consecutive from `next`. On success they are
      all those from `next` to the end and the persisted version is the last
      index; on failure the last one attempted is the one that failed and
      the persisted version is the one before it. */
  lemma {:induction false} RunFromShape(ts: Tables, version: nat, next: nat, ms: seq<Migration>, bumpOk: nat -> bool)
    requires version + 1 == next
    ensures var m := RunFrom(ts, version, next, ms, bumpOk);
      && m.attempted == Range(next, next + |m.attempted|)
      && (m.error.None? ==> m.attempted == Range(next, |ms|)
                            && m.version == (if next < |ms| then |ms| - 1 else version))
      && (m.error.Some? ==> |m.attempted| > 0 && next + |m.attempted| <= |ms|
                            && m.version + 1 == m.attempted[|m.attempted| - 1])
    decreases |ms| - next
  {
    if next < |ms| && ms[next].script(ts).Ok? && bumpOk(next) {
      var ts1 := ms[next].script(ts).value;
      RunFromShape(ts1, next, next + 1, ms, bumpOk);
      var rest := RunFrom(ts1, next, next + 1, ms, bumpOk);
      RunFromStep(ts, version, next, ms, bumpOk);
      RangeCons(next, next + 1 + |rest.attempted|);
      RangeCons(next, |ms|);
    }
  }

  lemma RunFromStep(ts: Tables, version: nat, next: nat, ms: seq<Migration>, bumpOk: nat -> bool)
    requires next < |ms| && ms[next].script(ts).Ok? && bumpOk(next)
    ensures var rest := RunFrom(ms[next].script(ts).value, next, next + 1, ms, bumpOk);
      RunFrom(ts, version, next, ms, bumpOk) == rest.(attempted := [next] + rest.attempted)
  {
  }

  lemma RangeCons(lo: nat, hi: nat)
    requires lo < hi
    ensures [lo] + Range(lo + 1, hi) == Range(lo, hi)
  {
  }

  /** The scripts run are exactly those after the persisted version, in
      order; `true` is returned iff there were some. */
  lemma MigrateRunsPendingScripts(ts: Tables, prev: nat, ms: seq<Migration>, bumpOk: nat -> bool)
    requires |ms| >= 1
    ensures var m := Migrate(ts, prev, ms, bumpOk);
      MigrateResult(ts, prev, ms, bumpOk).Ok? ==>
        && m.attempted == Range(prev + 1, |ms|)
        && m.version == (if prev < |ms| - 1 then |ms| - 1 else prev)
        && MigrateResult(ts, prev, ms, bumpOk).value == (|m.attempted| > 0)
  {
    RunFromShape(ts, prev, prev + 1, ms, bumpOk);
  }

  /** A failing script or version bump stops the run: the scripts before it
      stay applied (the version names the last of them) and no later script
      is attempted. */
  lemma MigrateStopsAtFailure(ts: Tables, prev: nat, ms: seq<Migration>, bumpOk: nat -> bool)
    requires |ms| >= 1
    ensures var m := Migrate(ts, prev, ms, bumpOk);
      MigrateResult(ts, prev, ms, bumpOk).Err? ==>
        && |m.attempted| > 0
        && m.attempted == Range(prev + 1, m.version + 2)
        && m.version + 1 < |ms|
        && (ms[m.version + 1].script(m.tables).Err? || !bumpOk(m.version + 1))
  {
    RunFromShape(ts, prev, prev + 1, ms, bumpOk);
    FailureCause(ts, prev, prev + 1, ms, bumpOk);
  }

  lemma {:induction false} FailureCause(ts: Tables, version: nat, next: nat, ms: seq<Migration>, bumpOk: nat -> bool)
    requires version + 1 == next
    ensures var m := RunFrom(ts, version, next, ms, bumpOk);
      m.error.Some? ==> m.version + 1 < |ms| && (ms[m.version + 1].script(m.tables).Err? || !bumpOk(m.version + 1))
    decreases |ms| - next
  {
    if next < |ms| && ms[next].script(ts).Ok? && bumpOk(next) {
      FailureCause(ms[next].script(ts).value, next, next + 1, ms, bumpOk);
    }
  }

  /** Running the migrations again after a successful run changes nothing
      and reports that nothing was pending. */
  lemma MigrateIdempotent(ts: Tables, prev: nat, ms: seq<Migration>, bumpOk: nat -> bool)
    requires |ms| >= 1
    requires MigrateResult(ts, prev, ms, bumpOk).Ok?
    ensures var m := Migrate(ts, prev, ms, bumpOk);
      && Migrate(m.tables, m.version, ms, bumpOk) == Migrated(m.tables, m.version, [], None)
      && MigrateResult(m.tables, m.version, ms, bumpOk) == Ok(false)
  {
    RunFromShape(ts, prev, prev + 1, ms, bumpOk);
  }
}
