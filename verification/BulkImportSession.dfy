/** The import endpoint on a database session whose savepoints nest and are never released on success. */
module BulkImportSession {
  import opened Wrappers
  import opened Catalogue
  import opened BulkImport

  class Session {
    var committed: Db
    var current: Db
    /** Snapshots taken by nested transactions that are still open, outermost first. */
    var savepoints: seq<Db>
    /** The id sequence hands out a value once, whatever is rolled back later. */
    var nextId: nat

    constructor (db: Db, nextId: nat)
      ensures committed == current == db && savepoints == [] && this.nextId == nextId
    {
      committed, current, savepoints, this.nextId := db, db, [], nextId;
    }

    method BeginNested()
      modifies `savepoints
      ensures savepoints == old(savepoints) + [current]
    {
      savepoints := savepoints + [current];
    }

    /** Rolls back to, and closes, the innermost open savepoint. */
    method RollbackInnermost()
      requires savepoints != []
      modifies `savepoints, `current
      ensures current == old(savepoints)[|old(savepoints)| - 1]
      ensures savepoints == old(savepoints)[..|old(savepoints)| - 1]
    {
      current := savepoints[|savepoints| - 1];
      savepoints := savepoints[..|savepoints| - 1];
    }

    /** Commits the outermost transaction, releasing whatever savepoints are open. */
    method Commit()
      modifies `committed, `savepoints
      ensures committed == current && savepoints == []
    {
      committed, savepoints := current, [];
    }

    method Rollback()
      modifies `current, `savepoints
      ensures current == committed && savepoints == []
    {
      current, savepoints := committed, [];
    }

    method NextVal() returns (id: nat)
      modifies `nextId
      ensures id == old(nextId) && nextId == id + 1
    {
      id := nextId;
      nextId := nextId + 1;
    }
  }

  /** The preflight: two passes over the rows, nothing written. */
  method RunPreflight(rows: seq<Row>) returns (failed: seq<FailedRow>)
    ensures failed == Preflight(rows)
  {
    failed := [];
    for i := 0 to |rows|
      invariant failed == Listed(rows, i)
    {
      if rows[i].key == "" {
        failed := failed + [FailedRow(i, "", MissingName)];
      }
    }
    ghost var nameless := failed;
    for i := 0 to |rows|
      invariant failed == nameless + ListedDuplicates(rows, i)
    {
      if rows[i].key != "" && SharesKey(rows, i) {
        failed := failed + [FailedRow(i, rows[i].key, DuplicateWithinUpload)];
      }
    }
  }

  method EnsureCategories(s: Session, org: string, rows: seq<Row>)
    modifies s`current
    ensures s.current == WithCategories(old(s.current), org, rows, |rows|)
  {
    for i := 0 to |rows|
      invariant s.current == WithCategories(old(s.current), org, rows, i)
    {
      var row := rows[i];
      if row.slug != "" && !HasCategory(s.current, org, row.slug) {
        s.current := s.current.(categories := s.current.categories + [Category(org, row.slug, row.categoryName)]);
      }
    }
  }

  /** One row that passed validation, inside its own savepoint; a raised write leaves a half-written row to undo. */
  method ImportRow(s: Session, batch: Batch, i: nat, ok: seq<OkRow>, failed: seq<FailedRow>, summary: Summary)
    returns (ok': seq<OkRow>, failed': seq<FailedRow>, summary': Summary)
    requires i < |batch.rows| && Refusal(batch.rows, i).None?
    modifies s`current, s`savepoints, s`nextId
    ensures Progress(s.current, s.nextId, ok', failed', summary') ==
            StepRow(batch, i, Progress(old(s.current), old(s.nextId), ok, failed, summary))
    ensures old(s.savepoints) <= s.savepoints
    ensures |s.savepoints| - |old(s.savepoints)| ==
            (summary'.created - summary.created) + (summary'.updated - summary.updated)
  {
    ok', failed', summary' := ok, failed, summary;
    var row := batch.rows[i];
    s.BeginNested();
    var at := Find(s.current.products, batch.org, row.key);
    if at < |s.current.products| {
      var existing := s.current.products[at];
      if batch.policy == Skip {
        s.RollbackInnermost();
        ok' := ok + [OkRow(i, row.key, existing.id, Skipped, 0)];
        summary' := summary.(skipped := summary.skipped + 1);
        return;
      }
      if batch.policy == Fail {
        s.RollbackInnermost();
        failed' := failed + [FailedRow(i, row.key, KeyExists)];
        summary' := summary.(failed := summary.failed + 1);
        return;
      }
      s.current := Replace(s.current, batch.org, row);
      if Raises(batch, i) {
        s.RollbackInnermost();
        failed' := failed + [FailedRow(i, row.key, DatabaseError)];
        summary' := summary.(failed := summary.failed + 1);
      } else {
        ok' := ok + [OkRow(i, row.key, existing.id, Updated, |row.tiers|)];
        summary' := summary.(updated := summary.updated + 1);
      }
    } else {
      var id := s.NextVal();
      s.current := Create(s.current, batch.org, row, id);
      if Raises(batch, i) {
        s.RollbackInnermost();
        failed' := failed + [FailedRow(i, row.key, DatabaseError)];
        summary' := summary.(failed := summary.failed + 1);
      } else {
        ok' := ok + [OkRow(i, row.key, id, Created, |row.tiers|)];
        summary' := summary.(created := summary.created + 1);
      }
    }
  }

  /** `POST /products/bulk`: what it reports and what it leaves in the database are those of the simple run. */
  method BulkImportProducts(s: Session, batch: Batch, dryRun: bool)
    returns (ok: seq<OkRow>, failed: seq<FailedRow>, summary: Summary)
    requires s.current == s.committed && s.savepoints == []
    modifies s
    ensures var p := Import(batch, old(s.committed), old(s.nextId));
            && ok == p.ok && failed == p.failed && summary == p.summary && s.nextId == p.nextId
            && s.committed == (if dryRun then old(s.committed) else p.db)
    ensures s.current == s.committed && s.savepoints == []
  {
    ghost var db, next := s.committed, s.nextId;
    ok, summary := [], Summary(0, 0, 0, 0);
    failed := RunPreflight(batch.rows);
    EnsureCategories(s, batch.org, batch.rows);
    var i := 0;
    while i < |batch.rows|
      invariant i <= |batch.rows| && s.committed == db
      invariant Progress(s.current, s.nextId, ok, failed, summary) == After(batch, db, next, i)
      invariant |s.savepoints| == summary.created + summary.updated
    {
      var refusal := Refusal(batch.rows, i);
      if PreFailed(batch.rows, i) {
        summary := summary.(failed := summary.failed + 1);
      } else if refusal.Some? {
        failed := failed + [FailedRow(i, batch.rows[i].key, refusal.value)];
        summary := summary.(failed := summary.failed + 1);
      } else {
        ok, failed, summary := ImportRow(s, batch, i, ok, failed, summary);
      }
      i := i + 1;
    }
    if dryRun {
      s.Rollback();
    } else {
      s.Commit();
    }
  }
}
