/**
 The bulk import as one row after another: what each row does to the catalogue and
 where it is reported.  The endpoint itself, with its savepoints, is proved to be
 this run in BulkImportSession.
 */
module BulkImport {
  import opened Wrappers
  import opened Catalogue

  datatype Action = Created | Updated | Skipped

  datatype Error = MissingName | DuplicateWithinUpload | BadStrategy | MissingCategory | KeyExists | DatabaseError

  datatype OkRow = OkRow(row: nat, key: string, productId: nat, action: Action, tierCount: nat)

  datatype FailedRow = FailedRow(row: nat, key: string, error: Error)

  datatype Summary = Summary(created: nat, updated: nat, skipped: nat, failed: nat)

  /** A batch: the organisation, the rows, the policy, and the rows on which the database itself refuses a write. */
  datatype Batch = Batch(org: string, rows: seq<Row>, policy: Policy, faults: set<nat>)

  /** How far an import has come. */
  datatype Progress = Progress(db: Db, nextId: nat, ok: seq<OkRow>, failed: seq<FailedRow>, summary: Summary)

  // --------------------------------------------------------------- validation

  predicate SharesKey(rows: seq<Row>, i: nat)
    requires i < |rows|
  {
    exists j | 0 <= j < |rows| :: j != i && rows[j].key == rows[i].key
  }

  /** Rows the preflight refuses before anything is written. */
  predicate PreFailed(rows: seq<Row>, i: nat)
    requires i < |rows|
  {
    rows[i].key == "" || SharesKey(rows, i)
  }

  predicate Filled(row: Row, field: string) {
    field in row.fields
  }

  /** The pricing strategy lacks a column it needs. */
  predicate Incomplete(row: Row) {
    || (row.strategy == "per_unit" && !Filled(row, "unit_price"))
    || (row.strategy == "bulk_break"
        && !(Filled(row, "unit_price") && Filled(row, "bulk_price") && Filled(row, "bulk_threshold")))
    || (row.strategy in ["per_sqm", "per_unit_metric"] && !Filled(row, "unit_price"))
    || (row.strategy == "per_sheet"
        && !(Filled(row, "sheet_size_mm") && row.fields["sheet_size_mm"] != "" && Filled(row, "sheet_price")))
  }

  /** The first check in the row loop that refuses row i, if any. */
  function Refusal(rows: seq<Row>, i: nat): Option<Error>
    requires i < |rows|
  {
    if PreFailed(rows, i) then Some(if rows[i].key == "" then MissingName else DuplicateWithinUpload)
    else if Incomplete(rows[i]) then Some(BadStrategy)
    else if rows[i].slug == "" then Some(MissingCategory)
    else None
  }

  /** Writing row i raises: its own tiers clash, or the database refuses. */
  predicate Raises(batch: Batch, i: nat)
    requires i < |batch.rows|
  {
    TiersClash(batch.rows[i].tiers) || i in batch.faults
  }

  // ------------------------------------------------------------------ one row

  function Failing(p: Progress, i: nat, key: string, error: Error): Progress {
    p.(failed := p.failed + [FailedRow(i, key, error)], summary := p.summary.(failed := p.summary.failed + 1))
  }

  function Succeeding(p: Progress, db: Db, line: OkRow): Progress {
    var s := p.summary;
    p.(db := db, ok := p.ok + [line],
       summary := match line.action
                  case Created => s.(created := s.created + 1)
                  case Updated => s.(updated := s.updated + 1)
                  case Skipped => s.(skipped := s.skipped + 1))
  }

  /** Row i on its own.  Preflight refusals are already listed and only counted here. */
  function StepRow(batch: Batch, i: nat, p: Progress): Progress
    requires i < |batch.rows|
  {
    var row := batch.rows[i];
    if PreFailed(batch.rows, i) then p.(summary := p.summary.(failed := p.summary.failed + 1))
    else if Refusal(batch.rows, i).Some? then Failing(p, i, row.key, Refusal(batch.rows, i).value)
    else if HasKey(p.db, batch.org, row.key) then
      var id := p.db.products[Find(p.db.products, batch.org, row.key)].id;
      if batch.policy == Skip then Succeeding(p, p.db, OkRow(i, row.key, id, Skipped, 0))
      else if batch.policy == Fail then Failing(p, i, row.key, KeyExists)
      else if Raises(batch, i) then Failing(p, i, row.key, DatabaseError)
      else Succeeding(p, Replace(p.db, batch.org, row), OkRow(i, row.key, id, Updated, |row.tiers|))
    else
      var taken := p.(nextId := p.nextId + 1);
      if Raises(batch, i) then Failing(taken, i, row.key, DatabaseError)
      else Succeeding(taken, Create(p.db, batch.org, row, p.nextId), OkRow(i, row.key, p.nextId, Created, |row.tiers|))
  }

  function Listed(rows: seq<Row>, n: nat): seq<FailedRow>
    requires n <= |rows|
  {
    if n == 0 then []
    else Listed(rows, n - 1) + if rows[n - 1].key == "" then [FailedRow(n - 1, "", MissingName)] else []
  }

  function ListedDuplicates(rows: seq<Row>, n: nat): seq<FailedRow>
    requires n <= |rows|
  {
    if n == 0 then []
    else
      ListedDuplicates(rows, n - 1) +
      if rows[n - 1].key != "" && SharesKey(rows, n - 1)
      then [FailedRow(n - 1, rows[n - 1].key, DuplicateWithinUpload)] else []
  }

  /** The preflight's report: nameless rows first, then every row of every duplicate group. */
  function Preflight(rows: seq<Row>): seq<FailedRow> {
    Listed(rows, |rows|) + ListedDuplicates(rows, |rows|)
  }

  /** Categories the rows mention are created up front, whatever becomes of the rows. */
  function WithCategories(db: Db, org: string, rows: seq<Row>, n: nat): Db
    requires n <= |rows|
  {
    if n == 0 then db
    else
      var before := WithCategories(db, org, rows, n - 1);
      var row := rows[n - 1];
      if row.slug == "" || HasCategory(before, org, row.slug) then before
      else before.(categories := before.categories + [Category(org, row.slug, row.categoryName)])
  }

  /** The state after the first n rows. */
  function After(batch: Batch, db: Db, nextId: nat, n: nat): Progress
    requires n <= |batch.rows|
  {
    if n == 0 then
      Progress(WithCategories(db, batch.org, batch.rows, |batch.rows|), nextId, [], Preflight(batch.rows), Summary(0, 0, 0, 0))
    else StepRow(batch, n - 1, After(batch, db, nextId, n - 1))
  }

  function Import(batch: Batch, db: Db, nextId: nat): Progress {
    After(batch, db, nextId, |batch.rows|)
  }

  // ------------------------------------------------- the batch is a simple fold

  /** Applies one successfully reported row, and nothing else. */
  function Redo(db: Db, batch: Batch, line: OkRow): Db {
    if line.row >= |batch.rows| then db
    else
      var row := batch.rows[line.row];
      match line.action
      case Skipped => db
      case Created => Create(db, batch.org, row, line.productId)
      case Updated => if HasKey(db, batch.org, row.key) then Replace(db, batch.org, row) else db
  }

  function RedoAll(db: Db, batch: Batch, ok: seq<OkRow>): Db {
    if ok == [] then db
    else Redo(RedoAll(db, batch, ok[..|ok| - 1]), batch, ok[|ok| - 1])
  }

  /** What one row adds: nothing (refused before), one failure line and no write, or one ok line and exactly its write. */
  datatype Effect = Nothing | FailureLine(f: FailedRow) | OkLine(line: OkRow)

  ghost predicate Extends(batch: Batch, i: nat, p: Progress, q: Progress, e: Effect)
    requires i < |batch.rows|
  {
    match e
    case Nothing => PreFailed(batch.rows, i) && q.ok == p.ok && q.failed == p.failed && q.db == p.db
    case FailureLine(f) =>
      !PreFailed(batch.rows, i) && f.row == i && q.ok == p.ok && q.failed == p.failed + [f] && q.db == p.db
    case OkLine(line) =>
      !PreFailed(batch.rows, i) && line.row == i && q.ok == p.ok + [line] && q.failed == p.failed
      && q.db == Redo(p.db, batch, line) && (line.action == Created ==> line.productId == p.nextId)
  }

  /** A failure line or an ok line moves its own counter by one. */
  ghost predicate Counts(p: Progress, q: Progress, e: Effect) {
    var s, t := p.summary, q.summary;
    if e.OkLine? then t.failed == s.failed && t.created + t.updated + t.skipped == s.created + s.updated + s.skipped + 1
    else t == s.(failed := s.failed + 1)
  }

  lemma StepExtends(batch: Batch, i: nat, p: Progress) returns (e: Effect)
    requires i < |batch.rows|
    ensures Extends(batch, i, p, StepRow(batch, i, p), e) && Counts(p, StepRow(batch, i, p), e)
  {
    var q := StepRow(batch, i, p);
    if PreFailed(batch.rows, i) {
      e := Nothing;
    } else if |q.ok| > |p.ok| {
      e := OkLine(q.ok[|p.ok|]);
    } else {
      e := FailureLine(q.failed[|p.failed|]);
    }
  }

  lemma FoldExtends(start: Db, batch: Batch, i: nat, p: Progress, q: Progress, e: Effect)
    requires i < |batch.rows| && Extends(batch, i, p, q, e) && p.db == RedoAll(start, batch, p.ok)
    ensures q.db == RedoAll(start, batch, q.ok)
  {
    if e.OkLine? {
      assert q.ok[..|q.ok| - 1] == p.ok;
    }
  }

  ghost predicate Moves(batch: Batch, i: nat, p: Progress, q: Progress)
    requires i < |batch.rows|
  {
    exists e :: Extends(batch, i, p, q, e) && Counts(p, q, e)
  }

  /** Successive states of a run, with nothing known of a step but what it extends. */
  ghost predicate Trace(batch: Batch, ps: seq<Progress>) {
    && 0 < |ps| <= |batch.rows| + 1
    && forall i | 0 <= i < |ps| - 1 :: Moves(batch, i, ps[i], ps[i + 1])
  }

  lemma {:induction false} RunHasTrace(batch: Batch, db: Db, nextId: nat, n: nat) returns (ps: seq<Progress>)
    requires n <= |batch.rows|
    ensures Trace(batch, ps) && |ps| == n + 1
    ensures ps[0] == After(batch, db, nextId, 0) && ps[n] == After(batch, db, nextId, n)
  {
    if n == 0 {
      ps := [After(batch, db, nextId, 0)];
    } else {
      var before := RunHasTrace(batch, db, nextId, n - 1);
      var e := StepExtends(batch, n - 1, before[n - 1]);
      ps := before + [After(batch, db, nextId, n)];
      assert Moves(batch, n - 1, ps[n - 1], ps[n]);
    }
  }

  lemma {:induction false} TraceFolds(start: Db, batch: Batch, ps: seq<Progress>)
    requires Trace(batch, ps) && ps[0].db == RedoAll(start, batch, ps[0].ok)
    ensures ps[|ps| - 1].db == RedoAll(start, batch, ps[|ps| - 1].ok)
    decreases |ps|
  {
    var n := |ps| - 1;
    if n > 0 {
      TraceFolds(start, batch, ps[..n]);
      assert Moves(batch, n - 1, ps[n - 1], ps[n]);
      var e :| Extends(batch, n - 1, ps[n - 1], ps[n], e) && Counts(ps[n - 1], ps[n], e);
      FoldExtends(start, batch, n - 1, ps[n - 1], ps[n], e);
    }
  }

  /** The final catalogue is the categories plus the rows reported ok, applied one by one: failed rows leave no trace. */
  lemma ImportIsFoldOfOkRows(batch: Batch, db: Db, nextId: nat, n: nat)
    requires n <= |batch.rows|
    ensures After(batch, db, nextId, n).db ==
            RedoAll(WithCategories(db, batch.org, batch.rows, |batch.rows|), batch, After(batch, db, nextId, n).ok)
  {
    var ps := RunHasTrace(batch, db, nextId, n);
    TraceFolds(WithCategories(db, batch.org, batch.rows, |batch.rows|), batch, ps);
  }

  ghost predicate Healthy(p: Progress) {
    Sound(p.db) && IdsBelow(p.db, p.nextId)
  }

  lemma StepKeepsHealthy(batch: Batch, i: nat, p: Progress, q: Progress)
    requires i < |batch.rows| && Healthy(p) && q == StepRow(batch, i, p)
    ensures Healthy(q)
  {
    var row := batch.rows[i];
    if !Raises(batch, i) {
      if HasKey(p.db, batch.org, row.key) {
        ReplaceIsSound(p.db, batch.org, row, p.nextId);
      } else {
        CreateIsSound(p.db, batch.org, row, p.nextId);
      }
    }
  }

  lemma StartIsHealthy(batch: Batch, db: Db, nextId: nat)
    requires Sound(db) && IdsBelow(db, nextId)
    ensures Healthy(After(batch, db, nextId, 0))
  {
    CategoriesLeaveProducts(db, batch.org, batch.rows, |batch.rows|);
    CategoriesStayUnique(db, batch.org, batch.rows, |batch.rows|);
  }

  /** Uniqueness of (org, key), ids, tiers and categories survives every batch. */
  lemma {:induction false} ImportKeepsSound(batch: Batch, db: Db, nextId: nat, n: nat)
    requires n <= |batch.rows| && Sound(db) && IdsBelow(db, nextId)
    ensures Healthy(After(batch, db, nextId, n))
  {
    if n == 0 {
      StartIsHealthy(batch, db, nextId);
    } else {
      ImportKeepsSound(batch, db, nextId, n - 1);
      var p, q := After(batch, db, nextId, n - 1), After(batch, db, nextId, n);
      StepKeepsHealthy(batch, n - 1, p, q);
    }
  }

  lemma {:induction false} CategoriesStayUnique(db: Db, org: string, rows: seq<Row>, n: nat)
    requires n <= |rows| && UniqueCategories(db.categories)
    ensures UniqueCategories(WithCategories(db, org, rows, n).categories)
  {
    if n > 0 {
      CategoriesStayUnique(db, org, rows, n - 1);
      var before := WithCategories(db, org, rows, n - 1);
      if !HasCategory(before, org, rows[n - 1].slug) {
        assert forall i | 0 <= i < |before.categories| :: before.categories[i] in before.categories;
      }
    }
  }

  lemma {:induction false} CategoriesLeaveProducts(db: Db, org: string, rows: seq<Row>, n: nat)
    requires n <= |rows|
    ensures WithCategories(db, org, rows, n).products == db.products
    ensures WithCategories(db, org, rows, n).tiers == db.tiers
  {
    if n > 0 {
      CategoriesLeaveProducts(db, org, rows, n - 1);
    }
  }

  // --------------------------------------------------- every row reported once

  /** How often row r is reported ok, and how often failed. */
  function OkReports(ok: seq<OkRow>, r: nat): nat {
    if ok == [] then 0 else OkReports(ok[..|ok| - 1], r) + if ok[|ok| - 1].row == r then 1 else 0
  }

  function FailedReports(failed: seq<FailedRow>, r: nat): nat {
    if failed == [] then 0
    else FailedReports(failed[..|failed| - 1], r) + if failed[|failed| - 1].row == r then 1 else 0
  }

  function Reports(p: Progress, r: nat): nat {
    OkReports(p.ok, r) + FailedReports(p.failed, r)
  }

  lemma {:induction false} FailedReportsAppend(a: seq<FailedRow>, b: seq<FailedRow>, r: nat)
    ensures FailedReports(a + b, r) == FailedReports(a, r) + FailedReports(b, r)
  {
    if b == [] {
      assert a + b == a;
    } else {
      var m := |b| - 1;
      assert (a + b)[..|a + b| - 1] == a + b[..m];
      FailedReportsAppend(a, b[..m], r);
    }
  }

  lemma FailedReportsSnoc(failed: seq<FailedRow>, f: FailedRow, r: nat)
    ensures FailedReports(failed + [f], r) == FailedReports(failed, r) + if f.row == r then 1 else 0
  {
    assert (failed + [f])[..|failed|] == failed;
  }

  lemma OptionalLine(failed: seq<FailedRow>, listed: bool, f: FailedRow, r: nat)
    ensures FailedReports(failed + if listed then [f] else [], r) ==
            FailedReports(failed, r) + if listed && f.row == r then 1 else 0
  {
    if listed {
      FailedReportsSnoc(failed, f, r);
    } else {
      assert failed + [] == failed;
    }
  }

  lemma {:induction false} NamelessReported(rows: seq<Row>, n: nat, r: nat)
    requires n <= |rows|
    ensures FailedReports(Listed(rows, n), r) == if r < n && rows[r].key == "" then 1 else 0
  {
    if n > 0 {
      NamelessReported(rows, n - 1, r);
      OptionalLine(Listed(rows, n - 1), rows[n - 1].key == "", FailedRow(n - 1, "", MissingName), r);
    }
  }

  /** A duplicate line for each marked row. */
  ghost function Marked(rows: seq<Row>, marks: set<nat>, n: nat): seq<FailedRow>
    requires n <= |rows|
  {
    if n == 0 then []
    else
      Marked(rows, marks, n - 1) +
      if n - 1 in marks then [FailedRow(n - 1, rows[n - 1].key, DuplicateWithinUpload)] else []
  }

  lemma {:induction false} MarkedReported(rows: seq<Row>, marks: set<nat>, n: nat, r: nat)
    requires n <= |rows|
    ensures FailedReports(Marked(rows, marks, n), r) == if r < n && r in marks then 1 else 0
  {
    if n > 0 {
      MarkedReported(rows, marks, n - 1, r);
      OptionalLine(Marked(rows, marks, n - 1), n - 1 in marks,
                   FailedRow(n - 1, rows[n - 1].key, DuplicateWithinUpload), r);
    }
  }

  lemma {:induction false} DuplicatesAreMarked(rows: seq<Row>, marks: set<nat>, n: nat)
    requires n <= |rows|
    requires forall i: nat | i < |rows| :: i in marks <==> rows[i].key != "" && SharesKey(rows, i)
    ensures ListedDuplicates(rows, n) == Marked(rows, marks, n)
  {
    if n > 0 {
      DuplicatesAreMarked(rows, marks, n - 1);
    }
  }

  lemma DuplicatesReported(rows: seq<Row>, r: nat)
    ensures FailedReports(ListedDuplicates(rows, |rows|), r) ==
            if r < |rows| && rows[r].key != "" && SharesKey(rows, r) then 1 else 0
  {
    var marks := set i: nat | i < |rows| && rows[i].key != "" && SharesKey(rows, i);
    DuplicatesAreMarked(rows, marks, |rows|);
    MarkedReported(rows, marks, |rows|, r);
  }

  lemma PreflightReports(rows: seq<Row>, r: nat)
    ensures FailedReports(Preflight(rows), r) == if r < |rows| && PreFailed(rows, r) then 1 else 0
  {
    NamelessReported(rows, |rows|, r);
    DuplicatesReported(rows, r);
    FailedReportsAppend(Listed(rows, |rows|), ListedDuplicates(rows, |rows|), r);
  }

  lemma ReportsExtend(batch: Batch, i: nat, p: Progress, q: Progress, e: Effect, r: nat)
    requires i < |batch.rows| && Extends(batch, i, p, q, e)
    ensures Reports(q, r) == Reports(p, r) + if r == i && !PreFailed(batch.rows, i) then 1 else 0
  {
    match e
    case Nothing =>
    case FailureLine(f) =>
      FailedReportsSnoc(p.failed, f, r);
    case OkLine(line) =>
      assert q.ok[..|q.ok| - 1] == p.ok;
  }

  lemma {:induction false} TraceReports(batch: Batch, ps: seq<Progress>, r: nat)
    requires Trace(batch, ps)
    ensures Reports(ps[|ps| - 1], r) ==
            Reports(ps[0], r) + if r < |ps| - 1 && !PreFailed(batch.rows, r) then 1 else 0
    decreases |ps|
  {
    var n := |ps| - 1;
    if n > 0 {
      TraceReports(batch, ps[..n], r);
      assert Moves(batch, n - 1, ps[n - 1], ps[n]);
      var e :| Extends(batch, n - 1, ps[n - 1], ps[n], e) && Counts(ps[n - 1], ps[n], e);
      ReportsExtend(batch, n - 1, ps[n - 1], ps[n], e, r);
    }
  }

  /** After n rows exactly the rows seen, and the rows the preflight refused, are reported - each once, in ok or in failed. */
  lemma EveryRowReportedOnce(batch: Batch, db: Db, nextId: nat, n: nat, r: nat)
    requires n <= |batch.rows|
    ensures Reports(After(batch, db, nextId, n), r) ==
            if r < n || (r < |batch.rows| && PreFailed(batch.rows, r)) then 1 else 0
  {
    var ps := RunHasTrace(batch, db, nextId, n);
    TraceReports(batch, ps, r);
    PreflightReports(batch.rows, r);
  }

  function PreFailedCount(rows: seq<Row>, n: nat): nat
    requires n <= |rows|
  {
    if n == 0 then 0 else PreFailedCount(rows, n - 1) + if PreFailed(rows, n - 1) then 1 else 0
  }

  lemma {:induction false} PreflightLength(rows: seq<Row>, n: nat)
    requires n <= |rows|
    ensures |Listed(rows, n)| + |ListedDuplicates(rows, n)| == PreFailedCount(rows, n)
  {
    if n > 0 {
      PreflightLength(rows, n - 1);
    }
  }

  ghost predicate AddsUp(batch: Batch, p: Progress, n: nat)
    requires n <= |batch.rows|
  {
    var s := p.summary;
    && s.created + s.updated + s.skipped + s.failed == n
    && s.created + s.updated + s.skipped == |p.ok|
    && |p.failed| + PreFailedCount(batch.rows, n) == s.failed + PreFailedCount(batch.rows, |batch.rows|)
  }

  lemma {:induction false} TraceAddsUp(batch: Batch, ps: seq<Progress>)
    requires Trace(batch, ps) && AddsUp(batch, ps[0], 0)
    ensures AddsUp(batch, ps[|ps| - 1], |ps| - 1)
    decreases |ps|
  {
    var n := |ps| - 1;
    if n > 0 {
      TraceAddsUp(batch, ps[..n]);
      assert Moves(batch, n - 1, ps[n - 1], ps[n]);
    }
  }

  /** The counters add up to the rows seen; the first three count the ok list, the fourth the failures met so far. */
  lemma SummaryAddsUp(batch: Batch, db: Db, nextId: nat, n: nat)
    requires n <= |batch.rows|
    ensures AddsUp(batch, After(batch, db, nextId, n), n)
  {
    var ps := RunHasTrace(batch, db, nextId, n);
    PreflightLength(batch.rows, |batch.rows|);
    TraceAddsUp(batch, ps);
  }

  /** At the end: each counter is the length of its list, and the two lists cover the batch. */
  lemma SummaryMatchesLists(batch: Batch, db: Db, nextId: nat)
    ensures var p := Import(batch, db, nextId); var s := p.summary;
            && s.failed == |p.failed| && s.created + s.updated + s.skipped == |p.ok|
            && |p.ok| + |p.failed| == |batch.rows|
  {
    SummaryAddsUp(batch, db, nextId, |batch.rows|);
  }

  // ------------------------------------------------------------- running again

  lemma {:induction false} CategoriesPresent(db: Db, org: string, rows: seq<Row>, n: nat, r: nat)
    requires r < n <= |rows| && rows[r].slug != ""
    ensures HasCategory(WithCategories(db, org, rows, n), org, rows[r].slug)
  {
    var before := WithCategories(db, org, rows, n - 1);
    var after := WithCategories(db, org, rows, n);
    if r < n - 1 {
      CategoriesPresent(db, org, rows, n - 1, r);
      var c :| c in before.categories && c.org == org && c.slug == rows[r].slug;
      assert c in after.categories;
    } else if !HasCategory(before, org, rows[r].slug) {
      assert after.categories[|before.categories|] in after.categories;
    }
  }

  lemma {:induction false} CategoriesSettled(db: Db, org: string, rows: seq<Row>, n: nat)
    requires n <= |rows|
    requires forall r | 0 <= r < n && rows[r].slug != "" :: HasCategory(db, org, rows[r].slug)
    ensures WithCategories(db, org, rows, n) == db
  {
    if n > 0 {
      CategoriesSettled(db, org, rows, n - 1);
    }
  }

  /** Row r leaves nothing for a second run to do: it is refused for good, or its key is in the catalogue. */
  ghost predicate Done(batch: Batch, db: Db, r: nat)
    requires r < |batch.rows|
  {
    || Refusal(batch.rows, r).Some?
    || HasKey(db, batch.org, batch.rows[r].key)
    || TiersClash(batch.rows[r].tiers)
  }

  lemma StepKeepsCategories(batch: Batch, i: nat, p: Progress)
    requires i < |batch.rows|
    ensures StepRow(batch, i, p).db.categories == p.db.categories
  {
  }

  lemma StepKeepsKeys(batch: Batch, i: nat, p: Progress, key: string)
    requires i < |batch.rows| && HasKey(p.db, batch.org, key)
    ensures HasKey(StepRow(batch, i, p).db, batch.org, key)
  {
    KeysSurvive(p.db, batch.org, batch.rows[i], p.nextId, key);
  }

  lemma DoneStaysDone(batch: Batch, i: nat, p: Progress, r: nat)
    requires i < |batch.rows| && r < |batch.rows| && Done(batch, p.db, r)
    ensures Done(batch, StepRow(batch, i, p).db, r)
  {
    if HasKey(p.db, batch.org, batch.rows[r].key) {
      StepKeepsKeys(batch, i, p, batch.rows[r].key);
    }
  }

  lemma StepDoesRow(batch: Batch, i: nat, p: Progress)
    requires i < |batch.rows| && i !in batch.faults
    ensures Done(batch, StepRow(batch, i, p).db, i)
  {
    KeysSurvive(p.db, batch.org, batch.rows[i], p.nextId, batch.rows[i].key);
  }

  lemma {:induction false} FaultFreeRowsAreDone(batch: Batch, db: Db, nextId: nat, n: nat, r: nat)
    requires r < n <= |batch.rows| && r !in batch.faults
    ensures Done(batch, After(batch, db, nextId, n).db, r)
  {
    var p := After(batch, db, nextId, n - 1);
    if r < n - 1 {
      FaultFreeRowsAreDone(batch, db, nextId, n - 1, r);
      DoneStaysDone(batch, n - 1, p, r);
    } else {
      StepDoesRow(batch, r, p);
    }
  }

  lemma {:induction false} CategoriesSurviveRows(batch: Batch, db: Db, nextId: nat, n: nat)
    requires n <= |batch.rows|
    ensures After(batch, db, nextId, n).db.categories ==
            WithCategories(db, batch.org, batch.rows, |batch.rows|).categories
  {
    if n > 0 {
      CategoriesSurviveRows(batch, db, nextId, n - 1);
      StepKeepsCategories(batch, n - 1, After(batch, db, nextId, n - 1));
    }
  }

  /** Row r changes nothing under "skip": it is done, or the database refuses it. */
  ghost predicate Idle(batch: Batch, db: Db, r: nat)
    requires r < |batch.rows|
  {
    Done(batch, db, r) || r in batch.faults
  }

  lemma {:induction false} NothingLeftToDo(batch: Batch, db: Db, nextId: nat, n: nat)
    requires n <= |batch.rows| && batch.policy == Skip
    requires forall r | 0 <= r < |batch.rows| :: Idle(batch, db, r)
    requires forall r | 0 <= r < |batch.rows| && batch.rows[r].slug != "" :: HasCategory(db, batch.org, batch.rows[r].slug)
    ensures After(batch, db, nextId, n).db == db
  {
    if n == 0 {
      CategoriesSettled(db, batch.org, batch.rows, |batch.rows|);
    } else {
      NothingLeftToDo(batch, db, nextId, n - 1);
      assert Idle(batch, db, n - 1);
    }
  }

  /** A row nothing is wrong with but that the database refused: only it can put its key into the catalogue. */
  ghost predicate LeftOut(batch: Batch, db: Db, r: nat)
    requires r < |batch.rows|
  {
    && Refusal(batch.rows, r).None? && !TiersClash(batch.rows[r].tiers)
    && r in batch.faults && !HasKey(db, batch.org, batch.rows[r].key)
  }

  lemma FindInPrefix(products: seq<Product>, p: Product, org: string, key: string)
    requires Find(products, org, key) == |products| && !(p.org == org && p.key == key)
    ensures Find(products + [p], org, key) == |products| + 1
  {
    assert forall j | 0 <= j < |products| :: (products + [p])[j] == products[j];
  }

  lemma EffectsLeaveOtherKeysOut(db: Db, org: string, row: Row, id: nat, key: string)
    requires !HasKey(db, org, key) && row.key != key
    ensures !HasKey(Create(db, org, row, id), org, key)
    ensures HasKey(db, org, row.key) ==> !HasKey(Replace(db, org, row), org, key)
  {
    FindInPrefix(db.products, Product(id, org, row.key, row.slug, row.fields), org, key);
    if HasKey(db, org, row.key) {
      var after := Replace(db, org, row).products;
      assert forall j | 0 <= j < |after| :: after[j].org == db.products[j].org && after[j].key == db.products[j].key;
    }
  }

  lemma StepLeavesOtherKeysOut(batch: Batch, i: nat, p: Progress, key: string)
    requires i < |batch.rows| && !HasKey(p.db, batch.org, key)
    requires batch.rows[i].key != key || Raises(batch, i)
    ensures !HasKey(StepRow(batch, i, p).db, batch.org, key)
  {
    if batch.rows[i].key != key {
      EffectsLeaveOtherKeysOut(p.db, batch.org, batch.rows[i], p.nextId, key);
    }
  }

  lemma UnsharedKey(rows: seq<Row>, r: nat, i: nat)
    requires r < |rows| && i < |rows| && i != r && !SharesKey(rows, r)
    ensures rows[i].key != rows[r].key
  {
  }

  lemma LeftOutRaisesOrDiffers(batch: Batch, db: Db, r: nat, i: nat)
    requires r < |batch.rows| && i < |batch.rows| && LeftOut(batch, db, r)
    ensures batch.rows[i].key != batch.rows[r].key || Raises(batch, i)
  {
    if i != r {
      UnsharedKey(batch.rows, r, i);
    }
  }

  /** A row the database refused leaves no key behind, however the other rows fare. */
  lemma {:induction false} LeftOutStaysOut(batch: Batch, db: Db, nextId: nat, n: nat, r: nat)
    requires r < |batch.rows| && n <= |batch.rows| && LeftOut(batch, db, r)
    ensures !HasKey(After(batch, db, nextId, n).db, batch.org, batch.rows[r].key)
  {
    if n == 0 {
      CategoriesLeaveProducts(db, batch.org, batch.rows, |batch.rows|);
    } else {
      LeftOutStaysOut(batch, db, nextId, n - 1, r);
      LeftOutRaisesOrDiffers(batch, db, r, n - 1);
      StepLeavesOtherKeysOut(batch, n - 1, After(batch, db, nextId, n - 1), batch.rows[r].key);
    }
  }

  lemma {:induction false} KeysStay(batch: Batch, db: Db, nextId: nat, n: nat, key: string)
    requires n <= |batch.rows| && HasKey(db, batch.org, key)
    ensures HasKey(After(batch, db, nextId, n).db, batch.org, key)
  {
    if n == 0 {
      CategoriesLeaveProducts(db, batch.org, batch.rows, |batch.rows|);
    } else {
      KeysStay(batch, db, nextId, n - 1, key);
      StepKeepsKeys(batch, n - 1, After(batch, db, nextId, n - 1), key);
    }
  }

  /** After the first run every row is done, except those left out. */
  lemma DoneOrLeftOut(batch: Batch, db: Db, nextId: nat, r: nat)
    requires r < |batch.rows|
    ensures Done(batch, Import(batch, db, nextId).db, r) || LeftOut(batch, db, r)
  {
    if r !in batch.faults {
      FaultFreeRowsAreDone(batch, db, nextId, |batch.rows|, r);
    } else if HasKey(db, batch.org, batch.rows[r].key) {
      KeysStay(batch, db, nextId, |batch.rows|, batch.rows[r].key);
    }
  }

  lemma RerunIdles(batch: Batch, db: Db, nextId: nat, faults: set<nat>, nextId': nat)
    requires forall r | 0 <= r < |batch.rows| && LeftOut(batch, db, r) :: r in faults
    ensures var first := Import(batch, db, nextId).db;
            Import(batch.(policy := Skip, faults := faults), first, nextId').db == first
  {
    var first, again := Import(batch, db, nextId).db, batch.(policy := Skip, faults := faults);
    forall r | 0 <= r < |batch.rows|
      ensures Idle(again, first, r)
    {
      DoneOrLeftOut(batch, db, nextId, r);
      assert Done(batch, first, r) ==> Done(again, first, r);
    }
    CategoriesSurviveRows(batch, db, nextId, |batch.rows|);
    forall r | 0 <= r < |batch.rows| && batch.rows[r].slug != ""
      ensures HasCategory(first, batch.org, batch.rows[r].slug)
    {
      CategoriesPresent(db, batch.org, batch.rows, |batch.rows|, r);
    }
    NothingLeftToDo(again, first, nextId', |batch.rows|);
  }

  lemma RerunDoesLeftOut(batch: Batch, db: Db, nextId: nat, faults: set<nat>, nextId': nat, r: nat)
    requires r < |batch.rows| && LeftOut(batch, db, r) && r !in faults
    ensures var first := Import(batch, db, nextId).db;
            Import(batch.(policy := Skip, faults := faults), first, nextId').db != first
  {
    var first, again := Import(batch, db, nextId).db, batch.(policy := Skip, faults := faults);
    LeftOutStaysOut(batch, db, nextId, |batch.rows|, r);
    FaultFreeRowsAreDone(again, first, nextId', |batch.rows|, r);
  }

  /**
   Re-running a batch under "skip" changes nothing, exactly unless some sound row of a product that
   did not exist was refused by the database in the first run and is not refused again.
   */
  lemma RerunUnderSkipChangesNothing(batch: Batch, db: Db, nextId: nat, faults: set<nat>, nextId': nat)
    ensures var first := Import(batch, db, nextId).db;
            Import(batch.(policy := Skip, faults := faults), first, nextId').db == first
            <==> forall r | 0 <= r < |batch.rows| && LeftOut(batch, db, r) :: r in faults
  {
    if forall r | 0 <= r < |batch.rows| && LeftOut(batch, db, r) :: r in faults {
      RerunIdles(batch, db, nextId, faults, nextId');
    } else {
      var r :| 0 <= r < |batch.rows| && LeftOut(batch, db, r) && r !in faults;
      RerunDoesLeftOut(batch, db, nextId, faults, nextId', r);
    }
  }
}
