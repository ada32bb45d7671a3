/**
 What a bulk import does to each row, said of the whole batch: where the row is
 reported and what becomes of its product, by policy and by what was in the catalogue
 before the batch.
 */
module ImportPolicies {
  import opened Wrappers
  import opened Catalogue
  import opened BulkImport

  // ------------------------------------------------------ one product, undisturbed

  /** The product with this key is where, what and how it was - or still missing. */
  ghost predicate Undisturbed(before: Db, after: Db, org: string, key: string) {
    && (HasKey(after, org, key) <==> HasKey(before, org, key))
    && (HasKey(before, org, key) ==>
          && Find(after.products, org, key) == Find(before.products, org, key)
          && SameProduct(before, after, Find(before.products, org, key)))
  }

  ghost predicate SameProduct(before: Db, after: Db, i: nat)
    requires i < |before.products|
  {
    && i < |after.products| && after.products[i] == before.products[i]
    && TiersOf(after.tiers, before.products[i].id) == TiersOf(before.tiers, before.products[i].id)
  }

  lemma FindStays(products: seq<Product>, products': seq<Product>, org: string, key: string)
    requires |products| <= |products'| && Find(products, org, key) < |products|
    requires forall j | 0 <= j < |products| :: products'[j].org == products[j].org && products'[j].key == products[j].key
    ensures Find(products', org, key) == Find(products, org, key)
  {
    var i := Find(products, org, key);
    assert products'[i].org == org && products'[i].key == key;
    assert forall j | 0 <= j < i :: !(products'[j].org == org && products'[j].key == key);
  }

  lemma CreateDisturbsNoOther(db: Db, org: string, row: Row, id: nat, key: string)
    requires IdsBelow(db, id) && row.key != key
    ensures Undisturbed(db, Create(db, org, row, id), org, key)
  {
    var after := Create(db, org, row, id);
    if HasKey(db, org, key) {
      var i := Find(db.products, org, key);
      FindStays(db.products, after.products, org, key);
      CreateTouchesOneProduct(db, org, row, id, db.products[i].id);
    } else {
      EffectsLeaveOtherKeysOut(db, org, row, id, key);
    }
  }

  lemma ReplaceDisturbsNoOther(db: Db, org: string, row: Row, key: string)
    requires Sound(db) && HasKey(db, org, row.key) && row.key != key
    ensures Undisturbed(db, Replace(db, org, row), org, key)
  {
    var after := Replace(db, org, row);
    if HasKey(db, org, key) {
      var i, j := Find(db.products, org, key), Find(db.products, org, row.key);
      assert i != j && db.products[i].id != db.products[j].id;
      FindStays(db.products, after.products, org, key);
      ReplaceTouchesOneProduct(db, org, row, i, db.products[i].id);
    } else {
      EffectsLeaveOtherKeysOut(db, org, row, 0, key);
    }
  }

  lemma UndisturbedByNothing(db: Db, org: string, key: string)
    ensures Undisturbed(db, db, org, key)
  {
  }

  lemma UndisturbedTwice(a: Db, b: Db, c: Db, org: string, key: string)
    requires Undisturbed(a, b, org, key) && Undisturbed(b, c, org, key)
    ensures Undisturbed(a, c, org, key)
  {
  }

  /** What one row extends, it extends without touching the product of another key. */
  lemma MoveDisturbsNoOther(batch: Batch, i: nat, p: Progress, q: Progress, e: Effect, key: string)
    requires i < |batch.rows| && Healthy(p) && Extends(batch, i, p, q, e) && batch.rows[i].key != key
    ensures Undisturbed(p.db, q.db, batch.org, key)
  {
    var row := batch.rows[i];
    UndisturbedByNothing(p.db, batch.org, key);
    if e.OkLine? && e.line.action == Created {
      CreateDisturbsNoOther(p.db, batch.org, row, p.nextId, key);
    } else if e.OkLine? && e.line.action == Updated && HasKey(p.db, batch.org, row.key) {
      ReplaceDisturbsNoOther(p.db, batch.org, row, key);
    }
  }

  ghost predicate AllHealthy(ps: seq<Progress>) {
    forall i | 0 <= i < |ps| :: Healthy(ps[i])
  }

  /** Rows of other keys never disturb a product, however many of them run. */
  lemma {:induction false} OthersDisturbNothing(batch: Batch, ps: seq<Progress>, m: nat, n: nat, key: string)
    requires Trace(batch, ps) && AllHealthy(ps) && m <= n < |ps|
    requires forall i | m <= i < n :: batch.rows[i].key != key
    ensures Undisturbed(ps[m].db, ps[n].db, batch.org, key)
    decreases n - m
  {
    if m == n {
      UndisturbedByNothing(ps[m].db, batch.org, key);
    } else {
      OthersDisturbNothing(batch, ps, m, n - 1, key);
      assert Moves(batch, n - 1, ps[n - 1], ps[n - 1 + 1]);
      var e :| Extends(batch, n - 1, ps[n - 1], ps[n], e) && Counts(ps[n - 1], ps[n], e);
      MoveDisturbsNoOther(batch, n - 1, ps[n - 1], ps[n], e, key);
      UndisturbedTwice(ps[m].db, ps[n - 1].db, ps[n].db, batch.org, key);
    }
  }

  /** What has been reported stays reported. */
  lemma {:induction false} ReportsAreKept(batch: Batch, ps: seq<Progress>, m: nat, n: nat)
    requires Trace(batch, ps) && m <= n < |ps|
    ensures ps[m].ok <= ps[n].ok && ps[m].failed <= ps[n].failed
    decreases n - m
  {
    if m < n {
      ReportsAreKept(batch, ps, m, n - 1);
      assert Moves(batch, n - 1, ps[n - 1], ps[n - 1 + 1]);
    }
  }

  ghost predicate IsStep(batch: Batch, i: nat, p: Progress, q: Progress)
    requires i < |batch.rows|
  {
    q == StepRow(batch, i, p)
  }

  /** The states of a run, each the step of the last. */
  ghost predicate States(batch: Batch, ps: seq<Progress>) {
    && 0 < |ps| <= |batch.rows| + 1
    && forall i | 0 <= i < |ps| - 1 :: IsStep(batch, i, ps[i], ps[i + 1])
  }

  lemma StatesSnoc(batch: Batch, before: seq<Progress>, q: Progress) returns (ps: seq<Progress>)
    requires States(batch, before) && |before| <= |batch.rows|
    requires IsStep(batch, |before| - 1, before[|before| - 1], q)
    ensures ps == before + [q] && States(batch, ps)
  {
    ps := before + [q];
    forall i | 0 <= i < |ps| - 1
      ensures IsStep(batch, i, ps[i], ps[i + 1])
    {
      assert i < |before| - 1 ==> IsStep(batch, i, before[i], before[i + 1]);
    }
  }

  lemma {:induction false} RunHasStates(batch: Batch, db: Db, nextId: nat, n: nat) returns (ps: seq<Progress>)
    requires n <= |batch.rows|
    ensures States(batch, ps) && |ps| == n + 1
    ensures ps[0] == After(batch, db, nextId, 0) && ps[n] == After(batch, db, nextId, n)
  {
    if n == 0 {
      ps := [After(batch, db, nextId, 0)];
    } else {
      var before := RunHasStates(batch, db, nextId, n - 1);
      ps := StatesSnoc(batch, before, After(batch, db, nextId, n));
    }
  }

  lemma StatesAreTrace(batch: Batch, ps: seq<Progress>)
    requires States(batch, ps)
    ensures Trace(batch, ps)
  {
    forall i | 0 <= i < |ps| - 1
      ensures Moves(batch, i, ps[i], ps[i + 1])
    {
      assert IsStep(batch, i, ps[i], ps[i + 1]);
      var e := StepExtends(batch, i, ps[i]);
    }
  }

  lemma {:induction false} StatesAreHealthy(batch: Batch, ps: seq<Progress>)
    requires States(batch, ps) && Healthy(ps[0])
    ensures AllHealthy(ps)
    decreases |ps|
  {
    var n := |ps| - 1;
    if n > 0 {
      StatesAreHealthy(batch, ps[..n]);
      assert Healthy(ps[..n][n - 1]) && IsStep(batch, n - 1, ps[n - 1], ps[n - 1 + 1]);
      StepKeepsHealthy(batch, n - 1, ps[n - 1], ps[n]);
      forall i | 0 <= i < |ps|
        ensures Healthy(ps[i])
      {
        assert i < n ==> Healthy(ps[..n][i]);
      }
    }
  }

  /** The whole run: its states are healthy, extend one another, and end in the import's result. */
  lemma RunOf(batch: Batch, db: Db, nextId: nat) returns (ps: seq<Progress>)
    requires Sound(db) && IdsBelow(db, nextId)
    ensures States(batch, ps) && Trace(batch, ps) && AllHealthy(ps) && |ps| == |batch.rows| + 1
    ensures ps[0] == After(batch, db, nextId, 0) && ps[|batch.rows|] == Import(batch, db, nextId)
  {
    ps := RunHasStates(batch, db, nextId, |batch.rows|);
    StartIsHealthy(batch, db, nextId);
    StatesAreTrace(batch, ps);
    StatesAreHealthy(batch, ps);
  }

  lemma StartDisturbsNothing(batch: Batch, db: Db, nextId: nat, key: string)
    ensures Undisturbed(db, After(batch, db, nextId, 0).db, batch.org, key)
  {
    CategoriesLeaveProducts(db, batch.org, batch.rows, |batch.rows|);
  }

  /** A product whose key no row of the batch carries is left exactly as it was. */
  lemma OtherProductsUndisturbed(batch: Batch, db: Db, nextId: nat, key: string)
    requires Sound(db) && IdsBelow(db, nextId)
    requires forall i | 0 <= i < |batch.rows| :: batch.rows[i].key != key
    ensures Undisturbed(db, Import(batch, db, nextId).db, batch.org, key)
  {
    var ps := RunOf(batch, db, nextId);
    StartDisturbsNothing(batch, db, nextId, key);
    OthersDisturbNothing(batch, ps, 0, |batch.rows|, key);
    UndisturbedTwice(db, ps[0].db, ps[|batch.rows|].db, batch.org, key);
  }

  /** No other row of the batch carries row r's key. */
  ghost predicate Lone(rows: seq<Row>, r: nat)
    requires r < |rows|
  {
    rows[r].key != "" && forall i | 0 <= i < |rows| && i != r :: rows[i].key != rows[r].key
  }

  /**
   The setting of a lone row's step: its product is as before the batch when the row comes up, as
   the row left it at the end, and what the row reported is in the final lists.
   */
  lemma RowInBatch(batch: Batch, db: Db, nextId: nat, r: nat) returns (p: Progress, q: Progress)
    requires r < |batch.rows| && Lone(batch.rows, r) && Sound(db) && IdsBelow(db, nextId)
    ensures Healthy(p) && q == StepRow(batch, r, p)
    ensures Undisturbed(db, p.db, batch.org, batch.rows[r].key)
    ensures Undisturbed(q.db, Import(batch, db, nextId).db, batch.org, batch.rows[r].key)
    ensures q.ok <= Import(batch, db, nextId).ok && q.failed <= Import(batch, db, nextId).failed
  {
    var key, n := batch.rows[r].key, |batch.rows|;
    var ps := RunOf(batch, db, nextId);
    p, q := ps[r], ps[r + 1];
    assert IsStep(batch, r, ps[r], ps[r + 1]);
    StartDisturbsNothing(batch, db, nextId, key);
    OthersDisturbNothing(batch, ps, 0, r, key);
    UndisturbedTwice(db, ps[0].db, p.db, batch.org, key);
    OthersDisturbNothing(batch, ps, r + 1, n, key);
    ReportsAreKept(batch, ps, r + 1, n);
  }

  // ------------------------------------------------------------- sound rows

  /** The columns a strategy prices by are filled in. */
  ghost predicate Priceable(row: Row) {
    && (row.strategy == "per_unit" ==> "unit_price" in row.fields)
    && (row.strategy == "per_sqm" || row.strategy == "per_unit_metric" ==> "unit_price" in row.fields)
    && (row.strategy == "bulk_break" ==>
          "unit_price" in row.fields && "bulk_price" in row.fields && "bulk_threshold" in row.fields)
    && (row.strategy == "per_sheet" ==>
          "sheet_price" in row.fields && "sheet_size_mm" in row.fields && row.fields["sheet_size_mm"] != "")
  }

  /** A row with nothing to refuse it for. */
  ghost predicate SoundRow(rows: seq<Row>, r: nat)
    requires r < |rows|
  {
    Lone(rows, r) && Priceable(rows[r]) && rows[r].slug != ""
  }

  lemma RefusalIff(rows: seq<Row>, r: nat)
    requires r < |rows|
    ensures Refusal(rows, r).None? <==> SoundRow(rows, r)
    ensures Refusal(rows, r) == Some(MissingName) <==> rows[r].key == ""
    ensures Refusal(rows, r) == Some(BadStrategy) <==> Lone(rows, r) && !Priceable(rows[r])
    ensures Refusal(rows, r) == Some(MissingCategory) <==> Lone(rows, r) && Priceable(rows[r]) && rows[r].slug == ""
  {
    if rows[r].key != "" && !Lone(rows, r) {
      var i :| 0 <= i < |rows| && i != r && rows[i].key == rows[r].key;
      assert SharesKey(rows, r);
    }
    assert Incomplete(rows[r]) <==> !Priceable(rows[r]);
  }

  /** Two of the row's tiers claim the same place in the table. */
  ghost predicate TwoTiersAlike(tiers: seq<NewTier>) {
    exists i, j :: 0 <= i && i + 1 <= j && j < |tiers| && (tiers[i].spec, tiers[i].qty) == (tiers[j].spec, tiers[j].qty)
  }

  /** The write of row r is refused: by its own tiers, or by the database. */
  ghost predicate WriteRefused(batch: Batch, r: nat)
    requires r < |batch.rows|
  {
    TwoTiersAlike(batch.rows[r].tiers) || r in batch.faults
  }

  // ------------------------------------------------------------ by policy

  /** The row for an existing key, at its turn: what each policy reports, and what it writes. */
  lemma ExistingKeyStep(batch: Batch, r: nat, p: Progress)
    requires r < |batch.rows| && SoundRow(batch.rows, r) && HasKey(p.db, batch.org, batch.rows[r].key)
    ensures var q, row := StepRow(batch, r, p), batch.rows[r];
            var id := p.db.products[Find(p.db.products, batch.org, row.key)].id;
            match batch.policy
            case Skip => q.ok == p.ok + [OkRow(r, row.key, id, Skipped, 0)] && q.db == p.db
            case Fail => q.failed == p.failed + [FailedRow(r, row.key, KeyExists)] && q.db == p.db
            case Update =>
              if WriteRefused(batch, r) then
                q.failed == p.failed + [FailedRow(r, row.key, DatabaseError)] && q.db == p.db
              else
                q.ok == p.ok + [OkRow(r, row.key, id, Updated, |row.tiers|)] && q.db == Replace(p.db, batch.org, row)
  {
    RefusalIff(batch.rows, r);
  }

  lemma PrefixHas<T>(a: seq<T>, x: T, b: seq<T>)
    requires a + [x] <= b
    ensures x in b
  {
    assert b[|a|] == x;
  }

  lemma SameProductTwice(a: Db, b: Db, c: Db, org: string, key: string)
    requires Undisturbed(a, b, org, key) && Undisturbed(b, c, org, key) && HasKey(a, org, key)
    ensures HasKey(c, org, key) && SameProduct(a, c, Find(a.products, org, key))
  {
  }

  /** Under "fail", a row for an existing key is reported so, and the product and its tiers stay. */
  lemma ExistingKeyUnderFail(batch: Batch, db: Db, nextId: nat, r: nat)
    requires r < |batch.rows| && SoundRow(batch.rows, r) && Sound(db) && IdsBelow(db, nextId)
    requires batch.policy == Fail && HasKey(db, batch.org, batch.rows[r].key)
    ensures var p, key := Import(batch, db, nextId), batch.rows[r].key;
            && FailedRow(r, key, KeyExists) in p.failed
            && SameProduct(db, p.db, Find(db.products, batch.org, key))
  {
    var key := batch.rows[r].key;
    var p, q := RowInBatch(batch, db, nextId, r);
    ExistingKeyStep(batch, r, p);
    PrefixHas(p.failed, FailedRow(r, key, KeyExists), Import(batch, db, nextId).failed);
    SameProductTwice(db, q.db, Import(batch, db, nextId).db, batch.org, key);
  }

  /** Under "skip", it is reported skipped, and the product and its tiers stay. */
  lemma ExistingKeyUnderSkip(batch: Batch, db: Db, nextId: nat, r: nat)
    requires r < |batch.rows| && SoundRow(batch.rows, r) && Sound(db) && IdsBelow(db, nextId)
    requires batch.policy == Skip && HasKey(db, batch.org, batch.rows[r].key)
    ensures var p, key := Import(batch, db, nextId), batch.rows[r].key;
            var i := Find(db.products, batch.org, key);
            && OkRow(r, key, db.products[i].id, Skipped, 0) in p.ok
            && SameProduct(db, p.db, i)
  {
    var key := batch.rows[r].key;
    var i := Find(db.products, batch.org, key);
    var p, q := RowInBatch(batch, db, nextId, r);
    ExistingKeyStep(batch, r, p);
    PrefixHas(p.ok, OkRow(r, key, db.products[i].id, Skipped, 0), Import(batch, db, nextId).ok);
    SameProductTwice(db, q.db, Import(batch, db, nextId).db, batch.org, key);
  }

  /** The product as a row rewrites it: same id and key, the row's category, its fields over the old ones, exactly its tiers. */
  ghost predicate Rewritten(before: Db, after: Db, i: nat, row: Row)
    requires i < |before.products|
  {
    var was := before.products[i];
    && i < |after.products|
    && after.products[i] == Product(was.id, was.org, was.key, row.slug, was.fields + row.fields)
    && TiersOf(after.tiers, was.id) == TierRows(was.id, row.tiers)
  }

  lemma ReplaceRewrites(db: Db, org: string, row: Row)
    requires HasKey(db, org, row.key)
    ensures HasKey(Replace(db, org, row), org, row.key)
    ensures Find(Replace(db, org, row).products, org, row.key) == Find(db.products, org, row.key)
    ensures Rewritten(db, Replace(db, org, row), Find(db.products, org, row.key), row)
  {
    var i := Find(db.products, org, row.key);
    ReplaceTouchesOneProduct(db, org, row, i, db.products[i].id);
    FindStays(db.products, Replace(db, org, row).products, org, row.key);
  }

  lemma RewrittenInBetween(a: Db, b: Db, c: Db, d: Db, org: string, row: Row)
    requires Undisturbed(a, b, org, row.key) && HasKey(a, org, row.key)
    requires HasKey(b, org, row.key) && c == Replace(b, org, row) && Undisturbed(c, d, org, row.key)
    ensures Rewritten(a, d, Find(a.products, org, row.key), row)
  {
    ReplaceRewrites(b, org, row);
  }

  /** Under "update", it is reported updated and the product is the row's - unless the write is refused, which leaves no trace. */
  lemma ExistingKeyUnderUpdate(batch: Batch, db: Db, nextId: nat, r: nat)
    requires r < |batch.rows| && SoundRow(batch.rows, r) && Sound(db) && IdsBelow(db, nextId)
    requires batch.policy == Update && HasKey(db, batch.org, batch.rows[r].key)
    ensures var p, row := Import(batch, db, nextId), batch.rows[r];
            var i := Find(db.products, batch.org, row.key);
            if WriteRefused(batch, r) then
              FailedRow(r, row.key, DatabaseError) in p.failed && SameProduct(db, p.db, i)
            else
              OkRow(r, row.key, db.products[i].id, Updated, |row.tiers|) in p.ok && Rewritten(db, p.db, i, row)
  {
    var row, end := batch.rows[r], Import(batch, db, nextId);
    var i := Find(db.products, batch.org, row.key);
    var p, q := RowInBatch(batch, db, nextId, r);
    ExistingKeyStep(batch, r, p);
    if WriteRefused(batch, r) {
      PrefixHas(p.failed, FailedRow(r, row.key, DatabaseError), end.failed);
      SameProductTwice(db, q.db, end.db, batch.org, row.key);
    } else {
      PrefixHas(p.ok, OkRow(r, row.key, db.products[i].id, Updated, |row.tiers|), end.ok);
      RewrittenInBetween(db, p.db, q.db, end.db, batch.org, row);
    }
  }

  // ------------------------------------------------------------- new keys

  lemma NewKeyStep(batch: Batch, r: nat, p: Progress)
    requires r < |batch.rows| && SoundRow(batch.rows, r) && !HasKey(p.db, batch.org, batch.rows[r].key)
    ensures var q, row := StepRow(batch, r, p), batch.rows[r];
            if WriteRefused(batch, r) then
              q.failed == p.failed + [FailedRow(r, row.key, DatabaseError)] && q.db == p.db
            else
              q.ok == p.ok + [OkRow(r, row.key, p.nextId, Created, |row.tiers|)]
              && q.db == Create(p.db, batch.org, row, p.nextId)
  {
    RefusalIff(batch.rows, r);
  }

  /** The product a row describes, under a given id. */
  ghost predicate Present(db: Db, org: string, row: Row, id: nat) {
    && HasKey(db, org, row.key)
    && db.products[Find(db.products, org, row.key)] == Product(id, org, row.key, row.slug, row.fields)
    && TiersOf(db.tiers, id) == TierRows(id, row.tiers)
  }

  lemma CreatePresents(db: Db, org: string, row: Row, id: nat)
    requires IdsBelow(db, id) && !HasKey(db, org, row.key)
    ensures Present(Create(db, org, row, id), org, row, id)
  {
    var created := Create(db, org, row, id);
    CreateTouchesOneProduct(db, org, row, id, id);
    KeysSurvive(db, org, row, id, row.key);
    assert created.products[|db.products|].key == row.key;
    assert forall j | 0 <= j < |db.products| :: created.products[j] == db.products[j];
  }

  lemma PresentStays(a: Db, b: Db, org: string, row: Row, id: nat)
    requires Present(a, org, row, id) && Undisturbed(a, b, org, row.key)
    ensures Present(b, org, row, id)
  {
  }

  /** A row for a key the catalogue does not have is created under any policy - unless the write is refused, which leaves no trace. */
  lemma NewKeyIsCreated(batch: Batch, db: Db, nextId: nat, r: nat) returns (id: nat)
    requires r < |batch.rows| && SoundRow(batch.rows, r) && Sound(db) && IdsBelow(db, nextId)
    requires !HasKey(db, batch.org, batch.rows[r].key)
    ensures var p, row := Import(batch, db, nextId), batch.rows[r];
            if WriteRefused(batch, r) then
              FailedRow(r, row.key, DatabaseError) in p.failed && !HasKey(p.db, batch.org, row.key)
            else
              OkRow(r, row.key, id, Created, |row.tiers|) in p.ok && Present(p.db, batch.org, row, id)
  {
    var row, end := batch.rows[r], Import(batch, db, nextId);
    var p, q := RowInBatch(batch, db, nextId, r);
    id := p.nextId;
    NewKeyStep(batch, r, p);
    if WriteRefused(batch, r) {
      PrefixHas(p.failed, FailedRow(r, row.key, DatabaseError), end.failed);
    } else {
      PrefixHas(p.ok, OkRow(r, row.key, id, Created, |row.tiers|), end.ok);
      CreatePresents(p.db, batch.org, row, id);
      PresentStays(q.db, end.db, batch.org, row, id);
    }
  }

  // ------------------------------------------------------- refused rows

  lemma RefusedStep(batch: Batch, r: nat, p: Progress)
    requires r < |batch.rows| && Lone(batch.rows, r) && !SoundRow(batch.rows, r)
    ensures var q, row := StepRow(batch, r, p), batch.rows[r];
            q.failed == p.failed + [FailedRow(r, row.key, if Priceable(row) then MissingCategory else BadStrategy)]
  {
    RefusalIff(batch.rows, r);
  }

  /** A row whose strategy lacks a column, or that names no category, is reported so. */
  lemma RefusedRowIsReported(batch: Batch, db: Db, nextId: nat, r: nat)
    requires r < |batch.rows| && Lone(batch.rows, r) && !SoundRow(batch.rows, r) && Sound(db) && IdsBelow(db, nextId)
    ensures var row := batch.rows[r];
            FailedRow(r, row.key, if Priceable(row) then MissingCategory else BadStrategy) in Import(batch, db, nextId).failed
  {
    var p, q := RowInBatch(batch, db, nextId, r);
    RefusedStep(batch, r, p);
    var row := batch.rows[r];
    PrefixHas(p.failed, FailedRow(r, row.key, if Priceable(row) then MissingCategory else BadStrategy),
              Import(batch, db, nextId).failed);
  }

  lemma {:induction false} NamelessListed(rows: seq<Row>, n: nat, r: nat)
    requires r < n <= |rows| && rows[r].key == ""
    ensures FailedRow(r, "", MissingName) in Listed(rows, n)
  {
    if r < n - 1 {
      NamelessListed(rows, n - 1, r);
    }
  }

  lemma {:induction false} DuplicateListed(rows: seq<Row>, n: nat, r: nat)
    requires r < n <= |rows| && rows[r].key != "" && SharesKey(rows, r)
    ensures FailedRow(r, rows[r].key, DuplicateWithinUpload) in ListedDuplicates(rows, n)
  {
    if r < n - 1 {
      DuplicateListed(rows, n - 1, r);
    }
  }

  lemma PreflightIsKept(batch: Batch, db: Db, nextId: nat, line: FailedRow)
    requires Sound(db) && IdsBelow(db, nextId) && line in Preflight(batch.rows)
    ensures line in Import(batch, db, nextId).failed
  {
    var ps := RunOf(batch, db, nextId);
    ReportsAreKept(batch, ps, 0, |batch.rows|);
    assert ps[0].failed == Preflight(batch.rows);
  }

  /** A row without a key, and every row of a key that occurs twice in the upload, is reported so. */
  lemma PreflightIsReported(batch: Batch, db: Db, nextId: nat, r: nat)
    requires r < |batch.rows| && Sound(db) && IdsBelow(db, nextId) && !Lone(batch.rows, r)
    ensures var key := batch.rows[r].key;
            FailedRow(r, key, if key == "" then MissingName else DuplicateWithinUpload) in Import(batch, db, nextId).failed
  {
    var key := batch.rows[r].key;
    if key == "" {
      NamelessListed(batch.rows, |batch.rows|, r);
      PreflightIsKept(batch, db, nextId, FailedRow(r, "", MissingName));
    } else {
      RefusalIff(batch.rows, r);
      DuplicateListed(batch.rows, |batch.rows|, r);
      PreflightIsKept(batch, db, nextId, FailedRow(r, key, DuplicateWithinUpload));
    }
  }

  // ------------------------------------------- policies that never overwrite

  lemma KeepingStep(batch: Batch, i: nat, p: Progress)
    requires i < |batch.rows| && batch.policy != Update
    ensures var db := StepRow(batch, i, p).db; db == p.db || db == Create(p.db, batch.org, batch.rows[i], p.nextId)
  {
  }

  lemma CreateKeepsProduct(db: Db, org: string, row: Row, id: nat, j: nat)
    requires j < |db.products| && IdsBelow(db, id)
    ensures SameProduct(db, Create(db, org, row, id), j)
  {
    CreateTouchesOneProduct(db, org, row, id, db.products[j].id);
  }

  lemma NextKeepsProduct(batch: Batch, i: nat, first: Db, p: Progress, j: nat)
    requires i < |batch.rows| && batch.policy != Update && Healthy(p)
    requires j < |first.products| && SameProduct(first, p.db, j)
    ensures SameProduct(first, StepRow(batch, i, p).db, j)
  {
    KeepingStep(batch, i, p);
    CreateKeepsProduct(p.db, batch.org, batch.rows[i], p.nextId, j);
  }

  lemma {:induction false} StatesKeepProduct(batch: Batch, ps: seq<Progress>, first: Db, n: nat, j: nat)
    requires States(batch, ps) && AllHealthy(ps) && batch.policy != Update && n < |ps|
    requires j < |first.products| && SameProduct(first, ps[0].db, j)
    ensures SameProduct(first, ps[n].db, j)
  {
    if n > 0 {
      StatesKeepProduct(batch, ps, first, n - 1, j);
      assert IsStep(batch, n - 1, ps[n - 1], ps[n - 1 + 1]);
      NextKeepsProduct(batch, n - 1, first, ps[n - 1], j);
    }
  }

  /** Under "skip" and "fail" no product that existed before the batch changes, nor any of its tiers. */
  lemma SkipAndFailKeepProducts(batch: Batch, db: Db, nextId: nat, j: nat)
    requires batch.policy == Skip || batch.policy == Fail
    requires Sound(db) && IdsBelow(db, nextId) && j < |db.products|
    ensures SameProduct(db, Import(batch, db, nextId).db, j)
  {
    var ps := RunOf(batch, db, nextId);
    CategoriesLeaveProducts(db, batch.org, batch.rows, |batch.rows|);
    StatesKeepProduct(batch, ps, db, |batch.rows|, j);
  }

  // ---------------------------------------------------------- categories

  /** The first row of the upload to name its category. */
  ghost predicate FirstNaming(rows: seq<Row>, r: nat)
    requires r < |rows|
  {
    rows[r].slug != "" && forall i | 0 <= i < r :: rows[i].slug != rows[r].slug
  }

  ghost predicate NamedBy(c: Category, org: string, rows: seq<Row>, r: nat)
    requires r < |rows|
  {
    FirstNaming(rows, r) && c == Category(org, rows[r].slug, rows[r].categoryName)
  }

  lemma {:induction false} CategoriesAreNamed(db: Db, org: string, rows: seq<Row>, n: nat)
    requires n <= |rows|
    ensures db.categories <= WithCategories(db, org, rows, n).categories
    ensures forall c | c in WithCategories(db, org, rows, n).categories ::
              c in db.categories || exists r | 0 <= r < n :: NamedBy(c, org, rows, r) && !HasCategory(db, org, rows[r].slug)
  {
    if n > 0 {
      CategoriesAreNamed(db, org, rows, n - 1);
      var before, after := WithCategories(db, org, rows, n - 1), WithCategories(db, org, rows, n);
      if after != before {
        var c := Category(org, rows[n - 1].slug, rows[n - 1].categoryName);
        assert NamedBy(c, org, rows, n - 1) by {
          forall i | 0 <= i < n - 1
            ensures rows[i].slug != rows[n - 1].slug
          {
            if rows[i].slug != "" {
              CategoriesPresent(db, org, rows, n - 1, i);
            }
          }
        }
        assert !HasCategory(db, org, rows[n - 1].slug);
      }
    }
  }

  /**
   Whatever becomes of the rows: every category they name exists afterwards, those that existed stay
   first and as they were, and each new one carries the name its first row gave it.
   */
  lemma CategoriesOfImport(batch: Batch, db: Db, nextId: nat)
    ensures var after := Import(batch, db, nextId).db;
            && db.categories <= after.categories
            && (forall r | 0 <= r < |batch.rows| && batch.rows[r].slug != "" :: HasCategory(after, batch.org, batch.rows[r].slug))
            && (forall c | c in after.categories :: c in db.categories ||
                  exists r | 0 <= r < |batch.rows| ::
                    NamedBy(c, batch.org, batch.rows, r) && !HasCategory(db, batch.org, batch.rows[r].slug))
  {
    var after := Import(batch, db, nextId).db;
    CategoriesSurviveRows(batch, db, nextId, |batch.rows|);
    CategoriesAreNamed(db, batch.org, batch.rows, |batch.rows|);
    forall r | 0 <= r < |batch.rows| && batch.rows[r].slug != ""
      ensures HasCategory(after, batch.org, batch.rows[r].slug)
    {
      CategoriesPresent(db, batch.org, batch.rows, |batch.rows|, r);
    }
  }
}
