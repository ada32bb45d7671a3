/** The catalogue tables a bulk import touches, and one import row's effect on them. */
module Catalogue {
  /** A product row; `fields` are its other non-null columns. */
  datatype Product = Product(id: nat, org: string, key: string, category: string, fields: map<string, string>)

  datatype TierRow = TierRow(productId: nat, spec: string, qty: nat, price: int)

  datatype Category = Category(org: string, slug: string, name: string)

  datatype Db = Db(products: seq<Product>, tiers: seq<TierRow>, categories: seq<Category>)

  datatype NewTier = NewTier(spec: string, qty: nat, price: int)

  /** A submitted row: its derived key and category slug, its filled-in fields, its tiers. */
  datatype Row = Row(key: string, categoryName: string, slug: string, strategy: string,
                     fields: map<string, string>, tiers: seq<NewTier>)

  datatype Policy = Skip | Update | Fail

  // --------------------------------------------------------------- queries

  /** Position of the product with this key in this organisation; |products| when there is none. */
  function Find(products: seq<Product>, org: string, key: string): (i: nat)
    ensures i <= |products|
    ensures i < |products| ==> products[i].org == org && products[i].key == key
    ensures forall j | 0 <= j < i :: !(products[j].org == org && products[j].key == key)
  {
    if products == [] || (products[0].org == org && products[0].key == key) then 0
    else
      var i := Find(products[1..], org, key);
      assert forall j | 1 <= j < i + 1 :: products[j] == products[1..][j - 1];
      i + 1
  }

  predicate HasKey(db: Db, org: string, key: string) {
    Find(db.products, org, key) < |db.products|
  }

  predicate HasCategory(db: Db, org: string, slug: string) {
    exists c | c in db.categories :: c.org == org && c.slug == slug
  }

  function TiersOfOthers(tiers: seq<TierRow>, id: nat): seq<TierRow> {
    if tiers == [] then []
    else (if tiers[0].productId == id then [] else [tiers[0]]) + TiersOfOthers(tiers[1..], id)
  }

  function TierRows(id: nat, tiers: seq<NewTier>): (rows: seq<TierRow>)
    ensures |rows| == |tiers|
    ensures forall i | 0 <= i < |tiers| :: rows[i] == TierRow(id, tiers[i].spec, tiers[i].qty, tiers[i].price)
  {
    seq(|tiers|, i requires 0 <= i < |tiers| => TierRow(id, tiers[i].spec, tiers[i].qty, tiers[i].price))
  }

  /** Two tiers of one row claim the same (spec, quantity). */
  predicate TiersClash(tiers: seq<NewTier>) {
    exists i, j :: 0 <= i < j < |tiers| && tiers[i].spec == tiers[j].spec && tiers[i].qty == tiers[j].qty
  }

  // ------------------------------------------------------------ constraints

  /** The database's unique constraints: (org, key), id, (product, spec, quantity), and (org, slug) of categories. */
  ghost predicate Sound(db: Db) {
    && (forall i, j | 0 <= i < j < |db.products| :: db.products[i].id != db.products[j].id
          && !(db.products[i].org == db.products[j].org && db.products[i].key == db.products[j].key))
    && UniqueTiers(db.tiers)
    && UniqueCategories(db.categories)
  }

  ghost predicate UniqueCategories(categories: seq<Category>) {
    forall i, j | 0 <= i < j < |categories| ::
      !(categories[i].org == categories[j].org && categories[i].slug == categories[j].slug)
  }

  ghost predicate UniqueTiers(tiers: seq<TierRow>) {
    forall i, j | 0 <= i < j < |tiers| ::
      !(tiers[i].productId == tiers[j].productId && tiers[i].spec == tiers[j].spec && tiers[i].qty == tiers[j].qty)
  }

  /** Ids below the sequence's next value are the only ones in use. */
  ghost predicate IdsBelow(db: Db, nextId: nat) {
    && (forall i | 0 <= i < |db.products| :: db.products[i].id < nextId)
    && (forall i | 0 <= i < |db.tiers| :: db.tiers[i].productId < nextId)
  }

  // ---------------------------------------------------------------- effects

  /** A new product with its tiers. */
  function Create(db: Db, org: string, row: Row, id: nat): Db {
    db.(products := db.products + [Product(id, org, row.key, row.slug, row.fields)],
        tiers := db.tiers + TierRows(id, row.tiers))
  }

  /** Filled-in fields overwrite, blank ones stay; the tier table of the product is replaced. */
  function Replace(db: Db, org: string, row: Row): Db
    requires HasKey(db, org, row.key)
  {
    var i := Find(db.products, org, row.key);
    var current := db.products[i];
    db.(products := db.products[i := current.(category := row.slug, fields := current.fields + row.fields)],
        tiers := TiersOfOthers(db.tiers, current.id) + TierRows(current.id, row.tiers))
  }

  // ------------------------------------------------------------------ lemmas

  lemma {:induction false} OthersOnly(tiers: seq<TierRow>, id: nat)
    ensures forall t | t in TiersOfOthers(tiers, id) :: t in tiers && t.productId != id
    ensures UniqueTiers(tiers) ==> UniqueTiers(TiersOfOthers(tiers, id))
  {
    if tiers != [] {
      OthersOnly(tiers[1..], id);
      var rest := TiersOfOthers(tiers[1..], id);
      if UniqueTiers(tiers) {
        assert forall i, j | 0 <= i < j < |tiers[1..]| :: tiers[1..][i] == tiers[i + 1] && tiers[1..][j] == tiers[j + 1];
        forall j | 0 <= j < |rest|
          ensures !(tiers[0].productId == rest[j].productId && tiers[0].spec == rest[j].spec && tiers[0].qty == rest[j].qty)
        {
          assert rest[j] in tiers[1..];
        }
      }
    }
  }

  lemma TierRowsUnique(others: seq<TierRow>, id: nat, tiers: seq<NewTier>)
    requires UniqueTiers(others) && !TiersClash(tiers)
    requires forall t | t in others :: t.productId != id
    ensures UniqueTiers(others + TierRows(id, tiers))
  {
    var rows := TierRows(id, tiers);
    forall i, j | 0 <= i < |others| && 0 <= j < |rows|
      ensures others[i].productId != rows[j].productId
    {
      assert others[i] in others;
    }
  }

  lemma CreateIsSound(db: Db, org: string, row: Row, id: nat)
    requires Sound(db) && IdsBelow(db, id) && !HasKey(db, org, row.key) && !TiersClash(row.tiers)
    ensures Sound(Create(db, org, row, id)) && IdsBelow(Create(db, org, row, id), id + 1)
  {
    TierRowsUnique(db.tiers, id, row.tiers);
  }

  lemma ReplaceIsSound(db: Db, org: string, row: Row, nextId: nat)
    requires Sound(db) && IdsBelow(db, nextId) && HasKey(db, org, row.key) && !TiersClash(row.tiers)
    ensures Sound(Replace(db, org, row)) && IdsBelow(Replace(db, org, row), nextId)
  {
    var current := db.products[Find(db.products, org, row.key)];
    OthersOnly(db.tiers, current.id);
    TierRowsUnique(TiersOfOthers(db.tiers, current.id), current.id, row.tiers);
    var after := Replace(db, org, row);
    forall i | 0 <= i < |after.tiers|
      ensures after.tiers[i].productId < nextId
    {
      if i < |TiersOfOthers(db.tiers, current.id)| {
        assert after.tiers[i] in TiersOfOthers(db.tiers, current.id);
        assert after.tiers[i] in db.tiers;
      }
    }
  }

  /** Neither effect makes a key disappear, and creating makes the row's own key appear. */
  lemma KeysSurvive(db: Db, org: string, row: Row, id: nat, key: string)
    ensures HasKey(db, org, key) ==> HasKey(Create(db, org, row, id), org, key)
    ensures HasKey(db, org, key) && HasKey(db, org, row.key) ==> HasKey(Replace(db, org, row), org, key)
    ensures HasKey(Create(db, org, row, id), org, row.key)
  {
    var created := Create(db, org, row, id);
    var i := Find(db.products, org, key);
    if i < |db.products| {
      assert created.products[i].org == org && created.products[i].key == key;
      if HasKey(db, org, row.key) {
        var after := Replace(db, org, row);
        assert after.products[i].org == org && after.products[i].key == key;
      }
    }
    assert created.products[|db.products|].key == row.key;
  }

  // -------------------------------------------------- what one row can touch

  function TiersOf(tiers: seq<TierRow>, id: nat): seq<TierRow> {
    if tiers == [] then []
    else (if tiers[0].productId == id then [tiers[0]] else []) + TiersOf(tiers[1..], id)
  }

  lemma {:induction false} TiersOfAppend(a: seq<TierRow>, b: seq<TierRow>, id: nat)
    ensures TiersOf(a + b, id) == TiersOf(a, id) + TiersOf(b, id)
  {
    if a == [] {
      assert a + b == b;
    } else {
      var head, ab := if a[0].productId == id then [a[0]] else [], a + b;
      assert ab[0] == a[0] && ab[1..] == a[1..] + b;
      TiersOfAppend(a[1..], b, id);
      assert TiersOf(ab, id) == head + (TiersOf(a[1..], id) + TiersOf(b, id));
      assert TiersOf(a, id) == head + TiersOf(a[1..], id);
    }
  }

  lemma {:induction false} TiersOfRows(rows: seq<TierRow>, owner: nat, id: nat)
    requires forall i | 0 <= i < |rows| :: rows[i].productId == owner
    ensures TiersOf(rows, id) == if id == owner then rows else []
  {
    if rows != [] {
      var rest := rows[1..];
      assert forall i | 0 <= i < |rest| :: rest[i] == rows[i + 1];
      TiersOfRows(rest, owner, id);
      assert rows[0].productId == owner;
      assert rows == [rows[0]] + rest;
    }
  }

  lemma {:induction false} TiersOfOthersSplit(tiers: seq<TierRow>, owner: nat, id: nat)
    ensures TiersOf(TiersOfOthers(tiers, owner), id) == if id == owner then [] else TiersOf(tiers, id)
  {
    if tiers != [] {
      TiersOfOthersSplit(tiers[1..], owner, id);
      var kept := if tiers[0].productId == owner then [] else [tiers[0]];
      TiersOfAppend(kept, TiersOfOthers(tiers[1..], owner), id);
      assert [tiers[0]][1..] == [];
    }
  }

  lemma TiersAfterReplace(tiers: seq<TierRow>, owner: nat, submitted: seq<NewTier>, id: nat)
    ensures TiersOf(TiersOfOthers(tiers, owner) + TierRows(owner, submitted), id) ==
            if id == owner then TierRows(id, submitted) else TiersOf(tiers, id)
  {
    var others, rows := TiersOfOthers(tiers, owner), TierRows(owner, submitted);
    TiersOfAppend(others, rows, id);
    TiersOfOthersSplit(tiers, owner, id);
    TiersOfRows(rows, owner, id);
    if id == owner {
      assert [] + rows == rows;
    } else {
      assert TiersOf(tiers, id) + [] == TiersOf(tiers, id);
    }
  }

  /** An update: the product keeps its id, blank cells keep their column, its tiers become the row's, all else is untouched. */
  lemma ReplaceTouchesOneProduct(db: Db, org: string, row: Row, j: nat, id: nat)
    requires HasKey(db, org, row.key) && j < |db.products|
    ensures var i, after := Find(db.products, org, row.key), Replace(db, org, row);
            && |after.products| == |db.products| && after.categories == db.categories
            && (j != i ==> after.products[j] == db.products[j])
            && after.products[i].id == db.products[i].id && after.products[i].key == row.key
            && after.products[i].org == org && after.products[i].category == row.slug
            && (forall f | f in after.products[i].fields :: after.products[i].fields[f] ==
                  if f in row.fields then row.fields[f] else db.products[i].fields[f])
            && after.products[i].fields.Keys == db.products[i].fields.Keys + row.fields.Keys
            && TiersOf(after.tiers, id) ==
                 if id == db.products[i].id then TierRows(id, row.tiers) else TiersOf(db.tiers, id)
  {
    TiersAfterReplace(db.tiers, db.products[Find(db.products, org, row.key)].id, row.tiers, id);
  }

  lemma TiersAfterCreate(tiers: seq<TierRow>, owner: nat, submitted: seq<NewTier>, id: nat)
    requires forall i | 0 <= i < |tiers| :: tiers[i].productId < owner
    ensures TiersOf(tiers + TierRows(owner, submitted), id) ==
            if id == owner then TierRows(id, submitted) else TiersOf(tiers, id)
  {
    var rows := TierRows(owner, submitted);
    TiersOfAppend(tiers, rows, id);
    TiersOfRows(rows, owner, id);
    if id == owner {
      NoTiersYet(tiers, owner);
      assert [] + rows == rows;
    } else {
      assert TiersOf(tiers, id) + [] == TiersOf(tiers, id);
    }
  }

  /** A creation: one new product at the end with exactly the row's tiers; every other product keeps its columns and tiers. */
  lemma CreateTouchesOneProduct(db: Db, org: string, row: Row, newId: nat, id: nat)
    requires IdsBelow(db, newId)
    ensures var after := Create(db, org, row, newId);
            && |after.products| == |db.products| + 1 && after.products[..|db.products|] == db.products
            && after.products[|db.products|] == Product(newId, org, row.key, row.slug, row.fields)
            && after.categories == db.categories
            && TiersOf(after.tiers, id) == if id == newId then TierRows(id, row.tiers) else TiersOf(db.tiers, id)
  {
    TiersAfterCreate(db.tiers, newId, row.tiers, id);
  }

  lemma {:induction false} NoTiersYet(tiers: seq<TierRow>, id: nat)
    requires forall i | 0 <= i < |tiers| :: tiers[i].productId != id
    ensures TiersOf(tiers, id) == []
  {
    if tiers != [] {
      assert forall i | 0 <= i < |tiers[1..]| :: tiers[1..][i] == tiers[i + 1];
      NoTiersYet(tiers[1..], id);
    }
  }
}
