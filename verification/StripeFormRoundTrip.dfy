/** The two promises of the form printer: no key is written twice, and the form reads back as the tree. */
module StripeFormRoundTrip {
  import opened Decimal
  import opened StripeForm
  import opened StripeFormParse

  ghost predicate DistinctKeys(entries: seq<Entry>) {
    forall i, j | 0 <= i < j < |entries| :: entries[i].key != entries[j].key
  }

  /** Dict keys are unique, as in any dict, and hold no brackets. */
  ghost predicate Clean(node: Node)
    decreases node, 0
  {
    match node
    case List(items) => forall i | 0 <= i < |items| :: Clean(items[i])
    case Dict(entries) => CleanEntries(entries)
    case _ => true
  }

  ghost predicate CleanEntries(entries: seq<Entry>)
    decreases entries, 1
  {
    && DistinctKeys(entries)
    && forall i | 0 <= i < |entries| :: BracketFree(entries[i].key) && Clean(entries[i].value)
  }

  lemma CleanTail(entries: seq<Entry>)
    requires entries != [] && CleanEntries(entries)
    ensures CleanEntries(entries[1..]) && BracketFree(entries[0].key) && Clean(entries[0].value)
  {
    assert forall i | 0 <= i < |entries[1..]| :: entries[1..][i] == entries[i + 1];
  }

  lemma CleanItemsTail(items: seq<Node>)
    requires items != [] && Clean(List(items))
    ensures Clean(List(items[1..])) && Clean(items[0])
  {
    assert forall i | 0 <= i < |items[1..]| :: items[1..][i] == items[i + 1];
  }

  lemma StrIsInjective(a: nat, b: nat)
    requires Str(a) == Str(b)
    ensures a == b
  {
    StrRoundTrip(a);
    StrRoundTrip(b);
  }

  lemma StrIsBracketFree(n: nat)
    ensures BracketFree(Str(n))
  {
    StrRoundTrip(n);
  }

  // ------------------------------------------------------- no key written twice

  /** Paths are clean and pairwise different. */
  ghost predicate DistinctPaths(fields: seq<Field>) {
    && (forall i | 0 <= i < |fields| :: CleanPath(fields[i].path))
    && (forall i, j | 0 <= i < j < |fields| :: fields[i].path != fields[j].path)
  }

  ghost predicate NoneStartsWith(fields: seq<Field>, segment: string) {
    forall i | 0 <= i < |fields| :: fields[i].path != [] && fields[i].path[0] != segment
  }

  lemma DistinctBelow(segment: string, fields: seq<Field>, rest: seq<Field>)
    requires DistinctPaths(fields) && BracketFree(segment)
    requires DistinctPaths(rest) && NoneStartsWith(rest, segment)
    ensures DistinctPaths(Below(segment, fields) + rest)
  {
    var below := Below(segment, fields);
    forall i, j | 0 <= i < j < |below|
      ensures below[i].path != below[j].path
    {
      assert below[i].path[1..] == fields[i].path && below[j].path[1..] == fields[j].path;
    }
    forall i, j | 0 <= i < |below| && 0 <= j < |rest|
      ensures below[i].path != rest[j].path
    {
      assert below[i].path[0] == segment;
    }
  }

  lemma {:induction false} EntriesStartWithTheirKeys(entries: seq<Entry>, segment: string)
    requires forall i | 0 <= i < |entries| :: entries[i].key != segment
    ensures NoneStartsWith(EntryFields(entries), segment)
  {
    if entries != [] {
      assert forall i | 0 <= i < |entries[1..]| :: entries[1..][i] == entries[i + 1];
      EntriesStartWithTheirKeys(entries[1..], segment);
    }
  }

  lemma {:induction false} ItemsStartWithTheirIndex(items: seq<Node>, from: nat, index: nat)
    requires index < from
    ensures NoneStartsWith(ItemFields(items, from), Str(index))
  {
    if items != [] {
      ItemsStartWithTheirIndex(items[1..], from + 1, index);
      if Str(from) == Str(index) {
        StrIsInjective(from, index);
      }
    }
  }

  lemma {:induction false} PathsAreDistinct(node: Node)
    requires Clean(node)
    ensures DistinctPaths(Fields(node))
    decreases node, 0
  {
    match node
    case Null =>
    case Bool(b) =>
    case Text(s) =>
    case List(items) => ItemPathsAreDistinct(items, 0);
    case Dict(entries) => EntryPathsAreDistinct(entries);
  }

  lemma {:induction false} ItemPathsAreDistinct(items: seq<Node>, from: nat)
    requires Clean(List(items))
    ensures DistinctPaths(ItemFields(items, from))
    decreases items, 1
  {
    if items != [] {
      CleanItemsTail(items);
      PathsAreDistinct(items[0]);
      ItemPathsAreDistinct(items[1..], from + 1);
      ItemsStartWithTheirIndex(items[1..], from + 1, from);
      StrIsBracketFree(from);
      DistinctBelow(Str(from), Fields(items[0]), ItemFields(items[1..], from + 1));
    }
  }

  lemma {:induction false} EntryPathsAreDistinct(entries: seq<Entry>)
    requires CleanEntries(entries)
    ensures DistinctPaths(EntryFields(entries))
    decreases entries, 1
  {
    if entries != [] {
      CleanTail(entries);
      PathsAreDistinct(entries[0].value);
      EntryPathsAreDistinct(entries[1..]);
      assert forall i | 0 <= i < |entries[1..]| :: entries[1..][i] == entries[i + 1];
      EntriesStartWithTheirKeys(entries[1..], entries[0].key);
      DistinctBelow(entries[0].key, Fields(entries[0].value), EntryFields(entries[1..]));
    }
  }

  lemma {:induction false} EntryPathsNonEmpty(entries: seq<Entry>)
    ensures forall i | 0 <= i < |EntryFields(entries)| :: EntryFields(entries)[i].path != []
  {
    if entries != [] {
      EntryPathsNonEmpty(entries[1..]);
    }
  }

  /** The printer never writes the same form key twice. */
  lemma NoKeyWrittenTwice(params: seq<Entry>)
    requires CleanEntries(params)
    ensures forall i, j | 0 <= i < j < |FlatParams(params)| :: FlatParams(params)[i].0 != FlatParams(params)[j].0
  {
    var fields := EntryFields(params);
    ParamsAreRendered(params);
    EntryPathsAreDistinct(params);
    EntryPathsNonEmpty(params);
    forall i, j | 0 <= i < j < |fields|
      ensures KeyOf(fields[i].path) != KeyOf(fields[j].path)
    {
      SplitKeyInverts(fields[i].path);
      SplitKeyInverts(fields[j].path);
    }
  }

  lemma {:induction false} PutAllKeepsDistinct(out: map<string, string>, fields: seq<(string, string)>)
    requires forall i, j | 0 <= i < j < |fields| :: fields[i].0 != fields[j].0
    ensures forall i | 0 <= i < |fields| :: fields[i].0 in PutAll(out, fields) && PutAll(out, fields)[fields[i].0] == fields[i].1
    ensures forall k | k in out && (forall i | 0 <= i < |fields| :: fields[i].0 != k) ::
              k in PutAll(out, fields) && PutAll(out, fields)[k] == out[k]
    decreases |fields|
  {
    if fields != [] {
      PutAllKeepsDistinct(out[fields[0].0 := fields[0].1], fields[1..]);
    }
  }

  /** So every leaf survives in the encoded form under its own key. */
  lemma EveryLeafSurvives(params: seq<Entry>)
    requires CleanEntries(params)
    ensures forall i | 0 <= i < |FlatParams(params)| ::
              var (key, text) := FlatParams(params)[i];
              key in PutAll(map[], FlatParams(params)) && PutAll(map[], FlatParams(params))[key] == text
  {
    NoKeyWrittenTwice(params);
    PutAllKeepsDistinct(map[], FlatParams(params));
  }

  /** Bracket-free keys are needed: a key that already looks nested hides another leaf. */
  lemma BracketedKeysCollide()
    ensures var params := [Entry("a[b]", Text("1")), Entry("a", Dict([Entry("b", Text("2"))]))];
            FlatParams(params)[0].0 == FlatParams(params)[1].0 && FlatParams(params)[0].1 != FlatParams(params)[1].1
  {
    var inner := [Entry("b", Text("2"))];
    var params := [Entry("a[b]", Text("1")), Entry("a", Dict(inner))];
    assert inner[1..] == [];
    assert Flat("a", Dict(inner)) == Flat(Bracketed("a", "b"), Text("2")) + [];
    assert params[1..] == [params[1]] && params[1..][1..] == [];
    assert Bracketed("a", "b") == "a[b]";
  }
}
