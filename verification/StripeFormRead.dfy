/** Rebuilding the parameter tree from its form fields. */
module StripeFormRead {
  import opened Decimal
  import opened StripeForm
  import opened StripeFormParse
  import opened StripeFormRoundTrip

  // ------------------------------------------------------------ the reader

  ghost predicate Deep(fields: seq<Field>) {
    forall i | 0 <= i < |fields| :: fields[i].path != []
  }

  predicate Numeric(segment: string) {
    segment != "" && forall c | c in segment :: '0' <= c <= '9'
  }

  /** Length of the leading run of fields with the same first segment. */
  function Run(fields: seq<Field>, segment: string): (n: nat)
    requires Deep(fields)
    ensures n <= |fields|
    ensures fields != [] && fields[0].path[0] == segment ==> n > 0
  {
    if fields == [] || fields[0].path[0] != segment then 0 else 1 + Run(fields[1..], segment)
  }

  function Tails(fields: seq<Field>): (tails: seq<Field>)
    requires Deep(fields)
    ensures |tails| == |fields|
    ensures forall i | 0 <= i < |fields| :: tails[i] == Field(fields[i].path[1..], fields[i].text)
  {
    seq(|fields|, i requires 0 <= i < |fields| => Field(fields[i].path[1..], fields[i].text))
  }

  ghost function Weight(fields: seq<Field>): nat {
    if fields == [] then 0 else |fields[0].path| + 1 + Weight(fields[1..])
  }

  lemma {:induction false} WeightOfTails(fields: seq<Field>)
    requires Deep(fields)
    ensures Weight(Tails(fields)) + |fields| == Weight(fields)
  {
    if fields != [] {
      WeightOfTails(fields[1..]);
      assert Tails(fields)[1..] == Tails(fields[1..]);
    }
  }

  lemma {:induction false} WeightOfSplit(fields: seq<Field>, n: nat)
    requires n <= |fields|
    ensures Weight(fields[..n]) + Weight(fields[n..]) == Weight(fields)
  {
    if n > 0 {
      assert fields[..n][1..] == fields[1..][..n - 1] && fields[n..] == fields[1..][n - 1..];
      WeightOfSplit(fields[1..], n - 1);
    } else {
      assert fields[0..] == fields;
    }
  }

  lemma {:induction false} WeightNotZero(fields: seq<Field>)
    ensures Weight(fields) >= |fields|
  {
    if fields != [] {
      WeightNotZero(fields[1..]);
    }
  }

  /** A field at the root is a leaf; otherwise numeric first segments mean a list, others a dict. */
  ghost function Rebuild(fields: seq<Field>): Node
    decreases Weight(fields), 1
  {
    if fields == [] then Null
    else if fields[0].path == [] then Text(fields[0].text)
    else if !Deep(fields) then Null
    else
      var children := Children(fields);
      if Numeric(fields[0].path[0]) then List(Values(children)) else Dict(children)
  }

  ghost function Children(fields: seq<Field>): seq<Entry>
    requires Deep(fields)
    decreases Weight(fields), 0
  {
    if fields == [] then []
    else
      var segment := fields[0].path[0];
      var n := Run(fields, segment);
      WeightOfSplit(fields, n);
      WeightOfTails(fields[..n]);
      WeightNotZero(fields[..n]);
      [Entry(segment, Rebuild(Tails(fields[..n])))] + Children(fields[n..])
  }

  function Values(entries: seq<Entry>): (values: seq<Node>)
    ensures |values| == |entries| && forall i | 0 <= i < |entries| :: values[i] == entries[i].value
  {
    seq(|entries|, i requires 0 <= i < |entries| => entries[i].value)
  }

  /** The tree of a whole form. */
  ghost function ReadForm(pairs: seq<(string, string)>): seq<Entry> {
    Children(seq(|pairs|, i requires 0 <= i < |pairs| => Field(SplitKey(pairs[i].0), pairs[i].1)))
  }

  // ------------------------------------------- what a form can carry of a tree

  /** The tree without Nones and empty containers, leaves as text; Null when nothing is left. */
  function Prune(node: Node): Node
    decreases node, 0
  {
    match node
    case Null => Null
    case Bool(b) => Text(BoolText(b))
    case Text(s) => Text(s)
    case List(items) => var kept := PruneItems(items); if kept == [] then Null else List(kept)
    case Dict(entries) => var kept := PruneEntries(entries); if kept == [] then Null else Dict(kept)
  }

  function PruneItems(items: seq<Node>): seq<Node>
    decreases items, 1
  {
    if items == [] then []
    else
      var first := Prune(items[0]);
      (if first.Null? then [] else [first]) + PruneItems(items[1..])
  }

  function PruneEntries(entries: seq<Entry>): seq<Entry>
    decreases entries, 1
  {
    if entries == [] then []
    else
      var first := Prune(entries[0].value);
      (if first.Null? then [] else [Entry(entries[0].key, first)]) + PruneEntries(entries[1..])
  }

  /** No nested dict has a key that could be mistaken for a list index. */
  ghost predicate Readable(node: Node)
    decreases node, 0
  {
    match node
    case List(items) => forall i | 0 <= i < |items| :: Readable(items[i])
    case Dict(entries) =>
      forall i | 0 <= i < |entries| :: !Numeric(entries[i].key) && Readable(entries[i].value)
    case _ => true
  }

  // ------------------------------------------------------------- the round trip

  lemma {:induction false} RunOfBelow(segment: string, fields: seq<Field>, rest: seq<Field>)
    requires NoneStartsWith(rest, segment)
    ensures Deep(Below(segment, fields) + rest)
    ensures Run(Below(segment, fields) + rest, segment) == |fields|
  {
    var all := Below(segment, fields) + rest;
    if fields == [] {
      assert all == rest;
    } else {
      assert all[1..] == Below(segment, fields[1..]) + rest;
      RunOfBelow(segment, fields[1..], rest);
    }
  }

  lemma ChildrenOfBelow(segment: string, fields: seq<Field>, rest: seq<Field>)
    requires NoneStartsWith(rest, segment)
    ensures Deep(Below(segment, fields) + rest)
    ensures Children(Below(segment, fields) + rest) ==
            (if fields == [] then [] else [Entry(segment, Rebuild(fields))]) + Children(rest)
  {
    var all := Below(segment, fields) + rest;
    RunOfBelow(segment, fields, rest);
    if fields == [] {
      assert all == rest;
      assert [] + Children(rest) == Children(rest);
    } else {
      assert all[..|fields|] == Below(segment, fields) && all[|fields|..] == rest;
      assert Tails(Below(segment, fields)) == fields;
    }
  }

  lemma {:induction false} RebuildIsPrune(node: Node)
    requires Clean(node) && Readable(node)
    ensures Rebuild(Fields(node)) == Prune(node)
    ensures Fields(node) == [] <==> Prune(node) == Null
    decreases node, 0
  {
    match node
    case Null =>
    case Bool(b) =>
    case Text(s) =>
    case List(items) =>
      ItemChildren(items, 0);
      ListRebuilds(items);
    case Dict(entries) =>
      EntryChildren(entries);
      DictRebuilds(entries);
  }

  lemma ListRebuilds(items: seq<Node>)
    requires Deep(ItemFields(items, 0)) && Values(Children(ItemFields(items, 0))) == PruneItems(items)
    requires ItemFields(items, 0) == [] <==> PruneItems(items) == []
    requires ItemFields(items, 0) != [] ==> Numeric(ItemFields(items, 0)[0].path[0])
    ensures Rebuild(Fields(List(items))) == Prune(List(items))
  {
  }

  lemma DictRebuilds(entries: seq<Entry>)
    requires Deep(EntryFields(entries)) && Children(EntryFields(entries)) == PruneEntries(entries)
    requires EntryFields(entries) == [] <==> PruneEntries(entries) == []
    requires EntryFields(entries) != [] ==> !Numeric(EntryFields(entries)[0].path[0])
    ensures Rebuild(Fields(Dict(entries))) == Prune(Dict(entries))
  {
  }

  lemma StrIsNumeric(n: nat)
    ensures Numeric(Str(n))
  {
    StrRoundTrip(n);
  }

  /** One list item's fields, followed by those of the items after it. */
  lemma ItemChildrenStep(from: nat, fields: seq<Field>, rest: seq<Field>)
    requires NoneStartsWith(rest, Str(from)) && Deep(rest)
    ensures Deep(Below(Str(from), fields) + rest)
    ensures Values(Children(Below(Str(from), fields) + rest)) ==
            (if fields == [] then [] else [Rebuild(fields)]) + Values(Children(rest))
    ensures fields != [] ==> Numeric((Below(Str(from), fields) + rest)[0].path[0])
  {
    ChildrenOfBelow(Str(from), fields, rest);
    StrIsNumeric(from);
  }

  lemma {:induction false} ItemChildren(items: seq<Node>, from: nat)
    requires Clean(List(items)) && Readable(List(items))
    ensures Deep(ItemFields(items, from))
    ensures Values(Children(ItemFields(items, from))) == PruneItems(items)
    ensures ItemFields(items, from) == [] <==> PruneItems(items) == []
    ensures ItemFields(items, from) != [] ==> Numeric(ItemFields(items, from)[0].path[0])
    decreases items, 1
  {
    if items != [] {
      CleanItemsTail(items);
      assert forall i | 0 <= i < |items[1..]| :: items[1..][i] == items[i + 1];
      RebuildIsPrune(items[0]);
      ItemChildren(items[1..], from + 1);
      ItemsStartWithTheirIndex(items[1..], from + 1, from);
      var fields, rest := Fields(items[0]), ItemFields(items[1..], from + 1);
      ItemChildrenStep(from, fields, rest);
      assert ItemFields(items, from) == Below(Str(from), fields) + rest;
      if fields == [] {
        assert ItemFields(items, from) == rest;
      }
    }
  }

  /** One entry's fields, followed by those of the entries after it. */
  lemma EntryChildrenStep(key: string, fields: seq<Field>, rest: seq<Field>)
    requires NoneStartsWith(rest, key) && Deep(rest)
    ensures Deep(Below(key, fields) + rest)
    ensures Children(Below(key, fields) + rest) ==
            (if fields == [] then [] else [Entry(key, Rebuild(fields))]) + Children(rest)
    ensures fields != [] ==> (Below(key, fields) + rest)[0].path[0] == key
  {
    ChildrenOfBelow(key, fields, rest);
  }

  lemma {:induction false} EntryChildren(entries: seq<Entry>)
    requires CleanEntries(entries) && forall i | 0 <= i < |entries| :: Readable(entries[i].value)
    ensures Deep(EntryFields(entries))
    ensures Children(EntryFields(entries)) == PruneEntries(entries)
    ensures EntryFields(entries) == [] <==> PruneEntries(entries) == []
    ensures (forall i | 0 <= i < |entries| :: !Numeric(entries[i].key)) && EntryFields(entries) != [] ==>
              !Numeric(EntryFields(entries)[0].path[0])
    decreases entries, 1
  {
    if entries != [] {
      CleanTail(entries);
      assert forall i | 0 <= i < |entries[1..]| :: entries[1..][i] == entries[i + 1];
      RebuildIsPrune(entries[0].value);
      EntryChildren(entries[1..]);
      EntriesStartWithTheirKeys(entries[1..], entries[0].key);
      var fields, rest := Fields(entries[0].value), EntryFields(entries[1..]);
      EntryChildrenStep(entries[0].key, fields, rest);
      assert EntryFields(entries) == Below(entries[0].key, fields) + rest;
      if fields == [] {
        assert EntryFields(entries) == rest;
      }
    }
  }

  /** Reading the printed form gives back the parameters, minus what a form cannot carry. */
  lemma ReadInvertsPrint(params: seq<Entry>)
    requires CleanEntries(params) && forall i | 0 <= i < |params| :: Readable(params[i].value)
    ensures ReadForm(FlatParams(params)) == PruneEntries(params)
  {
    var fields, pairs := EntryFields(params), FlatParams(params);
    ParamsAreRendered(params);
    EntryPathsAreDistinct(params);
    EntryPathsNonEmpty(params);
    forall i | 0 <= i < |fields|
      ensures SplitKey(pairs[i].0) == fields[i].path
    {
      SplitKeyInverts(fields[i].path);
    }
    assert seq(|pairs|, i requires 0 <= i < |pairs| => Field(SplitKey(pairs[i].0), pairs[i].1)) == fields;
    EntryChildren(params);
  }

  /** Numeric dict keys are lost: the dict {"0": x} and the list [x] print the same form. */
  lemma NumericKeysAreAmbiguous(x: string)
    ensures FlatParams([Entry("a", Dict([Entry("0", Text(x))]))]) == FlatParams([Entry("a", List([Text(x)]))])
  {
    var inner, items := [Entry("0", Text(x))], [Text(x)];
    assert inner[1..] == [] && items[1..] == [];
    assert Str(0) == "0";
    assert FlatEntries("a", inner) == Flat(Bracketed("a", "0"), Text(x)) + [];
    assert FlatItems("a", items, 0) == Flat(Bracketed("a", "0"), Text(x)) + [];
  }
}
