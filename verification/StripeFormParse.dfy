/**
 Reading a bracket-notation form back.  The round trip shows that the printer
 neither merges two leaves under one key nor loses where a leaf came from.
 */
module StripeFormParse {
  import opened Decimal
  import opened StripeForm

  // ------------------------------------------------------- leaves by their path

  function Below(segment: string, fields: seq<Field>): (below: seq<Field>)
    ensures |below| == |fields|
    ensures forall i | 0 <= i < |fields| :: below[i] == Field([segment] + fields[i].path, fields[i].text)
  {
    seq(|fields|, i requires 0 <= i < |fields| => Field([segment] + fields[i].path, fields[i].text))
  }

  function Fields(node: Node): seq<Field>
    decreases node, 0
  {
    match node
    case Null => []
    case Bool(b) => [Field([], BoolText(b))]
    case Text(s) => [Field([], s)]
    case List(items) => ItemFields(items, 0)
    case Dict(entries) => EntryFields(entries)
  }

  function ItemFields(items: seq<Node>, from: nat): seq<Field>
    decreases items, 1
  {
    if items == [] then []
    else Below(Str(from), Fields(items[0])) + ItemFields(items[1..], from + 1)
  }

  function EntryFields(entries: seq<Entry>): seq<Field>
    decreases entries, 1
  {
    if entries == [] then []
    else Below(entries[0].key, Fields(entries[0].value)) + EntryFields(entries[1..])
  }

  function Suffix(path: seq<string>): string {
    if path == [] then "" else "[" + path[0] + "]" + Suffix(path[1..])
  }

  function Rendered(prefix: string, fields: seq<Field>): (pairs: seq<(string, string)>)
    ensures |pairs| == |fields|
    ensures forall i | 0 <= i < |fields| :: pairs[i] == (prefix + Suffix(fields[i].path), fields[i].text)
  {
    seq(|fields|, i requires 0 <= i < |fields| => (prefix + Suffix(fields[i].path), fields[i].text))
  }

  lemma RenderedBelow(prefix: string, segment: string, fields: seq<Field>)
    ensures Rendered(Bracketed(prefix, segment), fields) == Rendered(prefix, Below(segment, fields))
  {
    forall i | 0 <= i < |fields|
      ensures Bracketed(prefix, segment) + Suffix(fields[i].path) == prefix + Suffix([segment] + fields[i].path)
    {
      var path := fields[i].path;
      assert ([segment] + path)[1..] == path;
      assert prefix + ("[" + segment + "]" + Suffix(path)) == prefix + "[" + segment + "]" + Suffix(path);
    }
  }

  lemma RenderedAppend(prefix: string, a: seq<Field>, b: seq<Field>)
    ensures Rendered(prefix, a + b) == Rendered(prefix, a) + Rendered(prefix, b)
  {
  }

  /** The printer writes exactly the leaves, each under the rendering of its path. */
  lemma {:induction false} FlatIsRendered(prefix: string, node: Node)
    ensures Flat(prefix, node) == Rendered(prefix, Fields(node))
    decreases node, 0
  {
    match node
    case Null =>
    case Bool(b) =>
      assert prefix + "" == prefix;
    case Text(s) =>
      assert prefix + "" == prefix;
    case List(items) => FlatItemsIsRendered(prefix, items, 0);
    case Dict(entries) => FlatEntriesIsRendered(prefix, entries);
  }

  lemma {:induction false} FlatItemsIsRendered(prefix: string, items: seq<Node>, from: nat)
    ensures FlatItems(prefix, items, from) == Rendered(prefix, ItemFields(items, from))
    decreases items, 1
  {
    if items != [] {
      FlatIsRendered(Bracketed(prefix, Str(from)), items[0]);
      RenderedBelow(prefix, Str(from), Fields(items[0]));
      FlatItemsIsRendered(prefix, items[1..], from + 1);
      RenderedAppend(prefix, Below(Str(from), Fields(items[0])), ItemFields(items[1..], from + 1));
    }
  }

  lemma {:induction false} FlatEntriesIsRendered(prefix: string, entries: seq<Entry>)
    ensures FlatEntries(prefix, entries) == Rendered(prefix, EntryFields(entries))
    decreases entries, 1
  {
    if entries != [] {
      FlatIsRendered(Bracketed(prefix, entries[0].key), entries[0].value);
      RenderedBelow(prefix, entries[0].key, Fields(entries[0].value));
      FlatEntriesIsRendered(prefix, entries[1..]);
      RenderedAppend(prefix, Below(entries[0].key, Fields(entries[0].value)), EntryFields(entries[1..]));
    }
  }

  /** At the top level the first path segment stands unbracketed. */
  function KeyOf(path: seq<string>): string {
    if path == [] then "" else path[0] + Suffix(path[1..])
  }

  lemma {:induction false} ParamsAreRendered(params: seq<Entry>)
    ensures |FlatParams(params)| == |EntryFields(params)|
    ensures forall i | 0 <= i < |EntryFields(params)| ::
              FlatParams(params)[i] == (KeyOf(EntryFields(params)[i].path), EntryFields(params)[i].text)
  {
    if params != [] {
      FlatIsRendered(params[0].key, params[0].value);
      ParamsAreRendered(params[1..]);
      var fields := Fields(params[0].value);
      forall i | 0 <= i < |fields|
        ensures KeyOf([params[0].key] + fields[i].path) == params[0].key + Suffix(fields[i].path)
      {
        assert ([params[0].key] + fields[i].path)[1..] == fields[i].path;
      }
    }
  }

  // ------------------------------------------------------------- reading a key

  predicate BracketFree(s: string) {
    '[' !in s && ']' !in s
  }

  function Find(s: string, c: char): (i: nat)
    ensures i <= |s| && c !in s[..i]
    ensures i < |s| ==> s[i] == c
  {
    if s == "" || s[0] == c then 0
    else
      var i := Find(s[1..], c);
      assert s[..i + 1] == [s[0]] + s[1..][..i];
      i + 1
  }

  lemma {:induction false} FindAfter(a: string, c: char, b: string)
    requires c !in a
    ensures Find(a + [c] + b, c) == |a|
  {
    var s := a + [c] + b;
    if a == "" {
      assert s[0] == c;
    } else {
      assert s[0] == a[0] && a[0] in a;
      assert s[1..] == a[1..] + [c] + b;
      FindAfter(a[1..], c, b);
    }
  }

  lemma {:induction false} FindAbsent(s: string, c: char)
    requires c !in s
    ensures Find(s, c) == |s|
  {
    if s != "" {
      assert s[0] in s;
      FindAbsent(s[1..], c);
    }
  }

  function SplitSuffix(s: string): seq<string> {
    if s == "" || s[0] != '[' then []
    else
      var end := Find(s[1..], ']');
      [s[1..][..end]] + (if end < |s[1..]| then SplitSuffix(s[1..][end + 1..]) else [])
  }

  function SplitKey(key: string): seq<string> {
    var i := Find(key, '[');
    [key[..i]] + SplitSuffix(key[i..])
  }

  ghost predicate CleanPath(path: seq<string>) {
    forall i | 0 <= i < |path| :: BracketFree(path[i])
  }

  lemma {:induction false} SplitSuffixInverts(path: seq<string>)
    requires CleanPath(path)
    ensures SplitSuffix(Suffix(path)) == path
  {
    if path != [] {
      var head, rest := path[0], Suffix(path[1..]);
      SplitSuffixInverts(path[1..]);
      var s := Suffix(path);
      assert s[1..] == head + "]" + rest;
      FindAfter(head, ']', rest);
      assert s[1..][..|head|] == head;
      assert s[1..][|head| + 1..] == rest;
    }
  }

  /** A rendered key determines the path it was rendered from. */
  lemma SplitKeyInverts(path: seq<string>)
    requires path != [] && CleanPath(path)
    ensures SplitKey(KeyOf(path)) == path
  {
    var head, tail := path[0], path[1..];
    SplitSuffixInverts(tail);
    SplitAtTop(head, Suffix(tail));
  }

  lemma SplitAtTop(head: string, suffix: string)
    requires BracketFree(head) && (suffix == "" || suffix[0] == '[')
    ensures SplitKey(head + suffix) == [head] + SplitSuffix(suffix)
  {
    var key := head + suffix;
    if suffix == "" {
      FindAbsent(head, '[');
      assert key == head;
    } else {
      assert key == head + ['['] + suffix[1..];
      FindAfter(head, '[', suffix[1..]);
    }
    assert key[..|head|] == head && key[|head|..] == suffix;
  }
}
