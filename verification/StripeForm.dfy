/**
 Stripe's form encoding: nested parameters become bracket-notation keys such as
 `line_items[0][price_data][currency]`.  Leaves are what `str` makes of them.
 */
module StripeForm {
  import opened Decimal

  datatype Node =
    | Null
    | Bool(b: bool)
    | Text(s: string)
    | List(items: seq<Node>)
    | Dict(entries: seq<Entry>)

  datatype Entry = Entry(key: string, value: Node)

  /** One form field before its key is rendered: the path of dict keys and list indices to a leaf. */
  datatype Field = Field(path: seq<string>, text: string)

  // ------------------------------------------------------------ the printer

  function Bracketed(prefix: string, segment: string): string {
    prefix + "[" + segment + "]"
  }

  function BoolText(b: bool): string {
    if b then "true" else "false"
  }

  /** The form fields `_flatten` writes for a value, in order. */
  function Flat(prefix: string, node: Node): seq<(string, string)>
    decreases node, 0
  {
    match node
    case Null => []
    case Bool(b) => [(prefix, BoolText(b))]
    case Text(s) => [(prefix, s)]
    case List(items) => FlatItems(prefix, items, 0)
    case Dict(entries) => FlatEntries(prefix, entries)
  }

  function FlatItems(prefix: string, items: seq<Node>, from: nat): seq<(string, string)>
    decreases items, 1
  {
    if items == [] then []
    else Flat(Bracketed(prefix, Str(from)), items[0]) + FlatItems(prefix, items[1..], from + 1)
  }

  function FlatEntries(prefix: string, entries: seq<Entry>): seq<(string, string)>
    decreases entries, 1
  {
    if entries == [] then []
    else Flat(Bracketed(prefix, entries[0].key), entries[0].value) + FlatEntries(prefix, entries[1..])
  }

  /** What a leaf prints as: nothing for None, the words for booleans, text as it is. */
  lemma LeavesPrintAs(prefix: string, b: bool, s: string)
    ensures Flat(prefix, Null) == []
    ensures Flat(prefix, Bool(b)) == [(prefix, if b then "true" else "false")]
    ensures Flat(prefix, Text(s)) == [(prefix, s)]
  {
  }

  /** The whole parameter dict: its keys are not bracketed. */
  function FlatParams(params: seq<Entry>): seq<(string, string)> {
    if params == [] then []
    else Flat(params[0].key, params[0].value) + FlatParams(params[1..])
  }

  /** A Python dict filled by successive assignments. */
  function PutAll(out: map<string, string>, fields: seq<(string, string)>): map<string, string>
    decreases |fields|
  {
    if fields == [] then out
    else PutAll(out[fields[0].0 := fields[0].1], fields[1..])
  }

  lemma {:induction false} PutAllAppend(out: map<string, string>, a: seq<(string, string)>, b: seq<(string, string)>)
    ensures PutAll(out, a + b) == PutAll(PutAll(out, a), b)
    decreases |a|
  {
    if a == [] {
      assert a + b == b;
    } else {
      assert (a + b)[1..] == a[1..] + b;
      PutAllAppend(out[a[0].0 := a[0].1], a[1..], b);
    }
  }

  lemma {:induction false} FlatEntriesSnoc(prefix: string, entries: seq<Entry>, i: nat)
    requires i < |entries|
    ensures FlatEntries(prefix, entries[..i + 1]) ==
            FlatEntries(prefix, entries[..i]) + Flat(Bracketed(prefix, entries[i].key), entries[i].value)
  {
    if i == 0 {
      assert entries[..1][1..] == [] && entries[..0] == [];
    } else {
      assert entries[..i + 1][1..] == entries[1..][..i];
      assert entries[..i][1..] == entries[1..][..i - 1];
      FlatEntriesSnoc(prefix, entries[1..], i - 1);
    }
  }

  lemma {:induction false} FlatItemsSnoc(prefix: string, items: seq<Node>, from: nat, i: nat)
    requires i < |items|
    ensures FlatItems(prefix, items[..i + 1], from) ==
            FlatItems(prefix, items[..i], from) + Flat(Bracketed(prefix, Str(from + i)), items[i])
  {
    if i == 0 {
      assert items[..1][1..] == [] && items[..0] == [];
    } else {
      assert items[..i + 1][1..] == items[1..][..i];
      assert items[..i][1..] == items[1..][..i - 1];
      FlatItemsSnoc(prefix, items[1..], from + 1, i - 1);
    }
  }

  class Form {
    var out: map<string, string>

    constructor ()
      ensures out == map[]
    {
      out := map[];
    }

    /** Writes every leaf below `value` into the shared dict. */
    method Flatten(prefix: string, value: Node)
      modifies this
      ensures out == PutAll(old(out), Flat(prefix, value))
      decreases value
    {
      match value
      case Dict(entries) =>
        assert entries[..0] == [];
        for i := 0 to |entries|
          invariant out == PutAll(old(out), FlatEntries(prefix, entries[..i]))
        {
          Flatten(Bracketed(prefix, entries[i].key), entries[i].value);
          FlatEntriesSnoc(prefix, entries, i);
          PutAllAppend(old(out), FlatEntries(prefix, entries[..i]),
                       Flat(Bracketed(prefix, entries[i].key), entries[i].value));
        }
        assert entries[..|entries|] == entries;
      case List(items) =>
        assert items[..0] == [];
        for i := 0 to |items|
          invariant out == PutAll(old(out), FlatItems(prefix, items[..i], 0))
        {
          Flatten(Bracketed(prefix, Str(i)), items[i]);
          FlatItemsSnoc(prefix, items, 0, i);
          PutAllAppend(old(out), FlatItems(prefix, items[..i], 0), Flat(Bracketed(prefix, Str(i)), items[i]));
        }
        assert items[..|items|] == items;
      case Bool(b) =>
        out := out[prefix := BoolText(b)];
      case Null =>
      case Text(s) =>
        out := out[prefix := s];
    }
  }

  /** The form a request body is built from, before URL quoting. */
  method EncodeForm(params: seq<Entry>) returns (fields: map<string, string>)
    ensures fields == PutAll(map[], FlatParams(params))
  {
    var form := new Form();
    var i := 0;
    assert params[..0] == [];
    while i < |params|
      invariant i <= |params| && form.out == PutAll(map[], FlatParams(params[..i]))
      modifies form
    {
      form.Flatten(params[i].key, params[i].value);
      FlatParamsSnoc(params, i);
      PutAllAppend(map[], FlatParams(params[..i]), Flat(params[i].key, params[i].value));
      i := i + 1;
    }
    assert params[..i] == params;
    fields := form.out;
  }

  lemma {:induction false} FlatParamsSnoc(params: seq<Entry>, i: nat)
    requires i < |params|
    ensures FlatParams(params[..i + 1]) == FlatParams(params[..i]) + Flat(params[i].key, params[i].value)
  {
    if i == 0 {
      assert params[..1][1..] == [];
      assert params[..0] == [];
    } else {
      assert params[..i + 1][1..] == params[1..][..i];
      assert params[..i][1..] == params[1..][..i - 1];
      FlatParamsSnoc(params[1..], i - 1);
    }
  }
}
