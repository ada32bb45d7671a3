/**
 Which inbound messages have already been drafted for: a set for lookup, a list for
 first-in-first-out eviction, both capped.
 */
module DedupeStore {

  const CAP: nat := 1024

  datatype Key = Key(org: string, message: string)

  /** The newest `CAP` entries of a history. */
  function Newest(history: seq<Key>): seq<Key> {
    if |history| <= CAP then history else history[|history| - CAP..]
  }

  ghost predicate Distinct(s: seq<Key>) {
    forall i, j | 0 <= i < j < |s| :: s[i] != s[j]
  }

  lemma NewestOfAppend(history: seq<Key>, key: Key)
    ensures Newest(history + [key]) ==
            if |Newest(history)| == CAP then Newest(history)[1..] + [key] else Newest(history) + [key]
  {
  }

  class DraftedMessages {
    var seen: set<Key>
    var order: seq<Key>

    /** Every key ever accepted, oldest first. */
    ghost var accepted: seq<Key>

    ghost predicate Valid()
      reads this
    {
      && order == Newest(accepted)
      && Distinct(order)
      && (forall k :: k in seen <==> k in order)
    }

    constructor ()
      ensures Valid() && accepted == []
    {
      seen, order, accepted := {}, [], [];
    }

    /** True on the first delivery of a key within memory, false on a duplicate. */
    method MarkDrafted(org: string, message: string) returns (first: bool)
      requires Valid()
      modifies this
      ensures Valid() && |order| <= 1024
      ensures first <==> Key(org, message) !in Newest(old(accepted))
      ensures accepted == if first then old(accepted) + [Key(org, message)] else old(accepted)
    {
      var key := Key(org, message);
      if key in seen {
        return false;
      }
      NewestOfAppend(accepted, key);
      seen := seen + {key};
      order := order + [key];
      ghost var full := order;
      while |order| > CAP
        invariant order == full || (|full| > CAP && order == full[1..])
        invariant Distinct(order) && forall k :: k in seen <==> k in order
        invariant accepted == old(accepted)
      {
        var oldest := order[0];
        order := order[1..];
        seen := seen - {oldest};
      }
      accepted := accepted + [key];
      first := true;
    }
  }

  // ------------------------------------------------------------ whole histories

  /** The keys accepted out of a run of deliveries. */
  function Accepted(deliveries: seq<Key>): seq<Key> {
    if deliveries == [] then []
    else
      var n := |deliveries| - 1;
      var before := Accepted(deliveries[..n]);
      if deliveries[n] in Newest(before) then before else before + [deliveries[n]]
  }

  /** One more delivery is accepted exactly when its key is not among the newest accepted ones. */
  lemma AcceptedSnoc(deliveries: seq<Key>, key: Key)
    ensures var before := Accepted(deliveries);
            Accepted(deliveries + [key]) == if key in Newest(before) then before else before + [key]
    ensures Accepted([]) == []
  {
    assert (deliveries + [key])[..|deliveries|] == deliveries;
  }

  lemma NewestHas(history: seq<Key>, i: nat)
    requires |history| - CAP <= i < |history|
    ensures history[i] in Newest(history)
  {
    var start := if |history| <= CAP then 0 else |history| - CAP;
    assert Newest(history)[i - start] == history[i];
  }

  /** Two acceptances of the same key are more than 1024 acceptances apart. */
  lemma {:induction false} RepeatsAreFarApart(deliveries: seq<Key>, i: nat, j: nat)
    requires i < j < |Accepted(deliveries)| && Accepted(deliveries)[i] == Accepted(deliveries)[j]
    ensures j - i > 1024
  {
    var n := |deliveries| - 1;
    var before := Accepted(deliveries[..n]);
    if j < |before| {
      RepeatsAreFarApart(deliveries[..n], i, j);
    } else if i >= |before| - CAP {
      NewestHas(before, i);
      assert false;
    }
  }

  /** A retry of a message is dropped as long as fewer than 1024 other messages were accepted since. */
  lemma RetriesAreDropped(before: seq<Key>, key: Key, since: seq<Key>)
    requires |since| < 1024
    ensures key in Newest(before + [key] + since)
  {
    var all := before + [key] + since;
    assert all[|before|] == key;
    NewestHas(all, |before|);
  }
}
