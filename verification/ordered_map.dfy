/**
 * The registry's storage: a `BTreeMap<HandlerKey, V>`, represented as an
 * association list kept in strictly ascending key order. `ToMap` is the
 * abstraction to a Dafny map that every operation is specified against.
 */
module OrderedMap {
  import opened Keys
  import opened Outcomes

  datatype Entry<V> = Entry(key: HandlerKey, value: V)

  /** The keys of `t`, in storage (and therefore iteration) order. */
  function KeysOf<V>(t: seq<Entry<V>>): (ks: seq<HandlerKey>)
    ensures |ks| == |t|
    ensures forall i :: 0 <= i < |t| ==> ks[i] == t[i].key
  {
    if t == [] then [] else [t[0].key] + KeysOf(t[1..])
  }

  /** The B-tree invariant: keys strictly ascending. */
  predicate Sorted<V>(t: seq<Entry<V>>)
  {
    Ascending(KeysOf(t))
  }

  /** The set of keys stored in `t`. */
  function KeySet<V>(t: seq<Entry<V>>): set<HandlerKey>
  {
    set k | k in KeysOf(t)
  }

  /** The map that `t` represents. */
  function ToMap<V>(t: seq<Entry<V>>): map<HandlerKey, V>
  {
    if t == [] then map[] else ToMap(t[1..])[t[0].key := t[0].value]
  }

  lemma KeySetCons<V>(t: seq<Entry<V>>)
    requires t != []
    ensures KeySet(t) == {t[0].key} + KeySet(t[1..])
  {
    assert KeysOf(t) == [t[0].key] + KeysOf(t[1..]);
  }

  /** The represented map has exactly the stored keys. */
  lemma {:induction false} ToMapKeys<V>(t: seq<Entry<V>>)
    ensures ToMap(t).Keys == KeySet(t)
  {
    if t != [] {
      KeySetCons(t);
      ToMapKeys(t[1..]);
    }
  }

  /** Membership in `KeySet` is witnessed by a position. */
  lemma KeySetIndex<V>(t: seq<Entry<V>>, k: HandlerKey) returns (i: nat)
    requires k in KeySet(t)
    ensures i < |t| && t[i].key == k
  {
    var ks := KeysOf(t);
    i :| 0 <= i < |ks| && ks[i] == k;
  }

  /** In a sorted list the head key is below every key of the tail. */
  lemma HeadIsLeast<V>(t: seq<Entry<V>>)
    requires Sorted(t) && t != []
    ensures Sorted(t[1..])
    ensures forall k :: k in KeySet(t[1..]) ==> Less(t[0].key, k)
    ensures t[0].key !in KeySet(t[1..])
    ensures t[0].key !in ToMap(t[1..])
  {
    var ks := KeysOf(t);
    assert KeysOf(t[1..]) == ks[1..];
    forall k | k in KeySet(t[1..])
      ensures Less(t[0].key, k)
    {
      var i := KeySetIndex(t[1..], k);
      assert t[i + 1].key == k;
    }
    LessIsStrictTotalOrder(t[0].key, t[0].key, t[0].key);
    ToMapKeys(t[1..]);
  }

  /** A new head below every key of a sorted tail keeps the list sorted. */
  lemma SortedCons<V>(e: Entry<V>, t: seq<Entry<V>>)
    requires Sorted(t)
    requires forall k :: k in KeySet(t) ==> Less(e.key, k)
    ensures Sorted([e] + t)
  {
    assert KeysOf([e] + t) == [e.key] + KeysOf(t);
    forall i | 0 <= i < |t|
      ensures Less(e.key, KeysOf(t)[i])
    {
      assert KeysOf(t)[i] in KeysOf(t);
    }
    AscendingCons(e.key, KeysOf(t));
  }

  /** The map of a list with a new head is the tail's map updated at the head key. */
  lemma ToMapCons<V>(e: Entry<V>, t: seq<Entry<V>>)
    ensures ToMap([e] + t) == ToMap(t)[e.key := e.value]
  {
    assert ([e] + t)[1..] == t;
  }

  /** A sorted list holds exactly as many entries as the map it represents. */
  lemma {:induction false} SortedLength<V>(t: seq<Entry<V>>)
    requires Sorted(t)
    ensures |ToMap(t)| == |t|
  {
    if t != [] {
      HeadIsLeast(t);
      SortedLength(t[1..]);
    }
  }

  /**
   * `BTreeMap::insert`: store `v` under `k`, overwriting any previous value,
   * and hand back the value that was displaced (`None` when `k` was absent).
   */
  function Insert<V>(t: seq<Entry<V>>, k: HandlerKey, v: V): (seq<Entry<V>>, Option<V>)
  {
    if t == [] then ([Entry(k, v)], None)
    else if t[0].key == k then ([Entry(k, v)] + t[1..], Some(t[0].value))
    else if Less(k, t[0].key) then ([Entry(k, v)] + t, None)
    else
      var (rest, displaced) := Insert(t[1..], k, v);
      ([t[0]] + rest, displaced)
  }

  /** Inserting below every stored key prepends the new entry. */
  lemma InsertBelow<V>(t: seq<Entry<V>>, k: HandlerKey, v: V)
    requires Sorted(t) && t != [] && Less(k, t[0].key)
    ensures Sorted([Entry(k, v)] + t)
    ensures k !in ToMap(t)
  {
    HeadIsLeast(t);
    KeySetCons(t);
    forall k' | k' in KeySet(t)
      ensures Less(k, k')
    {
      LessIsStrictTotalOrder(k, t[0].key, k');
    }
    LessIsStrictTotalOrder(k, k, k);
    SortedCons(Entry(k, v), t);
    ToMapKeys(t);
  }

  /** Inserting at the head key replaces the head's value. */
  lemma InsertAtHead<V>(t: seq<Entry<V>>, v: V)
    requires Sorted(t) && t != []
    ensures Sorted([Entry(t[0].key, v)] + t[1..])
    ensures ToMap([Entry(t[0].key, v)] + t[1..]) == ToMap(t)[t[0].key := v]
  {
    HeadIsLeast(t);
    SortedCons(Entry(t[0].key, v), t[1..]);
    ToMapCons(Entry(t[0].key, v), t[1..]);
  }

  /** Inserting above the head key keeps the head in front of the updated tail. */
  lemma InsertAboveSorted<V>(t: seq<Entry<V>>, k: HandlerKey, v: V, rest: seq<Entry<V>>)
    requires Sorted(t) && t != [] && Less(t[0].key, k)
    requires Sorted(rest) && ToMap(rest) == ToMap(t[1..])[k := v]
    ensures Sorted([t[0]] + rest)
  {
    HeadIsLeast(t);
    ToMapKeys(rest);
    ToMapKeys(t[1..]);
    assert KeySet(rest) == KeySet(t[1..]) + {k};
    SortedCons(t[0], rest);
  }

  lemma InsertAboveMap<V>(t: seq<Entry<V>>, k: HandlerKey, v: V, rest: seq<Entry<V>>)
    requires t != [] && t[0].key != k
    requires ToMap(rest) == ToMap(t[1..])[k := v]
    ensures ToMap([t[0]] + rest) == ToMap(t)[k := v]
  {
    ToMapCons(t[0], rest);
  }

  /**
   * Insertion keeps the list sorted, updates the represented map at `k`, and
   * reports the displaced value exactly when `k` was present.
   */
  lemma {:induction false} InsertSpec<V>(t: seq<Entry<V>>, k: HandlerKey, v: V)
    requires Sorted(t)
    ensures Sorted(Insert(t, k, v).0)
    ensures ToMap(Insert(t, k, v).0) == ToMap(t)[k := v]
    ensures Insert(t, k, v).1 == if k in ToMap(t) then Some(ToMap(t)[k]) else None
  {
    if t == [] {
      assert KeysOf([Entry(k, v)]) == [k];
    } else if t[0].key == k {
      InsertAtHead(t, v);
    } else if Less(k, t[0].key) {
      InsertBelow(t, k, v);
      ToMapCons(Entry(k, v), t);
    } else {
      LessIsStrictTotalOrder(k, t[0].key, k);
      HeadIsLeast(t);
      InsertSpec(t[1..], k, v);
      InsertAboveSorted(t, k, v, Insert(t[1..], k, v).0);
      InsertAboveMap(t, k, v, Insert(t[1..], k, v).0);
    }
  }

  /** Insertion grows the list by one exactly when `k` was new. */
  lemma {:induction false} InsertLength<V>(t: seq<Entry<V>>, k: HandlerKey, v: V)
    requires Sorted(t)
    ensures |Insert(t, k, v).0| == if k in ToMap(t) then |t| else |t| + 1
  {
    InsertSpec(t, k, v);
    SortedLength(t);
    SortedLength(Insert(t, k, v).0);
  }

  /** `BTreeMap::remove`: drop the entry under `k`; an absent key is not an error. */
  function Remove<V>(t: seq<Entry<V>>, k: HandlerKey): seq<Entry<V>>
  {
    if t == [] then []
    else if t[0].key == k then t[1..]
    else [t[0]] + Remove(t[1..], k)
  }

  /** Removing a key behind the head keeps the head in front of the reduced tail. */
  lemma RemoveBehindHeadSorted<V>(t: seq<Entry<V>>, k: HandlerKey, rest: seq<Entry<V>>)
    requires Sorted(t) && t != []
    requires Sorted(rest) && ToMap(rest) == ToMap(t[1..]) - {k}
    ensures Sorted([t[0]] + rest)
  {
    HeadIsLeast(t);
    ToMapKeys(rest);
    ToMapKeys(t[1..]);
    SortedCons(t[0], rest);
  }

  lemma RemoveBehindHeadMap<V>(t: seq<Entry<V>>, k: HandlerKey, rest: seq<Entry<V>>)
    requires t != [] && t[0].key != k
    requires ToMap(rest) == ToMap(t[1..]) - {k}
    ensures ToMap([t[0]] + rest) == ToMap(t) - {k}
  {
    ToMapCons(t[0], rest);
  }

  /** Removal keeps the list sorted and deletes exactly `k` from the represented map. */
  lemma {:induction false} RemoveSpec<V>(t: seq<Entry<V>>, k: HandlerKey)
    requires Sorted(t)
    ensures Sorted(Remove(t, k))
    ensures ToMap(Remove(t, k)) == ToMap(t) - {k}
  {
    if t != [] {
      HeadIsLeast(t);
      if t[0].key != k {
        RemoveSpec(t[1..], k);
        RemoveBehindHeadSorted(t, k, Remove(t[1..], k));
        RemoveBehindHeadMap(t, k, Remove(t[1..], k));
      }
    }
  }

  /** Removal shrinks the list by one exactly when `k` was present. */
  lemma {:induction false} RemoveLength<V>(t: seq<Entry<V>>, k: HandlerKey)
    requires Sorted(t)
    ensures |Remove(t, k)| == if k in ToMap(t) then |t| - 1 else |t|
  {
    RemoveSpec(t, k);
    SortedLength(t);
    SortedLength(Remove(t, k));
  }
}
