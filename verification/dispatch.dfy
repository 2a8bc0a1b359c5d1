/**
 * `MapLocked::invoke`: the two-pass broadcast. Pass one walks the entries in
 * key order, calls every handler with the same argument and empties the slot
 * of every one-shot, collecting its key; pass two removes the collected keys.
 */
module Dispatch {
  import opened Outcomes
  import opened Keys
  import opened OrderedMap
  import opened Handlers

  type Table = seq<Entry<HandlerType>>

  /** One call of a handler during a broadcast: the call log's unit. */
  datatype Call<A> = Call(key: HandlerKey, callee: Closure, arg: A)

  /** The outcome of pass one. */
  datatype FirstPass<A> = FirstPass(entries: Table, calls: seq<Call<A>>, unregister: seq<HandlerKey>)

  /** The keys of a call log, in call order. */
  function CallKeys<A>(calls: seq<Call<A>>): (ks: seq<HandlerKey>)
    ensures |ks| == |calls|
    ensures forall j :: 0 <= j < |calls| ==> ks[j] == calls[j].key
  {
    if calls == [] then [] else [calls[0].key] + CallKeys(calls[1..])
  }

  lemma {:induction false} CallKeysAppend<A>(a: seq<Call<A>>, b: seq<Call<A>>)
    ensures CallKeys(a + b) == CallKeys(a) + CallKeys(b)
  {
  }

  /** Keys of the one-shot handlers of `m`. */
  function OneShotKeys(m: map<HandlerKey, HandlerType>): set<HandlerKey>
  {
    set k | k in m && m[k].BoxedFnOnce?
  }

  /** The handlers of `m` that outlive a broadcast: everything but the one-shots. */
  function Persistent(m: map<HandlerKey, HandlerType>): map<HandlerKey, HandlerType>
  {
    map k | k in m && !m[k].BoxedFnOnce? :: m[k]
  }

  /** Whether a broadcast over `m` calls the handler under `k`. */
  predicate Fires(m: map<HandlerKey, HandlerType>, k: HandlerKey)
  {
    k in m && Callee(m[k]).Some?
  }

  /** Pass one: visit the entries in order, calling each handler and emptying one-shot slots. */
  function CallPass<A>(t: Table, args: A): FirstPass<A>
  {
    if t == [] then FirstPass([], [], [])
    else
      var rest := CallPass(t[1..], args);
      var e := t[0];
      match e.value
      case Function(f) => FirstPass([e] + rest.entries, [Call(e.key, f, args)] + rest.calls, rest.unregister)
      case BoxedFn(f) => FirstPass([e] + rest.entries, [Call(e.key, f, args)] + rest.calls, rest.unregister)
      case BoxedFnOnce(slot) =>
        var fired := if slot.Some? then [Call(e.key, slot.value, args)] else [];
        FirstPass([Entry(e.key, BoxedFnOnce(None))] + rest.entries, fired + rest.calls, [e.key] + rest.unregister)
  }

  /** Pass two: remove the collected keys one after another. */
  function PrunePass(t: Table, ks: seq<HandlerKey>): Table
    decreases |ks|
  {
    if ks == [] then t else PrunePass(Remove(t, ks[0]), ks[1..])
  }

  /**
   * The whole broadcast: the table after both passes and the call log. The
   * write pass only runs when pass one collected a key.
   */
  function Invoke<A>(t: Table, args: A): (Table, seq<Call<A>>)
  {
    var first := CallPass(t, args);
    var remaining := if |first.unregister| == 0 then first.entries else PrunePass(first.entries, first.unregister);
    (remaining, first.calls)
  }

  // ---------------------------------------------------------------------------
  // Pass one

  /** Every call of pass one receives the broadcast argument. */
  lemma {:induction false} CallPassArgument<A>(t: Table, args: A)
    ensures forall j :: 0 <= j < |CallPass(t, args).calls| ==> CallPass(t, args).calls[j].arg == args
  {
    if t != [] {
      CallPassArgument(t[1..], args);
    }
  }

  /** Every call of pass one calls the closure stored under its key. */
  lemma {:induction false} CallPassSound<A>(t: Table, args: A)
    requires Sorted(t)
    ensures forall j :: 0 <= j < |CallPass(t, args).calls| ==>
      var c := CallPass(t, args).calls[j];
      c.key in ToMap(t) && Callee(ToMap(t)[c.key]) == Some(c.callee)
  {
    if t != [] {
      HeadIsLeast(t);
      CallPassSound(t[1..], args);
    }
  }

  /** Pass one calls every handler whose closure is still present. */
  lemma {:induction false} CallPassComplete<A>(t: Table, args: A)
    ensures forall k :: Fires(ToMap(t), k) ==> k in CallKeys(CallPass(t, args).calls)
  {
    if t != [] {
      CallPassComplete(t[1..], args);
      CallPassKeysCons(t, args);
      forall k | Fires(ToMap(t), k)
        ensures k in CallKeys(CallPass(t, args).calls)
      {
        if k != t[0].key {
          assert Fires(ToMap(t[1..]), k);
        }
      }
    }
  }

  /** The call keys of pass one: the head's key if it fires, then the tail's. */
  lemma CallPassKeysCons<A>(t: Table, args: A)
    requires t != []
    ensures CallKeys(CallPass(t, args).calls)
         == (if Callee(t[0].value).Some? then [t[0].key] else []) + CallKeys(CallPass(t[1..], args).calls)
  {
    var rest := CallPass(t[1..], args).calls;
    var pre := if Callee(t[0].value).Some? then [Call(t[0].key, Callee(t[0].value).value, args)] else [];
    assert CallPass(t, args).calls == pre + rest;
    CallKeysAppend(pre, rest);
  }

  /** Every key called by pass one is a stored key. */
  lemma CallPassKeysStored<A>(t: Table, args: A)
    requires Sorted(t)
    ensures forall j :: 0 <= j < |CallPass(t, args).calls| ==> CallKeys(CallPass(t, args).calls)[j] in KeySet(t)
  {
    CallPassSound(t, args);
    ToMapKeys(t);
  }

  /** Pass one calls handlers in strictly ascending key order, each at most once. */
  lemma {:induction false} CallPassAscending<A>(t: Table, args: A)
    requires Sorted(t)
    ensures Ascending(CallKeys(CallPass(t, args).calls))
  {
    if t != [] {
      HeadIsLeast(t);
      CallPassAscending(t[1..], args);
      CallPassKeysStored(t[1..], args);
      CallPassKeysCons(t, args);
      if Callee(t[0].value).Some? {
        AscendingCons(t[0].key, CallKeys(CallPass(t[1..], args).calls));
      }
    }
  }

  /** Pass one collects exactly the one-shot keys. */
  lemma {:induction false} CallPassUnregister<A>(t: Table, args: A)
    requires Sorted(t)
    ensures forall k :: k in CallPass(t, args).unregister <==> k in OneShotKeys(ToMap(t))
  {
    if t != [] {
      HeadIsLeast(t);
      CallPassUnregister(t[1..], args);
    }
  }

  /** Pass one keeps every entry in place and only empties one-shot slots. */
  lemma {:induction false} CallPassEntries<A>(t: Table, args: A)
    ensures |CallPass(t, args).entries| == |t|
    ensures forall i :: 0 <= i < |t| ==> CallPass(t, args).entries[i] == Entry(t[i].key, Disarm(t[i].value))
  {
    if t != [] {
      CallPassEntries(t[1..], args);
    }
  }

  /** A table disarmed entry by entry represents the disarmed map. */
  lemma {:induction false} DisarmedMap(t: Table, u: Table)
    requires |u| == |t|
    requires forall i :: 0 <= i < |t| ==> u[i] == Entry(t[i].key, Disarm(t[i].value))
    ensures ToMap(u).Keys == ToMap(t).Keys
    ensures forall k :: k in ToMap(t) ==> ToMap(u)[k] == Disarm(ToMap(t)[k])
  {
    if t != [] {
      DisarmedMap(t[1..], u[1..]);
    }
  }

  /** A table disarmed entry by entry keeps its key order. */
  lemma DisarmedSorted(t: Table, u: Table)
    requires Sorted(t)
    requires |u| == |t|
    requires forall i :: 0 <= i < |t| ==> u[i] == Entry(t[i].key, Disarm(t[i].value))
    ensures Sorted(u)
  {
    assert KeysOf(u) == KeysOf(t);
  }

  // ---------------------------------------------------------------------------
  // Pass two

  /** Pass two keeps the table sorted. */
  lemma {:induction false} PrunePassSorted(t: Table, ks: seq<HandlerKey>)
    requires Sorted(t)
    ensures Sorted(PrunePass(t, ks))
    decreases |ks|
  {
    if ks != [] {
      RemoveSpec(t, ks[0]);
      PrunePassSorted(Remove(t, ks[0]), ks[1..]);
    }
  }

  /** Pass two deletes exactly the collected keys from the represented map. */
  lemma {:induction false} PrunePassMap(t: Table, ks: seq<HandlerKey>)
    requires Sorted(t)
    ensures ToMap(PrunePass(t, ks)) == ToMap(t) - (set k | k in ks)
    decreases |ks|
  {
    if ks != [] {
      RemoveSpec(t, ks[0]);
      PrunePassMap(Remove(t, ks[0]), ks[1..]);
      assert (set k | k in ks) == {ks[0]} + (set k | k in ks[1..]);
    }
  }

  // ---------------------------------------------------------------------------
  // The whole broadcast

  /** After pass one the table represents the map with every one-shot slot emptied. */
  lemma FirstPassTable<A>(t: Table, args: A)
    requires Sorted(t)
    ensures Sorted(CallPass(t, args).entries)
    ensures ToMap(CallPass(t, args).entries).Keys == ToMap(t).Keys
    ensures forall k :: k in ToMap(t) ==> ToMap(CallPass(t, args).entries)[k] == Disarm(ToMap(t)[k])
  {
    CallPassEntries(t, args);
    DisarmedMap(t, CallPass(t, args).entries);
    DisarmedSorted(t, CallPass(t, args).entries);
  }

  /** Pass two removes exactly the one-shot keys, whether or not it runs. */
  lemma PrunedKeys<A>(t: Table, args: A)
    requires Sorted(t)
    ensures ToMap(Invoke(t, args).0) == ToMap(CallPass(t, args).entries) - OneShotKeys(ToMap(t))
  {
    var first := CallPass(t, args);
    FirstPassTable(t, args);
    CallPassUnregister(t, args);
    assert (set k | k in first.unregister) == OneShotKeys(ToMap(t));
    PrunePassMap(first.entries, first.unregister);
  }

  /** The broadcast leaves the table sorted. */
  lemma InvokeSorted<A>(t: Table, args: A)
    requires Sorted(t)
    ensures Sorted(Invoke(t, args).0)
  {
    FirstPassTable(t, args);
    PrunePassSorted(CallPass(t, args).entries, CallPass(t, args).unregister);
  }

  /**
   * After a broadcast exactly the reusable and function-pointer handlers
   * remain, unchanged; every one-shot present at the start is gone.
   */
  lemma InvokeKeepsPersistent<A>(t: Table, args: A)
    requires Sorted(t)
    ensures ToMap(Invoke(t, args).0) == Persistent(ToMap(t))
  {
    FirstPassTable(t, args);
    PrunedKeys(t, args);
  }

  /** A broadcast shrinks the registry by exactly the number of one-shots it held. */
  lemma InvokeLength<A>(t: Table, args: A)
    requires Sorted(t)
    ensures |Invoke(t, args).0| == |t| - |OneShotKeys(ToMap(t))|
  {
    var m := ToMap(t);
    InvokeSorted(t, args);
    InvokeKeepsPersistent(t, args);
    SortedLength(t);
    SortedLength(Invoke(t, args).0);
    assert Persistent(m).Keys == m.Keys - OneShotKeys(m);
    assert m.Keys == Persistent(m).Keys + OneShotKeys(m);
  }

  /** A broadcast calls handlers in strictly ascending key order, so each at most once. */
  lemma InvokeCallsAscending<A>(t: Table, args: A)
    requires Sorted(t)
    ensures Ascending(CallKeys(Invoke(t, args).1))
  {
    CallPassAscending(t, args);
  }

  /** A broadcast calls every handler whose closure is present. */
  lemma InvokeCallsAllFiring<A>(t: Table, args: A)
    ensures forall k :: Fires(ToMap(t), k) ==> k in CallKeys(Invoke(t, args).1)
  {
    CallPassComplete(t, args);
  }

  /** A broadcast calls only handlers whose closure is present. */
  lemma InvokeCallsOnlyFiring<A>(t: Table, args: A)
    requires Sorted(t)
    ensures forall k :: k in CallKeys(Invoke(t, args).1) ==> Fires(ToMap(t), k)
  {
    var calls := Invoke(t, args).1;
    CallPassSound(t, args);
    forall k | k in CallKeys(calls)
      ensures Fires(ToMap(t), k)
    {
      var j :| 0 <= j < |calls| && CallKeys(calls)[j] == k;
    }
  }

  /** Every call of a broadcast passes the broadcast argument to the closure stored under its key. */
  lemma InvokeCallsFaithful<A>(t: Table, args: A)
    requires Sorted(t)
    ensures forall c :: c in Invoke(t, args).1 ==>
      c.arg == args && c.key in ToMap(t) && Callee(ToMap(t)[c.key]) == Some(c.callee)
  {
    CallPassSound(t, args);
    CallPassArgument(t, args);
  }

  /**
   * A one-shot runs at most once: a broadcast that follows the one that found
   * it does not call it again, because it is no longer stored.
   */
  lemma OneShotRunsAtMostOnce<A>(t: Table, a: A, b: A, k: HandlerKey)
    requires Sorted(t)
    requires k in OneShotKeys(ToMap(t))
    ensures k !in ToMap(Invoke(t, a).0)
    ensures k !in CallKeys(Invoke(Invoke(t, a).0, b).1)
  {
    InvokeKeepsPersistent(t, a);
    InvokeSorted(t, a);
    InvokeCallsOnlyFiring(Invoke(t, a).0, b);
  }

  /** A one-shot whose slot is already empty is skipped, yet still removed. */
  lemma EmptySlotSkippedButRemoved<A>(t: Table, args: A, k: HandlerKey)
    requires Sorted(t)
    requires k in ToMap(t) && ToMap(t)[k] == BoxedFnOnce(None)
    ensures k !in CallKeys(Invoke(t, args).1)
    ensures k !in ToMap(Invoke(t, args).0)
  {
    InvokeKeepsPersistent(t, args);
    InvokeCallsOnlyFiring(t, args);
  }
}
