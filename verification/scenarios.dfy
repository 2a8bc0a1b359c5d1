/**
 * The repository's own test scenarios: the unit tests of `src/lib.rs` and the
 * integration test `tests/invoke_handler_fn.rs`, each started from an
 * arbitrary valid world. Every lemma names the Rust test it mirrors; the
 * remaining unit test, `new_handler_has_no_registrations`, is
 * `Events.NewIsEmpty`.
 */
module Scenarios {
  import opened Outcomes
  import opened Keys
  import opened OrderedMap
  import opened Handlers
  import opened Dispatch
  import opened Events

  /** Pass one over a reusable entry calls it and keeps it. */
  lemma CallPassReusable<A>(e: Entry<HandlerType>, rest: Table, args: A)
    requires !e.value.BoxedFnOnce?
    ensures var after := CallPass(rest, args);
      CallPass([e] + rest, args)
      == FirstPass([e] + after.entries, [Call(e.key, e.value.f, args)] + after.calls, after.unregister)
  {
    assert ([e] + rest)[1..] == rest;
  }

  /** A broadcast over a single reusable entry calls it once and keeps it. */
  lemma InvokeReusableSingle<A>(e: Entry<HandlerType>, args: A)
    requires !e.value.BoxedFnOnce?
    ensures Invoke([e], args) == ([e], [Call(e.key, e.value.f, args)])
  {
    assert CallPass([], args) == FirstPass([], [], []);
    CallPassReusable(e, [], args);
    assert [e] + [] == [e];
    assert CallPass([e], args) == FirstPass([e], [Call(e.key, e.value.f, args)], []);
  }

  /** A broadcast over two reusable entries calls both, in table order, and keeps both. */
  lemma InvokeReusablePair<A>(e1: Entry<HandlerType>, e2: Entry<HandlerType>, args: A)
    requires !e1.value.BoxedFnOnce? && !e2.value.BoxedFnOnce?
    ensures Invoke([e1, e2], args)
         == ([e1, e2], [Call(e1.key, e1.value.f, args), Call(e2.key, e2.value.f, args)])
  {
    var c1, c2 := Call(e1.key, e1.value.f, args), Call(e2.key, e2.value.f, args);
    InvokeReusableSingle(e2, args);
    assert CallPass([e2], args) == FirstPass([e2], [c2], []);
    CallPassReusable(e1, [e2], args);
    assert [e1] + [e2] == [e1, e2] && [c1] + [c2] == [c1, c2];
    assert CallPass([e1, e2], args) == FirstPass([e1, e2], [c1, c2], []);
  }

  /** `can_add_fn`: one closure counts once, and a broadcast calls it and keeps it. */
  lemma CanAddFn<A>(w: World, boxAddr: Usize, f: Closure, args: A)
    requires Valid(w)
    ensures var (w0, e) := New(w);
      var (w1, r) := AddFn(w0, e, boxAddr, f);
      && r.Ok?
      && Len(w1, e) == 1
      && InvokeEvent(w1, e, args).1 == [Call(PtrOfBox(boxAddr), f, args)]
      && Len(InvokeEvent(w1, e, args).0, e) == 1
  {
    var (w0, e) := New(w);
    var en := Entry(PtrOfBox(boxAddr), BoxedFn(f));
    assert Insert(w0.registries[e.id].table, en.key, en.value) == ([en], None);
    InvokeReusableSingle(en, args);
  }

  /** `can_add_fnonce`: a one-shot registration counts once, and a broadcast consumes it. */
  lemma CanAddFnOnce<A>(w: World, boxAddr: Usize, f: Closure, args: A)
    requires Valid(w)
    ensures var (w0, e) := New(w);
      var (w1, r) := AddFnOnce(w0, e, boxAddr, f);
      && r.Ok?
      && Len(w1, e) == 1
      && Len(InvokeEvent(w1, e, args).0, e) == 0
  {
    var (w0, e) := New(w);
    var key := PtrOfBox(boxAddr);
    RegisterFresh(w0, e, key, BoxedFnOnce(Some(f)));
    RegisterKeepsValid(w0, e, key, BoxedFnOnce(Some(f)));
    var w1 := AddFnOnce(w0, e, boxAddr, f).0;
    InvokeEventPrunesOneShots(w1, e, args);
    assert OneShotKeys(Entries(w1, e.id)) == {key};
  }

  /** `can_add_function_pointer`: one function counts once, and a broadcast calls it and keeps it. */
  lemma CanAddFunctionPointer<A>(w: World, paramAddr: Usize, f: Closure, args: A)
    requires Valid(w)
    ensures var (w0, e) := New(w);
      var (w1, r) := AddPtr(w0, e, paramAddr, f);
      && r.Ok?
      && Len(w1, e) == 1
      && InvokeEvent(w1, e, args).1 == [Call(FunctionPointer(paramAddr), f, args)]
      && Len(InvokeEvent(w1, e, args).0, e) == 1
  {
    var (w0, e) := New(w);
    var en := Entry(FunctionPointer(paramAddr), Function(f));
    assert Insert(w0.registries[e.id].table, en.key, en.value) == ([en], None);
    InvokeReusableSingle(en, args);
  }

  /** `cannot_register_same_function_twice`: the second `add_ptr` through the same slot fails. */
  lemma {:induction false} CannotRegisterSameFunctionTwice(w: World, paramAddr: Usize, f: Closure)
    requires Valid(w)
    ensures var (w0, e) := New(w);
      var (w1, r1) := AddPtr(w0, e, paramAddr, f);
      r1.Ok? && AddPtr(w1, e, paramAddr, f).1.Err?
  {
    var (w0, e) := New(w);
    AddPtrSameSlotCollides(w0, e, paramAddr, f, f);
  }

  /** `can_remove_handlers`: dropping the only handle empties the registry. */
  lemma {:induction false} CanRemoveHandlers(w: World, boxAddr: Usize, f: Closure)
    requires Valid(w)
    ensures var (w0, e) := New(w);
      var (w1, r) := AddFn(w0, e, boxAddr, f);
      && r.Ok?
      && Len(w1, e) == 1
      && Len(DropHandle(w1, r.value), e) == 0
  {
    var (w0, e) := New(w);
    var key := PtrOfBox(boxAddr);
    RegisterFresh(w0, e, key, BoxedFn(f));
    RegisterKeepsValid(w0, e, key, BoxedFn(f));
    var (w1, r) := AddFn(w0, e, boxAddr, f);
    DropHandleRemovesKey(w1, r.value);
  }

  /**
   * `it_works`: two reusable closures in distinct boxes are both counted, and
   * both receive the argument whether the event is invoked directly or
   * through one of the handles. The calls follow the order of the box
   * addresses, whichever box was allocated lower.
   */
  lemma ItWorks(w: World, a1: Usize, a2: Usize, f1: Closure, f2: Closure)
    requires Valid(w) && a1 != a2
    ensures var (w0, e) := New(w);
      var (w1, r1) := AddFn(w0, e, a1, f1);
      var (w2, r2) := AddFn(w1, e, a2, f2);
      && r1.Ok? && r2.Ok?
      && Len(w2, e) == 2
      && InvokeEvent(w2, e, 42).1
         == (if a1 < a2 then [Call(PtrOfBox(a1), f1, 42), Call(PtrOfBox(a2), f2, 42)]
             else [Call(PtrOfBox(a2), f2, 42), Call(PtrOfBox(a1), f1, 42)])
      && InvokeHandle(InvokeEvent(w2, e, 42).0, r1.value, 41).1
         == Ok(if a1 < a2 then [Call(PtrOfBox(a1), f1, 41), Call(PtrOfBox(a2), f2, 41)]
               else [Call(PtrOfBox(a2), f2, 41), Call(PtrOfBox(a1), f1, 41)])
  {
    var (w0, e) := New(w);
    var k1, k2 := PtrOfBox(a1), PtrOfBox(a2);
    var e1, e2 := Entry(k1, BoxedFn(f1)), Entry(k2, BoxedFn(f2));
    assert Insert([], k1, BoxedFn(f1)) == ([e1], None);
    assert [e1][0] == e1 && [e1][1..] == [];
    var t := if a1 < a2 then [e1, e2] else [e2, e1];
    if a1 < a2 {
      assert Insert([e1], k2, BoxedFn(f2)) == ([e1] + [e2], None);
      assert [e1] + [e2] == t;
      InvokeReusablePair(e1, e2, 42);
      InvokeReusablePair(e1, e2, 41);
    } else {
      assert Less(k2, k1);
      assert Insert([e1], k2, BoxedFn(f2)) == ([e2] + [e1], None);
      assert [e2] + [e1] == t;
      InvokeReusablePair(e2, e1, 42);
      InvokeReusablePair(e2, e1, 41);
    }
    var (w2, r2) := AddFn(AddFn(w0, e, a1, f1).0, e, a2, f2);
    assert w2.registries[e.id].table == t;
    assert InvokeEvent(w2, e, 42).0.registries[e.id].table == t;
  }
}
