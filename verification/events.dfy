/**
 * The public surface: `EventHandler` (the owner of a registry), `Handle`
 * (a key plus a weak link to a registry) and the sequential world in which
 * registries are allocated, used and dropped. A registry is `Live` while its
 * `EventHandler` holds the strong reference and `Dropped` once that is gone,
 * which is when `Weak::upgrade` starts to fail.
 */
module Events {
  import opened Outcomes
  import opened Keys
  import opened OrderedMap
  import opened Handlers
  import opened Dispatch

  /** The identity of one registry allocation. */
  type RegId = nat

  datatype Registry = Live(table: Table) | Dropped

  /** Every registry ever allocated; `next` is the identity the next allocation receives. */
  datatype World = World(registries: map<RegId, Registry>, next: RegId)

  /** The owner of a registry: the only strong reference to it. */
  datatype EventHandler = EventHandler(id: RegId)

  /** A registration: the key in the map and a non-owning link to the registry. */
  datatype Handle = Handle(key: HandlerKey, pointer: RegId)

  datatype EventInvocationError = EventDropped

  /** The error message of a registration whose key was already present. */
  const AlreadyRegistered: string := "The handler was already registered"

  /** Identities are below `next` and every live table is sorted. */
  predicate Valid(w: World)
  {
    && (forall id :: id in w.registries ==> id < w.next)
    && (forall id :: id in w.registries && w.registries[id].Live? ==> Sorted(w.registries[id].table))
  }

  /** Whether the registry `id` still has its strong owner. */
  predicate Alive(w: World, id: RegId)
  {
    id in w.registries && w.registries[id].Live?
  }

  /** The handlers of a live registry, as a map. */
  function Entries(w: World, id: RegId): map<HandlerKey, HandlerType>
    requires Alive(w, id)
  {
    ToMap(w.registries[id].table)
  }

  /** Replace the table of registry `id`. */
  function SetTable(w: World, id: RegId, t: Table): World
  {
    w.(registries := w.registries[id := Live(t)])
  }

  /** `EventHandler::new`: allocate a fresh, empty registry. */
  function New(w: World): (r: (World, EventHandler))
    requires Valid(w)
    ensures Valid(r.0)
    ensures r.1.id !in w.registries && Alive(r.0, r.1.id)
    ensures Entries(r.0, r.1.id) == map[]
    ensures forall id :: id in w.registries ==> id in r.0.registries && r.0.registries[id] == w.registries[id]
    ensures r.0.registries.Keys == w.registries.Keys + {r.1.id} && r.0.next == w.next + 1
  {
    (World(w.registries[w.next := Live([])], w.next + 1), EventHandler(w.next))
  }

  /**
   * The common core of `add_fn`, `add_fnonce` and `add_ptr`: insert under
   * `key`, overwriting whatever was there; succeed with a handle only when
   * nothing was displaced.
   */
  function Register(w: World, e: EventHandler, key: HandlerKey, h: HandlerType): (World, Result<Handle, string>)
    requires Alive(w, e.id)
  {
    var (t, displaced) := Insert(w.registries[e.id].table, key, h);
    var w' := SetTable(w, e.id, t);
    match displaced
    case None => (w', Ok(Handle(key, e.id)))
    case Some(_) => (w', Err(AlreadyRegistered))
  }

  /** `add_fn`: a reusable closure, keyed by the address of its box. */
  function AddFn(w: World, e: EventHandler, boxAddr: Usize, f: Closure): (World, Result<Handle, string>)
    requires Alive(w, e.id)
  {
    Register(w, e, PtrOfBox(boxAddr), BoxedFn(f))
  }

  /** `add_fnonce`: a one-shot closure in a filled slot, keyed by the address of its box. */
  function AddFnOnce(w: World, e: EventHandler, boxAddr: Usize, f: Closure): (World, Result<Handle, string>)
    requires Alive(w, e.id)
  {
    Register(w, e, PtrOfBox(boxAddr), BoxedFnOnce(Some(f)))
  }

  /**
   * `add_ptr`: a plain function. The key is built from `paramAddr`, the
   * address of `add_ptr`'s own parameter slot, not from the function.
   */
  function AddPtr(w: World, e: EventHandler, paramAddr: Usize, f: Closure): (World, Result<Handle, string>)
    requires Alive(w, e.id)
  {
    Register(w, e, FunctionPointer(paramAddr), Function(f))
  }

  /** `EventHandler::len`: the number of stored entries. */
  function Len(w: World, e: EventHandler): nat
    requires Alive(w, e.id)
  {
    |w.registries[e.id].table|
  }

  /** `EventHandler::invoke` (and the `Invoke` impl for it): broadcast `args`. */
  function InvokeEvent<A>(w: World, e: EventHandler, args: A): (World, seq<Call<A>>)
    requires Alive(w, e.id)
  {
    var (t, calls) := Invoke(w.registries[e.id].table, args);
    (SetTable(w, e.id, t), calls)
  }

  /** Dropping the `EventHandler`: its registry loses its strong owner. */
  function DropEvent(w: World, e: EventHandler): (r: World)
    requires Alive(w, e.id)
    ensures !Alive(r, e.id)
    ensures forall id :: id != e.id ==> Alive(r, id) == Alive(w, id)
    ensures r.registries.Keys == w.registries.Keys && r.next == w.next
    ensures forall id :: id in w.registries && id != e.id ==> r.registries[id] == w.registries[id]
  {
    w.(registries := w.registries[e.id := Dropped])
  }

  /** `Handle::is_valid`: whether the registry still has a strong owner. */
  function IsValid(w: World, h: Handle): bool
  {
    Alive(w, h.pointer)
  }

  /** `Handle::invoke`: a full broadcast through the registry, or `EventDropped`. */
  function InvokeHandle<A>(w: World, h: Handle, args: A): (World, Result<seq<Call<A>>, EventInvocationError>)
  {
    if Alive(w, h.pointer) then
      var (w', calls) := InvokeEvent(w, EventHandler(h.pointer), args);
      (w', Ok(calls))
    else
      (w, Err(EventDropped))
  }

  /** The `Invoke` impl for `Handle`: `Handle::invoke` with its error discarded. */
  function InvokeHandleQuietly<A>(w: World, h: Handle, args: A): (r: (World, seq<Call<A>>))
  {
    var (w', result) := InvokeHandle(w, h, args);
    (w', if result.Ok? then result.value else [])
  }

  /** Dropping a `Handle`: remove its key if the registry is still alive. */
  function DropHandle(w: World, h: Handle): World
  {
    if Alive(w, h.pointer) then SetTable(w, h.pointer, Remove(w.registries[h.pointer].table, h.key))
    else w
  }

  // ---------------------------------------------------------------------------
  // Registry size

  /** `len` counts distinct keys: the stored table never repeats one. */
  lemma LenCountsHandlers(w: World, e: EventHandler)
    requires Valid(w) && Alive(w, e.id)
    ensures Len(w, e) == |Entries(w, e.id)|
  {
    SortedLength(w.registries[e.id].table);
  }

  /** A freshly constructed registry is empty. */
  lemma NewIsEmpty(w: World)
    requires Valid(w)
    ensures Len(New(w).0, New(w).1) == 0
  {
  }

  // ---------------------------------------------------------------------------
  // Registration

  /** Registration touches only the registry it is made on and keeps the world valid. */
  lemma RegisterKeepsValid(w: World, e: EventHandler, key: HandlerKey, h: HandlerType)
    requires Valid(w) && Alive(w, e.id)
    ensures Valid(Register(w, e, key, h).0) && Alive(Register(w, e, key, h).0, e.id)
    ensures Register(w, e, key, h).0.registries.Keys == w.registries.Keys
    ensures forall id :: id in w.registries && id != e.id ==> Register(w, e, key, h).0.registries[id] == w.registries[id]
  {
    InsertSpec(w.registries[e.id].table, key, h);
  }

  /**
   * Registering an absent key succeeds with a handle that carries the key and
   * refers to this registry; the handler is stored and `len` grows by one.
   */
  lemma RegisterFresh(w: World, e: EventHandler, key: HandlerKey, h: HandlerType)
    requires Valid(w) && Alive(w, e.id)
    requires key !in Entries(w, e.id)
    ensures Register(w, e, key, h).1 == Ok(Handle(key, e.id))
    ensures Entries(Register(w, e, key, h).0, e.id) == Entries(w, e.id)[key := h]
    ensures Len(Register(w, e, key, h).0, e) == Len(w, e) + 1
  {
    InsertSpec(w.registries[e.id].table, key, h);
    InsertLength(w.registries[e.id].table, key, h);
  }

  /**
   * Registering a present key fails and leaves `len` unchanged, but the
   * insertion has already overwritten the stored handler with the new one.
   */
  lemma RegisterDuplicate(w: World, e: EventHandler, key: HandlerKey, h: HandlerType)
    requires Valid(w) && Alive(w, e.id)
    requires key in Entries(w, e.id)
    ensures Register(w, e, key, h).1 == Err(AlreadyRegistered)
    ensures Entries(Register(w, e, key, h).0, e.id) == Entries(w, e.id)[key := h]
    ensures Len(Register(w, e, key, h).0, e) == Len(w, e)
  {
    InsertSpec(w.registries[e.id].table, key, h);
    InsertLength(w.registries[e.id].table, key, h);
  }

  /** Registration outcome for `key` and handler `h`, by whether `key` was present. */
  lemma RegisterOutcome(w: World, e: EventHandler, key: HandlerKey, h: HandlerType)
    requires Valid(w) && Alive(w, e.id)
    ensures Register(w, e, key, h).1.Ok? <==> key !in Entries(w, e.id)
    ensures Register(w, e, key, h).1.Ok? ==> Register(w, e, key, h).1.value == Handle(key, e.id)
    ensures Entries(Register(w, e, key, h).0, e.id) == Entries(w, e.id)[key := h]
    ensures Len(Register(w, e, key, h).0, e) == Len(w, e) + (if key in Entries(w, e.id) then 0 else 1)
  {
    if key in Entries(w, e.id) {
      RegisterDuplicate(w, e, key, h);
    } else {
      RegisterFresh(w, e, key, h);
    }
  }

  /** `add_fn` stores a reusable handler under the box's key; it fails exactly on a taken key. */
  lemma AddFnSpec(w: World, e: EventHandler, boxAddr: Usize, f: Closure)
    requires Valid(w) && Alive(w, e.id)
    ensures AddFn(w, e, boxAddr, f).1.Ok? <==> PtrOfBox(boxAddr) !in Entries(w, e.id)
    ensures Entries(AddFn(w, e, boxAddr, f).0, e.id) == Entries(w, e.id)[PtrOfBox(boxAddr) := BoxedFn(f)]
  {
    RegisterOutcome(w, e, PtrOfBox(boxAddr), BoxedFn(f));
  }

  /** `add_fnonce` stores a filled one-shot slot under the box's key; it fails exactly on a taken key. */
  lemma AddFnOnceSpec(w: World, e: EventHandler, boxAddr: Usize, f: Closure)
    requires Valid(w) && Alive(w, e.id)
    ensures AddFnOnce(w, e, boxAddr, f).1.Ok? <==> PtrOfBox(boxAddr) !in Entries(w, e.id)
    ensures Entries(AddFnOnce(w, e, boxAddr, f).0, e.id) == Entries(w, e.id)[PtrOfBox(boxAddr) := BoxedFnOnce(Some(f))]
  {
    RegisterOutcome(w, e, PtrOfBox(boxAddr), BoxedFnOnce(Some(f)));
  }

  /**
   * `add_ptr` stores the function under a key built from its parameter
   * slot's address; it fails exactly when that key is taken.
   */
  lemma AddPtrSpec(w: World, e: EventHandler, paramAddr: Usize, f: Closure)
    requires Valid(w) && Alive(w, e.id)
    ensures AddPtr(w, e, paramAddr, f).1.Ok? <==> FunctionPointer(paramAddr) !in Entries(w, e.id)
    ensures Entries(AddPtr(w, e, paramAddr, f).0, e.id) == Entries(w, e.id)[FunctionPointer(paramAddr) := Function(f)]
  {
    RegisterOutcome(w, e, FunctionPointer(paramAddr), Function(f));
  }

  /** Two plain functions registered through the same parameter slot share a key. */
  lemma AddPtrSameSlotCollides(w: World, e: EventHandler, paramAddr: Usize, f: Closure, g: Closure)
    requires Valid(w) && Alive(w, e.id)
    requires FunctionPointer(paramAddr) !in Entries(w, e.id)
    ensures var (w1, r1) := AddPtr(w, e, paramAddr, f);
      && r1.Ok?
      && AddPtr(w1, e, paramAddr, g).1 == Err(AlreadyRegistered)
      && Len(AddPtr(w1, e, paramAddr, g).0, e) == Len(w, e) + 1
      && Entries(AddPtr(w1, e, paramAddr, g).0, e.id) == Entries(w, e.id)[FunctionPointer(paramAddr) := Function(g)]
  {
    var key := FunctionPointer(paramAddr);
    RegisterFresh(w, e, key, Function(f));
    RegisterKeepsValid(w, e, key, Function(f));
    var w1 := AddPtr(w, e, paramAddr, f).0;
    RegisterDuplicate(w1, e, key, Function(g));
  }

  // ---------------------------------------------------------------------------
  // Broadcast

  /** A broadcast keeps the world valid and touches only its own registry. */
  lemma InvokeEventKeepsValid<A>(w: World, e: EventHandler, args: A)
    requires Valid(w) && Alive(w, e.id)
    ensures Valid(InvokeEvent(w, e, args).0) && Alive(InvokeEvent(w, e, args).0, e.id)
    ensures InvokeEvent(w, e, args).0.registries.Keys == w.registries.Keys
    ensures forall id :: id in w.registries && id != e.id ==> InvokeEvent(w, e, args).0.registries[id] == w.registries[id]
  {
    InvokeSorted(w.registries[e.id].table, args);
  }

  /**
   * After a broadcast every one-shot present at its start is gone, every
   * other handler remains unchanged, and `len` drops by the number of one-shots.
   */
  lemma InvokeEventPrunesOneShots<A>(w: World, e: EventHandler, args: A)
    requires Valid(w) && Alive(w, e.id)
    ensures Entries(InvokeEvent(w, e, args).0, e.id) == Persistent(Entries(w, e.id))
    ensures Len(InvokeEvent(w, e, args).0, e) == Len(w, e) - |OneShotKeys(Entries(w, e.id))|
  {
    InvokeKeepsPersistent(w.registries[e.id].table, args);
    InvokeLength(w.registries[e.id].table, args);
  }

  /**
   * A broadcast calls every handler whose closure is present, and nothing
   * else, in ascending key order, each once, all with the same argument.
   */
  lemma InvokeEventCalls<A>(w: World, e: EventHandler, args: A)
    requires Valid(w) && Alive(w, e.id)
    ensures Ascending(CallKeys(InvokeEvent(w, e, args).1))
    ensures forall k :: k in CallKeys(InvokeEvent(w, e, args).1) <==> Fires(Entries(w, e.id), k)
    ensures forall c :: c in InvokeEvent(w, e, args).1 ==>
      c.arg == args && c.key in Entries(w, e.id) && Callee(Entries(w, e.id)[c.key]) == Some(c.callee)
  {
    InvokeCallsAscending(w.registries[e.id].table, args);
    InvokeCallsAllFiring(w.registries[e.id].table, args);
    InvokeCallsOnlyFiring(w.registries[e.id].table, args);
    InvokeCallsFaithful(w.registries[e.id].table, args);
  }

  // ---------------------------------------------------------------------------
  // Handles

  /**
   * `Handle::invoke` fails with `EventDropped` exactly when the registry has
   * lost its owner, and then changes nothing; otherwise it is the same full
   * broadcast as `EventHandler::invoke`, reaching every firing handler.
   */
  lemma InvokeHandleSpec<A>(w: World, h: Handle, args: A)
    requires Valid(w)
    ensures InvokeHandle(w, h, args).1.Err? <==> !IsValid(w, h)
    ensures !IsValid(w, h) ==> InvokeHandle(w, h, args) == (w, Err(EventDropped))
    ensures IsValid(w, h) ==>
      var (w', calls) := InvokeEvent(w, EventHandler(h.pointer), args);
      InvokeHandle(w, h, args) == (w', Ok(calls))
      && forall k :: Fires(Entries(w, h.pointer), k) ==> k in CallKeys(calls)
  {
    if IsValid(w, h) {
      InvokeEventCalls(w, EventHandler(h.pointer), args);
    }
  }

  /** The `Invoke` impl for `Handle` broadcasts like `Handle::invoke` and swallows `EventDropped`. */
  lemma InvokeHandleQuietlySpec<A>(w: World, h: Handle, args: A)
    requires Valid(w)
    ensures InvokeHandleQuietly(w, h, args).0 == InvokeHandle(w, h, args).0
    ensures !IsValid(w, h) ==> InvokeHandleQuietly(w, h, args) == (w, [])
    ensures IsValid(w, h) ==> InvokeHandleQuietly(w, h, args) == InvokeEvent(w, EventHandler(h.pointer), args)
  {
  }

  /**
   * Dropping a handle while its registry is alive removes exactly its key:
   * every other entry is unchanged, and an absent key leaves `len` as it was.
   */
  lemma DropHandleRemovesKey(w: World, h: Handle)
    requires Valid(w) && Alive(w, h.pointer)
    ensures Valid(DropHandle(w, h)) && Alive(DropHandle(w, h), h.pointer)
    ensures Entries(DropHandle(w, h), h.pointer) == Entries(w, h.pointer) - {h.key}
    ensures Len(DropHandle(w, h), EventHandler(h.pointer))
         == if h.key in Entries(w, h.pointer) then Len(w, EventHandler(h.pointer)) - 1 else Len(w, EventHandler(h.pointer))
    ensures forall id :: id in w.registries && id != h.pointer ==> DropHandle(w, h).registries[id] == w.registries[id]
    ensures DropHandle(w, h).registries.Keys == w.registries.Keys && DropHandle(w, h).next == w.next
  {
    RemoveSpec(w.registries[h.pointer].table, h.key);
    RemoveLength(w.registries[h.pointer].table, h.key);
  }

  /** Once the event is dropped, dropping a handle does nothing. */
  lemma DropHandleAfterEventGone(w: World, h: Handle)
    requires !IsValid(w, h)
    ensures DropHandle(w, h) == w
  {
  }

  /**
   * Dropping an owner keeps the world invariant: no identity is added or
   * lost, and every other registry keeps its state and its table.
   */
  lemma DropEventKeepsValid(w: World, e: EventHandler)
    requires Valid(w) && Alive(w, e.id)
    ensures Valid(DropEvent(w, e))
    ensures DropEvent(w, e).registries.Keys == w.registries.Keys
    ensures forall id :: id in w.registries && id != e.id ==> DropEvent(w, e).registries[id] == w.registries[id]
  {
  }

  /**
   * Dropping the `EventHandler` invalidates every handle into its registry:
   * `is_valid` turns false, `Handle::invoke` reports `EventDropped`, and
   * dropping the handle is a no-op.
   */
  lemma DropEventInvalidatesHandles<A>(w: World, e: EventHandler, h: Handle, args: A)
    requires Valid(w) && Alive(w, e.id) && h.pointer == e.id
    ensures IsValid(w, h)
    ensures !IsValid(DropEvent(w, e), h)
    ensures InvokeHandle(DropEvent(w, e), h, args).1 == Err(EventDropped)
    ensures DropHandle(DropEvent(w, e), h) == DropEvent(w, e)
  {
  }

  /**
   * `is_valid` answers "is the event alive", not "is my entry registered": a
   * one-shot handle stays valid after its handler fired and was removed.
   */
  lemma OneShotHandleOutlivesItsEntry<A>(w: World, e: EventHandler, boxAddr: Usize, f: Closure, args: A)
    requires Valid(w) && Alive(w, e.id)
    requires PtrOfBox(boxAddr) !in Entries(w, e.id)
    ensures var (w1, r) := AddFnOnce(w, e, boxAddr, f);
      && r == Ok(Handle(PtrOfBox(boxAddr), e.id))
      && var (w2, calls) := InvokeEvent(w1, e, args);
      && Call(PtrOfBox(boxAddr), f, args) in calls
      && PtrOfBox(boxAddr) !in Entries(w2, e.id)
      && IsValid(w2, r.value)
  {
    var key := PtrOfBox(boxAddr);
    RegisterFresh(w, e, key, BoxedFnOnce(Some(f)));
    RegisterKeepsValid(w, e, key, BoxedFnOnce(Some(f)));
    var w1 := AddFnOnce(w, e, boxAddr, f).0;
    InvokeEventCalls(w1, e, args);
    InvokeEventPrunesOneShots(w1, e, args);
    var calls := InvokeEvent(w1, e, args).1;
    assert key in CallKeys(calls);
    var j :| 0 <= j < |calls| && CallKeys(calls)[j] == key;
    assert calls[j] in calls;
  }

  /**
   * A stale one-shot handle revokes a later registration. Once the one-shot
   * has fired, its key is free, so a new `add_fn` whose box reuses the
   * address succeeds. The old handle still reports valid and carries the
   * same key, so dropping it removes the new registration.
   */
  lemma StaleOneShotHandleRevokesReuse<A>(w: World, e: EventHandler, boxAddr: Usize, f: Closure, g: Closure, args: A)
    requires Valid(w) && Alive(w, e.id)
    requires PtrOfBox(boxAddr) !in Entries(w, e.id)
    ensures var (w1, r1) := AddFnOnce(w, e, boxAddr, f);
      var w2 := InvokeEvent(w1, e, args).0;
      var (w3, r2) := AddFn(w2, e, boxAddr, g);
      && r1.Ok? && r2.Ok?
      && IsValid(w3, r1.value)
      && r1.value == r2.value
      && PtrOfBox(boxAddr) in Entries(w3, e.id) && Entries(w3, e.id)[PtrOfBox(boxAddr)] == BoxedFn(g)
      && PtrOfBox(boxAddr) !in Entries(DropHandle(w3, r1.value), e.id)
  {
    var key := PtrOfBox(boxAddr);
    OneShotHandleOutlivesItsEntry(w, e, boxAddr, f, args);
    RegisterKeepsValid(w, e, key, BoxedFnOnce(Some(f)));
    var w1 := AddFnOnce(w, e, boxAddr, f).0;
    InvokeEventKeepsValid(w1, e, args);
    var w2 := InvokeEvent(w1, e, args).0;
    RegisterFresh(w2, e, key, BoxedFn(g));
    RegisterKeepsValid(w2, e, key, BoxedFn(g));
    var (w3, r2) := AddFn(w2, e, boxAddr, g);
    DropHandleRemovesKey(w3, r2.value);
  }

  // ---------------------------------------------------------------------------
  // Sequences of registrations

  /** One registration call, with the key address the source would derive. */
  datatype Registration =
    | AddFnCall(boxAddr: Usize, f: Closure)
    | AddFnOnceCall(boxAddr: Usize, f: Closure)
    | AddPtrCall(paramAddr: Usize, f: Closure)

  function Apply(w: World, e: EventHandler, op: Registration): (World, Result<Handle, string>)
    requires Alive(w, e.id)
  {
    match op
    case AddFnCall(a, f) => AddFn(w, e, a, f)
    case AddFnOnceCall(a, f) => AddFnOnce(w, e, a, f)
    case AddPtrCall(a, f) => AddPtr(w, e, a, f)
  }

  /** Perform the registrations in order, collecting their results. */
  function RegisterAll(w: World, e: EventHandler, ops: seq<Registration>): (r: (World, seq<Result<Handle, string>>))
    requires Alive(w, e.id)
    ensures Alive(r.0, e.id) && |r.1| == |ops|
    decreases |ops|
  {
    if ops == [] then (w, [])
    else
      var (w1, r) := Apply(w, e, ops[0]);
      var (w2, rs) := RegisterAll(w1, e, ops[1..]);
      (w2, [r] + rs)
  }

  /** The number of successful registrations in a result list. */
  function Successes(rs: seq<Result<Handle, string>>): nat
  {
    if rs == [] then 0 else (if rs[0].Ok? then 1 else 0) + Successes(rs[1..])
  }

  /** One registration grows `len` by one exactly when it succeeds. */
  lemma ApplyCounts(w: World, e: EventHandler, op: Registration)
    requires Valid(w) && Alive(w, e.id)
    ensures Valid(Apply(w, e, op).0)
    ensures Len(Apply(w, e, op).0, e) == Len(w, e) + (if Apply(w, e, op).1.Ok? then 1 else 0)
  {
    var (key, h) := match op
      case AddFnCall(a, f) => (PtrOfBox(a), BoxedFn(f))
      case AddFnOnceCall(a, f) => (PtrOfBox(a), BoxedFnOnce(Some(f)))
      case AddPtrCall(a, f) => (FunctionPointer(a), Function(f));
    assert Apply(w, e, op) == Register(w, e, key, h);
    RegisterKeepsValid(w, e, key, h);
    if key in Entries(w, e.id) {
      RegisterDuplicate(w, e, key, h);
    } else {
      RegisterFresh(w, e, key, h);
    }
  }

  /**
   * Without removals in between, `len` grows by exactly the number of
   * registrations that succeeded.
   */
  lemma {:induction false} RegisterAllCountsSuccesses(w: World, e: EventHandler, ops: seq<Registration>)
    requires Valid(w) && Alive(w, e.id)
    ensures Valid(RegisterAll(w, e, ops).0)
    ensures Len(RegisterAll(w, e, ops).0, e) == Len(w, e) + Successes(RegisterAll(w, e, ops).1)
    decreases |ops|
  {
    if ops != [] {
      var (w1, r) := Apply(w, e, ops[0]);
      ApplyCounts(w, e, ops[0]);
      RegisterAllCountsSuccesses(w1, e, ops[1..]);
      var rs := RegisterAll(w1, e, ops[1..]).1;
      assert ([r] + rs)[1..] == rs;
    }
  }
}
