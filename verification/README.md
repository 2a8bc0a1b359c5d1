# events-rs registry, modelled in Dafny

This project models the event registry of `src/lib.rs` as a sequential state
machine. The registry is an `EventHandler` that owns a `BTreeMap` from handler
keys to handlers. A `Handle` holds one key and a weak link to the registry.
The model covers:

- **Keys** (`keys.dfy`). `HandlerKey` is `PtrOfBox(addr)` or
  `FunctionPointer(addr)`, with addresses as 64-bit `Usize` values. The derived
  order compares the variant first and the address second.
- **Storage** (`ordered_map.dfy`). The `BTreeMap` is a list of entries kept in
  strictly ascending key order. `ToMap` maps it to a Dafny map, and `Insert`
  and `Remove` are specified against that map. `Insert` has the same overwrite
  semantics as `BTreeMap::insert` and returns the value it displaced.
- **Handlers** (`handlers.dfy`). A handler is `BoxedFn`, `BoxedFnOnce` or
  `Function`. The one-shot kind holds a slot that is emptied before its
  closure is called. Closures are opaque identities.
- **Dispatch** (`dispatch.dfy`). This is `MapLocked::invoke`. Pass one visits
  the entries in key order, calls each present closure with the same argument
  and empties one-shot slots while collecting their keys. Pass two removes the
  collected keys, and it runs only when some key was collected. The
  broadcast's effects are recorded as a call log of
  `Call(key, callee, arg)` values.
- **Public surface** (`events.dfy`). A `World` maps registry identities to
  `Live(table)` or `Dropped`. `Dropped` means the `EventHandler` has released
  the only strong reference, so every `Weak::upgrade` fails. Registration,
  `len`, `invoke`, handle validity, handle invocation and handle drop are pure
  transitions over the `World`.
- **Scenarios** (`scenarios.dfy`). The unit tests `can_add_fn`,
  `can_add_fnonce`, `can_add_function_pointer`,
  `cannot_register_same_function_twice` and `can_remove_handlers` of
  `src/lib.rs`, and the integration test `tests/invoke_handler_fn.rs`, each
  started from any valid world. `it_works` is stated for either order of the
  two box addresses. The remaining unit test,
  `new_handler_has_no_registrations`, is `Events.NewIsEmpty`.

Registration takes its key address as an input. For `add_fn` and `add_fnonce`
the source uses the address of the box. For `add_ptr` it uses the address of
`add_ptr`'s own parameter `handler` (`src/lib.rs:167`), not the function's
address. So two different functions that arrive through the same stack slot
get the same key. `Events.AddPtrSameSlotCollides` shows what follows: the
second registration returns `Err`, and the first function is replaced by the
second.

Two behaviours of the code are easy to misread:

- **Duplicate registration.** The error text `The handler was already
  registered` reads as if nothing was stored. But `add_fn`, `add_fnonce` and
  `add_ptr` call `BTreeMap::insert` before they look at its result
  (`src/lib.rs:143-145`). So the caller gets `Err` and `len` is unchanged,
  but the new handler has replaced the old one. One
  result is that a key's variant can change after registration, for example
  `add_fn` followed by `add_fnonce` on the same box address (non-capturing
  closures and function items are zero-sized with alignment 1, so they all
  get the same box address).
- **`is_valid`.** It reports only whether the registry is alive
  (`src/lib.rs:77-79`). It says nothing about whether the handle's own key is
  still stored.
- **Stale one-shot handles.** Removal on drop goes by key alone
  (`src/lib.rs:116-122`). After a one-shot has fired, its box is consumed
  (`src/lib.rs:220`) and its key is removed, but its handle still reports
  valid. A later `add_fn` whose box reuses that address succeeds under the
  same key. Dropping the old handle then removes the new registration, even
  though a handle is meant to revoke only its own registration
  (`src/lib.rs:60-61`). `Events.StaleOneShotHandleRevokesReuse` shows this.

## Model

| member | source | states |
|---|---|---|
| Keys.Less | src/lib.rs:25-29 | no contract of its own; `Keys.LessIsStrictTotalOrder` and `Keys.BoxesBeforeFunctionPointers` state the derived order |
| OrderedMap.Insert | src/lib.rs:143 | no contract of its own; `OrderedMap.InsertSpec` and `OrderedMap.InsertLength` state `BTreeMap::insert` |
| OrderedMap.Remove | src/lib.rs:120 | no contract of its own; `OrderedMap.RemoveSpec` and `OrderedMap.RemoveLength` state `BTreeMap::remove` |
| Dispatch.CallPass | src/lib.rs:210-226 | no contract of its own; the `Dispatch.CallPass*` lemmas state the read pass |
| Dispatch.PrunePass | src/lib.rs:229-234 | no contract of its own; `Dispatch.PrunePassSorted` and `Dispatch.PrunePassMap` state the write pass |
| Dispatch.Invoke | src/lib.rs:207-235 | no contract of its own; `Dispatch.InvokeSorted`, `Dispatch.InvokeKeepsPersistent`, `Dispatch.InvokeLength` and the `Dispatch.InvokeCalls*` lemmas state the broadcast |
| Events.Register | src/lib.rs:143-145 | no contract of its own; `Events.RegisterKeepsValid`, `Events.RegisterFresh`, `Events.RegisterDuplicate` and `Events.RegisterOutcome` state it |
| Events.AddFn | src/lib.rs:135-147 | no contract of its own; `Events.AddFnSpec` states it |
| Events.AddFnOnce | src/lib.rs:149-161 | no contract of its own; `Events.AddFnOnceSpec` states it |
| Events.AddPtr | src/lib.rs:163-174 | no contract of its own; `Events.AddPtrSpec` and `Events.AddPtrSameSlotCollides` state it |
| Events.Len | src/lib.rs:176-179 | no contract of its own; `Events.LenCountsHandlers` and `Events.NewIsEmpty` state it |
| Events.InvokeEvent | src/lib.rs:185-190 | no contract of its own; `Events.InvokeEventKeepsValid`, `Events.InvokeEventPrunesOneShots` and `Events.InvokeEventCalls` state it |
| Events.IsValid | src/lib.rs:77-79 | no contract of its own; `Events.DropEventInvalidatesHandles` and `Events.OneShotHandleOutlivesItsEntry` state it |
| Events.InvokeHandle | src/lib.rs:85-95 | no contract of its own; `Events.InvokeHandleSpec` states it |
| Events.InvokeHandleQuietly | src/lib.rs:269-276 | no contract of its own; `Events.InvokeHandleQuietlySpec` states it |
| Events.DropHandle | src/lib.rs:116-122 | no contract of its own; `Events.DropHandleRemovesKey` and `Events.DropHandleAfterEventGone` state it |
| Keys.LessIsStrictTotalOrder | src/lib.rs:25-29 | the derived key order is irreflexive, asymmetric, transitive and total, so a sorted key sequence is well defined |
| Keys.BoxesBeforeFunctionPointers | src/lib.rs:26-29 | every `PtrOfBox` key sorts before every `FunctionPointer` key, whatever the addresses |
| OrderedMap.SortedLength | src/lib.rs:176-179 | the map's `len` equals the number of distinct keys it holds |
| OrderedMap.InsertSpec | src/lib.rs:143-145 | insert keeps the keys sorted, stores the new value under the key (overwriting), and returns the displaced value exactly when the key was present |
| OrderedMap.InsertLength | src/lib.rs:143-145 | insert adds one entry exactly when the key was new and otherwise keeps the size |
| OrderedMap.RemoveSpec | src/lib.rs:120 | remove keeps the keys sorted and deletes exactly that key, with other entries unchanged and an absent key a no-op |
| OrderedMap.RemoveLength | src/lib.rs:120 | remove shrinks the map by one exactly when the key was present |
| Dispatch.CallPassArgument | src/lib.rs:212-216 | every call in pass one receives the same broadcast argument |
| Dispatch.CallPassSound | src/lib.rs:212-221 | every call in pass one is to the closure stored under a key present at the start |
| Dispatch.CallPassComplete | src/lib.rs:212-221 | pass one calls every entry whose closure is present |
| Dispatch.CallPassAscending | src/lib.rs:212 | pass one calls in strictly ascending key order, so no key is called twice |
| Dispatch.CallPassUnregister | src/lib.rs:217-223 | pass one schedules for removal exactly the one-shot keys, whether or not their slot was filled |
| Dispatch.CallPassEntries | src/lib.rs:217-218 | pass one keeps every entry in place and only empties one-shot slots |
| Dispatch.PrunePassSorted | src/lib.rs:229-234 | pass two leaves the map sorted |
| Dispatch.PrunePassMap | src/lib.rs:229-234 | pass two deletes exactly the scheduled keys |
| Dispatch.InvokeSorted | src/lib.rs:207-235 | a broadcast leaves the map sorted |
| Dispatch.InvokeKeepsPersistent | src/lib.rs:207-235 | after a broadcast, every `BoxedFn` and `Function` entry remains unchanged and every one-shot present at the start is gone |
| Dispatch.InvokeLength | src/lib.rs:217-233 | a broadcast shrinks the map by exactly the number of one-shot entries |
| Dispatch.InvokeCallsAscending | src/lib.rs:207-225 | a broadcast calls handlers in strictly ascending key order, so none is called twice |
| Dispatch.InvokeCallsAllFiring | src/lib.rs:212-224 | every entry that holds a closure at the start of the broadcast appears in the call log |
| Dispatch.InvokeCallsOnlyFiring | src/lib.rs:212-224 | only entries that hold a closure at the start of the broadcast appear in the call log, so an emptied one-shot slot is never called |
| Dispatch.InvokeCallsFaithful | src/lib.rs:212-221 | every call passes the broadcast argument to the closure stored under its key |
| Dispatch.OneShotRunsAtMostOnce | src/lib.rs:217-233 | a one-shot is gone after the broadcast that found it, and the next broadcast does not call it |
| Dispatch.EmptySlotSkippedButRemoved | src/lib.rs:217-223 | a one-shot whose slot is already empty is not called but is still removed |
| Events.New | src/lib.rs:126-133 | a new registry gets a fresh identity, is alive and holds no handlers; it is the only registry added, every other registry is untouched, and `next` advances by one |
| Events.NewIsEmpty | src/lib.rs:287-290 | `len` of a freshly constructed registry is 0 |
| Events.LenCountsHandlers | src/lib.rs:177-179 | `len` equals the number of registered keys |
| Events.RegisterKeepsValid | src/lib.rs:139-146 | registration keeps the world's invariant and changes no other registry |
| Events.RegisterFresh | src/lib.rs:139-144 | registering an absent key returns a handle with that key pointing at this registry, stores the handler and grows `len` by one |
| Events.RegisterDuplicate | src/lib.rs:143-145 | registering a present key returns the "already registered" error and keeps `len`, but the stored handler is overwritten by the new one |
| Events.RegisterOutcome | src/lib.rs:143-146 | registration succeeds if and only if the key was absent, and either way the key maps to the new handler afterwards |
| Events.AddFnSpec | src/lib.rs:135-147 | `add_fn` succeeds if and only if the box's key is free, and stores a reusable handler under it |
| Events.AddFnOnceSpec | src/lib.rs:149-161 | `add_fnonce` succeeds if and only if the box's key is free, and stores a filled one-shot slot under it |
| Events.AddPtrSpec | src/lib.rs:163-174 | `add_ptr` succeeds if and only if the key built from its parameter slot is free, and stores the function under it |
| Events.AddPtrSameSlotCollides | src/lib.rs:163-174 | two functions registered through one parameter slot share a key, so the second call fails, `len` stays one higher than before, and the second function replaces the first |
| Events.InvokeEventKeepsValid | src/lib.rs:185-190 | `EventHandler::invoke` keeps the world's invariant and changes no other registry |
| Events.InvokeEventPrunesOneShots | src/lib.rs:185-190 | after `EventHandler::invoke` the registry holds exactly its non-one-shot handlers, and `len` drops by the number of one-shots |
| Events.InvokeEventCalls | src/lib.rs:185-190 | `EventHandler::invoke` calls every present closure exactly once, in ascending key order, with the same argument |
| Events.DropEvent | src/lib.rs:20-22 | dropping the owner makes its registry dead; every other registry keeps its state and table, and no identity is added or lost |
| Events.DropEventKeepsValid | src/lib.rs:20-22 | dropping the owner preserves the world invariant and frames every other registry |
| Events.InvokeHandleSpec | src/lib.rs:85-95 | `Handle::invoke` returns `EventDropped` if and only if the registry is dead, and then changes nothing; otherwise it does the full broadcast of `EventHandler::invoke`, reaching every present handler and not only its own |
| Events.InvokeHandleQuietlySpec | src/lib.rs:269-276 | the `Invoke` impl for `Handle` behaves like `Handle::invoke` and drops the `EventDropped` error |
| Events.DropHandleRemovesKey | src/lib.rs:116-122 | dropping a handle while its registry is alive removes exactly its key, leaves every other entry and registry unchanged, adds no registry, keeps `next`, and lowers `len` by one only if the key was present |
| Events.StaleOneShotHandleRevokesReuse | src/lib.rs:60-61 | after a one-shot fires, a new `add_fn` at the same box address succeeds under the same key; the old handle still reports valid, and dropping it removes the new registration |
| Events.DropHandleAfterEventGone | src/lib.rs:116-122 | dropping a handle after its registry is gone changes nothing |
| Events.DropEventInvalidatesHandles | src/lib.rs:77-95 | once the owner is dropped, a handle into that registry is invalid, `Handle::invoke` returns `EventDropped`, and dropping the handle is a no-op |
| Events.OneShotHandleOutlivesItsEntry | src/lib.rs:76-79 | after a one-shot fired and was removed, its handle still reports valid, because validity follows the registry's liveness and not the key's presence |
| Events.RegisterAll | src/lib.rs:135-174 | a run of registrations keeps the registry alive and returns one result per call |
| Events.ApplyCounts | src/lib.rs:139-146 | each registration grows `len` by one exactly when it returns `Ok` |
| Events.RegisterAllCountsSuccesses | src/lib.rs:135-174 | with no removals in between, `len` grows by exactly the number of successful registrations |
| Scenarios.CanAddFn | src/lib.rs:292-299 | one `add_fn` succeeds and makes `len` 1; a broadcast calls that closure once and keeps it |
| Scenarios.CanAddFnOnce | src/lib.rs:301-309 | a one-shot registration makes `len` 1, and one broadcast brings it back to 0 |
| Scenarios.CanAddFunctionPointer | src/lib.rs:311-318 | one `add_ptr` succeeds and makes `len` 1; a broadcast calls that function once and keeps it |
| Scenarios.CannotRegisterSameFunctionTwice | src/lib.rs:320-326 | registering the same function twice with `add_ptr` fails the second time |
| Scenarios.CanRemoveHandlers | src/lib.rs:328-335 | dropping the only handle brings `len` from 1 to 0 |
| Scenarios.ItWorks | tests/invoke_handler_fn.rs:5-38 | for any two distinct box addresses, both reusable closures are registered, and both receive the argument, in address order, whether the event is invoked directly or through a handle |

## Left out

- `RwLock` acquisition, thread safety and the race windows between the read pass and the write pass. The model is single-threaded, and each operation is one atomic transition.
- Lock poisoning and the `.unwrap()` panics on lock acquisition (`src/lib.rs:119`, `141`, `155`, `168`, `178`, `211`, `230`). These are runtime failures outside a sequential model.
- `Arc` and `Weak` reference counting. The only strong owner is the `EventHandler`, so liveness is one `Live`/`Dropped` flag per registry. The temporary strong reference that `Weak::upgrade` takes inside `Handle::invoke` and `Drop for Handle` has no visible effect in a sequential world.
- How keys are derived from heap and stack addresses (`src/lib.rs:140`, `154`, `167`). Addresses are inputs to registration.
- Closure bodies, `Cell` interior mutability and the side effects of callbacks. A callback is an opaque `Closure` identity, and its effect is its entry in the call log. `Clone` of the argument is the same value passed to every call.
- The `Hash` impl for `HandlerKey` (`src/lib.rs:32-45`). The `BTreeMap` does not use it.
- The `Display` and `Error` impls, `Deref`/`DerefMut`, `MapLocked::new` and `Default` (`src/lib.rs:103-114`, `193-205`, `238-250`). They are boilerplate with no behaviour of their own.
- The `Invoke` impl for `EventHandler` (`src/lib.rs:260-267`). It only forwards to `EventHandler::invoke`, which `Events.InvokeEvent` models.
- Callbacks that panic or re-enter the registry. The model assumes every callback returns normally and does not touch the registry it was called from. A panic at `src/lib.rs:215`, `216` or `220` would unwind out of the read pass (`src/lib.rs:210-226`). Every one-shot slot emptied so far in that pass (`src/lib.rs:218`) would then stay stored as `BoxedFnOnce(None)`, because the collected keys are dropped with the unwind. Later handlers would not be called, and the write pass (`src/lib.rs:229-234`) would not run. A caller that catches the panic keeps a usable registry, because a read guard does not poison the lock. A nested `Handle::invoke` from a callback is a further broadcast inside this one. On those paths `Events.InvokeEventPrunesOneShots` and `Events.InvokeEventCalls` do not hold. They are also the only ways a `BoxedFnOnce(None)` entry comes to be stored, so `Dispatch.EmptySlotSkippedButRemoved` describes a state that only such a path leaves behind.
- The `usize` width of `len`'s result. The model uses an unbounded count, because a map with 2^64 entries cannot exist in memory.
