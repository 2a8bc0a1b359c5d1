/** The three kinds of registered handler and what a dispatch would call for each. */
module Handlers {
  import opened Outcomes

  /** The identity of a callable (closure or free function); its body is not modelled. */
  type Closure = nat

  /**
   * A stored handler. `BoxedFnOnce` holds a slot that dispatch empties before
   * calling: `None` means the one-shot closure has already been taken.
   */
  datatype HandlerType =
    | BoxedFn(f: Closure)
    | BoxedFnOnce(slot: Option<Closure>)
    | Function(f: Closure)

  /** The closure that dispatch calls for this handler, if any. */
  function Callee(h: HandlerType): Option<Closure>
  {
    match h
    case BoxedFn(f) => Some(f)
    case Function(f) => Some(f)
    case BoxedFnOnce(slot) => slot
  }

  /** The state of a handler after dispatch has visited it: one-shot slots are emptied. */
  function Disarm(h: HandlerType): HandlerType
  {
    if h.BoxedFnOnce? then BoxedFnOnce(None) else h
  }
}
