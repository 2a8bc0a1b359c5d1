/** Handler keys and the order in which the registry visits them. */
module Keys {

  /** A pointer-sized unsigned integer (the source's `usize` on a 64-bit target). */
  newtype Usize = x: int | 0 <= x < 0x1_0000_0000_0000_0000

  /**
   * The identity of a registration. `PtrOfBox` holds the address of a boxed
   * closure, `FunctionPointer` the address the registration derived for a
   * plain function. Keys are opaque inputs to this model.
   */
  datatype HandlerKey = PtrOfBox(addr: Usize) | FunctionPointer(addr: Usize)

  /** Position of the constructor in declaration order, as the derived order uses it. */
  function Rank(k: HandlerKey): nat
  {
    match k
    case PtrOfBox(_) => 0
    case FunctionPointer(_) => 1
  }

  /** The derived `Ord` on `HandlerKey`: compare the variant first, then the address. */
  predicate Less(a: HandlerKey, b: HandlerKey)
  {
    Rank(a) < Rank(b) || (Rank(a) == Rank(b) && a.addr < b.addr)
  }

  /** A key sequence in strictly ascending order (hence without repetitions). */
  predicate Ascending(ks: seq<HandlerKey>)
  {
    forall i, j :: 0 <= i < j < |ks| ==> Less(ks[i], ks[j])
  }

  /** `Less` is a strict total order, so a key sequence can be kept sorted. */
  lemma LessIsStrictTotalOrder(a: HandlerKey, b: HandlerKey, c: HandlerKey)
    ensures !Less(a, a)
    ensures Less(a, b) ==> !Less(b, a)
    ensures Less(a, b) && Less(b, c) ==> Less(a, c)
    ensures a == b || Less(a, b) || Less(b, a)
  {
  }

  /** All pointer-of-box keys come before all function-pointer keys. */
  lemma BoxesBeforeFunctionPointers(x: Usize, y: Usize)
    ensures Less(PtrOfBox(x), FunctionPointer(y))
    ensures !Less(FunctionPointer(y), PtrOfBox(x))
  {
  }

  /** Prepending a key below every element keeps a sequence ascending. */
  lemma AscendingCons(k: HandlerKey, ks: seq<HandlerKey>)
    requires Ascending(ks)
    requires forall i :: 0 <= i < |ks| ==> Less(k, ks[i])
    ensures Ascending([k] + ks)
  {
  }
}
