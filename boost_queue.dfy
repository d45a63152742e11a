/**
 * `boost::lockfree::queue<T>`, a foreign library, seen from one thread at a
 * time: a FIFO sequence whose push may fail (the library reports failure when
 * it cannot obtain a node), so the outcome of a push is left open.
 */
module BoostQueue {
  import opened Wrappers

  class Fifo<T> {
    var items: seq<T>

    /** `size` only preallocates nodes; it does not bound the contents. */
    constructor (size: int)
      ensures items == []
    {
      items := [];
    }

    method Push(x: T) returns (ok: bool)
      modifies this
      ensures items == if ok then old(items) + [x] else old(items)
    {
      ok := *;
      if ok {
        items := items + [x];
      }
    }

    method Pop() returns (r: Option<T>)
      modifies this
      ensures old(items) == [] ==> r == None && items == old(items)
      ensures old(items) != [] ==> r == Some(old(items)[0]) && items == old(items)[1..]
    {
      if items == [] {
        r := None;
      } else {
        r := Some(items[0]);
        items := items[1..];
      }
    }

    method Empty() returns (b: bool)
      ensures b <==> items == []
    {
      b := items == [];
    }
  }
}
