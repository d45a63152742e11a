/**
 * `LockfreePtrQueue<T>`: heap cells travel through a lock-free FIFO of raw
 * handles. The free store is passed in explicitly as an `Arena`; each method
 * is proved against the matching function of `PtrQueueSpec`.
 */
module LockfreePtrQueues {
  import opened Wrappers
  import opened Heaps
  import S = PtrQueueSpec
  import BoostQueue

  class LockfreePtrQueue<T> {
    const fifo: BoostQueue.Fifo<Handle>

    /** The queue's handles together with the free store they point into. */
    ghost function View(arena: Arena<T>): S.Custody<T>
      reads fifo, arena
    {
      S.Custody(arena.State(), fifo.items)
    }

    ghost predicate Valid(arena: Arena<T>)
      reads fifo, arena
    {
      S.Owned(View(arena))
    }

    constructor (size: int := 0)
      ensures fresh(fifo) && fifo.items == []
      ensures forall arena: Arena<T> | arena.Valid() :: Valid(arena)
    {
      fifo := new BoostQueue.Fifo(size);
    }

    method PopPtr(arena: Arena<T>) returns (r: Option<Handle>)
      requires Valid(arena)
      modifies fifo
      ensures Valid(arena)
      ensures S.PopPtr(old(View(arena))) == S.PopPtrResult(View(arena), r)
    {
      r := fifo.Pop();
    }

    /** `h` is the caller's `unique_ptr`: on failure its destructor frees the cell. */
    method PushPtr(arena: Arena<T>, h: Handle) returns (ok: bool)
      requires Valid(arena) && S.OwnerOf(View(arena), h) == S.CallerOwns
      modifies fifo, arena
      ensures Valid(arena)
      ensures View(arena) == S.PushPtr(old(View(arena)), h, ok)
    {
      ok := fifo.Push(h);
      if !ok {
        arena.Delete(h);
      }
    }

    method Pop(arena: Arena<T>) returns (r: Option<T>)
      requires Valid(arena)
      modifies fifo, arena
      ensures Valid(arena)
      ensures S.Pop(old(View(arena))) == S.PopResult(View(arena), r)
    {
      var p := PopPtr(arena);
      match p {
        case None =>
          r := None;
        case Some(h) =>
          var x := arena.Read(h);
          arena.Delete(h);
          r := Some(x);
      }
    }

    method Push(arena: Arena<T>, x: T) returns (ok: bool)
      requires Valid(arena)
      modifies fifo, arena
      ensures Valid(arena)
      ensures View(arena) == S.Push(old(View(arena)), x, ok)
    {
      var h := arena.New(x);
      assert h !in fifo.items;
      ok := PushPtr(arena, h);
    }

    /** The destructor: `pop` until the queue reports empty. */
    method Drain(arena: Arena<T>)
      requires Valid(arena)
      modifies fifo, arena
      ensures Valid(arena) && fifo.items == []
      ensures View(arena) == S.Drain(old(View(arena)))
    {
      while true
        invariant Valid(arena)
        invariant S.Drain(View(arena)) == S.Drain(old(View(arena)))
        decreases |fifo.items|
      {
        var r := Pop(arena);
        if r == None {
          break;
        }
      }
    }
  }
}
