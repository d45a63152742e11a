/**
 * The lock-free `Queue<T>`: a `boost::lockfree::queue<T>` of values plus a
 * `WaitFlag`. Each method is proved against `QueueSpec.LockfreeStep`.
 */
module LockfreeQueue {
  import opened Wrappers
  import Q = QueueSpec
  import BoostQueue
  import WaitFlags

  class Queue<T> {
    const fifo: BoostQueue.Fifo<T>
    const flag: WaitFlags.WaitFlag

    ghost function State(): Q.QState<T>
      reads fifo, flag
    {
      Q.QState(fifo.items, flag.State())
    }

    constructor ()
      ensures fresh(fifo) && fresh(flag)
      ensures State() == Q.QState([], WaitFlags.FlagState(false, 0))
    {
      fifo := new BoostQueue.Fifo(0);
      flag := new WaitFlags.WaitFlag();
    }

    /** Raises the flag whether or not the structure took `x`. */
    method Push(x: T) returns (ok: bool)
      modifies fifo, flag
      ensures Q.LockfreeStep(old(State()), Q.Push(x), ok) == Q.Step(State(), Q.Pushed(ok))
    {
      ok := fifo.Push(x);
      flag.Set();
    }

    method Pop() returns (r: Option<T>)
      modifies fifo
      ensures Q.LockfreeStep(old(State()), Q.Pop, false) == Q.Step(State(), Q.Popped(r))
    {
      r := fifo.Pop();
    }

    method Empty() returns (b: bool)
      ensures b <==> State().items == []
      ensures Q.LockfreeStep(State(), Q.Empty, false) == Q.Step(State(), Q.IsEmpty(b))
    {
      b := fifo.Empty();
    }

    method Wait() returns (woke: bool)
      modifies flag
      ensures Q.LockfreeStep(old(State()), Q.Wait, false) == Q.Step(State(), Q.Waited(woke))
    {
      woke := flag.Wait();
    }

    method Wakeup()
      modifies flag
      ensures Q.LockfreeStep(old(State()), Q.Wakeup, false) == Q.Step(State(), Q.Woken)
    {
      flag.Set();
    }
  }
}
