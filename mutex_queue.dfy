/**
 * The mutex `Queue<T>`: a plain FIFO and a `bool` flag guarded by one mutex.
 * Locking and the condition variable are left to the concurrency this model
 * does not cover; each method is proved against `QueueSpec.MutexStep`. The
 * flag has no initialiser in the class, so its first value is a parameter.
 */
module MutexQueue {
  import opened Wrappers
  import Q = QueueSpec
  import WaitFlags

  class Queue<T> {
    var items: seq<T>
    var raised: bool
    ghost var notifies: nat

    ghost function State(): Q.QState<T>
      reads this
    {
      Q.QState(items, WaitFlags.FlagState(raised, notifies))
    }

    constructor (initialFlag: bool)
      ensures State() == Q.QState([], WaitFlags.FlagState(initialFlag, 0))
    {
      items, raised, notifies := [], initialFlag, 0;
    }

    /** Always reports success. */
    method Push(x: T) returns (ok: bool)
      modifies this
      ensures Q.MutexStep(old(State()), Q.Push(x)) == Q.Step(State(), Q.Pushed(ok))
    {
      items := items + [x];
      if !raised {
        raised := true;
        notifies := notifies + 1;
      }
      ok := true;
    }

    method Pop() returns (r: Option<T>)
      modifies this
      ensures Q.MutexStep(old(State()), Q.Pop) == Q.Step(State(), Q.Popped(r))
    {
      if items != [] {
        r := Some(items[0]);
        items := items[1..];
        return;
      }
      r := None;
    }

    method Empty() returns (b: bool)
      ensures b <==> items == []
      ensures Q.MutexStep(State(), Q.Empty) == Q.Step(State(), Q.IsEmpty(b))
    {
      b := items == [];
    }

    method Wait() returns (woke: bool)
      modifies this
      ensures Q.MutexStep(old(State()), Q.Wait) == Q.Step(State(), Q.Waited(woke))
    {
      if !raised {
        // would sleep on the condition variable until a push or wakeup
        woke := false;
        return;
      }
      raised := false;
      woke := true;
    }

    method Wakeup()
      modifies this
      ensures Q.MutexStep(old(State()), Q.Wakeup) == Q.Step(State(), Q.Woken)
    {
      if !raised {
        raised := true;
        notifies := notifies + 1;
      }
    }
  }
}
