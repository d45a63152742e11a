/**
 * The sequential meaning of `LockfreePtrQueue<T>`: a FIFO of heap handles
 * over the free store. A live cell is owned by the queue when its handle is
 * in the FIFO and by the caller (through a `unique_ptr`) otherwise; a freed
 * cell is owned by nobody. `accepted` is the outcome of the underlying
 * lock-free structure's push, which the model leaves open.
 */
module PtrQueueSpec {
  import opened Wrappers
  import opened Heaps

  datatype Custody<T> = Custody(heap: HeapState<T>, queue: seq<Handle>)

  datatype Owner = QueueOwns | CallerOwns | NoOwner

  function OwnerOf<T>(c: Custody<T>, a: Handle): Owner {
    if a in c.queue then QueueOwns else if a in c.heap.cells then CallerOwns else NoOwner
  }

  /** The queue holds each handle at most once, and only handles of live cells. */
  predicate Owned<T>(c: Custody<T>) {
    WellFormed(c.heap) && Distinct(c.queue) &&
    forall i | 0 <= i < |c.queue| :: c.queue[i] in c.heap.cells
  }

  /** The values the queue holds, oldest first. */
  function Values<T>(c: Custody<T>): seq<T>
    requires Owned(c)
  {
    seq(|c.queue|, i requires 0 <= i < |c.queue| => c.heap.cells[c.queue[i]])
  }

  datatype PopPtrResult<T> = PopPtrResult(after: Custody<T>, handle: Option<Handle>)

  datatype PopResult<T> = PopResult(after: Custody<T>, value: Option<T>)

  /** `pop_ptr`: hand the oldest handle, and with it its cell, to the caller. */
  function PopPtr<T>(c: Custody<T>): (r: PopPtrResult<T>)
    requires Owned(c)
    ensures Owned(r.after) && r.after.heap == c.heap
    ensures r.handle == None <==> c.queue == []
    ensures r.handle == None ==> r.after == c
    ensures r.handle.Some? ==> c.queue == [r.handle.value] + r.after.queue
    ensures r.handle.Some? ==>
      OwnerOf(c, r.handle.value) == QueueOwns && OwnerOf(r.after, r.handle.value) == CallerOwns
    ensures forall a: Handle | r.handle != Some(a) :: OwnerOf(r.after, a) == OwnerOf(c, a)
  {
    if c.queue == [] then
      PopPtrResult(c, None)
    else
      var h := c.queue[0];
      assert c.queue == [h] + c.queue[1..];
      assert h !in c.queue[1..] by {
        forall j | 0 <= j < |c.queue[1..]| ensures c.queue[1..][j] != h {
          assert c.queue[1..][j] == c.queue[j + 1];
        }
      }
      PopPtrResult(Custody(c.heap, c.queue[1..]), Some(h))
  }

  /**
   * `push_ptr`: the caller's cell either joins the back of the queue, which
   * then owns it, or, when the push fails, is freed on the spot.
   */
  function PushPtr<T>(c: Custody<T>, h: Handle, accepted: bool): (r: Custody<T>)
    requires Owned(c) && OwnerOf(c, h) == CallerOwns
    ensures Owned(r)
    ensures r.queue == if accepted then c.queue + [h] else c.queue
    ensures OwnerOf(r, h) == if accepted then QueueOwns else NoOwner
    ensures r.heap.freed == if accepted then c.heap.freed else c.heap.freed + [h]
    ensures forall a: Handle | a != h :: OwnerOf(r, a) == OwnerOf(c, a)
    ensures forall a | a in r.heap.cells :: a in c.heap.cells && r.heap.cells[a] == c.heap.cells[a]
  {
    if accepted then
      Custody(c.heap, c.queue + [h])
    else
      Custody(Free(c.heap, h), c.queue)
  }

  /** `pop`: take the value out of the cell `pop_ptr` hands over, then free that cell. */
  function Pop<T>(c: Custody<T>): (r: PopResult<T>)
    requires Owned(c)
    ensures Owned(r.after)
    ensures c.queue == [] ==> r == PopResult(c, None)
    ensures c.queue != [] ==>
      && r.value == Some(c.heap.cells[c.queue[0]])
      && r.after == Custody(Free(c.heap, c.queue[0]), c.queue[1..])
  {
    var p := PopPtr(c);
    match p.handle
    case None => PopResult(p.after, None)
    case Some(h) =>
      var after := Custody(Free(p.after.heap, h), p.after.queue);
      assert Owned(after) by {
        forall i | 0 <= i < |after.queue| ensures after.queue[i] in after.heap.cells {
          assert OwnerOf(p.after, after.queue[i]) == QueueOwns;
        }
      }
      PopResult(after, Some(c.heap.cells[h]))
  }

  /** `push`: move `x` into a fresh cell and `push_ptr` it. */
  function Push<T>(c: Custody<T>, x: T, accepted: bool): (r: Custody<T>)
    requires Owned(c)
    ensures Owned(r)
    ensures accepted ==> r.queue == c.queue + [c.heap.next] && r.heap.cells == c.heap.cells[c.heap.next := x]
    ensures accepted ==> r.heap.freed == c.heap.freed
    ensures !accepted ==> r.queue == c.queue && r.heap.cells == c.heap.cells
    ensures !accepted ==> r.heap.freed == c.heap.freed + [c.heap.next]
    ensures r.heap.next == c.heap.next + 1 && c.heap.next !in c.heap.cells
  {
    var (heap, h) := Alloc(c.heap, x);
    var held := Custody(heap, c.queue);
    assert OwnerOf(held, h) == CallerOwns by {
      assert h !in c.queue;
    }
    var r := PushPtr(held, h, accepted);
    assert !accepted ==> r.heap.cells == c.heap.cells;
    r
  }

  /** By value, the queue is a FIFO: `pop` returns the oldest value and keeps the rest in order. */
  lemma PopTakesOldest<T>(c: Custody<T>)
    requires Owned(c) && c.queue != []
    ensures Pop(c).value == Some(Values(c)[0])
    ensures Values(Pop(c).after) == Values(c)[1..]
  {
    var h := c.queue[0];
    var after := Pop(c).after;
    forall i | 0 <= i < |after.queue| ensures after.heap.cells[after.queue[i]] == c.heap.cells[c.queue[i + 1]] {
      assert after.queue[i] == c.queue[i + 1] != h;
    }
  }

  /** A successful `push` puts `x` at the back; a failed one leaves the values as they were. */
  lemma PushAppends<T>(c: Custody<T>, x: T, accepted: bool)
    requires Owned(c)
    ensures Values(Push(c, x, accepted)) == if accepted then Values(c) + [x] else Values(c)
  {
    var r := Push(c, x, accepted);
    if accepted {
      forall i | 0 <= i < |c.queue| ensures r.heap.cells[r.queue[i]] == c.heap.cells[c.queue[i]] {
        assert c.queue[i] in c.heap.cells;
      }
    }
  }

  /**
   * The destructor: `pop` until the queue is empty. It ends with the queue
   * empty and the invariant intact, and allocates nothing.
   */
  function Drain<T>(c: Custody<T>): (r: Custody<T>)
    requires Owned(c)
    ensures Owned(r) && r.queue == [] && r.heap.next == c.heap.next
    decreases |c.queue|
  {
    if c.queue == [] then c else Drain(Pop(c).after)
  }

  /** Draining frees exactly the cells the queue owned, in FIFO order; with `Owned`, each is freed once. */
  lemma {:induction false} DrainFreesQueued<T>(c: Custody<T>)
    requires Owned(c)
    ensures Drain(c).heap.freed == c.heap.freed + c.queue
    decreases |c.queue|
  {
    if c.queue != [] {
      var f, q := c.heap.freed, c.queue;
      var p := Pop(c).after;
      assert p.heap.freed == f + [q[0]] && p.queue == q[1..];
      DrainFreesQueued(p);
      calc {
        Drain(c).heap.freed;
        Drain(p).heap.freed;
        (f + [q[0]]) + q[1..];
        { assert q == [q[0]] + q[1..]; }
        f + q;
      }
    }
  }

  /** Draining frees no cell but the queue's: the caller's cells keep their values. */
  lemma {:induction false} DrainKeepsOthers<T>(c: Custody<T>)
    requires Owned(c)
    ensures Drain(c).heap.cells == c.heap.cells - Elems(c.queue)
    decreases |c.queue|
  {
    if c.queue != [] {
      var m, q := c.heap.cells, c.queue;
      var p := Pop(c).after;
      assert p.heap.cells == m - {q[0]} && p.queue == q[1..];
      DrainKeepsOthers(p);
      calc {
        Drain(c).heap.cells;
        Drain(p).heap.cells;
        (m - {q[0]}) - Elems(q[1..]);
        { assert Elems(q) == {q[0]} + Elems(q[1..]) by { assert q == [q[0]] + q[1..]; } }
        m - Elems(q);
      }
    }
  }

  /** On an empty queue, a successful `push(x)` followed by `pop()` gives back `x` and leaves nothing behind. */
  lemma PushThenPopRoundTrip<T>(c: Custody<T>, x: T)
    requires Owned(c) && c.queue == []
    ensures Pop(Push(c, x, true)).value == Some(x)
    ensures Pop(Push(c, x, true)).after.queue == []
    ensures Pop(Push(c, x, true)).after.heap.cells == c.heap.cells
  {
    var p := Push(c, x, true);
    assert p.queue == [c.heap.next];
    assert c.heap.cells[c.heap.next := x] - {c.heap.next} == c.heap.cells;
  }

  /** What a caller does with the by-value interface: `push(x)` (with the outcome of the underlying push) or `pop()`. */
  datatype ValueOp<T> = PushValue(x: T, accepted: bool) | PopValue

  function Apply<T>(c: Custody<T>, op: ValueOp<T>): (r: Custody<T>)
    requires Owned(c)
    ensures Owned(r)
  {
    match op
    case PushValue(x, accepted) => Push(c, x, accepted)
    case PopValue => Pop(c).after
  }

  function RunByValue<T>(c: Custody<T>, ops: seq<ValueOp<T>>): (r: Custody<T>)
    requires Owned(c)
    ensures Owned(r)
    decreases |ops|
  {
    if ops == [] then c else RunByValue(Apply(c, ops[0]), ops[1..])
  }

  /**
   * Relative to a starting point `c0` whose queue was empty: the caller's
   * cells are exactly those of `c0`, untouched, and every cell allocated
   * since is either still queued or already freed, never both.
   */
  ghost predicate Accounted<T>(c0: Custody<T>, c: Custody<T>) {
    && Owned(c)
    && c0.heap.next <= c.heap.next
    && |c0.heap.freed| <= |c.heap.freed| && c.heap.freed[..|c0.heap.freed|] == c0.heap.freed
    && (forall a: Handle :: a in c.heap.cells <==> a in c0.heap.cells || a in c.queue)
    && (forall a | a in c0.heap.cells :: a in c.heap.cells && c.heap.cells[a] == c0.heap.cells[a])
    && (forall a | a in c.queue :: c0.heap.next <= a)
    && (forall a: Handle | c0.heap.next <= a < c.heap.next :: a in c.heap.freed || a in c.queue)
  }

  lemma AccountedPush<T>(c0: Custody<T>, c: Custody<T>, x: T, accepted: bool)
    requires Owned(c0) && Accounted(c0, c)
    ensures Accounted(c0, Push(c, x, accepted))
  {
    var r := Push(c, x, accepted);
    var n := c.heap.next;
    assert n !in c0.heap.cells;
    if accepted {
      assert Elems(r.queue) == Elems(c.queue) + {n} by {
        assert r.queue == c.queue + [n];
      }
    }
    assert r.heap.freed[..|c0.heap.freed|] == c0.heap.freed by {
      assert r.heap.freed[..|c.heap.freed|] == c.heap.freed;
    }
  }

  lemma AccountedPop<T>(c0: Custody<T>, c: Custody<T>)
    requires Owned(c0) && Accounted(c0, c)
    ensures Accounted(c0, Pop(c).after)
  {
    if c.queue != [] {
      var r := Pop(c).after;
      var h := c.queue[0];
      assert h !in c0.heap.cells;
      assert c.queue == [h] + r.queue;
      assert h !in r.queue;
      assert r.heap.freed[..|c0.heap.freed|] == c0.heap.freed by {
        assert r.heap.freed[..|c.heap.freed|] == c.heap.freed;
      }
    }
  }

  lemma AccountedDrain<T>(c0: Custody<T>, c: Custody<T>)
    requires Owned(c0) && Accounted(c0, c)
    ensures Accounted(c0, Drain(c))
  {
    var r := Drain(c);
    DrainFreesQueued(c);
    DrainKeepsOthers(c);
    forall a | a in c0.heap.cells ensures a !in c.queue {
    }
    assert r.heap.freed[..|c0.heap.freed|] == c0.heap.freed by {
      assert r.heap.freed[..|c.heap.freed|] == c.heap.freed;
    }
  }

  lemma {:induction false} AccountedRun<T>(c0: Custody<T>, c: Custody<T>, ops: seq<ValueOp<T>>)
    requires Owned(c0) && Accounted(c0, c)
    ensures Accounted(c0, RunByValue(c, ops))
    decreases |ops|
  {
    if ops != [] {
      match ops[0] {
        case PushValue(x, accepted) => AccountedPush(c0, c, x, accepted);
        case PopValue => AccountedPop(c0, c);
      }
      AccountedRun(c0, Apply(c, ops[0]), ops[1..]);
    }
  }

  /**
   * No leak, no double free: start from an empty queue, issue any by-value
   * pushes and pops, then destroy the queue. The caller's cells are as they
   * were, every cell allocated on the way has been freed, and the free log
   * holds no handle twice.
   */
  lemma ByValueUseNeverLeaks<T>(c0: Custody<T>, ops: seq<ValueOp<T>>)
    requires Owned(c0) && c0.queue == []
    ensures Drain(RunByValue(c0, ops)).heap.cells == c0.heap.cells
    ensures forall a: Handle | c0.heap.next <= a < Drain(RunByValue(c0, ops)).heap.next ::
      a in Drain(RunByValue(c0, ops)).heap.freed
    ensures Distinct(Drain(RunByValue(c0, ops)).heap.freed)
  {
    var c := RunByValue(c0, ops);
    AccountedRun(c0, c0, ops);
    AccountedDrain(c0, c);
    var r := Drain(c);
    assert r.heap.cells.Keys == c0.heap.cells.Keys;
  }
}
