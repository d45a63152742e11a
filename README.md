# lockfree-experiment, sequential model

This is a model of the synchronisation layer of `lockfree-experiment`. That program measures the throughput of a lock-free queue against a mutex-based one. The model takes each operation one call at a time and states exactly what it does to the state. Three parts are modelled:

- `LockfreePtrQueue<T>` is a FIFO of raw heap handles. Each element is a heap cell, and its custody passes between the caller and the queue. The free store is an explicit `Arena` with a ghost log of frees. A live cell belongs to the queue when its handle is in the FIFO, and to the caller otherwise. A freed cell belongs to nobody. The pure meaning is in `PtrQueueSpec`. The class `LockfreePtrQueues.LockfreePtrQueue` is proved against it.
- `WaitFlag` is the coalescing readiness bit. `set` is a compare-and-swap from false to true, and it notifies only when it changed the bit. A ghost counter records each `notify_one`. `wait` returns with the bit lowered. When the bit is already lowered, a lone caller could only block, so the model ends that call with the outcome `woke == false` and changes nothing.
- The two `Queue<T>` variants are state machines over (contents, flag): `QueueSpec.LockfreeStep` and `QueueSpec.MutexStep`. The classes `LockfreeQueue.Queue` and `MutexQueue.Queue` are proved against them. Refinement lemmas show that the variants agree on every sequence of calls in which the lock-free structure accepts every push. The flags agree even when a push is refused.
- The `duration` stream operator prints `ticks/resolution`, then `.`, then `ticks%resolution`. `DurationFormat.ParseDuration` reads that text back into the two numbers. The remainder is printed without zero padding, which is recorded under "## Findings".

`boost::lockfree::queue` is a foreign library. It is modelled as `BoostQueue.Fifo`, a sequence whose push may fail. Which way a push goes is left open (`ok := *`). In the pure runs it becomes an explicit list of outcomes.

The model follows the code at these points, which are easy to misread:

- A failed `push_ptr` frees the element, through the `unique_ptr` destructor. It does not give the element back to the caller.
- The lock-free `Queue::push` raises the flag even when the underlying push fails.
- The lock-free `Queue<T>` stores values directly in a `boost::lockfree::queue<T>`. It does not go through `LockfreePtrQueue`.
- The mutex `Queue::push` always returns `true`.
- The mutex variant's `m_flag` has no initialiser, so its first value is a constructor parameter. `WaitFlag` starts lowered by default.

## Model

| member | source | states |
|---|---|---|
| `Heaps.Alloc` | lockfree_ptr_queue.hpp:48 | `new T(x)` returns a handle that was neither live nor freed before, and that cell now holds `x`; the free-store invariant is kept |
| `Heaps.Free` | lockfree_ptr_queue.hpp:31 | only a live cell can be deleted, it had not been freed before, and it is appended to the free log exactly once |
| `Heaps.Arena.New` | lockfree_ptr_queue.hpp:48 | the arena's allocation follows `Alloc` |
| `Heaps.Arena.Delete` | lockfree_ptr_queue.hpp:31 | the arena's deletion follows `Free` |
| `Heaps.Arena.Read` | lockfree_ptr_queue.hpp:40 | dereferencing a live handle yields the value its cell holds |
| `BoostQueue.Fifo.constructor` | lockfree_ptr_queue.hpp:12 | a new lock-free structure is empty, whatever node count it preallocates |
| `BoostQueue.Fifo.Push` | lockfree_ptr_queue.hpp:27 | a push either appends at the back and reports true, or reports false and leaves the contents alone |
| `BoostQueue.Fifo.Pop` | lockfree_ptr_queue.hpp:19 | pop removes and returns the oldest element, or reports none on an empty structure with nothing changed |
| `BoostQueue.Fifo.Empty` | lockfree-experiment.cpp:320 | empty is true exactly when the structure holds nothing |
| `PtrQueueSpec.PopPtr` | lockfree_ptr_queue.hpp:17-24 | on a non-empty queue the oldest handle leaves the queue and passes from queue custody to the caller, and the rest keeps its order; on an empty queue the result is none and nothing changes; the owner of every other cell is unchanged and the invariant (distinct, live handles) is kept |
| `PtrQueueSpec.PushPtr` | lockfree_ptr_queue.hpp:26-34 | takes a cell the caller owns; on success it is appended and the queue owns it; on failure the queue is unchanged and exactly that cell is freed; no other cell changes owner or value |
| `PtrQueueSpec.Pop` | lockfree_ptr_queue.hpp:37-44 | returns the value in the cell `pop_ptr` hands over and frees that cell; on an empty queue returns none and changes nothing |
| `PtrQueueSpec.Push` | lockfree_ptr_queue.hpp:47-49 | `push_ptr` of a fresh cell holding `x`: appended on success; on failure the fresh cell is freed and the live cells are as before |
| `PtrQueueSpec.PopTakesOldest` | lockfree_ptr_queue.hpp:37-44 | by value the queue is a FIFO: `pop` yields the oldest value and the remaining values keep their order |
| `PtrQueueSpec.PushAppends` | lockfree_ptr_queue.hpp:47-49 | a successful `push(x)` puts `x` after the queued values; a failed one leaves the values unchanged |
| `PtrQueueSpec.PushThenPopRoundTrip` | lockfree_ptr_queue.hpp:37-49 | on an empty queue a successful `push(x)` then `pop()` gives `x` and leaves the queue empty and the live cells as they were |
| `PtrQueueSpec.Drain` | lockfree_ptr_queue.hpp:13-15 | the destructor's `while (pop());` terminates with the queue empty, the custody invariant intact and nothing newly allocated |
| `PtrQueueSpec.DrainFreesQueued` | lockfree_ptr_queue.hpp:13-15 | the destructor frees exactly the queued cells, in FIFO order; with the invariant, each is freed once |
| `PtrQueueSpec.DrainKeepsOthers` | lockfree_ptr_queue.hpp:13-15 | the destructor frees no cell the queue did not own |
| `PtrQueueSpec.AccountedRun` | lockfree_ptr_queue.hpp:30-49 | along any by-value run, every cell allocated since the start is either queued or freed, and the caller's cells are untouched |
| `PtrQueueSpec.ByValueUseNeverLeaks` | lockfree_ptr_queue.hpp:13-49 | start with an empty queue, issue any pushes and pops by value, then destroy the queue: the live cells are exactly the ones there were before, every cell allocated along the way is freed, and none is freed twice |
| `LockfreePtrQueues.LockfreePtrQueue.constructor` | lockfree_ptr_queue.hpp:12 | a new queue is empty and satisfies the invariant over any valid free store |
| `LockfreePtrQueues.LockfreePtrQueue.PopPtr` | lockfree_ptr_queue.hpp:17-24 | the method's effect and result are those of `PtrQueueSpec.PopPtr` |
| `LockfreePtrQueues.LockfreePtrQueue.PushPtr` | lockfree_ptr_queue.hpp:26-34 | the effect and result are those of `PtrQueueSpec.PushPtr`; the failed case deletes the cell |
| `LockfreePtrQueues.LockfreePtrQueue.Pop` | lockfree_ptr_queue.hpp:37-44 | the effect and result are those of `PtrQueueSpec.Pop` |
| `LockfreePtrQueues.LockfreePtrQueue.Push` | lockfree_ptr_queue.hpp:47-49 | the effect and result are those of `PtrQueueSpec.Push` |
| `LockfreePtrQueues.LockfreePtrQueue.Drain` | lockfree_ptr_queue.hpp:13-15 | the `while (pop());` loop ends with the queue empty, in the state `PtrQueueSpec.Drain` describes |
| `WaitFlags.AfterSet` | lockfree-experiment.cpp:280-296 | `set` leaves the flag raised; on a raised flag it changes nothing, so there is no notify; only the false-to-true transition notifies, once |
| `WaitFlags.AfterWait` | lockfree-experiment.cpp:263-278 | `wait` returns exactly when the flag is raised and lowers it (fast path); otherwise it would block and nothing changes |
| `WaitFlags.SetIsIdempotent` | lockfree-experiment.cpp:284 | a second `set` has no effect |
| `WaitFlags.SetsCoalesce` | lockfree-experiment.cpp:280-296 | any run of n ≥ 1 `set` calls leaves the state a single `set` leaves |
| `WaitFlags.Coalescing` | lockfree-experiment.cpp:263-296 | after n ≥ 1 `set`s, exactly one `wait` returns and the next would block; the flag ends lowered; one notify happens if the flag was lowered before, none otherwise |
| `WaitFlags.NoLostWakeup` | lockfree-experiment.cpp:263-296 | whatever came before, a `wait` that follows at least one `set` returns, with the flag lowered |
| `WaitFlags.WaitFlag.constructor` | lockfree-experiment.cpp:260 | the flag starts at the given value, false by default |
| `WaitFlags.WaitFlag.Wait` | lockfree-experiment.cpp:263-278 | the method's effect and outcome are those of `AfterWait` |
| `WaitFlags.WaitFlag.Set` | lockfree-experiment.cpp:280-296 | the method's effect is that of `AfterSet` |
| `QueueSpec.LockfreeStep` | lockfree-experiment.cpp:309-329 | push reports the structure's outcome, appends only when accepted, and raises the flag either way; pop and empty leave the flag alone; wait, wakeup and empty leave the contents alone; wakeup raises the flag |
| `QueueSpec.MutexStep` | lockfree-experiment.cpp:348-399 | push always reports true, appends `x` and raises the flag, leaving a raised flag as it was; pop returns the front and removes only it, or reports none on empty with nothing changed, and never touches the flag; wait keeps the contents, returns exactly when the flag was raised and leaves it lowered; empty is a pure query; wakeup raises the flag without touching the contents |
| `QueueSpec.RedundantSignalsChangeNoFlag` | lockfree-experiment.cpp:352-357 | in both variants, push and wakeup on a raised flag change neither the flag nor the notify count |
| `QueueSpec.FailedPushDiffers` | lockfree-experiment.cpp:309-313 | a refused lock-free push reports false and keeps the contents, where the mutex push reports true and appends; both leave the same flag |
| `QueueSpec.StepsAgree` | lockfree-experiment.cpp:300-400 | apart from a refused push, one call has the same effect and response in both variants |
| `QueueSpec.VariantsAgree` | lockfree-experiment.cpp:300-400 | when the lock-free structure accepts every push, any sequence of calls gives identical responses and final states in the two variants |
| `QueueSpec.FlagsAlwaysAgree` | lockfree-experiment.cpp:300-400 | even with refused pushes, the same calls leave both variants with the same flag and notify count, and every `wait` returns or blocks alike |
| `QueueSpec.LockfreeKeepsEveryValue` | lockfree-experiment.cpp:309-317 | lock-free variant: the initial contents followed by the accepted pushed values equal the popped values followed by the final contents; nothing is lost or duplicated and order is FIFO |
| `QueueSpec.MutexKeepsEveryValue` | lockfree-experiment.cpp:348-370 | the same for the mutex variant, where every pushed value counts |
| `LockfreeQueue.Queue.constructor` | lockfree-experiment.cpp:307 | a new queue is empty with the flag lowered |
| `LockfreeQueue.Queue.Push` | lockfree-experiment.cpp:309-313 | effect and result are those of `LockfreeStep` on push, with the structure's outcome as result |
| `LockfreeQueue.Queue.Pop` | lockfree-experiment.cpp:315-317 | effect and result are those of `LockfreeStep` on pop: the oldest element is removed and returned, or None with nothing changed |
| `LockfreeQueue.Queue.Empty` | lockfree-experiment.cpp:319-321 | reports exactly whether the contents are empty |
| `LockfreeQueue.Queue.Wait` | lockfree-experiment.cpp:323-325 | effect and outcome are those of `LockfreeStep` on wait: a raised flag is lowered and the call returns |
| `LockfreeQueue.Queue.Wakeup` | lockfree-experiment.cpp:327-329 | effect is that of `LockfreeStep` on wakeup: the flag is raised |
| `MutexQueue.Queue.constructor` | lockfree-experiment.cpp:344 | a new queue is empty; its flag starts at the value given, since the source leaves it uninitialised |
| `MutexQueue.Queue.Push` | lockfree-experiment.cpp:348-360 | effect and result are those of `MutexStep` on push |
| `MutexQueue.Queue.Pop` | lockfree-experiment.cpp:362-370 | effect and result are those of `MutexStep` on pop |
| `MutexQueue.Queue.Empty` | lockfree-experiment.cpp:372-375 | reports exactly whether the contents are empty, changing nothing |
| `MutexQueue.Queue.Wait` | lockfree-experiment.cpp:377-389 | effect and outcome are those of `MutexStep` on wait |
| `MutexQueue.Queue.Wakeup` | lockfree-experiment.cpp:391-399 | effect is that of `MutexStep` on wakeup |
| `DurationFormat.Decimal` | lockfree-experiment.cpp:52 | a number streamed in decimal is a non-empty string of digits with no leading zero; zero prints as "0" |
| `DurationFormat.DecimalRoundTrip` | lockfree-experiment.cpp:52 | the decimal text reads back as the number printed |
| `DurationFormat.FormatDuration` | lockfree-experiment.cpp:46-54 | the printed duration always has the form digits, point, digits, and reads back as `ticks/resolution` and `ticks%resolution`; neither part is zero-padded (a part starting with '0' is exactly "0"), so for every input the text is the unpadded one, e.g. "1.5" and never "1.005" for 1005 at 1000 |
| `DurationFormat.FormatParseRoundTrip` | lockfree-experiment.cpp:46-54 | the two numbers the printed duration reads back as give back the tick count, once the resolution is known |
| `DurationFormat.NoZeroPadding` | lockfree-experiment.cpp:52 | 1005 ticks at resolution 1000 print as "1.5" |
| `DurationFormat.FormatDurationMisreads` | lockfree-experiment.cpp:52 | read as a decimal number, the printed "1.5" is 1.5, not 1005/1000 |
| `DurationFormat.PaddedReadsExactly` | lockfree-experiment.cpp:46-54 | with the remainder zero-padded to the resolution's width, the text read as a decimal equals ticks / 10^digits exactly |

## Findings

| source | as written | input that shows it | evidently intended | confidence | as-written member | corrected member |
|---|---|---|---|---|---|---|
| lockfree-experiment.cpp:52 | the remainder `ticks % resolution` is streamed without leading zeros | 1005 ticks at resolution 1000 print "1.5", which reads as 1.5 units instead of 1.005 | the remainder padded with zeros to the width of the resolution, so that "1.005" is printed | likely; not executed | `DurationFormat.FormatDurationMisreads` | `DurationFormat.PaddedReadsExactly` |

The corrected formatter is `DurationFormat.FormatDurationPadded`. It covers resolutions that are powers of ten, which are the ones the standard clocks use.

## Left out

- Atomics, memory orders, the mutex, the condition variable, `notify_one`, and the empty lock/unlock in `set` are left out. They are concurrency, and this model is sequential. A `notify_one` appears only as a ghost count.
- WaitFlags.WaitFlag.Wait: the slow path and its spurious-wakeup loop are not modelled. A lone caller on a lowered flag can only block, so the method returns `false` and changes nothing. The lemmas state the wakeup that a concurrent `set` would bring.
- LockfreeQueue.Queue.Wait: as for `WaitFlag.Wait`, blocking is the outcome `false`.
- MutexQueue.Queue.Wait: the `while (!m_flag) m_event.wait(lock);` loop is replaced by the outcome `false`, since no other thread can raise the flag in a sequential model.
- The internals of `boost::lockfree::queue` are left out because it is a foreign library. Its push outcome is left open, and its `size` argument, which only preallocates nodes, is ignored.
- The caller's later destruction of a `unique_ptr` returned by `pop_ptr` happens outside the queue and is not modelled. The cell simply stays live and caller-owned.
- The allocator's reuse of addresses is not modelled. Handles are never reused, so a handle names one allocation.
- The `T&` out-parameter of `pop(T& x)` is modelled as an `Option<T>` result. `None` stands for `false` with `x` untouched.
- `main` is left out, because it is I/O, timing and concurrency. This covers the signal handlers, `exit_handler`, the `quit` flag, thread creation and joins, sleeps, `make_payload` and the producer and consumer loops.
- The `DBG_TRACE` event classes, `trace`, `print_all`, the visitors, `dump_trace` and `time_point` printing are left out. They are diagnostics and clock reads.
- DurationFormat.FormatDuration: negative tick counts are not modelled. C++ truncating division would print them as, for example, "-1.-5". 64-bit `intmax_t` overflow is not modelled either. Ticks are natural numbers and the resolution is positive.
