/**
 * The C++ free store, reduced to what ownership transfer needs: which cells
 * are live and what they hold, which handle the next `new` returns, and the
 * log of `delete`s. Handles are never reused, so a handle names exactly one
 * allocation and "freed exactly once" means "appears at most once in the log".
 */
module Heaps {
  /** The address of a heap cell, as returned by `new T`. */
  type Handle = nat

  datatype HeapState<T> = HeapState(cells: map<Handle, T>, next: Handle, freed: seq<Handle>)

  predicate Distinct(s: seq<Handle>) {
    forall i, j | 0 <= i < j < |s| :: s[i] != s[j]
  }

  function Elems(s: seq<Handle>): set<Handle> {
    set a | a in s
  }

  /** Every live cell and every freed cell was allocated; no cell is both live and freed, none is freed twice. */
  predicate WellFormed<T>(h: HeapState<T>) {
    (forall a | a in h.cells :: a < h.next) &&
    (forall i | 0 <= i < |h.freed| :: h.freed[i] < h.next && h.freed[i] !in h.cells) &&
    Distinct(h.freed)
  }

  /** `new T(x)`: a cell that was neither live nor freed before now holds `x`. */
  function Alloc<T>(h: HeapState<T>, x: T): (r: (HeapState<T>, Handle))
    requires WellFormed(h)
    ensures WellFormed(r.0)
    ensures r.1 !in h.cells && r.1 !in h.freed
    ensures r.0.cells == h.cells[r.1 := x] && r.0.freed == h.freed && r.0.next == h.next + 1
  {
    (HeapState(h.cells[h.next := x], h.next + 1, h.freed), h.next)
  }

  /** `delete a`: only a live cell may be freed, so no cell is freed twice. */
  function Free<T>(h: HeapState<T>, a: Handle): (r: HeapState<T>)
    requires WellFormed(h) && a in h.cells
    ensures WellFormed(r)
    ensures a !in h.freed && a !in r.cells
    ensures r.cells == h.cells - {a} && r.freed == h.freed + [a] && r.next == h.next
  {
    HeapState(h.cells - {a}, h.next, h.freed + [a])
  }

  /** The free store as the program sees it. */
  class Arena<T> {
    var cells: map<Handle, T>
    var next: Handle
    ghost var freed: seq<Handle>

    ghost function State(): HeapState<T>
      reads this
    {
      HeapState(cells, next, freed)
    }

    ghost predicate Valid()
      reads this
    {
      WellFormed(State())
    }

    constructor ()
      ensures Valid() && State() == HeapState(map[], 0, [])
    {
      cells, next, freed := map[], 0, [];
    }

    method New(x: T) returns (a: Handle)
      requires Valid()
      modifies this
      ensures Valid() && (State(), a) == Alloc(old(State()), x)
    {
      a := next;
      cells := cells[a := x];
      next := next + 1;
    }

    method Delete(a: Handle)
      requires Valid() && a in cells
      modifies this
      ensures Valid() && State() == Free(old(State()), a)
    {
      cells := cells - {a};
      freed := freed + [a];
    }

    method Read(a: Handle) returns (x: T)
      requires a in cells
      ensures x == cells[a]
    {
      x := cells[a];
    }
  }
}
