/**
 * `WaitFlag`: a coalescing readiness bit. `set` raises the bit with a
 * compare-and-swap and notifies the waiter only when it actually changed it;
 * `wait` returns with the bit lowered. Seen one call at a time, a `wait` on a
 * lowered bit can only block, so it ends in an explicit "would block" outcome
 * that changes nothing. `notifies` counts the `notify_one` calls.
 */
module WaitFlags {
  datatype FlagState = FlagState(raised: bool, notifies: nat)

  /** `set`: compare-and-swap false -> true; notify only on that transition. */
  function AfterSet(s: FlagState): (r: FlagState)
    ensures r.raised
    ensures s.raised ==> r == s
    ensures !s.raised ==> r.notifies == s.notifies + 1
  {
    if s.raised then s else FlagState(true, s.notifies + 1)
  }

  datatype WaitResult = WaitResult(after: FlagState, woke: bool)

  /** `wait`: returns exactly when the bit is raised, and lowers it; otherwise would block. */
  function AfterWait(s: FlagState): (r: WaitResult)
    ensures r.woke <==> s.raised
    ensures r.woke ==> !r.after.raised && r.after.notifies == s.notifies
    ensures !r.woke ==> r.after == s
  {
    if s.raised then WaitResult(FlagState(false, s.notifies), true) else WaitResult(s, false)
  }

  lemma SetIsIdempotent(s: FlagState)
    ensures AfterSet(AfterSet(s)) == AfterSet(s)
  {
  }

  datatype FlagOp = SetOp | WaitOp

  datatype FlagTrace = FlagTrace(after: FlagState, wokes: seq<bool>)

  /** Runs `ops` from `s`; `wokes` records, for each `wait`, whether it returned. */
  function RunFlag(s: FlagState, ops: seq<FlagOp>): (t: FlagTrace)
    ensures |t.wokes| <= |ops|
    decreases |ops|
  {
    if ops == [] then
      FlagTrace(s, [])
    else
      match ops[0]
      case SetOp => RunFlag(AfterSet(s), ops[1..])
      case WaitOp =>
        var w := AfterWait(s);
        var t := RunFlag(w.after, ops[1..]);
        FlagTrace(t.after, [w.woke] + t.wokes)
  }

  function Sets(n: nat): (ops: seq<FlagOp>)
    ensures |ops| == n && forall i | 0 <= i < n :: ops[i] == SetOp
  {
    seq(n, _ => SetOp)
  }

  /** However many `set`s arrive in a row, they leave the state one `set` leaves. */
  lemma {:induction false} SetsCoalesce(s: FlagState, n: nat, rest: seq<FlagOp>)
    requires n >= 1
    ensures RunFlag(s, Sets(n) + rest) == RunFlag(AfterSet(s), rest)
    decreases n
  {
    var ops := Sets(n) + rest;
    assert ops[0] == SetOp && ops[1..] == Sets(n - 1) + rest;
    if n > 1 {
      SetsCoalesce(AfterSet(s), n - 1, rest);
      SetIsIdempotent(s);
    }
  }

  /**
   * Coalescing: after any number n >= 1 of `set`s, exactly one `wait` returns
   * and the next would block; the flag ends lowered, and the `set`s notified
   * once if the flag was lowered before them and not at all otherwise.
   */
  lemma Coalescing(s: FlagState, n: nat)
    requires n >= 1
    ensures RunFlag(s, Sets(n) + [WaitOp, WaitOp]).wokes == [true, false]
    ensures !RunFlag(s, Sets(n) + [WaitOp, WaitOp]).after.raised
    ensures RunFlag(s, Sets(n) + [WaitOp, WaitOp]).after.notifies == s.notifies + (if s.raised then 0 else 1)
  {
    SetsCoalesce(s, n, [WaitOp, WaitOp]);
    var s1 := AfterSet(s);
    assert RunFlag(s1, [WaitOp, WaitOp]) == FlagTrace(FlagState(false, s1.notifies), [true, false]) by {
      assert [WaitOp, WaitOp][1..] == [WaitOp];
      assert RunFlag(FlagState(false, s1.notifies), [WaitOp]) == FlagTrace(FlagState(false, s1.notifies), [false]) by {
        assert [WaitOp][1..] == [];
      }
    }
  }

  /** Running `a` then `b` is running `b` from where `a` left off. */
  lemma {:induction false} RunFlagAppend(s: FlagState, a: seq<FlagOp>, b: seq<FlagOp>)
    ensures RunFlag(s, a + b).after == RunFlag(RunFlag(s, a).after, b).after
    ensures RunFlag(s, a + b).wokes == RunFlag(s, a).wokes + RunFlag(RunFlag(s, a).after, b).wokes
    decreases |a|
  {
    if a == [] {
      assert a + b == b;
    } else {
      assert (a + b)[0] == a[0] && (a + b)[1..] == a[1..] + b;
      match a[0] {
        case SetOp => RunFlagAppend(AfterSet(s), a[1..], b);
        case WaitOp => RunFlagAppend(AfterWait(s).after, a[1..], b);
      }
    }
  }

  /**
   * No lost wakeup: whatever happened before, a `wait` that follows at least
   * one `set` returns, and lowers the flag.
   */
  lemma NoLostWakeup(s: FlagState, before: seq<FlagOp>, n: nat)
    requires n >= 1
    ensures RunFlag(s, before + Sets(n) + [WaitOp]).wokes == RunFlag(s, before).wokes + [true]
    ensures !RunFlag(s, before + Sets(n) + [WaitOp]).after.raised
  {
    var mid := RunFlag(s, before).after;
    RunFlagAppend(s, before, Sets(n) + [WaitOp]);
    assert before + Sets(n) + [WaitOp] == before + (Sets(n) + [WaitOp]);
    SetsCoalesce(mid, n, [WaitOp]);
    assert RunFlag(AfterSet(mid), [WaitOp]) == FlagTrace(FlagState(false, AfterSet(mid).notifies), [true]) by {
      assert [WaitOp][1..] == [];
    }
  }

  class WaitFlag {
    var raised: bool
    ghost var notifies: nat

    ghost function State(): FlagState
      reads this
    {
      FlagState(raised, notifies)
    }

    constructor (value: bool := false)
      ensures State() == FlagState(value, 0)
    {
      raised, notifies := value, 0;
    }

    method Wait() returns (woke: bool)
      modifies this
      ensures AfterWait(old(State())) == WaitResult(State(), woke)
    {
      if !raised {
        // the slow path would sleep on the condition variable until a `set`
        woke := false;
        return;
      }
      raised := false;
      woke := true;
    }

    method Set()
      modifies this
      ensures State() == AfterSet(old(State()))
    {
      var expected := false;
      if raised == expected {
        raised := true;
        notifies := notifies + 1;
      }
    }
  }
}
