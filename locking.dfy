/**
 * MyMutex: a std::recursive_mutex behind a switch. Only the bookkeeping is
 * modelled: the switch and how many times the calling thread holds the
 * mutex; blocking and other threads are not.
 */
module Locking {
  import opened Common

  datatype LockEvent = Acquire | Release

  /**
   * The hold count after one event on a mutex whose switch is `enabled`;
   * None when an enabled mutex is released while not held (undefined for
   * std::recursive_mutex).
   */
  function Step(enabled: bool, holds: nat, e: LockEvent): Option<nat>
  {
    if !enabled then Some(holds)
    else match e
      case Acquire => Some(holds + 1)
      case Release => if holds == 0 then None else Some(holds - 1)
  }

  /** The hold count after a sequence of events, or None once one of them is undefined. */
  function Run(enabled: bool, holds: nat, events: seq<LockEvent>): Option<nat>
  {
    if events == [] then Some(holds)
    else match Run(enabled, holds, events[..|events| - 1])
      case None => None
      case Some(h) => Step(enabled, h, events[|events| - 1])
  }

  /** Acquisitions minus releases. */
  function Balance(events: seq<LockEvent>): int
  {
    if events == [] then 0
    else Balance(events[..|events| - 1]) + (if events[|events| - 1] == Acquire then 1 else -1)
  }

  /** No prefix releases more than `holds` plus what it acquired. */
  ghost predicate NeverBelow(holds: nat, events: seq<LockEvent>)
  {
    forall i :: 0 <= i <= |events| ==> holds + Balance(events[..i]) >= 0
  }

  /** While the switch is off, lock and unlock change nothing, in any number and order. */
  lemma {:induction false} DisabledRunChangesNothing(holds: nat, events: seq<LockEvent>)
    ensures Run(false, holds, events) == Some(holds)
  {
    if events != [] {
      DisabledRunChangesNothing(holds, events[..|events| - 1]);
    }
  }

  /**
   * While the switch is on, the hold count moves by one per event, and a
   * sequence is defined exactly when it never releases more than it holds.
   */
  lemma {:induction false} EnabledRunCounts(holds: nat, events: seq<LockEvent>)
    ensures Run(true, holds, events) == if NeverBelow(holds, events) then Some(holds + Balance(events)) else None
  {
    if events == [] {
      assert events[..0] == [];
    } else {
      var init := events[..|events| - 1];
      EnabledRunCounts(holds, init);
      assert events[..|events|] == events;
      forall i | 0 <= i <= |init|
        ensures events[..i] == init[..i]
      {
      }
      if NeverBelow(holds, events) {
        assert NeverBelow(holds, init);
      } else if NeverBelow(holds, init) {
        var i :| 0 <= i <= |events| && holds + Balance(events[..i]) < 0;
        assert i == |events|;
      }
    }
  }

  /**
   * Properly nested use (the guards of Batch::Write and the Batch::Clear it
   * calls, say) returns the hold count to where it started, switch on or off.
   */
  lemma BalancedUseRestores(enabled: bool, holds: nat, events: seq<LockEvent>)
    requires NeverBelow(holds, events) && Balance(events) == 0
    ensures Run(enabled, holds, events) == Some(holds)
  {
    if enabled {
      EnabledRunCounts(holds, events);
    } else {
      DisabledRunChangesNothing(holds, events);
    }
  }

  class MyMutex {
    /** m_need_mutex */
    var needMutex: bool
    /** How many times the calling thread holds m_mutex. */
    var holds: nat

    constructor()
      ensures !needMutex && holds == 0
    {
      needMutex := false;
      holds := 0;
    }

    method Lock()
      modifies this
      ensures needMutex == old(needMutex)
      ensures Some(holds) == Step(old(needMutex), old(holds), Acquire)
    {
      if needMutex {
        holds := holds + 1;
      }
    }

    /**
     * `busy` says whether another thread owns m_mutex at the moment, which
     * is outside this model.
     */
    method TryLock(busy: bool) returns (ok: bool)
      modifies this
      ensures needMutex == old(needMutex)
      ensures ok == (!needMutex || !busy)
      ensures holds == if needMutex && !busy then old(holds) + 1 else old(holds)
    {
      if needMutex {
        ok := !busy;
        if ok {
          holds := holds + 1;
        }
      } else {
        ok := true;
      }
    }

    method Unlock()
      requires needMutex ==> holds > 0
      modifies this
      ensures needMutex == old(needMutex)
      ensures Some(holds) == Step(old(needMutex), old(holds), Release)
    {
      if needMutex {
        holds := holds - 1;
      }
    }

    /** lvldb_batch_set_need_lock: flip the switch while holding m_mutex itself. */
    method SetNeedLock(b: bool)
      modifies this
      ensures needMutex == b && holds == old(holds)
    {
      holds := holds + 1;
      needMutex := b;
      holds := holds - 1;
    }
  }
}
