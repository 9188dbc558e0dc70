/** The synchronization objects and scope guards as objects; each method is tied to its step in Guards. */
module Scopes {
  import opened Options
  import opened Guards

  const WORD := 0x1_0000_0000  // one past the largest unsigned

  class Semaphore {
    const id: Target
    var permits: nat

    constructor (id: Target, permits: nat)
      ensures this.id == id && this.permits == permits
    {
      this.id, this.permits := id, permits;
    }

    // acquire returns only from a state with a permit; waiting for one is left to the scheduler.
    method Acquire()
      requires permits > 0
      modifies this
      ensures permits == old(permits) - 1
    {
      permits := permits - 1;
    }

    method Release()
      modifies this
      ensures permits == old(permits) + 1
    {
      permits := permits + 1;
    }
  }

  class SemaphoreScope {
    var sem: Semaphore?

    ghost function Value(): Handle
      reads this
    {
      Handle(if sem == null then None else Some(sem.id), false, false)
    }

    constructor Acquire(sem: Semaphore)
      requires sem.permits > 0
      modifies sem
      ensures Value() == Fresh(sem.id) && this.sem == sem && sem.permits == old(sem.permits) - 1
    {
      this.sem := sem;
      new;
      sem.Acquire();
    }

    constructor MoveFrom(other: SemaphoreScope)
      modifies other
      ensures Value() == old(other.Value()) && sem == old(other.sem) && other.Value() == MovedFrom(Releasing)
    {
      sem := other.sem;
      new;
      other.sem := null;
    }

    // The destructor does the same.
    method Release()
      modifies this, sem
      ensures Value() == Settled(Releasing, old(Value()), ByDrop)
      ensures old(sem) != null ==> old(sem).permits == old(sem.permits) + 1
    {
      if sem != null {
        sem.Release();
        sem := null;
      }
    }

    method MoveAssign(other: SemaphoreScope)
      modifies this, other, sem
      ensures this == other ==> sem == old(sem) && (sem != null ==> sem.permits == old(sem.permits))
      ensures this != other ==> Value() == old(other.Value()) && sem == old(other.sem)
      ensures this != other ==> other.Value() == MovedFrom(Releasing)
      ensures this != other && old(sem) != null ==> old(sem).permits == old(sem.permits) + 1
    {
      if this != other {
        Release();
        sem := other.sem;
        other.sem := null;
      }
    }
  }

  class WaitGroup {
    const id: Target
    var count: nat

    constructor (id: Target, init: nat)
      requires init < WORD
      ensures this.id == id && count == init
    {
      this.id, count := id, init;
    }

    method Add(n: nat)
      requires n < WORD && count < WORD
      modifies this
      ensures count == (old(count) + n) % WORD < WORD
      ensures old(count) + n < WORD ==> count == old(count) + n
    {
      count := (count + n) % WORD;
    }

    // woken tells whether it notified all waiters.
    method Release() returns (done: bool, woken: bool)
      modifies this
      ensures count == if old(count) == 0 then 0 else old(count) - 1
      ensures done == (count == 0) && woken == (old(count) == 1)
    {
      if count == 0 { return true, false; }
      count := count - 1;
      if count == 0 { return true, true; }
      return false, false;
    }
  }

  class GroupScope {
    var wg: WaitGroup?

    ghost function Value(): Handle
      reads this
    {
      Handle(if wg == null then None else Some(wg.id), false, false)
    }

    constructor Over(wg: WaitGroup)
      ensures Value() == Fresh(wg.id) && this.wg == wg
    {
      this.wg := wg;
    }

    constructor MoveFrom(other: GroupScope)
      modifies other
      ensures Value() == old(other.Value()) && wg == old(other.wg) && other.Value() == MovedFrom(Releasing)
    {
      wg := other.wg;
      new;
      other.wg := null;
    }

    method Release()
      modifies this, wg
      ensures Value() == Settled(Releasing, old(Value()), ByDrop)
      ensures old(wg) != null ==> old(wg).count == if old(wg.count) == 0 then 0 else old(wg.count) - 1
    {
      if wg != null {
        var _, _ := wg.Release();
        wg := null;
      }
    }

    method MoveAssign(other: GroupScope)
      modifies this, other, wg
      ensures this == other ==> wg == old(wg) && (wg != null ==> wg.count == old(wg.count))
      ensures this != other ==> Value() == old(other.Value()) && wg == old(other.wg)
      ensures this != other ==> other.Value() == MovedFrom(Releasing)
      ensures this != other && old(wg) != null ==>
                old(wg).count == if old(wg.count) == 0 then 0 else old(wg.count) - 1
    {
      if this != other {
        Release();
        wg := other.wg;
        other.wg := null;
      }
    }
  }

  class Barrier {
    const id: Target
    var arrivals: nat  // arrive_and_wait and arrive_and_drop together
    var leavers: nat   // arrive_and_drop alone

    constructor (id: Target)
      ensures this.id == id && arrivals == 0 && leavers == 0
    {
      this.id, arrivals, leavers := id, 0, 0;
    }

    method ArriveAndWait()
      modifies this
      ensures arrivals == old(arrivals) + 1 && leavers == old(leavers)
    {
      arrivals := arrivals + 1;
    }

    method ArriveAndDrop()
      modifies this
      ensures arrivals == old(arrivals) + 1 && leavers == old(leavers) + 1
    {
      arrivals, leavers := arrivals + 1, leavers + 1;
    }
  }

  class BarrierScope {
    var barrier: Barrier?
    var dropped: bool
    var waited: bool

    ghost function Value(): Handle
      reads this
    {
      Handle(if barrier == null then None else Some(barrier.id), dropped, waited)
    }

    // A null barrier is never followed: it always comes with the dropped flag.
    ghost predicate Valid()
      reads this
    {
      barrier == null ==> dropped
    }

    constructor Over(barrier: Barrier)
      ensures Valid() && Value() == Fresh(barrier.id) && this.barrier == barrier
    {
      this.barrier, dropped, waited := barrier, false, false;
    }

    constructor MoveFrom(other: BarrierScope)
      requires other.Valid()
      modifies other
      ensures Valid() && Value() == old(other.Value()) && barrier == old(other.barrier)
      ensures other.Valid() && other.Value() == MovedFrom(Arriving)
    {
      barrier, dropped, waited := other.barrier, other.dropped, other.waited;
      new;
      other.barrier, other.dropped, other.waited := null, true, true;
    }

    method Drop()
      requires Valid()
      modifies this, barrier
      ensures Valid() && Value() == Settled(Arriving, old(Value()), ByDrop) && barrier == old(barrier)
      ensures waited == old(waited) && (dropped <==> old(dropped) || !old(waited))
      ensures barrier != null ==>
                var arrives := if Armed(Arriving, old(Value())) then 1 else 0;
                barrier.arrivals == old(barrier.arrivals) + arrives && barrier.leavers == old(barrier.leavers) + arrives
    {
      if !dropped && !waited {
        barrier.ArriveAndDrop();
        dropped := true;
      }
    }

    method Wait()
      requires Valid()
      modifies this, barrier
      ensures Valid() && Value() == Settled(Arriving, old(Value()), ByWait) && barrier == old(barrier)
      ensures dropped == old(dropped) && (waited <==> old(waited) || !old(dropped))
      ensures barrier != null ==>
                var arrives := if Armed(Arriving, old(Value())) then 1 else 0;
                barrier.arrivals == old(barrier.arrivals) + arrives && barrier.leavers == old(barrier.leavers)
    {
      if !dropped && !waited {
        barrier.ArriveAndWait();
        waited := true;
      }
    }

    // The destructor.
    method Destroy()
      requires Valid()
      modifies barrier
      ensures barrier != null ==>
                var arrives := if Armed(Arriving, old(Value())) then 1 else 0;
                barrier.arrivals == old(barrier.arrivals) + arrives && barrier.leavers == old(barrier.leavers)
    {
      if !dropped && !waited { barrier.ArriveAndWait(); }
    }

    method MoveAssign(other: BarrierScope)
      requires Valid() && other.Valid()
      modifies this, other, barrier
      ensures Valid() && other.Valid()
      ensures this == other ==> Value() == old(Value()) && barrier == old(barrier)
      ensures this != other ==> Value() == old(other.Value()) && other.Value() == MovedFrom(Arriving)
      ensures old(barrier) != null ==>
                var drops := if this != other && Armed(Arriving, old(Value())) then 1 else 0;
                && old(barrier).arrivals == old(barrier.arrivals) + drops
                && old(barrier).leavers == old(barrier.leavers) + drops
    {
      if this == other { return; }
      Drop();
      barrier, dropped, waited := other.barrier, other.dropped, other.waited;
      other.barrier, other.dropped, other.waited := null, true, true;
    }
  }
}
