/** The pipeline object itself: a fixed array used as a ring. Each method is one critical section; where the source
    waits on a condition variable the method answers Waits or Starved, and the thread model takes over. */
module Ring {
  import opened Channel

  datatype PushOutcome = Accepted | Refused | Waits | Throws

  datatype PullOutcome<+T> = Got(item: T) | Shut | Starved

  // The slot a ring index falls on, written without division.
  function Wrap(a: nat, n: nat): (r: nat)
    requires a < 2 * n
    ensures r < n
  {
    if a < n then a else a - n
  }

  lemma ModIsWrap(a: nat, n: nat)
    requires a < 2 * n
    ensures a % n == Wrap(a, n)
  {
  }

  // How many slots after head a slot comes, going round.
  function Rank(head: nat, slot: nat, cap: nat): (r: nat)
    requires head < cap && slot < cap
    ensures r < cap && slot == Wrap(head + r, cap)
  {
    if head <= slot then slot - head else slot + cap - head
  }

  lemma RankAfterAdvance(head: nat, slot: nat, cap: nat)
    requires head < cap && slot < cap
    ensures Rank(Wrap(head + 1, cap), slot, cap) == if slot == head then cap - 1 else Rank(head, slot, cap) - 1
  {
  }

  class Pipeline<T> {
    const cap: nat
    const blank: T         // T{}, or a null address when T is one
    const full: FullRule
    const data: array<T>
    var head: nat
    var tail: nat
    var count: nat
    var closed: bool
    ghost var chan: Channel<T>

    /** Reading the ring from head gives the queue and then blanks all the way round. */
    ghost predicate Valid()
      reads this, data
    {
      && 0 < cap == data.Length && head < cap && count <= cap
      && tail == Wrap(head + count, cap)
      && |chan.queue| == count
      && (forall slot :: 0 <= slot < cap ==>
            data[slot] == if Rank(head, slot, cap) < count then chan.queue[Rank(head, slot, cap)] else blank)
      && Conserved(chan)
    }

    constructor (cap: nat, blank: T, full: FullRule)
      requires cap > 0
      ensures Valid() && fresh(data)
      ensures this.cap == cap && this.blank == blank && this.full == full
      ensures chan == Channel([], [], []) && !closed
    {
      this.cap, this.blank, this.full := cap, blank, full;
      data := new T[cap](i => blank);
      head, tail, count, closed := 0, 0, 0, false;
      chan := Channel([], [], []);
    }

    // Empties the head slot and moves on; fate records whether the item was moved out or deleted.
    method AdvanceHead(ghost fate: Fate)
      requires Valid() && count > 0
      modifies this`head, this`count, this`chan, data
      ensures Valid() && chan == TakeHead(old(chan), fate)
    {
      TakeHeadConserves(chan, fate);
      ModIsWrap(head + 1, cap);
      ghost var from, queue := head, chan.queue;
      data[head] := blank;
      head := (head + 1) % cap;
      count := count - 1;
      chan := TakeHead(chan, fate);
      forall slot | 0 <= slot < cap
        ensures data[slot] == if Rank(head, slot, cap) < count then chan.queue[Rank(head, slot, cap)] else blank
      {
        RankAfterAdvance(from, slot, cap);
      }
    }

    method DropHead(notify: bool) returns (ok: bool, wake: Wake)
      requires Valid()
      modifies this`head, this`count, this`chan, data
      ensures Valid() && ok == (old(count) > 0)
      ensures chan == if ok then TakeHead(old(chan), Deleted) else old(chan)
      ensures wake == if ok && notify then WakeInput else NoWake
    {
      if count == 0 { return false, NoWake; }
      AdvanceHead(Deleted);
      return true, if notify then WakeInput else NoWake;
    }

    method Drop() returns (ok: bool, wake: Wake)
      requires Valid()
      modifies this`head, this`count, this`chan, data
      ensures Valid() && ok == (old(count) > 0)
      ensures chan == if ok then TakeHead(old(chan), Deleted) else old(chan)
      ensures wake == if ok then TakeWake(old(count), cap) else NoWake
    {
      ok, wake := DropHead(count == cap);
    }

    method DropIf() returns (ok: bool, wake: Wake)
      requires Valid()
      modifies this`head, this`count, this`chan, data
      ensures Valid() && ok == (old(count) == cap)
      ensures chan == if ok then TakeHead(old(chan), Deleted) else old(chan)
      ensures wake == if ok then WakeInput else NoWake
    {
      if count == cap {
        ok, wake := DropHead(true);
      } else {
        ok, wake := false, NoWake;
      }
    }

    method Clear() returns (wake: Wake)
      requires Valid()
      modifies this`head, this`count, this`chan, data
      ensures Valid() && chan == Drain(old(chan))
      ensures forall i :: 0 <= i < cap ==> data[i] == blank
      ensures wake == if old(count) > 0 && !closed then WakeInput else NoWake
    {
      var prior := count;
      while count > 0
        invariant Valid() && count <= prior
        invariant Drain(chan) == Drain(old(chan))
        modifies this`head, this`count, this`chan, data
        decreases count
      {
        var _, _ := DropHead(false);
      }
      wake := if prior > count && !closed then WakeInput else NoWake;
    }

    // tellsAll: whether it notifies every sleeper of both condition variables. Its clear then notifies nobody.
    method Close() returns (tellsAll: bool)
      requires Valid()
      modifies this`closed, this`head, this`count, this`chan, data
      ensures Valid() && closed && tellsAll == !old(closed)
      ensures chan == if old(closed) then old(chan) else Drain(old(chan))
    {
      tellsAll := !closed;
      closed := true;
      if tellsAll {
        var wake := Clear();
        assert wake == NoWake;
      }
    }

    /** The retry loop of push. passes counts its iterations. */
    method Push(x: T) returns (r: PushOutcome, wake: Wake, signal: Signal, ghost passes: nat)
      requires Valid()
      modifies this`head, this`tail, this`count, this`chan, data
      ensures Valid() && passes <= 2
      ensures r == if closed then Refused
                   else if old(count) < cap || full == DropOldest then Accepted
                   else if full == WaitForRoom then Waits else Throws
      ensures r != Accepted ==> chan == old(chan) && wake == NoWake && signal == NoSignal
      ensures r == Accepted ==>
                && chan == Slide(old(chan), x, cap)
                && chan.queue == LastN(old(chan).queue + [x], cap)
                && wake == PushWake(|chan.queue| - 1) && signal == PushSignal(|chan.queue| - 1)
    {
      passes := 0;
      SlideIsLastN(chan, x, cap);
      while !closed
        invariant Valid()
        invariant passes == 0 ==> chan == old(chan)
        invariant passes > 0 ==> passes == 1 && !closed && full == DropOldest && old(count) == cap
        invariant passes > 0 ==> chan == TakeHead(old(chan), Deleted)
        decreases 2 - passes
      {
        passes := passes + 1;
        if count < cap {
          Store(x);
          return Accepted, PushWake(count - 1), PushSignal(count - 1), passes;
        }
        match full {
          case WaitForRoom => return Waits, NoWake, NoSignal, passes;
          case ThrowFull => return Throws, NoWake, NoSignal, passes;
          case DropOldest => var _, _ := DropHead(false);
        }
      }
      return Refused, NoWake, NoSignal, passes;
    }

    method Store(x: T)
      requires Valid() && count < cap
      modifies this`tail, this`count, this`chan, data
      ensures Valid() && chan == Insert(old(chan), x)
    {
      data[tail] := x;
      ModIsWrap(tail + 1, cap);
      tail := (tail + 1) % cap;
      count := count + 1;
      InsertConserves(chan, x);
      chan := Insert(chan, x);
    }

    method Pull() returns (r: PullOutcome<T>, wake: Wake, signal: Signal)
      requires Valid()
      modifies this`head, this`count, this`chan, data
      ensures Valid()
      ensures r == if closed then Shut else if old(count) > 0 then Got(old(chan).queue[0]) else Starved
      ensures chan == if r.Got? then TakeHead(old(chan), Delivered) else old(chan)
      ensures wake == if r.Got? then TakeWake(old(count), cap) else NoWake
      ensures signal == if r.Got? then PullSignal(old(count)) else NoSignal
    {
      wake, signal := NoWake, NoSignal;
      if closed { return Shut, wake, signal; }
      if count == 0 { return Starved, wake, signal; }
      r := Got(data[head]);
      AdvanceHead(Delivered);
      if count + 1 == cap { wake := WakeInput; }
      if count == 0 { signal := Lower; }
    }
  }
}
