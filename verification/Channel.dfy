/** The queue every pipeline variant implements, as a value with its history.
    The ring class refines it and the thread model steps it, so both speak of the same updates. */
module Channel {

  // What became of an item that left the queue: handed to a consumer, or deleted by a drop or a clear.
  datatype Fate = Delivered | Deleted

  datatype Removal<+T> = Removal(item: T, fate: Fate)

  datatype Channel<T> = Channel(queue: seq<T>, accepted: seq<T>, removed: seq<Removal<T>>)

  // The condition variable an operation notifies once it has changed the ring.
  datatype Wake = NoWake | WakeOutput | WakeInput

  // What an operation writes to the descriptor of a notifying pipeline.
  datatype Signal = NoSignal | Raise | Lower

  // What the virtual full() does: wait on input_ (pipeline, notify_pipeline), drop the head (drop_pipeline),
  // or throw (throw_pipeline).
  datatype FullRule = WaitForRoom | DropOldest | ThrowFull

  function Items<T>(removed: seq<Removal<T>>): (items: seq<T>)
    ensures |items| == |removed|
    ensures forall i :: 0 <= i < |removed| ==> items[i] == removed[i].item
  {
    seq(|removed|, i requires 0 <= i < |removed| => removed[i].item)
  }

  // Items that left with the given fate, oldest first.
  function WithFate<T>(removed: seq<Removal<T>>, fate: Fate): seq<T> {
    if removed == [] then []
    else
      var front := WithFate(removed[..|removed| - 1], fate);
      var last := removed[|removed| - 1];
      if last.fate == fate then front + [last.item] else front
  }

  // First in, first out, and nothing lost: accepted items are the removed ones followed by the queued ones.
  ghost predicate Conserved<T>(c: Channel<T>) {
    c.accepted == Items(c.removed) + c.queue
  }

  function Insert<T>(c: Channel<T>, x: T): Channel<T> {
    Channel(c.queue + [x], c.accepted + [x], c.removed)
  }

  function TakeHead<T>(c: Channel<T>, fate: Fate): Channel<T>
    requires c.queue != []
  {
    Channel(c.queue[1..], c.accepted, c.removed + [Removal(c.queue[0], fate)])
  }

  // Remove everything from the head, deleting each item.
  function Drain<T>(c: Channel<T>): (d: Channel<T>)
    ensures d.queue == []
    decreases |c.queue|
  {
    if c.queue == [] then c else Drain(TakeHead(c, Deleted))
  }

  // push on a ring with room: consumers are told only of the first item.
  function PushWake(count: nat): Wake { if count == 0 then WakeOutput else NoWake }

  function PushSignal(count: nat): Signal { if count == 0 then Raise else NoSignal }

  // pull and drop: producers are told only when the ring stops being full.
  function TakeWake(count: nat, cap: nat): Wake { if count == cap then WakeInput else NoWake }

  function PullSignal(count: nat): Signal { if count == 1 then Lower else NoSignal }

  /** Notifications are given on edges only: when the ring stops being empty, stops being full, or becomes empty. */
  lemma NotifiesOnEdges<T>(c: Channel<T>, x: T, fate: Fate, cap: nat)
    requires |c.queue| <= cap
    ensures PushWake(|c.queue|) == (if c.queue == [] then WakeOutput else NoWake)
    ensures PushSignal(|c.queue|) == (if c.queue == [] then Raise else NoSignal)
    ensures c.queue != [] ==>
              var d := TakeHead(c, fate);
              && TakeWake(|c.queue|, cap) == (if |c.queue| == cap && |d.queue| < cap then WakeInput else NoWake)
              && PullSignal(|c.queue|) == (if d.queue == [] then Lower else NoSignal)
  {
  }

  lemma InsertConserves<T>(c: Channel<T>, x: T)
    requires Conserved(c)
    ensures Conserved(Insert(c, x))
  {
    assert Items(c.removed) + (c.queue + [x]) == (Items(c.removed) + c.queue) + [x];
  }

  lemma TakeHeadConserves<T>(c: Channel<T>, fate: Fate)
    requires Conserved(c) && c.queue != []
    ensures Conserved(TakeHead(c, fate))
  {
    assert Items(c.removed + [Removal(c.queue[0], fate)]) == Items(c.removed) + [c.queue[0]];
    assert c.queue == [c.queue[0]] + c.queue[1..];
  }

  lemma {:induction false} DrainConserves<T>(c: Channel<T>)
    requires Conserved(c)
    ensures Conserved(Drain(c)) && Drain(c).accepted == c.accepted
    decreases |c.queue|
  {
    if c.queue != [] {
      TakeHeadConserves(c, Deleted);
      DrainConserves(TakeHead(c, Deleted));
    }
  }

  // A drain deletes exactly the queued items, in queue order, after whatever was removed before.
  lemma {:induction false} DrainRemoves<T>(c: Channel<T>)
    ensures |Drain(c).removed| == |c.removed| + |c.queue|
    ensures Drain(c).removed[..|c.removed|] == c.removed
    ensures forall i :: 0 <= i < |c.queue| ==> Drain(c).removed[|c.removed| + i] == Removal(c.queue[i], Deleted)
    decreases |c.queue|
  {
    if c.queue != [] {
      var next := TakeHead(c, Deleted);
      DrainRemoves(next);
      var gone := Drain(c).removed;
      assert gone[..|c.removed|] == gone[..|next.removed|][..|c.removed|] == c.removed;
      forall i | 0 <= i < |c.queue|
        ensures gone[|c.removed| + i] == Removal(c.queue[i], Deleted)
      {
        if i == 0 {
          assert gone[..|next.removed|][|c.removed|] == next.removed[|c.removed|];
        } else {
          assert gone[|next.removed| + (i - 1)] == Removal(next.queue[i - 1], Deleted);
        }
      }
    }
  }

  lemma {:induction false} FatesPartition<T>(removed: seq<Removal<T>>)
    ensures multiset(Items(removed)) == multiset(WithFate(removed, Delivered)) + multiset(WithFate(removed, Deleted))
  {
    if removed != [] {
      var front := removed[..|removed| - 1];
      FatesPartition(front);
      assert Items(removed) == Items(front) + [removed[|removed| - 1].item];
    }
  }

  // An item is listed under a fate as often as it met that fate.
  lemma {:induction false} WithFateCounts<T>(removed: seq<Removal<T>>, fate: Fate, x: T)
    ensures multiset(WithFate(removed, fate))[x] == multiset(removed)[Removal(x, fate)]
  {
    if removed != [] {
      var front, last := removed[..|removed| - 1], removed[|removed| - 1];
      WithFateCounts(front, fate, x);
      assert removed == front + [last];
    }
  }

  /** Ownership of the items (objects made by new, when T is an object address): each accepted item is queued,
      handed out or deleted, counted with multiplicity. */
  lemma EachItemAccounted<T>(c: Channel<T>)
    requires Conserved(c)
    ensures multiset(c.accepted) ==
            multiset(c.queue) + multiset(WithFate(c.removed, Delivered)) + multiset(WithFate(c.removed, Deleted))
  {
    FatesPartition(c.removed);
    assert multiset(c.accepted) == multiset(Items(c.removed)) + multiset(c.queue);
  }

  // When no item was accepted twice, each is in exactly one of the three states.
  lemma EachItemInOneState<T>(c: Channel<T>, x: T)
    requires Conserved(c) && x in c.accepted
    requires forall i, j :: 0 <= i < j < |c.accepted| ==> c.accepted[i] != c.accepted[j]
    ensures multiset(c.queue)[x] + multiset(WithFate(c.removed, Delivered))[x]
            + multiset(WithFate(c.removed, Deleted))[x] == 1
  {
    EachItemAccounted(c);
    DistinctOnce(c.accepted);
    assert x in multiset(c.accepted);
  }

  lemma {:induction false} DistinctOnce<T>(s: seq<T>)
    requires forall i, j :: 0 <= i < j < |s| ==> s[i] != s[j]
    ensures forall x :: multiset(s)[x] <= 1
  {
    if s != [] {
      var front := s[..|s| - 1];
      DistinctOnce(front);
      assert s == front + [s[|s| - 1]];
      assert s[|s| - 1] !in front;
    }
  }

  // The last n elements of s, or all of it when it is shorter.
  function LastN<T>(s: seq<T>, n: nat): seq<T> {
    if |s| <= n then s else s[|s| - n..]
  }

  // An accepted push of a dropping pipeline: a full ring loses its oldest item first.
  function Slide<T>(c: Channel<T>, x: T, cap: nat): (d: Channel<T>)
    requires cap > 0 && |c.queue| <= cap
    ensures |d.queue| <= cap
  {
    Insert(if |c.queue| < cap then c else TakeHead(c, Deleted), x)
  }

  lemma SlideIsLastN<T>(c: Channel<T>, x: T, cap: nat)
    requires cap > 0 && |c.queue| <= cap
    ensures Slide(c, x, cap).queue == LastN(c.queue + [x], cap)
  {
    if |c.queue| == cap {
      assert c.queue[1..] + [x] == (c.queue + [x])[1..];
    }
  }

  function PushAll<T>(c: Channel<T>, items: seq<T>, cap: nat): (d: Channel<T>)
    requires cap > 0 && |c.queue| <= cap
    ensures |d.queue| <= cap
  {
    if items == [] then c else Slide(PushAll(c, items[..|items| - 1], cap), items[|items| - 1], cap)
  }

  /** A dropping pipeline is a sliding window: pushes with no removals between them leave the last cap items of
      what was queued and pushed. */
  lemma {:induction false} SlidingWindow<T>(c: Channel<T>, items: seq<T>, cap: nat)
    requires cap > 0 && |c.queue| <= cap
    ensures PushAll(c, items, cap).queue == LastN(c.queue + items, cap)
    ensures PushAll(c, items, cap).accepted == c.accepted + items
  {
    if items == [] {
      assert c.queue + items == c.queue;
    } else {
      hide LastN, Slide;
      var front, last := items[..|items| - 1], [items[|items| - 1]];
      var before := PushAll(c, front, cap);
      SlidingWindow(c, front, cap);
      SlideIsLastN(before, last[0], cap);
      SlideAccepts(before, last[0], cap);
      LastNOfLastN(c.queue + front, last, cap);
      assert items == front + last;
      assert c.queue + items == (c.queue + front) + last;
      assert c.accepted + items == (c.accepted + front) + last;
    }
  }

  lemma SlideAccepts<T>(c: Channel<T>, x: T, cap: nat)
    requires cap > 0 && |c.queue| <= cap
    ensures Slide(c, x, cap).accepted == c.accepted + [x]
  {
  }

  lemma LastNOfLastN<T>(a: seq<T>, b: seq<T>, n: nat)
    ensures LastN(LastN(a, n) + b, n) == LastN(a + b, n)
  {
    if |a| > n {
      assert LastN(a, n) + b == (a + b)[|a| - n..];
    }
  }
}
