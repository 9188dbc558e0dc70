/** The scope guards of sync.hpp as values: what constructing, moving, discharging and destroying them does to the
    obligation each one carries. */
module Guards {
  import opened Options

  type Id = nat
  type Target = nat

  // semaphore_scope and group_scope hold an address and forget it once released; barrier_scope keeps it and sets
  // one of two flags.
  datatype Kind = Releasing | Arriving

  datatype Handle = Handle(target: Option<Target>, dropped: bool, waited: bool)

  datatype How = ByDrop | ByWait

  // The test each class makes before it acts on its target.
  predicate Armed(kind: Kind, h: Handle) {
    match kind
    case Releasing => h.target.Some?
    case Arriving => !h.dropped && !h.waited
  }

  function Fresh(t: Target): Handle { Handle(Some(t), false, false) }

  // What a move leaves behind.
  function MovedFrom(kind: Kind): Handle {
    match kind
    case Releasing => Handle(None, false, false)
    case Arriving => Handle(None, true, true)
  }

  // A handle after release, drop or wait.
  function Settled(kind: Kind, h: Handle, how: How): Handle {
    if !Armed(kind, h) then h
    else match kind
      case Releasing => h.(target := None)
      case Arriving => if how == ByDrop then h.(dropped := true) else h.(waited := true)
  }

  datatype Op =
    | Construct(id: Id, target: Target)
    | MoveConstruct(id: Id, from: Id)
    | MoveAssign(id: Id, from: Id)
    | Settle(id: Id, how: How)
    | Destroy(id: Id)

  // made and spent count, per target, the guards constructed on it and the releases or arrivals it received.
  datatype World = World(handles: map<Id, Handle>, made: multiset<Target>, spent: multiset<Target>)

  predicate Allowed(w: World, op: Op) {
    match op
    case Construct(id, _) => id !in w.handles
    case MoveConstruct(id, from) => id !in w.handles && from in w.handles
    case MoveAssign(id, from) => id in w.handles && from in w.handles
    case Settle(id, _) => id in w.handles
    case Destroy(id) => id in w.handles
  }

  // What acting on a handle brings its target: one release or arrival if it is armed. An armed handle without a
  // target would follow a null address here, which Safe rules out.
  function Discharged(kind: Kind, h: Handle): multiset<Target> {
    if Armed(kind, h) && h.target.Some? then multiset{h.target.value} else multiset{}
  }

  function Spend(kind: Kind, w: World, id: Id): multiset<Target>
    requires id in w.handles
  {
    w.spent + Discharged(kind, w.handles[id])
  }

  function Apply(kind: Kind, w: World, op: Op): World
    requires Allowed(w, op)
  {
    match op
    case Construct(id, t) => w.(handles := w.handles[id := Fresh(t)], made := w.made + multiset{t})
    case MoveConstruct(id, from) => w.(handles := w.handles[id := w.handles[from]][from := MovedFrom(kind)])
    case MoveAssign(id, from) =>
      if id == from then w
      else World(w.handles[id := w.handles[from]][from := MovedFrom(kind)], w.made, Spend(kind, w, id))
    case Settle(id, how) =>
      World(w.handles[id := Settled(kind, w.handles[id], how)], w.made, Spend(kind, w, id))
    case Destroy(id) => World(w.handles - {id}, w.made, Spend(kind, w, id))
  }

  ghost function Live(kind: Kind, handles: map<Id, Handle>, t: Target): set<Id> {
    set id | id in handles && Armed(kind, handles[id]) && handles[id].target == Some(t)
  }

  // A handle without a target is never armed, so no guard follows a null address.
  ghost predicate Safe(kind: Kind, w: World) {
    forall id :: id in w.handles && w.handles[id].target == None ==>
      !Armed(kind, w.handles[id]) && (kind == Arriving ==> w.handles[id].dropped)
  }

  ghost predicate Balanced(kind: Kind, w: World) {
    forall t :: w.made[t] == w.spent[t] + |Live(kind, w.handles, t)|
  }

  lemma ApplyKeepsSafe(kind: Kind, w: World, op: Op)
    requires Allowed(w, op) && Safe(kind, w)
    ensures Safe(kind, Apply(kind, w, op))
  {
  }

  /** What each operation does to obligations, said of who is armed and who was paid. A constructed guard is armed on
      its target. A move hands the obligation over whole, disarms the source, and first discharges what the destination
      held. Settling or destroying discharges once and leaves nothing armed. No other guard is touched. */
  lemma ObligationsMove(kind: Kind, w: World, op: Op)
    requires Allowed(w, op)
    ensures var u := Apply(kind, w, op);
            match op
            case Construct(id, t) =>
              && id in u.handles && Armed(kind, u.handles[id]) && u.handles[id].target == Some(t)
              && u.made == w.made + multiset{t} && u.spent == w.spent && u.handles - {id} == w.handles
            case MoveConstruct(id, from) =>
              && id in u.handles && from in u.handles && u.handles[id] == w.handles[from]
              && !Armed(kind, u.handles[from]) && u.made == w.made && u.spent == w.spent
              && u.handles - {id, from} == w.handles - {id, from}
            case MoveAssign(id, from) =>
              if id == from then u == w
              else
                && id in u.handles && from in u.handles && u.handles[id] == w.handles[from]
                && !Armed(kind, u.handles[from]) && u.made == w.made
                && u.spent == w.spent + Discharged(kind, w.handles[id])
                && u.handles - {id, from} == w.handles - {id, from}
            case Settle(id, _) =>
              && id in u.handles && !Armed(kind, u.handles[id]) && u.made == w.made
              && u.spent == w.spent + Discharged(kind, w.handles[id]) && u.handles - {id} == w.handles - {id}
            case Destroy(id) =>
              && id !in u.handles && u.made == w.made
              && u.spent == w.spent + Discharged(kind, w.handles[id]) && u.handles == w.handles - {id}
  {
  }

  // Overwriting id takes it off its target and puts it on the new one.
  lemma LiveUpdate(kind: Kind, handles: map<Id, Handle>, id: Id, h: Handle, t: Target)
    ensures var live := Live(kind, handles, t);
            Live(kind, handles[id := h], t) ==
            if Armed(kind, h) && h.target == Some(t) then live + {id} else live - {id}
  {
  }

  lemma LiveRemove(kind: Kind, handles: map<Id, Handle>, id: Id, t: Target)
    ensures Live(kind, handles - {id}, t) == Live(kind, handles, t) - {id}
  {
  }

  // Acting on a guard reaches t just when the guard was armed on t.
  lemma SpendCounts(kind: Kind, w: World, id: Id, t: Target)
    requires id in w.handles && Safe(kind, w)
    ensures Spend(kind, w, id)[t] == w.spent[t] + if id in Live(kind, w.handles, t) then 1 else 0
  {
  }

  lemma MoveLive(kind: Kind, w: World, id: Id, from: Id, t: Target)
    requires from in w.handles && id != from
    ensures var moved := w.handles[id := w.handles[from]][from := MovedFrom(kind)]; var was := Live(kind, w.handles, t);
            Live(kind, moved, t) == (if from in was then was + {id} else was - {id}) - {from}
  {
    LiveUpdate(kind, w.handles, id, w.handles[from], t);
    LiveUpdate(kind, w.handles[id := w.handles[from]], from, MovedFrom(kind), t);
  }

  lemma MoveBalances(kind: Kind, w: World, id: Id, from: Id, t: Target)
    requires from in w.handles && id != from && Safe(kind, w)
    requires w.made[t] == w.spent[t] + |Live(kind, w.handles, t)|
    ensures var moved := w.handles[id := w.handles[from]][from := MovedFrom(kind)];
            var spent := if id in w.handles then Spend(kind, w, id) else w.spent;
            w.made[t] == spent[t] + |Live(kind, moved, t)|
  {
    var was := Live(kind, w.handles, t);
    assert id in was ==> id in w.handles;
    hide Live, Safe, Spend;
    if id in w.handles { SpendCounts(kind, w, id, t); }
    MoveLive(kind, w, id, from, t);
    MoveCount(was, id, from);
  }

  lemma MoveCount(s: set<Id>, id: Id, from: Id)
    requires id != from
    ensures |(if from in s then s + {id} else s - {id}) - {from}| == |s| - if id in s then 1 else 0
  {
    if from in s {
      assert s + {id} - {from} == s - {id} - {from} + {id};
    } else {
      assert s - {id} - {from} == s - {id};
    }
  }

  lemma ConstructBalances(kind: Kind, w: World, id: Id, target: Target, t: Target)
    requires id !in w.handles && w.made[t] == w.spent[t] + |Live(kind, w.handles, t)|
    ensures (w.made + multiset{target})[t] == w.spent[t] + |Live(kind, w.handles[id := Fresh(target)], t)|
  {
    LiveUpdate(kind, w.handles, id, Fresh(target), t);
    assert id !in Live(kind, w.handles, t);
  }

  // Settling or destroying a guard: it is armed no more, and reached its target if it was.
  lemma EndBalances(kind: Kind, w: World, id: Id, live: set<Id>, t: Target)
    requires id in w.handles && Safe(kind, w) && live == Live(kind, w.handles, t) - {id}
    requires w.made[t] == w.spent[t] + |Live(kind, w.handles, t)|
    ensures w.made[t] == Spend(kind, w, id)[t] + |live|
  {
    hide Live, Safe, Spend;
    SpendCounts(kind, w, id, t);
  }

  lemma ApplyBalances(kind: Kind, w: World, op: Op, t: Target)
    requires Allowed(w, op) && Safe(kind, w)
    requires w.made[t] == w.spent[t] + |Live(kind, w.handles, t)|
    ensures var u := Apply(kind, w, op); u.made[t] == u.spent[t] + |Live(kind, u.handles, t)|
  {
    hide Live, Safe, Spend;
    match op {
      case Construct(id, target) => ConstructBalances(kind, w, id, target, t);
      case MoveConstruct(id, from) => MoveBalances(kind, w, id, from, t);
      case MoveAssign(id, from) => if id != from { MoveBalances(kind, w, id, from, t); }
      case Settle(id, how) =>
        LiveUpdate(kind, w.handles, id, Settled(kind, w.handles[id], how), t);
        EndBalances(kind, w, id, Live(kind, w.handles, t) - {id}, t);
      case Destroy(id) =>
        LiveRemove(kind, w.handles, id, t);
        EndBalances(kind, w, id, Live(kind, w.handles, t) - {id}, t);
    }
  }

  // The worlds that a sequence of operations goes through, starting without guards.
  ghost predicate Run(kind: Kind, ops: seq<Op>, worlds: seq<World>) {
    && |worlds| == |ops| + 1 && worlds[0] == World(map[], multiset{}, multiset{})
    && forall i :: 0 <= i < |ops| ==> Allowed(worlds[i], ops[i]) && worlds[i + 1] == Apply(kind, worlds[i], ops[i])
  }

  /** However guards are moved, each constructed guard is spent exactly once: what was made on a target is what it
      received plus the guards still armed on it. */
  lemma {:induction false} EachSpentOnce(kind: Kind, ops: seq<Op>, worlds: seq<World>, i: nat)
    requires Run(kind, ops, worlds) && i < |worlds|
    ensures Safe(kind, worlds[i]) && Balanced(kind, worlds[i])
  {
    if i == 0 {
      forall t ensures Live(kind, worlds[0].handles, t) == {} {}
    } else {
      EachSpentOnce(kind, ops, worlds, i - 1);
      assert Allowed(worlds[i - 1], ops[i - 1]) && worlds[i - 1 + 1] == Apply(kind, worlds[i - 1], ops[i - 1]);
      ApplyKeepsSafe(kind, worlds[i - 1], ops[i - 1]);
      forall t ensures worlds[i].made[t] == worlds[i].spent[t] + |Live(kind, worlds[i].handles, t)| {
        ApplyBalances(kind, worlds[i - 1], ops[i - 1], t);
      }
    }
  }

  // Once no guard is left armed, every target has received exactly what was made on it.
  lemma AllSpent(kind: Kind, ops: seq<Op>, worlds: seq<World>, i: nat)
    requires Run(kind, ops, worlds) && i < |worlds|
    requires forall id :: id in worlds[i].handles ==> !Armed(kind, worlds[i].handles[id])
    ensures worlds[i].spent == worlds[i].made
  {
    EachSpentOnce(kind, ops, worlds, i);
    forall t ensures worlds[i].made[t] == worlds[i].spent[t] {
      assert Live(kind, worlds[i].handles, t) == {};
    }
  }

  // ------------------------------------------------------------------------------------------------- permits

  // Semaphores, which semaphore_scope guards take a permit from when they are constructed.
  datatype Pool = Pool(world: World, permits: multiset<Target>)

  // acquire returns only when it found a permit.
  predicate Admitted(p: Pool, op: Op) {
    Allowed(p.world, op) && (op.Construct? ==> op.target in p.permits)
  }

  function PoolAfter(p: Pool, op: Op): Pool
    requires Admitted(p, op)
  {
    var permits := match op
      case Construct(_, t) => p.permits - multiset{t}
      case MoveConstruct(_, _) => p.permits
      case MoveAssign(id, from) =>
        if id == from then p.permits else p.permits + Discharged(Releasing, p.world.handles[id])
      case Settle(id, _) => p.permits + Discharged(Releasing, p.world.handles[id])
      case Destroy(id) => p.permits + Discharged(Releasing, p.world.handles[id]);
    Pool(Apply(Releasing, p.world, op), permits)
  }

  ghost predicate PoolRun(start: multiset<Target>, ops: seq<Op>, pools: seq<Pool>) {
    && |pools| == |ops| + 1 && pools[0] == Pool(World(map[], multiset{}, multiset{}), start)
    && forall i :: 0 <= i < |ops| ==> Admitted(pools[i], ops[i]) && pools[i + 1] == PoolAfter(pools[i], ops[i])
  }

  lemma {:induction false} PermitsBalance(start: multiset<Target>, ops: seq<Op>, pools: seq<Pool>, i: nat, t: Target)
    requires PoolRun(start, ops, pools) && i < |pools|
    ensures pools[i].permits[t] + pools[i].world.made[t] == start[t] + pools[i].world.spent[t]
  {
    if i > 0 {
      PermitsBalance(start, ops, pools, i - 1, t);
      assert Admitted(pools[i - 1], ops[i - 1]) && pools[i - 1 + 1] == PoolAfter(pools[i - 1], ops[i - 1]);
    }
  }

  lemma WorldsOf(start: multiset<Target>, ops: seq<Op>, pools: seq<Pool>)
    requires PoolRun(start, ops, pools)
    ensures Run(Releasing, ops, seq(|pools|, i requires 0 <= i < |pools| => pools[i].world))
  {
    var worlds := seq(|pools|, i requires 0 <= i < |pools| => pools[i].world);
    forall i | 0 <= i < |ops|
      ensures Allowed(worlds[i], ops[i]) && worlds[i + 1] == Apply(Releasing, worlds[i], ops[i])
    {
      assert Admitted(pools[i], ops[i]) && pools[i + 1] == PoolAfter(pools[i], ops[i]);
    }
  }

  /** Permits and the guards still holding one add up to the initial permits, for every semaphore, however guards are
      moved, overwritten and destroyed. */
  lemma PermitsPlusScopes(start: multiset<Target>, ops: seq<Op>, pools: seq<Pool>, i: nat, t: Target)
    requires PoolRun(start, ops, pools) && i < |pools|
    ensures pools[i].permits[t] + |Live(Releasing, pools[i].world.handles, t)| == start[t]
  {
    WorldsOf(start, ops, pools);
    PermitsBalance(start, ops, pools, i, t);
    EachSpentOnce(Releasing, ops, seq(|pools|, k requires 0 <= k < |pools| => pools[k].world), i);
  }
}
