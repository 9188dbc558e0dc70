/** Any number of threads calling one pipeline, interleaved at every access to state that the mutex does not
    protect: the closed_ flag and the two condition variables. The mutex is explicit, a wait releases it and
    enqueues in one step, notify_one picks any sleeper, and sleepers may wake spuriously. */
module PipelineThreads {
  import opened Options
  import opened Channel

  type Tid = nat

  datatype Op<+T> = Push(item: T) | Pull | Drop | DropIf | Clear(closing: bool)

  datatype Reply<+T> = Fresh | Pushed | Pulled(item: T) | Dropped | Refused | Thrown | Cleared | Closed

  datatype PC<+T> =
    | Idle(last: Reply<T>)
    | Enter(op: Op<T>)                     // waits for the mutex
    | Check(op: Op<T>)                     // holds the mutex, reads closed_ at the head of the loop
    | Body(op: Op<T>)                      // holds the mutex, reads and updates the ring
    | Tested(dropped: bool, closing: bool) // clear: ring emptied, closed_ not yet read
    | Note(wake: Wake, signal: Signal, reply: Reply<T>) // holds the mutex, notifies, then returns
    | Pred(op: Op<T>)                      // holds the mutex, evaluates the wait predicate
    | Park(op: Op<T>)                      // holds the mutex, the predicate was false
    | Asleep(op: Op<T>)                    // queued on input_ (push) or output_ (pull)
    | Woken(op: Op<T>)                     // left the condition variable, waits for the mutex
    | Swap                                 // close: exchanges closed_
    | TellOutput                           // close: about to notify_all on output_
    | TellInput                            // close: about to notify_all on input_

  // The virtual notify() does nothing, or drives an event descriptor, or a pipe that is read 64 bytes at a time.
  datatype FdKind = NoFd | EventFd | PipeFd

  datatype Fd = Fd(open: bool, tokens: nat)

  datatype Config = Config(cap: nat, full: FullRule, fd: FdKind, producers: set<Tid>, consumers: set<Tid>)

  // Everything but the program counters. drained and returned are history: the closing clear has emptied the
  // ring, the first close has returned.
  datatype Shared<T> = Shared(chan: Channel<T>, closed: bool, lock: Option<Tid>, fd: Fd, drained: bool, returned: bool)

  datatype State<T> = State(g: Shared<T>, pcs: map<Tid, PC<T>>)

  datatype Choice<+T> = Call(op: Op<T>) | CallClose | Proceed | Rouse(sleeper: Tid)

  predicate OnOutput<T>(pc: PC<T>) { pc.Asleep? && pc.op.Pull? }

  predicate OnInput<T>(pc: PC<T>) { pc.Asleep? && pc.op.Push? }

  predicate OnQueue<T>(wake: Wake, pc: PC<T>) {
    match wake
    case NoWake => false
    case WakeOutput => OnOutput(pc)
    case WakeInput => OnInput(pc)
  }

  predicate Holds<T>(pc: PC<T>) {
    pc.Check? || pc.Body? || pc.Tested? || pc.Note? || pc.Pred? || pc.Park?
  }

  // Only producers push and only consumers pull; every thread may drop, clear and close.
  predicate MayCall<T>(cfg: Config, t: Tid, op: Op<T>) {
    match op
    case Push(_) => t in cfg.producers
    case Pull => t in cfg.consumers
    case Clear(closing) => !closing
    case _ => true
  }

  ghost predicate Enabled<T>(cfg: Config, s: State<T>, t: Tid, choice: Choice<T>) {
    t in s.pcs &&
    match s.pcs[t]
    case Idle(_) => choice.CallClose? || (choice.Call? && MayCall(cfg, t, choice.op))
    case Enter(_) => choice.Proceed? && s.g.lock == None
    case Woken(_) => choice.Proceed? && s.g.lock == None
    case Note(wake, _, _) =>
      if exists u :: u in s.pcs && OnQueue(wake, s.pcs[u])
      then choice.Rouse? && choice.sleeper in s.pcs && OnQueue(wake, s.pcs[choice.sleeper])
      else choice.Proceed?
    case _ => choice.Proceed?
  }

  // A descriptor whose clearing read finds nothing is closed by the code.
  function Write(kind: FdKind, fd: Fd, signal: Signal): Fd {
    if kind == NoFd || !fd.open || signal == NoSignal then fd
    else if signal == Raise then fd.(tokens := fd.tokens + 1)
    else if fd.tokens == 0 then fd.(open := false)
    else fd.(tokens := if kind == EventFd || fd.tokens <= 64 then 0 else fd.tokens - 64)
  }

  // One read empties an event descriptor and takes up to 64 tokens from a pipe.
  lemma ReadsOf(n: nat)
    requires n > 0
    ensures Write(EventFd, Fd(true, n), Lower) == Fd(true, 0)
    ensures Write(PipeFd, Fd(true, n + 64), Lower) == Fd(true, n) && Write(PipeFd, Fd(true, 64), Lower) == Fd(true, 0)
    ensures Write(EventFd, Fd(true, n), Raise) == Write(PipeFd, Fd(true, n), Raise) == Fd(true, n + 1)
    ensures !Write(EventFd, Fd(true, 0), Lower).open && !Write(PipeFd, Fd(true, 0), Lower).open
  {
  }

  // The part of an operation that runs on the ring, up to the next access to unprotected state.
  function Update<T>(cfg: Config, g: Shared<T>, op: Op<T>): (Shared<T>, PC<T>) {
    var n := |g.chan.queue|;
    match op
    case Push(x) =>
      if n < cfg.cap then (g.(chan := Insert(g.chan, x)), Note(PushWake(n), PushSignal(n), Pushed))
      else if cfg.full == WaitForRoom then (g, Pred(op))
      else if cfg.full == ThrowFull then (g.(lock := None), Idle(Thrown))
      else if n == 0 then (g, Check(op))
      else (g.(chan := TakeHead(g.chan, Deleted)), Check(op))
    case Pull =>
      if n == 0 then (g, Pred(op))
      else (g.(chan := TakeHead(g.chan, Delivered)),
            Note(TakeWake(n, cfg.cap), PullSignal(n), Pulled(g.chan.queue[0])))
    case Drop =>
      if n == 0 then (g.(lock := None), Idle(Refused))
      else (g.(chan := TakeHead(g.chan, Deleted)), Note(TakeWake(n, cfg.cap), NoSignal, Dropped))
    case DropIf =>
      if n == 0 || n != cfg.cap then (g.(lock := None), Idle(Refused))
      else (g.(chan := TakeHead(g.chan, Deleted)), Note(WakeInput, NoSignal, Dropped))
    case Clear(closing) =>
      (g.(chan := Drain(g.chan), drained := g.drained || closing), Tested(n > 0, closing))
  }

  // What the stepping thread does to the shared state and to its own program counter.
  function Move<T>(cfg: Config, g: Shared<T>, t: Tid, pc: PC<T>, choice: Choice<T>): (Shared<T>, PC<T>) {
    match pc
    case Idle(_) => (g, if choice.Call? then Enter(choice.op) else Swap)
    case Enter(op) => (g.(lock := Some(t)), if op.Push? || op.Pull? then Check(op) else Body(op))
    case Check(op) => if g.closed then (g.(lock := None), Idle(Refused)) else (g, Body(op))
    case Body(op) => Update(cfg, g, op)
    case Tested(dropped, closing) =>
      (g, Note(if dropped && !g.closed then WakeInput else NoWake, NoSignal, if closing then Closed else Cleared))
    case Note(_, signal, reply) =>
      (g.(lock := None, fd := Write(cfg.fd, g.fd, signal), returned := g.returned || reply == Closed), Idle(reply))
    case Pred(op) =>
      var n := |g.chan.queue|;
      (g, if g.closed || (if op.Push? then n < cfg.cap else n > 0) then Check(op) else Park(op))
    case Park(op) => (g.(lock := None), Asleep(op))
    case Asleep(op) => (g, Woken(op))
    case Woken(op) => (g.(lock := Some(t)), Pred(op))
    case Swap => (g.(closed := true), if g.closed then Idle(Refused) else TellOutput)
    case TellOutput => (g, TellInput)
    case TellInput => (g, Enter(Clear(true)))
  }

  // Whether the step of a thread at pc takes the sleeper u off its condition variable.
  predicate Rouses<T>(pc: PC<T>, choice: Choice<T>, u: Tid, sleeper: PC<T>) {
    match pc
    case Note(_, _, _) => choice.Rouse? && choice.sleeper == u
    case TellOutput => OnOutput(sleeper)
    case TellInput => OnInput(sleeper)
    case _ => false
  }

  function Other<T>(pc: PC<T>, choice: Choice<T>, u: Tid, other: PC<T>): PC<T> {
    if other.Asleep? && Rouses(pc, choice, u, other) then Woken(other.op) else other
  }

  function After<T>(cfg: Config, s: State<T>, t: Tid, choice: Choice<T>): (s': State<T>)
    requires t in s.pcs
  {
    var (g, pc) := Move(cfg, s.g, t, s.pcs[t], choice);
    State(g, map u | u in s.pcs :: if u == t then pc else Other(s.pcs[t], choice, u, s.pcs[u]))
  }

  ghost predicate Next<T(!new)>(cfg: Config, s: State<T>, s': State<T>) {
    exists t, choice :: Enabled(cfg, s, t, choice) && s' == After(cfg, s, t, choice)
  }

  ghost predicate Init<T>(cfg: Config, s: State<T>) {
    && cfg.cap > 0
    && cfg.producers != {} && cfg.consumers != {}
    && cfg.producers <= s.pcs.Keys && cfg.consumers <= s.pcs.Keys
    && (forall t :: t in s.pcs ==> s.pcs[t] == Idle(Fresh))
    && s.g == Shared(Channel([], [], []), false, None, Fd(true, 0), false, false)
  }

  ghost predicate Run<T(!new)>(cfg: Config, run: seq<State<T>>) {
    && run != [] && Init(cfg, run[0])
    && forall i :: 0 <= i < |run| - 1 ==> Next(cfg, run[i], run[i + 1])
  }

  // ---------------------------------------------------------------------------------------------- invariants

  predicate UsesLoop<T>(pc: PC<T>) { pc.Check? || pc.Pred? || pc.Park? || pc.Asleep? || pc.Woken? }

  predicate HasOp<T>(pc: PC<T>) { UsesLoop(pc) || pc.Enter? || pc.Body? }

  ghost predicate OpFits<T>(cfg: Config, t: Tid, pc: PC<T>) {
    && (UsesLoop(pc) ==> pc.op.Push? || pc.op.Pull?)
    && (HasOp(pc) && pc.op.Push? ==> t in cfg.producers)
    && (HasOp(pc) && pc.op.Pull? ==> t in cfg.consumers)
    && (cfg.full != WaitForRoom && UsesLoop(pc) && pc.op.Push? ==> pc.Check?)
    && (pc.Note? ==> !pc.reply.Fresh? && !pc.reply.Refused? && !pc.reply.Thrown?)
  }

  // Program counters of a close that has exchanged the flag, and of its clear once the ring is empty.
  predicate ClosingPC<T>(pc: PC<T>) {
    pc.TellOutput? || pc.TellInput? || ((pc.Enter? || pc.Body?) && pc.op.Clear? && pc.op.closing)
  }

  predicate ClosedPC<T>(pc: PC<T>) { (pc.Tested? && pc.closing) || (pc.Note? && pc.reply == Closed) }

  // Program counters at which an operation is committed to changing the ring, or has changed it.
  predicate RingPC<T>(pc: PC<T>) {
    || (pc.Body? && (pc.op.Push? || pc.op.Pull?))
    || (pc.Note? && (pc.reply == Pushed || pc.reply.Pulled? || pc.reply == Dropped))
  }

  // What holds of the thread t at pc, whatever the other threads do.
  ghost predicate ThreadInv<T>(cfg: Config, g: Shared<T>, t: Tid, pc: PC<T>) {
    && (Holds(pc) <==> g.lock == Some(t))
    && OpFits(cfg, t, pc)
    && (pc.Park? ==> |g.chan.queue| == if pc.op.Push? then cfg.cap else 0)
    && (ClosingPC(pc) ==> g.closed)
    && (ClosedPC(pc) ==> g.drained)
    && (g.drained ==> !RingPC(pc))
  }

  // Once the closing clear has run, the flag is set and the ring stays empty.
  ghost predicate SharedInv<T>(cfg: Config, g: Shared<T>) {
    && Conserved(g.chan) && |g.chan.queue| <= cfg.cap
    && (g.returned ==> g.drained)
    && (g.drained ==> g.closed && g.chan.queue == [])
  }

  ghost predicate CoreInv<T>(cfg: Config, s: State<T>) {
    && cfg.cap > 0
    && SharedInv(cfg, s.g)
    && (s.g.lock.Some? ==> s.g.lock.value in s.pcs)
    && forall t :: t in s.pcs ==> ThreadInv(cfg, s.g, t, s.pcs[t])
  }

  // The program counter of the thread that holds the mutex.
  function HolderPC<T>(s: State<T>): PC<T> {
    if s.g.lock.Some? && s.g.lock.value in s.pcs then s.pcs[s.g.lock.value] else Idle(Fresh)
  }

  // Nothing has left the queue except through pull.
  ghost predicate OnlyPulled<T>(c: Channel<T>) {
    forall i :: 0 <= i < |c.removed| ==> c.removed[i].fate == Delivered
  }

  ghost predicate FdInv<T>(c: Channel<T>, fd: Fd, holder: PC<T>) {
    var due := if holder.Note? then holder.signal else NoSignal;
    && fd.open
    && (due == Raise ==> c.queue != [])
    && (due == Lower ==> c.queue == [] && fd.tokens > 0)
    && (c.queue != [] && due != Raise ==> fd.tokens > 0)
    && (OnlyPulled(c) ==>
          fd.tokens == if due == Raise then 0 else if due == Lower || c.queue != [] then 1 else 0)
  }

  // A mutex holder that has changed the ring and not yet told the other side.
  predicate Owes<T>(pc: PC<T>, wake: Wake) {
    (pc.Note? && pc.wake == wake) || (pc.Tested? && pc.dropped && wake == WakeInput)
  }

  // A thread that is awake on its side, or that is on its way to notify that side.
  ghost predicate Helps<T>(group: set<Tid>, wake: Wake, t: Tid, pc: PC<T>) {
    (t in group && !OnQueue(wake, pc)) || Owes(pc, wake)
  }

  ghost predicate Helped<T>(s: State<T>, group: set<Tid>, wake: Wake) {
    exists t :: t in s.pcs && Helps(group, wake, t, s.pcs[t])
  }

  // Open pipelines only: an item or a free slot always has someone awake to use it, or about to be told of it.
  ghost predicate WakeInv<T>(cfg: Config, s: State<T>) {
    !s.g.closed ==>
      && (|s.g.chan.queue| > 0 ==> Helped(s, cfg.consumers, WakeOutput))
      && (|s.g.chan.queue| < cfg.cap ==> Helped(s, cfg.producers, WakeInput))
  }

  // ---------------------------------------------------------------------------------------- one step keeps each

  lemma MoveKeepsShared<T>(cfg: Config, s: State<T>, t: Tid, choice: Choice<T>)
    requires Enabled(cfg, s, t, choice) && cfg.cap > 0 && SharedInv(cfg, s.g) && ThreadInv(cfg, s.g, t, s.pcs[t])
    ensures SharedInv(cfg, After(cfg, s, t, choice).g)
  {
    var c := s.g.chan;
    if s.pcs[t].Body? {
      if s.pcs[t].op.Push? { InsertConserves(c, s.pcs[t].op.item); }
      if c.queue != [] {
        TakeHeadConserves(c, Deleted);
        TakeHeadConserves(c, Delivered);
      }
      DrainConserves(c);
    }
  }

  lemma MoveKeepsOwn<T>(cfg: Config, s: State<T>, t: Tid, choice: Choice<T>)
    requires Enabled(cfg, s, t, choice) && cfg.cap > 0 && SharedInv(cfg, s.g) && ThreadInv(cfg, s.g, t, s.pcs[t])
    ensures ThreadInv(cfg, After(cfg, s, t, choice).g, t, After(cfg, s, t, choice).pcs[t])
  {
  }

  lemma MoveKeepsOther<T>(cfg: Config, s: State<T>, t: Tid, choice: Choice<T>, u: Tid)
    requires Enabled(cfg, s, t, choice) && cfg.cap > 0 && SharedInv(cfg, s.g) && ThreadInv(cfg, s.g, t, s.pcs[t])
    requires u in s.pcs && u != t && ThreadInv(cfg, s.g, u, s.pcs[u])
    ensures ThreadInv(cfg, After(cfg, s, t, choice).g, u, After(cfg, s, t, choice).pcs[u])
  {
  }

  lemma StepKeepsCore<T>(cfg: Config, s: State<T>, t: Tid, choice: Choice<T>)
    requires Enabled(cfg, s, t, choice) && CoreInv(cfg, s)
    ensures CoreInv(cfg, After(cfg, s, t, choice))
  {
    var s' := After(cfg, s, t, choice);
    MoveKeepsShared(cfg, s, t, choice);
    forall u | u in s'.pcs ensures ThreadInv(cfg, s'.g, u, s'.pcs[u]) {
      if u == t { MoveKeepsOwn(cfg, s, t, choice); } else { MoveKeepsOther(cfg, s, t, choice, u); }
    }
  }

  // If only pulls have removed items after an update, the same held before it, and a removing update was a pull.
  lemma UpdateOnlyPulled<T>(cfg: Config, g: Shared<T>, op: Op<T>)
    requires OnlyPulled(Update(cfg, g, op).0.chan)
    ensures OnlyPulled(g.chan)
    ensures op.Pull? || Update(cfg, g, op).0.chan.removed == g.chan.removed
    ensures op.Clear? ==> g.chan.queue == []
  {
    var c, c' := g.chan, Update(cfg, g, op).0.chan;
    DrainRemoves(c);
    forall i | 0 <= i < |c.removed| ensures c.removed[i].fate == Delivered {
      assert c.removed[i] == c'.removed[..|c.removed|][i];
    }
    if |c'.removed| > |c.removed| {
      assert c'.removed[|c.removed|].fate == Delivered;
    }
  }

  // Who holds the mutex after a step of t.
  lemma HolderAfter<T>(cfg: Config, s: State<T>, t: Tid, choice: Choice<T>)
    requires Enabled(cfg, s, t, choice) && CoreInv(cfg, s)
    ensures var pc, s' := s.pcs[t], After(cfg, s, t, choice);
            && (Holds(pc) ==> HolderPC(s) == pc)
            && (HolderPC(s') ==
                if Holds(s'.pcs[t]) then s'.pcs[t] else if Holds(pc) then Idle(Fresh) else HolderPC(s))
            && (Holds(s'.pcs[t]) && !Holds(pc) ==> !s'.pcs[t].Note? && HolderPC(s) == Idle(Fresh))
  {
    assert ThreadInv(cfg, s.g, t, s.pcs[t]);
    if s.g.lock.Some? && s.g.lock.value != t {
      assert ThreadInv(cfg, s.g, s.g.lock.value, s.pcs[s.g.lock.value]);
    }
  }

  // The holder's own steps.
  lemma MoveKeepsFd<T>(cfg: Config, g: Shared<T>, t: Tid, pc: PC<T>, choice: Choice<T>)
    requires Holds(pc) && cfg.fd != NoFd && FdInv(g.chan, g.fd, pc)
    ensures var (g', pc') := Move(cfg, g, t, pc, choice);
            FdInv(g'.chan, g'.fd, if Holds(pc') then pc' else Idle(Fresh))
  {
    if pc.Body? && OnlyPulled(Move(cfg, g, t, pc, choice).0.chan) { UpdateOnlyPulled(cfg, g, pc.op); }
  }

  lemma StepKeepsFd<T>(cfg: Config, s: State<T>, t: Tid, choice: Choice<T>)
    requires Enabled(cfg, s, t, choice) && CoreInv(cfg, s)
    requires cfg.fd != NoFd && FdInv(s.g.chan, s.g.fd, HolderPC(s))
    ensures FdInv(After(cfg, s, t, choice).g.chan, After(cfg, s, t, choice).g.fd, HolderPC(After(cfg, s, t, choice)))
  {
    HolderAfter(cfg, s, t, choice);
    if Holds(s.pcs[t]) {
      hide CoreInv, FdInv, HolderPC, Enabled, Move;
      MoveKeepsFd(cfg, s.g, t, s.pcs[t], choice);
    }
  }

  // A helper stays one, unless it goes to sleep or the notification it owed has been given.
  lemma HelperStays<T>(cfg: Config, s: State<T>, t: Tid, choice: Choice<T>, group: set<Tid>, wake: Wake, h: Tid)
    requires Enabled(cfg, s, t, choice) && CoreInv(cfg, s) && wake != NoWake
    requires h in s.pcs && Helps(group, wake, h, s.pcs[h])
    requires h != t || !(s.pcs[t].Note? || s.pcs[t].Tested? || s.pcs[t].Park?)
    ensures Helped(After(cfg, s, t, choice), group, wake)
  {
    var s' := After(cfg, s, t, choice);
    assert Helps(group, wake, h, s'.pcs[h]);
  }

  // Giving a notification leaves someone of the group awake: the sleeper it woke, or everyone when none slept.
  lemma NoteHelps<T>(cfg: Config, s: State<T>, t: Tid, choice: Choice<T>, group: set<Tid>, wake: Wake)
    requires Enabled(cfg, s, t, choice) && CoreInv(cfg, s)
    requires s.pcs[t].Note? && s.pcs[t].wake == wake != NoWake
    requires group == (if wake == WakeOutput then cfg.consumers else cfg.producers)
    requires group != {} && group <= s.pcs.Keys
    ensures Helped(After(cfg, s, t, choice), group, wake)
  {
    var s' := After(cfg, s, t, choice);
    if choice.Rouse? {
      var u := choice.sleeper;
      assert ThreadInv(cfg, s.g, u, s.pcs[u]);
      assert u != t && s'.pcs[u].Woken?;
      assert Helps(group, wake, u, s'.pcs[u]);
    } else {
      var u :| u in group;
      assert !OnQueue(wake, s.pcs[u]);
      assert Helps(group, wake, u, s'.pcs[u]);
    }
  }

  lemma SideStaysHelped<T>(cfg: Config, s: State<T>, t: Tid, choice: Choice<T>, group: set<Tid>, wake: Wake)
    requires Enabled(cfg, s, t, choice) && CoreInv(cfg, s) && wake != NoWake
    requires group == (if wake == WakeOutput then cfg.consumers else cfg.producers)
    requires group != {} && group <= s.pcs.Keys
    requires Helped(s, group, wake)
    requires !s.g.closed
    requires s.pcs[t].Park? ==> !OnQueue(wake, Asleep(s.pcs[t].op))
    ensures Helped(After(cfg, s, t, choice), group, wake)
  {
    var s' := After(cfg, s, t, choice);
    var h :| h in s.pcs && Helps(group, wake, h, s.pcs[h]);
    if h != t || !(s.pcs[t].Note? || s.pcs[t].Tested? || s.pcs[t].Park?) {
      HelperStays(cfg, s, t, choice, group, wake, h);
    } else if s.pcs[t].Note? && s.pcs[t].wake == wake {
      NoteHelps(cfg, s, t, choice, group, wake);
    } else {
      assert Helps(group, wake, t, s'.pcs[t]);
    }
  }

  lemma StepKeepsWakes<T>(cfg: Config, s: State<T>, t: Tid, choice: Choice<T>)
    requires Enabled(cfg, s, t, choice) && CoreInv(cfg, s) && WakeInv(cfg, s)
    requires cfg.producers != {} && cfg.producers <= s.pcs.Keys
    requires cfg.consumers != {} && cfg.consumers <= s.pcs.Keys
    ensures WakeInv(cfg, After(cfg, s, t, choice))
  {
    var s' := After(cfg, s, t, choice);
    var n, n' := |s.g.chan.queue|, |s'.g.chan.queue|;
    if !s'.g.closed {
      assert ThreadInv(cfg, s.g, t, s.pcs[t]);
      if n' > 0 {
        if n > 0 {
          SideStaysHelped(cfg, s, t, choice, cfg.consumers, WakeOutput);
        } else {
          assert Helps(cfg.consumers, WakeOutput, t, s'.pcs[t]);
        }
      }
      if n' < cfg.cap {
        if n < cfg.cap {
          SideStaysHelped(cfg, s, t, choice, cfg.producers, WakeInput);
        } else {
          assert Helps(cfg.producers, WakeInput, t, s'.pcs[t]);
        }
      }
    }
  }

  // ------------------------------------------------------------------------------------------------ every run

  ghost predicate Inv<T>(cfg: Config, s: State<T>) {
    && cfg.producers != {} && cfg.producers <= s.pcs.Keys
    && cfg.consumers != {} && cfg.consumers <= s.pcs.Keys
    && CoreInv(cfg, s) && WakeInv(cfg, s)
    && (cfg.fd != NoFd ==> FdInv(s.g.chan, s.g.fd, HolderPC(s)))
  }

  lemma InitInv<T>(cfg: Config, s: State<T>)
    requires Init(cfg, s)
    ensures Inv(cfg, s)
  {
    var p :| p in cfg.producers;
    assert Helps(cfg.producers, WakeInput, p, s.pcs[p]);
  }

  lemma NextInv<T(!new)>(cfg: Config, s: State<T>, s': State<T>)
    requires Inv(cfg, s) && Next(cfg, s, s')
    ensures Inv(cfg, s')
  {
    var t, choice :| Enabled(cfg, s, t, choice) && s' == After(cfg, s, t, choice);
    StepKeepsCore(cfg, s, t, choice);
    StepKeepsWakes(cfg, s, t, choice);
    if cfg.fd != NoFd { StepKeepsFd(cfg, s, t, choice); }
    assert s'.pcs.Keys == s.pcs.Keys;
  }

  lemma {:induction false} RunInv<T(!new)>(cfg: Config, run: seq<State<T>>, i: nat)
    requires Run(cfg, run) && i < |run|
    ensures Inv(cfg, run[i])
  {
    if i == 0 {
      InitInv(cfg, run[0]);
    } else {
      RunInv(cfg, run, i - 1);
      assert Next(cfg, run[i - 1], run[i - 1 + 1]);
      NextInv(cfg, run[i - 1], run[i]);
    }
  }

  // ------------------------------------------------------------------------------------------------- theorems

  /** Edge-triggered notification loses nothing. In every reachable open state, unless a mutex holder is just about
      to notify: if all consumers sleep the ring is empty, if all producers sleep it is full, so they never all do. */
  lemma NeverAllAsleep<T(!new)>(cfg: Config, run: seq<State<T>>, i: nat)
    requires Run(cfg, run) && i < |run| && !run[i].g.closed
    ensures forall t :: t in cfg.producers + cfg.consumers ==> t in run[i].pcs
    ensures !Owes(HolderPC(run[i]), WakeOutput) && (forall c :: c in cfg.consumers ==> OnOutput(run[i].pcs[c])) ==>
              run[i].g.chan.queue == []
    ensures !Owes(HolderPC(run[i]), WakeInput) && (forall p :: p in cfg.producers ==> OnInput(run[i].pcs[p])) ==>
              |run[i].g.chan.queue| == cfg.cap
    ensures run[i].g.lock == None && cfg.producers !! cfg.consumers ==>
              exists t :: t in cfg.producers + cfg.consumers && !run[i].pcs[t].Asleep?
  {
    var s := run[i];
    RunInv(cfg, run, i);
    assert forall t :: t in s.pcs ==> ThreadInv(cfg, s.g, t, s.pcs[t]);
    if |s.g.chan.queue| > 0 {
      var h :| h in s.pcs && Helps(cfg.consumers, WakeOutput, h, s.pcs[h]);
      assert Owes(s.pcs[h], WakeOutput) ==> HolderPC(s) == s.pcs[h];
    }
    if |s.g.chan.queue| < cfg.cap {
      var h :| h in s.pcs && Helps(cfg.producers, WakeInput, h, s.pcs[h]);
      assert Owes(s.pcs[h], WakeInput) ==> HolderPC(s) == s.pcs[h];
    }
    if cfg.producers !! cfg.consumers && forall t :: t in cfg.producers + cfg.consumers ==> s.pcs[t].Asleep? {
      forall t | t in cfg.producers + cfg.consumers
        ensures if t in cfg.producers then OnInput(s.pcs[t]) else OnOutput(s.pcs[t])
      {
        assert OpFits(cfg, t, s.pcs[t]) && t in cfg.producers + cfg.consumers;
      }
      assert s.g.lock == None ==> cfg.cap == 0;
    }
  }

  // With one producer and one consumer no wake-up is lost: either sleeps only while the ring gives it nothing to do.
  lemma NoLostWakeup<T(!new)>(cfg: Config, run: seq<State<T>>, i: nat, p: Tid, c: Tid)
    requires Run(cfg, run) && i < |run| && !run[i].g.closed && run[i].g.lock == None
    requires cfg.producers == {p} && cfg.consumers == {c} && p != c
    ensures p in run[i].pcs && c in run[i].pcs
    ensures OnOutput(run[i].pcs[c]) ==> run[i].g.chan.queue == []
    ensures OnInput(run[i].pcs[p]) ==> |run[i].g.chan.queue| == cfg.cap
    ensures !(run[i].pcs[p].Asleep? && run[i].pcs[c].Asleep?)
  {
    NeverAllAsleep(cfg, run, i);
    assert p in cfg.producers + cfg.consumers && c in cfg.producers + cfg.consumers;
  }

  // The mutex holder can always take its next step, and so can any awake producer or consumer when the mutex is
  // free; an idle one may make its next call, with any item x to push.
  lemma AwakeCanStep<T>(cfg: Config, s: State<T>, t: Tid, x: T) returns (choice: Choice<T>)
    requires Inv(cfg, s) && t in s.pcs && !s.pcs[t].Asleep?
    requires s.g.lock == Some(t) || (s.g.lock == None && t in cfg.producers + cfg.consumers)
    ensures Enabled(cfg, s, t, choice) && choice != CallClose
  {
    assert ThreadInv(cfg, s.g, t, s.pcs[t]);
    choice := Proceed;
    if s.pcs[t].Idle? {
      choice := Call(if t in cfg.producers then Push(x) else Pull);
    } else if s.pcs[t].Note? {
      if u :| u in s.pcs && OnQueue(s.pcs[t].wake, s.pcs[u]) { choice := Rouse(u); }
    }
  }

  /** Deadlock freedom: in every reachable open state either the mutex holder can run, or the mutex is free and an
      awake producer or consumer can run. Neither needs a spurious wake-up or a close. */
  lemma DeadlockFree<T(!new)>(cfg: Config, run: seq<State<T>>, i: nat, x: T)
    requires Run(cfg, run) && i < |run| && !run[i].g.closed && cfg.producers !! cfg.consumers
    ensures exists t, choice ::
              && Enabled(cfg, run[i], t, choice) && choice != CallClose && !run[i].pcs[t].Asleep?
              && if run[i].g.lock.Some? then run[i].g.lock == Some(t) else t in cfg.producers + cfg.consumers
  {
    var s := run[i];
    RunInv(cfg, run, i);
    NeverAllAsleep(cfg, run, i);
    var t: Tid;
    if s.g.lock.Some? {
      t := s.g.lock.value;
      assert ThreadInv(cfg, s.g, t, s.pcs[t]);
    } else {
      t :| t in cfg.producers + cfg.consumers && !s.pcs[t].Asleep?;
    }
    var choice := AwakeCanStep(cfg, s, t, x);
  }

  // First in, first out over every run: the ring never overfills, and what was accepted is what left, in order,
  // followed by what is queued; each item is queued, delivered or deleted.
  lemma FifoConservation<T(!new)>(cfg: Config, run: seq<State<T>>, i: nat)
    requires Run(cfg, run) && i < |run|
    ensures var c := run[i].g.chan;
            && c.accepted == Items(c.removed) + c.queue && |c.queue| <= cfg.cap
            && multiset(c.accepted) ==
               multiset(c.queue) + multiset(WithFate(c.removed, Delivered)) + multiset(WithFate(c.removed, Deleted))
  {
    RunInv(cfg, run, i);
    EachItemAccounted(run[i].g.chan);
  }

  lemma UpdateGrowsHistory<T>(cfg: Config, g: Shared<T>, op: Op<T>)
    ensures g.chan.accepted <= Update(cfg, g, op).0.chan.accepted
    ensures g.chan.removed <= Update(cfg, g, op).0.chan.removed
  {
    if op.Clear? {
      DrainRemoves(g.chan);
      DrainAccepts(g.chan);
    }
  }

  lemma StepGrowsHistory<T>(cfg: Config, s: State<T>, t: Tid, choice: Choice<T>)
    requires Enabled(cfg, s, t, choice)
    ensures s.g.chan.accepted <= After(cfg, s, t, choice).g.chan.accepted
    ensures s.g.chan.removed <= After(cfg, s, t, choice).g.chan.removed
    ensures s.g.closed ==> After(cfg, s, t, choice).g.closed
    ensures s.g.returned ==> After(cfg, s, t, choice).g.returned
  {
    if s.pcs[t].Body? { UpdateGrowsHistory(cfg, s.g, s.pcs[t].op); }
  }

  lemma {:induction false} DrainAccepts<T>(c: Channel<T>)
    ensures Drain(c).accepted == c.accepted
    decreases |c.queue|
  {
    if c.queue != [] { DrainAccepts(TakeHead(c, Deleted)); }
  }

  // What was accepted, delivered or deleted stays so for the rest of the run, and closed_ is never reset.
  lemma {:induction false} HistoryGrows<T(!new)>(cfg: Config, run: seq<State<T>>, i: nat, j: nat)
    requires Run(cfg, run) && i <= j < |run|
    ensures run[i].g.chan.accepted <= run[j].g.chan.accepted
    ensures run[i].g.chan.removed <= run[j].g.chan.removed
    ensures run[i].g.closed ==> run[j].g.closed
    ensures run[i].g.returned ==> run[j].g.returned
    decreases j
  {
    if i < j {
      HistoryGrows(cfg, run, i, j - 1);
      assert Next(cfg, run[j - 1], run[j - 1 + 1]);
      var t, choice :| Enabled(cfg, run[j - 1], t, choice) && run[j] == After(cfg, run[j - 1], t, choice);
      StepGrowsHistory(cfg, run[j - 1], t, choice);
    }
  }

  /** Close is final although closed_ is set without the mutex. From the return of the first close on, the ring is
      empty, nothing more is accepted or removed, and no thread is inside a push, pull or drop that can succeed. */
  lemma ClosedForGood<T(!new)>(cfg: Config, run: seq<State<T>>, i: nat, j: nat)
    requires Run(cfg, run) && i <= j < |run| && run[i].g.returned
    ensures run[j].g.closed && run[j].g.chan.queue == []
    ensures run[j].g.chan.accepted == run[i].g.chan.accepted
    ensures run[j].g.chan.removed == run[i].g.chan.removed
    ensures forall t :: t in run[j].pcs ==> !RingPC(run[j].pcs[t])
  {
    SealedStays(cfg, run, i, j);
    RunInv(cfg, run, j);
    assert forall t :: t in run[j].pcs ==> ThreadInv(cfg, run[j].g, t, run[j].pcs[t]);
  }

  lemma SealedNext<T(!new)>(cfg: Config, s: State<T>, s': State<T>)
    requires Inv(cfg, s) && Next(cfg, s, s') && s.g.returned
    ensures s'.g.chan == s.g.chan && s'.g.returned
  {
    var t, choice :| Enabled(cfg, s, t, choice) && s' == After(cfg, s, t, choice);
    assert ThreadInv(cfg, s.g, t, s.pcs[t]);
  }

  lemma {:induction false} SealedStays<T(!new)>(cfg: Config, run: seq<State<T>>, i: nat, j: nat)
    requires Run(cfg, run) && i <= j < |run| && run[i].g.returned
    ensures run[j].g.chan == run[i].g.chan && run[j].g.returned
    decreases j
  {
    if i < j {
      var k := j - 1;
      SealedStays(cfg, run, i, k);
      RunInv(cfg, run, k);
      assert Next(cfg, run[k], run[k + 1]);
      SealedNext(cfg, run[k], run[j]);
    }
  }

  // What an operation that changed the ring answers.
  predicate Succeeds<T>(op: Op<T>, reply: Reply<T>) {
    match op
    case Push(_) => reply.Pushed?
    case Pull => reply.Pulled?
    case Drop => reply.Dropped?
    case DropIf => reply.Dropped?
    case Clear(closing) => if closing then reply.Closed? else reply.Cleared?
  }

  // t is inside a call of op, which changed the ring if it is about to notify.
  ghost predicate InCall<T>(op: Op<T>, pc: PC<T>) {
    if pc.Note? then Succeeds(op, pc.reply)
    else if pc.Tested? then op == Clear(pc.closing)
    else HasOp(pc) && pc.op == op
  }

  lemma StepStaysInCall<T>(cfg: Config, s: State<T>, t: Tid, choice: Choice<T>, u: Tid, op: Op<T>)
    requires Enabled(cfg, s, t, choice) && u in s.pcs && InCall(op, s.pcs[u])
    ensures var pc := After(cfg, s, t, choice).pcs[u]; pc.Idle? || InCall(op, pc)
  {
  }

  // A call keeps its operation until it returns.
  lemma {:induction false} CallStays<T(!new)>(cfg: Config, run: seq<State<T>>, k: nat, i: nat, t: Tid, op: Op<T>)
    requires Run(cfg, run) && k <= i < |run| && t in run[k].pcs && run[k].pcs[t] == Enter(op)
    requires forall m :: k <= m <= i && t in run[m].pcs ==> !run[m].pcs[t].Idle?
    ensures t in run[i].pcs && InCall(op, run[i].pcs[t])
    decreases i
  {
    if k < i {
      var m := i - 1;
      CallStays(cfg, run, k, m, t, op);
      assert Next(cfg, run[m], run[m + 1]);
      var u, choice :| Enabled(cfg, run[m], u, choice) && run[i] == After(cfg, run[m], u, choice);
      StepStaysInCall(cfg, run[m], u, choice, t, op);
    }
  }

  /** Every push, pull or drop, begun before or after, that returns once the first close has returned answers false:
      t entered its call at k and returns from it by the step taken at i. */
  lemma RefusedAfterClose<T(!new)>(cfg: Config, run: seq<State<T>>, k: nat, i: nat, t: Tid, op: Op<T>,
                                   choice: Choice<T>)
    requires Run(cfg, run) && k <= i < |run| && run[i].g.returned
    requires t in run[k].pcs && run[k].pcs[t] == Enter(op) && !op.Clear?
    requires forall m :: k <= m <= i && t in run[m].pcs ==> !run[m].pcs[t].Idle?
    requires Enabled(cfg, run[i], t, choice) && After(cfg, run[i], t, choice).pcs[t].Idle?
    ensures After(cfg, run[i], t, choice).pcs[t].last == Refused
  {
    RunInv(cfg, run, i);
    CallStays(cfg, run, k, i, t, op);
    assert ThreadInv(cfg, run[i].g, t, run[i].pcs[t]);
  }

  /** The descriptor of a notifying pipeline. A queued item keeps it readable (once the mutex is free), the clearing
      read never finds it empty, and under push and pull alone it holds one token exactly while the ring has items. */
  lemma DescriptorReady<T(!new)>(cfg: Config, run: seq<State<T>>, i: nat)
    requires Run(cfg, run) && i < |run| && cfg.fd != NoFd
    ensures run[i].g.fd.open
    ensures HolderPC(run[i]).Note? && HolderPC(run[i]).signal == Lower ==> run[i].g.fd.tokens > 0
    ensures run[i].g.lock == None && run[i].g.chan.queue != [] ==> run[i].g.fd.tokens > 0
    ensures run[i].g.lock == None && OnlyPulled(run[i].g.chan) ==>
              run[i].g.fd.tokens == if run[i].g.chan.queue != [] then 1 else 0
  {
    RunInv(cfg, run, i);
  }

  // A push on a dropping or throwing pipeline never waits on a condition variable.
  lemma OnlyBlockingPushSleeps<T(!new)>(cfg: Config, run: seq<State<T>>, i: nat, t: Tid)
    requires Run(cfg, run) && i < |run| && t in run[i].pcs && cfg.full != WaitForRoom
    ensures !OnInput(run[i].pcs[t])
  {
    RunInv(cfg, run, i);
    assert ThreadInv(cfg, run[i].g, t, run[i].pcs[t]);
  }
}
