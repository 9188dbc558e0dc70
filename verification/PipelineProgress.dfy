/** That pipeline calls get done: the mutex is never held for more than a few steps, a call left alone either answers
    or sleeps having given the mutex back, and a close wakes everybody. */
module PipelineProgress {
  import opened Options
  import opened Channel
  import opened PipelineThreads
  import opened PipelineCalls
  import PipelineWindow

  // ---------------------------------------------------------------------------------------- the mutex comes free

  // How many more own steps a holder of the mutex may take before it lets go.
  function Ahead<T>(cfg: Config, g: Shared<T>, pc: PC<T>): nat
    requires Holds(pc)
  {
    match pc
    case Check(op) => if g.closed then 1 else 1 + AheadAtBody(cfg, g.chan, op)
    case Body(op) => AheadAtBody(cfg, g.chan, op)
    case Pred(op) => if g.closed then 2 else if Ready(cfg, g.chan, op) then 2 + AheadAtBody(cfg, g.chan, op) else 2
    case Tested(_, _) => 2
    case _ => 1
  }

  function AheadAtBody<T>(cfg: Config, c: Channel<T>, op: Op<T>): nat {
    if Ready(cfg, c, op) then if op.Clear? then 3 else 2
    else if op.Drop? || op.DropIf? then 1
    else if op.Push? && cfg.full == ThrowFull then 1
    else if op.Push? && cfg.full == DropOldest then 4
    else 3
  }

  lemma AheadIsSmall<T>(cfg: Config, g: Shared<T>, pc: PC<T>)
    requires Holds(pc)
    ensures 1 <= Ahead(cfg, g, pc) <= 5
  {
  }

  // A holder's own step brings it nearer to letting go of the mutex, or is the one that does.
  lemma HolderAdvances<T>(cfg: Config, s: State<T>, t: Tid, choice: Choice<T>)
    requires CoreInv(cfg, s) && Enabled(cfg, s, t, choice) && Holds(s.pcs[t])
    ensures var s' := After(cfg, s, t, choice);
            && s'.pcs[t] != s.pcs[t]
            && if Holds(s'.pcs[t]) then Ahead(cfg, s'.g, s'.pcs[t]) < Ahead(cfg, s.g, s.pcs[t]) else s'.g.lock == None
  {
    assert ThreadInv(cfg, s.g, t, s.pcs[t]);
  }

  // No other thread sets it back.
  lemma OthersDoNotDelay<T>(cfg: Config, s: State<T>, u: Tid, choice: Choice<T>, t: Tid)
    requires CoreInv(cfg, s) && Enabled(cfg, s, u, choice) && t in s.pcs && Holds(s.pcs[t]) && u != t
    ensures var s' := After(cfg, s, u, choice);
            t in s'.pcs && s'.pcs[t] == s.pcs[t] && Ahead(cfg, s'.g, s'.pcs[t]) <= Ahead(cfg, s.g, s.pcs[t])
  {
    assert ThreadInv(cfg, s.g, t, s.pcs[t]) && ThreadInv(cfg, s.g, u, s.pcs[u]);
  }

  // The steps of t between the states i and j.
  ghost function OwnSteps<T>(run: seq<State<T>>, t: Tid, i: nat, j: nat): nat
    requires i <= j < |run| && forall l :: i <= l <= j ==> t in run[l].pcs
    decreases j
  {
    if i == j then 0 else OwnSteps(run, t, i, j - 1) + if run[j].pcs[t] != run[j - 1].pcs[t] then 1 else 0
  }

  lemma NoOwnStep<T>(run: seq<State<T>>, t: Tid, i: nat)
    requires i < |run| && t in run[i].pcs
    ensures OwnSteps(run, t, i, i) == 0
  {
  }

  lemma LastOwnStep<T>(run: seq<State<T>>, t: Tid, i: nat, j: nat)
    requires i < j < |run| && forall l :: i <= l <= j ==> t in run[l].pcs
    ensures OwnSteps(run, t, i, j) == OwnSteps(run, t, i, j - 1) + if run[j].pcs[t] != run[j - 1].pcs[t] then 1 else 0
  {
  }

  lemma HolderNext<T(!new)>(cfg: Config, s: State<T>, s': State<T>, t: Tid)
    requires Inv(cfg, s) && Next(cfg, s, s') && t in s.pcs && Holds(s.pcs[t]) && t in s'.pcs
    ensures Holds(s'.pcs[t]) ==>
              Ahead(cfg, s'.g, s'.pcs[t]) + (if s'.pcs[t] != s.pcs[t] then 1 else 0) <= Ahead(cfg, s.g, s.pcs[t])
    ensures !Holds(s'.pcs[t]) ==> s'.g.lock == None
  {
    var u, choice :| Enabled(cfg, s, u, choice) && s' == After(cfg, s, u, choice);
    assert CoreInv(cfg, s);
    hide Inv, CoreInv, Enabled, After, Ahead;
    if u == t { HolderAdvances(cfg, s, t, choice); } else { OthersDoNotDelay(cfg, s, u, choice, t); }
  }

  /** Nobody keeps the mutex: in any run, whatever the other threads do, a thread that holds it from i to j has taken
      at most four own steps in between, and takes at most five until it gives it back: no livelock under the mutex. */
  lemma {:induction false} MutexComesFree<T(!new)>(cfg: Config, run: seq<State<T>>, i: nat, j: nat, t: Tid)
    requires Run(cfg, run) && i <= j < |run|
    requires forall l :: i <= l <= j ==> t in run[l].pcs && Holds(run[l].pcs[t])
    ensures OwnSteps(run, t, i, j) + Ahead(cfg, run[j].g, run[j].pcs[t]) <= Ahead(cfg, run[i].g, run[i].pcs[t]) <= 5
    ensures OwnSteps(run, t, i, j) <= 4
    decreases j
  {
    hide *;
    AheadIsSmall(cfg, run[i].g, run[i].pcs[t]);
    AheadIsSmall(cfg, run[j].g, run[j].pcs[t]);
    if i == j {
      NoOwnStep(run, t, i);
    } else {
      var m := j - 1;
      MutexComesFree(cfg, run, i, m, t);
      RunInv(cfg, run, m);
      RunSteps(cfg, run, m);
      HolderNext(cfg, run[m], run[j], t);
      LastOwnStep(run, t, i, j);
    }
  }

  /** Neither deadlock nor livelock: in every reachable open state the mutex holder can take a step, which brings it
      nearer to giving the mutex back; or the mutex is free and an awake producer or consumer can take a step. Neither
      needs a spurious wake-up or a close. */
  lemma NeverStuck<T(!new)>(cfg: Config, run: seq<State<T>>, i: nat, x: T)
    requires Run(cfg, run) && i < |run| && !run[i].g.closed && cfg.producers !! cfg.consumers
    ensures exists t, choice ::
              && Enabled(cfg, run[i], t, choice) && choice != CallClose && !run[i].pcs[t].Asleep?
              && if run[i].g.lock.Some? then run[i].g.lock == Some(t) && Nearer(cfg, run[i], t, choice)
                 else t in cfg.producers + cfg.consumers
  {
    RunInv(cfg, run, i);
    DeadlockFree(cfg, run, i, x);
    var t, choice :|
      && Enabled(cfg, run[i], t, choice) && choice != CallClose && !run[i].pcs[t].Asleep?
      && if run[i].g.lock.Some? then run[i].g.lock == Some(t) else t in cfg.producers + cfg.consumers;
    if run[i].g.lock.Some? {
      assert CoreInv(cfg, run[i]);
      HolderIsNearer(cfg, run[i], t, choice);
    }
  }

  // The step gives the mutex back, or leaves fewer steps until that.
  ghost predicate Nearer<T>(cfg: Config, s: State<T>, t: Tid, choice: Choice<T>)
    requires t in s.pcs
  {
    var s' := After(cfg, s, t, choice);
    && Holds(s.pcs[t])
    && if Holds(s'.pcs[t]) then Ahead(cfg, s'.g, s'.pcs[t]) < Ahead(cfg, s.g, s.pcs[t]) else s'.g.lock == None
  }

  lemma HolderIsNearer<T>(cfg: Config, s: State<T>, t: Tid, choice: Choice<T>)
    requires CoreInv(cfg, s) && Enabled(cfg, s, t, choice) && s.g.lock == Some(t)
    ensures Nearer(cfg, s, t, choice)
  {
    assert ThreadInv(cfg, s.g, t, s.pcs[t]);
    HolderAdvances(cfg, s, t, choice);
  }

  // ---------------------------------------------------------------------------------------- a call left alone

  // What a call must come to when nobody interferes: an answer with the ring as it then is, or a wait.
  datatype Outcome<T> = Returns(reply: Reply<T>, chan: Channel<T>, wake: Wake) | Waits

  function Due<T>(cfg: Config, closed: bool, c: Channel<T>, op: Op<T>): Outcome<T>
    requires cfg.cap > 0 && |c.queue| <= cfg.cap
  {
    if closed && (op.Push? || op.Pull?) then Returns(Refused, c, NoWake)
    else if Ready(cfg, c, op) then Returns(Answer(cfg, c, op), Effect(cfg, c, op), Edge(cfg, closed, c, op))
    else match op
      case Push(x) =>
        if cfg.full == DropOldest then
          Returns(Pushed, Slide(c, x, cfg.cap), if cfg.cap == 1 then WakeOutput else NoWake)
        else if cfg.full == ThrowFull then Returns(Thrown, c, NoWake)
        else Waits
      case Pull => Waits
      case _ => Returns(Refused, c, NoWake)
  }

  // The side an effect has something new for: consumers when the ring stops being empty, producers when it stops being
  // full or, unless closed, when a clear removed something.
  function Edge<T>(cfg: Config, closed: bool, c: Channel<T>, op: Op<T>): Wake {
    match op
    case Push(_) => if c.queue == [] then WakeOutput else NoWake
    case Clear(_) => if c.queue != [] && !closed then WakeInput else NoWake
    case _ => if |c.queue| == cfg.cap then WakeInput else NoWake
  }

  // A step of t itself.
  ghost predicate Own<T(!new)>(cfg: Config, s: State<T>, s': State<T>, t: Tid) {
    exists choice :: Enabled(cfg, s, t, choice) && s' == After(cfg, s, t, choice)
  }

  // Inside a call: neither returned nor asleep.
  predicate Busy<T>(pc: PC<T>) { !pc.Idle? && !pc.Asleep? }

  // Since s, exactly the given sleepers have been woken, and nobody else than t has moved.
  ghost predicate WokeOnly<T>(s: State<T>, s': State<T>, t: Tid, woken: set<Tid>) {
    && s'.pcs.Keys == s.pcs.Keys
    && (forall u :: u in woken ==> u in s.pcs && u != t && s.pcs[u].Asleep?)
    && forall u :: u in s.pcs && u != t ==>
                     s'.pcs[u] == if u in woken && s.pcs[u].Asleep? then Woken(s.pcs[u].op) else s.pcs[u]
  }

  // A notification wakes one sleeper of its side if there is one, and nobody else.
  ghost predicate NotifiesOne<T>(s: State<T>, wake: Wake, woken: set<Tid>) {
    if exists u :: u in s.pcs && OnQueue(wake, s.pcs[u]) then
      exists u :: u in s.pcs && OnQueue(wake, s.pcs[u]) && woken == {u}
    else woken == {}
  }

  lemma OwnMoves<T(!new)>(cfg: Config, s: State<T>, s': State<T>, t: Tid)
    requires Own(cfg, s, s', t) && Busy(s.pcs[t]) && !s.pcs[t].Note? && !s.pcs[t].TellOutput? && !s.pcs[t].TellInput?
    ensures t in s'.pcs && (s'.g, s'.pcs[t]) == Move(cfg, s.g, t, s.pcs[t], Proceed)
    ensures WokeOnly(s, s', t, {})
  {
  }

  lemma OwnNotes<T(!new)>(cfg: Config, s: State<T>, s': State<T>, t: Tid) returns (woken: set<Tid>)
    requires Own(cfg, s, s', t) && s.pcs[t].Note?
    ensures t in s'.pcs && (s'.g, s'.pcs[t]) == Move(cfg, s.g, t, s.pcs[t], Proceed)
    ensures WokeOnly(s, s', t, woken) && NotifiesOne(s, s.pcs[t].wake, woken)
  {
    var choice :| Enabled(cfg, s, t, choice) && s' == After(cfg, s, t, choice);
    if choice.Rouse? {
      woken := {choice.sleeper};
      assert OnQueue(s.pcs[t].wake, s.pcs[choice.sleeper]);
    } else {
      woken := {};
    }
  }

  lemma OwnKeepsCore<T(!new)>(cfg: Config, s: State<T>, s': State<T>, t: Tid)
    requires CoreInv(cfg, s) && Own(cfg, s, s', t)
    ensures CoreInv(cfg, s')
  {
    var choice :| Enabled(cfg, s, t, choice) && s' == After(cfg, s, t, choice);
    StepKeepsCore(cfg, s, t, choice);
  }

  // What the state after a call left alone looks like, seen from the state before it.
  ghost predicate Reached<T>(cfg: Config, s: State<T>, s': State<T>, t: Tid, op: Op<T>)
    requires cfg.cap > 0 && |s.g.chan.queue| <= cfg.cap
  {
    && t in s'.pcs && s'.g.lock == None && s'.g.closed == s.g.closed
    && match Due(cfg, s.g.closed, s.g.chan, op)
       case Returns(reply, chan, wake) =>
         && s'.pcs[t] == Idle(reply) && s'.g.chan == chan
         && exists woken :: WokeOnly(s, s', t, woken) && NotifiesOne(s, wake, woken)
       case Waits => s'.pcs[t] == Asleep(op) && s'.g.chan == s.g.chan && WokeOnly(s, s', t, {})
  }

  lemma WokeOnlyThen<T>(s: State<T>, mid: State<T>, s': State<T>, t: Tid, woken: set<Tid>)
    requires WokeOnly(s, mid, t, {}) && WokeOnly(mid, s', t, woken)
    ensures WokeOnly(s, s', t, woken)
  {
  }

  lemma NotifiesOneThen<T>(s: State<T>, mid: State<T>, t: Tid, wake: Wake, woken: set<Tid>)
    requires WokeOnly(s, mid, t, {}) && NotifiesOne(mid, wake, woken)
    requires t in s.pcs && !s.pcs[t].Asleep? && !mid.pcs[t].Asleep?
    ensures NotifiesOne(s, wake, woken)
  {
    if u :| u in s.pcs && OnQueue(wake, s.pcs[u]) { assert u != t && mid.pcs[u] == s.pcs[u]; }
  }

  lemma ReachedThen<T>(cfg: Config, s: State<T>, mid: State<T>, s': State<T>, t: Tid, op: Op<T>)
    requires cfg.cap > 0 && |s.g.chan.queue| <= cfg.cap && |mid.g.chan.queue| <= cfg.cap
    requires WokeOnly(s, mid, t, {}) && t in s.pcs && !s.pcs[t].Asleep? && !mid.pcs[t].Asleep?
    requires mid.g.closed == s.g.closed && Reached(cfg, mid, s', t, op)
    requires var due := Due(cfg, s.g.closed, s.g.chan, op);
             due == Due(cfg, mid.g.closed, mid.g.chan, op) && (due.Waits? ==> mid.g.chan == s.g.chan)
    ensures Reached(cfg, s, s', t, op)
  {
    hide WokeOnly, NotifiesOne, Due;
    match Due(cfg, s.g.closed, s.g.chan, op) {
      case Returns(reply, chan, wake) =>
        var woken :| WokeOnly(mid, s', t, woken) && NotifiesOne(mid, wake, woken);
        WokeOnlyThen(s, mid, s', t, woken);
        NotifiesOneThen(s, mid, t, wake, woken);
      case Waits => WokeOnlyThen(s, mid, s', t, {});
    }
  }

  lemma CoreBounds<T>(cfg: Config, s: State<T>)
    requires CoreInv(cfg, s)
    ensures cfg.cap > 0 && |s.g.chan.queue| <= cfg.cap
  {
  }

  lemma FitsAt<T>(cfg: Config, s: State<T>, t: Tid)
    requires CoreInv(cfg, s) && t in s.pcs
    ensures OpFits(cfg, t, s.pcs[t]) && (Holds(s.pcs[t]) <==> s.g.lock == Some(t))
  {
    assert ThreadInv(cfg, s.g, t, s.pcs[t]);
  }

  // About to notify with an answer: the last step of a call.
  lemma NoteAlone<T(!new)>(cfg: Config, s: State<T>, s': State<T>, t: Tid, op: Op<T>)
    requires cfg.cap > 0 && |s.g.chan.queue| <= cfg.cap && Own(cfg, s, s', t) && s.pcs[t].Note?
    ensures t in s'.pcs && s'.pcs[t] == Idle(s.pcs[t].reply) && s'.g.chan == s.g.chan && s'.g.closed == s.g.closed
    ensures s'.g.lock == None
    ensures exists woken :: WokeOnly(s, s', t, woken) && NotifiesOne(s, s.pcs[t].wake, woken)
  {
    var woken := OwnNotes(cfg, s, s', t);
  }

  // The effect of a ready operation, and the notification it is then about to give.
  lemma ReadyMoves<T>(cfg: Config, g: Shared<T>, t: Tid, op: Op<T>)
    requires Ready(cfg, g.chan, op) && |g.chan.queue| <= cfg.cap
    ensures var (g', pc) := Move(cfg, g, t, Body(op), Proceed);
            && g'.chan == Effect(cfg, g.chan, op) && g'.closed == g.closed
            && if op.Clear? then
                 && pc.Tested?
                 && var (g2, pc2) := Move(cfg, g', t, pc, Proceed);
                    && g2 == g' && pc2.Note? && pc2.wake == Edge(cfg, g.closed, g.chan, op)
                    && pc2.reply == Answer(cfg, g.chan, op)
               else pc.Note? && pc.wake == Edge(cfg, g.closed, g.chan, op) && pc.reply == Answer(cfg, g.chan, op)
  {
  }

  // At the ring, ready: two steps for everything but a clear, which takes one more.
  lemma ReadyAlone<T(!new)>(cfg: Config, run: seq<State<T>>, t: Tid, op: Op<T>) returns (n: nat)
    requires |run| > (if op.Clear? then 3 else 2)
    requires CoreInv(cfg, run[0]) && t in run[0].pcs && run[0].pcs[t] == Body(op)
    requires Ready(cfg, run[0].g.chan, op) && (op.Push? || op.Pull? ==> !run[0].g.closed)
    requires Own(cfg, run[0], run[1], t)
    requires t in run[1].pcs && Busy(run[1].pcs[t]) ==> Own(cfg, run[1], run[2], t)
    requires op.Clear? && t in run[2].pcs && Busy(run[2].pcs[t]) ==> Own(cfg, run[2], run[3], t)
    ensures n == (if op.Clear? then 3 else 2)
    ensures cfg.cap > 0 && |run[0].g.chan.queue| <= cfg.cap && Reached(cfg, run[0], run[n], t, op)
  {
    hide CoreInv, Own, WokeOnly, NotifiesOne, Move, Ready, Effect, Answer, Edge, Due, Reached;
    CoreBounds(cfg, run[0]);
    OwnMoves(cfg, run[0], run[1], t);
    OwnKeepsCore(cfg, run[0], run[1], t);
    CoreBounds(cfg, run[1]);
    ReadyMoves(cfg, run[0].g, t, op);
    n := if op.Clear? then 3 else 2;
    var mid := run[n - 1];
    if op.Clear? {
      OwnMoves(cfg, run[1], mid, t);
      WokeOnlyThen(run[0], run[1], mid, t, {});
    }
    NoteAlone(cfg, mid, run[n], t, op);
    var woken :| WokeOnly(mid, run[n], t, woken) && NotifiesOne(mid, mid.pcs[t].wake, woken);
    WokeOnlyThen(run[0], mid, run[n], t, woken);
    NotifiesOneThen(run[0], mid, t, mid.pcs[t].wake, woken);
    ReachedReady(cfg, run[0], run[n], t, op, woken);
  }

  lemma ReachedReady<T>(cfg: Config, s: State<T>, s': State<T>, t: Tid, op: Op<T>, woken: set<Tid>)
    requires cfg.cap > 0 && |s.g.chan.queue| <= cfg.cap && Ready(cfg, s.g.chan, op)
    requires op.Push? || op.Pull? ==> !s.g.closed
    requires t in s'.pcs && s'.g.lock == None && s'.g.closed == s.g.closed
    requires s'.pcs[t] == Idle(Answer(cfg, s.g.chan, op)) && s'.g.chan == Effect(cfg, s.g.chan, op)
    requires WokeOnly(s, s', t, woken) && NotifiesOne(s, Edge(cfg, s.g.closed, s.g.chan, op), woken)
    ensures Reached(cfg, s, s', t, op)
  {
  }

  // Answering at once, with nothing done: nobody is told.
  lemma ReachedIdle<T>(cfg: Config, s: State<T>, s': State<T>, t: Tid, op: Op<T>)
    requires cfg.cap > 0 && |s.g.chan.queue| <= cfg.cap && WokeOnly(s, s', t, {})
    requires t in s'.pcs && s'.g.lock == None && s'.g.closed == s.g.closed && s'.g.chan == s.g.chan
    requires var due := Due(cfg, s.g.closed, s.g.chan, op);
             due.Returns? && due.chan == s.g.chan && due.wake == NoWake && s'.pcs[t] == Idle(due.reply)
    ensures Reached(cfg, s, s', t, op)
  {
    var none: set<Tid> := {};
    assert NotifiesOne(s, NoWake, none);
  }

  // One step of a holder that does not act: it answers at once, parks, or goes on with the same outcome due.
  lemma HolderMoves<T>(cfg: Config, g: Shared<T>, t: Tid, pc: PC<T>, op: Op<T>)
    requires cfg.cap > 0 && |g.chan.queue| <= cfg.cap && (pc == Check(op) || pc == Body(op) || pc == Pred(op))
    requires OpFits(cfg, t, pc)
    requires pc.Body? ==> !Ready(cfg, g.chan, op) && (op.Push? || op.Pull? ==> !g.closed)
    ensures var (g', pc') := Move(cfg, g, t, pc, Proceed);
            var due := Due(cfg, g.closed, g.chan, op);
            && g'.closed == g.closed && |g'.chan.queue| <= cfg.cap
            && if pc'.Idle? then
                 g'.lock == None && g'.chan == g.chan && due == Returns(pc'.last, g.chan, NoWake)
               else if pc'.Park? then
                 pc'.op == op && g' == g && due.Waits?
               else
                 && (pc' == Check(op) || pc' == Body(op) || pc' == Pred(op))
                 && (pc'.Body? && (op.Push? || op.Pull?) ==> !g'.closed)
                 && due == Due(cfg, g'.closed, g'.chan, op) && (due.Waits? ==> g'.chan == g.chan)
                 && Ahead(cfg, g', pc') < Ahead(cfg, g, pc)
    ensures Move(cfg, g, t, pc, Proceed).1.Park? ==> Ahead(cfg, g, pc) == 2
  {
  }

  lemma ReadyAhead<T>(cfg: Config, g: Shared<T>, op: Op<T>)
    requires Ready(cfg, g.chan, op)
    ensures Ahead(cfg, g, Body(op)) == if op.Clear? then 3 else 2
  {
  }

  // Parking: the wait itself, which gives the mutex back.
  lemma ParkAlone<T(!new)>(cfg: Config, s: State<T>, s': State<T>, t: Tid, op: Op<T>)
    requires cfg.cap > 0 && |s.g.chan.queue| <= cfg.cap && Own(cfg, s, s', t) && s.pcs[t] == Park(op)
    requires Due(cfg, s.g.closed, s.g.chan, op).Waits?
    ensures Reached(cfg, s, s', t, op)
  {
    OwnMoves(cfg, s, s', t);
  }

  /** A holder of the mutex at any point of an operation, left alone: within the steps it has ahead it answers as the
      ring demands or sleeps, and in either case it has given the mutex back. */
  lemma {:induction false} HolderAlone<T(!new)>(cfg: Config, run: seq<State<T>>, t: Tid, op: Op<T>) returns (n: nat)
    requires run != [] && CoreInv(cfg, run[0]) && t in run[0].pcs
    requires run[0].pcs[t] == Check(op) || run[0].pcs[t] == Body(op) || run[0].pcs[t] == Pred(op)
    requires run[0].pcs[t].Body? && (op.Push? || op.Pull?) ==> !run[0].g.closed
    requires |run| > Ahead(cfg, run[0].g, run[0].pcs[t])
    requires forall i :: 0 <= i < |run| - 1 && t in run[i].pcs && Busy(run[i].pcs[t]) ==>
                           Own(cfg, run[i], run[i + 1], t)
    ensures 1 <= n <= Ahead(cfg, run[0].g, run[0].pcs[t])
    ensures cfg.cap > 0 && |run[0].g.chan.queue| <= cfg.cap && Reached(cfg, run[0], run[n], t, op)
    decreases |run|, 1
  {
    var s, pc := run[0], run[0].pcs[t];
    hide Ahead, CoreInv, Own, Move, Due, Reached, WokeOnly, OpFits, Ready;
    CoreBounds(cfg, s);
    FitsAt(cfg, s, t);
    AheadIsSmall(cfg, s.g, pc);
    assert Own(cfg, run[0], run[0 + 1], t);
    if pc.Body? && Ready(cfg, s.g.chan, op) {
      ReadyAhead(cfg, s.g, op);
      assert t in run[1].pcs && Busy(run[1].pcs[t]) ==> Own(cfg, run[1], run[1 + 1], t);
      assert op.Clear? && t in run[2].pcs && Busy(run[2].pcs[t]) ==> Own(cfg, run[2], run[2 + 1], t);
      n := ReadyAlone(cfg, run, t, op);
    } else {
      n := WaitingAlone(cfg, run, t, op);
    }
  }

  lemma {:induction false} WaitingAlone<T(!new)>(cfg: Config, run: seq<State<T>>, t: Tid, op: Op<T>) returns (n: nat)
    requires run != [] && CoreInv(cfg, run[0]) && t in run[0].pcs
    requires run[0].pcs[t] == Check(op) || run[0].pcs[t] == Body(op) || run[0].pcs[t] == Pred(op)
    requires run[0].pcs[t].Body? ==> !Ready(cfg, run[0].g.chan, op) && (op.Push? || op.Pull? ==> !run[0].g.closed)
    requires |run| > Ahead(cfg, run[0].g, run[0].pcs[t])
    requires forall i :: 0 <= i < |run| - 1 && t in run[i].pcs && Busy(run[i].pcs[t]) ==>
                           Own(cfg, run[i], run[i + 1], t)
    ensures 1 <= n <= Ahead(cfg, run[0].g, run[0].pcs[t])
    ensures cfg.cap > 0 && |run[0].g.chan.queue| <= cfg.cap && Reached(cfg, run[0], run[n], t, op)
    decreases |run|, 0
  {
    var s, pc := run[0], run[0].pcs[t];
    hide Ahead, CoreInv, Own, Move, Due, Reached, WokeOnly, OpFits, Ready;
    CoreBounds(cfg, s);
    FitsAt(cfg, s, t);
    AheadIsSmall(cfg, s.g, pc);
    assert Own(cfg, run[0], run[0 + 1], t);
    OwnMoves(cfg, s, run[1], t);
    OwnKeepsCore(cfg, s, run[1], t);
    CoreBounds(cfg, run[1]);
    HolderMoves(cfg, s.g, t, pc, op);
    var next := run[1].pcs[t];
    if next.Idle? {
      n := 1;
      ReachedIdle(cfg, s, run[1], t, op);
    } else if next.Park? {
      assert Own(cfg, run[1], run[1 + 1], t);
      ParkAlone(cfg, run[1], run[2], t, op);
      ReachedThen(cfg, s, run[1], run[2], t, op);
      n := 2;
    } else {
      var rest := run[1..];
      AheadIsSmall(cfg, run[1].g, next);
      n := HolderAlone(cfg, rest, t, op);
      ReachedThen(cfg, s, run[1], rest[n], t, op);
      n := n + 1;
    }
  }

  // ------------------------------------------------------------------------------------------- whole calls

  lemma Called<T(!new)>(cfg: Config, s: State<T>, t: Tid, op: Op<T>)
    requires CoreInv(cfg, s) && t in s.pcs && s.pcs[t].Idle?
    requires (op.Push? ==> t in cfg.producers) && (op.Pull? ==> t in cfg.consumers) && (op.Clear? ==> !op.closing)
    ensures var s' := After(cfg, s, t, Call(op));
            && Enabled(cfg, s, t, Call(op)) && CoreInv(cfg, s')
            && s'.g == s.g && t in s'.pcs && s'.pcs[t] == Enter(op) && WokeOnly(s, s', t, {})
  {
    StepKeepsCore(cfg, s, t, Call(op));
  }

  lemma Entered<T(!new)>(cfg: Config, s: State<T>, s': State<T>, t: Tid, op: Op<T>)
    requires CoreInv(cfg, s) && Own(cfg, s, s', t) && s.pcs[t] == Enter(op)
    ensures CoreInv(cfg, s') && t in s'.pcs && WokeOnly(s, s', t, {})
    ensures s'.g.chan == s.g.chan && s'.g.closed == s.g.closed
    ensures s'.pcs[t] == if op.Push? || op.Pull? then Check(op) else Body(op)
  {
    OwnMoves(cfg, s, s', t);
    OwnKeepsCore(cfg, s, s', t);
  }

  /** From call to outcome: an operation called while the mutex is free, whose thread is not interrupted, comes within
      seven steps to just what the ring and the flag demand: the answer and the effect, having notified one sleeper of
      the side that has news, or the refusal, or sleep in its wait. In each case the mutex is free again. */
  lemma CallAlone<T(!new)>(cfg: Config, run: seq<State<T>>, t: Tid, op: Op<T>) returns (n: nat)
    requires |run| == 8 && CoreInv(cfg, run[0]) && t in run[0].pcs && run[0].pcs[t].Idle?
    requires (op.Push? ==> t in cfg.producers) && (op.Pull? ==> t in cfg.consumers) && (op.Clear? ==> !op.closing)
    requires run[1] == After(cfg, run[0], t, Call(op))
    requires forall i :: 1 <= i < 7 && t in run[i].pcs && Busy(run[i].pcs[t]) ==> Own(cfg, run[i], run[i + 1], t)
    ensures Enabled(cfg, run[0], t, Call(op)) && n <= 7
    ensures cfg.cap > 0 && |run[0].g.chan.queue| <= cfg.cap && Reached(cfg, run[0], run[n], t, op)
  {
    CoreBounds(cfg, run[0]);
    Called(cfg, run[0], t, op);
    assert Own(cfg, run[1], run[1 + 1], t);
    hide CoreInv, Own, Due, Reached, WokeOnly, After, Enabled, Ahead;
    Entered(cfg, run[1], run[2], t, op);
    WokeOnlyThen(run[0], run[1], run[2], t, {});
    CoreBounds(cfg, run[2]);
    if run[2].pcs[t].Body? { FitsBody(op); }
    AheadIsSmall(cfg, run[2].g, run[2].pcs[t]);
    var tail := run[2..];
    forall i | 0 <= i < |tail| - 1 && t in tail[i].pcs && Busy(tail[i].pcs[t])
      ensures Own(cfg, tail[i], tail[i + 1], t)
    {
      assert Own(cfg, run[i + 2], run[i + 2 + 1], t);
    }
    n := HolderAlone(cfg, tail, t, op);
    ReachedThen(cfg, run[0], run[2], tail[n], t, op);
    n := n + 2;
  }

  lemma FitsBody<T>(op: Op<T>)
    ensures Holds(Body(op)) && Holds(Check(op)) && Holds(Pred(op))
  {
  }

  /** A woken waiter, left alone, likewise: it acts if the ring or the flag now lets it, and sleeps again if not. */
  lemma WokenAlone<T(!new)>(cfg: Config, run: seq<State<T>>, t: Tid, op: Op<T>) returns (n: nat)
    requires |run| == 7 && CoreInv(cfg, run[0]) && t in run[0].pcs && run[0].pcs[t] == Woken(op)
    requires forall i :: 0 <= i < 6 && t in run[i].pcs && Busy(run[i].pcs[t]) ==> Own(cfg, run[i], run[i + 1], t)
    ensures n <= 6
    ensures cfg.cap > 0 && |run[0].g.chan.queue| <= cfg.cap && Reached(cfg, run[0], run[n], t, op)
  {
    CoreBounds(cfg, run[0]);
    assert Own(cfg, run[0], run[0 + 1], t);
    OwnMoves(cfg, run[0], run[1], t);
    OwnKeepsCore(cfg, run[0], run[1], t);
    hide CoreInv, Own, Due, Reached, WokeOnly, Ahead;
    CoreBounds(cfg, run[1]);
    FitsBody(op);
    AheadIsSmall(cfg, run[1].g, run[1].pcs[t]);
    var tail := run[1..];
    forall i | 0 <= i < |tail| - 1 && t in tail[i].pcs && Busy(tail[i].pcs[t])
      ensures Own(cfg, tail[i], tail[i + 1], t)
    {
      assert Own(cfg, run[i + 1], run[i + 1 + 1], t);
    }
    n := HolderAlone(cfg, tail, t, op);
    ReachedThen(cfg, run[0], run[1], tail[n], t, op);
    n := n + 1;
  }

  // A spurious wake-up: the waiter leaves its condition variable, and that is all.
  lemma WakesSpuriously<T(!new)>(cfg: Config, s: State<T>, t: Tid)
    requires t in s.pcs && s.pcs[t].Asleep?
    ensures Enabled(cfg, s, t, Proceed)
    ensures After(cfg, s, t, Proceed).g == s.g && WokeOnly(s, After(cfg, s, t, Proceed), t, {})
    ensures After(cfg, s, t, Proceed).pcs[t] == Woken(s.pcs[t].op)
  {
  }

  // Such runs exist: nothing but the mutex ever holds a thread up inside a call.
  lemma CanStep<T(!new)>(cfg: Config, s: State<T>, t: Tid) returns (s': State<T>)
    requires CoreInv(cfg, s) && t in s.pcs && Busy(s.pcs[t])
    requires s.pcs[t].Enter? || s.pcs[t].Woken? ==> s.g.lock == None
    ensures Own(cfg, s, s', t)
  {
    var choice: Choice<T> := Proceed;
    if s.pcs[t].Note? {
      if u :| u in s.pcs && OnQueue(s.pcs[t].wake, s.pcs[u]) { choice := Rouse(u); }
    }
    s' := After(cfg, s, t, choice);
    assert Enabled(cfg, s, t, choice);
  }

  /** The hand-over across a wait, put together from calls left alone one after the other: a pull on an empty open ring
      sleeps without the mutex, a push then answers true and wakes it, and the woken pull delivers the pushed item. */
  lemma HandOver<T>(cfg: Config, before: State<T>, waiting: State<T>, woken: State<T>, after: State<T>, u: Tid, p: Tid,
                    x: T)
    requires cfg.cap > 0 && before.g.chan.queue == [] && !before.g.closed && u != p
    requires u in before.pcs && p in before.pcs && !before.pcs[p].Asleep?
    requires forall v :: v in before.pcs ==> !OnOutput(before.pcs[v])
    requires Reached(cfg, before, waiting, u, Pull)
    requires |waiting.g.chan.queue| <= cfg.cap && Reached(cfg, waiting, woken, p, Push(x))
    requires |woken.g.chan.queue| <= cfg.cap && Reached(cfg, woken, after, u, Pull)
    ensures u in waiting.pcs && waiting.pcs[u] == Asleep(Pull) && waiting.g.lock == None
    ensures p in woken.pcs && woken.pcs[p] == Idle(Pushed) && u in woken.pcs && woken.pcs[u] == Woken(Pull)
    ensures u in after.pcs && after.pcs[u] == Idle(Pulled(x)) && after.g.chan.queue == []
  {
    SoleSleeper(waiting, woken, p, u);
  }

  // The only sleeper of the output side is the one a push on an empty ring wakes.
  lemma SoleSleeper<T>(s: State<T>, s': State<T>, p: Tid, u: Tid)
    requires exists woken :: WokeOnly(s, s', p, woken) && NotifiesOne(s, WakeOutput, woken)
    requires u in s.pcs && s.pcs[u] == Asleep(Pull) && forall v :: v in s.pcs && OnOutput(s.pcs[v]) ==> v == u
    ensures u in s'.pcs && s'.pcs[u] == Woken(Pull)
  {
    var woken :| WokeOnly(s, s', p, woken) && NotifiesOne(s, WakeOutput, woken);
    assert OnQueue(WakeOutput, s.pcs[u]);
  }

  // ------------------------------------------------------------------------------------------------- close

  ghost function Sleepers<T>(s: State<T>): set<Tid> {
    set u | u in s.pcs && s.pcs[u].Asleep?
  }

  lemma CloseCalled<T(!new)>(cfg: Config, s: State<T>, t: Tid)
    requires CoreInv(cfg, s) && t in s.pcs && s.pcs[t].Idle?
    ensures var s' := After(cfg, s, t, CallClose);
            && Enabled(cfg, s, t, CallClose) && CoreInv(cfg, s')
            && s'.g == s.g && t in s'.pcs && s'.pcs[t] == Swap && WokeOnly(s, s', t, {})
  {
    StepKeepsCore(cfg, s, t, CallClose);
  }

  // The exchange of the flag and the two notifications: three steps, after which every sleeper is awake.
  lemma TellsAll<T(!new)>(cfg: Config, run: seq<State<T>>, t: Tid)
    requires |run| == 4 && CoreInv(cfg, run[0]) && t in run[0].pcs && run[0].pcs[t] == Swap && !run[0].g.closed
    requires forall i :: 0 <= i < 3 ==> Own(cfg, run[i], run[i + 1], t)
    ensures CoreInv(cfg, run[3]) && t in run[3].pcs && run[3].pcs[t] == Enter(Clear(true))
    ensures run[3].g == run[0].g.(closed := true)
    ensures WokeOnly(run[0], run[3], t, Sleepers(run[0]))
  {
    assert Own(cfg, run[0], run[0 + 1], t) && Own(cfg, run[1], run[1 + 1], t) && Own(cfg, run[2], run[2 + 1], t);
    OwnKeepsCore(cfg, run[0], run[1], t);
    OwnKeepsCore(cfg, run[1], run[2], t);
    OwnKeepsCore(cfg, run[2], run[3], t);
    forall u | u in run[0].pcs && u != t && run[0].pcs[u].Asleep?
      ensures run[3].pcs[u] == Woken(run[0].pcs[u].op)
    {
      FitsAt(cfg, run[0], u);
    }
  }

  /** From call to return: a close whose thread is not interrupted answers within eight steps. The first one has set the
      flag, woken every sleeper of both sides, and emptied the ring; any other finds the flag set and does nothing. */
  lemma CloseAlone<T(!new)>(cfg: Config, run: seq<State<T>>, t: Tid)
    requires |run| == 9 && CoreInv(cfg, run[0]) && t in run[0].pcs && run[0].pcs[t].Idle?
    requires run[1] == After(cfg, run[0], t, CallClose)
    requires forall i :: 1 <= i < 8 && t in run[i].pcs && Busy(run[i].pcs[t]) ==> Own(cfg, run[i], run[i + 1], t)
    ensures Enabled(cfg, run[0], t, CallClose)
    ensures run[0].g.closed ==>
              && t in run[2].pcs && run[2].pcs[t] == Idle(Refused) && run[2].g == run[0].g
              && WokeOnly(run[0], run[2], t, {})
    ensures !run[0].g.closed ==>
              && t in run[8].pcs && run[8].pcs[t] == Idle(Closed) && run[8].g.lock == None
              && run[8].g.closed && run[8].g.returned && run[8].g.chan == Drain(run[0].g.chan)
              && WokeOnly(run[0], run[8], t, Sleepers(run[0]))
  {
    CloseCalled(cfg, run[0], t);
    assert Own(cfg, run[1], run[1 + 1], t);
    if run[0].g.closed {
      OwnMoves(cfg, run[1], run[2], t);
      WokeOnlyThen(run[0], run[1], run[2], t, {});
    } else {
      ClosesAlone(cfg, run[1..], t);
      hide Own, CoreInv;
      assert Sleepers(run[1]) == Sleepers(run[0]);
    }
  }

  lemma ClosesAlone<T(!new)>(cfg: Config, run: seq<State<T>>, t: Tid)
    requires |run| == 8 && CoreInv(cfg, run[0]) && t in run[0].pcs && run[0].pcs[t] == Swap && !run[0].g.closed
    requires forall i :: 0 <= i < 7 && t in run[i].pcs && Busy(run[i].pcs[t]) ==> Own(cfg, run[i], run[i + 1], t)
    ensures t in run[7].pcs && run[7].pcs[t] == Idle(Closed) && run[7].g.lock == None
    ensures run[7].g.closed && run[7].g.returned && run[7].g.chan == Drain(run[0].g.chan)
    ensures WokeOnly(run[0], run[7], t, Sleepers(run[0]))
  {
    TellsFirst(cfg, run, t);
    hide CoreInv, Own, WokeOnly, Sleepers;
    var head, tail := run[..4], run[3..];
    TellsAll(cfg, head, t);
    forall i | 0 <= i < 4 && t in tail[i].pcs && Busy(tail[i].pcs[t]) ensures Own(cfg, tail[i], tail[i + 1], t) {
      assert Own(cfg, run[i + 3], run[i + 3 + 1], t);
    }
    ClearsAlone(cfg, tail, t);
    NobodyLeft(run[0], run[3], run[7], t);
  }

  lemma TellsFirst<T(!new)>(cfg: Config, run: seq<State<T>>, t: Tid)
    requires |run| >= 4 && t in run[0].pcs && run[0].pcs[t] == Swap && !run[0].g.closed
    requires forall i :: 0 <= i < 3 && t in run[i].pcs && Busy(run[i].pcs[t]) ==> Own(cfg, run[i], run[i + 1], t)
    ensures forall i :: 0 <= i < 3 ==> Own(cfg, run[..4][i], run[..4][i + 1], t)
  {
    assert Own(cfg, run[0], run[0 + 1], t);
    OwnMoves(cfg, run[0], run[1], t);
    assert Own(cfg, run[1], run[1 + 1], t);
    OwnTells(cfg, run[1], run[2], t);
    assert Own(cfg, run[2], run[2 + 1], t);
  }

  lemma OwnTells<T(!new)>(cfg: Config, s: State<T>, s': State<T>, t: Tid)
    requires Own(cfg, s, s', t) && s.pcs[t].TellOutput?
    ensures t in s'.pcs && s'.pcs[t] == TellInput
  {
  }

  // The closing clear, from its wait for the mutex on.
  lemma ClearsAlone<T(!new)>(cfg: Config, run: seq<State<T>>, t: Tid)
    requires |run| == 5 && CoreInv(cfg, run[0]) && t in run[0].pcs && run[0].pcs[t] == Enter(Clear(true))
    requires run[0].g.closed
    requires forall i :: 0 <= i < 4 && t in run[i].pcs && Busy(run[i].pcs[t]) ==> Own(cfg, run[i], run[i + 1], t)
    ensures t in run[4].pcs && run[4].pcs[t] == Idle(Closed) && run[4].g.lock == None
    ensures run[4].g.closed && run[4].g.returned && run[4].g.chan == Drain(run[0].g.chan)
    ensures WokeOnly(run[0], run[4], t, {})
  {
    hide CoreInv, Own, WokeOnly, Drain;
    assert Own(cfg, run[0], run[0 + 1], t);
    Entered(cfg, run[0], run[1], t, Clear(true));
    assert Own(cfg, run[1], run[1 + 1], t);
    OwnMoves(cfg, run[1], run[2], t);
    assert Own(cfg, run[2], run[2 + 1], t);
    OwnMoves(cfg, run[2], run[3], t);
    assert Own(cfg, run[3], run[3 + 1], t);
    ClearingNotes(cfg, run[3], run[4], t);
    WokeOnlyThen(run[0], run[1], run[2], t, {});
    WokeOnlyThen(run[0], run[2], run[3], t, {});
    WokeOnlyThen(run[0], run[3], run[4], t, {});
  }

  // The closing clear notifies nobody: the flag is set.
  lemma ClearingNotes<T(!new)>(cfg: Config, s: State<T>, s': State<T>, t: Tid)
    requires Own(cfg, s, s', t) && s.pcs[t].Note? && s.pcs[t].wake == NoWake && s.pcs[t].reply == Closed
    ensures t in s'.pcs && s'.pcs[t] == Idle(Closed) && s'.g.lock == None && s'.g.returned
    ensures s'.g.chan == s.g.chan && s'.g.closed == s.g.closed && WokeOnly(s, s', t, {})
  {
    var woken := OwnNotes(cfg, s, s', t);
  }

  lemma NobodyLeft<T>(s: State<T>, mid: State<T>, s': State<T>, t: Tid)
    requires WokeOnly(s, mid, t, Sleepers(s)) && WokeOnly(mid, s', t, {})
    ensures WokeOnly(s, s', t, Sleepers(s))
  {
  }

  // ---------------------------------------------------------------------------------- close, in any run

  lemma SleepStays<T(!new)>(cfg: Config, s: State<T>, s': State<T>, u: Tid)
    requires Next(cfg, s, s') && u in s.pcs && u in s'.pcs && s.pcs[u].Asleep? && s'.pcs[u].Asleep?
    ensures s'.pcs[u] == s.pcs[u]
  {
  }

  // Asleep at every state from k to l: in one and the same wait.
  lemma {:induction false} SleepsOn<T(!new)>(cfg: Config, run: seq<State<T>>, k: nat, l: nat, u: Tid)
    requires Run(cfg, run) && k <= l < |run|
    requires forall m :: k <= m <= l ==> u in run[m].pcs && run[m].pcs[u].Asleep?
    ensures run[l].pcs[u] == run[k].pcs[u]
    decreases l
  {
    if k < l {
      SleepsOn(cfg, run, k, l - 1, u);
      RunSteps(cfg, run, l - 1);
      SleepStays(cfg, run[l - 1], run[l], u);
    }
  }

  // How far a close has come: nobody told, output told, both told.
  ghost predicate Told1<T>(pc: PC<T>) { pc.TellInput? || InCall(Clear(true), pc) }

  ghost predicate Told2<T>(pc: PC<T>) { InCall(Clear(true), pc) }

  // The stages of a close.
  ghost predicate Closing<T>(pc: PC<T>) { pc.Swap? || pc.TellOutput? || Told1(pc) }

  lemma OwnTellStep<T>(cfg: Config, s: State<T>, t: Tid, choice: Choice<T>)
    requires Enabled(cfg, s, t, choice) && Closing(s.pcs[t]) && OpFits(cfg, t, s.pcs[t])
    ensures var s' := After(cfg, s, t, choice);
            && (s'.pcs[t].Idle? || Closing(s'.pcs[t]))
            && (Told1(s'.pcs[t]) && !Told1(s.pcs[t]) ==> forall u :: u in s'.pcs ==> !OnOutput(s'.pcs[u]))
            && (Told2(s'.pcs[t]) && !Told2(s.pcs[t]) ==>
                  Told1(s.pcs[t]) && forall u :: u in s'.pcs ==> !OnInput(s'.pcs[u]))
  {
    hide Write;
  }

  lemma TellStep<T(!new)>(cfg: Config, s: State<T>, s': State<T>, t: Tid)
    requires Inv(cfg, s) && Next(cfg, s, s') && t in s.pcs && t in s'.pcs && Closing(s.pcs[t])
    ensures s'.pcs[t].Idle? || Closing(s'.pcs[t])
    ensures Told1(s'.pcs[t]) && !Told1(s.pcs[t]) ==> forall u :: u in s'.pcs ==> !OnOutput(s'.pcs[u])
    ensures Told2(s'.pcs[t]) && !Told2(s.pcs[t]) ==>
              Told1(s.pcs[t]) && forall u :: u in s'.pcs ==> !OnInput(s'.pcs[u])
  {
    var v, choice :| Enabled(cfg, s, v, choice) && s' == After(cfg, s, v, choice);
    FitsAt(cfg, s, t);
    if v == t {
      hide Inv, Enabled, Move, Update, Closing, Told1, Told2;
      OwnTellStep(cfg, s, t, choice);
    } else {
      hide Inv, CoreInv, Enabled, Move, Update;
      assert s'.pcs[t] == s.pcs[t];
    }
  }

  // A close that began at k with its exchange and has come this far by j told each side at some state in between.
  lemma {:induction false} ToldBetween<T(!new)>(cfg: Config, run: seq<State<T>>, k: nat, j: nat, t: Tid)
    returns (a: nat, b: nat)
    requires Run(cfg, run) && k <= j < |run| && t in run[k].pcs && run[k].pcs[t].Swap?
    requires forall l :: k <= l <= j ==> t in run[l].pcs && !run[l].pcs[t].Idle?
    ensures Closing(run[j].pcs[t])
    ensures Told1(run[j].pcs[t]) ==> k < a <= j && forall u :: u in run[a].pcs ==> !OnOutput(run[a].pcs[u])
    ensures Told2(run[j].pcs[t]) ==> k < b <= j && forall u :: u in run[b].pcs ==> !OnInput(run[b].pcs[u])
    decreases j
  {
    a, b := 0, 0;
    if k < j {
      var m := j - 1;
      a, b := ToldBetween(cfg, run, k, m, t);
      RunInv(cfg, run, m);
      RunSteps(cfg, run, m);
      hide Run, Inv, Next, OnOutput, OnInput;
      TellStep(cfg, run[m], run[j], t);
      if Told1(run[j].pcs[t]) && !Told1(run[m].pcs[t]) { a := j; }
      if Told2(run[j].pcs[t]) && !Told2(run[m].pcs[t]) { b := j; }
    }
  }

  /** A close that notifies: in any run, once the closing clear of a close that exchanged the flag after k is under way,
      every thread that slept in the pipeline at k has been woken at some state in between. */
  lemma CloseWakesAll<T(!new)>(cfg: Config, run: seq<State<T>>, k: nat, j: nat, t: Tid, u: Tid) returns (l: nat)
    requires Run(cfg, run) && k <= j < |run| && t in run[k].pcs && run[k].pcs[t].Swap?
    requires forall l :: k <= l <= j ==> t in run[l].pcs && !run[l].pcs[t].Idle?
    requires InCall(Clear(true), run[j].pcs[t])
    requires u in run[k].pcs && run[k].pcs[u].Asleep?
    ensures k < l <= j && u in run[l].pcs && !run[l].pcs[u].Asleep?
  {
    var a, b := ToldBetween(cfg, run, k, j, t);
    RunInv(cfg, run, k);
    assert CoreInv(cfg, run[k]);
    FitsAt(cfg, run[k], u);
    var told := if run[k].pcs[u].op.Pull? then a else b;
    PipelineWindow.ThreadsStay(cfg, run, k, j);
    hide Run, Inv, CoreInv;
    if forall m :: k <= m <= told ==> run[m].pcs[u].Asleep? {
      SleepsOn(cfg, run, k, told, u);
      assert false;
    }
    l :| k <= l <= told && !run[l].pcs[u].Asleep?;
  }
}
