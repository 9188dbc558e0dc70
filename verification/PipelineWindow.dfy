/** The sliding window of a dropping pipeline, over runs of any number of threads. */
module PipelineWindow {
  import opened Options
  import opened Channel
  import opened PipelineThreads
  import opened Sequences

  // Holding the mutex inside the loop of push(x).
  ghost predicate Pushing<T>(pc: PC<T>, x: T) { pc == Check(Push(x)) || pc == Body(Push(x)) }

  // How often t read or updated the ring between the states i and j.
  ghost function Passes<T>(run: seq<State<T>>, t: Tid, i: nat, j: nat): nat
    requires i <= j < |run| && forall m :: i <= m <= j ==> t in run[m].pcs
    decreases j
  {
    if i == j then 0
    else Passes(run, t, i, j - 1) + if run[j - 1].pcs[t].Body? && !run[j].pcs[t].Body? then 1 else 0
  }

  lemma {:induction false} ThreadsStay<T(!new)>(cfg: Config, run: seq<State<T>>, i: nat, j: nat)
    requires Run(cfg, run) && i <= j < |run|
    ensures forall m :: i <= m <= j ==> run[m].pcs.Keys == run[i].pcs.Keys
    decreases j
  {
    if i < j {
      ThreadsStay(cfg, run, i, j - 1);
      assert Next(cfg, run[j - 1], run[j - 1 + 1]);
    }
  }

  // While t holds the mutex nobody else changes the ring.
  lemma OthersLeaveRing<T>(cfg: Config, s: State<T>, u: Tid, choice: Choice<T>, t: Tid)
    requires CoreInv(cfg, s) && Enabled(cfg, s, u, choice) && t in s.pcs && Holds(s.pcs[t]) && u != t
    ensures After(cfg, s, u, choice).g.chan == s.g.chan && After(cfg, s, u, choice).pcs[t] == s.pcs[t]
  {
    assert ThreadInv(cfg, s.g, t, s.pcs[t]) && ThreadInv(cfg, s.g, u, s.pcs[u]);
  }

  // Where a push that began its loop on the channel was stands after some passes.
  ghost predicate PushStands<T>(cfg: Config, was: Channel<T>, x: T, g: Shared<T>, pc: PC<T>, passes: nat)
    requires cfg.cap > 0 && |was.queue| <= cfg.cap
  {
    if Pushing(pc, x) then
      || (passes == 0 && g.chan == was)
      || (passes == 1 && |was.queue| == cfg.cap && g.chan == TakeHead(was, Deleted))
    else if pc.Note? then
      pc.reply == Pushed && 1 <= passes <= 2 && g.chan == Slide(was, x, cfg.cap)
    else
      pc == Idle(Refused) && g.closed && passes <= 1
  }

  lemma PushStep<T>(cfg: Config, s: State<T>, t: Tid, choice: Choice<T>, was: Channel<T>, x: T, passes: nat)
    requires CoreInv(cfg, s) && Enabled(cfg, s, t, choice) && cfg.full == DropOldest && |was.queue| <= cfg.cap
    requires Pushing(s.pcs[t], x) && PushStands(cfg, was, x, s.g, s.pcs[t], passes)
    ensures var s' := After(cfg, s, t, choice);
            && !(s.pcs[t].Body? && s'.pcs[t].Body?)
            && PushStands(cfg, was, x, s'.g, s'.pcs[t], passes + if s.pcs[t].Body? then 1 else 0)
  {
  }

  lemma PushNext<T(!new)>(cfg: Config, s: State<T>, s': State<T>, t: Tid, was: Channel<T>, x: T, passes: nat)
    requires Inv(cfg, s) && Next(cfg, s, s') && cfg.full == DropOldest && |was.queue| <= cfg.cap
    requires t in s.pcs && Pushing(s.pcs[t], x) && PushStands(cfg, was, x, s.g, s.pcs[t], passes)
    ensures t in s'.pcs
    ensures PushStands(cfg, was, x, s'.g, s'.pcs[t], passes + if s.pcs[t].Body? && !s'.pcs[t].Body? then 1 else 0)
  {
    var u, choice :| Enabled(cfg, s, u, choice) && s' == After(cfg, s, u, choice);
    if u == t {
      PushStep(cfg, s, t, choice, was, x, passes);
    } else {
      OthersLeaveRing(cfg, s, u, choice, t);
    }
  }

  lemma Bounds<T>(cfg: Config, s: State<T>)
    requires Inv(cfg, s)
    ensures cfg.cap > 0 && |s.g.chan.queue| <= cfg.cap
  {
  }

  lemma PushDone<T>(cfg: Config, was: Channel<T>, x: T, g: Shared<T>, pc: PC<T>, passes: nat)
    requires cfg.cap > 0 && |was.queue| <= cfg.cap && PushStands(cfg, was, x, g, pc, passes)
    ensures passes <= 2
    ensures pc.Note? ==> g.chan.queue == LastN(was.queue + [x], cfg.cap)
  {
    SlideIsLastN(was, x, cfg.cap);
  }

  /** Whatever the other threads do, a push on a dropping pipeline that entered its loop at i passes it at most twice,
      and by j it is still in the loop, has slid the window by its item, or was refused by a close. */
  lemma {:induction false} DroppingPushSlides<T(!new)>(cfg: Config, run: seq<State<T>>, i: nat, j: nat, t: Tid, x: T)
    requires Run(cfg, run) && i <= j < |run| && cfg.full == DropOldest
    requires t in run[i].pcs && run[i].pcs[t] == Check(Push(x))
    requires forall m :: i <= m < j && t in run[m].pcs ==> Pushing(run[m].pcs[t], x)
    ensures cfg.cap > 0 && |run[i].g.chan.queue| <= cfg.cap
    ensures forall m :: i <= m <= j ==> t in run[m].pcs
    ensures Passes(run, t, i, j) <= 2
    ensures PushStands(cfg, run[i].g.chan, x, run[j].g, run[j].pcs[t], Passes(run, t, i, j))
    ensures run[j].pcs[t].Note? ==> run[j].g.chan.queue == LastN(run[i].g.chan.queue + [x], cfg.cap)
    decreases j
  {
    hide *;
    RunInv(cfg, run, i);
    Bounds(cfg, run[i]);
    ThreadsStay(cfg, run, i, j);
    if i == j {
      NoPassYet(cfg, run, i, t, x);
    } else {
      var k := j - 1;
      DroppingPushSlides(cfg, run, i, k, t, x);
      RunInv(cfg, run, k);
      RunSteps(cfg, run, k);
      PushNext(cfg, run[k], run[j], t, run[i].g.chan, x, Passes(run, t, i, k));
      LastPass(run, t, i, j);
    }
    PushDone(cfg, run[i].g.chan, x, run[j].g, run[j].pcs[t], Passes(run, t, i, j));
  }

  lemma RunSteps<T(!new)>(cfg: Config, run: seq<State<T>>, k: nat)
    requires Run(cfg, run) && k + 1 < |run|
    ensures Next(cfg, run[k], run[k + 1])
  {
  }

  lemma NoPassYet<T>(cfg: Config, run: seq<State<T>>, i: nat, t: Tid, x: T)
    requires i < |run| && t in run[i].pcs && run[i].pcs[t] == Check(Push(x))
    requires cfg.cap > 0 && |run[i].g.chan.queue| <= cfg.cap
    ensures PushStands(cfg, run[i].g.chan, x, run[i].g, run[i].pcs[t], Passes(run, t, i, i))
  {
  }

  lemma LastPass<T>(run: seq<State<T>>, t: Tid, i: nat, j: nat)
    requires i < j < |run| && forall m :: i <= m <= j ==> t in run[m].pcs
    ensures Passes(run, t, i, j) ==
            Passes(run, t, i, j - 1) + if run[j - 1].pcs[t].Body? && !run[j].pcs[t].Body? then 1 else 0
  {
  }

  // ------------------------------------------------------------------------------------ runs that only push

  // Outside any call, or inside a push.
  predicate PushesOnly<T>(pc: PC<T>) {
    pc.Idle? || (HasOp(pc) && pc.op.Push?) || (pc.Note? && pc.reply == Pushed)
  }

  // A mutex holder that may have dropped the oldest item and not yet stored its own.
  predicate InLoop<T>(pc: PC<T>) { (pc.Check? || pc.Body?) && pc.op.Push? }

  ghost predicate Window<T>(w: seq<T>, queue: seq<T>, holder: PC<T>, cap: nat) {
    queue == w || (InLoop(holder) && |w| == cap > 0 && queue == w[1..])
  }

  lemma StepSlides<T>(cfg: Config, s: State<T>, t: Tid, choice: Choice<T>, w: seq<T>)
    requires CoreInv(cfg, s) && Enabled(cfg, s, t, choice) && cfg.full == DropOldest && !s.g.closed
    requires forall u :: u in s.pcs ==> PushesOnly(s.pcs[u])
    requires PushesOnly(After(cfg, s, t, choice).pcs[t])
    requires |w| <= cfg.cap && Window(w, s.g.chan.queue, HolderPC(s), cfg.cap)
    ensures var s' := After(cfg, s, t, choice);
            && !s'.g.closed && s.g.chan.accepted <= s'.g.chan.accepted
            && var more := s'.g.chan.accepted[|s.g.chan.accepted|..];
               Window(LastN(w + more, cfg.cap), s'.g.chan.queue, HolderPC(s'), cfg.cap)
  {
    var s' := After(cfg, s, t, choice);
    StepKeepsCore(cfg, s, t, choice);
    assert ThreadInv(cfg, s.g, t, s.pcs[t]) && ThreadInv(cfg, s'.g, t, s'.pcs[t]);
    var more := s'.g.chan.accepted[|s.g.chan.accepted|..];
    if s.pcs[t].Body? && |s.g.chan.queue| < cfg.cap {
      var x := s.pcs[t].op.item;
      assert more == [x];
      if |w| == cfg.cap { assert (w + [x])[1..] == w[1..] + [x]; }
    } else {
      assert more == [] && w + more == w;
    }
  }

  ghost predicate OnlyPushes<T>(run: seq<State<T>>, i: nat, j: nat)
    requires j < |run|
  {
    forall m, t :: i <= m <= j && t in run[m].pcs ==> PushesOnly(run[m].pcs[t])
  }

  // Since the channel was was, the window has slid over everything accepted.
  ghost predicate Slid<T>(cfg: Config, was: Channel<T>, s: State<T>) {
    && !s.g.closed && was.accepted <= s.g.chan.accepted
    && Window(LastN(was.queue + s.g.chan.accepted[|was.accepted|..], cfg.cap), s.g.chan.queue, HolderPC(s), cfg.cap)
  }

  lemma SlidNext<T(!new)>(cfg: Config, s: State<T>, s': State<T>, was: Channel<T>)
    requires Inv(cfg, s) && Next(cfg, s, s') && cfg.full == DropOldest && Slid(cfg, was, s)
    requires forall t :: t in s.pcs ==> PushesOnly(s.pcs[t])
    requires forall t :: t in s'.pcs ==> PushesOnly(s'.pcs[t])
    ensures Slid(cfg, was, s')
  {
    var t, choice :| Enabled(cfg, s, t, choice) && s' == After(cfg, s, t, choice);
    assert t in s'.pcs;
    hide *;
    var first, before := was.accepted, s.g.chan.accepted;
    SlidMeans(cfg, was, s);
    LastNIsShort(was.queue + before[|first|..], cfg.cap);
    CoreOf(cfg, s);
    StepSlides(cfg, s, t, choice, LastN(was.queue + before[|first|..], cfg.cap));
    SlideOn(cfg, was, s', before);
  }

  lemma SlidMeans<T>(cfg: Config, was: Channel<T>, s: State<T>)
    requires Slid(cfg, was, s)
    ensures !s.g.closed && was.accepted <= s.g.chan.accepted
    ensures var w := LastN(was.queue + s.g.chan.accepted[|was.accepted|..], cfg.cap);
            Window(w, s.g.chan.queue, HolderPC(s), cfg.cap)
  {
  }

  lemma SlideOn<T>(cfg: Config, was: Channel<T>, s: State<T>, before: seq<T>)
    requires was.accepted <= before <= s.g.chan.accepted && !s.g.closed
    requires var w := LastN(was.queue + before[|was.accepted|..], cfg.cap);
             Window(LastN(w + s.g.chan.accepted[|before|..], cfg.cap), s.g.chan.queue, HolderPC(s), cfg.cap)
    ensures Slid(cfg, was, s)
  {
    hide Window, LastN, HolderPC;
    var since, more := before[|was.accepted|..], s.g.chan.accepted[|before|..];
    SplitHistory(was.accepted, before, s.g.chan.accepted);
    LastNOfLastN(was.queue + since, more, cfg.cap);
    Regroup(was.queue, since, more);
  }

  lemma CoreOf<T>(cfg: Config, s: State<T>)
    requires Inv(cfg, s)
    ensures CoreInv(cfg, s)
  {
  }

  lemma LastNIsShort<T>(s: seq<T>, n: nat)
    ensures |LastN(s, n)| <= n
  {
  }

  lemma SplitHistory<T>(a: seq<T>, b: seq<T>, c: seq<T>)
    requires a <= b <= c
    ensures c[|a|..] == b[|a|..] + c[|b|..]
  {
  }

  /** From any moment of a run of an open dropping pipeline at which no push is half done, however many threads push,
      the ring holds the last cap items of what it held then and has accepted since, as long as every thread only
      pushes. */
  lemma {:induction false} WindowSlides<T(!new)>(cfg: Config, run: seq<State<T>>, i: nat, j: nat)
    requires Run(cfg, run) && i <= j < |run| && cfg.full == DropOldest && !run[i].g.closed
    requires !InLoop(HolderPC(run[i])) && OnlyPushes(run, i, j)
    ensures var was, now := run[i].g.chan, run[j].g.chan;
            && Slid(cfg, was, run[j])
            && (!InLoop(HolderPC(run[j])) ==> now.queue == LastN(was.queue + now.accepted[|was.accepted|..], cfg.cap))
    decreases j
  {
    if i == j {
      RunInv(cfg, run, i);
      assert run[i].g.chan.queue + [] == run[i].g.chan.queue;
    } else {
      var k := j - 1;
      assert Next(cfg, run[k], run[k + 1]);
      WindowSlides(cfg, run, i, k);
      RunInv(cfg, run, k);
      hide Next, Init, Inv;
      SlidNext(cfg, run[k], run[j], run[i].g.chan);
    }
  }

  // So pushes alone, from the start, leave exactly the last cap of the pushed items whenever the mutex is free.
  lemma WindowOfAll<T(!new)>(cfg: Config, run: seq<State<T>>, i: nat)
    requires Run(cfg, run) && i < |run| && cfg.full == DropOldest && OnlyPushes(run, 0, i) && run[i].g.lock == None
    ensures run[i].g.chan.queue == LastN(run[i].g.chan.accepted, cfg.cap)
  {
    WindowSlides(cfg, run, 0, i);
    assert [] + run[i].g.chan.accepted[0..] == run[i].g.chan.accepted;
  }
}
