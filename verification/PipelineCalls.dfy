/** What concurrent calls of a pipeline do from entry to return: each takes effect exactly once, under the mutex, and
    answers what it then did. */
module PipelineCalls {
  import opened Options
  import opened Channel
  import opened PipelineThreads

  // Whether op can act on the ring as it is.
  predicate Ready<T>(cfg: Config, c: Channel<T>, op: Op<T>) {
    match op
    case Push(_) => |c.queue| < cfg.cap
    case DropIf => |c.queue| == cfg.cap > 0
    case Clear(_) => true
    case _ => c.queue != []
  }

  function Effect<T>(cfg: Config, c: Channel<T>, op: Op<T>): Channel<T>
    requires Ready(cfg, c, op)
  {
    match op
    case Push(x) => Insert(c, x)
    case Pull => TakeHead(c, Delivered)
    case Clear(_) => Drain(c)
    case _ => TakeHead(c, Deleted)
  }

  function Answer<T>(cfg: Config, c: Channel<T>, op: Op<T>): Reply<T>
    requires Ready(cfg, c, op)
  {
    match op
    case Push(_) => Pushed
    case Pull => Pulled(c.queue[0])
    case Clear(closing) => if closing then Closed else Cleared
    case _ => Dropped
  }

  // Acted, and not yet returned.
  predicate Acted<T>(pc: PC<T>) { pc.Note? || pc.Tested? }

  function Told<T>(pc: PC<T>): Reply<T>
    requires Acted(pc)
  {
    if pc.Note? then pc.reply else if pc.closing then Closed else Cleared
  }

  // What a call answers that finds nothing to act on; None when it goes round its loop again.
  function Denial<T>(cfg: Config, op: Op<T>): Option<Reply<T>> {
    match op
    case Push(_) => if cfg.full == ThrowFull then Some(Thrown) else None
    case Pull => None
    case _ => Some(Refused)
  }

  /** Every step of every thread leaves the ring alone, is the one effect of an operation that was ready for it, or is
      the drop by which a push makes room on a full dropping pipeline. */
  lemma StepIsOneUpdate<T>(cfg: Config, s: State<T>, t: Tid, choice: Choice<T>)
    requires Enabled(cfg, s, t, choice) && CoreInv(cfg, s)
    ensures var pc, s' := s.pcs[t], After(cfg, s, t, choice);
            var c, c', pc' := s.g.chan, s'.g.chan, s'.pcs[t];
            if !pc.Body? then c' == c && (Acted(pc') ==> Acted(pc) && Told(pc) == Told(pc'))
            else if Ready(cfg, c, pc.op) then
              c' == Effect(cfg, c, pc.op) && Acted(pc') && Told(pc') == Answer(cfg, c, pc.op)
            else if pc.op.Push? && cfg.full == DropOldest then
              c.queue != [] && c' == TakeHead(c, Deleted) && pc' == Check(pc.op)
            else
              c' == c && pc' == if Denial(cfg, pc.op) == None then Pred(pc.op) else Idle(Denial(cfg, pc.op).value)
  {
    assert ThreadInv(cfg, s.g, t, s.pcs[t]);
  }

  // What a step of u, at Body or elsewhere, may do to the ring.
  ghost predicate Updates<T>(cfg: Config, s: State<T>, s': State<T>, u: Tid) {
    && u in s.pcs && u in s'.pcs
    && (!s.pcs[u].Body? ==> s'.g.chan == s.g.chan)
    && (s.pcs[u].Body? && Ready(cfg, s.g.chan, s.pcs[u].op) ==>
          && s'.g.chan == Effect(cfg, s.g.chan, s.pcs[u].op)
          && Acted(s'.pcs[u]) && Told(s'.pcs[u]) == Answer(cfg, s.g.chan, s.pcs[u].op))
    && (s.pcs[u].Body? && !Ready(cfg, s.g.chan, s.pcs[u].op) ==>
          s'.g.chan == s.g.chan || (s.g.chan.queue != [] && s'.g.chan == TakeHead(s.g.chan, Deleted)))
  }

  lemma OneUpdateNext<T(!new)>(cfg: Config, s: State<T>, s': State<T>) returns (t: Tid, choice: Choice<T>)
    requires Inv(cfg, s) && Next(cfg, s, s')
    ensures Enabled(cfg, s, t, choice) && s' == After(cfg, s, t, choice) && s'.pcs.Keys == s.pcs.Keys
    ensures Updates(cfg, s, s', t)
  {
    t, choice :| Enabled(cfg, s, t, choice) && s' == After(cfg, s, t, choice);
    StepIsOneUpdate(cfg, s, t, choice);
  }

  // ---------------------------------------------------------------------------------------------- calls in runs

  // t acts for op at m, and from then to j only reports what it did.
  ghost predicate ActsAt<T>(cfg: Config, run: seq<State<T>>, m: nat, j: nat, t: Tid, op: Op<T>)
    requires m < j < |run|
  {
    && t in run[m].pcs && run[m].pcs[t] == Body(op) && Ready(cfg, run[m].g.chan, op)
    && run[m + 1].g.chan == Effect(cfg, run[m].g.chan, op)
    && forall l :: m < l <= j ==>
                     t in run[l].pcs && Acted(run[l].pcs[t]) && Told(run[l].pcs[t]) == Answer(cfg, run[m].g.chan, op)
  }

  // From k to j, t is in its call of op and has not acted.
  ghost predicate NotActed<T>(run: seq<State<T>>, k: nat, j: nat, t: Tid, op: Op<T>)
    requires j < |run|
  {
    forall l :: k <= l <= j ==> t in run[l].pcs && HasOp(run[l].pcs[t]) && run[l].pcs[t].op == op
  }

  // t entered its call of op at k and has not returned by j.
  ghost predicate Calls<T>(run: seq<State<T>>, k: nat, j: nat, t: Tid, op: Op<T>)
    requires k <= j < |run|
  {
    && t in run[k].pcs && run[k].pcs[t] == Enter(op)
    && forall l :: k <= l <= j && t in run[l].pcs ==> !run[l].pcs[t].Idle?
  }

  lemma ActedStep<T(!new)>(cfg: Config, s: State<T>, s': State<T>, t: Tid, op: Op<T>)
    requires Inv(cfg, s) && Next(cfg, s, s') && t in s.pcs && InCall(op, s.pcs[t]) && t in s'.pcs
    ensures Acted(s.pcs[t]) && !s'.pcs[t].Idle? ==> Acted(s'.pcs[t]) && Told(s'.pcs[t]) == Told(s.pcs[t])
    ensures !Acted(s.pcs[t]) && Acted(s'.pcs[t]) ==>
              && s.pcs[t] == Body(op) && Ready(cfg, s.g.chan, op)
              && s'.g.chan == Effect(cfg, s.g.chan, op) && Told(s'.pcs[t]) == Answer(cfg, s.g.chan, op)
  {
    var u, choice :| Enabled(cfg, s, u, choice) && s' == After(cfg, s, u, choice);
    assert CoreInv(cfg, s);
    hide Inv, CoreInv, Enabled, Ready, Effect, Answer;
    if u == t {
      StepIsOneUpdate(cfg, s, t, choice);
      hide Move;
    } else {
      assert Acted(s'.pcs[t]) || s'.pcs[t].Idle? ==> s'.pcs[t] == s.pcs[t];
    }
  }

  /** A call has not acted yet, or it acted exactly once, at m, on a ring that was ready for it: the ring changed by
      just its effect, and what it is about to answer is what it then did. */
  lemma {:induction false} CallActsOnce<T(!new)>(cfg: Config, run: seq<State<T>>, k: nat, j: nat, t: Tid, op: Op<T>)
    returns (m: nat)
    requires Run(cfg, run) && k <= j < |run| && Calls(run, k, j, t, op)
    ensures t in run[j].pcs && InCall(op, run[j].pcs[t])
    ensures if Acted(run[j].pcs[t]) then k < m < j && NotActed(run, k, m, t, op) && ActsAt(cfg, run, m, j, t, op)
            else NotActed(run, k, j, t, op)
    decreases j
  {
    hide *;
    m := 0;
    StaysInCall(cfg, run, k, j, t, op);
    if k == j {
      NotActedYet(run, k, t, op);
    } else {
      var l := j - 1;
      CallsBefore(run, k, j, t, op);
      m := CallActsOnce(cfg, run, k, l, t, op);
      RunInv(cfg, run, l);
      RunSteps(cfg, run, l);
      ActedStep(cfg, run[l], run[j], t, op);
      if !Acted(run[j].pcs[t]) {
        StillNotActed(run, k, j, t, op);
      } else if Acted(run[l].pcs[t]) {
        StillActed(cfg, run, m, j, t, op);
      } else {
        m := l;
        ActsNow(cfg, run, m, t, op);
        EnteredBefore(run, k, j, m, t, op);
      }
    }
  }

  lemma StaysInCall<T(!new)>(cfg: Config, run: seq<State<T>>, k: nat, j: nat, t: Tid, op: Op<T>)
    requires Run(cfg, run) && k <= j < |run| && Calls(run, k, j, t, op)
    ensures t in run[j].pcs && InCall(op, run[j].pcs[t]) && !run[j].pcs[t].Idle?
  {
    CallStays(cfg, run, k, j, t, op);
  }

  lemma RunSteps<T(!new)>(cfg: Config, run: seq<State<T>>, l: nat)
    requires Run(cfg, run) && l + 1 < |run|
    ensures Next(cfg, run[l], run[l + 1])
  {
  }

  lemma CallsBefore<T>(run: seq<State<T>>, k: nat, j: nat, t: Tid, op: Op<T>)
    requires k < j < |run| && Calls(run, k, j, t, op)
    ensures Calls(run, k, j - 1, t, op)
  {
  }

  lemma NotActedYet<T>(run: seq<State<T>>, k: nat, t: Tid, op: Op<T>)
    requires k < |run| && Calls(run, k, k, t, op)
    ensures !Acted(run[k].pcs[t]) && NotActed(run, k, k, t, op)
  {
  }

  lemma EnteredBefore<T>(run: seq<State<T>>, k: nat, j: nat, m: nat, t: Tid, op: Op<T>)
    requires k <= m <= j < |run| && Calls(run, k, j, t, op) && t in run[m].pcs && run[m].pcs[t] == Body(op)
    ensures k < m
  {
  }

  lemma StillNotActed<T>(run: seq<State<T>>, k: nat, j: nat, t: Tid, op: Op<T>)
    requires k < j < |run| && t in run[j].pcs && InCall(op, run[j].pcs[t]) && !Acted(run[j].pcs[t])
    requires t in run[j - 1].pcs && NotActed(run, k, j - 1, t, op)
    ensures NotActed(run, k, j, t, op)
  {
  }

  lemma StillActed<T>(cfg: Config, run: seq<State<T>>, m: nat, j: nat, t: Tid, op: Op<T>)
    requires m < j - 1 && j < |run| && ActsAt(cfg, run, m, j - 1, t, op)
    requires t in run[j - 1].pcs && Acted(run[j - 1].pcs[t])
    requires t in run[j].pcs && Acted(run[j].pcs[t]) && Told(run[j].pcs[t]) == Told(run[j - 1].pcs[t])
    ensures ActsAt(cfg, run, m, j, t, op)
  {
  }

  lemma ActsNow<T>(cfg: Config, run: seq<State<T>>, m: nat, t: Tid, op: Op<T>)
    requires m + 1 < |run| && t in run[m].pcs && run[m].pcs[t] == Body(op) && Ready(cfg, run[m].g.chan, op)
    requires run[m + 1].g.chan == Effect(cfg, run[m].g.chan, op)
    requires t in run[m + 1].pcs && Acted(run[m + 1].pcs[t])
    requires Told(run[m + 1].pcs[t]) == Answer(cfg, run[m].g.chan, op)
    ensures ActsAt(cfg, run, m, m + 1, t, op)
  {
  }

  /** From entry to return, for every operation, pipeline class and interference. A call that t entered at k and
      returns from by the step taken at j either acted once and answers so; or did not act and was refused, a push or
      pull by a close, a drop by an empty ring, a drop_if by one that is not full; or, a push on a throwing pipeline,
      met a full ring. */
  lemma CallAnswers<T(!new)>(cfg: Config, run: seq<State<T>>, k: nat, j: nat, t: Tid, op: Op<T>, choice: Choice<T>)
    returns (m: nat)
    requires Run(cfg, run) && k <= j < |run| && Calls(run, k, j, t, op)
    requires Enabled(cfg, run[j], t, choice) && After(cfg, run[j], t, choice).pcs[t].Idle?
    ensures var g, reply := run[j].g, After(cfg, run[j], t, choice).pcs[t].last;
            if run[j].pcs[t].Note? then
              && k < m < j && NotActed(run, k, m, t, op) && ActsAt(cfg, run, m, j, t, op)
              && reply == Answer(cfg, run[m].g.chan, op)
            else
              && NotActed(run, k, j, t, op)
              && match reply
                 case Refused => if op.Push? || op.Pull? then g.closed else !Ready(cfg, g.chan, op)
                 case Thrown => op.Push? && cfg.full == ThrowFull && |g.chan.queue| == cfg.cap
                 case _ => false
  {
    m := CallActsOnce(cfg, run, k, j, t, op);
    RunInv(cfg, run, j);
    assert ThreadInv(cfg, run[j].g, t, run[j].pcs[t]);
    StepIsOneUpdate(cfg, run[j], t, choice);
  }

  // A close, up to and including its clear.
  ghost predicate InClose<T>(pc: PC<T>) { pc.Swap? || pc.TellOutput? || pc.TellInput? || InCall(Clear(true), pc) }

  /** A close sets the flag, tells every sleeper of both sides, clears, and answers Closed; only one that finds the flag
      set already answers at once. */
  lemma CloseInKind<T>(cfg: Config, s: State<T>, t: Tid, choice: Choice<T>)
    requires Enabled(cfg, s, t, choice) && CoreInv(cfg, s) && InClose(s.pcs[t])
    ensures var pc, s' := s.pcs[t], After(cfg, s, t, choice);
            var pc' := s'.pcs[t];
            && (InClose(pc') || (pc.Swap? && s.g.closed && pc' == Idle(Refused))
                || (pc.Note? && pc' == Idle(Closed) && s'.g.returned))
            && (pc.Swap? ==> s'.g.closed && !pc'.Swap?)
            && (pc.TellOutput? ==> forall u :: u in s'.pcs ==> !OnOutput(s'.pcs[u]))
            && (pc.TellInput? ==> InCall(Clear(true), pc') && forall u :: u in s'.pcs ==> !OnInput(s'.pcs[u]))
  {
    assert ThreadInv(cfg, s.g, t, s.pcs[t]);
  }

  // ------------------------------------------------------------------------------------------- history in runs

  /** What the history calls accepted is what pushes stored: the n-th accepted item is the argument of a push that acted
      when n items had been accepted, and that answers true. */
  lemma {:induction false} AcceptedByPush<T(!new)>(cfg: Config, run: seq<State<T>>, i: nat, n: nat)
    returns (m: nat, t: Tid)
    requires Run(cfg, run) && i < |run| && n < |run[i].g.chan.accepted|
    ensures m < i && t in run[m].pcs && run[m].pcs[t] == Body(Push(run[i].g.chan.accepted[n]))
    ensures |run[m].g.chan.accepted| == n
    ensures t in run[m + 1].pcs && Acted(run[m + 1].pcs[t]) && Told(run[m + 1].pcs[t]) == Pushed
  {
    hide *;
    if i == 0 { StartsEmpty(cfg, run); }
    var l := i - 1;
    RunInv(cfg, run, l);
    RunSteps(cfg, run, l);
    var u, choice := OneUpdateNext(cfg, run[l], run[i]);
    if n < |run[l].g.chan.accepted| {
      HistoryGrows(cfg, run, l, i);
      m, t := AcceptedByPush(cfg, run, l, n);
      AcceptedKept(run[l].g.chan, run[i].g.chan, n);
    } else {
      m, t := l, u;
      AcceptanceIsPush(cfg, run[l], run[i], u, n);
    }
  }

  lemma AcceptedKept<T>(c: Channel<T>, c': Channel<T>, n: nat)
    requires c.accepted <= c'.accepted && n < |c.accepted|
    ensures c'.accepted[n] == c.accepted[n]
  {
  }

  // An acceptance is the effect of a push.
  lemma AcceptanceIsPush<T>(cfg: Config, s: State<T>, s': State<T>, u: Tid, n: nat)
    requires Updates(cfg, s, s', u) && |s.g.chan.accepted| <= n < |s'.g.chan.accepted|
    ensures s.pcs[u] == Body(Push(s'.g.chan.accepted[n])) && |s.g.chan.accepted| == n
    ensures Acted(s'.pcs[u]) && Told(s'.pcs[u]) == Pushed
  {
    DrainAccepts(s.g.chan);
  }

  /** What the history calls delivered is what pulls answered: a delivered n-th removal is the answer of a pull that
      acted when n items had been removed. First in, first out: that item is the n-th accepted one. */
  lemma {:induction false} DeliveredToPull<T(!new)>(cfg: Config, run: seq<State<T>>, i: nat, n: nat)
    returns (m: nat, t: Tid)
    requires Run(cfg, run) && i < |run| && n < |run[i].g.chan.removed| && run[i].g.chan.removed[n].fate == Delivered
    ensures m < i && t in run[m].pcs && run[m].pcs[t] == Body(Pull) && |run[m].g.chan.removed| == n
    ensures t in run[m + 1].pcs && Acted(run[m + 1].pcs[t])
    ensures Told(run[m + 1].pcs[t]) == Pulled(run[i].g.chan.removed[n].item)
    ensures n < |run[i].g.chan.accepted| && run[i].g.chan.removed[n].item == run[i].g.chan.accepted[n]
  {
    hide *;
    if i == 0 { StartsEmpty(cfg, run); }
    var l := i - 1;
    RunInv(cfg, run, l);
    RunSteps(cfg, run, l);
    var u, choice := OneUpdateNext(cfg, run[l], run[i]);
    if n < |run[l].g.chan.removed| {
      HistoryGrows(cfg, run, l, i);
      m, t := DeliveredToPull(cfg, run, l, n);
      HistoryKept(run[l].g.chan, run[i].g.chan, n);
    } else {
      m, t := l, u;
      DeliveryIsPull(cfg, run[l], run[i], u, n);
    }
    RemovedInOrder(cfg, run, i, n);
  }

  lemma StartsEmpty<T(!new)>(cfg: Config, run: seq<State<T>>)
    requires Run(cfg, run)
    ensures run[0].g.chan == Channel([], [], [])
  {
  }

  lemma HistoryKept<T>(c: Channel<T>, c': Channel<T>, n: nat)
    requires c.removed <= c'.removed && n < |c.removed|
    ensures c'.removed[n] == c.removed[n]
  {
  }

  // A removal that is a delivery is the effect of a pull.
  lemma DeliveryIsPull<T>(cfg: Config, s: State<T>, s': State<T>, u: Tid, n: nat)
    requires Updates(cfg, s, s', u)
    requires |s.g.chan.removed| <= n < |s'.g.chan.removed| && s'.g.chan.removed[n].fate == Delivered
    ensures s.pcs[u] == Body(Pull) && |s.g.chan.removed| == n
    ensures Acted(s'.pcs[u]) && Told(s'.pcs[u]) == Pulled(s'.g.chan.removed[n].item)
  {
    if s.pcs[u].Body? && s.pcs[u].op.Clear? { DrainDeletes(s.g.chan, n); }
  }

  lemma DrainDeletes<T>(c: Channel<T>, n: nat)
    requires |c.removed| <= n < |Drain(c).removed|
    ensures Drain(c).removed[n].fate == Deleted
  {
    DrainRemoves(c);
    var i := n - |c.removed|;
    assert Drain(c).removed[|c.removed| + i] == Removal(c.queue[i], Deleted);
  }

  lemma RemovedInOrder<T(!new)>(cfg: Config, run: seq<State<T>>, i: nat, n: nat)
    requires Run(cfg, run) && i < |run| && n < |run[i].g.chan.removed|
    ensures n < |run[i].g.chan.accepted| && run[i].g.chan.removed[n].item == run[i].g.chan.accepted[n]
  {
    FifoConservation(cfg, run, i);
  }
}
