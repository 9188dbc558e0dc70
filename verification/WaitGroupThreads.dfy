/** One wait_group with any number of waiters. Every section of its methods runs under its mutex, so each step below
    is one such section; waits enqueue in the step that finds the count above zero. */
module WaitGroupThreads {
  import opened Scopes

  type Tid = nat

  datatype Waiter = Outside | Asleep | Woken | Returned

  // live counts the group_scope guards still holding the group; the other totals are history.
  datatype State = State(count: nat, live: nat, init: nat, added: nat, released: nat, waiters: map<Tid, Waiter>)

  datatype Step =
    | Add(n: nat)
    | Open            // construct a group_scope
    | Release         // release, called by a guard that is destroyed or overwritten, or directly
    | Wait(t: Tid)    // enter wait, evaluate the predicate
    | Spurious(t: Tid)
    | Retest(t: Tid)  // woken: take the mutex, evaluate the predicate again
    | Resume(t: Tid)  // the caller goes on

  predicate Enabled(s: State, step: Step) {
    match step
    case Add(n) => n < WORD
    case Open => true
    case Release => true
    case Wait(t) => t in s.waiters && s.waiters[t] == Outside
    case Spurious(t) => t in s.waiters && s.waiters[t] == Asleep
    case Retest(t) => t in s.waiters && s.waiters[t] == Woken
    case Resume(t) => t in s.waiters && s.waiters[t] == Returned
  }

  // notify_all, on the step of release that reaches zero.
  function Notified(s: State): map<Tid, Waiter> {
    if s.count != 1 then s.waiters
    else map t | t in s.waiters :: if s.waiters[t] == Asleep then Woken else s.waiters[t]
  }

  function After(s: State, step: Step): State {
    match step
    case Add(n) => s.(count := (s.count + n) % WORD, added := s.added + n)
    case Open => s.(live := s.live + 1)
    case Release =>
      s.(count := if s.count == 0 then 0 else s.count - 1, live := if s.live == 0 then 0 else s.live - 1,
         released := s.released + 1, waiters := Notified(s))
    case Wait(t) => s.(waiters := s.waiters[t := if s.count == 0 then Returned else Asleep])
    case Spurious(t) => s.(waiters := s.waiters[t := Woken])
    case Retest(t) => s.(waiters := s.waiters[t := if s.count == 0 then Returned else Asleep])
    case Resume(t) => s.(waiters := s.waiters[t := Outside])
  }

  ghost predicate SleepersSafe(s: State) {
    forall t :: t in s.waiters && s.waiters[t] == Asleep ==> s.count > 0
  }

  // An add that wraps the counter round to zero under a sleeper: it notifies nobody.
  ghost predicate Strands(s: State, step: Step) {
    step.Add? && (s.count + step.n) % WORD == 0 && exists t :: t in s.waiters && s.waiters[t] == Asleep
  }

  // That is the one step after which a sleeper nobody woke can find the count at zero, whatever the callers do.
  lemma SleepersSafeIff(s: State, step: Step)
    requires SleepersSafe(s) && Enabled(s, step)
    ensures SleepersSafe(After(s, step)) <==> !Strands(s, step)
  {
    var s' := After(s, step);
    if step.Add? && exists t :: t in s.waiters && s.waiters[t] == Asleep {
      var t :| t in s.waiters && s.waiters[t] == Asleep;
      assert s'.waiters[t] == Asleep;
    }
  }

  ghost predicate Start(s: State) {
    && s.count == s.init < WORD && s.live == s.added == s.released == 0
    && forall t :: t in s.waiters ==> s.waiters[t] == Outside
  }

  // Every run, with no discipline asked of the callers.
  ghost predicate FreeRun(run: seq<State>, steps: seq<Step>) {
    && |run| == |steps| + 1 && Start(run[0])
    && forall i :: 0 <= i < |steps| ==> Enabled(run[i], steps[i]) && run[i + 1] == After(run[i], steps[i])
  }

  lemma {:induction false} SafeUntilStranded(run: seq<State>, steps: seq<Step>, i: nat)
    requires FreeRun(run, steps) && i < |run|
    requires forall k :: 0 <= k < i ==> !Strands(run[k], steps[k])
    ensures SleepersSafe(run[i])
  {
    if i > 0 {
      SafeUntilStranded(run, steps, i - 1);
      assert Enabled(run[i - 1], steps[i - 1]) && run[i - 1 + 1] == After(run[i - 1], steps[i - 1]);
      SleepersSafeIff(run[i - 1], steps[i - 1]);
    }
  }

  /** In every run whatsoever: a sleeper nobody woke always means work is outstanding, if and only if no add wraps the
      counter round to zero under a sleeper. */
  lemma RunSafeIff(run: seq<State>, steps: seq<Step>)
    requires FreeRun(run, steps)
    ensures (forall i :: 0 <= i < |run| ==> SleepersSafe(run[i])) <==>
            (forall k :: 0 <= k < |steps| ==> !Strands(run[k], steps[k]))
  {
    if forall k :: 0 <= k < |steps| ==> !Strands(run[k], steps[k]) {
      forall i | 0 <= i < |run| ensures SleepersSafe(run[i]) { SafeUntilStranded(run, steps, i); }
    }
    if forall i :: 0 <= i < |run| ==> SleepersSafe(run[i]) {
      forall k | 0 <= k < |steps| ensures !Strands(run[k], steps[k]) {
        assert Enabled(run[k], steps[k]) && SleepersSafe(run[k]) && SleepersSafe(run[k + 1]);
        SleepersSafeIff(run[k], steps[k]);
      }
    }
  }

  // From a fresh group of one unit of work: a thread waits, an add wraps round, and the thread sleeps at zero.
  lemma WrapStrandsSleeper()
    ensures var begun := State(1, 0, 1, 0, 0, map[7 := Outside]);
            var waiting := After(begun, Wait(7));
            var stranded := After(waiting, Add(WORD - 1));
            && FreeRun([begun, waiting, stranded], [Wait(7), Add(WORD - 1)])
            && stranded.count == 0 && stranded.waiters[7] == Asleep && !SleepersSafe(stranded)
  {
    var stranded := After(After(State(1, 0, 1, 0, 0, map[7 := Outside]), Wait(7)), Add(WORD - 1));
    assert stranded.waiters[7] == Asleep;
  }

  /** A wait returns exactly when it evaluates its predicate at zero: on entering, or once woken. Nothing else makes it
      return, and a wait that does not return sleeps. */
  lemma WaitReturnsAtZero(s: State, step: Step, t: Tid)
    requires Enabled(s, step) && t in s.waiters && s.waiters[t] != Returned
    ensures t in After(s, step).waiters
    ensures After(s, step).waiters[t] == Returned <==> s.count == 0 && (step == Wait(t) || step == Retest(t))
    ensures step == Wait(t) || step == Retest(t) ==>
              After(s, step).count == s.count && (s.count > 0 ==> After(s, step).waiters[t] == Asleep)
    ensures step == Spurious(t) ==> After(s, step).waiters[t] == Woken
  {
  }

  lemma WaiterResumes(s: State, t: Tid)
    requires Enabled(s, Resume(t))
    ensures After(s, Resume(t)) == s.(waiters := s.waiters[t := Outside])
  {
  }

  // A release wakes every sleeper if it takes the count to zero, and nobody otherwise.
  lemma ReleaseWakesAtZero(s: State)
    ensures var s' := After(s, Release);
            && s'.waiters.Keys == s.waiters.Keys
            && (s.count == 1 ==> s'.count == 0 && forall t :: t in s.waiters ==> s'.waiters[t] != Asleep)
            && (s.count != 1 ==> s'.waiters == s.waiters)
            && forall t :: t in s.waiters && s.waiters[t] != Asleep ==> s'.waiters[t] == s.waiters[t]
  {
  }

  // No waiter sleeps and the count is zero; waiter t, if it was asleep at the release, is on its way out.
  ghost predicate Released(s: State, t: Tid) {
    s.count == 0 && t in s.waiters && (s.waiters[t] == Woken || s.waiters[t] == Returned || s.waiters[t] == Outside)
  }

  lemma {:induction false} StaysReleased(run: seq<State>, steps: seq<Step>, i: nat, j: nat, t: Tid)
    requires FreeRun(run, steps) && i < j < |run| && steps[i] == Release && run[i].count == 1
    requires t in run[i].waiters && run[i].waiters[t] == Asleep
    requires forall k :: i < k < j ==> !steps[k].Add?
    ensures Released(run[j], t)
    ensures (forall k :: i < k < j ==> steps[k] != Retest(t)) ==> run[j].waiters[t] == Woken
    decreases j
  {
    var k := j - 1;
    if i < k { StaysReleased(run, steps, i, k, t); }
    assert Enabled(run[k], steps[k]) && run[k + 1] == After(run[k], steps[k]);
  }

  /** Every waiter asleep when a release takes the count to zero returns by its own next step, whenever that comes,
      unless more work is added first. */
  lemma ReleasedWaiterReturns(run: seq<State>, steps: seq<Step>, i: nat, j: nat, t: Tid)
    requires FreeRun(run, steps) && i < j < |steps| && steps[i] == Release && run[i].count == 1
    requires t in run[i].waiters && run[i].waiters[t] == Asleep
    requires forall k :: i < k < j ==> !steps[k].Add? && steps[k] != Retest(t)
    ensures Enabled(run[j], Retest(t))
    ensures steps[j] == Retest(t) ==> t in run[j + 1].waiters && run[j + 1].waiters[t] == Returned
  {
    StaysReleased(run, steps, i, j, t);
    assert Enabled(run[j], steps[j]) && run[j + 1] == After(run[j], steps[j]);
  }

  // The discipline of the callers: totals below the word size, each guard backed by an add not yet taken.
  predicate Backed(s: State, step: Step) {
    match step
    case Add(n) => s.init + s.added + n < WORD
    case Open => s.live < s.count
    case Release => s.live > 0
    case _ => true
  }

  ghost predicate Run(run: seq<State>, steps: seq<Step>) {
    && FreeRun(run, steps)
    && forall i :: 0 <= i < |steps| ==> Backed(run[i], steps[i])
  }

  /** Over every run of disciplined callers the books balance, the counter covers the live guards, and nobody sleeps
      at zero. */
  lemma {:induction false} LedgerBalances(run: seq<State>, steps: seq<Step>, i: nat)
    requires Run(run, steps) && i < |run|
    ensures run[i].count + run[i].released == run[i].init + run[i].added < WORD
    ensures run[i].live <= run[i].count
    ensures SleepersSafe(run[i])
  {
    if i > 0 {
      LedgerBalances(run, steps, i - 1);
      assert Backed(run[i - 1], steps[i - 1]) && run[i - 1 + 1] == After(run[i - 1], steps[i - 1]);
      SleepersSafeIff(run[i - 1], steps[i - 1]);
    }
  }

  // release never reaches its saturation branch.
  lemma ReleaseNeverSaturates(run: seq<State>, steps: seq<Step>, i: nat)
    requires Run(run, steps) && i < |steps| && steps[i] == Release
    ensures run[i].count > 0 && run[i + 1].count == run[i].count - 1
  {
    LedgerBalances(run, steps, i);
    assert Enabled(run[i], steps[i]) && run[i + 1] == After(run[i], steps[i]);
  }
}
