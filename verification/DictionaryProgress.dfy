/** That concurrent inserts and searches get done: an insert left alone links its node and returns, a failed
    compare-and-swap means another insert succeeded, and a search takes a bounded number of its own steps whatever the
    other threads do. */
module DictionaryProgress {
  import opened Options
  import opened Rows
  import opened DictionaryThreads
  import opened DictionaryCalls

  // A step of t that is no spurious failure of its compare-and-swap.
  ghost predicate Own<K(!new), V(!new)>(index: K -> nat, s: State<K, V>, s': State<K, V>, t: Tid) {
    exists choice :: choice != Fail && Enabled(s, t, choice) && Derefs(index, s.g, s.pcs[t])
                     && s' == After(index, s, t, choice)
  }

  // ------------------------------------------------------------------------------------------------- inserts

  /** In any run, the compare-and-swap step of an insert that does not fail spuriously links its node if and only if
      nothing was linked into the bucket since it loaded the head at i; otherwise it loads the head again. */
  lemma SwapLinksIff<K(!new), V(!new)>(index: K -> nat, run: seq<State<K, V>>, j: nat, t: Tid) returns (i: nat)
    requires Run(index, run) && j < |run| && t in run[j].pcs && run[j].pcs[t].Swap?
    ensures Enabled(run[j], t, Proceed) && Derefs(index, run[j].g, run[j].pcs[t])
    ensures i < j && t in run[i].pcs && run[i].pcs[t] == Load(run[j].pcs[t].made)
    ensures run[j].pcs[t].made in run[j].g.heap
    ensures var made, b := run[j].pcs[t].made, index(run[j].g.heap[run[j].pcs[t].made].key);
            var s' := After(index, run[j], t, Proceed);
            && b < |run[i].g.chains| && b < |run[j].g.chains|
            && s'.pcs[t] == (if run[j].g.chains[b] == run[i].g.chains[b] then Bump else Load(made))
            && (s'.pcs[t].Bump? ==>
                  Pushes(index, run[j], s', made, run[j].g.heap[made].key, run[j].g.heap[made].value))
            && (s'.pcs[t].Load? ==> s'.g == run[j].g)
  {
    i := SwapSucceedsIff(index, run, j, t);
    RunInv(index, run, j);
    AllDerefsSafe(index, run[j], t);
    assert ThreadInv(index, run[j].g, t, run[j].pcs[t]);
  }

  lemma OwnKeepsCore<K(!new), V(!new)>(index: K -> nat, s: State<K, V>, s': State<K, V>, t: Tid)
    requires CoreInv(index, s) && Own(index, s, s', t)
    ensures CoreInv(index, s')
  {
    var choice :| choice != Fail && Enabled(s, t, choice) && Derefs(index, s.g, s.pcs[t])
                  && s' == After(index, s, t, choice);
    StepKeepsCore(index, s, t, choice);
  }

  lemma MakesNode<K(!new), V(!new)>(index: K -> nat, s: State<K, V>, s': State<K, V>, t: Tid)
    requires CoreInv(index, s) && Own(index, s, s', t) && s.pcs[t].Make?
    ensures t in s'.pcs && s'.pcs[t].Load? && s'.pcs[t].made !in s.g.heap
    ensures s'.g.heap == s.g.heap[s'.pcs[t].made := Cell(s.pcs[t].key, s.pcs[t].value, None)]
    ensures CarriesEntry(s', t, s'.pcs[t].made, s.pcs[t].key, s.pcs[t].value)
    ensures s'.g.rows == s.g.rows && s'.g.count == s.g.count && s'.pcs == s.pcs[t := s'.pcs[t]]
  {
  }

  lemma LoadsHead<K(!new), V(!new)>(index: K -> nat, s: State<K, V>, s': State<K, V>, t: Tid, k: K, v: V)
    requires CoreInv(index, s) && Own(index, s, s', t) && s.pcs[t].Load? && CarriesEntry(s, t, s.pcs[t].made, k, v)
    ensures index(k) < |s.g.table|
    ensures s'.pcs == s.pcs[t := Hook(s.pcs[t].made, s.g.table[index(k)])] && s'.g == s.g
    ensures CarriesEntry(s', t, s.pcs[t].made, k, v)
  {
  }

  lemma HooksNode<K(!new), V(!new)>(index: K -> nat, s: State<K, V>, s': State<K, V>, t: Tid, k: K, v: V)
    requires CoreInv(index, s) && Own(index, s, s', t) && s.pcs[t].Hook? && CarriesEntry(s, t, s.pcs[t].made, k, v)
    ensures s'.pcs == s.pcs[t := Swap(s.pcs[t].made, s.pcs[t].expected)]
    ensures s'.g.table == s.g.table && s'.g.rows == s.g.rows && s'.g.count == s.g.count
    ensures CarriesEntry(s', t, s.pcs[t].made, k, v)
  {
  }

  lemma SwapsHead<K(!new), V(!new)>(index: K -> nat, s: State<K, V>, s': State<K, V>, t: Tid, k: K, v: V)
    requires CoreInv(index, s) && Own(index, s, s', t) && s.pcs[t].Swap? && CarriesEntry(s, t, s.pcs[t].made, k, v)
    requires index(k) < |s.g.table| && s.pcs[t].expected == s.g.table[index(k)]
    ensures s'.pcs == s.pcs[t := Bump] && s'.g.count == s.g.count
    ensures Pushes(index, s, s', s.pcs[t].made, k, v)
  {
  }

  lemma CountsNode<K(!new), V(!new)>(index: K -> nat, s: State<K, V>, s': State<K, V>, t: Tid)
    requires CoreInv(index, s) && Own(index, s, s', t) && s.pcs[t].Bump?
    ensures s'.pcs == s.pcs[t := Idle(Inserted)] && s'.g == s.g.(count := s.g.count + 1)
  {
  }

  // From the load of the head, three steps alone link the node.
  lemma LinksAlone<K(!new), V(!new)>(index: K -> nat, run: seq<State<K, V>>, t: Tid, k: K, v: V)
    requires |run| == 4 && CoreInv(index, run[0]) && forall i :: 0 <= i < 3 ==> Own(index, run[i], run[i + 1], t)
    requires t in run[0].pcs && run[0].pcs[t].Load? && CarriesEntry(run[0], t, run[0].pcs[t].made, k, v)
    ensures CoreInv(index, run[3]) && run[3].pcs == run[0].pcs[t := Bump] && run[3].g.count == run[0].g.count
    ensures index(k) < |run[0].g.rows| && run[3].g.rows == Apply(index, run[0].g.rows, Insert(k, v))
  {
    assert Own(index, run[0], run[0 + 1], t) && Own(index, run[1], run[1 + 1], t) && Own(index, run[2], run[2 + 1], t);
    hide CoreInv, Own, CarriesEntry, Pushes;
    var made := run[0].pcs[t].made;
    LoadsHead(index, run[0], run[1], t, k, v);
    OwnKeepsCore(index, run[0], run[1], t);
    HooksNode(index, run[1], run[2], t, k, v);
    OwnKeepsCore(index, run[1], run[2], t);
    SwapsHead(index, run[2], run[3], t, k, v);
    OwnKeepsCore(index, run[2], run[3], t);
    PushApplies(index, run[2], run[3], made, k, v);
  }

  lemma PushApplies<K(!new), V>(index: K -> nat, s: State<K, V>, s': State<K, V>, made: Addr, k: K, v: V)
    requires Pushes(index, s, s', made, k, v)
    ensures index(k) < |s.g.rows| && s'.g.rows == Apply(index, s.g.rows, Insert(k, v))
  {
  }

  // The call itself.
  lemma InsertCalled<K(!new), V(!new)>(index: K -> nat, s: State<K, V>, t: Tid, k: K, v: V)
    requires CoreInv(index, s) && t in s.pcs && s.pcs[t].Idle?
    ensures Enabled(s, t, CallInsert(k, v)) && Derefs(index, s.g, s.pcs[t])
    ensures After(index, s, t, CallInsert(k, v)) == State(s.g, s.pcs[t := Make(k, v)])
    ensures CoreInv(index, After(index, s, t, CallInsert(k, v)))
  {
    StepKeepsCore(index, s, t, CallInsert(k, v));
  }

  /** From call to return: an insert of k and v whose thread is not interrupted, by other threads or by a spurious
      failure, answers true after six steps, has pushed its entry, and has counted it. */
  lemma InsertAlone<K(!new), V(!new)>(index: K -> nat, run: seq<State<K, V>>, t: Tid, k: K, v: V)
    requires |run| == 7 && CoreInv(index, run[0]) && t in run[0].pcs && run[0].pcs[t].Idle?
    requires Derefs(index, run[0].g, run[0].pcs[t]) && run[1] == After(index, run[0], t, CallInsert(k, v))
    requires forall i :: 1 <= i < 6 ==> Own(index, run[i], run[i + 1], t)
    ensures Enabled(run[0], t, CallInsert(k, v))
    ensures run[6].pcs == run[0].pcs[t := Idle(Inserted)] && run[6].g.count == run[0].g.count + 1
    ensures index(k) < |run[0].g.rows| && run[6].g.rows == Apply(index, run[0].g.rows, Insert(k, v))
    ensures Top(StackAt(index, run[6].g.rows, k)) == Some(v)
  {
    InsertCalled(index, run[0], t, k, v);
    assert Own(index, run[1], run[1 + 1], t) && Own(index, run[5], run[5 + 1], t);
    var tail := run[2..6];
    forall i | 0 <= i < 3 ensures Own(index, tail[i], tail[i + 1], t) {
      assert Own(index, run[i + 2], run[i + 2 + 1], t);
    }
    TopAfterInsert(index, run[0].g.rows, k, v);
    hide CoreInv, Own, CarriesEntry, Derefs, Enabled, After, StackAt, Apply;
    MakesNode(index, run[1], run[2], t);
    OwnKeepsCore(index, run[1], run[2], t);
    LinksAlone(index, tail, t, k, v);
    CountsNode(index, run[5], run[6], t);
  }

  lemma TopAfterInsert<K(!new), V>(index: K -> nat, t: Table<K, V>, k: K, v: V)
    ensures index(k) < |t| ==> Top(StackAt(index, Apply(index, t, Insert(k, v)), k)) == Some(v)
  {
    if index(k) < |t| {
      assert ([Entry(k, v)] + t[index(k)])[1..] == t[index(k)];
    }
  }

  // No step is ever impossible: there is always an address left to allocate.
  lemma CanStep<K(!new), V(!new)>(index: K -> nat, s: State<K, V>, t: Tid) returns (choice: Choice<K, V>)
    requires CoreInv(index, s) && t in s.pcs && !s.pcs[t].Idle?
    ensures choice != Fail && Enabled(s, t, choice) && Derefs(index, s.g, s.pcs[t])
    ensures Own(index, s, After(index, s, t, choice), t)
  {
    AllDerefsSafe(index, s, t);
    choice := Proceed;
    if s.pcs[t].Make? {
      var a := Above(s.g.heap.Keys);
      choice := Allocate(a);
    }
  }

  lemma {:induction false} Above(used: set<Addr>) returns (a: Addr)
    ensures forall b :: b in used ==> b < a
  {
    if used == {} {
      a := 0;
    } else {
      var b :| b in used;
      a := Above(used - {b});
      if a <= b { a := b + 1; }
      assert forall c :: c in used ==> c == b || c in used - {b};
    }
  }

  // ------------------------------------------------------------------------------------------------- searches

  // How many own steps a search may still take, its answer included.
  function Ahead<K, V>(pc: PC<K, V>): nat
    requires Searches(pc)
  {
    if pc.Walk? then 2 * pc.left + 1 else 2 * pc.left
  }

  // Each own step of a search brings it one step nearer to its answer, which is the one due.
  lemma SearchAdvancesOwn<K(!new), V(!new)>(index: K -> nat, s: State<K, V>, s': State<K, V>, t: Tid)
    requires CoreInv(index, s) && t in s.pcs && Searches(s.pcs[t]) && Own(index, s, s', t)
    ensures t in s'.pcs && s'.g == s.g
    ensures if Searches(s'.pcs[t]) then
              && Ahead(s'.pcs[t]) == Ahead(s.pcs[t]) - 1 > 0
              && s'.pcs[t].due == s.pcs[t].due && s'.pcs[t].key == s.pcs[t].key
            else s'.pcs[t] == Idle(Answer(s.pcs[t].due))
    ensures s'.pcs[t] != s.pcs[t]
  {
    var pc := s.pcs[t];
    assert ThreadInv(index, s.g, t, pc);
    if pc.Walk? && pc.left > 0 { SearchAdvances(index, s.g, pc.key, pc.cur.value, pc.left, pc.due); }
  }

  // Other threads' steps leave a search where it is.
  lemma SearchUntouched<K(!new), V(!new)>(index: K -> nat, s: State<K, V>, s': State<K, V>, t: Tid)
    requires CoreInv(index, s) && Next(index, s, s') && t in s.pcs && Searches(s.pcs[t])
    ensures t in s'.pcs && (s'.pcs[t] == s.pcs[t] || Own(index, s, s', t))
  {
    var u, choice :| Enabled(s, u, choice) && Derefs(index, s.g, s.pcs[u]) && s' == After(index, s, u, choice);
    if u == t { assert choice != Fail; }
  }

  // The steps of t between the states i and j.
  ghost function OwnSteps<K, V>(run: seq<State<K, V>>, t: Tid, i: nat, j: nat): nat
    requires i <= j < |run| && forall l :: i <= l <= j ==> t in run[l].pcs
    decreases j
  {
    if i == j then 0 else OwnSteps(run, t, i, j - 1) + if run[j].pcs[t] != run[j - 1].pcs[t] then 1 else 0
  }

  lemma LastOwnStep<K, V>(run: seq<State<K, V>>, t: Tid, i: nat, j: nat)
    requires i < j < |run| && forall l :: i <= l <= j ==> t in run[l].pcs
    ensures OwnSteps(run, t, i, j) == OwnSteps(run, t, i, j - 1) + if run[j].pcs[t] != run[j - 1].pcs[t] then 1 else 0
  {
  }

  /** Searches are wait-free: whatever the other threads do, a search that began walking at i over left nodes takes at
      most twice that many own steps and one more, its answer included. */
  lemma {:induction false} FindIsWaitFree<K(!new), V(!new)>(index: K -> nat, run: seq<State<K, V>>, i: nat, j: nat,
                                                            t: Tid)
    requires Run(index, run) && i <= j < |run|
    requires forall l :: i <= l <= j ==> t in run[l].pcs
    requires forall l :: i <= l < j ==> Searches(run[l].pcs[t])
    requires Searches(run[i].pcs[t])
    ensures OwnSteps(run, t, i, j) + (if Searches(run[j].pcs[t]) then Ahead(run[j].pcs[t]) else 0)
            <= Ahead(run[i].pcs[t])
    decreases j
  {
    hide *;
    if i == j {
      NoOwnStep(run, t, i);
    } else {
      var m := j - 1;
      FindIsWaitFree(index, run, i, m, t);
      RunInv(index, run, m);
      CoreOf(index, run[m]);
      DictionaryThreads.RunSteps(index, run, m);
      SearchUntouched(index, run[m], run[j], t);
      AheadPositive(index, run[m], t);
      if run[j].pcs[t] != run[m].pcs[t] { SearchAdvancesOwn(index, run[m], run[j], t); }
      LastOwnStep(run, t, i, j);
    }
  }

  lemma NoOwnStep<K, V>(run: seq<State<K, V>>, t: Tid, i: nat)
    requires i < |run| && t in run[i].pcs
    ensures OwnSteps(run, t, i, i) == 0
  {
  }

  lemma CoreOf<K(!new), V>(index: K -> nat, s: State<K, V>)
    requires Inv(index, s)
    ensures CoreInv(index, s)
  {
  }

  // Alone from inside the walk: the answer due, within the steps ahead.
  lemma {:induction false} WalkAlone<K(!new), V(!new)>(index: K -> nat, run: seq<State<K, V>>, t: Tid) returns (n: nat)
    requires run != [] && CoreInv(index, run[0]) && t in run[0].pcs && Searches(run[0].pcs[t])
    requires |run| > Ahead(run[0].pcs[t])
    requires forall i :: 0 <= i < Ahead(run[0].pcs[t]) && t in run[i].pcs && Searches(run[i].pcs[t]) ==>
                           Own(index, run[i], run[i + 1], t)
    ensures n <= Ahead(run[0].pcs[t]) && t in run[n].pcs && run[n].pcs[t] == Idle(Answer(run[0].pcs[t].due))
    ensures run[n].g == run[0].g
    decreases |run|
  {
    assert Own(index, run[0], run[0 + 1], t) by { AheadPositive(index, run[0], t); }
    SearchAdvancesOwn(index, run[0], run[1], t);
    OwnKeepsCore(index, run[0], run[1], t);
    if Searches(run[1].pcs[t]) {
      var rest := run[1..];
      forall i | 0 <= i < Ahead(rest[0].pcs[t]) && t in rest[i].pcs && Searches(rest[i].pcs[t])
        ensures Own(index, rest[i], rest[i + 1], t)
      {
        assert Own(index, run[i + 1], run[i + 1 + 1], t);
      }
      n := WalkAlone(index, rest, t);
      n := n + 1;
    } else {
      n := 1;
      AheadPositive(index, run[0], t);
    }
  }

  lemma AheadPositive<K(!new), V(!new)>(index: K -> nat, s: State<K, V>, t: Tid)
    requires CoreInv(index, s) && t in s.pcs && Searches(s.pcs[t])
    ensures Ahead(s.pcs[t]) > 0
  {
    assert ThreadInv(index, s.g, t, s.pcs[t]);
  }

  lemma FindCalled<K(!new), V(!new)>(index: K -> nat, s: State<K, V>, t: Tid, k: K)
    requires CoreInv(index, s) && t in s.pcs && s.pcs[t].Idle?
    ensures Enabled(s, t, CallFind(k)) && Derefs(index, s.g, s.pcs[t])
    ensures After(index, s, t, CallFind(k)) == State(s.g, s.pcs[t := Look(k)])
    ensures CoreInv(index, After(index, s, t, CallFind(k)))
  {
    StepKeepsCore(index, s, t, CallFind(k));
  }

  lemma LooksUp<K(!new), V(!new)>(index: K -> nat, s: State<K, V>, s': State<K, V>, t: Tid)
    requires CoreInv(index, s) && Own(index, s, s', t) && s.pcs[t].Look?
    ensures index(s.pcs[t].key) < |s.g.rows| && t in s'.pcs && s'.g == s.g && s'.pcs[t].Walk?
    ensures s'.pcs[t].due == Top(StackAt(index, s.g.rows, s.pcs[t].key))
    ensures s'.pcs[t].left == |s.g.rows[index(s.pcs[t].key)]|
  {
  }

  /** From call to return: a search for k whose thread is not interrupted answers what the table holds for k, after at
      most two steps for each node of the bucket and three more. */
  lemma FindAlone<K(!new), V(!new)>(index: K -> nat, run: seq<State<K, V>>, t: Tid, k: K) returns (n: nat)
    requires run != [] && CoreInv(index, run[0]) && t in run[0].pcs && run[0].pcs[t].Idle?
    requires index(k) < |run[0].g.rows| && |run| == 2 * |run[0].g.rows[index(k)]| + 4
    requires Derefs(index, run[0].g, run[0].pcs[t]) && run[1] == After(index, run[0], t, CallFind(k))
    requires forall i :: 1 <= i < |run| - 1 && t in run[i].pcs && !run[i].pcs[t].Idle? ==>
                           Own(index, run[i], run[i + 1], t)
    ensures Enabled(run[0], t, CallFind(k)) && n < |run|
    ensures t in run[n].pcs && run[n].pcs[t] == Idle(Answer(Top(StackAt(index, run[0].g.rows, k))))
    ensures run[n].g == run[0].g
  {
    FindCalled(index, run[0], t, k);
    assert Own(index, run[1], run[1 + 1], t);
    hide CoreInv, Own, StackAt, Enabled, Derefs, After;
    LooksUp(index, run[1], run[2], t);
    OwnKeepsCore(index, run[1], run[2], t);
    var tail := run[2..];
    forall i | 0 <= i < Ahead(tail[0].pcs[t]) && t in tail[i].pcs && Searches(tail[i].pcs[t])
      ensures Own(index, tail[i], tail[i + 1], t)
    {
      assert Own(index, run[i + 2], run[i + 2 + 1], t);
    }
    n := WalkAlone(index, tail, t);
    n := n + 2;
  }
}
