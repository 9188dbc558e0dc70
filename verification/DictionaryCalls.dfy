/** What concurrent inserts do from call to return: each takes effect exactly once, with its own key and value. */
module DictionaryCalls {
  import opened Options
  import opened Rows
  import opened DictionaryThreads

  // An insert that has its node and has not linked it yet.
  predicate Carries<K, V>(pc: PC<K, V>) { pc.Load? || pc.Hook? || pc.Swap? }

  predicate InInsert<K, V>(pc: PC<K, V>) { pc.Make? || Carries(pc) || pc.Bump? }

  predicate InFind<K, V>(pc: PC<K, V>) { pc.Look? || Searches(pc) }

  // At s, t carries a node with the given key and value.
  ghost predicate CarriesEntry<K, V>(s: State<K, V>, t: Tid, made: Addr, k: K, v: V) {
    && t in s.pcs && Carries(s.pcs[t]) && s.pcs[t].made == made
    && made in s.g.heap && s.g.heap[made].key == k && s.g.heap[made].value == v
  }

  // From the state after i to j, t carries one and the same node.
  ghost predicate SameNode<K, V>(run: seq<State<K, V>>, i: nat, j: nat, t: Tid, made: Addr)
    requires j < |run|
  {
    forall l :: i < l <= j ==> t in run[l].pcs && Carries(run[l].pcs[t]) && run[l].pcs[t].made == made
  }

  // From the state after m to j, t has linked its node and is about to count it.
  ghost predicate StaysLinked<K, V>(run: seq<State<K, V>>, m: nat, j: nat, t: Tid)
    requires j < |run|
  {
    forall l :: m < l <= j ==> t in run[l].pcs && run[l].pcs[t].Bump?
  }

  // The step from s to s' pushes the entry, with made as the new head of its bucket.
  ghost predicate Pushes<K(!new), V>(index: K -> nat, s: State<K, V>, s': State<K, V>, made: Addr, k: K, v: V) {
    && (forall q :: index(q) < |s.g.rows|) && |s.g.rows| == |s.g.chains| == |s'.g.chains|
    && s'.g.rows == Apply(index, s.g.rows, Insert(k, v))
    && s'.g.chains == s.g.chains[index(k) := [made] + s.g.chains[index(k)]]
  }

  // ------------------------------------------------------------------------------------------------- one step

  // Nodes keep their key and value, and other threads leave t where it is.
  lemma StepOf<K(!new), V(!new)>(index: K -> nat, s: State<K, V>, s': State<K, V>, t: Tid)
    returns (own: bool, choice: Choice<K, V>)
    requires Next(index, s, s') && t in s'.pcs
    ensures t in s.pcs
    ensures own ==> Enabled(s, t, choice) && Derefs(index, s.g, s.pcs[t]) && s' == After(index, s, t, choice)
    ensures !own ==> s'.pcs[t] == s.pcs[t]
    ensures !own ==> forall a :: a in s.g.heap ==>
                       a in s'.g.heap && s'.g.heap[a].key == s.g.heap[a].key && s'.g.heap[a].value == s.g.heap[a].value
  {
    var u, c :| Enabled(s, u, c) && Derefs(index, s.g, s.pcs[u]) && s' == After(index, s, u, c);
    own, choice := u == t, c;
  }

  lemma KeepsThreads<K(!new), V(!new)>(index: K -> nat, s: State<K, V>, s': State<K, V>)
    requires Next(index, s, s')
    ensures s'.pcs.Keys == s.pcs.Keys
  {
  }

  lemma CarryStep<K(!new), V(!new)>(index: K -> nat, s: State<K, V>, s': State<K, V>, t: Tid)
    requires Inv(index, s) && Next(index, s, s') && t in s'.pcs && Carries(s'.pcs[t])
    ensures t in s.pcs && s'.pcs[t].made in s'.g.heap
    ensures var made := s'.pcs[t].made;
            var k, v := s'.g.heap[made].key, s'.g.heap[made].value;
            s.pcs[t] == Make(k, v) || CarriesEntry(s, t, made, k, v)
  {
    var own, choice := StepOf(index, s, s', t);
    assert ThreadInv(index, s.g, t, s.pcs[t]);
    hide Inv, Next, Linked;
  }

  lemma LinkStep<K(!new), V(!new)>(index: K -> nat, s: State<K, V>, s': State<K, V>, t: Tid)
    requires Inv(index, s) && Next(index, s, s') && t in s'.pcs && s'.pcs[t].Bump?
    ensures t in s.pcs && (s.pcs[t].Bump? || s.pcs[t].Swap?)
    ensures s.pcs[t].Swap? ==>
              var made := s.pcs[t].made;
              made in s.g.heap && Pushes(index, s, s', made, s.g.heap[made].key, s.g.heap[made].value)
  {
    var u, choice :| Enabled(s, u, choice) && Derefs(index, s.g, s.pcs[u]) && s' == After(index, s, u, choice);
    assert ThreadInv(index, s.g, t, s.pcs[t]);
  }

  // A step that changes the table is somebody's compare-and-swap.
  lemma ChangeStep<K(!new), V(!new)>(index: K -> nat, s: State<K, V>, s': State<K, V>) returns (t: Tid)
    requires Inv(index, s) && Next(index, s, s') && s'.g.rows != s.g.rows
    ensures t in s.pcs && t in s'.pcs && s.pcs[t].Swap? && s'.pcs[t].Bump?
  {
    var u, choice :| Enabled(s, u, choice) && Derefs(index, s.g, s.pcs[u]) && s' == After(index, s, u, choice);
    StepIsOneInsert(index, s, u, choice);
    t := u;
  }

  /** A call answers only at its end, and in kind: an insert once it has counted its node, a search from its walk. */
  lemma RepliesInKind<K(!new), V(!new)>(index: K -> nat, s: State<K, V>, t: Tid, choice: Choice<K, V>)
    requires Enabled(s, t, choice) && Derefs(index, s.g, s.pcs[t])
    ensures var pc, pc' := s.pcs[t], After(index, s, t, choice).pcs[t];
            && (InInsert(pc) ==> InInsert(pc') || (pc.Bump? && pc' == Idle(Inserted)))
            && (InFind(pc) ==> InFind(pc') || (pc.Walk? && pc'.Idle? && pc'.last.Answer?))
            && (pc.Idle? ==> pc'.Make? || pc'.Look?)
  {
  }

  // ---------------------------------------------------------------------------------------------- over every run

  lemma {:induction false} NodeBegan<K(!new), V(!new)>(index: K -> nat, run: seq<State<K, V>>, j: nat, t: Tid)
    returns (i: nat)
    requires Run(index, run) && j < |run| && t in run[j].pcs && Carries(run[j].pcs[t])
    ensures i < j && t in run[i].pcs && run[i].pcs[t].Make?
    ensures CarriesEntry(run[j], t, run[j].pcs[t].made, run[i].pcs[t].key, run[i].pcs[t].value)
    ensures SameNode(run, i, j, t, run[j].pcs[t].made)
  {
    hide Run, Inv, Next, SameNode;
    if j == 0 { NothingCarried(index, run, t); }
    var m := j - 1;
    RunInv(index, run, m);
    RunSteps(index, run, m);
    CarryStep(index, run[m], run[j], t);
    if run[m].pcs[t].Make? {
      i := m;
    } else {
      i := NodeBegan(index, run, m, t);
    }
    SameNodeOn(run, i, j, t, run[j].pcs[t].made);
  }

  lemma SameNodeOn<K, V>(run: seq<State<K, V>>, i: nat, j: nat, t: Tid, made: Addr)
    requires i < j < |run| && t in run[j].pcs && Carries(run[j].pcs[t]) && run[j].pcs[t].made == made
    requires i == j - 1 || SameNode(run, i, j - 1, t, made)
    ensures SameNode(run, i, j, t, made)
  {
  }

  lemma NothingCarried<K(!new), V(!new)>(index: K -> nat, run: seq<State<K, V>>, t: Tid)
    requires Run(index, run) && t in run[0].pcs
    ensures run[0].pcs[t].Idle?
  {
  }

  /** insert and emplace are linearizable. An insert that has passed its compare-and-swap allocated its node at i with
      its own key and value, carried that node and no other until m, and pushed that entry at m; it is done since. */
  lemma {:induction false} InsertLinearizes<K(!new), V(!new)>(index: K -> nat, run: seq<State<K, V>>, j: nat, t: Tid)
    returns (i: nat, m: nat)
    requires Run(index, run) && j < |run| && t in run[j].pcs && run[j].pcs[t].Bump?
    ensures i < m < j && t in run[i].pcs && run[i].pcs[t].Make? && t in run[m].pcs && run[m].pcs[t].Swap?
    ensures SameNode(run, i, m, t, run[m].pcs[t].made) && StaysLinked(run, m, j, t)
    ensures Pushes(index, run[m], run[m + 1], run[m].pcs[t].made, run[i].pcs[t].key, run[i].pcs[t].value)
  {
    hide *;
    if j == 0 { NothingCarried(index, run, t); }
    var l := j - 1;
    RunInv(index, run, l);
    RunSteps(index, run, l);
    LinkStep(index, run[l], run[j], t);
    if run[l].pcs[t].Bump? {
      i, m := InsertLinearizes(index, run, l, t);
    } else {
      m := l;
      assert Carries(run[m].pcs[t]) by { SwapCarries(run[m].pcs[t]); }
      i := NodeBegan(index, run, m, t);
      EntryOf(run[m], t, run[m].pcs[t].made, run[i].pcs[t].key, run[i].pcs[t].value);
    }
    StaysLinkedOn(run, m, j, t);
  }

  lemma SwapCarries<K, V>(pc: PC<K, V>)
    requires pc.Swap?
    ensures Carries(pc)
  {
  }

  lemma EntryOf<K, V>(s: State<K, V>, t: Tid, made: Addr, k: K, v: V)
    requires CarriesEntry(s, t, made, k, v)
    ensures made in s.g.heap && s.g.heap[made].key == k && s.g.heap[made].value == v
  {
  }

  lemma StaysLinkedOn<K, V>(run: seq<State<K, V>>, m: nat, j: nat, t: Tid)
    requires m < j < |run| && t in run[j].pcs && run[j].pcs[t].Bump?
    requires m == j - 1 || StaysLinked(run, m, j - 1, t)
    ensures StaysLinked(run, m, j, t)
  {
  }

  /** Conversely every change of the table, at any step of any run, is the push of one insert call's own entry. */
  lemma ChangesAreInserts<K(!new), V(!new)>(index: K -> nat, run: seq<State<K, V>>, m: nat) returns (t: Tid, i: nat)
    requires Run(index, run) && m + 1 < |run| && run[m + 1].g.rows != run[m].g.rows
    ensures i < m && t in run[i].pcs && run[i].pcs[t].Make? && t in run[m].pcs && run[m].pcs[t].Swap?
    ensures SameNode(run, i, m, t, run[m].pcs[t].made) && t in run[m + 1].pcs && run[m + 1].pcs[t].Bump?
    ensures Pushes(index, run[m], run[m + 1], run[m].pcs[t].made, run[i].pcs[t].key, run[i].pcs[t].value)
  {
    RunInv(index, run, m);
    RunSteps(index, run, m);
    hide Run, Inv, Next, Pushes;
    t := ChangeStep(index, run[m], run[m + 1]);
    LinkStep(index, run[m], run[m + 1], t);
    i := NodeBegan(index, run, m, t);
  }

  // Inside an insert of this key and value.
  ghost predicate InsertOf<K, V>(s: State<K, V>, t: Tid, k: K, v: V) {
    && t in s.pcs
    && (s.pcs[t] == Make(k, v) || s.pcs[t].Bump? || (Carries(s.pcs[t]) && CarriesEntry(s, t, s.pcs[t].made, k, v)))
  }

  lemma InsertOfStep<K(!new), V(!new)>(index: K -> nat, s: State<K, V>, s': State<K, V>, t: Tid, k: K, v: V)
    requires Inv(index, s) && Next(index, s, s') && InsertOf(s, t, k, v)
    ensures t in s'.pcs && (s'.pcs[t].Idle? || InsertOf(s', t, k, v))
    ensures s'.pcs[t].Make? ==> s.pcs[t].Make?
  {
    assert t in s'.pcs by { KeepsThreads(index, s, s'); }
    var own, choice := StepOf(index, s, s', t);
    assert ThreadInv(index, s.g, t, s.pcs[t]);
    hide Inv, Next, Linked;
  }

  lemma {:induction false} InsertStays<K(!new), V(!new)>(index: K -> nat, run: seq<State<K, V>>, k: nat, j: nat, t: Tid,
                                                         key: K, value: V)
    requires Run(index, run) && k <= j < |run| && t in run[k].pcs && run[k].pcs[t] == Make(key, value)
    requires forall l :: k <= l <= j && t in run[l].pcs ==> !run[l].pcs[t].Idle?
    ensures InsertOf(run[j], t, key, value)
    decreases j
  {
    if k < j {
      var m := j - 1;
      RunInv(index, run, m);
      RunSteps(index, run, m);
      hide Run, Inv, Next;
      InsertStays(index, run, k, m, t, key, value);
      InsertOfStep(index, run[m], run[j], t, key, value);
    }
  }

  /** From call to return: an insert of key and value that t began at k and returns from by the step taken at j answers
      true and pushed exactly that entry in between, at m. */
  lemma InsertReturns<K(!new), V(!new)>(index: K -> nat, run: seq<State<K, V>>, k: nat, j: nat, t: Tid,
                                        key: K, value: V, choice: Choice<K, V>) returns (m: nat)
    requires Run(index, run) && k <= j < |run| && t in run[k].pcs && run[k].pcs[t] == Make(key, value)
    requires forall l :: k <= l <= j && t in run[l].pcs ==> !run[l].pcs[t].Idle?
    requires Enabled(run[j], t, choice) && Derefs(index, run[j].g, run[j].pcs[t])
    requires After(index, run[j], t, choice).pcs[t].Idle?
    ensures After(index, run[j], t, choice).pcs[t].last == Inserted
    ensures k < m < j && t in run[m].pcs && run[m].pcs[t].Swap? && StaysLinked(run, m, j, t)
    ensures Pushes(index, run[m], run[m + 1], run[m].pcs[t].made, key, value)
  {
    InsertStays(index, run, k, j, t, key, value);
    RepliesInKind(index, run[j], t, choice);
    hide Run, Pushes, Enabled, Derefs, After;
    var i;
    i, m := InsertLinearizes(index, run, j, t);
    if i < k { assert false; }
    InsertStays(index, run, k, i, t, key, value);
  }

  // ------------------------------------------------------------------------------------------- the retry loop

  predicate Hooked<K, V>(pc: PC<K, V>) { pc.Hook? || pc.Swap? }

  lemma HeadStep<K(!new), V(!new)>(index: K -> nat, s: State<K, V>, s': State<K, V>, t: Tid)
    requires Inv(index, s) && Next(index, s, s') && t in s'.pcs && Hooked(s'.pcs[t])
    ensures t in s.pcs && Carries(s.pcs[t]) && s.pcs[t].made == s'.pcs[t].made && s.pcs[t].made in s.g.heap
    ensures s'.pcs[t].made in s'.g.heap && s'.g.heap[s'.pcs[t].made].key == s.g.heap[s.pcs[t].made].key
    ensures if s.pcs[t].Load? then
              var b := index(s.g.heap[s.pcs[t].made].key);
              b < |s.g.table| && s'.pcs[t].expected == s.g.table[b]
            else Hooked(s.pcs[t]) && s.pcs[t].expected == s'.pcs[t].expected
  {
    var own, choice := StepOf(index, s, s', t);
    assert ThreadInv(index, s.g, t, s.pcs[t]);
    hide Inv, Next, Linked;
  }

  // The head an insert expects is the one it loaded at i, of the bucket of its key.
  lemma {:induction false} HeadLoaded<K(!new), V(!new)>(index: K -> nat, run: seq<State<K, V>>, j: nat, t: Tid)
    returns (i: nat)
    requires Run(index, run) && j < |run| && t in run[j].pcs && Hooked(run[j].pcs[t])
    ensures var made := run[j].pcs[t].made;
            && i < j && t in run[i].pcs && run[i].pcs[t] == Load(made)
            && made in run[i].g.heap && made in run[j].g.heap && run[i].g.heap[made].key == run[j].g.heap[made].key
            && var b := index(run[j].g.heap[made].key);
               b < |run[i].g.table| && run[j].pcs[t].expected == run[i].g.table[b]
    ensures forall l :: i < l <= j ==> t in run[l].pcs && Hooked(run[l].pcs[t])
  {
    if j == 0 { NothingCarried(index, run, t); }
    var m := j - 1;
    RunInv(index, run, m);
    RunSteps(index, run, m);
    hide Run, Inv, Next;
    HeadStep(index, run[m], run[j], t);
    if run[m].pcs[t].Load? {
      i := m;
    } else {
      i := HeadLoaded(index, run, m, t);
    }
  }

  /** The address comparison cannot be fooled by a changed bucket: the head is the expected one if and only if nothing
      at all was linked into the bucket since it was loaded. So a comparison fails only if another insert succeeded. */
  lemma SwapSucceedsIff<K(!new), V(!new)>(index: K -> nat, run: seq<State<K, V>>, j: nat, t: Tid) returns (i: nat)
    requires Run(index, run) && j < |run| && t in run[j].pcs && run[j].pcs[t].Swap?
    ensures run[j].pcs[t].made in run[j].g.heap
    ensures var b := index(run[j].g.heap[run[j].pcs[t].made].key);
            && i < j && t in run[i].pcs && run[i].pcs[t] == Load(run[j].pcs[t].made)
            && b < |run[i].g.chains| && b < |run[j].g.chains| == |run[j].g.table|
            && (run[j].g.table[b] == run[j].pcs[t].expected <==> run[j].g.chains[b] == run[i].g.chains[b])
    ensures forall l :: i < l <= j ==> t in run[l].pcs && Hooked(run[l].pcs[t])
  {
    i := HeadLoaded(index, run, j, t);
    var b := index(run[j].g.heap[run[j].pcs[t].made].key);
    HeadIs(index, run, i, b);
    NoInsertLost(index, run, i, j, b);
    HeadIs(index, run, j, b);
    hide Run;
    SameHead(run[i].g.chains[b], run[j].g.chains[b]);
  }

  lemma HeadIs<K(!new), V(!new)>(index: K -> nat, run: seq<State<K, V>>, i: nat, b: nat)
    requires Run(index, run) && i < |run|
    ensures |run[i].g.chains| == |run[i].g.table|
    ensures b < |run[i].g.table| ==>
              var chain := run[i].g.chains[b];
              && run[i].g.table[b] == NodeAt(chain, 0)
              && forall k, l :: 0 <= k < l < |chain| ==> chain[k] != chain[l]
  {
    RunInv(index, run, i);
    if b < |run[i].g.table| { assert BucketInv(run[i].g, b); }
  }

  lemma SameHead(older: seq<Addr>, newer: seq<Addr>)
    requires Suffix(older, newer) && forall k, l :: 0 <= k < l < |newer| ==> newer[k] != newer[l]
    ensures NodeAt(newer, 0) == NodeAt(older, 0) <==> newer == older
  {
    if |older| < |newer| && older != [] { assert older[0] == newer[|newer| - |older|]; }
  }
}
