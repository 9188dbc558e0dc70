/** Any number of threads inserting into and searching one dictionary, with no removal running: inserts push on a
    bucket head by compare-and-swap, searches walk from a head they loaded, and the counter is raised afterwards. */
module DictionaryThreads {
  import opened Options
  import opened Rows

  type Tid = nat
  type Addr = nat

  datatype Cell<+K, +V> = Cell(key: K, value: V, next: Option<Addr>)

  datatype Reply<+V> = Fresh | Inserted | Answer(found: Option<V>)

  // left and due are history: how many nodes are left to visit, and what the search must answer.
  datatype PC<+K, +V> =
    | Idle(last: Reply<V>)
    | Make(key: K, value: V)                     // insert: about to allocate the node
    | Load(made: Addr)                           // about to load the bucket head
    | Hook(made: Addr, expected: Option<Addr>)   // about to store the head in the node's next
    | Swap(made: Addr, expected: Option<Addr>)   // about to compare-and-swap the head
    | Bump                                       // linked, about to raise count_
    | Look(key: K)                               // find: about to load the bucket head
    | Walk(key: K, cur: Option<Addr>, left: nat, due: Option<V>)
    | Onward(key: K, at: Addr, left: nat, due: Option<V>) // key did not match, about to load next

  // chains (addresses, newest first), rows (their entries), linked and owner are history.
  datatype Shared<K, V> = Shared(heap: map<Addr, Cell<K, V>>, table: seq<Option<Addr>>, count: nat,
                                 chains: seq<seq<Addr>>, rows: Table<K, V>, linked: set<Addr>, owner: map<Addr, Tid>)

  datatype State<K, V> = State(g: Shared<K, V>, pcs: map<Tid, PC<K, V>>)

  // Fail is the spurious failure a weak compare-and-swap is allowed.
  datatype Choice<+K, +V> = CallInsert(key: K, value: V) | CallFind(key: K) | Allocate(addr: Addr) | Proceed | Fail

  ghost predicate Enabled<K, V>(s: State<K, V>, t: Tid, choice: Choice<K, V>) {
    t in s.pcs &&
    match s.pcs[t]
    case Idle(_) => choice.CallInsert? || choice.CallFind?
    case Make(_, _) => choice.Allocate? && choice.addr !in s.g.heap
    case Swap(_, _) => choice.Proceed? || choice.Fail?
    case _ => choice.Proceed?
  }

  function NodeAt(chain: seq<Addr>, i: nat): Option<Addr> {
    if i < |chain| then Some(chain[i]) else None
  }

  // The successful compare-and-swap on the bucket of made's key.
  ghost function Linked<K(!new), V>(index: K -> nat, g: Shared<K, V>, made: Addr): Shared<K, V>
    requires made in g.heap && index(g.heap[made].key) < |g.table| == |g.chains| == |g.rows|
  {
    var b := index(g.heap[made].key);
    g.(table := g.table[b := Some(made)],
       chains := g.chains[b := [made] + g.chains[b]],
       rows := Apply(index, g.rows, Insert(g.heap[made].key, g.heap[made].value)),
       linked := g.linked + {made})
  }

  // Every address the next step reads or writes is an allocated node, every bucket it touches exists.
  ghost predicate Derefs<K(!new), V>(index: K -> nat, g: Shared<K, V>, pc: PC<K, V>) {
    && |g.table| == |g.chains| == |g.rows|
    && match pc
       case Load(made) => made in g.heap && index(g.heap[made].key) < |g.table|
       case Hook(made, _) => made in g.heap
       case Swap(made, _) => made in g.heap && index(g.heap[made].key) < |g.table|
       case Look(k) => index(k) < |g.table|
       case Walk(_, cur, _, _) => cur != None ==> cur.value in g.heap
       case Onward(_, at, _, _) => at in g.heap
       case _ => true
  }

  ghost function Move<K(!new), V>(index: K -> nat, g: Shared<K, V>, t: Tid, pc: PC<K, V>, choice: Choice<K, V>):
    (Shared<K, V>, PC<K, V>)
    requires Derefs(index, g, pc)
  {
    match pc
    case Idle(_) =>
      if choice.CallInsert? then (g, Make(choice.key, choice.value))
      else if choice.CallFind? then (g, Look(choice.key))
      else (g, pc)
    case Make(k, v) =>
      if choice.Allocate?
      then (g.(heap := g.heap[choice.addr := Cell(k, v, None)], owner := g.owner[choice.addr := t]), Load(choice.addr))
      else (g, pc)
    case Load(made) => (g, Hook(made, g.table[index(g.heap[made].key)]))
    case Hook(made, expected) => (g.(heap := g.heap[made := g.heap[made].(next := expected)]), Swap(made, expected))
    case Swap(made, expected) =>
      if choice.Proceed? && g.table[index(g.heap[made].key)] == expected
      then (Linked(index, g, made), Bump)
      else (g, Load(made))
    case Bump => (g.(count := g.count + 1), Idle(Inserted))
    case Look(k) => (g, Walk(k, g.table[index(k)], |g.rows[index(k)]|, Top(StackAt(index, g.rows, k))))
    case Walk(k, cur, left, due) =>
      if cur == None then (g, Idle(Answer(None)))
      else if g.heap[cur.value].key == k then (g, Idle(Answer(Some(g.heap[cur.value].value))))
      else (g, Onward(k, cur.value, left, due))
    case Onward(k, at, left, due) => (g, Walk(k, g.heap[at].next, if left > 0 then left - 1 else 0, due))
  }

  ghost function After<K(!new), V>(index: K -> nat, s: State<K, V>, t: Tid, choice: Choice<K, V>): State<K, V>
    requires t in s.pcs && Derefs(index, s.g, s.pcs[t])
  {
    var (g, pc) := Move(index, s.g, t, s.pcs[t], choice);
    State(g, s.pcs[t := pc])
  }

  // ---------------------------------------------------------------------------------------------- invariants

  ghost predicate BucketInv<K, V>(g: Shared<K, V>, b: nat)
    requires b < |g.table| == |g.chains| == |g.rows|
  {
    var chain, row := g.chains[b], g.rows[b];
    && |chain| == |row|
    && g.table[b] == NodeAt(chain, 0)
    && (forall i :: 0 <= i < |chain| ==>
          && chain[i] in g.linked && chain[i] in g.heap
          && g.heap[chain[i]] == Cell(row[i].key, row[i].value, NodeAt(chain, i + 1)))
    && forall i, j :: 0 <= i < j < |chain| ==> chain[i] != chain[j]
  }

  // Every bucket is a finite, acyclic list of exactly the linked nodes of its chain, newest first.
  ghost predicate SharedInv<K(!new), V>(index: K -> nat, g: Shared<K, V>) {
    && |g.table| == |g.chains| == |g.rows|
    && Hashed(index, g.rows)
    && (forall a :: a in g.linked ==> a in g.heap)
    && (forall b :: 0 <= b < |g.table| ==> BucketInv(g, b))
  }

  ghost predicate Private<K, V>(g: Shared<K, V>, t: Tid, made: Addr) {
    made in g.heap && made !in g.linked && made in g.owner && g.owner[made] == t
  }

  // The last left nodes of the key's bucket are still to be searched, and searching them gives due. Pushes in front
  // do not touch them: every head a search ever loaded stays a suffix of its bucket.
  ghost predicate Searching<K, V>(index: K -> nat, chains: seq<seq<Addr>>, rows: Table<K, V>, k: K, cur: Option<Addr>,
                                  left: nat, due: Option<V>) {
    && index(k) < |chains| == |rows|
    && var chain, row := chains[index(k)], rows[index(k)];
       && left <= |chain| == |row|
       && cur == NodeAt(chain, |chain| - left)
       && due == Top(Stack(row[|row| - left..], k))
  }

  ghost predicate ThreadInv<K, V>(index: K -> nat, g: Shared<K, V>, t: Tid, pc: PC<K, V>) {
    match pc
    case Load(made) => Private(g, t, made)
    case Hook(made, _) => Private(g, t, made)
    case Swap(made, expected) => Private(g, t, made) && g.heap[made].next == expected
    case Walk(k, cur, left, due) => Searching(index, g.chains, g.rows, k, cur, left, due)
    case Onward(k, at, left, due) =>
      && Searching(index, g.chains, g.rows, k, Some(at), left, due)
      && left > 0 && g.rows[index(k)][|g.rows[index(k)]| - left].key != k
    case _ => true
  }

  ghost predicate CoreInv<K(!new), V>(index: K -> nat, s: State<K, V>) {
    && SharedInv(index, s.g)
    && forall t :: t in s.pcs ==> ThreadInv(index, s.g, t, s.pcs[t])
  }

  ghost function Linking<K, V>(s: State<K, V>): set<Tid> {
    set t | t in s.pcs && s.pcs[t].Bump?
  }

  // count_ lags behind by the threads that have linked a node and not yet counted it.
  ghost predicate CountInv<K, V>(s: State<K, V>) {
    s.g.count + |Linking(s)| == Total(s.g.rows)
  }

  ghost predicate Inv<K(!new), V>(index: K -> nat, s: State<K, V>) {
    CoreInv(index, s) && CountInv(s)
  }

  // ---------------------------------------------------------------------------------------- one step keeps each

  lemma LinkKeepsShared<K(!new), V>(index: K -> nat, g: Shared<K, V>, t: Tid, made: Addr)
    requires SharedInv(index, g) && Private(g, t, made)
    requires g.heap[made].next == g.table[index(g.heap[made].key)]
    ensures SharedInv(index, Linked(index, g, made))
  {
    var g' := Linked(index, g, made);
    var b := index(g.heap[made].key);
    ApplyKeepsHashed(index, g.rows, Insert(g.heap[made].key, g.heap[made].value));
    forall c | 0 <= c < |g'.table| ensures BucketInv(g', c) {
      assert BucketInv(g, c);
      if c == b {
        var chain := g'.chains[c];
        forall i | 0 <= i < |chain|
          ensures chain[i] in g'.linked && chain[i] in g'.heap
          ensures g'.heap[chain[i]] == Cell(g'.rows[c][i].key, g'.rows[c][i].value, NodeAt(chain, i + 1))
        {
          if i > 0 { assert chain[i] == g.chains[c][i - 1]; }
        }
      }
    }
  }

  lemma MoveKeepsShared<K(!new), V>(index: K -> nat, s: State<K, V>, t: Tid, choice: Choice<K, V>)
    requires Enabled(s, t, choice) && CoreInv(index, s) && Derefs(index, s.g, s.pcs[t])
    ensures SharedInv(index, After(index, s, t, choice).g)
  {
    var g, g' := s.g, After(index, s, t, choice).g;
    var pc := s.pcs[t];
    assert ThreadInv(index, g, t, pc);
    if pc.Swap? && g' != g {
      LinkKeepsShared(index, g, t, pc.made);
    } else {
      forall b | 0 <= b < |g.table| ensures BucketInv(g', b) { assert BucketInv(g, b); }
    }
  }

  lemma LookStarts<K(!new), V>(index: K -> nat, g: Shared<K, V>, k: K)
    requires SharedInv(index, g)
    ensures Searching(index, g.chains, g.rows, k, g.table[index(k)], |g.rows[index(k)]|, Top(StackAt(index, g.rows, k)))
  {
    assert BucketInv(g, index(k));
    assert g.rows[index(k)][0..] == g.rows[index(k)];
  }

  // One node further: a node with another key answers nothing.
  lemma SearchAdvances<K(!new), V>(index: K -> nat, g: Shared<K, V>, k: K, at: Addr, left: nat, due: Option<V>)
    requires SharedInv(index, g) && Searching(index, g.chains, g.rows, k, Some(at), left, due) && left > 0
    ensures at in g.heap && g.heap[at].key == g.rows[index(k)][|g.rows[index(k)]| - left].key
    ensures g.heap[at].key == k ==> due == Some(g.heap[at].value)
    ensures g.heap[at].key != k ==> Searching(index, g.chains, g.rows, k, g.heap[at].next, left - 1, due)
  {
    assert BucketInv(g, index(k));
    var chain, row := g.chains[index(k)], g.rows[index(k)];
    var i := |row| - left;
    assert chain[i] == at && g.heap[at] == Cell(row[i].key, row[i].value, NodeAt(chain, i + 1));
    var rest := row[i..];
    assert rest[0] == row[i] && rest[1..] == row[i + 1..];
    assert Stack(rest, k) == (if row[i].key == k then [row[i].value] else []) + Stack(row[i + 1..], k);
  }

  // Pushing in front of a bucket leaves the part still to be searched as it was.
  lemma SearchUndisturbed<K(!new), V>(index: K -> nat, g: Shared<K, V>, made: Addr, t: Tid, k: K, cur: Option<Addr>,
                                      left: nat, due: Option<V>)
    requires SharedInv(index, g) && Private(g, t, made) && Searching(index, g.chains, g.rows, k, cur, left, due)
    ensures Searching(index, Linked(index, g, made).chains, Linked(index, g, made).rows, k, cur, left, due)
    ensures left > 0 ==>
              var row, row' := g.rows[index(k)], Linked(index, g, made).rows[index(k)];
              row'[|row'| - left] == row[|row| - left]
  {
    var cell := g.heap[made];
    if index(k) == index(cell.key) {
      SuffixOfPush(Entry(cell.key, cell.value), g.rows[index(k)], left);
      SuffixOfPush(made, g.chains[index(k)], left);
    }
  }

  lemma SuffixOfPush<T>(x: T, s: seq<T>, left: nat)
    requires left <= |s|
    ensures ([x] + s)[|s| + 1 - left..] == s[|s| - left..]
    ensures left > 0 ==> ([x] + s)[|s| + 1 - left] == s[|s| - left]
  {
  }

  lemma MoveKeepsOwn<K(!new), V>(index: K -> nat, s: State<K, V>, t: Tid, choice: Choice<K, V>)
    requires Enabled(s, t, choice) && CoreInv(index, s) && Derefs(index, s.g, s.pcs[t])
    ensures ThreadInv(index, After(index, s, t, choice).g, t, After(index, s, t, choice).pcs[t])
  {
    var pc := s.pcs[t];
    assert ThreadInv(index, s.g, t, pc);
    match pc {
      case Look(k) => LookStarts(index, s.g, k);
      case Walk(k, cur, left, due) => if left > 0 { SearchAdvances(index, s.g, k, cur.value, left, due); }
      case Onward(k, at, left, due) => SearchAdvances(index, s.g, k, at, left, due);
      case _ =>
    }
  }

  lemma MoveKeepsOther<K(!new), V>(index: K -> nat, s: State<K, V>, t: Tid, choice: Choice<K, V>, u: Tid)
    requires Enabled(s, t, choice) && CoreInv(index, s) && Derefs(index, s.g, s.pcs[t]) && u in s.pcs && u != t
    ensures ThreadInv(index, After(index, s, t, choice).g, u, s.pcs[u])
  {
    var g, g' := s.g, After(index, s, t, choice).g;
    var pc, other := s.pcs[t], s.pcs[u];
    assert ThreadInv(index, g, t, pc) && ThreadInv(index, g, u, other);
    if pc.Swap? && g' != g {
      match other {
        case Walk(k, cur, left, due) => SearchUndisturbed(index, g, pc.made, t, k, cur, left, due);
        case Onward(k, at, left, due) => SearchUndisturbed(index, g, pc.made, t, k, Some(at), left, due);
        case _ =>
      }
    }
  }

  lemma StepKeepsCore<K(!new), V>(index: K -> nat, s: State<K, V>, t: Tid, choice: Choice<K, V>)
    requires Enabled(s, t, choice) && CoreInv(index, s) && Derefs(index, s.g, s.pcs[t])
    ensures CoreInv(index, After(index, s, t, choice))
  {
    MoveKeepsShared(index, s, t, choice);
    MoveKeepsOwn(index, s, t, choice);
    forall u | u in s.pcs && u != t { MoveKeepsOther(index, s, t, choice, u); }
  }

  /** Every step either leaves the abstract table alone or is one insert, taking effect at its compare-and-swap. */
  lemma StepIsOneInsert<K(!new), V>(index: K -> nat, s: State<K, V>, t: Tid, choice: Choice<K, V>)
    requires Enabled(s, t, choice) && CoreInv(index, s) && Derefs(index, s.g, s.pcs[t])
    ensures var s' := After(index, s, t, choice);
            if s.pcs[t].Swap? && s'.pcs[t].Bump? then
              s.pcs[t].made in s.g.heap
              && s'.g.rows == Apply(index, s.g.rows, Insert(s.g.heap[s.pcs[t].made].key, s.g.heap[s.pcs[t].made].value))
              && Total(s'.g.rows) == Total(s.g.rows) + 1
            else s'.g.rows == s.g.rows && s'.g.chains == s.g.chains
  {
    assert ThreadInv(index, s.g, t, s.pcs[t]);
    if s.pcs[t].Swap? {
      var cell := s.g.heap[s.pcs[t].made];
      TotalUpdate(s.g.rows, index(cell.key), [Entry(cell.key, cell.value)] + s.g.rows[index(cell.key)]);
    }
  }

  lemma StepKeepsCount<K(!new), V>(index: K -> nat, s: State<K, V>, t: Tid, choice: Choice<K, V>)
    requires Enabled(s, t, choice) && Inv(index, s) && Derefs(index, s.g, s.pcs[t])
    ensures CountInv(After(index, s, t, choice))
  {
    var s' := After(index, s, t, choice);
    StepIsOneInsert(index, s, t, choice);
    if s'.pcs[t].Bump? {
      assert Linking(s') == Linking(s) + {t};
    } else if s.pcs[t].Bump? {
      assert Linking(s') == Linking(s) - {t};
    } else {
      assert Linking(s') == Linking(s);
    }
  }

  // ------------------------------------------------------------------------------------------------ every run

  ghost predicate Init<K(!new), V>(index: K -> nat, s: State<K, V>) {
    && (forall k :: index(k) < |s.g.table|)
    && (forall b :: 0 <= b < |s.g.table| ==> s.g.table[b] == None)
    && s.g.heap == map[] && s.g.count == 0
    && s.g.chains == seq(|s.g.table|, _ => []) && s.g.rows == Empty(|s.g.table|)
    && s.g.linked == {} && s.g.owner == map[]
    && forall t :: t in s.pcs ==> s.pcs[t] == Idle(Fresh)
  }

  ghost predicate Next<K(!new), V(!new)>(index: K -> nat, s: State<K, V>, s': State<K, V>) {
    exists t, choice :: Enabled(s, t, choice) && Derefs(index, s.g, s.pcs[t]) && s' == After(index, s, t, choice)
  }

  ghost predicate Run<K(!new), V(!new)>(index: K -> nat, run: seq<State<K, V>>) {
    && run != [] && Init(index, run[0])
    && forall i :: 0 <= i < |run| - 1 ==> Next(index, run[i], run[i + 1])
  }

  lemma InitInv<K(!new), V>(index: K -> nat, s: State<K, V>)
    requires Init(index, s)
    ensures Inv(index, s)
  {
    TotalOfEmpty(s.g.rows);
    assert Linking(s) == {};
  }

  // No step of any thread follows a dangling or null address: the guard in Next never blocks.
  lemma AllDerefsSafe<K(!new), V>(index: K -> nat, s: State<K, V>, t: Tid)
    requires CoreInv(index, s) && t in s.pcs
    ensures Derefs(index, s.g, s.pcs[t])
  {
    var pc := s.pcs[t];
    assert ThreadInv(index, s.g, t, pc);
    if pc.Walk? {
      assert BucketInv(s.g, index(pc.key));
    } else if pc.Onward? {
      assert BucketInv(s.g, index(pc.key));
    }
  }

  lemma NextInv<K(!new), V(!new)>(index: K -> nat, s: State<K, V>, s': State<K, V>)
    requires Inv(index, s) && Next(index, s, s')
    ensures Inv(index, s') && s'.pcs.Keys == s.pcs.Keys
  {
    var t, choice :| Enabled(s, t, choice) && Derefs(index, s.g, s.pcs[t]) && s' == After(index, s, t, choice);
    StepKeepsCore(index, s, t, choice);
    StepKeepsCount(index, s, t, choice);
  }

  lemma {:induction false} RunInv<K(!new), V(!new)>(index: K -> nat, run: seq<State<K, V>>, i: nat)
    requires Run(index, run) && i < |run|
    ensures Inv(index, run[i])
  {
    if i == 0 {
      InitInv(index, run[0]);
    } else {
      RunInv(index, run, i - 1);
      assert Next(index, run[i - 1], run[i - 1 + 1]);
      NextInv(index, run[i - 1], run[i]);
    }
  }

  // ------------------------------------------------------------------------------------------------- theorems

  /** In every reachable state each bucket is a null-terminated list without repeats of allocated nodes, hashed to
      that bucket, and no thread is about to follow an address that is not allocated. */
  lemma ChainsStayLists<K(!new), V(!new)>(index: K -> nat, run: seq<State<K, V>>, i: nat, b: nat)
    requires Run(index, run) && i < |run| && b < |run[i].g.table|
    ensures var g := run[i].g;
            && b < |g.chains| && g.table[b] == NodeAt(g.chains[b], 0)
            && (forall j :: 0 <= j < |g.chains[b]| ==>
                  && g.chains[b][j] in g.heap
                  && index(g.heap[g.chains[b][j]].key) == b
                  && g.heap[g.chains[b][j]].next == NodeAt(g.chains[b], j + 1))
            && forall j, k :: 0 <= j < k < |g.chains[b]| ==> g.chains[b][j] != g.chains[b][k]
    ensures forall t :: t in run[i].pcs ==> Derefs(index, run[i].g, run[i].pcs[t])
  {
    RunInv(index, run, i);
    assert BucketInv(run[i].g, b);
    forall t | t in run[i].pcs ensures Derefs(index, run[i].g, run[i].pcs[t]) { AllDerefsSafe(index, run[i], t); }
  }

  ghost predicate Suffix<T>(s: seq<T>, t: seq<T>) {
    |s| <= |t| && t[|t| - |s|..] == s
  }

  lemma StepKeepsLinks<K(!new), V(!new)>(index: K -> nat, s: State<K, V>, s': State<K, V>, b: nat)
    requires Inv(index, s) && Next(index, s, s') && b < |s.g.chains|
    ensures b < |s'.g.chains| == |s'.g.rows|
    ensures Suffix(s.g.chains[b], s'.g.chains[b]) && Suffix(s.g.rows[b], s'.g.rows[b])
  {
    var t, choice :| Enabled(s, t, choice) && Derefs(index, s.g, s.pcs[t]) && s' == After(index, s, t, choice);
    StepIsOneInsert(index, s, t, choice);
  }

  lemma SuffixTrans<T>(a: seq<T>, b: seq<T>, c: seq<T>)
    requires Suffix(a, b) && Suffix(b, c)
    ensures Suffix(a, c)
  {
    assert c[|c| - |a|..] == c[|c| - |b|..][|b| - |a|..];
  }

  /** No insert is lost: whatever a bucket ever linked stays linked, in place, and later inserts come in front. */
  lemma {:induction false} NoInsertLost<K(!new), V(!new)>(index: K -> nat, run: seq<State<K, V>>, i: nat, j: nat,
                                                          b: nat)
    requires Run(index, run) && i <= j < |run| && b < |run[i].g.chains|
    ensures b < |run[i].g.rows| && b < |run[j].g.chains| == |run[j].g.rows|
    ensures Suffix(run[i].g.chains[b], run[j].g.chains[b])
    ensures Suffix(run[i].g.rows[b], run[j].g.rows[b])
    decreases j
  {
    RunInv(index, run, i);
    if i < j {
      var m := j - 1;
      NoInsertLost(index, run, i, m, b);
      RunInv(index, run, m);
      assert Next(index, run[m], run[m + 1]);
      StepKeepsLinks(index, run[m], run[j], b);
      SuffixTrans(run[i].g.chains[b], run[m].g.chains[b], run[j].g.chains[b]);
      SuffixTrans(run[i].g.rows[b], run[m].g.rows[b], run[j].g.rows[b]);
    }
  }

  /** The counter never overstates the table, and is exact whenever no insert is between its swap and its count. */
  lemma CounterLags<K(!new), V(!new)>(index: K -> nat, run: seq<State<K, V>>, i: nat)
    requires Run(index, run) && i < |run|
    ensures run[i].g.count + |Linking(run[i])| == Total(run[i].g.rows)
    ensures (forall t :: t in run[i].pcs ==> !run[i].pcs[t].Bump?) ==> run[i].g.count == Total(run[i].g.rows)
  {
    RunInv(index, run, i);
    if forall t :: t in run[i].pcs ==> !run[i].pcs[t].Bump? { assert Linking(run[i]) == {}; }
  }

  predicate Searches<K, V>(pc: PC<K, V>) { pc.Walk? || pc.Onward? }

  // From the state after i to j, t is inside one and the same search for key.
  ghost predicate SameSearch<K, V>(run: seq<State<K, V>>, i: nat, j: nat, t: Tid, key: K)
    requires j < |run|
  {
    forall m :: i < m <= j ==> t in run[m].pcs && Searches(run[m].pcs[t]) && run[m].pcs[t].key == key
  }

  // The load of its bucket head that a search for pc.key starts with, at state s.
  ghost predicate BeganAt<K(!new), V>(index: K -> nat, s: State<K, V>, t: Tid, pc: PC<K, V>)
    requires Searches(pc)
  {
    && t in s.pcs && s.pcs[t] == Look(pc.key) && index(pc.key) < |s.g.rows|
    && pc.due == Top(StackAt(index, s.g.rows, pc.key))
  }

  lemma SearchStep<K(!new), V(!new)>(index: K -> nat, s: State<K, V>, s': State<K, V>, t: Tid)
    requires Next(index, s, s') && t in s'.pcs && Searches(s'.pcs[t])
    ensures t in s.pcs
    ensures BeganAt(index, s, t, s'.pcs[t])
            || (Searches(s.pcs[t]) && s.pcs[t].key == s'.pcs[t].key && s.pcs[t].due == s'.pcs[t].due)
  {
    var u, choice :| Enabled(s, u, choice) && Derefs(index, s.g, s.pcs[u]) && s' == After(index, s, u, choice);
  }

  lemma RunStarts<K(!new), V(!new)>(index: K -> nat, run: seq<State<K, V>>, t: Tid)
    requires Run(index, run) && t in run[0].pcs
    ensures !Searches(run[0].pcs[t])
  {
  }

  lemma RunSteps<K(!new), V(!new)>(index: K -> nat, run: seq<State<K, V>>, m: nat)
    requires Run(index, run) && m + 1 < |run|
    ensures Next(index, run[m], run[m + 1])
  {
  }

  // A search under way loaded its bucket head at an earlier state of the run and has not left the call since; what
  // it must answer was read there.
  lemma {:induction false} SearchBegan<K(!new), V(!new)>(index: K -> nat, run: seq<State<K, V>>, j: nat, t: Tid)
    returns (i: nat)
    requires Run(index, run) && j < |run| && t in run[j].pcs && Searches(run[j].pcs[t])
    ensures i < j && BeganAt(index, run[i], t, run[j].pcs[t]) && SameSearch(run, i, j, t, run[j].pcs[t].key)
  {
    hide Run, Next, BeganAt;
    if j == 0 { RunStarts(index, run, t); }
    var m := j - 1;
    RunSteps(index, run, m);
    SearchStep(index, run[m], run[j], t);
    if BeganAt(index, run[m], t, run[j].pcs[t]) {
      i := m;
    } else {
      i := SearchBegan(index, run, m, t);
      SameDue(index, run[i], t, run[m].pcs[t], run[j].pcs[t]);
    }
  }

  lemma SameDue<K(!new), V>(index: K -> nat, s: State<K, V>, t: Tid, pc: PC<K, V>, later: PC<K, V>)
    requires Searches(pc) && Searches(later) && pc.key == later.key && pc.due == later.due && BeganAt(index, s, t, pc)
    ensures BeganAt(index, s, t, later)
  {
  }

  /** find and contains are linearizable: the answer a search returns is what the table held for its key at a moment
      inside the same call, when the search loaded the bucket head, whatever was pushed since. */
  lemma FindLinearizes<K(!new), V(!new)>(index: K -> nat, run: seq<State<K, V>>, j: nat, t: Tid, choice: Choice<K, V>)
    requires Run(index, run) && j < |run| && Enabled(run[j], t, choice) && run[j].pcs[t].Walk?
    requires Derefs(index, run[j].g, run[j].pcs[t]) && After(index, run[j], t, choice).pcs[t].Idle?
    ensures var key, reply := run[j].pcs[t].key, After(index, run[j], t, choice).pcs[t].last;
            reply.Answer? && exists i :: 0 <= i < j && t in run[i].pcs && run[i].pcs[t] == Look(key)
                                         && index(key) < |run[i].g.rows|
                                         && reply.found == Top(StackAt(index, run[i].g.rows, key))
                                         && SameSearch(run, i, j, t, key)
  {
    var i := SearchBegan(index, run, j, t);
    RunInv(index, run, j);
    var pc := run[j].pcs[t];
    assert ThreadInv(index, run[j].g, t, pc);
    if pc.left > 0 { SearchAdvances(index, run[j].g, pc.key, pc.cur.value, pc.left, pc.due); }
  }
}
