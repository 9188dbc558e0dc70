/** The contents of the chained hash table as values: one row of entries per bucket, newest first. */
module Rows {
  import opened Options
  import opened Sequences

  datatype Entry<+K, +V> = Entry(key: K, value: V)

  // Position of the newest entry with key k, or the row's length.
  function First<K(==), V>(row: seq<Entry<K, V>>, k: K): (i: nat)
    ensures i <= |row|
    ensures forall j :: 0 <= j < i ==> row[j].key != k
    ensures i < |row| ==> row[i].key == k
  {
    if row == [] then 0 else if row[0].key == k then 0 else 1 + First(row[1..], k)
  }

  // All values held under k, newest on top.
  function Stack<K(==), V>(row: seq<Entry<K, V>>, k: K): seq<V> {
    if row == [] then []
    else (if row[0].key == k then [row[0].value] else []) + Stack(row[1..], k)
  }

  function Top<V>(stack: seq<V>): Option<V> {
    if stack == [] then None else Some(stack[0])
  }

  function Without<K(==), V>(row: seq<Entry<K, V>>, k: K): seq<Entry<K, V>> {
    var i := First(row, k);
    if i < |row| then row[..i] + row[i + 1..] else row
  }

  function Assigned<K(==), V>(row: seq<Entry<K, V>>, k: K, v: V): seq<Entry<K, V>> {
    var i := First(row, k);
    if i < |row| then row[i := Entry(k, v)] else [Entry(k, v)] + row
  }

  lemma {:induction false} StackConcat<K, V>(a: seq<Entry<K, V>>, b: seq<Entry<K, V>>, k: K)
    ensures Stack(a + b, k) == Stack(a, k) + Stack(b, k)
  {
    if a == [] {
      assert a + b == b;
    } else {
      StackConcat(a[1..], b, k);
      assert (a + b)[1..] == a[1..] + b && (a + b)[0] == a[0];
      var own := if a[0].key == k then [a[0].value] else [];
      assert own + (Stack(a[1..], k) + Stack(b, k)) == (own + Stack(a[1..], k)) + Stack(b, k);
    }
  }

  lemma {:induction false} StackOfOthers<K, V>(row: seq<Entry<K, V>>, k: K)
    requires forall j :: 0 <= j < |row| ==> row[j].key != k
    ensures Stack(row, k) == []
  {
    if row != [] { StackOfOthers(row[1..], k); }
  }

  lemma StackLed<K, V>(e: Entry<K, V>, rest: seq<Entry<K, V>>, q: K)
    ensures Stack([e] + rest, q) == (if q == e.key then [e.value] else []) + Stack(rest, q)
  {
    assert ([e] + rest)[1..] == rest;
  }

  lemma StackSplit<K, V>(row: seq<Entry<K, V>>, i: nat, q: K)
    requires i < |row|
    ensures var own := if q == row[i].key then [row[i].value] else [];
            Stack(row, q) == Stack(row[..i], q) + own + Stack(row[i + 1..], q)
  {
    hide Stack;
    var front, rest := row[..i], row[i + 1..];
    CutAt(row, i);
    StackConcat(front, [row[i]] + rest, q);
    StackLed(row[i], rest, q);
    Regroup(Stack(front, q), if q == row[i].key then [row[i].value] else [], Stack(rest, q));
  }

  // The row around the newest entry for k.
  lemma StackAround<K, V>(row: seq<Entry<K, V>>, k: K, q: K)
    ensures var i := First(row, k);
            && (i < |row| ==>
                  && Stack(row, q) ==
                     Stack(row[..i], q) + (if q == k then [row[i].value] else []) + Stack(row[i + 1..], q)
                  && Stack(row[..i], k) == [])
            && (i == |row| ==> Stack(row, k) == [])
  {
    var i := First(row, k);
    StackOfOthers(row[..i], k);
    if i < |row| { StackSplit(row, i, q); } else { assert row[..i] == row; }
  }

  // Finding the first match is reading the top of the stack.
  lemma FirstIsTop<K, V>(row: seq<Entry<K, V>>, k: K)
    ensures Top(Stack(row, k)) == if First(row, k) < |row| then Some(row[First(row, k)].value) else None
  {
    StackAround(row, k, k);
  }

  lemma WithoutPops<K, V>(row: seq<Entry<K, V>>, k: K, q: K)
    ensures Stack(Without(row, k), q) ==
            if q == k && Stack(row, k) != [] then Stack(row, k)[1..] else Stack(row, q)
  {
    var i := First(row, k);
    StackAround(row, k, q);
    if i < |row| { StackConcat(row[..i], row[i + 1..], q); }
  }

  lemma StackAtFirst<K, V>(row: seq<Entry<K, V>>, k: K)
    ensures var i := First(row, k);
            Stack(row, k) == if i < |row| then [row[i].value] + Stack(row[i + 1..], k) else []
  {
    hide Stack, First;
    StackAround(row, k, k);
    var i := First(row, k);
    if i < |row| {
      var none: seq<V> := [];
      assert none + [row[i].value] == [row[i].value];
    }
  }

  // Overwriting the value at one place changes the stack of no other key, nor where keys are found.
  lemma {:induction false} OverwriteOthers<K, V>(row: seq<Entry<K, V>>, i: nat, v: V, q: K)
    requires i < |row|
    ensures var u := row[i := Entry(row[i].key, v)];
            First(u, q) == First(row, q) && (q != row[i].key ==> Stack(u, q) == Stack(row, q))
  {
    var u := row[i := Entry(row[i].key, v)];
    if i > 0 {
      OverwriteOthers(row[1..], i - 1, v, q);
      assert u[1..] == row[1..][i - 1 := Entry(row[i].key, v)];
    } else {
      assert u[1..] == row[1..];
    }
  }

  lemma AssignedReplacesTop<K, V>(row: seq<Entry<K, V>>, k: K, v: V, q: K)
    ensures Stack(Assigned(row, k, v), q) ==
            if q != k then Stack(row, q)
            else [v] + if Stack(row, k) == [] then [] else Stack(row, k)[1..]
  {
    var i := First(row, k);
    StackAtFirst(row, k);
    if i < |row| {
      var u := row[i := Entry(k, v)];
      OverwriteOthers(row, i, v, q);
      StackAtFirst(u, k);
      assert u[i + 1..] == row[i + 1..];
    } else {
      assert ([Entry(k, v)] + row)[1..] == row;
    }
  }

  // ------------------------------------------------------------------------------------------ the whole table

  type Table<K, V> = seq<seq<Entry<K, V>>>

  function Empty<K, V>(buckets: nat): Table<K, V> { seq(buckets, _ => []) }

  // index is key_index: some function of the key into the buckets. Each entry sits in the bucket of its key.
  ghost predicate Hashed<K(!new), V>(index: K -> nat, t: Table<K, V>) {
    && (forall k :: index(k) < |t|)
    && forall b, i :: 0 <= b < |t| && 0 <= i < |t[b]| ==> index(t[b][i].key) == b
  }

  ghost function StackAt<K, V>(index: K -> nat, t: Table<K, V>, k: K): seq<V>
    requires index(k) < |t|
  {
    Stack(t[index(k)], k)
  }

  datatype Op<+K, +V> = Insert(key: K, value: V) | Assign(key: K, value: V) | TryEmplace(key: K, value: V)
    | Remove(key: K) | Clear

  ghost function Apply<K, V>(index: K -> nat, t: Table<K, V>, op: Op<K, V>): (u: Table<K, V>)
    requires !op.Clear? ==> index(op.key) < |t|
    ensures |u| == |t|
  {
    if op.Clear? then Empty(|t|)
    else
      var b := index(op.key);
      match op
      case Insert(k, v) => t[b := [Entry(k, v)] + t[b]]
      case Assign(k, v) => t[b := Assigned(t[b], k, v)]
      case TryEmplace(k, v) => if First(t[b], k) < |t[b]| then t else t[b := [Entry(k, v)] + t[b]]
      case Remove(k) => t[b := Without(t[b], k)]
      case Clear => t
  }

  // What each operation does to the stack of values under q.
  function StackAfter<K(==), V>(stack: seq<V>, op: Op<K, V>, q: K): seq<V> {
    if op.Clear? then []
    else if op.key != q then stack
    else match op
      case Insert(_, v) => [v] + stack
      case Assign(_, v) => [v] + if stack == [] then [] else stack[1..]
      case TryEmplace(_, v) => if stack == [] then [v] else stack
      case Remove(_) => if stack == [] then [] else stack[1..]
      case Clear => []
  }

  lemma ApplyKeepsHashed<K(!new), V>(index: K -> nat, t: Table<K, V>, op: Op<K, V>)
    requires Hashed(index, t)
    ensures Hashed(index, Apply(index, t, op))
  {
  }

  /** The table refines a stack of values per key: insert pushes, insert_or_assign replaces the top or pushes,
      try_emplace pushes on an empty stack only, remove pops, clear empties, and every other key is untouched. */
  lemma ApplyRefinesStacks<K(!new), V>(index: K -> nat, t: Table<K, V>, op: Op<K, V>, q: K)
    requires Hashed(index, t)
    ensures StackAt(index, Apply(index, t, op), q) == StackAfter(StackAt(index, t, q), op, q)
  {
    if !op.Clear? {
      var row := t[index(op.key)];
      StackAround(row, op.key, op.key);
      match op {
        case Insert(k, v) => StackConcat([Entry(k, v)], row, q);
        case Assign(k, v) => AssignedReplacesTop(row, k, v, q);
        case TryEmplace(k, v) => StackConcat([Entry(k, v)], row, q);
        case Remove(k) => WithoutPops(row, k, q);
        case Clear =>
      }
    }
  }

  // remove takes back exactly the last insert of its key, restoring what it shadowed.
  lemma RemoveUndoesInsert<K, V>(index: K -> nat, t: Table<K, V>, k: K, v: V)
    requires index(k) < |t|
    ensures Apply(index, Apply(index, t, Insert(k, v)), Remove(k)) == t
  {
    var b := index(k);
    assert Without([Entry(k, v)] + t[b], k) == t[b];
  }

  // ------------------------------------------------------------------------------------------------ unique keys

  ghost predicate Unique<K(!new), V>(index: K -> nat, t: Table<K, V>)
    requires forall k :: index(k) < |t|
  {
    forall k :: |StackAt(index, t, k)| <= 1
  }

  ghost function Keys<K, V>(t: Table<K, V>): set<K> {
    set b, i | 0 <= b < |t| && 0 <= i < |t[b]| :: t[b][i].key
  }

  lemma {:induction false} StackNonEmpty<K, V>(row: seq<Entry<K, V>>, i: nat)
    requires i < |row|
    ensures Stack(row, row[i].key) != []
  {
    if i > 0 { StackNonEmpty(row[1..], i - 1); }
  }

  lemma KeyHasValue<K(!new), V>(index: K -> nat, t: Table<K, V>, k: K)
    requires Hashed(index, t)
    ensures k in Keys(t) <==> StackAt(index, t, k) != []
  {
    var b := index(k);
    StackAround(t[b], k, k);
    if First(t[b], k) < |t[b]| {
      assert t[b][First(t[b], k)].key in Keys(t);
    }
  }

  // The finite map a table stands for: each key with the top of its stack.
  ghost function AsMap<K(!new), V>(index: K -> nat, t: Table<K, V>): (m: map<K, V>)
    requires Hashed(index, t)
    ensures forall k :: k in m <==> StackAt(index, t, k) != []
    ensures forall k :: k in m ==> m[k] == StackAt(index, t, k)[0]
  {
    assert forall k :: k in Keys(t) <==> StackAt(index, t, k) != [] by {
      forall k ensures k in Keys(t) <==> StackAt(index, t, k) != [] { KeyHasValue(index, t, k); }
    }
    map k | k in Keys(t) :: StackAt(index, t, k)[0]
  }

  function MapAfter<K, V>(m: map<K, V>, op: Op<K, V>): map<K, V> {
    match op
    case Insert(k, v) => m[k := v]
    case Assign(k, v) => m[k := v]
    case TryEmplace(k, v) => if k in m then m else m[k := v]
    case Remove(k) => m - {k}
    case Clear => map[]
  }

  function Get<K, V>(m: map<K, V>, k: K): Option<V> {
    if k in m then Some(m[k]) else None
  }

  lemma MapEntryAfter<K, V>(m: map<K, V>, stack: seq<V>, op: Op<K, V>, q: K)
    requires |stack| <= 1 && !op.Insert? && Get(m, q) == Top(stack)
    ensures Get(MapAfter(m, op), q) == Top(StackAfter(stack, op, q))
  {
  }

  lemma ApplyKeepsUnique<K(!new), V>(index: K -> nat, t: Table<K, V>, op: Op<K, V>)
    requires Hashed(index, t) && Unique(index, t) && !op.Insert?
    ensures Unique(index, Apply(index, t, op))
  {
    forall q ensures |StackAt(index, Apply(index, t, op), q)| <= 1 {
      ApplyRefinesStacks(index, t, op, q);
      assert |StackAt(index, t, q)| <= 1;
    }
  }

  lemma MapAt<K(!new), V>(index: K -> nat, t: Table<K, V>, op: Op<K, V>, q: K)
    requires Hashed(index, t) && Unique(index, t) && !op.Insert?
    requires Hashed(index, Apply(index, t, op))
    ensures Get(AsMap(index, Apply(index, t, op)), q) == Get(MapAfter(AsMap(index, t), op), q)
  {
    ApplyRefinesStacks(index, t, op, q);
    assert |StackAt(index, t, q)| <= 1;
    MapEntryAfter(AsMap(index, t), StackAt(index, t, q), op, q);
  }

  lemma SameMap<K(!new), V>(m: map<K, V>, n: map<K, V>)
    requires forall q :: Get(m, q) == Get(n, q)
    ensures m == n
  {
    forall q ensures q in m <==> q in n { assert Get(m, q) == Get(n, q); }
    forall q | q in m ensures m[q] == n[q] { assert Get(m, q) == Get(n, q); }
  }

  /** Without plain insert and emplace, keys stay unique and the table is a finite map. */
  lemma ApplyRefinesMap<K(!new), V>(index: K -> nat, t: Table<K, V>, op: Op<K, V>)
    requires Hashed(index, t) && Unique(index, t) && !op.Insert?
    ensures Hashed(index, Apply(index, t, op)) && Unique(index, Apply(index, t, op))
    ensures AsMap(index, Apply(index, t, op)) == MapAfter(AsMap(index, t), op)
  {
    ApplyKeepsHashed(index, t, op);
    ApplyKeepsUnique(index, t, op);
    forall q { MapAt(index, t, op, q); }
    SameMap(AsMap(index, Apply(index, t, op)), MapAfter(AsMap(index, t), op));
  }

  ghost function Fold<K(!new), V>(index: K -> nat, t: Table<K, V>, ops: seq<Op<K, V>>): (u: Table<K, V>)
    requires forall k :: index(k) < |t|
    ensures |u| == |t|
  {
    if ops == [] then t else Apply(index, Fold(index, t, ops[..|ops| - 1]), ops[|ops| - 1])
  }

  function FoldMap<K, V>(ops: seq<Op<K, V>>): map<K, V> {
    if ops == [] then map[] else MapAfter(FoldMap(ops[..|ops| - 1]), ops[|ops| - 1])
  }

  // Every run of insert_or_assign, try_emplace, remove and clear from the empty table.
  lemma {:induction false} RunRefinesMap<K(!new), V>(index: K -> nat, buckets: nat, ops: seq<Op<K, V>>)
    requires forall k :: index(k) < buckets
    requires forall i :: 0 <= i < |ops| ==> !ops[i].Insert?
    ensures var t := Fold(index, Empty(buckets), ops);
            && Hashed(index, t) && Unique(index, t)
            && AsMap(index, t) == FoldMap(ops)
            && |FoldMap(ops)| == Total(t)
  {
    var t := Fold(index, Empty(buckets), ops);
    if ops != [] {
      var front := ops[..|ops| - 1];
      RunRefinesMap(index, buckets, front);
      ApplyRefinesMap(index, Fold(index, Empty(buckets), front), ops[|ops| - 1]);
    }
    SizeIsCardinality(index, t);
  }

  // ---------------------------------------------------------------------------------------------- size and keys

  function Total<K, V>(t: Table<K, V>): nat {
    if t == [] then 0 else Total(t[..|t| - 1]) + |t[|t| - 1]|
  }

  lemma {:induction false} TotalUpdate<K, V>(t: Table<K, V>, b: nat, row: seq<Entry<K, V>>)
    requires b < |t|
    ensures Total(t[b := row]) == Total(t) - |t[b]| + |row|
  {
    var n := |t| - 1;
    if b < n {
      TotalUpdate(t[..n], b, row);
      assert t[b := row][..n] == t[..n][b := row];
    } else {
      assert t[b := row][..n] == t[..n];
    }
  }

  lemma {:induction false} TotalOfEmpty<K, V>(t: Table<K, V>)
    requires forall b :: 0 <= b < |t| ==> t[b] == []
    ensures Total(t) == 0
  {
    if t != [] { TotalOfEmpty(t[..|t| - 1]); }
  }

  function RowKeys<K, V>(row: seq<Entry<K, V>>): (keys: seq<K>)
    ensures |keys| == |row|
    ensures forall i :: 0 <= i < |row| ==> keys[i] == row[i].key
  {
    seq(|row|, i requires 0 <= i < |row| => row[i].key)
  }

  // The order in which keys() and each() visit the table.
  function AllKeys<K, V>(t: Table<K, V>): (keys: seq<K>)
    ensures |keys| == Total(t)
  {
    if t == [] then [] else AllKeys(t[..|t| - 1]) + RowKeys(t[|t| - 1])
  }

  /** keys() bucket by bucket, each from its head: the entry at i of bucket b comes after all entries of the buckets
      before b and the first i of its own. */
  lemma {:induction false} KeysInOrder<K, V>(t: Table<K, V>, b: nat, i: nat)
    requires b < |t| && i < |t[b]|
    ensures Total(t[..b]) + i < |AllKeys(t)| && AllKeys(t)[Total(t[..b]) + i] == t[b][i].key
  {
    var n := |t| - 1;
    if b < n {
      KeysInOrder(t[..n], b, i);
      assert t[..n][..b] == t[..b];
    }
  }

  lemma {:induction false} AllKeysAreKeys<K, V>(t: Table<K, V>, k: K)
    ensures k in AllKeys(t) <==> k in Keys(t)
  {
    if t != [] {
      var front: Table<K, V> := t[..|t| - 1];
      var row := t[|t| - 1];
      AllKeysAreKeys(front, k);
      if k in Keys(t) {
        var b, i :| 0 <= b < |t| && 0 <= i < |t[b]| && t[b][i].key == k;
        if b < |front| { assert front[b][i].key in Keys(front); } else { assert RowKeys(row)[i] == k; }
      }
      if k in RowKeys(row) {
        var i :| 0 <= i < |row| && RowKeys(row)[i] == k;
        assert t[|t| - 1][i].key in Keys(t);
      } else if k in Keys(front) {
        var b, i :| 0 <= b < |front| && 0 <= i < |front[b]| && front[b][i].key == k;
        assert t[b][i].key in Keys(t);
      }
    }
  }

  ghost predicate Distinct<K>(s: seq<K>) {
    forall i, j :: 0 <= i < j < |s| ==> s[i] != s[j]
  }

  lemma {:induction false} TwiceStacks<K, V>(row: seq<Entry<K, V>>, i: nat, j: nat)
    requires i < j < |row| && row[i].key == row[j].key
    ensures |Stack(row, row[i].key)| >= 2
  {
    if i == 0 { StackNonEmpty(row[1..], j - 1); } else { TwiceStacks(row[1..], i - 1, j - 1); }
  }

  // keys() of the first n buckets repeats no key.
  lemma {:induction false} KeysDistinct<K(!new), V>(index: K -> nat, t: Table<K, V>, n: nat)
    requires Hashed(index, t) && Unique(index, t) && n <= |t|
    ensures Distinct(AllKeys(t[..n]))
  {
    if n > 0 {
      var front: Table<K, V> := t[..n - 1];
      var row := t[n - 1];
      KeysDistinct(index, t, n - 1);
      assert t[..n][..n - 1] == front;
      var keys := AllKeys(t[..n]);
      forall i, j | 0 <= i < j < |keys| ensures keys[i] != keys[j] {
        var m := |AllKeys(front)|;
        if i >= m && row[i - m].key == row[j - m].key {
          assert |StackAt(index, t, row[i - m].key)| <= 1;
          TwiceStacks(row, i - m, j - m);
        } else if i < m <= j {
          AllKeysAreKeys(front, keys[i]);
          var b, k :| 0 <= b < |front| && 0 <= k < |front[b]| && front[b][k].key == keys[i];
          assert index(t[b][k].key) == b && index(t[n - 1][j - m].key) == n - 1;
        }
      }
    }
  }

  lemma {:induction false} DistinctCount<K>(s: seq<K>, keys: set<K>)
    requires Distinct(s) && forall k :: k in s <==> k in keys
    ensures |keys| == |s|
  {
    if s == [] {
      assert keys == {};
    } else {
      var n := |s| - 1;
      assert forall k :: k in s[..n] <==> k in keys - {s[n]};
      DistinctCount(s[..n], keys - {s[n]});
    }
  }

  /** With unique keys, size() is the map's cardinality and keys() lists each key of the map exactly once. */
  lemma SizeIsCardinality<K(!new), V>(index: K -> nat, t: Table<K, V>)
    requires Hashed(index, t) && Unique(index, t)
    ensures |AsMap(index, t)| == Total(t)
    ensures Distinct(AllKeys(t)) && forall k :: k in AllKeys(t) <==> k in AsMap(index, t)
  {
    assert t[..|t|] == t;
    KeysDistinct(index, t, |t|);
    forall k ensures k in AllKeys(t) <==> k in AsMap(index, t) {
      AllKeysAreKeys(t, k);
      KeyHasValue(index, t, k);
    }
    DistinctCount(AllKeys(t), AsMap(index, t).Keys);
  }

  // -------------------------------------------------------------------------------------------------- each

  ghost predicate SameKeys<K, V>(row: seq<Entry<K, V>>, other: seq<Entry<K, V>>) {
    |row| == |other| && forall i :: 0 <= i < |row| ==> row[i].key == other[i].key
  }

  /** A row after a callback was called for each of its entries in turn, with what it has gathered so far as its
      first argument; it answers what it gathered and the value it leaves in the entry. */
  function Visited<S, K, V>(row: seq<Entry<K, V>>, f: (S, K, V) -> (S, V), s: S): (r: (seq<Entry<K, V>>, S))
    ensures SameKeys(row, r.0)
  {
    if row == [] then (row, s)
    else
      var last := row[|row| - 1];
      var (front, before) := Visited(row[..|row| - 1], f, s);
      var (after, value) := f(before, last.key, last.value);
      (front + [Entry(last.key, value)], after)
  }

  lemma VisitedNext<S, K, V>(row: seq<Entry<K, V>>, i: nat, f: (S, K, V) -> (S, V), s: S)
    requires i < |row|
    ensures var (done, before) := Visited(row[..i], f, s);
            var (after, value) := f(before, row[i].key, row[i].value);
            Visited(row[..i + 1], f, s) == (done + [Entry(row[i].key, value)], after)
  {
    assert row[..i + 1][..i] == row[..i];
  }

  // A table after the callback went through its buckets in turn.
  function VisitedAll<S, K, V>(t: Table<K, V>, f: (S, K, V) -> (S, V), s: S): (r: (Table<K, V>, S))
    ensures |r.0| == |t| && forall b :: 0 <= b < |t| ==> SameKeys(t[b], r.0[b])
  {
    if t == [] then (t, s)
    else
      var (front, before) := VisitedAll(t[..|t| - 1], f, s);
      var (row, after) := Visited(t[|t| - 1], f, before);
      (front + [row], after)
  }

  // The table after the first n buckets.
  function PartlyVisited<S, K, V>(t: Table<K, V>, n: nat, f: (S, K, V) -> (S, V), s: S): (r: (Table<K, V>, S))
    requires n <= |t|
    ensures |r.0| == |t|
  {
    var (u, last) := VisitedAll(t[..n], f, s);
    (u + t[n..], last)
  }

  lemma PartlyEnds<S, K, V>(t: Table<K, V>, f: (S, K, V) -> (S, V), s: S)
    ensures PartlyVisited(t, 0, f, s) == (t, s) && PartlyVisited(t, |t|, f, s) == VisitedAll(t, f, s)
  {
    assert VisitedAll([], f, s) == ([], s);
    hide VisitedAll;
    var none: Table<K, V> := [];
    assert t[..0] == none && t[0..] == t && none + t == t;
    assert t[..|t|] == t && t[|t|..] == none;
    var u := VisitedAll(t, f, s).0;
    assert u + none == u;
  }

  lemma PartlyStep<S, K, V>(t: Table<K, V>, n: nat, f: (S, K, V) -> (S, V), s: S)
    requires n < |t|
    ensures var (u, before) := PartlyVisited(t, n, f, s);
            && u[n] == t[n]
            && var (row, after) := Visited(t[n], f, before);
               (u[n := row], after) == PartlyVisited(t, n + 1, f, s)
  {
    var (u, before) := PartlyVisited(t, n, f, s);
    var (row, after) := Visited(t[n], f, before);
    assert t[..n + 1][..n] == t[..n];
    var (done, last) := VisitedAll(t[..n], f, s);
    assert VisitedAll(t[..n + 1], f, s) == (done + [row], after);
    assert u[n := row] == done + [row] + t[n + 1..];
  }

  // each() changes no key, so neither size nor keys().
  lemma {:induction false} EachKeepsKeys<S, K, V>(t: Table<K, V>, f: (S, K, V) -> (S, V), s: S)
    ensures Total(VisitedAll(t, f, s).0) == Total(t) && AllKeys(VisitedAll(t, f, s).0) == AllKeys(t)
  {
    if t != [] {
      var u := VisitedAll(t, f, s).0;
      EachKeepsKeys(t[..|t| - 1], f, s);
      assert u[..|t| - 1] == VisitedAll(t[..|t| - 1], f, s).0;
      assert SameKeys(t[|t| - 1], u[|t| - 1]);
      assert RowKeys(t[|t| - 1]) == RowKeys(u[|t| - 1]);
    }
  }

  // The callback f that also notes the keys it was called with.
  function Noting<S, K, V>(f: (S, K, V) -> (S, V)): ((S, seq<K>), K, V) -> ((S, seq<K>), V) {
    (noted: (S, seq<K>), k, v) => var (s, value) := f(noted.0, k, v); ((s, noted.1 + [k]), value)
  }

  lemma {:induction false} RowNoted<S, K, V>(row: seq<Entry<K, V>>, f: (S, K, V) -> (S, V), s: S, seen: seq<K>)
    ensures var (now, last) := Visited(row, f, s);
            Visited(row, Noting(f), (s, seen)) == (now, (last, seen + RowKeys(row)))
  {
    if row == [] {
      assert seen + RowKeys(row) == seen;
    } else {
      var front := row[..|row| - 1];
      RowNoted(front, f, s, seen);
      assert (seen + RowKeys(front)) + [row[|row| - 1].key] == seen + RowKeys(row);
    }
  }

  /** Whatever the callback does, each() calls it exactly once for every entry, in the order of keys(). */
  lemma {:induction false} EachVisitsOnce<S, K, V>(t: Table<K, V>, f: (S, K, V) -> (S, V), s: S)
    ensures var (now, last) := VisitedAll(t, f, s);
            VisitedAll(t, Noting(f), (s, [])) == (now, (last, AllKeys(t)))
  {
    if t != [] {
      var front := t[..|t| - 1];
      EachVisitsOnce(front, f, s);
      RowNoted(t[|t| - 1], f, VisitedAll(front, f, s).1, AllKeys(front));
    }
  }

  // A callback that gathers nothing.
  function Plain<K, V>(g: (K, V) -> V): ((), K, V) -> ((), V) {
    (_: (), k, v) => ((), g(k, v))
  }

  // A row whose every value was replaced by g's answer.
  function Changed<K, V>(row: seq<Entry<K, V>>, g: (K, V) -> V): (changed: seq<Entry<K, V>>)
    ensures |changed| == |row|
    ensures forall i :: 0 <= i < |row| ==> changed[i] == Entry(row[i].key, g(row[i].key, row[i].value))
  {
    seq(|row|, i requires 0 <= i < |row| => Entry(row[i].key, g(row[i].key, row[i].value)))
  }

  lemma {:induction false} PlainRow<K, V>(row: seq<Entry<K, V>>, g: (K, V) -> V)
    ensures Visited(row, Plain(g), ()).0 == Changed(row, g)
  {
    if row != [] {
      PlainRow(row[..|row| - 1], g);
      assert Changed(row, g) == Changed(row[..|row| - 1], g) + [Changed(row, g)[|row| - 1]];
    }
  }

  lemma {:induction false} PlainVisit<K, V>(t: Table<K, V>, g: (K, V) -> V, b: nat)
    requires b < |t|
    ensures VisitedAll(t, Plain(g), ()).0[b] == Changed(t[b], g)
  {
    PlainRow(t[|t| - 1], g);
    assert VisitedAll(t[..|t| - 1], Plain(g), ()).1 == ();
    if b < |t| - 1 { PlainVisit(t[..|t| - 1], g, b); }
  }

  lemma {:induction false} ChangedStack<K, V>(row: seq<Entry<K, V>>, g: (K, V) -> V, k: K)
    ensures var was, now := Stack(row, k), Stack(Changed(row, g), k);
            |now| == |was| && forall i :: 0 <= i < |was| ==> now[i] == g(k, was[i])
  {
    if row != [] {
      ChangedStack(row[1..], g, k);
      assert Changed(row, g)[1..] == Changed(row[1..], g);
    }
  }

  // So a callback that gathers nothing is applied once to every value, shadowed ones included.
  lemma EachReachesAll<K(!new), V>(index: K -> nat, t: Table<K, V>, g: (K, V) -> V, k: K)
    requires Hashed(index, t)
    ensures var u := VisitedAll(t, Plain(g), ()).0;
            && Hashed(index, u)
            && var was, now := StackAt(index, t, k), StackAt(index, u, k);
               |now| == |was| && forall i :: 0 <= i < |was| ==> now[i] == g(k, was[i])
  {
    PlainVisit(t, g, index(k));
    ChangedStack(t[index(k)], g, k);
  }

  // With unique keys it updates the finite map value by value.
  lemma EachUpdatesMap<K(!new), V>(index: K -> nat, t: Table<K, V>, g: (K, V) -> V)
    requires Hashed(index, t) && Unique(index, t)
    ensures var u, m := VisitedAll(t, Plain(g), ()).0, AsMap(index, t);
            && Hashed(index, u) && Unique(index, u)
            && AsMap(index, u) == map k | k in m :: g(k, m[k])
  {
    var u := VisitedAll(t, Plain(g), ()).0;
    assert Hashed(index, u);
    forall k
      ensures |StackAt(index, u, k)| == |StackAt(index, t, k)| <= 1
      ensures StackAt(index, t, k) != [] ==> StackAt(index, u, k)[0] == g(k, StackAt(index, t, k)[0])
    {
      EachReachesAll(index, t, g, k);
    }
  }
}
