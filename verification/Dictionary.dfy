/** The chained hash table on heap nodes, called by one thread at a time. */
module Dictionary {
  import opened Options
  import opened Rows

  class Node<K, V> {
    const key: K
    var value: V
    var next: Node?<K, V>

    constructor (key: K, value: V)
      ensures this.key == key && this.value == value && next == null
    {
      this.key, this.value, next := key, value, null;
    }
  }

  function NodeAt<K, V>(chain: seq<Node<K, V>>, i: nat): Node?<K, V> {
    if i < |chain| then chain[i] else null
  }

  /** From first, the next links run through exactly the nodes of chain, none twice, and end in null; the nodes
      carry the entries of row. */
  ghost predicate ListOk<K, V>(first: Node?<K, V>, chain: seq<Node<K, V>>, row: seq<Entry<K, V>>)
    reads chain
  {
    && |chain| == |row|
    && first == NodeAt(chain, 0)
    && (forall i :: 0 <= i < |chain| ==> chain[i].key == row[i].key)
    && (forall i :: 0 <= i < |chain| ==> chain[i].value == row[i].value)
    && (forall i :: 0 <= i < |chain| ==> chain[i].next == NodeAt(chain, i + 1))
    && forall i, j :: 0 <= i < j < |chain| ==> chain[i] != chain[j]
  }

  lemma ListPrepend<K, V>(made: Node<K, V>, chain: seq<Node<K, V>>, row: seq<Entry<K, V>>)
    requires ListOk(made.next, chain, row) && made !in chain
    ensures ListOk(made, [made] + chain, [Entry(made.key, made.value)] + row)
  {
    var longer := [made] + chain;
    assert forall i :: 0 <= i < |longer| ==> NodeAt(longer, i + 1) == NodeAt(chain, i);
  }

  lemma ListStep<K, V>(first: Node?<K, V>, chain: seq<Node<K, V>>, row: seq<Entry<K, V>>, i: nat)
    requires ListOk(first, chain, row)
    ensures first == NodeAt(chain, 0)
    ensures i < |chain| ==> chain[i].next == NodeAt(chain, i + 1) && chain[i] !in chain[..i]
  {
  }

  // A list after the node at i was bypassed by the link in front of it (first, when i is 0).
  lemma ListCut<K, V>(first: Node?<K, V>, chain: seq<Node<K, V>>, row: seq<Entry<K, V>>, i: nat)
    requires |chain| == |row| && i < |chain|
    requires forall j :: 0 <= j < |chain| ==> chain[j].key == row[j].key && chain[j].value == row[j].value
    requires forall j, k :: 0 <= j < k < |chain| ==> chain[j] != chain[k]
    requires forall j :: 0 <= j < |chain| && j != i - 1 ==> chain[j].next == NodeAt(chain, j + 1)
    requires if i == 0 then first == NodeAt(chain, 1)
             else first == NodeAt(chain, 0) && chain[i - 1].next == NodeAt(chain, i + 1)
    ensures ListOk(first, chain[..i] + chain[i + 1..], row[..i] + row[i + 1..])
  {
    var cut, rest := chain[..i] + chain[i + 1..], row[..i] + row[i + 1..];
    AfterCut(chain, i);
    AfterCut(row, i);
    forall j | 0 <= j < |cut| ensures cut[j].next == NodeAt(cut, j + 1) {
      assert j == i - 1 || chain[if j < i then j else j + 1].next == NodeAt(chain, (if j < i then j else j + 1) + 1);
    }
  }

  lemma AfterCut<T>(s: seq<T>, i: nat)
    requires i < |s|
    ensures var cut := s[..i] + s[i + 1..];
            |cut| == |s| - 1 && forall j :: 0 <= j < |cut| ==> cut[j] == s[if j < i then j else j + 1]
  {
  }

  ghost function Nodes<K, V>(chains: seq<seq<Node<K, V>>>): set<Node<K, V>> {
    set b, i | 0 <= b < |chains| && 0 <= i < |chains[b]| :: chains[b][i]
  }

  lemma NodesPrepend<K, V>(chains: seq<seq<Node<K, V>>>, b: nat, made: Node<K, V>)
    requires b < |chains|
    ensures Nodes(chains[b := [made] + chains[b]]) == Nodes(chains) + {made}
  {
    var updated := chains[b := [made] + chains[b]];
    assert updated[b][0] in Nodes(updated);
    forall n | n in Nodes(chains) ensures n in Nodes(updated) {
      var c, i :| 0 <= c < |chains| && 0 <= i < |chains[c]| && chains[c][i] == n;
      assert updated[c][if c == b then i + 1 else i] == n;
    }
  }

  // Cutting one node out of bucket b removes just that node, when it has no other position.
  lemma NodesCut<K, V>(chains: seq<seq<Node<K, V>>>, b: nat, k: nat)
    requires b < |chains| && k < |chains[b]|
    requires forall c, i :: 0 <= c < |chains| && 0 <= i < |chains[c]| && chains[c][i] == chains[b][k] ==>
                              c == b && i == k
    ensures Nodes(chains[b := chains[b][..k] + chains[b][k + 1..]]) == Nodes(chains) - {chains[b][k]}
  {
    var updated := chains[b := chains[b][..k] + chains[b][k + 1..]];
    forall n | n in Nodes(chains) && n != chains[b][k] ensures n in Nodes(updated) {
      var c, i :| 0 <= c < |chains| && 0 <= i < |chains[c]| && chains[c][i] == n;
      assert updated[c][if c == b && i > k then i - 1 else i] == n;
    }
    forall n | n in Nodes(updated) ensures n in Nodes(chains) && n != chains[b][k] {
      var c, i :| 0 <= c < |updated| && 0 <= i < |updated[c]| && updated[c][i] == n;
      assert chains[c][if c == b && i >= k then i + 1 else i] == n;
    }
  }

  lemma NodesDrop<K, V>(chains: seq<seq<Node<K, V>>>, b: nat)
    requires b < |chains|
    requires forall c, i, j :: 0 <= c < |chains| && 0 <= i < |chains[c]| && 0 <= j < |chains[b]| ==>
                                 (chains[c][i] == chains[b][j] ==> c == b)
    ensures Nodes(chains[b := []]) == Nodes(chains) - (set n | n in chains[b])
  {
    var updated := chains[b := []];
    forall n | n in Nodes(chains) && n !in chains[b] ensures n in Nodes(updated) {
      var c, i :| 0 <= c < |chains| && 0 <= i < |chains[c]| && chains[c][i] == n;
      assert updated[c][i] == n;
    }
    forall n | n in Nodes(updated) ensures n in Nodes(chains) && n !in chains[b] {
      var c, i :| 0 <= c < |updated| && 0 <= i < |updated[c]| && updated[c][i] == n;
      assert chains[c][i] == n;
    }
  }

  class Dictionary<K(!new, ==), V> {
    const index: K -> nat  // key_index
    const table: array<Node?<K, V>>
    var count: nat
    ghost var chains: seq<seq<Node<K, V>>>  // the nodes of each bucket, from its head
    ghost var rows: Table<K, V>             // their entries
    ghost var linked: set<Node<K, V>>
    ghost var freed: set<Node<K, V>>
    ghost var everMade: set<Node<K, V>>

    ghost predicate Shape()
      reads this`chains, this`rows, this`linked, table, linked
    {
      && 0 < table.Length == |chains| == |rows|
      && linked == Nodes(chains)
      && Hashed(index, rows)
      && forall b :: 0 <= b < table.Length ==> ListOk(table[b], chains[b], rows[b])
    }

    // Every node the dictionary ever made is linked, was freed, or is a spare some call still holds: just one of these.
    ghost predicate AccountedBut(spares: set<Node<K, V>>)
      reads this`linked, this`freed, this`everMade
    {
      linked !! freed && spares !! linked + freed && everMade == linked + freed + spares
    }

    // Between calls nobody holds a spare.
    ghost predicate Accounted()
      reads this`linked, this`freed, this`everMade
    {
      AccountedBut({})
    }

    ghost predicate Valid()
      reads this, table, linked
    {
      Shape() && Accounted() && count == Total(rows)
    }

    constructor (buckets: nat, hash: K -> nat)
      requires buckets > 0
      ensures Valid() && fresh(table) && table.Length == buckets && rows == Empty(buckets) && everMade == {}
      ensures forall k :: index(k) == hash(k) % buckets
    {
      index := k => hash(k) % buckets;
      table := new Node?<K, V>[buckets](_ => null);
      count := 0;
      chains := seq(buckets, _ => []);
      rows := Empty(buckets);
      linked, freed, everMade := {}, {}, {};
      new;
      TotalOfEmpty(rows);
    }

    // delete: only ever applied to a node the dictionary made that no bucket links and that was not freed before.
    ghost method Free(n: Node<K, V>)
      requires n in everMade && n !in linked && n !in freed
      modifies this`freed
      ensures freed == old(freed) + {n}
    {
      freed := freed + {n};
    }

    // Two positions with the same node are the same position: buckets are disjoint because keys hash apart.
    lemma SamePosition(b: nat, i: nat, c: nat, j: nat)
      requires Shape()
      requires b < |chains| && i < |chains[b]| && c < |chains| && j < |chains[c]|
      requires chains[b][i] == chains[c][j]
      ensures b == c && i == j
    {
      assert ListOk(table[b], chains[b], rows[b]) && ListOk(table[c], chains[c], rows[c]);
      assert index(rows[b][i].key) == b && index(rows[c][j].key) == c;
    }

    // current is the first node of its bucket with the key, or null; prev is the node before it.
    ghost predicate AtFirst(key: K, current: Node?<K, V>, prev: Node?<K, V>)
      reads this`chains, this`rows
    {
      && index(key) < |rows| == |chains| && |rows[index(key)]| == |chains[index(key)]|
      && var chain, i := chains[index(key)], First(rows[index(key)], key);
         current == NodeAt(chain, i) && prev == if i == 0 then null else chain[i - 1]
    }

    /** The walk every operation makes down one bucket. */
    method Locate(key: K) returns (current: Node?<K, V>, prev: Node?<K, V>)
      requires Shape()
      ensures AtFirst(key, current, prev) && index(key) < |rows|
      ensures current == null ==> StackAt(index, rows, key) == []
      ensures current != null ==>
                current.key == key && current in linked && Top(StackAt(index, rows, key)) == Some(current.value)
    {
      var slot := index(key);
      ghost var chain, row := chains[slot], rows[slot];
      assert ListOk(table[slot], chain, row);
      FirstIsTop(row, key);
      ghost var i := 0;
      current, prev := table[slot], null;
      while current != null
        invariant i <= |chain| && current == NodeAt(chain, i)
        invariant forall j :: 0 <= j < i ==> row[j].key != key
        invariant prev == if i == 0 then null else chain[i - 1]
        decreases |chain| - i
      {
        assert current == chain[i];
        if current.key == key { return; }
        prev := current;
        current := current.next;
        i := i + 1;
      }
    }

    method Find(key: K) returns (r: Option<V>)
      requires Valid()
      ensures r == Top(StackAt(index, rows, key))
    {
      var current, _ := Locate(key);
      r := if current != null then Some(current.value) else None;
    }

    method Contains(key: K) returns (r: bool)
      requires Valid()
      ensures r <==> StackAt(index, rows, key) != []
    {
      var current, _ := Locate(key);
      r := current != null;
    }

    // The reference that at() returns; null where it throws.
    method At(key: K) returns (r: Node?<K, V>)
      requires Valid()
      ensures r == null <==> StackAt(index, rows, key) == []
      ensures r != null ==> r in linked && r.key == key && r.value == StackAt(index, rows, key)[0]
    {
      var current, _ := Locate(key);
      r := current;
    }

    // Records the new chain and row of one bucket, once the heap holds them; nodes are then the linked ones.
    ghost method Rebucket(slot: nat, chain: seq<Node<K, V>>, row: seq<Entry<K, V>>, nodes: set<Node<K, V>>)
      requires 0 < table.Length == |chains| == |rows| && slot < table.Length
      requires Hashed(index, rows) && forall i :: 0 <= i < |row| ==> index(row[i].key) == slot
      requires forall b :: 0 <= b < table.Length && b != slot ==> ListOk(table[b], chains[b], rows[b])
      requires ListOk(table[slot], chain, row)
      requires nodes == Nodes(chains[slot := chain])
      modifies this`chains, this`rows, this`linked
      ensures rows == old(rows)[slot := row] && linked == nodes
      ensures Shape() && Total(rows) == Total(old(rows)) - |old(rows)[slot]| + |row|
    {
      TotalUpdate(rows, slot, row);
      chains, rows := chains[slot := chain], rows[slot := row];
      linked := nodes;
    }

    // The compare-and-swap loop, which a lone caller passes through once.
    method Link(made: Node<K, V>)
      requires Shape() && made !in linked
      modifies this`chains, this`rows, this`linked, table, made`next
      ensures Shape() && rows == Apply(index, old(rows), Op.Insert(made.key, made.value))
      ensures linked == old(linked) + {made} && Total(rows) == Total(old(rows)) + 1
    {
      var slot := index(made.key);
      ghost var chain, row := [made] + chains[slot], [Entry(made.key, made.value)] + rows[slot];
      assert Nodes(chains[slot := chain]) == linked + {made} by { NodesPrepend(chains, slot, made); }
      made.next := table[slot];
      assert ListOk(made, chain, row) by { ListPrepend(made, chains[slot], rows[slot]); }
      table[slot] := made;
      Rebucket(slot, chain, row, linked + {made});
    }

    method Insert(key: K, value: V) returns (ok: bool)
      requires Valid()
      modifies this`count, this`chains, this`rows, this`linked, this`everMade, table
      ensures Valid() && ok && rows == Apply(index, old(rows), Op.Insert(key, value))
    {
      hide Shape;
      ok := InsertBeside(key, value, {});
    }

    // insert and emplace, called while the caller may hold a spare node.
    method InsertBeside(key: K, value: V, ghost spares: set<Node<K, V>>) returns (ok: bool)
      requires Shape() && AccountedBut(spares) && count == Total(rows)
      modifies this`count, this`chains, this`rows, this`linked, this`everMade, table
      ensures Shape() && AccountedBut(spares) && count == Total(rows)
      ensures ok && rows == Apply(index, old(rows), Op.Insert(key, value))
    {
      hide Shape;
      var made := new Node(key, value);
      assert made !in everMade;
      Link(made);
      count, everMade := count + 1, everMade + {made};
      ok := true;
    }

    // Allocates the spare node of insert_or_assign and try_emplace.
    method Allocate(key: K, value: V) returns (made: Node<K, V>)
      requires Valid()
      modifies this`everMade
      ensures fresh(made) && made.key == key && made.value == value
      ensures AccountedBut({made}) && everMade == old(everMade) + {made}
    {
      made := new Node(key, value);
      assert made !in everMade;
      everMade := everMade + {made};
    }

    method InsertOrAssign(key: K, value: V) returns (ok: bool)
      requires Valid()
      modifies this`count, this`chains, this`rows, this`linked, this`freed, this`everMade, table, linked
      ensures Valid() && ok && rows == Apply(index, old(rows), Op.Assign(key, value))
    {
      hide Shape, AtFirst;
      var current, prev := Locate(key);
      var made := Allocate(key, value);
      if current != null {
        Overwrite(current, prev, value);
        Free(made);
        return true;
      }
      ghost var row := rows[index(key)];
      assert First(row, key) == |row| by { FirstIsTop(row, key); }
      Free(made);
      var _ := Insert(key, value);
      return true;
    }

    method Overwrite(current: Node<K, V>, ghost prev: Node?<K, V>, value: V)
      requires Shape() && current in linked && AtFirst(current.key, current, prev)
      modifies this`chains, this`rows, this`linked, current`value
      ensures Shape() && rows == Apply(index, old(rows), Op.Assign(current.key, value))
      ensures linked == old(linked) && Total(rows) == Total(old(rows))
    {
      var slot := index(current.key);
      ghost var chain, row := chains[slot], rows[slot];
      ghost var i := First(row, current.key);
      FirstInRow(current, prev);
      ghost var nodes := linked;
      OnlyPosition(slot, i);
      assert chains[slot := chain] == chains;
      assert ListOk(table[slot], chain, row);
      assert Apply(index, rows, Op.Assign(current.key, value)) == rows[slot := row[i := Entry(current.key, value)]];
      current.value := value;
      assert ListOk(table[slot], chain, row[i := Entry(current.key, value)]);
      Rebucket(slot, chain, row[i := Entry(current.key, value)], nodes);
    }

    lemma FirstInRow(current: Node<K, V>, prev: Node?<K, V>)
      requires Shape() && AtFirst(current.key, current, prev)
      ensures var row, chain := rows[index(current.key)], chains[index(current.key)];
              First(row, current.key) < |row| && chain[First(row, current.key)] == current
    {
    }

    lemma OnlyPosition(slot: nat, i: nat)
      requires Shape() && slot < |chains| && i < |chains[slot]|
      ensures forall b, j :: 0 <= b < |chains| && 0 <= j < |chains[b]| && chains[b][j] == chains[slot][i] ==>
                               b == slot && j == i
    {
      forall b, j | 0 <= b < |chains| && 0 <= j < |chains[b]| && chains[b][j] == chains[slot][i]
        ensures b == slot && j == i
      {
        SamePosition(b, j, slot, i);
      }
    }

    method TryEmplace(key: K, value: V) returns (ok: bool)
      requires Valid()
      modifies this`count, this`chains, this`rows, this`linked, this`freed, this`everMade, table
      ensures Valid() && rows == Apply(index, old(rows), Op.TryEmplace(key, value))
      ensures ok == (StackAt(index, old(rows), key) == [])
    {
      hide Shape, AtFirst;
      var current, _ := Locate(key);
      var made := Allocate(key, value);
      ghost var row := rows[index(key)];
      assert current == null <==> First(row, key) == |row| by { FirstIsTop(row, key); }
      if current != null {
        Free(made);
        return false;
      }
      var _ := InsertBeside(made.key, made.value, {made});
      Free(made);
      return true;
    }

    method Remove(key: K) returns (ok: bool)
      requires Valid()
      modifies this`count, this`chains, this`rows, this`linked, this`freed, table, linked
      ensures Valid() && rows == Apply(index, old(rows), Op.Remove(key))
      ensures ok == (StackAt(index, old(rows), key) != [])
    {
      hide Shape, AtFirst;
      var current, prev := Locate(key);
      ghost var row := rows[index(key)];
      assert current == null <==> First(row, key) == |row| by { FirstIsTop(row, key); }
      if current == null { return false; }
      Unlink(current, prev);
      Free(current);
      count := count - 1;
      return true;
    }

    method Unlink(current: Node<K, V>, prev: Node?<K, V>)
      requires Shape() && current in linked && AtFirst(current.key, current, prev)
      modifies this`chains, this`rows, this`linked, table, linked
      ensures Shape() && rows == Apply(index, old(rows), Op.Remove(current.key))
      ensures linked == old(linked) - {current} && Total(rows) == Total(old(rows)) - 1
    {
      hide ListOk;
      ghost var slot := index(current.key);
      ghost var i := First(rows[slot], current.key);
      ghost var cut, row := chains[slot][..i] + chains[slot][i + 1..], Without(rows[slot], current.key);
      ghost var nodes := linked - {current};
      FirstInRow(current, prev);
      assert Nodes(chains[slot := cut]) == nodes by {
        OnlyPosition(slot, i);
        NodesCut(chains, slot, i);
      }
      assert Apply(index, rows, Op.Remove(current.key)) == rows[slot := row];
      Bypass(current, prev, i);
      Rebucket(slot, cut, row, nodes);
    }

    // The store that takes current out of its list.
    method Bypass(current: Node<K, V>, prev: Node?<K, V>, ghost i: nat)
      requires Shape() && AtFirst(current.key, current, prev)
      requires i == First(rows[index(current.key)], current.key) < |rows[index(current.key)]|
      modifies table, linked
      ensures forall b :: 0 <= b < table.Length && b != index(current.key) ==> ListOk(table[b], chains[b], rows[b])
      ensures var chain, row := chains[index(current.key)], rows[index(current.key)];
              ListOk(table[index(current.key)], chain[..i] + chain[i + 1..], row[..i] + row[i + 1..])
    {
      var slot := index(current.key);
      ghost var chain, row := chains[slot], rows[slot];
      assert ListOk(table[slot], chain, row);
      var next := current.next;
      if prev != null {
        OnlyPosition(slot, i - 1);
        prev.next := next;
      } else {
        table[slot] := next;
      }
      ListCut(table[slot], chain, row, i);
    }

    // Exchanges the head of one bucket with null.
    method Detach(slot: nat) returns (first: Node?<K, V>)
      requires Shape() && slot < table.Length
      modifies this`chains, this`rows, this`linked, table
      ensures Shape() && rows == old(rows)[slot := []]
      ensures linked == old(linked) - (set n | n in old(chains)[slot])
      ensures ListOk(first, old(chains)[slot], old(rows)[slot])
    {
      ghost var nodes := linked - (set n | n in chains[slot]);
      assert Nodes(chains[slot := []]) == nodes by {
        forall i | 0 <= i < |chains[slot]| { OnlyPosition(slot, i); }
        NodesDrop(chains, slot);
      }
      first := table[slot];
      table[slot] := null;
      Rebucket(slot, [], [], nodes);
    }

    method ClearBucket(slot: nat)
      requires Shape() && Accounted() && slot < table.Length
      modifies this`chains, this`rows, this`linked, this`freed, table
      ensures Shape() && Accounted() && rows == old(rows)[slot := []]
    {
      ghost var chain := chains[slot];
      assert forall n :: n in chain ==> n in linked by {
        forall n | n in chain ensures n in linked {
          var i :| 0 <= i < |chain| && chain[i] == n;
          assert chains[slot][i] in Nodes(chains);
        }
      }
      hide Shape, ListOk;
      var first := Detach(slot);
      Release(first, chain);
    }

    // The inner loop of clear, over a list that no bucket holds any more.
    method Release(first: Node?<K, V>, ghost chain: seq<Node<K, V>>)
      requires exists row :: ListOk(first, chain, row)
      requires forall n :: n in chain ==> n in everMade && n !in linked && n !in freed
      modifies this`freed
      ensures freed == old(freed) + set n | n in chain
    {
      ghost var row :| ListOk(first, chain, row);
      hide ListOk;
      assert first == NodeAt(chain, 0) by { ListStep(first, chain, row, 0); }
      var current := first;
      ghost var i := 0;
      while current != null
        invariant ListOk(first, chain, row)
        invariant i <= |chain| && current == NodeAt(chain, i)
        invariant freed == old(freed) + set n | n in chain[..i]
        decreases |chain| - i
      {
        ListStep(first, chain, row, i);
        var next := current.next;
        Free(current);
        assert chain[..i + 1] == chain[..i] + [chain[i]];
        current := next;
        i := i + 1;
      }
      assert chain[..i] == chain;
    }

    /** Afterwards no bucket links anything and every node ever made has been freed. */
    method Clear()
      requires Valid()
      modifies this`count, this`chains, this`rows, this`linked, this`freed, table
      ensures Valid() && rows == Empty(table.Length) && freed == everMade && count == 0
    {
      for b := 0 to table.Length
        invariant Shape() && Accounted()
        invariant forall c :: 0 <= c < b ==> rows[c] == []
      {
        ClearBucket(b);
      }
      TotalOfEmpty(rows);
      assert forall c :: 0 <= c < table.Length ==> ListOk(table[c], chains[c], rows[c]);
      count := 0;
    }

    /** The callback f gets each entry once, may store a new value through its reference, and may gather what it likes
        in a value of its own. */
    method Each<S>(f: (S, K, V) -> (S, V), s: S) returns (last: S)
      requires Valid()
      modifies this`chains, this`rows, this`linked, linked
      ensures Valid() && (rows, last) == VisitedAll(old(rows), f, s) && linked == old(linked)
    {
      hide Shape, VisitedAll, Total;
      EachKeepsKeys(rows, f, s);
      last := EachBucket(f, s);
    }

    // Where each stands before bucket b, having started on the rows of was.
    ghost predicate EachStands<S>(was: Table<K, V>, b: nat, f: (S, K, V) -> (S, V), s: S, last: S)
      reads this`chains, this`rows, this`linked, table, linked
    {
      Shape() && b <= |was| == table.Length && (rows, last) == PartlyVisited(was, b, f, s)
    }

    lemma EachBegins<S>(f: (S, K, V) -> (S, V), s: S)
      requires Shape()
      ensures EachStands(rows, 0, f, s, s)
    {
      PartlyEnds(rows, f, s);
    }

    lemma EachEnds<S>(was: Table<K, V>, f: (S, K, V) -> (S, V), s: S, last: S)
      requires EachStands(was, table.Length, f, s, last)
      ensures Shape() && (rows, last) == VisitedAll(was, f, s)
    {
      PartlyEnds(was, f, s);
    }

    method EachBucket<S>(f: (S, K, V) -> (S, V), s: S) returns (last: S)
      requires Shape()
      modifies this`chains, this`rows, this`linked, linked
      ensures Shape() && (rows, last) == VisitedAll(old(rows), f, s) && linked == old(linked)
    {
      hide *;
      ghost var nodes, was := linked, rows;
      last := s;
      EachBegins(f, s);
      for b := 0 to table.Length
        invariant linked == nodes && EachStands(was, b, f, s, last)
      {
        last := EachNext(b, was, f, s, last);
      }
      EachEnds(was, f, s, last);
    }

    // One pass of the outer loop of each.
    method EachNext<S>(b: nat, ghost was: Table<K, V>, f: (S, K, V) -> (S, V), ghost s: S, before: S) returns (last: S)
      requires b < table.Length && EachStands(was, b, f, s, before)
      modifies this`chains, this`rows, this`linked, linked
      ensures linked == old(linked) && EachStands(was, b + 1, f, s, last)
    {
      hide Shape, PartlyVisited, Visited;
      PartlyStep(was, b, f, s);
      last := EachInBucket(b, f, before);
    }

    method EachInBucket<S>(b: nat, f: (S, K, V) -> (S, V), s: S) returns (last: S)
      requires Shape() && b < table.Length
      modifies this`chains, this`rows, this`linked, linked
      ensures Shape() && b < |old(rows)| && linked == old(linked)
      ensures rows == old(rows)[b := Visited(old(rows)[b], f, s).0] && last == Visited(old(rows)[b], f, s).1
    {
      hide Visited;
      ghost var chain, row, nodes := chains[b], rows[b], linked;
      assert chains[b := chain] == chains;
      BucketApart(b);
      last := EachInList(table[b], chain, row, f, s);
      Rebucket(b, chain, Visited(row, f, s).0, nodes);
    }

    // The nodes of one bucket are linked, and in no other bucket.
    lemma BucketApart(b: nat)
      requires Shape() && b < |chains|
      ensures forall i :: 0 <= i < |chains[b]| ==> chains[b][i] in linked
      ensures forall c, j :: 0 <= c < |chains| && c != b && 0 <= j < |chains[c]| ==> chains[c][j] !in chains[b]
    {
      forall i | 0 <= i < |chains[b]| { OnlyPosition(b, i); }
    }

    static method EachInList<S>(first: Node?<K, V>, ghost chain: seq<Node<K, V>>, ghost row: seq<Entry<K, V>>,
                                f: (S, K, V) -> (S, V), s: S) returns (last: S)
      requires ListOk(first, chain, row)
      modifies chain
      ensures ListOk(first, chain, Visited(row, f, s).0) && last == Visited(row, f, s).1
    {
      assert Visited(row[..0], f, s) == ([], s);
      hide Visited;
      var current := first;
      last := s;
      ghost var i := 0;
      while current != null
        invariant i <= |chain| && current == NodeAt(chain, i)
        invariant forall j :: 0 <= j < |chain| ==> chain[j].next == NodeAt(chain, j + 1)
        invariant forall j :: 0 <= j < i ==> chain[j].value == Visited(row[..i], f, s).0[j].value
        invariant forall j :: i <= j < |chain| ==> chain[j].value == row[j].value
        invariant last == Visited(row[..i], f, s).1
        decreases |chain| - i
      {
        VisitedNext(row, i, f, s);
        var answer := f(last, current.key, current.value);
        last, current.value := answer.0, answer.1;
        current := current.next;
        i := i + 1;
      }
      assert row[..i] == row;
    }

    method Keys() returns (keys: seq<K>)
      requires Valid()
      ensures keys == AllKeys(rows)
    {
      hide ListOk, RowKeys;
      keys := [];
      for b := 0 to table.Length
        invariant keys == AllKeys(rows[..b])
      {
        var more := BucketKeys(table[b], chains[b], rows[b]);
        assert rows[..b + 1][..b] == rows[..b];
        keys := keys + more;
      }
      assert rows[..table.Length] == rows;
    }

    method BucketKeys(first: Node?<K, V>, ghost chain: seq<Node<K, V>>, ghost row: seq<Entry<K, V>>)
      returns (keys: seq<K>)
      requires ListOk(first, chain, row)
      ensures keys == RowKeys(row)
    {
      keys := [];
      var current := first;
      while current != null
        invariant |keys| <= |chain| && current == NodeAt(chain, |keys|)
        invariant forall j :: 0 <= j < |keys| ==> keys[j] == row[j].key
        decreases |chain| - |keys|
      {
        keys := keys + [current.key];
        current := current.next;
      }
    }
  }
}
