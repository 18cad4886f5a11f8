/** The store's own hash table: an array of buckets, each the head of a chain of linked nodes,
    rehashed in place by relinking the nodes. Its answers are those of a finite map. */
module HashTables {
  import opened Options
  import opened Sequences

  class Node<K, V> {
    const key: K
    var value: V
    var next: Node?<K, V>

    constructor (key: K, value: V, next: Node?<K, V>)
      ensures this.key == key && this.value == value && this.next == next
    {
      this.key, this.value, this.next := key, value, next;
    }
  }

  /** `head` starts a null-terminated list of exactly the nodes of `chain`, in order. */
  ghost predicate Linked<K, V>(head: Node?<K, V>, chain: seq<Node<K, V>>)
    reads chain
  {
    && (if chain == [] then head == null else head == chain[0])
    && forall j {:trigger chain[j].next} :: 0 <= j < |chain| ==>
        chain[j].next == if j + 1 < |chain| then chain[j + 1] else null
  }

  /** Every node sits once, in the chain its hash selects. */
  ghost predicate Placed<K(!new), V>(hash: K -> nat, chains: seq<seq<Node<K, V>>>, nodes: set<Node<K, V>>) {
    && (forall n :: n in nodes ==> chains != [] && n in chains[Slot(hash(n.key), |chains|)])
    && (forall b, j :: 0 <= b < |chains| && 0 <= j < |chains[b]| ==>
          chains[b][j] in nodes && Slot(hash(chains[b][j].key), |chains|) == b)
    && (forall b :: 0 <= b < |chains| ==> Distinct(chains[b]))
  }

  function Slot(h: nat, capacity: nat): (b: nat)
    requires capacity > 0
    ensures b < capacity
  {
    h % capacity
  }

  function KeysOf<K, V>(chain: seq<Node<K, V>>): seq<K> {
    seq(|chain|, j requires 0 <= j < |chain| => chain[j].key)
  }

  function KeysByBucket<K, V>(chains: seq<seq<Node<K, V>>>): (buckets: seq<seq<K>>)
    ensures |buckets| == |chains|
  {
    seq(|chains|, b requires 0 <= b < |chains| => KeysOf(chains[b]))
  }

  // ----- placement, apart from the heap -----

  /** No node is linked from two places. */
  lemma PlacedOnce<K(!new), V>(hash: K -> nat, chains: seq<seq<Node<K, V>>>, nodes: set<Node<K, V>>, b: nat, j: nat)
    requires Placed(hash, chains, nodes) && b < |chains| && j < |chains[b]|
    ensures chains[b][j] in nodes
    ensures forall c :: 0 <= c < |chains| && c != b ==> chains[b][j] !in chains[c]
    ensures forall i :: 0 <= i < |chains[b]| && i != j ==> chains[b][i] != chains[b][j]
  {
  }

  lemma PlacedPrepend<K(!new), V>(hash: K -> nat, chains: seq<seq<Node<K, V>>>, nodes: set<Node<K, V>>, n: Node<K, V>)
    requires Placed(hash, chains, nodes) && n !in nodes && chains != []
    ensures var b := Slot(hash(n.key), |chains|);
            Placed(hash, chains[b := [n] + chains[b]], nodes + {n})
  {
    var b := Slot(hash(n.key), |chains|);
    var chains' := chains[b := [n] + chains[b]];
    forall m | m in nodes + {n} ensures m in chains'[Slot(hash(m.key), |chains'|)] {
      if m != n && Slot(hash(m.key), |chains|) == b {
        var j :| 0 <= j < |chains[b]| && chains[b][j] == m;
        assert chains'[b][j + 1] == m;
      }
    }
  }

  /** The nodes by their keys. */
  ghost predicate Indexed<K, V>(index: map<K, Node<K, V>>, nodes: set<Node<K, V>>) {
    && (forall n :: n in nodes ==> n.key in index && index[n.key] == n)
    && (forall k :: k in index ==> index[k] in nodes && index[k].key == k)
  }

  lemma IndexedRemove<K, V>(index: map<K, Node<K, V>>, nodes: set<Node<K, V>>, n: Node<K, V>)
    requires Indexed(index, nodes) && n in nodes
    ensures Indexed(index - {n.key}, nodes - {n}) && |index - {n.key}| == |index| - 1
  {
    assert index.Keys == (index - {n.key}).Keys + {n.key};
  }

  lemma IndexedAdd<K, V>(index: map<K, Node<K, V>>, nodes: set<Node<K, V>>, n: Node<K, V>)
    requires Indexed(index, nodes) && n.key !in index
    ensures Indexed(index[n.key := n], nodes + {n}) && |index[n.key := n]| == |index| + 1
  {
  }

  /** Everything about a table but its links. */
  ghost predicate Shape<K(!new), V>(hash: K -> nat, chains: seq<seq<Node<K, V>>>, index: map<K, Node<K, V>>,
                                    nodes: set<Node<K, V>>, size: nat)
  {
    && Placed(hash, chains, nodes) && Indexed(index, nodes)
    && size == |index| && (if |chains| == 0 then size == 0 else size < |chains|)
  }

  ghost predicate AllLinked<K, V>(buckets: array<Node?<K, V>>, chains: seq<seq<Node<K, V>>>)
    reads buckets, set c, j | 0 <= c < |chains| && 0 <= j < |chains[c]| :: chains[c][j]
  {
    |chains| == buckets.Length && forall b :: 0 <= b < |chains| ==> Linked(buckets[b], chains[b])
  }

  /** The chains without the node at that place. */
  function Without<T>(chains: seq<seq<T>>, b: nat, j: nat): (r: seq<seq<T>>)
    requires b < |chains| && j < |chains[b]|
    ensures |r| == |chains|
  {
    chains[b := chains[b][..j] + chains[b][j + 1..]]
  }

  lemma PlacedRemove<K(!new), V>(hash: K -> nat, chains: seq<seq<Node<K, V>>>, nodes: set<Node<K, V>>, b: nat, j: nat)
    requires Placed(hash, chains, nodes) && b < |chains| && j < |chains[b]|
    ensures Placed(hash, Without(chains, b, j), nodes - {chains[b][j]})
  {
    var n, chain := chains[b][j], chains[b];
    var chains' := chains[b := chain[..j] + chain[j + 1..]];
    PlacedOnce(hash, chains, nodes, b, j);
    forall m | m in nodes - {n} ensures m in chains'[Slot(hash(m.key), |chains'|)] {
      if Slot(hash(m.key), |chains|) == b {
        var i :| 0 <= i < |chain| && chain[i] == m;
        assert m == chains'[b][if i < j then i else i - 1];
      }
    }
  }

  lemma ShapeRemove<K(!new), V>(hash: K -> nat, chains: seq<seq<Node<K, V>>>, index: map<K, Node<K, V>>,
                                nodes: set<Node<K, V>>, size: nat, b: nat, j: nat)
    requires Shape(hash, chains, index, nodes, size) && b < |chains| && j < |chains[b]|
    ensures var n := chains[b][j];
            && n in nodes && size > 0
            && Shape(hash, Without(chains, b, j), index - {n.key}, nodes - {n}, size - 1)
  {
    hide Placed, Slot, Distinct, Indexed, Without;
    PlacedRemove(hash, chains, nodes, b, j);
    PlacedOnce(hash, chains, nodes, b, j);
    IndexedRemove(index, nodes, chains[b][j]);
  }

  lemma ShapeAdd<K(!new), V>(hash: K -> nat, chains: seq<seq<Node<K, V>>>, index: map<K, Node<K, V>>,
                             nodes: set<Node<K, V>>, size: nat, n: Node<K, V>)
    requires Shape(hash, chains, index, nodes, size) && n !in nodes && n.key !in index && size + 1 < |chains|
    ensures var b := Slot(hash(n.key), |chains|);
            Shape(hash, chains[b := [n] + chains[b]], index[n.key := n], nodes + {n}, size + 1)
  {
    hide Placed, Slot, Distinct, Indexed;
    PlacedPrepend(hash, chains, nodes, n);
    IndexedAdd(index, nodes, n);
  }

  lemma PlacedNone<K(!new), V>(hash: K -> nat, chains: seq<seq<Node<K, V>>>)
    requires forall b :: 0 <= b < |chains| ==> chains[b] == []
    ensures Placed(hash, chains, {})
  {
  }

  lemma PlacedAway<K(!new), V>(hash: K -> nat, chains: seq<seq<Node<K, V>>>, nodes: set<Node<K, V>>, n: Node<K, V>)
    requires Placed(hash, chains, nodes) && n !in nodes
    ensures forall b :: 0 <= b < |chains| ==> n !in chains[b]
  {
  }

  /** The nodes whose old bucket comes before b: those a rehash has moved by then. */
  ghost function Homed<K(!new), V>(hash: K -> nat, chains: seq<seq<Node<K, V>>>, nodes: set<Node<K, V>>, b: nat)
    : set<Node<K, V>>
  {
    set n | n in nodes && chains != [] && Slot(hash(n.key), |chains|) < b
  }

  ghost function Prefix<T>(s: seq<T>, j: nat): set<T>
    requires j <= |s|
  {
    set i | 0 <= i < j :: s[i]
  }

  /** The next node of bucket b has not been moved, and moving it touches no chain still to come. */
  lemma HomedNext<K(!new), V>(hash: K -> nat, chains: seq<seq<Node<K, V>>>, nodes: set<Node<K, V>>, b: nat, j: nat)
    requires Placed(hash, chains, nodes) && b < |chains| && j < |chains[b]|
    ensures chains[b][j] in nodes && chains[b][j] !in Homed(hash, chains, nodes, b) + Prefix(chains[b], j)
    ensures chains[b][j] !in chains[b][j + 1..]
    ensures forall c :: b < c < |chains| ==> chains[b][j] !in chains[c]
    ensures Prefix(chains[b], j + 1) == Prefix(chains[b], j) + {chains[b][j]}
  {
  }

  lemma HomedStep<K(!new), V>(hash: K -> nat, chains: seq<seq<Node<K, V>>>, nodes: set<Node<K, V>>, b: nat)
    requires Placed(hash, chains, nodes) && b < |chains|
    ensures Homed(hash, chains, nodes, b) + Prefix(chains[b], |chains[b]|) == Homed(hash, chains, nodes, b + 1)
  {
    forall n | n in nodes && Slot(hash(n.key), |chains|) == b ensures n in Prefix(chains[b], |chains[b]|) {
      var j :| 0 <= j < |chains[b]| && chains[b][j] == n;
    }
  }

  lemma HomedAll<K(!new), V>(hash: K -> nat, chains: seq<seq<Node<K, V>>>, nodes: set<Node<K, V>>)
    requires Placed(hash, chains, nodes)
    ensures Homed(hash, chains, nodes, 0) == {} && Homed(hash, chains, nodes, |chains|) == nodes
  {
  }

  /** The bucket cursor scan: whole buckets from i on until `count` keys are collected. */
  function ScanFrom<K>(buckets: seq<seq<K>>, i: nat, count: int): (r: (nat, seq<K>))
    requires i <= |buckets|
    ensures i <= r.0 <= |buckets| && (i < |buckets| && count > 0 ==> i < r.0)
    decreases |buckets| - i
  {
    if i == |buckets| || count <= 0 then (i, [])
    else
      var (next, keys) := ScanFrom(buckets, i + 1, count - |buckets[i]|);
      (next, buckets[i] + keys)
  }

  function ScanBuckets<K>(buckets: seq<seq<K>>, cursor: nat, count: nat): (r: (nat, seq<K>)) {
    var (next, keys) := ScanFrom(buckets, if cursor >= |buckets| then 0 else cursor, count);
    (if next >= |buckets| then 0 else next, keys)
  }

  /** A scan in progress: these keys so far, the rest still to come. */
  ghost predicate Scanned<K>(all: (nat, seq<K>), keys: seq<K>, rest: (nat, seq<K>)) {
    all.0 == rest.0 && all.1 == keys + rest.1
  }

  lemma ScanOne<K>(buckets: seq<seq<K>>, i: nat, count: nat, keys: seq<K>, all: (nat, seq<K>))
    requires i < |buckets| && |keys| < count && Scanned(all, keys, ScanFrom(buckets, i, count - |keys|))
    ensures Scanned(all, keys + buckets[i], ScanFrom(buckets, i + 1, count - |keys + buckets[i]|))
  {
  }

  lemma ScanEnd<K>(buckets: seq<seq<K>>, i: nat, count: int)
    requires i <= |buckets| && (i == |buckets| || count <= 0)
    ensures ScanFrom(buckets, i, count) == (i, [])
  {
  }

  /** The keys in that order, each with its value. */
  ghost predicate Visits<K, V>(visited: seq<(K, V)>, contents: map<K, V>, keys: seq<K>) {
    && |visited| == |keys|
    && forall i :: 0 <= i < |keys| ==> keys[i] in contents && visited[i] == (keys[i], contents[keys[i]])
  }

  lemma VisitNone<K, V>(contents: map<K, V>, parts: seq<seq<K>>)
    ensures Visits([], contents, []) && [] + Concat(parts[0..]) == Concat(parts) && Concat(parts[|parts|..]) == []
  {
    assert parts[0..] == parts;
  }

  lemma VisitMore<K, V>(visited: seq<(K, V)>, here: seq<(K, V)>, contents: map<K, V>, seen: seq<K>, parts: seq<seq<K>>,
                        b: nat)
    requires b < |parts| && Visits(visited, contents, seen) && Visits(here, contents, parts[b])
    ensures Visits(visited + here, contents, seen + parts[b])
    ensures seen + parts[b] + Concat(parts[b + 1..]) == seen + Concat(parts[b..])
  {
    assert parts[b..][1..] == parts[b + 1..];
  }

  lemma EveryKeyOnce<K, V>(visited: seq<(K, V)>, contents: map<K, V>, keys: seq<K>)
    requires Visits(visited, contents, keys) && Distinct(keys) && forall k :: k in contents ==> k in keys
    ensures forall i, j :: 0 <= i < j < |visited| ==> visited[i].0 != visited[j].0
    ensures forall k :: k in contents ==> (k, contents[k]) in visited
  {
    forall k | k in contents ensures (k, contents[k]) in visited {
      var i :| 0 <= i < |keys| && keys[i] == k;
      assert visited[i] == (k, contents[k]);
    }
  }

  class HashTable<K(==, !new), V> {
    const hash: K -> nat
    var buckets: array<Node?<K, V>>
    var size: nat
    ghost var chains: seq<seq<Node<K, V>>>
    ghost var nodes: map<K, Node<K, V>>
    ghost var Repr: set<Node<K, V>>

    ghost predicate Valid()
      reads this, buckets, Repr
    {
      && Shape(hash, chains, nodes, Repr, size) && |chains| == buckets.Length
      && AllLinked(buckets, chains)
    }

    ghost function Contents(): map<K, V>
      reads this, Repr
      requires Indexed(nodes, Repr)
    {
      map k | k in nodes :: nodes[k].value
    }

    /** The keys of each bucket in chain order. */
    ghost function Buckets(): seq<seq<K>>
      reads this
    {
      KeysByBucket(chains)
    }

    /** 3/4 full at most, the load factor every table of the store is built with. */
    ghost predicate AtMostThreeQuarters()
      reads this
    {
      4 * size <= 3 * buckets.Length
    }

    constructor (hash: K -> nat, initialCapacity: nat)
      ensures Valid() && Contents() == map[] && Repr == {} && fresh(buckets)
      ensures this.hash == hash && buckets.Length == if initialCapacity < 8 then 8 else initialCapacity
    {
      var capacity := if initialCapacity < 8 then 8 else initialCapacity;
      this.hash := hash;
      buckets := new Node?<K, V>[capacity](_ => null);
      size := 0;
      chains := seq(capacity, _ => []);
      nodes, Repr := map[], {};
    }

    method Find(key: K) returns (slot: Node?<K, V>)
      requires Valid()
      ensures slot == null <==> key !in Contents()
      ensures slot != null ==> slot in Repr && slot.key == key && slot.value == Contents()[key]
    {
      hide Slot, Distinct;
      if buckets.Length == 0 { return null; }
      var b := Slot(hash(key), buckets.Length);
      slot := buckets[b];
      ghost var j := 0;
      while slot != null
        invariant 0 <= j <= |chains[b]|
        invariant slot == if j < |chains[b]| then chains[b][j] else null
        invariant forall i :: 0 <= i < j ==> chains[b][i].key != key
        decreases |chains[b]| - j
      {
        if slot.key == key { return; }
        slot, j := slot.next, j + 1;
      }
    }

    /** Writing through the place that Find and Insert hand out. */
    method Assign(slot: Node<K, V>, value: V)
      requires Valid() && slot in Repr
      modifies slot`value
      ensures Valid() && Contents() == old(Contents())[slot.key := value]
    {
      hide Placed, Slot, Distinct;
      slot.value := value;
    }

    method Insert(key: K, value: V) returns (slot: Node<K, V>, inserted: bool)
      requires Valid()
      modifies this, buckets, Repr
      ensures Valid() && Contents() == old(Contents())[key := value]
      ensures slot in Repr && slot.key == key
      ensures inserted <==> key !in old(Contents())
      ensures inserted ==> AtMostThreeQuarters()
      ensures !inserted ==> buckets == old(buckets) && chains == old(chains)
      ensures fresh(Repr - old(Repr)) && (buckets == old(buckets) || fresh(buckets))
      ensures old(buckets.Length) > 0 ==>
                buckets.Length == old(buckets.Length) || buckets.Length == 2 * old(buckets.Length)
    {
      hide Placed, Slot, Distinct, Linked;
      if buckets.Length == 0 { Resize(8); }
      var existing := Find(key);
      if existing != null {
        Assign(existing, value);
        return existing, false;
      }
      if 4 * (size + 1) > 3 * buckets.Length {
        Resize(buckets.Length * 2);
      }
      slot := Prepend(key, value);
      inserted := true;
    }

    method Prepend(key: K, value: V) returns (slot: Node<K, V>)
      requires Valid() && key !in nodes && size + 1 < buckets.Length
      modifies this, buckets
      ensures Valid() && Contents() == old(Contents())[key := value]
      ensures size == old(size) + 1 && buckets == old(buckets)
      ensures slot in Repr && slot.key == key && Repr == old(Repr) + {slot} && fresh(slot)
    {
      hide Shape, Slot, AllLinked;
      var b := Slot(hash(key), buckets.Length);
      slot := LinkFront(b, key, value);
      ShapeAdd(hash, chains, nodes, Repr, size, slot);
      size := size + 1;
      chains := chains[b := [slot] + chains[b]];
      nodes := nodes[key := slot];
      Repr := Repr + {slot};
    }

    /** A new node heads the bucket's chain; nothing else has changed yet. */
    method LinkFront(b: nat, key: K, value: V) returns (slot: Node<K, V>)
      requires Valid() && b < buckets.Length
      modifies buckets
      ensures fresh(slot) && slot.key == key && slot.value == value
      ensures AllLinked(buckets, chains[b := [slot] + chains[b]])
    {
      hide Placed, Slot, Distinct, Indexed;
      slot := new Node(key, value, buckets[b]);
      buckets[b] := slot;
    }

    method Erase(key: K) returns (erased: bool)
      requires Valid()
      modifies this, buckets, Repr
      ensures Valid() && Contents() == old(Contents()) - {key}
      ensures erased <==> key in old(Contents())
      ensures buckets == old(buckets) && Repr <= old(Repr)
    {
      hide Slot, Distinct;
      if buckets.Length == 0 { return false; }
      var b := Slot(hash(key), buckets.Length);
      var curr := buckets[b];
      var prev: Node?<K, V> := null;
      ghost var j := 0;
      while curr != null
        invariant 0 <= j <= |chains[b]|
        invariant curr == if j < |chains[b]| then chains[b][j] else null
        invariant prev == if j == 0 then null else chains[b][j - 1]
        invariant forall i :: 0 <= i < j ==> chains[b][i].key != key
        decreases |chains[b]| - j
      {
        if curr.key == key {
          Unlink(b, prev, curr, j);
          return true;
        }
        prev, curr, j := curr, curr.next, j + 1;
      }
      return false;
    }

    method Unlink(b: nat, prev: Node?<K, V>, curr: Node<K, V>, ghost j: nat)
      requires Valid() && b < buckets.Length && j < |chains[b]| && curr == chains[b][j]
      requires prev == if j == 0 then null else chains[b][j - 1]
      modifies this, buckets, Repr`next
      ensures Valid() && Contents() == old(Contents()) - {curr.key}
      ensures buckets == old(buckets) && Repr <= old(Repr)
    {
      hide Shape, AllLinked, Without;
      ShapeRemove(hash, chains, nodes, Repr, size, b, j);
      Relink(b, prev, curr, j);
      size := size - 1;
      chains := Without(chains, b, j);
      nodes := nodes - {curr.key};
      Repr := Repr - {curr};
    }

    /** The links skip the node; nothing else has changed yet. */
    method Relink(b: nat, prev: Node?<K, V>, curr: Node<K, V>, ghost j: nat)
      requires Valid() && b < buckets.Length && j < |chains[b]| && curr == chains[b][j]
      requires prev == if j == 0 then null else chains[b][j - 1]
      modifies buckets, Repr`next
      ensures AllLinked(buckets, Without(chains, b, j))
    {
      hide Placed, Slot, Distinct;
      PlacedOnce(hash, chains, Repr, b, j);
      if j > 0 { PlacedOnce(hash, chains, Repr, b, j - 1); }
      if prev != null {
        prev.next := curr.next;
      } else {
        buckets[b] := curr.next;
      }
    }

    /** Every bucket is emptied; the nodes are then unreachable. */
    method Clear()
      requires Valid()
      modifies this, buckets
      ensures Valid() && Contents() == map[] && buckets == old(buckets) && Repr == {}
    {
      hide Placed, Slot, Distinct;
      for b := 0 to buckets.Length
        invariant buckets == old(buckets)
        invariant forall i :: 0 <= i < b ==> buckets[i] == null
      {
        buckets[b] := null;
      }
      size := 0;
      chains := seq(buckets.Length, _ => []);
      nodes, Repr := map[], {};
      PlacedNone(hash, chains);
    }

    /** Relink every node into a new bucket array. */
    method Resize(newCapacity: nat)
      requires Valid()
      modifies this, Repr`next
      ensures Valid() && Contents() == old(Contents()) && nodes == old(nodes) && Repr == old(Repr)
      ensures size == old(size)
      ensures if newCapacity <= size then buckets == old(buckets) && chains == old(chains)
              else fresh(buckets) && buckets.Length == newCapacity
    {
      hide Placed, Slot, Distinct;
      if newCapacity <= size { return; }
      var newBuckets := new Node?<K, V>[newCapacity](_ => null);
      ghost var newChains: seq<seq<Node<K, V>>> := seq(newCapacity, _ => []);
      PlacedNone(hash, newChains);
      HomedAll(hash, chains, Repr);
      for b := 0 to buckets.Length
        modifies Repr`next, newBuckets
        invariant newBuckets.Length == newCapacity == |newChains|
        invariant forall i :: 0 <= i < newCapacity ==> Linked(newBuckets[i], newChains[i])
        invariant Placed(hash, newChains, Homed(hash, chains, Repr, b))
        invariant forall i :: b <= i < |chains| ==> Linked(buckets[i], chains[i])
        invariant unchanged(buckets)
      {
        newChains := MoveChain(b, newBuckets, newChains);
      }
      buckets, chains := newBuckets, newChains;
    }

    /** Move the chain of bucket b, node by node, to the front of the new chains. */
    method MoveChain(b: nat, newBuckets: array<Node?<K, V>>, ghost newChains: seq<seq<Node<K, V>>>)
      returns (ghost movedChains: seq<seq<Node<K, V>>>)
      requires newBuckets != buckets && 0 < newBuckets.Length == |newChains|
      requires |chains| == buckets.Length && b < |chains| && Placed(hash, chains, Repr)
      requires forall i :: 0 <= i < |newChains| ==> Linked(newBuckets[i], newChains[i])
      requires Placed(hash, newChains, Homed(hash, chains, Repr, b))
      requires forall i :: b <= i < |chains| ==> Linked(buckets[i], chains[i])
      modifies Repr`next, newBuckets
      ensures |movedChains| == |newChains|
      ensures forall i :: 0 <= i < |movedChains| ==> Linked(newBuckets[i], movedChains[i])
      ensures Placed(hash, movedChains, Homed(hash, chains, Repr, b + 1))
      ensures forall i :: b < i < |chains| ==> Linked(buckets[i], chains[i])
    {
      hide Placed, Slot, Distinct;
      var curr := buckets[b];
      ghost var chain := chains[b];
      ghost var j, moved := 0, Homed(hash, chains, Repr, b);
      movedChains := newChains;
      while curr != null
        invariant 0 <= j <= |chain| && Linked(curr, chain[j..])
        invariant moved == Homed(hash, chains, Repr, b) + Prefix(chain, j)
        invariant |movedChains| == newBuckets.Length
        invariant forall i :: 0 <= i < |movedChains| ==> Linked(newBuckets[i], movedChains[i])
        invariant Placed(hash, movedChains, moved)
        invariant forall i :: b < i < |chains| ==> Linked(buckets[i], chains[i])
        decreases |chain| - j
      {
        assert curr == chain[j] && chain[j..][1..] == chain[j + 1..];
        HomedNext(hash, chains, Repr, b, j);
        PlacedAway(hash, movedChains, moved, curr);
        PlacedPrepend(hash, movedChains, moved, curr);
        var next := curr.next;
        var index := Slot(hash(curr.key), newBuckets.Length);
        movedChains := movedChains[index := [curr] + movedChains[index]];
        curr.next := newBuckets[index];
        newBuckets[index] := curr;
        moved := moved + {curr};
        curr, j := next, j + 1;
      }
      HomedStep(hash, chains, Repr, b);
    }

    method Scan(cursor: nat, count: nat) returns (next: nat, keys: seq<K>)
      requires Valid()
      ensures (next, keys) == ScanBuckets(Buckets(), cursor, count)
    {
      hide Placed, Slot, Distinct, Linked, KeysByBucket, Indexed, ScanFrom;
      keys := [];
      if buckets.Length == 0 {
        ScanEnd(Buckets(), 0, count);
        return 0, keys;
      }
      var i := if cursor >= buckets.Length then 0 else cursor;
      ghost var parts := Buckets();
      ghost var all := ScanFrom(parts, i, count);
      while i < buckets.Length && |keys| < count
        invariant 0 <= i <= buckets.Length == |parts| && Scanned(all, keys, ScanFrom(parts, i, count - |keys|))
      {
        var here := ChainKeys(i);
        ScanOne(parts, i, count, keys, all);
        keys, i := keys + here, i + 1;
      }
      ScanEnd(parts, i, count - |keys|);
      assert keys + [] == keys;
      next := if i >= buckets.Length then 0 else i;
    }

    method ChainKeys(b: nat) returns (keys: seq<K>)
      requires Valid() && b < buckets.Length
      ensures keys == Buckets()[b]
    {
      keys := [];
      var curr := buckets[b];
      while curr != null
        invariant |keys| <= |chains[b]|
        invariant curr == if |keys| < |chains[b]| then chains[b][|keys|] else null
        invariant keys == KeysOf(chains[b])[..|keys|]
        decreases |chains[b]| - |keys|
      {
        keys, curr := keys + [curr.key], curr.next;
      }
    }

    /** What a visitor sees: every key once, bucket by bucket, with its value. */
    method ForEach() returns (visited: seq<(K, V)>)
      requires Valid()
      ensures Visits(visited, Contents(), Concat(Buckets()))
      ensures forall i, j :: 0 <= i < j < |visited| ==> visited[i].0 != visited[j].0
      ensures forall k :: k in Contents() ==> (k, Contents()[k]) in visited
    {
      hide Placed, Slot, Distinct, Linked, Visits, Concat, KeysByBucket;
      ghost var parts, contents := Buckets(), Contents();
      visited := [];
      ghost var seen: seq<K> := [];
      VisitNone(contents, parts);
      for b := 0 to buckets.Length
        invariant |parts| == buckets.Length && seen + Concat(parts[b..]) == Concat(parts)
        invariant Visits(visited, contents, seen)
      {
        var here := ChainItems(b);
        VisitMore(visited, here, contents, seen, parts, b);
        visited, seen := visited + here, seen + parts[b];
      }
      assert seen + [] == seen;
      BucketsHoldKeysOnce();
      EveryKeyOnce(visited, contents, seen);
    }

    method ChainItems(b: nat) returns (items: seq<(K, V)>)
      requires Valid() && b < buckets.Length
      ensures Visits(items, Contents(), Buckets()[b])
    {
      hide Slot, Distinct;
      items := [];
      var curr := buckets[b];
      while curr != null
        invariant |items| <= |chains[b]|
        invariant curr == if |items| < |chains[b]| then chains[b][|items|] else null
        invariant forall i :: 0 <= i < |items| ==>
                    chains[b][i].key in Contents() && items[i] == (chains[b][i].key, Contents()[chains[b][i].key])
        decreases |chains[b]| - |items|
      {
        items, curr := items + [(curr.key, curr.value)], curr.next;
      }
    }

    /** Every key is in the bucket its hash selects. */
    lemma BucketsHashed()
      requires Valid()
      ensures forall b, k :: 0 <= b < |Buckets()| && k in Buckets()[b] ==> hash(k) % |Buckets()| == b
    {
      forall b, k | 0 <= b < |Buckets()| && k in Buckets()[b] ensures hash(k) % |Buckets()| == b {
        var j :| 0 <= j < |Buckets()[b]| && Buckets()[b][j] == k;
        assert chains[b][j].key == k && Slot(hash(chains[b][j].key), |chains|) == b;
      }
    }

    /** The buckets hold every key of the table exactly once. */
    lemma BucketsHoldKeysOnce()
      requires Valid()
      ensures Distinct(Concat(Buckets()))
      ensures forall k :: k in Concat(Buckets()) <==> k in Contents()
    {
      var parts := Buckets();
      forall b, c, i, j | 0 <= b < |parts| && 0 <= c < |parts| && 0 <= i < |parts[b]| && 0 <= j < |parts[c]|
                          && parts[b][i] == parts[c][j]
        ensures b == c && i == j
      {
        assert chains[b][i] == chains[c][j];
      }
      ConcatDistinct(parts);
      forall k ensures k in Concat(parts) <==> k in Contents() {
        InConcat(parts, k);
        if k in nodes {
          var b := Slot(hash(k), |chains|);
          var j :| 0 <= j < |chains[b]| && chains[b][j] == nodes[k];
          assert parts[b][j] == k;
        }
      }
    }
  }

  // ----- a whole run is a run of a finite map -----

  datatype Op<K, V> = Put(key: K, value: V) | Lookup(key: K) | Remove(key: K) | Rehash(capacity: nat) | Empty

  datatype Answer<V> = Fresh(inserted: bool) | Found(value: Option<V>) | Removed(erased: bool) | Done

  function MapStep<K, V>(m: map<K, V>, op: Op<K, V>): (map<K, V>, Answer<V>) {
    match op
    case Put(k, v) => (m[k := v], Fresh(k !in m))
    case Lookup(k) => (m, Found(if k in m then Some(m[k]) else None))
    case Remove(k) => (m - {k}, Removed(k in m))
    case Rehash(_) => (m, Done)
    case Empty => (map[], Done)
  }

  function MapAnswers<K, V>(m: map<K, V>, ops: seq<Op<K, V>>): seq<Answer<V>>
    decreases |ops|
  {
    if ops == [] then []
    else [MapStep(m, ops[0]).1] + MapAnswers(MapStep(m, ops[0]).0, ops[1..])
  }

  lemma AnswerOne<K, V>(m: map<K, V>, ops: seq<Op<K, V>>, i: nat, answers: seq<Answer<V>>)
    requires i < |ops|
    ensures var (m', answer) := MapStep(m, ops[i]);
            answers + MapAnswers(m, ops[i..]) == answers + [answer] + MapAnswers(m', ops[i + 1..])
  {
    hide MapStep;
    assert ops[i..][1..] == ops[i + 1..];
    Regroup(answers, [MapStep(m, ops[i]).1], MapAnswers(MapStep(m, ops[i]).0, ops[i + 1..]));
  }

  lemma AnswerNone<K, V>(m: map<K, V>, ops: seq<Op<K, V>>, answers: seq<Answer<V>>)
    ensures answers + MapAnswers(m, ops[|ops|..]) == answers
  {
  }

  /** Any sequence of operations on a new table gets the answers of a finite map, whatever the
      hash function and the initial capacity. */
  method Replay<K(==, !new), V>(hash: K -> nat, initialCapacity: nat, ops: seq<Op<K, V>>)
    returns (answers: seq<Answer<V>>)
    ensures answers == MapAnswers(map[], ops)
  {
    hide Placed, Slot, Distinct, Linked, Indexed, MapAnswers, MapStep;
    var table := new HashTable(hash, initialCapacity);
    answers := [];
    assert ops[0..] == ops;
    for i := 0 to |ops|
      invariant table.Valid() && fresh(table) && fresh(table.buckets) && fresh(table.Repr)
      invariant answers + MapAnswers(table.Contents(), ops[i..]) == MapAnswers(map[], ops)
    {
      AnswerOne(table.Contents(), ops, i, answers);
      var answer := Apply(table, ops[i]);
      answers := answers + [answer];
    }
    AnswerNone(table.Contents(), ops, answers);
  }

  method Apply<K(==, !new), V>(table: HashTable<K, V>, op: Op<K, V>) returns (answer: Answer<V>)
    requires table.Valid()
    modifies table, table.buckets, table.Repr
    ensures table.Valid() && fresh(table.Repr - old(table.Repr))
    ensures table.buckets == old(table.buckets) || fresh(table.buckets)
    ensures (table.Contents(), answer) == MapStep(old(table.Contents()), op)
  {
    hide Placed, Slot, Distinct, Linked;
    match op {
      case Put(k, v) =>
        var _, inserted := table.Insert(k, v);
        answer := Fresh(inserted);
      case Lookup(k) =>
        var slot := table.Find(k);
        answer := Found(if slot == null then None else Some(slot.value));
      case Remove(k) =>
        var erased := table.Erase(k);
        answer := Removed(erased);
      case Rehash(capacity) =>
        table.Resize(capacity);
        answer := Done;
      case Empty =>
        table.Clear();
        answer := Done;
    }
  }
}
