/** The scan while the store is written to, between its calls and, since a call holds the lock of one
    shard at a time, between the shards of a call. Tables only double, so a key that has not been
    passed yet is never moved to where the scan has been. */
module ScanWrites {
  import opened HashTables
  import opened Options
  import opened Records
  import opened Sequences
  import opened ShardScan
  import KV = KeyValue

  // ----- one call, one key -----

  /** The keys of a table sit once each, in the buckets their hashes select. */
  ghost predicate Hashed<K(!new)>(view: View<K>, hash: K -> nat) {
    && Distinct(Concat(view.buckets))
    && forall b, k :: 0 <= b < |view.buckets| && k in view.buckets[b] ==> hash(k) % |view.buckets| == b
  }

  /** The key is live in its own shard, where the hash puts it, and in no other. */
  ghost predicate Settled<K(!new)>(views: seq<View<K>>, k: K, home: nat, hash: K -> nat) {
    && Scannable(views) && OneShardEach(views) && home < |views|
    && Hashed(views[home], hash) && Holds(views[home], k)
  }

  /** Whether a scan that goes on from there has yet to come to the key. */
  ghost predicate ToCome<K(!new)>(views: seq<View<K>>, shard: nat, bucket: nat, k: K, home: nat, hash: K -> nat) {
    && home < |views| && |views[home].buckets| > 0
    && (home > shard || (home == shard && hash(k) % |views[home].buckets| >= bucket))
  }

  lemma {:induction false} InLater<K(!new)>(buckets: seq<seq<K>>, from: nat, k: K, at: nat)
    requires from <= |buckets| && at < |buckets| && k in buckets[at]
    requires forall b :: 0 <= b < |buckets| && k in buckets[b] ==> b == at
    ensures k in Concat(buckets[from..]) <==> from <= at
  {
    hide Concat;
    var later := buckets[from..];
    InConcat(later, k);
    if from <= at { assert later[at - from] == buckets[at]; }
    if k in Concat(later) {
      var b :| 0 <= b < |later| && k in later[b];
      assert later[b] == buckets[from + b];
    }
  }

  lemma HomeBucket<K(!new)>(view: View<K>, k: K, hash: K -> nat)
    requires Hashed(view, hash) && Holds(view, k)
    ensures |view.buckets| > 0 && k in view.buckets[hash(k) % |view.buckets|]
  {
    hide Concat, Distinct;
    InConcat(view.buckets, k);
  }

  lemma RestHas<K(!new)>(views: seq<View<K>>, shard: nat, bucket: nat, k: K, home: nat, hash: K -> nat)
    requires Settled(views, k, home, hash) && At(views, shard, bucket)
    ensures k in Rest(views, shard, bucket) <==> ToCome(views, shard, bucket, k, home, hash)
  {
    hide Rest, Filter, Concat, Distinct, Holds, Hashed;
    RestUnfolds(views, shard, bucket);
    RestHolds(views, shard + 1, k);
    var view := views[shard];
    InFilter(Concat(view.buckets[bucket..]), view.live, k);
    if home == shard {
      HereOrLater(view, bucket, k, hash);
    } else {
      NotInOther(views, shard, bucket, k, home);
    }
  }

  lemma HereOrLater<K(!new)>(view: View<K>, bucket: nat, k: K, hash: K -> nat)
    requires Hashed(view, hash) && Holds(view, k) && bucket < |view.buckets|
    ensures k in Concat(view.buckets[bucket..]) && k in view.live <==> hash(k) % |view.buckets| >= bucket
  {
    hide Concat, Distinct;
    HomeBucket(view, k, hash);
    InLater(view.buckets, bucket, k, hash(k) % |view.buckets|);
  }

  lemma NotInOther<K(!new)>(views: seq<View<K>>, shard: nat, bucket: nat, k: K, home: nat)
    requires OneShardEach(views) && home < |views| && Holds(views[home], k)
    requires At(views, shard, bucket) && shard != home
    ensures !(k in Concat(views[shard].buckets[bucket..]) && k in views[shard].live)
  {
    hide Concat, Distinct;
    var buckets := views[shard].buckets;
    InConcat(buckets[bucket..], k);
    InConcat(buckets, k);
    if k in Concat(buckets[bucket..]) {
      var b :| 0 <= b < |buckets[bucket..]| && k in buckets[bucket..][b];
      assert k in buckets[bucket + b];
    }
    assert !Holds(views[shard], k);
  }

  // ----- nothing twice in one call -----

  lemma {:induction false} LaterDistinct<K>(buckets: seq<seq<K>>, from: nat)
    requires from <= |buckets| && Distinct(Concat(buckets))
    ensures Distinct(Concat(buckets[from..]))
  {
    if from == 0 {
      assert buckets[0..] == buckets;
    } else {
      var rest := Concat(buckets[1..]);
      forall i, j | 0 <= i < j < |rest| ensures rest[i] != rest[j] {
        assert rest[i] == Concat(buckets)[|buckets[0]| + i] && rest[j] == Concat(buckets)[|buckets[0]| + j];
      }
      LaterDistinct(buckets[1..], from - 1);
      assert buckets[1..][from - 1..] == buckets[from..];
    }
  }

  lemma {:induction false} LaterIsThere<K>(buckets: seq<seq<K>>, from: nat, k: K)
    requires from <= |buckets| && k in Concat(buckets[from..])
    ensures k in Concat(buckets)
  {
    hide Concat;
    var later := buckets[from..];
    InConcat(later, k);
    InConcat(buckets, k);
    var b :| 0 <= b < |later| && k in later[b];
    assert k in buckets[from + b];
  }

  lemma RestDistinctFrom<K(!new)>(views: seq<View<K>>, shard: nat, bucket: nat)
    requires OneShardEach(views) && At(views, shard, bucket)
    ensures Distinct(Rest(views, shard, bucket))
  {
    hide Rest, Filter, Concat, Distinct, OneShardEach, Holds;
    RestUnfolds(views, shard, bucket);
    RestDistinct(views, shard + 1);
    KeysOnce(views, shard);
    var view := views[shard];
    var keys, later := Concat(view.buckets[bucket..]), Rest(views, shard + 1, 0);
    LaterDistinct(view.buckets, bucket);
    FilterDistinct(keys, view.live);
    forall k | k in later ensures k !in Filter(keys, view.live) {
      InFilter(keys, view.live, k);
      NotHere(views, shard, k);
      HoldsHere(view, k);
      InFilter(Concat(view.buckets), view.live, k);
      if k in keys { LaterIsThere(view.buckets, bucket, k); }
    }
    AppendDistinct(Filter(keys, view.live), later);
  }

  /** One call returns the key exactly when it comes past it, and then once. */
  lemma OneCall<K(!new)>(views: seq<View<K>>, cursor: nat, count: nat, k: K, home: nat, hash: K -> nat)
    requires Settled(views, k, home, hash) && ValidCursor(views, cursor)
    ensures var (next, keys) := ScanCall(views, cursor, count);
            var before := ToCome(views, ShardOf(cursor), BucketOf(cursor), k, home, hash);
            && (next != 0 ==> ValidCursor(views, next))
            && var after := next != 0 && ToCome(views, ShardOf(next), BucketOf(next), k, home, hash);
               multiset(keys)[k] == (if before && !after then 1 else 0) && (after ==> before)
  {
    hide ScanCall, ShardOf, BucketOf, Rest, Holds, Hashed, OneShardEach, Distinct;
    ScanCallStep(views, cursor, count);
    var (next, keys) := ScanCall(views, cursor, count);
    RestDistinctFrom(views, ShardOf(cursor), BucketOf(cursor));
    RestHas(views, ShardOf(cursor), BucketOf(cursor), k, home, hash);
    if next == 0 {
      assert keys + [] == keys;
      OnceEach(keys, [], k);
    } else {
      RestHas(views, ShardOf(next), BucketOf(next), k, home, hash);
      OnceEach(keys, RestAt(views, next), k);
    }
  }

  lemma {:induction false} DistinctCount<K>(s: seq<K>, k: K)
    requires Distinct(s)
    ensures multiset(s)[k] == if k in s then 1 else 0
  {
    if s != [] {
      assert s == [s[0]] + s[1..];
      DistinctCount(s[1..], k);
    }
  }

  lemma OnceEach<K>(front: seq<K>, back: seq<K>, k: K)
    requires Distinct(front + back)
    ensures multiset(front)[k] == if k in front + back && k !in back then 1 else 0
    ensures k in back ==> k in front + back
  {
    hide Distinct;
    DistinctCount(front + back, k);
    assert multiset(front + back) == multiset(front) + multiset(back);
    assert multiset(back)[k] > 0 <==> k in back;
  }

  // ----- a session of calls with writes between them -----

  /** What the calls saw of each shard when they came to it, from which cursors they went on, and what
      they returned. */
  ghost predicate Session<K(!new)>(sights: seq<seq<View<K>>>, counts: seq<nat>, cursors: seq<nat>, results: seq<seq<K>>)
  {
    && |sights| == |counts| == |results| && |cursors| == |sights| + 1 && cursors[0] == 0
    && (forall j :: 0 <= j < |sights| ==> Called(sights[j], counts[j], cursors, j, results[j]))
    && (forall j :: 0 < j < |sights| ==> cursors[j] != 0)
  }

  ghost predicate Called<K(!new)>(views: seq<View<K>>, count: nat, cursors: seq<nat>, j: nat, keys: seq<K>) {
    j + 1 < |cursors| && |views| == NUM_SHARDS && (cursors[j + 1], keys) == ScanCall(views, cursors[j], count)
  }

  /** A table that is rehashed is made larger by a whole factor. */
  predicate Multiplied(before: nat, after: nat) { 0 < before <= after && after % before == 0 }

  ghost predicate Grown<K>(before: seq<View<K>>, after: seq<View<K>>) {
    |before| == |after| && forall s :: 0 <= s < |before| ==> Multiplied(|before[s].buckets|, |after[s].buckets|)
  }

  /** Every call sees tables grown from those the one before it saw. */
  ghost predicate Growing<K>(sights: seq<seq<View<K>>>) {
    forall j :: 0 < j < |sights| ==> GrownAt(sights, j)
  }

  ghost predicate GrownAt<K>(sights: seq<seq<View<K>>>, j: nat) {
    0 < j < |sights| && Grown(sights[j - 1], sights[j])
  }

  ghost predicate SameSize<K>(before: seq<View<K>>, after: seq<View<K>>, home: nat) {
    home < |before| && home < |after| && |before[home].buckets| == |after[home].buckets|
  }

  ghost predicate NeverRehashed<K>(sights: seq<seq<View<K>>>, home: nat) {
    forall i, j :: 0 <= i < j < |sights| ==> SameSize(sights[i], sights[j], home)
  }

  /** How often the calls returned a key. */
  function Times<K(==)>(results: seq<seq<K>>, k: K): nat {
    if results == [] then 0 else multiset(results[0])[k] + Times(results[1..], k)
  }

  /** In a table larger by a whole factor a key is in its old bucket or a later one. */
  lemma MovesUp(h: nat, before: nat, after: nat)
    requires Multiplied(before, after)
    ensures h % before <= h % after
  {
    var n, q, r := after / before, h / after, h % after;
    var p := r / before;
    assert after == n * before by { Divided(after, before); }
    assert h == q * after + r by { Divided(h, after); }
    assert r == p * before + r % before by { Divided(r, before); }
    Folded(q, n, p, before);
    RemainderIs(h, before, q * n + p, r % before);
  }

  lemma Folded(q: nat, n: nat, p: nat, d: nat)
    ensures q * (n * d) + p * d == (q * n + p) * d && p * d >= 0
  {
    assert q * (n * d) == q * n * d;
  }

  lemma Divided(x: nat, d: nat)
    requires d > 0
    ensures x == x / d * d + x % d
  {
  }

  lemma AtLeastOnce(a: nat, d: nat)
    requires a > 0
    ensures a * d >= d
  {
  }

  lemma RemainderIs(x: nat, d: nat, q: nat, r: nat)
    requires x == q * d + r && r < d
    ensures x % d == r
  {
    var p := x / d;
    Divided(x, d);
    assert p * d - q * d == (p - q) * d && q * d - p * d == (q - p) * d;
    if p > q { AtLeastOnce(p - q, d); } else if p < q { AtLeastOnce(q - p, d); }
  }

  // ----- the sessions cover what stays live -----

  /** From a call on: a key still to come is returned at least once; and, while its table is not
      rehashed, exactly once, and one already passed not again. */
  lemma {:induction false} FromCall<K(!new)>(sights: seq<seq<View<K>>>, counts: seq<nat>, cursors: seq<nat>,
                                             results: seq<seq<K>>, k: K, home: nat, hash: K -> nat, j: nat)
    requires Session(sights, counts, cursors, results) && cursors[|sights|] == 0 && Growing(sights) && j < |sights|
    requires forall i :: 0 <= i < |sights| ==> Settled(sights[i], k, home, hash)
    requires ValidCursor(sights[j], cursors[j])
    ensures var coming := ToCome(sights[j], ShardOf(cursors[j]), BucketOf(cursors[j]), k, home, hash);
            && (coming ==> Times(results[j..], k) >= 1)
            && (NeverRehashed(sights, home) ==> Times(results[j..], k) == if coming then 1 else 0)
    decreases |sights| - j
  {
    hide Settled, ToCome, ScanCall, ShardOf, BucketOf, Grown, SameSize;
    assert Called(sights[j], counts[j], cursors, j, results[j]);
    OneCall(sights[j], cursors[j], counts[j], k, home, hash);
    assert results[j..][1..] == results[j + 1..];
    if j + 1 < |sights| {
      assert GrownAt(sights, j + 1);
      CarriedOver(sights[j], sights[j + 1], cursors[j + 1], k, home, hash);
      FromCall(sights, counts, cursors, results, k, home, hash, j + 1);
    } else {
      assert results[j + 1..] == [];
    }
  }

  /** Between two calls a cursor stays valid, and a key to come stays to come. */
  lemma CarriedOver<K(!new)>(before: seq<View<K>>, after: seq<View<K>>, cursor: nat, k: K, home: nat, hash: K -> nat)
    requires Settled(before, k, home, hash) && Settled(after, k, home, hash) && Grown(before, after)
    requires ValidCursor(before, cursor)
    ensures ValidCursor(after, cursor)
    ensures var s, b := ShardOf(cursor), BucketOf(cursor);
            && (ToCome(before, s, b, k, home, hash) ==> ToCome(after, s, b, k, home, hash))
            && (SameSize(before, after, home) && ToCome(after, s, b, k, home, hash) ==>
                ToCome(before, s, b, k, home, hash))
  {
    hide Holds, Hashed, OneShardEach, ShardOf, BucketOf, Multiplied;
    var s := ShardOf(cursor);
    assert Multiplied(|before[s].buckets|, |after[s].buckets|)
      && Multiplied(|before[home].buckets|, |after[home].buckets|);
    MovesUp(hash(k), |before[home].buckets|, |after[home].buckets|);
    LargerTable(|before[s].buckets|, |after[s].buckets|);
  }

  lemma LargerTable(before: nat, after: nat)
    requires Multiplied(before, after)
    ensures before <= after
  {
  }

  /** Over a session that has come to its end: a key live in its shard at every call is returned at
      least once, whatever was written between the calls, and exactly once if its table was not
      rehashed meanwhile. */
  lemma SessionCovers<K(!new)>(sights: seq<seq<View<K>>>, counts: seq<nat>, cursors: seq<nat>, results: seq<seq<K>>,
                               k: K, home: nat, hash: K -> nat)
    requires Session(sights, counts, cursors, results) && sights != [] && cursors[|sights|] == 0 && Growing(sights)
    requires forall i :: 0 <= i < |sights| ==> Settled(sights[i], k, home, hash)
    ensures Times(results, k) >= 1
    ensures NeverRehashed(sights, home) ==> Times(results, k) == 1
  {
    hide Growing, OneShardEach, Holds, Hashed, NeverRehashed;
    assert Settled(sights[0], k, home, hash);
    FromCall(sights, counts, cursors, results, k, home, hash, 0);
    assert results[0..] == results;
  }

  // ----- on the store's tables -----

  /** What one operation on the entries of the store comes down to. */
  datatype Write = Write(key: string, entry: Option<Entry>)

  /** A call of the scan, and the writes before it comes to each of the shards. The clock is read once. */
  datatype Turn = Turn(gaps: seq<seq<Write>>, count: nat, now: nat)

  function Gap(turn: Turn, s: nat): seq<Write> { if s < |turn.gaps| then turn.gaps[s] else [] }

  function AfterWrite(m: map<string, Entry>, w: Write): map<string, Entry> {
    if w.entry.Some? then m[w.key := w.entry.value] else m - {w.key}
  }

  function AfterWrites(m: map<string, Entry>, writes: seq<Write>): map<string, Entry> {
    if writes == [] then m
    else AfterWrite(AfterWrites(m, writes[..|writes| - 1]), writes[|writes| - 1])
  }

  /** What the store holds when the first s gaps of a turn are over. */
  function Within(m: map<string, Entry>, turn: Turn, s: nat): map<string, Entry> {
    if s == 0 then m else AfterWrites(Within(m, turn, s - 1), Gap(turn, s - 1))
  }

  /** What the store holds after these turns. */
  function Stored(turns: seq<Turn>): map<string, Entry> {
    if turns == [] then map[]
    else Within(Stored(turns[..|turns| - 1]), turns[|turns| - 1], NUM_SHARDS)
  }

  predicate LiveIn(m: map<string, Entry>, k: string, now: nat) { k in m && !Expired(m[k].expireAt, now) }

  function Part(m: map<string, Entry>, i: nat): map<string, Entry> {
    map k | k in m && ShardIndex(k) == i :: m[k]
  }

  type Table = HashTable<string, Entry>

  /** The tables hold the map, each its part. */
  ghost predicate Hold(tables: seq<Table>, m: map<string, Entry>, hash: string -> nat)
    reads *
  {
    && |tables| == NUM_SHARDS
    && forall i :: 0 <= i < |tables| ==> HoldsPart(tables[i], m, i, hash)
  }

  ghost predicate HoldsPart(table: Table, m: map<string, Entry>, i: nat, hash: string -> nat)
    reads table, table.buckets, table.Repr
  {
    table.Valid() && table.hash == hash && table.buckets.Length > 0 && table.Contents() == Part(m, i)
  }

  /** No two tables share anything. */
  ghost predicate Apart(tables: seq<Table>)
    reads tables
  {
    forall i, j :: 0 <= i < j < |tables| ==>
      tables[i] != tables[j] && tables[i].buckets != tables[j].buckets && tables[i].Repr !! tables[j].Repr
  }

  /** One write on the table of its shard. */
  method WriteTable(table: Table, w: Write, ghost m: map<string, Entry>, ghost hash: string -> nat)
    requires HoldsPart(table, m, ShardIndex(w.key), hash)
    modifies table, table.buckets, table.Repr
    ensures HoldsPart(table, AfterWrite(m, w), ShardIndex(w.key), hash)
    ensures fresh(table.Repr - old(table.Repr)) && (table.buckets == old(table.buckets) || fresh(table.buckets))
    ensures Multiplied(old(table.buckets.Length), table.buckets.Length)
  {
    hide ShardIndex, Placed, Slot, Distinct, Linked, Indexed, Part, AfterWrite;
    PartAfter(m, w, ShardIndex(w.key));
    Doubled(table.buckets.Length);
    if w.entry.Some? {
      var _, _ := table.Insert(w.key, w.entry.value);
    } else {
      var _ := table.Erase(w.key);
    }
  }

  lemma Doubled(n: nat)
    requires n > 0
    ensures Multiplied(n, n) && Multiplied(n, 2 * n)
  {
    RemainderIs(n, n, 1, 0);
    RemainderIs(2 * n, n, 2, 0);
  }

  lemma PartAfter(m: map<string, Entry>, w: Write, i: nat)
    ensures ShardIndex(w.key) == i && w.entry.Some? ==> Part(AfterWrite(m, w), i) == Part(m, i)[w.key := w.entry.value]
    ensures ShardIndex(w.key) == i && w.entry.None? ==> Part(AfterWrite(m, w), i) == Part(m, i) - {w.key}
    ensures ShardIndex(w.key) != i ==> Part(AfterWrite(m, w), i) == Part(m, i)
  {
    hide ShardIndex;
  }

  lemma OtherPart(table: Table, m: map<string, Entry>, w: Write, i: nat, hash: string -> nat)
    requires HoldsPart(table, m, i, hash) && ShardIndex(w.key) != i
    ensures HoldsPart(table, AfterWrite(m, w), i, hash)
  {
    hide ShardIndex, Part, AfterWrite;
    PartAfter(m, w, i);
  }

  method WriteOne(tables: seq<Table>, w: Write, ghost m: map<string, Entry>, ghost hash: string -> nat)
    requires Hold(tables, m, hash) && Apart(tables)
    modifies tables[ShardIndex(w.key)], tables[ShardIndex(w.key)].buckets, tables[ShardIndex(w.key)].Repr
    ensures Hold(tables, AfterWrite(m, w), hash) && Apart(tables)
    ensures forall i :: 0 <= i < |tables| ==> fresh(tables[i].Repr - old(tables[i].Repr))
    ensures forall i :: 0 <= i < |tables| ==> tables[i].buckets == old(tables[i].buckets) || fresh(tables[i].buckets)
    ensures forall i :: 0 <= i < |tables| ==> Multiplied(old(tables[i].buckets.Length), tables[i].buckets.Length)
  {
    hide ShardIndex, HoldsPart, AfterWrite, Multiplied;
    var i := ShardIndex(w.key);
    WriteTable(tables[i], w, m, hash);
    forall j | 0 <= j < |tables| && j != i
      ensures HoldsPart(tables[j], AfterWrite(m, w), j, hash)
      ensures Multiplied(old(tables[j].buckets.Length), tables[j].buckets.Length)
    {
      OtherPart(tables[j], m, w, j, hash);
      NotEmpty(tables[j], m, j, hash);
    }
  }

  lemma NotEmpty(table: Table, m: map<string, Entry>, i: nat, hash: string -> nat)
    requires HoldsPart(table, m, i, hash)
    ensures Multiplied(table.buckets.Length, table.buckets.Length)
  {
    Doubled(table.buckets.Length);
  }

  lemma MultipliedTwice(a: nat, b: nat, c: nat)
    requires Multiplied(a, b) && Multiplied(b, c)
    ensures Multiplied(a, c)
  {
    var n, k := b / a, c / b;
    assert b == n * a by { Divided(b, a); }
    assert c == k * b by { Divided(c, b); }
    Folded(k, n, 0, a);
    RemainderIs(c, a, k * n, 0);
  }

  method WriteAll(tables: seq<Table>, writes: seq<Write>, ghost m: map<string, Entry>, ghost hash: string -> nat)
    requires Hold(tables, m, hash) && Apart(tables)
    modifies set i | 0 <= i < |tables| :: tables[i]
    modifies set i | 0 <= i < |tables| :: tables[i].buckets
    modifies set i, n | 0 <= i < |tables| && n in tables[i].Repr :: n
    ensures Hold(tables, AfterWrites(m, writes), hash) && Apart(tables)
    ensures forall i :: 0 <= i < |tables| ==> fresh(tables[i].Repr - old(tables[i].Repr))
    ensures forall i :: 0 <= i < |tables| ==> tables[i].buckets == old(tables[i].buckets) || fresh(tables[i].buckets)
    ensures forall i :: 0 <= i < |tables| ==> Multiplied(old(tables[i].buckets.Length), tables[i].buckets.Length)
  {
    hide ShardIndex, HoldsPart, AfterWrite, Multiplied, Apart;
    forall i | 0 <= i < |tables| ensures Multiplied(tables[i].buckets.Length, tables[i].buckets.Length) {
      NotEmpty(tables[i], m, i, hash);
    }
    for j := 0 to |writes|
      invariant Hold(tables, AfterWrites(m, writes[..j]), hash) && Apart(tables)
      invariant forall i :: 0 <= i < |tables| ==> fresh(tables[i].Repr - old(tables[i].Repr))
      invariant forall i :: 0 <= i < |tables| ==>
                tables[i].buckets == old(tables[i].buckets) || fresh(tables[i].buckets)
      invariant forall i :: 0 <= i < |tables| ==> Multiplied(old(tables[i].buckets.Length), tables[i].buckets.Length)
    {
      label before:
      WriteOne(tables, writes[j], AfterWrites(m, writes[..j]), hash);
      assert writes[..j + 1][..j] == writes[..j];
      forall i | 0 <= i < |tables| ensures Multiplied(old(tables[i].buckets.Length), tables[i].buckets.Length) {
        MultipliedTwice(old(tables[i].buckets.Length), old@before(tables[i].buckets.Length), tables[i].buckets.Length);
      }
    }
    assert writes[..|writes|] == writes;
  }

  method NewTables(hash: string -> nat, capacity: nat) returns (tables: seq<Table>)
    ensures Hold(tables, map[], hash) && Apart(tables)
    ensures forall i :: 0 <= i < |tables| ==> fresh(tables[i]) && fresh(tables[i].buckets) && fresh(tables[i].Repr)
  {
    hide ShardIndex, HoldsPart;
    tables := [];
    while |tables| < NUM_SHARDS
      invariant |tables| <= NUM_SHARDS && Apart(tables)
      invariant forall i :: 0 <= i < |tables| ==> HoldsPart(tables[i], map[], i, hash)
      invariant forall i :: 0 <= i < |tables| ==> fresh(tables[i]) && fresh(tables[i].buckets) && fresh(tables[i].Repr)
    {
      var table := NewTable(hash, capacity, |tables|);
      tables := tables + [table];
    }
  }

  method NewTable(hash: string -> nat, capacity: nat, ghost i: nat) returns (table: Table)
    ensures HoldsPart(table, map[], i, hash) && fresh(table) && fresh(table.buckets) && table.Repr == {}
  {
    table := new HashTable(hash, capacity);
    assert Part(map[], i) == map[];
  }

  // ----- what a call sees -----

  /** The view is that of the shard when the call of the turn comes to it. */
  ghost predicate WatchesShard(view: View<string>, m: map<string, Entry>, turn: Turn, i: nat, hash: string -> nat) {
    && Hashed(view, hash)
    && forall k :: Holds(view, k) <==> LiveIn(Within(m, turn, i + 1), k, turn.now) && ShardIndex(k) == i
  }

  ghost predicate Watches(views: seq<View<string>>, m: map<string, Entry>, turn: Turn, hash: string -> nat) {
    |views| == NUM_SHARDS && forall i :: 0 <= i < |views| ==> WatchesShard(views[i], m, turn, i, hash)
  }

  ghost function ViewOf(table: Table, now: nat): View<string>
    requires table.Valid()
    reads table, table.buckets, table.Repr
  {
    View(table.Buckets(), KV.Live(table.Contents(), now).Keys)
  }

  lemma ViewWatches(table: Table, m: map<string, Entry>, i: nat, now: nat, hash: string -> nat)
    requires HoldsPart(table, m, i, hash)
    ensures SeesOne(table, ViewOf(table, now), now) && Hashed(ViewOf(table, now), hash)
    ensures |ViewOf(table, now).buckets| == table.buckets.Length
    ensures forall k :: Holds(ViewOf(table, now), k) <==> LiveIn(m, k, now) && ShardIndex(k) == i
  {
    hide ShardIndex, Concat, Placed, Linked, Indexed, KeysByBucket;
    ViewHolds(table, ViewOf(table, now), now);
    table.BucketsHashed();
  }

  lemma Usable(table: Table, m: map<string, Entry>, i: nat, hash: string -> nat)
    requires HoldsPart(table, m, i, hash)
    ensures table.Valid()
  {
  }

  // ----- what a session has covered -----

  lemma {:induction false} CursorValid<K(!new)>(sights: seq<seq<View<K>>>, counts: seq<nat>, cursors: seq<nat>,
                                                results: seq<seq<K>>, j: nat)
    requires Session(sights, counts, cursors, results) && Growing(sights) && j < |sights|
    requires forall i :: 0 <= i < |sights| ==> Scannable(sights[i])
    ensures ValidCursor(sights[j], cursors[j])
  {
    hide ScanCall, Grown;
    if j > 0 {
      CursorValid(sights, counts, cursors, results, j - 1);
      assert Called(sights[j - 1], counts[j - 1], cursors, j - 1, results[j - 1]);
      ScanCallStep(sights[j - 1], cursors[j - 1], counts[j - 1]);
      assert GrownAt(sights, j);
      StaysValid(sights[j - 1], sights[j], cursors[j]);
    } else {
      assert Scannable(sights[0]);
    }
  }

  lemma StaysValid<K(!new)>(before: seq<View<K>>, after: seq<View<K>>, cursor: nat)
    requires ValidCursor(before, cursor) && Grown(before, after)
    ensures ValidCursor(after, cursor)
  {
    hide ShardOf, BucketOf, Multiplied;
    var s := ShardOf(cursor);
    assert Multiplied(|before[s].buckets|, |after[s].buckets|);
    LargerTable(|before[s].buckets|, |after[s].buckets|);
  }

  lemma OnlyHeld<K(!new)>(views: seq<View<K>>, cursor: nat, count: nat, k: K)
    requires Scannable(views) && ValidCursor(views, cursor) && k in ScanCall(views, cursor, count).1
    ensures exists s :: 0 <= s < |views| && Holds(views[s], k)
  {
    hide ScanCall, Rest, Filter, Concat;
    ScanCallStep(views, cursor, count);
    var shard, bucket := ShardOf(cursor), BucketOf(cursor);
    assert k in Rest(views, shard, bucket);
    RestUnfolds(views, shard, bucket);
    RestHolds(views, shard + 1, k);
    var view := views[shard];
    InFilter(Concat(view.buckets[bucket..]), view.live, k);
    if k in Concat(view.buckets[bucket..]) && k in view.live {
      LaterIsThere(view.buckets, bucket, k);
      assert Holds(views[shard], k);
    }
  }

  ghost predicate AlwaysLive(turns: seq<Turn>, k: string) {
    forall j :: 0 <= j < |turns| ==> LiveAt(turns, j, k)
  }

  /** Live when the call of that turn comes to the key's shard. */
  predicate LiveAt(turns: seq<Turn>, j: nat, k: string)
    requires j < |turns|
  {
    LiveIn(Within(Stored(turns[..j]), turns[j], ShardIndex(k) + 1), k, turns[j].now)
  }

  ghost predicate Covers(turns: seq<Turn>, sights: seq<seq<View<string>>>, results: seq<seq<string>>)
    requires |turns| == |results|
  {
    && (forall k :: AlwaysLive(turns, k) ==>
          Times(results, k) >= 1 && (NeverRehashed(sights, ShardIndex(k)) ==> Times(results, k) == 1))
    && (forall j, k :: 0 <= j < |results| && k in results[j] ==> LiveAt(turns, j, k))
  }

  ghost predicate WatchesAt(turns: seq<Turn>, j: nat, views: seq<View<string>>, hash: string -> nat) {
    j < |turns| && Watches(views, Stored(turns[..j]), turns[j], hash)
  }

  ghost predicate AllWatched(turns: seq<Turn>, sights: seq<seq<View<string>>>, hash: string -> nat) {
    |sights| <= |turns| && forall j :: 0 <= j < |sights| ==> WatchesAt(turns, j, sights[j], hash)
  }

  lemma MoreWatched(turns: seq<Turn>, sights: seq<seq<View<string>>>, views: seq<View<string>>, hash: string -> nat)
    requires AllWatched(turns, sights, hash) && |sights| < |turns| && WatchesAt(turns, |sights|, views, hash)
    ensures AllWatched(turns, sights + [views], hash)
  {
    hide Watches, Stored;
  }

  lemma FrontWatched(turns: seq<Turn>, sights: seq<seq<View<string>>>, hash: string -> nat)
    requires AllWatched(turns, sights, hash)
    ensures AllWatched(turns[..|sights|], sights, hash)
  {
    hide Watches, Stored;
    var front := turns[..|sights|];
    forall j | 0 <= j < |sights| ensures WatchesAt(front, j, sights[j], hash) {
      assert WatchesAt(turns, j, sights[j], hash);
      assert front[..j] == turns[..j];
    }
  }

  lemma WatchedSettled(views: seq<View<string>>, m: map<string, Entry>, turn: Turn, hash: string -> nat, k: string)
    requires Watches(views, m, turn, hash) && Scannable(views)
    ensures OneShardEach(views)
    ensures LiveIn(Within(m, turn, ShardIndex(k) + 1), k, turn.now) ==> Settled(views, k, ShardIndex(k), hash)
  {
    hide ShardIndex, LiveIn, Concat, Distinct, Holds, Within;
    forall s, t, j | 0 <= s < |views| && 0 <= t < |views| && Holds(views[s], j) && Holds(views[t], j) ensures s == t {
      assert WatchesShard(views[s], m, turn, s, hash) && WatchesShard(views[t], m, turn, t, hash);
    }
    forall s | 0 <= s < |views| ensures Distinct(Concat(views[s].buckets)) {
      assert WatchesShard(views[s], m, turn, s, hash);
    }
    assert WatchesShard(views[ShardIndex(k)], m, turn, ShardIndex(k), hash);
  }

  lemma SessionMeans(turns: seq<Turn>, sights: seq<seq<View<string>>>, counts: seq<nat>, cursors: seq<nat>,
                     results: seq<seq<string>>, hash: string -> nat)
    requires Session(sights, counts, cursors, results) && sights != [] && cursors[|sights|] == 0 && Growing(sights)
    requires |turns| == |results|
    requires AllWatched(turns, sights, hash) && forall j :: 0 <= j < |sights| ==> Scannable(sights[j])
    ensures Covers(turns, sights, results)
  {
    hide ShardIndex, Stored, Within, LiveIn, Watches, Scannable, OneShardEach, Hashed, Holds, NeverRehashed, Times;
    hide Growing, ScanCall;
    forall k | AlwaysLive(turns, k)
      ensures Times(results, k) >= 1 && (NeverRehashed(sights, ShardIndex(k)) ==> Times(results, k) == 1)
    {
      forall j | 0 <= j < |sights| ensures Settled(sights[j], k, ShardIndex(k), hash) {
        assert WatchesAt(turns, j, sights[j], hash) && LiveAt(turns, j, k);
        WatchedSettled(sights[j], Stored(turns[..j]), turns[j], hash, k);
      }
      SessionCovers(sights, counts, cursors, results, k, ShardIndex(k), hash);
    }
    forall j, k | 0 <= j < |results| && k in results[j] ensures LiveAt(turns, j, k) {
      CursorValid(sights, counts, cursors, results, j);
      assert Called(sights[j], counts[j], cursors, j, results[j]);
      OnlyHeld(sights[j], cursors[j], counts[j], k);
      assert WatchesAt(turns, j, sights[j], hash);
      HeldIsLive(sights[j], Stored(turns[..j]), turns[j], hash, k);
    }
  }

  lemma HeldIsLive(views: seq<View<string>>, m: map<string, Entry>, turn: Turn, hash: string -> nat, k: string)
    requires Watches(views, m, turn, hash) && exists s :: 0 <= s < |views| && Holds(views[s], k)
    ensures LiveIn(Within(m, turn, ShardIndex(k) + 1), k, turn.now)
  {
    hide ShardIndex, Holds, LiveIn, Hashed, Within;
    var s :| 0 <= s < |views| && Holds(views[s], k);
    assert WatchesShard(views[s], m, turn, s, hash);
  }

  lemma StoredNext(turns: seq<Turn>, n: nat)
    requires n < |turns|
    ensures Stored(turns[..n + 1]) == Within(Stored(turns[..n]), turns[n], NUM_SHARDS)
  {
    hide Within;
    assert turns[..n + 1][..n] == turns[..n];
  }

  lemma MoreGrown(sights: seq<seq<View<string>>>, views: seq<View<string>>)
    requires Growing(sights) && (sights != [] ==> Grown(sights[|sights| - 1], views))
    ensures Growing(sights + [views])
  {
    hide Grown;
    var all := sights + [views];
    forall j | 0 < j < |all| ensures GrownAt(all, j) {
      if j < |sights| { assert GrownAt(sights, j); }
    }
  }

  lemma OneMoreCall(sights: seq<seq<View<string>>>, counts: seq<nat>, cursors: seq<nat>, results: seq<seq<string>>,
                    views: seq<View<string>>, count: nat)
    requires Session(sights, counts, cursors, results) && (sights != [] ==> cursors[|sights|] != 0)
    requires |views| == NUM_SHARDS
    ensures var (next, keys) := ScanCall(views, cursors[|sights|], count);
            Session(sights + [views], counts + [count], cursors + [next], results + [keys])
  {
    hide ScanCall;
    var (next, keys) := ScanCall(views, cursors[|sights|], count);
    var sights', counts', cursors', results' := sights + [views], counts + [count], cursors + [next], results + [keys];
    forall j | 0 <= j < |sights'| ensures Called(sights'[j], counts'[j], cursors', j, results'[j]) {
      if j < |sights| { assert Called(sights[j], counts[j], cursors, j, results[j]); }
    }
  }

  // ----- a call among the writes -----

  /** The walk of a call has come that far, whatever it will see of the shards to come: it is over at that
      place, or goes on from there. */
  ghost predicate Walked(seen: seq<View<string>>, start: nat, bucket: nat, wanted: nat, s: nat, at: nat,
                         keys: seq<string>, done: bool)
  {
    start < NUM_SHARDS ==>
      forall views :: |views| == NUM_SHARDS && seen <= views ==>
        WalkedOn(views, start, bucket, wanted, s, at, keys, done)
  }

  ghost predicate WalkedOn(views: seq<View<string>>, start: nat, bucket: nat, wanted: nat, s: nat, at: nat,
                           keys: seq<string>, done: bool)
  {
    && start <= |views| && s <= |views|
    && var all := Walk(views, start, bucket, wanted);
       if done then all == (s, at, keys) else Ahead(all, keys, Walk(views, s, at, wanted - |keys|))
  }

  lemma WalkStarts(start: nat, bucket: nat, wanted: nat)
    ensures Walked([], start, bucket, wanted, start, bucket, [], false)
  {
    hide Walk;
    forall views: seq<View<string>> | |views| == NUM_SHARDS && start < NUM_SHARDS
      ensures WalkedOn(views, start, bucket, wanted, start, bucket, [], false)
    {
      var all := Walk(views, start, bucket, wanted);
      assert [] + all.2 == all.2;
    }
  }

  lemma SeenMore(seen: seq<View<string>>, view: View<string>, start: nat, bucket: nat, wanted: nat, s: nat, at: nat,
                 keys: seq<string>, done: bool)
    requires Walked(seen, start, bucket, wanted, s, at, keys, done)
    ensures Walked(seen + [view], start, bucket, wanted, s, at, keys, done)
  {
    hide WalkedOn;
    forall views | |views| == NUM_SHARDS && start < NUM_SHARDS && seen + [view] <= views
      ensures WalkedOn(views, start, bucket, wanted, s, at, keys, done)
    {
      assert seen <= views;
    }
  }

  lemma EnoughFound(seen: seq<View<string>>, start: nat, bucket: nat, wanted: nat, s: nat, at: nat, keys: seq<string>)
    requires Walked(seen, start, bucket, wanted, s, at, keys, false) && (|keys| >= wanted || s == NUM_SHARDS)
    ensures Walked(seen, start, bucket, wanted, s, at, keys, true)
  {
    hide Walk;
    forall views | |views| == NUM_SHARDS && start < NUM_SHARDS && seen <= views
      ensures WalkedOn(views, start, bucket, wanted, s, at, keys, true)
    {
      assert WalkedOn(views, start, bucket, wanted, s, at, keys, false);
      WalkEnd(views, s, at, wanted - |keys|);
      assert keys + [] == keys;
    }
  }

  /** The walk comes to the shard seen last. */
  lemma ShardWalked(seen: seq<View<string>>, start: nat, bucket: nat, wanted: nat, s: nat, at: nat, keys: seq<string>)
    requires s < |seen| && Walked(seen, start, bucket, wanted, s, at, keys, false) && |keys| < wanted
    ensures var (next, scanned) := ScanBuckets(seen[s].buckets, at, wanted - |keys|);
            var found := Filter(scanned, seen[s].live);
            if next == 0 then Walked(seen, start, bucket, wanted, s + 1, 0, keys + found, false)
            else Walked(seen, start, bucket, wanted, s, next, keys + found, true)
  {
    hide Walk, ScanBuckets, Filter;
    var (next, scanned) := ScanBuckets(seen[s].buckets, at, wanted - |keys|);
    var found := Filter(scanned, seen[s].live);
    forall views | |views| == NUM_SHARDS && start < NUM_SHARDS && seen <= views
      ensures if next == 0 then WalkedOn(views, start, bucket, wanted, s + 1, 0, keys + found, false)
              else WalkedOn(views, start, bucket, wanted, s, next, keys + found, true)
    {
      assert WalkedOn(views, start, bucket, wanted, s, at, keys, false) && views[s] == seen[s];
      WalkOne(views, s, at, wanted, keys, Walk(views, start, bucket, wanted));
    }
  }

  /** The tables have grown from what those views saw of them. */
  ghost predicate Since(views: seq<View<string>>, tables: seq<Table>)
    reads tables
  {
    && |views| <= |tables|
    && forall i :: 0 <= i < |views| ==> Multiplied(|views[i].buckets|, tables[i].buckets.Length)
  }

  /** The writes before the call comes to the next shard, and what it sees there. */
  method NextShard(tables: seq<Table>, turn: Turn, i: nat, ghost m: map<string, Entry>, ghost hash: string -> nat,
                   ghost last: seq<View<string>>, ghost views: seq<View<string>>)
    returns (ghost view: View<string>)
    requires Hold(tables, Within(m, turn, i), hash) && Apart(tables) && i == |views| < NUM_SHARDS
    requires Since(last, tables) && Since(views, tables)
    modifies set i | 0 <= i < |tables| :: tables[i]
    modifies set i | 0 <= i < |tables| :: tables[i].buckets
    modifies set i, n | 0 <= i < |tables| && n in tables[i].Repr :: n
    ensures Hold(tables, Within(m, turn, i + 1), hash) && Apart(tables)
    ensures forall i :: 0 <= i < |tables| ==> fresh(tables[i].Repr - old(tables[i].Repr))
    ensures forall i :: 0 <= i < |tables| ==> tables[i].buckets == old(tables[i].buckets) || fresh(tables[i].buckets)
    ensures Since(last, tables) && Since(views + [view], tables)
    ensures SeesOne(tables[i], view, turn.now) && WatchesShard(view, m, turn, i, hash)
    ensures i < |last| ==> Multiplied(|last[i].buckets|, |view.buckets|)
  {
    hide ShardIndex, Hold, Multiplied, Apart, AfterWrites, SeesOne, WatchesShard, Sizes;
    ghost var sizes := Sizes(tables);
    WriteAll(tables, Gap(turn, i), Within(m, turn, i), hash);
    SinceStill(last, sizes, tables);
    SinceStill(views, sizes, tables);
    view := SeenNow(tables, turn, i, m, hash, last, views);
  }

  /** The tables were of these sizes when they had grown from the views, and have grown since. */
  lemma SinceStill(views: seq<View<string>>, sizes: seq<nat>, tables: seq<Table>)
    requires |views| <= |sizes| == |tables|
    requires forall i :: 0 <= i < |views| ==> Multiplied(|views[i].buckets|, sizes[i])
    requires forall i :: 0 <= i < |tables| ==> Multiplied(sizes[i], tables[i].buckets.Length)
    ensures Since(views, tables)
  {
    hide Multiplied;
    forall j | 0 <= j < |views| ensures Multiplied(|views[j].buckets|, tables[j].buckets.Length) {
      MultipliedTwice(|views[j].buckets|, sizes[j], tables[j].buckets.Length);
    }
  }

  ghost function Sizes(tables: seq<Table>): (sizes: seq<nat>)
    reads tables
    ensures |sizes| == |tables| && forall i :: 0 <= i < |tables| ==> sizes[i] == tables[i].buckets.Length
  {
    if tables == [] then [] else Sizes(tables[..|tables| - 1]) + [tables[|tables| - 1].buckets.Length]
  }

  lemma SeenNow(tables: seq<Table>, turn: Turn, i: nat, m: map<string, Entry>, hash: string -> nat,
                last: seq<View<string>>, views: seq<View<string>>)
    returns (view: View<string>)
    requires Hold(tables, Within(m, turn, i + 1), hash) && i == |views| < NUM_SHARDS
    requires Since(last, tables) && Since(views, tables)
    ensures SeesOne(tables[i], view, turn.now) && WatchesShard(view, m, turn, i, hash)
    ensures Since(views + [view], tables) && (i < |last| ==> Multiplied(|last[i].buckets|, |view.buckets|))
  {
    hide ShardIndex, HoldsPart, Multiplied, Within, SeesOne, Hashed, Holds, LiveIn, ViewOf;
    var here := Within(m, turn, i + 1);
    assert HoldsPart(tables[i], here, i, hash);
    Usable(tables[i], here, i, hash);
    NotEmpty(tables[i], here, i, hash);
    ViewWatches(tables[i], here, i, turn.now, hash);
    view := ViewOf(tables[i], turn.now);
  }

  /** What a call has seen so far, and that it has grown from what the last one saw. */
  ghost predicate Saw(views: seq<View<string>>, m: map<string, Entry>, turn: Turn, last: seq<View<string>>,
                      hash: string -> nat)
  {
    && (forall j :: 0 <= j < |views| ==> WatchesShard(views[j], m, turn, j, hash))
    && (forall j :: 0 <= j < |views| && j < |last| ==> Multiplied(|last[j].buckets|, |views[j].buckets|))
  }

  lemma SawMore(views: seq<View<string>>, view: View<string>, m: map<string, Entry>, turn: Turn,
                last: seq<View<string>>, hash: string -> nat)
    requires Saw(views, m, turn, last, hash) && WatchesShard(view, m, turn, |views|, hash)
    requires |views| < |last| ==> Multiplied(|last[|views|].buckets|, |view.buckets|)
    ensures Saw(views + [view], m, turn, last, hash)
  {
    hide WatchesShard, Multiplied;
  }

  lemma SawAll(views: seq<View<string>>, m: map<string, Entry>, turn: Turn, last: seq<View<string>>,
               hash: string -> nat)
    requires Saw(views, m, turn, last, hash) && |views| == NUM_SHARDS
    ensures Watches(views, m, turn, hash) && (|last| == NUM_SHARDS ==> Grown(last, views))
  {
    hide WatchesShard, Multiplied;
  }

  /** The call is at the shard it has come to. */
  method Visit(table: Table, ghost views: seq<View<string>>, start: nat, bucket: nat, wanted: nat, s: nat, at: nat,
               keys: seq<string>, now: nat)
    returns (s': nat, at': nat, keys': seq<string>, done: bool)
    requires s < |views| && SeesOne(table, views[s], now)
    requires Walked(views, start, bucket, wanted, s, at, keys, false)
    ensures Walked(views, start, bucket, wanted, s', at', keys', done)
    ensures !done ==> s' == s + 1
  {
    hide Walked, ScanBuckets, Filter, SeesOne;
    if |keys| >= wanted {
      EnoughFound(views, start, bucket, wanted, s, at, keys);
      return s, at, keys, true;
    }
    var nextBucket, found := ScanShard(table, views[s], at, wanted - |keys|, now);
    ShardWalked(views, start, bucket, wanted, s, at, keys);
    if nextBucket == 0 {
      return s + 1, 0, keys + found, false;
    } else {
      return s, nextBucket, keys + found, true;
    }
  }

  /** The writes before the call comes to the next shard, and the call there if it is not over. */
  method Round(tables: seq<Table>, turn: Turn, i: nat, ghost m: map<string, Entry>, ghost hash: string -> nat,
               ghost last: seq<View<string>>, ghost views: seq<View<string>>, start: nat, bucket: nat, wanted: nat,
               s: nat, at: nat, keys: seq<string>, done: bool)
    returns (ghost view: View<string>, s': nat, at': nat, keys': seq<string>, done': bool)
    requires Hold(tables, Within(m, turn, i), hash) && Apart(tables) && i == |views| < NUM_SHARDS
    requires Since(last, tables) && Since(views, tables) && Saw(views, m, turn, last, hash)
    requires Walked(views, start, bucket, wanted, s, at, keys, done) && (!done ==> s == if i <= start then start else i)
    modifies set i | 0 <= i < |tables| :: tables[i]
    modifies set i | 0 <= i < |tables| :: tables[i].buckets
    modifies set i, n | 0 <= i < |tables| && n in tables[i].Repr :: n
    ensures Hold(tables, Within(m, turn, i + 1), hash) && Apart(tables)
    ensures forall i :: 0 <= i < |tables| ==> fresh(tables[i].Repr - old(tables[i].Repr))
    ensures forall i :: 0 <= i < |tables| ==> tables[i].buckets == old(tables[i].buckets) || fresh(tables[i].buckets)
    ensures Since(last, tables) && Since(views + [view], tables) && Saw(views + [view], m, turn, last, hash)
    ensures Walked(views + [view], start, bucket, wanted, s', at', keys', done')
    ensures !done' ==> s' == if i + 1 <= start then start else i + 1
    ensures start >= NUM_SHARDS ==> keys' == keys
  {
    assert |tables| == NUM_SHARDS;
    hide ShardIndex, Hold, Multiplied, Apart, Within, WatchesShard, SeesOne, Since, Walked, Saw;
    view := NextShard(tables, turn, i, m, hash, last, views);
    SawMore(views, view, m, turn, last, hash);
    SeenMore(views, view, start, bucket, wanted, s, at, keys, done);
    s', at', keys', done' := s, at, keys, done;
    if !done && i == s {
      s', at', keys', done' := Visit(tables[i], views + [view], start, bucket, wanted, s, at, keys, turn.now);
    }
  }

  /** The call of a turn among its writes: it returns what the scan of the shards returns, each as it was
      when the call came to it. */
  method OneTurn(tables: seq<Table>, turn: Turn, ghost m: map<string, Entry>, ghost hash: string -> nat, cursor: nat,
                 ghost last: seq<View<string>>)
    returns (next: nat, keys: seq<string>, ghost views: seq<View<string>>)
    requires Hold(tables, m, hash) && Apart(tables) && Since(last, tables)
    modifies set i | 0 <= i < |tables| :: tables[i]
    modifies set i | 0 <= i < |tables| :: tables[i].buckets
    modifies set i, n | 0 <= i < |tables| && n in tables[i].Repr :: n
    ensures Hold(tables, Within(m, turn, NUM_SHARDS), hash) && Apart(tables) && Since(views, tables)
    ensures forall i :: 0 <= i < |tables| ==> fresh(tables[i].Repr - old(tables[i].Repr))
    ensures forall i :: 0 <= i < |tables| ==> tables[i].buckets == old(tables[i].buckets) || fresh(tables[i].buckets)
    ensures Watches(views, m, turn, hash) && |views| == NUM_SHARDS
    ensures |last| == NUM_SHARDS ==> Grown(last, views)
    ensures (next, keys) == ScanCall(views, cursor, turn.count)
  {
    hide Hold, Apart, Within, Since, Walked, Saw, Watches, Grown, ShardOf, BucketOf, CursorAt, Walk;
    var wanted: nat := if turn.count == 0 then 10 else turn.count;
    var start, bucket := ShardOf(cursor), BucketOf(cursor);
    var s: nat, at: nat, done := start, bucket, false;
    keys, views := [], [];
    NothingSeen(tables, m, turn, last, hash);
    WalkStarts(start, bucket, wanted);
    for i := 0 to NUM_SHARDS
      invariant |views| == i && Hold(tables, Within(m, turn, i), hash) && Apart(tables)
      invariant Since(last, tables) && Since(views, tables) && Saw(views, m, turn, last, hash)
      invariant forall j :: 0 <= j < |tables| ==> fresh(tables[j].Repr - old(tables[j].Repr))
      invariant forall j :: 0 <= j < |tables| ==>
                  tables[j].buckets == old(tables[j].buckets) || fresh(tables[j].buckets)
      invariant Walked(views, start, bucket, wanted, s, at, keys, done)
      invariant !done ==> s == if i <= start then start else i
      invariant start >= NUM_SHARDS ==> keys == []
    {
      ghost var view;
      view, s, at, keys, done := Round(tables, turn, i, m, hash, last, views, start, bucket, wanted, s, at, keys, done);
      views := views + [view];
    }
    SawAll(views, m, turn, last, hash);
    CallOver(views, cursor, turn.count, s, at, keys, done);
    next := if start < NUM_SHARDS && s < NUM_SHARDS then CursorAt(s, at) else 0;
  }

  lemma CallOver(views: seq<View<string>>, cursor: nat, count: nat, s: nat, at: nat, keys: seq<string>, done: bool)
    requires |views| == NUM_SHARDS
    requires Walked(views, ShardOf(cursor), BucketOf(cursor), if count == 0 then 10 else count, s, at, keys, done)
    requires ShardOf(cursor) < NUM_SHARDS && !done ==> s == NUM_SHARDS
    requires ShardOf(cursor) >= NUM_SHARDS ==> keys == []
    ensures ScanCall(views, cursor, count)
            == (if ShardOf(cursor) < NUM_SHARDS && s < NUM_SHARDS then CursorAt(s, at) else 0, keys)
  {
    hide Walked, Walk, ShardOf, BucketOf, CursorAt;
    var start, bucket, wanted := ShardOf(cursor), BucketOf(cursor), if count == 0 then 10 else count;
    if start < NUM_SHARDS {
      if !done { EnoughFound(views, start, bucket, wanted, s, at, keys); }
      WalkOver(views, start, bucket, wanted, s, at, keys);
    }
  }

  lemma NothingSeen(tables: seq<Table>, m: map<string, Entry>, turn: Turn, last: seq<View<string>>,
                    hash: string -> nat)
    ensures Since([], tables) && Within(m, turn, 0) == m && Saw([], m, turn, last, hash)
  {
  }

  lemma WalkOver(views: seq<View<string>>, start: nat, bucket: nat, wanted: nat, s: nat, at: nat, keys: seq<string>)
    requires |views| == NUM_SHARDS && start < NUM_SHARDS && Walked(views, start, bucket, wanted, s, at, keys, true)
    ensures Walk(views, start, bucket, wanted) == (s, at, keys)
  {
    hide Walk;
    assert WalkedOn(views, start, bucket, wanted, s, at, keys, true);
  }

  /** A client scans a new store by following cursors, with any writes before each call comes to each of
      the shards. What the calls return makes a session, which goes on until 0 comes back or the turns
      are over. If it has come to its end and no table outgrew the lower half of a cursor: whatever
      was live whenever a call came to its shard has been returned at least once, exactly once if
      its table was not rehashed meanwhile, and nothing was returned that was not live when it was. */
  method ScanDuringWrites(hash: string -> nat, capacity: nat, turns: seq<Turn>)
    returns (ended: bool, results: seq<seq<string>>, ghost sights: seq<seq<View<string>>>, ghost cursors: seq<nat>)
    ensures |sights| == |results| <= |turns| && |cursors| == |results| + 1
    ensures Session(sights, CountsOf(turns[..|results|]), cursors, results)
    ensures Growing(sights) && AllWatched(turns, sights, hash)
    ensures ended <==> results != [] && cursors[|results|] == 0
    ensures ended || |results| == |turns|
    ensures ended && (forall j :: 0 <= j < |sights| ==> Scannable(sights[j])) ==>
              Covers(turns[..|results|], sights, results)
  {
    hide ShardIndex, Hold, Apart, ScanCall, Stored, Watches, Scannable, Covers, Grown, Growing, AllWatched;
    hide Within, Since, Going, Session, CountsOf;
    var tables := NewTables(hash, capacity);
    var cursor := 0;
    ended, results, sights, cursors := false, [], [], [0];
    NoCalls(turns, hash);
    NothingSince(tables);
    while |results| < |turns| && !ended
      invariant |sights| == |results| <= |turns| && |cursors| == |results| + 1
      invariant cursor == cursors[|results|]
      invariant Hold(tables, Stored(turns[..|results|]), hash) && Apart(tables)
      invariant forall i :: 0 <= i < |tables| ==> fresh(tables[i]) && fresh(tables[i].buckets) && fresh(tables[i].Repr)
      invariant Since(if sights == [] then [] else sights[|sights| - 1], tables)
      invariant sights != [] ==> |sights[|sights| - 1]| == NUM_SHARDS
      invariant Going(turns, sights, cursors, results, hash) && (ended <==> results != [] && cursor == 0)
      decreases |turns| - |results|
    {
      var turn := turns[|results|];
      ghost var m := Stored(turns[..|results|]);
      var next, keys;
      ghost var views;
      ghost var last := if sights == [] then [] else sights[|sights| - 1];
      next, keys, views := OneTurn(tables, turn, m, hash, cursor, last);
      GoesOn(turns, sights, cursors, results, hash, views);
      results, sights, cursors := results + [keys], sights + [views], cursors + [next];
      cursor, ended := next, next == 0;
    }
    WhatItMeans(turns, sights, cursors, results, hash);
  }

  lemma NothingSince(tables: seq<Table>)
    ensures Since([], tables)
  {
  }

  function CountsOf(turns: seq<Turn>): seq<nat> {
    seq(|turns|, j requires 0 <= j < |turns| => turns[j].count)
  }

  /** A scan in progress over these turns. */
  ghost predicate Going(turns: seq<Turn>, sights: seq<seq<View<string>>>, cursors: seq<nat>, results: seq<seq<string>>,
                        hash: string -> nat)
  {
    && |results| <= |turns| && Session(sights, CountsOf(turns[..|results|]), cursors, results)
    && Growing(sights) && AllWatched(turns, sights, hash)
  }

  lemma GoesOn(turns: seq<Turn>, sights: seq<seq<View<string>>>, cursors: seq<nat>, results: seq<seq<string>>,
               hash: string -> nat, views: seq<View<string>>)
    requires Going(turns, sights, cursors, results, hash) && |sights| == |results| < |turns|
    requires |cursors| == |sights| + 1 && |views| == NUM_SHARDS
    requires sights != [] ==> cursors[|sights|] != 0 && Grown(sights[|sights| - 1], views)
    requires Watches(views, Stored(turns[..|sights|]), turns[|sights|], hash)
    ensures Stored(turns[..|sights| + 1]) == Within(Stored(turns[..|sights|]), turns[|sights|], NUM_SHARDS)
    ensures var (next, keys) := ScanCall(views, cursors[|sights|], turns[|sights|].count);
            Going(turns, sights + [views], cursors + [next], results + [keys], hash)
  {
    hide Session, Growing, AllWatched, ScanCall, Stored, Within, Watches, Grown;
    var n := |sights|;
    StoredNext(turns, n);
    MoreWatched(turns, sights, views, hash);
    MoreGrown(sights, views);
    assert CountsOf(turns[..n]) + [turns[n].count] == CountsOf(turns[..n + 1]);
    OneMoreCall(sights, CountsOf(turns[..n]), cursors, results, views, turns[n].count);
  }

  lemma WhatItMeans(turns: seq<Turn>, sights: seq<seq<View<string>>>, cursors: seq<nat>, results: seq<seq<string>>,
                    hash: string -> nat)
    requires Going(turns, sights, cursors, results, hash)
    ensures |sights| == |results| <= |turns| && |cursors| == |results| + 1
    ensures Session(sights, CountsOf(turns[..|results|]), cursors, results)
    ensures Growing(sights) && AllWatched(turns, sights, hash)
    ensures results != [] && cursors[|results|] == 0 && (forall j :: 0 <= j < |sights| ==> Scannable(sights[j])) ==>
              Covers(turns[..|results|], sights, results)
  {
    hide Growing, WatchesAt, Scannable, Covers, ScanCall, CountsOf;
    if results != [] && cursors[|results|] == 0 && forall j :: 0 <= j < |sights| ==> Scannable(sights[j]) {
      FrontWatched(turns, sights, hash);
      SessionMeans(turns[..|results|], sights, CountsOf(turns[..|results|]), cursors, results, hash);
    }
  }

  lemma NoCalls(turns: seq<Turn>, hash: string -> nat)
    ensures Going(turns, [], [0], [], hash) && Stored(turns[..0]) == map[]
  {
  }
}
