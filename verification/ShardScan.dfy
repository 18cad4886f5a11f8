/** The cursor scan over all shards: the upper half of a cursor is the shard, the lower 32 bits
    the bucket inside it. Following cursors from 0 visits every live key exactly once. */
module ShardScan {
  import opened HashTables
  import opened Records
  import opened Sequences
  import KV = KeyValue

  const SPAN := 0x1_0000_0000

  /** What a scan sees of one shard: the keys of each bucket, and which keys are live. */
  datatype View<!K> = View(buckets: seq<seq<K>>, live: set<K>)

  function ShardOf(cursor: nat): nat { cursor / SPAN }

  function BucketOf(cursor: nat): (b: nat)
    ensures b < SPAN
  {
    cursor % SPAN
  }

  function CursorAt(shard: nat, bucket: nat): nat { shard * SPAN + bucket % SPAN }

  ghost predicate Scannable<K>(views: seq<View<K>>) {
    |views| == NUM_SHARDS && forall s :: 0 <= s < |views| ==> 0 < |views[s].buckets| < SPAN
  }

  function Filter<K(==)>(keys: seq<K>, live: set<K>): seq<K> {
    if keys == [] then []
    else (if keys[0] in live then [keys[0]] else []) + Filter(keys[1..], live)
  }

  /** The shard loop of one scan call; count is what is still wanted. */
  function Walk<K(==)>(views: seq<View<K>>, shard: nat, bucket: nat, count: int): (r: (nat, nat, seq<K>))
    requires shard <= |views|
    ensures shard <= r.0 <= |views|
    decreases |views| - shard
  {
    if shard == |views| || count <= 0 then (shard, bucket, [])
    else
      var (next, keys) := ScanBuckets(views[shard].buckets, bucket, count);
      var found := Filter(keys, views[shard].live);
      if next == 0 then
        var (s, b, more) := Walk(views, shard + 1, 0, count - |found|);
        (s, b, found + more)
      else (shard, next, found)
  }

  function ScanCall<K(==)>(views: seq<View<K>>, cursor: nat, count: nat): (nat, seq<K>)
    requires |views| == NUM_SHARDS
  {
    if ShardOf(cursor) >= NUM_SHARDS then (0, [])
    else
      var (s, b, keys) := Walk(views, ShardOf(cursor), BucketOf(cursor), if count == 0 then 10 else count);
      (if s < NUM_SHARDS then CursorAt(s, b) else 0, keys)
  }

  // ----- what is left to visit -----

  function Rest<K(==)>(views: seq<View<K>>, shard: nat, bucket: nat): seq<K>
    requires shard <= |views|
    decreases |views| - shard
  {
    if shard == |views| then []
    else
      var buckets := views[shard].buckets;
      Filter(Concat(if bucket <= |buckets| then buckets[bucket..] else []), views[shard].live)
        + Rest(views, shard + 1, 0)
  }

  ghost predicate At<K>(views: seq<View<K>>, shard: nat, bucket: nat) {
    shard < |views| && bucket < |views[shard].buckets|
  }

  lemma {:induction false} FilterConcat<K>(a: seq<K>, b: seq<K>, live: set<K>)
    ensures Filter(a + b, live) == Filter(a, live) + Filter(b, live)
  {
    if a == [] {
      assert a + b == b;
    } else {
      FilterConcat(a[1..], b, live);
      assert (a + b)[0] == a[0] && (a + b)[1..] == a[1..] + b;
      Regroup(if a[0] in live then [a[0]] else [], Filter(a[1..], live), Filter(b, live));
    }
  }

  lemma {:induction false} ScanFromKeepsRest<K>(buckets: seq<seq<K>>, i: nat, count: int)
    requires i <= |buckets|
    ensures var (next, keys) := ScanFrom(buckets, i, count); Concat(buckets[i..]) == keys + Concat(buckets[next..])
    decreases |buckets| - i
  {
    if i < |buckets| && count > 0 {
      ScanFromKeepsRest(buckets, i + 1, count - |buckets[i]|);
      assert buckets[i..] == [buckets[i]] + buckets[i + 1..];
    }
  }

  lemma ShardStep<K>(view: View<K>, bucket: nat, count: int)
    requires bucket < |view.buckets| && count > 0
    ensures var (next, keys) := ScanBuckets(view.buckets, bucket, count);
            var rest := if next == 0 then [] else Filter(Concat(view.buckets[next..]), view.live);
            && (next == 0 || bucket < next < |view.buckets|)
            && Filter(Concat(view.buckets[bucket..]), view.live) == Filter(keys, view.live) + rest
  {
    var (end, keys) := ScanFrom(view.buckets, bucket, count);
    ScanFromKeepsRest(view.buckets, bucket, count);
    FilterConcat(keys, Concat(view.buckets[end..]), view.live);
    if end == |view.buckets| { assert view.buckets[end..] == []; }
  }

  lemma WalkEnd<K>(views: seq<View<K>>, shard: nat, bucket: nat, count: int)
    requires shard <= |views| && (shard == |views| || count <= 0)
    ensures Walk(views, shard, bucket, count) == (shard, bucket, [])
  {
  }

  lemma WalkUnfolds<K>(views: seq<View<K>>, shard: nat, bucket: nat, count: int)
    requires shard < |views| && count > 0
    ensures var (next, keys) := ScanBuckets(views[shard].buckets, bucket, count);
            var found := Filter(keys, views[shard].live);
            if next == 0 then
              var (s, b, more) := Walk(views, shard + 1, 0, count - |found|);
              Walk(views, shard, bucket, count) == (s, b, found + more)
            else Walk(views, shard, bucket, count) == (shard, next, found)
  {
    hide ScanBuckets, Filter;
  }

  lemma RestUnfolds<K>(views: seq<View<K>>, shard: nat, bucket: nat)
    requires shard < |views| && bucket <= |views[shard].buckets|
    ensures Rest(views, shard, bucket)
            == Filter(Concat(views[shard].buckets[bucket..]), views[shard].live) + Rest(views, shard + 1, 0)
  {
    hide Filter, Concat;
  }

  /** A call returns a prefix of what is left and moves strictly forward. */
  lemma {:induction false} WalkKeepsRest<K>(views: seq<View<K>>, shard: nat, bucket: nat, count: int)
    requires Scannable(views) && At(views, shard, bucket) && count > 0
    ensures var (s, b, keys) := Walk(views, shard, bucket, count);
            && (s == |views| || (At(views, s, b) && (s > shard || b > bucket)))
            && Rest(views, shard, bucket) == keys + Rest(views, s, b)
    decreases |views| - shard
  {
    hide ScanBuckets, Filter, Concat, Walk, Rest;
    ShardStep(views[shard], bucket, count);
    WalkUnfolds(views, shard, bucket, count);
    RestUnfolds(views, shard, bucket);
    var (next, keys) := ScanBuckets(views[shard].buckets, bucket, count);
    var found, later := Filter(keys, views[shard].live), Rest(views, shard + 1, 0);
    if next == 0 {
      assert Rest(views, shard, bucket) == found + later by { assert found + [] == found; }
      if shard + 1 < |views| && count - |found| > 0 {
        WalkKeepsRest(views, shard + 1, 0, count - |found|);
        var (s, b, more) := Walk(views, shard + 1, 0, count - |found|);
        Regroup(found, more, Rest(views, s, b));
      } else {
        WalkEnd(views, shard + 1, 0, count - |found|);
        assert found + [] == found;
      }
    } else {
      RestUnfolds(views, shard, next);
      Regroup(found, Filter(Concat(views[shard].buckets[next..]), views[shard].live), later);
    }
  }

  ghost predicate ValidCursor<K>(views: seq<View<K>>, cursor: nat) {
    ShardOf(cursor) < |views| && At(views, ShardOf(cursor), BucketOf(cursor))
  }

  function RestAt<K(==)>(views: seq<View<K>>, cursor: nat): seq<K>
    requires ShardOf(cursor) < |views|
  {
    Rest(views, ShardOf(cursor), BucketOf(cursor))
  }

  lemma CursorParts(s: nat, b: nat)
    requires b < SPAN
    ensures ShardOf(CursorAt(s, b)) == s && BucketOf(CursorAt(s, b)) == b
  {
  }

  lemma CursorOrder(c: nat, d: nat)
    requires ShardOf(c) < ShardOf(d) || (ShardOf(c) == ShardOf(d) && BucketOf(c) < BucketOf(d))
    ensures c < d
  {
  }

  /** One call from a valid cursor: 0 comes back only when nothing is left, otherwise a later valid
      cursor with exactly the rest still to visit. */
  lemma ScanCallStep<K>(views: seq<View<K>>, cursor: nat, count: nat)
    requires Scannable(views) && ValidCursor(views, cursor)
    ensures var (next, keys) := ScanCall(views, cursor, count);
            if next == 0 then keys == RestAt(views, cursor)
            else cursor < next && ValidCursor(views, next) && RestAt(views, cursor) == keys + RestAt(views, next)
  {
    hide ShardOf, BucketOf, CursorAt, Walk;
    var wanted := if count == 0 then 10 else count;
    var (s, b, keys) := Walk(views, ShardOf(cursor), BucketOf(cursor), wanted);
    WalkKeepsRest(views, ShardOf(cursor), BucketOf(cursor), wanted);
    if s < |views| {
      CursorParts(s, b);
      CursorOrder(cursor, CursorAt(s, b));
    } else {
      assert keys + [] == keys;
    }
  }

  /** Everything a client gets by following cursors until 0; each call may ask for another count. */
  function Follow<K(==)>(views: seq<View<K>>, cursor: nat, counts: nat -> nat, call: nat): (all: seq<K>)
    requires Scannable(views) && ValidCursor(views, cursor)
    decreases NUM_SHARDS * SPAN - cursor
  {
    ScanCallStep(views, cursor, counts(call));
    var (next, keys) := ScanCall(views, cursor, counts(call));
    if next == 0 then keys else keys + Follow(views, next, counts, call + 1)
  }

  lemma {:induction false} FollowIsRest<K>(views: seq<View<K>>, cursor: nat, counts: nat -> nat, call: nat)
    requires Scannable(views) && ValidCursor(views, cursor)
    ensures Follow(views, cursor, counts, call) == RestAt(views, cursor)
    decreases NUM_SHARDS * SPAN - cursor
  {
    ScanCallStep(views, cursor, counts(call));
    var (next, keys) := ScanCall(views, cursor, counts(call));
    if next != 0 { FollowIsRest(views, next, counts, call + 1); }
  }

  // ----- every live key exactly once -----

  lemma {:induction false} InFilter<K>(keys: seq<K>, live: set<K>, k: K)
    ensures k in Filter(keys, live) <==> k in keys && k in live
  {
    if keys != [] { InFilter(keys[1..], live, k); }
  }

  lemma {:induction false} FilterDistinct<K>(keys: seq<K>, live: set<K>)
    requires Distinct(keys)
    ensures Distinct(Filter(keys, live))
  {
    if keys != [] {
      FilterDistinct(keys[1..], live);
      InFilter(keys[1..], live, keys[0]);
    }
  }

  ghost predicate Holds<K>(view: View<K>, k: K) {
    k in Concat(view.buckets) && k in view.live
  }

  lemma HoldsHere<K>(view: View<K>, k: K)
    ensures k in Filter(Concat(view.buckets), view.live) <==> Holds(view, k)
  {
    InFilter(Concat(view.buckets), view.live, k);
  }

  lemma {:induction false} RestHolds<K>(views: seq<View<K>>, shard: nat, k: K)
    requires shard <= |views|
    ensures k in Rest(views, shard, 0) <==> exists s :: shard <= s < |views| && Holds(views[s], k)
    decreases |views| - shard
  {
    if shard < |views| {
      hide Rest, Filter, Concat, Holds;
      RestHolds(views, shard + 1, k);
      RestSplits(views, shard);
      HoldsHere(views[shard], k);
      var later := Rest(views, shard + 1, 0);
      if k in later {
        var s :| shard + 1 <= s < |views| && Holds(views[s], k);
      }
      if s :| shard <= s < |views| && Holds(views[s], k) {
        assert s == shard || k in later;
      }
    }
  }

  ghost predicate OneShardEach<K(!new)>(views: seq<View<K>>) {
    && (forall s :: 0 <= s < |views| ==> Distinct(Concat(views[s].buckets)))
    && (forall s, t, k :: 0 <= s < |views| && 0 <= t < |views| && Holds(views[s], k) && Holds(views[t], k) ==> s == t)
  }

  lemma {:induction false} RestDistinct<K(!new)>(views: seq<View<K>>, shard: nat)
    requires shard <= |views| && OneShardEach(views)
    ensures Distinct(Rest(views, shard, 0))
    decreases |views| - shard
  {
    if shard < |views| {
      hide Rest, Filter, Concat, Distinct, OneShardEach, Holds;
      RestDistinct(views, shard + 1);
      RestSplits(views, shard);
      KeysOnce(views, shard);
      var keys, live := Concat(views[shard].buckets), views[shard].live;
      var here, later := Filter(keys, live), Rest(views, shard + 1, 0);
      FilterDistinct(keys, live);
      forall k | k in later ensures k !in here {
        HoldsHere(views[shard], k);
        NotHere(views, shard, k);
      }
      AppendDistinct(here, later);
    }
  }

  lemma KeysOnce<K(!new)>(views: seq<View<K>>, shard: nat)
    requires shard < |views| && OneShardEach(views)
    ensures Distinct(Concat(views[shard].buckets))
  {
  }

  lemma NotHere<K(!new)>(views: seq<View<K>>, shard: nat, k: K)
    requires shard < |views| && OneShardEach(views) && k in Rest(views, shard + 1, 0)
    ensures !Holds(views[shard], k)
  {
    hide Rest, Concat, Distinct;
    RestHolds(views, shard + 1, k);
    var s :| shard + 1 <= s < |views| && Holds(views[s], k);
    assert Holds(views[shard], k) ==> s == shard;
  }

  lemma RestSplits<K>(views: seq<View<K>>, shard: nat)
    requires shard < |views|
    ensures Rest(views, shard, 0) == Filter(Concat(views[shard].buckets), views[shard].live) + Rest(views, shard + 1, 0)
  {
    hide Rest;
    RestUnfolds(views, shard, 0);
    assert views[shard].buckets[0..] == views[shard].buckets;
  }

  /** With no writes, following cursors from 0 ends and yields every live key of every shard once
      and nothing else, whatever counts the calls ask for. */
  lemma ScanCoverage<K(!new)>(views: seq<View<K>>, counts: nat -> nat)
    requires Scannable(views) && OneShardEach(views)
    ensures ValidCursor(views, 0)
    ensures Distinct(Follow(views, 0, counts, 0))
    ensures forall k :: k in Follow(views, 0, counts, 0) <==> exists s :: 0 <= s < |views| && Holds(views[s], k)
  {
    assert ShardOf(0) == 0 && BucketOf(0) == 0;
    FollowIsRest(views, 0, counts, 0);
    RestDistinct(views, 0);
    forall k ensures k in Rest(views, 0, 0) <==> exists s :: 0 <= s < |views| && Holds(views[s], k) {
      RestHolds(views, 0, k);
    }
  }

  // ----- on the store's tables -----

  /** The views are what the tables of the shards hold at the given time. */
  ghost predicate Sees(shards: seq<HashTable<string, Entry>>, views: seq<View<string>>, now: nat)
    reads *
  {
    |views| == |shards| && forall i :: 0 <= i < |shards| ==> SeesOne(shards[i], views[i], now)
  }

  ghost predicate SeesOne(table: HashTable<string, Entry>, view: View<string>, now: nat)
    reads *
  {
    table.Valid() && view == View(table.Buckets(), KV.Live(table.Contents(), now).Keys)
  }

  /** A walk in progress: these keys so far, the rest still to come. */
  ghost predicate Ahead<K>(all: (nat, nat, seq<K>), keys: seq<K>, rest: (nat, nat, seq<K>)) {
    all == (rest.0, rest.1, keys + rest.2)
  }

  lemma WalkOne<K>(views: seq<View<K>>, shard: nat, bucket: nat, wanted: nat, keys: seq<K>, all: (nat, nat, seq<K>))
    requires shard < |views| && |keys| < wanted && Ahead(all, keys, Walk(views, shard, bucket, wanted - |keys|))
    ensures var (next, scanned) := ScanBuckets(views[shard].buckets, bucket, wanted - |keys|);
            var found := Filter(scanned, views[shard].live);
            if next == 0 then Ahead(all, keys + found, Walk(views, shard + 1, 0, wanted - |keys + found|))
            else all == (shard, next, keys + found)
  {
    hide ScanBuckets, Filter, Walk;
    WalkUnfolds(views, shard, bucket, wanted - |keys|);
    var found := Filter(ScanBuckets(views[shard].buckets, bucket, wanted - |keys|).1, views[shard].live);
    Regroup(keys, found, Walk(views, shard + 1, 0, wanted - |keys + found|).2);
  }

  /** The scan of the source: scan a table, look every key up again, keep the unexpired ones. */
  method Scan(shards: seq<HashTable<string, Entry>>, ghost views: seq<View<string>>, cursor: nat, count: nat, now: nat)
    returns (next: nat, keys: seq<string>)
    requires |shards| == NUM_SHARDS && Sees(shards, views, now)
    ensures (next, keys) == ScanCall(views, cursor, count)
  {
    hide ScanBuckets, Filter, SeesOne, ShardOf, BucketOf, CursorAt, Walk;
    var wanted: int := if count == 0 then 10 else count;
    var shard, bucket := ShardOf(cursor), BucketOf(cursor);
    keys := [];
    if shard >= NUM_SHARDS { return 0, keys; }
    ghost var all := Walk(views, shard, bucket, wanted);
    assert [] + all.2 == all.2;
    var done := false;
    while shard < NUM_SHARDS && |keys| < wanted && !done
      invariant 0 <= shard <= NUM_SHARDS && 0 <= bucket
      invariant done ==> shard < NUM_SHARDS && all == (shard, bucket, keys)
      invariant !done ==> Ahead(all, keys, Walk(views, shard, bucket, wanted - |keys|))
      decreases NUM_SHARDS - shard, !done
    {
      var nextBucket, found := ScanShard(shards[shard], views[shard], bucket, wanted - |keys|, now);
      WalkOne(views, shard, bucket, wanted, keys, all);
      keys := keys + found;
      if nextBucket == 0 {
        shard, bucket := shard + 1, 0;
      } else {
        bucket, done := nextBucket, true;
      }
    }
    if !done { WalkEnd(views, shard, bucket, wanted - |keys|); }
    assert keys + [] == keys;
    next := 0;
    if shard < NUM_SHARDS { next := CursorAt(shard, bucket); }
  }

  method ScanShard(table: HashTable<string, Entry>, ghost view: View<string>, bucket: nat, count: nat, now: nat)
    returns (next: nat, found: seq<string>)
    requires SeesOne(table, view, now)
    ensures var (n, scanned) := ScanBuckets(view.buckets, bucket, count);
            next == n && found == Filter(scanned, view.live)
  {
    hide ScanBuckets, Filter, Placed, Linked, Slot, Distinct, KeysByBucket;
    var scanned;
    next, scanned := table.Scan(bucket, count);
    found := KeepLive(table, view, scanned, now);
  }

  method KeepLive(table: HashTable<string, Entry>, ghost view: View<string>, scanned: seq<string>, now: nat)
    returns (found: seq<string>)
    requires SeesOne(table, view, now)
    ensures found == Filter(scanned, view.live)
  {
    hide SeesOne;
    found := [];
    for i := 0 to |scanned|
      invariant Filter(scanned, view.live) == found + Filter(scanned[i..], view.live)
    {
      var live := StillLive(table, view, scanned[i], now);
      assert scanned[i..][1..] == scanned[i + 1..];
      if live { found := found + [scanned[i]]; }
    }
  }

  method StillLive(table: HashTable<string, Entry>, ghost view: View<string>, key: string, now: nat)
    returns (live: bool)
    requires SeesOne(table, view, now)
    ensures live <==> key in view.live
  {
    hide Placed, Linked, Slot, Distinct, KeysByBucket;
    var slot := table.Find(key);
    live := slot != null && !Expired(slot.value.expireAt, now);
  }

  ghost predicate HasKey(table: HashTable<string, Entry>, k: string)
    reads *
  {
    table.Valid() && k in table.Contents()
  }

  ghost predicate HasLiveKey(table: HashTable<string, Entry>, k: string, now: nat)
    reads *
  {
    HasKey(table, k) && !Expired(table.Contents()[k].expireAt, now)
  }

  /** Every key is in the table its hash selects, and no table outgrows the lower half of a cursor. */
  ghost predicate Sharded(shards: seq<HashTable<string, Entry>>)
    reads *
  {
    && (forall i :: 0 <= i < |shards| ==> 0 < shards[i].buckets.Length < SPAN)
    && (forall i, k :: 0 <= i < |shards| && HasKey(shards[i], k) ==> ShardIndex(k) == i)
  }

  lemma ViewHolds(table: HashTable<string, Entry>, view: View<string>, now: nat)
    requires SeesOne(table, view, now)
    ensures |view.buckets| == table.buckets.Length && Distinct(Concat(view.buckets))
    ensures forall k :: Holds(view, k) <==> HasLiveKey(table, k, now)
  {
    table.BucketsHoldKeysOnce();
  }

  lemma StoreViews(shards: seq<HashTable<string, Entry>>, views: seq<View<string>>, now: nat)
    requires |shards| == NUM_SHARDS && Sees(shards, views, now) && Sharded(shards)
    ensures Scannable(views) && OneShardEach(views)
    ensures forall i, k :: 0 <= i < |shards| ==> (Holds(views[i], k) <==> HasLiveKey(shards[i], k, now))
  {
    hide SeesOne, Holds, Distinct, Concat, HasKey, ShardIndex;
    forall i | 0 <= i < |shards|
      ensures |views[i].buckets| == shards[i].buckets.Length && Distinct(Concat(views[i].buckets))
      ensures forall k :: Holds(views[i], k) <==> HasLiveKey(shards[i], k, now)
    {
      ViewHolds(shards[i], views[i], now);
    }
    forall i, j, k | 0 <= i < |views| && 0 <= j < |views| && Holds(views[i], k) && Holds(views[j], k) ensures i == j {
      assert HasLiveKey(shards[i], k, now) && HasKey(shards[i], k) && ShardIndex(k) == i;
      assert HasLiveKey(shards[j], k, now) && HasKey(shards[j], k) && ShardIndex(k) == j;
    }
  }

  /** A client that starts at cursor 0 and follows the returned cursors until 0 comes back has then
      seen every unexpired key of the store exactly once. */
  method ScanEverything(shards: seq<HashTable<string, Entry>>, ghost views: seq<View<string>>, counts: nat -> nat,
                        now: nat)
    returns (all: seq<string>)
    requires |shards| == NUM_SHARDS && Sees(shards, views, now) && Sharded(shards)
    ensures Distinct(all)
    ensures forall k :: k in all <==> exists i :: 0 <= i < |shards| && HasLiveKey(shards[i], k, now)
  {
    hide SeesOne, ScanCall, ShardOf, BucketOf, Follow, Holds, HasLiveKey, Distinct, Concat;
    StoreViews(shards, views, now);
    ScanCoverage(views, counts);
    var cursor, call := 0, 0;
    all := [];
    ghost var rest := Follow(views, 0, counts, 0);
    var more := true;
    assert [] + rest == rest;
    while more
      invariant more ==> ValidCursor(views, cursor) && all + Follow(views, cursor, counts, call) == rest
      invariant !more ==> all == rest
      decreases more, NUM_SHARDS * SPAN - cursor
    {
      var next, keys := Scan(shards, views, cursor, counts(call), now);
      all := all + keys;
      NextCall(views, cursor, counts, call);
      cursor, call, more := next, call + 1, next != 0;
    }
  }

  lemma NextCall<K>(views: seq<View<K>>, cursor: nat, counts: nat -> nat, call: nat)
    requires Scannable(views) && ValidCursor(views, cursor)
    ensures cursor < NUM_SHARDS * SPAN
    ensures var (next, keys) := ScanCall(views, cursor, counts(call));
            var follow := Follow(views, cursor, counts, call);
            if next == 0 then follow == keys
            else cursor < next && ValidCursor(views, next) && follow == keys + Follow(views, next, counts, call + 1)
  {
    ScanCallStep(views, cursor, counts(call));
  }
}
