/** How many keys a scan returns: it stops at the first bucket that fills it. */
module ScanBounds {
  import opened HashTables
  import opened Records
  import opened Sequences
  import opened ShardScan

  // ----- one table -----

  function Total<K>(buckets: seq<seq<K>>, from: nat, end: nat): nat
    requires from <= end <= |buckets|
    decreases end
  {
    if from == end then 0 else Total(buckets, from, end - 1) + |buckets[end - 1]|
  }

  lemma {:induction false} TotalFront<K>(buckets: seq<seq<K>>, from: nat, end: nat)
    requires from < end <= |buckets|
    ensures Total(buckets, from, end) == |buckets[from]| + Total(buckets, from + 1, end)
    decreases end
  {
    if from + 1 < end { TotalFront(buckets, from, end - 1); }
  }

  /** The buckets taken are all that begin before enough keys are there, in order and whole. */
  ghost predicate StopsWhenFull<K>(buckets: seq<seq<K>>, from: nat, count: int, end: nat, keys: seq<K>) {
    && from <= end <= |buckets| && keys == Concat(buckets[from..end]) && |keys| == Total(buckets, from, end)
    && (forall m :: from <= m < end ==> Total(buckets, from, m) < count)
    && (end < |buckets| ==> Total(buckets, from, end) >= count)
  }

  lemma {:induction false} ScanStops<K>(buckets: seq<seq<K>>, i: nat, count: int)
    requires i <= |buckets|
    ensures var (end, keys) := ScanFrom(buckets, i, count); StopsWhenFull(buckets, i, count, end, keys)
    decreases |buckets| - i
  {
    hide Concat;
    var (end, keys) := ScanFrom(buckets, i, count);
    if i == |buckets| || count <= 0 {
      assert buckets[i..i] == [];
      ConcatNone<K>();
    } else {
      ScanStops(buckets, i + 1, count - |buckets[i]|);
      SliceFront(buckets, i, end);
      ConcatMore(buckets[i], buckets[i + 1..end]);
      forall m | i <= m <= end ensures m > i ==> Total(buckets, i, m) == |buckets[i]| + Total(buckets, i + 1, m) {
        if m > i { TotalFront(buckets, i, m); }
      }
    }
  }

  lemma SliceFront<K>(buckets: seq<seq<K>>, i: nat, end: nat)
    requires i < end <= |buckets|
    ensures buckets[i..end] == [buckets[i]] + buckets[i + 1..end]
  {
  }

  lemma ConcatNone<K>()
    ensures Concat<K>([]) == []
  {
  }

  lemma ConcatMore<K>(first: seq<K>, rest: seq<seq<K>>)
    ensures Concat([first] + rest) == first + Concat(rest)
  {
    assert ([first] + rest)[1..] == rest;
  }

  /** From any cursor, one past the end meaning the start; 0 comes back exactly at the end. */
  lemma ScanExactly<K>(buckets: seq<seq<K>>, cursor: nat, count: nat) returns (end: nat)
    ensures var from := if cursor >= |buckets| then 0 else cursor;
            var (next, keys) := ScanBuckets(buckets, cursor, count);
            StopsWhenFull(buckets, from, count, end, keys) && next == if end == |buckets| then 0 else end
  {
    hide StopsWhenFull, ScanFrom;
    var from := if cursor >= |buckets| then 0 else cursor;
    ScanStops(buckets, from, count);
    end := ScanFrom(buckets, from, count).0;
  }

  // ----- all shards -----

  ghost predicate BucketsWithin<K>(buckets: seq<seq<K>>, most: nat) {
    forall b :: 0 <= b < |buckets| ==> |buckets[b]| <= most
  }

  ghost predicate Within<K>(views: seq<View<K>>, most: nat) {
    forall s :: 0 <= s < |views| ==> BucketsWithin(views[s].buckets, most)
  }

  predicate BucketsLive<K(==)>(buckets: seq<seq<K>>, live: set<K>) {
    forall b, i :: 0 <= b < |buckets| && 0 <= i < |buckets[b]| ==> buckets[b][i] in live
  }

  /** No key has expired. */
  ghost predicate AllLive<K>(views: seq<View<K>>) {
    forall s :: 0 <= s < |views| ==> BucketsLive(views[s].buckets, views[s].live)
  }

  lemma {:induction false} FilterLength<K>(keys: seq<K>, live: set<K>)
    ensures |Filter(keys, live)| <= |keys|
    ensures (forall k :: k in keys ==> k in live) ==> Filter(keys, live) == keys
  {
    if keys != [] { FilterLength(keys[1..], live); }
  }

  lemma ScanLength<K>(buckets: seq<seq<K>>, cursor: nat, count: nat, most: nat)
    requires count > 0 && BucketsWithin(buckets, most)
    ensures |ScanBuckets(buckets, cursor, count).1| <= count - 1 + most
    ensures ScanBuckets(buckets, cursor, count).0 != 0 ==> |ScanBuckets(buckets, cursor, count).1| >= count
  {
    hide ScanFrom, Concat;
    var from := if cursor >= |buckets| then 0 else cursor;
    ScanStops(buckets, from, count);
    var (end, keys) := ScanFrom(buckets, from, count);
    if from < end { assert Total(buckets, from, end - 1) < count; }
  }

  lemma ScanLive<K>(view: View<K>, cursor: nat, count: nat)
    requires BucketsLive(view.buckets, view.live)
    ensures var keys := ScanBuckets(view.buckets, cursor, count).1; Filter(keys, view.live) == keys
  {
    hide ScanFrom, Concat, Filter, Total;
    var from := if cursor >= |view.buckets| then 0 else cursor;
    ScanStops(view.buckets, from, count);
    var (end, keys) := ScanFrom(view.buckets, from, count);
    forall k | k in keys ensures k in view.live {
      var part := view.buckets[from..end];
      InConcat(part, k);
      var b :| 0 <= b < |part| && k in part[b];
      var i :| 0 <= i < |part[b]| && part[b][i] == k;
      assert view.buckets[from + b][i] in view.live;
    }
    FilterLength(keys, view.live);
  }

  lemma {:induction false} WalkLength<K>(views: seq<View<K>>, shard: nat, bucket: nat, count: int, most: nat)
    requires shard <= |views| && count > 0 && Within(views, most)
    ensures var (s, b, keys) := Walk(views, shard, bucket, count);
            |keys| <= count - 1 + most && (AllLive(views) && s < |views| ==> |keys| >= count)
    decreases |views| - shard
  {
    hide ScanBuckets, Filter, Walk, BucketsWithin, BucketsLive;
    if shard == |views| {
      WalkEnd(views, shard, bucket, count);
    } else {
      WalkUnfolds(views, shard, bucket, count);
      ScanLength(views[shard].buckets, bucket, count, most);
      var (next, keys) := ScanBuckets(views[shard].buckets, bucket, count);
      FilterLength(keys, views[shard].live);
      if AllLive(views) { ScanLive(views[shard], bucket, count); }
      var found := Filter(keys, views[shard].live);
      if next == 0 {
        if count - |found| > 0 {
          WalkLength(views, shard + 1, 0, count - |found|, most);
        } else {
          WalkEnd(views, shard + 1, 0, count - |found|);
        }
      }
    }
  }

  /** A call returns fewer keys than were asked for (10 if none were) and one bucket holds together; and at
      least as many as were asked for if it is not the last and nothing has expired. */
  lemma CallLength<K>(views: seq<View<K>>, cursor: nat, count: nat, most: nat)
    requires |views| == NUM_SHARDS && Within(views, most)
    ensures var (next, keys) := ScanCall(views, cursor, count);
            var asked := if count == 0 then 10 else count;
            |keys| <= asked - 1 + most && (AllLive(views) && next != 0 ==> |keys| >= asked)
  {
    hide Walk, Within, AllLive;
    if ShardOf(cursor) < NUM_SHARDS {
      WalkLength(views, ShardOf(cursor), BucketOf(cursor), if count == 0 then 10 else count, most);
    }
  }
}
