/** Runs of the store: what its clients see, whatever the sequence of operations and purges. */
module StoreRuns {
  import opened Decimal
  import opened Records
  import opened Purges
  import opened MemoryStores
  import opened Sequences
  import KV = KeyValue
  import HT = HashTables
  import ShardScan

  /** Increments are 64-bit integers. */
  predicate InRange(op: KV.Op) { op.IncrBy? ==> I64_MIN <= op.delta <= I64_MAX }

  ghost predicate NoReservations(shards: seq<Shard>) {
    forall i :: 0 <= i < |shards| ==> shards[i].reservations == map[]
  }

  lemma NoneAfter(before: seq<Shard>, after: seq<Shard>)
    requires NoReservations(before) && SameOtherTables(before, after)
    ensures NoReservations(after)
  {
    forall i | 0 <= i < |after| ensures after[i].reservations == map[] {
      assert after[i] == before[i].(entries := after[i].entries);
    }
  }

  lemma NonePurged(before: seq<Shard>, after: seq<Shard>, next: nat, now: nat)
    requires NoReservations(before) && |before| == |after| == NUM_SHARDS
    requires forall i :: 0 <= i < NUM_SHARDS ==> ShardPurged(before[i], next, now, after[i])
    ensures NoReservations(after)
  {
    hide QuotasPurged;
    forall i | 0 <= i < |after| ensures after[i].reservations == map[] {
      assert ShardPurged(before[i], next, now, after[i]) && before[i].reservations == map[];
      assert after[i].reservations.Keys == {};
    }
  }

  method Perform(store: MemoryStore, op: KV.Op, now: nat) returns (reply: KV.Reply)
    requires store.Valid() && InRange(op)
    modifies store`shards
    ensures store.Valid() && SameOtherTables(old(store.shards), store.shards)
    ensures KV.Behaves(Union(old(store.shards)), op, now, Union(store.shards), reply)
  {
    hide KV.Behaves, Union;
    match op {
      case Set(key, value, condition, ttl) =>
        var stored := store.Set(key, value, condition, ttl, now);
        reply := KV.Flag(stored);
      case Get(key) =>
        var value := store.Get(key, now);
        reply := KV.Value(value);
      case Exists(key) =>
        var found := store.Exists(key, now);
        reply := KV.Flag(found);
      case TypeOf(key) =>
        var kind := store.Type(key, now);
        reply := KV.Kind(kind);
      case Expire(key, ttl) =>
        var done := store.Expire(key, ttl, now);
        reply := KV.Flag(done);
      case Ttl(key) =>
        var seconds := store.Ttl(key, now);
        reply := KV.Number(seconds);
      case Pttl(key) =>
        var millis := store.Pttl(key, now);
        reply := KV.Number(millis);
      case Persist(key) =>
        var done := store.Persist(key, now);
        reply := KV.Flag(done);
      case IncrBy(key, delta, ttl) =>
        reply := store.IncrBy(key, delta, ttl, now);
      case DbSize =>
        var count := store.DbSize(now);
        reply := KV.Size(count);
      case Keys(pattern) =>
        var matched := store.Keys(pattern, now);
        reply := KV.KeySet(set k | k in matched);
    }
  }

  /** One event of a run; the reply an event of the argument carries is not looked at. */
  method Serve(store: MemoryStore, e: KV.Event, limit: nat) returns (served: KV.Event)
    requires store.Valid() && NoReservations(store.shards) && (e.Call? ==> InRange(e.op))
    modifies store`shards
    ensures store.Valid() && NoReservations(store.shards)
    ensures KV.StepOk(Union(old(store.shards)), served, Union(store.shards))
    ensures served.now == e.now && KV.Question(served) == KV.Question(e) && KV.Asked([served]) == KV.Asked([e])
    ensures forall entries :: KV.MeetsLeftover(entries, served) == KV.MeetsLeftover(entries, e)
  {
    hide KV.Behaves, Union, Dropped, SameOtherTables, ShardPurged, NoReservations, MemoryStore.Valid;
    Sized(store);
    match e {
      case Call(op, now, _) =>
        var reply := Perform(store, op, now);
        NoneAfter(old(store.shards), store.shards);
        served := KV.Call(op, now, reply);
      case Delete(key, now, _) =>
        var erased := store.Del(key);
        NoneAfter(old(store.shards), store.shards);
        served := KV.Delete(key, now, erased);
      case Purge(now) =>
        NoneOut(store.shards);
        var purged := store.PurgeExpired(limit, now);
        Sized(store);
        NonePurged(old(store.shards), store.shards, store.nextReservation, now);
        served := KV.Purge(now);
    }
    assert [served][1..] == [] && [e][1..] == [];
  }

  lemma Sized(store: MemoryStore)
    requires store.Valid()
    ensures |store.shards| == NUM_SHARDS
  {
  }

  lemma NoneOut(shards: seq<Shard>)
    requires NoReservations(shards) && |shards| == NUM_SHARDS
    ensures forall i :: 0 <= i < NUM_SHARDS ==> shards[i].reservations == map[]
  {
  }

  lemma OneMore(events: seq<KV.Event>, e: KV.Event)
    ensures KV.Asked(events + [e]) == KV.Asked(events) + KV.Asked([e])
    ensures KV.Replies(events + [e]) == KV.Replies(events) + KV.Replies([e])
    ensures KV.DeleteReplies(events + [e]) == KV.DeleteReplies(events) + KV.DeleteReplies([e])
  {
    hide KV.Asked, KV.Replies, KV.DeleteReplies;
    OneMoreAsked(events, e);
    OneMoreReply(events, e);
    OneMoreDelete(events, e);
  }

  lemma {:induction false} OneMoreAsked(events: seq<KV.Event>, e: KV.Event)
    ensures KV.Asked(events + [e]) == KV.Asked(events) + KV.Asked([e])
  {
    hide KV.Question;
    if events == [] {
      assert events + [e] == [e];
    } else {
      assert (events + [e])[0] == events[0] && (events + [e])[1..] == events[1..] + [e];
      OneMoreAsked(events[1..], e);
      Regroup(KV.Question(events[0]), KV.Asked(events[1..]), KV.Asked([e]));
    }
  }

  lemma {:induction false} OneMoreReply(events: seq<KV.Event>, e: KV.Event)
    ensures KV.Replies(events + [e]) == KV.Replies(events) + KV.Replies([e])
  {
    if events == [] {
      assert events + [e] == [e];
    } else {
      assert (events + [e])[0] == events[0] && (events + [e])[1..] == events[1..] + [e];
      OneMoreReply(events[1..], e);
      Regroup(if events[0].Call? then [events[0].reply] else [], KV.Replies(events[1..]), KV.Replies([e]));
    }
  }

  lemma {:induction false} OneMoreDelete(events: seq<KV.Event>, e: KV.Event)
    ensures KV.DeleteReplies(events + [e]) == KV.DeleteReplies(events) + KV.DeleteReplies([e])
  {
    if events == [] {
      assert events + [e] == [e];
    } else {
      assert (events + [e])[0] == events[0] && (events + [e])[1..] == events[1..] + [e];
      OneMoreDelete(events[1..], e);
      var first := if events[0].Delete? then [events[0].erased] else [];
      Regroup(first, KV.DeleteReplies(events[1..]), KV.DeleteReplies([e]));
    }
  }

  /** Any run of the store on plain keys, with purges of any size anywhere in it, replies as a map that
      forgets every entry at the moment it expires; its deletions do so exactly if none comes upon
      an expired entry that is still there. */
  method RunKeys(store: MemoryStore, events: seq<KV.Event>, limits: nat -> nat)
    returns (replies: seq<KV.Reply>, deletions: seq<bool>, ghost states: seq<KV.Entries>, ghost served: seq<KV.Event>)
    requires store.Valid() && NoReservations(store.shards) && KV.Ordered(events, 0)
    requires forall i :: 0 <= i < |events| && events[i].Call? ==> InRange(events[i].op)
    modifies store`shards
    ensures store.Valid() && KV.Trace(states, served) && SameAsked(events, served)
    ensures states[0] == Union(old(store.shards)) && states[|events|] == Union(store.shards)
    ensures replies == KV.Replies(served) && deletions == KV.DeleteReplies(served)
    ensures replies == KV.IdealReplies(states[0], KV.Asked(events))
    ensures deletions == KV.IdealDeleteReplies(states[0], KV.Asked(events)) <==> KV.NoneMeetsLeftover(states, events)
  {
    hide KV.Behaves, Union, KV.StepOk, KV.Asked, KV.Replies, KV.DeleteReplies, KV.IdealReplies, KV.IdealDeleteReplies;
    hide NoReservations, KV.MeetsLeftover, KV.Question;
    replies, deletions, states, served := [], [], [Union(store.shards)], [];
    Nothing();
    for i := 0 to |events|
      invariant store.Valid() && NoReservations(store.shards)
      invariant |served| == i && KV.Trace(states, served) && states[i] == Union(store.shards)
      invariant states[0] == Union(old(store.shards))
      invariant forall j :: 0 <= j < i ==>
                  served[j].now == events[j].now && KV.Question(served[j]) == KV.Question(events[j])
      invariant forall j :: 0 <= j < i ==>
                  KV.MeetsLeftover(states[j], served[j]) == KV.MeetsLeftover(states[j], events[j])
      invariant KV.Asked(served) == KV.Asked(events[..i]) && KV.Replies(served) == replies
      invariant KV.DeleteReplies(served) == deletions
    {
      var e := Serve(store, events[i], limits(i));
      OneMore(served, e);
      OneMore(events[..i], events[i]);
      assert events[..i + 1] == events[..i] + [events[i]];
      OneReply(e);
      if e.Call? { replies := replies + [e.reply]; }
      if e.Delete? { deletions := deletions + [e.erased]; }
      states, served := states + [Union(store.shards)], served + [e];
    }
    assert events[..|events|] == events;
    KV.ExpiryUnobservable(states, served);
    KV.DeleteRepliesIff(states, served);
  }

  /** The same operations at the same times, whatever was replied. */
  ghost predicate SameAsked(events: seq<KV.Event>, served: seq<KV.Event>) {
    && |events| == |served|
    && forall i :: 0 <= i < |events| ==>
         served[i].now == events[i].now && KV.Question(served[i]) == KV.Question(events[i])
  }

  lemma Nothing()
    ensures KV.Asked([]) == [] && KV.Replies([]) == [] && KV.DeleteReplies([]) == []
  {
  }

  lemma OneReply(e: KV.Event)
    ensures KV.Replies([e]) == if e.Call? then [e.reply] else []
    ensures KV.DeleteReplies([e]) == if e.Delete? then [e.erased] else []
  {
    assert [e][1..] == [];
  }

  // ----- scanning the store -----

  /** The hash tables that hold the entries of the shards, none too large for a cursor. */
  ghost predicate Backs(tables: seq<HT.HashTable<string, Entry>>, shards: seq<Shard>)
    reads *
  {
    && |tables| == |shards|
    && forall i :: 0 <= i < |tables| ==>
         tables[i].Valid() && tables[i].Contents() == shards[i].entries && 0 < tables[i].buckets.Length < ShardScan.SPAN
  }

  lemma BackedSharded(tables: seq<HT.HashTable<string, Entry>>, shards: seq<Shard>)
    requires Placed(shards) && Backs(tables, shards)
    ensures ShardScan.Sharded(tables)
  {
    hide ShardIndex, HT.HashTable.Valid;
  }

  lemma BackedLive(tables: seq<HT.HashTable<string, Entry>>, shards: seq<Shard>, now: nat, k: string)
    requires Placed(shards) && Backs(tables, shards)
    ensures k in KV.Live(Union(shards), now)
            <==> exists i :: 0 <= i < |tables| && ShardScan.HasLiveKey(tables[i], k, now)
  {
    hide ShardIndex, HT.HashTable.Valid, Union;
    UnionAt(shards, k);
    if k in KV.Live(Union(shards), now) {
      assert ShardScan.HasLiveKey(tables[ShardIndex(k)], k, now);
    }
  }

  /** A client that follows the cursors from 0 until 0 comes back is given the live keys of the whole
      store, each once. */
  method ScanStore(store: MemoryStore, tables: seq<HT.HashTable<string, Entry>>,
                   ghost views: seq<ShardScan.View<string>>,
                   counts: nat -> nat, now: nat)
    returns (all: seq<string>)
    requires store.Valid() && Backs(tables, store.shards) && ShardScan.Sees(tables, views, now)
    ensures Distinct(all) && forall k :: k in all <==> k in KV.Live(Union(store.shards), now)
  {
    hide Backs, ShardScan.Sees, ShardScan.Sharded, ShardScan.HasLiveKey, Union, KV.Live, Distinct;
    BackedSharded(tables, store.shards);
    Counted(tables, store.shards);
    all := ShardScan.ScanEverything(tables, views, counts, now);
    forall k ensures k in all <==> k in KV.Live(Union(store.shards), now) {
      BackedLive(tables, store.shards, now, k);
    }
  }

  lemma Counted(tables: seq<HT.HashTable<string, Entry>>, shards: seq<Shard>)
    requires Placed(shards) && Backs(tables, shards)
    ensures |tables| == NUM_SHARDS
  {
  }
}
