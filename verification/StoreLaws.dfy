/** The laws of the quota ledger, the rate limiter and the idempotency engine, over every run of the
    store: any operations on any keys, and purges of any size, in any order. */
module StoreLaws {
  import opened Options
  import opened Sequences
  import opened Decimal
  import opened Records
  import opened Purges
  import opened MemoryStores
  import StoreRuns
  import KV = KeyValue
  import Quota
  import Rate = RateLimit
  import RateRules
  import Idem = Idempotency

  datatype Op =
    | Key(op: KV.Op)
    | Delete(key: string)
    | RateLimit(key: string, limit: nat, window: nat, cost: nat)
    | Reserve(key: string, amount: nat, ttl: nat)
    | Commit(key: string, id: string, actual: nat)
    | Rollback(key: string, id: string)
    | Begin(key: string, hash: string, ttl: nat, owner: string)
    | Complete(key: string, owner: string, code: int, body: string)
    | Fail(key: string, owner: string, message: string)
    | Purge(limit: nat)

  datatype Call = Call(op: Op, now: nat)

  datatype Reply =
    | OfKey(key: KV.Reply)
    | OfDelete(erased: bool)
    | OfRate(verdict: Option<Rate.Reply>)
    | OfReserve(reserved: Quota.ReserveReply)
    | OfCommit(committed: Quota.CommitReply)
    | OfRollback(rolledBack: Quota.RollbackReply)
    | OfBegin(begun: Idem.BeginReply)
    | OfClose(closed: Idem.CloseReply)
    | OfPurge(purged: nat)

  /** Everything the store holds. */
  datatype State = State(shards: seq<Shard>, nextReservation: nat, nextClaim: nat)

  ghost function StateOf(store: MemoryStore): State
    reads store
  {
    State(store.shards, store.nextReservation, store.nextClaim)
  }

  function Quotas(s: State, i: nat): Quota.Quotas
    requires i < |s.shards|
  {
    Quota.Quotas(s.shards[i].entries, s.shards[i].reservations, s.nextReservation)
  }

  function Claims(s: State, i: nat): Idem.Claims
    requires i < |s.shards|
  {
    Idem.Claims(s.shards[i].claims, s.nextClaim)
  }

  // ----- one call -----

  /** The tables of the shards but for one part of one shard. */
  ghost predicate OnlyQuotas(s: State, i: nat, s': State) {
    && i < |s.shards| == |s'.shards| && s'.nextClaim == s.nextClaim
    && s'.shards[i] == s.shards[i].(entries := s'.shards[i].entries, reservations := s'.shards[i].reservations)
    && forall j :: 0 <= j < |s.shards| && j != i ==> s'.shards[j] == s.shards[j]
  }

  ghost predicate OnlyClaims(s: State, i: nat, s': State) {
    && i < |s.shards| == |s'.shards| && s'.nextReservation == s.nextReservation
    && s'.shards[i] == s.shards[i].(claims := s'.shards[i].claims)
    && forall j :: 0 <= j < |s.shards| && j != i ==> s'.shards[j] == s.shards[j]
  }

  ghost predicate SameCounters(s: State, s': State) {
    s'.nextReservation == s.nextReservation && s'.nextClaim == s.nextClaim
  }

  predicate IsQuota(op: Op) { op.Reserve? || op.Commit? || op.Rollback? }

  predicate IsClaim(op: Op) { op.Begin? || op.Complete? || op.Fail? }

  ghost predicate QuotaOk(s: State, c: Call, s': State, reply: Reply)
    requires IsQuota(c.op)
  {
    var i := ShardIndex(c.op.key);
    && OnlyQuotas(s, i, s')
    && match c.op
       case Reserve(key, amount, ttl) =>
         reply.OfReserve? && (Quotas(s', i), reply.reserved) == Quota.Reserve(Quotas(s, i), key, amount, ttl, c.now)
       case Commit(key, id, actual) =>
         reply.OfCommit? && (Quotas(s', i), reply.committed) == Quota.Commit(Quotas(s, i), key, id, actual, c.now)
       case Rollback(key, id) =>
         reply.OfRollback? && (Quotas(s', i), reply.rolledBack) == Quota.Rollback(Quotas(s, i), key, id, c.now)
  }

  ghost predicate ClaimOk(s: State, c: Call, s': State, reply: Reply)
    requires IsClaim(c.op)
  {
    var i := ShardIndex(c.op.key);
    && OnlyClaims(s, i, s')
    && match c.op
       case Begin(key, hash, ttl, owner) =>
         reply.OfBegin? && (Claims(s', i), reply.begun) == Idem.Begin(Claims(s, i), key, hash, ttl, owner, c.now)
       case Complete(key, owner, code, body) =>
         reply.OfClose? && (Claims(s', i), reply.closed) == Idem.Complete(Claims(s, i), key, owner, code, body, c.now)
       case Fail(key, owner, message) =>
         reply.OfClose? && (Claims(s', i), reply.closed) == Idem.Fail(Claims(s, i), key, owner, message, c.now)
  }

  ghost predicate RateOk(s: State, c: Call, s': State, reply: Reply)
    requires c.op.RateLimit? && |s.shards| == NUM_SHARDS
  {
    if c.op.limit == 0 || c.op.window == 0 then reply == OfRate(None) && s' == s
    else
      var i := ShardIndex(c.op.key);
      var (r, verdict) := Rate.Hit64(Find(s.shards[i].rates, c.op.key), c.op.limit, c.op.window, c.op.cost, c.now);
      && reply == OfRate(Some(verdict))
      && s' == s.(shards := s.shards[i := s.shards[i].(rates := s.shards[i].rates[c.op.key := r])])
  }

  ghost predicate EntriesOk(s: State, c: Call, s': State, reply: Reply)
    requires c.op.Key? || c.op.Delete?
  {
    && SameCounters(s, s') && SameOtherTables(s.shards, s'.shards)
    && if c.op.Key? then reply.OfKey? && KV.Behaves(Union(s.shards), c.op.op, c.now, Union(s'.shards), reply.key)
       else reply == OfDelete(c.op.key in Union(s.shards)) && Union(s'.shards) == Union(s.shards) - {c.op.key}
  }

  /** What a call may do to the store and reply: the contracts of the store's operations. */
  ghost predicate StepOk(s: State, c: Call, s': State, reply: Reply) {
    && Placed(s.shards) && Placed(s'.shards)
    && if IsQuota(c.op) then QuotaOk(s, c, s', reply)
       else if IsClaim(c.op) then ClaimOk(s, c, s', reply)
       else if c.op.RateLimit? then RateOk(s, c, s', reply)
       else if c.op.Purge? then
         reply.OfPurge? && SameCounters(s, s')
         && forall i :: 0 <= i < NUM_SHARDS ==> ShardPurged(s.shards[i], s.nextReservation, c.now, s'.shards[i])
       else EntriesOk(s, c, s', reply)
  }

  predicate InRange(c: Call) { c.op.Key? ==> StoreRuns.InRange(c.op.op) }

  ghost predicate Trace(states: seq<State>, calls: seq<Call>, replies: seq<Reply>) {
    && |states| == |calls| + 1 && |replies| == |calls|
    && forall i :: 0 <= i < |calls| ==> StepOk(states[i], calls[i], states[i + 1], replies[i])
  }

  method PerformQuota(store: MemoryStore, c: Call) returns (reply: Reply)
    requires store.Valid() && IsQuota(c.op)
    modifies store
    ensures store.Valid() && QuotaOk(old(StateOf(store)), c, StateOf(store), reply)
  {
    hide ShardIndex, Quota.Reserve, Quota.Commit, Quota.Rollback;
    match c.op {
      case Reserve(key, amount, ttl) =>
        var r := store.ReserveQuota(key, amount, ttl, c.now);
        reply := OfReserve(r);
      case Commit(key, id, actual) =>
        var r := store.CommitQuota(key, id, actual, c.now);
        reply := OfCommit(r);
      case Rollback(key, id) =>
        var r := store.RollbackQuota(key, id, c.now);
        reply := OfRollback(r);
    }
  }

  method PerformClaim(store: MemoryStore, c: Call) returns (reply: Reply)
    requires store.Valid() && IsClaim(c.op)
    modifies store
    ensures store.Valid() && ClaimOk(old(StateOf(store)), c, StateOf(store), reply)
  {
    hide ShardIndex, Idem.Begin, Idem.Complete, Idem.Fail;
    match c.op {
      case Begin(key, hash, ttl, owner) =>
        var r := store.IdemBegin(key, hash, ttl, owner, c.now);
        reply := OfBegin(r);
      case Complete(key, owner, code, body) =>
        var r := store.IdemComplete(key, owner, code, body, c.now);
        reply := OfClose(r);
      case Fail(key, owner, message) =>
        var r := store.IdemFail(key, owner, message, c.now);
        reply := OfClose(r);
    }
  }

  method Perform(store: MemoryStore, c: Call) returns (reply: Reply)
    requires store.Valid() && InRange(c)
    modifies store
    ensures store.Valid() && StepOk(old(StateOf(store)), c, StateOf(store), reply)
  {
    hide ShardIndex, Union, KV.Behaves, ShardPurged, SameOtherTables, Rate.Hit64, QuotaOk, ClaimOk;
    if IsQuota(c.op) {
      reply := PerformQuota(store, c);
    } else if IsClaim(c.op) {
      reply := PerformClaim(store, c);
    } else {
      match c.op {
        case Key(op) =>
          var r := StoreRuns.Perform(store, op, c.now);
          reply := OfKey(r);
        case Delete(key) =>
          var erased := store.Del(key);
          reply := OfDelete(erased);
        case RateLimit(key, limit, window, cost) =>
          var verdict := store.RateLimit(key, limit, window, cost, c.now);
          reply := OfRate(verdict);
        case Purge(limit) =>
          var purged := store.PurgeExpired(limit, c.now);
          reply := OfPurge(purged);
      }
    }
  }

  /** Any calls in any order. What follows holds of every such run. */
  method RunAll(store: MemoryStore, calls: seq<Call>) returns (replies: seq<Reply>, ghost states: seq<State>)
    requires store.Valid() && forall i :: 0 <= i < |calls| ==> InRange(calls[i])
    modifies store
    ensures store.Valid() && Trace(states, calls, replies)
    ensures states[0] == old(StateOf(store)) && states[|calls|] == StateOf(store)
  {
    hide StepOk, MemoryStore.Valid, StateOf;
    replies, states := [], [StateOf(store)];
    for i := 0 to |calls|
      invariant store.Valid() && |states| == i + 1 && |replies| == i
      invariant states[0] == old(StateOf(store)) && states[i] == StateOf(store)
      invariant forall j :: 0 <= j < i ==> StepOk(states[j], calls[j], states[j + 1], replies[j])
    {
      var reply := Perform(store, calls[i]);
      replies, states := replies + [reply], states + [StateOf(store)];
    }
  }

  // ----- the quota ledger -----

  /** Calls that leave the pool's entry to the quota operations. */
  predicate LeavesPool(c: Call, pool: string) {
    match c.op
    case Key(op) => (op.Set? || op.Expire? || op.Persist? || op.IncrBy?) ==> op.key != pool
    case Delete(key) => key != pool
    case _ => true
  }

  /** What a call consumes from the pool, and what it destroys. */
  function ChargedBy(q: Quota.Quotas, c: Call, pool: string): nat {
    if c.op.Commit? then Quota.Charged(q, Quota.DoCommit(c.op.key, c.op.id, c.op.actual, c.now), pool) else 0
  }

  function ForfeitedBy(q: Quota.Quotas, c: Call, pool: string): nat {
    if c.op.Rollback? then Quota.Forfeited(q, Quota.DoRollback(c.op.key, c.op.id, c.now), pool) else 0
  }

  ghost predicate Pool(q: Quota.Quotas, pool: string) {
    Quota.IdsIssued(q) && Quota.IsPool(q, pool) && Quota.Holdings(q, pool) < U64
  }

  lemma KeyLeavesPool(before: KV.Entries, op: KV.Op, now: nat, after: KV.Entries, reply: KV.Reply, pool: string)
    requires KV.Behaves(before, op, now, after, reply) && LeavesPool(Call(Key(op), now), pool)
    requires pool in before && before[pool].expireAt == 0
    ensures pool in after && after[pool] == before[pool]
  {
    var live := KV.Live(before, now);
    assert pool in live && live[pool] == before[pool];
    assert pool in KV.Ideal(live, op, now).0 && KV.Ideal(live, op, now).0[pool] == before[pool];
    assert pool in KV.Live(after, now);
  }

  /** Nothing but other entries, and perhaps the counter, has changed in the pool's shard. */
  lemma ElsewhereConserves(q: Quota.Quotas, q': Quota.Quotas, pool: string)
    requires Pool(q, pool) && q'.reservations == q.reservations && q'.next >= q.next
    requires pool in q'.entries && q'.entries[pool] == q.entries[pool]
    ensures Pool(q', pool) && Quota.Holdings(q', pool) == Quota.Holdings(q, pool)
  {
    hide Quota.Outstanding, Quota.IdsIssued, Quota.IsPool, Quota.Holdings;
    var e := Quota.Elsewhere(q'.entries, q'.next - q.next);
    assert Quota.Respects(q, e, pool) by { PoolThere(q, pool); }
    assert Quota.Step(q, e) == q';
    Quota.StepConserves(q, e, pool);
  }

  lemma PoolThere(q: Quota.Quotas, pool: string)
    requires Quota.IsPool(q, pool)
    ensures pool in q.entries && q.entries[pool].expireAt == 0
  {
  }

  lemma QuotaStep(s: State, s': State, e: Quota.Event, key: string, pool: string)
    requires |s.shards| == NUM_SHARDS && OnlyQuotas(s, ShardIndex(key), s')
    requires Quotas(s', ShardIndex(key)) == Quota.Step(Quotas(s, ShardIndex(key)), e)
    requires (e.DoReserve? || e.DoCommit? || e.DoRollback?) && e.key == key
    requires Pool(Quotas(s, ShardIndex(pool)), pool)
    ensures var q, q' := Quotas(s, ShardIndex(pool)), Quotas(s', ShardIndex(pool));
            && Pool(q', pool)
            && Quota.Holdings(q', pool) + Quota.Charged(q, e, pool) + Quota.Forfeited(q, e, pool)
              == Quota.Holdings(q, pool)
  {
    hide ShardIndex, Quota.Outstanding, Quota.IdsIssued, Quota.Holdings;
    var i := ShardIndex(pool);
    if ShardIndex(key) == i {
      Quota.StepConserves(Quotas(s, i), e, pool);
    } else {
      Counting(Quotas(s, ShardIndex(key)), e);
      assert s'.shards[i] == s.shards[i];
      ElsewhereConserves(Quotas(s, i), Quotas(s', i), pool);
    }
  }

  lemma Counting(q: Quota.Quotas, e: Quota.Event)
    ensures Quota.Step(q, e).next >= q.next
  {
  }

  lemma LedgerStep(s: State, c: Call, s': State, reply: Reply, pool: string)
    requires StepOk(s, c, s', reply) && LeavesPool(c, pool) && |s.shards| == NUM_SHARDS
    requires Pool(Quotas(s, ShardIndex(pool)), pool)
    ensures |s'.shards| == NUM_SHARDS
    ensures var q, q' := Quotas(s, ShardIndex(pool)), Quotas(s', ShardIndex(pool));
            && Pool(q', pool)
            && Quota.Holdings(q', pool) + ChargedBy(q, c, pool) + ForfeitedBy(q, c, pool) == Quota.Holdings(q, pool)
  {
    hide ShardIndex, Pool, Union, KV.Behaves, ShardPurged, Quota.Reserve, Quota.Commit, Quota.Rollback, Quota.Holdings;
    hide Idem.Begin, Idem.Complete, Idem.Fail, Rate.Hit64, Quota.Charged, Quota.Forfeited;
    var i := ShardIndex(pool);
    var q, q' := Quotas(s, i), Quotas(s', i);
    assert |s'.shards| == NUM_SHARDS;
    match c.op {
      case Reserve(key, amount, ttl) =>
        QuotaStep(s, s', Quota.DoReserve(key, amount, ttl, c.now), key, pool);
        NothingCharged(q, Quota.DoReserve(key, amount, ttl, c.now), pool);
      case Commit(key, id, actual) =>
        QuotaStep(s, s', Quota.DoCommit(key, id, actual, c.now), key, pool);
        NothingForfeited(q, Quota.DoCommit(key, id, actual, c.now), pool);
      case Rollback(key, id) =>
        QuotaStep(s, s', Quota.DoRollback(key, id, c.now), key, pool);
        NothingCharged(q, Quota.DoRollback(key, id, c.now), pool);
      case Purge(limit) => PurgeStep(s.shards[i], s.nextReservation, c.now, s'.shards[i], pool);
      case _ =>
        PoolStays(s, c, s', reply, pool);
        ElsewhereConserves(q, q', pool);
    }
  }

  lemma NothingCharged(q: Quota.Quotas, e: Quota.Event, pool: string)
    requires !e.DoCommit?
    ensures Quota.Charged(q, e, pool) == 0 && (e.DoReserve? ==> Quota.Forfeited(q, e, pool) == 0)
  {
  }

  lemma NothingForfeited(q: Quota.Quotas, e: Quota.Event, pool: string)
    requires !e.DoRollback?
    ensures Quota.Forfeited(q, e, pool) == 0
  {
  }

  lemma PurgeStep(before: Shard, next: nat, now: nat, after: Shard, pool: string)
    requires ShardPurged(before, next, now, after)
    requires Pool(Quota.Quotas(before.entries, before.reservations, next), pool)
    ensures var q := Quota.Quotas(before.entries, before.reservations, next);
            var q' := Quota.Quotas(after.entries, after.reservations, next);
            Pool(q', pool) && Quota.Holdings(q', pool) == Quota.Holdings(q, pool)
  {
    hide PurgeRun, Dropped, Quota.Holdings, Quota.IdsIssued, Quota.IsPool;
    var q := Quota.Quotas(before.entries, before.reservations, next);
    var q' := Quota.Quotas(after.entries, after.reservations, next);
    var events :| PurgeRun(q, events, now, q');
    PurgeConserves(q, events, now, q', pool);
  }

  lemma PoolStays(s: State, c: Call, s': State, reply: Reply, pool: string)
    requires StepOk(s, c, s', reply) && LeavesPool(c, pool) && !IsQuota(c.op) && !c.op.Purge?
    requires |s.shards| == NUM_SHARDS && Pool(Quotas(s, ShardIndex(pool)), pool)
    ensures |s'.shards| == NUM_SHARDS
    ensures var q, q' := Quotas(s, ShardIndex(pool)), Quotas(s', ShardIndex(pool));
            && q'.reservations == q.reservations && q'.next == q.next
            && pool in q'.entries && q'.entries[pool] == q.entries[pool]
  {
    hide ShardIndex, Rate.Hit64, Quota.Holdings, Quota.IdsIssued, EntriesOk, LeavesPool;
    hide Idem.Begin, Idem.Complete, Idem.Fail;
    PoolThere(Quotas(s, ShardIndex(pool)), pool);
    if c.op.Key? || c.op.Delete? {
      EntryStays(s, c, s', reply, pool);
    }
  }

  lemma EntryStays(s: State, c: Call, s': State, reply: Reply, pool: string)
    requires (c.op.Key? || c.op.Delete?) && EntriesOk(s, c, s', reply) && LeavesPool(c, pool)
    requires Placed(s.shards) && Placed(s'.shards)
    requires var entries := s.shards[ShardIndex(pool)].entries; pool in entries && entries[pool].expireAt == 0
    ensures var shard, shard' := s.shards[ShardIndex(pool)], s'.shards[ShardIndex(pool)];
            && SameCounters(s, s') && shard'.reservations == shard.reservations
            && pool in shard'.entries && shard'.entries[pool] == shard.entries[pool]
  {
    hide ShardIndex, Union, KV.Behaves;
    var i := ShardIndex(pool);
    UnionAt(s.shards, pool);
    UnionAt(s'.shards, pool);
    assert s'.shards[i] == s.shards[i].(entries := s'.shards[i].entries);
    if c.op.Key? {
      KeyLeavesPool(Union(s.shards), c.op.op, c.now, Union(s'.shards), reply.key, pool);
    }
  }

  function TotalCharged(states: seq<State>, calls: seq<Call>, pool: string): nat
    requires |states| >= |calls| && forall i :: 0 <= i < |states| ==> |states[i].shards| == NUM_SHARDS
    decreases |calls|
  {
    if calls == [] then 0
    else ChargedBy(Quotas(states[0], ShardIndex(pool)), calls[0], pool) + TotalCharged(states[1..], calls[1..], pool)
  }

  function TotalForfeited(states: seq<State>, calls: seq<Call>, pool: string): nat
    requires |states| >= |calls| && forall i :: 0 <= i < |states| ==> |states[i].shards| == NUM_SHARDS
    decreases |calls|
  {
    if calls == [] then 0
    else
      ForfeitedBy(Quotas(states[0], ShardIndex(pool)), calls[0], pool) + TotalForfeited(states[1..], calls[1..], pool)
  }

  lemma Sized(states: seq<State>, calls: seq<Call>, replies: seq<Reply>)
    requires Trace(states, calls, replies) && |states[0].shards| == NUM_SHARDS
    ensures forall i :: 0 <= i < |states| ==> |states[i].shards| == NUM_SHARDS
  {
    forall i | 0 < i < |states| ensures |states[i].shards| == NUM_SHARDS {
      assert StepOk(states[i - 1], calls[i - 1], states[i], replies[i - 1]);
    }
  }

  /** The ledger over every run of the store that leaves the pool's entry to the quota operations: what
      the pool holds, what is out on reservation, what was charged and what late rollbacks destroyed
      always add up to what there was. */
  lemma {:induction false} StoreLedger(states: seq<State>, calls: seq<Call>, replies: seq<Reply>, pool: string)
    requires Trace(states, calls, replies) && forall i :: 0 <= i < |calls| ==> LeavesPool(calls[i], pool)
    requires |states[0].shards| == NUM_SHARDS && Pool(Quotas(states[0], ShardIndex(pool)), pool)
    ensures forall i :: 0 <= i < |states| ==> |states[i].shards| == NUM_SHARDS
    ensures var q, q' := Quotas(states[0], ShardIndex(pool)), Quotas(states[|calls|], ShardIndex(pool));
            && Pool(q', pool)
            && Quota.Holdings(q', pool) + TotalCharged(states, calls, pool) + TotalForfeited(states, calls, pool)
               == Quota.Holdings(q, pool)
    decreases |calls|
  {
    hide StepOk, Pool, ShardIndex, Quota.Holdings, ChargedBy, ForfeitedBy, LeavesPool;
    Sized(states, calls, replies);
    if calls != [] {
      LedgerStep(states[0], calls[0], states[1], replies[0], pool);
      StoreLedger(states[1..], calls[1..], replies[1..], pool);
    }
  }

  // ----- fencing -----

  predicate BeginsAt(c: Call, key: string) { c.op.Begin? && c.op.key == key }

  /** The tokens the replies give out for executions of the key, oldest first. */
  function GivenBy(c: Call, reply: Reply, key: string): seq<string> {
    if BeginsAt(c, key) && reply.OfBegin? && reply.begun.Execute? then [reply.begun.token] else []
  }

  function Given(calls: seq<Call>, replies: seq<Reply>, key: string): seq<string>
    requires |calls| == |replies|
  {
    if calls == [] then [] else GivenBy(calls[0], replies[0], key) + Given(calls[1..], replies[1..], key)
  }

  ghost predicate Epochs(s: State, key: string, tokens: seq<string>) {
    |s.shards| == NUM_SHARDS && Idem.Epochs(Claims(s, ShardIndex(key)), key, tokens)
  }

  /** Fewer records, and the same counter. */
  lemma FewerClaims(s: Idem.Claims, s': Idem.Claims, key: string, tokens: seq<string>)
    requires Idem.Epochs(s, key, tokens) && s'.next == s.next
    requires key in s'.records ==> key in s.records && s'.records[key] == s.records[key]
    ensures Idem.Epochs(s', key, tokens)
  {
    hide Idem.Issued;
  }

  function EventOf(c: Call): Idem.Event
    requires IsClaim(c.op)
  {
    match c.op
    case Begin(key, hash, ttl, owner) => Idem.DoBegin(key, hash, ttl, owner, c.now)
    case Complete(key, owner, code, body) => Idem.DoComplete(key, owner, code, body, c.now)
    case Fail(key, owner, message) => Idem.DoFail(key, owner, message, c.now)
  }

  lemma ClaimIsStep(s: State, c: Call, s': State, reply: Reply, key: string)
    requires IsClaim(c.op) && ClaimOk(s, c, s', reply)
    ensures var before, after := Claims(s, ShardIndex(c.op.key)), Claims(s', ShardIndex(c.op.key));
            && after == Idem.Step(before, EventOf(c))
              && GivenBy(c, reply, key) == Idem.TokensOf(before, EventOf(c), key)
  {
    hide ShardIndex, Idem.Begin, Idem.Complete, Idem.Fail;
  }

  lemma CountsUp(s: Idem.Claims, e: Idem.Event)
    ensures Idem.Step(s, e).next >= s.next
  {
  }

  lemma ClaimStep(s: State, c: Call, s': State, reply: Reply, key: string, tokens: seq<string>)
    requires IsClaim(c.op) && ClaimOk(s, c, s', reply)
    requires Epochs(s, key, tokens) && (BeginsAt(c, key) ==> c.op.owner == "")
    ensures Epochs(s', key, tokens + GivenBy(c, reply, key))
  {
    hide ShardIndex, Idem.Epochs, Idem.Step, Idem.TokensOf, ClaimOk;
    var e, i, j := EventOf(c), ShardIndex(key), ShardIndex(c.op.key);
    ClaimIsStep(s, c, s', reply, key);
    assert OnlyClaims(s, j, s') by { OnlyItsClaims(s, c, s', reply); }
    if i == j {
      Idem.EpochStep(Claims(s, i), e, key, tokens);
    } else {
      CountsUp(Claims(s, j), e);
      var other := Idem.OtherShard(c.op.key, c.now, s'.nextClaim - s.nextClaim);
      Idem.EpochStep(Claims(s, i), other, key, tokens);
      ElsewhereStep(Claims(s, i), c.op.key, c.now, s'.nextClaim - s.nextClaim, key);
      assert s'.shards[i] == s.shards[i];
      assert GivenBy(c, reply, key) == [];
    }
  }

  lemma OnlyItsClaims(s: State, c: Call, s': State, reply: Reply)
    requires IsClaim(c.op) && ClaimOk(s, c, s', reply)
    ensures OnlyClaims(s, ShardIndex(c.op.key), s')
  {
  }

  lemma ElsewhereStep(s: Idem.Claims, at: string, now: nat, used: nat, key: string)
    ensures Idem.Step(s, Idem.OtherShard(at, now, used)) == s.(next := s.next + used)
    ensures Idem.TokensOf(s, Idem.OtherShard(at, now, used), key) == []
  {
  }

  /** What calls that claim nothing leave of the claims and of the rate records. */
  ghost predicate SideTablesKept(s: State, c: Call, s': State) {
    && |s.shards| == |s'.shards| == NUM_SHARDS && s'.nextClaim == s.nextClaim
    && forall i :: 0 <= i < NUM_SHARDS ==> SideTableKept(s.shards[i], c, s'.shards[i])
  }

  ghost predicate SideTableKept(before: Shard, c: Call, after: Shard) {
    if c.op.Purge? then
      && Dropped(before.claims, ClaimDeadline(), c.now, after.claims)
      && Dropped(before.rates, RateDeadline(), c.now, after.rates)
    else after.claims == before.claims && (c.op.RateLimit? || after.rates == before.rates)
  }

  lemma OthersKeep(s: State, c: Call, s': State, reply: Reply)
    requires StepOk(s, c, s', reply) && !IsClaim(c.op)
    ensures SideTablesKept(s, c, s')
  {
    hide ShardIndex, Union, KV.Behaves, QuotasPurged, Dropped, Rate.Hit64, Quota.Reserve, Quota.Commit, Quota.Rollback;
    forall i | 0 <= i < NUM_SHARDS ensures SideTableKept(s.shards[i], c, s'.shards[i]) {
      if c.op.Purge? {
        assert ShardPurged(s.shards[i], s.nextReservation, c.now, s'.shards[i]);
      } else if c.op.Key? || c.op.Delete? {
        assert s'.shards[i] == s.shards[i].(entries := s'.shards[i].entries);
      }
    }
  }

  lemma EpochsStep(s: State, c: Call, s': State, reply: Reply, key: string, tokens: seq<string>)
    requires StepOk(s, c, s', reply) && Epochs(s, key, tokens) && (BeginsAt(c, key) ==> c.op.owner == "")
    ensures Epochs(s', key, tokens + GivenBy(c, reply, key))
  {
    hide ShardIndex, Idem.Epochs, ClaimOk, QuotaOk, RateOk, EntriesOk, ShardPurged, Placed;
    if IsClaim(c.op) {
      ClaimStep(s, c, s', reply, key, tokens);
    } else {
      OthersKeep(s, c, s', reply);
      assert tokens + [] == tokens;
      FewerClaims(Claims(s, ShardIndex(key)), Claims(s', ShardIndex(key)), key, tokens);
    }
  }

  lemma {:induction false} EpochsRun(states: seq<State>, calls: seq<Call>, replies: seq<Reply>, key: string,
                                     tokens: seq<string>)
    requires Trace(states, calls, replies) && Epochs(states[0], key, tokens)
    requires forall i :: 0 <= i < |calls| && BeginsAt(calls[i], key) ==> calls[i].op.owner == ""
    ensures Epochs(states[|calls|], key, tokens + Given(calls, replies, key))
    decreases |calls|
  {
    hide StepOk, Epochs, GivenBy, BeginsAt;
    if calls == [] {
      assert tokens + [] == tokens;
    } else {
      var here := GivenBy(calls[0], replies[0], key);
      EpochsStep(states[0], calls[0], states[1], replies[0], key, tokens);
      EpochsRun(states[1..], calls[1..], replies[1..], key, tokens + here);
      assert tokens + here + Given(calls[1..], replies[1..], key) == tokens + Given(calls, replies, key);
    }
  }

  /** Fencing over every run of the store from one that has no claim of the key: where the server
      issues the key's tokens, those given out are pairwise different, and all but the last admit
      nothing any more. */
  lemma StoreFencing(states: seq<State>, calls: seq<Call>, replies: seq<Reply>, key: string)
    requires Trace(states, calls, replies)
    requires |states[0].shards| == NUM_SHARDS && key !in states[0].shards[ShardIndex(key)].claims
    requires forall i :: 0 <= i < |calls| && BeginsAt(calls[i], key) ==> calls[i].op.owner == ""
    ensures |states[|calls|].shards| == NUM_SHARDS
    ensures var s, tokens := Claims(states[|calls|], ShardIndex(key)), Given(calls, replies, key);
            Distinct(tokens) && forall i :: 0 <= i < |tokens| - 1 ==> Idem.Fenced(s, key, tokens[i])
  {
    hide ShardIndex, StepOk, Given, Idem.Fenced, BeginsAt;
    EpochsRun(states, calls, replies, key, []);
    var s, tokens := Claims(states[|calls|], ShardIndex(key)), Given(calls, replies, key);
    assert [] + tokens == tokens;
    forall i | 0 <= i < |tokens| - 1 ensures Idem.Fenced(s, key, tokens[i]) {
      Idem.StaleToken(s, key, tokens, i);
    }
  }

  // ----- the rate limiter -----

  /** The calls that reach the key's record, and the verdicts they were given. */
  predicate HitsAt(c: Call, key: string) {
    c.op.RateLimit? && c.op.key == key && c.op.limit != 0 && c.op.window != 0
  }

  function Hits(calls: seq<Call>, key: string): seq<Rate.Event> {
    if calls == [] then []
    else
      var c := calls[0];
      (if HitsAt(c, key) then [Rate.Call(c.op.limit, c.op.cost, c.now)] else []) + Hits(calls[1..], key)
  }

  function Verdicts(calls: seq<Call>, replies: seq<Reply>, key: string): seq<Option<Rate.Reply>>
    requires |calls| == |replies|
  {
    if calls == [] then []
    else
      (if HitsAt(calls[0], key) && replies[0].OfRate? then [replies[0].verdict] else [])
        + Verdicts(calls[1..], replies[1..], key)
  }

  /** One window per key, and room in 64 bits. */
  predicate Fits(c: Call, key: string, window: nat, limit: nat, cost: nat) {
    HitsAt(c, key) ==>
      c.op.window == window && Rate.RoomFor(Rate.Call(c.op.limit, c.op.cost, c.now), limit, cost, window)
  }

  predicate InOrder(calls: seq<Call>, since: nat) {
    && (forall i :: 0 <= i < |calls| ==> since <= calls[i].now)
    && (forall i, j :: 0 <= i < j < |calls| ==> calls[i].now <= calls[j].now)
  }

  function RecordOf(s: State, key: string): Option<RateRecord>
    requires |s.shards| == NUM_SHARDS
  {
    Find(s.shards[ShardIndex(key)].rates, key)
  }

  lemma HitStep(s: State, c: Call, s': State, reply: Reply, key: string)
    requires StepOk(s, c, s', reply) && HitsAt(c, key)
    ensures |s.shards| == |s'.shards| == NUM_SHARDS
    ensures var (r, verdict) := Rate.Hit64(RecordOf(s, key), c.op.limit, c.op.window, c.op.cost, c.now);
            RecordOf(s', key) == Some(r) && reply == OfRate(Some(verdict))
  {
    hide ShardIndex, Rate.Hit64;
  }

  lemma QuietStep(s: State, c: Call, s': State, reply: Reply, key: string)
    requires StepOk(s, c, s', reply) && !HitsAt(c, key)
    ensures |s.shards| == |s'.shards| == NUM_SHARDS
    ensures || RecordOf(s', key) == RecordOf(s, key)
            || (c.op.Purge? && RecordOf(s', key) == Rate.Purged(RecordOf(s, key), c.now))
  {
    hide ShardIndex, Rate.Hit64, ClaimOk, QuotaOk, EntriesOk, ShardPurged;
    if IsClaim(c.op) {
      OnlyItsClaims(s, c, s', reply);
    } else {
      OthersKeep(s, c, s', reply);
    }
  }

  lemma {:induction false} RateRun(states: seq<State>, calls: seq<Call>, replies: seq<Reply>, key: string,
                                   log: seq<Rate.Admission>, window: nat, t: nat, limit: nat, cost: nat)
    requires Trace(states, calls, replies) && InOrder(calls, t)
    requires window > 0 && limit + cost + 1 < U64
    requires forall i :: 0 <= i < |calls| ==> Fits(calls[i], key, window, limit, cost)
    requires |states[0].shards| == NUM_SHARDS && Rate.Represents(RecordOf(states[0], key), log, window, t)
    requires Rate.WithinLimit(log, limit, window, t)
    ensures Verdicts(calls, replies, key) == Somes(Rate.LogReplies(log, window, Hits(calls, key)))
    decreases |calls|
  {
    hide StepOk, RecordOf, Rate.Represents, Rate.WithinLimit, Rate.Hit, Rate.Hit64, Rate.LogHit, Rate.Weighted;
    hide Rate.Refresh;
    if calls != [] {
      var c, record := calls[0], RecordOf(states[0], key);
      assert Fits(c, key, window, limit, cost);
      if HitsAt(c, key) {
        HitStep(states[0], c, states[1], replies[0], key);
        Rate.MachineHit(record, log, window, t, limit, cost, c.op.limit, c.op.cost, c.now);
        var (log', reply) := Rate.LogHit(log, c.op.limit, window, c.op.cost, c.now);
        RateRun(states[1..], calls[1..], replies[1..], key, log', window, c.now, limit, cost);
        assert Hits(calls, key)[1..] == Hits(calls[1..], key);
      } else {
        QuietStep(states[0], c, states[1], replies[0], key);
        assert Hits(calls, key) == Hits(calls[1..], key);
        assert Verdicts(calls, replies, key) == Verdicts(calls[1..], replies[1..], key);
        if RecordOf(states[1], key) == record {
          RateRun(states[1..], calls[1..], replies[1..], key, log, window, t, limit, cost);
        } else {
          Rate.PurgeRepresents(record, log, window, t, c.now);
          Rate.WaitWithinLimit(log, limit, window, t, c.now);
          RateRun(states[1..], calls[1..], replies[1..], key, log, window, c.now, limit, cost);
        }
      }
    }
  }

  function Somes<T>(s: seq<T>): seq<Option<T>> {
    if s == [] then [] else [Some(s[0])] + Somes(s[1..])
  }

  /** Over every run of the store from one that has no record of the key, with one window for the
      key, time that does not go back and sums that fit 64 bits: the verdicts are those of a limiter
      that keeps every admission, whatever else is called and purged between. Every call is allowed
      exactly when the sliding window has room for it, and told how much is left or when to come back. */
  lemma StoreVerdicts(states: seq<State>, calls: seq<Call>, replies: seq<Reply>, key: string, window: nat, limit: nat,
                      cost: nat)
    requires Trace(states, calls, replies) && InOrder(calls, 0)
    requires window > 0 && limit + cost + 1 < U64
    requires forall i :: 0 <= i < |calls| ==> Fits(calls[i], key, window, limit, cost)
    requires |states[0].shards| == NUM_SHARDS && RecordOf(states[0], key) == None
    ensures Verdicts(calls, replies, key) == Somes(Rate.LogReplies([], window, Hits(calls, key)))
    ensures RateRules.Judges(Hits(calls, key), Values(Verdicts(calls, replies, key)), window)
  {
    hide Trace, RecordOf, Verdicts, Hits, Rate.LogReplies, Fits, RateRules.Judges;
    Rate.NothingAdmitted(limit, window);
    RateRun(states, calls, replies, key, [], window, 0, limit, cost);
    ValuesOfSomes(Rate.LogReplies([], window, Hits(calls, key)));
    AllHits(calls, key);
    RateRules.LogJudges(window, Hits(calls, key));
  }

  /** The verdicts that were given. */
  function Values<T>(s: seq<Option<T>>): seq<T> {
    if s == [] then [] else (if s[0].Some? then [s[0].value] else []) + Values(s[1..])
  }

  lemma {:induction false} ValuesOfSomes<T>(s: seq<T>)
    ensures Values(Somes(s)) == s
  {
    if s != [] { ValuesOfSomes(s[1..]); }
  }

  lemma {:induction false} AllHits(calls: seq<Call>, key: string)
    ensures forall i :: 0 <= i < |Hits(calls, key)| ==> Hits(calls, key)[i].Call?
  {
    if calls != [] { AllHits(calls[1..], key); }
  }
}
