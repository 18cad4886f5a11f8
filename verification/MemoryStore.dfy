/** The in-memory store: 64 shards of four tables, updated in place. */
module MemoryStores {
  import opened Options
  import opened Sequences
  import opened Records
  import opened Decimal
  import Glob
  import KV = KeyValue
  import Quota
  import opened Purges
  import Rate = RateLimit
  import Idempotency

  // ----- sharding -----

  /** Every entry, and every reservation on it, is in the shard the key selects. */
  ghost predicate Placed(shards: seq<Shard>) {
    && |shards| == NUM_SHARDS
    && (forall i, k :: 0 <= i < |shards| && k in shards[i].entries ==> ShardIndex(k) == i)
    && (forall i, id :: 0 <= i < |shards| && id in shards[i].reservations ==>
        ShardIndex(shards[i].reservations[id].key) == i)
  }

  /** All entries of the store as one map. */
  ghost function Union(shards: seq<Shard>): map<string, Entry> {
    if shards == [] then map[] else shards[0].entries + Union(shards[1..])
  }

  lemma {:induction false} UnionHas(shards: seq<Shard>, k: string)
    ensures k in Union(shards) <==> exists i :: 0 <= i < |shards| && k in shards[i].entries
    ensures k in Union(shards) ==>
              exists i :: 0 <= i < |shards| && k in shards[i].entries && Union(shards)[k] == shards[i].entries[k]
  {
    if shards != [] {
      UnionHas(shards[1..], k);
      assert forall i :: 1 <= i < |shards| ==> shards[i] == shards[1..][i - 1];
    }
  }

  lemma UnionOfFirst(shards: seq<Shard>, n: nat, k: string)
    requires Placed(shards) && n <= NUM_SHARDS
    ensures k in Union(shards[..n]) <==> ShardIndex(k) < n && k in shards[ShardIndex(k)].entries
    ensures k in Union(shards[..n]) ==> Union(shards[..n])[k] == shards[ShardIndex(k)].entries[k]
  {
    hide ShardIndex, Union;
    UnionHas(shards[..n], k);
    if ShardIndex(k) < n { assert shards[..n][ShardIndex(k)] == shards[ShardIndex(k)]; }
  }

  lemma UnionAt(shards: seq<Shard>, k: string)
    requires Placed(shards)
    ensures k in Union(shards) <==> k in shards[ShardIndex(k)].entries
    ensures k in Union(shards) ==> Union(shards)[k] == shards[ShardIndex(k)].entries[k]
  {
    hide ShardIndex, Union;
    assert shards[..NUM_SHARDS] == shards;
    UnionOfFirst(shards, NUM_SHARDS, k);
  }

  /** An operation on a key that behaves on the key's shard behaves on the whole store. */
  lemma Lift(before: seq<Shard>, after: seq<Shard>, op: KV.Op, now: nat, reply: KV.Reply)
    requires Placed(before) && |after| == NUM_SHARDS && !op.DbSize? && !op.Keys?
    requires var i := ShardIndex(op.key);
             && after == before[i := before[i].(entries := after[i].entries)]
             && KV.Behaves(before[i].entries, op, now, after[i].entries, reply)
             && (forall k :: k in after[i].entries ==> k == op.key || k in before[i].entries)
    ensures Placed(after) && KV.Behaves(Union(before), op, now, Union(after), reply)
  {
    hide ShardIndex, Union, KV.OnCell, KV.Live, KV.Put;
    var i := ShardIndex(op.key);
    assert Placed(after);
    LiveAt(before, op.key, now);
    var cell := KV.Lasting(KV.OnCell(KV.Lookup(KV.Live(before[i].entries, now), op.key), op, now).0, now);
    var seen, ideal := KV.Live(Union(after), now), KV.Put(KV.Live(Union(before), now), op.key, cell);
    forall k ensures KV.Lookup(seen, k) == KV.Lookup(ideal, k) {
      LiveAt(before, k, now);
      LiveAt(after, k, now);
      PutAt(KV.Live(before[i].entries, now), KV.Live(Union(before), now), op.key, cell, k);
    }
    SameLookups(seen, ideal);
  }

  /** What is live under a key is live in its shard. */
  lemma LiveAt(shards: seq<Shard>, k: string, now: nat)
    requires Placed(shards)
    ensures KV.Lookup(KV.Live(Union(shards), now), k) == KV.Lookup(KV.Live(shards[ShardIndex(k)].entries, now), k)
  {
    hide ShardIndex, Union;
    UnionAt(shards, k);
  }

  lemma PutAt(a: KV.Entries, b: KV.Entries, key: string, cell: Option<Entry>, k: string)
    ensures k != key ==> KV.Lookup(KV.Put(a, key, cell), k) == KV.Lookup(a, k)
    ensures k != key ==> KV.Lookup(KV.Put(b, key, cell), k) == KV.Lookup(b, k)
    ensures KV.Lookup(KV.Put(a, key, cell), key) == KV.Lookup(KV.Put(b, key, cell), key)
  {
  }

  lemma SameLookups(a: map<string, Entry>, b: map<string, Entry>)
    requires forall k :: KV.Lookup(a, k) == KV.Lookup(b, k)
    ensures a == b
  {
    forall k ensures k in a <==> k in b { assert KV.Lookup(a, k) == KV.Lookup(b, k); }
    forall k | k in a ensures a[k] == b[k] { assert KV.Lookup(a, k) == KV.Lookup(b, k); }
  }

  /** The shards after an operation on one key. */
  ghost predicate ServedIn(before: seq<Shard>, op: KV.Op, now: nat, after: seq<Shard>, reply: KV.Reply)
    requires |before| == NUM_SHARDS && !op.DbSize? && !op.Keys?
  {
    var i := ShardIndex(op.key);
    && |after| == NUM_SHARDS
    && after[i] == before[i].(entries := KV.Served(before[i].entries, op, now))
    && (forall j :: 0 <= j < NUM_SHARDS && j != i ==> after[j] == before[j])
    && reply == KV.OnCell(KV.LiveCell(before[i].entries, op.key, now), op, now).1
  }

  lemma ServedLifts(before: seq<Shard>, op: KV.Op, now: nat, after: seq<Shard>, reply: KV.Reply)
    requires Placed(before) && !op.DbSize? && !op.Keys? && ServedIn(before, op, now, after, reply)
    ensures Placed(after) && KV.Behaves(Union(before), op, now, Union(after), reply)
    ensures SameOtherTables(before, after)
  {
    hide ShardIndex, Union, KV.OnCell, KV.Behaves;
    KV.ServedBehaves(before[ShardIndex(op.key)].entries, op, now);
    Lift(before, after, op, now, reply);
  }

  function Find<T>(table: map<string, T>, key: string): Option<T> {
    if key in table then Some(table[key]) else None
  }

  class MemoryStore {
    var shards: seq<Shard>
    var nextReservation: nat
    var nextClaim: nat

    ghost predicate Valid()
      reads this
    {
      Placed(shards)
    }

    constructor ()
      ensures Valid() && Union(shards) == map[] && nextReservation == 1 && nextClaim == 1
      ensures forall i :: 0 <= i < |shards| ==> shards[i] == Shard(map[], map[], map[], map[])
    {
      shards := seq(NUM_SHARDS, _ => Shard(map[], map[], map[], map[]));
      nextReservation, nextClaim := 1, 1;
      new;
      forall k ensures k !in Union(shards) { UnionAt(shards, k); }
      SameLookups(Union(shards), map[]);
    }

    /** Find, and erase what turns out to be expired. */
    method Touch(key: string, now: nat) returns (cell: Option<Entry>)
      requires |shards| == NUM_SHARDS
      modifies this`shards
      ensures var i := ShardIndex(key);
              && shards == old(shards)[i := old(shards)[i].(entries := KV.Forget(old(shards)[i].entries, key, now))]
              && cell == KV.LiveCell(old(shards)[i].entries, key, now)
    {
      hide ShardIndex;
      var i := ShardIndex(key);
      var entries := shards[i].entries;
      if key !in entries { return None; }
      if Expired(entries[key].expireAt, now) {
        shards := shards[i := shards[i].(entries := entries - {key})];
        return None;
      }
      return Some(entries[key]);
    }

    method Write(key: string, entry: Entry)
      requires |shards| == NUM_SHARDS
      modifies this`shards
      ensures var i := ShardIndex(key);
              shards == old(shards)[i := old(shards)[i].(entries := old(shards)[i].entries[key := entry])]
    {
      hide ShardIndex;
      var i := ShardIndex(key);
      shards := shards[i := shards[i].(entries := shards[i].entries[key := entry])];
    }

    method Remove(key: string)
      requires |shards| == NUM_SHARDS
      modifies this`shards
      ensures var i := ShardIndex(key);
              shards == old(shards)[i := old(shards)[i].(entries := old(shards)[i].entries - {key})]
    {
      hide ShardIndex;
      var i := ShardIndex(key);
      shards := shards[i := shards[i].(entries := shards[i].entries - {key})];
    }

    method Set(key: string, value: string, condition: KV.Condition, ttl: nat, now: nat) returns (stored: bool)
      requires Valid()
      modifies this`shards
      ensures Valid()
      ensures KV.Behaves(Union(old(shards)), KV.Set(key, value, condition, ttl), now, Union(shards), KV.Flag(stored))
      ensures SameOtherTables(old(shards), shards)
    {
      hide ShardIndex, Union, KV.Behaves;
      KV.PutBack(shards[ShardIndex(key)].entries, key, now);
      var existing := Touch(key, now);
      if condition.IfAbsent? && existing.Some? {
        stored := false;
      } else if condition.IfPresent? && existing.None? {
        stored := false;
      } else {
        stored := true;
        if existing.None? {
          Write(key, Entry(value, StringType, now, Deadline(now, ttl)));
        } else {
          Write(key, existing.value.(value := value, kind := StringType, expireAt := Deadline(now, ttl)));
        }
      }
      ServedLifts(old(shards), KV.Set(key, value, condition, ttl), now, shards, KV.Flag(stored));
    }

    method Get(key: string, now: nat) returns (value: Option<string>)
      requires Valid()
      modifies this`shards
      ensures Valid()
      ensures KV.Behaves(Union(old(shards)), KV.Get(key), now, Union(shards), KV.Value(value))
      ensures SameOtherTables(old(shards), shards)
    {
      hide ShardIndex, Union, KV.Behaves;
      KV.PutBack(shards[ShardIndex(key)].entries, key, now);
      var existing := Touch(key, now);
      value := if existing.None? then None else Some(existing.value.value);
      ServedLifts(old(shards), KV.Get(key), now, shards, KV.Value(value));
    }

    method Exists(key: string, now: nat) returns (found: bool)
      requires Valid()
      modifies this`shards
      ensures Valid()
      ensures KV.Behaves(Union(old(shards)), KV.Exists(key), now, Union(shards), KV.Flag(found))
      ensures SameOtherTables(old(shards), shards)
    {
      hide ShardIndex, Union, KV.Behaves;
      KV.PutBack(shards[ShardIndex(key)].entries, key, now);
      var existing := Touch(key, now);
      found := existing.Some?;
      ServedLifts(old(shards), KV.Exists(key), now, shards, KV.Flag(found));
    }

    method Type(key: string, now: nat) returns (kind: DataType)
      requires Valid()
      modifies this`shards
      ensures Valid()
      ensures KV.Behaves(Union(old(shards)), KV.TypeOf(key), now, Union(shards), KV.Kind(kind))
      ensures SameOtherTables(old(shards), shards)
    {
      hide ShardIndex, Union, KV.Behaves;
      KV.PutBack(shards[ShardIndex(key)].entries, key, now);
      var existing := Touch(key, now);
      kind := if existing.None? then NoType else existing.value.kind;
      ServedLifts(old(shards), KV.TypeOf(key), now, shards, KV.Kind(kind));
    }

    method Expire(key: string, ttl: nat, now: nat) returns (done: bool)
      requires Valid()
      modifies this`shards
      ensures Valid()
      ensures KV.Behaves(Union(old(shards)), KV.Expire(key, ttl), now, Union(shards), KV.Flag(done))
      ensures SameOtherTables(old(shards), shards)
    {
      hide ShardIndex, Union, KV.Behaves;
      KV.PutBack(shards[ShardIndex(key)].entries, key, now);
      var existing := Touch(key, now);
      if existing.None? {
        done := false;
      } else {
        done := true;
        if ttl == 0 {
          Remove(key);
        } else {
          Write(key, existing.value.(expireAt := Deadline(now, ttl)));
        }
      }
      ServedLifts(old(shards), KV.Expire(key, ttl), now, shards, KV.Flag(done));
    }

    method Ttl(key: string, now: nat) returns (seconds: int)
      requires Valid()
      modifies this`shards
      ensures Valid()
      ensures KV.Behaves(Union(old(shards)), KV.Ttl(key), now, Union(shards), KV.Number(seconds))
      ensures SameOtherTables(old(shards), shards)
    {
      hide ShardIndex, Union, KV.Behaves;
      KV.PutBack(shards[ShardIndex(key)].entries, key, now);
      var existing := Touch(key, now);
      if existing.None? {
        seconds := -2;
      } else if existing.value.expireAt == 0 {
        seconds := -1;
      } else {
        seconds := Wrap(Wrap(existing.value.expireAt - now) + 999) / 1000;
      }
      ServedLifts(old(shards), KV.Ttl(key), now, shards, KV.Number(seconds));
    }

    method Pttl(key: string, now: nat) returns (millis: int)
      requires Valid()
      modifies this`shards
      ensures Valid()
      ensures KV.Behaves(Union(old(shards)), KV.Pttl(key), now, Union(shards), KV.Number(millis))
      ensures SameOtherTables(old(shards), shards)
    {
      hide ShardIndex, Union, KV.Behaves;
      KV.PutBack(shards[ShardIndex(key)].entries, key, now);
      var existing := Touch(key, now);
      if existing.None? {
        millis := -2;
      } else if existing.value.expireAt == 0 {
        millis := -1;
      } else {
        millis := Signed(Wrap(existing.value.expireAt - now));
      }
      ServedLifts(old(shards), KV.Pttl(key), now, shards, KV.Number(millis));
    }

    method Persist(key: string, now: nat) returns (done: bool)
      requires Valid()
      modifies this`shards
      ensures Valid()
      ensures KV.Behaves(Union(old(shards)), KV.Persist(key), now, Union(shards), KV.Flag(done))
      ensures SameOtherTables(old(shards), shards)
    {
      hide ShardIndex, Union, KV.Behaves;
      KV.PutBack(shards[ShardIndex(key)].entries, key, now);
      var existing := Touch(key, now);
      if existing.None? || existing.value.expireAt == 0 {
        done := false;
      } else {
        done := true;
        Write(key, existing.value.(expireAt := 0));
      }
      ServedLifts(old(shards), KV.Persist(key), now, shards, KV.Flag(done));
    }

    method IncrBy(key: string, delta: int, ttl: nat, now: nat) returns (reply: KV.Reply)
      requires Valid() && I64_MIN <= delta <= I64_MAX
      modifies this`shards
      ensures Valid()
      ensures KV.Behaves(Union(old(shards)), KV.IncrBy(key, delta, ttl), now, Union(shards), reply)
      ensures SameOtherTables(old(shards), shards)
    {
      hide ShardIndex, Union, KV.Behaves;
      KV.PutBack(shards[ShardIndex(key)].entries, key, now);
      var existing := Touch(key, now);
      if existing.None? {
        Write(key, Entry(IntText(delta), StringType, now, Deadline(now, ttl)));
        reply := KV.Number(delta);
      } else if !existing.value.kind.StringType? {
        reply := KV.WrongType;
      } else {
        var parsed := Stoll(existing.value.value);
        if parsed.None? || parsed.value.end != |existing.value.value| {
          reply := KV.NotAnInteger;
        } else {
          var current := parsed.value.value;
          if (delta > 0 && current > I64_MAX - delta) || (delta < 0 && current < I64_MIN - delta) {
            reply := KV.Overflow;
          } else {
            Write(key, existing.value.(value := IntText(current + delta)));
            reply := KV.Number(current + delta);
          }
        }
      }
      ServedLifts(old(shards), KV.IncrBy(key, delta, ttl), now, shards, reply);
    }

    // ----- rate limiting -----

    /** None where the arguments are refused. */
    method RateLimit(key: string, limit: nat, window: nat, cost: nat, now: nat) returns (reply: Option<Rate.Reply>)
      requires Valid()
      modifies this`shards
      ensures Valid()
      ensures reply.None? <==> limit == 0 || window == 0
      ensures reply.None? ==> shards == old(shards)
      ensures reply.Some? ==>
                var i := ShardIndex(key);
                var (r, expected) := Rate.Hit64(Find(old(shards)[i].rates, key), limit, window, cost, now);
                && reply.value == expected
                && shards == old(shards)[i := old(shards)[i].(rates := old(shards)[i].rates[key := r])]
    {
      hide ShardIndex, Rate.Kept, Wrap;
      if limit == 0 || window == 0 { return None; }
      var cost' := if cost == 0 then 1 else cost;
      var i := ShardIndex(key);
      var index, elapsed := now / window, now % window;
      var record := RateRecord(index, 0, 0, window, Wrap((index + 2) * window));
      if key in shards[i].rates {
        var r := shards[i].rates[key];
        if !Expired(r.expireAt, now) && r.window == window {
          if index - r.index == 1 {
            record := record.(previous := r.current);
          } else if index == r.index {
            record := r;
          }
        }
      }
      assert record == Rate.Refresh64(Find(shards[i].rates, key), window, now);
      hide Rate.Refresh64;
      var estimate := Wrap(Rate.Kept(record.previous, window, elapsed) + record.current);
      if Wrap(estimate + cost') <= limit {
        record := record.(current := Wrap(record.current + cost'));
        reply := Some(Rate.Allowed(limit - Wrap(estimate + cost')));
      } else {
        var left := if limit >= estimate then limit - estimate else 0;
        reply := Some(Rate.Denied(left, window - elapsed));
      }
      assert Rate.Hit64(Find(shards[i].rates, key), limit, window, cost, now) == (record, reply.value);
      hide Rate.Hit64, Rate.Weighted;
      shards := shards[i := shards[i].(rates := shards[i].rates[key := record])];
    }

    // ----- quota -----

    ghost function Quotas(i: nat): Quota.Quotas
      reads this
      requires i < |shards|
    {
      Quota.Quotas(shards[i].entries, shards[i].reservations, nextReservation)
    }

    ghost predicate OnlyQuota(before: seq<Shard>, i: nat)
      reads this
      requires |before| == NUM_SHARDS && i < NUM_SHARDS
    {
      && |shards| == NUM_SHARDS
      && shards[i] == before[i].(entries := shards[i].entries, reservations := shards[i].reservations)
      && forall j :: 0 <= j < NUM_SHARDS && j != i ==> shards[j] == before[j]
    }

    method ReserveQuota(key: string, amount: nat, ttl: nat, now: nat) returns (reply: Quota.ReserveReply)
      requires Valid()
      modifies this`shards, this`nextReservation
      ensures Valid() && OnlyQuota(old(shards), ShardIndex(key))
      ensures (Quotas(ShardIndex(key)), reply) == Quota.Reserve(old(Quotas(ShardIndex(key))), key, amount, ttl, now)
    {
      hide ShardIndex, Stoull, Text;
      if amount == 0 || ttl == 0 { return Quota.BadArguments; }
      var existing := Touch(key, now);
      if existing.None? { return Quota.NoPool; }
      var parsed := Stoull(existing.value.value);
      if parsed.None? || parsed.value.end != |existing.value.value| { return Quota.NotInteger; }
      var balance := parsed.value.value;
      if balance < amount { return Quota.Insufficient(balance); }
      balance := balance - amount;
      var i := ShardIndex(key);
      var id := Quota.ReservationId(now, nextReservation);
      nextReservation := nextReservation + 1;
      shards := shards[i := shards[i].(
        entries := shards[i].entries[key := existing.value.(value := Text(balance))],
        reservations := shards[i].reservations[id := Reservation(key, amount, now, Deadline(now, ttl))])];
      reply := Quota.Reserved(id, balance);
    }

    method CommitQuota(key: string, id: string, actual: nat, now: nat) returns (reply: Quota.CommitReply)
      requires Valid()
      modifies this`shards
      ensures Valid() && OnlyQuota(old(shards), ShardIndex(key))
      ensures (Quotas(ShardIndex(key)), reply) == Quota.Commit(old(Quotas(ShardIndex(key))), key, id, actual, now)
    {
      hide ShardIndex, Stoull, Text;
      var i := ShardIndex(key);
      var entries, reservations := shards[i].entries, shards[i].reservations;
      if id !in reservations || reservations[id].key != key { return Quota.NoReservation; }
      var res := reservations[id];
      reservations := reservations - {id};
      if Expired(res.expireAt, now) {
        if key in entries {
          var b := Stoull(entries[key].value);
          var refunded := if b.None? then res.amount else Wrap(b.value.value + res.amount);
          entries := entries[key := entries[key].(value := Text(refunded))];
        }
        shards := shards[i := shards[i].(entries := entries, reservations := reservations)];
        return Quota.CommitExpired;
      }
      var balance: nat := 0;
      if key in entries { balance := Quota.LooseBalance(entries[key].value); }
      var refunded := 0;
      if actual <= res.amount {
        refunded := res.amount - actual;
        balance := Wrap(balance + refunded);
      } else {
        var extra := actual - res.amount;
        balance := if balance >= extra then balance - extra else 0;
      }
      entries := entries[key := if key in entries then entries[key].(value := Text(balance))
                                else Entry(Text(balance), StringType, now, 0)];
      shards := shards[i := shards[i].(entries := entries, reservations := reservations)];
      reply := Quota.Committed(actual, refunded, balance);
    }

    method RollbackQuota(key: string, id: string, now: nat) returns (reply: Quota.RollbackReply)
      requires Valid()
      modifies this`shards
      ensures Valid() && OnlyQuota(old(shards), ShardIndex(key))
      ensures (Quotas(ShardIndex(key)), reply) == Quota.Rollback(old(Quotas(ShardIndex(key))), key, id, now)
    {
      hide ShardIndex, Stoull, Text;
      var i := ShardIndex(key);
      var entries, reservations := shards[i].entries, shards[i].reservations;
      if id !in reservations || reservations[id].key != key { return Quota.NothingToRollBack; }
      var res := reservations[id];
      reservations := reservations - {id};
      var balance: nat := 0;
      if key in entries { balance := Quota.LooseBalance(entries[key].value); }
      if !Expired(res.expireAt, now) {
        balance := Wrap(balance + res.amount);
        entries := entries[key := if key in entries then entries[key].(value := Text(balance))
                                  else Entry(Text(balance), StringType, now, 0)];
      }
      shards := shards[i := shards[i].(entries := entries, reservations := reservations)];
      reply := Quota.RolledBack(res.amount, balance);
    }

    // ----- idempotency -----

    ghost function Claims(i: nat): Idempotency.Claims
      reads this
      requires i < |shards|
    {
      Idempotency.Claims(shards[i].claims, nextClaim)
    }

    ghost predicate OnlyClaims(before: seq<Shard>, i: nat)
      reads this
      requires |before| == NUM_SHARDS && i < NUM_SHARDS
    {
      && |shards| == NUM_SHARDS
      && shards[i] == before[i].(claims := shards[i].claims)
      && forall j :: 0 <= j < NUM_SHARDS && j != i ==> shards[j] == before[j]
    }

    /** Find a record, erasing it if it has expired. */
    method TouchClaim(key: string, now: nat) returns (record: Option<IdemRecord>)
      requires Valid()
      modifies this`shards
      ensures Valid() && OnlyClaims(old(shards), ShardIndex(key))
      ensures Claims(ShardIndex(key)) == Idempotency.Forget(old(Claims(ShardIndex(key))), key, now)
      ensures record == Find(shards[ShardIndex(key)].claims, key)
    {
      hide ShardIndex;
      var i := ShardIndex(key);
      if key in shards[i].claims && Expired(shards[i].claims[key].expireAt, now) {
        shards := shards[i := shards[i].(claims := shards[i].claims - {key})];
      }
      record := if key in shards[i].claims then Some(shards[i].claims[key]) else None;
    }

    method PutClaim(key: string, record: IdemRecord)
      requires Valid()
      modifies this`shards
      ensures Valid() && OnlyClaims(old(shards), ShardIndex(key))
      ensures shards[ShardIndex(key)].claims == old(shards)[ShardIndex(key)].claims[key := record]
    {
      hide ShardIndex;
      var i := ShardIndex(key);
      shards := shards[i := shards[i].(claims := shards[i].claims[key := record])];
    }

    method IdemBegin(key: string, hash: string, ttl: nat, owner: string, now: nat)
      returns (reply: Idempotency.BeginReply)
      requires Valid()
      modifies this`shards, this`nextClaim
      ensures Valid() && OnlyClaims(old(shards), ShardIndex(key))
      ensures (Claims(ShardIndex(key)), reply)
              == Idempotency.Begin(old(Claims(ShardIndex(key))), key, hash, ttl, owner, now)
    {
      hide ShardIndex, Idempotency.Token;
      var record := TouchClaim(key, now);
      if record.Some? {
        var r := record.value;
        if r.requestHash != hash { return Idempotency.Conflict; }
        if r.status.InProgress? {
          return if owner != "" && r.token == owner then Idempotency.Execute(r.token) else Idempotency.Park(r.token);
        }
        if r.status.Completed? { return Idempotency.Replay(r.token, r.code, r.body); }
      }
      var token := owner;
      if owner == "" {
        token := Idempotency.Token(now, nextClaim);
        nextClaim := nextClaim + 1;
      }
      PutClaim(key, IdemRecord(hash, InProgress, 0, "", token, now, Deadline(now, ttl)));
      reply := Idempotency.Execute(token);
    }

    method IdemComplete(key: string, owner: string, code: int, body: string, now: nat)
      returns (reply: Idempotency.CloseReply)
      requires Valid()
      modifies this`shards
      ensures Valid() && OnlyClaims(old(shards), ShardIndex(key))
      ensures (Claims(ShardIndex(key)), reply)
              == Idempotency.Complete(old(Claims(ShardIndex(key))), key, owner, code, body, now)
    {
      hide ShardIndex;
      if key !in shards[ShardIndex(key)].claims { return Idempotency.NotFound; }
      var record := TouchClaim(key, now);
      if record.None? { return Idempotency.TooLate; }
      if owner != "" && record.value.token != owner { return Idempotency.TokenMismatch; }
      if record.value.status.Completed? { return Idempotency.Done; }
      PutClaim(key, record.value.(status := Completed, code := code, body := body));
      reply := Idempotency.Done;
    }

    method IdemFail(key: string, owner: string, message: string, now: nat) returns (reply: Idempotency.CloseReply)
      requires Valid()
      modifies this`shards
      ensures Valid() && OnlyClaims(old(shards), ShardIndex(key))
      ensures (Claims(ShardIndex(key)), reply)
              == Idempotency.Fail(old(Claims(ShardIndex(key))), key, owner, message, now)
    {
      hide ShardIndex;
      if key !in shards[ShardIndex(key)].claims { return Idempotency.NotFound; }
      var record := TouchClaim(key, now);
      if record.None? { return Idempotency.TooLate; }
      if owner != "" && record.value.token != owner { return Idempotency.TokenMismatch; }
      PutClaim(key, record.value.(status := Failed, body := message));
      reply := Idempotency.Done;
    }

    /** The active purge of every shard; returns how many records went. */
    method PurgeExpired(limit: nat, now: nat) returns (purged: nat)
      requires Valid()
      modifies this`shards
      ensures Valid() && TotalExpired(shards, now) + purged == TotalExpired(old(shards), now)
      ensures purged == TotalSampled(old(shards), limit, now)
      ensures limit >= 1 && purged == 0 ==> TotalExpired(shards, now) == 0
      ensures forall i :: 0 <= i < NUM_SHARDS ==> ShardPurged(old(shards)[i], nextReservation, now, shards[i])
      ensures (forall i :: 0 <= i < NUM_SHARDS ==> old(shards)[i].reservations == map[]) ==>
                Dropped(Union(old(shards)), EntryDeadline(), now, Union(shards))
    {
      hide ShardIndex, Union, ShardPurged, ExpiredCount, SampleCount;
      purged := 0;
      for i := 0 to NUM_SHARDS
        invariant |shards| == NUM_SHARDS
        invariant forall j :: i <= j < NUM_SHARDS ==> shards[j] == old(shards)[j]
        invariant forall j :: 0 <= j < i ==> ShardPurged(old(shards)[j], nextReservation, now, shards[j])
        invariant TotalExpired(shards[..i], now) + purged == TotalExpired(old(shards)[..i], now)
        invariant purged == TotalSampled(old(shards)[..i], limit, now)
        invariant limit >= 1 && purged == 0 ==> TotalExpired(old(shards)[..i], now) == 0
      {
        var after, count := PurgeShard(shards[i], nextReservation, limit, now);
        TotalNext(old(shards), i, now);
        SampledNext(old(shards), i, limit, now);
        ghost var before := shards[..i];
        shards := shards[i := after];
        assert shards[..i] == before;
        TotalNext(shards, i, now);
        purged := purged + count;
      }
      assert shards[..NUM_SHARDS] == shards && old(shards)[..NUM_SHARDS] == old(shards);
      PurgedStaysPlaced(old(shards), shards, nextReservation, now);
    }

    /** Deletion erases the raw entry, expired or not, and reports whether there was one. */
    method Del(key: string) returns (erased: bool)
      requires Valid()
      modifies this`shards
      ensures Valid() && Union(shards) == Union(old(shards)) - {key}
      ensures erased <==> key in Union(old(shards))
      ensures SameOtherTables(old(shards), shards)
    {
      hide ShardIndex, Union;
      erased := key in shards[ShardIndex(key)].entries;
      UnionAt(shards, key);
      Remove(key);
      forall k ensures KV.Lookup(Union(shards), k) == KV.Lookup(Union(old(shards)) - {key}, k) {
        UnionAt(old(shards), k);
        UnionAt(shards, k);
      }
      SameLookups(Union(shards), Union(old(shards)) - {key});
    }

    method DbSize(now: nat) returns (count: nat)
      requires Valid()
      ensures KV.Behaves(Union(shards), KV.DbSize, now, Union(shards), KV.Size(count))
    {
      hide ShardIndex, Union;
      count := 0;
      UnionNone(shards, now);
      for i := 0 to NUM_SHARDS
        invariant count == |KV.Live(Union(shards[..i]), now)|
      {
        var here := LiveIn(shards[i].entries, now);
        UnionNext(shards, i, now);
        count := count + here;
      }
      assert shards[..NUM_SHARDS] == shards;
    }

    method LiveIn(entries: map<string, Entry>, now: nat) returns (count: nat)
      ensures count == |KV.Live(entries, now)|
    {
      hide KV.Live;
      count := 0;
      var todo := entries.Keys;
      while todo != {}
        invariant todo <= entries.Keys && count == |LiveOf(entries, entries.Keys - todo, now)|
        decreases todo
      {
        var k :| k in todo;
        OneMoreLive(entries, entries.Keys - todo, k, now);
        assert entries.Keys - todo + {k} == entries.Keys - (todo - {k});
        if !Expired(entries[k].expireAt, now) { count := count + 1; }
        todo := todo - {k};
      }
      AllLive(entries, now);
      assert entries.Keys - todo == entries.Keys;
    }

    /** The unexpired keys the pattern matches, each once. */
    method Keys(pattern: string, now: nat) returns (matched: seq<string>)
      requires Valid()
      ensures Distinct(matched)
      ensures KV.Behaves(Union(shards), KV.Keys(pattern), now, Union(shards), KV.KeySet(set k | k in matched))
    {
      hide ShardIndex, Union, Glob.Matches, KV.Live;
      matched := [];
      UnionNone(shards, now);
      for i := 0 to NUM_SHARDS
        invariant Distinct(matched)
        invariant forall k :: k in matched <==> k in KV.Live(Union(shards[..i]), now) && Glob.Matches(pattern, k)
      {
        var here := MatchedIn(shards[i].entries, pattern, now);
        UnionNext(shards, i, now);
        AppendDistinct(matched, here);
        matched := matched + here;
      }
      assert shards[..NUM_SHARDS] == shards;
    }

    method MatchedIn(entries: map<string, Entry>, pattern: string, now: nat) returns (matched: seq<string>)
      ensures Distinct(matched)
      ensures forall k :: k in matched <==> k in KV.Live(entries, now) && Glob.Matches(pattern, k)
    {
      hide Glob.Matches, Glob.Means;
      matched := [];
      var todo := entries.Keys;
      while todo != {}
        invariant todo <= entries.Keys && Distinct(matched)
        invariant forall k :: k in matched <==> k in KV.Live(entries, now) && k !in todo && Glob.Matches(pattern, k)
        decreases todo
      {
        var k :| k in todo;
        if !Expired(entries[k].expireAt, now) {
          var matches := Glob.MatchPattern(pattern, k);
          if matches { matched := matched + [k]; }
        }
        todo := todo - {k};
      }
    }
  }

  /** The unexpired among some keys. */
  ghost function LiveOf(entries: map<string, Entry>, keys: set<string>, now: nat): set<string>
    requires keys <= entries.Keys
  {
    set k | k in keys && !Expired(entries[k].expireAt, now)
  }

  lemma OneMoreLive(entries: map<string, Entry>, keys: set<string>, k: string, now: nat)
    requires keys <= entries.Keys && k in entries && k !in keys
    ensures |LiveOf(entries, keys + {k}, now)|
            == |LiveOf(entries, keys, now)| + if Expired(entries[k].expireAt, now) then 0 else 1
  {
    if Expired(entries[k].expireAt, now) {
      assert LiveOf(entries, keys + {k}, now) == LiveOf(entries, keys, now);
    } else {
      assert LiveOf(entries, keys + {k}, now) == LiveOf(entries, keys, now) + {k};
    }
  }

  lemma AllLive(entries: map<string, Entry>, now: nat)
    ensures |KV.Live(entries, now)| == |LiveOf(entries, entries.Keys, now)|
  {
    assert KV.Live(entries, now).Keys == LiveOf(entries, entries.Keys, now);
  }

  lemma UnionNone(shards: seq<Shard>, now: nat)
    ensures KV.Live(Union(shards[..0]), now) == map[]
  {
  }

  /** Shards hold different keys, so what is live in the first i + 1 is what is live in the first i
      plus what is live in the next, without overlap. */
  lemma UnionNext(shards: seq<Shard>, i: nat, now: nat)
    requires Placed(shards) && i < |shards|
    ensures var before, after := KV.Live(Union(shards[..i]), now), KV.Live(Union(shards[..i + 1]), now);
            var here := KV.Live(shards[i].entries, now);
            && before.Keys !! here.Keys && after.Keys == before.Keys + here.Keys && |after| == |before| + |here|
            && forall k :: k in here ==> k !in before
  {
    hide ShardIndex, Union;
    var before, after := KV.Live(Union(shards[..i]), now), KV.Live(Union(shards[..i + 1]), now);
    var here := KV.Live(shards[i].entries, now);
    forall k ensures (k in after <==> k in before || k in here) && !(k in before && k in here) {
      UnionOfFirst(shards, i, k);
      UnionOfFirst(shards, i + 1, k);
    }
    assert after.Keys == before.Keys + here.Keys;
    assert |after.Keys| == |before.Keys| + |here.Keys|;
  }

  ghost function TotalExpired(shards: seq<Shard>, now: nat): nat {
    if shards == [] then 0 else TotalExpired(shards[..|shards| - 1], now) + ExpiredCount(shards[|shards| - 1], now)
  }

  lemma TotalNext(shards: seq<Shard>, i: nat, now: nat)
    requires i < |shards|
    ensures TotalExpired(shards[..i + 1], now) == TotalExpired(shards[..i], now) + ExpiredCount(shards[i], now)
  {
    assert shards[..i + 1][..i] == shards[..i];
  }

  ghost function TotalSampled(shards: seq<Shard>, limit: nat, now: nat): nat
    decreases |shards|
  {
    if shards == [] then 0
    else TotalSampled(shards[..|shards| - 1], limit, now) + SampleCount(shards[|shards| - 1], limit, now)
  }

  lemma SampledNext(shards: seq<Shard>, i: nat, limit: nat, now: nat)
    requires i < |shards|
    ensures TotalSampled(shards[..i + 1], limit, now)
            == TotalSampled(shards[..i], limit, now) + SampleCount(shards[i], limit, now)
  {
    assert shards[..i + 1][..i] == shards[..i];
  }

  lemma PurgedStaysPlaced(before: seq<Shard>, after: seq<Shard>, next: nat, now: nat)
    requires Placed(before) && |after| == NUM_SHARDS
    requires forall i :: 0 <= i < NUM_SHARDS ==> ShardPurged(before[i], next, now, after[i])
    ensures Placed(after)
    ensures (forall i :: 0 <= i < NUM_SHARDS ==> before[i].reservations == map[]) ==>
              Dropped(Union(before), EntryDeadline(), now, Union(after))
  {
    hide ShardIndex, Union, QuotasPurged;
    assert Placed(after);
    if forall i :: 0 <= i < NUM_SHARDS ==> before[i].reservations == map[] {
      forall k ensures (k in Union(after) ==> k in Union(before) && Union(after)[k] == Union(before)[k])
                    && (k in Union(before) ==> k in Union(after) || Expired(Union(before)[k].expireAt, now))
      {
        UnionAt(before, k);
        UnionAt(after, k);
        assert Dropped(before[ShardIndex(k)].entries, EntryDeadline(), now, after[ShardIndex(k)].entries);
      }
    }
  }

  /** Repeating the purge at a fixed time, however small the limit, ends with nothing expired, having
      reported every expired record exactly once. */
  method PurgeUntilDone(store: MemoryStore, limit: nat, now: nat) returns (total: nat)
    requires store.Valid() && limit >= 1
    modifies store`shards
    ensures store.Valid() && TotalExpired(store.shards, now) == 0
    ensures total == TotalExpired(old(store.shards), now)
  {
    hide MemoryStore.Valid, TotalExpired;
    total := 0;
    var purged := 1;
    while purged != 0
      invariant store.Valid()
      invariant TotalExpired(store.shards, now) + total == TotalExpired(old(store.shards), now)
      invariant purged == 0 ==> TotalExpired(store.shards, now) == 0
      decreases TotalExpired(store.shards, now), purged
    {
      purged := store.PurgeExpired(limit, now);
      total := total + purged;
    }
  }

  /** The rate, reservation and idempotency tables of every shard are as they were. */
  ghost predicate SameOtherTables(before: seq<Shard>, after: seq<Shard>) {
    && |before| == |after|
    && forall i :: 0 <= i < |before| ==> after[i] == before[i].(entries := after[i].entries)
  }
}
