/** The active purge of one shard: up to `limit` expired records of each table go, and expired
    reservations are paid back to their pools first. */
module Purges {
  import opened Sequences
  import opened Records
  import opened Decimal
  import Quota

  ghost function ExpiredKeys<T>(table: map<string, T>, deadline: T -> nat, now: nat): set<string> {
    set k | k in table && Expired(deadline(table[k]), now)
  }

  function RateDeadline(): RateRecord -> nat { (r: RateRecord) => r.expireAt }
  function ReservationDeadline(): Reservation -> nat { (r: Reservation) => r.expireAt }
  function ClaimDeadline(): IdemRecord -> nat { (r: IdemRecord) => r.expireAt }

  /** How many expired records a shard holds. */
  ghost function ExpiredCount(shard: Shard, now: nat): nat {
    |ExpiredKeys(shard.entries, EntryDeadline(), now)| + |ExpiredKeys(shard.rates, RateDeadline(), now)|
    + |ExpiredKeys(shard.reservations, ReservationDeadline(), now)| + |ExpiredKeys(shard.claims, ClaimDeadline(), now)|
  }

  function Least(a: nat, b: nat): nat { if a <= b then a else b }

  /** How many of them one purge takes: up to the limit from each table. */
  ghost function SampleCount(shard: Shard, limit: nat, now: nat): nat {
    Least(limit, |ExpiredKeys(shard.entries, EntryDeadline(), now)|)
      + Least(limit, |ExpiredKeys(shard.rates, RateDeadline(), now)|)
    + Least(limit, |ExpiredKeys(shard.reservations, ReservationDeadline(), now)|)
    + Least(limit, |ExpiredKeys(shard.claims, ClaimDeadline(), now)|)
  }

  /** Collect the keys of expired records, in whatever order the table visits them. */
  method PickExpired<T>(table: map<string, T>, deadline: T -> nat, limit: nat, now: nat) returns (picked: seq<string>)
    ensures Distinct(picked) && |picked| <= limit
    ensures forall k :: k in picked ==> k in ExpiredKeys(table, deadline, now)
    ensures |picked| < limit ==> forall k :: k in ExpiredKeys(table, deadline, now) ==> k in picked
  {
    picked := [];
    var todo := table.Keys;
    while todo != {}
      invariant todo <= table.Keys && Distinct(picked) && |picked| <= limit
      invariant forall k :: k in picked ==> k in ExpiredKeys(table, deadline, now) && k !in todo
      invariant |picked| < limit ==> forall k :: k in ExpiredKeys(table, deadline, now) && k !in todo ==> k in picked
      decreases todo
    {
      var k :| k in todo;
      if |picked| < limit && Expired(deadline(table[k]), now) {
        picked := picked + [k];
      }
      todo := todo - {k};
    }
  }

  /** Erase the picked keys one after the other. */
  method EraseAll<T>(table: map<string, T>, picked: seq<string>) returns (after: map<string, T>)
    ensures after == table - Keys(picked)
  {
    after := table;
    for i := 0 to |picked|
      invariant after == table - Keys(picked[..i])
    {
      KeysNext(picked, i);
      after := after - {picked[i]};
    }
    assert picked[..|picked|] == picked;
  }

  ghost function Keys(picked: seq<string>): set<string> { set k | k in picked }

  lemma KeysNext(picked: seq<string>, i: nat)
    requires i < |picked|
    ensures Keys(picked[..i + 1]) == Keys(picked[..i]) + {picked[i]}
    ensures Distinct(picked) ==> picked[i] !in picked[..i]
  {
    assert picked[..i + 1] == picked[..i] + [picked[i]];
  }

  lemma {:induction false} KeysSize(picked: seq<string>)
    requires Distinct(picked)
    ensures |Keys(picked)| == |picked|
  {
    if picked != [] {
      var n := |picked| - 1;
      KeysSize(picked[..n]);
      KeysNext(picked, n);
      assert picked[..n + 1] == picked;
    }
  }

  /** Erasing picked expired records lowers the number of expired ones by exactly their count. */
  lemma ErasedCount<T>(table: map<string, T>, deadline: T -> nat, picked: seq<string>, limit: nat, now: nat)
    requires Distinct(picked) && |picked| <= limit
    requires forall k :: k in picked ==> k in ExpiredKeys(table, deadline, now)
    requires |picked| < limit ==> forall k :: k in ExpiredKeys(table, deadline, now) ==> k in picked
    ensures |ExpiredKeys(table - Keys(picked), deadline, now)| + |picked| == |ExpiredKeys(table, deadline, now)|
    ensures |picked| == Least(limit, |ExpiredKeys(table, deadline, now)|)
  {
    KeysSize(picked);
    var all := ExpiredKeys(table, deadline, now);
    assert ExpiredKeys(table - Keys(picked), deadline, now) == all - Keys(picked);
    assert Keys(picked) <= all;
    assert |all - Keys(picked)| == |all| - |Keys(picked)|;
  }

  // ----- the quota side of a purge -----

  /** A purge as a run of quota events: drop expired entries, then refund expired reservations. */
  ghost predicate PurgeRun(q: Quota.Quotas, events: seq<Quota.Event>, now: nat, after: Quota.Quotas) {
    && events != [] && events[0].Elsewhere? && events[0].used == 0
    && Dropped(q.entries, EntryDeadline(), now, events[0].entries)
    && (forall i :: 1 <= i < |events| ==> events[i].DoPurge? && events[i].now == now)
    && Quota.Run(q, events) == after
  }

  lemma {:induction false} PurgesRespect(q: Quota.Quotas, events: seq<Quota.Event>, pool: string)
    requires forall i :: 0 <= i < |events| ==> events[i].DoPurge?
    ensures Quota.RunRespects(q, events, pool)
    decreases |events|
  {
    if events != [] { PurgesRespect(Quota.Step(q, events[0]), events[1..], pool); }
  }

  /** A purge is a run the quota ledger covers: it refunds, and creates or destroys nothing. */
  lemma PurgeConserves(q: Quota.Quotas, events: seq<Quota.Event>, now: nat, after: Quota.Quotas, pool: string)
    requires PurgeRun(q, events, now, after) && Quota.IdsIssued(q) && Quota.IsPool(q, pool)
    requires Quota.Holdings(q, pool) < U64
    ensures Quota.IdsIssued(after) && Quota.IsPool(after, pool)
    ensures Quota.Holdings(after, pool) == Quota.Holdings(q, pool)
  {
    PurgesRespect(Quota.Step(q, events[0]), events[1..], pool);
    Quota.Ledger(q, events, pool);
    NothingCharged(Quota.Step(q, events[0]), events[1..], pool);
  }

  lemma {:induction false} NothingCharged(q: Quota.Quotas, events: seq<Quota.Event>, pool: string)
    requires forall i :: 0 <= i < |events| ==> events[i].DoPurge?
    ensures Quota.TotalCharged(q, events, pool) == 0 && Quota.TotalForfeited(q, events, pool) == 0
    decreases |events|
  {
    if events != [] { NothingCharged(Quota.Step(q, events[0]), events[1..], pool); }
  }

  lemma {:induction false} RunThen(q: Quota.Quotas, events: seq<Quota.Event>, e: Quota.Event)
    ensures Quota.Run(q, events + [e]) == Quota.Step(Quota.Run(q, events), e)
    decreases |events|
  {
    if events == [] {
      assert [] + [e] == [e] && [e][1..] == [];
    } else {
      assert (events + [e])[1..] == events[1..] + [e];
      RunThen(Quota.Step(q, events[0]), events[1..], e);
    }
  }

  /** Pay the picked reservations back, one after the other. */
  method RefundAll(q: Quota.Quotas, picked: seq<string>, now: nat)
    returns (after: Quota.Quotas, ghost events: seq<Quota.Event>)
    requires Distinct(picked)
    requires forall id :: id in picked ==> id in ExpiredKeys(q.reservations, ReservationDeadline(), now)
    ensures |events| == |picked| && forall i :: 0 <= i < |events| ==> events[i] == Quota.DoPurge(picked[i], now)
    ensures after == Quota.Run(q, events)
    ensures after.reservations == q.reservations - Keys(picked) && after.next == q.next
    ensures ExpiredKeys(after.entries, EntryDeadline(), now) == ExpiredKeys(q.entries, EntryDeadline(), now)
    ensures forall k :: k in after.entries ==>
              k in q.entries || exists id :: id in q.reservations && q.reservations[id].key == k
    ensures picked == [] ==> after == q
  {
    hide Quota.Run, Stoull, Text;
    after, events := q, [];
    assert Quota.Run(q, []) == q by { RunNone(q); }
    for i := 0 to |picked|
      invariant |events| == i && after == Quota.Run(q, events) && after.next == q.next
      invariant forall j :: 0 <= j < i ==> events[j] == Quota.DoPurge(picked[j], now)
      invariant after.reservations == q.reservations - Keys(picked[..i])
      invariant ExpiredKeys(after.entries, EntryDeadline(), now) == ExpiredKeys(q.entries, EntryDeadline(), now)
      invariant forall k :: k in after.entries ==>
                k in q.entries || exists id :: id in q.reservations && q.reservations[id].key == k
      invariant picked == [] ==> after == q
    {
      KeysNext(picked, i);
      assert picked[i] in picked;
      RunThen(q, events, Quota.DoPurge(picked[i], now));
      events := events + [Quota.DoPurge(picked[i], now)];
      after := Quota.Refund(after, picked[i], now, true);
    }
    assert picked[..|picked|] == picked;
  }

  lemma RunNone(q: Quota.Quotas)
    ensures Quota.Run(q, []) == q
  {
  }

  // ----- one shard -----

  ghost predicate QuotasPurged(before: Shard, next: nat, now: nat, after: Shard) {
    exists events :: PurgeRun(Quota.Quotas(before.entries, before.reservations, next), events, now,
                              Quota.Quotas(after.entries, after.reservations, next))
  }

  lemma DropThenRefund(q: Quota.Quotas, entries: map<string, Entry>, events: seq<Quota.Event>, now: nat,
                       after: Quota.Quotas)
    requires Dropped(q.entries, EntryDeadline(), now, entries)
    requires forall i :: 0 <= i < |events| ==> events[i].DoPurge? && events[i].now == now
    requires Quota.Run(q.(entries := entries), events) == after
    ensures exists all :: PurgeRun(q, all, now, after)
  {
    var all := [Quota.Elsewhere(entries, 0)] + events;
    assert all[1..] == events && Quota.Step(q, all[0]) == q.(entries := entries);
    assert PurgeRun(q, all, now, after);
  }

  /** What a purge may do to a shard. */
  ghost predicate ShardPurged(before: Shard, next: nat, now: nat, after: Shard) {
    && Dropped(before.rates, RateDeadline(), now, after.rates)
    && Dropped(before.claims, ClaimDeadline(), now, after.claims)
    && Dropped(before.reservations, ReservationDeadline(), now, after.reservations)
    && QuotasPurged(before, next, now, after)
    && (forall k :: k in after.entries ==>
          k in before.entries || exists id :: id in before.reservations && before.reservations[id].key == k)
    && (before.reservations == map[] ==> Dropped(before.entries, EntryDeadline(), now, after.entries))
  }

  method PurgeTable<T(!new)>(table: map<string, T>, deadline: T -> nat, limit: nat, now: nat)
    returns (after: map<string, T>, count: nat)
    ensures Dropped(table, deadline, now, after)
    ensures |ExpiredKeys(after, deadline, now)| + count == |ExpiredKeys(table, deadline, now)|
    ensures count == Least(limit, |ExpiredKeys(table, deadline, now)|)
  {
    var picked := PickExpired(table, deadline, limit, now);
    after := EraseAll(table, picked);
    ErasedCount(table, deadline, picked, limit, now);
    count := |picked|;
  }

  method PurgeReservations(q: Quota.Quotas, limit: nat, now: nat)
    returns (after: Quota.Quotas, count: nat, ghost events: seq<Quota.Event>)
    ensures after == Quota.Run(q, events) && after.next == q.next
    ensures forall i :: 0 <= i < |events| ==> events[i].DoPurge? && events[i].now == now
    ensures Dropped(q.reservations, ReservationDeadline(), now, after.reservations)
    ensures |ExpiredKeys(after.reservations, ReservationDeadline(), now)| + count
            == |ExpiredKeys(q.reservations, ReservationDeadline(), now)|
    ensures count == Least(limit, |ExpiredKeys(q.reservations, ReservationDeadline(), now)|)
    ensures ExpiredKeys(after.entries, EntryDeadline(), now) == ExpiredKeys(q.entries, EntryDeadline(), now)
    ensures forall k :: k in after.entries ==>
              k in q.entries || exists id :: id in q.reservations && q.reservations[id].key == k
    ensures q.reservations == map[] ==> after == q
  {
    hide Quota.Run;
    var picked := PickExpired(q.reservations, ReservationDeadline(), limit, now);
    ErasedCount(q.reservations, ReservationDeadline(), picked, limit, now);
    after, events := RefundAll(q, picked, now);
    count := |picked|;
  }

  method PurgeShard(shard: Shard, next: nat, limit: nat, now: nat) returns (after: Shard, purged: nat)
    ensures ShardPurged(shard, next, now, after)
    ensures ExpiredCount(after, now) + purged == ExpiredCount(shard, now)
    ensures purged == SampleCount(shard, limit, now)
    ensures limit >= 1 && purged == 0 ==> ExpiredCount(shard, now) == 0
  {
    hide Quota.Run, ExpiredKeys;
    var entries, keys := PurgeTable(shard.entries, EntryDeadline(), limit, now);
    var quotas, ids, events := PurgeReservations(Quota.Quotas(entries, shard.reservations, next), limit, now);
    DropThenRefund(Quota.Quotas(shard.entries, shard.reservations, next), entries, events, now, quotas);
    var claims, owners := PurgeTable(shard.claims, ClaimDeadline(), limit, now);
    var rates, clients := PurgeTable(shard.rates, RateDeadline(), limit, now);
    after := Shard(quotas.entries, rates, quotas.reservations, claims);
    purged := keys + ids + owners + clients;
  }
}
