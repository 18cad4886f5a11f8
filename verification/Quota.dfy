/** Two-phase quota: reserve takes an amount out of a pool, commit or rollback settles the
    reservation, and an expired reservation is returned to the pool by the purge. */
module Quota {
  import opened Options
  import opened Records
  import opened Decimal

  /** The part of a shard the quota operations touch, and the reservation counter. */
  datatype Quotas = Quotas(entries: map<string, Entry>, reservations: map<string, Reservation>, next: nat)

  datatype ReserveReply = BadArguments | NoPool | NotInteger | Insufficient(left: nat) | Reserved(id: string, left: nat)
  datatype CommitReply = NoReservation | CommitExpired | Committed(actual: nat, refunded: nat, left: nat)
  datatype RollbackReply = NothingToRollBack | RolledBack(refunded: nat, left: nat)

  /** The balance commit, rollback and purge see: any readable number at the front, else 0. */
  function LooseBalance(value: string): (b: nat)
    ensures b < U64
  {
    var r := Stoull(value);
    if r.None? then 0 else r.value.value
  }

  /** The balance reserve insists on: the whole text is a number. */
  function StrictBalance(value: string): (b: Option<nat>)
    ensures b.Some? ==> b.value < U64 && b.value == LooseBalance(value)
  {
    var r := Stoull(value);
    if r.None? || r.value.end != |value| then None else Some(r.value.value)
  }

  function ReservationId(now: nat, sequence: nat): string { Stamp("res_", now, sequence) }

  function SetBalance(entries: map<string, Entry>, key: string, balance: nat, now: nat): map<string, Entry> {
    var text := Text(balance);
    entries[key := if key in entries then entries[key].(value := text) else Entry(text, StringType, now, 0)]
  }

  function Reserve(q: Quotas, key: string, amount: nat, ttl: nat, now: nat): (Quotas, ReserveReply) {
    if amount == 0 || ttl == 0 then (q, BadArguments)
    else if key !in q.entries then (q, NoPool)
    else if Expired(q.entries[key].expireAt, now) then (q.(entries := q.entries - {key}), NoPool)
    else
      var balance := StrictBalance(q.entries[key].value);
      if balance.None? then (q, NotInteger)
      else if balance.value < amount then (q, Insufficient(balance.value))
      else
        var id, left := ReservationId(now, q.next), balance.value - amount;
        (Quotas(SetBalance(q.entries, key, left, now),
                q.reservations[id := Reservation(key, amount, now, Deadline(now, ttl))], q.next + 1),
         Reserved(id, left))
  }

  /** Giving a reservation back: the purge creates a missing pool entry, a late commit does not. */
  function Refund(q: Quotas, id: string, now: nat, create: bool): Quotas
    requires id in q.reservations
  {
    var r := q.reservations[id];
    var entries :=
      if r.key in q.entries then
        var b := Stoull(q.entries[r.key].value);
        SetBalance(q.entries, r.key, if b.None? then r.amount else Wrap(b.value.value + r.amount), now)
      else if create then SetBalance(q.entries, r.key, r.amount, now)
      else q.entries;
    Quotas(entries, q.reservations - {id}, q.next)
  }

  function Balance(q: Quotas, key: string): nat {
    if key in q.entries then LooseBalance(q.entries[key].value) else 0
  }

  function AfterCommit(balance: nat, reserved: nat, actual: nat): nat {
    if actual <= reserved then Wrap(balance + (reserved - actual))
    else if balance >= actual - reserved then balance - (actual - reserved)
    else 0
  }

  function Commit(q: Quotas, key: string, id: string, actual: nat, now: nat): (Quotas, CommitReply) {
    if id !in q.reservations || q.reservations[id].key != key then (q, NoReservation)
    else if Expired(q.reservations[id].expireAt, now) then (Refund(q, id, now, false), CommitExpired)
    else
      var reserved := q.reservations[id].amount;
      var left := AfterCommit(Balance(q, key), reserved, actual);
      (Quotas(SetBalance(q.entries, key, left, now), q.reservations - {id}, q.next),
       Committed(actual, if actual <= reserved then reserved - actual else 0, left))
  }

  function Rollback(q: Quotas, key: string, id: string, now: nat): (Quotas, RollbackReply) {
    if id !in q.reservations || q.reservations[id].key != key then (q, NothingToRollBack)
    else
      var r, q' := q.reservations[id], q.(reservations := q.reservations - {id});
      if Expired(r.expireAt, now) then (q', RolledBack(r.amount, Balance(q, key)))
      else
        var left := Wrap(Balance(q, key) + r.amount);
        (q'.(entries := SetBalance(q.entries, key, left, now)), RolledBack(r.amount, left))
  }

  // ----- runs -----

  /** Everything that can happen to a shard; DoPurge gives one expired reservation back, Elsewhere is
      any change to other entries, while other shards may use up sequence numbers. */
  datatype Event =
    | DoReserve(key: string, amount: nat, ttl: nat, now: nat)
    | DoCommit(key: string, id: string, actual: nat, now: nat)
    | DoRollback(key: string, id: string, now: nat)
    | DoPurge(id: string, now: nat)
    | Elsewhere(entries: map<string, Entry>, used: nat)

  function Step(q: Quotas, e: Event): Quotas {
    match e
    case DoReserve(key, amount, ttl, now) => Reserve(q, key, amount, ttl, now).0
    case DoCommit(key, id, actual, now) => Commit(q, key, id, actual, now).0
    case DoRollback(key, id, now) => Rollback(q, key, id, now).0
    case DoPurge(id, now) =>
      if id in q.reservations && Expired(q.reservations[id].expireAt, now) then Refund(q, id, now, true) else q
    case Elsewhere(entries, used) => q.(entries := entries, next := q.next + used)
  }

  function Run(q: Quotas, events: seq<Event>): Quotas
    decreases |events|
  {
    if events == [] then q else Run(Step(q, events[0]), events[1..])
  }

  /** Events that leave the pool's entry to the quota operations. */
  predicate Respects(q: Quotas, e: Event, pool: string) {
    e.Elsewhere? ==> pool in e.entries && pool in q.entries && e.entries[pool] == q.entries[pool]
  }

  predicate RunRespects(q: Quotas, events: seq<Event>, pool: string)
    decreases |events|
  {
    events == [] || (Respects(q, events[0], pool) && RunRespects(Step(q, events[0]), events[1..], pool))
  }

  predicate Settles(q: Quotas, key: string, id: string, pool: string) {
    key == pool && id in q.reservations && q.reservations[id].key == key
  }

  /** What an event consumes from the pool: an overdrawn commit takes what is there. */
  function Charged(q: Quotas, e: Event, pool: string): nat {
    if e.DoCommit? && Settles(q, e.key, e.id, pool) && !Expired(q.reservations[e.id].expireAt, e.now) then
      var reserved := q.reservations[e.id].amount;
      if e.actual <= reserved then e.actual
      else reserved + (if Balance(q, pool) < e.actual - reserved then Balance(q, pool) else e.actual - reserved)
    else 0
  }

  /** What an event destroys: a rollback after expiry drops the reservation without a refund. */
  function Forfeited(q: Quotas, e: Event, pool: string): nat {
    if e.DoRollback? && Settles(q, e.key, e.id, pool) && Expired(q.reservations[e.id].expireAt, e.now)
    then q.reservations[e.id].amount else 0
  }

  function TotalCharged(q: Quotas, events: seq<Event>, pool: string): nat
    decreases |events|
  {
    if events == [] then 0 else Charged(q, events[0], pool) + TotalCharged(Step(q, events[0]), events[1..], pool)
  }

  function TotalForfeited(q: Quotas, events: seq<Event>, pool: string): nat
    decreases |events|
  {
    if events == [] then 0 else Forfeited(q, events[0], pool) + TotalForfeited(Step(q, events[0]), events[1..], pool)
  }

  // ----- what is outstanding -----

  function Share(r: Reservation, pool: string): nat { if r.key == pool then r.amount else 0 }

  ghost function Outstanding(rs: map<string, Reservation>, pool: string): nat
    decreases |rs|
  {
    if rs == map[] then 0
    else
      var id :| id in rs;
      assert |rs - {id}| < |rs| by { Smaller(rs, id); }
      Share(rs[id], pool) + Outstanding(rs - {id}, pool)
  }

  lemma Smaller<T>(m: map<string, T>, id: string)
    requires id in m
    ensures |m - {id}| == |m| - 1
  {
    assert (m - {id}).Keys == m.Keys - {id};
  }

  lemma {:induction false} OutstandingWithout(rs: map<string, Reservation>, pool: string, id: string)
    requires id in rs
    ensures Outstanding(rs, pool) == Share(rs[id], pool) + Outstanding(rs - {id}, pool)
    decreases |rs|
  {
    var first :| first in rs && Outstanding(rs, pool) == Share(rs[first], pool) + Outstanding(rs - {first}, pool);
    if first != id {
      Smaller(rs, first);
      OutstandingWithout(rs - {first}, pool, id);
      Smaller(rs, id);
      OutstandingWithout(rs - {id}, pool, first);
      assert rs - {first} - {id} == rs - {id} - {first};
    }
  }

  lemma OutstandingWith(rs: map<string, Reservation>, pool: string, id: string, r: Reservation)
    requires id !in rs
    ensures Outstanding(rs[id := r], pool) == Share(r, pool) + Outstanding(rs, pool)
  {
    OutstandingWithout(rs[id := r], pool, id);
    assert rs[id := r] - {id} == rs;
  }

  // ----- the ledger -----

  ghost predicate Issued(id: string, next: nat) {
    exists now: nat, sequence: nat :: sequence < next && id == ReservationId(now, sequence)
  }

  /** Every reservation carries an identifier issued before. */
  ghost predicate IdsIssued(q: Quotas) {
    forall id :: id in q.reservations ==> Issued(id, q.next)
  }

  /** A pool: a never-expiring entry whose text is a number. */
  predicate IsPool(q: Quotas, pool: string) {
    && pool in q.entries && q.entries[pool].expireAt == 0 && StrictBalance(q.entries[pool].value).Some?
  }

  ghost function Holdings(q: Quotas, pool: string): nat {
    Balance(q, pool) + Outstanding(q.reservations, pool)
  }

  /** The next identifier has never been issued. */
  lemma IssuedNext(next: nat, now: nat)
    ensures !Issued(ReservationId(now, next), next)
    ensures forall id :: Issued(id, next) ==> Issued(id, next + 1)
    ensures Issued(ReservationId(now, next), next + 1)
  {
    var id := ReservationId(now, next);
    if Issued(id, next) {
      var t: nat, s: nat :| s < next && id == ReservationId(t, s);
      StampInjective("res_", now, next, t, s);
    }
  }

  lemma IssuedLater(next: nat, used: nat)
    ensures forall id :: Issued(id, next) ==> Issued(id, next + used)
  {
  }

  lemma BalanceSet(entries: map<string, Entry>, key: string, balance: nat, now: nat, pool: string)
    requires balance < U64 && pool in entries
    ensures var e := SetBalance(entries, key, balance, now);
            && pool in e && e[pool].expireAt == entries[pool].expireAt
            && (key != pool ==> e[pool] == entries[pool])
            && (key == pool ==> StrictBalance(e[pool].value) == Some(balance))
  {
    StoullOfText(balance);
  }

  /** One step keeps the pool a pool, and nothing appears or vanishes unaccounted. */
  lemma StepConserves(q: Quotas, e: Event, pool: string)
    requires IdsIssued(q) && IsPool(q, pool) && Respects(q, e, pool) && Holdings(q, pool) < U64
    ensures var q' := Step(q, e);
            && IdsIssued(q') && IsPool(q', pool)
            && Holdings(q', pool) + Charged(q, e, pool) + Forfeited(q, e, pool) == Holdings(q, pool)
  {
    match e {
      case DoReserve(key, amount, ttl, now) => ReserveConserves(q, e, pool);
      case DoCommit(key, id, actual, now) =>
        if id in q.reservations && q.reservations[id].key == key { SettleConserves(q, e, id, pool); }
      case DoRollback(key, id, now) =>
        if id in q.reservations && q.reservations[id].key == key { SettleConserves(q, e, id, pool); }
      case DoPurge(id, now) =>
        if id in q.reservations && Expired(q.reservations[id].expireAt, now) { SettleConserves(q, e, id, pool); }
      case Elsewhere(entries, used) => IssuedLater(q.next, used);
    }
  }

  lemma ReserveConserves(q: Quotas, e: Event, pool: string)
    requires e.DoReserve? && IdsIssued(q) && IsPool(q, pool)
    ensures var q' := Step(q, e); IdsIssued(q') && IsPool(q', pool) && Holdings(q', pool) == Holdings(q, pool)
  {
    hide Stoull, Text, ReservationId, Outstanding;
    var (q', reply) := Reserve(q, e.key, e.amount, e.ttl, e.now);
    if reply.Reserved? {
      IssuedNext(q.next, e.now);
      BalanceSet(q.entries, e.key, reply.left, e.now, pool);
      OutstandingWith(q.reservations, pool, reply.id, Reservation(e.key, e.amount, e.now, Deadline(e.now, e.ttl)));
    }
  }

  lemma SettleConserves(q: Quotas, e: Event, id: string, pool: string)
    requires (e.DoCommit? || e.DoRollback? || e.DoPurge?) && e.id == id && id in q.reservations
    requires (e.DoCommit? || e.DoRollback?) ==> q.reservations[id].key == e.key
    requires e.DoPurge? ==> Expired(q.reservations[id].expireAt, e.now)
    requires IdsIssued(q) && IsPool(q, pool) && Holdings(q, pool) < U64
    ensures var q' := Step(q, e);
            && IdsIssued(q') && IsPool(q', pool)
            && Holdings(q', pool) + Charged(q, e, pool) + Forfeited(q, e, pool) == Holdings(q, pool)
  {
    hide Stoull, Text, ReservationId, Outstanding, Issued;
    var r, q' := q.reservations[id], Step(q, e);
    OutstandingWithout(q.reservations, pool, id);
    assert q'.reservations == q.reservations - {id};
    if !(e.DoRollback? && Expired(r.expireAt, e.now)) {
      var given := if e.DoCommit? && !Expired(r.expireAt, e.now) then AfterCommit(Balance(q, r.key), r.amount, e.actual)
                   else if e.DoRollback? then Wrap(Balance(q, r.key) + r.amount)
                   else if r.key in q.entries && Stoull(q.entries[r.key].value).Some? then
                     Wrap(Balance(q, r.key) + r.amount)
                   else r.amount;
      if r.key in q.entries || !e.DoCommit? || !Expired(r.expireAt, e.now) {
        assert q'.entries == SetBalance(q.entries, r.key, given, e.now);
        if r.key == pool { BalanceSet(q.entries, pool, given, e.now, pool); }
      }
    }
  }

  /** The ledger over a whole run: what the pool holds, what is out on reservation, what was charged
      and what late rollbacks destroyed always add up to the initial grant. */
  lemma {:induction false} Ledger(q: Quotas, events: seq<Event>, pool: string)
    requires IdsIssued(q) && IsPool(q, pool) && RunRespects(q, events, pool) && Holdings(q, pool) < U64
    ensures var q' := Run(q, events);
            && IdsIssued(q') && IsPool(q', pool)
            && Balance(q', pool) + Outstanding(q'.reservations, pool)
               + TotalCharged(q, events, pool) + TotalForfeited(q, events, pool) == Holdings(q, pool)
    decreases |events|
  {
    if events != [] {
      StepConserves(q, events[0], pool);
      Ledger(Step(q, events[0]), events[1..], pool);
    }
  }

  /** A pool with no reservations out is never oversold. */
  lemma NeverOversold(q: Quotas, events: seq<Event>, pool: string)
    requires q.reservations == map[] && IsPool(q, pool) && RunRespects(q, events, pool)
    ensures TotalCharged(q, events, pool) <= Balance(q, pool)
    ensures Balance(Run(q, events), pool) <= Balance(q, pool)
  {
    Ledger(q, events, pool);
  }

  // ----- each reservation is settled once -----

  /** An identifier that was issued and is gone: no reservation will ever carry it again. */
  ghost predicate Settled(q: Quotas, id: string) {
    Issued(id, q.next) && id !in q.reservations
  }

  lemma SettledStays(q: Quotas, e: Event, id: string)
    requires IdsIssued(q) && Settled(q, id)
    ensures IdsIssued(Step(q, e)) && Settled(Step(q, e), id)
  {
    hide Stoull, Text, ReservationId;
    if e.DoReserve? { IssuedNext(q.next, e.now); }
    if e.Elsewhere? { IssuedLater(q.next, e.used); }
  }

  /** Once committed, rolled back or purged, a reservation is gone for good: after any further run
      every commit and rollback of it is answered with "not found" and changes nothing. */
  lemma {:induction false} SettledOnce(q: Quotas, events: seq<Event>, id: string, key: string, actual: nat, now: nat)
    requires IdsIssued(q) && Settled(q, id)
    ensures var q' := Run(q, events);
            && Commit(q', key, id, actual, now) == (q', NoReservation)
            && Rollback(q', key, id, now) == (q', NothingToRollBack)
            && Step(q', DoPurge(id, now)) == q'
    decreases |events|
  {
    if events != [] {
      SettledStays(q, events[0], id);
      SettledOnce(Step(q, events[0]), events[1..], id, key, actual, now);
    }
  }

  /** A grant carries an identifier never seen before; commit, rollback and purge, expired or not,
      leave the reservation settled. */
  lemma GrantedFreshSettledAfter(q: Quotas, e: Event)
    requires IdsIssued(q)
    ensures e.DoReserve? ==>
              var reply := Reserve(q, e.key, e.amount, e.ttl, e.now).1;
              reply.Reserved? ==> reply.id !in q.reservations && !Issued(reply.id, q.next)
    ensures (e.DoCommit? || e.DoRollback?) && e.id in q.reservations && q.reservations[e.id].key == e.key ==>
              Settled(Step(q, e), e.id)
    ensures e.DoPurge? && e.id in q.reservations && Expired(q.reservations[e.id].expireAt, e.now) ==>
              Settled(Step(q, e), e.id)
  {
    hide Issued, ReservationId, Stoull, Text;
    if e.DoReserve? { IssuedNext(q.next, e.now); }
  }

  // ----- where the documented promises hold -----

  lemma BalanceWritten(entries: map<string, Entry>, key: string, balance: nat, now: nat)
    requires balance < U64
    ensures key in SetBalance(entries, key, balance, now)
    ensures LooseBalance(SetBalance(entries, key, balance, now)[key].value) == balance
  {
    StoullOfText(balance);
  }

  /** A rollback is promised to restore the whole amount: it does exactly when the amount is 0, or the
      reservation has not expired yet and the sum fits 64 bits, although the reply reports the full
      refund anyway. */
  lemma RollbackRestoresIff(q: Quotas, pool: string, id: string, now: nat)
    requires id in q.reservations && q.reservations[id].key == pool
    ensures var (q', reply) := Rollback(q, pool, id, now);
            var amount := q.reservations[id].amount;
            && reply == RolledBack(amount, Balance(q', pool))
            && (Balance(q', pool) == Balance(q, pool) + amount
                <==> amount == 0 || (!Expired(q.reservations[id].expireAt, now) && Balance(q, pool) + amount < U64))
  {
    hide Stoull, Text;
    BalanceWritten(q.entries, pool, Wrap(Balance(q, pool) + q.reservations[id].amount), now);
  }

  /** A commit is promised to charge the actual amount, out of the reservation and the pool: it does
      exactly when these cover it and what is left fits 64 bits, although the reply names the actual
      amount anyway. */
  lemma CommitChargesActualIff(q: Quotas, pool: string, id: string, actual: nat, now: nat)
    requires id in q.reservations && q.reservations[id].key == pool && !Expired(q.reservations[id].expireAt, now)
    ensures var (q', reply) := Commit(q, pool, id, actual, now);
            var held := Balance(q, pool) + q.reservations[id].amount;
            && reply.Committed? && reply.actual == actual && reply.left == Balance(q', pool)
            && (held - Balance(q', pool) == actual <==> actual <= held && held - actual < U64)
  {
    hide Stoull, Text;
    BalanceWritten(q.entries, pool, AfterCommit(Balance(q, pool), q.reservations[id].amount, actual), now);
  }

  // ----- runs that show where they fail -----

  /** A shard with one pool of 10 and nothing reserved. */
  function PoolOfTen(): Quotas { Quotas(map["p" := Entry(Text(10), StringType, 0, 0)], map[], 1) }

  lemma ReserveFour()
    ensures var (q, reply) := Reserve(PoolOfTen(), "p", 4, 5, 1);
            && reply == Reserved(ReservationId(1, 1), 6) && Balance(q, "p") == 6
            && q.reservations == map[ReservationId(1, 1) := Reservation("p", 4, 1, 6)]
  {
    hide Stoull, Text, Stamp;
    StoullOfText(10);
    BalanceWritten(PoolOfTen().entries, "p", 6, 1);
  }

  /** Reserve, let it expire, roll back: the reply says 4 came back, the pool stays at 6, and nobody
      owes it anything. */
  lemma LateRollbackLoses()
    ensures var q := Run(PoolOfTen(), [DoReserve("p", 4, 5, 1)]);
            var (q', reply) := Rollback(q, "p", ReservationId(1, 1), 6);
            reply == RolledBack(4, 6) && Balance(q', "p") == 6 && q'.reservations == map[]
  {
    hide Stoull, Text, Stamp, Reserve;
    OneStep(PoolOfTen(), DoReserve("p", 4, 5, 1));
    ReserveFour();
    RollbackRestoresIff(Reserve(PoolOfTen(), "p", 4, 5, 1).0, "p", ReservationId(1, 1), 6);
  }

  /** Reserve 4 of 10, then commit 20: the reply says 20 were charged, and there were only 10. */
  lemma CommitBeyondPool()
    ensures var q := Run(PoolOfTen(), [DoReserve("p", 4, 5, 1)]);
            var (q', reply) := Commit(q, "p", ReservationId(1, 1), 20, 2);
            reply == Committed(20, 0, 0) && Balance(q', "p") == 0 && q'.reservations == map[]
  {
    hide Stoull, Text, Stamp, Reserve;
    OneStep(PoolOfTen(), DoReserve("p", 4, 5, 1));
    ReserveFour();
    CommitChargesActualIff(Reserve(PoolOfTen(), "p", 4, 5, 1).0, "p", ReservationId(1, 1), 20, 2);
  }

  /** Reserve 4, set the pool to the largest balance, commit 0: the refund wraps around. */
  lemma CommitWrapsAround()
    ensures var q := Run(PoolOfTen(), [DoReserve("p", 4, 5, 1)]);
            var full := q.(entries := map["p" := Entry(Text(U64 - 1), StringType, 0, 0)]);
            var (q', reply) := Commit(full, "p", ReservationId(1, 1), 0, 2);
            reply == Committed(0, 4, 3) && Balance(q', "p") == 3
  {
    hide Stoull, Text, Stamp, Reserve;
    OneStep(PoolOfTen(), DoReserve("p", 4, 5, 1));
    ReserveFour();
    StoullOfText(U64 - 1);
    var q := Reserve(PoolOfTen(), "p", 4, 5, 1).0;
    var full := q.(entries := map["p" := Entry(Text(U64 - 1), StringType, 0, 0)]);
    BalanceWritten(full.entries, "p", 3, 2);
  }

  lemma OneStep(q: Quotas, e: Event)
    ensures Run(q, [e]) == Step(q, e)
  {
    assert [e][1..] == [] && Run(Step(q, e), []) == Step(q, e);
  }
}
