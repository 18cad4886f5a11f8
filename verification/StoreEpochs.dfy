/** Once and only once, over every run of the store: a reservation is settled once, a claim gives out one
    execution, and its first completion is what everybody else is told. */
module StoreEpochs {
  import opened Options
  import opened Records
  import opened Purges
  import opened MemoryStores
  import opened StoreLaws
  import KV = KeyValue
  import Quota
  import Rate = RateLimit
  import Idem = Idempotency

  // ----- reservations are settled once -----

  /** Every outstanding reservation carries an identifier issued before, and no two shards share one. */
  ghost predicate Accounted(s: State) {
    && |s.shards| == NUM_SHARDS
    && (forall i :: 0 <= i < |s.shards| ==> Quota.IdsIssued(Quotas(s, i)))
    && (forall i, j, id :: (0 <= i < |s.shards| && 0 <= j < |s.shards|
                            && id in s.shards[i].reservations && id in s.shards[j].reservations) ==> i == j)
  }

  /** Issued once, and outstanding nowhere. */
  ghost predicate Gone(s: State, id: string) {
    Quota.Issued(id, s.nextReservation) && forall i :: 0 <= i < |s.shards| ==> id !in s.shards[i].reservations
  }

  /** What a call does to the reservations of the shards: some go; a grant adds one, newly issued. */
  ghost predicate FewerOrGranted(s: State, s': State) {
    && |s.shards| == |s'.shards| == NUM_SHARDS
    && (|| (s'.nextReservation == s.nextReservation && Fewer(s, s'))
        || exists i: nat, id :: GrantedAt(s, s', i, id))
  }

  ghost predicate Fewer(s: State, s': State)
    requires |s.shards| == |s'.shards|
  {
    forall i :: 0 <= i < |s.shards| ==> s'.shards[i].reservations.Keys <= s.shards[i].reservations.Keys
  }

  ghost predicate GrantedAt(s: State, s': State, i: nat, id: string)
    requires |s.shards| == |s'.shards|
  {
    && i < |s.shards| && s'.nextReservation == s.nextReservation + 1
    && (exists now: nat :: id == Quota.ReservationId(now, s.nextReservation))
    && s'.shards[i].reservations.Keys == s.shards[i].reservations.Keys + {id}
    && forall j :: 0 <= j < |s.shards| && j != i ==> s'.shards[j] == s.shards[j]
  }

  lemma CallFewerOrGranted(s: State, c: Call, s': State, reply: Reply)
    requires StepOk(s, c, s', reply)
    ensures FewerOrGranted(s, s')
  {
    hide ShardIndex, Union, KV.Behaves, Rate.Hit64, ClaimOk, QuotaOk, QuotasPurged, Quota.ReservationId;
    if IsQuota(c.op) {
      QuotaCall(s, c, s', reply);
    } else if IsClaim(c.op) {
      OnlyItsClaims(s, c, s', reply);
      assert Fewer(s, s');
    } else if c.op.Purge? {
      forall i | 0 <= i < NUM_SHARDS ensures s'.shards[i].reservations.Keys <= s.shards[i].reservations.Keys {
        assert ShardPurged(s.shards[i], s.nextReservation, c.now, s'.shards[i]);
      }
    } else {
      OthersSame(s, c, s', reply);
    }
  }

  lemma OthersSame(s: State, c: Call, s': State, reply: Reply)
    requires StepOk(s, c, s', reply) && (c.op.RateLimit? || c.op.Key? || c.op.Delete?)
    ensures |s.shards| == |s'.shards| && s'.nextReservation == s.nextReservation && Fewer(s, s')
  {
    hide ShardIndex, Union, KV.Behaves, Rate.Hit64;
    forall i | 0 <= i < |s.shards| ensures s'.shards[i].reservations == s.shards[i].reservations {
      if !c.op.RateLimit? { assert s'.shards[i] == s.shards[i].(entries := s'.shards[i].entries); }
    }
  }

  lemma QuotaCall(s: State, c: Call, s': State, reply: Reply)
    requires IsQuota(c.op) && QuotaOk(s, c, s', reply) && |s.shards| == NUM_SHARDS
    ensures FewerOrGranted(s, s')
  {
    hide ShardIndex, Quota.ReservationId;
    var i := ShardIndex(c.op.key);
    var q, q' := Quotas(s, i), Quotas(s', i);
    if c.op.Reserve? && reply.reserved.Reserved? {
      ReservedOne(q, c.op.key, c.op.amount, c.op.ttl, c.now);
      assert GrantedAt(s, s', i, reply.reserved.id);
    } else {
      OthersGrantNothing(q, c.op, c.now, q');
      assert Fewer(s, s');
    }
  }

  lemma ReservedOne(q: Quota.Quotas, key: string, amount: nat, ttl: nat, now: nat)
    ensures var (q', reply) := Quota.Reserve(q, key, amount, ttl, now);
            reply.Reserved? ==>
              && reply.id == Quota.ReservationId(now, q.next) && q'.next == q.next + 1
              && q'.reservations.Keys == q.reservations.Keys + {reply.id}
  {
    hide Quota.ReservationId;
  }

  lemma OthersGrantNothing(q: Quota.Quotas, op: Op, now: nat, q': Quota.Quotas)
    requires IsQuota(op)
    requires match op
             case Reserve(key, amount, ttl) =>
               q' == Quota.Reserve(q, key, amount, ttl, now).0 && !Quota.Reserve(q, key, amount, ttl, now).1.Reserved?
             case Commit(key, id, actual) => q' == Quota.Commit(q, key, id, actual, now).0
             case Rollback(key, id) => q' == Quota.Rollback(q, key, id, now).0
    ensures q'.next == q.next && q'.reservations.Keys <= q.reservations.Keys
  {
    hide Quota.ReservationId;
  }

  lemma AccountedStays(s: State, s': State)
    requires Accounted(s) && FewerOrGranted(s, s')
    ensures Accounted(s')
    ensures forall id :: Gone(s, id) ==> Gone(s', id)
  {
    hide Quota.ReservationId, Quota.Issued;
    if s'.nextReservation == s.nextReservation && Fewer(s, s') {
      forall i | 0 <= i < NUM_SHARDS ensures Quota.IdsIssued(Quotas(s', i)) {
        assert Quota.IdsIssued(Quotas(s, i));
        assert s'.shards[i].reservations.Keys <= s.shards[i].reservations.Keys;
      }
      forall i, j, id | 0 <= i < NUM_SHARDS && 0 <= j < NUM_SHARDS
                        && id in s'.shards[i].reservations && id in s'.shards[j].reservations
        ensures i == j
      {
        assert id in s.shards[i].reservations.Keys && id in s.shards[j].reservations.Keys;
      }
    } else {
      var at: nat, id :| GrantedAt(s, s', at, id);
      GrantAccounted(s, s', at, id);
    }
  }

  lemma GrantAccounted(s: State, s': State, at: nat, id: string)
    requires Accounted(s) && |s'.shards| == NUM_SHARDS && GrantedAt(s, s', at, id)
    ensures Accounted(s')
    ensures forall id' :: Gone(s, id') ==> Gone(s', id')
  {
    hide Quota.ReservationId, Quota.Issued;
    var now: nat :| id == Quota.ReservationId(now, s.nextReservation);
    Quota.IssuedNext(s.nextReservation, now);
    forall i | 0 <= i < NUM_SHARDS ensures id !in s.shards[i].reservations {
      assert Quota.IdsIssued(Quotas(s, i));
    }
    forall i | 0 <= i < NUM_SHARDS ensures Quota.IdsIssued(Quotas(s', i)) {
      assert Quota.IdsIssued(Quotas(s, i));
    }
  }

  // ----- over a run -----

  predicate ClosesReservation(c: Call, id: string) { (c.op.Commit? || c.op.Rollback?) && c.op.id == id }

  /** The reply to a commit or rollback that found its reservation, expired or not. */
  predicate Found(reply: Reply) {
    || (reply.OfCommit? && !reply.committed.NoReservation?)
    || (reply.OfRollback? && !reply.rolledBack.NothingToRollBack?)
  }

  lemma ClosedIsGone(s: State, c: Call, s': State, reply: Reply, id: string)
    requires StepOk(s, c, s', reply) && Accounted(s) && ClosesReservation(c, id)
    ensures Found(reply) ==> Gone(s', id)
    ensures Gone(s, id) ==> !Found(reply)
  {
    hide ShardIndex, Quota.ReservationId, Quota.Issued, Union, KV.Behaves;
    var i := ShardIndex(c.op.key);
    assert OnlyQuotas(s, i, s') && QuotaOk(s, c, s', reply);
    assert Quota.IdsIssued(Quotas(s, i));
    if Found(reply) {
      assert id in s.shards[i].reservations && id !in s'.shards[i].reservations;
      forall j | 0 <= j < |s'.shards| ensures id !in s'.shards[j].reservations {
        if j != i { assert s'.shards[j] == s.shards[j]; }
      }
    }
  }

  lemma {:induction false} GoneForGood(states: seq<State>, calls: seq<Call>, replies: seq<Reply>, id: string, a: nat,
                                       b: nat)
    requires Trace(states, calls, replies) && a <= b < |states| && Accounted(states[a]) && Gone(states[a], id)
    ensures Accounted(states[b]) && Gone(states[b], id)
    decreases b - a
  {
    hide StepOk, Accounted, Gone;
    if a < b {
      assert StepOk(states[a], calls[a], states[a + 1], replies[a]);
      CallFewerOrGranted(states[a], calls[a], states[a + 1], replies[a]);
      AccountedStays(states[a], states[a + 1]);
      GoneForGood(states, calls, replies, id, a + 1, b);
    }
  }

  lemma {:induction false} AlwaysAccounted(states: seq<State>, calls: seq<Call>, replies: seq<Reply>, a: nat)
    requires Trace(states, calls, replies) && a < |states| && Accounted(states[0])
    ensures Accounted(states[a])
  {
    hide StepOk, Accounted;
    if a > 0 {
      AlwaysAccounted(states, calls, replies, a - 1);
      assert StepOk(states[a - 1], calls[a - 1], states[a], replies[a - 1]);
      CallFewerOrGranted(states[a - 1], calls[a - 1], states[a], replies[a - 1]);
      AccountedStays(states[a - 1], states[a]);
    }
  }

  /** Over every run of the store, whatever else is called and purged: of all commits and rollbacks of
      a reservation at most one finds it. And once it is gone, also by a purge, none does. */
  lemma StoreSettledOnce(states: seq<State>, calls: seq<Call>, replies: seq<Reply>, id: string, a: nat, b: nat)
    requires Trace(states, calls, replies) && Accounted(states[0]) && a < b < |calls| && ClosesReservation(calls[b], id)
    ensures ClosesReservation(calls[a], id) && Found(replies[a]) ==> !Found(replies[b])
    ensures Gone(states[a], id) ==> !Found(replies[b])
  {
    hide StepOk, Accounted, Gone, Found, ClosesReservation;
    assert StepOk(states[a], calls[a], states[a + 1], replies[a])
      && StepOk(states[b], calls[b], states[b + 1], replies[b]);
    AlwaysAccounted(states, calls, replies, a);
    AlwaysAccounted(states, calls, replies, a + 1);
    AlwaysAccounted(states, calls, replies, b);
    ClosedIsGone(states[b], calls[b], states[b + 1], replies[b], id);
    if ClosesReservation(calls[a], id) && Found(replies[a]) {
      ClosedIsGone(states[a], calls[a], states[a + 1], replies[a], id);
      GoneForGood(states, calls, replies, id, a + 1, b);
    } else if Gone(states[a], id) {
      GoneForGood(states, calls, replies, id, a, b);
    }
  }

  // ----- one claim of a key -----

  function RecordAt(s: State, key: string): Option<IdemRecord>
    requires |s.shards| == NUM_SHARDS
  {
    Find(s.shards[ShardIndex(key)].claims, key)
  }

  /** The call looks at the key's claim, or may drop it when it is over. */
  predicate Touches(c: Call, key: string) { (IsClaim(c.op) && c.op.key == key) || c.op.Purge? }

  /** Before the claim's time is over, and no failure of it is admitted. */
  predicate During(c: Call, reply: Reply, key: string, deadline: nat) {
    && (Touches(c, key) ==> !Expired(deadline, c.now))
    && (c.op.Fail? && c.op.key == key ==> reply != OfClose(Idem.Done))
  }

  /** The same claim, perhaps completed meanwhile; a completed one is as it was. */
  predicate Continues(r: IdemRecord, r': IdemRecord) {
    && r'.requestHash == r.requestHash && r'.token == r.token && r'.expireAt == r.expireAt
    && (r.status.InProgress? || r.status.Completed?) && (r'.status.InProgress? || r'.status.Completed?)
    && (r.status.Completed? ==> r' == r)
  }

  lemma ClaimContinues(s: Idem.Claims, e: Idem.Event, key: string)
    requires key in s.records && !s.records[key].status.Failed? && (e.key == key ==> !Idem.Dead(s, key, e.now))
    requires !(e.DoFail? && Idem.Closes(s, e, key))
    ensures key in Idem.Step(s, e).records && Continues(s.records[key], Idem.Step(s, e).records[key])
  {
    Idem.LiveRecordKeptIff(s, e, key);
  }

  lemma EpochStep(s: State, c: Call, s': State, reply: Reply, key: string)
    requires StepOk(s, c, s', reply) && |s.shards| == NUM_SHARDS
    requires RecordAt(s, key).Some? && !RecordAt(s, key).value.status.Failed?
    requires During(c, reply, key, RecordAt(s, key).value.expireAt)
    ensures |s'.shards| == NUM_SHARDS && RecordAt(s', key).Some?
    ensures Continues(RecordAt(s, key).value, RecordAt(s', key).value)
  {
    hide ShardIndex, ClaimOk, QuotaOk, RateOk, EntriesOk, ShardPurged, Idem.Step;
    var i := ShardIndex(key);
    if IsClaim(c.op) {
      OnlyItsClaims(s, c, s', reply);
      if ShardIndex(c.op.key) == i {
        ClaimIsStep(s, c, s', reply, key);
        if c.op.Fail? && c.op.key == key { FailureReply(s, c, s', reply); }
        ClaimContinues(Claims(s, i), EventOf(c), key);
      }
    } else {
      OthersKeep(s, c, s', reply);
    }
  }

  lemma FailureReply(s: State, c: Call, s': State, reply: Reply)
    requires c.op.Fail? && ClaimOk(s, c, s', reply)
    ensures reply == OfClose(Idem.Admit(Claims(s, ShardIndex(c.op.key)), c.op.key, c.op.owner, c.now))
  {
    hide ShardIndex;
  }

  /** What a begin is told while the claim lasts. */
  lemma BeginDuring(s: State, c: Call, s': State, reply: Reply, key: string)
    requires StepOk(s, c, s', reply) && |s.shards| == NUM_SHARDS && BeginsAt(c, key)
    requires RecordAt(s, key).Some? && !RecordAt(s, key).value.status.Failed?
    requires !Expired(RecordAt(s, key).value.expireAt, c.now)
    ensures var r := RecordAt(s, key).value;
            && (c.op.owner == "" ==> GivenBy(c, reply, key) == [])
            && (r.status.Completed? && c.op.hash == r.requestHash ==>
                reply == OfBegin(Idem.Replay(r.token, r.code, r.body)))
  {
    hide ShardIndex, Idem.Token;
    assert ClaimOk(s, c, s', reply);
  }

  lemma {:induction false} EpochRun(states: seq<State>, calls: seq<Call>, replies: seq<Reply>, key: string, n: nat)
    requires Trace(states, calls, replies) && n < |states| && |states[0].shards| == NUM_SHARDS
    requires RecordAt(states[0], key).Some? && !RecordAt(states[0], key).value.status.Failed?
    requires forall i :: 0 <= i < n ==> During(calls[i], replies[i], key, RecordAt(states[0], key).value.expireAt)
    ensures |states[n].shards| == NUM_SHARDS && RecordAt(states[n], key).Some?
    ensures Continues(RecordAt(states[0], key).value, RecordAt(states[n], key).value)
  {
    hide StepOk, RecordAt, During;
    if n > 0 {
      EpochRun(states, calls, replies, key, n - 1);
      assert StepOk(states[n - 1], calls[n - 1], states[n], replies[n - 1]);
      EpochStep(states[n - 1], calls[n - 1], states[n], replies[n - 1], key);
    }
  }

  /** Over every run of the store: once a claim is completed, every begin with its hash is told its code
      and body, until its time is over or a failure is admitted. */
  lemma StoreReplays(states: seq<State>, calls: seq<Call>, replies: seq<Reply>, key: string, j: nat)
    requires Trace(states, calls, replies) && j < |calls| && |states[0].shards| == NUM_SHARDS
    requires RecordAt(states[0], key).Some? && RecordAt(states[0], key).value.status.Completed?
    requires forall i :: 0 <= i <= j ==> During(calls[i], replies[i], key, RecordAt(states[0], key).value.expireAt)
    requires BeginsAt(calls[j], key) && calls[j].op.hash == RecordAt(states[0], key).value.requestHash
    ensures var r := RecordAt(states[0], key).value; replies[j] == OfBegin(Idem.Replay(r.token, r.code, r.body))
  {
    hide StepOk, RecordAt;
    EpochRun(states, calls, replies, key, j);
    assert StepOk(states[j], calls[j], states[j + 1], replies[j]);
    BeginDuring(states[j], calls[j], states[j + 1], replies[j], key);
  }

  /** The first completion wins: whatever runs between, short of a failure that is admitted and of the
      claim's end, and whoever completes it again, its code and body are what later begins are told. */
  lemma StoreFirstCompletionWins(states: seq<State>, calls: seq<Call>, replies: seq<Reply>, key: string, j: nat)
    requires Trace(states, calls, replies) && 0 < j < |calls| && |states[0].shards| == NUM_SHARDS
    requires calls[0].op.Complete? && calls[0].op.key == key && replies[0] == OfClose(Idem.Done)
    requires RecordAt(states[0], key).Some? && !RecordAt(states[0], key).value.status.Completed?
    requires forall i :: 0 < i <= j ==> During(calls[i], replies[i], key, RecordAt(states[0], key).value.expireAt)
    requires BeginsAt(calls[j], key) && calls[j].op.hash == RecordAt(states[0], key).value.requestHash
    ensures replies[j] == OfBegin(Idem.Replay(RecordAt(states[0], key).value.token, calls[0].op.code, calls[0].op.body))
  {
    hide StepOk, RecordAt, During;
    assert StepOk(states[0], calls[0], states[1], replies[0]);
    CompletedNow(states[0], calls[0], states[1], replies[0], key);
    StoreReplays(states[1..], calls[1..], replies[1..], key, j - 1);
  }

  lemma CompletedNow(s: State, c: Call, s': State, reply: Reply, key: string)
    requires StepOk(s, c, s', reply) && |s.shards| == NUM_SHARDS && c.op.Complete? && c.op.key == key
    requires reply == OfClose(Idem.Done) && RecordAt(s, key).Some? && !RecordAt(s, key).value.status.Completed?
    ensures |s'.shards| == NUM_SHARDS
    ensures RecordAt(s', key)
            == Some(RecordAt(s, key).value.(status := Completed, code := c.op.code, body := c.op.body))
  {
    hide ShardIndex;
    assert ClaimOk(s, c, s', reply);
  }

  /** A claim and everything until its time is over or a failure of it is admitted: of all callers
      without a token exactly the one that opened it executes. */
  lemma StoreOneExecution(states: seq<State>, calls: seq<Call>, replies: seq<Reply>, key: string)
    requires Trace(states, calls, replies) && |states[0].shards| == NUM_SHARDS && calls != []
    requires BeginsAt(calls[0], key) && calls[0].op.owner == "" && replies[0].OfBegin? && replies[0].begun.Execute?
    requires forall i :: 0 < i < |calls| ==>
               During(calls[i], replies[i], key, Deadline(calls[0].now, calls[0].op.ttl))
               && (BeginsAt(calls[i], key) ==> calls[i].op.owner == "")
    ensures Given(calls, replies, key) == [replies[0].begun.token]
  {
    hide StepOk, During, RecordAt, BeginsAt, Deadline;
    assert StepOk(states[0], calls[0], states[1], replies[0]);
    ClaimedNow(states[0], calls[0], states[1], replies[0], key);
    NoneGiven(states[1..], calls[1..], replies[1..], key);
    assert GivenBy(calls[0], replies[0], key) == [replies[0].begun.token];
  }

  lemma ClaimedNow(s: State, c: Call, s': State, reply: Reply, key: string)
    requires StepOk(s, c, s', reply) && |s.shards| == NUM_SHARDS && BeginsAt(c, key) && c.op.owner == ""
    requires reply.OfBegin? && reply.begun.Execute?
    ensures |s'.shards| == NUM_SHARDS && RecordAt(s', key).Some? && RecordAt(s', key).value.status.InProgress?
    ensures RecordAt(s', key).value.expireAt == Deadline(c.now, c.op.ttl)
  {
    hide ShardIndex, Idem.Token, Deadline;
    assert ClaimOk(s, c, s', reply);
  }

  lemma {:induction false} NoneGiven(states: seq<State>, calls: seq<Call>, replies: seq<Reply>, key: string)
    requires Trace(states, calls, replies) && |states[0].shards| == NUM_SHARDS
    requires RecordAt(states[0], key).Some? && !RecordAt(states[0], key).value.status.Failed?
    requires forall i :: 0 <= i < |calls| ==>
               During(calls[i], replies[i], key, RecordAt(states[0], key).value.expireAt)
               && (BeginsAt(calls[i], key) ==> calls[i].op.owner == "")
    ensures Given(calls, replies, key) == []
    decreases |calls|
  {
    hide StepOk, RecordAt, Touches;
    if calls != [] {
      assert StepOk(states[0], calls[0], states[1], replies[0]);
      EpochStep(states[0], calls[0], states[1], replies[0], key);
      if BeginsAt(calls[0], key) {
        Touching(calls[0], key);
        BeginDuring(states[0], calls[0], states[1], replies[0], key);
      }
      NoneGiven(states[1..], calls[1..], replies[1..], key);
    }
  }

  lemma Touching(c: Call, key: string)
    requires BeginsAt(c, key)
    ensures Touches(c, key)
  {
  }
}
