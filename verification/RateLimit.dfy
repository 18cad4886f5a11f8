/** The sliding window rate limiter: two counters per key stand in for a log of admissions. The
    weight of the previous window is computed exactly, as prev * (window - elapsed) / window. */
module RateLimit {
  import opened Options
  import opened Decimal
  import opened Records

  datatype Reply = Allowed(left: nat) | Denied(left: nat, retryAfter: nat)

  function Fresh(window: nat, now: nat): RateRecord
    requires window > 0
  {
    RateRecord(now / window, 0, 0, window, (now / window + 2) * window)
  }

  /** The record a call works on: expired, missing or re-sized records start over, and windows that
      have passed are rolled. */
  function Refresh(record: Option<RateRecord>, window: nat, now: nat): RateRecord
    requires window > 0
  {
    if record.None? || Expired(record.value.expireAt, now) || record.value.window != window then Fresh(window, now)
    else
      var r, index := record.value, now / window;
      if index - r.index == 1 then RateRecord(index, 0, r.current, window, (index + 2) * window)
      else if index != r.index then Fresh(window, now)
      else r
  }

  /** What still counts of the previous window after e milliseconds of the running one. */
  function Kept(previous: nat, window: nat, e: nat): nat
    requires e < window
  {
    Quotient(previous, window - e, window);
    previous * (window - e) / window
  }

  lemma Quotient(a: nat, b: nat, c: nat)
    requires c > 0
    ensures a * b / c >= 0
  {
    var product: nat := a * b;
    assert product == product / c * c + product % c;
  }

  function Weighted(previous: nat, current: nat, window: nat, now: nat): nat
    requires window > 0
  {
    Kept(previous, window, now % window) + current
  }

  function Verdict(estimate: nat, limit: nat, window: nat, cost: nat, now: nat): Reply
    requires window > 0
  {
    if estimate + cost <= limit then Allowed(limit - (estimate + cost))
    else Denied(if limit >= estimate then limit - estimate else 0, window - now % window)
  }

  /** One call on the record of a key; a cost of 0 counts as 1. */
  function Hit(record: Option<RateRecord>, limit: nat, window: nat, cost: nat, now: nat): (RateRecord, Reply)
    requires window > 0
  {
    var r, cost' := Refresh(record, window, now), if cost == 0 then 1 else cost;
    var reply := Verdict(Weighted(r.previous, r.current, window, now), limit, window, cost', now);
    (if reply.Allowed? then r.(current := r.current + cost') else r, reply)
  }

  // ----- the reference: a limiter that keeps every admission -----

  datatype Admission = Admission(time: nat, cost: nat)

  function InWindow(log: seq<Admission>, window: nat, index: int): nat
    requires window > 0
  {
    if log == [] then 0
    else
      var last := log[|log| - 1];
      InWindow(log[..|log| - 1], window, index) + if last.time / window == index then last.cost else 0
  }

  function LogEstimate(log: seq<Admission>, window: nat, now: nat): nat
    requires window > 0
  {
    Weighted(InWindow(log, window, now / window - 1), InWindow(log, window, now / window), window, now)
  }

  function LogHit(log: seq<Admission>, limit: nat, window: nat, cost: nat, now: nat): (seq<Admission>, Reply)
    requires window > 0
  {
    var cost' := if cost == 0 then 1 else cost;
    var reply := Verdict(LogEstimate(log, window, now), limit, window, cost', now);
    (if reply.Allowed? then log + [Admission(now, cost')] else log, reply)
  }

  // ----- runs -----

  /** A call on the key, or a purge that drops its record if it has expired. */
  datatype Event = Call(limit: nat, cost: nat, now: nat) | Purge(now: nat)

  function Purged(record: Option<RateRecord>, now: nat): Option<RateRecord> {
    if record.Some? && Expired(record.value.expireAt, now) then None else record
  }

  function Replies(record: Option<RateRecord>, window: nat, events: seq<Event>): seq<Reply>
    requires window > 0
    decreases |events|
  {
    if events == [] then []
    else if events[0].Purge? then Replies(Purged(record, events[0].now), window, events[1..])
    else
      var (r, reply) := Hit(record, events[0].limit, window, events[0].cost, events[0].now);
      [reply] + Replies(Some(r), window, events[1..])
  }

  function LogReplies(log: seq<Admission>, window: nat, events: seq<Event>): seq<Reply>
    requires window > 0
    decreases |events|
  {
    if events == [] then []
    else if events[0].Purge? then LogReplies(log, window, events[1..])
    else
      var (log', reply) := LogHit(log, events[0].limit, window, events[0].cost, events[0].now);
      [reply] + LogReplies(log', window, events[1..])
  }

  predicate Ordered(events: seq<Event>, since: nat) {
    && (forall i :: 0 <= i < |events| ==> since <= events[i].now)
    && (forall i, j :: 0 <= i < j < |events| ==> events[i].now <= events[j].now)
  }

  // ----- the two counters represent the log -----

  lemma DivBound(n: nat, window: nat, k: nat)
    requires window > 0
    ensures n >= k * window <==> n / window >= k
  {
    var q := n / window;
    assert n == q * window + n % window;
    if q >= k {
      assert q * window >= k * window;
    } else {
      assert (q + 1) * window <= k * window;
    }
  }

  lemma DivMonotone(m: nat, n: nat, window: nat)
    requires window > 0 && m <= n
    ensures m / window <= n / window
  {
    DivBound(m, window, m / window);
    DivBound(n, window, m / window);
  }

  lemma InWindowAppend(log: seq<Admission>, a: Admission, window: nat, index: int)
    requires window > 0
    ensures InWindow(log + [a], window, index)
            == InWindow(log, window, index) + if a.time / window == index then a.cost else 0
  {
    assert (log + [a])[..|log|] == log;
  }

  ghost predicate EmptyFrom(log: seq<Admission>, window: nat, index: int)
    requires window > 0
  {
    forall i :: i >= index ==> InWindow(log, window, i) == 0
  }

  /** At time t the record stands for the log; a missing record stands for one that no longer counts. */
  ghost predicate Represents(record: Option<RateRecord>, log: seq<Admission>, window: nat, t: nat)
    requires window > 0
  {
    if record.None? then EmptyFrom(log, window, t / window - 1)
    else
      var r := record.value;
      && r.window == window && r.expireAt == (r.index + 2) * window && r.index <= t / window
      && r.current == InWindow(log, window, r.index) && r.previous == InWindow(log, window, r.index - 1)
      && EmptyFrom(log, window, r.index + 1)
  }

  lemma EmptyLater(log: seq<Admission>, window: nat, i: int, j: int)
    requires window > 0 && i <= j && EmptyFrom(log, window, i)
    ensures EmptyFrom(log, window, j)
  {
  }

  /** A purge at any time is unobservable: the record goes on representing the same log. */
  lemma PurgeRepresents(record: Option<RateRecord>, log: seq<Admission>, window: nat, t: nat, now: nat)
    requires window > 0 && t <= now && Represents(record, log, window, t)
    ensures Represents(Purged(record, now), log, window, now)
  {
    DivMonotone(t, now, window);
    if record.None? {
      EmptyLater(log, window, t / window - 1, now / window - 1);
    } else if Expired(record.value.expireAt, now) {
      DivBound(now, window, record.value.index + 2);
      EmptyLater(log, window, record.value.index + 1, now / window - 1);
    }
  }

  /** After refreshing, the counters are the log's totals for the running and the previous window. */
  lemma RefreshRepresents(record: Option<RateRecord>, log: seq<Admission>, window: nat, t: nat, now: nat)
    requires window > 0 && t <= now && Represents(record, log, window, t)
    ensures var r := Refresh(record, window, now);
            r.index == now / window && Represents(Some(r), log, window, now)
  {
    PurgeRepresents(record, log, window, t, now);
    var index := now / window;
    if record.Some? && !Expired(record.value.expireAt, now) {
      DivBound(now, window, record.value.index + 2);
      DivMonotone(t, now, window);
      EmptyLater(log, window, record.value.index + 1, index + 1);
      assert InWindow(log, window, record.value.index + 1) == 0;
    } else {
      assert InWindow(log, window, index) == 0 && InWindow(log, window, index - 1) == 0;
      EmptyLater(log, window, index - 1, index + 1);
    }
  }

  lemma HitRepresents(record: Option<RateRecord>, log: seq<Admission>, limit: nat, window: nat, cost: nat, t: nat,
                      now: nat)
    requires window > 0 && t <= now && Represents(record, log, window, t)
    ensures var (r, reply) := Hit(record, limit, window, cost, now);
            var (log', reply') := LogHit(log, limit, window, cost, now);
            reply == reply' && Represents(Some(r), log', window, now)
  {
    RefreshRepresents(record, log, window, t, now);
    var (log', reply) := LogHit(log, limit, window, cost, now);
    if reply.Allowed? {
      var a := log'[|log|];
      forall i: int
        ensures InWindow(log', window, i) == InWindow(log, window, i) + if now / window == i then a.cost else 0
      {
        InWindowAppend(log, a, window, i);
      }
    }
  }

  /** The two-counter limiter replies exactly as the limiter that keeps the whole log, for any limits
      and costs, any nondecreasing times, and purges inserted anywhere. */
  lemma {:induction false} SameReplies(record: Option<RateRecord>, log: seq<Admission>, window: nat, t: nat,
                                       events: seq<Event>)
    requires window > 0 && Ordered(events, t) && Represents(record, log, window, t)
    ensures Replies(record, window, events) == LogReplies(log, window, events)
    decreases |events|
  {
    if events != [] {
      var e := events[0];
      if e.Purge? {
        PurgeRepresents(record, log, window, t, e.now);
        SameReplies(Purged(record, e.now), log, window, e.now, events[1..]);
      } else {
        HitRepresents(record, log, e.limit, window, e.cost, t, e.now);
        SameReplies(Some(Hit(record, e.limit, window, e.cost, e.now).0),
                    LogHit(log, e.limit, window, e.cost, e.now).0, window, e.now, events[1..]);
      }
    }
  }

  /** From a key never used before. */
  lemma TwoCountersSuffice(window: nat, events: seq<Event>)
    requires window > 0 && Ordered(events, 0)
    ensures Replies(None, window, events) == LogReplies([], window, events)
  {
    SameReplies(None, [], window, 0, events);
  }

  /** Purges alone change no reply. */
  lemma PurgesUnobservable(window: nat, events: seq<Event>, purged: seq<Event>)
    requires window > 0 && Ordered(events, 0) && Ordered(purged, 0) && Calls(events) == Calls(purged)
    ensures Replies(None, window, events) == Replies(None, window, purged)
  {
    TwoCountersSuffice(window, events);
    TwoCountersSuffice(window, purged);
    LogRepliesOfCalls([], window, events);
    LogRepliesOfCalls([], window, purged);
  }

  function Calls(events: seq<Event>): seq<Event> {
    if events == [] then []
    else if events[0].Purge? then Calls(events[1..])
    else [events[0]] + Calls(events[1..])
  }

  lemma {:induction false} LogRepliesOfCalls(log: seq<Admission>, window: nat, events: seq<Event>)
    requires window > 0
    ensures LogReplies(log, window, events) == LogReplies(log, window, Calls(events))
    decreases |events|
  {
    if events != [] {
      var e := events[0];
      if e.Purge? {
        LogRepliesOfCalls(log, window, events[1..]);
      } else {
        LogRepliesOfCalls(LogHit(log, e.limit, window, e.cost, e.now).0, window, events[1..]);
        assert Calls(events)[1..] == Calls(events[1..]);
      }
    }
  }

  // ----- the burst bound -----

  /** The log after a run with one fixed limit. */
  function LogAfter(log: seq<Admission>, limit: nat, window: nat, events: seq<Event>): seq<Admission>
    requires window > 0
    decreases |events|
  {
    if events == [] then log
    else if events[0].Purge? then LogAfter(log, limit, window, events[1..])
    else LogAfter(LogHit(log, limit, window, events[0].cost, events[0].now).0, limit, window, events[1..])
  }

  predicate NoneAfter(log: seq<Admission>, t: nat) {
    forall i :: 0 <= i < |log| ==> log[i].time <= t
  }

  lemma {:induction false} NothingInFuture(log: seq<Admission>, window: nat, t: nat, index: int)
    requires window > 0 && NoneAfter(log, t) && index > t / window
    ensures InWindow(log, window, index) == 0
  {
    if log != [] {
      NothingInFuture(log[..|log| - 1], window, t, index);
      DivMonotone(log[|log| - 1].time, t, window);
    }
  }

  lemma WeightShrinks(previous: nat, window: nat, e: nat, e': nat)
    requires 0 <= e <= e' < window
    ensures Kept(previous, window, e') <= Kept(previous, window, e) <= previous
  {
    var less, more := previous * (window - e'), previous * (window - e);
    MulMonotone(window - e', window - e, previous);
    MulMonotone(window - e, window, previous);
    DivMonotone(less, more, window);
    FloorLaw(more, window);
    if more / window > previous { MulMonotone(previous + 1, more / window, window); }
  }

  lemma WeightedFalls(previous: nat, current: nat, window: nat, t: nat, t': nat)
    requires window > 0 && t <= t' && t / window == t' / window
    ensures Weighted(previous, current, window, t') <= Weighted(previous, current, window, t)
  {
    hide Kept;
    var i := t / window;
    assert t == i * window + t % window && t' == i * window + t' % window;
    WeightShrinks(previous, window, t % window, t' % window);
  }

  lemma WeightedBounds(previous: nat, current: nat, extra: nat, window: nat, t: nat)
    requires window > 0
    ensures current <= Weighted(previous, current, window, t) <= previous + current
    ensures Weighted(previous, current + extra, window, t) == Weighted(previous, current, window, t) + extra
  {
    hide Kept;
    WeightShrinks(previous, window, t % window, t % window);
  }

  /** Without an admission the estimate never rises, also across one or more window changes. */
  lemma EstimateFalls(log: seq<Admission>, window: nat, t: nat, t': nat)
    requires window > 0 && t <= t' && NoneAfter(log, t)
    ensures LogEstimate(log, window, t') <= LogEstimate(log, window, t)
  {
    hide Weighted, InWindow;
    var i, i' := t / window, t' / window;
    var previous, current := InWindow(log, window, i - 1), InWindow(log, window, i);
    DivMonotone(t, t', window);
    if i' == i {
      WeightedFalls(previous, current, window, t, t');
    } else {
      NothingInFuture(log, window, t, i');
      WeightedBounds(previous, current, 0, window, t);
      WeightedBounds(InWindow(log, window, i' - 1), 0, 0, window, t');
      if i' > i + 1 { NothingInFuture(log, window, t, i' - 1); }
    }
  }

  /** No window ever admits more than the limit, and neither does the estimate exceed it. */
  ghost predicate WithinLimit(log: seq<Admission>, limit: nat, window: nat, t: nat)
    requires window > 0
  {
    && NoneAfter(log, t)
    && LogEstimate(log, window, t) <= limit
    && forall i: int :: InWindow(log, window, i) <= limit
  }

  lemma NothingAdmitted(limit: nat, window: nat)
    requires window > 0
    ensures WithinLimit([], limit, window, 0) && Represents(None, [], window, 0)
  {
    WeightedBounds(0, 0, 0, window, 0);
  }

  /** A call with some limit keeps every larger one. */
  lemma HitWithinLimit(log: seq<Admission>, limit: nat, most: nat, window: nat, cost: nat, t: nat, now: nat)
    requires window > 0 && t <= now && limit <= most && WithinLimit(log, most, window, t)
    ensures WithinLimit(LogHit(log, limit, window, cost, now).0, most, window, now)
    ensures LogEstimate(log, window, now) <= most
  {
    hide Weighted, InWindow;
    EstimateFalls(log, window, t, now);
    var (log', reply) := LogHit(log, limit, window, cost, now);
    if reply.Allowed? {
      var a := log'[|log|];
      WeightedBounds(InWindow(log, window, now / window - 1), InWindow(log, window, now / window), a.cost, window, now);
      forall i: int
        ensures InWindow(log', window, i) == InWindow(log, window, i) + if now / window == i then a.cost else 0
      {
        InWindowAppend(log, a, window, i);
      }
    }
  }

  lemma WaitWithinLimit(log: seq<Admission>, limit: nat, window: nat, t: nat, now: nat)
    requires window > 0 && t <= now && WithinLimit(log, limit, window, t)
    ensures WithinLimit(log, limit, window, now)
  {
    hide LogEstimate, InWindow;
    EstimateFalls(log, window, t, now);
  }

  lemma {:induction false} RunWithinLimit(log: seq<Admission>, limit: nat, window: nat, t: nat, events: seq<Event>)
    requires window > 0 && Ordered(events, t) && WithinLimit(log, limit, window, t)
    ensures WithinLimit(LogAfter(log, limit, window, events), limit, window,
                        if events == [] then t else events[|events| - 1].now)
    decreases |events|
  {
    hide WithinLimit, LogHit;
    if events != [] {
      var e := events[0];
      if e.Purge? {
        WaitWithinLimit(log, limit, window, t, e.now);
        RunWithinLimit(log, limit, window, e.now, events[1..]);
      } else {
        HitWithinLimit(log, limit, limit, window, e.cost, t, e.now);
        RunWithinLimit(LogHit(log, limit, window, e.cost, e.now).0, limit, window, e.now, events[1..]);
      }
    }
  }

  function CeilDiv(n: nat, d: nat): nat
    requires d > 0
  {
    (n + d - 1) / d
  }

  /** The record after the same run. */
  function RecordAfter(record: Option<RateRecord>, limit: nat, window: nat, events: seq<Event>): Option<RateRecord>
    requires window > 0
    decreases |events|
  {
    if events == [] then record
    else if events[0].Purge? then RecordAfter(Purged(record, events[0].now), limit, window, events[1..])
    else RecordAfter(Some(Hit(record, limit, window, events[0].cost, events[0].now).0), limit, window, events[1..])
  }

  lemma {:induction false} RunRepresents(record: Option<RateRecord>, log: seq<Admission>, limit: nat, window: nat,
                                         t: nat, events: seq<Event>)
    requires window > 0 && Ordered(events, t) && Represents(record, log, window, t)
    ensures Represents(RecordAfter(record, limit, window, events), LogAfter(log, limit, window, events), window,
                       if events == [] then t else events[|events| - 1].now)
    decreases |events|
  {
    if events != [] {
      var e := events[0];
      if e.Purge? {
        PurgeRepresents(record, log, window, t, e.now);
        RunRepresents(Purged(record, e.now), log, limit, window, e.now, events[1..]);
      } else {
        HitRepresents(record, log, limit, window, e.cost, t, e.now);
        RunRepresents(Some(Hit(record, limit, window, e.cost, e.now).0),
                      LogHit(log, limit, window, e.cost, e.now).0, limit, window, e.now, events[1..]);
      }
    }
  }

  /** At every moment after any run with one limit: the estimate is within the limit, the counters are
      the admissions of the running and the previous window, and together those never exceed the
      limit by more than the part of it that has slid out, ceil(limit * elapsed / window). */
  lemma BurstBound(limit: nat, window: nat, events: seq<Event>, now: nat)
    requires window > 0 && Ordered(events, 0) && forall i :: 0 <= i < |events| ==> events[i].now <= now
    ensures var log := LogAfter([], limit, window, events);
            var r := Refresh(RecordAfter(None, limit, window, events), window, now);
            && r.current == InWindow(log, window, now / window)
            && r.previous == InWindow(log, window, now / window - 1)
            && Weighted(r.previous, r.current, window, now) <= limit
            && r.previous + r.current <= limit + CeilDiv(limit * (now % window), window)
  {
    hide Weighted, InWindow, RecordAfter, LogAfter, Refresh, CeilDiv;
    var log := LogAfter([], limit, window, events);
    var t := if events == [] then 0 else events[|events| - 1].now;
    NothingAdmitted(limit, window);
    RunWithinLimit([], limit, window, 0, events);
    RunRepresents(None, [], limit, window, 0, events);
    RefreshRepresents(RecordAfter(None, limit, window, events), log, window, t, now);
    EstimateFalls(log, window, t, now);
    WithinBound(InWindow(log, window, now / window - 1), InWindow(log, window, now / window), limit, window, now);
  }

  lemma WithinBound(previous: nat, current: nat, limit: nat, window: nat, now: nat)
    requires window > 0 && previous <= limit && Weighted(previous, current, window, now) <= limit
    ensures previous + current <= limit + CeilDiv(limit * (now % window), window)
  {
    hide Kept, CeilDiv;
    SlidOut(previous, limit, window, now % window);
  }

  lemma FloorLaw(n: nat, d: nat)
    requires d > 0
    ensures n / d * d <= n < n / d * d + d
  {
  }

  lemma MulMonotone(a: nat, b: nat, c: nat)
    requires a <= b
    ensures a * c <= b * c
  {
  }

  lemma Distribute(a: nat, b: nat, c: nat)
    ensures (a + b + 1) * c == a * c + b * c + c
  {
  }

  lemma SlidOut(previous: nat, limit: nat, window: nat, e: nat)
    requires e < window && previous <= limit
    ensures previous - Kept(previous, window, e) <= CeilDiv(limit * e, window)
  {
    var kept, c := Kept(previous, window, e), CeilDiv(limit * e, window);
    FloorLaw(previous * (window - e), window);
    FloorLaw(limit * e + window - 1, window);
    hide *;
    MulMonotone(previous, limit, e);
    assert previous * (window - e) == previous * window - previous * e;
    Distribute(kept, c, window);
    assert previous * window < (kept + c + 1) * window;
    if previous > kept + c { MulMonotone(kept + c + 1, previous, window); }
  }

  // ----- in the 64-bit arithmetic of the code -----

  function Fresh64(window: nat, now: nat): RateRecord
    requires window > 0
  {
    Fresh(window, now).(expireAt := Wrap((now / window + 2) * window))
  }

  function Refresh64(record: Option<RateRecord>, window: nat, now: nat): RateRecord
    requires window > 0
  {
    if record.None? || Expired(record.value.expireAt, now) || record.value.window != window then Fresh64(window, now)
    else
      var r, index := record.value, now / window;
      if index - r.index == 1 then Fresh64(window, now).(previous := r.current)
      else if index != r.index then Fresh64(window, now)
      else r
  }

  /** One call, every sum taken modulo 2^64. */
  function Hit64(record: Option<RateRecord>, limit: nat, window: nat, cost: nat, now: nat): (RateRecord, Reply)
    requires window > 0
  {
    var r, cost' := Refresh64(record, window, now), if cost == 0 then 1 else cost;
    var estimate := Wrap(Weighted(r.previous, r.current, window, now));
    var total := Wrap(estimate + cost');
    if total <= limit then (r.(current := Wrap(r.current + cost')), Allowed(limit - total))
    else (r, Denied(if limit >= estimate then limit - estimate else 0, window - now % window))
  }

  function Replies64(record: Option<RateRecord>, window: nat, events: seq<Event>): seq<Reply>
    requires window > 0
    decreases |events|
  {
    if events == [] then []
    else if events[0].Purge? then Replies64(Purged(record, events[0].now), window, events[1..])
    else
      var (r, reply) := Hit64(record, events[0].limit, window, events[0].cost, events[0].now);
      [reply] + Replies64(Some(r), window, events[1..])
  }

  /** Limits and costs leave room in 64 bits, and so do the times. */
  predicate RoomFor(e: Event, limit: nat, cost: nat, window: nat) {
    && e.now + 2 * window < U64
    && (e.Call? ==> e.limit <= limit && e.cost <= cost)
  }

  lemma NoWrap(record: Option<RateRecord>, limit: nat, window: nat, cost: nat, now: nat)
    requires window > 0 && now + 2 * window < U64
    requires var r := Refresh(record, window, now);
             Weighted(r.previous, r.current, window, now) + cost + 1 < U64
    ensures Hit64(record, limit, window, cost, now) == Hit(record, limit, window, cost, now)
  {
    hide Weighted;
    var r := Refresh(record, window, now);
    RoundedDown(now, window);
    WeightedBounds(r.previous, r.current, 0, window, now);
  }

  lemma RoundedDown(now: nat, window: nat)
    requires window > 0
    ensures (now / window + 2) * window <= now + 2 * window
  {
    FloorLaw(now, window);
    assert (now / window + 2) * window == now / window * window + 2 * window;
  }

  lemma EstimateOfLog(record: Option<RateRecord>, log: seq<Admission>, window: nat, t: nat, now: nat)
    requires window > 0 && t <= now && Represents(record, log, window, t)
    ensures var r := Refresh(record, window, now);
            Weighted(r.previous, r.current, window, now) == LogEstimate(log, window, now)
  {
    hide Weighted, InWindow;
    RefreshRepresents(record, log, window, t, now);
  }

  /** Within the limits of 64 bits a call on the record and one on the log stay together. */
  lemma MachineHit(record: Option<RateRecord>, log: seq<Admission>, window: nat, t: nat, most: nat, dearest: nat,
                   limit: nat, cost: nat, now: nat)
    requires window > 0 && t <= now && Represents(record, log, window, t) && WithinLimit(log, most, window, t)
    requires most + dearest + 1 < U64 && RoomFor(Call(limit, cost, now), most, dearest, window)
    ensures var (r, reply) := Hit64(record, limit, window, cost, now);
            var (log', reply') := LogHit(log, limit, window, cost, now);
            && reply == reply' && Represents(Some(r), log', window, now) && WithinLimit(log', most, window, now)
  {
    hide Represents, WithinLimit, Hit, Hit64, LogHit, LogEstimate, Weighted, Refresh;
    EstimateOfLog(record, log, window, t, now);
    HitWithinLimit(log, limit, most, window, cost, t, now);
    NoWrap(record, limit, window, cost, now);
    HitRepresents(record, log, limit, window, cost, t, now);
  }

  lemma {:induction false} SameReplies64(record: Option<RateRecord>, log: seq<Admission>, window: nat, t: nat,
                                         events: seq<Event>, limit: nat, cost: nat)
    requires window > 0 && Ordered(events, t) && Represents(record, log, window, t)
    requires WithinLimit(log, limit, window, t)
    requires limit + cost + 1 < U64 && forall i :: 0 <= i < |events| ==> RoomFor(events[i], limit, cost, window)
    ensures Replies64(record, window, events) == LogReplies(log, window, events)
    decreases |events|
  {
    hide Represents, WithinLimit, Hit, Hit64, LogHit, LogEstimate, Weighted, Refresh;
    if events != [] {
      var e := events[0];
      assert RoomFor(e, limit, cost, window);
      if e.Purge? {
        PurgeRepresents(record, log, window, t, e.now);
        WaitWithinLimit(log, limit, window, t, e.now);
        SameReplies64(Purged(record, e.now), log, window, e.now, events[1..], limit, cost);
      } else {
        MachineHit(record, log, window, t, limit, cost, e.limit, e.cost, e.now);
        SameReplies64(Some(Hit64(record, e.limit, window, e.cost, e.now).0),
                      LogHit(log, e.limit, window, e.cost, e.now).0, window, e.now, events[1..], limit, cost);
      }
    }
  }

  /** On any key, whatever the purges: with limits, costs and times that leave room in 64 bits, the
      code replies as the limiter that keeps the whole log. */
  lemma MachineReplies(window: nat, events: seq<Event>, limit: nat, cost: nat)
    requires window > 0 && Ordered(events, 0) && limit + cost + 1 < U64
    requires forall i :: 0 <= i < |events| ==> RoomFor(events[i], limit, cost, window)
    ensures Replies64(None, window, events) == LogReplies([], window, events)
  {
    NothingAdmitted(limit, window);
    SameReplies64(None, [], window, 0, events, limit, cost);
  }
}
