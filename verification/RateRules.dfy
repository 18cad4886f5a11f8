/** What the verdicts of the rate limiter are, told by the calls and the verdicts alone: when a call is
    admitted, how much is left, and when to come back. */
module RateRules {
  import opened Options
  import opened Records
  import Rate = RateLimit

  function Paid(cost: nat): nat { if cost == 0 then 1 else cost }

  /** There is room for a cost: of what the previous window admitted counts the share of it that the
      sliding window still covers, and whole units only. */
  predicate Room(previous: nat, current: nat, limit: nat, window: nat, cost: nat, now: nat)
    requires window > 0
  {
    previous * (window - now % window) < (limit + 1 - current - cost) * window
  }

  /** What calls that were admitted in a window have spent. */
  function Spent(calls: seq<Rate.Event>, replies: seq<Rate.Reply>, window: nat, index: int): nat
    requires |calls| == |replies| && window > 0
  {
    if calls == [] then 0
    else
      var n := |calls| - 1;
      Spent(calls[..n], replies[..n], window, index)
        + if calls[n].Call? && replies[n].Allowed? && calls[n].now / window == index then Paid(calls[n].cost) else 0
  }

  /** The largest cost there is room for, or 0. */
  ghost predicate Largest(left: nat, previous: nat, current: nat, limit: nat, window: nat, now: nat)
    requires window > 0
  {
    forall d: nat :: d >= 1 ==> (d <= left <==> Room(previous, current, limit, window, d, now))
  }

  /** The verdict on a call, after windows that have spent so much. It is allowed exactly when there is
      room for it. What is left is the largest further cost there would be room for at once. And a
      denied caller is sent to the start of the next window. */
  ghost predicate Judged(previous: nat, current: nat, e: Rate.Event, window: nat, reply: Rate.Reply)
    requires e.Call? && window > 0
  {
    var spent := if reply.Allowed? then Paid(e.cost) else 0;
    && (reply.Allowed? <==> Room(previous, current, e.limit, window, Paid(e.cost), e.now))
    && Largest(reply.left, previous, current + spent, e.limit, window, e.now)
    && (reply.Denied? ==> 0 < reply.retryAfter <= window && (e.now + reply.retryAfter) % window == 0)
  }

  /** Every verdict is right, given those before it. */
  ghost predicate Judges(calls: seq<Rate.Event>, replies: seq<Rate.Reply>, window: nat)
    requires window > 0
  {
    && |calls| == |replies|
    && forall i :: 0 <= i < |calls| ==> JudgedAt(calls, replies, window, i)
  }

  ghost predicate JudgedAt(calls: seq<Rate.Event>, replies: seq<Rate.Reply>, window: nat, i: nat)
    requires i < |calls| == |replies| && window > 0
  {
    && calls[i].Call?
    && var index := calls[i].now / window;
       Judged(Spent(calls[..i], replies[..i], window, index - 1), Spent(calls[..i], replies[..i], window, index),
              calls[i], window, replies[i])
  }

  // ----- the arithmetic -----

  lemma FloorAtMost(x: nat, d: nat, n: int)
    requires d > 0
    ensures x / d <= n <==> x < (n + 1) * d
  {
    var q := x / d;
    Rate.FloorLaw(x, d);
    if q <= n {
      Products(q + 1, n + 1, d);
    } else {
      Products(n + 1, q, d);
    }
  }

  lemma Products(a: int, b: int, d: nat)
    requires a <= b
    ensures a * d <= b * d
  {
    assert (b - a) * d >= 0;
    assert b * d == a * d + (b - a) * d;
  }

  lemma RoomIs(previous: nat, current: nat, limit: nat, window: nat, cost: nat, now: nat)
    requires window > 0
    ensures Room(previous, current, limit, window, cost, now)
            <==> Rate.Weighted(previous, current, window, now) + cost <= limit
  {
    FloorAtMost(previous * (window - now % window), window, limit - current - cost);
  }

  lemma NextStart(now: nat, window: nat)
    requires window > 0
    ensures (now + (window - now % window)) % window == 0
  {
    var q := now / window;
    assert now == q * window + now % window;
    assert now + (window - now % window) == (q + 1) * window + 0;
    Multiple(q + 1, window);
  }

  lemma {:induction false} Multiple(q: nat, d: nat)
    requires d > 0
    ensures q * d % d == 0
  {
    var x := q * d;
    Rate.FloorLaw(x, d);
    if x / d < q { Products(x / d + 1, q, d); }
    if x / d > q { Products(q + 1, x / d, d); }
    assert x == x / d * d + x % d;
  }

  lemma VerdictIs(previous: nat, current: nat, e: Rate.Event, window: nat)
    requires e.Call? && window > 0
    ensures Judged(previous, current, e, window,
                   Rate.Verdict(Rate.Weighted(previous, current, window, e.now), e.limit, window, Paid(e.cost), e.now))
  {
    hide Room, Rate.Weighted;
    var estimate := Rate.Weighted(previous, current, window, e.now);
    var reply := Rate.Verdict(estimate, e.limit, window, Paid(e.cost), e.now);
    var spent := if reply.Allowed? then Paid(e.cost) else 0;
    RoomIs(previous, current, e.limit, window, Paid(e.cost), e.now);
    Rate.WeightedBounds(previous, current, spent, window, e.now);
    var used := current + spent;
    forall d: nat | d >= 1 ensures d <= reply.left <==> Room(previous, used, e.limit, window, d, e.now) {
      RoomIs(previous, used, e.limit, window, d, e.now);
    }
    NextStart(e.now, window);
  }

  // ----- the limiter that keeps every admission gives these verdicts -----

  /** The log holds what these calls were admitted for. */
  ghost predicate Logged(calls: seq<Rate.Event>, replies: seq<Rate.Reply>, log: seq<Rate.Admission>, window: nat)
    requires window > 0
  {
    && |calls| == |replies|
    && forall index: int :: Spent(calls, replies, window, index) == Rate.InWindow(log, window, index)
  }

  lemma LogHitJudged(calls: seq<Rate.Event>, replies: seq<Rate.Reply>, log: seq<Rate.Admission>, e: Rate.Event,
                     window: nat)
    requires window > 0 && e.Call? && Logged(calls, replies, log, window)
    ensures var (log', reply) := Rate.LogHit(log, e.limit, window, e.cost, e.now);
            && Logged(calls + [e], replies + [reply], log', window)
            && Judged(Spent(calls, replies, window, e.now / window - 1), Spent(calls, replies, window, e.now / window),
                      e, window, reply)
  {
    hide Judged, Rate.Weighted, Rate.InWindow;
    var (log', reply) := Rate.LogHit(log, e.limit, window, e.cost, e.now);
    var index := e.now / window;
    VerdictIs(Spent(calls, replies, window, index - 1), Spent(calls, replies, window, index), e, window);
    forall i: int ensures Spent(calls + [e], replies + [reply], window, i) == Rate.InWindow(log', window, i) {
      assert (calls + [e])[..|calls|] == calls && (replies + [reply])[..|calls|] == replies;
      if reply.Allowed? { Rate.InWindowAppend(log, Rate.Admission(e.now, Paid(e.cost)), window, i); }
    }
  }

  lemma {:induction false} LogJudgesFrom(done: seq<Rate.Event>, given: seq<Rate.Reply>, log: seq<Rate.Admission>,
                                         window: nat, calls: seq<Rate.Event>)
    requires window > 0 && Judges(done, given, window) && Logged(done, given, log, window)
    requires forall i :: 0 <= i < |calls| ==> calls[i].Call?
    ensures Judges(done + calls, given + Rate.LogReplies(log, window, calls), window)
    decreases |calls|
  {
    hide Judges, Logged, Rate.LogHit;
    if calls == [] {
      assert done + calls == done && given + [] == given;
    } else {
      var e := calls[0];
      var (log', reply) := Rate.LogHit(log, e.limit, window, e.cost, e.now);
      LogHitJudged(done, given, log, e, window);
      OneMoreJudged(done, given, e, reply, window);
      LogJudgesFrom(done + [e], given + [reply], log', window, calls[1..]);
      assert done + [e] + calls[1..] == done + calls;
      var rest := Rate.LogReplies(log', window, calls[1..]);
      assert given + [reply] + rest == given + ([reply] + rest);
    }
  }

  lemma OneMoreJudged(calls: seq<Rate.Event>, replies: seq<Rate.Reply>, e: Rate.Event, reply: Rate.Reply, window: nat)
    requires window > 0 && e.Call? && Judges(calls, replies, window)
    requires Judged(Spent(calls, replies, window, e.now / window - 1), Spent(calls, replies, window, e.now / window),
                    e, window, reply)
    ensures Judges(calls + [e], replies + [reply], window)
  {
    hide Judged, Spent;
    var calls', replies' := calls + [e], replies + [reply];
    forall i | 0 <= i < |calls'| ensures JudgedAt(calls', replies', window, i) {
      if i < |calls| {
        assert JudgedAt(calls, replies, window, i);
        assert calls'[..i] == calls[..i] && replies'[..i] == replies[..i];
      } else {
        assert calls'[..i] == calls && replies'[..i] == replies;
      }
    }
  }

  /** Over any calls, in any order: the verdicts of the limiter that keeps every admission are right. */
  lemma LogJudges(window: nat, calls: seq<Rate.Event>)
    requires window > 0 && forall i :: 0 <= i < |calls| ==> calls[i].Call?
    ensures Judges(calls, Rate.LogReplies([], window, calls), window)
  {
    hide Rate.LogReplies;
    LogJudgesFrom([], [], [], window, calls);
    assert [] + calls == calls && [] + Rate.LogReplies([], window, calls) == Rate.LogReplies([], window, calls);
  }

  // ----- where a record does not count -----

  /** A record of another window, or one that is over, counts for nothing. */
  lemma OtherWindow(r: RateRecord, limit: nat, window: nat, cost: nat, now: nat)
    requires window > 0 && (r.window != window || (r.expireAt > 0 && now >= r.expireAt))
    ensures Rate.Hit64(Some(r), limit, window, cost, now) == Rate.Hit64(None, limit, window, cost, now)
  {
    hide Rate.Weighted;
  }
}
