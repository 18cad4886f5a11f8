/** The streams a GKWP/2 session has open, at most `MAX_STREAMS` at a time. */
module Streams {
  import opened Sequences

  const MAX_STREAMS := 1024
  const IDLE_TIMEOUT := 30000

  predicate IdleTooLong(lastActivity: nat, now: nat) {
    now > lastActivity && now - lastActivity >= IDLE_TIMEOUT
  }

  class StreamManager {
    /** Open stream ids with the time of their last activity. */
    var streams: map<nat, nat>

    ghost predicate Valid()
      reads this
    {
      |streams| <= MAX_STREAMS
    }

    constructor ()
      ensures Valid() && streams == map[]
    {
      streams := map[];
    }

    predicate CanOpenStream(id: nat)
      reads this
    {
      id in streams || |streams| < MAX_STREAMS
    }

    /** The stream is there afterwards unless the cap is reached, and the cap is never passed. */
    method GetOrCreateStream(id: nat, now: nat) returns (found: bool)
      requires Valid()
      modifies this
      ensures Valid() && found == old(CanOpenStream(id))
      ensures streams == if found then old(streams)[id := now] else old(streams)
    {
      if id in streams {
        streams := streams[id := now];
        return true;
      }
      if |streams| >= MAX_STREAMS { return false; }
      streams := streams[id := now];
      return true;
    }

    method CloseStream(id: nat)
      requires Valid()
      modifies this
      ensures Valid() && streams == old(streams) - {id}
    {
      streams := streams - {id};
      assert streams.Keys <= old(streams).Keys;
      SubsetSize(streams.Keys, old(streams).Keys);
    }

    /** Removes exactly the streams idle for the timeout and reports each of them once. */
    method PurgeIdleStreams(now: nat) returns (removed: seq<nat>)
      requires Valid()
      modifies this
      ensures Valid()
      ensures Distinct(removed)
      ensures forall id :: id in removed <==> id in old(streams) && old(streams)[id] + 30000 <= now
      ensures streams == map id | id in old(streams) && now < old(streams)[id] + 30000 :: old(streams)[id]
    {
      removed := [];
      var todo := streams.Keys;
      while todo != {}
        invariant todo <= streams.Keys && streams == old(streams)
        invariant Distinct(removed)
        invariant forall id :: id in removed <==> id in streams && id !in todo && IdleTooLong(streams[id], now)
        decreases todo
      {
        var id :| id in todo;
        if IdleTooLong(streams[id], now) {
          AppendDistinct(removed, [id]);
          removed := removed + [id];
        }
        todo := todo - {id};
      }
      hide Distinct;
      ghost var first := streams;
      for i := 0 to |removed|
        invariant forall id :: id in streams <==> id in first && id !in removed[..i]
        invariant forall id :: id in streams ==> streams[id] == first[id]
        invariant Valid()
      {
        ghost var before := streams;
        streams := streams - {removed[i]};
        assert removed[..i + 1] == removed[..i] + [removed[i]];
        SubsetSize(streams.Keys, before.Keys);
      }
      assert removed[..|removed|] == removed;
    }
  }

  lemma {:induction false} SubsetSize<T>(a: set<T>, b: set<T>)
    requires a <= b
    ensures |a| <= |b|
  {
    if a != {} {
      var x :| x in a;
      SubsetSize(a - {x}, b - {x});
    }
  }
}
