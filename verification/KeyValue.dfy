/** Plain keys with expiry. The reference is a map that simply forgets entries when they expire; the
    store instead keeps them until something stumbles over them. */
module KeyValue {
  import opened Options
  import opened Records
  import opened Decimal
  import Glob

  type Entries = map<string, Entry>

  datatype Condition = Always | IfAbsent | IfPresent

  datatype Op =
    | Set(key: string, value: string, condition: Condition, ttl: nat)
    | Get(key: string)
    | Exists(key: string)
    | TypeOf(key: string)
    | Expire(key: string, ttl: nat)
    | Ttl(key: string)
    | Pttl(key: string)
    | Persist(key: string)
    | IncrBy(key: string, delta: int, ttl: nat)
    | DbSize
    | Keys(pattern: string)

  datatype Reply =
    | Flag(yes: bool)
    | Value(value: Option<string>)
    | Kind(kind: DataType)
    | Number(number: int)
    | WrongType | NotAnInteger | Overflow
    | Size(size: nat)
    | KeySet(keys: set<string>)

  function Live(entries: Entries, now: nat): Entries {
    map k | k in entries && !Expired(entries[k].expireAt, now) :: entries[k]
  }

  // ----- the reference -----

  /** What an operation on one key does, given the live entry under that key. */
  function OnCell(cell: Option<Entry>, op: Op, now: nat): (Option<Entry>, Reply)
    requires !op.DbSize? && !op.Keys?
  {
    match op
    case Set(_, value, condition, ttl) =>
      if (condition.IfAbsent? && cell.Some?) || (condition.IfPresent? && cell.None?) then (cell, Flag(false))
      else
        var createdAt := if cell.Some? then cell.value.createdAt else now;
        (Some(Entry(value, StringType, createdAt, Deadline(now, ttl))), Flag(true))
    case Get(_) => (cell, Value(if cell.Some? then Some(cell.value.value) else None))
    case Exists(_) => (cell, Flag(cell.Some?))
    case TypeOf(_) => (cell, Kind(if cell.Some? then cell.value.kind else NoType))
    case Expire(_, ttl) =>
      if cell.None? then (None, Flag(false))
      else if ttl == 0 then (None, Flag(true))
      else (Some(cell.value.(expireAt := Deadline(now, ttl))), Flag(true))
    case Ttl(_) => (cell, Number(SecondsLeft(cell, now)))
    case Pttl(_) => (cell, Number(MillisLeft(cell, now)))
    case Persist(_) =>
      if cell.None? || cell.value.expireAt == 0 then (cell, Flag(false))
      else (Some(cell.value.(expireAt := 0)), Flag(true))
    case IncrBy(_, delta, ttl) => Incremented(cell, delta, ttl, now)
  }

  /** The difference is cast to a signed number, so that a long time left comes out negative. */
  function MillisLeft(cell: Option<Entry>, now: nat): int {
    if cell.None? then -2 else if cell.value.expireAt == 0 then -1 else Signed(Wrap(cell.value.expireAt - now))
  }

  /** Rounded up, in unsigned arithmetic: a time left close to 2^64 wraps to none. */
  function SecondsLeft(cell: Option<Entry>, now: nat): int {
    if cell.None? then -2 else if cell.value.expireAt == 0 then -1
    else Wrap(Wrap(cell.value.expireAt - now) + 999) / 1000
  }

  /** The time left is reported as it is exactly when it fits the signed reply. */
  lemma MillisLeftIff(e: Entry, now: nat)
    requires now < e.expireAt < U64
    ensures MillisLeft(Some(e), now) == e.expireAt - now <==> e.expireAt - now <= I64_MAX
    ensures MillisLeft(Some(e), now) < 0 <==> e.expireAt - now > I64_MAX
  {
  }

  /** The seconds cover the time left, with less than one to spare, exactly when rounding up fits 64
      bits; otherwise the reply is 0. */
  lemma SecondsLeftIff(e: Entry, now: nat)
    requires now < e.expireAt < U64
    ensures var ms, s := e.expireAt - now, SecondsLeft(Some(e), now);
            && (ms <= s * 1000 < ms + 1000 <==> ms + 999 < U64)
            && (ms + 999 >= U64 ==> s == 0)
  {
  }

  /** A key set to last 2^63 ms is live, and Pttl says it is long gone. */
  lemma LongTimeLeft(now: nat)
    requires now <= I64_MAX
    ensures var (live, _) := Ideal(map[], Set("k", "v", Always, I64_MAX + 1), now);
            "k" in live && Ideal(live, Pttl("k"), now).1 == Number(I64_MIN)
  {
  }

  function Incremented(cell: Option<Entry>, delta: int, ttl: nat, now: nat): (Option<Entry>, Reply) {
    if cell.None? then (Some(Entry(IntText(delta), StringType, now, Deadline(now, ttl))), Number(delta))
    else if !cell.value.kind.StringType? then (cell, WrongType)
    else
      var parsed := Stoll(cell.value.value);
      if parsed.None? || parsed.value.end != |cell.value.value| then (cell, NotAnInteger)
      else
        var sum := parsed.value.value + delta;
        if sum > I64_MAX || sum < I64_MIN then (cell, Overflow)
        else (Some(cell.value.(value := IntText(sum))), Number(sum))
  }

  function Lookup(entries: Entries, key: string): Option<Entry> {
    if key in entries then Some(entries[key]) else None
  }

  function Put(entries: Entries, key: string, cell: Option<Entry>): Entries {
    if cell.Some? then entries[key := cell.value] else entries - {key}
  }

  /** What an operation leaves, unless it is over at once: a deadline that wraps around may be past. */
  function Lasting(cell: Option<Entry>, now: nat): Option<Entry> {
    if cell.Some? && Expired(cell.value.expireAt, now) then None else cell
  }

  /** The reference on a map of live entries: no expiry anywhere. */
  function Ideal(live: Entries, op: Op, now: nat): (Entries, Reply) {
    if op.DbSize? then (live, Size(|live|))
    else if op.Keys? then (live, KeySet(set k | k in live && Glob.Matches(op.pattern, k)))
    else
      var (cell, reply) := OnCell(Lookup(live, op.key), op, now);
      (Put(live, op.key, Lasting(cell, now)), reply)
  }

  /** What the store owes its callers: seen through the live entries it is the reference. */
  ghost predicate Behaves(before: Entries, op: Op, now: nat, after: Entries, reply: Reply) {
    var (live, expected) := Ideal(Live(before, now), op, now);
    Live(after, now) == live && reply == expected
  }

  // ----- lazy expiry -----

  /** The entry an operation finds under a key, and the table once an expired leftover is erased. */
  function LiveCell(entries: Entries, key: string, now: nat): Option<Entry> {
    if key in entries && !Expired(entries[key].expireAt, now) then Some(entries[key]) else None
  }

  function Forget(entries: Entries, key: string, now: nat): Entries {
    if key in entries && Expired(entries[key].expireAt, now) then entries - {key} else entries
  }

  /** The table after an operation: forget the leftover, then write back what it left in the cell. */
  function Served(entries: Entries, op: Op, now: nat): Entries
    requires !op.DbSize? && !op.Keys?
  {
    Put(Forget(entries, op.key, now), op.key, OnCell(LiveCell(entries, op.key, now), op, now).0)
  }

  /** Writing back what was found changes nothing more. */
  lemma PutBack(entries: Entries, key: string, now: nat)
    ensures Put(Forget(entries, key, now), key, LiveCell(entries, key, now)) == Forget(entries, key, now)
  {
  }

  lemma LiveLookup(entries: Entries, key: string, now: nat)
    ensures Lookup(Live(entries, now), key) == LiveCell(entries, key, now)
  {
  }

  lemma LivePut(entries: Entries, key: string, cell: Option<Entry>, now: nat)
    ensures Live(Put(Forget(entries, key, now), key, cell), now) == Put(Live(entries, now), key, Lasting(cell, now))
  {
  }

  lemma ServedBehaves(entries: Entries, op: Op, now: nat)
    requires !op.DbSize? && !op.Keys?
    ensures Behaves(entries, op, now, Served(entries, op, now), OnCell(LiveCell(entries, op.key, now), op, now).1)
  {
    hide OnCell, Live, Put, Forget, Lasting;
    assert Lookup(Live(entries, now), op.key) == LiveCell(entries, op.key, now) by { LiveLookup(entries, op.key, now); }
    LivePut(entries, op.key, OnCell(LiveCell(entries, op.key, now), op, now).0, now);
  }

  // ----- runs -----

  datatype Event =
    | Call(op: Op, now: nat, reply: Reply)
    | Delete(key: string, now: nat, erased: bool)
    | Purge(now: nat)

  ghost predicate StepOk(before: Entries, e: Event, after: Entries) {
    match e
    case Call(op, now, reply) => Behaves(before, op, now, after, reply)
    case Delete(key, now, erased) => after == before - {key} && erased == (key in before)
    case Purge(now) => Dropped(before, EntryDeadline(), now, after)
  }

  ghost predicate Trace(states: seq<Entries>, events: seq<Event>) {
    |states| == |events| + 1 && forall i :: 0 <= i < |events| ==> StepOk(states[i], events[i], states[i + 1])
  }

  predicate Ordered(events: seq<Event>, since: nat) {
    && (forall i :: 0 <= i < |events| ==> since <= events[i].now)
    && (forall i, j :: 0 <= i < j < |events| ==> events[i].now <= events[j].now)
  }

  /** The replies of a run, in order; those of Delete look at expired entries too and are left out. */
  function Replies(events: seq<Event>): seq<Reply> {
    if events == [] then []
    else (if events[0].Call? then [events[0].reply] else []) + Replies(events[1..])
  }

  /** What the clients asked for, without the replies and without the purges. */
  function Question(e: Event): seq<Event> {
    match e
    case Call(op, now, _) => [Call(op, now, Flag(false))]
    case Delete(key, now, _) => [Delete(key, now, false)]
    case Purge(_) => []
  }

  function Asked(events: seq<Event>): seq<Event> {
    if events == [] then [] else Question(events[0]) + Asked(events[1..])
  }

  lemma AskedFirst(events: seq<Event>)
    requires events != []
    ensures if events[0].Purge? then Asked(events) == Asked(events[1..])
            else Asked(events) == Question(events[0]) + Asked(events[1..]) && Asked(events)[1..] == Asked(events[1..])
  {
    BehindOne(Question(events[0]), Asked(events[1..]));
  }

  lemma BehindOne<T>(a: seq<T>, b: seq<T>)
    ensures |a| == 1 ==> (a + b)[1..] == b
    ensures a == [] ==> a + b == b
  {
  }

  function IdealReplies(live: Entries, asked: seq<Event>): seq<Reply>
    decreases |asked|
  {
    if asked == [] then []
    else match asked[0]
      case Call(op, now, _) =>
        var (live', reply) := Ideal(Live(live, now), op, now);
        [reply] + IdealReplies(live', asked[1..])
      case Delete(key, now, _) => IdealReplies(live - {key}, asked[1..])
      case Purge(_) => IdealReplies(live, asked[1..])
  }

  lemma LiveLater(entries: Entries, t: nat, now: nat)
    requires t <= now
    ensures Live(Live(entries, t), now) == Live(entries, now)
  {
  }

  /** The store's view at a later time is determined by its view now. */
  ghost predicate SameView(entries: Entries, live: Entries, t: nat) {
    Live(entries, t) == Live(live, t)
  }

  lemma ViewStep(before: Entries, e: Event, after: Entries, live: Entries, t: nat)
    requires StepOk(before, e, after) && t <= e.now && SameView(before, live, t)
    ensures e.Call? ==>
              var (live', reply) := Ideal(Live(live, e.now), e.op, e.now);
              reply == e.reply && SameView(after, live', e.now)
    ensures e.Delete? ==> SameView(after, live - {e.key}, e.now)
    ensures e.Purge? ==> SameView(after, live, e.now)
  {
    LiveLater(before, t, e.now);
    LiveLater(live, t, e.now);
    if e.Call? {
      hide Ideal;
      LiveLater(after, e.now, e.now);
    } else if e.Delete? {
      assert Live(after, e.now) == Live(before, e.now) - {e.key};
      assert Live(live - {e.key}, e.now) == Live(live, e.now) - {e.key};
    }
  }

  lemma {:induction false} RunIsIdeal(states: seq<Entries>, events: seq<Event>, live: Entries, t: nat)
    requires Trace(states, events) && Ordered(events, t) && SameView(states[0], live, t)
    ensures Replies(events) == IdealReplies(live, Asked(events))
    decreases |events|
  {
    hide Ideal, Live;
    if events != [] {
      var e := events[0];
      ViewStep(states[0], e, states[1], live, t);
      var live' := if e.Call? then Ideal(Live(live, e.now), e.op, e.now).0
                   else if e.Delete? then live - {e.key} else live;
      RunIsIdeal(states[1..], events[1..], live', e.now);
      AskedFirst(events);
    }
  }

  /** Expiry, lazy or active, is unobservable: every run of the store gets the replies of a map that
      forgets entries at the moment they expire. */
  lemma ExpiryUnobservable(states: seq<Entries>, events: seq<Event>)
    requires Trace(states, events) && Ordered(events, 0)
    ensures Replies(events) == IdealReplies(states[0], Asked(events))
  {
    RunIsIdeal(states, events, states[0], 0);
  }

  /** Two runs that were asked the same, from the same start, with purges inserted wherever and
      dropping whichever expired entries, reply the same. */
  lemma PurgesUnobservable(states: seq<Entries>, events: seq<Event>, states': seq<Entries>, events': seq<Event>)
    requires Trace(states, events) && Ordered(events, 0) && Trace(states', events') && Ordered(events', 0)
    requires states[0] == states'[0] && Asked(events) == Asked(events')
    ensures Replies(events) == Replies(events')
  {
    ExpiryUnobservable(states, events);
    ExpiryUnobservable(states', events');
  }

  // ----- the replies of deletions -----

  function DeleteReplies(events: seq<Event>): seq<bool> {
    if events == [] then []
    else (if events[0].Delete? then [events[0].erased] else []) + DeleteReplies(events[1..])
  }

  /** What the reference replies to the deletions: whether the key was there. */
  function IdealDeleteReplies(live: Entries, asked: seq<Event>): seq<bool>
    decreases |asked|
  {
    if asked == [] then []
    else match asked[0]
      case Call(op, now, _) => IdealDeleteReplies(Ideal(Live(live, now), op, now).0, asked[1..])
      case Delete(key, now, _) => [key in Live(live, now)] + IdealDeleteReplies(live - {key}, asked[1..])
      case Purge(_) => IdealDeleteReplies(live, asked[1..])
  }

  predicate Leftover(entries: Entries, key: string, now: nat) {
    key in entries && Expired(entries[key].expireAt, now)
  }

  predicate MeetsLeftover(before: Entries, e: Event) { e.Delete? && Leftover(before, e.key, e.now) }

  predicate NoneMeetsLeftover(states: seq<Entries>, events: seq<Event>)
    requires |states| > |events|
  {
    forall i :: 0 <= i < |events| ==> !MeetsLeftover(states[i], events[i])
  }

  lemma NoneMeetsNext(states: seq<Entries>, events: seq<Event>)
    requires |states| > |events| > 0
    ensures NoneMeetsLeftover(states, events)
            <==> !MeetsLeftover(states[0], events[0]) && NoneMeetsLeftover(states[1..], events[1..])
  {
    hide MeetsLeftover;
    var states', events' := states[1..], events[1..];
    if !MeetsLeftover(states[0], events[0]) && NoneMeetsLeftover(states', events') {
      forall i | 0 <= i < |events| ensures !MeetsLeftover(states[i], events[i]) {
        if i > 0 { assert !MeetsLeftover(states'[i - 1], events'[i - 1]); }
      }
    }
    if NoneMeetsLeftover(states, events) {
      forall i | 0 <= i < |events'| ensures !MeetsLeftover(states'[i], events'[i]) {
        assert !MeetsLeftover(states[i + 1], events[i + 1]);
      }
    }
  }

  lemma {:induction false} DeletesIdealIff(states: seq<Entries>, events: seq<Event>, live: Entries, t: nat)
    requires Trace(states, events) && Ordered(events, t) && SameView(states[0], live, t)
    ensures |DeleteReplies(events)| == |IdealDeleteReplies(live, Asked(events))|
    ensures DeleteReplies(events) == IdealDeleteReplies(live, Asked(events)) <==> NoneMeetsLeftover(states, events)
    decreases |events|
  {
    hide Ideal, Live, MeetsLeftover;
    if events != [] {
      var e := events[0];
      ViewStep(states[0], e, states[1], live, t);
      var live' := if e.Call? then Ideal(Live(live, e.now), e.op, e.now).0
                   else if e.Delete? then live - {e.key} else live;
      DeletesIdealIff(states[1..], events[1..], live', e.now);
      NoneMeetsNext(states, events);
      AskedFirst(events);
      var rest, ideal := DeleteReplies(events[1..]), IdealDeleteReplies(live', Asked(events[1..]));
      if e.Delete? {
        DeleteSees(states[0], e, states[1], live, t);
        HeadAndTail(e.erased, rest, e.key in Live(live, e.now), ideal);
      } else {
        NoLeftoverMet(states[0], e);
        assert [] + rest == rest;
      }
    }
  }

  lemma HeadAndTail(a: bool, rest: seq<bool>, b: bool, ideal: seq<bool>)
    ensures [a] + rest == [b] + ideal <==> a == b && rest == ideal
  {
    assert ([a] + rest)[1..] == rest && ([b] + ideal)[1..] == ideal && ([a] + rest)[0] == a && ([b] + ideal)[0] == b;
  }

  lemma NoLeftoverMet(before: Entries, e: Event)
    requires !e.Delete?
    ensures !MeetsLeftover(before, e)
  {
  }

  lemma DeleteSees(before: Entries, e: Event, after: Entries, live: Entries, t: nat)
    requires e.Delete? && StepOk(before, e, after) && t <= e.now && SameView(before, live, t)
    ensures e.erased == (e.key in Live(live, e.now)) <==> !MeetsLeftover(before, e)
  {
    LiveLater(before, t, e.now);
    LiveLater(live, t, e.now);
  }

  /** Deletions look at the raw table. Over any run their replies are those of the map that forgets
      entries at expiry exactly when no deletion comes upon an entry that has expired and was not
      yet dropped. */
  lemma DeleteRepliesIff(states: seq<Entries>, events: seq<Event>)
    requires Trace(states, events) && Ordered(events, 0)
    ensures DeleteReplies(events) == IdealDeleteReplies(states[0], Asked(events)) <==> NoneMeetsLeftover(states, events)
  {
    DeletesIdealIff(states, events, states[0], 0);
  }

  /** Set with a time-to-live, let it expire, delete: true, or false if a purge came first. */
  lemma PurgeChangesDeleteReply()
    ensures var set1, purge := Call(Set("k", "v", Always, 1), 1, Flag(true)), Purge(5);
            var entry: Entries := map["k" := Entry("v", StringType, 1, 2)];
            && Trace([map[], entry, map[]], [set1, Delete("k", 5, true)])
            && Trace([map[], entry, map[], map[]], [set1, purge, Delete("k", 5, false)])
            && Asked([set1, Delete("k", 5, true)]) == Asked([set1, purge, Delete("k", 5, false)])
  {
    var set1, purge := Call(Set("k", "v", Always, 1), 1, Flag(true)), Purge(5);
    var yes, no := Delete("k", 5, true), Delete("k", 5, false);
    var entry: Entries := map["k" := Entry("v", StringType, 1, 2)];
    assert Live(entry, 1) == entry && Live(map[], 1) == map[];
    assert StepOk(map[], set1, entry);
    assert StepOk(entry, yes, map[]) && StepOk(entry, purge, map[]) && StepOk(map[], no, map[]) by {
      assert entry - {"k"} == map[];
    }
    assert [set1, yes][1..] == [yes] && [yes][1..] == [];
    assert [set1, purge, no][1..] == [purge, no] && [purge, no][1..] == [no] && [no][1..] == [];
    assert Asked([yes]) == Asked([no]) == Asked([purge, no]);
  }
}
