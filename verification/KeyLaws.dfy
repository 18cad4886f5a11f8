/** What clients of plain keys see, told by replies alone: after each operation, what every read replies at
    every later time. */
module KeyLaws {
  import opened Options
  import opened Decimal
  import opened Records
  import opened Numerals
  import opened KeyValue
  import Glob

  /** One operation on a map that forgets entries when they expire. */
  function Ask(m: Entries, op: Op, now: nat): (Entries, Reply) { Ideal(Live(m, now), op, now) }

  function Told(m: Entries, op: Op, now: nat): Reply { Ask(m, op, now).1 }

  // ----- what reads reply -----

  /** The milliseconds left as a signed 64-bit number. */
  predicate ToldMillis(reply: int, deadline: nat, now: nat) {
    if deadline == 0 then reply == -1
    else reply == deadline - now - if deadline - now >= 0x8000_0000_0000_0000 then 0x1_0000_0000_0000_0000 else 0
  }

  /** The seconds left, rounded up, where rounding fits 64 bits. */
  predicate ToldSeconds(reply: int, deadline: nat, now: nat) {
    if deadline == 0 then reply == -1
    else deadline - now + 999 < 0x1_0000_0000_0000_0000 ==> deadline - now <= reply * 1000 < deadline - now + 1000
  }

  /** Every read of the key says that it has this value until that time, 0 meaning for ever. */
  ghost predicate Shows(m: Entries, key: string, value: string, deadline: nat, now: nat) {
    && Told(m, Get(key), now) == KeyValue.Value(Some(value))
    && Told(m, Exists(key), now) == Flag(true)
    && Told(m, TypeOf(key), now) == Kind(StringType)
    && Told(m, Pttl(key), now).Number? && ToldMillis(Told(m, Pttl(key), now).number, deadline, now)
    && Told(m, Ttl(key), now).Number? && ToldSeconds(Told(m, Ttl(key), now).number, deadline, now)
  }

  /** Every read of the key says that it is not there. */
  ghost predicate Gone(m: Entries, key: string, now: nat) {
    && Told(m, Get(key), now) == KeyValue.Value(None)
    && Told(m, Exists(key), now) == Flag(false)
    && Told(m, TypeOf(key), now) == Kind(NoType)
    && Told(m, Pttl(key), now) == KeyValue.Number(-2) && Told(m, Ttl(key), now) == KeyValue.Number(-2)
  }

  /** From some time on: the value until the deadline, and then nothing. */
  ghost predicate Lasts(m: Entries, key: string, value: string, deadline: nat, since: nat) {
    forall now: nat :: now >= since ==>
      if deadline == 0 || now < deadline then Shows(m, key, value, deadline, now) else Gone(m, key, now)
  }

  ghost predicate GoneFrom(m: Entries, key: string, since: nat) {
    forall now: nat :: now >= since ==> Gone(m, key, now)
  }

  /** When a time-to-live ends, in 64 bits. */
  function Until(now: nat, ttl: nat): nat { if ttl == 0 then 0 else (now + ttl) % 0x1_0000_0000_0000_0000 }

  // ----- entries and what they show -----

  predicate Has(m: Entries, key: string, value: string, deadline: nat) {
    && key in m && m[key].value == value && m[key].kind.StringType? && m[key].expireAt == deadline
    && deadline < 0x1_0000_0000_0000_0000
  }

  lemma HasShows(m: Entries, key: string, value: string, deadline: nat, now: nat)
    requires Has(m, key, value, deadline) && (deadline == 0 || now < deadline)
    ensures Shows(m, key, value, deadline, now)
  {
    hide Incremented, Put, Lasting;
    var cell := Lookup(Live(m, now), key);
    assert cell == Some(m[key]);
    if deadline != 0 {
      SecondsLeftIff(m[key], now);
      MillisAre(m[key], now);
    }
  }

  lemma MillisAre(e: Entry, now: nat)
    requires now < e.expireAt < U64
    ensures ToldMillis(MillisLeft(Some(e), now), e.expireAt, now)
  {
  }

  lemma MissingGone(m: Entries, key: string, now: nat)
    requires key !in Live(m, now)
    ensures Gone(m, key, now)
  {
    hide Incremented, Put, Lasting, Live;
  }

  lemma HasLasts(m: Entries, key: string, value: string, deadline: nat, since: nat)
    requires Has(m, key, value, deadline)
    ensures Lasts(m, key, value, deadline, since)
  {
    hide Shows, Gone;
    forall now: nat | now >= since
      ensures if deadline == 0 || now < deadline then Shows(m, key, value, deadline, now) else Gone(m, key, now)
    {
      if deadline == 0 || now < deadline {
        HasShows(m, key, value, deadline, now);
      } else {
        MissingGone(m, key, now);
      }
    }
  }

  lemma NeverThere(m: Entries, key: string, since: nat)
    requires key !in m
    ensures GoneFrom(m, key, since)
  {
    hide Gone;
    forall now: nat | now >= since ensures Gone(m, key, now) { MissingGone(m, key, now); }
  }

  /** A cell written back: what is over at once is not even kept, and shows the same. */
  lemma WrittenLasts(m: Entries, key: string, e: Entry, now: nat)
    requires e.kind.StringType? && e.expireAt < 0x1_0000_0000_0000_0000
    ensures Lasts(Put(Live(m, now), key, Lasting(Some(e), now)), key, e.value, e.expireAt, now)
  {
    hide Shows, Gone, Live;
    var m' := Put(Live(m, now), key, Lasting(Some(e), now));
    if Expired(e.expireAt, now) {
      forall t: nat | t >= now ensures Gone(m', key, t) {
        assert key !in Live(m', t) by { NotLive(m', key, t); }
        MissingGone(m', key, t);
      }
    } else {
      HasLasts(m', key, e.value, e.expireAt, now);
    }
  }

  lemma NotLive(m: Entries, key: string, now: nat)
    requires key !in m
    ensures key !in Live(m, now)
  {
  }

  // ----- what writes do -----

  predicate IsRead(op: Op) {
    op.Get? || op.Exists? || op.TypeOf? || op.Ttl? || op.Pttl? || op.DbSize? || op.Keys?
  }

  lemma ReadKeepsCell(cell: Option<Entry>, op: Op, now: nat)
    requires IsRead(op) && !op.DbSize? && !op.Keys?
    ensures OnCell(cell, op, now).0 == cell
  {
    hide Incremented, MillisLeft, SecondsLeft;
  }

  /** Reads and counts change nothing. */
  lemma ReadsKeep(m: Entries, op: Op, now: nat)
    requires IsRead(op)
    ensures Ask(m, op, now).0 == Live(m, now)
  {
    hide OnCell, Put, Lasting, Lookup, Live;
    if !op.DbSize? && !op.Keys? {
      ReadKeepsCell(Lookup(Live(m, now), op.key), op, now);
      PutBackLive(m, op.key, now);
    }
  }

  /** An operation on a key leaves all others as they were. */
  lemma OthersKept(m: Entries, op: Op, now: nat, key: string)
    requires !op.DbSize? && !op.Keys? && key != op.key
    ensures Lookup(Ask(m, op, now).0, key) == Lookup(Live(m, now), key)
  {
    hide OnCell, Lasting;
  }

  /** A SET stores unless its condition forbids it, and says so. What it stores lasts as long as asked; and
      nothing is changed if it does not. */
  lemma SetShows(m: Entries, key: string, value: string, condition: Condition, ttl: nat, now: nat)
    ensures var (m', reply) := Ask(m, Set(key, value, condition, ttl), now);
            var there := Told(m, Exists(key), now) == Flag(true);
            var stored := condition.Always? || (condition.IfAbsent? && !there) || (condition.IfPresent? && there);
            && reply == Flag(stored)
            && (stored ==> Lasts(m', key, value, Until(now, ttl), now))
            && (!stored ==> m' == Live(m, now))
  {
    hide Lasts, Incremented, MillisLeft, SecondsLeft, Put, Lasting, Live;
    var live := Live(m, now);
    var cell := Lookup(live, key);
    var e := Entry(value, StringType, if cell.Some? then cell.value.createdAt else now, Deadline(now, ttl));
    WrittenLasts(m, key, e, now);
    PutBackLive(m, key, now);
  }

  lemma PutBackLive(m: Entries, key: string, now: nat)
    ensures Put(Live(m, now), key, Lasting(Lookup(Live(m, now), key), now)) == Live(m, now)
  {
  }

  /** An EXPIRE gives a key that is there a new end, the value kept, or removes it; and says whether it was. */
  lemma ExpireShows(m: Entries, key: string, ttl: nat, now: nat, value: string, deadline: nat)
    ensures key !in Live(m, now) ==> Ask(m, Expire(key, ttl), now) == (Live(m, now), Flag(false))
    ensures Has(Live(m, now), key, value, deadline) ==>
              var (m', reply) := Ask(m, Expire(key, ttl), now);
              && reply == Flag(true)
              && if ttl == 0 then GoneFrom(m', key, now) else Lasts(m', key, value, Until(now, ttl), now)
  {
    hide Lasts, GoneFrom, Incremented, MillisLeft, SecondsLeft, Lasting, Live;
    var live := Live(m, now);
    PutBackLive(m, key, now);
    if Has(live, key, value, deadline) {
      if ttl == 0 {
        assert Lasting(None, now) == None by { NothingLasts(now); }
        NeverThere(live - {key}, key, now);
      } else {
        WrittenLasts(m, key, live[key].(expireAt := Deadline(now, ttl)), now);
      }
    } else if key !in live {
      assert Lasting(None, now) == None by { NothingLasts(now); }
      assert live - {key} == live;
    }
  }

  lemma NothingLasts(now: nat)
    ensures Lasting(None, now) == None
  {
  }

  /** A PERSIST takes the end off a key that has one, the value kept, and says whether it did. */
  lemma PersistShows(m: Entries, key: string, now: nat, value: string, deadline: nat)
    ensures key !in Live(m, now) ==> Ask(m, Persist(key), now) == (Live(m, now), Flag(false))
    ensures Has(Live(m, now), key, value, deadline) ==>
              var (m', reply) := Ask(m, Persist(key), now);
              && reply == Flag(deadline != 0) && Lasts(m', key, value, 0, now)
  {
    hide Lasts, Incremented, MillisLeft, SecondsLeft, Lasting, Live;
    var live := Live(m, now);
    PutBackLive(m, key, now);
    if Has(live, key, value, deadline) {
      WrittenLasts(m, key, live[key].(expireAt := 0), now);
    } else if key !in live {
      NothingLasts(now);
      assert live - {key} == live;
    }
  }

  // ----- increments -----

  /** An increment of a key that is not there starts from 0 and sets its end. */
  lemma FirstIncrement(m: Entries, key: string, delta: int, ttl: nat, now: nat)
    requires key !in Live(m, now)
    ensures var (m', reply) := Ask(m, IncrBy(key, delta, ttl), now);
            && reply == KeyValue.Number(delta) && Lasts(m', key, IntText(delta), Until(now, ttl), now)
  {
    hide Lasts, Lasting, Live, IntText, Stoll, Put;
    WrittenLasts(m, key, Entry(IntText(delta), StringType, now, Deadline(now, ttl)), now);
  }

  /** An increment of a key that spells a number adds to it and keeps its end, unless the sum leaves 64
      bits; then, and if the text is no number, nothing changes. */
  lemma NextIncrement(m: Entries, key: string, delta: int, ttl: nat, now: nat, value: string, deadline: nat)
    requires Has(Live(m, now), key, value, deadline)
    ensures var (m', reply) := Ask(m, IncrBy(key, delta, ttl), now);
            && (forall n: int :: SpellsSigned(value, n) ==>
                  if -0x8000_0000_0000_0000 <= n + delta <= 0x7fff_ffff_ffff_ffff then
                    reply == KeyValue.Number(n + delta) && Lasts(m', key, IntText(n + delta), deadline, now)
                  else reply == Overflow && m' == Live(m, now))
            && ((forall n: int :: !SpellsSigned(value, n)) ==> reply == NotAnInteger && m' == Live(m, now))
  {
    hide Lasts, Lasting, Live, IntText, Stoll, Put, SpellsSigned;
    var live, parsed := Live(m, now), Stoll(value);
    PutBackLive(m, key, now);
    forall n: int | SpellsSigned(value, n) ensures parsed == Some(Parsed(n, |value|)) { StollWholeIff(value, n); }
    if parsed.Some? && parsed.value.end == |value| {
      var n := parsed.value.value;
      StollWholeIff(value, n);
      WrittenLasts(m, key, live[key].(value := IntText(n + delta)), now);
    }
  }

  datatype Increment = Increment(delta: int, ttl: nat, now: nat)

  /** One increment after the other: the replies, and what is left. */
  function Increments(m: Entries, key: string, incs: seq<Increment>): (Entries, seq<Reply>) {
    if incs == [] then (m, [])
    else
      var n := |incs| - 1;
      var (m', replies) := Increments(m, key, incs[..n]);
      var (m'', reply) := Ask(m', IncrBy(key, incs[n].delta, incs[n].ttl), incs[n].now);
      (m'', replies + [reply])
  }

  /** The sum of the first n. */
  function Sum(incs: seq<Increment>, n: nat): int
    requires n <= |incs|
  {
    if n == 0 then 0 else Sum(incs, n - 1) + incs[n - 1].delta
  }

  predicate InRange(sum: int) { -0x8000_0000_0000_0000 <= sum <= 0x7fff_ffff_ffff_ffff }

  predicate Counted(reply: Reply, sum: int) { reply == KeyValue.Number(sum) }

  /** Increments at times that do not go back, none at or after the end the first one set, and no sum
      leaving 64 bits. */
  predicate Steady(incs: seq<Increment>) {
    && incs != []
    && (forall i :: 0 <= i <= |incs| ==> InRange(Sum(incs, i)))
    && (forall i, j :: 0 <= i < j < |incs| ==> incs[i].now <= incs[j].now)
    && var end := Until(incs[0].now, incs[0].ttl);
       forall i :: 0 <= i < |incs| ==> end == 0 || incs[i].now < end
  }

  /** On a key that was not there: every reply is the sum so far, and a read then gives it, until the end
      the first increment set. */
  lemma {:induction false} IncrementsAddUp(m: Entries, key: string, incs: seq<Increment>)
    requires Steady(incs) && key !in Live(m, incs[0].now)
    ensures var (m', replies) := Increments(m, key, incs);
            var sum, end := Sum(incs, |incs|), Until(incs[0].now, incs[0].ttl);
            && |replies| == |incs| && (forall i :: 0 <= i < |incs| ==> Counted(replies[i], Sum(incs, i + 1)))
            && Has(m', key, IntText(sum), end) && Lasts(m', key, IntText(sum), end, incs[|incs| - 1].now)
    decreases |incs|
  {
    hide Lasts, IntText, Live, Counted, Ask, Has, Increments, Sum;
    var n, end := |incs| - 1, Until(incs[0].now, incs[0].ttl);
    var front, last := incs[..n], incs[n];
    SumFront(incs);
    LastIncrement(m, key, incs);
    if n == 0 {
      FirstHas(m, key, last.delta, last.ttl, last.now);
    } else {
      IncrementsAddUp(m, key, front);
      assert InRange(Sum(incs, n)) && InRange(Sum(incs, n + 1));
      NextHas(Increments(m, key, front).0, key, last.delta, last.ttl, last.now, Sum(front, n), end);
    }
    HasLasts(Increments(m, key, incs).0, key, IntText(Sum(incs, n + 1)), end, last.now);
  }

  lemma LastIncrement(m: Entries, key: string, incs: seq<Increment>)
    requires incs != []
    ensures var n := |incs| - 1;
            var (m', replies), last := Increments(m, key, incs[..n]), incs[n];
            var (m'', reply) := Ask(m', IncrBy(key, last.delta, last.ttl), last.now);
            && Increments(m, key, incs) == (m'', replies + [reply])
            && Sum(incs, 0) == 0 && Sum(incs, n + 1) == Sum(incs, n) + last.delta
            && (n == 0 ==> m' == m && replies == [])
  {
    hide Ask;
  }

  lemma {:induction false} SumOfFront(incs: seq<Increment>, n: nat, i: nat)
    requires i <= n <= |incs|
    ensures Sum(incs[..n], i) == Sum(incs, i)
  {
    if i > 0 { SumOfFront(incs, n, i - 1); }
  }

  lemma SumFront(incs: seq<Increment>)
    requires Steady(incs)
    ensures var n := |incs| - 1;
            && (n > 0 ==> Steady(incs[..n])) && forall i :: 0 <= i <= n ==> Sum(incs[..n], i) == Sum(incs, i)
  {
    var n := |incs| - 1;
    forall i | 0 <= i <= n ensures Sum(incs[..n], i) == Sum(incs, i) { SumOfFront(incs, n, i); }
  }

  lemma FirstHas(m: Entries, key: string, delta: int, ttl: nat, now: nat)
    requires key !in Live(m, now) && (Until(now, ttl) == 0 || now < Until(now, ttl))
    ensures var (m', reply) := Ask(m, IncrBy(key, delta, ttl), now);
            Counted(reply, delta) && Has(m', key, IntText(delta), Until(now, ttl))
  {
    hide IntText, Live, Stoll;
  }

  lemma NextHas(m: Entries, key: string, delta: int, ttl: nat, now: nat, n: int, end: nat)
    requires Has(m, key, IntText(n), end) && (end == 0 || now < end)
    requires I64_MIN <= n <= I64_MAX && I64_MIN <= n + delta <= I64_MAX
    ensures var (m', reply) := Ask(m, IncrBy(key, delta, ttl), now);
            Counted(reply, n + delta) && Has(m', key, IntText(n + delta), end)
  {
    hide IntText, Stoll;
    StollOfText(n);
    assert Lookup(Live(m, now), key) == Some(m[key]);
  }

  // ----- counting and listing -----

  /** The number of keys, and the keys a pattern matches, are those that are there. */
  lemma CountsAndLists(m: Entries, pattern: string, now: nat)
    ensures var size, keys := Told(m, DbSize, now), Told(m, Keys(pattern), now);
            && size == Size(|Live(m, now)|) && keys.KeySet?
            && (forall k :: k in Live(m, now) <==> Told(m, Exists(k), now) == Flag(true))
            && (forall k :: k in keys.keys <==> Told(m, Exists(k), now) == Flag(true) && Glob.Matches(pattern, k))
  {
    hide Live, Glob.Matches, Put, Lasting;
  }
}
