/** The records a storage shard keeps and when they expire. */
module Records {
  import opened Decimal

  datatype DataType = NoType | StringType

  /** An expiry time of 0 means never. */
  predicate Expired(expireAt: nat, now: nat) {
    expireAt > 0 && now >= expireAt
  }

  /** Unsigned 64-bit arithmetic wraps. */
  function Wrap(n: int): (w: nat)
    ensures w < U64 && (0 <= n < U64 ==> w == n)
  {
    n % U64
  }

  /** What a write sets as expiry time: a zero time-to-live means never. The sum may wrap around, to a
      time long past or to never. */
  function Deadline(now: nat, ttl: nat): nat {
    if ttl > 0 then Wrap(now + ttl) else 0
  }

  datatype Entry = Entry(value: string, kind: DataType, createdAt: nat, expireAt: nat)

  datatype RateRecord = RateRecord(index: nat, current: nat, previous: nat, window: nat, expireAt: nat)

  datatype Reservation = Reservation(key: string, amount: nat, createdAt: nat, expireAt: nat)

  datatype IdemStatus = InProgress | Completed | Failed

  datatype IdemRecord = IdemRecord(
    requestHash: string, status: IdemStatus, code: int, body: string, token: string,
    createdAt: nat, expireAt: nat)

  /** One of the store's shards. Each operation on a key holds the lock of the key's shard for its
      whole body, so it is one atomic step on these tables. */
  datatype Shard = Shard(
    entries: map<string, Entry>, rates: map<string, RateRecord>,
    reservations: map<string, Reservation>, claims: map<string, IdemRecord>)

  // ----- sharding -----

  const NUM_SHARDS := 64

  /** The FNV-1a hash of a key. */
  function Fnv(key: string, hash: bv64): bv64
    decreases |key|
  {
    if key == [] then hash
    else Fnv(key[1..], (hash ^ (key[0] as int % 256) as bv64) * 1099511628211)
  }

  function ShardIndex(key: string): (i: nat)
    ensures i < NUM_SHARDS
  {
    (Fnv(key, 14695981039346656037) as int) % NUM_SHARDS
  }

  // ----- dropping expired records -----

  function EntryDeadline(): Entry -> nat { (e: Entry) => e.expireAt }

  /** Some expired records are gone and the others are untouched. */
  ghost predicate Dropped<T(!new)>(before: map<string, T>, deadline: T -> nat, now: nat, after: map<string, T>) {
    && (forall k :: k in after ==> k in before && after[k] == before[k])
    && (forall k :: k in before ==> k in after || Expired(deadline(before[k]), now))
  }
}
