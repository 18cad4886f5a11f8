# GateKeeper in Dafny

GateKeeper is an in-memory store with expiring keys, a sliding-window rate limiter, two-phase quota
reservation and an idempotency engine, on a hash table of its own, behind a binary framing protocol, with
an append-only file for recovery. This project models those parts in Dafny 4.11 and proves what they
promise for every input, every run and every interleaving of partial reads and writes. `dafny verify
dfyconfig.toml` checks all of it.

| file | what it models |
|---|---|
| `HashTable.dfy` | the chained hash table: linked nodes, rehash in place, bucket-cursor scan |
| `Glob.dfy` | the glob matcher with a single backtrack point |
| `ShardScan.dfy`, `ScanBounds.dfy`, `ScanWrites.dfy` | the scan over the 64 shards and its cursors; how much a call returns; the scan with writes between its calls and between the shards of a call |
| `Records.dfy`, `KeyValue.dfy` | records and their expiry; plain keys against a map that forgets at expiry |
| `RateLimit.dfy`, `Quota.dfy`, `Idempotency.dfy` | the three state machines, their runs and their laws |
| `KeyLaws.dfy`, `RateRules.dfy`, `QuotaRules.dfy`, `ClaimLaws.dfy` | plain keys and the three machines told from outside: which reply when, and what later replies show |
| `Purge.dfy`, `MemoryStore.dfy` | the active purge, the store class |
| `StoreRuns.dfy`, `StoreLaws.dfy`, `StoreEpochs.dfy` | runs of the store: what clients of plain keys see, the three laws over all calls, and what happens once only |
| `Wire.dfy`, `WireLayout.dfy`, `Decoder.dfy`, `Streams.dfy`, `Channel.dfy` | GKWP/2 frames, the incremental decoder, streams, one connection |
| `Codec.dfy`, `CallLayout.dfy` | the binary requests, written and read, and their bytes |
| `ParkingLot.dfy` | callers waiting for somebody else's result |
| `Json.dfy`, `JsonStrings.dfy`, `Bodies.dfy`, `BodyText.dfy` | quoting, the two readers, request bodies read and written |
| `Grammar.dfy`, `BodyGrammar.dfy` | the texts the readers accept, as a grammar, and what they mean |
| `LineBreaks.dfy`, `Aof.dfy` | line breaks in bodies; the log and its replay |
| `Generations.dfy`, `Pieces.dfy` | appending to what a crash left; files of torn entries and what survives in them |
| `Server.dfy` | dispatcher, writer, loader, crashes and restarts |
| `Decimal.dfy`, `Numerals.dfy`, `Sequences.dfy`, `Options.dfy` | decimal text, what numerals mean, sequence vocabulary, optional values |

What the source updates in place is a class here with methods and loops; each is proved against a
function of the old state, and the laws are proved about those functions and about runs. Time is a
parameter: every operation is given the clock's reading, and runs have nondecreasing readings. An operation
on one key holds its shard's lock for its whole body, so it is one atomic step. What the kernel does with
a send, a receive or a write is a parameter too, and so is every order in which a table is visited by a purge.
Bytes of text are `char`, bytes of the wire a newtype.

## What the code does, where something else is promised

- The matcher tries literal equality before `*`, so it misses matches of subjects that contain `*`
  (`RightOnSubjectIff`, `RightOnPatternIff`).
- A rollback after the reservation has expired gives nothing back although it reports the amount
  (`RollbackRestoresIff`, `LateRollbackLoses`); a commit beyond reservation and balance charges what is there
  (`CommitChargesActualIff`, `CommitBeyondPool`). The ledger carries both. Sums wrap at 2^64 when a pool is overwritten
  while reservations are out (`CommitWrapsAround`); the ledger's premises exclude it.
- An admitted failure overwrites a completed idempotency record (`CompletedSurvivesIff`, `CompletedThenFailed`).
- Deletion looks at raw entries, expired or not (`DeleteRepliesIff`, `PurgeChangesDeleteReply`).
- The decoder counts consumed bytes against its buffer limit, and the longest payloads the header check
  admits can never be decoded (`BufferFullIff`, `RefusedEarly`, `NeverRefused`, `DecodableIff`).
- Writes under a name not in upper case are executed and not logged. A body with a line break is logged as it is and
  restored exactly when its text before the first break is accepted by itself. Binary SETs of the empty key are logged
  and not restored (`JsonRestoredIff`, `BinarySetRestoredIff`, with one lost run each).
- A restart appends behind whatever a crash has left, and a server behind whatever a failed write has left. An unfinished
  last line and the entry appended to it are both lost (`AppendedToTorn`, `AppendsRestoredIff`, `FileRecovers`).
- The milliseconds left are cast to a signed number and the seconds left are rounded up in 64 bits, so very long times
  to live are misreported (`MillisLeftIff`, `SecondsLeftIff`, `LongTimeLeft`).
- The response code of a binary completion is cut to 16 bits (`DecodeEncodeIff`).
- The header diagram in the repository's own README (README.md:72-107) shows fields the code does not have; the
  layout here is that of include/gatekeeper/protocol/gkwp2/header.h:31-42.

## Model

| member | source | states |
|---|---|---|
| `HashTables.HashTable.constructor` | include/gatekeeper/storage/hash_table.h:22-27 | A new table is empty and has at least 8 buckets. |
| `HashTables.HashTable.Find` | include/gatekeeper/storage/hash_table.h:117-134 | Finds the node of a key exactly when the table, as a map, has the key, and the node holds the map's value. |
| `HashTables.HashTable.Assign` | include/gatekeeper/storage/hash_table.h:117-134 | Writing through the handed-out place updates that key of the map and nothing else. |
| `HashTables.HashTable.Insert` | include/gatekeeper/storage/hash_table.h:86-115 | The map gets the key with the value; a new key is reported as such and leaves the table at most 3/4 full; the bucket array stays or doubles; all nodes stay linked once, in the bucket their hash selects. |
| `HashTables.HashTable.Erase` | include/gatekeeper/storage/hash_table.h:155-185 | The map loses exactly the key, and the answer says whether it was there. |
| `HashTables.HashTable.Unlink` | include/gatekeeper/storage/hash_table.h:165-180 | Takes exactly one node out of the map and keeps the whole table valid. |
| `HashTables.HashTable.Relink` | include/gatekeeper/storage/hash_table.h:165-180 | Skipping a node in the middle or at the front of a chain leaves that chain linked without it and every other as before. |
| `HashTables.HashTable.Clear` | include/gatekeeper/storage/hash_table.h:187-201 | The map is empty afterwards and the bucket array is kept. |
| `HashTables.HashTable.Resize` | include/gatekeeper/storage/hash_table.h:203-223 | Relinking every node into a new array keeps the contents, the nodes and the size; a capacity not above the size is ignored. |
| `HashTables.HashTable.MoveChain` | include/gatekeeper/storage/hash_table.h:212-220 | Moving one chain node by node puts each node into its new bucket and disturbs no chain still to be moved. |
| `HashTables.HashTable.Scan` | include/gatekeeper/storage/hash_table.h:250-267 | Returns what the bucket-cursor reading of the table's buckets returns. |
| `HashTables.HashTable.ForEach` | include/gatekeeper/storage/hash_table.h:269-280 | Visits every key of the map exactly once, bucket by bucket, each with its value. |
| `HashTables.HashTable.BucketsHoldKeysOnce` | include/gatekeeper/storage/hash_table.h:86-223 | The buckets together hold every key of the map exactly once and no other. |
| `HashTables.HashTable.BucketsHashed` | include/gatekeeper/storage/hash_table.h:117-134 | Every key is in the bucket its hash selects. |
| `HashTables.Replay` | include/gatekeeper/storage/hash_table.h:86-223 | Any sequence of operations on a new table, whatever the hash function and initial capacity, gets the answers of a finite map. |
| `HashTables.Apply` | include/gatekeeper/storage/hash_table.h:86-223 | One operation answers and changes the table as the finite map does. |
| `Glob.MatchPattern` | src/storage/memory_store.cpp:21-61 | The single-backtrack loop ends, never accepts what the pattern does not mean, and is exact on subjects without `*`. |
| `Glob.Sound` | src/storage/memory_store.cpp:21-61 | For all patterns and subjects: accepted implies meant by the recursive glob meaning. |
| `Glob.Complete` | src/storage/memory_store.cpp:21-61 | For every subject without `*`: meant implies accepted. |
| `Glob.RightOnSubjectIff` | src/storage/memory_store.cpp:32-37 | The matcher agrees with the meaning of all patterns on a subject exactly when the subject contains no `*`, because literal equality is tried first. |
| `Glob.RightOnPatternIff` | src/storage/memory_store.cpp:23-37 | The matcher is right about all subjects exactly for the patterns without `*` and for `*` alone. |
| `ShardScan.Scan` | src/storage/memory_store.cpp:208-258 | The shard loop over real tables returns exactly the next cursor and the live keys the cursor arithmetic prescribes. |
| `ShardScan.ScanShard` | src/storage/memory_store.cpp:227-239 | One shard's part: scan the table, keep the keys still unexpired. |
| `ShardScan.ScanCallStep` | src/storage/memory_store.cpp:208-258 | From a valid cursor a call returns a front part of what is left; 0 comes back only when nothing is left, otherwise a strictly later valid cursor. |
| `ShardScan.ScanCoverage` | src/storage/memory_store.cpp:208-258 | Following cursors from 0 ends and yields every live key of all 64 shards once and nothing else, whatever counts are asked for. |
| `ShardScan.ScanEverything` | src/storage/memory_store.cpp:208-258 | The same for a client loop over real hash tables with keys where their hash puts them, given capacities below 2^32. |
| `ScanBounds.ScanExactly` | include/gatekeeper/storage/hash_table.h:250-267 | A table scan returns the buckets from the cursor on, whole and in order, up to the first at which the count is reached, and 0 exactly at the end. |
| `ScanBounds.CallLength` | src/storage/memory_store.cpp:208-258 | A call returns fewer keys than asked for (10 if none) plus the largest bucket, and, unless it is the last or keys have expired, at least as many as asked for. |
| `StoreRuns.ScanStore` | src/storage/memory_store.cpp:208-258 | Tables that hold what the store's shards hold, scanned by a client loop: every live key of the store once and nothing else. |
| `ScanWrites.MovesUp` | include/gatekeeper/storage/hash_table.h:203-223 | In a table made larger by a whole factor a key is in its old bucket or a later one. |
| `ScanWrites.OneCall` | src/storage/memory_store.cpp:208-258 | One call returns a live key exactly when it comes past it, and then once. |
| `ScanWrites.SessionCovers` | src/storage/memory_store.cpp:208-258 | Over a session of calls, each seeing every shard as it is when it comes to it and tables that only grow: a key live whenever its shard is seen is returned at least once, exactly once if its table was not rehashed. |
| `ScanWrites.WriteTable` | include/gatekeeper/storage/hash_table.h:86-185 | One write on the table of its shard changes its part of the map as told and makes the table larger, if at all, by a whole factor. |
| `ScanWrites.Visit` | src/storage/memory_store.cpp:222-250 | The call at one shard, under its lock: whatever the later shards will hold, its walk has come where the scan of the shards seen so far takes it. |
| `ScanWrites.OneTurn` | src/storage/memory_store.cpp:208-258 | A call with any writes before it comes to each shard returns exactly what the scan returns of the shards as they were when it came to them. |
| `ScanWrites.ScanDuringWrites` | src/storage/memory_store.cpp:208-258 | The scan of a store with any writes between its calls and between the shards of a call is such a session, which ends exactly when 0 comes back and otherwise uses all turns; when it has ended, whatever was live whenever its shard was seen has been returned at least once, exactly once if its table was not rehashed, and nothing was returned that was not live. |
| `KeyValue.ServedBehaves` | src/storage/memory_store.cpp:76-127 | Erasing an expired leftover first and then operating looks, through the live entries, as operating on a map that has already forgotten it. |
| `KeyValue.RunIsIdeal` | src/storage/memory_store.cpp:76-404 | Every run replies as the reference map, from any two states that look alike now. |
| `KeyValue.ExpiryUnobservable` | src/storage/memory_store.cpp:76-404 | Lazy expiry is unobservable: every run gets the replies of a map that forgets entries when they expire. |
| `KeyValue.PurgesUnobservable` | src/storage/memory_store.cpp:860-879 | Two runs asked the same, with purges inserted anywhere and dropping whichever expired entries, reply the same. |
| `KeyValue.DeleteRepliesIff` | src/storage/memory_store.cpp:129-134 | The deletions of a run are answered as by a map that forgets at expiry exactly when none of them meets an expired entry that is still stored. |
| `KeyValue.PurgeChangesDeleteReply` | src/storage/memory_store.cpp:129-134 | Two runs asked the same, one with a purge in between: set with a time-to-live, let it expire, delete is answered differently. |
| `KeyValue.MillisLeftIff` | src/storage/memory_store.cpp:308-329 | The milliseconds left are reported as they are exactly when they fit the signed reply; otherwise the reply is negative. |
| `KeyValue.SecondsLeftIff` | src/storage/memory_store.cpp:284-306 | The seconds reported cover the time left with less than one to spare exactly when rounding up fits 64 bits; otherwise 0 is reported. |
| `KeyValue.LongTimeLeft` | src/storage/memory_store.cpp:308-329 | A key set to last 2^63 ms is live, and the milliseconds reported for it are -2^63. |
| `KeyLaws.SetShows` | src/storage/memory_store.cpp:76-108 | Told by replies: a SET stores unless its condition forbids it and says so; then every read shows the value until its time to live is over, and from then on nothing; otherwise nothing changes. |
| `KeyLaws.ExpireShows` | src/storage/memory_store.cpp:260-282 | An EXPIRE of a key that is there leaves its value, shown by every read up to the new end and not after it, or removes it at once for a zero time; and says whether it was there. |
| `KeyLaws.PersistShows` | src/storage/memory_store.cpp:331-352 | A PERSIST leaves the value, shown by every later read without an end, and says whether there was one. |
| `KeyLaws.FirstIncrement` | src/storage/memory_store.cpp:354-378 | An increment of a key that is not there replies the increment, which every read shows until the end it sets. |
| `KeyLaws.NextIncrement` | src/storage/memory_store.cpp:380-404 | An increment of a text that spells a number replies and leaves their sum, the end kept; a sum outside 64 bits and a text that is no number are reported and change nothing. |
| `KeyLaws.IncrementsAddUp` | src/storage/memory_store.cpp:354-404 | From a key that is not there, any increments with sums in 64 bits before the end the first one set: every reply is the sum so far, and reads show it until that end. |
| `KeyLaws.ReadsKeep` | src/storage/memory_store.cpp:110-206 | Reads, counts and listings change nothing. |
| `KeyLaws.OthersKept` | src/storage/memory_store.cpp:76-404 | An operation on a key leaves what is live under all others. |
| `KeyLaws.CountsAndLists` | src/storage/memory_store.cpp:174-206 | The count is that of the keys that exist, and the list has those among them that the pattern matches. |
| `MemoryStores.MemoryStore.Set` | src/storage/memory_store.cpp:76-108 | Behaves as the reference map of live entries over all shards: conditional write; the other tables are untouched. |
| `MemoryStores.MemoryStore.Get` | src/storage/memory_store.cpp:110-127 | Behaves as the reference map of live entries over all shards: read; the other tables are untouched. |
| `MemoryStores.MemoryStore.Exists` | src/storage/memory_store.cpp:136-153 | Behaves as the reference map of live entries over all shards: presence; the other tables are untouched. |
| `MemoryStores.MemoryStore.Type` | src/storage/memory_store.cpp:155-172 | Behaves as the reference map of live entries over all shards: type; the other tables are untouched. |
| `MemoryStores.MemoryStore.DbSize` | src/storage/memory_store.cpp:174-189 | Replies as the reference map of live entries over all shards: count of live keys. |
| `MemoryStores.MemoryStore.Keys` | src/storage/memory_store.cpp:191-206 | Replies as the reference map of live entries over all shards: live keys the pattern matches, each once. |
| `MemoryStores.MemoryStore.Expire` | src/storage/memory_store.cpp:260-282 | Behaves as the reference map of live entries over all shards: new deadline, or removal for a zero time-to-live; the other tables are untouched. |
| `MemoryStores.MemoryStore.Ttl` | src/storage/memory_store.cpp:284-306 | Behaves as the reference map of live entries over all shards: seconds left, rounded up; the other tables are untouched. |
| `MemoryStores.MemoryStore.Pttl` | src/storage/memory_store.cpp:308-329 | Behaves as the reference map of live entries over all shards: milliseconds left; the other tables are untouched. |
| `MemoryStores.MemoryStore.Persist` | src/storage/memory_store.cpp:331-352 | Behaves as the reference map of live entries over all shards: deadline removed; the other tables are untouched. |
| `MemoryStores.MemoryStore.IncrBy` | src/storage/memory_store.cpp:354-404 | Behaves as the reference map of live entries over all shards: 64-bit increment with its type, number and overflow errors, which `KeyLaws.NextIncrement` and `IncrementsAddUp` spell out; the other tables are untouched. |
| `MemoryStores.MemoryStore.Del` | src/storage/memory_store.cpp:129-134 | Erases exactly the raw entry, expired or not, and says whether there was one. |
| `MemoryStores.MemoryStore.constructor` | include/gatekeeper/storage/memory_store.h:33-68 | All 64 shards start empty and both sequence counters at 1. |
| `MemoryStores.Lift` | src/storage/memory_store.cpp:65-74 | An operation that behaves on the shard its key selects behaves on the store as a whole. |
| `StoreLaws.Perform` | src/storage/memory_store.cpp:76-944 | Every operation of the store, dispatched, does to all its tables and counters only what its rule says. |
| `StoreLaws.RunAll` | src/storage/memory_store.cpp:76-944 | Any calls in any order are a run of those steps. |
| `StoreLaws.StoreLedger` | src/storage/memory_store.cpp:500-944 | Over every run of the store, purges of any size included, that leaves the pool's entry to the quota operations: balance, outstanding, charged and forfeited add up to what there was. |
| `StoreLaws.StoreFencing` | src/storage/memory_store.cpp:689-944 | Over every run of the store the tokens given out for a key differ, and none but the latest can change its record again. |
| `StoreLaws.StoreVerdicts` | src/storage/memory_store.cpp:406-944 | Over every run of the store with one window for a key the verdicts are those of a limiter that keeps every admission, whatever else is called and purged; and each is the right one for what the calls before it were admitted for, as in `RateRules.LogJudges`. |
| `StoreEpochs.AccountedStays` | src/storage/memory_store.cpp:500-914 | Every call of the store keeps reservations under identifiers issued once and in one shard each, and brings none back that is gone. |
| `StoreEpochs.StoreSettledOnce` | src/storage/memory_store.cpp:557-687 | Over every run of the store, purges included, at most one of all commits and rollbacks of a reservation finds it, and none once it is gone. |
| `StoreEpochs.StoreOneExecution` | src/storage/memory_store.cpp:689-836 | Over every run of the store a claim, until its time is over or a failure of it is admitted, lets exactly the caller that opened it execute. |
| `StoreEpochs.StoreReplays` | src/storage/memory_store.cpp:741-744 | Over every run of the store a completed claim is told to every begin with its hash until its time is over or a failure is admitted. |
| `StoreEpochs.StoreFirstCompletionWins` | src/storage/memory_store.cpp:765-803 | Over every run of the store the first admitted completion decides what later begins are told, whoever completes again. |
| `StoreRuns.RunKeys` | src/storage/memory_store.cpp:76-404 | Any run of the store class on plain keys, with purges of any size anywhere, is a run of the reference steps on the operations asked and replies as the map that forgets entries when they expire; its deletions do exactly when none meets an expired leftover. |
| `StoreRuns.Perform` | src/storage/memory_store.cpp:76-404 | Each plain-key operation, dispatched on any store, meets the reference and leaves the other tables alone. |
| `MemoryStores.MemoryStore.RateLimit` | src/storage/memory_store.cpp:406-497 | Refuses a zero limit or window; otherwise replies and updates the key's record as the two-counter rule with every sum modulo 2^64, and touches nothing else. When the rule admits is said by `RateRules.VerdictIs`. |
| `RateLimit.TwoCountersSuffice` | src/storage/memory_store.cpp:426-497 | For any limits, costs and nondecreasing times, with purges anywhere, two counters reply exactly as a limiter that keeps the whole log of admissions. |
| `RateLimit.SameReplies` | src/storage/memory_store.cpp:426-497 | The same from any record that stands for a log. |
| `RateLimit.PurgesUnobservable` | src/storage/memory_store.cpp:928-938 | Purging expired rate records anywhere changes no reply. |
| `RateLimit.RefreshRepresents` | src/storage/memory_store.cpp:426-478 | After lazy reset and window rolling the counters are the log's totals of the running and the previous window. |
| `RateLimit.EstimateFalls` | src/storage/memory_store.cpp:450-486 | Without an admission the estimate never rises, also across one or several window changes. |
| `RateLimit.RunWithinLimit` | src/storage/memory_store.cpp:450-496 | Over every run with one limit neither the estimate nor any window's admissions exceed it. |
| `RateLimit.BurstBound` | src/storage/memory_store.cpp:450-496 | In every reachable state previous plus current admissions are at most limit + ceil(limit * elapsed / window). |
| `RateLimit.HitRepresents` | src/storage/memory_store.cpp:480-496 | One call on the counters is admitted or refused, and answered, as one on the log they stand for, and the counters stand for the log after it. |
| `RateLimit.NoWrap` | src/storage/memory_store.cpp:450-496 | A call whose deadline and estimate fit 64 bits is the call over unbounded numbers. |
| `RateLimit.MachineReplies` | src/storage/memory_store.cpp:406-497 | With limits, costs and times that leave room in 64 bits no sum wraps in any run, and the machine arithmetic replies as the full log. |
| `RateRules.VerdictIs` | src/storage/memory_store.cpp:450-496 | With p spent in the previous window, c in this one, and e ms of it gone, a call is admitted exactly if p * (W - e) < (limit + 1 - c - cost) * W; what it reports as left is the largest further cost that would be; and the time to retry ends at the first multiple of W after now. |
| `RateRules.LogJudges` | src/storage/memory_store.cpp:426-497 | Over any calls in any order every verdict is that, for what the calls before it were admitted for. |
| `RateRules.OtherWindow` | src/storage/memory_store.cpp:426-448 | A record of another window, or one that is over, counts for nothing. |
| `MemoryStores.MemoryStore.ReserveQuota` | src/storage/memory_store.cpp:500-555 | Replies and changes the pool's shard as the reservation rule of the ledger's model; other shards and tables untouched. When the rule grants and what it leaves is said by `QuotaRules.ReserveRepliesIff` and `ReserveLeaves`. |
| `MemoryStores.MemoryStore.CommitQuota` | src/storage/memory_store.cpp:557-638 | The same for commits, expired ones included. |
| `MemoryStores.MemoryStore.RollbackQuota` | src/storage/memory_store.cpp:640-687 | The same for rollbacks, expired ones included. |
| `Quota.StepConserves` | src/storage/memory_store.cpp:500-687 | One step keeps the pool readable and loses nothing but what it charges or forfeits; no 64-bit sum wraps. |
| `Quota.Ledger` | src/storage/memory_store.cpp:500-687 | Over every run: balance, outstanding, charged and forfeited by late rollbacks add up to the initial grant. |
| `Quota.NeverOversold` | src/storage/memory_store.cpp:500-687 | A pool with no reservations out never charges more than it held. |
| `Quota.GrantedFreshSettledAfter` | src/storage/memory_store.cpp:550-687 | A grant carries an identifier never issued before; commit, rollback and purge leave it settled. |
| `Quota.SettledOnce` | src/storage/memory_store.cpp:563-656 | A settled reservation is never found again, after any further run: it is settled at most once. |
| `Quota.RollbackRestoresIff` | src/storage/memory_store.cpp:653-686 | From any state of the shard: a rollback that finds its reservation raises the balance by the amount exactly when the amount is 0, or the reservation has not expired and the sum fits 64 bits, although the reply reports the amount either way. |
| `Quota.CommitChargesActualIff` | src/storage/memory_store.cpp:590-637 | From any state of the shard: a commit takes exactly the actual amount from reservation and balance together exactly when they cover it and what is left fits 64 bits. |
| `Quota.LateRollbackLoses` | src/storage/memory_store.cpp:653-669 | Reserve, let it expire, roll back: the reply reports the amount and the pool is short of it. |
| `Quota.CommitBeyondPool` | src/storage/memory_store.cpp:608-625 | Reserve, then commit more than reservation and balance: the reply reports the actual amount and the pool was charged less. |
| `Quota.CommitWrapsAround` | src/storage/memory_store.cpp:590-606 | A pool overwritten with 2^64 - 1 while a reservation is out: committing nothing leaves it with 3. |
| `QuotaRules.ReserveRepliesIff` | src/storage/memory_store.cpp:500-555 | Every reply of a reservation exactly when it is due: bad arguments, no live pool, a pool that spells no 64-bit number, less there than asked for, or the grant with what is left. |
| `QuotaRules.ReserveLeaves` | src/storage/memory_store.cpp:535-555 | A grant leaves the balance less the amount, written out, and the reservation with pool, amount and deadline under an identifier not in use; a refusal changes nothing but to drop an expired pool. |
| `QuotaRules.BalanceIs` | src/storage/memory_store.cpp:590-606 | The balance the other operations see is the number at the front of the pool's text. |
| `QuotaRules.NoBalance` | src/storage/memory_store.cpp:590-606 | It is 0 if there is no pool or no number at the front of its text. |
| `QuotaRules.CommitRepliesIff` | src/storage/memory_store.cpp:557-638 | Not found, too late or done exactly when due; in time the reply has the amount asked for, the refund of what was reserved above it, and the balance with the refund added or the rest taken, down to nothing. |
| `QuotaRules.CommitLeaves` | src/storage/memory_store.cpp:566-638 | In time a commit writes to its pool what it reports as left; too late it pays the whole reservation back to a pool that is there; the reservation goes and nothing else changes. |
| `QuotaRules.RollbackRepliesIff` | src/storage/memory_store.cpp:640-687 | Not found or done exactly when due; in time the whole reservation is paid back, too late nothing, and the amount is reported either way. |
| `Decimal.StampInjective` | src/storage/memory_store.cpp:550-551 | Identifiers built from a prefix, the time and the sequence number are different for different pairs. |
| `Decimal.StoullOfText` | src/storage/memory_store.cpp:527-548 | A written balance reads back as the same number, to its last digit. |
| `Decimal.StollOfText` | src/storage/memory_store.cpp:380-403 | A written counter, negative ones included, reads back as the same number. |
| `Numerals.NumeralReads` | src/storage/memory_store.cpp:527-548 | Blanks, a sign and digits are read to their end as the place values of the digits. |
| `Numerals.StoullWholeIff` | src/storage/memory_store.cpp:527-533 | A text is accepted whole as an unsigned number exactly if it is blanks, a sign and digits and nothing else, with a value in range; a minus sign wraps. |
| `Numerals.StollWholeIff` | src/storage/memory_store.cpp:380-394 | The same for signed numbers. |
| `Numerals.TextMeans` | src/storage/memory_store.cpp:547-548 | A number is written in digits that mean it, without zeros in front. |
| `Numerals.IntTextMeans` | src/storage/memory_store.cpp:403-404 | A negative one has a minus sign in front. |
| `MemoryStores.MemoryStore.IdemBegin` | src/storage/memory_store.cpp:689-763 | Replies and changes the key's record as the claim rule; other shards and tables untouched. |
| `MemoryStores.MemoryStore.IdemComplete` | src/storage/memory_store.cpp:765-803 | The same for completions. |
| `MemoryStores.MemoryStore.IdemFail` | src/storage/memory_store.cpp:805-836 | The same for failures. |
| `Idempotency.SingleFlight` | src/storage/memory_store.cpp:727-739 | While a claim is in progress every begin with its hash and another or no token parks, other hashes conflict, and only the holder's token executes. |
| `Idempotency.NoSecondExecution` | src/storage/memory_store.cpp:689-836 | From a claim on, through its completion and the replays, until it expires or a failure is admitted, callers without tokens are given no second execution. |
| `Idempotency.OneExecutionPerClaim` | src/storage/memory_store.cpp:689-836 | A claim and everything until it is failed or expires gives out exactly one execution. |
| `Idempotency.ReplayStable` | src/storage/memory_store.cpp:741-744 | After completion every begin with the hash replays the recorded code and body, whatever runs in between, until expiry or an admitted failure. |
| `Idempotency.FirstCompletionWins` | src/storage/memory_store.cpp:765-803 | Whatever runs after the first admitted completion, short of expiry or an admitted failure, a later begin is given its code and body. |
| `Idempotency.CompletedThenFailed` | src/storage/memory_store.cpp:805-836 | Begin, complete, fail: the next begin is given a second execution of a completed request. |
| `Idempotency.CompletedSurvivesIff` | src/storage/memory_store.cpp:821-835 | A completed record survives a live event exactly when the event is not an admitted failure: nothing guards it against one. |
| `Idempotency.LiveRecordKeptIff` | src/storage/memory_store.cpp:689-836 | A live record is as it was after an event exactly when the event is no admitted failure with another outcome, no first admitted completion and no new claim of a failed record. |
| `Idempotency.EpochRun` | src/storage/memory_store.cpp:689-836 | Over every run with server-made tokens the claims of a key carry the issued tokens in order. |
| `Idempotency.Fencing` | src/storage/memory_store.cpp:689-836 | All tokens ever issued for a key differ, and none but the latest can change its record again. |
| `ClaimLaws.ExecuteIff` | src/storage/memory_store.cpp:700-763 | A begin is let through exactly if nothing is known of the key, its time is over, the same request was given up, or the caller holds the token of the one at work. |
| `ClaimLaws.BeginOpens` | src/storage/memory_store.cpp:707-763 | Told by replies: a new claim carries the caller's own token, or a new one; until its end, whatever undisturbing calls come between, others park with that token, its holder executes, other hashes conflict, and closing is open to the holder and to callers without a token; from its end on the key is open. |
| `ClaimLaws.CompleteAnswers` | src/storage/memory_store.cpp:765-803 | From an admitted completion to the claim's end every begin with the hash is given its token, code and body. |
| `ClaimLaws.FailGivesUp` | src/storage/memory_store.cpp:805-836 | From an admitted failure to the claim's end the next begin with the hash takes over; other hashes still conflict. |
| `MemoryStores.MemoryStore.PurgeExpired` | src/storage/memory_store.cpp:860-944 | Takes up to the limit of the expired records from each of the four tables of every shard, returns exactly the drop in their number, and does to each shard only what a purge may do. |
| `MemoryStores.PurgeUntilDone` | src/storage/memory_store.cpp:860-944 | Repeating it at a fixed time, however small the limit, ends with nothing expired, every record reported once. |
| `Purges.PurgeShard` | src/storage/memory_store.cpp:866-940 | One shard: expired records of the four tables go, reservations are refunded, the count is exact. |
| `Purges.PickExpired` | src/storage/memory_store.cpp:869-875 | Picks expired records only, each once, up to the limit, all of them if there are fewer. |
| `Purges.RefundAll` | src/storage/memory_store.cpp:888-914 | Paying the picked reservations back one by one is a run of refund steps of the ledger's model. |
| `Purges.PurgeConserves` | src/storage/memory_store.cpp:881-914 | A purge neither creates nor destroys anything a pool holds. |
| `Wire.HeaderRoundTrip` | src/protocol/gkwp2/frame.cpp:9-25 | Reading an encoded header back gives its fields and the payload's length. |
| `WireLayout.FrameLayout` | include/gatekeeper/protocol/gkwp2/header.h:31-42 | Which byte holds what: magic in 0-1, version 2, flags 3, type 4, reserved 5-7, request 8-15, stream 16-19, length 20-23, the highest byte first, then the payload. |
| `WireLayout.FirstExactly` | src/protocol/gkwp2/decoder.cpp:19-67 | Bytes begin with a frame exactly if they begin with what that frame is written as. |
| `WireLayout.FirstRefuses` | src/protocol/gkwp2/decoder.cpp:24-60 | Which bytes are refused for their magic, version or length, and which are too few, byte by byte. |
| `Wire.StreamRoundTrip` | src/protocol/gkwp2/decoder.cpp:19-67 | Parsing concatenated encoded frames returns exactly those frames and leaves nothing. |
| `Wire.FirstIsStable` | src/protocol/gkwp2/decoder.cpp:19-67 | More bytes never change a complete frame or a bad header. |
| `Wire.ParseInTwo` | src/protocol/gkwp2/decoder.cpp:19-67 | Parsing in two goes, the second starting from what the first left, is parsing at once. |
| `Decoders.Decoder.Push` | src/protocol/gkwp2/decoder.cpp:9-84 | The in-place loop with its read offset and compaction does what the one-shot parse of the unconsumed bytes prescribes. |
| `Decoders.Decoder.TakeFrames` | src/protocol/gkwp2/decoder.cpp:19-67 | Frames are taken off the front until one is incomplete or bad, as the one-shot parse does. |
| `Decoders.Compact` | src/protocol/gkwp2/decoder.cpp:69-81 | Compaction keeps exactly the unconsumed bytes. |
| `Decoders.ChunkIndependence` | src/protocol/gkwp2/decoder.cpp:9-84 | For any chunking that never fills the buffer: frames and error are those of the one-shot parse of the concatenation, and the retained bytes are exactly the unparsed rest. |
| `Decoders.AnyTwoChunkings` | src/protocol/gkwp2/decoder.cpp:9-84 | Two ways of cutting the same bytes decode alike. |
| `Decoders.DecodeEncoded` | src/protocol/gkwp2/decoder.cpp:9-84 | Frames sent over the wire, cut anyhow, come out as they went in. |
| `Decoders.BufferFullIff` | src/protocol/gkwp2/decoder.cpp:11-16 | A push is refused exactly when the consumed bytes not yet dropped, the pending bytes and the new ones together exceed the limit; nothing is kept of it then, and the consumed bytes are never more than one compaction threshold. |
| `Decoders.RefusedEarly` | src/protocol/gkwp2/decoder.cpp:11-16 | A new decoder that has read one empty frame and a byte refuses a chunk with which the pending bytes would just reach the limit. |
| `Decoders.NeverRefused` | src/protocol/gkwp2/decoder.cpp:9-84 | Frames that leave room for a chunk and the compaction threshold are, in chunks of that size, never refused and come out as they went in. |
| `Decoders.DecodableIff` | src/protocol/gkwp2/decoder.cpp:11-46 | A frame gets through a new decoder, however cut, exactly when header and payload together fit the buffer limit. |
| `Streams.StreamManager.GetOrCreateStream` | src/protocol/gkwp2/stream_manager.cpp:16-37 | A stream is there afterwards unless the cap is reached; the cap is never passed. |
| `Streams.StreamManager.CloseStream` | src/protocol/gkwp2/stream_manager.cpp:45-48 | Exactly the stream goes. |
| `Streams.StreamManager.PurgeIdleStreams` | src/protocol/gkwp2/stream_manager.cpp:50-70 | Removes exactly the streams whose last activity is 30 s ago or more and reports each once. |
| `Channels.OneReplyEach` | src/net/channel.cpp:81-116 | Exactly one reply per frame, in order, with the frame's request and stream id; open streams stay within the cap. |
| `Channels.TalkConverses` | src/net/channel.cpp:81-116 | Told by requests and replies alone: a request is refused, with type 4 and the text of the cap, exactly when its stream is not among the 1024 the requests before it left open; otherwise the reply has type 2, what the handler makes of its payload as the next request handled, and the request's end-of-stream bit. |
| `Channels.Channel.Send` | src/net/channel.cpp:139-178 | What the kernel does not take at once is buffered behind what is already waiting; the channel closes exactly when the socket is found dead or more than 64 MiB would wait. |
| `Channels.Channel.HandleWrite` | src/net/channel.cpp:180-217 | Sends exactly what the kernel takes of the waiting bytes, in order; closes exactly when a send finds the connection dead; write interest ends with the last byte. |
| `Channels.Channel.HandleRead` | src/net/channel.cpp:63-137 | Whatever chunks arrive, everything received is decoded and answered in order while the channel is open; it closes only at an end or failure, on input the decoder refuses, on a dead socket or on overdue replies. |
| `Channels.Channel.Flush` | src/net/channel.cpp:182-210 | The send loop takes from the waiting bytes exactly what the kernel's answers take. |
| `Channels.Channel.ReadChunk` | src/net/channel.cpp:69-117 | A chunk the decoder refuses is answered with one protocol error frame and the channel closes; otherwise every frame it completes is answered. |
| `Channels.HandleEvent` | src/net/channel.cpp:43-61 | One socket event keeps everything received answered in order, and closes the channel only for one of the four reasons. |
| `Channels.Channel.AnswerFrame` | src/net/channel.cpp:81-115 | One frame is answered: refused at the stream cap, otherwise handled, and its stream closed at its end. What the reply carries is said by `TalkConverses`. |
| `Channels.ClientDecodes` | src/net/channel.cpp:100-105 | The client decodes one reply per request frame, in request order, with the same ids; each carries what the handler made of that request's payload, or the refusal where the cap was reached. |
| `Channels.Serve` | src/net/channel.cpp:63-217 | A whole conversation under any chunking and any partial writes: while open, output and waiting bytes are exactly the replies owed, and the client decodes from them one right reply per request; it stays open unless somebody hangs up, the input is refused, the socket dies or replies pile up. |
| `ParkingLots.ParkingLot.Park` | src/domain/idempotency/parking_lot.cpp:8-27 | Accepted exactly with a key, an id and a callback when the id does not wait under the key; then the waiter joins the end of the key's list. |
| `ParkingLots.ParkingLot.BroadcastAndUnpark` | src/domain/idempotency/parking_lot.cpp:29-52 | Calls back everybody waiting under the key, in parking order, and only them; the key goes. |
| `ParkingLots.ParkingLot.Cancel` | src/domain/idempotency/parking_lot.cpp:54-78 | Takes exactly the named waiter out, without a callback; an emptied list goes. |
| `ParkingLots.ParkingLot.PurgeTimeout` | src/domain/idempotency/parking_lot.cpp:80-122 | Calls back exactly those due, once each, within a key in parking order; the others stay in order and no empty list stays. |
| `ParkingLots.ParkingLot.TakeDue` | src/domain/idempotency/parking_lot.cpp:83-111 | The erase-while-iterating loop splits every list into the due and the others. |
| `ParkingLots.ParkingLot.Clear` | src/domain/idempotency/parking_lot.cpp:142-146 | Everybody is forgotten without a callback. |
| `ParkingLots.ParkingLot.WaiterCount` | src/domain/idempotency/parking_lot.cpp:124-129 | The number of waiters at home under the key. |
| `ParkingLots.ParkingLot.TotalWaiters` | src/domain/idempotency/parking_lot.cpp:131-140 | Exactly those parked that have met no fate yet. |
| `ParkingLots.RunAll` | src/domain/idempotency/parking_lot.cpp:8-146 | Over every run each parked waiter is in exactly one of waiting, woken, timed out, cancelled or cleared; no fate is revised and no callback made twice. |
| `ParkingLots.Split` | src/domain/idempotency/parking_lot.cpp:92-103 | Due and remaining waiters are disjoint, complete and each in order. |
| `ParkingLots.DueExactly` | src/domain/idempotency/parking_lot.cpp:92-103 | Due are exactly the waiters that have a time and whose time has come. |
| `Json.QuoteJson` | src/protocol/response.cpp:6-35 | The loop writes the opening quote, each character's escape, and the closing quote. |
| `Json.NoControlCharacters` | src/protocol/response.cpp:10-33 | No character below 0x20 is ever written. |
| `Json.Reader.Hex` | src/protocol/json_reader.cpp:61-78 | Reads exactly four hexadecimal digits of either case, or fails. |
| `Json.Reader.Unicode` | src/protocol/json_reader.cpp:134-153 | Reads an escape or a surrogate pair as the reference reading does. |
| `Json.Reader.String` | src/protocol/json_reader.cpp:106-164 | The cursor loop returns the reference reading of a string and stops right after its closing quote, or fails where it fails. |
| `Json.Reader.Number` | src/protocol/json_reader.cpp:166-179 | Digits accumulated in 64 bits give the written number modulo 2^64. |
| `Json.Reader.StringArray` | src/protocol/json_reader.cpp:222-239 | The cursor loop returns the reference reading of an array of strings and stops right after its bracket, or fails where it fails; what that reading is, `Grammar.ArraysExactly` and `BodyGrammar.ArrayReadsBack` say. |
| `JsonStrings.QuotedValue` | src/protocol/response.cpp:6-35 | Both readers, put before a quoted value, return it and stop right after its closing quote, whatever follows. |
| `JsonStrings.EscapesDecode` | src/protocol/json_reader.cpp:134-153 | Scalar values written as escapes or surrogate pairs (section 7 of RFC 8259), digits in any case, come out as their UTF-8 form. |
| `JsonStrings.Utf8ReadsBack` | src/protocol/json_reader.cpp:80-104 | That form is well-formed UTF-8 (section 4 of RFC 3629) of exactly those scalar values. |
| `JsonStrings.StrictIsStricter` | src/domain/kv/string_body.cpp:86-118 | Whatever string the body reader accepts, the other reader accepts with the same value. |
| `Grammar.StringsExactly` | src/protocol/json_reader.cpp:106-164 | A string is read, by either reader, exactly if blanks, a quote, characters, escapes and a quote stand there as in section 7 of RFC 8259, and as what they mean. |
| `Grammar.ArraysExactly` | src/protocol/json_reader.cpp:222-239 | An array is read exactly if brackets around strings separated by commas stand there, blanks anywhere between, and as those strings in order. |
| `Bodies.ParseStringBody` | src/domain/kv/string_body.cpp:16-35 | The parsing loop returns the unique-field object the reference reading finds, or fails. |
| `Bodies.ReadValue` | src/domain/kv/string_body.cpp:25-30 | A field's value is a string, a flag or a number, as its first character says. |
| `Bodies.ReadSet` | src/domain/kv/string_ops.cpp:30-61 | The field loop and checks of SET refuse and accept exactly as the declared rule. |
| `Bodies.ReadKeys` | src/domain/kv/key_ops.cpp:19-48 | The parsing loop of DEL returns the reference reading of its body, or fails; what that reading is, `BodyGrammar.DelBodiesExactly` and `KeyFieldsReadBack` say. |
| `Bodies.CutBody` | src/domain/kv/string_body.cpp:16-35 | Whatever is left of a SET, GET or DEL body after a cut is refused or means what the whole body meant. |
| `BodyGrammar.ArrayReadsBack` | src/protocol/json_reader.cpp:222-239 | Both readers, put before any sequence of keys quoted, joined by commas and bracketed, return exactly those keys and stop right after the bracket, whatever follows. |
| `BodyGrammar.KeyFieldsReadBack` | src/domain/kv/key_ops.cpp:19-48 | A DEL body written with any list of `key` and `keys` fields is read as their keys one after the other. |
| `BodyGrammar.DelBodiesExactly` | src/domain/kv/key_ops.cpp:19-48 | A DEL body is accepted exactly if it is an object of `key` and `keys` fields, blanks anywhere between, and names what they list, in order. |
| `BodyGrammar.ObjectsExactly` | src/domain/kv/string_body.cpp:16-35 | A SET or GET body is read exactly if it is an object of strings, flags and numbers with no name twice, and as the fields it lists. |
| `BodyGrammar.SetExactly` | src/domain/kv/string_ops.cpp:30-61 | Which fields ask for which SET: the names allowed and required, the types, both conditions excluded together, a time to live above 0. |
| `BodyGrammar.GetExactly` | src/domain/kv/string_ops.cpp:65-73 | A GET asks for a key exactly if that is its only field and not empty. |
| `BodyGrammar.RequestsExactly` | src/command/dispatcher.cpp:62-69 | For every name and every body: which command a request stands for, if any. |
| `BodyText.ObjectReadsBack` | src/domain/kv/string_body.cpp:16-35 | Any object written with quoted strings, flags and 64-bit numbers is read back as it was. |
| `BodyText.SetBodyMeans` | src/service/processor.cpp:109-117 | The body logged for a binary SET reads back as exactly that SET, unless its key is empty: then it is refused. |
| `BodyText.DelBodyMeans` | src/service/processor.cpp:131-134 | The body logged for a binary DEL reads back as exactly its key. |
| `BodyText.BodiesPrintable` | src/service/processor.cpp:109-134 | Neither body contains a line break. |
| `Servers.NormalizeName` | src/command/name.cpp:6-17 | Letters are put in upper case, everything else is kept. |
| `Servers.Dispatcher.Dispatch` | src/command/dispatcher.cpp:62-101 | Executes the command a request stands for, and appends the request as it was spelled exactly when it succeeded and its name, unnormalised, is a write. |
| `Servers.Dispatcher.Execute` | src/command/dispatcher.cpp:62-69 | The view of the store changes by exactly the command a SET, GET or DEL request stands for, or not at all. |
| `Servers.Dispatcher.ExecuteDel` | src/domain/kv/key_ops.cpp:50-58 | All listed keys go and nothing else; the count is that of the raw entries erased, a key named twice counting once. |
| `Servers.Dispatcher.BinarySet` | src/service/processor.cpp:75-119 | Stores under its condition, and logs what it stored. |
| `Servers.Dispatcher.BinaryDel` | src/service/processor.cpp:120-139 | Deletes the key, and logs exactly if there was a raw entry. |
| `Servers.AofWriter.Append` | src/storage/aof/aof_writer.cpp:29-72 | Under any partial, interrupted or failing writes the file grows by exactly the front part of the line the writes let through, and success is reported exactly when that is all of it. |
| `Servers.Dispatcher.Load` | src/storage/aof/aof_loader.cpp:25-51 | Replays every line as the line rule says and skips comments and empty lines; the two counts are exactly those of the lines that succeed and that do not. |
| `Servers.Dispatcher.Serve` | src/command/dispatcher.cpp:62-101 | While nothing expires an event changes the values as the log's model says, and the file grows by exactly what the answers to the writes let through of its entry. |
| `Servers.LoadIsReplay` | src/storage/aof/aof_loader.cpp:25-51 | While nothing expires, loading lines changes the values as replaying them on a plain map. |
| `Servers.ServeAll` | src/command/dispatcher.cpp:62-101 | Events are served until all are or one is killed in its write, failed writes passed over, and the file grows by exactly what the answers to the writes let through of each entry. |
| `Servers.StartOn` | src/storage/aof/aof_loader.cpp:25-51 | A server started on a file that sets no time-to-live has the values replaying its lines gives. |
| `Servers.Live` | src/storage/aof/aof_writer.cpp:15-64 | One life on whatever file it finds: it serves as the answers to its writes let it, and the file grows by exactly the first characters kept of what they let through. |
| `Servers.Restart` | src/storage/aof/aof_loader.cpp:25-51 | A server started on any front part of the log has the values the run had after some of its first events, none whose line was wholly kept missing. |
| `Servers.CrashAndRestart` | src/storage/aof/aof_writer.cpp:15-64 | Any number of lives one after the other on a file nobody repairs, what each leaves fixed by its events, the answers to its writes and how much is kept: the next start has exactly what the surviving events of all lives make. |
| `Servers.UndisturbedLife` | src/storage/aof/aof_writer.cpp:15-64 | A life on a clean file whose writes got through leaves what some of its first events make, none missing whose entry is wholly in the file. |
| `Servers.NothingLost` | src/storage/aof/aof_writer.cpp:15-64 | After any number of lives in which every write got through and all was kept, the next start has what all events of all lives make. |
| `Aof.LinesComeBackIff` | src/storage/aof/aof_loader.cpp:24-25 | The lines of a log come back as written exactly when none contains a line break. |
| `Aof.TornLine` | src/storage/aof/aof_loader.cpp:27-42 | A line cut short does nothing when loaded, or what the whole line does. |
| `Aof.EntrySays` | src/command/dispatcher.cpp:70-98 | What a faithful event logged is an entry that means the event; an event that logged nothing did nothing. |
| `Aof.TailBlank` | src/storage/aof/aof_loader.cpp:25-42 | Behind an accepted first line of an accepted body only blanks follow. |
| `Aof.ReplayEntry` | src/storage/aof/aof_loader.cpp:25-51 | A whole entry, line breaks included, does what its event did and leaves the rest of the file to itself. |
| `Aof.ReplayTorn` | src/storage/aof/aof_loader.cpp:25-51 | An entry cut anywhere does nothing, or what the whole entry does. |
| `Aof.LaterLines` | src/storage/aof/aof_loader.cpp:25-42 | Whatever lines the breaks in an accepted body make of it, all but the first do nothing. |
| `Aof.LoadedWrite` | src/storage/aof/aof_loader.cpp:25-51 | Loading what an accepted write logged does the write if its body up to the first line break is accepted by itself, and nothing otherwise. |
| `Aof.CrashRecovery` | src/storage/aof/aof_loader.cpp:25-51 | Loading any front part of the log of a run gives the store after some of its first events, including every event wholly written. |
| `Aof.CleanRestart` | src/storage/aof/aof_loader.cpp:25-51 | The complete log restores the store the run ended with. |
| `Aof.JsonRestoredIff` | src/command/dispatcher.cpp:70-98 | A JSON request is restored by a load of what it logged exactly when it changed nothing, or its name was spelled in upper case and its body up to the first line break is itself accepted. |
| `Aof.BinarySetRestoredIff` | src/service/processor.cpp:109-117 | A binary SET is restored by a load of what it logged exactly when it changed nothing or its key is not empty. |
| `Aof.BinaryDelRestored` | src/service/processor.cpp:120-139 | A binary DEL always is. |
| `Aof.LowerCaseLost` | src/command/dispatcher.cpp:18-23 | A run of one lower-case SET whose complete log restores nothing. |
| `Aof.EmptyKeyLost` | src/service/processor.cpp:109-117 | A run of one binary SET of the empty key whose complete log restores nothing. |
| `Aof.LineBreakLost` | src/storage/aof/aof_writer.cpp:42-47 | A run of one accepted SET with a line break in its body whose complete log restores nothing. |
| `Aof.TrailingBreakKept` | src/storage/aof/aof_writer.cpp:42-47 | A run of one accepted SET whose body ends in a line break and is restored. |
| `LineBreaks.CalmObject` | src/domain/kv/string_body.cpp:16-35 | In an accepted SET body a line break is followed by no first letter of a write, unless inside a string. |
| `LineBreaks.CalmKeyList` | src/domain/kv/key_ops.cpp:19-48 | The same for DEL. |
| `LineBreaks.SetInText` | src/domain/kv/string_body.cpp:86-118 | A piece of a string of an accepted body, read as a SET body up to anywhere, sets nothing. |
| `LineBreaks.DelInText` | src/domain/kv/key_ops.cpp:19-48 | Read as a DEL body it deletes nothing. |
| `Generations.NoBodyAcross` | src/domain/kv/string_body.cpp:16-35 | A text that runs into an entry of the log is no body of any request. |
| `Generations.GluedLine` | src/storage/aof/aof_loader.cpp:27-42 | Whatever stands before it on its line, an entry of the log means nothing there, and neither does the beginning of one. |
| `Generations.AppendedToTorn` | src/storage/aof/aof_writer.cpp:15-64 | Appended behind an unfinished line an entry is lost with that line, and what comes after is read again. |
| `Generations.AppendsRestoredIff` | src/storage/aof/aof_writer.cpp:15-64 | Every entry appended to a file is restored by the next load exactly when the file was empty or ended in a line break. |
| `Generations.SecondCrash` | src/storage/aof/aof_loader.cpp:25-51 | A second life on such a file and a second crash: the load gives the store after some first events of that life, none wholly written missing. |
| `Pieces.PartAppended` | src/storage/aof/aof_writer.cpp:42-64 | A front part of an entry, appended to any file, completes a line that does what the entry does if the file was clean and nothing otherwise, or leaves an unfinished line. |
| `Pieces.SurvivorsAre` | src/storage/aof/aof_loader.cpp:25-51 | Which events survive, said of each by where its part starts and how far it goes, and told piece by piece, are the same. |
| `Pieces.FileRecovers` | src/storage/aof/aof_loader.cpp:25-51 | Loading a file that holds of every entry some front part does exactly the surviving events: those whose part starts on a line of its own and has that line complete, or is the last and a request as it stands. |
| `Pieces.CutPieces` | src/storage/aof/aof_writer.cpp:42-64 | What a crash keeps of a file is again a file of front parts. |
| `Codecs.ReadCall` | src/service/processor.cpp:29-582 | Consuming the payload field by field, one length check for several fields, finds exactly the call the format describes, or none. |
| `Codecs.ReadTexts` | src/service/processor.cpp:369-564 | The requests with two texts, including the optional last text of two of them. |
| `Codecs.DecodeEncode` | include/gatekeeper/protocol/gkwp2/binary_codec.h:67-334 | For every request and all arguments within the field widths the server makes exactly the call the client wrote, negative increments and empty tokens included; the response code is taken modulo 2^16. |
| `Codecs.DecodeEncodeIff` | include/gatekeeper/protocol/gkwp2/binary_codec.h:298-316 | Nothing is changed on the way exactly when the response code fits 16 bits. |
| `Codecs.SignedBack` | include/gatekeeper/protocol/gkwp2/binary_codec.h:170-184 | A signed 64-bit increment survives its unsigned transport. |
| `CallLayout.CallsLaidOut` | include/gatekeeper/protocol/gkwp2/binary_codec.h:67-334 | Every request that fits the format is written byte for byte as laid out: the operation's code in two bytes, the key after its length in two, and each argument at its place and in its width. |

## Left out

- Sockets, epoll, timers, threads and locks: the channel keeps only its buffers, with any behaviour of send and receive.
- The HTTP service and its channel: long field parsing over the same store.
- MemoryStores.MemoryStore: its shards hold maps where the source holds hash tables; that the tables answer as maps is `HashTables.Replay`, and that scans of such tables cover the store is `StoreRuns.ScanStore`.
- HashTables.HashTable.ForEach: the visitor gets values; writing to them during the visit is not modelled.
- HashTables.HashTable.Insert: the load factor is the 3/4 every table of the store is built with, in exact arithmetic; copying, moving and swapping tables are not modelled.
- MemoryStores.MemoryStore.RateLimit: the `double` weight is the exact quotient rounded down.
- Sequence counters are unbounded numbers, so identifiers do not repeat after 2^64 of them.
- Codecs.ReadCall: a declared SET value length within 9 of 2^32 wraps the length check in the source; here such a payload is simply refused. Outputs of the encoders are not affected.
- Codecs.DecodeEncode: the replies of the binary requests are not modelled; over-long arguments, whose lengths the encoder truncates, are outside its statement.
- Channels.Channel.ReadChunk: on a protocol error the frames decoded from the same chunk go unanswered, as in the source, and the channel closes; only the error frame is promised then.
- The event encoder of the framing layer, session statistics and logging.
- Servers.Dispatcher.Execute: a name other than SET, GET and DEL is refused, although the source registers more commands.
- Servers.Dispatcher.Dispatch: knows SET, GET and DEL; the other commands, whose replay issues new identifiers or restarts deadlines, are not modelled.
- Aof.CrashRecovery: covers runs without time-to-live, since a replay starts deadlines anew.
- Fsync policies and the durability of the disk itself; a crash may keep any front part of the file.
- ParkingLots.ParkingLot.Park: a callback is its waiter's ticket, and what callbacks do is not modelled.
- IdemGet, SignedNumber, Boolean and the legacy GKWP/1 envelope parser: nothing harder than what is here.
- The command line tools, configuration, benchmarks and the Go and Node clients.
