/** What each quota operation replies and does, exactly when, for every state of a shard and all arguments:
    said of the texts and the numbers they spell, not of the operations' own rule. */
module QuotaRules {
  import opened Options
  import opened Decimal
  import opened Records
  import opened Numerals
  import opened Quota

  /** The entry is there and its time is not over. */
  predicate LiveEntry(q: Quotas, key: string, now: nat) {
    key in q.entries && (q.entries[key].expireAt == 0 || now < q.entries[key].expireAt)
  }

  lemma StrictIff(value: string, b: nat)
    ensures StrictBalance(value) == Some(b) <==> Spells(value, b)
  {
    hide Spells, Stoull;
    StoullWholeIff(value, b);
  }

  lemma SpellsOne(value: string, b: nat)
    requires Spells(value, b)
    ensures forall c: nat :: Spells(value, c) ==> c == b
  {
    hide Spells, StrictBalance;
    StrictIff(value, b);
    forall c: nat | Spells(value, c) ensures c == b { StrictIff(value, c); }
  }

  /** A reservation is refused for its arguments, for want of a live pool, of a number in it, or of enough,
      exactly in these cases and in this order; otherwise it is granted. */
  ghost predicate ReserveRight(q: Quotas, key: string, amount: nat, ttl: nat, now: nat, reply: ReserveReply) {
    var asked := amount > 0 && ttl > 0;
    var live := asked && LiveEntry(q, key, now);
    && (reply.BadArguments? <==> !asked)
    && (reply.NoPool? <==> asked && !live)
    && (reply.NotInteger? <==> live && forall b: nat :: !Spells(q.entries[key].value, b))
    && (reply.Insufficient? <==> live && exists b: nat :: Spells(q.entries[key].value, b) && b < amount)
    && (reply.Reserved? <==> live && exists b: nat :: Spells(q.entries[key].value, b) && amount <= b)
    && (reply.Insufficient? ==> Spells(q.entries[key].value, reply.left))
    && (reply.Reserved? ==> Spells(q.entries[key].value, reply.left + amount))
  }

  lemma ReserveRepliesIff(q: Quotas, key: string, amount: nat, ttl: nat, now: nat)
    ensures ReserveRight(q, key, amount, ttl, now, Reserve(q, key, amount, ttl, now).1)
  {
    hide Spells, StrictBalance, Text, ReservationId, SetBalance;
    if key in q.entries {
      var value := q.entries[key].value;
      var balance := StrictBalance(value);
      if balance.Some? {
        StrictIff(value, balance.value);
        SpellsOne(value, balance.value);
      } else {
        forall b: nat ensures !Spells(value, b) { StrictIff(value, b); }
      }
    }
  }

  /** What a grant leaves: the balance less the amount, written out, and the reservation with its deadline
      under an identifier not in use; a refusal changes nothing but to drop an expired pool. */
  lemma ReserveLeaves(q: Quotas, key: string, amount: nat, ttl: nat, now: nat)
    requires IdsIssued(q)
    ensures var (q', reply) := Reserve(q, key, amount, ttl, now);
            && (reply.Reserved? ==>
                  && reply.id !in q.reservations && q'.next == q.next + 1
                  && q'.reservations
                     == q.reservations[reply.id := Reservation(key, amount, now, (now + ttl) % 0x1_0000_0000_0000_0000)]
                  && key in q.entries && q'.entries == q.entries[key := q.entries[key].(value := Text(reply.left))]
                  && Spells(Text(reply.left), reply.left))
            && (!reply.Reserved? ==>
                  && q'.reservations == q.reservations && q'.next == q.next
                  && q'.entries == if amount > 0 && ttl > 0 && key in q.entries && !LiveEntry(q, key, now)
                                   then q.entries - {key} else q.entries)
  {
    hide Spells, Text, Stoull, ReservationId, Issued;
    var (q', reply) := Reserve(q, key, amount, ttl, now);
    IssuedNext(q.next, now);
    if reply.Reserved? {
      StoullOfText(reply.left);
      StoullWholeIff(Text(reply.left), reply.left);
    }
  }

  /** The balance the other operations see: the numeral at the front of the text, if it is in range, or 0. */
  lemma BalanceIs(q: Quotas, key: string, blanks: string, sign: string, digits: string, rest: string)
    requires key in q.entries && Numeral(q.entries[key].value, blanks, sign, digits, rest)
    ensures Balance(q, key) == if Value(digits) >= U64 then 0
                               else if sign == "-" && Value(digits) > 0 then U64 - Value(digits) else Value(digits)
  {
    hide Value, ReadSigned, Numeral;
    WholeLength(q.entries[key].value, blanks, sign, digits, rest);
    NumeralReads(q.entries[key].value, blanks, sign, digits, rest);
  }

  lemma NoBalance(q: Quotas, key: string)
    requires key in q.entries ==>
               forall blanks, sign, digits, rest :: !Numeral(q.entries[key].value, blanks, sign, digits, rest)
    ensures Balance(q, key) == 0
  {
    hide Numeral, ReadSigned;
    if key in q.entries && ReadSigned(q.entries[key].value).Some? {
      var blanks, sign, digits, rest := ReadIsNumeral(q.entries[key].value);
    }
  }

  /** The reservation is there under the pool's name. */
  predicate Held(q: Quotas, key: string, id: string) { id in q.reservations && q.reservations[id].key == key }

  predicate Over(q: Quotas, id: string, now: nat)
    requires id in q.reservations
  {
    q.reservations[id].expireAt != 0 && now >= q.reservations[id].expireAt
  }

  /** A commit finds its reservation or not, in time or not. In time it reports what was asked for, gives
      back what was not used, and leaves what reservation and balance hold less that, modulo 2^64, or
      nothing if that is not enough. */
  lemma CommitRepliesIff(q: Quotas, key: string, id: string, actual: nat, now: nat)
    ensures var (q', reply) := Commit(q, key, id, actual, now);
            && (reply.NoReservation? <==> !Held(q, key, id))
            && (reply.CommitExpired? <==> Held(q, key, id) && Over(q, id, now))
            && (reply.NoReservation? ==> q' == q)
            && (!reply.NoReservation? ==> q'.reservations == q.reservations - {id} && q'.next == q.next)
            && (reply.Committed? ==>
                  var reserved, held := q.reservations[id].amount, Balance(q, key) + q.reservations[id].amount;
                  && reply.actual == actual
                  && reply.refunded == (if actual <= reserved then reserved - actual else 0)
                  && reply.left == if actual <= held then (held - actual) % 0x1_0000_0000_0000_0000 else 0)
  {
    hide Stoull, Text;
  }

  /** A commit, in time or not, writes to its pool alone. In time it writes what it reports as left; too late
      it pays the whole reservation back to a pool that is there. */
  lemma CommitLeaves(q: Quotas, key: string, id: string, actual: nat, now: nat)
    requires Held(q, key, id) && q.reservations[id].amount < U64
    ensures var (q', reply) := Commit(q, key, id, actual, now);
            && q'.entries - {key} == q.entries - {key}
            && (reply.Committed? ==> key in q'.entries && Spells(q'.entries[key].value, reply.left))
            && (reply.CommitExpired? ==>
                  if key in q.entries then
                    var paid := Balance(q, key) + q.reservations[id].amount;
                    Spells(q'.entries[key].value, paid % 0x1_0000_0000_0000_0000)
                  else q'.entries == q.entries)
  {
    hide Stoull, Text, Spells;
    var (q', reply) := Commit(q, key, id, actual, now);
    if reply.Committed? {
      WrittenSpells(reply.left);
    } else if key in q.entries {
      WrittenSpells((Balance(q, key) + q.reservations[id].amount) % 0x1_0000_0000_0000_0000);
    }
  }

  lemma WrittenSpells(n: nat)
    requires n < U64
    ensures Spells(Text(n), n)
  {
    hide Spells, Stoull;
    StoullOfText(n);
    StoullWholeIff(Text(n), n);
  }

  /** A rollback finds its reservation or not. In time it pays the whole of it back, too late nothing; it
      reports the amount either way. */
  lemma RollbackRepliesIff(q: Quotas, key: string, id: string, now: nat)
    ensures var (q', reply) := Rollback(q, key, id, now);
            && (reply.NothingToRollBack? <==> !Held(q, key, id))
            && (reply.NothingToRollBack? ==> q' == q)
            && (reply.RolledBack? ==>
                  var amount := q.reservations[id].amount;
                  && q'.reservations == q.reservations - {id} && q'.next == q.next && reply.refunded == amount
                  && (Over(q, id, now) ==> q'.entries == q.entries && reply.left == Balance(q, key))
                  && (!Over(q, id, now) ==>
                        && reply.left == (Balance(q, key) + amount) % 0x1_0000_0000_0000_0000
                        && key in q'.entries && Spells(q'.entries[key].value, reply.left)
                        && q'.entries - {key} == q.entries - {key}))
  {
    hide Stoull, Text, Spells;
    var (q', reply) := Rollback(q, key, id, now);
    if reply.RolledBack? && !Over(q, id, now) { WrittenSpells(reply.left); }
  }
}
