/** Idempotency keys told by replies alone: what a claim, a completion and a failure make every later call
    reply, until the claim expires. */
module ClaimLaws {
  import opened Idempotency

  // ----- what calls reply -----

  function BeginReplies(s: Claims, key: string, hash: string, owner: string, now: nat, ttl: nat): BeginReply {
    Begin(s, key, hash, ttl, owner, now).1
  }

  /** The token of a new claim: the caller's own if there is one. */
  function TokenFor(s: Claims, owner: string, now: nat): string { if owner == "" then Token(now, s.next) else owner }

  predicate Alive(deadline: nat, now: nat) { deadline == 0 || now < deadline }

  function Until(now: nat, ttl: nat): nat { if ttl == 0 then 0 else (now + ttl) % 0x1_0000_0000_0000_0000 }

  /** Complete and fail both admit callers without a token and the one that holds it, and no other. */
  ghost predicate Guarded(s: Claims, key: string, token: string, now: nat) {
    forall owner, code, body :: ClosesRight(s, key, token, owner, code, body, now)
  }

  predicate ClosesRight(s: Claims, key: string, token: string, owner: string, code: int, body: string, now: nat) {
    && Complete(s, key, owner, code, body, now).1 == (if owner == "" || owner == token then Done else TokenMismatch)
    && Fail(s, key, owner, body, now).1 == if owner == "" || owner == token then Done else TokenMismatch
  }

  /** Someone is at work: others wait, and who holds the token goes on. */
  ghost predicate InFlight(s: Claims, key: string, hash: string, token: string, now: nat) {
    && Guarded(s, key, token, now)
    && forall h, owner, ttl :: BeginReplies(s, key, h, owner, now, ttl)
         == if h != hash then Conflict else if owner != "" && owner == token then Execute(token) else Park(token)
  }

  /** The work is done: everyone is given its result. */
  ghost predicate Answered(s: Claims, key: string, hash: string, token: string, code: int, body: string, now: nat) {
    && Guarded(s, key, token, now)
    && forall h, owner, ttl :: BeginReplies(s, key, h, owner, now, ttl)
         == if h != hash then Conflict else Replay(token, code, body)
  }

  /** The work was given up: the next caller with the same request takes it over. */
  ghost predicate GivenUp(s: Claims, key: string, hash: string, token: string, now: nat) {
    && Guarded(s, key, token, now)
    && forall h, owner, ttl :: BeginReplies(s, key, h, owner, now, ttl)
         == if h != hash then Conflict else Execute(TokenFor(s, owner, now))
  }

  /** Nothing is known of the key: anyone may start, and there is nothing to close. */
  ghost predicate Open(s: Claims, key: string, now: nat) {
    && (forall h, owner, ttl :: BeginReplies(s, key, h, owner, now, ttl) == Execute(TokenFor(s, owner, now)))
    && forall owner, code, body :: NothingToClose(s, key, owner, code, body, now)
  }

  predicate NothingToClose(s: Claims, key: string, owner: string, code: int, body: string, now: nat) {
    var done, failed := Complete(s, key, owner, code, body, now).1, Fail(s, key, owner, body, now).1;
    done == failed && (done.NotFound? || done.TooLate?)
  }

  // ----- what each call brings about -----

  /** When a begin is let through: nothing is known of the key, its work was given up, or the caller is the
      one at work. */
  lemma ExecuteIff(s: Claims, key: string, hash: string, ttl: nat, owner: string, now: nat)
    ensures Begin(s, key, hash, ttl, owner, now).1.Execute?
            <==> (|| key !in s.records || !Alive(s.records[key].expireAt, now)
                  || (hash == s.records[key].requestHash
                      && (|| s.records[key].status.Failed?
                          || (s.records[key].status.InProgress? && owner != "" && owner == s.records[key].token))))
  {
  }

  /** A new claim goes to the caller under the caller's own token, if there is one; others wait for it until
      it ends, whatever is asked between that does not disturb it; and from then on the key is open. */
  lemma BeginOpens(s: Claims, key: string, hash: string, ttl: nat, owner: string, now: nat,
                   events: seq<Event>, later: nat)
    requires key !in s.records || !Alive(s.records[key].expireAt, now)
             || (s.records[key].status.Failed? && s.records[key].requestHash == hash)
    requires Undisturbed(Begin(s, key, hash, ttl, owner, now).0, events, key)
    ensures Begin(s, key, hash, ttl, owner, now).1 == Execute(TokenFor(s, owner, now))
    ensures var s' := Run(Begin(s, key, hash, ttl, owner, now).0, events);
            if Alive(Until(now, ttl), later) then InFlight(s', key, hash, TokenFor(s, owner, now), later)
            else Open(s', key, later)
  {
    hide Token, Run, Undisturbed;
    var s1 := Begin(s, key, hash, ttl, owner, now).0;
    RecordKept(s1, events, key);
  }

  /** A completion that is let through is what everyone is given from then on, until the claim ends. */
  lemma CompleteAnswers(s: Claims, key: string, owner: string, code: int, body: string, now: nat,
                        events: seq<Event>, later: nat)
    requires Complete(s, key, owner, code, body, now).1.Done? && s.records[key].status.InProgress?
    requires Undisturbed(Complete(s, key, owner, code, body, now).0, events, key)
    ensures var s', r := Run(Complete(s, key, owner, code, body, now).0, events), s.records[key];
            if Alive(r.expireAt, later) then Answered(s', key, r.requestHash, r.token, code, body, later)
            else Open(s', key, later)
  {
    hide Token, Run, Undisturbed;
    RecordKept(Complete(s, key, owner, code, body, now).0, events, key);
  }

  /** A failure that is let through leaves the work to the next caller; the end of the claim stays. */
  lemma FailGivesUp(s: Claims, key: string, owner: string, message: string, now: nat, later: nat)
    requires Fail(s, key, owner, message, now).1.Done?
    ensures var s', r := Fail(s, key, owner, message, now).0, s.records[key];
            if Alive(r.expireAt, later) then GivenUp(s', key, r.requestHash, r.token, later) else Open(s', key, later)
  {
    hide Token;
  }
}
