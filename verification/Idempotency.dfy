/** Idempotency keys: the first caller executes, others park or replay, and a token issued with each
    claim fences off earlier claims. */
module Idempotency {
  import opened Sequences
  import opened Records
  import opened Decimal

  /** The records of a shard and the token counter. */
  datatype Claims = Claims(records: map<string, IdemRecord>, next: nat)

  datatype BeginReply =
    | Execute(token: string)
    | Park(token: string)
    | Replay(token: string, code: int, body: string)
    | Conflict
  datatype CloseReply = NotFound | TooLate | TokenMismatch | Done

  function Token(now: nat, sequence: nat): (t: string)
    ensures t != []
  {
    Stamp("idem_", now, sequence)
  }

  predicate Dead(s: Claims, key: string, now: nat) {
    key in s.records && Expired(s.records[key].expireAt, now)
  }

  function Forget(s: Claims, key: string, now: nat): Claims {
    if Dead(s, key, now) then s.(records := s.records - {key}) else s
  }

  /** Open a new claim; a caller without a token of its own is given a fresh one. */
  function Claim(s: Claims, key: string, hash: string, ttl: nat, owner: string, now: nat): (Claims, BeginReply) {
    var token := if owner == "" then Token(now, s.next) else owner;
    (Claims(s.records[key := IdemRecord(hash, InProgress, 0, "", token, now, Deadline(now, ttl))],
            if owner == "" then s.next + 1 else s.next),
     Execute(token))
  }

  function Begin(s: Claims, key: string, hash: string, ttl: nat, owner: string, now: nat): (Claims, BeginReply) {
    var s' := Forget(s, key, now);
    if key !in s'.records then Claim(s', key, hash, ttl, owner, now)
    else
      var r := s'.records[key];
      if r.requestHash != hash then (s', Conflict)
      else match r.status
        case InProgress => (s', if owner != "" && r.token == owner then Execute(r.token) else Park(r.token))
        case Completed => (s', Replay(r.token, r.code, r.body))
        case Failed => Claim(s', key, hash, ttl, owner, now)
  }

  /** The checks complete and fail share; an empty token is not checked. */
  function Admit(s: Claims, key: string, owner: string, now: nat): CloseReply {
    if key !in s.records then NotFound
    else if Dead(s, key, now) then TooLate
    else if owner != "" && s.records[key].token != owner then TokenMismatch
    else Done
  }

  function Complete(s: Claims, key: string, owner: string, code: int, body: string, now: nat): (Claims, CloseReply) {
    var reply := Admit(s, key, owner, now);
    if reply.Done? && !s.records[key].status.Completed? then
      (s.(records := s.records[key := s.records[key].(status := Completed, code := code, body := body)]), reply)
    else (Forget(s, key, now), reply)
  }

  function Fail(s: Claims, key: string, owner: string, message: string, now: nat): (Claims, CloseReply) {
    var reply := Admit(s, key, owner, now);
    if reply.Done? then
      (s.(records := s.records[key := s.records[key].(status := Failed, body := message)]), reply)
    else (Forget(s, key, now), reply)
  }

  // ----- runs -----

  /** Calls on any key; Touch is a lookup or a purge, which drop the record if it has expired, and
      OtherShard a call on a key elsewhere, which may use up sequence numbers. */
  datatype Event =
    | DoBegin(key: string, hash: string, ttl: nat, owner: string, now: nat)
    | DoComplete(key: string, owner: string, code: int, body: string, now: nat)
    | DoFail(key: string, owner: string, message: string, now: nat)
    | Touch(key: string, now: nat)
    | OtherShard(key: string, now: nat, used: nat)

  function Step(s: Claims, e: Event): Claims {
    match e
    case DoBegin(key, hash, ttl, owner, now) => Begin(s, key, hash, ttl, owner, now).0
    case DoComplete(key, owner, code, body, now) => Complete(s, key, owner, code, body, now).0
    case DoFail(key, owner, message, now) => Fail(s, key, owner, message, now).0
    case Touch(key, now) => Forget(s, key, now)
    case OtherShard(_, _, used) => s.(next := s.next + used)
  }

  function Run(s: Claims, events: seq<Event>): Claims
    decreases |events|
  {
    if events == [] then s else Run(Step(s, events[0]), events[1..])
  }

  // ----- single flight and replay -----

  predicate Closes(s: Claims, e: Event, key: string) {
    (e.DoComplete? || e.DoFail?) && e.key == key && Admit(s, key, e.owner, e.now).Done?
  }

  /** What changes a live record: an admitted failure that was not recorded already, the first
      admitted completion, and a new claim of a failed one. */
  predicate Changes(s: Claims, e: Event, key: string)
    requires key in s.records
  {
    var r := s.records[key];
    || (Closes(s, e, key) && e.DoComplete? && !r.status.Completed?)
    || (Closes(s, e, key) && e.DoFail? && !(r.status.Failed? && r.body == e.message))
    || (e.DoBegin? && e.key == key && e.hash == r.requestHash && r.status.Failed?)
  }

  /** A live record outlasts an event on any key, and is as it was exactly when the event is none of
      these. */
  lemma LiveRecordKeptIff(s: Claims, e: Event, key: string)
    requires key in s.records && (e.key == key ==> !Dead(s, key, e.now))
    ensures key in Step(s, e).records
    ensures Step(s, e).records[key] == s.records[key] <==> !Changes(s, e, key)
  {
    if e.DoBegin? && e.key == key && s.records[key].status.Failed? && e.hash == s.records[key].requestHash {
      assert Step(s, e).records[key].status.InProgress?;
    }
  }

  /** A claim in progress or completed, undisturbed: no event on the key comes after its expiry, no
      failure is admitted, and no completion while it is in progress. */
  predicate Undisturbed(s: Claims, events: seq<Event>, key: string)
    decreases |events|
  {
    events == [] || (
      && (events[0].key == key ==> !Dead(s, key, events[0].now))
      && (Closes(s, events[0], key) ==> events[0].DoComplete? && key in s.records && s.records[key].status.Completed?)
      && Undisturbed(Step(s, events[0]), events[1..], key))
  }

  lemma {:induction false} RecordKept(s: Claims, events: seq<Event>, key: string)
    requires key in s.records && !s.records[key].status.Failed? && Undisturbed(s, events, key)
    ensures key in Run(s, events).records && Run(s, events).records[key] == s.records[key]
    decreases |events|
  {
    if events != [] {
      LiveRecordKeptIff(s, events[0], key);
      RecordKept(Step(s, events[0]), events[1..], key);
    }
  }

  /** Single flight: as long as a claim is in progress and undisturbed, every begin on the key with
      the same hash is parked, except by a caller that presents the claim's own token; any other
      hash conflicts. So one claim gives out exactly one execution to callers without a token. */
  lemma SingleFlight(s: Claims, events: seq<Event>, key: string, hash: string, ttl: nat, owner: string, now: nat)
    requires key in s.records && s.records[key].status.InProgress? && Undisturbed(s, events, key)
    requires !Expired(s.records[key].expireAt, now)
    ensures var r, reply := s.records[key], Begin(Run(s, events), key, hash, ttl, owner, now).1;
            && (hash != r.requestHash <==> reply == Conflict)
            && (hash == r.requestHash ==> (reply == Execute(r.token) <==> owner != "" && owner == r.token))
            && (hash == r.requestHash && (owner == "" || owner != r.token) ==> reply == Park(r.token))
  {
    RecordKept(s, events, key);
  }

  /** Replay: the response recorded by the first completion is what every later begin gets, until the
      record expires or a failure is admitted, whatever later completions say. */
  lemma ReplayStable(s: Claims, events: seq<Event>, key: string, ttl: nat, owner: string, now: nat)
    requires key in s.records && s.records[key].status.Completed? && Undisturbed(s, events, key)
    requires !Expired(s.records[key].expireAt, now)
    ensures var r := s.records[key];
            Begin(Run(s, events), key, r.requestHash, ttl, owner, now).1 == Replay(r.token, r.code, r.body)
  {
    RecordKept(s, events, key);
  }

  /** The first completion wins: whatever runs between, as long as the record does not expire and no
      failure is admitted, and however often others complete it again, its code and body are what
      every later begin is given. */
  lemma FirstCompletionWins(s: Claims, key: string, owner: string, code: int, body: string, done: nat,
                            events: seq<Event>, ttl: nat, caller: string, now: nat)
    requires Complete(s, key, owner, code, body, done).1.Done? && !s.records[key].status.Completed?
    requires Undisturbed(Complete(s, key, owner, code, body, done).0, events, key)
    requires !Expired(s.records[key].expireAt, now)
    ensures var s' := Run(Complete(s, key, owner, code, body, done).0, events);
            Begin(s', key, s.records[key].requestHash, ttl, caller, now).1 == Replay(s.records[key].token, code, body)
  {
    ReplayStable(Complete(s, key, owner, code, body, done).0, events, key, ttl, caller, now);
  }

  /** A completed response survives one live event exactly when that event is not an admitted failure:
      nothing guards a completed record against being failed. */
  lemma CompletedSurvivesIff(s: Claims, e: Event, key: string)
    requires key in s.records && s.records[key].status.Completed? && (e.key == key ==> !Dead(s, key, e.now))
    ensures key in Step(s, e).records && Step(s, e).records[key] == s.records[key]
            <==> !(e.DoFail? && e.key == key && (e.owner == "" || e.owner == s.records[key].token))
  {
    LiveRecordKeptIff(s, e, key);
  }

  /** One claim of the key: its record is never found expired and no failure is admitted. It may be
      completed, once or more. */
  predicate OneEpoch(s: Claims, events: seq<Event>, key: string)
    decreases |events|
  {
    events == [] || (
      && (events[0].key == key ==> !Dead(s, key, events[0].now))
      && !(events[0].DoFail? && Closes(s, events[0], key))
      && OneEpoch(Step(s, events[0]), events[1..], key))
  }

  /** While a claim lasts, from its start through its completion and the replays after it, callers
      without a token are given no second execution. */
  lemma {:induction false} NoSecondExecution(s: Claims, events: seq<Event>, key: string)
    requires key in s.records && !s.records[key].status.Failed? && OneEpoch(s, events, key)
    requires ServerTokens(events, key)
    ensures AllTokens(s, events, key) == []
    decreases |events|
  {
    if events != [] {
      LiveRecordKeptIff(s, events[0], key);
      NoSecondExecution(Step(s, events[0]), events[1..], key);
    }
  }

  /** A claim and everything until it is failed or expires: exactly one execution. */
  lemma OneExecutionPerClaim(s: Claims, e: Event, events: seq<Event>, key: string)
    requires e.DoBegin? && e.key == key && e.owner == "" && Begin(s, key, e.hash, e.ttl, "", e.now).1.Execute?
    requires OneEpoch(Step(s, e), events, key) && ServerTokens(events, key)
    ensures AllTokens(s, [e] + events, key) == [Begin(s, key, e.hash, e.ttl, "", e.now).1.token]
  {
    NoSecondExecution(Step(s, e), events, key);
    assert ([e] + events)[1..] == events;
  }

  /** Begin, complete, fail: nothing guards the completed record, and the next begin is given a second
      execution of a request that was completed. */
  lemma CompletedThenFailed()
    ensures var s := Run(Claims(map[], 1), [DoBegin("k", "h", 0, "", 1), DoComplete("k", Token(1, 1), 200, "ok", 2),
                                            DoFail("k", Token(1, 1), "no", 3)]);
            Begin(s, "k", "h", 0, "", 4).1 == Execute(Token(4, 2))
  {
    hide Token;
    var a, b := DoBegin("k", "h", 0, "", 1), DoComplete("k", Token(1, 1), 200, "ok", 2);
    var c := DoFail("k", Token(1, 1), "no", 3);
    var s1 := Step(Claims(map[], 1), a);
    var s2 := Step(s1, b);
    var s3 := Step(s2, c);
    assert [a, b, c][1..] == [b, c] && [b, c][1..] == [c] && [c][1..] == [];
    assert Run(s3, []) == s3 && Run(s2, [c]) == s3 && Run(s1, [b, c]) == s3;
  }

  // ----- fencing -----

  ghost predicate Issued(token: string, next: nat) {
    exists now: nat, sequence: nat :: sequence < next && token == Token(now, sequence)
  }

  lemma TokenIsNew(next: nat, now: nat)
    ensures !Issued(Token(now, next), next)
    ensures Issued(Token(now, next), next + 1)
    ensures forall t :: Issued(t, next) ==> Issued(t, next + 1)
  {
    if Issued(Token(now, next), next) {
      var t: nat, n: nat :| n < next && Token(now, next) == Token(t, n);
      StampInjective("idem_", now, next, t, n);
    }
  }

  lemma IssuedLater(next: nat, used: nat)
    ensures forall t :: Issued(t, next) ==> Issued(t, next + used)
  {
  }

  /** The tokens given out for a key so far, oldest first; the record carries the last one. */
  ghost predicate Epochs(s: Claims, key: string, tokens: seq<string>) {
    && Distinct(tokens)
    && (forall t :: t in tokens ==> Issued(t, s.next))
    && (key in s.records ==> tokens != [] && s.records[key].token == tokens[|tokens| - 1])
  }

  predicate ServerTokens(events: seq<Event>, key: string) {
    forall i :: 0 <= i < |events| && events[i].DoBegin? && events[i].key == key ==> events[i].owner == ""
  }

  function TokensOf(s: Claims, e: Event, key: string): seq<string> {
    if e.DoBegin? && e.key == key then
      var reply := Begin(s, key, e.hash, e.ttl, e.owner, e.now).1;
      if reply.Execute? then [reply.token] else []
    else []
  }

  function AllTokens(s: Claims, events: seq<Event>, key: string): seq<string>
    decreases |events|
  {
    if events == [] then [] else TokensOf(s, events[0], key) + AllTokens(Step(s, events[0]), events[1..], key)
  }

  lemma EpochStep(s: Claims, e: Event, key: string, tokens: seq<string>)
    requires Epochs(s, key, tokens) && ServerTokens([e], key)
    ensures Epochs(Step(s, e), key, tokens + TokensOf(s, e, key))
  {
    hide Token, Issued;
    assert [e][0] == e;
    if e.DoBegin? && e.owner == "" { TokenIsNew(s.next, e.now); }
    if e.OtherShard? { IssuedLater(s.next, e.used); }
    assert tokens + [] == tokens;
  }

  lemma {:induction false} EpochRun(s: Claims, events: seq<Event>, key: string, tokens: seq<string>)
    requires Epochs(s, key, tokens) && ServerTokens(events, key)
    ensures Epochs(Run(s, events), key, tokens + AllTokens(s, events, key))
    decreases |events|
  {
    hide Epochs, Step, TokensOf;
    if events == [] {
      assert tokens + [] == tokens;
    } else {
      assert ServerTokens([events[0]], key) && ServerTokens(events[1..], key);
      var here := TokensOf(s, events[0], key);
      EpochStep(s, events[0], key, tokens);
      EpochRun(Step(s, events[0]), events[1..], key, tokens + here);
      assert tokens + here + AllTokens(Step(s, events[0]), events[1..], key) == tokens + AllTokens(s, events, key);
    }
  }

  /** A token that admits nothing: complete and fail with it at most drop an expired record. */
  ghost predicate Fenced(s: Claims, key: string, token: string) {
    forall code, body, now :: FencedAt(s, key, token, code, body, now)
  }

  predicate FencedAt(s: Claims, key: string, token: string, code: int, body: string, now: nat) {
    && Complete(s, key, token, code, body, now).0 == Forget(s, key, now)
    && Fail(s, key, token, body, now).0 == Forget(s, key, now)
    && !Complete(s, key, token, code, body, now).1.Done? && !Fail(s, key, token, body, now).1.Done?
  }

  lemma StaleToken(s: Claims, key: string, tokens: seq<string>, i: nat)
    requires Epochs(s, key, tokens) && i + 1 < |tokens|
    ensures Fenced(s, key, tokens[i])
  {
    hide FencedAt;
    var token := tokens[i];
    assert token in tokens && Issued(token, s.next);
    var t: nat, n: nat :| n < s.next && token == Token(t, n);
    assert token != tokens[|tokens| - 1];
    forall code, body, now ensures FencedAt(s, key, token, code, body, now) {
      NotAdmitted(s, key, token, code, body, now);
    }
  }

  lemma NotAdmitted(s: Claims, key: string, token: string, code: int, body: string, now: nat)
    requires token != "" && (key in s.records ==> s.records[key].token != token)
    ensures FencedAt(s, key, token, code, body, now)
  {
  }

  /** Fencing: after any run in which the server issues the tokens, the claims of a key have pairwise
      different tokens, and the token of any claim but the last can neither complete nor fail the
      record again. */
  lemma Fencing(events: seq<Event>, key: string)
    requires ServerTokens(events, key)
    ensures var s, tokens := Run(Claims(map[], 1), events), AllTokens(Claims(map[], 1), events, key);
            Distinct(tokens) && forall i :: 0 <= i < |tokens| - 1 ==> Fenced(s, key, tokens[i])
  {
    hide Run, AllTokens, Fenced;
    var s, tokens := Run(Claims(map[], 1), events), AllTokens(Claims(map[], 1), events, key);
    EpochRun(Claims(map[], 1), events, key, []);
    assert [] + tokens == tokens;
    forall i | 0 <= i < |tokens| - 1 ensures Fenced(s, key, tokens[i]) {
      StaleToken(s, key, tokens, i);
    }
  }
}
