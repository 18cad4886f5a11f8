/** Requests served on the store with the append-only file attached, and the load at startup. */
module Servers {
  import opened Options
  import opened Sequences
  import opened Json
  import opened Bodies
  import opened BodyText
  import opened Aof
  import opened Generations
  import opened Pieces
  import opened MemoryStores
  import KV = KeyValue

  // ----- what a command does to the store as seen at some time -----

  function Do(live: KV.Entries, c: Command, now: nat): KV.Entries {
    match c
    case Set(key, value, condition, ttl) => KV.Ideal(live, KV.Set(key, value, condition, ttl), now).0
    case Get(_) => live
    case Del(keys) => live - KeySet(keys)
  }

  function MaybeDo(live: KV.Entries, c: Option<Command>, now: nat): KV.Entries {
    if c.None? then live else Do(live, c.value, now)
  }

  function DoLines(live: KV.Entries, lines: seq<string>, now: nat): KV.Entries
    decreases |lines|
  {
    if lines == [] then live else DoLines(MaybeDo(live, LineCommand(lines[0]), now), lines[1..], now)
  }

  /** Whether the handler reports success: a GET only when it finds the key. */
  predicate Succeeds(live: KV.Entries, c: Option<Command>) {
    c.Some? && (c.value.Get? ==> c.value.key in live)
  }

  /** How many of the lines succeed when they are executed one after the other. */
  function Successes(live: KV.Entries, lines: seq<string>, now: nat): nat
    decreases |lines|
  {
    if lines == [] then 0
    else
      var c := LineCommand(lines[0]);
      (if Succeeds(live, c) then 1 else 0) + Successes(MaybeDo(live, c, now), lines[1..], now)
  }

  predicate Timeless(live: KV.Entries) { forall k :: k in live ==> live[k].expireAt == 0 }

  function Values(live: KV.Entries): Contents { map k | k in live :: live[k].value }

  /** While nothing expires, the values behave as the plain map of the log's model. */
  lemma DoIsStep(live: KV.Entries, c: Option<Command>, now: nat)
    requires Timeless(live) && NoTtl(c)
    ensures Timeless(MaybeDo(live, c, now)) && Values(MaybeDo(live, c, now)) == Maybe(Values(live), c)
  {
    if c.Some? {
      match c.value {
        case Set(key, value, condition, ttl) => SetIsStep(live, key, value, condition, now);
        case Get(_) =>
        case Del(keys) => assert Values(live - KeySet(keys)) == Values(live) - KeySet(keys);
      }
    }
  }

  lemma SetIsStep(live: KV.Entries, key: string, value: string, condition: KV.Condition, now: nat)
    requires Timeless(live)
    ensures var live' := KV.Ideal(live, KV.Set(key, value, condition, 0), now).0;
            && Timeless(live')
            && var m := Values(live);
               Values(live') == if Stores(m, key, condition) then m[key := value] else m
  {
    hide KV.Incremented, KV.MillisLeft, KV.SecondsLeft;
    var live' := KV.Ideal(live, KV.Set(key, value, condition, 0), now).0;
    if Stores(Values(live), key, condition) {
      assert live'.Keys == live.Keys + {key};
    } else {
      assert live' == live;
    }
  }

  lemma {:induction false} LoadIsReplay(live: KV.Entries, lines: seq<string>, now: nat)
    requires Timeless(live) && forall i :: 0 <= i < |lines| ==> NoTtl(LineCommand(lines[i]))
    ensures Timeless(DoLines(live, lines, now)) && Values(DoLines(live, lines, now)) == Replay(Values(live), lines)
    decreases |lines|
  {
    hide LineCommand, MaybeDo, NoTtl, Timeless, Values, Maybe;
    if lines != [] {
      DoIsStep(live, LineCommand(lines[0]), now);
      LoadIsReplay(MaybeDo(live, LineCommand(lines[0]), now), lines[1..], now);
    }
  }

  // ----- the writer -----

  /** What the operating system answers to one write call. */
  datatype Answer = Wrote(n: nat) | Interrupted | Error

  /** The process may also be killed between two write calls. */
  datatype Outcome = Done | Refused | Stopped | Killed

  /** How much of what is left the answers get written, and how the writing ends. */
  function Writing(left: nat, answers: seq<Answer>): (r: (nat, Outcome))
    ensures r.0 <= left && !r.1.Refused? && (r.1.Done? <==> r.0 == left)
    decreases |answers|
  {
    if left == 0 then (0, Done)
    else if answers == [] then (0, Killed)
    else if answers[0].Interrupted? then Writing(left, answers[1..])
    else if answers[0].Error? || answers[0].n == 0 then (0, Stopped)
    else if answers[0].n >= left then (left, Done)
    else
      var (more, outcome) := Writing(left - answers[0].n, answers[1..]);
      (answers[0].n + more, outcome)
  }

  /** So much is written, and what the other answers let through still to come. */
  ghost predicate InWriting(length: nat, answers: seq<Answer>, at: nat, i: nat) {
    && at <= length && i <= |answers|
    && var (more, outcome) := Writing(length - at, answers[i..]); Writing(length, answers) == (at + more, outcome)
  }

  lemma WritingNone(length: nat, answers: seq<Answer>)
    ensures InWriting(length, answers, 0, 0)
  {
    assert answers[0..] == answers;
  }

  lemma WritingAll(length: nat, answers: seq<Answer>, i: nat)
    requires InWriting(length, answers, length, i)
    ensures Writing(length, answers) == (length, Done)
  {
  }

  lemma WritingMore(length: nat, answers: seq<Answer>, at: nat, i: nat)
    requires InWriting(length, answers, at, i) && at < length
    ensures i == |answers| ==> Writing(length, answers) == (at, Killed)
    ensures i < |answers| && answers[i].Interrupted? ==> InWriting(length, answers, at, i + 1)
    ensures i < |answers| && (answers[i].Error? || (answers[i].Wrote? && answers[i].n == 0)) ==>
              Writing(length, answers) == (at, Stopped)
    ensures i < |answers| && answers[i].Wrote? && answers[i].n > 0 ==>
              var n := if answers[i].n < length - at then answers[i].n else length - at;
              InWriting(length, answers, at + n, i + 1)
  {
    if i < |answers| { assert answers[i..][1..] == answers[i + 1..]; }
  }

  /** The file has grown by the part of the line the answers let through. */
  ghost predicate Logged(before: string, after: string, line: string, answers: seq<Answer>, outcome: Outcome) {
    var (n, o) := Writing(|line|, answers);
    after == before + line[..n] && outcome == o
  }

  class AofWriter {
    var file: string
    var open: bool

    /** The file is opened for appending. */
    constructor (existing: string)
      ensures file == existing && open
    {
      file, open := existing, true;
    }

    method Append(op: string, payload: string, answers: seq<Answer>) returns (outcome: Outcome)
      modifies this
      ensures open == old(open)
      ensures if op == "" || !open then outcome.Refused? && file == old(file)
              else Logged(old(file), file, op + " " + payload + "\n", answers, outcome)
    {
      if op == "" || !open { return Refused; }
      var line := op + " " + payload + "\n";
      hide Writing, InWriting;
      var at, i := 0, 0;
      WritingNone(|line|, answers);
      while at < |line|
        invariant 0 <= at <= |line| && 0 <= i <= |answers| && file == old(file) + line[..at] && open == old(open)
        invariant InWriting(|line|, answers, at, i)
        decreases |answers| - i
      {
        WritingMore(|line|, answers, at, i);
        if i == |answers| { return Killed; }
        match answers[i] {
          case Wrote(n) =>
            var written := if n < |line| - at then n else |line| - at;
            if written == 0 { return Stopped; }
            file := file + line[at..at + written];
            assert line[..at + written] == line[..at] + line[at..at + written];
            at := at + written;
          case Interrupted =>
          case Error => return Stopped;
        }
        i := i + 1;
      }
      WritingAll(|line|, answers, i);
      return Done;
    }
  }

  /** How the writing of an event's entry ends, if it has one, and how much of it that leaves. */
  function Ending(line: Option<string>, answers: seq<Answer>): Outcome {
    if line.None? then Refused else Writing(|LogText([line])|, answers).1
  }

  function FrontWritten(line: Option<string>, answers: seq<Answer>): string {
    var text := LogText([line]); text[..Writing(|text|, answers).0]
  }

  lemma LoggedFront(before: string, after: string, line: string, answers: seq<Answer>, outcome: Outcome)
    requires Logged(before, after, line + "\n", answers, outcome)
    ensures after == before + FrontWritten(Some(line), answers) && outcome == Ending(Some(line), answers)
  {
    hide Writing;
    OneEntry(Some(line));
  }

  lemma NothingWritten(file: string, answers: seq<Answer>)
    ensures file + FrontWritten(None, answers) == file
  {
    OneEntry(None);
  }

  method NormalizeName(op: string) returns (name: string)
    ensures name == Normalized(op)
  {
    name := "";
    for i := 0 to |op|
      invariant name == Normalized(op)[..i]
    {
      name := name + [Upper(op[i])];
    }
  }

  class Dispatcher {
    const store: MemoryStore
    var writer: AofWriter?

    constructor ()
      ensures fresh(store) && store.Valid() && writer == null && Union(store.shards) == map[]
    {
      store := new MemoryStore();
      writer := null;
    }

    ghost function View(now: nat): KV.Entries
      reads store
    {
      KV.Live(Union(store.shards), now)
    }

    /** Executes the command a request stands for, if any, and then logs it as it was spelled. */
    method Dispatch(op: string, body: string, now: nat, answers: seq<Answer>) returns (ok: bool, outcome: Outcome)
      requires store.Valid()
      modifies store`shards, writer
      ensures store.Valid() && View(now) == MaybeDo(old(View(now)), Understood(op, body), now)
      ensures ok <==> Succeeds(old(View(now)), Understood(op, body))
      ensures writer != null ==> writer.open == old(writer.open)
      ensures writer != null ==>
                if ok && IsWriteOp(op) && writer.open
                then Logged(old(writer.file), writer.file, op + " " + body + "\n", answers, outcome)
                else outcome.Refused? && writer.file == old(writer.file)
    {
      hide KV.Ideal, KV.Live, Union, Do, Logged, SetOf, ObjectAt, KeyListAt, Whole;
      outcome := Refused;
      ok := Execute(op, body, now);
      if ok && writer != null && IsWriteOp(op) {
        outcome := writer.Append(op, body, answers);
      }
    }

    method Execute(op: string, body: string, now: nat) returns (ok: bool)
      requires store.Valid()
      modifies store`shards
      ensures store.Valid() && View(now) == MaybeDo(old(View(now)), Understood(op, body), now)
      ensures ok <==> Succeeds(old(View(now)), Understood(op, body))
    {
      hide KV.Ideal, KV.Live, Union, SetOf, ObjectAt, KeyListAt, Whole;
      Aof.Names();
      var name := NormalizeName(op);
      if name == "SET" {
        var fields := ParseStringBody(body);
        if fields.None? { return false; }
        var c := ReadSet(fields.value);
        if c.None? { return false; }
        var stored := ExecuteSet(c.value.key, c.value.value, c.value.condition, c.value.ttl, now);
        return true;
      }
      if name == "GET" {
        var fields := ParseStringBody(body);
        if fields.None? { return false; }
        var c := GetOf(fields.value);
        if c.None? { return false; }
        ok := ExecuteGet(c.value.key, now);
        return ok;
      }
      if name == "DEL" {
        var keys := ReadKeys(body);
        if keys.None? { return false; }
        var deleted := ExecuteDel(keys.value, now);
        return true;
      }
      return false;
    }

    method ExecuteSet(key: string, value: string, condition: KV.Condition, ttl: nat, now: nat) returns (stored: bool)
      requires store.Valid()
      modifies store`shards
      ensures store.Valid() && View(now) == Do(old(View(now)), Set(key, value, condition, ttl), now)
      ensures stored <==> Stores(Values(old(View(now))), key, condition)
    {
      hide KV.Live, Union;
      stored := store.Set(key, value, condition, ttl, now);
    }

    method ExecuteGet(key: string, now: nat) returns (found: bool)
      requires store.Valid()
      modifies store`shards
      ensures store.Valid() && View(now) == old(View(now))
      ensures found <==> key in old(View(now))
    {
      hide KV.Live, Union;
      GetKeeps(Union(store.shards), key, now);
      var value := store.Get(key, now);
      found := value.Some?;
    }

    /** The count is that of the raw entries erased, a key named twice counting once. */
    method ExecuteDel(keys: seq<string>, now: nat) returns (deleted: nat)
      requires store.Valid()
      modifies store`shards
      ensures store.Valid() && View(now) == old(View(now)) - KeySet(keys)
      ensures deleted == Common(KeySet(keys), Union(old(store.shards)).Keys)
    {
      hide Union, KeySet, KV.Live, Common;
      deleted := 0;
      ghost var raw := Union(store.shards);
      NoKeys(raw);
      for i := 0 to |keys|
        invariant store.Valid() && Union(store.shards) == raw - KeySet(keys[..i])
        invariant deleted == Common(KeySet(keys[..i]), raw.Keys)
      {
        var erased := store.Del(keys[i]);
        OneMoreKey(keys, i);
        OneMoreErased(KeySet(keys[..i]), keys[i], raw);
        if erased { deleted := deleted + 1; }
      }
      assert keys[..|keys|] == keys;
      LiveLess(raw, KeySet(keys), now);
    }

    // ----- the binary connection -----

    /** SET on a binary connection logs what it stored, in a body it builds itself. */
    method BinarySet(key: string, value: string, condition: KV.Condition, ttl: nat, now: nat, answers: seq<Answer>)
      returns (stored: bool, outcome: Outcome)
      requires store.Valid()
      modifies store`shards, writer
      ensures store.Valid() && View(now) == Do(old(View(now)), Set(key, value, condition, ttl), now)
      ensures stored <==> Stores(Values(old(View(now))), key, condition)
      ensures writer != null ==> writer.open == old(writer.open)
      ensures writer != null ==>
                if stored && writer.open
                then Logged(old(writer.file), writer.file, "SET" + " " + SetBody(key, value, condition, ttl) + "\n",
                            answers, outcome)
                else outcome.Refused? && writer.file == old(writer.file)
    {
      hide KV.Ideal, KV.Live, Union, Do, Logged, Stores;
      outcome := Refused;
      stored := ExecuteSet(key, value, condition, ttl, now);
      if stored && writer != null {
        var k := QuoteJson(key);
        var v := QuoteJson(value);
        var body := "{" + Label("key") + k + "," + Label("value") + v + TtlText(ttl) + ConditionText(condition) + "}";
        outcome := writer.Append("SET", body, answers);
      }
    }

    method BinaryDel(key: string, now: nat, answers: seq<Answer>) returns (deleted: bool, outcome: Outcome)
      requires store.Valid()
      modifies store`shards, writer
      ensures store.Valid() && View(now) == Do(old(View(now)), Del([key]), now)
      ensures deleted <==> key in Union(old(store.shards))
      ensures key in old(View(now)) ==> deleted
      ensures writer != null ==> writer.open == old(writer.open)
      ensures writer != null ==>
                if deleted && writer.open
                then Logged(old(writer.file), writer.file, "DEL" + " " + DelBody(key) + "\n", answers, outcome)
                else outcome.Refused? && writer.file == old(writer.file)
    {
      hide Union, Logged;
      outcome := Refused;
      LiveLess(Union(store.shards), {key}, now);
      assert KeySet([key]) == {key};
      deleted := store.Del(key);
      if deleted && writer != null {
        var k := QuoteJson(key);
        outcome := writer.Append("DEL", "{" + Label("key") + k + "}", answers);
      }
    }

    // ----- any event -----

    /** Serves one event while nothing expires: the values change as the event says, and the file grows
        by the event's line, or by a part of it when the writing did not get through. */
    method Serve(e: Event, now: nat, answers: seq<Answer>) returns (ghost line: Option<string>, outcome: Outcome)
      requires store.Valid() && writer != null && writer.open
      requires Timeless(View(now)) && NoTtl(Meaning(e))
      modifies store`shards, writer
      ensures store.Valid() && writer.open && Timeless(View(now))
      ensures Values(View(now)) == Happened(Values(old(View(now))), e) && Logs(Values(old(View(now))), e, line)
      ensures writer.file == old(writer.file) + FrontWritten(line, answers) && outcome == Ending(line, answers)
    {
      hide KV.Live, Union, Timeless, Values, NoTtl, Understood, MaybeDo, Logged, SetBody, DelBody, Stores;
      hide LogText, View, FrontWritten, Writing;
      ghost var before := View(now);
      DoIsStep(before, Meaning(e), now);
      ViewKeys(before);
      if Meaning(e).Some? { SomeDone(before, Meaning(e).value, now); }
      match e {
        case Json(op, body) =>
          if IsWriteOp(op) { WritesWrite(op, body); }
          var ok;
          ok, outcome := Dispatch(op, body, now, answers);
          line := if Meaning(e).Some? && IsWriteOp(op) then Some(op + " " + body) else None;
        case BinarySet(key, value, condition, ttl) =>
          var stored;
          stored, outcome := BinarySet(key, value, condition, ttl, now, answers);
          line := if stored then Some("SET" + " " + SetBody(key, value, condition, ttl)) else None;
        case BinaryDel(key) =>
          var deleted;
          deleted, outcome := BinaryDel(key, now, answers);
          line := if deleted then Some("DEL" + " " + DelBody(key)) else None;
      }
      if line.None? {
        NothingWritten(writer.file, answers);
      } else {
        LoggedFront(old(writer.file), writer.file, line.value, answers, outcome);
      }
    }

    // ----- the load -----

    /** Replays every line of the file, the last one even if it lacks its line break. */
    method Load(text: string, now: nat) returns (replayed: nat, skipped: nat)
      requires store.Valid() && writer == null
      modifies store`shards
      ensures store.Valid() && View(now) == DoLines(old(View(now)), Lines(text), now)
      ensures replayed == Successes(old(View(now)), Lines(text), now) && replayed + skipped == Tried(Lines(text))
    {
      hide KV.Live, Union, LineCommand, Lines, MaybeDo, View, DoLines, Tried, Successes, Succeeds;
      replayed, skipped := 0, 0;
      var pos := 0;
      assert text[0..] == text;
      while pos < |text|
        invariant pos <= |text| && store.Valid()
        invariant DoLines(View(now), Lines(text[pos..]), now) == DoLines(old(View(now)), Lines(text), now)
        invariant replayed + skipped + Tried(Lines(text[pos..])) == Tried(Lines(text))
        invariant replayed + Successes(View(now), Lines(text[pos..]), now)
                == Successes(old(View(now)), Lines(text), now)
        decreases |text| - pos
      {
        var end := FindFirst(text, '\n', pos);
        NextLine(text, pos);
        var line := text[pos..end];
        assert Lines(text[pos..])[0] == line;
        ghost var rest := Lines(text[if end < |text| then end + 1 else |text|..]);
        DoLine(View(now), line, rest, now);
        pos := if end < |text| then end + 1 else |text|;
        if line == "" || line[0] == '#' {
          NothingDone(View(now), line, now);
          continue;
        }
        var space := FindFirst(line, ' ', 0);
        if space == |line| {
          NothingDone(View(now), line, now);
          skipped := skipped + 1;
          continue;
        }
        LineSplits(line);
        var ok, outcome := Dispatch(line[..space], line[space + 1..], now, []);
        if ok { replayed := replayed + 1; } else { skipped := skipped + 1; }
      }
      assert text[pos..] == "";
      NoLines();
    }
  }

  /** The lines that are neither empty nor comments. */
  function Tried(lines: seq<string>): nat {
    if lines == [] then 0 else (if lines[0] == "" || lines[0][0] == '#' then 0 else 1) + Tried(lines[1..])
  }

  lemma NoLines()
    ensures Lines("") == [] && Tried([]) == 0
    ensures forall live, now :: DoLines(live, [], now) == live && Successes(live, [], now) == 0
  {
  }

  lemma DoLine(live: KV.Entries, line: string, rest: seq<string>, now: nat)
    ensures DoLines(live, [line] + rest, now) == DoLines(MaybeDo(live, LineCommand(line), now), rest, now)
    ensures Tried([line] + rest) == (if line == "" || line[0] == '#' then 0 else 1) + Tried(rest)
    ensures Successes(live, [line] + rest, now) ==
            (if Succeeds(live, LineCommand(line)) then 1 else 0)
              + Successes(MaybeDo(live, LineCommand(line), now), rest, now)
  {
    hide LineCommand, MaybeDo;
    assert ([line] + rest)[1..] == rest;
  }

  lemma NextLine(text: string, pos: nat)
    requires pos < |text|
    ensures var end := IndexOf(text, '\n', pos);
            Lines(text[pos..]) == [text[pos..end]] + Lines(text[if end < |text| then end + 1 else |text|..])
  {
    hide Lines;
    var end := IndexOf(text, '\n', pos);
    var line := text[pos..end];
    assert OneLine(line);
    if end < |text| {
      assert text[pos..] == line + "\n" + text[end + 1..];
      FirstLine(line, text[end + 1..]);
    } else {
      assert text[pos..] == line && text[|text|..] == "";
      FirstLine(line, "");
      NoCommand();
    }
  }

  lemma NothingDone(live: KV.Entries, line: string, now: nat)
    requires line == "" || line[0] == '#' || IndexOf(line, ' ', 0) == |line|
    ensures MaybeDo(live, LineCommand(line), now) == live && !Succeeds(live, LineCommand(line))
  {
  }

  lemma GetKeeps(entries: KV.Entries, key: string, now: nat)
    ensures KV.Ideal(KV.Live(entries, now), KV.Get(key), now).0 == KV.Live(entries, now)
  {
  }

  lemma SomeDone(live: KV.Entries, c: Command, now: nat)
    ensures MaybeDo(live, Some(c), now) == Do(live, c, now)
  {
  }

  lemma LineSplits(line: string)
    requires line != "" && line[0] != '#' && IndexOf(line, ' ', 0) < |line|
    ensures var space := IndexOf(line, ' ', 0); LineCommand(line) == Understood(line[..space], line[space + 1..])
  {
  }

  lemma ViewKeys(live: KV.Entries)
    ensures forall k :: k in Values(live) <==> k in live
  {
  }

  method FindFirst(s: string, c: char, from: nat) returns (i: nat)
    requires from <= |s|
    ensures i == IndexOf(s, c, from)
  {
    i := from;
    while i < |s| && s[i] != c
      invariant from <= i <= |s| && IndexOf(s, c, i) == IndexOf(s, c, from)
    {
      i := i + 1;
    }
  }

  lemma LiveLess(entries: KV.Entries, keys: set<string>, now: nat)
    ensures KV.Live(entries - keys, now) == KV.Live(entries, now) - keys
  {
  }

  ghost function Common(a: set<string>, b: set<string>): nat { |a * b| }

  lemma NoKeys(raw: KV.Entries)
    ensures KeySet([]) == {} && raw - {} == raw && Common({}, raw.Keys) == 0
  {
    assert {} * raw.Keys == {};
  }

  lemma OneMoreErased(done: set<string>, key: string, raw: KV.Entries)
    ensures raw - done - {key} == raw - (done + {key})
    ensures Common(done + {key}, raw.Keys) == Common(done, raw.Keys) + if key in raw - done then 1 else 0
  {
    if key in raw - done {
      assert (done + {key}) * raw.Keys == done * raw.Keys + {key};
    } else {
      assert (done + {key}) * raw.Keys == done * raw.Keys;
    }
  }

  lemma OneMoreKey(keys: seq<string>, i: nat)
    requires i < |keys|
    ensures KeySet(keys[..i + 1]) == KeySet(keys[..i]) + {keys[i]}
  {
    assert keys[..i + 1] == keys[..i] + [keys[i]];
  }

  // ----- a run, a crash, a restart -----

  lemma ViewLater(entries: KV.Entries, now: nat, later: nat)
    requires now <= later && Timeless(KV.Live(entries, now))
    ensures KV.Live(entries, later) == KV.Live(entries, now)
  {
    KV.LiveLater(entries, now, later);
  }

  lemma EmptyView(now: nat)
    ensures KV.Live(map[], now) == map[] && Timeless(map[]) && Values(map[]) == map[]
  {
  }

  lemma OneMoreRan(m: Contents, events: seq<Event>, logged: seq<Option<string>>, e: Event, line: Option<string>)
    requires Ran(m, events, logged) && Logs(AllHappened(m, events), e, line)
    ensures Ran(m, events + [e], logged + [line])
    ensures AllHappened(m, events + [e]) == Happened(AllHappened(m, events), e)
    ensures LogText(logged + [line]) == LogText(logged) + LogText([line])
  {
    hide Ran, AllHappened, LogText, Logs, Happened;
    RanMore(m, events, logged, e, line);
    HappenedMore(m, events, e);
    LoggedMore(logged, line);
  }

  lemma {:induction false} RanMore(m: Contents, events: seq<Event>, logged: seq<Option<string>>, e: Event,
                                   line: Option<string>)
    requires Ran(m, events, logged) && Logs(AllHappened(m, events), e, line)
    ensures Ran(m, events + [e], logged + [line])
    decreases |events|
  {
    hide Logs, Happened;
    if events == [] {
      assert [e][1..] == [] && [line][1..] == [] && events + [e] == [e] && logged + [line] == [line];
      assert Ran(Happened(m, e), [], []);
    } else {
      assert (events + [e])[1..] == events[1..] + [e] && (logged + [line])[1..] == logged[1..] + [line];
      RanMore(Happened(m, events[0]), events[1..], logged[1..], e, line);
    }
  }

  lemma HappenedMore(m: Contents, events: seq<Event>, e: Event)
    ensures AllHappened(m, events + [e]) == Happened(AllHappened(m, events), e)
  {
    hide Happened, AllHappened;
    InTwo(m, events, [e]);
    OneHappened(AllHappened(m, events), e);
    Once(AllHappened(m, events), e);
  }

  lemma Once(m: Contents, e: Event)
    ensures Happened(m, e) == Maybe(m, Meaning(e))
  {
  }

  lemma {:induction false} LoggedMore(logged: seq<Option<string>>, line: Option<string>)
    ensures LogText(logged + [line]) == LogText(logged) + LogText([line])
  {
    if logged == [] {
      assert logged + [line] == [line];
    } else {
      assert (logged + [line])[0] == logged[0] && (logged + [line])[1..] == logged[1..] + [line];
      LoggedMore(logged[1..], line);
      Regroup(if logged[0].Some? then logged[0].value + "\n" else "", LogText(logged[1..]), LogText([line]));
    }
  }

  predicate Clock(times: seq<nat>) {
    forall i, j :: 0 <= i < j < |times| ==> times[i] <= times[j]
  }

  /** Of what each event means to log some front part has come into the file. */
  ghost predicate PartsOf(events: seq<Event>, logged: seq<Option<string>>, pieces: seq<Piece>) {
    && |events| == |logged| == |pieces|
    && forall i :: 0 <= i < |pieces| ==> pieces[i].event == events[i] && pieces[i].part <= LogText([logged[i]])
  }

  /** What the answers to the writes have let into the file of what the events mean to log. */
  function Written(events: seq<Event>, logged: seq<Option<string>>, answers: seq<seq<Answer>>): (r: seq<Piece>)
    requires |logged| <= |events| && |logged| <= |answers|
    ensures |r| == |logged|
  {
    seq(|logged|, i requires 0 <= i < |logged| => Piece(events[i], FrontWritten(logged[i], answers[i])))
  }

  /** Events are served until all are, or one is killed in its write. */
  predicate ServedAsAnswered(events: seq<Event>, logged: seq<Option<string>>, answers: seq<seq<Answer>>) {
    && |logged| <= |events| && |logged| <= |answers|
    && (forall i :: 0 <= i < |logged| - 1 ==> !Ending(logged[i], answers[i]).Killed?)
    && (|logged| < |events| ==> logged != [] && Ending(logged[|logged| - 1], answers[|logged| - 1]).Killed?)
  }

  /** Serves the events in turn, from a store in which nothing expires and behind what the file holds
      already. A write that fails is passed over; only a process killed in a write serves no more. */
  method ServeAll(d: Dispatcher, start: nat, events: seq<Event>, times: seq<nat>, answers: seq<seq<Answer>>)
    returns (served: nat, ghost logged: seq<Option<string>>)
    requires d.store.Valid() && Timeless(d.View(start)) && d.writer != null && d.writer.open
    requires |events| == |times| == |answers| && Clock([start] + times)
    requires forall i :: 0 <= i < |events| ==> NoTtl(Meaning(events[i]))
    modifies d.store`shards, d.writer
    ensures served == |logged| <= |events| && Ran(Values(old(d.View(start))), events[..served], logged)
    ensures ServedAsAnswered(events, logged, answers)
    ensures d.writer.file == old(d.writer.file) + FileOf(Written(events, logged, answers))
  {
    hide Logs, Ran, AllHappened, LogText, NoTtl, Timeless, Values, KV.Live, Union, FileOf, Written, Ending;
    hide FrontWritten;
    ghost var m, before := Values(d.View(start)), d.writer.file;
    served, logged := 0, [];
    var now := start;
    NothingRan(m);
    NothingServed(events, answers, before);
    while served < |events|
      invariant served == |logged| <= |events| && d.store.Valid() && d.writer.open
      invariant now == ([start] + times)[served]
      invariant Timeless(d.View(now)) && Values(d.View(now)) == AllHappened(m, events[..served])
      invariant Ran(m, events[..served], logged)
      invariant d.writer.file == before + FileOf(Written(events, logged, answers))
      invariant forall i :: 0 <= i < |logged| ==> !Ending(logged[i], answers[i]).Killed?
    {
      assert times[served] == ([start] + times)[served + 1];
      ViewLater(Union(d.store.shards), now, times[served]);
      now := times[served];
      var e := events[served];
      ghost var line;
      var outcome;
      line, outcome := d.Serve(e, now, answers[served]);
      OneMoreRan(m, events[..served], logged, e, line);
      assert events[..served + 1] == events[..served] + [e];
      OneMoreWritten(events, logged, answers, line, before);
      served, logged := served + 1, logged + [line];
      if outcome.Killed? { return; }
    }
  }

  lemma NothingServed(events: seq<Event>, answers: seq<seq<Answer>>, before: string)
    ensures before + FileOf(Written(events, [], answers)) == before
  {
  }

  lemma OneMoreWritten(events: seq<Event>, logged: seq<Option<string>>, answers: seq<seq<Answer>>,
                       line: Option<string>, before: string)
    requires |logged| < |events| == |answers|
    ensures before + FileOf(Written(events, logged + [line], answers))
            == before + FileOf(Written(events, logged, answers)) + FrontWritten(line, answers[|logged|])
  {
    hide FrontWritten;
    var n := |logged|;
    var part := FrontWritten(line, answers[n]);
    assert Written(events, logged + [line], answers) == Written(events, logged, answers) + [Piece(events[n], part)];
    assert (Written(events, logged, answers) + [Piece(events[n], part)])[..n] == Written(events, logged, answers);
    Regroup(before, FileOf(Written(events, logged, answers)), part);
  }

  lemma WrittenParts(events: seq<Event>, logged: seq<Option<string>>, answers: seq<seq<Answer>>)
    requires |logged| <= |events| && |logged| <= |answers|
    ensures PartsOf(events[..|logged|], logged, Written(events, logged, answers))
  {
    hide LogText, Writing;
  }

  lemma NothingRan(m: Contents)
    ensures Ran(m, [], []) && AllHappened(m, []) == m && LogText([]) == ""
  {
  }

  lemma FaithfulNoTtl(e: Event)
    requires Faithful(e)
    ensures NoTtl(Meaning(e))
  {
    hide Understood;
  }

  /** A server started on a file that sets no time-to-live. */
  method StartOn(file: string, now: nat) returns (d: Dispatcher)
    requires AllNoTtl(file)
    ensures fresh(d) && fresh(d.store) && d.store.Valid() && d.writer == null
    ensures Timeless(d.View(now)) && Values(d.View(now)) == Replay(map[], Lines(file))
  {
    hide NoTtl, Timeless, Values, KV.Live, Union, Lines, LineCommand, DoLines, Replay;
    d := new Dispatcher();
    EmptyView(now);
    var replayed, skipped := d.Load(file, now);
    LoadIsReplay(map[], Lines(file), now);
  }

  /** A server started on whatever the crash left of the log of a run has the values the run had after
      some of its first events, and none whose line was wholly kept is missing. */
  method Restart(cut: string, now: nat, ghost events: seq<Event>, ghost logged: seq<Option<string>>)
    returns (d: Dispatcher)
    requires Ran(map[], events, logged) && cut <= LogText(logged)
    requires forall i :: 0 <= i < |events| ==> Faithful(events[i])
    ensures fresh(d) && d.store.Valid() && d.writer == null
    ensures |events| == |logged|
    ensures exists n :: 0 <= n <= |events| && Values(d.View(now)) == AllHappened(map[], events[..n])
              && forall k :: 0 <= k <= |events| && |LogText(logged[..k])| <= |cut| ==> k <= n
  {
    hide Logs, Ran, AllHappened, LogText, NoTtl, Timeless, Values, KV.Live, Union, Faithful, Lines, Replay, AllNoTtl;
    CutNoTtl(map[], events, logged, cut);
    d := StartOn(cut, now);
    CrashRecovery(map[], events, logged, cut);
    ghost var n :| Recovered(map[], events, logged, cut, n);
  }

  // ----- one life after the other -----

  /** One life of the server: when it starts, what it is asked and when, what the writes come to, and
      how much of its part of the file is kept when it dies. */
  datatype Life = Life(start: nat, events: seq<Event>, times: seq<nat>, answers: seq<seq<Answer>>, kept: nat)

  predicate Proper(life: Life) {
    && |life.events| == |life.times| == |life.answers| && Clock([life.start] + life.times)
    && forall i :: 0 <= i < |life.events| ==> Faithful(life.events[i])
  }

  /** What a life has left: the entries it meant to log, and what of them is in the file after it. */
  datatype Trace = Trace(logged: seq<Option<string>>, pieces: seq<Piece>)

  /** What a life that began with these contents has left: it has served its events as the answers to its
      writes let it, written what they let through, and of that the first `kept` characters are there. */
  ghost predicate Left(life: Life, m: Contents, t: Trace) {
    && ServedAsAnswered(life.events, t.logged, life.answers) && Ran(m, life.events[..|t.logged|], t.logged)
    && t.pieces == CutAt(Written(life.events, t.logged, life.answers), life.kept)
  }

  lemma LeftParts(life: Life, m: Contents, t: Trace)
    requires Left(life, m, t)
    ensures PartsOf(life.events[..|t.logged|], t.logged, t.pieces)
  {
    hide Ran, Ending, PartsOf, Written, CutAt;
    WrittenParts(life.events, t.logged, life.answers);
    CutParts(life.events[..|t.logged|], t.logged, Written(life.events, t.logged, life.answers), life.kept);
  }

  /** What is logged of faithful events are entries that mean them. */
  lemma {:induction false} RunFronts(m: Contents, events: seq<Event>, logged: seq<Option<string>>, pieces: seq<Piece>)
    requires Ran(m, events, logged) && PartsOf(events, logged, pieces)
    requires forall i :: 0 <= i < |events| ==> Faithful(events[i])
    ensures AllFronts(pieces) && forall i :: 0 <= i < |pieces| ==> NoTtl(Meaning(pieces[i].event))
    decreases |events|
  {
    hide Logs, Faithful, FrontOfEntry, NoTtl, LogText, Happened;
    if events != [] {
      PieceFront(m, events[0], logged[0], pieces[0]);
      RunFronts(Happened(m, events[0]), events[1..], logged[1..], pieces[1..]);
      forall i | 0 <= i < |pieces| ensures FrontOfEntry(pieces[i]) && NoTtl(Meaning(pieces[i].event)) {
        if i > 0 { assert pieces[i] == pieces[1..][i - 1]; }
      }
    }
  }

  lemma PieceFront(m: Contents, e: Event, line: Option<string>, p: Piece)
    requires Faithful(e) && Logs(m, e, line) && p.event == e && p.part <= LogText([line])
    ensures FrontOfEntry(p) && NoTtl(Meaning(e))
  {
    hide Logs, Faithful, NoTtl, Entry, Understood;
    FaithfulNoTtl(e);
    EntrySays(m, e, line);
    OneEntry(line);
    if line.Some? {
      var op, body :| line.value == op + " " + body && Entry(op, body) && Understood(op, body) == Meaning(e);
      assert IsEntryOf(op, body, e);
    }
  }

  /** What a crash keeps of the pieces. */
  lemma CutParts(events: seq<Event>, logged: seq<Option<string>>, pieces: seq<Piece>, n: nat)
    requires PartsOf(events, logged, pieces)
    ensures PartsOf(events, logged, CutAt(pieces, n)) && |FileOf(CutAt(pieces, n))| <= n
    ensures FileOf(CutAt(pieces, n)) <= FileOf(pieces)
  {
    hide LogText, FileOf;
    CutPieces(pieces, n);
    forall i | 0 <= i < |pieces|
      ensures CutAt(pieces, n)[i].event == events[i] && CutAt(pieces, n)[i].part <= LogText([logged[i]])
    {
      assert pieces[i].event == events[i] && pieces[i].part <= LogText([logged[i]]);
    }
  }

  /** What a life can make of a file. */
  ghost predicate GrownBy(life: Life, file: string, grown: string) {
    exists t :: Left(life, Replay(map[], Lines(file)), t) && grown == file + FileOf(t.pieces)
  }

  /** One life on whatever file it finds, ended by a crash. */
  method Live(file: string, life: Life) returns (grown: string, ghost t: Trace)
    requires Proper(life) && AllNoTtl(file)
    ensures Left(life, Replay(map[], Lines(file)), t) && grown == file + FileOf(t.pieces)
    ensures GrownBy(life, file, grown)
  {
    hide Logs, Ran, AllHappened, LogText, NoTtl, Timeless, Values, KV.Live, Union, Faithful, Lines, Replay;
    hide AllNoTtl, Clock, FileOf, Written, ServedAsAnswered;
    forall i | 0 <= i < |life.events| ensures NoTtl(Meaning(life.events[i])) { FaithfulNoTtl(life.events[i]); }
    var d := StartOn(file, life.start);
    d.writer := new AofWriter(file);
    var served;
    ghost var logged;
    served, logged := ServeAll(d, life.start, life.events, life.times, life.answers);
    var written := |d.writer.file| - |file|;
    grown := d.writer.file[..|file| + if life.kept <= written then life.kept else written];
    ghost var pieces := Written(life.events, logged, life.answers);
    CutPieces(pieces, life.kept);
    t := Trace(logged, CutAt(pieces, life.kept));
  }

  /** All that several lives have left in the file. */
  function History(traces: seq<Trace>): seq<Piece> {
    if traces == [] then [] else History(traces[..|traces| - 1]) + traces[|traces| - 1].pieces
  }

  /** The contents a server finds that starts after these lives. */
  function FoundAfter(traces: seq<Trace>): Contents { AllHappened(map[], Survivors(History(traces))) }

  ghost predicate LeftAfter(life: Life, traces: seq<Trace>, i: nat) {
    i < |traces| && Left(life, FoundAfter(traces[..i]), traces[i])
  }

  /** The whole story: lives one after the other, each from what the file holds of those before, each
      with writes that may fail anywhere, ended by a crash that keeps some front part of what it
      wrote; nobody ever repairs the file. The server that starts then has exactly what the
      surviving events of all lives make. */
  method CrashAndRestart(lives: seq<Life>, now: nat) returns (d: Dispatcher, ghost traces: seq<Trace>)
    requires forall i :: 0 <= i < |lives| ==> Proper(lives[i])
    ensures |traces| == |lives| && forall i :: 0 <= i < |lives| ==> LeftAfter(lives[i], traces, i)
    ensures d.store.Valid() && Values(d.View(now)) == FoundAfter(traces)
  {
    hide Proper, Left, AllHappened, Timeless, Values, KV.Live, Union, Lines, Replay, AllNoTtl, History, FileOf;
    hide AllFronts;
    hide NoTtl, Survivors;
    var file, lived := "", 0;
    traces := [];
    NoHistory();
    while lived < |lives|
      invariant lived == |traces| <= |lives| && forall i :: 0 <= i < lived ==> LeftAfter(lives[i], traces, i)
      invariant AllFronts(History(traces)) && file == FileOf(History(traces))
      invariant forall i :: 0 <= i < |History(traces)| ==> NoTtl(Meaning(History(traces)[i].event))
    {
      NoDeadlinesIn(History(traces));
      NoDeadlinesFile(file);
      FileRecovers(History(traces), map[]);
      ghost var t;
      file, t := Live(file, lives[lived]);
      OneMoreLife(lives, traces, t);
      lived, traces := lived + 1, traces + [t];
    }
    NoDeadlinesIn(History(traces));
    NoDeadlinesFile(file);
    FileRecovers(History(traces), map[]);
    d := StartOn(file, now);
  }

  lemma NoHistory()
    ensures History([]) == [] && FileOf([]) == "" && AllFronts([])
  {
  }

  lemma OneMoreLife(lives: seq<Life>, traces: seq<Trace>, t: Trace)
    requires |traces| < |lives| && Proper(lives[|traces|]) && Left(lives[|traces|], FoundAfter(traces), t)
    requires forall i :: 0 <= i < |traces| ==> LeftAfter(lives[i], traces, i)
    requires AllFronts(History(traces))
    requires forall i :: 0 <= i < |History(traces)| ==> NoTtl(Meaning(History(traces)[i].event))
    ensures var all := traces + [t];
            && (forall i :: 0 <= i < |all| ==> LeftAfter(lives[i], all, i))
            && AllFronts(History(all)) && FileOf(History(all)) == FileOf(History(traces)) + FileOf(t.pieces)
            && forall i :: 0 <= i < |History(all)| ==> NoTtl(Meaning(History(all)[i].event))
  {
    hide FoundAfter, Left, Ran, LogText, FileOf, NoTtl, FrontOfEntry, Clock, PartsOf, Faithful;
    var all, life := traces + [t], lives[|traces|];
    assert all[..|traces|] == traces;
    forall i | 0 <= i < |all| ensures LeftAfter(lives[i], all, i) {
      assert all[..i] == traces[..i];
      if i < |traces| { assert LeftAfter(lives[i], traces, i); }
    }
    LeftFronts(life, FoundAfter(traces), t);
    FileJoin(History(traces), t.pieces);
  }

  lemma LeftFronts(life: Life, m: Contents, t: Trace)
    requires Proper(life) && Left(life, m, t)
    ensures AllFronts(t.pieces) && forall i :: 0 <= i < |t.pieces| ==> NoTtl(Meaning(t.pieces[i].event))
  {
    hide Ran, FrontOfEntry, NoTtl, Clock, PartsOf, Faithful, Ending, Written, CutAt;
    LeftParts(life, m, t);
    RunFronts(m, life.events[..|t.logged|], t.logged, t.pieces);
  }

  // ----- lives without failed writes -----

  /** Every write of the life got through, but perhaps the one in which it was killed. */
  predicate GotThrough(life: Life, t: Trace) {
    forall i :: 0 <= i < |t.logged| - 1 && i < |life.answers| ==> WroteAll(t.logged[i], life.answers[i])
  }

  predicate WroteAll(line: Option<string>, answers: seq<Answer>) { FrontWritten(line, answers) == LogText([line]) }

  /** Then what it has written is the log as far as it goes. */
  lemma {:induction false} WrittenLog(events: seq<Event>, logged: seq<Option<string>>, answers: seq<seq<Answer>>)
    requires |logged| <= |events| == |answers|
    requires forall i :: 0 <= i < |logged| - 1 ==> WroteAll(logged[i], answers[i])
    ensures FileOf(Written(events, logged, answers)) <= LogText(logged)
    ensures logged != [] && WroteAll(logged[|logged| - 1], answers[|logged| - 1]) ==>
              FileOf(Written(events, logged, answers)) == LogText(logged)
    ensures logged == [] ==> FileOf(Written(events, logged, answers)) == LogText(logged)
    decreases |logged|
  {
    hide FrontWritten, Written, LogText, FileOf;
    if logged == [] {
      NothingServed(events, answers, "");
      NothingRan(map[]);
      assert "" + FileOf(Written(events, [], answers)) == FileOf(Written(events, [], answers));
    } else {
      var n := |logged| - 1;
      var front, line := logged[..n], logged[n];
      assert front + [line] == logged;
      WrittenLog(events, front, answers);
      if n > 0 { assert WroteAll(front[n - 1], answers[n - 1]); }
      LoggedMore(front, line);
      WrittenMore(events, front, answers, line);
      FrontIsFront(line, answers[n]);
    }
  }

  lemma WrittenMore(events: seq<Event>, logged: seq<Option<string>>, answers: seq<seq<Answer>>, line: Option<string>)
    requires |logged| < |events| == |answers|
    ensures FileOf(Written(events, logged + [line], answers))
            == FileOf(Written(events, logged, answers)) + FrontWritten(line, answers[|logged|])
  {
    hide FrontWritten, Written, FileOf;
    OneMoreWritten(events, logged, answers, line, "");
    assert "" + FileOf(Written(events, logged + [line], answers)) == FileOf(Written(events, logged + [line], answers));
    assert "" + FileOf(Written(events, logged, answers)) == FileOf(Written(events, logged, answers));
  }

  lemma FrontIsFront(line: Option<string>, answers: seq<Answer>)
    ensures FrontWritten(line, answers) <= LogText([line])
  {
  }

  lemma LeftLog(life: Life, m: Contents, t: Trace)
    requires Proper(life) && Left(life, m, t) && GotThrough(life, t)
    ensures FileOf(t.pieces) <= LogText(t.logged) && |FileOf(t.pieces)| <= life.kept
  {
    hide Ran, Ending, Written, CutAt, FileOf, LogText, WroteAll, Faithful, Clock, PartsOf;
    WrittenLog(life.events, t.logged, life.answers);
    WrittenParts(life.events, t.logged, life.answers);
    CutParts(life.events[..|t.logged|], t.logged, Written(life.events, t.logged, life.answers), life.kept);
  }

  /** A life that began on a clean file and whose writes got through: found is what some of its first
      events make, and none is missing whose entry is wholly in the file. */
  lemma UndisturbedLife(before: seq<Piece>, life: Life, t: Trace)
    requires Proper(life) && AllFronts(before) && Clean(FileOf(before)) && GotThrough(life, t)
    requires Left(life, AllHappened(map[], Survivors(before)), t)
    ensures var m := AllHappened(map[], Survivors(before));
            exists n: nat :: n <= |t.logged|
              && AllHappened(map[], Survivors(before + t.pieces)) == AllHappened(m, life.events[..n])
              && forall k :: 0 <= k <= |t.logged| && |LogText(t.logged[..k])| <= |FileOf(t.pieces)| ==> k <= n
  {
    hide AllHappened, Survivors, Ran, LogText, FileOf, FrontOfEntry, Replay, Lines, Clock, Faithful, Clean, PartsOf;
    hide Written, CutAt, Ending, GotThrough;
    var events, part := life.events[..|t.logged|], FileOf(t.pieces);
    FileRecovers(before, map[]);
    var m := Replay(map[], Lines(FileOf(before)));
    LeftFronts(life, m, t);
    LeftLog(life, m, t);
    FileRecovers(before + t.pieces, map[]);
    FileJoin(before, t.pieces);
    SecondCrash(map[], FileOf(before), events, t.logged, part);
    var n: nat :| Recovered(m, events, t.logged, part, n)
                  && Replay(map[], Lines(FileOf(before) + part)) == AllHappened(m, events[..n]);
    assert events[..n] == life.events[..n];
  }

  /** Every write of the life got through, and all of it was kept. */
  predicate NothingFailed(life: Life, t: Trace) {
    && |t.logged| <= |life.answers| && (forall i :: 0 <= i < |t.logged| ==> WroteAll(t.logged[i], life.answers[i]))
    && |LogText(t.logged)| <= life.kept
  }

  lemma WroteAllIsNotKilled(line: Option<string>, answers: seq<Answer>)
    requires WroteAll(line, answers)
    ensures !Ending(line, answers).Killed?
  {
    hide Writing, LogText;
  }

  lemma NothingFailedLeft(life: Life, m: Contents, t: Trace)
    requires Proper(life) && Left(life, m, t) && NothingFailed(life, t)
    ensures GotThrough(life, t) && |t.logged| == |life.events| && FileOf(t.pieces) == LogText(t.logged)
  {
    hide Ran, Ending, Written, CutAt, FileOf, LogText, WroteAll, Faithful, Clock;
    WrittenLog(life.events, t.logged, life.answers);
    CutPieces(Written(life.events, t.logged, life.answers), life.kept);
    if |t.logged| < |life.events| { WroteAllIsNotKilled(t.logged[|t.logged| - 1], life.answers[|t.logged| - 1]); }
  }

  lemma {:induction false} LogClean(logged: seq<Option<string>>)
    ensures Clean(LogText(logged))
  {
    if logged != [] { LogClean(logged[1..]); }
  }

  /** A life on a clean file in which nothing failed leaves a clean file and all its events. */
  lemma WholeLife(before: seq<Piece>, life: Life, t: Trace)
    requires Proper(life) && AllFronts(before) && Clean(FileOf(before)) && NothingFailed(life, t)
    requires Left(life, AllHappened(map[], Survivors(before)), t)
    ensures Clean(FileOf(before + t.pieces))
    ensures AllHappened(map[], Survivors(before + t.pieces))
            == AllHappened(AllHappened(map[], Survivors(before)), life.events)
  {
    hide AllHappened, Survivors, LogText, FileOf, Left, NothingFailed, GotThrough, Proper, AllFronts, Clean;
    var m := AllHappened(map[], Survivors(before));
    NothingFailedLeft(life, m, t);
    UndisturbedLife(before, life, t);
    var n: nat :| n <= |t.logged|
                  && AllHappened(map[], Survivors(before + t.pieces)) == AllHappened(m, life.events[..n])
                  && forall k :: 0 <= k <= |t.logged| && |LogText(t.logged[..k])| <= |FileOf(t.pieces)| ==> k <= n;
    assert t.logged[..|t.logged|] == t.logged && life.events[..|life.events|] == life.events;
    FileJoin(before, t.pieces);
    LogClean(t.logged);
    CleanBoth(FileOf(before), FileOf(t.pieces));
  }

  function AllEvents(lives: seq<Life>): seq<Event> {
    if lives == [] then [] else AllEvents(lives[..|lives| - 1]) + lives[|lives| - 1].events
  }

  /** Lives in which nothing failed: the server that starts after them has what all their events make. */
  lemma {:induction false} NothingLost(lives: seq<Life>, traces: seq<Trace>)
    requires |lives| == |traces| && forall i :: 0 <= i < |lives| ==> Proper(lives[i]) && LeftAfter(lives[i], traces, i)
    requires forall i :: 0 <= i < |lives| ==> NothingFailed(lives[i], traces[i])
    ensures AllFronts(History(traces)) && Clean(FileOf(History(traces)))
    ensures FoundAfter(traces) == AllHappened(map[], AllEvents(lives))
  {
    hide Proper, Left, NothingFailed, FrontOfEntry, Clean, FileOf, AllHappened, Survivors;
    if lives == [] {
      NothingYet();
    } else {
      var n := |lives| - 1;
      var lives', traces' := lives[..n], traces[..n];
      forall i | 0 <= i < n ensures LeftAfter(lives'[i], traces', i) {
        assert LeftAfter(lives[i], traces, i) && traces'[..i] == traces[..i];
      }
      NothingLost(lives', traces');
      assert LeftAfter(lives[n], traces, n);
      WholeLife(History(traces'), lives[n], traces[n]);
      LeftFronts(lives[n], FoundAfter(traces'), traces[n]);
      InTwo(map[], AllEvents(lives'), lives[n].events);
    }
  }

  lemma NothingYet()
    ensures AllFronts([]) && Clean(FileOf([])) && AllHappened(map[], Survivors([])) == AllHappened(map[], [])
  {
  }
}
