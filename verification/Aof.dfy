/** The append-only file: what a run of requests leaves in it and what a load makes of any part of it. */
module Aof {
  import opened Options
  import opened Decimal
  import opened Json
  import opened Bodies
  import opened BodyText
  import opened LineBreaks
  import KV = KeyValue

  /** The store as its clients see it while nothing expires. */
  type Contents = map<string, string>

  // ----- requests -----

  function Upper(c: char): char { if 'a' <= c <= 'z' then c - 'a' + 'A' else c }

  function Normalized(op: string): string { seq(|op|, i requires 0 <= i < |op| => Upper(op[i])) }

  /** The command a JSON request stands for, unless its handler refuses it. */
  function Understood(op: string, body: string): Option<Command> {
    var name := Normalized(op);
    if name == "SET" then
      var fields := Whole(body, ObjectAt(body), true);
      if fields.None? then None else SetOf(fields.value)
    else if name == "GET" then
      var fields := Whole(body, ObjectAt(body), true);
      if fields.None? then None else GetOf(fields.value)
    else if name == "DEL" then
      var keys := Whole(body, KeyListAt(body), false);
      if keys.None? then None else Some(Del(keys.value))
    else None
  }

  function KeySet(keys: seq<string>): set<string> { set k | k in keys }

  predicate Stores(m: Contents, key: string, condition: KV.Condition) {
    !(condition.IfAbsent? && key in m) && !(condition.IfPresent? && key !in m)
  }

  function Step(m: Contents, c: Command): Contents {
    match c
    case Set(key, value, condition, _) => if Stores(m, key, condition) then m[key := value] else m
    case Get(_) => m
    case Del(keys) => m - KeySet(keys)
  }

  function Maybe(m: Contents, c: Option<Command>): Contents {
    if c.None? then m else Step(m, c.value)
  }

  /** A request on the text connection, or one of the two on a binary one. */
  datatype Event =
    | Json(op: string, body: string)
    | BinarySet(key: string, value: string, condition: KV.Condition, ttl: nat)
    | BinaryDel(key: string)

  function Meaning(e: Event): Option<Command> {
    match e
    case Json(op, body) => Understood(op, body)
    case BinarySet(key, value, condition, ttl) => Some(Set(key, value, condition, ttl))
    case BinaryDel(key) => Some(Del([key]))
  }

  function Happened(m: Contents, e: Event): Contents { Maybe(m, Meaning(e)) }

  function AllHappened(m: Contents, events: seq<Event>): Contents
    decreases |events|
  {
    if events == [] then m else AllHappened(Happened(m, events[0]), events[1..])
  }

  // ----- the log -----

  predicate IsWriteOp(op: string) { op == "SET" || op == "DEL" }

  /** What an event appends: the operation name is compared as it was spelled. A binary DEL logs when
      it erased a raw entry, which may have been an expired one. */
  ghost predicate Logs(m: Contents, e: Event, line: Option<string>) {
    match e
    case Json(op, body) => line == if Meaning(e).Some? && IsWriteOp(op) then Some(op + " " + body) else None
    case BinarySet(key, value, condition, ttl) =>
      line == if Stores(m, key, condition) then Some("SET" + " " + SetBody(key, value, condition, ttl)) else None
    case BinaryDel(key) => line == Some("DEL" + " " + DelBody(key)) || (line == None && key !in m)
  }

  ghost predicate Ran(m: Contents, events: seq<Event>, logged: seq<Option<string>>)
    decreases |events|
  {
    && |events| == |logged|
    && (events != [] ==> Logs(m, events[0], logged[0]) && Ran(Happened(m, events[0]), events[1..], logged[1..]))
  }

  function LogText(logged: seq<Option<string>>): string {
    if logged == [] then ""
    else (if logged[0].Some? then logged[0].value + "\n" else "") + LogText(logged[1..])
  }

  // ----- loading -----

  function IndexOf(s: string, c: char, from: nat): (i: nat)
    requires from <= |s|
    ensures from <= i <= |s| && c !in s[from..i] && (i < |s| ==> s[i] == c)
    decreases |s| - from
  {
    if from == |s| || s[from] == c then from
    else
      var i := IndexOf(s, c, from + 1);
      assert s[from..i] == [s[from]] + s[from + 1..i];
      i
  }

  /** What `std::getline` yields one after the other. */
  function Lines(text: string): seq<string>
    decreases |text|
  {
    if text == "" then []
    else
      var n := IndexOf(text, '\n', 0);
      if n == |text| then [text] else [text[..n]] + Lines(text[n + 1..])
  }

  function LineCommand(line: string): Option<Command> {
    if line == "" || line[0] == '#' then None
    else
      var space := IndexOf(line, ' ', 0);
      if space == |line| then None else Understood(line[..space], line[space + 1..])
  }

  function Replay(m: Contents, lines: seq<string>): Contents
    decreases |lines|
  {
    if lines == [] then m else Replay(Maybe(m, LineCommand(lines[0])), lines[1..])
  }

  // ----- framing -----

  predicate OneLine(s: string) { '\n' !in s }

  function Framed(lines: seq<string>): string {
    if lines == [] then "" else lines[0] + "\n" + Framed(lines[1..])
  }

  lemma FirstLine(line: string, rest: string)
    requires OneLine(line)
    ensures Lines(line + "\n" + rest) == [line] + Lines(rest)
    ensures line != "" ==> Lines(line) == [line]
  {
    var text := line + "\n" + rest;
    IndexIs(text, '\n', 0, |line|);
    assert text[..|line|] == line && text[|line| + 1..] == rest;
    if line != "" { IndexNone(line, '\n', 0); }
  }

  lemma {:induction false} IndexIs(s: string, c: char, from: nat, i: nat)
    requires from <= i < |s| && s[i] == c && forall j :: from <= j < i ==> s[j] != c
    ensures IndexOf(s, c, from) == i
    decreases i - from
  {
    if from < i { IndexIs(s, c, from + 1, i); }
  }

  lemma {:induction false} IndexNone(s: string, c: char, from: nat)
    requires from <= |s| && forall j :: from <= j < |s| ==> s[j] != c
    ensures IndexOf(s, c, from) == |s|
    decreases |s| - from
  {
    if from < |s| { IndexNone(s, c, from + 1); }
  }

  lemma {:induction false} LinesHoldNoBreak(text: string)
    ensures forall i :: 0 <= i < |Lines(text)| ==> OneLine(Lines(text)[i])
    decreases |text|
  {
    if text != "" {
      var n := IndexOf(text, '\n', 0);
      assert text[0..n] == text[..n];
      if n == |text| {
        assert text[..n] == text;
      } else {
        LinesHoldNoBreak(text[n + 1..]);
      }
    }
  }

  /** The lines of a log come back as they were written exactly when none contains a line break. */
  lemma {:induction false} LinesComeBackIff(lines: seq<string>)
    ensures Lines(Framed(lines)) == lines <==> forall i :: 0 <= i < |lines| ==> OneLine(lines[i])
  {
    LinesHoldNoBreak(Framed(lines));
    if forall i :: 0 <= i < |lines| ==> OneLine(lines[i]) {
      if lines != [] {
        LinesComeBackIff(lines[1..]);
        FirstLine(lines[0], Framed(lines[1..]));
        assert [lines[0]] + lines[1..] == lines;
      }
    }
  }

  // ----- one line -----

  lemma Names()
    ensures Normalized("SET") == "SET" && Normalized("DEL") == "DEL"
  {
    var s, d := Normalized("SET"), Normalized("DEL");
    assert s[0] == 'S' && s[1] == 'E' && s[2] == 'T' && d[0] == 'D' && d[1] == 'E' && d[2] == 'L';
  }

  lemma LineReads(op: string, body: string)
    requires IsWriteOp(op)
    ensures LineCommand(op + " " + body) == Understood(op, body)
  {
    hide Understood;
    var line := op + " " + body;
    assert line[0] == op[0] && line[1] == op[1] && line[2] == op[2];
    IndexIs(line, ' ', 0, 3);
    assert line[..3] == op && line[4..] == body;
  }

  /** A line cut short does nothing, or what the whole line does. */
  lemma TornLine(op: string, body: string, torn: string)
    requires IsWriteOp(op) && Understood(op, body).Some? && torn <= op + " " + body
    ensures LineCommand(torn) == None || LineCommand(torn) == LineCommand(op + " " + body)
  {
    hide Understood;
    LineReads(op, body);
    var line := op + " " + body;
    if |torn| <= 3 {
      assert forall j :: 0 <= j < |torn| ==> torn[j] == line[j] == op[j];
      IndexNone(torn, ' ', 0);
    } else {
      var p, x := torn[4..], body[|torn| - 4..];
      assert torn == line[..|torn|];
      assert torn == op + " " + p && body == p + x;
      LineReads(op, p);
      CutRequest(op, p, x);
    }
  }

  lemma CutRequest(op: string, p: string, x: string)
    requires IsWriteOp(op) && Understood(op, p + x).Some?
    ensures Understood(op, p) == None || Understood(op, p) == Understood(op, p + x)
  {
    hide SetOf, ObjectAt, KeyListAt, Whole;
    Names();
    CutBody(p, x);
  }

  lemma WritesWrite(op: string, body: string)
    requires IsWriteOp(op)
    ensures Understood(op, body).Some? ==> !Understood(op, body).value.Get?
  {
    hide ObjectAt, KeyListAt, Whole;
    Names();
  }

  lemma BinaryLines(key: string, value: string, condition: KV.Condition, ttl: nat)
    requires ttl < U64
    ensures Understood("SET", SetBody(key, value, condition, ttl))
            == if key == "" then None else Some(Set(key, value, condition, ttl))
    ensures Understood("DEL", DelBody(key)) == Some(Del([key]))
    ensures OneLine(SetBody(key, value, condition, ttl)) && OneLine(DelBody(key))
  {
    hide SetOf, ObjectAt, KeyListAt, Whole, SetBody, DelBody;
    Names();
    SetBodyMeans(key, value, condition, ttl);
    DelBodyMeans(key);
    BodiesPrintable(key, value, condition, ttl);
  }

  // ----- a body of several lines -----

  /** The text of a body before its first line break. */
  function Head(body: string): string { body[..IndexOf(body, '\n', 0)] }

  function Tail(body: string): string
    requires !OneLine(body)
  {
    HasBreak(body);
    body[IndexOf(body, '\n', 0) + 1..]
  }

  lemma HasBreak(body: string)
    ensures OneLine(body) <==> IndexOf(body, '\n', 0) == |body|
    ensures OneLine(body) ==> Head(body) == body
    ensures OneLine(Head(body))
  {
    var n := IndexOf(body, '\n', 0);
    assert body[0..n] == body[..n];
    if n == |body| { assert body[..n] == body; } else { assert body[n] in body; }
  }

  lemma Splits(body: string)
    requires !OneLine(body)
    ensures body == Head(body) + "\n" + Tail(body) && OneLine(Head(body))
  {
    HasBreak(body);
    assert body == body[..|Head(body)|] + [body[|Head(body)|]] + body[|Head(body)| + 1..];
  }

  /** A command that changes no store. */
  predicate Idle(c: Option<Command>) { c.None? || c.value.Get? || c.value == Del([]) }

  lemma IdleStays(m: Contents, c: Option<Command>)
    requires Idle(c)
    ensures Maybe(m, c) == m
  {
  }

  lemma QuietLine(line: string)
    requires line == "" || !Starter(line[0])
    ensures Idle(LineCommand(line))
  {
    hide ObjectAt, KeyListAt, Whole, SetOf;
    if line != "" {
      var op := line[..IndexOf(line, ' ', 0)];
      if op != "" { assert Normalized(op)[0] == Upper(line[0]); }
    }
  }

  /** A line that starts inside a string of an accepted body. */
  lemma TextLine(b: string, j: nat, k: nat)
    requires j <= k <= |b| && InText(b, j)
    ensures Idle(LineCommand(b[j..k]))
  {
    hide ObjectAt, KeyListAt, Whole, SetOf, CharsFrom;
    var line := b[j..k];
    var space := IndexOf(line, ' ', 0);
    if line != "" && line[0] != '#' && space < |line| {
      var name := Normalized(line[..space]);
      if name == "SET" || name == "DEL" {
        assert space == |name| == 3;
        forall i | j <= i < j + 4 ensures PlainChar(b[i]) {
          assert b[i] == line[i - j];
          if i < j + 3 { assert name[i - j] == Upper(line[i - j]); }
        }
        PlainRun(b, j, j + 4);
        assert line[4..] == b[j + 4..k];
        DelInText(b, j + 4, k);
        SetInText(b, j + 4, k);
      }
    }
  }

  lemma StartedLine(b: string, j: nat, k: nat)
    requires j <= k <= |b| && Harmless(b, j)
    ensures Idle(LineCommand(b[j..k]))
  {
    hide LineCommand, InText;
    if j < k && Starter(b[j]) { TextLine(b, j, k); } else { QuietLine(b[j..k]); }
  }

  /** All lines of an accepted body but the first do nothing. */
  lemma {:induction false} LaterLines(m: Contents, b: string, j: nat)
    requires Calm(b, 0, |b|) && 0 < j <= |b| && b[j - 1] == '\n'
    ensures Replay(m, Lines(b[j..] + "\n")) == m
    decreases |b| - j
  {
    hide LineCommand, Harmless, Replay, Lines;
    var k := IndexOf(b, '\n', j);
    var line := b[j..k];
    StartedLine(b, j, k);
    IdleStays(m, LineCommand(line));
    if k < |b| {
      var rest := b[k + 1..] + "\n";
      assert b[j..] + "\n" == line + "\n" + rest;
      ReplayLine(m, line, rest);
      LaterLines(m, b, k + 1);
    } else {
      assert b[j..] == line;
      ReplayLine(m, line, "");
    }
  }

  lemma AcceptedCalm(op: string, body: string)
    requires IsWriteOp(op) && Understood(op, body).Some?
    ensures Calm(body, 0, |body|)
  {
    hide ObjectAt, KeyListAt, SetOf, Calm;
    Names();
    if op == "SET" { CalmObject(body); } else { CalmKeyList(body); }
  }

  lemma ReplayLine(m: Contents, line: string, rest: string)
    requires OneLine(line)
    ensures Replay(m, Lines(line + "\n" + rest)) == Replay(Maybe(m, LineCommand(line)), Lines(rest))
    ensures Replay(m, Lines(line + "\n")) == Maybe(m, LineCommand(line))
    ensures Replay(m, Lines(line)) == Maybe(m, LineCommand(line))
  {
    hide LineCommand, OneLine;
    FirstLine(line, rest);
    FirstLine(line, "");
    assert line + "\n" + "" == line + "\n";
    assert ([line] + Lines(rest))[1..] == Lines(rest) && ([line] + [])[1..] == [] && [line][1..] == [];
    assert Replay(Maybe(m, LineCommand(line)), []) == Maybe(m, LineCommand(line));
    if line == "" { NoCommand(); }
  }

  lemma NoCommand()
    ensures LineCommand("") == None && Lines("") == []
  {
  }

  /** Loading what one accepted write has logged. */
  lemma LoadedWrite(m: Contents, op: string, body: string)
    requires IsWriteOp(op) && Understood(op, body).Some?
    ensures Replay(m, Lines(op + " " + body + "\n")) ==
            if Understood(op, Head(body)).Some? then Maybe(m, Understood(op, body)) else m
  {
    hide Understood, LineCommand, Calm, Lines, Replay, IsWriteOp;
    HasBreak(body);
    var first := op + " " + Head(body);
    LineReads(op, Head(body));
    NamesOneLine(op, Head(body));
    if OneLine(body) {
      ReplayLine(m, first, "");
    } else {
      Splits(body);
      var rest, n := Tail(body) + "\n", |Head(body)|;
      assert op + " " + body + "\n" == first + "\n" + rest;
      ReplayLine(m, first, rest);
      AcceptedCalm(op, body);
      LaterLines(Maybe(m, LineCommand(first)), body, n + 1);
      assert Head(body) + ("\n" + Tail(body)) == body;
      CutRequest(op, Head(body), "\n" + Tail(body));
    }
  }

  lemma NamesOneLine(op: string, body: string)
    requires IsWriteOp(op) && OneLine(body)
    ensures OneLine(op + " " + body)
  {
  }

  // ----- what is restored of one event -----

  /** The command leaves the store different. */
  predicate Changes(m: Contents, c: Option<Command>) {
    c.Some? && match c.value
      case Set(key, value, condition, _) => Stores(m, key, condition) && !(key in m && m[key] == value)
      case Get(_) => false
      case Del(keys) => exists k :: k in keys && k in m
  }

  lemma ChangesIff(m: Contents, c: Option<Command>)
    ensures Changes(m, c) <==> Maybe(m, c) != m
  {
    if c.Some? && c.value.Del? {
      if k :| k in c.value.keys && k in m { assert k !in m - KeySet(c.value.keys); }
    }
  }

  /** A JSON write is restored from what it logged exactly when it changed nothing, or its operation
      was spelled in upper case and the text of its body before the first line break is itself a
      body that is accepted. */
  lemma JsonRestoredIff(m: Contents, op: string, body: string, line: Option<string>)
    requires Logs(m, Json(op, body), line)
    ensures Replay(m, Lines(LogText([line]))) == Happened(m, Json(op, body))
            <==> (Changes(m, Understood(op, body)) ==> IsWriteOp(op) && Understood(op, Head(body)).Some?)
  {
    hide Understood, LineCommand, Changes, Lines, Replay;
    ChangesIff(m, Understood(op, body));
    OneEntry(line);
    if line.Some? { LoadedWrite(m, op, body); } else { LoadedNothing(m); }
  }

  lemma OneEntry(line: Option<string>)
    ensures LogText([line]) == if line.Some? then line.value + "\n" else ""
  {
    assert [line][1..] == [];
  }

  lemma LoadedNothing(m: Contents)
    ensures Replay(m, Lines("")) == m
  {
  }

  /** A binary SET is restored from what it logged exactly when it changed nothing or its key is not
      empty. */
  lemma BinarySetRestoredIff(m: Contents, key: string, value: string, condition: KV.Condition, ttl: nat,
                             line: Option<string>)
    requires ttl < U64 && Logs(m, BinarySet(key, value, condition, ttl), line)
    ensures Replay(m, Lines(LogText([line]))) == Happened(m, BinarySet(key, value, condition, ttl))
            <==> (Changes(m, Some(Set(key, value, condition, ttl))) ==> key != "")
  {
    hide Understood, LineCommand, SetBody, Lines, Replay, Changes;
    ChangesIff(m, Some(Set(key, value, condition, ttl)));
    OneEntry(line);
    if line.Some? {
      var body := SetBody(key, value, condition, ttl);
      BinaryLines(key, value, condition, ttl);
      LineReads("SET", body);
      NamesOneLine("SET", body);
      ReplayLine(m, line.value, "");
    } else {
      LoadedNothing(m);
    }
  }

  /** A binary DEL always is. */
  lemma BinaryDelRestored(m: Contents, key: string, line: Option<string>)
    requires Logs(m, BinaryDel(key), line)
    ensures Replay(m, Lines(LogText([line]))) == Happened(m, BinaryDel(key))
  {
    hide Understood, LineCommand, DelBody, Lines, Replay;
    OneEntry(line);
    if line.Some? {
      BinaryLines(key, "", KV.Always, 0);
      LineReads("DEL", DelBody(key));
      NamesOneLine("DEL", DelBody(key));
      ReplayLine(m, line.value, "");
    } else {
      LoadedNothing(m);
    }
  }

  // ----- the events whose log entry says what they did -----

  predicate NoTtl(c: Option<Command>) { c.Some? && c.value.Set? ==> c.value.ttl == 0 }

  /** A JSON write is spelled in upper case and its body accepted up to its first line break already,
      nothing sets a time-to-live, and a binary SET has a key. */
  predicate Faithful(e: Event) {
    && NoTtl(Meaning(e))
    && match e
       case Json(op, body) =>
         Meaning(e).Some? && !Meaning(e).value.Get? ==> IsWriteOp(op) && Understood(op, Head(body)).Some?
       case BinarySet(key, _, _, _) => key != ""
       case BinaryDel(_) => true
  }

  /** An entry of the log: a write whose first line alone is accepted. */
  predicate Entry(op: string, body: string) {
    IsWriteOp(op) && Understood(op, body).Some? && Understood(op, Head(body)).Some?
  }

  /** What a faithful event logs is such an entry and means the event; one that logs nothing did
      nothing. */
  lemma EntrySays(m: Contents, e: Event, line: Option<string>)
    requires Faithful(e) && Logs(m, e, line)
    ensures line.None? ==> Happened(m, e) == m
    ensures line.Some? ==>
              exists op, body :: line.value == op + " " + body && Entry(op, body) && Understood(op, body) == Meaning(e)
  {
    hide Understood, SetBody, DelBody;
    match e {
      case Json(op, body) => if IsWriteOp(op) { WritesWrite(op, body); }
      case BinarySet(key, value, condition, ttl) =>
        BinaryLines(key, value, condition, ttl);
        HasBreak(SetBody(key, value, condition, ttl));
      case BinaryDel(key) =>
        BinaryLines(key, "", KV.Always, 0);
        HasBreak(DelBody(key));
    }
  }

  predicate AllBlank(s: string) { forall i :: 0 <= i < |s| ==> IsSpace(s[i]) }

  lemma {:induction false} SkippedAll(s: string, at: nat, strict: bool)
    requires at <= |s| && SkipFrom(s, at, strict) == |s|
    ensures AllBlank(s[at..])
    decreases |s| - at
  {
    if at < |s| {
      SkippedAll(s, at + 1, strict);
      assert s[at..] == [s[at]] + s[at + 1..];
    }
  }

  /** Behind an accepted first line only blanks can follow. */
  lemma TailBlank(op: string, body: string)
    requires Entry(op, body) && !OneLine(body)
    ensures AllBlank(Tail(body))
  {
    hide ObjectAt, KeyListAt, SetOf, AllBlank;
    Names();
    Splits(body);
    var head, rest := Head(body), "\n" + Tail(body);
    assert body == head + rest;
    var end := if op == "SET" then ObjectAt(head).next else KeyListAt(head).next;
    if op == "SET" { ObjectStays(head, rest); } else { KeyListStays(head, rest); }
    SkippedAll(body, end, op == "SET");
    assert Tail(body) == body[end..][|head| + 1 - end..];
    BlankRest(body[end..], |head| + 1 - end);
  }

  lemma BlankRest(s: string, n: nat)
    requires AllBlank(s) && n <= |s|
    ensures AllBlank(s[n..]) && AllBlank(s[..n])
  {
  }

  lemma {:induction false} BlankLines(m: Contents, blanks: string, rest: string)
    requires AllBlank(blanks)
    ensures Replay(m, Lines(blanks + "\n" + rest)) == Replay(m, Lines(rest))
    ensures Replay(m, Lines(blanks)) == m
    decreases |blanks|
  {
    hide LineCommand, Lines, Replay;
    HasBreak(blanks);
    var line := Head(blanks);
    BlankRest(blanks, |line|);
    QuietLine(line);
    IdleStays(m, LineCommand(line));
    if OneLine(blanks) {
      ReplayLine(m, blanks, rest);
    } else {
      Splits(blanks);
      BlankRest(blanks, |line| + 1);
      BlankLines(m, Tail(blanks), rest);
      assert blanks + "\n" + rest == line + "\n" + (Tail(blanks) + "\n" + rest);
      ReplayLine(m, line, Tail(blanks) + "\n" + rest);
      ReplayLine(m, line, Tail(blanks));
    }
  }

  lemma HeadMeans(op: string, body: string)
    requires Entry(op, body)
    ensures LineCommand(op + " " + Head(body)) == Understood(op, body) && OneLine(op + " " + Head(body))
  {
    hide Understood;
    HasBreak(body);
    LineReads(op, Head(body));
    NamesOneLine(op, Head(body));
    if !OneLine(body) {
      Splits(body);
      assert Head(body) + ("\n" + Tail(body)) == body;
      CutRequest(op, Head(body), "\n" + Tail(body));
    }
  }

  /** A whole entry with whatever follows it. */
  lemma ReplayEntry(m: Contents, op: string, body: string, rest: string)
    requires Entry(op, body)
    ensures Replay(m, Lines(op + " " + body + "\n" + rest)) == Replay(Maybe(m, Understood(op, body)), Lines(rest))
  {
    hide Understood, LineCommand, Lines, Replay, Entry;
    var first, m' := op + " " + Head(body), Maybe(m, Understood(op, body));
    HeadMeans(op, body);
    HasBreak(body);
    if OneLine(body) {
      ReplayLine(m, first, rest);
    } else {
      Splits(body);
      TailBlank(op, body);
      var blanks := Tail(body);
      assert op + " " + body + "\n" + rest == first + "\n" + (blanks + "\n" + rest);
      ReplayLine(m, first, blanks + "\n" + rest);
      BlankLines(m', blanks, rest);
    }
  }

  /** An entry cut short does nothing, or what the whole entry does. */
  lemma ReplayTorn(m: Contents, op: string, body: string, cut: string)
    requires Entry(op, body) && cut <= op + " " + body
    ensures Replay(m, Lines(cut)) == m || Replay(m, Lines(cut)) == Maybe(m, Understood(op, body))
  {
    hide Understood, LineCommand, Lines, Replay, AllBlank;
    var first := op + " " + Head(body);
    HeadMeans(op, body);
    HasBreak(body);
    if |cut| <= |first| {
      assert cut <= first by { assert (op + " " + body)[..|cut|] == first[..|cut|]; }
      TornLine(op, Head(body), cut);
      assert OneLine(cut);
      ReplayLine(m, cut, "");
    } else {
      Splits(body);
      TailBlank(op, body);
      var p := cut[|first| + 1..];
      assert op + " " + body == first + "\n" + Tail(body);
      assert cut == first + "\n" + p && p == Tail(body)[..|p|];
      BlankRest(Tail(body), |p|);
      ReplayLine(m, first, p);
      BlankLines(Maybe(m, Understood(op, body)), p, "");
    }
  }

  // ----- the whole log -----

  /** A load found the state after the first n events, and these include every event whose lines all
      lie within what was loaded. */
  ghost predicate Recovered(m: Contents, events: seq<Event>, logged: seq<Option<string>>, cut: string, n: nat) {
    && |events| == |logged| && n <= |events|
    && Replay(m, Lines(cut)) == AllHappened(m, events[..n])
    && forall k :: 0 <= k <= |events| && |LogText(logged[..k])| <= |cut| ==> k <= n
  }

  lemma Earlier(m: Contents, e: Event, events: seq<Event>, n: nat)
    requires n <= |events|
    ensures AllHappened(m, ([e] + events)[..n + 1]) == AllHappened(Happened(m, e), events[..n])
  {
    var all := ([e] + events)[..n + 1];
    assert all[0] == e && all[1..] == events[..n];
  }

  lemma LogGrows(logged: seq<Option<string>>, k: nat)
    requires 0 < k <= |logged|
    ensures |LogText(logged[..k])| == |LogText(logged[..1])| + |LogText(logged[1..][..k - 1])|
    ensures |LogText(logged[..1])| == if logged[0].Some? then |logged[0].value| + 1 else 0
  {
    assert logged[..k][1..] == logged[1..][..k - 1];
    assert logged[..1][1..] == [];
  }

  lemma RecoveredNone(m: Contents)
    ensures Recovered(m, [], [], "", 0)
  {
  }

  /** One more event at the front, fully within what was loaded. */
  lemma RecoveredMore(m: Contents, events: seq<Event>, logged: seq<Option<string>>, cut: string, rest: string, n: nat)
    requires events != [] && logged != []
    requires Recovered(Happened(m, events[0]), events[1..], logged[1..], rest, n)
    requires Replay(m, Lines(cut)) == Replay(Happened(m, events[0]), Lines(rest))
    requires |cut| - |rest| == |LogText(logged[..1])|
    ensures Recovered(m, events, logged, cut, n + 1)
  {
    hide Replay, AllHappened, Happened, Lines, LogText;
    Earlier(m, events[0], events[1..], n);
    assert [events[0]] + events[1..] == events;
    forall k | 0 < k <= |events| && |LogText(logged[..k])| <= |cut| ensures k <= n + 1 {
      LogGrows(logged, k);
      assert |LogText(logged[1..][..k - 1])| <= |rest|;
    }
  }

  /** The load ended within the entry of the first event. */
  lemma TornFirst(m: Contents, events: seq<Event>, logged: seq<Option<string>>, cut: string)
    requires events != [] && Ran(m, events, logged) && Faithful(events[0])
    requires logged[0].Some? && |cut| <= |logged[0].value| && cut <= LogText(logged)
    ensures Recovered(m, events, logged, cut, 0) || Recovered(m, events, logged, cut, 1)
  {
    hide LineCommand, Understood, Logs, Faithful, Lines, Replay, Entry;
    var line := logged[0].value;
    assert cut <= line by { assert LogText(logged)[..|cut|] == line[..|cut|]; }
    EntrySays(m, events[0], logged[0]);
    var op, body :| line == op + " " + body && Entry(op, body) && Understood(op, body) == Meaning(events[0]);
    ReplayTorn(m, op, body, cut);
    forall k | 0 < k <= |events| ensures |LogText(logged[..k])| > |cut| { LogGrows(logged, k); }
    assert events[..1][1..] == [];
    assert AllHappened(m, events[..1]) == AllHappened(Happened(m, events[0]), []) == Happened(m, events[0]);
    if Replay(m, Lines(cut)) == m {
      assert Recovered(m, events, logged, cut, 0);
    } else {
      assert Recovered(m, events, logged, cut, 1);
    }
  }

  /** Whatever part of the log a crash left behind, loading it into the store the run started from
      gives the store as it was after some of the run's first events, and none that was wholly
      written is missing. */
  lemma {:induction false} CrashRecovery(m: Contents, events: seq<Event>, logged: seq<Option<string>>, cut: string)
    requires Ran(m, events, logged) && cut <= LogText(logged)
    requires forall i :: 0 <= i < |events| ==> Faithful(events[i])
    ensures exists n :: Recovered(m, events, logged, cut, n)
    decreases |events|
  {
    hide Logs, Faithful, LineCommand, Happened, AllHappened, Understood, Entry, Lines, Replay;
    if events == [] {
      RecoveredNone(m);
      assert events == [] && logged == [] && cut == "";
    } else {
      var e, line := events[0], logged[0];
      if line.Some? && |cut| <= |line.value| {
        TornFirst(m, events, logged, cut);
      } else {
        var rest := if line.None? then cut else cut[|line.value| + 1..];
        LogGrows(logged, 1);
        if line.Some? {
          assert cut == line.value + "\n" + rest;
          assert rest <= LogText(logged[1..]);
        }
        EventReplayed(m, e, line, rest);
        assert (if line.Some? then line.value + "\n" else "") + rest == cut;
        CrashRecovery(Happened(m, e), events[1..], logged[1..], rest);
        var n :| Recovered(Happened(m, e), events[1..], logged[1..], rest, n);
        RecoveredMore(m, events, logged, cut, rest, n);
      }
    }
  }

  /** Loading an event's entry, if it has one, and then more. */
  lemma EventReplayed(m: Contents, e: Event, line: Option<string>, rest: string)
    requires Faithful(e) && Logs(m, e, line)
    ensures Replay(m, Lines((if line.Some? then line.value + "\n" else "") + rest))
            == Replay(Happened(m, e), Lines(rest))
  {
    hide Logs, Faithful, Understood, Entry, Lines, Replay;
    EntrySays(m, e, line);
    if line.Some? {
      var op, body :| line.value == op + " " + body && Entry(op, body) && Understood(op, body) == Meaning(e);
      ReplayEntry(m, op, body, rest);
    } else {
      assert "" + rest == rest;
    }
  }

  /** The complete log of a run of faithful events restores the store the run ended with. */
  lemma CleanRestart(m: Contents, events: seq<Event>, logged: seq<Option<string>>)
    requires Ran(m, events, logged) && forall i :: 0 <= i < |events| ==> Faithful(events[i])
    ensures Replay(m, Lines(LogText(logged))) == AllHappened(m, events)
  {
    hide Ran, Faithful, Replay, AllHappened, Lines, LogText;
    CrashRecovery(m, events, logged, LogText(logged));
    var n :| Recovered(m, events, logged, LogText(logged), n);
    RanSize(m, events, logged);
    assert logged[..|events|] == logged && events[..|events|] == events;
    assert |events| <= n;
  }

  lemma RanSize(m: Contents, events: seq<Event>, logged: seq<Option<string>>)
    requires Ran(m, events, logged)
    ensures |events| == |logged|
  {
  }

  // ----- no deadlines in it -----

  ghost predicate AllNoTtl(text: string) {
    forall i :: 0 <= i < |Lines(text)| ==> NoTtl(LineCommand(Lines(text)[i]))
  }

  lemma LineNoTtl(line: string, rest: string)
    requires OneLine(line) && NoTtl(LineCommand(line)) && AllNoTtl(rest)
    ensures AllNoTtl(line + "\n" + rest) && AllNoTtl(line)
  {
    hide LineCommand, OneLine, NoTtl;
    FirstLine(line, rest);
    if line == "" { NoCommand(); }
  }

  lemma {:induction false} BlankNoTtl(blanks: string, rest: string)
    requires AllBlank(blanks) && AllNoTtl(rest)
    ensures AllNoTtl(blanks + "\n" + rest) && AllNoTtl(blanks)
    decreases |blanks|
  {
    hide LineCommand, Lines, AllNoTtl;
    HasBreak(blanks);
    var line := Head(blanks);
    BlankRest(blanks, |line|);
    QuietLine(line);
    if OneLine(blanks) {
      LineNoTtl(blanks, rest);
    } else {
      Splits(blanks);
      BlankRest(blanks, |line| + 1);
      BlankNoTtl(Tail(blanks), rest);
      assert blanks + "\n" + rest == line + "\n" + (Tail(blanks) + "\n" + rest);
      LineNoTtl(line, Tail(blanks) + "\n" + rest);
      LineNoTtl(line, Tail(blanks));
    }
  }

  lemma EntryNoTtl(op: string, body: string, rest: string)
    requires Entry(op, body) && NoTtl(Understood(op, body)) && AllNoTtl(rest)
    ensures AllNoTtl(op + " " + body + "\n" + rest)
  {
    hide Understood, LineCommand, Lines, Entry, AllNoTtl, NoTtl;
    var first := op + " " + Head(body);
    HeadMeans(op, body);
    HasBreak(body);
    if OneLine(body) {
      LineNoTtl(first, rest);
    } else {
      Splits(body);
      TailBlank(op, body);
      var blanks := Tail(body);
      assert op + " " + body + "\n" + rest == first + "\n" + (blanks + "\n" + rest);
      BlankNoTtl(blanks, rest);
      LineNoTtl(first, blanks + "\n" + rest);
    }
  }

  lemma TornNoTtl(op: string, body: string, cut: string)
    requires Entry(op, body) && NoTtl(Understood(op, body)) && cut <= op + " " + body
    ensures AllNoTtl(cut)
  {
    hide Understood, LineCommand, Lines, AllBlank, AllNoTtl;
    var first := op + " " + Head(body);
    HeadMeans(op, body);
    HasBreak(body);
    NothingNoTtl();
    if |cut| <= |first| {
      assert cut <= first by { assert (op + " " + body)[..|cut|] == first[..|cut|]; }
      TornLine(op, Head(body), cut);
      assert OneLine(cut);
      LineNoTtl(cut, "");
    } else {
      Splits(body);
      TailBlank(op, body);
      var p := cut[|first| + 1..];
      assert op + " " + body == first + "\n" + Tail(body);
      assert cut == first + "\n" + p && p == Tail(body)[..|p|];
      BlankRest(Tail(body), |p|);
      BlankNoTtl(p, "");
      LineNoTtl(first, p);
    }
  }

  lemma NothingNoTtl()
    ensures AllNoTtl("")
  {
  }

  /** No line of any part of such a log sets a time-to-live. */
  lemma {:induction false} CutNoTtl(m: Contents, events: seq<Event>, logged: seq<Option<string>>, cut: string)
    requires Ran(m, events, logged) && cut <= LogText(logged)
    requires forall i :: 0 <= i < |events| ==> Faithful(events[i])
    ensures AllNoTtl(cut)
    decreases |events|
  {
    hide Logs, LineCommand, Understood, Happened, NoTtl, Entry, AllNoTtl;
    if events == [] || cut == "" {
      NothingNoTtl();
    } else {
      var e, line := events[0], logged[0];
      EntrySays(m, e, line);
      if line.None? {
        CutNoTtl(Happened(m, e), events[1..], logged[1..], cut);
      } else {
        var op, body :| line.value == op + " " + body && Entry(op, body) && Understood(op, body) == Meaning(e);
        if |cut| <= |line.value| {
          assert cut <= line.value by { assert LogText(logged)[..|cut|] == line.value[..|cut|]; }
          TornNoTtl(op, body, cut);
        } else {
          var rest := cut[|line.value| + 1..];
          assert cut == line.value + "\n" + rest && rest <= LogText(logged[1..]);
          CutNoTtl(Happened(m, e), events[1..], logged[1..], rest);
          EntryNoTtl(op, body, rest);
        }
      }
    }
  }

  // ----- one run of each kind whose complete log does not restore it -----

  lemma Single(e: Event, line: Option<string>)
    requires Logs(map[], e, line)
    ensures Ran(map[], [e], [line]) && AllHappened(map[], [e]) == Happened(map[], e)
  {
    hide Logs, Happened;
    assert [e][1..] == [] && [line][1..] == [];
    assert AllHappened(Happened(map[], e), []) == Happened(map[], e);
  }

  lemma LowerCaseLost()
    ensures var e := Json("set", SetBody("k", "v", KV.Always, 0));
            && Ran(map[], [e], [None]) && AllHappened(map[], [e]) == map["k" := "v"]
            && Replay(map[], Lines(LogText([None]))) == map[]
  {
    hide Whole, ObjectAt, KeyListAt, SetOf, SetBody;
    var n := Normalized("set");
    assert n[0] == 'S' && n[1] == 'E' && n[2] == 'T' && n == "SET";
    SetBodyMeans("k", "v", KV.Always, 0);
    Single(Json("set", SetBody("k", "v", KV.Always, 0)), None);
  }

  lemma EmptyKeyLost()
    ensures var e := BinarySet("", "v", KV.Always, 0);
            var line := Some("SET" + " " + SetBody("", "v", KV.Always, 0));
            && Ran(map[], [e], [line]) && AllHappened(map[], [e]) == map["" := "v"]
            && Replay(map[], Lines(LogText([line]))) == map[]
  {
    hide Understood, LineCommand, SetBody, Lines, Replay;
    var e, line := BinarySet("", "v", KV.Always, 0), "SET" + " " + SetBody("", "v", KV.Always, 0);
    BinaryLines("", "v", KV.Always, 0);
    LineReads("SET", SetBody("", "v", KV.Always, 0));
    NamesOneLine("SET", SetBody("", "v", KV.Always, 0));
    Single(e, Some(line));
    OneEntry(Some(line));
    ReplayLine(map[], line, "");
  }

  /** A SET whose body has a line break after its opening brace. */
  function BrokenBody(): string { "{\n" + FieldsText(SetFields("k", "v", KV.Always, 0)) }

  lemma BrokenBodyReads()
    ensures Understood("SET", BrokenBody()) == Some(Set("k", "v", KV.Always, 0)) && Head(BrokenBody()) == "{"
  {
    hide FieldsText, FieldsFrom, SetOf, SetFields, AddAll, Normalized;
    Names();
    var b, fields := BrokenBody(), SetFields("k", "v", KV.Always, 0);
    SetFieldsFresh("k", "v", KV.Always, 0);
    SomeFields("k", "v", KV.Always, 0);
    FieldsRead("{\n", fields, map[]);
    FirstQuote(fields);
    assert b[0] == '{' && b[1] == '\n' && b[2] == '"';
    IndexIs(b, '\n', 0, 1);
    BlankThenMore(b);
    FieldsAfterSkip(b, 1, map[]);
    SetFieldsMap("k", "v", KV.Always, 0);
    SetOfMap("k", "v", KV.Always, 0);
  }

  lemma FirstQuote(fields: seq<(string, Value)>)
    requires fields != []
    ensures |FieldsText(fields)| > 0 && FieldsText(fields)[0] == '"'
  {
  }

  lemma BlankThenMore(b: string)
    requires |b| > 2 && b[0] == '{' && b[1] == '\n' && b[2] == '"'
    ensures TakeAt(b, 0, '{', true) == Some(1) && SkipFrom(b, 1, true) == 2 && TakeAt(b, 1, '}', true) == None
  {
    assert SkipFrom(b, 2, true) == 2;
  }

  lemma BraceRefused()
    ensures Understood("SET", "{") == None
  {
    Names();
    assert ObjectAt("{").Failed?;
  }

  lemma LineBreakLost()
    ensures var e := Json("SET", BrokenBody());
            var line := Some("SET" + " " + BrokenBody());
            && Ran(map[], [e], [line]) && AllHappened(map[], [e]) == map["k" := "v"]
            && Replay(map[], Lines(LogText([line]))) == map[]
  {
    hide Understood, LineCommand, BrokenBody, Lines, Replay, Head;
    BrokenBodyReads();
    BraceRefused();
    var e, line := Json("SET", BrokenBody()), "SET" + " " + BrokenBody();
    Single(e, Some(line));
    OneEntry(Some(line));
    LoadedWrite(map[], "SET", BrokenBody());
  }

  /** A line break behind the closing brace does no harm. */
  lemma TrailingBreakKept()
    ensures var body := SetBody("k", "v", KV.Always, 0) + "\n";
            Understood("SET", body) == Some(Set("k", "v", KV.Always, 0)) && Faithful(Json("SET", body))
  {
    hide ObjectAt, SetOf, SetBody;
    Names();
    var b := SetBody("k", "v", KV.Always, 0);
    BinaryLines("k", "v", KV.Always, 0);
    SetBodyMeans("k", "v", KV.Always, 0);
    ObjectStays(b, "\n");
    BlankEnd(b, ObjectAt(b).next);
    IndexIs(b + "\n", '\n', 0, |b|);
    assert (b + "\n")[..|b|] == b;
  }

  lemma {:induction false} BlankEnd(s: string, at: nat)
    requires at <= |s| && SkipFrom(s, at, true) == |s|
    ensures SkipFrom(s + "\n", at, true) == |s| + 1
    decreases |s| - at
  {
    if at < |s| { BlankEnd(s, at + 1); } else { assert SkipFrom(s + "\n", |s| + 1, true) == |s| + 1; }
  }
}
