/** The append-only file over several lives of the server. A restart appends behind whatever a crash has
    left, so an unfinished last line and the next entry become one line. */
module Generations {
  import opened Options
  import opened Decimal
  import opened Json
  import opened Bodies
  import BodyText
  import opened LineBreaks
  import opened Aof
  import KV = KeyValue

  // ----- a body that runs into an entry of the log -----

  /** At m the text runs into an entry, or the beginning of one; q is its first quote, the one before the
      name of its first field, or the end if there is none. */
  ghost predicate Joint(s: string, m: nat, q: nat) {
    && m < q <= |s| && (s[m] == 'S' || s[m] == 'D') && AllPlain(s, m, q) && (m + 3 <= q || q == |s|)
    && (m + 2 < |s| ==> !IsHex(s[m + 2]))
    && (q < |s| ==> s[q] == '"' && (q + 1 < |s| ==> !Follower(s[q + 1])))
  }

  /** Where a reading that started before the joint can end: still before it, or behind that quote,
      where nothing fits. */
  predicate Stuck(m: nat, q: nat, next: nat) { next <= m || next == q + 1 }

  lemma {:induction false} SkipStops(s: string, m: nat, q: nat, at: nat, strict: bool)
    requires Joint(s, m, q) && at <= m
    ensures SkipFrom(s, at, strict) <= m
    decreases m - at
  {
    hide AllPlain;
    if at < m && Blank(s[at], strict) { SkipStops(s, m, q, at + 1, strict); }
  }

  lemma TakeStops(s: string, m: nat, q: nat, at: nat, c: char, strict: bool)
    requires Joint(s, m, q) && at <= m && c != 'S' && c != 'D'
    ensures TakeAt(s, at, c, strict).Some? ==> TakeAt(s, at, c, strict).value <= m
  {
    SkipStops(s, m, q, at, strict);
  }

  lemma TakeStuck(s: string, m: nat, q: nat, at: nat, c: char, strict: bool)
    requires Joint(s, m, q) && Stuck(m, q, at) && at <= |s| && Follower(c)
    ensures TakeAt(s, at, c, strict).Some? ==> TakeAt(s, at, c, strict).value <= m
  {
    if at <= m { TakeStops(s, m, q, at, c, strict); }
  }

  lemma HexStops(s: string, m: nat, q: nat, at: nat)
    requires Joint(s, m, q) && at <= m && HexAt(s, at).Got?
    ensures at + 4 <= m + 2
  {
    assert forall i :: at <= i < at + 4 ==> s[i] == s[at..at + 4][i - at];
  }

  lemma EscapeStops(s: string, m: nat, q: nat, at: nat, strict: bool)
    requires Joint(s, m, q) && at <= m && EscapeAt(s, at, strict).Got?
    ensures EscapeAt(s, at, strict).next <= m + 2
  {
    hide Utf8, HexNumber;
    if Unescaped(s[at]).None? {
      HexStops(s, m, q, at + 1);
      var first := HexAt(s, at + 1);
      if IsHigh(first.value) {
        assert s[first.next] == s[first.next..first.next + 2][0]
          && s[first.next + 1] == s[first.next..first.next + 2][1];
        HexStops(s, m, q, first.next + 2);
      }
    }
  }

  lemma {:induction false} CharsStuck(s: string, m: nat, q: nat, at: nat, strict: bool)
    requires Joint(s, m, q) && at <= q && CharsFrom(s, at, strict).Got?
    ensures Stuck(m, q, CharsFrom(s, at, strict).next)
    decreases |s| - at
  {
    hide EscapeAt;
    if s[at] != '"' {
      if s[at] != '\\' {
        CharsStuck(s, m, q, at + 1, strict);
      } else {
        EscapeStops(s, m, q, at + 1, strict);
        CharsStuck(s, m, q, EscapeAt(s, at + 1, strict).next, strict);
      }
    }
  }

  lemma StringStuck(s: string, m: nat, q: nat, at: nat, strict: bool)
    requires Joint(s, m, q) && at <= m && StringAt(s, at, strict).Got?
    ensures Stuck(m, q, StringAt(s, at, strict).next)
  {
    hide CharsFrom, TakeAt;
    TakeStops(s, m, q, at, '"', strict);
    CharsStuck(s, m, q, TakeAt(s, at, '"', strict).value, strict);
  }

  lemma ValueStuck(s: string, m: nat, q: nat, at: nat)
    requires Joint(s, m, q) && at <= m && ValueAt(s, at).Got?
    ensures Stuck(m, q, ValueAt(s, at).next)
  {
    hide StringAt, Wrapped, AllPlain;
    if s[at] == '"' {
      StringStuck(s, m, q, at, true);
    } else if StartsWith(s, at, "true") {
      assert forall i :: at <= i < at + 4 ==> s[i] == s[at..at + 4][i - at];
    } else if StartsWith(s, at, "false") {
      assert forall i :: at <= i < at + 5 ==> s[i] == s[at..at + 5][i - at];
    } else {
      var end := DigitsEnd(s, at);
      assert forall i :: at <= i < end ==> s[i] == s[at..end][i - at];
    }
  }

  lemma FieldStuck(s: string, m: nat, q: nat, at: nat)
    requires Joint(s, m, q) && at <= m && FieldAt(s, at).Got?
    ensures Stuck(m, q, FieldAt(s, at).next)
  {
    hide StringAt, ValueAt, TakeAt, Joint;
    var name := StringAt(s, at, true);
    StringStuck(s, m, q, at, true);
    TakeStuck(s, m, q, name.next, ':', true);
    var colon := TakeAt(s, name.next, ':', true).value;
    SkipStops(s, m, q, colon, true);
    ValueStuck(s, m, q, SkipFrom(s, colon, true));
  }

  lemma {:induction false} FieldsStop(s: string, m: nat, q: nat, at: nat, seen: Fields)
    requires Joint(s, m, q) && at <= m && FieldsFrom(s, at, seen).Got?
    ensures FieldsFrom(s, at, seen).next <= m
    decreases |s| - at
  {
    hide FieldAt, TakeAt, Joint;
    var field := FieldAt(s, at);
    FieldStuck(s, m, q, at);
    TakeStuck(s, m, q, field.next, '}', true);
    TakeStuck(s, m, q, field.next, ',', true);
    if TakeAt(s, field.next, '}', true).None? {
      FieldsStop(s, m, q, TakeAt(s, field.next, ',', true).value, seen[field.value.0 := field.value.1]);
    }
  }

  lemma {:induction false} ItemsStop(s: string, m: nat, q: nat, at: nat)
    requires Joint(s, m, q) && at <= m && ItemsFrom(s, at, false).Got?
    ensures ItemsFrom(s, at, false).next <= m
    decreases |s| - at
  {
    hide StringAt, TakeAt, Joint;
    var item := StringAt(s, at, false);
    StringStuck(s, m, q, at, false);
    TakeStuck(s, m, q, item.next, ']', false);
    TakeStuck(s, m, q, item.next, ',', false);
    if TakeAt(s, item.next, ']', false).None? {
      ItemsStop(s, m, q, TakeAt(s, item.next, ',', false).value);
    }
  }

  lemma ArrayStops(s: string, m: nat, q: nat, at: nat)
    requires Joint(s, m, q) && at <= m && ArrayAt(s, at, false).Got?
    ensures ArrayAt(s, at, false).next <= m
  {
    hide ItemsFrom, TakeAt, Joint;
    TakeStops(s, m, q, at, '[', false);
    var open := TakeAt(s, at, '[', false).value;
    TakeStops(s, m, q, open, ']', false);
    if TakeAt(s, open, ']', false).None? { ItemsStop(s, m, q, open); }
  }

  lemma KeysStuck(s: string, m: nat, q: nat, at: nat)
    requires Joint(s, m, q) && at <= m && KeysAt(s, at).Got?
    ensures Stuck(m, q, KeysAt(s, at).next)
  {
    hide StringAt, ArrayAt, TakeAt, Joint;
    var name := StringAt(s, at, false);
    StringStuck(s, m, q, at, false);
    TakeStuck(s, m, q, name.next, ':', false);
    var colon := TakeAt(s, name.next, ':', false).value;
    if name.value == "key" { StringStuck(s, m, q, colon, false); } else { ArrayStops(s, m, q, colon); }
  }

  lemma {:induction false} AllKeysStop(s: string, m: nat, q: nat, at: nat)
    requires Joint(s, m, q) && at <= m && KeysFrom(s, at).Got?
    ensures KeysFrom(s, at).next <= m
    decreases |s| - at
  {
    hide KeysAt, TakeAt, Joint;
    var keys := KeysAt(s, at);
    KeysStuck(s, m, q, at);
    TakeStuck(s, m, q, keys.next, '}', false);
    TakeStuck(s, m, q, keys.next, ',', false);
    if TakeAt(s, keys.next, '}', false).None? {
      AllKeysStop(s, m, q, TakeAt(s, keys.next, ',', false).value);
    }
  }

  /** No body that runs into an entry is accepted. */
  lemma NoBodyAcross(s: string, m: nat, q: nat)
    requires Joint(s, m, q)
    ensures Whole(s, ObjectAt(s), true) == None && Whole(s, KeyListAt(s), false) == None
  {
    hide FieldsFrom, KeysFrom, TakeAt, AllPlain;
    if ObjectAt(s).Got? {
      TakeStops(s, m, q, 0, '{', true);
      var open := TakeAt(s, 0, '{', true).value;
      TakeStops(s, m, q, open, '}', true);
      if TakeAt(s, open, '}', true).None? { FieldsStop(s, m, q, open, map[]); }
      SkipStops(s, m, q, ObjectAt(s).next, true);
    }
    if KeyListAt(s).Got? {
      TakeStops(s, m, q, 0, '{', false);
      var open := TakeAt(s, 0, '{', false).value;
      TakeStops(s, m, q, open, '}', false);
      if TakeAt(s, open, '}', false).None? { AllKeysStop(s, m, q, open); }
      SkipStops(s, m, q, KeyListAt(s).next, false);
    }
  }

  // ----- how an accepted body starts -----

  /** Up to its first quote, if any, a body is plain, and a name starts behind that quote. */
  ghost predicate Starts(body: string, q: nat) {
    && q <= |body| && AllPlain(body, 0, q)
    && (q < |body| ==> body[q] == '"' && q + 1 < |body| && !Follower(body[q + 1]))
  }

  lemma PlainJoin(s: string, a: nat, b: nat, c: nat)
    requires AllPlain(s, a, b) && AllPlain(s, b, c)
    ensures AllPlain(s, a, c)
  {
  }

  lemma PlainTake(s: string, at: nat, c: char, strict: bool)
    requires at <= |s| && TakeAt(s, at, c, strict).Some? && PlainChar(c)
    ensures AllPlain(s, at, TakeAt(s, at, c, strict).value)
  {
    PlainBlanks(s, at, strict);
  }

  lemma NameStarts(s: string, at: nat, strict: bool)
    requires at <= |s| && AllPlain(s, 0, at) && StringAt(s, at, strict).Got?
    requires var name := StringAt(s, at, strict).value; name == "" || !Follower(name[0])
    ensures Starts(s, SkipFrom(s, at, strict))
  {
    hide EscapeAt;
    var q := SkipFrom(s, at, strict);
    PlainBlanks(s, at, strict);
    PlainJoin(s, 0, at, q);
    assert CharsFrom(s, q + 1, strict).Got?;
  }

  lemma SetStarts(body: string)
    requires Understood("SET", body).Some?
    ensures exists q :: Starts(body, q)
  {
    hide StringAt, ValueAt, Starts;
    Names();
    var fields := ObjectAt(body).value;
    assert SetOf(fields).Some?;
    var open := TakeAt(body, 0, '{', true).value;
    PlainTake(body, 0, '{', true);
    assert TakeAt(body, open, '}', true).None?;
    FieldsKeep(body, open, map[]);
    var name := StringAt(body, open, true).value;
    if name != "" && Follower(name[0]) { NoSuchField(name); }
    NameStarts(body, open, true);
  }

  lemma DelStarts(body: string)
    requires Understood("DEL", body).Some?
    ensures exists q :: Starts(body, q)
  {
    hide StringAt, ArrayAt, Follower;
    Names();
    var open := TakeAt(body, 0, '{', false).value;
    PlainTake(body, 0, '{', false);
    if TakeAt(body, open, '}', false).Some? {
      var close := TakeAt(body, open, '}', false).value;
      PlainTake(body, open, '}', false);
      PlainBlanks(body, close, false);
      PlainJoin(body, 0, open, close);
      PlainJoin(body, 0, close, |body|);
      assert Starts(body, |body|);
    } else {
      assert KeysAt(body, open).Got?;
      var name := StringAt(body, open, false).value;
      assert name[0] == 'k';
      assert !Follower('k') by { NoFollower(); }
      NameStarts(body, open, false);
    }
  }

  lemma NoFollower()
    ensures !Follower('k')
  {
  }

  lemma PlainLetters()
    ensures forall c :: c in "SETDL " ==> PlainChar(c)
    ensures !IsHex('T') && !IsHex('L')
  {
  }

  /** An entry by itself, q its first quote or its end. */
  ghost predicate EntryText(entry: string, q: nat) {
    && 4 <= q <= |entry| && (entry[0] == 'S' || entry[0] == 'D') && !IsHex(entry[2]) && AllPlain(entry, 0, q)
    && (q < |entry| ==> entry[q] == '"' && (q + 1 < |entry| ==> !Follower(entry[q + 1])))
  }

  lemma EntryStarts(op: string, body: string, q: nat)
    requires IsWriteOp(op) && Starts(body, q)
    ensures EntryText(op + " " + body, 4 + q)
  {
    hide IsHex, PlainChar, Follower;
    var entry := op + " " + body;
    assert entry[0] == op[0] && entry[1] == op[1] && entry[2] == op[2] && entry[3] == ' ';
    assert forall i :: 0 <= i < |body| ==> entry[4 + i] == body[i];
    PlainLetters();
  }

  /** The first n characters of an entry behind some text. */
  lemma JointAt(b: string, entry: string, q: nat, n: nat)
    requires EntryText(entry, q) && 0 < n <= |entry|
    ensures Joint(b + entry[..n], |b|, |b| + if q < n then q else n)
  {
    hide IsHex, PlainChar, Follower;
    var s, m := b + entry[..n], |b|;
    assert forall i :: 0 <= i < n ==> s[m + i] == entry[i];
  }

  /** Whatever stands before it on its line, an entry of the log means nothing there, and neither does
      the beginning of one. */
  lemma GluedLine(p: string, op: string, body: string, y: string)
    requires p != "" && IsWriteOp(op) && Understood(op, body).Some? && y != "" && y <= op + " " + body
    ensures LineCommand(p + y) == None
  {
    hide Understood, ObjectAt, KeyListAt, Whole, Starts, Joint, EntryText;
    var entry, line := op + " " + body, p + y;
    assert y == entry[..|y|];
    var n := IndexOf(line, ' ', 0);
    if n < |p| {
      if op == "SET" { SetStarts(body); } else { DelStarts(body); }
      var q: nat :| Starts(body, q);
      var b := p[n + 1..];
      assert line[n + 1..] == b + y;
      EntryStarts(op, body, q);
      JointAt(b, entry, 4 + q, |y|);
      NothingAcross(line[..n], b + y, |b|, |b| + if 4 + q < |y| then 4 + q else |y|);
    } else if n < |line| {
      assert forall i :: 0 <= i < |y| && i < 3 ==> line[|p| + i] == y[i] == entry[i] == op[i];
      LongName(line[..n], line[n + 1..]);
    }
  }

  lemma NothingAcross(op: string, s: string, m: nat, q: nat)
    requires Joint(s, m, q)
    ensures Understood(op, s) == None
  {
    hide Joint, ObjectAt, KeyListAt;
    NoBodyAcross(s, m, q);
  }

  lemma LongName(op: string, body: string)
    requires |op| > 3
    ensures Understood(op, body) == None
  {
    hide ObjectAt, KeyListAt, Whole;
    assert |Normalized(op)| > 3;
  }

  // ----- appending to what a crash has left -----

  /** Nothing unfinished at the end. */
  predicate Clean(file: string) { file == "" || file[|file| - 1] == '\n' }

  /** The finished lines of a file. */
  function Finished(file: string): (r: string)
    ensures r <= file && Clean(r)
    ensures OneLine(file[|r|..]) && (Clean(file) <==> r == file)
    decreases |file|
  {
    if Clean(file) then file
    else
      var r := Finished(file[..|file| - 1]);
      assert file[|r|..] == file[..|file| - 1][|r|..] + [file[|file| - 1]];
      r
  }

  lemma FirstOf(file: string)
    requires Clean(file) && file != ""
    ensures !OneLine(file) && Clean(Tail(file)) && |Tail(file)| < |file|
    ensures file == Head(file) + "\n" + Tail(file) && OneLine(Head(file))
  {
    assert file[|file| - 1] in file;
    Splits(file);
    var tail := Tail(file);
    if tail != "" { assert tail[|tail| - 1] == file[|file| - 1]; }
  }

  lemma {:induction false} LinesJoin(file: string, rest: string)
    requires Clean(file)
    ensures Lines(file + rest) == Lines(file) + Lines(rest)
    decreases |file|
  {
    hide Lines, Head, Tail, Clean, OneLine;
    if |file| == 0 {
      NoCommand();
      assert file + rest == rest;
    } else {
      FirstOf(file);
      var line, tail := Head(file), Tail(file);
      FirstLine(line, tail);
      FirstLine(line, tail + rest);
      assert file + rest == line + "\n" + (tail + rest);
      LinesJoin(tail, rest);
    }
  }

  lemma {:induction false} ReplayJoin(m: Contents, a: seq<string>, b: seq<string>)
    ensures Replay(m, a + b) == Replay(Replay(m, a), b)
    decreases |a|
  {
    hide LineCommand, Maybe;
    if a == [] {
      assert a + b == b;
    } else {
      assert (a + b)[1..] == a[1..] + b;
      ReplayJoin(Maybe(m, LineCommand(a[0])), a[1..], b);
    }
  }

  lemma NoTtlJoin(file: string, rest: string)
    requires Clean(file) && AllNoTtl(file) && AllNoTtl(rest)
    ensures AllNoTtl(file + rest)
  {
    hide Lines, LineCommand, NoTtl;
    LinesJoin(file, rest);
  }

  lemma Continued(m: Contents, file: string, rest: string)
    requires Clean(file)
    ensures Replay(m, Lines(file + rest)) == Replay(Replay(m, Lines(file)), Lines(rest))
  {
    hide Replay, Lines;
    LinesJoin(file, rest);
    ReplayJoin(m, Lines(file), Lines(rest));
  }

  /** A line that means nothing behind the finished lines. */
  lemma GluedHead(m: Contents, file: string, op: string, head: string, rest: string)
    requires !Clean(file) && IsWriteOp(op) && Understood(op, head).Some? && OneLine(op + " " + head)
    ensures Replay(m, Lines(file + (op + " " + head + "\n" + rest)))
            == Replay(Replay(m, Lines(Finished(file))), Lines(rest))
  {
    hide Replay, Lines, LineCommand, Understood, OneLine, Clean, IsWriteOp;
    var done := Finished(file);
    var torn, entry := file[|done|..], op + " " + head;
    GluedLine(torn, op, head, entry);
    BothOneLine(torn, entry);
    assert file + (entry + "\n" + rest) == done + (torn + entry + "\n" + rest);
    Continued(m, done, torn + entry + "\n" + rest);
    ReplayLine(Replay(m, Lines(done)), torn + entry, rest);
  }

  /** Behind an unfinished line an entry is lost, and so is that line, whatever it said. What is
      appended after that is read again. */
  lemma AppendedToTorn(m: Contents, file: string, op: string, body: string, rest: string)
    requires !Clean(file) && Entry(op, body)
    ensures Replay(m, Lines(file + (op + " " + body + "\n" + rest)))
            == Replay(Replay(m, Lines(Finished(file))), Lines(rest))
  {
    hide Replay, Lines, LineCommand, Understood, OneLine, Clean, IsWriteOp;
    HeadMeans(op, body);
    HasBreak(body);
    if OneLine(body) {
      GluedHead(m, file, op, body, rest);
    } else {
      Splits(body);
      TailBlank(op, body);
      var blanks := Tail(body);
      assert op + " " + body + "\n" + rest == op + " " + Head(body) + "\n" + (blanks + "\n" + rest);
      GluedHead(m, file, op, Head(body), blanks + "\n" + rest);
      BlankLines(Replay(m, Lines(Finished(file))), blanks, rest);
    }
  }

  lemma BothOneLine(a: string, b: string)
    requires OneLine(a) && OneLine(b)
    ensures OneLine(a + b)
  {
  }

  /** An entry appended to the file is restored by a load of it. */
  ghost predicate Restored(m: Contents, file: string, op: string, body: string) {
    Replay(m, Lines(file + (op + " " + body + "\n"))) == Maybe(Replay(m, Lines(file)), Understood(op, body))
  }

  /** Every entry that a server appends after a restart is there after the next one exactly when the
      file it found was empty or ended in a line break. */
  lemma AppendsRestoredIff(m: Contents, file: string)
    ensures (forall op, body :: Entry(op, body) ==> Restored(m, file, op, body)) <==> Clean(file)
  {
    hide Entry, Restored, Clean;
    if Clean(file) {
      forall op, body | Entry(op, body) ensures Restored(m, file, op, body) { AppendedToClean(m, file, op, body); }
    } else {
      var m' := Replay(m, Lines(Finished(file)));
      var value := if "k" in m' && m'["k"] == "v" then "w" else "v";
      LostEntry(m, file, "k", value);
    }
  }

  lemma AppendedToClean(m: Contents, file: string, op: string, body: string)
    requires Clean(file) && Entry(op, body)
    ensures Restored(m, file, op, body)
  {
    hide Replay, Lines, Understood, Clean, Entry;
    var entry := op + " " + body + "\n";
    Continued(m, file, entry);
    ReplayEntry(Replay(m, Lines(file)), op, body, "");
    assert entry + "" == entry;
    LoadedNothing(Maybe(Replay(m, Lines(file)), Understood(op, body)));
  }

  lemma LostEntry(m: Contents, file: string, key: string, value: string)
    requires !Clean(file) && key != ""
    requires var m' := Replay(m, Lines(Finished(file))); !(key in m' && m'[key] == value)
    ensures exists op, body :: Entry(op, body) && !Restored(m, file, op, body)
  {
    hide Replay, Lines, Understood, Clean, BodyText.SetBody;
    var body := BodyText.SetBody(key, value, KV.Always, 0);
    BinaryLines(key, value, KV.Always, 0);
    HasBreak(body);
    assert Entry("SET", body);
    AppendedToTorn(m, file, "SET", body, "");
    assert "SET" + " " + body + "\n" + "" == "SET" + " " + body + "\n";
    LoadedNothing(Replay(m, Lines(Finished(file))));
    assert key in Maybe(Replay(m, Lines(file)), Understood("SET", body));
    assert !Restored(m, file, "SET", body);
  }

  /** A second life on a file without an unfinished line, and a second crash: the load gives the
      store as it was after some first events of that life, none that was wholly written missing. */
  lemma SecondCrash(m: Contents, file: string, events: seq<Event>, logged: seq<Option<string>>, cut: string)
    requires Clean(file) && Ran(Replay(m, Lines(file)), events, logged) && cut <= LogText(logged)
    requires forall i :: 0 <= i < |events| ==> Faithful(events[i])
    ensures exists n: nat :: Recovered(Replay(m, Lines(file)), events, logged, cut, n)
              && Replay(m, Lines(file + cut)) == AllHappened(Replay(m, Lines(file)), events[..n])
  {
    hide Replay, Lines, Clean, Ran, LogText, Faithful, AllHappened;
    Continued(m, file, cut);
    CrashRecovery(Replay(m, Lines(file)), events, logged, cut);
    var n: nat :| Recovered(Replay(m, Lines(file)), events, logged, cut, n);
  }
}
