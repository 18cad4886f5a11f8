/** What a file holds that was never repaired: of every entry some front part, one behind the other,
    and exactly the events a load of it finds. */
module Pieces {
  import opened Options
  import opened Sequences
  import opened Bodies
  import opened LineBreaks
  import opened Aof
  import opened Generations

  // ----- the last line of a file -----

  function Unfinished(file: string): (r: string)
    ensures OneLine(r) && (r == "" <==> Clean(file)) && Finished(file) + r == file
  {
    file[|Finished(file)|..]
  }

  /** A front part that ends in a line break, and a shorter one. */
  lemma BreakBehind(file: string, longer: string, shorter: string)
    requires longer <= file && shorter <= file && |shorter| < |longer| && Clean(longer)
    ensures !OneLine(file[|shorter|..])
  {
    assert file[|shorter|..][|longer| - 1 - |shorter|] == longer[|longer| - 1];
  }

  lemma FinishedIs(file: string, done: string, last: string)
    requires file == done + last && Clean(done) && OneLine(last)
    ensures Finished(file) == done && Unfinished(file) == last
  {
    hide Clean, OneLine, Finished;
    var r := Finished(file);
    assert file[|done|..] == last;
    if |r| < |done| { BreakBehind(file, done, r); } else if |r| > |done| { BreakBehind(file, r, done); }
    assert r == file[..|r|] && done == file[..|done|];
  }

  /** A load replays the finished lines and then the last one. */
  lemma ReplayFile(m: Contents, file: string)
    ensures Replay(m, Lines(file)) == Maybe(Replay(m, Lines(Finished(file))), LineCommand(Unfinished(file)))
  {
    hide Replay, Lines, LineCommand, Clean;
    Continued(m, Finished(file), Unfinished(file));
    ReplayLine(Replay(m, Lines(Finished(file))), Unfinished(file), "");
  }

  lemma SameLine(file: string, part: string)
    requires OneLine(part)
    ensures Finished(file + part) == Finished(file) && Unfinished(file + part) == Unfinished(file) + part
  {
    hide Clean, OneLine;
    BothOneLine(Unfinished(file), part);
    Regroup(Finished(file), Unfinished(file), part);
    FinishedIs(file + part, Finished(file), Unfinished(file) + part);
  }

  lemma EndsInBreak(done: string, line: string)
    ensures Clean(done + (line + "\n"))
  {
  }

  lemma Blanks(m: Contents, p: string)
    requires AllBlank(p)
    ensures Replay(m, Lines(Finished(p))) == m && Idle(LineCommand(Unfinished(p)))
  {
    hide Replay, Lines, LineCommand, Clean;
    BlankRest(p, |Finished(p)|);
    BlankLines(m, Finished(p), "");
    BlankStart(Unfinished(p));
    QuietLine(Unfinished(p));
  }

  lemma BlankStart(line: string)
    requires AllBlank(line)
    ensures line == "" || !Starter(line[0])
  {
  }

  /** The rest of a line, its break, and blanks. */
  lemma LineCompleted(m: Contents, file: string, line: string, p: string)
    requires OneLine(line) && AllBlank(p)
    ensures var file' := file + (line + "\n" + p);
            && Replay(m, Lines(Finished(file')))
               == Maybe(Replay(m, Lines(Finished(file))), LineCommand(Unfinished(file) + line))
            && Idle(LineCommand(Unfinished(file')))
            && Finished(file') == Finished(file) + (Unfinished(file) + line + "\n") + Finished(p)
            && Unfinished(file') == Unfinished(p)
  {
    hide Replay, Lines, LineCommand, Clean, OneLine, AllBlank;
    var done, whole := Finished(file), Unfinished(file) + line;
    BothOneLine(Unfinished(file), line);
    EndsInBreak(done, whole);
    var next := done + (whole + "\n");
    assert file + (line + "\n" + p) == next + Finished(p) + Unfinished(p);
    CleanBoth(next, Finished(p));
    FinishedIs(file + (line + "\n" + p), next + Finished(p), Unfinished(p));
    Continued(m, next, Finished(p));
    Continued(m, done, whole + "\n");
    ReplayLine(Replay(m, Lines(done)), whole, "");
    Blanks(Replay(m, Lines(next)), p);
  }

  lemma CleanBoth(a: string, b: string)
    requires Clean(a) && Clean(b)
    ensures Clean(a + b)
  {
  }

  // ----- appending a part of an entry -----

  /** An entry is a line that means what it does, a break, and blanks. */
  lemma EntryShape(op: string, body: string) returns (first: string, blanks: string)
    requires Entry(op, body)
    ensures op + " " + body + "\n" == first + "\n" + blanks && first == op + " " + Head(body)
    ensures OneLine(first) && AllBlank(blanks) && LineCommand(first) == Understood(op, body)
  {
    hide Understood, LineCommand, OneLine, Head, Tail;
    HeadMeans(op, body);
    HasBreak(body);
    first, blanks := op + " " + Head(body), "";
    if !OneLine(body) {
      Splits(body);
      TailBlank(op, body);
      blanks := Tail(body) + "\n";
    }
  }

  lemma {:induction false} PartShape(first: string, blanks: string, part: string) returns (p: string)
    requires part <= first + "\n" + blanks && OneLine(first) && AllBlank(blanks)
    ensures OneLine(part) ==> part <= first
    ensures !OneLine(part) ==> part == first + "\n" + p && AllBlank(p)
  {
    p := "";
    var whole := first + "\n" + blanks;
    assert part == whole[..|part|];
    if |part| <= |first| {
      assert part == first[..|part|];
    } else {
      p := part[|first| + 1..];
      assert part[|first|] == '\n' && part[|first|] in part;
      assert p == blanks[..|p|];
      BlankRest(blanks, |p|);
    }
  }

  /** A front part of an entry behind a file. It completes a line that does what the entry does if the
      file was clean, and nothing otherwise; or it leaves an unfinished line. */
  lemma PartAppended(m: Contents, file: string, op: string, body: string, part: string)
    requires Entry(op, body) && part <= op + " " + body + "\n"
    ensures var done, file' := Replay(m, Lines(Finished(file))), file + part;
            if !OneLine(part) then
              && Replay(m, Lines(Finished(file'))) == Maybe(done, if Clean(file) then Understood(op, body) else None)
              && Idle(LineCommand(Unfinished(file')))
            else
              && Replay(m, Lines(Finished(file'))) == done
              && Unfinished(file') == Unfinished(file) + part
              && (part != "" && !Clean(file) ==> LineCommand(Unfinished(file')) == None)
              && (LineCommand(part) == None || LineCommand(part) == Understood(op, body))
  {
    hide Replay, Lines, LineCommand, Understood, OneLine, Clean, AllBlank, IsWriteOp, Maybe, Head;
    var first, blanks := EntryShape(op, body);
    var p := PartShape(first, blanks, part);
    if OneLine(part) {
      SameLine(file, part);
      TornLine(op, Head(body), part);
      if part != "" && !Clean(file) { GluedLine(Unfinished(file), op, Head(body), part); }
    } else {
      LineCompleted(m, file, first, p);
      if Clean(file) {
        assert Unfinished(file) + first == first;
      } else {
        GluedLine(Unfinished(file), op, Head(body), first);
      }
    }
  }

  // ----- the pieces of a file -----

  /** An event, and what of its entry has come into the file: all, nothing or some front part. */
  datatype Piece = Piece(event: Event, part: string)

  ghost predicate FrontOfEntry(p: Piece) {
    p.part == "" || exists op, body :: IsEntryOf(op, body, p.event) && p.part <= op + " " + body + "\n"
  }

  predicate IsEntryOf(op: string, body: string, e: Event) { Entry(op, body) && Understood(op, body) == Meaning(e) }

  ghost predicate AllFronts(pieces: seq<Piece>) { forall i :: 0 <= i < |pieces| ==> FrontOfEntry(pieces[i]) }

  function FileOf(pieces: seq<Piece>): string {
    if pieces == [] then "" else FileOf(pieces[..|pieces| - 1]) + pieces[|pieces| - 1].part
  }

  /** Whether the event of a piece is there after a load: its part of the entry starts on a line of its
      own, and it has that line complete, or is the last of the file and a request as it stands. */
  predicate Survives(pieces: seq<Piece>, i: nat)
    requires i < |pieces|
  {
    && Clean(FileOf(pieces[..i]))
    && (!OneLine(pieces[i].part)
        || (LineCommand(pieces[i].part).Some? && forall j :: i < j < |pieces| ==> pieces[j].part == ""))
  }

  function SurvivorsOf(pieces: seq<Piece>, n: nat): seq<Event>
    requires n <= |pieces|
  {
    if n == 0 then []
    else SurvivorsOf(pieces, n - 1) + if Survives(pieces, n - 1) then [pieces[n - 1].event] else []
  }

  /** The events that survive, in their order. */
  function Survivors(pieces: seq<Piece>): seq<Event> { SurvivorsOf(pieces, |pieces|) }

  // ----- the same, piece by piece -----

  /** The events with finished lines, and the event whose unfinished line is a request as it stands. */
  function Kept(pieces: seq<Piece>): seq<Event> {
    if pieces == [] then []
    else
      var front, last := pieces[..|pieces| - 1], pieces[|pieces| - 1];
      Kept(front) + if Clean(FileOf(front)) && !OneLine(last.part) then [last.event] else []
  }

  function Pending(pieces: seq<Piece>): seq<Event> {
    if pieces == [] then []
    else
      var front, last := pieces[..|pieces| - 1], pieces[|pieces| - 1];
      if last.part == "" then Pending(front)
      else if Clean(FileOf(front)) && OneLine(last.part) && LineCommand(last.part).Some? then [last.event]
      else []
  }

  ghost predicate Describes(pieces: seq<Piece>, m: Contents) {
    var file := FileOf(pieces);
    && Replay(m, Lines(Finished(file))) == AllHappened(m, Kept(pieces))
    && (if Pending(pieces) == [] then Idle(LineCommand(Unfinished(file)))
        else |Pending(pieces)| == 1 && LineCommand(Unfinished(file)) == Meaning(Pending(pieces)[0]))
  }

  lemma {:induction false} InTwo(m: Contents, a: seq<Event>, b: seq<Event>)
    ensures AllHappened(m, a + b) == AllHappened(AllHappened(m, a), b)
    decreases |a|
  {
    hide Happened;
    if a == [] {
      assert a + b == b;
    } else {
      assert (a + b)[1..] == a[1..] + b;
      InTwo(Happened(m, a[0]), a[1..], b);
    }
  }

  lemma OneHappened(m: Contents, e: Event)
    ensures AllHappened(m, [e]) == Maybe(m, Meaning(e)) && AllHappened(m, []) == m
  {
    assert [e][1..] == [];
    assert AllHappened(Happened(m, e), []) == Happened(m, e);
  }

  lemma NoPieces(m: Contents)
    ensures Describes([], m)
  {
    hide LineCommand;
    assert Finished("") == "" && Unfinished("") == "";
    NoCommand();
  }

  lemma OnePiece(front: seq<Piece>, p: Piece, m: Contents)
    requires Describes(front, m) && FrontOfEntry(p)
    ensures Describes(front + [p], m)
  {
    hide Replay, Lines, LineCommand, Understood, OneLine, Clean, Finished, AllHappened, Entry, Meaning;
    var pieces := front + [p];
    var file, file' := FileOf(front), FileOf(pieces);
    assert pieces[..|front|] == front && file' == file + p.part;
    assert Kept(front) + [] == Kept(front);
    if p.part == "" {
      assert file' == file;
      EmptyPart();
    } else {
      var op, body :| IsEntryOf(op, body, p.event) && p.part <= op + " " + body + "\n";
      PartAppended(m, file, op, body, p.part);
      InTwo(m, Kept(front), [p.event]);
      OneHappened(AllHappened(m, Kept(front)), p.event);
      OneHappened(AllHappened(m, Kept(front)), p.event);
      if OneLine(p.part) && Clean(file) { assert Unfinished(file) + p.part == p.part; }
    }
  }

  lemma EmptyPart()
    ensures OneLine("") && LineCommand("") == None
  {
  }

  lemma {:induction false} PiecesDescribed(pieces: seq<Piece>, m: Contents)
    requires AllFronts(pieces)
    ensures Describes(pieces, m)
  {
    hide Describes, FrontOfEntry;
    if pieces == [] {
      NoPieces(m);
    } else {
      var front := pieces[..|pieces| - 1];
      PiecesDescribed(front, m);
      OnePiece(front, pieces[|pieces| - 1], m);
      assert front + [pieces[|pieces| - 1]] == pieces;
    }
  }

  // ----- what a load finds -----

  lemma {:induction false} FinishedOnly(pieces: seq<Piece>, n: nat, later: nat)
    requires n <= later < |pieces| && pieces[later].part != ""
    ensures SurvivorsOf(pieces, n) == Kept(pieces[..n])
  {
    hide LineCommand, Clean, OneLine;
    if n > 0 {
      FinishedOnly(pieces, n - 1, later);
      assert pieces[..n][..n - 1] == pieces[..n - 1] && pieces[..n][n - 1] == pieces[n - 1];
    }
  }

  lemma {:induction false} NothingMore(front: seq<Piece>, p: Piece, n: nat)
    requires n <= |front| && p.part == ""
    ensures SurvivorsOf(front + [p], n) == SurvivorsOf(front, n)
  {
    hide LineCommand, Clean, OneLine, FileOf;
    if n > 0 {
      NothingMore(front, p, n - 1);
      var pieces := front + [p];
      assert pieces[..n - 1] == front[..n - 1] && pieces[n - 1] == front[n - 1];
      assert Survives(pieces, n - 1) <==> Survives(front, n - 1) by {
        assert forall j :: n - 1 < j < |front| ==> pieces[j] == front[j];
        assert pieces[|front|].part == "";
      }
    }
  }

  lemma {:induction false} SurvivorsAre(pieces: seq<Piece>)
    ensures Survivors(pieces) == Kept(pieces) + Pending(pieces)
  {
    hide LineCommand, Clean, OneLine, FileOf;
    if pieces != [] {
      var n := |pieces| - 1;
      var front, p := pieces[..n], pieces[n];
      assert front + [p] == pieces;
      if p.part == "" {
        SurvivorsAre(front);
        NothingMore(front, p, n);
        EmptyPart();
        assert Kept(front) + [] == Kept(front) && Survivors(front) + [] == Survivors(front);
      } else {
        FinishedOnly(pieces, n, n);
        assert Survives(pieces, n) <==> Clean(FileOf(front)) && (!OneLine(p.part) || LineCommand(p.part).Some?);
      }
    }
  }

  /** Loading a file that holds of every entry some front part does exactly the events that survive. */
  lemma FileRecovers(pieces: seq<Piece>, m: Contents)
    requires AllFronts(pieces)
    ensures Replay(m, Lines(FileOf(pieces))) == AllHappened(m, Survivors(pieces))
  {
    hide Replay, Lines, LineCommand, AllHappened, Finished, Survivors, Kept, Pending, FileOf, AllFronts, Meaning;
    PiecesDescribed(pieces, m);
    SurvivorsAre(pieces);
    ReplayFile(m, FileOf(pieces));
    var done, last := AllHappened(m, Kept(pieces)), Pending(pieces);
    InTwo(m, Kept(pieces), last);
    if last == [] {
      IdleStays(done, LineCommand(Unfinished(FileOf(pieces))));
      assert Kept(pieces) + [] == Kept(pieces);
    } else {
      assert last == [last[0]];
      OneHappened(done, last[0]);
    }
  }

  // ----- no deadlines in it -----

  ghost predicate NoDeadlines(file: string) { AllNoTtl(Finished(file)) && NoTtl(LineCommand(Unfinished(file))) }

  lemma NoDeadlinesFile(file: string)
    requires NoDeadlines(file)
    ensures AllNoTtl(file)
  {
    hide AllNoTtl, LineCommand, NoTtl, Clean, OneLine;
    NothingNoTtl();
    LineNoTtl(Unfinished(file), "");
    NoTtlJoin(Finished(file), Unfinished(file));
  }

  lemma IdleNoTtl(c: Option<Command>)
    requires Idle(c)
    ensures NoTtl(c)
  {
  }

  lemma NoDeadlinesPart(file: string, op: string, body: string, part: string)
    requires Entry(op, body) && part <= op + " " + body + "\n" && NoDeadlines(file) && NoTtl(Understood(op, body))
    ensures NoDeadlines(file + part)
  {
    hide AllNoTtl, LineCommand, NoTtl, Understood, OneLine, Clean, AllBlank, IsWriteOp, Head, Finished;
    PartAppended(map[], file, op, body, part);
    var first, blanks := EntryShape(op, body);
    var p := PartShape(first, blanks, part);
    IdleNoTtl(None);
    if OneLine(part) {
      SameLine(file, part);
      if part == "" {
        assert file + part == file;
      } else if Clean(file) {
        assert Unfinished(file) + part == part;
      }
    } else {
      LineCompleted(map[], file, first, p);
      var whole := Unfinished(file) + first;
      BothOneLine(Unfinished(file), first);
      assert NoTtl(LineCommand(whole)) by {
        if Clean(file) { assert whole == first; } else { GluedLine(Unfinished(file), op, Head(body), first); }
      }
      NoDeadlinesLine(Finished(file), whole, p);
      Blanks(map[], p);
      IdleNoTtl(LineCommand(Unfinished(p)));
    }
  }

  lemma NoDeadlinesLine(done: string, whole: string, p: string)
    requires AllNoTtl(done) && Clean(done) && OneLine(whole) && NoTtl(LineCommand(whole)) && AllBlank(p)
    ensures AllNoTtl(done + (whole + "\n") + Finished(p))
  {
    hide AllNoTtl, LineCommand, NoTtl, Clean, OneLine, AllBlank, Finished;
    NothingNoTtl();
    LineNoTtl(whole, "");
    assert whole + "\n" + "" == whole + "\n";
    NoTtlJoin(done, whole + "\n");
    EndsInBreak(done, whole);
    assert p[..|Finished(p)|] == Finished(p);
    BlankRest(p, |Finished(p)|);
    BlankNoTtl(Finished(p), "");
    NoTtlJoin(done + (whole + "\n"), Finished(p));
  }

  lemma {:induction false} NoDeadlinesIn(pieces: seq<Piece>)
    requires AllFronts(pieces) && forall i :: 0 <= i < |pieces| ==> NoTtl(Meaning(pieces[i].event))
    ensures NoDeadlines(FileOf(pieces))
  {
    hide NoDeadlines, NoTtl, Meaning, Entry, Understood;
    if pieces == [] {
      NoDeadlinesYet();
    } else {
      var front, p := pieces[..|pieces| - 1], pieces[|pieces| - 1];
      NoDeadlinesIn(front);
      assert FrontOfEntry(p);
      if p.part == "" {
        assert FileOf(front) + p.part == FileOf(front);
      } else {
        var op, body :| IsEntryOf(op, body, p.event) && p.part <= op + " " + body + "\n";
        NoDeadlinesPart(FileOf(front), op, body, p.part);
      }
    }
  }

  lemma NoDeadlinesYet()
    ensures NoDeadlines("")
  {
    hide AllNoTtl, LineCommand;
    NothingNoTtl();
    EmptyPart();
    assert Finished("") == "" && Unfinished("") == "";
  }

  // ----- cutting a file -----

  /** How much of a part is within the first n characters, when so many come before it. */
  function Within(part: string, before: nat, n: nat): string {
    if n <= before then "" else if n - before <= |part| then part[..n - before] else part
  }

  function Leading(file: string, n: nat): string { if n <= |file| then file[..n] else file }

  lemma LeadingBoth(file: string, part: string, n: nat)
    ensures Leading(file + part, n) == Leading(file, n) + Within(part, |file|, n) && Within(part, |file|, n) <= part
  {
  }

  /** The pieces of the first n characters. */
  function CutAt(pieces: seq<Piece>, n: nat): (r: seq<Piece>)
    ensures |r| == |pieces|
  {
    if pieces == [] then []
    else
      var front, last := pieces[..|pieces| - 1], pieces[|pieces| - 1];
      CutAt(front, n) + [Piece(last.event, Within(last.part, |FileOf(front)|, n))]
  }

  lemma {:induction false} CutPieces(pieces: seq<Piece>, n: nat)
    ensures FileOf(CutAt(pieces, n)) == Leading(FileOf(pieces), n)
    ensures forall i :: 0 <= i < |pieces| ==>
              CutAt(pieces, n)[i].event == pieces[i].event && CutAt(pieces, n)[i].part <= pieces[i].part
    decreases |pieces|
  {
    hide Within, Leading;
    if pieces == [] {
      NothingCut(n);
    } else {
      var front, last := pieces[..|pieces| - 1], pieces[|pieces| - 1];
      CutPieces(front, n);
      LeadingBoth(FileOf(front), last.part, n);
      assert CutAt(pieces, n)[..|front|] == CutAt(front, n);
    }
  }

  lemma NothingCut(n: nat)
    ensures Leading("", n) == ""
  {
  }

  lemma {:induction false} FileJoin(a: seq<Piece>, b: seq<Piece>)
    ensures FileOf(a + b) == FileOf(a) + FileOf(b)
    decreases |b|
  {
    if b == [] {
      assert a + b == a;
    } else {
      var front, last := b[..|b| - 1], b[|b| - 1];
      assert (a + b)[..|a + b| - 1] == a + front && (a + b)[|a + b| - 1] == last;
      FileJoin(a, front);
      Regroup(FileOf(a), FileOf(front), last.part);
    }
  }
}
