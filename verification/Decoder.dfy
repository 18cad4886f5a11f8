/** The incremental frame decoder: bytes arrive in arbitrary chunks, complete frames come out.
    Consumed bytes stay in the buffer until it is empty or more than 64 KiB of it is consumed. */
module Decoders {
  import opened Options
  import opened Sequences
  import opened Wire

  const BUFFER_LIMIT := 16 * 1024 * 1024
  const COMPACT_AFTER := 65536

  /** The decoder's two fields; bytes before `offset` are already consumed. */
  datatype State = State(buffer: bytes, offset: nat) {
    function Pending(): bytes
      requires offset <= |buffer|
    {
      buffer[offset..]
    }

    /** What every successful push leaves behind. */
    predicate Settled() {
      offset <= |buffer| && offset <= COMPACT_AFTER && (offset > 0 ==> offset < |buffer|)
    }
  }

  const NEW := State([], 0)

  function Compact(st: State): (r: State)
    requires st.offset <= |st.buffer|
    ensures r.Settled() && r.Pending() == st.Pending()
  {
    if st.offset > 0 && st.offset == |st.buffer| then NEW
    else if st.offset > COMPACT_AFTER then State(st.buffer[st.offset..], 0)
    else st
  }

  datatype Pushed = Pushed(state: State, frames: seq<Frame>, error: Option<WireError>)

  /** What one push does, told through the one-shot parse of everything unconsumed. */
  function PushStep(st: State, incoming: bytes): (r: Pushed)
    requires st.offset <= |st.buffer|
    ensures r.state.offset <= |r.state.buffer|
    ensures r.error.None? ==> r.state.Settled()
  {
    if |st.buffer| + |incoming| > BUFFER_LIMIT then Pushed(st, [], Some(BufferFull))
    else
      var p := Parse(st.Pending() + incoming);
      var full := State(st.buffer + incoming, st.offset + p.used);
      Pushed(if p.error.None? then Compact(full) else full, p.frames, p.error)
  }

  /** A parse continued after some frames and bytes are already taken. */
  function After(frames: seq<Frame>, taken: nat, p: Parsed): Parsed {
    Parsed(frames + p.frames, taken + p.used, p.error)
  }

  lemma AfterNone(p: Parsed)
    ensures After([], 0, p) == p
  {
  }

  lemma AfterNext(frames: seq<Frame>, taken: nat, s: bytes)
    ensures var all, r := After(frames, taken, Parse(s)), First(s);
            && (r.NeedMore? ==> all == Parsed(frames, taken, None))
            && (r.Bad? ==> all == Parsed(frames, taken, Some(r.error)))
            && (r.Got? ==> all == After(frames + [r.frame], taken + r.used, Parse(s[r.used..])))
  {
    hide First;
  }

  class Decoder {
    var buffer: bytes
    var readOffset: nat

    ghost function St(): State
      reads this
    {
      State(buffer, readOffset)
    }

    constructor ()
      ensures St() == NEW
    {
      buffer, readOffset := [], 0;
    }

    method Push(incoming: bytes) returns (frames: seq<Frame>, error: Option<WireError>)
      requires readOffset <= |buffer|
      modifies this
      ensures Pushed(St(), frames, error) == PushStep(old(St()), incoming)
    {
      hide First, Parse;
      if |buffer| + |incoming| > BUFFER_LIMIT {
        return [], Some(BufferFull);
      }
      ghost var whole := buffer[readOffset..] + incoming;
      buffer := buffer + incoming;
      assert buffer[readOffset..] == whole;
      frames, error := TakeFrames();
      if error.Some? { return; }
      if readOffset > 0 {
        if readOffset == |buffer| {
          buffer, readOffset := [], 0;
        } else if readOffset > COMPACT_AFTER {
          buffer, readOffset := buffer[readOffset..], 0;
        }
      }
    }

    /** The parsing loop: take frames off the front until one is incomplete or bad. */
    method TakeFrames() returns (frames: seq<Frame>, error: Option<WireError>)
      requires readOffset <= |buffer|
      modifies this`readOffset
      ensures old(readOffset) <= readOffset <= |buffer|
      ensures Parse(old(buffer[readOffset..])) == Parsed(frames, readOffset - old(readOffset), error)
    {
      hide First, Parse, After;
      frames := [];
      ghost var whole := Parse(buffer[readOffset..]);
      AfterNone(whole);
      while true
        invariant old(readOffset) <= readOffset <= |buffer|
        invariant whole == After(frames, readOffset - old(readOffset), Parse(buffer[readOffset..]))
        decreases |buffer| - readOffset
      {
        AfterNext(frames, readOffset - old(readOffset), buffer[readOffset..]);
        match First(buffer[readOffset..]) {
          case NeedMore => return frames, None;
          case Bad(e) => return frames, Some(e);
          case Got(frame, used) =>
            assert buffer[readOffset..][used..] == buffer[readOffset + used..];
            frames := frames + [frame];
            readOffset := readOffset + used;
        }
      }
    }
  }

  // ----- whole runs -----

  /** Between pushes no complete frame is waiting. */
  predicate Idle(st: State) {
    st.Settled() && First(st.Pending()).NeedMore?
  }

  lemma {:induction false} ParseStops(s: bytes)
    ensures Parse(s).error.None? ==> First(s[Parse(s).used..]).NeedMore?
    decreases |s|
  {
    hide First;
    if First(s).Got? {
      var n := First(s).used;
      ParseStops(s[n..]);
      assert s[n..][Parse(s[n..]).used..] == s[Parse(s).used..];
    } else {
      assert s[0..] == s;
    }
  }

  lemma TailOfTail(a: bytes, b: bytes, m: nat, n: nat)
    requires m <= |a| && n <= |a| - m + |b|
    ensures (a + b)[m + n..] == (a[m..] + b)[n..]
  {
    assert a + b == a[..m] + (a[m..] + b);
  }

  lemma PushLeavesIdle(st: State, incoming: bytes)
    requires st.Settled() && PushStep(st, incoming).error.None?
    ensures Idle(PushStep(st, incoming).state)
    ensures var all := st.Pending() + incoming; PushStep(st, incoming).state.Pending() == all[Parse(all).used..]
  {
    hide First, Parse, Compact;
    var all := st.Pending() + incoming;
    ParseStops(all);
    TailOfTail(st.buffer, incoming, st.offset, Parse(all).used);
  }

  /** Push chunk after chunk, stopping at the first failure. */
  function PushAll(st: State, chunks: seq<bytes>): (r: Pushed)
    requires st.Settled()
    ensures r.state.offset <= |r.state.buffer|
    ensures r.error.None? ==> r.state.Settled()
    decreases |chunks|
  {
    if chunks == [] then Pushed(st, [], None)
    else
      var first := PushStep(st, chunks[0]);
      if first.error.Some? then first
      else
        var rest := PushAll(first.state, chunks[1..]);
        rest.(frames := first.frames + rest.frames)
  }

  lemma IdleParses(st: State)
    requires Idle(st)
    ensures Parse(st.Pending()) == Parsed([], 0, None)
  {
  }

  /** The state and the frames are what the one-shot parse of the bytes leaves and finds. */
  ghost predicate Decodes(r: Pushed, bytes: bytes) {
    && Parse(bytes).frames == r.frames && Parse(bytes).error == r.error
    && (r.error.None? ==> Idle(r.state) && r.state.Pending() == bytes[Parse(bytes).used..])
  }

  lemma PushDecodes(st: State, incoming: bytes)
    requires st.Settled() && PushStep(st, incoming).error != Some(BufferFull)
    ensures Decodes(PushStep(st, incoming), st.Pending() + incoming)
  {
    hide First, Parse;
    if PushStep(st, incoming).error.None? { PushLeavesIdle(st, incoming); }
  }

  lemma DecodesInTwo(first: Pushed, rest: Pushed, here: bytes, later: bytes)
    requires Decodes(first, here) && first.error.None? && Decodes(rest, first.state.Pending() + later)
    ensures Decodes(rest.(frames := first.frames + rest.frames), here + later)
  {
    hide Parse, Idle;
    ParseInTwo(here, later);
    var p := Parse(here);
    TailOfTail(here, later, p.used, Parse(here[p.used..] + later).used);
  }

  lemma FailsAtOnce(first: Pushed, here: bytes, later: bytes)
    requires Decodes(first, here) && first.error.Some?
    ensures Decodes(first, here + later)
  {
    hide Parse, Idle;
    ParseInTwo(here, later);
  }

  lemma PushNone(st: State)
    requires Idle(st)
    ensures PushAll(st, []) == Pushed(st, [], None) && st.Pending() + Concat([]) == st.Pending()
    ensures Decodes(PushAll(st, []), st.Pending())
  {
    hide First;
    IdleParses(st);
    assert st.Pending()[0..] == st.Pending();
  }

  lemma PushFirst(st: State, chunks: seq<bytes>)
    requires st.Settled() && chunks != []
    ensures var first := PushStep(st, chunks[0]);
            && (first.error.Some? ==> PushAll(st, chunks) == first)
            && (first.error.None? ==> var rest := PushAll(first.state, chunks[1..]);
                                      PushAll(st, chunks) == rest.(frames := first.frames + rest.frames))
    ensures st.Pending() + Concat(chunks) == st.Pending() + chunks[0] + Concat(chunks[1..])
  {
    hide PushStep;
    Regroup(st.Pending(), chunks[0], Concat(chunks[1..]));
  }

  /** However the bytes are cut into chunks: if no push fails, the frames are those of the one-shot
      parse of all bytes and the decoder retains exactly the unparsed suffix; and a push that fails
      for anything but a full buffer fails with the error of the one-shot parse, after its frames. */
  lemma {:induction false} ChunkIndependence(st: State, chunks: seq<bytes>)
    requires Idle(st) && PushAll(st, chunks).error != Some(BufferFull)
    ensures Decodes(PushAll(st, chunks), st.Pending() + Concat(chunks))
    decreases |chunks|
  {
    hide First, Parse, PushStep, PushAll, Concat;
    if chunks == [] {
      PushNone(st);
    } else {
      PushFirst(st, chunks);
      PushDecodes(st, chunks[0]);
      var first, here, later := PushStep(st, chunks[0]), st.Pending() + chunks[0], Concat(chunks[1..]);
      if first.error.None? {
        ChunkIndependence(first.state, chunks[1..]);
        DecodesInTwo(first, PushAll(first.state, chunks[1..]), here, later);
      } else {
        FailsAtOnce(first, here, later);
      }
    }
  }

  /** Two ways of cutting the same bytes, neither filling the buffer, decode alike. */
  lemma AnyTwoChunkings(left: seq<bytes>, right: seq<bytes>)
    requires Concat(left) == Concat(right)
    requires PushAll(NEW, left).error != Some(BufferFull) && PushAll(NEW, right).error != Some(BufferFull)
    ensures PushAll(NEW, left).frames == PushAll(NEW, right).frames
    ensures PushAll(NEW, left).error == PushAll(NEW, right).error
    ensures PushAll(NEW, left).error.None? ==>
              PushAll(NEW, left).state.Pending() == PushAll(NEW, right).state.Pending()
  {
    hide Parse, PushAll, Concat;
    ChunkIndependence(NEW, left);
    ChunkIndependence(NEW, right);
  }

  /** A push is refused exactly when the bytes in the buffer, consumed ones included, and the new ones
      exceed the limit. So the limit is the one on unconsumed bytes exactly for pushes that the
      consumed ones, of which there are at most 64 KiB, make no difference to. */
  lemma BufferFullIff(st: State, incoming: bytes)
    requires Idle(st)
    ensures st.offset <= COMPACT_AFTER
    ensures PushStep(st, incoming).error == Some(BufferFull) <==> st.offset + |st.Pending()| + |incoming| > BUFFER_LIMIT
    ensures var waiting := |st.Pending()| + |incoming|;
            (PushStep(st, incoming).error == Some(BufferFull) <==> waiting > BUFFER_LIMIT)
            <==> !(BUFFER_LIMIT - st.offset < waiting <= BUFFER_LIMIT)
  {
    hide First;
    ParseNeverFull(st.Pending() + incoming);
  }

  /** One frame without payload and a byte, then as many bytes as the limit leaves room for besides
      that byte: refused, although the decoder holds just the one byte back. */
  lemma RefusedEarly(f: Frame, incoming: bytes)
    requires WellFormed(f) && f.payload == [] && |incoming| == BUFFER_LIMIT - 1
    ensures var first := PushStep(NEW, EncodeFrame(f.header, []) + [0]);
            && first.error.None? && first.frames == [f] && first.state.Pending() == [0]
            && |first.state.Pending()| + |incoming| == BUFFER_LIMIT
            && PushStep(first.state, incoming).error == Some(BufferFull)
  {
    hide First;
    var whole := EncodeFrame(f.header, []);
    assert NEW.Pending() + (whole + [0]) == whole + [0] && NEW.buffer + (whole + [0]) == whole + [0];
    assert Stream([f]) == whole + Stream([f][1..]) == whole;
    StreamRoundTrip([f]);
    ParseInTwo(whole, [0]);
    assert whole[|whole|..] + [0] == [0];
    ShortParses([0]);
    assert (whole + [0])[HEADER_SIZE..] == [0];
  }

  lemma ShortParses(s: bytes)
    requires |s| < HEADER_SIZE
    ensures Parse(s) == Parsed([], 0, None)
  {
  }

  lemma {:induction false} ParseNeverFull(s: bytes)
    ensures Parse(s).error != Some(BufferFull)
    decreases |s|
  {
    if First(s).Got? { ParseNeverFull(s[First(s).used..]); }
  }

  // ----- decoding what was encoded -----

  /** Frames sent over the wire, cut anyhow, come out as they went in. */
  lemma DecodeEncoded(frames: seq<Frame>, chunks: seq<bytes>)
    requires forall i :: 0 <= i < |frames| ==> WellFormed(frames[i])
    requires Concat(chunks) == Stream(frames) && PushAll(NEW, chunks).error != Some(BufferFull)
    ensures PushAll(NEW, chunks).error.None? && PushAll(NEW, chunks).frames == frames
    ensures PushAll(NEW, chunks).state.Pending() == []
  {
    hide Parse, PushAll, Concat, Stream;
    ChunkIndependence(NEW, chunks);
    assert NEW.Pending() + Concat(chunks) == Stream(frames);
    StreamRoundTrip(frames);
  }

  lemma PartOfFrame(f: Frame, part: bytes)
    requires WellFormed(f) && part < EncodeFrame(f.header, f.payload)
    ensures Parse(part) == Parsed([], 0, None)
  {
    if |part| >= HEADER_SIZE {
      var whole := EncodeFrame(f.header, f.payload);
      Widths();
      HeaderRoundTrip(f.header, f.payload, []);
      assert whole + [] == whole;
      assert part[0..2] == whole[0..2] && part[5..8] == whole[5..8] && part[8..16] == whole[8..16];
      assert part[16..20] == whole[16..20] && part[20..24] == whole[20..24];
      assert ReadHeader(part) == f.header;
    }
  }

  lemma {:induction false} OneFrameFrom(f: Frame, done: bytes, chunks: seq<bytes>)
    requires WellFormed(f) && done < EncodeFrame(f.header, f.payload) && |done| <= BUFFER_LIMIT
    requires done + Concat(chunks) == EncodeFrame(f.header, f.payload)
    ensures PushAll(State(done, 0), chunks).error ==
              if HEADER_SIZE + |f.payload| <= BUFFER_LIMIT then None else Some(BufferFull)
    decreases |chunks|
  {
    hide First, EncodeFrame, PushAll, WellFormed, Compact;
    var whole := EncodeFrame(f.header, f.payload);
    assert |whole| == HEADER_SIZE + |f.payload| by { FrameLength(f); }
    if chunks != [] {
      var st, c, later := State(done, 0), chunks[0], Concat(chunks[1..]);
      PushFirst(st, chunks);
      assert st.Pending() == done;
      assert |whole| == |done| + |c| + |later|;
      if |done| + |c| <= BUFFER_LIMIT {
        if |done| + |c| < |whole| {
          assert done + c < whole;
          PushPart(f, done, c);
          OneFrameFrom(f, done + c, chunks[1..]);
        } else {
          assert later == [] && done + c == whole;
          PushEnd(f, done, c);
          EmptyChunks(chunks[1..]);
        }
      }
    }
  }

  lemma FrameLength(f: Frame)
    requires WellFormed(f)
    ensures |EncodeFrame(f.header, f.payload)| == HEADER_SIZE + |f.payload|
    ensures Stream([f]) == EncodeFrame(f.header, f.payload)
  {
    Widths();
    assert [f][1..] == [];
  }

  lemma PushPart(f: Frame, done: bytes, c: bytes)
    requires WellFormed(f) && done + c < EncodeFrame(f.header, f.payload) && |done| + |c| <= BUFFER_LIMIT
    ensures PushStep(State(done, 0), c) == Pushed(State(done + c, 0), [], None)
  {
    hide Parse;
    assert State(done, 0).Pending() == done;
    PartOfFrame(f, done + c);
  }

  lemma PushEnd(f: Frame, done: bytes, c: bytes)
    requires WellFormed(f) && done + c == EncodeFrame(f.header, f.payload) && |done| + |c| <= BUFFER_LIMIT
    ensures PushStep(State(done, 0), c) == Pushed(NEW, [f], None)
  {
    hide Parse, EncodeFrame, Stream;
    assert State(done, 0).Pending() == done;
    FrameLength(f);
    StreamRoundTrip([f]);
  }

  lemma {:induction false} EmptyChunks(chunks: seq<bytes>)
    requires Concat(chunks) == []
    ensures PushAll(NEW, chunks) == Pushed(NEW, [], None)
    decreases |chunks|
  {
    if chunks != [] {
      assert NEW.Pending() + chunks[0] == [] && First([]).NeedMore?;
      EmptyChunks(chunks[1..]);
    }
  }

  /** A frame can be decoded by a new decoder exactly when header and payload together fit the
      buffer: the longest payloads the header check admits never get through, however cut. */
  lemma DecodableIff(f: Frame, chunks: seq<bytes>)
    requires WellFormed(f) && Concat(chunks) == EncodeFrame(f.header, f.payload)
    ensures PushAll(NEW, chunks).error.None? <==> HEADER_SIZE + |f.payload| <= BUFFER_LIMIT
    ensures PushAll(NEW, chunks).error.None? ==> PushAll(NEW, chunks).frames == [f]
  {
    var whole := EncodeFrame(f.header, f.payload);
    assert [] + Concat(chunks) == whole;
    OneFrameFrom(f, [], chunks);
    if PushAll(NEW, chunks).error.None? {
      assert Stream([f]) == whole + Stream([f][1..]) == whole;
      DecodeEncoded([f], chunks);
    }
  }

  // ----- when no push is refused -----

  predicate Small(f: Frame, most: nat) { WellFormed(f) && HEADER_SIZE + |f.payload| <= most }

  /** Of the beginning of a stream of small frames less than one frame is ever held back. */
  lemma {:induction false} HeldBack(frames: seq<Frame>, seen: bytes, most: nat)
    requires most > 0 && seen <= Stream(frames) && forall i :: 0 <= i < |frames| ==> Small(frames[i], most)
    ensures Parse(seen).error.None? && |seen| - Parse(seen).used < most
    decreases |frames|
  {
    hide First, WellFormed;
    if frames == [] {
      ShortParses(seen);
    } else {
      var f := frames[0];
      var whole := EncodeFrame(f.header, f.payload);
      assert Small(f, most);
      if |seen| < |whole| {
        assert seen == whole[..|seen|];
        PartOfFrame(f, seen);
      } else {
        var rest := seen[|whole|..];
        assert seen == whole + rest && rest <= Stream(frames[1..]);
        HeldBack(frames[1..], rest, most);
        assert Stream([f]) == whole + Stream([f][1..]) == whole;
        StreamRoundTrip([f]);
        ParseInTwo(whole, rest);
        assert whole[|whole|..] + rest == rest;
      }
    }
  }

  lemma {:induction false} NeverRefusedFrom(frames: seq<Frame>, st: State, seen: bytes, chunks: seq<bytes>, most: nat,
                                            chunk: nat)
    requires most > 0 && most + chunk + COMPACT_AFTER <= BUFFER_LIMIT
    requires forall i :: 0 <= i < |frames| ==> Small(frames[i], most)
    requires forall i :: 0 <= i < |chunks| ==> |chunks[i]| <= chunk
    requires Idle(st) && seen + Concat(chunks) <= Stream(frames) && st.Pending() == seen[Parse(seen).used..]
    ensures PushAll(st, chunks).error.None?
    decreases |chunks|
  {
    hide First, Parse, Small, PushStep;
    if chunks != [] {
      var next, later := seen + chunks[0], Concat(chunks[1..]);
      assert seen + (chunks[0] + later) == next + later;
      assert seen <= Stream(frames) && next <= Stream(frames);
      HeldBack(frames, seen, most);
      HeldBack(frames, next, most);
      Accepted(st, seen, chunks[0]);
      NeverRefusedFrom(frames, PushStep(st, chunks[0]).state, next, chunks[1..], most, chunk);
    }
  }

  /** A chunk that continues well and leaves room is taken in. */
  lemma Accepted(st: State, seen: bytes, incoming: bytes)
    requires Idle(st) && st.Pending() == seen[Parse(seen).used..] && Parse(seen).error.None?
    requires Parse(seen + incoming).error.None? && |st.Pending()| + |incoming| + COMPACT_AFTER <= BUFFER_LIMIT
    ensures var r := PushStep(st, incoming);
            r.error.None? && Idle(r.state) && r.state.Pending() == (seen + incoming)[Parse(seen + incoming).used..]
  {
    hide First, Parse, PushStep;
    BufferFullIff(st, incoming);
    ParseInTwo(seen, incoming);
    PushDecodes(st, incoming);
    var n := Parse(seen).used;
    TailOfTail(seen, incoming, n, Parse(seen[n..] + incoming).used);
  }

  /** With chunks of bounded size and frames that leave room for one and for what is not yet compacted,
      no push is refused, and however the stream is cut the frames come out as they went in. */
  lemma NeverRefused(frames: seq<Frame>, chunks: seq<bytes>, most: nat, chunk: nat)
    requires most > 0 && most + chunk + COMPACT_AFTER <= BUFFER_LIMIT
    requires forall i :: 0 <= i < |frames| ==> Small(frames[i], most)
    requires forall i :: 0 <= i < |chunks| ==> |chunks[i]| <= chunk
    ensures Concat(chunks) <= Stream(frames) ==> PushAll(NEW, chunks).error.None?
    ensures Concat(chunks) == Stream(frames) ==>
              PushAll(NEW, chunks).frames == frames && PushAll(NEW, chunks).state.Pending() == []
  {
    hide First, PushAll;
    ShortParses([]);
    assert [] + Concat(chunks) == Concat(chunks);
    if Concat(chunks) <= Stream(frames) { NeverRefusedFrom(frames, NEW, [], chunks, most, chunk); }
    if Concat(chunks) == Stream(frames) {
      forall i | 0 <= i < |frames| ensures WellFormed(frames[i]) { assert Small(frames[i], most); }
      DecodeEncoded(frames, chunks);
    }
  }
}
