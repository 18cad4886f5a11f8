/** One client connection: received bytes go through the decoder, every frame is answered, and the
    answers leave through a socket that may take any part of what it is given. */
module Channels {
  import opened Options
  import opened Sequences
  import opened Wire
  import opened Decoders
  import opened Streams

  const WRITE_LIMIT := 64 * 1024 * 1024

  // ----- what a conversation owes the client -----

  /** The reply to the n-th handled request; any behaviour of the store is some such function. */
  type Handler = (nat, bytes) -> bytes

  /** Open streams, requests handled, and the replies so far. */
  datatype Talk = Talk(open: set<nat>, handled: nat, replies: seq<Frame>)

  const TOO_MANY := ErrorPayload("TOO_MANY_STREAMS", "Maximum concurrent streams exceeded")

  predicate Refused(t: Talk, f: Frame) {
    f.header.streamId != 0 && f.header.streamId !in t.open && |t.open| >= MAX_STREAMS
  }

  /** The reply to one frame: an error frame at the stream cap, otherwise the handler's response. */
  function ReplyTo(t: Talk, f: Frame, handler: Handler): Frame {
    var h := f.header;
    if Refused(t, f) then
      Frame(ReplyHeader(ERROR, h.requestId, h.streamId, |TOO_MANY|, true), TOO_MANY)
    else
      var payload := handler(t.handled, f.payload);
      Frame(ReplyHeader(RESPONSE, h.requestId, h.streamId, |payload|, EndsStream(h.flags)), payload)
  }

  function AnswerOne(t: Talk, f: Frame, handler: Handler): Talk {
    var replies := t.replies + [ReplyTo(t, f, handler)];
    if Refused(t, f) then t.(replies := replies)
    else if f.header.streamId == 0 then Talk(t.open, t.handled + 1, replies)
    else if EndsStream(f.header.flags) then Talk(t.open - {f.header.streamId}, t.handled + 1, replies)
    else Talk(t.open + {f.header.streamId}, t.handled + 1, replies)
  }

  /** The conversation after a sequence of frames, in order. */
  function Answer(frames: seq<Frame>, handler: Handler): (t: Talk) {
    if frames == [] then Talk({}, 0, [])
    else AnswerOne(Answer(frames[..|frames| - 1], handler), frames[|frames| - 1], handler)
  }

  lemma AnswerNext(frames: seq<Frame>, f: Frame, handler: Handler)
    ensures Answer(frames + [f], handler) == AnswerOne(Answer(frames, handler), f, handler)
  {
    assert (frames + [f])[..|frames|] == frames;
  }

  lemma {:induction false} StreamAppend(frames: seq<Frame>, f: Frame)
    ensures Stream(frames + [f]) == Stream(frames) + EncodeFrame(f.header, f.payload)
  {
    if frames == [] {
      assert frames + [f] == [f] && Stream([f]) == EncodeFrame(f.header, f.payload) + Stream([]);
    } else {
      assert (frames + [f])[1..] == frames[1..] + [f];
      StreamAppend(frames[1..], f);
      Regroup(EncodeFrame(frames[0].header, frames[0].payload), Stream(frames[1..]), EncodeFrame(f.header, f.payload));
    }
  }

  /** Exactly one reply per frame, in order, carrying the frame's request and stream id; and the
      open streams stay within the cap. */
  lemma {:induction false} OneReplyEach(frames: seq<Frame>, handler: Handler)
    ensures var t := Answer(frames, handler);
            && |t.replies| == |frames| && |t.open| <= MAX_STREAMS
            && forall i :: 0 <= i < |frames| ==>
                 t.replies[i].header.requestId == frames[i].header.requestId
                 && t.replies[i].header.streamId == frames[i].header.streamId
    decreases |frames|
  {
    hide AnswerOne;
    if frames != [] {
      var n := |frames| - 1;
      OneReplyEach(frames[..n], handler);
      AnswerOneKeeps(Answer(frames[..n], handler), frames[n], handler);
    }
  }

  lemma AnswerOneKeeps(t: Talk, f: Frame, handler: Handler)
    requires |t.open| <= MAX_STREAMS
    ensures var t' := AnswerOne(t, f, handler);
            && |t'.open| <= MAX_STREAMS && |t'.replies| == |t.replies| + 1 && t'.replies[..|t.replies|] == t.replies
            && t'.replies[|t.replies|].header.requestId == f.header.requestId
            && t'.replies[|t.replies|].header.streamId == f.header.streamId
  {
    SubsetSize(t.open - {f.header.streamId}, t.open);
  }

  // ----- the conversation, told by its requests and replies alone -----

  predicate IsRefusal(reply: Frame) { reply.header.msgType == 4 }

  /** Bit 3 of the flags. */
  predicate Ends(f: Frame) { f.header.flags as int / 8 % 2 == 1 }

  predicate SameIds(reply: Frame, request: Frame) {
    reply.header.requestId == request.header.requestId && reply.header.streamId == request.header.streamId
  }

  predicate Reads(payload: bytes, text: string) {
    |payload| == |text| && forall i :: 0 <= i < |text| ==> payload[i] as int == text[i] as int
  }

  /** A request on a stream that was not refused and did not end it, and neither was nor did a later one. */
  predicate LeavesOpen(requests: seq<Frame>, replies: seq<Frame>, j: nat)
    requires j < |requests| == |replies|
  {
    && requests[j].header.streamId != 0 && !IsRefusal(replies[j]) && !Ends(requests[j])
    && forall l :: j < l < |requests| && requests[l].header.streamId == requests[j].header.streamId ==>
         IsRefusal(replies[l])
  }

  /** The streams these requests have left open. */
  function OpenAfter(requests: seq<Frame>, replies: seq<Frame>): set<nat>
    requires |requests| == |replies|
  {
    set j | 0 <= j < |requests| && LeavesOpen(requests, replies, j) :: requests[j].header.streamId
  }

  function HandledIn(replies: seq<Frame>): nat {
    if replies == [] then 0
    else HandledIn(replies[..|replies| - 1]) + if IsRefusal(replies[|replies| - 1]) then 0 else 1
  }

  const REFUSAL_TEXT :=
    "{\"code\":\"" + "TOO_MANY_STREAMS" + "\",\"message\":\"" + "Maximum concurrent streams exceeded" + "\"}"

  /** The reply to a request after these: on stream 0, on an open stream, or while fewer than 1024 are
      open, what the handler makes of its payload, ending the stream exactly if the request does; and
      otherwise a refusal. */
  predicate RightReply(requests: seq<Frame>, replies: seq<Frame>, request: Frame, reply: Frame, handler: Handler)
    requires |requests| == |replies|
  {
    var id, open := request.header.streamId, OpenAfter(requests, replies);
    && SameIds(reply, request)
    && if id == 0 || id in open || |open| < 1024 then
         && reply.header.msgType == 2 && (Ends(reply) <==> Ends(request))
         && reply.payload == handler(HandledIn(replies), request.payload)
       else IsRefusal(reply) && Ends(reply) && Reads(reply.payload, REFUSAL_TEXT)
  }

  predicate Conversed(requests: seq<Frame>, replies: seq<Frame>, handler: Handler) {
    && |requests| == |replies|
    && forall i :: 0 <= i < |requests| ==> RightReply(requests[..i], replies[..i], requests[i], replies[i], handler)
  }

  lemma LeavesOpenMore(requests: seq<Frame>, replies: seq<Frame>, request: Frame, reply: Frame, j: nat)
    requires j < |requests| == |replies|
    ensures LeavesOpen(requests + [request], replies + [reply], j)
            <==> LeavesOpen(requests, replies, j)
                 && (request.header.streamId == requests[j].header.streamId ==> IsRefusal(reply))
  {
    hide IsRefusal, Ends;
    var requests', replies' := requests + [request], replies + [reply];
    assert requests'[|requests|] == request && replies'[|requests|] == reply;
    assert forall l :: 0 <= l < |requests| ==> requests'[l] == requests[l] && replies'[l] == replies[l];
  }

  lemma OpenMore(requests: seq<Frame>, replies: seq<Frame>, request: Frame, reply: Frame)
    requires |requests| == |replies|
    ensures var open, id := OpenAfter(requests, replies), request.header.streamId;
            OpenAfter(requests + [request], replies + [reply])
            == if id == 0 || IsRefusal(reply) then open else if Ends(request) then open - {id} else open + {id}
  {
    hide IsRefusal, Ends, LeavesOpen;
    var requests', replies', n := requests + [request], replies + [reply], |requests|;
    var open, open', id := OpenAfter(requests, replies), OpenAfter(requests', replies'), request.header.streamId;
    LastLeavesOpen(requests', replies');
    forall s ensures s in open' <==> (s in open && (s == id ==> IsRefusal(reply)))
                                     || (s == id && id != 0 && !IsRefusal(reply) && !Ends(request)) {
      if s in open' {
        var j :| 0 <= j < |requests'| && LeavesOpen(requests', replies', j) && requests'[j].header.streamId == s;
        if j < n { LeavesOpenMore(requests, replies, request, reply, j); }
      }
      if s in open {
        var j :| 0 <= j < n && LeavesOpen(requests, replies, j) && requests[j].header.streamId == s;
        LeavesOpenMore(requests, replies, request, reply, j);
        assert requests'[j] == requests[j];
      }
      assert requests'[n] == request && replies'[n] == reply;
    }
    NoStreamZero(requests, replies);
  }

  lemma LastLeavesOpen(requests: seq<Frame>, replies: seq<Frame>)
    requires |requests| == |replies| > 0
    ensures var n := |requests| - 1;
            LeavesOpen(requests, replies, n)
            <==> requests[n].header.streamId != 0 && !IsRefusal(replies[n]) && !Ends(requests[n])
  {
  }

  lemma NoStreamZero(requests: seq<Frame>, replies: seq<Frame>)
    requires |requests| == |replies|
    ensures 0 !in OpenAfter(requests, replies)
  {
  }

  lemma HandledMore(replies: seq<Frame>, reply: Frame)
    ensures HandledIn(replies + [reply]) == HandledIn(replies) + if IsRefusal(reply) then 0 else 1
  {
    assert (replies + [reply])[..|replies|] == replies;
  }

  /** The talk keeps account of exactly that, and gives exactly those replies. */
  lemma {:induction false} TalkConverses(frames: seq<Frame>, handler: Handler)
    ensures var t := Answer(frames, handler);
            && Conversed(frames, t.replies, handler)
            && t.open == OpenAfter(frames, t.replies) && t.handled == HandledIn(t.replies)
  {
    hide AnswerOne, RightReply, OpenAfter;
    if frames == [] {
      NothingOpen();
    } else {
      var n := |frames| - 1;
      var front, f := frames[..n], frames[n];
      TalkConverses(front, handler);
      var t := Answer(front, handler);
      var reply := ReplyTo(t, f, handler);
      ReplyIsRight(t, front, f, handler);
      OpenMore(front, t.replies, f, reply);
      HandledMore(t.replies, reply);
      AnswerOneIs(t, f, handler);
      assert front + [f] == frames && Answer(frames, handler).replies == t.replies + [reply];
      ConversedMore(front, t.replies, f, reply, handler);
    }
  }

  lemma NothingOpen()
    ensures OpenAfter([], []) == {}
  {
  }

  lemma ConversedMore(requests: seq<Frame>, replies: seq<Frame>, request: Frame, reply: Frame, handler: Handler)
    requires Conversed(requests, replies, handler) && RightReply(requests, replies, request, reply, handler)
    ensures Conversed(requests + [request], replies + [reply], handler)
  {
    hide RightReply;
    var requests', replies' := requests + [request], replies + [reply];
    forall i | 0 <= i < |requests'|
      ensures RightReply(requests'[..i], replies'[..i], requests'[i], replies'[i], handler)
    {
      assert requests'[..i] == if i < |requests| then requests[..i] else requests;
      assert replies'[..i] == if i < |requests| then replies[..i] else replies;
    }
  }

  lemma AnswerOneIs(t: Talk, f: Frame, handler: Handler)
    ensures var t', reply, id := AnswerOne(t, f, handler), ReplyTo(t, f, handler), f.header.streamId;
            && t'.replies == t.replies + [reply]
            && t'.handled == t.handled + (if IsRefusal(reply) then 0 else 1)
            && t'.open == if id == 0 || IsRefusal(reply) then t.open
                          else if Ends(f) then t.open - {id} else t.open + {id}
  {
  }

  predicate Latin(text: string) { forall i :: 0 <= i < |text| ==> text[i] as int < 256 }

  lemma LatinBoth(a: string, b: string)
    requires Latin(a) && Latin(b)
    ensures Latin(a + b)
  {
  }

  lemma AsciiReads(text: string)
    requires Latin(text)
    ensures Reads(Ascii(text), text)
  {
  }

  lemma LatinWords()
    ensures Latin("{\"code\":\"") && Latin("TOO_MANY_STREAMS") && Latin("\",\"message\":\"") && Latin("\"}")
    ensures Latin("Maximum concurrent streams exceeded")
  {
  }

  lemma RefusalText()
    ensures Reads(TOO_MANY, REFUSAL_TEXT)
  {
    var a, b, c := "{\"code\":\"", "TOO_MANY_STREAMS", "\",\"message\":\"";
    var d, e := "Maximum concurrent streams exceeded", "\"}";
    hide Latin, Reads, Ascii;
    LatinWords();
    LatinBoth(a, b);
    LatinBoth(a + b, c);
    LatinBoth(a + b + c, d);
    LatinBoth(a + b + c + d, e);
    AsciiReads(a + b + c + d + e);
  }

  lemma ReplyIsRight(t: Talk, frames: seq<Frame>, f: Frame, handler: Handler)
    requires |frames| == |t.replies|
    requires t.open == OpenAfter(frames, t.replies) && t.handled == HandledIn(t.replies)
    ensures RightReply(frames, t.replies, f, ReplyTo(t, f, handler), handler)
  {
    hide OpenAfter, Reads;
    RefusalText();
  }

  // ----- the socket -----

  /** What the kernel does with one send; any count up to the length offered, 0 included. */
  datatype SendResult = Wrote(count: nat) | WouldBlock | Interrupted | Broken

  /** What the kernel gives for one receive. */
  datatype RecvResult = Data(chunk: bytes) | WaitForMore | Retry | Eof | Failed

  /** Bytes taken in by a read loop that ends by waiting for more. */
  function Taken(inputs: seq<RecvResult>): bytes {
    if inputs == [] then []
    else if inputs[0].Data? then inputs[0].chunk + Taken(inputs[1..])
    else if inputs[0].Retry? then Taken(inputs[1..])
    else []
  }

  /** How much of what is waiting a run of sends takes, and whether it finds the connection dead. */
  function Drain(waiting: nat, kernel: seq<SendResult>): (r: (nat, bool))
    ensures r.0 <= waiting
    decreases |kernel|
  {
    if waiting == 0 || kernel == [] || kernel[0].WouldBlock? then (0, false)
    else if kernel[0].Broken? then (0, true)
    else
      var n := if kernel[0].Interrupted? then 0 else if kernel[0].count <= waiting then kernel[0].count else waiting;
      var (more, broken) := Drain(waiting - n, kernel[1..]);
      (n + more, broken)
  }

  lemma TakeMore(all: bytes, a: nat, b: nat)
    requires a + b <= |all|
    ensures all[..a + b] == all[..a] + all[a..][..b]
  {
  }

  lemma DrainNothing(kernel: seq<SendResult>)
    ensures Drain(0, kernel) == (0, false) && forall waiting: nat :: Drain(waiting, []) == (0, false)
    ensures forall i :: 0 <= i <= |kernel| ==> Drain(0, kernel[i..]) == (0, false)
  {
  }

  lemma DrainStep(waiting: nat, kernel: seq<SendResult>, i: nat)
    requires waiting > 0 && i < |kernel|
    ensures kernel[i].WouldBlock? ==> Drain(waiting, kernel[i..]) == (0, false)
    ensures kernel[i].Broken? ==> Drain(waiting, kernel[i..]) == (0, true)
    ensures kernel[i].Wrote? || kernel[i].Interrupted? ==>
              var n := if kernel[i].Interrupted? then 0
                       else if kernel[i].count <= waiting then kernel[i].count else waiting;
              var (more, broken) := Drain(waiting - n, kernel[i + 1..]);
              Drain(waiting, kernel[i..]) == (n + more, broken)
  {
    assert kernel[i..][1..] == kernel[i + 1..];
  }

  /** A run of sends in progress: so much is gone, and what the other answers take still to come. */
  ghost predicate Draining(waiting: nat, kernel: seq<SendResult>, gone: nat, i: nat, closed: bool) {
    && gone <= waiting && i <= |kernel|
    && if closed then Drain(waiting, kernel) == (gone, true)
       else var (more, broken) := Drain(waiting - gone, kernel[i..]); Drain(waiting, kernel) == (gone + more, broken)
  }

  lemma DrainNone(waiting: nat, kernel: seq<SendResult>)
    ensures Draining(waiting, kernel, 0, 0, false)
  {
    assert kernel[0..] == kernel;
  }

  lemma DrainMore(waiting: nat, kernel: seq<SendResult>, gone: nat, i: nat)
    requires Draining(waiting, kernel, gone, i, false) && gone < waiting && i < |kernel|
    ensures kernel[i].WouldBlock? ==> Drain(waiting, kernel) == (gone, false)
    ensures kernel[i].Broken? ==> Draining(waiting, kernel, gone, i + 1, true)
    ensures kernel[i].Wrote? || kernel[i].Interrupted? ==>
              var left := waiting - gone;
              var n := if kernel[i].Interrupted? then 0 else if kernel[i].count <= left then kernel[i].count else left;
              Draining(waiting, kernel, gone + n, i + 1, false)
  {
    hide Drain;
    DrainStep(waiting - gone, kernel, i);
  }

  lemma DrainDone(waiting: nat, kernel: seq<SendResult>, gone: nat, i: nat, closed: bool)
    requires Draining(waiting, kernel, gone, i, closed) && (closed || gone == waiting || i == |kernel|)
    ensures Drain(waiting, kernel) == (gone, closed)
  {
    hide Drain;
    DrainNothing(kernel);
    if i == |kernel| { assert kernel[i..] == []; }
  }

  /** The decoder refuses the chunk: the bytes are no frames, or too many are held back. */
  ghost predicate Refuses(received: bytes, chunk: bytes) {
    || Parse(received + chunk).error.Some?
    || |received| - Parse(received).used + |chunk| + COMPACT_AFTER > BUFFER_LIMIT
  }

  /** A read loop that meets no end of the connection and no chunk the decoder refuses. */
  ghost predicate Welcome(received: bytes, inputs: seq<RecvResult>)
    decreases |inputs|
  {
    inputs == []
    || (match inputs[0]
        case Data(chunk) => !Refuses(received, chunk) && Welcome(received + chunk, inputs[1..])
        case Retry => Welcome(received, inputs[1..])
        case WaitForMore => true
        case Eof => false
        case Failed => false)
  }

  lemma NextInput(received: bytes, inputs: seq<RecvResult>, i: nat)
    requires i < |inputs|
    ensures var now, later := inputs[i..], inputs[i + 1..];
            if inputs[i].Data? then
              var chunk := inputs[i].chunk;
              && received + Taken(now) == received + chunk + Taken(later)
              && (Welcome(received, now) <==> !Refuses(received, chunk) && Welcome(received + chunk, later))
            else if inputs[i].Retry? then
              Taken(now) == Taken(later) && (Welcome(received, now) <==> Welcome(received, later))
            else received + Taken(now) == received && (Welcome(received, now) <==> inputs[i].WaitForMore?)
  {
    hide Refuses;
    assert inputs[i..][1..] == inputs[i + 1..];
    if inputs[i].Data? { Regroup(received, inputs[i].chunk, Taken(inputs[i + 1..])); }
  }

  lemma TakenAndLeft(sent: bytes, all: bytes, n: nat)
    requires n <= |all|
    ensures sent + all[..n] + all[n..] == sent + all
  {
    assert all[..n] + all[n..] == all;
    Regroup(sent, all[..n], all[n..]);
  }

  lemma NoMoreInput(received: bytes, inputs: seq<RecvResult>)
    ensures received + Taken(inputs[|inputs|..]) == received
  {
  }

  ghost predicate SomeBroken(kernel: nat -> SendResult) { exists n :: kernel(n).Broken? }

  /** At some point more replies were due than were sent and may be kept waiting. */
  ghost predicate Overdue(handler: Handler, received: bytes, sent: bytes) {
    exists k :: OverdueAt(handler, received, sent, k)
  }

  ghost predicate OverdueAt(handler: Handler, received: bytes, sent: bytes, k: nat) {
    && k <= |Parse(received).frames|
    && |Stream(Answer(Parse(received).frames[..k], handler).replies)| > |sent| + WRITE_LIMIT
  }

  lemma NothingReceived(handler: Handler)
    ensures Parse([]) == Parsed([], 0, None) && Idle(NEW) && NEW.Pending() == []
    ensures Answer([], handler) == Talk({}, 0, []) && Stream([]) == []
  {
  }

  class Channel {
    const handler: Handler
    const decoder: Decoder
    const manager: StreamManager
    var writeBuffer: bytes
    var writeOffset: nat
    var closed: bool
    /** Whether the event loop watches the socket for writing. */
    var armed: bool
    var requests: nat
    var bytesSent: nat
    /** All bytes the kernel took from this side so far. */
    var sent: bytes
    /** All bytes received, and all bytes handed to Send. */
    ghost var received: bytes
    ghost var owed: bytes

    ghost function Pending(): bytes
      reads `writeBuffer, `writeOffset
      requires writeOffset <= |writeBuffer|
    {
      writeBuffer[writeOffset..]
    }

    /** Nothing is lost, repeated or reordered on the way out, and waiting bytes are watched. */
    ghost predicate OutputInOrder()
      reads `writeBuffer, `writeOffset, `closed, `armed, `bytesSent, `sent, `owed
    {
      && writeOffset <= |writeBuffer|
      && bytesSent == |sent|
      && (!closed ==> sent + Pending() == owed)
      && sent <= owed
      && (!closed && Pending() != [] ==> armed)
    }

    /** The frames answered so far are exactly those given. */
    ghost predicate Answered(frames: seq<Frame>)
      reads `owed, `requests, manager
    {
      var t := Answer(frames, handler);
      && owed == Stream(t.replies)
      && manager.streams.Keys == t.open
      && requests == t.handled
    }

    /** The decoder holds exactly the unparsed end of what was received. */
    ghost predicate InputInOrder()
      reads `received, decoder
    {
      && Idle(decoder.St())
      && Parse(received).error.None?
      && decoder.St().Pending() == received[Parse(received).used..]
    }

    ghost predicate Valid()
      reads this, decoder, manager
    {
      && OutputInOrder()
      && manager.Valid()
      && decoder.readOffset <= |decoder.buffer|
      && (!closed ==> InputInOrder() && Answered(Parse(received).frames))
    }

    /** While open: sent and waiting bytes together are the replies to everything received. */
    lemma Summary()
      requires Valid()
      ensures writeOffset <= |writeBuffer|
      ensures !closed ==>
                && Parse(received).error.None?
                && sent + Pending() == Stream(Answer(Parse(received).frames, handler).replies)
                && (Pending() != [] ==> armed)
    {
    }

    constructor (handler: Handler)
      ensures Valid() && !closed && received == [] && sent == [] && this.handler == handler
      ensures fresh(decoder) && fresh(manager)
    {
      this.handler := handler;
      decoder := new Decoder();
      manager := new StreamManager();
      writeBuffer, writeOffset, closed, armed, requests, bytesSent := [], 0, false, false, 0, 0;
      received, sent, owed := [], [], [];
      new;
      hide Parse, First, Answer, Stream;
      NothingReceived(handler);
    }

    method Close()
      modifies this`closed
      ensures closed
    {
      closed := true;
    }

    /** One send: the kernel takes some front part of the data, or reports a dead connection. */
    method Transmit(data: bytes, kernel: SendResult) returns (written: nat, broken: bool)
      modifies this`bytesSent, this`sent
      ensures written == (if kernel.Wrote? then if kernel.count <= |data| then kernel.count else |data| else 0)
      ensures broken == kernel.Broken?
      ensures sent == old(sent) + data[..written] && bytesSent == old(bytesSent) + written
    {
      written, broken := 0, kernel.Broken?;
      if kernel.Wrote? {
        written := if kernel.count <= |data| then kernel.count else |data|;
        bytesSent, sent := bytesSent + written, sent + data[..written];
      }
    }

    /** Hand a frame to the socket: what the kernel does not take at once is buffered. */
    method Send(data: bytes, kernel: SendResult)
      requires OutputInOrder()
      modifies this`writeBuffer, this`writeOffset, this`closed, this`armed, this`bytesSent, this`sent, this`owed
      ensures OutputInOrder()
      ensures old(closed) ==> closed && sent == old(sent) && owed == old(owed)
      ensures !old(closed) ==>
                && owed == old(owed) + data
                && (closed <==> (old(Pending()) == [] && kernel.Broken?) || |owed| - |sent| > WRITE_LIMIT)
    {
      if closed { return; }
      if writeOffset == |writeBuffer| {
        writeBuffer, writeOffset := [], 0;
      }
      var written, broken := 0, false;
      if writeBuffer == [] {
        written, broken := Transmit(data, kernel);
      }
      var rest := data[written..];
      owed := owed + data;
      assert sent + (Pending() + rest) == owed;
      if broken || |writeBuffer| - writeOffset + |rest| > WRITE_LIMIT {
        Close();
      } else if rest != [] {
        assert (writeBuffer + rest)[writeOffset..] == Pending() + rest;
        writeBuffer := writeBuffer + rest;
        armed := true;
      }
    }

    /** The socket can take more: drain the buffer as far as the kernel allows. */
    method HandleWrite(kernel: seq<SendResult>)
      requires Valid()
      modifies this`writeBuffer, this`writeOffset, this`closed, this`armed, this`bytesSent, this`sent
      ensures Valid()
      ensures old(closed) ==> closed && sent == old(sent)
      ensures !old(closed) ==>
                var (taken, broken) := Drain(|old(Pending())|, kernel);
                sent == old(sent) + old(Pending())[..taken] && closed == broken
      ensures !closed && Pending() == [] ==> !armed
    {
      hide InputInOrder, Answered, Drain, OutputInOrder;
      assert writeOffset <= |writeBuffer| by { Summary(); }
      DrainOutput(kernel);
    }

    method DrainOutput(kernel: seq<SendResult>)
      requires OutputInOrder() && writeOffset <= |writeBuffer|
      modifies this`writeBuffer, this`writeOffset, this`closed, this`armed, this`bytesSent, this`sent
      ensures OutputInOrder() && writeOffset <= |writeBuffer|
      ensures old(closed) ==> closed && sent == old(sent)
      ensures !old(closed) ==>
                var (taken, broken) := Drain(|old(Pending())|, kernel);
                sent == old(sent) + old(Pending())[..taken] && closed == broken
      ensures !closed && Pending() == [] ==> !armed
    {
      hide Drain;
      if !closed {
        ghost var all := Pending();
        ghost var gone := Flush(kernel);
        TakenAndLeft(old(sent), all, gone);
        assert Pending() == all[gone..];
      }
      if !closed && writeOffset == |writeBuffer| {
        writeBuffer, writeOffset := [], 0;
        armed := false;
      }
    }

    /** The send loop. */
    method Flush(kernel: seq<SendResult>) returns (ghost gone: nat)
      requires writeOffset <= |writeBuffer| && !closed
      modifies this`writeOffset, this`closed, this`bytesSent, this`sent
      ensures writeOffset == old(writeOffset) + gone <= |writeBuffer|
      ensures (gone, closed) == Drain(|old(Pending())|, kernel)
      ensures sent == old(sent) + old(Pending())[..gone] && bytesSent == old(bytesSent) + gone
    {
      hide Drain, Draining;
      var i := 0;
      ghost var all := Pending();
      gone := 0;
      DrainNone(|all|, kernel);
      while !closed && writeOffset < |writeBuffer| && i < |kernel|
        invariant i <= |kernel| && writeOffset == old(writeOffset) + gone <= |writeBuffer|
        invariant sent == old(sent) + all[..gone] && bytesSent == old(bytesSent) + gone
        invariant Draining(|all|, kernel, gone, i, closed)
      {
        DrainMore(|all|, kernel, gone, i);
        if kernel[i].WouldBlock? { break; }
        assert writeBuffer[writeOffset..] == all[gone..];
        var written, broken := Transmit(writeBuffer[writeOffset..], kernel[i]);
        TakeMore(all, gone, written);
        writeOffset, gone := writeOffset + written, gone + written;
        if broken { Close(); }
        i := i + 1;
      }
      if closed || i == |kernel| || gone == |all| { DrainDone(|all|, kernel, gone, i, closed); }
    }

    /** The steady clock: any reading at all. */
    method ClockMs() returns (now: nat) {
      now := *;
    }

    /** The socket has input: take it in and answer every frame it completes. `kernel` is what the
        socket does with each reply. */
    method HandleRead(inputs: seq<RecvResult>, kernel: nat -> SendResult)
      requires Valid()
      modifies this, decoder, manager
      ensures Valid()
      ensures old(closed) ==> closed && sent == old(sent) && received == old(received)
      ensures received <= old(received) + Taken(inputs)
      ensures !closed ==> received == old(received) + Taken(inputs)
      ensures closed && !old(closed) ==>
                !Welcome(old(received), inputs) || SomeBroken(kernel) || Overdue(handler, received, sent)
    {
      hide OutputInOrder, InputInOrder, Answered, Parse, Refuses, Overdue, Taken, Welcome;
      var sends: nat := 0;
      var i := 0;
      assert inputs[0..] == inputs;
      while !closed && i < |inputs|
        invariant Valid() && i <= |inputs|
        invariant old(closed) ==> closed && sent == old(sent) && received == old(received)
        invariant !closed ==> received + Taken(inputs[i..]) == old(received) + Taken(inputs)
        invariant !closed && Welcome(old(received), inputs) ==> Welcome(received, inputs[i..])
        invariant closed ==> old(closed)
      {
        NextInput(received, inputs, i);
        match inputs[i] {
          case Data(chunk) =>
            sends := ReadChunk(chunk, kernel, sends);
            if closed { return; }
          case WaitForMore => break;
          case Retry =>
          case Eof => CloseOutput(); return;
          case Failed => CloseOutput(); return;
        }
        i := i + 1;
      }
      NoMoreInput(received, inputs);
    }

    /** Pass one received chunk to the decoder. */
    method Decode(chunk: bytes) returns (frames: seq<Frame>, error: Option<WireError>)
      requires InputInOrder() && decoder.readOffset <= |decoder.buffer|
      modifies this`received, decoder
      ensures error == PushStep(old(decoder.St()), chunk).error
      ensures decoder.readOffset <= |decoder.buffer|
      ensures received == old(received) + chunk
      ensures error.None? ==> InputInOrder() && Parse(received).frames == old(Parse(received).frames) + frames
      ensures error.Some? ==> Refuses(old(received), chunk)
    {
      hide Parse, Idle, PushStep;
      ghost var st := decoder.St();
      IdleIsInside(st, chunk);
      frames, error := decoder.Push(chunk);
      if error.None? { InputStep(received, st, chunk); } else { InputRefused(received, st, chunk); }
      received := received + chunk;
    }

    /** Decode one received chunk and answer its frames; on a protocol error say so and close. */
    method ReadChunk(chunk: bytes, kernel: nat -> SendResult, sends: nat) returns (sends': nat)
      requires Valid() && !closed
      modifies this, decoder, manager
      ensures Valid() && received == old(received) + chunk
      ensures closed ==> Refuses(old(received), chunk) || SomeBroken(kernel) || Overdue(handler, received, sent)
      ensures var error := PushStep(old(decoder.St()), chunk).error;
              error.Some? ==>
                closed && owed == old(owed) + EncodeError(0, 0, "PROTOCOL_ERROR", error.value.Message(), true)
    {
      hide OutputInOrder, InputInOrder, Answered, Parse, Refuses, PushStep, Answer, Stream, EncodeFrame, EncodeError;
      ghost var before := Parse(received).frames;
      var frames, error := Decode(chunk);
      if error.Some? {
        Send(EncodeError(0, 0, "PROTOCOL_ERROR", error.value.Message(), true), kernel(sends));
        CloseOutput();
        return sends + 1;
      }
      sends' := sends;
      assert before + frames[..0] == before;
      for j := 0 to |frames|
        invariant OutputInOrder() && manager.Valid() && (!closed ==> Answered(before + frames[..j]))
        invariant decoder.readOffset <= |decoder.buffer| && InputInOrder() && received == old(received) + chunk
        invariant closed ==> SomeBroken(kernel) || Overdue(handler, received, sent)
      {
        assert (before + frames[..j]) + [frames[j]] == before + frames[..j + 1];
        ghost var wasOpen := !closed;
        var stop := AnswerFrame(frames[j], kernel(sends'), before + frames[..j]);
        if wasOpen && closed && !kernel(sends').Broken? {
          OverdueNow(handler, received, before + frames[..j + 1], sent);
        }
        sends' := sends' + 1;
        if stop { return; }
      }
      assert frames[..|frames|] == frames;
    }

    method CloseOutput()
      requires OutputInOrder()
      modifies this`closed
      ensures OutputInOrder() && closed
    {
      Close();
    }

    /** Answer one frame. After a refusal the source does not look whether the channel closed. */
    method AnswerFrame(f: Frame, kernel: SendResult, ghost done: seq<Frame>) returns (stop: bool)
      requires OutputInOrder() && manager.Valid() && (!closed ==> Answered(done))
      modifies this`writeBuffer, this`writeOffset, this`closed, this`armed, this`bytesSent, this`sent, this`owed
      modifies this`requests, manager
      ensures OutputInOrder() && manager.Valid() && (!closed ==> Answered(done + [f]))
      ensures stop ==> closed
      ensures old(closed) ==> closed && sent == old(sent)
      ensures !old(closed) ==> owed == Stream(Answer(done + [f], handler).replies)
      ensures !old(closed) && closed ==> kernel.Broken? || |owed| - |sent| > WRITE_LIMIT
    {
      hide OutputInOrder, Stream, EncodeFrame, Answer;
      ghost var t := Answer(done, handler);
      AnswerNext(done, f, handler);
      StreamAppend(t.replies, ReplyTo(t, f, handler));
      var id := f.header.streamId;
      if id != 0 {
        if !manager.CanOpenStream(id) {
          var message := "Maximum concurrent streams exceeded";
          Send(EncodeError(f.header.requestId, id, "TOO_MANY_STREAMS", message, true), kernel);
          return false;
        }
        var now := ClockMs();
        var _ := manager.GetOrCreateStream(id, now);
      }
      var response := handler(requests, f.payload);
      requests := requests + 1;
      var endStream := EndsStream(f.header.flags);
      Send(EncodeResponse(f.header.requestId, id, response, endStream), kernel);
      if id != 0 && endStream {
        manager.CloseStream(id);
      }
      stop := closed;
    }
  }

  lemma OverdueNow(handler: Handler, received: bytes, done: seq<Frame>, sent: bytes)
    requires done <= Parse(received).frames
    requires |Stream(Answer(done, handler).replies)| > |sent| + WRITE_LIMIT
    ensures Overdue(handler, received, sent)
  {
    hide Parse, Answer, Stream;
    assert Parse(received).frames[..|done|] == done;
    assert OverdueAt(handler, received, sent, |done|);
  }

  lemma IdleIsInside(st: State, chunk: bytes)
    requires Idle(st)
    ensures st.offset <= |st.buffer| && PushStep(st, chunk).state.offset <= |PushStep(st, chunk).state.buffer|
  {
  }

  /** One more chunk: the decoder goes on holding the unparsed end of everything received. */
  lemma InputStep(received: bytes, st: State, chunk: bytes)
    requires Idle(st) && PushStep(st, chunk).error.None?
    requires Parse(received).error.None? && st.Pending() == received[Parse(received).used..]
    ensures var r, p := Parse(received + chunk), PushStep(st, chunk);
            && r.error.None? && r.frames == Parse(received).frames + p.frames
            && Idle(p.state) && p.state.Pending() == (received + chunk)[r.used..]
  {
    hide Parse, First;
    ParseInTwo(received, chunk);
    PushLeavesIdle(st, chunk);
    var n, q := Parse(received).used, Parse(st.Pending() + chunk);
    assert (received + chunk)[n + q.used..] == (received[n..] + chunk)[q.used..];
  }

  lemma InputRefused(received: bytes, st: State, chunk: bytes)
    requires Idle(st) && PushStep(st, chunk).error.Some?
    requires Parse(received).error.None? && st.Pending() == received[Parse(received).used..]
    ensures Refuses(received, chunk)
  {
    hide Parse, First;
    BufferFullIff(st, chunk);
    ParseInTwo(received, chunk);
  }

  // ----- whole conversations -----

  datatype Event = Readable(inputs: seq<RecvResult>, kernel: nat -> SendResult)
                 | Writable(outcomes: seq<SendResult>)
                 | HungUp

  function TakenAt(e: Event): bytes { if e.Readable? then Taken(e.inputs) else [] }

  function TakenBy(events: seq<Event>): bytes {
    if events == [] then [] else TakenAt(events[0]) + TakenBy(events[1..])
  }

  ghost predicate LegalSizes(handler: Handler) {
    forall n, p :: |handler(n, p)| <= MAX_PAYLOAD
  }

  /** What the client decodes: one right reply per request, in request order, and nothing else. */
  ghost predicate AnsweredInOrder(replies: bytes, requests: seq<Frame>, handler: Handler) {
    var p := Parse(replies);
    p.error.None? && p.used == |replies| && Conversed(requests, p.frames, handler)
  }

  lemma {:induction false} ParsedFits(s: bytes)
    ensures forall i :: 0 <= i < |Parse(s).frames| ==> Fits(Parse(s).frames[i].header)
    decreases |s|
  {
    if First(s).Got? {
      ParsedFits(s[First(s).used..]);
      FromBigEndianBound(s[0..2]);
      FromBigEndianBound(s[8..16]);
      FromBigEndianBound(s[16..20]);
    }
  }

  lemma {:induction false} RepliesWellFormed(frames: seq<Frame>, handler: Handler)
    requires forall i :: 0 <= i < |frames| ==> Fits(frames[i].header)
    requires LegalSizes(handler)
    ensures forall i :: 0 <= i < |Answer(frames, handler).replies| ==> WellFormed(Answer(frames, handler).replies[i])
    decreases |frames|
  {
    if frames != [] {
      var n := |frames| - 1;
      var t := Answer(frames[..n], handler);
      RepliesWellFormed(frames[..n], handler);
      var r := ReplyTo(t, frames[n], handler);
      Widths();
      assert |TOO_MANY| < 200;
      assert Fits(frames[n].header);
      assert WellFormed(r);
    }
  }

  lemma ClientDecodes(received: bytes, handler: Handler)
    requires LegalSizes(handler)
    ensures var requests := Parse(received).frames;
            AnsweredInOrder(Stream(Answer(requests, handler).replies), requests, handler)
  {
    hide Parse, Stream, Answer, Conversed;
    var requests := Parse(received).frames;
    ParsedFits(received);
    RepliesWellFormed(requests, handler);
    TalkConverses(requests, handler);
    StreamRoundTrip(Answer(requests, handler).replies);
  }

  /** Nobody hangs up and the decoder refuses nothing. */
  ghost predicate WelcomeAt(received: bytes, e: Event) {
    !e.HungUp? && (e.Readable? ==> Welcome(received, e.inputs))
  }

  ghost predicate AllWelcome(received: bytes, events: seq<Event>)
    decreases |events|
  {
    events == [] || (WelcomeAt(received, events[0]) && AllWelcome(received + TakenAt(events[0]), events[1..]))
  }

  ghost predicate FindsBroken(e: Event) {
    match e
    case Readable(_, kernel) => SomeBroken(kernel)
    case Writable(outcomes) => exists i :: 0 <= i < |outcomes| && outcomes[i].Broken?
    case HungUp => false
  }

  lemma {:induction false} DrainBreaks(waiting: nat, kernel: seq<SendResult>)
    requires Drain(waiting, kernel).1
    ensures exists i :: 0 <= i < |kernel| && kernel[i].Broken?
    decreases |kernel|
  {
    if kernel[0].Broken? {
      assert kernel[0].Broken?;
    } else {
      var n := if kernel[0].Interrupted? then 0 else if kernel[0].count <= waiting then kernel[0].count else waiting;
      DrainBreaks(waiting - n, kernel[1..]);
      var i :| 0 <= i < |kernel[1..]| && kernel[1..][i].Broken?;
      assert kernel[i + 1].Broken?;
    }
  }

  /** What was overdue on part of the input was overdue on all of it. */
  lemma OverdueStays(handler: Handler, part: bytes, all: bytes, sent: bytes)
    requires part <= all && Overdue(handler, part, sent)
    ensures Overdue(handler, all, sent)
  {
    hide Parse, Answer, Stream;
    var k: nat :| OverdueAt(handler, part, sent, k);
    var rest := all[|part|..];
    assert all == part + rest;
    ParseInTwo(part, rest);
    OverdueNow(handler, all, Parse(part).frames[..k], sent);
  }

  method HandleEvent(channel: Channel, e: Event)
    requires channel.Valid()
    modifies channel, channel.decoder, channel.manager
    ensures channel.Valid()
    ensures old(channel.closed) ==> channel.closed && channel.sent == old(channel.sent)
    ensures channel.received <= old(channel.received) + TakenAt(e)
    ensures !channel.closed ==> channel.received == old(channel.received) + TakenAt(e)
    ensures channel.closed && !old(channel.closed) ==>
              || !WelcomeAt(old(channel.received), e) || FindsBroken(e)
              || Overdue(channel.handler, channel.received, channel.sent)
  {
    hide Parse, Stream, Answer, Overdue, Drain, Welcome;
    hide Channel.OutputInOrder, Channel.InputInOrder, Channel.Answered;
    assert channel.received + [] == channel.received;
    match e {
      case Readable(inputs, kernel) => channel.HandleRead(inputs, kernel);
      case Writable(outcomes) =>
        channel.Summary();
        ghost var pending := |channel.Pending()|;
        channel.HandleWrite(outcomes);
        if channel.closed && !old(channel.closed) { DrainBreaks(pending, outcomes); }
      case HungUp => channel.CloseOutput();
    }
  }

  /** Any sequence of socket events on a new connection: while it is open, the bytes the kernel took
      plus the bytes waiting are the replies to everything received, and waiting bytes are watched
      for. A client with answers of legal size decodes exactly the right reply to each request. The connection
      is closed only when somebody hangs up, the decoder refuses the input, a send finds the
      connection dead, or the client lets more replies pile up than the buffer may hold. */
  method Serve(handler: Handler, events: seq<Event>) returns (open: bool, output: bytes, waiting: bytes, watched: bool)
    ensures open ==>
              var received := Parse(TakenBy(events));
              received.error.None? && output + waiting == Stream(Answer(received.frames, handler).replies)
    ensures open && waiting != [] ==> watched
    ensures open && LegalSizes(handler) ==> AnsweredInOrder(output + waiting, Parse(TakenBy(events)).frames, handler)
    ensures !open ==>
              || !AllWelcome([], events)
              || (exists i :: 0 <= i < |events| && FindsBroken(events[i]))
              || Overdue(handler, TakenBy(events), output)
  {
    hide Parse, Stream, Answer, LegalSizes, AnsweredInOrder, Overdue, FindsBroken, WelcomeAt, TakenAt;
    hide Channel.OutputInOrder, Channel.InputInOrder, Channel.Answered;
    var channel := new Channel(handler);
    assert events[0..] == events;
    for i := 0 to |events|
      invariant channel.Valid() && channel.handler == handler
      invariant !channel.closed ==> channel.received + TakenBy(events[i..]) == TakenBy(events)
      invariant !channel.closed && AllWelcome([], events) ==> AllWelcome(channel.received, events[i..])
      invariant channel.closed ==>
                  || !AllWelcome([], events)
                  || (exists j :: 0 <= j < |events| && FindsBroken(events[j]))
                  || Overdue(handler, TakenBy(events), channel.sent)
    {
      assert events[i..][1..] == events[i + 1..];
      ghost var before, wasOpen := channel.received, !channel.closed;
      HandleEvent(channel, events[i]);
      assert before + (TakenAt(events[i]) + TakenBy(events[i + 1..]))
        == (before + TakenAt(events[i])) + TakenBy(events[i + 1..]);
      if wasOpen && channel.closed && Overdue(handler, channel.received, channel.sent) {
        OverdueStays(handler, channel.received, TakenBy(events), channel.sent);
      }
    }
    open, output, watched := !channel.closed, channel.sent, channel.armed;
    channel.Summary();
    waiting := channel.writeBuffer[channel.writeOffset..];
    if open {
      assert channel.received + [] == channel.received;
      if LegalSizes(handler) { ClientDecodes(channel.received, handler); }
    }
  }
}
