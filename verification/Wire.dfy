/** GKWP/2 framing: a 24-byte big-endian header followed by the payload. */
module Wire {
  import opened Options
  import opened Sequences

  newtype byte = x: int | 0 <= x < 256
  type bytes = seq<byte>

  const MAGIC := 0x474B
  const VERSION: byte := 2
  const HEADER_SIZE := 24
  const MAX_PAYLOAD := 16 * 1024 * 1024

  const RESPONSE: byte := 2
  const ERROR: byte := 4
  const END_STREAM: byte := 8

  // ----- big-endian integers -----

  function Pow256(width: nat): nat {
    if width == 0 then 1 else 256 * Pow256(width - 1)
  }

  function BigEndian(n: nat, width: nat): (s: bytes)
    ensures |s| == width
  {
    if width == 0 then [] else BigEndian(n / 256, width - 1) + [(n % 256) as byte]
  }

  function FromBigEndian(s: bytes): (n: nat) {
    if s == [] then 0 else FromBigEndian(s[..|s| - 1]) * 256 + s[|s| - 1] as nat
  }

  lemma {:induction false} BigEndianRoundTrip(n: nat, width: nat)
    requires n < Pow256(width)
    ensures FromBigEndian(BigEndian(n, width)) == n
  {
    if width > 0 {
      BigEndianRoundTrip(n / 256, width - 1);
      var s := BigEndian(n, width);
      assert s[..|s| - 1] == BigEndian(n / 256, width - 1);
    }
  }

  lemma {:induction false} FromBigEndianBound(s: bytes)
    ensures FromBigEndian(s) < Pow256(|s|)
  {
    if s != [] { FromBigEndianBound(s[..|s| - 1]); }
  }

  lemma Widths()
    ensures Pow256(1) == 0x100 && Pow256(2) == 0x1_0000 && Pow256(4) == 0x1_0000_0000
    ensures Pow256(8) == 0x1_0000_0000_0000_0000
  {
    assert Pow256(3) == 0x100_0000;
    assert Pow256(5) == 0x100_0000_0000 && Pow256(6) == 0x1_0000_0000_0000 && Pow256(7) == 0x100_0000_0000_0000;
  }

  // ----- frames -----

  type Three = s: bytes | |s| == 3 witness [0, 0, 0]

  datatype Header = Header(
    magic: nat, version: byte, flags: byte, msgType: byte, reserved: Three,
    requestId: nat, streamId: nat, payloadLen: nat)

  datatype Frame = Frame(header: Header, payload: bytes)

  /** A header whose fields fit their widths, for a payload of the given size. */
  predicate Fits(h: Header) {
    h.magic < Pow256(2) && h.requestId < Pow256(8) && h.streamId < Pow256(4)
  }

  /** A frame a peer accepts: right magic and version, declared length right and allowed. */
  predicate WellFormed(f: Frame) {
    && Fits(f.header) && f.header.magic == MAGIC && f.header.version == VERSION
    && f.header.payloadLen == |f.payload| <= MAX_PAYLOAD
  }

  /** The declared length on the wire is always that of the payload, cut to 32 bits. */
  function EncodeHeader(h: Header, size: nat): (s: bytes)
    ensures |s| == HEADER_SIZE
  {
    BigEndian(h.magic, 2) + [h.version, h.flags, h.msgType] + h.reserved
      + BigEndian(h.requestId, 8) + BigEndian(h.streamId, 4) + BigEndian(size % 0x1_0000_0000, 4)
  }

  function EncodeFrame(h: Header, payload: bytes): (s: bytes)
    ensures |s| == HEADER_SIZE + |payload|
  {
    EncodeHeader(h, |payload|) + payload
  }

  function ReadHeader(s: bytes): (h: Header)
    requires |s| >= HEADER_SIZE
  {
    Header(FromBigEndian(s[0..2]), s[2], s[3], s[4], s[5..8],
           FromBigEndian(s[8..16]), FromBigEndian(s[16..20]), FromBigEndian(s[20..24]))
  }

  /** Reading an encoded header back gives the header, with the length of the payload in it. */
  lemma HeaderRoundTrip(h: Header, payload: bytes, more: bytes)
    requires Fits(h) && |payload| < Pow256(4)
    ensures ReadHeader(EncodeFrame(h, payload) + more) == h.(payloadLen := |payload|)
  {
    Widths();
    var s := EncodeFrame(h, payload) + more;
    assert s[0..2] == BigEndian(h.magic, 2);
    assert s[5..8] == h.reserved;
    assert s[8..16] == BigEndian(h.requestId, 8);
    assert s[16..20] == BigEndian(h.streamId, 4);
    assert s[20..24] == BigEndian(|payload|, 4);
    BigEndianRoundTrip(h.magic, 2);
    BigEndianRoundTrip(h.requestId, 8);
    BigEndianRoundTrip(h.streamId, 4);
    BigEndianRoundTrip(|payload|, 4);
  }

  // ----- one-shot parsing -----

  datatype WireError = BadMagic | BadVersion | PayloadTooLong | BufferFull {
    function Message(): string {
      match this
      case BadMagic => "Invalid GKWP/2 magic bytes"
      case BadVersion => "Unsupported GKWP/2 version"
      case PayloadTooLong => "Payload length exceeds maximum allowed limit"
      case BufferFull => "Incoming buffer limit exceeded"
    }
  }

  datatype Outcome = NeedMore | Bad(error: WireError) | Got(frame: Frame, used: nat)

  /** The first frame of a byte string, if it is all there. */
  function First(s: bytes): (r: Outcome)
    ensures r.Got? ==> HEADER_SIZE <= r.used <= |s|
  {
    if |s| < HEADER_SIZE then NeedMore
    else
      var h := ReadHeader(s);
      if h.magic != MAGIC then Bad(BadMagic)
      else if h.version != VERSION then Bad(BadVersion)
      else if h.payloadLen > MAX_PAYLOAD then Bad(PayloadTooLong)
      else if |s| < HEADER_SIZE + h.payloadLen then NeedMore
      else Got(Frame(h, s[HEADER_SIZE..HEADER_SIZE + h.payloadLen]), HEADER_SIZE + h.payloadLen)
  }

  /** Frames in order, the number of bytes they took, and the error that stopped parsing if any. */
  datatype Parsed = Parsed(frames: seq<Frame>, used: nat, error: Option<WireError>)

  /** The reference: parse a whole byte string at once. */
  function Parse(s: bytes): (r: Parsed)
    ensures r.used <= |s|
    decreases |s|
  {
    match First(s)
    case NeedMore => Parsed([], 0, None)
    case Bad(e) => Parsed([], 0, Some(e))
    case Got(f, used) =>
      var r := Parse(s[used..]);
      Parsed([f] + r.frames, used + r.used, r.error)
  }

  /** More bytes never change a frame that is complete or a header that is bad. */
  lemma FirstIsStable(a: bytes, b: bytes)
    requires !First(a).NeedMore?
    ensures First(a + b) == First(a)
  {
    var s := a + b;
    assert s[0..2] == a[0..2] && s[5..8] == a[5..8] && s[8..16] == a[8..16];
    assert s[16..20] == a[16..20] && s[20..24] == a[20..24];
    var n := ReadHeader(a).payloadLen;
    if First(a).Got? { assert s[HEADER_SIZE..HEADER_SIZE + n] == a[HEADER_SIZE..HEADER_SIZE + n]; }
  }

  /** Parsing in two goes: the second go starts from what the first left over. */
  lemma {:induction false} ParseInTwo(a: bytes, b: bytes)
    ensures var p := Parse(a);
            var q := Parse(a[p.used..] + b);
            if p.error.Some? then Parse(a + b) == p
            else Parse(a + b) == Parsed(p.frames + q.frames, p.used + q.used, q.error)
    decreases |a|
  {
    hide First;
    if First(a).Got? {
      var n := First(a).used;
      FirstIsStable(a, b);
      ParseInTwo(a[n..], b);
      var p := Parse(a[n..]);
      assert (a + b)[n..] == a[n..] + b;
      Suffix(a, n, p.used);
      Regroup([First(a).frame], p.frames, Parse(a[n..][p.used..] + b).frames);
    } else if First(a).Bad? {
      FirstIsStable(a, b);
    } else {
      assert a[0..] == a && [] + Parse(a + b).frames == Parse(a + b).frames;
    }
  }

  function Stream(frames: seq<Frame>): bytes {
    if frames == [] then [] else EncodeFrame(frames[0].header, frames[0].payload) + Stream(frames[1..])
  }

  /** Decoding the concatenation of encoded frames returns exactly those frames and leaves nothing. */
  lemma {:induction false} StreamRoundTrip(frames: seq<Frame>)
    requires forall i :: 0 <= i < |frames| ==> WellFormed(frames[i])
    ensures Parse(Stream(frames)) == Parsed(frames, |Stream(frames)|, None)
  {
    if frames != [] {
      var f, more := frames[0], Stream(frames[1..]);
      Widths();
      HeaderRoundTrip(f.header, f.payload, more);
      var s := Stream(frames);
      assert s[HEADER_SIZE..HEADER_SIZE + |f.payload|] == f.payload;
      assert s[HEADER_SIZE + |f.payload|..] == more;
      assert First(s) == Got(f, HEADER_SIZE + |f.payload|);
      StreamRoundTrip(frames[1..]);
      assert frames == [f] + frames[1..];
    } else {
      assert Stream(frames) == [] && First([]).NeedMore?;
    }
  }

  // ----- the frames a server sends -----

  function Ascii(s: string): (b: bytes)
    ensures |b| == |s|
  {
    seq(|s|, i requires 0 <= i < |s| => (s[i] as int % 256) as byte)
  }

  function ReplyHeader(msgType: byte, requestId: nat, streamId: nat, size: nat, endStream: bool): (h: Header)
  {
    Header(MAGIC, VERSION, if endStream then END_STREAM else 0, msgType, [0, 0, 0], requestId, streamId, size)
  }

  function EncodeResponse(requestId: nat, streamId: nat, payload: bytes, endStream: bool): bytes {
    EncodeFrame(ReplyHeader(RESPONSE, requestId, streamId, |payload|, endStream), payload)
  }

  function ErrorPayload(code: string, message: string): bytes {
    Ascii("{\"code\":\"" + code + "\",\"message\":\"" + message + "\"}")
  }

  function EncodeError(requestId: nat, streamId: nat, code: string, message: string, endStream: bool): bytes {
    var payload := ErrorPayload(code, message);
    EncodeFrame(ReplyHeader(ERROR, requestId, streamId, |payload|, endStream), payload)
  }

  predicate EndsStream(flags: byte) { flags / 8 % 2 == 1 }
}
