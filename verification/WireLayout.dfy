/** The bytes of a frame, one by one, and which bytes are a frame. */
module WireLayout {
  import opened Wire

  // ----- place values -----

  /** Every byte counts for the power of 256 of the bytes after it. */
  function Worth(s: bytes): nat { if s == [] then 0 else s[0] as nat * Pow256(|s| - 1) + Worth(s[1..]) }

  lemma {:induction false} WorthAppend(s: bytes, b: byte)
    ensures Worth(s + [b]) == Worth(s) * 256 + b as nat
  {
    if s != [] {
      WorthAppend(s[1..], b);
      assert (s + [b])[1..] == s[1..] + [b];
      assert s[0] as nat * Pow256(|s|) == s[0] as nat * Pow256(|s| - 1) * 256;
    }
  }

  lemma {:induction false} ReadIsWorth(s: bytes)
    ensures FromBigEndian(s) == Worth(s)
  {
    if s != [] {
      var n := |s| - 1;
      ReadIsWorth(s[..n]);
      WorthAppend(s[..n], s[n]);
      assert s[..n] + [s[n]] == s;
    }
  }

  lemma WrittenIsWorth(s: bytes, at: nat, n: nat, width: nat)
    requires at + width <= |s| && s[at..at + width] == BigEndian(n, width) && n < Pow256(width)
    ensures Worth(s[at..at + width]) == n
  {
    BigEndianRoundTrip(n, width);
    ReadIsWorth(BigEndian(n, width));
  }

  // ----- what is written -----

  /** The layout of a header: two bytes of magic, the version, the flags, the type, three reserved bytes,
      eight of request, four of stream and four of length, all with the highest byte first. */
  predicate LaidOut(s: bytes, h: Header, size: nat) {
    && |s| >= 24
    && Worth(s[0..2]) == h.magic && s[2] == h.version && s[3] == h.flags && s[4] == h.msgType
    && s[5] == h.reserved[0] && s[6] == h.reserved[1] && s[7] == h.reserved[2]
    && Worth(s[8..16]) == h.requestId && Worth(s[16..20]) == h.streamId && Worth(s[20..24]) == size
  }

  lemma FrameLayout(h: Header, payload: bytes)
    requires Fits(h) && |payload| < 0x1_0000_0000
    ensures var s := EncodeFrame(h, payload); LaidOut(s, h, |payload|) && s[24..] == payload
  {
    hide BigEndian, Worth, Pow256;
    var s := EncodeFrame(h, payload);
    assert s[0..2] == BigEndian(h.magic, 2);
    assert s[8..16] == BigEndian(h.requestId, 8);
    assert s[16..20] == BigEndian(h.streamId, 4);
    assert s[20..24] == BigEndian(|payload|, 4);
    Widths();
    WrittenIsWorth(s, 0, h.magic, 2);
    WrittenIsWorth(s, 8, h.requestId, 8);
    WrittenIsWorth(s, 16, h.streamId, 4);
    WrittenIsWorth(s, 20, |payload|, 4);
  }

  // ----- what is read -----

  lemma {:induction false} EncodedAgain(s: bytes)
    ensures BigEndian(FromBigEndian(s), |s|) == s
  {
    if s != [] {
      var front, last := s[..|s| - 1], s[|s| - 1];
      EncodedAgain(front);
      assert FromBigEndian(s) / 256 == FromBigEndian(front) && FromBigEndian(s) % 256 == last as nat;
    }
  }

  lemma HeaderEncodedAgain(s: bytes)
    requires |s| >= 24
    ensures Fits(ReadHeader(s)) && ReadHeader(s).payloadLen < Pow256(4)
    ensures EncodeHeader(ReadHeader(s), ReadHeader(s).payloadLen) == s[..24]
  {
    hide BigEndian, FromBigEndian, Pow256;
    var h := ReadHeader(s);
    EncodedAgain(s[0..2]);
    EncodedAgain(s[8..16]);
    EncodedAgain(s[16..20]);
    EncodedAgain(s[20..24]);
    FromBigEndianBound(s[0..2]);
    FromBigEndianBound(s[8..16]);
    FromBigEndianBound(s[16..20]);
    FromBigEndianBound(s[20..24]);
    Widths();
    Cut(s);
  }

  lemma Cut(s: bytes)
    requires |s| >= 24
    ensures s[..24] == s[0..2] + [s[2], s[3], s[4]] + s[5..8] + s[8..16] + s[16..20] + s[20..24]
  {
    assert s[0..2] + [s[2], s[3], s[4]] == s[..5];
    assert s[..5] + s[5..8] == s[..8];
    assert s[..8] + s[8..16] == s[..16];
    assert s[..16] + s[16..20] == s[..20];
  }

  lemma WrittenComesFirst(s: bytes, f: Frame)
    requires WellFormed(f) && EncodeFrame(f.header, f.payload) <= s
    ensures First(s) == Got(f, 24 + |f.payload|)
  {
    hide BigEndian, FromBigEndian, Pow256, ReadHeader, EncodeHeader;
    Widths();
    var t := EncodeFrame(f.header, f.payload);
    HeaderRoundTrip(f.header, f.payload, s[|t|..]);
    assert t + s[|t|..] == s;
    assert s[24..24 + |f.payload|] == f.payload;
  }

  lemma FirstWasWritten(s: bytes, f: Frame, used: nat)
    requires First(s) == Got(f, used)
    ensures WellFormed(f) && EncodeFrame(f.header, f.payload) <= s && used == 24 + |f.payload|
  {
    hide BigEndian, FromBigEndian, Pow256, ReadHeader, EncodeHeader;
    HeaderEncodedAgain(s);
    assert EncodeFrame(f.header, f.payload) == s[..used];
  }

  /** Bytes begin with a frame exactly if they begin with what that frame is written as. */
  lemma FirstExactly(s: bytes, f: Frame, used: nat)
    ensures First(s) == Got(f, used)
            <==> WellFormed(f) && EncodeFrame(f.header, f.payload) <= s && used == 24 + |f.payload|
  {
    hide First, WellFormed, EncodeFrame;
    if First(s) == Got(f, used) { FirstWasWritten(s, f, used); }
    if WellFormed(f) && EncodeFrame(f.header, f.payload) <= s { WrittenComesFirst(s, f); }
  }

  function Four(s: bytes): nat
    requires |s| >= 24
  {
    s[20] as nat * 0x100_0000 + s[21] as nat * 0x1_0000 + s[22] as nat * 0x100 + s[23] as nat
  }

  lemma FourRead(s: bytes)
    requires |s| >= 24
    ensures FromBigEndian(s[20..24]) == Four(s)
  {
    hide FromBigEndian;
    var a := s[20..24];
    ReadIsWorth(a);
    Widths();
    assert a[0] == s[20] && a[1..] == s[21..24] && a[1..][1..] == s[22..24] && a[1..][1..][1..] == [s[23]];
    assert Pow256(3) == 0x100_0000;
    assert Worth([s[23]]) == s[23] as nat;
    assert Worth(s[22..24]) == s[22] as nat * 0x100 + s[23] as nat;
  }

  lemma MagicRead(s: bytes)
    requires |s| >= 24
    ensures FromBigEndian(s[0..2]) == s[0] as nat * 256 + s[1] as nat
  {
    hide FromBigEndian;
    ReadIsWorth(s[0..2]);
    assert s[0..2][1..] == [s[1]];
    assert Worth([s[1]]) == s[1] as nat;
  }

  /** What is wrong with bytes that begin with no frame, or how much of one is missing. */
  lemma FirstRefuses(s: bytes)
    ensures First(s) == Bad(BadMagic) <==> |s| >= 24 && !(s[0] == 0x47 && s[1] == 0x4B)
    ensures First(s) == Bad(BadVersion) <==> |s| >= 24 && s[0] == 0x47 && s[1] == 0x4B && s[2] != 2
    ensures First(s) == Bad(PayloadTooLong)
            <==> |s| >= 24 && s[0] == 0x47 && s[1] == 0x4B && s[2] == 2 && Four(s) > 0x100_0000
    ensures First(s) == NeedMore
            <==> |s| < 24 || (s[0] == 0x47 && s[1] == 0x4B && s[2] == 2 && Four(s) <= 0x100_0000 && |s| < 24 + Four(s))
  {
    hide FromBigEndian;
    if |s| >= 24 {
      MagicRead(s);
      FourRead(s);
    }
  }
}
