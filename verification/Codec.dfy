/** The binary requests: how clients write the calls they want made and how the server reads them. */
module Codecs {
  import opened Options
  import opened Decimal
  import opened Wire
  import KV = KeyValue

  /** A call on the store with its arguments. */
  datatype Call =
    | Ping
    | Get(key: bytes)
    | Set(key: bytes, value: bytes, condition: KV.Condition, ttl: nat)
    | Del(key: bytes)
    | Exists(key: bytes)
    | TypeOf(key: bytes)
    | Expire(key: bytes, ttl: nat)
    | Ttl(key: bytes)
    | IncrBy(key: bytes, delta: int, ttl: nat)
    | RateLimit(key: bytes, limit: nat, window: nat, cost: nat)
    | QuotaInit(key: bytes, amount: nat)
    | QuotaGet(key: bytes)
    | Reserve(key: bytes, amount: nat, ttl: nat)
    | Commit(key: bytes, id: bytes, amount: nat)
    | Rollback(key: bytes, id: bytes)
    | IdemBegin(key: bytes, hash: bytes, ttl: nat, token: bytes)
    | IdemComplete(key: bytes, token: bytes, code: int, body: bytes)
    | IdemFail(key: bytes, token: bytes, message: bytes)

  const U16 := 0x1_0000
  const U32 := 0x1_0000_0000

  function Opcode(c: Call): nat {
    match c
    case Ping => 0x0001
    case Set(_, _, _, _) => 0x0010
    case Get(_) => 0x0011
    case Del(_) => 0x0012
    case Exists(_) => 0x0013
    case TypeOf(_) => 0x0014
    case Expire(_, _) => 0x0015
    case Ttl(_) => 0x0016
    case IncrBy(_, _, _) => 0x0020
    case RateLimit(_, _, _, _) => 0x0100
    case Reserve(_, _, _) => 0x0101
    case Commit(_, _, _) => 0x0102
    case Rollback(_, _) => 0x0103
    case QuotaInit(_, _) => 0x0110
    case QuotaGet(_) => 0x0111
    case IdemBegin(_, _, _, _) => 0x0120
    case IdemComplete(_, _, _, _) => 0x0121
    case IdemFail(_, _, _) => 0x0122
  }

  // ----- writing -----

  /** Bytes after their length in 16 or 32 bits; the length is cut to its width. */
  function Short(s: bytes): bytes { BigEndian(|s| % U16, 2) + s }

  function Long(s: bytes): bytes { BigEndian(|s| % U32, 4) + s }

  function ConditionByte(condition: KV.Condition): byte {
    match condition
    case Always => 0
    case IfAbsent => 1
    case IfPresent => 2
  }

  function Arguments(c: Call): bytes {
    match c
    case Ping => []
    case Get(key) => Short(key)
    case Set(key, value, condition, ttl) =>
      Short(key) + (Long(value) + (BigEndian(ttl, 8) + [ConditionByte(condition)]))
    case Del(key) => Short(key)
    case Exists(key) => Short(key)
    case TypeOf(key) => Short(key)
    case Expire(key, ttl) => Short(key) + BigEndian(ttl, 8)
    case Ttl(key) => Short(key)
    case IncrBy(key, delta, ttl) => Short(key) + (BigEndian(delta % U64, 8) + BigEndian(ttl, 8))
    case RateLimit(key, limit, window, cost) =>
      Short(key) + (BigEndian(limit, 8) + (BigEndian(window, 8) + BigEndian(cost, 4)))
    case QuotaInit(key, amount) => Short(key) + BigEndian(amount, 8)
    case QuotaGet(key) => Short(key)
    case Reserve(key, amount, ttl) => Short(key) + (BigEndian(amount, 8) + BigEndian(ttl, 8))
    case Commit(key, id, amount) => Short(key) + (Short(id) + BigEndian(amount, 8))
    case Rollback(key, id) => Short(key) + Short(id)
    case IdemBegin(key, hash, ttl, token) => Short(key) + (Short(hash) + (BigEndian(ttl, 8) + Short(token)))
    case IdemComplete(key, token, code, body) => Short(key) + (Short(token) + (BigEndian(code % U16, 2) + Long(body)))
    case IdemFail(key, token, message) => Short(key) + (Short(token) + Short(message))
  }

  function Encode(c: Call): bytes { BigEndian(Opcode(c), 2) + Arguments(c) }

  // ----- reading -----

  /** A value read from the front, and what is left. */
  datatype Cut<T> = TooShort | Cut(value: T, rest: bytes)

  function Number(data: bytes, width: nat): Cut<nat> {
    if |data| < width then TooShort else Cut(FromBigEndian(data[..width]), data[width..])
  }

  /** Bytes after their length in a number of the given width. */
  function Sized(data: bytes, width: nat): Cut<bytes> {
    var size := Number(data, width);
    if size.TooShort? || |size.rest| < size.value then TooShort
    else Cut(size.rest[..size.value], size.rest[size.value..])
  }

  function ConditionOf(b: nat): KV.Condition {
    if b == 1 then KV.IfAbsent else if b == 2 then KV.IfPresent else KV.Always
  }

  /** The last text of IdemBegin: a length without its bytes counts as empty. */
  function Lenient(data: bytes): Cut<bytes> {
    var size := Number(data, 2);
    if size.TooShort? then TooShort
    else if size.value > 0 && |size.rest| >= size.value then Cut(size.rest[..size.value], [])
    else Cut([], [])
  }

  /** The last text of IdemFail: empty unless all of it is there. */
  function Optional(data: bytes): bytes {
    var size := Number(data, 2);
    if size.TooShort? || |size.rest| < size.value then [] else size.rest[..size.value]
  }

  function KeyOnly(opcode: nat, key: bytes): Option<Call> {
    if opcode == 0x0011 then Some(Get(key))
    else if opcode == 0x0012 then Some(Del(key))
    else if opcode == 0x0013 then Some(Exists(key))
    else if opcode == 0x0014 then Some(TypeOf(key))
    else if opcode == 0x0016 then Some(Ttl(key))
    else if opcode == 0x0111 then Some(QuotaGet(key))
    else None
  }

  function KeyAndNumber(opcode: nat, key: bytes, data: bytes): Option<Call> {
    var n := Number(data, 8);
    if n.TooShort? then None
    else if opcode == 0x0015 then Some(Expire(key, n.value)) else Some(QuotaInit(key, n.value))
  }

  function KeyAndTwoNumbers(opcode: nat, key: bytes, data: bytes): Option<Call> {
    var n := Number(data, 8);
    if n.TooShort? then None
    else
      var m := Number(n.rest, 8);
      if m.TooShort? then None
      else if opcode == 0x0020 then Some(IncrBy(key, Signed(n.value), m.value))
      else if opcode == 0x0101 then Some(Reserve(key, n.value, m.value))
      else
        var cost := Number(m.rest, 4);
        if cost.TooShort? then None else Some(RateLimit(key, n.value, m.value, cost.value))
  }

  function SetArguments(key: bytes, data: bytes): Option<Call> {
    var value := Sized(data, 4);
    if value.TooShort? then None
    else
      var ttl := Number(value.rest, 8);
      if ttl.TooShort? then None
      else
        var b := Number(ttl.rest, 1);
        if b.TooShort? then None else Some(Set(key, value.value, ConditionOf(b.value), ttl.value))
  }

  function TwoTexts(opcode: nat, key: bytes, data: bytes): Option<Call> {
    var text := Sized(data, 2);
    if text.TooShort? then None
    else if opcode == 0x0103 then Some(Rollback(key, text.value))
    else if opcode == 0x0122 then Some(IdemFail(key, text.value, Optional(text.rest)))
    else if opcode == 0x0121 then
      var code := Number(text.rest, 2);
      if code.TooShort? then None
      else
        var body := Sized(code.rest, 4);
        if body.TooShort? then None else Some(IdemComplete(key, text.value, code.value, body.value))
    else
      var n := Number(text.rest, 8);
      if n.TooShort? then None
      else if opcode == 0x0102 then Some(Commit(key, text.value, n.value))
      else
        var token := Lenient(n.rest);
        if token.TooShort? then None else Some(IdemBegin(key, text.value, n.value, token.value))
  }

  /** The call the server makes for a payload; none when it answers with an error at once. */
  function Decode(payload: bytes): Option<Call> {
    var opcode := Number(payload, 2);
    if opcode.TooShort? then None
    else if opcode.value == 0x0001 then Some(Ping)
    else
      var key := Sized(opcode.rest, 2);
      if key.TooShort? then None
      else if opcode.value == 0x0010 then SetArguments(key.value, key.rest)
      else if opcode.value in {0x0015, 0x0110} then KeyAndNumber(opcode.value, key.value, key.rest)
      else if opcode.value in {0x0020, 0x0100, 0x0101} then KeyAndTwoNumbers(opcode.value, key.value, key.rest)
      else if opcode.value in {0x0102, 0x0103, 0x0120, 0x0121, 0x0122} then TwoTexts(opcode.value, key.value, key.rest)
      else KeyOnly(opcode.value, key.value)
  }

  // ----- the server's reading, with one length check for several fields -----

  /** Reads the payload from the front, dropping what it has read. */
  method ReadCall(payload: bytes) returns (r: Option<Call>)
    ensures r == Decode(payload)
  {
    hide FromBigEndian, SetArguments, KeyAndNumber, KeyAndTwoNumbers, TwoTexts, KeyOnly;
    var p := payload;
    if |p| < 2 { return None; }
    var opcode := FromBigEndian(p[..2]);
    p := p[2..];
    if opcode == 0x0001 { return Some(Ping); }
    if |p| < 2 { return None; }
    var size := FromBigEndian(p[..2]);
    p := p[2..];
    if |p| < size { return None; }
    var key := p[..size];
    p := p[size..];
    if opcode == 0x0010 {
      r := ReadSet(key, p);
    } else if opcode in {0x0015, 0x0110} {
      EightBytes(opcode, key, p);
      if |p| < 8 { return None; }
      var n := FromBigEndian(p[..8]);
      return Some(if opcode == 0x0015 then Expire(key, n) else QuotaInit(key, n));
    } else if opcode in {0x0020, 0x0100, 0x0101} {
      r := ReadNumbers(opcode, key, p);
    } else if opcode in {0x0102, 0x0103, 0x0120, 0x0121, 0x0122} {
      r := ReadTexts(opcode, key, p);
    } else {
      r := KeyOnly(opcode, key);
    }
  }

  lemma EightBytes(opcode: nat, key: bytes, p: bytes)
    ensures KeyAndNumber(opcode, key, p) ==
            if |p| < 8 then None
            else if opcode == 0x0015 then Some(Expire(key, FromBigEndian(p[..8])))
            else Some(QuotaInit(key, FromBigEndian(p[..8])))
  {
  }

  method ReadSet(key: bytes, data: bytes) returns (r: Option<Call>)
    ensures r == SetArguments(key, data)
  {
    hide FromBigEndian;
    var p := data;
    if |p| < 4 { return None; }
    var size := FromBigEndian(p[..4]);
    p := p[4..];
    if |p| < size + 8 + 1 { return None; }
    var value := p[..size];
    p := p[size..];
    var ttl := FromBigEndian(p[..8]);
    p := p[8..];
    FirstByte(p);
    var b := p[0];
    return Some(Set(key, value, if b == 1 then KV.IfAbsent else if b == 2 then KV.IfPresent else KV.Always, ttl));
  }

  lemma FirstByte(p: bytes)
    requires p != []
    ensures FromBigEndian(p[..1]) == p[0] as nat
  {
    assert p[..1][..0] == [];
    assert FromBigEndian([]) == 0;
  }

  method ReadNumbers(opcode: nat, key: bytes, data: bytes) returns (r: Option<Call>)
    ensures r == KeyAndTwoNumbers(opcode, key, data)
  {
    hide FromBigEndian;
    var p := data;
    if |p| < (if opcode in {0x0020, 0x0101} then 8 + 8 else 8 + 8 + 4) { return None; }
    var n := FromBigEndian(p[..8]);
    p := p[8..];
    var m := FromBigEndian(p[..8]);
    p := p[8..];
    if opcode == 0x0020 { return Some(IncrBy(key, Signed(n), m)); }
    if opcode == 0x0101 { return Some(Reserve(key, n, m)); }
    return Some(RateLimit(key, n, m, FromBigEndian(p[..4])));
  }

  method ReadTexts(opcode: nat, key: bytes, data: bytes) returns (r: Option<Call>)
    requires opcode in {0x0102, 0x0103, 0x0120, 0x0121, 0x0122}
    ensures r == TwoTexts(opcode, key, data)
  {
    hide FromBigEndian;
    var p := data;
    if |p| < 2 { return None; }
    var size := FromBigEndian(p[..2]);
    p := p[2..];
    var more := if opcode == 0x0102 then 8
                else if opcode == 0x0120 then 8 + 2 else if opcode == 0x0121 then 2 + 4 else 0;
    if |p| < size + more { return None; }
    var text := p[..size];
    p := p[size..];
    if opcode == 0x0103 { return Some(Rollback(key, text)); }
    if opcode == 0x0102 { return Some(Commit(key, text, FromBigEndian(p[..8]))); }
    if opcode == 0x0122 {
      var message := [];
      if |p| >= 2 {
        size := FromBigEndian(p[..2]);
        if |p| >= 2 + size { message := p[2..2 + size]; }
      }
      assert message == Optional(p);
      return Some(IdemFail(key, text, message));
    }
    if opcode == 0x0120 {
      var ttl := FromBigEndian(p[..8]);
      p := p[8..];
      size := FromBigEndian(p[..2]);
      p := p[2..];
      return Some(IdemBegin(key, text, ttl, if size > 0 && |p| >= size then p[..size] else []));
    }
    var code := FromBigEndian(p[..2]);
    p := p[2..];
    size := FromBigEndian(p[..4]);
    p := p[4..];
    if |p| < size { return None; }
    return Some(IdemComplete(key, text, code, p[..size]));
  }

  // ----- the inverse -----

  lemma NumberBack(n: nat, width: nat, rest: bytes)
    requires n < Pow256(width)
    ensures Number(BigEndian(n, width) + rest, width) == Cut(n, rest)
  {
    var s := BigEndian(n, width);
    BigEndianRoundTrip(n, width);
    assert (s + rest)[..width] == s && (s + rest)[width..] == rest;
  }

  lemma ShortBack(s: bytes, rest: bytes)
    requires |s| < U16
    ensures Sized(Short(s) + rest, 2) == Cut(s, rest)
    ensures Sized(Short(s), 2) == Cut(s, [])
    ensures Number(Short(s), 2) == Cut(|s|, s)
  {
    hide BigEndian, FromBigEndian, Number;
    Widths();
    NumberBack(|s|, 2, s + rest);
    NumberBack(|s|, 2, s);
    assert Short(s) + rest == BigEndian(|s|, 2) + (s + rest);
    assert (s + rest)[..|s|] == s && (s + rest)[|s|..] == rest && s[..|s|] == s;
  }

  lemma LongBack(s: bytes, rest: bytes)
    requires |s| < U32
    ensures Sized(Long(s) + rest, 4) == Cut(s, rest)
    ensures Sized(Long(s), 4) == Cut(s, [])
  {
    hide BigEndian, FromBigEndian, Number;
    Widths();
    NumberBack(|s|, 4, s + rest);
    NumberBack(|s|, 4, s);
    assert Long(s) + rest == BigEndian(|s|, 4) + (s + rest);
    assert (s + rest)[..|s|] == s && (s + rest)[|s|..] == rest && s[..|s|] == s;
  }

  lemma LastNumberBack(n: nat, width: nat)
    requires n < Pow256(width)
    ensures Number(BigEndian(n, width), width) == Cut(n, [])
  {
    NumberBack(n, width, []);
    assert BigEndian(n, width) + [] == BigEndian(n, width);
  }

  lemma SignedBack(delta: int)
    requires I64_MIN <= delta <= I64_MAX
    ensures Signed(delta % U64) == delta
  {
    if delta < 0 { assert delta % U64 == delta + U64; }
  }

  /** The arguments are within the widths the format has for them; the response code apart. */
  predicate Fits(c: Call) {
    && (c.Ping? || |c.key| < U16)
    && (c.Set? ==> |c.value| < U32)
    && ((c.Set? || c.Expire? || c.IncrBy? || c.Reserve? || c.IdemBegin?) ==> c.ttl < U64)
    && (c.IncrBy? ==> I64_MIN <= c.delta <= I64_MAX)
    && (c.RateLimit? ==> c.limit < U64 && c.window < U64 && c.cost < U32)
    && ((c.QuotaInit? || c.Reserve? || c.Commit?) ==> c.amount < U64)
    && ((c.Commit? || c.Rollback?) ==> |c.id| < U16)
    && (c.IdemBegin? ==> |c.hash| < U16)
    && ((c.IdemBegin? || c.IdemComplete? || c.IdemFail?) ==> |c.token| < U16)
    && (c.IdemComplete? ==> |c.body| < U32)
    && (c.IdemFail? ==> |c.message| < U16)
  }

  /** The code of IdemComplete travels in 16 bits. */
  function Sent(c: Call): Call {
    if c.IdemComplete? then c.(code := c.code % U16) else c
  }

  lemma NumbersBack(c: Call)
    requires Fits(c)
    ensures c.Expire? || c.QuotaInit? ==> KeyAndNumber(Opcode(c), c.key, Arguments(c)[2 + |c.key|..]) == Some(c)
    ensures c.IncrBy? || c.Reserve? || c.RateLimit? ==>
              KeyAndTwoNumbers(Opcode(c), c.key, Arguments(c)[2 + |c.key|..]) == Some(c)
  {
    hide BigEndian, Number;
    Widths();
    if c.Expire? || c.QuotaInit? {
      var n := if c.Expire? then c.ttl else c.amount;
      LastNumberBack(n, 8);
      assert Arguments(c)[2 + |c.key|..] == BigEndian(n, 8);
    } else if c.IncrBy? || c.Reserve? {
      var n := if c.IncrBy? then c.delta % U64 else c.amount;
      if c.IncrBy? { SignedBack(c.delta); }
      NumberBack(n, 8, BigEndian(c.ttl, 8));
      LastNumberBack(c.ttl, 8);
      assert Arguments(c)[2 + |c.key|..] == BigEndian(n, 8) + BigEndian(c.ttl, 8);
    } else if c.RateLimit? {
      var tail := BigEndian(c.window, 8) + BigEndian(c.cost, 4);
      NumberBack(c.limit, 8, tail);
      NumberBack(c.window, 8, BigEndian(c.cost, 4));
      LastNumberBack(c.cost, 4);
      assert Arguments(c)[2 + |c.key|..] == BigEndian(c.limit, 8) + tail;
    }
  }

  lemma SetBack(c: Call)
    requires Fits(c) && c.Set?
    ensures SetArguments(c.key, Long(c.value) + (BigEndian(c.ttl, 8) + [ConditionByte(c.condition)])) == Some(c)
  {
    hide BigEndian, Number, Sized, Long;
    Widths();
    var b := ConditionByte(c.condition);
    LongBack(c.value, BigEndian(c.ttl, 8) + [b]);
    NumberBack(c.ttl, 8, [b]);
    OneByte(b);
  }

  lemma OneByte(b: byte)
    ensures Number([b], 1) == Cut(b as nat, [])
  {
    assert [b][..1] == [b] && [b][..0] == [];
    assert FromBigEndian([]) == 0;
  }

  lemma TextsBack(c: Call)
    requires Fits(c) && (c.Commit? || c.Rollback? || c.IdemBegin? || c.IdemComplete? || c.IdemFail?)
    ensures TwoTexts(Opcode(c), c.key, Arguments(c)[2 + |c.key|..]) == Some(Sent(c))
  {
    hide BigEndian, Number, Sized, Short, Long;
    Widths();
    ShortSize(c.key);
    var data := Arguments(c)[2 + |c.key|..];
    match c {
      case Commit(_, id, amount) =>
        assert data == Short(id) + BigEndian(amount, 8);
        ShortBack(id, BigEndian(amount, 8));
        LastNumberBack(amount, 8);
      case Rollback(_, id) =>
        assert data == Short(id);
        ShortBack(id, []);
      case IdemBegin(_, hash, ttl, token) =>
        assert data == Short(hash) + (BigEndian(ttl, 8) + Short(token));
        ShortBack(hash, BigEndian(ttl, 8) + Short(token));
        NumberBack(ttl, 8, Short(token));
        ShortBack(token, []);
        assert token[..|token|] == token;
      case IdemComplete(_, token, code, body) =>
        assert data == Short(token) + (BigEndian(code % U16, 2) + Long(body));
        ShortBack(token, BigEndian(code % U16, 2) + Long(body));
        NumberBack(code % U16, 2, Long(body));
        LongBack(body, []);
      case IdemFail(_, token, message) =>
        assert data == Short(token) + Short(message);
        ShortBack(token, Short(message));
        ShortBack(message, []);
        assert message[..|message|] == message;
    }
  }

  lemma ShortSize(s: bytes)
    ensures |Short(s)| == 2 + |s|
  {
  }

  lemma KeyBack(c: Call)
    requires Fits(c) && !c.Ping?
    ensures Sized(Arguments(c), 2) == Cut(c.key, Arguments(c)[2 + |c.key|..])
  {
    hide BigEndian, Number, Sized, Short, Long;
    ShortSize(c.key);
    var rest := Arguments(c)[2 + |c.key|..];
    assert Arguments(c) == Short(c.key) + rest;
    ShortBack(c.key, rest);
  }

  /** For every call whose arguments fit, the server makes exactly the call the client wrote, the
      response code taken modulo 16 bits. */
  lemma DecodeEncode(c: Call)
    requires Fits(c)
    ensures Decode(Encode(c)) == Some(Sent(c))
  {
    hide BigEndian, Number, Sized, KeyAndNumber, KeyAndTwoNumbers, SetArguments, TwoTexts, Arguments, Fits;
    Widths();
    NumberBack(Opcode(c), 2, Arguments(c));
    if !c.Ping? {
      KeyBack(c);
      if c.Set? {
        SetBack(c);
        SetTail(c);
      } else if c.Commit? || c.Rollback? || c.IdemBegin? || c.IdemComplete? || c.IdemFail? {
        TextsBack(c);
      } else {
        NumbersBack(c);
      }
    }
  }

  lemma SetTail(c: Call)
    requires c.Set?
    ensures |Arguments(c)| >= 2 + |c.key|
    ensures Arguments(c)[2 + |c.key|..] == Long(c.value) + (BigEndian(c.ttl, 8) + [ConditionByte(c.condition)])
  {
    hide BigEndian;
  }

  /** Nothing at all is changed on the way exactly when the response code fits in 16 bits. */
  lemma DecodeEncodeIff(c: Call)
    requires Fits(c)
    ensures Decode(Encode(c)) == Some(c) <==> (c.IdemComplete? ==> 0 <= c.code < U16)
  {
    hide Decode, Encode, Fits;
    DecodeEncode(c);
  }
}
