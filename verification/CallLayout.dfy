/** The bytes of the binary requests: where each argument stands and in how many bytes. */
module CallLayout {
  import opened Decimal
  import opened Wire
  import opened WireLayout
  import Codecs

  // ----- one field at its place -----

  predicate NumberAt(s: bytes, at: nat, width: nat, n: int) { at + width <= |s| && Worth(s[at..at + width]) == n }

  /** A text after its length in two or four bytes. */
  predicate TextAt(s: bytes, at: nat, width: nat, text: bytes) {
    NumberAt(s, at, width, |text|) && at + width + |text| <= |s| && s[at + width..at + width + |text|] == text
  }

  /** What follows is t. */
  predicate Follows(s: bytes, at: nat, t: bytes) { at <= |s| && s[at..] == t }

  lemma NumberThere(s: bytes, at: nat, n: nat, width: nat, rest: bytes)
    requires Follows(s, at, BigEndian(n, width) + rest) && n < Pow256(width)
    ensures NumberAt(s, at, width, n) && Follows(s, at + width, rest)
  {
    hide BigEndian, Worth;
    var t := BigEndian(n, width) + rest;
    assert |t| == |s| - at && t[..width] == BigEndian(n, width) && t[width..] == rest;
    assert s[at..at + width] == s[at..][..width] && s[at + width..] == s[at..][width..];
    WrittenIsWorth(s, at, n, width);
  }

  lemma LastNumberThere(s: bytes, at: nat, n: nat, width: nat)
    requires Follows(s, at, BigEndian(n, width)) && n < Pow256(width)
    ensures NumberAt(s, at, width, n) && at + width == |s|
  {
    hide BigEndian, NumberAt;
    assert BigEndian(n, width) + [] == BigEndian(n, width);
    NumberThere(s, at, n, width, []);
  }

  lemma TextThere(s: bytes, at: nat, text: bytes, width: nat, rest: bytes)
    requires Follows(s, at, BigEndian(|text|, width) + text + rest) && |text| < Pow256(width)
    ensures TextAt(s, at, width, text) && Follows(s, at + width + |text|, rest)
  {
    hide BigEndian, NumberAt;
    assert BigEndian(|text|, width) + text + rest == BigEndian(|text|, width) + (text + rest);
    NumberThere(s, at, |text|, width, text + rest);
    var t := text + rest;
    assert t[..|text|] == text && t[|text|..] == rest;
    assert s[at + width..at + width + |text|] == s[at + width..][..|text|];
    assert s[at + width + |text|..] == s[at + width..][|text|..];
  }

  lemma LastTextThere(s: bytes, at: nat, text: bytes, width: nat)
    requires Follows(s, at, BigEndian(|text|, width) + text) && |text| < Pow256(width)
    ensures TextAt(s, at, width, text) && at + width + |text| == |s|
  {
    hide BigEndian, TextAt;
    assert BigEndian(|text|, width) + text + [] == BigEndian(|text|, width) + text;
    TextThere(s, at, text, width, []);
  }

  // ----- requests -----

  /** The key comes first, after the operation in two bytes. */
  predicate Starts(s: bytes, opcode: nat, key: bytes) { NumberAt(s, 0, 2, opcode) && TextAt(s, 2, 2, key) }

  predicate OneNumber(s: bytes, opcode: nat, key: bytes, n: nat) {
    Starts(s, opcode, key) && NumberAt(s, 4 + |key|, 8, n) && |s| == 12 + |key|
  }

  predicate TwoNumbers(s: bytes, opcode: nat, key: bytes, n: int, m: nat) {
    Starts(s, opcode, key) && NumberAt(s, 4 + |key|, 8, n) && NumberAt(s, 12 + |key|, 8, m)
  }

  predicate TwoTexts(s: bytes, opcode: nat, key: bytes, text: bytes) {
    Starts(s, opcode, key) && TextAt(s, 4 + |key|, 2, text)
  }

  predicate KeyAlone(s: bytes, opcode: nat, key: bytes) { Starts(s, opcode, key) && |s| == 4 + |key| }

  predicate LaidOut(s: bytes, c: Codecs.Call) {
    match c
    case Ping => NumberAt(s, 0, 2, 1) && |s| == 2
    case Get(key) => KeyAlone(s, 0x11, key)
    case Set(key, value, condition, ttl) =>
      var end := 8 + |key| + |value|;
      && Starts(s, 0x10, key) && TextAt(s, 4 + |key|, 4, value) && NumberAt(s, end, 8, ttl) && |s| == end + 9
      && s[end + 8] == if condition.IfAbsent? then 1 else if condition.IfPresent? then 2 else 0
    case Del(key) => KeyAlone(s, 0x12, key)
    case Exists(key) => KeyAlone(s, 0x13, key)
    case TypeOf(key) => KeyAlone(s, 0x14, key)
    case Expire(key, ttl) => OneNumber(s, 0x15, key, ttl)
    case Ttl(key) => KeyAlone(s, 0x16, key)
    case IncrBy(key, delta, ttl) =>
      TwoNumbers(s, 0x20, key, if delta < 0 then delta + 0x1_0000_0000_0000_0000 else delta, ttl) && |s| == 20 + |key|
    case RateLimit(key, limit, window, cost) =>
      TwoNumbers(s, 0x100, key, limit, window) && NumberAt(s, 20 + |key|, 4, cost) && |s| == 24 + |key|
    case QuotaInit(key, amount) => OneNumber(s, 0x110, key, amount)
    case QuotaGet(key) => KeyAlone(s, 0x111, key)
    case Reserve(key, amount, ttl) => TwoNumbers(s, 0x101, key, amount, ttl) && |s| == 20 + |key|
    case Commit(key, id, amount) =>
      TwoTexts(s, 0x102, key, id) && NumberAt(s, 6 + |key| + |id|, 8, amount) && |s| == 14 + |key| + |id|
    case Rollback(key, id) => TwoTexts(s, 0x103, key, id) && |s| == 6 + |key| + |id|
    case IdemBegin(key, hash, ttl, token) =>
      var end := 6 + |key| + |hash|;
      && TwoTexts(s, 0x120, key, hash) && NumberAt(s, end, 8, ttl) && TextAt(s, end + 8, 2, token)
      && |s| == end + 10 + |token|
    case IdemComplete(key, token, code, body) =>
      var end := 6 + |key| + |token|;
      && TwoTexts(s, 0x121, key, token) && NumberAt(s, end, 2, code % 0x1_0000) && TextAt(s, end + 2, 4, body)
      && |s| == end + 6 + |body|
    case IdemFail(key, token, message) =>
      var end := 6 + |key| + |token|;
      TwoTexts(s, 0x122, key, token) && TextAt(s, end, 2, message) && |s| == end + 2 + |message|
  }

  lemma Unchanged(n: nat, m: nat)
    requires n < m
    ensures n % m == n
  {
  }

  lemma Shorter(text: bytes)
    requires |text| < 0x1_0000
    ensures Codecs.Short(text) == BigEndian(|text|, 2) + text
  {
    hide BigEndian;
    Unchanged(|text|, 0x1_0000);
  }

  lemma Longer(text: bytes)
    requires |text| < 0x1_0000_0000
    ensures Codecs.Long(text) == BigEndian(|text|, 4) + text
  {
    hide BigEndian;
    Unchanged(|text|, 0x1_0000_0000);
  }

  lemma Beginning(s: bytes, opcode: nat, key: bytes, rest: bytes)
    requires s == BigEndian(opcode, 2) + (Codecs.Short(key) + rest) && opcode < 0x1_0000 && |key| < 0x1_0000
    ensures Starts(s, opcode, key) && Follows(s, 4 + |key|, rest)
  {
    hide BigEndian, NumberAt, TextAt, Codecs.Short, Pow256;
    Widths();
    Shorter(key);
    assert s[0..] == s;
    NumberThere(s, 0, opcode, 2, Codecs.Short(key) + rest);
    TextThere(s, 2, key, 2, rest);
  }

  lemma KeyOnly(s: bytes, opcode: nat, key: bytes)
    requires s == BigEndian(opcode, 2) + Codecs.Short(key) && opcode < 0x1_0000 && |key| < 0x1_0000
    ensures KeyAlone(s, opcode, key)
  {
    hide BigEndian, Starts, Codecs.Short;
    assert Codecs.Short(key) + [] == Codecs.Short(key);
    Beginning(s, opcode, key, []);
  }

  lemma KeyAndNumbers(c: Codecs.Call)
    requires Codecs.Fits(c) && (c.Expire? || c.QuotaInit? || c.IncrBy? || c.Reserve? || c.RateLimit?)
    ensures LaidOut(Codecs.Encode(c), c)
  {
    hide BigEndian, Starts, NumberAt, TextAt, Follows, Codecs.Short, Pow256;
    Widths();
    var s, at := Codecs.Encode(c), 4 + |c.key|;
    match c {
      case Expire(key, ttl) =>
        Beginning(s, 0x15, key, BigEndian(ttl, 8));
        LastNumberThere(s, at, ttl, 8);
      case QuotaInit(key, amount) =>
        Beginning(s, 0x110, key, BigEndian(amount, 8));
        LastNumberThere(s, at, amount, 8);
      case IncrBy(key, delta, ttl) =>
        var n := delta % U64;
        assert n == if delta < 0 then delta + U64 else delta;
        Beginning(s, 0x20, key, BigEndian(n, 8) + BigEndian(ttl, 8));
        NumberThere(s, at, n, 8, BigEndian(ttl, 8));
        LastNumberThere(s, at + 8, ttl, 8);
      case Reserve(key, amount, ttl) =>
        Beginning(s, 0x101, key, BigEndian(amount, 8) + BigEndian(ttl, 8));
        NumberThere(s, at, amount, 8, BigEndian(ttl, 8));
        LastNumberThere(s, at + 8, ttl, 8);
      case RateLimit(key, limit, window, cost) =>
        var tail := BigEndian(window, 8) + BigEndian(cost, 4);
        Beginning(s, 0x100, key, BigEndian(limit, 8) + tail);
        NumberThere(s, at, limit, 8, tail);
        NumberThere(s, at + 8, window, 8, BigEndian(cost, 4));
        LastNumberThere(s, at + 16, cost, 4);
    }
  }

  lemma SetLaidOut(c: Codecs.Call)
    requires Codecs.Fits(c) && c.Set?
    ensures LaidOut(Codecs.Encode(c), c)
  {
    hide BigEndian, Starts, NumberAt, TextAt, Codecs.Short, Codecs.Long, Pow256;
    Widths();
    Longer(c.value);
    var s, at, b := Codecs.Encode(c), 4 + |c.key|, [Codecs.ConditionByte(c.condition)];
    var end := at + 4 + |c.value|;
    Beginning(s, 0x10, c.key, Codecs.Long(c.value) + (BigEndian(c.ttl, 8) + b));
    TextThere(s, at, c.value, 4, BigEndian(c.ttl, 8) + b);
    NumberThere(s, end, c.ttl, 8, b);
    assert s[end + 8] == s[end + 8..][0];
  }

  lemma QuotaTexts(c: Codecs.Call)
    requires Codecs.Fits(c) && (c.Commit? || c.Rollback?)
    ensures LaidOut(Codecs.Encode(c), c)
  {
    hide BigEndian, Starts, NumberAt, TextAt, Follows, Codecs.Short, Pow256;
    Widths();
    Shorter(c.id);
    var s, at := Codecs.Encode(c), 4 + |c.key|;
    if c.Rollback? {
      Beginning(s, 0x103, c.key, Codecs.Short(c.id));
      LastTextThere(s, at, c.id, 2);
    } else {
      Beginning(s, 0x102, c.key, Codecs.Short(c.id) + BigEndian(c.amount, 8));
      TextThere(s, at, c.id, 2, BigEndian(c.amount, 8));
      LastNumberThere(s, at + 2 + |c.id|, c.amount, 8);
    }
  }

  lemma IdemBeginLaidOut(c: Codecs.Call)
    requires Codecs.Fits(c) && c.IdemBegin?
    ensures LaidOut(Codecs.Encode(c), c)
  {
    hide BigEndian, Starts, NumberAt, TextAt, Follows, Codecs.Short, Pow256;
    Widths();
    Shorter(c.hash);
    Shorter(c.token);
    var s, at, tail := Codecs.Encode(c), 4 + |c.key|, BigEndian(c.ttl, 8) + Codecs.Short(c.token);
    Beginning(s, 0x120, c.key, Codecs.Short(c.hash) + tail);
    TextThere(s, at, c.hash, 2, tail);
    NumberThere(s, at + 2 + |c.hash|, c.ttl, 8, Codecs.Short(c.token));
    LastTextThere(s, at + 10 + |c.hash|, c.token, 2);
  }

  lemma IdemEndLaidOut(c: Codecs.Call)
    requires Codecs.Fits(c) && (c.IdemComplete? || c.IdemFail?)
    ensures LaidOut(Codecs.Encode(c), c)
  {
    hide BigEndian, Starts, NumberAt, TextAt, Follows, Codecs.Short, Codecs.Long, Pow256;
    Widths();
    Shorter(c.token);
    var s, at := Codecs.Encode(c), 4 + |c.key|;
    var end := at + 2 + |c.token|;
    if c.IdemFail? {
      Shorter(c.message);
      Beginning(s, 0x122, c.key, Codecs.Short(c.token) + Codecs.Short(c.message));
      TextThere(s, at, c.token, 2, Codecs.Short(c.message));
      LastTextThere(s, end, c.message, 2);
    } else {
      Longer(c.body);
      var tail := BigEndian(c.code % 0x1_0000, 2) + Codecs.Long(c.body);
      Beginning(s, 0x121, c.key, Codecs.Short(c.token) + tail);
      TextThere(s, at, c.token, 2, tail);
      NumberThere(s, end, c.code % 0x1_0000, 2, Codecs.Long(c.body));
      LastTextThere(s, end + 2, c.body, 4);
    }
  }

  lemma KeyAloneLaidOut(c: Codecs.Call)
    requires Codecs.Fits(c) && (c.Get? || c.Del? || c.Exists? || c.TypeOf? || c.Ttl? || c.QuotaGet?)
    ensures LaidOut(Codecs.Encode(c), c)
  {
    hide BigEndian, KeyAlone, Codecs.Short;
    KeyOnly(Codecs.Encode(c), Codecs.Opcode(c), c.key);
  }

  lemma PingLaidOut()
    ensures LaidOut(Codecs.Encode(Codecs.Ping), Codecs.Ping)
  {
    hide BigEndian, NumberAt, Pow256;
    Widths();
    var s := Codecs.Encode(Codecs.Ping);
    assert s == BigEndian(1, 2) && s[0..] == s;
    LastNumberThere(s, 0, 1, 2);
  }

  /** Every request that fits the format is written byte for byte as laid out. */
  lemma CallsLaidOut(c: Codecs.Call)
    requires Codecs.Fits(c)
    ensures LaidOut(Codecs.Encode(c), c)
  {
    hide LaidOut, Codecs.Encode, Codecs.Fits;
    match c {
      case Ping => PingLaidOut();
      case Set(_, _, _, _) => SetLaidOut(c);
      case Expire(_, _) => KeyAndNumbers(c);
      case QuotaInit(_, _) => KeyAndNumbers(c);
      case IncrBy(_, _, _) => KeyAndNumbers(c);
      case Reserve(_, _, _) => KeyAndNumbers(c);
      case RateLimit(_, _, _, _) => KeyAndNumbers(c);
      case Commit(_, _, _) => QuotaTexts(c);
      case Rollback(_, _) => QuotaTexts(c);
      case IdemBegin(_, _, _, _) => IdemBeginLaidOut(c);
      case IdemComplete(_, _, _, _) => IdemEndLaidOut(c);
      case IdemFail(_, _, _) => IdemEndLaidOut(c);
      case _ => KeyAloneLaidOut(c);
    }
  }
}
