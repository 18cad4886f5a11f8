/** What the quoting and the readers promise each other, and what the readers make of escapes. */
module JsonStrings {
  import opened Options
  import opened Sequences
  import opened Decimal
  import opened Json

  // ----- what is quoted is read back -----

  lemma ByteInHex(n: nat)
    requires n < 32
    ensures var t := "00" + [HexDigit(n / 16), HexDigit(n % 16)]; AllHex(t) && HexNumber(t) == n
  {
    hide HexNumber, AllHex;
    NoHex();
    var high, low := HexDigit(n / 16), HexDigit(n % 16);
    HexMore("", '0');
    HexMore("0", '0');
    HexMore("00", high);
    HexMore("00" + [high], low);
    assert "" + ['0'] == "0" && "0" + ['0'] == "00";
    assert "00" + [high] + [low] == "00" + [high, low];
    HexDigits(n);
  }

  lemma HexDigits(n: nat)
    requires n < 256
    ensures IsHex(HexDigit(n / 16)) && HexValue(HexDigit(n / 16)) == n / 16
    ensures IsHex(HexDigit(n % 16)) && HexValue(HexDigit(n % 16)) == n % 16
    ensures n == n / 16 * 16 + n % 16
  {
  }

  lemma OneByte(c: char)
    requires c < ' '
    ensures Utf8(c as nat) == [c]
  {
  }

  lemma OneCharacter(c: char, s: string, at: nat, strict: bool)
    requires StartsWith(s, at, Escaped(c))
    ensures CharsFrom(s, at, strict) == After([c], CharsFrom(s, at + |Escaped(c)|, strict))
  {
    hide HexNumber, AllHex, Utf8;
    var e := Escaped(c);
    assert s[at] == s[at..at + |e|][0];
    if |e| == 2 {
      assert s[at + 1] == s[at..at + |e|][1];
    } else if |e| == 6 {
      assert s[at + 1] == s[at..at + |e|][1];
      assert s[at + 2..at + 6] == s[at..at + 6][2..] == "00" + [HexDigit(c as nat / 16), HexDigit(c as nat % 16)];
      ByteInHex(c as nat);
      OneByte(c);
      assert UnicodeAt(s, at + 2, strict) == Got([c], at + 6);
    }
  }

  lemma StartsInTwo(s: string, at: nat, a: string, b: string)
    requires StartsWith(s, at, a + b)
    ensures StartsWith(s, at, a) && StartsWith(s, at + |a|, b)
  {
    var n := |a + b|;
    assert s[at..at + |a|] == s[at..at + n][..|a|] == a;
    assert s[at + |a|..at + n] == s[at..at + n][|a|..] == b;
  }

  lemma {:induction false} QuoteReadsBack(value: string, s: string, at: nat, strict: bool)
    requires StartsWith(s, at, Quoted(value))
    ensures CharsFrom(s, at, strict) == Got(value, at + |Quoted(value)|)
    decreases |value|
  {
    hide Escaped, EscapeAt;
    if value == [] {
      assert s[at] == s[at..at + 1][0];
    } else {
      hide StartsWith, CharsFrom;
      var n := |Escaped(value[0])|;
      StartsInTwo(s, at, Escaped(value[0]), Quoted(value[1..]));
      OneCharacter(value[0], s, at, strict);
      QuoteReadsBack(value[1..], s, at + n, strict);
      assert [value[0]] + value[1..] == value;
    }
  }

  /** Both readers, put before a quoted value, return it and stop right after its closing quote. */
  lemma QuotedValue(value: string, before: string, after: string, strict: bool)
    ensures var s := before + "\"" + Quoted(value) + after;
            StringAt(s, |before|, strict) == Got(value, |s| - |after|)
  {
    hide Quoted, CharsFrom;
    var s := before + "\"" + Quoted(value) + after;
    assert s[|before|] == '"';
    assert s[|before| + 1..|before| + 1 + |Quoted(value)|] == Quoted(value);
    QuoteReadsBack(value, s, |before| + 1, strict);
  }

  // ----- Unicode escapes -----

  predicate Scalar(u: nat) { u < 0x110000 && !IsHigh(u) && !IsLow(u) }

  /** Four hexadecimal digits, in either case, that write n. */
  predicate Writes(digits: string, n: nat) { |digits| == 4 && AllHex(digits) && HexNumber(digits) == n }

  /** Section 7 of RFC 8259: one escape below U+10000, else a surrogate pair. */
  predicate EscapeOf(text: string, u: nat)
    requires Scalar(u)
  {
    if u < 0x10000 then |text| == 6 && text[..2] == "\\u" && Writes(text[2..], u)
    else
      && |text| == 12 && text[..2] == "\\u" && Writes(text[2..6], 0xD800 + (u - 0x10000) / 1024)
      && text[6..8] == "\\u" && Writes(text[8..], 0xDC00 + (u - 0x10000) % 1024)
  }

  lemma OneEscape(text: string, u: nat, s: string, at: nat, strict: bool)
    requires Scalar(u) && EscapeOf(text, u) && StartsWith(s, at, text)
    ensures CharsFrom(s, at, strict) == After(Utf8(u), CharsFrom(s, at + |text|, strict))
  {
    hide HexNumber, AllHex, Utf8;
    assert text[..2][0] == '\\' && text[..2][1] == 'u';
    assert s[at] == s[at..at + |text|][0] && s[at + 1] == s[at..at + |text|][1];
    assert s[at + 2..at + 6] == s[at..at + |text|][2..6] == text[2..6];
    if u < 0x10000 {
      assert text[2..6] == text[2..];
      assert UnicodeAt(s, at + 2, strict) == Got(Utf8(u), at + 6);
    } else {
      assert s[at + 6..at + 8] == s[at..at + |text|][6..8] == text[6..8];
      assert s[at + 8..at + 12] == s[at..at + |text|][8..12] == text[8..];
      assert Pair(0xD800 + (u - 0x10000) / 1024, 0xDC00 + (u - 0x10000) % 1024) == u;
      assert UnicodeAt(s, at + 2, strict) == Got(Utf8(u), at + 12);
    }
  }

  function Utf8All(us: seq<nat>): string
    requires forall i :: 0 <= i < |us| ==> Scalar(us[i])
  {
    if us == [] then ""
    else
      assert Scalar(us[0]);
      Utf8(us[0]) + Utf8All(us[1..])
  }

  lemma QuoteNext(texts: seq<string>, s: string, at: nat, strict: bool)
    requires texts == [] && StartsWith(s, at, Concat(texts) + "\"")
    ensures at < |s| && CharsFrom(s, at, strict) == Got("", at + 1) && Concat(texts) == ""
  {
    assert s[at] == s[at..at + 1][0];
  }

  lemma FirstText(texts: seq<string>, end: string, s: string, at: nat)
    requires texts != [] && StartsWith(s, at, Concat(texts) + end)
    ensures StartsWith(s, at, texts[0]) && StartsWith(s, at + |texts[0]|, Concat(texts[1..]) + end)
    ensures |Concat(texts)| == |texts[0]| + |Concat(texts[1..])|
  {
    hide StartsWith;
    Regroup(texts[0], Concat(texts[1..]), end);
    StartsInTwo(s, at, texts[0], Concat(texts[1..]) + end);
  }

  /** Scalar values written as escapes come out as their UTF-8 form. */
  lemma {:induction false} EscapesDecode(texts: seq<string>, us: seq<nat>, s: string, at: nat, strict: bool)
    requires |texts| == |us| && forall i :: 0 <= i < |us| ==> Scalar(us[i]) && EscapeOf(texts[i], us[i])
    requires StartsWith(s, at, Concat(texts) + "\"")
    ensures CharsFrom(s, at, strict) == Got(Utf8All(us), at + |Concat(texts)| + 1)
    decreases |us|
  {
    hide EscapeOf, EscapeAt, Utf8, Concat, StartsWith, CharsFrom;
    if us == [] {
      QuoteNext(texts, s, at, strict);
    } else {
      FirstText(texts, "\"", s, at);
      OneEscape(texts[0], us[0], s, at, strict);
      EscapesDecode(texts[1..], us[1..], s, at + |texts[0]|, strict);
    }
  }

  predicate Tail(c: char) { 0x80 as char <= c <= 0xBF as char }

  /** The table of section 4 of RFC 3629: the length of the well-formed character at the front. */
  function WellFormed(s: string): (n: nat)
    ensures n <= 4 && n <= |s|
  {
    if s == [] then 0
    else
      var b := s[0] as nat;
      if b <= 0x7F then 1
      else if 0xC2 <= b <= 0xDF && |s| > 1 && Tail(s[1]) then 2
      else if 0xE0 <= b <= 0xEF && |s| > 2 && Tail(s[1]) && Tail(s[2])
              && (b == 0xE0 ==> s[1] as nat >= 0xA0) && (b == 0xED ==> s[1] as nat <= 0x9F) then 3
      else if 0xF0 <= b <= 0xF4 && |s| > 3 && Tail(s[1]) && Tail(s[2]) && Tail(s[3])
              && (b == 0xF0 ==> s[1] as nat >= 0x90) && (b == 0xF4 ==> s[1] as nat <= 0x8F) then 4
      else 0
  }

  /** Section 3 of RFC 3629, read backwards: the bits the bytes of one character carry. */
  function Bits(s: string): nat
    requires 1 <= |s| <= 4 && WellFormed(s) == |s|
  {
    var b := s[0] as nat;
    if |s| == 1 then b
    else if |s| == 2 then (b - 0xC0) * 64 + (s[1] as nat - 0x80)
    else if |s| == 3 then (b - 0xE0) * 4096 + (s[1] as nat - 0x80) * 64 + (s[2] as nat - 0x80)
    else (b - 0xF0) * 262144 + (s[1] as nat - 0x80) * 4096 + (s[2] as nat - 0x80) * 64 + (s[3] as nat - 0x80)
  }

  function FromUtf8(s: string): Option<seq<nat>>
    decreases |s|
  {
    if s == [] then Some([])
    else
      var n := WellFormed(s);
      if n == 0 then None
      else
        WellFormedAlone(s);
        var rest := FromUtf8(s[n..]);
        if rest.None? then None else Some([Bits(s[..n])] + rest.value)
  }

  lemma WellFormedAlone(s: string)
    ensures WellFormed(s) > 0 ==> WellFormed(s[..WellFormed(s)]) == WellFormed(s)
  {
  }

  lemma OneCodePoint(u: nat, rest: string)
    requires Scalar(u)
    ensures var t := Utf8(u); WellFormed(t + rest) == |t| == WellFormed(t) && Bits(t) == u
  {
    if u < 0x80 {
    } else if u < 0x800 {
      assert u == u / 64 * 64 + u % 64;
    } else if u < 0x10000 {
      ThreeBytes(u);
    } else {
      FourBytes(u);
    }
  }

  lemma ThreeBytes(u: nat)
    requires Scalar(u) && 0x800 <= u < 0x10000
    ensures WellFormed(Utf8(u)) == 3 && Bits(Utf8(u)) == u
  {
    var a, b, c := u / 4096, u / 64 % 64, u % 64;
    assert u == a * 4096 + b * 64 + c;
  }

  lemma FourBytes(u: nat)
    requires Scalar(u) && 0x10000 <= u
    ensures WellFormed(Utf8(u)) == 4 && Bits(Utf8(u)) == u
  {
    hide WellFormed, Bits;
    Digits(u);
    FourParts(u, u / 262144, u / 4096 % 64, u / 64 % 64, u % 64);
  }

  lemma Digits(u: nat)
    ensures u == u / 262144 * 262144 + u / 4096 % 64 * 4096 + u / 64 % 64 * 64 + u % 64
  {
    var x, y := u / 64, u / 4096;
    Quotients(u, 64);
    Quotients(u, 4096);
    Digit(u);
    Digit(x);
    Digit(y);
  }

  lemma Digit(n: nat)
    ensures n == n / 64 * 64 + n % 64
  {
  }

  lemma Quotients(u: nat, d: nat)
    requires d == 64 || d == 4096
    ensures u / d / 64 == u / (d * 64)
  {
  }

  lemma FourParts(u: nat, a: nat, b: nat, c: nat, d: nat)
    requires 0x10000 <= u < 0x110000 && u == a * 262144 + b * 4096 + c * 64 + d && b < 64 && c < 64 && d < 64
    ensures a <= 4
    ensures var t := [Byte(0xF0 + a), Byte(0x80 + b), Byte(0x80 + c), Byte(0x80 + d)];
            WellFormed(t) == 4 && Bits(t) == u
  {
  }

  /** What the readers produce from escapes is well-formed UTF-8 of exactly those scalar values. */
  lemma {:induction false} Utf8ReadsBack(us: seq<nat>)
    requires forall i :: 0 <= i < |us| ==> Scalar(us[i])
    ensures FromUtf8(Utf8All(us)) == Some(us)
  {
    hide Utf8, WellFormed, Bits;
    if us != [] {
      var t, rest := Utf8(us[0]), Utf8All(us[1..]);
      OneCodePoint(us[0], rest);
      Utf8ReadsBack(us[1..]);
      assert (t + rest)[..|t|] == t && (t + rest)[|t|..] == rest;
      assert t + rest != [];
      assert [us[0]] + us[1..] == us;
    }
  }

  // ----- the two readers compared -----

  /** Whatever string the strict reader accepts, the other accepts with the same value. */
  lemma {:induction false} StrictIsStricter(s: string, at: nat)
    requires at <= |s| && CharsFrom(s, at, true).Got?
    ensures CharsFrom(s, at, false) == CharsFrom(s, at, true)
    decreases |s| - at
  {
    if s[at] != '"' {
      if s[at] != '\\' {
        StrictIsStricter(s, at + 1);
      } else {
        assert EscapeAt(s, at + 1, false) == EscapeAt(s, at + 1, true);
        StrictIsStricter(s, EscapeAt(s, at + 1, true).next);
      }
    }
  }

  // ----- reading more of a text -----

  lemma {:induction false} SkipStays(p: string, x: string, at: nat, strict: bool)
    requires at <= |p| && SkipFrom(p, at, strict) < |p|
    ensures SkipFrom(p + x, at, strict) == SkipFrom(p, at, strict)
    decreases |p| - at
  {
    if Blank(p[at], strict) { SkipStays(p, x, at + 1, strict); }
  }

  lemma TakeStays(p: string, x: string, at: nat, strict: bool)
    requires at <= |p| && SkipFrom(p, at, strict) < |p|
    ensures forall c :: TakeAt(p + x, at, c, strict) == TakeAt(p, at, c, strict)
  {
    SkipStays(p, x, at, strict);
  }

  lemma HexStays(p: string, x: string, at: nat)
    requires HexAt(p, at).Got?
    ensures HexAt(p + x, at) == HexAt(p, at)
  {
    assert (p + x)[at..at + 4] == p[at..at + 4];
  }

  lemma UnicodeStays(p: string, x: string, at: nat, strict: bool)
    requires UnicodeAt(p, at, strict).Got?
    ensures UnicodeAt(p + x, at, strict) == UnicodeAt(p, at, strict)
  {
    hide HexAt, Utf8;
    HexStays(p, x, at);
    var first := HexAt(p, at);
    if IsHigh(first.value) {
      assert (p + x)[first.next..first.next + 2] == p[first.next..first.next + 2];
      HexStays(p, x, first.next + 2);
    }
  }

  lemma EscapeStays(p: string, x: string, at: nat, strict: bool)
    requires EscapeAt(p, at, strict).Got?
    ensures EscapeAt(p + x, at, strict) == EscapeAt(p, at, strict)
  {
    hide UnicodeAt;
    if Unescaped(p[at]).None? { UnicodeStays(p, x, at + 1, strict); }
  }

  lemma {:induction false} CharsStay(p: string, x: string, at: nat, strict: bool)
    requires at <= |p| && CharsFrom(p, at, strict).Got?
    ensures CharsFrom(p + x, at, strict) == CharsFrom(p, at, strict)
    decreases |p| - at
  {
    hide EscapeAt;
    if p[at] != '"' {
      if p[at] != '\\' {
        CharsStay(p, x, at + 1, strict);
      } else {
        EscapeStays(p, x, at + 1, strict);
        CharsStay(p, x, EscapeAt(p, at + 1, strict).next, strict);
      }
    }
  }

  /** A string once read stays as it was read, whatever follows in a longer text. */
  lemma StringStays(p: string, x: string, at: nat, strict: bool)
    requires at <= |p| && StringAt(p, at, strict).Got?
    ensures StringAt(p + x, at, strict) == StringAt(p, at, strict)
  {
    TakeStays(p, x, at, strict);
    CharsStay(p, x, TakeAt(p, at, '"', strict).value, strict);
  }

  lemma {:induction false} ItemsStay(p: string, x: string, at: nat, strict: bool)
    requires at <= |p| && ItemsFrom(p, at, strict).Got?
    ensures ItemsFrom(p + x, at, strict) == ItemsFrom(p, at, strict)
    decreases |p| - at
  {
    hide StringAt;
    StringStays(p, x, at, strict);
    var item := StringAt(p, at, strict);
    TakeStays(p, x, item.next, strict);
    if TakeAt(p, item.next, ']', strict).None? {
      ItemsStay(p, x, TakeAt(p, item.next, ',', strict).value, strict);
    }
  }

  lemma ArrayStays(p: string, x: string, at: nat, strict: bool)
    requires at <= |p| && ArrayAt(p, at, strict).Got?
    ensures ArrayAt(p + x, at, strict) == ArrayAt(p, at, strict)
  {
    hide ItemsFrom, TakeAt;
    OpenStays(p, x, at, '[', strict);
    var open := TakeAt(p, at, '[', strict).value;
    if TakeAt(p, open, ']', strict).Some? {
      OpenStays(p, x, open, ']', strict);
    } else {
      ItemsStay(p, x, open, strict);
      ItemsStart(p, open, strict);
      TakeStays(p, x, open, strict);
    }
  }

  lemma OpenStays(p: string, x: string, at: nat, c: char, strict: bool)
    requires at <= |p| && TakeAt(p, at, c, strict).Some?
    ensures TakeAt(p + x, at, c, strict) == TakeAt(p, at, c, strict)
  {
    TakeStays(p, x, at, strict);
  }

  lemma ItemsStart(s: string, at: nat, strict: bool)
    requires at <= |s| && ItemsFrom(s, at, strict).Got?
    ensures SkipFrom(s, at, strict) < |s|
  {
    hide CharsFrom;
  }

  lemma {:induction false} DigitsStay(p: string, x: string, at: nat)
    requires at <= |p| && DigitsEnd(p, at) < |p|
    ensures DigitsEnd(p + x, at) == DigitsEnd(p, at)
    decreases |p| - at
  {
    if IsDigit(p[at]) { DigitsStay(p, x, at + 1); }
  }

  /** A number stays as it was read when something that is no digit followed it. */
  lemma NumberStays(p: string, x: string, at: nat, strict: bool)
    requires at <= |p| && NumberAt(p, at, strict).Got? && NumberAt(p, at, strict).next < |p|
    ensures NumberAt(p + x, at, strict) == NumberAt(p, at, strict)
  {
    hide Wrapped;
    SkipStays(p, x, at, strict);
    var start := SkipFrom(p, at, strict);
    DigitsStay(p, x, start);
    var end := DigitsEnd(p, start);
    assert (p + x)[start..end] == p[start..end];
  }
}
