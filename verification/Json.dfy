/** JSON strings: the quoting the server writes and the two readers it parses requests with. The
    readers differ in three points, told apart by `strict`: the body reader skips only the blanks of
    section 2 of RFC 8259, refuses raw control characters and refuses a low surrogate on its own. */
module Json {
  import opened Options
  import opened Decimal

  datatype Reading<T> = Failed | Got(value: T, next: nat)

  const BACKSPACE := 8 as char
  const FORM_FEED := 12 as char

  // ----- writing -----

  function HexDigit(d: nat): char
    requires d < 16
  {
    if d < 10 then '0' + d as char else 'a' + (d - 10) as char
  }

  function Escaped(c: char): string {
    if c == '"' then "\\\""
    else if c == '\\' then "\\\\"
    else if c == '\n' then "\\n"
    else if c == '\r' then "\\r"
    else if c == '\t' then "\\t"
    else if c == BACKSPACE then "\\b"
    else if c == FORM_FEED then "\\f"
    else if c < ' ' then "\\u00" + [HexDigit(c as nat / 16), HexDigit(c as nat % 16)]
    else [c]
  }

  function Quoted(value: string): string {
    if value == [] then "\"" else Escaped(value[0]) + Quoted(value[1..])
  }

  /** The text between the quotes, and the closing quote. */
  method QuoteJson(value: string) returns (out: string)
    ensures out == "\"" + Quoted(value)
  {
    hide Quoted, Escaped;
    out := "\"";
    QuoteEnds(value);
    for i := 0 to |value|
      invariant out + Quoted(value[i..]) == "\"" + Quoted(value)
    {
      QuoteStep(out, value, i);
      out := out + Escaped(value[i]);
    }
    out := out + "\"";
  }

  lemma QuoteEnds(value: string)
    ensures value[0..] == value && Quoted(value[|value|..]) == "\""
  {
  }

  lemma QuoteStep(out: string, value: string, i: nat)
    requires i < |value|
    ensures out + Quoted(value[i..]) == out + Escaped(value[i]) + Quoted(value[i + 1..])
  {
    hide Escaped;
    assert value[i..][1..] == value[i + 1..];
  }

  predicate Printable(s: string) { forall i :: 0 <= i < |s| ==> s[i] >= ' ' }

  lemma {:induction false} NoControlCharacters(value: string)
    ensures Printable(Quoted(value))
  {
    if value != [] { NoControlCharacters(value[1..]); }
  }

  // ----- what the readers read -----

  predicate Blank(c: char, strict: bool) {
    if strict then c == ' ' || c == '\t' || c == '\n' || c == '\r' else IsSpace(c)
  }

  function SkipFrom(s: string, at: nat, strict: bool): (r: nat)
    requires at <= |s|
    ensures at <= r <= |s|
    decreases |s| - at
  {
    if at < |s| && Blank(s[at], strict) then SkipFrom(s, at + 1, strict) else at
  }

  /** The position after the character c, if c comes next. */
  function TakeAt(s: string, at: nat, c: char, strict: bool): (r: Option<nat>)
    requires at <= |s|
    ensures r.Some? ==> at < r.value <= |s|
  {
    var p := SkipFrom(s, at, strict);
    if p < |s| && s[p] == c then Some(p + 1) else None
  }

  predicate StartsWith(s: string, at: nat, text: string) {
    at + |text| <= |s| && s[at..at + |text|] == text
  }

  predicate IsHex(c: char) { IsDigit(c) || 'a' <= c <= 'f' || 'A' <= c <= 'F' }

  function HexValue(c: char): (v: nat)
    requires IsHex(c)
    ensures v < 16
  {
    if IsDigit(c) then (c - '0') as nat else if c >= 'a' then (c - 'a') as nat + 10 else (c - 'A') as nat + 10
  }

  predicate AllHex(s: string) { forall i :: 0 <= i < |s| ==> IsHex(s[i]) }

  function Pow16(n: nat): nat { if n == 0 then 1 else 16 * Pow16(n - 1) }

  function HexNumber(s: string): (v: nat)
    requires AllHex(s)
    ensures v < Pow16(|s|)
  {
    if s == [] then 0 else HexNumber(s[..|s| - 1]) * 16 + HexValue(s[|s| - 1])
  }

  lemma NoHex()
    ensures AllHex("") && HexNumber("") == 0
  {
  }

  lemma HexMore(s: string, c: char)
    requires AllHex(s) && IsHex(c)
    ensures AllHex(s + [c]) && HexNumber(s + [c]) == HexNumber(s) * 16 + HexValue(c)
  {
    assert (s + [c])[..|s|] == s;
  }

  function HexAt(s: string, at: nat): (r: Reading<nat>)
    ensures r.Got? ==> r.next == at + 4 <= |s| && r.value < 0x10000
  {
    if at + 4 <= |s| && AllHex(s[at..at + 4]) then
      assert Pow16(4) == 0x10000;
      Got(HexNumber(s[at..at + 4]), at + 4)
    else Failed
  }

  predicate IsHigh(n: nat) { 0xD800 <= n <= 0xDBFF }

  predicate IsLow(n: nat) { 0xDC00 <= n <= 0xDFFF }

  function Byte(n: nat): char
    requires n < 256
  {
    n as char
  }

  function Utf8(cp: nat): (bytes: string)
    requires cp < 0x110000
    ensures 1 <= |bytes| <= 4
  {
    if cp < 0x80 then [Byte(cp)]
    else if cp < 0x800 then [Byte(0xC0 + cp / 64), Byte(0x80 + cp % 64)]
    else if cp < 0x10000 then [Byte(0xE0 + cp / 4096), Byte(0x80 + cp / 64 % 64), Byte(0x80 + cp % 64)]
    else [Byte(0xF0 + cp / 262144), Byte(0x80 + cp / 4096 % 64), Byte(0x80 + cp / 64 % 64), Byte(0x80 + cp % 64)]
  }

  function Pair(high: nat, low: nat): (cp: nat)
    requires IsHigh(high) && IsLow(low)
    ensures 0x10000 <= cp < 0x110000
  {
    0x10000 + (high - 0xD800) * 1024 + (low - 0xDC00)
  }

  function Unescaped(c: char): Option<char> {
    if c == '"' || c == '\\' || c == '/' then Some(c)
    else if c == 'b' then Some(BACKSPACE)
    else if c == 'f' then Some(FORM_FEED)
    else if c == 'n' then Some('\n')
    else if c == 'r' then Some('\r')
    else if c == 't' then Some('\t')
    else None
  }

  /** The rest of an escape after `\u`. */
  function UnicodeAt(s: string, at: nat, strict: bool): (r: Reading<string>)
    ensures r.Got? ==> at < r.next <= |s|
  {
    var first := HexAt(s, at);
    if first.Failed? then Failed
    else if IsHigh(first.value) then
      if !StartsWith(s, first.next, "\\u") then Failed
      else
        var second := HexAt(s, first.next + 2);
        if second.Failed? || !IsLow(second.value) then Failed
        else Got(Utf8(Pair(first.value, second.value)), second.next)
    else if strict && IsLow(first.value) then Failed
    else Got(Utf8(first.value), first.next)
  }

  /** The rest of an escape after the backslash. */
  function EscapeAt(s: string, at: nat, strict: bool): (r: Reading<string>)
    ensures r.Got? ==> at < r.next <= |s|
  {
    if at >= |s| then Failed
    else if Unescaped(s[at]).Some? then Got([Unescaped(s[at]).value], at + 1)
    else if s[at] == 'u' then UnicodeAt(s, at + 1, strict)
    else Failed
  }

  function After<T>(out: seq<T>, rest: Reading<seq<T>>): Reading<seq<T>> {
    if rest.Failed? then Failed else Got(out + rest.value, rest.next)
  }

  /** The rest of a string after its opening quote. */
  function CharsFrom(s: string, at: nat, strict: bool): (r: Reading<string>)
    requires at <= |s|
    ensures r.Got? ==> at < r.next <= |s|
    decreases |s| - at
  {
    if at == |s| then Failed
    else if s[at] == '"' then Got("", at + 1)
    else if strict && s[at] < ' ' then Failed
    else if s[at] != '\\' then After([s[at]], CharsFrom(s, at + 1, strict))
    else
      var escape := EscapeAt(s, at + 1, strict);
      if escape.Failed? then Failed else After(escape.value, CharsFrom(s, escape.next, strict))
  }

  function StringAt(s: string, at: nat, strict: bool): (r: Reading<string>)
    requires at <= |s|
    ensures r.Got? ==> at < r.next <= |s|
  {
    var open := TakeAt(s, at, '"', strict);
    if open.None? then Failed else CharsFrom(s, open.value, strict)
  }

  /** The number some digits write, as far as 64 bits hold it. */
  function Wrapped(digits: string): (n: nat)
    requires AllDigits(digits)
    ensures n < U64
  {
    Decimal.Number(digits) % U64
  }

  function NumberAt(s: string, at: nat, strict: bool): (r: Reading<nat>)
    requires at <= |s|
    ensures r.Got? ==> at < r.next <= |s|
  {
    var p := SkipFrom(s, at, strict);
    var end := DigitsEnd(s, p);
    if p == end then Failed else Got(Wrapped(s[p..end]), end)
  }

  /** The elements of an array of strings, up to and with its closing bracket. */
  function ItemsFrom(s: string, at: nat, strict: bool): (r: Reading<seq<string>>)
    requires at <= |s|
    ensures r.Got? ==> at < r.next <= |s|
    decreases |s| - at
  {
    var item := StringAt(s, at, strict);
    if item.Failed? then Failed
    else
      var close := TakeAt(s, item.next, ']', strict);
      if close.Some? then Got([item.value], close.value)
      else
        var comma := TakeAt(s, item.next, ',', strict);
        if comma.None? then Failed else After([item.value], ItemsFrom(s, comma.value, strict))
  }

  function ArrayAt(s: string, at: nat, strict: bool): (r: Reading<seq<string>>)
    requires at <= |s|
    ensures r.Got? ==> at < r.next <= |s|
  {
    var open := TakeAt(s, at, '[', strict);
    if open.None? then Failed
    else
      var close := TakeAt(s, open.value, ']', strict);
      if close.Some? then Got([], close.value) else ItemsFrom(s, open.value, strict)
  }

  // ----- the readers -----

  /** What a method returned and where it stopped; nothing is said of the position after a failure,
      which throws the reader away. */
  ghost predicate Agrees<T>(r: Option<T>, pos: nat, expected: Reading<T>) {
    if expected.Failed? then r.None? else r == Some(expected.value) && pos == expected.next
  }

  class Reader {
    const input: string
    const strict: bool
    var pos: nat

    ghost predicate Valid()
      reads this
    {
      pos <= |input|
    }

    constructor (input: string, strict: bool)
      ensures Valid() && this.input == input && this.strict == strict && pos == 0
    {
      this.input, this.strict, pos := input, strict, 0;
    }

    method Skip()
      requires Valid()
      modifies this
      ensures Valid() && pos == SkipFrom(input, old(pos), strict)
    {
      while pos < |input| && Blank(input[pos], strict)
        invariant Valid() && SkipFrom(input, pos, strict) == SkipFrom(input, old(pos), strict)
      {
        pos := pos + 1;
      }
    }

    method Take(c: char) returns (taken: bool)
      requires Valid()
      modifies this
      ensures Valid() && (taken <==> TakeAt(input, old(pos), c, strict).Some?)
      ensures pos == if taken then TakeAt(input, old(pos), c, strict).value else SkipFrom(input, old(pos), strict)
    {
      Skip();
      if pos < |input| && input[pos] == c {
        pos := pos + 1;
        return true;
      }
      return false;
    }

    method End() returns (ended: bool)
      requires Valid()
      modifies this
      ensures Valid() && (ended <==> SkipFrom(input, old(pos), strict) == |input|)
    {
      Skip();
      return pos == |input|;
    }

    method Hex() returns (r: Option<nat>)
      requires Valid()
      modifies this
      ensures Valid() && Agrees(r, pos, HexAt(input, old(pos)))
    {
      hide HexNumber, HexValue, IsHex;
      var value := 0;
      ghost var start := pos;
      NoHex();
      assert input[start..start] == "";
      for i := 0 to 4
        invariant pos == start + i <= |input| && AllHex(input[start..pos]) && value == HexNumber(input[start..pos])
      {
        if pos == |input| { return None; }
        var c := input[pos];
        if !IsHex(c) {
          assert start + 4 <= |input| ==> input[start..start + 4][i] == c;
          return None;
        }
        HexMore(input[start..pos], c);
        assert input[start..pos + 1] == input[start..pos] + [c];
        pos := pos + 1;
        value := value * 16 + HexValue(c);
      }
      return Some(value);
    }

    method Literal(text: string) returns (found: bool)
      requires Valid()
      modifies this
      ensures Valid() && (found <==> StartsWith(input, old(pos), text))
      ensures pos == if found then old(pos) + |text| else old(pos)
    {
      if pos + |text| > |input| || input[pos..pos + |text|] != text { return false; }
      pos := pos + |text|;
      return true;
    }

    method Unicode() returns (r: Option<string>)
      requires Valid()
      modifies this
      ensures Valid() && Agrees(r, pos, UnicodeAt(input, old(pos), strict))
    {
      var first := Hex();
      if first.None? { return None; }
      var cp := first.value;
      if IsHigh(cp) {
        var more := Literal("\\u");
        if !more { return None; }
        var second := Hex();
        if second.None? || !IsLow(second.value) { return None; }
        cp := Pair(cp, second.value);
      } else if strict && IsLow(cp) {
        return None;
      }
      return Some(Utf8(cp));
    }

    method Escape() returns (r: Option<string>)
      requires Valid()
      modifies this
      ensures Valid() && Agrees(r, pos, EscapeAt(input, old(pos), strict))
    {
      hide UnicodeAt;
      if pos == |input| { return None; }
      var c := input[pos];
      pos := pos + 1;
      if Unescaped(c).Some? { return Some([Unescaped(c).value]); }
      if c != 'u' { return None; }
      r := Unicode();
    }

    method String() returns (r: Option<string>)
      requires Valid()
      modifies this
      ensures Valid() && Agrees(r, pos, StringAt(input, old(pos), strict))
    {
      hide EscapeAt, TakeAt;
      var open := Take('"');
      if !open { return None; }
      var out: string := "";
      ghost var start := pos;
      assert After([], CharsFrom(input, start, strict)) == CharsFrom(input, start, strict) by {
        var all := CharsFrom(input, start, strict);
        if all.Got? { assert [] + all.value == all.value; }
      }
      while pos < |input|
        invariant Valid() && CharsFrom(input, start, strict) == After(out, CharsFrom(input, pos, strict))
        decreases |input| - pos
      {
        var c := input[pos];
        if c == '"' {
          assert out + "" == out;
          pos := pos + 1;
          return Some(out);
        }
        if strict && c < ' ' { return None; }
        ghost var here := pos;
        pos := pos + 1;
        var piece: string := [c];
        if c == '\\' {
          var escape := Escape();
          if escape.None? { return None; }
          piece := escape.value;
        }
        AfterTwice(out, piece, CharsFrom(input, pos, strict));
        out := out + piece;
      }
      return None;
    }

    method Number() returns (r: Option<nat>)
      requires Valid()
      modifies this
      ensures Valid() && Agrees(r, pos, NumberAt(input, old(pos), strict))
    {
      hide Wrapped, NextDigit, DigitsEnd, AllDigits, IsDigit, SkipFrom;
      Skip();
      if pos >= |input| || !IsDigit(input[pos]) {
        DigitsStop(input, pos);
        return None;
      }
      var value := 0;
      ghost var start := pos;
      NoDigits();
      assert input[start..start] == [];
      while pos < |input| && IsDigit(input[pos])
        invariant start <= pos <= |input| && DigitsEnd(input, pos) == DigitsEnd(input, start)
        invariant AllDigits(input[start..pos]) && value == Wrapped(input[start..pos])
      {
        assert input[start..pos + 1] == input[start..pos] + [input[pos]];
        OneMoreDigit(input[start..pos], input[pos]);
        DigitsGoOn(input, pos);
        value := NextDigit(value, input[pos]);
        pos := pos + 1;
      }
      DigitsStop(input, pos);
      return Some(value);
    }

    method StringArray() returns (r: Option<seq<string>>)
      requires Valid()
      modifies this
      ensures Valid() && Agrees(r, pos, ArrayAt(input, old(pos), strict))
    {
      hide TakeAt, StringAt;
      var ok := Take('[');
      if !ok { return None; }
      ghost var start := pos;
      var items := [];
      ok := Take(']');
      if ok { return Some(items); }
      TakeAfterSkip(input, start, strict);
      ItemsAfterSkip(input, start, strict);
      ghost var all := ItemsFrom(input, pos, strict);
      assert all == After([], all) by { if all.Got? { assert [] + all.value == all.value; } }
      while true
        invariant Valid() && all == After(items, ItemsFrom(input, pos, strict))
        decreases |input| - pos
      {
        var item := String();
        if item.None? { return None; }
        ghost var mid := pos;
        ok := Take(']');
        if ok { return Some(items + [item.value]); }
        TakeAfterSkip(input, mid, strict);
        ok := Take(',');
        if !ok { return None; }
        AfterTwice(items, [item.value], ItemsFrom(input, pos, strict));
        items := items + [item.value];
      }
    }
  }

  lemma AfterTwice<T>(out: seq<T>, piece: seq<T>, rest: Reading<seq<T>>)
    ensures After(out, After(piece, rest)) == After(out + piece, rest)
  {
    if rest.Got? { assert out + (piece + rest.value) == out + piece + rest.value; }
  }

  lemma NoDigits()
    ensures AllDigits([]) && Wrapped([]) == 0
  {
  }

  /** A digit more, in 64 bits. */
  function NextDigit(value: nat, c: char): nat
    requires IsDigit(c)
  {
    (value * 10 + (c - '0') as nat) % U64
  }

  lemma DigitsGoOn(s: string, at: nat)
    requires at < |s| && IsDigit(s[at])
    ensures DigitsEnd(s, at) == DigitsEnd(s, at + 1)
  {
  }

  lemma DigitsStop(s: string, at: nat)
    requires at == |s| || (at < |s| && !IsDigit(s[at]))
    ensures DigitsEnd(s, at) == at
  {
  }

  /** Wrapping at every step or once at the end is the same. */
  lemma OneMoreDigit(digits: string, c: char)
    requires AllDigits(digits) && IsDigit(c)
    ensures AllDigits(digits + [c]) && Wrapped(digits + [c]) == NextDigit(Wrapped(digits), c)
  {
    var all := digits + [c];
    assert all[..|all| - 1] == digits && all[|all| - 1] == c;
    WrapDigit(Decimal.Number(digits), (c - '0') as nat);
  }

  lemma WrapDigit(n: nat, d: nat)
    ensures (n % U64 * 10 + d) % U64 == (n * 10 + d) % U64
  {
    var q, r := n / U64, n % U64;
    assert n == q * U64 + r;
    assert n * 10 + d == (r * 10 + d) + q * 10 * U64;
    ModAddMultiple(r * 10 + d, q * 10);
  }

  lemma {:induction false} ModAddMultiple(x: nat, k: nat)
    ensures (x + k * U64) % U64 == x % U64
  {
    if k > 0 {
      ModAddMultiple(x, k - 1);
      assert x + k * U64 == (x + (k - 1) * U64) + U64;
    }
  }

  lemma {:induction false} SkipTwice(s: string, at: nat, strict: bool)
    requires at <= |s|
    ensures SkipFrom(s, SkipFrom(s, at, strict), strict) == SkipFrom(s, at, strict)
    decreases |s| - at
  {
    if at < |s| && Blank(s[at], strict) { SkipTwice(s, at + 1, strict); }
  }

  /** Blanks skipped by a failed attempt make no difference to the next one. */
  lemma TakeAfterSkip(s: string, at: nat, strict: bool)
    requires at <= |s|
    ensures forall c :: TakeAt(s, SkipFrom(s, at, strict), c, strict) == TakeAt(s, at, c, strict)
  {
    SkipTwice(s, at, strict);
  }

  lemma ItemsAfterSkip(s: string, at: nat, strict: bool)
    requires at <= |s|
    ensures StringAt(s, SkipFrom(s, at, strict), strict) == StringAt(s, at, strict)
    ensures ItemsFrom(s, SkipFrom(s, at, strict), strict) == ItemsFrom(s, at, strict)
  {
    TakeAfterSkip(s, at, strict);
  }
}
