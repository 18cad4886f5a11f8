/** Decimal text of integers: `std::to_string`, `std::stoull`, `std::stoll` and the
    identifiers the store builds from them. */
module Decimal {
  import opened Options

  const U64: int := 0x1_0000_0000_0000_0000
  const I64_MIN: int := -0x8000_0000_0000_0000
  const I64_MAX: int := 0x7fff_ffff_ffff_ffff

  /** The signed reading of an unsigned 64-bit number. */
  function Signed(n: nat): int { if n > I64_MAX then n - U64 else n }

  predicate IsDigit(c: char) { '0' <= c <= '9' }

  /** `std::isspace` in the C locale. */
  predicate IsSpace(c: char) { c == ' ' || 9 as char <= c <= 13 as char }

  predicate AllDigits(s: string) {
    forall i :: 0 <= i < |s| ==> IsDigit(s[i])
  }

  function Text(n: nat): (s: string)
    ensures s != [] && AllDigits(s)
  {
    var last := ['0' + (n % 10) as char];
    if n < 10 then last else Text(n / 10) + last
  }

  function IntText(n: int): (s: string) {
    if n < 0 then "-" + Text(-n) else Text(n)
  }

  function Number(s: string): nat
    requires AllDigits(s)
  {
    if s == [] then 0
    else Number(s[..|s| - 1]) * 10 + (s[|s| - 1] - '0') as nat
  }

  function SkipSpaces(s: string, i: nat): (j: nat)
    requires i <= |s|
    ensures i <= j <= |s|
    decreases |s| - i
  {
    if i < |s| && IsSpace(s[i]) then SkipSpaces(s, i + 1) else i
  }

  function DigitsEnd(s: string, i: nat): (j: nat)
    requires i <= |s|
    ensures i <= j <= |s| && AllDigits(s[i..j])
    decreases |s| - i
  {
    if i < |s| && IsDigit(s[i]) then
      var j := DigitsEnd(s, i + 1);
      assert s[i..j] == [s[i]] + s[i + 1..j];
      j
    else i
  }

  /** A number read from the front of a text, and where reading stopped. */
  datatype Parsed = Parsed(value: int, end: nat)

  /** The common part of `strtoull` and `strtoll`: blanks, an optional sign, then digits. */
  function ReadSigned(s: string): (r: Option<Parsed>) {
    var i := SkipSpaces(s, 0);
    var negative := i < |s| && s[i] == '-';
    var first := if i < |s| && (s[i] == '-' || s[i] == '+') then i + 1 else i;
    var end := DigitsEnd(s, first);
    if end == first then None
    else
      var magnitude: int := Number(s[first..end]);
      Some(Parsed(if negative then -magnitude else magnitude, end))
  }

  /** `std::stoull`: None where it throws; a minus sign negates modulo 2^64. */
  function Stoull(s: string): (r: Option<Parsed>)
    ensures r.Some? ==> 0 <= r.value.value < U64
  {
    var r := ReadSigned(s);
    if r.None? || r.value.value >= U64 || r.value.value <= -U64 then None
    else Some(r.value.(value := if r.value.value < 0 then U64 + r.value.value else r.value.value))
  }

  /** `std::stoll`: None where it throws. */
  function Stoll(s: string): (r: Option<Parsed>)
    ensures r.Some? ==> I64_MIN <= r.value.value <= I64_MAX
  {
    var r := ReadSigned(s);
    if r.None? || r.value.value > I64_MAX || r.value.value < I64_MIN then None else r
  }

  // ----- round trips -----

  lemma {:induction false} NumberOfText(n: nat)
    ensures Number(Text(n)) == n
  {
    var t := Text(n);
    if n >= 10 {
      assert t[..|t| - 1] == Text(n / 10);
      NumberOfText(n / 10);
    }
  }

  lemma {:induction false} DigitsEndAll(s: string, i: nat)
    requires i <= |s| && AllDigits(s[i..])
    ensures DigitsEnd(s, i) == |s|
    decreases |s| - i
  {
    if i < |s| {
      assert s[i] == s[i..][0];
      assert s[i + 1..] == s[i..][1..];
      DigitsEndAll(s, i + 1);
    }
  }

  lemma ReadOfIntText(n: int)
    ensures ReadSigned(IntText(n)) == Some(Parsed(n, |IntText(n)|))
  {
    var s := IntText(n);
    var k := if n < 0 then 1 else 0;
    var digits := Text(if n < 0 then -n else n);
    assert s[k..] == digits;
    assert IsDigit(digits[0]);
    DigitsEndAll(s, k);
    NumberOfText(if n < 0 then -n else n);
    assert s[k..|s|] == digits;
  }

  /** Printing a 64-bit unsigned number and reading it back consumes the text and returns it. */
  lemma StoullOfText(n: nat)
    requires n < U64
    ensures Stoull(Text(n)) == Some(Parsed(n, |Text(n)|))
  {
    ReadOfIntText(n);
  }

  /** The same for signed numbers. */
  lemma StollOfText(n: int)
    requires I64_MIN <= n <= I64_MAX
    ensures Stoll(IntText(n)) == Some(Parsed(n, |IntText(n)|))
  {
    ReadOfIntText(n);
  }

  // ----- identifiers built from a clock reading and a sequence number -----

  function Stamp(prefix: string, now: nat, sequence: nat): string {
    prefix + Text(now) + "_" + Text(sequence)
  }

  lemma {:induction false} DigitsBeforeBar(a: string, b: string, c: string, d: string)
    requires AllDigits(a) && AllDigits(c) && a + "_" + b == c + "_" + d
    ensures a == c && b == d
    decreases |a|
  {
    var left, right := a + "_" + b, c + "_" + d;
    if a == [] {
      assert left[0] == '_';
      assert b == left[1..] && d == right[1..];
    } else {
      assert left[0] == a[0] && IsDigit(a[0]);
      assert left[1..] == a[1..] + "_" + b && right[1..] == c[1..] + "_" + d;
      DigitsBeforeBar(a[1..], b, c[1..], d);
      assert a == [a[0]] + a[1..] && c == [c[0]] + c[1..];
    }
  }

  /** Identifiers are unique per clock reading and sequence number. */
  lemma StampInjective(prefix: string, now: nat, sequence: nat, now': nat, sequence': nat)
    requires Stamp(prefix, now, sequence) == Stamp(prefix, now', sequence')
    ensures now == now' && sequence == sequence'
  {
    var a, b := Stamp(prefix, now, sequence), Stamp(prefix, now', sequence');
    assert a[|prefix|..] == Text(now) + "_" + Text(sequence);
    assert b[|prefix|..] == Text(now') + "_" + Text(sequence');
    DigitsBeforeBar(Text(now), Text(sequence), Text(now'), Text(sequence'));
    NumberOfText(now); NumberOfText(now'); NumberOfText(sequence); NumberOfText(sequence');
  }
}
