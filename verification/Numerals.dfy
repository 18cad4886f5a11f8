/** What decimal text means, apart from how it is read and written: blanks, a sign, and digits that each
    count for ten times the next. */
module Numerals {
  import opened Options
  import opened Decimal

  function Pow10(n: nat): nat { if n == 0 then 1 else 10 * Pow10(n - 1) }

  /** The sum of the digits, each times the power of ten of its place. */
  function Value(digits: string): nat
    requires AllDigits(digits)
  {
    if digits == [] then 0
    else
      assert AllDigits(digits[1..]);
      (digits[0] - '0') as nat * Pow10(|digits| - 1) + Value(digits[1..])
  }

  predicate Blanks(s: string) { forall i :: 0 <= i < |s| ==> s[i] == ' ' || 9 <= s[i] as int <= 13 }

  predicate IsSign(s: string) { s == "" || s == "+" || s == "-" }

  predicate Digits(s: string) { s != "" && forall i :: 0 <= i < |s| ==> '0' <= s[i] <= '9' }

  predicate NoDigitFirst(s: string) { s == "" || !('0' <= s[0] <= '9') }

  /** A numeral at the front of a text, and what follows it. */
  predicate Numeral(text: string, blanks: string, sign: string, digits: string, rest: string) {
    && text == blanks + sign + digits + rest
    && Blanks(blanks) && IsSign(sign) && Digits(digits) && NoDigitFirst(rest)
  }

  function Meant(sign: string, digits: string): int
    requires Digits(digits)
  {
    var value: int := Value(digits);
    if sign == "-" then -value else value
  }

  // ----- reading -----

  lemma {:induction false} ValueAppend(digits: string, last: char)
    requires AllDigits(digits) && IsDigit(last)
    ensures Value(digits + [last]) == Value(digits) * 10 + (last as int - '0' as int)
  {
    var all := digits + [last];
    if digits == [] {
      assert all == [last] && all[1..] == [] && Pow10(0) == 1;
    } else {
      assert all[0] == digits[0] && all[1..] == digits[1..] + [last];
      assert AllDigits(digits[1..]);
      ValueAppend(digits[1..], last);
      var d, p := digits[0] as int - '0' as int, Pow10(|digits| - 1);
      assert Pow10(|all| - 1) == 10 * p;
      assert d * (10 * p) == d * p * 10;
    }
  }

  lemma {:induction false} NumberIsValue(digits: string)
    requires AllDigits(digits)
    ensures Number(digits) == Value(digits)
  {
    if digits != [] {
      var n := |digits| - 1;
      NumberIsValue(digits[..n]);
      ValueAppend(digits[..n], digits[n]);
      assert digits[..n] + [digits[n]] == digits;
    }
  }

  lemma {:induction false} SpacesEnd(s: string, at: nat, end: nat)
    requires at <= end <= |s| && (forall i :: at <= i < end ==> IsSpace(s[i])) && (end < |s| ==> !IsSpace(s[end]))
    ensures SkipSpaces(s, at) == end
    decreases end - at
  {
    if at < end { SpacesEnd(s, at + 1, end); }
  }

  lemma {:induction false} DigitsStop(s: string, at: nat, end: nat)
    requires at <= end <= |s| && (forall i :: at <= i < end ==> IsDigit(s[i])) && (end < |s| ==> !IsDigit(s[end]))
    ensures DigitsEnd(s, at) == end
    decreases end - at
  {
    if at < end { DigitsStop(s, at + 1, end); }
  }

  lemma Places(text: string, blanks: string, sign: string, digits: string, rest: string)
    requires Numeral(text, blanks, sign, digits, rest)
    ensures var a := |blanks|;
            var b := a + |sign|;
            var c := b + |digits|;
            && c <= |text| && (forall i :: 0 <= i < a ==> text[i] == blanks[i])
            && (sign != "" ==> text[a] == sign[0]) && text[b..c] == digits
            && (forall i :: b <= i < c ==> text[i] == digits[i - b]) && text[c..] == rest
  {
  }

  /** A numeral at the front is read, to its end, as what it means. */
  lemma NumeralReads(text: string, blanks: string, sign: string, digits: string, rest: string)
    requires Numeral(text, blanks, sign, digits, rest)
    ensures ReadSigned(text) == Some(Parsed(Meant(sign, digits), |blanks| + |sign| + |digits|))
  {
    hide Value, Number;
    var a, b := |blanks|, |blanks| + |sign|;
    var c := b + |digits|;
    Places(text, blanks, sign, digits, rest);
    assert !IsSpace(text[a]) by {
      if sign == "" { assert text[a] == digits[0]; } else { assert text[a] == sign[0]; }
    }
    SpacesEnd(text, 0, a);
    assert c < |text| ==> text[c] == rest[0];
    DigitsStop(text, b, c);
    if sign == "" { assert text[a] == digits[0]; }
    NumberIsValue(digits);
  }

  lemma {:induction false} SkipsSpaces(s: string, at: nat)
    requires at <= |s|
    ensures var end := SkipSpaces(s, at); forall i :: at <= i < end ==> IsSpace(s[i])
    decreases |s| - at
  {
    if at < |s| && IsSpace(s[at]) { SkipsSpaces(s, at + 1); }
  }

  lemma {:induction false} DigitsEndStops(s: string, at: nat)
    requires at <= |s|
    ensures var end := DigitsEnd(s, at); end < |s| ==> !IsDigit(s[end])
    decreases |s| - at
  {
    if at < |s| && IsDigit(s[at]) { DigitsEndStops(s, at + 1); }
  }

  lemma InFour(s: string, a: nat, b: nat, c: nat)
    requires a <= b <= c <= |s|
    ensures s == s[..a] + s[a..b] + s[b..c] + s[c..]
  {
    assert s[..a] + s[a..b] == s[..b];
    assert s[..b] + s[b..c] == s[..c];
  }

  /** What is read is the numeral at the front. */
  lemma ReadIsNumeral(text: string) returns (blanks: string, sign: string, digits: string, rest: string)
    requires ReadSigned(text).Some?
    ensures Numeral(text, blanks, sign, digits, rest)
  {
    hide Number;
    var i := SkipSpaces(text, 0);
    SkipsSpaces(text, 0);
    var first := if i < |text| && (text[i] == '-' || text[i] == '+') then i + 1 else i;
    var end := DigitsEnd(text, first);
    DigitsEndStops(text, first);
    blanks, sign, digits, rest := text[..i], text[i..first], text[first..end], text[end..];
    InFour(text, i, first, end);
    if first == i + 1 { assert sign == [text[i]]; }
  }

  // ----- whole texts -----

  /** The whole text is a numeral that an unsigned 64-bit number takes, a minus sign negating modulo 2^64. */
  ghost predicate Spells(text: string, n: nat) {
    exists blanks, sign, digits :: SpelledBy(text, n, blanks, sign, digits)
  }

  predicate SpelledBy(text: string, n: nat, blanks: string, sign: string, digits: string) {
    && Numeral(text, blanks, sign, digits, "") && Value(digits) < U64
    && n == if sign == "-" && Value(digits) > 0 then U64 - Value(digits) else Value(digits)
  }

  /** Exactly those texts are read to their end, as that number. */
  lemma StoullWholeIff(text: string, n: nat)
    ensures Stoull(text) == Some(Parsed(n, |text|)) <==> Spells(text, n)
  {
    hide Value, ReadSigned, Numeral;
    if Spells(text, n) {
      var blanks, sign, digits :| SpelledBy(text, n, blanks, sign, digits);
      NumeralReads(text, blanks, sign, digits, "");
      WholeLength(text, blanks, sign, digits, "");
    }
    if Stoull(text) == Some(Parsed(n, |text|)) {
      var blanks, sign, digits, rest := ReadIsNumeral(text);
      NumeralReads(text, blanks, sign, digits, rest);
      WholeLength(text, blanks, sign, digits, rest);
      assert SpelledBy(text, n, blanks, sign, digits);
    }
  }

  lemma WholeLength(text: string, blanks: string, sign: string, digits: string, rest: string)
    requires Numeral(text, blanks, sign, digits, rest)
    ensures |text| == |blanks| + |sign| + |digits| + |rest| && Digits(digits)
  {
  }

  /** The same for signed numbers. */
  ghost predicate SpellsSigned(text: string, n: int) {
    exists blanks, sign, digits :: SignedBy(text, n, blanks, sign, digits)
  }

  predicate SignedBy(text: string, n: int, blanks: string, sign: string, digits: string) {
    && Numeral(text, blanks, sign, digits, "") && n == Meant(sign, digits)
    && -0x8000_0000_0000_0000 <= n <= 0x7fff_ffff_ffff_ffff
  }

  lemma StollWholeIff(text: string, n: int)
    ensures Stoll(text) == Some(Parsed(n, |text|)) <==> SpellsSigned(text, n)
  {
    hide Value, ReadSigned, Numeral;
    if SpellsSigned(text, n) {
      var blanks, sign, digits :| SignedBy(text, n, blanks, sign, digits);
      NumeralReads(text, blanks, sign, digits, "");
      WholeLength(text, blanks, sign, digits, "");
    }
    if Stoll(text) == Some(Parsed(n, |text|)) {
      var blanks, sign, digits, rest := ReadIsNumeral(text);
      NumeralReads(text, blanks, sign, digits, rest);
      WholeLength(text, blanks, sign, digits, rest);
      assert SignedBy(text, n, blanks, sign, digits);
    }
  }

  // ----- writing -----

  /** A number is written with digits only, none of them a zero in front, and they mean the number. */
  lemma {:induction false} TextMeans(n: nat)
    ensures Digits(Text(n)) && Value(Text(n)) == n && (Text(n)[0] == '0' ==> n == 0 && Text(n) == "0")
  {
    NumberOfText(n);
    NumberIsValue(Text(n));
    NoZeroFirst(n);
  }

  lemma {:induction false} NoZeroFirst(n: nat)
    ensures Text(n)[0] == '0' ==> n == 0 && Text(n) == "0"
  {
    if n >= 10 { NoZeroFirst(n / 10); }
  }

  /** A written counter is its digits, with a minus sign in front of those of a negative one. */
  lemma IntTextMeans(n: int)
    ensures var digits := Text(if n < 0 then -n else n);
            IntText(n) == (if n < 0 then "-" else "") + digits && Meant(if n < 0 then "-" else "", digits) == n
  {
    TextMeans(if n < 0 then -n else n);
  }
}
