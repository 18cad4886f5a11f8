/** The texts the two readers accept, as a grammar, and that they accept no other and read them as the
    grammar says. Every token comes with the blanks before it. */
module Grammar {
  import opened Options
  import opened Json
  import opened JsonStrings

  // ----- blanks and single characters -----

  predicate Blanks(gap: string, strict: bool) { forall i :: 0 <= i < |gap| ==> Blank(gap[i], strict) }

  function Mark(gap: string, c: char): string { gap + [c] }

  predicate Token(c: char) { c in "\"[]{},:" }

  /** Blanks and then c are next, up to `next`. */
  predicate Marked(s: string, at: nat, c: char, next: nat, strict: bool)
    requires at <= |s|
  {
    forall d :: TakeAt(s, at, d, strict) == if d == c then Some(next) else None
  }

  lemma StartsBoth(s: string, at: nat, a: string, b: string)
    requires StartsWith(s, at, a) && StartsWith(s, at + |a|, b)
    ensures StartsWith(s, at, a + b)
  {
    assert s[at..at + |a + b|] == s[at..at + |a|] + s[at + |a|..at + |a| + |b|];
  }

  lemma {:induction false} SkipsOver(s: string, at: nat, gap: string, strict: bool)
    requires Blanks(gap, strict) && StartsWith(s, at, gap)
    ensures SkipFrom(s, at, strict) == SkipFrom(s, at + |gap|, strict)
    decreases |gap|
  {
    if gap != "" {
      assert s[at] == s[at..at + |gap|][0] == gap[0];
      assert s[at + 1..at + |gap|] == s[at..at + |gap|][1..];
      SkipsOver(s, at + 1, gap[1..], strict);
    }
  }

  lemma Takes(s: string, at: nat, gap: string, c: char, strict: bool)
    requires Blanks(gap, strict) && Token(c) && StartsWith(s, at, Mark(gap, c))
    ensures at < |s| && Marked(s, at, c, at + |gap| + 1, strict) && TakeAt(s, at, c, strict) == Some(at + |gap| + 1)
  {
    hide Blanks, StartsWith;
    StartsInTwo(s, at, gap, [c]);
    SkipsOver(s, at, gap, strict);
    StartsFirst(s, at + |gap|, c);
  }

  lemma StartsFirst(s: string, at: nat, c: char)
    requires StartsWith(s, at, [c])
    ensures at < |s| && s[at] == c
  {
    assert s[at] == s[at..at + 1][0];
  }

  lemma {:induction false} Skipped(s: string, at: nat, strict: bool)
    requires at <= |s|
    ensures Blanks(s[at..SkipFrom(s, at, strict)], strict)
    decreases |s| - at
  {
    var end := SkipFrom(s, at, strict);
    if at < |s| && Blank(s[at], strict) {
      Skipped(s, at + 1, strict);
      assert s[at..end] == [s[at]] + s[at + 1..end];
    }
  }

  lemma Taken(s: string, at: nat, c: char, strict: bool) returns (gap: string)
    requires at <= |s| && TakeAt(s, at, c, strict).Some?
    ensures Blanks(gap, strict) && StartsWith(s, at, Mark(gap, c))
    ensures TakeAt(s, at, c, strict) == Some(at + |gap| + 1)
  {
    hide Blanks;
    var end := SkipFrom(s, at, strict);
    gap := s[at..end];
    Skipped(s, at, strict);
    assert s[at..end + 1] == gap + [c];
  }

  // ----- strings -----

  /** A character as it is, a letter after a backslash, and one or two \u escapes. */
  datatype Piece = Plain(c: char) | Short(c: char) | Unit(digits: string) | Twins(high: string, low: string)

  datatype Chars = Quote | More(piece: Piece, rest: Chars)

  /** Section 7 of RFC 8259. */
  const SHORT := map['"' := '"', '\\' := '\\', '/' := '/', 'b' := 8 as char, 'f' := 12 as char,
                     'n' := 10 as char, 'r' := 13 as char, 't' := 9 as char]

  predicate FourHex(digits: string) { |digits| == 4 && AllHex(digits) }

  function Code(digits: string): (n: nat)
    ensures n < 0x10000
  {
    if FourHex(digits) then
      assert Pow16(4) == 0x10000;
      HexNumber(digits)
    else 0
  }

  predicate GoodPiece(p: Piece, strict: bool) {
    match p
    case Plain(c) => c != '"' && c != '\\' && (strict ==> c >= ' ')
    case Short(c) => c in SHORT
    case Unit(digits) => FourHex(digits) && !IsHigh(Code(digits)) && (strict ==> !IsLow(Code(digits)))
    case Twins(high, low) => FourHex(high) && IsHigh(Code(high)) && FourHex(low) && IsLow(Code(low))
  }

  predicate GoodChars(cs: Chars, strict: bool) {
    cs.More? ==> GoodPiece(cs.piece, strict) && GoodChars(cs.rest, strict)
  }

  function PieceText(p: Piece): string {
    match p
    case Plain(c) => [c]
    case Short(c) => ['\\', c]
    case Unit(digits) => "\\u" + digits
    case Twins(high, low) => "\\u" + high + "\\u" + low
  }

  function CharsText(cs: Chars): string {
    if cs.Quote? then "\"" else PieceText(cs.piece) + CharsText(cs.rest)
  }

  function PieceValue(p: Piece): string {
    match p
    case Plain(c) => [c]
    case Short(c) => if c in SHORT then [SHORT[c]] else ""
    case Unit(digits) => Utf8(Code(digits))
    case Twins(high, low) =>
      if IsHigh(Code(high)) && IsLow(Code(low)) then Utf8(Pair(Code(high), Code(low))) else ""
  }

  function CharsValue(cs: Chars): string {
    if cs.Quote? then "" else PieceValue(cs.piece) + CharsValue(cs.rest)
  }

  lemma HexReads(s: string, at: nat, digits: string)
    requires FourHex(digits) && StartsWith(s, at, digits)
    ensures HexAt(s, at) == Got(Code(digits), at + 4)
  {
    hide AllHex, HexNumber;
  }

  lemma HexIs(s: string, at: nat) returns (digits: string)
    requires HexAt(s, at).Got?
    ensures FourHex(digits) && StartsWith(s, at, digits) && HexAt(s, at) == Got(Code(digits), at + 4)
  {
    hide AllHex, HexNumber;
    digits := s[at..at + 4];
  }

  lemma TwinsReads(s: string, at: nat, high: string, low: string, strict: bool)
    requires GoodPiece(Twins(high, low), strict) && StartsWith(s, at, "\\u" + high + "\\u" + low)
    ensures EscapeAt(s, at + 1, strict) == Got(PieceValue(Twins(high, low)), at + 12) && s[at] == '\\'
  {
    hide HexAt, Utf8, FourHex, Code, StartsWith;
    assert |high| == 4 == |low| by { Four(high); Four(low); }
    StartsInTwo(s, at, "\\u" + high + "\\u", low);
    StartsInTwo(s, at, "\\u" + high, "\\u");
    UnitStarts(s, at, high);
    HexReads(s, at + 8, low);
  }

  lemma Four(digits: string)
    requires FourHex(digits)
    ensures |digits| == 4
  {
  }

  lemma UnitStarts(s: string, at: nat, digits: string)
    requires FourHex(digits) && StartsWith(s, at, "\\u" + digits)
    ensures at + 6 <= |s| && s[at] == '\\' && s[at + 1] == 'u' && HexAt(s, at + 2) == Got(Code(digits), at + 6)
  {
    hide AllHex, HexNumber;
    StartsInTwo(s, at, "\\u", digits);
    assert s[at] == s[at..at + 2][0] && s[at + 1] == s[at..at + 2][1];
    HexReads(s, at + 2, digits);
  }

  lemma ShortIs(c: char)
    ensures Unescaped(c) == if c in SHORT then Some(SHORT[c]) else None
  {
  }

  lemma EscapeReads(s: string, at: nat, p: Piece, strict: bool)
    requires !p.Plain? && GoodPiece(p, strict) && StartsWith(s, at, PieceText(p))
    ensures at < |s| && s[at] == '\\' && EscapeAt(s, at + 1, strict) == Got(PieceValue(p), at + |PieceText(p)|)
  {
    hide HexAt, Utf8, FourHex, Code;
    match p {
      case Short(c) =>
        assert s[at] == s[at..at + 2][0] && s[at + 1] == s[at..at + 2][1];
        ShortIs(c);
      case Unit(digits) =>
        Four(digits);
        UnitStarts(s, at, digits);
      case Twins(high, low) =>
        Four(high);
        Four(low);
        TwinsReads(s, at, high, low, strict);
    }
  }

  lemma PlainReads(s: string, at: nat, p: Piece, strict: bool)
    requires p.Plain? && GoodPiece(p, strict) && StartsWith(s, at, PieceText(p))
    ensures CharsFrom(s, at, strict) == After(PieceValue(p), CharsFrom(s, at + |PieceText(p)|, strict))
  {
    hide EscapeAt, StartsWith;
    StartsFirst(s, at, p.c);
  }

  lemma AfterEscape(s: string, at: nat, strict: bool)
    requires at < |s| && s[at] == '\\' && EscapeAt(s, at + 1, strict).Got?
    ensures var escape := EscapeAt(s, at + 1, strict);
            CharsFrom(s, at, strict) == After(escape.value, CharsFrom(s, escape.next, strict))
  {
    hide EscapeAt;
  }

  lemma PieceReads(s: string, at: nat, p: Piece, strict: bool)
    requires GoodPiece(p, strict) && StartsWith(s, at, PieceText(p))
    ensures CharsFrom(s, at, strict) == After(PieceValue(p), CharsFrom(s, at + |PieceText(p)|, strict))
  {
    hide PieceText, PieceValue, GoodPiece, StartsWith, CharsFrom, EscapeAt;
    if p.Plain? {
      PlainReads(s, at, p, strict);
    } else {
      EscapeReads(s, at, p, strict);
      AfterEscape(s, at, strict);
    }
  }

  lemma {:induction false} CharsRead(s: string, at: nat, cs: Chars, strict: bool)
    requires GoodChars(cs, strict) && StartsWith(s, at, CharsText(cs))
    ensures CharsFrom(s, at, strict) == Got(CharsValue(cs), at + |CharsText(cs)|)
    decreases cs
  {
    hide GoodPiece, PieceText, PieceValue, CharsFrom, StartsWith;
    if cs.Quote? {
      QuoteReads(s, at, strict);
    } else {
      StartsInTwo(s, at, PieceText(cs.piece), CharsText(cs.rest));
      PieceReads(s, at, cs.piece, strict);
      CharsRead(s, at + |PieceText(cs.piece)|, cs.rest, strict);
    }
  }

  lemma QuoteReads(s: string, at: nat, strict: bool)
    requires StartsWith(s, at, "\"")
    ensures CharsFrom(s, at, strict) == Got("", at + 1)
  {
    StartsFirst(s, at, '"');
  }

  lemma UnicodeIs(s: string, at: nat, strict: bool) returns (p: Piece)
    requires at < |s| && s[at] == 'u' && UnicodeAt(s, at + 1, strict).Got?
    ensures GoodPiece(p, strict) && StartsWith(s, at, PieceText(p)[1..]) && |PieceText(p)| > 1
    ensures PieceText(p)[0] == '\\' && UnicodeAt(s, at + 1, strict) == Got(PieceValue(p), at + |PieceText(p)| - 1)
  {
    hide HexAt, Utf8, AllHex, HexNumber;
    var first := HexIs(s, at + 1);
    if IsHigh(Code(first)) {
      var second := HexIs(s, at + 7);
      p := Twins(first, second);
      assert PieceText(p)[1..] == "u" + first + "\\u" + second;
      assert s[at..at + 11] == [s[at]] + s[at + 1..at + 5] + s[at + 5..at + 7] + s[at + 7..at + 11];
    } else {
      p := Unit(first);
      assert PieceText(p)[1..] == "u" + first;
      assert s[at..at + 5] == [s[at]] + s[at + 1..at + 5];
    }
  }

  /** An escape, read after its backslash. */
  lemma EscapeIs(s: string, at: nat, strict: bool) returns (p: Piece)
    requires EscapeAt(s, at, strict).Got?
    ensures GoodPiece(p, strict) && |PieceText(p)| > 1 && PieceText(p)[0] == '\\'
    ensures StartsWith(s, at, PieceText(p)[1..])
    ensures EscapeAt(s, at, strict) == Got(PieceValue(p), at + |PieceText(p)| - 1)
  {
    hide UnicodeAt, Utf8, FourHex, Code;
    ShortIs(s[at]);
    if s[at] in SHORT {
      p := Short(s[at]);
    } else {
      p := UnicodeIs(s, at, strict);
    }
  }

  lemma EscapeNext(s: string, at: nat, strict: bool)
    requires at < |s| && s[at] == '\\' && CharsFrom(s, at, strict).Got?
    ensures var escape := EscapeAt(s, at + 1, strict);
            escape.Got? && CharsFrom(s, at, strict) == After(escape.value, CharsFrom(s, escape.next, strict))
  {
    hide EscapeAt;
  }

  lemma PlainIs(s: string, at: nat, strict: bool)
    requires at < |s| && s[at] != '"' && s[at] != '\\' && CharsFrom(s, at, strict).Got?
    ensures var p := Plain(s[at]);
            && GoodPiece(p, strict) && StartsWith(s, at, PieceText(p)) && |PieceText(p)| == 1
            && CharsFrom(s, at, strict) == After(PieceValue(p), CharsFrom(s, at + 1, strict))
  {
    hide EscapeAt;
    assert s[at..at + 1] == [s[at]];
  }

  lemma PieceIs(s: string, at: nat, strict: bool) returns (p: Piece)
    requires at < |s| && s[at] != '"' && CharsFrom(s, at, strict).Got?
    ensures GoodPiece(p, strict) && StartsWith(s, at, PieceText(p)) && |PieceText(p)| > 0
    ensures at + |PieceText(p)| <= |s|
    ensures CharsFrom(s, at, strict) == After(PieceValue(p), CharsFrom(s, at + |PieceText(p)|, strict))
  {
    hide CharsFrom, EscapeAt, GoodPiece, PieceText, PieceValue, StartsWith;
    if s[at] != '\\' {
      p := Plain(s[at]);
      PlainIs(s, at, strict);
    } else {
      EscapeNext(s, at, strict);
      p := EscapeIs(s, at + 1, strict);
      StartsFrom(s, at, PieceText(p));
    }
  }

  lemma StartsFrom(s: string, at: nat, t: string)
    requires t != "" && at < |s| && s[at] == t[0] && StartsWith(s, at + 1, t[1..])
    ensures StartsWith(s, at, t)
  {
    assert s[at..at + |t|] == [s[at]] + s[at + 1..at + |t|];
  }

  lemma CharsBegin(s: string, at: nat, strict: bool)
    requires at <= |s| && CharsFrom(s, at, strict).Got?
    ensures at < |s| && (s[at] == '"' ==> StartsWith(s, at, "\"") && CharsFrom(s, at, strict) == Got("", at + 1))
  {
    hide EscapeAt;
    assert at < |s| ==> s[at..at + 1] == [s[at]];
  }

  lemma {:induction false} CharsAre(s: string, at: nat, strict: bool) returns (cs: Chars)
    requires at <= |s| && CharsFrom(s, at, strict).Got?
    ensures GoodChars(cs, strict) && StartsWith(s, at, CharsText(cs))
    ensures CharsFrom(s, at, strict) == Got(CharsValue(cs), at + |CharsText(cs)|)
    decreases |s| - at
  {
    hide GoodPiece, PieceText, PieceValue, CharsFrom, StartsWith;
    CharsBegin(s, at, strict);
    if s[at] == '"' {
      cs := Quote;
    } else {
      var p := PieceIs(s, at, strict);
      var rest := CharsAre(s, at + |PieceText(p)|, strict);
      cs := More(p, rest);
      StartsBoth(s, at, PieceText(p), CharsText(rest));
    }
  }

  datatype Word = Word(gap: string, chars: Chars)

  predicate GoodWord(w: Word, strict: bool) { Blanks(w.gap, strict) && GoodChars(w.chars, strict) }

  function WordText(w: Word): string { Mark(w.gap, '"') + CharsText(w.chars) }

  function WordValue(w: Word): string { CharsValue(w.chars) }

  lemma WordReads(s: string, at: nat, w: Word, strict: bool)
    requires GoodWord(w, strict) && StartsWith(s, at, WordText(w))
    ensures at < |s| && Marked(s, at, '"', at + |w.gap| + 1, strict)
    ensures StringAt(s, at, strict) == Got(WordValue(w), at + |WordText(w)|)
  {
    hide Blanks, GoodChars, CharsText, CharsValue, CharsFrom, StartsWith;
    StartsInTwo(s, at, Mark(w.gap, '"'), CharsText(w.chars));
    Takes(s, at, w.gap, '"', strict);
    CharsRead(s, at + |w.gap| + 1, w.chars, strict);
  }

  lemma WordIs(s: string, at: nat, strict: bool) returns (w: Word)
    requires at <= |s| && StringAt(s, at, strict).Got?
    ensures GoodWord(w, strict) && StartsWith(s, at, WordText(w))
    ensures StringAt(s, at, strict) == Got(WordValue(w), at + |WordText(w)|)
  {
    hide Blanks, GoodChars, CharsText, CharsValue, CharsFrom, StartsWith, TakeAt;
    var gap := Taken(s, at, '"', strict);
    var cs := CharsAre(s, at + |gap| + 1, strict);
    w := Word(gap, cs);
    StartsBoth(s, at, Mark(gap, '"'), CharsText(cs));
  }

  // ----- arrays of strings -----

  datatype Items = Last(word: Word, gap: string) | Item(word: Word, gap: string, rest: Items)

  datatype Array = Empty(gap: string, inner: string) | Full(gap: string, items: Items)

  predicate GoodItems(xs: Items, strict: bool) {
    GoodWord(xs.word, strict) && Blanks(xs.gap, strict) && (xs.Item? ==> GoodItems(xs.rest, strict))
  }

  function ItemsText(xs: Items): string {
    WordText(xs.word) + if xs.Last? then Mark(xs.gap, ']') else Mark(xs.gap, ',') + ItemsText(xs.rest)
  }

  function ItemsValue(xs: Items): seq<string> {
    if xs.Last? then [WordValue(xs.word)] else [WordValue(xs.word)] + ItemsValue(xs.rest)
  }

  predicate GoodArray(a: Array, strict: bool) {
    Blanks(a.gap, strict) && if a.Empty? then Blanks(a.inner, strict) else GoodItems(a.items, strict)
  }

  function ArrayText(a: Array): string {
    Mark(a.gap, '[') + if a.Empty? then Mark(a.inner, ']') else ItemsText(a.items)
  }

  function ArrayValue(a: Array): seq<string> { if a.Empty? then [] else ItemsValue(a.items) }

  lemma ItemsStartQuoted(s: string, at: nat, xs: Items, strict: bool)
    requires GoodItems(xs, strict) && StartsWith(s, at, ItemsText(xs))
    ensures at < |s| && TakeAt(s, at, ']', strict) == None
  {
    hide GoodWord, WordText, StartsWith, TakeAt, StringAt, Mark;
    var rest := if xs.Last? then Mark(xs.gap, ']') else Mark(xs.gap, ',') + ItemsText(xs.rest);
    StartsInTwo(s, at, WordText(xs.word), rest);
    WordReads(s, at, xs.word, strict);
  }

  lemma {:induction false} ItemsRead(s: string, at: nat, xs: Items, strict: bool)
    requires GoodItems(xs, strict) && StartsWith(s, at, ItemsText(xs))
    ensures at < |s| && ItemsFrom(s, at, strict) == Got(ItemsValue(xs), at + |ItemsText(xs)|)
    decreases xs
  {
    hide GoodWord, WordText, WordValue, StartsWith, TakeAt, StringAt, Mark, Blanks;
    var n := |WordText(xs.word)|;
    MarkLength(xs.gap);
    if xs.Last? {
      StartsInTwo(s, at, WordText(xs.word), Mark(xs.gap, ']'));
      WordReads(s, at, xs.word, strict);
      Takes(s, at + n, xs.gap, ']', strict);
    } else {
      StartsInTwo(s, at, WordText(xs.word), Mark(xs.gap, ',') + ItemsText(xs.rest));
      WordReads(s, at, xs.word, strict);
      StartsInTwo(s, at + n, Mark(xs.gap, ','), ItemsText(xs.rest));
      Takes(s, at + n, xs.gap, ',', strict);
      ItemsRead(s, at + n + |xs.gap| + 1, xs.rest, strict);
    }
  }

  lemma MarkLength(gap: string)
    ensures forall c :: |Mark(gap, c)| == |gap| + 1
  {
  }

  lemma {:induction false} ItemsAre(s: string, at: nat, strict: bool) returns (xs: Items)
    requires at <= |s| && ItemsFrom(s, at, strict).Got?
    ensures GoodItems(xs, strict) && StartsWith(s, at, ItemsText(xs))
    ensures ItemsFrom(s, at, strict) == Got(ItemsValue(xs), at + |ItemsText(xs)|)
    decreases |s| - at
  {
    hide GoodWord, WordText, WordValue, StartsWith, TakeAt, StringAt, Mark, Blanks;
    var word := WordIs(s, at, strict);
    var end := at + |WordText(word)|;
    if TakeAt(s, end, ']', strict).Some? {
      var gap := Taken(s, end, ']', strict);
      MarkLength(gap);
      xs := Last(word, gap);
      StartsBoth(s, at, WordText(word), Mark(gap, ']'));
    } else {
      var gap := Taken(s, end, ',', strict);
      MarkLength(gap);
      var rest := ItemsAre(s, end + |gap| + 1, strict);
      xs := Item(word, gap, rest);
      StartsBoth(s, end, Mark(gap, ','), ItemsText(rest));
      StartsBoth(s, at, WordText(word), Mark(gap, ',') + ItemsText(rest));
    }
  }

  lemma EmptyReads(s: string, at: nat, gap: string, inner: string, strict: bool)
    requires Blanks(gap, strict) && Blanks(inner, strict) && StartsWith(s, at, Mark(gap, '[') + Mark(inner, ']'))
    ensures at < |s| && ArrayAt(s, at, strict) == Got([], at + |gap| + 1 + |inner| + 1)
  {
    hide Marked, StartsWith, TakeAt, Mark, Blanks, ItemsFrom;
    MarkLength(gap);
    StartsInTwo(s, at, Mark(gap, '['), Mark(inner, ']'));
    Takes(s, at, gap, '[', strict);
    Takes(s, at + |gap| + 1, inner, ']', strict);
  }

  lemma FullReads(s: string, at: nat, gap: string, xs: Items, strict: bool)
    requires Blanks(gap, strict) && GoodItems(xs, strict) && StartsWith(s, at, Mark(gap, '[') + ItemsText(xs))
    ensures at < |s| && ArrayAt(s, at, strict) == Got(ItemsValue(xs), at + |gap| + 1 + |ItemsText(xs)|)
  {
    hide Marked, StartsWith, TakeAt, Mark, Blanks, ItemsText, ItemsValue, ItemsFrom, GoodItems;
    MarkLength(gap);
    StartsInTwo(s, at, Mark(gap, '['), ItemsText(xs));
    Takes(s, at, gap, '[', strict);
    ItemsStartQuoted(s, at + |gap| + 1, xs, strict);
    ItemsRead(s, at + |gap| + 1, xs, strict);
  }

  lemma ArrayReads(s: string, at: nat, a: Array, strict: bool)
    requires GoodArray(a, strict) && StartsWith(s, at, ArrayText(a))
    ensures at < |s| && ArrayAt(s, at, strict) == Got(ArrayValue(a), at + |ArrayText(a)|)
  {
    hide StartsWith, ArrayAt, Mark, Blanks, ItemsText, ItemsValue, GoodItems;
    MarkLength(a.gap);
    if a.Empty? {
      MarkLength(a.inner);
      EmptyReads(s, at, a.gap, a.inner, strict);
    } else {
      FullReads(s, at, a.gap, a.items, strict);
    }
  }

  lemma ArrayIs(s: string, at: nat, strict: bool) returns (a: Array)
    requires at <= |s| && ArrayAt(s, at, strict).Got?
    ensures GoodArray(a, strict) && StartsWith(s, at, ArrayText(a))
    ensures ArrayAt(s, at, strict) == Got(ArrayValue(a), at + |ArrayText(a)|)
  {
    hide StartsWith, TakeAt, Mark, Blanks, ItemsText, ItemsValue, ItemsFrom, GoodItems;
    var gap := Taken(s, at, '[', strict);
    MarkLength(gap);
    var start := at + |gap| + 1;
    if TakeAt(s, start, ']', strict).Some? {
      var inner := Taken(s, start, ']', strict);
      MarkLength(inner);
      a := Empty(gap, inner);
      StartsBoth(s, at, Mark(gap, '['), Mark(inner, ']'));
    } else {
      var items := ItemsAre(s, start, strict);
      a := Full(gap, items);
      StartsBoth(s, at, Mark(gap, '['), ItemsText(items));
    }
  }

  // ----- exactly these -----

  /** At this place stands a string of the grammar that means `value` and ends at `next`. */
  ghost predicate StringThere(s: string, at: nat, value: string, next: nat, strict: bool) {
    exists w :: GoodWord(w, strict) && StartsWith(s, at, WordText(w)) && WordValue(w) == value
                && next == at + |WordText(w)|
  }

  ghost predicate ArrayThere(s: string, at: nat, value: seq<string>, next: nat, strict: bool) {
    exists a :: GoodArray(a, strict) && StartsWith(s, at, ArrayText(a)) && ArrayValue(a) == value
                && next == at + |ArrayText(a)|
  }

  lemma StringsExactly(s: string, at: nat, value: string, next: nat, strict: bool)
    requires at <= |s|
    ensures StringAt(s, at, strict) == Got(value, next) <==> StringThere(s, at, value, next, strict)
  {
    hide StringAt, GoodWord, WordText, WordValue, StartsWith;
    if StringAt(s, at, strict) == Got(value, next) {
      var w := WordIs(s, at, strict);
    } else if StringThere(s, at, value, next, strict) {
      var w :| GoodWord(w, strict) && StartsWith(s, at, WordText(w)) && WordValue(w) == value
                && next == at + |WordText(w)|;
      WordReads(s, at, w, strict);
    }
  }

  lemma ArraysExactly(s: string, at: nat, value: seq<string>, next: nat, strict: bool)
    requires at <= |s|
    ensures ArrayAt(s, at, strict) == Got(value, next) <==> ArrayThere(s, at, value, next, strict)
  {
    hide ArrayAt, GoodArray, ArrayText, ArrayValue, StartsWith;
    if ArrayAt(s, at, strict) == Got(value, next) {
      var a := ArrayIs(s, at, strict);
    } else if ArrayThere(s, at, value, next, strict) {
      var a :| GoodArray(a, strict) && StartsWith(s, at, ArrayText(a)) && ArrayValue(a) == value
               && next == at + |ArrayText(a)|;
      ArrayReads(s, at, a, strict);
    }
  }
}
