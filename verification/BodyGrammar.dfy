/** The bodies the server accepts, as a grammar over the tokens of `Grammar`: what a DEL body and what an
    object of fields mean, and that nothing else is accepted. */
module BodyGrammar {
  import opened Options
  import Sequences
  import opened Decimal
  import opened Json
  import opened JsonStrings
  import opened Grammar
  import opened Bodies
  import BodyText
  import Numerals
  import Aof
  import KV = KeyValue

  // ----- DEL bodies -----

  datatype Entry = Key(name: Word, colon: string, key: Word) | Keys(name: Word, colon: string, keys: Array)

  datatype Entries = LastOne(entry: Entry, gap: string) | Another(entry: Entry, gap: string, rest: Entries)

  datatype DelText = NoKeys(gap: string, inner: string, tail: string)
                   | SomeKeys(gap: string, entries: Entries, tail: string)

  predicate GoodEntry(e: Entry) {
    && GoodWord(e.name, false) && Blanks(e.colon, false)
    && WordValue(e.name) == (if e.Key? then "key" else "keys")
    && if e.Key? then GoodWord(e.key, false) else GoodArray(e.keys, false)
  }

  function EntryText(e: Entry): string {
    WordText(e.name) + (Mark(e.colon, ':') + if e.Key? then WordText(e.key) else ArrayText(e.keys))
  }

  function EntryValue(e: Entry): seq<string> { if e.Key? then [WordValue(e.key)] else ArrayValue(e.keys) }

  predicate GoodEntries(es: Entries) {
    GoodEntry(es.entry) && Blanks(es.gap, false) && (es.Another? ==> GoodEntries(es.rest))
  }

  function EntriesText(es: Entries): string {
    EntryText(es.entry) + if es.LastOne? then Mark(es.gap, '}') else Mark(es.gap, ',') + EntriesText(es.rest)
  }

  /** All the keys named, in order. */
  function EntriesValue(es: Entries): seq<string> {
    if es.LastOne? then EntryValue(es.entry) else EntryValue(es.entry) + EntriesValue(es.rest)
  }

  predicate GoodDel(d: DelText) {
    && Blanks(d.gap, false) && Blanks(d.tail, false)
    && if d.NoKeys? then Blanks(d.inner, false) else GoodEntries(d.entries)
  }

  function DelFront(d: DelText): string {
    Mark(d.gap, '{') + if d.NoKeys? then Mark(d.inner, '}') else EntriesText(d.entries)
  }

  function DelValue(d: DelText): seq<string> { if d.NoKeys? then [] else EntriesValue(d.entries) }

  lemma EntryReads(s: string, at: nat, e: Entry)
    requires GoodEntry(e) && StartsWith(s, at, EntryText(e))
    ensures at < |s| && KeysAt(s, at) == Got(EntryValue(e), at + |EntryText(e)|)
    ensures TakeAt(s, at, '}', false) == None
  {
    hide StartsWith, TakeAt, StringAt, ArrayAt, Mark, Blanks, WordText, WordValue, ArrayText, ArrayValue, GoodWord,
      GoodArray;
    var value := if e.Key? then WordText(e.key) else ArrayText(e.keys);
    var colon := at + |WordText(e.name)|;
    MarkLength(e.colon);
    StartsInTwo(s, at, WordText(e.name), Mark(e.colon, ':') + value);
    StartsInTwo(s, colon, Mark(e.colon, ':'), value);
    WordReads(s, at, e.name, false);
    Takes(s, colon, e.colon, ':', false);
    if e.Key? {
      WordReads(s, colon + |e.colon| + 1, e.key, false);
    } else {
      ArrayReads(s, colon + |e.colon| + 1, e.keys, false);
    }
  }

  lemma EntryIs(s: string, at: nat) returns (e: Entry)
    requires at <= |s| && KeysAt(s, at).Got?
    ensures GoodEntry(e) && StartsWith(s, at, EntryText(e)) && KeysAt(s, at) == Got(EntryValue(e), at + |EntryText(e)|)
  {
    hide StartsWith, TakeAt, StringAt, ArrayAt, Mark, Blanks, WordText, WordValue, ArrayText, ArrayValue, GoodWord,
      GoodArray;
    var name := WordIs(s, at, false);
    var end := at + |WordText(name)|;
    var gap := Taken(s, end, ':', false);
    MarkLength(gap);
    var start := end + |gap| + 1;
    if WordValue(name) == "key" {
      var key := WordIs(s, start, false);
      e := Key(name, gap, key);
      StartsBoth(s, end, Mark(gap, ':'), WordText(key));
      StartsBoth(s, at, WordText(name), Mark(gap, ':') + WordText(key));
    } else {
      var keys := ArrayIs(s, start, false);
      e := Keys(name, gap, keys);
      StartsBoth(s, end, Mark(gap, ':'), ArrayText(keys));
      StartsBoth(s, at, WordText(name), Mark(gap, ':') + ArrayText(keys));
    }
  }

  lemma {:induction false} EntriesRead(s: string, at: nat, es: Entries)
    requires GoodEntries(es) && StartsWith(s, at, EntriesText(es))
    ensures at < |s| && KeysFrom(s, at) == Got(EntriesValue(es), at + |EntriesText(es)|)
    ensures TakeAt(s, at, '}', false) == None
    decreases es
  {
    hide GoodEntry, EntryText, EntryValue, StartsWith, TakeAt, KeysAt, Mark, Blanks;
    var n := |EntryText(es.entry)|;
    MarkLength(es.gap);
    if es.LastOne? {
      StartsInTwo(s, at, EntryText(es.entry), Mark(es.gap, '}'));
      EntryReads(s, at, es.entry);
      Takes(s, at + n, es.gap, '}', false);
    } else {
      StartsInTwo(s, at, EntryText(es.entry), Mark(es.gap, ',') + EntriesText(es.rest));
      EntryReads(s, at, es.entry);
      StartsInTwo(s, at + n, Mark(es.gap, ','), EntriesText(es.rest));
      Takes(s, at + n, es.gap, ',', false);
      EntriesRead(s, at + n + |es.gap| + 1, es.rest);
    }
  }

  lemma {:induction false} EntriesAre(s: string, at: nat) returns (es: Entries)
    requires at <= |s| && KeysFrom(s, at).Got?
    ensures GoodEntries(es) && StartsWith(s, at, EntriesText(es))
    ensures KeysFrom(s, at) == Got(EntriesValue(es), at + |EntriesText(es)|)
    decreases |s| - at
  {
    hide GoodEntry, EntryText, EntryValue, StartsWith, TakeAt, KeysAt, Mark, Blanks;
    var entry := EntryIs(s, at);
    var end := at + |EntryText(entry)|;
    if TakeAt(s, end, '}', false).Some? {
      var gap := Taken(s, end, '}', false);
      MarkLength(gap);
      es := LastOne(entry, gap);
      StartsBoth(s, at, EntryText(entry), Mark(gap, '}'));
    } else {
      var gap := Taken(s, end, ',', false);
      MarkLength(gap);
      var rest := EntriesAre(s, end + |gap| + 1);
      es := Another(entry, gap, rest);
      StartsBoth(s, end, Mark(gap, ','), EntriesText(rest));
      StartsBoth(s, at, EntryText(entry), Mark(gap, ',') + EntriesText(rest));
    }
  }

  lemma NoKeysRead(s: string, gap: string, inner: string)
    requires Blanks(gap, false) && Blanks(inner, false) && StartsWith(s, 0, Mark(gap, '{') + Mark(inner, '}'))
    ensures KeyListAt(s) == Got([], |gap| + 1 + |inner| + 1)
  {
    hide Marked, StartsWith, TakeAt, Mark, Blanks, KeysFrom;
    MarkLength(gap);
    StartsInTwo(s, 0, Mark(gap, '{'), Mark(inner, '}'));
    Takes(s, 0, gap, '{', false);
    Takes(s, |gap| + 1, inner, '}', false);
  }

  lemma SomeKeysRead(s: string, gap: string, es: Entries)
    requires Blanks(gap, false) && GoodEntries(es) && StartsWith(s, 0, Mark(gap, '{') + EntriesText(es))
    ensures KeyListAt(s) == Got(EntriesValue(es), |gap| + 1 + |EntriesText(es)|)
  {
    hide Marked, StartsWith, TakeAt, Mark, Blanks, EntriesText, EntriesValue, KeysFrom, GoodEntries;
    MarkLength(gap);
    StartsInTwo(s, 0, Mark(gap, '{'), EntriesText(es));
    Takes(s, 0, gap, '{', false);
    EntriesRead(s, |gap| + 1, es);
  }

  lemma DelReads(s: string, d: DelText)
    requires GoodDel(d) && StartsWith(s, 0, DelFront(d))
    ensures KeyListAt(s) == Got(DelValue(d), |DelFront(d)|)
  {
    hide StartsWith, KeyListAt, Mark, Blanks, EntriesText, EntriesValue, GoodEntries;
    MarkLength(d.gap);
    if d.NoKeys? {
      MarkLength(d.inner);
      NoKeysRead(s, d.gap, d.inner);
    } else {
      SomeKeysRead(s, d.gap, d.entries);
    }
  }

  lemma DelIs(s: string, tail: string) returns (d: DelText)
    requires KeyListAt(s).Got? && Blanks(tail, false)
    ensures GoodDel(d) && StartsWith(s, 0, DelFront(d)) && KeyListAt(s) == Got(DelValue(d), |DelFront(d)|)
    ensures d.tail == tail
  {
    hide StartsWith, TakeAt, Mark, Blanks, EntriesText, EntriesValue, KeysFrom, GoodEntries;
    var gap := Taken(s, 0, '{', false);
    MarkLength(gap);
    var start := |gap| + 1;
    if TakeAt(s, start, '}', false).Some? {
      var inner := Taken(s, start, '}', false);
      MarkLength(inner);
      d := NoKeys(gap, inner, tail);
      StartsBoth(s, 0, Mark(gap, '{'), Mark(inner, '}'));
    } else {
      var entries := EntriesAre(s, start);
      d := SomeKeys(gap, entries, tail);
      StartsBoth(s, 0, Mark(gap, '{'), EntriesText(entries));
    }
  }

  lemma FrontStarts(front: string, tail: string)
    ensures StartsWith(front + tail, 0, front) && StartsWith(front + tail, |front|, tail)
  {
    assert (front + tail)[0..|front|] == front && (front + tail)[|front|..|front| + |tail|] == tail;
  }

  lemma BlanksToTheEnd(front: string, tail: string, strict: bool)
    requires Blanks(tail, strict)
    ensures SkipFrom(front + tail, |front|, strict) == |front + tail|
  {
    hide Blanks, StartsWith;
    FrontStarts(front, tail);
    SkipsOver(front + tail, |front|, tail, strict);
  }

  lemma WholeStarts(s: string, front: string)
    requires StartsWith(s, 0, front)
    ensures s == front + s[|front|..]
  {
  }

  ghost predicate DelMeans(s: string, keys: seq<string>) {
    exists d :: GoodDel(d) && DelFront(d) + d.tail == s && DelValue(d) == keys
  }

  /** A DEL body is accepted exactly if it is one of the grammar, and names the keys its fields list. */
  lemma DelBodiesExactly(s: string, keys: seq<string>)
    ensures Whole(s, KeyListAt(s), false) == Some(keys) <==> DelMeans(s, keys)
  {
    hide StartsWith, SkipFrom, KeyListAt, DelFront, DelValue, Blanks, GoodEntries;
    if Whole(s, KeyListAt(s), false) == Some(keys) {
      var end := KeyListAt(s).next;
      Skipped(s, end, false);
      var d := DelIs(s, s[end..]) by { assert s[end..] == s[end..SkipFrom(s, end, false)]; }
      WholeStarts(s, DelFront(d));
    } else if DelMeans(s, keys) {
      var d :| GoodDel(d) && DelFront(d) + d.tail == s && DelValue(d) == keys;
      FrontStarts(DelFront(d), d.tail);
      DelReads(s, d);
      BlanksToTheEnd(DelFront(d), d.tail, false);
    }
  }

  // ----- objects of fields -----

  datatype Literal = TextOf(chars: Chars) | FlagOf(yes: bool) | NumberOf(digits: string)

  datatype Field = Field(name: Word, colon: string, gap: string, value: Literal)

  datatype FieldList = LastField(field: Field, gap: string) | MoreFields(field: Field, gap: string, rest: FieldList)

  datatype ObjectText = Bare(gap: string, inner: string, tail: string)
                      | Object(gap: string, fields: FieldList, tail: string)

  predicate GoodLiteral(v: Literal) {
    match v
    case TextOf(chars) => GoodChars(chars, true)
    case FlagOf(_) => true
    case NumberOf(digits) => digits != "" && AllDigits(digits)
  }

  function LiteralText(v: Literal): string {
    match v
    case TextOf(chars) => Mark("", '"') + CharsText(chars)
    case FlagOf(yes) => if yes then "true" else "false"
    case NumberOf(digits) => digits
  }

  /** Numbers are kept in 64 bits. */
  function LiteralValue(v: Literal): Value {
    match v
    case TextOf(chars) => Text(CharsValue(chars))
    case FlagOf(yes) => Flag(yes)
    case NumberOf(digits) => Number(if AllDigits(digits) then Numerals.Value(digits) % U64 else 0)
  }

  predicate GoodField(f: Field) {
    GoodWord(f.name, true) && Blanks(f.colon, true) && Blanks(f.gap, true) && GoodLiteral(f.value)
  }

  function FieldText(f: Field): string {
    WordText(f.name) + (Mark(f.colon, ':') + (f.gap + LiteralText(f.value)))
  }

  predicate GoodFields(fs: FieldList) {
    GoodField(fs.field) && Blanks(fs.gap, true) && (fs.MoreFields? ==> GoodFields(fs.rest))
  }

  function FieldsText(fs: FieldList): string {
    FieldText(fs.field) + if fs.LastField? then Mark(fs.gap, '}') else Mark(fs.gap, ',') + FieldsText(fs.rest)
  }

  /** No name twice. */
  predicate AllNew(fs: FieldList, seen: Fields) {
    var name := WordValue(fs.field.name);
    name !in seen && (fs.MoreFields? ==> AllNew(fs.rest, seen[name := LiteralValue(fs.field.value)]))
  }

  function FieldsValue(fs: FieldList, seen: Fields): Fields {
    var seen' := seen[WordValue(fs.field.name) := LiteralValue(fs.field.value)];
    if fs.LastField? then seen' else FieldsValue(fs.rest, seen')
  }

  predicate GoodObject(o: ObjectText) {
    && Blanks(o.gap, true) && Blanks(o.tail, true)
    && if o.Bare? then Blanks(o.inner, true) else GoodFields(o.fields) && AllNew(o.fields, map[])
  }

  function ObjectFront(o: ObjectText): string {
    Mark(o.gap, '{') + if o.Bare? then Mark(o.inner, '}') else FieldsText(o.fields)
  }

  function ObjectValue(o: ObjectText): Fields { if o.Bare? then map[] else FieldsValue(o.fields, map[]) }

  /** The character after a value cannot belong to it. */
  predicate Ends(s: string, at: nat) { at < |s| && !IsDigit(s[at]) }

  lemma MarkEnds(s: string, at: nat, gap: string, c: char)
    requires Blanks(gap, true) && Token(c) && StartsWith(s, at, Mark(gap, c))
    ensures Ends(s, at)
  {
    assert s[at] == s[at..at + |gap| + 1][0];
  }

  lemma NumberReads(s: string, at: nat, digits: string)
    requires digits != "" && AllDigits(digits) && StartsWith(s, at, digits) && Ends(s, at + |digits|)
    ensures ValueAt(s, at) == Got(LiteralValue(NumberOf(digits)), at + |digits|) && SkipFrom(s, at, true) == at
  {
    hide Decimal.Number, Numerals.Value, StringAt;
    assert forall i :: at <= i < at + |digits| ==> s[i] == s[at..at + |digits|][i - at];
    Numerals.DigitsStop(s, at, at + |digits|);
    Numerals.NumberIsValue(digits);
    BodyText.OtherStart(s, at, "true");
    BodyText.OtherStart(s, at, "false");
  }

  lemma LiteralReads(s: string, at: nat, v: Literal)
    requires GoodLiteral(v) && StartsWith(s, at, LiteralText(v)) && Ends(s, at + |LiteralText(v)|)
    ensures ValueAt(s, at) == Got(LiteralValue(v), at + |LiteralText(v)|) && SkipFrom(s, at, true) == at
  {
    hide ValueAt, SkipFrom, StartsWith, Ends, CharsText, CharsValue, GoodChars, Numerals.Value, AllDigits;
    match v {
      case TextOf(chars) => TextReads(s, at, chars);
      case FlagOf(yes) => FlagReads(s, at, yes);
      case NumberOf(digits) => NumberReads(s, at, digits);
    }
  }

  lemma FlagReads(s: string, at: nat, yes: bool)
    requires StartsWith(s, at, LiteralText(FlagOf(yes)))
    ensures ValueAt(s, at) == Got(Flag(yes), at + |LiteralText(FlagOf(yes))|) && SkipFrom(s, at, true) == at
  {
    hide ValueAt, SkipFrom;
    var t := LiteralText(FlagOf(yes));
    assert t == BodyText.FlagText(yes) && s[at] == s[at..at + |t|][0];
    BodyText.FlagAt(s, at, yes);
  }

  lemma TextReads(s: string, at: nat, chars: Chars)
    requires GoodChars(chars, true) && StartsWith(s, at, Mark("", '"') + CharsText(chars))
    ensures ValueAt(s, at) == Got(Text(CharsValue(chars)), at + 1 + |CharsText(chars)|) && SkipFrom(s, at, true) == at
  {
    hide StartsWith, GoodChars, CharsText, CharsValue, CharsFrom, NumberAt;
    var t := Mark("", '"') + CharsText(chars);
    StartsInTwo(s, at, Mark("", '"'), CharsText(chars));
    assert Mark("", '"') == ['"'];
    StartsFirst(s, at, '"');
    CharsRead(s, at + 1, chars, true);
  }

  lemma LiteralIs(s: string, at: nat) returns (v: Literal)
    requires at <= |s| && ValueAt(s, at).Got?
    ensures GoodLiteral(v) && StartsWith(s, at, LiteralText(v))
    ensures ValueAt(s, at) == Got(LiteralValue(v), at + |LiteralText(v)|)
  {
    hide CharsFrom, CharsText, CharsValue, GoodChars, Decimal.Number, Numerals.Value;
    if s[at] == '"' {
      var chars := CharsAre(s, at + 1, true);
      v := TextOf(chars);
      assert StartsWith(s, at, Mark("", '"'));
      StartsBoth(s, at, Mark("", '"'), CharsText(chars));
    } else if StartsWith(s, at, "true") {
      v := FlagOf(true);
    } else if StartsWith(s, at, "false") {
      v := FlagOf(false);
    } else {
      var end := DigitsEnd(s, at);
      v := NumberOf(s[at..end]);
      Numerals.NumberIsValue(s[at..end]);
    }
  }

  lemma FieldReads(s: string, at: nat, f: Field)
    requires GoodField(f) && StartsWith(s, at, FieldText(f)) && Ends(s, at + |FieldText(f)|)
    ensures FieldAt(s, at) == Got((WordValue(f.name), LiteralValue(f.value)), at + |FieldText(f)|)
    ensures TakeAt(s, at, '}', true) == None
  {
    hide StartsWith, TakeAt, SkipFrom, StringAt, ValueAt, Mark, Blanks, WordText, WordValue, LiteralText, LiteralValue,
      GoodWord, GoodLiteral, Ends;
    var colon := at + |WordText(f.name)|;
    var start := colon + |f.colon| + 1;
    MarkLength(f.colon);
    StartsInTwo(s, at, WordText(f.name), Mark(f.colon, ':') + (f.gap + LiteralText(f.value)));
    StartsInTwo(s, colon, Mark(f.colon, ':'), f.gap + LiteralText(f.value));
    StartsInTwo(s, start, f.gap, LiteralText(f.value));
    WordReads(s, at, f.name, true);
    Takes(s, colon, f.colon, ':', true);
    SkipsOver(s, start, f.gap, true);
    LiteralReads(s, start + |f.gap|, f.value);
  }

  lemma FieldIs(s: string, at: nat) returns (f: Field)
    requires at <= |s| && FieldAt(s, at).Got?
    ensures GoodField(f) && StartsWith(s, at, FieldText(f))
    ensures FieldAt(s, at) == Got((WordValue(f.name), LiteralValue(f.value)), at + |FieldText(f)|)
  {
    hide StartsWith, TakeAt, SkipFrom, StringAt, ValueAt, Mark, Blanks, WordText, WordValue, LiteralText, LiteralValue,
      GoodWord, GoodLiteral;
    var name := WordIs(s, at, true);
    var end := at + |WordText(name)|;
    var colon := Taken(s, end, ':', true);
    MarkLength(colon);
    var start := end + |colon| + 1;
    var p := SkipFrom(s, start, true);
    var gap := s[start..p];
    Skipped(s, start, true);
    StartsSlice(s, start, p);
    var value := LiteralIs(s, p);
    f := Field(name, colon, gap, value);
    StartsBoth(s, start, gap, LiteralText(value));
    StartsBoth(s, end, Mark(colon, ':'), gap + LiteralText(value));
    StartsBoth(s, at, WordText(name), Mark(colon, ':') + (gap + LiteralText(value)));
  }

  lemma StartsSlice(s: string, from: nat, end: nat)
    requires from <= end <= |s|
    ensures StartsWith(s, from, s[from..end])
  {
  }

  lemma {:induction false} FieldsRead(s: string, at: nat, fs: FieldList, seen: Fields)
    requires GoodFields(fs) && StartsWith(s, at, FieldsText(fs))
    ensures at < |s| && TakeAt(s, at, '}', true) == None
    ensures FieldsFrom(s, at, seen)
            == if AllNew(fs, seen) then Got(FieldsValue(fs, seen), at + |FieldsText(fs)|) else Failed
    decreases fs
  {
    hide GoodField, FieldText, StartsWith, TakeAt, FieldAt, Mark, Blanks, LiteralValue, WordValue, Ends;
    var n := |FieldText(fs.field)|;
    MarkLength(fs.gap);
    if fs.LastField? {
      StartsInTwo(s, at, FieldText(fs.field), Mark(fs.gap, '}'));
      MarkEnds(s, at + n, fs.gap, '}');
      FieldReads(s, at, fs.field);
      Takes(s, at + n, fs.gap, '}', true);
    } else {
      StartsInTwo(s, at, FieldText(fs.field), Mark(fs.gap, ',') + FieldsText(fs.rest));
      StartsInTwo(s, at + n, Mark(fs.gap, ','), FieldsText(fs.rest));
      MarkEnds(s, at + n, fs.gap, ',');
      FieldReads(s, at, fs.field);
      Takes(s, at + n, fs.gap, ',', true);
      FieldsRead(s, at + n + |fs.gap| + 1, fs.rest, seen[WordValue(fs.field.name) := LiteralValue(fs.field.value)]);
    }
  }

  lemma {:induction false} FieldsAre(s: string, at: nat, seen: Fields) returns (fs: FieldList)
    requires at <= |s| && FieldsFrom(s, at, seen).Got?
    ensures GoodFields(fs) && AllNew(fs, seen) && StartsWith(s, at, FieldsText(fs))
    ensures FieldsFrom(s, at, seen) == Got(FieldsValue(fs, seen), at + |FieldsText(fs)|)
    decreases |s| - at
  {
    hide GoodField, FieldText, StartsWith, TakeAt, FieldAt, Mark, Blanks, LiteralValue, WordValue;
    var field := FieldIs(s, at);
    var end := at + |FieldText(field)|;
    if TakeAt(s, end, '}', true).Some? {
      var gap := Taken(s, end, '}', true);
      MarkLength(gap);
      fs := LastField(field, gap);
      StartsBoth(s, at, FieldText(field), Mark(gap, '}'));
    } else {
      var gap := Taken(s, end, ',', true);
      MarkLength(gap);
      var rest := FieldsAre(s, end + |gap| + 1, seen[WordValue(field.name) := LiteralValue(field.value)]);
      fs := MoreFields(field, gap, rest);
      StartsBoth(s, end, Mark(gap, ','), FieldsText(rest));
      StartsBoth(s, at, FieldText(field), Mark(gap, ',') + FieldsText(rest));
    }
  }

  lemma BareReads(s: string, gap: string, inner: string)
    requires Blanks(gap, true) && Blanks(inner, true) && StartsWith(s, 0, Mark(gap, '{') + Mark(inner, '}'))
    ensures ObjectAt(s) == Got(map[], |gap| + 1 + |inner| + 1)
  {
    hide Marked, StartsWith, TakeAt, Mark, Blanks, FieldsFrom;
    MarkLength(gap);
    StartsInTwo(s, 0, Mark(gap, '{'), Mark(inner, '}'));
    Takes(s, 0, gap, '{', true);
    Takes(s, |gap| + 1, inner, '}', true);
  }

  lemma FilledReads(s: string, gap: string, fs: FieldList)
    requires Blanks(gap, true) && GoodFields(fs) && AllNew(fs, map[])
    requires StartsWith(s, 0, Mark(gap, '{') + FieldsText(fs))
    ensures ObjectAt(s) == Got(FieldsValue(fs, map[]), |gap| + 1 + |FieldsText(fs)|)
  {
    hide Marked, StartsWith, TakeAt, Mark, Blanks, FieldsText, FieldsValue, FieldsFrom, GoodFields, AllNew;
    MarkLength(gap);
    StartsInTwo(s, 0, Mark(gap, '{'), FieldsText(fs));
    Takes(s, 0, gap, '{', true);
    FieldsRead(s, |gap| + 1, fs, map[]);
  }

  lemma ObjectReads(s: string, o: ObjectText)
    requires GoodObject(o) && StartsWith(s, 0, ObjectFront(o))
    ensures ObjectAt(s) == Got(ObjectValue(o), |ObjectFront(o)|)
  {
    hide StartsWith, ObjectAt, Mark, Blanks, FieldsText, FieldsValue, GoodFields, AllNew;
    MarkLength(o.gap);
    if o.Bare? {
      MarkLength(o.inner);
      BareReads(s, o.gap, o.inner);
    } else {
      FilledReads(s, o.gap, o.fields);
    }
  }

  lemma ObjectIs(s: string, tail: string) returns (o: ObjectText)
    requires ObjectAt(s).Got? && Blanks(tail, true)
    ensures GoodObject(o) && StartsWith(s, 0, ObjectFront(o)) && ObjectAt(s) == Got(ObjectValue(o), |ObjectFront(o)|)
    ensures o.tail == tail
  {
    hide StartsWith, TakeAt, Mark, Blanks, FieldsText, FieldsValue, FieldsFrom, GoodFields, AllNew;
    var gap := Taken(s, 0, '{', true);
    MarkLength(gap);
    var start := |gap| + 1;
    if TakeAt(s, start, '}', true).Some? {
      var inner := Taken(s, start, '}', true);
      MarkLength(inner);
      o := Bare(gap, inner, tail);
      StartsBoth(s, 0, Mark(gap, '{'), Mark(inner, '}'));
    } else {
      var fields := FieldsAre(s, start, map[]);
      o := Object(gap, fields, tail);
      StartsBoth(s, 0, Mark(gap, '{'), FieldsText(fields));
    }
  }

  ghost predicate ObjectMeans(s: string, fields: Fields) {
    exists o :: GoodObject(o) && ObjectFront(o) + o.tail == s && ObjectValue(o) == fields
  }

  /** A SET or GET body is read exactly if it is an object of the grammar with no name twice, and then as
      the fields it lists. */
  lemma ObjectsExactly(s: string, fields: Fields)
    ensures Whole(s, ObjectAt(s), true) == Some(fields) <==> ObjectMeans(s, fields)
  {
    hide StartsWith, SkipFrom, ObjectAt, ObjectFront, ObjectValue, Blanks, GoodFields, AllNew;
    if Whole(s, ObjectAt(s), true) == Some(fields) {
      var end := ObjectAt(s).next;
      Skipped(s, end, true);
      var o := ObjectIs(s, s[end..]) by { assert s[end..] == s[end..SkipFrom(s, end, true)]; }
      WholeStarts(s, ObjectFront(o));
    } else if ObjectMeans(s, fields) {
      var o :| GoodObject(o) && ObjectFront(o) + o.tail == s && ObjectValue(o) == fields;
      FrontStarts(ObjectFront(o), o.tail);
      ObjectReads(s, o);
      BlanksToTheEnd(ObjectFront(o), o.tail, true);
    }
  }

  // ----- commands -----

  /** The name, in letters of either case. */
  predicate Named(op: string, lower: string, upper: string)
    requires |lower| == |upper|
  {
    |op| == |upper| && forall i :: 0 <= i < |op| ==> op[i] == lower[i] || op[i] == upper[i]
  }

  predicate May(fields: Fields, name: string, v: Value) { name in fields ==> fields[name] == v }

  predicate AsksSet(fields: Fields, key: string, value: string, condition: KV.Condition, ttl: nat) {
    && fields.Keys <= {"key", "value", "if_exists", "if_not_exists", "ttl_ms"} && {"key", "value"} <= fields.Keys
    && fields["key"] == Text(key) && key != "" && fields["value"] == Text(value)
    && May(fields, "if_not_exists", Flag(condition.IfAbsent?)) && May(fields, "if_exists", Flag(condition.IfPresent?))
    && May(fields, "ttl_ms", Number(ttl)) && ("ttl_ms" in fields <==> ttl > 0)
    && (condition.IfAbsent? ==> "if_not_exists" in fields) && (condition.IfPresent? ==> "if_exists" in fields)
  }

  lemma SetExactly(fields: Fields, key: string, value: string, condition: KV.Condition, ttl: nat)
    ensures SetOf(fields) == Some(Set(key, value, condition, ttl)) <==> AsksSet(fields, key, value, condition, ttl)
  {
  }

  lemma GetExactly(fields: Fields, key: string)
    ensures GetOf(fields) == Some(Get(key)) <==> key != "" && fields == map["key" := Text(key)]
  {
    if GetOf(fields) == Some(Get(key)) {
      var rest := fields.Keys - {"key"};
      assert |rest| == 0;
      assert fields.Keys == rest + {"key"};
    }
  }

  ghost predicate Means(op: string, body: string, command: Command) {
    match command
    case Set(key, value, condition, ttl) =>
      && Named(op, "set", "SET")
      && exists fields :: ObjectMeans(body, fields) && AsksSet(fields, key, value, condition, ttl)
    case Get(key) => Named(op, "get", "GET") && key != "" && ObjectMeans(body, map["key" := Text(key)])
    case Del(keys) => Named(op, "del", "DEL") && DelMeans(body, keys)
  }

  lemma NameIs(op: string)
    ensures Aof.Normalized(op) == "SET" <==> Named(op, "set", "SET")
    ensures Aof.Normalized(op) == "GET" <==> Named(op, "get", "GET")
    ensures Aof.Normalized(op) == "DEL" <==> Named(op, "del", "DEL")
  {
  }

  lemma SetRequests(body: string, key: string, value: string, condition: KV.Condition, ttl: nat)
    ensures var read := Whole(body, ObjectAt(body), true);
            (read.Some? && SetOf(read.value) == Some(Set(key, value, condition, ttl)))
            <==> exists fields :: ObjectMeans(body, fields) && AsksSet(fields, key, value, condition, ttl)
  {
    hide ObjectMeans, AsksSet, Whole, ObjectAt, SetOf;
    var read := Whole(body, ObjectAt(body), true);
    if read.Some? {
      ObjectsExactly(body, read.value);
      SetExactly(read.value, key, value, condition, ttl);
    }
    if fields :| ObjectMeans(body, fields) && AsksSet(fields, key, value, condition, ttl) {
      ObjectsExactly(body, fields);
    }
  }

  lemma GetRequests(body: string, key: string)
    ensures var read := Whole(body, ObjectAt(body), true);
            (read.Some? && GetOf(read.value) == Some(Get(key)))
            <==> key != "" && ObjectMeans(body, map["key" := Text(key)])
  {
    hide ObjectMeans, Whole, ObjectAt, GetOf;
    var read := Whole(body, ObjectAt(body), true);
    ObjectsExactly(body, map["key" := Text(key)]);
    if read.Some? { GetExactly(read.value, key); }
  }

  lemma ThreeNames(op: string)
    ensures var name := Aof.Normalized(op);
            !(name == "SET" && name == "GET") && !(name == "SET" && name == "DEL") && !(name == "GET" && name == "DEL")
  {
    hide Aof.Normalized;
    var name := Aof.Normalized(op);
    assert name == "SET" ==> name[0] == 'S';
    assert name == "GET" ==> name[0] == 'G';
    assert name == "DEL" ==> name[0] == 'D';
  }

  /** Which command a request stands for, for every name and every body. */
  lemma RequestsExactly(op: string, body: string, command: Command)
    ensures Aof.Understood(op, body) == Some(command) <==> Means(op, body, command)
  {
    hide Aof.Normalized, Named, ObjectMeans, DelMeans, AsksSet, Whole, ObjectAt, KeyListAt, SetOf, GetOf;
    NameIs(op);
    ThreeNames(op);
    UnderstoodKind(op, body);
    match command {
      case Set(key, value, condition, ttl) => SetRequests(body, key, value, condition, ttl);
      case Get(key) => GetRequests(body, key);
      case Del(keys) => DelBodiesExactly(body, keys);
    }
  }

  lemma UnderstoodKind(op: string, body: string)
    ensures var r, name := Aof.Understood(op, body), Aof.Normalized(op);
            r.Some? ==> (r.value.Set? <==> name == "SET") && (r.value.Get? <==> name == "GET")
                        && (r.value.Del? <==> name == "DEL")
  {
    hide Aof.Normalized, Whole, ObjectAt, KeyListAt;
    ThreeNames(op);
  }

  // ----- key lists, written without blanks -----

  lemma QuotedIs(value: string, strict: bool) returns (w: Word)
    ensures GoodWord(w, strict) && WordText(w) == "\"" + Quoted(value) && WordValue(w) == value
  {
    hide Quoted, CharsFrom, CharsText, CharsValue, GoodChars;
    var t := Quoted(value);
    assert t[0..|t|] == t;
    QuoteReadsBack(value, t, 0, strict);
    var cs := CharsAre(t, 0, strict);
    assert t[0..|CharsText(cs)|] == t;
    w := Word("", cs);
  }

  function QuotedItems(keys: seq<string>): string
    requires keys != []
  {
    "\"" + Quoted(keys[0]) + if |keys| == 1 then "]" else "," + QuotedItems(keys[1..])
  }

  function QuotedArray(keys: seq<string>): string { "[" + if keys == [] then "]" else QuotedItems(keys) }

  lemma {:induction false} WrittenItems(keys: seq<string>, strict: bool) returns (xs: Items)
    requires keys != []
    ensures GoodItems(xs, strict) && ItemsText(xs) == QuotedItems(keys) && ItemsValue(xs) == keys
  {
    hide Quoted, WordText, WordValue, GoodWord;
    var word := QuotedIs(keys[0], strict);
    if |keys| == 1 {
      xs := Last(word, "");
    } else {
      var rest := WrittenItems(keys[1..], strict);
      xs := Item(word, "", rest);
      assert [keys[0]] + keys[1..] == keys;
    }
  }

  lemma WrittenArray(keys: seq<string>, strict: bool) returns (a: Array)
    ensures GoodArray(a, strict) && ArrayText(a) == QuotedArray(keys) && ArrayValue(a) == keys
  {
    hide QuotedItems, ItemsText, ItemsValue, GoodItems;
    if keys == [] {
      a := Empty("", "");
    } else {
      var xs := WrittenItems(keys, strict);
      a := Full("", xs);
    }
  }

  /** Both readers, put before an array of quoted keys, return those keys and stop right after it. */
  lemma ArrayReadsBack(keys: seq<string>, before: string, after: string, strict: bool)
    ensures var t := QuotedArray(keys);
            ArrayAt(before + t + after, |before|, strict) == Got(keys, |before| + |t|)
  {
    hide ArrayAt, QuotedArray, ArrayText, ArrayValue, GoodArray;
    var t := QuotedArray(keys);
    var a := WrittenArray(keys, strict);
    assert (before + t + after)[|before|..|before| + |t|] == t;
    ArrayReads(before + t + after, |before|, a, strict);
  }

  datatype KeyField = OneKey(key: string) | ManyKeys(keys: seq<string>)

  function KeyFieldText(f: KeyField): string {
    match f
    case OneKey(key) => BodyText.Label("key") + ("\"" + Quoted(key))
    case ManyKeys(keys) => BodyText.Label("keys") + QuotedArray(keys)
  }

  function KeyFieldsText(fields: seq<KeyField>): string
    requires fields != []
  {
    KeyFieldText(fields[0]) + if |fields| == 1 then "}" else "," + KeyFieldsText(fields[1..])
  }

  function KeysNamed(fields: seq<KeyField>): seq<string> {
    if fields == [] then []
    else (if fields[0].OneKey? then [fields[0].key] else fields[0].keys) + KeysNamed(fields[1..])
  }

  lemma WrittenName(name: string) returns (w: Word)
    requires BodyText.PlainName(name)
    ensures GoodWord(w, false) && WordValue(w) == name && WordText(w) + Mark("", ':') == BodyText.Label(name)
  {
    hide GoodWord, WordText, WordValue, BodyText.PlainName, Quoted;
    w := QuotedIs(name, false);
    BodyText.PlainIsItself(name);
  }

  lemma WrittenField(f: KeyField) returns (e: Entry)
    ensures GoodEntry(e) && EntryText(e) == KeyFieldText(f) && EntryValue(e) == KeysNamed([f])
  {
    hide GoodWord, WordText, WordValue, GoodArray, ArrayText, ArrayValue, QuotedArray, Quoted, BodyText.Label, Mark;
    assert Blanks("", false) && [f][1..] == [];
    match f {
      case OneKey(key) =>
        var name := WrittenName("key");
        var w := QuotedIs(key, false);
        e := Key(name, "", w);
        Sequences.Regroup(WordText(name), Mark("", ':'), WordText(w));
      case ManyKeys(keys) =>
        var name := WrittenName("keys");
        var a := WrittenArray(keys, false);
        e := Keys(name, "", a);
        Sequences.Regroup(WordText(name), Mark("", ':'), ArrayText(a));
        assert keys + [] == keys;
    }
  }

  lemma {:induction false} WrittenFields(fields: seq<KeyField>) returns (es: Entries)
    requires fields != []
    ensures GoodEntries(es) && EntriesText(es) == KeyFieldsText(fields) && EntriesValue(es) == KeysNamed(fields)
  {
    hide GoodEntry, EntryText, EntryValue, KeyFieldText;
    var e := WrittenField(fields[0]);
    assert [fields[0]][1..] == [];
    if |fields| == 1 {
      es := LastOne(e, "");
      assert fields == [fields[0]];
    } else {
      var rest := WrittenFields(fields[1..]);
      es := Another(e, "", rest);
    }
  }

  /** A DEL body written with any list of fields names all their keys, in order. */
  lemma KeyFieldsReadBack(fields: seq<KeyField>)
    ensures var s := "{" + if fields == [] then "}" else KeyFieldsText(fields);
            Whole(s, KeyListAt(s), false) == Some(KeysNamed(fields))
  {
    hide Whole, KeyListAt, GoodEntries, EntriesText, EntriesValue, KeyFieldsText;
    var s := "{" + if fields == [] then "}" else KeyFieldsText(fields);
    var d;
    if fields == [] {
      d := NoKeys("", "", "");
    } else {
      var es := WrittenFields(fields);
      d := SomeKeys("", es, "");
    }
    assert DelFront(d) + d.tail == s;
    DelBodiesExactly(s, KeysNamed(fields));
  }
}
