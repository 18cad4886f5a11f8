/** The bodies the server itself writes into its log for binary requests. */
module BodyText {
  import opened Options
  import opened Decimal
  import opened Json
  import opened JsonStrings
  import opened Bodies
  import KV = KeyValue

  function FlagText(yes: bool): string { if yes then "true" else "false" }

  function ValueText(v: Value): string {
    match v
    case Text(text) => "\"" + Quoted(text)
    case Flag(yes) => FlagText(yes)
    case Number(n) => Decimal.Text(n)
  }

  function FieldText(name: string, v: Value): string {
    "\"" + Quoted(name) + ":" + ValueText(v)
  }

  function FieldsText(fields: seq<(string, Value)>): string
    requires fields != []
  {
    FieldText(fields[0].0, fields[0].1) + if |fields| == 1 then "}" else "," + FieldsText(fields[1..])
  }

  function AddAll(seen: Fields, fields: seq<(string, Value)>): Fields
    decreases |fields|
  {
    if fields == [] then seen else AddAll(seen[fields[0].0 := fields[0].1], fields[1..])
  }

  predicate Fits(v: Value) { v.Number? ==> v.n < U64 }

  /** Names all different, none seen before, numbers within 64 bits. */
  predicate Fresh(fields: seq<(string, Value)>, seen: Fields) {
    && (forall i :: 0 <= i < |fields| ==> fields[i].0 !in seen && Fits(fields[i].1))
    && (forall i, j :: 0 <= i < j < |fields| ==> fields[i].0 != fields[j].0)
  }

  // ----- every object so written is read back -----

  lemma {:induction false} DigitsRead(before: string, digits: string, after: string, k: nat)
    requires AllDigits(digits) && k <= |digits| && (after == "" || !IsDigit(after[0]))
    ensures DigitsEnd(before + digits + after, |before| + k) == |before| + |digits|
    decreases |digits| - k
  {
    var s := before + digits + after;
    if k < |digits| {
      assert s[|before| + k] == digits[k];
      DigitsRead(before, digits, after, k + 1);
    } else if after != "" {
      assert s[|before| + |digits|] == after[0];
    }
  }

  lemma NumberRead(before: string, n: nat, after: string)
    requires n < U64 && (after == "" || !IsDigit(after[0]))
    ensures NumberAt(before + Decimal.Text(n) + after, |before|, true) == Got(n, |before| + |Decimal.Text(n)|)
  {
    hide Decimal.Text;
    var t := Decimal.Text(n);
    var s := before + t + after;
    assert s[|before|] == t[0] && IsDigit(t[0]);
    DigitsRead(before, t, after, 0);
    assert s[|before|..|before| + |t|] == t;
    NumberOfText(n);
  }

  lemma OtherStart(s: string, at: nat, text: string)
    requires at < |s| && text != "" && s[at] != text[0]
    ensures !StartsWith(s, at, text)
  {
    assert at + |text| <= |s| ==> s[at..at + |text|][0] == s[at];
  }

  lemma ValueRead(before: string, v: Value, after: string)
    requires Fits(v) && after != "" && (after[0] == ',' || after[0] == '}')
    ensures var s := before + ValueText(v) + after;
            ValueAt(s, |before|) == Got(v, |s| - |after|) && SkipFrom(s, |before|, true) == |before|
  {
    match v {
      case Text(text) => TextRead(before, text, after);
      case Flag(yes) => FlagRead(before, yes, after);
      case Number(n) => CountRead(before, n, after);
    }
  }

  lemma TextRead(before: string, text: string, after: string)
    ensures var s := before + ("\"" + Quoted(text)) + after;
            ValueAt(s, |before|) == Got(Text(text), |s| - |after|) && SkipFrom(s, |before|, true) == |before|
  {
    hide StringAt, NumberAt, Quoted;
    var s := before + ("\"" + Quoted(text)) + after;
    assert s == before + "\"" + Quoted(text) + after;
    QuotedValue(text, before, after, true);
    assert s[|before|] == '"';
  }

  lemma StartsThere(before: string, t: string, after: string)
    requires t != ""
    ensures StartsWith(before + t + after, |before|, t) && (before + t + after)[|before|] == t[0]
  {
    var s := before + t + after;
    assert s[|before|..|before| + |t|] == t;
  }

  lemma FlagAt(s: string, at: nat, yes: bool)
    requires StartsWith(s, at, FlagText(yes)) && at < |s| && s[at] == FlagText(yes)[0]
    ensures ValueAt(s, at) == Got(Flag(yes), at + |FlagText(yes)|) && SkipFrom(s, at, true) == at
  {
    hide StringAt, NumberAt, StartsWith;
    if !yes { OtherStart(s, at, "true"); }
  }

  lemma FlagRead(before: string, yes: bool, after: string)
    ensures var s := before + FlagText(yes) + after;
            ValueAt(s, |before|) == Got(Flag(yes), |s| - |after|) && SkipFrom(s, |before|, true) == |before|
  {
    hide ValueAt, SkipFrom, StartsWith, FlagText;
    assert FlagText(yes) != "" by { FlagsNotEmpty(yes); }
    StartsThere(before, FlagText(yes), after);
    FlagAt(before + FlagText(yes) + after, |before|, yes);
  }

  lemma FlagsNotEmpty(yes: bool)
    ensures FlagText(yes) != ""
  {
  }

  lemma CountRead(before: string, n: nat, after: string)
    requires Fits(Number(n)) && after != "" && (after[0] == ',' || after[0] == '}')
    ensures var s := before + Decimal.Text(n) + after;
            ValueAt(s, |before|) == Got(Number(n), |s| - |after|) && SkipFrom(s, |before|, true) == |before|
  {
    hide StringAt, NumberAt, Decimal.Text;
    var t := Decimal.Text(n);
    var s := before + t + after;
    NumberRead(before, n, after);
    assert s[|before|] == t[0] && IsDigit(t[0]);
    OtherStart(s, |before|, "true");
    OtherStart(s, |before|, "false");
  }

  lemma FieldRead(before: string, name: string, v: Value, after: string)
    requires Fits(v) && after != "" && (after[0] == ',' || after[0] == '}')
    ensures var s := before + FieldText(name, v) + after;
            FieldAt(s, |before|) == Got((name, v), |s| - |after|) && TakeAt(s, |before|, '}', true) == None
  {
    hide StringAt, ValueAt, Quoted, ValueText;
    var s := before + FieldText(name, v) + after;
    var rest := ":" + ValueText(v) + after;
    assert s == before + "\"" + Quoted(name) + rest;
    QuotedValue(name, before, rest, true);
    var colon := |s| - |rest|;
    assert s[|before|] == '"' && s[colon] == ':';
    var front := before + "\"" + Quoted(name) + ":";
    assert s == front + ValueText(v) + after;
    ValueRead(front, v, after);
    assert TakeAt(s, colon, ':', true) == Some(colon + 1);
  }

  lemma {:induction false} FieldsRead(before: string, fields: seq<(string, Value)>, seen: Fields)
    requires fields != [] && Fresh(fields, seen)
    ensures var s := before + FieldsText(fields);
            FieldsFrom(s, |before|, seen) == Got(AddAll(seen, fields), |s|) && TakeAt(s, |before|, '}', true) == None
    decreases |fields|
  {
    hide FieldAt, FieldText, TakeAt;
    var s := before + FieldsText(fields);
    var (name, v) := fields[0];
    var seen' := seen[name := v];
    var front := before + FieldText(name, v);
    if |fields| == 1 {
      assert s == front + "}";
      FieldRead(before, name, v, "}");
      Next(s, |front|, '}');
    } else {
      var after := "," + FieldsText(fields[1..]);
      assert s == front + after;
      FieldRead(before, name, v, after);
      Next(s, |front|, ',');
      assert s == front + "," + FieldsText(fields[1..]);
      FieldsRead(front + ",", fields[1..], seen');
    }
  }

  lemma Next(s: string, at: nat, c: char)
    requires at < |s| && s[at] == c && !Blank(c, true)
    ensures forall d :: TakeAt(s, at, d, true) == if d == c then Some(at + 1) else None
  {
  }

  /** Any object written with quoted strings, flags and 64-bit numbers is read back as it was. */
  lemma ObjectReadsBack(fields: seq<(string, Value)>)
    requires fields != [] && Fresh(fields, map[])
    ensures var s := "{" + FieldsText(fields);
            Whole(s, ObjectAt(s), true) == Some(AddAll(map[], fields))
  {
    hide FieldsFrom;
    FieldsRead("{", fields, map[]);
    Next("{" + FieldsText(fields), 0, '{');
  }

  // ----- the two bodies -----

  function Label(name: string): string { "\"" + name + "\":" }

  function SetBody(key: string, value: string, condition: KV.Condition, ttl: nat): string {
    "{" + Label("key") + ("\"" + Quoted(key)) + "," + Label("value") + ("\"" + Quoted(value))
    + TtlText(ttl) + ConditionText(condition) + "}"
  }

  function TtlText(ttl: nat): string { if ttl > 0 then "," + Label("ttl_ms") + Decimal.Text(ttl) else "" }

  function ConditionText(condition: KV.Condition): string {
    match condition
    case IfAbsent => "," + Label("if_not_exists") + "true"
    case IfPresent => "," + Label("if_exists") + "true"
    case Always => ""
  }

  function DelBody(key: string): string { "{" + Label("key") + ("\"" + Quoted(key)) + "}" }

  function TtlFields(ttl: nat): seq<(string, Value)> { if ttl > 0 then [("ttl_ms", Number(ttl))] else [] }

  function ConditionFields(condition: KV.Condition): seq<(string, Value)> {
    match condition
    case IfAbsent => [("if_not_exists", Flag(true))]
    case IfPresent => [("if_exists", Flag(true))]
    case Always => []
  }

  function SetFields(key: string, value: string, condition: KV.Condition, ttl: nat): seq<(string, Value)> {
    [("key", Text(key))] + ([("value", Text(value))] + (TtlFields(ttl) + ConditionFields(condition)))
  }

  predicate Plain(c: char) { c >= ' ' && c != '"' && c != '\\' }

  predicate PlainName(name: string) { forall i :: 0 <= i < |name| ==> Plain(name[i]) }

  lemma {:induction false} PlainIsItself(text: string)
    requires PlainName(text)
    ensures Quoted(text) == text + "\""
  {
    if text != "" {
      PlainIsItself(text[1..]);
      assert [text[0]] + text[1..] == text;
    }
  }

  lemma Names()
    ensures PlainName("key") && PlainName("value") && PlainName("ttl_ms")
    ensures PlainName("if_not_exists") && PlainName("if_exists")
  {
  }

  lemma FieldTextIs(name: string, v: Value)
    requires PlainName(name)
    ensures FieldText(name, v) == Label(name) + ValueText(v)
  {
    hide PlainName, ValueText, Quoted;
    PlainIsItself(name);
  }

  function TailText(fields: seq<(string, Value)>): string {
    if fields == [] then "}" else "," + FieldsText(fields)
  }

  lemma OneMore(name: string, v: Value, rest: seq<(string, Value)>)
    requires PlainName(name)
    ensures var fields := [(name, v)] + rest;
            && FieldsText(fields) == Label(name) + ValueText(v) + TailText(rest)
            && TailText(fields) == "," + Label(name) + ValueText(v) + TailText(rest)
  {
    hide PlainName, Label, ValueText;
    var fields := [(name, v)] + rest;
    assert fields[1..] == rest;
    FieldTextIs(name, v);
    RegroupFour(",", Label(name), ValueText(v), TailText(rest));
  }

  lemma RegroupFour(a: string, b: string, c: string, d: string)
    ensures a + (b + c + d) == a + b + c + d
  {
  }

  lemma FlagWritten(name: string)
    requires PlainName(name)
    ensures TailText([(name, Flag(true))]) == "," + Label(name) + "true" + "}"
  {
    hide PlainName, Label, FieldsText;
    OneMore(name, Flag(true), []);
    assert [(name, Flag(true))] + [] == [(name, Flag(true))];
  }

  lemma ConditionWritten(condition: KV.Condition)
    ensures TailText(ConditionFields(condition)) == ConditionText(condition) + "}"
  {
    hide PlainName, Label, FieldsText;
    Names();
    match condition {
      case IfAbsent => FlagWritten("if_not_exists");
      case IfPresent => FlagWritten("if_exists");
      case Always =>
    }
  }

  lemma TtlWritten(ttl: nat, rest: seq<(string, Value)>)
    ensures TailText(TtlFields(ttl) + rest) == TtlText(ttl) + TailText(rest)
  {
    hide PlainName, Label, Decimal.Text, FieldsText;
    Names();
    if ttl > 0 {
      OneMore("ttl_ms", Number(ttl), rest);
    } else {
      assert TtlFields(ttl) + rest == rest;
    }
  }

  lemma SetBodyIsObject(key: string, value: string, condition: KV.Condition, ttl: nat)
    ensures SetBody(key, value, condition, ttl) == "{" + FieldsText(SetFields(key, value, condition, ttl))
  {
    hide PlainName, Label, Quoted, TailText, FieldsText, ConditionFields, TtlFields, ConditionText, TtlText;
    Names();
    var last := ConditionFields(condition);
    var tail := TtlFields(ttl) + last;
    ConditionWritten(condition);
    TtlWritten(ttl, last);
    OneMore("value", Text(value), tail);
    OneMore("key", Text(key), [("value", Text(value))] + tail);
  }

  lemma SetFieldsFresh(key: string, value: string, condition: KV.Condition, ttl: nat)
    requires ttl < U64
    ensures Fresh(SetFields(key, value, condition, ttl), map[])
  {
  }

  lemma {:induction false} AddAllSplit(seen: Fields, a: seq<(string, Value)>, b: seq<(string, Value)>)
    ensures AddAll(seen, a + b) == AddAll(AddAll(seen, a), b)
    decreases |a|
  {
    if a == [] {
      assert a + b == b;
    } else {
      assert (a + b)[1..] == a[1..] + b;
      AddAllSplit(seen[a[0].0 := a[0].1], a[1..], b);
    }
  }

  function SetMap(key: string, value: string, condition: KV.Condition, ttl: nat): Fields {
    var m: Fields := map["key" := Text(key), "value" := Text(value)];
    var m' := if ttl > 0 then m["ttl_ms" := Number(ttl)] else m;
    match condition
    case IfAbsent => m'["if_not_exists" := Flag(true)]
    case IfPresent => m'["if_exists" := Flag(true)]
    case Always => m'
  }

  lemma SetFieldsMap(key: string, value: string, condition: KV.Condition, ttl: nat)
    ensures AddAll(map[], SetFields(key, value, condition, ttl)) == SetMap(key, value, condition, ttl)
  {
    var a, b := TtlFields(ttl), ConditionFields(condition);
    AddAllSplit(map[], [("key", Text(key))], [("value", Text(value))] + (a + b));
    AddAllSplit(map["key" := Text(key)], [("value", Text(value))], a + b);
    AddAllSplit(map["key" := Text(key), "value" := Text(value)], a, b);
  }

  lemma SetOfMap(key: string, value: string, condition: KV.Condition, ttl: nat)
    ensures SetOf(SetMap(key, value, condition, ttl))
            == if key == "" then None else Some(Set(key, value, condition, ttl))
  {
  }

  /** What is logged for a binary SET says exactly what was done, unless the key is empty: such a
      line is refused when it is replayed. */
  lemma SetBodyMeans(key: string, value: string, condition: KV.Condition, ttl: nat)
    requires ttl < U64
    ensures var b := SetBody(key, value, condition, ttl);
            var fields := Whole(b, ObjectAt(b), true);
            fields.Some? && SetOf(fields.value) == if key == "" then None else Some(Set(key, value, condition, ttl))
  {
    hide *;
    SetBodyIsObject(key, value, condition, ttl);
    SetFieldsFresh(key, value, condition, ttl);
    SetFieldsMap(key, value, condition, ttl);
    SetOfMap(key, value, condition, ttl);
    SomeFields(key, value, condition, ttl);
    ObjectReadsBack(SetFields(key, value, condition, ttl));
  }

  lemma SomeFields(key: string, value: string, condition: KV.Condition, ttl: nat)
    ensures SetFields(key, value, condition, ttl) != []
  {
  }

  /** What is logged for a binary DEL names exactly the key, whichever it is. */
  lemma DelBodyMeans(key: string)
    ensures var b := DelBody(key); Whole(b, KeyListAt(b), false) == Some([key])
  {
    hide StringAt, PlainName, Quoted;
    var b := DelBody(key);
    Names();
    PlainIsItself("key");
    var front := "{" + Label("key");
    assert b == "{" + "\"" + Quoted("key") + (":\"" + Quoted(key) + "}");
    QuotedValue("key", "{", ":\"" + Quoted(key) + "}", false);
    assert b == front + "\"" + Quoted(key) + "}";
    QuotedValue(key, front, "}", false);
    assert b[0] == '{' && b[1] == '"' && b[|front| - 1] == ':' && b[|b| - 1] == '}';
  }

  lemma LabelPrintable(name: string)
    requires PlainName(name)
    ensures Printable(Label(name))
  {
  }

  lemma PiecesPrintable(key: string, condition: KV.Condition, ttl: nat)
    ensures Printable("\"" + Quoted(key)) && Printable(TtlText(ttl)) && Printable(ConditionText(condition))
  {
    hide Quoted, Decimal.Text, PlainName, Label;
    Names();
    NoControlCharacters(key);
    LabelPrintable("ttl_ms");
    LabelPrintable("if_exists");
    LabelPrintable("if_not_exists");
  }

  lemma Joined(a: string, b: string)
    requires Printable(a) && Printable(b)
    ensures Printable(a + b)
  {
  }

  /** Neither body can break a line of the log. */
  lemma BodiesPrintable(key: string, value: string, condition: KV.Condition, ttl: nat)
    ensures Printable(SetBody(key, value, condition, ttl)) && Printable(DelBody(key))
  {
    hide Quoted, PlainName, Label, TtlText, ConditionText;
    Names();
    LabelPrintable("key");
    LabelPrintable("value");
    PiecesPrintable(key, condition, ttl);
    PiecesPrintable(value, condition, ttl);
    var a := "{" + Label("key") + ("\"" + Quoted(key));
    assert Printable(a);
    assert Printable(a + "}");
    var b := a + "," + Label("value");
    assert Printable(b);
    var c := b + ("\"" + Quoted(value));
    Joined(b, "\"" + Quoted(value));
    Joined(c, TtlText(ttl));
    Joined(c + TtlText(ttl), ConditionText(condition));
    Joined(c + TtlText(ttl) + ConditionText(condition), "}");
  }
}
