/** The JSON bodies of SET, GET and DEL requests and the commands they stand for. */
module Bodies {
  import opened Options
  import opened Sequences
  import opened Decimal
  import opened Json
  import opened JsonStrings
  import KV = KeyValue

  datatype Value = Text(text: string) | Flag(yes: bool) | Number(n: nat)

  type Fields = map<string, Value>

  datatype Command =
    | Set(key: string, value: string, condition: KV.Condition, ttl: nat)
    | Get(key: string)
    | Del(keys: seq<string>)

  // ----- the body of SET and GET: an object of unique fields -----

  function ValueAt(s: string, at: nat): (r: Reading<Value>)
    requires at <= |s|
    ensures r.Got? ==> at < r.next <= |s|
  {
    if at == |s| then Failed
    else if s[at] == '"' then
      var text := StringAt(s, at, true);
      if text.Failed? then Failed else Got(Text(text.value), text.next)
    else if StartsWith(s, at, "true") then Got(Flag(true), at + 4)
    else if StartsWith(s, at, "false") then Got(Flag(false), at + 5)
    else if IsDigit(s[at]) then
      var n := NumberAt(s, at, true);
      if n.Failed? then Failed else Got(Number(n.value), n.next)
    else Failed
  }

  /** One name with its value, up to where the value ends. */
  function FieldAt(s: string, at: nat): (r: Reading<(string, Value)>)
    requires at <= |s|
    ensures r.Got? ==> at < r.next <= |s|
  {
    var name := StringAt(s, at, true);
    if name.Failed? then Failed
    else
      var colon := TakeAt(s, name.next, ':', true);
      if colon.None? then Failed
      else
        var value := ValueAt(s, SkipFrom(s, colon.value, true));
        if value.Failed? then Failed else Got((name.value, value.value), value.next)
  }

  /** The fields from some name on, up to and with the closing brace, added to those seen. */
  function FieldsFrom(s: string, at: nat, seen: Fields): (r: Reading<Fields>)
    requires at <= |s|
    ensures r.Got? ==> at < r.next <= |s|
    decreases |s| - at
  {
    var field := FieldAt(s, at);
    if field.Failed? || field.value.0 in seen then Failed
    else
      var seen' := seen[field.value.0 := field.value.1];
      var close := TakeAt(s, field.next, '}', true);
      if close.Some? then Got(seen', close.value)
      else
        var comma := TakeAt(s, field.next, ',', true);
        if comma.None? then Failed else FieldsFrom(s, comma.value, seen')
  }

  function ObjectAt(s: string): (r: Reading<Fields>)
    ensures r.Got? ==> 0 < r.next <= |s|
  {
    var open := TakeAt(s, 0, '{', true);
    if open.None? then Failed
    else
      var close := TakeAt(s, open.value, '}', true);
      if close.Some? then Got(map[], close.value) else FieldsFrom(s, open.value, map[])
  }

  /** Only blanks may follow. */
  function Whole<T>(s: string, r: Reading<T>, strict: bool): Option<T>
    requires r.Got? ==> r.next <= |s|
  {
    if r.Got? && SkipFrom(s, r.next, strict) == |s| then Some(r.value) else None
  }

  method ParseStringBody(s: string) returns (r: Option<Fields>)
    ensures r == Whole(s, ObjectAt(s), true)
  {
    hide TakeAt, FieldAt;
    var reader := new Reader(s, true);
    var ok := reader.Take('{');
    if !ok { return None; }
    ghost var start := reader.pos;
    var seen: Fields := map[];
    ok := reader.Take('}');
    if ok {
      ok := reader.End();
      return if ok then Some(seen) else None;
    }
    FieldsAfterSkip(s, start, seen);
    ghost var all := FieldsFrom(s, reader.pos, seen);
    while true
      invariant reader.Valid() && reader.input == s && reader.strict && FieldsFrom(s, reader.pos, seen) == all
      decreases |s| - reader.pos
    {
      var field := ReadField(reader);
      if field.None? || field.value.0 in seen { return None; }
      seen := seen[field.value.0 := field.value.1];
      ghost var mid := reader.pos;
      ok := reader.Take('}');
      if ok {
        ok := reader.End();
        return if ok then Some(seen) else None;
      }
      TakeAfterSkip(s, mid, true);
      ok := reader.Take(',');
      if !ok { return None; }
    }
  }

  method ReadField(reader: Reader) returns (r: Option<(string, Value)>)
    requires reader.Valid() && reader.strict
    modifies reader
    ensures reader.Valid() && Agrees(r, reader.pos, FieldAt(reader.input, old(reader.pos)))
  {
    hide ValueAt, StringAt, TakeAt;
    var name := reader.String();
    if name.None? { return None; }
    var ok := reader.Take(':');
    if !ok { return None; }
    reader.Skip();
    var value := ReadValue(reader);
    if value.None? { return None; }
    return Some((name.value, value.value));
  }

  method ReadValue(reader: Reader) returns (r: Option<Value>)
    requires reader.Valid() && reader.strict
    modifies reader
    ensures reader.Valid() && Agrees(r, reader.pos, ValueAt(reader.input, old(reader.pos)))
  {
    hide StringAt, NumberAt;
    if reader.pos == |reader.input| { return None; }
    if reader.input[reader.pos] == '"' {
      var text := reader.String();
      return if text.None? then None else Some(Text(text.value));
    }
    var found := reader.Literal("true");
    if found { return Some(Flag(true)); }
    found := reader.Literal("false");
    if found { return Some(Flag(false)); }
    if !IsDigit(reader.input[reader.pos]) { return None; }
    var n := reader.Number();
    return if n.None? then None else Some(Number(n.value));
  }

  lemma FieldsAfterSkip(s: string, at: nat, seen: Fields)
    requires at <= |s|
    ensures FieldsFrom(s, SkipFrom(s, at, true), seen) == FieldsFrom(s, at, seen)
  {
    hide StringAt, ValueAt, TakeAt, SkipFrom;
    ItemsAfterSkip(s, at, true);
    assert FieldAt(s, SkipFrom(s, at, true)) == FieldAt(s, at);
  }

  const SET_FIELDS := {"key", "value", "if_exists", "if_not_exists", "ttl_ms"}

  predicate BadFlag(fields: Fields, name: string) { name in fields && !fields[name].Flag? }

  predicate Raised(fields: Fields, name: string) { name in fields && fields[name] == Flag(true) }

  predicate HasText(fields: Fields, name: string) { name in fields && fields[name].Text? }

  /** What a SET asks for: no unknown field, a positive time-to-live if any, a key that is not empty,
      and not both conditions. */
  function SetOf(fields: Fields): (r: Option<Command>)
    ensures r.Some? ==> r.value.Set? && r.value.key != ""
  {
    if !(fields.Keys <= SET_FIELDS) then None
    else if "ttl_ms" in fields && (!fields["ttl_ms"].Number? || fields["ttl_ms"].n == 0) then None
    else if !HasText(fields, "key") || !HasText(fields, "value") || fields["key"].text == "" then None
    else if BadFlag(fields, "if_not_exists") || BadFlag(fields, "if_exists") then None
    else if Raised(fields, "if_not_exists") && Raised(fields, "if_exists") then None
    else Some(Set(fields["key"].text, fields["value"].text,
                  if Raised(fields, "if_not_exists") then KV.IfAbsent
                  else if Raised(fields, "if_exists") then KV.IfPresent else KV.Always,
                  if "ttl_ms" in fields then fields["ttl_ms"].n else 0))
  }

  method ReadSet(fields: Fields) returns (r: Option<Command>)
    ensures r == SetOf(fields)
  {
    var ttl := 0;
    var names := fields.Keys;
    while names != {}
      invariant names <= fields.Keys && fields.Keys - names <= SET_FIELDS
      invariant "ttl_ms" in fields.Keys - names ==> fields["ttl_ms"] == Number(ttl) && ttl > 0
      invariant "ttl_ms" !in fields.Keys - names ==> ttl == 0
      decreases names
    {
      var name :| name in names;
      if name !in SET_FIELDS { return None; }
      if name == "ttl_ms" {
        if !fields[name].Number? || fields[name].n == 0 { return None; }
        ttl := fields[name].n;
      }
      names := names - {name};
    }
    if !HasText(fields, "key") || !HasText(fields, "value") || fields["key"].text == "" { return None; }
    if BadFlag(fields, "if_not_exists") || BadFlag(fields, "if_exists") { return None; }
    var nx, xx := Raised(fields, "if_not_exists"), Raised(fields, "if_exists");
    if nx && xx { return None; }
    return Some(Set(fields["key"].text, fields["value"].text,
                    if nx then KV.IfAbsent else if xx then KV.IfPresent else KV.Always, ttl));
  }

  function GetOf(fields: Fields): (r: Option<Command>)
    ensures r.Some? ==> r.value.Get?
  {
    if !HasText(fields, "key") || |fields| != 1 || fields["key"].text == "" then None
    else Some(Get(fields["key"].text))
  }

  // ----- the body of DEL: any number of key and keys fields -----

  function KeysAt(s: string, at: nat): (r: Reading<seq<string>>)
    requires at <= |s|
    ensures r.Got? ==> at < r.next <= |s|
  {
    var name := StringAt(s, at, false);
    if name.Failed? then Failed
    else
      var colon := TakeAt(s, name.next, ':', false);
      if colon.None? then Failed
      else if name.value == "key" then
        var key := StringAt(s, colon.value, false);
        if key.Failed? then Failed else Got([key.value], key.next)
      else if name.value == "keys" then ArrayAt(s, colon.value, false)
      else Failed
  }

  function KeysFrom(s: string, at: nat): (r: Reading<seq<string>>)
    requires at <= |s|
    ensures r.Got? ==> at < r.next <= |s|
    decreases |s| - at
  {
    var keys := KeysAt(s, at);
    if keys.Failed? then Failed
    else
      var close := TakeAt(s, keys.next, '}', false);
      if close.Some? then Got(keys.value, close.value)
      else
        var comma := TakeAt(s, keys.next, ',', false);
        if comma.None? then Failed else After(keys.value, KeysFrom(s, comma.value))
  }

  function KeyListAt(s: string): (r: Reading<seq<string>>)
    ensures r.Got? ==> 0 < r.next <= |s|
  {
    var open := TakeAt(s, 0, '{', false);
    if open.None? then Failed
    else
      var close := TakeAt(s, open.value, '}', false);
      if close.Some? then Got([], close.value) else KeysFrom(s, open.value)
  }

  method ReadKeys(s: string) returns (r: Option<seq<string>>)
    ensures r == Whole(s, KeyListAt(s), false)
  {
    hide TakeAt, KeysAt;
    var reader := new Reader(s, false);
    var ok := reader.Take('{');
    if !ok { return None; }
    ghost var start := reader.pos;
    var keys: seq<string> := [];
    ok := reader.Take('}');
    if !ok {
      KeysAfterSkip(s, start);
      ghost var all := KeysFrom(s, reader.pos);
      assert all == After([], all) by { if all.Got? { assert [] + all.value == all.value; } }
      while true
        invariant reader.Valid() && reader.input == s && !reader.strict && all == After(keys, KeysFrom(s, reader.pos))
        decreases |s| - reader.pos
      {
        var more := ReadSomeKeys(reader);
        if more.None? { return None; }
        ghost var mid := reader.pos;
        ok := reader.Take('}');
        if ok {
          keys := keys + more.value;
          break;
        }
        TakeAfterSkip(s, mid, false);
        ok := reader.Take(',');
        if !ok { return None; }
        AfterTwice(keys, more.value, KeysFrom(s, reader.pos));
        keys := keys + more.value;
      }
    }
    ok := reader.End();
    return if ok then Some(keys) else None;
  }

  method ReadSomeKeys(reader: Reader) returns (r: Option<seq<string>>)
    requires reader.Valid() && !reader.strict
    modifies reader
    ensures reader.Valid() && Agrees(r, reader.pos, KeysAt(reader.input, old(reader.pos)))
  {
    hide StringAt, ArrayAt, TakeAt;
    var name := reader.String();
    if name.None? { return None; }
    var ok := reader.Take(':');
    if !ok { return None; }
    if name.value == "key" {
      var key := reader.String();
      return if key.None? then None else Some([key.value]);
    }
    if name.value != "keys" { return None; }
    r := reader.StringArray();
  }

  lemma KeysAfterSkip(s: string, at: nat)
    requires at <= |s|
    ensures KeysFrom(s, SkipFrom(s, at, false)) == KeysFrom(s, at)
  {
    hide StringAt, ArrayAt, TakeAt, SkipFrom;
    ItemsAfterSkip(s, at, false);
    assert KeysAt(s, SkipFrom(s, at, false)) == KeysAt(s, at);
  }

  // ----- a body cut short -----

  lemma ValueStays(p: string, x: string, at: nat)
    requires at <= |p| && ValueAt(p, at).Got? && ValueAt(p, at).next < |p|
    ensures ValueAt(p + x, at) == ValueAt(p, at)
  {
    hide StringAt, NumberAt;
    if p[at] == '"' {
      StringStays(p, x, at, true);
    } else if StartsWith(p, at, "true") {
      SliceOfFront(p, x, at, at + 4);
    } else if StartsWith(p, at, "false") {
      assert p[at] == p[at..at + 5][0] == 'f';
      SliceOfFront(p, x, at, at + 5);
    } else {
      NumberStays(p, x, at, true);
    }
  }

  lemma FieldStays(p: string, x: string, at: nat)
    requires at <= |p| && FieldAt(p, at).Got? && FieldAt(p, at).next < |p|
    ensures FieldAt(p + x, at) == FieldAt(p, at)
  {
    hide StringAt, ValueAt, TakeAt;
    StringStays(p, x, at, true);
    var name := StringAt(p, at, true);
    OpenStays(p, x, name.next, ':', true);
    var colon := TakeAt(p, name.next, ':', true).value;
    SkipStays(p, x, colon, true);
    ValueStays(p, x, SkipFrom(p, colon, true));
  }

  lemma Follows(s: string, at: nat, c: char, strict: bool)
    requires at <= |s| && TakeAt(s, at, c, strict).Some?
    ensures at < |s| && SkipFrom(s, at, strict) < |s|
  {
  }

  lemma {:induction false} FieldsStay(p: string, x: string, at: nat, seen: Fields)
    requires at <= |p| && FieldsFrom(p, at, seen).Got?
    ensures FieldsFrom(p + x, at, seen) == FieldsFrom(p, at, seen)
    decreases |p| - at
  {
    hide FieldAt, TakeAt;
    var field := FieldAt(p, at);
    var seen' := seen[field.value.0 := field.value.1];
    if TakeAt(p, field.next, '}', true).Some? {
      Follows(p, field.next, '}', true);
      TakeStays(p, x, field.next, true);
      FieldStays(p, x, at);
    } else {
      Follows(p, field.next, ',', true);
      TakeStays(p, x, field.next, true);
      FieldStays(p, x, at);
      FieldsStay(p, x, TakeAt(p, field.next, ',', true).value, seen');
    }
  }

  lemma FieldsStart(s: string, at: nat, seen: Fields)
    requires at <= |s| && FieldsFrom(s, at, seen).Got?
    ensures SkipFrom(s, at, true) < |s|
  {
    hide CharsFrom, ValueAt;
  }

  lemma ObjectStays(p: string, x: string)
    requires ObjectAt(p).Got?
    ensures ObjectAt(p + x) == ObjectAt(p)
  {
    hide TakeAt, FieldsFrom;
    OpenStays(p, x, 0, '{', true);
    var open := TakeAt(p, 0, '{', true).value;
    if TakeAt(p, open, '}', true).Some? {
      OpenStays(p, x, open, '}', true);
    } else {
      FieldsStart(p, open, map[]);
      TakeStays(p, x, open, true);
      FieldsStay(p, x, open, map[]);
    }
  }

  lemma KeysStay(p: string, x: string, at: nat)
    requires at <= |p| && KeysAt(p, at).Got?
    ensures KeysAt(p + x, at) == KeysAt(p, at)
  {
    hide StringAt, ArrayAt, TakeAt;
    StringStays(p, x, at, false);
    var name := StringAt(p, at, false);
    OpenStays(p, x, name.next, ':', false);
    var colon := TakeAt(p, name.next, ':', false).value;
    if name.value == "key" {
      StringStays(p, x, colon, false);
    } else {
      ArrayStays(p, x, colon, false);
    }
  }

  lemma {:induction false} AllKeysStay(p: string, x: string, at: nat)
    requires at <= |p| && KeysFrom(p, at).Got?
    ensures KeysFrom(p + x, at) == KeysFrom(p, at)
    decreases |p| - at
  {
    hide KeysAt, TakeAt;
    KeysStay(p, x, at);
    var keys := KeysAt(p, at);
    if TakeAt(p, keys.next, '}', false).Some? {
      Follows(p, keys.next, '}', false);
      TakeStays(p, x, keys.next, false);
    } else {
      Follows(p, keys.next, ',', false);
      TakeStays(p, x, keys.next, false);
      AllKeysStay(p, x, TakeAt(p, keys.next, ',', false).value);
    }
  }

  lemma KeysStart(s: string, at: nat)
    requires at <= |s| && KeysFrom(s, at).Got?
    ensures SkipFrom(s, at, false) < |s|
  {
    hide CharsFrom, ArrayAt;
  }

  lemma KeyListStays(p: string, x: string)
    requires KeyListAt(p).Got?
    ensures KeyListAt(p + x) == KeyListAt(p)
  {
    hide TakeAt, KeysFrom;
    OpenStays(p, x, 0, '{', false);
    var open := TakeAt(p, 0, '{', false).value;
    if TakeAt(p, open, '}', false).Some? {
      OpenStays(p, x, open, '}', false);
    } else {
      KeysStart(p, open);
      TakeStays(p, x, open, false);
      AllKeysStay(p, x, open);
    }
  }

  /** What is left of a body after a cut is refused or means what the whole body meant. */
  lemma CutBody(p: string, x: string)
    ensures Whole(p, ObjectAt(p), true).Some? && Whole(p + x, ObjectAt(p + x), true).Some? ==>
              Whole(p, ObjectAt(p), true) == Whole(p + x, ObjectAt(p + x), true)
    ensures Whole(p, KeyListAt(p), false).Some? && Whole(p + x, KeyListAt(p + x), false).Some? ==>
              Whole(p, KeyListAt(p), false) == Whole(p + x, KeyListAt(p + x), false)
  {
    hide ObjectAt, KeyListAt;
    if ObjectAt(p).Got? { ObjectStays(p, x); }
    if KeyListAt(p).Got? { KeyListStays(p, x); }
  }
}
