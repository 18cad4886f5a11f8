/** Line breaks inside request bodies: where an accepted body can have them, and what the lines they
    make of it can mean to the loader. */
module LineBreaks {
  import opened Options
  import opened Decimal
  import opened Json
  import opened Bodies

  /** The first letters of the operations that write. */
  predicate Starter(c: char) { c == 'S' || c == 's' || c == 'D' || c == 'd' }

  /** What follows the closing quote of a string in a body. */
  predicate Follower(c: char) { IsSpace(c) || c == ',' || c == ':' || c == ']' || c == '}' }

  /** Inside a string of the body, which ends and is followed as strings are. */
  ghost predicate InText(s: string, at: nat) {
    && at <= |s| && CharsFrom(s, at, false).Got?
    && var end := CharsFrom(s, at, false).next;
       end < |s| && Follower(s[end])
  }

  /** A place where a new line starts harmlessly: at the end, before no such letter, or in a string. */
  ghost predicate Harmless(s: string, at: nat) { at >= |s| || !Starter(s[at]) || InText(s, at) }

  ghost predicate Calm(s: string, from: nat, to: nat) {
    forall i :: from <= i < to && i < |s| && s[i] == '\n' ==> Harmless(s, i + 1)
  }

  // ----- an accepted body is calm -----

  lemma {:induction false} CalmBlanks(s: string, at: nat, strict: bool)
    requires at <= |s|
    requires var p := SkipFrom(s, at, strict); p == |s| || !Starter(s[p])
    ensures Calm(s, at, SkipFrom(s, at, strict))
    decreases |s| - at
  {
    if at < |s| && Blank(s[at], strict) {
      CalmBlanks(s, at + 1, strict);
    }
  }

  lemma CalmTake(s: string, at: nat, c: char, strict: bool)
    requires at <= |s| && TakeAt(s, at, c, strict).Some? && !Starter(c) && c != '\n'
    ensures Calm(s, at, TakeAt(s, at, c, strict).value)
  {
    hide Harmless;
    CalmBlanks(s, at, strict);
  }

  lemma Joined(s: string, a: nat, b: nat, c: nat)
    requires Calm(s, a, b) && Calm(s, b, c)
    ensures Calm(s, a, c)
  {
    hide Harmless;
  }

  predicate NoBreak(s: string, from: nat, to: nat) {
    from <= to <= |s| && forall i :: from <= i < to ==> s[i] != '\n'
  }

  lemma HexNoBreak(s: string, at: nat)
    requires HexAt(s, at).Got?
    ensures NoBreak(s, at, at + 4)
  {
    forall i | at <= i < at + 4 ensures s[i] != '\n' { assert IsHex(s[at..at + 4][i - at]); }
  }

  lemma EscapeNoBreak(s: string, at: nat, strict: bool)
    requires EscapeAt(s, at, strict).Got?
    ensures NoBreak(s, at, EscapeAt(s, at, strict).next)
  {
    hide Utf8, HexNumber;
    if Unescaped(s[at]).None? {
      HexNoBreak(s, at + 1);
      var first := HexAt(s, at + 1);
      if IsHigh(first.value) {
        HexNoBreak(s, first.next + 2);
        assert s[first.next] == s[first.next..first.next + 2][0]
          && s[first.next + 1] == s[first.next..first.next + 2][1];
      }
    }
  }

  /** After a line break in a string the rest of the string is still read. */
  lemma {:induction false} CalmChars(s: string, at: nat, strict: bool)
    requires at <= |s| && CharsFrom(s, at, strict).Got?
    requires var end := CharsFrom(s, at, strict).next; end < |s| && Follower(s[end])
    ensures Calm(s, at, CharsFrom(s, at, strict).next)
    decreases |s| - at
  {
    hide EscapeAt;
    if s[at] != '"' {
      if s[at] != '\\' {
        CalmChars(s, at + 1, strict);
      } else {
        EscapeNoBreak(s, at + 1, strict);
        CalmChars(s, EscapeAt(s, at + 1, strict).next, strict);
      }
    }
  }

  /** A string that some character is taken after. */
  lemma CalmString(s: string, at: nat, c: char, strict: bool)
    requires at <= |s| && StringAt(s, at, strict).Got? && TakeAt(s, StringAt(s, at, strict).next, c, strict).Some?
    requires c == ',' || c == ':' || c == ']' || c == '}'
    ensures Calm(s, at, TakeAt(s, StringAt(s, at, strict).next, c, strict).value)
  {
    hide CharsFrom, Calm;
    var open := TakeAt(s, at, '"', strict).value;
    var end := StringAt(s, at, strict).next;
    Followed(s, end, c, strict);
    CalmTake(s, at, '"', strict);
    CalmChars(s, open, strict);
    CalmTake(s, end, c, strict);
    Joined(s, at, open, end);
    Joined(s, at, end, TakeAt(s, end, c, strict).value);
  }

  lemma Followed(s: string, at: nat, c: char, strict: bool)
    requires at <= |s| && TakeAt(s, at, c, strict).Some?
    requires c == ',' || c == ':' || c == ']' || c == '}'
    ensures at < |s| && Follower(s[at])
  {
  }

  lemma CalmValue(s: string, at: nat, c: char)
    requires at <= |s| && ValueAt(s, at).Got? && TakeAt(s, ValueAt(s, at).next, c, true).Some? && (c == ',' || c == '}')
    ensures Calm(s, at, TakeAt(s, ValueAt(s, at).next, c, true).value) && !Starter(s[at])
  {
    hide StringAt, NumberAt, Calm, TakeAt;
    var end := ValueAt(s, at).next;
    if s[at] == '"' {
      CalmString(s, at, c, true);
    } else {
      Plain(s, at);
      CalmTake(s, end, c, true);
      Unbroken(s, at, end);
      Joined(s, at, end, TakeAt(s, end, c, true).value);
    }
  }

  lemma Plain(s: string, at: nat)
    requires at <= |s| && ValueAt(s, at).Got? && s[at] != '"'
    ensures NoBreak(s, at, ValueAt(s, at).next) && !Starter(s[at])
  {
    hide StringAt, Wrapped;
    if StartsWith(s, at, "true") {
      assert forall i :: at <= i < at + 4 ==> s[i] == s[at..at + 4][i - at];
    } else if StartsWith(s, at, "false") {
      assert forall i :: at <= i < at + 5 ==> s[i] == s[at..at + 5][i - at];
    } else {
      var end := DigitsEnd(s, at);
      assert forall i :: at <= i < end ==> s[i] == s[at..end][i - at];
    }
  }

  lemma Unbroken(s: string, from: nat, to: nat)
    requires NoBreak(s, from, to)
    ensures Calm(s, from, to)
  {
  }

  lemma CalmField(s: string, at: nat, c: char)
    requires at <= |s| && FieldAt(s, at).Got? && TakeAt(s, FieldAt(s, at).next, c, true).Some? && (c == ',' || c == '}')
    ensures Calm(s, at, TakeAt(s, FieldAt(s, at).next, c, true).value)
  {
    hide StringAt, ValueAt, TakeAt, Calm;
    var name := StringAt(s, at, true);
    var colon := TakeAt(s, name.next, ':', true).value;
    var start := SkipFrom(s, colon, true);
    CalmString(s, at, ':', true);
    CalmValue(s, start, c);
    CalmBlanks(s, colon, true);
    Joined(s, at, colon, start);
    Joined(s, at, start, TakeAt(s, FieldAt(s, at).next, c, true).value);
  }

  lemma {:induction false} CalmFields(s: string, at: nat, seen: Fields)
    requires at <= |s| && FieldsFrom(s, at, seen).Got?
    ensures Calm(s, at, FieldsFrom(s, at, seen).next)
    decreases |s| - at
  {
    hide FieldAt, TakeAt, Calm;
    var field := FieldAt(s, at);
    if TakeAt(s, field.next, '}', true).Some? {
      CalmField(s, at, '}');
    } else {
      var comma := TakeAt(s, field.next, ',', true).value;
      var seen' := seen[field.value.0 := field.value.1];
      CalmField(s, at, ',');
      CalmFields(s, comma, seen');
      Joined(s, at, comma, FieldsFrom(s, comma, seen').next);
    }
  }

  lemma CalmObject(s: string)
    requires Whole(s, ObjectAt(s), true).Some?
    ensures Calm(s, 0, |s|)
  {
    hide FieldsFrom, TakeAt, Calm;
    var end := ObjectAt(s).next;
    var open := TakeAt(s, 0, '{', true).value;
    CalmTake(s, 0, '{', true);
    if TakeAt(s, open, '}', true).Some? { CalmTake(s, open, '}', true); } else { CalmFields(s, open, map[]); }
    Joined(s, 0, open, end);
    CalmBlanks(s, end, true);
    Joined(s, 0, end, |s|);
  }

  lemma {:induction false} CalmItems(s: string, at: nat)
    requires at <= |s| && ItemsFrom(s, at, false).Got?
    ensures Calm(s, at, ItemsFrom(s, at, false).next)
    decreases |s| - at
  {
    hide StringAt, TakeAt, Calm;
    var item := StringAt(s, at, false);
    if TakeAt(s, item.next, ']', false).Some? {
      CalmString(s, at, ']', false);
    } else {
      var comma := TakeAt(s, item.next, ',', false).value;
      CalmString(s, at, ',', false);
      CalmItems(s, comma);
      Joined(s, at, comma, ItemsFrom(s, comma, false).next);
    }
  }

  lemma CalmArray(s: string, at: nat)
    requires at <= |s| && ArrayAt(s, at, false).Got?
    ensures Calm(s, at, ArrayAt(s, at, false).next)
  {
    hide ItemsFrom, TakeAt, Calm;
    var open := TakeAt(s, at, '[', false).value;
    CalmTake(s, at, '[', false);
    if TakeAt(s, open, ']', false).Some? { CalmTake(s, open, ']', false); } else { CalmItems(s, open); }
    Joined(s, at, open, ArrayAt(s, at, false).next);
  }

  lemma CalmSomeKeys(s: string, at: nat, c: char)
    requires at <= |s| && KeysAt(s, at).Got? && TakeAt(s, KeysAt(s, at).next, c, false).Some? && (c == ',' || c == '}')
    ensures Calm(s, at, TakeAt(s, KeysAt(s, at).next, c, false).value)
  {
    hide StringAt, ArrayAt, TakeAt, Calm;
    var name, end := StringAt(s, at, false), KeysAt(s, at).next;
    var colon := TakeAt(s, name.next, ':', false).value;
    CalmString(s, at, ':', false);
    if name.value == "key" {
      CalmString(s, colon, c, false);
    } else {
      CalmArray(s, colon);
      CalmTake(s, end, c, false);
      Joined(s, colon, end, TakeAt(s, end, c, false).value);
    }
    Joined(s, at, colon, TakeAt(s, end, c, false).value);
  }

  lemma {:induction false} CalmKeys(s: string, at: nat)
    requires at <= |s| && KeysFrom(s, at).Got?
    ensures Calm(s, at, KeysFrom(s, at).next)
    decreases |s| - at
  {
    hide KeysAt, TakeAt, Calm;
    var keys := KeysAt(s, at);
    if TakeAt(s, keys.next, '}', false).Some? {
      CalmSomeKeys(s, at, '}');
    } else {
      var comma := TakeAt(s, keys.next, ',', false).value;
      CalmSomeKeys(s, at, ',');
      CalmKeys(s, comma);
      Joined(s, at, comma, KeysFrom(s, comma).next);
    }
  }

  lemma CalmKeyList(s: string)
    requires Whole(s, KeyListAt(s), false).Some?
    ensures Calm(s, 0, |s|)
  {
    hide KeysFrom, TakeAt, Calm;
    var end := KeyListAt(s).next;
    var open := TakeAt(s, 0, '{', false).value;
    CalmTake(s, 0, '{', false);
    if TakeAt(s, open, '}', false).Some? { CalmTake(s, open, '}', false); } else { CalmKeys(s, open); }
    Joined(s, 0, open, end);
    CalmBlanks(s, end, false);
    Joined(s, 0, end, |s|);
  }

  // ----- a body read from the middle of a string -----

  predicate PlainChar(c: char) { c != '"' && c != '\\' }

  predicate AllPlain(s: string, from: nat, to: nat) {
    from <= to <= |s| && forall i :: from <= i < to ==> PlainChar(s[i])
  }

  lemma {:induction false} PlainRun(s: string, at: nat, end: nat)
    requires at <= end <= |s| && AllPlain(s, at, end) && CharsFrom(s, at, false).Got?
    ensures CharsFrom(s, end, false).Got? && CharsFrom(s, end, false).next == CharsFrom(s, at, false).next
    decreases end - at
  {
    if at < end { PlainRun(s, at + 1, end); }
  }

  lemma {:induction false} PlainBlanks(s: string, at: nat, strict: bool)
    requires at <= |s|
    ensures AllPlain(s, at, SkipFrom(s, at, strict))
    decreases |s| - at
  {
    if at < |s| && Blank(s[at], strict) { PlainBlanks(s, at + 1, strict); }
  }

  /** The quote that seems to open a string there closes the one it is in. What follows it is no name. */
  lemma InnerName(b: string, base: nat, k: nat, q: nat, strict: bool)
    requires base <= k <= |b| && InText(b, base)
    requires var s := b[base..k]; AllPlain(s, 0, q) && StringAt(s, q, strict).Got?
    ensures var name := StringAt(b[base..k], q, strict).value; name != [] && Follower(name[0])
  {
    var s := b[base..k];
    var p := SkipFrom(s, q, strict);
    PlainBlanks(s, q, strict);
    assert forall i :: base <= i < base + p ==> b[i] == s[i - base];
    PlainRun(b, base, base + p);
    assert b[base + p] == s[p] == '"';
    assert CharsFrom(s, p + 1, strict).Got?;
    assert s[p + 1] == b[base + p + 1];
  }

  lemma DelInText(b: string, base: nat, k: nat)
    requires base <= k <= |b| && InText(b, base)
    ensures var s := b[base..k]; Whole(s, KeyListAt(s), false) == None || Whole(s, KeyListAt(s), false) == Some([])
  {
    hide StringAt, ArrayAt, InText;
    var s := b[base..k];
    if KeyListAt(s).Got? {
      var open := TakeAt(s, 0, '{', false).value;
      if TakeAt(s, open, '}', false).None? {
        PlainBlanks(s, 0, false);
        InnerName(b, base, k, open, false);
      }
    }
  }

  lemma {:induction false} FieldsKeep(s: string, at: nat, seen: Fields)
    requires at <= |s| && FieldsFrom(s, at, seen).Got?
    ensures seen.Keys <= FieldsFrom(s, at, seen).value.Keys
    ensures FieldAt(s, at).Got? && FieldAt(s, at).value.0 in FieldsFrom(s, at, seen).value
    decreases |s| - at
  {
    hide FieldAt, TakeAt;
    var field := FieldAt(s, at);
    if TakeAt(s, field.next, '}', true).None? {
      FieldsKeep(s, TakeAt(s, field.next, ',', true).value, seen[field.value.0 := field.value.1]);
    }
  }

  lemma SetInText(b: string, base: nat, k: nat)
    requires base <= k <= |b| && InText(b, base)
    ensures var fields := Whole(b[base..k], ObjectAt(b[base..k]), true); fields.Some? ==> SetOf(fields.value) == None
  {
    hide StringAt, ValueAt, InText;
    var s := b[base..k];
    if ObjectAt(s).Got? {
      var open := TakeAt(s, 0, '{', true).value;
      if TakeAt(s, open, '}', true).None? {
        FieldsKeep(s, open, map[]);
        PlainBlanks(s, 0, true);
        InnerName(b, base, k, open, true);
        NoSuchField(FieldAt(s, open).value.0);
      }
    }
  }

  lemma NoSuchField(name: string)
    requires name != [] && Follower(name[0])
    ensures name !in SET_FIELDS
  {
  }
}
