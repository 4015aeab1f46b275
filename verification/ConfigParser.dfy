/** The reader of the plugin configuration: a cursor over the text that only moves forward. */
module ConfigParser {
  import opened Common
  import opened JsonText
  import opened JsonSpec
  import opened SectionSpec
  import opened ConfigSpec
  import opened ConfigTerms

  datatype ConfigError = InvalidJson

  /** The literal read from `from` on, given the part of it that has been read. */
  function Prepend(out: string, r: Option<(string, nat)>): Option<(string, nat)> {
    match r case Some((t, e)) => Some((out + t, e)) case None => None
  }

  lemma {:induction false} PrependAssoc(a: string, c: char, r: Option<(string, nat)>)
    ensures Prepend(a + [c], r) == Prepend(a, Prepend([c], r))
  {
    if r.Some? { assert a + [c] + r.value.0 == a + ([c] + r.value.0); }
  }

  lemma {:induction false} PrependNothing(r: Option<(string, nat)>)
    ensures Prepend("", r) == r
  {
    if r.Some? { assert "" + r.value.0 == r.value.0; }
  }

  lemma {:induction false} HexPrefix(hex: string, k: nat)
    requires k <= |hex| && HexValue(hex).Some?
    ensures HexValue(hex[..k]).Some?
    decreases |hex|
  {
    if k < |hex| {
      HexPrefix(hex[..|hex| - 1], k);
      assert hex[..|hex| - 1][..k] == hex[..k];
    } else {
      assert hex[..k] == hex;
    }
  }

  lemma {:induction false} NoHex()
    ensures HexValue("") == Some(0)
  {
  }

  /** One more hexadecimal digit, or none: then the four cannot be a code. */
  lemma {:induction false} HexStep(s: string, start: nat, k: nat)
    requires k < 4 && start + k < |s|
    ensures HexValue(s[start..start + k]).Some? ==>
      HexValue(s[start..start + k + 1]) ==
        match HexDigit(s[start + k])
        case Some(d) => Some(16 * HexValue(s[start..start + k]).value + d)
        case None => None
    ensures start + 4 <= |s| && HexDigit(s[start + k]).None? ==> HexAt(s, start).None?
  {
    var read := s[start..start + k + 1];
    assert read[..k] == s[start..start + k] && read[k] == s[start + k];
    if start + 4 <= |s| && HexValue(s[start..start + 4]).Some? {
      HexPrefix(s[start..start + 4], k + 1);
      assert s[start..start + 4][..k + 1] == read;
    }
  }

  class JsonParser {
    const input: string
    var pos: nat

    ghost predicate Valid() reads this { pos <= |input| }

    constructor (input: string)
      ensures this.input == input && pos == 0
    {
      this.input := input;
      pos := 0;
    }

    method Peek() returns (r: Option<char>)
      requires Valid()
      ensures r == if pos < |input| then Some(input[pos]) else None
    {
      r := if pos < |input| then Some(input[pos]) else None;
    }

    method Next() returns (r: Option<char>)
      requires Valid()
      modifies this
      ensures Valid()
      ensures old(pos) < |input| ==> r == Some(input[old(pos)]) && pos == old(pos) + 1
      ensures old(pos) == |input| ==> r == None && pos == old(pos)
    {
      r := Peek();
      if r.Some? { pos := pos + 1; }
    }

    method Consume(expected: char) returns (b: bool)
      requires Valid()
      modifies this
      ensures Valid() && (b <==> old(pos) < |input| && input[old(pos)] == expected)
      ensures pos == if b then old(pos) + 1 else old(pos)
    {
      var c := Peek();
      b := c == Some(expected);
      if b { pos := pos + 1; }
    }

    method SkipWs()
      requires Valid()
      modifies this
      ensures Valid() && pos == SkipBlanks(input, old(pos))
    {
      while pos < |input| && Blank(input[pos])
        invariant Valid() && SkipBlanks(input, pos) == SkipBlanks(input, old(pos))
        decreases |input| - pos
      {
        pos := pos + 1;
      }
    }

    method Expect(expected: char) returns (r: Result<(), ConfigError>)
      requires Valid()
      modifies this
      ensures Valid()
      ensures var q := SkipBlanks(input, old(pos));
        if q < |input| && input[q] == expected then r.Ok? && pos == q + 1 else r.Err?
    {
      SkipWs();
      var found := Consume(expected);
      r := if found then Ok(()) else Err(InvalidJson);
    }

    method ParseUnicodeEscape() returns (r: Result<char, ConfigError>)
      requires Valid()
      modifies this
      ensures Valid()
      ensures match HexAt(input, old(pos))
        case Some(c) => r == Ok(c) && pos == old(pos) + 4
        case None => r.Err?
    {
      hide HexValue, HexDigit, CodeChar;
      ghost var start := pos;
      NoHex();
      assert input[start..start] == "";
      var value: nat := 0;
      for k := 0 to 4
        invariant Valid() && pos == start + k && HexValue(input[start..pos]) == Some(value)
      {
        var ch := Next();
        if ch.None? {
          return Err(InvalidJson);
        }
        var digit := HexDigit(ch.value);
        HexStep(input, start, k);
        if digit.None? {
          return Err(InvalidJson);
        }
        value := value * 16 + digit.value;
      }
      var c := CodeChar(value);
      r := if c.Some? then Ok(c.value) else Err(InvalidJson);
    }

    method ParseString() returns (r: Result<string, ConfigError>)
      requires Valid()
      modifies this
      ensures Valid()
      ensures match Literal(input, old(pos))
        case Some((t, e)) => r == Ok(t) && pos == e
        case None => r.Err?
    {
      var _ :- Expect('"');
      ghost var start := pos;
      ghost var whole := StringFrom(input, start);
      PrependNothing(whole);
      var out := "";
      while pos < |input|
        invariant Valid() && start <= pos && whole == Prepend(out, StringFrom(input, pos))
        decreases |input| - pos
      {
        ghost var at := pos;
        ghost var rest := StringFrom(input, at);
        var ch := Next();
        var c: char;
        if ch.value == '"' {
          assert rest == Some(("", pos)) && out + "" == out;
          return Ok(out);
        } else if ch.value == '\\' {
          var next := Next();
          if next.None? {
            return Err(InvalidJson);
          }
          if next.value == 'u' {
            c :- ParseUnicodeEscape();
          } else {
            var escaped := Escaped(next.value);
            if escaped.None? {
              return Err(InvalidJson);
            }
            c := escaped.value;
          }
        } else if ch.value < ' ' {
          return Err(InvalidJson);
        } else {
          c := ch.value;
        }
        assert PieceAt(input, at) == Some((c, pos));
        assert rest == Prepend([c], StringFrom(input, pos));
        PrependAssoc(out, c, StringFrom(input, pos));
        out := out + [c];
      }
      r := Err(InvalidJson);
    }

    /** A member's name and its colon. */
    method ParseLabel() returns (r: Result<string, ConfigError>)
      requires Valid()
      modifies this
      ensures Valid()
      ensures match LabelFrom(input, old(pos))
        case Some((t, e)) => r == Ok(t) && pos == e
        case None => r.Err?
    {
      var key :- ParseString();
      var _ :- Expect(':');
      r := Ok(key);
    }

    /** Moves to the end of one value, and takes nothing from it. */
    method SkipValue() returns (r: Result<(), ConfigError>)
      requires Valid()
      modifies this
      ensures Valid()
      ensures match ValueEnd(input, old(pos))
        case Some(e) => r.Ok? && pos == e
        case None => r.Err?
      decreases |input| - pos, 0
    {
      SkipWs();
      var c := Peek();
      match c {
        case None => return Err(InvalidJson);
        case Some('"') =>
          SkipIdle();
          var _ :- ParseString();
        case Some('{') =>
          pos := pos + 1;
          var _ :- SkipList('}');
        case Some('[') =>
          pos := pos + 1;
          var _ :- SkipList(']');
        case Some(_) =>
          while pos < |input| && !Delimiter(input[pos]) && !Blank(input[pos])
            invariant Valid() && AtomEnd(input, pos) == AtomEnd(input, SkipBlanks(input, old(pos)))
            decreases |input| - pos
          {
            pos := pos + 1;
          }
      }
      r := Ok(());
    }

    lemma {:induction false} SkipIdle()
      requires Valid() && (pos < |input| ==> !Blank(input[pos]))
      ensures SkipBlanks(input, pos) == pos
    {
    }

    /** Skips the rest of an array or object whose opening bracket has been read. */
    method SkipList(closer: char) returns (r: Result<(), ConfigError>)
      requires Valid() && closer in {'}', ']'}
      modifies this
      ensures Valid()
      ensures match ListEnd(input, old(pos), closer)
        case Some(e) => r.Ok? && pos == e
        case None => r.Err?
      decreases |input| - pos, 1
    {
      hide SkipBlanks, ValueEnd, LabelFrom, ListEnd;
      while true
        invariant Valid() && pos >= old(pos) && ListEnd(input, pos, closer) == ListEnd(input, old(pos), closer)
        decreases |input| - pos
      {
        ListTurn(input, pos, closer);
        SkipWs();
        ghost var at := pos;
        var done := Consume(closer);
        if done {
          return Ok(());
        }
        if closer == '}' {
          var _ :- ParseLabel();
        }
        assert ItemStart(input, at, closer) == Some(pos);
        var _ :- SkipValue();
        SkipWs();
        var more := Consume(',');
        if !more {
          SkipIdle();
          var _ :- Expect(closer);
          return Ok(());
        }
      }
    }

    method ParseStringArray() returns (r: Result<seq<string>, ConfigError>)
      requires Valid()
      modifies this
      ensures Valid()
      ensures match ArrayAt(input, old(pos))
        case Some((ts, e)) => r == Ok(ts) && pos == e
        case None => r.Err?
    {
      hide SkipBlanks, Literal, ArrayFrom;
      var _ :- Expect('[');
      ghost var start := pos;
      ghost var whole := ArrayFrom(input, start);
      JoinedNothing(whole);
      var values := [];
      while true
        invariant Valid() && whole == Joined(values, ArrayFrom(input, pos))
        decreases |input| - pos
      {
        ArrayTurn(input, pos);
        SkipWs();
        var done := Consume(']');
        if done {
          assert values + [] == values;
          return Ok(values);
        }
        var value :- ParseString();
        ghost var before := values;
        values := values + [value];
        SkipWs();
        var more := Consume(',');
        if !more {
          SkipIdle();
          var _ :- Expect(']');
          return Ok(values);
        }
        JoinedAssoc(before, value, ArrayFrom(input, pos));
      }
    }

    /** The digits from here on, unless their value overflows. */
    method ScanDigits() returns (r: Result<int, ConfigError>)
      requires Valid()
      modifies this
      ensures Valid()
      ensures var e := DigitsEnd(input, old(pos));
        var n := DigitsValue(input[old(pos)..e]);
        if n <= I32_MAX then r == Ok(n) && pos == e else r.Err?
      ensures DigitsEnd(input, old(pos)) == old(pos) ==> r.Ok?
    {
      ghost var digits, end := pos, DigitsEnd(input, pos);
      var value: int := 0;
      while pos < |input| && IsDigit(input[pos])
        invariant Valid() && digits <= pos && DigitsEnd(input, pos) == end
        invariant AllDigits(input[digits..pos]) && value == DigitsValue(input[digits..pos]) <= I32_MAX
        decreases |input| - pos
      {
        hide DigitsEnd, DigitsValue;
        ghost var before := pos;
        var next := value * 10 + (input[pos] as int - '0' as int);
        pos := pos + 1;
        OneMoreDigit(input, digits, before, end);
        if next > I32_MAX {
          return Err(InvalidJson);
        }
        value := next;
      }
      r := Ok(value);
    }

    /** parse_optional_i32: a number, or nothing if there are no digits. */
    method ParseOptionalI32() returns (r: Result<FieldValue, ConfigError>)
      requires Valid()
      modifies this
      ensures Valid()
      ensures match ReadKind(input, old(pos), Number)
        case Some((x, e)) => r == Ok(x) && pos == e
        case None => r.Err?
    {
      hide SkipBlanks, DigitsEnd, DigitsValue, ValueEnd;
      SkipWs();
      var start := pos;
      var negative := Consume('-');
      var digits := pos;
      var value :- ScanDigits();
      if pos == digits {
        pos := start;
        var _ :- SkipValue();
        return Ok(Nothing);
      }
      r := Ok(NumberIs(if negative then -value else value));
    }

    /** The value of a key, by the reader it gets. */
    method ParseKind(k: Kind) returns (r: Result<FieldValue, ConfigError>)
      requires Valid()
      modifies this
      ensures Valid()
      ensures match ReadKind(input, old(pos), k)
        case Some((x, e)) => r == Ok(x) && pos == e
        case None => r.Err?
      decreases |input| - pos, 1
    {
      hide SkipBlanks, StringFrom, ValueEnd, ArrayFrom, ReadEntries, ReadObjects, ReadNumber;
      match k {
        case Skipped =>
          var _ :- SkipValue();
          r := Ok(Nothing);
        case OneText =>
          var text :- ParseOptionalString();
          if text.Some? {
            return Ok(TextIs(text.value));
          }
          var _ :- SkipValue();
          r := Ok(Nothing);
        case BareText =>
          var text :- ParseOptionalString();
          r := Ok(if text.Some? then TextIs(text.value) else Nothing);
        case TextOrList =>
          r := ParsePathListValue();
        case Number =>
          r := ParseOptionalI32();
        case Strings =>
          var texts :- ParseStringArray();
          r := Ok(ListIs(texts));
        case Object(name) =>
          var entries :- ParseObjectFields(name);
          r := Ok(FieldsAre(entries));
        case Objects(name) =>
          var objects :- ParseObjects(name);
          r := Ok(ObjectsAre(objects));
      }
    }

    /** parse_optional_string: a literal, or nothing read. */
    method ParseOptionalString() returns (r: Result<Option<string>, ConfigError>)
      requires Valid()
      modifies this
      ensures Valid()
      ensures var q := SkipBlanks(input, old(pos));
        if q < |input| && input[q] == '"' then
          match StringFrom(input, q + 1)
          case Some((t, e)) => r == Ok(Some(t)) && pos == e
          case None => r.Err?
        else r == Ok(None) && pos == q
    {
      hide SkipBlanks, StringFrom;
      SkipWs();
      SkipIdle();
      var c := Peek();
      if c != Some('"') {
        return Ok(None);
      }
      var text :- ParseString();
      r := Ok(Some(text));
    }

    /** parse_path_list_value: one text, or an array of them. */
    method ParsePathListValue() returns (r: Result<FieldValue, ConfigError>)
      requires Valid()
      modifies this
      ensures Valid()
      ensures match ReadKind(input, old(pos), TextOrList)
        case Some((x, e)) => r == Ok(x) && pos == e
        case None => r.Err?
    {
      hide SkipBlanks, StringFrom, ValueEnd, ArrayFrom;
      SkipWs();
      SkipIdle();
      var c := Peek();
      if c == Some('"') {
        var text :- ParseString();
        return Ok(ListIs([text]));
      }
      if c == Some('[') {
        var texts :- ParseStringArray();
        return Ok(ListIs(texts));
      }
      var _ :- SkipValue();
      r := Ok(Nothing);
    }

    /** parse_object_fields, with the readers that the keys of this kind of object get. */
    method ParseObjectFields(name: string) returns (r: Result<seq<Entry>, ConfigError>)
      requires Valid()
      modifies this
      ensures Valid()
      ensures var q := SkipBlanks(input, old(pos));
        if q < |input| && input[q] == '{' then
          match ReadEntries(input, q + 1, name)
          case Some((es, e)) => r == Ok(es) && pos == e
          case None => r.Err?
        else r.Err?
      decreases |input| - pos, 0
    {
      hide SkipBlanks, LabelFrom, ReadKind, KindOf, ReadEntries;
      ghost var from := pos;
      var _ :- Expect('{');
      ghost var whole := ReadEntries(input, pos, name);
      JoinedNothing(whole);
      var entries: seq<Entry> := [];
      while true
        invariant Valid() && pos > from && whole == Joined(entries, ReadEntries(input, pos, name))
        decreases |input| - pos
      {
        ghost var p := pos;
        SkipWs();
        ghost var q := pos;
        var done := Consume('}');
        if done {
          EntriesClose(input, p, name);
          assert entries + [] == entries;
          return Ok(entries);
        }
        if LabelFrom(input, q).None? { EntriesNeedLabel(input, p, name); }
        var key :- ParseLabel();
        LabelIsThere(input, q);
        EntryTurn(input, p, name, key, pos);
        var x :- ParseKind(KindOf(name, key));
        ghost var before := entries;
        entries := entries + [Entry(key, x)];
        SkipWs();
        var more := Consume(',');
        if !more {
          SkipIdle();
          var _ :- Expect('}');
          return Ok(entries);
        }
        JoinedAssoc(before, Entry(key, x), ReadEntries(input, pos, name));
      }
    }

    /** The loop of the sections that are arrays of objects. */
    method ParseObjects(name: string) returns (r: Result<seq<seq<Entry>>, ConfigError>)
      requires Valid()
      modifies this
      ensures Valid()
      ensures var q := SkipBlanks(input, old(pos));
        if q < |input| && input[q] == '[' then
          match ReadObjects(input, q + 1, name)
          case Some((os, e)) => r == Ok(os) && pos == e
          case None => r.Err?
        else r.Err?
      decreases |input| - pos, 0
    {
      hide SkipBlanks, ReadEntries, ReadObjects;
      ghost var from := pos;
      var _ :- Expect('[');
      ghost var whole := ReadObjects(input, pos, name);
      JoinedNothing(whole);
      var objects: seq<seq<Entry>> := [];
      while true
        invariant Valid() && pos > from && whole == Joined(objects, ReadObjects(input, pos, name))
        decreases |input| - pos
      {
        ghost var p := pos;
        SkipWs();
        ghost var q := pos;
        SkipIdle();
        var done := Consume(']');
        if done {
          ObjectsClose(input, p, name);
          assert objects + [] == objects;
          return Ok(objects);
        }
        if q < |input| { ObjectTurn(input, p, name); } else { ObjectsNeedMore(input, p, name); }
        var o :- ParseObjectFields(name);
        ghost var before := objects;
        objects := objects + [o];
        SkipWs();
        var more := Consume(',');
        if !more {
          SkipIdle();
          var _ :- Expect(']');
          return Ok(objects);
        }
        JoinedAssoc(before, o, ReadObjects(input, pos, name));
      }
    }

    /** What the value of a top-level field does to the configuration. */
    method ParseField(env: Env, st: State, key: string) returns (r: Result<State, ConfigError>)
      requires Valid()
      modifies this
      ensures Valid()
      ensures match EffectAt(env, st, key, input, old(pos))
        case Some((st', e)) => r == Ok(st') && pos == e
        case None => r.Err?
    {
      hide SkipBlanks, ValueEnd, ActionFor, WithSection, WithImages, ArrayAt, ReadKind;
      match ActionFor(env.platform, key, st.own) {
        case Skip =>
          var _ :- SkipValue();
          r := Ok(st);
        case Section(name, claims) =>
          var x :- ParseKind(SectionKind(name));
          r := Ok(WithSection(env, st, name, claims, x));
        case Images(mode) =>
          var images :- ParseStringArray();
          r := Ok(WithImages(st, mode, images));
      }
    }

    method ParseFields(env: Env) returns (r: Result<State, ConfigError>)
      requires Valid()
      modifies this
      ensures Valid()
      ensures match FieldsFrom(env, Start(env), input, old(pos))
        case Some((st, e)) => r == Ok(st) && pos == e
        case None => r.Err?
    {
      hide SkipBlanks, EffectAt, LabelFrom;
      var st := Start(env);
      while true
        invariant Valid() && FieldsFrom(env, st, input, pos) == FieldsFrom(env, Start(env), input, old(pos))
        decreases |input| - pos
      {
        SkipWs();
        var done := Consume('}');
        if done {
          return Ok(st);
        }
        var key :- ParseLabel();
        st :- ParseField(env, st, key);
        SkipWs();
        var more := Consume(',');
        if !more {
          SkipIdle();
          var _ :- Expect('}');
          return Ok(st);
        }
      }
    }

    method ParseConfig(env: Env) returns (r: Result<Config, ConfigError>)
      requires pos == 0
      modifies this
      ensures match ConfigOf(env, input) case Some(c) => r == Ok(c) case None => r.Err?
    {
      var _ :- Expect('{');
      var st :- ParseFields(env);
      SkipWs();
      r := if pos == |input| then Ok(st.config) else Err(InvalidJson);
    }
  }

  /** The list read from here on, behind the part of it that has been read. */
  function Joined<T>(ts: seq<T>, r: Option<(seq<T>, nat)>): Option<(seq<T>, nat)> {
    match r case Some((more, e)) => Some((ts + more, e)) case None => None
  }

  lemma {:induction false} JoinedNothing<T>(r: Option<(seq<T>, nat)>)
    ensures Joined([], r) == r
  {
    if r.Some? { assert [] + r.value.0 == r.value.0; }
  }

  lemma {:induction false} LabelIsThere(s: string, q: nat)
    requires q <= |s| && LabelFrom(s, q).Some?
    ensures q < |s|
  {
  }

  lemma {:induction false} EntriesNeedLabel(s: string, p: nat, name: string)
    requires p <= |s| && (SkipBlanks(s, p) < |s| ==> s[SkipBlanks(s, p)] != '}')
    requires LabelFrom(s, SkipBlanks(s, p)).None?
    ensures ReadEntries(s, p, name).None?
  {
    hide SkipBlanks, LabelFrom;
  }

  lemma {:induction false} ObjectsNeedMore(s: string, p: nat, name: string)
    requires p <= |s| && SkipBlanks(s, p) == |s|
    ensures ReadObjects(s, p, name).None?
  {
    hide SkipBlanks;
  }

  /** One more digit makes the number ten times as large or larger, and the rest of them no smaller. */
  lemma {:induction false} OneMoreDigit(s: string, d: nat, p: nat, end: nat)
    requires d <= p < |s| && IsDigit(s[p]) && DigitsEnd(s, p) == end && AllDigits(s[d..p])
    ensures p + 1 <= end <= |s| && DigitsEnd(s, p + 1) == end && AllDigits(s[d..p + 1]) && AllDigits(s[d..end])
    ensures DigitsValue(s[d..p + 1]) == DigitsValue(s[d..p]) * 10 + (s[p] as int - '0' as int)
    ensures DigitsValue(s[d..p + 1]) <= DigitsValue(s[d..end])
  {
    var one, all := s[d..p + 1], s[d..end];
    assert one == s[d..p] + [s[p]];
    assert all == s[d..p] + s[p..end];
    MoreDigits(all, |one|);
    assert all[..|one|] == one;
  }

  lemma {:induction false} MoreDigits(t: string, k: nat)
    requires k <= |t| && AllDigits(t)
    ensures DigitsValue(t[..k]) <= DigitsValue(t)
    decreases |t|
  {
    if k < |t| {
      MoreDigits(t[..|t| - 1], k);
      assert t[..|t| - 1][..k] == t[..k];
      assert IsDigit(t[|t| - 1]);
    } else {
      assert t[..k] == t;
    }
  }

  /** What reading one more string of an array comes to. */
  lemma {:induction false} ArrayTurn(s: string, p: nat)
    requires p <= |s|
    ensures var q := SkipBlanks(s, p);
      q <= |s| &&
      ArrayFrom(s, p) ==
        if q < |s| && s[q] == ']' then Some(([], q + 1))
        else match Literal(s, q)
          case None => None
          case Some((t, e)) =>
            var n := SkipBlanks(s, e);
            if n == |s| then None
            else if s[n] == ',' then Joined([t], ArrayFrom(s, n + 1))
            else if s[n] == ']' then Some(([t], n + 1))
            else None
  {
    hide SkipBlanks, Literal;
  }

  /** What skipping one more item of a list comes to. */
  lemma {:induction false} ListTurn(s: string, p: nat, closer: char)
    requires p <= |s|
    ensures var q := SkipBlanks(s, p);
      q <= |s| &&
      ListEnd(s, p, closer) ==
        if q < |s| && s[q] == closer then Some(q + 1)
        else match ItemStart(s, q, closer)
          case None => None
          case Some(v) => ListAfter(s, ValueEnd(s, v), closer)
  {
    hide SkipBlanks, ItemStart, ValueEnd;
  }

  function ListAfter(s: string, value: Option<nat>, closer: char): Option<nat> {
    if value.None? || value.value > |s| then None
    else
      var n := SkipBlanks(s, value.value);
      if n == |s| then None
      else if s[n] == ',' then ListEnd(s, n + 1, closer)
      else if s[n] == closer then Some(n + 1)
      else None
  }

  lemma {:induction false} JoinedAssoc<T>(a: seq<T>, t: T, r: Option<(seq<T>, nat)>)
    ensures Joined(a + [t], r) == Joined(a, Joined([t], r))
  {
    if r.Some? { assert a + [t] + r.value.0 == a + ([t] + r.value.0); }
  }

  /** Reading a text gives what a document printing to it means, and refuses every other text. */
  method Parse(env: Env, text: string) returns (r: Result<Config, ConfigError>)
    ensures r.Ok? ==>
      exists d :: DocOk(d) && DocText(d) == text && DocMeaning(env, d) == Some(r.value)
               && DocGives(env.platform, d, r.value)
    ensures r.Err? ==> forall d :: DocOk(d) && DocText(d) == text ==> DocMeaning(env, d) == None
  {
    var parser := new JsonParser(text);
    r := parser.ParseConfig(env);
    hide DocMeaning, DocOk, DocText, DocGives;
    if r.Ok? {
      ConfigMeansDoc(env, text, r.value);
      var d :| DocOk(d) && DocText(d) == text && DocMeaning(env, d) == Some(r.value);
      DocIs(env, d);
    } else {
      forall d | DocOk(d) && DocText(d) == text ensures DocMeaning(env, d) == None { DocRead(env, d); }
    }
  }
}
