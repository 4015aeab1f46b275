/**
 How the plugin sections read their values. Each section is an object, an array
 of objects or an array of strings, and differs from the others only in which
 reader each of its keys gets: `KindOf`. What is made of the values read is left
 to the section.
 */
module SectionSpec {
  import opened Common
  import opened JsonText
  import opened JsonSpec

  /** The readers for a key's value; the last two name the kind of object they read. */
  datatype Kind =
    | Skipped
    | OneText
    | BareText
    | TextOrList
    | Number
    | Strings
    | Object(name: string)
    | Objects(name: string)

  /** What a reader returns; nothing, for a value it passes over. */
  datatype FieldValue =
    | Nothing
    | TextIs(text: string)
    | ListIs(texts: seq<string>)
    | NumberIs(number: int)
    | FieldsAre(entries: seq<Entry>)
    | ObjectsAre(objects: seq<seq<Entry>>)

  datatype Entry = Entry(key: string, value: FieldValue)

  const PASSWORD_KEYS: set<string> := {"bootpwd", "isopwd", "wimpwd", "efipwd", "imgpwd", "vhdpwd", "vtoypwd"}

  /** Which reader a key gets in which kind of object. */
  function KindOf(name: string, key: string): Kind {
    match name
    case "control" => OneText
    case "menu_alias" => OneText
    case "menu_tip" => if key == "tips" then Objects("tip") else Skipped
    case "tip" => if key in {"image", "dir", "tip", "tip1", "tip2"} then OneText else Skipped
    case "menu_class" => if key in {"key", "parent", "dir", "class"} then OneText else Skipped
    case "password" =>
      if key in PASSWORD_KEYS then OneText else if key == "menupwd" then Objects("menupwd") else Skipped
    case "menupwd" => if key in {"file", "parent", "pwd"} then OneText else Skipped
    case "auto_install" =>
      if key in {"image", "parent"} then OneText
      else if key == "template" then TextOrList
      else if key in {"autosel", "timeout"} then Number else Skipped
    case "persistence" =>
      if key == "image" then OneText
      else if key == "backend" then TextOrList
      else if key in {"autosel", "timeout"} then Number else Skipped
    case "injection" =>
      if key in {"image", "parent"} then OneText else if key == "archive" then BareText else Skipped
    case "dud" => if key == "image" then OneText else if key == "dud" then TextOrList else Skipped
    case "conf_replace" =>
      if key == "iso" then OneText
      else if key in {"org", "new"} then BareText
      else if key == "img" then Number else Skipped
    case _ => Skipped
  }

  /** What a section is as a whole. */
  function SectionKind(section: string): Kind {
    if section in {"menu_tip", "password"} then Object(section)
    else if section == "auto_memdisk" then Strings
    else Objects(section)
  }

  predicate Whole(k: Kind) { k.Strings? || k.Object? || k.Objects? }

  // ----- numbers -----

  const I32_MAX: nat := 0x7FFF_FFFF

  predicate IsDigit(c: char) { '0' <= c <= '9' }

  predicate AllDigits(t: string) { forall i :: 0 <= i < |t| ==> IsDigit(t[i]) }

  function DigitsEnd(s: string, p: nat): (r: nat)
    requires p <= |s|
    ensures p <= r <= |s| && (forall i :: p <= i < r ==> IsDigit(s[i])) && (r < |s| ==> !IsDigit(s[r]))
    ensures AllDigits(s[p..r])
    decreases |s| - p
  {
    if p < |s| && IsDigit(s[p]) then DigitsEnd(s, p + 1) else p
  }

  function DigitsValue(t: string): nat
    requires AllDigits(t)
  {
    if t == "" then 0
    else
      assert IsDigit(t[|t| - 1]);
      10 * DigitsValue(t[..|t| - 1]) + (t[|t| - 1] as nat - '0' as nat)
  }

  predicate Minus(s: string, p: nat) { p < |s| && s[p] == '-' }

  function DigitsStart(s: string, p: nat): nat { if Minus(s, p) then p + 1 else p }

  /** The digits at `p`, behind a sign if there is one: their value if it is a 32-bit one. */
  function NumberAt(s: string, p: nat): Option<int>
    requires DigitsStart(s, p) <= |s|
  {
    var d := DigitsStart(s, p);
    var n: int := DigitsValue(s[d..DigitsEnd(s, d)]);
    if n > I32_MAX then None else Some(if Minus(s, p) then -n else n)
  }

  // ----- the meaning of a tree -----

  /** The strings of an array that holds nothing else. */
  function StringsOf(r: Rest): Option<seq<string>> {
    match r
    case Close(_) => Some([])
    case Last(i) => if i.value.Text? && PiecesOk(i.value.pieces) then Some([Decoded(i.value.pieces)]) else None
    case Then(i, more) =>
      if i.value.Text? && PiecesOk(i.value.pieces) then
        match StringsOf(more) case Some(ts) => Some([Decoded(i.value.pieces)] + ts) case None => None
      else None
  }

  /** An atom as a number: passed over without digits, refused with anything behind them. */
  function AtomNumber(t: string): Option<FieldValue> {
    var d := DigitsStart(t, 0);
    var e := DigitsEnd(t, d);
    if e == d then Some(Nothing)
    else if e < |t| then None
    else match NumberAt(t, 0) case Some(n) => Some(NumberIs(n)) case None => None
  }

  /** What a reader makes of a value, if it does not refuse it. */
  function KindValue(k: Kind, v: Json): Option<FieldValue>
    decreases v, 1
  {
    match k
    case Skipped => Some(Nothing)
    case OneText => Some(if v.Text? && PiecesOk(v.pieces) then TextIs(Decoded(v.pieces)) else Nothing)
    case BareText =>
      if v.Text? && PiecesOk(v.pieces) then Some(TextIs(Decoded(v.pieces)))
      else if v == Atom("") then Some(Nothing) else None
    case TextOrList =>
      if v.Text? && PiecesOk(v.pieces) then Some(ListIs([Decoded(v.pieces)]))
      else if v.List? && v.closer == ']' then
        match StringsOf(v.rest) case Some(ts) => Some(ListIs(ts)) case None => None
      else Some(Nothing)
    case Number => if v.Atom? then AtomNumber(v.chars) else Some(Nothing)
    case Strings =>
      if v.List? && v.closer == ']' then
        match StringsOf(v.rest) case Some(ts) => Some(ListIs(ts)) case None => None
      else None
    case Object(name) =>
      if v.List? && v.closer == '}' then
        match EntriesOf(name, v.rest) case Some(es) => Some(FieldsAre(es)) case None => None
      else None
    case Objects(name) =>
      if v.List? && v.closer == ']' then
        match ObjectsOf(name, v.rest) case Some(os) => Some(ObjectsAre(os)) case None => None
      else None
  }

  function ItemName(i: Item): string {
    if i.key.Some? && PiecesOk(i.key.value.name) then Decoded(i.key.value.name) else ""
  }

  function EntryOf(name: string, i: Item): Option<Entry>
    decreases i, 2
  {
    match KindValue(KindOf(name, ItemName(i)), i.value)
    case Some(x) => Some(Entry(ItemName(i), x))
    case None => None
  }

  function EntriesOf(name: string, r: Rest): Option<seq<Entry>>
    decreases r, 3
  {
    match r
    case Close(_) => Some([])
    case Last(i) => (match EntryOf(name, i) case Some(e) => Some([e]) case None => None)
    case Then(i, more) =>
      match EntryOf(name, i)
      case None => None
      case Some(e) => (match EntriesOf(name, more) case Some(es) => Some([e] + es) case None => None)
  }

  function ObjectOf(name: string, v: Json): Option<seq<Entry>>
    decreases v, 1
  {
    if v.List? && v.closer == '}' then EntriesOf(name, v.rest) else None
  }

  function ObjectsOf(name: string, r: Rest): Option<seq<seq<Entry>>>
    decreases r, 3
  {
    match r
    case Close(_) => Some([])
    case Last(i) => (match ObjectOf(name, i.value) case Some(o) => Some([o]) case None => None)
    case Then(i, more) =>
      match ObjectOf(name, i.value)
      case None => None
      case Some(o) => (match ObjectsOf(name, more) case Some(os) => Some([o] + os) case None => None)
  }

  // ----- what a reader does at a position -----

  function ArrayFrom(s: string, p: nat): (r: Option<(seq<string>, nat)>)
    requires p <= |s|
    ensures r.Some? ==> p < r.value.1 <= |s|
    decreases |s| - p
  {
    var q := SkipBlanks(s, p);
    if q < |s| && s[q] == ']' then Some(([], q + 1))
    else
      match Literal(s, q)
      case None => None
      case Some((t, e)) =>
        var n := SkipBlanks(s, e);
        if n == |s| then None
        else if s[n] == ',' then
          match ArrayFrom(s, n + 1) case Some((ts, end)) => Some(([t] + ts, end)) case None => None
        else if s[n] == ']' then Some(([t], n + 1))
        else None
  }

  function ArrayAt(s: string, p: nat): (r: Option<(seq<string>, nat)>)
    requires p <= |s|
    ensures r.Some? ==> p < r.value.1 <= |s|
  {
    var q := SkipBlanks(s, p);
    if q < |s| && s[q] == '[' then ArrayFrom(s, q + 1) else None
  }

  /** A value that is read as nothing. */
  function Passed(s: string, p: nat): (r: Option<(FieldValue, nat)>)
    requires p <= |s|
    ensures r.Some? ==> p <= r.value.1 <= |s|
  {
    match ValueEnd(s, p) case Some(e) => Some((Nothing, e)) case None => None
  }

  function ReadNumber(s: string, q: nat): (r: Option<(FieldValue, nat)>)
    requires q <= |s|
    ensures r.Some? ==> q <= r.value.1 <= |s|
  {
    var d := DigitsStart(s, q);
    var e := DigitsEnd(s, d);
    if e == d then Passed(s, q)
    else match NumberAt(s, q) case Some(n) => Some((NumberIs(n), e)) case None => None
  }

  function ReadKind(s: string, p: nat, k: Kind): (r: Option<(FieldValue, nat)>)
    requires p <= |s|
    ensures r.Some? ==> p <= r.value.1 <= |s|
    decreases |s| - p, 0
  {
    var q := SkipBlanks(s, p);
    var quote := q < |s| && s[q] == '"';
    var bracket := q < |s| && s[q] == '[';
    match k
    case Skipped => Passed(s, p)
    case OneText => if quote then AsText(StringFrom(s, q + 1)) else Passed(s, q)
    case BareText => if quote then AsText(StringFrom(s, q + 1)) else Some((Nothing, q))
    case TextOrList =>
      if quote then AsTexts(StringFrom(s, q + 1))
      else if bracket then AsList(ArrayFrom(s, q + 1))
      else Passed(s, q)
    case Number => ReadNumber(s, q)
    case Strings => if bracket then AsList(ArrayFrom(s, q + 1)) else None
    case Object(name) =>
      if q < |s| && s[q] == '{' then
        match ReadEntries(s, q + 1, name) case Some((es, e)) => Some((FieldsAre(es), e)) case None => None
      else None
    case Objects(name) =>
      if bracket then
        match ReadObjects(s, q + 1, name) case Some((os, e)) => Some((ObjectsAre(os), e)) case None => None
      else None
  }

  function AsText(r: Option<(string, nat)>): Option<(FieldValue, nat)> {
    match r case Some((t, e)) => Some((TextIs(t), e)) case None => None
  }

  function AsTexts(r: Option<(string, nat)>): Option<(FieldValue, nat)> {
    match r case Some((t, e)) => Some((ListIs([t]), e)) case None => None
  }

  function AsList(r: Option<(seq<string>, nat)>): Option<(FieldValue, nat)> {
    match r case Some((ts, e)) => Some((ListIs(ts), e)) case None => None
  }

  /** parse_object_fields, its opening brace read. */
  function ReadEntries(s: string, p: nat, name: string): (r: Option<(seq<Entry>, nat)>)
    requires p <= |s|
    ensures r.Some? ==> p < r.value.1 <= |s|
    decreases |s| - p, 1
  {
    var q := SkipBlanks(s, p);
    if q < |s| && s[q] == '}' then Some(([], q + 1))
    else
      match LabelFrom(s, q)
      case None => None
      case Some((key, v)) =>
        match ReadKind(s, v, KindOf(name, key))
        case None => None
        case Some((x, e)) =>
          var n := SkipBlanks(s, e);
          if n == |s| then None
          else if s[n] == ',' then
            match ReadEntries(s, n + 1, name)
            case Some((es, end)) => Some(([Entry(key, x)] + es, end))
            case None => None
          else if s[n] == '}' then Some(([Entry(key, x)], n + 1))
          else None
  }

  /** An array of such objects, its opening bracket read. */
  function ReadObjects(s: string, p: nat, name: string): (r: Option<(seq<seq<Entry>>, nat)>)
    requires p <= |s|
    ensures r.Some? ==> p < r.value.1 <= |s|
    decreases |s| - p, 1
  {
    var q := SkipBlanks(s, p);
    if q == |s| then None
    else if s[q] == ']' then Some(([], q + 1))
    else if s[q] != '{' then None
    else
      match ReadEntries(s, q + 1, name)
      case None => None
      case Some((o, e)) =>
        var n := SkipBlanks(s, e);
        if n == |s| then None
        else if s[n] == ',' then
          match ReadObjects(s, n + 1, name) case Some((os, end)) => Some(([o] + os, end)) case None => None
        else if s[n] == ']' then Some(([o], n + 1))
        else None
  }

  // ----- they agree -----

  function Ending<A>(r: Option<A>, e: nat): Option<(A, nat)> {
    match r case Some(a) => Some((a, e)) case None => None
  }

  lemma {:induction false} LiteralRead(s: string, p: nat, v: Json, e: nat)
    requires p <= |s| && ValueAt(s, p, v, e)
    ensures Literal(s, p) == if v.Text? && PiecesOk(v.pieces) then Some((Decoded(v.pieces), e)) else None
  {
    hide At, StringFrom, Decoded, PiecesOk, Quoted, RestPrinted, RestOk, SkipBlanks;
    ValueHead(s, p, v, e);
    SkipNone(s, p);
    match v
    case Text(ps) => QuotedRead(s, p, ps);
    case Atom(t) => AtomRead(s, p, t);
    case List(closer, rest) =>
      ListAt(s, p, closer, rest, e);
      AtChar(s, p, Opener(closer));
  }

  lemma {:induction false} ArrayStep(s: string, p: nat, i: Item, last: bool)
    requires p <= |s| && ItemOk(i, ']', last)
    requires At(s, p, ItemPrinted(i)) && p + |ItemPrinted(i)| < |s|
    requires s[p + |ItemPrinted(i)|] == if last then ']' else ','
    ensures var n := p + |ItemPrinted(i)|;
      ArrayFrom(s, p) ==
        if !(i.value.Text? && PiecesOk(i.value.pieces)) then None
        else if last then Some(([Decoded(i.value.pieces)], n + 1))
        else match ArrayFrom(s, n + 1)
             case Some((ts, end)) => Some(([Decoded(i.value.pieces)] + ts, end))
             case None => None
  {
    hide At, ItemPrinted, SkipBlanks, Literal, LabelFrom, Decoded, ValueAt, PiecesOk, JsonOk, Blanks;
    var v, e, n := ItemPlaces(s, p, i, ']', last);
    NoLabel();
    LiteralRead(s, v, i.value, e);
  }

  /** The strings of a printed array are read, or it is refused if it holds anything else. */
  lemma {:induction false} ArrayRead(s: string, p: nat, r: Rest, e: nat)
    requires p <= |s| && RestAt(s, p, r, ']', e)
    ensures ArrayFrom(s, p) == Ending(StringsOf(r), e)
    decreases r
  {
    hide At, RestAt, ItemPrinted, ItemOk, SkipBlanks, Literal, Blanks, ArrayFrom, PiecesOk;
    match r
    case Close(pre) =>
      CloseAt(s, p, pre, ']', e);
      AtChar(s, p + |pre|, ']');
      SkipOver(s, p, pre);
      ArrayCloses(s, p);
    case Last(i) =>
      LastAt(s, p, i, ']', e);
      AtChar(s, p + |ItemPrinted(i)|, ']');
      ArrayStep(s, p, i, true);
    case Then(i, more) =>
      ThenAt(s, p, i, more, ']', e);
      AtChar(s, p + |ItemPrinted(i)|, ',');
      ArrayStep(s, p, i, false);
      ArrayRead(s, p + |ItemPrinted(i)| + 1, more, e);
  }

  lemma {:induction false} ArrayCloses(s: string, p: nat)
    requires p <= |s| && SkipBlanks(s, p) < |s| && s[SkipBlanks(s, p)] == ']'
    ensures ArrayFrom(s, p) == Some(([], SkipBlanks(s, p) + 1))
  {
    hide SkipBlanks;
  }

  /** What an array of strings goes on with. */
  lemma {:induction false} ArrayHead(s: string, p: nat) returns (e: nat)
    requires p <= |s| && ArrayFrom(s, p).Some?
    requires SkipBlanks(s, p) < |s| ==> s[SkipBlanks(s, p)] != ']'
    ensures SkipBlanks(s, p) < |s| && SkipBlanks(s, p) < e <= |s| && ValueEnd(s, SkipBlanks(s, p)) == Some(e)
    ensures var n := SkipBlanks(s, e);
      && n < |s| && s[n] in {',', ']'}
      && (s[n] == ',' ==> ArrayFrom(s, n + 1).Some? && ArrayFrom(s, p).value.1 == ArrayFrom(s, n + 1).value.1)
      && (s[n] == ']' ==> ArrayFrom(s, p).value.1 == n + 1)
  {
    var q := SkipBlanks(s, p);
    hide SkipBlanks, Literal, ValueEnd;
    e := Literal(s, q).value.1;
    SkipTwice(s, p);
    LiteralIsValue(s, q);
  }

  lemma {:induction false} LiteralIsValue(s: string, q: nat)
    requires q <= |s| && SkipBlanks(s, q) == q && Literal(s, q).Some?
    ensures q < |s| && ValueEnd(s, q) == Some(Literal(s, q).value.1)
  {
    hide SkipBlanks, StringFrom, ListEnd;
  }

  /** Whatever is read as an array of strings is a list. */
  lemma {:induction false} ArrayIsList(s: string, p: nat)
    requires p <= |s| && ArrayFrom(s, p).Some?
    ensures ListEnd(s, p, ']') == Some(ArrayFrom(s, p).value.1)
    decreases |s| - p
  {
    hide *;
    var q := SkipBlanks(s, p);
    if q < |s| && s[q] == ']' {
      ArrayCloses(s, p);
      ListCloses(s, p, ']');
    } else {
      var e := ArrayHead(s, p);
      ListGoesOn(s, p, q, e);
      if s[SkipBlanks(s, e)] == ',' { ArrayIsList(s, SkipBlanks(s, e) + 1); }
    }
  }

  lemma {:induction false} ImagesRead(s: string, p: nat, v: Json, e: nat)
    requires p <= |s| && ValueAt(s, SkipBlanks(s, p), v, e)
    ensures ArrayAt(s, p) == if v.List? && v.closer == ']' then Ending(StringsOf(v.rest), e) else None
  {
    hide SkipBlanks, At, RestPrinted, RestOk, RestAt, ArrayFrom, PiecesOk, Quoted;
    var q := SkipBlanks(s, p);
    match v
    case Text(ps) => QuotedRead(s, q, ps);
    case Atom(t) => AtomRead(s, q, t);
    case List(closer, rest) =>
      ListAt(s, q, closer, rest, e);
      AtChar(s, q, Opener(closer));
      if closer == ']' { ArrayRead(s, q + 1, rest, e); }
  }

  // ----- numbers -----

  lemma {:induction false} DigitsEndIs(s: string, p: nat, e: nat)
    requires p <= e <= |s| && (forall i :: p <= i < e ==> IsDigit(s[i])) && (e < |s| ==> !IsDigit(s[e]))
    ensures DigitsEnd(s, p) == e
    decreases e - p
  {
    if p < e { DigitsEndIs(s, p + 1, e); }
  }

  lemma {:induction false} AtomEndIs(s: string, p: nat, e: nat)
    requires p <= e <= |s| && (forall i :: p <= i < e ==> !Delimiter(s[i]) && !Blank(s[i]))
    requires e < |s| ==> Delimiter(s[e]) || Blank(s[e])
    ensures AtomEnd(s, p) == e
    decreases e - p
  {
    if p < e { AtomEndIs(s, p + 1, e); }
  }

  /** The number in an atom, seen from the text it stands in. */
  lemma {:induction false} NumberInText(s: string, q: nat, t: string)
    requires At(s, q, t) && (q + |t| < |s| ==> !IsDigit(s[q + |t|]) && s[q + |t|] != '-')
    ensures q + |t| <= |s| && DigitsStart(t, 0) <= |t|
    ensures DigitsStart(s, q) == q + DigitsStart(t, 0)
    ensures DigitsEnd(s, DigitsStart(s, q)) == q + DigitsEnd(t, DigitsStart(t, 0))
    ensures NumberAt(s, q) == NumberAt(t, 0)
  {
    AtIndex(s, q, t);
    hide At, DigitsEnd, DigitsValue;
    assert Minus(s, q) <==> Minus(t, 0);
    var d := DigitsStart(t, 0);
    var e := DigitsEnd(t, d);
    forall i | q + d <= i < q + e ensures IsDigit(s[i]) { assert s[i] == t[i - q]; }
    assert q + e < |s| && e < |t| ==> s[q + e] == t[e];
    DigitsEndIs(s, q + d, q + e);
    SameDigits(s, q, t, d, e);
  }

  lemma {:induction false} SameDigits(s: string, q: nat, t: string, d: nat, e: nat)
    requires d <= e <= |t| && q + |t| <= |s| && forall i :: q <= i < q + |t| ==> s[i] == t[i - q]
    ensures s[q + d..q + e] == t[d..e]
  {
  }

  /** A reader that has stopped here, inside a value, is refused by the list around it. */
  predicate StopsShort(s: string, m: nat) { m < |s| && !Blank(s[m]) && !Delimiter(s[m]) }

  /** What is read comes to the meaning and ends with the value; without a meaning nothing is read, or too little. */
  ghost predicate Agrees<A>(s: string, r: Option<(A, nat)>, meaning: Option<A>, e: nat) {
    match meaning
    case Some(x) => r == Some((x, e))
    case None => r.None? || StopsShort(s, r.value.1)
  }

  lemma {:induction false} NumberRead(s: string, q: nat, v: Json, e: nat)
    requires q <= |s| && ValueAt(s, q, v, e)
    ensures Agrees(s, ReadNumber(s, q), if v.Atom? then AtomNumber(v.chars) else Some(Nothing), e)
  {
    ValueRead(s, q, v, e);
    KindUnique(s, q, v, e);
    hide ValueEnd, ValueAt, At, NumberAt;
    if v.Atom? {
      AtomEdges(s, q, v.chars, e);
      NumberInText(s, q, v.chars);
      AtomNumberRead(s, q, v.chars);
    } else {
      DigitsEndIs(s, q, q);
      hide DigitsEnd;
    }
  }

  lemma {:induction false} AtomNumberRead(s: string, q: nat, t: string)
    requires q + |t| <= |s| && AtomOk(t) && At(s, q, t) && DigitsStart(t, 0) <= |t| && DigitsStart(s, q) <= |s|
    requires DigitsStart(s, q) == q + DigitsStart(t, 0) && NumberAt(s, q) == NumberAt(t, 0)
    requires DigitsEnd(s, DigitsStart(s, q)) == q + DigitsEnd(t, DigitsStart(t, 0))
    requires ValueEnd(s, q) == Some(q + |t|)
    ensures Agrees(s, ReadNumber(s, q), AtomNumber(t), q + |t|)
  {
    AtIndex(s, q, t);
    hide At, NumberAt, ValueEnd, DigitsEnd;
    var m := DigitsEnd(t, DigitsStart(t, 0));
    assert m < |t| ==> s[q + m] == t[m];
  }

  lemma {:induction false} AtomEdges(s: string, q: nat, t: string, e: nat)
    requires ValueAt(s, q, Atom(t), e)
    ensures AtomOk(t) && At(s, q, t) && e == q + |t| && (e < |s| ==> !IsDigit(s[e]) && s[e] != '-')
  {
    assert e < |s| ==> Delimiter(s[e]) || Blank(s[e]);
  }

  // ----- every value is read to its meaning -----

  lemma {:induction false} KindRead(s: string, p: nat, k: Kind, v: Json, e: nat)
    requires p <= |s| && ValueAt(s, SkipBlanks(s, p), v, e)
    ensures Agrees(s, ReadKind(s, p, k), KindValue(k, v), e)
    ensures Whole(k) ==> ReadKind(s, p, k) == Ending(KindValue(k, v), e)
    decreases v, 1
  {
    hide SkipBlanks, At, RestPrinted, RestOk, RestAt, ArrayFrom, PiecesOk, Quoted, StringFrom, Decoded;
    hide ReadEntries, ReadObjects, EntriesOf, ObjectsOf, ReadNumber, AtomNumber, ValueEnd, KindOf;
    var q := SkipBlanks(s, p);
    SkipTwice(s, p);
    ValueRead(s, q, v, e);
    KindUnique(s, q, v, e);
    match v
    case Text(ps) =>
      QuotedRead(s, q, ps);
      NumberRead(s, q, v, e);
    case Atom(t) =>
      ValueHead(s, q, v, e);
      NumberRead(s, q, v, e);
    case List(closer, rest) =>
      NumberRead(s, q, v, e);
      ListAt(s, q, closer, rest, e);
      if closer == ']' { ArrayRead(s, q + 1, rest, e); }
      if k.Object? && closer == '}' { EntriesRead(s, q + 1, rest, k.name, e); }
      if k.Objects? && closer == ']' { ObjectsRead(s, q + 1, rest, k.name, e); }
  }

  /** One turn of the reader's loop over an object's members. */
  lemma {:induction false} EntryTurn(s: string, p: nat, name: string, key: string, v: nat)
    requires p <= |s| && SkipBlanks(s, p) < |s| && s[SkipBlanks(s, p)] != '}'
    requires LabelFrom(s, SkipBlanks(s, p)) == Some((key, v)) && v <= |s|
    ensures ReadEntries(s, p, name) ==
      match ReadKind(s, v, KindOf(name, key))
      case None => None
      case Some((x, e)) =>
        var n := SkipBlanks(s, e);
        if n == |s| then None
        else if s[n] == ',' then
          match ReadEntries(s, n + 1, name)
          case Some((es, end)) => Some(([Entry(key, x)] + es, end))
          case None => None
        else if s[n] == '}' then Some(([Entry(key, x)], n + 1))
        else None
  {
    hide SkipBlanks, LabelFrom, ReadKind, KindOf;
  }

  lemma {:induction false} EntryStep(s: string, p: nat, i: Item, last: bool, name: string)
    requires p <= |s| && ItemOk(i, '}', last)
    requires At(s, p, ItemPrinted(i)) && p + |ItemPrinted(i)| < |s|
    requires s[p + |ItemPrinted(i)|] == if last then '}' else ','
    ensures var n := p + |ItemPrinted(i)|;
      ReadEntries(s, p, name) ==
        match EntryOf(name, i)
        case None => None
        case Some(x) =>
          if last then Some(([x], n + 1))
          else match ReadEntries(s, n + 1, name)
               case Some((es, end)) => Some(([x] + es, end))
               case None => None
    decreases i, 2
  {
    hide At, ItemPrinted, SkipBlanks, LabelFrom, ValueAt, ReadKind, KindValue, KindOf, ItemName, ItemOk, ReadEntries;
    var start, e := FieldPlaces(s, p, i, last);
    var kind := KindOf(name, ItemName(i));
    KindRead(s, start, kind, i.value, e);
    EntryTurn(s, p, name, ItemName(i), start);
    if ReadKind(s, start, kind).Some? && KindValue(kind, i.value).None? {
      SkipNone(s, ReadKind(s, start, kind).value.1);
    }
  }

  lemma {:induction false} FieldPlaces(s: string, p: nat, i: Item, last: bool) returns (start: nat, e: nat)
    requires p <= |s| && ItemOk(i, '}', last)
    requires At(s, p, ItemPrinted(i)) && p + |ItemPrinted(i)| < |s|
    requires s[p + |ItemPrinted(i)|] == if last then '}' else ','
    ensures SkipBlanks(s, p) < |s| && s[SkipBlanks(s, p)] != '}' && start <= |s|
    ensures LabelFrom(s, SkipBlanks(s, p)) == Some((ItemName(i), start))
    ensures ValueAt(s, SkipBlanks(s, start), i.value, e)
    ensures e <= |s| && SkipBlanks(s, e) == p + |ItemPrinted(i)|
  {
    hide At, ItemPrinted, SkipBlanks, LabelFrom, Decoded, ValueAt, PiecesOk, JsonOk, Blanks;
    var v, n;
    v, e, n := ItemPlaces(s, p, i, '}', last);
    LabelBlanks(i.key.value);
    start := ItemStart(s, p + |i.pre|, '}').value;
  }

  lemma {:induction false} EntriesRead(s: string, p: nat, r: Rest, name: string, e: nat)
    requires p <= |s| && RestAt(s, p, r, '}', e)
    ensures ReadEntries(s, p, name) == Ending(EntriesOf(name, r), e)
    decreases r, 3
  {
    hide At, RestAt, ItemPrinted, ItemOk, SkipBlanks, Blanks, ReadEntries, EntryOf;
    match r
    case Close(pre) =>
      CloseAt(s, p, pre, '}', e);
      AtChar(s, p + |pre|, '}');
      SkipOver(s, p, pre);
      EntriesClose(s, p, name);
    case Last(i) =>
      LastAt(s, p, i, '}', e);
      AtChar(s, p + |ItemPrinted(i)|, '}');
      EntryStep(s, p, i, true, name);
    case Then(i, more) =>
      ThenAt(s, p, i, more, '}', e);
      AtChar(s, p + |ItemPrinted(i)|, ',');
      EntryStep(s, p, i, false, name);
      EntriesRead(s, p + |ItemPrinted(i)| + 1, more, name, e);
  }

  lemma {:induction false} EntriesClose(s: string, p: nat, name: string)
    requires p <= |s| && SkipBlanks(s, p) < |s| && s[SkipBlanks(s, p)] == '}'
    ensures ReadEntries(s, p, name) == Some(([], SkipBlanks(s, p) + 1))
  {
    hide SkipBlanks;
  }

  lemma {:induction false} ObjectTurn(s: string, p: nat, name: string)
    requires p <= |s| && SkipBlanks(s, p) < |s| && s[SkipBlanks(s, p)] != ']'
    ensures var q := SkipBlanks(s, p);
      ReadObjects(s, p, name) ==
        if s[q] != '{' then None
        else match ReadEntries(s, q + 1, name)
          case None => None
          case Some((o, e)) =>
            var n := SkipBlanks(s, e);
            if n == |s| then None
            else if s[n] == ',' then
              match ReadObjects(s, n + 1, name) case Some((os, end)) => Some(([o] + os, end)) case None => None
            else if s[n] == ']' then Some(([o], n + 1))
            else None
  {
    hide SkipBlanks, ReadEntries;
  }

  lemma {:induction false} ObjectStep(s: string, p: nat, i: Item, last: bool, name: string)
    requires p <= |s| && ItemOk(i, ']', last)
    requires At(s, p, ItemPrinted(i)) && p + |ItemPrinted(i)| < |s|
    requires s[p + |ItemPrinted(i)|] == if last then ']' else ','
    ensures var n := p + |ItemPrinted(i)|;
      ReadObjects(s, p, name) ==
        match ObjectOf(name, i.value)
        case None => None
        case Some(o) =>
          if last then Some(([o], n + 1))
          else match ReadObjects(s, n + 1, name)
               case Some((os, end)) => Some(([o] + os, end))
               case None => None
    decreases i, 2
  {
    hide At, ItemPrinted, SkipBlanks, ReadObjects, ReadEntries, EntriesOf, ItemOk, ValueAt, RestAt;
    var v, e := ElementPlaces(s, p, i, last);
    KindUnique(s, v, i.value, e);
    ObjectTurn(s, p, name);
    if i.value.List? && i.value.closer == '}' {
      ListAt(s, v, '}', i.value.rest, e);
      EntriesRead(s, v + 1, i.value.rest, name, e);
    }
  }

  lemma {:induction false} ElementPlaces(s: string, p: nat, i: Item, last: bool) returns (v: nat, e: nat)
    requires p <= |s| && ItemOk(i, ']', last)
    requires At(s, p, ItemPrinted(i)) && p + |ItemPrinted(i)| < |s|
    requires s[p + |ItemPrinted(i)|] == if last then ']' else ','
    ensures v == SkipBlanks(s, p) < |s| && s[v] != ']' && ValueAt(s, v, i.value, e)
    ensures e <= |s| && SkipBlanks(s, e) == p + |ItemPrinted(i)|
  {
    hide At, ItemPrinted, SkipBlanks, LabelFrom, Decoded, JsonOk, Blanks, ValueAt;
    var n;
    v, e, n := ItemPlaces(s, p, i, ']', last);
    NoLabel();
    ValueHead(s, v, i.value, e);
  }

  lemma {:induction false} ObjectsRead(s: string, p: nat, r: Rest, name: string, e: nat)
    requires p <= |s| && RestAt(s, p, r, ']', e)
    ensures ReadObjects(s, p, name) == Ending(ObjectsOf(name, r), e)
    decreases r, 3
  {
    hide At, RestAt, ItemPrinted, ItemOk, SkipBlanks, Blanks, ReadObjects, ObjectOf;
    match r
    case Close(pre) =>
      CloseAt(s, p, pre, ']', e);
      AtChar(s, p + |pre|, ']');
      SkipOver(s, p, pre);
      ObjectsClose(s, p, name);
    case Last(i) =>
      LastAt(s, p, i, ']', e);
      AtChar(s, p + |ItemPrinted(i)|, ']');
      ObjectStep(s, p, i, true, name);
    case Then(i, more) =>
      ThenAt(s, p, i, more, ']', e);
      AtChar(s, p + |ItemPrinted(i)|, ',');
      ObjectStep(s, p, i, false, name);
      ObjectsRead(s, p + |ItemPrinted(i)| + 1, more, name, e);
  }

  lemma {:induction false} ObjectsClose(s: string, p: nat, name: string)
    requires p <= |s| && SkipBlanks(s, p) < |s| && s[SkipBlanks(s, p)] == ']'
    ensures ReadObjects(s, p, name) == Some(([], SkipBlanks(s, p) + 1))
  {
    hide SkipBlanks;
  }

  // ----- what is read is a value -----

  /** Where a reader has stopped, if it has: at the end of the value, or where the list around it will refuse. */
  ghost predicate StopsRight(s: string, p: nat, k: Kind, m: nat)
    requires p <= |s|
  {
    ValueEnd(s, p) == Some(m) || (!Whole(k) && (m == |s| || StopsShort(s, m)))
  }

  lemma {:induction false} TextIsValue(s: string, p: nat, k: Kind)
    requires p <= |s| && (k.Skipped? || k.OneText? || k.BareText?) && ReadKind(s, p, k).Some?
    ensures StopsRight(s, p, k, ReadKind(s, p, k).value.1)
  {
    SkipTwice(s, p);
    ValueByHead(s, p);
    hide SkipBlanks, StringFrom, ListEnd, ValueEnd;
  }

  lemma {:induction false} TextsOpen(s: string, p: nat, k: Kind)
    requires p <= |s| && (k.TextOrList? || k.Strings?) && ReadKind(s, p, k).Some?
    requires SkipBlanks(s, p) < |s| && s[SkipBlanks(s, p)] == '['
    ensures var q := SkipBlanks(s, p);
      && ArrayFrom(s, q + 1).Some? && ReadKind(s, p, k).value.1 == ArrayFrom(s, q + 1).value.1
      && ValueEnd(s, p) == ListEnd(s, q + 1, ']')
  {
    ValueByHead(s, p);
    hide SkipBlanks, StringFrom, ListEnd, ValueEnd, ArrayFrom;
  }

  lemma {:induction false} OneOrNone(s: string, p: nat, k: Kind)
    requires p <= |s| && (k.TextOrList? || k.Strings?) && ReadKind(s, p, k).Some?
    requires SkipBlanks(s, p) < |s| ==> s[SkipBlanks(s, p)] != '['
    ensures ValueEnd(s, p) == Some(ReadKind(s, p, k).value.1)
  {
    SkipTwice(s, p);
    ValueByHead(s, p);
    hide SkipBlanks, StringFrom, ListEnd, ValueEnd, ArrayFrom;
  }

  lemma {:induction false} TextsAreValue(s: string, p: nat, k: Kind)
    requires p <= |s| && (k.TextOrList? || k.Strings?) && ReadKind(s, p, k).Some?
    ensures StopsRight(s, p, k, ReadKind(s, p, k).value.1)
  {
    hide *;
    var q := SkipBlanks(s, p);
    if q < |s| && s[q] == '[' {
      TextsOpen(s, p, k);
      ArrayIsList(s, q + 1);
    } else {
      OneOrNone(s, p, k);
    }
    EndsThere(s, p, k, ReadKind(s, p, k).value.1);
  }

  /** A reader moves exactly to the end of the value, unless the list around it will refuse where it stops. */
  lemma {:induction false} KindIsValue(s: string, p: nat, k: Kind)
    requires p <= |s| && ReadKind(s, p, k).Some?
    ensures StopsRight(s, p, k, ReadKind(s, p, k).value.1)
    decreases |s| - p, 0
  {
    hide *;
    var q := SkipBlanks(s, p);
    if k.Object? {
      ObjectOpens(s, p, k.name);
      EntriesAreList(s, q + 1, k.name);
      EndsThere(s, p, k, ReadKind(s, p, k).value.1);
    } else if k.Objects? {
      ObjectsOpen(s, p, k.name);
      ObjectsAreList(s, q + 1, k.name);
      EndsThere(s, p, k, ReadKind(s, p, k).value.1);
    } else if k.Number? {
      NumberStops(s, p);
    } else if k.TextOrList? || k.Strings? {
      TextsAreValue(s, p, k);
    } else {
      TextIsValue(s, p, k);
    }
  }

  lemma {:induction false} ObjectOpens(s: string, p: nat, name: string)
    requires p <= |s| && ReadKind(s, p, Object(name)).Some?
    ensures var q := SkipBlanks(s, p);
      && p <= q < |s| && ReadEntries(s, q + 1, name).Some?
      && ReadKind(s, p, Object(name)).value.1 == ReadEntries(s, q + 1, name).value.1
      && ValueEnd(s, p) == ListEnd(s, q + 1, '}')
  {
    ValueByHead(s, p);
    hide SkipBlanks, ListEnd, ReadEntries, ReadObjects, ValueEnd, StringFrom;
  }

  lemma {:induction false} ObjectsOpen(s: string, p: nat, name: string)
    requires p <= |s| && ReadKind(s, p, Objects(name)).Some?
    ensures var q := SkipBlanks(s, p);
      && p <= q < |s| && ReadObjects(s, q + 1, name).Some?
      && ReadKind(s, p, Objects(name)).value.1 == ReadObjects(s, q + 1, name).value.1
      && ValueEnd(s, p) == ListEnd(s, q + 1, ']')
  {
    ValueByHead(s, p);
    hide SkipBlanks, ListEnd, ReadEntries, ReadObjects, ValueEnd, StringFrom;
  }

  lemma {:induction false} NumberStops(s: string, p: nat)
    requires p <= |s| && ReadKind(s, p, Number).Some?
    ensures StopsRight(s, p, Number, ReadKind(s, p, Number).value.1)
  {
    SkipTwice(s, p);
    hide SkipBlanks, ReadNumber, ValueEnd;
    NumberIsValue(s, SkipBlanks(s, p));
  }

  lemma {:induction false} EndsThere(s: string, p: nat, k: Kind, m: nat)
    requires p <= |s| && ValueEnd(s, p) == Some(m)
    ensures StopsRight(s, p, k, m)
  {
  }

  /** Where a value ends, by its first character. */
  lemma {:induction false} ValueByHead(s: string, p: nat)
    requires p <= |s|
    ensures var q := SkipBlanks(s, p);
      q < |s| ==>
        && (s[q] == '"' ==>
              ValueEnd(s, p) == match StringFrom(s, q + 1) case Some((_, e)) => Some(e) case None => None)
        && (s[q] == '{' ==> ValueEnd(s, p) == ListEnd(s, q + 1, '}'))
        && (s[q] == '[' ==> ValueEnd(s, p) == ListEnd(s, q + 1, ']'))
        && (Delimiter(s[q]) ==> ValueEnd(s, p) == Some(q))
  {
    hide SkipBlanks, StringFrom, ListEnd;
  }

  lemma {:induction false} NumberIsValue(s: string, q: nat)
    requires q <= |s| && SkipBlanks(s, q) == q && ReadNumber(s, q).Some?
    ensures var m := ReadNumber(s, q).value.1; ValueEnd(s, q) == Some(m) || m == |s| || StopsShort(s, m)
  {
    hide NumberAt, SkipBlanks, DigitsEnd, ListEnd, StringFrom, AtomEnd;
    var d := DigitsStart(s, q);
    var e := DigitsEnd(s, d);
    if e != d && e < |s| && (Blank(s[e]) || Delimiter(s[e])) { AtomEndIs(s, q, e); }
  }

  lemma {:induction false} EntriesAreList(s: string, p: nat, name: string)
    requires p <= |s| && ReadEntries(s, p, name).Some?
    ensures ListEnd(s, p, '}') == Some(ReadEntries(s, p, name).value.1)
    decreases |s| - p, 1
  {
    hide *;
    var q := SkipBlanks(s, p);
    if q < |s| && s[q] == '}' {
      EntriesClose(s, p, name);
      ListCloses(s, p, '}');
    } else {
      var key, v := EntriesHead(s, p, name);
      EntryTurn(s, p, name, key, v);
      KindIsValue(s, v, KindOf(name, key));
      var e := ReadKind(s, v, KindOf(name, key)).value.1;
      StopIsEnd(s, v, KindOf(name, key), e);
      MembersGoOn(s, p, key, v, e);
      if s[SkipBlanks(s, e)] == ',' { EntriesAreList(s, SkipBlanks(s, e) + 1, name); }
    }
  }

  lemma {:induction false} StopIsEnd(s: string, p: nat, k: Kind, m: nat)
    requires p <= |s| && m <= |s| && StopsRight(s, p, k, m)
    requires SkipBlanks(s, m) < |s| && s[SkipBlanks(s, m)] in {',', '}'}
    ensures ValueEnd(s, p) == Some(m)
  {
    if StopsShort(s, m) { SkipNone(s, m); }
    assert m < |s|;
    hide ValueEnd, SkipBlanks;
  }

  lemma {:induction false} EntriesHead(s: string, p: nat, name: string) returns (key: string, v: nat)
    requires p <= |s| && ReadEntries(s, p, name).Some?
    requires SkipBlanks(s, p) < |s| ==> s[SkipBlanks(s, p)] != '}'
    ensures SkipBlanks(s, p) < |s| && p < v <= |s| && LabelFrom(s, SkipBlanks(s, p)) == Some((key, v))
  {
    var q := SkipBlanks(s, p);
    key, v := LabelFrom(s, q).value.0, LabelFrom(s, q).value.1;
    hide ReadEntries, StringFrom;
    SkipTwice(s, p);
  }

  lemma {:induction false} MembersGoOn(s: string, p: nat, key: string, v: nat, e: nat)
    requires p <= |s| && SkipBlanks(s, p) < |s| && s[SkipBlanks(s, p)] != '}'
    requires v <= |s| && LabelFrom(s, SkipBlanks(s, p)) == Some((key, v))
    ensures ValueEnd(s, v) == Some(e) ==>
      e <= |s| &&
      var n := SkipBlanks(s, e);
      ListEnd(s, p, '}') ==
        if n == |s| then None
        else if s[n] == ',' then ListEnd(s, n + 1, '}')
        else if s[n] == '}' then Some(n + 1)
        else None
  {
    hide SkipBlanks, ValueEnd, LabelFrom;
  }

  lemma {:induction false} ObjectsAreList(s: string, p: nat, name: string)
    requires p <= |s| && ReadObjects(s, p, name).Some?
    ensures ListEnd(s, p, ']') == Some(ReadObjects(s, p, name).value.1)
    decreases |s| - p, 1
  {
    hide SkipBlanks, ReadEntries, ListEnd, ReadObjects, ValueEnd;
    var q := SkipBlanks(s, p);
    ObjectsHead(s, p, name);
    if s[q] == ']' {
      ListCloses(s, p, ']');
    } else {
      ObjectTurn(s, p, name);
      EntriesAreList(s, q + 1, name);
      var e := ReadEntries(s, q + 1, name).value.1;
      BraceIsValue(s, q, e);
      ListGoesOn(s, p, q, e);
      if s[SkipBlanks(s, e)] == ',' { ObjectsAreList(s, SkipBlanks(s, e) + 1, name); }
    }
  }

  lemma {:induction false} ObjectsHead(s: string, p: nat, name: string)
    requires p <= |s| && ReadObjects(s, p, name).Some?
    ensures SkipBlanks(s, p) < |s| && SkipBlanks(s, SkipBlanks(s, p)) == SkipBlanks(s, p)
    ensures s[SkipBlanks(s, p)] == ']' ==> ReadObjects(s, p, name) == Some(([], SkipBlanks(s, p) + 1))
  {
    SkipTwice(s, p);
    hide SkipBlanks, ReadEntries;
  }

  lemma {:induction false} BraceIsValue(s: string, q: nat, e: nat)
    requires q < |s| && SkipBlanks(s, q) == q && s[q] == '{' && ListEnd(s, q + 1, '}') == Some(e)
    ensures ValueEnd(s, q) == Some(e)
  {
    hide SkipBlanks, ListEnd;
  }

  lemma {:induction false} ListGoesOn(s: string, p: nat, q: nat, e: nat)
    requires p <= |s| && q == SkipBlanks(s, p) < |s| && s[q] != ']' && ValueEnd(s, q) == Some(e)
    ensures e <= |s|
    ensures var n := SkipBlanks(s, e);
      ListEnd(s, p, ']') ==
        if n == |s| then None
        else if s[n] == ',' then ListEnd(s, n + 1, ']')
        else if s[n] == ']' then Some(n + 1)
        else None
  {
    hide SkipBlanks, ValueEnd;
  }
}
