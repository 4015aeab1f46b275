/**
 RFC 8259 as a grammar of texts, apart from the reader's trees; which of the
 texts the reader accepts it allows, and which of those it allows the reader
 accepts.
 */
module JsonGrammar {
  import opened Common
  import opened JsonText
  import opened JsonSpec
  import opened SectionSpec
  import opened ConfigSpec
  import opened JsonTrees

  // ----- the grammar -----

  /** ws, in section 2 of RFC 8259. */
  predicate RfcBlanks(t: string) { forall i :: 0 <= i < |t| ==> t[i] in {' ', '\t', '\n', '\r'} }

  predicate Digits(t: string) { t != "" && forall i :: 0 <= i < |t| ==> '0' <= t[i] <= '9' }

  /** int, in section 6: no leading zero. */
  predicate RfcInt(t: string) { Digits(t) && (t[0] == '0' ==> |t| == 1) }

  predicate RfcFraction(t: string) { t == "" || (t[0] == '.' && Digits(t[1..])) }

  predicate RfcExponent(t: string) {
    t == "" || (t[0] in {'e', 'E'} && (Digits(t[1..]) || (|t| > 1 && t[1] in {'+', '-'} && Digits(t[2..]))))
  }

  ghost predicate RfcNumber(t: string) {
    exists sign, whole, fraction, exponent ::
      && t == sign + whole + fraction + exponent && sign in {"", "-"}
      && RfcInt(whole) && RfcFraction(fraction) && RfcExponent(exponent)
  }

  predicate RfcUnescaped(c: char) { c >= ' ' && c != '"' && c != '\\' }

  /** *char, in section 7: the escapes of code units are any four hexadecimal digits. */
  predicate RfcChars(t: string)
    decreases |t|
  {
    || t == ""
    || (RfcUnescaped(t[0]) && RfcChars(t[1..]))
    || (|t| >= 2 && t[0] == '\\' && t[1] in {'"', '\\', '/', 'b', 'f', 'n', 'r', 't'} && RfcChars(t[2..]))
    || (|t| >= 6 && t[0] == '\\' && t[1] == 'u' && HexValue(t[2..6]).Some? && RfcChars(t[6..]))
  }

  predicate Framed(t: string, open: char, close: char) { |t| >= 2 && t[0] == open && t[|t| - 1] == close }

  function Inner(t: string): string
    requires |t| >= 2
  {
    t[1..|t| - 1]
  }

  predicate RfcString(t: string) { Framed(t, '"', '"') && RfcChars(Inner(t)) }

  /** value, in section 3. */
  ghost predicate RfcValueText(t: string)
    decreases |t|, 0
  {
    || t in {"true", "false", "null"} || RfcNumber(t) || RfcString(t)
    || (Framed(t, '[', ']') && (RfcBlanks(Inner(t)) || RfcElements(Inner(t))))
    || (Framed(t, '{', '}') && (RfcBlanks(Inner(t)) || RfcMembers(Inner(t))))
  }

  /** A value with the white space around it; so is a whole text. */
  ghost predicate RfcElement(t: string)
    decreases |t|, 1
  {
    exists a, b :: 0 <= a <= b <= |t| && RfcBlanks(t[..a]) && RfcValueText(t[a..b]) && RfcBlanks(t[b..])
  }

  /** The values of an array. */
  ghost predicate RfcElements(t: string)
    decreases |t|, 2
  {
    RfcElement(t) || exists k :: 0 <= k < |t| && t[k] == ',' && RfcElement(t[..k]) && RfcElements(t[k + 1..])
  }

  /** member: a string, a colon and a value, with white space around each. */
  ghost predicate RfcMember(t: string)
    decreases |t|, 1
  {
    exists a, b, c ::
      && 0 <= a <= b <= c < |t| && t[c] == ':'
      && RfcBlanks(t[..a]) && RfcString(t[a..b]) && RfcBlanks(t[b..c]) && RfcElement(t[c + 1..])
  }

  /** The members of an object. */
  ghost predicate RfcMembers(t: string)
    decreases |t|, 2
  {
    RfcMember(t) || exists k :: 0 <= k < |t| && t[k] == ',' && RfcMember(t[..k]) && RfcMembers(t[k + 1..])
  }

  /** JSON-text */
  ghost predicate RfcText(t: string) { RfcElement(t) }

  // ----- the trees that keep its rules -----

  predicate PieceShaped(p: Piece) {
    match p
    case Plain(c) => RfcUnescaped(c)
    case Escape(c) => c in {'"', '\\', '/', 'b', 'f', 'n', 'r', 't'}
    case Unicode(hex) => |hex| == 4 && HexValue(hex).Some?
  }

  predicate PiecesShaped(ps: seq<Piece>) { forall i :: 0 <= i < |ps| ==> PieceShaped(ps[i]) }

  ghost predicate RfcValue(v: Json) {
    match v
    case Text(ps) => PiecesShaped(ps)
    case Atom(t) => t in {"true", "false", "null"} || RfcNumber(t)
    case List(closer, r) => closer in {'}', ']'} && RfcRest(r, closer)
  }

  /** Only RFC 8259's blanks, and no comma before the closing bracket. */
  ghost predicate RfcRest(r: Rest, closer: char) {
    match r
    case Close(pre) => RfcBlanks(pre)
    case Last(i) => RfcItem(i, closer)
    case Then(i, more) => RfcItem(i, closer) && !more.Close? && RfcRest(more, closer)
  }

  ghost predicate RfcItem(i: Item, closer: char) {
    && RfcBlanks(i.pre) && RfcBlanks(i.post) && RfcValue(i.value)
    && (i.key.Some? <==> closer == '}')
    && (i.key.Some? ==>
          RfcBlanks(i.key.value.beforeColon) && RfcBlanks(i.key.value.afterColon) && PiecesShaped(i.key.value.name))
  }

  ghost predicate RfcDoc(d: Doc) { RfcBlanks(d.before) && RfcRest(d.members, '}') && RfcBlanks(d.after) }

  /** Every literal stands for characters: no escape of a surrogate. */
  predicate Decodes(v: Json) {
    match v
    case Text(ps) => PiecesOk(ps)
    case Atom(_) => true
    case List(_, r) => RestDecodes(r)
  }

  predicate RestDecodes(r: Rest) {
    match r
    case Close(_) => true
    case Last(i) => ItemDecodes(i)
    case Then(i, more) => ItemDecodes(i) && RestDecodes(more)
  }

  predicate ItemDecodes(i: Item) { Decodes(i.value) && (i.key.Some? ==> PiecesOk(i.key.value.name)) }

  /** The escapes that the standard allows and the reader refuses. */
  lemma {:induction false} SurrogatesOnly(p: Piece)
    requires PieceShaped(p)
    ensures Meaning(p).None? <==> p.Unicode? && 0xD800 <= HexValue(p.hex).value < 0xE000
  {
    if p.Unicode? { HexBelow(p.hex); }
  }

  lemma {:induction false} HexBelow(hex: string)
    requires |hex| == 4 && HexValue(hex).Some?
    ensures HexValue(hex).value < 0x1_0000
  {
    assert HexValue(hex[..3][..2][..1][..0]) == Some(0);
    assert HexValue(hex[..3][..2][..1]).Some? && HexValue(hex[..3][..2]).Some? && HexValue(hex[..3]).Some?;
    assert HexValue(hex[..3][..2][..1]).value < 0x10;
    assert HexValue(hex[..3][..2]).value < 0x100;
    assert HexValue(hex[..3]).value < 0x1000;
  }

  // ----- such a tree is one of the reader's, where its literals decode -----

  lemma {:induction false} NumberChars(t: string)
    requires RfcNumber(t)
    ensures AtomOk(t) && t != ""
  {
    hide RfcFraction, RfcExponent;
    var sign, whole, fraction, exponent :|
      && t == sign + whole + fraction + exponent && sign in {"", "-"}
      && RfcInt(whole) && RfcFraction(fraction) && RfcExponent(exponent);
    PartChars(sign);
    PartChars(whole);
    PartChars(fraction);
    PartChars(exponent);
  }

  predicate NumberChar(c: char) { '0' <= c <= '9' || c in {'-', '+', '.', 'e', 'E'} }

  lemma {:induction false} PartChars(t: string)
    requires t in {"", "-"} || RfcInt(t) || RfcFraction(t) || RfcExponent(t)
    ensures forall i :: 0 <= i < |t| ==> NumberChar(t[i])
  {
    if Digits(t) {
    } else if t != "" && t != "-" && t[0] == '.' {
      forall i | 0 < i < |t| ensures NumberChar(t[i]) { assert t[i] == t[1..][i - 1]; }
    } else if t != "" && t != "-" && Digits(t[1..]) {
      forall i | 0 < i < |t| ensures NumberChar(t[i]) { assert t[i] == t[1..][i - 1]; }
    } else if t != "" && t != "-" {
      forall i | 1 < i < |t| ensures NumberChar(t[i]) { assert t[i] == t[2..][i - 2]; }
    }
  }

  lemma {:induction false} AtomsOk(t: string)
    requires t in {"true", "false", "null"} || RfcNumber(t)
    ensures AtomOk(t) && t != ""
  {
    if RfcNumber(t) { NumberChars(t); }
  }

  lemma {:induction false} ValueOk(v: Json)
    requires RfcValue(v)
    ensures JsonOk(v) <==> Decodes(v)
    ensures v != Atom("")
    decreases v, 0
  {
    match v
    case Text(_) =>
    case Atom(t) => AtomsOk(t);
    case List(closer, r) => RestsOk(r, closer);
  }

  lemma {:induction false} RestsOk(r: Rest, closer: char)
    requires closer in {'}', ']'} && RfcRest(r, closer)
    ensures RestOk(r, closer) <==> RestDecodes(r)
    decreases r, 2
  {
    match r
    case Close(_) =>
    case Last(i) => ItemsOk(i, closer, true);
    case Then(i, more) =>
      ItemsOk(i, closer, false);
      RestsOk(more, closer);
  }

  lemma {:induction false} ItemsOk(i: Item, closer: char, last: bool)
    requires RfcItem(i, closer)
    ensures ItemOk(i, closer, last) <==> ItemDecodes(i)
    decreases i, 1
  {
    ValueOk(i.value);
  }

  // ----- a tree prints to a text of the grammar -----

  lemma {:induction false} PiecesChars(ps: seq<Piece>)
    requires PiecesShaped(ps)
    ensures RfcChars(PiecesText(ps))
  {
    if ps != [] {
      PiecesChars(ps[1..]);
      var t, more := PiecesText(ps), PiecesText(ps[1..]);
      assert t == PieceText(ps[0]) + more;
      match ps[0]
      case Plain(_) => assert t[1..] == more;
      case Escape(_) => assert t[2..] == more;
      case Unicode(hex) => assert t[2..6] == hex && t[6..] == more;
    }
  }

  lemma {:induction false} QuotedString(ps: seq<Piece>)
    requires PiecesShaped(ps)
    ensures RfcString(Quoted(ps))
  {
    PiecesChars(ps);
    assert Inner(Quoted(ps)) == PiecesText(ps);
  }

  /** The printed rest of a list without its closing bracket. */
  function Printing(r: Rest, closer: char): string { RestPrinted(r, closer)[..|RestPrinted(r, closer)| - 1] }

  lemma {:induction false} PrintedEnds(r: Rest, closer: char)
    ensures |RestPrinted(r, closer)| > 0 && RestPrinted(r, closer) == Printing(r, closer) + [closer]
  {
    hide ItemPrinted;
    match r
    case Close(_) =>
    case Last(_) =>
    case Then(i, more) => PrintedEnds(more, closer);
  }

  lemma {:induction false} ValuePrints(v: Json)
    requires RfcValue(v)
    ensures RfcValueText(Printed(v))
    decreases v, 0
  {
    hide Quoted, RfcString, RfcNumber;
    match v
    case Text(ps) => QuotedString(ps);
    case Atom(_) =>
    case List(closer, r) =>
      PrintedEnds(r, closer);
      assert Inner(Printed(v)) == Printing(r, closer);
      RestPrints(r, closer);
  }

  lemma {:induction false} RestPrints(r: Rest, closer: char)
    requires closer in {'}', ']'} && RfcRest(r, closer)
    ensures var t := Printing(r, closer);
      if r.Close? then RfcBlanks(t) else if closer == '}' then RfcMembers(t) else RfcElements(t)
    decreases r, 2
  {
    PrintedEnds(r, closer);
    hide RfcBlanks, ItemPrinted, RfcElement, RfcMember;
    var t := Printing(r, closer);
    match r
    case Close(pre) => assert t == pre;
    case Last(i) =>
      assert t == ItemPrinted(i);
      ItemPrints(i, closer);
    case Then(i, more) =>
      ItemPrints(i, closer);
      PrintedEnds(more, closer);
      RestPrints(more, closer);
      var k := |ItemPrinted(i)|;
      assert t == ItemPrinted(i) + ([','] + Printing(more, closer));
      assert t[k] == ',' && t[..k] == ItemPrinted(i) && t[k + 1..] == Printing(more, closer);
  }

  lemma {:induction false} ElementIs(pre: string, v: string, post: string)
    requires RfcBlanks(pre) && RfcValueText(v) && RfcBlanks(post)
    ensures RfcElement(pre + (v + post))
  {
    hide RfcBlanks, RfcValueText;
    var t, a, b := pre + (v + post), |pre|, |pre| + |v|;
    assert t[..a] == pre && t[a..b] == v && t[b..] == post;
  }

  lemma {:induction false} ItemPrints(i: Item, closer: char)
    requires RfcItem(i, closer)
    ensures if closer == '}' then RfcMember(ItemPrinted(i)) else RfcElement(ItemPrinted(i))
    decreases i, 1
  {
    hide RfcBlanks, RfcValueText, RfcElement, Printed, Quoted, RfcString, PiecesShaped;
    ValuePrints(i.value);
    match i.key
    case None =>
      ElementIs(i.pre, Printed(i.value), i.post);
      assert LabelText(None) + (Printed(i.value) + i.post) == Printed(i.value) + i.post;
    case Some(l) =>
      QuotedString(l.name);
      ElementIs(l.afterColon, Printed(i.value), i.post);
      MemberIs(i.pre, Quoted(l.name), l.beforeColon, l.afterColon + (Printed(i.value) + i.post));
      var t := i.pre + (Quoted(l.name) + (l.beforeColon + ([':'] + (l.afterColon + (Printed(i.value) + i.post)))));
      assert ItemPrinted(i) == t;
  }

  lemma {:induction false} MemberIs(pre: string, name: string, before: string, rest: string)
    requires RfcBlanks(pre) && RfcString(name) && RfcBlanks(before) && RfcElement(rest)
    ensures RfcMember(pre + (name + (before + ([':'] + rest))))
  {
    hide RfcBlanks, RfcString, RfcElement;
    var t, a := pre + (name + (before + ([':'] + rest))), |pre|;
    var b := a + |name|;
    var c := b + |before|;
    assert t[..a] == pre && t[a..b] == name && t[b..c] == before && t[c] == ':' && t[c + 1..] == rest;
  }

  // ----- a text of the grammar has such a tree -----

  lemma {:induction false} CharsTree(t: string) returns (ps: seq<Piece>)
    requires RfcChars(t)
    ensures PiecesShaped(ps) && PiecesText(ps) == t
    decreases |t|
  {
    if t == "" {
      ps := [];
    } else if RfcUnescaped(t[0]) && RfcChars(t[1..]) {
      var more := CharsTree(t[1..]);
      ps := [Plain(t[0])] + more;
    } else if |t| >= 2 && t[1] in {'"', '\\', '/', 'b', 'f', 'n', 'r', 't'} && RfcChars(t[2..]) {
      var more := CharsTree(t[2..]);
      ps := [Escape(t[1])] + more;
    } else {
      var more := CharsTree(t[6..]);
      ps := [Unicode(t[2..6])] + more;
      assert t == ['\\', 'u'] + t[2..6] + t[6..];
    }
  }

  lemma {:induction false} StringTree(t: string) returns (ps: seq<Piece>)
    requires RfcString(t)
    ensures PiecesShaped(ps) && Quoted(ps) == t
  {
    ps := CharsTree(Inner(t));
  }

  lemma {:induction false} ListPrinted(t: string, closer: char, r: Rest)
    requires Framed(t, Opener(closer), closer) && RestPrinted(r, closer) == Inner(t) + [closer]
    ensures Printed(List(closer, r)) == t
  {
    assert t == [Opener(closer)] + (Inner(t) + [closer]);
  }

  lemma {:induction false} ValueTree(t: string) returns (v: Json)
    requires RfcValueText(t)
    ensures RfcValue(v) && Printed(v) == t
    decreases |t|, 1
  {
    hide RfcString, RfcNumber, RfcBlanks, RfcElements, RfcMembers, Quoted, RestPrinted;
    if t in {"true", "false", "null"} || RfcNumber(t) {
      v := Atom(t);
    } else if RfcString(t) {
      var ps := StringTree(t);
      v := Text(ps);
    } else if Framed(t, '[', ']') {
      var r := ArrayTree(t);
      v := List(']', r);
    } else {
      var r := ObjectTree(t);
      v := List('}', r);
    }
  }

  lemma {:induction false} ArrayTree(t: string) returns (r: Rest)
    requires Framed(t, '[', ']') && (RfcBlanks(Inner(t)) || RfcElements(Inner(t)))
    ensures RfcRest(r, ']') && Printed(List(']', r)) == t
    decreases |t|, 0
  {
    if RfcBlanks(Inner(t)) { r := Close(Inner(t)); } else { r := ElementsTree(Inner(t)); }
    ListPrinted(t, ']', r);
  }

  lemma {:induction false} ObjectTree(t: string) returns (r: Rest)
    requires Framed(t, '{', '}') && (RfcBlanks(Inner(t)) || RfcMembers(Inner(t)))
    ensures RfcRest(r, '}') && Printed(List('}', r)) == t
    decreases |t|, 0
  {
    if RfcBlanks(Inner(t)) { r := Close(Inner(t)); } else { r := MembersTree(Inner(t)); }
    ListPrinted(t, '}', r);
  }

  lemma {:induction false} ElementTree(t: string) returns (i: Item)
    requires RfcElement(t)
    ensures RfcItem(i, ']') && ItemPrinted(i) == t
    decreases |t|, 2
  {
    hide RfcBlanks, RfcValueText, RfcValue, Printed;
    var a, b :| 0 <= a <= b <= |t| && RfcBlanks(t[..a]) && RfcValueText(t[a..b]) && RfcBlanks(t[b..]);
    var v := ValueTree(t[a..b]);
    i := Item(t[..a], None, v, t[b..]);
    assert "" + (t[a..b] + t[b..]) == t[a..];
    assert t == t[..a] + t[a..];
  }

  lemma {:induction false} MemberTree(t: string) returns (i: Item)
    requires RfcMember(t)
    ensures RfcItem(i, '}') && ItemPrinted(i) == t
    decreases |t|, 2
  {
    hide RfcBlanks, RfcElement, RfcString, RfcValue, Printed, PiecesShaped, Quoted;
    var a, b, c :|
      && 0 <= a <= b <= c < |t| && t[c] == ':'
      && RfcBlanks(t[..a]) && RfcString(t[a..b]) && RfcBlanks(t[b..c]) && RfcElement(t[c + 1..]);
    var name := StringTree(t[a..b]);
    var e := ElementTree(t[c + 1..]);
    i := Item(t[..a], Some(Label(name, t[b..c], e.pre)), e.value, e.post);
    MemberText(t, a, b, c, e);
  }

  lemma {:induction false} MemberText(t: string, a: nat, b: nat, c: nat, e: Item)
    requires a <= b <= c < |t| && t[c] == ':' && e.key.None? && ItemPrinted(e) == t[c + 1..]
    ensures t[..a] + ((t[a..b] + t[b..c] + [':'] + e.pre) + (Printed(e.value) + e.post)) == t
  {
    hide Printed;
    var rest := Printed(e.value) + e.post;
    assert "" + rest == rest;
    assert e.pre + rest == t[c + 1..];
    assert (t[a..b] + t[b..c] + [':'] + e.pre) + rest == t[a..b] + t[b..c] + [':'] + (e.pre + rest);
    assert t[a..] == t[a..b] + t[b..c] + [':'] + t[c + 1..];
    assert t == t[..a] + t[a..];
  }

  lemma {:induction false} ElementsTree(t: string) returns (r: Rest)
    requires RfcElements(t)
    ensures RfcRest(r, ']') && !r.Close? && RestPrinted(r, ']') == t + [']']
    decreases |t|, 3
  {
    hide RfcElement, RfcItem, ItemPrinted;
    if RfcElement(t) {
      var i := ElementTree(t);
      r := Last(i);
    } else {
      var k :| 0 <= k < |t| && t[k] == ',' && RfcElement(t[..k]) && RfcElements(t[k + 1..]);
      var i := ElementTree(t[..k]);
      var more := ElementsTree(t[k + 1..]);
      r := Then(i, more);
      CommaText(t, k, ']');
    }
  }

  lemma {:induction false} MembersTree(t: string) returns (r: Rest)
    requires RfcMembers(t)
    ensures RfcRest(r, '}') && !r.Close? && RestPrinted(r, '}') == t + ['}']
    decreases |t|, 3
  {
    hide RfcMember, RfcItem, ItemPrinted;
    if RfcMember(t) {
      var i := MemberTree(t);
      r := Last(i);
    } else {
      var k :| 0 <= k < |t| && t[k] == ',' && RfcMember(t[..k]) && RfcMembers(t[k + 1..]);
      var i := MemberTree(t[..k]);
      var more := MembersTree(t[k + 1..]);
      r := Then(i, more);
      CommaText(t, k, '}');
    }
  }

  lemma {:induction false} CommaText(t: string, k: nat, closer: char)
    requires k < |t| && t[k] == ','
    ensures t[..k] + ([','] + (t[k + 1..] + [closer])) == t + [closer]
  {
    assert t == t[..k] + ([','] + t[k + 1..]);
  }

  // ----- a tree with a literal that does not decode is refused -----

  lemma {:induction false} BadPiece(s: string, p: nat, x: Piece)
    requires At(s, p, PieceText(x)) && PieceShaped(x) && Meaning(x).None?
    ensures p < |s| && s[p] != '"' && PieceAt(s, p) == None
  {
    assert s[p] == PieceText(x)[0] && s[p + 1] == PieceText(x)[1];
    AtSplit(s, p, ['\\', 'u'], x.hex);
  }

  lemma {:induction false} BadPieces(s: string, p: nat, ps: seq<Piece>)
    requires At(s, p, PiecesText(ps) + ['"']) && PiecesShaped(ps) && !PiecesOk(ps)
    ensures p <= |s| && StringFrom(s, p) == None
    decreases |ps|
  {
    hide At, PieceText, Meaning, PieceShaped;
    AtSplit(s, p, PiecesText(ps), ['"']);
    AtBound(s, p, PiecesText(ps));
    AtSplit(s, p, PieceText(ps[0]), PiecesText(ps[1..]));
    AtSplit(s, p + |PieceText(ps[0])|, PiecesText(ps[1..]), ['"']);
    if Meaning(ps[0]).None? {
      BadPiece(s, p, ps[0]);
    } else {
      PieceRead(s, p, ps[0]);
      BadPieces(s, p + |PieceText(ps[0])|, ps[1..]);
    }
  }

  lemma {:induction false} BadQuoted(s: string, p: nat, ps: seq<Piece>)
    requires At(s, p, Quoted(ps)) && PiecesShaped(ps) && !PiecesOk(ps)
    ensures p < |s| && s[p] == '"' && StringFrom(s, p + 1) == None && Literal(s, p) == None
  {
    hide At, PiecesText, Quoted;
    QuotedAt(s, p, ps);
    AtChar(s, p, '"');
    BadPieces(s, p + 1, ps);
    SkipNone(s, p);
  }

  /** A value of the standard starts with a character that is neither a blank nor a closing bracket. */
  lemma {:induction false} HeadShaped(s: string, p: nat, v: Json)
    requires RfcValue(v) && At(s, p, Printed(v))
    ensures p < |s| && !Blank(s[p]) && s[p] !in {'}', ']'} && (s[p] == '{' <==> v.List? && v.closer == '}')
    ensures s[p] == '[' <==> v.List? && v.closer == ']'
    ensures s[p] == '"' <==> v.Text?
  {
    match v
    case Text(ps) =>
      hide Quoted, PiecesText;
      QuotedAt(s, p, ps);
      AtChar(s, p, '"');
    case Atom(t) =>
      AtomsOk(t);
      hide RfcNumber;
      AtIndex(s, p, t);
    case List(closer, r) =>
      AtSplit(s, p, [Opener(closer)], RestPrinted(r, closer));
      AtChar(s, p, Opener(closer));
  }

  lemma {:induction false} BadValue(s: string, p: nat, v: Json)
    requires p <= |s| && RfcValue(v) && !Decodes(v) && At(s, p, Printed(v))
    ensures ValueEnd(s, p) == None
    decreases v, 0
  {
    hide At, SkipBlanks, RestPrinted, Quoted, PiecesOk, PiecesShaped, RfcRest, RestDecodes, ListEnd, StringFrom;
    HeadShaped(s, p, v);
    SkipNone(s, p);
    match v
    case Text(ps) => BadQuoted(s, p, ps);
    case List(closer, r) =>
      AtSplit(s, p, [Opener(closer)], RestPrinted(r, closer));
      BadRest(s, p + 1, r, closer);
  }

  lemma {:induction false} BadRest(s: string, p: nat, r: Rest, closer: char)
    requires p <= |s| && closer in {'}', ']'} && RfcRest(r, closer) && !RestDecodes(r)
    requires At(s, p, RestPrinted(r, closer))
    ensures ListEnd(s, p, closer) == None
    decreases r, 2
  {
    hide At, ItemPrinted, ListEnd, RfcItem, ItemDecodes, ItemOk;
    match r
    case Last(i) =>
      AtSplit(s, p, ItemPrinted(i), [closer]);
      BadItem(s, p, i, closer);
    case Then(i, more) =>
      var n := p + |ItemPrinted(i)|;
      AtSplit(s, p, ItemPrinted(i), [','] + RestPrinted(more, closer));
      AtSplit(s, n, [','], RestPrinted(more, closer));
      AtChar(s, n, ',');
      if ItemDecodes(i) {
        ItemsOk(i, closer, false);
        ItemRead(s, p, i, closer, false);
        BadRest(s, n + 1, more, closer);
      } else {
        BadItem(s, p, i, closer);
      }
  }

  lemma {:induction false} BadItem(s: string, p: nat, i: Item, closer: char)
    requires p <= |s| && closer in {'}', ']'} && RfcItem(i, closer) && !ItemDecodes(i) && At(s, p, ItemPrinted(i))
    ensures ListEnd(s, p, closer) == None
    decreases i, 1
  {
    hide At, Printed, LabelText, SkipBlanks, LabelFrom, Decodes, RfcValue, PiecesOk, PiecesShaped, ValueEnd, RfcBlanks;
    ItemAt(s, p, i);
    var q := p + |i.pre|;
    var v := q + |LabelText(i.key)|;
    HeadShaped(s, v, i.value);
    BlanksAre(i.pre);
    match i.key
    case None =>
      NoLabel();
      SkipOver(s, p, i.pre);
      BadValue(s, v, i.value);
      BadStep(s, p, q, closer);
    case Some(l) =>
      LabelQuote(s, q, l);
      SkipOver(s, p, i.pre);
      if PiecesOk(l.name) {
        BlanksAre(l.beforeColon);
        BlanksAre(l.afterColon);
        StartPlaced(s, q, i.key, closer);
        BadValue(s, v, i.value);
        SkipTwice(s, ItemStart(s, q, closer).value);
        BadStep(s, p, q, closer);
      } else {
        LabelAt(s, q, l);
        BadQuoted(s, q, l.name);
        BadLabel(s, p, q, closer);
      }
  }

  lemma {:induction false} BlanksAre(t: string)
    requires RfcBlanks(t)
    ensures Blanks(t)
  {
  }

  lemma {:induction false} LabelQuote(s: string, q: nat, l: Label)
    requires At(s, q, LabelText(Some(l)))
    ensures q < |s| && s[q] == '"' && !Blank(s[q])
  {
    hide At, Quoted, PiecesText;
    LabelAt(s, q, l);
    QuotedAt(s, q, l.name);
    AtChar(s, q, '"');
  }

  lemma {:induction false} BadStep(s: string, p: nat, q: nat, closer: char)
    requires p <= |s| && q == SkipBlanks(s, p) && q < |s| && s[q] != closer
    requires ItemStart(s, q, closer).Some? && ValueEnd(s, ItemStart(s, q, closer).value) == None
    ensures ListEnd(s, p, closer) == None
  {
    hide SkipBlanks, ItemStart, ValueEnd;
  }

  lemma {:induction false} BadLabel(s: string, p: nat, q: nat, closer: char)
    requires p <= |s| && q == SkipBlanks(s, p) && q < |s| && s[q] != closer && closer == '}'
    requires Literal(s, q) == None
    ensures ListEnd(s, p, closer) == None
  {
    hide SkipBlanks, Literal, ValueEnd;
  }

  // ----- the standard and the reader -----

  /** A document that keeps the rules prints to a text of the standard. */
  lemma {:induction false} DocPrints(d: Doc)
    requires RfcDoc(d)
    ensures RfcText(DocText(d))
  {
    hide RfcBlanks, RfcValueText, RfcRest, Printed;
    ValuePrints(List('}', d.members));
    ElementIs(d.before, Printed(List('}', d.members)), d.after);
  }

  /** What an item with no label is, seen as a document. */
  lemma {:induction false} ItemIsDoc(i: Item, r: Rest)
    requires RfcItem(i, ']') && i.value == List('}', r)
    ensures var d := Doc(i.pre, r, i.post);
      DocText(d) == ItemPrinted(i) && RfcDoc(d) && (DocOk(d) <==> Decodes(i.value))
  {
    hide RfcBlanks, Printed, RfcRest;
    NoLabel();
    assert "" + (Printed(i.value) + i.post) == Printed(i.value) + i.post;
    BlanksAre(i.pre);
    BlanksAre(i.post);
    ValueOk(i.value);
  }

  /** Where the value of a text of the standard stands, and what it starts with. */
  lemma {:induction false} TextHead(s: string, i: Item)
    requires RfcItem(i, ']') && ItemPrinted(i) == s
    ensures SkipBlanks(s, 0) == |i.pre| < |s| && At(s, |i.pre|, Printed(i.value))
    ensures s[|i.pre|] == '{' <==> i.value.List? && i.value.closer == '}'
  {
    hide At, Printed, RfcBlanks, RfcValue, SkipBlanks;
    Everywhere(s);
    ItemAt(s, 0, i);
    NoLabel();
    HeadShaped(s, |i.pre|, i.value);
    BlanksAre(i.pre);
    SkipOver(s, 0, i.pre);
  }

  lemma {:induction false} Everywhere(s: string)
    ensures At(s, 0, s)
  {
    assert s[0..|s|] == s;
  }

  /** The reader refuses a text of the standard whose literals do not all decode. */
  lemma {:induction false} BadText(env: Env, s: string, i: Item)
    requires RfcItem(i, ']') && ItemPrinted(i) == s && i.value.List? && i.value.closer == '}' && !Decodes(i.value)
    ensures ConfigOf(env, s) == None && ValueEnd(s, |i.pre|) == None
  {
    hide At, Printed, RfcBlanks, RfcValue, SkipBlanks, Decodes, FieldsFrom, ItemPrinted;
    TextHead(s, i);
    BadValue(s, |i.pre|, i.value);
    if FieldsFrom(env, Start(env), s, |i.pre| + 1).Some? { FieldsAreList(env, Start(env), s, |i.pre| + 1); }
    SkipNone(s, |i.pre|);
  }

  /**
   Which texts of RFC 8259 the reader accepts: those that are an object without
   an escape of a surrogate in any literal, and whose members have a meaning.
   */
  lemma {:induction false} RfcRead(env: Env, s: string) returns (i: Item)
    requires RfcText(s)
    ensures RfcItem(i, ']') && ItemPrinted(i) == s
    ensures if i.value.List? && i.value.closer == '}' && Decodes(i.value)
      then ConfigOf(env, s) == DocMeaning(env, Doc(i.pre, i.value.rest, i.post))
      else ConfigOf(env, s) == None
  {
    hide RfcElement, RfcItem, ItemPrinted, Decodes, DocMeaning, FieldsFrom;
    i := ElementTree(s);
    if i.value.List? && i.value.closer == '}' {
      if Decodes(i.value) {
        ItemIsDoc(i, i.value.rest);
        DocRead(env, Doc(i.pre, i.value.rest, i.post));
      } else {
        BadText(env, s, i);
      }
    } else {
      TextHead(s, i);
    }
  }

  /** What is accepted is a text of the standard exactly when its one tree keeps the rules. */
  lemma {:induction false} RfcIff(d: Doc)
    requires DocOk(d)
    ensures RfcText(DocText(d)) <==> RfcDoc(d)
  {
    hide RfcElement, RfcItem, ItemPrinted, Decodes, RfcDoc, DocText, DocOk;
    if RfcDoc(d) { DocPrints(d); }
    if RfcText(DocText(d)) {
      var i := ElementTree(DocText(d));
      SameDoc(d, i);
    }
  }

  lemma {:induction false} SameDoc(d: Doc, i: Item)
    requires DocOk(d) && RfcItem(i, ']') && ItemPrinted(i) == DocText(d)
    ensures RfcDoc(d)
  {
    hide RfcItem, ItemPrinted, Decodes, RfcDoc, DocText, DocOk, At, Printed, SkipBlanks, ValueAt, ValueEnd;
    var s := DocText(d);
    TextHead(s, i);
    DocStart(s, d);
    ObjectHead(s, d);
    var r := i.value.rest;
    ItemIsDoc(i, r);
    ReadsOn(s, d);
    if !Decodes(i.value) { BadText(Env(""), s, i); } else { DocUnique(Doc(i.pre, r, i.post), d); }
  }

  lemma {:induction false} ObjectHead(s: string, d: Doc)
    requires DocOk(d) && s == DocText(d)
    ensures SkipBlanks(s, 0) < |s| && s[SkipBlanks(s, 0)] == '{'
  {
    hide DocOk, DocText, At, Printed, SkipBlanks, RestAt;
    DocStart(s, d);
    var p, v := |d.before|, List('}', d.members);
    ListAt(s, p, '}', d.members, p + |Printed(v)|);
    AtChar(s, p, '{');
  }

  lemma {:induction false} ReadsOn(s: string, d: Doc)
    requires DocOk(d) && s == DocText(d)
    ensures SkipBlanks(s, 0) <= |s| && ValueEnd(s, SkipBlanks(s, 0)).Some?
  {
    hide DocOk, DocText, ValueAt, ValueEnd, SkipBlanks;
    DocStart(s, d);
    ValueRead(s, |d.before|, List('}', d.members), |d.before| + |Printed(List('}', d.members))|);
  }

  // ----- examples -----

  /** The object with the one member "a", 1, and a comma behind it. */
  function Trailing(): Doc {
    Doc("", Then(Item("", Some(Label([Plain('a')], "", "")), Atom("1"), ""), Close("")), "")
  }

  lemma {:induction false} NameText()
    ensures Quoted([Plain('a')]) == ['"', 'a', '"'] && Decoded([Plain('a')]) == "a" && PiecesOk([Plain('a')])
  {
    var name := [Plain('a')];
    assert name[1..] == [] && PiecesText(name) == "a" + "";
    assert Decoded(name) == "a" + "";
  }

  lemma {:induction false} TrailingText()
    ensures DocOk(Trailing()) && DocText(Trailing()) == "{\"a\":1,}"
    ensures FieldsOf(Trailing().members) == [Field("a", Atom("1"))]
  {
    NameText();
    hide Quoted, Decoded, PiecesText, PiecesOk;
    var i := Trailing().members.item;
    assert LabelText(i.key) == ['"', 'a', '"', ':'];
    assert ItemPrinted(i) == ['"', 'a', '"', ':', '1'];
    hide ItemPrinted, LabelText;
    assert RestPrinted(Close(""), '}') == ['}'];
    assert RestPrinted(Trailing().members, '}') == ['"', 'a', '"', ':', '1', ',', '}'];
    assert Printed(List('}', Trailing().members)) == ['{', '"', 'a', '"', ':', '1', ',', '}'];
    hide RestPrinted, Printed;
    assert FieldsOf(Trailing().members) == [Field("a", Atom("1"))] + [];
  }

  /** RFC 8259 does not allow this text; the reader takes it, and reads the default configuration from it. */
  lemma {:induction false} TrailingCommaExample(env: Env)
    ensures !RfcText("{\"a\":1,}")
    ensures !Recognised(env.platform, "a") ==> ConfigOf(env, "{\"a\":1,}") == Some(Start(env).config)
  {
    TrailingText();
    RfcIff(Trailing());
    DocRead(env, Trailing());
    if !Recognised(env.platform, "a") {
      FieldIgnored(env, [], 0, Field("a", Atom("1")));
      assert [][..0] + ([Field("a", Atom("1"))] + [][0..]) == [Field("a", Atom("1"))];
    }
  }

  /** The object with the one member "a", the escape of a surrogate. */
  function Surrogate(): Doc {
    Doc("", Last(Item("", Some(Label([Plain('a')], "", "")), Text([Unicode("D800")]), "")), "")
  }

  lemma {:induction false} SurrogateIs()
    ensures PieceShaped(Unicode("D800")) && Meaning(Unicode("D800")) == None
  {
    var hex := "D800";
    assert hex[..3] == "D80" && hex[..3][..2] == "D8" && hex[..3][..2][..1] == "D" && hex[..3][..2][..1][..0] == "";
    assert HexValue("") == Some(0) && HexValue("D") == Some(13) && HexValue("D8") == Some(216);
    assert HexValue("D80") == Some(3456) && HexValue(hex) == Some(55296);
  }

  /** RFC 8259 allows this text; the reader refuses it. */
  lemma {:induction false} SurrogateExample(env: Env)
    ensures RfcText(DocText(Surrogate())) && ConfigOf(env, DocText(Surrogate())) == None
  {
    hide RfcText, ConfigOf, HexValue;
    SurrogateIs();
    var d := Surrogate();
    var i := Item("", None, List('}', d.members), "");
    assert PiecesShaped([Unicode("D800")]) && PiecesShaped([Plain('a')]);
    assert RfcItem(d.members.item, '}');
    assert Meaning([Unicode("D800")][0]) == None;
    assert RfcItem(i, ']') && !PiecesOk([Unicode("D800")]);
    ItemIsDoc(i, d.members);
    DocPrints(d);
    BadText(env, DocText(d), i);
  }
}
