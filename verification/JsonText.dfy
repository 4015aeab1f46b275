/**
 The text of the plugin configuration: the values its reader accepts, as
 trees that print to exactly the characters read, white space included.
 The reader accepts more than RFC 8259: a comma may end a list, and any run
 of other characters, even an empty one, stands where a number could.
 */
module JsonText {
  import opened Common

  predicate Blank(c: char) { c in {' ', '\t', '\n', '\r', '\U{000C}'} }

  predicate Delimiter(c: char) { c in {',', '}', ']'} }

  predicate Blanks(t: string) { forall i :: 0 <= i < |t| ==> Blank(t[i]) }

  // ----- string literals -----

  /** One character of a string literal, as written. */
  datatype Piece = Plain(c: char) | Escape(c: char) | Unicode(hex: string)

  function HexDigit(c: char): Option<nat> {
    if '0' <= c <= '9' then Some(c as nat - '0' as nat)
    else if 'a' <= c <= 'f' then Some(c as nat - 'a' as nat + 10)
    else if 'A' <= c <= 'F' then Some(c as nat - 'A' as nat + 10)
    else None
  }

  function HexValue(hex: string): Option<nat> {
    if hex == "" then Some(0)
    else
      var n := |hex| - 1;
      match (HexValue(hex[..n]), HexDigit(hex[n]))
      case (Some(base), Some(digit)) => Some(16 * base + digit)
      case (_, _) => None
  }

  /** The character a code of at most four digits stands for: surrogates are none. */
  function CodeChar(value: nat): Option<char> {
    if value < 0xD800 || 0xE000 <= value < 0x1_0000 then Some(value as char) else None
  }

  function Escaped(c: char): Option<char> {
    match c
    case '"' => Some('"')
    case '\\' => Some('\\')
    case '/' => Some('/')
    case 'b' => Some('\U{0008}')
    case 'f' => Some('\U{000C}')
    case 'n' => Some('\n')
    case 'r' => Some('\r')
    case 't' => Some('\t')
    case _ => None
  }

  /** The character that the piece stands for, if it is one. */
  function Meaning(p: Piece): Option<char> {
    match p
    case Plain(c) => if c < ' ' || c == '"' || c == '\\' then None else Some(c)
    case Escape(c) => Escaped(c)
    case Unicode(hex) =>
      if |hex| != 4 || HexValue(hex).None? then None else CodeChar(HexValue(hex).value)
  }

  function PieceText(p: Piece): string {
    match p
    case Plain(c) => [c]
    case Escape(c) => ['\\', c]
    case Unicode(hex) => ['\\', 'u'] + hex
  }

  predicate PiecesOk(ps: seq<Piece>) { forall i :: 0 <= i < |ps| ==> Meaning(ps[i]).Some? }

  function Decoded(ps: seq<Piece>): (r: string)
    requires PiecesOk(ps)
    ensures |r| == |ps|
  {
    if ps == [] then "" else [Meaning(ps[0]).value] + Decoded(ps[1..])
  }

  function PiecesText(ps: seq<Piece>): string {
    if ps == [] then "" else PieceText(ps[0]) + PiecesText(ps[1..])
  }

  function Quoted(ps: seq<Piece>): string { ['"'] + PiecesText(ps) + ['"'] }

  // ----- values -----

  /** `List` is an array or an object, by its closing bracket; only members of objects have labels. */
  datatype Json = Text(pieces: seq<Piece>) | Atom(chars: string) | List(closer: char, rest: Rest)

  datatype Rest = Close(pre: string) | Last(item: Item) | Then(item: Item, rest: Rest)

  datatype Item = Item(pre: string, key: Option<Label>, value: Json, post: string)

  datatype Label = Label(name: seq<Piece>, beforeColon: string, afterColon: string)

  function Opener(closer: char): char { if closer == '}' then '{' else '[' }

  function LabelText(l: Option<Label>): string {
    match l
    case None => ""
    case Some(l) => Quoted(l.name) + l.beforeColon + [':'] + l.afterColon
  }

  function Printed(v: Json): string {
    match v
    case Text(ps) => Quoted(ps)
    case Atom(chars) => chars
    case List(closer, rest) => [Opener(closer)] + RestPrinted(rest, closer)
  }

  function ItemPrinted(i: Item): string {
    i.pre + (LabelText(i.key) + (Printed(i.value) + i.post))
  }

  function RestPrinted(r: Rest, closer: char): string {
    match r
    case Close(pre) => pre + [closer]
    case Last(i) => ItemPrinted(i) + [closer]
    case Then(i, more) => ItemPrinted(i) + ([','] + RestPrinted(more, closer))
  }

  predicate AtomOk(t: string) {
    && (forall i :: 0 <= i < |t| ==> !Delimiter(t[i]) && !Blank(t[i]))
    && (t != "" ==> t[0] !in {'"', '{', '['})
  }

  predicate LabelOk(l: Label) { PiecesOk(l.name) && Blanks(l.beforeColon) && Blanks(l.afterColon) }

  predicate JsonOk(v: Json) {
    match v
    case Text(ps) => PiecesOk(ps)
    case Atom(t) => AtomOk(t)
    case List(closer, rest) => closer in {'}', ']'} && RestOk(rest, closer)
  }

  predicate ItemOk(i: Item, closer: char, last: bool) {
    && Blanks(i.pre) && Blanks(i.post) && JsonOk(i.value)
    && (i.key.Some? <==> closer == '}') && (i.key.Some? ==> LabelOk(i.key.value))
    && (i.value == Atom("") ==> i.post == "" && !(last && closer == ']'))
  }

  predicate RestOk(r: Rest, closer: char) {
    match r
    case Close(pre) => Blanks(pre)
    case Last(i) => ItemOk(i, closer, true)
    case Then(i, more) => ItemOk(i, closer, false) && RestOk(more, closer)
  }

  /** The text `t` stands in `s` at `p`. */
  ghost predicate At(s: string, p: nat, t: string) {
    p + |t| <= |s| && s[p..p + |t|] == t
  }

  /** An atom goes on up to a delimiter or a blank; an empty one needs a delimiter. */
  predicate Ends(s: string, e: nat, v: Json) {
    v.Atom? ==> if e < |s| then Delimiter(s[e]) || (v.chars != "" && Blank(s[e])) else v.chars != ""
  }

  /** The text `p..e` of `s` is the value `v`. */
  ghost predicate ValueAt(s: string, p: nat, v: Json, e: nat) {
    JsonOk(v) && At(s, p, Printed(v)) && e == p + |Printed(v)| && Ends(s, e, v)
  }

  ghost predicate RestAt(s: string, p: nat, r: Rest, closer: char, e: nat) {
    RestOk(r, closer) && At(s, p, RestPrinted(r, closer)) && e == p + |RestPrinted(r, closer)|
  }

  lemma {:induction false} AtSplit(s: string, p: nat, a: string, b: string)
    ensures At(s, p, a + b) <==> At(s, p, a) && At(s, p + |a|, b)
    ensures At(s, p, a + b) ==> p + |a| + |b| <= |s|
  {
    if At(s, p, a + b) {
      assert s[p..p + |a|] == s[p..p + |a + b|][..|a|];
      assert s[p + |a|..p + |a| + |b|] == s[p..p + |a + b|][|a|..];
    }
    if At(s, p, a) && At(s, p + |a|, b) {
      assert s[p..p + |a + b|] == s[p..p + |a|] + s[p + |a|..p + |a| + |b|];
    }
  }

  lemma {:induction false} QuotedAt(s: string, p: nat, ps: seq<Piece>)
    ensures At(s, p, Quoted(ps)) <==> At(s, p, ['"']) && At(s, p + 1, PiecesText(ps) + ['"'])
    ensures |Quoted(ps)| == |PiecesText(ps)| + 2
  {
    hide At;
    assert Quoted(ps) == ['"'] + (PiecesText(ps) + ['"']);
    AtSplit(s, p, ['"'], PiecesText(ps) + ['"']);
  }

  /** Where the parts of a printed label stand. */
  lemma {:induction false} LabelAt(s: string, p: nat, l: Label)
    ensures At(s, p, LabelText(Some(l))) <==>
      var a := p + |Quoted(l.name)|;
      var b := a + |l.beforeColon|;
      At(s, p, Quoted(l.name)) && At(s, a, l.beforeColon) && At(s, b, [':']) && At(s, b + 1, l.afterColon)
    ensures |LabelText(Some(l))| == |Quoted(l.name)| + |l.beforeColon| + 1 + |l.afterColon|
  {
    hide At, Quoted;
    var q := Quoted(l.name);
    AtSplit(s, p, q + l.beforeColon + [':'], l.afterColon);
    AtSplit(s, p, q + l.beforeColon, [':']);
    AtSplit(s, p, q, l.beforeColon);
  }

  /** Where the parts of a printed item stand. */
  lemma {:induction false} ItemAt(s: string, p: nat, i: Item)
    ensures At(s, p, ItemPrinted(i)) <==>
      var q := p + |i.pre|;
      var v := q + |LabelText(i.key)|;
      At(s, p, i.pre) && At(s, q, LabelText(i.key)) && At(s, v, Printed(i.value))
        && At(s, v + |Printed(i.value)|, i.post)
    ensures |ItemPrinted(i)| == |i.pre| + |LabelText(i.key)| + |Printed(i.value)| + |i.post|
  {
    hide At, LabelText, Printed;
    var l, t := LabelText(i.key), Printed(i.value);
    AtSplit(s, p, i.pre, l + (t + i.post));
    AtSplit(s, p + |i.pre|, l, t + i.post);
    AtSplit(s, p + |i.pre| + |l|, t, i.post);
  }

  lemma {:induction false} CloseAt(s: string, p: nat, pre: string, closer: char, e: nat)
    ensures RestAt(s, p, Close(pre), closer, e) <==>
      Blanks(pre) && At(s, p, pre) && At(s, p + |pre|, [closer]) && e == p + |pre| + 1
  {
    hide At, Blanks;
    AtSplit(s, p, pre, [closer]);
  }

  lemma {:induction false} LastAt(s: string, p: nat, i: Item, closer: char, e: nat)
    ensures RestAt(s, p, Last(i), closer, e) <==>
      var n := p + |ItemPrinted(i)|;
      ItemOk(i, closer, true) && At(s, p, ItemPrinted(i)) && At(s, n, [closer]) && e == n + 1
  {
    hide ItemOk, ItemPrinted, At;
    AtSplit(s, p, ItemPrinted(i), [closer]);
  }

  lemma {:induction false} ThenAt(s: string, p: nat, i: Item, more: Rest, closer: char, e: nat)
    ensures RestAt(s, p, Then(i, more), closer, e) <==>
      var n := p + |ItemPrinted(i)|;
      ItemOk(i, closer, false) && At(s, p, ItemPrinted(i)) && At(s, n, [',']) && RestAt(s, n + 1, more, closer, e)
  {
    hide ItemOk, ItemPrinted, At;
    AtSplit(s, p + |ItemPrinted(i)|, [','], RestPrinted(more, closer));
    AtSplit(s, p, ItemPrinted(i), [','] + RestPrinted(more, closer));
  }

  lemma {:induction false} ListAt(s: string, p: nat, closer: char, r: Rest, e: nat)
    ensures ValueAt(s, p, List(closer, r), e) <==>
      closer in {'}', ']'} && At(s, p, [Opener(closer)]) && RestAt(s, p + 1, r, closer, e)
  {
    hide At, RestOk, RestPrinted;
    AtSplit(s, p, [Opener(closer)], RestPrinted(r, closer));
  }

  lemma {:induction false} AtBound(s: string, p: nat, t: string)
    requires At(s, p, t)
    ensures p + |t| <= |s|
  {
  }

  lemma {:induction false} AtChar(s: string, p: nat, c: char)
    ensures At(s, p, [c]) <==> p < |s| && s[p] == c
  {
    if p < |s| { assert s[p..p + 1] == [s[p]]; }
  }

  // ----- writing a literal -----

  function HexChar(d: nat): char
    requires d < 16
  {
    if d < 10 then ('0' as nat + d) as char else ('a' as nat + d - 10) as char
  }

  /** The usual way to write a character: escaped where the reader demands it. */
  function PieceFor(c: char): Piece {
    if c == '"' || c == '\\' then Escape(c)
    else if c < ' ' then Unicode(['0', '0', HexChar(c as nat / 16), HexChar(c as nat % 16)])
    else Plain(c)
  }

  function Pieces(t: string): (r: seq<Piece>)
    ensures |r| == |t|
  {
    seq(|t|, i requires 0 <= i < |t| => PieceFor(t[i]))
  }

  lemma {:induction false} PieceForMeans(c: char)
    ensures Meaning(PieceFor(c)) == Some(c)
  {
    if c < ' ' && c != '"' && c != '\\' {
      var hi, lo := c as nat / 16, c as nat % 16;
      var hex := ['0', '0', HexChar(hi), HexChar(lo)];
      assert hex[..3] == ['0', '0', HexChar(hi)] && hex[..3][..2] == ['0', '0'] && hex[..3][..2][..1] == ['0'];
      assert HexValue(hex[..3][..2]) == Some(0) by {
        assert HexValue(['0'][..0]) == Some(0);
        assert HexValue(['0']) == Some(0);
      }
      assert HexValue(hex[..3]) == Some(hi);
      assert HexValue(hex) == Some(16 * hi + lo);
    }
  }

  /** Every text can be written as a literal that means it. */
  lemma {:induction false} PiecesMean(t: string)
    ensures PiecesOk(Pieces(t)) && Decoded(Pieces(t)) == t
  {
    if t != "" {
      PiecesMean(t[1..]);
      PieceForMeans(t[0]);
      assert Pieces(t) == [PieceFor(t[0])] + Pieces(t[1..]);
      assert Pieces(t)[1..] == Pieces(t[1..]);
      forall i | 0 <= i < |t| ensures Meaning(Pieces(t)[i]).Some? { PieceForMeans(t[i]); }
    }
  }
}
