/** What the configuration reader does at each position of its input, and that it reads exactly the values. */
module JsonSpec {
  import opened Common
  import opened JsonText

  function SkipBlanks(s: string, p: nat): (r: nat)
    requires p <= |s|
    ensures p <= r <= |s| && (forall i :: p <= i < r ==> Blank(s[i])) && (r < |s| ==> !Blank(s[r]))
    decreases |s| - p
  {
    if p < |s| && Blank(s[p]) then
      SkipBlanks(s, p + 1)
    else p
  }

  function HexAt(s: string, p: nat): Option<char> {
    if p + 4 > |s| || HexValue(s[p..p + 4]).None? then None else CodeChar(HexValue(s[p..p + 4]).value)
  }

  /** The piece of a literal at `p`: its meaning and the position behind it. */
  function PieceAt(s: string, p: nat): (r: Option<(char, nat)>)
    requires p < |s|
    ensures r.Some? ==> p < r.value.1 <= |s|
  {
    if s[p] == '"' || s[p] < ' ' then None
    else if s[p] != '\\' then Some((s[p], p + 1))
    else if p + 1 == |s| then None
    else if s[p + 1] == 'u' then
      match HexAt(s, p + 2) case Some(c) => Some((c, p + 6)) case None => None
    else
      match Escaped(s[p + 1]) case Some(c) => Some((c, p + 2)) case None => None
  }

  /** The text and the end of a literal whose opening quote has been read. */
  function StringFrom(s: string, p: nat): (r: Option<(string, nat)>)
    requires p <= |s|
    ensures r.Some? ==> p < r.value.1 <= |s|
    decreases |s| - p
  {
    if p == |s| then None
    else if s[p] == '"' then Some(("", p + 1))
    else
      match PieceAt(s, p)
      case None => None
      case Some((c, e)) =>
        match StringFrom(s, e)
        case None => None
        case Some((rest, end)) => Some(([c] + rest, end))
  }

  function Literal(s: string, p: nat): (r: Option<(string, nat)>)
    requires p <= |s|
    ensures r.Some? ==> p < r.value.1 <= |s|
  {
    var q := SkipBlanks(s, p);
    if q < |s| && s[q] == '"' then StringFrom(s, q + 1) else None
  }

  /** A member's name and the position behind its colon. */
  function LabelFrom(s: string, p: nat): (r: Option<(string, nat)>)
    requires p <= |s|
    ensures r.Some? ==> p < r.value.1 <= |s|
  {
    match Literal(s, p)
    case None => None
    case Some((name, e)) =>
      var q := SkipBlanks(s, e);
      if q < |s| && s[q] == ':' then Some((name, q + 1)) else None
  }

  function AtomEnd(s: string, p: nat): (r: nat)
    requires p <= |s|
    ensures p <= r <= |s| && (forall i :: p <= i < r ==> !Delimiter(s[i]) && !Blank(s[i]))
    ensures r < |s| ==> Delimiter(s[r]) || Blank(s[r])
    decreases |s| - p
  {
    if p == |s| || Delimiter(s[p]) || Blank(s[p]) then p else AtomEnd(s, p + 1)
  }

  /** Where an item's value starts, behind its label if the list has labels. */
  function ItemStart(s: string, p: nat, closer: char): (r: Option<nat>)
    requires p <= |s|
    ensures r.Some? ==> p <= r.value <= |s|
  {
    if closer != '}' then Some(p)
    else match LabelFrom(s, p) case Some((_, e)) => Some(e) case None => None
  }

  function ValueEnd(s: string, p: nat): (r: Option<nat>)
    requires p <= |s|
    ensures r.Some? ==> SkipBlanks(s, p) <= r.value <= |s|
    decreases |s| - p, 0
  {
    var q := SkipBlanks(s, p);
    if q == |s| then None
    else if s[q] == '"' then match StringFrom(s, q + 1) case Some((_, e)) => Some(e) case None => None
    else if s[q] == '{' then ListEnd(s, q + 1, '}')
    else if s[q] == '[' then ListEnd(s, q + 1, ']')
    else Some(AtomEnd(s, q))
  }

  function ListEnd(s: string, p: nat, closer: char): (r: Option<nat>)
    requires p <= |s|
    ensures r.Some? ==> p < r.value <= |s|
    decreases |s| - p, 1
  {
    var q := SkipBlanks(s, p);
    if q < |s| && s[q] == closer then Some(q + 1)
    else
      match ItemStart(s, q, closer)
      case None => None
      case Some(v) =>
        match ValueEnd(s, v)
        case None => None
        case Some(e) =>
          var n := SkipBlanks(s, e);
          if n == |s| then None
          else if s[n] == ',' then ListEnd(s, n + 1, closer)
          else if s[n] == closer then Some(n + 1)
          else None
  }

  // ----- every printed value is read, to its end -----

  lemma {:induction false} SkipOver(s: string, p: nat, t: string)
    requires At(s, p, t) && Blanks(t) && (p + |t| < |s| ==> !Blank(s[p + |t|]))
    ensures SkipBlanks(s, p) == p + |t|
  {
    hide SkipBlanks;
    AtIndex(s, p, t);
    assert forall i :: p <= i < p + |t| ==> Blank(s[i]);
  }

  lemma {:induction false} AtIndex(s: string, p: nat, t: string)
    requires At(s, p, t)
    ensures forall i :: p <= i < p + |t| ==> s[i] == t[i - p]
  {
    assert forall i :: 0 <= i < |t| ==> s[p..p + |t|][i] == t[i];
  }

  lemma {:induction false} PieceRead(s: string, p: nat, x: Piece)
    requires At(s, p, PieceText(x)) && Meaning(x).Some?
    ensures p < |s| && s[p] != '"' && PieceAt(s, p) == Some((Meaning(x).value, p + |PieceText(x)|))
  {
    assert s[p] == PieceText(x)[0];
    match x
    case Plain(_) =>
    case Escape(_) => assert s[p + 1] == PieceText(x)[1];
    case Unicode(hex) =>
      assert s[p + 1] == PieceText(x)[1];
      AtSplit(s, p, ['\\', 'u'], hex);
  }

  lemma {:induction false} PiecesRead(s: string, p: nat, ps: seq<Piece>)
    requires At(s, p, PiecesText(ps) + ['"']) && PiecesOk(ps)
    ensures p + |PiecesText(ps)| + 1 <= |s|
    ensures StringFrom(s, p) == Some((Decoded(ps), p + |PiecesText(ps)| + 1))
    decreases |ps|
  {
    hide At, PieceText, Meaning;
    AtSplit(s, p, PiecesText(ps), ['"']);
    AtChar(s, p + |PiecesText(ps)|, '"');
    if ps != [] {
      AtSplit(s, p, PieceText(ps[0]), PiecesText(ps[1..]));
      PieceRead(s, p, ps[0]);
      AtSplit(s, p + |PieceText(ps[0])|, PiecesText(ps[1..]), ['"']);
      PiecesRead(s, p + |PieceText(ps[0])|, ps[1..]);
    }
  }

  /** A printed literal is read back to the text it means. */
  lemma {:induction false} QuotedRead(s: string, p: nat, ps: seq<Piece>)
    requires At(s, p, Quoted(ps)) && PiecesOk(ps)
    ensures p < |s| && s[p] == '"' && p + |Quoted(ps)| <= |s|
    ensures StringFrom(s, p + 1) == Some((Decoded(ps), p + |Quoted(ps)|))
    ensures Literal(s, p) == Some((Decoded(ps), p + |Quoted(ps)|))
  {
    hide Decoded, At, PiecesText, Quoted;
    QuotedAt(s, p, ps);
    AtChar(s, p, '"');
    PiecesRead(s, p + 1, ps);
    SkipNone(s, p);
  }

  lemma {:induction false} LabelRead(s: string, p: nat, l: Label)
    requires At(s, p, LabelText(Some(l))) && LabelOk(l)
    ensures p < |s| && s[p] == '"'
    ensures p + |LabelText(Some(l))| <= |s|
    ensures At(s, p + |LabelText(Some(l))| - |l.afterColon|, l.afterColon)
    ensures LabelFrom(s, p) == Some((Decoded(l.name), p + |LabelText(Some(l))| - |l.afterColon|))
  {
    hide At, Decoded, Quoted, LabelText, SkipBlanks, Blanks, PiecesOk;
    LabelAt(s, p, l);
    var e := p + |Quoted(l.name)|;
    AtChar(s, e + |l.beforeColon|, ':');
    AtBound(s, p, LabelText(Some(l)));
    QuotedRead(s, p, l.name);
    SkipOver(s, e, l.beforeColon);
  }

  lemma {:induction false} AtomRead(s: string, p: nat, t: string)
    requires At(s, p, t) && AtomOk(t) && Ends(s, p + |t|, Atom(t))
    ensures AtomEnd(s, p) == p + |t| && p < |s| && SkipBlanks(s, p) == p && s[p] !in {'"', '{', '['}
    ensures t != "" ==> !Delimiter(s[p])
    ensures t == "" ==> Delimiter(s[p])
  {
    if t != "" { assert s[p] == t[0]; }
    hide AtomEnd;
    AtIndex(s, p, t);
    assert forall i :: p <= i < p + |t| ==> !Delimiter(s[i]) && !Blank(s[i]);
    SkipOver(s, p, "");
  }

  /** A printed value starts with neither a blank nor, unless it is empty, a delimiter. */
  lemma {:induction false} ValueHead(s: string, p: nat, v: Json, e: nat)
    requires ValueAt(s, p, v, e)
    ensures p < |s| && !Blank(s[p])
    ensures v != Atom("") ==> !Delimiter(s[p])
    ensures v == Atom("") ==> e == p && Delimiter(s[p])
  {
    match v
    case Text(ps) => QuotedRead(s, p, ps);
    case Atom(t) => AtomRead(s, p, t);
    case List(closer, rest) =>
      ListAt(s, p, closer, rest, e);
      AtChar(s, p, Opener(closer));
  }

  /** The reader reads a printed value exactly. */
  lemma {:induction false} ValueRead(s: string, p: nat, v: Json, e: nat)
    requires p <= |s| && ValueAt(s, p, v, e)
    ensures ValueEnd(s, p) == Some(e)
    decreases v, 0
  {
    hide At, SkipBlanks, RestAt, RestPrinted, RestOk, ListEnd, StringFrom, AtomEnd, Quoted, PiecesOk, Decoded;
    ValueHead(s, p, v, e);
    SkipNone(s, p);
    match v
    case Text(ps) => QuotedRead(s, p, ps);
    case Atom(t) => AtomRead(s, p, t);
    case List(closer, rest) =>
      ListAt(s, p, closer, rest, e);
      AtChar(s, p, Opener(closer));
      RestRead(s, p + 1, rest, closer, e);
  }

  /** What stands where, in a printed item. */
  ghost predicate ItemPlaced(s: string, p: nat, i: Item, v: nat, e: nat, n: nat) {
    && p + |i.pre| <= |s| && SkipBlanks(s, p) == p + |i.pre|
    && v == p + |i.pre| + |LabelText(i.key)| && ValueAt(s, v, i.value, e)
    && n == e + |i.post| == p + |ItemPrinted(i)| < |s| && SkipBlanks(s, e) == n
  }

  /** Behind its label and blanks, if it has them, the value starts. */
  lemma {:induction false} StartPlaced(s: string, q: nat, key: Option<Label>, closer: char)
    requires (key.Some? <==> closer == '}') && (key.Some? ==> LabelOk(key.value)) && At(s, q, LabelText(key))
    requires q + |LabelText(key)| < |s| && !Blank(s[q + |LabelText(key)|])
    ensures ItemStart(s, q, closer).Some?
    ensures SkipBlanks(s, ItemStart(s, q, closer).value) == q + |LabelText(key)|
    ensures key.Some? ==> s[q] == '"'
    ensures key.Some? ==> LabelFrom(s, q) == Some((Decoded(key.value.name), ItemStart(s, q, closer).value))
  {
    hide At, LabelOk, LabelText, LabelFrom, Decoded, SkipBlanks;
    var v := q + |LabelText(key)|;
    match key
    case Some(l) =>
      LabelRead(s, q, l);
      LabelBlanks(l);
      SkipOver(s, v - |l.afterColon|, l.afterColon);
    case None =>
      NoLabel();
      SkipNone(s, v);
  }

  lemma {:induction false} NoLabel()
    ensures LabelText(None) == ""
  {
  }

  lemma {:induction false} LabelBlanks(l: Label)
    requires LabelOk(l)
    ensures Blanks(l.beforeColon) && Blanks(l.afterColon) && PiecesOk(l.name)
  {
  }

  lemma {:induction false} SkipNone(s: string, p: nat)
    requires p < |s| && !Blank(s[p])
    ensures SkipBlanks(s, p) == p
  {
  }

  lemma {:induction false} EndPlaced(s: string, e: nat, i: Item, closer: char, last: bool)
    requires closer in {'}', ']'} && ItemOk(i, closer, last) && At(s, e, i.post) && e + |i.post| < |s|
    requires s[e + |i.post|] == if last then closer else ','
    ensures Ends(s, e, i.value) && SkipBlanks(s, e) == e + |i.post|
  {
    hide JsonOk, SkipBlanks;
    if i.post != "" { assert s[e] == i.post[0]; }
    SkipOver(s, e, i.post);
  }

  lemma {:induction false} ItemPlaces(
      s: string, p: nat, i: Item, closer: char, last: bool)
    returns (v: nat, e: nat, n: nat)
    requires closer in {'}', ']'} && ItemOk(i, closer, last)
    requires At(s, p, ItemPrinted(i)) && p + |ItemPrinted(i)| < |s|
    requires s[p + |ItemPrinted(i)|] == if last then closer else ','
    ensures ItemPlaced(s, p, i, v, e, n)
    ensures s[p + |i.pre|] != closer
    ensures ItemStart(s, p + |i.pre|, closer).Some?
    ensures SkipBlanks(s, ItemStart(s, p + |i.pre|, closer).value) == v
    ensures i.key.Some? ==>
      LabelFrom(s, p + |i.pre|) == Some((Decoded(i.key.value.name), ItemStart(s, p + |i.pre|, closer).value))
  {
    hide At, Printed, LabelText, JsonOk, LabelOk, SkipBlanks, LabelFrom, ItemStart, Decoded, Blanks, Ends;
    ItemAt(s, p, i);
    v := p + |i.pre| + |LabelText(i.key)|;
    e := v + |Printed(i.value)|;
    n := e + |i.post|;
    EndPlaced(s, e, i, closer, last);
    ValueHead(s, v, i.value, e);
    StartPlaced(s, p + |i.pre|, i.key, closer);
    if i.key.None? { NoLabel(); }
    SkipOver(s, p, i.pre);
  }

  lemma {:induction false} SkipTwice(s: string, p: nat)
    requires p <= |s|
    ensures SkipBlanks(s, SkipBlanks(s, p)) == SkipBlanks(s, p) && ValueEnd(s, SkipBlanks(s, p)) == ValueEnd(s, p)
  {
  }

  /** One turn of the reader's loop over a list. */
  lemma {:induction false} ItemStep(s: string, p: nat, closer: char, start: nat, e: nat)
    requires p <= |s| && closer in {'}', ']'} && SkipBlanks(s, p) < |s| && s[SkipBlanks(s, p)] != closer
    requires ItemStart(s, SkipBlanks(s, p), closer) == Some(start) && start <= |s| && ValueEnd(s, start) == Some(e)
    requires e <= |s| && SkipBlanks(s, e) < |s| && s[SkipBlanks(s, e)] in {',', closer}
    ensures var n := SkipBlanks(s, e);
      ListEnd(s, p, closer) == if s[n] == ',' then ListEnd(s, n + 1, closer) else Some(n + 1)
  {
    hide SkipBlanks, ItemStart, ValueEnd;
  }

  lemma {:induction false} ItemRead(s: string, p: nat, i: Item, closer: char, last: bool)
    requires p <= |s| && closer in {'}', ']'} && ItemOk(i, closer, last)
    requires At(s, p, ItemPrinted(i)) && p + |ItemPrinted(i)| < |s|
    requires s[p + |ItemPrinted(i)|] == if last then closer else ','
    ensures var n := p + |ItemPrinted(i)|;
      ListEnd(s, p, closer) == if last then Some(n + 1) else ListEnd(s, n + 1, closer)
    decreases i, 1
  {
    hide At, ItemPrinted, SkipBlanks, LabelFrom, ItemStart, ListEnd, ValueEnd, Decoded, ItemOk, ValueAt;
    var v, e, n := ItemPlaces(s, p, i, closer, last);
    ValueRead(s, v, i.value, e);
    var start := ItemStart(s, p + |i.pre|, closer).value;
    SkipTwice(s, start);
    ItemStep(s, p, closer, start, e);
  }

  lemma {:induction false} RestRead(s: string, p: nat, r: Rest, closer: char, e: nat)
    requires p <= |s| && closer in {'}', ']'} && RestAt(s, p, r, closer, e)
    ensures ListEnd(s, p, closer) == Some(e)
    decreases r, 1
  {
    hide At, RestAt, ItemPrinted, ItemOk, SkipBlanks, Blanks, ListEnd;
    match r
    case Close(pre) =>
      CloseAt(s, p, pre, closer, e);
      AtChar(s, p + |pre|, closer);
      SkipOver(s, p, pre);
      ListCloses(s, p, closer);
    case Last(i) =>
      LastAt(s, p, i, closer, e);
      AtChar(s, p + |ItemPrinted(i)|, closer);
      ItemRead(s, p, i, closer, true);
    case Then(i, more) =>
      var n := p + |ItemPrinted(i)|;
      ThenAt(s, p, i, more, closer, e);
      AtChar(s, n, ',');
      ItemRead(s, p, i, closer, false);
      RestRead(s, n + 1, more, closer, e);
  }

  lemma {:induction false} ListCloses(s: string, p: nat, closer: char)
    requires p <= |s| && SkipBlanks(s, p) < |s| && s[SkipBlanks(s, p)] == closer
    ensures ListEnd(s, p, closer) == Some(SkipBlanks(s, p) + 1)
  {
    hide SkipBlanks, ItemStart, ValueEnd;
  }

  // ----- everything that is read is a printed value -----

  lemma {:induction false} PieceFound(s: string, p: nat) returns (x: Piece)
    requires p < |s| && PieceAt(s, p).Some?
    ensures At(s, p, PieceText(x)) && Meaning(x) == Some(PieceAt(s, p).value.0)
      && PieceAt(s, p).value.1 == p + |PieceText(x)|
  {
    if s[p] != '\\' {
      x := Plain(s[p]);
    } else if s[p + 1] == 'u' {
      x := Unicode(s[p + 2..p + 6]);
      assert s[p..p + 6] == PieceText(x);
    } else {
      x := Escape(s[p + 1]);
      assert s[p..p + 2] == PieceText(x);
    }
  }

  lemma {:induction false} StringFound(s: string, p: nat) returns (ps: seq<Piece>)
    requires p <= |s| && StringFrom(s, p).Some?
    ensures PiecesOk(ps) && Decoded(ps) == StringFrom(s, p).value.0
    ensures At(s, p, PiecesText(ps) + ['"']) && StringFrom(s, p).value.1 == p + |PiecesText(ps)| + 1
    decreases |s| - p
  {
    if s[p] == '"' {
      ps := [];
      AtChar(s, p, '"');
      assert PiecesText([]) + ['"'] == ['"'];
    } else {
      var x := PieceFound(s, p);
      var e := p + |PieceText(x)|;
      var rest := StringFound(s, e);
      ps := [x] + rest;
      assert ps[1..] == rest;
      assert PiecesText(ps) + ['"'] == PieceText(x) + (PiecesText(rest) + ['"']);
      AtSplit(s, p, PieceText(x), PiecesText(rest) + ['"']);
    }
  }

  lemma {:induction false} QuotedFound(s: string, q: nat) returns (ps: seq<Piece>)
    requires q < |s| && s[q] == '"' && StringFrom(s, q + 1).Some?
    ensures PiecesOk(ps) && StringFrom(s, q + 1).value == (Decoded(ps), q + |Quoted(ps)|) && At(s, q, Quoted(ps))
  {
    ps := StringFound(s, q + 1);
    QuotedAt(s, q, ps);
    AtChar(s, q, '"');
  }

  /** Whatever the reader skips as a value, is one. */
  lemma {:induction false} ValueFound(s: string, p: nat) returns (v: Json)
    requires p <= |s| && ValueEnd(s, p).Some?
    ensures ValueAt(s, SkipBlanks(s, p), v, ValueEnd(s, p).value)
    decreases |s| - p, 0
  {
    hide SkipBlanks, At, RestPrinted, RestOk, ListEnd, StringFrom, Quoted, PiecesOk, Decoded;
    var q := SkipBlanks(s, p);
    var e := ValueEnd(s, p).value;
    if s[q] == '"' {
      var ps := QuotedFound(s, q);
      v := Text(ps);
    } else if s[q] == '{' || s[q] == '[' {
      var closer := if s[q] == '{' then '}' else ']';
      var r := RestFound(s, q + 1, closer);
      v := List(closer, r);
      AtChar(s, q, s[q]);
      ListAt(s, q, closer, r, e);
    } else {
      v := AtomFound(s, q);
    }
  }

  lemma {:induction false} AtomFound(s: string, q: nat) returns (v: Json)
    requires q < |s| && !Blank(s[q]) && s[q] !in {'"', '{', '['}
    ensures v == Atom(s[q..AtomEnd(s, q)]) && ValueAt(s, q, v, AtomEnd(s, q))
  {
    hide AtomEnd;
    v := Atom(s[q..AtomEnd(s, q)]);
  }

  lemma {:induction false} LabelParts(s: string, q: nat) returns (e: nat, c: nat)
    requires q < |s| && !Blank(s[q]) && LabelFrom(s, q).Some?
    ensures s[q] == '"' && StringFrom(s, q + 1).Some? && e == StringFrom(s, q + 1).value.1
    ensures e <= c == SkipBlanks(s, e) < |s| && s[c] == ':'
    ensures LabelFrom(s, q) == Some((StringFrom(s, q + 1).value.0, c + 1))
  {
    SkipNone(s, q);
    hide SkipBlanks, StringFrom;
    e := StringFrom(s, q + 1).value.1;
    c := SkipBlanks(s, e);
  }

  lemma {:induction false} LabelFound(s: string, q: nat) returns (l: Label)
    requires q < |s| && !Blank(s[q]) && LabelFrom(s, q).Some?
    ensures var v := SkipBlanks(s, LabelFrom(s, q).value.1);
      LabelOk(l) && At(s, q, LabelText(Some(l))) && v == q + |LabelText(Some(l))|
    ensures Decoded(l.name) == LabelFrom(s, q).value.0
  {
    hide Quoted, SkipBlanks, At, LabelText, LabelFrom, StringFrom, Decoded, Blanks, PiecesOk;
    var e, c := LabelParts(s, q);
    var ps := QuotedFound(s, q);
    var v := SkipBlanks(s, c + 1);
    l := Label(ps, s[e..c], s[c + 1..v]);
    AtChar(s, c, ':');
    BlanksFound(s, e);
    BlanksFound(s, c + 1);
    LabelAt(s, q, l);
  }

  lemma {:induction false} BlanksFound(s: string, p: nat)
    requires p <= |s|
    ensures Blanks(s[p..SkipBlanks(s, p)]) && At(s, p, s[p..SkipBlanks(s, p)])
  {
  }

  /** The label and the value of an item, found from the blank-free position `q` on. */
  lemma {:induction false} KeyAndValueFound(s: string, q: nat, closer: char, start: nat, e: nat)
      returns (key: Option<Label>, value: Json, v: nat)
    requires q <= |s| && closer in {'}', ']'} && SkipBlanks(s, q) == q
    requires ItemStart(s, q, closer) == Some(start) && start <= |s| && ValueEnd(s, start) == Some(e)
    ensures (key.Some? <==> closer == '}') && (key.Some? ==> LabelOk(key.value))
    ensures At(s, q, LabelText(key)) && v == q + |LabelText(key)| == SkipBlanks(s, start) && ValueAt(s, v, value, e)
    ensures key.Some? ==> LabelFrom(s, q) == Some((Decoded(key.value.name), start))
    decreases |s| - q, 1
  {
    hide SkipBlanks, ValueEnd, LabelFrom, LabelOk, LabelText, Decoded, ValueAt;
    v := SkipBlanks(s, start);
    key := None;
    if closer == '}' {
      LabelStart(s, q);
      var l := LabelFound(s, q);
      key := Some(l);
    } else {
      NoLabel();
    }
    value := ValueFound(s, start);
  }

  lemma {:induction false} LabelStart(s: string, q: nat)
    requires q <= |s| && SkipBlanks(s, q) == q && LabelFrom(s, q).Some?
    ensures q < |s| && !Blank(s[q])
  {
  }

  /** An empty value is followed at once by a comma, or by the end of its object. */
  lemma {:induction false} EmptyItem(s: string, q: nat, key: Option<Label>, v: nat, value: Json, e: nat, closer: char)
    requires ValueAt(s, v, value, e) && value == Atom("") && v == q + |LabelText(key)| && q < |s| && s[q] != closer
    ensures SkipBlanks(s, e) == e < |s| && (key.None? ==> s[e] != closer)
  {
    ValueHead(s, v, value, e);
    SkipNone(s, e);
  }

  /** An item read from `p` on, up to the blank-free position `n`. */
  lemma {:induction false} ItemFound(s: string, p: nat, closer: char, start: nat, e: nat) returns (i: Item)
    requires p <= |s| && closer in {'}', ']'} && (SkipBlanks(s, p) < |s| ==> s[SkipBlanks(s, p)] != closer)
    requires ItemStart(s, SkipBlanks(s, p), closer) == Some(start) && start <= |s| && ValueEnd(s, start) == Some(e)
    requires e <= |s| && SkipBlanks(s, e) < |s| && s[SkipBlanks(s, e)] in {',', closer}
    ensures var n := SkipBlanks(s, e);
      ItemOk(i, closer, s[n] == closer) && At(s, p, ItemPrinted(i)) && n == p + |ItemPrinted(i)|
    ensures i.key.Some? ==> LabelFrom(s, SkipBlanks(s, p)) == Some((Decoded(i.key.value.name), start))
    ensures ValueAt(s, SkipBlanks(s, start), i.value, e)
    decreases |s| - p, 2
  {
    hide SkipBlanks, ValueEnd, LabelFrom, LabelOk, LabelText, Decoded, Printed, ItemPrinted, JsonOk, ItemStart;
    hide Blanks, At;
    var q := SkipBlanks(s, p);
    var n := SkipBlanks(s, e);
    SkipTwice(s, p);
    BlanksFound(s, p);
    BlanksFound(s, e);
    var key, value, v := KeyAndValueFound(s, q, closer, start, e);
    i := Item(s[p..q], key, value, s[e..n]);
    if value == Atom("") {
      ValueHead(s, v, value, e);
      EmptyItem(s, q, key, v, value, e, closer);
    }
    ItemAt(s, p, i);
  }

  /** A list that the reader reads goes on with an item that it reads. */
  lemma {:induction false} ListTurns(s: string, p: nat, closer: char) returns (start: nat, e: nat)
    requires p <= |s| && closer in {'}', ']'} && ListEnd(s, p, closer).Some?
    requires SkipBlanks(s, p) < |s| ==> s[SkipBlanks(s, p)] != closer
    ensures ItemStart(s, SkipBlanks(s, p), closer) == Some(start) && p <= start <= |s| && ValueEnd(s, start) == Some(e)
    ensures e <= |s| && p <= SkipBlanks(s, e) < |s| && s[SkipBlanks(s, e)] in {',', closer}
    ensures var n := SkipBlanks(s, e);
      ListEnd(s, p, closer) == if s[n] == ',' then ListEnd(s, n + 1, closer) else Some(n + 1)
  {
    hide SkipBlanks, ItemStart, ValueEnd;
    start := ItemStart(s, SkipBlanks(s, p), closer).value;
    e := ValueEnd(s, start).value;
  }

  lemma {:induction false} CloseFound(s: string, p: nat, closer: char) returns (r: Rest)
    requires p <= |s| && SkipBlanks(s, p) < |s| && s[SkipBlanks(s, p)] == closer
    ensures RestAt(s, p, r, closer, SkipBlanks(s, p) + 1) && ListEnd(s, p, closer) == Some(SkipBlanks(s, p) + 1)
  {
    hide SkipBlanks, At, Blanks, RestAt;
    var q := SkipBlanks(s, p);
    r := Close(s[p..q]);
    BlanksFound(s, p);
    AtChar(s, q, closer);
    CloseAt(s, p, s[p..q], closer, q + 1);
    ListCloses(s, p, closer);
  }

  lemma {:induction false} RestFound(s: string, p: nat, closer: char) returns (r: Rest)
    requires p <= |s| && closer in {'}', ']'} && ListEnd(s, p, closer).Some?
    ensures RestAt(s, p, r, closer, ListEnd(s, p, closer).value)
    decreases |s| - p, 3
  {
    hide SkipBlanks, ItemStart, ItemOk, ItemPrinted, ValueEnd, ListEnd, RestAt, At;
    var q := SkipBlanks(s, p);
    if q < |s| && s[q] == closer {
      r := CloseFound(s, p, closer);
    } else {
      var start, e := ListTurns(s, p, closer);
      var n := SkipBlanks(s, e);
      var i := ItemFound(s, p, closer, start, e);
      AtChar(s, n, s[n]);
      if s[n] == closer {
        r := Last(i);
        LastAt(s, p, i, closer, n + 1);
      } else {
        var more := RestFound(s, n + 1, closer);
        r := Then(i, more);
        ThenAt(s, p, i, more, closer, ListEnd(s, n + 1, closer).value);
      }
    }
  }

  /** The reader accepts exactly the values of the grammar, and reads each exactly to its end. */
  lemma {:induction false} ReadsExactly(s: string, p: nat, e: nat)
    requires p <= |s|
    ensures ValueEnd(s, p) == Some(e) <==> exists v :: ValueAt(s, SkipBlanks(s, p), v, e)
  {
    if ValueEnd(s, p) == Some(e) {
      var v := ValueFound(s, p);
    }
    if v :| ValueAt(s, SkipBlanks(s, p), v, e) {
      ValueRead(s, SkipBlanks(s, p), v, e);
      SkipTwice(s, p);
    }
  }

  /** In any surroundings, a printed value is read up to where it ends. */
  lemma {:induction false} PrintedIsRead(before: string, v: Json, after: string)
    requires JsonOk(v) && Ends(after, 0, v)
    ensures ValueEnd(before + Printed(v) + after, |before|) == Some(|before| + |Printed(v)|)
  {
    var s := before + Printed(v) + after;
    var e := |before| + |Printed(v)|;
    hide Printed, JsonOk;
    assert s[|before|..e] == Printed(v);
    if after != "" { assert s[e] == after[0]; }
    ValueRead(s, |before|, v, e);
  }

  /** The kind of a value shows in its first character. */
  lemma {:induction false} KindUnique(s: string, p: nat, v: Json, e: nat)
    requires ValueAt(s, p, v, e)
    ensures p < |s|
    ensures v.Text? <==> s[p] == '"'
    ensures v.List? ==> s[p] == Opener(v.closer) && v.closer in {'}', ']'}
    ensures v.Atom? <==> s[p] !in {'"', '{', '['}
  {
    hide At, RestAt, RestOk, RestPrinted, PiecesOk, Quoted;
    match v
    case Text(ps) => QuotedRead(s, p, ps);
    case Atom(t) => AtomRead(s, p, t);
    case List(closer, r) =>
      ListAt(s, p, closer, r, e);
      AtChar(s, p, Opener(closer));
  }
}
