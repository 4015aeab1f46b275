/** A text prints at most one tree. */
module JsonTrees {
  import opened Common
  import opened JsonText
  import opened JsonSpec
  import opened ConfigSpec

  // ----- one tree -----

  lemma {:induction false} SameText(s: string, p: nat, a: string, b: string)
    requires At(s, p, a) && At(s, p, b) && |a| == |b|
    ensures a == b
  {
  }

  lemma {:induction false} PieceUnique(s: string, p: nat, x: Piece, y: Piece)
    requires At(s, p, PieceText(x)) && Meaning(x).Some? && At(s, p, PieceText(y)) && Meaning(y).Some?
    ensures x == y
  {
    PieceRead(s, p, x);
    PieceRead(s, p, y);
    SameText(s, p, PieceText(x), PieceText(y));
    hide At, HexValue, PieceAt;
    if x.Unicode? && y.Unicode? {
      assert PieceText(x)[2..] == x.hex && PieceText(y)[2..] == y.hex;
    }
  }

  lemma {:induction false} PiecesUnique(s: string, p: nat, ps: seq<Piece>, qs: seq<Piece>)
    requires At(s, p, PiecesText(ps) + ['"']) && PiecesOk(ps)
    requires At(s, p, PiecesText(qs) + ['"']) && PiecesOk(qs)
    ensures ps == qs
    decreases |ps|
  {
    hide At, PieceText, Meaning, PiecesText;
    if ps == [] || qs == [] {
      AtChar(s, p, '"');
      EmptyPieces(s, p, ps);
      EmptyPieces(s, p, qs);
    } else {
      FirstPiece(s, p, ps);
      FirstPiece(s, p, qs);
      PieceUnique(s, p, ps[0], qs[0]);
      PiecesUnique(s, p + |PieceText(ps[0])|, ps[1..], qs[1..]);
    }
  }

  lemma {:induction false} FirstPiece(s: string, p: nat, ps: seq<Piece>)
    requires At(s, p, PiecesText(ps) + ['"']) && PiecesOk(ps) && ps != []
    ensures At(s, p, PieceText(ps[0])) && Meaning(ps[0]).Some?
    ensures At(s, p + |PieceText(ps[0])|, PiecesText(ps[1..]) + ['"']) && PiecesOk(ps[1..])
  {
    assert PiecesText(ps) + ['"'] == PieceText(ps[0]) + (PiecesText(ps[1..]) + ['"']);
    AtSplit(s, p, PieceText(ps[0]), PiecesText(ps[1..]) + ['"']);
  }

  /** A closing quote stands first exactly when there are no pieces. */
  lemma {:induction false} EmptyPieces(s: string, p: nat, ps: seq<Piece>)
    requires At(s, p, PiecesText(ps) + ['"']) && PiecesOk(ps)
    ensures p < |s| && (s[p] == '"' <==> ps == [])
  {
    if ps == [] {
      assert PiecesText(ps) + ['"'] == ['"'];
      AtChar(s, p, '"');
    } else {
      FirstPiece(s, p, ps);
      PieceRead(s, p, ps[0]);
    }
  }

  lemma {:induction false} QuotedUnique(s: string, p: nat, ps: seq<Piece>, qs: seq<Piece>)
    requires At(s, p, Quoted(ps)) && PiecesOk(ps) && At(s, p, Quoted(qs)) && PiecesOk(qs)
    ensures ps == qs
  {
    QuotedAt(s, p, ps);
    QuotedAt(s, p, qs);
    PiecesUnique(s, p + 1, ps, qs);
  }

  lemma {:induction false} LabelUnique(s: string, p: nat, l: Label, k: Label, v: nat)
    requires At(s, p, LabelText(Some(l))) && LabelOk(l) && At(s, p, LabelText(Some(k))) && LabelOk(k)
    requires v == p + |LabelText(Some(l))| == p + |LabelText(Some(k))|
    ensures l == k
  {
    hide At, Blanks, PiecesOk, Quoted, LabelText, SkipBlanks;
    LabelAt(s, p, l);
    LabelAt(s, p, k);
    QuotedUnique(s, p, l.name, k.name);
    var e := p + |Quoted(l.name)|;
    AtChar(s, e + |l.beforeColon|, ':');
    AtChar(s, e + |k.beforeColon|, ':');
    AtBound(s, p, LabelText(Some(l)));
    SkipOver(s, e, l.beforeColon);
    SkipOver(s, e, k.beforeColon);
    SameText(s, e, l.beforeColon, k.beforeColon);
    SameText(s, e + |l.beforeColon| + 1, l.afterColon, k.afterColon);
  }

  /** A value stands at `p` as one tree only. */
  lemma {:induction false} ValueUnique(s: string, p: nat, v: Json, w: Json, e: nat, f: nat)
    requires p <= |s| && ValueAt(s, p, v, e) && ValueAt(s, p, w, f)
    ensures v == w && e == f
    decreases v, 0
  {
    ValueRead(s, p, v, e);
    ValueRead(s, p, w, f);
    KindUnique(s, p, v, e);
    KindUnique(s, p, w, f);
    match v
    case Text(ps) =>
      hide ValueEnd, Quoted, PiecesOk;
      QuotedUnique(s, p, ps, w.pieces);
    case Atom(t) =>
      hide ValueEnd;
      SameText(s, p, t, w.chars);
    case List(closer, r) =>
      hide ValueEnd, RestAt, At;
      ListAt(s, p, closer, r, e);
      ListAt(s, p, w.closer, w.rest, f);
      AtChar(s, p, Opener(closer));
      RestUnique(s, p + 1, r, w.rest, closer, e, f);
  }

  lemma {:induction false} ItemUnique(
      s: string, p: nat, i: Item, k: Item, closer: char, iLast: bool, kLast: bool)
    requires closer in {'}', ']'} && ItemOk(i, closer, iLast) && ItemOk(k, closer, kLast)
    requires At(s, p, ItemPrinted(i)) && p + |ItemPrinted(i)| < |s|
    requires At(s, p, ItemPrinted(k)) && p + |ItemPrinted(k)| < |s|
    requires s[p + |ItemPrinted(i)|] == if iLast then closer else ','
    requires s[p + |ItemPrinted(k)|] == if kLast then closer else ','
    ensures i == k
    decreases i, 1
  {
    hide At, Printed, LabelText, JsonOk, LabelOk, SkipBlanks, LabelFrom, ItemStart, Decoded, Blanks, ValueAt;
    var v, e, n := ItemPlaces(s, p, i, closer, iLast);
    var v', e', n' := ItemPlaces(s, p, k, closer, kLast);
    ItemAt(s, p, i);
    ItemAt(s, p, k);
    SameText(s, p, i.pre, k.pre);
    if closer == '}' { LabelUnique(s, p + |i.pre|, i.key.value, k.key.value, v); }
    ValueUnique(s, v, i.value, k.value, e, e');
    SameText(s, e, i.post, k.post);
  }

  lemma {:induction false} RestUnique(s: string, p: nat, r: Rest, t: Rest, closer: char, e: nat, f: nat)
    requires p <= |s| && closer in {'}', ']'} && RestAt(s, p, r, closer, e) && RestAt(s, p, t, closer, f)
    ensures r == t
    decreases r, 2
  {
    hide At, RestAt, ItemOk, ItemPrinted, SkipBlanks, Blanks;
    RestHead(s, p, r, closer, e);
    RestHead(s, p, t, closer, f);
    match r
    case Close(pre) =>
      CloseAt(s, p, pre, closer, e);
      CloseAt(s, p, t.pre, closer, f);
      SameText(s, p, pre, t.pre);
    case Last(i) =>
      ItemUnique(s, p, i, t.item, closer, true, t.Last?);
    case Then(i, more) =>
      ItemUnique(s, p, i, t.item, closer, false, t.Last?);
      ThenAt(s, p, i, more, closer, e);
      ThenAt(s, p, i, t.rest, closer, f);
      RestUnique(s, p + |ItemPrinted(i)| + 1, more, t.rest, closer, e, f);
  }

  /** What a list goes on with, by the first character that is not blank. */
  lemma {:induction false} RestHead(s: string, p: nat, r: Rest, closer: char, e: nat)
    requires p <= |s| && closer in {'}', ']'} && RestAt(s, p, r, closer, e)
    ensures SkipBlanks(s, p) < |s| && (s[SkipBlanks(s, p)] == closer <==> r.Close?)
    ensures r.Close? ==> |r.pre| == SkipBlanks(s, p) - p
    ensures !r.Close? ==>
      && ItemOk(r.item, closer, r.Last?) && At(s, p, ItemPrinted(r.item)) && p + |ItemPrinted(r.item)| < |s|
      && s[p + |ItemPrinted(r.item)|] == if r.Last? then closer else ','
  {
    hide At, RestAt, ItemOk, ItemPrinted, SkipBlanks, Blanks, ItemStart, LabelFrom, ValueAt, Decoded;
    match r
    case Close(pre) =>
      CloseAt(s, p, pre, closer, e);
      AtChar(s, p + |pre|, closer);
      SkipOver(s, p, pre);
    case Last(i) =>
      LastAt(s, p, i, closer, e);
      AtChar(s, p + |ItemPrinted(i)|, closer);
      var v, ve, n := ItemPlaces(s, p, i, closer, true);
      ItemStarts(s, p, i, v, ve, n);
    case Then(i, more) =>
      ThenAt(s, p, i, more, closer, e);
      AtChar(s, p + |ItemPrinted(i)|, ',');
      var v, ve, n := ItemPlaces(s, p, i, closer, false);
      ItemStarts(s, p, i, v, ve, n);
  }

  lemma {:induction false} ItemStarts(s: string, p: nat, i: Item, v: nat, e: nat, n: nat)
    requires ItemPlaced(s, p, i, v, e, n)
    ensures SkipBlanks(s, p) == p + |i.pre| < |s|
  {
    hide SkipBlanks;
  }

  /** A text is the text of one document at most. */
  lemma {:induction false} DocUnique(c: Doc, d: Doc)
    requires DocOk(c) && DocOk(d) && DocText(c) == DocText(d)
    ensures c == d
  {
    hide At, Blanks, SkipBlanks, Printed, JsonOk, DocText;
    var s := DocText(c);
    DocAt(s, c);
    DocAt(s, d);
    var v, w := List('}', c.members), List('}', d.members);
    DocStart(s, c);
    DocStart(s, d);
    SameText(s, 0, c.before, d.before);
    ValueUnique(s, |c.before|, v, w, |c.before| + |Printed(v)|, |c.before| + |Printed(w)|);
    SameText(s, |c.before| + |Printed(v)|, c.after, d.after);
  }

  lemma {:induction false} DocStart(s: string, d: Doc)
    requires DocOk(d) && s == DocText(d)
    ensures SkipBlanks(s, 0) == |d.before| <= |s|
    ensures var v := List('}', d.members); ValueAt(s, |d.before|, v, |d.before| + |Printed(v)|)
  {
    hide At, Blanks, SkipBlanks, Printed, JsonOk, DocText;
    var v := List('}', d.members);
    DocAt(s, d);
    assert ValueAt(s, |d.before|, v, |d.before| + |Printed(v)|);
    ValueHead(s, |d.before|, v, |d.before| + |Printed(v)|);
    SkipOver(s, 0, d.before);
  }
}
