/**
 What each section makes of its objects, said of the positions of their keys
 and values: which key every field of a rule comes from, which of several
 values counts, and when an object gives a rule at all.
 */
module SectionRules {
  import opened Common
  import opened JsonText
  import opened SectionSpec
  import opened SectionBuild
  import opened TextTerms

  // ----- which value of a key counts -----

  /** Field `i` is the last under this key. */
  ghost predicate LastUnder(es: seq<Entry>, i: int, key: string) {
    0 <= i < |es| && es[i].key == key && forall j :: i < j < |es| ==> es[j].key != key
  }

  /** The last field under the key has this value. */
  ghost predicate EndsIn(es: seq<Entry>, key: string, x: FieldValue) {
    exists i :: LastUnder(es, i, key) && es[i].value == x
  }

  lemma {:induction false} EndsOnce(es: seq<Entry>, key: string, x: FieldValue, y: FieldValue)
    requires EndsIn(es, key, x) && EndsIn(es, key, y)
    ensures x == y
  {
    var i :| LastUnder(es, i, key) && es[i].value == x;
    var j :| LastUnder(es, j, key) && es[j].value == y;
    assert i == j;
  }

  lemma {:induction false} LastOfIs(es: seq<Entry>, key: string)
    ensures if exists i :: 0 <= i < |es| && es[i].key == key then EndsIn(es, key, LastOf(es, key))
      else LastOf(es, key) == Nothing
  {
    if es != [] {
      var n := |es| - 1;
      if es[n].key == key {
        assert LastUnder(es, n, key);
      } else {
        LastOfIs(es[..n], key);
        if i :| 0 <= i < |es| && es[i].key == key {
          assert es[..n][i].key == key;
          var k :| LastUnder(es[..n], k, key) && es[..n][k].value == LastOf(es[..n], key);
          assert LastUnder(es, k, key);
        } else {
          assert forall i :: 0 <= i < n ==> es[..n][i].key == es[i].key;
        }
      }
    }
  }

  /** A value other than none at all is the last one exactly when it ends the key. */
  lemma {:induction false} LastIs(es: seq<Entry>, key: string, x: FieldValue)
    requires x != Nothing
    ensures LastOf(es, key) == x <==> EndsIn(es, key, x)
  {
    LastOfIs(es, key);
    if EndsIn(es, key, x) {
      var i :| LastUnder(es, i, key) && es[i].value == x;
      EndsOnce(es, key, x, LastOf(es, key));
    }
  }

  /** The key ends in a text that gives this path. */
  ghost predicate EndsInPath(es: seq<Entry>, key: string, p: string) {
    exists t :: EndsIn(es, key, TextIs(t)) && PathFrom(t, p)
  }

  lemma {:induction false} PathOfIs(es: seq<Entry>, key: string, p: string)
    ensures PathOf(LastOf(es, key)) == Some(p) <==> EndsInPath(es, key, p)
  {
    hide EndsIn, PathFrom, Clean, LastOf;
    forall t ensures LastOf(es, key) == TextIs(t) <==> EndsIn(es, key, TextIs(t)) { LastIs(es, key, TextIs(t)); }
    forall t ensures Clean(t) == Some(p) <==> PathFrom(t, p) { PathIs(t, p); }
  }

  /** The key ends in this number, or in none. */
  ghost predicate EndsInNumber(es: seq<Entry>, key: string, n: Option<int>) {
    match n
    case Some(v) => EndsIn(es, key, NumberIs(v))
    case None => forall v :: !EndsIn(es, key, NumberIs(v))
  }

  lemma {:induction false} NumberOfIs(es: seq<Entry>, key: string, n: Option<int>)
    ensures NumberOf(LastOf(es, key)) == n <==> EndsInNumber(es, key, n)
  {
    hide EndsIn, LastOf;
    forall v ensures LastOf(es, key) == NumberIs(v) <==> EndsIn(es, key, NumberIs(v)) { LastIs(es, key, NumberIs(v)); }
  }

  /** The key ends in this number that is not negative, or in none. */
  ghost predicate EndsInCount(es: seq<Entry>, key: string, n: Option<nat>) {
    match n
    case Some(v) => EndsIn(es, key, NumberIs(v))
    case None => forall v :: 0 <= v ==> !EndsIn(es, key, NumberIs(v))
  }

  lemma {:induction false} CountOfIs(es: seq<Entry>, key: string, n: Option<nat>)
    ensures CountOf(LastOf(es, key)) == n <==> EndsInCount(es, key, n)
  {
    hide EndsIn, LastOf;
    forall v ensures LastOf(es, key) == NumberIs(v) <==> EndsIn(es, key, NumberIs(v)) { LastIs(es, key, NumberIs(v)); }
  }

  /** The key ends in a list of texts with these paths; without a list there are none. */
  ghost predicate EndsInPaths(es: seq<Entry>, key: string, paths: seq<string>) {
    || (exists ts :: EndsIn(es, key, ListIs(ts)) && Cleaned(ts, paths))
    || (paths == [] && forall ts :: !EndsIn(es, key, ListIs(ts)))
  }

  lemma {:induction false} CleanedOnce(ts: seq<string>, a: seq<string>, p: seq<nat>, b: seq<string>, q: seq<nat>)
    requires CleanedAt(ts, a, p) && CleanedAt(ts, b, q)
    ensures a == b
  {
    hide PathFrom;
    forall i: nat ensures i in p <==> i in q {
      if i in p {
        var k :| 0 <= k < |p| && p[k] == i;
        assert PathFrom(ts[i], a[k]);
      }
      if i in q {
        var k :| 0 <= k < |q| && q[k] == i;
        assert PathFrom(ts[i], b[k]);
      }
    }
    SameIncreasing(p, q);
    forall k | 0 <= k < |a| ensures a[k] == b[k] { SamePath(ts[p[k]], a[k], b[k]); }
  }

  /** Increasing lists of the same numbers are equal. */
  lemma {:induction false} SameIncreasing(p: seq<nat>, q: seq<nat>)
    requires forall j, k :: 0 <= j < k < |p| ==> p[j] < p[k]
    requires forall j, k :: 0 <= j < k < |q| ==> q[j] < q[k]
    requires forall i: nat :: i in p <==> i in q
    ensures p == q
  {
    assert (p == [] || p[0] in p) && (q == [] || q[0] in q);
    if p != [] && q != [] {
      var a, b := p[|p| - 1], q[|q| - 1];
      assert a in p && a in q;
      assert b in q && b in p;
      assert a == b;
      var p', q' := p[..|p| - 1], q[..|q| - 1];
      forall i: nat ensures i in p' <==> i in q' {
        assert i in p' <==> i in p && i != a;
        assert i in q' <==> i in q && i != b;
      }
      SameIncreasing(p', q');
      assert p == p' + [a] && q == q' + [b];
    }
  }

  lemma {:induction false} PathsOfIs(es: seq<Entry>, key: string, paths: seq<string>)
    ensures CleanAll(PathsOf(LastOf(es, key))) == paths <==> EndsInPaths(es, key, paths)
  {
    hide EndsIn, LastOf, CleanedAt;
    forall ts ensures LastOf(es, key) == ListIs(ts) <==> EndsIn(es, key, ListIs(ts)) { LastIs(es, key, ListIs(ts)); }
    var x := LastOf(es, key);
    if x.ListIs? {
      PathsAre(x.texts);
      if ts :| EndsIn(es, key, ListIs(ts)) && Cleaned(ts, paths) {
        var p :| CleanedAt(ts, paths, p);
        var q :| CleanedAt(x.texts, CleanAll(x.texts), q);
        CleanedOnce(ts, paths, p, CleanAll(x.texts), q);
      }
    }
  }

  /** The key ends in a password. */
  ghost predicate EndsInPassword(es: seq<Entry>, key: string, p: Password) {
    exists t :: EndsIn(es, key, TextIs(t)) && PasswordFrom(t, p)
  }

  lemma {:induction false} SecretOfIs(es: seq<Entry>, key: string, p: Password)
    ensures SecretOf(LastOf(es, key)) == Some(p) <==> EndsInPassword(es, key, p)
  {
    hide EndsIn, LastOf, PasswordOf, PasswordFrom;
    forall t ensures LastOf(es, key) == TextIs(t) <==> EndsIn(es, key, TextIs(t)) { LastIs(es, key, TextIs(t)); }
    forall t ensures PasswordOf(t) == Some(p) <==> PasswordFrom(t, p) { PasswordIs(t, p); }
  }

  // ----- which text of a key counts, where other values are passed over -----

  ghost predicate TextAt(es: seq<Entry>, i: int, key: string, t: string) {
    0 <= i < |es| && es[i].key == key && es[i].value == TextIs(t)
  }

  ghost predicate IsText(es: seq<Entry>, i: int, key: string) {
    0 <= i < |es| && es[i].key == key && es[i].value.TextIs?
  }

  /** The last text under the key. */
  ghost predicate LastTextIs(es: seq<Entry>, key: string, t: string) {
    exists i :: TextAt(es, i, key, t) && forall j :: i < j ==> !IsText(es, j, key)
  }

  lemma {:induction false} LastTextOfIs(es: seq<Entry>, key: string, t: string)
    ensures LastTextOf(es, key) == Some(t) <==> LastTextIs(es, key, t)
  {
    if es != [] {
      var n := |es| - 1;
      LastTextOfIs(es[..n], key, t);
      assert forall i :: i < n ==> (IsText(es[..n], i, key) <==> IsText(es, i, key));
      assert forall i :: i < n ==> (TextAt(es[..n], i, key, t) <==> TextAt(es, i, key, t));
      if IsText(es, n, key) {
        if es[n].value.text == t { assert TextAt(es, n, key, t); }
      } else if LastTextIs(es[..n], key, t) {
        var i :| TextAt(es[..n], i, key, t) && forall j :: i < j ==> !IsText(es[..n], j, key);
        assert TextAt(es, i, key, t);
      }
    }
  }

  ghost predicate EitherAt(es: seq<Entry>, i: int, a: string, b: string, t: string) {
    TextAt(es, i, a, t) || TextAt(es, i, b, t)
  }

  ghost predicate IsEither(es: seq<Entry>, i: int, a: string, b: string) { IsText(es, i, a) || IsText(es, i, b) }

  /** The last text under either key; without any, the empty one. */
  ghost predicate LastTextOfTwo(es: seq<Entry>, a: string, b: string, t: string) {
    || (exists i :: EitherAt(es, i, a, b, t) && forall j :: i < j ==> !IsEither(es, j, a, b))
    || (t == "" && forall j :: !IsEither(es, j, a, b))
  }

  lemma {:induction false} LastTextOfTwoIs(es: seq<Entry>, a: string, b: string)
    ensures LastTextOfTwo(es, a, b, LastText(es, a, b))
  {
    if es != [] {
      var n := |es| - 1;
      var t := LastText(es, a, b);
      assert forall i :: i < n ==> (IsEither(es[..n], i, a, b) <==> IsEither(es, i, a, b));
      if IsEither(es, n, a, b) {
        assert EitherAt(es, n, a, b, t);
      } else {
        LastTextOfTwoIs(es[..n], a, b);
        assert forall i :: EitherAt(es[..n], i, a, b, t) ==> EitherAt(es, i, a, b, t);
      }
    }
  }

  lemma {:induction false} LastOfTwoOnce(es: seq<Entry>, a: string, b: string, t: string)
    ensures LastText(es, a, b) == t <==> LastTextOfTwo(es, a, b, t)
  {
    LastTextOfTwoIs(es, a, b);
    hide LastText;
    if LastTextOfTwo(es, a, b, t) { TwoLastTexts(es, a, b, t, LastText(es, a, b)); }
  }

  lemma {:induction false} TwoLastTexts(es: seq<Entry>, a: string, b: string, t: string, u: string)
    requires LastTextOfTwo(es, a, b, t) && LastTextOfTwo(es, a, b, u)
    ensures t == u
  {
    assert forall i :: EitherAt(es, i, a, b, t) || EitherAt(es, i, a, b, u) ==> IsEither(es, i, a, b);
    if i :| EitherAt(es, i, a, b, t) && forall j :: i < j ==> !IsEither(es, j, a, b) {
      var k :| EitherAt(es, k, a, b, u) && forall j :: k < j ==> !IsEither(es, j, a, b);
      assert i == k;
    }
  }

  // ----- which path or name becomes the target -----

  /** A field that sets the target whatever there was, one that only fills a gap, or one that does neither. */
  datatype Use<+V> = Unused | Fills(v: V) | Sets(v: V)

  function Chosen<V>(es: seq<Entry>, use: Entry -> Use<V>): Option<V> {
    if es == [] then None
    else
      var before := Chosen(es[..|es| - 1], use);
      match use(es[|es| - 1])
      case Sets(v) => Some(v)
      case Fills(v) => if before.None? then Some(v) else before
      case Unused => before
  }

  ghost predicate SetAt<V>(es: seq<Entry>, use: Entry -> Use<V>, i: int) { 0 <= i < |es| && use(es[i]).Sets? }

  ghost predicate FilledAt<V>(es: seq<Entry>, use: Entry -> Use<V>, i: int) { 0 <= i < |es| && use(es[i]).Fills? }

  ghost predicate LastSets<V(!new)>(es: seq<Entry>, use: Entry -> Use<V>, v: V) {
    exists i :: SetAt(es, use, i) && use(es[i]).v == v && forall j :: i < j ==> !SetAt(es, use, j)
  }

  ghost predicate NoneSets<V>(es: seq<Entry>, use: Entry -> Use<V>) { forall j :: !SetAt(es, use, j) }

  ghost predicate FirstFills<V(!new)>(es: seq<Entry>, use: Entry -> Use<V>, v: V) {
    exists i :: FilledAt(es, use, i) && use(es[i]).v == v && forall j :: j < i ==> !FilledAt(es, use, j)
  }

  ghost predicate NoneFills<V>(es: seq<Entry>, use: Entry -> Use<V>) { forall j :: !FilledAt(es, use, j) }

  /** The last field that sets it, or else the first that fills it. */
  ghost predicate ChosenReads<V(!new)>(es: seq<Entry>, use: Entry -> Use<V>, v: V) {
    LastSets(es, use, v) || (NoneSets(es, use) && FirstFills(es, use, v))
  }

  lemma {:induction false} ChosenIs<V(!new)>(es: seq<Entry>, use: Entry -> Use<V>, v: V)
    ensures Chosen(es, use) == Some(v) <==> ChosenReads(es, use, v)
    ensures Chosen(es, use).None? <==> NoneSets(es, use) && NoneFills(es, use)
  {
    if es != [] {
      var n := |es| - 1;
      ChosenIs(es[..n], use, v);
      match use(es[n])
      case Sets(w) => assert SetAt(es, use, n);
      case _ =>
        SetsBefore(es, use, v);
        FillsBefore(es, use, v);
    }
  }

  lemma {:induction false} SetsBefore<V(!new)>(es: seq<Entry>, use: Entry -> Use<V>, v: V)
    requires es != [] && !SetAt(es, use, |es| - 1)
    ensures NoneSets(es, use) <==> NoneSets(es[..|es| - 1], use)
    ensures LastSets(es, use, v) <==> LastSets(es[..|es| - 1], use, v)
  {
    var n := |es| - 1;
    forall i ensures SetAt(es[..n], use, i) <==> SetAt(es, use, i) { }
    if LastSets(es[..n], use, v) {
      var i :| SetAt(es[..n], use, i) && use(es[..n][i]).v == v && forall j :: i < j ==> !SetAt(es[..n], use, j);
      assert SetAt(es, use, i);
    }
    if LastSets(es, use, v) {
      var i :| SetAt(es, use, i) && use(es[i]).v == v && forall j :: i < j ==> !SetAt(es, use, j);
      assert SetAt(es[..n], use, i);
    }
  }

  lemma {:induction false} FillsBefore<V(!new)>(es: seq<Entry>, use: Entry -> Use<V>, v: V)
    requires es != []
    ensures var n := |es| - 1;
      if !FilledAt(es, use, n) || !NoneFills(es[..n], use) then
        && (NoneFills(es, use) <==> NoneFills(es[..n], use))
        && (FirstFills(es, use, v) <==> FirstFills(es[..n], use, v))
      else !NoneFills(es, use) && (FirstFills(es, use, v) <==> use(es[n]).v == v)
  {
    var n := |es| - 1;
    forall i ensures FilledAt(es[..n], use, i) <==> i != n && FilledAt(es, use, i) { }
    if FirstFills(es[..n], use, v) {
      var i :| FilledAt(es[..n], use, i) && use(es[..n][i]).v == v && forall j :: j < i ==> !FilledAt(es[..n], use, j);
      assert FilledAt(es, use, i);
    }
    if FirstFills(es, use, v) {
      var i :| FilledAt(es, use, i) && use(es[i]).v == v && forall j :: j < i ==> !FilledAt(es, use, j);
      assert i != n ==> FilledAt(es[..n], use, i);
    }
  }

  /** Field `i` gives this path under the key. */
  ghost predicate PathAt(es: seq<Entry>, i: int, key: string, p: string) {
    exists t :: TextAt(es, i, key, t) && PathFrom(t, p)
  }

  ghost predicate IsPath(es: seq<Entry>, i: int, key: string) { exists p :: PathAt(es, i, key, p) }

  ghost predicate LastPathIs(es: seq<Entry>, key: string, p: string) {
    exists i :: PathAt(es, i, key, p) && forall j :: i < j ==> !IsPath(es, j, key)
  }

  ghost predicate FirstPathIs(es: seq<Entry>, key: string, p: string) {
    exists i :: PathAt(es, i, key, p) && forall j :: j < i ==> !IsPath(es, j, key)
  }

  ghost predicate NoPath(es: seq<Entry>, key: string) { forall j :: !IsPath(es, j, key) }

  /** A path under the key, as the value is used. */
  lemma {:induction false} PathAtIs(es: seq<Entry>, i: int, key: string)
    ensures forall p :: PathAt(es, i, key, p) <==> 0 <= i < |es| && es[i].key == key && PathOf(es[i].value) == Some(p)
    ensures IsPath(es, i, key) <==> 0 <= i < |es| && es[i].key == key && PathOf(es[i].value).Some?
  {
    hide Clean, PathFrom;
    forall p ensures PathAt(es, i, key, p) <==> 0 <= i < |es| && es[i].key == key && PathOf(es[i].value) == Some(p) {
      if 0 <= i < |es| && es[i].value.TextIs? { PathIs(es[i].value.text, p); }
    }
  }

  /** A text under the key, as the value is used. */
  lemma {:induction false} TextAtIs(es: seq<Entry>, i: int, key: string)
    ensures forall t :: TextAt(es, i, key, t) <==> 0 <= i < |es| && es[i].key == key && TextOf(es[i].value) == Some(t)
  {
  }

  // ----- targets by an image or a parent -----

  /** The target of a rule: the last usable image, or else the first usable parent. */
  ghost predicate TargetReads(es: seq<Entry>, image: string, t: PathTarget) {
    match t
    case Image(p) => LastPathIs(es, image, p)
    case Parent(p) => NoPath(es, image) && FirstPathIs(es, "parent", p)
  }

  function TargetUse(image: string): Entry -> Use<PathTarget> {
    (e: Entry) =>
      if e.key == image then (match PathOf(e.value) case Some(p) => Sets(Image(p)) case None => Unused)
      else if e.key == "parent" then (match PathOf(e.value) case Some(p) => Fills(Parent(p)) case None => Unused)
      else Unused
  }

  lemma {:induction false} TargetChosen(es: seq<Entry>, image: string)
    ensures TargetOf(es, image) == Chosen(es, TargetUse(image))
  {
    hide PathOf;
    if es != [] { TargetChosen(es[..|es| - 1], image); }
  }

  lemma {:induction false} TargetIs(es: seq<Entry>, image: string, t: PathTarget)
    requires image != "parent"
    ensures TargetOf(es, image) == Some(t) <==> TargetReads(es, image, t)
  {
    hide PathOf, PathAt, IsPath;
    var use := TargetUse(image);
    TargetChosen(es, image);
    ChosenIs(es, use, t);
    forall i
      ensures SetAt(es, use, i) ==> use(es[i]).v.Image?
      ensures FilledAt(es, use, i) ==> use(es[i]).v.Parent?
      ensures SetAt(es, use, i) <==> IsPath(es, i, image)
      ensures FilledAt(es, use, i) <==> IsPath(es, i, "parent")
    {
      PathAtIs(es, i, image);
      PathAtIs(es, i, "parent");
    }
    forall i, p
      ensures PathAt(es, i, image, p) <==> SetAt(es, use, i) && use(es[i]).v == Image(p)
      ensures PathAt(es, i, "parent", p) <==> FilledAt(es, use, i) && use(es[i]).v == Parent(p)
    {
      PathAtIs(es, i, image);
      PathAtIs(es, i, "parent");
    }
    hide TargetUse;
  }

  // ----- the targets of tips and classes -----

  ghost predicate TipTargetReads(es: seq<Entry>, t: TipTarget) {
    match t
    case TipImage(p) => LastPathIs(es, "image", p)
    case TipDir(p) => NoPath(es, "image") && FirstPathIs(es, "dir", p)
  }

  function TipUse(): Entry -> Use<TipTarget> {
    (e: Entry) =>
      if e.key == "image" then (match PathOf(e.value) case Some(p) => Sets(TipImage(p)) case None => Unused)
      else if e.key == "dir" then (match PathOf(e.value) case Some(p) => Fills(TipDir(p)) case None => Unused)
      else Unused
  }

  lemma {:induction false} TipChosen(es: seq<Entry>)
    ensures TipTargetOf(es) == Chosen(es, TipUse())
  {
    hide PathOf;
    if es != [] { TipChosen(es[..|es| - 1]); }
  }

  lemma {:induction false} TipTargetIs(es: seq<Entry>, t: TipTarget)
    ensures TipTargetOf(es) == Some(t) <==> TipTargetReads(es, t)
  {
    hide PathOf, PathAt, IsPath;
    var use := TipUse();
    TipChosen(es);
    ChosenIs(es, use, t);
    forall i
      ensures SetAt(es, use, i) ==> use(es[i]).v.TipImage?
      ensures FilledAt(es, use, i) ==> use(es[i]).v.TipDir?
      ensures SetAt(es, use, i) <==> IsPath(es, i, "image")
      ensures FilledAt(es, use, i) <==> IsPath(es, i, "dir")
    {
      PathAtIs(es, i, "image");
      PathAtIs(es, i, "dir");
    }
    forall i, p
      ensures PathAt(es, i, "image", p) <==> SetAt(es, use, i) && use(es[i]).v == TipImage(p)
      ensures PathAt(es, i, "dir", p) <==> FilledAt(es, use, i) && use(es[i]).v == TipDir(p)
    {
      PathAtIs(es, i, "image");
      PathAtIs(es, i, "dir");
    }
    hide TipUse;
  }

  /** A class names its files by key, the last one, or else by the first parent or directory. */
  ghost predicate ClassTargetReads(es: seq<Entry>, t: ClassTarget) {
    match t
    case ClassKey(k) => LastTextIs(es, "key", k)
    case ClassParent(p) =>
      (forall j :: !IsText(es, j, "key"))
      && exists i :: PathAt(es, i, "parent", p) && NoneEarlier(es, i)
    case ClassDir(d) =>
      (forall j :: !IsText(es, j, "key"))
      && exists i :: TextAt(es, i, "dir", d) && NoneEarlier(es, i)
  }

  /** Neither a usable parent nor a directory comes before field `i`. */
  ghost predicate NoneEarlier(es: seq<Entry>, i: int) {
    forall j :: j < i ==> !IsPath(es, j, "parent") && !IsText(es, j, "dir")
  }

  function ClassUse(): Entry -> Use<ClassTarget> {
    (e: Entry) =>
      if e.key == "key" then (match TextOf(e.value) case Some(t) => Sets(ClassKey(t)) case None => Unused)
      else if e.key == "parent" then (match PathOf(e.value) case Some(p) => Fills(ClassParent(p)) case None => Unused)
      else if e.key == "dir" then (match TextOf(e.value) case Some(t) => Fills(ClassDir(t)) case None => Unused)
      else Unused
  }

  lemma {:induction false} ClassChosen(es: seq<Entry>)
    ensures ClassTargetOf(es) == Chosen(es, ClassUse())
  {
    hide PathOf, TextOf;
    if es != [] { ClassChosen(es[..|es| - 1]); }
  }

  lemma {:induction false} ClassTargetIs(es: seq<Entry>, t: ClassTarget)
    ensures ClassTargetOf(es) == Some(t) <==> ClassTargetReads(es, t)
  {
    hide PathOf, PathAt, IsPath;
    var use := ClassUse();
    ClassChosen(es);
    ChosenIs(es, use, t);
    forall i
      ensures SetAt(es, use, i) ==> use(es[i]).v.ClassKey?
      ensures FilledAt(es, use, i) ==> !use(es[i]).v.ClassKey?
      ensures SetAt(es, use, i) <==> IsText(es, i, "key")
      ensures FilledAt(es, use, i) <==> IsPath(es, i, "parent") || IsText(es, i, "dir")
    {
      PathAtIs(es, i, "parent");
      TextAtIs(es, i, "key");
      TextAtIs(es, i, "dir");
    }
    forall i, p
      ensures TextAt(es, i, "key", p) <==> SetAt(es, use, i) && use(es[i]).v == ClassKey(p)
      ensures PathAt(es, i, "parent", p) <==> FilledAt(es, use, i) && use(es[i]).v == ClassParent(p)
      ensures TextAt(es, i, "dir", p) <==> FilledAt(es, use, i) && use(es[i]).v == ClassDir(p)
    {
      PathAtIs(es, i, "parent");
      TextAtIs(es, i, "key");
      TextAtIs(es, i, "dir");
    }
    hide ClassUse;
  }

  // ----- the rule of an object -----

  ghost predicate AliasReads(es: seq<Entry>, r: MenuAlias) {
    LastTextIs(es, "image", r.image) && LastTextIs(es, "alias", r.name)
  }

  lemma {:induction false} AliasIs(es: seq<Entry>, r: MenuAlias)
    ensures AliasOf(es) == Some(r) <==> AliasReads(es, r)
  {
    hide LastTextOf, LastTextIs;
    forall t ensures LastTextOf(es, "image") == Some(t) <==>
      LastTextIs(es, "image", t) { LastTextOfIs(es, "image", t); }
    forall t ensures LastTextOf(es, "alias") == Some(t) <==>
      LastTextIs(es, "alias", t) { LastTextOfIs(es, "alias", t); }
  }

  /** A tip has a target and at least one line, the first under either of two names. */
  ghost predicate TipReads(es: seq<Entry>, r: MenuTip) {
    && TipTargetReads(es, r.target) && LastTextOfTwo(es, "tip", "tip1", r.tip1)
      && LastTextOfTwo(es, "tip2", "tip2", r.tip2)
    && (r.tip1 != "" || r.tip2 != "")
  }

  lemma {:induction false} TipIs(es: seq<Entry>, r: MenuTip)
    ensures TipOf(es) == Some(r) <==> TipReads(es, r)
  {
    hide TipTargetOf, TipTargetReads, LastText, LastTextOfTwo;
    TipTargetIs(es, r.target);
    LastOfTwoOnce(es, "tip", "tip1", r.tip1);
    LastOfTwoOnce(es, "tip2", "tip2", r.tip2);
  }

  ghost predicate ClassReads(es: seq<Entry>, r: MenuClass) {
    ClassTargetReads(es, r.target) && LastTextIs(es, "class", r.name) && r.name != ""
  }

  lemma {:induction false} ClassIs(es: seq<Entry>, r: MenuClass)
    ensures ClassOf(es) == Some(r) <==> ClassReads(es, r)
  {
    hide ClassTargetOf, ClassTargetReads, LastTextOf, LastTextIs;
    ClassTargetIs(es, r.target);
    LastTextOfIs(es, "class", r.name);
  }

  ghost predicate MenuPasswordReads(es: seq<Entry>, r: Rule<Password>) {
    TargetReads(es, "file", r.target) && EndsInPassword(es, "pwd", r.value)
  }

  lemma {:induction false} MenuPasswordIs(es: seq<Entry>, r: Rule<Password>)
    ensures MenuPasswordOf(es) == Some(r) <==> MenuPasswordReads(es, r)
  {
    hide TargetOf, TargetReads, SecretOf, EndsInPassword;
    TargetIs(es, "file", r.target);
    SecretOfIs(es, "pwd", r.value);
  }

  /** Files, which of them to take and how long to wait, each from its own key. */
  ghost predicate ChoiceReads(es: seq<Entry>, files: string, c: Choice) {
    && EndsInPaths(es, files, c.paths) && c.paths != []
    && EndsInCount(es, "autosel", c.autosel) && EndsInCount(es, "timeout", c.timeout)
  }

  lemma {:induction false} ChoiceIs(es: seq<Entry>, files: string, c: Choice)
    ensures ChoiceOf(es, files) == c && c.paths != [] <==> ChoiceReads(es, files, c)
  {
    hide PathsOf, CleanAll, CountOf, LastOf, EndsInPaths, EndsInCount;
    PathsOfIs(es, files, c.paths);
    CountOfIs(es, "autosel", c.autosel);
    CountOfIs(es, "timeout", c.timeout);
  }

  ghost predicate AutoInstallReads(es: seq<Entry>, r: Rule<Choice>) {
    TargetReads(es, "image", r.target) && ChoiceReads(es, "template", r.value)
  }

  lemma {:induction false} AutoInstallIs(es: seq<Entry>, r: Rule<Choice>)
    ensures AutoInstallOf(es) == Some(r) <==> AutoInstallReads(es, r)
  {
    hide TargetOf, TargetReads, ChoiceOf, ChoiceReads;
    TargetIs(es, "image", r.target);
    ChoiceIs(es, "template", r.value);
  }

  /** The target is an image, and it is the last value of its key that counts, usable or not. */
  ghost predicate ImageReads(es: seq<Entry>, key: string, t: PathTarget) { t.Image? && EndsInPath(es, key, t.path) }

  lemma {:induction false} ImageIs(es: seq<Entry>, key: string, t: PathTarget)
    ensures ImageOf(es, key) == Some(t) <==> ImageReads(es, key, t)
  {
    hide PathOf, EndsInPath, LastOf;
    PathOfIs(es, key, t.path);
  }

  ghost predicate PersistenceReads(es: seq<Entry>, r: Rule<Choice>) {
    ImageReads(es, "image", r.target) && ChoiceReads(es, "backend", r.value)
  }

  lemma {:induction false} PersistenceIs(es: seq<Entry>, r: Rule<Choice>)
    ensures PersistenceOf(es) == Some(r) <==> PersistenceReads(es, r)
  {
    hide ImageOf, ImageReads, ChoiceOf, ChoiceReads;
    ImageIs(es, "image", r.target);
    ChoiceIs(es, "backend", r.value);
  }

  ghost predicate InjectionReads(es: seq<Entry>, r: Rule<string>) {
    TargetReads(es, "image", r.target) && EndsInPath(es, "archive", r.value)
  }

  lemma {:induction false} InjectionIs(es: seq<Entry>, r: Rule<string>)
    ensures InjectionOf(es) == Some(r) <==> InjectionReads(es, r)
  {
    hide TargetOf, TargetReads, PathOf, EndsInPath;
    TargetIs(es, "image", r.target);
    PathOfIs(es, "archive", r.value);
  }

  ghost predicate DudReads(es: seq<Entry>, r: Rule<seq<string>>) {
    ImageReads(es, "image", r.target) && EndsInPaths(es, "dud", r.value) && r.value != []
  }

  lemma {:induction false} DudIs(es: seq<Entry>, r: Rule<seq<string>>)
    ensures DudOf(es) == Some(r) <==> DudReads(es, r)
  {
    hide ImageOf, ImageReads, PathsOf, CleanAll, LastOf, EndsInPaths;
    ImageIs(es, "image", r.target);
    PathsOfIs(es, "dud", r.value);
  }

  ghost predicate ReplacementReads(es: seq<Entry>, r: Rule<Replacement>) {
    && ImageReads(es, "iso", r.target)
    && EndsInPath(es, "org", r.value.org) && EndsInPath(es, "new", r.value.replacing)
    && EndsInNumber(es, "img", r.value.img)
  }

  lemma {:induction false} ReplacementIs(es: seq<Entry>, r: Rule<Replacement>)
    ensures ReplacementOf(es) == Some(r) <==> ReplacementReads(es, r)
  {
    hide ImageOf, ImageReads, PathOf, NumberOf, LastOf, EndsInPath, EndsInNumber;
    ImageIs(es, "iso", r.target);
    PathOfIs(es, "org", r.value.org);
    PathOfIs(es, "new", r.value.replacing);
    NumberOfIs(es, "img", r.value.img);
  }

  // ----- the rules of all objects -----

  /** The rules are those of the objects that give one, in their order: `ps` says which. */
  ghost predicate MadeAt<V(!new)>(
    objects: seq<seq<Entry>>, makes: (seq<Entry>, V) -> bool, vs: seq<V>, ps: seq<nat>)
  {
    && |ps| == |vs|
    && (forall j, k :: 0 <= j < k < |ps| ==> ps[j] < ps[k])
    && (forall k :: 0 <= k < |ps| ==> ps[k] < |objects| && makes(objects[ps[k]], vs[k]))
    && forall i: nat :: i < |objects| && i !in ps ==> forall v :: !makes(objects[i], v)
  }

  ghost predicate MadeOf<V(!new)>(objects: seq<seq<Entry>>, makes: (seq<Entry>, V) -> bool, vs: seq<V>) {
    exists ps: seq<nat> :: MadeAt(objects, makes, vs, ps)
  }

  lemma {:induction false} MadeMore<V>(objects: seq<seq<Entry>>, o: seq<Entry>, one: seq<Entry> -> Option<V>)
    ensures Made(objects + [o], one) == Made(objects, one) + (match one(o) case Some(v) => [v] case None => [])
  {
    MadeTwice(objects, [o], one);
    assert [o][1..] == [];
  }

  lemma {:induction false} MadePlaces<V(!new)>(
      objects: seq<seq<Entry>>, one: seq<Entry> -> Option<V>, makes: (seq<Entry>, V) -> bool)
    returns (ps: seq<nat>)
    requires forall es, v :: one(es) == Some(v) <==> makes(es, v)
    ensures MadeAt(objects, makes, Made(objects, one), ps)
  {
    if objects == [] {
      ps := [];
    } else {
      var n := |objects| - 1;
      var before, o := objects[..n], objects[n];
      ps := MadePlaces(before, one, makes);
      assert before + [o] == objects;
      MadeMore(before, o, one);
      MadeNext(before, o, one, makes, Made(before, one), ps);
      hide Made, MadeAt;
      if one(o).Some? { ps := ps + [n]; }
    }
  }

  lemma {:induction false} MadeNext<V(!new)>(
      before: seq<seq<Entry>>, o: seq<Entry>, one: seq<Entry> -> Option<V>, makes: (seq<Entry>, V) -> bool,
      vs: seq<V>, ps: seq<nat>)
    requires forall es, v :: one(es) == Some(v) <==> makes(es, v)
    requires MadeAt(before, makes, vs, ps)
    ensures one(o).None? ==> MadeAt(before + [o], makes, vs, ps)
    ensures one(o).Some? ==> MadeAt(before + [o], makes, vs + [one(o).value], ps + [|before|])
  {
    var n, all := |before|, before + [o];
    assert forall i :: 0 <= i < n ==> all[i] == before[i];
    if one(o).Some? {
      var qs := ps + [n];
      assert qs[|ps|] == n && forall k :: 0 <= k < |ps| ==> qs[k] == ps[k];
      forall i: nat | i < n + 1 && i !in qs ensures forall v :: !makes(all[i], v) {
        assert i !in ps && i != n;
      }
    }
  }

  lemma {:induction false} MadeIs<V(!new)>(
      objects: seq<seq<Entry>>, one: seq<Entry> -> Option<V>, makes: (seq<Entry>, V) -> bool)
    requires forall es, v :: one(es) == Some(v) <==> makes(es, v)
    ensures MadeOf(objects, makes, Made(objects, one))
  {
    var ps := MadePlaces(objects, one, makes);
  }
}
