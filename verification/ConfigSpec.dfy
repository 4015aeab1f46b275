/**
 What a configuration text means: its top-level fields, folded in order over
 the default. The image lists are kept as they are; every other section is read
 as `SectionSpec` says and makes of it what `SectionBuild` says.
 */
module ConfigSpec {
  import opened Common
  import opened JsonText
  import opened JsonSpec
  import opened SectionSpec
  import opened SectionBuild

  datatype ListMode = NoList | Allow | Deny

  datatype Config = Config(mode: ListMode, images: seq<string>, plugins: Plugins)

  /** The configuration so far, and the sections that the platform's own key has given. */
  datatype State = State(config: Config, own: set<string>)

  /** What the reader was built for. */
  datatype Env = Env(platform: string)

  /** What the reader does with a key's value. */
  datatype Action = Images(mode: ListMode) | Section(name: string, claims: bool) | Skip

  const PLAIN_SECTIONS: set<string> :=
    {"control", "menu_alias", "auto_install", "persistence", "injection", "dud", "conf_replace"}

  /** Sections that a key with the platform's suffix takes over. */
  const PLATFORM_SECTIONS: set<string> := {"menu_tip", "menu_class", "auto_memdisk"}

  function OwnKey(section: string, platform: string): string { section + "_" + platform }

  function ActionFor(platform: string, key: string, own: set<string>): Action {
    if key in PLAIN_SECTIONS then Section(key, false)
    else if key == OwnKey("menu_tip", platform) then Section("menu_tip", true)
    else if key == OwnKey("menu_class", platform) then Section("menu_class", true)
    else if key in {"password_uefi", "password_aa64"} then Section("password", true)
    else if key == OwnKey("auto_memdisk", platform) then Section("auto_memdisk", true)
    else if key in PLATFORM_SECTIONS || key == "password" then
      if key in own then Skip else Section(key, false)
    else if key == "image_list" then Images(Allow)
    else if key == "image_blacklist" then Images(Deny)
    else Skip
  }

  function Start(env: Env): State { State(Config(NoList, [], NOTHING), {}) }

  function WithImages(st: State, mode: ListMode, images: seq<string>): State {
    st.(config := st.config.(mode := mode, images := images))
  }

  function WithSection(env: Env, st: State, name: string, claims: bool, x: FieldValue): State {
    State(st.config.(plugins := Build(name, st.config.plugins, x)), if claims then st.own + {name} else st.own)
  }

  // ----- the meaning of a tree -----

  datatype Field = Field(name: string, value: Json)

  function FieldOf(i: Item): Field { Field(ItemName(i), i.value) }

  function FieldsOf(r: Rest): seq<Field> {
    match r
    case Close(_) => []
    case Last(i) => [FieldOf(i)]
    case Then(i, more) => [FieldOf(i)] + FieldsOf(more)
  }

  function Effect(env: Env, st: State, f: Field): Option<State> {
    match ActionFor(env.platform, f.name, st.own)
    case Skip => Some(st)
    case Section(name, claims) =>
      (match KindValue(SectionKind(name), f.value)
       case Some(x) => Some(WithSection(env, st, name, claims, x))
       case None => None)
    case Images(mode) =>
      if f.value.List? && f.value.closer == ']' && StringsOf(f.value.rest).Some?
      then Some(WithImages(st, mode, StringsOf(f.value.rest).value)) else None
  }

  function Folded(env: Env, st: State, fs: seq<Field>): Option<State>
    decreases |fs|
  {
    if fs == [] then Some(st)
    else match Effect(env, st, fs[0]) case Some(st') => Folded(env, st', fs[1..]) case None => None
  }

  datatype Doc = Doc(before: string, members: Rest, after: string)

  predicate DocOk(d: Doc) { Blanks(d.before) && JsonOk(List('}', d.members)) && Blanks(d.after) }

  function DocText(d: Doc): string { d.before + (Printed(List('}', d.members)) + d.after) }

  function DocMeaning(env: Env, d: Doc): Option<Config> {
    match Folded(env, Start(env), FieldsOf(d.members)) case Some(st) => Some(st.config) case None => None
  }

  // ----- what the reader does at a position -----

  function EffectAt(env: Env, st: State, key: string, s: string, p: nat): (r: Option<(State, nat)>)
    requires p <= |s|
    ensures r.Some? ==> p <= r.value.1 <= |s|
  {
    match ActionFor(env.platform, key, st.own)
    case Skip => (match ValueEnd(s, p) case Some(e) => Some((st, e)) case None => None)
    case Section(name, claims) =>
      (match ReadKind(s, p, SectionKind(name))
       case Some((x, e)) => Some((WithSection(env, st, name, claims, x), e))
       case None => None)
    case Images(mode) =>
      (match ArrayAt(s, p) case Some((ts, e)) => Some((WithImages(st, mode, ts), e)) case None => None)
  }

  function FieldsFrom(env: Env, st: State, s: string, p: nat): (r: Option<(State, nat)>)
    requires p <= |s|
    ensures r.Some? ==> p < r.value.1 <= |s|
    decreases |s| - p
  {
    var q := SkipBlanks(s, p);
    if q < |s| && s[q] == '}' then Some((st, q + 1))
    else
      match LabelFrom(s, q)
      case None => None
      case Some((key, v)) =>
        match EffectAt(env, st, key, s, v)
        case None => None
        case Some((st', e)) =>
          var n := SkipBlanks(s, e);
          if n == |s| then None
          else if s[n] == ',' then FieldsFrom(env, st', s, n + 1)
          else if s[n] == '}' then Some((st', n + 1))
          else None
  }

  function ConfigOf(env: Env, s: string): Option<Config> {
    var q := SkipBlanks(s, 0);
    if q == |s| || s[q] != '{' then None
    else
      match FieldsFrom(env, Start(env), s, q + 1)
      case None => None
      case Some((st, e)) => if SkipBlanks(s, e) == |s| then Some(st.config) else None
  }

  // ----- they agree -----

  lemma {:induction false} EffectRead(env: Env, st: State, key: string, s: string, p: nat, v: Json, e: nat)
    requires p <= |s| && ValueAt(s, SkipBlanks(s, p), v, e)
    ensures EffectAt(env, st, key, s, p) == Ending(Effect(env, st, Field(key, v)), e)
  {
    hide SkipBlanks, ActionFor, ValueEnd, WithSection, RestPrinted, RestOk, ReadKind, KindValue, StringsOf, ArrayAt;
    var q := SkipBlanks(s, p);
    SkipTwice(s, p);
    ValueRead(s, q, v, e);
    hide ValueAt;
    match ActionFor(env.platform, key, st.own)
    case Skip =>
    case Section(name, _) => KindRead(s, p, SectionKind(name), v, e);
    case Images(_) => ImagesRead(s, p, v, e);
  }

  lemma {:induction false} EffectIsValue(env: Env, st: State, key: string, s: string, p: nat)
    requires p <= |s| && EffectAt(env, st, key, s, p).Some?
    ensures ValueEnd(s, p) == Some(EffectAt(env, st, key, s, p).value.1)
  {
    hide SkipBlanks, ActionFor, WithSection, ListEnd, ArrayFrom, ReadKind, StringFrom;
    match ActionFor(env.platform, key, st.own)
    case Skip =>
    case Section(name, _) =>
      KindIsValue(s, p, SectionKind(name));
      hide ValueEnd;
    case Images(_) => ArrayIsList(s, SkipBlanks(s, p) + 1);
  }

  lemma {:induction false} FieldStep(env: Env, st: State, s: string, p: nat, i: Item, last: bool)
    requires p <= |s| && ItemOk(i, '}', last)
    requires At(s, p, ItemPrinted(i)) && p + |ItemPrinted(i)| < |s|
    requires s[p + |ItemPrinted(i)|] == if last then '}' else ','
    ensures var n := p + |ItemPrinted(i)|;
      FieldsFrom(env, st, s, p) ==
        match Effect(env, st, FieldOf(i))
        case None => None
        case Some(st') => if last then Some((st', n + 1)) else FieldsFrom(env, st', s, n + 1)
  {
    hide At, ItemPrinted, SkipBlanks, LabelFrom, Decoded, ValueAt, PiecesOk, JsonOk, Blanks, Effect, EffectAt;
    hide FieldsFrom;
    var v, e, n := ItemPlaces(s, p, i, '}', last);
    LabelBlanks(i.key.value);
    var start := ItemStart(s, p + |i.pre|, '}').value;
    EffectRead(env, st, FieldOf(i).name, s, start, i.value, e);
    FieldTurn(env, st, s, p, FieldOf(i).name, start);
  }

  /** One turn of the reader's loop over the fields. */
  lemma {:induction false} FieldTurn(env: Env, st: State, s: string, p: nat, key: string, v: nat)
    requires p <= |s| && SkipBlanks(s, p) < |s| && s[SkipBlanks(s, p)] != '}'
    requires LabelFrom(s, SkipBlanks(s, p)) == Some((key, v)) && v <= |s|
    ensures FieldsFrom(env, st, s, p) ==
      match EffectAt(env, st, key, s, v)
      case None => None
      case Some((st', e)) =>
        var n := SkipBlanks(s, e);
        if n == |s| then None
        else if s[n] == ',' then FieldsFrom(env, st', s, n + 1)
        else if s[n] == '}' then Some((st', n + 1))
        else None
  {
    hide SkipBlanks, LabelFrom, EffectAt;
  }

  lemma {:induction false} FieldsRead(env: Env, st: State, s: string, p: nat, r: Rest, e: nat)
    requires p <= |s| && RestAt(s, p, r, '}', e)
    ensures FieldsFrom(env, st, s, p) == Ending(Folded(env, st, FieldsOf(r)), e)
    decreases r
  {
    hide At, RestAt, ItemPrinted, ItemOk, SkipBlanks, Blanks, FieldsFrom, Effect, FieldOf;
    match r
    case Close(pre) =>
      CloseAt(s, p, pre, '}', e);
      AtChar(s, p + |pre|, '}');
      SkipOver(s, p, pre);
      FieldsClose(env, st, s, p);
    case Last(i) =>
      LastAt(s, p, i, '}', e);
      AtChar(s, p + |ItemPrinted(i)|, '}');
      FieldStep(env, st, s, p, i, true);
      FoldedFirst(env, st, FieldOf(i), []);
      assert FieldsOf(r) == [FieldOf(i)] + [];
    case Then(i, more) =>
      ThenAt(s, p, i, more, '}', e);
      AtChar(s, p + |ItemPrinted(i)|, ',');
      FieldStep(env, st, s, p, i, false);
      FoldedFirst(env, st, FieldOf(i), FieldsOf(more));
      match Effect(env, st, FieldOf(i))
      case None =>
      case Some(st') => FieldsRead(env, st', s, p + |ItemPrinted(i)| + 1, more, e);
  }

  lemma {:induction false} FoldedFirst(env: Env, st: State, f: Field, fs: seq<Field>)
    ensures Folded(env, st, [f] + fs) ==
      match Effect(env, st, f) case Some(st') => Folded(env, st', fs) case None => None
  {
    assert ([f] + fs)[1..] == fs;
  }

  lemma {:induction false} FieldsClose(env: Env, st: State, s: string, p: nat)
    requires p <= |s| && SkipBlanks(s, p) < |s| && s[SkipBlanks(s, p)] == '}'
    ensures FieldsFrom(env, st, s, p) == Some((st, SkipBlanks(s, p) + 1))
  {
    hide SkipBlanks;
  }

  lemma {:induction false} FieldsAreList(env: Env, st: State, s: string, p: nat)
    requires p <= |s| && FieldsFrom(env, st, s, p).Some?
    ensures ListEnd(s, p, '}') == Some(FieldsFrom(env, st, s, p).value.1)
    decreases |s| - p
  {
    hide SkipBlanks, EffectAt, LabelFrom, ValueEnd;
    var q := SkipBlanks(s, p);
    if q < |s| && s[q] == '}' {
    } else {
      var key, v := LabelFrom(s, q).value.0, LabelFrom(s, q).value.1;
      EffectIsValue(env, st, key, s, v);
      var st', e := EffectAt(env, st, key, s, v).value.0, EffectAt(env, st, key, s, v).value.1;
      var n := SkipBlanks(s, e);
      if s[n] == ',' { FieldsAreList(env, st', s, n + 1); }
    }
  }

  /** A printed document means, to the reader, the fold of its fields. */
  lemma {:induction false} DocRead(env: Env, d: Doc)
    requires DocOk(d)
    ensures ConfigOf(env, DocText(d)) == DocMeaning(env, d)
  {
    hide At, Blanks, SkipBlanks, Printed, RestOk, RestAt, FieldsFrom, Folded, DocText;
    var s, p := DocText(d), |d.before|;
    var v := List('}', d.members);
    var e := p + |Printed(v)|;
    DocAt(s, d);
    assert ValueAt(s, p, v, e);
    ListAt(s, p, '}', d.members, e);
    AtChar(s, p, '{');
    SkipOver(s, 0, d.before);
    SkipOver(s, e, d.after);
    FieldsRead(env, Start(env), s, p + 1, d.members, e);
  }

  /** Where the parts of a document stand. */
  lemma {:induction false} DocAt(s: string, d: Doc)
    ensures s == DocText(d) <==>
      var v := Printed(List('}', d.members));
      && At(s, 0, d.before) && At(s, |d.before|, v) && At(s, |d.before| + |v|, d.after)
      && |s| == |d.before| + |v| + |d.after|
  {
    hide At, Printed;
    var v := Printed(List('}', d.members));
    Whole(s, DocText(d));
    AtSplit(s, 0, d.before, v + d.after);
    AtSplit(s, |d.before|, v, d.after);
  }

  lemma {:induction false} Whole(s: string, t: string)
    ensures At(s, 0, t) && |s| == |t| <==> s == t
  {
  }

  lemma {:induction false} ConfigParts(env: Env, s: string) returns (q: nat, e: nat)
    requires ConfigOf(env, s).Some?
    ensures q == SkipBlanks(s, 0) < |s| && s[q] == '{' && ListEnd(s, q + 1, '}') == Some(e)
    ensures e <= |s| && SkipBlanks(s, e) == |s|
  {
    hide SkipBlanks, FieldsFrom;
    q := SkipBlanks(s, 0);
    e := FieldsFrom(env, Start(env), s, q + 1).value.1;
    FieldsAreList(env, Start(env), s, q + 1);
  }

  /** Whatever text is accepted prints some document. */
  lemma {:induction false} DocFound(env: Env, s: string) returns (d: Doc)
    requires ConfigOf(env, s).Some?
    ensures DocOk(d) && DocText(d) == s
  {
    hide SkipBlanks, RestAt, ConfigOf, ListEnd, Printed, DocText, At, JsonOk, ValueAt, Blanks;
    var q, e := ConfigParts(env, s);
    var r := RestFound(s, q + 1, '}');
    d := Doc(s[0..q], r, s[e..|s|]);
    BlanksFound(s, 0);
    BlanksFound(s, e);
    AtChar(s, q, '{');
    ListAt(s, q, '}', r, e);
    ValueParts(s, q, List('}', r), e);
    DocAt(s, d);
  }

  lemma {:induction false} ValueParts(s: string, p: nat, v: Json, e: nat)
    requires ValueAt(s, p, v, e)
    ensures JsonOk(v) && At(s, p, Printed(v)) && e == p + |Printed(v)| && e <= |s|
  {
  }

  /** The configurations read are exactly the meanings of the documents that print to the text. */
  lemma {:induction false} ConfigMeansDoc(env: Env, s: string, c: Config)
    ensures ConfigOf(env, s) == Some(c) <==> exists d :: DocOk(d) && DocText(d) == s && DocMeaning(env, d) == Some(c)
  {
    if ConfigOf(env, s) == Some(c) {
      var d := DocFound(env, s);
      DocRead(env, d);
    }
    if d :| DocOk(d) && DocText(d) == s && DocMeaning(env, d) == Some(c) { DocRead(env, d); }
  }

  // ----- fields without effect -----

  lemma {:induction false} FoldedJoin(env: Env, st: State, a: seq<Field>, b: seq<Field>)
    ensures Folded(env, st, a + b) ==
      match Folded(env, st, a) case Some(st') => Folded(env, st', b) case None => None
    decreases |a|
  {
    hide Effect;
    if a == [] {
      assert a + b == b;
    } else {
      assert a + b == [a[0]] + (a[1..] + b) && a == [a[0]] + a[1..];
      FoldedFirst(env, st, a[0], a[1..] + b);
      match Effect(env, st, a[0])
      case Some(st') => FoldedJoin(env, st', a[1..], b);
      case None =>
    }
  }

  predicate Recognised(platform: string, key: string) {
    || key in PLAIN_SECTIONS || key in PLATFORM_SECTIONS
      || (exists x :: x in PLATFORM_SECTIONS && key == OwnKey(x, platform))
    || key in {"password", "password_uefi", "password_aa64", "image_list", "image_blacklist"}
  }

  /** The key that claims a section for the platform. */
  predicate Claims(platform: string, key: string, section: string) {
    if section == "password" then key in {"password_uefi", "password_aa64"}
    else section in PLATFORM_SECTIONS && key == OwnKey(section, platform)
  }

  lemma {:induction false} OwnGrows(env: Env, st: State, fs: seq<Field>)
    requires Folded(env, st, fs).Some?
    ensures st.own <= Folded(env, st, fs).value.own
    decreases |fs|
  {
    if fs != [] { OwnGrows(env, Effect(env, st, fs[0]).value, fs[1..]); }
  }

  lemma {:induction false} ClaimIsKept(env: Env, st: State, fs: seq<Field>, i: nat, section: string)
    requires Folded(env, st, fs).Some? && i < |fs| && Claims(env.platform, fs[i].name, section)
    ensures section in Folded(env, st, fs).value.own
    decreases |fs|
  {
    var st' := Effect(env, st, fs[0]).value;
    if i > 0 {
      ClaimIsKept(env, st', fs[1..], i - 1, section);
    } else {
      ClaimIsMade(env, st, fs[0], section);
      OwnGrows(env, st', fs[1..]);
    }
  }

  lemma {:induction false} ClaimIsMade(env: Env, st: State, f: Field, section: string)
    requires Effect(env, st, f).Some? && Claims(env.platform, f.name, section)
    ensures section in Effect(env, st, f).value.own
  {
    if section == "password" {
      OwnKeyForm(env.platform, f.name, "menu_tip");
      OwnKeyForm(env.platform, f.name, "menu_class");
    } else {
      OwnKeysDiffer(env.platform, f.name, section);
    }
  }

  lemma {:induction false} OwnKeyForm(platform: string, key: string, section: string)
    requires section != ""
    ensures key == OwnKey(section, platform) ==> |key| > |section| && key[0] == section[0] && key[|section|] == '_'
  {
  }

  /** The platform's key for a section is no other key. */
  lemma {:induction false} OwnKeysDiffer(platform: string, key: string, section: string)
    requires section in PLATFORM_SECTIONS && key == OwnKey(section, platform)
    ensures key !in PLAIN_SECTIONS && key !in PLATFORM_SECTIONS
      && key !in {"password", "password_uefi", "password_aa64"}
    ensures forall other :: other in PLATFORM_SECTIONS && key == OwnKey(other, platform) ==> other == section
  {
    OwnKeyForm(platform, key, section);
    OwnKeyForm(platform, key, "menu_tip");
    OwnKeyForm(platform, key, "menu_class");
    OwnKeyForm(platform, key, "auto_memdisk");
  }

  /** A field the reader passes over after the fields `before`. */
  ghost predicate Ineffective(platform: string, before: seq<Field>, key: string) {
    || !Recognised(platform, key)
    || ((key in PLATFORM_SECTIONS || key == "password")
        && exists i :: 0 <= i < |before| && Claims(platform, before[i].name, key))
  }

  /**
   A field with an unknown key, or with a section's common key once the
   platform's own key has given that section, changes nothing, whatever its
   value and wherever it is put.
   */
  lemma {:induction false} FieldIgnored(env: Env, fs: seq<Field>, i: nat, f: Field)
    requires i <= |fs| && Ineffective(env.platform, fs[..i], f.name)
    ensures Folded(env, Start(env), fs[..i] + ([f] + fs[i..])) == Folded(env, Start(env), fs)
  {
    hide Effect;
    var st := Start(env);
    assert fs == fs[..i] + fs[i..];
    FoldedJoin(env, st, fs[..i], [f] + fs[i..]);
    FoldedJoin(env, st, fs[..i], fs[i..]);
    match Folded(env, st, fs[..i])
    case None =>
    case Some(st') =>
      FoldedFirst(env, st', f, fs[i..]);
      SkipsField(env, fs[..i], st', f);
  }

  lemma {:induction false} SkipsField(env: Env, before: seq<Field>, st: State, f: Field)
    requires Folded(env, Start(env), before) == Some(st) && Ineffective(env.platform, before, f.name)
    ensures Effect(env, st, f) == Some(st)
  {
    hide Folded;
    if Recognised(env.platform, f.name) {
      var i :| 0 <= i < |before| && Claims(env.platform, before[i].name, f.name);
      ClaimIsKept(env, Start(env), before, i, f.name);
      CommonKey(env.platform, f.name);
    } else {
      assert {"menu_tip", "menu_class", "auto_memdisk"} == PLATFORM_SECTIONS;
    }
  }

  lemma {:induction false} CommonKey(platform: string, key: string)
    requires key in PLATFORM_SECTIONS || key == "password"
    ensures key !in PLAIN_SECTIONS && key !in {"password_uefi", "password_aa64"}
    ensures key != OwnKey("menu_tip", platform) && key != OwnKey("menu_class", platform)
      && key != OwnKey("auto_memdisk", platform)
  {
    OwnKeyForm(platform, key, "menu_tip");
    OwnKeyForm(platform, key, "menu_class");
    OwnKeyForm(platform, key, "auto_memdisk");
  }

  /** Two texts, one with such a field more, are read as the same configuration or both refused. */
  lemma {:induction false} SameConfig(env: Env, a: Doc, b: Doc, i: nat, f: Field)
    requires DocOk(a) && DocOk(b) && i <= |FieldsOf(a.members)|
    requires FieldsOf(b.members) == FieldsOf(a.members)[..i] + ([f] + FieldsOf(a.members)[i..])
    requires Ineffective(env.platform, FieldsOf(a.members)[..i], f.name)
    ensures ConfigOf(env, DocText(b)) == ConfigOf(env, DocText(a))
  {
    DocRead(env, a);
    DocRead(env, b);
    FieldIgnored(env, FieldsOf(a.members), i, f);
  }

  // ----- the order of the fields -----

  /** The part of the configuration a key speaks of, if any. */
  function Topic(platform: string, key: string): string {
    match ActionFor(platform, key, {})
    case Section(name, _) => name
    case Images(_) => "image_list"
    case Skip => ""
  }

  /** What is done with a key depends on earlier fields only through its own topic. */
  lemma {:induction false} ActionOf(platform: string, key: string, own: set<string>, other: string)
    requires other != Topic(platform, key)
    ensures ActionFor(platform, key, own + {other}) == ActionFor(platform, key, own)
  {
  }

  lemma {:induction false} EffectOwns(env: Env, st: State, f: Field)
    requires Effect(env, st, f).Some?
    ensures var own := Effect(env, st, f).value.own;
      own == st.own || own == st.own + {Topic(env.platform, f.name)}
  {
    hide KindValue, StringsOf, Build;
  }

  /** Two fields in a row. */
  function Both(env: Env, st: State, f: Field, g: Field): Option<State> {
    match Effect(env, st, f) case Some(st') => Effect(env, st', g) case None => None
  }

  lemma {:induction false} BothCommute(env: Env, st: State, f: Field, g: Field)
    requires Topic(env.platform, f.name) != Topic(env.platform, g.name)
    ensures Both(env, st, f, g) == Both(env, st, g, f)
  {
    hide KindValue, StringsOf, Build, ActionFor;
    TopicIs(env.platform, f.name, st.own);
    TopicIs(env.platform, g.name, st.own);
    ActionOf(env.platform, f.name, st.own, Topic(env.platform, g.name));
    ActionOf(env.platform, g.name, st.own, Topic(env.platform, f.name));
    if Effect(env, st, f).Some? { EffectOwns(env, st, f); }
    if Effect(env, st, g).Some? { EffectOwns(env, st, g); }
    match (ActionFor(env.platform, f.name, st.own), ActionFor(env.platform, g.name, st.own))
    case (Section(a, _), Section(b, _)) =>
      if KindValue(SectionKind(a), f.value).Some? && KindValue(SectionKind(b), g.value).Some? {
        var x, y := KindValue(SectionKind(a), f.value).value, KindValue(SectionKind(b), g.value).value;
        SectionsCommute(b, a, st.config.plugins, y, x);
        assert st.own + {a} + {b} == st.own + {b} + {a};
      }
    case (_, _) =>
  }

  lemma {:induction false} TopicIs(platform: string, key: string, own: set<string>)
    ensures match ActionFor(platform, key, own)
      case Section(name, _) => Topic(platform, key) == name
      case Images(_) => Topic(platform, key) == "image_list"
      case Skip => true
  {
  }

  /**
   Fields about different parts of the configuration can stand in either order:
   with any two such neighbours exchanged, the fields are read to the same
   configuration, or refused as before.
   */
  lemma {:induction false} FieldsCommute(env: Env, fs: seq<Field>, i: nat)
    requires i + 1 < |fs| && Topic(env.platform, fs[i].name) != Topic(env.platform, fs[i + 1].name)
    ensures Folded(env, Start(env), fs[..i] + ([fs[i + 1], fs[i]] + fs[i + 2..])) == Folded(env, Start(env), fs)
  {
    hide Effect, Topic;
    var f, g, rest := fs[i], fs[i + 1], fs[i + 2..];
    assert fs == fs[..i] + ([f, g] + rest);
    FoldedJoin(env, Start(env), fs[..i], [f, g] + rest);
    FoldedJoin(env, Start(env), fs[..i], [g, f] + rest);
    match Folded(env, Start(env), fs[..i])
    case None =>
    case Some(st) =>
      TwoFirst(env, st, f, g, rest);
      TwoFirst(env, st, g, f, rest);
      BothCommute(env, st, f, g);
  }

  lemma {:induction false} TwoFirst(env: Env, st: State, f: Field, g: Field, rest: seq<Field>)
    ensures Folded(env, st, [f, g] + rest) ==
      match Both(env, st, f, g) case Some(st') => Folded(env, st', rest) case None => None
  {
    hide Effect;
    assert [f, g] + rest == [f] + ([g] + rest);
    FoldedFirst(env, st, f, [g] + rest);
    match Effect(env, st, f)
    case Some(st') => FoldedFirst(env, st', g, rest);
    case None =>
  }
}
