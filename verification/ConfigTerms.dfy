/**
 What the characters, keys and fields of a configuration text come to: the code
 points that are blanks, delimiters and escapes, which reader every key of every
 object gets, and what each field at the top does to the configuration.
 */
module ConfigTerms {
  import opened Common
  import opened JsonText
  import opened JsonSpec
  import opened SectionSpec
  import opened SectionBuild
  import opened TextTerms
  import opened SectionRules
  import opened SectionTerms
  import opened ConfigSpec

  // ----- characters -----

  /** Blanks are tab, line feed, form feed, carriage return and space. */
  lemma {:induction false} BlankIs(c: char)
    ensures Blank(c) <==> c as int == 9 || c as int == 10 || c as int == 12 || c as int == 13 || c as int == 32
  {
  }

  /** A value without quotes or brackets ends at a comma or a closing bracket. */
  lemma {:induction false} DelimiterIs(c: char)
    ensures Delimiter(c) <==> c as int == 0x2C || c as int == 0x7D || c as int == 0x5D
  {
  }

  /** The eight characters that may follow a backslash, and the code points they stand for. */
  const ESCAPES: seq<(nat, nat)> :=
    [(0x22, 0x22), (0x5C, 0x5C), (0x2F, 0x2F), (0x62, 0x08), (0x66, 0x0C), (0x6E, 0x0A), (0x72, 0x0D), (0x74, 0x09)]

  lemma {:induction false} EscapeIs(c: char, e: char)
    ensures Escaped(c) == Some(e) <==> (c as nat, e as nat) in ESCAPES
  {
  }

  lemma {:induction false} FourDigits(hex: string)
    requires |hex| == 4
    ensures HexValue(hex) ==
      match (HexDigit(hex[0]), HexDigit(hex[1]), HexDigit(hex[2]), HexDigit(hex[3]))
      case (Some(a), Some(b), Some(c), Some(d)) => Some(0x1000 * a + 0x100 * b + 0x10 * c + d)
      case (_, _, _, _) => None
  {
    hide HexDigit;
    assert hex[..3][..2] == hex[..2] && hex[..2][..1] == hex[..1] && hex[..1][..0] == "";
    assert HexValue("") == Some(0);
    assert HexValue(hex[..1]) == HexDigit(hex[0]);
    DigitStep(hex, 2);
    DigitStep(hex, 3);
    DigitStep(hex, 4);
    assert hex[..4] == hex;
  }

  lemma {:induction false} DigitStep(hex: string, n: nat)
    requires 0 < n <= |hex|
    ensures HexValue(hex[..n]) ==
      match (HexValue(hex[..n - 1]), HexDigit(hex[n - 1]))
      case (Some(base), Some(digit)) => Some(16 * base + digit)
      case (_, _) => None
  {
    assert hex[..n][..n - 1] == hex[..n - 1];
  }

  /** Four hexadecimal digits stand for the code point they write, unless that is a surrogate. */
  lemma {:induction false} UnicodeIs(hex: string, c: char, a: nat, b: nat, d: nat, e: nat)
    requires |hex| == 4 && Hex(hex[0], a) && Hex(hex[1], b) && Hex(hex[2], d) && Hex(hex[3], e)
    ensures Meaning(Unicode(hex)) == Some(c) <==> c as nat == 0x1000 * a + 0x100 * b + 0x10 * d + e
    ensures Meaning(Unicode(hex)).None? <==> 0xD800 <= 0x1000 * a + 0x100 * b + 0x10 * d + e <= 0xDFFF
  {
    HexIs(hex[0], a);
    HexIs(hex[1], b);
    HexIs(hex[2], d);
    HexIs(hex[3], e);
    hide HexDigit, Hex, HexValue;
    FourDigits(hex);
  }

  /** No other four characters do. */
  lemma {:induction false} UnicodeOnly(hex: string)
    requires Meaning(Unicode(hex)).Some?
    ensures |hex| == 4 && forall i :: 0 <= i < 4 ==> exists v :: Hex(hex[i], v)
  {
    FourDigits(hex);
    hide HexDigit, Hex, CodeChar, HexValue;
    forall i | 0 <= i < 4 ensures exists v :: Hex(hex[i], v) {
      HexIs(hex[i], HexDigit(hex[i]).value);
    }
  }

  /** Written as they are, characters from the space on stand for themselves, but for the quote and the backslash. */
  lemma {:induction false} PlainIs(c: char, e: char)
    ensures Meaning(Plain(c)) == Some(e) <==> e == c && 0x20 <= c as int && c as int != 0x22 && c as int != 0x5C
  {
  }

  // ----- the readers of the keys -----

  /** Keys whose value counts when it is a text and is passed over when it is not. */
  ghost predicate TextKey(name: string, key: string) {
    || name == "control" || name == "menu_alias"
    || (name == "tip" && key in ["image", "dir", "tip", "tip1", "tip2"])
    || (name == "menu_class" && key in ["key", "parent", "dir", "class"])
    || (name == "password" && key in PASSWORDS)
    || (name == "menupwd" && key in ["file", "parent", "pwd"])
    || (name in ["auto_install", "injection"] && key in ["image", "parent"])
    || (name in ["persistence", "dud"] && key == "image")
    || (name == "conf_replace" && key == "iso")
  }

  /** Keys whose value has to be a text. */
  ghost predicate BareKey(name: string, key: string) {
    (name == "injection" && key == "archive") || (name == "conf_replace" && (key == "org" || key == "new"))
  }

  /** Keys with a text or an array of texts. */
  ghost predicate ListKey(name: string, key: string) {
    || (name == "auto_install" && key == "template") || (name == "persistence" && key == "backend")
    || (name == "dud" && key == "dud")
  }

  ghost predicate NumberKey(name: string, key: string) {
    || (name in ["auto_install", "persistence"] && key in ["autosel", "timeout"])
    || (name == "conf_replace" && key == "img")
  }

  /** Keys with an array of objects, and the kind of those. */
  ghost predicate ObjectsKey(name: string, key: string, kind: string) {
    || (name == "menu_tip" && key == "tips" && kind == "tip")
    || (name == "password" && key == "menupwd" && kind == "menupwd")
  }

  ghost predicate IsLiteral(v: Json) { v.Text? && PiecesOk(v.pieces) }

  ghost predicate IsArray(v: Json) { v.List? && v.closer == ']' }

  /** What the key's reader makes of a value: nothing at all, if it refuses it. */
  ghost predicate KeyReads(name: string, key: string, v: Json, r: Option<FieldValue>) {
    && (TextKey(name, key) ==> r == Some(if IsLiteral(v) then TextIs(Decoded(v.pieces)) else Nothing))
    && (BareKey(name, key) ==>
          r == if IsLiteral(v) then Some(TextIs(Decoded(v.pieces))) else if v == Atom("") then Some(Nothing) else None)
    && (ListKey(name, key) ==>
          && (IsLiteral(v) ==> r == Some(ListIs([Decoded(v.pieces)])))
          && (IsArray(v) ==> forall ts :: r == Some(ListIs(ts)) <==> StringsOf(v.rest) == Some(ts))
          && (IsArray(v) ==> r.Some? ==> r.value.ListIs?)
          && (!IsLiteral(v) && !IsArray(v) ==> r == Some(Nothing)))
    && (NumberKey(name, key) ==>
          && (v.Atom? ==> forall n :: r == Some(NumberIs(n)) <==> SignedFrom(v.chars, n))
          && (!v.Atom? ==> r == Some(Nothing)))
    && (forall kind :: ObjectsKey(name, key, kind) ==>
          && (IsArray(v) ==> forall os :: r == Some(ObjectsAre(os)) <==> ObjectsOf(kind, v.rest) == Some(os))
          && (r.Some? ==> r.value.ObjectsAre? && IsArray(v)))
    && (TextKey(name, key) || BareKey(name, key) || ListKey(name, key) || NumberKey(name, key)
        || (exists kind :: ObjectsKey(name, key, kind)) || r == Some(Nothing))
  }

  lemma {:induction false} KeyIs(name: string, key: string)
    ensures KindOf(name, key) ==
      if TextKey(name, key) then OneText
      else if BareKey(name, key) then BareText
      else if ListKey(name, key) then TextOrList
      else if NumberKey(name, key) then Number
      else if ObjectsKey(name, key, "tip") then Objects("tip")
      else if ObjectsKey(name, key, "menupwd") then Objects("menupwd")
      else Skipped
  {
  }

  lemma {:induction false} KeyIsRead(name: string, key: string, v: Json)
    ensures KeyReads(name, key, v, KindValue(KindOf(name, key), v))
  {
    KeyIs(name, key);
    KindsApart(name, key);
    hide KindOf, TextKey, BareKey, ListKey, NumberKey, PiecesOk, Decoded, StringsOf, ObjectsOf, AtomNumber, SignedFrom;
    if v.Atom? {
      forall n ensures AtomNumber(v.chars) == Some(NumberIs(n)) <==> SignedFrom(v.chars, n) { SignedIs(v.chars, n); }
    }
  }

  /** No key has two readers. */
  lemma {:induction false} KindsApart(name: string, key: string)
    ensures TextKey(name, key) ==>
      !BareKey(name, key) && !ListKey(name, key) && !NumberKey(name, key) && forall kind :: !ObjectsKey(name, key, kind)
    ensures BareKey(name, key) ==>
      !ListKey(name, key) && !NumberKey(name, key) && forall kind :: !ObjectsKey(name, key, kind)
    ensures ListKey(name, key) ==> !NumberKey(name, key) && forall kind :: !ObjectsKey(name, key, kind)
    ensures NumberKey(name, key) ==> forall kind :: !ObjectsKey(name, key, kind)
  {
  }

  // ----- the fields at the top -----

  /** What a whole section is: an object, an array of texts, or an array of objects. */
  ghost predicate WholeReads(name: string, v: Json, r: Option<FieldValue>) {
    if name == "menu_tip" || name == "password" then
      && (forall es :: r == Some(FieldsAre(es)) <==> v.List? && v.closer == '}' && EntriesOf(name, v.rest) == Some(es))
      && (r.Some? ==> r.value.FieldsAre?)
    else if name == "auto_memdisk" then
      && (forall ts :: r == Some(ListIs(ts)) <==> IsArray(v) && StringsOf(v.rest) == Some(ts))
      && (r.Some? ==> r.value.ListIs?)
    else
      && (forall os :: r == Some(ObjectsAre(os)) <==> IsArray(v) && ObjectsOf(name, v.rest) == Some(os))
      && (r.Some? ==> r.value.ObjectsAre?)
  }

  /** The section's value is read, and the section gives the new data; `own` says which sections are taken. */
  ghost predicate SectionTaken(name: string, v: Json, st: State, own: set<string>, st': State) {
    exists x :: WholeReads(name, v, Some(x))
      && SectionGives(name, st.config.plugins, x, st'.config.plugins)
      && st' == State(st.config.(plugins := st'.config.plugins), own)
  }

  /** The list of images is read. */
  ghost predicate ListTaken(mode: ListMode, v: Json, st: State, st': State) {
    && IsArray(v) && StringsOf(v.rest).Some?
    && var ts := StringsOf(v.rest).value;
       st' == st.(config := st.config.(mode := mode, images := ts))
  }

  /**
   What the field does. Seven sections have one key. Four may have a key of
   their own for the platform, and from the first such on the plain key is
   passed over.
   */
  ghost predicate FieldGives(platform: string, key: string, v: Json, st: State, st': State) {
    if key in ["control", "menu_alias", "auto_install", "persistence", "injection", "dud", "conf_replace"] then
      SectionTaken(key, v, st, st.own, st')
    else if key == "menu_tip_" + platform then SectionTaken("menu_tip", v, st, st.own + {"menu_tip"}, st')
    else if key == "menu_class_" + platform then SectionTaken("menu_class", v, st, st.own + {"menu_class"}, st')
    else if key == "auto_memdisk_" + platform then SectionTaken("auto_memdisk", v, st, st.own + {"auto_memdisk"}, st')
    else if key in ["password_uefi", "password_aa64"] then SectionTaken("password", v, st, st.own + {"password"}, st')
    else if key in ["menu_tip", "menu_class", "auto_memdisk", "password"] then
      if key in st.own then st' == st else SectionTaken(key, v, st, st.own, st')
    else if key == "image_list" then ListTaken(Allow, v, st, st')
    else if key == "image_blacklist" then ListTaken(Deny, v, st, st')
    else st' == st
  }

  lemma {:induction false} WholeIs(name: string, v: Json)
    ensures WholeReads(name, v, KindValue(SectionKind(name), v))
  {
    hide StringsOf, ObjectsOf, EntriesOf;
  }

  /** Which of these a key is. */
  lemma {:induction false} ActionIs(platform: string, key: string, own: set<string>)
    ensures ActionFor(platform, key, own) ==
      if key in ["control", "menu_alias", "auto_install", "persistence", "injection", "dud", "conf_replace"] then
        Section(key, false)
      else if key == "menu_tip_" + platform then Section("menu_tip", true)
      else if key == "menu_class_" + platform then Section("menu_class", true)
      else if key == "auto_memdisk_" + platform then Section("auto_memdisk", true)
      else if key in ["password_uefi", "password_aa64"] then Section("password", true)
      else if key in ["menu_tip", "menu_class", "auto_memdisk", "password"] then
        if key in own then Skip else Section(key, false)
      else if key == "image_list" then Images(Allow)
      else if key == "image_blacklist" then Images(Deny)
      else Skip
  {
    OwnKeyIs("menu_tip", platform, "menu_tip_");
    OwnKeyIs("menu_class", platform, "menu_class_");
    OwnKeyIs("auto_memdisk", platform, "auto_memdisk_");
    hide OwnKey;
    assert ("auto_memdisk_" + platform)[0] == 'a' && ("menu_tip_" + platform)[0] == 'm';
    assert ("menu_class_" + platform)[0] == 'm' && ("auto_memdisk_" + platform)[5] == 'm';
    assert key in ["password_uefi", "password_aa64"] ==> key[0] == 'p';
  }

  lemma {:induction false} OwnKeyIs(section: string, platform: string, front: string)
    requires front == section + "_"
    ensures OwnKey(section, platform) == front + platform
  {
  }

  lemma {:induction false} WholeOnce(name: string, v: Json, x: FieldValue)
    requires WholeReads(name, v, Some(x))
    ensures KindValue(SectionKind(name), v) == Some(x)
  {
    WholeIs(name, v);
    hide StringsOf, ObjectsOf, EntriesOf, KindValue;
  }

  lemma {:induction false} NotTaken(name: string, v: Json, st: State, own: set<string>)
    requires KindValue(SectionKind(name), v).None?
    ensures forall st' :: !SectionTaken(name, v, st, own, st')
  {
    hide WholeReads, KindValue;
    forall x ensures !WholeReads(name, v, Some(x)) {
      if WholeReads(name, v, Some(x)) { WholeOnce(name, v, x); }
    }
  }

  /** The effect is that, and a field without any is refused. */
  lemma {:induction false} FieldIs(env: Env, st: State, f: Field)
    ensures match Effect(env, st, f)
      case Some(st') => FieldGives(env.platform, f.name, f.value, st, st')
      case None => forall st' :: !FieldGives(env.platform, f.name, f.value, st, st')
  {
    hide StringsOf, KindValue, Build, SectionGives, WholeReads, SectionKind, SectionTaken, WithSection, ActionFor;
    ActionIs(env.platform, f.name, st.own);
    var action := ActionFor(env.platform, f.name, st.own);
    if action.Section? {
      WholeIs(action.name, f.value);
      var read := KindValue(SectionKind(action.name), f.value);
      if read.Some? {
        SectionIs(action.name, st.config.plugins, read.value);
        TakenBy(env, st, action.name, action.claims, f.value, read.value);
      } else {
        NotTaken(action.name, f.value, st, if action.claims then st.own + {action.name} else st.own);
      }
    }
  }

  lemma {:induction false} TakenBy(env: Env, st: State, name: string, claims: bool, v: Json, x: FieldValue)
    requires WholeReads(name, v, Some(x))
    requires SectionGives(name, st.config.plugins, x, Build(name, st.config.plugins, x))
    ensures SectionTaken(name, v, st, if claims then st.own + {name} else st.own, WithSection(env, st, name, claims, x))
  {
    hide WholeReads, SectionGives, Build;
  }

  /** The configuration before the first field. */
  ghost predicate Empty(st: State) {
    && st.own == {} && st.config.mode == NoList && st.config.images == []
    && var d := st.config.plugins;
       && d.control == Control({}, {}, None, None, None, None, None, 0)
       && d.aliases == [] && d.tips == [] && d.classes == [] && d.passwords == Passwords(map[], [])
       && d.autoInstall == [] && d.persistence == [] && d.injection == [] && d.dud == []
       && d.replacements == [] && d.memdisk == []
  }

  /** The configuration is what the fields make of the empty one, one after the other. */
  ghost predicate FieldsGive(platform: string, fs: seq<Field>, sts: seq<State>) {
    && |sts| == |fs| + 1
    && forall i :: 0 <= i < |fs| ==> FieldGives(platform, fs[i].name, fs[i].value, sts[i], sts[i + 1])
  }

  lemma {:induction false} EachGives(env: Env, st: State, fs: seq<Field>) returns (sts: seq<State>)
    requires Folded(env, st, fs).Some?
    ensures FieldsGive(env.platform, fs, sts) && sts[0] == st && sts[|fs|] == Folded(env, st, fs).value
    decreases |fs|
  {
    hide Effect, FieldGives;
    if fs == [] {
      sts := [st];
    } else {
      FieldIs(env, st, fs[0]);
      var more := EachGives(env, Effect(env, st, fs[0]).value, fs[1..]);
      sts := [st] + more;
      forall i | 0 <= i < |fs| ensures FieldGives(env.platform, fs[i].name, fs[i].value, sts[i], sts[i + 1]) {
        if i > 0 { assert fs[i] == fs[1..][i - 1] && sts[i] == more[i - 1] && sts[i + 1] == more[i]; }
      }
    }
  }

  /** The document's fields give this configuration. */
  ghost predicate DocGives(platform: string, d: Doc, c: Config) {
    exists sts: seq<State> :: FieldsGive(platform, FieldsOf(d.members), sts) && Empty(sts[0])
      && sts[|sts| - 1].config == c
  }

  lemma {:induction false} DocIs(env: Env, d: Doc)
    ensures DocMeaning(env, d).Some? ==> DocGives(env.platform, d, DocMeaning(env, d).value)
  {
    hide Folded, FieldsOf, FieldsGive;
    if DocMeaning(env, d).Some? {
      var sts := EachGives(env, Start(env), FieldsOf(d.members));
      GiveSize(env.platform, FieldsOf(d.members), sts);
    }
  }

  lemma {:induction false} GiveSize(platform: string, fs: seq<Field>, sts: seq<State>)
    requires FieldsGive(platform, fs, sts)
    ensures |sts| == |fs| + 1
  {
    hide FieldGives;
  }
}
