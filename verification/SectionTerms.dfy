/**
 The settings of the control section, the passwords, and what every section
 adds to the data or replaces in it, key by key.
 */
module SectionTerms {
  import opened Common
  import opened JsonText
  import opened SectionSpec
  import opened SectionBuild
  import opened TextTerms
  import opened SectionRules

  // ----- control -----

  /** The fields of all objects, one object behind the other. */
  function Joined(objects: seq<seq<Entry>>): seq<Entry> {
    if objects == [] then [] else Joined(objects[..|objects| - 1]) + objects[|objects| - 1]
  }

  lemma {:induction false} ControlJoins(c: Control, a: seq<Entry>, b: seq<Entry>)
    ensures ControlledAll(c, a + b) == ControlledAll(ControlledAll(c, a), b)
  {
    if b == [] {
      assert a + b == a;
    } else {
      assert (a + b)[..|a + b| - 1] == a + b[..|b| - 1];
      ControlJoins(c, a, b[..|b| - 1]);
    }
  }

  lemma {:induction false} ControlFlat(c: Control, objects: seq<seq<Entry>>)
    ensures ControlledBy(c, objects) == ControlledAll(c, Joined(objects))
  {
    if objects != [] {
      var n := |objects| - 1;
      ControlFlat(c, objects[..n]);
      ControlJoins(c, Joined(objects[..n]), objects[n]);
    }
  }

  /** No text stands under the key. */
  ghost predicate NoText(es: seq<Entry>, key: string) { forall j :: !IsText(es, j, key) }

  /** A setting that is on exactly if the last text under its key is "1"; without any it stays as it was. */
  ghost predicate Switch(es: seq<Entry>, key: string, was: bool, now: bool) {
    if NoText(es, key) then now == was else now == LastTextIs(es, key, "1")
  }

  /** A number, read from the last text under its key. */
  ghost predicate NumberSet(es: seq<Entry>, key: string, was: Option<nat>, now: Option<nat>) {
    if NoText(es, key) then now == was else exists t :: LastTextIs(es, key, t) && UnsignedFrom(t, now)
  }

  /** The last text under the key that is not empty. */
  ghost predicate LastSolid(es: seq<Entry>, key: string, t: string) {
    t != "" && exists i :: TextAt(es, i, key, t) && forall j :: i < j && IsText(es, j, key) ==> TextAt(es, j, key, "")
  }

  ghost predicate RootSet(es: seq<Entry>, key: string, was: Option<string>, now: Option<string>) {
    if forall j :: IsText(es, j, key) ==> TextAt(es, j, key, "") then now == was
    else now.Some? && LastSolid(es, key, now.value)
  }

  ghost predicate DefaultSet(t: string, now: Option<string>) {
    match now case Some(p) => DefaultFrom(t, p) case None => forall p :: !DefaultFrom(t, p)
  }

  ghost predicate ImageSet(es: seq<Entry>, key: string, was: Option<string>, now: Option<string>) {
    if NoText(es, key) then now == was
    else exists t :: LastTextIs(es, key, t) && DefaultSet(t, now)
  }

  ghost predicate LockSet(es: seq<Entry>, key: string, was: nat, now: nat) {
    if NoText(es, key) then now == was
    else exists t :: LastTextIs(es, key, t) && now == LockRead(t)
  }

  /** The settings that are switches for a kind of file, and the other switches. */
  const FILTER_KEYS: seq<string> := [
    "VTOY_FILE_FLT_ISO", "VTOY_FILE_FLT_WIM", "VTOY_FILE_FLT_EFI", "VTOY_FILE_FLT_IMG", "VTOY_FILE_FLT_VHD",
    "VTOY_FILE_FLT_VTOY"]

  const FLAG_KEYS: seq<string> := [
    "VTOY_LINUX_REMOUNT", "VTOY_WINDOWS_CD_PROMPT", "VTOY_WIN11_BYPASS_CHECK", "VTOY_WIN11_BYPASS_NRO",
    "VTOY_FILT_DOT_UNDERSCORE_FILE"]

  /** What all fields together make of the settings. */
  ghost predicate ControlReads(c: Control, es: seq<Entry>, c': Control) {
    && (forall key :: key in FILTER_KEYS ==> Switch(es, key, key in c.filters, key in c'.filters))
    && (forall key :: key !in FILTER_KEYS ==> (key in c'.filters <==> key in c.filters))
    && (forall key :: key in FLAG_KEYS ==> Switch(es, key, key in c.flags, key in c'.flags))
    && (forall key :: key !in FLAG_KEYS ==> (key in c'.flags <==> key in c.flags))
    && RootSet(es, "VTOY_DEFAULT_SEARCH_ROOT", c.searchRoot, c'.searchRoot)
    && NumberSet(es, "VTOY_MAX_SEARCH_LEVEL", c.searchLevel, c'.searchLevel)
    && NumberSet(es, "VTOY_MENU_TIMEOUT", c.menuTimeout, c'.menuTimeout)
    && ImageSet(es, "VTOY_DEFAULT_IMAGE", c.defaultImage, c'.defaultImage)
    && NumberSet(es, "VTOY_DEFAULT_MENU_MODE", c.menuMode, c'.menuMode)
    && LockSet(es, "VTOY_WIN_UEFI_RES_LOCK", c.resolutionLock, c'.resolutionLock)
  }

  /** The last text under a key, one field at a time. */
  lemma {:induction false} LastTextStep(es: seq<Entry>, key: string)
    requires es != []
    ensures LastTextOf(es, key) ==
      if es[|es| - 1].key == key && es[|es| - 1].value.TextIs? then Some(es[|es| - 1].value.text)
      else LastTextOf(es[..|es| - 1], key)
  {
  }

  function LastSolidOf(es: seq<Entry>, key: string): Option<string> {
    if es == [] then None
    else
      var e := es[|es| - 1];
      if e.key == key && e.value.TextIs? && e.value.text != "" then Some(e.value.text)
      else LastSolidOf(es[..|es| - 1], key)
  }

  /** The settings by the last texts of their keys. */
  ghost predicate Settled(c: Control, es: seq<Entry>, c': Control) {
    && (forall key :: key in c'.filters <==>
          if key in FILTER_KEYS
            && LastTextOf(es, key).Some? then LastTextOf(es, key) == Some("1") else key in c.filters)
    && (forall key :: key in c'.flags <==>
          if key in FLAG_KEYS && LastTextOf(es, key).Some? then LastTextOf(es, key) == Some("1") else key in c.flags)
    && c'.searchRoot == (match LastSolidOf(es, "VTOY_DEFAULT_SEARCH_ROOT")
                         case Some(t) => Some(t) case None => c.searchRoot)
    && c'.searchLevel == (match LastTextOf(es, "VTOY_MAX_SEARCH_LEVEL")
                          case Some(t) => Unsigned(t) case None => c.searchLevel)
    && c'.menuTimeout == (match LastTextOf(es, "VTOY_MENU_TIMEOUT")
                          case Some(t) => Unsigned(t) case None => c.menuTimeout)
    && c'.defaultImage == (match LastTextOf(es, "VTOY_DEFAULT_IMAGE")
                           case Some(t) => CleanDefault(t) case None => c.defaultImage)
    && c'.menuMode == (match LastTextOf(es, "VTOY_DEFAULT_MENU_MODE")
                       case Some(t) => Unsigned(t) case None => c.menuMode)
    && c'.resolutionLock == (match LastTextOf(es, "VTOY_WIN_UEFI_RES_LOCK")
                             case Some(t) => LockOf(t) case None => c.resolutionLock)
  }

  /** The names of the settings are told apart by their length or by one character. */
  lemma {:induction false} NamesApart(key: string)
    ensures key in FILTERS <==> key in FILTER_KEYS
    ensures key in FLAGS <==> key in FLAG_KEYS
    ensures key in FILTER_KEYS ==> key !in FLAG_KEYS && |key| > 16 && key[6] == 'I' && key[8] == 'E'
    ensures key in FLAG_KEYS ==> |key| > 16 && (key[5] == 'L' || key[9] == '1' || key[9] == 'O' || key[8] == 'T')
  {
  }

  /** What one field does to each setting. */
  lemma {:induction false} SwitchesBy(c: Control, e: Entry)
    ensures var c' := Controlled(c, e);
      && (forall key :: key in c'.filters <==>
            if key in FILTER_KEYS && e.key == key && e.value.TextIs? then e.value.text == "1" else key in c.filters)
      && (forall key :: key in c'.flags <==>
            if key in FLAG_KEYS && e.key == key && e.value.TextIs? then e.value.text == "1" else key in c.flags)
  {
    NamesApart(e.key);
    hide Trim, CleanDefault, Unsigned;
  }

  /** Whether the field is a text under this key. */
  predicate By(e: Entry, key: string) { e.key == key && e.value.TextIs? }

  lemma {:induction false} NumbersBy(c: Control, e: Entry)
    ensures var c' := Controlled(c, e);
      && c'.searchLevel == (if By(e, "VTOY_MAX_SEARCH_LEVEL") then Unsigned(e.value.text) else c.searchLevel)
      && c'.menuTimeout == (if By(e, "VTOY_MENU_TIMEOUT") then Unsigned(e.value.text) else c.menuTimeout)
      && c'.menuMode == (if By(e, "VTOY_DEFAULT_MENU_MODE") then Unsigned(e.value.text) else c.menuMode)
  {
    NamesApart(e.key);
    hide Trim, CleanDefault, Unsigned, Toggled;
  }

  lemma {:induction false} TextsBy(c: Control, e: Entry)
    ensures var c' := Controlled(c, e);
      && c'.searchRoot == (if By(e, "VTOY_DEFAULT_SEARCH_ROOT") && e.value.text != "" then Some(e.value.text)
                           else c.searchRoot)
      && c'.defaultImage == (if By(e, "VTOY_DEFAULT_IMAGE") then CleanDefault(e.value.text) else c.defaultImage)
      && c'.resolutionLock ==
           (if By(e, "VTOY_WIN_UEFI_RES_LOCK") then LockOf(e.value.text) else c.resolutionLock)
  {
    NamesApart(e.key);
    hide Trim, CleanDefault, Unsigned, Toggled;
  }

  function LockOf(t: string): nat { if Trim(t) == "1" then 1 else if Trim(t) == "2" then 2 else 0 }

  lemma {:induction false} ControlStep(c: Control, es: seq<Entry>, c1: Control)
    requires es != [] && Settled(c, es[..|es| - 1], c1)
    ensures Settled(c, es, Controlled(c1, es[|es| - 1]))
  {
    hide Trim, CleanDefault, Unsigned, Controlled, LockOf, FILTER_KEYS, FLAG_KEYS;
    var e := es[|es| - 1];
    SwitchesBy(c1, e);
    NumbersBy(c1, e);
    TextsBy(c1, e);
    assert LastSolidOf(es, "VTOY_DEFAULT_SEARCH_ROOT") ==
      if By(e, "VTOY_DEFAULT_SEARCH_ROOT") && e.value.text != "" then Some(e.value.text)
      else LastSolidOf(es[..|es| - 1], "VTOY_DEFAULT_SEARCH_ROOT");
    hide LastSolidOf;
    forall key ensures LastTextOf(es, key) ==
      if By(e, key) then Some(e.value.text) else LastTextOf(es[..|es| - 1], key)
    {
      LastTextStep(es, key);
    }
    hide LastTextOf, By;
  }

  lemma {:induction false} ControlSettles(c: Control, es: seq<Entry>)
    ensures Settled(c, es, ControlledAll(c, es))
  {
    if es != [] {
      ControlSettles(c, es[..|es| - 1]);
      ControlStep(c, es, ControlledAll(c, es[..|es| - 1]));
    }
  }

  lemma {:induction false} NoTextIs(es: seq<Entry>, key: string)
    ensures NoText(es, key) <==> LastTextOf(es, key).None?
  {
    if es != [] {
      var n := |es| - 1;
      NoTextIs(es[..n], key);
      assert forall i :: i < n ==> (IsText(es[..n], i, key) <==> IsText(es, i, key));
      assert IsText(es, n, key) <==> By(es[n], key);
    }
  }

  lemma {:induction false} LastSolidIs(es: seq<Entry>, key: string)
    ensures match LastSolidOf(es, key)
      case Some(t) => LastSolid(es, key, t)
      case None => forall j :: IsText(es, j, key) ==> TextAt(es, j, key, "")
  {
    if es != [] {
      var n := |es| - 1;
      var before, e := es[..n], es[n];
      LastSolidIs(before, key);
      assert forall i :: i < n ==> (IsText(before, i, key) <==> IsText(es, i, key));
      assert forall i, t :: i < n ==> (TextAt(before, i, key, t) <==> TextAt(es, i, key, t));
      if By(e, key) && e.value.text != "" {
        assert TextAt(es, n, key, e.value.text);
      } else {
        assert IsText(es, n, key) ==> TextAt(es, n, key, "");
        match LastSolidOf(before, key)
        case Some(t) => SolidBefore(es, key, t);
        case None =>
      }
    }
  }

  lemma {:induction false} SolidBefore(es: seq<Entry>, key: string, t: string)
    requires es != [] && LastSolid(es[..|es| - 1], key, t)
    requires IsText(es, |es| - 1, key) ==> TextAt(es, |es| - 1, key, "")
    ensures LastSolid(es, key, t)
  {
    var before := es[..|es| - 1];
    var i :| TextAt(before, i, key, t) && forall j :: i < j && IsText(before, j, key) ==> TextAt(before, j, key, "");
    assert TextAt(es, i, key, t);
    forall j | i < j && IsText(es, j, key) ensures TextAt(es, j, key, "") {
      if j < |es| - 1 { assert IsText(before, j, key); }
    }
  }

  lemma {:induction false} NumberSetIs(es: seq<Entry>, key: string, was: Option<nat>)
    ensures NumberSet(es, key, was, match LastTextOf(es, key) case Some(t) => Unsigned(t) case None => was)
  {
    hide Unsigned, UnsignedFrom, LastTextIs, LastTextOf, NoText;
    NoTextIs(es, key);
    if LastTextOf(es, key).Some? {
      var t := LastTextOf(es, key).value;
      LastTextOfIs(es, key, t);
      UnsignedIs(t);
    }
  }

  lemma {:induction false} ImageSetIs(es: seq<Entry>, key: string, was: Option<string>)
    ensures ImageSet(es, key, was, match LastTextOf(es, key) case Some(t) => CleanDefault(t) case None => was)
  {
    hide CleanDefault, DefaultFrom, LastTextIs, LastTextOf, NoText;
    NoTextIs(es, key);
    if LastTextOf(es, key).Some? {
      var t := LastTextOf(es, key).value;
      LastTextOfIs(es, key, t);
      forall p ensures CleanDefault(t) == Some(p) <==> DefaultFrom(t, p) { DefaultIs(t, p); }
    }
  }

  lemma {:induction false} LockSetIs(es: seq<Entry>, key: string, was: nat)
    ensures LockSet(es, key, was, match LastTextOf(es, key) case Some(t) => LockOf(t) case None => was)
  {
    hide LockOf, LockRead, LastTextIs, LastTextOf, NoText;
    NoTextIs(es, key);
    if LastTextOf(es, key).Some? {
      var t := LastTextOf(es, key).value;
      LastTextOfIs(es, key, t);
      LockIs(t);
    }
  }

  lemma {:induction false} SwitchIs(es: seq<Entry>, key: string, was: bool)
    ensures Switch(es, key, was, if LastTextOf(es, key).Some? then LastTextOf(es, key) == Some("1") else was)
  {
    hide LastTextIs, LastTextOf, NoText;
    NoTextIs(es, key);
    LastTextOfIs(es, key, "1");
  }

  lemma {:induction false} RootSetIs(es: seq<Entry>, key: string, was: Option<string>)
    ensures RootSet(es, key, was, match LastSolidOf(es, key) case Some(t) => Some(t) case None => was)
  {
    LastSolidIs(es, key);
    assert forall i, t :: TextAt(es, i, key, t) ==> IsText(es, i, key);
  }

  lemma {:induction false} SwitchesAre(c: Control, es: seq<Entry>, c': Control)
    requires Settled(c, es, c')
    ensures forall key :: key in FILTER_KEYS ==> Switch(es, key, key in c.filters, key in c'.filters)
    ensures forall key :: key !in FILTER_KEYS ==> (key in c'.filters <==> key in c.filters)
    ensures forall key :: key in FLAG_KEYS ==> Switch(es, key, key in c.flags, key in c'.flags)
    ensures forall key :: key !in FLAG_KEYS ==> (key in c'.flags <==> key in c.flags)
  {
    hide CleanDefault, Unsigned, LockOf, LastTextOf, LastSolidOf, Switch, FILTER_KEYS, FLAG_KEYS;
    forall key | key in FILTER_KEYS ensures Switch(es, key, key in c.filters, key in c'.filters) {
      SwitchIs(es, key, key in c.filters);
    }
    forall key | key in FLAG_KEYS ensures Switch(es, key, key in c.flags, key in c'.flags) {
      SwitchIs(es, key, key in c.flags);
    }
  }

  lemma {:induction false} SettledReads(c: Control, es: seq<Entry>, c': Control)
    requires Settled(c, es, c')
    ensures ControlReads(c, es, c')
  {
    SwitchesAre(c, es, c');
    hide CleanDefault, Unsigned, LockOf, LastTextOf, LastSolidOf, Switch, NumberSet, FILTER_KEYS, FLAG_KEYS;
    hide ImageSet, LockSet, RootSet;
    RootSetIs(es, "VTOY_DEFAULT_SEARCH_ROOT", c.searchRoot);
    NumberSetIs(es, "VTOY_MAX_SEARCH_LEVEL", c.searchLevel);
    NumberSetIs(es, "VTOY_MENU_TIMEOUT", c.menuTimeout);
    ImageSetIs(es, "VTOY_DEFAULT_IMAGE", c.defaultImage);
    NumberSetIs(es, "VTOY_DEFAULT_MENU_MODE", c.menuMode);
    LockSetIs(es, "VTOY_WIN_UEFI_RES_LOCK", c.resolutionLock);
  }

  /** The control section's settings, from the fields of all its objects. */
  lemma {:induction false} ControlIs(c: Control, objects: seq<seq<Entry>>)
    ensures ControlReads(c, Joined(objects), ControlledBy(c, objects))
  {
    hide Settled, ControlReads, ControlledAll, ControlledBy;
    ControlFlat(c, objects);
    ControlSettles(c, Joined(objects));
    SettledReads(c, Joined(objects), ControlledBy(c, objects));
  }

  ghost function LockRead(t: string): nat { if Trims(t, "1") then 1 else if Trims(t, "2") then 2 else 0 }

  lemma {:induction false} LockIs(t: string)
    ensures LockOf(t) == LockRead(t)
  {
    hide Trim, Trims;
    TrimIs(t);
    if Trims(t, "1") { TrimOnce(t, "1"); }
    if Trims(t, "2") { TrimOnce(t, "2"); }
  }

  // ----- passwords -----

  /** The objects under a key that ends in an array of them; without one there are none. */
  ghost predicate ObjectsUnder(es: seq<Entry>, key: string, os: seq<seq<Entry>>) {
    EndsIn(es, key, ObjectsAre(os)) || (os == [] && forall o :: !EndsIn(es, key, ObjectsAre(o)))
  }

  lemma {:induction false} ObjectsAreUnder(es: seq<Entry>, key: string)
    ensures ObjectsUnder(es, key, RulesIn(LastOf(es, key)))
  {
    hide EndsIn, LastOf;
    forall o ensures LastOf(es, key) == ObjectsAre(o) <==> EndsIn(es, key, ObjectsAre(o)) {
      LastIs(es, key, ObjectsAre(o));
    }
  }

  const PASSWORDS: seq<string> := ["bootpwd", "isopwd", "wimpwd", "efipwd", "imgpwd", "vhdpwd", "vtoypwd"]

  /** One password for each kind of image that has a usable one, and those of the menu. */
  ghost predicate PasswordsRead(es: seq<Entry>, p: Passwords) {
    && (forall key :: key in p.single <==> key in PASSWORDS && exists s :: EndsInPassword(es, key, s))
    && (forall key :: key in p.single ==> EndsInPassword(es, key, p.single[key]))
    && exists os :: ObjectsUnder(es, "menupwd", os) && MadeOf(os, MenuPasswordReads, p.menu)
  }

  lemma {:induction false} PasswordsAre(es: seq<Entry>)
    ensures PasswordsRead(es, PasswordsOf(es))
  {
    hide LastOf, SecretOf, EndsInPassword, Made, MadeOf, ObjectsUnder, RulesIn;
    var p := PasswordsOf(es);
    forall key, s ensures SecretOf(LastOf(es, key)) == Some(s) <==>
      EndsInPassword(es, key, s) { SecretOfIs(es, key, s); }
    forall key ensures key in PASSWORD_KEYS <==> key in PASSWORDS { }
    hide PASSWORDS;
    MenuMade(es);
  }

  lemma {:induction false} MenuMade(es: seq<Entry>)
    ensures exists os :: ObjectsUnder(es, "menupwd", os) && MadeOf(os, MenuPasswordReads, PasswordsOf(es).menu)
  {
    hide LastOf, SecretOf, Made, MadeOf, ObjectsUnder, RulesIn, MenuPasswordOf, MenuPasswordReads;
    ObjectsAreUnder(es, "menupwd");
    forall o, r ensures MenuPasswordOf(o) == Some(r) <==> MenuPasswordReads(o, r) { MenuPasswordIs(o, r); }
    MadeIs(RulesIn(LastOf(es, "menupwd")), MenuPasswordOf, MenuPasswordReads);
  }

  // ----- every section -----

  /** What a list has grown by. */
  ghost predicate Grown<V(!new)>(was: seq<V>, now: seq<V>, more: seq<V>) { now == was + more }

  ghost predicate Adds<V(!new)>(
    was: seq<V>, now: seq<V>, objects: seq<seq<Entry>>, makes: (seq<Entry>, V) -> bool)
  {
    exists more :: Grown(was, now, more) && MadeOf(objects, makes, more)
  }

  lemma {:induction false} AddsMade<V(!new)>(
      was: seq<V>, objects: seq<seq<Entry>>, one: seq<Entry> -> Option<V>, makes: (seq<Entry>, V) -> bool)
    requires forall es, v :: one(es) == Some(v) <==> makes(es, v)
    ensures Adds(was, was + Made(objects, one), objects, makes)
  {
    hide MadeOf, Made;
    MadeIs(objects, one, makes);
    assert Grown(was, was + Made(objects, one), Made(objects, one));
  }

  /**
   What the section of this name makes of the value it has read: which of the
   data it changes, and how that comes from the value.
   */
  ghost predicate SectionGives(name: string, d: Plugins, x: FieldValue, d': Plugins) {
    var objects := if x.ObjectsAre? then x.objects else [];
    var es := if x.FieldsAre? then x.entries else [];
    match name
    case "control" => d' == d.(control := d'.control) && ControlReads(d.control, Joined(objects), d'.control)
    case "menu_alias" => d' == d.(aliases := d'.aliases) && Adds(d.aliases, d'.aliases, objects, AliasReads)
    case "menu_tip" =>
      d' == d.(tips := d'.tips) && exists os :: ObjectsUnder(es, "tips", os) && MadeOf(os, TipReads, d'.tips)
    case "menu_class" => d' == d.(classes := d'.classes) && MadeOf(objects, ClassReads, d'.classes)
    case "password" => d' == d.(passwords := d'.passwords) && PasswordsRead(es, d'.passwords)
    case "auto_install" =>
      d' == d.(autoInstall := d'.autoInstall) && Adds(d.autoInstall, d'.autoInstall, objects, AutoInstallReads)
    case "persistence" =>
      d' == d.(persistence := d'.persistence) && Adds(d.persistence, d'.persistence, objects, PersistenceReads)
    case "injection" =>
      d' == d.(injection := d'.injection) && Adds(d.injection, d'.injection, objects, InjectionReads)
    case "dud" => d' == d.(dud := d'.dud) && Adds(d.dud, d'.dud, objects, DudReads)
    case "conf_replace" =>
      d' == d.(replacements := d'.replacements) && Adds(d.replacements, d'.replacements, objects, ReplacementReads)
    case "auto_memdisk" =>
      && d' == d.(memdisk := d'.memdisk)
      && exists more :: Grown(d.memdisk, d'.memdisk, more) && Cleaned(if x.ListIs? then x.texts else [], more)
    case _ => d' == d
  }

  lemma {:induction false} SectionIs(name: string, d: Plugins, x: FieldValue)
    ensures SectionGives(name, d, x, Build(name, d, x))
  {
    hide Made, MadeOf, Adds, ControlledBy, ControlReads, PasswordsOf, PasswordsRead, CleanAll, LastOf, Cleaned;
    hide ObjectsUnder, Joined;
    hide AliasReads, TipReads, ClassReads, AutoInstallReads, PersistenceReads, InjectionReads, DudReads;
    hide ReplacementReads;
    hide AliasOf, TipOf, ClassOf, AutoInstallOf, PersistenceOf, InjectionOf, DudOf, ReplacementOf;
    ControlIs(d.control, RulesIn(x));
    PasswordsAre(EntriesIn(x));
    PathsAre(PathsOf(x));
    ObjectsAreUnder(EntriesIn(x), "tips");
    RulesAdd(d, RulesIn(x));
    RulesReplace(RulesIn(x));
    RulesReplace(RulesIn(LastOf(EntriesIn(x), "tips")));
    assert Grown(d.memdisk, d.memdisk + CleanAll(PathsOf(x)), CleanAll(PathsOf(x)));
  }

  lemma {:induction false} RulesAdd(d: Plugins, os: seq<seq<Entry>>)
    ensures Adds(d.aliases, d.aliases + Made(os, AliasOf), os, AliasReads)
    ensures Adds(d.autoInstall, d.autoInstall + Made(os, AutoInstallOf), os, AutoInstallReads)
    ensures Adds(d.persistence, d.persistence + Made(os, PersistenceOf), os, PersistenceReads)
    ensures Adds(d.injection, d.injection + Made(os, InjectionOf), os, InjectionReads)
    ensures Adds(d.dud, d.dud + Made(os, DudOf), os, DudReads)
    ensures Adds(d.replacements, d.replacements + Made(os, ReplacementOf), os, ReplacementReads)
  {
    hide *;
    forall o, r ensures AliasOf(o) == Some(r) <==> AliasReads(o, r) { AliasIs(o, r); }
    forall o, r ensures AutoInstallOf(o) == Some(r) <==> AutoInstallReads(o, r) { AutoInstallIs(o, r); }
    forall o, r ensures PersistenceOf(o) == Some(r) <==> PersistenceReads(o, r) { PersistenceIs(o, r); }
    forall o, r ensures InjectionOf(o) == Some(r) <==> InjectionReads(o, r) { InjectionIs(o, r); }
    forall o, r ensures DudOf(o) == Some(r) <==> DudReads(o, r) { DudIs(o, r); }
    forall o, r ensures ReplacementOf(o) == Some(r) <==> ReplacementReads(o, r) { ReplacementIs(o, r); }
    AddsMade(d.aliases, os, AliasOf, AliasReads);
    AddsMade(d.autoInstall, os, AutoInstallOf, AutoInstallReads);
    AddsMade(d.persistence, os, PersistenceOf, PersistenceReads);
    AddsMade(d.injection, os, InjectionOf, InjectionReads);
    AddsMade(d.dud, os, DudOf, DudReads);
    AddsMade(d.replacements, os, ReplacementOf, ReplacementReads);
  }

  lemma {:induction false} RulesReplace(os: seq<seq<Entry>>)
    ensures MadeOf(os, TipReads, Made(os, TipOf)) && MadeOf(os, ClassReads, Made(os, ClassOf))
  {
    hide *;
    forall o, r ensures TipOf(o) == Some(r) <==> TipReads(o, r) { TipIs(o, r); }
    forall o, r ensures ClassOf(o) == Some(r) <==> ClassReads(o, r) { ClassIs(o, r); }
    MadeIs(os, TipOf, TipReads);
    MadeIs(os, ClassOf, ClassReads);
  }
}
