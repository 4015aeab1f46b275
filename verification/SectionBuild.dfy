/**
 What the sections make of the values they have read: the plugin data of the
 configuration, section by section.
 */
module SectionBuild {
  import opened Common
  import opened JsonText
  import opened SectionSpec

  // ----- paths and numbers in text -----

  /** White space as Unicode has it. */
  predicate Space(c: char) {
    || '\t' <= c <= '\r'
      || c in {' ', '\U{0085}', '\U{00A0}', '\U{1680}', '\U{2028}', '\U{2029}', '\U{202F}', '\U{205F}'}
    || '\U{2000}' <= c <= '\U{200A}' || c == '\U{3000}'
  }

  function TrimStart(s: string): (r: string)
    ensures r == "" || !Space(r[0])
    ensures s == "" || !Space(s[0]) ==> r == s
  {
    if s != "" && Space(s[0]) then TrimStart(s[1..]) else s
  }

  function TrimEnd(s: string): (r: string)
    ensures r <= s && (r == "" || !Space(r[|r| - 1]))
    ensures s == "" || !Space(s[|s| - 1]) ==> r == s
  {
    if s != "" && Space(s[|s| - 1]) then TrimEnd(s[..|s| - 1]) else s
  }

  /** The text without the white space around it. */
  function Trim(s: string): (r: string)
    ensures r == "" || (!Space(r[0]) && !Space(r[|r| - 1]))
  {
    TrimEnd(TrimStart(s))
  }

  predicate Absolute(path: string) { path != "" && path[0] in {'/', '\\'} }

  function Slashes(path: string): (r: string)
    ensures |r| == |path| && '\\' !in r
  {
    seq(|path|, i requires 0 <= i < |path| => if path[i] == '\\' then '/' else path[i])
  }

  function Normalized(path: string): string {
    var t := Trim(path);
    if t == "" then "" else if Absolute(t) then Slashes(t) else "/" + Slashes(t)
  }

  /** clean_plugin_path */
  function Clean(path: string): Option<string> { if Absolute(path) then Some(Normalized(path)) else None }

  function CleanAll(paths: seq<string>): seq<string> {
    if paths == [] then []
    else (match Clean(paths[0]) case Some(p) => [p] case None => []) + CleanAll(paths[1..])
  }

  /** A function key in front of the default image. */
  predicate HotKey(t: string) { |t| > 3 && t[0] in {'F', 'f'} && '2' <= t[1] <= '9' && t[2] == '>' }

  function CleanDefault(path: string): Option<string> {
    var t := Trim(path);
    Clean(Trim(if HotKey(t) then t[3..] else t))
  }

  const U32_MAX: nat := 0xFFFF_FFFF

  /** parse_u32_text */
  function Unsigned(text: string): Option<nat> {
    var t := Trim(text);
    if t == "" || !AllDigits(t) || DigitsValue(t) > U32_MAX then None else Some(DigitsValue(t))
  }

  // ----- passwords -----

  /** The length of the text in UTF-8. */
  function Utf8Length(s: string): nat {
    if s == "" then 0
    else
      var c := s[0];
      (if c < '\U{0080}' then 1 else if c < '\U{0800}' then 2 else if c < '\U{10000}' then 3 else 4)
      + Utf8Length(s[1..])
  }

  datatype Password = PlainText(text: string) | Md5(digest: seq<nat>) | SaltedMd5(salt: string, digest: seq<nat>)

  function HexBytes(t: string): Option<seq<nat>> {
    if t == "" then Some([])
    else if |t| == 1 then None
    else
      match (HexDigit(t[0]), HexDigit(t[1]), HexBytes(t[2..]))
      case (Some(a), Some(b), Some(more)) => Some([16 * a + b] + more)
      case (_, _, _) => None
  }

  function Digest(t: string): Option<seq<nat>> { if Utf8Length(t) == 32 then HexBytes(t) else None }

  function SplitAt(t: string, c: char): Option<(string, string)> {
    if t == "" then None
    else if t[0] == c then Some(("", t[1..]))
    else match SplitAt(t[1..], c) case Some((a, b)) => Some(([t[0]] + a, b)) case None => None
  }

  function PasswordOf(value: string): Option<Password> {
    if Utf8Length(value) > 64 then None
    else if "txt#" <= value then Some(PlainText(value[4..]))
    else if !("md5#" <= value) then None
    else if Utf8Length(value[4..]) == 32 then
      match Digest(value[4..]) case Some(d) => Some(Md5(d)) case None => None
    else
      match SplitAt(value[4..], '#')
      case None => None
      case Some((salt, digest)) => match Digest(digest) case Some(d) => Some(SaltedMd5(salt, d)) case None => None
  }

  // ----- the data -----

  datatype PathTarget = Image(path: string) | Parent(path: string)

  datatype Rule<+V> = Rule(target: PathTarget, value: V)

  datatype MenuAlias = MenuAlias(image: string, name: string)

  datatype TipTarget = TipImage(path: string) | TipDir(path: string)

  datatype MenuTip = MenuTip(target: TipTarget, tip1: string, tip2: string)

  datatype ClassTarget = ClassKey(key: string) | ClassParent(path: string) | ClassDir(dir: string)

  datatype MenuClass = MenuClass(target: ClassTarget, name: string)

  /** Files to choose from, which one, and how long to wait. */
  datatype Choice = Choice(paths: seq<string>, autosel: Option<nat>, timeout: Option<nat>)

  datatype Replacement = Replacement(img: Option<int>, org: string, replacing: string)

  datatype Passwords = Passwords(single: map<string, Password>, menu: seq<Rule<Password>>)

  datatype Control = Control(
    filters: set<string>, flags: set<string>, searchRoot: Option<string>, searchLevel: Option<nat>,
    menuTimeout: Option<nat>, defaultImage: Option<string>, menuMode: Option<nat>, resolutionLock: nat)

  datatype Plugins = Plugins(
    control: Control, aliases: seq<MenuAlias>, tips: seq<MenuTip>, classes: seq<MenuClass>, passwords: Passwords,
    autoInstall: seq<Rule<Choice>>, persistence: seq<Rule<Choice>>, injection: seq<Rule<string>>,
    dud: seq<Rule<seq<string>>>, replacements: seq<Rule<Replacement>>, memdisk: seq<string>)

  const NOTHING: Plugins :=
    Plugins(Control({}, {}, None, None, None, None, None, 0), [], [], [], Passwords(map[], []), [], [], [], [], [], [])

  // ----- the values of an object's keys -----

  function TextOf(x: FieldValue): Option<string> { if x.TextIs? then Some(x.text) else None }

  function PathOf(x: FieldValue): Option<string> { if x.TextIs? then Clean(x.text) else None }

  function PathsOf(x: FieldValue): seq<string> { if x.ListIs? then x.texts else [] }

  function NumberOf(x: FieldValue): Option<int> { if x.NumberIs? then Some(x.number) else None }

  function CountOf(x: FieldValue): Option<nat> { if x.NumberIs? && x.number >= 0 then Some(x.number) else None }

  function SecretOf(x: FieldValue): Option<Password> { if x.TextIs? then PasswordOf(x.text) else None }

  function RulesIn(x: FieldValue): seq<seq<Entry>> { if x.ObjectsAre? then x.objects else [] }

  /** The value of a key where the last one counts; nothing if the key is missing. */
  function LastOf(es: seq<Entry>, key: string): FieldValue {
    if es == [] then Nothing
    else if es[|es| - 1].key == key then es[|es| - 1].value
    else LastOf(es[..|es| - 1], key)
  }

  /** The last text under one of two keys. */
  function LastText(es: seq<Entry>, key: string, other: string): string {
    if es == [] then ""
    else
      var e := es[|es| - 1];
      if (e.key == key || e.key == other) && e.value.TextIs? then e.value.text
      else LastText(es[..|es| - 1], key, other)
  }

  /** The target after the fields: an image replaces what there was, a parent only fills a gap. */
  function TargetOf(es: seq<Entry>, image: string): Option<PathTarget> {
    if es == [] then None
    else
      var e, before := es[|es| - 1], TargetOf(es[..|es| - 1], image);
      if e.key == image then
        match PathOf(e.value) case Some(p) => Some(Image(p)) case None => before
      else if e.key == "parent" && before.None? then
        match PathOf(e.value) case Some(p) => Some(Parent(p)) case None => None
      else before
  }

  /** Where only the last image counts, even one that is no path. */
  function ImageOf(es: seq<Entry>, key: string): Option<PathTarget> {
    match PathOf(LastOf(es, key)) case Some(p) => Some(Image(p)) case None => None
  }

  function TipTargetOf(es: seq<Entry>): Option<TipTarget> {
    if es == [] then None
    else
      var e, before := es[|es| - 1], TipTargetOf(es[..|es| - 1]);
      if e.key == "image" then
        match PathOf(e.value) case Some(p) => Some(TipImage(p)) case None => before
      else if e.key == "dir" && before.None? then
        match PathOf(e.value) case Some(p) => Some(TipDir(p)) case None => None
      else before
  }

  function ClassTargetOf(es: seq<Entry>): Option<ClassTarget> {
    if es == [] then None
    else
      var e, before := es[|es| - 1], ClassTargetOf(es[..|es| - 1]);
      if e.key == "key" then
        match TextOf(e.value) case Some(t) => Some(ClassKey(t)) case None => before
      else if e.key == "parent" && before.None? then
        match PathOf(e.value) case Some(p) => Some(ClassParent(p)) case None => None
      else if e.key == "dir" && before.None? then
        match TextOf(e.value) case Some(t) => Some(ClassDir(t)) case None => None
      else before
  }

  // ----- one object of each section -----

  function AliasOf(es: seq<Entry>): Option<MenuAlias> {
    match (LastTextOf(es, "image"), LastTextOf(es, "alias"))
    case (Some(image), Some(name)) => Some(MenuAlias(image, name))
    case (_, _) => None
  }

  /** The last text under a key, whatever other values come behind it. */
  function LastTextOf(es: seq<Entry>, key: string): Option<string> {
    if es == [] then None
    else if es[|es| - 1].key == key && es[|es| - 1].value.TextIs? then Some(es[|es| - 1].value.text)
    else LastTextOf(es[..|es| - 1], key)
  }

  function TipOf(es: seq<Entry>): Option<MenuTip> {
    var tip1, tip2 := LastText(es, "tip", "tip1"), LastText(es, "tip2", "tip2");
    match TipTargetOf(es)
    case Some(t) => if tip1 == "" && tip2 == "" then None else Some(MenuTip(t, tip1, tip2))
    case None => None
  }

  function ClassOf(es: seq<Entry>): Option<MenuClass> {
    match (ClassTargetOf(es), LastTextOf(es, "class"))
    case (Some(t), Some(name)) => if name == "" then None else Some(MenuClass(t, name))
    case (_, _) => None
  }

  function MenuPasswordOf(es: seq<Entry>): Option<Rule<Password>> {
    match (TargetOf(es, "file"), SecretOf(LastOf(es, "pwd")))
    case (Some(t), Some(p)) => Some(Rule(t, p))
    case (_, _) => None
  }

  function ChoiceOf(es: seq<Entry>, paths: string): Choice {
    Choice(CleanAll(PathsOf(LastOf(es, paths))), CountOf(LastOf(es, "autosel")), CountOf(LastOf(es, "timeout")))
  }

  function ChoiceRule(t: Option<PathTarget>, c: Choice): Option<Rule<Choice>> {
    if t.Some? && c.paths != [] then Some(Rule(t.value, c)) else None
  }

  function InjectionOf(es: seq<Entry>): Option<Rule<string>> {
    match (TargetOf(es, "image"), PathOf(LastOf(es, "archive")))
    case (Some(t), Some(p)) => Some(Rule(t, p))
    case (_, _) => None
  }

  function DudOf(es: seq<Entry>): Option<Rule<seq<string>>> {
    var files := CleanAll(PathsOf(LastOf(es, "dud")));
    match ImageOf(es, "image")
    case Some(t) => if files == [] then None else Some(Rule(t, files))
    case None => None
  }

  function ReplacementOf(es: seq<Entry>): Option<Rule<Replacement>> {
    match (ImageOf(es, "iso"), PathOf(LastOf(es, "org")), PathOf(LastOf(es, "new")))
    case (Some(t), Some(org), Some(p)) => Some(Rule(t, Replacement(NumberOf(LastOf(es, "img")), org, p)))
    case (_, _, _) => None
  }

  /** What the objects make, in their order. */
  function Made<V>(objects: seq<seq<Entry>>, one: seq<Entry> -> Option<V>): seq<V> {
    if objects == [] then []
    else (match one(objects[0]) case Some(v) => [v] case None => []) + Made(objects[1..], one)
  }

  // ----- control -----

  const FILTERS: set<string> := {
    "VTOY_FILE_FLT_ISO", "VTOY_FILE_FLT_WIM", "VTOY_FILE_FLT_EFI", "VTOY_FILE_FLT_IMG", "VTOY_FILE_FLT_VHD",
    "VTOY_FILE_FLT_VTOY"}

  const FLAGS: set<string> := {
    "VTOY_LINUX_REMOUNT", "VTOY_WINDOWS_CD_PROMPT", "VTOY_WIN11_BYPASS_CHECK", "VTOY_WIN11_BYPASS_NRO",
    "VTOY_FILT_DOT_UNDERSCORE_FILE"}

  function Toggled(on: set<string>, key: string, value: string): set<string> {
    if value == "1" then on + {key} else on - {key}
  }

  function Controlled(c: Control, e: Entry): Control {
    match e.value
    case TextIs(value) =>
      if e.key in FILTERS then c.(filters := Toggled(c.filters, e.key, value))
      else if e.key in FLAGS then c.(flags := Toggled(c.flags, e.key, value))
      else (
        match e.key
        case "VTOY_DEFAULT_SEARCH_ROOT" => if value == "" then c else c.(searchRoot := Some(value))
        case "VTOY_MAX_SEARCH_LEVEL" => c.(searchLevel := Unsigned(value))
        case "VTOY_MENU_TIMEOUT" => c.(menuTimeout := Unsigned(value))
        case "VTOY_DEFAULT_IMAGE" => c.(defaultImage := CleanDefault(value))
        case "VTOY_DEFAULT_MENU_MODE" => c.(menuMode := Unsigned(value))
        case "VTOY_WIN_UEFI_RES_LOCK" =>
          c.(resolutionLock := if Trim(value) == "1" then 1 else if Trim(value) == "2" then 2 else 0)
        case _ => c)
    case _ => c
  }

  function ControlledAll(c: Control, es: seq<Entry>): Control {
    if es == [] then c else Controlled(ControlledAll(c, es[..|es| - 1]), es[|es| - 1])
  }

  function ControlledBy(c: Control, objects: seq<seq<Entry>>): Control {
    if objects == [] then c
    else ControlledAll(ControlledBy(c, objects[..|objects| - 1]), objects[|objects| - 1])
  }

  function PasswordsOf(es: seq<Entry>): Passwords {
    Passwords(map key | key in PASSWORD_KEYS && SecretOf(LastOf(es, key)).Some? :: SecretOf(LastOf(es, key)).value,
              Made(RulesIn(LastOf(es, "menupwd")), MenuPasswordOf))
  }

  function EntriesIn(x: FieldValue): seq<Entry> { if x.FieldsAre? then x.entries else [] }

  // ----- all sections -----

  datatype Section =
    | ControlSection | AliasSection | TipSection | ClassSection | PasswordSection | AutoInstallSection
    | PersistenceSection | InjectionSection | DudSection | ReplaceSection | MemdiskSection

  function SectionOf(name: string): (r: Option<Section>)
    ensures r.Some? ==> NameOf(r.value) == name
  {
    match name
    case "control" => Some(ControlSection)
    case "menu_alias" => Some(AliasSection)
    case "menu_tip" => Some(TipSection)
    case "menu_class" => Some(ClassSection)
    case "password" => Some(PasswordSection)
    case "auto_install" => Some(AutoInstallSection)
    case "persistence" => Some(PersistenceSection)
    case "injection" => Some(InjectionSection)
    case "dud" => Some(DudSection)
    case "conf_replace" => Some(ReplaceSection)
    case "auto_memdisk" => Some(MemdiskSection)
    case _ => None
  }

  function NameOf(n: Section): string {
    match n
    case ControlSection => "control"
    case AliasSection => "menu_alias"
    case TipSection => "menu_tip"
    case ClassSection => "menu_class"
    case PasswordSection => "password"
    case AutoInstallSection => "auto_install"
    case PersistenceSection => "persistence"
    case InjectionSection => "injection"
    case DudSection => "dud"
    case ReplaceSection => "conf_replace"
    case MemdiskSection => "auto_memdisk"
  }

  function AutoInstallOf(es: seq<Entry>): Option<Rule<Choice>> {
    ChoiceRule(TargetOf(es, "image"), ChoiceOf(es, "template"))
  }

  function PersistenceOf(es: seq<Entry>): Option<Rule<Choice>> {
    ChoiceRule(ImageOf(es, "image"), ChoiceOf(es, "backend"))
  }

  /** What a section makes of what it has read: some add to the data there are, others replace them. */
  function Updated(n: Section, d: Plugins, x: FieldValue): Plugins {
    match n
    case ControlSection => d.(control := ControlledBy(d.control, RulesIn(x)))
    case AliasSection => d.(aliases := d.aliases + Made(RulesIn(x), AliasOf))
    case TipSection => d.(tips := Made(RulesIn(LastOf(EntriesIn(x), "tips")), TipOf))
    case ClassSection => d.(classes := Made(RulesIn(x), ClassOf))
    case PasswordSection => d.(passwords := PasswordsOf(EntriesIn(x)))
    case AutoInstallSection => d.(autoInstall := d.autoInstall + Made(RulesIn(x), AutoInstallOf))
    case PersistenceSection => d.(persistence := d.persistence + Made(RulesIn(x), PersistenceOf))
    case InjectionSection => d.(injection := d.injection + Made(RulesIn(x), InjectionOf))
    case DudSection => d.(dud := d.dud + Made(RulesIn(x), DudOf))
    case ReplaceSection => d.(replacements := d.replacements + Made(RulesIn(x), ReplacementOf))
    case MemdiskSection => d.(memdisk := d.memdisk + CleanAll(PathsOf(x)))
  }

  function Build(section: string, d: Plugins, x: FieldValue): Plugins {
    match SectionOf(section) case Some(n) => Updated(n, d, x) case None => d
  }

  /** Sections that keep what their last reading gave. */
  predicate Replaces(n: Section) { n.TipSection? || n.ClassSection? || n.PasswordSection? }

  // ----- what that comes to -----

  lemma {:induction false} TrimKeeps(s: string)
    requires s != "" && !Space(s[0])
    ensures TrimEnd(s) != "" && TrimEnd(s)[0] == s[0]
  {
    if Space(s[|s| - 1]) { TrimKeeps(s[..|s| - 1]); }
  }

  /** A path that a section keeps is absolute, has no backslash, and stays as it is. */
  lemma {:induction false} CleanIsClean(path: string)
    requires Clean(path).Some?
    ensures var p := Clean(path).value;
      p != "" && p[0] == '/' && '\\' !in p && Clean(p) == Some(p)
  {
    TrimKeeps(path);
    var t, p := Trim(path), Normalized(path);
    SlashesKeep(t);
    TrimmedStays(p);
    assert Slashes(p) == p;
  }

  lemma {:induction false} SlashesKeep(t: string)
    requires t != "" && !Space(t[0]) && !Space(t[|t| - 1])
    ensures !Space(Slashes(t)[0]) && !Space(Slashes(t)[|t| - 1])
  {
  }

  lemma {:induction false} TrimmedStays(s: string)
    requires s != "" && !Space(s[0]) && !Space(s[|s| - 1])
    ensures Trim(s) == s
  {
  }

  /** Different sections do not touch each other's data: they can be read in any order. */
  lemma {:induction false} SectionsCommute(a: string, b: string, d: Plugins, x: FieldValue, y: FieldValue)
    requires a != b
    ensures Build(a, Build(b, d, y), x) == Build(b, Build(a, d, x), y)
  {
    hide Updated, NameOf, SectionOf;
    if SectionOf(a).Some? && SectionOf(b).Some? { UpdatesCommute(SectionOf(a).value, SectionOf(b).value, d, x, y); }
  }

  lemma {:induction false} UpdatesCommute(a: Section, b: Section, d: Plugins, x: FieldValue, y: FieldValue)
    requires a != b
    ensures Updated(a, Updated(b, d, y), x) == Updated(b, Updated(a, d, x), y)
  {
    hide ControlledBy, Made, PasswordsOf, CleanAll, LastOf;
  }

  /** Two readings of one section: those that collect rules add them up in order, the others keep the second. */
  lemma {:induction false} SectionTwice(n: Section, d: Plugins, x: seq<seq<Entry>>, y: seq<seq<Entry>>)
    ensures !Replaces(n) && !n.MemdiskSection? ==>
      Updated(n, Updated(n, d, ObjectsAre(x)), ObjectsAre(y)) == Updated(n, d, ObjectsAre(x + y))
    ensures Replaces(n) ==> forall v, w :: Updated(n, Updated(n, d, v), w) == Updated(n, d, w)
  {
    hide ControlledBy, Made, PasswordsOf, CleanAll, LastOf, AliasOf, AutoInstallOf, PersistenceOf, InjectionOf, DudOf;
    hide ReplacementOf, TipOf, ClassOf, EntriesIn;
    match n
    case ControlSection => ControlTwice(d.control, x, y);
    case AliasSection => MadeTwice(x, y, AliasOf);
    case AutoInstallSection => MadeTwice(x, y, AutoInstallOf);
    case PersistenceSection => MadeTwice(x, y, PersistenceOf);
    case InjectionSection => MadeTwice(x, y, InjectionOf);
    case DudSection => MadeTwice(x, y, DudOf);
    case ReplaceSection => MadeTwice(x, y, ReplacementOf);
    case _ =>
  }

  lemma {:induction false} MadeTwice<V>(x: seq<seq<Entry>>, y: seq<seq<Entry>>, one: seq<Entry> -> Option<V>)
    ensures Made(x + y, one) == Made(x, one) + Made(y, one)
  {
    if x == [] {
      assert x + y == y;
    } else {
      assert (x + y)[1..] == x[1..] + y;
      MadeTwice(x[1..], y, one);
    }
  }

  lemma {:induction false} ControlTwice(c: Control, x: seq<seq<Entry>>, y: seq<seq<Entry>>)
    ensures ControlledBy(ControlledBy(c, x), y) == ControlledBy(c, x + y)
  {
    if y == [] {
      assert x + y == x;
    } else {
      assert (x + y)[..|x + y| - 1] == x + y[..|y| - 1];
      ControlTwice(c, x, y[..|y| - 1]);
    }
  }
}
