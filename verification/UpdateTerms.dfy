/**
 What the updater's own terms come to, said of the mounted roots, the owned
 paths and the journal's text: which payloads and journals it accepts, and what
 an update then does.
 */
module UpdateTerms {
  import opened Common
  import opened UpdateModel
  import opened UpdateProofs
  import opened PlanProofs
  import opened UpdateSpec
  import opened UpdateFaults
  import opened UpdateVerdict

  // ----- names -----

  /** The same character, or the two cases of one ASCII letter. */
  predicate SameChar(a: char, b: char) {
    a == b || ('A' <= a <= 'Z' && b as int == a as int + 32) || ('A' <= b <= 'Z' && a as int == b as int + 32)
  }

  /** The same name on a volume that does not tell case apart. */
  ghost predicate SameName(a: string, b: string) {
    |a| == |b| && forall i :: 0 <= i < |a| ==> SameChar(a[i], b[i])
  }

  lemma {:induction false} LowerIs(a: string, b: string)
    ensures Lower(a) == Lower(b) <==> SameName(a, b)
  {
    if Lower(a) == Lower(b) {
      forall i | 0 <= i < |a| ensures SameChar(a[i], b[i]) { assert Lower(a)[i] == Lower(b)[i]; }
    }
    if SameName(a, b) {
      forall i | 0 <= i < |a| ensures Lower(a)[i] == Lower(b)[i] { assert SameChar(a[i], b[i]); }
    }
  }

  ghost predicate SameTarget(t: Target, u: Target) { t.area == u.area && SameName(t.path, u.path) }

  lemma {:induction false} KeyIs(t: Target, u: Target)
    ensures Key(t) == Key(u) <==> SameTarget(t, u)
  {
    LowerIs(t.path, u.path);
  }

  /** Transaction identifiers: 32 lower-case hexadecimal digits. */
  ghost predicate Identifies(id: string) {
    |id| == 32 && forall i :: 0 <= i < |id| ==> id[i] in "0123456789abcdef"
  }

  lemma {:induction false} HexDigitIs(c: char)
    ensures HexDigit(c) <==> c in "0123456789abcdef"
  {
    var digits := "0123456789abcdef";
    if HexDigit(c) {
      var i := if c <= '9' then c as int - '0' as int else c as int - 'a' as int + 10;
      assert digits[i] == c;
    }
  }

  lemma {:induction false} IdIs(id: string)
    ensures ValidId(id) <==> Identifies(id)
  {
    hide HexDigit;
    forall i | 0 <= i < |id| ensures HexDigit(id[i]) <==> id[i] in "0123456789abcdef" { HexDigitIs(id[i]); }
  }

  // ----- payloads -----

  /** Every target lies on a mounted volume, among the paths owned there. */
  ghost predicate AllOwned(cfg: Config, payload: seq<PayloadItem>) {
    forall i :: 0 <= i < |payload| ==>
      var t := payload[i].target;
      t.area in cfg.roots && t.area in cfg.owned && t.path in cfg.owned[t.area]
  }

  /** No two items name the same file. */
  ghost predicate NoneTwice(payload: seq<PayloadItem>) {
    forall i, j :: 0 <= i < j < |payload| ==> !SameTarget(payload[i].target, payload[j].target)
  }

  /** The payloads that are accepted. */
  lemma {:induction false} PayloadIs(cfg: Config, payload: seq<PayloadItem>)
    ensures PayloadOk(cfg, payload) <==> AllOwned(cfg, payload) && NoneTwice(payload)
  {
    hide SameTarget, Key;
    var ts := PayloadTargets(payload);
    forall i, j | 0 <= i < j < |payload|
      ensures Key(ts[i]) != Key(ts[j]) <==> !SameTarget(payload[i].target, payload[j].target)
    {
      KeyIs(payload[i].target, payload[j].target);
    }
    if DistinctKeys(ts) {
      forall i, j | 0 <= i < j < |payload| ensures !SameTarget(payload[i].target, payload[j].target) {
        assert Key(ts[i]) != Key(ts[j]);
      }
    }
    if NoneTwice(payload) {
      forall i, j | 0 <= i < j < |ts| ensures Key(ts[i]) != Key(ts[j]) {
        assert !SameTarget(payload[i].target, payload[j].target);
      }
    }
  }

  /** The files after the whole payload has been written, target by target. */
  ghost predicate InPlace(files: Files, payload: seq<PayloadItem>, files': Files) {
    && (forall i :: 0 <= i < |payload| ==>
          payload[i].target in files' && files'[payload[i].target] == payload[i].content)
    && forall t :: (forall i :: 0 <= i < |payload| ==> payload[i].target != t) ==>
         (t in files' <==> t in files) && (t in files ==> files'[t] == files[t])
  }

  lemma {:induction false} UpdatedIs(files: Files, payload: seq<PayloadItem>)
    requires DistinctKeys(PayloadTargets(payload))
    ensures InPlace(files, payload, Updated(files, payload))
  {
    hide Updated;
    var files' := Updated(files, payload);
    KeysGiveTargets(PayloadTargets(payload));
    forall i | 0 <= i < |payload|
      ensures payload[i].target in files' && files'[payload[i].target] == payload[i].content
    {
      UpdatedAt(files, payload, i);
    }
    forall t | forall i :: 0 <= i < |payload| ==> payload[i].target != t
      ensures (t in files' <==> t in files) && (t in files ==> files'[t] == files[t])
    {
      UpdatedElsewhere(files, payload, t);
    }
  }

  /**
   An update in plain words. Where every item is owned and none comes twice,
   nothing is pending, there is room, nobody holds the lock and nothing fails,
   it ends well and the payload is in place, every other file as it was. An
   item that is not owned, or comes twice, makes it refuse and leave the disk
   alone, whatever else holds.
   */
  ghost predicate Plainly(
    cfg: Config, d: Disk, payload: seq<PayloadItem>, dryRun: bool, room: bool, locked: bool, faults: seq<Fault>,
    d': Disk, r: Report)
  {
    && (!(AllOwned(cfg, payload) && NoneTwice(payload)) ==> r.Refused? && d' == d)
    && (!dryRun && AllOwned(cfg, payload) && NoneTwice(payload) && Pending !in d.admin && room && !locked
        && faults == [] ==>
          (r.Applied? || r.UpToDate?) && Pending !in d'.admin && InPlace(d.files, payload, d'.files))
  }

  // ----- plans -----

  /** The positions `ps` of `payload`, in order, are those whose file is missing or holds something else. */
  ghost predicate Changing(files: Files, payload: seq<PayloadItem>, ps: seq<nat>) {
    && (forall k :: 0 <= k < |ps| ==> ps[k] < |payload|)
    && (forall j, k :: 0 <= j < k < |ps| ==> ps[j] < ps[k])
    && forall i: nat :: i < |payload| ==>
         (i in ps <==> Stale(files, payload[i]))
  }

  /** What a change records: what its file held before, if it was there, and holds afterwards. */
  ghost predicate Records(files: Files, item: PayloadItem, c: Change) {
    && c.entry.target == item.target && c.content == item.content
    && c.entry.after == Sha256(item.content)
    && (item.target in files ==>
          c.entry.before == Some(Sha256(files[item.target])) && c.original == Some(files[item.target]))
    && (item.target !in files ==> c.entry.before == None && c.original == None)
  }

  /** The plan changes those items, in the order of the payload, and no others. */
  ghost predicate Plans(files: Files, payload: seq<PayloadItem>, changes: seq<Change>) {
    exists ps: seq<nat> :: PlannedAt(files, payload, changes, ps)
  }

  ghost predicate PlannedAt(files: Files, payload: seq<PayloadItem>, changes: seq<Change>, ps: seq<nat>) {
    && Changing(files, payload, ps) && |ps| == |changes|
    && forall k :: 0 <= k < |ps| ==> ps[k] < |payload| && Records(files, payload[ps[k]], changes[k])
  }

  ghost predicate Stale(files: Files, item: PayloadItem) {
    !(item.target in files && files[item.target] == item.content)
  }

  lemma {:induction false} ChangingNext(files: Files, payload: seq<PayloadItem>, ps: seq<nat>)
    requires payload != [] && Changing(files, payload[..|payload| - 1], ps)
    ensures var n := |payload| - 1;
      Changing(files, payload, if Stale(files, payload[n]) then ps + [n] else ps)
  {
    var n := |payload| - 1;
    var qs := if Stale(files, payload[n]) then ps + [n] else ps;
    forall i: nat | i < |payload| ensures i in qs <==> Stale(files, payload[i]) {
      if i < n { assert payload[..n][i] == payload[i]; }
    }
  }

  lemma {:induction false} ChangeRecords(files: Files, item: PayloadItem)
    ensures Records(files, item, ChangeFor(files, item))
    ensures FileDigest(files, item.target) != Some(Digest(item.content)) <==> Stale(files, item)
  {
  }

  lemma {:induction false} PlanMore(
      files: Files, payload: seq<PayloadItem>, earlier: seq<Change>, ps: seq<nat>)
    requires payload != [] && PlannedAt(files, payload[..|payload| - 1], earlier, ps)
    ensures var n := |payload| - 1;
      if Stale(files, payload[n]) then PlannedAt(files, payload, earlier + [ChangeFor(files, payload[n])], ps + [n])
      else PlannedAt(files, payload, earlier, ps)
  {
    hide Changing, Records, Stale, ChangeFor;
    var n := |payload| - 1;
    ChangingNext(files, payload, ps);
    ChangeRecords(files, payload[n]);
    forall k | 0 <= k < |ps| ensures ps[k] < n && Records(files, payload[ps[k]], earlier[k]) {
      assert payload[..n][ps[k]] == payload[ps[k]];
    }
  }

  lemma {:induction false} PlanPlaces(files: Files, payload: seq<PayloadItem>) returns (ps: seq<nat>)
    ensures PlannedAt(files, payload, PlanOf(files, payload), ps)
  {
    hide PlannedAt, Stale, FileDigest, ChangeFor;
    ps := [];
    if payload == [] {
      NothingChanges(files);
    } else {
      var n := |payload| - 1;
      ps := PlanPlaces(files, payload[..n]);
      PlanMore(files, payload, PlanOf(files, payload[..n]), ps);
      ChangeRecords(files, payload[n]);
      if Stale(files, payload[n]) { ps := ps + [n]; }
    }
  }

  lemma {:induction false} PlanIs(files: Files, payload: seq<PayloadItem>)
    ensures Plans(files, payload, PlanOf(files, payload))
  {
    hide PlannedAt, PlanOf;
    var ps := PlanPlaces(files, payload);
  }

  lemma {:induction false} NothingChanges(files: Files)
    ensures PlannedAt(files, [], [], [])
  {
  }

  /** The order of installation: where each change stands in the plan. */
  ghost predicate Ordering(changes: seq<Change>, order: seq<Change>, ps: seq<nat>) {
    && |ps| == |order| == |changes|
    && (forall k :: 0 <= k < |ps| ==> ps[k] < |changes| && order[k] == changes[ps[k]])
    && forall j, k :: 0 <= j < k < |ps| ==>
         if (order[j].entry.target.area == "esp") == (order[k].entry.target.area == "esp") then ps[j] < ps[k]
         else order[k].entry.target.area == "esp"
  }

  ghost predicate OneArea(changes: seq<Change>, esp: bool, part: seq<Change>, ps: seq<nat>) {
    && |ps| == |part|
    && (forall k :: 0 <= k < |ps| ==>
          ps[k] < |changes| && part[k] == changes[ps[k]] && (part[k].entry.target.area == "esp") == esp)
    && forall j, k :: 0 <= j < k < |ps| ==> ps[j] < ps[k]
  }

  lemma {:induction false} OneAreaIs(changes: seq<Change>, esp: bool, n: nat) returns (ps: seq<nat>)
    requires n <= |changes|
    ensures OneArea(changes, esp, OnlyArea(changes[n..], esp), ps)
    ensures forall k :: 0 <= k < |ps| ==> n <= ps[k]
    decreases |changes| - n
  {
    ps := [];
    if n < |changes| {
      ps := OneAreaIs(changes, esp, n + 1);
      assert changes[n..][0] == changes[n] && changes[n..][1..] == changes[n + 1..];
      var part := OnlyArea(changes[n + 1..], esp);
      if (changes[n].entry.target.area == "esp") == esp {
        OneMore(changes, esp, part, ps, n);
        ps := [n] + ps;
      }
    }
  }

  lemma {:induction false} OneMore(changes: seq<Change>, esp: bool, part: seq<Change>, ps: seq<nat>, n: nat)
    requires n < |changes| && OneArea(changes, esp, part, ps) && forall k :: 0 <= k < |ps| ==> n < ps[k]
    requires (changes[n].entry.target.area == "esp") == esp
    ensures OneArea(changes, esp, [changes[n]] + part, [n] + ps)
  {
  }

  /** A stable sort: first what is not on the ESP, then what is, each part in the order of the plan. */
  lemma {:induction false} OrderIs(changes: seq<Change>) returns (ps: seq<nat>)
    ensures Ordering(changes, LoadersLast(changes), ps)
  {
    hide OnlyArea, OneArea, Ordering;
    assert changes[0..] == changes;
    var pa := OneAreaIs(changes, false, 0);
    var pb := OneAreaIs(changes, true, 0);
    ps := pa + pb;
    LoadersLastSorts(changes);
    assert |multiset(LoadersLast(changes))| == |multiset(changes)|;
    PartsOrder(changes, OnlyArea(changes, false), OnlyArea(changes, true), pa, pb);
  }

  lemma {:induction false} PartsOrder(
      changes: seq<Change>, a: seq<Change>, b: seq<Change>, pa: seq<nat>, pb: seq<nat>)
    requires OneArea(changes, false, a, pa) && OneArea(changes, true, b, pb) && |a + b| == |changes|
    ensures Ordering(changes, a + b, pa + pb)
  {
  }

  // ----- journals -----

  /** A journal that can be loaded from this tree: each requirement on its text. */
  ghost predicate Reads(cfg: Config, admin: Admin, j: Journal) {
    && j.schema == 1 && (j.status == "prepared" || j.status == "committed" || j.status == "rolled_back")
    && Identifies(j.id) && |j.entries| > 0
    && (forall i :: 0 <= i < |j.entries| ==> EntryReads(cfg, admin, j.id, j.entries[i]))
    && forall i, k :: 0 <= i < k < |j.entries| ==> !SameTarget(j.entries[i].target, j.entries[k].target)
  }

  /** An owned target with proper digests, on a volume that carries the transaction's marker. */
  ghost predicate EntryReads(cfg: Config, admin: Admin, id: string, e: Entry) {
    && e.target.area in cfg.roots && e.target.area in cfg.owned && e.target.path in cfg.owned[e.target.area]
    && !e.after.NotADigest? && !(e.before.Some? && e.before.value.NotADigest?)
    && var marker := InTree(e.target.area, id, Marker);
       marker in admin && admin[marker] == MarkerText(id, e.target.area)
  }

  lemma {:induction false} ReadsIs(cfg: Config, admin: Admin, j: Journal)
    ensures JournalOk(cfg, admin, j) <==> Reads(cfg, admin, j)
  {
    IdIs(j.id);
    hide ValidId, Identifies, SameTarget, Key;
    var es, ts := j.entries, EntryTargets(j.entries);
    forall i, k | 0 <= i < k < |es| ensures Key(ts[i]) != Key(ts[k]) <==> !SameTarget(es[i].target, es[k].target) {
      KeyIs(es[i].target, es[k].target);
    }
    if JournalOk(cfg, admin, j) {
      forall i | 0 <= i < |es| ensures EntryReads(cfg, admin, j.id, es[i]) {
        assert EntryOk(cfg, es[i]);
        assert Lookup(admin, InTree(es[i].target.area, j.id, Marker)) == Some(MarkerText(j.id, es[i].target.area));
      }
      forall i, k | 0 <= i < k < |es| ensures !SameTarget(es[i].target, es[k].target) {
        assert Key(ts[i]) != Key(ts[k]);
      }
    }
    if Reads(cfg, admin, j) {
      forall i | 0 <= i < |es|
        ensures EntryOk(cfg, es[i])
        ensures Lookup(admin, InTree(es[i].target.area, j.id, Marker)) == Some(MarkerText(j.id, es[i].target.area))
      {
        assert EntryReads(cfg, admin, j.id, es[i]);
      }
      forall i, k | 0 <= i < k < |ts| ensures Key(ts[i]) != Key(ts[k]) {
        assert !SameTarget(es[i].target, es[k].target);
      }
    }
  }

  /** The journal of the pending transaction, or of a named one, and whether it loads. */
  ghost predicate Loads(cfg: Config, admin: Admin, id: Option<string>) {
    match id
    case None => Pending in admin && admin[Pending].JournalText? && Reads(cfg, admin, admin[Pending].journal)
    case Some(i) =>
      && Identifies(i)
      && var place := InTree("esp", i, Manifest);
         && place in admin && admin[place].JournalText?
         && admin[place].journal.id == i && Reads(cfg, admin, admin[place].journal)
  }

  lemma {:induction false} LoadableIs(cfg: Config, admin: Admin, id: Option<string>)
    ensures Loadable(cfg, admin, id) <==> Loads(cfg, admin, id)
  {
    hide ValidId, Identifies, Reads, JournalOk;
    match id
    case None =>
      if JournalAt(admin, Pending) { ReadsIs(cfg, admin, admin[Pending].journal); }
    case Some(i) =>
      IdIs(i);
      var place := InTree("esp", i, Manifest);
      if JournalAt(admin, place) { ReadsIs(cfg, admin, admin[place].journal); }
  }

  // ----- volumes -----

  /** The volumes that get a marker: the ESP, and those of the changes. */
  lemma {:induction false} AreasAre(changes: seq<Change>, area: string)
    ensures area in Areas(changes) <==>
      area == "esp" || exists i :: 0 <= i < |changes| && changes[i].entry.target.area == area
  {
  }
}
