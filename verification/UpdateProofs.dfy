/** What planning, installing and undoing do to each target, and why a published transaction is always undoable. */
module UpdateProofs {
  import opened Common
  import opened UpdateModel

  ghost predicate DistinctTargets(ts: seq<Target>) {
    forall i, j :: 0 <= i < j < |ts| ==> ts[i] != ts[j]
  }

  lemma {:induction false} KeysGiveTargets(ts: seq<Target>)
    requires DistinctKeys(ts)
    ensures DistinctTargets(ts)
  {
    forall i, j | 0 <= i < j < |ts| ensures ts[i] != ts[j] { assert Key(ts[i]) != Key(ts[j]); }
  }

  lemma {:induction false} PutSame<K, V>(m: map<K, V>, k: K, v: Option<V>)
    requires Lookup(m, k) == v
    ensures Put(m, k, v) == m
  {
  }

  // ----- one target at a time -----

  function ChangeTargets(changes: seq<Change>): (r: seq<Target>)
    ensures |r| == |changes|
  {
    seq(|changes|, i requires 0 <= i < |changes| => changes[i].entry.target)
  }

  lemma {:induction false} InstalledElsewhere(files: Files, changes: seq<Change>, k: nat, t: Target)
    requires k <= |changes|
    requires forall i :: 0 <= i < k ==> changes[i].entry.target != t
    ensures Lookup(Installed(files, changes, k), t) == Lookup(files, t)
  {
    if k > 0 { InstalledElsewhere(files, changes, k - 1, t); }
  }

  lemma {:induction false} InstalledAt(files: Files, changes: seq<Change>, k: nat, i: nat)
    requires k <= |changes| && i < |changes| && DistinctTargets(ChangeTargets(changes))
    ensures Lookup(Installed(files, changes, k), changes[i].entry.target)
         == if i < k then Some(changes[i].content) else Lookup(files, changes[i].entry.target)
  {
    var ts := ChangeTargets(changes);
    if k > 0 {
      InstalledAt(files, changes, k - 1, i);
      if i != k - 1 { assert ts[i] != ts[k - 1]; }
    }
  }

  lemma {:induction false} UndoneElsewhere(files: Files, es: seq<Entry>, os: seq<Option<Content>>, k: nat, t: Target)
    requires k <= |es| == |os|
    requires forall i :: 0 <= i < k ==> es[i].target != t
    ensures Lookup(Undone(files, es, os, k), t) == Lookup(files, t)
  {
    if k > 0 {
      UndoneElsewhere(files, es, os, k - 1, t);
      PutAt(Undone(files, es, os, k - 1), es[k - 1].target, os[k - 1], t);
    }
  }

  lemma {:induction false} UndoneAt(files: Files, es: seq<Entry>, os: seq<Option<Content>>, k: nat, i: nat)
    requires k <= |es| == |os| && i < |es| && DistinctTargets(EntryTargets(es))
    ensures Lookup(Undone(files, es, os, k), es[i].target)
         == if i < k then os[i] else Lookup(files, es[i].target)
  {
    var ts := EntryTargets(es);
    if k > 0 {
      UndoneAt(files, es, os, k - 1, i);
      PutAt(Undone(files, es, os, k - 1), es[k - 1].target, os[k - 1], es[i].target);
      if i != k - 1 { assert ts[i] != ts[k - 1]; }
    }
  }

  /** Undoing all entries gives the same files from any two states that agree off the entries. */
  lemma {:induction false} UndoneForgets(a: Files, b: Files, es: seq<Entry>, os: seq<Option<Content>>)
    requires |es| == |os| && DistinctTargets(EntryTargets(es))
    requires forall t :: t !in EntryTargets(es) ==> Lookup(a, t) == Lookup(b, t)
    ensures Undone(a, es, os, |es|) == Undone(b, es, os, |es|)
  {
    var ua, ub := Undone(a, es, os, |es|), Undone(b, es, os, |es|);
    forall t ensures Lookup(ua, t) == Lookup(ub, t) {
      var ts := EntryTargets(es);
      if t in ts {
        var i :| 0 <= i < |ts| && ts[i] == t;
        UndoneAt(a, es, os, |es|, i);
        UndoneAt(b, es, os, |es|, i);
      } else {
        forall i | 0 <= i < |es| ensures es[i].target != t { assert ts[i] in ts; }
        UndoneElsewhere(a, es, os, |es|, t);
        UndoneElsewhere(b, es, os, |es|, t);
      }
    }
    SameLookups(ua, ub);
  }

  /** A partial undo changes nothing off the entries. */
  lemma {:induction false} UndoneOff(files: Files, es: seq<Entry>, os: seq<Option<Content>>, k: nat)
    requires k <= |es| == |os|
    ensures forall t :: t !in EntryTargets(es) ==> Lookup(Undone(files, es, os, k), t) == Lookup(files, t)
  {
    var ts := EntryTargets(es);
    forall t | t !in ts ensures Lookup(Undone(files, es, os, k), t) == Lookup(files, t) {
      forall i | 0 <= i < k ensures es[i].target != t { assert ts[i] in ts; }
      UndoneElsewhere(files, es, os, k, t);
    }
  }

  // ----- undo is the inverse of install -----

  /** The changes were planned on `files`: they record what each target held. */
  ghost predicate PlannedOn(files: Files, changes: seq<Change>) {
    && DistinctKeys(ChangeTargets(changes))
    && forall i :: 0 <= i < |changes| ==>
      changes[i] == ChangeFor(files, PayloadItem(changes[i].entry.target, changes[i].content))
  }

  /** After any prefix of the installation, putting every original back gives the files before it. */
  lemma {:induction false} UndoInvertsInstall(files: Files, changes: seq<Change>, os: seq<Option<Content>>, k: nat)
    requires k <= |changes| == |os| && PlannedOn(files, changes)
    requires forall i :: 0 <= i < |changes| ==> os[i] == changes[i].original
    ensures Undone(Installed(files, changes, k), EntriesOf(changes), os, |changes|) == files
  {
    var es := EntriesOf(changes);
    var ts := EntryTargets(es);
    assert ts == ChangeTargets(changes);
    KeysGiveTargets(ts);
    var now := Installed(files, changes, k);
    forall t ensures Lookup(Undone(now, es, os, |es|), t) == Lookup(files, t) {
      if t in ts {
        var i :| 0 <= i < |ts| && ts[i] == t;
        UndoneAt(now, es, os, |es|, i);
      } else {
        forall i | 0 <= i < |es| ensures es[i].target != t { assert ts[i] in ts; }
        UndoneElsewhere(now, es, os, |es|, t);
        forall i | 0 <= i < k ensures changes[i].entry.target != t { assert es[i].target != t; }
        InstalledElsewhere(files, changes, k, t);
      }
    }
    SameLookups(Undone(now, es, os, |es|), files);
  }

  // ----- a published transaction -----

  /** Everything the updater has put in place before it publishes the journal. */
  ghost predicate Prepared(cfg: Config, files: Files, admin: Admin, changes: seq<Change>, id: string) {
    && changes != [] && ValidId(id) && PlannedOn(files, changes)
    && (forall i :: 0 <= i < |changes| ==>
          && Owned(cfg, changes[i].entry.target)
          && Lookup(admin, InTree(changes[i].entry.target.area, id, Marker))
             == Some(MarkerText(id, changes[i].entry.target.area)))
    && (forall i :: 0 <= i < |changes| && changes[i].original.Some? ==>
          Lookup(admin, InTree(changes[i].entry.target.area, id, Backup(i))) == changes[i].original)
  }

  function JournalFor(changes: seq<Change>, id: string, status: string): Journal {
    Journal(1, id, status, EntriesOf(changes))
  }

  ghost predicate Published(cfg: Config, files: Files, admin: Admin, changes: seq<Change>, id: string) {
    && Prepared(cfg, files, admin, changes, id)
    && Lookup(admin, Pending) == Some(JournalText(JournalFor(changes, id, "prepared")))
    && exists status :: ManifestSays(admin, changes, id, status)
  }

  ghost predicate ManifestSays(admin: Admin, changes: seq<Change>, id: string, status: string) {
    StatusOk(status)
    && Lookup(admin, InTree("esp", id, Manifest)) == Some(JournalText(JournalFor(changes, id, status)))
  }

  lemma {:induction false} PreparedJournal(
      cfg: Config, files: Files, admin: Admin, changes: seq<Change>, id: string, status: string)
    requires Prepared(cfg, files, admin, changes, id) && StatusOk(status)
    ensures JournalOk(cfg, admin, JournalFor(changes, id, status))
    ensures var os := Originals(admin, id, EntriesOf(changes));
            forall i :: 0 <= i < |changes| ==> os[i] == changes[i].original
  {
    var j := JournalFor(changes, id, status);
    assert EntryTargets(j.entries) == ChangeTargets(changes);
    assert |j.entries| == |changes| > 0;
    forall i | 0 <= i < |j.entries| ensures EntryOk(cfg, j.entries[i]) {
      assert changes[i] == ChangeFor(files, PayloadItem(changes[i].entry.target, changes[i].content));
    }
    assert MarkersOk(admin, j);
  }

  /**
   However many changes have been installed, a published transaction is
   guarded, and the files it entitles the user to are those before it.
   */
  lemma {:induction false} PublishedIsGuarded(
      cfg: Config, files: Files, admin: Admin, changes: seq<Change>, id: string, k: nat)
    requires k <= |changes| && Published(cfg, files, admin, changes, id)
    ensures Guarded(cfg, Disk(Installed(files, changes, k), admin))
    ensures Recovered(Disk(Installed(files, changes, k), admin)) == files
  {
    var now := Installed(files, changes, k);
    var j := JournalFor(changes, id, "prepared");
    var status :| ManifestSays(admin, changes, id, status);
    PreparedJournal(cfg, files, admin, changes, id, "prepared");
    KeysGiveTargets(ChangeTargets(changes));
    forall i | 0 <= i < |j.entries|
      ensures FileDigest(now, j.entries[i].target) in {j.entries[i].before, Some(j.entries[i].after)}
      ensures Restorable(Disk(now, admin), j, i)
    {
      InstalledAt(files, changes, k, i);
      assert changes[i] == ChangeFor(files, PayloadItem(changes[i].entry.target, changes[i].content));
    }
    UndoInvertsInstall(files, changes, Originals(admin, id, j.entries), k);
  }

  // ----- what a restore may leave behind -----

  /** The tree once the manifest has the status. */
  function Recorded(admin: Admin, j: Journal, status: string): Admin {
    admin[InTree("esp", j.id, Manifest) := JournalText(j.(status := status))]
  }

  function RolledBack(admin: Admin, j: Journal): Admin { Recorded(admin, j, "rolled_back") }

  ghost predicate PendingMatches(admin: Admin, j: Journal) {
    Pending in admin ==> admin[Pending].JournalText? && admin[Pending].journal.id == j.id
  }

  /** The disks a restore of `j` started on `d0` can be stopped at. */
  ghost predicate RestoreReach(d0: Disk, j: Journal, d: Disk) {
    var n := |j.entries|;
    var os := Originals(d0.admin, j.id, j.entries);
    || d == d0
    || (AllRestorable(d0, j) && d.admin == d0.admin
        && exists k: nat :: k <= n && d.files == Undone(d0.files, j.entries, os, k))
    || (AllRestorable(d0, j) && d.files == Undone(d0.files, j.entries, os, n) && d.admin == RolledBack(d0.admin, j))
    || (AllRestorable(d0, j) && PendingMatches(d0.admin, j) && d == RestoreDone(d0, j))
  }

  function RestoreDone(d0: Disk, j: Journal): Disk {
    Disk(Undone(d0.files, j.entries, Originals(d0.admin, j.id, j.entries), |j.entries|),
         RolledBack(d0.admin, j) - {Pending})
  }

  ghost predicate BackupIntact(d: Disk, j: Journal, i: nat)
    requires i < |j.entries|
  {
    var e := j.entries[i];
    e.before.Some? ==>
      var place := InTree(e.target.area, j.id, Backup(i));
      place in d.admin && Digest(d.admin[place]) == e.before.value
  }

  /** What the documentation asks of a target: it is as the transaction found it or as it left it. */
  ghost predicate AsDocumented(d: Disk, j: Journal, i: nat)
    requires i < |j.entries|
  {
    FileDigest(d.files, j.entries[i].target) in {j.entries[i].before, Some(j.entries[i].after)} && BackupIntact(d, j, i)
  }

  /** The code goes further in one case: a target that was there before and is missing now. */
  lemma {:induction false} RestorableIff(d: Disk, j: Journal, i: nat)
    requires i < |j.entries|
    ensures Restorable(d, j, i) <==>
      AsDocumented(d, j, i)
      || (j.entries[i].target !in d.files && j.entries[i].before.Some? && BackupIntact(d, j, i))
  {
  }

  lemma {:induction false} OriginalHasDigest(d: Disk, j: Journal, i: nat)
    requires i < |j.entries| && Restorable(d, j, i)
    ensures var o := Originals(d.admin, j.id, j.entries)[i];
            (if o.Some? then Some(Digest(o.value)) else None) == j.entries[i].before
  {
  }

  lemma {:induction false} OriginalsKept(admin: Admin, j: Journal, status: string)
    ensures Originals(admin[InTree("esp", j.id, Manifest) := JournalText(j.(status := status))], j.id, j.entries)
         == Originals(admin, j.id, j.entries)
  {
  }

  lemma {:induction false} RolledBackKeepsGuard(cfg: Config, d: Disk, j: Journal)
    requires Guarded(cfg, d) && d.admin[Pending].journal == j.(status := d.admin[Pending].journal.status)
    ensures Guarded(cfg, Disk(d.files, RolledBack(d.admin, j)))
  {
    var p := d.admin[Pending].journal;
    var admin := RolledBack(d.admin, j);
    assert MarkersOk(admin, p) by { assert MarkersOk(d.admin, p); }
    forall i | 0 <= i < |p.entries|
      ensures Restorable(Disk(d.files, admin), p, i)
    {
      assert Restorable(d, p, i);
    }
  }

  lemma {:induction false} UndoneKeepsGuard(cfg: Config, d0: Disk, k: nat)
    requires Guarded(cfg, d0) && k <= |d0.admin[Pending].journal.entries|
    ensures var j := d0.admin[Pending].journal;
            var d := Disk(Undone(d0.files, j.entries, Originals(d0.admin, j.id, j.entries), k), d0.admin);
            Guarded(cfg, d) && Recovered(d) == Recovered(d0)
  {
    var j := d0.admin[Pending].journal;
    var os := Originals(d0.admin, j.id, j.entries);
    var d := Disk(Undone(d0.files, j.entries, os, k), d0.admin);
    KeysGiveTargets(EntryTargets(j.entries));
    forall i | 0 <= i < |j.entries|
      ensures FileDigest(d.files, j.entries[i].target) in {j.entries[i].before, Some(j.entries[i].after)}
      ensures Restorable(d, j, i)
    {
      UndoneAt(d0.files, j.entries, os, k, i);
      assert Restorable(d0, j, i);
      OriginalHasDigest(d0, j, i);
    }
    UndoneOff(d0.files, j.entries, os, k);
    UndoneForgets(d.files, d0.files, j.entries, os);
  }

  /**
   A restore of the published transaction, stopped anywhere, leaves the
   invariant true and the user's files where they were; completed, the files
   on the volumes are those files and no transaction is published.
   */
  lemma {:induction false} RestoreIsSafe(cfg: Config, d0: Disk, j: Journal, d: Disk)
    requires Guarded(cfg, d0) && d0.admin[Pending].journal == j.(status := d0.admin[Pending].journal.status)
    requires RestoreReach(d0, j, d)
    ensures Safe(cfg, d) && Recovered(d) == Recovered(d0)
    ensures d == RestoreDone(d0, j) ==> Pending !in d.admin && d.files == Recovered(d0)
  {
    var n := |j.entries|;
    var p := d0.admin[Pending].journal;
    var os := Originals(d0.admin, j.id, j.entries);
    UndoneKeepsGuard(cfg, d0, n);
    var undone := Disk(Undone(d0.files, j.entries, os, n), d0.admin);
    RolledBackKeepsGuard(cfg, undone, j);
    OriginalsKept(d0.admin, j, "rolled_back");
    if d.admin == d0.admin && exists k: nat :: k <= n && d.files == Undone(d0.files, j.entries, os, k) {
      var k: nat :| k <= n && d.files == Undone(d0.files, j.entries, os, k);
      UndoneKeepsGuard(cfg, d0, k);
    }
  }
}
