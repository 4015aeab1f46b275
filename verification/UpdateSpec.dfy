/** What loading, rolling back and applying may do to a disk, at every point where they can stop. */
module UpdateSpec {
  import opened Common
  import opened UpdateModel
  import opened UpdateProofs
  import opened PlanProofs

  ghost predicate Loadable(cfg: Config, admin: Admin, id: Option<string>) {
    && (id.Some? ==> ValidId(id.value))
    && JournalAt(admin, JournalPlace(id))
    && JournalOk(cfg, admin, admin[JournalPlace(id)].journal)
    && (id.Some? ==> admin[JournalPlace(id)].journal.id == id.value)
  }

  function JournalPlace(id: Option<string>): AdminFile {
    match id
    case None => Pending
    case Some(i) => InTree("esp", i, Manifest)
  }

  function JournalOf(admin: Admin, id: Option<string>): Journal
    requires JournalPlace(id) in admin && admin[JournalPlace(id)].JournalText?
  {
    admin[JournalPlace(id)].journal
  }

  /** The disk once the lock file has been created and filled. */
  function Entered(d: Disk): Disk {
    if LockFile !in d.admin || d.admin[LockFile] == Blob([])
    then d.(admin := d.admin[LockFile := Blob([48])])
    else d
  }

  /** The journal loads and no other transaction is pending. */
  ghost predicate RollbackAllowed(cfg: Config, d: Disk, id: Option<string>) {
    Loadable(cfg, d.admin, id) && PendingMatches(d.admin, JournalOf(d.admin, id))
  }

  ghost predicate RollbackAccepted(cfg: Config, d: Disk, id: Option<string>) {
    RollbackAllowed(cfg, d, id) && AllRestorable(d, JournalOf(d.admin, id))
  }

  /** The disks a rollback started on `d` can be stopped at. */
  ghost predicate RollbackReach(cfg: Config, d: Disk, id: Option<string>, d': Disk) {
    var d0 := Entered(d);
    d' == d || d' == d0 || (RollbackAllowed(cfg, d0, id) && RestoreReach(d0, JournalOf(d0.admin, id), d'))
  }

  ghost predicate RollbackDone(cfg: Config, d: Disk, id: Option<string>, d': Disk) {
    var d0 := Entered(d);
    RollbackAllowed(cfg, d0, id) && d' == RestoreDone(d0, JournalOf(d0.admin, id))
  }

  /** Admin trees that agree except for staged files that have been moved out. */
  ghost predicate SameButStages(a: Admin, b: Admin) {
    forall p: AdminFile :: !(p.InTree? && p.leaf.Stage?) ==> Lookup(a, p) == Lookup(b, p)
  }

  // ----- apply -----

  /** How `apply` reports back: `Refused` for an exception no later than the writing of the pending journal. */
  datatype Report =
    | Applied(id: string)
    | UpToDate
    | WouldChange(entries: seq<Entry>)
    | Refused(why: string)
    | OriginalsRestored(why: string)
    | RecoveryRequired(why: string)
    | Lost

  /** The staged content of every change from `k` on is in place. */
  ghost predicate Staged(admin: Admin, changes: seq<Change>, id: string, k: nat) {
    forall i :: k <= i < |changes| ==>
      Lookup(admin, InTree(changes[i].entry.target.area, id, Stage(i))) == Some(changes[i].content)
  }

  /** The update as one atomic step: nothing published and every payload item in place. */
  ghost predicate Committed(cfg: Config, d: Disk, payload: seq<PayloadItem>, d': Disk) {
    PayloadOk(cfg, payload) && Pending !in d.admin && Pending !in d'.admin && d'.files == Updated(d.files, payload)
  }

  /** What is true of every disk an `apply` started on `d` can be stopped at. */
  ghost predicate ApplyReach(cfg: Config, d: Disk, payload: seq<PayloadItem>, id: string, d': Disk) {
    && (Safe(cfg, d) ==> Safe(cfg, d'))
    && (Recovered(d') == Recovered(d) || Committed(cfg, d, payload, d'))
    && OnlyTree(d.admin - {Pending, LockFile}, d'.admin - {Pending, LockFile}, id)
    && (Pending in d.admin ==> d' == d || d' == Entered(d))
  }

  /** The manifest of transaction `id` has this status. */
  predicate StatusIs(d: Disk, id: string, status: string) {
    var place := InTree("esp", id, Manifest);
    place in d.admin && d.admin[place].JournalText? && d.admin[place].journal.status == status
  }

  /**
   What is true when an update that had begun did not end in order: either its
   journal is pending and leads back to the old files, or it is not and the
   manifest says whether the files are the new ones or the old.
   */
  ghost predicate Settled(cfg: Config, d: Disk, payload: seq<PayloadItem>, id: string, d': Disk) {
    if Pending in d'.admin then Recovered(d') == d.files
    else
      || (StatusIs(d', id, "committed") && Committed(cfg, d, payload, d'))
      || (StatusIs(d', id, "rolled_back") && d'.files == d.files)
  }

  /** What each report of `apply` promises about the disk it leaves; `Lost` stands for no report at all. */
  ghost predicate ReportTrue(cfg: Config, d: Disk, payload: seq<PayloadItem>, id: string, d': Disk, r: Report) {
    match r
    case Applied(_) =>
      && Committed(cfg, d, payload, d') && Entered(d') == d'
      && RollbackAccepted(cfg, d', Some(id))
      && RestoreDone(d', JournalOf(d'.admin, Some(id))).files == d.files
    case UpToDate => Committed(cfg, d, payload, d') && d'.files == d.files
    case WouldChange(entries) =>
      PayloadOk(cfg, payload) && d' == d && Pending !in d.admin && entries == EntriesOf(PlanOf(d.files, payload))
    case Refused(_) => d'.files == d.files
    case OriginalsRestored(_) => d'.files == d.files && Pending !in d'.admin
    case RecoveryRequired(_) => Settled(cfg, d, payload, id, d')
    case Lost =>
      if Pending in d.admin then d'.files == d.files else d'.files == d.files || Settled(cfg, d, payload, id, d')
  }

  /** When `apply` goes through if nothing fails underneath it. */
  ghost predicate Acceptable(d: Disk, payload: seq<PayloadItem>, roomFor: bool) {
    Pending !in d.admin && (PlanOf(d.files, payload) == [] || roomFor)
  }

  lemma {:induction false} EnteringIsSafe(cfg: Config, d: Disk)
    ensures Safe(cfg, d) ==> Safe(cfg, Entered(d))
    ensures Recovered(Entered(d)) == Recovered(d)
  {
    var e := Entered(d);
    if JournalAt(d.admin, Pending) {
      var j := d.admin[Pending].journal;
      assert Originals(e.admin, j.id, j.entries) == Originals(d.admin, j.id, j.entries);
    }
    if Safe(cfg, d) && Pending in d.admin {
      var j := d.admin[Pending].journal;
      assert MarkersOk(e.admin, j) by { assert MarkersOk(d.admin, j); }
      forall i | 0 <= i < |j.entries| ensures Restorable(e, j, i) { assert Restorable(d, j, i); }
    }
  }

  lemma {:induction false} NextChange(files: Files, changes: seq<Change>, k: nat)
    requires k < |changes| && PlannedOn(files, changes)
    ensures Lookup(Installed(files, changes, k), changes[k].entry.target) == changes[k].original
    ensures FileDigest(Installed(files, changes, k), changes[k].entry.target) == changes[k].entry.before
    ensures changes[k].entry.after == Digest(changes[k].content)
  {
    KeysGiveTargets(ChangeTargets(changes));
    InstalledAt(files, changes, k, k);
    assert changes[k] == ChangeFor(files, PayloadItem(changes[k].entry.target, changes[k].content));
  }

  lemma {:induction false} NothingTaken(admin: Admin, id: string)
    ensures SameButStages(admin, admin) && OnlyTree(admin, admin, id)
  {
  }

  /** Taking the next staged file away. */
  lemma {:induction false} StageTaken(before: Admin, admin: Admin, changes: seq<Change>, id: string, k: nat)
    requires k < |changes| && Staged(admin, changes, id, k)
    requires SameButStages(before, admin) && OnlyTree(before, admin, id)
    ensures var place := InTree(changes[k].entry.target.area, id, Stage(k));
      && place in admin && admin[place] == changes[k].content
      && SameButStages(before, admin - {place}) && OnlyTree(before, admin - {place}, id)
      && Staged(admin - {place}, changes, id, k + 1)
  {
  }

  /** The staged files are no part of what makes a transaction undoable. */
  lemma {:induction false} StagesDoNotMatter(
      cfg: Config, files: Files, a: Admin, b: Admin, changes: seq<Change>, id: string)
    requires Published(cfg, files, a, changes, id) && SameButStages(a, b)
    ensures Published(cfg, files, b, changes, id)
  {
    var status :| ManifestSays(a, changes, id, status);
    assert ManifestSays(b, changes, id, status);
  }

  // ----- a transaction from publication to commit -----

  /** Published, with some number of changes installed. */
  ghost predicate Underway(cfg: Config, files: Files, changes: seq<Change>, id: string, d: Disk) {
    && Published(cfg, files, d.admin, changes, id)
    && exists k: nat :: k <= |changes| && d.files == Installed(files, changes, k)
  }

  /** All changes installed, the manifest says so, nothing pending. */
  ghost predicate Concluded(cfg: Config, files: Files, changes: seq<Change>, id: string, d: Disk) {
    && Pending !in d.admin
    && d.files == Installed(files, changes, |changes|)
    && Prepared(cfg, files, d.admin, changes, id)
    && ManifestSays(d.admin, changes, id, "committed")
  }

  lemma {:induction false} UnderwayIsSafe(cfg: Config, files: Files, changes: seq<Change>, id: string, d: Disk)
    requires Underway(cfg, files, changes, id, d)
    ensures Guarded(cfg, d) && Recovered(d) == files
    ensures d.admin[Pending].journal == JournalFor(changes, id, "prepared")
  {
    var k: nat :| k <= |changes| && d.files == Installed(files, changes, k);
    PublishedIsGuarded(cfg, files, d.admin, changes, id, k);
  }

  /** Recovery from a published transaction: whatever it is stopped at, nothing is lost. */
  lemma {:induction false} RecoveryIsSafe(
      cfg: Config, files: Files, changes: seq<Change>, id: string, d: Disk, d': Disk)
    requires Underway(cfg, files, changes, id, d)
    requires RestoreReach(d, JournalFor(changes, id, "prepared"), d')
    ensures Safe(cfg, d') && Recovered(d') == files
    ensures d' == RestoreDone(d, JournalFor(changes, id, "prepared")) ==> Pending !in d'.admin && d'.files == files
  {
    UnderwayIsSafe(cfg, files, changes, id, d);
    RestoreIsSafe(cfg, d, JournalFor(changes, id, "prepared"), d');
  }

  /** A concluded transaction can be named and undone: rollback inverts apply. */
  lemma {:induction false} ConcludedCanBeUndone(cfg: Config, files: Files, changes: seq<Change>, id: string, d: Disk)
    requires Concluded(cfg, files, changes, id, d)
    ensures RollbackAccepted(cfg, d, Some(id))
    ensures RestoreDone(d, JournalOf(d.admin, Some(id))).files == files
  {
    var j := JournalFor(changes, id, "committed");
    PreparedJournal(cfg, files, d.admin, changes, id, "committed");
    KeysGiveTargets(ChangeTargets(changes));
    forall i | 0 <= i < |j.entries| ensures Restorable(d, j, i) {
      InstalledAt(files, changes, |changes|, i);
      assert changes[i] == ChangeFor(files, PayloadItem(changes[i].entry.target, changes[i].content));
    }
    UndoInvertsInstall(files, changes, Originals(d.admin, id, j.entries), |changes|);
  }

  lemma {:induction false} CommitConcludes(
      cfg: Config, files: Files, changes: seq<Change>, id: string, admin: Admin, status: string)
    requires Published(cfg, files, admin, changes, id) && StatusOk(status)
    ensures var recorded := admin[InTree("esp", id, Manifest) := JournalText(JournalFor(changes, id, status))];
            && Published(cfg, files, recorded, changes, id)
            && Prepared(cfg, files, recorded - {Pending}, changes, id)
            && ManifestSays(recorded - {Pending}, changes, id, status)
  {
    var recorded := admin[InTree("esp", id, Manifest) := JournalText(JournalFor(changes, id, status))];
    assert ManifestSays(recorded, changes, id, status);
  }

  /** The same of a transaction, in terms of its changes. */
  ghost predicate TransactSettled(cfg: Config, d: Disk, changes: seq<Change>, id: string, d': Disk) {
    if Pending in d'.admin then Recovered(d') == d.files
    else Concluded(cfg, d.files, changes, id, d') || (StatusIs(d', id, "rolled_back") && d'.files == d.files)
  }

  /** What a transaction started on `files` with nothing pending may leave and report. */
  ghost predicate TransactReach(cfg: Config, d: Disk, changes: seq<Change>, id: string, d': Disk, r: Report) {
    && Safe(cfg, d')
    && (Recovered(d') == d.files || Concluded(cfg, d.files, changes, id, d'))
    && OnlyTree(d.admin, d'.admin - {Pending}, id)
    && match r
       case Applied(i) => i == id && Concluded(cfg, d.files, changes, id, d')
       case Refused(_) => d'.files == d.files
       case OriginalsRestored(_) => d'.files == d.files && Pending !in d'.admin
       case RecoveryRequired(_) => TransactSettled(cfg, d, changes, id, d')
       case Lost => d'.files == d.files || TransactSettled(cfg, d, changes, id, d')
       case _ => false
  }

  lemma {:induction false} ConcludedStatus(cfg: Config, files: Files, changes: seq<Change>, id: string, d: Disk)
    requires Concluded(cfg, files, changes, id, d)
    ensures StatusIs(d, id, "committed")
  {
  }

  lemma {:induction false} TransactMeetsApply(
      cfg: Config, d: Disk, payload: seq<PayloadItem>, id: string, d': Disk, r: Report)
    requires PayloadOk(cfg, payload) && Entered(d) == d && Pending !in d.admin
    requires TransactReach(cfg, d, LoadersLast(PlanOf(d.files, payload)), id, d', r)
    ensures ApplyReach(cfg, d, payload, id, d') && ReportTrue(cfg, d, payload, id, d', r)
  {
    var changes := LoadersLast(PlanOf(d.files, payload));
    PlanMeetsPayload(d.files, payload);
    assert Lookup(d.admin, LockFile) == Lookup(d'.admin - {Pending}, LockFile);
    forall p: AdminFile | !(p.InTree? && p.id == id)
      ensures Lookup(d.admin - {Pending, LockFile}, p) == Lookup(d'.admin - {Pending, LockFile}, p)
    {
      assert Lookup(d.admin, p) == Lookup(d'.admin - {Pending}, p);
    }
    if Concluded(cfg, d.files, changes, id, d') {
      ConcludedCanBeUndone(cfg, d.files, changes, id, d');
      ConcludedStatus(cfg, d.files, changes, id, d');
    }
  }
}
