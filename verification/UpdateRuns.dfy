/** Whole runs: any sequence of updates, recoveries and rollbacks, each possibly failing or cut short. */
module UpdateRuns {
  import opened Common
  import opened UpdateModel
  import opened UpdateProofs
  import opened PlanProofs
  import opened UpdateSpec
  import opened UpdateFaults
  import opened UpdateVerdict
  import opened UpdateTerms
  import opened MediaUpdater

  /** A call of the updater, with the volumes that are mounted for it. */
  datatype Command =
    | Update(roots: set<string>, payload: seq<PayloadItem>, id: string, roomFor: bool)
    | Recover(roots: set<string>)
    | RollBackTo(roots: set<string>, id: string)

  function Mounted(cfg: Config, cmd: Command): Config { cfg.(roots := cmd.roots) }

  ghost predicate Step(cfg: Config, d: Disk, cmd: Command, d': Disk) {
    && cmd.roots <= cfg.roots
    && match cmd
       case Update(_, payload, id, _) => ApplyReach(Mounted(cfg, cmd), d, payload, id, d')
       case Recover(_) => RollbackReach(Mounted(cfg, cmd), d, None, d')
       case RollBackTo(_, id) => RollbackReach(Mounted(cfg, cmd), d, Some(id), d')
  }

  ghost predicate IsRun(cfg: Config, cmds: seq<Command>, ds: seq<Disk>) {
    && |ds| == |cmds| + 1
    && forall i :: 0 <= i < |cmds| ==> Step(cfg, ds[i], cmds[i], ds[i + 1])
  }

  /**
   The updater's methods, called in any order, each as a process of its own with
   its own faults and perhaps beside another that holds the lock, only make such
   runs.
   */
  method Drive(cfg: Config, disk: Disk, cmds: seq<Command>, faults: seq<seq<Fault>>, locked: seq<bool>)
    returns (ds: seq<Disk>)
    requires |faults| == |locked| == |cmds|
    requires forall i :: 0 <= i < |cmds| ==> cmds[i].roots <= cfg.roots && (cmds[i].Update? ==> ValidId(cmds[i].id))
    ensures IsRun(cfg, cmds, ds) && ds[0] == disk
  {
    hide Plainly, ReportTrue, Decided, Misleads, RollbackAccepted, RollbackRun, ApplyReach, RollbackReach, ValidId;
    hide PayloadOk, Acceptable, Entered, EnterSteps;
    ds := [disk];
    for n := 0 to |cmds|
      invariant IsRun(cfg, cmds[..n], ds) && ds[0] == disk
    {
      var u := new Updater(cfg.(roots := cmds[n].roots), ds[n], locked[n], faults[n]);
      match cmds[n] {
        case Update(_, payload, id, roomFor) => var _ := u.Apply(payload, false, id, roomFor);
        case Recover(_) => var _ := u.Rollback(None);
        case RollBackTo(_, id) => var _ := u.Rollback(Some(id));
      }
      assert Step(cfg, ds[n], cmds[n], u.disk());
      ds := ds + [u.disk()];
    }
    assert cmds[..|cmds|] == cmds;
  }

  /** What a call with fewer volumes mounted may do, it may do with all of them. */
  ghost predicate WideStep(cfg: Config, d: Disk, cmd: Command, d': Disk) {
    match cmd
    case Update(_, payload, id, _) => ApplyReach(cfg, d, payload, id, d')
    case Recover(_) => RollbackReach(cfg, d, None, d')
    case RollBackTo(_, id) => RollbackReach(cfg, d, Some(id), d')
  }

  lemma {:induction false} SafeWider(cfg: Config, cmd: Command, d: Disk)
    requires cmd.roots <= cfg.roots
    ensures Safe(Mounted(cfg, cmd), d) ==> Safe(cfg, d)
    ensures forall id :: RollbackAllowed(Mounted(cfg, cmd), d, id) ==> RollbackAllowed(cfg, d, id)
    ensures forall payload :: PayloadOk(Mounted(cfg, cmd), payload) ==> PayloadOk(cfg, payload)
  {
    forall t | Owned(Mounted(cfg, cmd), t) ensures Owned(cfg, t) { }
    hide Owned;
    forall j | JournalOk(Mounted(cfg, cmd), d.admin, j) ensures JournalOk(cfg, d.admin, j) {
      forall i | 0 <= i < |j.entries| ensures EntryOk(cfg, j.entries[i]) {
        assert EntryOk(Mounted(cfg, cmd), j.entries[i]);
      }
    }
  }

  lemma {:induction false} StepWider(cfg: Config, d: Disk, cmd: Command, d': Disk)
    requires Step(cfg, d, cmd, d')
    ensures WideStep(cfg, d, cmd, d')
  {
    hide Safe, RollbackAllowed, PayloadOk, RestoreReach, Recovered, OnlyTree, Updated, Entered;
    SafeWider(cfg, cmd, d);
    SafeWider(cfg, cmd, d');
    SafeWider(cfg, cmd, Entered(d));
    EnteringIsSafe(cfg, d);
    NothingPending(Mounted(cfg, cmd), d);
  }

  lemma {:induction false} NothingPending(cfg: Config, d: Disk)
    ensures Pending !in d.admin ==> Safe(cfg, d)
  {
  }

  // ----- safety -----

  /** A journal the rollback accepts beside a guarded pending one is the same transaction. */
  lemma {:induction false} AllowedIsPending(cfg: Config, d: Disk, id: Option<string>)
    requires Safe(cfg, d) && Pending in d.admin && RollbackAllowed(cfg, d, id)
    ensures d.admin[Pending].journal == JournalOf(d.admin, id).(status := d.admin[Pending].journal.status)
  {
  }

  lemma {:induction false} RollbackIsSafe(cfg: Config, d: Disk, id: Option<string>, d': Disk)
    requires Safe(cfg, d) && RollbackReach(cfg, d, id, d')
    ensures Safe(cfg, d')
    ensures Pending in d.admin ==> Recovered(d') == Recovered(d)
  {
    var e := Entered(d);
    EnteringIsSafe(cfg, d);
    if d' != d && d' != e && Pending in e.admin {
      AllowedIsPending(cfg, e, id);
      RestoreIsSafe(cfg, e, JournalOf(e.admin, id), d');
    }
  }

  /** Safety over whole runs: however the commands end, an unfinished transaction can be undone. */
  lemma {:induction false} RunsAreSafe(cfg: Config, cmds: seq<Command>, ds: seq<Disk>, n: nat)
    requires IsRun(cfg, cmds, ds) && Safe(cfg, ds[0]) && n <= |cmds|
    ensures Safe(cfg, ds[n])
  {
    if n > 0 {
      RunsAreSafe(cfg, cmds, ds, n - 1);
      StepWider(cfg, ds[n - 1], cmds[n - 1], ds[n]);
      match cmds[n - 1]
      case Update(_, _, _, _) =>
      case Recover(_) => RollbackIsSafe(cfg, ds[n - 1], None, ds[n]);
      case RollBackTo(_, id) => RollbackIsSafe(cfg, ds[n - 1], Some(id), ds[n]);
    }
  }

  /** A published transaction is recovered by a rollback that meets no fault, to exactly the files owed. */
  lemma {:induction false} PendingCanBeRecovered(cfg: Config, d: Disk, d': Disk)
    requires Safe(cfg, d) && Pending in d.admin
    ensures RollbackAccepted(cfg, Entered(d), None)
    ensures RollbackDone(cfg, d, None, d') ==> d'.files == Recovered(d) && Pending !in d'.admin
  {
    var e := Entered(d);
    EnteringIsSafe(cfg, d);
    if RollbackDone(cfg, d, None, d') {
      RestoreIsSafe(cfg, e, JournalOf(e.admin, None), d');
    }
  }

  // ----- atomicity -----

  /** The files after the updates that `took` says took effect, each as one atomic step. */
  function Folded(files: Files, cmds: seq<Command>, took: seq<bool>): Files
    requires |took| == |cmds|
  {
    if cmds == [] then files
    else
      var n := |cmds| - 1;
      var rest := Folded(files, cmds[..n], took[..n]);
      if took[n] && cmds[n].Update? then Updated(rest, cmds[n].payload) else rest
  }

  /**
   Atomicity over whole runs of updates and recoveries: whatever was cut short,
   the files owed to the user are those of some of the updates carried out
   whole, in order, and of the others not at all.
   */
  lemma {:induction false} RunsAreAtomic(cfg: Config, cmds: seq<Command>, ds: seq<Disk>)
    returns (took: seq<bool>)
    requires IsRun(cfg, cmds, ds) && Safe(cfg, ds[0])
    requires forall i :: 0 <= i < |cmds| ==> !cmds[i].RollBackTo?
    ensures |took| == |cmds|
    ensures Recovered(ds[|cmds|]) == Folded(Recovered(ds[0]), cmds, took)
  {
    took := [];
    if cmds != [] {
      var n := |cmds| - 1;
      var d, d' := ds[n], ds[n + 1];
      assert IsRun(cfg, cmds[..n], ds[..n + 1]);
      var before := RunsAreAtomic(cfg, cmds[..n], ds[..n + 1]);
      RunsAreSafe(cfg, cmds, ds, n);
      assert Step(cfg, d, cmds[n], d');
      StepWider(cfg, d, cmds[n], d');
      var now := Recovered(d') != Recovered(d);
      took := before + [now];
      assert took[..n] == before;
      if cmds[n].Recover? {
        RollbackIsSafe(cfg, d, None, d');
        RecoverChangesNothing(cfg, d, d');
      }
    }
  }

  /** Recovery never changes the files owed to the user: with nothing pending it does nothing. */
  lemma {:induction false} RecoverChangesNothing(cfg: Config, d: Disk, d': Disk)
    requires Safe(cfg, d) && RollbackReach(cfg, d, None, d')
    ensures Recovered(d') == Recovered(d)
  {
    EnteringIsSafe(cfg, d);
    RollbackIsSafe(cfg, d, None, d');
  }

  // ----- what no run touches -----

  /** Every file whose path is not among those owned on its volume is the same on both. */
  ghost predicate OthersKept(cfg: Config, a: Files, b: Files) {
    forall t: Target :: !(t.area in cfg.roots && t.area in cfg.owned && t.path in cfg.owned[t.area]) ==>
      Lookup(a, t) == Lookup(b, t)
  }

  lemma {:induction false} UndoKeepsOthers(cfg: Config, files: Files, es: seq<Entry>, os: seq<Option<Content>>, k: nat)
    requires k <= |es| == |os| && forall i :: 0 <= i < |es| ==> Owned(cfg, es[i].target)
    ensures OthersKept(cfg, files, Undone(files, es, os, k))
  {
    UndoneOff(files, es, os, k);
  }

  lemma {:induction false} RollbackKeepsOthers(cfg: Config, d: Disk, id: Option<string>, d': Disk)
    requires RollbackReach(cfg, d, id, d')
    ensures OthersKept(cfg, d.files, d'.files)
  {
    var e := Entered(d);
    if d' != d && d' != e && d'.files != e.files {
      var j := JournalOf(e.admin, id);
      var os := Originals(e.admin, j.id, j.entries);
      assert forall i :: 0 <= i < |j.entries| ==> EntryOk(cfg, j.entries[i]);
      var k: nat :| k <= |j.entries| && d'.files == Undone(e.files, j.entries, os, k);
      UndoKeepsOthers(cfg, e.files, j.entries, os, k);
    }
  }

  lemma {:induction false} UpdatedKeepsOthers(cfg: Config, files: Files, payload: seq<PayloadItem>)
    requires PayloadOk(cfg, payload)
    ensures OthersKept(cfg, files, Updated(files, payload))
  {
    forall t: Target | !(t.area in cfg.roots && t.area in cfg.owned && t.path in cfg.owned[t.area])
      ensures Lookup(files, t) == Lookup(Updated(files, payload), t)
    {
      UpdatedElsewhere(files, payload, t);
    }
  }

  lemma {:induction false} ApplyKeepsOthers(cfg: Config, d: Disk, payload: seq<PayloadItem>, id: string, d': Disk)
    requires ApplyReach(cfg, d, payload, id, d')
    ensures OthersKept(cfg, d.files, d'.files)
  {
    if Pending !in d.admin {
      if Committed(cfg, d, payload, d') {
        UpdatedKeepsOthers(cfg, d.files, payload);
      } else if Pending in d'.admin {
        var j := d'.admin[Pending].journal;
        assert forall i :: 0 <= i < |j.entries| ==> EntryOk(cfg, j.entries[i]);
        UndoKeepsOthers(cfg, d'.files, j.entries, Originals(d'.admin, j.id, j.entries), |j.entries|);
      }
    }
  }

  /**
   Over every run, from any disk at all, tampered journals included, every
   file outside the owned targets keeps its content.
   */
  lemma {:induction false} RunsKeepOthers(cfg: Config, cmds: seq<Command>, ds: seq<Disk>, n: nat)
    requires IsRun(cfg, cmds, ds) && n <= |cmds|
    ensures OthersKept(cfg, ds[0].files, ds[n].files)
  {
    if n > 0 {
      RunsKeepOthers(cfg, cmds, ds, n - 1);
      assert Step(cfg, ds[n - 1], cmds[n - 1], ds[n]);
      StepWider(cfg, ds[n - 1], cmds[n - 1], ds[n]);
      match cmds[n - 1]
      case Update(_, payload, id, _) => ApplyKeepsOthers(cfg, ds[n - 1], payload, id, ds[n]);
      case Recover(_) => RollbackKeepsOthers(cfg, ds[n - 1], None, ds[n]);
      case RollBackTo(_, id) => RollbackKeepsOthers(cfg, ds[n - 1], Some(id), ds[n]);
    }
  }

  /** Backups and markers outlive every run that starts no other transaction under their name. */
  lemma {:induction false} RunsKeepBackups(cfg: Config, cmds: seq<Command>, ds: seq<Disk>, n: nat, place: AdminFile)
    requires IsRun(cfg, cmds, ds) && n <= |cmds|
    requires place.InTree? && place.leaf != Manifest
    requires forall i :: 0 <= i < n && cmds[i].Update? ==> cmds[i].id != place.id
    ensures Lookup(ds[n].admin, place) == Lookup(ds[0].admin, place)
  {
    if n > 0 {
      RunsKeepBackups(cfg, cmds, ds, n - 1, place);
      var d, d' := ds[n - 1], ds[n];
      assert Step(cfg, d, cmds[n - 1], d');
      if cmds[n - 1].Update? {
        assert Lookup(d.admin - {Pending, LockFile}, place) == Lookup(d'.admin - {Pending, LockFile}, place);
      }
    }
  }

  // ----- rolling back a finished transaction by name -----

  /** A rollback cut short anywhere can be repeated, and repeating it ends in the same files. */
  lemma {:induction false} RollbackResumes(cfg: Config, d: Disk, id: string, d': Disk)
    requires RollbackAccepted(cfg, d, Some(id)) && RestoreReach(d, JournalOf(d.admin, Some(id)), d')
    ensures RollbackAccepted(cfg, d', Some(id))
    ensures RestoreDone(d', JournalOf(d'.admin, Some(id))).files == RestoreDone(d, JournalOf(d.admin, Some(id))).files
  {
    var j := JournalOf(d.admin, Some(id));
    var j' := JournalOf(d'.admin, Some(id));
    var es := j.entries;
    var os := Originals(d.admin, id, es);
    var k: nat :| k <= |es| && d'.files == Undone(d.files, es, os, k);
    assert j' == j.(status := j'.status) && StatusOk(j'.status);
    assert forall p: AdminFile :: p.InTree? && p.leaf != Manifest ==> Lookup(d'.admin, p) == Lookup(d.admin, p);
    KeysGiveTargets(EntryTargets(es));
    assert MarkersOk(d'.admin, j') by { assert MarkersOk(d.admin, j); }
    BackupsKept(d.admin, d'.admin, id, es);
    RestorableAgain(d, j, d', j', k);
    UndoneOff(d.files, es, os, k);
    UndoneForgets(d'.files, d.files, es, os);
  }

  lemma {:induction false} BackupsKept(a: Admin, b: Admin, id: string, es: seq<Entry>)
    requires forall p: AdminFile :: p.InTree? && p.leaf != Manifest ==> Lookup(b, p) == Lookup(a, p)
    ensures Originals(b, id, es) == Originals(a, id, es)
  {
    var x, y := Originals(a, id, es), Originals(b, id, es);
    assert forall i :: 0 <= i < |es| ==> x[i] == y[i];
  }

  /** What is restorable is still so after part of it has been restored. */
  lemma {:induction false} RestorableAgain(d: Disk, j: Journal, d': Disk, j': Journal, k: nat)
    requires k <= |j.entries| && DistinctTargets(EntryTargets(j.entries)) && j' == j.(status := j'.status)
    requires forall p: AdminFile :: p.InTree? && p.leaf != Manifest ==> Lookup(d'.admin, p) == Lookup(d.admin, p)
    requires d'.files == Undone(d.files, j.entries, Originals(d.admin, j.id, j.entries), k) && AllRestorable(d, j)
    ensures AllRestorable(d', j')
  {
    var es, os := j.entries, Originals(d.admin, j.id, j.entries);
    forall i | 0 <= i < |es| ensures Restorable(d', j', i) {
      assert Restorable(d, j, i);
      OriginalHasDigest(d, j, i);
      UndoneAt(d.files, es, os, k, i);
      assert Lookup(d'.admin, InTree(es[i].target.area, j.id, Backup(i)))
        == Lookup(d.admin, InTree(es[i].target.area, j.id, Backup(i)));
    }
  }

  ghost predicate NeedsRestoring(d: Disk, j: Journal, i: nat)
    requires i < |j.entries|
  {
    Lookup(d.files, j.entries[i].target) != Originals(d.admin, j.id, j.entries)[i]
  }

  /** Whatever goes wrong, a rollback leaves the files before it or the files after it. */
  ghost predicate RollbackAtomic(d: Disk, j: Journal) {
    forall faults :: Whole(d, j, RollbackRun(d, j, faults).disk)
  }

  ghost predicate Whole(d: Disk, j: Journal, d': Disk) {
    Recovered(d') == Recovered(d) || Recovered(d') == RestoreDone(Entered(d), j).files
  }

  /** The disks a rollback leaves, by the faults it meets. */
  lemma {:induction false} RollbackLeaves(d: Disk, j: Journal, faults: seq<Fault>)
    requires AllRestorable(Entered(d), j)
    ensures var d' := RollbackRun(d, j, faults).disk; d' == d || RestoreReach(Entered(d), j, d')
  {
    var e := Entered(d);
    var enter := EnterRun(d, faults);
    hide Entered, AllRestorable;
    if enter.outcome.Done? { RunIsReach(e, j, 0, enter.faults); }
  }

  /** And every disk that `RestoreReach` names is left by some rollback. */
  lemma {:induction false} RollbackGetsTo(d: Disk, j: Journal, d': Disk) returns (faults: seq<Fault>)
    requires AllRestorable(Entered(d), j) && RestoreReach(Entered(d), j, d')
    ensures RollbackRun(d, j, faults).disk == d'
  {
    var e := Entered(d);
    faults := ReachIsRun(e, j, d');
    faults := EnterFirst(d, j, faults);
  }

  /**
   Rolling a transaction back by name is atomic exactly when its journal is
   still pending or at most one target has to change: a finished transaction
   is not published again before its targets are replaced.
   */
  lemma {:induction false} RollbackAtomicIff(cfg: Config, d: Disk, id: string)
    requires Safe(cfg, d) && RollbackAccepted(cfg, Entered(d), Some(id))
    ensures var j := JournalOf(Entered(d).admin, Some(id));
      RollbackAtomic(d, j) <==>
        || Pending in d.admin
        || forall i, k :: 0 <= i < k < |j.entries| ==>
             !(NeedsRestoring(Entered(d), j, i) && NeedsRestoring(Entered(d), j, k))
  {
    var e := Entered(d);
    var j := JournalOf(e.admin, Some(id));
    EnteringIsSafe(cfg, d);
    assert AllRestorable(e, j) && JournalOk(cfg, e.admin, j) && (Pending in e.admin <==> Pending in d.admin);
    if Pending !in d.admin
       && exists i, k :: 0 <= i < k < |j.entries| && NeedsRestoring(e, j, i) && NeedsRestoring(e, j, k) {
      var i, k :| 0 <= i < k < |j.entries| && NeedsRestoring(e, j, i) && NeedsRestoring(e, j, k);
      var faults := TornRollback(cfg, d, j, i, k);
      assert !Whole(d, j, RollbackRun(d, j, faults).disk);
    } else {
      forall faults ensures Whole(d, j, RollbackRun(d, j, faults).disk) {
        RollbackLeaves(d, j, faults);
        var d' := RollbackRun(d, j, faults).disk;
        if d' != d { StopIsWhole(cfg, e, j, d'); }
      }
    }
  }

  lemma {:induction false} StopIsWhole(cfg: Config, e: Disk, j: Journal, d: Disk)
    requires Safe(cfg, e) && RestoreReach(e, j, d) && JournalOk(cfg, e.admin, j)
    requires Pending in e.admin ==> e.admin[Pending].JournalText? && j == e.admin[Pending].journal.(status := j.status)
    requires Pending !in e.admin ==>
      forall i, k :: 0 <= i < k < |j.entries| ==> !(NeedsRestoring(e, j, i) && NeedsRestoring(e, j, k))
    ensures Recovered(d) == Recovered(e) || Recovered(d) == RestoreDone(e, j).files
  {
    if Pending in e.admin {
      RestoreIsSafe(cfg, e, j, d);
    } else {
      var n, os := |j.entries|, Originals(e.admin, j.id, j.entries);
      assert Pending !in d.admin;
      var k: nat :| k <= n && d.files == Undone(e.files, j.entries, os, k);
      OneStepRollback(e, j, k);
    }
  }

  /** Between two targets that have to be restored the files are neither the old nor the new ones. */
  lemma {:induction false} TornFiles(e: Disk, j: Journal, i: nat, k: nat)
    requires DistinctKeys(EntryTargets(j.entries)) && i < k < |j.entries|
    requires NeedsRestoring(e, j, i) && NeedsRestoring(e, j, k)
    ensures var torn := Undone(e.files, j.entries, Originals(e.admin, j.id, j.entries), i + 1);
      torn != e.files && torn != RestoreDone(e, j).files
  {
    var es, n := j.entries, |j.entries|;
    var os := Originals(e.admin, j.id, es);
    KeysGiveTargets(EntryTargets(es));
    UndoneAt(e.files, es, os, i + 1, i);
    UndoneAt(e.files, es, os, i + 1, k);
    UndoneAt(e.files, es, os, n, k);
  }

  /** The schedule once the lock file's step, if there is one, has been put before it. */
  lemma {:induction false} EnterFirst(d: Disk, j: Journal, later: seq<Fault>) returns (faults: seq<Fault>)
    ensures RollbackRun(d, j, faults)
         == RestoreRun(Entered(d), j, Originals(Entered(d).admin, j.id, j.entries), 0, later)
  {
    hide Entered, RestoreRun;
    faults := if Entered(d) == d then later else [Calm] + later;
    assert Entered(d) != d ==> Later(faults) == later;
  }

  /** With two targets to restore, a crash between them leaves neither version, and this is how it comes about. */
  lemma {:induction false} TornRollback(cfg: Config, d: Disk, j: Journal, i: nat, k: nat) returns (faults: seq<Fault>)
    requires JournalOk(cfg, d.admin, j) && AllRestorable(Entered(d), j) && Pending !in d.admin
    requires i < k < |j.entries| && NeedsRestoring(Entered(d), j, i) && NeedsRestoring(Entered(d), j, k)
    ensures RollbackRun(d, j, faults).outcome == Interrupted && !Whole(d, j, RollbackRun(d, j, faults).disk)
  {
    var e := Entered(d);
    assert Pending !in e.admin && e.files == d.files;
    TornFiles(e, j, i, k);
    hide RestoreRun, AllRestorable, JournalOk, Undone, Originals, Entered, RollbackRun, NeedsRestoring, RestoreDone;
    faults := CrashAt(e, j, i + 1);
    faults := EnterFirst(d, j, faults);
  }

  lemma {:induction false} UndoneIdle(files: Files, es: seq<Entry>, os: seq<Option<Content>>, a: nat, b: nat)
    requires a <= b <= |es| == |os| && DistinctTargets(EntryTargets(es))
    requires forall i :: a <= i < b ==> Lookup(files, es[i].target) == os[i]
    ensures Undone(files, es, os, b) == Undone(files, es, os, a)
  {
    if a < b {
      UndoneIdle(files, es, os, a, b - 1);
      UndoneAt(files, es, os, b - 1, b - 1);
      PutSame(Undone(files, es, os, b - 1), es[b - 1].target, os[b - 1]);
    }
  }

  lemma {:induction false} OneStepRollback(d: Disk, j: Journal, k: nat)
    requires k <= |j.entries| && DistinctKeys(EntryTargets(j.entries))
    requires forall i, m :: 0 <= i < m < |j.entries| ==> !(NeedsRestoring(d, j, i) && NeedsRestoring(d, j, m))
    ensures var os := Originals(d.admin, j.id, j.entries);
            var now := Undone(d.files, j.entries, os, k);
            now == d.files || now == Undone(d.files, j.entries, os, |j.entries|)
  {
    var os := Originals(d.admin, j.id, j.entries);
    KeysGiveTargets(EntryTargets(j.entries));
    if i :| 0 <= i < k && NeedsRestoring(d, j, i) {
      forall m | k <= m < |j.entries| ensures Lookup(d.files, j.entries[m].target) == os[m] {
        assert !NeedsRestoring(d, j, m);
      }
      UndoneIdle(d.files, j.entries, os, k, |j.entries|);
    } else {
      forall m | 0 <= m < k ensures Lookup(d.files, j.entries[m].target) == os[m] {
        assert !NeedsRestoring(d, j, m);
      }
      UndoneIdle(d.files, j.entries, os, 0, k);
    }
  }
}
