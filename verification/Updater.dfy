/**
 The media updater at work on two mounted volumes. `faults` is what the
 environment has in store for the coming durable steps: each step uses up one
 element and may do nothing, fail or lose the process before or after taking
 effect. Every contract holds for every schedule, so what it says of an
 `Interrupted` outcome holds at every crash point.
 */
module MediaUpdater {
  import opened Common
  import opened UpdateModel
  import opened UpdateProofs
  import opened PlanProofs
  import opened UpdateSpec
  import opened UpdateFaults
  import opened UpdateVerdict
  import opened UpdateTerms

  function Ending(o: Outcome): Report
    requires !o.Done?
  {
    if o.Raised? then Refused(o.why) else Lost
  }

  class Updater {
    const cfg: Config
    var files: Files
    var admin: Admin
    var locked: bool
    var faults: seq<Fault>

    constructor (cfg: Config, disk: Disk, locked: bool, faults: seq<Fault>)
      ensures this.cfg == cfg && this.disk() == disk && this.locked == locked && this.faults == faults
    {
      this.cfg := cfg;
      files, admin := disk.files, disk.admin;
      this.locked, this.faults := locked, faults;
    }

    function disk(): Disk
      reads this`files, this`admin
    {
      Disk(files, admin)
    }

    // ----- durable steps -----

    method NextFault() returns (f: Fault)
      modifies this`faults
      ensures f == FaultOf(old(faults)) && faults == Later(old(faults))
    {
      if faults == [] {
        f := Calm;
      } else {
        f, faults := faults[0], faults[1..];
      }
    }

    /** durable_write of a file in the administration tree. */
    method WriteAdmin(place: AdminFile, content: Content) returns (r: Outcome)
      modifies this`admin, this`faults
      ensures admin == if Applies(FaultOf(old(faults))) then old(admin)[place := content] else old(admin)
      ensures FaultOf(old(faults)) == Calm ==> r.Done?
      ensures r.Done? ==> admin == old(admin)[place := content]
      ensures r == EndOf(FaultOf(old(faults))) && faults == Later(old(faults))
    {
      var f := NextFault();
      if f == Calm || f == FailAfter || f == CrashAfter {
        admin := admin[place := content];
      }
      r := EndOf(f);
    }

    /** unlink of a file in the administration tree. */
    method RemoveAdmin(place: AdminFile) returns (r: Outcome)
      modifies this`admin, this`faults
      ensures admin == if Applies(FaultOf(old(faults))) then old(admin) - {place} else old(admin)
      ensures r == EndOf(FaultOf(old(faults))) && faults == Later(old(faults))
    {
      var f := NextFault();
      if f == Calm || f == FailAfter || f == CrashAfter {
        admin := admin - {place};
      }
      r := EndOf(f);
    }

    /** durable_write of a target, or its unlink when there is no content to write. */
    method PutTarget(target: Target, content: Option<Content>) returns (r: Outcome)
      modifies this`files, this`faults
      ensures files == if Applies(FaultOf(old(faults))) then Put(old(files), target, content) else old(files)
      ensures r == EndOf(FaultOf(old(faults))) && faults == Later(old(faults))
    {
      var f := NextFault();
      if f == Calm || f == FailAfter || f == CrashAfter {
        files := Put(files, target, content);
      }
      r := EndOf(f);
    }

    /** os.replace of a target by a staged file: one atomic step on both. */
    method MoveIntoPlace(stage: AdminFile, target: Target) returns (r: Outcome)
      modifies this`files, this`admin, this`faults
      ensures stage !in old(admin) ==> r.Raised?
      ensures stage in old(admin) ==> r == EndOf(FaultOf(old(faults)))
      ensures faults == Later(old(faults))
      ensures if stage in old(admin) && Applies(FaultOf(old(faults)))
        then files == old(files)[target := old(admin)[stage]] && admin == old(admin) - {stage}
        else files == old(files) && admin == old(admin)
    {
      var f := NextFault();
      if stage !in admin {
        return Raised("no such file");
      }
      if f == Calm || f == FailAfter || f == CrashAfter {
        files, admin := files[target := admin[stage]], admin - {stage};
      }
      r := EndOf(f);
    }

    // ----- planning and loading -----

    /** plan: reject duplicate and unowned targets, keep the items that change something. */
    method Plan(payload: seq<PayloadItem>) returns (r: Result<seq<Change>, string>)
      ensures r.Ok? <==> PayloadOk(cfg, payload)
      ensures r.Ok? <==> AllOwned(cfg, payload) && NoneTwice(payload)
      ensures r.Ok? ==> r.value == PlanOf(files, payload) && Plans(files, payload, r.value)
    {
      PayloadIs(cfg, payload);
      PlanIs(files, payload);
      hide AllOwned, NoneTwice, Plans;
      var changes: seq<Change> := [];
      var seen: set<(string, string)> := {};
      for n := 0 to |payload|
        invariant changes == PlanOf(files, payload[..n])
        invariant PayloadOk(cfg, payload[..n])
        invariant forall k :: k in seen <==> exists i :: 0 <= i < n && Key(payload[i].target) == k
      {
        var item := payload[n];
        assert payload[..n + 1][..n] == payload[..n];
        if Key(item.target) in seen {
          var i :| 0 <= i < n && Key(payload[i].target) == Key(item.target);
          assert Key(PayloadTargets(payload)[i]) == Key(PayloadTargets(payload)[n]);
          return Err("duplicate update target");
        }
        seen := seen + {Key(item.target)};
        if !Owned(cfg, item.target) {
          return Err("unowned update target");
        }
        assert DistinctKeys(PayloadTargets(payload[..n + 1])) by {
          assert PayloadTargets(payload[..n + 1]) == PayloadTargets(payload[..n]) + [item.target];
        }
        if FileDigest(files, item.target) != Some(Digest(item.content)) {
          changes := changes + [ChangeFor(files, item)];
        }
      }
      assert payload[..|payload|] == payload;
      r := Ok(changes);
    }

    /** load_journal: the pending journal, or the manifest of a named transaction. */
    method LoadJournal(id: Option<string>) returns (r: Result<Journal, string>)
      ensures r.Ok? <==> Loadable(cfg, admin, id)
      ensures r.Ok? <==> Loads(cfg, admin, id)
      ensures r.Ok? ==> r.value == admin[JournalPlace(id)].journal
    {
      hide DigestOk, Owned, ValidId, StatusOk, Loads;
      LoadableIs(cfg, admin, id);
      if id.Some? && !ValidId(id.value) {
        return Err("invalid transaction identifier");
      }
      if JournalPlace(id) !in admin || !admin[JournalPlace(id)].JournalText? {
        return Err("unreadable journal");
      }
      var j := admin[JournalPlace(id)].journal;
      if j.schema != 1 || !StatusOk(j.status) {
        return Err("invalid update journal");
      }
      if !ValidId(j.id) {
        return Err("invalid transaction identifier");
      }
      if id.Some? && j.id != id.value {
        return Err("journal identity mismatch");
      }
      if j.entries == [] {
        return Err("empty or invalid update journal");
      }
      var seen: set<(string, string)> := {};
      for n := 0 to |j.entries|
        invariant forall i :: 0 <= i < n ==> EntryOk(cfg, j.entries[i])
        invariant DistinctKeys(EntryTargets(j.entries)[..n])
        invariant forall k :: k in seen <==> exists i :: 0 <= i < n && Key(j.entries[i].target) == k
      {
        var e := j.entries[n];
        if !Owned(cfg, e.target) {
          return Err("unowned update target");
        }
        if Key(e.target) in seen {
          var i :| 0 <= i < n && Key(j.entries[i].target) == Key(e.target);
          assert Key(EntryTargets(j.entries)[i]) == Key(EntryTargets(j.entries)[n]);
          return Err("duplicate journal target");
        }
        seen := seen + {Key(e.target)};
        if !DigestOk(e.after) || (e.before.Some? && !DigestOk(e.before.value)) {
          return Err("invalid journal digest");
        }
      }
      assert EntryTargets(j.entries)[..|j.entries|] == EntryTargets(j.entries);
      for n := 0 to |j.entries|
        invariant forall i :: 0 <= i < n ==>
          Lookup(admin, InTree(j.entries[i].target.area, j.id, Marker))
            == Some(MarkerText(j.id, j.entries[i].target.area))
      {
        var area := j.entries[n].target.area;
        if Lookup(admin, InTree(area, j.id, Marker)) != Some(MarkerText(j.id, area)) {
          return Err("transaction belongs to a different volume");
        }
      }
      r := Ok(j);
    }

    // ----- ending a transaction -----

    /** finish: record the status, then withdraw the pending journal. */
    method Finish(j: Journal, status: string) returns (r: Outcome)
      modifies this`admin, this`faults
      ensures Run(disk(), faults, r) == FinishRun(old(disk()), j, status, old(faults))
      ensures admin == old(admin) || admin == Recorded(old(admin), j, status)
              || (PendingMatches(old(admin), j) && admin == Recorded(old(admin), j, status) - {Pending})
      ensures r.Done? ==> PendingMatches(old(admin), j) && admin == Recorded(old(admin), j, status) - {Pending}
    {
      var record := JournalText(j.(status := status));
      :- WriteAdmin(InTree("esp", j.id, Manifest), record);
      if Pending in admin {
        if !admin[Pending].JournalText? || admin[Pending].journal.id != j.id {
          return Raised("another update needs recovery first");
        }
        :- RemoveAdmin(Pending);
      } else {
        assert admin - {Pending} == admin;
      }
      return Done;
    }

    /**
     The checks of restore: every target still belongs to the transaction and
     every backup is intact. They read only, and give what each target held.
     */
    method CheckRestorable(j: Journal) returns (r: Result<seq<Option<Content>>, string>)
      ensures r.Ok? <==> AllRestorable(disk(), j)
      ensures r.Ok? ==> r.value == Originals(admin, j.id, j.entries)
    {
      var originals: seq<Option<Content>> := [];
      for n := 0 to |j.entries|
        invariant forall i :: 0 <= i < n ==> Restorable(disk(), j, i)
        invariant originals == Originals(admin, j.id, j.entries)[..n]
      {
        var e := j.entries[n];
        var current := FileDigest(files, e.target);
        if current != None && current != e.before && current != Some(e.after) {
          assert !Restorable(disk(), j, n);
          return Err("file changed outside this update; preserving it");
        }
        var original: Option<Content> := None;
        if e.before.Some? {
          var backup := InTree(e.target.area, j.id, Backup(n));
          if backup !in admin || Digest(admin[backup]) != e.before.value {
            assert !Restorable(disk(), j, n);
            return Err("backup checksum mismatch");
          }
          original := Some(admin[backup]);
        }
        originals := originals + [original];
      }
      r := Ok(originals);
    }

    /** restore: check everything, then put every target back, then finish. */
    method Restore(j: Journal) returns (r: Outcome)
      modifies this`files, this`admin, this`faults
      ensures RestoreReach(old(disk()), j, disk())
      ensures !AllRestorable(old(disk()), j) ==> r.Raised? && disk() == old(disk())
      ensures r.Done? ==> PendingMatches(old(admin), j) && disk() == RestoreDone(old(disk()), j)
      ensures AllRestorable(old(disk()), j) ==>
        Run(disk(), faults, r)
        == RestoreRun(old(disk()), j, Originals(old(admin), j.id, j.entries), 0, old(faults))
      ensures old(faults) == [] && AllRestorable(old(disk()), j) && PendingMatches(old(admin), j) ==>
        r.Done? && faults == []
    {
      ghost var d0 := disk();
      var checked := CheckRestorable(j);
      if checked.Err? {
        return Raised(checked.error);
      }
      var originals := checked.value;
      for n := 0 to |j.entries|
        invariant admin == d0.admin
        invariant files == Undone(d0.files, j.entries, originals, n)
        invariant RestoreRun(disk(), j, originals, n, faults) == RestoreRun(d0, j, originals, 0, old(faults))
        invariant old(faults) == [] ==> faults == []
      {
        var e := j.entries[n];
        OriginalHasDigest(d0, j, n);
        if FileDigest(files, e.target) != e.before {
          var put := PutTarget(e.target, originals[n]);
          assert files == Undone(d0.files, j.entries, originals, n)
              || files == Undone(d0.files, j.entries, originals, n + 1);
          if !put.Done? {
            return put;
          }
        } else {
          PutSame(files, e.target, originals[n]);
        }
        assert FileDigest(files, e.target) == e.before;
      }
      r := Finish(j, "rolled_back");
    }

    // ----- the lock -----

    method Acquire() returns (r: Outcome)
      modifies this`admin, this`locked, this`faults
      ensures disk() == old(disk()) || disk() == Entered(old(disk()))
      ensures r.Done? ==> disk() == Entered(old(disk())) && !old(locked)
      ensures locked == (old(locked) || r.Done?)
      ensures !old(locked) ==> Run(disk(), faults, r) == EnterRun(old(disk()), old(faults))
      ensures var t := Take(old(faults), EnterSteps(old(disk())));
        t.fault == Calm ==>
          faults == t.faults && disk() == Entered(old(disk())) && (r.Done? <==> !old(locked)) && !r.Interrupted?
    {
      OneStep(faults);
      if LockFile !in admin || admin[LockFile] == Blob([]) {
        :- WriteAdmin(LockFile, Blob([48]));
      }
      if locked {
        return Raised("another media update is already running");
      }
      locked := true;
      return Done;
    }

    // ----- rollback -----

    /** rollback: undo the pending transaction, or the named one if no other is pending. */
    method Rollback(id: Option<string>) returns (r: Outcome)
      modifies this`files, this`admin, this`locked, this`faults
      ensures locked == old(locked)
      ensures RollbackReach(cfg, old(disk()), id, disk())
      ensures r.Done? ==> RollbackDone(cfg, old(disk()), id, disk())
      ensures !old(locked) && RollbackAccepted(cfg, Entered(old(disk())), id) ==>
        Run(disk(), faults, r) == RollbackRun(old(disk()), JournalOf(Entered(old(disk())).admin, id), old(faults))
      ensures old(faults) == [] ==>
              (r.Done? <==> !old(locked) && RollbackAccepted(cfg, Entered(old(disk())), id))
              && !r.Interrupted? && (!r.Done? ==> disk() == Entered(old(disk())))
    {
      hide Take, RestoreRun, RestoreReach, AllRestorable, Loadable, EnterSteps, Entered;
      TakeCalm(faults, EnterSteps(disk()));
      r := Acquire();
      if r.Done? {
        r := RollbackLocked(id);
        locked := false;
      }
    }

    method RollbackLocked(id: Option<string>) returns (r: Outcome)
      modifies this`files, this`admin, this`faults
      ensures disk() == old(disk())
        || (RollbackAllowed(cfg, old(disk()), id) && RestoreReach(old(disk()), JournalOf(old(admin), id), disk()))
      ensures r.Done? ==>
        RollbackAllowed(cfg, old(disk()), id) && disk() == RestoreDone(old(disk()), JournalOf(old(admin), id))
      ensures RollbackAccepted(cfg, old(disk()), id) ==>
        var j := JournalOf(old(admin), id);
        Run(disk(), faults, r) == RestoreRun(old(disk()), j, Originals(old(admin), j.id, j.entries), 0, old(faults))
      ensures old(faults) == [] ==>
              (r.Done? <==> RollbackAccepted(cfg, old(disk()), id)) && !r.Interrupted?
                && (!r.Done? ==> disk() == old(disk()))
    {
      var loaded := LoadJournal(id);
      if loaded.Err? {
        return Raised(loaded.error);
      }
      var j := loaded.value;
      if Pending in admin && (!admin[Pending].JournalText? || admin[Pending].journal.id != j.id) {
        return Raised("another update needs recovery first");
      }
      r := Restore(j);
    }

    // ----- apply -----

    /** Write a marker on every volume that the transaction touches, in no order the code fixes. */
    method StageMarkers(areas: set<string>, id: string) returns (r: Outcome)
      modifies this`admin, this`faults
      ensures OnlyTree(old(admin), admin, id)
      ensures r.Done? ==> forall a :: a in areas ==> Lookup(admin, InTree(a, id, Marker)) == Some(MarkerText(id, a))
      ensures Stopped(old(faults), |areas|, r, faults)
    {
      hide Take;
      NoStep(faults);
      var todo := areas;
      ghost var k := 0;
      while todo != {}
        invariant todo <= areas && |todo| == |areas| - k
        invariant forall a :: a in areas - todo ==> Lookup(admin, InTree(a, id, Marker)) == Some(MarkerText(id, a))
        invariant OnlyTree(old(admin), admin, id)
        invariant Calmly(old(faults), k, faults)
      {
        var area :| area in todo;
        todo := todo - {area};
        NextStep(old(faults), k, |areas|, faults);
        k := k + 1;
        :- WriteAdmin(InTree(area, id, Marker), MarkerText(id, area));
      }
      return Done;
    }

    /** Write the new content and the backup of one change. */
    method StageOne(c: Change, id: string, n: nat) returns (r: Outcome)
      modifies this`admin, this`faults
      ensures OnlyTree(old(admin), admin, id)
      ensures r.Done? ==> OneStaged(old(admin), admin, c, id, n)
      ensures Stopped(old(faults), StageSteps(c), r, faults)
    {
      hide Applies, Take;
      OneStep(faults);
      OneStep(Later(faults));
      TakeMore(faults, 1, 1);
      :- WriteAdmin(InTree(c.entry.target.area, id, Stage(n)), c.content);
      if c.original.Some? {
        :- WriteAdmin(InTree(c.entry.target.area, id, Backup(n)), c.original.value);
      }
      return Done;
    }

    /** Write the volume markers, the new content and the backups of a transaction. */
    method StageAll(changes: seq<Change>, id: string) returns (r: Outcome)
      requires changes != [] && ValidId(id) && PlannedOn(files, changes)
      requires forall i :: 0 <= i < |changes| ==> Owned(cfg, changes[i].entry.target)
      modifies this`admin, this`faults
      ensures OnlyTree(old(admin), admin, id)
      ensures r.Done? ==> Prepared(cfg, files, admin, changes, id) && Staged(admin, changes, id, 0)
      ensures r.Done? ==> Lookup(admin, InTree("esp", id, Marker)) == Some(MarkerText(id, "esp"))
      ensures Stopped(old(faults), |Areas(changes)| + ContentSteps(changes), r, faults)
    {
      hide OnlyTree, PlannedOn, Prepared, Staged, StagedUpTo, OneStaged, Take, ContentSteps, Areas, ValidId;
      hide Owned, StageSteps;
      ghost var steps := |Areas(changes)| + ContentSteps(changes);
      assert changes[..0] == [];
      NoContent();
      NoStep(faults);
      NextPart(old(faults), 0, |Areas(changes)|, steps, faults);
      :- StageMarkers(Areas(changes), id);
      MarkersStaged(admin, changes, id);
      AreasAre(changes, "esp");
      for n := 0 to |changes|
        invariant StagedUpTo(admin, changes, id, n) && OnlyTree(old(admin), admin, id)
        invariant Lookup(admin, InTree("esp", id, Marker)) == Some(MarkerText(id, "esp"))
        invariant Calmly(old(faults), |Areas(changes)| + ContentSteps(changes[..n]), faults)
      {
        var c := changes[n];
        ContentGrows(changes, n);
        NextPart(old(faults), |Areas(changes)| + ContentSteps(changes[..n]), StageSteps(c), steps, faults);
        ghost var before := admin;
        var staged := StageOne(c, id, n);
        TreeTwice(old(admin), before, admin, id);
        if !staged.Done? {
          return staged;
        }
        StagedFurther(before, admin, changes, id, n);
      }
      assert changes[..|changes|] == changes;
      StagedIsPrepared(cfg, files, admin, changes, id);
      return Done;
    }

    /** Move the staged files over their targets, one at a time, in the order given. */
    method Install(changes: seq<Change>, id: string) returns (r: Outcome, ghost k: nat)
      requires PlannedOn(files, changes) && Staged(admin, changes, id, 0)
      modifies this`files, this`admin, this`faults
      ensures k <= |changes| && files == Installed(old(files), changes, k)
      ensures SameButStages(old(admin), admin) && OnlyTree(old(admin), admin, id)
      ensures r.Done? ==> k == |changes|
      ensures Stopped(old(faults), |changes|, r, faults)
      ensures var t := Take(old(faults), |changes|); k == Moved(t.calm, t.fault, |changes|)
    {
      hide Staged, SameButStages, OnlyTree, PlannedOn, Take;
      NoStep(faults);
      k := 0;
      NothingTaken(admin, id);
      for n := 0 to |changes|
        invariant k == n && files == Installed(old(files), changes, n)
        invariant SameButStages(old(admin), admin) && OnlyTree(old(admin), admin, id) && Staged(admin, changes, id, n)
        invariant Calmly(old(faults), n, faults)
      {
        var c := changes[n];
        NextChange(old(files), changes, n);
        StageTaken(old(admin), admin, changes, id, n);
        assert FileDigest(files, c.entry.target) == c.entry.before;
        NextStep(old(faults), n, |changes|, faults);
        ghost var fault := FaultOf(faults);
        var moved := MoveIntoPlace(InTree(c.entry.target.area, id, Stage(n)), c.entry.target);
        if Applies(fault) {
          k := n + 1;
        }
        if !moved.Done? {
          return moved, k;
        }
        assert FileDigest(files, c.entry.target) == Some(c.entry.after);
      }
      return Done, k;
    }

    /** Stage everything, record the manifest, and publish the journal. */
    method Publish(changes: seq<Change>, id: string) returns (r: Outcome)
      requires changes != [] && ValidId(id) && PlannedOn(files, changes) && Pending !in admin
      requires forall i :: 0 <= i < |changes| ==> Owned(cfg, changes[i].entry.target)
      modifies this`admin, this`faults
      ensures Pending in admin ==> Published(cfg, files, admin, changes, id)
      ensures r.Done? ==> Pending in admin && Staged(admin, changes, id, 0)
      ensures OnlyTree(old(admin), admin - {Pending}, id)
      ensures Stopped(old(faults), PublishSteps(changes), r, faults)
      ensures Pending in admin <==> Reached(Take(old(faults), PublishSteps(changes)), PublishSteps(changes))
    {
      hide OnlyTree, Prepared, Staged, PlannedOn, ValidId, Owned, Take, Published;
      var j := JournalFor(changes, id, "prepared");
      ghost var steps := PublishSteps(changes);
      NoStep(faults);
      NextPart(old(faults), 0, steps - 2, steps, faults);
      r := StageAll(changes, id);
      TreeKeepsPending(old(admin), admin, id);
      if !r.Done? {
        return;
      }
      ghost var staged := admin;
      PublishedNow(cfg, files, staged, changes, id);
      TreeTwice(old(admin), staged, staged - {Pending}, id);
      TreeTwice(old(admin), staged, staged[InTree("esp", id, Manifest) := JournalText(j)] - {Pending}, id);
      NextStep(old(faults), steps - 2, steps, faults);
      :- WriteAdmin(InTree("esp", id, Manifest), JournalText(j));
      NextStep(old(faults), steps - 1, steps, faults);
      r := WriteAdmin(Pending, JournalText(j));
      TreeTwice(old(admin), staged, admin - {Pending}, id);
    }

    /** Install a published transaction and commit it. */
    method InstallAndCommit(ghost files0: Files, changes: seq<Change>, id: string) returns (r: Outcome, ghost k: nat)
      requires files == files0 && Published(cfg, files0, admin, changes, id) && Staged(admin, changes, id, 0)
      requires Ordered(changes)
      modifies this`files, this`admin, this`faults
      ensures Underway(cfg, files0, changes, id, disk()) || Concluded(cfg, files0, changes, id, disk())
      ensures r.Done? ==> Concluded(cfg, files0, changes, id, disk())
      ensures LoadersFollow(files, changes)
      ensures OnlyTree(old(admin) - {Pending}, admin - {Pending}, id)
      ensures Stopped(old(faults), |changes| + 2, r, faults)
      ensures var t := Take(old(faults), |changes| + 2);
        && (Pending !in admin <==> Reached(t, |changes| + 2))
        && k == Moved(t.calm, t.fault, |changes|) <= |changes| && files == Installed(files0, changes, k)
    {
      hide Published, Underway, Concluded, Ordered, PlannedOn, LoadersFollow, OnlyTree, SameButStages, Staged;
      hide Take, FinishRun, Recorded, Installed, Reached, Moved, Stopped, Calmly, Prepared, ManifestSays;
      PublishedPlan(cfg, files0, admin, changes, id);
      r, k := Install(changes, id);
      CommitPart(old(faults), |changes|, r, faults);
      StagesDoNotMatter(cfg, files0, old(admin), admin, changes, id);
      InstallKeepsLoadersLast(files0, changes, k);
      MakeUnderway(cfg, files0, old(admin), changes, id, k, disk());
      if r.Done? {
        ghost var installed, before := disk(), faults;
        r := Finish(JournalFor(changes, id, "prepared"), "committed");
        CommitEnds(cfg, files0, changes, id, installed, disk());
        TreesJoin(old(admin), installed.admin, admin, id);
        FinishSteps(installed, JournalFor(changes, id, "prepared"), "committed", before);
        CommitTail(old(faults), |changes|, before, r, faults);
      }
    }

    /** The part of apply that publishes a transaction and, on an exception, undoes it. */
    method Transact(changes: seq<Change>, id: string) returns (r: Report)
      requires changes != [] && ValidId(id) && PlannedOn(files, changes) && Ordered(changes) && Pending !in admin
      requires forall i :: 0 <= i < |changes| ==> Owned(cfg, changes[i].entry.target)
      modifies this`files, this`admin, this`faults
      ensures TransactReach(cfg, old(disk()), changes, id, disk(), r)
      ensures Ends(old(disk()), changes, disk(), r, Expected(old(faults), PublishSteps(changes), |changes|))
      ensures Expected(old(faults), PublishSteps(changes), |changes|).complete ==>
        Concluded(cfg, old(files), changes, id, disk())
    {
      ghost var d0 := disk();
      hide Take, Reached, Moved, UndoVerdict, TransactReach, Underway, Concluded, Published, Prepared, Staged;
      hide PlannedOn, Ordered, OnlyTree, Guarded, Recovered, Safe, StatusIs, Installed, PublishSteps, ValidId, Owned;
      var published := Publish(changes, id);
      if !published.Done? {
        PublishReach(cfg, d0, changes, id, disk());
        return if published.Raised? then Refused(published.why) else Lost;
      }
      ghost var admin1 := admin - {Pending};
      var done, k := InstallAndCommit(files, changes, id);
      TreeTwice(d0.admin, admin1, admin - {Pending}, id);
      CommitReach(cfg, d0, changes, id, disk());
      match done
      case Done => return Applied(id);
      case Interrupted => return Lost;
      case Raised(why) =>
        ghost var admin2 := admin - {Pending};
        r := UndoAfter(d0.files, changes, k, id, why);
        TreeTwice(d0.admin, admin2, admin - {Pending}, id);
        UndoReach(cfg, d0, changes, id, disk(), r);
    }

    /**
     What apply does with an exception: load the pending journal and restore it.
     If nothing else fails, that succeeds, unless the exception came after the
     pending journal had gone and the transaction was in fact concluded.
     */
    method UndoAfter(ghost files0: Files, ghost changes: seq<Change>, ghost k: nat, id: string, why: string)
      returns (r: Report)
      requires Underway(cfg, files0, changes, id, disk()) || Concluded(cfg, files0, changes, id, disk())
      requires k <= |changes| && files == Installed(files0, changes, k) && Ordered(changes)
      modifies this`files, this`admin, this`faults
      ensures Safe(cfg, disk())
      ensures if Pending in admin then Recovered(disk()) == files0
        else Concluded(cfg, files0, changes, id, disk()) || (StatusIs(disk(), id, "rolled_back") && files == files0)
      ensures OnlyTree(old(admin) - {Pending}, admin - {Pending}, id)
      ensures r.OriginalsRestored? || r.RecoveryRequired? || r.Lost?
      ensures r.OriginalsRestored? ==> files == files0 && Pending !in admin
      ensures Pending in old(admin) ==> Ends(Disk(files0, admin), changes, disk(), r, UndoVerdict(old(faults), k))
      ensures Pending !in old(admin) ==> r.RecoveryRequired? && disk() == old(disk())
    {
      hide Underway, Concluded, Published, Prepared, Installed, RestoreRun, RestoreReach, Take, OnlyTree, Reached;
      hide JournalOk, Guarded, AllRestorable, Recovered, StatusIs, Originals, Safe, Ordered;
      ghost var d := disk();
      UnderwayLoads(cfg, files0, changes, id, d);
      var loaded := LoadJournal(None);
      if loaded.Err? {
        return RecoveryRequired(loaded.error);
      }
      var restored := Restore(loaded.value);
      UndoEnds(cfg, files0, changes, id, k, d, old(faults), Run(disk(), faults, restored));
      match restored
      case Done => return OriginalsRestored(why);
      case Raised(w) => return RecoveryRequired(w);
      case Interrupted => return Lost;
    }

    method ApplyLocked(payload: seq<PayloadItem>, id: string, roomFor: bool) returns (r: Report)
      requires ValidId(id) && PayloadOk(cfg, payload) && Entered(disk()) == disk()
      modifies this`files, this`admin, this`faults
      ensures ApplyReach(cfg, old(disk()), payload, id, disk())
      ensures ReportTrue(cfg, old(disk()), payload, id, disk(), r)
      ensures !r.WouldChange? && (r.Applied? ==> r.id == id)
      ensures !Acceptable(old(disk()), payload, roomFor) ==> r.Refused? && disk() == old(disk())
      ensures Acceptable(old(disk()), payload, roomFor) ==>
        Decided(cfg, old(disk()), payload, 0, old(faults), disk(), r)
    {
      ghost var d0 := disk();
      if Pending in admin {
        return Refused("unfinished update found; run rollback before updating");
      }
      var planned := Plan(payload);
      var changes := LoadersLast(planned.value);
      ChangesArePlanned(cfg, files, payload);
      NothingPlanned(files, payload);
      if changes == [] {
        return UpToDate;
      }
      if !roomFor {
        return Refused("insufficient free space for staged update and backup");
      }
      r := Transact(changes, id);
      TransactMeetsApply(cfg, d0, payload, id, disk(), r);
      PlanMeetsPayload(d0.files, payload);
      PlanIsFelt(d0.files, payload);
    }

    /**
     apply: plan, take the lock, publish, install, commit. Stopped anywhere it
     leaves the volumes as if the whole payload had been written or none of it.
     `Decided` gives its report, and whether anything is left pending, for
     every schedule.
     */
    method Apply(payload: seq<PayloadItem>, dryRun: bool, id: string, roomFor: bool) returns (r: Report)
      requires ValidId(id)
      modifies this`files, this`admin, this`locked, this`faults
      ensures locked == old(locked)
      ensures ApplyReach(cfg, old(disk()), payload, id, disk())
      ensures ReportTrue(cfg, old(disk()), payload, id, disk(), r)
      ensures r.Applied? ==> r.id == id
      ensures Plainly(cfg, old(disk()), payload, dryRun, roomFor, old(locked), old(faults), disk(), r)
      ensures dryRun ==>
        disk() == old(disk()) && (if PayloadOk(cfg, payload) && Pending !in admin then r.WouldChange? else r.Refused?)
      ensures !dryRun && !(PayloadOk(cfg, payload) && !old(locked) && Acceptable(old(disk()), payload, roomFor)) ==>
        (r.Refused? || r.Lost?) && (disk() == old(disk()) || disk() == Entered(old(disk())))
      ensures !dryRun && PayloadOk(cfg, payload) && !old(locked) && Acceptable(old(disk()), payload, roomFor) ==>
        && Decided(cfg, old(disk()), payload, EnterSteps(old(disk())), old(faults), disk(), r)
        && Misleads(cfg, old(disk()), payload, EnterSteps(old(disk())), old(faults), disk(), r)
    {
      ghost var d0 := disk();
      assert d0.admin == admin && d0.files == files;
      hide *;
      var initial := Plan(payload);
      NotBegun(cfg, d0, payload, id, d0, Refused(""));
      if initial.Err? {
        r := Refused(initial.error);
        SaysPlainly(cfg, d0, payload, dryRun, id, roomFor, old(locked), old(faults), disk(), r);
        return;
      }
      if dryRun {
        NothingToSay(cfg, d0, payload, roomFor, old(locked), old(faults));
        if Pending in admin {
          return Refused("unfinished update found; run rollback before updating");
        }
        OnlyPlanned(cfg, d0, payload, id);
        return WouldChange(EntriesOf(initial.value));
      }
      r := ApplyWithLock(payload, id, roomFor);
      Conclude(cfg, d0, payload, id, roomFor, old(locked), old(faults), disk(), r);
    }

    /** The part of apply that takes the lock. */
    method ApplyWithLock(payload: seq<PayloadItem>, id: string, roomFor: bool) returns (r: Report)
      requires ValidId(id) && PayloadOk(cfg, payload)
      modifies this`files, this`admin, this`locked, this`faults
      ensures locked == old(locked)
      ensures ApplyReach(cfg, old(disk()), payload, id, disk())
      ensures ReportTrue(cfg, old(disk()), payload, id, disk(), r)
      ensures r.Applied? ==> r.id == id
      ensures !old(locked) && Acceptable(old(disk()), payload, roomFor) ==>
        Decided(cfg, old(disk()), payload, EnterSteps(old(disk())), old(faults), disk(), r)
      ensures !(!old(locked) && Acceptable(old(disk()), payload, roomFor)) ==>
        (r.Refused? || r.Lost?) && (disk() == old(disk()) || disk() == Entered(old(disk())))
    {
      ghost var d0 := disk();
      assert d0.admin == admin && d0.files == files;
      hide *;
      var lock := Acquire();
      EnterTwice(d0);
      EnterStops(d0, old(faults));
      if !lock.Done? {
        r := if lock.Raised? then Refused(lock.why) else Lost;
        NotBegun(cfg, d0, payload, id, disk(), r);
        if !locked && Pending !in d0.admin {
          NotDecided(cfg, d0, payload, old(faults), disk(), r);
        }
        return;
      }
      r := ApplyLocked(payload, id, roomFor);
      locked := false;
      ApplyEntered(cfg, d0, payload, id, disk(), r);
      DecidedLater(cfg, d0, payload, old(faults), disk(), r);
    }
  }

  /** What has been decided for every schedule, in plain words for the schedule without faults. */
  lemma {:induction false} SaysPlainly(
      cfg: Config, d: Disk, payload: seq<PayloadItem>, dryRun: bool, id: string, room: bool, locked: bool,
      faults: seq<Fault>, d': Disk, r: Report)
    requires ReportTrue(cfg, d, payload, id, d', r)
    requires !PayloadOk(cfg, payload) ==> r.Refused? && d' == d
    requires !dryRun && PayloadOk(cfg, payload) && !locked && Acceptable(d, payload, room) ==>
      Decided(cfg, d, payload, EnterSteps(d), faults, d', r)
    ensures Plainly(cfg, d, payload, dryRun, room, locked, faults, d', r)
  {
    hide AllOwned, NoneTwice, InPlace, PlanOf, LoadersLast, Take, PublishSteps, EnterSteps, Updated;
    hide RollbackAccepted, RestoreDone, DistinctKeys;
    PayloadIs(cfg, payload);
    if !dryRun && PayloadOk(cfg, payload) && Pending !in d.admin && room && !locked && faults == [] {
      var changes := LoadersLast(PlanOf(d.files, payload));
      TakeCalm(faults, EnterSteps(d));
      TakeCalm(faults, EnterSteps(d) + PublishSteps(changes));
      TakeCalm(faults, |changes| + 2);
      UpdatedIs(d.files, payload);
    }
  }

  /** When the report misleads, and what it says without faults. */
  lemma {:induction false} Conclude(
      cfg: Config, d: Disk, payload: seq<PayloadItem>, id: string, room: bool, locked: bool,
      faults: seq<Fault>, d': Disk, r: Report)
    requires ReportTrue(cfg, d, payload, id, d', r) && PayloadOk(cfg, payload)
    requires !locked && Acceptable(d, payload, room) ==> Decided(cfg, d, payload, EnterSteps(d), faults, d', r)
    ensures !locked && Acceptable(d, payload, room) ==> Misleads(cfg, d, payload, EnterSteps(d), faults, d', r)
    ensures Plainly(cfg, d, payload, false, room, locked, faults, d', r)
  {
    hide ReportTrue, PayloadOk, Acceptable, Decided, EnterSteps, Misleads, Plainly;
    SaysPlainly(cfg, d, payload, false, id, room, locked, faults, d', r);
    if Decided(cfg, d, payload, EnterSteps(d), faults, d', r) {
      DecidedMisleads(cfg, d, payload, EnterSteps(d), faults, d', r);
    }
  }

  lemma {:induction false} NothingToSay(
      cfg: Config, d: Disk, payload: seq<PayloadItem>, room: bool, locked: bool, faults: seq<Fault>)
    requires PayloadOk(cfg, payload)
    ensures forall r :: Plainly(cfg, d, payload, true, room, locked, faults, d, r)
  {
    PayloadIs(cfg, payload);
  }

  /** The report, the pending journal and the files after a transaction, against the verdict. */
  ghost predicate Ends(d: Disk, changes: seq<Change>, d': Disk, r: Report, v: Verdict) {
    && KindOf(r) == v.kind && (Pending in d'.admin <==> v.pending)
    && (!v.pending && !v.complete ==> d'.files == d.files)
  }

  /**
   How an acceptable update ends, for every schedule and `enter` steps into it:
   the report, whether a pending journal is left, and whether the update is
   complete are those of the verdict.
   */
  ghost predicate Decided(
    cfg: Config, d: Disk, payload: seq<PayloadItem>, enter: nat, faults: seq<Fault>, d': Disk, r: Report)
  {
    var changes := LoadersLast(PlanOf(d.files, payload));
    if changes == [] then KindOf(r) == Named(Take(faults, enter).fault, IsUpToDate, IsRefused)
    else
      var v := Expected(faults, enter + PublishSteps(changes), |changes|);
      && KindOf(r) == v.kind && (Pending in d'.admin <==> v.pending)
      && (Committed(cfg, d, payload, d') <==> v.complete)
  }

  /**
   When the report misleads. Recovery is required on a complete update exactly
   when the last step, the removal of the pending journal, raises after its
   effect. It is required with the old files back and nothing left to recover
   exactly when the undo's removal of it does. And an update is refused with
   its journal pending exactly when the writing of that journal does.
   */
  ghost predicate Misleads(
    cfg: Config, d: Disk, payload: seq<PayloadItem>, enter: nat, faults: seq<Fault>, d': Disk, r: Report)
  {
    var changes := LoadersLast(PlanOf(d.files, payload));
    var m, n := enter + PublishSteps(changes), |changes|;
    changes != [] ==>
      && (r.RecoveryRequired? && Committed(cfg, d, payload, d') <==> FirstIs(faults, m + n + 1, FailAfter))
      && (r.RecoveryRequired? && Pending !in d'.admin && !Committed(cfg, d, payload, d') <==>
            exists p, f :: UndoneBehind(faults, m, n, p, f))
      && (r.Refused? && Pending in d'.admin <==> FirstIs(faults, m - 1, FailAfter))
  }

  lemma {:induction false} DecidedMisleads(
      cfg: Config, d: Disk, payload: seq<PayloadItem>, enter: nat, faults: seq<Fault>, d': Disk, r: Report)
    requires Decided(cfg, d, payload, enter, faults, d', r)
    ensures Misleads(cfg, d, payload, enter, faults, d', r)
  {
    hide LoadersLast, PlanOf, Committed, Expected, UndoneBehind, FirstIs, Take;
    var changes := LoadersLast(PlanOf(d.files, payload));
    var m, n := enter + PublishSteps(changes), |changes|;
    CompleteIff(faults, m, n);
    UndoneIff(faults, m, n);
    RefusedIff(faults, m, n);
  }

  lemma {:induction false} NotDecided(
      cfg: Config, d: Disk, payload: seq<PayloadItem>, faults: seq<Fault>, d': Disk, r: Report)
    requires PayloadOk(cfg, payload) && Pending !in d'.admin && d'.files == d.files
    requires Take(faults, EnterSteps(d)).fault != Calm
    requires KindOf(r) == Named(Take(faults, EnterSteps(d)).fault, IsApplied, IsRefused)
    ensures Decided(cfg, d, payload, EnterSteps(d), faults, d', r)
  {
    hide EnterSteps, LoadersLast, PlanOf, Entered, Expected, Updated, Take;
    var changes := LoadersLast(PlanOf(d.files, payload));
    PlanIsFelt(d.files, payload);
    ExpectedLater(faults, EnterSteps(d), PublishSteps(changes), |changes|);
  }

  lemma {:induction false} DecidedLater(
      cfg: Config, d: Disk, payload: seq<PayloadItem>, faults: seq<Fault>, d': Disk, r: Report)
    requires Take(faults, EnterSteps(d)).fault == Calm
    ensures Decided(cfg, Entered(d), payload, 0, Take(faults, EnterSteps(d)).faults, d', r) ==>
      Decided(cfg, d, payload, EnterSteps(d), faults, d', r)
  {
    hide EnterSteps, LoadersLast, PlanOf, Committed, Entered, Acceptable, Expected, Take;
    EnterTwice(d);
    NoStep(Take(faults, EnterSteps(d)).faults);
    var changes := LoadersLast(PlanOf(d.files, payload));
    ExpectedLater(faults, EnterSteps(d), PublishSteps(changes), |changes|);
  }

  lemma {:induction false} OnlyPlanned(cfg: Config, d: Disk, payload: seq<PayloadItem>, id: string)
    requires PayloadOk(cfg, payload) && Pending !in d.admin
    ensures ReportTrue(cfg, d, payload, id, d, WouldChange(EntriesOf(PlanOf(d.files, payload))))
  {
  }

  lemma {:induction false} EnterTwice(d: Disk)
    ensures Entered(Entered(d)) == Entered(d) && Entered(d).files == d.files
    ensures Pending in Entered(d).admin <==> Pending in d.admin
    ensures EnterSteps(Entered(d)) == 0
    ensures forall payload, room :: Acceptable(Entered(d), payload, room) <==> Acceptable(d, payload, room)
    ensures forall cfg, payload, d' :: Committed(cfg, Entered(d), payload, d') <==> Committed(cfg, d, payload, d')
  {
  }

  /** What holds of an apply that has got no further than the lock. */
  lemma {:induction false} NotBegun(cfg: Config, d: Disk, payload: seq<PayloadItem>, id: string, d': Disk, r: Report)
    requires (d' == d || d' == Entered(d)) && (r.Refused? || r.Lost?)
    ensures ApplyReach(cfg, d, payload, id, d') && ReportTrue(cfg, d, payload, id, d', r)
    ensures forall why :: r.Refused? ==> ReportTrue(cfg, d, payload, id, d', Refused(why))
  {
    EnteringIsSafe(cfg, d);
    assert Entered(d).admin - {Pending, LockFile} == d.admin - {Pending, LockFile};
  }

  /** What holds of an apply once the lock file is filled holds of the whole. */
  lemma {:induction false} ApplyEntered(
      cfg: Config, d: Disk, payload: seq<PayloadItem>, id: string, d': Disk, r: Report)
    requires ApplyReach(cfg, Entered(d), payload, id, d') && ReportTrue(cfg, Entered(d), payload, id, d', r)
    requires !r.WouldChange?
    ensures ApplyReach(cfg, d, payload, id, d') && ReportTrue(cfg, d, payload, id, d', r)
  {
    EnteringIsSafe(cfg, d);
    assert Entered(d).admin - {Pending, LockFile} == d.admin - {Pending, LockFile};
  }

  // ----- what staging has put in place -----

  /** The markers are written and the first `n` changes staged. */
  ghost predicate StagedUpTo(admin: Admin, changes: seq<Change>, id: string, n: nat)
    requires n <= |changes|
  {
    && (forall a :: a in Areas(changes) ==> Lookup(admin, InTree(a, id, Marker)) == Some(MarkerText(id, a)))
    && (forall i :: 0 <= i < n ==>
          Lookup(admin, InTree(changes[i].entry.target.area, id, Stage(i))) == Some(changes[i].content))
    && (forall i :: 0 <= i < n && changes[i].original.Some? ==>
          Lookup(admin, InTree(changes[i].entry.target.area, id, Backup(i))) == changes[i].original)
  }

  /** Change `n` has been staged and nothing else touched. */
  ghost predicate OneStaged(before: Admin, after: Admin, c: Change, id: string, n: nat) {
    var stage, backup := InTree(c.entry.target.area, id, Stage(n)), InTree(c.entry.target.area, id, Backup(n));
    && (forall p: AdminFile :: p != stage && p != backup ==> Lookup(after, p) == Lookup(before, p))
    && Lookup(after, stage) == Some(c.content) && (c.original.Some? ==> Lookup(after, backup) == c.original)
  }

  lemma {:induction false} NoContent()
    ensures ContentSteps([]) == 0
  {
  }

  lemma {:induction false} MarkersStaged(admin: Admin, changes: seq<Change>, id: string)
    requires forall a :: a in Areas(changes) ==> Lookup(admin, InTree(a, id, Marker)) == Some(MarkerText(id, a))
    ensures StagedUpTo(admin, changes, id, 0)
  {
  }

  lemma {:induction false} StagedFurther(before: Admin, after: Admin, changes: seq<Change>, id: string, n: nat)
    requires n < |changes| && StagedUpTo(before, changes, id, n) && OneStaged(before, after, changes[n], id, n)
    ensures StagedUpTo(after, changes, id, n + 1)
  {
  }

  lemma {:induction false} StagedIsPrepared(
      cfg: Config, files: Files, admin: Admin, changes: seq<Change>, id: string)
    requires changes != [] && ValidId(id) && PlannedOn(files, changes)
    requires forall i :: 0 <= i < |changes| ==> Owned(cfg, changes[i].entry.target)
    requires StagedUpTo(admin, changes, id, |changes|)
    ensures Prepared(cfg, files, admin, changes, id) && Staged(admin, changes, id, 0)
  {
    forall i | 0 <= i < |changes| ensures changes[i].entry.target.area in Areas(changes) { }
  }

  lemma {:induction false} TreeTwice(a: Admin, b: Admin, c: Admin, id: string)
    requires OnlyTree(a, b, id) && OnlyTree(b, c, id)
    ensures OnlyTree(a, c, id)
  {
  }

  lemma {:induction false} TreeKeepsPending(a: Admin, b: Admin, id: string)
    requires OnlyTree(a, b, id)
    ensures Pending in a <==> Pending in b
    ensures Pending !in a ==> OnlyTree(a, b - {Pending}, id)
  {
    assert Lookup(a, Pending) == Lookup(b, Pending);
  }

  /** Manifest and pending journal on top of a staged transaction. */
  lemma {:induction false} PublishedNow(
      cfg: Config, files: Files, admin: Admin, changes: seq<Change>, id: string)
    requires Prepared(cfg, files, admin, changes, id) && Staged(admin, changes, id, 0) && Pending !in admin
    ensures var j := JournalText(JournalFor(changes, id, "prepared"));
      var listed := admin[InTree("esp", id, Manifest) := j];
      var all := listed[Pending := j];
      && Published(cfg, files, all, changes, id) && Staged(all, changes, id, 0)
      && OnlyTree(admin, listed - {Pending}, id) && OnlyTree(admin, all - {Pending}, id)
      && OnlyTree(admin, admin - {Pending}, id)
  {
    var j := JournalText(JournalFor(changes, id, "prepared"));
    var all := admin[InTree("esp", id, Manifest) := j][Pending := j];
    assert ManifestSays(all, changes, id, "prepared");
  }

  // ----- the end of a transaction -----

  lemma {:induction false} PublishedPlan(cfg: Config, files: Files, admin: Admin, changes: seq<Change>, id: string)
    requires Published(cfg, files, admin, changes, id)
    ensures PlannedOn(files, changes)
  {
  }

  lemma {:induction false} MakeUnderway(
      cfg: Config, files: Files, admin: Admin, changes: seq<Change>, id: string, k: nat, d: Disk)
    requires Published(cfg, files, d.admin, changes, id) && k <= |changes| && d.files == Installed(files, changes, k)
    requires OnlyTree(admin, d.admin, id)
    ensures Underway(cfg, files, changes, id, d) && OnlyTree(admin - {Pending}, d.admin - {Pending}, id)
    ensures Pending in d.admin
  {
    forall p: AdminFile | !(p.InTree? && p.id == id)
      ensures Lookup(admin - {Pending}, p) == Lookup(d.admin - {Pending}, p)
    {
      assert Lookup(admin, p) == Lookup(d.admin, p);
    }
  }

  lemma {:induction false} TreesJoin(a: Admin, b: Admin, c: Admin, id: string)
    requires OnlyTree(a - {Pending}, b - {Pending}, id) && OnlyTree(b - {Pending}, c - {Pending}, id)
    ensures OnlyTree(a - {Pending}, c - {Pending}, id)
  {
    TreeTwice(a - {Pending}, b - {Pending}, c - {Pending}, id);
  }

  /** Where the commit of a fully installed transaction can stop. */
  lemma {:induction false} CommitEnds(
      cfg: Config, files: Files, changes: seq<Change>, id: string, d0: Disk, d: Disk)
    requires Published(cfg, files, d0.admin, changes, id) && d0.files == Installed(files, changes, |changes|)
    requires d.files == d0.files
    requires var recorded := Recorded(d0.admin, JournalFor(changes, id, "prepared"), "committed");
      d.admin == d0.admin || d.admin == recorded || d.admin == recorded - {Pending}
    ensures Underway(cfg, files, changes, id, d) || Concluded(cfg, files, changes, id, d)
    ensures Pending !in d.admin ==> Concluded(cfg, files, changes, id, d)
    ensures OnlyTree(d0.admin - {Pending}, d.admin - {Pending}, id)
    ensures Pending in d0.admin && d0.admin[Pending].JournalText? && d0.admin[Pending].journal.id == id
  {
    CommitConcludes(cfg, files, changes, id, d0.admin, "committed");
  }

  /** A transaction that went no further than its publication. */
  lemma {:induction false} PublishReach(cfg: Config, d0: Disk, changes: seq<Change>, id: string, d: Disk)
    requires d.files == d0.files && OnlyTree(d0.admin, d.admin - {Pending}, id)
    requires Pending in d.admin ==> Published(cfg, d0.files, d.admin, changes, id)
    ensures TransactReach(cfg, d0, changes, id, d, Lost)
    ensures forall why :: TransactReach(cfg, d0, changes, id, d, Refused(why))
  {
    if Pending in d.admin {
      assert d.files == Installed(d0.files, changes, 0);
      UnderwayIsSafe(cfg, d0.files, changes, id, d);
    }
  }

  /** One whose installation and commit have been stopped or are done. */
  lemma {:induction false} CommitReach(cfg: Config, d0: Disk, changes: seq<Change>, id: string, d: Disk)
    requires Underway(cfg, d0.files, changes, id, d) || Concluded(cfg, d0.files, changes, id, d)
    requires OnlyTree(d0.admin, d.admin - {Pending}, id)
    ensures TransactReach(cfg, d0, changes, id, d, Lost)
    ensures Concluded(cfg, d0.files, changes, id, d) ==> TransactReach(cfg, d0, changes, id, d, Applied(id))
    ensures Pending !in d.admin ==> Concluded(cfg, d0.files, changes, id, d)
    ensures Concluded(cfg, d0.files, changes, id, d) ==> Pending !in d.admin
  {
    hide Prepared, OnlyTree, Installed;
    if Pending in d.admin { UnderwayIsSafe(cfg, d0.files, changes, id, d); }
  }

  /** And one that has been undone, or was to be. */
  lemma {:induction false} UndoReach(cfg: Config, d0: Disk, changes: seq<Change>, id: string, d: Disk, r: Report)
    requires Safe(cfg, d) && OnlyTree(d0.admin, d.admin - {Pending}, id)
    requires if Pending in d.admin then Recovered(d) == d0.files
      else Concluded(cfg, d0.files, changes, id, d) || (StatusIs(d, id, "rolled_back") && d.files == d0.files)
    requires r.OriginalsRestored? || r.RecoveryRequired? || r.Lost?
    requires r.OriginalsRestored? ==> d.files == d0.files && Pending !in d.admin
    ensures TransactReach(cfg, d0, changes, id, d, r)
  {
  }

  /** Whether there is a journal to load after an exception. */
  lemma {:induction false} UnderwayLoads(cfg: Config, files: Files, changes: seq<Change>, id: string, d: Disk)
    requires Underway(cfg, files, changes, id, d) || Concluded(cfg, files, changes, id, d)
    ensures Loadable(cfg, d.admin, None) <==> Pending in d.admin
    ensures Pending in d.admin ==>
      && Underway(cfg, files, changes, id, d) && d.admin[Pending] == JournalText(JournalFor(changes, id, "prepared"))
      && AllRestorable(d, JournalFor(changes, id, "prepared"))
    ensures Pending !in d.admin ==> Safe(cfg, d) && Concluded(cfg, files, changes, id, d)
    ensures OnlyTree(d.admin - {Pending}, d.admin - {Pending}, id)
  {
    if Pending in d.admin { UnderwayIsSafe(cfg, files, changes, id, d); }
  }

  function KindAfter(o: Outcome): ReportKind {
    match o
    case Done => IsRestored
    case Raised(_) => IsRecovery
    case Interrupted => IsLost
  }

  /** What the undo of an update leaves, and how it is reported. */
  lemma {:induction false} UndoEnds(
      cfg: Config, files: Files, changes: seq<Change>, id: string, k: nat, d: Disk, faults: seq<Fault>, run: Run)
    requires k <= |changes| && d.files == Installed(files, changes, k) && Ordered(changes)
    requires Underway(cfg, files, changes, id, d)
    requires var j := JournalFor(changes, id, "prepared");
      run == RestoreRun(d, j, Originals(d.admin, id, j.entries), 0, faults) && RestoreReach(d, j, run.disk)
    ensures Safe(cfg, run.disk) && Recovered(run.disk) == files
    ensures Pending !in run.disk.admin ==> StatusIs(run.disk, id, "rolled_back") && run.disk.files == files
    ensures OnlyTree(d.admin - {Pending}, run.disk.admin - {Pending}, id)
    ensures KindAfter(run.outcome) == UndoVerdict(faults, k).kind
    ensures Pending in run.disk.admin <==> UndoVerdict(faults, k).pending
  {
    hide RestoreRun, Take, Installed, Prepared, Safe, Originals;
    InstalledUndoes(cfg, files, changes, id, k, d, faults);
    RecoveryIsSafe(cfg, files, changes, id, d, run.disk);
    if Pending !in run.disk.admin { RestoredStatus(d, JournalFor(changes, id, "prepared"), run.disk); }
  }

  /** The undo of an update of which `k` changes have been installed. */
  lemma {:induction false} InstalledUndoes(
      cfg: Config, files: Files, changes: seq<Change>, id: string, k: nat, d: Disk, faults: seq<Fault>)
    requires k <= |changes| && d.files == Installed(files, changes, k) && Ordered(changes)
    requires Published(cfg, files, d.admin, changes, id)
    ensures var j := JournalFor(changes, id, "prepared");
      var run := RestoreRun(d, j, Originals(d.admin, id, j.entries), 0, faults);
      && Stopped(faults, k + 2, run.outcome, run.faults)
      && (Pending !in run.disk.admin <==> Reached(Take(faults, k + 2), k + 2))
  {
    hide Take, RestoreRun, Installed;
    var j := JournalFor(changes, id, "prepared");
    KeysGiveTargets(ChangeTargets(changes));
    assert EntryTargets(j.entries) == ChangeTargets(changes);
    forall q | 0 <= q < |j.entries|
      ensures FileDigest(d.files, j.entries[q].target) == j.entries[q].before <==> q >= k
    {
      InstalledAt(files, changes, k, q);
      assert changes[q] == ChangeFor(files, PayloadItem(changes[q].entry.target, changes[q].content));
    }
    UndoSteps(d, j, Originals(d.admin, id, j.entries), k, 0, faults);
  }

  /** The manifest after a recovery that has withdrawn the pending journal. */
  lemma {:induction false} RestoredStatus(d0: Disk, j: Journal, d: Disk)
    requires RestoreReach(d0, j, d) && Pending in d0.admin && Pending !in d.admin
    ensures StatusIs(d, j.id, "rolled_back") && d == RestoreDone(d0, j)
  {
  }
}
