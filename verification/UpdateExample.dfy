/**
 Disks on which the updater does what its documentation does not lead one to
 expect, each with the call and the faults that show it.
 */
module UpdateExample {
  import opened Common
  import opened UpdateModel
  import opened UpdateProofs
  import opened PlanProofs
  import opened UpdateSpec
  import opened UpdateFaults
  import opened UpdateVerdict
  import opened UpdateRuns
  import opened MediaUpdater

  const ID: string := "0123456789abcdef0123456789abcdef"
  const LOADER: Target := Target("esp", "EFI/BOOT/BOOTX64.EFI")
  const LOADER32: Target := Target("esp", "EFI/BOOT/BOOTIA32.EFI")
  const CFG: Config := Config({"esp"}, map["esp" := {LOADER.path, LOADER32.path}])

  function NewText(): Content { Blob([1]) }

  function OldText(): Content { Blob([0]) }

  lemma {:induction false} IdIsValid()
    ensures ValidId(ID)
  {
  }

  lemma {:induction false} KeysDiffer()
    ensures Key(LOADER32) != Key(LOADER)
  {
    assert |Lower(LOADER32.path)| != |Lower(LOADER.path)|;
  }

  lemma {:induction false} TargetsAreOwned()
    ensures Owned(CFG, LOADER) && Owned(CFG, LOADER32)
  {
  }

  // ----- a rollback torn between two targets -----

  /** A finished transaction of two new files. */
  function Finished(): Journal {
    Journal(1, ID, "committed", [Entry(LOADER32, None, Digest(NewText())), Entry(LOADER, None, Digest(NewText()))])
  }

  function After(): Disk {
    Disk(map[LOADER32 := NewText(), LOADER := NewText()],
         map[LockFile := Blob([48]),
             InTree("esp", ID, Marker) := MarkerText(ID, "esp"),
             InTree("esp", ID, Manifest) := JournalText(Finished())])
  }

  /** The disk between the two removals. */
  function Torn(): Disk { After().(files := map[LOADER := NewText()]) }

  lemma {:induction false} JournalLoads()
    ensures JournalOk(CFG, After().admin, Finished())
  {
    hide ValidId, Key, Owned;
    IdIsValid();
    KeysDiffer();
    TargetsAreOwned();
    var ts := EntryTargets(Finished().entries);
    assert Key(ts[0]) != Key(ts[1]);
  }

  lemma {:induction false} RollbackIsAccepted()
    ensures Entered(After()) == After() && RollbackAccepted(CFG, After(), Some(ID))
    ensures JournalOf(After().admin, Some(ID)) == Finished()
  {
    hide ValidId;
    JournalLoads();
    IdIsValid();
  }

  lemma {:induction false} RunStopsThere()
    ensures RollbackRun(After(), Finished(), [Calm, CrashBefore]) == Run(Torn(), [], Interrupted)
  {
    var j, d, faults := Finished(), After(), [Calm, CrashBefore];
    var os := Originals(d.admin, j.id, j.entries);
    assert Later(faults) == [CrashBefore] && Later([CrashBefore]) == [];
    assert d.files - {LOADER32} == Torn().files;
    assert RestoreRun(Torn(), j, os, 1, [CrashBefore]) == Run(Torn(), [], Interrupted);
    assert RestoreRun(d, j, os, 0, faults) == RestoreRun(Torn(), j, os, 1, [CrashBefore]);
  }

  /** What the rollback has left is neither version of the files, and nothing on the disk says so. */
  lemma {:induction false} TornIsTorn()
    ensures Safe(CFG, After()) && Pending !in Torn().admin && Torn().admin == After().admin
    ensures Recovered(Torn()) != Recovered(After()) && Recovered(Torn()) != RestoreDone(After(), Finished()).files
  {
    var d, j := After(), Finished();
    var es, os := j.entries, Originals(d.admin, ID, j.entries);
    assert Undone(d.files, es, os, 0) == d.files;
    assert Undone(d.files, es, os, 1) == Torn().files;
    assert Undone(d.files, es, os, 2) == map[];
    assert LOADER32 !in Torn().files && LOADER in Torn().files;
  }

  /** A rollback by name on this disk, stopped before its second removal. */
  method TornRollbackExample() returns (d: Disk, r: Outcome)
    ensures r == Interrupted && d == Torn()
  {
    var u := new Updater(CFG, After(), false, [Calm, CrashBefore]);
    RollbackIsAccepted();
    RunStopsThere();
    r := u.Rollback(Some(ID));
    d := u.disk();
  }

  // ----- a complete update that asks for recovery -----

  function Fresh(): Disk { Disk(map[], map[LockFile := Blob([48])]) }

  function TwoLoaders(): seq<PayloadItem> { [PayloadItem(LOADER32, NewText()), PayloadItem(LOADER, NewText())] }

  /** All is calm but the last step, which raises an exception after its effect. */
  function LastFails(): seq<Fault> { [Calm, Calm, Calm, Calm, Calm, Calm, Calm, Calm, FailAfter] }

  lemma {:induction false} PayloadIsOk()
    ensures PayloadOk(CFG, TwoLoaders())
  {
    hide Key, Owned;
    KeysDiffer();
    TargetsAreOwned();
    var ts := PayloadTargets(TwoLoaders());
    assert Key(ts[0]) != Key(ts[1]);
  }

  function BothNew(): seq<Change> {
    [ Change(Entry(LOADER32, None, Digest(NewText())), NewText(), None),
      Change(Entry(LOADER, None, Digest(NewText())), NewText(), None) ]
  }

  lemma {:induction false} PlanIsBoth()
    ensures LoadersLast(PlanOf(map[], TwoLoaders())) == BothNew()
    ensures Updated(map[], TwoLoaders()) == map[LOADER32 := NewText(), LOADER := NewText()]
  {
    var p, cs := TwoLoaders(), BothNew();
    assert p[..1] == [p[0]] && p[..1][..0] == [];
    assert PlanOf(map[], p[..1]) == [cs[0]];
    assert PlanOf(map[], p) == [cs[0]] + [cs[1]];
    assert cs == [cs[0]] + [cs[1]] && cs[1..] == [cs[1]] && cs[1..][1..] == [];
    assert OnlyArea(cs[1..], true) == [cs[1]] && OnlyArea(cs[1..], false) == [];
    assert OnlyArea(cs, true) == cs && OnlyArea(cs, false) == [];
    assert Updated(map[], p[..1]) == map[LOADER32 := NewText()];
  }

  lemma {:induction false} FiveSteps()
    ensures PublishSteps(BothNew()) == 5
  {
    var cs := BothNew();
    assert cs[..1] == [cs[0]] && cs[..1][..0] == [];
    assert ContentSteps(cs[..1]) == 1;
    assert Areas(cs) == {"esp"};
  }

  lemma {:induction false} LastFault()
    ensures FirstIs(LastFails(), 8, FailAfter)
  {
    assert LastFails()[8..] == [FailAfter];
  }

  /** The call of apply that the next three examples make, with what they need of its contract. */
  method ApplyBoth(faults: seq<Fault>) returns (d: Disk, r: Report)
    ensures r.RecoveryRequired? && Pending !in d.admin && d.files == map[LOADER32 := NewText(), LOADER := NewText()]
      <==> FirstIs(faults, 8, FailAfter)
    ensures r.RecoveryRequired? && Pending !in d.admin && d.files == map[]
      <==> exists p, f :: UndoneBehind(faults, 5, 2, p, f)
    ensures r.Refused? && Pending in d.admin <==> FirstIs(faults, 4, FailAfter)
  {
    var u := new Updater(CFG, Fresh(), false, faults);
    IdIsValid();
    PayloadIsOk();
    PlanIsBoth();
    FiveSteps();
    assert Entered(Fresh()) == Fresh();
    hide PayloadOk, PlanOf, LoadersLast, PublishSteps, FirstIs, UndoneBehind, Updated, TwoLoaders, BothNew, Decided;
    hide ValidId, ApplyReach;
    r := u.Apply(TwoLoaders(), false, ID, true);
    d := u.disk();
  }

  /** The payload is in place, nothing is pending, and the report calls for a recovery. */
  method CompleteUpdateExample() returns (d: Disk, r: Report)
    ensures r.RecoveryRequired? && Pending !in d.admin
    ensures d.files == map[LOADER32 := NewText(), LOADER := NewText()]
  {
    LastFault();
    d, r := ApplyBoth(LastFails());
  }

  // ----- a complete undo that asks for recovery -----

  /** The first move fails, and so does, after its effect, the last step of the undo. */
  function UndoFails(): seq<Fault> { [Calm, Calm, Calm, Calm, Calm, FailBefore, Calm, FailAfter] }

  lemma {:induction false} UndoFault()
    ensures UndoneBehind(UndoFails(), 5, 2, 5, FailBefore)
  {
    assert UndoFails()[6..] == [Calm, FailAfter] && [Calm, FailAfter][1..] == [FailAfter];
  }

  /** The old files are back, nothing is pending, and the report calls for a recovery. */
  method CompleteUndoExample() returns (d: Disk, r: Report)
    ensures r.RecoveryRequired? && Pending !in d.admin && d.files == map[]
  {
    UndoFault();
    d, r := ApplyBoth(UndoFails());
  }

  // ----- a refusal that leaves a journal -----

  /** The pending journal is written, but raises. */
  function JournalFails(): seq<Fault> { [Calm, Calm, Calm, Calm, FailAfter] }

  /** The update is said not to have begun, and blocks every further one until a recovery. */
  method PendingRefusalExample() returns (d: Disk, r: Report)
    ensures r.Refused? && Pending in d.admin
  {
    assert JournalFails()[4..] == [FailAfter];
    assert FirstIs(JournalFails(), 4, FailAfter);
    d, r := ApplyBoth(JournalFails());
  }

  // ----- a target that somebody has removed -----

  /** A finished replacement of the loader. */
  function Replaced(): Journal {
    Journal(1, ID, "committed", [Entry(LOADER, Some(Digest(OldText())), Digest(NewText()))])
  }

  /** After it, the loader has been deleted from outside. */
  function Deleted(): Disk {
    Disk(map[],
         map[LockFile := Blob([48]),
             InTree("esp", ID, Marker) := MarkerText(ID, "esp"),
             InTree("esp", ID, Manifest) := JournalText(Replaced()),
             InTree("esp", ID, Backup(0)) := OldText()])
  }

  lemma {:induction false} DeletedIsAccepted()
    ensures Entered(Deleted()) == Deleted() && RollbackAccepted(CFG, Deleted(), Some(ID))
    ensures JournalOf(Deleted().admin, Some(ID)) == Replaced()
    ensures RestoreDone(Deleted(), Replaced()).files == map[LOADER := OldText()]
    ensures !AsDocumented(Deleted(), Replaced(), 0)
  {
    hide ValidId, Owned;
    IdIsValid();
    TargetsAreOwned();
    var es, os := Replaced().entries, Originals(Deleted().admin, ID, Replaced().entries);
    assert os == [Some(OldText())];
    assert Undone(map[], es, os, 0) == map[];
  }

  /** The rollback overwrites the deletion, though it is a later modification from outside. */
  method DeletedTargetExample() returns (d: Disk, r: Outcome)
    ensures r == Done && d.files == map[LOADER := OldText()]
  {
    var u := new Updater(CFG, Deleted(), false, []);
    DeletedIsAccepted();
    r := u.Rollback(Some(ID));
    d := u.disk();
  }
}
