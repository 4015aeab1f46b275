/**
 What can go wrong underneath the updater, and what its recovery then does:
 the runs of `restore` and `rollback` under a schedule of faults, as functions.
 */
module UpdateFaults {
  import opened Common
  import opened UpdateModel
  import opened UpdateProofs
  import opened UpdateSpec

  /** What happens to one durable step: its effect, an exception or the end of the process before or after it. */
  datatype Fault = Calm | FailBefore | FailAfter | CrashBefore | CrashAfter

  /** How a step or a procedure ends: normally, with an exception, or with the process gone. */
  datatype Outcome = Done | Raised(why: string) | Interrupted {
    predicate IsFailure() { !Done? }

    function PropagateFailure(): Outcome
      requires IsFailure()
    {
      this
    }
  }

  /** The fault of the coming step: past the end of the schedule there are none. */
  function FaultOf(faults: seq<Fault>): Fault { if faults == [] then Calm else faults[0] }

  function Later(faults: seq<Fault>): seq<Fault> { if faults == [] then [] else faults[1..] }

  predicate Applies(f: Fault) { f == Calm || f == FailAfter || f == CrashAfter }

  function EndOf(f: Fault): Outcome {
    match f
    case Calm => Done
    case FailBefore => Raised("I/O error")
    case FailAfter => Raised("I/O error")
    case CrashBefore => Interrupted
    case CrashAfter => Interrupted
  }

  // ----- recovery under a schedule -----

  /** Where a procedure has got to, and what is left of the schedule. */
  datatype Run = Run(disk: Disk, faults: seq<Fault>, outcome: Outcome)

  /** finish: the status on record, then the pending journal withdrawn. */
  function FinishRun(d: Disk, j: Journal, status: string, faults: seq<Fault>): Run {
    var f := FaultOf(faults);
    var d1 := if Applies(f) then d.(admin := Recorded(d.admin, j, status)) else d;
    if !EndOf(f).Done? then Run(d1, Later(faults), EndOf(f))
    else if Pending !in d1.admin then Run(d1, Later(faults), Done)
    else if !d1.admin[Pending].JournalText? || d1.admin[Pending].journal.id != j.id then
      Run(d1, Later(faults), Raised("another update needs recovery first"))
    else
      var f2 := FaultOf(Later(faults));
      Run(if Applies(f2) then d1.(admin := d1.admin - {Pending}) else d1, Later(Later(faults)), EndOf(f2))
  }

  /** The second loop of restore, from entry `n` on, and the finish. */
  function RestoreRun(d: Disk, j: Journal, os: seq<Option<Content>>, n: nat, faults: seq<Fault>): Run
    requires n <= |j.entries| == |os|
    decreases |j.entries| - n
  {
    if n == |j.entries| then FinishRun(d, j, "rolled_back", faults)
    else if FileDigest(d.files, j.entries[n].target) == j.entries[n].before then RestoreRun(d, j, os, n + 1, faults)
    else
      var f := FaultOf(faults);
      var d1 := if Applies(f) then d.(files := Put(d.files, j.entries[n].target, os[n])) else d;
      if EndOf(f).Done? then RestoreRun(d1, j, os, n + 1, Later(faults)) else Run(d1, Later(faults), EndOf(f))
  }

  /** The lock file filled, if it is not yet. */
  function EnterRun(d: Disk, faults: seq<Fault>): Run {
    if Entered(d) == d then Run(d, faults, Done)
    else
      var f := FaultOf(faults);
      Run(if Applies(f) then Entered(d) else d, Later(faults), EndOf(f))
  }

  /** rollback of the journal `j`, once it has been accepted. */
  function RollbackRun(d: Disk, j: Journal, faults: seq<Fault>): Run {
    var e := EnterRun(d, faults);
    if !e.outcome.Done? then e
    else RestoreRun(e.disk, j, Originals(e.disk.admin, j.id, j.entries), 0, e.faults)
  }

  // ----- what a recovery can be stopped at is exactly what it may be -----

  lemma {:induction false} IdleEntry(d: Disk, j: Journal, os: seq<Option<Content>>, n: nat, d0: Disk)
    requires n < |j.entries| == |os| && os == Originals(d0.admin, j.id, j.entries) && AllRestorable(d0, j)
    ensures FileDigest(d.files, j.entries[n].target) == j.entries[n].before <==>
      Lookup(d.files, j.entries[n].target) == os[n]
  {
    assert Restorable(d0, j, n);
    OriginalHasDigest(d0, j, n);
  }

  /** Every run stays among the disks that `RestoreReach` names. */
  lemma {:induction false} RunIsReach(d0: Disk, j: Journal, n: nat, faults: seq<Fault>)
    requires AllRestorable(d0, j) && n <= |j.entries|
    ensures var os := Originals(d0.admin, j.id, j.entries);
      RestoreReach(d0, j, RestoreRun(Disk(Undone(d0.files, j.entries, os, n), d0.admin), j, os, n, faults).disk)
    decreases |j.entries| - n
  {
    var os := Originals(d0.admin, j.id, j.entries);
    var d := Disk(Undone(d0.files, j.entries, os, n), d0.admin);
    if n < |j.entries| {
      IdleEntry(d, j, os, n, d0);
      var next := Disk(Undone(d0.files, j.entries, os, n + 1), d0.admin);
      if Lookup(d.files, j.entries[n].target) == os[n] {
        PutSame(d.files, j.entries[n].target, os[n]);
        assert next == d;
        RunIsReach(d0, j, n + 1, faults);
      } else {
        RunIsReach(d0, j, n + 1, Later(faults));
        StopIsReach(d0, j, n);
        StopIsReach(d0, j, n + 1);
      }
    } else {
      FinishIsReach(d0, j, faults);
    }
  }

  lemma {:induction false} StopIsReach(d0: Disk, j: Journal, k: nat)
    requires AllRestorable(d0, j) && k <= |j.entries|
    ensures RestoreReach(d0, j, Disk(Undone(d0.files, j.entries, Originals(d0.admin, j.id, j.entries), k), d0.admin))
  {
  }

  lemma {:induction false} FinishIsReach(d0: Disk, j: Journal, faults: seq<Fault>)
    requires AllRestorable(d0, j)
    ensures var os := Originals(d0.admin, j.id, j.entries);
      var d := Disk(Undone(d0.files, j.entries, os, |j.entries|), d0.admin);
      RestoreReach(d0, j, FinishRun(d, j, "rolled_back", faults).disk)
  {
    StopIsReach(d0, j, |j.entries|);
  }

  /** A process lost before the next step leaves the disk as it is. */
  lemma {:induction false} LostNow(d: Disk, j: Journal, os: seq<Option<Content>>, n: nat)
    requires n <= |j.entries| == |os|
    ensures var r := RestoreRun(d, j, os, n, [CrashBefore]); r.disk == d && r.outcome == Interrupted
    decreases |j.entries| - n
  {
    if n < |j.entries| { LostNow(d, j, os, n + 1); }
  }

  /** Faults that let the first `k` entries be restored and then behave as `rest`. */
  lemma {:induction false} RunUpTo(d0: Disk, j: Journal, n: nat, k: nat, rest: seq<Fault>) returns (faults: seq<Fault>)
    requires AllRestorable(d0, j) && n <= k <= |j.entries| && rest != []
    ensures faults != []
    ensures var os := Originals(d0.admin, j.id, j.entries);
      RestoreRun(Disk(Undone(d0.files, j.entries, os, n), d0.admin), j, os, n, faults)
      == RestoreRun(Disk(Undone(d0.files, j.entries, os, k), d0.admin), j, os, k, rest)
    decreases k - n
  {
    var os := Originals(d0.admin, j.id, j.entries);
    if n == k {
      faults := rest;
    } else {
      var d := Disk(Undone(d0.files, j.entries, os, n), d0.admin);
      IdleEntry(d, j, os, n, d0);
      faults := RunUpTo(d0, j, n + 1, k, rest);
      if Lookup(d.files, j.entries[n].target) == os[n] {
        PutSame(d.files, j.entries[n].target, os[n]);
      } else {
        var later := faults;
        faults := [Calm] + later;
        assert Later(faults) == later;
      }
    }
  }

  /** Every prefix of the entries is where some crash leaves the recovery. */
  lemma {:induction false} CrashAt(d0: Disk, j: Journal, k: nat) returns (faults: seq<Fault>)
    requires AllRestorable(d0, j) && k <= |j.entries|
    ensures var os := Originals(d0.admin, j.id, j.entries);
      var r := RestoreRun(d0, j, os, 0, faults);
      r.disk == Disk(Undone(d0.files, j.entries, os, k), d0.admin) && r.outcome == Interrupted
  {
    var os := Originals(d0.admin, j.id, j.entries);
    faults := RunUpTo(d0, j, 0, k, [CrashBefore]);
    LostNow(Disk(Undone(d0.files, j.entries, os, k), d0.admin), j, os, k);
  }

  /** For every disk that `RestoreReach` names there is a schedule under which the recovery leaves it. */
  lemma {:induction false} ReachIsRun(d0: Disk, j: Journal, d: Disk) returns (faults: seq<Fault>)
    requires AllRestorable(d0, j) && RestoreReach(d0, j, d)
    ensures RestoreRun(d0, j, Originals(d0.admin, j.id, j.entries), 0, faults).disk == d
  {
    var n, os := |j.entries|, Originals(d0.admin, j.id, j.entries);
    if d == d0 {
      faults := [CrashBefore];
      LostNow(d0, j, os, 0);
    } else if d.admin == d0.admin && exists k: nat :: k <= n && d.files == Undone(d0.files, j.entries, os, k) {
      var k: nat :| k <= n && d.files == Undone(d0.files, j.entries, os, k);
      faults := CrashAt(d0, j, k);
    } else if d.admin == RolledBack(d0.admin, j) {
      faults := RunUpTo(d0, j, 0, n, [CrashAfter]);
    } else {
      faults := RunUpTo(d0, j, 0, n, [Calm, Calm]);
    }
  }
}
