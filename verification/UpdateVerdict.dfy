/**
 How an update ends, as a function of what goes wrong underneath it: which
 report it gives, whether a pending journal is left and whether the payload is
 in place.
 */
module UpdateVerdict {
  import opened Common
  import opened UpdateModel
  import opened UpdateProofs
  import opened PlanProofs
  import opened UpdateSpec
  import opened UpdateFaults

  // ----- a number of steps under a schedule -----

  /** How a number of steps went: the first that was calm no more, how many were before it, and what is left. */
  datatype Taken = Taken(fault: Fault, calm: nat, faults: seq<Fault>)

  /** The next `n` steps, which end with the first that is not calm. */
  function Take(faults: seq<Fault>, n: nat): (t: Taken)
    ensures t.calm <= n && (t.fault == Calm <==> t.calm == n)
  {
    if n == 0 then Taken(Calm, 0, faults)
    else if FaultOf(faults) != Calm then Taken(FaultOf(faults), 0, Later(faults))
    else
      var t := Take(Later(faults), n - 1);
      Taken(t.fault, t.calm + 1, t.faults)
  }

  lemma {:induction false} TakeMore(faults: seq<Fault>, m: nat, n: nat)
    ensures var t := Take(faults, m);
      Take(faults, m + n) ==
        if t.fault != Calm then t
        else var u := Take(t.faults, n); Taken(u.fault, m + u.calm, u.faults)
  {
    if m > 0 && FaultOf(faults) == Calm { TakeMore(Later(faults), m - 1, n); }
  }

  /** `k` calm steps from `start` leave `faults`. */
  predicate Calmly(start: seq<Fault>, k: nat, faults: seq<Fault>) { Take(start, k) == Taken(Calm, k, faults) }

  /** A procedure of `n` steps ends as the schedule says. */
  predicate Stopped(start: seq<Fault>, n: nat, r: Outcome, faults: seq<Fault>) {
    r == EndOf(Take(start, n).fault) && faults == Take(start, n).faults
  }

  lemma {:induction false} NoStep(faults: seq<Fault>)
    ensures Calmly(faults, 0, faults)
  {
  }

  lemma {:induction false} TakeCalm(faults: seq<Fault>, n: nat)
    ensures faults == [] ==> Take(faults, n) == Taken(Calm, n, [])
  {
    if n > 0 { TakeCalm(Later(faults), n - 1); }
  }

  lemma {:induction false} OneStep(faults: seq<Fault>)
    ensures Take(faults, 1) == Taken(FaultOf(faults), if FaultOf(faults) == Calm then 1 else 0, Later(faults))
  {
    assert Take(Later(faults), 0) == Taken(Calm, 0, Later(faults));
  }

  /** A part of `b` steps in a procedure of `n`, of which `k` have been calm. */
  lemma {:induction false} NextPart(start: seq<Fault>, k: nat, b: nat, n: nat, faults: seq<Fault>)
    requires Calmly(start, k, faults) && k + b <= n
    ensures var u := Take(faults, b);
      if u.fault == Calm then Calmly(start, k + b, u.faults)
      else Take(start, n) == Taken(u.fault, k + u.calm, u.faults)
  {
    hide Take;
    TakeMore(start, k, b);
    TakeMore(start, k, n - k);
    TakeMore(faults, b, n - k - b);
  }

  lemma {:induction false} NextStep(start: seq<Fault>, k: nat, n: nat, faults: seq<Fault>)
    requires Calmly(start, k, faults) && k < n
    ensures
      if FaultOf(faults) == Calm then Calmly(start, k + 1, Later(faults))
      else Take(start, n) == Taken(FaultOf(faults), k, Later(faults))
  {
    hide Take;
    OneStep(faults);
    NextPart(start, k, 1, n, faults);
  }

  /** The next `n` steps meet no fault. */
  predicate CalmFor(faults: seq<Fault>, n: nat) {
    forall i :: 0 <= i < n && i < |faults| ==> faults[i] == Calm
  }

  function Drop(faults: seq<Fault>, n: nat): seq<Fault> { if n <= |faults| then faults[n..] else [] }

  /** After `n` calm steps comes `f`. */
  predicate FirstIs(faults: seq<Fault>, n: nat, f: Fault) { CalmFor(faults, n) && FaultOf(Drop(faults, n)) == f }

  lemma {:induction false} TakeIs(faults: seq<Fault>, n: nat)
    ensures var t := Take(faults, n);
      && CalmFor(faults, t.calm)
      && (t.calm == n ==> t.faults == Drop(faults, n))
      && (t.calm < n ==> t.fault == FaultOf(Drop(faults, t.calm)) && t.faults == Drop(faults, t.calm + 1))
  {
    if n > 0 && FaultOf(faults) == Calm { TakeIs(Later(faults), n - 1); }
  }

  /** The schedule's first fault among the next `n` steps, if one stands there. */
  lemma {:induction false} FirstTaken(faults: seq<Fault>, k: nat, n: nat, f: Fault)
    requires k < n && f != Calm
    ensures Take(faults, n).calm == k && Take(faults, n).fault == f <==> FirstIs(faults, k, f)
  {
    var t := Take(faults, n);
    TakeIs(faults, n);
    if FirstIs(faults, k, f) {
      TakeIs(faults, k);
    }
  }

  /** The last of `n` steps has taken effect. */
  predicate Reached(t: Taken, n: nat) { t.calm == n || (t.calm + 1 == n && Applies(t.fault)) }

  // ----- how many durable steps an update takes -----

  function EnterSteps(d: Disk): nat { if Entered(d) == d then 0 else 1 }

  function Areas(changes: seq<Change>): set<string> {
    {"esp"} + set i | 0 <= i < |changes| :: changes[i].entry.target.area
  }

  function StageSteps(c: Change): nat { if c.original.Some? then 2 else 1 }

  /** New contents, and the backups of what is there. */
  function ContentSteps(changes: seq<Change>): nat {
    if changes == [] then 0
    else
      var n := |changes| - 1;
      ContentSteps(changes[..n]) + StageSteps(changes[n])
  }

  /** Up to and including the pending journal. */
  function PublishSteps(changes: seq<Change>): nat { |Areas(changes)| + ContentSteps(changes) + 2 }

  lemma {:induction false} ContentGrows(changes: seq<Change>, n: nat)
    requires n < |changes|
    ensures ContentSteps(changes[..n + 1]) == ContentSteps(changes[..n]) + StageSteps(changes[n])
    ensures ContentSteps(changes[..n + 1]) <= ContentSteps(changes)
    decreases |changes| - n
  {
    assert changes[..n + 1][..n] == changes[..n];
    if n + 1 < |changes| { ContentGrows(changes, n + 1); } else { assert changes[..n + 1] == changes; }
  }

  /** The lock file takes its step, if it needs one. */
  lemma {:induction false} EnterStops(d: Disk, faults: seq<Fault>)
    ensures Stopped(faults, EnterSteps(d), EnterRun(d, faults).outcome, EnterRun(d, faults).faults)
  {
    hide Entered;
    OneStep(faults);
  }

  // ----- the verdict -----

  datatype ReportKind = IsApplied | IsUpToDate | IsPlan | IsRefused | IsRestored | IsRecovery | IsLost

  function KindOf(r: Report): ReportKind {
    match r
    case Applied(_) => IsApplied
    case UpToDate => IsUpToDate
    case WouldChange(_) => IsPlan
    case Refused(_) => IsRefused
    case OriginalsRestored(_) => IsRestored
    case RecoveryRequired(_) => IsRecovery
    case Lost => IsLost
  }

  /** What is reported, whether a pending journal is left, and whether the payload is in place with none. */
  datatype Verdict = Verdict(kind: ReportKind, pending: bool, complete: bool)

  predicate Crashes(f: Fault) { f == CrashBefore || f == CrashAfter }

  /** How the report names a procedure that ended with this fault. */
  function Named(f: Fault, calmly: ReportKind, raised: ReportKind): ReportKind {
    if f == Calm then calmly else if Crashes(f) then IsLost else raised
  }

  /** How many of `n` changes have been moved into place when the steps from publication on end so. */
  function Moved(calm: nat, f: Fault, n: nat): (k: nat)
    ensures k <= n
  {
    var k := calm + (if Applies(f) && f != Calm then 1 else 0);
    if k <= n then k else n
  }

  /** The moves as the first part of a commit: if they stop, so does it. */
  lemma {:induction false} CommitPart(start: seq<Fault>, n: nat, r: Outcome, faults: seq<Fault>)
    requires Stopped(start, n, r, faults)
    ensures var t := Take(start, n);
      if r.Done? then Calmly(start, n, faults) && Moved(t.calm, t.fault, n) == n
      else Stopped(start, n + 2, r, faults) && Take(start, n + 2) == t && !Reached(t, n + 2)
  {
    hide Take;
    TakeMore(start, n, 2);
  }

  /** The manifest and the pending journal as the rest of it. */
  lemma {:induction false} CommitTail(start: seq<Fault>, n: nat, before: seq<Fault>, r: Outcome, faults: seq<Fault>)
    requires Calmly(start, n, before) && Stopped(before, 2, r, faults)
    ensures Stopped(start, n + 2, r, faults)
    ensures var t := Take(start, n + 2);
      (Reached(t, n + 2) <==> Reached(Take(before, 2), 2)) && Moved(t.calm, t.fault, n) == n
  {
    hide Take;
    TakeMore(start, n, 2);
  }

  /** What the undo of `k` changes comes to. */
  function UndoVerdict(faults: seq<Fault>, k: nat): (v: Verdict)
    ensures !v.complete
  {
    var u := Take(faults, k + 2);
    Verdict(Named(u.fault, IsRestored, IsRecovery), !Reached(u, k + 2), false)
  }

  /** From publication on: `n` moves, the manifest, the removal of the pending journal. */
  function CommitVerdict(faults: seq<Fault>, n: nat): Verdict {
    var t := Take(faults, n + 2);
    if t.fault == Calm then Verdict(IsApplied, false, true)
    else if Crashes(t.fault) then Verdict(IsLost, !Reached(t, n + 2), Reached(t, n + 2))
    else if Reached(t, n + 2) then Verdict(IsRecovery, false, true)
    else UndoVerdict(t.faults, Moved(t.calm, t.fault, n))
  }

  /** An update of `n` changes, published by its `m`-th step. */
  function Expected(faults: seq<Fault>, m: nat, n: nat): Verdict {
    var t := Take(faults, m);
    if t.fault == Calm then CommitVerdict(t.faults, n)
    else Verdict(Named(t.fault, IsApplied, IsRefused), Reached(t, m), false)
  }

  lemma {:induction false} ExpectedLater(faults: seq<Fault>, e: nat, m: nat, n: nat)
    requires m > 1
    ensures var t := Take(faults, e);
      Expected(faults, e + m, n) ==
        if t.fault
          == Calm then Expected(t.faults, m, n) else Verdict(Named(t.fault, IsApplied, IsRefused), false, false)
  {
    TakeMore(faults, e, m);
  }

  // ----- when the report misleads -----

  /**
   Step `p` raises `f` after publication and the undo then raises at its own
   last step, after its effect.
   */
  predicate UndoneBehind(faults: seq<Fault>, m: nat, n: nat, p: nat, f: Fault) {
    && m <= p < m + n + 2 && (f == FailBefore || (f == FailAfter && p != m + n + 1))
    && FirstIs(faults, p, f) && FirstIs(Drop(faults, p + 1), Moved(p - m, f, n) + 1, FailAfter)
  }

  /** A first fault behind publication, seen from there. */
  lemma {:induction false} FaultBehind(faults: seq<Fault>, m: nat, n: nat, p: nat, f: Fault)
    requires m <= p < m + n && f != Calm
    ensures var t := Take(faults, m);
      FirstIs(faults, p, f) <==> t.fault == Calm && Take(t.faults, n) == Taken(f, p - m, Drop(faults, p + 1))
  {
    hide Take, Drop, FirstIs;
    TakeMore(faults, m, n);
    FirstTaken(faults, p, m + n, f);
    TakeIs(faults, m + n);
  }

  /** Recovery is asked for on a complete update exactly when the very last step raises after its effect. */
  lemma {:induction false} CompleteIff(faults: seq<Fault>, m: nat, n: nat)
    ensures var v := Expected(faults, m, n);
      v.kind == IsRecovery && v.complete <==> FirstIs(faults, m + n + 1, FailAfter)
  {
    hide Take, Drop, FirstIs;
    FaultBehind(faults, m, n + 2, m + n + 1, FailAfter);
    TakeMore(faults, m, n + 2);
    TakeIs(faults, m + n + 2);
  }

  /** It is asked for with the old files back and nothing pending exactly when the undo's last step does so. */
  lemma {:induction false} UndoneIff(faults: seq<Fault>, m: nat, n: nat)
    ensures var v := Expected(faults, m, n);
      v.kind == IsRecovery && !v.pending && !v.complete <==> exists p, f :: UndoneBehind(faults, m, n, p, f)
  {
    hide Take, Drop, FirstIs;
    var v := Expected(faults, m, n);
    var t := Take(faults, m);
    var u := Take(t.faults, n + 2);
    if v.kind == IsRecovery && !v.pending && !v.complete {
      var p, f := m + u.calm, u.fault;
      TakeMore(faults, m, n + 2);
      TakeIs(faults, m + n + 2);
      FaultBehind(faults, m, n + 2, p, f);
      FirstTaken(u.faults, Moved(u.calm, f, n) + 1, Moved(u.calm, f, n) + 2, FailAfter);
      assert UndoneBehind(faults, m, n, p, f);
    }
    if p: nat, f :| UndoneBehind(faults, m, n, p, f) {
      FaultBehind(faults, m, n + 2, p, f);
      FirstTaken(u.faults, Moved(p - m, f, n) + 1, Moved(p - m, f, n) + 2, FailAfter);
    }
  }

  /** An update is reported as not begun with its journal pending exactly when publishing raises after its effect. */
  lemma {:induction false} RefusedIff(faults: seq<Fault>, m: nat, n: nat)
    requires m > 0
    ensures var v := Expected(faults, m, n);
      v.kind == IsRefused && v.pending <==> FirstIs(faults, m - 1, FailAfter)
  {
    hide Take, Drop, FirstIs;
    FirstTaken(faults, m - 1, m, FailAfter);
  }

  // ----- the undo of an installed prefix -----

  /**
   Where the targets of the first `k` entries differ from what they held, and
   no others, the undo takes `k + 2` steps.
   */
  lemma {:induction false} UndoSteps(
      d: Disk, j: Journal, os: seq<Option<Content>>, k: nat, i: nat, faults: seq<Fault>)
    requires k <= |j.entries| == |os| && i <= |j.entries|
    requires DistinctTargets(EntryTargets(j.entries))
    requires forall q :: i <= q < |j.entries| ==>
      (FileDigest(d.files, j.entries[q].target) == j.entries[q].before <==> q >= k)
    requires Pending in d.admin && d.admin[Pending].JournalText? && d.admin[Pending].journal.id == j.id
    ensures var left := (if i < k then k - i else 0) + 2;
      var run := RestoreRun(d, j, os, i, faults);
      && Stopped(faults, left, run.outcome, run.faults)
      && (Pending !in run.disk.admin <==> Reached(Take(faults, left), left))
    decreases |j.entries| - i
  {
    hide Take;
    if i == |j.entries| {
      FinishSteps(d, j, "rolled_back", faults);
    } else if i >= k {
      UndoSteps(d, j, os, k, i + 1, faults);
    } else {
      var f := FaultOf(faults);
      var d1 := if Applies(f) then d.(files := Put(d.files, j.entries[i].target, os[i])) else d;
      OneStep(faults);
      TakeMore(faults, 1, k - i + 1);
      if f == Calm {
        OthersStay(d.files, j.entries, i, os[i]);
        UndoSteps(d1, j, os, k, i + 1, Later(faults));
      }
    }
  }

  /** Putting one target back leaves the others as they are. */
  lemma {:induction false} OthersStay(files: Files, es: seq<Entry>, i: nat, o: Option<Content>)
    requires i < |es| && DistinctTargets(EntryTargets(es))
    ensures forall q :: i < q < |es| ==>
      FileDigest(Put(files, es[i].target, o), es[q].target) == FileDigest(files, es[q].target)
  {
    var ts := EntryTargets(es);
    forall q | i < q < |es|
      ensures FileDigest(Put(files, es[i].target, o), es[q].target) == FileDigest(files, es[q].target)
    {
      assert ts[i] != ts[q];
    }
  }

  /** The status on record and the pending journal withdrawn: two steps. */
  lemma {:induction false} FinishSteps(d: Disk, j: Journal, status: string, faults: seq<Fault>)
    requires Pending in d.admin && d.admin[Pending].JournalText? && d.admin[Pending].journal.id == j.id
    ensures var run := FinishRun(d, j, status, faults);
      && Stopped(faults, 2, run.outcome, run.faults)
      && (Pending !in run.disk.admin <==> Reached(Take(faults, 2), 2))
  {
    hide Take;
    OneStep(faults);
    OneStep(Later(faults));
    TakeMore(faults, 1, 1);
  }
}
