/** The plan in install order: the same changes, loaders last, with the same effect as writing the whole payload. */
module PlanProofs {
  import opened Common
  import opened UpdateModel
  import opened UpdateProofs

  predicate OnEsp(c: Change) { c.entry.target.area == "esp" }

  ghost predicate Differs(files: Files, item: PayloadItem) {
    FileDigest(files, item.target) != Some(Digest(item.content))
  }

  // ----- the stable sort -----

  lemma {:induction false} OnlyAreaMembers(cs: seq<Change>, esp: bool)
    ensures forall c :: c in OnlyArea(cs, esp) <==> c in cs && OnEsp(c) == esp
  {
    if cs != [] {
      OnlyAreaMembers(cs[1..], esp);
      assert cs == [cs[0]] + cs[1..];
    }
  }

  lemma {:induction false} OnlyAreaSplits(cs: seq<Change>)
    ensures multiset(OnlyArea(cs, false)) + multiset(OnlyArea(cs, true)) == multiset(cs)
  {
    if cs != [] {
      OnlyAreaSplits(cs[1..]);
      assert cs == [cs[0]] + cs[1..];
    }
  }

  /** The install order is a permutation of the plan in which no loader precedes another file. */
  lemma {:induction false} LoadersLastSorts(cs: seq<Change>)
    ensures multiset(LoadersLast(cs)) == multiset(cs)
    ensures forall i, j :: 0 <= i < j < |LoadersLast(cs)| && OnEsp(LoadersLast(cs)[i]) ==> OnEsp(LoadersLast(cs)[j])
  {
    OnlyAreaSplits(cs);
    OnlyAreaMembers(cs, false);
    OnlyAreaMembers(cs, true);
    var a, b := OnlyArea(cs, false), OnlyArea(cs, true);
    assert forall m :: 0 <= m < |a| ==> a[m] in a;
    assert forall m :: 0 <= m < |b| ==> b[m] in b;
  }

  lemma {:induction false} LoadersLastMembers(cs: seq<Change>)
    ensures forall c :: c in LoadersLast(cs) <==> c in cs
  {
    OnlyAreaMembers(cs, false);
    OnlyAreaMembers(cs, true);
  }

  lemma {:induction false} OnlyAreaDistinct(cs: seq<Change>, esp: bool)
    requires DistinctKeys(ChangeTargets(cs))
    ensures DistinctKeys(ChangeTargets(OnlyArea(cs, esp)))
  {
    if cs != [] {
      var ts := ChangeTargets(cs);
      var rest := OnlyArea(cs[1..], esp);
      assert ChangeTargets(cs[1..]) == ts[1..];
      OnlyAreaDistinct(cs[1..], esp);
      OnlyAreaMembers(cs[1..], esp);
      forall j | 0 <= j < |rest| ensures Key(rest[j].entry.target) != Key(cs[0].entry.target) {
        assert rest[j] in rest;
        var m :| 0 <= m < |cs[1..]| && cs[1..][m] == rest[j];
        assert Key(ts[0]) != Key(ts[m + 1]);
      }
      assert ChangeTargets([cs[0]] + rest) == [cs[0].entry.target] + ChangeTargets(rest);
      assert OnlyArea(cs, esp) == if OnEsp(cs[0]) == esp then [cs[0]] + rest else rest;
    }
  }

  lemma {:induction false} LoadersLastDistinct(cs: seq<Change>)
    requires DistinctKeys(ChangeTargets(cs))
    ensures DistinctKeys(ChangeTargets(LoadersLast(cs)))
  {
    hide OnlyArea;
    OnlyAreaDistinct(cs, false);
    OnlyAreaDistinct(cs, true);
    OnlyAreaMembers(cs, false);
    OnlyAreaMembers(cs, true);
    var a, b := OnlyArea(cs, false), OnlyArea(cs, true);
    forall i, j | 0 <= i < |a| && 0 <= j < |b| ensures Key(a[i].entry.target) != Key(b[j].entry.target) {
      assert a[i] in a && b[j] in b;
    }
    JoinDistinct(a, b);
  }

  lemma {:induction false} JoinDistinct(a: seq<Change>, b: seq<Change>)
    requires DistinctKeys(ChangeTargets(a)) && DistinctKeys(ChangeTargets(b))
    requires forall i, j :: 0 <= i < |a| && 0 <= j < |b| ==> Key(a[i].entry.target) != Key(b[j].entry.target)
    ensures DistinctKeys(ChangeTargets(a + b))
  {
    hide Key;
    var ta, tb, ts := ChangeTargets(a), ChangeTargets(b), ChangeTargets(a + b);
    assert ts == ta + tb;
    forall i, j | 0 <= i < j < |ts| ensures Key(ts[i]) != Key(ts[j]) {
      if j < |a| {
        assert Key(ta[i]) != Key(ta[j]);
      } else if i >= |a| {
        assert Key(tb[i - |a|]) != Key(tb[j - |a|]);
      } else {
        assert Key(a[i].entry.target) != Key(b[j - |a|].entry.target);
      }
    }
  }

  // ----- the plan -----

  lemma {:induction false} PlanMembers(files: Files, payload: seq<PayloadItem>)
    ensures forall c :: c in PlanOf(files, payload)
              <==> exists i :: 0 <= i < |payload| && Differs(files, payload[i]) && c == ChangeFor(files, payload[i])
  {
    if payload != [] {
      var n := |payload| - 1;
      PlanMembers(files, payload[..n]);
      forall c ensures c in PlanOf(files, payload)
                 <==> exists i :: 0 <= i < |payload| && Differs(files, payload[i]) && c == ChangeFor(files, payload[i])
      {
        if c in PlanOf(files, payload[..n]) {
          var i :| 0 <= i < n && Differs(files, payload[..n][i]) && c == ChangeFor(files, payload[..n][i]);
          assert payload[i] == payload[..n][i];
        }
        if i :| 0 <= i < |payload| && Differs(files, payload[i]) && c == ChangeFor(files, payload[i]) {
          assert i < n ==> payload[..n][i] == payload[i];
        }
      }
    }
  }

  lemma {:induction false} PlanDistinct(files: Files, payload: seq<PayloadItem>)
    requires DistinctKeys(PayloadTargets(payload))
    ensures DistinctKeys(ChangeTargets(PlanOf(files, payload)))
  {
    if payload != [] {
      var n := |payload| - 1;
      var ts := PayloadTargets(payload);
      var earlier := PlanOf(files, payload[..n]);
      assert PayloadTargets(payload[..n]) == ts[..n];
      PlanDistinct(files, payload[..n]);
      PlanMembers(files, payload[..n]);
      forall j | 0 <= j < |earlier| ensures Key(earlier[j].entry.target) != Key(ts[n]) {
        assert earlier[j] in earlier;
        var i :| 0 <= i < |payload[..n]| && Differs(files, payload[..n][i])
          && earlier[j] == ChangeFor(files, payload[..n][i]);
        assert Key(ts[i]) != Key(ts[n]);
      }
      var c := ChangeFor(files, payload[n]);
      assert ChangeTargets(earlier + [c]) == ChangeTargets(earlier) + [ts[n]];
    }
  }

  /** What the updater knows of its changes when it starts to stage them. */
  lemma {:induction false} ChangesArePlanned(cfg: Config, files: Files, payload: seq<PayloadItem>)
    requires PayloadOk(cfg, payload)
    ensures var cs := LoadersLast(PlanOf(files, payload));
            && PlannedOn(files, cs) && Ordered(cs)
            && forall i :: 0 <= i < |cs| ==> Owned(cfg, cs[i].entry.target)
  {
    var plan := PlanOf(files, payload);
    var cs := LoadersLast(plan);
    PlanDistinct(files, payload);
    LoadersLastDistinct(plan);
    LoadersLastMembers(plan);
    LoadersLastSorts(plan);
    PlanMembers(files, payload);
    forall i | 0 <= i < |cs|
      ensures cs[i] == ChangeFor(files, PayloadItem(cs[i].entry.target, cs[i].content))
      ensures Owned(cfg, cs[i].entry.target) && Some(cs[i].entry.after) != cs[i].entry.before
    {
      assert cs[i] in cs;
      var m :| 0 <= m < |payload| && Differs(files, payload[m]) && cs[i] == ChangeFor(files, payload[m]);
    }
  }

  // ----- the effect of the plan -----

  lemma {:induction false} UpdatedAt(files: Files, payload: seq<PayloadItem>, i: nat)
    requires i < |payload| && DistinctTargets(PayloadTargets(payload))
    ensures Lookup(Updated(files, payload), payload[i].target) == Some(payload[i].content)
  {
    var n := |payload| - 1;
    var ts := PayloadTargets(payload);
    if i < n {
      assert PayloadTargets(payload[..n]) == ts[..n];
      UpdatedAt(files, payload[..n], i);
      assert ts[i] != ts[n];
    }
  }

  lemma {:induction false} UpdatedElsewhere(files: Files, payload: seq<PayloadItem>, t: Target)
    requires forall i :: 0 <= i < |payload| ==> payload[i].target != t
    ensures Lookup(Updated(files, payload), t) == Lookup(files, t)
  {
    if payload != [] {
      var n := |payload| - 1;
      assert forall i :: 0 <= i < n ==> payload[..n][i] == payload[i];
      UpdatedElsewhere(files, payload[..n], t);
    }
  }

  lemma {:induction false} PlanCoversItem(files: Files, payload: seq<PayloadItem>, i: nat)
    requires i < |payload| && DistinctKeys(PayloadTargets(payload))
    ensures var cs := LoadersLast(PlanOf(files, payload));
            Lookup(Installed(files, cs, |cs|), payload[i].target) == Some(payload[i].content)
  {
    var plan := PlanOf(files, payload);
    var cs := LoadersLast(plan);
    var t := payload[i].target;
    PlanDistinct(files, payload);
    LoadersLastDistinct(plan);
    KeysGiveTargets(ChangeTargets(cs));
    LoadersLastMembers(plan);
    PlanMembers(files, payload);
    if Differs(files, payload[i]) {
      assert ChangeFor(files, payload[i]) in cs;
      var m :| 0 <= m < |cs| && cs[m] == ChangeFor(files, payload[i]);
      InstalledAt(files, cs, |cs|, m);
    } else {
      forall m | 0 <= m < |cs| ensures cs[m].entry.target != t {
        assert cs[m] in cs;
        var q :| 0 <= q < |payload| && Differs(files, payload[q]) && cs[m] == ChangeFor(files, payload[q]);
        var ts := PayloadTargets(payload);
        assert q != i;
        assert if q < i then Key(ts[q]) != Key(ts[i]) else Key(ts[i]) != Key(ts[q]);
      }
      InstalledElsewhere(files, cs, |cs|, t);
    }
  }

  /** Installing the planned changes, loaders last, leaves what writing every payload item would. */
  lemma {:induction false} PlanMeetsPayload(files: Files, payload: seq<PayloadItem>)
    requires DistinctKeys(PayloadTargets(payload))
    ensures var cs := LoadersLast(PlanOf(files, payload));
            Installed(files, cs, |cs|) == Updated(files, payload)
  {
    var cs := LoadersLast(PlanOf(files, payload));
    var all := Installed(files, cs, |cs|);
    var ts := PayloadTargets(payload);
    KeysGiveTargets(ts);
    LoadersLastMembers(PlanOf(files, payload));
    PlanMembers(files, payload);
    forall t ensures Lookup(all, t) == Lookup(Updated(files, payload), t) {
      if t in ts {
        var i :| 0 <= i < |ts| && ts[i] == t;
        PlanCoversItem(files, payload, i);
        UpdatedAt(files, payload, i);
      } else {
        forall i | 0 <= i < |payload| ensures payload[i].target != t { assert ts[i] in ts; }
        forall m | 0 <= m < |cs| ensures cs[m].entry.target != t {
          assert cs[m] in cs;
          var q :| 0 <= q < |payload| && Differs(files, payload[q]) && cs[m] == ChangeFor(files, payload[q]);
        }
        InstalledElsewhere(files, cs, |cs|, t);
        UpdatedElsewhere(files, payload, t);
      }
    }
    SameLookups(all, Updated(files, payload));
  }

  /** There is nothing to install exactly when nothing is planned, and then the payload is in place. */
  lemma {:induction false} NothingPlanned(files: Files, payload: seq<PayloadItem>)
    requires DistinctKeys(PayloadTargets(payload))
    ensures LoadersLast(PlanOf(files, payload)) == [] <==> PlanOf(files, payload) == []
    ensures PlanOf(files, payload) == [] ==> Updated(files, payload) == files
  {
    var plan := PlanOf(files, payload);
    LoadersLastSorts(plan);
    assert |multiset(LoadersLast(plan))| == |multiset(plan)|;
    PlanMeetsPayload(files, payload);
  }

  /** What is planned is felt: the files change exactly when there is something to change. */
  lemma {:induction false} PlanIsFelt(files: Files, payload: seq<PayloadItem>)
    requires DistinctKeys(PayloadTargets(payload))
    ensures Updated(files, payload) == files <==> LoadersLast(PlanOf(files, payload)) == []
  {
    NothingPlanned(files, payload);
    var plan := PlanOf(files, payload);
    if plan != [] {
      PlanMembers(files, payload);
      KeysGiveTargets(PayloadTargets(payload));
      assert plan[0] in plan;
      var i :| 0 <= i < |payload| && Differs(files, payload[i]) && plan[0] == ChangeFor(files, payload[i]);
      UpdatedAt(files, payload, i);
    }
  }

  // ----- loaders last -----

  /** If any ESP target holds its new content, so does every target elsewhere. */
  ghost predicate LoadersFollow(files: Files, cs: seq<Change>) {
    forall i, j :: 0 <= i < |cs| && 0 <= j < |cs| && OnEsp(cs[i]) && !OnEsp(cs[j])
      && Lookup(files, cs[i].entry.target) == Some(cs[i].content)
      ==> Lookup(files, cs[j].entry.target) == Some(cs[j].content)
  }

  /** An install order: loaders last, and every change really changes its target. */
  ghost predicate Ordered(cs: seq<Change>) {
    && (forall i, j :: 0 <= i < j < |cs| && OnEsp(cs[i]) ==> OnEsp(cs[j]))
    && forall i :: 0 <= i < |cs| ==> Some(cs[i].entry.after) != cs[i].entry.before
  }

  /** Loader-last: whatever number of changes has been installed, no new loader meets an old file. */
  lemma {:induction false} InstallKeepsLoadersLast(files: Files, cs: seq<Change>, k: nat)
    requires PlannedOn(files, cs) && Ordered(cs) && k <= |cs|
    ensures LoadersFollow(Installed(files, cs, k), cs)
  {
    var now := Installed(files, cs, k);
    KeysGiveTargets(ChangeTargets(cs));
    forall i, j | 0 <= i < |cs| && 0 <= j < |cs| && OnEsp(cs[i]) && !OnEsp(cs[j])
      && Lookup(now, cs[i].entry.target) == Some(cs[i].content)
      ensures Lookup(now, cs[j].entry.target) == Some(cs[j].content)
    {
      InstalledAt(files, cs, k, i);
      InstalledAt(files, cs, k, j);
      assert cs[i] == ChangeFor(files, PayloadItem(cs[i].entry.target, cs[i].content));
    }
  }
}
