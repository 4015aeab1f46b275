/** The disk after a growth: what every region holds, and what was left alone. */
module GrowEffect {
  import opened Common
  import opened Bytes
  import opened ClusterFiles
  import opened GrowPlan
  import opened GrowLayout

  function EntriesAt(ss: nat, total: nat, t: Table): int
    requires ss > 0
  {
    total - 1 - CeilDiv(|t.entries|, ss)
  }

  /** The values the writes carry. */
  datatype Written = Written(mbr: seq<byte>, header: seq<byte>, backup: seq<byte>, entries: seq<byte>)

  function WrittenBy(env: Env, d: seq<byte>, ss: nat, total: nat, t: Table, data: Part, boot: BootPlan): Written
    requires SectorSizeOk(ss) && PrimaryOk(env, d, ss) && TableShape(t) && data.index < t.count
    requires 0 < total < U64_LIMIT && CeilDiv(|t.entries|, ss) + 1 < total
    requires 0 < data.startLba + boot.grown <= U64_LIMIT
  {
    var entries := NewEntries(t, data, data.startLba + boot.grown - 1);
    var header := NewHeader(env, d[ss..2 * ss], total - 1, EntriesAt(ss, total, t) - 1, entries);
    Written(NewMbr(d, ss, total), header, BackupHeader(env, header, total - 1, EntriesAt(ss, total, t)), entries)
  }

  /** The scene, and that the writes it leads to are well defined. */
  ghost predicate Ready(env: Env, d: seq<byte>, ss: nat, total: nat, t: Table, data: Part, boot: BootPlan) {
    && Scene(env, d, ss, total, t, data, boot)
    && PrimaryOk(env, d, ss) && TableShape(t) && data.index < t.count
    && CeilDiv(|t.entries|, ss) + 1 < total && 0 < boot.grown <= Offered(ss, total, t, data)
    && |boot.region| == 12 * ss && |boot.bitmap.bytes| == 32 && data.startLba * ss + 12 * ss <= |d|
    && Ordered(ss, total, t, data, boot, HeapAt(d, ss, data), OldEnd(d, ss, data), EntriesAt(ss, total, t))
  }

  lemma {:induction false} SceneReady(env: Env, d: seq<byte>, ss: nat, total: nat, t: Table, data: Part, boot: BootPlan)
    requires Scene(env, d, ss, total, t, data, boot)
    ensures Ready(env, d, ss, total, t, data, boot)
  {
    hide PlanBoot, ReadTable, DataPart, Laid, Parts, PartAt, HeapAt, OldEnd, CeilDiv;
    SceneOrdered(env, d, ss, total, t, data, boot);
    PartIndex(env, t.entries, t.size, t.count, data);
  }

  function SplicedAt(boot: BootPlan, t: Table, data: Part, ss: nat, total: nat, w: Written): (ps: seq<Patch>)
    requires ss > 0 && EntriesAt(ss, total, t) >= 0 && total > 0
    ensures |ps| == 8
  {
    [ boot.bitmap,
      Patch(data.startLba * ss, boot.region),
      Patch(data.startLba * ss + 12 * ss, boot.region),
      Patch(0, w.mbr),
      Patch(t.at, w.entries),
      Patch(EntriesAt(ss, total, t) * ss, w.entries),
      Patch(ss, w.header),
      Patch((total - 1) * ss, w.backup) ]
  }

  lemma {:induction false} WritesApart(
      ss: nat, total: nat, t: Table, data: Part, boot: BootPlan, heapAt: nat, oldEnd: nat, w: Written, size: nat)
    requires ss > 0 && EntriesAt(ss, total, t) >= 0 && total > 0 && size == total * ss
    requires Ordered(ss, total, t, data, boot, heapAt, oldEnd, EntriesAt(ss, total, t))
    requires |boot.region| == 12 * ss && |boot.bitmap.bytes| == 32
    requires |w.mbr| == ss && |w.header| == ss && |w.backup| == ss && |w.entries| == |t.entries|
    ensures Separate(SplicedAt(boot, t, data, ss, total, w), size)
  {
    hide CeilDiv, EntriesAt;
  }

  /** What the regions of the grown disk hold. */
  ghost predicate Holds(d': seq<byte>, ss: nat, total: nat, t: Table, data: Part, boot: BootPlan, w: Written)
    requires ss > 0
  {
    var s, e := data.startLba * ss, EntriesAt(ss, total, t) * ss;
    && |d'| == total * ss && 2 * ss <= |d'| && s + 24 * ss <= |d'| && t.at + |w.entries| <= |d'|
    && 0 <= e && e + |w.entries| <= |d'| && boot.bitmap.at + 32 <= |d'| && total > 0 && (total - 1) * ss + ss <= |d'|
    && d'[..ss] == w.mbr && d'[ss..2 * ss] == w.header
    && d'[t.at..t.at + |w.entries|] == w.entries && d'[e..e + |w.entries|] == w.entries
    && d'[s..s + 12 * ss] == boot.region && d'[s + 12 * ss..s + 24 * ss] == boot.region
    && d'[boot.bitmap.at..boot.bitmap.at + 32] == boot.bitmap.bytes
    && d'[(total - 1) * ss..(total - 1) * ss + ss] == w.backup
  }

  lemma {:induction false} WritesRead(
      d: seq<byte>, ss: nat, total: nat, t: Table, data: Part, boot: BootPlan, heapAt: nat, oldEnd: nat, w: Written)
    requires ss > 0 && EntriesAt(ss, total, t) >= 0 && total > 0 && |d| == total * ss
    requires Ordered(ss, total, t, data, boot, heapAt, oldEnd, EntriesAt(ss, total, t))
    requires |boot.region| == 12 * ss && |boot.bitmap.bytes| == 32
    requires |w.mbr| == ss && |w.header| == ss && |w.backup| == ss && |w.entries| == |t.entries|
    ensures Holds(WriteAll(d, SplicedAt(boot, t, data, ss, total, w)), ss, total, t, data, boot, w)
  {
    hide CeilDiv, WriteAll;
    var ps := SplicedAt(boot, t, data, ss, total, w);
    WritesApart(ss, total, t, data, boot, heapAt, oldEnd, w, |d|);
    ReadsBack(d, ps, 0); ReadsBack(d, ps, 1); ReadsBack(d, ps, 2); ReadsBack(d, ps, 3);
    ReadsBack(d, ps, 4); ReadsBack(d, ps, 5); ReadsBack(d, ps, 6); ReadsBack(d, ps, 7);
  }

  /** A byte outside the eight written ranges. */
  ghost predicate OffWrites(x: nat, ss: nat, total: nat, t: Table, data: Part, boot: BootPlan)
    requires ss > 0
  {
    && 2 * ss <= x && !(t.at <= x < t.at + |t.entries|)
    && !(data.startLba * ss <= x < data.startLba * ss + 24 * ss)
    && !(boot.bitmap.at <= x < boot.bitmap.at + 32)
    && !(EntriesAt(ss, total, t) * ss <= x < EntriesAt(ss, total, t) * ss + |t.entries|)
    && x < (total - 1) * ss
  }

  lemma {:induction false} OffWritesKept(
      d: seq<byte>, ss: nat, total: nat, t: Table, data: Part, boot: BootPlan, w: Written, x: nat)
    requires ss > 0 && EntriesAt(ss, total, t) >= 0 && total > 0 && x < |d|
    requires |boot.region| == 12 * ss && |boot.bitmap.bytes| == 32
    requires |w.mbr| == ss && |w.header| == ss && |w.backup| == ss && |w.entries| == |t.entries|
    requires OffWrites(x, ss, total, t, data, boot)
    ensures x < |WriteAll(d, SplicedAt(boot, t, data, ss, total, w))|
    ensures WriteAll(d, SplicedAt(boot, t, data, ss, total, w))[x] == d[x]
  {
    hide CeilDiv, WriteAll, EntriesAt;
    Untouched(d, SplicedAt(boot, t, data, ss, total, w), x);
  }

  /** The plan's patches are these values at these places. */
  lemma {:induction false} PatchesAre(env: Env, d: seq<byte>, ss: nat, total: nat, t: Table, data: Part, boot: BootPlan)
    requires Ready(env, d, ss, total, t, data, boot)
    ensures EntriesAt(ss, total, t) >= 0
    ensures var w := WrittenBy(env, d, ss, total, t, data, boot);
            && Patches(env, d, ss, total, t, data, boot) == SplicedAt(boot, t, data, ss, total, w)
            && |w.mbr| == ss && |w.header| == ss && |w.backup| == ss && |w.entries| == |t.entries|
  {
    hide CeilDiv, Scene, Ordered, NewHeader, NewMbr, NewEntries, BackupHeader, HeapAt, OldEnd, PrimaryOk, TableShape;
  }
}
