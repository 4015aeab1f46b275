/** Growing release media: the result is well formed, growing again changes nothing, and little else is touched. */
module GrowTheorems {
  import opened Common
  import opened Bytes
  import opened ClusterFiles
  import opened GrowPlan
  import opened GrowLayout
  import opened GrowEffect
  import opened GrowGpt
  import opened GrowExfat
  import opened GrowVolume
  import opened ExfatReader
  import opened GrowReader

  /** A disk whose table and data volume obey the layout rules of the standards. */
  ghost predicate StandardLayout(env: Env, d: seq<byte>, ss: nat)
    requires SectorSizeOk(ss)
  {
    match ReadTable(env, d, ss)
    case None => false
    case Some(t) =>
      match DataPart(env, t)
      case None => false
      case Some(data) => data.startLba * ss + 12 * ss <= |d| && Laid(d, ss, t, data)
  }

  lemma {:induction false} PlanMakesReady(env: Env, d: seq<byte>, ss: nat, grown: nat, patches: seq<Patch>)
    returns (t: Table, data: Part, boot: BootPlan)
    requires SectorSizeOk(ss) && |d| / ss < U64_LIMIT && StandardLayout(env, d, ss)
    requires Plan(env, d, ss, |d|) == Grow(grown, patches)
    ensures var total := |d| / ss;
      && ReadTable(env, d, ss) == Some(t) && DataPart(env, t) == Some(data) && boot.grown == grown
      && Ready(env, d, ss, total, t, data, boot)
      && patches == Patches(env, d, ss, total, t, data, boot)
  {
    hide Plan, PlanBoot, ReadTable, DataPart, Laid, Patches, Parts, PartAt, Ready, CeilDiv, PrimaryOk;
    t, data, boot := PlanMakesScene(env, d, ss, |d|, grown, patches);
    SceneReady(env, d, ss, |d| / ss, t, data, boot);
  }

  /** The state after the writes, as far as the proofs need it. */
  lemma {:induction false} AfterWrites(
      env: Env, d: seq<byte>, ss: nat, total: nat, t: Table, data: Part, boot: BootPlan)
    requires Ready(env, d, ss, total, t, data, boot)
    ensures var d' := WriteAll(d, Patches(env, d, ss, total, t, data, boot));
      && |d'| == |d| && Holds(d', ss, total, t, data, boot, WrittenBy(env, d, ss, total, t, data, boot))
      && forall x :: 0 <= x < |d| && OffWrites(x, ss, total, t, data, boot) ==> d'[x] == d[x]
  {
    hide Scene, PrimaryOk, WrittenBy, CeilDiv, WriteAll, SplicedAt, OffWrites, Patches, HeapAt, OldEnd;
    SceneSize(env, d, ss, total, t, data, boot);
    var w := WrittenBy(env, d, ss, total, t, data, boot);
    PatchesAre(env, d, ss, total, t, data, boot);
    WritesRead(d, ss, total, t, data, boot, HeapAt(d, ss, data), OldEnd(d, ss, data), w);
    forall x | 0 <= x < |d| && OffWrites(x, ss, total, t, data, boot)
      ensures WriteAll(d, SplicedAt(boot, t, data, ss, total, w))[x] == d[x]
    {
      OffWritesKept(d, ss, total, t, data, boot, w, x);
    }
  }

  lemma {:induction false} SceneSize(env: Env, d: seq<byte>, ss: nat, total: nat, t: Table, data: Part, boot: BootPlan)
    requires Ready(env, d, ss, total, t, data, boot)
    ensures SectorSizeOk(ss) && |d| == total * ss && 0 < total < U64_LIMIT
  {
    hide ReadTable, DataPart, PlanBoot, Laid, CeilDiv, PrimaryOk;
  }

  // ----- the volume -----

  lemma {:induction false} VolumeIsRewritten(
      env: Env, d: seq<byte>, ss: nat, total: nat, t: Table, data: Part, boot: BootPlan, d': seq<byte>, w: Written)
    requires Ready(env, d, ss, total, t, data, boot)
    requires |d'| == |d| && Holds(d', ss, total, t, data, boot, w)
    requires forall x :: 0 <= x < |d| && OffWrites(x, ss, total, t, data, boot) ==> d'[x] == d[x]
    ensures Offered(ss, total, t, data) >= 0
    ensures VolumeRewritten(d, d', BootRegion(d, ss, data.startLba), ss, data.startLba, Offered(ss, total, t, data),
      boot)
  {
    hide ReadTable, DataPart, PlanBoot, PrimaryOk, VolumeLaid, SlotsLaid, BootMade, U32, U64, CeilDiv, OffWrites;
    hide GeometryOf, BootRegion, HeapAt, OldEnd;
    SceneOrdered(env, d, ss, total, t, data, boot);
    BootFacts(d, ss, data.startLba, Offered(ss, total, t, data), boot);
    HeapAndEnd(d, ss, data);
    VolumeIsKept(d, d', ss, total, t, data, boot, w, HeapAt(d, ss, data), OldEnd(d, ss, data));
  }

  lemma {:induction false} HeapAndEnd(d: seq<byte>, ss: nat, data: Part)
    requires SectorSizeOk(ss) && data.startLba * ss + 12 * ss <= |d|
    ensures var g := GeometryOf(BootRegion(d, ss, data.startLba));
      HeapAt(d, ss, data) == (data.startLba + g.heap) * ss && OldEnd(d, ss, data) == (data.startLba + g.blocks) * ss
  {
    hide U32, U64, Pow2;
  }

  lemma {:induction false} VolumeIsKept(
      d: seq<byte>, d': seq<byte>, ss: nat, total: nat, t: Table, data: Part, boot: BootPlan, w: Written, heapAt: nat,
      hi: nat)
    requires ss > 0 && EntriesAt(ss, total, t) >= 0 && |d| == total * ss && |d'| == |d| && |boot.bitmap.bytes| == 32
    requires Ordered(ss, total, t, data, boot, heapAt, hi, EntriesAt(ss, total, t))
    requires Holds(d', ss, total, t, data, boot, w)
    requires forall x :: 0 <= x < |d| && OffWrites(x, ss, total, t, data, boot) ==> d'[x] == d[x]
    ensures VolumeKept(d, d', ss, data.startLba, hi, boot.bitmap)
  {
    hide CeilDiv, EntriesAt;
    var lo := data.startLba * ss + 24 * ss;
    forall x | lo <= x < hi && !(boot.bitmap.at <= x < boot.bitmap.at + 32) ensures d'[x] == d[x] {
      assert OffWrites(x, ss, total, t, data, boot);
    }
  }

  lemma {:induction false} BootPlansAgain(
      d: seq<byte>, d': seq<byte>, region: seq<byte>, ss: nat, start: nat, newBlocks: nat, boot: BootPlan)
    requires newBlocks < U64_LIMIT && VolumeRewritten(d, d', region, ss, start, newBlocks, boot)
    ensures SectorSizeOk(ss) && PlanBoot(d', ss, start, newBlocks).Some?
    ensures PlanBoot(d', ss, start, newBlocks).value.grown == boot.grown
  {
    hide BootOk, PlanBitmap, EntryExact, VolumeOf, U32, U64, Pow2, RegionsAccepted, ClustersFit, VolumeKept;
    hide VolumeLaid, GrownRegion, GrownBlocks, GrownCount, LengthsOk, FixedFieldsOk, ChecksumOk;
    RegionAfter(d, d', region, ss, start, newBlocks, boot);
    VolumeAfter(d, d', region, ss, start, newBlocks, boot);
    GrownIsStable(GeometryOf(region), ss, newBlocks);
  }

  // ----- the theorems -----

  /** Equal boot regions under a valid checksum, and clusters that fit the volume and the FAT. */
  ghost predicate VolumeWellFormed(d: seq<byte>, ss: nat, start: nat, blocks: nat)
    requires SectorSizeOk(ss)
  {
    RegionsAccepted(d, ss, start, blocks) && ClustersFit(GeometryOf(BootRegion(d, ss, start)), ss)
  }

  /** The disk's table parses, with this data partition, whose volume is as long as it is. */
  ghost predicate WellFormed(env: Env, d: seq<byte>, ss: nat, t: Table, data: Part)
    requires SectorSizeOk(ss)
  {
    && ParsesAs(env, d, ss, t) && BackupAgrees(env, d, ss, t) && TableShape(t) && DataPart(env, t) == Some(data)
    && data.startLba <= data.endLba && VolumeWellFormed(d, ss, data.startLba, data.endLba - data.startLba + 1)
  }

  /** Same partitions in the same order, but for the end of the data partition. */
  ghost predicate SamePartitions(env: Env, t: Table, t': Table, data: Part, newEnd: nat) {
    && TableShape(t) && TableShape(t') && t'.count == t.count && t'.size == t.size && t'.at == t.at
    && var ps, qs := Parts(env, t.entries, t.size, t.count), Parts(env, t'.entries, t.size, t.count);
    && |qs| == |ps| && forall k :: 0 <= k < |ps| ==> qs[k] == Moved(ps[k], data, newEnd)
  }

  /**
   Growing a disk that fills its media and is laid out by the standards makes
   it well formed: the table parses with the backup header at the last block
   and the same partitions except for a later data end; both boot regions are
   equal and pass the checksum; the volume is as long as its partition; its
   clusters fit the volume and the FAT.
   */
  lemma {:induction false} GrowthIsWellFormed(env: Env, d: seq<byte>, ss: nat, grown: nat, patches: seq<Patch>)
    returns (t: Table, data: Part)
    requires SectorSizeOk(ss) && |d| / ss < U64_LIMIT && StandardLayout(env, d, ss)
    requires Plan(env, d, ss, |d|) == Grow(grown, patches)
    ensures ReadTable(env, d, ss) == Some(t) && DataPart(env, t) == Some(data)
    ensures TableShape(t) && data.index < t.count && 0 < grown && data.endLba <= data.startLba + grown - 1 < U64_LIMIT
    ensures var newEnd := data.startLba + grown - 1;
      && WellFormed(env, WriteAll(d, patches), ss, NewTable(t, data, newEnd), data.(endLba := newEnd))
      && SamePartitions(env, t, NewTable(t, data, newEnd), data, newEnd)
  {
    hide Plan, PlanBoot, ReadTable, DataPart, Laid, Patches, WriteAll, Parts, PartAt, CeilDiv, PrimaryOk, WellFormed;
    hide WrittenBy, Ordered, HeapAt, OldEnd, StandardLayout, Holds, OffWrites, NewEntries, FirstNamed;
    var boot;
    t, data, boot := PlanMakesReady(env, d, ss, grown, patches);
    var total := |d| / ss;
    AfterWrites(env, d, ss, total, t, data, boot);
    var newEnd := data.startLba + grown - 1;
    PartIndex(env, t.entries, t.size, t.count, data);
    PartsAfter(env, t, data, newEnd, t.count);
    DataPartAfter(env, t, data, newEnd);
    ReadyIsWellFormed(env, d, ss, total, t, data, boot, WriteAll(d, patches));
  }

  lemma {:induction false} ReadyIsWellFormed(
      env: Env, d: seq<byte>, ss: nat, total: nat, t: Table, data: Part, boot: BootPlan, d': seq<byte>)
    requires Ready(env, d, ss, total, t, data, boot)
    requires |d'| == |d| && Holds(d', ss, total, t, data, boot, WrittenBy(env, d, ss, total, t, data, boot))
    requires forall x :: 0 <= x < |d| && OffWrites(x, ss, total, t, data, boot) ==> d'[x] == d[x]
    ensures data.startLba + boot.grown - 1 < U64_LIMIT && TableShape(t) && data.index < t.count
    ensures var newEnd := data.startLba + boot.grown - 1;
      WellFormed(env, d', ss, NewTable(t, data, newEnd), data.(endLba := newEnd))
  {
    hide PlanBoot, ReadTable, PrimaryOk, Parts, PartAt, CeilDiv, WrittenBy, Ordered, HeapAt, OldEnd, Holds, OffWrites;
    hide VolumeRewritten, TableRewritten, ParsesAs, BackupAgrees, VolumeWellFormed, U64, NewEntries, DataPart;
    hide VolumeLaid, SlotsLaid, BootRegion;
    var newEnd := data.startLba + boot.grown - 1;
    var w := WrittenBy(env, d, ss, total, t, data, boot);
    TableIsRewritten(env, d, ss, total, t, data, boot, d');
    GrownTableParses(env, d', ss, total, t, data, newEnd, d[ss..2 * ss], EntriesAt(ss, total, t), w);
    DataPartAfter(env, t, data, newEnd);
    VolumeIsRewritten(env, d, ss, total, t, data, boot, d', w);
    RewrittenIsWellFormed(d, d', BootRegion(d, ss, data.startLba), ss, data.startLba, Offered(ss, total, t, data),
      boot);
  }

  lemma {:induction false} RewrittenIsWellFormed(
      d: seq<byte>, d': seq<byte>, region: seq<byte>, ss: nat, start: nat, newBlocks: nat, boot: BootPlan)
    requires VolumeRewritten(d, d', region, ss, start, newBlocks, boot)
    ensures SectorSizeOk(ss) && boot.grown > 0 && VolumeWellFormed(d', ss, start, boot.grown)
  {
    hide BootOk, EntryExact, PlanBitmap, VolumeOf, U32, U64, Pow2, ClustersFit, VolumeKept, VolumeLaid, BootMade;
    hide ChecksumOk, FixedFieldsOk;
    RegionAfter(d, d', region, ss, start, newBlocks, boot);
    VolumeAfter(d, d', region, ss, start, newBlocks, boot);
    GrownPositive(d, region, ss, start, newBlocks, boot);
    CountField(boot.region);
  }

  lemma {:induction false} CountField(region: seq<byte>)
    requires |region| >= 512
    ensures GeometryOf(region).count == U32(region, 92)
  {
    hide U32, U64, Pow2;
  }

  lemma {:induction false} GrownPositive(
      d: seq<byte>, region: seq<byte>, ss: nat, start: nat, newBlocks: nat, boot: BootPlan)
    requires BootMade(d, region, ss, start, newBlocks, boot)
    ensures boot.grown > 0
  {
    hide BootOk, PlanBitmap, VolumeOf, GrownRegion, U32, U64, Pow2, GrownBlocks, GrownCount, Capacity;
  }

  /**
   What the independent reader makes of the grown volume. Its boot checks pass
   exactly when the fields of the boot region that growth keeps suit it; its
   search of the root directory ends at an exact bitmap exactly when it ended
   at one before; and, for an up-case table of the old volume's clusters that
   shares none with the root directory, it takes the whole volume exactly when
   those fields suit it, the three entries and the up-case table are in order,
   and the bitmap's chain has exactly the length the new cluster count asks
   for. All that follows if it took the volume before.
   */
  lemma {:induction false} GrowthIsAccepted(
      env: Env, upcase: seq<byte> -> bool, d: seq<byte>, ss: nat, grown: nat, patches: seq<Patch>,
      root: seq<nat>, table: seq<nat>)
    returns (t: Table, data: Part, count: nat)
    requires SectorSizeOk(ss) && |d| / ss < U64_LIMIT && StandardLayout(env, d, ss)
    requires Plan(env, d, ss, |d|) == Grow(grown, patches)
    ensures ReadTable(env, d, ss) == Some(t) && DataPart(env, t) == Some(data) && data.startLba <= data.endLba
    ensures data.startLba * ss + 24 * ss <= |d| == |WriteAll(d, patches)|
    ensures count == U32(BootRegion(WriteAll(d, patches), ss, data.startLba), 92)
    ensures count == GrownCount(GeometryOf(BootRegion(d, ss, data.startLba)), ss, Offered(ss, |d| / ss, t, data))
    ensures BootAccepted(WriteAll(d, patches), ss, data.startLba, grown)
      <==> FixedFieldsOk(BootRegion(d, ss, data.startLba), ss)
    ensures BitmapShown(d, ss, data.startLba) <==> BitmapExact(WriteAll(d, patches), ss, data.startLba)
    ensures ChainsApart(root, table) && Inside(table, U32(BootRegion(d, ss, data.startLba), 92) + 2) ==>
      (VolumeAccepted(upcase, WriteAll(d, patches), ss, data.startLba, grown, root, table)
       <==> VolumeFits(upcase, d, ss, data.startLba, count, root, table))
    ensures VolumeAccepted(upcase, d, ss, data.startLba, data.endLba - data.startLba + 1, root, table) ==>
      && VolumeFits(upcase, d, ss, data.startLba, count, root, table)
      && Inside(table, U32(BootRegion(d, ss, data.startLba), 92) + 2)
  {
    hide Plan, PlanBoot, ReadTable, DataPart, Laid, Patches, WriteAll, Parts, PartAt, CeilDiv, PrimaryOk, WrittenBy;
    hide Ordered, HeapAt, OldEnd, StandardLayout, Holds, OffWrites, VolumeRewritten, FixedFieldsOk, Inside, U32;
    hide BootAccepted, BitmapShown, BitmapExact, VolumeAccepted, VolumeFits, ChainsApart, GrownCount, GeometryOf;
    var boot;
    t, data, boot := PlanMakesReady(env, d, ss, grown, patches);
    var total := |d| / ss;
    AfterWrites(env, d, ss, total, t, data, boot);
    var d', w := WriteAll(d, patches), WrittenBy(env, d, ss, total, t, data, boot);
    ReadyPart(env, d, ss, total, t, data, boot);
    VolumeIsRewritten(env, d, ss, total, t, data, boot, d', w);
    count := boot.newCount;
    ReaderAfter(upcase, d, d', ss, data.startLba, Offered(ss, total, t, data), boot, root, table,
                data.endLba - data.startLba + 1);
  }

  lemma {:induction false} ReadyPart(env: Env, d: seq<byte>, ss: nat, total: nat, t: Table, data: Part, boot: BootPlan)
    requires Ready(env, d, ss, total, t, data, boot)
    ensures SectorSizeOk(ss) && data.startLba * ss + 12 * ss <= |d|
    ensures TableShape(t) && data.startLba <= data.endLba
  {
    hide ReadTable, PlanBoot, Laid, CeilDiv, PrimaryOk, Ordered, HeapAt, OldEnd;
    PartIndex(env, t.entries, t.size, t.count, data);
  }

  lemma {:induction false} RewrittenCount(
      d: seq<byte>, d': seq<byte>, region: seq<byte>, ss: nat, start: nat, newBlocks: nat, boot: BootPlan)
    requires VolumeRewritten(d, d', region, ss, start, newBlocks, boot)
    ensures |region| >= 512 && boot.newCount == GrownCount(GeometryOf(region), ss, newBlocks)
  {
    hide VolumeKept, VolumeLaid, PlanBitmap, VolumeOf, BootOk, LengthsOk, GrownBlocks, GrownCount, U32, U64, Pow2;
  }

  lemma {:induction false} ReaderAfter(
      upcase: seq<byte> -> bool, d: seq<byte>, d': seq<byte>, ss: nat, start: nat, newBlocks: nat, boot: BootPlan,
      root: seq<nat>, table: seq<nat>, blocks: nat)
    requires SectorSizeOk(ss) && start * ss + 12 * ss <= |d|
    requires VolumeRewritten(d, d', BootRegion(d, ss, start), ss, start, newBlocks, boot)
    ensures start * ss + 24 * ss <= |d| == |d'| && U32(BootRegion(d', ss, start), 92) == boot.newCount
    ensures boot.newCount == GrownCount(GeometryOf(BootRegion(d, ss, start)), ss, newBlocks)
    ensures BootAccepted(d', ss, start, boot.grown) <==> FixedFieldsOk(BootRegion(d, ss, start), ss)
    ensures BitmapShown(d, ss, start) <==> BitmapExact(d', ss, start)
    ensures ChainsApart(root, table) && Inside(table, U32(BootRegion(d, ss, start), 92) + 2) ==>
      (VolumeAccepted(upcase, d', ss, start, boot.grown, root, table)
       <==> VolumeFits(upcase, d, ss, start, boot.newCount, root, table))
    ensures VolumeAccepted(upcase, d, ss, start, blocks, root, table) ==>
      && VolumeFits(upcase, d, ss, start, boot.newCount, root, table)
      && Inside(table, U32(BootRegion(d, ss, start), 92) + 2)
  {
    hide *;
    var region := BootRegion(d, ss, start);
    RewrittenRegion(d, d', region, ss, start, newBlocks, boot);
    RewrittenCount(d, d', region, ss, start, newBlocks, boot);
    BitmapAfter(d, d', region, ss, start, newBlocks, boot);
    BootAcceptedAfter(d, d', region, ss, start, newBlocks, boot);
    if VolumeAccepted(upcase, d, ss, start, blocks, root, table) {
      AcceptedFits(upcase, d, d', region, ss, start, newBlocks, boot, blocks, root, table);
    }
    if ChainsApart(root, table) && Inside(table, U32(region, 92) + 2) {
      VolumeAcceptedAfter(upcase, d, d', region, ss, start, newBlocks, boot, root, table);
    }
  }

  /** Growing is idempotent: run again on the same media, the grower finds nothing to do. */
  lemma {:induction false} GrowthIsIdempotent(env: Env, d: seq<byte>, ss: nat, grown: nat, patches: seq<Patch>)
    requires SectorSizeOk(ss) && |d| / ss < U64_LIMIT && StandardLayout(env, d, ss)
    requires Plan(env, d, ss, |d|) == Grow(grown, patches)
    ensures |WriteAll(d, patches)| == |d| && Plan(env, WriteAll(d, patches), ss, |d|) == AlreadyGrown
  {
    hide PlanBoot, ReadTable, DataPart, Laid, Patches, WriteAll, Parts, PartAt, CeilDiv, PrimaryOk, WrittenBy;
    hide Ordered, HeapAt, OldEnd, PlanData, Ready;
    var t, data, boot := PlanMakesReady(env, d, ss, grown, patches);
    AfterWrites(env, d, ss, |d| / ss, t, data, boot);
    PlanIsBigEnough(env, d, ss, grown, patches);
    hide Plan;
    PlansNothing(env, d, ss, |d| / ss, t, data, boot, WriteAll(d, patches));
  }

  lemma {:induction false} PlanIsBigEnough(env: Env, d: seq<byte>, ss: nat, grown: nat, patches: seq<Patch>)
    requires SectorSizeOk(ss) && |d| / ss < U64_LIMIT && Plan(env, d, ss, |d|) == Grow(grown, patches)
    ensures |d| % ss == 0 && |d| / ss > 128
  {
    hide ReadTable, DataPart, PlanData;
  }

  lemma {:induction false} PlansNothing(
      env: Env, d: seq<byte>, ss: nat, total: nat, t: Table, data: Part, boot: BootPlan, d': seq<byte>)
    requires ss > 0 && Ready(env, d, ss, total, t, data, boot)
    requires |d'| == |d| && Holds(d', ss, total, t, data, boot, WrittenBy(env, d, ss, total, t, data, boot))
    requires forall x :: 0 <= x < |d| && OffWrites(x, ss, total, t, data, boot) ==> d'[x] == d[x]
    requires |d| % ss == 0 && total == |d| / ss > 128
    ensures SectorSizeOk(ss) && |d| / ss < U64_LIMIT && Plan(env, d', ss, |d|) == AlreadyGrown
  {
    hide PlanBoot, ReadTable, PrimaryOk, Parts, PartAt, CeilDiv, WrittenBy, Ordered, HeapAt, OldEnd, Holds, OffWrites;
    hide VolumeRewritten, TableRewritten, U64, NewEntries, DataPart, VolumeLaid, SlotsLaid, BootRegion, Patches;
    var newEnd := data.startLba + boot.grown - 1;
    var w := WrittenBy(env, d, ss, total, t, data, boot);
    TableIsRewritten(env, d, ss, total, t, data, boot, d');
    TableAfter(env, d', ss, total, t, data, newEnd, d[ss..2 * ss], EntriesAt(ss, total, t), w);
    DataPartAfter(env, t, data, newEnd);
    VolumeIsRewritten(env, d, ss, total, t, data, boot, d', w);
    BootPlansAgain(d, d', BootRegion(d, ss, data.startLba), ss, data.startLba, Offered(ss, total, t, data), boot);
  }

  // ----- the footprint -----

  /** The bytes a growth may change. */
  ghost predicate MayChange(x: nat, ss: nat, total: nat, t: Table, data: Part, bitmapAt: nat)
    requires ss > 0
  {
    var boot := data.startLba * ss;
    || 0x1CA <= x < 0x1CE
    || ss <= x < 2 * ss
    || t.at <= x < t.at + |t.entries|
    || (boot <= x < boot + 12 * ss && !FixedByte(ss, x - boot))
    || boot + 12 * ss <= x < boot + 24 * ss
    || bitmapAt + 24 <= x < bitmapAt + 32
    || EntriesAt(ss, total, t) * ss <= x < EntriesAt(ss, total, t) * ss + |t.entries|
    || (total - 1) * ss <= x
  }

  /**
   A growth changes no byte but these: in the old volume, its boot regions
   and the eight bytes of the bitmap's length.
   */
  lemma {:induction false} GrowthFootprint(env: Env, d: seq<byte>, ss: nat, grown: nat, patches: seq<Patch>, x: nat)
    returns (t: Table, data: Part, bitmapAt: nat)
    requires SectorSizeOk(ss) && |d| / ss < U64_LIMIT && StandardLayout(env, d, ss)
    requires Plan(env, d, ss, |d|) == Grow(grown, patches) && x < |d|
    ensures ReadTable(env, d, ss) == Some(t) && DataPart(env, t) == Some(data)
    ensures data.startLba * ss + 12 * ss <= |d| && HeapAt(d, ss, data) <= bitmapAt
      && bitmapAt + 32 <= OldEnd(d, ss, data)
    ensures |WriteAll(d, patches)| == |d|
    ensures WriteAll(d, patches)[x] != d[x] ==> MayChange(x, ss, |d| / ss, t, data, bitmapAt)
  {
    hide Plan, PlanBoot, ReadTable, DataPart, Laid, Patches, WriteAll, Parts, PartAt, CeilDiv, PrimaryOk, WrittenBy;
    hide HeapAt, OldEnd, MayChange, OffWrites;
    var boot;
    t, data, boot := PlanMakesReady(env, d, ss, grown, patches);
    bitmapAt := boot.bitmap.at;
    AfterWrites(env, d, ss, |d| / ss, t, data, boot);
    ChangedByte(env, d, ss, |d| / ss, t, data, boot, WriteAll(d, patches), x);
  }

  lemma {:induction false} ChangedByte(
      env: Env, d: seq<byte>, ss: nat, total: nat, t: Table, data: Part, boot: BootPlan, d': seq<byte>, x: nat)
    requires Ready(env, d, ss, total, t, data, boot) && x < |d|
    requires |d'| == |d| && Holds(d', ss, total, t, data, boot, WrittenBy(env, d, ss, total, t, data, boot))
    requires forall x :: 0 <= x < |d| && OffWrites(x, ss, total, t, data, boot) ==> d'[x] == d[x]
    ensures ss > 0 && (d'[x] != d[x] ==> MayChange(x, ss, total, t, data, boot.bitmap.at))
  {
    hide PlanBoot, ReadTable, PrimaryOk, Parts, PartAt, CeilDiv, Ordered, HeapAt, OldEnd, U64, U32, DataPart;
    hide VolumeLaid, SlotsLaid, Patches, EntriesAt, FixedByte, BootMade, VolumeKept, NewHeader, BackupHeader;
    hide NewEntries, NewMbr, BootRegion;
    var w := WrittenBy(env, d, ss, total, t, data, boot);
    VolumeIsRewritten(env, d, ss, total, t, data, boot, d', w);
    var at := data.startLba * ss;
    if x < ss {
      if !(0x1CA <= x < 0x1CE) { MbrByte(d, d', ss, total, x); }
    } else if at <= x < at + 12 * ss {
      if FixedByte(ss, x - at) { BootByte(d, d', ss, data.startLba, Offered(ss, total, t, data), boot, x); }
    } else if boot.bitmap.at <= x < boot.bitmap.at + 24 {
      BitmapByte(d, d', ss, data.startLba, Offered(ss, total, t, data), boot, x);
    }
  }

  lemma {:induction false} MbrByte(d: seq<byte>, d': seq<byte>, ss: nat, total: nat, x: nat)
    requires SectorSizeOk(ss) && |d| >= 2 * ss && |d'| >= 2 * ss && total > 0 && d'[..ss] == NewMbr(d, ss, total)
    requires x < ss && !(0x1CA <= x < 0x1CE)
    ensures d'[x] == d[x]
  {
    assert d'[x] == d'[..ss][x] && d[x] == d[..ss][x];
  }

  lemma {:induction false} BootByte(
      d: seq<byte>, d': seq<byte>, ss: nat, start: nat, newBlocks: nat, boot: BootPlan, x: nat)
    requires start * ss + 12 * ss <= |d| && VolumeRewritten(d, d', BootRegion(d, ss, start), ss, start, newBlocks, boot)
    requires start * ss <= x && FixedByte(ss, x - start * ss)
    ensures x < |d| && x < |d'| && d'[x] == d[x]
  {
    hide BootOk, PlanBitmap, VolumeOf, U32, U64, Pow2, GrownRegion, GrownBlocks, GrownCount, LengthsOk, VolumeKept;
    hide VolumeLaid;
    var at := start * ss;
    GrownRegionFields(BootRegion(d, ss, start), ss, boot.grown, boot.newCount);
    assert d'[x] == d'[at..at + 12 * ss][x - at] && d[x] == BootRegion(d, ss, start)[x - at];
  }

  lemma {:induction false} BitmapByte(
      d: seq<byte>, d': seq<byte>, ss: nat, start: nat, newBlocks: nat, boot: BootPlan, x: nat)
    requires start * ss + 12 * ss <= |d| && VolumeRewritten(d, d', BootRegion(d, ss, start), ss, start, newBlocks, boot)
    requires boot.bitmap.at <= x < boot.bitmap.at + 24
    ensures x < |d| && x < |d'| && d'[x] == d[x]
  {
    hide BootMade, PlanBitmap, VolumeOf, U32, U64, Pow2, VolumeLaid, PutU64, CeilDiv, ChainOf, FindBitmap, BootRegion;
    var region := BootRegion(d, ss, start);
    MadeBitmap(d, region, ss, start, newBlocks, boot);
    var vol := VolumeOf(d, ss, start, region, GeometryOf(region).count);
    var g := GeometryOf(region);
    var root, first, chain := BitmapFacts(d, vol, U32(region, 96), g.count, boot.newCount, boot.bitmap);
    EntryByte(d, d', boot.bitmap, boot.newCount, x);
  }

  lemma {:induction false} EntryByte(d: seq<byte>, d': seq<byte>, bitmap: Patch, count: nat, x: nat)
    requires bitmap.at + 32 <= |d| && |d'| == |d| && count < U32_LIMIT
    requires bitmap.bytes == PutU64(d[bitmap.at..bitmap.at + 32], 24, CeilDiv(count, 8))
    requires d'[bitmap.at..bitmap.at + 32] == bitmap.bytes && bitmap.at <= x < bitmap.at + 24
    ensures d'[x] == d[x]
  {
    assert d'[x] == d'[bitmap.at..bitmap.at + 32][x - bitmap.at];
    assert d[x] == d[bitmap.at..bitmap.at + 32][x - bitmap.at];
  }

  /** The bytes of every other partition stay as they were. */
  lemma {:induction false} GrowthKeepsPartitions(
      env: Env, d: seq<byte>, ss: nat, grown: nat, patches: seq<Patch>, p: Part, x: nat)
    requires SectorSizeOk(ss) && |d| / ss < U64_LIMIT && StandardLayout(env, d, ss)
    requires Plan(env, d, ss, |d|) == Grow(grown, patches) && x < |d|
    requires var t := ReadTable(env, d, ss).value;
      p in Parts(env, t.entries, t.size, t.count) && p != DataPart(env, t).value
    requires p.startLba * ss <= x < (p.endLba + 1) * ss
    ensures x < |WriteAll(d, patches)| && WriteAll(d, patches)[x] == d[x]
  {
    hide Plan, PlanBoot, ReadTable, DataPart, Patches, WriteAll, PrimaryOk, WrittenBy, HeapAt, OldEnd, Parts, PartAt;
    hide CeilDiv, U64, Laid, OffWrites;
    var t, data, boot := PlanMakesReady(env, d, ss, grown, patches);
    AfterWrites(env, d, ss, |d| / ss, t, data, boot);
    PartPlace(env, d, ss, |d| / ss, t, data, boot, p, x);
  }

  lemma {:induction false} PartPlace(
      env: Env, d: seq<byte>, ss: nat, total: nat, t: Table, data: Part, boot: BootPlan, p: Part, x: nat)
    requires Ready(env, d, ss, total, t, data, boot)
    requires p in Parts(env, t.entries, t.size, t.count) && p != data
    requires p.startLba * ss <= x < (p.endLba + 1) * ss
    ensures ss > 0 && OffWrites(x, ss, total, t, data, boot)
  {
    hide PlanBoot, ReadTable, PrimaryOk, Parts, CeilDiv, HeapAt, OldEnd, VolumeLaid, Patches, EntriesAt, BootRegion;
    hide Entry, U64, U32;
    PartIndex(env, t.entries, t.size, t.count, p);
    PartIndex(env, t.entries, t.size, t.count, data);
    assert SlotLaid(t, U64(d[ss..2 * ss], 40), data, p.index);
    MulMonotone(U64(d[ss..2 * ss], 40), p.startLba, ss);
    MulMonotone(p.endLba + 1, data.startLba, ss);
  }
}
