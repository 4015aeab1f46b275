/**
 Growing in steps: a grown disk is laid out as before, and a later growth
 makes the writes an earlier one would have made.
 */
module GrowSteps {
  import opened Common
  import opened Bytes
  import opened ClusterFiles
  import opened GrowPlan
  import opened GrowLayout
  import opened GrowEffect
  import opened GrowGpt
  import opened GrowExfat
  import opened GrowVolume
  import opened GrowTheorems

  // ----- writing a field twice -----

  lemma {:induction false} Put64Again(a: seq<byte>, b: seq<byte>, o: nat, v: nat)
    requires |a| == |b| && o + 8 <= |a| && v < U64_LIMIT
    requires forall x :: 0 <= x < |a| && !(o <= x < o + 8) ==> a[x] == b[x]
    ensures PutU64(a, o, v) == PutU64(b, o, v)
  {
    FieldEqual64(a, b, o, v);
  }

  lemma {:induction false} Put32Again(a: seq<byte>, b: seq<byte>, o: nat, v: nat)
    requires |a| == |b| && o + 4 <= |a| && v < U32_LIMIT
    requires forall x :: 0 <= x < |a| && !(o <= x < o + 4) ==> a[x] == b[x]
    ensures PutU32(a, o, v) == PutU32(b, o, v)
  {
    FieldEqual32(a, b, o, v);
  }

  /** A byte of the primary header that growth writes. */
  predicate HeaderByte(x: int) { 16 <= x < 20 || 32 <= x < 40 || 48 <= x < 56 || 88 <= x < 92 }

  ghost predicate SameHeader(h: seq<byte>, h': seq<byte>) {
    |h'| == |h| && forall x :: 0 <= x < |h| && !HeaderByte(x) ==> h'[x] == h[x]
  }

  lemma {:induction false} HeaderAgain(
      env: Env, h: seq<byte>, h': seq<byte>, last: nat, lastUsable: nat, entries: seq<byte>)
    requires |h| >= 512 && 92 <= U32(h, 12) <= |h| && last < U64_LIMIT && lastUsable < U64_LIMIT && SameHeader(h, h')
    ensures U32(h', 12) == U32(h, 12)
      && NewHeader(env, h', last, lastUsable, entries) == NewHeader(env, h, last, lastUsable, entries)
  {
    hide PutU32, PutU64, Sealed;
    var a, b := PutU64(h, 32, last), PutU64(h', 32, last);
    var a2, b2 := PutU64(a, 48, lastUsable), PutU64(b, 48, lastUsable);
    var a3, b3 := PutU32(a2, 88, env.crc(entries)), PutU32(b2, 88, env.crc(entries));
    FieldEqual64(h, h', 32, last);
    FieldEqual64(a, b, 48, lastUsable);
    FieldEqual32(a2, b2, 88, env.crc(entries));
    SealedAgain(env, a3, b3);
  }

  lemma {:induction false} FieldEqual64(a: seq<byte>, b: seq<byte>, o: nat, v: nat)
    requires |a| == |b| && o + 8 <= |a| && v < U64_LIMIT
    ensures forall x :: o <= x < o + 8 ==> PutU64(a, o, v)[x] == PutU64(b, o, v)[x]
  {
    assert forall x :: o <= x < o + 8 ==> PutU64(a, o, v)[x] == Le64(v)[x - o] == PutU64(b, o, v)[x];
  }

  lemma {:induction false} FieldEqual32(a: seq<byte>, b: seq<byte>, o: nat, v: nat)
    requires |a| == |b| && o + 4 <= |a| && v < U32_LIMIT
    ensures forall x :: o <= x < o + 4 ==> PutU32(a, o, v)[x] == PutU32(b, o, v)[x]
  {
    assert forall x :: o <= x < o + 4 ==> PutU32(a, o, v)[x] == Le32(v)[x - o] == PutU32(b, o, v)[x];
  }

  lemma {:induction false} SealedAgain(env: Env, a: seq<byte>, b: seq<byte>)
    requires |a| == |b| && |a| >= 512 && 92 <= U32(a, 12) <= |a|
    requires forall x :: 0 <= x < |a| && !(16 <= x < 20) ==> a[x] == b[x]
    ensures U32(b, 12) == U32(a, 12) && Sealed(env, a) == Sealed(env, b)
  {
    hide PutU32;
    Put32Again(a, b, 16, 0);
  }

  lemma {:induction false} HeaderIsSame(env: Env, h: seq<byte>, last: nat, lastUsable: nat, entries: seq<byte>)
    requires |h| >= 512 && 92 <= U32(h, 12) <= |h| && last < U64_LIMIT && lastUsable < U64_LIMIT
    ensures SameHeader(h, NewHeader(env, h, last, lastUsable, entries))
  {
    hide Sealed, U32, U64;
  }

  lemma {:induction false} MbrAgain(d: seq<byte>, d': seq<byte>, ss: nat, total: nat, total': nat)
    requires SectorSizeOk(ss) && |d| >= 2 * ss && |d'| >= 2 * ss && total > 0 && total' > 0
      && d'[..ss] == NewMbr(d, ss, total)
    ensures NewMbr(d', ss, total') == NewMbr(d, ss, total')
  {
    hide PutU32;
    Put32Again(d'[..ss], d[..ss], 0x1BE + 12, Min(total' - 1, 0xFFFF_FFFF));
  }

  lemma {:induction false} EntriesAgain(t: Table, data: Part, end: nat, end': nat)
    requires TableShape(t) && data.index < t.count && end < U64_LIMIT && end' < U64_LIMIT
    ensures NewEntries(NewTable(t, data, end), data.(endLba := end), end') == NewEntries(t, data, end')
  {
    hide PutU64;
    MulMonotone(data.index + 1, t.count, t.size);
    MulAdd(data.index, 1, t.size);
    Put64Again(NewEntries(t, data, end), t.entries, data.index * t.size + 40, end');
  }

  lemma {:induction false} RegionAgain(region: seq<byte>, ss: nat, grown: nat, count: nat, grown': nat, count': nat)
    requires SectorSizeOk(ss) && |region| == 12 * ss
    requires grown < U64_LIMIT && count < U32_LIMIT && grown' < U64_LIMIT && count' < U32_LIMIT
    ensures GrownRegion(GrownRegion(region, ss, grown, count), ss, grown', count')
      == GrownRegion(region, ss, grown', count')
  {
    hide WithChecksum, PutU64, PutU32;
    var once := GrownRegion(region, ss, grown, count);
    var a, b := PutU64(once, 72, grown'), PutU64(region, 72, grown');
    FieldEqual64(once, region, 72, grown');
    FieldEqual32(a, b, 92, count');
    ChecksumAgain(PutU32(a, 92, count'), PutU32(b, 92, count'), ss);
  }

  lemma {:induction false} ChecksumAgain(a: seq<byte>, b: seq<byte>, ss: nat)
    requires SectorSizeOk(ss) && |a| == 12 * ss && |b| == 12 * ss && forall x :: 0 <= x < 11 * ss ==> a[x] == b[x]
    ensures WithChecksum(a, ss) == WithChecksum(b, ss)
  {
    hide Checksum, Filled;
    ChecksumLocal(a, b, 11 * ss);
    assert a[..11 * ss] == b[..11 * ss];
  }

  // ----- the figures -----

  /** Growing to less first changes none of the figures of growing to more. */
  lemma {:induction false} GrownTwice(g: Geometry, ss: nat, newBlocks: nat, newBlocks': nat)
    requires LengthsOk(g, ss, newBlocks) && newBlocks <= newBlocks'
    ensures var g' := g.(blocks := GrownBlocks(g, ss, newBlocks), count := GrownCount(g, ss, newBlocks));
      && LengthsOk(g, ss, newBlocks') && LengthsOk(g', ss, newBlocks')
      && GrownBlocks(g', ss, newBlocks') == GrownBlocks(g, ss, newBlocks') >= g'.blocks
      && GrownCount(g', ss, newBlocks') == GrownCount(g, ss, newBlocks') >= g'.count
  {
    GrownFits(g, ss, newBlocks);
    GrownFits(g, ss, newBlocks');
    DivMonotone(GrownBlocks(g, ss, newBlocks) - g.heap, GrownBlocks(g, ss, newBlocks') - g.heap, g.spc);
  }

  /** The bitmap's new entry is the same whether the disk has been grown before or not. */
  lemma {:induction false} BitmapTwice(
      d: seq<byte>, d': seq<byte>, vol: Volume, rootCluster: nat, oldCount: nat, count: nat, newCount: nat,
      bitmap: Patch, hi: nat)
    requires VolumeShape(vol) && count < U32_LIMIT && newCount < U32_LIMIT && vol.limit == oldCount + 2
      && oldCount <= count
    requires 0 <= vol.heapLba && (vol.heapLba + oldCount * vol.sectorsPerCluster) * vol.sectorSize <= hi
    requires SameHeads(d, d', vol.heapLba * vol.sectorSize, hi) && bitmap.at + 32 <= |d|
    requires U64(d', bitmap.at + 24) == CeilDiv(count, 8)
    requires forall x :: bitmap.at <= x < bitmap.at + 24 ==> d'[x] == d[x]
    requires PlanBitmap(d, vol, rootCluster, oldCount, count) == Some(bitmap)
    ensures PlanBitmap(d', vol.(limit := count + 2), rootCluster, count, newCount)
         == PlanBitmap(d, vol, rootCluster, oldCount, newCount)
    ensures var again := PlanBitmap(d, vol, rootCluster, oldCount, newCount);
      again.Some? ==> again.value.at == bitmap.at
  {
    hide FindBitmap, ChainOf, CeilDiv, PutU64, U64;
    EighthIsSmall(newCount);
    var root, first, chain := BitmapFacts(d, vol, rootCluster, oldCount, count, bitmap);
    WiderChain(vol, count + 2, rootCluster);
    WiderChain(vol, count + 2, first);
    ChainInside(vol, rootCluster, root);
    FindBitmapSame(d, d', vol, count + 2, root, hi);
    var at := bitmap.at;
    Put64Again(d'[at..at + 32], d[at..at + 32], 24, CeilDiv(newCount, 8));
  }

  /** The bitmap's entry at `at` gives `size`, and is as before up to there; so are all entries from `lo` to `hi`. */
  ghost predicate EntrySized(d: seq<byte>, d': seq<byte>, at: nat, size: nat, lo: nat, hi: nat) {
    && at + 32 <= |d| && |d'| == |d| && U64(d', at + 24) == size
    && (forall x :: at <= x < at + 24 ==> d'[x] == d[x])
    && SameHeads(d, d', lo, hi)
  }

  lemma {:induction false} EntryOnGrown(
      d: seq<byte>, d': seq<byte>, region: seq<byte>, ss: nat, start: nat, newBlocks: nat, boot: BootPlan, g: Geometry,
      lo: nat, hi: nat)
    requires |region| >= 512 && g == GeometryOf(region)
    requires lo == (start + g.heap) * ss && hi == (start + g.blocks) * ss
    requires VolumeRewritten(d, d', region, ss, start, newBlocks, boot)
    ensures EntrySized(d, d', boot.bitmap.at, CeilDiv(boot.newCount, 8), lo, hi)
  {
    hide BootMade, PlanBitmap, VolumeOf, U32, U64, Pow2, VolumeLaid, CeilDiv, PutU64;
    MadeBitmap(d, region, ss, start, newBlocks, boot);
    PlacesAfter(d, d', region, ss, start, newBlocks, boot);
    EighthIsSmall(boot.newCount);
    var vol := VolumeOf(d, ss, start, region, g.count);
    var root, first, chain := BitmapFacts(d, vol, U32(region, 96), g.count, boot.newCount, boot.bitmap);
    EntryHead(d, d', ss, start, hi, boot.bitmap, CeilDiv(boot.newCount, 8));
    hide VolumeKept;
    forall x | boot.bitmap.at <= x < boot.bitmap.at + 24 ensures d'[x] == d[x] {
      EntryByte(d, d', boot.bitmap, boot.newCount, x);
    }
  }

  /** The volume on the grown disk, as it is planned for again. */
  ghost predicate PlansSame(
      d: seq<byte>, d': seq<byte>, vol: Volume, vol': Volume, root: nat, count: nat, count': nat, newCount: nat,
      at: nat)
  {
    && VolumeShape(vol) && VolumeShape(vol') && newCount < U32_LIMIT
    && PlanBitmap(d', vol', root, count', newCount) == PlanBitmap(d, vol, root, count, newCount)
    && var again := PlanBitmap(d, vol, root, count, newCount); again.Some? ==> again.value.at == at
  }

  lemma {:induction false} BitmapOnGrown(
      d: seq<byte>, d': seq<byte>, region: seq<byte>, ss: nat, start: nat, newBlocks: nat, boot: BootPlan,
      newCount: nat)
    requires VolumeRewritten(d, d', region, ss, start, newBlocks, boot) && newCount < U32_LIMIT
    ensures |region| >= 512 && |boot.region| >= 512
    ensures PlansSame(d, d', VolumeOf(d, ss, start, region, GeometryOf(region).count),
                      VolumeOf(d', ss, start, boot.region, boot.newCount), U32(region, 96),
                      GeometryOf(region).count, boot.newCount, newCount, boot.bitmap.at)
  {
    hide BootMade, PlanBitmap, VolumeOf, U32, U64, Pow2, VolumeKept, VolumeLaid, CeilDiv, GeometryOf, SameHeads;
    hide VolumeRewritten;
    MadeAgain(d, d', region, ss, start, newBlocks, boot);
    WidenedAfter(d, d', region, ss, start, newBlocks, boot);
    PlacesAfter(d, d', region, ss, start, newBlocks, boot);
    var g := GeometryOf(region);
    EntryOnGrown(d, d', region, ss, start, newBlocks, boot, g, (start + g.heap) * ss, (start + g.blocks) * ss);
    BitmapTwice(d, d', VolumeOf(d, ss, start, region, g.count), U32(region, 96), g.count, boot.newCount, newCount,
                boot.bitmap, (start + g.blocks) * ss);
  }

  lemma {:induction false} MadeAgain(
      d: seq<byte>, d': seq<byte>, region: seq<byte>, ss: nat, start: nat, newBlocks: nat, boot: BootPlan)
    requires VolumeRewritten(d, d', region, ss, start, newBlocks, boot)
    ensures SectorSizeOk(ss) && |region| >= 512 && boot.newCount < U32_LIMIT
    ensures var g, vol := GeometryOf(region), VolumeOf(d, ss, start, region, GeometryOf(region).count);
      && vol.heapLba == start + g.heap && vol.limit == g.count + 2 && vol.sectorsPerCluster == g.spc
      && vol.sectorSize == ss && VolumeShape(vol)
      && PlanBitmap(d, vol, U32(region, 96), g.count, boot.newCount) == Some(boot.bitmap)
  {
    hide BootMade, PlanBitmap, VolumeOf, U32, U64, Pow2, VolumeKept, VolumeLaid;
    MadeBitmap(d, region, ss, start, newBlocks, boot);
  }

  /** The planner reaches the same decision about the volume before and after a smaller growth. */
  lemma {:induction false} BootTwice(
      d: seq<byte>, d': seq<byte>, region: seq<byte>, ss: nat, start: nat, newBlocks: nat, boot: BootPlan,
      newBlocks': nat)
    requires VolumeRewritten(d, d', region, ss, start, newBlocks, boot) && newBlocks <= newBlocks' < U64_LIMIT
    requires start * ss + 12 * ss <= |d| && region == BootRegion(d, ss, start)
    ensures SectorSizeOk(ss) && PlanBoot(d', ss, start, newBlocks') == PlanBoot(d, ss, start, newBlocks')
    ensures var again := PlanBoot(d, ss, start, newBlocks');
      again.Some? ==> again.value.bitmap.at == boot.bitmap.at && boot.grown <= again.value.grown
  {
    hide BootOk, PlanBitmap, VolumeOf, U32, U64, Pow2, RegionsAccepted, ClustersFit, VolumeKept, VolumeLaid;
    hide GrownRegion, GrownBlocks, GrownCount, LengthsOk, FixedFieldsOk, ChecksumOk;
    var g := GeometryOf(region);
    RegionAfter(d, d', region, ss, start, newBlocks, boot);
    GrownTwice(g, ss, newBlocks, newBlocks');
    GrownFits(g, ss, newBlocks');
    var grown, count := GrownBlocks(g, ss, newBlocks'), GrownCount(g, ss, newBlocks');
    BitmapOnGrown(d, d', region, ss, start, newBlocks, boot, count);
    RegionAgain(region, ss, boot.grown, boot.newCount, grown, count);
  }

  // ----- the layout -----

  lemma {:induction false} SlotKept(t: Table, first: nat, data: Part, newEnd: nat, i: nat)
    requires TableShape(t) && data.index < t.count && data.startLba <= newEnd < U64_LIMIT && i < t.count
    requires SlotLaid(t, first, data, i)
    requires i == data.index ==> U64(Entry(t.entries, t.size, i), 32) == data.startLba
    ensures SlotLaid(NewTable(t, data, newEnd), first, data.(endLba := newEnd), i)
  {
    hide NewEntries, Entry, PutU64, U64, U32;
    EntryAfter(t, data, newEnd, i);
    EndPutOnly(Entry(t.entries, t.size, i), newEnd);
  }

  lemma {:induction false} VolumeLaidAfter(
      d: seq<byte>, d': seq<byte>, region: seq<byte>, ss: nat, start: nat, newBlocks: nat, boot: BootPlan)
    requires VolumeRewritten(d, d', region, ss, start, newBlocks, boot)
    ensures |boot.region| >= 512 && VolumeLaid(boot.region) && |boot.region| == 12 * ss
    ensures start * ss + 12 * ss <= |d'| && BootRegion(d', ss, start) == boot.region
  {
    hide BootMade, U32, U64, Pow2, VolumeKept, BootOk, FixedFieldsOk, RegionsAccepted;
    RegionAfter(d, d', region, ss, start, newBlocks, boot);
  }

  lemma {:induction false} SlotsKept(env: Env, t: Table, first: nat, data: Part, newEnd: nat)
    requires TableShape(t) && DataPart(env, t) == Some(data) && data.startLba <= newEnd < U64_LIMIT
    requires SlotsLaid(t, first, data)
    ensures data.index < t.count && SlotsLaid(NewTable(t, data, newEnd), first, data.(endLba := newEnd))
  {
    hide DataPart, SlotLaid, Entry, NewEntries;
    DataSlot(env, t, data);
    forall i | 0 <= i < t.count ensures SlotLaid(NewTable(t, data, newEnd), first, data.(endLba := newEnd), i) {
      SlotKept(t, first, data, newEnd, i);
    }
  }

  /** The grown disk is laid out by the standards again, so that every theorem about growth applies to it. */
  lemma {:induction false} GrowthKeepsLayout(env: Env, d: seq<byte>, ss: nat, grown: nat, patches: seq<Patch>)
    requires SectorSizeOk(ss) && |d| / ss < U64_LIMIT && StandardLayout(env, d, ss)
    requires Plan(env, d, ss, |d|) == Grow(grown, patches)
    ensures |WriteAll(d, patches)| == |d| && StandardLayout(env, WriteAll(d, patches), ss)
  {
    hide Plan, PlanBoot, ReadTable, DataPart, Laid, Patches, WriteAll, Parts, PartAt, CeilDiv, PrimaryOk, WrittenBy;
    hide Ordered, HeapAt, OldEnd, StandardLayout, Holds, OffWrites;
    var t, data, boot := PlanMakesReady(env, d, ss, grown, patches);
    AfterWrites(env, d, ss, |d| / ss, t, data, boot);
    ReadyKeepsLayout(env, d, ss, |d| / ss, t, data, boot, WriteAll(d, patches));
  }

  lemma {:induction false} ReadyKeepsLayout(
      env: Env, d: seq<byte>, ss: nat, total: nat, t: Table, data: Part, boot: BootPlan, d': seq<byte>)
    requires Ready(env, d, ss, total, t, data, boot)
    requires |d'| == |d| && Holds(d', ss, total, t, data, boot, WrittenBy(env, d, ss, total, t, data, boot))
    requires forall x :: 0 <= x < |d| && OffWrites(x, ss, total, t, data, boot) ==> d'[x] == d[x]
    ensures SectorSizeOk(ss) && StandardLayout(env, d', ss)
  {
    hide PlanBoot, ReadTable, PrimaryOk, Parts, PartAt, CeilDiv, WrittenBy, Ordered, HeapAt, OldEnd, Holds, OffWrites;
    hide VolumeRewritten, TableRewritten, U64, NewEntries, DataPart, VolumeLaid, SlotsLaid, BootRegion;
    var newEnd := data.startLba + boot.grown - 1;
    var w := WrittenBy(env, d, ss, total, t, data, boot);
    TableIsRewritten(env, d, ss, total, t, data, boot, d');
    TableAfter(env, d', ss, total, t, data, newEnd, d[ss..2 * ss], EntriesAt(ss, total, t), w);
    DataPartAfter(env, t, data, newEnd);
    VolumeIsRewritten(env, d, ss, total, t, data, boot, d', w);
    VolumeLaidAfter(d, d', BootRegion(d, ss, data.startLba), ss, data.startLba, Offered(ss, total, t, data), boot);
    SlotsKept(env, t, U64(d[ss..2 * ss], 40), data, newEnd);
  }

  // ----- a longer disk -----

  lemma {:induction false} TableLonger(env: Env, c: seq<byte>, rest: seq<byte>, ss: nat, t: Table)
    requires SectorSizeOk(ss) && ReadTable(env, c, ss) == Some(t)
    ensures ReadTable(env, c + rest, ss) == Some(t) && PrimaryOk(env, c + rest, ss) && PrimaryOk(env, c, ss)
    ensures |c| >= 2 * ss && (c + rest)[ss..2 * ss] == c[ss..2 * ss] && (c + rest)[..ss] == c[..ss]
  {
    hide HeaderValid, U32, U64;
    assert (c + rest)[ss..2 * ss] == c[ss..2 * ss];
    assert (c + rest)[t.at..t.at + |t.entries|] == c[t.at..t.at + |t.entries|];
  }

  lemma {:induction false} DirectoriesLonger(c: seq<byte>, rest: seq<byte>, vol: Volume, chain: seq<nat>)
    requires VolumeShape(vol) && 0 <= vol.heapLba && forall i :: 0 <= i < |chain| ==> 2 <= chain[i] < vol.limit
    requires (vol.heapLba + (vol.limit - 2) * vol.sectorsPerCluster) * vol.sectorSize <= |c|
    ensures FindBitmap(c + rest, vol, chain) == FindBitmap(c, vol, chain)
  {
    hide ScanDirectory, U32, VolumeShape;
    if chain != [] {
      var base := vol.ClusterToLba(chain[0]) * vol.sectorSize;
      var size := vol.sectorsPerCluster * vol.sectorSize;
      ClusterPlace(vol, chain[0]);
      ClusterSizeEven(vol);
      DirectoryLonger(c, rest, base, size);
      assert forall i :: 0 <= i < |chain[1..]| ==> chain[1..][i] == chain[i + 1];
      DirectoriesLonger(c, rest, vol, chain[1..]);
    }
  }

  lemma {:induction false} DirectoryLonger(c: seq<byte>, rest: seq<byte>, base: nat, size: nat)
    requires base + size <= |c| && size % 32 == 0
    ensures (c + rest)[base..base + size] == c[base..base + size]
    ensures ScanDirectory(c[base..base + size], 0, None).One? ==>
      var o := ScanDirectory(c[base..base + size], 0, None).offset;
        U32(c + rest, base + o + 20) == U32(c, base + o + 20)
  {
  }

  lemma {:induction false} BitmapLonger(
      c: seq<byte>, rest: seq<byte>, vol: Volume, rootCluster: nat, oldCount: nat, newCount: nat)
    requires VolumeShape(vol) && 0 <= vol.heapLba && newCount < U32_LIMIT
    requires (vol.heapLba + (vol.limit - 2) * vol.sectorsPerCluster) * vol.sectorSize <= |c|
    ensures PlanBitmap(c + rest, vol, rootCluster, oldCount, newCount)
      == PlanBitmap(c, vol, rootCluster, oldCount, newCount)
  {
    hide ChainOf, FindBitmap, CeilDiv, PutU64, VolumeShape;
    var root := ChainOf(vol, rootCluster);
    if root.Some? {
      ChainInside(vol, rootCluster, root.value);
      DirectoriesLonger(c, rest, vol, root.value);
      var found := FindBitmap(c, vol, root.value);
      if found.At? {
        assert (c + rest)[found.place..found.place + 32] == c[found.place..found.place + 32];
      }
    }
  }

  lemma {:induction false} FatLonger(c: seq<byte>, rest: seq<byte>, ss: nat, start: nat, region: seq<byte>, count: nat)
    requires |region| >= 512 && start * ss + U32(region, 80) * ss + U32(region, 84) * ss <= |c|
    ensures VolumeOf(c + rest, ss, start, region, count) == VolumeOf(c, ss, start, region, count)
  {
    hide Pow2;
    var base, bytes := start * ss + U32(region, 80) * ss, U32(region, 84) * ss;
    assert FatOf(c + rest, base, bytes) == FatOf(c, base, bytes);
  }

  lemma {:induction false} SliceLonger(c: seq<byte>, rest: seq<byte>, lo: nat, hi: nat)
    requires lo <= hi <= |c|
    ensures (c + rest)[lo..hi] == c[lo..hi]
  {
  }

  /** The planner does not look behind the volume. */
  lemma {:induction false} BootLonger(c: seq<byte>, rest: seq<byte>, ss: nat, start: nat, newBlocks: nat)
    requires SectorSizeOk(ss) && newBlocks < U64_LIMIT && start * ss + 12 * ss <= |c|
    requires var region := BootRegion(c, ss, start);
      VolumeLaid(region) && (start + GeometryOf(region).blocks) * ss <= |c|
    ensures BootRegion(c + rest, ss, start) == BootRegion(c, ss, start)
    ensures PlanBoot(c + rest, ss, start, newBlocks) == PlanBoot(c, ss, start, newBlocks)
  {
    hide PlanRegion, U32, U64, Pow2;
    var region := BootRegion(c, ss, start);
    var g := GeometryOf(region);
    SliceLonger(c, rest, start * ss, start * ss + 12 * ss);
    VolumePlaces(ss, start, U32(region, 80), g);
    RegionLonger(c, rest, ss, start, region, g, newBlocks);
  }

  lemma {:induction false} RegionLonger(
      c: seq<byte>, rest: seq<byte>, ss: nat, start: nat, region: seq<byte>, g: Geometry, newBlocks: nat)
    requires SectorSizeOk(ss) && newBlocks < U64_LIMIT && |region| == 12 * ss && g == GeometryOf(region)
    requires start * ss + U32(region, 80) * ss + g.fatLength * ss <= |c|
    requires (start + g.heap + g.count * g.spc) * ss <= |c|
    ensures PlanRegion(c + rest, region, ss, start, newBlocks) == PlanRegion(c, region, ss, start, newBlocks)
  {
    hide PlanBitmap, FatOf, GrownRegion, U32, U64, Pow2, GrownBlocks, GrownCount, LengthsOk, BootOk;
    if LengthsOk(g, ss, newBlocks) {
      GrownFits(g, ss, newBlocks);
      var count := GrownCount(g, ss, newBlocks);
      if count >= 16 {
        FatLonger(c, rest, ss, start, region, g.count);
        BitmapLonger(c, rest, VolumeOf(c, ss, start, region, g.count), U32(region, 96), g.count, count);
      }
    }
  }

  // ----- two steps -----

  lemma {:induction false} RewrittenLonger(
      c: seq<byte>, c': seq<byte>, rest: seq<byte>, region: seq<byte>, ss: nat, start: nat, newBlocks: nat,
      boot: BootPlan)
    requires SectorSizeOk(ss) && start * ss + 12 * ss <= |c| && region == BootRegion(c, ss, start)
    requires newBlocks < U64_LIMIT && PlanBoot(c, ss, start, newBlocks) == Some(boot)
    requires VolumeRewritten(c, c', region, ss, start, newBlocks, boot)
    ensures region == BootRegion(c + rest, ss, start)
    ensures VolumeRewritten(c + rest, c' + rest, region, ss, start, newBlocks, boot)
    ensures newBlocks < U64_LIMIT
  {
    hide BootMade, U32, U64, Pow2, VolumeLaid, PlanBoot;
    BootLonger(c, rest, ss, start, newBlocks);
    BootFacts(c + rest, ss, start, newBlocks, boot);
    var at := start * ss;
    assert (c' + rest)[at..at + 12 * ss] == c'[at..at + 12 * ss];
    assert (c' + rest)[at + 12 * ss..at + 24 * ss] == c'[at + 12 * ss..at + 24 * ss];
    KeptLonger(c, c', rest, ss, start, (start + GeometryOf(region).blocks) * ss, boot.bitmap);
  }

  lemma {:induction false} KeptLonger(
      c: seq<byte>, c': seq<byte>, rest: seq<byte>, ss: nat, start: nat, hi: nat, bitmap: Patch)
    requires VolumeKept(c, c', ss, start, hi, bitmap)
    ensures VolumeKept(c + rest, c' + rest, ss, start, hi, bitmap)
  {
    assert (c' + rest)[bitmap.at..bitmap.at + 32] == c'[bitmap.at..bitmap.at + 32];
  }

  /** The same writes are planned for a disk grown before. */
  lemma {:induction false} PatchesAgain(
      env: Env, d: seq<byte>, d': seq<byte>, ss: nat, total: nat, t: Table, data: Part, boot: BootPlan,
      before: nat, lastUsable: nat, end: nat)
    requires SectorSizeOk(ss) && PrimaryOk(env, d, ss) && PrimaryOk(env, d', ss) && TableShape(t)
      && data.index < t.count
    requires 0 < total < U64_LIMIT && CeilDiv(|t.entries|, ss) + 1 < total
      && 0 < data.startLba + boot.grown <= U64_LIMIT
    requires 0 < before < U64_LIMIT && lastUsable < U64_LIMIT && end < U64_LIMIT
    requires d'[..ss] == NewMbr(d, ss, before)
    requires d'[ss..2 * ss] == NewHeader(env, d[ss..2 * ss], before - 1, lastUsable, NewEntries(t, data, end))
    ensures Patches(env, d', ss, total, NewTable(t, data, end), data.(endLba := end), boot)
         == Patches(env, d, ss, total, t, data, boot)
  {
    hide PrimaryOk, NewEntries, NewHeader, NewMbr, BackupHeader, U32, CeilDiv;
    PrimaryHeader(env, d, ss);
    PrimaryHeader(env, d', ss);
    var h, newEnd := d[ss..2 * ss], data.startLba + boot.grown - 1;
    MbrAgain(d, d', ss, before, total);
    EntriesAgain(t, data, end, newEnd);
    HeaderIsSame(env, h, before - 1, lastUsable, NewEntries(t, data, end));
    HeaderAgain(env, h, d'[ss..2 * ss], total - 1, total - 1 - CeilDiv(|t.entries|, ss) - 1,
      NewEntries(t, data, newEnd));
  }

  lemma {:induction false} PrimaryHeader(env: Env, d: seq<byte>, ss: nat)
    requires SectorSizeOk(ss) && PrimaryOk(env, d, ss)
    ensures |d| >= 2 * ss && 92 <= U32(d[ss..2 * ss], 12) <= ss
  {
    hide U32;
  }

  /** Two disks of one length come to agree on a byte that is written, and go on agreeing on any other. */
  lemma {:induction false} WriteAllAgain(a: seq<byte>, b: seq<byte>, ps: seq<Patch>, x: nat, i: nat)
    requires |a| == |b| && x < |a|
    requires a[x] == b[x] || (i < |ps| && !Apart(x, 1, ps[i].at, |ps[i].bytes|))
    ensures |WriteAll(a, ps)| == |WriteAll(b, ps)| > x && WriteAll(a, ps)[x] == WriteAll(b, ps)[x]
  {
    if ps != [] {
      hide WriteAll, WriteAt, Apart;
      var n := |ps| - 1;
      WriteAllSizes(a, b, ps[..n]);
      WriteAllLast(a, ps);
      WriteAllLast(b, ps);
      if Apart(x, 1, ps[n].at, |ps[n].bytes|) {
        WriteAllAgain(a, b, ps[..n], x, i);
      }
      WriteAtAgain(WriteAll(a, ps[..n]), WriteAll(b, ps[..n]), ps[n], x);
    }
  }

  lemma {:induction false} WriteAllLast(d: seq<byte>, ps: seq<Patch>)
    requires ps != []
    ensures WriteAll(d, ps) == WriteAt(WriteAll(d, ps[..|ps| - 1]), ps[|ps| - 1])
  {
    hide WriteAt;
  }

  lemma {:induction false} WriteAtAgain(a: seq<byte>, b: seq<byte>, p: Patch, x: nat)
    requires |a| == |b| && x < |a| && (a[x] == b[x] || !Apart(x, 1, p.at, |p.bytes|))
    ensures |WriteAt(a, p)| == |WriteAt(b, p)| > x && WriteAt(a, p)[x] == WriteAt(b, p)[x]
  {
    hide WriteAt;
  }

  lemma {:induction false} WriteAllSizes(a: seq<byte>, b: seq<byte>, ps: seq<Patch>)
    requires |a| == |b|
    ensures |WriteAll(a, ps)| == |WriteAll(b, ps)| >= |a|
  {
    if ps != [] { WriteAllSizes(a, b, ps[..|ps| - 1]); }
  }

  /** The backup table of a disk of `total` blocks, which a later growth leaves behind. */
  predicate InBackup(x: nat, ss: nat, total: nat, t: Table)
    requires ss > 0
  {
    || EntriesAt(ss, total, t) * ss <= x < EntriesAt(ss, total, t) * ss + |t.entries|
    || (total - 1) * ss <= x < total * ss
  }

  /** The table of a grown disk `d'`, on longer media, against that of the disk `d` it was. */
  ghost predicate TableTwice(
      env: Env, d: seq<byte>, d': seq<byte>, ss: nat, total: nat, t: Table, data: Part, newEnd: nat)
  {
    && SectorSizeOk(ss) && 0 < total < U64_LIMIT && TableShape(t) && data.index < t.count && newEnd < U64_LIMIT
    && 0 < EntriesAt(ss, total, t) < U64_LIMIT
    && PrimaryOk(env, d, ss) && PrimaryOk(env, d', ss)
    && ReadTable(env, d, ss) == Some(t) && ReadTable(env, d', ss) == Some(NewTable(t, data, newEnd))
    && DataPart(env, t) == Some(data)
    && DataPart(env, NewTable(t, data, newEnd)) == Some(data.(endLba := newEnd))
    && d'[..ss] == NewMbr(d, ss, total)
    && d'[ss..2 * ss]
       == NewHeader(env, d[ss..2 * ss], total - 1, EntriesAt(ss, total, t) - 1, NewEntries(t, data, newEnd))
    && U64(d'[ss..2 * ss], 32) == total - 1
  }

  lemma {:induction false} TableOnLonger(
      env: Env, c: seq<byte>, c': seq<byte>, rest: seq<byte>, ss: nat, total: nat, t: Table, data: Part, boot: BootPlan)
    requires Ready(env, c, ss, total, t, data, boot)
    requires Holds(c', ss, total, t, data, boot, WrittenBy(env, c, ss, total, t, data, boot))
    ensures data.startLba + boot.grown > 0
    ensures TableTwice(env, c + rest, c' + rest, ss, total, t, data, data.startLba + boot.grown - 1)
  {
    hide PlanBoot, ReadTable, PrimaryOk, Parts, PartAt, CeilDiv, Ordered, HeapAt, OldEnd, TableRewritten, U64;
    hide NewEntries, DataPart, VolumeLaid, SlotsLaid, BootRegion, NewHeader, BackupHeader, EntriesAt, Laid;
    var newEnd := data.startLba + boot.grown - 1;
    var w := WrittenBy(env, c, ss, total, t, data, boot);
    TableIsRewritten(env, c, ss, total, t, data, boot, c');
    TableAfter(env, c', ss, total, t, data, newEnd, c[ss..2 * ss], EntriesAt(ss, total, t), w);
    DataPartAfter(env, t, data, newEnd);
    TableLonger(env, c, rest, ss, t);
    TableLonger(env, c', rest, ss, NewTable(t, data, newEnd));
    EntriesPlace(env, c, ss, total, t, data, boot);
  }

  lemma {:induction false} EntriesPlace(
      env: Env, d: seq<byte>, ss: nat, total: nat, t: Table, data: Part, boot: BootPlan)
    requires Ready(env, d, ss, total, t, data, boot)
    ensures ss > 0 && 0 < EntriesAt(ss, total, t) < total && Offered(ss, total, t, data) < U64_LIMIT
    ensures Offered(ss, total, t, data) >= 0
  {
    hide PlanBoot, ReadTable, PrimaryOk, Ordered, HeapAt, OldEnd, DataPart, Laid, CeilDiv;
    CeilDivPositive(|t.entries|, ss);
  }

  lemma {:induction false} VolumeOnLonger(
      env: Env, c: seq<byte>, c': seq<byte>, rest: seq<byte>, ss: nat, total: nat, t: Table, data: Part, boot: BootPlan,
      newBlocks: nat)
    requires Ready(env, c, ss, total, t, data, boot)
    requires |c'| == |c| && Holds(c', ss, total, t, data, boot, WrittenBy(env, c, ss, total, t, data, boot))
    requires forall x :: 0 <= x < |c| && OffWrites(x, ss, total, t, data, boot) ==> c'[x] == c[x]
    requires ss > 0 && Offered(ss, total, t, data) <= newBlocks < U64_LIMIT
    ensures SectorSizeOk(ss)
    ensures PlanBoot(c' + rest, ss, data.startLba, newBlocks) == PlanBoot(c + rest, ss, data.startLba, newBlocks)
    ensures var again := PlanBoot(c + rest, ss, data.startLba, newBlocks);
      again.Some? ==> again.value.bitmap.at == boot.bitmap.at && boot.grown <= again.value.grown
  {
    hide PlanBoot, ReadTable, PrimaryOk, Parts, PartAt, CeilDiv, WrittenBy, Ordered, HeapAt, OldEnd, Holds, OffWrites;
    hide VolumeRewritten, DataPart, VolumeLaid, SlotsLaid, BootRegion;
    EntriesPlace(env, c, ss, total, t, data, boot);
    VolumeIsRewritten(env, c, ss, total, t, data, boot, c', WrittenBy(env, c, ss, total, t, data, boot));
    var region, nb := BootRegion(c, ss, data.startLba), Offered(ss, total, t, data);
    RewrittenLonger(c, c', rest, region, ss, data.startLba, nb, boot);
    BootTwice(c + rest, c' + rest, region, ss, data.startLba, nb, boot, newBlocks);
  }

  /** The two decisions, from what the table and the volume hold. */
  lemma {:induction false} DecidesAgain(
      env: Env, d: seq<byte>, d': seq<byte>, ss: nat, size: nat, total: nat, t: Table, data: Part, boot: BootPlan)
    requires ss > 0 && size / ss < U64_LIMIT && size % ss == 0 && 128 < total < size / ss && 0 < boot.grown
    requires CeilDiv(|t.entries|, ss) + 2 + data.startLba < total
    requires data.endLba <= data.startLba + boot.grown - 1
    requires TableTwice(env, d, d', ss, total, t, data, data.startLba + boot.grown - 1)
    requires SectorSizeOk(ss) && var offered := Offered(ss, size / ss, t, data);
      && PlanBoot(d', ss, data.startLba, offered) == PlanBoot(d, ss, data.startLba, offered)
      && var again := PlanBoot(d, ss, data.startLba, offered); again.Some? ==> boot.grown <= again.value.grown
    requires Plan(env, d, ss, size) != AlreadyGrown
    ensures Plan(env, d', ss, size) == Plan(env, d, ss, size)
  {
    hide PlanBoot, ReadTable, PrimaryOk, Parts, PartAt, CeilDiv, DataPart, NewHeader, NewMbr, NewEntries, Patches, U64;
    var offered := Offered(ss, size / ss, t, data);
    var again := PlanBoot(d, ss, data.startLba, offered);
    var newEnd := data.startLba + boot.grown - 1;
    PartIndex(env, t.entries, t.size, t.count, data);
    if again.Some? {
      PatchesAgain(env, d, d', ss, size / ss, t, data, again.value, total, EntriesAt(ss, total, t) - 1, newEnd);
    }
  }

  lemma {:induction false} MoreBlocks(ss: nat, size: nat, more: nat)
    requires ss > 0 && size % ss == 0 && more % ss == 0 && more > 0
    ensures (size + more) % ss == 0 && size / ss < (size + more) / ss && size / ss * ss == size
  {
    var total, k := size / ss, more / ss;
    MulAdd(total, k, ss);
    DivUnique(size + more, ss, total + k, 0);
  }

  /**
   Growing in two steps. A disk grown on small media and copied to larger media
   makes the planner decide there what it decides for the original disk, down
   to the bytes written; and after those writes the two disks differ at most in
   the backup table of the small media, which lies inside the volume by then.
   */
  lemma {:induction false} GrowthInSteps(
      env: Env, c: seq<byte>, rest: seq<byte>, ss: nat, grown: nat, patches: seq<Patch>, x: nat)
    returns (t: Table, data: Part)
    requires SectorSizeOk(ss) && rest != [] && |rest| % ss == 0 && (|c| + |rest|) / ss < U64_LIMIT
    requires StandardLayout(env, c, ss)
    requires |c| / ss < U64_LIMIT && Plan(env, c, ss, |c|) == Grow(grown, patches)
    requires Plan(env, c + rest, ss, |c| + |rest|) != AlreadyGrown
    ensures ReadTable(env, c, ss) == Some(t) && DataPart(env, t) == Some(data) && |WriteAll(c, patches)| == |c|
    ensures Plan(env, WriteAll(c, patches) + rest, ss, |c| + |rest|) == Plan(env, c + rest, ss, |c| + |rest|)
    ensures var again := Plan(env, c + rest, ss, |c| + |rest|);
      again.Grow? && x < |c| + |rest| && !InBackup(x, ss, |c| / ss, t) ==>
        && x < |WriteAll(c + rest, again.patches)| == |WriteAll(WriteAll(c, patches) + rest, again.patches)|
        && WriteAll(WriteAll(c, patches) + rest, again.patches)[x] == WriteAll(c + rest, again.patches)[x]
  {
    hide Plan, PlanBoot, ReadTable, DataPart, Laid, Patches, WriteAll, Parts, PartAt, CeilDiv, PrimaryOk, WrittenBy;
    hide Ready, StandardLayout, Holds, OffWrites, InBackup;
    var boot;
    t, data, boot := PlanMakesReady(env, c, ss, grown, patches);
    PlanIsBigEnough(env, c, ss, grown, patches);
    MoreBlocks(ss, |c|, |rest|);
    AfterWrites(env, c, ss, |c| / ss, t, data, boot);
    SecondStep(env, c, WriteAll(c, patches), rest, ss, |c| / ss, t, data, boot, |c| + |rest|, x);
  }

  lemma {:induction false} SecondStep(
      env: Env, c: seq<byte>, c': seq<byte>, rest: seq<byte>, ss: nat, total: nat, t: Table, data: Part, boot: BootPlan,
      size: nat, x: nat)
    requires SectorSizeOk(ss) && size == |c| + |rest| && size % ss == 0 && size / ss < U64_LIMIT
    requires 128 < total < size / ss
    requires Plan(env, c + rest, ss, size) != AlreadyGrown
    requires Ready(env, c, ss, total, t, data, boot)
    requires |c'| == |c| && Holds(c', ss, total, t, data, boot, WrittenBy(env, c, ss, total, t, data, boot))
    requires forall x :: 0 <= x < |c| && OffWrites(x, ss, total, t, data, boot) ==> c'[x] == c[x]
    ensures Plan(env, c' + rest, ss, size) == Plan(env, c + rest, ss, size)
    ensures var again := Plan(env, c + rest, ss, size);
      again.Grow? && x < size && !InBackup(x, ss, total, t) ==>
        && x < |WriteAll(c + rest, again.patches)| == |WriteAll(c' + rest, again.patches)|
        && WriteAll(c' + rest, again.patches)[x] == WriteAll(c + rest, again.patches)[x]
  {
    hide Plan, PlanBoot, ReadTable, DataPart, Laid, WriteAll, CeilDiv, PrimaryOk, WrittenBy, EntriesAt;
    hide Ordered, HeapAt, OldEnd, Holds, OffWrites, TableTwice, InBackup, Apart;
    TableOnLonger(env, c, c', rest, ss, total, t, data, boot);
    EntriesPlace(env, c, ss, total, t, data, boot);
    VolumeOnLonger(env, c, c', rest, ss, total, t, data, boot, Offered(ss, size / ss, t, data));
    DecidesAgain(env, c + rest, c' + rest, ss, size, total, t, data, boot);
    var again := Plan(env, c + rest, ss, size);
    if again.Grow? && x < size && !InBackup(x, ss, total, t) {
      TableStays(env, c + rest, c' + rest, ss, total, t, data, data.startLba + boot.grown - 1);
      PlannedPlaces(env, c + rest, ss, size, t, data, boot.bitmap.at, again.grown, again.patches);
      var i := ByteAgain(c, c', rest, ss, total, t, data, boot, again.patches, x);
      WriteAllAgain(c' + rest, c + rest, again.patches, x, i);
    }
  }

  lemma {:induction false} TableStays(
      env: Env, d: seq<byte>, d': seq<byte>, ss: nat, total: nat, t: Table, data: Part, newEnd: nat)
    requires TableTwice(env, d, d', ss, total, t, data, newEnd)
    ensures SectorSizeOk(ss) && ReadTable(env, d, ss) == Some(t) && TableShape(t) && DataPart(env, t) == Some(data)
  {
    hide ReadTable, DataPart, NewMbr, NewHeader, NewEntries, PrimaryOk;
  }

  /** Where a growth writes in front of the old volume's end. */
  ghost predicate WritesTo(ps: seq<Patch>, ss: nat, t: Table, start: nat, bitmapAt: nat) {
    && |ps| == 8
    && ps[0].at == bitmapAt && |ps[0].bytes| == 32
    && ps[1].at == start * ss && |ps[1].bytes| == 12 * ss
    && ps[2].at == start * ss + 12 * ss && |ps[2].bytes| == 12 * ss
    && ps[3].at == 0 && |ps[3].bytes| == ss
    && ps[4].at == t.at && |ps[4].bytes| == |t.entries|
    && ps[6].at == ss && |ps[6].bytes| == ss
  }

  lemma {:induction false} PlannedPlaces(
      env: Env, d: seq<byte>, ss: nat, size: nat, t: Table, data: Part, bitmapAt: nat, grown: nat, patches: seq<Patch>)
    requires SectorSizeOk(ss) && size / ss < U64_LIMIT && Plan(env, d, ss, size) == Grow(grown, patches)
    requires ReadTable(env, d, ss) == Some(t) && TableShape(t) && DataPart(env, t) == Some(data)
    requires 0 <= Offered(ss, size / ss, t, data) < U64_LIMIT
    requires var again := PlanBoot(d, ss, data.startLba, Offered(ss, size / ss, t, data));
      again.Some? ==> again.value.bitmap.at == bitmapAt
    ensures WritesTo(patches, ss, t, data.startLba, bitmapAt)
  {
    hide ReadTable, DataPart, PlanBoot, Parts, PartAt, CeilDiv, NewHeader, BackupHeader, NewMbr, NewEntries, U32, U64;
    hide Plan;
    var t2, data2, boot := PlanMakesScene(env, d, ss, size, grown, patches);
    assert PrimaryOk(env, d, ss);
  }

  /** A byte outside the first backup table is untouched by the first growth or written by the second. */
  lemma {:induction false} ByteAgain(
      c: seq<byte>, c': seq<byte>, rest: seq<byte>, ss: nat, total: nat, t: Table, data: Part, boot: BootPlan,
      patches: seq<Patch>, x: nat)
    returns (i: nat)
    requires ss > 0 && |c'| == |c| == total * ss && x < |c| + |rest| && !InBackup(x, ss, total, t)
    requires forall y :: 0 <= y < |c| && OffWrites(y, ss, total, t, data, boot) ==> c'[y] == c[y]
    requires WritesTo(patches, ss, t, data.startLba, boot.bitmap.at)
    ensures (c' + rest)[x] == (c + rest)[x]
      || (i < |patches| && !Apart(x, 1, patches[i].at, |patches[i].bytes|))
  {
    hide EntriesAt, Apart;
    i := 0;
    if x < |c| && !OffWrites(x, ss, total, t, data, boot) {
      i := PatchOver(ss, total, t, data, boot, patches, x);
    }
  }

  lemma {:induction false} PatchOver(
      ss: nat, total: nat, t: Table, data: Part, boot: BootPlan, patches: seq<Patch>, x: nat)
    returns (i: nat)
    requires ss > 0 && x < total * ss && !InBackup(x, ss, total, t) && !OffWrites(x, ss, total, t, data, boot)
    requires WritesTo(patches, ss, t, data.startLba, boot.bitmap.at)
    ensures i < |patches| && !Apart(x, 1, patches[i].at, |patches[i].bytes|)
  {
    hide EntriesAt;
    var at := data.startLba * ss;
    i := if x < ss then 3
         else if x < 2 * ss then 6
         else if t.at <= x < t.at + |t.entries| then 4
         else if boot.bitmap.at <= x < boot.bitmap.at + 32 then 0
         else if x < at + 12 * ss then 1
         else 2;
  }
}
