/** Where the eight writes of a growth fall on a disk laid out by the standards, and what they leave alone. */
module GrowLayout {
  import opened Common
  import opened Bytes
  import opened ClusterFiles
  import opened GrowPlan

  predicate Used(entry: seq<byte>)
    requires |entry| >= 128
  {
    entry[..16] != Zeros(16)
  }

  /** A used slot lies in the usable range and, unless it is the data partition, before that one. */
  ghost predicate SlotLaid(t: Table, first: nat, data: Part, i: nat) {
    && t.size >= 128 && (i + 1) * t.size <= |t.entries|
    && var e := Entry(t.entries, t.size, i);
       Used(e) ==> first <= U64(e, 32) <= U64(e, 40) && (i != data.index ==> U64(e, 40) < data.startLba)
  }

  ghost predicate SlotsLaid(t: Table, first: nat, data: Part) {
    forall i :: 0 <= i < t.count ==> SlotLaid(t, first, data, i)
  }

  /**
   The layout rules the grower relies on without checking: the entry array
   lies between the header and the first usable block (section 5.3 of the
   UEFI Specification), partitions do not overlap, and the exFAT volume keeps
   its FAT behind the boot regions and its clusters behind the FAT and inside
   the volume (section 3.1 of the exFAT file system specification).
   */
  ghost predicate Laid(d: seq<byte>, ss: nat, t: Table, data: Part)
    requires SectorSizeOk(ss) && |d| >= 2 * ss && TableShape(t) && data.startLba * ss + 12 * ss <= |d|
  {
    var first := U64(d[ss..2 * ss], 40);
    var region := BootRegion(d, ss, data.startLba);
    && 2 * ss <= t.at && t.at + |t.entries| <= first * ss && first <= data.startLba
    && SlotsLaid(t, first, data)
    && VolumeLaid(region)
  }

  ghost predicate VolumeLaid(region: seq<byte>)
    requires |region| >= 512
  {
    var g := GeometryOf(region);
    && 24 <= U32(region, 80) && U32(region, 80) + g.fatLength <= g.heap
    && g.heap + g.count * g.spc <= g.blocks
  }

  /** A disk that fills its media, passes the grower's checks and is laid out by the standards. */
  ghost predicate Scene(env: Env, d: seq<byte>, ss: nat, total: nat, t: Table, data: Part, boot: BootPlan) {
    && SectorSizeOk(ss) && |d| == total * ss && 0 < total < U64_LIMIT
    && ReadTable(env, d, ss) == Some(t) && DataPart(env, t) == Some(data)
    && CeilDiv(|t.entries|, ss) + 2 + data.startLba < total
    && PlanBoot(d, ss, data.startLba, Offered(ss, total, t, data)) == Some(boot)
    && data.endLba <= data.startLba + boot.grown - 1
    && Laid(d, ss, t, data)
  }

  /** The blocks between the start of the data partition and the backup entry array. */
  function Offered(ss: nat, total: nat, t: Table, data: Part): int
    requires ss > 0
  {
    total - 1 - CeilDiv(|t.entries|, ss) - data.startLba
  }

  /** The planner reaches a decision to write exactly in such a scene, layout aside. */
  lemma {:induction false} PlanMakesScene(env: Env, d: seq<byte>, ss: nat, size: nat, grown: nat, patches: seq<Patch>)
    returns (t: Table, data: Part, boot: BootPlan)
    requires SectorSizeOk(ss) && size / ss < U64_LIMIT && Plan(env, d, ss, size) == Grow(grown, patches)
    ensures var total := size / ss;
      && size == total * ss && 0 < total
      && ReadTable(env, d, ss) == Some(t) && DataPart(env, t) == Some(data)
      && CeilDiv(|t.entries|, ss) + 2 + data.startLba < total
      && PlanBoot(d, ss, data.startLba, Offered(ss, total, t, data)) == Some(boot)
      && data.endLba <= data.startLba + boot.grown - 1 && boot.grown == grown
      && PrimaryOk(env, d, ss) && TableShape(t) && data.index < t.count
      && patches == Patches(env, d, ss, total, t, data, boot)
  {
    hide ReadTable, DataPart, PlanBoot, Parts, PartAt, Patches;
    t := ReadTable(env, d, ss).value;
    data := DataPart(env, t).value;
    PartIndex(env, t.entries, t.size, t.count, data);
    boot := PlanBoot(d, ss, data.startLba, Offered(ss, size / ss, t, data)).value;
  }

  // ----- what a plan consists of -----

  /** What the boot plan is made of. */
  ghost predicate BootMade(d: seq<byte>, region: seq<byte>, ss: nat, start: nat, newBlocks: nat, boot: BootPlan) {
    && SectorSizeOk(ss) && |region| == 12 * ss && BootOk(region, ss, start)
      && LengthsOk(GeometryOf(region), ss, newBlocks)
    && boot.grown == GrownBlocks(GeometryOf(region), ss, newBlocks)
    && boot.newCount == GrownCount(GeometryOf(region), ss, newBlocks)
    && GeometryOf(region).blocks <= boot.grown <= newBlocks < U64_LIMIT && 16 <= boot.newCount < U32_LIMIT
    && boot.region == GrownRegion(region, ss, boot.grown, boot.newCount)
    && PlanBitmap(d, VolumeOf(d, ss, start, region, GeometryOf(region).count), U32(region, 96),
      GeometryOf(region).count, boot.newCount)
       == Some(boot.bitmap)
  }

  function BootRegion(d: seq<byte>, ss: nat, start: nat): (r: seq<byte>)
    requires start * ss + 12 * ss <= |d|
    ensures |r| == 12 * ss
  {
    d[start * ss..start * ss + 12 * ss]
  }

  lemma {:induction false} BootFacts(d: seq<byte>, ss: nat, start: nat, newBlocks: nat, boot: BootPlan)
    requires SectorSizeOk(ss) && newBlocks < U64_LIMIT && PlanBoot(d, ss, start, newBlocks) == Some(boot)
    ensures start * ss + 12 * ss <= |d| && BootMade(d, BootRegion(d, ss, start), ss, start, newBlocks, boot)
  {
    hide BootOk, PlanBitmap, VolumeOf, GrownRegion, U32, U64, GrownBlocks, GrownCount, Capacity;
    GrownFits(GeometryOf(BootRegion(d, ss, start)), ss, newBlocks);
  }

  lemma {:induction false} BitmapFacts(
      d: seq<byte>, vol: Volume, rootCluster: nat, oldCount: nat, newCount: nat, bitmap: Patch)
    returns (root: seq<nat>, first: nat, chain: seq<nat>)
    requires VolumeShape(vol) && newCount < U32_LIMIT
    requires PlanBitmap(d, vol, rootCluster, oldCount, newCount) == Some(bitmap)
    ensures ChainOf(vol, rootCluster) == Some(root) && ChainOf(vol, first) == Some(chain)
    ensures FindBitmap(d, vol, root) == At(bitmap.at, first) && bitmap.at + 32 <= |d|
    ensures CeilDiv(newCount, 8) <= |chain| * (vol.sectorsPerCluster * vol.sectorSize)
    ensures bitmap.bytes == PutU64(d[bitmap.at..bitmap.at + 32], 24, CeilDiv(newCount, 8))
  {
    hide ChainOf, FindBitmap, U32, U64;
    root := ChainOf(vol, rootCluster).value;
    first := FindBitmap(d, vol, root).firstCluster;
    chain := ChainOf(vol, first).value;
  }

  lemma {:induction false} ChainInside(vol: Volume, first: nat, chain: seq<nat>)
    requires first < vol.limit && IsChain(vol, first, chain)
    ensures forall i :: 0 <= i < |chain| ==> 2 <= chain[i] < vol.limit
  {
    forall i | 0 <= i < |chain| ensures 2 <= chain[i] < vol.limit {
      if i > 0 { assert Follows(vol, chain[i - 1], chain[i]); }
    }
  }

  lemma {:induction false} ScanPlace(dir: seq<byte>, o: nat, found: Option<nat>)
    requires |dir| % 32 == 0 && o % 32 == 0
    requires found.Some? ==> found.value + 32 <= |dir| && found.value % 32 == 0
    ensures ScanDirectory(dir, o, found).One? ==> ScanDirectory(dir, o, found).offset % 32 == 0
    decreases |dir| - o
  {
    if o < |dir| && dir[o] != 0 && !(dir[o] == 0x81 && found.Some?) {
      ScanPlace(dir, o + 32, if dir[o] == 0x81 then Some(o) else found);
    }
  }

  /** A cluster's bytes lie in the cluster heap. */
  lemma {:induction false} ClusterPlace(vol: Volume, c: nat)
    requires VolumeShape(vol) && 0 <= vol.heapLba && 2 <= c < vol.limit
    ensures var base := vol.ClusterToLba(c) * vol.sectorSize;
            && vol.heapLba * vol.sectorSize <= base && base % 32 == 0
            && base + vol.sectorsPerCluster * vol.sectorSize <=
              (vol.heapLba + (vol.limit - 2) * vol.sectorsPerCluster) * vol.sectorSize
  {
    var spc, ss := vol.sectorsPerCluster, vol.sectorSize;
    MulMonotone(0, c - 2, spc);
    MulMonotone(c - 2 + 1, vol.limit - 2, spc);
    MulAdd(c - 2, 1, spc);
    MulMonotone(vol.heapLba, vol.ClusterToLba(c), ss);
    MulMonotone(vol.ClusterToLba(c) + spc, vol.heapLba + (vol.limit - 2) * spc, ss);
    MulAdd(vol.ClusterToLba(c), spc, ss);
    MulAssoc(vol.ClusterToLba(c), ss / 32, 32);
    DivUnique(vol.ClusterToLba(c) * ss, 32, vol.ClusterToLba(c) * (ss / 32), 0);
  }

  /** The bitmap's entry lies in the cluster heap, on a 32-byte boundary. */
  lemma {:induction false} BitmapPlace(d: seq<byte>, vol: Volume, chain: seq<nat>)
    requires VolumeShape(vol) && 0 <= vol.heapLba && FindBitmap(d, vol, chain).At?
    requires forall i :: 0 <= i < |chain| ==> 2 <= chain[i] < vol.limit
    ensures var place := FindBitmap(d, vol, chain).place;
            && place % 32 == 0 && vol.heapLba * vol.sectorSize <= place
            && place + 32 <= (vol.heapLba + (vol.limit - 2) * vol.sectorsPerCluster) * vol.sectorSize
  {
    hide ScanDirectory, U32, U64, VolumeShape;
    var base := vol.ClusterToLba(chain[0]) * vol.sectorSize;
    var size := vol.sectorsPerCluster * vol.sectorSize;
    var limit := (vol.heapLba + (vol.limit - 2) * vol.sectorsPerCluster) * vol.sectorSize;
    ClusterPlace(vol, chain[0]);
    ClusterSizeEven(vol);
    var scan := ScanDirectory(d[base..base + size], 0, None);
    ScanPlace(d[base..base + size], 0, None);
    if scan.Nothing? {
      assert forall i :: 0 <= i < |chain[1..]| ==> chain[1..][i] == chain[i + 1];
      BitmapPlace(d, vol, chain[1..]);
    } else {
      EntryPlace(base, size, scan.offset, limit);
    }
  }

  lemma {:induction false} EntryPlace(base: nat, size: nat, o: nat, limit: int)
    requires base % 32 == 0 && o % 32 == 0 && o + 32 <= size && base + size <= limit
    ensures (base + o) % 32 == 0 && base + o + 32 <= limit
  {
  }

  // ----- where the writes fall -----

  /** The byte ranges of the scene, in disk order. */
  ghost predicate Ordered(
    ss: nat, total: nat, t: Table, data: Part, boot: BootPlan, heapAt: nat, oldEnd: nat, entriesAt: nat)
  {
    && 2 * ss <= t.at && t.at + |t.entries| <= data.startLba * ss
    && data.startLba * ss + 24 * ss <= heapAt <= boot.bitmap.at && boot.bitmap.at + 32 <= oldEnd
    && oldEnd <= entriesAt * ss && entriesAt * ss + |t.entries| <= (total - 1) * ss
    && (total - 1) * ss + ss == total * ss
  }

  /** The start of the cluster heap and the end of the old volume, in bytes. */
  function HeapAt(d: seq<byte>, ss: nat, data: Part): nat
    requires SectorSizeOk(ss) && data.startLba * ss + 12 * ss <= |d|
  {
    (data.startLba + U32(BootRegion(d, ss, data.startLba), 88)) * ss
  }

  function OldEnd(d: seq<byte>, ss: nat, data: Part): nat
    requires SectorSizeOk(ss) && data.startLba * ss + 12 * ss <= |d|
  {
    (data.startLba + U64(BootRegion(d, ss, data.startLba), 72)) * ss
  }

  lemma {:induction false} BitmapInVolume(d: seq<byte>, ss: nat, data: Part, boot: BootPlan, newBlocks: nat)
    requires SectorSizeOk(ss) && newBlocks < U64_LIMIT && PlanBoot(d, ss, data.startLba, newBlocks) == Some(boot)
    requires data.startLba * ss + 12 * ss <= |d| && VolumeLaid(BootRegion(d, ss, data.startLba))
    ensures boot.bitmap.at % 32 == 0
    ensures HeapAt(d, ss, data) <= boot.bitmap.at && boot.bitmap.at + 32 <= OldEnd(d, ss, data)
  {
    hide PlanBoot, PlanBitmap, BootOk, GrownBlocks, GrownCount, Capacity, LengthsOk, U32, U64, GrownRegion;
    hide FindBitmap, ChainOf, FatOf, BootRegion, Pow2;
    BootFacts(d, ss, data.startLba, newBlocks, boot);
    var region := BootRegion(d, ss, data.startLba);
    var g := GeometryOf(region);
    var vol := VolumeOf(d, ss, data.startLba, region, g.count);
    var root, first, chain := BitmapFacts(d, vol, U32(region, 96), g.count, boot.newCount, boot.bitmap);
    ChainInside(vol, U32(region, 96), root);
    BitmapPlace(d, vol, root);
    MulMonotone(vol.heapLba + g.count * g.spc, data.startLba + g.blocks, ss);
  }

  /** Sums of block positions, in bytes. */
  lemma {:induction false} BlockSums(
      ss: nat, first: nat, start: nat, heap: nat, blocks: nat, entriesAt: nat, sectors: nat, total: nat)
    requires first <= start && 24 <= heap && start + blocks <= entriesAt && entriesAt + sectors == total - 1
    ensures first * ss <= start * ss && start * ss + 24 * ss <= (start + heap) * ss
    ensures (start + blocks) * ss <= entriesAt * ss && entriesAt * ss + sectors * ss == (total - 1) * ss
    ensures (total - 1) * ss + ss == total * ss
  {
    MulMonotone(first, start, ss);
    MulAdd(start, 24, ss);
    MulMonotone(start + 24, start + heap, ss);
    MulMonotone(start + blocks, entriesAt, ss);
    MulAdd(entriesAt, sectors, ss);
    MulAdd(total - 1, 1, ss);
  }

  lemma {:induction false} SceneOrdered(
      env: Env, d: seq<byte>, ss: nat, total: nat, t: Table, data: Part, boot: BootPlan)
    requires Scene(env, d, ss, total, t, data, boot)
    ensures Ordered(ss, total, t, data, boot, HeapAt(d, ss, data), OldEnd(d, ss, data),
      total - 1 - CeilDiv(|t.entries|, ss))
    ensures boot.bitmap.at % 32 == 0 && |boot.region| == 12 * ss && |boot.bitmap.bytes| == 32
    ensures boot.grown <= Offered(ss, total, t, data)
  {
    hide *;
    SceneFigures(env, d, ss, total, t, data, boot);
    TableFigures(env, d, ss, total, t, data, boot);
    var g := GeometryOf(BootRegion(d, ss, data.startLba));
    BitmapInVolume(d, ss, data, boot, Offered(ss, total, t, data));
    FiguresOrder(ss, total, t, data, boot, U64(d[ss..2 * ss], 40), g.heap, g.blocks, CeilDiv(|t.entries|, ss),
                 HeapAt(d, ss, data), OldEnd(d, ss, data));
  }

  /** The figures of the scene, in blocks. */
  lemma {:induction false} SceneFigures(
      env: Env, d: seq<byte>, ss: nat, total: nat, t: Table, data: Part, boot: BootPlan)
    requires Scene(env, d, ss, total, t, data, boot)
    ensures SectorSizeOk(ss) && ss >= 512 && |d| >= 2 * ss && 0 <= Offered(ss, total, t, data) < U64_LIMIT
    ensures PlanBoot(d, ss, data.startLba, Offered(ss, total, t, data)) == Some(boot)
    ensures data.startLba * ss + 12 * ss <= |d| && VolumeLaid(BootRegion(d, ss, data.startLba))
    ensures var g := GeometryOf(BootRegion(d, ss, data.startLba));
      && 24 <= g.heap && data.startLba + g.blocks <= total - 1 - CeilDiv(|t.entries|, ss)
      && HeapAt(d, ss, data) == (data.startLba + g.heap) * ss && OldEnd(d, ss, data) == (data.startLba + g.blocks) * ss
    ensures |boot.region| == 12 * ss && |boot.bitmap.bytes| == 32 && boot.grown <= Offered(ss, total, t, data)
  {
    hide PlanBoot, ReadTable, DataPart, BootOk, GrownBlocks, GrownCount, U32, U64, GrownRegion, PlanBitmap, SlotLaid;
    hide VolumeOf, LengthsOk, BootRegion, Pow2, CeilDiv;
    BootFacts(d, ss, data.startLba, Offered(ss, total, t, data), boot);
  }

  lemma {:induction false} TableFigures(
      env: Env, d: seq<byte>, ss: nat, total: nat, t: Table, data: Part, boot: BootPlan)
    requires Scene(env, d, ss, total, t, data, boot)
    ensures ss >= 512 && |d| >= 2 * ss
    ensures var first := U64(d[ss..2 * ss], 40);
      2 * ss <= t.at && t.at + |t.entries| <= first * ss && first <= data.startLba
    ensures |t.entries| <= CeilDiv(|t.entries|, ss) * ss
  {
    hide PlanBoot, ReadTable, DataPart, U64, SlotsLaid, VolumeLaid, BootRegion, CeilDiv;
    MulMonotone(1, t.count, t.size);
    CeilDivPositive(|t.entries|, ss);
  }

  /** Those figures put the byte ranges in order. */
  lemma {:induction false} FiguresOrder(
      ss: nat, total: nat, t: Table, data: Part, boot: BootPlan, first: nat, heap: nat, blocks: nat, sectors: nat,
      heapAt: nat, oldEnd: nat)
    requires ss > 0 && 2 * ss <= t.at && t.at + |t.entries| <= first * ss && first <= data.startLba && 24 <= heap
    requires data.startLba + blocks <= total - 1 - sectors && |t.entries| <= sectors * ss
    requires heapAt == (data.startLba + heap) * ss && oldEnd == (data.startLba + blocks) * ss
    requires heapAt <= boot.bitmap.at && boot.bitmap.at + 32 <= oldEnd
    ensures total - 1 - sectors >= 0 && Ordered(ss, total, t, data, boot, heapAt, oldEnd, total - 1 - sectors)
  {
    BlockSums(ss, first, data.startLba, heap, blocks, total - 1 - sectors, sectors, total);
  }
}
