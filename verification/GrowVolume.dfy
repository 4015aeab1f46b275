/** The grown volume read back: accepted by its reader, and in order for the planner. */
module GrowVolume {
  import opened Common
  import opened Bytes
  import opened ClusterFiles
  import opened GrowPlan
  import opened GrowLayout
  import opened GrowExfat

  /** The entry the grower finds gives exactly the length the cluster count asks for, in a chain that can hold it. */
  ghost predicate EntryExact(d: seq<byte>, vol: Volume, rootCluster: nat, count: nat)
    requires VolumeShape(vol)
  {
    match ChainOf(vol, rootCluster)
    case None => false
    case Some(root) =>
      match FindBitmap(d, vol, root)
      case Missing => false
      case Bad => false
      case At(at, first) =>
        U64(d, at + 24) == CeilDiv(count, 8)
        && match ChainOf(vol, first)
           case None => false
           case Some(chain) => CeilDiv(count, 8) <= |chain| * (vol.sectorsPerCluster * vol.sectorSize)
  }

  /** Two equal boot regions under a valid checksum, describing `blocks` blocks from `start`. */
  ghost predicate RegionsAccepted(d: seq<byte>, ss: nat, start: nat, blocks: nat)
    requires SectorSizeOk(ss)
  {
    && start * ss + 24 * ss <= |d|
    && var main := BootRegion(d, ss, start);
    && d[start * ss + 12 * ss..start * ss + 24 * ss] == main
    && ChecksumOk(main, ss) && BootOk(main, ss, start) && U64(main, 72) == blocks
  }

  /** The clusters lie in the volume and each has its FAT entry. */
  ghost predicate ClustersFit(g: Geometry, ss: nat) {
    g.heap + g.count * g.spc <= g.blocks && (g.count + 2) * 4 <= g.fatLength * ss
  }

  /** What a growth with this boot plan leaves in the data partition of `d'`. */
  ghost predicate VolumeRewritten(
    d: seq<byte>, d': seq<byte>, region: seq<byte>, ss: nat, start: nat, newBlocks: nat, boot: BootPlan)
  {
    && SectorSizeOk(ss) && |region| == 12 * ss && |boot.region| == 12 * ss && |d'| == |d|
    && VolumeLaid(region)
    && boot.bitmap.at % 32 == 0 && (start + GeometryOf(region).heap) * ss <= boot.bitmap.at
    && VolumeKept(d, d', ss, start, (start + GeometryOf(region).blocks) * ss, boot.bitmap)
    && start * ss + 24 * ss <= |d'|
    && d'[start * ss..start * ss + 12 * ss] == boot.region
      && d'[start * ss + 12 * ss..start * ss + 24 * ss] == boot.region
    && BootMade(d, region, ss, start, newBlocks, boot)
  }

  /** The geometry of the grown volume. */
  function GrownGeometryOf(region: seq<byte>, boot: BootPlan): Geometry
    requires |region| >= 512
  {
    GeometryOf(region).(blocks := boot.grown, count := boot.newCount)
  }

  lemma {:induction false} RegionAfter(
      d: seq<byte>, d': seq<byte>, region: seq<byte>, ss: nat, start: nat, newBlocks: nat, boot: BootPlan)
    requires VolumeRewritten(d, d', region, ss, start, newBlocks, boot)
    ensures SectorSizeOk(ss) && |boot.region| == 12 * ss && |region| == 12 * ss
    ensures RegionsAccepted(d', ss, start, boot.grown)
    ensures BootOk(boot.region, ss, start) && GeometryOf(boot.region) == GrownGeometryOf(region, boot)
    ensures U32(boot.region, 96) == U32(region, 96) && U32(boot.region, 80) == U32(region, 80)
      && boot.region[109] == region[109]
    ensures FixedFieldsOk(boot.region, ss) <==> FixedFieldsOk(region, ss)
    ensures ClustersFit(GrownGeometryOf(region, boot), ss)
  {
    hide BootOk, PlanBitmap, VolumeOf, GrownRegion, U32, Pow2, VolumeKept, FixedFieldsOk, GrownBlocks, GrownCount;
    hide Capacity, LengthsOk, ChecksumOk, VolumeLaid;
    GrownRegionFields(region, ss, boot.grown, boot.newCount);
    GrownGeometry(region, ss, start, boot.grown, boot.newCount);
    GrownFixedFields(region, ss, boot.grown, boot.newCount);
    GrownClustersFit(GeometryOf(region), ss, newBlocks);
  }

  lemma {:induction false} EntryAgain(
      d: seq<byte>, d': seq<byte>, ss: nat, start: nat, vol: Volume, rootCluster: nat, count: nat, newCount: nat,
      bitmap: Patch, hi: nat)
    requires VolumeShape(vol) && newCount < U32_LIMIT && vol.limit == count + 2 && count <= newCount
      && vol.sectorSize == ss
    requires start * ss + 24 * ss <= vol.heapLba * ss && 0 <= vol.heapLba
    requires (vol.heapLba + count * vol.sectorsPerCluster) * ss <= hi
    requires bitmap.at % 32 == 0 && VolumeKept(d, d', ss, start, hi, bitmap)
    requires PlanBitmap(d, vol, rootCluster, count, newCount) == Some(bitmap)
    ensures var wide := vol.(limit := newCount + 2);
      EntryExact(d', wide, rootCluster, newCount) && PlanBitmap(d', wide, rootCluster, newCount, newCount).Some?
  {
    hide PlanBitmap, U32, U64, FindBitmap, ChainOf, PutU64, CeilDiv;
    var wide := vol.(limit := newCount + 2);
    EighthIsSmall(newCount);
    var root0, first0, chain0 := BitmapFacts(d, vol, rootCluster, count, newCount, bitmap);
    EntryHead(d, d', ss, start, hi, bitmap, CeilDiv(newCount, 8));
    var root, first, chain := GrownBitmap(d, d', vol, rootCluster, count, newCount, bitmap, hi);
    BitmapPlansAgain(d', wide, rootCluster, newCount, root, bitmap.at, first, chain);
  }

  lemma {:induction false} CeilDivGrows(a: nat, b: nat, d: nat)
    requires d > 0 && a <= b
    ensures CeilDiv(a, d) <= CeilDiv(b, d)
  {
    DivMonotone(a + d - 1, b + d - 1, d);
  }

  lemma {:induction false} CeilDivBetween(a: nat, b: nat, size: nat, n: nat)
    requires size > 0 && n == CeilDiv(a, size) && b <= n * size
    ensures a <= b ==> CeilDiv(b, size) == n
  {
    if a <= b {
      CeilDivGrows(a, b, size);
      assert CeilDiv(b, size) * size <= b + size - 1;
      if n + 1 <= CeilDiv(b, size) {
        MulMonotone(n + 1, CeilDiv(b, size), size);
        MulAdd(n, 1, size);
      }
    }
  }

  lemma {:induction false} EighthIsSmall(n: nat)
    requires n < U32_LIMIT
    ensures CeilDiv(n, 8) < U64_LIMIT
  {
  }

  lemma {:induction false} CountGrows(g: Geometry, ss: nat, newBlocks: nat, boot: BootPlan)
    requires LengthsOk(g, ss, newBlocks) && boot.newCount == GrownCount(g, ss, newBlocks)
    requires g.heap + g.count * g.spc <= g.blocks
    ensures g.count <= boot.newCount
  {
    GrownFits(g, ss, newBlocks);
    DivUnique(g.count * g.spc, g.spc, g.count, 0);
    DivMonotone(g.count * g.spc, g.blocks - g.heap, g.spc);
  }

  /** The bitmap's entry after the growth, as the grower would find it again. */
  lemma {:induction false} VolumeAfter(
      d: seq<byte>, d': seq<byte>, region: seq<byte>, ss: nat, start: nat, newBlocks: nat, boot: BootPlan)
    requires VolumeRewritten(d, d', region, ss, start, newBlocks, boot)
    ensures SectorSizeOk(ss) && |boot.region| == 12 * ss && boot.newCount < U32_LIMIT
    ensures var vol := VolumeOf(d', ss, start, boot.region, boot.newCount);
      && EntryExact(d', vol, U32(boot.region, 96), boot.newCount)
      && PlanBitmap(d', vol, U32(boot.region, 96), boot.newCount, boot.newCount).Some?
  {
    hide BootMade, EntryExact, PlanBitmap, VolumeOf, U32, U64, Pow2, RegionsAccepted, ClustersFit, VolumeKept;
    hide VolumeLaid;
    var g := GeometryOf(region);
    RegionAfter(d, d', region, ss, start, newBlocks, boot);
    MadeBitmap(d, region, ss, start, newBlocks, boot);
    WidenedAfter(d, d', region, ss, start, newBlocks, boot);
    PlacesAfter(d, d', region, ss, start, newBlocks, boot);
    var vol := VolumeOf(d, ss, start, region, g.count);
    EntryAgain(d, d', ss, start, vol, U32(region, 96), g.count, boot.newCount, boot.bitmap, (start + g.blocks) * ss);
  }

  lemma {:induction false} MadeBitmap(
      d: seq<byte>, region: seq<byte>, ss: nat, start: nat, newBlocks: nat, boot: BootPlan)
    requires |region| >= 512 && BootMade(d, region, ss, start, newBlocks, boot)
    ensures SectorSizeOk(ss) && boot.newCount < U32_LIMIT
    ensures var vol := VolumeOf(d, ss, start, region, GeometryOf(region).count);
      && vol.heapLba == start + GeometryOf(region).heap && vol.limit == GeometryOf(region).count + 2
      && vol.sectorsPerCluster == GeometryOf(region).spc && VolumeShape(vol)
      && PlanBitmap(d, vol, U32(region, 96), GeometryOf(region).count, boot.newCount) == Some(boot.bitmap)
  {
    hide PlanBitmap, GrownRegion, U32, U64, Pow2, FatOf, GrownBlocks, GrownCount, LengthsOk, BootOk;
  }

  lemma {:induction false} PlacesAfter(
      d: seq<byte>, d': seq<byte>, region: seq<byte>, ss: nat, start: nat, newBlocks: nat, boot: BootPlan)
    requires VolumeRewritten(d, d', region, ss, start, newBlocks, boot)
    ensures |region| >= 512
    ensures var g := GeometryOf(region);
      && start * ss + 24 * ss <= (start + g.heap) * ss
        && (start + g.heap + g.count * g.spc) * ss <= (start + g.blocks) * ss
      && g.count <= boot.newCount && (start + g.heap) * ss <= (start + g.blocks) * ss
  {
    hide PlanBitmap, GrownRegion, U32, U64, Pow2, VolumeOf, GrownBlocks, GrownCount, LengthsOk, BootOk, VolumeKept;
    hide GeometryOf;
    PlacesGrow(GeometryOf(region), ss, start, U32(region, 80), newBlocks, boot);
  }

  lemma {:induction false} PlacesGrow(g: Geometry, ss: nat, start: nat, fat: nat, newBlocks: nat, boot: BootPlan)
    requires LengthsOk(g, ss, newBlocks) && boot.newCount == GrownCount(g, ss, newBlocks)
    requires 24 <= fat && fat + g.fatLength <= g.heap && g.heap + g.count * g.spc <= g.blocks
    ensures start * ss + 24 * ss <= (start + g.heap) * ss
      && (start + g.heap + g.count * g.spc) * ss <= (start + g.blocks) * ss
    ensures g.count <= boot.newCount && (start + g.heap) * ss <= (start + g.blocks) * ss
  {
    hide GrownBlocks, GrownCount, Capacity;
    CountGrows(g, ss, newBlocks, boot);
    VolumePlaces(ss, start, fat, g);
    hide LengthsOk;
    MulMonotone(start + g.heap, start + g.heap + g.count * g.spc, ss);
  }

  lemma {:induction false} WidenedAfter(
      d: seq<byte>, d': seq<byte>, region: seq<byte>, ss: nat, start: nat, newBlocks: nat, boot: BootPlan)
    requires VolumeRewritten(d, d', region, ss, start, newBlocks, boot)
    ensures |boot.region| == 12 * ss && |region| == 12 * ss && SectorSizeOk(ss)
    ensures VolumeOf(d', ss, start, boot.region, boot.newCount)
         == VolumeOf(d, ss, start, region, GeometryOf(region).count).(limit := boot.newCount + 2)
  {
    hide BootMade, U32, U64, Pow2, VolumeOf, RegionsAccepted, ClustersFit, VolumeKept, BootOk, FixedFieldsOk;
    var g := GeometryOf(region);
    RegionAfter(d, d', region, ss, start, newBlocks, boot);
    VolumePlaces(ss, start, U32(region, 80), g);
    PlacesAfter(d, d', region, ss, start, newBlocks, boot);
    var base, bytes, heapAt := start * ss + U32(region, 80) * ss, g.fatLength * ss, (start + g.heap) * ss;
    FatKept(d, d', ss, start, (start + g.blocks) * ss, boot.bitmap, base, bytes, heapAt);
    VolumeWidened(d, d', ss, start, region, boot.region, g.count, boot.newCount, base, bytes);
  }

  lemma {:induction false} FatKept(
      d: seq<byte>, d': seq<byte>, ss: nat, start: nat, hi: nat, bitmap: Patch, base: nat, bytes: nat, heapAt: nat)
    requires VolumeKept(d, d', ss, start, hi, bitmap)
    requires start * ss + 24 * ss <= base && base + bytes <= heapAt && heapAt <= bitmap.at && heapAt <= hi
    ensures base + bytes <= |d| && |d'| == |d| && forall x :: base <= x < base + bytes ==> d'[x] == d[x]
  {
  }
}
