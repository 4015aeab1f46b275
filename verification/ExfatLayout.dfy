/** Laying out a growable exFAT volume, and how far growth can later take it. */
module ExfatLayout {
  import opened Common
  import opened Bytes
  import opened ClusterFiles
  import opened GrowPlan
  import opened GrowExfat

  const FAT_OFFSET: nat := 128

  datatype Layout = Layout(fat: nat, fatLength: nat, heap: nat, count: nat, spc: nat)

  predicate PowerOfTwo(n: nat): (r: bool)
    ensures r ==> n > 0
  {
    n > 0 && (n == 1 || (n % 2 == 0 && PowerOfTwo(n / 2)))
  }

  function MaxClusters(ss: nat, spc: nat, maxMib: nat): nat
    requires ss > 0 && spc > 0
  {
    Max(16, maxMib * 0x10_0000 / ss / spc)
  }

  /** The heap starts on the first cluster boundary behind the FAT. */
  function HeapFor(fatLength: nat, spc: nat): nat
    requires spc > 0
  {
    CeilDiv(FAT_OFFSET + fatLength, spc) * spc
  }

  function CountFor(part: nat, heap: nat, spc: nat): nat
    requires spc > 0 && heap < part
  {
    (part - heap) / spc
  }

  function FatFor(count: nat, ss: nat): nat
    requires ss > 0
  {
    CeilDiv((count + 2) * 4, ss)
  }

  /**
   What a volume of `part` blocks has to satisfy: the FAT in block 128, the
   heap right behind it on a cluster boundary, all the whole clusters that the
   partition then has room for, and a FAT entry for each.
   */
  ghost predicate Sound(l: Layout, ss: nat, part: nat) {
    && PowerOfTwo(l.spc) && l.fat == 128 && l.heap % l.spc == 0 && 128 + l.fatLength == l.heap < part
    && l.count == (part - l.heap) / l.spc && l.count >= 16
    && (l.count + 2) * 4 <= l.fatLength * ss
  }

  /** The heap starts on the first cluster boundary that leaves room for the FAT behind block 128. */
  lemma {:induction false} HeapIs(fatLength: nat, spc: nat)
    requires spc > 0
    ensures HeapFor(fatLength, spc) % spc == 0
    ensures 128 + fatLength <= HeapFor(fatLength, spc) < 128 + fatLength + spc
  {
    HeapAligned(fatLength, spc);
    CeilDivBounds(128 + fatLength, spc);
  }

  /** The shortest FAT with four bytes for each cluster and two more. */
  lemma {:induction false} FatIs(count: nat, ss: nat)
    requires ss > 0
    ensures (count + 2) * 4 <= FatFor(count, ss) * ss < (count + 2) * 4 + ss
  {
    CeilDivBounds((count + 2) * 4, ss);
  }

  /** As many clusters as fit behind the heap's start. */
  lemma {:induction false} CountIs(part: nat, heap: nat, spc: nat)
    requires spc > 0 && heap < part
    ensures heap + CountFor(part, heap, spc) * spc <= part < heap + (CountFor(part, heap, spc) + 1) * spc
  {
    MulAdd(CountFor(part, heap, spc), 1, spc);
  }

  /** The clusters of a partition of `maxMib` mebibytes, but no fewer than 16. */
  lemma {:induction false} MaxIs(ss: nat, spc: nat, maxMib: nat)
    requires ss > 0 && spc > 0
    ensures var n := MaxClusters(ss, spc, maxMib);
      && n >= 16 && maxMib * 1048576 < (n + 1) * spc * ss
      && (n > 16 ==> n * spc * ss <= maxMib * 1048576)
  {
    var bytes := maxMib * 1048576;
    var blocks := bytes / ss;
    var m := blocks / spc;
    assert bytes < (blocks + 1) * ss && blocks * ss <= bytes by { MulAdd(blocks, 1, ss); }
    assert blocks + 1 <= (m + 1) * spc && m * spc <= blocks by { MulAdd(m, 1, spc); }
    var n := MaxClusters(ss, spc, maxMib);
    MulMonotone(m + 1, n + 1, spc);
    MulMonotone(blocks + 1, (n + 1) * spc, ss);
    MulMonotone(m * spc, blocks, ss);
  }

  lemma {:induction false} CeilDivBounds(v: nat, d: nat)
    requires d > 0
    ensures v <= CeilDiv(v, d) * d < v + d
  {
    var q := (v + d - 1) / d;
    assert v + d - 1 == q * d + (v + d - 1) % d;
  }

  lemma {:induction false} CeilDivMonotone(a: nat, b: nat, d: nat)
    requires d > 0 && a <= b
    ensures CeilDiv(a, d) <= CeilDiv(b, d)
  {
    DivMonotone(a + d - 1, b + d - 1, d);
  }

  lemma {:induction false} HeapAligned(fatLength: nat, spc: nat)
    requires spc > 0
    ensures HeapFor(fatLength, spc) % spc == 0 && FAT_OFFSET + fatLength <= HeapFor(fatLength, spc)
      && spc <= HeapFor(fatLength, spc)
  {
    var q := CeilDiv(FAT_OFFSET + fatLength, spc);
    CeilDivBounds(FAT_OFFSET + fatLength, spc);
    DivUnique(q * spc, spc, q, 0);
    if q >= 1 { MulMonotone(1, q, spc); }
  }

  /** A longer FAT leaves room for no more clusters, which need no longer a FAT. */
  lemma {:induction false} SecondRoundSettles(ss: nat, spc: nat, part: nat, before: nat, after: nat)
    requires ss > 0 && spc > 0 && before <= after && HeapFor(after, spc) < part
    ensures HeapFor(before, spc) <= HeapFor(after, spc)
    ensures FatFor(CountFor(part, HeapFor(after, spc), spc), ss)
         <= FatFor(CountFor(part, HeapFor(before, spc), spc), ss)
  {
    CeilDivMonotone(FAT_OFFSET + before, FAT_OFFSET + after, spc);
    MulMonotone(CeilDiv(FAT_OFFSET + before, spc), CeilDiv(FAT_OFFSET + after, spc), spc);
    var a, b := CountFor(part, HeapFor(after, spc), spc), CountFor(part, HeapFor(before, spc), spc);
    DivMonotone(part - HeapFor(after, spc), part - HeapFor(before, spc), spc);
    CeilDivMonotone((a + 2) * 4, (b + 2) * 4, ss);
  }

  /**
   Where the heap goes, given the shortest FAT allowed: behind that FAT if it
   can describe all the clusters that leaves, or else behind the FAT they need.
   */
  function HeapChosen(ss: nat, part: nat, spc: nat, least: nat): (heap: nat)
    requires ss > 0 && spc > 0
    ensures heap % spc == 0 && FAT_OFFSET + least <= heap
    ensures heap < part ==> (CountFor(part, heap, spc) + 2) * 4 <= (heap - FAT_OFFSET) * ss
  {
    HeapAligned(least, spc);
    var first := HeapFor(least, spc);
    if part <= first then first
    else
      var needed := FatFor(CountFor(part, first, spc), ss);
      CeilDivBounds((CountFor(part, first, spc) + 2) * 4, ss);
      if needed <= first - FAT_OFFSET then
        MulMonotone(needed, first - FAT_OFFSET, ss);
        first
      else
        HeapAligned(needed, spc);
        HeapSettles(ss, spc, part, least, needed);
        HeapFor(needed, spc)
  }

  lemma {:induction false} HeapSettles(ss: nat, spc: nat, part: nat, least: nat, needed: nat)
    requires ss > 0 && spc > 0 && least <= needed && HeapFor(least, spc) < part
    requires needed == FatFor(CountFor(part, HeapFor(least, spc), spc), ss)
    ensures var heap := HeapFor(needed, spc);
      FAT_OFFSET + needed <= heap &&
      (heap < part ==> (CountFor(part, heap, spc) + 2) * 4 <= (heap - FAT_OFFSET) * ss)
  {
    hide CeilDiv, CountFor;
    var heap := HeapFor(needed, spc);
    HeapAligned(needed, spc);
    if heap < part {
      SecondRoundSettles(ss, spc, part, least, needed);
      var again := FatFor(CountFor(part, heap, spc), ss);
      CeilDivBounds((CountFor(part, heap, spc) + 2) * 4, ss);
      MulMonotone(again, heap - FAT_OFFSET, ss);
    }
  }

  predicate ClusterSizeOk(ss: nat, clusterSize: nat)
    requires ss > 0
  {
    clusterSize % ss == 0 && PowerOfTwo(clusterSize / ss)
  }

  /**
   exfat_geometry: the loop settles in at most two rounds, and the layout it
   settles on is sound. Growable media get a FAT for the largest partition
   they may grow to.
   */
  method ExfatGeometry(ss: nat, part: nat, growable: bool, clusterSize: nat, maxMib: nat)
    returns (r: Result<Layout, string>, ghost rounds: nat)
    requires SectorSizeOk(ss)
    ensures rounds <= 2
    ensures r.Ok? ==> Sound(r.value, ss, part)
    ensures growable && !ClusterSizeOk(ss, clusterSize) ==> r.Err?
    ensures !growable || ClusterSizeOk(ss, clusterSize) ==>
      var spc := if growable then clusterSize / ss else Max(1, 4096 / ss);
      var least := if growable then FatFor(MaxClusters(ss, spc, maxMib), ss) else 1;
      var heap := HeapChosen(ss, part, spc, least);
      && (r.Ok? <==> heap < part && CountFor(part, heap, spc) >= 16)
      && (r.Ok? ==> r.value.spc == spc && r.value.heap == heap && least <= r.value.fatLength)
  {
    hide CeilDiv, FatFor, HeapFor, MaxClusters;
    assert PowerOfTwo(1) && PowerOfTwo(2) && PowerOfTwo(4) && PowerOfTwo(8);
    hide PowerOfTwo;
    rounds := 0;
    var spc: nat := Max(1, 4096 / ss);
    if growable {
      if clusterSize % ss != 0 {
        return Err("growable exFAT cluster size must align to sector size"), 0;
      }
      spc := clusterSize / ss;
      if !PowerOfTwo(spc) {
        return Err("growable exFAT sectors per cluster must be a power of two"), 0;
      }
    }
    var fatLength: nat := if growable then FatFor(MaxClusters(ss, spc, maxMib), ss) else 1;
    ghost var least := fatLength;
    ghost var chosen := HeapChosen(ss, part, spc, least);
    var heap, count;
    while true
      invariant PowerOfTwo(spc) && rounds <= 1 && least <= fatLength
      invariant rounds == 0 ==> fatLength == least
      invariant rounds == 1 ==> HeapFor(least, spc) < part
      invariant rounds == 1 ==>
        fatLength == FatFor(CountFor(part, HeapFor(least, spc), spc), ss) > HeapFor(least, spc) - FAT_OFFSET
      decreases 2 - rounds
    {
      heap := HeapFor(fatLength, spc);
      HeapAligned(fatLength, spc);
      if rounds == 1 && heap < part {
        SecondRoundSettles(ss, spc, part, least, fatLength);
      }
      rounds := rounds + 1;
      fatLength := heap - FAT_OFFSET;
      if part <= heap {
        return Err("partition is too small for exFAT"), rounds;
      }
      count := CountFor(part, heap, spc);
      var required := FatFor(count, ss);
      if required <= fatLength {
        break;
      }
      fatLength := required;
    }
    if count < 16 {
      return Err("partition is too small for exFAT"), rounds;
    }
    r := Ok(Layout(FAT_OFFSET, fatLength, heap, count, spc));
  }

  /** The volume as the boot sector describes it once it has been written. */
  function WrittenGeometry(l: Layout, part: nat): Geometry {
    Geometry(l.fatLength, l.heap, part, l.count, l.spc)
  }

  lemma {:induction false} FatHolds(clusters: nat, fatLength: nat, ss: nat)
    requires ss > 0 && FatFor(clusters, ss) <= fatLength
    ensures clusters <= fatLength * ss / 4 - 2
  {
    hide CeilDiv;
    CeilDivBounds((clusters + 2) * 4, ss);
    MulMonotone(FatFor(clusters, ss), fatLength, ss);
    DivMonotone((clusters + 2) * 4, fatLength * ss, 4);
  }

  /** A heap that starts behind its first cluster's width makes up for the blocks that rounding drops. */
  lemma {:induction false} ClustersReach(most: nat, heap: nat, spc: nat, clusters: nat)
    requires spc > 0 && heap > 0 && heap % spc == 0 && most / spc <= clusters
    ensures most <= heap + clusters * spc
  {
    MulMonotone(most / spc, clusters, spc);
    DivUnique(0, spc, 0, 0);
    if heap < spc { DivUnique(heap, spc, 0, heap); }
    assert most == (most / spc) * spc + most % spc;
  }

  lemma {:induction false} ClustersPlanned(ss: nat, spc: nat, maxMib: nat)
    requires ss > 0 && spc > 0
    ensures maxMib * 0x10_0000 / ss / spc <= MaxClusters(ss, spc, maxMib)
  {
  }

  lemma {:induction false} FitsPlan(g: Geometry, ss: nat, available: nat, most: nat, clusters: nat)
    requires g.spc > 0 && g.fatLength > 0 && g.heap > 24 && g.heap < g.blocks <= available <= most
    requires g.count == (g.blocks - g.heap) / g.spc && most / g.spc <= clusters <= MAX_CLUSTERS
    requires clusters <= g.fatLength * ss / 4 - 2 && most <= g.heap + clusters * g.spc
    ensures LengthsOk(g, ss, available) && GrownBlocks(g, ss, available) == available
    ensures GrownCount(g, ss, available) >= g.count
  {
    DivMonotone(g.blocks - g.heap, most, g.spc);
    DivMonotone(g.blocks - g.heap, available - g.heap, g.spc);
    MulMonotone(clusters, Capacity(g, ss), g.spc);
  }

  /**
   Layout and growth agree: media laid out for a largest partition of `M`
   blocks grow to all the blocks on offer, for any number up to `M`, as long
   as the cluster limit of exFAT does not come first.
   */
  lemma {:induction false} LaidOutMediaGrowFully(l: Layout, ss: nat, part: nat, maxMib: nat, available: nat)
    requires SectorSizeOk(ss) && Sound(l, ss, part)
    requires FatFor(MaxClusters(ss, l.spc, maxMib), ss) <= l.fatLength && MaxClusters(ss, l.spc, maxMib) <= MAX_CLUSTERS
    requires part <= available <= maxMib * 0x10_0000 / ss
    ensures LengthsOk(WrittenGeometry(l, part), ss, available)
    ensures GrownBlocks(WrittenGeometry(l, part), ss, available) == available
    ensures GrownCount(WrittenGeometry(l, part), ss, available) >= 16
  {
    hide FatFor, CeilDiv, MaxClusters;
    var g := WrittenGeometry(l, part);
    var most := maxMib * 0x10_0000 / ss;
    var clusters := MaxClusters(ss, l.spc, maxMib);
    ClustersPlanned(ss, l.spc, maxMib);
    FatHolds(clusters, l.fatLength, ss);
    ClustersReach(most, l.heap, l.spc, clusters);
    FitsPlan(g, ss, available, most, clusters);
  }
}
