/** The exFAT volume after a growth, as an independent reader checks it. */
module GrowExfat {
  import opened Common
  import opened Bytes
  import opened ClusterFiles
  import opened GrowPlan
  import opened GrowLayout

  // ----- the boot region -----

  lemma {:induction false} ChecksumLocal(a: seq<byte>, b: seq<byte>, n: nat)
    requires n <= |a| && n <= |b| && forall x :: 0 <= x < n ==> a[x] == b[x]
    ensures Checksum(a, n) == Checksum(b, n)
  {
    if n > 0 { ChecksumLocal(a, b, n - 1); }
  }

  /** A byte of the region that changes at run time. */
  predicate RunTimeByte(x: int) { x == 106 || x == 107 || x == 112 }

  /** The checksum does not see the bytes that change at run time. */
  lemma {:induction false} ChecksumIgnores(a: seq<byte>, b: seq<byte>, n: nat)
    requires n <= |a| && n <= |b| && forall x :: 0 <= x < n && !RunTimeByte(x) ==> a[x] == b[x]
    ensures Checksum(a, n) == Checksum(b, n)
  {
    if n > 0 { ChecksumIgnores(a, b, n - 1); }
  }

  lemma {:induction false} StepInjective(c: nat, e: nat, b: byte)
    requires c < U32_LIMIT && e < U32_LIMIT && c != e
    ensures (RotateRight(c) + b as nat) % U32_LIMIT != (RotateRight(e) + b as nat) % U32_LIMIT
  {
    assert RotateRight(c) < U32_LIMIT && RotateRight(e) < U32_LIMIT && RotateRight(c) != RotateRight(e);
    hide RotateRight;
    ModApart(RotateRight(c) + b as nat, RotateRight(e) + b as nat);
  }

  /** It does see every change of any one other byte. */
  lemma {:induction false} ChecksumDetects(a: seq<byte>, b: seq<byte>, n: nat, x: nat)
    requires x < n <= |a| && n <= |b| && !RunTimeByte(x) && a[x] != b[x]
    requires forall y :: 0 <= y < n && y != x ==> a[y] == b[y]
    ensures Checksum(a, n) != Checksum(b, n)
  {
    hide RotateRight;
    var c, e := Checksum(a, n - 1), Checksum(b, n - 1);
    if x == n - 1 {
      ChecksumLocal(a, b, n - 1);
      LastByteCounts(c, a[x], b[x]);
    } else {
      ChecksumDetects(a, b, n - 1, x);
      StepInjective(c, e, a[n - 1]);
    }
  }

  lemma {:induction false} LastByteCounts(c: nat, x: byte, y: byte)
    requires c < U32_LIMIT && x != y
    ensures (RotateRight(c) + x as nat) % U32_LIMIT != (RotateRight(c) + y as nat) % U32_LIMIT
  {
    assert RotateRight(c) < U32_LIMIT;
    hide RotateRight;
    ModApart(RotateRight(c) + x as nat, RotateRight(c) + y as nat);
  }

  /** Two sums less than 2^32 apart, both below twice that, differ when reduced. */
  lemma {:induction false} ModApart(p: nat, q: nat)
    requires p != q && p < q + U32_LIMIT && q < p + U32_LIMIT && p < 2 * U32_LIMIT && q < 2 * U32_LIMIT
    ensures p % U32_LIMIT != q % U32_LIMIT
  {
    if p < U32_LIMIT { DivUnique(p, U32_LIMIT, 0, p); } else { DivUnique(p, U32_LIMIT, 1, p - U32_LIMIT); }
    if q < U32_LIMIT { DivUnique(q, U32_LIMIT, 0, q); } else { DivUnique(q, U32_LIMIT, 1, q - U32_LIMIT); }
  }

  /** A region under its own checksum passes the check. */
  lemma {:induction false} WithChecksumOk(region: seq<byte>, ss: nat)
    requires SectorSizeOk(ss) && |region| == 12 * ss
    ensures ChecksumOk(WithChecksum(region, ss), ss)
  {
    hide Checksum, Filled;
    var r := WithChecksum(region, ss);
    ChecksumLocal(region, r, 11 * ss);
    assert r[11 * ss..] == r[11 * ss..11 * ss + ss];
  }

  /** A byte of the boot region that growth does not rewrite. */
  predicate FixedByte(ss: nat, x: int) {
    0 <= x < 11 * ss && !(72 <= x < 80) && !(92 <= x < 96)
  }

  /** The grown boot region: two new fields, a fresh checksum, every other byte as before. */
  lemma {:induction false} GrownRegionFields(region: seq<byte>, ss: nat, grown: nat, count: nat)
    requires SectorSizeOk(ss) && |region| == 12 * ss && grown < U64_LIMIT && count < U32_LIMIT
    ensures var r := GrownRegion(region, ss, grown, count);
      && U64(r, 72) == grown && U32(r, 92) == count && ChecksumOk(r, ss)
      && forall x :: FixedByte(ss, x) ==> r[x] == region[x]
  {
    hide ChecksumSector;
    var put := PutU32(PutU64(region, 72, grown), 92, count);
    WithChecksumOk(put, ss);
  }

  /** What growth leaves of the figures in the boot sector. */
  lemma {:induction false} GrownGeometry(region: seq<byte>, ss: nat, start: nat, grown: nat, count: nat)
    requires SectorSizeOk(ss) && |region| == 12 * ss && grown < U64_LIMIT && count < U32_LIMIT
    requires BootOk(region, ss, start)
    ensures var r := GrownRegion(region, ss, grown, count);
      && BootOk(r, ss, start) && GeometryOf(r) == GeometryOf(region).(blocks := grown, count := count)
      && U32(r, 80) == U32(region, 80) && U32(r, 96) == U32(region, 96) && r[109] == region[109]
  {
    hide GrownRegion, Pow2;
    GrownRegionFields(region, ss, grown, count);
    var r := GrownRegion(region, ss, grown, count);
    assert r[..3] == region[..3] && r[3..11] == region[3..11];
  }

  /** The reader's further checks on the boot region. */
  ghost predicate FixedFieldsOk(region: seq<byte>, ss: nat)
    requires SectorSizeOk(ss) && |region| == 12 * ss
  {
    && region[510] == 0x55 && region[511] == 0xAA
    && (forall x :: 120 <= x < 510 ==> region[x] == 0xF4)
    && (forall x :: 1 * ss <= x < 9 * ss && x % ss >= ss - 4 ==>
          region[x] == (if x % ss == ss - 2 then 0x55 else if x % ss == ss - 1 then 0xAA else 0))
    && region[110] == 1 && U32(region, 80) >= 128
    && U32(region, 88) % Pow2(region[109] as nat) == 0
  }

  lemma {:induction false} GrownFixedFields(region: seq<byte>, ss: nat, grown: nat, count: nat)
    requires SectorSizeOk(ss) && |region| == 12 * ss && grown < U64_LIMIT && count < U32_LIMIT
    ensures FixedFieldsOk(GrownRegion(region, ss, grown, count), ss) <==> FixedFieldsOk(region, ss)
  {
    hide GrownRegion, Pow2;
    GrownRegionFields(region, ss, grown, count);
    var r := GrownRegion(region, ss, grown, count);
    assert forall x :: 120 <= x < 512 ==> FixedByte(ss, x) && r[x] == region[x];
    assert forall x :: 1 * ss <= x < 9 * ss ==> FixedByte(ss, x) && r[x] == region[x];
    assert FixedByte(ss, 109) && FixedByte(ss, 110);
  }

  /** The new cluster count fits the new volume and the FAT it has always had. */
  lemma {:induction false} GrownClustersFit(g: Geometry, ss: nat, newBlocks: nat)
    requires SectorSizeOk(ss) && LengthsOk(g, ss, newBlocks)
    ensures var grown, count := GrownBlocks(g, ss, newBlocks), GrownCount(g, ss, newBlocks);
      g.heap + count * g.spc <= grown && (count + 2) * 4 <= g.fatLength * ss
  {
    GrownFits(g, ss, newBlocks);
    var count := GrownCount(g, ss, newBlocks);
    assert count <= g.fatLength * ss / 4 - 2;
    hide GrownBlocks, LengthsOk, Capacity;
    FloorBelow(GrownBlocks(g, ss, newBlocks) - g.heap, g.spc);
    QuarterHolds(count, g.fatLength * ss);
  }

  lemma {:induction false} FloorBelow(x: int, d: nat)
    requires d > 0
    ensures (x / d) * d <= x
  {
  }

  lemma {:induction false} QuarterHolds(count: int, bytes: nat)
    requires count <= bytes / 4 - 2
    ensures (count + 2) * 4 <= bytes
  {
  }

  /** Growing again to the same size changes nothing. */
  lemma {:induction false} GrownIsStable(g: Geometry, ss: nat, newBlocks: nat)
    requires LengthsOk(g, ss, newBlocks)
    ensures var g' := g.(blocks := GrownBlocks(g, ss, newBlocks), count := GrownCount(g, ss, newBlocks));
      && LengthsOk(g', ss, newBlocks)
      && GrownBlocks(g', ss, newBlocks) == g'.blocks && GrownCount(g', ss, newBlocks) == g'.count
  {
    GrownFits(g, ss, newBlocks);
  }

  // ----- chains and directories -----

  lemma {:induction false} WiderChain(vol: Volume, limit: nat, first: nat)
    requires vol.limit <= limit && ChainOf(vol, first).Some?
    ensures ChainOf(vol.(limit := limit), first) == ChainOf(vol, first)
  {
    var c := ChainOf(vol, first).value;
    var wide := vol.(limit := limit);
    forall i | 0 < i < |c| ensures Follows(wide, c[i - 1], c[i]) { assert Follows(vol, c[i - 1], c[i]); }
    assert IsChain(wide, first, c);
    SameChain(wide, first, c, ChainOf(wide, first).value);
  }

  /** Two disks that agree from `lo` to `hi` on the first 24 bytes of every directory entry. */
  ghost predicate SameHeads(d: seq<byte>, d': seq<byte>, lo: nat, hi: nat) {
    hi <= |d| && |d'| == |d| && forall x :: lo <= x < hi && x % 32 < 24 ==> d'[x] == d[x]
  }

  lemma {:induction false} ScanSame(a: seq<byte>, b: seq<byte>, o: nat, found: Option<nat>)
    requires |a| % 32 == 0 && |b| == |a| && o % 32 == 0
    requires found.Some? ==> found.value + 32 <= |a|
    requires forall x :: 0 <= x < |a| && x % 32 == 0 ==> a[x] == b[x]
    ensures ScanDirectory(a, o, found) == ScanDirectory(b, o, found)
    decreases |a| - o
  {
    if o < |a| && a[o] != 0 && !(a[o] == 0x81 && found.Some?) {
      ScanSame(a, b, o + 32, if a[o] == 0x81 then Some(o) else found);
    }
  }

  lemma {:induction false} FindBitmapSame(
      d: seq<byte>, d': seq<byte>, vol: Volume, limit: nat, chain: seq<nat>, hi: nat)
    requires VolumeShape(vol) && 0 <= vol.heapLba
    requires forall i :: 0 <= i < |chain| ==> 2 <= chain[i] < vol.limit
    requires (vol.heapLba + (vol.limit - 2) * vol.sectorsPerCluster) * vol.sectorSize <= hi
    requires 2 <= vol.limit && SameHeads(d, d', vol.heapLba * vol.sectorSize, hi)
    ensures FindBitmap(d', vol.(limit := limit), chain) == FindBitmap(d, vol, chain)
  {
    hide ScanDirectory, U32, VolumeShape;
    if chain != [] {
      var base := vol.ClusterToLba(chain[0]) * vol.sectorSize;
      var size := vol.sectorsPerCluster * vol.sectorSize;
      ClusterPlace(vol, chain[0]);
      ClusterSizeEven(vol);
      DirectorySame(d, d', base, size, vol.heapLba * vol.sectorSize, hi);
      assert forall i :: 0 <= i < |chain[1..]| ==> chain[1..][i] == chain[i + 1];
      FindBitmapSame(d, d', vol, limit, chain[1..], hi);
    }
  }

  lemma {:induction false} DirectorySame(d: seq<byte>, d': seq<byte>, base: nat, size: nat, lo: nat, hi: nat)
    requires SameHeads(d, d', lo, hi) && lo <= base && base + size <= hi && base % 32 == 0 && size % 32 == 0
    ensures var a, b := d[base..base + size], d'[base..base + size];
      && ScanDirectory(a, 0, None) == ScanDirectory(b, 0, None)
      && (ScanDirectory(a, 0, None).One? ==>
            var o := ScanDirectory(a, 0, None).offset; U32(d, base + o + 20) == U32(d', base + o + 20))
  {
    hide U32, ScanDirectory;
    var a, b := d[base..base + size], d'[base..base + size];
    forall x | 0 <= x < size && x % 32 == 0 ensures a[x] == b[x] {
      assert d'[base + x] == d[base + x];
    }
    ScanSame(a, b, 0, None);
    ScanPlace(a, 0, None);
    if ScanDirectory(a, 0, None).One? {
      FieldSame(d, d', base, ScanDirectory(a, 0, None).offset, lo, hi);
    }
  }

  lemma {:induction false} FieldSame(d: seq<byte>, d': seq<byte>, base: nat, o: nat, lo: nat, hi: nat)
    requires SameHeads(d, d', lo, hi) && lo <= base && base + o + 32 <= hi && base % 32 == 0 && o % 32 == 0
    ensures U32(d, base + o + 20) == U32(d', base + o + 20)
  {
    var p := base + o + 20;
    forall x | p <= x < p + 4 ensures d'[x] == d[x] {
      EntryPlace(base, o + 32, o, base + o + 32);
      DivUnique(x, 32, (base + o) / 32, x - base - o);
    }
  }

  lemma {:induction false} FatSame(d: seq<byte>, d': seq<byte>, base: nat, bytes: nat)
    requires |d'| == |d| && base + bytes <= |d| && forall x :: base <= x < base + bytes ==> d'[x] == d[x]
    ensures FatOf(d', base, bytes) == FatOf(d, base, bytes)
  {
  }

  // ----- the volume on the grown disk -----

  /** Apart from the bitmap's entry, the old volume behind its boot regions is as it was. */
  ghost predicate VolumeKept(d: seq<byte>, d': seq<byte>, ss: nat, start: nat, oldEnd: nat, bitmap: Patch) {
    && |d'| == |d| && oldEnd <= |d| && bitmap.at + 32 <= |d| && |bitmap.bytes| == 32
    && (forall x :: start * ss + 24 * ss <= x < oldEnd && !(bitmap.at <= x < bitmap.at + 32) ==> d'[x] == d[x])
    && d'[bitmap.at..bitmap.at + 32] == bitmap.bytes
  }

  /** The bitmap's entry changes in its length only. */
  lemma {:induction false} EntryHead(
      d: seq<byte>, d': seq<byte>, ss: nat, start: nat, oldEnd: nat, bitmap: Patch, size: nat)
    requires VolumeKept(d, d', ss, start, oldEnd, bitmap) && size < U64_LIMIT
    requires bitmap.bytes == PutU64(d[bitmap.at..bitmap.at + 32], 24, size) && bitmap.at % 32 == 0
    ensures U64(d', bitmap.at + 24) == size
    ensures forall x :: start * ss + 24 * ss <= x < oldEnd && !(bitmap.at + 24 <= x < bitmap.at + 32) ==> d'[x] == d[x]
    ensures SameHeads(d, d', start * ss + 24 * ss, oldEnd)
  {
    var at := bitmap.at;
    assert U64(d', at + 24) == U64(d'[at..at + 32], 24);
    forall x | start * ss + 24 * ss <= x < oldEnd && !(at + 24 <= x < at + 32) ensures d'[x] == d[x] {
      if at <= x < at + 24 {
        assert d'[x] == d'[at..at + 32][x - at];
      }
    }
    forall x | at + 24 <= x < at + 32 ensures x % 32 >= 24 {
      DivUnique(x, 32, at / 32, x - at);
    }
  }

  /** The figures of a laid-out volume, as byte positions. */
  lemma {:induction false} VolumePlaces(ss: nat, start: nat, fat: nat, g: Geometry)
    requires 24 <= fat && fat + g.fatLength <= g.heap && g.heap + g.count * g.spc <= g.blocks
    ensures start * ss + 24 * ss <= start * ss + fat * ss
    ensures start * ss + fat * ss + g.fatLength * ss <= (start + g.heap) * ss
    ensures start * ss + 24 * ss <= (start + g.heap) * ss
    ensures (start + g.heap + g.count * g.spc) * ss <= (start + g.blocks) * ss
  {
    MulMonotone(24, fat, ss);
    MulAdd(start, g.heap, ss);
    MulAdd(fat, g.fatLength, ss);
    MulMonotone(fat + g.fatLength, g.heap, ss);
    MulMonotone(start + g.heap + g.count * g.spc, start + g.blocks, ss);
  }

  /** Read back, the volume is the old one under wider bounds. */
  lemma {:induction false} VolumeWidened(
      d: seq<byte>, d': seq<byte>, ss: nat, start: nat, region: seq<byte>, region': seq<byte>,
      count: nat, newCount: nat, base: nat, bytes: nat)
    requires base + bytes <= |d| && |d'| == |d| && forall x :: base <= x < base + bytes ==> d'[x] == d[x]
    requires |region| >= 512 && |region'| >= 512
    requires U32(region', 80) == U32(region, 80) && U32(region', 84) == U32(region, 84)
      && U32(region', 88) == U32(region, 88)
    requires region'[109] == region[109]
    requires base == start * ss + U32(region, 80) * ss && bytes == U32(region, 84) * ss
    ensures VolumeOf(d', ss, start, region', newCount)
         == VolumeOf(d, ss, start, region, count).(limit := newCount + 2)
  {
    hide FatOf, U32, Pow2;
    FatSame(d, d', base, bytes);
  }

  /** The bitmap on the grown disk: found at the same entry, its chain and the root's chain as before. */
  lemma {:induction false} GrownBitmap(
      d: seq<byte>, d': seq<byte>, vol: Volume, rootCluster: nat, oldCount: nat, newCount: nat, bitmap: Patch, hi: nat)
    returns (root: seq<nat>, first: nat, chain: seq<nat>)
    requires VolumeShape(vol) && newCount < U32_LIMIT && vol.limit == oldCount + 2 && oldCount <= newCount
    requires PlanBitmap(d, vol, rootCluster, oldCount, newCount) == Some(bitmap)
    requires 0 <= vol.heapLba && (vol.heapLba + oldCount * vol.sectorsPerCluster) * vol.sectorSize <= hi
    requires SameHeads(d, d', vol.heapLba * vol.sectorSize, hi)
    ensures ChainOf(vol.(limit := newCount + 2), rootCluster) == Some(root)
    ensures ChainOf(vol.(limit := newCount + 2), first) == Some(chain)
    ensures FindBitmap(d', vol.(limit := newCount + 2), root) == At(bitmap.at, first)
    ensures CeilDiv(newCount, 8) <= |chain| * (vol.sectorsPerCluster * vol.sectorSize)
    ensures bitmap.at + 32 <= |d| && bitmap.bytes == PutU64(d[bitmap.at..bitmap.at + 32], 24, CeilDiv(newCount, 8))
  {
    hide PlanBitmap, FindBitmap, ChainOf, CeilDiv, PutU64;
    root, first, chain := BitmapFacts(d, vol, rootCluster, oldCount, newCount, bitmap);
    WiderChain(vol, newCount + 2, rootCluster);
    WiderChain(vol, newCount + 2, first);
    ChainInside(vol, rootCluster, root);
    FindBitmapSame(d, d', vol, newCount + 2, root, hi);
  }

  /** Planning the same length again finds the bitmap's entry in order. */
  lemma {:induction false} BitmapPlansAgain(
      d: seq<byte>, vol: Volume, rootCluster: nat, count: nat, root: seq<nat>, at: nat, first: nat, chain: seq<nat>)
    requires VolumeShape(vol) && count < U32_LIMIT && at + 32 <= |d|
    requires ChainOf(vol, rootCluster) == Some(root) && ChainOf(vol, first) == Some(chain)
    requires FindBitmap(d, vol, root) == At(at, first) && U64(d, at + 24) == CeilDiv(count, 8)
    requires CeilDiv(count, 8) <= |chain| * (vol.sectorsPerCluster * vol.sectorSize)
    ensures PlanBitmap(d, vol, rootCluster, count, count).Some?
  {
    hide FindBitmap, ChainOf, CeilDiv;
  }
}
