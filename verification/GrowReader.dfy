/** What the independent reader makes of a grown volume: all it accepted before, it accepts again. */
module GrowReader {
  import opened Common
  import opened Bytes
  import opened ClusterFiles
  import opened RegionReads
  import opened GrowPlan
  import opened GrowLayout
  import opened GrowExfat
  import opened ExfatReader
  import opened GrowVolume

  /**
   Two disks and the volumes read from them: wider bounds, the same FAT entries
   below the old bound, and up to `hi` the same bytes in the cluster heap except
   that the entry at `at` gives the length `size`.
   */
  ghost predicate Regrown(d: seq<byte>, d': seq<byte>, vol: Volume, vol': Volume, hi: nat, at: nat, size: nat) {
    && VolumeShape(vol) && 0 <= vol.heapLba && 2 <= vol.limit
    && vol' == vol.(fat := vol'.fat, limit := vol'.limit) && vol.limit <= vol'.limit
    && FatAgrees(vol.fat, vol'.fat, vol.limit)
    && (vol.heapLba + (vol.limit - 2) * vol.sectorsPerCluster) * vol.sectorSize <= hi
    && HeapKept(d, d', vol.heapLba * vol.sectorSize, hi, at, size)
  }

  ghost predicate FatAgrees(fat: map<nat, nat>, fat': map<nat, nat>, limit: nat) {
    forall c :: 0 <= c < limit ==> c in fat && c in fat' && fat'[c] == fat[c]
  }

  ghost predicate HeapKept(d: seq<byte>, d': seq<byte>, lo: nat, hi: nat, at: nat, size: nat) {
    && hi <= |d| && |d'| == |d| && at % 32 == 0 && at + 32 <= |d| && U64(d', at + 24) == size
    && forall x :: lo <= x < hi && !(at + 24 <= x < at + 32) ==> d'[x] == d[x]
  }

  lemma {:induction false} ChainStays(
      d: seq<byte>, d': seq<byte>, vol: Volume, vol': Volume, hi: nat, at: nat, size: nat, s: nat, c: seq<nat>)
    requires Regrown(d, d', vol, vol', hi, at, size) && IsChain(vol, s, c) && s < vol.limit
    ensures IsChain(vol', s, c)
  {
    ChainInside(vol, s, c);
    forall i | 0 < i < |c| ensures Follows(vol', c[i - 1], c[i]) { assert Follows(vol, c[i - 1], c[i]); }
  }

  lemma {:induction false} ClusterThere(
      d: seq<byte>, d': seq<byte>, vol: Volume, vol': Volume, hi: nat, at: nat, size: nat, c: nat)
    requires Regrown(d, d', vol, vol', hi, at, size) && 2 <= c < vol.limit
    ensures InImage(d, vol, c) && InImage(d', vol', c)
  {
    hide U64;
    ClusterPlace(vol, c);
    MulMonotone(0, vol.heapLba, vol.sectorSize);
    MulMonotone(0, vol.sectorsPerCluster, vol.sectorSize);
  }

  function ClusterSize(vol: Volume): (r: nat)
    requires VolumeShape(vol)
    ensures r > 0 && r % 32 == 0
  {
    ClusterSizeEven(vol);
    MulMonotone(1, vol.sectorsPerCluster, vol.sectorSize);
    vol.sectorsPerCluster * vol.sectorSize
  }

  /** Byte `m` of the `i`-th cluster, among the joined clusters and on the disk. */
  function JoinedIndex(vol: Volume, i: nat, m: nat): nat
    requires VolumeShape(vol)
  {
    i * ClusterSize(vol) + m
  }

  function JoinedPlace(vol: Volume, chain: seq<nat>, i: nat, m: nat): int
    requires i < |chain|
  {
    vol.ClusterToLba(chain[i]) * vol.sectorSize + m
  }

  lemma {:induction false} Split(n: nat, size: nat, x: nat) returns (i: nat, m: nat)
    requires size > 0 && size % 32 == 0 && x < n * size
    ensures i < n && m < size && x == i * size + m && x % 32 == m % 32
  {
    i, m := DivMod(size, x);
    if n <= i { MulMonotone(n, i, size); }
    SlotSum(i, size, m);
  }

  lemma {:induction false} DivMod(size: nat, x: nat) returns (i: nat, m: nat)
    requires size > 0
    ensures m < size && x == i * size + m
  {
    i, m := x / size, x % size;
  }

  lemma {:induction false} SlotSum(j: nat, size: nat, p: nat)
    requires size % 32 == 0
    ensures (j * size + p) % 32 == p % 32
    ensures p < size && p % 32 == 0 ==> p + 32 <= size
  {
    MulAssoc(j, size / 32, 32);
    DivUnique(j * size + p, 32, j * (size / 32) + p / 32, p % 32);
  }

  /** Every byte of the joined clusters is some byte of some cluster. */
  lemma {:induction false} JoinedSplit(d: seq<byte>, vol: Volume, chain: seq<nat>, x: nat) returns (i: nat, m: nat)
    requires VolumeShape(vol) && forall i :: 0 <= i < |chain| ==> InImage(d, vol, chain[i])
    requires x < |Content(d, vol, chain)|
    ensures i < |chain| && m < ClusterSize(vol) && x == JoinedIndex(vol, i, m) && x % 32 == m % 32
  {
    hide Content, InImage;
    i, m := Split(|chain|, ClusterSize(vol), x);
  }

  lemma {:induction false} JoinedAt(d: seq<byte>, vol: Volume, chain: seq<nat>, i: nat, m: nat)
    requires VolumeShape(vol) && forall i :: 0 <= i < |chain| ==> InImage(d, vol, chain[i])
    requires i < |chain| && m < ClusterSize(vol)
    ensures 0 <= JoinedPlace(vol, chain, i, m) < |d| && JoinedIndex(vol, i, m) < |Content(d, vol, chain)|
    ensures Content(d, vol, chain)[JoinedIndex(vol, i, m)] == d[JoinedPlace(vol, chain, i, m)]
  {
    hide Content, InImage;
    ContentAt(d, vol, chain, i, m);
  }

  /** A joined byte lies in the heap, as far into a 32-byte entry as it does in its cluster. */
  lemma {:induction false} JoinedInHeap(vol: Volume, chain: seq<nat>, i: nat, m: nat)
    requires VolumeShape(vol) && 0 <= vol.heapLba && i < |chain| && m < ClusterSize(vol)
    requires 2 <= chain[i] < vol.limit
    ensures vol.heapLba * vol.sectorSize <= JoinedPlace(vol, chain, i, m)
    ensures JoinedPlace(vol, chain, i, m) < (vol.heapLba + (vol.limit - 2) * vol.sectorsPerCluster) * vol.sectorSize
    ensures JoinedPlace(vol, chain, i, m) % 32 == m % 32
  {
    ClusterPlace(vol, chain[i]);
    var base := vol.ClusterToLba(chain[i]) * vol.sectorSize;
    hide VolumeShape;
    DivUnique(base + m, 32, base / 32 + m / 32, m % 32);
  }

  /** The clusters of a chain that the reader reads. */
  ghost predicate Read(d: seq<byte>, vol: Volume, first: nat, chain: seq<nat>) {
    IsChain(vol, first, chain)
      && forall i :: 0 <= i < |chain| ==> 2 <= chain[i] < vol.limit && InImage(d, vol, chain[i])
  }

  lemma {:induction false} ReadStays(
      d: seq<byte>, d': seq<byte>, vol: Volume, vol': Volume, hi: nat, at: nat, size: nat, first: nat, chain: seq<nat>)
    requires Regrown(d, d', vol, vol', hi, at, size) && IsChain(vol, first, chain) && first < vol.limit
    ensures Read(d, vol, first, chain) && Read(d', vol', first, chain)
  {
    hide Regrown, InImage;
    ChainStays(d, d', vol, vol', hi, at, size, first, chain);
    ChainInside(vol, first, chain);
    assert vol.limit <= vol'.limit by { LimitGrows(d, d', vol, vol', hi, at, size); }
    forall i | 0 <= i < |chain| ensures InImage(d, vol, chain[i]) && InImage(d', vol', chain[i]) {
      ClusterThere(d, d', vol, vol', hi, at, size, chain[i]);
    }
  }

  lemma {:induction false} LimitGrows(
      d: seq<byte>, d': seq<byte>, vol: Volume, vol': Volume, hi: nat, at: nat, size: nat)
    requires Regrown(d, d', vol, vol', hi, at, size)
    ensures vol.limit <= vol'.limit
  {
  }

  /** The joined clusters before and after: the same but for the eight bytes of the entry's length. */
  lemma {:induction false} JoinedSame(
      d: seq<byte>, d': seq<byte>, vol: Volume, vol': Volume, hi: nat, at: nat, size: nat, chain: seq<nat>,
      i: nat, m: nat)
    requires Regrown(d, d', vol, vol', hi, at, size)
    requires forall i :: 0 <= i < |chain| ==>
      2 <= chain[i] < vol.limit && InImage(d, vol, chain[i]) && InImage(d', vol', chain[i])
    requires i < |chain| && m < ClusterSize(vol)
    ensures JoinedPlace(vol, chain, i, m) % 32 == m % 32 && 0 <= JoinedPlace(vol, chain, i, m) < |d|
    ensures |Content(d', vol', chain)| == |Content(d, vol, chain)| && JoinedIndex(vol, i, m) < |Content(d, vol, chain)|
    ensures Content(d, vol, chain)[JoinedIndex(vol, i, m)] == d[JoinedPlace(vol, chain, i, m)]
    ensures Content(d', vol', chain)[JoinedIndex(vol, i, m)] == d'[JoinedPlace(vol, chain, i, m)]
    ensures !(at + 24 <= JoinedPlace(vol, chain, i, m) < at + 32) ==>
      d'[JoinedPlace(vol, chain, i, m)] == d[JoinedPlace(vol, chain, i, m)]
  {
    hide Content, InImage, U64;
    JoinedAt(d, vol, chain, i, m);
    JoinedAt(d', vol', chain, i, m);
    JoinedInHeap(vol, chain, i, m);
  }

  /** Two directories that differ in the lengths of their entries only. */
  ghost predicate SameHeadsIn(a: seq<byte>, b: seq<byte>) {
    |a| == |b| && forall x :: 0 <= x < |a| && x % 32 < 24 ==> a[x] == b[x]
  }

  lemma {:induction false} HeadsSame(
      d: seq<byte>, d': seq<byte>, vol: Volume, vol': Volume, hi: nat, at: nat, size: nat, chain: seq<nat>)
    requires Regrown(d, d', vol, vol', hi, at, size)
    requires forall i :: 0 <= i < |chain| ==>
      2 <= chain[i] < vol.limit && InImage(d, vol, chain[i]) && InImage(d', vol', chain[i])
    ensures SameHeadsIn(Content(d, vol, chain), Content(d', vol', chain))
  {
    assert VolumeShape(vol) && vol'.sectorsPerCluster == vol.sectorsPerCluster && vol'.sectorSize == vol.sectorSize;
    var a, b := Content(d, vol, chain), Content(d', vol', chain);
    forall x: nat | x < |a| && x % 32 < 24 ensures a[x] == b[x] {
      hide Content, InImage, Regrown;
      var i, m := JoinedSplit(d, vol, chain, x);
      JoinedSame(d, d', vol, vol', hi, at, size, chain, i, m);
      NotInLength(JoinedPlace(vol, chain, i, m), at);
    }
  }

  lemma {:induction false} NotInLength(p: int, at: nat)
    requires at % 32 == 0 && p % 32 < 24
    ensures !(at + 24 <= p < at + 32)
  {
    if at + 24 <= p < at + 32 { DivUnique(p, 32, at / 32, p - at); }
  }

  /** Such directories list the same entries, of the same kinds. */
  lemma {:induction false} SameSearch(a: seq<byte>, b: seq<byte>, kind: byte, k: int)
    requires SameHeadsIn(a, b)
    ensures FirstOf(a, kind, k) <==> FirstOf(b, kind, k)
  {
    forall j | 0 <= j && 32 * j < |a| ensures a[32 * j] == b[32 * j] {
      assert (32 * j) % 32 == 0;
    }
  }

  // ----- the grower's entry is the reader's -----

  /** The first bitmap entry in the joined clusters is the one the grower has found, if it has found one. */
  lemma {:induction false} SameEntry(
      d: seq<byte>, vol: Volume, gvol: Volume, chain: seq<nat>, b: nat, at: nat, first: nat)
    returns (i: nat, m: nat)
    requires VolumeShape(vol) && gvol == vol.(fat := gvol.fat)
    requires forall i :: 0 <= i < |chain| ==> InImage(d, vol, chain[i])
    requires FirstOf(Content(d, vol, chain), 0x81, b) && FindBitmap(d, gvol, chain) == At(at, first)
    ensures i < |chain| && m < ClusterSize(vol) && 32 * b == JoinedIndex(vol, i, m) && m % 32 == 0
    ensures JoinedPlace(vol, chain, i, m) == at && at + 32 <= |d| && first == U32(d, at + 20)
  {
    hide Content, FindBitmap, U32, InImage, ClusterSize, BitmapIn, FirstOf;
    FirstFits(Content(d, vol, chain), 0x81, b);
    i, m := JoinedSplit(d, vol, chain, 32 * b);
    var k, o := FindBitmapWhere(d, gvol, chain);
    FindBitmapAt(d, gvol, chain, k, o);
    SameSlot(d, vol, gvol, chain, b, i, m, k, o);
  }

  lemma {:induction false} FirstFits(dir: seq<byte>, kind: byte, k: nat)
    requires FirstOf(dir, kind, k)
    ensures 32 * k + 32 <= |dir|
  {
  }

  /** Both searches end in the same slot. */
  lemma {:induction false} SameSlot(
      d: seq<byte>, vol: Volume, gvol: Volume, chain: seq<nat>, b: nat, i: nat, m: nat, k: nat, o: nat)
    requires VolumeShape(vol) && gvol == vol.(fat := gvol.fat)
    requires forall i :: 0 <= i < |chain| ==> InImage(d, vol, chain[i])
    requires i < |chain| && m < ClusterSize(vol) && m % 32 == 0 && 32 * b == JoinedIndex(vol, i, m)
    requires FirstOf(Content(d, vol, chain), 0x81, b) && BitmapIn(d, gvol, chain, k, o)
    ensures k == i && o == m
  {
    hide Content, InImage, ClusterSize, BitmapIn, NoBitmapIn, DirectoryOf, BitmapSlot, FirstOf, JoinedIndex;
    forall j: nat | j < i ensures NoBitmapIn(d, gvol, chain[j]) { EarlierCluster(d, vol, gvol, chain, b, i, m, j); }
    ThisCluster(d, vol, gvol, chain, b, i, m);
    WhichCluster(d, gvol, chain, k, o, i, m);
  }

  lemma {:induction false} WhichCluster(
      d: seq<byte>, gvol: Volume, chain: seq<nat>, k: nat, o: nat, i: nat, m: nat)
    requires VolumeShape(gvol) && BitmapIn(d, gvol, chain, k, o) && i < |chain|
    requires forall j: nat :: j < i ==> NoBitmapIn(d, gvol, chain[j])
    requires DirectoryOf(d, gvol, chain[i]).Some? && BitmapSlot(DirectoryOf(d, gvol, chain[i]).value, 0, m)
    ensures k == i && o == m
  {
    hide BitmapSlot, DirectoryOf;
    SlotShows(d, gvol, chain[k], o);
    SlotShows(d, gvol, chain[i], m);
  }

  lemma {:induction false} SlotShows(d: seq<byte>, gvol: Volume, c: nat, o: nat)
    requires VolumeShape(gvol) && DirectoryOf(d, gvol, c).Some? && BitmapSlot(DirectoryOf(d, gvol, c).value, 0, o)
    ensures !NoBitmapIn(d, gvol, c)
  {
  }

  /** Slot `p` of the `j`-th cluster, among the joined clusters. */
  lemma {:induction false} SlotOfCluster(d: seq<byte>, vol: Volume, gvol: Volume, chain: seq<nat>, j: nat, p: nat)
    requires VolumeShape(vol) && gvol == vol.(fat := gvol.fat)
    requires forall i :: 0 <= i < |chain| ==> InImage(d, vol, chain[i])
    requires j < |chain| && p < ClusterSize(vol) && p % 32 == 0
    ensures DirectoryOf(d, gvol, chain[j]).Some? && |DirectoryOf(d, gvol, chain[j]).value| == ClusterSize(vol)
    ensures var x := JoinedIndex(vol, j, p);
      && x % 32 == 0 && x + 32 <= |Content(d, vol, chain)|
      && Content(d, vol, chain)[x] == DirectoryOf(d, gvol, chain[j]).value[p]
  {
    JoinedAt(d, vol, chain, j, p);
    SlotSum(j, ClusterSize(vol), p);
    JoinedAt(d, vol, chain, j, p + 31);
    hide Content;
  }

  lemma {:induction false} EarlierCluster(
      d: seq<byte>, vol: Volume, gvol: Volume, chain: seq<nat>, b: nat, i: nat, m: nat, j: nat)
    requires VolumeShape(vol) && gvol == vol.(fat := gvol.fat)
    requires forall i :: 0 <= i < |chain| ==> InImage(d, vol, chain[i])
    requires FirstOf(Content(d, vol, chain), 0x81, b) && 32 * b == JoinedIndex(vol, i, m) && j < i < |chain|
    ensures NoBitmapIn(d, gvol, chain[j])
  {
    hide Content, InImage, ClusterSize;
    SlotFirst(d, vol, gvol, chain, j);
    var slots := DirectoryOf(d, gvol, chain[j]).value;
    forall p ensures !BitmapSlot(slots, 0, p) {
      if 0 <= p < |slots| && p % 32 == 0 {
        hide DirectoryOf;
        SlotOfCluster(d, vol, gvol, chain, j, p);
        EarlierSlot(j, ClusterSize(vol), p, i, m);
        assert Content(d, vol, chain)[32 * (JoinedIndex(vol, j, p) / 32)] != 0x81;
      }
    }
  }

  lemma {:induction false} SlotFirst(d: seq<byte>, vol: Volume, gvol: Volume, chain: seq<nat>, j: nat)
    requires VolumeShape(vol) && gvol == vol.(fat := gvol.fat)
    requires forall i :: 0 <= i < |chain| ==> InImage(d, vol, chain[i])
    requires j < |chain|
    ensures DirectoryOf(d, gvol, chain[j]).Some? && |DirectoryOf(d, gvol, chain[j]).value| == ClusterSize(vol)
  {
    SlotOfCluster(d, vol, gvol, chain, j, 0);
  }

  lemma {:induction false} EarlierSlot(j: nat, size: nat, p: nat, i: nat, m: nat)
    requires p < size && j < i
    ensures j * size + p < i * size + m
  {
    MulMonotone(j + 1, i, size);
    MulAdd(j, 1, size);
  }

  lemma {:induction false} ThisCluster(
      d: seq<byte>, vol: Volume, gvol: Volume, chain: seq<nat>, b: nat, i: nat, m: nat)
    requires VolumeShape(vol) && gvol == vol.(fat := gvol.fat)
    requires forall i :: 0 <= i < |chain| ==> InImage(d, vol, chain[i])
    requires FirstOf(Content(d, vol, chain), 0x81, b) && 32 * b == JoinedIndex(vol, i, m)
    requires i < |chain| && m < ClusterSize(vol) && m % 32 == 0
    ensures var dir := DirectoryOf(d, gvol, chain[i]);
      dir.Some? && BitmapSlot(dir.value, 0, m)
  {
    hide Content, InImage, ClusterSize;
    SlotOfCluster(d, vol, gvol, chain, i, m);
    var slots := DirectoryOf(d, gvol, chain[i]).value;
    forall q | 0 <= q <= m && q % 32 == 0 ensures slots[q] != 0 {
      hide DirectoryOf;
      SlotOfCluster(d, vol, gvol, chain, i, q);
      assert Content(d, vol, chain)[32 * (JoinedIndex(vol, i, q) / 32)] != 0;
    }
  }

  // ----- the fields of the entries -----

  /** Bytes of different clusters, or at different places of one, lie apart. */
  lemma {:induction false} PlacesDiffer(vol: Volume, c: nat, m: nat, e: nat, q: nat)
    requires VolumeShape(vol) && m < ClusterSize(vol) && q < ClusterSize(vol) && (c != e || m != q)
    ensures vol.ClusterToLba(c) * vol.sectorSize + m != vol.ClusterToLba(e) * vol.sectorSize + q
  {
    var spc, ss := vol.sectorsPerCluster, vol.sectorSize;
    if c < e { ClustersApart(vol, c, e); } else if e < c { ClustersApart(vol, e, c); }
  }

  lemma {:induction false} ClustersApart(vol: Volume, c: nat, e: nat)
    requires VolumeShape(vol) && c < e
    ensures vol.ClusterToLba(c) * vol.sectorSize + ClusterSize(vol) <= vol.ClusterToLba(e) * vol.sectorSize
  {
    var spc, ss := vol.sectorsPerCluster, vol.sectorSize;
    MulMonotone(c - 2 + 1, e - 2, spc);
    MulAdd(c - 2, 1, spc);
    MulMonotone(vol.ClusterToLba(c) + spc, vol.ClusterToLba(e), ss);
    MulAdd(vol.ClusterToLba(c), spc, ss);
  }

  /** The entry's 32 bytes, among the joined clusters and on the disk. */
  lemma {:induction false} EntryAt(d: seq<byte>, vol: Volume, chain: seq<nat>, k: nat, i: nat, m: nat)
    requires VolumeShape(vol) && forall i :: 0 <= i < |chain| ==> InImage(d, vol, chain[i])
    requires i < |chain| && m < ClusterSize(vol) && 32 * k == JoinedIndex(vol, i, m) && m % 32 == 0
    ensures var p := JoinedPlace(vol, chain, i, m);
      && 0 <= p && p + 32 <= |d| && 32 * k + 32 <= |Content(d, vol, chain)|
      && Content(d, vol, chain)[32 * k..32 * k + 32] == d[p..p + 32]
  {
    var p := JoinedPlace(vol, chain, i, m);
    SlotSum(i, ClusterSize(vol), m);
    hide Content, InImage, VolumeShape, ClusterSize;
    JoinedAt(d, vol, chain, i, m);
    JoinedAt(d, vol, chain, i, m + 31);
    var a := Content(d, vol, chain);
    var x, y := a[32 * k..32 * k + 32], d[p..p + 32];
    forall q: nat | q < 32 ensures x[q] == y[q] {
      JoinedAt(d, vol, chain, i, m + q);
    }
  }

  lemma {:induction false} FieldOfSlice(a: seq<byte>, x: nat, o: nat)
    requires x + 32 <= |a| && o + 8 <= 32
    ensures U32(a, x + o) == U32(a[x..x + 32], o) && U64(a, x + o) == U64(a[x..x + 32], o)
  {
  }

  /** The entry's 32 bytes before and after. */
  lemma {:induction false} SliceSame(
      d: seq<byte>, d': seq<byte>, vol: Volume, vol': Volume, hi: nat, at: nat, size: nat, p: nat)
    requires Regrown(d, d', vol, vol', hi, at, size) && p % 32 == 0
    requires vol.heapLba * vol.sectorSize <= p && p + 32 <= hi
    ensures p + 32 <= |d| == |d'|
    ensures p != at ==> d'[p..p + 32] == d[p..p + 32]
    ensures d'[p..p + 32][..24] == d[p..p + 32][..24]
    ensures p == at ==> U64(d'[p..p + 32], 24) == size
  {
    if p == at { FieldOfSlice(d', p, 24); }
    hide U64;
    forall y | p <= y < p + 32 && (p != at || y < p + 24) ensures d'[y] == d[y] {
    }
  }

  lemma {:induction false} EntryInHeap(
      d: seq<byte>, d': seq<byte>, vol: Volume, vol': Volume, hi: nat, at: nat, size: nat, c: nat, m: nat, p: int)
    requires Regrown(d, d', vol, vol', hi, at, size) && 2 <= c < vol.limit
    requires m < ClusterSize(vol) && m % 32 == 0 && p == vol.ClusterToLba(c) * vol.sectorSize + m
    ensures vol.heapLba * vol.sectorSize <= p && p + 32 <= hi && p % 32 == 0
  {
    SlotSum(0, ClusterSize(vol), m);
    hide HeapKept, FatAgrees;
    JoinedInHeap(vol, [c], 0, m);
    JoinedInHeap(vol, [c], 0, m + 31);
  }

  /** The fields of an entry, before and after. */
  lemma {:induction false} EntrySame(
      d: seq<byte>, d': seq<byte>, vol: Volume, vol': Volume, hi: nat, at: nat, size: nat, chain: seq<nat>,
      k: nat, i: nat, m: nat)
    requires Regrown(d, d', vol, vol', hi, at, size)
    requires forall i :: 0 <= i < |chain| ==>
      2 <= chain[i] < vol.limit && InImage(d, vol, chain[i]) && InImage(d', vol', chain[i])
    requires i < |chain| && m < ClusterSize(vol) && 32 * k == JoinedIndex(vol, i, m) && m % 32 == 0
    ensures 32 * k + 32 <= |Content(d, vol, chain)| && 32 * k + 32 <= |Content(d', vol', chain)|
    ensures var a, b := Content(d, vol, chain), Content(d', vol', chain);
      && U32(b, 32 * k + 20) == U32(a, 32 * k + 20) && U32(b, 32 * k + 4) == U32(a, 32 * k + 4)
      && U64(b, 32 * k + 24) == if JoinedPlace(vol, chain, i, m) == at then size else U64(a, 32 * k + 24)
  {
    var p := JoinedPlace(vol, chain, i, m);
    EntryInHeap(d, d', vol, vol', hi, at, size, chain[i], m, p);
    hide Content, InImage, U32, U64, JoinedPlace, HeapKept, FatAgrees;
    EntryAt(d, vol, chain, k, i, m);
    EntryAt(d', vol', chain, k, i, m);
    SliceSame(d, d', vol, vol', hi, at, size, p);
    hide *;
    EntryFields(Content(d, vol, chain), Content(d', vol', chain), 32 * k, d[p..p + 32], d'[p..p + 32]);
  }

  lemma {:induction false} EntryFields(a: seq<byte>, b: seq<byte>, x: nat, e: seq<byte>, e': seq<byte>)
    requires x + 32 <= |a| && x + 32 <= |b| && a[x..x + 32] == e && b[x..x + 32] == e'
    requires |e| == 32 && |e'| == 32 && e'[..24] == e[..24]
    ensures U32(b, x + 20) == U32(a, x + 20) && U32(b, x + 4) == U32(a, x + 4)
    ensures U64(b, x + 24) == U64(e', 24) && U64(a, x + 24) == U64(e, 24)
  {
    hide U32, U64;
    SameFields(a, b, x);
  }

  lemma {:induction false} SameFields(a: seq<byte>, b: seq<byte>, x: nat)
    requires x + 32 <= |a| && x + 32 <= |b| && b[x..x + 32][..24] == a[x..x + 32][..24]
    ensures U32(b, x + 20) == U32(a, x + 20) && U32(b, x + 4) == U32(a, x + 4)
    ensures U64(b, x + 24) == U64(b[x..x + 32], 24) && U64(a, x + 24) == U64(a[x..x + 32], 24)
  {
    FieldOfSlice(a, x, 4);
    FieldOfSlice(b, x, 4);
    FieldOfSlice(a, x, 24);
    FieldOfSlice(b, x, 24);
    hide U64;
    var p, q := a[x..x + 32], b[x..x + 32];
    assert forall y :: 0 <= y < 24 ==> q[y] == q[..24][y] && p[y] == p[..24][y];
    assert forall y :: 0 <= y < 24 ==> a[x + y] == p[y] && b[x + y] == q[y];
  }

  // ----- from the rewritten volume to the reader -----

  /** The reader sees the FAT entries the grower sees, and more. */
  lemma {:induction false} SubFat(d: seq<byte>, base: nat, bytes: nat)
    ensures forall c :: c in FatOf(d, base, bytes) ==>
      c in ReaderFat(d, base) && ReaderFat(d, base)[c] == FatOf(d, base, bytes)[c]
  {
    hide U32;
  }

  lemma {:induction false} SubChain(gvol: Volume, vol: Volume, s: nat, c: seq<nat>)
    requires gvol == vol.(fat := gvol.fat) && IsChain(gvol, s, c)
    requires forall x :: x in gvol.fat ==> x in vol.fat && vol.fat[x] == gvol.fat[x]
    ensures IsChain(vol, s, c)
  {
    forall i | 0 < i < |c| ensures Follows(vol, c[i - 1], c[i]) { assert Follows(gvol, c[i - 1], c[i]); }
  }

  /** The grower's volume is the reader's, but for the FAT entries it does not look at. */
  lemma {:induction false} TwoVolumes(d: seq<byte>, ss: nat, start: nat, region: seq<byte>)
    requires |region| >= 512
    ensures var gvol, vol := VolumeOf(d, ss, start, region, U32(region, 92)), ReaderVolume(d, ss, start, region);
      && gvol == vol.(fat := gvol.fat)
      && forall x :: x in gvol.fat ==> x in vol.fat && vol.fat[x] == gvol.fat[x]
  {
    hide U32, Pow2, FatOf, ReaderFat;
    MulAdd(start, U32(region, 80), ss);
    SubFat(d, (start + U32(region, 80)) * ss, U32(region, 84) * ss);
  }

  /** Below a bound that fits the FAT the reader finds the same entries on both disks. */
  lemma {:induction false} FatStays(d: seq<byte>, d': seq<byte>, base: nat, bytes: nat, limit: nat)
    requires base + bytes <= |d| == |d'| && limit * 4 <= bytes
    requires forall x :: base <= x < base + bytes ==> d'[x] == d[x]
    ensures FatAgrees(ReaderFat(d, base), ReaderFat(d', base), limit)
  {
    forall c: nat | c < limit ensures base + c * 4 + 4 <= |d| && U32(d', base + c * 4) == U32(d, base + c * 4) {
      var p := base + c * 4;
      assert d'[p] == d[p] && d'[p + 1] == d[p + 1] && d'[p + 2] == d[p + 2] && d'[p + 3] == d[p + 3];
    }
    hide U32;
  }

  /** The two volumes the reader sees, before and after. */
  lemma {:induction false} ReaderRegrown(
      d: seq<byte>, d': seq<byte>, region: seq<byte>, ss: nat, start: nat, newBlocks: nat, boot: BootPlan,
      vol: Volume, vol': Volume, hi: nat)
    requires |region| >= 512 && |boot.region| >= 512
    requires vol == ReaderVolume(d, ss, start, region) && vol' == ReaderVolume(d', ss, start, boot.region)
    requires hi == (start + GeometryOf(region).blocks) * ss
    requires VolumeRewritten(d, d', region, ss, start, newBlocks, boot)
    ensures U32(boot.region, 92) == boot.newCount < U32_LIMIT && U32(region, 92) <= boot.newCount
    ensures U32(boot.region, 96) == U32(region, 96)
    ensures Regrown(d, d', vol, vol', hi, boot.bitmap.at, CeilDiv(boot.newCount, 8))
  {
    hide U32, U64, Pow2, RegionsAccepted, VolumeKept, BootOk, FixedFieldsOk, VolumeOf, BootMade;
    hide ReaderFat, CeilDiv, Regrown;
    var g := GeometryOf(region);
    RegionAfter(d, d', region, ss, start, newBlocks, boot);
    PlacesAfter(d, d', region, ss, start, newBlocks, boot);
    FigureFields(region);
    FigureFields(boot.region);
    var base, at, size := (start + U32(region, 80)) * ss, boot.bitmap.at, CeilDiv(boot.newCount, 8);
    FatOnBoth(d, d', region, ss, start, newBlocks, boot, base, U32(region, 92) + 2);
    LengthAfter(d, d', region, ss, start, newBlocks, boot, (start + g.heap) * ss, hi, at, size);
    assert VolumeShape(vol) && vol.limit == U32(region, 92) + 2 && 0 <= vol.heapLba;
    hide VolumeRewritten, ClustersFit, VolumeLaid, FatAgrees, HeapKept;
    MakeRegrown(d, d', vol, vol', hi, at, size);
  }

  lemma {:induction false} MakeRegrown(
      d: seq<byte>, d': seq<byte>, vol: Volume, vol': Volume, hi: nat, at: nat, size: nat)
    requires VolumeShape(vol) && 0 <= vol.heapLba && 2 <= vol.limit
    requires vol' == vol.(fat := vol'.fat, limit := vol'.limit) && vol.limit <= vol'.limit
    requires FatAgrees(vol.fat, vol'.fat, vol.limit)
    requires (vol.heapLba + (vol.limit - 2) * vol.sectorsPerCluster) * vol.sectorSize <= hi
    requires HeapKept(d, d', vol.heapLba * vol.sectorSize, hi, at, size)
    ensures Regrown(d, d', vol, vol', hi, at, size)
  {
  }

  lemma {:induction false} FatOnBoth(
      d: seq<byte>, d': seq<byte>, region: seq<byte>, ss: nat, start: nat, newBlocks: nat, boot: BootPlan,
      base: nat, limit: nat)
    requires |region| >= 512 && base == (start + U32(region, 80)) * ss && limit == U32(region, 92) + 2
    requires VolumeRewritten(d, d', region, ss, start, newBlocks, boot)
    ensures FatAgrees(ReaderFat(d, base), ReaderFat(d', base), limit)
  {
    hide U32, U64, Pow2, RegionsAccepted, VolumeKept, BootOk, FixedFieldsOk, VolumeOf, BootMade, ReaderFat, FatAgrees;
    var g := GeometryOf(region);
    RegionAfter(d, d', region, ss, start, newBlocks, boot);
    PlacesAfter(d, d', region, ss, start, newBlocks, boot);
    FigureFields(region);
    VolumePlaces(ss, start, U32(region, 80), g);
    MulAdd(start, U32(region, 80), ss);
    var bytes := g.fatLength * ss;
    FatKept(d, d', ss, start, (start + g.blocks) * ss, boot.bitmap, base, bytes, (start + g.heap) * ss);
    hide VolumeRewritten, VolumeLaid, GeometryOf;
    FatStays(d, d', base, bytes, limit);
  }

  lemma {:induction false} LengthAfter(
      d: seq<byte>, d': seq<byte>, region: seq<byte>, ss: nat, start: nat, newBlocks: nat, boot: BootPlan,
      lo: nat, hi: nat, at: nat, size: nat)
    requires |region| >= 512 && at == boot.bitmap.at && size == CeilDiv(boot.newCount, 8)
    requires lo == (start + GeometryOf(region).heap) * ss && hi == (start + GeometryOf(region).blocks) * ss
    requires VolumeRewritten(d, d', region, ss, start, newBlocks, boot)
    ensures HeapKept(d, d', lo, hi, at, size)
  {
    hide U32, U64, Pow2, VolumeOf, BootMade, PlanBitmap, CeilDiv, PutU64;
    var g := GeometryOf(region);
    MadeBitmap(d, region, ss, start, newBlocks, boot);
    PlacesAfter(d, d', region, ss, start, newBlocks, boot);
    var root, first, chain :=
      BitmapFacts(d, VolumeOf(d, ss, start, region, g.count), U32(region, 96), g.count, boot.newCount, boot.bitmap);
    EighthIsSmall(boot.newCount);
    EntryHead(d, d', ss, start, hi, boot.bitmap, size);
    hide VolumeLaid, GeometryOf;
  }

  lemma {:induction false} FigureFields(region: seq<byte>)
    requires |region| >= 512
    ensures var g := GeometryOf(region);
      && g.fatLength == U32(region, 84) && g.heap == U32(region, 88) && g.blocks == U64(region, 72)
      && g.count == U32(region, 92) && g.spc == Pow2(region[109] as nat)
  {
    hide U32, U64, Pow2;
  }

  // ----- the root directory, before and after -----

  /** The root directory and the bitmap as both programs see them, on both disks. */
  ghost predicate Seen(
    d: seq<byte>, d': seq<byte>, vol: Volume, vol': Volume, gvol: Volume, hi: nat, at: nat, newCount: nat,
    rootCluster: nat, root: seq<nat>, first: nat, chain: seq<nat>)
  {
    && Regrown(d, d', vol, vol', hi, at, CeilDiv(newCount, 8)) && VolumeShape(vol)
    && gvol == vol.(fat := gvol.fat)
    && Read(d, vol, rootCluster, root) && Read(d', vol', rootCluster, root)
    && FindBitmap(d, gvol, root) == At(at, first)
    && first < vol.limit && IsChain(vol, first, chain) && IsChain(vol', first, chain)
    && CeilDiv(newCount, 8) <= |chain| * (vol.sectorsPerCluster * vol.sectorSize)
  }

  lemma {:induction false} RootSeen(
      d: seq<byte>, d': seq<byte>, region: seq<byte>, ss: nat, start: nat, newBlocks: nat, boot: BootPlan,
      vol: Volume, vol': Volume, hi: nat) returns (gvol: Volume, root: seq<nat>, first: nat, chain: seq<nat>)
    requires |region| >= 512 && |boot.region| >= 512
    requires vol == ReaderVolume(d, ss, start, region) && vol' == ReaderVolume(d', ss, start, boot.region)
    requires hi == (start + GeometryOf(region).blocks) * ss
    requires VolumeRewritten(d, d', region, ss, start, newBlocks, boot)
    ensures Seen(d, d', vol, vol', gvol, hi, boot.bitmap.at, boot.newCount, U32(region, 96), root, first, chain)
  {
    hide U32, U64, Pow2, BootMade, VolumeKept, VolumeLaid, PlanBitmap, CeilDiv, Regrown, FindBitmap;
    ReaderRegrown(d, d', region, ss, start, newBlocks, boot, vol, vol', hi);
    MadeBitmap(d, region, ss, start, newBlocks, boot);
    hide VolumeRewritten;
    FigureFields(region);
    TwoVolumes(d, ss, start, region);
    gvol := VolumeOf(d, ss, start, region, U32(region, 92));
    hide VolumeOf, ReaderVolume, GeometryOf;
    var rc, at, size := U32(region, 96), boot.bitmap.at, CeilDiv(boot.newCount, 8);
    root, first, chain := BitmapFacts(d, gvol, rc, U32(region, 92), boot.newCount, boot.bitmap);
    SubChain(gvol, vol, rc, root);
    SubChain(gvol, vol, first, chain);
    assert rc < vol.limit && first < vol.limit;
    ReadStays(d, d', vol, vol', hi, at, size, rc, root);
    ChainStays(d, d', vol, vol', hi, at, size, first, chain);
  }

  /** The reader's search on both disks, and what it ends at. */
  lemma {:induction false} SeenTwice(
      d: seq<byte>, d': seq<byte>, vol: Volume, vol': Volume, gvol: Volume, hi: nat, at: nat, newCount: nat,
      rootCluster: nat, root: seq<nat>, first: nat, chain: seq<nat>, b: nat) returns (i: nat, m: nat)
    requires Seen(d, d', vol, vol', gvol, hi, at, newCount, rootCluster, root, first, chain)
    requires FirstOf(Content(d, vol, root), 0x81, b)
    ensures 32 * b + 32 <= |Content(d, vol, root)| == |Content(d', vol', root)|
    ensures FirstOf(Content(d', vol', root), 0x81, b)
    ensures U32(Content(d, vol, root), 32 * b + 20) == first && U32(Content(d', vol', root), 32 * b + 20) == first
    ensures U64(Content(d', vol', root), 32 * b + 24) == CeilDiv(newCount, 8)
    ensures i < |root| && m < ClusterSize(vol) && 32 * b == JoinedIndex(vol, i, m) && m % 32 == 0
    ensures JoinedPlace(vol, root, i, m) == at
  {
    hide U32, U64, CeilDiv, Content, InImage, FindBitmap, ClusterSize, JoinedPlace, JoinedIndex;
    var size := CeilDiv(newCount, 8);
    HeadsSame(d, d', vol, vol', hi, at, size, root);
    SameSearch(Content(d, vol, root), Content(d', vol', root), 0x81, b);
    i, m := SameEntry(d, vol, gvol, root, b, at, first);
    EntrySame(d, d', vol, vol', hi, at, size, root, b, i, m);
    EntryAt(d, vol, root, b, i, m);
    FieldOfSlice(Content(d, vol, root), 32 * b, 20);
    FieldOfSlice(d, at, 20);
  }

  lemma {:induction false} BothHold(
      d: seq<byte>, d': seq<byte>, vol: Volume, vol': Volume, gvol: Volume, hi: nat, at: nat, newCount: nat,
      rootCluster: nat, root: seq<nat>, first: nat, chain: seq<nat>)
    requires Seen(d, d', vol, vol', gvol, hi, at, newCount, rootCluster, root, first, chain)
    ensures forall i :: 0 <= i < |root| ==> InImage(d, vol, root[i]) && InImage(d', vol', root[i])
    ensures ChainHolds(d, vol, rootCluster, root, Content(d, vol, root))
    ensures ChainHolds(d', vol', rootCluster, root, Content(d', vol', root))
    ensures SameHeadsIn(Content(d, vol, root), Content(d', vol', root))
  {
    hide CeilDiv, Content, InImage, FindBitmap;
    HeadsSame(d, d', vol, vol', hi, at, CeilDiv(newCount, 8), root);
  }

  lemma {:induction false} ShownStays(
      d: seq<byte>, d': seq<byte>, vol: Volume, vol': Volume, gvol: Volume, hi: nat, at: nat, newCount: nat,
      rootCluster: nat, root: seq<nat>, first: nat, chain: seq<nat>)
    requires Seen(d, d', vol, vol', gvol, hi, at, newCount, rootCluster, root, first, chain)
    requires ShownIn(d, vol, rootCluster)
    ensures ExactIn(d', vol', rootCluster, newCount)
  {
    BothHold(d, d', vol, vol', gvol, hi, at, newCount, rootCluster, root, first, chain);
    hide CeilDiv, Content, FindBitmap, Regrown, U32, U64, InImage;
    var r, dir: seq<byte>, b: nat :| ChainHolds(d, vol, rootCluster, r, dir) && FirstOf(dir, 0x81, b);
    SameChain(vol, rootCluster, r, root);
    var i, m := SeenTwice(d, d', vol, vol', gvol, hi, at, newCount, rootCluster, root, first, chain, b);
    LimitsAgree(d, d', vol, vol', hi, at, CeilDiv(newCount, 8));
    hide IsChain, FirstOf;
    MakeExact(d', vol', rootCluster, newCount, root, Content(d', vol', root), b, first, chain);
  }

  lemma {:induction false} MakeExact(
      d: seq<byte>, vol: Volume, rootCluster: nat, count: nat, root: seq<nat>, dir: seq<byte>, b: nat,
      first: nat, chain: seq<nat>)
    requires ChainHolds(d, vol, rootCluster, root, dir) && FirstOf(dir, 0x81, b)
    requires U64(dir, 32 * b + 24) == CeilDiv(count, 8) && U32(dir, 32 * b + 20) == first && IsChain(vol, first, chain)
    requires CeilDiv(count, 8) <= |chain| * (vol.sectorsPerCluster * vol.sectorSize)
    ensures ExactIn(d, vol, rootCluster, count)
  {
  }

  lemma {:induction false} LimitsAgree(
      d: seq<byte>, d': seq<byte>, vol: Volume, vol': Volume, hi: nat, at: nat, size: nat)
    requires Regrown(d, d', vol, vol', hi, at, size)
    ensures vol'.sectorsPerCluster == vol.sectorsPerCluster && vol'.sectorSize == vol.sectorSize
  {
  }

  lemma {:induction false} ShownBefore(
      d: seq<byte>, d': seq<byte>, vol: Volume, vol': Volume, gvol: Volume, hi: nat, at: nat, newCount: nat,
      rootCluster: nat, root: seq<nat>, first: nat, chain: seq<nat>)
    requires Seen(d, d', vol, vol', gvol, hi, at, newCount, rootCluster, root, first, chain)
    requires ShownIn(d', vol', rootCluster)
    ensures ShownIn(d, vol, rootCluster)
  {
    BothHold(d, d', vol, vol', gvol, hi, at, newCount, rootCluster, root, first, chain);
    hide CeilDiv, Content, FindBitmap, Regrown, InImage;
    var r, dir: seq<byte>, b: nat :| ChainHolds(d', vol', rootCluster, r, dir) && FirstOf(dir, 0x81, b);
    SameChain(vol', rootCluster, r, root);
    SameSearch(Content(d, vol, root), dir, 0x81, b);
  }

  lemma {:induction false} ExactIsShown(d: seq<byte>, vol: Volume, rootCluster: nat, count: nat)
    requires ExactIn(d, vol, rootCluster, count)
    ensures ShownIn(d, vol, rootCluster)
  {
    hide CeilDiv, U32, U64, IsChain;
  }

  lemma {:induction false} SearchAfter(
      d: seq<byte>, d': seq<byte>, region: seq<byte>, ss: nat, start: nat, newBlocks: nat, boot: BootPlan,
      vol: Volume, vol': Volume, rc: nat)
    requires |region| >= 512 && |boot.region| >= 512 && rc == U32(region, 96)
    requires vol == ReaderVolume(d, ss, start, region) && vol' == ReaderVolume(d', ss, start, boot.region)
    requires VolumeRewritten(d, d', region, ss, start, newBlocks, boot)
    ensures ShownIn(d, vol, rc) <==> ShownIn(d', vol', rc)
    ensures ShownIn(d, vol, rc) <==> ExactIn(d', vol', rc, boot.newCount)
  {
    hide U32, VolumeRewritten, GeometryOf, Seen, ReaderVolume, ShownIn, ExactIn;
    var hi := (start + GeometryOf(region).blocks) * ss;
    var gvol, root, first, chain := RootSeen(d, d', region, ss, start, newBlocks, boot, vol, vol', hi);
    var at, n := boot.bitmap.at, boot.newCount;
    if ShownIn(d, vol, rc) { ShownStays(d, d', vol, vol', gvol, hi, at, n, rc, root, first, chain); }
    if ShownIn(d', vol', rc) { ShownBefore(d, d', vol, vol', gvol, hi, at, n, rc, root, first, chain); }
    if ExactIn(d', vol', rc, n) { ExactIsShown(d', vol', rc, n); }
  }

  /** The search ends at a bitmap after the growth exactly when it did before, and then the entry is exact. */
  lemma {:induction false} BitmapAfter(
      d: seq<byte>, d': seq<byte>, region: seq<byte>, ss: nat, start: nat, newBlocks: nat, boot: BootPlan)
    requires SectorSizeOk(ss) && start * ss + 24 * ss <= |d| && BootRegion(d, ss, start) == region
    requires VolumeRewritten(d, d', region, ss, start, newBlocks, boot)
    ensures BitmapShown(d, ss, start) <==> BitmapExact(d', ss, start)
    ensures BitmapShown(d, ss, start) <==> BitmapShown(d', ss, start)
  {
    RewrittenRegion(d, d', region, ss, start, newBlocks, boot);
    hide U32, VolumeRewritten, ReaderVolume, ShownIn, ExactIn, BootRegion;
    var vol, vol' := ReaderVolume(d, ss, start, region), ReaderVolume(d', ss, start, boot.region);
    SearchAfter(d, d', region, ss, start, newBlocks, boot, vol, vol', U32(region, 96));
  }

  lemma {:induction false} RewrittenRegion(
      d: seq<byte>, d': seq<byte>, region: seq<byte>, ss: nat, start: nat, newBlocks: nat, boot: BootPlan)
    requires VolumeRewritten(d, d', region, ss, start, newBlocks, boot)
    ensures SectorSizeOk(ss) && |region| >= 512 && |boot.region| >= 512
    ensures start * ss + 24 * ss <= |d'| == |d| && BootRegion(d', ss, start) == boot.region
    ensures U32(boot.region, 92) == boot.newCount && U32(boot.region, 96) == U32(region, 96)
    ensures U32(region, 92) <= boot.newCount
  {
    hide U32, U64, Pow2, VolumeKept, BootOk, FixedFieldsOk, VolumeOf, BootMade;
    RegionAfter(d, d', region, ss, start, newBlocks, boot);
    PlacesAfter(d, d', region, ss, start, newBlocks, boot);
    FigureFields(region);
    FigureFields(boot.region);
  }

  // ----- everything the reader checks -----

  /** No cluster belongs to both chains. */
  ghost predicate ChainsApart(a: seq<nat>, b: seq<nat>) {
    forall i, j :: 0 <= i < |a| && 0 <= j < |b| ==> a[i] != b[j]
  }

  /** A chain that shares no cluster with the one the bitmap's entry is in keeps its content. */
  lemma {:induction false} OtherContent(
      d: seq<byte>, d': seq<byte>, vol: Volume, vol': Volume, hi: nat, at: nat, size: nat,
      root: seq<nat>, i: nat, m: nat, table: seq<nat>)
    requires Regrown(d, d', vol, vol', hi, at, size) && ChainsApart(root, table)
    requires i < |root| && m < ClusterSize(vol) && m % 32 == 0 && at == JoinedPlace(vol, root, i, m)
    requires forall i :: 0 <= i < |table| ==>
      2 <= table[i] < vol.limit && InImage(d, vol, table[i]) && InImage(d', vol', table[i])
    ensures Content(d', vol', table) == Content(d, vol, table)
  {
    assert VolumeShape(vol) && vol'.sectorsPerCluster == vol.sectorsPerCluster && vol'.sectorSize == vol.sectorSize;
    SlotSum(0, ClusterSize(vol), m);
    var a, b := Content(d, vol, table), Content(d', vol', table);
    forall x: nat | x < |a| ensures b[x] == a[x] {
      hide Content, InImage, Regrown, JoinedIndex;
      var j, q := JoinedSplit(d, vol, table, x);
      JoinedSame(d, d', vol, vol', hi, at, size, table, j, q);
      NotThere(vol, root[i], m, table[j], q);
    }
  }

  lemma {:induction false} NotThere(vol: Volume, c: nat, m: nat, e: nat, q: nat)
    requires VolumeShape(vol) && c != e && m + 32 <= ClusterSize(vol) && q < ClusterSize(vol)
    ensures var at := vol.ClusterToLba(c) * vol.sectorSize + m;
      !(at + 24 <= vol.ClusterToLba(e) * vol.sectorSize + q < at + 32)
  {
    if c < e { ClustersApart(vol, c, e); } else { ClustersApart(vol, e, c); }
    hide ClusterSize;
  }

  /** An entry that is not the bitmap's keeps its fields. */
  lemma {:induction false} OtherEntry(
      d: seq<byte>, d': seq<byte>, vol: Volume, vol': Volume, gvol: Volume, hi: nat, at: nat, newCount: nat,
      rootCluster: nat, root: seq<nat>, first: nat, chain: seq<nat>, b: nat, u: nat)
    requires Seen(d, d', vol, vol', gvol, hi, at, newCount, rootCluster, root, first, chain)
    requires FirstOf(Content(d, vol, root), 0x81, b) && Listed(Content(d, vol, root), u) && u != b
    ensures var a, a' := Content(d, vol, root), Content(d', vol', root);
      && 32 * u + 32 <= |a| == |a'| && U32(a', 32 * u + 20) == U32(a, 32 * u + 20)
      && U32(a', 32 * u + 4) == U32(a, 32 * u + 4) && U64(a', 32 * u + 24) == U64(a, 32 * u + 24)
  {
    SeenParts(d, d', vol, vol', gvol, hi, at, newCount, rootCluster, root, first, chain);
    hide *;
    var i, m := SeenTwice(d, d', vol, vol', gvol, hi, at, newCount, rootCluster, root, first, chain, b);
    ListedSlot(Content(d, vol, root), u);
    var j, q := JoinedSplit(d, vol, root, 32 * u);
    EntrySame(d, d', vol, vol', hi, at, CeilDiv(newCount, 8), root, u, j, q);
    DistinctPlaces(vol, rootCluster, root, i, m, j, q);
  }

  lemma {:induction false} ListedSlot(dir: seq<byte>, u: nat)
    requires Listed(dir, u)
    ensures 32 * u < |dir| && 32 * u % 32 == 0
  {
  }

  lemma {:induction false} SeenParts(
      d: seq<byte>, d': seq<byte>, vol: Volume, vol': Volume, gvol: Volume, hi: nat, at: nat, newCount: nat,
      rootCluster: nat, root: seq<nat>, first: nat, chain: seq<nat>)
    requires Seen(d, d', vol, vol', gvol, hi, at, newCount, rootCluster, root, first, chain)
    ensures Regrown(d, d', vol, vol', hi, at, CeilDiv(newCount, 8)) && VolumeShape(vol)
      && IsChain(vol, rootCluster, root)
    ensures forall i :: 0 <= i < |root| ==>
      2 <= root[i] < vol.limit && InImage(d, vol, root[i]) && InImage(d', vol', root[i])
  {
    hide Regrown, CeilDiv, InImage, FindBitmap, IsChain;
  }

  lemma {:induction false} DistinctPlaces(vol: Volume, s: nat, chain: seq<nat>, i: nat, m: nat, j: nat, q: nat)
    requires VolumeShape(vol) && IsChain(vol, s, chain) && i < |chain| && j < |chain|
    requires m < ClusterSize(vol) && q < ClusterSize(vol) && JoinedIndex(vol, i, m) != JoinedIndex(vol, j, q)
    ensures JoinedPlace(vol, chain, i, m) != JoinedPlace(vol, chain, j, q)
  {
    if i < j { assert chain[i] != chain[j]; }
    if j < i { assert chain[j] != chain[i]; }
    PlacesDiffer(vol, chain[i], m, chain[j], q);
  }

  /** The bitmap's entry is in order exactly when its chain has the length the new count asks for. */
  lemma {:induction false} BitmapEntryAfter(
      d: seq<byte>, d': seq<byte>, vol: Volume, vol': Volume, gvol: Volume, hi: nat, at: nat, newCount: nat,
      rootCluster: nat, root: seq<nat>, first: nat, chain: seq<nat>, b: nat)
    requires Seen(d, d', vol, vol', gvol, hi, at, newCount, rootCluster, root, first, chain)
    requires FirstOf(Content(d, vol, root), 0x81, b)
    ensures VolumeShape(vol') && 32 * b + 32 <= |Content(d', vol', root)| == |Content(d, vol, root)|
    ensures BitmapEntryOk(vol', Content(d', vol', root), b, newCount)
      <==> ChainExact(vol, Content(d, vol, root), b, newCount)
  {
    hide U32, U64, CeilDiv, Content, InImage, FindBitmap, ClusterSize, FirstOf;
    var i, m := SeenTwice(d, d', vol, vol', gvol, hi, at, newCount, rootCluster, root, first, chain, b);
    LimitsAgree(d, d', vol, vol', hi, at, CeilDiv(newCount, 8));
    OneChain(vol, first, chain, CeilDiv(CeilDiv(newCount, 8), vol.sectorsPerCluster * vol.sectorSize));
    OneChain(vol', first, chain, CeilDiv(CeilDiv(newCount, 8), vol.sectorsPerCluster * vol.sectorSize));
  }

  lemma {:induction false} OneChain(vol: Volume, first: nat, chain: seq<nat>, n: nat)
    requires IsChain(vol, first, chain)
    ensures (exists c :: IsChain(vol, first, c) && |c| == n) <==> |chain| == n
  {
    hide IsChain;
    forall c | IsChain(vol, first, c) ensures c == chain { SameChain(vol, first, c, chain); }
  }

  /** A bitmap in order before the growth has a chain of that length. */
  lemma {:induction false} ExactBefore(
      d: seq<byte>, d': seq<byte>, vol: Volume, vol': Volume, gvol: Volume, hi: nat, at: nat, count: nat, newCount: nat,
      rootCluster: nat, root: seq<nat>, first: nat, chain: seq<nat>, b: nat)
    requires Seen(d, d', vol, vol', gvol, hi, at, newCount, rootCluster, root, first, chain) && count <= newCount
    requires FirstOf(Content(d, vol, root), 0x81, b) && 32 * b + 32 <= |Content(d, vol, root)|
    requires BitmapEntryOk(vol, Content(d, vol, root), b, count)
    ensures ChainExact(vol, Content(d, vol, root), b, newCount)
  {
    hide U32, U64, CeilDiv, Content, InImage, FindBitmap, ClusterSize, FirstOf;
    var i, m := SeenTwice(d, d', vol, vol', gvol, hi, at, newCount, rootCluster, root, first, chain, b);
    var c :| IsChain(vol, first, c) && |c| == CeilDiv(CeilDiv(count, 8), vol.sectorsPerCluster * vol.sectorSize);
    SameChain(vol, first, c, chain);
    hide IsChain;
    CeilDivGrows(count, newCount, 8);
    ExactAgain(vol, CeilDiv(count, 8), CeilDiv(newCount, 8), |chain|);
  }

  lemma {:induction false} ExactAgain(vol: Volume, a: nat, b: nat, n: nat)
    requires VolumeShape(vol) && a <= b && n == CeilDiv(a, vol.sectorsPerCluster * vol.sectorSize)
    requires b <= n * (vol.sectorsPerCluster * vol.sectorSize)
    ensures n == CeilDiv(b, vol.sectorsPerCluster * vol.sectorSize)
  {
    MulMonotone(1, vol.sectorsPerCluster, vol.sectorSize);
    CeilDivBetween(a, b, vol.sectorsPerCluster * vol.sectorSize, n);
  }

  /** A chain that stays below the old bound is a chain of the old volume. */
  lemma {:induction false} ChainBack(
      d: seq<byte>, d': seq<byte>, vol: Volume, vol': Volume, hi: nat, at: nat, size: nat, s: nat, c: seq<nat>)
    requires Regrown(d, d', vol, vol', hi, at, size) && IsChain(vol', s, c) && Inside(c, vol.limit)
    ensures IsChain(vol, s, c) && s < vol.limit
  {
    forall i | 0 < i < |c| ensures Follows(vol, c[i - 1], c[i]) { assert Follows(vol', c[i - 1], c[i]); }
  }

  /** The clusters of a chain are numbered below a bound. */
  ghost predicate Inside(chain: seq<nat>, limit: nat) {
    forall i :: 0 <= i < |chain| ==> chain[i] < limit
  }

  /** Such a table, sharing no cluster with the root directory, reads the same before and after. */
  lemma {:induction false} TableSame(
      d: seq<byte>, d': seq<byte>, vol: Volume, vol': Volume, hi: nat, at: nat, size: nat,
      root: seq<nat>, i: nat, m: nat, s: nat, table: seq<nat>, data: seq<byte>)
    requires Regrown(d, d', vol, vol', hi, at, size) && ChainsApart(root, table) && Inside(table, vol.limit)
    requires i < |root| && m < ClusterSize(vol) && m % 32 == 0 && at == JoinedPlace(vol, root, i, m)
    ensures ChainHolds(d', vol', s, table, data) <==> ChainHolds(d, vol, s, table, data)
  {
    hide Regrown, Content, InImage, ClusterSize, JoinedPlace, IsChain;
    if IsChain(vol', s, table) { ChainBack(d, d', vol, vol', hi, at, size, s, table); }
    if IsChain(vol, s, table) {
      FirstInside(vol, s, table);
      ReadStays(d, d', vol, vol', hi, at, size, s, table);
      OtherContent(d, d', vol, vol', hi, at, size, root, i, m, table);
    }
  }

  lemma {:induction false} FirstInside(vol: Volume, s: nat, chain: seq<nat>)
    requires IsChain(vol, s, chain) && Inside(chain, vol.limit)
    ensures s < vol.limit
  {
    assert chain[0] < vol.limit;
  }

  /** The up-case table's entry is in order exactly when it was. */
  lemma {:induction false} UpcaseEntryAfter(
      upcase: seq<byte> -> bool, d: seq<byte>, d': seq<byte>, vol: Volume, vol': Volume, gvol: Volume, hi: nat, at: nat,
      newCount: nat, rootCluster: nat, root: seq<nat>, first: nat, chain: seq<nat>, b: nat, u: nat, table: seq<nat>)
    requires Seen(d, d', vol, vol', gvol, hi, at, newCount, rootCluster, root, first, chain)
    requires FirstOf(Content(d, vol, root), 0x81, b) && FirstOf(Content(d, vol, root), 0x82, u)
    requires ChainsApart(root, table) && Inside(table, vol.limit)
    ensures 32 * u + 32 <= |Content(d', vol', root)| == |Content(d, vol, root)|
    ensures UpcaseEntryOk(upcase, d', vol', Content(d', vol', root), u, table)
      <==> UpcaseEntryOk(upcase, d, vol, Content(d, vol, root), u, table)
  {
    hide U32, U64, CeilDiv, Content, InImage, FindBitmap, ClusterSize, Regrown, ChainHolds;
    OtherEntry(d, d', vol, vol', gvol, hi, at, newCount, rootCluster, root, first, chain, b, u);
    var i, m := SeenTwice(d, d', vol, vol', gvol, hi, at, newCount, rootCluster, root, first, chain, b);
    var t, size := U32(Content(d, vol, root), 32 * u + 20), CeilDiv(newCount, 8);
    forall data ensures ChainHolds(d', vol', t, table, data) <==> ChainHolds(d, vol, t, table, data) {
      TableSame(d, d', vol, vol', hi, at, size, root, i, m, t, table, data);
    }
  }

  /** A root directory that suits the new count is accepted after the growth, */
  lemma {:induction false} RootAcceptedAfter(
      upcase: seq<byte> -> bool, d: seq<byte>, d': seq<byte>, vol: Volume, vol': Volume, gvol: Volume, hi: nat, at: nat,
      newCount: nat, rootCluster: nat, root: seq<nat>, first: nat, chain: seq<nat>, table: seq<nat>)
    requires Seen(d, d', vol, vol', gvol, hi, at, newCount, rootCluster, root, first, chain)
    requires ChainsApart(root, table) && Inside(table, vol.limit)
    requires VolumeShape(vol) && RootFits(upcase, d, vol, rootCluster, newCount, root, table)
    ensures VolumeShape(vol') && RootAccepted(upcase, d', vol', rootCluster, newCount, root, table)
  {
    BothHold(d, d', vol, vol', gvol, hi, at, newCount, rootCluster, root, first, chain);
    hide Content, InImage, FindBitmap, Seen, BitmapEntryOk, ChainExact, UpcaseEntryOk, IsChain, FirstOf;
    var dir: seq<byte>, b: nat, u: nat, l: nat :|
      && ChainHolds(d, vol, rootCluster, root, dir)
      && FirstOf(dir, 0x81, b) && FirstOf(dir, 0x82, u) && FirstOf(dir, 0x83, l)
      && ChainExact(vol, dir, b, newCount) && UpcaseEntryOk(upcase, d, vol, dir, u, table);
    var a, a' := Content(d, vol, root), Content(d', vol', root);
    SameSearch(a, a', 0x81, b);
    SameSearch(a, a', 0x82, u);
    SameSearch(a, a', 0x83, l);
    BitmapEntryAfter(d, d', vol, vol', gvol, hi, at, newCount, rootCluster, root, first, chain, b);
    UpcaseEntryAfter(
      upcase, d, d', vol, vol', gvol, hi, at, newCount, rootCluster, root, first, chain, b, u, table);
  }

  /** and only such a one is. */
  lemma {:induction false} RootFitted(
      upcase: seq<byte> -> bool, d: seq<byte>, d': seq<byte>, vol: Volume, vol': Volume, gvol: Volume, hi: nat, at: nat,
      newCount: nat, rootCluster: nat, root: seq<nat>, first: nat, chain: seq<nat>, table: seq<nat>)
    requires Seen(d, d', vol, vol', gvol, hi, at, newCount, rootCluster, root, first, chain)
    requires ChainsApart(root, table) && Inside(table, vol.limit)
    requires VolumeShape(vol') && RootAccepted(upcase, d', vol', rootCluster, newCount, root, table)
    ensures VolumeShape(vol) && RootFits(upcase, d, vol, rootCluster, newCount, root, table)
  {
    BothHold(d, d', vol, vol', gvol, hi, at, newCount, rootCluster, root, first, chain);
    hide Content, InImage, FindBitmap, Seen, BitmapEntryOk, ChainExact, UpcaseEntryOk, IsChain, FirstOf;
    var dir: seq<byte>, b: nat, u: nat, l: nat :|
      && ChainHolds(d', vol', rootCluster, root, dir)
      && FirstOf(dir, 0x81, b) && FirstOf(dir, 0x82, u) && FirstOf(dir, 0x83, l)
      && BitmapEntryOk(vol', dir, b, newCount) && UpcaseEntryOk(upcase, d', vol', dir, u, table);
    var a, a' := Content(d, vol, root), Content(d', vol', root);
    SameSearch(a, a', 0x81, b);
    SameSearch(a, a', 0x82, u);
    SameSearch(a, a', 0x83, l);
    BitmapEntryAfter(d, d', vol, vol', gvol, hi, at, newCount, rootCluster, root, first, chain, b);
    UpcaseEntryAfter(
      upcase, d, d', vol, vol', gvol, hi, at, newCount, rootCluster, root, first, chain, b, u, table);
  }

  lemma {:induction false} SeenShape(
      d: seq<byte>, d': seq<byte>, vol: Volume, vol': Volume, gvol: Volume, hi: nat, at: nat, newCount: nat,
      rootCluster: nat, root: seq<nat>, first: nat, chain: seq<nat>)
    requires Seen(d, d', vol, vol', gvol, hi, at, newCount, rootCluster, root, first, chain)
    ensures VolumeShape(vol) && VolumeShape(vol') && vol.limit <= vol'.limit
  {
    hide CeilDiv, FindBitmap, IsChain, HeapKept, FatAgrees;
  }

  lemma {:induction false} RootHolds(
      upcase: seq<byte> -> bool, d: seq<byte>, vol: Volume, rc: nat, count: nat, root: seq<nat>, table: seq<nat>)
    requires VolumeShape(vol)
    ensures RootAccepted(upcase, d, vol, rc, count, root, table) || RootFits(upcase, d, vol, rc, count, root, table) ==>
      IsChain(vol, rc, root) && Inside(table, vol.limit)
  {
    hide IsChain, FirstOf, BitmapEntryOk, ChainExact, Content, InImage;
  }

  /** The same, whichever chain is taken for the root directory's. */
  lemma {:induction false} RootIff(
      upcase: seq<byte> -> bool, d: seq<byte>, d': seq<byte>, vol: Volume, vol': Volume, gvol: Volume, hi: nat, at: nat,
      newCount: nat, rootCluster: nat, r: seq<nat>, first: nat, chain: seq<nat>, root: seq<nat>, table: seq<nat>)
    requires Seen(d, d', vol, vol', gvol, hi, at, newCount, rootCluster, r, first, chain)
    requires ChainsApart(root, table) && Inside(table, vol.limit)
    ensures VolumeShape(vol) && VolumeShape(vol')
    ensures RootAccepted(upcase, d', vol', rootCluster, newCount, root, table)
      <==> RootFits(upcase, d, vol, rootCluster, newCount, root, table)
  {
    SeenShape(d, d', vol, vol', gvol, hi, at, newCount, rootCluster, r, first, chain);
    hide Seen, RootAccepted, RootFits, IsChain, Inside, ChainsApart;
    if root == r {
      if RootFits(upcase, d, vol, rootCluster, newCount, root, table) {
        RootAcceptedAfter(upcase, d, d', vol, vol', gvol, hi, at, newCount, rootCluster, r, first, chain, table);
      }
      if RootAccepted(upcase, d', vol', rootCluster, newCount, root, table) {
        RootFitted(upcase, d, d', vol, vol', gvol, hi, at, newCount, rootCluster, r, first, chain, table);
      }
    } else {
      SeenChains(d, d', vol, vol', gvol, hi, at, newCount, rootCluster, r, first, chain);
      RootHolds(upcase, d, vol, rootCluster, newCount, root, table);
      RootHolds(upcase, d', vol', rootCluster, newCount, root, table);
      if IsChain(vol, rootCluster, root) { SameChain(vol, rootCluster, r, root); }
      if IsChain(vol', rootCluster, root) { SameChain(vol', rootCluster, r, root); }
    }
  }

  lemma {:induction false} SeenChains(
      d: seq<byte>, d': seq<byte>, vol: Volume, vol': Volume, gvol: Volume, hi: nat, at: nat, newCount: nat,
      rootCluster: nat, root: seq<nat>, first: nat, chain: seq<nat>)
    requires Seen(d, d', vol, vol', gvol, hi, at, newCount, rootCluster, root, first, chain)
    ensures IsChain(vol, rootCluster, root) && IsChain(vol', rootCluster, root)
  {
    hide CeilDiv, FindBitmap, IsChain, Regrown, InImage;
  }

  /** The root directory of the rewritten volume. */
  lemma {:induction false} RootRewritten(
      upcase: seq<byte> -> bool, d: seq<byte>, d': seq<byte>, region: seq<byte>, ss: nat, start: nat, newBlocks: nat,
      boot: BootPlan, vol: Volume, vol': Volume, root: seq<nat>, table: seq<nat>)
    requires |region| >= 512 && |boot.region| >= 512
    requires vol == ReaderVolume(d, ss, start, region) && vol' == ReaderVolume(d', ss, start, boot.region)
    requires ChainsApart(root, table) && Inside(table, U32(region, 92) + 2)
    requires VolumeRewritten(d, d', region, ss, start, newBlocks, boot)
    ensures VolumeShape(vol) && VolumeShape(vol')
    ensures RootAccepted(upcase, d', vol', U32(region, 96), boot.newCount, root, table)
      <==> RootFits(upcase, d, vol, U32(region, 96), boot.newCount, root, table)
  {
    hide *;
    var rc, hi := U32(region, 96), (start + GeometryOf(region).blocks) * ss;
    var gvol, r, first, chain := RootSeen(d, d', region, ss, start, newBlocks, boot, vol, vol', hi);
    ReaderLimit(d, ss, start, region);
    RootIff(upcase, d, d', vol, vol', gvol, hi, boot.bitmap.at, boot.newCount, rc, r, first, chain, root, table);
  }

  /** The reader takes the grown volume exactly when what growth does not rewrite suits it. */
  lemma {:induction false} VolumeAcceptedAfter(
      upcase: seq<byte> -> bool, d: seq<byte>, d': seq<byte>, region: seq<byte>, ss: nat, start: nat, newBlocks: nat,
      boot: BootPlan, root: seq<nat>, table: seq<nat>)
    requires SectorSizeOk(ss) && start * ss + 24 * ss <= |d| && BootRegion(d, ss, start) == region
    requires |region| >= 512 && ChainsApart(root, table) && Inside(table, U32(region, 92) + 2)
    requires VolumeRewritten(d, d', region, ss, start, newBlocks, boot)
    ensures VolumeAccepted(upcase, d', ss, start, boot.grown, root, table)
      <==> VolumeFits(upcase, d, ss, start, boot.newCount, root, table)
  {
    hide *;
    RewrittenRegion(d, d', region, ss, start, newBlocks, boot);
    var vol, vol' := ReaderVolume(d, ss, start, region), ReaderVolume(d', ss, start, boot.region);
    BootAcceptedAfter(d, d', region, ss, start, newBlocks, boot);
    RootRewritten(upcase, d, d', region, ss, start, newBlocks, boot, vol, vol', root, table);
    AcceptedIs(upcase, d', ss, start, boot.grown, boot.region, root, table);
    FitsIs(upcase, d, ss, start, boot.newCount, region, root, table);
  }

  lemma {:induction false} ReaderLimit(d: seq<byte>, ss: nat, start: nat, region: seq<byte>)
    requires |region| >= 512
    ensures ReaderVolume(d, ss, start, region).limit == U32(region, 92) + 2
  {
  }

  lemma {:induction false} AcceptedIs(
      upcase: seq<byte> -> bool, d: seq<byte>, ss: nat, start: nat, blocks: nat, main: seq<byte>,
      root: seq<nat>, table: seq<nat>)
    requires SectorSizeOk(ss) && start * ss + 24 * ss <= |d| && BootRegion(d, ss, start) == main && |main| >= 512
    requires VolumeShape(ReaderVolume(d, ss, start, main))
    ensures VolumeAccepted(upcase, d, ss, start, blocks, root, table) <==>
      && BootAccepted(d, ss, start, blocks)
      && RootAccepted(upcase, d, ReaderVolume(d, ss, start, main), U32(main, 96), U32(main, 92), root, table)
  {
    hide BootAccepted, RootAccepted, ReaderVolume, U32;
  }

  lemma {:induction false} FitsIs(
      upcase: seq<byte> -> bool, d: seq<byte>, ss: nat, start: nat, count: nat, main: seq<byte>,
      root: seq<nat>, table: seq<nat>)
    requires SectorSizeOk(ss) && start * ss + 24 * ss <= |d| && BootRegion(d, ss, start) == main && |main| >= 512
    requires VolumeShape(ReaderVolume(d, ss, start, main))
    ensures |main| == 12 * ss
    ensures VolumeFits(upcase, d, ss, start, count, root, table) <==>
      FixedFieldsOk(main, ss)
        && RootFits(upcase, d, ReaderVolume(d, ss, start, main), U32(main, 96), count, root, table)
  {
    hide FixedFieldsOk, RootFits, ReaderVolume, U32;
  }

  /** A volume the reader takes before the growth suits it after. */
  lemma {:induction false} AcceptedFits(
      upcase: seq<byte> -> bool, d: seq<byte>, d': seq<byte>, region: seq<byte>, ss: nat, start: nat, newBlocks: nat,
      boot: BootPlan, blocks: nat, root: seq<nat>, table: seq<nat>)
    requires SectorSizeOk(ss) && start * ss + 24 * ss <= |d| && BootRegion(d, ss, start) == region
    requires |region| >= 512 && VolumeAccepted(upcase, d, ss, start, blocks, root, table)
    requires VolumeRewritten(d, d', region, ss, start, newBlocks, boot)
    ensures VolumeFits(upcase, d, ss, start, boot.newCount, root, table) && Inside(table, U32(region, 92) + 2)
  {
    hide *;
    RewrittenRegion(d, d', region, ss, start, newBlocks, boot);
    var vol, vol' := ReaderVolume(d, ss, start, region), ReaderVolume(d', ss, start, boot.region);
    var rc, count, hi := U32(region, 96), U32(region, 92), (start + GeometryOf(region).blocks) * ss;
    var gvol, r, first, chain := RootSeen(d, d', region, ss, start, newBlocks, boot, vol, vol', hi);
    SeenShape(d, d', vol, vol', gvol, hi, boot.bitmap.at, boot.newCount, rc, r, first, chain);
    SeenChains(d, d', vol, vol', gvol, hi, boot.bitmap.at, boot.newCount, rc, r, first, chain);
    AcceptedIs(upcase, d, ss, start, blocks, region, root, table);
    RootHolds(upcase, d, vol, rc, count, root, table);
    SameChain(vol, rc, r, root);
    ReaderLimit(d, ss, start, region);
    FitsIs(upcase, d, ss, start, boot.newCount, region, root, table);
    RootFitsBefore(
      upcase, d, d', vol, vol', gvol, hi, boot.bitmap.at, count, boot.newCount, rc, root, first, chain, table);
    FixedBefore(d, ss, start, blocks, region);
  }

  lemma {:induction false} FixedBefore(d: seq<byte>, ss: nat, start: nat, blocks: nat, region: seq<byte>)
    requires SectorSizeOk(ss) && start * ss + 12 * ss <= |d| && region == BootRegion(d, ss, start)
    requires BootAccepted(d, ss, start, blocks)
    ensures |region| == 12 * ss && FixedFieldsOk(region, ss)
  {
    hide FixedFieldsOk, U64, Pow2, BootOk;
  }

  lemma {:induction false} RootFitsBefore(
      upcase: seq<byte> -> bool, d: seq<byte>, d': seq<byte>, vol: Volume, vol': Volume, gvol: Volume, hi: nat, at: nat,
      count: nat, newCount: nat, rootCluster: nat, root: seq<nat>, first: nat, chain: seq<nat>, table: seq<nat>)
    requires Seen(d, d', vol, vol', gvol, hi, at, newCount, rootCluster, root, first, chain) && count <= newCount
    requires VolumeShape(vol) && RootAccepted(upcase, d, vol, rootCluster, count, root, table)
    ensures RootFits(upcase, d, vol, rootCluster, newCount, root, table)
  {
    BothHold(d, d', vol, vol', gvol, hi, at, newCount, rootCluster, root, first, chain);
    hide Content, InImage, FindBitmap, Seen, BitmapEntryOk, ChainExact, UpcaseEntryOk, IsChain, FirstOf;
    var dir: seq<byte>, b: nat, u: nat, l: nat :|
      && ChainHolds(d, vol, rootCluster, root, dir)
      && FirstOf(dir, 0x81, b) && FirstOf(dir, 0x82, u) && FirstOf(dir, 0x83, l)
      && BitmapEntryOk(vol, dir, b, count) && UpcaseEntryOk(upcase, d, vol, dir, u, table);
    ExactBefore(d, d', vol, vol', gvol, hi, at, count, newCount, rootCluster, root, first, chain, b);
  }

  /** The reader's boot checks pass on the grown disk exactly when the fields that growth keeps suit it. */
  lemma {:induction false} BootAcceptedAfter(
      d: seq<byte>, d': seq<byte>, region: seq<byte>, ss: nat, start: nat, newBlocks: nat, boot: BootPlan)
    requires SectorSizeOk(ss) && |region| == 12 * ss
    requires VolumeRewritten(d, d', region, ss, start, newBlocks, boot)
    ensures BootAccepted(d', ss, start, boot.grown) <==> FixedFieldsOk(region, ss)
  {
    hide U32, U64, Pow2, VolumeKept, BootOk, FixedFieldsOk, VolumeOf, BootMade, ChecksumOk;
    RegionAfter(d, d', region, ss, start, newBlocks, boot);
  }
}
