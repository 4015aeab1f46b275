/**
 Planning the growth of release media: every check the grower makes on a disk,
 and the eight writes it then makes, as a function of the disk's bytes.
 */
module GrowPlan {
  import opened Common
  import opened Bytes
  import opened ClusterFiles

  /** The two computations that are left open: CRC-32 and the decoding of a partition name. */
  datatype Env = Env(crc: seq<byte> -> u32, decode: seq<byte> -> string)

  const GPT_SIGNATURE: seq<byte> := [0x45, 0x46, 0x49, 0x20, 0x50, 0x41, 0x52, 0x54]
  const EXFAT_JUMP: seq<byte> := [0xEB, 0x76, 0x90]
  const EXFAT_MARK: seq<byte> := [0x45, 0x58, 0x46, 0x41, 0x54, 0x20, 0x20, 0x20]
  const END_OF_CHAIN: nat := 0xFFFF_FFF8
  const MAX_CLUSTERS: nat := 0xFFFF_FFFD

  predicate SectorSizeOk(ss: nat) { ss == 512 || ss == 4096 }

  function Pow2(n: nat): (r: nat)
    ensures r > 0
  {
    if n == 0 then 1 else 2 * Pow2(n - 1)
  }

  // ----- GPT -----

  predicate HeaderValid(env: Env, header: seq<byte>, ss: nat, lba: nat)
    requires |header| == ss && SectorSizeOk(ss)
  {
    && header[..8] == GPT_SIGNATURE
    && 92 <= U32(header, 12) <= ss
    && U64(header, 24) == lba
    && env.crc(PutU32(header[..U32(header, 12)], 16, 0)) == U32(header, 16)
  }

  /** The header with its CRC brought up to date. */
  function Sealed(env: Env, header: seq<byte>): (r: seq<byte>)
    requires |header| >= 512 && 92 <= U32(header, 12) <= |header|
    ensures |r| == |header|
    ensures forall x :: 0 <= x < |header| && !(16 <= x < 20) ==> r[x] == header[x]
  {
    var blank := PutU32(header, 16, 0);
    PutU32(blank, 16, env.crc(blank[..U32(header, 12)]))
  }

  datatype Part = Part(index: nat, startLba: nat, endLba: nat, name: string)

  function Entry(entries: seq<byte>, size: nat, i: nat): (r: seq<byte>)
    requires (i + 1) * size <= |entries|
    ensures |r| == size
  {
    MulAdd(i, 1, size);
    entries[i * size..(i + 1) * size]
  }

  /** The partition in slot `i`, if the slot is used and sensible. */
  function PartAt(env: Env, entries: seq<byte>, size: nat, i: nat): Option<Part>
    requires size >= 128 && (i + 1) * size <= |entries|
  {
    var e := Entry(entries, size, i);
    if e[..16] == Zeros(16) then None
    else if U64(e, 32) == 0 || U64(e, 40) < U64(e, 32) then None
    else Some(Part(i, U64(e, 32), U64(e, 40), env.decode(e[56..128])))
  }

  function Parts(env: Env, entries: seq<byte>, size: nat, n: nat): seq<Part>
    requires size >= 128 && n * size <= |entries|
  {
    if n == 0 then []
    else
      MulMonotone(n - 1, n, size);
      var before := Parts(env, entries, size, n - 1);
      match PartAt(env, entries, size, n - 1)
      case Some(p) => before + [p]
      case None => before
  }

  function FirstNamed(parts: seq<Part>, name: string): (r: Option<Part>)
    ensures r.Some? ==> r.value in parts && r.value.name == name
    ensures r.None? ==> forall p :: p in parts ==> p.name != name
  {
    if parts == [] then None
    else if parts[0].name == name then Some(parts[0])
    else FirstNamed(parts[1..], name)
  }

  // ----- exFAT -----

  function RotateRight(c: nat): nat { c / 2 + (c % 2) * 0x8000_0000 }

  /** The boot checksum over the first `n` bytes, leaving out the three that change at run time. */
  function Checksum(region: seq<byte>, n: nat): (r: nat)
    requires n <= |region|
    ensures r < U32_LIMIT
  {
    if n == 0 then 0
    else if n - 1 == 106 || n - 1 == 107 || n - 1 == 112 then Checksum(region, n - 1)
    else (RotateRight(Checksum(region, n - 1)) + region[n - 1] as nat) % U32_LIMIT
  }

  /** A sector holding one 32-bit value over and over. */
  function Filled(value: nat, ss: nat): (r: seq<byte>)
    requires value < U32_LIMIT
    ensures |r| == ss
  {
    seq(ss, i requires 0 <= i => Le32(value)[i % 4])
  }

  function ChecksumSector(region: seq<byte>, ss: nat): (r: seq<byte>)
    requires SectorSizeOk(ss) && 11 * ss <= |region|
    ensures |r| == ss
  {
    Filled(Checksum(region, 11 * ss), ss)
  }

  predicate ChecksumOk(region: seq<byte>, ss: nat)
    requires SectorSizeOk(ss) && |region| == 12 * ss
  {
    region[11 * ss..] == ChecksumSector(region, ss)
  }

  function WithChecksum(region: seq<byte>, ss: nat): (r: seq<byte>)
    requires SectorSizeOk(ss) && |region| == 12 * ss
    ensures |r| == |region|
    ensures forall x :: 0 <= x < 11 * ss ==> r[x] == region[x]
  {
    Splice(region, 11 * ss, ChecksumSector(region, ss))
  }

  /** The FAT as far as the boot sector and the image let it be read. */
  function FatOf(d: seq<byte>, base: nat, bytes: nat): map<nat, nat> {
    map c: nat | c < bytes && c * 4 + 4 <= bytes && base + c * 4 + 4 <= |d| :: U32(d, base + c * 4)
  }

  /** The volume as its boot region describes it, with chains bounded by `clusters`. */
  function VolumeOf(d: seq<byte>, ss: nat, start: nat, region: seq<byte>, clusters: nat): (vol: Volume)
    requires |region| >= 512
    ensures vol.sectorSize == ss && vol.sectorsPerCluster > 0
  {
    Volume(ss, Pow2(region[109] as nat), start + U32(region, 88),
           FatOf(d, start * ss + U32(region, 80) * ss, U32(region, 84) * ss), END_OF_CHAIN, clusters + 2)
  }

  /** The chain from `first`, when there is one and it starts inside the volume. */
  ghost function ChainOf(vol: Volume, first: nat): (r: Option<seq<nat>>)
    ensures r.Some? <==> first < vol.limit && exists c :: IsChain(vol, first, c)
    ensures r.Some? ==> IsChain(vol, first, r.value)
  {
    if first < vol.limit && exists c :: IsChain(vol, first, c)
    then (var c :| IsChain(vol, first, c); Some(c))
    else None
  }

  datatype Scan = Nothing | One(offset: nat) | Several

  lemma {:induction false} SlotFits(len: nat, o: nat)
    requires len % 32 == 0 && o % 32 == 0 && o < len
    ensures o + 32 <= len && (o + 32) % 32 == 0
  {
    assert len == len / 32 * 32 && o == o / 32 * 32;
  }

  /** The allocation bitmap entry among a cluster's directory entries from `o` on. */
  function ScanDirectory(dir: seq<byte>, o: nat, found: Option<nat>): (r: Scan)
    requires |dir| % 32 == 0 && o % 32 == 0
    requires found.Some? ==> found.value + 32 <= |dir|
    ensures r.One? ==> r.offset + 32 <= |dir|
    decreases |dir| - o
  {
    if o >= |dir| || dir[o] == 0 then (match found case Some(f) => One(f) case None => Nothing)
    else
      SlotFits(|dir|, o);
      if dir[o] == 0x81 then (if found.Some? then Several else ScanDirectory(dir, o + 32, Some(o)))
      else ScanDirectory(dir, o + 32, found)
  }

  /** Slot `p` at or behind slot `o` is an entry: no slot from `o` to it is the end mark. */
  ghost predicate EntrySlot(dir: seq<byte>, o: nat, p: int) {
    o <= p < |dir| && p % 32 == 0 && forall q :: o <= q <= p && q % 32 == 0 ==> dir[q] != 0
  }

  ghost predicate BitmapSlot(dir: seq<byte>, o: nat, p: int) {
    EntrySlot(dir, o, p) && dir[p] == 0x81
  }

  lemma {:induction false} SlotBounds(dir: seq<byte>, p: int)
    requires |dir| % 32 == 0 && BitmapSlot(dir, 0, p)
    ensures 0 <= p && p + 32 <= |dir|
  {
  }

  lemma {:induction false} SlotsFrom(dir: seq<byte>, o: nat, p: int)
    requires |dir| % 32 == 0 && o % 32 == 0
    ensures o >= |dir| || dir[o] == 0 ==> !EntrySlot(dir, o, p)
    ensures o < |dir| && dir[o] != 0 ==> (EntrySlot(dir, o, p) <==> p == o || EntrySlot(dir, o + 32, p))
  {
  }

  /** What the scan from slot `o` on says of the bitmap entries there. */
  lemma {:induction false} ScanFinds(dir: seq<byte>, o: nat, found: Option<nat>)
    requires |dir| % 32 == 0 && o % 32 == 0
    requires found.Some? ==> found.value + 32 <= |dir|
    ensures match ScanDirectory(dir, o, found)
      case Nothing => found.None? && forall p :: !BitmapSlot(dir, o, p)
      case One(x) =>
        if found.Some? then x == found.value && forall p :: !BitmapSlot(dir, o, p)
        else BitmapSlot(dir, o, x) && forall p :: BitmapSlot(dir, o, p) ==> p == x
      case Several =>
        if found.Some? then exists p :: BitmapSlot(dir, o, p)
        else exists p, q :: p != q && BitmapSlot(dir, o, p) && BitmapSlot(dir, o, q)
    decreases |dir| - o
  {
    var next := o + 32;
    forall p
      ensures o >= |dir| || dir[o] == 0 ==> !BitmapSlot(dir, o, p)
      ensures o < |dir| && dir[o] != 0 ==>
        (BitmapSlot(dir, o, p) <==> (p == o && dir[o] == 0x81) || BitmapSlot(dir, next, p))
    {
      SlotsFrom(dir, o, p);
    }
    forall p | BitmapSlot(dir, next, p) && o < |dir| && dir[o] != 0 ensures p != o && BitmapSlot(dir, o, p) {
      SlotsFrom(dir, o, p);
    }
    hide BitmapSlot;
    if o < |dir| && dir[o] != 0 {
      if dir[o] != 0x81 {
        ScanFinds(dir, next, found);
      } else {
        assert BitmapSlot(dir, o, o);
        if found.None? { ScanFinds(dir, next, Some(o)); }
      }
    }
  }

  /** The scan finds the one bitmap entry before the end mark, none, or that there are several. */
  lemma {:induction false} ScanIs(dir: seq<byte>)
    requires |dir| % 32 == 0
    ensures ScanDirectory(dir, 0, None) == Nothing <==> forall p :: !BitmapSlot(dir, 0, p)
    ensures forall x: nat :: ScanDirectory(dir, 0, None) == One(x) <==>
      BitmapSlot(dir, 0, x) && forall p :: BitmapSlot(dir, 0, p) ==> p == x
    ensures ScanDirectory(dir, 0, None) == Several <==>
      exists p, q :: p != q && BitmapSlot(dir, 0, p) && BitmapSlot(dir, 0, q)
  {
    hide BitmapSlot, ScanDirectory;
    ScanFinds(dir, 0, None);
  }

  datatype Found = Missing | Bad | At(place: nat, firstCluster: nat)

  predicate VolumeShape(vol: Volume) {
    SectorSizeOk(vol.sectorSize) && vol.sectorsPerCluster > 0
  }

  lemma {:induction false} ClusterSizeEven(vol: Volume)
    requires VolumeShape(vol)
    ensures vol.sectorsPerCluster * vol.sectorSize % 32 == 0
  {
    var k := vol.sectorSize / 32;
    assert vol.sectorSize == k * 32;
    MulAssoc(vol.sectorsPerCluster, k, 32);
    DivUnique(vol.sectorsPerCluster * vol.sectorSize, 32, vol.sectorsPerCluster * k, 0);
  }

  /** The bitmap entry in the first directory cluster that has one. */
  function FindBitmap(d: seq<byte>, vol: Volume, chain: seq<nat>): (r: Found)
    requires VolumeShape(vol)
    ensures r.At? ==> r.place + 32 <= |d|
  {
    if chain == [] then Missing
    else
      var base := vol.ClusterToLba(chain[0]) * vol.sectorSize;
      var size := vol.sectorsPerCluster * vol.sectorSize;
      if base < 0 || base + size > |d| then Bad
      else
        ClusterSizeEven(vol);
        match ScanDirectory(d[base..base + size], 0, None)
        case Several => Bad
        case Nothing => FindBitmap(d, vol, chain[1..])
        case One(o) => At(base + o, U32(d, base + o + 20))
  }

  /** The directory entries in cluster `c`, when it lies on the image. */
  function DirectoryOf(d: seq<byte>, vol: Volume, c: nat): (r: Option<seq<byte>>)
    requires VolumeShape(vol)
    ensures r.Some? ==> |r.value| % 32 == 0
  {
    var base := vol.ClusterToLba(c) * vol.sectorSize;
    var size := vol.sectorsPerCluster * vol.sectorSize;
    ClusterSizeEven(vol);
    if base < 0 || base + size > |d| then None else Some(d[base..base + size])
  }

  /** Cluster `c` is on the image and has no bitmap entry before its end mark. */
  ghost predicate NoBitmapIn(d: seq<byte>, vol: Volume, c: nat)
    requires VolumeShape(vol)
  {
    var dir := DirectoryOf(d, vol, c);
    dir.Some? && forall p :: !BitmapSlot(dir.value, 0, p)
  }

  /** Slot `o` of cluster `c` is the one bitmap entry before that cluster's end mark. */
  ghost predicate OneBitmapIn(d: seq<byte>, vol: Volume, c: nat, o: nat)
    requires VolumeShape(vol)
  {
    var dir := DirectoryOf(d, vol, c);
    dir.Some? && BitmapSlot(dir.value, 0, o) && forall p :: BitmapSlot(dir.value, 0, p) ==> p == o
  }

  /** The `k`-th cluster is the first with a bitmap entry, and `o` is its only one. */
  ghost predicate BitmapIn(d: seq<byte>, vol: Volume, chain: seq<nat>, k: nat, o: nat)
    requires VolumeShape(vol)
  {
    k < |chain| && (forall i :: 0 <= i < k ==> NoBitmapIn(d, vol, chain[i])) && OneBitmapIn(d, vol, chain[k], o)
  }

  ghost predicate NoBitmapInAny(d: seq<byte>, vol: Volume, chain: seq<nat>)
    requires VolumeShape(vol)
  {
    forall i :: 0 <= i < |chain| ==> NoBitmapIn(d, vol, chain[i])
  }

  lemma {:induction false} NoBitmapInRest(d: seq<byte>, vol: Volume, chain: seq<nat>)
    requires VolumeShape(vol) && chain != []
    ensures NoBitmapInAny(d, vol, chain) <==> NoBitmapIn(d, vol, chain[0]) && NoBitmapInAny(d, vol, chain[1..])
  {
    hide NoBitmapIn;
    var rest := chain[1..];
    if NoBitmapIn(d, vol, chain[0]) && NoBitmapInAny(d, vol, rest) {
      forall i | 0 <= i < |chain| ensures NoBitmapIn(d, vol, chain[i]) {
        if i > 0 { assert NoBitmapIn(d, vol, rest[i - 1]); }
      }
    }
    if NoBitmapInAny(d, vol, chain) {
      forall i | 0 <= i < |rest| ensures NoBitmapIn(d, vol, rest[i]) { assert NoBitmapIn(d, vol, chain[i + 1]); }
    }
  }

  /** The byte at which slot `o` of cluster `c` starts. */
  function SlotPlace(vol: Volume, c: nat, o: nat): int { vol.ClusterToLba(c) * vol.sectorSize + o }

  /** The search has ended at slot `o` of cluster `c`. */
  ghost predicate FoundAt(d: seq<byte>, vol: Volume, c: nat, o: nat, r: Found) {
    var place := SlotPlace(vol, c, o);
    place >= 0 && place + 32 <= |d| && r == At(place, U32(d, place + 20))
  }

  lemma {:induction false} FindBitmapAt(d: seq<byte>, vol: Volume, chain: seq<nat>, k: nat, o: nat)
    requires VolumeShape(vol) && BitmapIn(d, vol, chain, k, o)
    ensures k < |chain| && FoundAt(d, vol, chain[k], o, FindBitmap(d, vol, chain))
    decreases k
  {
    hide FindBitmap, NoBitmapIn, OneBitmapIn, FoundAt;
    FirstCluster(d, vol, chain);
    BitmapInRest(d, vol, chain, k, o);
    if k > 0 { FindBitmapAt(d, vol, chain[1..], k - 1, o); }
  }

  lemma {:induction false} FindBitmapWhere(d: seq<byte>, vol: Volume, chain: seq<nat>) returns (k: nat, o: nat)
    requires VolumeShape(vol) && FindBitmap(d, vol, chain).At?
    ensures BitmapIn(d, vol, chain, k, o)
  {
    FirstCluster(d, vol, chain);
    hide FindBitmap, NoBitmapIn, OneBitmapIn, FoundAt;
    if NoBitmapIn(d, vol, chain[0]) {
      k, o := FindBitmapWhere(d, vol, chain[1..]);
      k := k + 1;
    } else {
      k := 0;
      o :| OneBitmapIn(d, vol, chain[0], o);
    }
    BitmapInRest(d, vol, chain, k, o);
  }

  lemma {:induction false} FindBitmapMisses(d: seq<byte>, vol: Volume, chain: seq<nat>)
    requires VolumeShape(vol)
    ensures FindBitmap(d, vol, chain) == Missing <==> NoBitmapInAny(d, vol, chain)
  {
    if chain != [] {
      FindBitmapMisses(d, vol, chain[1..]);
      FirstCluster(d, vol, chain);
      NoBitmapInRest(d, vol, chain);
      hide FindBitmap, NoBitmapIn, OneBitmapIn, NoBitmapInAny;
    }
  }

  /** The search ends at the only bitmap entry of the first cluster that has any. */
  lemma {:induction false} FindBitmapIs(d: seq<byte>, vol: Volume, chain: seq<nat>)
    requires VolumeShape(vol)
    ensures FindBitmap(d, vol, chain) == Missing <==> NoBitmapInAny(d, vol, chain)
    ensures FindBitmap(d, vol, chain).At? <==> exists k: nat, o: nat :: BitmapIn(d, vol, chain, k, o)
    ensures forall k: nat, o: nat :: BitmapIn(d, vol, chain, k, o) ==>
      k < |chain| && FoundAt(d, vol, chain[k], o, FindBitmap(d, vol, chain))
  {
    FindBitmapMisses(d, vol, chain);
    hide FindBitmap, NoBitmapInAny, BitmapIn;
    if FindBitmap(d, vol, chain).At? { var k, o := FindBitmapWhere(d, vol, chain); }
    forall k: nat, o: nat | BitmapIn(d, vol, chain, k, o)
      ensures k < |chain| && FoundAt(d, vol, chain[k], o, FindBitmap(d, vol, chain))
    {
      FindBitmapAt(d, vol, chain, k, o);
    }
  }

  /** What the search makes of the first cluster. */
  lemma {:induction false} FirstCluster(d: seq<byte>, vol: Volume, chain: seq<nat>)
    requires VolumeShape(vol) && chain != []
    ensures NoBitmapIn(d, vol, chain[0]) ==> FindBitmap(d, vol, chain) == FindBitmap(d, vol, chain[1..])
    ensures forall o: nat :: OneBitmapIn(d, vol, chain[0], o) ==>
      FoundAt(d, vol, chain[0], o, FindBitmap(d, vol, chain)) && !NoBitmapIn(d, vol, chain[0])
    ensures !NoBitmapIn(d, vol, chain[0]) && (forall o: nat :: !OneBitmapIn(d, vol, chain[0], o)) ==>
      FindBitmap(d, vol, chain) == Bad
  {
    hide ScanDirectory, U32, BitmapSlot;
    var dir := DirectoryOf(d, vol, chain[0]);
    if dir.Some? {
      ScanIs(dir.value);
      forall p | BitmapSlot(dir.value, 0, p) ensures 0 <= p && p + 32 <= |dir.value| {
        SlotBounds(dir.value, p);
      }
      var scan := ScanDirectory(dir.value, 0, None);
      if scan.One? { assert OneBitmapIn(d, vol, chain[0], scan.offset); }
    }
  }

  lemma {:induction false} BitmapInRest(d: seq<byte>, vol: Volume, chain: seq<nat>, k: nat, o: nat)
    requires VolumeShape(vol) && chain != []
    ensures BitmapIn(d, vol, chain, k, o) <==>
      if k == 0 then OneBitmapIn(d, vol, chain[0], o)
      else NoBitmapIn(d, vol, chain[0]) && BitmapIn(d, vol, chain[1..], k - 1, o)
  {
    hide NoBitmapIn, OneBitmapIn;
    if k > 0 {
      var rest := chain[1..];
      assert forall i :: 0 < i < |chain| ==> rest[i - 1] == chain[i];
      if BitmapIn(d, vol, rest, k - 1, o) && NoBitmapIn(d, vol, chain[0]) {
        forall i | 0 <= i < k ensures NoBitmapIn(d, vol, chain[i]) {
          if i > 0 { assert NoBitmapIn(d, vol, rest[i - 1]); }
        }
      }
      if BitmapIn(d, vol, chain, k, o) {
        forall i | 0 <= i < k - 1 ensures NoBitmapIn(d, vol, rest[i]) { assert NoBitmapIn(d, vol, chain[i + 1]); }
      }
    }
  }

  /** The bitmap's directory entry with its length set for the grown volume. */
  ghost function PlanBitmap(
    d: seq<byte>, vol: Volume, rootCluster: nat, oldCount: nat, newCount: nat): (r: Option<Patch>)
    requires VolumeShape(vol) && newCount < U32_LIMIT
    ensures r.Some? ==> r.value.at + 32 <= |d| && |r.value.bytes| == 32
  {
    match ChainOf(vol, rootCluster)
    case None => None
    case Some(root) =>
      match FindBitmap(d, vol, root)
      case Missing => None
      case Bad => None
      case At(place, first) =>
        if U64(d, place + 24) < CeilDiv(oldCount, 8) then None
        else
          match ChainOf(vol, first)
          case None => None
          case Some(chain) =>
            if CeilDiv(newCount, 8) > |chain| * (vol.sectorsPerCluster * vol.sectorSize) then None
            else Some(Patch(place, PutU64(d[place..place + 32], 24, CeilDiv(newCount, 8))))
  }

  datatype BootPlan = BootPlan(grown: nat, newCount: nat, region: seq<byte>, bitmap: Patch)

  /** The figures of the boot sector that growth depends on. */
  datatype Geometry = Geometry(fatLength: nat, heap: nat, blocks: nat, count: nat, spc: nat)

  function GeometryOf(region: seq<byte>): (g: Geometry)
    requires |region| >= 512
    ensures g.spc > 0 && g.fatLength < U32_LIMIT && g.heap < U32_LIMIT && g.blocks < U64_LIMIT && g.count < U32_LIMIT
  {
    Geometry(U32(region, 84), U32(region, 88), U64(region, 72), U32(region, 92), Pow2(region[109] as nat))
  }

  function Capacity(g: Geometry, ss: nat): int {
    Min(g.fatLength * ss / 4 - 2, MAX_CLUSTERS)
  }

  /** The checks on the old and the offered volume length. */
  predicate LengthsOk(g: Geometry, ss: nat, newBlocks: nat) {
    && g.spc > 0 && g.fatLength > 0 && g.heap > 24
    && g.heap < g.blocks <= newBlocks
    && (g.blocks - g.heap) / g.spc <= Capacity(g, ss)
  }

  /** The volume length aimed for: all that is offered, as far as the FAT can describe it. */
  function GrownBlocks(g: Geometry, ss: nat, newBlocks: nat): int {
    Min(newBlocks, Max(g.heap + Capacity(g, ss) * g.spc, g.blocks))
  }

  function GrownCount(g: Geometry, ss: nat, newBlocks: nat): int
    requires g.spc > 0
  {
    (GrownBlocks(g, ss, newBlocks) - g.heap) / g.spc
  }

  /** The grown volume neither shrinks nor outgrows what is offered or what its FAT can describe. */
  lemma {:induction false} GrownFits(g: Geometry, ss: nat, newBlocks: nat)
    requires LengthsOk(g, ss, newBlocks)
    ensures g.blocks <= GrownBlocks(g, ss, newBlocks) <= newBlocks
    ensures (g.blocks - g.heap) / g.spc <= GrownCount(g, ss, newBlocks) <= Capacity(g, ss) <= MAX_CLUSTERS
  {
    var grown, capacity := GrownBlocks(g, ss, newBlocks), Capacity(g, ss);
    DivMonotone(g.blocks - g.heap, grown - g.heap, g.spc);
    if grown > g.blocks {
      DivMonotone(grown - g.heap, capacity * g.spc, g.spc);
      DivUnique(capacity * g.spc, g.spc, capacity, 0);
    }
  }

  predicate BootOk(region: seq<byte>, ss: nat, start: nat)
    requires |region| >= 512
  {
    && region[..3] == EXFAT_JUMP && region[3..11] == EXFAT_MARK
    && U64(region, 64) == start
    && Pow2(region[108] as nat) == ss
  }

  /** The boot region with the new volume length and cluster count, under a new checksum. */
  function GrownRegion(region: seq<byte>, ss: nat, grown: nat, count: nat): (r: seq<byte>)
    requires SectorSizeOk(ss) && |region| == 12 * ss && grown < U64_LIMIT && count < U32_LIMIT
    ensures |r| == |region|
  {
    WithChecksum(PutU32(PutU64(region, 72, grown), 92, count), ss)
  }

  ghost function PlanBoot(d: seq<byte>, ss: nat, start: nat, newBlocks: nat): (r: Option<BootPlan>)
    requires SectorSizeOk(ss) && newBlocks < U64_LIMIT
    ensures r.Some? ==>
      && start * ss + 12 * ss <= |d| && |r.value.region| == 12 * ss
      && 0 < r.value.grown <= newBlocks && r.value.bitmap.at + 32 <= |d| && |r.value.bitmap.bytes| == 32
  {
    if start * ss + 12 * ss > |d| then None
    else PlanRegion(d, d[start * ss..start * ss + 12 * ss], ss, start, newBlocks)
  }

  ghost function PlanRegion(d: seq<byte>, region: seq<byte>, ss: nat, start: nat, newBlocks: nat): (r: Option<BootPlan>)
    requires SectorSizeOk(ss) && newBlocks < U64_LIMIT && |region| == 12 * ss
    ensures r.Some? ==>
      && |r.value.region| == 12 * ss && 0 < r.value.grown <= newBlocks
      && r.value.bitmap.at + 32 <= |d| && |r.value.bitmap.bytes| == 32
  {
    var g := GeometryOf(region);
    if !BootOk(region, ss, start) || !LengthsOk(g, ss, newBlocks) then None
    else
      var grown, count := GrownBlocks(g, ss, newBlocks), GrownCount(g, ss, newBlocks);
      GrownFits(g, ss, newBlocks);
      if count < 16 then None
      else
        match PlanBitmap(d, VolumeOf(d, ss, start, region, g.count), U32(region, 96), g.count, count)
        case None => None
        case Some(bitmap) => Some(BootPlan(grown, count, GrownRegion(region, ss, grown, count), bitmap))
  }

  // ----- the whole plan -----

  const DATA_NAME := "NEXBOOT_DATA"
  const EFI_NAME := "NEXBOOT_EFI"

  /** The entry array the primary header vouches for, and where it starts. */
  datatype Table = Table(at: nat, count: nat, size: nat, entries: seq<byte>)

  predicate TableShape(t: Table) {
    0 < t.count <= 128 && t.size >= 128 && t.size % 8 == 0 && |t.entries| == t.count * t.size
  }

  predicate MbrOk(mbr: seq<byte>)
    requires |mbr| >= 512
  {
    mbr[510] == 0x55 && mbr[511] == 0xAA && mbr[0x1BE + 4] == 0xEE
  }

  function TableAt(env: Env, d: seq<byte>, at: nat, count: nat, size: nat, crc: nat): (r: Option<Table>)
    ensures r.Some? ==> var t := r.value;
      TableShape(t) && t.at == at && t.count == count && t.size == size
      && at + |t.entries| <= |d| && t.entries == d[at..at + |t.entries|] && env.crc(t.entries) == crc
  {
    var len := count * size;
    if !(0 < count <= 128) || size < 128 || size % 8 != 0 || at + len > |d| then None
    else if env.crc(d[at..at + len]) != crc then None
    else Some(Table(at, count, size, d[at..at + len]))
  }

  predicate PrimaryOk(env: Env, d: seq<byte>, ss: nat)
    requires SectorSizeOk(ss)
  {
    |d| >= 2 * ss && MbrOk(d) && HeaderValid(env, d[ss..2 * ss], ss, 1)
  }

  /** The partition table of a disk with a valid primary header. */
  function ReadTable(env: Env, d: seq<byte>, ss: nat): (r: Option<Table>)
    requires SectorSizeOk(ss)
    ensures r.Some? ==> PrimaryOk(env, d, ss) && TableShape(r.value)
    ensures r.Some? ==> var at, size := r.value.at, |r.value.entries|;
      at + size <= |d| && r.value.entries == d[at..at + size]
  {
    if !PrimaryOk(env, d, ss) then None
    else
      var header := d[ss..2 * ss];
      TableAt(env, d, U64(header, 72) * ss, U32(header, 80), U32(header, 84), U32(header, 88))
  }

  /** The data partition, if the table also has an EFI one and nothing starts after it. */
  function DataPart(env: Env, t: Table): (r: Option<Part>)
    requires TableShape(t)
    ensures r.Some? ==> r.value in Parts(env, t.entries, t.size, t.count) && r.value.name == DATA_NAME
  {
    var parts := Parts(env, t.entries, t.size, t.count);
    var data := FirstNamed(parts, DATA_NAME);
    if FirstNamed(parts, EFI_NAME).None? || data.None? then None
    else if forall i :: 0 <= i < |parts| ==> parts[i].startLba <= data.value.startLba then data
    else None
  }

  datatype Decision = Reject | AlreadyGrown | Grow(grown: nat, patches: seq<Patch>)

  function NewEntries(t: Table, data: Part, newEnd: nat): (r: seq<byte>)
    requires TableShape(t) && data.index < t.count && newEnd < U64_LIMIT
    ensures |r| == |t.entries|
  {
    MulMonotone(data.index + 1, t.count, t.size);
    MulAdd(data.index, 1, t.size);
    PutU64(t.entries, data.index * t.size + 40, newEnd)
  }

  function NewMbr(d: seq<byte>, ss: nat, total: nat): (r: seq<byte>)
    requires SectorSizeOk(ss) && |d| >= 2 * ss && total > 0
    ensures |r| == ss
  {
    PutU32(d[..ss], 0x1BE + 12, Min(total - 1, 0xFFFF_FFFF))
  }

  function NewHeader(env: Env, header: seq<byte>, last: nat, lastUsable: nat, entries: seq<byte>): (r: seq<byte>)
    requires |header| >= 512 && 92 <= U32(header, 12) <= |header| && last < U64_LIMIT && lastUsable < U64_LIMIT
    ensures |r| == |header| && U32(r, 12) == U32(header, 12)
  {
    Sealed(env, PutU32(PutU64(PutU64(header, 32, last), 48, lastUsable), 88, env.crc(entries)))
  }

  function BackupHeader(env: Env, header: seq<byte>, last: nat, entriesAt: nat): (r: seq<byte>)
    requires |header| >= 512 && 92 <= U32(header, 12) <= |header| && last < U64_LIMIT && entriesAt < U64_LIMIT
    ensures |r| == |header|
  {
    Sealed(env, PutU64(PutU64(PutU64(header, 24, last), 32, 1), 72, entriesAt))
  }

  lemma {:induction false} PartIndex(env: Env, entries: seq<byte>, size: nat, n: nat, p: Part)
    requires size >= 128 && n * size <= |entries| && p in Parts(env, entries, size, n)
    ensures p.index < n && (p.index + 1) * size <= |entries| && PartAt(env, entries, size, p.index) == Some(p)
    ensures p.startLba > 0 && p.startLba <= p.endLba < U64_LIMIT
  {
    MulMonotone(n - 1, n, size);
    if p in Parts(env, entries, size, n - 1) {
      PartIndex(env, entries, size, n - 1, p);
    }
  }

  /** The eight writes, in order. */
  function Patches(env: Env, d: seq<byte>, ss: nat, total: nat, t: Table, data: Part, boot: BootPlan): (ps: seq<Patch>)
    requires SectorSizeOk(ss) && PrimaryOk(env, d, ss) && TableShape(t) && data.index < t.count
    requires 0 < total < U64_LIMIT && CeilDiv(|t.entries|, ss) + 1 < total
    requires 0 < data.startLba + boot.grown <= U64_LIMIT
    ensures |ps| == 8
  {
    var last := total - 1;
    var entriesAt := last - CeilDiv(|t.entries|, ss);
    var entries := NewEntries(t, data, data.startLba + boot.grown - 1);
    var header := NewHeader(env, d[ss..2 * ss], last, entriesAt - 1, entries);
    [ boot.bitmap,
      Patch(data.startLba * ss, boot.region),
      Patch(data.startLba * ss + 12 * ss, boot.region),
      Patch(0, NewMbr(d, ss, total)),
      Patch(t.at, entries),
      Patch(entriesAt * ss, entries),
      Patch(ss, header),
      Patch(last * ss, BackupHeader(env, header, last, entriesAt)) ]
  }

  /** What the grower decides for a disk with this content on media of `size` bytes. */
  ghost function Plan(env: Env, d: seq<byte>, ss: nat, size: nat): Decision
    requires SectorSizeOk(ss) && size / ss < U64_LIMIT
  {
    if size % ss != 0 || size / ss <= 128 then Reject
    else
      match ReadTable(env, d, ss)
      case None => Reject
      case Some(t) =>
        match DataPart(env, t)
        case None => Reject
        case Some(data) => PlanData(env, d, ss, size / ss, t, data)
  }

  /** The decision once the table and the data partition are known. */
  ghost function PlanData(env: Env, d: seq<byte>, ss: nat, total: nat, t: Table, data: Part): Decision
    requires SectorSizeOk(ss) && PrimaryOk(env, d, ss) && TableShape(t) && 0 < total < U64_LIMIT
    requires data in Parts(env, t.entries, t.size, t.count)
  {
    var last := total - 1;
    var lastUsable := last - CeilDiv(|t.entries|, ss) - 1;
    if lastUsable <= data.startLba then Reject
    else
      match PlanBoot(d, ss, data.startLba, lastUsable - data.startLba + 1)
      case None => Reject
      case Some(boot) =>
        var newEnd := data.startLba + boot.grown - 1;
        PartIndex(env, t.entries, t.size, t.count, data);
        if newEnd < data.endLba then Reject
        else if newEnd == data.endLba && U64(d[ss..2 * ss], 32) == last then AlreadyGrown
        else Grow(boot.grown, Patches(env, d, ss, total, t, data, boot))
  }
}
