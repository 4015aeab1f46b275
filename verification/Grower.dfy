/** The grower at work on a disk: it reads, decides, and only then writes. */
module Grower {
  import opened Common
  import opened Bytes
  import opened ClusterFiles
  import opened GrowPlan
  import opened GrowTerms

  datatype Report = NoChange | Grew(blocks: nat)

  /** parse_partitions: the used and sensible slots, in order. */
  method ParsePartitions(env: Env, entries: seq<byte>, count: nat, size: nat) returns (parts: seq<Part>)
    requires size >= 128 && count * size <= |entries|
    ensures parts == Parts(env, entries, size, count)
  {
    parts := [];
    for i := 0 to count
      invariant i * size <= |entries| && parts == Parts(env, entries, size, i)
    {
      MulMonotone(i + 1, count, size);
      var e := Entry(entries, size, i);
      if e[..16] == Zeros(16) {
        continue;
      }
      var start, end := U64(e, 32), U64(e, 40);
      if start == 0 || end < start {
        continue;
      }
      parts := parts + [Part(i, start, end, env.decode(e[56..128]))];
    }
  }

  /** update_exfat_boot_checksum: rotate and add over the first eleven sectors, fill the twelfth. */
  method UpdateBootChecksum(region: seq<byte>, ss: nat) returns (r: seq<byte>)
    requires (ss == 512 || ss == 4096) && |region| == 12 * ss
    ensures r == WithChecksum(region, ss) && Summed(r, ss)
  {
    WithChecksumSummed(region, ss);
    hide Filled, Splice, RotateRight, Summed;
    var checksum: nat := 0;
    for offset := 0 to 11 * ss
      invariant checksum == Checksum(region, offset)
    {
      if offset == 106 || offset == 107 || offset == 112 {
        continue;
      }
      checksum := (RotateRight(checksum) + region[offset] as nat) % U32_LIMIT;
    }
    r := Splice(region, 11 * ss, Filled(checksum, ss));
  }

  /** The scan of one directory cluster. */
  method ScanCluster(dir: seq<byte>) returns (r: Scan)
    requires |dir| % 32 == 0
    ensures r == ScanDirectory(dir, 0, None)
  {
    var o := 0;
    var found: Option<nat> := None;
    while o < |dir|
      invariant o % 32 == 0 && (found.Some? ==> found.value + 32 <= |dir|)
      invariant ScanDirectory(dir, 0, None) == ScanDirectory(dir, o, found)
    {
      if dir[o] == 0 {
        break;
      }
      if dir[o] == 0x81 {
        if found.Some? {
          return Several;
        }
        found := Some(o);
      }
      o := o + 32;
    }
    r := match found case Some(f) => One(f) case None => Nothing;
  }

  method FindBitmapEntry(d: seq<byte>, vol: Volume, chain: seq<nat>) returns (r: Found)
    requires VolumeShape(vol)
    ensures r == FindBitmap(d, vol, chain)
  {
    assert chain[0..] == chain;
    for k := 0 to |chain|
      invariant FindBitmap(d, vol, chain) == FindBitmap(d, vol, chain[k..])
    {
      assert chain[k..][0] == chain[k] && chain[k..][1..] == chain[k + 1..];
      var base := vol.ClusterToLba(chain[k]) * vol.sectorSize;
      var size := vol.sectorsPerCluster * vol.sectorSize;
      if base < 0 || base + size > |d| {
        return Bad;
      }
      ClusterSizeEven(vol);
      var scan := ScanCluster(d[base..base + size]);
      match scan {
        case Several => return Bad;
        case One(o) => return At(base + o, U32(d, base + o + 20));
        case Nothing =>
      }
    }
    r := Missing;
  }

  /** chain: the cluster chain from `first`, when there is one inside the volume. */
  method WalkChain(vol: Volume, first: nat) returns (r: Option<seq<nat>>)
    ensures r == ChainOf(vol, first)
  {
    if !(2 <= first < vol.limit) {
      return None;
    }
    var walked := ClusterChain(vol, first);
    if walked.Err? {
      return None;
    }
    SameChain(vol, first, walked.value, ChainOf(vol, first).value);
    r := Some(walked.value);
  }

  /** plan_exfat_bitmap_length: the bitmap's entry with the new length, if its chain can hold that. */
  method PlanBitmapLength(d: seq<byte>, vol: Volume, rootCluster: nat, oldCount: nat, newCount: nat)
    returns (r: Option<Patch>)
    requires VolumeShape(vol) && newCount < U32_LIMIT
    ensures r == PlanBitmap(d, vol, rootCluster, oldCount, newCount)
  {
    var root := WalkChain(vol, rootCluster);
    if root.None? {
      return None;
    }
    var found := FindBitmapEntry(d, vol, root.value);
    if !found.At? || U64(d, found.place + 24) < CeilDiv(oldCount, 8) {
      return None;
    }
    var newSize := CeilDiv(newCount, 8);
    var chain := WalkChain(vol, found.firstCluster);
    if chain.None? || newSize > |chain.value| * (vol.sectorsPerCluster * vol.sectorSize) {
      return None;
    }
    r := Some(Patch(found.place, PutU64(d[found.place..found.place + 32], 24, newSize)));
  }

  /** plan_exfat_boot: the geometry checks, the new boot region and the bitmap's new length. */
  method PlanBootRegion(d: seq<byte>, ss: nat, start: nat, newBlocks: nat) returns (r: Option<BootPlan>)
    requires SectorSizeOk(ss) && newBlocks < U64_LIMIT
    ensures r == PlanBoot(d, ss, start, newBlocks)
  {
    hide PlanBitmap, VolumeOf, WithChecksum, PutU32, PutU64, U32, U64, BootOk, GrownBlocks, LengthsOk, Capacity;
    if start * ss + 12 * ss > |d| {
      return None;
    }
    var region := d[start * ss..start * ss + 12 * ss];
    var g := GeometryOf(region);
    if !BootOk(region, ss, start) || !LengthsOk(g, ss, newBlocks) {
      return None;
    }
    GrownFits(g, ss, newBlocks);
    var grown, count := GrownBlocks(g, ss, newBlocks), GrownCount(g, ss, newBlocks);
    if count < 16 {
      return None;
    }
    var boot := PutU64(region, 72, grown);
    boot := PutU32(boot, 92, count);
    boot := UpdateBootChecksum(boot, ss);
    var bitmap := PlanBitmapLength(d, VolumeOf(d, ss, start, region, g.count), U32(region, 96), g.count, count);
    if bitmap.None? {
      return None;
    }
    r := Some(BootPlan(grown, count, boot, bitmap.value));
  }

  /** What the write says of each byte leaves no choice. */
  lemma {:induction false} SameWrite(before: seq<byte>, p: Patch, after: seq<byte>)
    requires |after| == if p.bytes == [] then |before| else Max(|before|, p.at + |p.bytes|)
    requires forall x :: p.at <= x < p.at + |p.bytes| ==> after[x] == p.bytes[x - p.at]
    requires forall x :: 0 <= x < |before| && !(p.at <= x < p.at + |p.bytes|) ==> after[x] == before[x]
    requires p.bytes != [] ==> forall x :: |before| <= x < p.at ==> after[x] == 0
    ensures after == WriteAt(before, p)
  {
    hide WriteAt;
    var w := WriteAt(before, p);
    forall x | 0 <= x < |w| ensures after[x] == w[x] {
      if !(p.at <= x < p.at + |p.bytes|) && x >= |before| { assert x < p.at; }
    }
  }

  class MediaFile {
    var data: seq<byte>

    constructor (data: seq<byte>)
      ensures this.data == data
    {
      this.data := data;
    }

    method Write(at: nat, bytes: seq<byte>)
      modifies this
      ensures |data| == if bytes == [] then |old(data)| else Max(|old(data)|, at + |bytes|)
      ensures forall x :: at <= x < at + |bytes| ==> data[x] == bytes[x - at]
      ensures forall x :: 0 <= x < |old(data)| && !(at <= x < at + |bytes|) ==> data[x] == old(data)[x]
      ensures bytes != [] ==> forall x :: |old(data)| <= x < at ==> data[x] == 0
    {
      data := WriteAt(data, Patch(at, bytes));
    }

    method WritePatches(ps: seq<Patch>)
      modifies this
      ensures data == WriteAll(old(data), ps)
    {
      for i := 0 to |ps|
        invariant data == WriteAll(old(data), ps[..i])
      {
        assert ps[..i + 1][..i] == ps[..i];
        ghost var before := data;
        Write(ps[i].at, ps[i].bytes);
        SameWrite(before, ps[i], data);
      }
      assert ps[..|ps|] == ps;
    }

    /**
     grow: when any check fails nothing is written; when the media is already
     grown nothing is written; otherwise exactly the planned writes are made.
     */
    method Grow(env: Env, ss: nat, size: nat) returns (r: Result<Report, string>)
      requires (ss == 512 || ss == 4096) && size / ss < U64_LIMIT
      modifies this
      ensures r.Err? <==> Unfit(env, old(data), ss, size)
      ensures match Plan(env, old(data), ss, size)
        case Reject => r.Err? && data == old(data)
        case AlreadyGrown => r == Ok(NoChange) && data == old(data)
        case Grow(grown, patches) => r == Ok(Grew(grown)) && data == WriteAll(old(data), patches)
    {
      hide PlanData, ReadTable, Parts, FirstNamed, PartAt, Unfit;
      RejectsIff(env, data, ss, size);
      if size % ss != 0 || size / ss <= 128 {
        return Err("unusable image size");
      }
      var table := ReadTable(env, data, ss);
      if table.None? {
        return Err("no valid GPT");
      }
      var t := table.value;
      var parts := ParsePartitions(env, t.entries, t.count, t.size);
      var part := FirstNamed(parts, DATA_NAME);
      if FirstNamed(parts, EFI_NAME).None? || part.None? {
        return Err("missing release partition");
      }
      if exists i :: 0 <= i < |parts| && parts[i].startLba > part.value.startLba {
        return Err("NEXBOOT_DATA is not physically last partition");
      }
      r := GrowData(env, ss, size / ss, t, part.value);
    }

    method GrowData(env: Env, ss: nat, total: nat, t: Table, part: Part) returns (r: Result<Report, string>)
      requires SectorSizeOk(ss) && PrimaryOk(env, data, ss) && TableShape(t) && 0 < total < U64_LIMIT
      requires part in Parts(env, t.entries, t.size, t.count)
      modifies this
      ensures match PlanData(env, old(data), ss, total, t, part)
        case Reject => r.Err? && data == old(data)
        case AlreadyGrown => r == Ok(NoChange) && data == old(data)
        case Grow(grown, patches) => r == Ok(Grew(grown)) && data == WriteAll(old(data), patches)
    {
      hide PlanBoot, Patches, Parts, U64, PartAt;
      var last := total - 1;
      var entriesAt := last - CeilDiv(|t.entries|, ss);
      var lastUsable := entriesAt - 1;
      if lastUsable <= part.startLba {
        return Err("no room for expanded data partition");
      }
      var boot := PlanBootRegion(data, ss, part.startLba, lastUsable - part.startLba + 1);
      if boot.None? {
        return Err("exFAT volume cannot grow");
      }
      PartIndex(env, t.entries, t.size, t.count, part);
      var newEnd := part.startLba + boot.value.grown - 1;
      if newEnd < part.endLba {
        return Err("refusing to shrink existing data partition");
      }
      if newEnd == part.endLba && U64(data[ss..2 * ss], 32) == last {
        return Ok(NoChange);
      }
      WritePatches(Patches(env, data, ss, total, t, part, boot.value));
      r := Ok(Grew(boot.value.grown));
    }
  }
}
