/**
 The independent exFAT reader: the checks it makes on a volume before it reads
 anything, its own walk through the FAT and its own search of the root
 directory.
 */
module ExfatReader {
  import opened Common
  import opened Bytes
  import opened ClusterFiles
  import opened RegionReads
  import opened GrowPlan
  import opened GrowLayout
  import opened GrowExfat

  // ----- the root directory -----

  /** The `k`-th directory entry is whole and no end mark comes before or at it. */
  ghost predicate Listed(dir: seq<byte>, k: int) {
    0 <= k && 32 * k + 32 <= |dir| && forall j :: 0 <= j <= k ==> dir[32 * j] != 0
  }

  /** The `k`-th entry is the first of its kind. */
  ghost predicate FirstOf(dir: seq<byte>, kind: byte, k: int) {
    Listed(dir, k) && dir[32 * k] == kind && forall j :: 0 <= j < k ==> dir[32 * j] != kind
  }

  /** raw_directory_entries: the entries up to the first end mark. */
  method RawDirectoryEntries(dir: seq<byte>) returns (entries: seq<seq<byte>>)
    ensures forall k: nat :: k < |entries| ==> Listed(dir, k) && entries[k] == dir[32 * k..32 * k + 32]
    ensures forall k: nat :: Listed(dir, k) ==> k < |entries|
  {
    entries := [];
    while 32 * |entries| + 32 <= |dir| && dir[32 * |entries|] != 0
      invariant forall k: nat :: k < |entries| ==> Listed(dir, k) && entries[k] == dir[32 * k..32 * k + 32]
      decreases |dir| - 32 * |entries|
    {
      var n := |entries|;
      forall j | 0 <= j <= n ensures dir[32 * j] != 0 {
        if j < n { assert Listed(dir, j); }
      }
      entries := entries + [dir[32 * n..32 * n + 32]];
    }
    forall k: nat | Listed(dir, k) ensures k < |entries| { BeforeEnd(dir, |entries|, k); }
  }

  lemma {:induction false} BeforeEnd(dir: seq<byte>, n: nat, k: nat)
    requires Listed(dir, k)
    ensures n <= k ==> 32 * n + 32 <= |dir| && dir[32 * n] != 0
  {
  }

  /** next(...): the first entry of a kind. */
  method FirstEntry(dir: seq<byte>, kind: byte) returns (r: Option<nat>)
    ensures match r
      case Some(k) => FirstOf(dir, kind, k)
      case None => forall k: nat :: !FirstOf(dir, kind, k)
  {
    var entries := RawDirectoryEntries(dir);
    for k := 0 to |entries|
      invariant forall j: nat :: j < k ==> Listed(dir, j) && dir[32 * j] != kind
    {
      assert Listed(dir, k);
      if entries[k][0] == kind {
        return Some(k);
      }
    }
    r := None;
  }

  // ----- the volume -----

  /** Every FAT entry the reader can read: it asks only that the entry lies on the image. */
  function ReaderFat(d: seq<byte>, base: nat): map<nat, nat> {
    map c: nat | c < |d| && base + c * 4 + 4 <= |d| :: U32(d, base + c * 4)
  }

  /** The volume the reader sees. */
  function ReaderVolume(d: seq<byte>, ss: nat, start: nat, main: seq<byte>): Volume
    requires |main| >= 512
  {
    Volume(ss, Pow2(main[109] as nat), start + U32(main, 88),
           ReaderFat(d, (start + U32(main, 80)) * ss), END_OF_CHAIN, U32(main, 92) + 2)
  }

  /** The clusters of a chain can all be read, and hold `data`. */
  ghost predicate ChainHolds(d: seq<byte>, vol: Volume, first: nat, chain: seq<nat>, data: seq<byte>) {
    && IsChain(vol, first, chain)
    && (forall i :: 0 <= i < |chain| ==> 2 <= chain[i] < vol.limit && InImage(d, vol, chain[i]))
    && data == Content(d, vol, chain)
  }

  /** The bitmap's chain is exactly as long as the bitmap of `count` clusters. */
  ghost predicate ChainExact(vol: Volume, dir: seq<byte>, k: nat, count: nat)
    requires 32 * k + 32 <= |dir| && VolumeShape(vol)
  {
    var first := U32(dir, 32 * k + 20);
    && first >= 2
    && exists chain ::
         IsChain(vol, first, chain)
         && |chain| == CeilDiv(CeilDiv(count, 8), vol.sectorsPerCluster * vol.sectorSize)
  }

  /** The bitmap's entry gives the length that `count` clusters need, and a chain of exactly that length. */
  ghost predicate BitmapEntryOk(vol: Volume, dir: seq<byte>, k: nat, count: nat)
    requires 32 * k + 32 <= |dir| && VolumeShape(vol)
  {
    U64(dir, 32 * k + 24) == CeilDiv(count, 8) && ChainExact(vol, dir, k, count)
  }

  /** The check sum the recommended up-case table has, and its length. */
  const UPCASE_SUM: nat := 0xE619_D30D
  const UPCASE_SIZE: nat := 5836

  /** The up-case table's entry; `upcase` says whether the table decodes. */
  ghost predicate UpcaseEntryOk(
    upcase: seq<byte> -> bool, d: seq<byte>, vol: Volume, dir: seq<byte>, k: nat, chain: seq<nat>)
    requires 32 * k + 32 <= |dir|
  {
    var first, size := U32(dir, 32 * k + 20), U64(dir, 32 * k + 24);
    && first >= 2 && size == UPCASE_SIZE && U32(dir, 32 * k + 4) == UPCASE_SUM
    && exists data :: ChainHolds(d, vol, first, chain, data) && size <= |data| && upcase(data[..size])
  }

  /** require_system_root_entries, for a root directory with this chain and an up-case table with that. */
  ghost predicate RootAccepted(
    upcase: seq<byte> -> bool, d: seq<byte>, vol: Volume, rootCluster: nat, count: nat,
    root: seq<nat>, table: seq<nat>)
    requires VolumeShape(vol)
  {
    exists dir: seq<byte>, b: nat, u: nat, l: nat ::
      && ChainHolds(d, vol, rootCluster, root, dir)
      && FirstOf(dir, 0x81, b) && FirstOf(dir, 0x82, u) && FirstOf(dir, 0x83, l)
      && BitmapEntryOk(vol, dir, b, count) && UpcaseEntryOk(upcase, d, vol, dir, u, table)
  }

  /** The same for `count` clusters, whatever length the bitmap's entry gives. */
  ghost predicate RootFits(
    upcase: seq<byte> -> bool, d: seq<byte>, vol: Volume, rootCluster: nat, count: nat,
    root: seq<nat>, table: seq<nat>)
    requires VolumeShape(vol)
  {
    exists dir: seq<byte>, b: nat, u: nat, l: nat ::
      && ChainHolds(d, vol, rootCluster, root, dir)
      && FirstOf(dir, 0x81, b) && FirstOf(dir, 0x82, u) && FirstOf(dir, 0x83, l)
      && ChainExact(vol, dir, b, count) && UpcaseEntryOk(upcase, d, vol, dir, u, table)
  }

  /** The checks on the two boot regions of a volume in a partition of `blocks` blocks. */
  ghost predicate BootAccepted(d: seq<byte>, ss: nat, start: nat, blocks: nat)
    requires SectorSizeOk(ss)
  {
    && start * ss + 24 * ss <= |d|
    && var main := BootRegion(d, ss, start);
    && d[start * ss + 12 * ss..start * ss + 24 * ss] == main
    && ChecksumOk(main, ss) && BootOk(main, ss, start) && FixedFieldsOk(main, ss) && U64(main, 72) <= blocks
  }

  /** The reader takes the volume, with these chains of its root directory and its up-case table. */
  ghost predicate VolumeAccepted(
    upcase: seq<byte> -> bool, d: seq<byte>, ss: nat, start: nat, blocks: nat, root: seq<nat>, table: seq<nat>)
    requires SectorSizeOk(ss)
  {
    && BootAccepted(d, ss, start, blocks)
    && var main := BootRegion(d, ss, start);
       RootAccepted(upcase, d, ReaderVolume(d, ss, start, main), U32(main, 96), U32(main, 92), root, table)
  }

  /** What the reader asks of a volume beside what the grower rewrites, were it of `count` clusters. */
  ghost predicate VolumeFits(
    upcase: seq<byte> -> bool, d: seq<byte>, ss: nat, start: nat, count: nat, root: seq<nat>, table: seq<nat>)
    requires SectorSizeOk(ss)
  {
    && start * ss + 24 * ss <= |d|
    && var main := BootRegion(d, ss, start);
       && FixedFieldsOk(main, ss)
       && RootFits(upcase, d, ReaderVolume(d, ss, start, main), U32(main, 96), count, root, table)
  }

  /** The search of the root directory ends at a bitmap entry. */
  ghost predicate ShownIn(d: seq<byte>, vol: Volume, rootCluster: nat) {
    exists root, dir: seq<byte>, b: nat :: ChainHolds(d, vol, rootCluster, root, dir) && FirstOf(dir, 0x81, b)
  }

  /** ... and that entry gives exactly the length the cluster count needs, in a chain that has room for it. */
  ghost predicate ExactIn(d: seq<byte>, vol: Volume, rootCluster: nat, count: nat) {
    exists root, dir: seq<byte>, b: nat, chain ::
      && ChainHolds(d, vol, rootCluster, root, dir) && FirstOf(dir, 0x81, b)
      && U64(dir, 32 * b + 24) == CeilDiv(count, 8)
      && IsChain(vol, U32(dir, 32 * b + 20), chain)
      && CeilDiv(count, 8) <= |chain| * (vol.sectorsPerCluster * vol.sectorSize)
  }

  ghost predicate BitmapShown(d: seq<byte>, ss: nat, start: nat)
    requires SectorSizeOk(ss)
  {
    && start * ss + 24 * ss <= |d|
    && var main := BootRegion(d, ss, start);
       ShownIn(d, ReaderVolume(d, ss, start, main), U32(main, 96))
  }

  ghost predicate BitmapExact(d: seq<byte>, ss: nat, start: nat)
    requires SectorSizeOk(ss)
  {
    && start * ss + 24 * ss <= |d|
    && var main := BootRegion(d, ss, start);
       ExactIn(d, ReaderVolume(d, ss, start, main), U32(main, 96), U32(main, 92))
  }
}
