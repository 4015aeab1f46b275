/** Files on a FAT32 or exFAT volume: the cluster chain, its extents, and reads through them. */
module ClusterFiles {
  import opened Common
  import opened Extents

  datatype FileRecord = FileRecord(isDir: bool, size: nat, firstCluster: nat, contiguous: bool)

  /**
   What the readers take from a volume. `fat[c]` is the entry read for cluster
   `c`; a cluster whose entry lies beyond the image is not in the map. Entries
   from `endMark` on end a chain, others must be at least 2 and below `limit`:
   exFAT's limit is its cluster count plus 2, FAT32's is its end mark.
   */
  datatype Volume = Volume(
    sectorSize: nat, sectorsPerCluster: nat, heapLba: int, fat: map<nat, nat>, endMark: nat, limit: nat)
  {
    ghost predicate Valid() {
      sectorSize > 0 && sectorsPerCluster > 0
    }

    function ClusterToLba(cluster: nat): int {
      heapLba + (cluster as int - 2) * sectorsPerCluster
    }
  }

  function CeilDiv(value: nat, divisor: nat): nat
    requires divisor > 0
  {
    (value + divisor - 1) / divisor
  }

  // ----- chains -----

  ghost predicate Distinct(s: seq<nat>) {
    forall i, j :: 0 <= i < j < |s| ==> s[i] != s[j]
  }

  /** The entry of cluster `c` leads on to `next`. */
  ghost predicate Follows(vol: Volume, c: nat, next: nat) {
    c in vol.fat && vol.fat[c] == next && next < vol.endMark && 2 <= next < vol.limit
  }

  /** Each cluster of the chain is linked to the next one, none comes twice. */
  ghost predicate Linked(vol: Volume, start: nat, chain: seq<nat>) {
    && chain != [] && chain[0] == start && start >= 2
    && Distinct(chain)
    && forall i :: 0 < i < |chain| ==> Follows(vol, chain[i - 1], chain[i])
  }

  /** A complete chain: linked, and its last cluster carries an end mark. */
  ghost predicate IsChain(vol: Volume, start: nat, chain: seq<nat>) {
    Linked(vol, start, chain) && var last := chain[|chain| - 1]; last in vol.fat && vol.fat[last] >= vol.endMark
  }

  /** A complete chain goes through every linked stretch that starts where it does. */
  lemma {:induction false} ChainsAgree(vol: Volume, start: nat, part: seq<nat>, chain: seq<nat>, i: nat)
    requires Linked(vol, start, part) && IsChain(vol, start, chain) && i < |part|
    ensures i < |chain| && part[i] == chain[i]
  {
    if i > 0 {
      ChainsAgree(vol, start, part, chain, i - 1);
      assert Follows(vol, part[i - 1], part[i]);
      assert i < |chain| ==> Follows(vol, chain[i - 1], chain[i]);
    }
  }

  /** A complete chain goes on from every linked stretch the way the FAT says, to a cluster not yet seen. */
  lemma {:induction false} ChainGoesOn(vol: Volume, start: nat, part: seq<nat>, chain: seq<nat>)
    requires Linked(vol, start, part) && IsChain(vol, start, chain)
    ensures var last := part[|part| - 1];
            && last in vol.fat
            && (vol.fat[last] < vol.endMark ==> 2 <= vol.fat[last] < vol.limit && vol.fat[last] !in part)
  {
    var n := |part|;
    forall i | 0 <= i < n ensures i < |chain| && part[i] == chain[i] { ChainsAgree(vol, start, part, chain, i); }
    if n < |chain| {
      assert Follows(vol, chain[n - 1], chain[n]);
    }
  }

  ghost function Below(bound: nat): (r: set<nat>)
    ensures |r| == bound && forall x: nat :: x in r <==> x < bound
  {
    if bound == 0 then {} else Below(bound - 1) + {bound - 1}
  }

  ghost function Elements(s: seq<nat>): (r: set<nat>)
    ensures forall x: nat :: x in r <==> x in s
  {
    if s == [] then {} else Elements(s[..|s| - 1]) + {s[|s| - 1]}
  }

  lemma {:induction false} DistinctCount(s: seq<nat>)
    requires Distinct(s)
    ensures |Elements(s)| == |s|
  {
    if s != [] {
      DistinctCount(s[..|s| - 1]);
      assert s[|s| - 1] !in s[..|s| - 1];
    }
  }

  /** A list without repeats, drawn from the numbers below `bound` and one more, is short. */
  lemma {:induction false} DistinctFits(s: seq<nat>, bound: nat, extra: nat)
    requires Distinct(s) && forall i :: 0 <= i < |s| ==> s[i] < bound || s[i] == extra
    ensures |s| <= bound + 1
  {
    DistinctCount(s);
    SubsetSize(Elements(s), Below(bound) + {extra});
  }

  lemma {:induction false} SubsetSize(a: set<nat>, b: set<nat>)
    requires a <= b
    ensures |a| <= |b|
  {
    assert b == a + (b - a);
  }

  /** cluster_chain: succeeds exactly when there is a chain, and then returns it. */
  method ClusterChain(vol: Volume, start: nat) returns (r: Result<seq<nat>, string>)
    ensures r.Ok? ==> IsChain(vol, start, r.value)
    ensures r.Err? ==> forall chain :: !IsChain(vol, start, chain)
  {
    if start < 2 {
      return Err("invalid chain start");
    }
    var out: seq<nat> := [];
    var cluster := start;
    while true
      invariant cluster !in out ==> Linked(vol, start, out + [cluster])
      invariant cluster in out ==> Linked(vol, start, out) && forall chain :: !IsChain(vol, start, chain)
      invariant |out| <= vol.limit + 1
      decreases vol.limit + 1 - |out|
    {
      if cluster in out {
        return Err("cluster loop");
      }
      out := out + [cluster];
      forall i | 0 <= i < |out| ensures out[i] < vol.limit || out[i] == start {
        if i > 0 { assert Follows(vol, out[i - 1], out[i]); }
      }
      DistinctFits(out, vol.limit, start);
      forall chain | IsChain(vol, start, chain)
        ensures cluster in vol.fat
        ensures vol.fat[cluster] < vol.endMark ==> 2 <= vol.fat[cluster] < vol.limit && vol.fat[cluster] !in out
      {
        ChainGoesOn(vol, start, out, chain);
      }
      if cluster !in vol.fat {
        return Err("read beyond image end");
      }
      var next := vol.fat[cluster];
      if next >= vol.endMark {
        return Ok(out);
      }
      if !(2 <= next < vol.limit) {
        return Err("invalid next cluster");
      }
      cluster := next;
    }
  }

  // ----- extents of a file -----

  /** The disk block of logical block `b` of a file with this chain. */
  function BlockLba(vol: Volume, chain: seq<nat>, b: nat): int
    requires vol.sectorsPerCluster > 0 && b < |chain| * vol.sectorsPerCluster
  {
    DivBelow(b, |chain|, vol.sectorsPerCluster);
    vol.ClusterToLba(chain[b / vol.sectorsPerCluster]) + b % vol.sectorsPerCluster
  }

  /** file_extents: the coalesced extents of the file's blocks, through its chain or from its first cluster on. */
  method FileExtents(vol: Volume, record: FileRecord) returns (r: Result<seq<FileExtent>, string>)
    requires vol.Valid()
    ensures r.Ok? <==>
      !record.isDir && (record.size == 0 || record.contiguous || exists chain :: HoldsFile(vol, record, chain))
    ensures r.Ok? ==> Tiles(r.value, CeilDiv(record.size, vol.sectorSize)) && Coalesced(r.value)
    ensures r.Ok? && record.size == 0 ==> r.value == []
    ensures r.Ok? && record.size > 0 && record.contiguous ==>
      forall b :: 0 <= b < CeilDiv(record.size, vol.sectorSize) ==>
        Locate(r.value, 1, b) == Some(vol.ClusterToLba(record.firstCluster) + b)
    ensures r.Ok? && record.size > 0 && !record.contiguous ==>
      exists chain :: HoldsFile(vol, record, chain)
        && LaidOut(vol, chain, CeilDiv(record.size, vol.sectorSize), r.value)
  {
    if record.isDir {
      return Err("is a directory");
    }
    if record.size == 0 {
      assert CeilDiv(0, vol.sectorSize) == 0;
      return Ok([]);
    }
    var n := CeilDiv(record.size, vol.sectorSize);
    CeilDivPositive(record.size, vol.sectorSize);
    if record.contiguous {
      var e := FileExtent(0, vol.ClusterToLba(record.firstCluster), n);
      forall b | 0 <= b < n ensures Locate([e], 1, b) == Some(vol.ClusterToLba(record.firstCluster) + b) {
        assert e.Covers(1, b);
      }
      return Ok([e]);
    }
    var walked := ClusterChain(vol, record.firstCluster);
    if walked.Err? {
      return Err(walked.error);
    }
    var laid, es := ChainExtents(vol, walked.value, n);
    if !laid {
      forall c | IsChain(vol, record.firstCluster, c) ensures !HoldsFile(vol, record, c) {
        SameChain(vol, record.firstCluster, walked.value, c);
      }
      return Err("file chain is too short");
    }
    assert HoldsFile(vol, record, walked.value);
    return Ok(es);
  }

  /** The record's chain is this one, and long enough. */
  ghost predicate HoldsFile(vol: Volume, record: FileRecord, chain: seq<nat>)
    requires vol.Valid()
  {
    IsChain(vol, record.firstCluster, chain) && CeilDiv(record.size, vol.sectorSize) <= |chain| * vol.sectorsPerCluster
  }

  /** The lookup of the first `blocks` blocks of a chain, and of nothing else. */
  ghost predicate LaidOut(vol: Volume, chain: seq<nat>, blocks: nat, es: seq<FileExtent>)
    requires vol.sectorsPerCluster > 0 && blocks <= |chain| * vol.sectorsPerCluster
  {
    forall x {:trigger Locate(es, 1, x)} :: Locate(es, 1, x)
      == if 0 <= x < blocks then Some(BlockLba(vol, chain, x)) else None
  }

  lemma {:induction false} LayNext(
      vol: Volume, chain: seq<nat>, i: nat, blocks: nat, count: nat, es: seq<FileExtent>, es': seq<FileExtent>)
    requires vol.sectorsPerCluster > 0 && i < |chain| && blocks == i * vol.sectorsPerCluster
      && count <= vol.sectorsPerCluster
    requires blocks + count <= |chain| * vol.sectorsPerCluster
    requires LaidOut(vol, chain, blocks, es)
    requires AppendsTo(es, FileExtent(blocks, vol.ClusterToLba(chain[i]), count), es')
    ensures LaidOut(vol, chain, blocks + count, es')
  {
    var e := FileExtent(blocks, vol.ClusterToLba(chain[i]), count);
    forall x ensures Locate(es', 1, x) == if 0 <= x < blocks + count then Some(BlockLba(vol, chain, x)) else None {
      assert Locate(es', 1, x) == Extended(es, e, x);
      assert Locate(es, 1, x) == if 0 <= x < blocks then Some(BlockLba(vol, chain, x)) else None;
      if blocks <= x < blocks + count {
        DivUnique(x, vol.sectorsPerCluster, i, x - blocks);
      }
    }
  }

  /** The loop of file_extents: lay out blocks cluster by cluster until all `n` are placed. */
  method ChainExtents(vol: Volume, chain: seq<nat>, n: nat) returns (laid: bool, es: seq<FileExtent>)
    requires vol.Valid()
    ensures laid <==> n <= |chain| * vol.sectorsPerCluster
    ensures laid ==> Tiles(es, n) && Coalesced(es) && LaidOut(vol, chain, n, es)
  {
    var spc := vol.sectorsPerCluster;
    var list := new ExtentList();
    var virtualBlock: nat := 0;
    var i := 0;
    while i < |chain| && virtualBlock < n
      invariant i <= |chain| && virtualBlock == Min(i * spc, n) && virtualBlock <= |chain| * spc
      invariant i == 0 || (i - 1) * spc < n
      invariant Tiles(list.extents, virtualBlock) && Coalesced(list.extents)
      invariant LaidOut(vol, chain, virtualBlock, list.extents)
      decreases |chain| - i
    {
      MulMonotone(i + 1, |chain|, spc);
      assert (i + 1) * spc == i * spc + spc;
      var blockCount: nat := Min(spc, n - virtualBlock);
      ghost var before := list.extents;
      list.Append(virtualBlock, vol.ClusterToLba(chain[i]), blockCount);
      LayNext(vol, chain, i, virtualBlock, blockCount, before, list.extents);
      virtualBlock := virtualBlock + blockCount;
      i := i + 1;
    }
    laid := virtualBlock == n;
    es := list.extents;
  }

  lemma {:induction false} CeilDivPositive(v: nat, d: nat)
    requires d > 0 && v > 0
    ensures CeilDiv(v, d) > 0 && (CeilDiv(v, d) - 1) * d < v <= CeilDiv(v, d) * d
  {
  }

  /** A cluster has at most one complete chain. */
  lemma {:induction false} SameChain(vol: Volume, start: nat, a: seq<nat>, b: seq<nat>)
    requires IsChain(vol, start, a) && IsChain(vol, start, b)
    ensures a == b
  {
    forall i | 0 <= i < |a| ensures i < |b| && a[i] == b[i] { ChainsAgree(vol, start, a, b, i); }
    forall i | 0 <= i < |b| ensures i < |a| && a[i] == b[i] { ChainsAgree(vol, start, b, a, i); }
  }
}
