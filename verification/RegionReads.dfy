/** Reading a byte range of a file through its extents. */
module RegionReads {
  import opened Common
  import opened Extents
  import opened ClusterFiles

  /** Byte `x` of the file lies at a place on the image. */
  ghost predicate Readable(image: seq<byte>, es: seq<FileExtent>, sectorSize: nat, x: int) {
    var at := Locate(es, sectorSize, x);
    at.Some? && 0 <= at.value < |image|
  }

  /** `data` is what the image holds for the bytes `from..` of the file. */
  ghost predicate Holds(image: seq<byte>, es: seq<FileExtent>, sectorSize: nat, from: int, data: seq<byte>) {
    forall i :: 0 <= i < |data| ==> ByteIs(image, es, sectorSize, from + i, data[i])
  }

  /** The image holds `b` for byte `x` of the file. */
  ghost predicate ByteIs(image: seq<byte>, es: seq<FileExtent>, sectorSize: nat, x: int, b: byte) {
    Readable(image, es, sectorSize, x) && b == image[Locate(es, sectorSize, x).value]
  }

  /** A byte of `from..to` that no extent covers. */
  ghost predicate Hole(es: seq<FileExtent>, sectorSize: nat, from: int, to: int) {
    exists x :: from <= x < to && Locate(es, sectorSize, x) == None
  }

  lemma {:induction false} HolesAddUp(es: seq<FileExtent>, unit: nat, a: int, b: int, a': int, b': int)
    requires Hole(es, unit, a, b) && a' <= a && b <= b'
    ensures Hole(es, unit, a', b')
  {
    var x :| a <= x < b && Locate(es, unit, x) == None;
  }

  /** The stretch of extent `k` that lies in the range, read off the image. */
  lemma {:induction false} ChunkHolds(
      image: seq<byte>, es: seq<FileExtent>, unit: nat, k: nat, from: int, to: int, data: seq<byte>, offset: int)
    requires Ascending(es) && k < |es| && offset <= from == offset + |data|
    requires es[k].virtualBlockStart * unit <= from <= to <= (es[k].virtualBlockStart + es[k].blockCount) * unit
    requires 0 <= es[k].At(unit, from) && es[k].At(unit, from) + (to - from) <= |image|
    requires Holds(image, es, unit, offset, data)
    ensures var at := es[k].At(unit, from);
            Holds(image, es, unit, offset, data + image[at..at + (to - from)])
  {
    var at := es[k].At(unit, from);
    var more := data + image[at..at + (to - from)];
    hide Locate, Ascending;
    forall i | 0 <= i < |more| ensures ByteIs(image, es, unit, offset + i, more[i]) {
      if i < |data| {
        assert more[i] == data[i];
      } else {
        assert es[k].Covers(unit, offset + i);
        AscendingAt(es, unit, offset + i, k);
        assert es[k].At(unit, offset + i) == at + (i - |data|);
        assert more[i] == image[at + (i - |data|)];
      }
    }
  }

  /** Nothing at `pos` when the extents before `k` end by there and the `k`-th starts later. */
  lemma {:induction false} GapAt(es: seq<FileExtent>, unit: nat, k: nat, pos: int)
    requires Ascending(es) && k <= |es|
    requires forall j :: 0 <= j < k ==> !es[j].Covers(unit, pos)
    requires k < |es| ==> pos < es[k].virtualBlockStart * unit
    ensures Locate(es, unit, pos) == None
  {
    forall j | k <= j < |es| ensures !es[j].Covers(unit, pos) {
      if j > k {
        MulMonotone(es[k].virtualBlockStart, es[j].virtualBlockStart, unit);
      }
    }
    LocateNone(es, unit, pos);
  }

  /** Where the loop stands before extent `k`: everything below `pos` has been dealt with. */
  ghost predicate Gathered(
    image: seq<byte>, es: seq<FileExtent>, unit: nat, offset: int, end: int, k: nat, pos: int, data: seq<byte>)
    requires k <= |es|
  {
    && offset <= pos <= end && |data| <= pos - offset
    && (forall j, x :: 0 <= j < k && pos <= x < end ==> !es[j].Covers(unit, x))
    && (k < |es| ==> pos == offset || pos <= es[k].virtualBlockStart * unit)
    && (if |data| == pos - offset then Holds(image, es, unit, offset, data) else Hole(es, unit, offset, pos))
  }

  lemma {:induction false} NextStart(es: seq<FileExtent>, unit: nat, k: nat)
    requires Ascending(es) && k < |es| && unit > 0 && es[k].blockCount > 0
    ensures es[k].virtualBlockStart * unit < (es[k].virtualBlockStart + es[k].blockCount) * unit
    ensures k + 1 < |es| ==> (es[k].virtualBlockStart + es[k].blockCount) * unit <= es[k + 1].virtualBlockStart * unit
  {
    MulMonotone(es[k].virtualBlockStart + 1, es[k].virtualBlockStart + es[k].blockCount, unit);
    assert (es[k].virtualBlockStart + 1) * unit == es[k].virtualBlockStart * unit + unit;
    if k + 1 < |es| {
      MulMonotone(es[k].virtualBlockStart + es[k].blockCount, es[k + 1].virtualBlockStart, unit);
    }
  }

  // ----- the read, for any extents at all -----

  /** The range `offset..end` meets the extent, or passes over an empty one. */
  predicate Meets(e: FileExtent, unit: nat, offset: int, end: int) {
    e.virtualBlockStart * unit < end && offset < (e.virtualBlockStart + e.blockCount) * unit
  }

  function ClipFrom(e: FileExtent, unit: nat, offset: int): int { Max(offset, e.virtualBlockStart * unit) }

  function ClipTo(e: FileExtent, unit: nat, end: int): int {
    Min(end, (e.virtualBlockStart + e.blockCount) * unit)
  }

  /** The part of the extent that the range asks for lies on the image. */
  predicate ClipOk(image: seq<byte>, e: FileExtent, unit: nat, offset: int, end: int) {
    Meets(e, unit, offset, end) ==>
      var at := e.At(unit, ClipFrom(e, unit, offset));
      0 <= at <= at + (ClipTo(e, unit, end) - ClipFrom(e, unit, offset)) <= |image|
  }

  predicate ClipsOk(image: seq<byte>, es: seq<FileExtent>, unit: nat, offset: int, end: int, k: nat)
    requires k <= |es|
  {
    forall j :: 0 <= j < k ==> ClipOk(image, es[j], unit, offset, end)
  }

  /** The parts of the range that the first `k` extents hold, in the order of the extents. */
  function Gather(image: seq<byte>, es: seq<FileExtent>, unit: nat, offset: int, end: int, k: nat): seq<byte>
    requires k <= |es| && ClipsOk(image, es, unit, offset, end, k)
  {
    if k == 0 then []
    else
      var before := Gather(image, es, unit, offset, end, k - 1);
      var e := es[k - 1];
      if !Meets(e, unit, offset, end) then before
      else
        var at := e.At(unit, ClipFrom(e, unit, offset));
        before + image[at..at + (ClipTo(e, unit, end) - ClipFrom(e, unit, offset))]
  }

  /** The read goes through: every part asked for is on the image, and together they have the length. */
  predicate ReadGoes(image: seq<byte>, es: seq<FileExtent>, unit: nat, offset: nat, length: nat) {
    length == 0
    || (ClipsOk(image, es, unit, offset, offset + length, |es|)
        && |Gather(image, es, unit, offset, offset + length, |es|)| == length)
  }

  /**
   read_record_region: gather the parts of the range that the extents hold, in
   the order in which the extents come.
   */
  method ReadRecordRegion(image: seq<byte>, sectorSize: nat, es: seq<FileExtent>, offset: nat, length: nat)
    returns (r: Result<seq<byte>, string>)
    requires sectorSize > 0
    ensures r.Ok? <==> ReadGoes(image, es, sectorSize, offset, length)
    ensures r.Ok? ==> |r.value| == length
    ensures r.Ok? && length > 0 ==> r.value == Gather(image, es, sectorSize, offset, offset + length, |es|)
  {
    if length == 0 {
      return Ok([]);
    }
    var end := offset + length;
    var data: seq<byte> := [];
    for k := 0 to |es|
      invariant ClipsOk(image, es, sectorSize, offset, end, k)
      invariant data == Gather(image, es, sectorSize, offset, end, k)
    {
      var extentStart := es[k].virtualBlockStart * sectorSize;
      var extentEnd := extentStart + es[k].blockCount * sectorSize;
      MulAdd(es[k].virtualBlockStart, es[k].blockCount, sectorSize);
      if end <= extentStart || offset >= extentEnd {
        continue;
      }
      var readStart := Max(offset, extentStart);
      var readEnd := Min(end, extentEnd);
      var diskOffset := es[k].physicalLba * sectorSize + (readStart - extentStart);
      if !(0 <= diskOffset && diskOffset + (readEnd - readStart) <= |image|) {
        assert !ClipOk(image, es[k], sectorSize, offset, end);
        return Err("read beyond image end");
      }
      data := data + image[diskOffset..diskOffset + (readEnd - readStart)];
    }
    if |data| != length {
      return Err("file extent read did not cover requested range");
    }
    r := Ok(data);
  }

  // ----- the read, for extents in order -----

  lemma {:induction false} GatherChunk(
      image: seq<byte>, es: seq<FileExtent>, unit: nat, offset: int, end: int, k: nat, pos: int, data: seq<byte>,
      from: int, to: int)
    requires Ascending(es) && k < |es| && unit > 0 && es[k].blockCount > 0
    requires Gathered(image, es, unit, offset, end, k, pos, data)
    requires from == Max(offset, es[k].virtualBlockStart * unit)
    requires to == Min(end, (es[k].virtualBlockStart + es[k].blockCount) * unit)
    requires from < to && 0 <= es[k].At(unit, from) && es[k].At(unit, from) + (to - from) <= |image|
    ensures var at := es[k].At(unit, from);
            Gathered(image, es, unit, offset, end, k + 1, to, data + image[at..at + (to - from)])
  {
    NextStart(es, unit, k);
    if |data| == pos - offset && from == pos {
      ChunkHolds(image, es, unit, k, from, to, data, offset);
    } else if from > pos {
      GapAt(es, unit, k, pos);
      assert Hole(es, unit, offset, to);
    } else {
      HolesAddUp(es, unit, offset, pos, offset, to);
    }
  }

  lemma {:induction false} SkipExtent(
      image: seq<byte>, es: seq<FileExtent>, unit: nat, offset: int, end: int, k: nat, pos: int, data: seq<byte>)
    requires Ascending(es) && k < |es| && unit > 0 && es[k].blockCount > 0
    requires Gathered(image, es, unit, offset, end, k, pos, data)
    requires end <= es[k].virtualBlockStart * unit || offset >= (es[k].virtualBlockStart + es[k].blockCount) * unit
    ensures Gathered(image, es, unit, offset, end, k + 1, pos, data)
  {
    NextStart(es, unit, k);
  }

  /** Over extents in order the gathered parts join up, or a hole shows. */
  lemma {:induction false} GatherInOrder(
      image: seq<byte>, es: seq<FileExtent>, unit: nat, offset: int, end: int, k: nat) returns (pos: int)
    requires Ascending(es) && unit > 0 && (forall j :: 0 <= j < |es| ==> es[j].blockCount > 0)
    requires k <= |es| && offset < end && ClipsOk(image, es, unit, offset, end, k)
    ensures Gathered(image, es, unit, offset, end, k, pos, Gather(image, es, unit, offset, end, k))
  {
    if k == 0 {
      pos := offset;
    } else {
      pos := GatherInOrder(image, es, unit, offset, end, k - 1);
      var data := Gather(image, es, unit, offset, end, k - 1);
      var e := es[k - 1];
      hide Gathered, Ascending;
      if Meets(e, unit, offset, end) {
        NextStart(es, unit, k - 1);
        var from, to := ClipFrom(e, unit, offset), ClipTo(e, unit, end);
        GatherStep(image, es, unit, offset, end, k);
        hide Gather;
        GatherChunk(image, es, unit, offset, end, k - 1, pos, data, from, to);
        pos := to;
      } else {
        SkipExtent(image, es, unit, offset, end, k - 1, pos, data);
      }
    }
  }

  lemma {:induction false} ShortRead(
      image: seq<byte>, es: seq<FileExtent>, unit: nat, offset: int, end: int, pos: int, data: seq<byte>)
    requires Gathered(image, es, unit, offset, end, |es|, pos, data) && |data| < end - offset
    ensures exists x :: offset <= x < end && !Readable(image, es, unit, x)
  {
    if |data| < pos - offset {
      var x :| offset <= x < pos && Locate(es, unit, x) == None;
      assert !Readable(image, es, unit, x);
    } else {
      LocateNone(es, unit, pos);
      assert !Readable(image, es, unit, pos);
    }
  }

  lemma {:induction false} ClipUnreadable(
      image: seq<byte>, es: seq<FileExtent>, unit: nat, k: nat, offset: int, end: int)
    requires Ascending(es) && k < |es| && unit > 0 && es[k].blockCount > 0 && offset < end
    requires !ClipOk(image, es[k], unit, offset, end)
    ensures exists x :: offset <= x < end && !Readable(image, es, unit, x)
  {
    var from, to := ClipFrom(es[k], unit, offset), ClipTo(es[k], unit, end);
    NextStart(es, unit, k);
    AscendingAt(es, unit, from, k);
    AscendingAt(es, unit, to - 1, k);
    assert !Readable(image, es, unit, from) || !Readable(image, es, unit, to - 1);
  }

  /**
   Where the extents are in order and none is empty, a read goes through
   exactly when every byte of the range can be read, and gives those bytes.
   */
  lemma {:induction false} ReadInOrder(image: seq<byte>, es: seq<FileExtent>, unit: nat, offset: nat, length: nat)
    requires unit > 0 && Ascending(es) && forall k :: 0 <= k < |es| ==> es[k].blockCount > 0
    ensures ReadGoes(image, es, unit, offset, length) <==>
      forall x :: offset <= x < offset + length ==> Readable(image, es, unit, x)
    ensures ReadGoes(image, es, unit, offset, length) && length > 0 ==>
      Holds(image, es, unit, offset, Gather(image, es, unit, offset, offset + length, |es|))
  {
    if length > 0 {
      var end := offset + length;
      if ClipsOk(image, es, unit, offset, end, |es|) {
        var pos := GatherInOrder(image, es, unit, offset, end, |es|);
        var data := Gather(image, es, unit, offset, end, |es|);
        if |data| == length {
          forall x | offset <= x < end ensures Readable(image, es, unit, x) {
            assert ByteIs(image, es, unit, offset + (x - offset), data[x - offset]);
          }
        } else {
          ShortRead(image, es, unit, offset, end, pos, data);
        }
      } else {
        var k :| 0 <= k < |es| && !ClipOk(image, es[k], unit, offset, end);
        ClipUnreadable(image, es, unit, k, offset, end);
      }
    }
  }

  lemma {:induction false} GatherStep(
      image: seq<byte>, es: seq<FileExtent>, unit: nat, offset: int, end: int, k: nat)
    requires 0 < k <= |es| && ClipsOk(image, es, unit, offset, end, k) && Meets(es[k - 1], unit, offset, end)
    ensures var e := es[k - 1];
      var at, n := e.At(unit, ClipFrom(e, unit, offset)), ClipTo(e, unit, end) - ClipFrom(e, unit, offset);
      && 0 <= at <= at + n <= |image|
      && Gather(image, es, unit, offset, end, k)
         == (if k == 1 then [] else Gather(image, es, unit, offset, end, k - 1)) + image[at..at + n]
  {
    assert ClipOk(image, es[k - 1], unit, offset, end);
  }

  /** Two blocks of one byte in the wrong order: the second one of the file comes first. */
  ghost predicate Swapped(es: seq<FileExtent>) {
    |es| == 2 && es[0] == FileExtent(1, 1, 1) && es[1] == FileExtent(0, 0, 1)
  }

  lemma {:induction false} OneByte(e: FileExtent, unit: nat, v: nat)
    requires e == FileExtent(v, v, 1) && unit == 1 && v < 2
    ensures Meets(e, unit, 0, 2) && ClipFrom(e, unit, 0) == v && ClipTo(e, unit, 2) == v + 1 && e.At(unit, v) == v
    ensures e.Covers(unit, v) && !e.Covers(unit, 1 - v)
  {
  }

  /** Out of order, a read can go through and give other bytes than the extents map. */
  lemma {:induction false} OutOfOrderExample(image: seq<byte>, es: seq<FileExtent>, unit: nat)
    requires Swapped(es) && unit == 1 && |image| == 2
    ensures ReadGoes(image, es, unit, 0, 2)
    ensures Gather(image, es, unit, 0, 2, |es|) == image[1..2] + image[0..1]
    ensures Locate(es, unit, 0) == Some(0) && Locate(es, unit, 1) == Some(1)
  {
    hide Gather, Meets, ClipFrom, ClipTo, Locate, FileExtent.At, FileExtent.Covers;
    OneByte(es[0], unit, 1);
    OneByte(es[1], unit, 0);
    SwappedGathers(image, es, unit);
    hide Swapped;
    LocateAt(es, unit, 0, 1);
    LocateAt(es, unit, 1, 0);
  }

  lemma {:induction false} SwappedGathers(image: seq<byte>, es: seq<FileExtent>, unit: nat)
    requires |es| == 2 && |image| == 2 && Meets(es[0], unit, 0, 2) && Meets(es[1], unit, 0, 2)
    requires ClipFrom(es[0], unit, 0) == 1 && ClipTo(es[0], unit, 2) == 2 && es[0].At(unit, 1) == 1
    requires ClipFrom(es[1], unit, 0) == 0 && ClipTo(es[1], unit, 2) == 1 && es[1].At(unit, 0) == 0
    ensures ClipsOk(image, es, unit, 0, 2, 2)
    ensures Gather(image, es, unit, 0, 2, 2) == image[1..2] + image[0..1]
  {
    hide Gather, Meets, ClipFrom, ClipTo, FileExtent.At;
    GatherStep(image, es, unit, 0, 2, 1);
    GatherStep(image, es, unit, 0, 2, 2);
    assert [] + image[1..2] == image[1..2];
  }

  // ----- reading a file is slicing its clusters -----

  lemma {:induction false} Affine(p: int, b: int, v: int, u: int)
    ensures (p + (b - v)) * u == p * u + b * u - v * u
  {
  }

  lemma {:induction false} ByteInExtent(e: FileExtent, unit: nat, x: nat)
    requires unit > 0
    ensures e.Covers(unit, x) <==> e.Covers(1, x / unit)
    ensures e.At(unit, x) == e.At(1, x / unit) * unit + x % unit
  {
    BlockOf(e.virtualBlockStart, e.blockCount, unit, x);
    Affine(e.physicalLba, x / unit, e.virtualBlockStart, unit);
    assert e.At(1, x / unit) == e.physicalLba + (x / unit - e.virtualBlockStart);
  }

  /** Looking up bytes is looking up blocks. */
  lemma {:induction false} LocateByte(es: seq<FileExtent>, unit: nat, x: nat)
    requires unit > 0
    ensures Locate(es, unit, x)
      == (match Locate(es, 1, x / unit) case Some(b) => Some(b * unit + x % unit) case None => None)
  {
    if es != [] {
      LocateByte(es[1..], unit, x);
      ByteInExtent(es[0], unit, x);
    }
  }

  function ClusterBytes(image: seq<byte>, vol: Volume, cluster: nat): (r: seq<byte>)
    requires InImage(image, vol, cluster)
    ensures |r| == vol.sectorsPerCluster * vol.sectorSize
  {
    var at := vol.ClusterToLba(cluster) * vol.sectorSize;
    image[at..at + vol.sectorsPerCluster * vol.sectorSize]
  }

  predicate InImage(image: seq<byte>, vol: Volume, cluster: nat) {
    0 <= vol.ClusterToLba(cluster) * vol.sectorSize
      <= vol.ClusterToLba(cluster) * vol.sectorSize + vol.sectorsPerCluster * vol.sectorSize <= |image|
  }

  /** The bytes of the clusters of a chain, one after another. */
  function Content(image: seq<byte>, vol: Volume, chain: seq<nat>): (r: seq<byte>)
    requires forall i :: 0 <= i < |chain| ==> InImage(image, vol, chain[i])
    ensures |r| == |chain| * (vol.sectorsPerCluster * vol.sectorSize)
  {
    if chain == [] then []
    else Content(image, vol, chain[..|chain| - 1]) + ClusterBytes(image, vol, chain[|chain| - 1])
  }

  lemma {:induction false} ContentAt(image: seq<byte>, vol: Volume, chain: seq<nat>, i: nat, m: nat)
    requires forall i :: 0 <= i < |chain| ==> InImage(image, vol, chain[i])
    requires i < |chain| && m < vol.sectorsPerCluster * vol.sectorSize
    ensures var size := vol.sectorsPerCluster * vol.sectorSize;
            var at := vol.ClusterToLba(chain[i]) * vol.sectorSize + m;
            i * size + m < |Content(image, vol, chain)| && 0 <= at < |image|
            && Content(image, vol, chain)[i * size + m] == image[at]
  {
    var size := vol.sectorsPerCluster * vol.sectorSize;
    var n := |chain| - 1;
    if i < n {
      ContentAt(image, vol, chain[..n], i, m);
    } else {
      assert Content(image, vol, chain) == Content(image, vol, chain[..n]) + ClusterBytes(image, vol, chain[n]);
    }
  }

  // ----- from the directory record to the bytes -----

  /** The record's blocks have places: in one run, or along this chain. */
  ghost predicate Carries(vol: Volume, record: FileRecord, chain: seq<nat>)
    requires vol.Valid()
  {
    record.contiguous || HoldsFile(vol, record, chain)
  }

  /** How many bytes the record's blocks have room for. */
  function Room(vol: Volume, record: FileRecord): nat
    requires vol.sectorSize > 0
  {
    CeilDiv(record.size, vol.sectorSize) * vol.sectorSize
  }

  /** Where byte `x` of the file lies. */
  ghost function FilePlace(vol: Volume, record: FileRecord, chain: seq<nat>, x: nat): int
    requires vol.Valid() && Carries(vol, record, chain) && x < Room(vol, record)
  {
    if record.contiguous then vol.ClusterToLba(record.firstCluster) * vol.sectorSize + x
    else
      DivBelow(x, CeilDiv(record.size, vol.sectorSize), vol.sectorSize);
      BlockLba(vol, chain, x / vol.sectorSize) * vol.sectorSize + x % vol.sectorSize
  }

  /** Byte `x` of the file has a place, and that is on the image. */
  ghost predicate OnImage(image: seq<byte>, vol: Volume, record: FileRecord, chain: seq<nat>, x: nat)
    requires vol.Valid() && Carries(vol, record, chain)
  {
    x < Room(vol, record) && 0 <= FilePlace(vol, record, chain, x) < |image|
  }

  /** `data` is what the image holds at the places of the bytes from `offset` on. */
  ghost predicate FileHolds(
    image: seq<byte>, vol: Volume, record: FileRecord, chain: seq<nat>, offset: nat, data: seq<byte>)
    requires vol.Valid() && Carries(vol, record, chain)
  {
    forall i: nat :: i < |data| ==> FileByteIs(image, vol, record, chain, offset + i, data[i])
  }

  ghost predicate FileByteIs(image: seq<byte>, vol: Volume, record: FileRecord, chain: seq<nat>, x: nat, b: byte)
    requires vol.Valid() && Carries(vol, record, chain)
  {
    OnImage(image, vol, record, chain, x) && b == image[FilePlace(vol, record, chain, x)]
  }

  /** Every byte of the region has a place on the image. */
  ghost predicate RegionThere(
    image: seq<byte>, vol: Volume, record: FileRecord, chain: seq<nat>, offset: nat, length: nat)
    requires vol.Valid() && Carries(vol, record, chain)
  {
    forall x: nat :: offset <= x < offset + length ==> OnImage(image, vol, record, chain, x)
  }

  lemma {:induction false} Shifted(lba: int, x: nat, u: nat)
    requires u > 0
    ensures (lba + x / u) * u + x % u == lba * u + x
  {
    MulAdd(lba, x / u, u);
  }

  /** What the extents of a file say of its blocks. */
  ghost predicate ExtentsFit(vol: Volume, record: FileRecord, chain: seq<nat>, es: seq<FileExtent>)
    requires vol.Valid() && Carries(vol, record, chain)
  {
    var n := CeilDiv(record.size, vol.sectorSize);
    && Tiles(es, n)
    && (record.contiguous ==>
          forall b :: 0 <= b < n ==> Locate(es, 1, b) == Some(vol.ClusterToLba(record.firstCluster) + b))
    && (!record.contiguous ==> LaidOut(vol, chain, n, es))
  }

  /** The extents of a file put each byte at its place, and no byte past its last block anywhere. */
  lemma {:induction false} FileLocate(vol: Volume, record: FileRecord, chain: seq<nat>, es: seq<FileExtent>, x: nat)
    requires vol.Valid() && Carries(vol, record, chain) && ExtentsFit(vol, record, chain, es)
    ensures Locate(es, vol.sectorSize, x) ==
      if x < Room(vol, record) then Some(FilePlace(vol, record, chain, x)) else None
  {
    hide Locate, CeilDiv;
    var u, n := vol.sectorSize, CeilDiv(record.size, vol.sectorSize);
    LocateByte(es, u, x);
    BlockOf(0, n, u, x);
    if x < Room(vol, record) {
      assert Locate(es, 1, x / u).Some?;
      if record.contiguous { Shifted(vol.ClusterToLba(record.firstCluster), x, u); }
    } else {
      TilesAscend(es, n);
      LocateNone(es, 1, x / u);
    }
  }

  /**
   Looking a file up and reading a region of it, end to end: the bytes at the
   places of its run or its chain. It is refused exactly for a directory, when
   no chain holds the file, or when a byte of the region has no place on the
   image.
   */
  method ReadFile(image: seq<byte>, vol: Volume, record: FileRecord, offset: nat, length: nat)
    returns (r: Result<seq<byte>, string>)
    requires vol.Valid()
    ensures record.size == 0 ==> (r.Ok? <==> !record.isDir && length == 0)
    ensures record.size > 0 ==>
      (r.Ok? <==> !record.isDir && exists chain ::
         Carries(vol, record, chain) && RegionThere(image, vol, record, chain, offset, length))
    ensures r.Ok? ==> |r.value| == length
    ensures r.Ok? && record.size > 0 ==>
      exists chain :: Carries(vol, record, chain) && FileHolds(image, vol, record, chain, offset, r.value)
  {
    var found := FileExtents(vol, record);
    if found.Err? {
      return Err(found.error);
    }
    TilesAscend(found.value, CeilDiv(record.size, vol.sectorSize));
    r := ReadRecordRegion(image, vol.sectorSize, found.value, offset, length);
    ReadInOrder(image, found.value, vol.sectorSize, offset, length);
    if record.size > 0 {
      ghost var chain := ChainFor(vol, record, found.value);
      RegionOfFile(image, vol, record, chain, found.value, offset, length);
      SameRegion(image, vol, record, chain, offset, length);
      if r.Ok? && length > 0 { assert FileHolds(image, vol, record, chain, offset, r.value); }
      if r.Ok? && length == 0 { assert FileHolds(image, vol, record, chain, offset, []); }
    }
  }

  /** The chain behind the extents that file_extents returns. */
  lemma {:induction false} ChainFor(vol: Volume, record: FileRecord, es: seq<FileExtent>) returns (chain: seq<nat>)
    requires vol.Valid() && Tiles(es, CeilDiv(record.size, vol.sectorSize))
    requires record.contiguous ==> forall b :: 0 <= b < CeilDiv(record.size, vol.sectorSize) ==>
      Locate(es, 1, b) == Some(vol.ClusterToLba(record.firstCluster) + b)
    requires !record.contiguous ==>
      exists c :: HoldsFile(vol, record, c) && LaidOut(vol, c, CeilDiv(record.size, vol.sectorSize), es)
    ensures Carries(vol, record, chain) && ExtentsFit(vol, record, chain, es)
  {
    hide Tiles, Locate, CeilDiv, LaidOut;
    if record.contiguous {
      chain := [];
    } else {
      chain :| HoldsFile(vol, record, chain) && LaidOut(vol, chain, CeilDiv(record.size, vol.sectorSize), es);
    }
  }

  /** Reading through the extents of a file is reading the places of its bytes. */
  lemma {:induction false} RegionOfFile(
      image: seq<byte>, vol: Volume, record: FileRecord, chain: seq<nat>, es: seq<FileExtent>, offset: nat, length: nat)
    requires vol.Valid() && Carries(vol, record, chain) && ExtentsFit(vol, record, chain, es)
    ensures (forall x :: offset <= x < offset + length ==> Readable(image, es, vol.sectorSize, x))
       <==> RegionThere(image, vol, record, chain, offset, length)
    ensures forall data :: Holds(image, es, vol.sectorSize, offset, data) ==>
      FileHolds(image, vol, record, chain, offset, data)
  {
    forall x: nat ensures Readable(image, es, vol.sectorSize, x) <==> OnImage(image, vol, record, chain, x) {
      ByteOfFile(image, vol, record, chain, es, x);
    }
    hide Readable, OnImage, ExtentsFit, Carries;
    forall data | Holds(image, es, vol.sectorSize, offset, data)
      ensures FileHolds(image, vol, record, chain, offset, data)
    {
      forall i: nat | i < |data| ensures FileByteIs(image, vol, record, chain, offset + i, data[i]) {
        assert ByteIs(image, es, vol.sectorSize, offset + i, data[i]);
        ByteOfFile(image, vol, record, chain, es, offset + i);
      }
    }
  }

  lemma {:induction false} ByteOfFile(
      image: seq<byte>, vol: Volume, record: FileRecord, chain: seq<nat>, es: seq<FileExtent>, x: nat)
    requires vol.Valid() && Carries(vol, record, chain) && ExtentsFit(vol, record, chain, es)
    ensures Readable(image, es, vol.sectorSize, x) <==> OnImage(image, vol, record, chain, x)
    ensures forall b :: ByteIs(image, es, vol.sectorSize, x, b) ==> FileByteIs(image, vol, record, chain, x, b)
  {
    hide Locate, ExtentsFit, FilePlace, Room, Carries;
    FileLocate(vol, record, chain, es, x);
  }

  /** The places of a file do not depend on which of its chains is meant: it has only one. */
  lemma {:induction false} SameRegion(
      image: seq<byte>, vol: Volume, record: FileRecord, chain: seq<nat>, offset: nat, length: nat)
    requires vol.Valid() && Carries(vol, record, chain)
    ensures forall c :: Carries(vol, record, c) ==>
      (RegionThere(image, vol, record, c, offset, length) <==> RegionThere(image, vol, record, chain, offset, length))
  {
    hide CeilDiv;
    forall c | Carries(vol, record, c)
      ensures RegionThere(image, vol, record, c, offset, length) <==>
        RegionThere(image, vol, record, chain, offset, length)
    {
      if record.contiguous {
        SameRun(image, vol, record, c, chain);
        hide OnImage;
      } else {
        SameChain(vol, record.firstCluster, c, chain);
      }
    }
  }

  lemma {:induction false} SameRun(image: seq<byte>, vol: Volume, record: FileRecord, a: seq<nat>, b: seq<nat>)
    requires vol.Valid() && record.contiguous
    ensures forall x: nat :: OnImage(image, vol, record, a, x) <==> OnImage(image, vol, record, b, x)
  {
  }

  // ----- a region of a file is a slice of its clusters -----

  /** The clusters that hold byte `x` of the file and all before it are on the image. */
  ghost predicate ClustersThere(image: seq<byte>, vol: Volume, chain: seq<nat>, m: nat) {
    m <= |chain| && forall i :: 0 <= i < m ==> InImage(image, vol, chain[i])
  }

  /** Which cluster of its chain byte `x` of a file lies in, and how far in. */
  function ClusterIndex(vol: Volume, x: nat): nat
    requires vol.Valid()
  {
    x / vol.sectorSize / vol.sectorsPerCluster
  }

  function InCluster(vol: Volume, x: nat): nat
    requires vol.Valid()
  {
    (x / vol.sectorSize % vol.sectorsPerCluster) * vol.sectorSize + x % vol.sectorSize
  }

  /** A place in a chain, by its cluster. */
  lemma {:induction false} ChainPlace(vol: Volume, record: FileRecord, chain: seq<nat>, x: nat)
    requires vol.Valid() && !record.contiguous && Carries(vol, record, chain) && x < Room(vol, record)
    ensures ClusterIndex(vol, x) < |chain|
    ensures FilePlace(vol, record, chain, x)
         == vol.ClusterToLba(chain[ClusterIndex(vol, x)]) * vol.sectorSize + InCluster(vol, x)
  {
    var ss, spc := vol.sectorSize, vol.sectorsPerCluster;
    DivBelow(x, CeilDiv(record.size, ss), ss);
    hide CeilDiv;
    DivBelow(x / ss, |chain|, spc);
    MulAdd(vol.ClusterToLba(chain[x / ss / spc]), x / ss % spc, ss);
  }

  lemma {:induction false} ClusterOf(x: nat, spc: nat, ss: nat, m: nat)
    requires spc > 0 && ss > 0 && x < m * (spc * ss)
    ensures x / ss / spc < m
  {
    MulAssoc(m, spc, ss);
    DivBelow(x, m * spc, ss);
    DivBelow(x / ss, m, spc);
  }

  /** Each byte of a chained file is the byte at the same place in its joined clusters. */
  lemma {:induction false} FileByte(
      image: seq<byte>, vol: Volume, record: FileRecord, chain: seq<nat>, m: nat, x: nat)
    requires vol.Valid() && !record.contiguous && Carries(vol, record, chain) && ClustersThere(image, vol, chain, m)
    requires x < Room(vol, record) && x < m * (vol.sectorsPerCluster * vol.sectorSize)
    ensures x < |Content(image, vol, chain[..m])|
    ensures FileByteIs(image, vol, record, chain, x, Content(image, vol, chain[..m])[x])
  {
    hide FilePlace, Carries, Content, InImage;
    ChainPlace(vol, record, chain, x);
    ClusterOf(x, vol.sectorsPerCluster, vol.sectorSize, m);
    SplitTwice(x, vol.sectorsPerCluster, vol.sectorSize);
    hide Room;
    JoinedByte(image, vol, chain, m, x, ClusterIndex(vol, x), InCluster(vol, x));
    hide ClusterIndex, InCluster;
  }

  lemma {:induction false} JoinedByte(image: seq<byte>, vol: Volume, chain: seq<nat>, m: nat, x: nat, i: nat, q: nat)
    requires ClustersThere(image, vol, chain, m) && i < m && q < vol.sectorsPerCluster * vol.sectorSize
    requires x == i * (vol.sectorsPerCluster * vol.sectorSize) + q
    ensures x < |Content(image, vol, chain[..m])| && 0 <= vol.ClusterToLba(chain[i]) * vol.sectorSize + q < |image|
    ensures Content(image, vol, chain[..m])[x] == image[vol.ClusterToLba(chain[i]) * vol.sectorSize + q]
  {
    hide Content, InImage;
    ContentAt(image, vol, chain[..m], i, q);
  }

  /** A region of a chained file is that slice of its joined clusters, as far as the region reaches. */
  lemma {:induction false} ReadIsSlice(
      image: seq<byte>, vol: Volume, record: FileRecord, chain: seq<nat>, m: nat, offset: nat, data: seq<byte>)
    requires vol.Valid() && !record.contiguous && Carries(vol, record, chain) && ClustersThere(image, vol, chain, m)
    requires offset + |data| <= m * (vol.sectorsPerCluster * vol.sectorSize)
    requires FileHolds(image, vol, record, chain, offset, data)
    ensures offset + |data| <= |Content(image, vol, chain[..m])|
    ensures data == Content(image, vol, chain[..m])[offset..offset + |data|]
  {
    hide Content, FilePlace, Carries;
    forall i: nat | i < |data| ensures data[i] == Content(image, vol, chain[..m])[offset + i] {
      assert FileByteIs(image, vol, record, chain, offset + i, data[i]);
      FileByte(image, vol, record, chain, m, offset + i);
    }
  }
}
