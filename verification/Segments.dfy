/**
 Mapping a file inside an ISO image to segments of the disk the image lies on:
 the file's extents compose with the image's. All sums and products are
 64-bit and checked; an overflow is a load error.
 */
module Segments {
  import opened Common
  import opened Extents

  const U64: nat := 0x1_0000_0000_0000_0000

  datatype Status = InvalidParameter | Unsupported | LoadError | DeviceError

  datatype MappedSegment = MappedSegment(virtualOffset: nat, physicalOffset: int, byteCount: nat)

  /** The image on its source disk: its block size, and its extents or, without any, its first block. */
  datatype IsoSource = IsoSource(blockSize: nat, startLba: nat, extents: seq<FileExtent>)

  function CheckedMul(a: int, b: int): (r: Result<int, Status>)
    ensures r.Ok? ==> r.value < 0x1_0000_0000_0000_0000
  {
    if a * b < U64 then Ok(a * b) else Err(LoadError)
  }

  function CheckedAdd(a: int, b: int): (r: Result<int, Status>)
    ensures r.Ok? ==> r.value < 0x1_0000_0000_0000_0000
  {
    if a + b < U64 then Ok(a + b) else Err(LoadError)
  }

  /** Some extent puts logical byte `x` at `at`. */
  ghost predicate Puts(es: seq<FileExtent>, unit: nat, x: int, at: int) {
    exists k :: 0 <= k < |es| && es[k].Covers(unit, x) && at == es[k].At(unit, x)
  }

  /** Byte `y` of the image lies at disk byte `at`. */
  ghost predicate OnDisk(src: IsoSource, y: int, at: int) {
    if src.extents == [] then at == src.startLba * src.blockSize + y
    else Puts(src.extents, src.blockSize, y, at)
  }

  ghost predicate Unmapped(src: IsoSource, y: int) {
    src.extents != [] && forall k :: 0 <= k < |src.extents| ==> !src.extents[k].Covers(src.blockSize, y)
  }

  /** Segments laid end to end over `from..to`. */
  ghost predicate SegTiles(segs: seq<MappedSegment>, from: nat, to: nat) {
    && (forall i :: 0 <= i < |segs| ==> segs[i].byteCount > 0)
    && (segs != [] ==> segs[0].virtualOffset == from)
    && (forall i :: 0 < i < |segs| ==> segs[i].virtualOffset == segs[i - 1].virtualOffset + segs[i - 1].byteCount)
    && to == if segs == [] then from else segs[|segs| - 1].virtualOffset + segs[|segs| - 1].byteCount
  }

  /** Every byte of the segment is where the image byte `shift` further on lies. */
  ghost predicate Exact(src: IsoSource, s: MappedSegment, shift: int) {
    forall x :: s.virtualOffset <= x < s.virtualOffset + s.byteCount ==> ExactAt(src, s, shift, x)
  }

  ghost predicate ExactAt(src: IsoSource, s: MappedSegment, shift: int, x: int) {
    OnDisk(src, x + shift, s.physicalOffset + (x - s.virtualOffset))
  }

  ghost predicate AllExact(src: IsoSource, segs: seq<MappedSegment>, shift: int) {
    forall i :: 0 <= i < |segs| ==> Exact(src, segs[i], shift)
  }

  ghost predicate ExtentFits(e: FileExtent, unit: nat) {
    && 0 <= e.physicalLba
    && e.virtualBlockStart * unit < U64 && e.blockCount * unit < U64
    && e.virtualBlockStart * unit + e.blockCount * unit < U64
    && e.physicalLba * unit < U64 && e.physicalLba * unit + e.blockCount * unit <= U64
  }

  /** No product or sum formed for this range of the image overflows. */
  ghost predicate RangeFits(src: IsoSource, virtualStart: nat, offset: nat, count: nat) {
    && virtualStart + count <= U64 && offset + count < U64
    && (if src.extents == [] then src.startLba * src.blockSize < U64 && src.startLba * src.blockSize + offset < U64
        else forall k :: 0 <= k < |src.extents| ==> ExtentFits(src.extents[k], src.blockSize))
  }

  lemma {:induction false} SegTilesPush(segs: seq<MappedSegment>, from: nat, to: nat, s: MappedSegment)
    requires SegTiles(segs, from, to) && s.virtualOffset == to && s.byteCount > 0
    ensures SegTiles(segs + [s], from, to + s.byteCount)
  {
  }

  lemma {:induction false} SegTilesJoin(a: seq<MappedSegment>, b: seq<MappedSegment>, from: nat, mid: nat, to: nat)
    requires SegTiles(a, from, mid) && SegTiles(b, mid, to)
    ensures SegTiles(a + b, from, to)
  {
    var all := a + b;
    if a == [] {
      assert all == b;
    } else if b == [] {
      assert all == a;
    } else {
      forall i | 0 < i < |all| ensures all[i].virtualOffset == all[i - 1].virtualOffset + all[i - 1].byteCount {
        if i < |a| {
          assert all[i] == a[i] && all[i - 1] == a[i - 1];
        } else if i == |a| {
          assert all[i] == b[0] && all[i - 1] == a[|a| - 1];
        } else {
          JoinedLater(a, b, i);
        }
      }
      assert all[|all| - 1] == b[|b| - 1];
    }
  }

  lemma {:induction false} JoinedLater(a: seq<MappedSegment>, b: seq<MappedSegment>, i: nat)
    requires |a| < i < |a| + |b|
    requires forall m :: 0 < m < |b| ==> b[m].virtualOffset == b[m - 1].virtualOffset + b[m - 1].byteCount
    ensures (a + b)[i].virtualOffset == (a + b)[i - 1].virtualOffset + (a + b)[i - 1].byteCount
  {
    var m := i - |a|;
    assert (a + b)[i] == b[m] && (a + b)[i - 1] == b[m - 1];
  }

  /** Every place in the segment is a 64-bit number. */
  ghost predicate Places64(segs: seq<MappedSegment>) {
    forall i :: 0 <= i < |segs| ==>
      segs[i].virtualOffset < 0x1_0000_0000_0000_0000 && segs[i].physicalOffset < 0x1_0000_0000_0000_0000
  }

  lemma {:induction false} PlacesPush(segs: seq<MappedSegment>, s: MappedSegment)
    ensures s.virtualOffset < 0x1_0000_0000_0000_0000 && s.physicalOffset < 0x1_0000_0000_0000_0000 ==>
      Places64(segs) ==> Places64(segs + [s])
  {
  }

  lemma {:induction false} AllExactPush(src: IsoSource, segs: seq<MappedSegment>, shift: int, s: MappedSegment)
    requires AllExact(src, segs, shift) && Exact(src, s, shift)
    ensures AllExact(src, segs + [s], shift)
  {
  }

  /** Without extents the image lies in one stretch. */
  lemma {:induction false} WholeStretch(src: IsoSource, virtualStart: nat, isoOffset: nat, byteCount: nat)
    requires src.extents == [] && byteCount > 0
    ensures var s := MappedSegment(virtualStart, src.startLba * src.blockSize + isoOffset, byteCount);
      SegTiles([s], virtualStart, virtualStart + byteCount) && AllExact(src, [s], isoOffset - virtualStart)
  {
  }

  lemma {:induction false} NoSegments(src: IsoSource, from: nat, shift: int)
    ensures SegTiles([], from, from) && AllExact(src, [], shift)
  {
  }

  /** An extent maps any stretch it covers to a stretch of the disk. */
  lemma {:induction false} StretchIsExact(src: IsoSource, k: nat, cursor: nat, len: nat, virtualAt: nat)
    requires k < |src.extents| && src.extents[k].Covers(src.blockSize, cursor)
    requires cursor + len <= (src.extents[k].virtualBlockStart + src.extents[k].blockCount) * src.blockSize
    ensures Exact(src, MappedSegment(virtualAt, src.extents[k].At(src.blockSize, cursor), len), cursor - virtualAt)
  {
    var s := MappedSegment(virtualAt, src.extents[k].At(src.blockSize, cursor), len);
    var shift := cursor - virtualAt;
    forall x | virtualAt <= x < virtualAt + len ensures ExactAt(src, s, shift, x) {
      assert src.extents[k].Covers(src.blockSize, x + shift);
    }
  }

  /** The scan for the first extent that covers the cursor. */
  method FindCovering(src: IsoSource, cursor: nat) returns (r: Result<nat, Status>)
    ensures match r
      case Ok(k) => k < |src.extents| && src.extents[k].Covers(src.blockSize, cursor)
      case Err(LoadError) => exists k :: 0 <= k < |src.extents| && !ExtentFits(src.extents[k], src.blockSize)
      case Err(DeviceError) => forall k :: 0 <= k < |src.extents| ==> !src.extents[k].Covers(src.blockSize, cursor)
      case Err(_) => false
  {
    for k := 0 to |src.extents|
      invariant forall j :: 0 <= j < k ==> !src.extents[j].Covers(src.blockSize, cursor)
    {
      var e := src.extents[k];
      var start := CheckedMul(e.virtualBlockStart, src.blockSize);
      if start.Err? {
        return Err(LoadError);
      }
      var bytes := CheckedMul(e.blockCount, src.blockSize);
      if bytes.Err? {
        return Err(LoadError);
      }
      var end := CheckedAdd(start.value, bytes.value);
      if end.Err? {
        return Err(LoadError);
      }
      MulAdd(e.virtualBlockStart, e.blockCount, src.blockSize);
      if cursor < start.value || cursor >= end.value {
        continue;
      }
      return Ok(k);
    }
    r := Err(DeviceError);
  }

  /** One turn of the cursor loop: the segment for the rest of the first extent that covers the cursor. */
  method NextSegment(src: IsoSource, cursor: nat, fileEnd: nat, virtualStart: nat, isoOffset: nat)
    returns (r: Result<MappedSegment, Status>)
    requires isoOffset <= cursor < fileEnd && src.extents != []
    ensures match r
      case Ok(s) =>
        && s.virtualOffset == virtualStart + (cursor - isoOffset) && 0 < s.byteCount <= fileEnd - cursor
        && s.virtualOffset < 0x1_0000_0000_0000_0000 && s.physicalOffset < 0x1_0000_0000_0000_0000
        && Exact(src, s, isoOffset - virtualStart)
      case Err(LoadError) => !RangeFits(src, virtualStart, isoOffset, fileEnd - isoOffset)
      case Err(DeviceError) => Unmapped(src, cursor)
      case Err(_) => false
  {
    var found := FindCovering(src, cursor);
    if found.Err? {
      return Err(found.error);
    }
    var extent := src.extents[found.value];
    var bs := src.blockSize;
    MulAdd(extent.virtualBlockStart, extent.blockCount, bs);
    var overlapEnd := Min(fileEnd, (extent.virtualBlockStart + extent.blockCount) * bs);
    var at := CheckedAdd(virtualStart, cursor - isoOffset);
    if at.Err? {
      return Err(LoadError);
    }
    var base := CheckedMul(extent.physicalLba, bs);
    if base.Err? {
      return Err(LoadError);
    }
    var physical := CheckedAdd(base.value, cursor - extent.virtualBlockStart * bs);
    if physical.Err? {
      return Err(LoadError);
    }
    StretchIsExact(src, found.value, cursor, overlapEnd - cursor, at.value);
    r := Ok(MappedSegment(at.value, physical.value, overlapEnd - cursor));
  }

  class SegmentList {
    var segments: seq<MappedSegment>

    constructor ()
      ensures segments == []
    {
      segments := [];
    }

    /**
     append_iso_file_range_to_source_segments: walk a cursor over the range,
     each time by the rest of the first extent that covers it.
     */
    method AppendRange(src: IsoSource, virtualStart: nat, isoOffset: nat, byteCount: nat)
      returns (r: Result<(), Status>)
      modifies this
      ensures |old(segments)| <= |segments| && segments[..|old(segments)|] == old(segments)
      ensures virtualStart < 0x1_0000_0000_0000_0000 && Places64(old(segments)) ==> Places64(segments)
      ensures var added := segments[|old(segments)|..];
        match r
        case Ok(_) =>
          SegTiles(added, virtualStart, virtualStart + byteCount) && AllExact(src, added, isoOffset - virtualStart)
        case Err(InvalidParameter) => src.blockSize == 0
        case Err(LoadError) => !RangeFits(src, virtualStart, isoOffset, byteCount)
        case Err(DeviceError) => exists y :: isoOffset <= y < isoOffset + byteCount && Unmapped(src, y)
        case Err(Unsupported) => false
    {
      hide SegTiles, Exact, AllExact, Places64;
      ghost var before := segments;
      NoSegments(src, virtualStart, isoOffset - virtualStart);
      assert segments[|before|..] == [];
      if byteCount == 0 {
        return Ok(());
      }
      var bs := src.blockSize;
      if bs == 0 {
        return Err(InvalidParameter);
      }
      if src.extents == [] {
        var start := CheckedMul(src.startLba, bs);
        if start.Err? { return Err(LoadError); }
        var at := CheckedAdd(start.value, isoOffset);
        if at.Err? { return Err(LoadError); }
        PlacesPush(segments, MappedSegment(virtualStart, at.value, byteCount));
        segments := segments + [MappedSegment(virtualStart, at.value, byteCount)];
        WholeStretch(src, virtualStart, isoOffset, byteCount);
        assert segments[|before|..] == [MappedSegment(virtualStart, at.value, byteCount)];
        return Ok(());
      }
      var fileEnd := isoOffset + byteCount;
      if CheckedAdd(isoOffset, byteCount).Err? {
        return Err(LoadError);
      }
      var cursor := isoOffset;
      while cursor < fileEnd
        invariant isoOffset <= cursor <= fileEnd
        invariant |before| <= |segments| && segments[..|before|] == before
        invariant virtualStart < 0x1_0000_0000_0000_0000 && Places64(before) ==> Places64(segments)
        invariant SegTiles(segments[|before|..], virtualStart, virtualStart + (cursor - isoOffset))
        invariant AllExact(src, segments[|before|..], isoOffset - virtualStart)
      {
        var next := NextSegment(src, cursor, fileEnd, virtualStart, isoOffset);
        if next.Err? {
          return Err(next.error);
        }
        ghost var added := segments[|before|..];
        SegTilesPush(added, virtualStart, next.value.virtualOffset, next.value);
        AllExactPush(src, added, isoOffset - virtualStart, next.value);
        PlacesPush(segments, next.value);
        segments := segments + [next.value];
        assert segments[|before|..] == added + [next.value];
        cursor := cursor + next.value.byteCount;
      }
      return Ok(());
    }
  }

  // ----- a whole file -----

  /** Byte `x` of the file is image byte `y`, and that is disk byte `at`. */
  ghost predicate Through(src: IsoSource, inner: seq<FileExtent>, unit: nat, x: int, at: int) {
    exists y :: Puts(inner, unit, x, y) && OnDisk(src, y, at)
  }

  /** Every byte of the segment goes through the file's extents and then the image's. */
  ghost predicate Composed(src: IsoSource, inner: seq<FileExtent>, unit: nat, s: MappedSegment) {
    forall x :: s.virtualOffset <= x < s.virtualOffset + s.byteCount ==> ComposedAt(src, inner, unit, s, x)
  }

  ghost predicate ComposedAt(src: IsoSource, inner: seq<FileExtent>, unit: nat, s: MappedSegment, x: int) {
    Through(src, inner, unit, x, s.physicalOffset + (x - s.virtualOffset))
  }

  ghost predicate AllComposed(src: IsoSource, inner: seq<FileExtent>, unit: nat, segs: seq<MappedSegment>) {
    forall i :: 0 <= i < |segs| ==> Composed(src, inner, unit, segs[i])
  }

  /** The part of the file that extent `k` holds. */
  function PartLength(inner: seq<FileExtent>, unit: nat, fileSize: nat, k: nat): nat
    requires k < |inner| && inner[k].virtualBlockStart * unit <= fileSize
  {
    Min(inner[k].blockCount * unit, fileSize - inner[k].virtualBlockStart * unit)
  }

  /** Nothing overflows anywhere in the mapping of the file. */
  ghost predicate FileFits(src: IsoSource, inner: seq<FileExtent>, unit: nat, fileSize: nat) {
    forall k :: 0 <= k < |inner| ==> PartFits(src, inner, unit, fileSize, k)
  }

  ghost predicate PartFits(src: IsoSource, inner: seq<FileExtent>, unit: nat, fileSize: nat, k: nat)
    requires k < |inner|
  {
    var start := inner[k].virtualBlockStart * unit;
    && start < U64
    && (start < fileSize ==>
          && inner[k].physicalLba >= 0 && inner[k].blockCount * unit < U64 && inner[k].physicalLba * unit < U64
          && RangeFits(src, start, inner[k].physicalLba * unit, PartLength(inner, unit, fileSize, k)))
  }

  /** The ends of all extents, in bytes and on either side, are below 2^64. */
  ghost predicate EndsFit(es: seq<FileExtent>, unit: nat) {
    forall k :: 0 <= k < |es| ==> EndFits(es[k], unit)
  }

  ghost predicate EndFits(e: FileExtent, unit: nat) {
    && e.physicalLba >= 0
    && e.virtualBlockStart * unit + e.blockCount * unit < 0x1_0000_0000_0000_0000
    && e.physicalLba * unit + e.blockCount * unit < 0x1_0000_0000_0000_0000
  }

  /** A file none of whose bytes has a place at 2^64 or beyond, in the file, in the image or on the disk. */
  ghost predicate Below64(src: IsoSource, inner: seq<FileExtent>, unit: nat, fileSize: nat) {
    && fileSize < 0x1_0000_0000_0000_0000 && EndsFit(inner, unit) && EndsFit(src.extents, src.blockSize)
    && (src.extents == [] ==> forall k :: 0 <= k < |inner| ==>
          src.startLba * src.blockSize + (inner[k].physicalLba * unit + inner[k].blockCount * unit)
            < 0x1_0000_0000_0000_0000)
  }

  /** The range starts and ends there. */
  lemma {:induction false} NoOverflow(src: IsoSource, inner: seq<FileExtent>, unit: nat, fileSize: nat)
    requires Below64(src, inner, unit, fileSize)
    ensures FileFits(src, inner, unit, fileSize)
  {
    forall k | 0 <= k < |src.extents| ensures ExtentFits(src.extents[k], src.blockSize) {
      EndOfExtent(src.extents[k], src.blockSize);
    }
    forall k | 0 <= k < |inner| ensures PartFits(src, inner, unit, fileSize, k) {
      EndOfExtent(inner[k], unit);
    }
  }

  lemma {:induction false} EndOfExtent(e: FileExtent, unit: nat)
    requires EndFits(e, unit)
    ensures ExtentFits(e, unit) && e.virtualBlockStart * unit >= 0 && e.blockCount * unit >= 0
    ensures e.physicalLba * unit >= 0
  {
    MulMonotone(0, e.virtualBlockStart, unit);
    MulMonotone(0, e.blockCount, unit);
    MulMonotone(0, e.physicalLba, unit);
  }

  /** The products formed for extent `k` are 64-bit numbers. */
  ghost predicate Products64(inner: seq<FileExtent>, unit: nat, fileSize: nat, k: nat)
    requires k < |inner|
  {
    var start := inner[k].virtualBlockStart * unit;
    && start < 0x1_0000_0000_0000_0000
    && (start < fileSize ==>
          && inner[k].blockCount * unit < 0x1_0000_0000_0000_0000
          && inner[k].physicalLba * unit < 0x1_0000_0000_0000_0000)
  }

  /** A byte of the file whose place in the image no image extent covers. */
  ghost predicate Lost(src: IsoSource, inner: seq<FileExtent>, unit: nat, fileSize: nat) {
    exists x, y :: 0 <= x < fileSize && Puts(inner, unit, x, y) && Unmapped(src, y)
  }

  /** Between lists that overlap nowhere, going through is looking up twice. */
  lemma {:induction false} ThroughIsLookup(src: IsoSource, inner: seq<FileExtent>, unit: nat, x: int, at: int)
    requires Ascending(inner) && Ascending(src.extents) && src.extents != []
    ensures Through(src, inner, unit, x, at) <==>
      match Locate(inner, unit, x)
      case Some(y) => Locate(src.extents, src.blockSize, y) == Some(at)
      case None => false
  {
    if Through(src, inner, unit, x, at) {
      var y :| Puts(inner, unit, x, y) && OnDisk(src, y, at);
      var i :| 0 <= i < |inner| && inner[i].Covers(unit, x) && y == inner[i].At(unit, x);
      var k :| 0 <= k < |src.extents| && src.extents[k].Covers(src.blockSize, y)
        && at == src.extents[k].At(src.blockSize, y);
      AscendingAt(inner, unit, x, i);
      AscendingAt(src.extents, src.blockSize, y, k);
    }
    if Locate(inner, unit, x).Some? {
      var y := Locate(inner, unit, x).value;
      var i := Located(inner, unit, x);
      assert Puts(inner, unit, x, y);
      if Locate(src.extents, src.blockSize, y) == Some(at) {
        var k := Located(src.extents, src.blockSize, y);
        assert OnDisk(src, y, at);
      }
    }
  }

  lemma {:induction false} ExactThenComposed(
      src: IsoSource, inner: seq<FileExtent>, unit: nat, k: nat, len: nat, segs: seq<MappedSegment>)
    requires k < |inner| && len <= inner[k].blockCount * unit
    requires SegTiles(segs, inner[k].virtualBlockStart * unit, inner[k].virtualBlockStart * unit + len)
    requires AllExact(src, segs, inner[k].physicalLba * unit - inner[k].virtualBlockStart * unit)
    ensures AllComposed(src, inner, unit, segs)
  {
    var start := inner[k].virtualBlockStart * unit;
    var shift := inner[k].physicalLba * unit - start;
    MulAdd(inner[k].virtualBlockStart, inner[k].blockCount, unit);
    forall i, x | 0 <= i < |segs| && segs[i].virtualOffset <= x < segs[i].virtualOffset + segs[i].byteCount
      ensures ComposedAt(src, inner, unit, segs[i], x)
    {
      SegInside(segs, start, start + len, i);
      assert ExactAt(src, segs[i], shift, x);
      assert inner[k].Covers(unit, x) && inner[k].At(unit, x) == x + shift;
      assert Puts(inner, unit, x, x + shift);
    }
  }

  lemma {:induction false} SegInside(segs: seq<MappedSegment>, from: nat, to: nat, i: nat)
    requires SegTiles(segs, from, to) && i < |segs|
    ensures from <= segs[i].virtualOffset && segs[i].virtualOffset + segs[i].byteCount <= to
  {
    SegAfter(segs, from, to, i);
    SegBefore(segs, from, to, i);
  }

  lemma {:induction false} SegAfter(segs: seq<MappedSegment>, from: nat, to: nat, i: nat)
    requires SegTiles(segs, from, to) && i < |segs|
    ensures from <= segs[i].virtualOffset
  {
    if i > 0 {
      SegAfter(segs, from, to, i - 1);
      assert segs[i].virtualOffset == segs[i - 1].virtualOffset + segs[i - 1].byteCount;
    }
  }

  lemma {:induction false} SegBefore(segs: seq<MappedSegment>, from: nat, to: nat, i: nat)
    requires SegTiles(segs, from, to) && i < |segs|
    ensures segs[i].virtualOffset + segs[i].byteCount <= to
    decreases |segs| - i
  {
    if i + 1 < |segs| {
      SegBefore(segs, from, to, i + 1);
      assert segs[i + 1].virtualOffset == segs[i].virtualOffset + segs[i].byteCount;
    }
  }

  lemma {:induction false} TileStarts(inner: seq<FileExtent>, n: nat, k: nat, unit: nat)
    requires Tiles(inner, n) && k < |inner|
    ensures inner[k].virtualBlockStart * unit == if k == 0 then 0
      else inner[k - 1].virtualBlockStart * unit + inner[k - 1].blockCount * unit
    ensures k == |inner| - 1 ==> n * unit == inner[k].virtualBlockStart * unit + inner[k].blockCount * unit
  {
    if k > 0 {
      assert inner[k].virtualBlockStart == inner[k - 1].virtualBlockStart + inner[k - 1].blockCount;
      MulAdd(inner[k - 1].virtualBlockStart, inner[k - 1].blockCount, unit);
    } else {
      assert inner[0].virtualBlockStart == 0;
    }
    MulAdd(inner[k].virtualBlockStart, inner[k].blockCount, unit);
  }

  /** How far a tiling's first `k` extents reach into the file. */
  function Reach(inner: seq<FileExtent>, unit: nat, fileSize: nat, k: nat): nat
    requires k <= |inner|
  {
    if k == 0 then 0
    else Min(fileSize, inner[k - 1].virtualBlockStart * unit + inner[k - 1].blockCount * unit)
  }

  /** What holds of the segments once the first `k` extents have been mapped. */
  ghost predicate MappedUpTo(
    src: IsoSource, inner: seq<FileExtent>, unit: nat, fileSize: nat, k: nat, segs: seq<MappedSegment>)
    requires k <= |inner|
  {
    && AllComposed(src, inner, unit, segs)
    && (forall n: nat :: Tiles(inner, n) ==> SegTiles(segs, 0, Reach(inner, unit, fileSize, k)))
    && (segs == [] ==>
          forall j :: 0 <= j < k ==> inner[j].blockCount == 0 || fileSize <= inner[j].virtualBlockStart * unit)
  }

  lemma {:induction false} MapPart(
      src: IsoSource, inner: seq<FileExtent>, unit: nat, fileSize: nat, k: nat,
      segs: seq<MappedSegment>, added: seq<MappedSegment>)
    requires k < |inner| && unit > 0 && MappedUpTo(src, inner, unit, fileSize, k, segs)
    requires var start := inner[k].virtualBlockStart * unit;
             && start < fileSize
             && SegTiles(added, start, start + PartLength(inner, unit, fileSize, k))
             && AllExact(src, added, inner[k].physicalLba * unit - start)
    ensures MappedUpTo(src, inner, unit, fileSize, k + 1, segs + added)
  {
    var start, len := inner[k].virtualBlockStart * unit, PartLength(inner, unit, fileSize, k);
    ExactThenComposed(src, inner, unit, k, len, added);
    ComposedJoin(src, inner, unit, segs, added);
    if inner[k].blockCount > 0 {
      MulMonotone(1, inner[k].blockCount, unit);
      NotEmpty(added, start, start + len);
    }
    hide AllExact, AllComposed, SegTiles, Tiles, Reach, PartLength;
    forall n: nat | Tiles(inner, n) ensures SegTiles(segs + added, 0, Reach(inner, unit, fileSize, k + 1)) {
      assert SegTiles(segs, 0, Reach(inner, unit, fileSize, k));
      PartReaches(inner, unit, fileSize, k, n);
      SegTilesJoin(segs, added, 0, start, start + len);
    }
  }

  /** In a file whose extents tile it, the part of extent `k` starts where the earlier ones reach. */
  lemma {:induction false} PartReaches(inner: seq<FileExtent>, unit: nat, fileSize: nat, k: nat, n: nat)
    requires Tiles(inner, n) && k < |inner| && inner[k].virtualBlockStart * unit < fileSize
    ensures Reach(inner, unit, fileSize, k) == inner[k].virtualBlockStart * unit
    ensures Reach(inner, unit, fileSize, k + 1)
      == inner[k].virtualBlockStart * unit + PartLength(inner, unit, fileSize, k)
  {
    TileStarts(inner, n, k, unit);
  }

  lemma {:induction false} NotEmpty(segs: seq<MappedSegment>, from: nat, to: nat)
    requires SegTiles(segs, from, to) && from < to
    ensures segs != []
  {
  }

  lemma {:induction false} ComposedJoin(
      src: IsoSource, inner: seq<FileExtent>, unit: nat, a: seq<MappedSegment>, b: seq<MappedSegment>)
    requires AllComposed(src, inner, unit, a) && AllComposed(src, inner, unit, b)
    ensures AllComposed(src, inner, unit, a + b)
  {
    hide Composed;
  }

  lemma {:induction false} SkipPart(
      src: IsoSource, inner: seq<FileExtent>, unit: nat, fileSize: nat, k: nat, segs: seq<MappedSegment>)
    requires k < |inner| && MappedUpTo(src, inner, unit, fileSize, k, segs)
    requires fileSize <= inner[k].virtualBlockStart * unit
    ensures MappedUpTo(src, inner, unit, fileSize, k + 1, segs)
  {
    forall n: nat | Tiles(inner, n) ensures SegTiles(segs, 0, Reach(inner, unit, fileSize, k + 1)) {
      TileStarts(inner, n, k, unit);
    }
  }

  lemma {:induction false} LostPart(src: IsoSource, inner: seq<FileExtent>, unit: nat, fileSize: nat, k: nat, y: int)
    requires k < |inner| && inner[k].virtualBlockStart * unit < fileSize
    requires inner[k].physicalLba * unit <= y < inner[k].physicalLba * unit + PartLength(inner, unit, fileSize, k)
    requires Unmapped(src, y)
    ensures Lost(src, inner, unit, fileSize)
  {
    var x := inner[k].virtualBlockStart * unit + (y - inner[k].physicalLba * unit);
    MulAdd(inner[k].virtualBlockStart, inner[k].blockCount, unit);
    assert inner[k].Covers(unit, x) && inner[k].At(unit, x) == y;
    assert Puts(inner, unit, x, y);
  }

  /** One turn of the extent loop: map the part of the file that extent `k` holds. */
  method AppendPart(list: SegmentList, src: IsoSource, unit: nat, fileSize: nat, inner: seq<FileExtent>, k: nat)
    returns (r: Result<(), Status>)
    requires k < |inner| && inner[k].physicalLba >= 0 && unit > 0 && fileSize < U64
    requires MappedUpTo(src, inner, unit, fileSize, k, list.segments)
    modifies list
    ensures Places64(old(list.segments)) ==> Places64(list.segments)
    ensures r.Ok? ==>
      MappedUpTo(src, inner, unit, fileSize, k + 1, list.segments) && Products64(inner, unit, fileSize, k)
    ensures r.Err? ==> src.blockSize == 0 || !FileFits(src, inner, unit, fileSize) || Lost(src, inner, unit, fileSize)
  {
    var e := inner[k];
    var start := CheckedMul(e.virtualBlockStart, unit);
    if start.Err? {
      assert !PartFits(src, inner, unit, fileSize, k);
      return Err(LoadError);
    }
    if start.value >= fileSize {
      SkipPart(src, inner, unit, fileSize, k, list.segments);
      return Ok(());
    }
    var bytes := CheckedMul(e.blockCount, unit);
    var offset := CheckedMul(e.physicalLba, unit);
    if bytes.Err? || offset.Err? {
      assert !PartFits(src, inner, unit, fileSize, k);
      return Err(LoadError);
    }
    r := AppendClipped(list, src, unit, fileSize, inner, k, Min(bytes.value, fileSize - start.value));
  }

  method AppendClipped(
      list: SegmentList, src: IsoSource, unit: nat, fileSize: nat, inner: seq<FileExtent>, k: nat, byteCount: nat)
    returns (r: Result<(), Status>)
    requires k < |inner| && inner[k].physicalLba >= 0 && unit > 0 && inner[k].virtualBlockStart * unit < fileSize
    requires byteCount == PartLength(inner, unit, fileSize, k) && fileSize < U64
    requires MappedUpTo(src, inner, unit, fileSize, k, list.segments)
    modifies list
    ensures Places64(old(list.segments)) ==> Places64(list.segments)
    ensures r.Ok? ==> MappedUpTo(src, inner, unit, fileSize, k + 1, list.segments)
    ensures r.Err? ==>
      src.blockSize == 0 || !PartFits(src, inner, unit, fileSize, k) || Lost(src, inner, unit, fileSize)
  {
    var start, offset := inner[k].virtualBlockStart * unit, inner[k].physicalLba * unit;
    ghost var before := list.segments;
    r := list.AppendRange(src, start, offset, byteCount);
    ghost var added := list.segments[|before|..];
    assert list.segments == before + added;
    match r
    case Ok(_) => MapPart(src, inner, unit, fileSize, k, before, added);
    case Err(status) =>
      if status == DeviceError {
        ghost var y :| offset <= y < offset + byteCount && Unmapped(src, y);
        LostPart(src, inner, unit, fileSize, k, y);
      }
  }

  lemma {:induction false} NothingMapped(src: IsoSource, inner: seq<FileExtent>, unit: nat, fileSize: nat)
    ensures MappedUpTo(src, inner, unit, fileSize, 0, []) && Places64([]) && AllComposed(src, inner, unit, [])
  {
  }

  lemma {:induction false} AllMapped(
      src: IsoSource, inner: seq<FileExtent>, unit: nat, fileSize: nat, segs: seq<MappedSegment>)
    requires inner != [] && MappedUpTo(src, inner, unit, fileSize, |inner|, segs)
    ensures AllComposed(src, inner, unit, segs)
    ensures forall n: nat :: Tiles(inner, n) ==> SegTiles(segs, 0, Min(fileSize, n * unit))
    ensures segs == [] ==>
      forall k :: 0 <= k < |inner| ==> inner[k].blockCount == 0 || fileSize <= inner[k].virtualBlockStart * unit
  {
    hide AllComposed, SegTiles;
    forall n: nat | Tiles(inner, n) ensures SegTiles(segs, 0, Min(fileSize, n * unit)) {
      TileStarts(inner, n, |inner| - 1, unit);
    }
  }

  /**
   map_iso_file_extents_to_source_segments: what it returns refines the
   composition of the two mappings, and tiles the file when its extents do.
   */
  method MapFile(src: IsoSource, isoBlockSize: nat, fileSize: nat, inner: seq<FileExtent>)
    returns (r: Result<seq<MappedSegment>, Status>)
    requires fileSize < 0x1_0000_0000_0000_0000 && forall k :: 0 <= k < |inner| ==> inner[k].physicalLba >= 0
    ensures r.Ok? ==>
      && AllComposed(src, inner, isoBlockSize, r.value) && Places64(r.value)
      && (fileSize > 0 ==> forall k :: 0 <= k < |inner| ==> Products64(inner, isoBlockSize, fileSize, k))
      && forall n: nat :: Tiles(inner, n) ==> SegTiles(r.value, 0, Min(fileSize, n * isoBlockSize))
    ensures r.Err? ==>
      || isoBlockSize == 0 || src.blockSize == 0 || !FileFits(src, inner, isoBlockSize, fileSize)
      || Lost(src, inner, isoBlockSize, fileSize)
      || forall k :: 0 <= k < |inner| ==>
           inner[k].blockCount == 0 || fileSize <= inner[k].virtualBlockStart * isoBlockSize
    ensures isoBlockSize > 0 && src.blockSize > 0 && Below64(src, inner, isoBlockSize, fileSize) ==>
      || r.Ok? || Lost(src, inner, isoBlockSize, fileSize)
      || forall k :: 0 <= k < |inner| ==>
           inner[k].blockCount == 0 || fileSize <= inner[k].virtualBlockStart * isoBlockSize
  {
    hide FileFits, Below64, Lost, Places64, MappedUpTo, Products64;
    NothingMapped(src, inner, isoBlockSize, fileSize);
    if Below64(src, inner, isoBlockSize, fileSize) {
      NoOverflow(src, inner, isoBlockSize, fileSize);
    }
    if isoBlockSize == 0 {
      return Err(InvalidParameter);
    }
    if fileSize == 0 {
      return Ok([]);
    }
    if inner == [] {
      return Err(Unsupported);
    }
    var list := new SegmentList();
    for k := 0 to |inner|
      invariant MappedUpTo(src, inner, isoBlockSize, fileSize, k, list.segments) && Places64(list.segments)
      invariant forall j :: 0 <= j < k ==> Products64(inner, isoBlockSize, fileSize, j)
    {
      var part := AppendPart(list, src, isoBlockSize, fileSize, inner, k);
      if part.Err? {
        return Err(part.error);
      }
    }
    AllMapped(src, inner, isoBlockSize, fileSize, list.segments);
    if list.segments == [] {
      return Err(DeviceError);
    }
    return Ok(list.segments);
  }
}
