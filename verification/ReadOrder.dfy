/** When a region read trusts the order of its extents rightly. */
module ReadOrder {
  import opened Common
  import opened Extents
  import opened RegionReads

  /** A byte that a read gathers: the extent it comes from, and its position in the file. */
  datatype Spot = Spot(extent: nat, at: int)

  /** How much of the range the extent holds. */
  function Span(e: FileExtent, unit: nat, offset: int, end: int): (n: nat)
  {
    if Meets(e, unit, offset, end) && ClipFrom(e, unit, offset) < ClipTo(e, unit, end)
    then ClipTo(e, unit, end) - ClipFrom(e, unit, offset) else 0
  }

  /** The bytes that the first `k` extents give, as they are gathered. */
  function Spots(es: seq<FileExtent>, unit: nat, offset: int, end: int, k: nat): seq<Spot>
    requires k <= |es|
  {
    if k == 0 then []
    else
      var e := es[k - 1];
      Spots(es, unit, offset, end, k - 1)
      + seq(Span(e, unit, offset, end), i requires 0 <= i => Spot(k - 1, ClipFrom(e, unit, offset) + i))
  }

  /** The parts of the range that the extents hold stand in the order of the file, none inside another. */
  ghost predicate InOrder(es: seq<FileExtent>, unit: nat, offset: int, end: int) {
    forall i, j :: 0 <= i < j < |es| && Span(es[i], unit, offset, end) > 0 && Span(es[j], unit, offset, end) > 0 ==>
      ClipTo(es[i], unit, end) <= ClipFrom(es[j], unit, offset)
  }

  /** No block of the image belongs to two extents. */
  ghost predicate PlacesApart(es: seq<FileExtent>) {
    forall i, j :: 0 <= i < j < |es| && es[i].blockCount > 0 && es[j].blockCount > 0 ==>
      es[i].physicalLba + es[i].blockCount <= es[j].physicalLba
      || es[j].physicalLba + es[j].blockCount <= es[i].physicalLba
  }

  /** The read goes through and returns the bytes that the extents map. */
  ghost predicate Right(image: seq<byte>, es: seq<FileExtent>, unit: nat, offset: nat, length: nat) {
    && length > 0 && ReadGoes(image, es, unit, offset, length)
    && Holds(image, es, unit, offset, Gather(image, es, unit, offset, offset + length, |es|))
  }

  /** Each gathered byte comes from the spot it is listed with. */
  ghost predicate Covered(es: seq<FileExtent>, unit: nat, offset: int, end: int, s: Spot) {
    && s.extent < |es| && es[s.extent].Covers(unit, s.at) && offset <= s.at < end
    && Span(es[s.extent], unit, offset, end) > 0
    && ClipFrom(es[s.extent], unit, offset) <= s.at < ClipTo(es[s.extent], unit, end)
  }

  lemma {:induction false} SpotsCovered(es: seq<FileExtent>, unit: nat, offset: int, end: int, k: nat)
    requires k <= |es|
    ensures forall p :: 0 <= p < |Spots(es, unit, offset, end, k)| ==>
      Covered(es, unit, offset, end, Spots(es, unit, offset, end, k)[p])
      && Spots(es, unit, offset, end, k)[p].extent < k
  {
    if k > 0 { SpotsCovered(es, unit, offset, end, k - 1); }
  }

  predicate FromSpot(image: seq<byte>, e: FileExtent, unit: nat, x: int, b: byte) {
    0 <= e.At(unit, x) < |image| && image[e.At(unit, x)] == b
  }

  /** The bytes are those at the spots. */
  ghost predicate SpotsHold(image: seq<byte>, es: seq<FileExtent>, unit: nat, ss: seq<Spot>, data: seq<byte>) {
    && |data| == |ss|
    && forall p :: 0 <= p < |ss| ==> ss[p].extent < |es| && FromSpot(image, es[ss[p].extent], unit, ss[p].at, data[p])
  }

  lemma {:induction false} SpotsJoin(
      image: seq<byte>, es: seq<FileExtent>, unit: nat, a: seq<Spot>, x: seq<byte>, b: seq<Spot>, y: seq<byte>)
    requires SpotsHold(image, es, unit, a, x) && SpotsHold(image, es, unit, b, y)
    ensures SpotsHold(image, es, unit, a + b, x + y)
  {
    hide FromSpot;
  }

  lemma {:induction false} ChunkSpots(image: seq<byte>, es: seq<FileExtent>, unit: nat, k: nat, from: int, n: nat)
    requires k < |es| && 0 <= es[k].At(unit, from) && es[k].At(unit, from) + n <= |image|
    ensures var at := es[k].At(unit, from);
      SpotsHold(image, es, unit, seq(n, i requires 0 <= i => Spot(k, from + i)), image[at..at + n])
  {
  }

  /** What is gathered, spot by spot. */
  lemma {:induction false} GatherSpots(image: seq<byte>, es: seq<FileExtent>, unit: nat, offset: int, end: int, k: nat)
    requires k <= |es| && offset < end && ClipsOk(image, es, unit, offset, end, k)
    ensures SpotsHold(image, es, unit, Spots(es, unit, offset, end, k), Gather(image, es, unit, offset, end, k))
  {
    hide SpotsHold, FileExtent.At, Gather;
    if k == 0 {
      NoSpots(image, es, unit, offset, end);
    } else {
      GatherSpots(image, es, unit, offset, end, k - 1);
      var e, n := es[k - 1], Span(es[k - 1], unit, offset, end);
      var from := ClipFrom(e, unit, offset);
      var more := seq(n, i requires 0 <= i => Spot(k - 1, from + i));
      if Meets(e, unit, offset, end) {
        GatherStep(image, es, unit, offset, end, k);
        var at := e.At(unit, from);
        NoSpots(image, es, unit, offset, end);
        ChunkSpots(image, es, unit, k - 1, from, n);
        SpotsJoin(image, es, unit, Spots(es, unit, offset, end, k - 1), Gather(image, es, unit, offset, end, k - 1),
                  more, image[at..at + n]);
      } else {
        SkipStep(image, es, unit, offset, end, k);
        assert more == [] && Spots(es, unit, offset, end, k) == Spots(es, unit, offset, end, k - 1);
      }
    }
  }

  lemma {:induction false} NoSpots(image: seq<byte>, es: seq<FileExtent>, unit: nat, offset: int, end: int)
    ensures Gather(image, es, unit, offset, end, 0) == [] && SpotsHold(image, es, unit, [], [])
  {
  }

  lemma {:induction false} SkipStep(image: seq<byte>, es: seq<FileExtent>, unit: nat, offset: int, end: int, k: nat)
    requires 0 < k <= |es| && ClipsOk(image, es, unit, offset, end, k) && !Meets(es[k - 1], unit, offset, end)
    ensures Gather(image, es, unit, offset, end, k) == Gather(image, es, unit, offset, end, k - 1)
  {
  }

  // ----- in order, or rising -----

  ghost predicate Rising(ss: seq<Spot>) {
    forall p, q :: 0 <= p < q < |ss| ==> ss[p].at < ss[q].at
  }

  lemma {:induction false} OrderRises(es: seq<FileExtent>, unit: nat, offset: int, end: int, k: nat)
    requires k <= |es| && InOrder(es, unit, offset, end)
    ensures Rising(Spots(es, unit, offset, end, k))
  {
    if k > 0 {
      OrderRises(es, unit, offset, end, k - 1);
      SpotsCovered(es, unit, offset, end, k - 1);
      SpotsCovered(es, unit, offset, end, k);
      hide Span, ClipFrom, ClipTo, Meets;
      var before, ss := Spots(es, unit, offset, end, k - 1), Spots(es, unit, offset, end, k);
      forall p, q | 0 <= p < q < |ss| ensures ss[p].at < ss[q].at {
        if q < |before| {
          assert ss[p] == before[p] && ss[q] == before[q];
        } else if p < |before| {
          assert ss[p] == before[p] && ss[q].extent == k - 1;
        }
      }
    }
  }

  /** Where a byte of an extent's part is found among the spots. */
  lemma {:induction false} SpotIndex(es: seq<FileExtent>, unit: nat, offset: int, end: int, k: nat, i: nat, x: int)
    returns (p: nat)
    requires i < k <= |es| && Span(es[i], unit, offset, end) > 0
    requires ClipFrom(es[i], unit, offset) <= x < ClipTo(es[i], unit, end)
    ensures |Spots(es, unit, offset, end, i)| <= p < |Spots(es, unit, offset, end, i + 1)|
    ensures |Spots(es, unit, offset, end, i + 1)| <= |Spots(es, unit, offset, end, k)|
    ensures Spots(es, unit, offset, end, k)[p] == Spot(i, x)
    decreases k
  {
    if i == k - 1 {
      p := |Spots(es, unit, offset, end, i)| + (x - ClipFrom(es[i], unit, offset));
    } else {
      p := SpotIndex(es, unit, offset, end, k - 1, i, x);
    }
  }

  lemma {:induction false} RisesInOrder(es: seq<FileExtent>, unit: nat, offset: int, end: int)
    requires Rising(Spots(es, unit, offset, end, |es|))
    ensures InOrder(es, unit, offset, end)
  {
    forall i, j | 0 <= i < j < |es| && Span(es[i], unit, offset, end) > 0 && Span(es[j], unit, offset, end) > 0
      ensures ClipTo(es[i], unit, end) <= ClipFrom(es[j], unit, offset)
    {
      var p := SpotIndex(es, unit, offset, end, |es|, i, ClipTo(es[i], unit, end) - 1);
      var q := SpotIndex(es, unit, offset, end, |es|, j, ClipFrom(es[j], unit, offset));
      SpotsGrow(es, unit, offset, end, i + 1, j);
    }
  }

  lemma {:induction false} SpotsGrow(es: seq<FileExtent>, unit: nat, offset: int, end: int, a: nat, b: nat)
    requires a <= b <= |es|
    ensures |Spots(es, unit, offset, end, a)| <= |Spots(es, unit, offset, end, b)|
    decreases b
  {
    if a < b { SpotsGrow(es, unit, offset, end, a, b - 1); }
  }

  /** As many rising positions as the range has are all its positions. */
  lemma {:induction false} RisingFills(ss: seq<Spot>, offset: int, end: int)
    requires Rising(ss) && |ss| == end - offset && forall p :: 0 <= p < |ss| ==> offset <= ss[p].at < end
    ensures forall p :: 0 <= p < |ss| ==> ss[p].at == offset + p
  {
    forall p | 0 <= p < |ss| ensures ss[p].at == offset + p {
      AtLeast(ss, offset, p);
      AtMost(ss, end, p);
    }
  }

  lemma {:induction false} AtLeast(ss: seq<Spot>, offset: int, p: nat)
    requires Rising(ss) && p < |ss| && offset <= ss[0].at
    ensures offset + p <= ss[p].at
  {
    if p > 0 { AtLeast(ss, offset, p - 1); }
  }

  lemma {:induction false} AtMost(ss: seq<Spot>, end: int, p: nat)
    requires Rising(ss) && p < |ss| && ss[|ss| - 1].at < end
    ensures ss[p].at < end - (|ss| - 1 - p)
    decreases |ss| - p
  {
    if p + 1 < |ss| { AtMost(ss, end, p + 1); }
  }

  // ----- the bytes -----

  /** In order, every gathered byte is the one the extents map. */
  lemma {:induction false} OrderIsRight(image: seq<byte>, es: seq<FileExtent>, unit: nat, offset: nat, length: nat)
    requires length > 0 && ReadGoes(image, es, unit, offset, length) && InOrder(es, unit, offset, offset + length)
    ensures Right(image, es, unit, offset, length)
  {
    hide Spots, Locate, Rising, Covered, InOrder, FromSpot, FileExtent.At, FileExtent.Covers, Gather, ByteIs, ClipsOk;
    var end := offset + length;
    var ss, data := Spots(es, unit, offset, end, |es|), Gather(image, es, unit, offset, end, |es|);
    GatherSpots(image, es, unit, offset, end, |es|);
    SpotsCovered(es, unit, offset, end, |es|);
    OrderRises(es, unit, offset, end, |es|);
    SpotsInside(es, unit, offset, end, ss);
    RisingFills(ss, offset, end);
    forall p | 0 <= p < |data| ensures ByteIs(image, es, unit, offset + p, data[p]) {
      SpotIsMapped(image, es, unit, offset, end, ss[p], data[p]);
    }
  }

  lemma {:induction false} SpotsInside(es: seq<FileExtent>, unit: nat, offset: int, end: int, ss: seq<Spot>)
    requires forall p :: 0 <= p < |ss| ==> Covered(es, unit, offset, end, ss[p])
    ensures forall p :: 0 <= p < |ss| ==> offset <= ss[p].at < end
  {
  }

  lemma {:induction false} SpotIsMapped(
      image: seq<byte>, es: seq<FileExtent>, unit: nat, offset: int, end: int, s: Spot, b: byte)
    requires InOrder(es, unit, offset, end) && Covered(es, unit, offset, end, s)
    requires FromSpot(image, es[s.extent], unit, s.at, b)
    ensures ByteIs(image, es, unit, s.at, b)
  {
    hide InOrder, Locate;
    OnlyPart(es, unit, offset, end, s);
    LocateAt(es, unit, s.at, s.extent);
  }

  lemma {:induction false} CoveredPart(e: FileExtent, unit: nat, offset: int, end: int, x: int)
    requires offset <= x < end
    ensures e.Covers(unit, x) ==>
      Span(e, unit, offset, end) > 0 && ClipFrom(e, unit, offset) <= x < ClipTo(e, unit, end)
  {
  }

  /** No earlier extent covers a spot when the parts are in order. */
  lemma {:induction false} OnlyPart(es: seq<FileExtent>, unit: nat, offset: int, end: int, s: Spot)
    requires InOrder(es, unit, offset, end) && Covered(es, unit, offset, end, s)
    ensures forall j :: 0 <= j < s.extent ==> !es[j].Covers(unit, s.at)
  {
    forall j | 0 <= j < s.extent ensures !es[j].Covers(unit, s.at) { CoveredPart(es[j], unit, offset, end, s.at); }
  }

  /** Whether a read goes through depends on the length of the image only. */
  lemma {:induction false} GoesAlike(
      a: seq<byte>, b: seq<byte>, es: seq<FileExtent>, unit: nat, offset: nat, length: nat)
    requires |a| == |b| && ReadGoes(a, es, unit, offset, length)
    ensures ReadGoes(b, es, unit, offset, length)
  {
    var end := offset + length;
    if length > 0 {
      forall j | 0 <= j < |es| ensures ClipOk(b, es[j], unit, offset, end) {
        assert ClipOk(a, es[j], unit, offset, end);
      }
      GatherSpots(a, es, unit, offset, end, |es|);
      GatherSpots(b, es, unit, offset, end, |es|);
    }
  }

  /** An image of zeros but for one byte. */
  function Marked(size: nat, at: int): (r: seq<byte>)
    ensures |r| == size && forall x :: 0 <= x < size ==> (r[x] == 1 <==> x == at)
  {
    seq(size, x => if x == at then 1 else 0)
  }

  lemma {:induction false} LocateFirst(es: seq<FileExtent>, unit: nat, x: int) returns (m: nat)
    requires Locate(es, unit, x).Some?
    ensures m < |es| && es[m].Covers(unit, x) && Locate(es, unit, x) == Some(es[m].At(unit, x))
  {
    if es[0].Covers(unit, x) {
      m := 0;
    } else {
      m := LocateFirst(es[1..], unit, x);
      m := m + 1;
    }
  }

  /** Where no block belongs to two extents, a byte of the image belongs to one position of one extent. */
  lemma {:induction false} OnePlace(es: seq<FileExtent>, unit: nat, i: nat, x: int, j: nat, y: int)
    requires PlacesApart(es) && i < |es| && j < |es| && es[i].Covers(unit, x) && es[j].Covers(unit, y)
    requires es[i].At(unit, x) == es[j].At(unit, y)
    ensures i == j && x == y
  {
    InRun(es[i], unit, x);
    InRun(es[j], unit, y);
    if i != j {
      hide FileExtent.At;
      MulMonotone(es[i].physicalLba + es[i].blockCount, es[j].physicalLba, unit);
    }
  }

  lemma {:induction false} InRun(e: FileExtent, unit: nat, x: int)
    requires e.Covers(unit, x)
    ensures e.blockCount > 0
    ensures e.physicalLba * unit <= e.At(unit, x) < (e.physicalLba + e.blockCount) * unit
  {
    MulAdd(e.virtualBlockStart, e.blockCount, unit);
    MulAdd(e.physicalLba, e.blockCount, unit);
  }

  /** In a right read the byte at each spot is the one the extents map. */
  lemma {:induction false} SpotReads(image: seq<byte>, es: seq<FileExtent>, unit: nat, offset: nat, length: nat, p: nat)
    returns (m: nat)
    requires Right(image, es, unit, offset, length) && p < length
    ensures |Spots(es, unit, offset, offset + length, |es|)| == length
    ensures var s := Spots(es, unit, offset, offset + length, |es|)[p];
      && s.extent < |es| && es[s.extent].Covers(unit, s.at)
      && m < |es| && es[m].Covers(unit, offset + p)
      && Some(es[m].At(unit, offset + p)) == Locate(es, unit, offset + p)
      && 0 <= es[s.extent].At(unit, s.at) < |image| && 0 <= es[m].At(unit, offset + p) < |image|
      && image[es[s.extent].At(unit, s.at)] == image[es[m].At(unit, offset + p)]
  {
    hide Spots, Locate, Gather, ClipsOk, FileExtent.At, FileExtent.Covers, ClipFrom, ClipTo, Span;
    var end := offset + length;
    SpotsCovered(es, unit, offset, end, |es|);
    GatherSpots(image, es, unit, offset, end, |es|);
    var s, data := Spots(es, unit, offset, end, |es|)[p], Gather(image, es, unit, offset, end, |es|);
    assert FromSpot(image, es[s.extent], unit, s.at, data[p]);
    assert ByteIs(image, es, unit, offset + p, data[p]);
    m := LocateFirst(es, unit, offset + p);
  }

  /** Right on every image, the spots are the positions of the range. */
  lemma {:induction false} RightIsOrder(size: nat, es: seq<FileExtent>, unit: nat, offset: nat, length: nat, p: nat)
    requires PlacesApart(es) && p < length
    requires forall image: seq<byte> :: |image| == size ==> Right(image, es, unit, offset, length)
    ensures var ss := Spots(es, unit, offset, offset + length, |es|);
      |ss| == length && ss[p].at == offset + p
  {
    hide Spots, Locate, Right, FileExtent.At, FileExtent.Covers, PlacesApart;
    var m := SpotReads(Marked(size, -1), es, unit, offset, length, p);
    var s := Spots(es, unit, offset, offset + length, |es|)[p];
    var again := SpotReads(Marked(size, es[s.extent].At(unit, s.at)), es, unit, offset, length, p);
    OnePlace(es, unit, s.extent, s.at, again, offset + p);
  }

  /**
   A region read that goes through returns the bytes its extents map, whatever
   the image holds, exactly when the parts of the range that the extents hold
   stand in order, where no block of the image belongs to two extents.
   */
  lemma {:induction false} RightIff(image: seq<byte>, es: seq<FileExtent>, unit: nat, offset: nat, length: nat)
    requires length > 0 && ReadGoes(image, es, unit, offset, length) && PlacesApart(es)
    ensures (forall other: seq<byte> :: |other| == |image| ==> Right(other, es, unit, offset, length))
      <==> InOrder(es, unit, offset, offset + length)
  {
    hide Right, InOrder, PlacesApart, ReadGoes;
    if InOrder(es, unit, offset, offset + length) {
      forall other: seq<byte> | |other| == |image| ensures Right(other, es, unit, offset, length) {
        GoesAlike(image, other, es, unit, offset, length);
        OrderIsRight(other, es, unit, offset, length);
      }
    }
    if forall other: seq<byte> :: |other| == |image| ==> Right(other, es, unit, offset, length) {
      var ss := Spots(es, unit, offset, offset + length, |es|);
      forall p: nat | p < length ensures |ss| == length && ss[p].at == offset + p {
        RightIsOrder(|image|, es, unit, offset, length, p);
      }
      RightIsOrder(|image|, es, unit, offset, length, 0);
      RisesInOrder(es, unit, offset, offset + length);
    }
  }
}
