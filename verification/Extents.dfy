/**
 From a cluster chain to coalesced extents to bytes. An extent list is read as
 a partial function from logical to physical positions, in any unit: `Locate`.
 */
module Extents {
  import opened Common

  datatype FileExtent = FileExtent(virtualBlockStart: nat, physicalLba: int, blockCount: nat) {
    /** The extent covers logical position `x`, counting `unit` positions to a block. */
    predicate Covers(unit: nat, x: int) {
      virtualBlockStart * unit <= x < (virtualBlockStart + blockCount) * unit
    }

    function At(unit: nat, x: int): int {
      physicalLba * unit + (x - virtualBlockStart * unit)
    }
  }

  /** Where the first extent that covers `x` puts it. */
  function Locate(es: seq<FileExtent>, unit: nat, x: int): Option<int> {
    if es == [] then None
    else if es[0].Covers(unit, x) then Some(es[0].At(unit, x))
    else Locate(es[1..], unit, x)
  }

  /** Extents in logical order that do not overlap; there may be holes between them. */
  ghost predicate Ascending(es: seq<FileExtent>) {
    forall i, j :: 0 <= i < j < |es| ==> es[i].virtualBlockStart + es[i].blockCount <= es[j].virtualBlockStart
  }

  /** Non-empty extents laid end to end over the logical blocks `0..n`. */
  ghost predicate Tiles(es: seq<FileExtent>, n: nat) {
    && (forall i :: 0 <= i < |es| ==> es[i].blockCount > 0)
    && (es != [] ==> es[0].virtualBlockStart == 0)
    && (forall i :: 0 < i < |es| ==> es[i].virtualBlockStart == es[i - 1].virtualBlockStart + es[i - 1].blockCount)
    && n == if es == [] then 0 else es[|es| - 1].virtualBlockStart + es[|es| - 1].blockCount
  }

  /** No two neighbours could be one extent. */
  ghost predicate Coalesced(es: seq<FileExtent>) {
    forall i :: 0 <= i < |es| - 1 ==>
      !(es[i].virtualBlockStart + es[i].blockCount == es[i + 1].virtualBlockStart
        && es[i].physicalLba + es[i].blockCount == es[i + 1].physicalLba)
  }

  // ----- lookup -----

  lemma {:induction false} LocateAt(es: seq<FileExtent>, unit: nat, x: int, i: nat)
    requires i < |es| && es[i].Covers(unit, x)
    requires forall j :: 0 <= j < i ==> !es[j].Covers(unit, x)
    ensures Locate(es, unit, x) == Some(es[i].At(unit, x))
  {
    if i > 0 {
      assert !es[0].Covers(unit, x);
      LocateAt(es[1..], unit, x, i - 1);
    }
  }

  lemma {:induction false} LocateNone(es: seq<FileExtent>, unit: nat, x: int)
    requires forall j :: 0 <= j < |es| ==> !es[j].Covers(unit, x)
    ensures Locate(es, unit, x) == None
  {
    if es != [] {
      assert !es[0].Covers(unit, x);
      LocateNone(es[1..], unit, x);
    }
  }

  lemma {:induction false} Located(es: seq<FileExtent>, unit: nat, x: int) returns (i: nat)
    requires Locate(es, unit, x).Some?
    ensures i < |es| && es[i].Covers(unit, x) && Locate(es, unit, x) == Some(es[i].At(unit, x))
    ensures forall j :: 0 <= j < i ==> !es[j].Covers(unit, x)
  {
    if es[0].Covers(unit, x) {
      i := 0;
    } else {
      i := Located(es[1..], unit, x);
      i := i + 1;
    }
  }

  /** In an ascending list at most one extent covers a position. */
  lemma {:induction false} AscendingAt(es: seq<FileExtent>, unit: nat, x: int, i: nat)
    requires Ascending(es) && i < |es| && es[i].Covers(unit, x)
    ensures Locate(es, unit, x) == Some(es[i].At(unit, x))
    ensures forall j :: 0 <= j < |es| && j != i ==> !es[j].Covers(unit, x)
  {
    forall j | 0 <= j < |es| && j != i ensures !es[j].Covers(unit, x) {
      if j < i {
        MulMonotone(es[j].virtualBlockStart + es[j].blockCount, es[i].virtualBlockStart, unit);
      } else {
        MulMonotone(es[i].virtualBlockStart + es[i].blockCount, es[j].virtualBlockStart, unit);
      }
    }
    LocateAt(es, unit, x, i);
  }

  lemma {:induction false} TilesAscend(es: seq<FileExtent>, n: nat)
    requires Tiles(es, n)
    ensures Ascending(es)
    ensures forall i :: 0 <= i < |es| ==> es[i].virtualBlockStart + es[i].blockCount <= n
  {
    forall i, j | 0 <= i < j < |es|
      ensures es[i].virtualBlockStart + es[i].blockCount <= es[j].virtualBlockStart
    {
      TileOrder(es, n, i, j);
    }
    forall i | 0 <= i < |es| ensures es[i].virtualBlockStart + es[i].blockCount <= n {
      if i < |es| - 1 { TileOrder(es, n, i, |es| - 1); }
    }
  }

  lemma {:induction false} TileOrder(es: seq<FileExtent>, n: nat, i: nat, j: nat)
    requires Tiles(es, n) && i < j < |es|
    ensures es[i].virtualBlockStart + es[i].blockCount <= es[j].virtualBlockStart
    decreases j
  {
    if i < j - 1 { TileOrder(es, n, i, j - 1); }
  }

  lemma {:induction false} TilesFront(es: seq<FileExtent>, n: nat)
    requires Tiles(es, n) && es != []
    ensures Tiles(es[..|es| - 1], es[|es| - 1].virtualBlockStart)
  {
    var n' := |es| - 1;
    if n' > 0 {
      assert es[n'].virtualBlockStart == es[n' - 1].virtualBlockStart + es[n' - 1].blockCount;
    }
  }

  /** A tiling covers every position below its end. */
  lemma {:induction false} TilesCover(es: seq<FileExtent>, n: nat, unit: nat, x: nat) returns (i: nat)
    requires Tiles(es, n) && x < n * unit
    ensures i < |es| && es[i].Covers(unit, x)
  {
    var last := |es| - 1;
    if es[last].virtualBlockStart * unit <= x {
      i := last;
    } else {
      var front := es[..last];
      TilesFront(es, n);
      i := TilesCover(front, es[last].virtualBlockStart, unit, x);
    }
  }

  // ----- growing a list -----

  /** The lookup of a list that has been given `e` as well. */
  function Extended(es: seq<FileExtent>, e: FileExtent, x: int): Option<int> {
    if Locate(es, 1, x).Some? then Locate(es, 1, x)
    else if e.Covers(1, x) then Some(e.At(1, x))
    else None
  }

  /** `es'` is `es` with the blocks of `e` added, still a tiling and still coalesced if `es` was. */
  ghost predicate AppendsTo(es: seq<FileExtent>, e: FileExtent, es': seq<FileExtent>) {
    && (forall x :: Locate(es', 1, x) == Extended(es, e, x))
    && (Tiles(es, e.virtualBlockStart) ==> Tiles(es', e.virtualBlockStart + e.blockCount))
    && (Coalesced(es) ==> Coalesced(es'))
  }

  class ExtentList {
    var extents: seq<FileExtent>

    constructor ()
      ensures extents == []
    {
      extents := [];
    }

    /**
     append_extent: lengthen the last extent when the new one continues it,
     logically and physically, and add a new one otherwise.
     */
    method Append(virtualBlock: nat, physicalLba: int, blockCount: nat)
      modifies this
      ensures AppendsTo(old(extents), FileExtent(virtualBlock, physicalLba, blockCount), extents)
    {
      ghost var es := extents;
      if blockCount == 0 {
        NothingAdded(es, FileExtent(virtualBlock, physicalLba, 0));
        return;
      }
      if extents != [] {
        var n := |extents| - 1;
        var last := extents[n];
        if last.virtualBlockStart + last.blockCount == virtualBlock
          && last.physicalLba + last.blockCount == physicalLba {
          extents := extents[n := last.(blockCount := last.blockCount + blockCount)];
          LastGrown(es, blockCount);
          return;
        }
      }
      extents := extents + [FileExtent(virtualBlock, physicalLba, blockCount)];
      OneAdded(es, FileExtent(virtualBlock, physicalLba, blockCount));
    }
  }

  lemma {:induction false} NothingAdded(es: seq<FileExtent>, e: FileExtent)
    requires e.blockCount == 0
    ensures AppendsTo(es, e, es)
  {
    forall x ensures Locate(es, 1, x) == Extended(es, e, x) { assert !e.Covers(1, x); }
  }

  lemma {:induction false} LocateSplit(a: seq<FileExtent>, b: FileExtent, x: int)
    ensures Locate(a + [b], 1, x) == Extended(a, b, x)
  {
    if a == [] {
      assert a + [b] == [b] && [b][1..] == [];
    } else {
      LocateSplit(a[1..], b, x);
      assert (a + [b])[1..] == a[1..] + [b];
    }
  }

  lemma {:induction false} OneAdded(es: seq<FileExtent>, e: FileExtent)
    requires e.blockCount > 0
    requires es != [] ==> var l := es[|es| - 1];
      !(l.virtualBlockStart + l.blockCount == e.virtualBlockStart && l.physicalLba + l.blockCount == e.physicalLba)
    ensures AppendsTo(es, e, es + [e])
  {
    forall x ensures Locate(es + [e], 1, x) == Extended(es, e, x) { LocateSplit(es, e, x); }
  }

  lemma {:induction false} LastGrown(es: seq<FileExtent>, more: nat)
    requires es != [] && more > 0
    ensures var e := es[|es| - 1];
            AppendsTo(es, FileExtent(e.virtualBlockStart + e.blockCount, e.physicalLba + e.blockCount, more),
                      es[|es| - 1 := e.(blockCount := e.blockCount + more)])
  {
    var n := |es| - 1;
    var e := es[n];
    var longer := e.(blockCount := e.blockCount + more);
    var grown := es[n := longer];
    var added := FileExtent(e.virtualBlockStart + e.blockCount, e.physicalLba + e.blockCount, more);
    assert es == es[..n] + [e] && grown == es[..n] + [longer];
    forall x ensures Locate(grown, 1, x) == Extended(es, added, x) {
      LocateSplit(es[..n], e, x);
      LocateSplit(es[..n], longer, x);
    }
  }
}
