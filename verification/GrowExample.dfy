/**
 Small disks that the growth theorems speak of: 400 sectors, two partitions, an
 exFAT volume of 36 clusters with its bitmap, up-case table and label. The
 usual one grows and is accepted by the independent reader. The others differ
 from it in one thing each, grow as well, and are refused.
 */
module GrowExample {
  import opened Common
  import opened Bytes
  import opened ClusterFiles
  import opened GrowPlan
  import opened GrowLayout
  import opened GrowExfat
  import opened GrowTheorems
  import opened RegionReads
  import opened ExfatReader
  import opened GrowReader

  /**
   `Split`: the root directory has two clusters, and an end mark in the first
   stands before the entries in the other. `Spare`: the bitmap has a second
   cluster to grow into. `TwoFats`: the boot sector claims two FATs.
   */
  datatype Shape = Usual | Split | Spare | TwoFats

  const SIZE: nat := 204800
  const BOOT: nat := 20480

  /** A checksum that is always zero, and names told by their first byte. */
  function Names(): Env {
    Env(_ => 0, (name: seq<byte>) => if name == [] then "" else if name[0] == 1 then EFI_NAME else DATA_NAME)
  }

  function HeadByte(x: nat): byte {
    match x
    case 450 => 0xEE case 510 => 0x55 case 511 => 0xAA
    case 512 => 0x45 case 513 => 0x46 case 514 => 0x49 case 515 => 0x20
    case 516 => 0x50 case 517 => 0x41 case 518 => 0x52 case 519 => 0x54
    case 524 => 92 case 536 => 1 case 552 => 3 case 584 => 2 case 592 => 2 case 596 => 128
    case _ => 0
  }

  function SlotByte(x: nat): byte {
    match x
    case 1024 => 1 case 1056 => 3 case 1064 => 39 case 1080 => 1
    case 1152 => 1 case 1184 => 40 case 1192 => 205 case 1208 => 2
    case _ => 0
  }

  function VolumeByte(shape: Shape, x: nat): byte {
    match x
    case 0 => 0xEB case 1 => 0x76 case 2 => 0x90
    case 3 => 0x45 case 4 => 0x58 case 5 => 0x46 case 6 => 0x41 case 7 => 0x54
    case 8 => 0x20 case 9 => 0x20 case 10 => 0x20
    case 64 => 40 case 72 => 166 case 80 => 128 case 84 => 2 case 88 => 130 case 92 => 36 case 96 => 2
    case 108 => 9 case 110 => if shape.TwoFats? then 2 else 1
    case 510 => 0x55 case 511 => 0xAA
    case _ => if 120 <= x < 510 then 0xF4 else 0
  }

  /** The boot sector, and the extended ones with their marks. */
  function RegionByte(shape: Shape, x: nat): byte {
    if x < 512 then VolumeByte(shape, x)
    else if x >= 4608 then 0
    else if x % 512 == 510 then 0x55
    else if x % 512 == 511 then 0xAA
    else 0
  }

  const EOC: nat := 0xFFFF_FFFF

  /** The FAT: the root directory from cluster 2, the bitmap from 3, the up-case table from 5. */
  function FatValue(shape: Shape, c: nat): nat {
    if c == 2 then (if shape.Split? then 4 else EOC)
    else if c == 3 then (if shape.Spare? then 4 else EOC)
    else if 5 <= c < 16 then c + 1
    else EOC
  }

  function FatByte(shape: Shape, x: nat): byte {
    var v := FatValue(shape, x / 4);
    if v == EOC then 0xFF else if x % 4 == 0 && v < 0x100 then v as byte else 0
  }

  /** The entries of the bitmap, the up-case table and the label. */
  function EntryByte(x: int): byte {
    match x
    case 0 => 0x81 case 20 => 3 case 24 => 5
    case 32 => 0x82 case 36 => 0x0D case 37 => 0xD3 case 38 => 0x19 case 39 => 0xE6 case 52 => 5
    case 56 => 0xCC case 57 => 0x16
    case 64 => 0x83
    case _ => 0
  }

  /** The cluster that holds them starts here. */
  function EntryPlace(shape: Shape): nat { if shape.Split? then 88064 else 87040 }

  function ByteAt(shape: Shape, x: nat): byte {
    if x < 1024 then HeadByte(x)
    else if x < 1280 then SlotByte(x)
    else if x < BOOT then 0
    else if x < BOOT + 6144 then RegionByte(shape, x - BOOT)
    else if 86016 <= x < 87040 then FatByte(shape, x - 86016)
    else EntryByte(x - EntryPlace(shape))
  }

  function Disk(shape: Shape): (d: seq<byte>)
    ensures |d| == SIZE && forall x :: 0 <= x < SIZE ==> d[x] == ByteAt(shape, x)
  {
    seq(SIZE, x requires 0 <= x < SIZE => ByteAt(shape, x))
  }

  const EFI: Part := Part(0, 3, 39, EFI_NAME)
  const DATA: Part := Part(1, 40, 205, DATA_NAME)

  lemma {:induction false} HeaderStands(shape: Shape)
    ensures PrimaryOk(Names(), Disk(shape), 512)
    ensures var h := Disk(shape)[512..1024];
      U64(h, 40) == 3 && U64(h, 72) == 2 && U32(h, 80) == 2 && U32(h, 84) == 128 && U32(h, 88) == 0
  {
    var d := Disk(shape);
    hide Disk;
    var h := d[512..1024];
    assert forall x :: 0 <= x < 512 ==> h[x] == HeadByte(512 + x);
    assert h[..8] == GPT_SIGNATURE;
  }

  // ----- the table -----

  lemma {:induction false} SlotStands(slot: seq<byte>, at: nat)
    requires |slot| == 128 && at in {1024, 1152} && forall x :: 0 <= x < 128 ==> slot[x] == SlotByte(at + x)
    ensures slot[..16] != Zeros(16)
    ensures U64(slot, 32) == (if at == 1024 then 3 else 40) && U64(slot, 40) == (if at == 1024 then 39 else 205)
    ensures slot[56..128][0] == if at == 1024 then 1 else 2
  {
    assert slot[..16][0] != Zeros(16)[0];
  }

  lemma {:induction false} SlotsStand(shape: Shape)
    ensures var e := Disk(shape)[1024..1280];
      && PartAt(Names(), e, 128, 0) == Some(EFI) && PartAt(Names(), e, 128, 1) == Some(DATA)
      && U64(Entry(e, 128, 0), 32) == 3 && U64(Entry(e, 128, 0), 40) == 39
      && U64(Entry(e, 128, 1), 32) == 40 && U64(Entry(e, 128, 1), 40) == 205
  {
    var d := Disk(shape);
    hide Disk, HeadByte, SlotByte, RegionByte, FatByte, EntryByte, U64;
    var e := d[1024..1280];
    var a, b := Entry(e, 128, 0), Entry(e, 128, 1);
    forall x | 0 <= x < 128 ensures a[x] == SlotByte(1024 + x) && b[x] == SlotByte(1152 + x) {
      assert a[x] == e[x] && b[x] == e[128 + x];
      assert e[x] == d[1024 + x] && e[128 + x] == d[1152 + x];
    }
    hide Entry, ByteAt;
    SlotStands(a, 1024);
    SlotStands(b, 1152);
  }

  function TheTable(shape: Shape): Table { Table(1024, 2, 128, Disk(shape)[1024..1280]) }

  lemma {:induction false} TwoParts(e: seq<byte>)
    requires |e| == 256 && PartAt(Names(), e, 128, 0) == Some(EFI) && PartAt(Names(), e, 128, 1) == Some(DATA)
    ensures Parts(Names(), e, 128, 2) == [EFI, DATA]
  {
    hide PartAt;
    assert Parts(Names(), e, 128, 0) == [];
    assert Parts(Names(), e, 128, 1) == [EFI];
  }

  lemma {:induction false} TheyAreNamed()
    ensures FirstNamed([EFI, DATA], DATA_NAME) == Some(DATA) && FirstNamed([EFI, DATA], EFI_NAME) == Some(EFI)
  {
    assert [EFI, DATA][1..] == [DATA];
    assert EFI_NAME[8] != DATA_NAME[8];
  }

  lemma {:induction false} TableStands(shape: Shape)
    ensures ReadTable(Names(), Disk(shape), 512) == Some(TheTable(shape))
    ensures TableShape(TheTable(shape)) && DataPart(Names(), TheTable(shape)) == Some(DATA)
  {
    hide HeadByte, SlotByte, ByteAt, Disk, PartAt, PrimaryOk, FirstNamed, Parts, U32, U64;
    HeaderStands(shape);
    SlotsStand(shape);
    TwoParts(Disk(shape)[1024..1280]);
    TheyAreNamed();
  }

  lemma {:induction false} LayoutStands(shape: Shape)
    ensures StandardLayout(Names(), Disk(shape), 512)
  {
    hide HeadByte, SlotByte, RegionByte, FatByte, EntryByte, ByteAt, Disk, PrimaryOk, ReadTable, DataPart, PartAt,
      U32, U64;
    hide VolumeLaid;
    HeaderStands(shape);
    TableStands(shape);
    SlotsStand(shape);
    RegionStands(shape);
    var d, t := Disk(shape), TheTable(shape);
    forall i | 0 <= i < 2 ensures SlotLaid(t, 3, DATA, i) {
      assert i == 0 || i == 1;
    }
  }

  // ----- the volume -----

  lemma {:induction false} PowersStand()
    ensures Pow2(0) == 1 && Pow2(9) == 512
  {
    assert Pow2(3) == 8;
    assert Pow2(6) == 64;
  }

  lemma {:induction false} SmallField(d: seq<byte>, o: nat)
    requires o + 4 <= |d| && d[o + 1] == 0 && d[o + 2] == 0 && d[o + 3] == 0
    ensures U32(d, o) == d[o] as nat
    ensures o + 8 <= |d| && d[o + 4] == 0 && d[o + 5] == 0 && d[o + 6] == 0 && d[o + 7] == 0 ==>
      U64(d, o) == d[o] as nat
  {
  }

  lemma {:induction false} FieldsStand(shape: Shape, r: seq<byte>)
    requires |r| >= 512 && forall x :: 0 <= x < 512 ==> r[x] == VolumeByte(shape, x)
    ensures U64(r, 64) == 40 && U64(r, 72) == 166 && U32(r, 80) == 128 && U32(r, 84) == 2
    ensures U32(r, 88) == 130 && U32(r, 92) == 36 && U32(r, 96) == 2 && r[108] == 9 && r[109] == 0
  {
    hide U32, U64;
    SmallField(r, 64);
    SmallField(r, 72);
    SmallField(r, 80);
    SmallField(r, 84);
    SmallField(r, 88);
    SmallField(r, 92);
    SmallField(r, 96);
  }

  lemma {:induction false} MarksStand(shape: Shape, r: seq<byte>)
    requires |r| >= 512 && forall x :: 0 <= x < 512 ==> r[x] == VolumeByte(shape, x)
    ensures r[..3] == EXFAT_JUMP && r[3..11] == EXFAT_MARK
  {
  }

  lemma {:induction false} RegionBytes(shape: Shape)
    ensures forall x :: 0 <= x < 6144 ==> BootRegion(Disk(shape), 512, 40)[x] == RegionByte(shape, x)
    ensures forall x :: 0 <= x < 512 ==> BootRegion(Disk(shape), 512, 40)[x] == VolumeByte(shape, x)
  {
    hide Disk, HeadByte, SlotByte, VolumeByte, FatByte, EntryByte;
    var d, r := Disk(shape), BootRegion(Disk(shape), 512, 40);
    forall x | 0 <= x < 6144 ensures r[x] == RegionByte(shape, x) { assert r[x] == d[BOOT + x]; }
  }

  lemma {:induction false} RegionStands(shape: Shape)
    ensures var r := BootRegion(Disk(shape), 512, 40);
      && BootOk(r, 512, 40) && GeometryOf(r) == Geometry(2, 130, 166, 36, 1) && VolumeLaid(r)
      && U32(r, 80) == 128 && U32(r, 84) == 2 && U32(r, 88) == 130 && U32(r, 92) == 36
      && U32(r, 96) == 2 && r[109] == 0
  {
    PowersStand();
    var d := Disk(shape);
    hide Disk, Pow2, HeadByte, SlotByte, RegionByte, FatByte, EntryByte, U32, U64;
    var r := BootRegion(d, 512, 40);
    RegionBytes(shape);
    FieldsStand(shape, r);
    MarksStand(shape, r);
  }

  function TheVolume(shape: Shape): Volume { VolumeOf(Disk(shape), 512, 40, BootRegion(Disk(shape), 512, 40), 36) }

  lemma {:induction false} FatStands(shape: Shape)
    ensures forall c: nat :: c < 38 ==> U32(Disk(shape), 86016 + c * 4) == FatValue(shape, c)
  {
    var d := Disk(shape);
    hide Disk, HeadByte, SlotByte, RegionByte, EntryByte;
    forall c: nat | c < 38 ensures U32(d, 86016 + c * 4) == FatValue(shape, c) {
      var x := c * 4;
      assert x / 4 == c && (x + 1) / 4 == c && (x + 2) / 4 == c && (x + 3) / 4 == c;
      assert x % 4 == 0 && (x + 1) % 4 == 1 && (x + 2) % 4 == 2 && (x + 3) % 4 == 3;
      FatWord(d, 86016 + x, FatValue(shape, c));
    }
  }

  lemma {:induction false} FatWord(d: seq<byte>, o: nat, v: nat)
    requires o + 4 <= |d| && (v == EOC || v < 0x100)
    requires if v == EOC then d[o] == 0xFF && d[o + 1] == 0xFF && d[o + 2] == 0xFF && d[o + 3] == 0xFF
      else d[o] as nat == v && d[o + 1] == 0 && d[o + 2] == 0 && d[o + 3] == 0
    ensures U32(d, o) == v
  {
  }

  lemma {:induction false} EntriesStand(shape: Shape)
    ensures var d, at := Disk(shape), EntryPlace(shape);
      && (forall x: nat :: x < 512 ==> d[at + x] == EntryByte(x))
      && U32(d, at + 20) == 3 && U64(d, at + 24) == 5 && U32(d, at + 36) == UPCASE_SUM
      && U32(d, at + 52) == 5 && U64(d, at + 56) == UPCASE_SIZE
  {
    var d, at := Disk(shape), EntryPlace(shape);
    hide Disk, HeadByte, SlotByte, RegionByte, FatByte;
    forall x: nat | x < 512 ensures d[at + x] == EntryByte(x) { }
    hide ByteAt, EntryPlace;
  }

  lemma {:induction false} VolumeStands(shape: Shape)
    ensures var vol := TheVolume(shape);
      && vol.sectorSize == 512 && vol.sectorsPerCluster == 1 && vol.heapLba == 170 && vol.limit == 38
      && vol.endMark == END_OF_CHAIN
      && forall c: nat :: c < 38 ==> c in vol.fat && vol.fat[c] == FatValue(shape, c)
  {
    hide HeadByte, SlotByte, RegionByte, FatByte, EntryByte, ByteAt, Disk, U32, U64, Pow2, BootOk, GeometryOf;
    hide VolumeLaid, FatValue;
    PowersStand();
    RegionStands(shape);
    FatStands(shape);
  }

  /** A cluster whose entry ends its chain is its own chain. */
  lemma {:induction false} OwnChain(vol: Volume, c: nat)
    requires 2 <= c < vol.limit && c in vol.fat && vol.fat[c] >= vol.endMark
    ensures ChainOf(vol, c) == Some([c])
  {
    assert IsChain(vol, c, [c]);
    SameChain(vol, c, [c], ChainOf(vol, c).value);
  }

  lemma {:induction false} PairChain(vol: Volume, c: nat, e: nat)
    requires 2 <= c < vol.limit && c in vol.fat && vol.fat[c] == e && e < vol.endMark
    requires 2 <= e < vol.limit && e in vol.fat && vol.fat[e] >= vol.endMark && c != e
    ensures ChainOf(vol, c) == Some([c, e])
  {
    assert Follows(vol, c, e);
    assert IsChain(vol, c, [c, e]);
    SameChain(vol, c, [c, e], ChainOf(vol, c).value);
  }

  function RootChain(shape: Shape): seq<nat> { if shape.Split? then [2, 4] else [2] }

  function BitmapChain(shape: Shape): seq<nat> { if shape.Spare? then [3, 4] else [3] }

  lemma {:induction false} RootStands(shape: Shape)
    ensures ChainOf(TheVolume(shape), 2) == Some(RootChain(shape))
    ensures ChainOf(TheVolume(shape), 3) == Some(BitmapChain(shape))
  {
    hide TheVolume, ChainOf;
    VolumeStands(shape);
    if shape.Spare? { PairChain(TheVolume(shape), 3, 4); } else { OwnChain(TheVolume(shape), 3); }
    if shape.Split? { PairChain(TheVolume(shape), 2, 4); } else { OwnChain(TheVolume(shape), 2); }
  }

  /** The cluster with the entries, read on its own. */
  lemma {:induction false} EntryStands(shape: Shape)
    ensures FindBitmap(Disk(shape), TheVolume(shape), [if shape.Split? then 4 else 2]) == At(EntryPlace(shape), 3)
  {
    hide HeadByte, SlotByte, RegionByte, FatByte, ByteAt, FatValue, U32, U64, TheVolume, Disk;
    VolumeStands(shape);
    EntriesStand(shape);
    var at := EntryPlace(shape);
    var dir := Disk(shape)[at..at + 512];
    assert dir[0] == EntryByte(0) && dir[32] == EntryByte(32) && dir[64] == EntryByte(64) && dir[96] == EntryByte(96);
    assert ScanDirectory(dir, 96, Some(0)) == One(0);
    assert ScanDirectory(dir, 64, Some(0)) == One(0);
    assert ScanDirectory(dir, 32, Some(0)) == One(0);
    assert ScanDirectory(dir, 0, None) == One(0);
  }

  lemma {:induction false} FirstIsEnd()
    ensures Disk(Split)[87040] == 0
  {
    hide Disk;
  }

  lemma {:induction false} DirectoryStands(shape: Shape)
    ensures FindBitmap(Disk(shape), TheVolume(shape), RootChain(shape)) == At(EntryPlace(shape), 3)
  {
    hide HeadByte, SlotByte, RegionByte, FatByte, EntryByte, ByteAt, FatValue, U32, U64, TheVolume, Disk;
    VolumeStands(shape);
    EntryStands(shape);
    if shape.Split? {
      FirstIsEnd();
      var dir := Disk(shape)[87040..87552];
      assert dir[0] == 0;
      assert ScanDirectory(dir, 0, None) == Nothing;
      assert RootChain(shape)[1..] == [4];
    }
  }

  lemma {:induction false} BitmapStands(shape: Shape, count: nat)
    requires 36 <= count < 4096
    ensures PlanBitmap(Disk(shape), TheVolume(shape), 2, 36, count).Some?
  {
    hide HeadByte, SlotByte, RegionByte, FatByte, EntryByte, ByteAt, FatValue, Disk, U32, U64, TheVolume, ChainOf;
    hide FindBitmap;
    VolumeStands(shape);
    EntriesStand(shape);
    RootStands(shape);
    DirectoryStands(shape);
    assert CeilDiv(36, 8) == 5 && CeilDiv(count, 8) <= 512;
  }

  lemma {:induction false} BootStands(shape: Shape)
    ensures PlanBoot(Disk(shape), 512, 40, 358).Some? && PlanBoot(Disk(shape), 512, 40, 358).value.grown == 358
    ensures PlanBoot(Disk(shape), 512, 40, 358).value.newCount == 228
  {
    hide HeadByte, SlotByte, RegionByte, FatByte, EntryByte, ByteAt, Disk, U32, U64, VolumeOf, PlanBitmap, BootOk;
    hide GeometryOf, VolumeLaid, Pow2;
    RegionStands(shape);
    BitmapStands(shape, 228);
    var g := Geometry(2, 130, 166, 36, 1);
    assert Capacity(g, 512) == 254;
    assert LengthsOk(g, 512, 358) && GrownBlocks(g, 512, 358) == 358 && GrownCount(g, 512, 358) == 228;
  }

  /** The theorems about growth are not empty: these disks are laid out by the standards, and grow. */
  lemma {:induction false} ExampleGrows(shape: Shape)
    ensures StandardLayout(Names(), Disk(shape), 512)
    ensures Plan(Names(), Disk(shape), 512, SIZE).Grow? && Plan(Names(), Disk(shape), 512, SIZE).grown == 358
  {
    hide HeadByte, SlotByte, RegionByte, FatByte, EntryByte, ByteAt, Disk, PrimaryOk, ReadTable, DataPart, PlanBoot,
      Patches;
    hide StandardLayout, Laid, U64;
    LayoutStands(shape);
    TableStands(shape);
    BootStands(shape);
    assert CeilDiv(256, 512) == 1;
  }

  // ----- the reader -----

  function Seen(shape: Shape): Volume { ReaderVolume(Disk(shape), 512, 40, BootRegion(Disk(shape), 512, 40)) }

  lemma {:induction false} ReaderStands(shape: Shape)
    ensures var vol := Seen(shape);
      && vol.sectorSize == 512 && vol.sectorsPerCluster == 1 && vol.heapLba == 170 && vol.limit == 38
      && vol.endMark == END_OF_CHAIN
      && forall c: nat :: c < 38 ==> c in vol.fat && vol.fat[c] == FatValue(shape, c)
  {
    hide HeadByte, SlotByte, RegionByte, FatByte, EntryByte, ByteAt, Disk, U32, U64, Pow2, BootOk, GeometryOf;
    hide VolumeLaid, FatValue;
    PowersStand();
    RegionStands(shape);
    FatStands(shape);
  }

  lemma {:induction false} FieldsFixed(shape: Shape)
    ensures FixedFieldsOk(BootRegion(Disk(shape), 512, 40), 512) <==> !shape.TwoFats?
  {
    PowersStand();
    RegionStands(shape);
    RegionBytes(shape);
    hide Disk, Pow2, BootOk, GeometryOf, VolumeLaid, U32, BootRegion;
    var r := BootRegion(Disk(shape), 512, 40);
    assert r[510] == 0x55 && r[511] == 0xAA && (r[110] == 1 <==> !shape.TwoFats?);
    assert forall x :: 120 <= x < 510 ==> r[x] == 0xF4;
    forall x | 512 <= x < 4608 && x % 512 >= 508
      ensures r[x] == (if x % 512 == 510 then 0x55 else if x % 512 == 511 then 0xAA else 0)
    {
      assert r[x] == RegionByte(shape, x);
    }
  }

  predicate Entries(dir: seq<byte>) { |dir| == 512 && forall x :: 0 <= x < 512 ==> dir[x] == EntryByte(x) }

  /** The one cluster of the root directory, unless it has two. */
  lemma {:induction false} RootIs(shape: Shape, root: seq<nat>, dir: seq<byte>)
    requires !shape.Split? && ChainHolds(Disk(shape), Seen(shape), 2, root, dir)
    ensures root == [2] && Entries(dir)
  {
    RootReads(shape);
    hide ByteAt, EntryByte, Seen, Disk, Content, InImage;
    SameChain(Seen(shape), 2, root, [2]);
  }

  lemma {:induction false} RootReads(shape: Shape)
    requires !shape.Split?
    ensures IsChain(Seen(shape), 2, [2]) && InImage(Disk(shape), Seen(shape), 2)
    ensures ChainHolds(Disk(shape), Seen(shape), 2, [2], Content(Disk(shape), Seen(shape), [2]))
    ensures Entries(Content(Disk(shape), Seen(shape), [2]))
  {
    ReaderStands(shape);
    EntriesStand(shape);
    hide Seen, Disk, EntryByte, ByteAt, U32, U64;
    var d, vol := Disk(shape), Seen(shape);
    assert vol.fat[2] == EOC;
    assert InImage(d, vol, 2);
    var dir := Content(d, vol, [2]);
    forall x | 0 <= x < 512 ensures dir[x] == EntryByte(x) {
      ContentAt(d, vol, [2], 0, x);
      assert d[EntryPlace(shape) + x] == EntryByte(x);
    }
  }

  /** What the reader finds in the entries. */
  lemma {:induction false} EntriesAre(dir: seq<byte>)
    requires Entries(dir)
    ensures FirstOf(dir, 0x81, 0) && FirstOf(dir, 0x82, 1) && FirstOf(dir, 0x83, 2)
    ensures U32(dir, 20) == 3 && U64(dir, 24) == 5
    ensures U32(dir, 36) == UPCASE_SUM && U32(dir, 52) == 5 && U64(dir, 56) == UPCASE_SIZE
  {
    assert dir[32 * 0] == 0x81 && dir[32 * 1] == 0x82 && dir[32 * 2] == 0x83;
  }

  lemma {:induction false} FirstUnique(dir: seq<byte>, kind: byte, a: nat, b: nat)
    requires FirstOf(dir, kind, a) && FirstOf(dir, kind, b)
    ensures a == b
  {
  }

  lemma {:induction false} BitmapChained(shape: Shape)
    ensures IsChain(Seen(shape), 3, BitmapChain(shape))
  {
    ReaderStands(shape);
    hide Seen;
    var vol := Seen(shape);
    assert vol.fat[3] == FatValue(shape, 3) && vol.fat[4] == EOC;
    if shape.Spare? { assert Follows(vol, 3, 4); }
  }

  lemma {:induction false} BitmapReads(shape: Shape, dir: seq<byte>)
    requires Entries(dir)
    ensures VolumeShape(Seen(shape)) && (ChainExact(Seen(shape), dir, 0, 228) <==> !shape.Spare?)
  {
    hide Seen, Entries, EntryByte, FatValue, U32, U64, FirstOf, IsChain;
    ReaderStands(shape);
    EntriesAre(dir);
    BitmapChained(shape);
    assert CeilDiv(CeilDiv(228, 8), 512) == 1;
    OneChain(Seen(shape), 3, BitmapChain(shape), 1);
  }

  /** The clusters of the up-case table. */
  function TableChain(): seq<nat> { seq(12, i => 5 + i) }

  lemma {:induction false} TableReads(shape: Shape, dir: seq<byte>)
    requires Entries(dir)
    ensures UpcaseEntryOk(_ => true, Disk(shape), Seen(shape), dir, 1, TableChain())
  {
    hide Seen, Entries, EntryByte, U32, U64, FirstOf, Disk, ByteAt, Pow2;
    ReaderStands(shape);
    EntriesAre(dir);
    var d, vol, c := Disk(shape), Seen(shape), TableChain();
    forall i | 0 < i < 12 ensures Follows(vol, c[i - 1], c[i]) { assert vol.fat[c[i - 1]] == FatValue(shape, 4 + i); }
    assert vol.fat[16] == EOC;
    assert IsChain(vol, 5, c);
    forall i | 0 <= i < 12 ensures InImage(d, vol, c[i]) { }
    hide IsChain, InImage, Content;
    assert ChainHolds(d, vol, 5, c, Content(d, vol, c));
  }

  lemma {:induction false} UsualFits()
    ensures VolumeFits(_ => true, Disk(Usual), 512, 40, 228, [2], TableChain())
  {
    hide FirstOf, ChainHolds, ChainExact, UpcaseEntryOk, TableChain, Disk, ByteAt, FixedFieldsOk, Content, ReaderFat;
    hide InImage, IsChain, EntryByte, U32, U64, BootOk, VolumeLaid, Pow2, GeometryOf;
    FieldsFixed(Usual);
    RegionStands(Usual);
    RootReads(Usual);
    var dir := Content(Disk(Usual), Seen(Usual), [2]);
    EntriesAre(dir);
    BitmapReads(Usual, dir);
    TableReads(Usual, dir);
    assert RootFits(_ => true, Disk(Usual), Seen(Usual), 2, 228, [2], TableChain());
  }

  lemma {:induction false} SpareMisfits(upcase: seq<byte> -> bool, root: seq<nat>, table: seq<nat>)
    ensures !VolumeFits(upcase, Disk(Spare), 512, 40, 228, root, table)
  {
    RegionStands(Spare);
    hide ChainHolds, ChainExact, UpcaseEntryOk, Disk, ByteAt, FixedFieldsOk, FirstOf, ReaderFat, U32;
    forall dir: seq<byte>, b: nat | ChainHolds(Disk(Spare), Seen(Spare), 2, root, dir) && FirstOf(dir, 0x81, b)
      ensures 32 * b + 32 <= |dir| && VolumeShape(Seen(Spare)) && !ChainExact(Seen(Spare), dir, b, 228)
    {
      RootIs(Spare, root, dir);
      EntriesAre(dir);
      FirstUnique(dir, 0x81, 0, b);
      BitmapReads(Spare, dir);
    }
  }

  /** The grower writes, and leaves this. */
  ghost predicate GrowsTo(shape: Shape, d': seq<byte>) {
    var plan := Plan(Names(), Disk(shape), 512, SIZE);
    plan.Grow? && d' == WriteAll(Disk(shape), plan.patches)
  }

  /** What the reader makes of these disks once they are grown, in terms of what they were. */
  lemma {:induction false} Grown(shape: Shape, upcase: seq<byte> -> bool, root: seq<nat>, table: seq<nat>)
    returns (d': seq<byte>)
    ensures GrowsTo(shape, d')
    ensures BootAccepted(d', 512, 40, 358) <==> !shape.TwoFats?
    ensures BitmapShown(Disk(shape), 512, 40) <==> BitmapExact(d', 512, 40)
    ensures ChainsApart(root, table) && Inside(table, 38) ==>
      (VolumeAccepted(upcase, d', 512, 40, 358, root, table)
       <==> VolumeFits(upcase, Disk(shape), 512, 40, 228, root, table))
  {
    hide Plan, StandardLayout, WriteAll, BitmapExact, BitmapShown, Disk, VolumeAccepted, BootAccepted, ChainsApart;
    hide VolumeFits, FixedFieldsOk, Inside, U32, BootOk, GeometryOf, VolumeLaid, Pow2, BootRegion, Capacity;
    ExampleGrows(shape);
    TableStands(shape);
    RegionStands(shape);
    FieldsFixed(shape);
    var plan := Plan(Names(), Disk(shape), 512, SIZE);
    d' := WriteAll(Disk(shape), plan.patches);
    var t, data, count :=
      GrowthIsAccepted(Names(), upcase, Disk(shape), 512, plan.grown, plan.patches, root, table);
    assert CeilDiv(256, 512) == 1;
    CountStands();
  }

  lemma {:induction false} CountStands()
    ensures GrownCount(Geometry(2, 130, 166, 36, 1), 512, 358) == 228
  {
    var g := Geometry(2, 130, 166, 36, 1);
    assert Capacity(g, 512) == 254;
    assert GrownBlocks(g, 512, 358) == 358;
  }

  /** Grown, the usual disk is accepted by the reader, root directory, bitmap and up-case table included. */
  lemma {:induction false} AcceptedExample() returns (d': seq<byte>)
    ensures GrowsTo(Usual, d')
    ensures VolumeAccepted(_ => true, d', 512, 40, 358, [2], TableChain())
  {
    hide GrowsTo, Disk, VolumeAccepted, BootAccepted, VolumeFits, BitmapExact, BitmapShown;
    UsualFits();
    d' := Grown(Usual, _ => true, [2], TableChain());
    assert ChainsApart([2], TableChain()) && Inside(TableChain(), 38);
  }

  /**
   One disk grows although the reader, which stops at the first end mark of the
   joined root directory, finds no bitmap on it, before or after: growing asks
   for less than reading does.
   */
  lemma {:induction false} UnshownExample() returns (d': seq<byte>)
    ensures GrowsTo(Split, d')
    ensures !BitmapShown(Disk(Split), 512, 40) && !BitmapExact(d', 512, 40)
  {
    hide GrowsTo, Disk, VolumeAccepted, BootAccepted, VolumeFits, BitmapExact, BitmapShown, Inside, ChainsApart;
    NothingShown();
    d' := Grown(Split, _ => true, [], []);
  }

  /** One grows although its bitmap has a cluster more than the grown volume needs, which the reader refuses. */
  lemma {:induction false} SpareExample(upcase: seq<byte> -> bool, root: seq<nat>, table: seq<nat>)
    returns (d': seq<byte>)
    ensures GrowsTo(Spare, d')
    ensures BootAccepted(d', 512, 40, 358) && BitmapExact(d', 512, 40)
    ensures ChainsApart(root, table) && Inside(table, 38) ==> !VolumeAccepted(upcase, d', 512, 40, 358, root, table)
  {
    hide GrowsTo, Disk, VolumeAccepted, BootAccepted, VolumeFits, BitmapExact, BitmapShown, Inside, ChainsApart;
    SpareShown();
    SpareMisfits(upcase, root, table);
    d' := Grown(Spare, upcase, root, table);
  }

  lemma {:induction false} SpareShown()
    ensures BitmapShown(Disk(Spare), 512, 40)
  {
    hide Disk, ByteAt, ChainHolds, FirstOf, Content, ReaderFat, U32, U64, InImage, IsChain, EntryByte, BootOk;
    hide VolumeLaid, Pow2, GeometryOf;
    RegionStands(Spare);
    RootReads(Spare);
    var dir := Content(Disk(Spare), Seen(Spare), [2]);
    EntriesAre(dir);
    assert ShownIn(Disk(Spare), Seen(Spare), 2);
  }

  /** And one although its boot sector claims two FATs. */
  lemma {:induction false} TwoFatsExample() returns (d': seq<byte>)
    ensures GrowsTo(TwoFats, d')
    ensures !BootAccepted(d', 512, 40, 358)
  {
    hide GrowsTo, Disk, VolumeAccepted, BootAccepted, VolumeFits, BitmapExact, BitmapShown, Inside, ChainsApart;
    d' := Grown(TwoFats, _ => true, [], []);
  }

  lemma {:induction false} NothingShown()
    ensures !BitmapShown(Disk(Split), 512, 40)
  {
    RegionStands(Split);
    ReaderStands(Split);
    hide RegionByte, FatByte, EntryByte, ByteAt, Disk, U32, BootOk, GeometryOf, VolumeLaid, ChainHolds, ReaderFat;
    forall root, dir: seq<byte>, b: nat | ChainHolds(Disk(Split), Seen(Split), 2, root, dir)
      ensures !FirstOf(dir, 0x81, b)
    {
      FirstByte(Seen(Split), root, dir);
      NothingListed(dir, b);
    }
  }

  lemma {:induction false} NothingListed(dir: seq<byte>, k: nat)
    requires |dir| > 0 ==> dir[0] == 0
    ensures !Listed(dir, k)
  {
    if 32 * k + 32 <= |dir| { assert dir[32 * 0] == 0; }
  }

  lemma {:induction false} FirstByte(vol: Volume, root: seq<nat>, dir: seq<byte>)
    requires vol.sectorSize == 512 && vol.sectorsPerCluster == 1 && vol.heapLba == 170
    requires ChainHolds(Disk(Split), vol, 2, root, dir)
    ensures |dir| > 0 ==> dir[0] == 0
  {
    hide Disk, ByteAt;
    FirstIsEnd();
    ContentAt(Disk(Split), vol, root, 0, 0);
  }
}
