/** Writing the boot regions of a laid-out exFAT volume, and what the reader and the grower make of them. */
module ExfatFormat {
  import opened Common
  import opened Bytes
  import opened ClusterFiles
  import opened GrowPlan
  import opened GrowLayout
  import opened GrowExfat
  import opened ExfatReader
  import opened ExfatLayout
  import opened ExfatVolume

  /** The exponent of a power of two. */
  function Log2(n: nat): (k: nat)
    requires PowerOfTwo(n)
    ensures Pow2(k) == n
  {
    if n == 1 then 0 else 1 + Log2(n / 2)
  }

  lemma {:induction false} PowersAre(n: nat)
    ensures PowerOfTwo(n) <==> exists k: nat :: Pow2(k) == n
  {
    if PowerOfTwo(n) { assert Pow2(Log2(n)) == n; }
    if k: nat :| Pow2(k) == n { PowerIs(k); }
  }

  lemma {:induction false} PowerIs(k: nat)
    ensures PowerOfTwo(Pow2(k))
  {
    if k > 0 { PowerIs(k - 1); }
  }

  /** The fields of the boot sector. */
  ghost predicate Fields(
    r: seq<byte>, ss: nat, start: nat, part: nat, l: Layout, root: nat, percent: byte)
    requires PowerOfTwo(l.spc)
  {
    && |r| >= 512 && r[..3] == [0xEB, 0x76, 0x90] && r[3..11] == [0x45, 0x58, 0x46, 0x41, 0x54, 0x20, 0x20, 0x20]
    && U64(r, 64) == start && U64(r, 72) == part
    && U32(r, 80) == l.fat && U32(r, 84) == l.fatLength && U32(r, 88) == l.heap
    && U32(r, 92) == l.count && U32(r, 96) == root
    && r[108] as nat == (if ss == 512 then 9 else 12) && r[109] as nat == Log2(l.spc)
    && r[110] == 1 && r[111] == 0x80 && r[112] == percent
    && (forall x :: 120 <= x < 510 ==> r[x] == 0xF4) && r[510] == 0x55 && r[511] == 0xAA
  }

  /** What can be packed into the fields. */
  predicate Packs(start: nat, part: nat, l: Layout, root: nat, volumeId: nat)
    requires PowerOfTwo(l.spc)
  {
    && start < U64_LIMIT && part < U64_LIMIT && l.fat < U32_LIMIT && l.fatLength < U32_LIMIT && l.heap < U32_LIMIT
    && l.count < U32_LIMIT && root < U32_LIMIT && volumeId < U32_LIMIT && Log2(l.spc) < 0x100
  }

  /** The head of the boot sector: its marks and its eight figures. */
  method BootHead(ss: nat, start: nat, part: nat, l: Layout, root: nat, volumeId: nat) returns (boot: seq<byte>)
    requires (ss == 512 || ss == 4096) && PowerOfTwo(l.spc) && Packs(start, part, l, root, volumeId)
    ensures |boot| == ss
    ensures boot[..3] == [0xEB, 0x76, 0x90] && boot[3..11] == [0x45, 0x58, 0x46, 0x41, 0x54, 0x20, 0x20, 0x20]
    ensures U64(boot, 64) == start && U64(boot, 72) == part
    ensures U32(boot, 80) == l.fat && U32(boot, 84) == l.fatLength && U32(boot, 88) == l.heap
    ensures U32(boot, 92) == l.count && U32(boot, 96) == root
  {
    hide Log2;
    boot := Zeros(ss);
    boot := Splice(boot, 0, [0xEB, 0x76, 0x90]);
    boot := Splice(boot, 3, [0x45, 0x58, 0x46, 0x41, 0x54, 0x20, 0x20, 0x20]);
    boot := PutU64(boot, 64, start);
    boot := PutU64(boot, 72, part);
    boot := PutU32(boot, 80, l.fat);
    boot := PutU32(boot, 84, l.fatLength);
    boot := PutU32(boot, 88, l.heap);
    boot := PutU32(boot, 92, l.count);
    boot := PutU32(boot, 96, root);
    boot := PutU32(boot, 100, volumeId);
  }

  /** The boot sector, filled up with the byte of the halt instruction. */
  method BootSector(ss: nat, start: nat, part: nat, l: Layout, root: nat, volumeId: nat, percent: byte)
    returns (boot: seq<byte>)
    requires (ss == 512 || ss == 4096) && PowerOfTwo(l.spc) && Packs(start, part, l, root, volumeId)
    ensures |boot| == ss && Fields(boot, ss, start, part, l, root, percent)
  {
    hide Log2, U32, U64;
    var head := BootHead(ss, start, part, l, root, volumeId);
    boot := head[104 := 0][105 := 1][106 := 0][107 := 0];
    boot := boot[108 := if ss == 512 then 9 else 12][109 := Log2(l.spc) as byte];
    boot := boot[110 := 1][111 := 0x80][112 := percent];
    boot := Splice(boot, 120, seq(510 - 120, _ => 0xF4));
    boot := Splice(boot, 510, [0x55, 0xAA]);
    HeadKept(head, boot);
  }

  lemma {:induction false} HeadKept(a: seq<byte>, b: seq<byte>)
    requires |a| == |b| >= 512 && forall x :: 0 <= x < 104 ==> b[x] == a[x]
    ensures b[..3] == a[..3] && b[3..11] == a[3..11] && U64(b, 64) == U64(a, 64) && U64(b, 72) == U64(a, 72)
    ensures U32(b, 80) == U32(a, 80) && U32(b, 84) == U32(a, 84) && U32(b, 88) == U32(a, 88)
    ensures U32(b, 92) == U32(a, 92) && U32(b, 96) == U32(a, 96)
  {
  }

  /** exfat_boot_checksum: the formatter's own sum. */
  method BootChecksum(main: seq<byte>) returns (checksum: nat)
    ensures checksum == Checksum(main, |main|)
  {
    hide RotateRight, Or;
    checksum := 0;
    for offset := 0 to |main|
      invariant checksum == Checksum(main, offset)
    {
      if offset in {106, 107, 112} {
        continue;
      }
      RotationIsOr(checksum);
      checksum := Or(checksum / 2, (checksum % 2) * 0x8000_0000) % 0x1_0000_0000;
      checksum := (checksum + main[offset] as nat) % 0x1_0000_0000;
    }
  }

  /** The signatures of sectors 1 to 8. */
  method SignSectors(boot: seq<byte>, ss: nat) returns (main: seq<byte>)
    requires (ss == 512 || ss == 4096) && |boot| == ss
    ensures |main| == 12 * ss && Markers(main, ss) && forall x :: 0 <= x < ss ==> main[x] == boot[x]
  {
    main := boot + Zeros(11 * ss);
    for sector := 1 to 9
      invariant |main| == 12 * ss && forall x :: 0 <= x < ss ==> main[x] == boot[x]
      invariant forall s: nat :: 1 <= s < sector ==> (s + 1) * ss <= |main| && Signed(main, ss, s)
    {
      ghost var before := main;
      MulMonotone(sector + 1, 9, ss);
      MulAdd(sector, 1, ss);
      MulMonotone(1, sector, ss);
      main := Splice(main, sector * ss + ss - 4, [0, 0, 0x55, 0xAA]);
      SignedStay(before, main, ss, sector);
    }
    MarkersAre(main, ss);
  }

  lemma {:induction false} SignedStay(a: seq<byte>, b: seq<byte>, ss: nat, sector: nat)
    requires ss >= 4 && |a| == |b| && (sector + 1) * ss <= |a| && (sector + 1) * ss == sector * ss + ss
    requires b == Splice(a, sector * ss + ss - 4, [0, 0, 0x55, 0xAA])
    requires forall s: nat :: 1 <= s < sector ==> (s + 1) * ss <= |a| && Signed(a, ss, s)
    ensures forall s: nat :: 1 <= s <= sector ==> (s + 1) * ss <= |b| && Signed(b, ss, s)
  {
    forall s: nat | 1 <= s <= sector ensures (s + 1) * ss <= |b| && Signed(b, ss, s) {
      MulAdd(s, 1, ss);
      if s < sector {
        MulMonotone(s + 1, sector, ss);
        assert Signed(a, ss, s);
        assert b[s * ss + ss - 4..s * ss + ss] == a[s * ss + ss - 4..s * ss + ss];
      }
    }
  }

  /** The main boot region: a boot sector with these fields, the signatures, and its checksum. */
  ghost predicate Formatted(
    main: seq<byte>, ss: nat, start: nat, part: nat, l: Layout, root: nat, percent: byte)
    requires SectorSizeOk(ss) && PowerOfTwo(l.spc)
  {
    |main| == 12 * ss && Fields(main, ss, start, part, l, root, percent) && Markers(main, ss) && ChecksumOk(main, ss)
  }

  /** exfat_boot_regions: the main region twice, if everything fits its field. */
  method BootRegions(ss: nat, start: nat, part: nat, l: Layout, root: nat, volumeId: nat, percent: byte)
    returns (r: Result<seq<byte>, string>)
    requires (ss == 512 || ss == 4096) && PowerOfTwo(l.spc)
    ensures r.Ok? <==> Packs(start, part, l, root, volumeId)
    ensures r.Ok? ==>
      && |r.value| == 24 * ss && r.value[12 * ss..] == r.value[..12 * ss]
      && Formatted(r.value[..12 * ss], ss, start, part, l, root, percent)
  {
    hide Fields, Filled, Checksum, Markers;
    if Max(start, part) >= 0x1_0000_0000_0000_0000 {
      return Err("argument out of range");
    }
    if Max(Max(l.fat, l.fatLength), Max(l.heap, l.count)) >= 0x1_0000_0000 || Max(root, volumeId) >= 0x1_0000_0000 {
      return Err("argument out of range");
    }
    var shift := Log2(l.spc);
    if shift >= 0x100 {
      return Err("byte must be in range");
    }
    var boot := BootSector(ss, start, part, l, root, volumeId, percent);
    var signed := SignSectors(boot, ss);
    var checksum := BootChecksum(signed[..11 * ss]);
    var main := Splice(signed, 11 * ss, Filled(checksum, ss));
    ChecksumLocal(signed[..11 * ss], main, 11 * ss);
    assert main[11 * ss..] == main[11 * ss..11 * ss + ss];
    SectorKept(boot, main, ss, start, part, l, root, percent);
    MarkersKept(signed, main, ss);
    var both := main + main;
    assert both[..12 * ss] == main && both[12 * ss..] == main;
    r := Ok(both);
  }

  lemma {:induction false} SectorKept(
      a: seq<byte>, b: seq<byte>, ss: nat, start: nat, part: nat, l: Layout, root: nat, percent: byte)
    requires PowerOfTwo(l.spc) && Fields(a, ss, start, part, l, root, percent)
    requires |b| >= 512 && forall x :: 0 <= x < 512 ==> b[x] == a[x]
    ensures Fields(b, ss, start, part, l, root, percent)
  {
    hide Log2, U32, U64;
    HeadKept(a[..512], b[..512]);
    HeadKept(a[..512], a[..512]);
    FrontFields(a);
    FrontFields(b);
    assert a[..512] == b[..512];
  }

  lemma {:induction false} FrontFields(a: seq<byte>)
    requires |a| >= 512
    ensures var f := a[..512];
      && f[..3] == a[..3] && f[3..11] == a[3..11] && U64(f, 64) == U64(a, 64) && U64(f, 72) == U64(a, 72)
      && U32(f, 80) == U32(a, 80) && U32(f, 84) == U32(a, 84) && U32(f, 88) == U32(a, 88)
      && U32(f, 92) == U32(a, 92) && U32(f, 96) == U32(a, 96)
  {
  }

  lemma {:induction false} MarkersKept(a: seq<byte>, b: seq<byte>, ss: nat)
    requires |a| == |b| == 12 * ss && Markers(a, ss) && forall x :: 0 <= x < 11 * ss ==> b[x] == a[x]
    ensures Markers(b, ss)
  {
  }

  /**
   Layout, formatter and reader agree: the boot regions written for a sound
   layout pass every check the reader makes on them, on whatever disk.
   */
  lemma {:induction false} FormattedIsAccepted(
      d: seq<byte>, ss: nat, start: nat, part: nat, l: Layout, root: nat, percent: byte, main: seq<byte>)
    requires SectorSizeOk(ss) && Sound(l, ss, part) && Formatted(main, ss, start, part, l, root, percent)
    requires start * ss + 24 * ss <= |d|
    requires d[start * ss..start * ss + 12 * ss] == main && d[start * ss + 12 * ss..start * ss + 24 * ss] == main
    ensures BootAccepted(d, ss, start, part)
  {
    hide ChecksumOk, U32, U64, Log2, PowerOfTwo;
    SectorShift();
  }

  lemma {:induction false} SectorShift()
    ensures Pow2(9) == 512 && Pow2(12) == 4096
  {
    assert Pow2(6) == 64;
  }

  /** The volume is laid out by the standard, and the grower reads the layout's own figures from it. */
  lemma {:induction false} FormattedIsLaid(
      ss: nat, start: nat, part: nat, l: Layout, root: nat, percent: byte, main: seq<byte>)
    requires SectorSizeOk(ss) && Sound(l, ss, part) && Formatted(main, ss, start, part, l, root, percent)
    ensures VolumeLaid(main) && BootOk(main, ss, start) && GeometryOf(main) == WrittenGeometry(l, part)
    ensures U32(main, 80) == 128 && U32(main, 96) == root
  {
    hide ChecksumOk, U32, U64, Log2, PowerOfTwo, Markers;
    SectorShift();
    FloorBelow(part - l.heap, l.spc);
  }
}
