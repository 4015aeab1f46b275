/**
 What the grower's own terms come to, said of the bytes on the disk: which
 header, table, partition and volume it accepts, how far it grows, and what
 each of its writes holds.
 */
module GrowTerms {
  import opened Common
  import opened Bytes
  import opened ClusterFiles
  import opened GrowPlan
  import opened GrowLayout
  import opened GrowExfat

  // ----- numbers -----

  /** Bit `k` of a number. */
  predicate Bit(c: nat, k: nat) { if k == 0 then c % 2 == 1 else Bit(c / 2, k - 1) }

  lemma {:induction false} LowBits(c: nat, high: nat, n: nat, k: nat)
    requires k < n
    ensures Bit(c + high * Pow2(n), k) == Bit(c, k)
  {
    var half := high * Pow2(n - 1);
    assert high * Pow2(n) == 2 * half by { MulAssoc(high, Pow2(n - 1), 2); }
    DivUnique(c + 2 * half, 2, c / 2 + half, c % 2);
    if k > 0 { LowBits(c / 2, high, n - 1, k - 1); }
  }

  lemma {:induction false} HighBit(c: nat, high: nat, n: nat)
    requires c < Pow2(n) && high < 2
    ensures Bit(c + high * Pow2(n), n) <==> high == 1
  {
    if n > 0 {
      var half := high * Pow2(n - 1);
      assert high * Pow2(n) == 2 * half by { MulAssoc(high, Pow2(n - 1), 2); }
      DivUnique(c + 2 * half, 2, c / 2 + half, c % 2);
      HighBit(c / 2, high, n - 1);
    }
  }

  lemma {:induction false} Powers()
    ensures Pow2(9) == 512 && Pow2(12) == 4096 && Pow2(31) == 0x8000_0000
  {
    assert Pow2(8) == 0x100 && Pow2(9) == 2 * Pow2(8);
    assert Pow2(12) == 0x1000;
    assert Pow2(20) == 0x10_0000;
    assert Pow2(28) == 0x1000_0000;
  }

  lemma {:induction false} BitsOf(c: nat, k: nat)
    ensures (Bit(c, 0) <==> c % 2 == 1) && Bit(c, k + 1) == Bit(c / 2, k)
  {
  }

  /** The checksum's step turns all 32 bits one place to the right, the lowest to the top. */
  lemma {:induction false} RotatesRight(c: nat, k: nat)
    requires c < 0x1_0000_0000 && k < 32
    ensures RotateRight(c) < 0x1_0000_0000 && (Bit(RotateRight(c), k) <==> Bit(c, (k + 1) % 32))
  {
    hide Pow2, Bit;
    Powers();
    BitsOf(c, k);
    if k < 31 { LowBits(c / 2, c % 2, 31, k); } else { HighBit(c / 2, c % 2, 31); }
  }

  /** Numbers of `n` bits that agree in every bit are equal, so the bits say which the result is. */
  lemma {:induction false} BitsDecide(a: nat, b: nat, n: nat)
    requires a < Pow2(n) && b < Pow2(n) && forall k: nat :: k < n ==> Bit(a, k) == Bit(b, k)
    ensures a == b
  {
    if n > 0 {
      assert Bit(a, 0) == Bit(b, 0);
      forall k: nat | k < n - 1 ensures Bit(a / 2, k) == Bit(b / 2, k) { assert Bit(a, k + 1) == Bit(b, k + 1); }
      BitsDecide(a / 2, b / 2, n - 1);
    }
  }

  /** `1 << n` has that one bit. */
  lemma {:induction false} Pow2Bit(n: nat, k: nat)
    ensures Bit(Pow2(n), k) <==> k == n
  {
    if n > 0 && k > 0 { Pow2Bit(n - 1, k - 1); }
    if n == 0 && k > 0 { ZeroBits(k - 1); }
  }

  lemma {:induction false} ZeroBits(k: nat)
    ensures !Bit(0, k)
  {
    if k > 0 { ZeroBits(k - 1); }
  }

  /** The order of the bytes counts. */
  lemma {:induction false} ChecksumExample()
    ensures Checksum([1, 2, 3], 3) == 0x4000_0004 && Checksum([3, 2, 1], 3) == 0xC000_0002
  {
    assert Checksum([1, 2, 3], 1) == 1 && Checksum([1, 2, 3], 2) == 0x8000_0002;
    assert Checksum([3, 2, 1], 1) == 3 && Checksum([3, 2, 1], 2) == 0x8000_0003;
  }

  /** Fields are stored least significant byte first. */
  lemma {:induction false} FieldBytes(d: seq<byte>, o: nat)
    requires o + 8 <= |d|
    ensures U32(d, o) % 0x100 == d[o] as nat && U32(d, o) / 0x100 % 0x100 == d[o + 1] as nat
    ensures U32(d, o) / 0x1_0000 % 0x100 == d[o + 2] as nat && U32(d, o) / 0x100_0000 == d[o + 3] as nat
    ensures U64(d, o) % 0x1_0000_0000 == U32(d, o) && U64(d, o) / 0x1_0000_0000 == U32(d, o + 4)
  {
    var a, b, c, e := d[o] as nat, d[o + 1] as nat, d[o + 2] as nat, d[o + 3] as nat;
    DivUnique(U32(d, o), 0x100, b + 0x100 * c + 0x1_0000 * e, a);
    DivUnique(b + 0x100 * c + 0x1_0000 * e, 0x100, c + 0x100 * e, b);
    DivUnique(U32(d, o), 0x1_0000, c + 0x100 * e, a + 0x100 * b);
    DivUnique(c + 0x100 * e, 0x100, e, c);
    DivUnique(U32(d, o), 0x100_0000, e, a + 0x100 * b + 0x1_0000 * c);
    hide U32;
    DivUnique(U64(d, o), 0x1_0000_0000, U32(d, o + 4), U32(d, o));
  }

  /** The least number of parts of `divisor` that hold `value`. */
  lemma {:induction false} CeilIs(value: nat, divisor: nat)
    requires divisor > 0
    ensures value <= CeilDiv(value, divisor) * divisor < value + divisor
  {
    var n := value + divisor - 1;
    assert n == (n / divisor) * divisor + n % divisor;
  }

  // ----- the header and the table -----

  lemma {:induction false} FieldOf(d: seq<byte>, a: nat, b: nat, o: nat)
    requires a <= b <= |d| && a + o + 4 <= b
    ensures U32(d[a..b], o) == U32(d, a + o)
    ensures a + o + 8 <= b ==> U64(d[a..b], o) == U64(d, a + o)
  {
  }

  /** A protective MBR and a primary header that names its own place, under a valid CRC. */
  ghost predicate HeaderReads(env: Env, d: seq<byte>, ss: nat) {
    && ss >= 512 && |d| >= 2 * ss
    && d[510] == 0x55 && d[511] == 0xAA && d[0x1C2] == 0xEE
    && d[ss..ss + 8] == [0x45, 0x46, 0x49, 0x20, 0x50, 0x41, 0x52, 0x54]
    && 92 <= U32(d, ss + 12) <= ss && U64(d, ss + 24) == 1
    && env.crc(d[ss..ss + 16] + [0, 0, 0, 0] + d[ss + 20..ss + U32(d, ss + 12)]) == U32(d, ss + 16)
  }

  lemma {:induction false} PrimaryIs(env: Env, d: seq<byte>, ss: nat)
    requires SectorSizeOk(ss)
    ensures PrimaryOk(env, d, ss) <==> HeaderReads(env, d, ss)
  {
    hide U32, U64;
    if |d| >= 2 * ss {
      var header := d[ss..2 * ss];
      FieldOf(d, ss, 2 * ss, 12);
      FieldOf(d, ss, 2 * ss, 16);
      FieldOf(d, ss, 2 * ss, 24);
      assert header[..8] == d[ss..ss + 8];
      if 92 <= U32(header, 12) <= ss { BlankIs(d, ss, U32(header, 12)); }
    }
  }

  lemma {:induction false} BlankIs(d: seq<byte>, ss: nat, n: nat)
    requires 92 <= n <= ss && 2 * ss <= |d|
    ensures PutU32(d[ss..2 * ss][..n], 16, 0) == d[ss..ss + 16] + [0, 0, 0, 0] + d[ss + 20..ss + n]
  {
    var r := PutU32(d[ss..2 * ss][..n], 16, 0);
    FieldBytes(r, 16);
    assert r[16] == 0 && r[17] == 0 && r[18] == 0 && r[19] == 0;
  }

  /** The entry array the header names, whole and under the header's CRC. */
  ghost predicate TableReads(env: Env, d: seq<byte>, ss: nat, t: Table)
    requires |d| >= 2 * ss && ss >= 512
  {
    && t.at == U64(d, ss + 72) * ss && t.count == U32(d, ss + 80) && t.size == U32(d, ss + 84)
    && 1 <= t.count <= 128 && t.size >= 128 && t.size % 8 == 0
    && |t.entries| == t.count * t.size && t.at + |t.entries| <= |d| && t.entries == d[t.at..t.at + |t.entries|]
    && env.crc(t.entries) == U32(d, ss + 88)
  }

  lemma {:induction false} ArrayIs(env: Env, d: seq<byte>, at: nat, count: nat, size: nat, crc: nat, t: Table)
    ensures TableAt(env, d, at, count, size, crc) == Some(t) <==>
      && t.at == at && t.count == count && t.size == size && 1 <= count <= 128 && size >= 128 && size % 8 == 0
      && |t.entries| == count * size && at + |t.entries| <= |d| && t.entries == d[at..at + |t.entries|]
      && env.crc(t.entries) == crc
  {
    MulMonotone(0, count, size);
  }

  /** The partition table that is read. */
  lemma {:induction false} TableIs(env: Env, d: seq<byte>, ss: nat, t: Table)
    requires SectorSizeOk(ss)
    ensures ReadTable(env, d, ss) == Some(t) <==> HeaderReads(env, d, ss) && TableReads(env, d, ss, t)
  {
    hide HeaderReads, PrimaryOk, U32, U64, TableAt;
    PrimaryIs(env, d, ss);
    if PrimaryOk(env, d, ss) {
      PrimaryIsThere(env, d, ss);
      FieldOf(d, ss, 2 * ss, 72);
      FieldOf(d, ss, 2 * ss, 80);
      FieldOf(d, ss, 2 * ss, 84);
      FieldOf(d, ss, 2 * ss, 88);
      MulMonotone(0, U64(d, ss + 72), ss);
      ArrayIs(env, d, U64(d, ss + 72) * ss, U32(d, ss + 80), U32(d, ss + 84), U32(d, ss + 88), t);
    }
  }

  lemma {:induction false} PrimaryIsThere(env: Env, d: seq<byte>, ss: nat)
    requires SectorSizeOk(ss) && PrimaryOk(env, d, ss)
    ensures |d| >= 2 * ss
  {
    hide MbrOk, HeaderValid;
  }

  // ----- the partitions -----

  /** A used slot of the table with a sensible range, as a partition. */
  ghost predicate Slot(env: Env, t: Table, p: Part) {
    && p.index < t.count
    && var at := p.index * t.size;
       && at + 128 <= |t.entries|
       && (exists x :: at <= x < at + 16 && t.entries[x] != 0)
       && p.startLba == U64(t.entries, at + 32) && p.endLba == U64(t.entries, at + 40)
       && 0 < p.startLba <= p.endLba && p.name == env.decode(t.entries[at + 56..at + 128])
  }

  lemma {:induction false} Blank(s: seq<byte>, at: nat)
    requires at + 16 <= |s|
    ensures s[at..at + 16] == Zeros(16) <==> forall x :: at <= x < at + 16 ==> s[x] == 0
  {
    var e := s[at..at + 16];
    if forall x :: at <= x < at + 16 ==> s[x] == 0 {
      forall k | 0 <= k < 16 ensures e[k] == 0 { assert e[k] == s[at + k]; }
    }
    if e == Zeros(16) {
      forall x | at <= x < at + 16 ensures s[x] == 0 { assert e[x - at] == 0; }
    }
  }

  lemma {:induction false} SlotIs(env: Env, t: Table, i: nat, p: Part)
    requires TableShape(t) && i < t.count && (i + 1) * t.size <= |t.entries|
    ensures PartAt(env, t.entries, t.size, i) == Some(p) <==> p.index == i && Slot(env, t, p)
  {
    hide U64, U32, Zeros;
    MulAdd(i, 1, t.size);
    assert t.size >= 128;
    hide TableShape;
    PartIs(env, t.entries, t.size, i, i * t.size);
  }

  lemma {:induction false} PartIs(env: Env, entries: seq<byte>, size: nat, i: nat, at: nat)
    requires size >= 128 && (i + 1) * size <= |entries| && at == i * size && (i + 1) * size == at + size
    ensures PartAt(env, entries, size, i) ==
      if (forall x :: at <= x < at + 16 ==> entries[x] == 0)
        || U64(entries, at + 32) == 0 || U64(entries, at + 40) < U64(entries, at + 32) then None
      else Some(Part(i, U64(entries, at + 32), U64(entries, at + 40), env.decode(entries[at + 56..at + 128])))
  {
    hide U64, U32, Zeros;
    var e := Entry(entries, size, i);
    FieldOf(entries, at, at + size, 32);
    FieldOf(entries, at, at + size, 40);
    assert e[56..128] == entries[at + 56..at + 128];
    assert e[..16] == entries[at..at + 16];
    Blank(entries, at);
  }

  /** The partitions are those slots, in the order of the table. */
  lemma {:induction false} PartsAre(env: Env, t: Table, n: nat)
    requires TableShape(t) && n <= t.count && n * t.size <= |t.entries|
    ensures forall p :: p in Parts(env, t.entries, t.size, n) <==> p.index < n && Slot(env, t, p)
  {
    hide Slot, PartAt;
    if n > 0 {
      MulMonotone(n - 1, n, t.size);
      PartsAre(env, t, n - 1);
      forall p
        ensures PartAt(env, t.entries, t.size, n - 1) == Some(p) <==> p.index == n - 1 && Slot(env, t, p)
      {
        SlotIs(env, t, n - 1, p);
      }
    }
  }

  /** The first slot with a name. */
  ghost predicate FirstSlot(env: Env, t: Table, n: nat, name: string, p: Part) {
    && p.index < n && Slot(env, t, p) && p.name == name
    && forall q :: Slot(env, t, q) && q.name == name ==> p.index <= q.index
  }

  lemma {:induction false} FirstNamedMore(ps: seq<Part>, p: Part, name: string)
    ensures FirstNamed(ps + [p], name) ==
      if FirstNamed(ps, name).Some? then FirstNamed(ps, name) else if p.name == name then Some(p) else None
  {
    if ps != [] {
      assert (ps + [p])[1..] == ps[1..] + [p];
      FirstNamedMore(ps[1..], p, name);
    }
  }

  lemma {:induction false} FirstIs(env: Env, t: Table, n: nat, name: string)
    requires TableShape(t) && n <= t.count && n * t.size <= |t.entries|
    ensures match FirstNamed(Parts(env, t.entries, t.size, n), name)
      case Some(p) => FirstSlot(env, t, n, name, p)
      case None => forall q :: Slot(env, t, q) && q.index < n ==> q.name != name
  {
    hide Slot, PartAt;
    if n > 0 {
      MulMonotone(n - 1, n, t.size);
      FirstIs(env, t, n - 1, name);
      forall p ensures PartAt(env, t.entries, t.size, n - 1) == Some(p) <==> p.index == n - 1 && Slot(env, t, p) {
        SlotIs(env, t, n - 1, p);
      }
      match PartAt(env, t.entries, t.size, n - 1)
      case Some(p) => FirstNamedMore(Parts(env, t.entries, t.size, n - 1), p, name);
      case None =>
    }
  }

  /** One slot, one partition. */
  lemma {:induction false} SlotOnce(env: Env, t: Table, p: Part, q: Part)
    requires Slot(env, t, p) && Slot(env, t, q) && p.index == q.index
    ensures p == q
  {
    hide U64;
  }

  /**
   The data partition: the first that is named so, in a table that also names
   an EFI partition, if no partition starts behind it.
   */
  ghost predicate DataReads(env: Env, t: Table, p: Part) {
    && FirstSlot(env, t, t.count, "NEXBOOT_DATA", p)
    && (exists q :: Slot(env, t, q) && q.name == "NEXBOOT_EFI")
    && forall q :: Slot(env, t, q) ==> q.startLba <= p.startLba
  }

  lemma {:induction false} DataIs(env: Env, t: Table, p: Part)
    requires TableShape(t)
    ensures DataPart(env, t) == Some(p) <==> DataReads(env, t, p)
  {
    hide Slot, Parts;
    PartsAre(env, t, t.count);
    FirstIs(env, t, t.count, "NEXBOOT_DATA");
    FirstIs(env, t, t.count, "NEXBOOT_EFI");
    InTable(env, t);
    var parts := Parts(env, t.entries, t.size, t.count);
    var data := FirstNamed(parts, "NEXBOOT_DATA");
    if data.Some? && FirstSlot(env, t, t.count, "NEXBOOT_DATA", p) { SlotOnce(env, t, p, data.value); }
    if (forall q :: Slot(env, t, q) ==> q.startLba <= p.startLba) {
      forall i | 0 <= i < |parts| ensures parts[i].startLba <= p.startLba { assert parts[i] in parts; }
    }
  }

  lemma {:induction false} InTable(env: Env, t: Table)
    ensures forall q :: Slot(env, t, q) ==> q.index < t.count
  {
    hide U64;
  }

  // ----- the volume -----

  /** An exFAT boot sector that gives this start and this sector size. */
  ghost predicate BootReads(region: seq<byte>, ss: nat, start: nat)
    requires |region| >= 512
  {
    && region[..11] == [0xEB, 0x76, 0x90, 0x45, 0x58, 0x46, 0x41, 0x54, 0x20, 0x20, 0x20]
    && U64(region, 64) == start
    && ((ss == 512 && region[108] == 9) || (ss == 4096 && region[108] == 12))
  }

  lemma {:induction false} Pow2Once(a: nat, b: nat)
    requires Pow2(a) == Pow2(b)
    ensures a == b
  {
    Pow2Bit(a, a);
    Pow2Bit(b, a);
  }

  lemma {:induction false} BootIs(region: seq<byte>, ss: nat, start: nat)
    requires SectorSizeOk(ss) && |region| >= 512
    ensures BootOk(region, ss, start) <==> BootReads(region, ss, start)
  {
    Powers();
    hide Pow2, U64;
    var k := region[108] as nat;
    if Pow2(k) == Pow2(9) { Pow2Once(k, 9); }
    if Pow2(k) == Pow2(12) { Pow2Once(k, 12); }
    assert region[..11] == region[..3] + region[3..11];
    var b := [0xEB, 0x76, 0x90, 0x45, 0x58, 0x46, 0x41, 0x54, 0x20, 0x20, 0x20];
    if region[..11] == b { assert region[..3] == b[..3] && region[3..11] == b[3..11]; }
  }

  /** A FAT of `bytes` bytes has an entry for each of `n` clusters, and they can be numbered. */
  predicate Describes(bytes: nat, n: int) { (n + 2) * 4 <= bytes && n <= 0xFFFF_FFFD }

  lemma {:induction false} CapacityIs(g: Geometry, ss: nat, n: int)
    ensures n <= Capacity(g, ss) <==> Describes(g.fatLength * ss, n)
  {
  }

  /** The boot sector's figures, and what is asked of them. */
  ghost predicate LengthsRead(region: seq<byte>, ss: nat, newBlocks: nat)
    requires |region| >= 512
  {
    var fat, heap, blocks := U32(region, 84), U32(region, 88), U64(region, 72);
    && fat > 0 && heap > 24 && heap < blocks <= newBlocks
    && Describes(fat * ss, (blocks - heap) / Pow2(region[109] as nat))
  }

  lemma {:induction false} LengthsAre(region: seq<byte>, ss: nat, newBlocks: nat)
    requires |region| >= 512
    ensures LengthsOk(GeometryOf(region), ss, newBlocks) <==> LengthsRead(region, ss, newBlocks)
  {
    hide U32, U64, Pow2, Describes, Capacity;
    var g := GeometryOf(region);
    CapacityIs(g, ss, (g.blocks - g.heap) / g.spc);
  }

  /** A length the volume may have: the old one, or one whose clusters the FAT describes. */
  ghost predicate Allowed(region: seq<byte>, ss: nat, x: int)
    requires |region| >= 512
  {
    x <= U64(region, 72) || exists n: nat ::
      Describes(U32(region, 84) * ss, n) && x <= U32(region, 88) + n * Pow2(region[109] as nat)
  }

  lemma {:induction false} AllowedIs(region: seq<byte>, ss: nat, x: int)
    requires |region| >= 512 && Capacity(GeometryOf(region), ss) >= 0
    ensures var g := GeometryOf(region);
      Allowed(region, ss, x) <==> x <= Max(g.heap + Capacity(g, ss) * g.spc, g.blocks)
  {
    hide U32, U64, Pow2, Describes, Capacity;
    var g := GeometryOf(region);
    var capacity := Capacity(g, ss);
    CapacityIs(g, ss, capacity);
    if x > g.blocks && Allowed(region, ss, x) {
      var n: nat :| Describes(g.fatLength * ss, n) && x <= g.heap + n * g.spc;
      CapacityIs(g, ss, n);
      MulMonotone(n, capacity, g.spc);
    }
  }

  /** The grown length is the greatest that is allowed and offered, and the clusters are those it holds. */
  lemma {:induction false} GrownIs(region: seq<byte>, ss: nat, newBlocks: nat)
    requires |region| >= 512 && LengthsRead(region, ss, newBlocks)
    ensures var g := GeometryOf(region);
      var grown, count := GrownBlocks(g, ss, newBlocks), GrownCount(g, ss, newBlocks);
      && grown <= newBlocks && Allowed(region, ss, grown)
      && (forall x :: x <= newBlocks && Allowed(region, ss, x) ==> x <= grown)
      && U32(region, 88) + count * Pow2(region[109] as nat) <= grown
      && grown < U32(region, 88) + (count + 1) * Pow2(region[109] as nat)
  {
    LengthsAre(region, ss, newBlocks);
    hide U32, U64, Pow2, Describes, LengthsRead, Allowed;
    var g := GeometryOf(region);
    GrownFits(g, ss, newBlocks);
    DivMonotone(0, g.blocks - g.heap, g.spc);
    hide Capacity;
    var grown := GrownBlocks(g, ss, newBlocks);
    AllowedIs(region, ss, grown);
    forall x ensures Allowed(region, ss, x) <==> x <= Max(g.heap + Capacity(g, ss) * g.spc, g.blocks) {
      AllowedIs(region, ss, x);
    }
    FloorOf(grown - g.heap, g.spc);
  }

  lemma {:induction false} FloorOf(x: int, d: nat)
    requires d > 0
    ensures (x / d) * d <= x < (x / d + 1) * d
  {
    MulAdd(x / d, 1, d);
  }

  /** The volume as the boot sector describes it, with its clusters numbered from 2, one behind the other. */
  lemma {:induction false} VolumeReads(d: seq<byte>, ss: nat, start: nat, region: seq<byte>, clusters: nat, c: nat)
    requires |region| >= 512
    ensures var vol := VolumeOf(d, ss, start, region, clusters);
      && vol.sectorSize == ss && vol.limit == clusters + 2 && vol.endMark == 0xFFFF_FFF8
      && vol.sectorsPerCluster == Pow2(region[109] as nat)
      && vol.ClusterToLba(2) == start + U32(region, 88)
      && vol.ClusterToLba(c + 1) == vol.ClusterToLba(c) + vol.sectorsPerCluster
  {
    hide U32, Pow2, FatOf;
    MulAdd(c as int - 2, 1, Pow2(region[109] as nat));
  }

  /** Its FAT: the entries that are inside the FAT and on the image, four bytes each. */
  lemma {:induction false} FatReads(
      d: seq<byte>, ss: nat, start: nat, region: seq<byte>, clusters: nat, at: nat, bytes: nat, c: nat)
    requires |region| >= 512 && at == (start + U32(region, 80)) * ss && bytes == U32(region, 84) * ss
    ensures var fat := VolumeOf(d, ss, start, region, clusters).fat;
      && (c in fat <==> c * 4 + 4 <= bytes && at + c * 4 + 4 <= |d|)
      && (c in fat ==> fat[c] == U32(d, at + c * 4))
  {
    hide U32, Pow2;
    MulAdd(start, U32(region, 80), ss);
  }

  // ----- the bitmap -----

  /**
   The bitmap's entry is slot `o` in the `k`-th cluster of the root directory;
   `chain` holds the bitmap. The old length is enough for the old clusters, and
   the chain for the new ones.
   */
  ghost predicate BitmapReads(
    d: seq<byte>, vol: Volume, rootCluster: nat, oldCount: nat, newCount: nat,
    root: seq<nat>, k: nat, o: nat, chain: seq<nat>)
    requires VolumeShape(vol)
  {
    && rootCluster < vol.limit && IsChain(vol, rootCluster, root) && BitmapIn(d, vol, root, k, o)
    && var place := SlotPlace(vol, root[k], o);
       && 0 <= place <= place + 32 <= |d|
       && oldCount <= 8 * U64(d, place + 24)
       && U32(d, place + 20) < vol.limit && IsChain(vol, U32(d, place + 20), chain)
       && newCount <= 8 * (|chain| * (vol.sectorsPerCluster * vol.sectorSize))
  }

  /** The entry as it is written: the least length in bytes that holds a bit for each cluster, all else as it was. */
  ghost predicate EntryWritten(d: seq<byte>, place: nat, newCount: nat, p: Patch)
    requires place + 32 <= |d|
  {
    && p.at == place && |p.bytes| == 32
    && newCount <= 8 * U64(p.bytes, 24) < newCount + 8
    && forall x :: 0 <= x < 24 ==> p.bytes[x] == d[place + x]
  }

  lemma {:induction false} EightBits(count: nat, n: nat)
    ensures CeilDiv(count, 8) <= n <==> count <= 8 * n
  {
    CeilIs(count, 8);
  }

  lemma {:induction false} ChainIs(vol: Volume, first: nat, chain: seq<nat>)
    ensures ChainOf(vol, first) == Some(chain) <==> first < vol.limit && IsChain(vol, first, chain)
  {
    if first < vol.limit && IsChain(vol, first, chain) { SameChain(vol, first, chain, ChainOf(vol, first).value); }
  }

  /** A bitmap that is found and suits both counts gives the write. */
  lemma {:induction false} BitmapPlanned(
      d: seq<byte>, vol: Volume, rootCluster: nat, oldCount: nat, newCount: nat,
      root: seq<nat>, k: nat, o: nat, chain: seq<nat>)
    requires VolumeShape(vol) && newCount < U32_LIMIT
    requires BitmapReads(d, vol, rootCluster, oldCount, newCount, root, k, o, chain)
    ensures var p := PlanBitmap(d, vol, rootCluster, oldCount, newCount);
      p.Some? && EntryWritten(d, SlotPlace(vol, root[k], o), newCount, p.value)
  {
    hide FindBitmap, IsChain, BitmapIn, U32, U64, CeilDiv, ChainOf;
    ChainIs(vol, rootCluster, root);
    FindBitmapIs(d, vol, root);
    var place := SlotPlace(vol, root[k], o);
    var size := |chain| * (vol.sectorsPerCluster * vol.sectorSize);
    SizeIsNat(vol, |chain|);
    ChainIs(vol, U32(d, place + 20), chain);
    EightBits(oldCount, U64(d, place + 24));
    EightBits(newCount, size);
    CeilIs(newCount, 8);
  }

  lemma {:induction false} SizeIsNat(vol: Volume, n: nat)
    ensures n * (vol.sectorsPerCluster * vol.sectorSize) >= 0
  {
    MulMonotone(0, vol.sectorsPerCluster, vol.sectorSize);
    MulMonotone(0, n, vol.sectorsPerCluster * vol.sectorSize);
  }

  /** And only such a bitmap does. */
  lemma {:induction false} PlannedBitmap(
      d: seq<byte>, vol: Volume, rootCluster: nat, oldCount: nat, newCount: nat)
    returns (root: seq<nat>, k: nat, o: nat, chain: seq<nat>)
    requires VolumeShape(vol) && newCount < U32_LIMIT
    requires PlanBitmap(d, vol, rootCluster, oldCount, newCount).Some?
    ensures BitmapReads(d, vol, rootCluster, oldCount, newCount, root, k, o, chain)
  {
    hide FindBitmap, IsChain, BitmapIn, U32, U64, CeilDiv, ChainOf;
    root := ChainOf(vol, rootCluster).value;
    ChainIs(vol, rootCluster, root);
    FindBitmapIs(d, vol, root);
    k, o :| BitmapIn(d, vol, root, k, o);
    var place := SlotPlace(vol, root[k], o);
    chain := ChainOf(vol, U32(d, place + 20)).value;
    ChainIs(vol, U32(d, place + 20), chain);
    SizeIsNat(vol, |chain|);
    EightBits(oldCount, U64(d, place + 24));
    EightBits(newCount, |chain| * (vol.sectorsPerCluster * vol.sectorSize));
  }

  // ----- the boot region -----

  /** The boot region as it is written: two fields, and a checksum sector of one word over and over. */
  ghost predicate RegionWritten(region: seq<byte>, ss: nat, grown: nat, count: nat, r: seq<byte>)
    requires |region| == 12 * ss && ss >= 512
  {
    && |r| == 12 * ss && U64(r, 72) == grown && U32(r, 92) == count
    && (forall x :: 0 <= x < 11 * ss && !(72 <= x < 80) && !(92 <= x < 96) ==> r[x] == region[x])
    && Summed(r, ss)
  }

  /** Every word of the twelfth sector is the checksum of the eleven before it. */
  ghost predicate Summed(r: seq<byte>, ss: nat)
    requires |r| == 12 * ss && ss >= 512
  {
    forall i: nat :: i < ss / 4 ==> U32(r, 11 * ss + 4 * i) == Checksum(r, 11 * ss)
  }

  lemma {:induction false} SummedIs(r: seq<byte>, ss: nat)
    requires SectorSizeOk(ss) && |r| == 12 * ss && ChecksumOk(r, ss)
    ensures Summed(r, ss)
  {
    hide Le32, Checksum;
    var value := Checksum(r, 11 * ss);
    forall i: nat | i < ss / 4 ensures U32(r, 11 * ss + 4 * i) == value {
      var at := 11 * ss + 4 * i;
      forall k | 0 <= k < 4 ensures r[at + k] == Le32(value)[k] {
        assert r[11 * ss..][4 * i + k] == r[at + k];
        DivUnique(4 * i + k, 4, i, k);
      }
      assert U32(Le32(value), 0) == value;
    }
  }

  lemma {:induction false} WithChecksumSummed(region: seq<byte>, ss: nat)
    requires (ss == 512 || ss == 4096) && |region| == 12 * ss
    ensures Summed(WithChecksum(region, ss), ss)
  {
    hide WithChecksum, ChecksumOk;
    WithChecksumOk(region, ss);
    SummedIs(WithChecksum(region, ss), ss);
  }

  lemma {:induction false} RegionIs(region: seq<byte>, ss: nat, grown: nat, count: nat)
    requires SectorSizeOk(ss) && |region| == 12 * ss && grown < U64_LIMIT && count < U32_LIMIT
    ensures RegionWritten(region, ss, grown, count, GrownRegion(region, ss, grown, count))
  {
    hide GrownRegion, ChecksumOk;
    GrownRegionFields(region, ss, grown, count);
    var r := GrownRegion(region, ss, grown, count);
    SummedIs(r, ss);
    forall x | 0 <= x < 11 * ss && !(72 <= x < 80) && !(92 <= x < 96) ensures r[x] == region[x] {
      assert FixedByte(ss, x);
    }
  }

  /** The volume can grow into `newBlocks` blocks. */
  ghost predicate VolumeGrows(d: seq<byte>, ss: nat, start: nat, newBlocks: nat)
    requires SectorSizeOk(ss) && start * ss + 12 * ss <= |d|
  {
    var region := BootRegion(d, ss, start);
    && BootReads(region, ss, start) && LengthsRead(region, ss, newBlocks)
    && var count := GrownCount(GeometryOf(region), ss, newBlocks);
       && count >= 16
       && exists root, k, o, chain ::
            BitmapReads(d, VolumeOf(d, ss, start, region, U32(region, 92)), U32(region, 96), U32(region, 92), count,
                        root, k, o, chain)
  }

  lemma {:induction false} BitmapIff(d: seq<byte>, vol: Volume, rc: nat, oldCount: nat, newCount: nat)
    requires VolumeShape(vol) && newCount < U32_LIMIT
    ensures PlanBitmap(d, vol, rc, oldCount, newCount).Some? <==>
      exists root, k, o, chain :: BitmapReads(d, vol, rc, oldCount, newCount, root, k, o, chain)
  {
    hide PlanBitmap, BitmapReads;
    if PlanBitmap(d, vol, rc, oldCount, newCount).Some? {
      var root, k, o, chain := PlannedBitmap(d, vol, rc, oldCount, newCount);
    }
    if root, k, o, chain :| BitmapReads(d, vol, rc, oldCount, newCount, root, k, o, chain) {
      BitmapPlanned(d, vol, rc, oldCount, newCount, root, k, o, chain);
    }
  }

  /** When the boot region is planned, and what it then holds. */
  lemma {:induction false} BootPlanIs(d: seq<byte>, ss: nat, start: nat, newBlocks: nat)
    requires SectorSizeOk(ss) && newBlocks < U64_LIMIT
    ensures PlanBoot(d, ss, start, newBlocks).Some? <==>
      start * ss + 12 * ss <= |d| && VolumeGrows(d, ss, start, newBlocks)
    ensures PlanBoot(d, ss, start, newBlocks).Some? ==>
      var region, boot := BootRegion(d, ss, start), PlanBoot(d, ss, start, newBlocks).value;
      && boot.grown == GrownBlocks(GeometryOf(region), ss, newBlocks)
      && boot.newCount == GrownCount(GeometryOf(region), ss, newBlocks)
      && RegionWritten(region, ss, boot.grown, boot.newCount, boot.region)
  {
    hide PlanBitmap, BitmapReads, VolumeOf, GrownBlocks, GrownCount, RegionWritten, BootOk, BootReads, LengthsOk;
    hide LengthsRead, U32, U64, Pow2, GrownRegion;
    if start * ss + 12 * ss <= |d| {
      var region := BootRegion(d, ss, start);
      var g := GeometryOf(region);
      BootIs(region, ss, start);
      LengthsAre(region, ss, newBlocks);
      if LengthsOk(g, ss, newBlocks) {
        GrownFits(g, ss, newBlocks);
        if GrownCount(g, ss, newBlocks) >= 16 {
          var vol := VolumeOf(d, ss, start, region, U32(region, 92));
          BitmapIff(d, vol, U32(region, 96), U32(region, 92), GrownCount(g, ss, newBlocks));
          PositiveGrown(g, ss, newBlocks);
          RegionIs(region, ss, GrownBlocks(g, ss, newBlocks), GrownCount(g, ss, newBlocks));
        }
      }
    }
  }

  lemma {:induction false} PositiveGrown(g: Geometry, ss: nat, newBlocks: nat)
    requires LengthsOk(g, ss, newBlocks)
    ensures 0 < GrownBlocks(g, ss, newBlocks) <= newBlocks
  {
    GrownFits(g, ss, newBlocks);
  }

  // ----- the table's writes -----

  /** A header under its own CRC. */
  ghost predicate SealedHeader(env: Env, h: seq<byte>) {
    && |h| >= 512 && 92 <= U32(h, 12) <= |h|
    && U32(h, 16) == env.crc(h[..16] + [0, 0, 0, 0] + h[20..U32(h, 12)])
  }

  lemma {:induction false} SealedIs(env: Env, h: seq<byte>)
    requires |h| >= 512 && 92 <= U32(h, 12) <= |h|
    ensures SealedHeader(env, Sealed(env, h)) && U32(Sealed(env, h), 12) == U32(h, 12)
  {
    var blank, r, n := PutU32(h, 16, 0), Sealed(env, h), U32(h, 12);
    FieldBytes(blank, 16);
    assert blank[..n] == r[..16] + [0, 0, 0, 0] + r[20..n];
  }

  /** The primary header: it names the last block and the last usable one, and carries the array's CRC. */
  ghost predicate HeaderWritten(
    env: Env, h: seq<byte>, last: nat, lastUsable: nat, entries: seq<byte>, r: seq<byte>)
    requires |h| >= 512
  {
    && |r| == |h| && SealedHeader(env, r)
    && U64(r, 32) == last && U64(r, 48) == lastUsable && U32(r, 88) == env.crc(entries)
    && forall x :: 0 <= x < |h| && !(16 <= x < 20) && !(32 <= x < 40) && !(48 <= x < 56) && !(88 <= x < 92) ==>
         r[x] == h[x]
  }

  lemma {:induction false} HeaderIs(env: Env, h: seq<byte>, last: nat, lastUsable: nat, entries: seq<byte>)
    requires |h| >= 512 && 92 <= U32(h, 12) <= |h| && last < U64_LIMIT && lastUsable < U64_LIMIT
    ensures HeaderWritten(env, h, last, lastUsable, entries, NewHeader(env, h, last, lastUsable, entries))
  {
    var put := PutU32(PutU64(PutU64(h, 32, last), 48, lastUsable), 88, env.crc(entries));
    PutFields(h, last, lastUsable, env.crc(entries));
    hide PutU32, PutU64, U64, U32;
    SealedIs(env, put);
    SealedKeeps(env, put);
  }

  lemma {:induction false} SealedKeeps(env: Env, h: seq<byte>)
    requires |h| >= 512 && 92 <= U32(h, 12) <= |h|
    ensures var r := Sealed(env, h);
      U64(r, 24) == U64(h, 24) && U64(r, 32) == U64(h, 32) && U64(r, 48) == U64(h, 48)
        && U64(r, 72) == U64(h, 72) && U32(r, 88) == U32(h, 88)
  {
    hide PutU32;
  }

  lemma {:induction false} PutFields(h: seq<byte>, last: nat, lastUsable: nat, crc: u32)
    requires |h| >= 512 && last < U64_LIMIT && lastUsable < U64_LIMIT
    ensures var r := PutU32(PutU64(PutU64(h, 32, last), 48, lastUsable), 88, crc);
      && |r| == |h| && U32(r, 12) == U32(h, 12) && U64(r, 32) == last && U64(r, 48) == lastUsable && U32(r, 88) == crc
      && forall x :: 0 <= x < |h| && !(32 <= x < 40) && !(48 <= x < 56) && !(88 <= x < 92) ==> r[x] == h[x]
  {
  }

  /** The backup header: the primary one with its own place, the primary's, and its own array's. */
  ghost predicate BackupWritten(env: Env, h: seq<byte>, last: nat, entriesAt: nat, r: seq<byte>)
    requires |h| >= 512
  {
    && |r| == |h| && SealedHeader(env, r)
    && U64(r, 24) == last && U64(r, 32) == 1 && U64(r, 72) == entriesAt
    && forall x :: 0 <= x < |h| && !(16 <= x < 20) && !(24 <= x < 40) && !(72 <= x < 80) ==> r[x] == h[x]
  }

  lemma {:induction false} BackupIs(env: Env, h: seq<byte>, last: nat, entriesAt: nat)
    requires |h| >= 512 && 92 <= U32(h, 12) <= |h| && last < U64_LIMIT && entriesAt < U64_LIMIT
    ensures BackupWritten(env, h, last, entriesAt, BackupHeader(env, h, last, entriesAt))
  {
    var put := PutU64(PutU64(PutU64(h, 24, last), 32, 1), 72, entriesAt);
    BackupFields(h, last, entriesAt);
    hide PutU64, U64, U32;
    SealedIs(env, put);
    SealedKeeps(env, put);
  }

  lemma {:induction false} BackupFields(h: seq<byte>, last: nat, entriesAt: nat)
    requires |h| >= 512 && last < U64_LIMIT && entriesAt < U64_LIMIT
    ensures var r := PutU64(PutU64(PutU64(h, 24, last), 32, 1), 72, entriesAt);
      && |r| == |h| && U32(r, 12) == U32(h, 12) && U64(r, 24) == last && U64(r, 32) == 1 && U64(r, 72) == entriesAt
      && forall x :: 0 <= x < |h| && !(24 <= x < 40) && !(72 <= x < 80) ==> r[x] == h[x]
  {
  }

  /** The entry array: only the last block of the data partition changes. */
  ghost predicate EntriesWritten(t: Table, data: Part, newEnd: nat, entries: seq<byte>) {
    var at := data.index * t.size + 40;
    && |entries| == |t.entries| && at + 8 <= |entries| && U64(entries, at) == newEnd
    && forall x :: 0 <= x < |entries| && !(at <= x < at + 8) ==> entries[x] == t.entries[x]
  }

  lemma {:induction false} EntriesAre(t: Table, data: Part, newEnd: nat)
    requires TableShape(t) && data.index < t.count && newEnd < U64_LIMIT
    ensures EntriesWritten(t, data, newEnd, NewEntries(t, data, newEnd))
  {
    hide U64;
    MulMonotone(data.index + 1, t.count, t.size);
    MulAdd(data.index, 1, t.size);
  }

  /** The protective MBR: the one partition's length, as far as 32 bits hold it. */
  ghost predicate MbrWritten(d: seq<byte>, ss: nat, total: nat, r: seq<byte>)
    requires 512 <= ss <= |d|
  {
    && |r| == ss && (total <= 0x1_0000_0000 ==> U32(r, 0x1CA) == total - 1)
    && (total > 0x1_0000_0000 ==> U32(r, 0x1CA) == 0xFFFF_FFFF)
    && forall x :: 0 <= x < ss && !(0x1CA <= x < 0x1CE) ==> r[x] == d[x]
  }

  lemma {:induction false} MbrIs(d: seq<byte>, ss: nat, total: nat)
    requires SectorSizeOk(ss) && |d| >= 2 * ss && total > 0
    ensures MbrWritten(d, ss, total, NewMbr(d, ss, total))
  {
  }

  /** The eight writes: where each goes and what it holds. */
  ghost predicate Writes(
    env: Env, d: seq<byte>, ss: nat, total: nat, t: Table, data: Part, boot: BootPlan, sectors: nat, ps: seq<Patch>)
    requires 512 <= ss && 2 * ss <= |d|
  {
    && |ps| == 8
    && ps[0] == boot.bitmap
    && ps[1] == Patch(data.startLba * ss, boot.region)
    && ps[2] == Patch((data.startLba + 12) * ss, boot.region)
    && ps[3].at == 0 && MbrWritten(d, ss, total, ps[3].bytes)
    && ps[4].at == t.at && ps[5].at as int == (total - 1 - sectors) * ss && ps[5].bytes == ps[4].bytes
    && data.startLba + boot.grown > 0
    && EntriesWritten(t, data, data.startLba + boot.grown - 1, ps[4].bytes)
    && ps[6].at == ss && total >= sectors + 2
    && HeaderWritten(env, d[ss..2 * ss], total - 1, total - 2 - sectors, ps[4].bytes, ps[6].bytes)
    && ps[7].at == (total - 1) * ss
    && BackupWritten(env, ps[6].bytes, total - 1, total - 1 - sectors, ps[7].bytes)
  }

  lemma {:induction false} WritesAre(
      env: Env, d: seq<byte>, ss: nat, total: nat, t: Table, data: Part, boot: BootPlan)
    requires SectorSizeOk(ss) && PrimaryOk(env, d, ss) && TableShape(t) && data.index < t.count
    requires 0 < total < U64_LIMIT && CeilDiv(|t.entries|, ss) + 1 < total
    requires 0 < data.startLba + boot.grown <= U64_LIMIT
    ensures |d| >= 2 * ss
    ensures Writes(env, d, ss, total, t, data, boot, CeilDiv(|t.entries|, ss),
      Patches(env, d, ss, total, t, data, boot))
  {
    hide NewHeader, NewMbr, NewEntries, BackupHeader, HeaderWritten, BackupWritten, MbrWritten, EntriesWritten;
    hide CeilDiv, TableShape, U32, U64;
    MulAdd(data.startLba, 12, ss);
    var sectors := CeilDiv(|t.entries|, ss);
    var entries := NewEntries(t, data, data.startLba + boot.grown - 1);
    var h := d[ss..2 * ss];
    var header := NewHeader(env, h, total - 1, total - 2 - sectors, entries);
    MbrIs(d, ss, total);
    EntriesAre(t, data, data.startLba + boot.grown - 1);
    HeaderIs(env, h, total - 1, total - 2 - sectors, entries);
    BackupIs(env, header, total - 1, total - 1 - sectors);
  }

  // ----- the decision -----

  /** Everything the grower asks before it compares what is there with what could be. */
  ghost predicate Growable(env: Env, d: seq<byte>, ss: nat, size: nat, t: Table, data: Part)
    requires SectorSizeOk(ss)
  {
    var total := size / ss;
    && size == total * ss && total > 128
    && HeaderReads(env, d, ss) && TableReads(env, d, ss, t) && DataReads(env, t, data)
    && var offered := total - 1 - CeilDiv(|t.entries|, ss) - data.startLba;
       && 1 < offered < U64_LIMIT
       && data.startLba * ss + 12 * ss <= |d| && VolumeGrows(d, ss, data.startLba, offered)
       && data.endLba <= data.startLba + GrownBlocks(GeometryOf(BootRegion(d, ss, data.startLba)), ss, offered) - 1
  }

  /** The disk already is as a growth would leave it. */
  ghost predicate FullyGrown(d: seq<byte>, ss: nat, size: nat, t: Table, data: Part)
    requires SectorSizeOk(ss) && data.startLba * ss + 12 * ss <= |d| && 2 * ss <= |d|
  {
    var offered := size / ss - 1 - CeilDiv(|t.entries|, ss) - data.startLba;
    && offered >= 0
    && data.endLba == data.startLba + GrownBlocks(GeometryOf(BootRegion(d, ss, data.startLba)), ss, offered) - 1
    && U64(d, ss + 32) == size / ss - 1
  }

  lemma {:induction false} WholeBlocks(size: nat, ss: nat)
    requires ss > 0
    ensures size % ss == 0 <==> size == size / ss * ss
  {
    assert size == size / ss * ss + size % ss;
  }

  /** A disk that passes is left alone if it is fully grown, and otherwise gets those writes. */
  lemma {:induction false} PlanIs(env: Env, d: seq<byte>, ss: nat, size: nat, t: Table, data: Part)
    requires SectorSizeOk(ss) && size / ss < U64_LIMIT && Growable(env, d, ss, size, t, data)
    ensures |d| >= 2 * ss && data.startLba * ss + 12 * ss <= |d|
    ensures match Plan(env, d, ss, size)
      case Reject => false
      case AlreadyGrown => FullyGrown(d, ss, size, t, data)
      case Grow(grown, ps) =>
        var sectors := CeilDiv(|t.entries|, ss);
        && !FullyGrown(d, ss, size, t, data)
        && exists boot ::
             && PlanBoot(d, ss, data.startLba, size / ss - 1 - sectors - data.startLba) == Some(boot)
             && boot.grown == grown && Writes(env, d, ss, size / ss, t, data, boot, sectors, ps)
  {
    hide ReadTable, DataPart, PlanBoot, HeaderReads, TableReads, DataReads, VolumeGrows, Patches, Writes, U64, U32;
    hide GrownBlocks, GrownCount, RegionWritten, Parts, CeilDiv, PrimaryOk, TableShape;
    var total, sectors := size / ss, CeilDiv(|t.entries|, ss);
    WholeBlocks(size, ss);
    TableIs(env, d, ss, t);
    DataIs(env, t, data);
    TableIsThere(env, d, ss, t);
    FieldOf(d, ss, 2 * ss, 32);
    var offered: nat := total - 1 - sectors - data.startLba;
    BootPlanIs(d, ss, data.startLba, offered);
    DataIsThere(env, t, data);
    var boot := PlanBoot(d, ss, data.startLba, offered).value;
    DataPlanned(env, d, ss, total, t, data, boot, sectors);
  }

  lemma {:induction false} TableIsThere(env: Env, d: seq<byte>, ss: nat, t: Table)
    requires SectorSizeOk(ss) && ReadTable(env, d, ss) == Some(t)
    ensures |d| >= 2 * ss && PrimaryOk(env, d, ss) && TableShape(t)
  {
    hide MbrOk, HeaderValid, TableAt;
  }

  lemma {:induction false} DataIsThere(env: Env, t: Table, data: Part)
    requires TableShape(t) && DataPart(env, t) == Some(data)
    ensures data in Parts(env, t.entries, t.size, t.count) && data.index < t.count
  {
    PartIndex(env, t.entries, t.size, t.count, data);
  }

  lemma {:induction false} DataPlanned(
      env: Env, d: seq<byte>, ss: nat, total: nat, t: Table, data: Part, boot: BootPlan, sectors: nat)
    requires SectorSizeOk(ss) && PrimaryOk(env, d, ss) && TableShape(t) && 0 < total < U64_LIMIT
    requires data in Parts(env, t.entries, t.size, t.count) && data.index < t.count
    requires sectors == CeilDiv(|t.entries|, ss) && total - 1 - sectors - data.startLba > 1
    requires PlanBoot(d, ss, data.startLba, total - 1 - sectors - data.startLba) == Some(boot)
    requires data.endLba <= data.startLba + boot.grown - 1
    ensures |d| >= 2 * ss
    ensures var plan := PlanData(env, d, ss, total, t, data);
      if data.endLba == data.startLba + boot.grown - 1 && U64(d[ss..2 * ss], 32) == total - 1
      then plan == AlreadyGrown
      else (plan.Grow? && plan.grown == boot.grown
            && Writes(env, d, ss, total, t, data, boot, sectors, plan.patches))
  {
    hide PlanBoot, Patches, Writes, U64, U32, Parts, CeilDiv, TableShape, MbrOk, HeaderValid;
    WritesAre(env, d, ss, total, t, data, boot);
  }

  /** And only such a disk passes. */
  lemma {:induction false} PlanOnly(env: Env, d: seq<byte>, ss: nat, size: nat) returns (t: Table, data: Part)
    requires SectorSizeOk(ss) && size / ss < U64_LIMIT && Plan(env, d, ss, size) != Reject
    ensures Growable(env, d, ss, size, t, data)
  {
    hide ReadTable, DataPart, PlanBoot, HeaderReads, TableReads, DataReads, VolumeGrows, Patches, U64, U32;
    hide GrownBlocks, GrownCount, RegionWritten, Parts, CeilDiv, PrimaryOk, TableShape;
    WholeBlocks(size, ss);
    t := ReadTable(env, d, ss).value;
    data := DataPart(env, t).value;
    TableIs(env, d, ss, t);
    DataIs(env, t, data);
    BootPlanIs(d, ss, data.startLba, size / ss - 1 - CeilDiv(|t.entries|, ss) - data.startLba);
  }

  /** No table and no partition on the disk pass. */
  ghost predicate Unfit(env: Env, d: seq<byte>, ss: nat, size: nat)
    requires SectorSizeOk(ss)
  {
    forall t, data :: !Growable(env, d, ss, size, t, data)
  }

  /** So that is exactly when a disk is rejected. */
  lemma {:induction false} RejectsIff(env: Env, d: seq<byte>, ss: nat, size: nat)
    requires SectorSizeOk(ss) && size / ss < U64_LIMIT
    ensures Plan(env, d, ss, size) == Reject <==> Unfit(env, d, ss, size)
  {
    hide Plan, Growable;
    if Plan(env, d, ss, size) != Reject {
      var t, data := PlanOnly(env, d, ss, size);
    }
    if t, data :| Growable(env, d, ss, size, t, data) { PlanIs(env, d, ss, size, t, data); }
  }
}
