/**
 The independent reader at work: opening a volume, with its own boot checksum
 and its own checks of every field, and looking for the system entries of the
 root directory.
 */
module ExfatVolume {
  import opened Common
  import opened Bytes
  import opened ClusterFiles
  import opened RegionReads
  import opened GrowPlan
  import opened GrowLayout
  import opened GrowExfat
  import opened ExfatReader

  // ----- the boot checksum -----

  /** Bitwise or. */
  function Or(a: nat, b: nat): nat
    decreases a + b
  {
    if a == 0 && b == 0 then 0 else 2 * Or(a / 2, b / 2) + if a % 2 == 1 || b % 2 == 1 then 1 else 0
  }

  lemma {:induction false} OrZero(b: nat)
    ensures Or(0, b) == b
  {
    if b > 0 { OrZero(b / 2); }
  }

  /** Or joins numbers that share no bit. */
  lemma {:induction false} OrJoins(a: nat, b: nat, n: nat)
    requires a < Pow2(n)
    ensures Or(a, b * Pow2(n)) == a + b * Pow2(n)
  {
    if n == 0 {
      OrZero(b);
    } else {
      var high := b * Pow2(n - 1);
      assert b * Pow2(n) == 2 * high by { MulAssoc(b, Pow2(n - 1), 2); }
      OrJoins(a / 2, b, n - 1);
      OrHalves(a, high);
    }
  }

  lemma {:induction false} OrHalves(a: nat, high: nat)
    ensures Or(a, 2 * high) == 2 * Or(a / 2, high) + a % 2
  {
    assert 2 * high / 2 == high && 2 * high % 2 == 0;
    if a == 0 && high == 0 { assert Or(0, 0) == 0; }
  }

  lemma {:induction false} TopBit()
    ensures Pow2(31) == 0x8000_0000
  {
    assert Pow2(8) == 0x100;
    assert Pow2(16) == 0x1_0000;
    assert Pow2(24) == 0x100_0000;
  }

  /** The grower's rotation is the reader's shifts joined by or. */
  lemma {:induction false} RotationIsOr(c: nat)
    requires c < 0x1_0000_0000
    ensures RotateRight(c) == Or(c / 2, (c % 2) * 0x8000_0000) % 0x1_0000_0000
  {
    TopBit();
    hide Pow2;
    OrJoins(c / 2, c % 2, 31);
  }

  /** A sector of one word over and over, word by word. */
  lemma {:induction false} FilledIs(value: nat, ss: nat, s: seq<byte>)
    requires value < 0x1_0000_0000 && |s| == ss && ss % 4 == 0
    ensures s == Filled(value, ss) <==> forall i :: 0 <= i < ss / 4 ==> s[4 * i..4 * i + 4] == Le32(value)
  {
    hide Le32, U32;
    var word, f := Le32(value), Filled(value, ss);
    if s == f {
      forall i | 0 <= i < ss / 4 ensures s[4 * i..4 * i + 4] == word {
        forall k | 0 <= k < 4 ensures s[4 * i..4 * i + 4][k] == word[k] { DivUnique(4 * i + k, 4, i, k); }
      }
    }
    if forall i :: 0 <= i < ss / 4 ==> s[4 * i..4 * i + 4] == word {
      forall x | 0 <= x < ss ensures s[x] == f[x] {
        assert s[x] == s[4 * (x / 4)..4 * (x / 4) + 4][x % 4];
      }
    }
  }

  /** boot_region_checksum_ok: the reader's own sum over the first eleven sectors, against the twelfth. */
  method BootRegionChecksumOk(region: seq<byte>, ss: nat) returns (ok: bool)
    requires SectorSizeOk(ss) && |region| == 12 * ss
    ensures ok <==> ChecksumOk(region, ss)
  {
    hide RotateRight, Or, Filled, Le32;
    var checksum: nat := 0;
    for offset := 0 to 11 * ss
      invariant checksum == Checksum(region, offset)
    {
      if offset == 106 || offset == 107 || offset == 112 {
        continue;
      }
      RotationIsOr(checksum);
      checksum := Or(checksum / 2, (checksum % 2) * 0x8000_0000) % 0x1_0000_0000;
      checksum := (checksum + region[offset] as nat) % 0x1_0000_0000;
    }
    var expected := Le32(checksum);
    var last := region[11 * ss..];
    FilledIs(checksum, ss, last);
    for i := 0 to ss / 4
      invariant forall k :: 0 <= k < i ==> last[4 * k..4 * k + 4] == expected
    {
      if last[4 * i..4 * i + 4] != expected {
        return false;
      }
    }
    ok := true;
  }

  // ----- the boot sectors -----

  /** The last four bytes of sector `s`. */
  ghost predicate Signed(region: seq<byte>, ss: nat, s: nat)
    requires ss >= 4 && (s + 1) * ss <= |region|
  {
    MulAdd(s, 1, ss);
    region[s * ss + ss - 4..(s + 1) * ss] == [0, 0, 0x55, 0xAA]
  }

  lemma {:induction false} SignedIs(region: seq<byte>, ss: nat, s: nat)
    requires ss >= 4 && (s + 1) * ss <= |region|
    ensures Signed(region, ss, s) <==>
      forall x :: s * ss <= x < (s + 1) * ss && x % ss >= ss - 4 ==>
        region[x] == (if x % ss == ss - 2 then 0x55 else if x % ss == ss - 1 then 0xAA else 0)
  {
    MulAdd(s, 1, ss);
    var base := s * ss;
    forall x | base <= x < base + ss ensures x % ss == x - base { DivUnique(x, ss, s, x - base); }
    var four := region[base + ss - 4..base + ss];
    assert forall k :: 0 <= k < 4 ==> four[k] == region[base + ss - 4 + k];
  }

  /** The checks of the signatures, sector by sector. */
  ghost predicate Markers(region: seq<byte>, ss: nat)
    requires |region| == 12 * ss
  {
    forall x :: 1 * ss <= x < 9 * ss && x % ss >= ss - 4 ==>
      region[x] == (if x % ss == ss - 2 then 0x55 else if x % ss == ss - 1 then 0xAA else 0)
  }

  lemma {:induction false} MarkerAt(region: seq<byte>, ss: nat, s: nat)
    requires ss >= 4 && |region| == 12 * ss && Markers(region, ss) && 1 <= s < 9
    ensures (s + 1) * ss <= |region| && Signed(region, ss, s)
  {
    MulMonotone(1, s, ss);
    MulMonotone(s + 1, 9, ss);
    hide Signed;
    SignedIs(region, ss, s);
  }

  lemma {:induction false} MarkerSector(ss: nat, x: nat) returns (s: nat)
    requires ss > 0 && 1 * ss <= x < 9 * ss
    ensures 1 <= s < 9 && s * ss <= x < (s + 1) * ss
  {
    s := x / ss;
    BlockOf(1, 8, ss, x);
    BlockOf(s, 1, ss, x);
  }

  lemma {:induction false} MarkersAre(region: seq<byte>, ss: nat)
    requires ss >= 4 && |region| == 12 * ss
    ensures Markers(region, ss) <==> forall s: nat :: 1 <= s < 9 ==> (s + 1) * ss <= |region| && Signed(region, ss, s)
  {
    if Markers(region, ss) {
      forall s: nat | 1 <= s < 9 ensures (s + 1) * ss <= |region| && Signed(region, ss, s) {
        MarkerAt(region, ss, s);
      }
    }
    hide Signed;
    if forall s: nat :: 1 <= s < 9 ==> (s + 1) * ss <= |region| && Signed(region, ss, s) {
      forall x | 1 * ss <= x < 9 * ss && x % ss >= ss - 4
        ensures region[x] == (if x % ss == ss - 2 then 0x55 else if x % ss == ss - 1 then 0xAA else 0)
      {
        var s := MarkerSector(ss, x);
        SignedIs(region, ss, s);
      }
    }
  }

  /** `1 << n`. */
  method ShiftedOne(n: nat) returns (r: nat)
    ensures r == Pow2(n)
  {
    r := 1;
    for i := 0 to n
      invariant r == Pow2(i)
    {
      r := r * 2;
    }
  }

  /** The checks of the two boot regions, in a partition of `blocks` blocks at `start`. */
  method BootRegionsOk(d: seq<byte>, ss: nat, start: nat, blocks: nat) returns (ok: bool)
    requires SectorSizeOk(ss)
    ensures ok <==> BootAccepted(d, ss, start, blocks)
  {
    hide ChecksumOk, U32, U64, Pow2;
    if start * ss + 24 * ss > |d| {
      return false;
    }
    var main := d[start * ss..start * ss + 12 * ss];
    MarkersAre(main, ss);
    if main[..3] != [0xEB, 0x76, 0x90] || main[3..11] != [0x45, 0x58, 0x46, 0x41, 0x54, 0x20, 0x20, 0x20] {
      return false;
    }
    if main[510] != 0x55 || main[511] != 0xAA {
      return false;
    }
    for x := 120 to 510
      invariant forall y :: 120 <= y < x ==> main[y] == 0xF4
    {
      if main[x] != 0xF4 {
        return false;
      }
    }
    if main != d[start * ss + 12 * ss..start * ss + 24 * ss] {
      return false;
    }
    var sum := BootRegionChecksumOk(main, ss);
    if !sum {
      return false;
    }
    for sector := 1 to 9
      invariant forall s: nat :: 1 <= s < sector ==> (s + 1) * ss <= |main| && Signed(main, ss, s)
    {
      MulMonotone(sector + 1, 9, ss);
      MulAdd(sector, 1, ss);
      if main[sector * ss + ss - 4..(sector + 1) * ss] != [0, 0, 0x55, 0xAA] {
        assert !Signed(main, ss, sector);
        return false;
      }
    }
    var bytesPerSector := ShiftedOne(main[108] as nat);
    var sectorsPerCluster := ShiftedOne(main[109] as nat);
    ok := bytesPerSector == ss && main[110] == 1 && U32(main, 80) >= 128
      && U32(main, 88) % sectorsPerCluster == 0 && U64(main, 64) == start && U64(main, 72) <= blocks;
  }

  // ----- the system entries -----

  /** The joined bytes of a chain's clusters, if there is a chain and every cluster of it can be read. */
  method ReadChain(d: seq<byte>, vol: Volume, first: nat) returns (r: Option<seq<byte>>, ghost chain: seq<nat>)
    ensures r.Some? ==> ChainHolds(d, vol, first, chain, r.value)
    ensures r.None? ==> forall c, data :: !ChainHolds(d, vol, first, c, data)
  {
    hide Content, InImage, IsChain;
    var walked := ClusterChain(vol, first);
    if walked.Err? {
      return None, [];
    }
    chain := walked.value;
    var data: seq<byte> := [];
    for i := 0 to |walked.value|
      invariant forall k :: 0 <= k < i ==> 2 <= chain[k] < vol.limit && InImage(d, vol, chain[k])
      invariant data == Content(d, vol, chain[..i])
    {
      var c := walked.value[i];
      var at := (vol.heapLba + (c - 2) * vol.sectorsPerCluster) * vol.sectorSize;
      var size := vol.sectorsPerCluster * vol.sectorSize;
      ClusterRead(d, vol, c);
      if !(2 <= c < vol.limit && 0 <= at && at + size <= |d|) {
        forall other, data | ChainHolds(d, vol, first, other, data) ensures other == chain {
          SameChain(vol, first, chain, other);
        }
        return None, chain;
      }
      ContentNext(d, vol, chain, i);
      data := data + d[at..at + size];
    }
    assert chain[..|chain|] == chain;
    r := Some(data);
  }

  lemma {:induction false} ClusterRead(d: seq<byte>, vol: Volume, c: nat)
    ensures var at := (vol.heapLba + (c as int - 2) * vol.sectorsPerCluster) * vol.sectorSize;
      var size := vol.sectorsPerCluster * vol.sectorSize;
      && size >= 0 && (InImage(d, vol, c) <==> 0 <= at && at + size <= |d|)
      && (InImage(d, vol, c) ==> ClusterBytes(d, vol, c) == d[at..at + size])
  {
    MulMonotone(0, vol.sectorsPerCluster, vol.sectorSize);
  }

  lemma {:induction false} ContentNext(d: seq<byte>, vol: Volume, chain: seq<nat>, i: nat)
    requires i < |chain| && forall k :: 0 <= k <= i ==> InImage(d, vol, chain[k])
    ensures Content(d, vol, chain[..i + 1]) == Content(d, vol, chain[..i]) + ClusterBytes(d, vol, chain[i])
  {
    assert chain[..i + 1][..i] == chain[..i];
  }

  /** require_system_root_entries. */
  method SystemRootEntriesOk(upcase: seq<byte> -> bool, d: seq<byte>, vol: Volume, rootCluster: nat, count: nat)
    returns (ok: bool)
    requires VolumeShape(vol)
    ensures ok <==> exists root, table :: RootAccepted(upcase, d, vol, rootCluster, count, root, table)
  {
    hide Content, InImage, IsChain, CeilDiv, U32, U64, ChainHolds, FirstOf, BitmapEntryOk, UpcaseEntryOk;
    var read, root := ReadChain(d, vol, rootCluster);
    if read.None? {
      return false;
    }
    var dir := read.value;
    var b := FirstEntry(dir, 0x81);
    var u := FirstEntry(dir, 0x82);
    var l := FirstEntry(dir, 0x83);
    forall other, data | ChainHolds(d, vol, rootCluster, other, data) ensures data == dir {
      SameData(d, vol, rootCluster, root, dir, other, data);
    }
    if b.None? || u.None? || l.None? {
      return false;
    }
    FirstOnce(dir);
    EntryFits(dir, 0x81, b.value);
    EntryFits(dir, 0x82, u.value);
    var bitmap := BitmapOk(vol, dir, b.value, count);
    if !bitmap {
      return false;
    }
    var taken, table := UpcaseOk(upcase, d, vol, dir, u.value);
    if taken {
      assert RootAccepted(upcase, d, vol, rootCluster, count, root, table);
    }
    ok := taken;
  }

  lemma {:induction false} SameData(
      d: seq<byte>, vol: Volume, first: nat, a: seq<nat>, x: seq<byte>, b: seq<nat>, y: seq<byte>)
    requires ChainHolds(d, vol, first, a, x) && ChainHolds(d, vol, first, b, y)
    ensures a == b && x == y
  {
    SameChain(vol, first, a, b);
  }

  lemma {:induction false} FirstOnce(dir: seq<byte>)
    ensures forall kind, j, k :: FirstOf(dir, kind, j) && FirstOf(dir, kind, k) ==> j == k
  {
  }

  lemma {:induction false} EntryFits(dir: seq<byte>, kind: byte, k: nat)
    requires FirstOf(dir, kind, k)
    ensures 32 * k + 32 <= |dir|
  {
  }

  /** The bitmap's entry: its first cluster, its length, and the length of its chain. */
  method BitmapOk(vol: Volume, dir: seq<byte>, k: nat, count: nat) returns (ok: bool)
    requires 32 * k + 32 <= |dir| && VolumeShape(vol)
    ensures ok <==> BitmapEntryOk(vol, dir, k, count)
  {
    hide IsChain, U32, U64;
    var entry := dir[32 * k..32 * k + 32];
    EntryFields(dir, k);
    if U32(entry, 20) < 2 || U64(entry, 24) != (count + 7) / 8 {
      return false;
    }
    var walked := ClusterChain(vol, U32(entry, 20));
    if walked.Err? {
      return false;
    }
    forall other | IsChain(vol, U32(entry, 20), other) ensures other == walked.value {
      SameChain(vol, U32(entry, 20), walked.value, other);
    }
    var size := vol.sectorsPerCluster * vol.sectorSize;
    MulMonotone(1, vol.sectorsPerCluster, vol.sectorSize);
    ok := |walked.value| == (U64(entry, 24) + size - 1) / size;
  }

  lemma {:induction false} EntryFields(dir: seq<byte>, k: nat)
    requires 32 * k + 32 <= |dir|
    ensures var e := dir[32 * k..32 * k + 32];
      U32(e, 4) == U32(dir, 32 * k + 4) && U32(e, 20) == U32(dir, 32 * k + 20) && U64(e, 24) == U64(dir, 32 * k + 24)
  {
  }

  /** The up-case table's entry: its first cluster, its length, its contents and their sum. */
  method UpcaseOk(upcase: seq<byte> -> bool, d: seq<byte>, vol: Volume, dir: seq<byte>, k: nat)
    returns (ok: bool, ghost table: seq<nat>)
    requires 32 * k + 32 <= |dir|
    ensures ok ==> UpcaseEntryOk(upcase, d, vol, dir, k, table)
    ensures !ok ==> forall t :: !UpcaseEntryOk(upcase, d, vol, dir, k, t)
  {
    hide IsChain, U32, U64, ChainHolds, Content;
    var entry := dir[32 * k..32 * k + 32];
    EntryFields(dir, k);
    var size := U64(entry, 24);
    if U32(entry, 20) < 2 || !(0 < size <= 131072) {
      return false, [];
    }
    var read, chain := ReadChain(d, vol, U32(entry, 20));
    if read.None? {
      return false, [];
    }
    var data := read.value;
    forall other, content | ChainHolds(d, vol, U32(entry, 20), other, content) ensures content == data {
      SameData(d, vol, U32(entry, 20), chain, data, other, content);
    }
    ok := size <= |data| && size == 5836 && U32(entry, 4) == 0xE619_D30D && upcase(data[..size]);
    table := chain;
  }

  // ----- the volume -----

  /** Opening a volume: the reader takes it exactly when both parts pass. */
  method OpenVolume(upcase: seq<byte> -> bool, d: seq<byte>, ss: nat, start: nat, blocks: nat) returns (ok: bool)
    requires SectorSizeOk(ss)
    ensures ok <==> exists root, table :: VolumeAccepted(upcase, d, ss, start, blocks, root, table)
  {
    hide BootAccepted, RootAccepted, U32, Pow2;
    ok := BootRegionsOk(d, ss, start, blocks);
    if !ok {
      return;
    }
    BootIsThere(d, ss, start, blocks);
    var main := d[start * ss..start * ss + 12 * ss];
    var sectorsPerCluster := ShiftedOne(main[109] as nat);
    var fatAt := (start + U32(main, 80)) * ss;
    var vol := Volume(ss, sectorsPerCluster, start + U32(main, 88),
                      map c: nat | c < |d| && fatAt + c * 4 + 4 <= |d| :: U32(d, fatAt + c * 4),
                      0xFFFF_FFF8, U32(main, 92) + 2);
    assert vol == ReaderVolume(d, ss, start, main);
    ok := SystemRootEntriesOk(upcase, d, vol, U32(main, 96), U32(main, 92));
    if root, table :| RootAccepted(upcase, d, vol, U32(main, 96), U32(main, 92), root, table) {
      assert VolumeAccepted(upcase, d, ss, start, blocks, root, table);
    }
  }

  lemma {:induction false} BootIsThere(d: seq<byte>, ss: nat, start: nat, blocks: nat)
    requires SectorSizeOk(ss) && BootAccepted(d, ss, start, blocks)
    ensures start * ss + 24 * ss <= |d|
  {
    hide ChecksumOk, FixedFieldsOk, BootOk, U64;
  }
}
