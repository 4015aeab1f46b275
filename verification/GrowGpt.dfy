/** The partition table after a growth, as an independent reader of the disk parses it. */
module GrowGpt {
  import opened Common
  import opened Bytes
  import opened ClusterFiles
  import opened GrowPlan
  import opened GrowLayout
  import opened GrowEffect

  // ----- the reader -----

  /** A used slot lies between the first and the last usable block. */
  ghost predicate SlotInRange(t: Table, first: nat, last: nat, i: nat) {
    && t.size >= 128 && (i + 1) * t.size <= |t.entries|
    && var e := Entry(t.entries, t.size, i);
       Used(e) ==> first <= U64(e, 32) <= U64(e, 40) <= last
  }

  ghost predicate SlotsInRange(t: Table, first: nat, last: nat) {
    forall i :: 0 <= i < t.count ==> SlotInRange(t, first, last, i)
  }

  ghost predicate UsedSlot(t: Table, i: nat) {
    t.size >= 128 && (i + 1) * t.size <= |t.entries| && Used(Entry(t.entries, t.size, i))
  }

  ghost predicate SomeUsed(t: Table) {
    exists i :: 0 <= i < t.count && UsedSlot(t, i)
  }

  /** parse_gpt accepts the disk with this table. */
  ghost predicate ParsesAs(env: Env, d: seq<byte>, ss: nat, t: Table)
    requires SectorSizeOk(ss)
  {
    && |d| % ss == 0 && |d| / ss >= 2
    && ReadTable(env, d, ss) == Some(t)
    && PrimaryOk(env, d, ss) && TableShape(t)
    && var header, last := d[ss..2 * ss], |d| / ss - 1;
    && U64(header, 32) == last
    && last * ss + ss <= |d| && HeaderValid(env, d[last * ss..last * ss + ss], ss, last)
    && SlotsInRange(t, U64(header, 40), U64(header, 48)) && SomeUsed(t)
  }

  /** The backup header points back at the primary one and vouches for an equal entry array. */
  ghost predicate BackupAgrees(env: Env, d: seq<byte>, ss: nat, t: Table)
    requires SectorSizeOk(ss)
  {
    && |d| / ss >= 1 && TableShape(t)
    && var last := |d| / ss - 1;
    && last * ss + ss <= |d|
    && var backup := d[last * ss..last * ss + ss];
    && U64(backup, 32) == 1
    && TableAt(env, d, U64(backup, 72) * ss, U32(backup, 80), U32(backup, 84), U32(backup, 88))
       == Some(t.(at := U64(backup, 72) * ss))
  }

  // ----- headers -----

  lemma {:induction false} SealedIsValid(env: Env, header: seq<byte>, ss: nat, lba: nat)
    requires SectorSizeOk(ss) && |header| == ss && 92 <= U32(header, 12) <= ss
    requires header[..8] == GPT_SIGNATURE && U64(header, 24) == lba
    ensures HeaderValid(env, Sealed(env, header), ss, lba)
  {
    var r := Sealed(env, header);
    var n := U32(header, 12);
    assert U32(r, 12) == n && U64(r, 24) == lba;
    assert r[..8] == header[..8];
    assert PutU32(r[..n], 16, 0) == PutU32(header, 16, 0)[..n];
  }

  lemma {:induction false} SealedKeeps(env: Env, header: seq<byte>, o: nat)
    requires |header| >= 512 && 92 <= U32(header, 12) <= |header| && (o + 8 <= 16 || 20 <= o) && o + 8 <= |header|
    ensures U64(Sealed(env, header), o) == U64(header, o) && U32(Sealed(env, header), o) == U32(header, o)
  {
  }

  /** The primary header after the growth. */
  lemma {:induction false} NewHeaderFields(
      env: Env, h: seq<byte>, ss: nat, last: nat, lastUsable: nat, entries: seq<byte>)
    requires SectorSizeOk(ss) && |h| == ss && HeaderValid(env, h, ss, 1) && last < U64_LIMIT && lastUsable < U64_LIMIT
    ensures var r := NewHeader(env, h, last, lastUsable, entries);
      && HeaderValid(env, r, ss, 1)
      && U64(r, 32) == last && U64(r, 40) == U64(h, 40) && U64(r, 48) == lastUsable
      && U64(r, 72) == U64(h, 72) && U32(r, 80) == U32(h, 80) && U32(r, 84) == U32(h, 84)
        && U32(r, 88) == env.crc(entries)
  {
    hide Sealed, HeaderValid, PutU32, PutU64;
    var put := PutU32(PutU64(PutU64(h, 32, last), 48, lastUsable), 88, env.crc(entries));
    PutsKeep(env, h, last, lastUsable, env.crc(entries));
    HeaderParts(env, h, ss, 1);
    SealedIsValid(env, put, ss, 1);
    SealedKeeps(env, put, 32); SealedKeeps(env, put, 40); SealedKeeps(env, put, 48); SealedKeeps(env, put, 72);
    SealedKeeps(env, put, 80); SealedKeeps(env, put, 84); SealedKeeps(env, put, 88);
  }

  lemma {:induction false} HeaderParts(env: Env, h: seq<byte>, ss: nat, lba: nat)
    requires SectorSizeOk(ss) && |h| == ss && HeaderValid(env, h, ss, lba)
    ensures h[..8] == GPT_SIGNATURE && 92 <= U32(h, 12) <= ss && U64(h, 24) == lba
  {
  }

  lemma {:induction false} PutsKeep(env: Env, h: seq<byte>, last: nat, lastUsable: nat, crc: u32)
    requires |h| >= 512 && last < U64_LIMIT && lastUsable < U64_LIMIT
    ensures var r := PutU32(PutU64(PutU64(h, 32, last), 48, lastUsable), 88, crc);
      && |r| == |h| && r[..8] == h[..8] && U32(r, 12) == U32(h, 12) && U64(r, 24) == U64(h, 24)
      && U64(r, 32) == last && U64(r, 40) == U64(h, 40) && U64(r, 48) == lastUsable
      && U64(r, 72) == U64(h, 72) && U32(r, 80) == U32(h, 80) && U32(r, 84) == U32(h, 84) && U32(r, 88) == crc
  {
  }

  /** The backup header is the primary one with the places exchanged. */
  lemma {:induction false} BackupHeaderFields(env: Env, h: seq<byte>, ss: nat, last: nat, entriesAt: nat)
    requires SectorSizeOk(ss) && |h| == ss && HeaderValid(env, h, ss, 1) && last < U64_LIMIT && entriesAt < U64_LIMIT
    ensures 92 <= U32(h, 12) <= ss
    ensures var r := BackupHeader(env, h, last, entriesAt);
      && HeaderValid(env, r, ss, last) && U64(r, 32) == 1 && U64(r, 72) == entriesAt
      && U32(r, 80) == U32(h, 80) && U32(r, 84) == U32(h, 84) && U32(r, 88) == U32(h, 88)
  {
    hide Sealed, HeaderValid;
    HeaderParts(env, h, ss, 1);
    var put := PutU64(PutU64(PutU64(h, 24, last), 32, 1), 72, entriesAt);
    BackupPutsKeep(h, last, entriesAt);
    SealedIsValid(env, put, ss, last);
    hide PutU64;
    SealedKeeps(env, put, 32); SealedKeeps(env, put, 72); SealedKeeps(env, put, 80);
    SealedKeeps(env, put, 84); SealedKeeps(env, put, 88);
  }

  lemma {:induction false} BackupPutsKeep(h: seq<byte>, last: nat, entriesAt: nat)
    requires |h| >= 512 && last < U64_LIMIT && entriesAt < U64_LIMIT
    ensures var r := PutU64(PutU64(PutU64(h, 24, last), 32, 1), 72, entriesAt);
      && |r| == |h| && r[..8] == h[..8] && U32(r, 12) == U32(h, 12) && U64(r, 24) == last
      && U64(r, 32) == 1 && U64(r, 72) == entriesAt
      && U32(r, 80) == U32(h, 80) && U32(r, 84) == U32(h, 84) && U32(r, 88) == U32(h, 88)
  {
  }

  // ----- entries -----

  lemma {:induction false} SliceOfPut(d: seq<byte>, a: nat, b: nat, o: nat, v: nat)
    requires a <= b <= |d| && o + 8 <= |d| && v < U64_LIMIT
    ensures (o + 8 <= a || b <= o) ==> PutU64(d, o, v)[a..b] == d[a..b]
    ensures a <= o && o + 8 <= b ==> PutU64(d, o, v)[a..b] == PutU64(d[a..b], o - a, v)
  {
    hide U64, U32;
  }

  lemma {:induction false} SlotBounds(count: nat, size: nat, i: nat, k: nat)
    requires i < count && k < count
    ensures (i + 1) * size <= count * size && (i + 1) * size == i * size + size
    ensures (k + 1) * size <= count * size && (k + 1) * size == k * size + size
    ensures i < k ==> (i + 1) * size <= k * size
    ensures k < i ==> (k + 1) * size <= i * size
  {
    MulMonotone(i + 1, count, size);
    MulMonotone(k + 1, count, size);
    MulAdd(i, 1, size);
    MulAdd(k, 1, size);
    if i < k { MulMonotone(i + 1, k, size); }
    if k < i { MulMonotone(k + 1, i, size); }
  }

  lemma {:induction false} SlotOfPut(d: seq<byte>, a: nat, c: nat, size: nat, v: nat)
    requires size >= 128 && v < U64_LIMIT && a + size <= |d| && c + size <= |d|
    requires a == c || a + size <= c || c + size <= a
    ensures PutU64(d, c + 40, v)[a..a + size] == if a == c then PutU64(d[a..a + size], 40, v) else d[a..a + size]
  {
    hide PutU64, U64, U32;
    SliceOfPut(d, a, a + size, c + 40, v);
  }

  /** Only the end of the data partition changes in the entry array. */
  lemma {:induction false} EntryAfter(t: Table, data: Part, newEnd: nat, i: nat)
    requires TableShape(t) && data.index < t.count && newEnd < U64_LIMIT && i < t.count
    ensures (i + 1) * t.size <= |t.entries|
    ensures Entry(NewEntries(t, data, newEnd), t.size, i) ==
      if i == data.index then PutU64(Entry(t.entries, t.size, i), 40, newEnd) else Entry(t.entries, t.size, i)
  {
    hide PutU64, U64, U32;
    SlotBounds(t.count, t.size, i, data.index);
    SlotOfPut(t.entries, i * t.size, data.index * t.size, t.size, newEnd);
  }

  /** A partition of the old table, as the new table has it. */
  function Moved(p: Part, data: Part, newEnd: nat): Part {
    if p.index == data.index then p.(endLba := newEnd) else p
  }

  lemma {:induction false} PartAfter(env: Env, t: Table, data: Part, newEnd: nat, i: nat)
    requires TableShape(t) && data.index < t.count && newEnd < U64_LIMIT && i < t.count
    requires (data.index + 1) * t.size <= |t.entries| && PartAt(env, t.entries, t.size, data.index) == Some(data)
    requires data.startLba <= newEnd
    ensures (i + 1) * t.size <= |t.entries|
    ensures PartAt(env, NewEntries(t, data, newEnd), t.size, i) ==
      match PartAt(env, t.entries, t.size, i) case Some(p) => Some(Moved(p, data, newEnd)) case None => None
  {
    hide Entry, NewEntries;
    EntryAfter(t, data, newEnd, i);
    var e := Entry(t.entries, t.size, i);
    if i == data.index {
      var put := PutU64(e, 40, newEnd);
      assert put[..16] == e[..16] && put[56..128] == e[56..128] && U64(put, 32) == U64(e, 32);
    }
  }

  /** The new table holds the same partitions, in the same order, with a later end for the data partition. */
  lemma {:induction false} PartsAfter(env: Env, t: Table, data: Part, newEnd: nat, n: nat)
    requires TableShape(t) && data.index < t.count && newEnd < U64_LIMIT && n <= t.count
    requires (data.index + 1) * t.size <= |t.entries| && PartAt(env, t.entries, t.size, data.index) == Some(data)
    requires data.startLba <= newEnd
    ensures n * t.size <= |t.entries|
    ensures var ps, qs := Parts(env, t.entries, t.size, n), Parts(env, NewEntries(t, data, newEnd), t.size, n);
      |qs| == |ps| && forall k :: 0 <= k < |ps| ==> qs[k] == Moved(ps[k], data, newEnd)
  {
    hide PartAt, NewEntries;
    MulMonotone(n, t.count, t.size);
    if n > 0 {
      PartsAfter(env, t, data, newEnd, n - 1);
      PartAfter(env, t, data, newEnd, n - 1);
    }
  }

  lemma {:induction false} FirstNamedAfter(ps: seq<Part>, qs: seq<Part>, data: Part, newEnd: nat, name: string)
    requires |qs| == |ps| && forall k :: 0 <= k < |ps| ==> qs[k] == Moved(ps[k], data, newEnd)
    ensures FirstNamed(qs, name) ==
      match FirstNamed(ps, name) case Some(p) => Some(Moved(p, data, newEnd)) case None => None
  {
    if ps != [] {
      assert qs[0] == Moved(ps[0], data, newEnd);
      FirstNamedAfter(ps[1..], qs[1..], data, newEnd, name);
    }
  }

  function NewTable(t: Table, data: Part, newEnd: nat): Table
    requires TableShape(t) && data.index < t.count && newEnd < U64_LIMIT
  {
    t.(entries := NewEntries(t, data, newEnd))
  }

  /** The grower finds the same data partition in the new table. */
  lemma {:induction false} DataPartAfter(env: Env, t: Table, data: Part, newEnd: nat)
    requires TableShape(t) && DataPart(env, t) == Some(data) && data.startLba <= newEnd < U64_LIMIT
    ensures data.index < t.count && DataPart(env, NewTable(t, data, newEnd)) == Some(data.(endLba := newEnd))
  {
    hide NewEntries, PartAt, Parts, FirstNamed;
    PartIndex(env, t.entries, t.size, t.count, data);
    PartsAfter(env, t, data, newEnd, t.count);
    var ps, qs := Parts(env, t.entries, t.size, t.count), Parts(env, NewEntries(t, data, newEnd), t.size, t.count);
    FirstNamedAfter(ps, qs, data, newEnd, DATA_NAME);
    FirstNamedAfter(ps, qs, data, newEnd, EFI_NAME);
  }

  // ----- the grown table -----

  /** The values written to the table, from the old header `h` and the new backup array's block `e`. */
  ghost predicate ValuesMade(
    env: Env, ss: nat, total: nat, t: Table, data: Part, newEnd: nat, h: seq<byte>, e: nat, w: Written)
  {
    && SectorSizeOk(ss) && |h| == ss && 92 <= U32(h, 12) <= ss && HeaderValid(env, h, ss, 1)
    && 0 < e < total < U64_LIMIT && newEnd < e
    && TableShape(t) && data.index < t.count
    && w.entries == NewEntries(t, data, newEnd)
    && w.header == NewHeader(env, h, total - 1, e - 1, w.entries)
    && w.backup == BackupHeader(env, w.header, total - 1, e)
  }

  /** Where the table's reader finds them on `d'`. */
  ghost predicate TableRead(d': seq<byte>, ss: nat, total: nat, t: Table, h: seq<byte>, e: nat, w: Written) {
    && SectorSizeOk(ss) && |h| == ss && 2 <= total && |d'| == total * ss && 2 * ss <= |d'|
    && t.at == U64(h, 72) * ss && t.count == U32(h, 80) && t.size == U32(h, 84) && |w.entries| == |t.entries|
    && t.at + |t.entries| <= |d'| && e * ss + |t.entries| <= |d'| && (total - 1) * ss + ss <= |d'|
    && MbrOk(d')
    && d'[t.at..t.at + |t.entries|] == w.entries && d'[e * ss..e * ss + |t.entries|] == w.entries
    && d'[ss..2 * ss] == w.header && d'[(total - 1) * ss..(total - 1) * ss + ss] == w.backup
  }

  ghost predicate TableRewritten(
    env: Env, d': seq<byte>, ss: nat, total: nat, t: Table, data: Part, newEnd: nat, h: seq<byte>, e: nat, w: Written)
  {
    && ValuesMade(env, ss, total, t, data, newEnd, h, e, w) && TableRead(d', ss, total, t, h, e, w)
    && DataPart(env, t) == Some(data) && data.startLba <= newEnd
  }

  lemma {:induction false} TableIsRewritten(
      env: Env, d: seq<byte>, ss: nat, total: nat, t: Table, data: Part, boot: BootPlan, d': seq<byte>)
    requires Ready(env, d, ss, total, t, data, boot)
    requires Holds(d', ss, total, t, data, boot, WrittenBy(env, d, ss, total, t, data, boot))
    ensures TableRewritten(env, d', ss, total, t, data, data.startLba + boot.grown - 1, d[ss..2 * ss],
      EntriesAt(ss, total, t), WrittenBy(env, d, ss, total, t, data, boot))
  {
    hide PlanBoot, ReadTable, DataPart, HeapAt, OldEnd, NewEntries, NewHeader, BackupHeader, HeaderValid, U32, U64;
    hide Laid, Ordered, CeilDiv, NewMbr, BootRegion;
    ReadTableFields(env, d, ss, t);
    HeaderParts(env, d[ss..2 * ss], ss, 1);
    MbrAfter(d, d', ss, total);
  }

  lemma {:induction false} TableAfter(
      env: Env, d': seq<byte>, ss: nat, total: nat, t: Table, data: Part, newEnd: nat, h: seq<byte>, e: nat,
      w: Written)
    requires TableRewritten(env, d', ss, total, t, data, newEnd, h, e, w)
    ensures ReadTable(env, d', ss) == Some(NewTable(t, data, newEnd)) && PrimaryOk(env, d', ss)
    ensures U64(d'[ss..2 * ss], 32) == total - 1 && U64(d'[ss..2 * ss], 48) == e - 1
    ensures U64(d'[ss..2 * ss], 40) == U64(h, 40)
  {
    hide NewEntries, NewHeader, BackupHeader, HeaderValid, U32, U64, DataPart, TableAt;
    NewHeaderFields(env, h, ss, total - 1, e - 1, w.entries);
    TableAtIs(env, d', t.at, t.count, t.size, w.entries);
  }

  lemma {:induction false} ReadTableFields(env: Env, d: seq<byte>, ss: nat, t: Table)
    requires SectorSizeOk(ss) && ReadTable(env, d, ss) == Some(t)
    ensures PrimaryOk(env, d, ss) && TableShape(t)
    ensures var h := d[ss..2 * ss];
      t.at == U64(h, 72) * ss && t.count == U32(h, 80) && t.size == U32(h, 84) && env.crc(t.entries) == U32(h, 88)
  {
    hide U32, U64, HeaderValid;
  }

  lemma {:induction false} TableAtIs(env: Env, d: seq<byte>, at: nat, count: nat, size: nat, entries: seq<byte>)
    requires 0 < count <= 128 && size >= 128 && size % 8 == 0 && |entries| == count * size
    requires at + |entries| <= |d| && d[at..at + |entries|] == entries
    ensures TableAt(env, d, at, count, size, env.crc(entries)) == Some(Table(at, count, size, entries))
  {
  }

  lemma {:induction false} MbrAfter(d: seq<byte>, d': seq<byte>, ss: nat, total: nat)
    requires SectorSizeOk(ss) && |d| >= 2 * ss && |d'| >= 2 * ss && total > 0 && d'[..ss] == NewMbr(d, ss, total)
      && MbrOk(d)
    ensures MbrOk(d')
  {
    assert d'[510] == d'[..ss][510] && d'[511] == d'[..ss][511] && d'[0x1BE + 4] == d'[..ss][0x1BE + 4];
    assert d[510] == d[..ss][510] && d[511] == d[..ss][511] && d[0x1BE + 4] == d[..ss][0x1BE + 4];
  }

  lemma {:induction false} EndPutOnly(e: seq<byte>, newEnd: nat)
    requires |e| >= 128 && newEnd < U64_LIMIT
    ensures var put := PutU64(e, 40, newEnd);
      put[..16] == e[..16] && U64(put, 32) == U64(e, 32) && U64(put, 40) == newEnd
  {
    hide PutU64;
  }

  /** Every used slot of the new table lies in the new usable range. */
  lemma {:induction false} SlotAfter(t: Table, first: nat, data: Part, newEnd: nat, lastUsable: nat, i: nat)
    requires TableShape(t) && data.index < t.count && newEnd < U64_LIMIT && i < t.count
    requires data.startLba <= newEnd <= lastUsable
    requires SlotLaid(t, first, data, i)
    requires i == data.index ==> U64(Entry(t.entries, t.size, i), 32) == data.startLba
    ensures SlotInRange(NewTable(t, data, newEnd), first, lastUsable, i)
    ensures UsedSlot(t, i) ==> UsedSlot(NewTable(t, data, newEnd), i)
  {
    hide NewEntries, Entry, U32, Le32, PutU64, U64;
    EntryAfter(t, data, newEnd, i);
    EndPutOnly(Entry(t.entries, t.size, i), newEnd);
  }

  /** The table's reader accepts the grown disk: same partitions, later data end, backup at the last block. */
  lemma {:induction false} GrownTableParses(
      env: Env, d': seq<byte>, ss: nat, total: nat, t: Table, data: Part, newEnd: nat, h: seq<byte>, e: nat,
      w: Written)
    requires TableRewritten(env, d', ss, total, t, data, newEnd, h, e, w)
    requires SlotsLaid(t, U64(h, 40), data)
    ensures ParsesAs(env, d', ss, NewTable(t, data, newEnd)) && BackupAgrees(env, d', ss, NewTable(t, data, newEnd))
  {
    hide NewEntries, NewHeader, BackupHeader, HeaderValid, U32, U64, DataPart, ReadTable, TableAt, SlotsLaid;
    hide SlotsInRange, SomeUsed, MbrOk, TableRead, ValuesMade, BackupAgrees;
    TableAfter(env, d', ss, total, t, data, newEnd, h, e, w);
    BackupAfter(env, d', ss, total, t, data, newEnd, h, e, w);
    SlotsAfter(env, d', ss, total, t, data, newEnd, h, e, w);
    SizeOfDisk(env, d', ss, total, t, data, newEnd, h, e, w);
  }

  lemma {:induction false} SizeOfDisk(
      env: Env, d': seq<byte>, ss: nat, total: nat, t: Table, data: Part, newEnd: nat, h: seq<byte>, e: nat,
      w: Written)
    requires TableRewritten(env, d', ss, total, t, data, newEnd, h, e, w)
    ensures |d'| % ss == 0 && |d'| / ss == total >= 2 && TableShape(NewTable(t, data, newEnd))
    ensures (total - 1) * ss + ss <= |d'|
  {
    hide NewEntries, NewHeader, BackupHeader, HeaderValid, U32, U64, DataPart;
    DivUnique(|d'|, ss, total, 0);
  }

  lemma {:induction false} SlotsAfter(
      env: Env, d': seq<byte>, ss: nat, total: nat, t: Table, data: Part, newEnd: nat, h: seq<byte>, e: nat,
      w: Written)
    requires TableRewritten(env, d', ss, total, t, data, newEnd, h, e, w)
    requires SlotsLaid(t, U64(h, 40), data)
    ensures SlotsInRange(NewTable(t, data, newEnd), U64(h, 40), e - 1) && SomeUsed(NewTable(t, data, newEnd))
  {
    hide NewEntries, NewHeader, BackupHeader, HeaderValid, U32, U64, DataPart, Entry, SlotLaid, SlotInRange, UsedSlot;
    hide MbrOk, TableRead;
    DataSlot(env, t, data);
    var t', first, last := NewTable(t, data, newEnd), U64(h, 40), e - 1;
    forall i | 0 <= i < t.count ensures SlotInRange(t', first, last, i) {
      assert SlotLaid(t, U64(h, 40), data, i);
      SlotAfter(t, U64(h, 40), data, newEnd, e - 1, i);
    }
    assert SlotLaid(t, U64(h, 40), data, data.index);
    SlotAfter(t, U64(h, 40), data, newEnd, e - 1, data.index);
  }

  lemma {:induction false} DataSlot(env: Env, t: Table, data: Part)
    requires TableShape(t) && DataPart(env, t) == Some(data)
    ensures data.index < t.count && UsedSlot(t, data.index)
    ensures U64(Entry(t.entries, t.size, data.index), 32) == data.startLba
  {
    PartIndex(env, t.entries, t.size, t.count, data);
  }

  lemma {:induction false} BackupAfter(
      env: Env, d': seq<byte>, ss: nat, total: nat, t: Table, data: Part, newEnd: nat, h: seq<byte>, e: nat,
      w: Written)
    requires TableRewritten(env, d', ss, total, t, data, newEnd, h, e, w)
    ensures HeaderValid(env, d'[(total - 1) * ss..(total - 1) * ss + ss], ss, total - 1)
    ensures BackupAgrees(env, d', ss, NewTable(t, data, newEnd))
  {
    hide NewEntries, NewHeader, BackupHeader, HeaderValid, U32, U64, DataPart, TableAt;
    NewHeaderFields(env, h, ss, total - 1, e - 1, w.entries);
    BackupHeaderFields(env, w.header, ss, total - 1, e);
    TableAtIs(env, d', e * ss, t.count, t.size, w.entries);
    DivUnique(|d'|, ss, total, 0);
  }
}
