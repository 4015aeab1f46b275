/**
 The values of the media updater: the files of the two volumes, the journal,
 and what planning, installing and undoing mean as functions of those values.
 A volume's `.nextboot-update` tree is kept in `admin`, everything else in
 `files`. A SHA-256 digest is a value that determines the content it was
 taken of; a digest of content that occurs nowhere here is `OtherDigest`.
 */
module UpdateModel {
  import opened Common

  datatype Target = Target(area: string, path: string)

  datatype Leaf = Manifest | Marker | Stage(index: nat) | Backup(index: nat)

  datatype AdminFile = LockFile | Pending | InTree(area: string, id: string, leaf: Leaf)

  datatype Hash = Sha256(of: Content) | OtherDigest(hex: string) | NotADigest(text: string)

  datatype Entry = Entry(target: Target, before: Option<Hash>, after: Hash)

  datatype Journal = Journal(schema: int, id: string, status: string, entries: seq<Entry>)

  /** What a file holds: plain bytes, or bytes that read back as a JSON record. */
  datatype Content =
    | Blob(bytes: seq<byte>)
    | JournalText(journal: Journal)
    | MarkerText(markerId: string, markerArea: string)

  type Files = map<Target, Content>
  type Admin = map<AdminFile, Content>

  datatype Disk = Disk(files: Files, admin: Admin)

  /** The mounted roots and the targets the updater owns on each. */
  datatype Config = Config(roots: set<string>, owned: map<string, set<string>>)

  datatype PayloadItem = PayloadItem(target: Target, content: Content)

  datatype Change = Change(entry: Entry, content: Content, original: Option<Content>)

  predicate Owned(cfg: Config, t: Target) {
    t.area in cfg.roots && t.area in cfg.owned && t.path in cfg.owned[t.area]
  }

  function Digest(c: Content): Hash { Sha256(c) }

  function FileDigest(files: Files, t: Target): Option<Hash> {
    if t in files then Some(Digest(files[t])) else None
  }

  /** Two targets with the same key name the same file on a case-insensitive volume. */
  function Key(t: Target): (string, string) { (t.area, Lower(t.path)) }

  predicate HexDigit(c: char) { '0' <= c <= '9' || 'a' <= c <= 'f' }

  predicate ValidId(id: string) {
    |id| == 32 && forall i :: 0 <= i < |id| ==> HexDigit(id[i])
  }

  // ----- planning -----

  ghost predicate DistinctKeys(ts: seq<Target>) {
    forall i, j :: 0 <= i < j < |ts| ==> Key(ts[i]) != Key(ts[j])
  }

  function PayloadTargets(payload: seq<PayloadItem>): (r: seq<Target>)
    ensures |r| == |payload|
  {
    seq(|payload|, i requires 0 <= i < |payload| => payload[i].target)
  }

  /** A payload the planner accepts: no target twice, every target owned. */
  ghost predicate PayloadOk(cfg: Config, payload: seq<PayloadItem>) {
    && DistinctKeys(PayloadTargets(payload))
    && forall i :: 0 <= i < |payload| ==> Owned(cfg, payload[i].target)
  }

  function ChangeFor(files: Files, item: PayloadItem): Change {
    Change(Entry(item.target, FileDigest(files, item.target), Digest(item.content)),
           item.content, Lookup(files, item.target))
  }

  /** The changes for the payload: the items whose target holds other content. */
  function PlanOf(files: Files, payload: seq<PayloadItem>): seq<Change> {
    if payload == [] then []
    else
      var n := |payload| - 1;
      var earlier := PlanOf(files, payload[..n]);
      if FileDigest(files, payload[n].target) != Some(Digest(payload[n].content))
      then earlier + [ChangeFor(files, payload[n])]
      else earlier
  }

  function OnlyArea(changes: seq<Change>, esp: bool): seq<Change> {
    if changes == [] then []
    else
      (if (changes[0].entry.target.area == "esp") == esp then [changes[0]] else [])
      + OnlyArea(changes[1..], esp)
  }

  /** The stable sort on "is on the ESP": everything else first, loaders last. */
  function LoadersLast(changes: seq<Change>): seq<Change> {
    OnlyArea(changes, false) + OnlyArea(changes, true)
  }

  function EntriesOf(changes: seq<Change>): (r: seq<Entry>)
    ensures |r| == |changes|
  {
    seq(|changes|, i requires 0 <= i < |changes| => changes[i].entry)
  }

  // ----- installing and undoing -----

  /** The files after every payload item has been written. */
  function Updated(files: Files, payload: seq<PayloadItem>): Files {
    if payload == [] then files
    else
      var n := |payload| - 1;
      Updated(files, payload[..n])[payload[n].target := payload[n].content]
  }

  /** The files after the first `k` changes have been installed. */
  function Installed(files: Files, changes: seq<Change>, k: nat): Files
    requires k <= |changes|
  {
    if k == 0 then files
    else Installed(files, changes, k - 1)[changes[k - 1].entry.target := changes[k - 1].content]
  }

  /** The files after the first `k` entries have been put back to `originals`. */
  function Undone(files: Files, entries: seq<Entry>, originals: seq<Option<Content>>, k: nat): Files
    requires k <= |entries| == |originals|
  {
    if k == 0 then files
    else Put(Undone(files, entries, originals, k - 1), entries[k - 1].target, originals[k - 1])
  }

  /** What the backups say the entries held before the transaction. */
  function Originals(admin: Admin, id: string, entries: seq<Entry>): (r: seq<Option<Content>>)
    ensures |r| == |entries|
  {
    seq(|entries|, i requires 0 <= i < |entries| =>
      if entries[i].before.None? then None
      else Lookup(admin, InTree(entries[i].target.area, id, Backup(i))))
  }

  // ----- the journal -----

  predicate DigestOk(h: Hash) { !h.NotADigest? }

  predicate EntryOk(cfg: Config, e: Entry) {
    Owned(cfg, e.target) && DigestOk(e.after) && (e.before.Some? ==> DigestOk(e.before.value))
  }

  function EntryTargets(entries: seq<Entry>): (r: seq<Target>)
    ensures |r| == |entries|
  {
    seq(|entries|, i requires 0 <= i < |entries| => entries[i].target)
  }

  predicate StatusOk(status: string) { status in {"prepared", "committed", "rolled_back"} }

  ghost predicate MarkersOk(admin: Admin, j: Journal) {
    forall i :: 0 <= i < |j.entries| ==>
      Lookup(admin, InTree(j.entries[i].target.area, j.id, Marker))
        == Some(MarkerText(j.id, j.entries[i].target.area))
  }

  /** A journal that loading accepts on this disk. */
  ghost predicate JournalOk(cfg: Config, admin: Admin, j: Journal) {
    && j.schema == 1 && StatusOk(j.status) && ValidId(j.id)
    && j.entries != []
    && (forall i :: 0 <= i < |j.entries| ==> EntryOk(cfg, j.entries[i]))
    && DistinctKeys(EntryTargets(j.entries))
    && MarkersOk(admin, j)
  }

  /** An entry whose target still belongs to the transaction and whose backup is intact. */
  ghost predicate Restorable(disk: Disk, j: Journal, i: nat)
    requires i < |j.entries|
  {
    var e := j.entries[i];
    && FileDigest(disk.files, e.target) in {None, e.before, Some(e.after)}
    && (e.before.Some? ==>
        var place := InTree(e.target.area, j.id, Backup(i));
        place in disk.admin && Digest(disk.admin[place]) == e.before.value)
  }

  ghost predicate AllRestorable(disk: Disk, j: Journal) {
    forall i :: 0 <= i < |j.entries| ==> Restorable(disk, j, i)
  }

  // ----- what a published transaction guarantees -----

  ghost predicate JournalAt(admin: Admin, place: AdminFile) {
    place in admin && admin[place].JournalText?
  }

  /** A published transaction: its journal loads from both places and it can be undone. */
  ghost predicate Guarded(cfg: Config, disk: Disk) {
    && JournalAt(disk.admin, Pending)
    && var j := disk.admin[Pending].journal;
       var place := InTree("esp", j.id, Manifest);
    && JournalOk(cfg, disk.admin, j)
    && JournalAt(disk.admin, place)
    && StatusOk(disk.admin[place].journal.status)
    && disk.admin[place].journal == j.(status := disk.admin[place].journal.status)
    && forall i :: 0 <= i < |j.entries| ==>
         && FileDigest(disk.files, j.entries[i].target) in {j.entries[i].before, Some(j.entries[i].after)}
         && Restorable(disk, j, i)
  }

  /** The protocol's invariant: an unfinished transaction can always be undone. */
  ghost predicate Safe(cfg: Config, disk: Disk) {
    Pending in disk.admin ==> Guarded(cfg, disk)
  }

  /**
   The files a user is entitled to: those on the volumes, or, while a
   transaction is published, those its backups would bring back.
   */
  function Recovered(disk: Disk): Files {
    if Pending in disk.admin && disk.admin[Pending].JournalText? then
      var j := disk.admin[Pending].journal;
      Undone(disk.files, j.entries, Originals(disk.admin, j.id, j.entries), |j.entries|)
    else disk.files
  }

  /** Two trees that agree outside transaction `id`. */
  ghost predicate OnlyTree(a: Admin, b: Admin, id: string) {
    forall p: AdminFile :: !(p.InTree? && p.id == id) ==> Lookup(a, p) == Lookup(b, p)
  }
}
