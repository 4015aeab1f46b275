# NextBoot: a verified model of its update, growth, mapping and configuration logic

NextBoot prepares bootable media. This project models four parts of it in
Dafny and proves what they are for.

**The media updater** (`scripts/media_update.py`, `scripts/media_update_io.py`)
replaces files on two volumes through a journal: it stages new files, backs up
old ones, publishes `pending.json`, moves the new files into place and commits;
recovery undoes a published transaction. The class `MediaUpdater.Updater` has
the same procedures over the same steps. Its field `faults` is a schedule of
what the environment does to the coming durable steps (nothing, an exception
before or after the effect, the loss of the process before or after the
effect). Each step's contract says exactly what each fault does to it, and
every contract holds for every schedule, so what is proved of a disk after a
call is proved at every crash point. The ends are exact: what a rollback leaves
is a function of the schedule (`UpdateFaults.RollbackRun`), and so are the
report of an update, whether a journal is left pending and whether the update
is complete (`UpdateVerdict.Expected`). `UpdateRuns` lifts this to every sequence of updates,
recoveries and rollbacks, each with its own mounted roots.

**Growing release media** (`scripts/grow-release-media.py`) validates a GPT and
an exFAT volume, plans a larger data partition and patches eight places on the
disk. The class `Grower.MediaFile` does so over the bytes of the disk. What
"well formed" means is taken from the readers in `scripts/qemu_verify/`. They
have their own modules: `ExfatReader` says what they accept, `ExfatVolume` is
the reader at work, with its own boot checksum by shifts and or, its own walk
through the FAT, its own search of the joined root directory and its own
constants; it shares with the grower only the decoding of fields. `ExfatLayout`
adds the program that lays out a growable volume
(`scripts/qemu/create-disk-image.py`), `ExfatFormat` the boot regions that are
written for it.

**Extents** (`scripts/qemu_verify/`, `crates/nextboot-boot/src/boot.rs`):
cluster chains become coalesced extents, extents are composed with extents,
and regions are read through them. The specification is a function from byte
to place; the code is cursor loops with clipping and checked 64-bit sums.

**The plugin configuration** (`crates/nextboot-config/src/`): the glob matcher,
against a declarative matching relation, and the JSON reader, against trees
that print to exactly the characters read. The readers of all plugin sections
are modelled with it (`SectionSpec`), and so is what each section makes of the
values read (`SectionBuild`). RFC 8259 is a grammar of its own (`JsonGrammar`).

A term that code and specification share is tied down by laws that name neither:
the owned paths, keys, identifiers and journals of the updater in `UpdateTerms`;
the bytes of headers, tables, boot sectors and writes, and the bits of the
checksum's rotation, in `GrowTerms`; white space, paths, numbers and passwords
by their characters in `TextTerms`; the rule that each object of each section
gives, by the positions of its keys, in `SectionRules` and `SectionTerms`; the
characters, keys and fields of a configuration in `ConfigTerms`; and the numbers
of RFC 8259, by the automaton that reads them, in `GrammarTerms`.

Results that a reader of one function would not see:

- Whatever is cut short, the files owed to the user after any run of updates
  and recoveries are those of some of the updates carried out whole and of the
  others not at all (`UpdateRuns.RunsAreAtomic`).
- Rolling a *finished* transaction back by name is not atomic: no journal is
  pending while its targets are replaced, so a crash between two targets leaves
  neither version and nothing marks it. `UpdateExample.TornRollbackExample`
  calls the procedure on a concrete disk and schedule that show it. Over all
  schedules, the rollback is atomic exactly when its journal is still pending
  or at most one target has to change (`UpdateRuns.RollbackAtomicIff`).
  Repeating it always finishes it (`UpdateRuns.RollbackResumes`).
- The report of `apply` can mislead in three ways, and `MediaUpdater.Misleads`,
  which `MediaUpdater.Updater.Apply` promises, says exactly when. It requires a
  recovery although the update is complete if and only if all steps are calm
  and the last, the removal of the pending journal, raises after its effect
  (`UpdateExample.CompleteUpdateExample`). It requires a recovery although the
  old files are back and nothing is pending if and only if a step behind the
  publication raises and the undo then raises at its own last step, after its
  effect (`UpdateExample.CompleteUndoExample`). And it reports a refusal although
  a journal is pending, which blocks every further update, if and only if the
  writing of that journal raises after its effect
  (`UpdateExample.PendingRefusalExample`). What a caller can tell afterwards from
  the disk is `UpdateSpec.Settled`.
- The documentation of the updater (docs/update-and-rollback.md:107-110) says
  that rollback refuses to overwrite later external modifications. The code
  makes one exception, which the model follows: a target that had been there
  before the transaction and has been removed since is put back
  (scripts/media_update.py:92). `UpdateProofs.RestorableIff` gives the exact
  condition, `UpdateExample.DeletedTargetExample` a call that shows it.
- The grower grows disks that the independent reader refuses.
  `GrowTheorems.GrowthIsAccepted` says which it accepts. Its boot checks pass on
  the grown disk if and only if the fields that growth keeps suit it: number of
  FATs, boot code, signatures, alignment. Its search of the root directory ends
  at an exact bitmap if and only if it ended at one before: the grower looks in
  each cluster, the reader joins the clusters and stops at the first end mark.
  And it takes the volume if and only if those fields suit it, the three root
  entries and the up-case table are in order, and the bitmap's chain is exactly
  as long as the new cluster count asks for, though the grower plans for chains
  with room to spare. `GrowExample` has a disk of each kind: `AcceptedExample`,
  `TwoFatsExample`, `UnshownExample`, `SpareExample`. A volume the reader took
  before the growth it takes after it.
- Layout, formatter, reader and grower agree: the boot regions that are written
  for a layout on which the loop of `exfat_geometry` settles pass every boot
  check of the reader on whatever disk they are put
  (`ExfatFormat.FormattedIsAccepted`), and the grower reads the layout's own
  figures from them (`ExfatFormat.FormattedIsLaid`), so that such media grow to
  all the blocks on offer (`ExfatLayout.LaidOutMediaGrowFully`).
- A disk grown in two steps is grown to the bytes of a disk grown in one, but
  for the old backup table, which by then lies inside the volume
  (`GrowSteps.GrowthInSteps`).
- `read_record_region` trusts the order of the extents: out of order, it can
  return other bytes than they map (`RegionReads.OutOfOrderExample`). Where no
  block belongs to two extents, a read that goes through is right on every image
  if and only if the parts of the range that the extents hold stand in order
  (`ReadOrder.RightIff`). Every producer modelled here keeps them in order.
- The JSON reader accepts more than RFC 8259: a comma may end a list, a value
  may be missing where a delimiter follows, other characters may stand where a
  number could, and the form feed is a blank. `JsonGrammar.TrailingCommaExample`
  is a text it should refuse. RFC 8259 allows an accepted text if and only if
  its one tree keeps the rules (`JsonGrammar.RfcIff`).
- It also accepts less: of the texts RFC 8259 allows it accepts exactly the
  objects without an escape of a surrogate in any literal whose members have a
  meaning (`JsonGrammar.RfcRead`, `JsonGrammar.SurrogatesOnly`);
  `JsonGrammar.SurrogateExample` is refused. A member has none when a section is
  not the array or object it should be, a number in it exceeds 32 bits or is no
  integer, or a list of texts holds something else (`SectionSpec.KindValue`).
- The sections do not treat a value of the wrong type alike: most keys pass
  over it, but `archive` in `injection` and `org` and `new` in `conf_replace`
  leave the reader in front of it, and so refuse the whole configuration unless
  the value is missing (`ConfigTerms.KeyIsRead`, `SectionSpec.KindRead`).

## Model

| member | source | states |
|---|---|---|
| MediaUpdater.Updater.WriteAdmin | scripts/media_update_io.py:86-99 | A durable write consumes one fault of the schedule, takes effect exactly when that fault lets it, and ends as the fault says |
| MediaUpdater.Updater.RemoveAdmin | scripts/media_update.py:82-83 | The same of unlinking |
| MediaUpdater.Updater.PutTarget | scripts/media_update.py:105-109 | The same of putting a target back, or removing it if it had been absent |
| MediaUpdater.Updater.MoveIntoPlace | scripts/media_update.py:172-174 | The same of the replace, which moves the staged file over its target in one step and fails if nothing is staged |
| MediaUpdater.Updater.Acquire | scripts/media_update_io.py:117-143 | The lock file holds a byte afterwards, and a second holder is turned away |
| MediaUpdater.Updater.Plan | scripts/media_update.py:26-39 | A payload is accepted exactly when every target lies on a mounted root among the paths owned there and no two name the same file up to ASCII case; then the changes are, in the order of the payload, exactly those items whose file is missing or holds something else, each with the digest of what was there and of what is to be |
| MediaUpdater.Updater.LoadJournal | scripts/media_update.py:42-72 | A journal loads exactly when its text is there, schema is 1, the status is one of three, the identifier is 32 hexadecimal digits and the one asked for, and every entry has a mounted, owned target that comes once, proper digests, and its volume's marker |
| MediaUpdater.Updater.Finish | scripts/media_update.py:75-83 | Disk, remaining faults and outcome for every schedule; the status is on record before the pending journal goes, and another transaction's pending journal is left alone |
| MediaUpdater.Updater.CheckRestorable | scripts/media_update.py:88-100 | The checks pass exactly when every target is absent, old or new and every backup has its digest |
| MediaUpdater.Updater.Restore | scripts/media_update.py:86-112 | Check, then act: if a check fails nothing has changed; else disk, remaining faults and outcome for every schedule, which is a prefix of the targets back, or all of them |
| MediaUpdater.Updater.RollbackLocked | scripts/media_update.py:117-123 | Accepted exactly when the journal loads, nothing else is pending and all is restorable; then what every schedule leaves is determined; otherwise the disk is unchanged |
| MediaUpdater.Updater.Rollback | scripts/media_update.py:115-123 | The same under the lock, which is released however the call ends |
| MediaUpdater.Updater.StageMarkers | scripts/media_update.py:150-152 | Every touched volume carries the transaction's marker, whatever the order; it stops at the first of as many steps that is not calm |
| MediaUpdater.Updater.StageOne | scripts/media_update.py:153-162 | One change is staged and its old content backed up inside the tree, in one step or two, stopped by the first that is not calm |
| MediaUpdater.Updater.StageAll | scripts/media_update.py:150-162 | Markers on the ESP and every touched volume, new contents and backups are in place before anything is published, nothing outside the transaction's tree is touched, and outcome and remaining faults are those of the first step that is not calm |
| MediaUpdater.Updater.Publish | scripts/media_update.py:150-166 | If a pending journal is there, then so are its manifest, its markers and every backup; it is there exactly when the last step has taken effect |
| MediaUpdater.Updater.Install | scripts/media_update.py:167-176 | At every stop a prefix of the changes has been installed, in order, and the schedule says which |
| MediaUpdater.Updater.InstallAndCommit | scripts/media_update.py:167-177 | At every stop the transaction is published with the prefix installed that the schedule says, or concluded, exactly when the last step has taken effect; loaders come last throughout |
| MediaUpdater.Updater.UndoAfter | scripts/media_update.py:178-183 | An exception leads back to the original files or leaves what can be undone; the report and what is left pending are exactly those of the schedule |
| MediaUpdater.Updater.Transact | scripts/media_update.py:150-184 | At every stop the transaction can be undone or is concluded; report, pending journal and completeness are, for every schedule, those of UpdateVerdict.Expected |
| MediaUpdater.Updater.ApplyLocked | scripts/media_update.py:135-184 | Stopped anywhere, the files owed are the old ones or those with the whole payload; an unfinished update is refused |
| MediaUpdater.Updater.ApplyWithLock | scripts/media_update.py:135-184 | The same with the lock taken and released: the report, what is pending and completeness for every schedule, and a refusal or loss without further effect where the update is not acceptable |
| MediaUpdater.Updater.Apply | scripts/media_update.py:126-184 | In plain words (UpdateTerms.Plainly): with distinct targets that are mounted and owned, nothing pending, room, no lock and no faults it ends well with the payload in place and every other file as it was; an item that is not owned or comes twice makes it refuse and leave the disk alone, whatever else holds. For every schedule: every report is true of the disk left, and each of the three ways in which a report misleads happens exactly on the schedules named |
| PlanProofs.LoadersLastSorts | scripts/media_update.py:139-141 | The install order is a permutation of the planned changes with everything on the ESP last |
| PlanProofs.InstallKeepsLoadersLast | scripts/media_update.py:140-176 | However many changes are installed, a new ESP target implies that every other change is in place |
| PlanProofs.ChangesArePlanned | scripts/media_update.py:26-41 | The sorted changes have distinct owned targets, true old digests and backups of what the targets hold |
| PlanProofs.PlanMeetsPayload | scripts/media_update.py:26-41 | Installing only the differences, loaders last, equals writing every payload item in the order given |
| PlanProofs.NothingPlanned | scripts/media_update.py:142-143 | No change is planned only when the payload is already in place |
| PlanProofs.PlanIsFelt | scripts/media_update.py:26-41 | Writing the payload changes the files exactly when some change is planned |
| UpdateTerms.KeyIs | scripts/media_update.py:29-32 | Two targets count as the same exactly when area and path agree but for the case of ASCII letters |
| UpdateTerms.IdIs | scripts/media_update.py:20-23 | A transaction identifier is valid exactly when it is 32 characters of 0123456789abcdef |
| UpdateTerms.PayloadIs | scripts/media_update.py:13-36 | Payloads are accepted exactly when every target is mounted and owned and none comes twice |
| UpdateTerms.PlanIs | scripts/media_update.py:26-39 | The plan changes exactly the items whose file is missing or different, in the order of the payload, and records what each file held |
| UpdateTerms.OrderIs | scripts/media_update.py:140-141 | The install order is a stable sort: first what is not on the ESP, then what is, each in the order of the plan |
| UpdateTerms.UpdatedIs | scripts/media_update.py:126-184 | After an update every item's file holds its content and every other file is as it was |
| UpdateTerms.LoadableIs | scripts/media_update.py:42-72 | The pending journal, or a named one, loads exactly when each requirement on its text holds |
| UpdateTerms.AreasAre | scripts/media_update.py:145-152 | The volumes that get a marker are the ESP and those of the changes |
| MediaUpdater.SaysPlainly | scripts/media_update.py:126-184 | What is decided for every schedule comes, on the schedule without faults, to the plain words |
| UpdateProofs.UndoInvertsInstall | scripts/media_update.py:101-111 | After any prefix of the installation, putting all originals back gives the files before it |
| UpdateProofs.UndoneForgets | scripts/media_update.py:101-111 | A complete undo does not depend on what the targets held |
| UpdateProofs.PublishedIsGuarded | scripts/media_update.py:150-177 | A published transaction, at any point of its installation, can be loaded and undone to the files before it |
| UpdateProofs.UndoneKeepsGuard | scripts/media_update.py:101-111 | Every prefix of the undo keeps the transaction loadable and undoable to the same files |
| UpdateProofs.RestoreIsSafe | scripts/media_update.py:86-112 | A recovery stopped anywhere loses nothing, and a complete one leaves exactly the files owed |
| UpdateProofs.RestorableIff | scripts/media_update.py:88-98 | What is restored beyond what the documentation allows is exactly a target that was there before and is missing now, with its backup intact |
| UpdateFaults.RunIsReach | scripts/media_update.py:101-112 | Whatever the schedule, a recovery leaves a disk among those named: a prefix of the targets back, or all with the status recorded, or the journal gone too |
| UpdateFaults.CrashAt | scripts/media_update.py:101-111 | For every prefix of the targets there is a schedule on which the process is lost exactly there |
| UpdateFaults.ReachIsRun | scripts/media_update.py:101-112 | Every disk so named is left by some schedule |
| UpdateVerdict.CompleteIff | scripts/media_update.py:167-184 | Recovery is asked for on a complete update exactly when the last step is the first that is not calm, and raises after its effect |
| UpdateVerdict.UndoneIff | scripts/media_update.py:178-184 | Recovery is asked for with nothing left to recover and the old files back exactly when a step behind the publication raises and then the undo's last step does, after its effect |
| UpdateVerdict.RefusedIff | scripts/media_update.py:150-166 | An update is refused with its journal pending exactly when the writing of that journal raises after its effect |
| UpdateVerdict.UndoSteps | scripts/media_update.py:101-112 | After an installed prefix the undo takes one step for each change in it and two more, stops at the first that is not calm, and withdraws the journal exactly when the last has taken effect |
| UpdateSpec.EnteringIsSafe | scripts/media_update_io.py:117-125 | Creating the lock file neither endangers nor alters a transaction |
| UpdateSpec.RecoveryIsSafe | scripts/media_update.py:178-183 | The undo inside `apply` can itself be stopped anywhere |
| UpdateSpec.ConcludedCanBeUndone | scripts/media_update.py:115-184 | A finished update can be named and rolled back to the files before it: rollback inverts apply |
| UpdateSpec.TransactMeetsApply | scripts/media_update.py:139-184 | What the transaction leaves is what `apply` promises for the payload |
| UpdateRuns.Drive | scripts/media_update.py:115-184 | Calls of the procedures in any order, with any mounted roots and under any faults, make only the runs the lemmas below speak of |
| UpdateRuns.StepWider | scripts/media_update.py:13-17 | What a call with fewer mounted roots may do, it may do with all of them |
| UpdateRuns.RunsAreSafe | scripts/media_update.py:86-184 | Invariant of all runs: whenever `pending.json` exists, markers, manifest and matching backups exist and every target is old or new |
| UpdateRuns.PendingCanBeRecovered | scripts/media_update.py:115-123 | A pending transaction is accepted by rollback, which then leaves every target as it was and removes `pending.json` |
| UpdateRuns.RunsAreAtomic | scripts/media_update.py:115-184 | Over all runs of updates and recoveries each update counts as one atomic step or as none |
| UpdateRuns.RecoverChangesNothing | scripts/media_update.py:115-123 | Recovery never alters the files owed |
| UpdateRuns.RunsKeepOthers | scripts/media_update.py:13-17 | Over all runs, even from tampered journals, every file whose area is not mounted, or whose path is not among those owned there, keeps its content |
| UpdateRuns.RunsKeepBackups | scripts/media_update.py:20-23 | Backups and markers survive every later run that starts no transaction of the same identifier |
| UpdateRuns.RollbackResumes | scripts/media_update.py:86-112 | A rollback by name that was cut short is accepted again and ends in the same files |
| UpdateRuns.RollbackAtomicIff | scripts/media_update.py:86-123 | Over all schedules, rollback by name leaves one version or the other exactly when its journal is pending or at most one target has to change |
| UpdateRuns.RollbackLeaves | scripts/media_update.py:115-123 | Whatever the schedule, a rollback leaves the disk alone or one of the disks its restore names |
| UpdateRuns.RollbackGetsTo | scripts/media_update.py:115-123 | Every such disk is left by some rollback, the creation of the lock file included |
| UpdateRuns.TornRollback | scripts/media_update.py:101-111 | With two targets to restore and nothing pending, it gives a schedule on which the process is lost between them and leaves neither version |
| UpdateExample.TornRollbackExample | scripts/media_update.py:101-123 | Rollback called on a concrete finished transaction with a concrete schedule ends interrupted on a torn disk |
| UpdateExample.TornIsTorn | scripts/media_update.py:101-123 | That disk owes neither the old nor the new files, and nothing on it is pending |
| UpdateExample.CompleteUpdateExample | scripts/media_update.py:176-184 | Apply called on a fresh disk with a schedule whose last step raises after its effect reports RecoveryRequired with the payload in place and nothing pending |
| UpdateExample.CompleteUndoExample | scripts/media_update.py:178-184 | Apply called with a schedule on which a move fails and the undo raises at its end reports RecoveryRequired with the old files back and nothing pending |
| UpdateExample.PendingRefusalExample | scripts/media_update.py:150-166 | Apply called with a schedule on which the pending journal is written but raises reports a refusal with the journal pending |
| UpdateExample.DeletedTargetExample | scripts/media_update.py:86-123 | Rollback called on a disk whose target was removed from outside puts it back, against docs/update-and-rollback.md:107-110 |
| GrowPlan.GrownFits | scripts/grow-release-media.py:210-221 | The grown volume neither shrinks nor exceeds what is offered, and its clusters fit the FAT's capacity and the cluster limit |
| Grower.ParsePartitions | scripts/grow-release-media.py:84-103 | The loop returns the used and sensible slots in slot order |
| Grower.UpdateBootChecksum | scripts/grow-release-media.py:118-128 | The rotate-and-add loop fills every word of the twelfth sector with the checksum of the first eleven and leaves those alone |
| Grower.ScanCluster | scripts/grow-release-media.py:170-177 | The loop computes ScanDirectory, which GrowPlan.ScanIs characterises |
| GrowPlan.ScanIs | scripts/grow-release-media.py:170-177 | The scan gives one offset exactly when it is the only 32-byte slot of type 0x81 before the first end mark; nothing exactly when there is none; several exactly when there are two |
| Grower.FindBitmapEntry | scripts/grow-release-media.py:167-182 | The loop computes FindBitmap, which GrowPlan.FindBitmapIs characterises |
| GrowPlan.FindBitmapIs | scripts/grow-release-media.py:167-182 | An entry is found exactly when some cluster has a single one and all clusters before it are on the image and have none; then it is that one |
| Grower.WalkChain | scripts/grow-release-media.py:153-163 | Returns the chain from a cluster exactly when there is one inside the volume |
| Grower.PlanBitmapLength | scripts/grow-release-media.py:139-193 | Plans the bitmap's new length, and refuses one that its chain cannot hold |
| Grower.PlanBootRegion | scripts/grow-release-media.py:196-230 | Plans the boot region under all the geometry checks |
| Bytes.WriteAt | scripts/grow-release-media.py:113-115 | After a write the stretch reads as written, every other byte as before, a gap before it as zero, and the length is the larger of the two ends; an empty write changes nothing |
| Grower.MediaFile.Grow | scripts/grow-release-media.py:233-306 | Failure-atomic: refused exactly when no table and partition on the disk pass (GrowTerms.Unfit), and then, or on a disk already grown, every byte stays; success is the eight writes of GrowTerms.Writes |
| Grower.MediaFile.GrowData | scripts/grow-release-media.py:266-306 | The same from the data partition on: every check comes before the first write |
| Bytes.ReadsBack | scripts/grow-release-media.py:282-302 | Writes that do not overlap can each be read back |
| Bytes.Untouched | scripts/grow-release-media.py:113-115 | A byte that no write covers is unchanged |
| GrowGpt.SealedIsValid | scripts/grow-release-media.py:77-81 | A header under its fresh CRC passes the header checks |
| GrowGpt.NewHeaderFields | scripts/grow-release-media.py:293-296 | The new primary header is valid and says where the backup, the last usable block and the entries are |
| GrowGpt.BackupHeaderFields | scripts/grow-release-media.py:298-302 | The backup header is valid at the last block and points back |
| GrowGpt.EntryAfter | scripts/grow-release-media.py:278-279 | In the entry array only the end of the data partition's entry changes |
| GrowGpt.PartsAfter | scripts/grow-release-media.py:84-103 | The new array holds the same partitions in the same order but for that end |
| GrowGpt.DataPartAfter | scripts/grow-release-media.py:257-264 | The data partition is found again in the new array |
| GrowGpt.GrownTableParses | scripts/qemu_verify/common.py:139-187 | The independent parser accepts the grown table, with the backup header at the last block and an equal backup array |
| GrowTerms.FieldBytes | scripts/grow-release-media.py:42-47 | Fields are little-endian, byte by byte |
| GrowTerms.CeilIs | scripts/grow-release-media.py:58-59 | The quotient rounded up is the least that covers the value |
| GrowTerms.PrimaryIs | scripts/grow-release-media.py:66-74 | The header is accepted exactly when MBR, signature, size, place and CRC are right, by their bytes on the disk |
| GrowTerms.TableIs | scripts/grow-release-media.py:239-255 | The table that is read is the one the header names, of 1 to 128 entries of at least 128 bytes, a multiple of 8, whole and under its CRC |
| GrowTerms.PartsAre | scripts/grow-release-media.py:84-103 | The partitions are exactly the slots with a type and a sensible range |
| GrowTerms.DataIs | scripts/grow-release-media.py:257-264 | The data partition is the first slot named NEXBOOT_DATA, with one named NEXBOOT_EFI there and none that starts behind it |
| GrowTerms.WritesAre | scripts/grow-release-media.py:278-302 | Where each of the eight writes goes and what it holds: MBR, entries, primary and backup header, by their fields, with every other byte as it was |
| GrowTerms.PlanIs | scripts/grow-release-media.py:233-306 | A disk that passes is left alone exactly if it is fully grown, and else gets those writes |
| GrowTerms.PlanOnly | scripts/grow-release-media.py:233-276 | Only a disk that passes is planned for |
| GrowExfat.ChecksumIgnores | scripts/grow-release-media.py:118-125 | The boot checksum does not depend on the bytes that change at run time |
| GrowExfat.ChecksumDetects | scripts/grow-release-media.py:118-125 | The boot checksum changes with every change of any one other byte |
| GrowExfat.WithChecksumOk | scripts/qemu_verify/exfat.py:76-85 | A boot region under its own checksum passes the reader's check |
| GrowTerms.RotatesRight | scripts/grow-release-media.py:124 | The checksum's step moves bit (k + 1) % 32 to bit k, for all 32 bits |
| GrowTerms.BitsDecide | scripts/grow-release-media.py:124 | Numbers of n bits that agree in every bit are equal, so the bits leave no choice |
| GrowTerms.ChecksumExample | scripts/grow-release-media.py:118-125 | The sums of two short regions with the same bytes in another order, as numbers |
| GrowTerms.SummedIs | scripts/qemu_verify/exfat.py:76-85 | A region that passes the checksum has the sum in every word of its twelfth sector |
| ExfatVolume.RotationIsOr | scripts/qemu_verify/exfat.py:82 | The reader's shifts joined by or give the grower's rotation |
| ExfatVolume.BootRegionChecksumOk | scripts/qemu_verify/exfat.py:76-85 | The reader's own loop, over its own or and its own skipped offsets, passes exactly the regions under the grower's checksum |
| GrowExfat.GrownRegionFields | scripts/grow-release-media.py:223-226 | In the grown boot region two fields and the checksum are new and every other byte is as before |
| GrowExfat.GrownFixedFields | scripts/qemu_verify/exfat.py:33-72 | The reader's other checks on the boot region pass after the growth exactly when they did before |
| GrowExfat.GrownClustersFit | scripts/grow-release-media.py:210-221 | The new clusters fit the new volume and each has its FAT entry |
| GrowExfat.GrownIsStable | scripts/grow-release-media.py:210-221 | Planning a grown volume for the same size changes nothing |
| GrowTerms.BootIs | scripts/grow-release-media.py:201-205 | The boot sector is accepted exactly when jump, name, start and sector size are right, by their bytes |
| GrowTerms.LengthsAre | scripts/grow-release-media.py:206-217 | The old figures are accepted exactly when the FAT is not empty, the heap lies behind block 24 and inside the volume, the volume inside what is offered, and each cluster has its entry and a number |
| GrowTerms.GrownIs | scripts/grow-release-media.py:210-220 | The grown length is the greatest on offer that is the old one or that its FAT describes, and the clusters are all that fit in it |
| GrowTerms.VolumeReads | scripts/grow-release-media.py:131-145 | Cluster 2 stands at the heap's start, and each next one a cluster further on |
| GrowTerms.FatReads | scripts/grow-release-media.py:146-151 | The FAT is read at its place, four bytes an entry, inside its length and the image |
| GrowTerms.BitmapPlanned | scripts/grow-release-media.py:165-193 | A bitmap entry that is found, long enough for the old clusters and with a chain for the new, is written with the least length for those |
| GrowTerms.PlannedBitmap | scripts/grow-release-media.py:165-193 | And only such an entry is |
| GrowTerms.RegionIs | scripts/grow-release-media.py:223-226 | The boot region as written: two fields, the sum in every word of the twelfth sector, every other byte as before |
| GrowTerms.BootPlanIs | scripts/grow-release-media.py:196-230 | The volume is planned for exactly when all that holds and at least 16 clusters result |
| GrowExfat.WiderChain | scripts/grow-release-media.py:153-163 | A chain of the old volume is the chain of the grown one |
| GrowExfat.GrownBitmap | scripts/grow-release-media.py:165-193 | On the grown disk the bitmap is found at the same entry with the same chain |
| GrowVolume.VolumeAfter | scripts/grow-release-media.py:165-193 | Planned for again, the grown volume has its bitmap entry at exactly the new cluster count over eight, rounded up, in a chain with room for it |
| ExfatReader.RawDirectoryEntries | scripts/qemu_verify/exfat.py:135-143 | The loop returns exactly the 32-byte entries before the first end mark of the joined clusters, in order |
| ExfatReader.FirstEntry | scripts/qemu_verify/exfat.py:151-170 | The first entry of a type among them, or that there is none |
| ExfatVolume.BootRegionsOk | scripts/qemu_verify/exfat.py:25-73 | The checks run one by one, with their own constants, pass exactly the boot regions that are accepted |
| ExfatVolume.ReadChain | scripts/qemu_verify/exfat.py:94-113 | The joined clusters of a chain, exactly when there is one and each of its clusters can be read |
| ExfatVolume.SystemRootEntriesOk | scripts/qemu_verify/exfat.py:145-177 | The checks of the three root entries pass exactly when some chains of the root directory and the up-case table are accepted |
| ExfatVolume.OpenVolume | scripts/qemu_verify/exfat.py:25-74 | The reader opens a volume exactly when it is accepted |
| GrowReader.SameEntry | scripts/qemu_verify/exfat.py:135-152 | Where the reader's search ends at a bitmap entry and the grower's succeeds, it is the same entry at the same byte |
| GrowReader.BitmapAfter | scripts/qemu_verify/exfat.py:145-159 | After growth the reader's search ends at an entry of exactly the right length, in a chain with room, if and only if it ended at one before |
| GrowReader.BootAcceptedAfter | scripts/qemu_verify/exfat.py:25-85 | All the reader's checks on the two boot regions pass on the grown disk exactly when the fields that growth keeps suit it |
| GrowReader.VolumeAcceptedAfter | scripts/qemu_verify/exfat.py:145-177 | The reader takes the grown volume exactly when the kept fields suit it, the three root entries and the up-case table are in order, and the bitmap's chain has exactly the length the new cluster count asks for |
| GrowReader.AcceptedFits | scripts/qemu_verify/exfat.py:145-177 | A volume the reader took before the growth meets those conditions |
| GrowTheorems.GrowthIsWellFormed | scripts/grow-release-media.py:233-306 | Growth gives a well-formed disk: the table parses with the same partitions but for the data end, both boot regions agree and pass, the volume is as long as its partition and its clusters fit |
| GrowTheorems.GrowthIsAccepted | scripts/qemu_verify/exfat.py:25-177 | What the independent reader makes of the grown disk, as three equivalences: boot checks, an exact bitmap found, and the whole volume taken; and it takes what it took before |
| GrowTheorems.GrowthIsIdempotent | scripts/grow-release-media.py:266-276 | Run again on the same media, the grower passes every check and changes nothing |
| GrowTheorems.GrowthFootprint | scripts/grow-release-media.py:282-302 | A growth changes no byte but the table's, the two boot regions' and the eight of the bitmap's length, up to the old volume's end |
| GrowTheorems.GrowthKeepsPartitions | scripts/grow-release-media.py:282-302 | Every byte of every other partition is unchanged |
| GrowSteps.GrowthKeepsLayout | scripts/grow-release-media.py:233-306 | The grown disk is laid out by the standards again, so every theorem here applies to it |
| GrowSteps.GrownTwice | scripts/grow-release-media.py:210-221 | Growing to less first changes none of the figures of growing to more |
| GrowSteps.BootTwice | scripts/grow-release-media.py:196-230 | The planner decides the same about the volume whether it has been grown before or not |
| GrowSteps.GrowthInSteps | scripts/grow-release-media.py:233-306 | A grown disk copied to larger media is planned exactly the writes the original would be; after them the two differ at most in the backup table of the smaller media |
| GrowExample.ExampleGrows | scripts/grow-release-media.py:233-306 | Concrete disks of 400 sectors that are laid out by the standards and grow, so the theorems above speak of something |
| GrowExample.UnshownExample | scripts/qemu_verify/exfat.py:135-148 | One grows although the reader, stopped by an end mark, finds no bitmap on it before or after |
| GrowExample.AcceptedExample | scripts/qemu_verify/exfat.py:25-177 | The usual one, once grown, is accepted by the reader, root directory, bitmap and up-case table included |
| GrowExample.SpareExample | scripts/qemu_verify/exfat.py:160-165 | One grows and passes the boot checks with an exact bitmap length, and is refused because the bitmap has a cluster to spare |
| GrowExample.TwoFatsExample | scripts/qemu_verify/exfat.py:56-72 | One grows and is refused because its boot sector claims two FATs |
| ExfatLayout.HeapChosen | scripts/qemu/create-disk-image.py:208-217 | The heap chosen is aligned to a cluster, lies behind the FAT, and leaves no more clusters than the FAT describes |
| ExfatLayout.SecondRoundSettles | scripts/qemu/create-disk-image.py:208-217 | A longer FAT leaves clusters that need no longer a FAT |
| ExfatLayout.ExfatGeometry | scripts/qemu/create-disk-image.py:188-220 | The loop ends within two rounds in a sound layout, and fails exactly when the cluster size is bad or the partition too small for the heap so chosen; the FAT stands in block 128 |
| ExfatLayout.HeapIs | scripts/qemu/create-disk-image.py:202-209 | The heap starts on the first cluster boundary that leaves room for the FAT behind block 128 |
| ExfatLayout.FatIs | scripts/qemu/create-disk-image.py:207-214 | The FAT is the shortest with four bytes for each cluster and two more |
| ExfatLayout.CountIs | scripts/qemu/create-disk-image.py:213 | The clusters are as many as fit behind the heap's start |
| ExfatLayout.MaxIs | scripts/qemu/create-disk-image.py:205-206 | The clusters planned for are those of the largest partition, but no fewer than 16 |
| ExfatFormat.PowersAre | scripts/qemu/create-disk-image.py:193-194 | The sectors per cluster that are accepted are exactly the powers of two |
| ExfatFormat.BootChecksum | scripts/qemu/disk_image/exfat.py:21-27 | The formatter's own sum is the checksum of the whole region |
| ExfatFormat.BootRegions | scripts/qemu/disk_image/exfat.py:144-179 | Refused exactly when a figure does not fit its field; otherwise the main region twice, with every figure in its field, the boot code, the signatures and the checksum |
| ExfatFormat.FormattedIsAccepted | scripts/qemu_verify/exfat.py:25-73 | The boot regions written for a settled layout pass every boot check of the reader, on whatever disk |
| ExfatFormat.FormattedIsLaid | scripts/grow-release-media.py:196-217 | The volume is laid out by the standard, and the grower reads the layout's own figures |
| ExfatLayout.LaidOutMediaGrowFully | scripts/grow-release-media.py:210-220 | Media laid out for a largest size grow to all the blocks on offer, for any number up to it |
| ClusterFiles.ClusterChain | scripts/qemu_verify/exfat.py:102-113 | Terminates on every FAT; succeeds exactly when a chain without repeats exists, and returns it |
| ClusterFiles.SameChain | scripts/qemu_verify/fat32.py:64-75 | A cluster has at most one complete chain |
| ClusterFiles.ChainExtents | scripts/qemu_verify/exfat.py:243-253 | The loop places all blocks exactly when the chain is long enough; the extents tile them, coalesced |
| ClusterFiles.FileExtents | scripts/qemu_verify/fat32.py:137-152 | Succeeds exactly when the file has a long enough chain or one run; the extents tile its blocks, and each block lies where its cluster in that chain says |
| Extents.ExtentList.Append | scripts/qemu_verify/common.py:188-199 | Appending maps the new blocks, keeps every old mapping, and merges exactly neighbours on both sides |
| Extents.TilesCover | scripts/qemu_verify/common.py:188-199 | Tiling extents cover every block below their end |
| Extents.AscendingAt | scripts/qemu_verify/common.py:188-199 | In ascending extents at most one covers a position |
| RegionReads.ReadRecordRegion | scripts/qemu_verify/verify.py:48-65 | For any list of extents: goes through exactly when every clipped piece lies on the image and the pieces add up, and returns their concatenation |
| RegionReads.ReadInOrder | scripts/qemu_verify/verify.py:48-65 | For extents in order, that is exactly when every byte of the region has a place on the image, and the bytes are those at their places |
| RegionReads.OutOfOrderExample | scripts/qemu_verify/verify.py:48-65 | Two extents out of order through which a read goes and returns the bytes exchanged |
| ReadOrder.RightIff | scripts/qemu_verify/verify.py:48-65 | A read that goes through is right on every image exactly when the parts of the range stand in order, where no block belongs to two extents |
| RegionReads.LocateByte | scripts/qemu_verify/verify.py:48-65 | Looking bytes up is looking blocks up |
| RegionReads.FileLocate | scripts/qemu_verify/exfat.py:235-253 | Each byte of a file has its place in the run or in its chain's cluster, for whatever extents the file was given |
| RegionReads.FileByte | scripts/qemu_verify/exfat.py:235-253 | Each byte read through the extents is the byte at its place in the joined clusters that cover the region |
| RegionReads.ReadIsSlice | scripts/qemu_verify/verify.py:48-65 | Any region read through a file's extents is that slice of its joined clusters |
| RegionReads.ReadFile | scripts/qemu_verify/verify.py:48-85 | End to end, from the directory record to the bytes, chained or in one run, on any volume: the bytes at the places of its chain; refused exactly for a directory, when no chain holds the file, or when a byte of the region has no place on the image |
| Segments.FindCovering | crates/nextboot-boot/src/boot.rs:411-426 | The first extent that covers the cursor, or why there is none |
| Segments.NextSegment | crates/nextboot-boot/src/boot.rs:409-455 | One turn maps a non-empty stretch exactly, or says which sum overflowed or that the byte is unmapped |
| Segments.SegmentList.AppendRange | crates/nextboot-boot/src/boot.rs:370-458 | The added segments tile the range and put each byte where the image's extents do; each error names its cause |
| Segments.MapFile | crates/nextboot-boot/src/boot.rs:314-368 | The segments refine the composition of the two mappings, tile the file when its extents do, and come from 64-bit products to 64-bit places; a file none of whose bytes has a place at 2^64 or beyond goes through unless a byte is unmapped or nothing is mapped |
| Segments.NoOverflow | crates/nextboot-boot/src/boot.rs:314-458 | No checked sum or product overflows while every end, in the file, in the image and on the disk, stays below 2^64 |
| Segments.ThroughIsLookup | crates/nextboot-boot/src/boot.rs:314-458 | Where nothing overlaps, going through both mappings is looking up twice |
| Glob.GlobBytesMatch | crates/nextboot-config/src/lib.rs:115-152 | Returns true exactly when the pattern matches, for `*` crossing `/` or not, up to ASCII case |
| Glob.CaseDoesNotMatter | crates/nextboot-config/src/lib.rs:146-152 | Exchanging 0x41..0x5A with 0x61..0x7A anywhere, in pattern or path, changes no match |
| Glob.LiteralMatches | crates/nextboot-config/src/lib.rs:119-152 | A pattern without 0x2A matches exactly the paths of its length that agree with it up to that exchange |
| Glob.StarMatches | crates/nextboot-config/src/lib.rs:115-137 | A pattern with 0x2A matches exactly when the path splits there: before it, a stretch without 0x2F unless the star may cross it, and behind it |
| Glob.LastStarSuffices | crates/nextboot-config/src/lib.rs:119-137 | Once a later star is reached, moving an earlier one further wins no match |
| Glob.NoSlashCarries | crates/nextboot-config/src/lib.rs:119-137 | Two places of a literal stretch that a star can move between have no separator in what they cover |
| Glob.StarTakesOne | crates/nextboot-config/src/lib.rs:127-136 | After a failed literal the star has to take one more byte, which must not be a separator it may not cross |
| Glob.PathExhausted | crates/nextboot-config/src/lib.rs:139-143 | When the path ends inside a literal, moving the star does not help |
| JsonText.PiecesMean | crates/nextboot-config/src/parser_core.rs:225-253 | Every text can be written as a literal that means it |
| JsonSpec.QuotedRead | crates/nextboot-config/src/parser_core.rs:225-275 | A printed literal is read back to the text it means, to its closing quote |
| JsonSpec.ValueRead | crates/nextboot-config/src/parser_core.rs:171-223 | A printed value, nested to any depth, is skipped exactly to its end |
| JsonSpec.ValueFound | crates/nextboot-config/src/parser_core.rs:171-223 | Whatever is skipped as a value prints to the characters skipped |
| JsonSpec.ReadsExactly | crates/nextboot-config/src/parser_core.rs:171-223 | The reader skips to a position exactly when a value ends there |
| JsonSpec.PrintedIsRead | crates/nextboot-config/src/parser_core.rs:171-223 | The same in any surroundings that end the value |
| SectionSpec.ArrayRead | crates/nextboot-config/src/parser_core.rs:138-161 | An array of strings is read to its strings, and refused if it holds anything else |
| SectionSpec.ArrayIsList | crates/nextboot-config/src/parser_core.rs:138-161 | What is read as an array of strings would be skipped as far |
| SectionSpec.NumberInText | crates/nextboot-config/src/parser_core.rs:112-136 | A number is read with the sign, digits and 32-bit bound of the atom it stands in |
| SectionSpec.KindRead | crates/nextboot-config/src/parser_core.rs:36-169 | Each of the readers of values makes of a printed value what its tree means, and stops at its end; or stops where the list around it refuses; or refuses |
| SectionSpec.EntriesRead | crates/nextboot-config/src/parser_core.rs:9-34 | An object printed from a tree is read, key by key and nested to any depth, to the values its keys ask for, and to its closing brace |
| SectionSpec.ObjectsRead | crates/nextboot-config/src/parser_plugins.rs:145-197 | The same of an array of such objects, which refuses anything else in it |
| SectionSpec.KindIsValue | crates/nextboot-config/src/parser_core.rs:9-169 | Whatever a reader reads, it moves exactly to the end of the value, or to where the list around it refuses |
| ConfigTerms.BlankIs | crates/nextboot-config/src/parser_core.rs:277-281 | The blanks are five code points |
| ConfigTerms.DelimiterIs | crates/nextboot-config/src/parser_core.rs:214-218 | The delimiters are three |
| ConfigTerms.EscapeIs | crates/nextboot-config/src/parser_core.rs:233-245 | The eight escapes and the code points they stand for |
| ConfigTerms.UnicodeIs | crates/nextboot-config/src/parser_core.rs:264-275 | Four hexadecimal digits stand for the code point they write, unless it is a surrogate |
| ConfigTerms.PlainIs | crates/nextboot-config/src/parser_core.rs:228-249 | Which characters stand for themselves |
| ConfigTerms.KeyIsRead | crates/nextboot-config/src/parser_plugins.rs:9-293 | Which keys of which objects take a text or pass over the value, which refuse all but a text, which take a text or a list, a number or objects, and what each then makes of the value; all others pass over it |
| TextTerms.SignedIs | crates/nextboot-config/src/parser_core.rs:112-136 | An atom is a number exactly when it is decimal digits, perhaps behind a minus, of at most 2147483647 |
| TextTerms.UnsignedIs | crates/nextboot-config/src/lib.rs:191-205 | A text is a number exactly when, trimmed, it is decimal digits of at most 4294967295 |
| TextTerms.PathIs | crates/nextboot-config/src/lib.rs:24-37 | A path is kept exactly when the text begins with a slash or backslash: without the white space behind it, and with slashes for backslashes |
| TextTerms.PathsAre | crates/nextboot-config/src/lib.rs:154-162 | Of a list, exactly the texts that give a path, in order |
| TextTerms.DefaultIs | crates/nextboot-config/src/lib.rs:168-185 | The default image is a path behind a function key, if there is one, trimmed before and after |
| TextTerms.PasswordIs | crates/nextboot-config/src/model.rs:134-155 | A password is at most 64 bytes of UTF-8 and txt# with its text, or md5# with 32 hexadecimal digits, perhaps behind a salt without # |
| TextTerms.Utf8Is | crates/nextboot-config/src/model.rs:134-155 | The length counted is that of the UTF-8 bytes |
| SectionBuild.CleanIsClean | crates/nextboot-config/src/lib.rs:24-37 | A path that a section keeps is absolute, has no backslash, and is kept unchanged if cleaned again |
| SectionRules.TargetIs | crates/nextboot-config/src/parser_plugins.rs:25-39 | The target of a rule is the last usable image, whatever parents there are, and without one the first usable parent |
| SectionRules.AliasIs | crates/nextboot-config/src/parser_menu.rs:170-230 | An alias takes its image and its name from the last texts under image and alias, and needs both |
| SectionRules.TipIs | crates/nextboot-config/src/parser_menu.rs:26-92 | A tip takes its target from image or dir, its lines from tip or tip1 and from tip2, and needs a target and a line |
| SectionRules.ClassIs | crates/nextboot-config/src/parser_menu.rs:94-168 | A class takes its target from the last key, or else the first parent or dir, and its name from class |
| SectionRules.MenuPasswordIs | crates/nextboot-config/src/parser_entry.rs:211-266 | A menu password takes its target from file or parent and its password from the last pwd |
| SectionRules.AutoInstallIs | crates/nextboot-config/src/parser_plugins.rs:9-74 | Target from image or parent, paths from the last template, choice and timeout from the last autosel and timeout; a rule exactly when there is a target and a path |
| SectionRules.PersistenceIs | crates/nextboot-config/src/parser_plugins.rs:88-143 | The same with the last image alone and with backend |
| SectionRules.InjectionIs | crates/nextboot-config/src/parser_plugins.rs:145-199 | Target from image or parent, archive from the last archive |
| SectionRules.DudIs | crates/nextboot-config/src/parser_plugins.rs:201-244 | Target from the last image, files from the last dud |
| SectionRules.ReplacementIs | crates/nextboot-config/src/parser_plugins.rs:245-292 | Target from the last iso, what is replaced from the last org, by what from the last new, image number from the last img; a rule exactly when the first three are usable |
| SectionRules.MadeIs | crates/nextboot-config/src/parser_plugins.rs:9-292 | The rules of a section are those of the objects that give one, in their order |
| SectionTerms.ControlIs | crates/nextboot-config/src/parser_entry.rs:93-172 | Each setting of control comes from the last text under its own key among all objects, and stays as it was without one |
| SectionTerms.PasswordsAre | crates/nextboot-config/src/parser_entry.rs:174-209 | There is a password for exactly those of seven keys that end in a usable one, and the menu's come from menupwd |
| SectionTerms.SectionIs | crates/nextboot-config/src/parser_entry.rs:33-70 | For each of the eleven sections, by name: the one part of the data it changes, whether it adds or replaces, and how that comes from the value |
| SectionBuild.SectionTwice | crates/nextboot-config/src/parser_plugins.rs:9-293 | Two readings of a section that collects rules add them up in order; of the others the second replaces the first |
| SectionBuild.SectionsCommute | crates/nextboot-config/src/parser_entry.rs:37-80 | Different sections do not touch each other's data |
| ConfigSpec.FieldsRead | crates/nextboot-config/src/parser_entry.rs:24-83 | Reading printed fields, plugin sections and what they build included, is folding their effects in order |
| ConfigSpec.DocRead | crates/nextboot-config/src/parser_entry.rs:15-92 | A printed document is read as the fold of its fields over the default |
| ConfigSpec.ConfigMeansDoc | crates/nextboot-config/src/parser_entry.rs:15-92 | The configurations read from a text are exactly the meanings of the documents that print to it |
| ConfigTerms.ActionIs | crates/nextboot-config/src/parser_entry.rs:33-78 | What each key at the top does, the platform's own keys included; image_list allows, image_blacklist denies |
| ConfigTerms.FieldIs | crates/nextboot-config/src/parser_entry.rs:33-78 | A field has exactly that effect, or none of its kind is possible and it is refused |
| ConfigTerms.DocIs | crates/nextboot-config/src/parser_entry.rs:15-92 | The configuration read is what the fields make, one after the other, of the empty one |
| JsonTrees.ValueUnique | crates/nextboot-config/src/parser_core.rs:171-223 | At a place of a text stands at most one value, with at most one end |
| JsonTrees.DocUnique | crates/nextboot-config/src/parser_entry.rs:15-92 | A text is printed by at most one document, so the meanings above are one |
| JsonGrammar.RfcIff | crates/nextboot-config/src/parser_core.rs:171-281 | An accepted text is one that the grammar of RFC 8259 produces exactly when its tree has no comma before a closing bracket, no missing or invalid atom and only the blanks of the standard |
| JsonGrammar.TrailingCommaExample | crates/nextboot-config/src/parser_core.rs:176-211 | A text RFC 8259 does not allow that is read as the default configuration |
| JsonGrammar.RfcRead | crates/nextboot-config/src/parser_entry.rs:15-92 | Of the texts the grammar of RFC 8259 produces the reader accepts exactly the objects whose literals all decode and whose members have a meaning, and reads that meaning |
| JsonGrammar.SurrogatesOnly | crates/nextboot-config/src/parser_core.rs:264-275 | The only escapes the standard allows and the reader refuses are those of surrogates |
| JsonGrammar.BadValue | crates/nextboot-config/src/parser_core.rs:171-253 | A value with such an escape anywhere in it is refused, however deep |
| JsonGrammar.SurrogateExample | crates/nextboot-config/src/parser_core.rs:264-275 | A text RFC 8259 allows that is refused |
| ConfigSpec.ClaimIsKept | crates/nextboot-config/src/parser_entry.rs:37-64 | Once the platform's own key has given a section, no later field gives it back to the common key |
| ConfigSpec.FieldIgnored | crates/nextboot-config/src/parser_entry.rs:74-76 | A field with an unknown key, or a common key after the platform's own, changes nothing wherever it is put |
| ConfigSpec.SameConfig | crates/nextboot-config/src/parser_entry.rs:15-92 | The same of whole texts |
| ConfigSpec.FieldsCommute | crates/nextboot-config/src/parser_entry.rs:24-83 | Neighbouring fields about different parts of the configuration can be exchanged: the same configuration is read, or both are refused |
| ConfigParser.JsonParser.SkipWs | crates/nextboot-config/src/parser_core.rs:277-281 | Moves to the next character that is not blank |
| ConfigParser.JsonParser.ParseUnicodeEscape | crates/nextboot-config/src/parser_core.rs:264-275 | Four hexadecimal digits give their character; surrogates and other characters are refused |
| ConfigParser.JsonParser.ParseString | crates/nextboot-config/src/parser_core.rs:225-253 | The loop returns the literal's text and stops behind it, or refuses |
| ConfigParser.JsonParser.SkipValue | crates/nextboot-config/src/parser_core.rs:171-223 | Moves exactly to the end of the value, or refuses |
| ConfigParser.JsonParser.SkipList | crates/nextboot-config/src/parser_core.rs:176-211 | The loops over members and items stop behind the closing bracket, or refuse |
| ConfigParser.JsonParser.ParseStringArray | crates/nextboot-config/src/parser_core.rs:138-161 | The loop returns the array's strings and stops behind it, or refuses |
| ConfigParser.JsonParser.ScanDigits | crates/nextboot-config/src/parser_core.rs:112-130 | The loop over checked 32-bit sums returns the value of the digits, and overflows exactly when it is out of range |
| ConfigParser.JsonParser.ParseOptionalI32 | crates/nextboot-config/src/parser_core.rs:112-136 | The number at its place, nothing for another value, or a refusal |
| ConfigParser.JsonParser.ParseOptionalString | crates/nextboot-config/src/parser_core.rs:163-169 | The literal if a quote stands there; otherwise nothing is read, and the reader stays in front of the value |
| ConfigParser.JsonParser.ParsePathListValue | crates/nextboot-config/src/parser_core.rs:53-72 | One string or an array of strings as a list; another value is passed over |
| ConfigParser.JsonParser.ParseKind | crates/nextboot-config/src/parser_plugins.rs:9-245 | The reader that a key asks for, in whichever section |
| ConfigParser.JsonParser.ParseObjectFields | crates/nextboot-config/src/parser_core.rs:9-34 | The loop reads the members of an object to the closing brace, each by the reader its key asks for, or refuses |
| ConfigParser.JsonParser.ParseObjects | crates/nextboot-config/src/parser_plugins.rs:145-197 | The loop over the objects of a section stops behind the closing bracket, or refuses |
| ConfigParser.JsonParser.ParseFields | crates/nextboot-config/src/parser_entry.rs:24-83 | The loop folds the fields' effects, or refuses |
| ConfigParser.JsonParser.ParseConfig | crates/nextboot-config/src/parser_entry.rs:15-92 | The whole text, with nothing behind the closing brace |
| ConfigParser.Parse | crates/nextboot-config/src/parser_entry.rs:8-92 | Returns the meaning of a document that prints to the text, which is what its fields make one after the other of the empty configuration, key by key; and refuses a text only when no such document has a meaning |

## Left out

- The media updater: parts of a durable write that leave no trace under the final name (temporary files left behind, directory creation), links, special files and fsync are not modelled; each write is one atomic step on a map.
- Edits by others while a call runs: the model has none, so the re-read checks of `apply` and `restore` (scripts/media_update.py:110-111, 156-162, 170-176) hold and appear as assertions.
- SHA-256 is a constructor, hence injective. Journals and markers are written and read back as values; their JSON text is not modelled. The identifier and the free-space test are parameters, and file names fold case in ASCII only.
- A restart of the process: the lock is held by the process and lost with it; the model releases it when a call ends, however it ends.
- UpdateRuns.RunsAreAtomic: covers runs of updates and recoveries; runs that also roll finished transactions back by name are not atomic, as `UpdateRuns.RollbackAtomicIff` says exactly.
- GrowTheorems.GrowthIsWellFormed: speaks of media whose stated size is the length of the disk and whose layout obeys the standards (`GrowTheorems.StandardLayout`: the FAT before the heap, the clusters in the volume, no used entry that overlaps the data partition or ends behind it). Growth is not crash-atomic; the model gives the order of the writes and claims nothing about a disk cut short between them.
- GrowTheorems.GrowthIsAccepted: its equivalence for the whole volume speaks of up-case tables that share no cluster with the root directory (`GrowReader.ChainsApart`) and lie in clusters of the old volume (`GrowReader.Inside`); on other disks the growth itself changes what the table reads as, or makes its clusters ones of the volume.
- CRC-32 and the decoding of partition names are parameters (`Env`); nothing is assumed of them.
- Decoding the up-case table (scripts/qemu_verify/exfat_metadata.py) is a parameter, a predicate on its bytes. Directory records and their checksums, and the Rust grower in `crates/nextboot-boot/src/media_grow.rs`, whose planner module is not part of this model.
- ExfatLayout.ExfatGeometry: the quotients rounded up in floating point by the original are taken as exact. The FAT32, FAT16 and NTFS geometries are left out as easier variants.
- Segments.MapFile: the error of an empty result is told apart from the other errors only by its cause; running out of memory is left out.
- The reader's input is a string of characters, not UTF-8 bytes; the byte order mark, the size limit and running out of memory are left out. The glob matcher works on bytes, as the original does.
- The selection of rules for an image (`find_matching_rule`, `path_parent_matches`), checking a password, the virtual ISO overlay, VDI, VHDX and XFS readers: left out in favour of the parts above.
