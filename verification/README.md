# Verification of the installer's protocols

wootc installs Linux from Windows: it stages files on the EFI partition, builds a firmware boot
entry, arms it for one boot, and must be able to take everything back. This project models the
parts of it that can go wrong between two steps, and proves what holds at every such point.

The parts, one module per file:

- **BootStore, BootChain, BootTxn** - the boot-chain transaction. A machine is a firmware store,
  one journal record and a recorded GUID. Each bcdedit call may take effect or not and reports
  an exit code that means nothing; listings may be unreadable; power may fail after any command.
  `BootTxn.Machine` is the program, `BootChain` the order of commands it keeps to and what every
  run in that order guarantees. A ghost history ties the two together.
- **Glob** - kernel alias patterns: the scan that remembers only the last star, against the
  recursive meaning of a pattern.
- **Ancestry, OverlayOptions** - the walk from `/` of a guest down to whole disks, against chains of
  layers, and the mount options that say which paths an overlay is made of.
- **EspPath, EspManifest, EspOwnership, EspCleanup** - claiming files on the EFI partition before
  they are written, through a file system that refuses, lies and loses power, and removing them
  so that a removal cut short can be finished.
- **BootRepair** - putting Windows back in charge: observe, plan, act, observe again.
- **BcdParse** - the two readers of bcdedit's listing, against one printer.
- **KernelVersion, Layers** - the order of kernel releases and the merging of image layers.
- **InstallRecovery, InstallEngine** - the install steps, their journal, and what a relaunch offers.
- **PartitionReceipt** - the markers that keep a partition from being deleted twice.
- **ConsentSession** - one-shot consent under any interleaving of overlapping calls.
- **Accounts** - Linux account names for Windows profiles.
- **Text** - string operations and sorting shared by the others.

Environments are parameters: an oracle from a clock to a fault record says what the machine does
with each request, and theorems quantify over it. "Obeys" or "honest" means an oracle without
faults. A statement about every instant is a statement about a ghost history to which every
change of state is appended.

Properties that turned out not to hold as promised are stated as exact conditions:

- A reported claim is really recorded, whatever else fails, exactly when no temporary file that
  lacks it lies there at the call and no failed write can leave a part that lacks it
  (`ClaimIsRecordedIff`). The code ignores deletes that fail, and moves whatever temporary file it
  finds into place. A crash, a failed delete after a failed claim, and one after a landed claim each
  leave a stale file for the next call (`CrashedClaimShadowsNext`, `FailedDeleteShadowsNext`,
  `UndeletedTmpShadowsNext`); a torn write that cannot be deleted is promoted within the same call
  (`TornWriteIsPromoted`), and an empty one loses every claim (`TornClaimLosesAll`). So a single call
  is sound with a safe temporary file where no failed write leaves a part, and a sequence of calls
  (`StageAll`) where deleting works.
- A rollback that fails leaves a record that startup rolls back exactly unless nothing it saved
  landed and the old record was not one already (`RollbackBootChain`).
- A claim is read back exactly when it does not start with `#` and trimming leaves it alone
  (`ManifestRoundTrip`, `HashClaimIsLost`).
- A cleanup survives a power cut between deletions exactly when there is a manifest or no fedora
  binary hangs on the fedora menu (`CleanupSurvivesCrashesIff`).
- Restoring Windows works exactly when the Windows entry is not itself described like the
  product's and, where the tool refuses to take out what is not listed, no entry of the product
  is listed twice (`RestoreWindowsIff`).
- An unfinished install that left a journal, whose process is gone and that no deployer took over, is
  offered as resumable exactly when no journal record of a boot-chain step has landed and root.disk
  is absent or provably its own (`CrashIsResumedIff`). Journal writes are best effort, so a step that
  has begun may be unrecorded and resuming offered (`UnrecordedStepIsResumed`), and a root.disk older
  than the attempt blocks it (`ForeignRootDiskIsNotResumed`).
- A partition can be deleted again exactly in the window in which its deletion is not recorded
  (`RecordedIsNeverDeletedAgain`, `UnrecordedMayBeDeletedAgain`).
- A partition removal started over finishes exactly when no marker in the way was torn, a partition
  that is gone is recorded as deleted, and one whose deletion is recorded has not come back
  (`Uninstall`, `StuckStates`). Legal runs lead to every kind of stuck state (`StuckStatesAreReached`).
- Everyone promised an account gets one exactly when an account was chosen or no name comes out
  empty (`ListProfiles`, `EmptyNameIsSkipped`).
- Removing firmware agrees with removing the file of that name exactly unless the whiteout is one of
  the two directories above the firmware directory, which keeps all firmware, or is for a name that
  normalizing changes, such as a compressed spelling, which takes another name away
  (`FirmwareWhiteoutIff`). An opaque marker at the root hides nothing (`OpaqueWhiteoutIff`).
- A file named modules.dep in the modules directory itself passes for a release of that name
  (`ReleaseOfIff`); otherwise a release is exactly a directory with an index right below it.
- The two readers of a listing go by the same description of an object exactly when the first and the
  last one it lists are the same (`DescriptionsAgreeIff`, `DescribedTwice`).

## Model

| member | source | states |
|---|---|---|
| BootChain.NoChainProblems | app/boot_txn.go:300-337 | an empty problem list is exactly the intended chain, inert or armed: right path, no other wootc entry, not in the permanent order, first in the one-shot when armed, every staged hash equal |
| BootChain.NoEspProblems | app/boot_txn.go:265-296 | an empty list of ESP problems is exactly: the loader is staged and every staged file has its recorded hash |
| BootChain.NoResidue | app/boot_txn.go:341-356 | an empty residue is exactly: no entry described wootc exists, and the journaled GUID has no entry and is in neither list |
| BootChain.SweptIsClean | app/boot_txn.go:373-407 | a sweep whose commands all took effect leaves no residue |
| BootChain.SweptIsStable | app/boot_txn.go:373-407 | sweeping a clean store changes nothing |
| BootChain.SweepCommandKeepsOutcome | app/boot_txn.go:373-407 | a sweep cut after any command and started over ends in the same store |
| BootChain.PermittedKeepsGood | app/boot_txn.go:410-559 | every command the protocol may issue keeps the invariant, whether or not it takes effect |
| BootChain.PermittedKeepsFrame | app/boot_txn.go:373-454 | no permitted command deletes, rewrites or reorders a foreign entry |
| BootChain.EveryRunEndsGood | app/boot_txn.go:410-559 | at every instant of every run the invariant holds and foreign entries are untouched |
| BootChain.ArmedEntriesWereJournaled | app/boot_txn.go:486-519 | an existing entry of this transaction is in the one-shot only if `arming` was saved for it after the last `begun`, and the record then never says begun, prepared or rolled back |
| BootChain.GoodIsRecovered | app/boot_txn.go:575-587 | undisturbed recovery of any good machine ends committed, or rolled back and clean |
| BootChain.RecoveryConverges | app/recovery_windows.go:103-131 | from the state after any prefix of any run, recovery ends settled with foreign entries as they were, and recovering again changes nothing |
| BootChain.RollingRecovers | app/boot_txn.go:533-559 | an instant inside an obeyed rollback is recovered to the same end as the rollback itself |
| BootTxn.Machine.Issue | app/boot_txn.go:128-135 | one request takes effect or does nothing, and the history grows by it |
| BootTxn.Machine.Save | app/boot_txn.go:94-135 | the journal is replaced as a whole and reported so, or neither |
| BootTxn.Machine.ObserveFirmware | app/boot_txn.go:248-261 | a listing that can be read shows the store as it is |
| BootTxn.Machine.SweepWootcEntries | app/boot_txn.go:373-407 | whatever fails, only wootc entries are taken out; when commands obey, the store is the swept one; without a listing the journaled GUID goes all the same |
| BootTxn.Machine.SweepBlindly | app/boot_txn.go:375-384 | without a listing the journaled GUID is taken out of the one-shot, the permanent order and the store by name |
| BootTxn.Machine.SweepSequence | app/boot_txn.go:385-402 | the one-shot is cleared as a whole exactly when it is not empty and every element is wootc's, else one element at a time |
| BootTxn.Machine.ClearForCopy | app/boot_txn.go:410-421 | before a new entry is made the Windows menu is refreshed, the old GUID is forgotten and `creating-entry` is journaled, once an attempt |
| BootTxn.Machine.CopyEntry | app/boot_txn.go:422-432 | a GUID is taken over only if it is the clone just made |
| BootTxn.Machine.FinishEntry | app/boot_txn.go:436-445 | the new entry gets the staged loader's path and leaves the permanent order |
| BootTxn.Machine.LooksRight | app/boot_txn.go:446-453 | a look that finds no problem means the chain is exactly as wanted, inert or armed, at that very moment |
| BootTxn.Machine.EspLooksRight | app/boot_txn.go:265-296 | a positive look means that the loader is staged and every file has its recorded hash; exact when the machine obeys |
| BootTxn.Machine.BuildBootEntry | app/boot_txn.go:410-454 | success means an observed inert chain, journaled and recorded; failure leaves a record that startup rolls back |
| BootTxn.Machine.MakeEntry | app/boot_txn.go:422-454 | the entry is copied, journaled, finished and observed; success is an observed inert chain |
| BootTxn.Machine.BeginBootChainTxn | app/boot_txn.go:458-480 | done means prepared and inert, refused means untouched, undone means rolled back and clean, and otherwise startup will roll back; it gives up after three attempts, and an obeying machine is done exactly when the ESP chain is intact |
| BootTxn.Machine.PrepareWithRetries | app/boot_txn.go:468-480 | the retry loop ends in one of the same three ways, and gives up after exactly three attempts |
| BootTxn.Machine.ArmOnce | app/boot_txn.go:498-516 | one arming attempt commits only after a look showed the exactly armed chain, with no change of the store in between |
| BootTxn.Machine.ArmAndLook | app/boot_txn.go:501-512 | success means the exactly armed chain was seen; an inert chain is armed when the machine obeys |
| BootTxn.Machine.ArmBootChainTxn | app/boot_txn.go:486-519 | refused exactly unless prepared or arming; done means committed and exactly armed; failure, after two rebuilt entries, leaves a record that startup rolls back unless the deployer started; an obeying machine is done exactly when the ESP chain is intact, and undone otherwise |
| BootTxn.Machine.RollbackBootChainTxn | app/boot_txn.go:533-559 | fails closed: success only with `rolled-back` on disk and nothing left; an error leaves a record of an unfinished rollback, unless not one of its records reached the disk; an obeying machine succeeds, and every instant on the way recovers to the same end |
| BootTxn.Machine.SweepTwice | app/boot_txn.go:536-551 | two tries of sweep and look; clean means nothing is left, and it gives up after exactly two |
| BootTxn.Machine.SweepAndRecord | app/boot_txn.go:540-558 | `rolled-back` is saved only after a clean look, `rollback-unconfirmed` otherwise |
| BootTxn.Machine.RollbackAfter | app/boot_txn.go:521-530 | after a failure either everything is taken back or the record still makes startup roll back, in any case once a record of the rollback has landed |
| BootTxn.Machine.ArmBootChain | app/installer_esp.go:569-585 | refused exactly unless the record says prepared or arming, armed.json can be read and the ESP found; done means committed and true, undone means rolled back and clean, otherwise startup rolls back unless the deployer started; an obeying machine is done exactly when the ESP chain is intact |
| BootTxn.Machine.RollbackBootChain | app/installer_esp.go:660-689 | rolls back the persisted record, or the recorded GUID when the record cannot be read; from any record, a committed one included, an error leaves one that startup always rolls back, unless nothing that was saved landed |
| BootTxn.Machine.RecoverBootTxnAtStartup | app/recovery_windows.go:103-131 | rolls back exactly unless there is no record, it says committed or rolled back, or it says `arming` and the deployer has started or the installed system is coming up, which marks it committed; a rollback that fails is rolled back again by the next start and keeps the recorded GUID; otherwise only the journal changes; an obeying machine reaches the recovered state, and so does a restart from any instant inside |
| BootTxn.Machine.KeepOrMark | app/recovery_windows.go:113-116 | an `arming` record becomes committed, any other stays as it is |
| BootTxn.Machine.MarkChainBooted | app/recovery_windows.go:113-116 | `arming` becomes committed as a whole or stays |
| Glob.GlobClassMatch | app/hardware.go:292-317 | the class loop accepts exactly the characters of the class and returns its width, which depends on the pattern alone; an unclosed bracket is no class |
| Glob.SkipConsumes | app/hardware.go:245-290 | a run of elements without a star consumes a fixed number of characters |
| Glob.NewStarSubsumesOld | app/hardware.go:252-255 | once a later star is reached, going back to an earlier one finds no match the later one misses |
| Glob.AfterElement | app/hardware.go:256-278 | taking one more element keeps the scan on track |
| Glob.AfterMismatch | app/hardware.go:280-284 | moving the last star on by one loses no match |
| Glob.GlobMatch | app/hardware.go:245-290 | the scan returns true exactly when some split of the text matches the pattern |
| Glob.WrittenPatternMeans | app/hardware.go:245-317 | a pattern written out of stars, question marks, characters and bracketed lists matches exactly the texts made of what these stand for |
| Glob.UnclosedIsLiteral | app/hardware.go:262-273 | a bracket that is never closed stands for itself |
| Glob.BracketFirstIsListed | app/hardware.go:299-302 | a closing bracket that comes first is listed and does not end the class |
| Ancestry.DeepestIsDeepest | app/vm_guest_ancestry.go:245-268 | the chosen mount target covers the path and no other covering target is deeper |
| Ancestry.FindMountFor | app/vm_guest_ancestry.go:245-279 | the scan of all mounts finds that target whatever order they come in, and a stacked target is refused |
| Ancestry.MountForIff | app/vm_guest_ancestry.go:245-279 | a path is served exactly by the mount on the covering target that no other is longer than, unless several are stacked there |
| Ancestry.DiskIsExact | app/vm_guest_ancestry.go:281-363 | the walk succeeds exactly when every chain below is acyclic, of known layers and ends at whole disks, and returns exactly those disks |
| Ancestry.NextSays | app/vm_guest_ancestry.go:281-327 | one step down, for every device: a parentless disk rests on nothing, a known layer on its parents, a loop on the mount that serves its file, and anything else is refused |
| Ancestry.MajorShapedIff | app/vm_guest_ancestry.go:337-338 | a device number is two decimal numbers with a colon between them |
| Ancestry.ChainsEndAtWholeDisks | app/vm_guest_ancestry.go:281-327 | the bottom of every sound chain is a disk without parents |
| Ancestry.RequireIsExact | app/vm_guest_ancestry.go:365-373 | a row is accepted exactly when every chain below it is sound and the only disk reached is the selected one |
| Ancestry.BtrfsIff | app/vm_guest_ancestry.go:328-357 | a Btrfs mount is accepted exactly when its members are known, distinct and carry its file system, one of them is its source, and together they rest on the selected disk alone |
| Ancestry.PlainMountIff | app/vm_guest_ancestry.go:358-373 | any other mount is accepted exactly when its source is the device it names and that rests on the selected disk alone |
| Ancestry.OneLoopAtMost | app/vm_guest_ancestry.go:292-307 | a sound chain passes one loop device at most, and none unless it starts from a read-only projection |
| Ancestry.VerifyRootIsExact | app/vm_guest_ancestry.go:375-451 | a root is accepted exactly when it is backed: a plain one rests only on the selected disk; of an overlay the options can be read without doubt, the two writable layers come from one mount, and every path that an option lists is served by a mount that is not the overlay and rests only on that disk |
| Ancestry.WritableLayerIsBacked | app/vm_guest_ancestry.go:400-449 | the upperdir and the workdir that an accepted overlay is given are backed |
| Ancestry.LowerLayerIsBacked | app/vm_guest_ancestry.go:400-449 | so is every part of a lowerdir or datadir list, appended or not, split by `::` or not |
| OverlayOptions.ReadLayersIff | app/vm_guest_ancestry.go:383-395 | the options are read exactly when each layer is set once, cleanly and in a known way, and then every layer has the value it is given |
| OverlayOptions.LayerPathsIff | app/vm_guest_ancestry.go:400-426 | a layer is accepted exactly when its parts are absolute paths, one for a writable layer, with at most one empty part inside a lowerdir; its paths are the other parts |
| OverlayOptions.OverlayPathsIff | app/vm_guest_ancestry.go:383-429 | the options are trusted exactly when they can be read without doubt, and the paths are exactly those that some option lists |
| OverlayOptions.AbsoluteIff | app/vm_guest_ancestry.go:235-237 | a path is absolute and in its shortest spelling exactly when nothing between its slashes is empty, a dot or two dots, and it has no blank or backslash |
| OverlayOptions.OverlayHasLayers | app/vm_guest_ancestry.go:396-429 | an overlay that is trusted has a lower layer, and at most 32 paths, all absolute |
| EspPath.NormalizeIdempotent | app/esp_ownership.go:114-117 | normalizing twice is normalizing once |
| EspManifest.NormalizeValid | app/esp_cleanup.go:13-21 | a valid name stays valid when normalized and only case and slashes change |
| EspManifest.ValidRelIff | app/esp_cleanup.go:13-21 | a name is valid exactly when no character is forbidden and no part is empty or ends in a blank or a dot |
| EspManifest.ReadLinesIff | app/esp_ownership.go:85-110 | a manifest is trusted exactly when every line is blank, a comment, or a valid name without blanks around it, and claims exactly those names |
| EspManifest.LinesOfEdited | app/esp_ownership.go:95-97 | its lines are the same with either line end, and the last need not end at all |
| EspManifest.WriteManifest | app/esp_ownership.go:191-219 | the same claims always give the same text, sorted |
| EspManifest.ManifestRoundTrip | app/esp_ownership.go:85-110 | the manifest read back is exactly the claims written, if and only if every claim survives as a line |
| EspManifest.HashClaimIsLost | app/esp_ownership.go:85-110 | a claim that starts with `#` is stored as a comment and lost |
| EspOwnership.PersistTellsTheTruth | app/esp_ownership.go:256-298 | with a safe temporary file, and where no failed write leaves a part, success means the destination holds the content, and until then it holds the old or the new content |
| EspOwnership.PersistTidiesUp | app/esp_ownership.go:256-298 | where deleting works no write leaves a temporary file, however it ends |
| EspOwnership.HonestPersistIsOneTurn | app/esp_ownership.go:256-290 | without faults a write is over after one turn and reports success |
| EspOwnership.ReportedIsRecordedIff | app/esp_ownership.go:256-298 | a property of the content holds of the manifest after every reported success, whatever else fails, if and only if no temporary file without it lies there at the call and every part that a failed write may leave has it |
| EspOwnership.ClaimIsRecordedIff | app/esp_ownership.go:191-298 | a reported claim is really recorded, whatever else fails, if and only if no temporary file that lacks it lies there at the call and no failed write can leave a part that lacks it |
| EspOwnership.HonestPersistIsTrueIff | app/esp_ownership.go:256-298 | without faults the write claims success, truly so if and only if the content was there or no stale temporary file was |
| EspOwnership.TornWriteIsPromoted | app/esp_ownership.go:273-289 | from a disk without a temporary file: a write that is torn once and cannot be deleted is moved into place by the next turn, and reported as success |
| EspOwnership.TornClaimLosesAll | app/esp_ownership.go:300-313 | when the torn write left nothing but an empty file, a reported claim loses every claim, old and new |
| EspOwnership.CrashedClaimShadowsNext | app/esp_ownership.go:256-298 | a claim that crashed before its rename makes the next claim report success without being recorded |
| EspOwnership.FailedDeleteShadowsNext | app/esp_ownership.go:290-297 | from a disk without a temporary file, a claim that fails and cannot delete its own makes the next claim report success without being recorded |
| EspOwnership.UndeletedTmpShadowsNext | app/esp_ownership.go:268-271 | a landed write whose ignored delete fails reports success, and so does the lost claim after it |
| EspOwnership.MergedClaimsReadBack | app/esp_ownership.go:191-219 | writing old and new claims together reads back as exactly their union |
| EspOwnership.Volume.TryOnce | app/esp_ownership.go:256-290 | one turn of the retry loop |
| EspOwnership.Volume.PersistManifest | app/esp_ownership.go:256-298 | the loop does what the function says; with a safe temporary file, and where no failed write leaves a part, every instant shows the old or the new manifest |
| EspOwnership.Volume.RecordOwnership | app/esp_ownership.go:191-219 | where nothing stale is at the call (the temporary file is absent or right) or arises in it (no failed write leaves a part), success means the manifest reads back as old and new claims together, and every instant shows the old claims or all of them; without faults it succeeds exactly when there is no manifest or a trusted one and every name is valid |
| EspOwnership.Volume.ClaimPath | app/esp_ownership.go:334-336 | where nothing stale is at the call (the temporary file is absent or right) or arises in it (no failed write leaves a part), everything written stays claimed, whatever becomes of the claim; without faults it succeeds exactly when the manifest can be trusted and the name is valid |
| EspOwnership.Volume.StageESPFile | app/esp_ownership.go:334-339 | where nothing stale is at the call (the temporary file is absent or right) or arises in it (no failed write leaves a part), a file is written only after its claim is on disk; without faults it succeeds exactly when the claim can be made and the file written |
| EspOwnership.Volume.StageAll | app/esp_ownership.go:334-339 | over any sequence of staged files, where deleting the temporary file works, after a torn write too, at every instant every written file is claimed; without faults it goes through exactly when every name is valid and every file can be written |
| EspCleanup.OnlyTheMenuAttributes | app/esp_cleanup.go:75-98 | a fedora binary is attributed exactly when the fedora menu is marked |
| EspCleanup.MarkedIff | app/esp_cleanup.go:86-90 | a menu is attributed exactly when the marker stands somewhere in its text |
| EspCleanup.PlanIff | app/esp_cleanup.go:75-148 | the plan name by name: what the manifest claims, the five product files and the marked menus, and without a manifest the shared files a marked menu attributes; never the manifest itself |
| EspCleanup.AllowedIff | app/esp_cleanup.go:208-222 | what may be removed at all: everything below the product directory, and eleven shared names |
| EspCleanup.ForeignNamespacesAreSafe | app/esp_cleanup.go:208-222 | no claim a cleanup accepts lies in the Windows or the firmware fallback namespace |
| EspCleanup.PlanOutlivesCrash | app/esp_cleanup.go:125-206 | with a manifest, the plan worked out again from any intermediate disk asks for nothing new and ends at the same disk |
| EspCleanup.ForgottenFile | app/esp_cleanup.go:77-98 | without a manifest, a fedora binary outlives the menu that attributed it and the next plan forgets it |
| EspCleanup.CleanupSurvivesCrashesIff | app/esp_cleanup.go:152-206 | every intermediate disk leads to the same end if and only if there is a manifest or no fedora binary hangs on the menu |
| EspCleanup.Partition.LegacyClaims | app/esp_cleanup.go:75-123 | the historical staging set is derived file by file from what the menus say |
| EspCleanup.Partition.CleanupClaims | app/esp_cleanup.go:125-148 | the claims are the manifest's and the bounded legacy ones, never the manifest itself |
| EspCleanup.Partition.Preflight | app/esp_cleanup.go:165-175 | exactly the planned files that exist, in order |
| EspCleanup.Partition.RemoveVerified | app/esp_cleanup.go:176-183 | success means the file is gone |
| EspCleanup.Partition.RemoveAll | app/esp_cleanup.go:176-183 | only planned files go, in order; without interference every instant is one of the steps |
| EspCleanup.Partition.Finish | app/esp_cleanup.go:184-205 | the manifest goes only when every planned file is gone |
| EspCleanup.Partition.CleanupOwnedFiles | app/esp_cleanup.go:152-206 | success means every claimed file and the manifest are gone and nothing else; the first deletion not seen to work ends it; a refused plan touches nothing; every instant is a state of this cleanup |
| BootRepair.PlanBootRepair | app/boot_repair.go:171-373 | the decision by loops and indices equals its declarative reading: the boot state, the doubts, whether Windows can be restored, whether the boot can be repaired, and the recommendation |
| BootRepair.StateSays | app/boot_repair.go:277-302 | the state of the boot, as the one-shot and the permanent order show it |
| BootRepair.OffersSay | app/boot_repair.go:232-262 | exactly when a restore and when a repair is offered, and what makes the evidence doubtful |
| BootRepair.AdviceSays | app/boot_repair.go:362-372 | what is recommended is offered; nothing is recommended exactly where Windows alone boots without doubt |
| BootRepair.InspectEsp | app/boot_repair.go:313-342 | the ESP is in order exactly when it was found and its manifest is trusted; a staged file that is not claimed is a doubt |
| BootRepair.AheadIff | app/boot_repair.go:284-287 | the first owned index is below the Windows index exactly when the boot reaches an owned entry before Windows |
| BootRepair.RestoreWindowsCommands | app/boot_repair.go:396-424 | the commands touch only a one-shot that is all ours, our listed entries, and Windows when it is missing |
| BootRepair.RunUnlists | app/boot_repair.go:412-416 | taking entries out one by one takes exactly those out; a strict tool goes through exactly when each is listed and none twice |
| BootRepair.RestoreWindowsIff | app/boot_repair.go:587-607 | whenever a restore is offered, doing it and looking again finds a Windows-only boot if and only if Windows is not described like us and, with a strict tool, none of our entries is listed twice |
| BootRepair.WindowsNamedLikeUs | app/boot_repair.go:396-436 | a machine on which a restore is offered and cannot work: the Windows entry is described like ours |
| BootRepair.ListedTwice | app/boot_repair.go:412-416 | a machine on which a strict tool stops half-way: one of our entries is listed twice |
| BootRepair.PlanAfterRestore | app/boot_repair.go:428-436 | the second plan verifies exactly when the Windows entry is not owned |
| BootRepair.SecondRestoreChangesNothing | app/boot_repair.go:587-594 | after a restore that worked no other is offered, and without doubts nothing is recommended |
| BootRepair.CommandsAreOurs | app/boot_repair.go:396-424 | every command concerns our entries, or lists Windows |
| BootRepair.OursKeeps | app/boot_repair.go:587-600 | such a command deletes no entry and keeps the order of all others |
| BootRepair.Firmware.RunAndLook | app/boot_repair.go:595-607 | success is a Windows-only boot seen in the second look; an honest tool succeeds exactly under the condition above |
| BootRepair.Firmware.RestoreWindowsBoot | app/boot_repair.go:587-607 | whatever fails, no entry is deleted and foreign order is kept; success is what the second look shows; an honest tool succeeds exactly under the condition above |
| BcdParse.ParseBCDEnum | app/boot_txn.go:165-201 | the loop equals the reader as a function of lines |
| BcdParse.ParseBCDEntries | app/boot_repair.go:120-162 | the loop with its look-ahead equals the reader as a function of lines, the description it keeps beside the fields included |
| BcdParse.FieldShapeIff | app/boot_txn.go:155-155 | the transaction's reader takes a line for a field exactly when it is a word, two blanks or more, and a value |
| BcdParse.TrailingBlanksIgnored | app/boot_txn.go:165-172 | blanks at the end of a line do not matter to either reader |
| BcdParse.NothingToReplace | app/boot_repair.go:124-124 | a listing with plain line ends is read as it is |
| BcdParse.EnumReadsListings | app/boot_txn.go:165-201 | what this reader makes of every kind of printed line |
| BcdParse.EntriesReadsListings | app/boot_repair.go:120-162 | what the other reader makes of every kind of printed line |
| BcdParse.EnumInverts | app/boot_txn.go:165-201 | the transaction's reader recovers a printed listing |
| BcdParse.EntriesInverts | app/boot_repair.go:120-162 | the repair's reader recovers it under lower-case identifiers |
| BcdParse.ParsersInvertPrinter | app/boot_txn.go:165-201 | parsing a printed listing gives back exactly the objects listed, with either reader, so they agree on every field, the boot lists among them, up to the case of identifiers |
| BcdParse.DescriptionsInvert | app/boot_repair.go:120-162 | the description the repair's reader keeps is the last one an object lists |
| BcdParse.DescriptionsAgreeIff | app/boot_txn.go:145-150 | the transaction's reader goes by the first description listed; the readers agree on an object exactly when its first and last are the same, so always where it lists one at most |
| BcdParse.DescribedTwice | app/boot_repair.go:149-159 | an object that lists two different descriptions is described differently by the two readers |
| KernelVersion.VersionLessIsStrictTotalOrder | app/oci_hardware.go:356-395 | the order is irreflexive, asymmetric, transitive, and any two distinct names are comparable |
| KernelVersion.LongerIsGreater | app/oci_hardware.go:376-378 | without leading zeros the longer digit run is the greater number |
| KernelVersion.SameLengthByBytes | app/oci_hardware.go:379-381 | at equal length digit runs compare bytewise as numbers do |
| KernelVersion.StrippingKeepsValue | app/oci_hardware.go:369-375 | dropping leading zeros keeps the number |
| KernelVersion.KernelVersionLess | app/oci_hardware.go:356-395 | the index loops decide the lexicographic order over numbers and characters, with bytes as the tie-break |
| KernelVersion.GreaterNumberIsNewer | app/oci_hardware.go:359-381 | of two names that agree up to a number the one with the greater number is the newer, whatever follows |
| KernelVersion.CharacterDecides | app/oci_hardware.go:385-389 | where two names first differ in characters that are not both digits, those decide bytewise |
| KernelVersion.PrefixIsOlder | app/oci_hardware.go:391-394 | a name comes before every name that goes on where it ends |
| KernelVersion.CommonStartIsIgnored | app/oci_hardware.go:356-395 | what two names start with does not matter, unless it ends inside a number |
| KernelVersion.SpellingDecidesLast | app/oci_hardware.go:369-393 | spellings of one number are told apart by bytes, and only where all else is equal |
| KernelVersion.NewestIsUnique | app/oci_hardware.go:324-340 | an image has at most one newest release |
| KernelVersion.ReleaseOfIndex | app/oci_hardware.go:327-334 | an index file below the modules directory belongs to the release its directory names |
| KernelVersion.ReleaseOfIff | app/oci_hardware.go:324-334 | a file is the index of a release exactly when it is modules.dep right below a directory of that name; one in the modules directory itself passes for a release named modules.dep |
| KernelVersion.TargetKernel | app/oci_hardware.go:324-340 | the chosen release is the newest one, whatever order the files are listed in, and none is chosen exactly when there is none |
| Layers.PlainWhiteoutIff | app/oci_hardware.go:261-275 | the entry for removing dir/base is understood as that, unless base is empty or makes an opaque marker of it |
| Layers.RootWhiteoutIff | app/oci_hardware.go:261-275 | the same for an entry in the root |
| Layers.OthersRemoveNothing | app/oci_hardware.go:261-275 | an entry whose own name does not carry the marker removes nothing |
| Layers.OpaqueWhiteoutIff | app/oci_hardware.go:261-267 | an opaque marker hides everything below its directory, if and only if that is not the root |
| Layers.HidesIff | app/oci_hardware.go:296-301 | a whiteout is for exactly the name itself and everything below it |
| Layers.LastWriterWins | app/oci_hardware.go:294-318 | a module file has data d exactly when some layer adds d and no later layer adds it or hides it or a directory above; no layer hides its own files |
| Layers.FirmwareLastWriterWins | app/oci_hardware.go:302-323 | a firmware name is present exactly when some layer adds it and no later one removes it |
| Layers.OneNameHoweverCompressed | app/hardware.go:186-195 | firmware goes by one name, whether stored plainly or compressed in any of the three ways |
| Layers.PlainNameStays | app/hardware.go:186-195 | and a plain name without such an ending stays as it is |
| Layers.FirmwareWhiteoutIff | app/oci_hardware.go:302-313 | removing firmware agrees with removing the file of exactly that name from the image, if and only if the whiteout is neither of the two directories above the firmware directory nor for a name that normalizing changes |
| Layers.Overlay.RemoveModules | app/oci_hardware.go:295-301 | exactly the hidden files go |
| Layers.Overlay.RemoveFirmware | app/oci_hardware.go:302-313 | exactly the hidden names go |
| Layers.Overlay.ApplyLayer | app/oci_hardware.go:294-323 | the merge in place is whiteouts first, then the layer's own files |
| Layers.Overlay.ApplyLayers | app/oci_hardware.go:74-88 | applying layer after layer is the merge of all |
| InstallRecovery.TouchedIsNeverResumed | app/install_recovery.go:247-268 | whatever else is found, a journal that names a boot-chain step is never resumed |
| InstallRecovery.ResumeOfferedIff | app/install_recovery.go:146-299 | resuming is offered exactly when no deployer has taken over, the journal ended early or its process died before any boot-chain step, and a root.disk is provably its own; without a journal, from a staged or failed state that left neither root.disk nor armed.json; a root.disk is discarded exactly when resuming is offered and there is one |
| InstallRecovery.OwnedIff | app/install_recovery.go:118-143 | root.disk is provably this attempt's exactly when the attempt reached the step that makes it, it is not older than the attempt by more than two minutes, and nothing was armed or started from it |
| InstallRecovery.RetryAndRepairOfferedIff | app/install_recovery.go:151-222 | exactly when trying the armed chain again and when repairing it are offered |
| InstallRecovery.AdviceIff | app/install_recovery.go:151-299 | removal is offered exactly where something is left, and the gentlest offer is the advice |
| InstallRecovery.KindIff | app/install_recovery.go:165-299 | how the last attempt is described, for every observation |
| InstallRecovery.InstallFolder.PrepareResume | app/install_recovery.go:490-507 | succeeds exactly when resuming is offered and a root.disk, if there is one, can be deleted; deletes an owned one alone, and nothing after a boot-chain step |
| InstallEngine.CrashIsNeverResumed | app/install_recovery.go:105-112 | with journal writes landing, a power cut after a boot-chain step began is never offered as resumable |
| InstallEngine.CrashIsResumedIff | app/install_journal.go:157-184 | however the writes fare, an unfinished attempt whose process is gone and that no deployer took over is resumable exactly when not one of its records that landed names a boot-chain step and a root.disk is provably its own |
| InstallEngine.UnrecordedStepIsResumed | app/install_journal.go:147-163 | a boot-chain step that has begun while only the record of the start landed is offered as resumable |
| InstallEngine.ForeignRootDiskIsNotResumed | app/install_recovery.go:270-282 | a stop before any boot-chain step with a root.disk older than the attempt is not resumable |
| InstallEngine.DiskFollowsSteps | app/install_journal.go:157-184 | at every instant the disk holds the journal from before the attempt, or a prefix of the steps plus the running one |
| InstallEngine.Engine.Flush | app/install_journal.go:147-184 | the new journal lands as a whole or the old one is still there, and the history grows by what a power cut would now leave |
| InstallEngine.Engine.StepStarted | app/install_journal.go:157-163 | the step is recorded as running before it begins |
| InstallEngine.Engine.StepDone | app/install_journal.go:165-172 | the finished step joins the prefix |
| InstallEngine.Engine.OneStep | app/install_engine.go:282-331 | the start is recorded before the step begins, the end after it; it works exactly when nothing is injected and the step does not fail; a failure disarms exactly when the bootable step has begun |
| InstallEngine.Engine.RunSteps | app/install_engine.go:272-332 | all steps in order, exactly when no look before one finds a cancellation and none fails |
| InstallEngine.Engine.Leave | app/install_engine.go:274-279 | disarm if needed, then record how the attempt ended |
| InstallEngine.Engine.Finish | app/install_engine.go:334-363 | it succeeds exactly when nothing is injected and no cancellation came in late; only a clean end keeps the one-shot armed |
| InstallEngine.Engine.Run | app/install_engine.go:248-349 | an attempt finishes exactly when it may begin, no look finds a cancellation, no step fails and nothing is injected; one that does not finish is disarmed exactly once when the bootable step had begun and never otherwise; one that finishes never is; every instant is safe to recover from; a refused attempt leaves no trace |
| PartitionReceipt.LegalStepKeepsSound | app/disk_windows.go:163-204 | every step of a removal keeps the invariant of the markers |
| PartitionReceipt.EveryRunIsSound | app/partition_receipt.go:97-122 | every power cut of every attempt leaves a sound machine |
| PartitionReceipt.RecordedIsNeverDeletedAgain | app/disk_windows.go:177-199 | once a deletion is on record the helper never deletes again, whatever fails and even if the partition comes back |
| PartitionReceipt.NeverDeletedTwice | app/disk_windows.go:163-204 | from the creation on, a record of a deletion is true, the receipt can be read until all is done, and the partition is deleted at most once unless it came back before its deletion was recorded |
| PartitionReceipt.UnrecordedMayBeDeletedAgain | app/disk_windows.go:177-199 | the bound is tight: a partition that comes back before its deletion is recorded is deleted again |
| PartitionReceipt.StuckStates | app/installer_windows.go:382-423 | what a removal that is refused has found: a torn marker in the way, a partition gone without record, or one back despite it |
| PartitionReceipt.StuckStatesAreReached | app/installer_windows.go:382-423 | legal runs from the creation lead to each of these: every marker torn, a deletion cut before its record, a comeback after it |
| PartitionReceipt.Uninstaller.PersistNew | app/partition_receipt.go:60-81 | a marker is created only where none is, and may end up absent, torn or whole |
| PartitionReceipt.Uninstaller.MarkRemoval | app/partition_receipt_windows.go:117-129 | an existing marker must be for the same partition, and is left alone |
| PartitionReceipt.Uninstaller.RemovePartitionAndExtend | app/disk_windows.go:163-204 | the helper deletes only under a durable removal marker and only while no deletion is recorded |
| PartitionReceipt.Uninstaller.ExtendWindows | app/disk_windows.go:200-207 | the space goes back to Windows only while the partition is gone |
| PartitionReceipt.Uninstaller.FinalizeRemoval | app/partition_receipt.go:97-122 | completion is written only after a matching deletion record, and removed last |
| PartitionReceipt.Uninstaller.ReadStorageReceipt | app/partition_receipt_windows.go:65-75 | the receipt comes from the creation file, or once that is gone from the completion |
| PartitionReceipt.Uninstaller.Uninstall | app/installer_windows.go:382-423 | every change is a legal step for the receipt read; nothing is deleted unless the partition was located and assessed and the rest cleaned up; an unfinished removal that is not removable is refused with nothing changed, whatever the faults, and an obeying machine on which the checks pass finishes one that is |
| ConsentSession.StepKeepsSound | app/native_install_session.go:180-296 | every atomic step of any call keeps the session sound |
| ConsentSession.OneShotConsent | app/native_install_session.go:180-296 | over every interleaving at most one install or maintenance action runs and then no other; no intent runs twice; what runs was named by its confirmation, with the plan and the facts of its grant; a plan and a VM exclude each other; a restart follows a finished install |
| ConsentSession.ConfirmationRunsIff | app/native_install_session.go:209-296 | a waiting intent is run by its confirmation exactly when the message names it, the user is valid and the facts are as granted; what runs is the granted plan, once |
| ConsentSession.InstallRuns | app/native_install_session.go:182-224 | a new session grants an acceptable install and runs it when confirmed |
| ConsentSession.MaintenanceRunsIff | app/native_maintenance.go:239-285 | maintenance runs exactly when the facts at the confirmation are those of the grant, whatever changed in between |
| ConsentSession.VMRuns | app/native_vm.go:255-300 | in a session without a plan every VM request that may be granted is, and runs when confirmed, however often |
| ConsentSession.RestartIsGiven | app/native_install_session.go:119-130 | a restart is given after an install that ran and finished |
| ConsentSession.GrantsWereAdmitted | app/native_maintenance.go:202-229 | each maintenance or VM grant rests on an observation that admitted it |
| ConsentSession.ReplacedIsSpent | app/native_install_session.go:260-281 | a VM intent that a newer one replaces is spent |
| ConsentSession.SpentNeverRuns | app/native_vm.go:255-300 | a spent or refused intent never runs, whatever follows |
| ConsentSession.Session.PrepareNativeInstall | app/native_install_session.go:182-208 | the critical section is the atomic step of the same name |
| ConsentSession.Session.PrepareNativeMaintenance | app/native_install_session.go:226-245 | likewise |
| ConsentSession.Session.PrepareNativeVMAction | app/native_install_session.go:260-281 | likewise; the pending intent is dropped before a new one is granted |
| ConsentSession.Session.TakeIntent | app/native_install_session.go:209-219 | a confirmation takes the intent out of the session whatever becomes of it |
| ConsentSession.Session.ConsumeIntent | app/native_install_authorization_windows.go:122-136 | the first attempt uses the intent up before the message is looked at |
| ConsentSession.Session.CheckConfirmation | app/native_maintenance.go:250-280 | message, user and a fresh observation must all agree with the grant |
| ConsentSession.Session.RunAction | app/native_maintenance.go:280-285 | the granted plan runs |
| ConsentSession.Session.RecordStarted | app/native_install_session.go:219-224 | only a confirmed install that ran counts as started |
| ConsentSession.Session.RestartComputer | app/native_install_session.go:119-130 | a restart is given only after the session's install started and finished |
| Accounts.SanitizeUsername | app/app.go:106-137 | the loop equals the function of the name |
| Accounts.SanitizedIsLegal | app/app.go:106-137 | every result is empty or fits `[a-z_][a-z0-9_-]{0,31}`, without double or final hyphens |
| Accounts.SanitizeIdempotent | app/app.go:106-137 | sanitizing a sanitized name changes nothing |
| Accounts.LegalIsKept | app/app.go:106-137 | a name that is legal already is kept as it is |
| Accounts.SanitizeEmptyIff | app/app.go:106-137 | nothing survives exactly when the account part has no letter and no underscore |
| Accounts.SqueezeKeepsPlain | app/app.go:117-128 | no letter, digit or underscore is lost, invented or moved on the way |
| Accounts.SqueezeJoins | app/app.go:121-127 | between two words any run of blanks, dots and hyphens becomes one hyphen |
| Accounts.DomainIsDropped | app/app.go:106-111 | of DOMAIN\user only the user counts |
| Accounts.MailIsCut | app/app.go:112-115 | of a mail address only what stands before the sign counts |
| Accounts.DecimalInjective | app/profiles.go:126-135 | candidates with different numbers are different |
| Accounts.NextFallback | app/profiles.go:126-135 | the search ends and gives the first free candidate |
| Accounts.SortByAccount | app/profiles.go:165-167 | the same mappings in the order of their accounts |
| Accounts.ListProfiles | app/profiles.go:112-168 | every eligible profile gets exactly one account, all distinct, none the chosen one, and the one its name asks for exactly if nobody before it in the order of directories has that; everyone promised one gets it exactly when an account was chosen or no name comes out empty |
| Accounts.EmptyNameIsSkipped | app/profiles.go:154-157 | where no account was chosen, someone whose name has no Latin letter is promised an account and gets none |
| Text.SortStrings | app/esp_cleanup.go:164-164 | sorting gives one listing whatever order the set is walked in |

## Left out

- Real bcdedit, PowerShell, the registry, scheduled tasks, device control, tokens and pipes: they are the environments with faults.
- Downloads, the registry client, cryptography, process handling, progress events, display text and wording of errors.
- Atomicity of the boot journal's temporary file and rename is assumed, not derived: `BootTxn.Machine.Save` lands as a whole or not.
- Windows' own order of the boot menu, and the timeout and other fields of the firmware boot manager: only the one-shot and the permanent order are modelled.
- BootTxn.Machine.CopyEntry: an identifier is printed only for a clone that was made; a `/copy` that prints a GUID without making one is not modelled.
- The journal's error text and timestamps, and the content of `armed.json`, which the transaction does not use.
- Re-arming and re-staging from recorded state (`tryAgainFromArmed`, `repairBootFromArmed`), and removing the recovery tasks.
- Letter case beyond ASCII: identifiers, field keys and ESP names fold ASCII letters only; account names take any character-wise lower-casing that leaves plain characters alone.
- Ancestry.VerifyRootIsExact: starts from the finished graph; building it from the probe's text (`verifyVMGuestRoot`) is parsing field by field and is not modelled.
- Ancestry.FindMountFor: the scan over the map of mounts is a loop, the recursive walk over the graph is functions, as in the source.
- EspManifest.ManifestRoundTrip: the fixed comment lines at the top are a parameter, and the scanner's limit of 64 KB a line is not modelled.
- EspOwnership.PersistTellsTheTruth: assumes that no failed write leaves part of a temporary file and that a stale one is absent or holds the content, because the code renames whatever temporary file it finds; `ReportedIsRecordedIff` says exactly when success is true without that.
- EspOwnership.Volume.StageAll: assumes that every delete of the temporary file works, because the code ignores a delete that fails; `FailedDeleteShadowsNext` and `TornClaimLosesAll` are runs in which that loses claims.
- EspCleanup.Partition.CleanupOwnedFiles: files that another program restores come back between deletions, not after the final recheck; ambiguous names, links and directories in the way are one fault, "cannot be looked up".
- BootRepair.PlanBootRepair: findings, refusals and the comparison of file hashes, which only produce text, are left out.
- Whether bcdedit refuses to take an unlisted entry out of a list is a parameter of the model.
- BcdParse.ParsersInvertPrinter: blanks that the printer emits are spaces, and every object starts with its identifier.
- KernelVersion.TargetKernel: the source sorts with a library sort; here each release is inserted in order.
- Layers.Overlay.ApplyLayer: reading archives, hard links and size limits come before it and are not modelled; a whiteout of one compressed spelling of firmware removes every spelling, as in the code.
- InstallEngine.Engine.Run: a step function may do anything, arm the one-shot from the bootable step on, and fail; `BootTxn` says what arming and disarming themselves do.
- InstallRecovery.TouchedIsNeverResumed: of the recovery decision, causes, titles, messages and the evidence list are left out; timestamps are numbers, absent when they cannot be parsed.
- PartitionReceipt.Uninstaller.Uninstall: the partition comes and goes by other hands between attempts, not within one; the checks before a deletion and the other cleanup of an uninstall are one bit each; access control of the receipt files is not modelled.
- ConsentSession.OneShotConsent: decoding of plans and messages is one acceptance bit; whether two observations give the same facts is a parameter, and what an install revalidates is part of the validity bit.
- Reading the profile directory and sorting it by a library sort are one sorted listing of a map.
- Small decision tables that a reading settles: Secure Boot checks, disk space needs, `EvaluateRecovery`, hardware severities.
