# Winafi, modelled and proved in Dafny

Winafi turns a block device into a bootable stick. This project models the logic underneath its
shell: the write session and its script, unpacking an image with rollback, detection of what an
image installs, the partition planners, the boot sector and GPT edits, the last check before a disk
is wiped, two readers of PE/COFF images, the lookup in SBAT text, the settings file, the locale
file, the answer file for Windows Setup, and the progress percentage.

System calls are replaced by answers that may be anything: a tape of answers (`nat -> bool`), an
explicit answer argument, or a snapshot of the system's tables. Every statement holds for all of
them. The second thread that cancels a run is a schedule consulted at every read of the flag, so a
run is proved for every interleaving.

Each module follows one source file. Objects and buffers the source changes in place are classes
and arrays here; a method's contract ties the new state to a function of the old one, and lemmas
prove what that function promises.

| module | about |
|---|---|
| `SessionModel`, `Session` | the public calls as a transition system; execute as a script over a machine |
| `IsoExtract`, `UdfExtract`, `FileTrees` | unpacking with rollback, byte accounting, cancellation; paths and trees |
| `IsoDetect`, `Devices`, `MountOps` | detection, enumeration, mounting with partial undo |
| `WipeGuard` | the last check before a disk is written |
| `PartitionPlan`, `BootSectors` | where partitions go; edits of the boot sector and of GPT entries |
| `PeFiles`, `PeImages`, `Sbat` | PE/COFF walkers against each other and against an encoder; SBAT lookup |
| `SettingsStore`, `Settings`, `Locale` | text stores, printed and read back |
| `Xml`, `Unattend`, `UnattendForm`, `UnattendOrders`, `UnattendWriter`, `UnattendTexts`, `UnattendSettings`, `StringBuffers` | the answer file |
| `AnswerFiles` | which answer files a run puts on the stick |
| `Progress` | the percentage over whole runs |
| `CStrings`, `ByteStrings`, `Arithmetic` | C string functions, bytes and little-endian numbers, quotients |

## What the proofs brought out

Where the code and its comments or names disagree, the model follows the code; each of these is a
lemma with the input that shows it, and where a condition decides, the exact condition.

- A device can be selected although no image is loaded (`SessionModel.SelectWithoutIso`); a run
  still cannot complete without both, in order (`SessionModel.CompletedInOrder`). The zero-capacity
  exits of prepare and execute and the generic boot loader branch can never be taken.
- The final progress report of an ISO 9660 extraction ignores what the callback answers. A smooth
  extraction succeeds exactly when no earlier report is answered by a cancellation
  (`IsoExtract.ExtractSmoothly`); a flag set after these and before the last is seen and overlooked
  (`IsoExtract.ExtractCancelledLate`, with an input in `IsoExtract.LateCancellation`).
- Planned MBR partitions start on 1 MB boundaries exactly when there is one or their common size is
  a multiple (`PartitionPlan.MbrAlignedExactly`). A GPT plan never does, its last partition ends one
  sector short of the usable area, and a count above four that fits the disk runs over the plan's
  array (`PartitionPlan.PlanGpt`).
- The data partition is planned with the sector count the disk was listed with and written with the
  one libparted finds; when these go together is `PartitionPlan.WriteGeometry`.
- install.wim is kept exactly when no boot.wim is listed before it
  (`IsoDetect.InstallWimKeptExactly`).
- A bad partition number, or a refused second open, is only noticed after the boot code has been
  written (`BootSectors.InstallBootloader`); such a failure has changed the device exactly when code
  and signature were not there already (`BootSectors.FailureChangesExactly`).
- GPT entry offsets wrap around at 2^64: a header that puts the table at sector 2^55 leads to the
  boot sector (`BootSectors.WrappedTableStart`); when header and protective MBR are out of reach is
  `BootSectors.HeaderOutOfReachExactly`. The type GUID it writes has the bytes of its first three parts in
  the wrong order, so that it is another one than the EFI system partition's (`BootSectors.TypeMisspelt`).
- The wipe guard finds partitions, and the disk itself when it looks for swap areas, under "/dev/"
  and their kernel names only, and nothing that is built on them. What it lets through may be wiped
  exactly when every path to one of the disk's device numbers is covered by that and its arrays have
  room (`WipeGuard.SoundExactly`); how far this is so on disks named the way udev names them is
  `WipeGuard.CanonicalIsSound`. On its own it lets through an active swap partition given by its own
  name (`WipeGuard.SwapMissed`), a disk such as /dev/cciss/c0d0 with a swap area
  (`WipeGuard.SwapMissedElsewhere`), one mounted under another name (`WipeGuard.MountMissed`), and one
  that "/" is on by way of a decrypted or logical volume (`WipeGuard.StackedMissed`). With 128
  partition nodes and one for the disk, the swap scan writes behind its array (`WipeGuard.HasSwap`,
  `WipeGuard.Overruns`). In a run, validation in front of it asks the system to open the disk for this
  program alone; what the system answers then is not part of the model.
- The signature check does not look at the number of data directory entries. With fewer than five it
  reads the first section's header, or nothing when there is no section; what it then answers is
  `PeImages.SignatureAnswer`, when it is right `PeImages.SignatureRightExactlyWhen`. It calls an
  unsigned image signed (`PeImages.ShortDirectoryMisread`) and gives up on another
  (`PeImages.ShortDirectoryUnread`).
- The answer file is well formed exactly unless a user name is written whose first 255 bytes have an
  ampersand or are no legal XML text (`UnattendForm.WellFormedExactly`). Three such names are `R&amp;D`,
  whose semicolon is replaced, a control character, and a name that byte 255 cuts within a letter
  (`UnattendForm.NamesThatSpoil`).
- Of all steps, three kinds let the percentage fall back, each under an exact condition
  (`Progress.FallsBackExactly`): entering a stage that lies behind or had begun to count, a byte count
  that does not reach the share shown, and a clock that has been set back behind the second that first
  led to that share. All happen (`Progress.FallsBack`).
- A Windows image that boots on 64-bit ARM only is accepted by the detailed scan and then refused by
  the function around it (`IsoDetect.DetectDetailed`, `IsoDetect.ArmRefused`).
- pki_read_sbat answers for some broken files on which pe_read_section fails, never the other way
  round; exactly for which is `PeFiles.OnlyOneAnswers`.
- Closing the settings reports success on a full disk, where every setting is lost
  (`Settings.LostOnFullDisk`); they are kept exactly when all but the last newline was written
  (`SettingsStore.SavedExactly`).

## Model

| member | source | states |
|---|---|---|
| SessionModel.ApplySafe | src/platform/linux/session.c:230-455 | every public call, with any answers and also with NULL arguments, keeps: an ISO path implies a known system, a selected or prepared session's device is listed, a prepared one has an ISO no larger than that device |
| SessionModel.RunSafe | src/platform/linux/session.c:230-455 | the same over every finite sequence of such calls from a new session |
| SessionModel.PreparedIsReady | src/platform/linux/session.c:502-523 | in a reachable prepared session the system is Windows or Linux, the capacity is not zero and the partition node names fit, so three exits of execute are dead |
| SessionModel.CompletedInOrder | src/platform/linux/session.c:374-486 | a completed session was driven by load and enumerate, each before select, prepare and execute, in that order |
| SessionModel.SelectWithoutIso | src/platform/linux/session.c:334-339 | the rule stated there, no selection before an image is loaded, does not hold after an enumeration |
| SessionModel.SelectAccepted | src/platform/linux/session.c:325-369 | selection succeeds exactly when the session is past its first state, the device is listed and validation agrees |
| SessionModel.LoadAccepted | src/platform/linux/session.c:266-320 | loading succeeds exactly in the first state or after an enumeration, with the file there and a system found; which fields it then sets, and that a failure sets none but state and error |
| SessionModel.PrepareAccepted | src/platform/linux/session.c:374-455 | preparing succeeds exactly on a selected device, for root, with a block device, an image that is there and no larger than the device; nothing else changes but the size noted |
| SessionModel.CodesTell | src/platform/linux/session.c:374-455 | which code each failed test of prepare gives, in the order of the tests |
| SessionModel.OtherCodesTell | src/platform/linux/session.c:266-369 | the same for load and select |
| Session.WriteSession.EnumerateDevices | src/platform/linux/session.c:230-261 | the new list is what the two passes find; everything else is kept |
| Session.WriteSession.LoadIsoFile | src/platform/linux/session.c:266-320 | the session takes on exactly what detection finds; the unsupported-type exit is dead |
| Session.WriteSession.SelectDevice | src/platform/linux/session.c:325-369 | the transition of the model, and 0 exactly with DEVICE_SELECTED |
| Session.WriteSession.PrepareRun | src/platform/linux/session.c:374-455 | the transition of the model, and 0 exactly with PREPARED; the zero-capacity exit is dead |
| Session.WriteSession.Cancel | src/platform/linux/session.c:784-786 | the flag is set and nothing else changes |
| Session.WriteSession.Misuse | src/platform/linux/session.c:230-332 | a call with a NULL argument moves any session to ERROR with E-51-A and changes nothing else |
| Session.WriteSession.ExecuteRun | src/platform/linux/session.c:469-749 | 0 exactly with COMPLETED and -1 exactly with ERROR; the trace is the script or a part of it up to one fatal step whose code is reported; a run fails only for a reason: a guard that finds something, a disk of fewer than 206,848 sectors, an image that is not an easy one, a cancellation, or a refusal by the system; with none of these it returns 0 and every step is recorded as it went, and so is every step of a completed run that met no refusal; a run that changes the disk has one that all three guards let through and, if the wipe guard can be relied on for that disk, nothing of it was in use; a failed extraction is undone and a completed one delivered the image, exactly if it is a tidy one; cancellation during extraction ends in E-30-C; a run that begins with the flag set completes only with nothing to unpack; a mount of the run survives it only if the system refused during this run to detach it, and a directory only if it or one inside it was so refused |
| Session.WriteSession.CheckGuards | src/platform/linux/session.c:484-536 | steps 0 to 2 in order, with the target's sector count; which guard stopped the run says what it found, and all three passed only a disk that final_wipe_guard lets through; the dead exits are proved dead |
| Session.WriteSession.ValidateTarget | src/platform/linux/device.c:441-473 | a disk is only tried for exclusive use, and only then accepted, if it is a block device and not taken for a system drive |
| Session.WriteSession.PassGuard | src/platform/linux/partition.c:245-255 | a disk that passes is let through, and whatever is let through passes or overruns the guard's array |
| Session.WriteSession.WipeAndFormat | src/platform/linux/session.c:484-561 | steps 0 to 5 in order, or the failed one and its code, with what the guards found |
| Session.WriteSession.CommitLayout | src/platform/linux/session.c:525-534 | below 206,848 sectors step 3 fails without a call to the system; from there on its outcome is the system's next answer; both failures have the same code |
| Session.WriteSession.FormatVolumes | src/platform/linux/session.c:544-561 | both file systems in order, or the failed one and its code |
| Session.WriteSession.MountVolumes | src/platform/linux/session.c:564-586 | steps 6 to 8; whatever was made is named by the context |
| Session.WriteSession.FillVolume | src/platform/linux/session.c:588-607 | a failure is reported as cancelled exactly when the flag is set by then; what extraction owes is handed on |
| Session.WriteSession.CancelledBeforehand | src/platform/linux/session.c:588-607 | in a run that begins with the flag set, no extraction with anything to unpack or to poll completes |
| Session.WriteSession.InjectAnswers | src/platform/linux/session.c:611-659 | which answer files are injected for each image option and flags, in order, with the failed one's code |
| Session.WriteSession.SetUpWindows | src/platform/linux/session.c:611-691 | the Windows boot steps of the script for every option, with the failed step's code |
| Session.WriteSession.Finish | src/platform/linux/session.c:722-748 | syncs, whose outcome is ignored, then unmounting, whose failure is an error |
| Session.GuardsBeforeDamage | src/platform/linux/session.c:484-560 | in every run, a step that changes the disk comes after all three guards of that run succeeded |
| Session.NoBootWithoutExtraction | src/platform/linux/session.c:593-607 | a run whose extraction did not succeed takes no boot step |
| Session.StepsExactly | src/platform/linux/session.c:469-749 | each boot step is in the script exactly for its system, option and flags; no step comes twice, and all come in one fixed order |
| Session.CodesOfSteps | src/platform/linux/session.c:484-748 | the code each step's failure is reported with |
| Session.FatalExactly | src/platform/linux/session.c:661-748 | a run goes on after a failed Windows scan and after failed syncs, and after no other failure |
| AnswerFiles.RootFile | src/platform/linux/session.c:619-640 | the file at the root is made for the user's flags and, but for Windows To Go, for hiding the media; there is none exactly for a Windows To Go without flags |
| AnswerFiles.RootFileCommands | src/platform/linux/session.c:619-625 | every installation stick has Setup lock it as its first command, and each bypass is set exactly for its flag; a Windows To Go locks nothing unasked |
| AnswerFiles.ToGoFileSays | src/platform/linux/session.c:643-659 | the other file of a Windows To Go has one pass, which keeps internal disks offline |
| IsoExtract.Extract | src/platform/linux/iso_extract.c:1181-1438 | from a mount point without files or links, every run that does not succeed leaves none, except those the system refused to remove, and touches nothing outside; after a success every accepted file is there, and every link and directory that has a place if the system refused nothing, each until a later link replaces it; what is there was there before or is asked for by an accepted entry; a failure names the entry it stopped at and is due to the archive, to the flag or to that entry; each report reads the flag once and sees exactly what was set by then; reports never go back; success is exactly getting to the read behind that of the last entry |
| IsoExtract.ExtractSmoothly | src/platform/linux/iso_extract.c:1237-1435 | with good data and a system that grants everything, success exactly when the archive ends well and the flag is not set by the last report about an entry, and a later setting does not matter; of a tidy image the volume then holds exactly the files, links and directories it lists |
| IsoExtract.DeliveredExactly | src/platform/linux/iso_extract.c:1259-1380 | a volume that has all an image owes it and nothing unexplained holds exactly what a tidy image lists |
| IsoExtract.ExtractCancelledLate | src/platform/linux/iso_extract.c:1387-1433 | a flag set between the last entry's report and the final one is seen by the latter, and the run succeeds |
| IsoExtract.LateCancellation | src/platform/linux/iso_extract.c:1423-1433 | such a run, with an image of one directory |
| IsoExtract.Unpack | src/platform/linux/iso_extract.c:1237-1430 | the loop: every file and link present is in the tracked list, bytes and reports add up, and it stops early only at a read that sees the flag or an entry that cannot be placed |
| IsoExtract.ExtractEntry | src/platform/linux/iso_extract.c:1259-1380 | one entry keeps that invariant whichever of its operations fail, and adds no other file, link or directory than its own; what it asks for is there afterwards if it has a place and nothing was refused, a file in any case; it stops the run exactly if it is a file that has bad data, no place or a link in its place, or met a refusal |
| IsoExtract.BlockedIsClash | src/platform/linux/iso_extract.c:1259-1380 | what keeps an entry from its place was put there by an earlier entry of the image, or was there before |
| IsoExtract.PlaceableFits | src/platform/linux/iso_extract.c:1259-1380 | an entry that nothing before it in the image obstructs has its place when its turn comes |
| IsoExtract.EnsureDirectory | src/platform/linux/iso_extract.c:941-1025 | only directories on the way to the path appear; it succeeds exactly if the path is short and a directory already, or not too deep with no file or link on the way, and nothing was refused; then the path is a directory |
| IsoExtract.AcceptedStaysInside | src/platform/linux/iso_extract.c:1243-1276 | an entry is accepted exactly if its name is relative, has no "..", fits 4096 bytes with the mount point and resolves inside; its target is then the mount point and the components of its name, none of them a dot name |
| IsoExtract.RemoveAll | src/platform/linux/iso_extract.c:91-100 | removes only tracked files and links, and all of them that the system lets go |
| IsoExtract.ExtractedFiles.Add | src/platform/linux/iso_extract.c:49-71 | the doubling list always holds what it held and the new path |
| IsoExtract.StepDown | src/platform/linux/iso_extract.c:941-1025 | one more component of a path names one more node on the way to its end |
| IsoExtract.DeliveredStep | src/platform/linux/iso_extract.c:1282-1380 | what was delivered, of files, links and directories, stays delivered through one more entry unless a later link replaces it |
| IsoExtract.ReportsSteady | src/platform/linux/iso_extract.c:1382-1394 | the reported percentages never go back and stay within 0 to 100, for any entries |
| IsoExtract.PercentIs | src/platform/linux/iso_extract.c:1382-1394 | the percentage reaches k exactly when k hundredths of the total are there, and stops at 100 |
| IsoExtract.CancelSticks | src/platform/linux/iso_extract.c:1387-1405 | an extraction that starts with the flag set and makes all the reads of a completed one has nothing to unpack; every run of a session relies on it |
| IsoExtract.CancelFlag.Read | src/platform/linux/session.c:457-462 | a read sees the flag as it is, set by anyone at any time before; it is never cleared |
| FileTrees.ResolveJoin | src/platform/linux/iso_extract.c:1271-1276 | joining a mount point and an entry name joins the nodes they name, so targets lie under the mount point |
| FileTrees.FileTree.Unlink | src/platform/linux/iso_extract.c:91-100 | removing a name twice is harmless, a directory is never removed |
| UdfExtract.Watch | src/platform/linux/iso_extract.c:1071-1176 | what is reported is the running maximum of the drop in free space, for any readings; the flag is read once for each and sees exactly what was set by then; success exactly when the copy ends well and no reading finds the flag set |
| UdfExtract.MaxDropIsMaximum | src/platform/linux/iso_extract.c:1128-1141 | the running value is the maximum of the drops seen so far |
| IsoDetect.ScanIsoContents | src/platform/linux/iso_extract.c:279-392 | the verdict is a function of the set of names, so order and repetition do not matter; boot files are found exactly when the system is known |
| IsoDetect.DetectOs | src/platform/linux/iso_extract.c:634-705 | success exactly when a system is settled on, which is Windows or Linux; which error means what, each exactly |
| IsoDetect.SystemByNames | src/platform/linux/iso_extract.c:279-392 | Linux exactly with a Linux name and no Windows name; Windows exactly with a Windows name, or without a Linux one on a UDF image or with an efi/boot entry; no system exactly with none of these |
| IsoDetect.ModeByNames | src/platform/linux/iso_extract.c:279-392 | how the image boots, by the names that boot in UEFI mode and those that the BIOS boots |
| IsoDetect.FoundInAnyCase | src/platform/linux/iso_extract.c:105-108 | a mark is found in a name exactly if it stands there somewhere but for capital letters |
| IsoDetect.DetectWindows | src/platform/linux/iso_extract.c:449-575 | each path kept is the first match in the listing; version, mode and result follow from which were found |
| IsoDetect.FirstIsFirst | src/platform/linux/iso_extract.c:470-537 | of several paths with one of the names the first is kept |
| IsoDetect.NamedExactly | src/platform/linux/iso_extract.c:113-128 | a path has a file name exactly if it ends with it, in any case, and a slash or nothing stands in front |
| IsoDetect.DetectDetailed | src/platform/linux/iso_extract.c:597-628 | success exactly for a listing with bootmgr or a boot file for x64 or ia32; the scan inside accepts one for 64-bit ARM as well |
| IsoDetect.ArmRefused | src/platform/linux/iso_extract.c:616-622 | a listing on which the two differ |
| IsoDetect.DetailedImpliesWindows | src/platform/linux/iso_extract.c:449-575 | what the detailed scan accepts, the first scan has called Windows |
| IsoDetect.InstallWimKeptExactly | src/platform/linux/iso_extract.c:485-503 | install.wim is kept exactly when no boot.wim is listed before it |
| IsoDetect.BootWimKept | src/platform/linux/iso_extract.c:493-503 | a listing with both in which boot.wim is kept, against the comment there |
| Devices.Enumerate | src/platform/linux/device.c:230-355 | the filled array is a prefix of what the second pass offers, as long as the first pass allows; every device listed has a real node, a bounded name and a capacity |
| Devices.CapacityIs | src/platform/linux/device.c:68-87 | as long as that fits 64 bits signed, the capacity is 512 bytes for each sector reported |
| Devices.VirtualExactly | src/platform/linux/device_validate.c:456-460 | a node is of a virtual kind exactly if it starts with /dev/loop, /dev/ram, /dev/dm-, /dev/zram or /dev/nbd |
| Devices.ListsRealDisks | src/platform/linux/device.c:290-320 | a disk with a node that is not virtual and with sectors is listed, under its name and size; any other is not |
| Devices.ListedHasCapacity | src/platform/linux/device.c:302-307 | a listed device is never empty |
| Devices.FindCapacity | src/platform/linux/session.c:410-423 | the capacity of the first device with the name, found exactly when listed |
| Devices.PartitionNodesFit | src/platform/linux/session.c:125-141 | partition node names of a selected device always fit, and differ |
| Devices.PartitionNodesAre | src/platform/linux/session.c:125-141 | the node of a partition is the disk's and the number, with a p between them exactly for nvme, mmcblk and loop disks |
| MountOps.CreateTempDirs | src/platform/linux/mount_ops.c:30-66 | three new directories exactly if nothing was refused, or none but those that the system refused in this call to remove and the one around them |
| MountOps.MountNtfsVolume | src/platform/linux/mount_ops.c:83-117 | three drivers in turn: mounted exactly if one of three attempts on a free directory is granted; a failure on one means three refusals |
| MountOps.Acquire | src/platform/linux/session.c:564-586 | whatever is made or mounted is named by the context, also half-way; it stops short only after a refusal |
| MountOps.UnmountAndCleanup | src/platform/linux/mount_ops.c:119-148 | a mount the context names survives only if the system refuses in this call to detach that very mount, a directory only if it or one inside it is so refused, and nothing else is touched; what a run has mounted is taken down with success if nothing is refused |
| MountOps.TextsDiffer | src/platform/linux/mount_ops.c:30-66 | the two mount points lie in the directory of the run, and no two directories of any runs have one path |
| PartitionPlan.PlanMbr | src/platform/linux/partition.c:46-110 | exactly when a plan exists; it tiles 2048 to the last sector, each part at least the quotient, the last at least quotient + 2048 |
| PartitionPlan.PlanGpt | src/platform/linux/partition.c:114-178 | exactly when a plan exists; it tiles 2082 to total - 35 with the last size within its bounds; a count above four is not refused and overruns the plan exactly when it fits the disk |
| PartitionPlan.EqualParts | src/platform/linux/partition.c:87-107 | the loop tiles its range with parts of the common size, the last one taking the rest |
| PartitionPlan.TilesCoverOnce | src/platform/linux/partition.c:87-107 | tiling means every sector lies in one part and parts are ordered and disjoint |
| PartitionPlan.MbrAlignedExactly | src/platform/linux/partition.c:87-93 | all starts are aligned exactly for one partition or an aligned common size |
| PartitionPlan.MbrMisaligned | src/platform/linux/partition.c:87-93 | a plan whose second partition is not aligned |
| PartitionPlan.CalculateLayout | src/platform/linux/partition.c:201-237 | boot size clamped to 50 to 200 MB; 2048 + boot + data is the whole disk |
| PartitionPlan.ClampKeeps | src/platform/linux/partition.c:212-217 | a boot size between 50 and 200 MB is kept, a smaller or larger one becomes the bound |
| PartitionPlan.WriteGeometry | src/platform/linux/partition.c:252-345 | what is written follows the layout without gap up to the end libparted knows; it covers the disk with two partitions that are not empty exactly when that length allows, and the data size is the planned one exactly when both counts agree |
| BootSectors.InstallBootcode | src/platform/linux/mbr_bootloader.c:184-273 | exactly when it succeeds; sector 0 is then the boot code, the old table and 55 AA, and nothing else changed; which refusal has which code |
| BootSectors.SetBootFlag | src/platform/linux/mbr_bootloader.c:278-370 | exactly when it succeeds; only flag bytes change; a signature mismatch leaves the device alone |
| BootSectors.InstallBootloader | src/platform/linux/mbr_bootloader.c:524-575 | the composition, exactly when it succeeds; no signature mismatch; a bad partition number is reported exactly after the boot code was written; what the device holds after every outcome |
| BootSectors.SuccessInstalls | src/platform/linux/mbr_bootloader.c:524-575 | after a success the first sector is the old one with both edits and the rest of the device is as before |
| BootSectors.FailureChangesExactly | src/platform/linux/mbr_bootloader.c:524-575 | a failure behind the first write has changed the device exactly when boot code and signature were not there already |
| BootSectors.InstalledBytes | src/platform/linux/mbr_bootloader.c:184-370 | the installed sector byte by byte: code up to 446, signature at 510, one flag of those at 446, 462, 478 and 494 set and three clear, the rest as before |
| BootSectors.InstallIdempotent | src/platform/linux/mbr_bootloader.c:524-575 | installing again changes nothing |
| BootSectors.CodeGivesSignature | src/platform/linux/mbr_bootloader.c:165-179 | after the boot code, the signature is right |
| BootSectors.MarkEfi | src/platform/linux/mbr_bootloader.c:378-519 | exactly when it writes, and in which order the tests fail with which code; only the 16 type bytes of the addressed entry change |
| BootSectors.AddressesEntry | src/platform/linux/mbr_bootloader.c:422-481 | on every disk with an encoded header and its table below sector 2^54, the addressed entry is that of the table the header names, by the entry size it gives, and it is edited exactly if it lies on the disk and its first attribute bit is set (section 5.3.2 of the UEFI Specification 2.10) |
| BootSectors.WriteRetypes | src/platform/linux/mbr_bootloader.c:482-500 | writing the entry back, even in part, changes no byte outside of its type |
| BootSectors.TypeMisspelt | src/platform/linux/mbr_bootloader.c:482-490 | the bytes written are those of another GUID than the EFI system partition's (appendix A of the same specification) |
| BootSectors.EntriesDisjoint | src/platform/linux/mbr_bootloader.c:443-452 | entries of different numbers never overlap, for every accepted size and every table start, wrapped around or not |
| BootSectors.HeaderOutOfReachExactly | src/platform/linux/mbr_bootloader.c:449-452 | when an entry lies behind the first two sectors, for every table start |
| BootSectors.HeaderOutOfReach | src/platform/linux/mbr_bootloader.c:449-452 | with a table at sector 2 or later and below 2^54, every entry is where section 5.3.2 of the UEFI Specification 2.10 puts it, and behind the header |
| BootSectors.WrappedTableStart | src/platform/linux/mbr_bootloader.c:449-452 | a table start that leads to the boot sector |
| WipeGuard.FinalWipeGuard | src/platform/linux/device_validate.c:449-557 | OK exactly when every test finds nothing; the other verdicts each exactly when theirs is the first to apply |
| WipeGuard.ValidateNotSystemDrive | src/platform/linux/device_validate.c:296-377 | SYSTEM_DRIVE exactly when, on a known disk, one of the scans by device number finds something; the scans by name then only tell OK from NOT_FOUND |
| WipeGuard.HasSwap | src/platform/linux/device_validate.c:86-157 | the scan finds a swap area exactly when one of the collected numbers is among the swap entries; it overruns its array exactly when the disk comes after 128 partitions |
| WipeGuard.MountedAtProtected | src/platform/linux/device_validate.c:159-219 | the scan by device number, in both tables, for every number of partitions |
| WipeGuard.SoundExactly | src/platform/linux/device_validate.c:449-557 | what passes, or gets as far as the overrun, is safe to wipe for all mount and swap tables exactly when every path to the disk, a partition or anything built on these is one the scans look at, and the array has room |
| WipeGuard.Overruns | src/platform/linux/device_validate.c:86-133 | with 128 partitions or more the disk that "/" is on gets as far as the overrun |
| WipeGuard.CanonicalIsSound | src/platform/linux/device_validate.c:449-557 | on a disk named as usual with nothing built on it, passing leaves open only a mount under another name, and nothing when no other path leads to the disk |
| WipeGuard.CanonicalNumbers | src/platform/linux/device_validate.c:86-194 | on such a disk both scans collect exactly the disk's own numbers |
| WipeGuard.SwapMissed | src/platform/linux/device_validate.c:97-98 | every active swap node without a directory of its own passes |
| WipeGuard.SwapMissedElsewhere | src/platform/linux/device_validate.c:124-133 | so does every whole-disk swap area whose node is not "/dev/" and the kernel name |
| WipeGuard.MountMissed | src/platform/linux/device_validate.c:474-492 | so does a disk named as usual that is mounted under another path |
| WipeGuard.StackedMissed | src/platform/linux/device_validate.c:159-219 | so does a disk that "/" is on by way of a device built on it |
| WipeGuard.NamesAddNothing | src/platform/linux/device_validate.c:330-377 | a protected mount found by name is one found by number |
| WipeGuard.SystemPlaceStops | src/platform/linux/device_validate.c:74-84 | a disk that either mount table has at /, /boot, /boot/efi, /efi, /home, /var or /usr is never passed, whatever else is mounted |
| WipeGuard.PlaceDecides | src/platform/linux/device_validate.c:74-84 | a disk that one table has at one place, and that is nowhere else, is passed exactly if that is none of the seven |
| WipeGuard.MountedPartitionStops | src/platform/linux/device_validate.c:494-537 | a disk is not passed when a partition its directory shows is mounted under its own name |
| WipeGuard.SwapStops | src/platform/linux/device_validate.c:86-157 | a disk named as usual is not passed when a line of the swap table behind its heading starts with a path to it or a partition of it |
| WipeGuard.HeadingPasses | src/platform/linux/device_validate.c:135-157 | the heading of the swap table is not taken for an area, whatever it says |
| WipeGuard.DeviceIsMounted | src/platform/linux/device.c:89-107 | the scan finds a line of the node exactly when there is one |
| WipeGuard.TestsAgree | src/platform/linux/device.c:89-107 | on kernel mount lines the tests of the guard, of device_is_mounted and of proc_device_is_mounted are all equality of the first field |
| PeFiles.PeReadSection | src/platform/linux/pe.c:10-54 | seeks and reads compute the section lookup for every file, 1 for no match, -1 for a broken one |
| PeFiles.PkiReadSbat | src/platform/linux/pki.c:85-170 | the same for the second walker |
| PeFiles.PkiIsSigned | src/platform/linux/pki.c:231-297 | the same for the signature check, PE32 and PE32+ |
| PeFiles.WalkersAgree | src/platform/linux/pki.c:85-170 | on every file the first walker does not fail on, both find the same .sbat section; with a file offset one result is a beginning of the other and both are empty or neither |
| PeFiles.OnlyOneAnswers | src/platform/linux/pki.c:85-170 | the second walker never fails alone, and the first exactly when the section runs over the end of the file, or the table is cut in an entry that is .sbat or the last, or the header in its last two bytes |
| PeImages.HeaderReadsBack | src/platform/linux/pki.c:32-81 | both walkers read the header an image was encoded with ("COFF File Header" of the Microsoft PE Format specification) |
| PeImages.SectionRoundTrip | src/platform/linux/pe.c:27-53 | reading an encoded image by name gives the first section of that name, cut to its virtual size, and never fails |
| PeImages.SignatureRoundTrip | src/platform/linux/pki.c:253-297 | with at least five directory entries the answer is whether entry 4 has an address and a size, for PE32 and PE32+ |
| PeImages.SignatureAnswer | src/platform/linux/pki.c:253-297 | the answer for every image: entry 4 if the directory has one, -1 without sections, else whether the first section's header looks like such an entry |
| PeImages.SignatureRightExactlyWhen | src/platform/linux/pki.c:253-297 | for every image, when the answer is right, in terms of the directory and the first section |
| PeImages.ShortDirectoryMisread | src/platform/linux/pki.c:279-296 | an unsigned image with four entries and a first section .text counts as signed |
| PeImages.ShortDirectoryUnread | src/platform/linux/pki.c:279-296 | an unsigned image with fewer than five entries and no section gets -1 |
| Sbat.GetGeneration | src/platform/linux/pki.c:174-227 | cutting a copy up in place computes, for all contents, the generation of the first row whose first field is the component, else 0 |
| Sbat.CutFields | src/platform/linux/pki.c:191-214 | the fields of a line are cut out in place, and nothing behind the line changes |
| Sbat.NextLine | src/platform/linux/pki.c:187-199 | one strtok_r step: the next line that is not empty, and the text behind it |
| Sbat.TableReadsBack | src/platform/linux/pki.c:174-227 | on any printed table the lookup gives the first matching row's generation |
| Settings.SettingsTable.constructor | src/platform/linux/settings.c:67-74 | a new table holds what the file says |
| Settings.SettingsTable.Load | src/platform/linux/settings.c:38-53 | the fgets loop reads the file as specified, chunk by chunk, up to 256 entries |
| Settings.SettingsTable.SetString | src/platform/linux/settings.c:108-115 | the table's set operation; dirty exactly when it took effect |
| Settings.SettingsTable.GetString | src/platform/linux/settings.c:100-106 | the first entry's value, else the default |
| Settings.SettingsTable.Close | src/platform/linux/settings.c:55-81 | the file is rewritten exactly when dirty and writable, as far as there is room; -1 exactly when the file could not be opened; a file cut short counts as saved |
| Settings.LostOnFullDisk | src/platform/linux/settings.c:59-64 | a close that reports success after which the next open finds nothing |
| SettingsStore.Persistence | src/platform/linux/settings.c:38-129 | after any proper sets and a close that writes it all, the next open sees for every key the last value set, else what the file held |
| SettingsStore.TableReadsBack | src/platform/linux/settings.c:38-65 | reloading a written table gives the same entries |
| SettingsStore.LinesReadBack | src/platform/linux/settings.c:38-53 | of any file made of entries, comments, headings and other lines, with either line end, the entries are read in order, up to 256, and nothing else |
| SettingsStore.SavedExactly | src/platform/linux/settings.c:38-65 | of a file cut short anywhere, the table reads back exactly when it was empty or all but the last newline is there |
| SettingsStore.LoadedIsOk | src/platform/linux/settings.c:38-53 | whatever a file holds, what is loaded can be written and read back |
| SettingsStore.SetThenLookup | src/platform/linux/settings.c:83-115 | set behaves as an update of a map, also on tables with duplicate keys |
| SettingsStore.SetKeepsDistinct | src/platform/linux/settings.c:89-98 | distinct keys stay distinct |
| Settings.IntReadsBack | src/platform/linux/settings.c:117-129 | every 32-bit int reads back as itself |
| CStrings.AtoiPrintInt | src/platform/linux/settings.c:117-129 | `atoi` undoes `%d` on all ints |
| CStrings.AtoiReads | src/platform/linux/pki.c:205-218 | and with white space in front and anything but a digit behind |
| Locale.Catalogue.ParseLines | src/platform/linux/localization_linux.c:20-51 | the loop ends on every input with exactly what the lines say, at most 2048 entries |
| Locale.Catalogue.GetString | src/platform/linux/localization_linux.c:85-91 | the first match, else the key itself |
| Locale.LineSays | src/platform/linux/localization_linux.c:30-45 | looking for `=` in the whole rest of the text is looking for it in the line |
| Locale.SkipEnd | src/platform/linux/localization_linux.c:27-28 | line ends, and carriage returns before a line, say nothing |
| Locale.LoadInvertsPrint | src/platform/linux/localization_linux.c:20-51 | entries printed in any mix with comments, blank lines and lines without `=` come back in order, up to 2048 |
| Locale.ReadIsBounded | src/platform/linux/localization_linux.c:33-45 | whatever the text, no key above 127 and no value above 511 characters is taken |
| StringBuffers.StrBuf.Append | src/platform/linux/wue.c:31-49 | the growing buffer is always the concatenation of its chunks, NUL-terminated, and at most about twice the need |
| Xml.ScanRender | src/platform/linux/wue.c:70-191 | scanning the characters of a token list is stepping through its tokens |
| Xml.Unreadable | src/platform/linux/wue.c:155-172 | a text with an ampersand or a character XML forbids, and no semicolon before the next tag, stops the scan wherever it stands |
| UnattendForm.WellFormedExactly | src/platform/linux/wue.c:70-191 | for all flags, names and architectures the text is balanced with one root, proper references and legal characters, exactly unless the written part of a name has an ampersand or is no legal XML text |
| UnattendForm.SafeNamePlain | src/platform/linux/wue.c:155-161 | a written name has no tag and no semicolon, and is proper text exactly if the kept part of the given one is legal and has no ampersand |
| UnattendForm.SanitizedLegal | src/platform/linux/wue.c:159-161 | the replacement makes no illegal name legal and no legal one illegal |
| UnattendForm.NamesThatSpoil | src/platform/linux/wue.c:155-161 | three names that spoil the file: a written-out reference, a control character, and a legal name cut within a letter |
| UnattendTexts.TextsOk | src/platform/linux/wue.c:51-191 | the fixed texts of the source meet all that is asked of a wording |
| UnattendTexts.AnswerFileWellFormedExactly | src/platform/linux/wue.c:51-191 | so with these texts, for all flags, names and architectures, the file is well formed exactly unless a written name spoils it |
| UnattendOrders.OrdersCountUp | src/platform/linux/wue.c:78-123 | the orders in the windowsPE pass are exactly 1 to k and the commands beside them the wanted ones, for all flags |
| UnattendOrders.CommandsExactly | src/platform/linux/wue.c:94-118 | hiding the media first if asked for, then exactly the requested bypasses, each once, in table order |
| UnattendSettings.CommandBits | src/platform/linux/wue.c:94-118 | each bypass is among the commands exactly for its bit, 0x0001, 0x0002, 0x0100, 0x0200 or 0x0400, and hiding exactly for 0x2000; there is no other command |
| UnattendSettings.BypassesExactly | src/platform/linux/wue.c:101-118 | running the command lines of the windowsPE pass sets the value of each bypass in LabConfig to 1 exactly for its bit, and sets nothing else |
| UnattendSettings.SettingsExactly | src/platform/linux/wue.c:84-188 | every other setting of the file is there exactly for its bit, once, and with its value; the account exactly if asked for with a name |
| UnattendSettings.PassesExactly | src/platform/linux/wue.c:70-146 | the passes of the file, each exactly for its bits and in order, with one component for the architecture asked for, or x64 if that is unknown |
| UnattendSettings.SafeNameKeeps | src/platform/linux/wue.c:155-161 | the account has the first 255 bytes of the name with an underscore for each of 17 characters, and no other change |
| UnattendSettings.LogonSets | src/platform/linux/wue.c:176-183 | the command at the first logon sets Start_AccountNotifications to 0 |
| UnattendWriter.GenerateXml | src/platform/linux/wue.c:70-191 | the appended chunks make exactly the text of the document; nothing without flags |
| UnattendWriter.EmitBypasses | src/platform/linux/wue.c:101-118 | the table loop with its counter writes exactly the requested commands |
| UnattendWriter.SanitizeInPlace | src/platform/linux/wue.c:159-161 | every forbidden character of a name, and no other, becomes an underscore |
| Progress.NeverFallsBack | src/platform/linux/progress.c:34-83 | over every run with rising stages and non-decreasing clock and bytes, the percentage never falls and stays in its stage's range |
| Progress.Context.GetPercent | src/platform/linux/progress.c:51-83 | the percentage is that of the view, and whatever the clock says inside 0 to 5, 5 to 10, 10 to 20, 20 to 95 or 95 to 100, by the stage |
| Progress.BytesShown | src/platform/linux/progress.c:51-61 | during extraction 20 + k is reached exactly when k of 75 parts of the total are there |
| Progress.ClockShown | src/platform/linux/progress.c:62-80 | by the clock, from which second on each percentage is shown |
| Progress.Context.AdvanceStage | src/platform/linux/progress.c:34-49 | a valid stage resets clock and bytes and takes its range; an invalid one changes nothing |
| Progress.EntryFallsBackExactly | src/platform/linux/progress.c:34-49 | entering a stage falls back exactly when it lies behind, or is the same one and had begun to count |
| Progress.UpdateFallsBackExactly | src/platform/linux/progress.c:137-141 | a byte count falls back exactly when it does not reach the share of the total that is shown |
| Progress.TickFallsBackExactly | src/platform/linux/progress.c:62-80 | a look at the clock falls back exactly when the stage goes by it and it stands before the second that first led to the share shown |
| Progress.FallsBackExactly | src/platform/linux/progress.c:34-141 | the three conditions together, for every step |
| Progress.FallsBack | src/platform/linux/progress.c:34-141 | an image of 100 bytes, shown as done and then gone through once more; four seconds of the first stage taken back |

## Left out

- Graphical and command line interfaces, logging, packaging, label validators, update, assets, wimboot, copy helpers, badblocks, error message tables and the plain setters: easy or outside the logic modelled here.
- libparted, libarchive, libudev, OpenSSL, curl, mkfs, mount, cp and fork/exec: their outcomes are arbitrary answers.
- Symbolic links in paths: realpath is the answer `resolvesInside` of an archive entry; the file tree maps lexical paths to nodes.
- The flag passed to unlinkat in the rollback: Linux knows no such flag there and answers EINVAL. With that answer every removal is one the system refused in the sense of `IsoExtract.Extract`, and the rollback removes nothing; the model leaves the answer open.
- Owners, permissions and times of unpacked files, and relative paths in `ensure_directory`.
- 64-bit overflow of byte counts and sector products, and 32-bit overflow in `atoi` and in the percentage.
- Allocation failure, except for the locale table; tracking lists and buffers always grow.
- IsoExtract.Extract: an image of zero total size is not considered, because the source divides by it; what the system refuses to remove stays behind.
- UdfExtract.Watch: the UDF path runs cp and removes nothing on failure, so there is no rollback to state; the loop ends after a number of readings that is given; pauses between readings and partial child states are left out.
- Session.WriteSession.ExecuteRun: the progress callback is always present; the boot set-up of Windows and Linux are single steps; the chosen file system, label, cluster size, bad-block check and target system do not appear.
- MountOps.CreateTempDirs: names that mkdtemp makes up are numbers never used before; path buffers are long enough.
- Devices.Enumerate: the properties udev reports are reduced to node and size; which devices count as USB is part of the answer.
- WipeGuard.FinalWipeGuard: the tables are one snapshot, although they are read one after the other, and names are short enough for the path buffers.
- Session.WriteSession.InjectAnswers: the two answer files of `AnswerFiles` are made apart from the run, which records only whether they were put on the stick.
- IsoExtract.DeliveredExactly: an image whose entries get in each other's way, or that links what it later uses as a directory, is not a tidy one; of these only `IsoExtract.Extract` says what is there.
- Session.WriteSession.CheckGuards: the three guards of a run see one snapshot, and the guard is asked once where partition.c asks it; whether the disk can be opened exclusively is any answer, though the kernel refuses it for a disk in use.
- WipeGuard.SoundExactly: /proc/mounts has the form the kernel gives it, a source field without blanks and then a space.
- PeFiles.PeReadSection: reads do not fail in the middle of a file, and section sizes are not limited by memory.
- BootSectors.MarkEfi: CRCs, the backup header and the meaning of the attribute bit looked at are as in the source, which does not maintain or interpret them; a read stops only at the end of the device.
- UnattendWriter.GenerateXml: proved for every `Wording` of plain text and references of bounded length; `UnattendTexts` has the one of the source.
- Xml.Scan: the syntax of attributes and the `]]>` that section 2.4 of XML 1.0 keeps out of text are not looked for, and character references are decimal; texts and names are bytes of UTF-8.
- Settings.SettingsTable.Close: a write cut short is a beginning of the text; a file system that loses data later is not modelled.
- Progress.Context.GetPercent: exact quotients instead of floating point; speed and remaining time are left out.
- IsoDetect.DetectWindows: the BCD path, which decides nothing.
