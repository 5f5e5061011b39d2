# Verified model of the Crono PCI user-space library

The library gives a program access to Cronologic PCI boards on Linux: it scans sysfs for devices, opens and closes
them, maps their BARs, reads and writes registers and configuration space, and locks DMA buffers through a kernel
module. Most of that is a thin layer over `open`, `mmap`, `ioctl` and `pread64`; what the library decides for itself is
who owns what, which accesses are in bounds, how partial transfers are put together, how the device table is kept, and
what things are called. That part is modelled here, and its properties are proved with Dafny 4.11:

    dafny verify dfyconfig.toml

## How it is built

Two layers meet in the middle. The imperative layer (`library.dfy`, `device_calls.dfy`, `dma_calls.dfy`, the methods of
`registers.dfy`, `config_space.dfy` and `scan.dfy`) has the source's loops, in-place updates and cleanup paths: a class
`Library` with the `devices` array, `iNewDev`, the device records as objects on a heap, open descriptors, mappings and
DMA records. Each of its methods is proved to leave exactly the state that a function of `lifecycle.dfy` gives, and to
keep the invariant `Ownership.Inv`. The lemmas are about those functions; `answers.dfy` pins them to the arguments and
the outcomes of the system calls, field by field.

| file | what it holds |
|---|---|
| `kernel_types.dfy` | constants and records |
| `naming.dfy` | the name printers, `sscanf`, and when they undo each other |
| `lifecycle.dfy` | the state and what each entry point does to it |
| `ownership.dfy` | live, held and leaked resources; the invariant |
| `bar_loops.dfy`, `conservation.dfy`, `release.dfy`, `buffers.dfy` | each entry point: invariant, and exactly what it leaks |
| `bar_sizes.dfy` | the size of a BAR against its 32-bit length |
| `answers.dfy` | when each call succeeds, which code it gives otherwise, what it stores |
| `registry.dfy` | which close strands another device; retries |
| `runs.dfy` | all of it over any sequence of calls |
| `witness.dfy` | runs that reach the failures |
| `little_endian.dfy`, `registers.dfy`, `bar_contents.dfy` | register windows, and what BARs hold over whole runs |
| `config_space.dfy`, `scan.dfy`, `paging.dfy` | configuration space, the scan, DMA page tables |

A system call is a parameter: each call takes a record that says what every `open`, `mmap`, `munmap`, `malloc`, `ioctl`,
`close` or `pread64` in it gives, and the properties hold for all such records. What is assumed of the system is in
`FillOk`, `OpenOk`, `SgIoOk` and `ContigIoOk`: a descriptor, block, mapping or buffer id it hands out is not one that is
live, `mmap` maps as many bytes as it is asked for and refuses zero, and a failing call sets `errno`. `close` on an open
descriptor releases it even when it reports an error, as Linux does, and fails with `EBADF` on one that is not open.
A device must be opened with room in the table: nothing in the source checks that. BAR memory is taken to behave like
memory.

A resource carries the address of the record it was acquired for. The program has no such field: it is what lets the
model say who holds what. A resource is *leaked* when it is live and no record that the program can reach lists it; a
device record is reached through the table below `iNewDev`, a DMA record through the caller's handle.

## Where the code does not do what it says

* The shrink loop of `freeDeviceMem` is commented as looking at the last element, and tests the cell after it. The model
  follows the code (`AsWritten`); what the comment describes is the mode `AsCommented` of the same functions. As written
  a close can put another open device out of reach: `Registry.WrittenStrandsExactly` says exactly when,
  `Witness.StrandingHappens` that it does happen, `Registry.SecondCloseFreesNothing` what follows,
  `Runs.OneAtATimeStrandsNothing` which programs are safe, and `Runs.CommentedRunKeepsAll` that with the commented test
  all are.
* After `munmap` failed, closing again cannot finish the job: the descriptor is already closed, so the second call fails
  at once, and so does every later one (`Runs.CloseNeverRecovers`), or, once an open was given the number again, closes
  the descriptor of that device (`Registry.CloseTakesForeignFd`, `Witness.DescriptorTakenHappens`). Calling
  `freeDeviceMem` again would work (`Registry.RetriesEqualOneCall`, `Registry.AttemptsSucceedExactly`).
* A device with device id 0 opens and can never be closed (`Runs.ZeroIdNeverCloses`). Descriptor 0 is taken for a failed
  `open` and stays open (`Witness.ZeroLeakHappens`).
* The `length` of a BAR has 32 bits. A device with a BAR whose size is a multiple of 4 GiB cannot be opened at all
  (`BarSizes.OpenableExactly`). Any other BAR above 4 GiB is cut to its size modulo 2^32 without an error, so most of it is
  out of reach (`BarSizes.DescriptionRightExactly`, `BarSizes.LargeBarShrinks`).
* Code 0 from the configuration accessors does not mean that four bytes moved: it does exactly when the file is readable
  that far. `crono_read_vendor_device` returns 0 with its results unset for a shorter file.
* The scan ignores how many fields `sscanf` read, so a name that does not match the whole format borrows what is missing
  from the device before it (`Scan.OwnReportExactly`). Its count is not set when nothing matches.
* After `mmap` fails in a contiguous lock, the caller's pointer is left at freed memory, and a retry with it returns 0
  with nothing locked (`Buffers.ContigRetryLocksNothing`, `Witness.RetryLiesHappens`).
* Every DMA page entry says 4096 bytes, whatever the page size, and the page count ignores where in its page a buffer
  starts. `Paging.TableRightExactly` and `Paging.CountEnoughExactly` say when that is right.
* `sizeof(val)` in the register readers is the size of an address, so every read needs eight bytes of room. The model
  follows the 64-bit builds.

## Model

| member | source | states |
|---|---|---|
| Runs.StepConserves | src/crono_kernel_interface.cpp:116-285 | any call, with any outcome of every system call in it, keeps the invariant, and changes the leaked resources by exactly what that call is listed to leave behind, less a leaked descriptor whose number a close happens to name |
| Runs.RunConserves | src/crono_kernel_interface.cpp:116-1164 | over any sequence of calls, a resource is leaked at the end if and only if it was leaked before and no close took its number back, or some call left it and no later close did |
| Runs.CleanRunHoldsAll | src/crono_kernel_interface.cpp:116-1164 | if nothing was left for good, live descriptors, blocks, mappings and ids are the disjoint union of what registered devices and outstanding DMA handles hold; with none of those left the process and the kernel hold nothing |
| Runs.FreshLibrary | src/crono_kernel_interface.cpp:29-30 | the zeroed globals satisfy the invariant with nothing live |
| Runs.UnloadConserves | src/crono_kernel_interface.cpp:1153-1164 | unloading frees every registered record and leaks exactly their descriptors and mappings |
| Runs.StepRegisters | src/crono_kernel_interface.cpp:154-154 | only an open adds a record to the registered ones, and only its own |
| Runs.CommentedStepKeepsAll | src/crono_kernel_interface.cpp:1145-1149 | with the test the comment describes, every record that is not freed stays registered, whatever is called and whatever fails |
| Runs.CommentedRunKeepsAll | src/crono_kernel_interface.cpp:1145-1149 | the same over any run |
| Runs.CommentedStrandsNothing | src/crono_kernel_interface.cpp:1145-1149 | and no close or release then leaves anything behind |
| Runs.LoneReleaseStrandsNothing | src/crono_kernel_interface.cpp:1123-1151 | as written, releasing the only registered device leaves nothing behind |
| Runs.OneAtATimeStrandsNothing | src/crono_kernel_interface.cpp:1123-1151 | the loop as written, in a program that opens only when nothing is registered: over any run and any failures every record not freed stays registered, and no close or release puts anything out of reach |
| Runs.CommentedRunKeepsTail | src/crono_kernel_interface.cpp:1145-1149 | with the commented test, in every reachable state the index is 0 or its last entry is in use |
| Runs.CommentedCloseUndoesOpen | src/crono_kernel_interface.cpp:116-285 | with the commented test, at the end of any run of the library, opening and closing a device gives back everything, the index included |
| Runs.ZeroIdNeverCloses | src/crono_kernel_interface.cpp:10-16 | a device that opens would open with device id 0 too; from then on, after any further calls, every close of it is refused and changes nothing |
| Witness.StrandingHappens | src/crono_kernel_interface.cpp:1145-1149 | a run of a fresh library in which nothing fails, two opens and a close, ends with a device open and out of reach |
| Witness.DescriptorTakenHappens | src/crono_kernel_interface.cpp:267-282 | a run with a failing `munmap` in which closing one device closes the descriptor of another |
| Witness.ZeroLeakHappens | src/crono_kernel_interface.cpp:197-220 | a run in which an open is given descriptor 0 ends with it open and held by nothing |
| Witness.RetryLiesHappens | src/crono_kernel_interface.cpp:838-906 | a run in which `mmap` fails in a contiguous lock, after which a retry with the caller's pointer returns 0 with nothing locked and the kernel's buffer leaked |
| Ownership.HolderIsAcquirer | src/crono_kernel_private.h:29-60 | whatever a reachable record lists is live, and was acquired for that record |
| Ownership.DisjointOwnership | src/crono_kernel_interface.cpp:29-30 | live resources are the disjoint union of the held and the leaked, and nothing has two holders |
| Ownership.NothingHeldNothingLive | src/crono_kernel_interface.cpp:29-30 | with nothing registered, no buffer outstanding and nothing leaked, nothing is live |
| BarLoops.BarCompaction | src/crono_kernel_interface.cpp:984-1121 | a first fill that succeeds holds exactly the present BARs in order, each with its line's first address, its 32-bit length and the address it was mapped at, and a zeroed tail; one that fails leaves the record alone and only the mappings of lower BARs; a second fill does nothing |
| BarLoops.CompactedUnique | src/crono_kernel_private.h:39-51 | the documented array layout determines the descriptors: two arrays that meet it are equal |
| BarLoops.DescriptorsSayTheirLines | src/crono_kernel_interface.cpp:1057-1119 | after a first fill with code 0 each descriptor has `physicalAddress` the start of the line its `barNum` names, `userAddress` where that BAR was mapped, `length` end minus start plus one cut to 32 bits, and what is mapped there is what `mmap` gave; nothing else in the record changes |
| BarLoops.FillAnswers | src/crono_kernel_interface.cpp:1000-1101 | the code of a fill: path, `resource` file, its stream, then `errno` of the first line that fails, and 0 if and only if no line that is there fails |
| BarLoops.MapsAdded | src/crono_kernel_interface.cpp:1086-1105 | the mappings the loop adds are those of its lines, all new and the device's own; every other is untouched |
| BarLoops.FilledBarsOk | src/crono_kernel_interface.cpp:1062-1119 | the filled record lists exactly the mappings just made, each as long as its recorded length |
| BarLoops.FillCode | src/crono_kernel_interface.cpp:984-1121 | code 0 exactly when the record was filled before or every line present opened and mapped |
| BarLoops.WholeFourGigabytesFail | src/crono_kernel_interface.cpp:1064-1101 | a BAR whose size is a multiple of 4 GiB makes every fill fail, whatever the other lines and calls |
| BarSizes.DescribableExactly | src/crono_kernel_interface.cpp:1038-1120 | some outcome of the calls describes a device with given lines if and only if no BAR that is there has a size that is a multiple of 4 GiB |
| BarSizes.OpenableExactly | src/crono_kernel_interface.cpp:116-260 | the same for opening it, in every reachable state with room |
| BarSizes.LengthsAreCut | src/crono_kernel_interface.cpp:1062-1065 | after a first fill with code 0 each length is the size of that BAR modulo 2^32, and the size itself if and only if that is below 4 GiB |
| BarSizes.DescriptionRightExactly | src/crono_kernel_interface.cpp:1062-1119 | all lengths are right if and only if every BAR that is there is smaller than 4 GiB |
| BarSizes.LargeBarShrinks | src/crono_kernel_interface.cpp:1062-1065 | a BAR of 4 GiB and one page is described without error, and only ever as one page long |
| Answers.OpenAnswers | src/crono_kernel_interface.cpp:125-237 | what open returns, by the first thing that goes wrong: `EBUSY` on the `/dev` node gives TRY_AGAIN, `ENODEV` NO_DEVICE_OBJECT, any other `errno` INSUFFICIENT_RESOURCES, each if and only if |
| Answers.OpensExactly | src/crono_kernel_interface.cpp:116-260 | open gives a handle if and only if it is asked for one, the slot is in the directory, its identifiers read, the `/dev` node is there and opens above 0, and every BAR that is there opens and maps |
| Answers.OpenTurnsAway | src/crono_kernel_interface.cpp:125-134 | turned away, or without an entry for the slot, it changes nothing and gives no handle |
| Answers.OpenStores | src/crono_kernel_interface.cpp:150-228 | the record stored has the slot asked for, the identifiers read, the `/dev` name made of them and the descriptor, in the next cell |
| Answers.FailedOpenLeaves | src/crono_kernel_interface.cpp:228-259 | any other open of a listed slot leaves index, records and buffers as they were, the freed pointer in the cell above the index, and with the caller once the BARs were reached |
| Answers.GetBarsAnswers | src/crono_kernel_interface.cpp:965-981 | without device or place for the result it is refused, and otherwise is a fill |
| Conservation.FillConserves | src/crono_kernel_interface.cpp:965-1121 | filling keeps the invariant and leaks exactly the mappings made before a failing BAR, or all of them for a record no longer registered |
| Conservation.OpenConserves | src/crono_kernel_interface.cpp:116-260 | open is transactional but for the mappings of lower BARs and a descriptor 0; success registers the record with its descriptor; no match changes nothing; a handle left by a failing call names no record |
| Conservation.StraysLeak | src/crono_kernel_interface.cpp:885-906 | what is added for a record that is not there is leaked, and is all that is |
| Release.CommentedShrink | src/crono_kernel_interface.cpp:1145-1149 | as commented the index ends at 0 or one past an entry in use, dropping only null cells |
| Release.WrittenShrink | src/crono_kernel_interface.cpp:1145-1149 | as written it stays, or ends at 0 or on an entry in use, dropping only null cells but that one |
| Release.ShrinkOffByOne | src/crono_kernel_interface.cpp:1145-1149 | once it moves, the loop as written stops one below where its comment says |
| Release.WrittenShrinkKeepsAll | src/crono_kernel_interface.cpp:1145-1149 | it keeps every entry in use below the index if and only if the cell at the index is not null or no entry is in use |
| Release.LowerIndex | src/crono_kernel_interface.cpp:1145-1149 | lowering the index leaks exactly what the dropped records hold |
| Release.UnmapsConserves | src/crono_kernel_interface.cpp:1128-1140 | unmapping a registered record, as far as it gets, leaks nothing and drops nobody |
| Release.FreeConserves | src/crono_kernel_interface.cpp:1123-1151 | a release leaks only what the shrink loop strands; code 0 frees the record if the table has it; an error keeps it with exactly the unmapped BARs cleared |
| Release.CloseConserves | src/crono_kernel_interface.cpp:262-285 | close changes nothing unless the record has a device id and its descriptor number is open; then it closes that number and loses only what is stranded |
| Answers.CloseAnswers | src/crono_kernel_interface.cpp:262-285 | the code of a close: refused handle, closed descriptor number, what `close` reports, then the first `munmap` that fails; the record goes if and only if every BAR still mapped unmaps |
| Answers.FreeAnswers | src/crono_kernel_interface.cpp:1123-1151 | the same for the release alone; the shrink loop runs after every release that does not fail, also of a record that is not in the table |
| Answers.FailedReleaseLeaves | src/crono_kernel_interface.cpp:1128-1140 | a release that fails at descriptor k has zeroed the addresses below k and unmapped exactly those; numbers, physical addresses and lengths stay, and so does everything else |
| Answers.UnloadStores | src/crono_kernel_interface.cpp:1153-1162 | unloading frees the registered records, empties the cells below the index, zeroes the index and touches nothing else |
| Registry.CommentedNeverStrands | src/crono_kernel_interface.cpp:1145-1149 | with the commented test no release puts another device out of reach |
| Registry.WrittenStrandsExactly | src/crono_kernel_interface.cpp:1123-1151 | as written a release that gets through strands another device if and only if the cell at the index reads null and another is registered |
| Registry.DroppedIsLast | src/crono_kernel_interface.cpp:1145-1149 | the device stranded is the entry the loop stopped at |
| Registry.SecondOpen | src/crono_kernel_interface.cpp:150-241 | opening a second device when one is open gives the state the next row starts from |
| Registry.SecondCloseFreesNothing | src/crono_kernel_interface.cpp:262-285 | with two open, closing either strands the other; closing that one too succeeds and frees neither its record nor its mappings |
| Registry.OpenAdds | src/crono_kernel_interface.cpp:150-241 | a successful open adds exactly one record in the next cell, one descriptor and the mappings that record lists |
| Registry.CloseUndoesOpen | src/crono_kernel_interface.cpp:116-285 | in either mode and from any state, closing what was just opened gives back every descriptor, mapping and record; only the index can differ |
| Registry.CloseSucceedsExactly | src/crono_kernel_interface.cpp:262-285 | a close returns 0 if and only if the record has a device id, its descriptor number is open, `close` reports no error, and every BAR still mapped unmaps if the table has the record |
| Registry.CloseRetryFails | src/crono_kernel_interface.cpp:267-282 | after a close that failed, closing again at once fails with EBADF and changes nothing |
| Runs.CloseNeverRecovers | src/crono_kernel_interface.cpp:267-282 | nor does any later close succeed, whatever is called in between, until an open is given the number again or the library is unloaded; the record stays |
| Registry.CloseTakesForeignFd | src/crono_kernel_interface.cpp:267-274 | a close leaves another device its descriptor if and only if the two records name different numbers |
| Registry.FreeFreesOnce | src/crono_kernel_interface.cpp:1123-1151 | a release removes exactly the record, its cell and the mappings it lists |
| Registry.FreedOnceUnique | src/crono_kernel_interface.cpp:1123-1151 | that statement determines the whole state |
| Registry.RetriesEqualOneCall | src/crono_kernel_interface.cpp:1128-1143 | however many attempts fail and wherever, the one that gets through leaves what a single call leaves |
| Registry.AttemptsSucceedExactly | src/crono_kernel_interface.cpp:1128-1143 | a run of attempts gets through if and only if each BAR still mapped can be given an attempt in which its `munmap` works, none an earlier one than the BAR before it |
| Registry.CleanAttemptSuffices | src/crono_kernel_interface.cpp:1128-1143 | one attempt in which no `munmap` fails is enough, whatever came before |
| Answers.SgLockExactly | src/crono_kernel_interface.cpp:586-674 | a lock returns 0 if and only if device, buffer, place for the handle and size are given, the three blocks are allocated and the `ioctl` agrees; the code otherwise; the handle holds buffer, pages in order with 4096 bytes each, and id |
| Answers.SgLockable | src/crono_kernel_interface.cpp:574-688 | in every reachable state and with any page size some answers of the system lock a buffer, of every size above 0, if and only if the arguments are given |
| Answers.SgUnlockExactly | src/crono_kernel_interface.cpp:700-741 | an unlock returns 0 if and only if device and handle are given and the `ioctl` agrees; the code otherwise |
| Answers.ContigLockExactly | src/crono_kernel_interface.cpp:838-917 | the same for a contiguous lock, which a handle given beforehand makes succeed at once; what handle and mapping hold |
| Answers.ContigLockable | src/crono_kernel_interface.cpp:826-918 | some answers of the system lock a new contiguous buffer, of every size above 0, if and only if the arguments are given |
| Answers.ContigUnlockExactly | src/crono_kernel_interface.cpp:920-963 | an unlock returns 0 if and only if device and handle are given and the `ioctl` agrees, whatever `munmap` does |
| Buffers.SgLockConserves | src/crono_kernel_interface.cpp:574-688 | a failed lock changes nothing; a successful one adds two fresh blocks and one fresh id, all the handle's |
| Buffers.SgUnlockConserves | src/crono_kernel_interface.cpp:700-741 | a failed unlock changes nothing; a successful one takes exactly that handle's blocks and id |
| Buffers.SgUnlockUndoesLock | src/crono_kernel_interface.cpp:574-741 | unlocking after locking gives the state before |
| Buffers.SgUnlockKeepsOthers | src/crono_kernel_interface.cpp:700-741 | every other handle keeps its table and id |
| Buffers.ContigLockConserves | src/crono_kernel_interface.cpp:826-918 | a contiguous lock adds record, mapping and id, or changes nothing, or leaks exactly the kernel id when `malloc` or `mmap` fails after the kernel gave the buffer |
| Buffers.ContigRetryLocksNothing | src/crono_kernel_interface.cpp:838-906 | after `mmap` failed the caller's pointer names no record and a retry with it reports success with nothing locked; after `malloc` failed it is still null |
| Buffers.ContigUnlockConserves | src/crono_kernel_interface.cpp:920-963 | an unlock takes exactly the handle's record and id, and leaks its mapping if and only if `munmap` fails |
| Objects.Library.constructor | src/crono_kernel_interface.cpp:29-30 | the initial objects are the empty state |
| DeviceCalls.FillDeviceBarDescriptions | src/crono_kernel_interface.cpp:984-1121 | the loop over six lines into a local array, in place, computes `Fill`, with the code that `BarLoops.FillAnswers` gives, and leaves every descriptor it opened closed |
| DeviceCalls.GetBarDescriptions | src/crono_kernel_interface.cpp:965-982 | computes `GetBars`, keeps the invariant and returns the record's six descriptors, each with its own line's address, length and mapping after a first fill |
| DeviceCalls.UnmapDeviceBars | src/crono_kernel_interface.cpp:1128-1140 | unmaps the leading descriptors up to the first failure, each a live mapping, and clears exactly their addresses |
| DeviceCalls.ShrinkDevices | src/crono_kernel_interface.cpp:1145-1149 | the loop computes `ShrinkTable` in the written mode |
| DeviceCalls.FreeDeviceMemory | src/crono_kernel_interface.cpp:1123-1151 | the search over the whole table, with the release inside it, computes `FreeDeviceMem` |
| DeviceCalls.PciDeviceClose | src/crono_kernel_interface.cpp:262-285 | computes `Close` and keeps the invariant |
| DeviceCalls.FindSlot | src/crono_kernel_interface.cpp:136-149 | the directory loop stops exactly when an entry scans to the slot |
| DeviceCalls.PciDeviceOpen | src/crono_kernel_interface.cpp:116-260 | with every cleanup path computes `Open`, keeps the invariant, and returns code and handle by the table of `Answers.OpenAnswers` |
| DeviceCalls.FreeDevicesMemory | src/crono_kernel_interface.cpp:1153-1162 | computes `FreeDevicesMem`, freeing live records only |
| DmaCalls.FillPages | src/crono_kernel_interface.cpp:657-660 | the copy loop gives one entry for each address, in order |
| DmaCalls.DMASGBufLock | src/crono_kernel_interface.cpp:574-688 | allocation by allocation computes `SgLock`, freeing live blocks only, and keeps the invariant; 0 if and only if the arguments are given, the blocks allocated and the `ioctl` agrees; the handle holds the buffer's pages |
| DmaCalls.DMASGBufUnlock | src/crono_kernel_interface.cpp:700-741 | computes `SgUnlock` and keeps the invariant; 0 if and only if device and handle are given and the `ioctl` agrees |
| DmaCalls.DMAContigBufLock | src/crono_kernel_interface.cpp:826-918 | computes `ContigLock` and keeps the invariant; when it returns 0, and what it writes to the caller's two pointers |
| DmaCalls.DMAContigBufUnlock | src/crono_kernel_interface.cpp:920-963 | computes `ContigUnlock` and keeps the invariant; 0 if and only if device and handle are given and the `ioctl` agrees |
| Registers.AccessInside | src/crono_kernel_interface.cpp:24-27 | while a device's descriptor is open, an access the guard admits lies inside one live mapping of that device; absent BARs admit nothing |
| Registers.HalfClosedAccess | src/crono_kernel_interface.cpp:1131-1139 | after a release that failed part way the guard still admits; the access is inside a live mapping if and only if that BAR is still mapped |
| Registers.WindowsApart | src/crono_kernel_interface.cpp:1102-1105 | different descriptors, of one device or two, never share a mapping |
| Registers.WriteAcceptedExactly | src/crono_kernel_interface.cpp:10-27 | while a device's descriptor is open a write is accepted if and only if its bytes are among those its BAR has mapped, up to the last; otherwise the code is -EINVAL or -ENOMEM and nothing changes |
| Registers.MappedIsAdmitted | src/crono_kernel_interface.cpp:24-27 | the guard admits what fits the mapping of an open device, and nothing else |
| Registers.WriteIsSafe | src/crono_kernel_interface.cpp:456-554 | a write keeps the invariant, and faults if and only if the guard admits it and the BAR is no longer mapped, which no open device has |
| Registers.WriteAddr | src/crono_kernel_interface.cpp:456-554 | on any handle not freed the writers change exactly the bytes of their width of the BAR the descriptor maps; while the device is open they never fault and accept exactly what fits the mapped bytes |
| Registers.ReadAddr | src/crono_kernel_interface.cpp:391-535 | on any handle not freed the readers are refused unless eight bytes are left, fault only on a BAR already unmapped, and otherwise give the little-endian number there; while the device is open they succeed if and only if eight mapped bytes are left |
| Registers.WritesKeep | src/crono_kernel_interface.cpp:456-554 | no sequence of writes breaks the invariant or touches a mapping of anything else |
| Registers.WritesRefineStore | src/crono_kernel_interface.cpp:456-554 | after any calls of any widths, accepted or not, each BAR holds its first contents with its accepted writes replayed |
| BarContents.StepKeepsWindow | src/crono_kernel_interface.cpp:116-1164 | no call but a write changes the record or the BAR contents of a device that is open before and after it |
| BarContents.RunRefinesStore | src/crono_kernel_interface.cpp:116-1164 | over any run of all the calls, on any devices, with any failures, a BAR of a device that stays open holds its first contents with its own accepted writes replayed in order |
| BarContents.RunReadsLastWrites | src/crono_kernel_interface.cpp:116-1164 | the number read at the end of such a run is spelled by the last accepted byte for each place |
| Registers.ReadSeesLastWrites | src/crono_kernel_interface.cpp:391-554 | each byte is what the last accepted write covering it put there, under any overlap, or what it was |
| Registers.ReadReturnsLastWrites | src/crono_kernel_interface.cpp:391-554 | the number a reader returns after any writes is the one spelled by the last accepted byte for each place it covers |
| Registers.WideWriteIsNarrow | src/crono_kernel_interface.cpp:456-514 | a 64-bit write leaves the state two 32-bit, four 16-bit or eight 8-bit writes leave |
| LittleEndian.BytesRoundTrip | src/crono_kernel_interface.cpp:456-514 | a number written as bytes reads back when it fits |
| LittleEndian.NumberRoundTrip | src/crono_kernel_interface.cpp:391-454 | bytes read as a number fit the width and are that number's bytes |
| LittleEndian.LastWriteWins | src/crono_kernel_interface.cpp:391-514 | replayed writes: last covering write, or the old byte |
| LittleEndian.LastIsUnique | src/crono_kernel_interface.cpp:391-514 | the last byte written to a place, or the first content, is always exactly one byte |
| ConfigSpace.ChunkingIndependent | src/sysfs.cpp:31-48 | however transfers are cut, the total never passes request or end of file, reaches the nearer without an error, and an error is that of the first failing call |
| ConfigSpace.TransferExactly | src/sysfs.cpp:24-53 | a file that does not open gives its error and moves nothing; without a failing call all there is moves with code 0; any other error is that of the first failing call |
| ConfigSpace.ReadConfig | src/sysfs.cpp:5-66 | copies a prefix of exactly the reported length, all there is when the code is 0, and leaves the rest of the buffer |
| ConfigSpace.WriteConfig | src/sysfs.cpp:114-165 | splices a prefix of exactly the reported length into the file, keeping its length and every other byte |
| ConfigSpace.ReadVendorDevice | src/sysfs.cpp:68-93 | the identifiers are the words at offsets 0 and 2 when four bytes came; otherwise both keep their value, also with code 0 |
| ConfigSpace.WordIs | src/sysfs.cpp:77-85 | the word at an offset is that byte plus 256 times the next |
| ConfigSpace.WordsOf | src/sysfs.cpp:84-85 | the halves of the 32-bit value are the little-endian words at 0 and 2 |
| ConfigSpace.OwnFile | include/crono_userspace.h:41-46 | the accessors work on the file at `/sys/bus/pci/devices/<name of the slot>/config`, which is no other slot's |
| ConfigSpace.PciReadCfg32 | src/crono_kernel_interface.cpp:322-355 | bounds by the reported size, then a read from the device's own file; code 0 means that all that is readable of the four bytes was read |
| ConfigSpace.PciWriteCfg32 | src/crono_kernel_interface.cpp:357-389 | bounds by the reported size, then a write to the device's own file; only the four bytes can change |
| ConfigSpace.ConfigRoundTrip | src/crono_kernel_interface.cpp:322-389 | a read after a write at the same offset gives the bytes written that the file has room for, hence the value; every other byte is kept |
| ConfigSpace.WriteThenRead | src/crono_kernel_interface.cpp:322-389 | the two calls one after the other: when both return 0 on a file readable as far as its size says, the value read is the value written and every other byte is kept |
| Naming.FieldExactly | include/crono_userspace.h:41-57 | what `%0wx`, `%0wX` or `%u` prints for a number is the one string of digits of that case with its value, at least `w` digits and none in front that could go |
| Naming.NameExactly | include/crono_userspace.h:53-57 | a text is the name of a slot if and only if it is domain, bus, device and function in this order between `:`, `:` and `.`, by the value of each piece, in the widths, bases and case of the format |
| Naming.NameRoundTrip | src/crono_kernel_interface.cpp:64-65 | parsing a printed name gives the slot back if and only if bus and device are at most 0xFF and the function at most 9 |
| Naming.NamesInjective | include/crono_userspace.h:53-57 | different 32-bit slots print differently, even those the parser cannot read back |
| Naming.PathsInjective | include/crono_userspace.h:41-57 | neither path is ever cut, and each names one slot |
| Naming.DomainFormatsAgree | include/crono_userspace.h:44-45 | the two formats print the same text for every domain |
| Naming.MiscdevNamesInjective | src/crono_linux_kernel.h:69-83 | the `/dev` name is never cut at 32 bytes and tells all ids and slots in range apart |
| Naming.MiscdevExactly | src/crono_linux_kernel.h:80-83 | a text is the `/dev` name of a device in range if and only if it starts with `crono_`, the part up to the next `_` has the value of the id, the last five characters those of bus, device and function, and what is between that of the domain |
| Naming.WideBusesCollide | src/crono_linux_kernel.h:80-83 | the range matters: for every bus of three digits and every domain of two or more, another slot has the same `/dev` name |
| Naming.ScanStaysInRange | src/crono_kernel_interface.cpp:141-142 | whatever an entry is called, scanning it keeps the numbers in range |
| Naming.ScanIndependentExactly | src/crono_kernel_interface.cpp:64-65 | what the scan stores is independent of what its variables held if and only if the whole name matches the format |
| Naming.ScansToNothingExactly | src/crono_kernel_interface.cpp:64-65 | the scan leaves every variable as it was if and only if the name has no leading hexadecimal digit |
| Naming.PrintedCompletes | include/crono_userspace.h:53-57 | the names sysfs gives to scannable slots match the whole format |
| Scan.PciScanDevices | src/crono_kernel_interface.cpp:32-106 | the result holds what `Scan.ReportsInOrder` and `Scan.OwnReportExactly` speak of from its first cell on and is otherwise untouched; the count is set only when something matches |
| Scan.ScanSelects | src/crono_kernel_interface.cpp:58-99 | on a well-formed directory the loop is the filter over readable links, whatever its variables held |
| Scan.ReportsExactly | src/crono_kernel_interface.cpp:58-99 | a device is reported if and only if a readable link is named after its slot, its ids are the words at 0 and 2 of that slot's file, and each is the wanted one or none is wanted |
| Scan.ReportsInOrder | src/crono_kernel_interface.cpp:58-99 | the result has exactly one cell for each such link, in the order of the directory |
| Scan.ReadCodes | src/sysfs.cpp:24-53 | a link's file reads with code ENOENT if missing, its error if it does not open, 0 if no call fails, and otherwise that of the first failing call |
| Scan.SpecificIsFilteredWildcard | src/crono_kernel_interface.cpp:76-81 | a scan for given ids reports the matching subsequence of the wildcard scan, on any directory |
| Scan.OwnReportExactly | src/crono_kernel_interface.cpp:64-96 | what the loop reports for a link is the link's own, whatever came before and whatever the variables held, if and only if the whole name matches the format |
| Scan.LoneLink | src/crono_kernel_interface.cpp:58-99 | a directory with nothing but one link reports exactly what the previous row speaks of |
| Scan.OwnIdsExactly | src/crono_kernel_interface.cpp:68-69 | the identifiers reported are the link's own if and only if its file does not read or has four bytes |
| Scan.UnsetDoesNotMatter | src/crono_kernel_interface.cpp:38-39 | on a directory of such links the whole scan is independent of the uninitialised variables |
| Scan.MalformedDuplicates | src/crono_kernel_interface.cpp:64-69 | every link without a leading hexadecimal digit is reported as the device before it, which is then reported twice |
| Scan.OpenFindsLinks | src/crono_kernel_interface.cpp:136-149 | open finds a slot if and only if a link is named after it |
| Scan.OpenOwnExactly | src/crono_kernel_interface.cpp:136-149 | for one link the open loop gives the same answer whatever its variables hold if and only if the whole name matches the format |
| Paging.PageCount | src/crono_kernel_interface.cpp:609-611 | enough pages and not one too many, and no more than the 32-bit size |
| Paging.EnoughPages | src/crono_kernel_interface.cpp:609-611 | the count is the least that covers the size |
| Paging.LocateDivides | src/crono_kernel_interface.cpp:657-660 | walking the table by its entry lengths divides the offset by 4096 |
| Paging.TableRightExactly | src/crono_kernel_interface.cpp:657-660 | the table leads every byte to its place, for all pages the kernel may give, if and only if pages have 4096 bytes or the buffer fits one page and one entry |
| Paging.PhysicalInjective | src/crono_kernel_interface.cpp:657-660 | with distinct aligned pages different bytes are at different places |
| Paging.LockedBufferResolves | src/crono_kernel_interface.cpp:574-688 | after a successful lock of an aligned buffer of any size with 4096-byte pages, the handle's table leads every byte to its place, no two alike |
| Paging.CountEnoughExactly | src/crono_kernel_interface.cpp:609-611 | for a buffer that starts inside a page the count is enough if and only if the start is no further in than the last page has to spare, and is never short of more than one |

## Left out

- Registers.WriteAddr: an access through the zeroed address of a BAR that is no longer mapped is taken to fault, whatever the offset; that nothing else is mapped so low is a property of the system
- Registers.ReadAddr: the same, and a missing `val` is taken as refused also in the one reader that does not check it
- Scan.PciScanDevices: requires at most 100 matches, as the source does without checking
- Naming.NameRoundTrip: names with blanks, signs or `0x` in front of a number, which `sscanf` accepts and sysfs never has, are not scanned as C would
- The configuration read inside open is a parameter, its code and the two identifiers it leaves; `ConfigSpace.ReadVendorDevice` is proved on its own
- Values of `barIndex` of 6 and above, and a ninth open: the source indexes past its arrays
- A failing `malloc` in open: the source does not check it
- The addresses of DMA records and their page arrays are keys of maps in one field of `Library`: those records are values updated through the map, not objects, so aliasing of a handle by the caller is not captured
- Calls with a handle that was freed; and an `ioctl` through a descriptor number that is closed or given out again may have any outcome in the model, where Linux would fail it or send it to the other device
- Mappings are told apart by their first address; that `mmap` rounds lengths to pages and never overlaps mappings is not modelled
- Two mappings of the same physical BAR, as when one slot is opened twice, do not see each other's bytes in the model
- Offsets of 2^63 and above in the configuration loops, which `pread64` would take as negative
- Registers with side effects, and memory ordering of `volatile` accesses
- Parsing of the `resource` file: its lines arrive as pairs of numbers, and the `flags` of a descriptor stay 0 as in the source
- `crono_get_sys_devices_directory_path`, one string splice; whether it succeeds is a parameter
- The kernel module behind `ioctl`; fresh ids and page addresses on success are assumed
- Threads: the source takes no locks, and each call is one step
- Logging, the debug build, and the stubs and plain copies: `CRONO_KERNEL_PciGetDeviceInfo`, `CRONO_KERNEL_PciDriverVersion`, `Stat2Str`, `CRONO_KERNEL_PciWriteCfg32Arr`, `CRONO_KERNEL_GetDeviceMiscName`, `CRONO_KERNEL_GetDeviceBARMem`, `CRONO_KERNEL_CardCleanupSetup`
- `crono_get_BAR0_mem_addr` is documented but not part of this model: no implementation of it is in the repository
