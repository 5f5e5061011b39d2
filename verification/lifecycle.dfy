/**
 The library's state and what each entry point does to it, for every outcome of every system call.

 State is everything the process holds: the `devices` table, the heap blocks, the open descriptors, the mappings and
 the buffer ids the kernel module keeps.  Descriptors, mappings, ids and page arrays carry the address of the record
 they were acquired for; the program has no such field, it is what conservation is stated with.
 */
module Lifecycle {
  import opened Kernel
  import Naming

  datatype Mapping = Mapping(owner: Ptr, bytes: seq<Byte>)
  datatype PageTable = PageTable(owner: Ptr, entries: seq<DmaPage>)

  /** Everything the DMA calls keep: records, page arrays, short-lived blocks, and buffer ids in the kernel module. */
  datatype Dma = Dma(
    sgs: map<Ptr, Sg>, pageTables: map<Ptr, PageTable>, contigs: map<Ptr, Contig>, scratch: set<Ptr>,
    sgIds: map<int, Ptr>, contigIds: map<int, Ptr>)

  datatype State = State(
    table: seq<Ptr>, next: nat,
    devs: map<Ptr, Record>,
    fds: map<int, Ptr>, maps: map<Ptr, Mapping>,
    dma: Dma)

  /** The table before anything is opened; `devices` is zeroed and `iNewDev` is 0. */
  const EMPTY: State :=
    State([0, 0, 0, 0, 0, 0, 0, 0], 0, map[], map[], map[], Dma(map[], map[], map[], {}, map[], map[]))

  /** The state a call leaves and the code it returns; a negative code is returned as its two's complement. */
  datatype Outcome = Outcome(state: State, code: int)

  /** The same for open, with what it leaves in `*phDev`; null also stands for a `*phDev` that is not written. */
  datatype OpenOutcome = OpenOutcome(state: State, code: int, handle: Ptr)

  /** Open found its device and returned a handle for it. */
  predicate Opened(o: OpenOutcome)
  {
    o.code == 0 && o.handle != NULL
  }

  // ---------------------------------------------------------------- BAR descriptions

  datatype MapResult = MapFailed(errno: int) | Mapped(addr: Ptr, bytes: seq<Byte>)

  /** One line of the `resource` file and what opening and mapping that BAR gave; `fd` is negative on failure. */
  datatype BarIo = BarIo(start: nat, end: nat, fd: int, openErrno: int, map_: MapResult)

  /** What happens around the six lines: the directory path, the `resource` file and its stream. */
  datatype FillIo = FillIo(pathErr: int, resourceFd: int, resourceErrno: int, streamOk: bool, bars: seq<BarIo>)

  predicate Present(b: BarIo)
  {
    !(b.start == 0 && b.end == 0)
  }

  /** `end - start + 1` in 64 bits, stored into the 32-bit `length`. */
  function BarLength(b: BarIo): nat
  {
    (b.end - b.start + 1) % U64 % U32
  }

  /** The line is there but its BAR does not open or does not map. */
  predicate BarFails(b: BarIo)
  {
    Present(b) && (b.fd < 0 || b.map_.MapFailed?)
  }

  /** The line is there, opens and maps. */
  predicate BarMaps(b: BarIo)
  {
    Present(b) && b.fd >= 0 && b.map_.Mapped?
  }

  /** `errno` after a failing line. */
  function BarError(b: BarIo): int
    requires BarFails(b)
  {
    if b.fd < 0 then b.openErrno else b.map_.errno
  }

  /** The first of the lines below `n` that fails, or `n`. */
  function FillStop(bars: seq<BarIo>, n: nat): (m: nat)
    requires n <= |bars|
    ensures m <= n
    ensures m < n ==> BarFails(bars[m])
    ensures forall i :: 0 <= i < m ==> !BarFails(bars[i])
  {
    if n == 0 then 0
    else
      var m := FillStop(bars, n - 1);
      if m < n - 1 then m else if BarFails(bars[n - 1]) then n - 1 else n
  }

  /** The local descriptors after `m` lines that did not fail: one for each line that is there. */
  function Described(bars: seq<BarIo>, m: nat): (descs: seq<Bar>)
    requires m <= |bars|
    ensures |descs| <= m
  {
    if m == 0 then []
    else if BarMaps(bars[m - 1]) then Described(bars, m - 1) + [Describe(bars[m - 1], m - 1)]
    else Described(bars, m - 1)
  }

  function Describe(b: BarIo, barNum: nat): Bar
    requires BarMaps(b)
  {
    Bar(barNum, b.map_.addr, b.start, BarLength(b))
  }

  /** The mappings after `m` lines that did not fail. */
  function MapsWith(p: Ptr, maps: map<Ptr, Mapping>, bars: seq<BarIo>, m: nat): map<Ptr, Mapping>
    requires m <= |bars|
  {
    if m == 0 then maps
    else if BarMaps(bars[m - 1]) then
      MapsWith(p, maps, bars, m - 1)[bars[m - 1].map_.addr := Mapping(p, bars[m - 1].map_.bytes)]
    else MapsWith(p, maps, bars, m - 1)
  }

  function PadBars(descs: seq<Bar>): (bars: seq<Bar>)
    requires |descs| <= BAR_SLOTS
    ensures |bars| == BAR_SLOTS
  {
    descs + seq(BAR_SLOTS - |descs|, _ => NO_BAR)
  }

  /** The record with the descriptors copied in. */
  function Filled(r: Record, descs: seq<Bar>): Record
    requires |descs| <= BAR_SLOTS
  {
    r.(bars := PadBars(descs), barCount := |descs|)
  }

  /** The BAR loop and what follows it. */
  function FillLines(s: State, p: Ptr, bars: seq<BarIo>): Outcome
    requires p in s.devs && |bars| == BAR_SLOTS
  {
    var m := FillStop(bars, |bars|);
    var t := s.(maps := MapsWith(p, s.maps, bars, m));
    if m < |bars| then Outcome(t, BarError(bars[m]))
    else Outcome(t.(devs := s.devs[p := Filled(s.devs[p], Described(bars, m))]), 0)
  }

  /** `fill_device_bar_descriptions`. */
  function Fill(s: State, p: Ptr, io: FillIo): Outcome
    requires p in s.devs && |io.bars| == BAR_SLOTS
  {
    if s.devs[p].barCount > 0 then Outcome(s, 0)
    else if io.pathErr != 0 then Outcome(s, io.pathErr)
    else if io.resourceFd < 0 then Outcome(s, io.resourceErrno)
    else if !io.streamOk then Outcome(s, -EINVAL)
    else FillLines(s, p, io.bars)
  }

  /** What `CRONO_INIT_HDEV_FUNC` checks of a handle. */
  predicate Usable(s: State, h: Ptr)
  {
    h != NULL && h in s.devs && s.devs[h].deviceId != 0
  }

  /** `CRONO_KERNEL_GetBarDescriptions`, which fills the record if open found no BAR. */
  function GetBars(s: State, h: Ptr, hasOut: bool, io: FillIo): Outcome
    requires |io.bars| == BAR_SLOTS
  {
    if !Usable(s, h) || !hasOut then Outcome(s, -EINVAL) else Fill(s, h, io)
  }

  // ---------------------------------------------------------------- open

  datatype Entry = Entry(isLink: bool, name: string)

  /** Whether the directory loop stops at an entry that scans to `slot`; `last` is what the variables hold. */
  predicate Listed(entries: seq<Entry>, slot: Slot, last: Slot)
  {
    if entries == [] then false
    else if !entries[0].isLink then Listed(entries[1..], slot, last)
    else
      var at := Naming.ScanName(entries[0].name, last);
      at == slot || Listed(entries[1..], slot, at)
  }

  /**
   Outcomes of one `CRONO_KERNEL_PciDeviceOpen`: `opendir`, the entries, the uninitialised scan variables, the address
   `malloc` gives, the configuration read and the two locals it leaves, `stat`, `open` on the `/dev` node, the BARs,
   and `close` in the cleanup.
   */
  datatype OpenIo = OpenIo(dirErrno: int, entries: seq<Entry>, unset: Slot, record: Ptr,
                           readErr: int, vendorId: nat, deviceId: nat, statOk: bool,
                           fd: int, openErrno: int, fill: FillIo)

  /** The code for a `/dev` node that does not open. */
  function OpenError(errno: int): int
  {
    if errno == EBUSY then TRY_AGAIN
    else if errno == ENODEV then NO_DEVICE_OBJECT
    else INSUFFICIENT_RESOURCES
  }

  /** The new record once its descriptor is stored, before the BARs are filled. */
  function NewRecord(slot: Slot, io: OpenIo): Record
  {
    Record(slot, io.vendorId, io.deviceId, PadBars([]), 0, Naming.MiscdevName(io.deviceId, slot), io.fd)
  }

  /** The state with the record entered and its descriptor open. */
  function Entered(s: State, slot: Slot, io: OpenIo): State
    requires s.next < |s.table|
  {
    s.(table := s.table[s.next := io.record], next := s.next + 1,
       devs := s.devs[io.record := NewRecord(slot, io)], fds := s.fds[io.fd := io.record])
  }

  /** The label `device_error`: the record is freed and the index taken back, the table cell keeps the pointer. */
  function Abandoned(s: State, io: OpenIo): State
    requires s.next < |s.table|
  {
    s.(table := s.table[s.next := io.record])
  }

  /** How far a call gets before the BARs: turned away, no entry matches, broken off at the record, or ready. */
  datatype Progress = Refused(code: int) | NotListed | Broken(code: int) | Ready

  function OpenProgress(hasOut: bool, slot: Option<Slot>, io: OpenIo): Progress
  {
    if !hasOut || slot.None? then Refused(-EINVAL)
    else if io.dirErrno != 0 then Refused(io.dirErrno)
    else if !Listed(io.entries, slot.value, io.unset) then NotListed
    else if io.readErr != 0 then Broken(TRY_AGAIN)
    else if !io.statOk then Broken(-EINVAL)
    else if io.fd <= 0 then Broken(OpenError(io.openErrno))
    else Ready
  }

  /** `open` succeeded with descriptor 0, which the code takes for a failure. */
  predicate OpensZero(io: OpenIo)
  {
    io.readErr == 0 && io.statOk && io.fd == 0
  }

  /** Broken off before the BARs; a descriptor 0 stays open. */
  function OpenBroken(s: State, io: OpenIo): State
    requires s.next < |s.table|
  {
    if OpensZero(io) then Abandoned(s, io).(fds := s.fds[0 := io.record]) else Abandoned(s, io)
  }

  /**
   The record is entered and its BARs filled, or everything but the mappings is taken back.  The handle is stored before
   the BARs are filled, so it is left behind, dangling, when that fails.
   */
  function OpenBars(s: State, slot: Slot, io: OpenIo): OpenOutcome
    requires s.next < |s.table| && |io.fill.bars| == BAR_SLOTS
  {
    var Outcome(t, err) := Fill(Entered(s, slot, io), io.record, io.fill);
    OpenOutcome(if err == 0 then t else Abandoned(s, io).(maps := t.maps), err, io.record)
  }

  /** `CRONO_KERNEL_PciDeviceOpen`. */
  function Open(s: State, hasOut: bool, slot: Option<Slot>, io: OpenIo): OpenOutcome
    requires s.next < |s.table| && |io.fill.bars| == BAR_SLOTS
  {
    match OpenProgress(hasOut, slot, io)
    case Refused(code) => OpenOutcome(s, code, NULL)
    case NotListed => OpenOutcome(s, 0, NULL)
    case Broken(code) => OpenOutcome(OpenBroken(s, io), code, NULL)
    case Ready => OpenBars(s, slot.value, io)
  }

  // ---------------------------------------------------------------- release

  /** Descriptor `i` is passed over or unmapped without error. */
  predicate UnmapWorks(bars: seq<Bar>, errs: seq<int>, i: nat)
    requires i < |bars| && i < |errs|
  {
    bars[i].userAddress == NULL || errs[i] == 0
  }

  /** The first descriptor below `n` whose `munmap` fails, or `n`; `errs[i]` is 0 when unmapping `i` works. */
  function UnmapStop(bars: seq<Bar>, errs: seq<int>, n: nat): (m: nat)
    requires n <= |bars| && n <= |errs|
    ensures m <= n
    ensures m < n ==> !UnmapWorks(bars, errs, m)
    ensures forall i :: 0 <= i < m ==> UnmapWorks(bars, errs, i)
  {
    if n == 0 then 0
    else
      var m := UnmapStop(bars, errs, n - 1);
      if m < n - 1 then m else if UnmapWorks(bars, errs, n - 1) then n else n - 1
  }

  /** The first `m` descriptors with their address zeroed, and nothing else. */
  function Cleared(bars: seq<Bar>, m: nat): (c: seq<Bar>)
    ensures |c| == |bars|
  {
    seq(|bars|, i requires 0 <= i < |bars| => if i < m then bars[i].(userAddress := NULL) else bars[i])
  }

  /** The mappings without those the first `m` descriptors name. */
  function MapsWithout(maps: map<Ptr, Mapping>, bars: seq<Bar>, m: nat): map<Ptr, Mapping>
    requires m <= |bars|
  {
    map a | a in maps && !(exists i :: 0 <= i < m && bars[i].userAddress == a) :: maps[a]
  }

  /**
   Which cell the shrink loop tests.  The source tests `devices[iNewDev]` (`AsWritten`); its comment speaks of the
   last element, which is `devices[iNewDev - 1]` (`AsCommented`).
   */
  datatype Shrink = AsWritten | AsCommented

  /** Whether the cell tested at index `n` is null; `pastNull` is the word after the array. */
  predicate TestsNull(table: seq<Ptr>, n: nat, mode: Shrink, pastNull: bool)
    requires 0 < n <= |table|
  {
    if mode == AsCommented then table[n - 1] == NULL
    else if n < |table| then table[n] == NULL
    else pastNull
  }

  function Shrunk(table: seq<Ptr>, n: nat, mode: Shrink, pastNull: bool): (m: nat)
    requires n <= |table|
    ensures m <= n
  {
    if n > 0 && TestsNull(table, n, mode, pastNull) then Shrunk(table, n - 1, mode, pastNull) else n
  }

  /** The first index below `n` that holds `p`, or `n`. */
  function IndexOf(table: seq<Ptr>, n: nat, p: Ptr): (i: nat)
    requires n <= |table|
    ensures i <= n
    ensures i < n ==> table[i] == p
    ensures forall j :: 0 <= j < i ==> table[j] != p
  {
    if n == 0 then 0
    else
      var i := IndexOf(table, n - 1, p);
      if i < n - 1 then i else if table[n - 1] == p then n - 1 else n
  }

  datatype FreeIo = FreeIo(unmapErrs: seq<int>, pastNull: bool)

  /** How far the unmapping loop over `p`'s descriptors gets. */
  function StopOf(s: State, p: Ptr, errs: seq<int>): (m: nat)
    requires p in s.devs && s.devs[p].barCount <= |s.devs[p].bars| && s.devs[p].barCount <= |errs|
    ensures m <= s.devs[p].barCount
  {
    UnmapStop(s.devs[p].bars, errs, s.devs[p].barCount)
  }

  /** The record and the mappings when the unmapping loop stops at descriptor `m`. */
  function Unmaps(s: State, p: Ptr, m: nat): State
    requires p in s.devs && m <= |s.devs[p].bars|
  {
    s.(maps := MapsWithout(s.maps, s.devs[p].bars, m),
       devs := s.devs[p := s.devs[p].(bars := Cleared(s.devs[p].bars, m))])
  }

  /** The record at table index `i` is freed and its cell nulled. */
  function Removed(s: State, i: nat): State
    requires i < |s.table|
  {
    s.(table := s.table[i := NULL], devs := s.devs - {s.table[i]})
  }

  /** The shrink loop. */
  function ShrinkTable(s: State, mode: Shrink, pastNull: bool): State
    requires s.next <= |s.table|
  {
    s.(next := Shrunk(s.table, s.next, mode, pastNull))
  }

  /** `freeDeviceMem`. */
  function FreeDeviceMem(s: State, p: Ptr, io: FreeIo, mode: Shrink): Outcome
    requires s.next <= |s.table|
    requires p in s.devs && s.devs[p].barCount <= |s.devs[p].bars| && s.devs[p].barCount <= |io.unmapErrs|
  {
    var i := IndexOf(s.table, s.next, p);
    var m := StopOf(s, p, io.unmapErrs);
    if i == s.next then Outcome(ShrinkTable(s, mode, io.pastNull), 0)
    else if m < s.devs[p].barCount then Outcome(Unmaps(s, p, m), io.unmapErrs[m])
    else Outcome(ShrinkTable(Removed(Unmaps(s, p, m), i), mode, io.pastNull), 0)
  }

  /** `closeErrno` is what `close` reports; on Linux an open descriptor is released even when it reports an error. */
  datatype CloseIo = CloseIo(closeErrno: int, free: FreeIo)

  /** `CRONO_KERNEL_PciDeviceClose`. */
  function Close(s: State, h: Ptr, io: CloseIo, mode: Shrink): Outcome
    requires s.next <= |s.table|
    requires h != NULL ==> h in s.devs && s.devs[h].barCount <= |s.devs[h].bars| &&
                           s.devs[h].barCount <= |io.free.unmapErrs|
  {
    if !Usable(s, h) then Outcome(s, -EINVAL)
    else
      var fd := s.devs[h].fd;
      if fd !in s.fds then Outcome(s, EBADF)
      else
        var t := s.(fds := s.fds - {fd});
        if io.closeErrno != 0 then Outcome(t, io.closeErrno) else FreeDeviceMem(t, h, io.free, mode)
  }

  /** `freeDevicesMem`, run when the library is unloaded: records only, no descriptor and no mapping. */
  function FreeDevicesMem(s: State): State
    requires s.next <= |s.table|
  {
    s.(table := seq(|s.table|, i requires 0 <= i < |s.table| => if i < s.next then NULL else s.table[i]),
       next := 0,
       devs := map p | p in s.devs && p !in s.table[..s.next] :: s.devs[p])
  }

  // ---------------------------------------------------------------- scatter/gather buffers

  /** The three `malloc`s (null on failure) and what the lock `ioctl` returns. */
  datatype SgIo = SgIo(record: Ptr, pages: Ptr, scratch: Ptr, ret: int, id: int, addresses: seq<nat>)

  /** `DIV_ROUND_UP`, in the 64-bit type of the page size. */
  function DivRoundUp(n: nat, d: nat): nat
    requires d > 0
  {
    (n + d - 1) / d
  }

  function SgPages(addresses: seq<nat>): seq<DmaPage>
  {
    seq(|addresses|, i requires 0 <= i < |addresses| => DmaPage(addresses[i], 4096))
  }

  /** The record, its page array and the kernel's id are kept. */
  function WithSg(dma: Dma, p: Ptr, d: Sg, addresses: seq<nat>): Dma
  {
    dma.(sgs := dma.sgs[p := d], pageTables := dma.pageTables[d.page := PageTable(p, SgPages(addresses))],
         sgIds := dma.sgIds[d.id := p])
  }

  /** All three go. */
  function WithoutSg(dma: Dma, p: Ptr): Dma
    requires p in dma.sgs
  {
    dma.(sgs := dma.sgs - {p}, pageTables := dma.pageTables - {dma.sgs[p].page}, sgIds := dma.sgIds - {dma.sgs[p].id})
  }

  /** `CRONO_KERNEL_DMASGBufLock`; `buf` is null when no buffer is given, `hasOut` says whether `ppDma` is. */
  function SgLock(s: State, h: Ptr, buf: Ptr, size: nat, hasOut: bool, pageSize: nat, io: SgIo): Outcome
    requires pageSize > 0
    requires h != NULL ==> h in s.devs
  {
    if !Usable(s, h) || buf == NULL || !hasOut || size == 0 then Outcome(s, -EINVAL)
    else if s.devs[h].fd <= 0 then Outcome(s, -ENOENT)
    else if io.record == NULL || io.pages == NULL || io.scratch == NULL then Outcome(s, -ENOMEM)
    else if io.ret != 0 then Outcome(s, io.ret)
    else
      var d := Sg(buf, DivRoundUp(size, pageSize), io.pages, io.id);
      Outcome(s.(dma := WithSg(s.dma, io.record, d, io.addresses)), 0)
  }

  /** `CRONO_KERNEL_DMASGBufUnlock`; `ret` is what the unlock `ioctl` returns. */
  function SgUnlock(s: State, h: Ptr, dma: Ptr, ret: int): Outcome
    requires h != NULL ==> h in s.devs
    requires dma != NULL ==> dma in s.dma.sgs
  {
    if !Usable(s, h) || dma == NULL then Outcome(s, -EINVAL)
    else if s.devs[h].fd <= 0 then Outcome(s, -ENOENT)
    else if ret != 0 then Outcome(s, ret)
    else Outcome(s.(dma := WithoutSg(s.dma, dma)), 0)
  }

  // ---------------------------------------------------------------- contiguous buffers

  /** The lock `ioctl`, the `malloc` (null on failure) and the `mmap`. */
  datatype ContigIo = ContigIo(ret: int, id: int, physicalAddr: nat, record: Ptr, map_: MapResult)

  /** The kernel keeps a buffer. */
  function WithContigId(dma: Dma, id: int, p: Ptr): Dma
  {
    dma.(contigIds := dma.contigIds[id := p])
  }

  /** The record is kept as well. */
  function WithContig(dma: Dma, p: Ptr, d: Contig): Dma
  {
    WithContigId(dma, d.id, p).(contigs := dma.contigs[p := d])
  }

  /** Both go. */
  function WithoutContig(dma: Dma, p: Ptr): Dma
    requires p in dma.contigs
  {
    dma.(contigs := dma.contigs - {p}, contigIds := dma.contigIds - {dma.contigs[p].id})
  }

  /** `CRONO_KERNEL_DMAContigBufLock`; `given` is what `*ppDma` holds on entry. */
  function ContigLock(s: State, h: Ptr, hasBuf: bool, size: nat, hasOut: bool, given: Ptr, io: ContigIo): Outcome
    requires h != NULL ==> h in s.devs
  {
    if !hasOut then Outcome(s, -EINVAL)
    else if given != NULL then Outcome(s, 0)
    else if !Usable(s, h) || !hasBuf || size == 0 then Outcome(s, -EINVAL)
    else if s.devs[h].fd <= 0 then Outcome(s, -ENOENT)
    else if io.ret != 0 then Outcome(s, io.ret)
    else if io.record == NULL || io.map_.MapFailed? then
      // the kernel keeps the buffer
      Outcome(s.(dma := WithContigId(s.dma, io.id, io.record)), -ENOMEM)
    else
      Outcome(s.(maps := s.maps[io.map_.addr := Mapping(io.record, io.map_.bytes)],
                 dma := WithContig(s.dma, io.record, Contig(io.map_.addr, size, io.physicalAddr, io.id))), 0)
  }

  /** `CRONO_KERNEL_DMAContigBufUnlock`; `unmapOk` is the `munmap` whose failure is only printed. */
  function ContigUnlock(s: State, h: Ptr, dma: Ptr, ret: int, unmapOk: bool): Outcome
    requires h != NULL ==> h in s.devs
    requires dma != NULL ==> dma in s.dma.contigs
  {
    if !Usable(s, h) || dma == NULL then Outcome(s, -EINVAL)
    else if s.devs[h].fd <= 0 then Outcome(s, -ENOENT)
    else if ret != 0 then Outcome(s, ret)
    else
      var maps := if unmapOk then s.maps - {s.dma.contigs[dma].userAddr} else s.maps;
      Outcome(s.(maps := maps, dma := WithoutContig(s.dma, dma)), 0)
  }
}
