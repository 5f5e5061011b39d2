/**
 When each call succeeds, which code it gives otherwise, and what it stores: said on its arguments and on what the
 system calls in it gave.
 */
module Answers {
  import opened Kernel
  import opened Lifecycle
  import opened Ownership
  import opened BarLoops
  import opened BarSizes
  import opened Conservation
  import opened Buffers
  import opened Release
  import Naming

  // ---------------------------------------------------------------- open

  /** The code for a `/dev` node that does not open. */
  predicate NodeSays(errno: int, ret: int)
  {
    && (ret == TRY_AGAIN <==> errno == EBUSY)
    && (ret == NO_DEVICE_OBJECT <==> errno == ENODEV)
    && (ret == INSUFFICIENT_RESOURCES <==> errno != EBUSY && errno != ENODEV)
  }

  /**
   What open returns.  Of the things that go wrong the first one gives the code: the arguments, the directory, a read of
   the identifiers, the missing `/dev` node, the `open` of it by what `errno` is, then the BARs.  A descriptor 0 counts
   as a failed `open`.  The handle is there from the BARs on, whatever the code.
   */
  predicate OpenSays(hasOut: bool, slot: Option<Slot>, io: OpenIo, ret: int, h: Ptr)
  {
    if !hasOut || slot.None? then ret == -EINVAL && h == NULL
    else if io.dirErrno != 0 then ret == io.dirErrno && h == NULL
    else if !Listed(io.entries, slot.value, io.unset) then ret == 0 && h == NULL
    else if io.readErr != 0 then ret == TRY_AGAIN && h == NULL
    else if !io.statOk then ret == -EINVAL && h == NULL
    else if io.fd <= 0 then NodeSays(io.openErrno, ret) && h == NULL
    else FillSays(io.fill, ret) && h == io.record
  }

  lemma OpenAnswers(s: State, hasOut: bool, slot: Option<Slot>, io: OpenIo)
    requires s.next < |s.table| && OpenOk(s, slot, io)
    ensures var o := Open(s, hasOut, slot, io);
            OpenSays(hasOut, slot, io, o.code, o.handle)
  {
    if slot.Some? {
      FillAnswers(Entered(s, slot.value, io), io.record, io.fill);
    }
  }

  /** The calls before the BARs work and every line of the `resource` file that names a BAR opens and maps. */
  ghost predicate AllWorks(io: OpenIo)
  {
    && io.readErr == 0 && io.statOk && io.fd > 0
    && io.fill.pathErr == 0 && io.fill.resourceFd >= 0 && io.fill.streamOk
    && (forall k :: 0 <= k < |io.fill.bars| ==> LineWorks(io.fill.bars[k]))
  }

  /** Open gives a handle exactly when it is asked for one, the slot is in the directory, and every call in it works. */
  lemma OpensExactly(s: State, hasOut: bool, slot: Option<Slot>, io: OpenIo)
    requires s.next < |s.table| && OpenOk(s, slot, io)
    ensures var o := Open(s, hasOut, slot, io);
            o.code == 0 && o.handle != NULL <==>
              && hasOut && slot.Some? && io.dirErrno == 0 && Listed(io.entries, slot.value, io.unset)
              && AllWorks(io)
  {
    OpenAnswers(s, hasOut, slot, io);
  }

  /** An open that is turned away, or finds no entry for its slot, changes nothing and gives no handle. */
  lemma OpenTurnsAway(s: State, hasOut: bool, slot: Option<Slot>, io: OpenIo)
    requires s.next < |s.table| && OpenOk(s, slot, io)
    requires !hasOut || slot.None? || io.dirErrno != 0 || !Listed(io.entries, slot.value, io.unset)
    ensures Open(s, hasOut, slot, io) == OpenOutcome(s, if hasOut && slot.Some? then io.dirErrno else -EINVAL, NULL)
  {
  }

  /**
   What an open that gives a handle stores: the record at the next index, with the slot asked for, the identifiers read,
   the `/dev` name made of them and the descriptor of that node.
   */
  lemma OpenStores(s: State, slot: Slot, io: OpenIo)
    requires s.next < |s.table| && OpenOk(s, Some(slot), io) && Opened(Open(s, true, Some(slot), io))
    ensures var OpenOutcome(t, _, h) := Open(s, true, Some(slot), io);
            && h == io.record && h in t.devs
            && t.table == s.table[s.next := h] && t.next == s.next + 1 && t.fds == s.fds[io.fd := h]
            && var r := t.devs[h];
               && r.slot == slot && r.vendorId == io.vendorId && r.deviceId == io.deviceId && r.fd == io.fd
               && r.name == Naming.MiscdevName(io.deviceId, slot)
  {
    OpensExactly(s, true, Some(slot), io);
    FillCode(Entered(s, slot, io), io.record, io.fill);
  }

  /**
   What any other open of a listed slot leaves: the index, the records and the buffers as they were; the pointer to the
   freed record in the cell above the index; and when it came as far as the BARs, the same pointer with the caller.
   */
  lemma FailedOpenLeaves(s: State, slot: Slot, io: OpenIo)
    requires s.next < |s.table| && OpenOk(s, Some(slot), io)
    requires io.dirErrno == 0 && Listed(io.entries, slot, io.unset) && !Opened(Open(s, true, Some(slot), io))
    ensures var OpenOutcome(t, _, h) := Open(s, true, Some(slot), io);
            && h == (if io.readErr == 0 && io.statOk && io.fd > 0 then io.record else NULL)
            && t.table == s.table[s.next := io.record] && t.next == s.next && t.devs == s.devs && t.dma == s.dma
            && t.fds == (if io.readErr == 0 && io.statOk && io.fd == 0 then s.fds[0 := io.record] else s.fds)
            && (!(io.readErr == 0 && io.statOk && io.fd > 0) ==> t.maps == s.maps)
  {
    OpensExactly(s, true, Some(slot), io);
    FillCode(Entered(s, slot, io), io.record, io.fill);
  }

  // ---------------------------------------------------------------- descriptions

  /** A request for the descriptions is turned away without a device or a place for them, and is a fill otherwise. */
  lemma GetBarsAnswers(s: State, h: Ptr, hasOut: bool, io: FillIo)
    requires (h != NULL ==> h in s.devs) && FillOk(s, io)
    ensures var Outcome(t, ret) := GetBars(s, h, hasOut, io);
            && (h == NULL || s.devs[h].deviceId == 0 || !hasOut ==> ret == -EINVAL && t == s)
            && (h != NULL && s.devs[h].deviceId != 0 && hasOut ==> Outcome(t, ret) == Fill(s, h, io))
  {
  }

  // ---------------------------------------------------------------- close

  /** `munmap` of descriptor `i` has nothing to do or works. */
  predicate BarReleases(r: Record, errs: seq<int>, i: nat)
    requires i < |r.bars| && i < |errs|
  {
    r.bars[i].userAddress == NULL || errs[i] == 0
  }

  /**
   The code of a close: a handle without a device id, a descriptor number that is not open, what `close` reports, and
   for a record in the table the first `munmap` that fails.
   */
  lemma CloseAnswers(s: State, h: Ptr, io: CloseIo, mode: Shrink)
    requires s.next <= |s.table| && Closable(s, h, io)
    ensures var Outcome(t, ret) := Close(s, h, io, mode);
            if h == NULL || s.devs[h].deviceId == 0 then ret == -EINVAL && t == s
            else if s.devs[h].fd !in s.fds then ret == EBADF && t == s
            else if io.closeErrno != 0 then ret == io.closeErrno && t == s.(fds := s.fds - {s.devs[h].fd})
            else
              && t.fds == s.fds - {s.devs[h].fd}
              && (ret == 0 ==> t.next == Shrunk(t.table, s.next, mode, io.free.pastNull))
              && (!Registered(s, h) ==> ret == 0 && t.table == s.table && t.devs == s.devs && t.maps == s.maps)
              && (Registered(s, h) ==> ReleaseAnswers(s, h, io.free.unmapErrs, ret, h !in t.devs))
  {
    if Reaches(s, h) && io.closeErrno == 0 {
      var c := FdClosed(s, s.devs[h].fd);
      SameRegistered(s, c);
      FreeAnswers(c, h, io.free, mode);
    }
  }

  /** Descriptor `k` is the first whose `munmap` fails. */
  predicate FirstToStay(r: Record, errs: seq<int>, k: nat)
    requires r.barCount <= |r.bars| && r.barCount <= |errs|
  {
    k < r.barCount && !BarReleases(r, errs, k) && forall i :: 0 <= i < k ==> BarReleases(r, errs, i)
  }

  /** The record is freed exactly when every BAR still mapped unmaps; otherwise the first failure gives the code. */
  ghost predicate ReleaseAnswers(s: State, p: Ptr, errs: seq<int>, ret: int, freed: bool)
    requires Unmappable(s, p, errs)
  {
    var r := s.devs[p];
    && (freed <==> forall i :: 0 <= i < r.barCount ==> BarReleases(r, errs, i))
    && (freed ==> ret == 0)
    && (forall k :: 0 <= k < r.barCount && FirstToStay(r, errs, k) ==> ret == errs[k])
  }

  /**
   The record of which the first `k` descriptors were unmapped: their addresses are zeroed and nothing else in it is,
   the lengths in particular; the mappings gone are those at their addresses.
   */
  ghost predicate HalfReleased(s: State, t: State, p: Ptr, k: nat)
    requires p in s.devs
  {
    var r := s.devs[p];
    && t == s.(devs := t.devs, maps := t.maps) && t.devs.Keys == s.devs.Keys
    && (forall q :: q in s.devs && q != p ==> t.devs[q] == s.devs[q])
    && t.devs[p] == r.(bars := t.devs[p].bars) && |t.devs[p].bars| == |r.bars|
    && (forall i :: 0 <= i < |r.bars| ==>
          && t.devs[p].bars[i].userAddress == (if i < k then NULL else r.bars[i].userAddress)
          && t.devs[p].bars[i].barNum == r.bars[i].barNum
          && t.devs[p].bars[i].physicalAddress == r.bars[i].physicalAddress
          && t.devs[p].bars[i].length == r.bars[i].length)
    && (forall a :: a in t.maps <==>
          a in s.maps && forall i :: 0 <= i < k && i < |r.bars| ==> r.bars[i].userAddress != a)
    && (forall a :: a in t.maps ==> t.maps[a] == s.maps[a])
  }

  /** What a release that fails leaves. */
  lemma FailedReleaseLeaves(s: State, p: Ptr, io: FreeIo, mode: Shrink, k: nat)
    requires s.next <= |s.table| && p != NULL && Unmappable(s, p, io.unmapErrs) && Registered(s, p)
    requires FirstToStay(s.devs[p], io.unmapErrs, k)
    ensures HalfReleased(s, FreeDeviceMem(s, p, io, mode).state, p, k)
  {
    var r, errs, m := s.devs[p], io.unmapErrs, StopOf(s, p, io.unmapErrs);
    StopCode(s, p, io, mode);
    assert !BarReleases(r, errs, k) && !UnmapWorks(r.bars, errs, k);
    assert m < r.barCount && !UnmapWorks(r.bars, errs, m) && !BarReleases(r, errs, m);
    assert m == k;
  }

  /** The release by itself; the shrink loop runs after every one that does not fail, of whatever record. */
  lemma FreeAnswers(s: State, p: Ptr, io: FreeIo, mode: Shrink)
    requires s.next <= |s.table| && p != NULL && Unmappable(s, p, io.unmapErrs)
    ensures var Outcome(t, ret) := FreeDeviceMem(s, p, io, mode);
            && t.fds == s.fds && t.dma == s.dma && |t.table| == |s.table|
            && (ret == 0 ==> t.next == Shrunk(t.table, s.next, mode, io.pastNull))
            && (ret != 0 ==> t.next == s.next && t.table == s.table)
            && (!Registered(s, p) ==> ret == 0 && t.table == s.table && t.devs == s.devs && t.maps == s.maps)
            && (Registered(s, p) ==> ReleaseAnswers(s, p, io.unmapErrs, ret, p !in t.devs))
  {
    StopCode(s, p, io, mode);
    var r, errs, m := s.devs[p], io.unmapErrs, StopOf(s, p, io.unmapErrs);
    assert forall i :: 0 <= i < m ==> UnmapWorks(r.bars, errs, i) && BarReleases(r, errs, i);
    if m < r.barCount {
      assert !UnmapWorks(r.bars, errs, m) && !BarReleases(r, errs, m);
      forall k | 0 <= k < r.barCount && k != m
        ensures !FirstToStay(r, errs, k)
      {
        assert k < m ==> BarReleases(r, errs, k);
      }
    }
  }

  // ---------------------------------------------------------------- scatter/gather

  /**
   A lock succeeds exactly when there is a device, a buffer, a place for the handle and a size, the three blocks are
   given and the kernel agrees: nothing else about the buffer or the page size matters.  The handle then holds the
   buffer, its pages in order and the kernel's id.
   */
  lemma SgLockExactly(s: State, h: Ptr, buf: Ptr, size: nat, hasOut: bool, pageSize: nat, io: SgIo)
    requires Inv(s) && pageSize > 0 && (h != NULL ==> h in s.devs) && SgIoOk(s, size, pageSize, io)
    ensures var Outcome(t, ret) := SgLock(s, h, buf, size, hasOut, pageSize, io);
            var asked := h != NULL && s.devs[h].deviceId != 0 && buf != NULL && hasOut && size > 0;
            var given := io.record != NULL && io.pages != NULL && io.scratch != NULL;
            && (ret == 0 <==> asked && given && io.ret == 0)
            && (!asked ==> ret == -EINVAL)
            && (asked && !given ==> ret == -ENOMEM)
            && (asked && given && io.ret != 0 ==> ret == io.ret)
            && (ret == 0 ==> HoldsSg(t, io.record, buf, io))
  {
    FdPositive(s, h);
  }

  /** Handle `p` stands for `buf`, with one entry of 4096 bytes for each address the kernel gave. */
  ghost predicate HoldsSg(t: State, p: Ptr, buf: Ptr, io: SgIo)
  {
    && p in t.dma.sgs && t.dma.sgs[p] == Sg(buf, |io.addresses|, io.pages, io.id)
    && io.pages in t.dma.pageTables && t.dma.pageTables[io.pages].owner == p
    && io.id in t.dma.sgIds && t.dma.sgIds[io.id] == p
    && var entries := t.dma.pageTables[io.pages].entries;
       && |entries| == |io.addresses|
       && (forall i :: 0 <= i < |entries| ==> entries[i] == DmaPage(io.addresses[i], 4096))
  }

  lemma FdPositive(s: State, h: Ptr)
    requires Inv(s)
    ensures h in s.devs ==> s.devs[h].fd > 0
  {
    if h in s.devs {
      assert RecordOk(s, h);
    }
  }

  ghost predicate SgLocks(s: State, h: Ptr, buf: Ptr, size: nat, hasOut: bool, pageSize: nat, io: SgIo)
    requires pageSize > 0 && (h != NULL ==> h in s.devs)
  {
    SgIoOk(s, size, pageSize, io) && SgLock(s, h, buf, size, hasOut, pageSize, io).code == 0
  }

  /** In every reachable state, with any page size, some answers of the system lock a buffer of every size above 0. */
  lemma SgLockable(s: State, h: Ptr, buf: Ptr, size: nat, hasOut: bool, pageSize: nat)
    requires Inv(s) && pageSize > 0 && (h != NULL ==> h in s.devs)
    ensures (exists io :: SgLocks(s, h, buf, size, hasOut, pageSize, io)) <==>
            h != NULL && s.devs[h].deviceId != 0 && buf != NULL && hasOut && size > 0
  {
    if h != NULL && s.devs[h].deviceId != 0 && buf != NULL && hasOut && size > 0 {
      var p, q, r := ThreeBlocks(s);
      var id := IntsBounded(s.dma.sgIds.Keys);
      var io := SgIo(p, q, r, 0, id, seq(DivRoundUp(size, pageSize), _ => 0));
      SgLockExactly(s, h, buf, size, hasOut, pageSize, io);
      assert SgLocks(s, h, buf, size, hasOut, pageSize, io);
    }
    forall io | SgLocks(s, h, buf, size, hasOut, pageSize, io)
      ensures h != NULL && s.devs[h].deviceId != 0 && buf != NULL && hasOut && size > 0
    {
      SgLockExactly(s, h, buf, size, hasOut, pageSize, io);
    }
  }

  /** Three addresses that no block has. */
  lemma ThreeBlocks(s: State) returns (p: Ptr, q: Ptr, r: Ptr)
    ensures FreshBlock(s, p) && FreshBlock(s, q) && FreshBlock(s, r) && p != q && p != r && q != r
  {
    var b := IntsBounded(s.devs.Keys + s.dma.sgs.Keys + s.dma.pageTables.Keys + s.dma.contigs.Keys + s.dma.scratch);
    p, q, r := b + 1, b + 2, b + 3;
  }

  /** An unlock succeeds exactly when there are a device and a handle and the kernel agrees. */
  lemma SgUnlockExactly(s: State, h: Ptr, dma: Ptr, ret: int)
    requires Inv(s) && (h != NULL ==> h in s.devs) && (dma != NULL ==> dma in s.dma.sgs)
    ensures var code := SgUnlock(s, h, dma, ret).code;
            var asked := h != NULL && s.devs[h].deviceId != 0 && dma != NULL;
            && (code == 0 <==> asked && ret == 0)
            && (!asked ==> code == -EINVAL)
            && (asked ==> code == ret)
  {
    FdPositive(s, h);
  }

  // ---------------------------------------------------------------- contiguous

  /**
   The same for a contiguous lock, but for one with a handle already given, which succeeds without looking at the rest.
   A kernel that refuses gives the code; a missing block or mapping gives `-ENOMEM`.
   */
  lemma ContigLockExactly(s: State, h: Ptr, hasBuf: bool, size: nat, hasOut: bool, given: Ptr, io: ContigIo)
    requires Inv(s) && (h != NULL ==> h in s.devs) && ContigIoOk(s, size, io)
    ensures var Outcome(t, ret) := ContigLock(s, h, hasBuf, size, hasOut, given, io);
            var asked := h != NULL && s.devs[h].deviceId != 0 && hasBuf && size > 0;
            var kept := io.record != NULL && io.map_.Mapped?;
            && (ret == 0 <==> hasOut && (given != NULL || (asked && io.ret == 0 && kept)))
            && (!hasOut ==> ret == -EINVAL)
            && (hasOut && given == NULL ==>
                  && (!asked ==> ret == -EINVAL)
                  && (asked && io.ret != 0 ==> ret == io.ret)
                  && (asked && io.ret == 0 && !kept ==> ret == -ENOMEM))
            && (ret == 0 && given == NULL ==> HoldsContig(t, io.record, size, io))
            && (hasOut && given == NULL && ret == 0 ==>
                  ContigHandle(s, h, hasBuf, size, hasOut, given, io) == io.record)
            && (given != NULL ==> ContigHandle(s, h, hasBuf, size, hasOut, given, io) == given && t == s)
  {
    FdPositive(s, h);
  }

  /** Handle `p` stands for the kernel's buffer: mapped where and with what `mmap` gave, at its physical address. */
  predicate HoldsContig(t: State, p: Ptr, size: nat, io: ContigIo)
  {
    && io.map_.Mapped?
    && p in t.dma.contigs && t.dma.contigs[p] == Contig(io.map_.addr, size, io.physicalAddr, io.id)
    && io.map_.addr in t.maps && t.maps[io.map_.addr] == Mapping(p, io.map_.bytes)
    && io.id in t.dma.contigIds && t.dma.contigIds[io.id] == p
  }

  ghost predicate ContigLocks(s: State, h: Ptr, hasBuf: bool, size: nat, hasOut: bool, io: ContigIo)
    requires h != NULL ==> h in s.devs
  {
    ContigIoOk(s, size, io) && ContigLock(s, h, hasBuf, size, hasOut, NULL, io).code == 0
  }

  /** In every reachable state some answers of the system lock a new contiguous buffer of every size above 0. */
  lemma ContigLockable(s: State, h: Ptr, hasBuf: bool, size: nat, hasOut: bool)
    requires Inv(s) && (h != NULL ==> h in s.devs)
    ensures (exists io :: ContigLocks(s, h, hasBuf, size, hasOut, io)) <==>
            h != NULL && s.devs[h].deviceId != 0 && hasBuf && hasOut && size > 0
  {
    if h != NULL && s.devs[h].deviceId != 0 && hasBuf && hasOut && size > 0 {
      var p := FreeBlock(s);
      var id := IntsBounded(s.dma.contigIds.Keys);
      var addr := IntsBounded(s.maps.Keys);
      var io := ContigIo(0, id, 0, p, Mapped(addr + 1, seq(size, _ => 0)));
      ContigLockExactly(s, h, hasBuf, size, hasOut, NULL, io);
      assert ContigLocks(s, h, hasBuf, size, hasOut, io);
    }
    forall io | ContigLocks(s, h, hasBuf, size, hasOut, io)
      ensures h != NULL && s.devs[h].deviceId != 0 && hasBuf && hasOut && size > 0
    {
      ContigLockExactly(s, h, hasBuf, size, hasOut, NULL, io);
    }
  }

  /** A contiguous unlock succeeds exactly when there are a device and a handle and the kernel agrees. */
  lemma ContigUnlockExactly(s: State, h: Ptr, dma: Ptr, ret: int, unmapOk: bool)
    requires Inv(s) && (h != NULL ==> h in s.devs) && (dma != NULL ==> dma in s.dma.contigs)
    ensures var code := ContigUnlock(s, h, dma, ret, unmapOk).code;
            var asked := h != NULL && s.devs[h].deviceId != 0 && dma != NULL;
            && (code == 0 <==> asked && ret == 0)
            && (!asked ==> code == -EINVAL)
            && (asked ==> code == ret)
  {
    FdPositive(s, h);
  }

  // ---------------------------------------------------------------- unload

  /** Unloading frees the registered records, empties their cells and the index, and touches nothing else. */
  lemma UnloadStores(s: State)
    requires Inv(s)
    ensures var t := FreeDevicesMem(s);
            && t == s.(table := t.table, next := 0, devs := t.devs)
            && |t.table| == |s.table|
            && (forall i :: 0 <= i < |s.table| ==> t.table[i] == if i < s.next then NULL else s.table[i])
            && (forall q :: q in t.devs <==> q in s.devs && !Registered(s, q))
            && (forall q :: q in t.devs ==> t.devs[q] == s.devs[q])
  {
    NullIsNoRecord(s);
    forall q | q in s.devs
      ensures q in s.table[..s.next] <==> Registered(s, q)
    {
      if q in s.table[..s.next] {
        var i :| 0 <= i < s.next && s.table[..s.next][i] == q;
        assert s.table[i] == q;
      }
      if Registered(s, q) {
        var i :| 0 <= i < s.next && i < |s.table| && s.table[i] == q;
        assert s.table[..s.next][i] == q;
      }
    }
  }
}
