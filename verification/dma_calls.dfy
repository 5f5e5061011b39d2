/** Locking and unlocking DMA buffers, allocation by allocation, proved against the functions in `Lifecycle`. */
module DmaCalls {
  import opened Kernel
  import opened Lifecycle
  import opened Ownership
  import opened Conservation
  import opened Buffers
  import opened Objects
  import opened Answers

  // ---------------------------------------------------------------- heap blocks

  method KeepSg(lib: Library, p: Ptr, d: Sg)
    modifies lib`dma
    ensures lib.dma == old(lib.dma).(sgs := old(lib.dma).sgs[p := d])
  {
    lib.dma := lib.dma.(sgs := lib.dma.sgs[p := d]);
  }

  /** `free(pDma)`, of a block that is live. */
  method FreeSg(lib: Library, p: Ptr)
    requires p in lib.dma.sgs
    modifies lib`dma
    ensures lib.dma == old(lib.dma).(sgs := old(lib.dma).sgs - {p})
  {
    lib.dma := lib.dma.(sgs := lib.dma.sgs - {p});
  }

  method KeepPages(lib: Library, p: Ptr, table: PageTable)
    modifies lib`dma
    ensures lib.dma == old(lib.dma).(pageTables := old(lib.dma).pageTables[p := table])
  {
    lib.dma := lib.dma.(pageTables := lib.dma.pageTables[p := table]);
  }

  /** `free(pDma->Page)`, of a block that is live. */
  method FreePages(lib: Library, p: Ptr)
    requires p in lib.dma.pageTables
    modifies lib`dma
    ensures lib.dma == old(lib.dma).(pageTables := old(lib.dma).pageTables - {p})
  {
    lib.dma := lib.dma.(pageTables := lib.dma.pageTables - {p});
  }

  method KeepScratch(lib: Library, p: Ptr)
    modifies lib`dma
    ensures lib.dma == old(lib.dma).(scratch := old(lib.dma).scratch + {p})
  {
    lib.dma := lib.dma.(scratch := lib.dma.scratch + {p});
  }

  /** `free(buff_info.pages)`, of a block that is live. */
  method FreeScratch(lib: Library, p: Ptr)
    requires p in lib.dma.scratch
    modifies lib`dma
    ensures lib.dma == old(lib.dma).(scratch := old(lib.dma).scratch - {p})
  {
    lib.dma := lib.dma.(scratch := lib.dma.scratch - {p});
  }

  // ---------------------------------------------------------------- scatter/gather

  /** The loop that copies the locked addresses into the page array. */
  method FillPages(addresses: seq<nat>) returns (page: array<DmaPage>)
    ensures fresh(page) && page[..] == SgPages(addresses)
  {
    page := new DmaPage[|addresses|](_ => DmaPage(0, 0));
    for iPage := 0 to |addresses|
      invariant page[..iPage] == SgPages(addresses)[..iPage]
    {
      page[iPage] := DmaPage(addresses[iPage], 4096);
      assert page[..iPage + 1] == page[..iPage] + [page[iPage]];
      assert SgPages(addresses)[..iPage + 1] == SgPages(addresses)[..iPage] + [SgPages(addresses)[iPage]];
    }
    assert page[..] == page[..|addresses|];
  }

  /** `dma` with the record, and perhaps the page array and the scratch array, of a lock that is not done. */
  ghost function Locking(dma: Dma, io: SgIo, d: Sg, entries: Option<seq<DmaPage>>, scratch: bool): Dma
  {
    dma.(sgs := dma.sgs[io.record := d],
         pageTables := if entries.Some? then dma.pageTables[io.pages := PageTable(io.record, entries.value)]
                       else dma.pageTables,
         scratch := if scratch then dma.scratch + {io.scratch} else dma.scratch)
  }

  predicate FreshFor(dma: Dma, io: SgIo)
  {
    && (io.record != NULL ==> io.record !in dma.sgs && io.record != io.pages)
    && (io.pages != NULL ==> io.pages !in dma.pageTables)
    && (io.scratch != NULL ==> io.scratch !in dma.scratch)
  }

  /** The lock `ioctl` failed: the three blocks are freed. */
  method UndoLock(lib: Library, io: SgIo, ghost s: Dma, ghost d: Sg)
    requires FreshFor(s, io) && io.record != NULL && io.pages != NULL && io.scratch != NULL
    requires lib.dma == Locking(s, io, d, Some([]), true)
    modifies lib`dma
    ensures lib.dma == s
  {
    FreePages(lib, io.pages);
    FreeSg(lib, io.record);
    FreeScratch(lib, io.scratch);
    assert lib.dma.sgs == s.sgs && lib.dma.pageTables == s.pageTables && lib.dma.scratch == s.scratch;
  }

  /** The lock `ioctl` succeeded: id and addresses are copied and the array for the kernel is freed. */
  method FinishLock(lib: Library, io: SgIo, pDma: Sg, ghost s: Dma)
    requires FreshFor(s, io) && io.record != NULL && io.pages != NULL && io.scratch != NULL && pDma.page == io.pages
    requires lib.dma == Locking(s, io, pDma, Some([]), true)
    modifies lib`dma
    ensures lib.dma == WithSg(s, io.record, pDma.(id := io.id), io.addresses)
  {
    lib.dma := lib.dma.(sgIds := lib.dma.sgIds[io.id := io.record]);
    KeepSg(lib, io.record, pDma.(id := io.id));
    var page := FillPages(io.addresses);
    KeepPages(lib, io.pages, PageTable(io.record, page[..]));
    FreeScratch(lib, io.scratch);
    assert lib.dma.scratch == s.scratch;
    assert lib.dma.sgs == s.sgs[io.record := pDma.(id := io.id)];
    assert lib.dma.pageTables == s.pageTables[io.pages := PageTable(io.record, page[..])];
  }

  /** The three allocations; what was allocated before one fails is freed. */
  method AllocateLock(lib: Library, buf: Ptr, size: nat, pageSize: nat, io: SgIo, ghost s: Dma)
    returns (ok: bool, pDma: Sg)
    requires pageSize > 0 && s == lib.dma && FreshFor(s, io)
    modifies lib`dma
    ensures ok <==> io.record != NULL && io.pages != NULL && io.scratch != NULL
    ensures pDma == Sg(buf, DivRoundUp(size, pageSize), io.pages, 0)
    ensures lib.dma == if ok then Locking(s, io, pDma, Some([]), true) else s
  {
    pDma := Sg(buf, DivRoundUp(size, pageSize), io.pages, 0);
    if io.record == NULL {
      return false, pDma;
    }
    KeepSg(lib, io.record, pDma.(page := NULL));
    if io.pages == NULL {
      FreeSg(lib, io.record);
      assert lib.dma.sgs == s.sgs;
      return false, pDma;
    }
    KeepPages(lib, io.pages, PageTable(io.record, []));
    KeepSg(lib, io.record, pDma);
    assert lib.dma == Locking(s, io, pDma, Some([]), false) by {
      assert lib.dma.sgs == s.sgs[io.record := pDma];
    }
    if io.scratch == NULL {
      FreePages(lib, io.pages);
      FreeSg(lib, io.record);
      assert lib.dma.sgs == s.sgs && lib.dma.pageTables == s.pageTables;
      return false, pDma;
    }
    KeepScratch(lib, io.scratch);
    return true, pDma;
  }

  /** From the three allocations to the result. */
  method LockPages(lib: Library, buf: Ptr, size: nat, pageSize: nat, io: SgIo, ghost s: State) returns (ret: int)
    requires pageSize > 0 && s == lib.Abs() && FreshFor(s.dma, io)
    modifies lib`dma
    ensures Outcome(lib.Abs(), ret) ==
              if io.record == NULL || io.pages == NULL || io.scratch == NULL then Outcome(s, -ENOMEM)
              else if io.ret != 0 then Outcome(s, io.ret)
              else
                var d := Sg(buf, DivRoundUp(size, pageSize), io.pages, io.id);
                Outcome(s.(dma := WithSg(s.dma, io.record, d, io.addresses)), 0)
  {
    var ok, pDma := AllocateLock(lib, buf, size, pageSize, io, s.dma);
    if !ok {
      return -ENOMEM;
    }
    if io.ret != 0 {
      UndoLock(lib, io, s.dma, pDma);
      return io.ret;
    }
    FinishLock(lib, io, pDma, s.dma);
    return 0;
  }

  /** `CRONO_KERNEL_DMASGBufLock`. */
  method DMASGBufLock(lib: Library, h: Ptr, buf: Ptr, size: nat, hasOut: bool, pageSize: nat, io: SgIo)
    returns (ret: int, pDma: Ptr)
    requires lib.Valid() && (h != NULL ==> h in lib.heap) && pageSize > 0 && SgIoOk(lib.Abs(), size, pageSize, io)
    modifies lib`dma
    ensures lib.Valid() && Outcome(lib.Abs(), ret) == SgLock(old(lib.Abs()), h, buf, size, hasOut, pageSize, io)
    ensures ret == 0 <==>
              && h != NULL && lib.heap[h].deviceId != 0 && buf != NULL && hasOut && size > 0
              && io.record != NULL && io.pages != NULL && io.scratch != NULL && io.ret == 0
    ensures ret == 0 ==> pDma == io.record && HoldsSg(lib.Abs(), pDma, buf, io)
  {
    pDma := NULL;
    SgLockConserves(lib.Abs(), h, buf, size, hasOut, pageSize, io);
    SgLockExactly(lib.Abs(), h, buf, size, hasOut, pageSize, io);
    if h == NULL || lib.heap[h].deviceId == 0 {
      return -EINVAL, pDma;
    }
    if buf == NULL || !hasOut || size == 0 {
      return -EINVAL, pDma;
    }
    if lib.heap[h].miscdevFd <= 0 {
      return -ENOENT, pDma;
    }
    ret := LockPages(lib, buf, size, pageSize, io, lib.Abs());
    pDma := io.record;
  }

  /** What is freed after a successful unlock `ioctl`. */
  method DropPages(lib: Library, pDma: Ptr)
    requires pDma in lib.dma.sgs && lib.dma.sgs[pDma].page in lib.dma.pageTables
    modifies lib`dma
    ensures pDma in old(lib.dma).sgs && lib.Abs() == old(lib.Abs()).(dma := WithoutSg(old(lib.dma), pDma))
  {
    ghost var s := lib.dma;
    var d := lib.dma.sgs[pDma];
    lib.dma := lib.dma.(sgIds := lib.dma.sgIds - {d.id});
    FreePages(lib, d.page);
    KeepSg(lib, pDma, d.(page := NULL));
    FreeSg(lib, pDma);
    assert lib.dma.sgs == s.sgs - {pDma};
  }

  /** `CRONO_KERNEL_DMASGBufUnlock`. */
  method DMASGBufUnlock(lib: Library, h: Ptr, pDma: Ptr, unlockRet: int) returns (ret: int)
    requires lib.Valid() && (h != NULL ==> h in lib.heap) && (pDma != NULL ==> pDma in lib.dma.sgs)
    modifies lib`dma
    ensures lib.Valid() && Outcome(lib.Abs(), ret) == SgUnlock(old(lib.Abs()), h, pDma, unlockRet)
    ensures ret == 0 <==> h != NULL && lib.heap[h].deviceId != 0 && pDma != NULL && unlockRet == 0
  {
    ghost var s := lib.Abs();
    SgUnlockConserves(s, h, pDma, unlockRet);
    SgUnlockExactly(s, h, pDma, unlockRet);
    if h == NULL || lib.heap[h].deviceId == 0 || pDma == NULL {
      return -EINVAL;
    }
    if lib.heap[h].miscdevFd <= 0 {
      return -ENOENT;
    }
    if unlockRet != 0 {
      return unlockRet;
    }
    assert SgOk(s, pDma);
    DropPages(lib, pDma);
    return 0;
  }

  // ---------------------------------------------------------------- contiguous

  /** From the kernel's buffer to the result. */
  method KeepContig(lib: Library, size: nat, io: ContigIo, ghost dma: Dma, ghost maps: map<Ptr, Mapping>)
    returns (ret: int)
    requires dma == lib.dma && maps == lib.maps && (io.record != NULL ==> io.record !in dma.contigs)
    modifies lib`dma, lib`maps
    ensures ret == if io.record == NULL || io.map_.MapFailed? then -ENOMEM else 0
    ensures ret != 0 ==> lib.dma == WithContigId(dma, io.id, io.record) && lib.maps == maps
    ensures ret == 0 ==>
              && lib.dma == WithContig(dma, io.record, Contig(io.map_.addr, size, io.physicalAddr, io.id))
              && lib.maps == maps[io.map_.addr := Mapping(io.record, io.map_.bytes)]
  {
    lib.dma := lib.dma.(contigIds := lib.dma.contigIds[io.id := io.record]);
    if io.record == NULL {
      return -ENOMEM;
    }
    var pDma := Contig(NULL, size, io.physicalAddr, io.id);
    lib.dma := lib.dma.(contigs := lib.dma.contigs[io.record := pDma]);
    if io.map_.MapFailed? {
      lib.dma := lib.dma.(contigs := lib.dma.contigs - {io.record});
      assert lib.dma.contigs == dma.contigs;
      return -ENOMEM;
    }
    lib.maps := lib.maps[io.map_.addr := Mapping(io.record, io.map_.bytes)];
    pDma := pDma.(userAddr := io.map_.addr);
    lib.dma := lib.dma.(contigs := lib.dma.contigs[io.record := pDma]);
    return 0;
  }

  /** The same, on the state. */
  method KeepContigBuffer(lib: Library, size: nat, io: ContigIo, ghost s: State) returns (ret: int)
    requires s == lib.Abs() && (io.record != NULL ==> io.record !in s.dma.contigs)
    modifies lib`dma, lib`maps
    ensures Outcome(lib.Abs(), ret) ==
              if io.record == NULL || io.map_.MapFailed? then
                Outcome(s.(dma := WithContigId(s.dma, io.id, io.record)), -ENOMEM)
              else
                Outcome(s.(maps := s.maps[io.map_.addr := Mapping(io.record, io.map_.bytes)],
                           dma := WithContig(s.dma, io.record, Contig(io.map_.addr, size, io.physicalAddr, io.id))), 0)
  {
    ret := KeepContig(lib, size, io, s.dma, s.maps);
  }

  /** `CRONO_KERNEL_DMAContigBufLock`; `buf` is what is written to `*ppBuf`, if anything is. */
  method DMAContigBufLock(lib: Library, h: Ptr, hasBuf: bool, size: nat, hasOut: bool, given: Ptr, io: ContigIo)
    returns (ret: int, pDma: Ptr, buf: Option<Ptr>)
    requires lib.Valid() && (h != NULL ==> h in lib.heap) && ContigIoOk(lib.Abs(), size, io)
    modifies lib`dma, lib`maps
    ensures lib.Valid() && Outcome(lib.Abs(), ret) == ContigLock(old(lib.Abs()), h, hasBuf, size, hasOut, given, io)
    ensures pDma == ContigHandle(old(lib.Abs()), h, hasBuf, size, hasOut, given, io)
    ensures buf == if ret == 0 && given == NULL && io.map_.Mapped? then Some(io.map_.addr) else None
    ensures ret == 0 <==>
              && hasOut
              && (given != NULL || (h != NULL && lib.heap[h].deviceId != 0 && hasBuf && size > 0 && io.ret == 0 &&
                                    io.record != NULL && io.map_.Mapped?))
  {
    ghost var s := lib.Abs();
    ContigLockConserves(s, h, hasBuf, size, hasOut, given, io);
    ContigLockExactly(s, h, hasBuf, size, hasOut, given, io);
    pDma, buf := given, None;
    if !hasOut {
      return -EINVAL, pDma, buf;
    }
    if given != NULL {
      return 0, pDma, buf;
    }
    if h == NULL || lib.heap[h].deviceId == 0 || !hasBuf || size == 0 {
      return -EINVAL, pDma, buf;
    }
    if lib.heap[h].miscdevFd <= 0 {
      return -ENOENT, pDma, buf;
    }
    if io.ret != 0 {
      return io.ret, pDma, buf;
    }
    ret := KeepContigBuffer(lib, size, io, s);
    if io.record != NULL {
      // set before `mmap`, and left when that fails
      pDma := io.record;
    }
    if ret == 0 {
      buf := Some(io.map_.addr);
    }
  }

  /** What is released after a successful unlock `ioctl`; a failing `munmap` is printed and passed over. */
  method DropContig(lib: Library, pDma: Ptr, unmapOk: bool)
    requires pDma in lib.dma.contigs && lib.dma.contigs[pDma].userAddr in lib.maps
    modifies lib`dma, lib`maps
    ensures pDma in old(lib.dma).contigs
    ensures var maps := if unmapOk then old(lib.maps) - {old(lib.dma).contigs[pDma].userAddr} else old(lib.maps);
            lib.Abs() == old(lib.Abs()).(maps := maps, dma := WithoutContig(old(lib.dma), pDma))
  {
    var d := lib.dma.contigs[pDma];
    lib.dma := lib.dma.(contigIds := lib.dma.contigIds - {d.id});
    if unmapOk {
      lib.maps := lib.maps - {d.userAddr};
    }
    lib.dma := lib.dma.(contigs := lib.dma.contigs - {pDma});
  }

  /** `CRONO_KERNEL_DMAContigBufUnlock`. */
  method DMAContigBufUnlock(lib: Library, h: Ptr, pDma: Ptr, unlockRet: int, unmapOk: bool) returns (ret: int)
    requires lib.Valid() && (h != NULL ==> h in lib.heap) && (pDma != NULL ==> pDma in lib.dma.contigs)
    modifies lib`dma, lib`maps
    ensures lib.Valid() && Outcome(lib.Abs(), ret) == ContigUnlock(old(lib.Abs()), h, pDma, unlockRet, unmapOk)
    ensures ret == 0 <==> h != NULL && lib.heap[h].deviceId != 0 && pDma != NULL && unlockRet == 0
  {
    ghost var s := lib.Abs();
    ContigUnlockConserves(s, h, pDma, unlockRet, unmapOk);
    ContigUnlockExactly(s, h, pDma, unlockRet, unmapOk);
    if h == NULL || lib.heap[h].deviceId == 0 || pDma == NULL {
      return -EINVAL;
    }
    if lib.heap[h].miscdevFd <= 0 {
      return -ENOENT;
    }
    if unlockRet != 0 {
      return unlockRet;
    }
    assert ContigOk(s, pDma);
    DropContig(lib, pDma, unmapOk);
    return 0;
  }
}
