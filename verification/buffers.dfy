/** Locking and unlocking DMA buffers: what each call adds, takes away and leaves behind. */
module Buffers {
  import opened Kernel
  import opened Lifecycle
  import opened Ownership
  import opened Conservation

  /** Only the scatter/gather maps differ. */
  predicate OnlySg(s: State, t: State)
  {
    t == s.(dma := s.dma.(sgs := t.dma.sgs, pageTables := t.dma.pageTables, sgIds := t.dma.sgIds))
  }

  /** Only what belongs to contiguous buffers differs. */
  predicate OnlyContig(s: State, t: State)
  {
    t == s.(maps := t.maps, dma := s.dma.(contigs := t.dma.contigs, contigIds := t.dma.contigIds))
  }

  // ---------------------------------------------------------------- scatter/gather

  /** A new handle `d` with its page array and kernel id. */
  ghost predicate AddsSg(s: State, t: State, d: Ptr)
  {
    && OnlySg(s, t) && FreshBlock(s, d) && d in t.dma.sgs
    && t.dma.sgs == s.dma.sgs[d := t.dma.sgs[d]]
    && var pg, id := t.dma.sgs[d].page, t.dma.sgs[d].id;
       && FreshBlock(s, pg) && pg != d && pg in t.dma.pageTables && t.dma.pageTables[pg].owner == d
       && t.dma.pageTables == s.dma.pageTables[pg := t.dma.pageTables[pg]]
       && id !in s.dma.sgIds && t.dma.sgIds == s.dma.sgIds[id := d]
  }

  /** Handle `d` goes, with exactly its page array and its kernel id. */
  ghost predicate DropsSg(s: State, t: State, d: Ptr)
  {
    && OnlySg(s, t) && d in s.dma.sgs
    && t.dma.sgs == s.dma.sgs - {d} && t.dma.pageTables == s.dma.pageTables - {s.dma.sgs[d].page}
    && t.dma.sgIds == s.dma.sgIds - {s.dma.sgs[d].id}
  }

  lemma AddSgKeepsInv(s: State, t: State, d: Ptr)
    requires Inv(s) && AddsSg(s, t, d)
    ensures Inv(t)
  {
    SgDevicesStay(s, t);
    assert forall q :: q in s.dma.sgs ==> SgOk(s, q);
    assert forall q :: q in s.dma.contigs ==> ContigOk(s, q);
    assert SgOk(t, d);
  }

  lemma SgDevicesStay(s: State, t: State)
    requires DevicesOk(s) && OnlySg(s, t)
    ensures DevicesOk(t)
  {
    NullIsNoRecord(s);
    DevicesStay(s, t, NULL);
  }

  lemma AddSgLeaks(s: State, t: State, d: Ptr, r: Resource)
    requires AddsSg(s, t, d) && ByAcquirer(s, r) && ByAcquirer(t, r)
    requires forall q :: Registered(t, q) <==> Registered(s, q)
    requires forall b :: b in s.dma.pageTables ==> b !in s.dma.sgs && b !in s.devs && b !in s.dma.contigs
    ensures Leaked(t, r) <==> Leaked(s, r)
  {
    if Live(s, r) && Acquirer(s, r) != d {
      UntouchedLeaks(s, t, r);
    }
  }

  lemma AddSgConserves(s: State, t: State, d: Ptr)
    requires Inv(s) && AddsSg(s, t, d)
    ensures Inv(t)
    ensures forall r :: Leaked(t, r) <==> Leaked(s, r)
    ensures forall q :: Registered(t, q) <==> Registered(s, q)
  {
    AddSgKeepsInv(s, t, d);
    SameRegistered(s, t);
    forall r
      ensures Leaked(t, r) <==> Leaked(s, r)
    {
      LeakedByAcquirer(s, r);
      LeakedByAcquirer(t, r);
      AddSgLeaks(s, t, d, r);
    }
  }

  lemma DropSgKeepsInv(s: State, t: State, d: Ptr)
    requires Inv(s) && DropsSg(s, t, d)
    ensures Inv(t)
  {
    SgDevicesStay(s, t);
    assert SgOk(s, d);
    forall q | q in t.dma.sgs
      ensures SgOk(t, q)
    {
      assert SgOk(s, q);
    }
    assert forall q :: q in s.dma.contigs ==> ContigOk(s, q);
  }

  lemma DropSgLeaks(s: State, t: State, d: Ptr, r: Resource)
    requires DropsSg(s, t, d) && SgOk(s, d) && ByAcquirer(s, r) && ByAcquirer(t, r)
    requires forall q :: Registered(t, q) <==> Registered(s, q)
    requires d !in s.devs && d !in s.dma.contigs && d !in s.dma.pageTables && d !in s.dma.scratch
    requires s.dma.sgs[d].page !in s.devs && s.dma.sgs[d].page !in s.dma.sgs
    requires s.dma.sgs[d].page !in s.dma.contigs && s.dma.sgs[d].page !in s.dma.scratch
    ensures Leaked(t, r) <==> Leaked(s, r)
  {
    if Live(t, r) && Acquirer(s, r) != d {
      UntouchedLeaks(s, t, r);
    }
  }

  lemma DropSgConserves(s: State, t: State, d: Ptr)
    requires Inv(s) && DropsSg(s, t, d)
    ensures Inv(t)
    ensures forall r :: Leaked(t, r) <==> Leaked(s, r)
    ensures forall q :: Registered(t, q) <==> Registered(s, q)
  {
    DropSgKeepsInv(s, t, d);
    SameRegistered(s, t);
    assert SgOk(s, d);
    forall r
      ensures Leaked(t, r) <==> Leaked(s, r)
    {
      LeakedByAcquirer(s, r);
      LeakedByAcquirer(t, r);
      DropSgLeaks(s, t, d, r);
    }
  }

  /**
   A lock that fails changes nothing; one that succeeds adds a record, its page array and one kernel id, all fresh,
   all the handle's.  Neither leaks.
   */
  lemma SgLockConserves(s: State, h: Ptr, buf: Ptr, size: nat, hasOut: bool, pageSize: nat, io: SgIo)
    requires Inv(s) && pageSize > 0 && (h != NULL ==> h in s.devs) && SgIoOk(s, size, pageSize, io)
    ensures var Outcome(t, ret) := SgLock(s, h, buf, size, hasOut, pageSize, io);
            && Inv(t)
            && (ret != 0 ==> t == s)
            && (ret == 0 ==>
                  AddsSg(s, t, io.record) && t.dma.sgs[io.record].page == io.pages && t.dma.sgs[io.record].id == io.id)
            && (forall r :: Leaked(t, r) <==> Leaked(s, r))
  {
    var Outcome(t, ret) := SgLock(s, h, buf, size, hasOut, pageSize, io);
    if ret == 0 {
      AddSgConserves(s, t, io.record);
    }
  }

  /** An unlock that fails changes nothing; one that succeeds takes exactly that handle's blocks and id. */
  lemma SgUnlockConserves(s: State, h: Ptr, dma: Ptr, ret: int)
    requires Inv(s) && (h != NULL ==> h in s.devs) && (dma != NULL ==> dma in s.dma.sgs)
    ensures var Outcome(t, code) := SgUnlock(s, h, dma, ret);
            && Inv(t)
            && (code != 0 ==> t == s)
            && (code == 0 ==> DropsSg(s, t, dma))
            && (forall r :: Leaked(t, r) <==> Leaked(s, r))
  {
    var Outcome(t, code) := SgUnlock(s, h, dma, ret);
    if code == 0 {
      DropSgConserves(s, t, dma);
    }
  }

  /** Unlocking right after locking gives the state before. */
  lemma SgUnlockUndoesLock(s: State, t: State, d: Ptr, v: State)
    requires AddsSg(s, t, d) && DropsSg(t, v, d)
    ensures v == s
  {
    assert v.dma.sgs == s.dma.sgs && v.dma.pageTables == s.dma.pageTables && v.dma.sgIds == s.dma.sgIds;
  }

  /** Whatever happened in between, unlocking one handle leaves every other handle with its table and its id. */
  lemma SgUnlockKeepsOthers(s: State, t: State, d: Ptr, e: Ptr)
    requires Inv(s) && DropsSg(s, t, d) && e in s.dma.sgs && e != d
    ensures e in t.dma.sgs && t.dma.sgs[e] == s.dma.sgs[e] && SgOk(t, e)
    ensures t.dma.pageTables[t.dma.sgs[e].page] == s.dma.pageTables[s.dma.sgs[e].page]
  {
    assert SgOk(s, d) && SgOk(s, e);
  }

  // ---------------------------------------------------------------- contiguous

  ghost predicate AddsContig(s: State, t: State, d: Ptr)
  {
    && OnlyContig(s, t) && FreshBlock(s, d) && d in t.dma.contigs
    && t.dma.contigs == s.dma.contigs[d := t.dma.contigs[d]]
    && var a, id := t.dma.contigs[d].userAddr, t.dma.contigs[d].id;
       && a != NULL && a !in s.maps && a in t.maps && t.maps[a].owner == d && t.maps == s.maps[a := t.maps[a]]
       && id !in s.dma.contigIds && t.dma.contigIds == s.dma.contigIds[id := d]
  }

  /** Handle `d` goes with its kernel id, and with its mapping unless `munmap` failed. */
  ghost predicate DropsContig(s: State, t: State, d: Ptr, unmapped: bool)
  {
    && OnlyContig(s, t) && d in s.dma.contigs
    && t.dma.contigs == s.dma.contigs - {d} && t.dma.contigIds == s.dma.contigIds - {s.dma.contigs[d].id}
    && t.maps == if unmapped then s.maps - {s.dma.contigs[d].userAddr} else s.maps
  }

  lemma AddContigKeepsInv(s: State, t: State, d: Ptr)
    requires Inv(s) && AddsContig(s, t, d)
    ensures Inv(t)
  {
    NullIsNoRecord(s);
    DevicesStay(s, t, NULL);
    assert forall q :: q in s.dma.sgs ==> SgOk(s, q);
    forall q | q in t.dma.contigs
      ensures ContigOk(t, q)
    {
      assert q != d ==> ContigOk(s, q);
    }
  }

  lemma AddContigLeaks(s: State, t: State, d: Ptr, r: Resource)
    requires AddsContig(s, t, d) && ByAcquirer(s, r) && ByAcquirer(t, r)
    requires forall q :: Registered(t, q) <==> Registered(s, q)
    ensures Leaked(t, r) <==> Leaked(s, r)
  {
    if Live(s, r) && Acquirer(s, r) != d {
      UntouchedLeaks(s, t, r);
    }
  }

  lemma AddContigConserves(s: State, t: State, d: Ptr)
    requires Inv(s) && AddsContig(s, t, d)
    ensures Inv(t)
    ensures forall r :: Leaked(t, r) <==> Leaked(s, r)
    ensures forall q :: Registered(t, q) <==> Registered(s, q)
  {
    AddContigKeepsInv(s, t, d);
    SameRegistered(s, t);
    forall r
      ensures Leaked(t, r) <==> Leaked(s, r)
    {
      LeakedByAcquirer(s, r);
      LeakedByAcquirer(t, r);
      AddContigLeaks(s, t, d, r);
    }
  }

  lemma DropContigKeepsInv(s: State, t: State, d: Ptr, unmapped: bool)
    requires Inv(s) && DropsContig(s, t, d, unmapped)
    ensures Inv(t)
  {
    NullIsNoRecord(s);
    assert ContigOk(s, d);
    DevicesStay(s, t, NULL);
    assert forall q :: q in s.dma.sgs ==> SgOk(s, q);
    forall q | q in t.dma.contigs
      ensures ContigOk(t, q)
    {
      assert ContigOk(s, q);
    }
  }

  lemma DropContigLeaks(s: State, t: State, d: Ptr, unmapped: bool, r: Resource)
    requires DropsContig(s, t, d, unmapped) && ContigOk(s, d) && ByAcquirer(s, r) && ByAcquirer(t, r)
    requires forall q :: Registered(t, q) <==> Registered(s, q)
    requires d !in s.devs && d !in s.dma.sgs && d !in s.dma.pageTables && d !in s.dma.scratch
    ensures Leaked(t, r) <==> Leaked(s, r) || (!unmapped && r == Mem(s.dma.contigs[d].userAddr))
  {
    if Live(t, r) && Acquirer(s, r) != d {
      UntouchedLeaks(s, t, r);
    }
  }

  lemma DropContigConserves(s: State, t: State, d: Ptr, unmapped: bool)
    requires Inv(s) && DropsContig(s, t, d, unmapped)
    ensures Inv(t)
    ensures forall r :: Leaked(t, r) <==> Leaked(s, r) || (!unmapped && r == Mem(s.dma.contigs[d].userAddr))
    ensures forall q :: Registered(t, q) <==> Registered(s, q)
  {
    DropContigKeepsInv(s, t, d, unmapped);
    SameRegistered(s, t);
    assert ContigOk(s, d);
    forall r
      ensures Leaked(t, r) <==> Leaked(s, r) || (!unmapped && r == Mem(s.dma.contigs[d].userAddr))
    {
      LeakedByAcquirer(s, r);
      LeakedByAcquirer(t, r);
      DropContigLeaks(s, t, d, unmapped, r);
    }
  }

  /** A lock that gets a kernel buffer and then no record or no mapping. */
  predicate ContigLockLeaves(s: State, h: Ptr, hasBuf: bool, size: nat, hasOut: bool, given: Ptr, io: ContigIo,
                             r: Resource)
  {
    && hasOut && given == NULL && Usable(s, h) && hasBuf && size != 0 && s.devs[h].fd > 0 && io.ret == 0
    && (io.record == NULL || io.map_.MapFailed?)
    && r == ContigId(io.id)
  }

  /**
   A contiguous lock leaves everything as it was, or adds a record, a mapping and a kernel id, all fresh; or it fails
   after the kernel gave the buffer, and then exactly that kernel id is leaked.
   */
  lemma ContigLockConserves(s: State, h: Ptr, hasBuf: bool, size: nat, hasOut: bool, given: Ptr, io: ContigIo)
    requires Inv(s) && (h != NULL ==> h in s.devs) && ContigIoOk(s, size, io)
    ensures var Outcome(t, ret) := ContigLock(s, h, hasBuf, size, hasOut, given, io);
            && Inv(t)
            && (ret != 0 ==> t == s.(dma := s.dma.(contigIds := t.dma.contigIds)))
            && (ret == 0 ==> if given != NULL then t == s else AddsContig(s, t, io.record))
            && (forall r :: Leaked(t, r) <==>
                  Leaked(s, r) || ContigLockLeaves(s, h, hasBuf, size, hasOut, given, io, r))
  {
    var Outcome(t, ret) := ContigLock(s, h, hasBuf, size, hasOut, given, io);
    if t == s {
      ContigLockNoOp(s, h, hasBuf, size, hasOut, given, io);
    } else if ret == 0 {
      AddContigConserves(s, t, io.record);
    } else {
      ContigStray(s, t, io);
    }
  }

  lemma ContigLockNoOp(s: State, h: Ptr, hasBuf: bool, size: nat, hasOut: bool, given: Ptr, io: ContigIo)
    requires (h != NULL ==> h in s.devs) && ContigIoOk(s, size, io)
    requires ContigLock(s, h, hasBuf, size, hasOut, given, io).state == s
    ensures forall r :: !ContigLockLeaves(s, h, hasBuf, size, hasOut, given, io, r)
    ensures ContigLock(s, h, hasBuf, size, hasOut, given, io).code == 0 ==> given != NULL
  {
    var t := ContigLock(s, h, hasBuf, size, hasOut, given, io).state;
    assert io.id in t.dma.contigIds <==> io.id in s.dma.contigIds;
  }

  lemma ContigStray(s: State, t: State, io: ContigIo)
    requires Inv(s) && io.id !in s.dma.contigIds && t == s.(dma := WithContigId(s.dma, io.id, io.record))
    requires io.record != NULL ==> FreshBlock(s, io.record)
    ensures Inv(t)
    ensures forall r :: Leaked(t, r) <==> Leaked(s, r) || r == ContigId(io.id)
  {
    NullIsNoRecord(s);
    forall d | d in s.dma.contigs
      ensures d != NULL
    {
      assert ContigOk(s, d);
    }
    StraysLeak(s, t);
  }

  /** An unlock takes exactly the handle's record and id; its mapping is leaked exactly when `munmap` fails. */
  lemma ContigUnlockConserves(s: State, h: Ptr, dma: Ptr, ret: int, unmapOk: bool)
    requires Inv(s) && (h != NULL ==> h in s.devs) && (dma != NULL ==> dma in s.dma.contigs)
    ensures var Outcome(t, code) := ContigUnlock(s, h, dma, ret, unmapOk);
            && Inv(t)
            && (code != 0 ==> t == s)
            && (code == 0 ==> DropsContig(s, t, dma, unmapOk))
            && (forall r :: Leaked(t, r) <==>
                  Leaked(s, r) || (code == 0 && !unmapOk && r == Mem(s.dma.contigs[dma].userAddr)))
  {
    var Outcome(t, code) := ContigUnlock(s, h, dma, ret, unmapOk);
    if code == 0 {
      DropContigConserves(s, t, dma, unmapOk);
    }
  }

  /** What `*ppDma` holds after a contiguous lock. */
  function ContigHandle(s: State, h: Ptr, hasBuf: bool, size: nat, hasOut: bool, given: Ptr, io: ContigIo): Ptr
  {
    if hasOut && given == NULL && Usable(s, h) && hasBuf && size != 0 && s.devs[h].fd > 0 && io.ret == 0 &&
       io.record != NULL
    then io.record else given
  }

  /**
   After `mmap` failed, the caller's pointer is left at the record that was freed; calling again with it reports success
   with nothing locked, whatever the system would have answered.  After `malloc` failed it is still null, and the retry
   is a real one.
   */
  lemma ContigRetryLocksNothing(s: State, h: Ptr, size: nat, io: ContigIo, again: ContigIo)
    requires Inv(s) && (h != NULL ==> h in s.devs) && ContigIoOk(s, size, io)
    requires ContigLock(s, h, true, size, true, NULL, io).code == -ENOMEM && io.ret == 0
    ensures var t := ContigLock(s, h, true, size, true, NULL, io).state;
            var p := ContigHandle(s, h, true, size, true, NULL, io);
            && p !in t.dma.contigs
            && (p != NULL <==> io.record != NULL)
            && (p != NULL ==> ContigLock(t, h, true, size, true, p, again) == Outcome(t, 0))
  {
    ContigLockConserves(s, h, true, size, true, NULL, io);
    forall d | d in s.dma.contigs
      ensures d != NULL
    {
      assert ContigOk(s, d);
    }
  }
}
