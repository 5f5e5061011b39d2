/** One call at a time: every entry point keeps the invariant, and what each can leak is said exactly. */
module Conservation {
  import opened Kernel
  import opened Lifecycle
  import opened Ownership
  import opened BarLoops

  // ---------------------------------------------------------------- what the system may answer

  /** `malloc` gives null or an address that is no live block. */
  predicate FreshBlock(s: State, b: Ptr)
  {
    b != NULL && !IsBlock(s, b)
  }

  /** Open's `malloc` is not checked by the code, so it must succeed. */
  ghost predicate OpenOk(s: State, slot: Option<Slot>, io: OpenIo)
  {
    && FreshBlock(s, io.record)
    && io.fd !in s.fds
    && io.vendorId < 0x10000 && io.deviceId < 0x10000
    && (s.next < |s.table| && slot.Some? ==> FillOk(Entered(s, slot.value, io), io.fill))
    && |io.fill.bars| == BAR_SLOTS
  }

  ghost predicate SgIoOk(s: State, size: nat, pageSize: nat, io: SgIo)
    requires pageSize > 0
  {
    && (io.record != NULL ==> FreshBlock(s, io.record))
    && (io.pages != NULL ==> FreshBlock(s, io.pages) && io.pages != io.record)
    && (io.scratch != NULL ==> FreshBlock(s, io.scratch) && io.scratch != io.record && io.scratch != io.pages)
    && (io.ret == 0 ==> io.id !in s.dma.sgIds && |io.addresses| == DivRoundUp(size, pageSize))
  }

  ghost predicate ContigIoOk(s: State, size: nat, io: ContigIo)
  {
    && (io.ret == 0 ==> io.id !in s.dma.contigIds)
    && (io.record != NULL ==> FreshBlock(s, io.record))
    && (io.map_.Mapped? ==> io.map_.addr != NULL && io.map_.addr !in s.maps && |io.map_.bytes| == size)
  }

  // ---------------------------------------------------------------- open

  /** A failing fill leaves the mappings of the lines before the one that failed. */
  ghost predicate FillLeaves(io: FillIo, a: Ptr)
  {
    && io.pathErr == 0 && io.resourceFd >= 0 && io.streamOk && !FillsAll(io.bars)
    && MapsAt(io.bars, FillStop(io.bars, |io.bars|), a)
  }

  /** What a call of open leaves behind: descriptor 0, or the BARs mapped before one fails. */
  ghost predicate OpenLeaves(hasOut: bool, slot: Option<Slot>, io: OpenIo, r: Resource)
  {
    match OpenProgress(hasOut, slot, io)
    case Broken(_) => OpensZero(io) && r == Fd(0)
    case Ready => r.Mem? && FillLeaves(io.fill, r.base)
    case _ => false
  }

  // ---------------------------------------------------------------- what does not change

  /** A record stays consistent while it, its mappings and its claim to a descriptor do not change. */
  lemma RecordStays(s: State, t: State, q: Ptr)
    requires q in s.devs && RecordOk(s, q) && q in t.devs && t.devs[q] == s.devs[q]
    requires forall a :: a in s.maps && s.maps[a].owner == q ==> a in t.maps && t.maps[a] == s.maps[a]
    requires HoldsFd(t, q) ==> HoldsFd(s, q)
    ensures RecordOk(t, q)
  {
  }

  lemma NullIsNoRecord(s: State)
    requires DevicesOk(s)
    ensures NULL !in s.devs
  {
    forall q | q in s.devs
      ensures q != NULL
    {
      assert RecordOk(s, q);
    }
  }

  /** No record but `p` changes, nor its mappings, and none but `p` gains a descriptor. */
  ghost predicate OthersKept(s: State, t: State, p: Ptr)
  {
    && (forall q :: q in t.devs && q != p ==> q in s.devs && t.devs[q] == s.devs[q])
    && (forall a :: a in s.maps && s.maps[a].owner in s.devs && s.maps[a].owner != p ==>
          a in t.maps && t.maps[a] == s.maps[a])
    && (forall fd :: fd in t.fds && t.fds[fd] in s.devs && t.fds[fd] != p ==> fd in s.fds && s.fds[fd] == t.fds[fd])
  }

  lemma DevicesStay(s: State, t: State, p: Ptr)
    requires DevicesOk(s) && OthersKept(s, t, p)
    ensures forall q :: q in t.devs && q != p ==> RecordOk(t, q)
  {
    forall q | q in t.devs && q != p
      ensures RecordOk(t, q)
    {
      assert RecordOk(s, q);
      RecordStays(s, t, q);
    }
  }

  lemma BuffersStay(s: State, t: State)
    requires BuffersOk(s)
    requires t.dma == s.dma.(contigIds := t.dma.contigIds)
    requires forall id :: id in s.dma.contigIds ==> id in t.dma.contigIds && t.dma.contigIds[id] == s.dma.contigIds[id]
    requires forall a :: a in s.maps && s.maps[a].owner in s.dma.contigs ==> a in t.maps && t.maps[a] == s.maps[a]
    ensures BuffersOk(t)
  {
    assert forall d :: d in s.dma.contigs ==> ContigOk(s, d);
    assert forall d :: d in s.dma.sgs ==> SgOk(s, d);
  }

  lemma SameRegistered(s: State, t: State)
    requires s.next == t.next <= |s.table| == |t.table|
    requires forall i :: 0 <= i < s.next ==> t.table[i] == s.table[i]
    ensures forall q :: Registered(t, q) <==> Registered(s, q)
  {
    forall q
      ensures Registered(t, q) <==> Registered(s, q)
    {
      if Registered(s, q) {
        var i :| 0 <= i < s.next && s.table[i] == q;
        assert t.table[i] == q;
      }
      if Registered(t, q) {
        var i :| 0 <= i < s.next && t.table[i] == q;
        assert s.table[i] == q;
      }
    }
  }

  /** Whether `r` is leaked is settled by the record it was acquired for (`LeakedByAcquirer`). */
  ghost predicate ByAcquirer(s: State, r: Resource)
  {
    Leaked(s, r) <==> Live(s, r) && !HeldBy(s, Acquirer(s, r), r)
  }

  /** The record at `o` holds the same before and after. */
  ghost predicate Untouched(s: State, t: State, o: Ptr)
  {
    && (Registered(t, o) <==> Registered(s, o))
    && (HoldsFd(t, o) <==> HoldsFd(s, o))
    && (o in t.devs <==> o in s.devs) && (o in s.devs ==> t.devs[o] == s.devs[o])
    && (o in t.dma.sgs <==> o in s.dma.sgs) && (o in s.dma.sgs ==> t.dma.sgs[o] == s.dma.sgs[o])
    && (o in t.dma.contigs <==> o in s.dma.contigs) && (o in s.dma.contigs ==> t.dma.contigs[o] == s.dma.contigs[o])
  }

  lemma UntouchedHolds(s: State, t: State, o: Ptr, r: Resource)
    requires Untouched(s, t, o)
    ensures HeldBy(t, o, r) <==> HeldBy(s, o, r)
  {
  }

  /** A resource that stays live for a record that is not touched is leaked after if and only if before. */
  lemma UntouchedLeaks(s: State, t: State, r: Resource)
    requires ByAcquirer(s, r) && ByAcquirer(t, r)
    requires Live(s, r) && Live(t, r) && Acquirer(t, r) == Acquirer(s, r)
    requires Untouched(s, t, Acquirer(s, r))
    ensures Leaked(t, r) <==> Leaked(s, r)
  {
    UntouchedHolds(s, t, Acquirer(s, r), r);
  }

  // ---------------------------------------------------------------- strays

  /** `t` is `s` with table cells above `iNewDev` changed and resources added for records that are not there. */
  ghost predicate Strays(s: State, t: State)
  {
    && s.next <= |s.table| == |t.table|
    && t == s.(table := t.table, fds := t.fds, maps := t.maps, dma := s.dma.(contigIds := t.dma.contigIds))
    && (forall i :: 0 <= i < s.next ==> t.table[i] == s.table[i])
    && (forall fd :: fd in s.fds ==> fd in t.fds && t.fds[fd] == s.fds[fd])
    && (forall a :: a in s.maps ==> a in t.maps && t.maps[a] == s.maps[a])
    && (forall id :: id in s.dma.contigIds ==> id in t.dma.contigIds && t.dma.contigIds[id] == s.dma.contigIds[id])
    && (forall fd :: fd in t.fds && fd !in s.fds ==> t.fds[fd] !in s.devs)
    && (forall a :: a in t.maps && a !in s.maps ==>
          a != NULL && t.maps[a].owner !in s.devs && t.maps[a].owner !in s.dma.contigs)
    && (forall id :: id in t.dma.contigIds && id !in s.dma.contigIds ==> t.dma.contigIds[id] !in s.dma.contigs)
  }

  lemma StraysKeepInv(s: State, t: State)
    requires Inv(s) && Strays(s, t)
    ensures Inv(t)
  {
    NullIsNoRecord(s);
    DevicesStay(s, t, NULL);
    BuffersStay(s, t);
  }

  lemma StrayLeaked(s: State, t: State, r: Resource)
    requires Strays(s, t) && ByAcquirer(s, r) && ByAcquirer(t, r)
    requires forall q :: Registered(t, q) <==> Registered(s, q)
    ensures Leaked(t, r) <==> Leaked(s, r) || (Live(t, r) && !Live(s, r))
  {
    if Live(s, r) {
      UntouchedLeaks(s, t, r);
    }
  }

  /** What is added for no record is leaked, and it is all that is. */
  lemma StraysLeak(s: State, t: State)
    requires Inv(s) && Strays(s, t)
    ensures Inv(t)
    ensures forall q :: Registered(t, q) <==> Registered(s, q)
    ensures forall r :: Leaked(t, r) <==> Leaked(s, r) || (Live(t, r) && !Live(s, r))
  {
    StraysKeepInv(s, t);
    SameRegistered(s, t);
    forall r
      ensures Leaked(t, r) <==> Leaked(s, r) || (Live(t, r) && !Live(s, r))
    {
      LeakedByAcquirer(s, r);
      LeakedByAcquirer(t, r);
      StrayLeaked(s, t, r);
    }
  }

  // ---------------------------------------------------------------- filling

  /** The filled state: the record is complete, nothing else changed but the mappings added for it. */
  ghost predicate FillFrame(e: State, t: State, p: Ptr)
  {
    && p in e.devs && t == e.(maps := t.maps, devs := t.devs) && p in t.devs
    && (forall q :: q in t.devs <==> q in e.devs)
    && (forall q :: q in e.devs && q != p ==> t.devs[q] == e.devs[q])
    && t.devs[p].fd == e.devs[p].fd && t.devs[p].deviceId == e.devs[p].deviceId
    && NULL !in t.maps
    && (forall a :: a in e.maps ==> a in t.maps && t.maps[a] == e.maps[a])
    && (forall a :: a in t.maps && a !in e.maps ==> t.maps[a].owner == p)
  }

  lemma FillFrames(e: State, p: Ptr, io: FillIo)
    requires p in e.devs && FillOk(e, io) && NULL !in e.maps
    ensures FillFrame(e, Fill(e, p, io).state, p)
  {
    var m := FillStop(io.bars, |io.bars|);
    forall a
      ensures var maps := MapsWith(p, e.maps, io.bars, m);
              && (a in e.maps ==> a in maps && maps[a] == e.maps[a])
              && (a in maps && a !in e.maps ==> maps[a].owner == p && a != NULL)
    {
      MapsAdded(e, p, io, m, a);
    }
    FillCode(e, p, io);
  }

  lemma FillKeepsInv(e: State, t: State, p: Ptr)
    requires Inv(e) && FillFrame(e, t, p)
    requires BarsOk(t, p, t.devs[p]) && Intact(t.devs[p])
    ensures Inv(t)
  {
    assert RecordOk(e, p);
    DevicesStay(e, t, p);
    BuffersStay(e, t);
  }

  /** New mappings are leaked unless the record that lists them (`done`) is registered. */
  lemma FilledLeaks(e: State, t: State, p: Ptr, done: bool, r: Resource)
    requires FillFrame(e, t, p)
    requires ByAcquirer(e, r) && ByAcquirer(t, r)
    requires forall q :: Registered(t, q) <==> Registered(e, q)
    requires p !in e.dma.sgs && p !in e.dma.contigs
    requires forall a :: ListsBar(t.devs[p], a) <==> ListsBar(e.devs[p], a) || (done && a in t.maps && a !in e.maps)
    requires forall a :: ListsBar(e.devs[p], a) ==> a in e.maps
    ensures Leaked(t, r) <==>
            Leaked(e, r) || (r.Mem? && r.base in t.maps && r.base !in e.maps && !(done && Registered(e, p)))
  {
    if Live(e, r) && Acquirer(e, r) != p {
      UntouchedLeaks(e, t, r);
    }
  }

  /** What a fill leaves behind: every new mapping, unless all were made and the record is registered. */
  ghost predicate FillStrays(s: State, p: Ptr, io: FillIo, r: Resource)
  {
    && FillReaches(s, p, io) && r.Mem? && MapsAt(io.bars, FillStop(io.bars, |io.bars|), r.base)
    && !(FillsAll(io.bars) && Registered(s, p))
  }

  lemma ListedIsLive(s: State, p: Ptr)
    requires p in s.devs && BarsOk(s, p, s.devs[p])
    ensures forall a :: ListsBar(s.devs[p], a) ==> a in s.maps
  {
    forall i | 0 <= i < BAR_SLOTS && s.devs[p].bars[i].userAddress != NULL
      ensures s.devs[p].bars[i].userAddress in s.maps
    {
      assert MappedFor(s.maps, p, s.devs[p].bars[i]);
    }
  }

  lemma FillListsDone(e: State, p: Ptr, io: FillIo)
    requires p in e.devs && RecordOk(e, p) && FillOk(e, io) && FillReaches(e, p, io)
    ensures var t := Fill(e, p, io).state;
            p in t.devs && forall a ::
              ListsBar(t.devs[p], a) <==> ListsBar(e.devs[p], a) || (FillsAll(io.bars) && a in t.maps && a !in e.maps)
  {
    FillCode(e, p, io);
    if FillsAll(io.bars) {
      FilledLists(e, p, io);
    }
  }

  lemma FillInv(e: State, p: Ptr, io: FillIo)
    requires Inv(e) && p in e.devs && FillOk(e, io)
    ensures Inv(Fill(e, p, io).state)
  {
    var t := Fill(e, p, io).state;
    assert RecordOk(e, p);
    FillCode(e, p, io);
    FillFrames(e, p, io);
    if FillCompletes(e, p, io) {
      FilledLists(e, p, io);
      FillKeepsInv(e, t, p);
    } else {
      NullIsNoRecord(e);
      DevicesStay(e, t, NULL);
      BuffersStay(e, t);
    }
  }

  /** Filling keeps the invariant and leaks exactly what `FillStrays` says. */
  lemma FillConserves(e: State, p: Ptr, io: FillIo)
    requires Inv(e) && p in e.devs && FillOk(e, io)
    ensures var t := Fill(e, p, io).state;
            && Inv(t) && FillFrame(e, t, p)
            && (forall q :: Registered(t, q) <==> Registered(e, q))
            && (forall r :: Leaked(t, r) <==> Leaked(e, r) || FillStrays(e, p, io, r))
  {
    var t := Fill(e, p, io).state;
    FillInv(e, p, io);
    FillFrames(e, p, io);
    SameRegistered(e, t);
    FillCode(e, p, io);
    assert RecordOk(e, p);
    if FillReaches(e, p, io) {
      FillListsDone(e, p, io);
      ListedIsLive(e, p);
      forall r
        ensures Leaked(t, r) <==> Leaked(e, r) || FillStrays(e, p, io, r)
      {
        LeakedByAcquirer(e, r);
        LeakedByAcquirer(t, r);
        FilledLeaks(e, t, p, FillsAll(io.bars), r);
        if r.Mem? {
          MapsAdded(e, p, io, FillStop(io.bars, |io.bars|), r.base);
        }
      }
    }
  }

  lemma FilledLists(e: State, p: Ptr, io: FillIo)
    requires p in e.devs && RecordOk(e, p) && FillOk(e, io) && FillCompletes(e, p, io)
    ensures var t := Fill(e, p, io).state;
            && p in t.devs && BarsOk(t, p, t.devs[p]) && Intact(t.devs[p])
            && (forall a :: ListsBar(t.devs[p], a) <==> a in t.maps && a !in e.maps)
            && (forall a :: !ListsBar(e.devs[p], a))
  {
    var t := Fill(e, p, io).state;
    FillCode(e, p, io);
    FilledBarsOk(e, t, p, t.devs[p], io);
    forall a
      ensures ListsBar(t.devs[p], a) <==> a in t.maps && a !in e.maps
    {
      MapsAdded(e, p, io, |io.bars|, a);
    }
  }

  // ---------------------------------------------------------------- opening

  lemma OpenRegisters(s: State, t: State, p: Ptr)
    requires s.next < |s.table| && p != NULL
    requires t.table == s.table[s.next := p] && t.next == s.next + 1
    ensures forall q :: Registered(t, q) <==> Registered(s, q) || q == p
  {
    forall q
      ensures Registered(t, q) <==> Registered(s, q) || q == p
    {
      if Registered(s, q) {
        var i :| 0 <= i < s.next && s.table[i] == q;
        assert t.table[i] == q;
      }
      assert t.table[s.next] == p;
    }
  }

  lemma EnterKeepsInv(s: State, slot: Slot, io: OpenIo)
    requires Inv(s) && s.next < TABLE_SIZE && OpenOk(s, Some(slot), io) && io.fd > 0
    ensures Inv(Entered(s, slot, io))
  {
    var e := Entered(s, slot, io);
    assert RecordOk(e, io.record);
    DevicesStay(s, e, io.record);
    BuffersStay(s, e);
    assert TableOk(e) by {
      assert forall i :: 0 <= i < s.next ==> e.table[i] == s.table[i];
    }
  }

  lemma EnterLeaks(s: State, slot: Slot, io: OpenIo, r: Resource)
    requires s.next < |s.table| && FreshBlock(s, io.record) && io.fd !in s.fds
    requires ByAcquirer(s, r) && ByAcquirer(Entered(s, slot, io), r)
    requires forall q :: Registered(Entered(s, slot, io), q) <==> Registered(s, q) || q == io.record
    requires !Registered(s, io.record)
    ensures Leaked(Entered(s, slot, io), r) <==> Leaked(s, r)
  {
    var e := Entered(s, slot, io);
    if Live(s, r) && Acquirer(s, r) != io.record {
      UntouchedLeaks(s, e, r);
    }
  }

  /** Entering a fresh record and its descriptor keeps the invariant and leaks nothing. */
  lemma EnterConserves(s: State, slot: Slot, io: OpenIo)
    requires Inv(s) && s.next < TABLE_SIZE && OpenOk(s, Some(slot), io) && io.fd > 0
    ensures var e := Entered(s, slot, io);
            && Inv(e) && HoldsFd(e, io.record)
            && (forall q :: Registered(e, q) <==> Registered(s, q) || q == io.record)
            && (forall r :: Leaked(e, r) <==> Leaked(s, r))
  {
    var e := Entered(s, slot, io);
    EnterKeepsInv(s, slot, io);
    OpenRegisters(s, e, io.record);
    forall r
      ensures Leaked(e, r) <==> Leaked(s, r)
    {
      LeakedByAcquirer(s, r);
      LeakedByAcquirer(e, r);
      EnterLeaks(s, slot, io, r);
    }
  }

  lemma OpenSucceeds(s: State, slot: Slot, io: OpenIo)
    requires Inv(s) && s.next < TABLE_SIZE && OpenOk(s, Some(slot), io) && io.fd > 0
    requires OpenBars(s, slot, io).code == 0
    ensures var OpenOutcome(t, ret, h) := OpenBars(s, slot, io);
            && Inv(t) && ret == 0 && h == io.record && HoldsFd(t, h)
            && FillsAll(io.fill.bars)
            && (forall q :: Registered(t, q) <==> Registered(s, q) || q == h)
            && (forall r :: Leaked(t, r) <==> Leaked(s, r))
  {
    var e := Entered(s, slot, io);
    EnterConserves(s, slot, io);
    FillConserves(e, io.record, io.fill);
    FillCode(e, io.record, io.fill);
  }

  lemma OpenBarsFails(s: State, slot: Slot, io: OpenIo)
    requires Inv(s) && s.next < TABLE_SIZE && OpenOk(s, Some(slot), io) && io.fd > 0
    requires OpenBars(s, slot, io).code != 0
    ensures var OpenOutcome(t, ret, h) := OpenBars(s, slot, io);
            && Strays(s, t) && t.fds == s.fds && t.dma == s.dma && ret != 0
            && (forall a :: a in t.maps && a !in s.maps <==> FillLeaves(io.fill, a))
  {
    var OpenOutcome(t, ret, h) := OpenBars(s, slot, io);
    var e := Entered(s, slot, io);
    FillCode(e, io.record, io.fill);
    assert FillReaches(e, io.record, io.fill) <==> io.fill.pathErr == 0 && io.fill.resourceFd >= 0 && io.fill.streamOk;
    LeftMappings(e, io.record, io.fill);
  }

  /** The mappings a fill that reaches its loop leaves when the loop breaks off. */
  lemma LeftMappings(e: State, p: Ptr, io: FillIo)
    requires FillOk(e, io)
    ensures var maps := MapsWith(p, e.maps, io.bars, FillStop(io.bars, |io.bars|));
            && (forall a :: a in e.maps ==> a in maps && maps[a] == e.maps[a])
            && (forall a :: a in maps && a !in e.maps <==> MapsAt(io.bars, FillStop(io.bars, |io.bars|), a))
            && (forall a :: a in maps && a !in e.maps ==> a != NULL && maps[a].owner == p)
  {
    var m := FillStop(io.bars, |io.bars|);
    forall a
      ensures var maps := MapsWith(p, e.maps, io.bars, m);
              && (a in e.maps ==> a in maps && maps[a] == e.maps[a])
              && (a in maps && a !in e.maps <==> MapsAt(io.bars, m, a))
              && (a in maps && a !in e.maps ==> a != NULL && maps[a].owner == p)
    {
      MapsAdded(e, p, io, m, a);
    }
  }

  lemma OpenBreaks(s: State, io: OpenIo)
    requires s.next < |s.table| && FreshBlock(s, io.record) && io.fd !in s.fds
    ensures var t := OpenBroken(s, io);
            && Strays(s, t) && t.maps == s.maps && t.dma == s.dma
            && (!OpensZero(io) ==> t.fds == s.fds)
            && (OpensZero(io) ==> t.fds == s.fds[0 := io.record] && 0 !in s.fds)
  {
  }

  lemma OpenBreaksLeaks(s: State, hasOut: bool, slot: Option<Slot>, io: OpenIo)
    requires Inv(s) && s.next < TABLE_SIZE && OpenOk(s, slot, io)
    requires OpenProgress(hasOut, slot, io).Broken?
    ensures Inv(OpenBroken(s, io))
    ensures forall r :: Leaked(OpenBroken(s, io), r) <==> Leaked(s, r) || OpenLeaves(hasOut, slot, io, r)
  {
    var t := OpenBroken(s, io);
    OpenBreaks(s, io);
    StraysLeak(s, t);
    forall r
      ensures Live(t, r) && !Live(s, r) <==> OpenLeaves(hasOut, slot, io, r)
    {
    }
  }

  lemma OpenBarsLeaks(s: State, hasOut: bool, slot: Option<Slot>, io: OpenIo)
    requires Inv(s) && s.next < TABLE_SIZE && OpenOk(s, slot, io)
    requires OpenProgress(hasOut, slot, io).Ready?
    ensures var OpenOutcome(t, ret, h) := OpenBars(s, slot.value, io);
            Inv(t) && forall r :: Leaked(t, r) <==> Leaked(s, r) || OpenLeaves(hasOut, slot, io, r)
  {
    var OpenOutcome(t, ret, h) := OpenBars(s, slot.value, io);
    if ret == 0 {
      OpenSucceeds(s, slot.value, io);
    } else {
      OpenBarsFails(s, slot.value, io);
      StraysLeak(s, t);
      forall r
        ensures Live(t, r) && !Live(s, r) <==> OpenLeaves(hasOut, slot, io, r)
      {
      }
    }
  }

  /**
   An error leaves the registered records, the heap, every buffer and, but for descriptor 0, the descriptors as they
   were.  Code 0 without a handle changes nothing; a handle with an error names no record; a handle with code 0 is
   registered and holds its descriptor.
   */
  ghost predicate OpenEndsWell(s: State, io: OpenIo, o: OpenOutcome)
  {
    && (!Opened(o) ==> Strays(s, o.state) && o.state.dma == s.dma && (!OpensZero(io) ==> o.state.fds == s.fds))
    && (o.code == 0 && o.handle == NULL ==> o.state == s)
    && (o.code != 0 && o.handle != NULL ==> o.handle !in o.state.devs)
    && (Opened(o) ==> o.handle == io.record && HoldsFd(o.state, o.handle) &&
                      (forall q :: Registered(o.state, q) <==> Registered(s, q) || q == o.handle))
  }

  /**
   Open is transactional: an error leaves the registered records, the heap, every buffer and, but for descriptor 0, the
   descriptors as they were, and its one other residue is the mappings of the BARs below the one that failed.  A handle
   with code 0 is registered, holds its descriptor, and leaks nothing; code 0 without a handle changes nothing.
   */
  lemma OpenConserves(s: State, hasOut: bool, slot: Option<Slot>, io: OpenIo)
    requires Inv(s) && s.next < TABLE_SIZE && OpenOk(s, slot, io)
    ensures var o := Open(s, hasOut, slot, io);
            && Inv(o.state) && OpenEndsWell(s, io, o)
            && (forall r :: Leaked(o.state, r) <==> Leaked(s, r) || OpenLeaves(hasOut, slot, io, r))
  {
    OpenLeaks(s, hasOut, slot, io);
    OpenEnds(s, hasOut, slot, io);
  }

  lemma OpenLeaks(s: State, hasOut: bool, slot: Option<Slot>, io: OpenIo)
    requires Inv(s) && s.next < TABLE_SIZE && OpenOk(s, slot, io)
    ensures var t := Open(s, hasOut, slot, io).state;
            Inv(t) && forall r :: Leaked(t, r) <==> Leaked(s, r) || OpenLeaves(hasOut, slot, io, r)
  {
    match OpenProgress(hasOut, slot, io)
    case Refused(_) =>
    case NotListed =>
    case Broken(_) => OpenBreaksLeaks(s, hasOut, slot, io);
    case Ready => OpenBarsLeaks(s, hasOut, slot, io);
  }

  lemma OpenEnds(s: State, hasOut: bool, slot: Option<Slot>, io: OpenIo)
    requires Inv(s) && s.next < TABLE_SIZE && OpenOk(s, slot, io)
    ensures OpenEndsWell(s, io, Open(s, hasOut, slot, io))
  {
    match OpenProgress(hasOut, slot, io)
    case Refused(_) =>
    case NotListed =>
    case Broken(_) => OpenBreaks(s, io);
    case Ready => OpenReady(s, slot.value, io);
  }

  /** The two ends of an open that gets to its BARs. */
  lemma OpenReady(s: State, slot: Slot, io: OpenIo)
    requires Inv(s) && s.next < TABLE_SIZE && OpenOk(s, Some(slot), io) && io.fd > 0
    ensures var o := OpenBars(s, slot, io);
            && o.handle == io.record && o.handle != NULL
            && (o.code != 0 ==> Strays(s, o.state) && o.state.dma == s.dma && o.state.fds == s.fds &&
                                o.handle !in o.state.devs)
            && (o.code == 0 ==> HoldsFd(o.state, o.handle) &&
                                forall q :: Registered(o.state, q) <==> Registered(s, q) || q == o.handle)
  {
    if OpenBars(s, slot, io).code == 0 {
      OpenSucceeds(s, slot, io);
    } else {
      OpenBarsFails(s, slot, io);
    }
  }
}
