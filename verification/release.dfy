/** Closing a device: the descriptor, the mappings, the record, and the table index. */
module Release {
  import opened Kernel
  import opened Lifecycle
  import opened Ownership
  import opened Conservation

  // ---------------------------------------------------------------- the shrink loop

  ghost predicate AllNull(table: seq<Ptr>, from: nat, to: nat)
    requires to <= |table|
  {
    forall i :: from <= i < to ==> table[i] == NULL
  }

  /** The index after the loop, as the source's comment has it: 0, or one past the last entry in use. */
  lemma {:induction false} CommentedShrink(table: seq<Ptr>, n: nat, pastNull: bool)
    requires n <= |table|
    ensures var m := Shrunk(table, n, AsCommented, pastNull);
            (m == 0 || table[m - 1] != NULL) && AllNull(table, m, n)
  {
    if n > 0 && table[n - 1] == NULL {
      CommentedShrink(table, n - 1, pastNull);
    }
  }

  /** The cell at index `n`, one past the entries below it, is null; behind a full table it is the word after it. */
  predicate NextIsNull(table: seq<Ptr>, n: nat, pastNull: bool)
  {
    (n < |table| && table[n] == NULL) || (n >= |table| && pastNull)
  }

  /** The index after the loop as written: unchanged, or 0, or the index of an entry in use. */
  lemma {:induction false} WrittenShrink(table: seq<Ptr>, n: nat, pastNull: bool)
    requires n <= |table|
    ensures var m := Shrunk(table, n, AsWritten, pastNull);
            && (n > 0 && !NextIsNull(table, n, pastNull) ==> m == n)
            && (n > 0 && NextIsNull(table, n, pastNull) ==> m < n && (m == 0 || table[m] != NULL))
            && AllNull(table, m + 1, n)
  {
    if n > 0 && NextIsNull(table, n, pastNull) {
      WrittenShrink(table, n - 1, pastNull);
    }
  }

  /** Once it moves, the loop as written stops one below where its comment says. */
  lemma ShrinkOffByOne(table: seq<Ptr>, n: nat, pastNull: bool)
    requires 0 < n <= |table| && NextIsNull(table, n, pastNull)
    ensures var w, c := Shrunk(table, n, AsWritten, pastNull), Shrunk(table, n, AsCommented, pastNull);
            w == if c == 0 then 0 else c - 1
  {
    CommentedShrink(table, n, pastNull);
    WrittenShrink(table, n, pastNull);
  }

  /**
   As written, the loop keeps every entry in use below `iNewDev` exactly when the cell at `iNewDev` is not null, so
   that the loop does not move, or no entry is in use at all.
   */
  lemma WrittenShrinkKeepsAll(table: seq<Ptr>, n: nat, pastNull: bool)
    requires n <= |table|
    ensures (forall i :: 0 <= i < n && table[i] != NULL ==> i < Shrunk(table, n, AsWritten, pastNull))
            <==> n == 0 || !NextIsNull(table, n, pastNull) || AllNull(table, 0, n)
  {
    WrittenShrink(table, n, pastNull);
    var m := Shrunk(table, n, AsWritten, pastNull);
    if n > 0 && NextIsNull(table, n, pastNull) && !AllNull(table, 0, n) {
      assert table[m] != NULL;
    }
  }

  // ---------------------------------------------------------------- lowering the index

  /** Lowering `iNewDev` leaks exactly what the records it drops hold. */
  lemma LoweredLeaks(s: State, m: nat, r: Resource)
    requires m <= s.next && ByAcquirer(s, r) && ByAcquirer(s.(next := m), r)
    requires forall o :: HeldBy(s, o, r) ==> Live(s, r) && o == Acquirer(s, r)
    requires forall o :: o in s.devs ==> o !in s.dma.sgs && o !in s.dma.contigs
    ensures var t := s.(next := m);
            Leaked(t, r) <==> Leaked(s, r) || exists q :: Drops(s, t, q) && HeldBy(s, q, r)
  {
    var t := s.(next := m);
    if Live(s, r) {
      var o := Acquirer(s, r);
      if Registered(s, o) <==> Registered(t, o) {
        UntouchedLeaks(s, t, r);
      } else if Leaked(t, r) && !Leaked(s, r) {
        assert Drops(s, t, o) && HeldBy(s, o, r);
      }
    }
  }

  /** `q` was registered and is not any more. */
  ghost predicate Drops(s: State, t: State, q: Ptr)
  {
    q in s.devs && Registered(s, q) && !Registered(t, q)
  }

  lemma LowerIndex(s: State, m: nat)
    requires Inv(s) && m <= s.next
    ensures var t := s.(next := m);
            Inv(t) && forall r :: Leaked(t, r) <==> Leaked(s, r) || exists q :: Drops(s, t, q) && HeldBy(s, q, r)
  {
    var t := s.(next := m);
    forall q | q in t.devs
      ensures RecordOk(t, q)
    {
      assert RecordOk(s, q);
      RecordStays(s, t, q);
    }
    BuffersStay(s, t);
    forall r
      ensures Leaked(t, r) <==> Leaked(s, r) || exists q :: Drops(s, t, q) && HeldBy(s, q, r)
    {
      LeakedByAcquirer(s, r);
      LeakedByAcquirer(t, r);
      forall o | HeldBy(s, o, r)
        ensures Live(s, r) && o == Acquirer(s, r)
      {
        HolderIsAcquirer(s, o, r);
      }
      LoweredLeaks(s, m, r);
    }
  }

  // ---------------------------------------------------------------- unmapping

  predicate Unmappable(s: State, p: Ptr, errs: seq<int>)
  {
    p in s.devs && |s.devs[p].bars| == BAR_SLOTS && s.devs[p].barCount <= BAR_SLOTS && s.devs[p].barCount <= |errs|
  }

  /** The loop stopped at `m` has zeroed the first `m` addresses and taken only the record's own mappings. */
  lemma UnmapsOwn(s: State, p: Ptr, m: nat)
    requires p in s.devs && BarsOk(s, p, s.devs[p]) && m <= s.devs[p].barCount
    ensures var t := Unmaps(s, p, m);
            && BarsOk(t, p, t.devs[p])
            && (forall a :: a in t.maps ==> a in s.maps && t.maps[a] == s.maps[a])
            && (forall a :: a in s.maps && a !in t.maps && a != NULL ==> s.maps[a].owner == p && ListsBar(s.devs[p], a))
  {
    var t := Unmaps(s, p, m);
    var b, c := s.devs[p].bars, t.devs[p].bars;
    forall i | 0 <= i < BAR_SLOTS && c[i].userAddress != NULL
      ensures i < t.devs[p].barCount && MappedFor(t.maps, p, c[i])
    {
      assert MappedFor(s.maps, p, b[i]);
      assert b[i].userAddress in t.maps;
    }
    forall a | a in s.maps && a !in t.maps && a != NULL
      ensures s.maps[a].owner == p && ListsBar(s.devs[p], a)
    {
      var i :| 0 <= i < m && b[i].userAddress == a;
      assert MappedFor(s.maps, p, b[i]);
    }
  }

  /** What the record lists afterwards is what it listed and is still mapped. */
  lemma UnmapsLists(s: State, p: Ptr, m: nat)
    requires p in s.devs && BarsOk(s, p, s.devs[p]) && m <= s.devs[p].barCount
    ensures var t := Unmaps(s, p, m);
            forall a :: ListsBar(t.devs[p], a) <==> ListsBar(s.devs[p], a) && a in t.maps
  {
    var t := Unmaps(s, p, m);
    var b, c := s.devs[p].bars, t.devs[p].bars;
    forall a
      ensures ListsBar(t.devs[p], a) <==> ListsBar(s.devs[p], a) && a in t.maps
    {
      if ListsBar(t.devs[p], a) {
        var i :| 0 <= i < |c| && c[i].userAddress == a;
        assert b[i].userAddress == a && MappedFor(s.maps, p, b[i]);
      }
      if ListsBar(s.devs[p], a) && a in t.maps {
        var i :| 0 <= i < |b| && b[i].userAddress == a;
        assert c[i].userAddress == a;
      }
    }
  }

  lemma UnmapsKeepsInv(s: State, p: Ptr, m: nat)
    requires Inv(s) && p in s.devs && !HoldsFd(s, p) && m <= s.devs[p].barCount && m <= |s.devs[p].bars|
    ensures RecordOk(s, p) && Inv(Unmaps(s, p, m))
  {
    var t := Unmaps(s, p, m);
    assert RecordOk(s, p);
    UnmapsOwn(s, p, m);
    DevicesStay(s, t, p);
    assert RecordOk(t, p);
    BuffersStay(s, t);
  }

  lemma UnmapsLeaksNothing(s: State, p: Ptr, m: nat, r: Resource)
    requires p in s.devs && BarsOk(s, p, s.devs[p]) && m <= s.devs[p].barCount && Registered(s, p) && NULL !in s.maps
    requires p !in s.dma.sgs && p !in s.dma.contigs
    requires forall q :: Registered(Unmaps(s, p, m), q) <==> Registered(s, q)
    requires ByAcquirer(s, r) && ByAcquirer(Unmaps(s, p, m), r)
    ensures Leaked(Unmaps(s, p, m), r) <==> Leaked(s, r)
  {
    var t := Unmaps(s, p, m);
    UnmapsOwn(s, p, m);
    UnmapsLists(s, p, m);
    if Live(t, r) && Acquirer(s, r) != p {
      UntouchedLeaks(s, t, r);
    }
  }

  /** Unmapping a registered record, as far as it gets, leaks nothing. */
  lemma UnmapsConserves(s: State, p: Ptr, m: nat)
    requires Inv(s) && p in s.devs && !HoldsFd(s, p) && Registered(s, p)
    requires m <= s.devs[p].barCount && m <= |s.devs[p].bars|
    ensures var t := Unmaps(s, p, m);
            && Inv(t) && RecordOk(s, p)
            && (forall q :: Registered(t, q) <==> Registered(s, q))
            && (forall r :: Leaked(t, r) <==> Leaked(s, r))
  {
    var t := Unmaps(s, p, m);
    UnmapsKeepsInv(s, p, m);
    SameRegistered(s, t);
    forall r
      ensures Leaked(t, r) <==> Leaked(s, r)
    {
      LeakedByAcquirer(s, r);
      LeakedByAcquirer(t, r);
      UnmapsLeaksNothing(s, p, m, r);
    }
  }

  // ---------------------------------------------------------------- freeing the record

  lemma RemovedRegisters(s: State, i: nat)
    requires TableOk(s) && i < s.next && s.table[i] != NULL
    ensures forall q :: Registered(Removed(s, i), q) <==> Registered(s, q) && q != s.table[i]
  {
    var t := Removed(s, i);
    forall q
      ensures Registered(t, q) <==> Registered(s, q) && q != s.table[i]
    {
      if Registered(s, q) && q != s.table[i] {
        var j :| 0 <= j < s.next && s.table[j] == q;
        assert t.table[j] == q;
      }
      if Registered(t, q) {
        var j :| 0 <= j < s.next && t.table[j] == q;
        assert s.table[j] == q && j != i;
      }
    }
  }

  lemma RemovedKeepsInv(s: State, i: nat)
    requires Inv(s) && i < s.next && s.table[i] != NULL
    ensures Inv(Removed(s, i))
  {
    var t := Removed(s, i);
    assert s.table[i] in s.devs;
    DevicesStay(s, t, s.table[i]);
    BuffersStay(s, t);
  }

  lemma RemovedLeaksNothing(s: State, i: nat, r: Resource)
    requires i < s.next <= |s.table| && s.table[i] in s.devs && s.table[i] !in s.dma.sgs && s.table[i] !in s.dma.contigs
    requires s.table[i] !in s.dma.pageTables && s.table[i] !in s.dma.scratch
    requires !HoldsFd(s, s.table[i]) && forall a :: !ListsBar(s.devs[s.table[i]], a)
    requires forall q :: Registered(Removed(s, i), q) <==> Registered(s, q) && q != s.table[i]
    requires Registered(s, s.table[i])
    requires ByAcquirer(s, r) && ByAcquirer(Removed(s, i), r)
    ensures Leaked(Removed(s, i), r) <==> Leaked(s, r)
  {
    if Live(Removed(s, i), r) && Acquirer(s, r) != s.table[i] {
      UntouchedLeaks(s, Removed(s, i), r);
    }
  }

  lemma RemoveConserves(s: State, i: nat)
    requires Inv(s) && i < s.next && s.table[i] != NULL && s.table[i] in s.devs
    requires !HoldsFd(s, s.table[i]) && forall a :: !ListsBar(s.devs[s.table[i]], a)
    ensures var t := Removed(s, i);
            && Inv(t)
            && (forall q :: Registered(t, q) <==> Registered(s, q) && q != s.table[i])
            && (forall r :: Leaked(t, r) <==> Leaked(s, r))
  {
    var t := Removed(s, i);
    RemovedKeepsInv(s, i);
    RemovedRegisters(s, i);
    forall r
      ensures Leaked(t, r) <==> Leaked(s, r)
    {
      LeakedByAcquirer(s, r);
      LeakedByAcquirer(t, r);
      RemovedLeaksNothing(s, i, r);
    }
  }

  // ---------------------------------------------------------------- freeDeviceMem

  /** Some registered record other than `p` that the call leaves out of the table holds `r`. */
  ghost predicate Strands(s: State, t: State, p: Ptr, r: Resource)
  {
    exists q :: q != p && Drops(s, t, q) && HeldBy(s, q, r)
  }

  lemma IndexOfRegistered(s: State, p: Ptr)
    requires s.next <= |s.table| && p != NULL
    ensures Registered(s, p) <==> IndexOf(s.table, s.next, p) < s.next
  {
  }

  /** A release that gets through is: unmap every descriptor, free the record, then lower the index. */
  lemma FreeInSteps(s: State, p: Ptr, io: FreeIo, mode: Shrink)
    requires s.next <= |s.table| && Unmappable(s, p, io.unmapErrs) && p != NULL && Registered(s, p)
    requires StopOf(s, p, io.unmapErrs) == s.devs[p].barCount
    ensures var i := IndexOf(s.table, s.next, p);
            && i < s.next && s.table[i] == p
            && FreeDeviceMem(s, p, io, mode) ==
                 Outcome(ShrinkTable(Removed(Unmaps(s, p, s.devs[p].barCount), i), mode, io.pastNull), 0)
  {
    IndexOfRegistered(s, p);
  }

  /** After the unmapping loop got through, the record lists nothing. */
  lemma UnmappedListsNothing(s: State, p: Ptr)
    requires p in s.devs && BarsOk(s, p, s.devs[p])
    ensures forall a :: !ListsBar(Unmaps(s, p, s.devs[p].barCount).devs[p], a)
  {
  }

  /** Everything about every other record, up to the shrink loop. */
  lemma FreeLeavesOthers(s: State, p: Ptr, m: nat, i: nat, q: Ptr)
    requires p in s.devs && m <= |s.devs[p].bars| && i < |s.table| && s.table[i] == p && q != p
    requires Registered(Removed(Unmaps(s, p, m), i), q) <==> Registered(s, q)
    ensures Untouched(s, Removed(Unmaps(s, p, m), i), q)
  {
  }

  lemma FreeUpToShrink(s: State, p: Ptr, i: nat)
    requires Inv(s) && p in s.devs && !HoldsFd(s, p) && Registered(s, p) && RecordOk(s, p)
    requires i < s.next && s.table[i] == p
    ensures var v := Removed(Unmaps(s, p, s.devs[p].barCount), i);
            && Inv(v)
            && (forall q :: Registered(v, q) <==> Registered(s, q) && q != p)
            && (forall r :: Leaked(v, r) <==> Leaked(s, r))
  {
    UnmapsConserves(s, p, s.devs[p].barCount);
    UnmappedListsNothing(s, p);
    RemoveConserves(Unmaps(s, p, s.devs[p].barCount), i);
  }

  lemma FreeThrough(s: State, p: Ptr, io: FreeIo, mode: Shrink)
    requires Inv(s) && p in s.devs && !HoldsFd(s, p) && Registered(s, p) && Unmappable(s, p, io.unmapErrs)
    requires StopOf(s, p, io.unmapErrs) == s.devs[p].barCount
    ensures var t := FreeDeviceMem(s, p, io, mode).state;
            && Inv(t) && p !in t.devs
            && (forall r :: Leaked(t, r) <==> Leaked(s, r) || Strands(s, t, p, r))
  {
    assert RecordOk(s, p);
    FreeInSteps(s, p, io, mode);
    ShrunkLeaks(s, p, IndexOf(s.table, s.next, p), FreeDeviceMem(s, p, io, mode).state);
  }

  lemma ShrunkLeaks(s: State, p: Ptr, i: nat, t: State)
    requires Inv(s) && p in s.devs && !HoldsFd(s, p) && Registered(s, p) && RecordOk(s, p)
    requires i < s.next && s.table[i] == p && t.next <= s.next
    requires t == Removed(Unmaps(s, p, s.devs[p].barCount), i).(next := t.next)
    ensures Inv(t) && p !in t.devs
    ensures forall r :: Leaked(t, r) <==> Leaked(s, r) || Strands(s, t, p, r)
  {
    FreeUpToShrink(s, p, i);
    var v := Removed(Unmaps(s, p, s.devs[p].barCount), i);
    LowerIndex(v, t.next);
    forall q | q != p
      ensures Untouched(s, v, q)
    {
      FreeLeavesOthers(s, p, s.devs[p].barCount, i, q);
    }
    forall r
      ensures (exists q :: Drops(v, t, q) && HeldBy(v, q, r)) <==> Strands(s, t, p, r)
    {
      StrandsEither(s, v, t, p, r);
    }
  }

  lemma StrandsEither(s: State, v: State, t: State, p: Ptr, r: Resource)
    requires forall q :: Registered(v, q) <==> Registered(s, q) && q != p
    requires forall q :: q != p ==> Untouched(s, v, q)
    ensures (exists q :: Drops(v, t, q) && HeldBy(v, q, r)) <==> Strands(s, t, p, r)
  {
    forall q | q != p
      ensures HeldBy(v, q, r) <==> HeldBy(s, q, r)
      ensures Drops(v, t, q) <==> Drops(s, t, q)
    {
      assert Untouched(s, v, q);
      UntouchedHolds(s, v, q, r);
    }
    if q :| Drops(v, t, q) && HeldBy(v, q, r) {
      assert q != p && Drops(s, t, q) && HeldBy(s, q, r);
    }
    if Strands(s, t, p, r) {
      var q :| q != p && Drops(s, t, q) && HeldBy(s, q, r);
      assert Drops(v, t, q) && HeldBy(v, q, r);
    }
  }

  /** `munmap`'s error codes are not zero: the loop stops only at a descriptor whose code is not. */
  lemma StopCode(s: State, p: Ptr, io: FreeIo, mode: Shrink)
    requires s.next <= |s.table| && Unmappable(s, p, io.unmapErrs) && p != NULL
    ensures FreeDeviceMem(s, p, io, mode).code == 0 <==>
            !Registered(s, p) || StopOf(s, p, io.unmapErrs) == s.devs[p].barCount
    ensures FreeDeviceMem(s, p, io, mode).code != 0 ==>
            FreeDeviceMem(s, p, io, mode).state == Unmaps(s, p, StopOf(s, p, io.unmapErrs))
  {
    IndexOfRegistered(s, p);
  }

  /**
   `freeDeviceMem` keeps the invariant and leaks nothing but what the shrink loop strands.  Code 0 frees the record if
   the table has it, and otherwise frees nothing; an error keeps the record with exactly its unmapped BARs cleared.
   */
  lemma FreeConserves(s: State, p: Ptr, io: FreeIo, mode: Shrink)
    requires Inv(s) && Unmappable(s, p, io.unmapErrs) && !HoldsFd(s, p)
    ensures var Outcome(t, ret) := FreeDeviceMem(s, p, io, mode);
            && Inv(t)
            && (forall r :: Leaked(t, r) <==> Leaked(s, r) || Strands(s, t, p, r))
            && (ret == 0 && Registered(s, p) ==> p !in t.devs)
            && (ret == 0 && !Registered(s, p) ==> t == ShrinkTable(s, mode, io.pastNull))
            && (ret != 0 ==> Registered(s, p) && t == Unmaps(s, p, StopOf(s, p, io.unmapErrs)))
  {
    assert RecordOk(s, p);
    var Outcome(t, ret) := FreeDeviceMem(s, p, io, mode);
    IndexOfRegistered(s, p);
    StopCode(s, p, io, mode);
    if !Registered(s, p) {
      UnlistedLeaks(s, p, t);
    } else if ret == 0 {
      FreeThrough(s, p, io, mode);
    } else {
      UnmapsConserves(s, p, StopOf(s, p, io.unmapErrs));
      NothingDropped(s, p, t);
    }
  }

  /** A record the table does not have: only the index moves. */
  lemma UnlistedLeaks(s: State, p: Ptr, t: State)
    requires Inv(s) && !Registered(s, p) && t == s.(next := t.next) && t.next <= s.next
    ensures Inv(t) && forall r :: Leaked(t, r) <==> Leaked(s, r) || Strands(s, t, p, r)
  {
    LowerIndex(s, t.next);
    forall r
      ensures (exists q :: Drops(s, t, q) && HeldBy(s, q, r)) <==> Strands(s, t, p, r)
    {
      if q :| Drops(s, t, q) && HeldBy(s, q, r) {
        assert q != p;
      }
    }
  }

  lemma NothingDropped(s: State, p: Ptr, t: State)
    requires forall q :: Registered(t, q) <==> Registered(s, q)
    ensures forall r :: !Strands(s, t, p, r)
  {
  }

  // ---------------------------------------------------------------- PciDeviceClose

  /** The descriptor is closed, whoever it was opened for. */
  function FdClosed(s: State, fd: int): State
  {
    s.(fds := s.fds - {fd})
  }

  lemma FdClosedLeaks(s: State, fd: int, r: Resource)
    requires ByAcquirer(s, r) && ByAcquirer(FdClosed(s, fd), r)
    requires forall q :: Registered(FdClosed(s, fd), q) <==> Registered(s, q)
    ensures Leaked(FdClosed(s, fd), r) <==> Leaked(s, r) && r != Fd(fd)
  {
  }

  lemma CloseFdConserves(s: State, fd: int)
    requires Inv(s)
    ensures var t := FdClosed(s, fd);
            && Inv(t)
            && (forall q :: Registered(t, q) <==> Registered(s, q))
            && (forall r :: Leaked(t, r) <==> Leaked(s, r) && r != Fd(fd))
  {
    var t := FdClosed(s, fd);
    forall q | q in t.devs
      ensures RecordOk(t, q)
    {
      assert RecordOk(s, q);
      RecordStays(s, t, q);
    }
    BuffersStay(s, t);
    SameRegistered(s, t);
    forall r
      ensures Leaked(t, r) <==> Leaked(s, r) && r != Fd(fd)
    {
      LeakedByAcquirer(s, r);
      LeakedByAcquirer(t, r);
      FdClosedLeaks(s, fd, r);
    }
  }

  /** A handle is null or a live record. */
  ghost predicate Closable(s: State, h: Ptr, io: CloseIo)
  {
    h != NULL ==> Unmappable(s, h, io.free.unmapErrs)
  }

  /** The close that reaches `close`: a usable handle whose descriptor number is open. */
  predicate Reaches(s: State, h: Ptr)
  {
    Usable(s, h) && s.devs[h].fd in s.fds
  }

  /**
   Close keeps the invariant.  It changes nothing unless the handle's record has a device id and its descriptor number
   is open; then that descriptor is closed, and beyond it nothing is lost but what the shrink loop strands.
   */
  lemma CloseConserves(s: State, h: Ptr, io: CloseIo, mode: Shrink)
    requires Inv(s) && Closable(s, h, io)
    ensures var Outcome(t, ret) := Close(s, h, io, mode);
            && Inv(t)
            && (!Reaches(s, h) ==> t == s && ret != 0)
            && (Reaches(s, h) ==>
                  && t.fds == s.fds - {s.devs[h].fd}
                  && (forall r :: Leaked(t, r) <==>
                        (Leaked(s, r) && r != Fd(s.devs[h].fd)) || Strands(FdClosed(s, s.devs[h].fd), t, h, r)))
            && (ret == 0 ==> (h in t.devs <==> !Registered(s, h)))
  {
    if Reaches(s, h) {
      var fd := s.devs[h].fd;
      var c := FdClosed(s, fd);
      CloseFdConserves(s, fd);
      if io.closeErrno == 0 {
        FreeConserves(c, h, io.free, mode);
        FreeKeepsFds(c, h, io.free, mode);
      } else {
        NothingDropped(c, h, c);
      }
    }
  }

  lemma FreeKeepsFds(s: State, p: Ptr, io: FreeIo, mode: Shrink)
    requires s.next <= |s.table| && Unmappable(s, p, io.unmapErrs)
    ensures FreeDeviceMem(s, p, io, mode).state.fds == s.fds
  {
  }
}
