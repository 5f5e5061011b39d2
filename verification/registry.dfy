/**
 What a caller can and cannot rely on when closing devices: which close strands another device, what a retry does, and
 what never gets released.
 */
module Registry {
  import opened Kernel
  import opened Lifecycle
  import opened Ownership
  import opened BarLoops
  import opened Conservation
  import opened Release

  // ---------------------------------------------------------------- stranding

  /** Some registered record other than `p`. */
  ghost predicate AnotherRegistered(s: State, p: Ptr)
  {
    exists q :: q != p && Registered(s, q)
  }

  /** A record other than `p` that the call takes out of reach. */
  ghost predicate StrandsSome(s: State, t: State, p: Ptr)
  {
    exists q :: q != p && Drops(s, t, q)
  }

  /** The table after a call that gets through: `p`'s cell, if it has one, is null. */
  function TableWithout(s: State, p: Ptr): (table: seq<Ptr>)
    requires s.next <= |s.table|
    ensures |table| == |s.table|
  {
    var i := IndexOf(s.table, s.next, p);
    if i < s.next then s.table[i := NULL] else s.table
  }

  lemma FreedTable(s: State, p: Ptr, io: FreeIo, mode: Shrink)
    requires Inv(s) && Unmappable(s, p, io.unmapErrs) && FreeDeviceMem(s, p, io, mode).code == 0
    ensures var t := FreeDeviceMem(s, p, io, mode).state;
            && t.table == TableWithout(s, p)
            && t.next == Shrunk(t.table, s.next, mode, io.pastNull)
    ensures forall q :: q != p ==>
              (Registered(s, q) <==> q != NULL && exists i :: 0 <= i < s.next && TableWithout(s, p)[i] == q)
  {
    var table := TableWithout(s, p);
    forall q | q != p
      ensures Registered(s, q) <==> q != NULL && exists i :: 0 <= i < s.next && table[i] == q
    {
      if Registered(s, q) {
        var i :| 0 <= i < s.next && s.table[i] == q;
        assert table[i] == q;
      }
      if i :| 0 <= i < s.next && table[i] == q && q != NULL {
        assert s.table[i] == q;
      }
    }
  }

  /** With the cell its comment names, the loop never takes a registered record out of reach. */
  lemma CommentedNeverStrands(s: State, p: Ptr, io: FreeIo)
    requires Inv(s) && Unmappable(s, p, io.unmapErrs)
    ensures !StrandsSome(s, FreeDeviceMem(s, p, io, AsCommented).state, p)
  {
    var Outcome(t, ret) := FreeDeviceMem(s, p, io, AsCommented);
    if ret == 0 {
      FreedTable(s, p, io, AsCommented);
      CommentedShrink(t.table, s.next, io.pastNull);
      forall q | q != p && Registered(s, q)
        ensures Registered(t, q)
      {
        var i :| 0 <= i < s.next && t.table[i] == q;
        assert i < t.next;
      }
    } else {
      StopCode(s, p, io, AsCommented);
      SameRegistered(s, t);
    }
  }

  /** Whatever a call that gets through drops is the entry the loop stopped at. */
  lemma DroppedIsLast(s: State, p: Ptr, io: FreeIo, q: Ptr)
    requires Inv(s) && Unmappable(s, p, io.unmapErrs) && FreeDeviceMem(s, p, io, AsWritten).code == 0
    requires q != p && Drops(s, FreeDeviceMem(s, p, io, AsWritten).state, q)
    ensures var t := FreeDeviceMem(s, p, io, AsWritten).state;
            t.next < s.next && t.table[t.next] == q && NextIsNull(s.table, s.next, io.pastNull)
  {
    FreedTable(s, p, io, AsWritten);
    DroppedByShrink(s, p, FreeDeviceMem(s, p, io, AsWritten).state, io.pastNull, q);
  }

  lemma DroppedByShrink(s: State, p: Ptr, t: State, pastNull: bool, q: Ptr)
    requires s.next <= |s.table| && q != NULL && !Registered(t, q)
    requires t.table == TableWithout(s, p) && t.next == Shrunk(t.table, s.next, AsWritten, pastNull)
    requires exists i :: 0 <= i < s.next && t.table[i] == q
    ensures t.next < s.next && t.table[t.next] == q && NextIsNull(s.table, s.next, pastNull)
  {
    WrittenShrink(t.table, s.next, pastNull);
    var i :| 0 <= i < s.next && t.table[i] == q;
    assert i >= t.next;
    assert NextIsNull(t.table, s.next, pastNull) == NextIsNull(s.table, s.next, pastNull);
  }

  /** The entry the loop stops at is another device, and not registered any more. */
  lemma StopsAtAnother(s: State, p: Ptr, t: State, pastNull: bool, q: Ptr)
    requires TableOk(s) && s.next > 0 && NextIsNull(s.table, s.next, pastNull)
    requires t.table == TableWithout(s, p) && t.next == Shrunk(t.table, s.next, AsWritten, pastNull)
    requires q != p && q != NULL && exists i :: 0 <= i < s.next && t.table[i] == q
    ensures t.next < s.next && t.table[t.next] != NULL && t.table[t.next] != p
    ensures !Registered(t, t.table[t.next])
  {
    WrittenShrink(t.table, s.next, pastNull);
    assert NextIsNull(t.table, s.next, pastNull) == NextIsNull(s.table, s.next, pastNull);
    assert forall i :: 0 <= i < t.next ==> t.table[i] == NULL || t.table[i] != t.table[t.next];
  }

  /** When the cell at `iNewDev` reads null, the last device left is dropped. */
  lemma LastIsDropped(s: State, p: Ptr, io: FreeIo)
    requires Inv(s) && Unmappable(s, p, io.unmapErrs) && FreeDeviceMem(s, p, io, AsWritten).code == 0
    requires s.next > 0 && NextIsNull(s.table, s.next, io.pastNull) && AnotherRegistered(s, p)
    ensures StrandsSome(s, FreeDeviceMem(s, p, io, AsWritten).state, p)
  {
    var t := FreeDeviceMem(s, p, io, AsWritten).state;
    FreedTable(s, p, io, AsWritten);
    var q :| q != p && Registered(s, q);
    StopsAtAnother(s, p, t, io.pastNull, q);
    var z := t.table[t.next];
    assert Registered(s, z) && Drops(s, t, z);
  }

  /**
   As written, a release that gets through strands another device exactly when the cell at `iNewDev` reads null and
   another device is registered; the one stranded is then the last one registered.
   */
  lemma WrittenStrandsExactly(s: State, p: Ptr, io: FreeIo)
    requires Inv(s) && Unmappable(s, p, io.unmapErrs) && FreeDeviceMem(s, p, io, AsWritten).code == 0
    ensures StrandsSome(s, FreeDeviceMem(s, p, io, AsWritten).state, p) <==>
            s.next > 0 && NextIsNull(s.table, s.next, io.pastNull) && AnotherRegistered(s, p)
  {
    var t := FreeDeviceMem(s, p, io, AsWritten).state;
    if s.next > 0 && NextIsNull(s.table, s.next, io.pastNull) && AnotherRegistered(s, p) {
      LastIsDropped(s, p, io);
    }
    if StrandsSome(s, t, p) {
      var q :| q != p && Drops(s, t, q);
      DroppedIsLast(s, p, io, q);
    }
  }

  lemma EmptyInv()
    ensures Inv(EMPTY) && EMPTY.next == 0 && EMPTY.table[2] == NULL && forall r :: !Live(EMPTY, r)
  {
  }

  lemma OpenShape(s: State, slot: Slot, io: OpenIo)
    requires Inv(s) && s.next < TABLE_SIZE && OpenOk(s, Some(slot), io)
    requires Opened(Open(s, true, Some(slot), io))
    ensures var OpenOutcome(t, _, h) := Open(s, true, Some(slot), io);
            && h == io.record && h !in s.devs && io.fd !in s.fds
            && t.table == s.table[s.next := h] && t.next == s.next + 1 && t.fds == s.fds[io.fd := h]
            && h in t.devs && t.devs[h].fd == io.fd && t.devs[h].deviceId == io.deviceId
            && forall q :: q in s.devs ==> q in t.devs && t.devs[q] == s.devs[q]
  {
    OpenedIsFilled(s, slot, io);
    FillFrames(Entered(s, slot, io), io.record, io.fill);
    FilledShape(s, slot, io, Fill(Entered(s, slot, io), io.record, io.fill).state);
  }

  lemma OpenedIsFilled(s: State, slot: Slot, io: OpenIo)
    requires s.next < |s.table| && |io.fill.bars| == BAR_SLOTS && Opened(Open(s, true, Some(slot), io))
    ensures Open(s, true, Some(slot), io) ==
            OpenOutcome(Fill(Entered(s, slot, io), io.record, io.fill).state, 0, io.record)
  {
  }

  lemma FilledShape(s: State, slot: Slot, io: OpenIo, t: State)
    requires s.next < |s.table| && io.record !in s.devs && FillFrame(Entered(s, slot, io), t, io.record)
    ensures t.table == s.table[s.next := io.record] && t.next == s.next + 1 && t.fds == s.fds[io.fd := io.record]
    ensures io.record in t.devs && t.devs[io.record].fd == io.fd && t.devs[io.record].deviceId == io.deviceId
    ensures forall q :: q in s.devs ==> q in t.devs && t.devs[q] == s.devs[q]
  {
  }

  /** Exactly two cells in use, by devices that hold their descriptors, and the next cell null. */
  ghost predicate TwoOpen(s: State, a: Ptr, b: Ptr)
  {
    && |s.table| == TABLE_SIZE && s.next == 2 && s.table[2] == NULL
    && a != b && a != NULL && b != NULL
    && ((s.table[0] == a && s.table[1] == b) || (s.table[0] == b && s.table[1] == a))
    && HoldsFd(s, a) && HoldsFd(s, b)
  }

  /** Opening a second device when one is open in the first cell gives that state. */
  lemma SecondOpen(s: State, a: Ptr, slot: Slot, io: OpenIo)
    requires Inv(s) && s.next == 1 && s.table[0] == a && s.table[2] == NULL && a != NULL && HoldsFd(s, a)
    requires OpenOk(s, Some(slot), io) && Opened(Open(s, true, Some(slot), io))
    ensures var t := Open(s, true, Some(slot), io).state;
            Inv(t) && TwoOpen(t, a, io.record)
  {
    OpenConserves(s, true, Some(slot), io);
    OpenShape(s, slot, io);
    SecondEntry(s, Open(s, true, Some(slot), io).state, a, io);
  }

  lemma SecondEntry(s: State, t: State, a: Ptr, io: OpenIo)
    requires |s.table| == TABLE_SIZE && s.next == 1 && s.table[0] == a && s.table[2] == NULL && a != NULL
    requires HoldsFd(s, a) && HoldsFd(t, io.record) && io.record != NULL && io.record !in s.devs && io.fd !in s.fds
    requires t.table == s.table[1 := io.record] && t.next == 2 && t.fds == s.fds[io.fd := io.record]
    requires a in t.devs && t.devs[a] == s.devs[a]
    ensures TwoOpen(t, a, io.record)
  {
  }

  /**
   Two devices are open and one is closed without error: the other is out of reach.  Closing it too reports success,
   closes its descriptor, and frees neither its record nor any of its mappings.
   */
  lemma SecondCloseFreesNothing(s: State, a: Ptr, b: Ptr, io1: CloseIo, io2: CloseIo)
    requires Inv(s) && TwoOpen(s, a, b)
    requires Unmappable(s, a, io1.free.unmapErrs) && |io2.free.unmapErrs| == BAR_SLOTS
    requires Close(s, a, io1, AsWritten).code == 0
    ensures var t := Close(s, a, io1, AsWritten).state;
            && Inv(t) && a !in t.devs && !Registered(t, b) && HoldsFd(t, b) && Unmappable(t, b, io2.free.unmapErrs)
            && var Outcome(u, code) := Close(t, b, io2, AsWritten);
               && (t.devs[b].deviceId != 0 && io2.closeErrno == 0 ==> code == 0)
               && (code == 0 ==> b in u.devs && u.maps == t.maps)
  {
    var t := Close(s, a, io1, AsWritten).state;
    FirstCloseStrands(s, a, b, io1);
    assert RecordOk(t, b);
    CloseUnregistered(t, b, io2);
  }

  lemma FirstCloseStrands(s: State, a: Ptr, b: Ptr, io: CloseIo)
    requires Inv(s) && TwoOpen(s, a, b) && Unmappable(s, a, io.free.unmapErrs)
    requires Close(s, a, io, AsWritten).code == 0
    ensures var t := Close(s, a, io, AsWritten).state;
            Inv(t) && a !in t.devs && b in t.devs && !Registered(t, b) && HoldsFd(t, b)
  {
    var t := Close(s, a, io, AsWritten).state;
    CloseConserves(s, a, io, AsWritten);
    CloseReleases(s, a, io, AsWritten);
    var c := FdClosed(s, s.devs[a].fd);
    CloseFdConserves(s, s.devs[a].fd);
    TwoRegistered(c, a, b);
    FreeKeepsOthers(c, a, io.free, AsWritten, b);
    OtherIsDropped(c, a, b, io.free);
    HoldsTransfer(s, t, a, b);
  }

  lemma TwoRegistered(s: State, a: Ptr, b: Ptr)
    requires |s.table| == TABLE_SIZE && s.next == 2 && a != NULL && b != NULL
    requires (s.table[0] == a && s.table[1] == b) || (s.table[0] == b && s.table[1] == a)
    ensures forall q :: Registered(s, q) <==> q == a || q == b
  {
    assert s.table[0] == a || s.table[1] == a;
    assert s.table[0] == b || s.table[1] == b;
  }

  lemma OtherIsDropped(s: State, a: Ptr, b: Ptr, io: FreeIo)
    requires Inv(s) && Unmappable(s, a, io.unmapErrs) && s.next == 2 && s.table[2] == NULL && a != b
    requires forall q :: Registered(s, q) <==> q == a || q == b
    requires FreeDeviceMem(s, a, io, AsWritten).code == 0
    ensures !Registered(FreeDeviceMem(s, a, io, AsWritten).state, b)
  {
    assert Registered(s, b);
    LastIsDropped(s, a, io);
    var q :| q != a && Drops(s, FreeDeviceMem(s, a, io, AsWritten).state, q);
    assert q == b;
  }

  lemma HoldsTransfer(s: State, t: State, a: Ptr, b: Ptr)
    requires HoldsFd(s, a) && HoldsFd(s, b) && a != b
    requires b in t.devs && t.devs[b] == s.devs[b] && t.fds == s.fds - {s.devs[a].fd}
    ensures HoldsFd(t, b)
  {
  }

  /** A close that returns 0 went through: the descriptor is closed and the release ran to its end. */
  lemma CloseReleases(s: State, h: Ptr, io: CloseIo, mode: Shrink)
    requires s.next <= |s.table| && Closable(s, h, io) && Close(s, h, io, mode).code == 0
    ensures Reaches(s, h) && io.closeErrno == 0
    ensures Close(s, h, io, mode) == FreeDeviceMem(FdClosed(s, s.devs[h].fd), h, io.free, mode)
  {
  }

  lemma FreeKeepsOthers(s: State, p: Ptr, io: FreeIo, mode: Shrink, q: Ptr)
    requires s.next <= |s.table| && Unmappable(s, p, io.unmapErrs) && q in s.devs && q != p && p != NULL
    ensures var t := FreeDeviceMem(s, p, io, mode).state; q in t.devs && t.devs[q] == s.devs[q] && t.fds == s.fds
  {
    FreeKeepsFds(s, p, io, mode);
    StopCode(s, p, io, mode);
    if Registered(s, p) && StopOf(s, p, io.unmapErrs) == s.devs[p].barCount {
      FreeInSteps(s, p, io, mode);
    }
    IndexOfRegistered(s, p);
  }

  lemma CloseUnregistered(s: State, h: Ptr, io: CloseIo)
    requires Inv(s) && h != NULL && !Registered(s, h) && Unmappable(s, h, io.free.unmapErrs)
    ensures var Outcome(t, code) := Close(s, h, io, AsWritten);
            && (Reaches(s, h) && io.closeErrno == 0 ==> code == 0)
            && (code == 0 ==> t.devs == s.devs && t.maps == s.maps)
  {
    IndexOfRegistered(s, h);
  }

  // ---------------------------------------------------------------- what a close cannot do

  /**
   When a close returns 0: the record has a device id, its descriptor number is open, `close` reports no error, and if
   the table has the record every BAR it still maps unmaps.
   */
  lemma CloseSucceedsExactly(s: State, h: Ptr, io: CloseIo, mode: Shrink)
    requires s.next <= |s.table| && Closable(s, h, io)
    ensures Close(s, h, io, mode).code == 0 <==>
              && Reaches(s, h) && io.closeErrno == 0
              && (Registered(s, h) ==> StopOf(s, h, io.free.unmapErrs) == s.devs[h].barCount)
  {
    if Reaches(s, h) && io.closeErrno == 0 {
      var c := FdClosed(s, s.devs[h].fd);
      StopCode(c, h, io.free, mode);
      SameRegistered(s, c);
    }
  }

  /** Opening does not look at the device id. */
  lemma OpenIgnoresId(s: State, slot: Slot, io: OpenIo, deviceId: nat)
    requires s.next < |s.table| && |io.fill.bars| == BAR_SLOTS
    ensures var o, z := Open(s, true, Some(slot), io), Open(s, true, Some(slot), io.(deviceId := deviceId));
            o.code == z.code && o.handle == z.handle
  {
  }

  /** A record with device id 0 is refused by every close, which changes nothing. */
  lemma ZeroIdRefused(s: State, h: Ptr, io: CloseIo, mode: Shrink)
    requires s.next <= |s.table| && Closable(s, h, io) && h != NULL && s.devs[h].deviceId == 0
    ensures Close(s, h, io, mode) == Outcome(s, -EINVAL)
  {
  }

  /**
   A close that failed after closing the descriptor cannot be retried: while the number stays closed every further
   attempt fails and changes nothing.
   */
  lemma CloseRetryFails(s: State, h: Ptr, io: CloseIo, again: CloseIo, mode: Shrink)
    requires s.next <= |s.table| && Closable(s, h, io) && Closable(s, h, again)
    requires Reaches(s, h) && Close(s, h, io, mode).code != 0
    ensures var t := Close(s, h, io, mode).state;
            t.next <= |t.table| && Closable(t, h, again) && Close(t, h, again, mode) == Outcome(t, EBADF)
  {
    var c := FdClosed(s, s.devs[h].fd);
    if io.closeErrno == 0 {
      StopCode(c, h, io.free, mode);
    }
  }

  /**
   A close takes the descriptor of another record exactly when its own is closed and the number has been given out
   again; the other device then no longer holds its descriptor.
   */
  lemma CloseTakesForeignFd(s: State, h: Ptr, q: Ptr, io: CloseIo, mode: Shrink)
    requires Inv(s) && Closable(s, h, io) && Usable(s, h) && q != h && HoldsFd(s, q)
    ensures HoldsFd(Close(s, h, io, mode).state, q) <==> s.devs[q].fd != s.devs[h].fd
  {
    CloseConserves(s, h, io, mode);
    var c := FdClosed(s, s.devs[h].fd);
    FreeKeepsOthers(c, h, io.free, mode, q);
  }

  // ---------------------------------------------------------------- retrying freeDeviceMem

  /** What a release leaves, said without its loops: the record and everything it lists are gone. */
  ghost predicate FreedOnce(s: State, t: State, p: Ptr, mode: Shrink, pastNull: bool)
    requires s.next <= |s.table| && p in s.devs
  {
    && t.table == TableWithout(s, p) && t.next == Shrunk(t.table, s.next, mode, pastNull)
    && t.devs == s.devs - {p}
    && (forall a :: a in t.maps <==> a in s.maps && !ListsBar(s.devs[p], a))
    && (forall a :: a in t.maps ==> t.maps[a] == s.maps[a])
    && t == s.(table := t.table, next := t.next, devs := t.devs, maps := t.maps)
  }

  /** That says everything: two states a release can leave are the same. */
  lemma FreedOnceUnique(s: State, t: State, u: State, p: Ptr, mode: Shrink, pastNull: bool)
    requires s.next <= |s.table| && p in s.devs
    requires FreedOnce(s, t, p, mode, pastNull) && FreedOnce(s, u, p, mode, pastNull)
    ensures t == u
  {
    assert t.maps == u.maps;
  }

  lemma FreeFreesOnce(s: State, p: Ptr, io: FreeIo, mode: Shrink)
    requires Inv(s) && Unmappable(s, p, io.unmapErrs) && Registered(s, p)
    requires FreeDeviceMem(s, p, io, mode).code == 0
    ensures FreedOnce(s, FreeDeviceMem(s, p, io, mode).state, p, mode, io.pastNull)
  {
    assert RecordOk(s, p);
    StopCode(s, p, io, mode);
    FreeInSteps(s, p, io, mode);
    UnmapsLists(s, p, s.devs[p].barCount);
    UnmapsOwn(s, p, s.devs[p].barCount);
    UnmappedListsNothing(s, p);
  }

  /** A failed attempt, then a release: the same as a release at once. */
  lemma FailedThenFreed(s: State, p: Ptr, m: nat, t: State, mode: Shrink, pastNull: bool)
    requires Inv(s) && p in s.devs && m <= s.devs[p].barCount && m <= |s.devs[p].bars|
    requires FreedOnce(Unmaps(s, p, m), t, p, mode, pastNull)
    ensures FreedOnce(s, t, p, mode, pastNull)
  {
    assert RecordOk(s, p);
    UnmapsOwn(s, p, m);
    UnmapsLists(s, p, m);
    assert Unmaps(s, p, m).devs - {p} == s.devs - {p};
  }

  lemma StillUnmappable(s: State, p: Ptr, m: nat, ios: seq<FreeIo>)
    requires ios != [] && p in s.devs && m <= |s.devs[p].bars|
    requires forall i :: 0 <= i < |ios| ==> Unmappable(s, p, ios[i].unmapErrs)
    ensures forall i :: 0 <= i < |ios[1..]| ==> Unmappable(Unmaps(s, p, m), p, ios[1..][i].unmapErrs)
  {
    forall i | 0 <= i < |ios[1..]|
      ensures Unmappable(Unmaps(s, p, m), p, ios[1..][i].unmapErrs)
    {
      assert Unmappable(s, p, ios[i + 1].unmapErrs);
    }
  }

  /** Calls of `freeDeviceMem` on one record until one gets through, if one does. */
  ghost function Attempts(s: State, p: Ptr, ios: seq<FreeIo>, mode: Shrink): Option<State>
    requires s.next <= |s.table| && p != NULL
    requires forall i :: 0 <= i < |ios| ==> Unmappable(s, p, ios[i].unmapErrs)
    decreases |ios|
  {
    if ios == [] then None
    else
      StopCode(s, p, ios[0], mode);
      var Outcome(t, ret) := FreeDeviceMem(s, p, ios[0], mode);
      if ret == 0 then Some(t)
      else
        StillUnmappable(s, p, StopOf(s, p, ios[0].unmapErrs), ios);
        Attempts(t, p, ios[1..], mode)
  }

  /**
   However many attempts fail and wherever each breaks off, the attempt that gets through leaves what a single call
   would have left: every mapping of the record gone once, the record freed once, nothing else touched.
   */
  lemma {:induction false} RetriesEqualOneCall(s: State, p: Ptr, ios: seq<FreeIo>, mode: Shrink)
    requires Inv(s) && p in s.devs && p != NULL && !HoldsFd(s, p) && Registered(s, p)
    requires forall i :: 0 <= i < |ios| ==> Unmappable(s, p, ios[i].unmapErrs)
    requires Attempts(s, p, ios, mode).Some?
    ensures exists i :: 0 <= i < |ios| && FreedOnce(s, Attempts(s, p, ios, mode).value, p, mode, ios[i].pastNull)
    decreases |ios|
  {
    var io := ios[0];
    StopCode(s, p, io, mode);
    if FreeDeviceMem(s, p, io, mode).code == 0 {
      FreeFreesOnce(s, p, io, mode);
    } else {
      var m := StopOf(s, p, io.unmapErrs);
      var t := Unmaps(s, p, m);
      UnmapsConserves(s, p, m);
      RetriesEqualOneCall(t, p, ios[1..], mode);
      var end := Attempts(s, p, ios, mode).value;
      var j :| 0 <= j < |ios| - 1 && FreedOnce(t, end, p, mode, ios[1..][j].pastNull);
      FailedThenFreed(s, p, m, end, mode, ios[j + 1].pastNull);
    }
  }

  /** Which attempt unmaps each descriptor, in an order that a run of attempts can follow. */
  ghost predicate Plan(bars: seq<Bar>, n: nat, ios: seq<FreeIo>, plan: seq<nat>)
    requires n <= |bars|
  {
    && |plan| == n
    && (forall b :: 0 <= b < n ==> plan[b] < |ios|)
    && (forall b, c :: 0 <= b < c < n ==> plan[b] <= plan[c])
    && (forall b :: 0 <= b < n ==> bars[b].userAddress == NULL ||
                                   (b < |ios[plan[b]].unmapErrs| && ios[plan[b]].unmapErrs[b] == 0))
  }

  ghost predicate Plannable(bars: seq<Bar>, n: nat, ios: seq<FreeIo>)
    requires n <= |bars|
  {
    ios != [] && exists plan: seq<nat> :: Plan(bars, n, ios, plan)
  }

  /** The first attempt of a plan that gets further is the first call, as far as `m`. */
  lemma PlanEarlier(bars: seq<Bar>, n: nat, ios: seq<FreeIo>, m: nat, later: seq<nat>) returns (plan: seq<nat>)
    requires n <= |bars| && m <= n && ios != [] && n <= |ios[0].unmapErrs|
    requires forall b :: 0 <= b < m ==> UnmapWorks(bars, ios[0].unmapErrs, b)
    requires Plan(Cleared(bars, m), n, ios[1..], later)
    ensures Plan(bars, n, ios, plan)
  {
    plan := seq(n, b requires 0 <= b < n => if b < m then 0 else later[b] + 1);
    forall b | 0 <= b < n
      ensures bars[b].userAddress == NULL ||
              (b < |ios[plan[b]].unmapErrs| && ios[plan[b]].unmapErrs[b] == 0)
    {
      assert UnmapWorks(bars, ios[0].unmapErrs, b) || m <= b;
      assert m <= b ==> Cleared(bars, m)[b] == bars[b] && ios[plan[b]] == ios[1..][later[b]];
    }
  }

  /** A plan leaves a plan for what the first call does not get through. */
  lemma PlanLater(bars: seq<Bar>, n: nat, ios: seq<FreeIo>, m: nat, plan: seq<nat>) returns (later: seq<nat>)
    requires n <= |bars| && m < n && ios != [] && n <= |ios[0].unmapErrs| && Plan(bars, n, ios, plan)
    requires !UnmapWorks(bars, ios[0].unmapErrs, m)
    ensures ios[1..] != [] && Plan(Cleared(bars, m), n, ios[1..], later)
  {
    assert plan[m] > 0;
    later := seq(n, b requires 0 <= b < n => if b < m then 0 else plan[b] - 1);
    forall b | 0 <= b < n
      ensures Cleared(bars, m)[b].userAddress == NULL ||
              (b < |ios[1..][later[b]].unmapErrs| && ios[1..][later[b]].unmapErrs[b] == 0)
    {
      assert m <= b ==> ios[1..][later[b]] == ios[plan[b]];
    }
  }

  lemma FirstSuffices(bars: seq<Bar>, n: nat, ios: seq<FreeIo>)
    requires n <= |bars| && ios != [] && n <= |ios[0].unmapErrs|
    requires forall b :: 0 <= b < n ==> UnmapWorks(bars, ios[0].unmapErrs, b)
    ensures Plannable(bars, n, ios)
  {
    var plan: seq<nat> := seq(n, _ => 0);
    forall b | 0 <= b < n
      ensures bars[b].userAddress == NULL || ios[plan[b]].unmapErrs[b] == 0
    {
      assert UnmapWorks(bars, ios[0].unmapErrs, b);
    }
    assert Plan(bars, n, ios, plan);
  }

  /**
   When a run of attempts frees the record: exactly when each BAR still mapped can be given an attempt in which its
   `munmap` works, none an earlier one than the BAR before it.  One attempt in which none fails is enough.
   */
  lemma {:induction false} AttemptsSucceedExactly(s: State, p: Ptr, ios: seq<FreeIo>, mode: Shrink)
    requires s.next <= |s.table| && p in s.devs && p != NULL && Registered(s, p)
    requires |s.devs[p].bars| == BAR_SLOTS && s.devs[p].barCount <= BAR_SLOTS
    requires forall i :: 0 <= i < |ios| ==> Unmappable(s, p, ios[i].unmapErrs)
    ensures Attempts(s, p, ios, mode).Some? <==> Plannable(s.devs[p].bars, s.devs[p].barCount, ios)
    decreases |ios|
  {
    if ios != [] {
      var io, bars, n := ios[0], s.devs[p].bars, s.devs[p].barCount;
      assert Unmappable(s, p, io.unmapErrs);
      StopCode(s, p, io, mode);
      var m := StopOf(s, p, io.unmapErrs);
      if m == n {
        FirstSuffices(bars, n, ios);
      } else {
        var t := Unmaps(s, p, m);
        SameRegistered(s, t);
        StillUnmappable(s, p, m, ios);
        AttemptsSucceedExactly(t, p, ios[1..], mode);
        if Plannable(bars, n, ios) {
          var plan: seq<nat> :| Plan(bars, n, ios, plan);
          var later := PlanLater(bars, n, ios, m, plan);
        }
        if Plannable(Cleared(bars, m), n, ios[1..]) {
          var later: seq<nat> :| Plan(Cleared(bars, m), n, ios[1..], later);
          var plan := PlanEarlier(bars, n, ios, m, later);
        }
      }
    }
  }

  lemma CleanAttemptSuffices(s: State, p: Ptr, ios: seq<FreeIo>, mode: Shrink, k: nat)
    requires s.next <= |s.table| && p in s.devs && p != NULL && Registered(s, p)
    requires |s.devs[p].bars| == BAR_SLOTS && s.devs[p].barCount <= BAR_SLOTS
    requires forall i :: 0 <= i < |ios| ==> Unmappable(s, p, ios[i].unmapErrs)
    requires k < |ios| && forall b :: 0 <= b < |ios[k].unmapErrs| ==> ios[k].unmapErrs[b] == 0
    ensures Attempts(s, p, ios, mode).Some?
  {
    AttemptsSucceedExactly(s, p, ios, mode);
    assert Unmappable(s, p, ios[k].unmapErrs);
    assert Plan(s.devs[p].bars, s.devs[p].barCount, ios, seq(s.devs[p].barCount, _ => k));
  }

  // ---------------------------------------------------------------- open and close

  /** What a successful open adds: one record in the next cell, one descriptor, and the mappings that record lists. */
  ghost predicate AddsDevice(s: State, t: State, h: Ptr)
  {
    && s.next < |s.table| && h != NULL && h !in s.devs && h in t.devs
    && t == s.(table := s.table[s.next := h], next := s.next + 1, devs := t.devs, fds := t.fds, maps := t.maps)
    && t.devs - {h} == s.devs
    && t.devs[h].fd !in s.fds && t.fds == s.fds[t.devs[h].fd := h]
    && (forall a :: a in s.maps ==> a in t.maps && t.maps[a] == s.maps[a])
    && (forall a :: a in t.maps && a !in s.maps <==> ListsBar(t.devs[h], a))
  }

  lemma OpenAdds(s: State, slot: Slot, io: OpenIo)
    requires Inv(s) && s.next < TABLE_SIZE && OpenOk(s, Some(slot), io)
    requires Opened(Open(s, true, Some(slot), io))
    ensures var OpenOutcome(t, _, h) := Open(s, true, Some(slot), io);
            h == io.record && AddsDevice(s, t, h)
  {
    var OpenOutcome(t, _, h) := Open(s, true, Some(slot), io);
    EnterConserves(s, slot, io);
    OpenFills(Entered(s, slot, io), t, h, io);
    FilledAdds(s, Entered(s, slot, io), t, slot, io);
  }

  lemma FilledAdds(s: State, e: State, t: State, slot: Slot, io: OpenIo)
    requires s.next < |s.table| && FreshBlock(s, io.record) && io.fd !in s.fds && e == Entered(s, slot, io)
    requires FillFrame(e, t, io.record) && forall a :: a in t.maps && a !in e.maps <==> ListsBar(t.devs[io.record], a)
    ensures AddsDevice(s, t, io.record)
  {
    assert t.devs - {io.record} == s.devs;
  }

  lemma OpenFills(e: State, t: State, h: Ptr, io: OpenIo)
    requires Inv(e) && h in e.devs && e.devs[h].barCount == 0 && FillOk(e, io.fill)
    requires Fill(e, h, io.fill) == Outcome(t, 0)
    ensures FillFrame(e, t, h) && forall a :: a in t.maps && a !in e.maps <==> ListsBar(t.devs[h], a)
  {
    assert RecordOk(e, h);
    FillFrames(e, h, io.fill);
    FillCode(e, h, io.fill);
    FilledLists(e, h, io.fill);
  }

  /** Releasing what was added takes it all away again. */
  lemma FreedWhatWasAdded(s: State, t: State, h: Ptr, u: State, mode: Shrink, pastNull: bool)
    requires TableOk(s) && AddsDevice(s, t, h) && forall i :: 0 <= i < s.next ==> s.table[i] != h
    requires FreedOnce(FdClosed(t, t.devs[h].fd), u, h, mode, pastNull)
    ensures u == s.(table := s.table[s.next := NULL], next := u.next)
    ensures u.next == Shrunk(s.table[s.next := NULL], s.next + 1, mode, pastNull)
  {
    assert s.fds[t.devs[h].fd := h] - {t.devs[h].fd} == s.fds;
    assert IndexOf(t.table, t.next, h) == s.next;
    assert u.table == s.table[s.next := NULL];
    assert u.maps == s.maps;
  }

  lemma CloseFreesOnce(s: State, h: Ptr, io: CloseIo, mode: Shrink)
    requires Inv(s) && Closable(s, h, io) && Registered(s, h) && h in s.devs && Close(s, h, io, mode).code == 0
    ensures FreedOnce(FdClosed(s, s.devs[h].fd), Close(s, h, io, mode).state, h, mode, io.free.pastNull)
  {
    CloseReleases(s, h, io, mode);
    CloseFdConserves(s, s.devs[h].fd);
    FreeFreesOnce(FdClosed(s, s.devs[h].fd), h, io.free, mode);
  }

  lemma AddedThenFreed(s: State, t: State, h: Ptr, u: State, mode: Shrink, pastNull: bool)
    requires TableOk(s) && AddsDevice(s, t, h) && forall i :: 0 <= i < s.next ==> s.table[i] != h
    requires FreedOnce(FdClosed(t, t.devs[h].fd), u, h, mode, pastNull)
    ensures u == s.(table := s.table[s.next := NULL], next := u.next)
    ensures mode == AsCommented && (s.next == 0 || s.table[s.next - 1] != NULL) ==> u.next == s.next
  {
    FreedWhatWasAdded(s, t, h, u, mode, pastNull);
    if mode == AsCommented {
      CommentedShrink(u.table, s.next + 1, pastNull);
    }
  }

  /**
   Closing a device right after opening it gives back every descriptor, mapping and record: the state is as before but
   for the index, which is back too if the shrink loop tests the cell its comment names and the table had no null cell
   at its end.
   */
  lemma CloseUndoesOpen(s: State, slot: Slot, io: OpenIo, close: CloseIo, mode: Shrink, t: State, h: Ptr)
    requires Inv(s) && s.next < TABLE_SIZE && OpenOk(s, Some(slot), io)
    requires Open(s, true, Some(slot), io) == OpenOutcome(t, 0, h) && h != NULL
    requires t.next <= |t.table| && Closable(t, h, close) && Close(t, h, close, mode).code == 0
    ensures var u := Close(t, h, close, mode).state;
            && u == s.(table := s.table[s.next := NULL], next := u.next)
            && (mode == AsCommented && (s.next == 0 || s.table[s.next - 1] != NULL) ==> u.next == s.next)
  {
    OpenAdds(s, slot, io);
    OpenConserves(s, true, Some(slot), io);
    CloseFreesOnce(t, h, close, mode);
    AddedThenFreed(s, t, h, Close(t, h, close, mode).state, mode, close.free.pastNull);
  }
}
