/** What the BARs of an open device hold over whole runs, in which everything else may happen as well. */
module BarContents {
  import opened Kernel
  import opened Lifecycle
  import opened Ownership
  import opened BarLoops
  import opened Conservation
  import opened Release
  import opened Registry
  import opened Runs
  import opened Registers
  import opened LittleEndian

  /** The record of `h` is the same, and so is what its descriptor `i` maps. */
  ghost predicate SameWindow(s: State, t: State, h: Ptr, i: nat)
  {
    && HasWindow(s, h, i) && HasWindow(t, h, i) && t.devs[h] == s.devs[h] && Window(t, h, i) == Window(s, h, i)
  }

  /** The mapping of an open device's descriptor, and whose it is. */
  lemma WindowOwned(s: State, h: Ptr, i: nat)
    requires Inv(s) && HasWindow(s, h, i)
    ensures var a := s.devs[h].bars[i].userAddress;
            && a != NULL && s.maps[a].owner == h && s.devs[h].barCount > 0
            && h !in s.dma.contigs && h !in s.dma.sgs
  {
    assert RecordOk(s, h);
    assert MappedFor(s.maps, h, s.devs[h].bars[i]);
  }

  /** Mappings of the device stay, and so does its record. */
  lemma OwnMapsStay(s: State, t: State, h: Ptr, i: nat)
    requires Inv(s) && HasWindow(s, h, i) && h in t.devs && t.devs[h] == s.devs[h]
    requires forall a :: a in s.maps && s.maps[a].owner == h ==> a in t.maps && t.maps[a] == s.maps[a]
    ensures SameWindow(s, t, h, i)
  {
    WindowOwned(s, h, i);
  }

  lemma OpenKeepsWindow(s: State, hasOut: bool, slot: Option<Slot>, io: OpenIo, h: Ptr, i: nat)
    requires Inv(s) && s.next < TABLE_SIZE && OpenOk(s, slot, io) && HasWindow(s, h, i)
    ensures SameWindow(s, Open(s, hasOut, slot, io).state, h, i)
  {
    var o := Open(s, hasOut, slot, io);
    OpenConserves(s, hasOut, slot, io);
    if Opened(o) {
      OpenAdds(s, slot.value, io);
      OpenShape(s, slot.value, io);
    }
    OwnMapsStay(s, o.state, h, i);
  }

  lemma BarsKeepWindow(s: State, p: Ptr, hasOut: bool, io: FillIo, h: Ptr, i: nat)
    requires Inv(s) && FillOk(s, io) && HasWindow(s, h, i)
    ensures SameWindow(s, GetBars(s, p, hasOut, io).state, h, i)
  {
    WindowOwned(s, h, i);
    if Usable(s, p) && hasOut {
      FillConserves(s, p, io);
      FillCode(s, p, io);
      OwnMapsStay(s, Fill(s, p, io).state, h, i);
    }
  }

  /** A release takes no mapping of another record. */
  lemma FreeKeepsWindow(s: State, p: Ptr, io: FreeIo, mode: Shrink, h: Ptr, i: nat)
    requires Inv(s) && Unmappable(s, p, io.unmapErrs) && p != NULL && p != h && HasWindow(s, h, i)
    ensures SameWindow(s, FreeDeviceMem(s, p, io, mode).state, h, i)
  {
    var Outcome(t, ret) := FreeDeviceMem(s, p, io, mode);
    assert RecordOk(s, p);
    FreeKeepsOthers(s, p, io, mode, h);
    WindowOwned(s, h, i);
    IndexOfRegistered(s, p);
    if Registered(s, p) {
      UnmapsOwn(s, p, StopOf(s, p, io.unmapErrs));
      StopCode(s, p, io, mode);
      if ret == 0 {
        FreeInSteps(s, p, io, mode);
      }
    }
    OwnMapsStay(s, t, h, i);
  }

  lemma ReleaseStepKeepsWindow(s: State, step: Step, mode: Shrink, h: Ptr, i: nat)
    requires Inv(s) && Allowed(s, step) && (step.CloseStep? || step.FreeStep?) && HasWindow(s, h, i)
    requires HoldsFd(s, h) && HoldsFd(Apply(s, step, mode), h)
    ensures SameWindow(s, Apply(s, step, mode), h, i)
  {
    match step
    case CloseStep(q, io) =>
      if q != NULL {
        HandleFits(s, q, io.free.unmapErrs);
        CloseConserves(s, q, io, mode);
        if Reaches(s, q) {
          var c := FdClosed(s, s.devs[q].fd);
          CloseFdConserves(s, s.devs[q].fd);
          assert q != h;
          if io.closeErrno == 0 {
            FreeKeepsWindow(c, q, io.free, mode, h, i);
          }
        }
      }
    case FreeStep(q, io) =>
      HandleFits(s, q, io.unmapErrs);
      FreeKeepsWindow(s, q, io, mode, h, i);
  }

  lemma BufferStepKeepsWindow(s: State, step: Step, mode: Shrink, h: Ptr, i: nat)
    requires Inv(s) && Allowed(s, step) && IsPlainStep(step) && !step.WriteStep? && HasWindow(s, h, i)
    ensures SameWindow(s, Apply(s, step, mode), h, i)
  {
    PlainStepSameTable(s, step, mode);
    match step
    case SgLockStep(q, buf, size, hasOut, pageSize, io) =>
      SgLockKeepsMaps(s, q, buf, size, hasOut, pageSize, io);
      OwnMapsStay(s, Apply(s, step, mode), h, i);
    case SgUnlockStep(q, dma, ret) =>
      SgUnlockKeepsMaps(s, q, dma, ret);
      OwnMapsStay(s, Apply(s, step, mode), h, i);
    case ContigLockStep(q, hasBuf, size, hasOut, given, io) =>
      ContigLockKeepsMaps(s, q, hasBuf, size, hasOut, given, io);
      OwnMapsStay(s, Apply(s, step, mode), h, i);
    case ContigUnlockStep(q, dma, ret, unmapOk) =>
      WindowOwned(s, h, i);
      ContigUnlockKeepsMaps(s, q, dma, ret, unmapOk, h);
      OwnMapsStay(s, Apply(s, step, mode), h, i);
  }

  lemma SgLockKeepsMaps(s: State, h: Ptr, buf: Ptr, size: nat, hasOut: bool, pageSize: nat, io: SgIo)
    requires pageSize > 0 && (h != NULL ==> h in s.devs)
    ensures SgLock(s, h, buf, size, hasOut, pageSize, io).state.maps == s.maps
  {
  }

  lemma SgUnlockKeepsMaps(s: State, h: Ptr, dma: Ptr, ret: int)
    requires (h != NULL ==> h in s.devs) && (dma != NULL ==> dma in s.dma.sgs)
    ensures SgUnlock(s, h, dma, ret).state.maps == s.maps
  {
  }

  lemma ContigLockKeepsMaps(s: State, h: Ptr, hasBuf: bool, size: nat, hasOut: bool, given: Ptr, io: ContigIo)
    requires (h != NULL ==> h in s.devs) && ContigIoOk(s, size, io)
    ensures var t := ContigLock(s, h, hasBuf, size, hasOut, given, io).state;
            forall a :: a in s.maps ==> a in t.maps && t.maps[a] == s.maps[a]
  {
  }

  /** Only a mapping of the buffer itself goes. */
  lemma ContigUnlockKeepsMaps(s: State, h: Ptr, dma: Ptr, ret: int, unmapOk: bool, owner: Ptr)
    requires BuffersOk(s) && (h != NULL ==> h in s.devs) && (dma != NULL ==> dma in s.dma.contigs)
    requires owner !in s.dma.contigs
    ensures var t := ContigUnlock(s, h, dma, ret, unmapOk).state;
            forall a :: a in s.maps && s.maps[a].owner == owner ==> a in t.maps && t.maps[a] == s.maps[a]
  {
    if dma != NULL {
      assert ContigOk(s, dma);
    }
  }

  lemma EntryStepKeepsWindow(s: State, step: Step, mode: Shrink, h: Ptr, i: nat)
    requires Inv(s) && Allowed(s, step) && (step.OpenStep? || step.BarsStep? || step.UnloadStep?)
    requires HasWindow(s, h, i) && HoldsFd(Apply(s, step, mode), h)
    ensures SameWindow(s, Apply(s, step, mode), h, i)
  {
    match step
    case OpenStep(hasOut, slot, io) => OpenKeepsWindow(s, hasOut, slot, io, h, i);
    case BarsStep(q, hasOut, io) => BarsKeepWindow(s, q, hasOut, io, h, i);
    case UnloadStep =>
  }

  /** No call but a write changes what the BARs of a device hold that is open before and after it. */
  lemma StepKeepsWindow(s: State, step: Step, mode: Shrink, h: Ptr, i: nat)
    requires Inv(s) && Allowed(s, step) && !step.WriteStep? && HasWindow(s, h, i)
    requires HoldsFd(s, h) && HoldsFd(Apply(s, step, mode), h)
    ensures SameWindow(s, Apply(s, step, mode), h, i)
  {
    if step.CloseStep? || step.FreeStep? {
      ReleaseStepKeepsWindow(s, step, mode, h, i);
    } else if IsPlainStep(step) {
      BufferStepKeepsWindow(s, step, mode, h, i);
    } else {
      EntryStepKeepsWindow(s, step, mode, h, i);
    }
  }

  // ---------------------------------------------------------------- writes

  /** What a step adds to the byte writes of descriptor `i` of `h`. */
  function Logged(s: State, step: Step, h: Ptr, i: nat): seq<Write>
  {
    if step.WriteStep? && step.h == h && Goes(s, h, step.w, i)
    then [Write(step.w.off, ToBytes(step.w.val, step.w.width))]
    else []
  }

  /** The byte writes that the steps make through descriptor `i` of `h`, whose record is as in `s` throughout. */
  function LoggedIn(s: State, steps: seq<Step>, h: Ptr, i: nat): seq<Write>
  {
    if steps == [] then [] else Logged(s, steps[0], h, i) + LoggedIn(s, steps[1..], h, i)
  }

  lemma {:induction false} SameRecordSameLog(s: State, t: State, steps: seq<Step>, h: Ptr, i: nat)
    requires h in s.devs && h in t.devs && t.devs[h] == s.devs[h]
    ensures LoggedIn(t, steps, h, i) == LoggedIn(s, steps, h, i)
    decreases |steps|
  {
    if steps != [] {
      SameRecordSameLog(s, t, steps[1..], h, i);
    }
  }

  /** A write goes to its own device's window and to no other. */
  lemma WriteLogs(s: State, q: Ptr, w: Access, h: Ptr, i: nat)
    requires Inv(s) && HoldsFd(s, h) && i < BAR_SLOTS && w.i < BAR_SLOTS && IsWidth(w.width) && HasWindow(s, h, i)
    ensures var t, log := WriteOf(s, q, w).state, Logged(s, WriteStep(q, w), h, i);
            && HasWindow(t, h, i) && t.devs == s.devs && AllFit(|Window(s, h, i)|, log)
            && Window(t, h, i) == Replay(Window(s, h, i), log)
  {
    if q == h {
      OneWrite(s, h, w, i);
      var step := WriteStep(q, w);
      if Goes(s, h, w, i) {
        assert Logged(s, step, h, i)[..0] == [];
      }
    } else if q in s.devs {
      WindowsApart(s, h, i, q, w.i);
    }
  }

  lemma {:induction false} ReplayJoined(mem: seq<Byte>, a: seq<Write>, b: seq<Write>)
    requires AllFit(|mem|, a) && AllFit(|mem|, b)
    ensures AllFit(|mem|, a + b) && Replay(mem, a + b) == Replay(Replay(mem, a), b)
    decreases |b|
  {
    if b == [] {
      assert a + b == a;
    } else {
      var init := b[..|b| - 1];
      ReplayJoined(mem, a, init);
      assert (a + b)[..|a + b| - 1] == a + init && (a + b)[|a + b| - 1] == b[|b| - 1];
    }
  }

  // ---------------------------------------------------------------- runs

  /** The device holds its descriptor before and after every step. */
  ghost predicate StaysOpen(s: State, steps: seq<Step>, mode: Shrink, h: Ptr)
    requires Inv(s) && IsRun(s, steps, mode)
    decreases |steps|
  {
    HoldsFd(s, h) &&
    (steps != [] ==> (StepConserves(s, steps[0], mode); StaysOpen(Apply(s, steps[0], mode), steps[1..], mode, h)))
  }

  /** One step of any kind, on the window and on the log. */
  lemma StepLogs(s: State, step: Step, mode: Shrink, h: Ptr, i: nat)
    requires Inv(s) && Allowed(s, step) && i < BAR_SLOTS && HasWindow(s, h, i)
    requires HoldsFd(s, h) && HoldsFd(Apply(s, step, mode), h)
    ensures var t, log := Apply(s, step, mode), Logged(s, step, h, i);
            && HasWindow(t, h, i) && t.devs[h] == s.devs[h] && AllFit(|Window(s, h, i)|, log)
            && Window(t, h, i) == Replay(Window(s, h, i), log)
  {
    if step.WriteStep? {
      WriteLogs(s, step.h, step.w, h, i);
    } else {
      StepKeepsWindow(s, step, mode, h, i);
    }
  }

  /**
   Register contents over whole runs: whatever is called in between, on this device and on any other, and whatever
   fails, a BAR of a device that stays open holds its first contents with the accepted writes to it replayed, in order,
   and nothing else.
   */
  lemma {:induction false} RunRefinesStore(s: State, steps: seq<Step>, mode: Shrink, h: Ptr, i: nat, mem: seq<Byte>)
    requires Inv(s) && IsRun(s, steps, mode) && StaysOpen(s, steps, mode, h) && i < BAR_SLOTS
    requires HasWindow(s, h, i) && mem == Window(s, h, i)
    ensures Refines(After(s, steps, mode), h, i, mem, LoggedIn(s, steps, h, i))
    decreases |steps|
  {
    if steps != [] {
      var step, rest := steps[0], steps[1..];
      StepConserves(s, step, mode);
      var t := Apply(s, step, mode);
      StepLogs(s, step, mode, h, i);
      RunRefinesStore(t, rest, mode, h, i, Window(t, h, i));
      SameRecordSameLog(s, t, rest, h, i);
      ReplayJoined(mem, Logged(s, step, h, i), LoggedIn(s, rest, h, i));
    }
  }

  /** And the number read at the end of such a run is spelled by the last accepted byte for each place it covers. */
  lemma RunReadsLastWrites(s: State, steps: seq<Step>, mode: Shrink, h: Ptr, i: nat, off: nat, bytes: seq<Byte>)
    requires Inv(s) && IsRun(s, steps, mode) && StaysOpen(s, steps, mode, h) && i < BAR_SLOTS
    requires HasWindow(s, h, i) && Fits(Window(s, h, i), off, |bytes|)
    requires forall d :: 0 <= d < |bytes| ==> IsLast(Window(s, h, i), LoggedIn(s, steps, h, i), off + d, bytes[d])
    ensures var t := After(s, steps, mode);
            && HasWindow(t, h, i) && Fits(Window(t, h, i), off, |bytes|)
            && FromBytes(Load(Window(t, h, i), off, |bytes|)) == FromBytes(bytes)
  {
    RunRefinesStore(s, steps, mode, h, i, Window(s, h, i));
    LoadIsLast(Window(s, h, i), LoggedIn(s, steps, h, i), off, bytes);
  }
}
