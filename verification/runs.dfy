/** Whole runs: any sequence of calls, with every system call free to fail at any point. */
module Runs {
  import opened Kernel
  import opened Lifecycle
  import opened Ownership
  import opened BarLoops
  import opened Conservation
  import opened Release
  import opened Answers
  import opened Buffers
  import opened Registry
  import opened Registers

  // ---------------------------------------------------------------- unloading the library

  /** `freeDevicesMem` frees records only: what they held beside their own block is left. */
  ghost predicate UnloadLeaves(s: State, r: Resource)
  {
    (r.Fd? || r.Mem?) && exists p :: p in s.devs && HeldBy(s, p, r)
  }

  lemma UnloadKeepsInv(s: State)
    requires Inv(s)
    ensures Inv(FreeDevicesMem(s)) && forall q :: !Registered(FreeDevicesMem(s), q)
  {
    var t := FreeDevicesMem(s);
    forall q | q in t.devs
      ensures RecordOk(t, q)
    {
      assert RecordOk(s, q);
      RecordStays(s, t, q);
    }
    BuffersStay(s, t);
  }

  lemma UnloadLeaks(s: State, r: Resource)
    requires s.next <= |s.table| && ByAcquirer(s, r) && ByAcquirer(FreeDevicesMem(s), r)
    requires forall o :: HeldBy(s, o, r) ==> Live(s, r) && o == Acquirer(s, r)
    requires forall o :: o in s.devs ==> o != NULL && o !in s.dma.sgs && o !in s.dma.contigs && o !in s.dma.pageTables
    requires forall o :: !Registered(FreeDevicesMem(s), o)
    requires forall o :: Registered(s, o) ==> o in s.devs
    requires s.dma.scratch == {}
    ensures Leaked(FreeDevicesMem(s), r) <==> Leaked(s, r) || UnloadLeaves(s, r)
  {
    var t := FreeDevicesMem(s);
    forall o | o in s.devs
      ensures o in t.devs <==> !Registered(s, o)
    {
      if Registered(s, o) {
        var i :| 0 <= i < s.next && i < |s.table| && s.table[i] == o;
        assert s.table[..s.next][i] == o;
      }
    }
    if Live(s, r) {
      var o := Acquirer(s, r);
      if !Registered(s, o) {
        UntouchedLeaks(s, t, r);
      }
    }
  }

  /** Unloading keeps the invariant and leaks exactly the descriptors and mappings of the devices still registered. */
  lemma UnloadConserves(s: State)
    requires Inv(s)
    ensures var t := FreeDevicesMem(s);
            Inv(t) && forall r :: Leaked(t, r) <==> Leaked(s, r) || UnloadLeaves(s, r)
  {
    var t := FreeDevicesMem(s);
    UnloadKeepsInv(s);
    forall o | o in s.devs
      ensures o != NULL
    {
      assert RecordOk(s, o);
    }
    forall r
      ensures Leaked(t, r) <==> Leaked(s, r) || UnloadLeaves(s, r)
    {
      LeakedByAcquirer(s, r);
      LeakedByAcquirer(t, r);
      forall o | HeldBy(s, o, r)
        ensures Live(s, r) && o == Acquirer(s, r)
      {
        HolderIsAcquirer(s, o, r);
      }
      UnloadLeaks(s, r);
    }
  }

  // ---------------------------------------------------------------- steps

  datatype Step =
    | OpenStep(hasOut: bool, slot: Option<Slot>, openIo: OpenIo)
    | CloseStep(h: Ptr, closeIo: CloseIo)
    | FreeStep(p: Ptr, freeIo: FreeIo)
    | BarsStep(h: Ptr, hasOut: bool, fillIo: FillIo)
    | SgLockStep(h: Ptr, buf: Ptr, size: nat, hasOut: bool, pageSize: nat, sgIo: SgIo)
    | SgUnlockStep(h: Ptr, dma: Ptr, ret: int)
    | ContigLockStep(h: Ptr, hasBuf: bool, size: nat, hasOut: bool, given: Ptr, contigIo: ContigIo)
    | ContigUnlockStep(h: Ptr, dma: Ptr, ret: int, unmapOk: bool)
    | WriteStep(h: Ptr, w: Access)
    | UnloadStep

  /** A device handle a caller may pass: null, or the address of a record that has not been freed. */
  predicate Handle(s: State, h: Ptr)
  {
    h != NULL ==> h in s.devs
  }

  /**
   What a step may be: handles are null or not freed, the table has room, `freeDeviceMem` is called on a record whose
   descriptor is closed, a write does not fault, which would end the process, and the system answers honestly.  Nothing
   is said about which calls fail.
   */
  ghost predicate Allowed(s: State, step: Step)
  {
    match step
    case OpenStep(hasOut, slot, io) => s.next < TABLE_SIZE && OpenOk(s, slot, io)
    case CloseStep(h, io) => Handle(s, h) && |io.free.unmapErrs| == BAR_SLOTS
    case FreeStep(p, io) => p in s.devs && !HoldsFd(s, p) && |io.unmapErrs| == BAR_SLOTS
    case BarsStep(h, hasOut, io) => Handle(s, h) && FillOk(s, io)
    case SgLockStep(h, buf, size, hasOut, pageSize, io) => Handle(s, h) && pageSize > 0 && SgIoOk(s, size, pageSize, io)
    case SgUnlockStep(h, dma, ret) => Handle(s, h) && (dma != NULL ==> dma in s.dma.sgs)
    case ContigLockStep(h, hasBuf, size, hasOut, given, io) => Handle(s, h) && ContigIoOk(s, size, io)
    case ContigUnlockStep(h, dma, ret, unmapOk) => Handle(s, h) && (dma != NULL ==> dma in s.dma.contigs)
    case WriteStep(h, w) => Handle(s, h) && w.i < BAR_SLOTS && IsWidth(w.width) && WriteOf(s, h, w).code != EFAULT
    case UnloadStep => true
  }

  /** A register write. */
  function WriteOf(s: State, h: Ptr, w: Access): Outcome
  {
    WriteRegister(s, h, w.i, w.off, w.width, w.val)
  }

  lemma HandleFits(s: State, h: Ptr, errs: seq<int>)
    requires Inv(s) && h in s.devs && |errs| == BAR_SLOTS
    ensures Unmappable(s, h, errs) && h != NULL
  {
    assert RecordOk(s, h);
  }

  /** The state after one step. */
  ghost function Apply(s: State, step: Step, mode: Shrink): State
    requires Inv(s) && Allowed(s, step)
  {
    match step
    case OpenStep(hasOut, slot, io) => Open(s, hasOut, slot, io).state
    case CloseStep(h, io) =>
      if h == NULL then s else HandleFits(s, h, io.free.unmapErrs); Close(s, h, io, mode).state
    case FreeStep(p, io) => HandleFits(s, p, io.unmapErrs); FreeDeviceMem(s, p, io, mode).state
    case BarsStep(h, hasOut, io) => GetBars(s, h, hasOut, io).state
    case SgLockStep(h, buf, size, hasOut, pageSize, io) => SgLock(s, h, buf, size, hasOut, pageSize, io).state
    case SgUnlockStep(h, dma, ret) => SgUnlock(s, h, dma, ret).state
    case ContigLockStep(h, hasBuf, size, hasOut, given, io) => ContigLock(s, h, hasBuf, size, hasOut, given, io).state
    case ContigUnlockStep(h, dma, ret, unmapOk) => ContigUnlock(s, h, dma, ret, unmapOk).state
    case WriteStep(h, w) => WriteOf(s, h, w).state
    case UnloadStep => FreeDevicesMem(s)
  }

  /** The resources a step leaves with nothing holding them. */
  ghost predicate Leaves(s: State, step: Step, mode: Shrink, r: Resource)
    requires Inv(s) && Allowed(s, step)
  {
    match step
    case OpenStep(hasOut, slot, io) => OpenLeaves(hasOut, slot, io, r)
    case CloseStep(h, io) => Reaches(s, h) && Strands(FdClosed(s, s.devs[h].fd), Apply(s, step, mode), h, r)
    case FreeStep(p, io) => Strands(s, Apply(s, step, mode), p, r)
    case BarsStep(h, hasOut, io) => Usable(s, h) && hasOut && FillStrays(s, h, io, r)
    case ContigLockStep(h, hasBuf, size, hasOut, given, io) =>
      ContigLockLeaves(s, h, hasBuf, size, hasOut, given, io, r)
    case ContigUnlockStep(h, dma, ret, unmapOk) =>
      ContigUnlock(s, h, dma, ret, unmapOk).code == 0 && !unmapOk && r == Mem(s.dma.contigs[dma].userAddr)
    case UnloadStep => UnloadLeaves(s, r)
    case _ => false
  }

  /** A leaked descriptor whose number a later close happens to name is closed after all. */
  predicate Reclaims(s: State, step: Step, r: Resource)
  {
    step.CloseStep? && Reaches(s, step.h) && r == Fd(s.devs[step.h].fd)
  }

  /** The calls that lock and unlock buffers, and the register writes. */
  predicate IsPlainStep(step: Step)
  {
    step.SgLockStep? || step.SgUnlockStep? || step.ContigLockStep? || step.ContigUnlockStep? || step.WriteStep?
  }

  predicate SameTable(s: State, t: State)
  {
    t.table == s.table && t.next == s.next && t.devs == s.devs && t.fds == s.fds
  }

  lemma SgLockSameTable(s: State, h: Ptr, buf: Ptr, size: nat, hasOut: bool, pageSize: nat, io: SgIo)
    requires pageSize > 0 && (h != NULL ==> h in s.devs)
    ensures SameTable(s, SgLock(s, h, buf, size, hasOut, pageSize, io).state)
  {
  }

  lemma SgUnlockSameTable(s: State, h: Ptr, dma: Ptr, ret: int)
    requires (h != NULL ==> h in s.devs) && (dma != NULL ==> dma in s.dma.sgs)
    ensures SameTable(s, SgUnlock(s, h, dma, ret).state)
  {
  }

  lemma ContigLockSameTable(s: State, h: Ptr, hasBuf: bool, size: nat, hasOut: bool, given: Ptr, io: ContigIo)
    requires h != NULL ==> h in s.devs
    ensures SameTable(s, ContigLock(s, h, hasBuf, size, hasOut, given, io).state)
  {
  }

  lemma ContigUnlockSameTable(s: State, h: Ptr, dma: Ptr, ret: int, unmapOk: bool)
    requires (h != NULL ==> h in s.devs) && (dma != NULL ==> dma in s.dma.contigs)
    ensures SameTable(s, ContigUnlock(s, h, dma, ret, unmapOk).state)
  {
  }

  lemma WriteSameTable(s: State, h: Ptr, w: Access)
    ensures SameTable(s, WriteOf(s, h, w).state)
  {
  }

  /** A write keeps every mapping, its owner and its length. */
  lemma WriteKeepsMaps(s: State, h: Ptr, w: Access)
    ensures var t := WriteOf(s, h, w).state;
            && t == s.(maps := t.maps) && t.maps.Keys == s.maps.Keys
            && forall a :: a in s.maps ==> t.maps[a].owner == s.maps[a].owner
  {
  }

  lemma WriteLeaks(s: State, t: State, r: Resource)
    requires t == s.(maps := t.maps) && t.maps.Keys == s.maps.Keys && ByAcquirer(s, r) && ByAcquirer(t, r)
    requires forall a :: a in s.maps ==> t.maps[a].owner == s.maps[a].owner
    ensures Leaked(t, r) <==> Leaked(s, r)
  {
    if Live(s, r) {
      UntouchedLeaks(s, t, r);
    }
  }

  /** A write keeps the invariant and leaks nothing. */
  lemma WriteConserves(s: State, h: Ptr, w: Access)
    requires Inv(s) && w.i < BAR_SLOTS && IsWidth(w.width)
    ensures Inv(WriteOf(s, h, w).state)
    ensures forall r :: Leaked(WriteOf(s, h, w).state, r) <==> Leaked(s, r)
  {
    var t := WriteOf(s, h, w).state;
    WriteIsSafe(s, h, w.i, w.off, w.width, w.val);
    WriteKeepsMaps(s, h, w);
    forall r
      ensures Leaked(t, r) <==> Leaked(s, r)
    {
      LeakedByAcquirer(s, r);
      LeakedByAcquirer(t, r);
      WriteLeaks(s, t, r);
    }
  }

  /** None of these calls touches the table or a device record. */
  lemma PlainStepSameTable(s: State, step: Step, mode: Shrink)
    requires Inv(s) && Allowed(s, step) && IsPlainStep(step)
    ensures SameTable(s, Apply(s, step, mode))
  {
    match step
    case SgLockStep(h, buf, size, hasOut, pageSize, io) => SgLockSameTable(s, h, buf, size, hasOut, pageSize, io);
    case SgUnlockStep(h, dma, ret) => SgUnlockSameTable(s, h, dma, ret);
    case ContigLockStep(h, hasBuf, size, hasOut, given, io) =>
      ContigLockSameTable(s, h, hasBuf, size, hasOut, given, io);
    case ContigUnlockStep(h, dma, ret, unmapOk) => ContigUnlockSameTable(s, h, dma, ret, unmapOk);
    case WriteStep(h, w) => WriteSameTable(s, h, w);
  }

  /** What one step does to the invariant and to what is leaked. */
  ghost predicate Conserves(s: State, step: Step, mode: Shrink)
    requires Inv(s) && Allowed(s, step)
  {
    var t := Apply(s, step, mode);
    Inv(t) && forall r :: Leaked(t, r) <==> (Leaked(s, r) && !Reclaims(s, step, r)) || Leaves(s, step, mode, r)
  }

  lemma SgStepConserves(s: State, step: Step, mode: Shrink)
    requires Inv(s) && Allowed(s, step) && (step.SgLockStep? || step.SgUnlockStep?)
    ensures Conserves(s, step, mode)
  {
    match step
    case SgLockStep(h, buf, size, hasOut, pageSize, io) => SgLockConserves(s, h, buf, size, hasOut, pageSize, io);
    case SgUnlockStep(h, dma, ret) => SgUnlockConserves(s, h, dma, ret);
  }

  lemma PlainStepConserves(s: State, step: Step, mode: Shrink)
    requires Inv(s) && Allowed(s, step) && IsPlainStep(step)
    ensures Conserves(s, step, mode)
  {
    match step
    case ContigLockStep(h, hasBuf, size, hasOut, given, io) =>
      ContigLockConserves(s, h, hasBuf, size, hasOut, given, io);
    case ContigUnlockStep(h, dma, ret, unmapOk) => ContigUnlockConserves(s, h, dma, ret, unmapOk);
    case WriteStep(h, w) => WriteConserves(s, h, w);
    case _ => SgStepConserves(s, step, mode);
  }

  lemma ReleaseStepConserves(s: State, step: Step, mode: Shrink)
    requires Inv(s) && Allowed(s, step) && (step.CloseStep? || step.FreeStep?)
    ensures Conserves(s, step, mode)
  {
    match step
    case CloseStep(h, io) =>
      if h != NULL {
        HandleFits(s, h, io.free.unmapErrs);
        CloseConserves(s, h, io, mode);
      }
    case FreeStep(p, io) =>
      HandleFits(s, p, io.unmapErrs);
      FreeConserves(s, p, io, mode);
  }

  /** One step keeps the invariant, and the leaked resources change by exactly what the step leaves and reclaims. */
  lemma StepConserves(s: State, step: Step, mode: Shrink)
    requires Inv(s) && Allowed(s, step)
    ensures Inv(Apply(s, step, mode))
    ensures forall r :: Leaked(Apply(s, step, mode), r) <==>
              (Leaked(s, r) && !Reclaims(s, step, r)) || Leaves(s, step, mode, r)
  {
    match step
    case OpenStep(hasOut, slot, io) => OpenConserves(s, hasOut, slot, io);
    case CloseStep(_, _) => ReleaseStepConserves(s, step, mode);
    case FreeStep(_, _) => ReleaseStepConserves(s, step, mode);
    case BarsStep(h, hasOut, io) =>
      if Usable(s, h) && hasOut {
        FillConserves(s, h, io);
      }
    case UnloadStep => UnloadConserves(s);
    case _ => PlainStepConserves(s, step, mode);
  }

  // ---------------------------------------------------------------- runs

  ghost predicate IsRun(s: State, steps: seq<Step>, mode: Shrink)
    requires Inv(s)
    decreases |steps|
  {
    steps == [] ||
    (Allowed(s, steps[0]) &&
     (StepConserves(s, steps[0], mode); IsRun(Apply(s, steps[0], mode), steps[1..], mode)))
  }

  /** The state at the end of a run; the invariant holds there. */
  ghost function After(s: State, steps: seq<Step>, mode: Shrink): (t: State)
    requires Inv(s) && IsRun(s, steps, mode)
    ensures Inv(t)
    decreases |steps|
  {
    if steps == [] then s
    else
      StepConserves(s, steps[0], mode);
      After(Apply(s, steps[0], mode), steps[1..], mode)
  }

  /** Some step of the run closes the leaked descriptor `r`. */
  ghost predicate ReclaimedInRun(s: State, steps: seq<Step>, mode: Shrink, r: Resource)
    requires Inv(s) && IsRun(s, steps, mode)
    decreases |steps|
  {
    steps != [] &&
    (StepConserves(s, steps[0], mode);
     Reclaims(s, steps[0], r) || ReclaimedInRun(Apply(s, steps[0], mode), steps[1..], mode, r))
  }

  /** Some step of the run leaves `r`, and no later one takes it back. */
  ghost predicate LeftForGood(s: State, steps: seq<Step>, mode: Shrink, r: Resource)
    requires Inv(s) && IsRun(s, steps, mode)
    decreases |steps|
  {
    steps != [] &&
    (StepConserves(s, steps[0], mode);
     var t, rest := Apply(s, steps[0], mode), steps[1..];
     (Leaves(s, steps[0], mode, r) && !ReclaimedInRun(t, rest, mode, r)) || LeftForGood(t, rest, mode, r))
  }

  /** Only descriptors are ever taken back. */
  lemma {:induction false} OnlyFdsReclaimed(s: State, steps: seq<Step>, mode: Shrink, r: Resource)
    requires Inv(s) && IsRun(s, steps, mode) && ReclaimedInRun(s, steps, mode, r)
    ensures r.Fd?
    decreases |steps|
  {
    if !Reclaims(s, steps[0], r) {
      StepConserves(s, steps[0], mode);
      OnlyFdsReclaimed(Apply(s, steps[0], mode), steps[1..], mode, r);
    }
  }

  /**
   Conservation over whole runs: what is leaked at the end is exactly what was leaked at the start and never taken back,
   and what some step left and none after it took back.
   */
  lemma {:induction false} RunConserves(s: State, steps: seq<Step>, mode: Shrink, r: Resource)
    requires Inv(s) && IsRun(s, steps, mode)
    ensures Leaked(After(s, steps, mode), r) <==>
              (Leaked(s, r) && !ReclaimedInRun(s, steps, mode, r)) || LeftForGood(s, steps, mode, r)
    decreases |steps|
  {
    if steps != [] {
      StepConserves(s, steps[0], mode);
      RunConserves(Apply(s, steps[0], mode), steps[1..], mode, r);
    }
  }

  ghost predicate NothingLeaked(s: State)
  {
    forall r :: !Leaked(s, r)
  }

  /**
   A run from a state with nothing leaked, such as the fresh library, in which no step leaves anything for good ends
   with live resources that are exactly what the registered devices and the outstanding buffer handles hold, each held
   once; and when none of those is left, the process and the kernel hold nothing at all.
   */
  lemma CleanRunHoldsAll(s: State, steps: seq<Step>, mode: Shrink, r: Resource)
    requires Inv(s) && NothingLeaked(s) && IsRun(s, steps, mode)
    requires forall q :: !LeftForGood(s, steps, mode, q)
    ensures var t := After(s, steps, mode);
            && NothingLeaked(t)
            && (Live(t, r) <==> Held(t, r))
            && (forall o, o' :: HeldBy(t, o, r) && HeldBy(t, o', r) ==> o == o')
            && ((forall p :: !Registered(t, p)) && t.dma.sgs == map[] && t.dma.contigs == map[] ==> !Live(t, r))
  {
    var t := After(s, steps, mode);
    forall q
      ensures !Leaked(t, q)
    {
      RunConserves(s, steps, mode, q);
    }
    DisjointOwnership(t, r);
    if (forall p :: !Registered(t, p)) && t.dma.sgs == map[] && t.dma.contigs == map[] {
      NothingHeldNothingLive(t, r);
    }
  }

  lemma FreshLibrary()
    ensures Inv(EMPTY) && NothingLeaked(EMPTY) && forall r :: !Live(EMPTY, r)
  {
    EmptyInv();
  }

  // ---------------------------------------------------------------- what stays registered

  /** Only an open adds a record to those registered, and it adds its own. */
  lemma StepRegisters(s: State, step: Step, mode: Shrink)
    requires Inv(s) && Allowed(s, step)
    ensures var t := Apply(s, step, mode);
            forall q :: Registered(t, q) ==> Registered(s, q) || (step.OpenStep? && q == step.openIo.record)
  {
    match step
    case OpenStep(hasOut, slot, io) =>
      OpenConserves(s, hasOut, slot, io);
      if !Opened(Open(s, hasOut, slot, io)) {
        SameRegistered(s, Open(s, hasOut, slot, io).state);
      }
    case CloseStep(_, _) => ReleaseStepRegisters(s, step, mode);
    case FreeStep(_, _) => ReleaseStepRegisters(s, step, mode);
    case BarsStep(h, hasOut, io) => SameRegistered(s, Apply(s, step, mode));
    case UnloadStep => UnloadKeepsInv(s);
    case _ =>
      PlainStepSameTable(s, step, mode);
      SameRegistered(s, Apply(s, step, mode));
  }

  lemma ReleaseStepRegisters(s: State, step: Step, mode: Shrink)
    requires Inv(s) && Allowed(s, step) && (step.CloseStep? || step.FreeStep?)
    ensures forall q :: Registered(Apply(s, step, mode), q) ==> Registered(s, q)
  {
    match step
    case CloseStep(h, io) =>
      if h != NULL && Reaches(s, h) {
        HandleFits(s, h, io.free.unmapErrs);
        FreeRegisters(FdClosed(s, s.devs[h].fd), h, io.free, mode);
      }
    case FreeStep(p, io) =>
      HandleFits(s, p, io.unmapErrs);
      FreeRegisters(s, p, io, mode);
  }

  lemma FreeRegisters(s: State, p: Ptr, io: FreeIo, mode: Shrink)
    requires s.next <= |s.table| && Unmappable(s, p, io.unmapErrs)
    ensures forall q :: Registered(FreeDeviceMem(s, p, io, mode).state, q) ==> Registered(s, q)
  {
    var t := FreeDeviceMem(s, p, io, mode).state;
    forall q | Registered(t, q)
      ensures Registered(s, q)
    {
      var i :| 0 <= i < t.next && i < |t.table| && t.table[i] == q;
      assert s.table[i] == q;
    }
  }

  /** Every live record is in the table. */
  ghost predicate AllRegistered(s: State)
  {
    forall p :: p in s.devs ==> Registered(s, p)
  }

  /** With the cell its comment names, a release leaves every other record where it was in the table. */
  lemma CommentedReleaseKeeps(s: State, p: Ptr, io: FreeIo)
    requires Inv(s) && Unmappable(s, p, io.unmapErrs) && !HoldsFd(s, p) && AllRegistered(s)
    ensures AllRegistered(FreeDeviceMem(s, p, io, AsCommented).state)
  {
    CommentedNeverStrands(s, p, io);
    FreeConserves(s, p, io, AsCommented);
    var t := FreeDeviceMem(s, p, io, AsCommented).state;
    if p in t.devs {
      SameRegistered(s, t);
    }
    forall q | q in t.devs
      ensures Registered(t, q)
    {
      if q != p {
        assert !Drops(s, t, q);
      }
    }
  }

  lemma OpenKeepsRegistered(s: State, hasOut: bool, slot: Option<Slot>, io: OpenIo)
    requires Inv(s) && s.next < TABLE_SIZE && OpenOk(s, slot, io) && AllRegistered(s)
    ensures AllRegistered(Open(s, hasOut, slot, io).state)
  {
    OpenConserves(s, hasOut, slot, io);
    var OpenOutcome(t, _, h) := Open(s, hasOut, slot, io);
    if Opened(Open(s, hasOut, slot, io)) {
      FillFrames(Entered(s, slot.value, io), io.record, io.fill);
      assert forall q :: q in t.devs ==> q in s.devs || q == h;
    } else {
      SameRegistered(s, t);
    }
  }

  lemma FillKeepsRegistered(s: State, h: Ptr, io: FillIo)
    requires Inv(s) && h in s.devs && FillOk(s, io) && AllRegistered(s)
    ensures AllRegistered(Fill(s, h, io).state)
  {
    FillConserves(s, h, io);
  }

  lemma CloseKeepsRegistered(s: State, h: Ptr, io: CloseIo)
    requires Inv(s) && Unmappable(s, h, io.free.unmapErrs) && AllRegistered(s)
    ensures AllRegistered(Close(s, h, io, AsCommented).state)
  {
    if Reaches(s, h) {
      CloseFdConserves(s, s.devs[h].fd);
      var c := FdClosed(s, s.devs[h].fd);
      assert AllRegistered(c);
      CommentedReleaseKeeps(c, h, io.free);
    }
  }

  lemma SameTableKeepsRegistered(s: State, t: State)
    requires SameTable(s, t) && s.next <= |s.table| && AllRegistered(s)
    ensures AllRegistered(t)
  {
    SameRegistered(s, t);
  }

  lemma PlainStepKeepsAll(s: State, step: Step, mode: Shrink)
    requires Inv(s) && Allowed(s, step) && AllRegistered(s) && IsPlainStep(step)
    ensures AllRegistered(Apply(s, step, mode))
  {
    PlainStepSameTable(s, step, mode);
    SameTableKeepsRegistered(s, Apply(s, step, mode));
  }

  lemma CommentedReleaseStepKeepsAll(s: State, step: Step)
    requires Inv(s) && Allowed(s, step) && AllRegistered(s) && (step.CloseStep? || step.FreeStep?)
    ensures AllRegistered(Apply(s, step, AsCommented))
  {
    match step
    case CloseStep(h, io) =>
      if h != NULL {
        HandleFits(s, h, io.free.unmapErrs);
        CloseKeepsRegistered(s, h, io);
      }
    case FreeStep(p, io) =>
      HandleFits(s, p, io.unmapErrs);
      CommentedReleaseKeeps(s, p, io);
  }

  /**
   The registry invariant: were the shrink loop to test the cell its comment names, every record that is not freed
   would stay in the table, in one cell below `iNewDev`, whatever is called and whatever fails.
   */
  lemma CommentedStepKeepsAll(s: State, step: Step)
    requires Inv(s) && Allowed(s, step) && AllRegistered(s)
    ensures AllRegistered(Apply(s, step, AsCommented))
  {
    match step
    case OpenStep(hasOut, slot, io) => OpenKeepsRegistered(s, hasOut, slot, io);
    case CloseStep(_, _) => CommentedReleaseStepKeepsAll(s, step);
    case FreeStep(_, _) => CommentedReleaseStepKeepsAll(s, step);
    case BarsStep(h, hasOut, io) =>
      if Usable(s, h) && hasOut {
        FillKeepsRegistered(s, h, io);
      }
    case UnloadStep => UnloadFreesAll(s);
    case _ => PlainStepKeepsAll(s, step, AsCommented);
  }

  /** And so no close and no release would ever strand a device. */
  lemma CommentedStrandsNothing(s: State, step: Step)
    requires Inv(s) && Allowed(s, step) && (step.CloseStep? || step.FreeStep?)
    ensures forall r :: !Leaves(s, step, AsCommented, r)
  {
    match step
    case CloseStep(h, io) =>
      if Reaches(s, h) {
        HandleFits(s, h, io.free.unmapErrs);
        var c := FdClosed(s, s.devs[h].fd);
        CloseFdConserves(s, s.devs[h].fd);
        CommentedNeverStrands(c, h, io.free);
      }
    case FreeStep(p, io) =>
      HandleFits(s, p, io.unmapErrs);
      CommentedNeverStrands(s, p, io);
  }

  lemma UnloadFreesAll(s: State)
    requires Inv(s) && AllRegistered(s)
    ensures FreeDevicesMem(s).devs == map[]
  {
    forall p | p in s.devs
      ensures p in s.table[..s.next]
    {
      var i :| 0 <= i < s.next && i < |s.table| && s.table[i] == p;
      assert s.table[..s.next][i] == p;
    }
  }

  lemma {:induction false} CommentedRunKeepsAll(s: State, steps: seq<Step>)
    requires Inv(s) && AllRegistered(s) && IsRun(s, steps, AsCommented)
    ensures AllRegistered(After(s, steps, AsCommented))
    decreases |steps|
  {
    if steps != [] {
      StepConserves(s, steps[0], AsCommented);
      CommentedStepKeepsAll(s, steps[0]);
      CommentedRunKeepsAll(Apply(s, steps[0], AsCommented), steps[1..]);
    }
  }

  // ---------------------------------------------------------------- one device at a time

  ghost predicate AtMostOne(s: State)
  {
    forall p, q :: Registered(s, p) && Registered(s, q) ==> p == q
  }

  /** Devices are opened only when none is registered. */
  ghost predicate OneAtATime(s: State, steps: seq<Step>, mode: Shrink)
    requires Inv(s) && IsRun(s, steps, mode)
    decreases |steps|
  {
    steps == [] ||
    ((steps[0].OpenStep? ==> forall p :: !Registered(s, p)) &&
     (StepConserves(s, steps[0], mode); OneAtATime(Apply(s, steps[0], mode), steps[1..], mode)))
  }

  /** A close or release strands nothing when its device is the only one registered. */
  lemma LoneReleaseStrandsNothing(s: State, step: Step, r: Resource)
    requires Inv(s) && Allowed(s, step) && AtMostOne(s)
    requires step.CloseStep? || step.FreeStep?
    requires step.CloseStep? && step.h != NULL ==> Registered(s, step.h)
    requires step.FreeStep? ==> Registered(s, step.p)
    ensures !Leaves(s, step, AsWritten, r)
  {
    if step.CloseStep? && Reaches(s, step.h) {
      SameRegistered(s, FdClosed(s, s.devs[step.h].fd));
    }
  }

  /** Releasing the only device leaves nothing registered, or, when it breaks off, the device still registered. */
  lemma LoneReleaseKeepsAll(s: State, p: Ptr, io: FreeIo)
    requires Inv(s) && p in s.devs && !HoldsFd(s, p) && Unmappable(s, p, io.unmapErrs)
    requires AllRegistered(s) && AtMostOne(s)
    ensures AllRegistered(FreeDeviceMem(s, p, io, AsWritten).state)
  {
    var Outcome(t, ret) := FreeDeviceMem(s, p, io, AsWritten);
    FreeConserves(s, p, io, AsWritten);
    if ret == 0 {
      FreeFreesOnce(s, p, io, AsWritten);
    } else {
      SameRegistered(s, t);
    }
  }

  lemma LoneReleaseStepKeepsAll(s: State, step: Step)
    requires Inv(s) && Allowed(s, step) && AllRegistered(s) && AtMostOne(s) && (step.CloseStep? || step.FreeStep?)
    ensures AllRegistered(Apply(s, step, AsWritten))
  {
    match step
    case CloseStep(h, io) =>
      if h != NULL {
        HandleFits(s, h, io.free.unmapErrs);
        if Reaches(s, h) {
          var c := FdClosed(s, s.devs[h].fd);
          CloseFdConserves(s, s.devs[h].fd);
          assert AllRegistered(c) && AtMostOne(c);
          LoneReleaseKeepsAll(c, h, io.free);
        }
      }
    case FreeStep(p, io) =>
      HandleFits(s, p, io.unmapErrs);
      LoneReleaseKeepsAll(s, p, io);
  }

  /** One step of a program that opens only when nothing is registered, with the loop as written. */
  lemma OneAtATimeStep(s: State, step: Step)
    requires Inv(s) && Allowed(s, step) && AllRegistered(s) && AtMostOne(s)
    requires step.OpenStep? ==> forall p :: !Registered(s, p)
    ensures AllRegistered(Apply(s, step, AsWritten)) && AtMostOne(Apply(s, step, AsWritten))
    ensures step.CloseStep? || step.FreeStep? ==> forall r :: !Leaves(s, step, AsWritten, r)
  {
    StepRegisters(s, step, AsWritten);
    match step
    case OpenStep(hasOut, slot, io) => OpenKeepsRegistered(s, hasOut, slot, io);
    case CloseStep(_, _) => LoneReleaseStep(s, step);
    case FreeStep(_, _) => LoneReleaseStep(s, step);
    case BarsStep(h, hasOut, io) =>
      if Usable(s, h) && hasOut {
        FillKeepsRegistered(s, h, io);
      }
    case UnloadStep => UnloadFreesAll(s);
    case _ => PlainStepKeepsAll(s, step, AsWritten);
  }

  lemma LoneReleaseStep(s: State, step: Step)
    requires Inv(s) && Allowed(s, step) && AllRegistered(s) && AtMostOne(s) && (step.CloseStep? || step.FreeStep?)
    ensures AllRegistered(Apply(s, step, AsWritten))
    ensures forall r :: !Leaves(s, step, AsWritten, r)
  {
    LoneReleaseStepKeepsAll(s, step);
    forall r
      ensures !Leaves(s, step, AsWritten, r)
    {
      LoneReleaseStrandsNothing(s, step, r);
    }
  }

  /** Some close or release of the run leaves `r`. */
  ghost predicate StrandedInRun(s: State, steps: seq<Step>, mode: Shrink, r: Resource)
    requires Inv(s) && IsRun(s, steps, mode)
    decreases |steps|
  {
    steps != [] &&
    (StepConserves(s, steps[0], mode);
     ((steps[0].CloseStep? || steps[0].FreeStep?) && Leaves(s, steps[0], mode, r)) ||
     StrandedInRun(Apply(s, steps[0], mode), steps[1..], mode, r))
  }

  /**
   What the loop as written is good for: in a program that opens a device only when none is registered, whatever else it
   calls and whatever fails, every record that is not freed stays in the table, and no close and no release ever puts
   anything out of reach.
   */
  lemma {:induction false} OneAtATimeStrandsNothing(s: State, steps: seq<Step>)
    requires Inv(s) && AllRegistered(s) && AtMostOne(s) && IsRun(s, steps, AsWritten) && OneAtATime(s, steps, AsWritten)
    ensures AllRegistered(After(s, steps, AsWritten)) && AtMostOne(After(s, steps, AsWritten))
    ensures forall r :: !StrandedInRun(s, steps, AsWritten, r)
    decreases |steps|
  {
    if steps != [] {
      StepConserves(s, steps[0], AsWritten);
      OneAtATimeStep(s, steps[0]);
      OneAtATimeStrandsNothing(Apply(s, steps[0], AsWritten), steps[1..]);
    }
  }

  // ---------------------------------------------------------------- the end of the table

  /** `iNewDev` is 0, or the last entry below it is in use. */
  predicate TailUsed(s: State)
    requires s.next <= |s.table|
  {
    s.next == 0 || s.table[s.next - 1] != NULL
  }

  lemma FreeKeepsTail(s: State, p: Ptr, io: FreeIo)
    requires Inv(s) && Unmappable(s, p, io.unmapErrs) && p != NULL && TailUsed(s)
    ensures var t := FreeDeviceMem(s, p, io, AsCommented).state;
            t.next <= |t.table| && TailUsed(t)
  {
    var Outcome(t, ret) := FreeDeviceMem(s, p, io, AsCommented);
    FreeAnswers(s, p, io, AsCommented);
    if ret == 0 {
      CommentedShrink(t.table, s.next, io.pastNull);
    }
  }

  lemma EntryIsTail(s: State, t: State, h: Ptr)
    requires s.next < |s.table| && t.table == s.table[s.next := h] && t.next == s.next + 1 && h != NULL
    ensures TailUsed(t)
  {
  }

  lemma StraysKeepTail(s: State, t: State)
    requires Strays(s, t) && TailUsed(s)
    ensures t.next <= |t.table| && TailUsed(t)
  {
  }

  lemma OpenKeepsTail(s: State, hasOut: bool, slot: Option<Slot>, io: OpenIo)
    requires Inv(s) && s.next < TABLE_SIZE && OpenOk(s, slot, io) && TailUsed(s)
    ensures var t := Open(s, hasOut, slot, io).state;
            t.next <= |t.table| && TailUsed(t)
  {
    var OpenOutcome(t, _, h) := Open(s, hasOut, slot, io);
    OpenConserves(s, hasOut, slot, io);
    if Opened(Open(s, hasOut, slot, io)) {
      OpenShape(s, slot.value, io);
      EntryIsTail(s, t, h);
    } else {
      StraysKeepTail(s, t);
    }
  }

  lemma CloseKeepsTail(s: State, h: Ptr, io: CloseIo)
    requires Inv(s) && Closable(s, h, io) && TailUsed(s)
    ensures var t := Close(s, h, io, AsCommented).state;
            t.next <= |t.table| && TailUsed(t)
  {
    if Reaches(s, h) {
      CloseFdConserves(s, s.devs[h].fd);
      FreeKeepsTail(FdClosed(s, s.devs[h].fd), h, io.free);
    }
  }

  lemma ReleaseStepKeepsTail(s: State, step: Step)
    requires Inv(s) && Allowed(s, step) && TailUsed(s) && (step.CloseStep? || step.FreeStep?)
    ensures var t := Apply(s, step, AsCommented);
            t.next <= |t.table| && TailUsed(t)
  {
    match step
    case CloseStep(h, io) =>
      if h != NULL {
        HandleFits(s, h, io.free.unmapErrs);
        CloseKeepsTail(s, h, io);
      }
    case FreeStep(p, io) =>
      HandleFits(s, p, io.unmapErrs);
      FreeKeepsTail(s, p, io);
  }

  lemma BarsKeepTail(s: State, h: Ptr, hasOut: bool, io: FillIo)
    requires s.next <= |s.table| && |io.bars| == BAR_SLOTS && TailUsed(s)
    ensures var t := GetBars(s, h, hasOut, io).state;
            t.next <= |t.table| && TailUsed(t)
  {
  }

  lemma EntryStepKeepsTail(s: State, step: Step)
    requires Inv(s) && Allowed(s, step) && TailUsed(s) && (step.OpenStep? || step.BarsStep? || step.UnloadStep?)
    ensures var t := Apply(s, step, AsCommented);
            t.next <= |t.table| && TailUsed(t)
  {
    match step
    case OpenStep(hasOut, slot, io) => OpenKeepsTail(s, hasOut, slot, io);
    case BarsStep(h, hasOut, io) => BarsKeepTail(s, h, hasOut, io);
    case UnloadStep =>
  }

  lemma CommentedStepKeepsTail(s: State, step: Step)
    requires Inv(s) && Allowed(s, step) && TailUsed(s)
    ensures var t := Apply(s, step, AsCommented);
            t.next <= |t.table| && TailUsed(t)
  {
    if step.CloseStep? || step.FreeStep? {
      ReleaseStepKeepsTail(s, step);
    } else if IsPlainStep(step) {
      PlainStepSameTable(s, step, AsCommented);
    } else {
      EntryStepKeepsTail(s, step);
    }
  }

  /** With the commented test, the index ends after an entry in use in every reachable state, not only after a close. */
  lemma {:induction false} CommentedRunKeepsTail(s: State, steps: seq<Step>)
    requires Inv(s) && TailUsed(s) && IsRun(s, steps, AsCommented)
    ensures TailUsed(After(s, steps, AsCommented))
    decreases |steps|
  {
    if steps != [] {
      StepConserves(s, steps[0], AsCommented);
      CommentedStepKeepsTail(s, steps[0]);
      CommentedRunKeepsTail(Apply(s, steps[0], AsCommented), steps[1..]);
    }
  }

  /**
   So, in whatever state a run of the library ends, opening a device and closing it again without error gives back every
   descriptor, mapping, record and the index: the one trace is a null in the cell above the index.
   */
  lemma CommentedCloseUndoesOpen(steps: seq<Step>, slot: Slot, io: OpenIo, close: CloseIo, t: State, h: Ptr)
    requires Inv(EMPTY) && IsRun(EMPTY, steps, AsCommented)
    requires var s := After(EMPTY, steps, AsCommented);
             && s.next < TABLE_SIZE && OpenOk(s, Some(slot), io)
             && Open(s, true, Some(slot), io) == OpenOutcome(t, 0, h) && h != NULL
    requires t.next <= |t.table| && Closable(t, h, close) && Close(t, h, close, AsCommented).code == 0
    ensures var s := After(EMPTY, steps, AsCommented);
            Close(t, h, close, AsCommented).state == s.(table := s.table[s.next := NULL])
  {
    CommentedRunKeepsTail(EMPTY, steps);
    CloseUndoesOpen(After(EMPTY, steps, AsCommented), slot, io, close, AsCommented, t, h);
  }

  // ---------------------------------------------------------------- a device that cannot be closed

  ghost predicate KeepsZeroId(t: State, p: Ptr)
  {
    p in t.devs && t.devs[p].deviceId == 0
  }

  /** No step takes away or changes a record with device id 0, but unloading and a release of it. */
  lemma StepKeepsZeroId(s: State, step: Step, mode: Shrink, p: Ptr)
    requires Inv(s) && Allowed(s, step) && KeepsZeroId(s, p)
    requires !step.UnloadStep? && !(step.FreeStep? && step.p == p)
    ensures KeepsZeroId(Apply(s, step, mode), p)
  {
    NullIsNoRecord(s);
    if step.CloseStep? || step.FreeStep? {
      ReleaseKeepsZeroId(s, step, mode, p);
    } else if IsPlainStep(step) {
      PlainStepSameTable(s, step, mode);
    } else {
      EntryKeepsZeroId(s, step, mode, p);
    }
  }

  lemma ReleaseKeepsZeroId(s: State, step: Step, mode: Shrink, p: Ptr)
    requires Inv(s) && Allowed(s, step) && KeepsZeroId(s, p)
    requires step.CloseStep? || (step.FreeStep? && step.p != p)
    ensures KeepsZeroId(Apply(s, step, mode), p)
  {
    match step
    case CloseStep(h, io) =>
      if h != NULL {
        HandleFits(s, h, io.free.unmapErrs);
        if Reaches(s, h) {
          FreeKeepsOthers(FdClosed(s, s.devs[h].fd), h, io.free, mode, p);
        }
      }
    case FreeStep(q, io) =>
      HandleFits(s, q, io.unmapErrs);
      FreeKeepsOthers(s, q, io, mode, p);
  }

  lemma EntryKeepsZeroId(s: State, step: Step, mode: Shrink, p: Ptr)
    requires Inv(s) && Allowed(s, step) && KeepsZeroId(s, p) && (step.OpenStep? || step.BarsStep?)
    ensures KeepsZeroId(Apply(s, step, mode), p)
  {
    match step
    case OpenStep(hasOut, slot, io) =>
      OpenConserves(s, hasOut, slot, io);
      if Opened(Open(s, hasOut, slot, io)) {
        OpenShape(s, slot.value, io);
      }
    case BarsStep(h, hasOut, io) =>
      if Usable(s, h) && hasOut {
        FillConserves(s, h, io);
      }
  }

  /** The run neither unloads the library nor releases `p` behind the caller's back. */
  predicate NeverReleases(steps: seq<Step>, p: Ptr)
  {
    forall i :: 0 <= i < |steps| ==> !steps[i].UnloadStep? && !(steps[i].FreeStep? && steps[i].p == p)
  }

  lemma {:induction false} RunKeepsZeroId(s: State, steps: seq<Step>, mode: Shrink, p: Ptr)
    requires Inv(s) && IsRun(s, steps, mode) && KeepsZeroId(s, p) && NeverReleases(steps, p)
    ensures KeepsZeroId(After(s, steps, mode), p)
    decreases |steps|
  {
    if steps != [] {
      StepConserves(s, steps[0], mode);
      StepKeepsZeroId(s, steps[0], mode, p);
      RunKeepsZeroId(Apply(s, steps[0], mode), steps[1..], mode, p);
    }
  }

  lemma ZeroIdOk(s: State, slot: Slot, io: OpenIo)
    requires Inv(s) && s.next < TABLE_SIZE && OpenOk(s, Some(slot), io)
    ensures OpenOk(s, Some(slot), io.(deviceId := 0))
  {
    var e, z := Entered(s, slot, io), Entered(s, slot, io.(deviceId := 0));
    assert forall k :: 0 <= k < |io.fill.bars| ==> BarIoOk(e, io.fill, io.fill.bars[k]);
    assert e.fds == z.fds && e.maps == z.maps;
  }

  /**
   A device that opens would open as well if its configuration reported device id 0 (`zero`).  From then on, whatever is
   called and however often, no close of it ever succeeds or changes anything.
   */
  lemma ZeroIdNeverCloses(s: State, slot: Slot, io: OpenIo, zero: OpenIo, t: State, steps: seq<Step>, close: CloseIo,
                          mode: Shrink)
    requires Inv(s) && s.next < TABLE_SIZE && OpenOk(s, Some(slot), io) && zero == io.(deviceId := 0)
    requires Opened(Open(s, true, Some(slot), io)) && t == Open(s, true, Some(slot), zero).state
    requires Inv(t) && IsRun(t, steps, mode) && NeverReleases(steps, io.record) && |close.free.unmapErrs| == BAR_SLOTS
    ensures Open(s, true, Some(slot), zero) == OpenOutcome(t, 0, io.record)
    ensures var u := After(t, steps, mode);
            && io.record in u.devs && u.next <= |u.table| && Closable(u, io.record, close)
            && Close(u, io.record, close, mode) == Outcome(u, -EINVAL)
  {
    OpenIgnoresId(s, slot, io, 0);
    ZeroIdOk(s, slot, io);
    OpenConserves(s, true, Some(slot), io);
    OpenShape(s, slot, zero);
    RunKeepsZeroId(t, steps, mode, io.record);
    var u := After(t, steps, mode);
    HandleFits(u, io.record, close.free.unmapErrs);
    ZeroIdRefused(u, io.record, close, mode);
  }

  // ---------------------------------------------------------------- a close that cannot be finished

  /** The record is there, its descriptor number is not open. */
  ghost predicate HalfClosed(t: State, h: Ptr, fd: int)
  {
    h in t.devs && t.devs[h].fd == fd && t.devs[h].deviceId != 0 && fd !in t.fds
  }

  lemma OpenAddsFd(s: State, hasOut: bool, slot: Option<Slot>, io: OpenIo)
    requires Inv(s) && s.next < TABLE_SIZE && OpenOk(s, slot, io)
    ensures forall f :: f in Open(s, hasOut, slot, io).state.fds ==> f in s.fds || f == io.fd
  {
    OpenConserves(s, hasOut, slot, io);
    if Opened(Open(s, hasOut, slot, io)) {
      OpenShape(s, slot.value, io);
    }
  }

  lemma EntryKeepsHalfClosed(s: State, step: Step, mode: Shrink, h: Ptr, fd: int)
    requires Inv(s) && Allowed(s, step) && HalfClosed(s, h, fd) && (step.OpenStep? || step.BarsStep?)
    requires step.OpenStep? ==> step.openIo.fd != fd
    ensures HalfClosed(Apply(s, step, mode), h, fd)
  {
    match step
    case OpenStep(hasOut, slot, io) =>
      OpenAddsFd(s, hasOut, slot, io);
      OpenConserves(s, hasOut, slot, io);
      if Opened(Open(s, hasOut, slot, io)) {
        OpenShape(s, slot.value, io);
      }
    case BarsStep(q, hasOut, io) =>
      if Usable(s, q) && hasOut {
        FillConserves(s, q, io);
      }
  }

  lemma ReleaseKeepsHalfClosed(s: State, step: Step, mode: Shrink, h: Ptr, fd: int)
    requires Inv(s) && Allowed(s, step) && HalfClosed(s, h, fd)
    requires step.CloseStep? || (step.FreeStep? && step.p != h)
    ensures HalfClosed(Apply(s, step, mode), h, fd)
  {
    NullIsNoRecord(s);
    match step
    case CloseStep(q, io) =>
      if q != NULL {
        HandleFits(s, q, io.free.unmapErrs);
        if Reaches(s, q) {
          FreeKeepsOthers(FdClosed(s, s.devs[q].fd), q, io.free, mode, h);
        }
      }
    case FreeStep(q, io) =>
      HandleFits(s, q, io.unmapErrs);
      FreeKeepsOthers(s, q, io, mode, h);
  }

  /** No open of the run is given the number `fd`. */
  predicate NeverReuses(steps: seq<Step>, fd: int)
  {
    forall i :: 0 <= i < |steps| && steps[i].OpenStep? ==> steps[i].openIo.fd != fd
  }

  lemma {:induction false} RunKeepsHalfClosed(s: State, steps: seq<Step>, mode: Shrink, h: Ptr, fd: int)
    requires Inv(s) && IsRun(s, steps, mode) && HalfClosed(s, h, fd)
    requires NeverReleases(steps, h) && NeverReuses(steps, fd)
    ensures HalfClosed(After(s, steps, mode), h, fd)
    decreases |steps|
  {
    if steps != [] {
      var step := steps[0];
      StepConserves(s, step, mode);
      if step.CloseStep? || step.FreeStep? {
        ReleaseKeepsHalfClosed(s, step, mode, h, fd);
      } else if IsPlainStep(step) {
        PlainStepSameTable(s, step, mode);
      } else {
        EntryKeepsHalfClosed(s, step, mode, h, fd);
      }
      RunKeepsHalfClosed(Apply(s, step, mode), steps[1..], mode, h, fd);
    }
  }

  lemma FailedCloseHalfCloses(s: State, h: Ptr, io: CloseIo, mode: Shrink)
    requires Inv(s) && Closable(s, h, io) && Reaches(s, h) && Close(s, h, io, mode).code != 0
    ensures HalfClosed(Close(s, h, io, mode).state, h, s.devs[h].fd)
  {
    if io.closeErrno == 0 {
      StopCode(FdClosed(s, s.devs[h].fd), h, io.free, mode);
    }
  }

  /**
   After a close that failed once it had closed the descriptor, every later close of the device fails with `EBADF` and
   changes nothing, whatever is called in between, until an open is given the number again or the library is unloaded;
   and the record stays.
   */
  lemma CloseNeverRecovers(s: State, h: Ptr, io: CloseIo, t: State, steps: seq<Step>, again: CloseIo, mode: Shrink)
    requires Inv(s) && Closable(s, h, io) && Reaches(s, h)
    requires t == Close(s, h, io, mode).state && Close(s, h, io, mode).code != 0
    requires Inv(t) && IsRun(t, steps, mode) && NeverReleases(steps, h) && NeverReuses(steps, s.devs[h].fd)
    requires |again.free.unmapErrs| == BAR_SLOTS
    ensures var u := After(t, steps, mode);
            && h in u.devs && u.next <= |u.table| && Closable(u, h, again)
            && Close(u, h, again, mode) == Outcome(u, EBADF)
  {
    FailedCloseHalfCloses(s, h, io, mode);
    RunKeepsHalfClosed(t, steps, mode, h, s.devs[h].fd);
    HandleFits(After(t, steps, mode), h, again.free.unmapErrs);
  }
}
