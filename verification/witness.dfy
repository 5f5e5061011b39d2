/**
 The failures that `Registry` describes do happen: runs of a fresh library, over a directory with two devices of one BAR
 each, that reach them.
 */
module Witness {
  import opened Kernel
  import opened Lifecycle
  import opened Ownership
  import opened BarLoops
  import opened Conservation
  import opened Buffers
  import opened Release
  import opened Registry
  import opened Runs
  import opened Scan
  import Naming

  const FIRST: Slot := Slot(0, 3, 0, 0)
  const SECOND: Slot := Slot(0, 4, 0, 0)

  /** The two devices as sysfs lists them. */
  const DIRECTORY: seq<Entry> := [Entry(true, Naming.PrintName(FIRST)), Entry(true, Naming.PrintName(SECOND))]

  const NO_LINE: BarIo := BarIo(0, 0, 0, 0, MapFailed(EINVAL))

  /** One BAR of 4096 bytes, mapped at `addr`. */
  function OneBar(addr: Ptr): (io: FillIo)
    ensures |io.bars| == BAR_SLOTS && io.bars[0] == BarIo(0x1000, 0x1FFF, 91, 0, Mapped(addr, seq(0x1000, _ => 0)))
    ensures forall k :: 1 <= k < BAR_SLOTS ==> io.bars[k] == NO_LINE
  {
    FillIo(0, 90, 0, true, [BarIo(0x1000, 0x1FFF, 91, 0, Mapped(addr, seq(0x1000, _ => 0)))] + seq(5, _ => NO_LINE))
  }

  /** Every call of an open works; the device's id is 6. */
  function Opening(record: Ptr, fd: int, addr: Ptr): OpenIo
  {
    OpenIo(0, DIRECTORY, Slot(0, 0, 0, 0), record, 0, 0x1A13, 6, true, fd, 0, OneBar(addr))
  }

  /** A close in which everything works. */
  const CLEAN: CloseIo := CloseIo(0, FreeIo(seq(BAR_SLOTS, _ => 0), true))

  /** A close in which no `munmap` works. */
  const STUCK: CloseIo := CloseIo(0, FreeIo(seq(BAR_SLOTS, _ => EINVAL), true))

  // ---------------------------------------------------------------- runs

  /** The fresh library gets from its first state to `t` by these calls. */
  ghost predicate Leads(steps: seq<Step>, t: State)
  {
    Inv(EMPTY) && IsRun(EMPTY, steps, AsWritten) && After(EMPTY, steps, AsWritten) == t
  }

  lemma {:induction false} RunThenStep(s: State, steps: seq<Step>, step: Step, mode: Shrink)
    requires Inv(s) && IsRun(s, steps, mode) && Allowed(After(s, steps, mode), step)
    ensures IsRun(s, steps + [step], mode)
    ensures After(s, steps + [step], mode) == Apply(After(s, steps, mode), step, mode)
    decreases |steps|
  {
    var all := steps + [step];
    if steps == [] {
      assert all == [step] && all[1..] == [];
      StepConserves(s, step, mode);
    } else {
      assert all[0] == steps[0] && all[1..] == steps[1..] + [step];
      StepConserves(s, steps[0], mode);
      RunThenStep(Apply(s, steps[0], mode), steps[1..], step, mode);
    }
  }

  lemma LeadsOn(steps: seq<Step>, s: State, step: Step)
    requires Leads(steps, s) && Inv(s) && Allowed(s, step)
    ensures Leads(steps + [step], Apply(s, step, AsWritten)) && Inv(Apply(s, step, AsWritten))
  {
    RunThenStep(EMPTY, steps, step, AsWritten);
    StepConserves(s, step, AsWritten);
  }

  lemma StartLeads()
    ensures Leads([], EMPTY) && Inv(EMPTY)
  {
    EmptyInv();
  }

  // ---------------------------------------------------------------- opening

  lemma InDirectory(slot: Slot)
    requires slot == FIRST || slot == SECOND
    ensures Listed(DIRECTORY, slot, Slot(0, 0, 0, 0))
  {
    var slots := [FIRST, SECOND];
    OpenFindsLinks(DIRECTORY, slots, slot, Slot(0, 0, 0, 0));
    assert IsLinkOf(DIRECTORY[0], FIRST) && IsLinkOf(DIRECTORY[1], SECOND);
  }

  /** Room and numbers for one more device. */
  ghost predicate Spare(s: State, record: Ptr, fd: int, addr: Ptr)
  {
    && s.next < TABLE_SIZE && FreshBlock(s, record) && fd > 0 && fd != 90 && fd != 91
    && fd !in s.fds && 90 !in s.fds && 91 !in s.fds && addr != NULL && addr !in s.maps
  }

  lemma OneBarOk(e: State, addr: Ptr)
    requires 90 !in e.fds && 91 !in e.fds && addr != NULL && addr !in e.maps
    ensures FillOk(e, OneBar(addr)) && FillsAll(OneBar(addr).bars) && Described(OneBar(addr).bars, BAR_SLOTS) != []
  {
    var io := OneBar(addr);
    assert BarLength(io.bars[0]) == 0x1000;
    assert forall k :: 0 <= k < BAR_SLOTS ==> BarIoOk(e, io, io.bars[k]) && !BarFails(io.bars[k]);
    DescribedCompacts(io.bars, BAR_SLOTS);
    assert BarMaps(io.bars[0]) && HasBar(Described(io.bars, BAR_SLOTS), 0);
  }

  lemma OpeningOk(s: State, slot: Slot, record: Ptr, fd: int, addr: Ptr)
    requires Inv(s) && Spare(s, record, fd, addr) && (slot == FIRST || slot == SECOND)
    ensures OpenOk(s, Some(slot), Opening(record, fd, addr))
    ensures OpenProgress(true, Some(slot), Opening(record, fd, addr)).Ready?
  {
    OneBarOk(Entered(s, slot, Opening(record, fd, addr)), addr);
    InDirectory(slot);
  }

  /** The device in the table, with its descriptor, one BAR at `addr` and the id 6. */
  ghost predicate OpenedAs(s: State, t: State, h: Ptr, fd: int, addr: Ptr)
  {
    && AddsDevice(s, t, h) && t.devs[h].fd == fd && t.devs[h].deviceId == 6 && t.devs[h].barCount > 0
    && HoldsFd(t, h) && Registered(t, h) && t.maps.Keys <= s.maps.Keys + {addr}
  }

  lemma OneMapping(s: State, record: Ptr, addr: Ptr)
    requires FillOk(s, OneBar(addr))
    ensures MapsWith(record, s.maps, OneBar(addr).bars, BAR_SLOTS).Keys <= s.maps.Keys + {addr}
  {
    var bars := OneBar(addr).bars;
    forall a | a in MapsWith(record, s.maps, bars, BAR_SLOTS)
      ensures a in s.maps || a == addr
    {
      MapsAdded(s, record, OneBar(addr), BAR_SLOTS, a);
    }
  }

  lemma FilledAs(e: State, record: Ptr, addr: Ptr)
    requires record in e.devs && e.devs[record].barCount == 0
    requires 90 !in e.fds && 91 !in e.fds && addr != NULL && addr !in e.maps
    ensures var Outcome(t, ret) := Fill(e, record, OneBar(addr));
            ret == 0 && record in t.devs && t.devs[record].barCount > 0 && t.maps.Keys <= e.maps.Keys + {addr}
  {
    OneBarOk(e, addr);
    FillCode(e, record, OneBar(addr));
    OneMapping(e, record, addr);
  }

  /** Such an open succeeds. */
  lemma Opens(s: State, slot: Slot, record: Ptr, fd: int, addr: Ptr, t: State)
    requires Inv(s) && Spare(s, record, fd, addr) && (slot == FIRST || slot == SECOND)
    requires t == Open(s, true, Some(slot), Opening(record, fd, addr)).state
    ensures OpenOk(s, Some(slot), Opening(record, fd, addr))
    ensures Open(s, true, Some(slot), Opening(record, fd, addr)) == OpenOutcome(t, 0, record)
    ensures Inv(t) && OpenedAs(s, t, record, fd, addr)
  {
    var io := Opening(record, fd, addr);
    OpeningOk(s, slot, record, fd, addr);
    FilledAs(Entered(s, slot, io), record, addr);
    OpenConserves(s, true, Some(slot), io);
    OpenAdds(s, slot, io);
    OpenShape(s, slot, io);
  }

  lemma OpenLeads(steps: seq<Step>, s: State, slot: Slot, record: Ptr, fd: int, addr: Ptr)
    returns (on: seq<Step>, t: State)
    requires Leads(steps, s) && Inv(s) && Spare(s, record, fd, addr) && (slot == FIRST || slot == SECOND)
    ensures Leads(on, t) && Inv(t) && OpenedAs(s, t, record, fd, addr)
  {
    var step := OpenStep(true, Some(slot), Opening(record, fd, addr));
    t := Open(s, true, Some(slot), Opening(record, fd, addr)).state;
    Opens(s, slot, record, fd, addr, t);
    LeadsOn(steps, s, step);
    on := steps + [step];
  }

  // ---------------------------------------------------------------- the loop as written strands a device

  lemma CleanCloseWorks(s: State, h: Ptr)
    requires Inv(s) && h in s.devs && Reaches(s, h)
    ensures Closable(s, h, CLEAN) && Close(s, h, CLEAN, AsWritten).code == 0
  {
    HandleFits(s, h, CLEAN.free.unmapErrs);
    CloseSucceedsExactly(s, h, CLEAN, AsWritten);
  }

  const A: Ptr := 1
  const B: Ptr := 2

  lemma OneOpenReached() returns (steps: seq<Step>, s: State)
    ensures Leads(steps, s) && Inv(s) && OpenedAs(EMPTY, s, A, 5, 0x10000)
  {
    StartLeads();
    steps, s := OpenLeads([], EMPTY, FIRST, A, 5, 0x10000);
  }

  lemma BothOpen(one: State, s: State)
    requires OpenedAs(EMPTY, one, A, 5, 0x10000) && OpenedAs(one, s, B, 6, 0x20000)
    ensures TwoOpen(s, A, B) && Reaches(s, A)
  {
    assert A in s.devs - {B};
    assert s.devs[A] == one.devs[A];
  }

  lemma TwoOpenReached() returns (steps: seq<Step>, s: State)
    ensures Leads(steps, s) && Inv(s) && TwoOpen(s, A, B) && Reaches(s, A)
  {
    var one;
    steps, one := OneOpenReached();
    steps, s := OpenLeads(steps, one, SECOND, B, 6, 0x20000);
    BothOpen(one, s);
  }

  /** The calls lead to `s`, and one close more to `t`, where `b` is open and out of reach. */
  ghost predicate Stranding(steps: seq<Step>, s: State, close: Step, t: State, b: Ptr)
  {
    && Leads(steps, s) && Leads(steps + [close], t) && close.CloseStep?
    && Registered(s, b) && b in t.devs && HoldsFd(t, b) && !Registered(t, b)
  }

  /**
   A run of three calls on a fresh library, none of which fails: two devices are opened and the first is closed.  The
   second is then open and out of reach; `Registry.SecondCloseFreesNothing` says what closing it does.
   */
  lemma StrandingHappens()
    ensures exists steps, s, close, t, b :: Stranding(steps, s, close, t, b)
  {
    var steps, s := TwoOpenReached();
    CleanCloseWorks(s, A);
    FirstCloseStrands(s, A, B, CLEAN);
    TwoRegistered(s, A, B);
    CleanLeads(steps, s, A);
    assert Stranding(steps, s, CloseStep(A, CLEAN), Close(s, A, CLEAN, AsWritten).state, B);
  }

  lemma CleanLeads(steps: seq<Step>, s: State, h: Ptr)
    requires Leads(steps, s) && Inv(s) && h != NULL && Closable(s, h, CLEAN)
    ensures Leads(steps + [CloseStep(h, CLEAN)], Close(s, h, CLEAN, AsWritten).state)
  {
    LeadsOn(steps, s, CloseStep(h, CLEAN));
  }

  // ---------------------------------------------------------------- a close takes the descriptor of another device

  /** The record's first descriptor is mapped. */
  predicate FirstMapped(s: State, h: Ptr)
  {
    h in s.devs && s.devs[h].barCount > 0 && |s.devs[h].bars| == BAR_SLOTS && s.devs[h].bars[0].userAddress != NULL
  }

  lemma OpenIsMapped(s: State, h: Ptr)
    requires Inv(s) && HoldsFd(s, h) && s.devs[h].barCount > 0
    ensures FirstMapped(s, h)
  {
    assert RecordOk(s, h);
  }

  /** A close whose `munmap` fails closes the descriptor and leaves the rest. */
  lemma StuckClose(s: State, h: Ptr)
    requires Inv(s) && Reaches(s, h) && Registered(s, h) && FirstMapped(s, h)
    ensures Closable(s, h, STUCK) && Close(s, h, STUCK, AsWritten) == Outcome(FdClosed(s, s.devs[h].fd), EINVAL)
  {
    HandleFits(s, h, STUCK.free.unmapErrs);
    var c := FdClosed(s, s.devs[h].fd);
    SameRegistered(s, c);
    IndexOfRegistered(c, h);
    assert !UnmapWorks(s.devs[h].bars, STUCK.free.unmapErrs, 0);
    NothingUnmapped(c, h);
  }

  lemma StuckLeads(steps: seq<Step>, s: State, h: Ptr)
    requires Leads(steps, s) && Inv(s) && Reaches(s, h) && Registered(s, h) && FirstMapped(s, h)
    ensures Leads(steps + [CloseStep(h, STUCK)], FdClosed(s, s.devs[h].fd)) && Inv(FdClosed(s, s.devs[h].fd))
  {
    StuckClose(s, h);
    LeadsOn(steps, s, CloseStep(h, STUCK));
  }

  lemma NothingUnmapped(s: State, p: Ptr)
    requires p in s.devs
    ensures Unmaps(s, p, 0) == s
  {
    assert Cleared(s.devs[p].bars, 0) == s.devs[p].bars;
    assert MapsWithout(s.maps, s.devs[p].bars, 0) == s.maps;
    assert s.devs[p := s.devs[p]] == s.devs;
  }

  lemma HalfClosedReached() returns (steps: seq<Step>, u: State)
    ensures Leads(steps, u) && Inv(u) && Spare(u, B, 5, 0x20000) && FirstMapped(u, A)
    ensures u.next == 1 && u.table[0] == A && u.devs[A].fd == 5 && u.devs[A].deviceId == 6
  {
    var one;
    steps, one := OneOpenReached();
    OpenIsMapped(one, A);
    StuckLeads(steps, one, A);
    steps, u := steps + [CloseStep(A, STUCK)], FdClosed(one, 5);
  }

  lemma SharedNumber(u: State, s: State)
    requires |u.table| == TABLE_SIZE && u.next == 1 && u.table[0] == A && FirstMapped(u, A)
    requires u.devs[A].fd == 5 && u.devs[A].deviceId == 6 && OpenedAs(u, s, B, 5, 0x20000)
    ensures Reaches(s, A) && Registered(s, A) && FirstMapped(s, A) && s.devs[A].fd == s.devs[B].fd
  {
    assert A in s.devs - {B};
    assert s.devs[A] == u.devs[A];
    assert s.table[0] == A;
  }

  /** A device half closed, and another open with the same descriptor number. */
  lemma SharedNumberReached() returns (steps: seq<Step>, s: State)
    ensures Leads(steps, s) && Inv(s) && Reaches(s, A) && Registered(s, A) && FirstMapped(s, A)
    ensures HoldsFd(s, B) && Registered(s, B) && s.devs[A].fd == s.devs[B].fd
  {
    var u;
    steps, u := HalfClosedReached();
    steps, s := OpenLeads(steps, u, SECOND, B, 5, 0x20000);
    SharedNumber(u, s);
  }

  /** The calls lead to `s`, and one close more of another device to `t`, where `b` has lost its descriptor. */
  ghost predicate Taking(steps: seq<Step>, s: State, close: Step, t: State, b: Ptr)
  {
    && Leads(steps, s) && Leads(steps + [close], t) && close.CloseStep? && close.h != b
    && HoldsFd(s, b) && Registered(t, b) && b in t.devs && !HoldsFd(t, b)
  }

  /**
   A run in which `munmap` fails: a device is closed, a second one is opened and gets the number of the first one's
   descriptor, and closing the first again closes the descriptor of the second, which stays in the table without one.
   */
  lemma DescriptorTakenHappens()
    ensures exists steps, s, close, t, b :: Taking(steps, s, close, t, b)
  {
    var steps, s := SharedNumberReached();
    StuckClose(s, A);
    StuckLeads(steps, s, A);
    var t := FdClosed(s, s.devs[A].fd);
    CloseTakesForeignFd(s, A, B, STUCK, AsWritten);
    SameRegistered(s, t);
    assert Taking(steps, s, CloseStep(A, STUCK), t, B);
  }

  // ---------------------------------------------------------------- an open leaks descriptor 0

  /** The calls lead to `t`, where descriptor 0 is open and no device holds it. */
  ghost predicate ZeroLeaked(steps: seq<Step>, t: State)
  {
    Leads(steps, t) && Leaked(t, Fd(0)) && forall p :: !Registered(t, p)
  }

  lemma ZeroOpens(s: State, io: OpenIo)
    requires Inv(s) && s.next < TABLE_SIZE && FreshBlock(s, A) && 0 !in s.fds && 90 !in s.fds && 91 !in s.fds
    requires 0x10000 !in s.maps && io == Opening(A, 0, 0x10000)
    ensures OpenOk(s, Some(FIRST), io) && Open(s, true, Some(FIRST), io).code == INSUFFICIENT_RESOURCES
    ensures var t := Open(s, true, Some(FIRST), io).state;
            Leaked(t, Fd(0)) && forall p :: Registered(t, p) <==> Registered(s, p)
  {
    OneBarOk(Entered(s, FIRST, io), 0x10000);
    InDirectory(FIRST);
    OpenConserves(s, true, Some(FIRST), io);
    assert OpenLeaves(true, Some(FIRST), io, Fd(0));
    SameRegistered(s, Open(s, true, Some(FIRST), io).state);
  }

  /** A process without a descriptor 0 opens a device and is given it: the open fails, and the descriptor stays open. */
  lemma ZeroLeakHappens()
    ensures exists steps, t :: ZeroLeaked(steps, t)
  {
    StartLeads();
    var io := Opening(A, 0, 0x10000);
    ZeroOpens(EMPTY, io);
    var step := OpenStep(true, Some(FIRST), io);
    LeadsOn([], EMPTY, step);
    assert ZeroLeaked([] + [step], Open(EMPTY, true, Some(FIRST), io).state);
  }

  // ---------------------------------------------------------------- a retried lock locks nothing

  /** The kernel gives a buffer with id 7, and `mmap` fails. */
  const UNMAPPED: ContigIo := ContigIo(0, 7, 0x5000, 3, MapFailed(ENOMEM))

  /**
   The calls lead to `s`, and a contiguous lock more to `t`; it fails, leaves `p` in the caller's pointer, and leaks the
   kernel's buffer.  A retry with that pointer returns 0, whatever the system does, with no buffer locked.
   */
  ghost predicate RetryLies(steps: seq<Step>, s: State, h: Ptr, io: ContigIo, t: State, p: Ptr)
  {
    && Leads(steps, s) && Leads(steps + [ContigLockStep(h, true, 64, true, NULL, io)], t) && h in s.devs && h in t.devs
    && ContigLock(s, h, true, 64, true, NULL, io) == Outcome(t, -ENOMEM)
    && p == ContigHandle(s, h, true, 64, true, NULL, io) && t.dma.contigs == map[] && Leaked(t, ContigId(io.id))
    && forall again :: ContigLock(t, h, true, 64, true, p, again) == Outcome(t, 0)
  }

  lemma UnmappedLock(s: State, h: Ptr)
    requires Inv(s) && Usable(s, h) && s.devs[h].fd > 0 && FreshBlock(s, 3)
    requires s.dma.contigIds == map[] && s.dma.contigs == map[]
    ensures ContigIoOk(s, 64, UNMAPPED)
    ensures var Outcome(t, ret) := ContigLock(s, h, true, 64, true, NULL, UNMAPPED);
            && ret == -ENOMEM && t.dma.contigs == map[] && t.devs == s.devs && Leaked(t, ContigId(7))
            && ContigHandle(s, h, true, 64, true, NULL, UNMAPPED) == 3
  {
    ContigLockConserves(s, h, true, 64, true, NULL, UNMAPPED);
    assert ContigLockLeaves(s, h, true, 64, true, NULL, UNMAPPED, ContigId(7));
  }

  lemma RetryLiesHappens()
    ensures exists steps, s, h, io, t, p :: RetryLies(steps, s, h, io, t, p)
  {
    var steps, s := OneOpenReached();
    UnmappedLock(s, A);
    var step := ContigLockStep(A, true, 64, true, NULL, UNMAPPED);
    LeadsOn(steps, s, step);
    var t := ContigLock(s, A, true, 64, true, NULL, UNMAPPED).state;
    assert RetryLies(steps, s, A, UNMAPPED, t, 3);
  }
}
