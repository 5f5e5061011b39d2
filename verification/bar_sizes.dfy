/**
 The size of a BAR against the 32-bit `length` of its descriptor: which devices can be described at all, and of which
 the description is right.
 */
module BarSizes {
  import opened Kernel
  import opened Lifecycle
  import opened Ownership
  import opened BarLoops
  import opened Conservation
  import opened Scan
  import Naming

  /** One line of the `resource` file: two addresses. */
  datatype Line = Line(start: nat, end: nat)

  predicate LinePresent(l: Line)
  {
    !(l.start == 0 && l.end == 0)
  }

  function SizeOf(l: Line): int
  {
    l.end - l.start + 1
  }

  /** Six lines of 64-bit addresses, each end no lower than its start. */
  ghost predicate SixLines(lines: seq<Line>)
  {
    |lines| == BAR_SLOTS && forall k :: 0 <= k < BAR_SLOTS ==> lines[k].start <= lines[k].end < U64
  }

  /** The calls of a fill that read these lines. */
  ghost predicate Reads(io: FillIo, lines: seq<Line>)
  {
    && |io.bars| == |lines|
    && forall k :: 0 <= k < |lines| ==> io.bars[k].start == lines[k].start && io.bars[k].end == lines[k].end
  }

  /** No BAR that is there has a size that 32 bits cut to zero. */
  ghost predicate NoneVanishes(lines: seq<Line>)
  {
    forall k :: 0 <= k < |lines| && LinePresent(lines[k]) ==> SizeOf(lines[k]) % U32 != 0
  }

  lemma LengthIsCut(b: BarIo)
    requires b.start <= b.end < U64
    ensures BarLength(b) == (b.end - b.start + 1) % U32
    ensures BarLength(b) == b.end - b.start + 1 <==> b.end - b.start + 1 < U32
  {
  }

  // ---------------------------------------------------------------- numbers that are free

  lemma {:induction false} IntsBounded(s: set<int>) returns (b: nat)
    ensures forall x :: x in s ==> x < b
  {
    if x :| x in s {
      var c := IntsBounded(s - {x});
      b := if x < c then c else x + 1;
      forall y | y in s
        ensures y < b
      {
        assert y == x || y in s - {x};
      }
    } else {
      b := 0;
    }
  }

  /** A system that has descriptors and addresses to spare and refuses nothing but a length of zero. */
  function Granting(lines: seq<Line>, fd: int, addr: Ptr): (io: FillIo)
    ensures |io.bars| == |lines|
  {
    FillIo(0, fd, 0, true,
           seq(|lines|, k requires 0 <= k < |lines| =>
             var b := BarIo(lines[k].start, lines[k].end, fd + 1, 0, MapFailed(EINVAL));
             b.(map_ := Mapped(addr + k, seq(BarLength(b), _ => 0)))))
  }

  lemma GrantingWorks(s: State, lines: seq<Line>, fd: nat, addr: Ptr)
    requires SixLines(lines) && NoneVanishes(lines) && addr > 0
    requires (forall f :: f in s.fds ==> f < fd) && (forall a :: a in s.maps ==> a < addr)
    ensures Reads(Granting(lines, fd, addr), lines) && FillOk(s, Granting(lines, fd, addr))
    ensures FillsAll(Granting(lines, fd, addr).bars)
  {
    var io := Granting(lines, fd, addr);
    forall k | 0 <= k < BAR_SLOTS
      ensures BarIoOk(s, io, io.bars[k]) && !BarFails(io.bars[k])
    {
      LengthIsCut(io.bars[k]);
      assert LinePresent(lines[k]) <==> Present(io.bars[k]);
    }
  }

  // ---------------------------------------------------------------- which devices can be described

  /** Some outcome of the system calls describes the device of these lines. */
  ghost predicate Describable(s: State, p: Ptr, lines: seq<Line>)
    requires p in s.devs && |lines| == BAR_SLOTS
  {
    exists io :: Reads(io, lines) && FillOk(s, io) && Fill(s, p, io).code == 0
  }

  lemma VanishingFails(s: State, p: Ptr, lines: seq<Line>, io: FillIo)
    requires p in s.devs && s.devs[p].barCount == 0 && SixLines(lines) && Reads(io, lines) && FillOk(s, io)
    requires Fill(s, p, io).code == 0
    ensures NoneVanishes(lines)
  {
    FillCode(s, p, io);
    forall k | 0 <= k < |lines| && LinePresent(lines[k])
      ensures SizeOf(lines[k]) % U32 != 0
    {
      if SizeOf(lines[k]) % U32 == 0 {
        WholeFourGigabytesFail(s, p, io, k);
      }
    }
  }

  /**
   A device can be described exactly when none of its BARs has a size that is a multiple of 4 GiB: with
   such a BAR every outcome of every call ends in an error, and without one the calls that succeed suffice.
   */
  lemma DescribableExactly(s: State, p: Ptr, lines: seq<Line>)
    requires p in s.devs && s.devs[p].barCount == 0 && SixLines(lines)
    ensures Describable(s, p, lines) <==> NoneVanishes(lines)
  {
    if NoneVanishes(lines) {
      var fd := IntsBounded(s.fds.Keys);
      var addr := IntsBounded(s.maps.Keys);
      var io := Granting(lines, fd, addr + 1);
      GrantingWorks(s, lines, fd, addr + 1);
      FillCode(s, p, io);
      assert Reads(io, lines) && FillOk(s, io) && Fill(s, p, io).code == 0;
    }
    if Describable(s, p, lines) {
      var io :| Reads(io, lines) && FillOk(s, io) && Fill(s, p, io).code == 0;
      VanishingFails(s, p, lines, io);
    }
  }

  /** These calls open the device at `slot` with these lines. */
  ghost predicate OpensBy(s: State, slot: Slot, lines: seq<Line>, io: OpenIo)
    requires s.next < |s.table|
  {
    Reads(io.fill, lines) && OpenOk(s, Some(slot), io) && Opened(Open(s, true, Some(slot), io))
  }

  ghost predicate Openable(s: State, slot: Slot, lines: seq<Line>)
    requires s.next < |s.table|
  {
    exists io :: OpensBy(s, slot, lines, io)
  }

  /** An open that is ready for the BARs succeeds exactly when the fill does. */
  lemma ReadyOpens(s: State, slot: Slot, io: OpenIo)
    requires s.next < |s.table| && |io.fill.bars| == BAR_SLOTS && io.record != NULL
    ensures Opened(Open(s, true, Some(slot), io)) <==>
            OpenProgress(true, Some(slot), io).Ready? && Fill(Entered(s, slot, io), io.record, io.fill).code == 0
  {
  }

  /** A record address that no block has. */
  lemma FreeBlock(s: State) returns (p: Ptr)
    ensures FreshBlock(s, p)
  {
    var b := IntsBounded(s.devs.Keys + s.dma.sgs.Keys + s.dma.pageTables.Keys + s.dma.contigs.Keys + s.dma.scratch);
    p := b + 1;
  }

  /** An open in which everything before the BARs works, with the calls of `fill` for them. */
  function Plain(slot: Slot, record: Ptr, fd: int, fill: FillIo): OpenIo
  {
    OpenIo(0, [Entry(true, Naming.PrintName(slot))], slot, record, 0, 1, 1, true, fd, 0, fill)
  }

  lemma PlainIsReady(slot: Slot, record: Ptr, fd: int, fill: FillIo)
    requires Naming.Scannable(slot) && fd > 0
    ensures OpenProgress(true, Some(slot), Plain(slot, record, fd, fill)) == Ready
  {
    var entries := [Entry(true, Naming.PrintName(slot))];
    OpenFindsLinks(entries, [slot], slot, slot);
    assert IsLinkOf(entries[0], slot);
  }

  lemma OpensWith(s: State, slot: Slot, lines: seq<Line>)
    requires Inv(s) && s.next < TABLE_SIZE && Naming.Scannable(slot) && SixLines(lines) && NoneVanishes(lines)
    ensures Openable(s, slot, lines)
  {
    var p := FreeBlock(s);
    var fd := IntsBounded(s.fds.Keys);
    var addr := IntsBounded(s.maps.Keys);
    var fill := Granting(lines, fd + 2, addr + 1);
    var io := Plain(slot, p, fd + 1, fill);
    var e := Entered(s, slot, io);
    GrantingWorks(e, lines, fd + 2, addr + 1);
    FillCode(e, p, fill);
    PlainIsReady(slot, p, fd + 1, fill);
    ReadyOpens(s, slot, io);
    assert OpensBy(s, slot, lines, io);
  }

  /** The same for opening: in every reachable state with room, the device opens exactly when no size vanishes. */
  lemma OpenableExactly(s: State, slot: Slot, lines: seq<Line>)
    requires Inv(s) && s.next < TABLE_SIZE && Naming.Scannable(slot) && SixLines(lines)
    ensures Openable(s, slot, lines) <==> NoneVanishes(lines)
  {
    if NoneVanishes(lines) {
      OpensWith(s, slot, lines);
    }
    if Openable(s, slot, lines) {
      var io :| OpensBy(s, slot, lines, io);
      ReadyOpens(s, slot, io);
      VanishingFails(Entered(s, slot, io), io.record, lines, io.fill);
    }
  }

  // ---------------------------------------------------------------- which descriptions are right

  /** Descriptor `d` says the size of its line, cut to 32 bits. */
  predicate SaysCutSize(d: Bar, lines: seq<Line>)
  {
    d.barNum < |lines| && LinePresent(lines[d.barNum]) && d.length == SizeOf(lines[d.barNum]) % U32
  }

  /**
   After a first fill with code 0 every descriptor's length is the size of its BAR modulo 2^32.  It is the size itself
   exactly when that is below 4 GiB; the rest of a larger BAR is neither mapped nor reachable, and no error says so.
   */
  lemma LengthsAreCut(s: State, p: Ptr, lines: seq<Line>, io: FillIo, i: nat)
    requires p in s.devs && s.devs[p].barCount == 0 && SixLines(lines) && Reads(io, lines) && FillOk(s, io)
    requires Fill(s, p, io).code == 0 && p in Fill(s, p, io).state.devs
    requires var r := Fill(s, p, io).state.devs[p]; i < r.barCount <= |r.bars|
    ensures var d := Fill(s, p, io).state.devs[p].bars[i];
            SaysCutSize(d, lines) && (d.length == SizeOf(lines[d.barNum]) <==> SizeOf(lines[d.barNum]) < U32)
  {
    BarCompaction(s, p, io);
    var r := Fill(s, p, io).state.devs[p];
    var d := r.bars[..r.barCount][i];
    assert Describes(io.bars, d);
    LengthIsCut(io.bars[d.barNum]);
  }

  /** A BAR that is there has a descriptor. */
  lemma LineHasDescriptor(s: State, p: Ptr, io: FillIo, k: nat) returns (i: nat)
    requires p in s.devs && s.devs[p].barCount == 0 && FillOk(s, io) && Fill(s, p, io).code == 0
    requires k < BAR_SLOTS && Present(io.bars[k])
    ensures var t := Fill(s, p, io).state;
            p in t.devs && i < t.devs[p].barCount <= |t.devs[p].bars| && t.devs[p].bars[i].barNum == k
  {
    BarCompaction(s, p, io);
    var r := Fill(s, p, io).state.devs[p];
    var d := r.bars[..r.barCount];
    assert BarMaps(io.bars[k]) && HasBar(d, k);
    i :| 0 <= i < |d| && d[i].barNum == k;
    assert r.bars[i] == d[i];
  }

  /** The description of every BAR is right. */
  ghost predicate AllRight(r: Record, lines: seq<Line>)
  {
    && r.barCount <= |r.bars|
    && forall i :: 0 <= i < r.barCount ==>
         r.bars[i].barNum < |lines| && r.bars[i].length == SizeOf(lines[r.bars[i].barNum])
  }

  /** A fill with code 0 describes the device rightly exactly when every BAR that is there is smaller than 4 GiB. */
  lemma DescriptionRightExactly(s: State, p: Ptr, lines: seq<Line>, io: FillIo)
    requires p in s.devs && s.devs[p].barCount == 0 && SixLines(lines) && Reads(io, lines) && FillOk(s, io)
    requires Fill(s, p, io).code == 0
    ensures p in Fill(s, p, io).state.devs
    ensures AllRight(Fill(s, p, io).state.devs[p], lines) <==>
            forall k :: 0 <= k < BAR_SLOTS && LinePresent(lines[k]) ==> SizeOf(lines[k]) < U32
  {
    BarCompaction(s, p, io);
    var r := Fill(s, p, io).state.devs[p];
    forall i | 0 <= i < r.barCount
      ensures SaysCutSize(r.bars[i], lines)
      ensures r.bars[i].length == SizeOf(lines[r.bars[i].barNum]) <==> SizeOf(lines[r.bars[i].barNum]) < U32
    {
      LengthsAreCut(s, p, lines, io, i);
    }
    if AllRight(r, lines) {
      forall k | 0 <= k < BAR_SLOTS && LinePresent(lines[k])
        ensures SizeOf(lines[k]) < U32
      {
        var i := LineHasDescriptor(s, p, io, k);
        assert r.bars[i].barNum == k;
      }
    }
  }

  /** A BAR of 4 GiB and one page. */
  const LARGE: Line := Line(0x1_0000_0000, 0x2_0000_0FFF)

  /** A device with that BAR 0 and no other. */
  function OneLargeBar(): (lines: seq<Line>)
    ensures SixLines(lines) && lines[0] == LARGE
    ensures forall k :: 1 <= k < BAR_SLOTS ==> lines[k] == Line(0, 0)
  {
    [LARGE] + seq(5, _ => Line(0, 0))
  }

  lemma LargeBarIsPage(s: State, p: Ptr, lines: seq<Line>, io: FillIo)
    requires p in s.devs && s.devs[p].barCount == 0 && SixLines(lines) && lines[0] == LARGE
    requires Reads(io, lines) && FillOk(s, io) && Fill(s, p, io).code == 0
    ensures Shrinks(Fill(s, p, io).state, p)
  {
    var i := LineHasDescriptor(s, p, io, 0);
    LengthsAreCut(s, p, lines, io, i);
  }

  /**
   It is described without an error and as 4096 bytes long, of which nothing tells the caller: in every state there are
   calls that do it, and no calls with code 0 do otherwise.
   */
  lemma LargeBarShrinks(s: State, p: Ptr)
    requires p in s.devs && s.devs[p].barCount == 0
    ensures SizeOf(LARGE) == 0x1_0000_1000 && Describable(s, p, OneLargeBar())
    ensures forall io :: Reads(io, OneLargeBar()) && FillOk(s, io) && Fill(s, p, io).code == 0 ==>
              Shrinks(Fill(s, p, io).state, p)
  {
    var lines := OneLargeBar();
    DescribableExactly(s, p, lines);
    forall io | Reads(io, lines) && FillOk(s, io) && Fill(s, p, io).code == 0
      ensures Shrinks(Fill(s, p, io).state, p)
    {
      LargeBarIsPage(s, p, lines, io);
    }
  }

  /** A descriptor of BAR 0 says 4096. */
  ghost predicate Shrinks(t: State, p: Ptr)
  {
    p in t.devs && exists i :: 0 <= i < t.devs[p].barCount && i < |t.devs[p].bars| &&
                     t.devs[p].bars[i].barNum == 0 && t.devs[p].bars[i].length == 0x1000
  }
}
