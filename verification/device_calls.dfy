/**
 Opening, describing and closing devices, as the source does it step by step.  Each call is proved to leave the state
 that its function in `Lifecycle` gives, and to keep the invariant.
 */
module DeviceCalls {
  import opened Kernel
  import opened Lifecycle
  import opened Ownership
  import opened BarLoops
  import opened Conservation
  import opened Release
  import opened Objects
  import opened Answers
  import Naming

  /** Updating one record leaves the view of every other as it was. */
  lemma OneViewChanged(heap: map<Ptr, Device>, p: Ptr, before: map<Ptr, Record>)
    requires p in heap && heap.Keys == before.Keys
    requires forall q :: q in heap && q != p ==> heap[q].View() == before[q]
    ensures Views(heap) == before[p := heap[p].View()]
  {
  }

  /** The loop stops at the first failing line, so that is where `FillStop` is. */
  lemma StopsHere(bars: seq<BarIo>, k: nat)
    requires k < |bars| && BarFails(bars[k]) && forall j :: 0 <= j < k ==> !BarFails(bars[j])
    ensures FillStop(bars, |bars|) == k
  {
  }

  lemma RunsThrough(bars: seq<BarIo>)
    requires forall j :: 0 <= j < |bars| ==> !BarFails(bars[j])
    ensures FillStop(bars, |bars|) == |bars|
  {
  }

  /** One line that is there: its BAR is opened, mapped and closed, and described in the next cell. */
  method FillLine(lib: Library, p: Ptr, ibar: nat, b: BarIo, temp: array<Bar>, barCount: nat) returns (err: int)
    requires Present(b) && barCount < temp.Length && (b.fd >= 0 ==> b.fd !in lib.fds)
    requires (b.fd < 0 ==> b.openErrno != 0) && (b.map_.MapFailed? ==> b.map_.errno != 0)
    modifies lib`fds, lib`maps, temp
    ensures lib.fds == old(lib.fds)
    ensures err != 0 <==> BarFails(b)
    ensures err != 0 ==> err == BarError(b) && lib.maps == old(lib.maps)
    ensures err == 0 ==>
              && lib.maps == old(lib.maps)[b.map_.addr := Mapping(p, b.map_.bytes)]
              && temp[..] == old(temp[..])[barCount := Describe(b, ibar)]
  {
    temp[barCount] := Bar(ibar, NULL, b.start, BarLength(b));
    if b.fd < 0 {
      return b.openErrno;
    }
    lib.fds := lib.fds[b.fd := p];
    if b.map_.MapFailed? {
      err := b.map_.errno;
    } else {
      lib.maps := lib.maps[b.map_.addr := Mapping(p, b.map_.bytes)];
      temp[barCount] := temp[barCount].(userAddress := b.map_.addr);
      err := 0;
    }
    lib.fds := lib.fds - {b.fd};
    assert lib.fds == old(lib.fds);
  }

  lemma PadAdd(descs: seq<Bar>, b: Bar)
    requires |descs| < BAR_SLOTS
    ensures PadBars(descs)[|descs| := b] == PadBars(descs + [b])
  {
  }

  /**
   The BAR loop: six lines into a local array, mapping as it goes.  `failed` says that it returned from inside the loop.
   */
  method FillLoop(lib: Library, p: Ptr, io: FillIo, ghost s: State)
    returns (temp: array<Bar>, barCount: nat, ret: int, failed: bool)
    requires FillOk(s, io) && lib.maps == s.maps && lib.fds == s.fds[io.resourceFd := p]
    modifies lib`fds, lib`maps
    ensures fresh(temp) && temp.Length == BAR_SLOTS
    ensures var m := FillStop(io.bars, |io.bars|);
            && lib.maps == MapsWith(p, s.maps, io.bars, m)
            && (failed <==> m < |io.bars|)
            && (failed ==> ret == BarError(io.bars[m]))
            && (!failed ==> barCount == |Described(io.bars, m)| && temp[..] == PadBars(Described(io.bars, m)))
    ensures lib.fds == old(lib.fds)
  {
    temp := new Bar[BAR_SLOTS](_ => NO_BAR);
    assert temp[..] == PadBars([]);
    barCount := 0;
    var ibar := 0;
    while ibar < BAR_SLOTS
      invariant 0 <= ibar <= BAR_SLOTS
      invariant forall j :: 0 <= j < ibar ==> !BarFails(io.bars[j])
      invariant barCount == |Described(io.bars, ibar)| && temp[..] == PadBars(Described(io.bars, ibar))
      invariant lib.maps == MapsWith(p, s.maps, io.bars, ibar)
      invariant lib.fds == old(lib.fds)
    {
      assert BarIoOk(s, io, io.bars[ibar]);
      if Present(io.bars[ibar]) {
        ret := FillLine(lib, p, ibar, io.bars[ibar], temp, barCount);
        if ret != 0 {
          StopsHere(io.bars, ibar);
          return temp, barCount, ret, true;
        }
        PadAdd(Described(io.bars, ibar), Describe(io.bars[ibar], ibar));
        barCount := barCount + 1;
      }
      ibar := ibar + 1;
    }
    RunsThrough(io.bars);
    return temp, barCount, 0, false;
  }

  /** The `memcpy` of six descriptors. */
  method CopyBars(from: array<Bar>, to: array<Bar>)
    requires from.Length == to.Length
    modifies to
    ensures to[..] == old(from[..])
  {
    for i := 0 to from.Length
      invariant to[..i] == old(from[..i])
      invariant from == to || from[..] == old(from[..])
      invariant forall j :: i <= j < from.Length ==> from[j] == old(from[j])
    {
      to[i] := from[i];
      assert to[..i + 1] == to[..i] + [to[i]];
    }
  }

  /** All six descriptors are copied, so that the tail of the record is zeroed too. */
  method StoreBars(heap: map<Ptr, Device>, p: Ptr, temp: array<Bar>, barCount: nat)
    requires Separate(heap) && p in heap && temp.Length == BAR_SLOTS
    requires forall q :: q in heap ==> heap[q].barDescs != temp
    modifies heap[p], heap[p].barDescs
    ensures Views(heap) == old(Views(heap))[p := old(heap[p].View()).(bars := old(temp[..]), barCount := barCount)]
  {
    ghost var before := Views(heap);
    CopyBars(temp, heap[p].barDescs);
    heap[p].barCount := barCount;
    OneViewChanged(heap, p, before);
  }

  /** The part with the `resource` file open. */
  method FillFromLines(lib: Library, p: Ptr, io: FillIo, ghost s: State) returns (ret: int)
    requires lib.Sound() && p in lib.heap && FillOk(s, io) && io.resourceFd >= 0
    requires Views(lib.heap) == s.devs && lib.maps == s.maps && lib.fds == s.fds[io.resourceFd := p]
    modifies lib`fds, lib`maps, lib.heap[p], lib.heap[p].barDescs
    ensures lib.fds == s.fds
    ensures var m := FillStop(io.bars, |io.bars|);
            && lib.maps == MapsWith(p, s.maps, io.bars, m)
            && (m < |io.bars| ==> Views(lib.heap) == s.devs && ret == BarError(io.bars[m]))
            && (m == |io.bars| ==> Views(lib.heap) == s.devs[p := Filled(s.devs[p], Described(io.bars, m))] && ret == 0)
  {
    ghost var before := Views(lib.heap);
    var temp, barCount, err, failed := FillLoop(lib, p, io, s);
    SameViews(lib.heap, before);
    CloseResource(lib, io, p, s.fds);
    if failed {
      return err;
    }
    StoreBars(lib.heap, p, temp, barCount);
    return 0;
  }

  lemma SameViews(heap: map<Ptr, Device>, before: map<Ptr, Record>)
    requires heap.Keys == before.Keys && forall q :: q in heap ==> heap[q].View() == before[q]
    ensures Views(heap) == before
  {
  }

  /** `close(resource_fd)`. */
  method CloseResource(lib: Library, io: FillIo, p: Ptr, ghost fds: map<int, Ptr>)
    requires io.resourceFd !in fds && lib.fds == fds[io.resourceFd := p]
    modifies lib`fds
    ensures lib.fds == fds && Views(lib.heap) == old(Views(lib.heap))
  {
    lib.fds := lib.fds - {io.resourceFd};
    assert lib.fds == fds;
  }

  lemma AssembleFilled(s: State, p: Ptr, bars: seq<BarIo>, t: State, ret: int)
    requires p in s.devs && |bars| == BAR_SLOTS && t == s.(maps := t.maps, devs := t.devs)
    requires var m := FillStop(bars, |bars|);
             && t.maps == MapsWith(p, s.maps, bars, m)
             && (m < |bars| ==> t.devs == s.devs && ret == BarError(bars[m]))
             && (m == |bars| ==> t.devs == s.devs[p := Filled(s.devs[p], Described(bars, m))] && ret == 0)
    ensures Outcome(t, ret) == FillLines(s, p, bars)
  {
  }

  /** From opening the `resource` file to closing it. */
  method FillFromResource(lib: Library, p: Ptr, io: FillIo, ghost s: State) returns (ret: int)
    requires lib.Sound() && p in lib.heap && s == lib.Abs() && FillOk(s, io) && io.resourceFd >= 0
    modifies lib`fds, lib`maps, lib.heap[p], lib.heap[p].barDescs
    ensures lib.Sound() && lib.fds == old(lib.fds)
    ensures Outcome(lib.Abs(), ret) == if io.streamOk then FillLines(s, p, io.bars) else Outcome(s, -EINVAL)
  {
    lib.fds := lib.fds[io.resourceFd := p];
    if !io.streamOk {
      lib.fds := lib.fds - {io.resourceFd};
      assert lib.fds == s.fds;
      return -EINVAL;
    }
    ret := FillFromLines(lib, p, io, s);
    AssembleFilled(s, p, io.bars, lib.Abs(), ret);
  }

  /** `fill_device_bar_descriptions`; `FillInv` says that it keeps the invariant. */
  method FillDeviceBarDescriptions(lib: Library, p: Ptr, io: FillIo) returns (ret: int)
    requires lib.Sound() && p in lib.heap && FillOk(lib.Abs(), io)
    modifies lib`fds, lib`maps, lib.heap[p], lib.heap[p].barDescs
    ensures lib.Sound() && lib.fds == old(lib.fds)
    ensures Outcome(lib.Abs(), ret) == Fill(old(lib.Abs()), p, io)
    ensures if old(lib.heap[p].barCount) > 0 then ret == 0 else FillSays(io, ret)
  {
    FillAnswers(lib.Abs(), p, io);
    if lib.heap[p].barCount > 0 {
      return 0;
    }
    if io.pathErr != 0 {
      return io.pathErr;
    }
    if io.resourceFd < 0 {
      return io.resourceErrno;
    }
    ret := FillFromResource(lib, p, io, lib.Abs());
  }

  /** `CRONO_KERNEL_GetBarDescriptions`; the six descriptors are returned by value. */
  method GetBarDescriptions(lib: Library, h: Ptr, hasOut: bool, io: FillIo)
    returns (ret: int, barCount: nat, barDescs: seq<Bar>)
    requires lib.Valid() && (h != NULL ==> h in lib.heap) && FillOk(lib.Abs(), io)
    modifies lib`fds, lib`maps, if h != NULL then {lib.heap[h], lib.heap[h].barDescs} else {}
    ensures lib.Valid() && Outcome(lib.Abs(), ret) == GetBars(old(lib.Abs()), h, hasOut, io)
    ensures ret == 0 && h in lib.heap ==> barCount == lib.heap[h].barCount && barDescs == lib.heap[h].barDescs[..]
    ensures ret == 0 && h in lib.heap && old(lib.heap[h].barCount) == 0 ==>
              barCount <= |barDescs| && forall i :: 0 <= i < barCount ==> FromLine(barDescs[i], io.bars, lib.maps, h)
  {
    barCount, barDescs := 0, [];
    if h == NULL || lib.heap[h].deviceId == 0 || !hasOut {
      ret := -EINVAL;
    } else {
      ghost var s := lib.Abs();
      FillInv(s, h, io);
      ret := FillDeviceBarDescriptions(lib, h, io);
      if ret == 0 {
        if s.devs[h].barCount == 0 {
          DescriptorsSayTheirLines(s, h, io);
        }
        barCount, barDescs := lib.heap[h].barCount, lib.heap[h].barDescs[..];
      }
    }
  }

  // ---------------------------------------------------------------- release

  lemma ClearedNext(b: seq<Bar>, i: nat)
    requires i < |b|
    ensures Cleared(b, i)[i := b[i].(userAddress := NULL)] == Cleared(b, i + 1)
    ensures b[i].userAddress == NULL ==> Cleared(b, i + 1) == Cleared(b, i)
  {
  }

  lemma MapsWithoutNext(maps: map<Ptr, Mapping>, b: seq<Bar>, i: nat)
    requires i < |b| && NULL !in maps
    ensures MapsWithout(maps, b, i) - {b[i].userAddress} == MapsWithout(maps, b, i + 1)
    ensures b[i].userAddress == NULL ==> MapsWithout(maps, b, i + 1) == MapsWithout(maps, b, i)
  {
  }

  lemma UnmapStopsAt(b: seq<Bar>, errs: seq<int>, n: nat, k: nat)
    requires n <= |b| && n <= |errs| && k <= n && (k < n ==> !UnmapWorks(b, errs, k))
    requires forall j :: 0 <= j < k ==> UnmapWorks(b, errs, j)
    ensures UnmapStop(b, errs, n) == k
  {
  }

  /** The `munmap` loop of `freeDeviceMem`; each `munmap` is of a mapping that is live. */
  method UnmapDeviceBars(lib: Library, device: Device, errs: seq<int>) returns (err: int)
    requires device.barDescs.Length == BAR_SLOTS && device.barCount <= BAR_SLOTS && |errs| == BAR_SLOTS
    requires NULL !in lib.maps
    requires forall i :: 0 <= i < BAR_SLOTS && device.barDescs[i].userAddress != NULL ==>
               device.barDescs[i].userAddress in lib.maps
    requires forall i, j :: 0 <= i < j < BAR_SLOTS && device.barDescs[i].userAddress != NULL ==>
               device.barDescs[i].userAddress != device.barDescs[j].userAddress
    modifies lib`maps, device.barDescs
    ensures var b, n := old(device.barDescs[..]), device.barCount;
            var m := UnmapStop(b, errs, n);
            && lib.maps == MapsWithout(old(lib.maps), b, m)
            && device.barDescs[..] == Cleared(b, m)
            && err == if m < n then errs[m] else 0
  {
    ghost var b, maps := device.barDescs[..], lib.maps;
    assert Cleared(b, 0) == b;
    assert MapsWithout(maps, b, 0) == maps;
    var ibar := 0;
    while ibar < device.barCount
      invariant ibar <= device.barCount
      invariant forall j :: 0 <= j < ibar ==> UnmapWorks(b, errs, j)
      invariant device.barDescs[..] == Cleared(b, ibar)
      invariant lib.maps == MapsWithout(maps, b, ibar)
    {
      ClearedNext(b, ibar);
      MapsWithoutNext(maps, b, ibar);
      var address := device.barDescs[ibar].userAddress;
      assert address == b[ibar].userAddress;
      if address != NULL {
        if errs[ibar] != 0 {
          UnmapStopsAt(b, errs, device.barCount, ibar);
          return errs[ibar];
        }
        assert address in lib.maps;
        lib.maps := lib.maps - {address};
        device.barDescs[ibar] := device.barDescs[ibar].(userAddress := NULL);
      }
      ibar := ibar + 1;
    }
    UnmapStopsAt(b, errs, device.barCount, device.barCount);
    return 0;
  }

  /** The shrink loop, which tests the cell at `iNewDev`; `pastNull` stands for the word after the array. */
  method ShrinkDevices(lib: Library, pastNull: bool)
    requires lib.Sound() && lib.iNewDev <= TABLE_SIZE
    modifies lib`iNewDev
    ensures lib.Sound() && old(lib.iNewDev) <= |old(lib.Abs()).table|
    ensures lib.Abs() == ShrinkTable(old(lib.Abs()), AsWritten, pastNull)
  {
    while lib.iNewDev > 0 && (if lib.iNewDev < TABLE_SIZE then lib.devices[lib.iNewDev] == NULL else pastNull)
      invariant lib.iNewDev <= old(lib.iNewDev)
      invariant Shrunk(lib.devices[..], lib.iNewDev, AsWritten, pastNull) ==
                Shrunk(lib.devices[..], old(lib.iNewDev), AsWritten, pastNull)
      decreases lib.iNewDev
    {
      lib.iNewDev := lib.iNewDev - 1;
    }
  }

  /** Everything the record at `p` still maps is unmapped, as far as it goes. */
  method UnmapRecord(lib: Library, p: Ptr, errs: seq<int>) returns (err: int)
    requires lib.Sound() && p in lib.heap && |errs| == BAR_SLOTS
    requires NULL !in lib.maps && BarsOk(lib.Abs(), p, lib.heap[p].View())
    modifies lib`maps, lib.heap[p].barDescs
    ensures var r := old(lib.heap[p].View());
            var m := UnmapStop(r.bars, errs, r.barCount);
            && lib.maps == MapsWithout(old(lib.maps), r.bars, m)
            && Views(lib.heap) == old(Views(lib.heap))[p := r.(bars := Cleared(r.bars, m))]
            && err == if m < r.barCount then errs[m] else 0
  {
    ghost var before := Views(lib.heap);
    forall i | 0 <= i < BAR_SLOTS && lib.heap[p].barDescs[i].userAddress != NULL
      ensures lib.heap[p].barDescs[i].userAddress in lib.maps
    {
      assert MappedFor(lib.maps, p, lib.heap[p].View().bars[i]);
    }
    err := UnmapDeviceBars(lib, lib.heap[p], errs);
    OneViewChanged(lib.heap, p, before);
  }

  lemma MinusUpdated(views: map<Ptr, Record>, p: Ptr, r: Record)
    ensures views[p := r] - {p} == views - {p}
  {
  }

  /** The matching branch: unmap what the record at cell `iDev` still maps, free it, null its cell. */
  method ReleaseAt(lib: Library, iDev: nat, p: Ptr, errs: seq<int>) returns (err: int)
    requires lib.Sound() && iDev < TABLE_SIZE && p in lib.heap && |errs| == BAR_SLOTS
    requires NULL !in lib.maps && BarsOk(lib.Abs(), p, lib.heap[p].View())
    modifies lib`maps, lib`heap, lib.devices, lib.heap[p], lib.heap[p].barDescs
    ensures lib.Sound()
    ensures var r := old(lib.heap[p].View());
            var m := UnmapStop(r.bars, errs, r.barCount);
            && lib.maps == MapsWithout(old(lib.maps), r.bars, m)
            && err == (if m < r.barCount then errs[m] else 0)
            && (m < r.barCount ==> lib.heap == old(lib.heap) && lib.devices[..] == old(lib.devices[..]) &&
                                   Views(lib.heap) == old(Views(lib.heap))[p := r.(bars := Cleared(r.bars, m))])
            && (m == r.barCount ==> lib.heap == old(lib.heap) - {p} &&
                                    lib.devices[..] == old(lib.devices[..])[iDev := NULL] &&
                                    Views(lib.heap) == old(Views(lib.heap)) - {p})
  {
    ghost var before, r := Views(lib.heap), lib.heap[p].View();
    err := UnmapRecord(lib, p, errs);
    if err != 0 {
      return;
    }
    MinusUpdated(before, p, r.(bars := Cleared(r.bars, r.barCount)));
    FreeRecord(lib, iDev, p);
  }

  /** `bar_count` is zeroed, the record freed and its cell nulled. */
  method FreeRecord(lib: Library, iDev: nat, p: Ptr)
    requires lib.Sound() && iDev < TABLE_SIZE && p in lib.heap
    modifies lib`heap, lib.devices, lib.heap[p]
    ensures lib.Sound() && lib.heap == old(lib.heap) - {p} && lib.devices[..] == old(lib.devices[..])[iDev := NULL]
    ensures Views(lib.heap) == old(Views(lib.heap)) - {p}
  {
    ghost var before := Views(lib.heap);
    lib.heap[p].barCount := 0;
    lib.heap := lib.heap - {p};
    lib.devices[iDev] := NULL;
    OthersViewed(lib.heap, p, before);
  }

  lemma OthersViewed(heap: map<Ptr, Device>, p: Ptr, before: map<Ptr, Record>)
    requires p in before && heap.Keys == before.Keys - {p}
    requires forall q :: q in heap ==> heap[q].View() == before[q]
    ensures Views(heap) == before - {p}
  {
  }

  /** The address is in one cell at most, so the matching branch is taken there and nowhere else. */
  lemma MatchesOnce(s: State, p: Ptr, j: nat)
    requires TableOk(s) && p != NULL && j < s.next
    ensures s.table[j] == p <==> j == IndexOf(s.table, s.next, p)
  {
  }

  /** What the search loop leaves, before the shrink loop. */
  ghost predicate Released(s: State, p: Ptr, errs: seq<int>, t: State, ret: int)
    requires Unmappable(s, p, errs) && s.next <= |s.table|
  {
    var at, m := IndexOf(s.table, s.next, p), StopOf(s, p, errs);
    if at == s.next then t == s && ret == 0
    else if m < s.devs[p].barCount then t == Unmaps(s, p, m) && ret == errs[m]
    else t == Removed(Unmaps(s, p, m), at) && ret == 0
  }

  lemma AssembleReleased(s: State, p: Ptr, errs: seq<int>, t: State, ret: int)
    requires Unmappable(s, p, errs) && s.next <= |s.table| && IndexOf(s.table, s.next, p) < s.next
    requires t == s.(table := t.table, devs := t.devs, maps := t.maps)
    requires var b, n, at := s.devs[p].bars, s.devs[p].barCount, IndexOf(s.table, s.next, p);
             var m := UnmapStop(b, errs, n);
             && t.maps == MapsWithout(s.maps, b, m)
             && ret == (if m < n then errs[m] else 0)
             && (m < n ==> t.table == s.table && t.devs == s.devs[p := s.devs[p].(bars := Cleared(b, m))])
             && (m == n ==> t.table == s.table[at := NULL] && t.devs == s.devs - {p})
    ensures Released(s, p, errs, t, ret)
  {
    var at, m := IndexOf(s.table, s.next, p), StopOf(s, p, errs);
    assert s.devs[p := s.devs[p].(bars := Cleared(s.devs[p].bars, m))] - {p} == s.devs - {p};
  }

  /** The matching branch, as a step of the state. */
  method ReleaseHere(lib: Library, iDev: nat, p: Ptr, errs: seq<int>, ghost s: State) returns (ret: int)
    requires lib.Sound() && s == lib.Abs() && p in lib.heap && Unmappable(s, p, errs) && |errs| == BAR_SLOTS
    requires iDev < s.next <= TABLE_SIZE && lib.devices[iDev] == p && IndexOf(s.table, s.next, p) == iDev
    requires NULL !in s.maps && BarsOk(s, p, s.devs[p])
    modifies lib`maps, lib`heap, lib.devices, lib.heap[p], lib.heap[p].barDescs
    ensures lib.Sound() && Released(s, p, errs, lib.Abs(), ret)
    ensures ret == 0 ==> lib.iNewDev == s.next && lib.devices[..] == s.table[iDev := NULL]
  {
    ret := ReleaseAt(lib, iDev, p, errs);
    AssembleReleased(s, p, errs, lib.Abs(), ret);
  }

  /** Whether the search loop has come past the match, and what it left. */
  ghost predicate Searched(s: State, p: Ptr, errs: seq<int>, iDev: nat, t: State)
    requires Unmappable(s, p, errs) && iDev <= s.next <= |s.table|
  {
    var at := IndexOf(s.table, s.next, p);
    if iDev <= at then t == s else Released(s, p, errs, t, 0) && t.next == s.next && t.table == s.table[at := NULL]
  }

  lemma NextMatches(s: State, p: Ptr, errs: seq<int>, iDev: nat, t: State)
    requires TableOk(s) && Unmappable(s, p, errs) && p != NULL && iDev < s.next && Searched(s, p, errs, iDev, t)
    ensures |t.table| == |s.table|
    ensures t.table[iDev] == p <==> iDev == IndexOf(s.table, s.next, p)
    ensures t.table[iDev] != p ==> Searched(s, p, errs, iDev + 1, t)
  {
    MatchesOnce(s, p, iDev);
  }

  /** The search loop: it runs over the whole table, also after the match. */
  method ReleaseMatching(lib: Library, p: Ptr, errs: seq<int>, ghost s: State) returns (ret: int)
    requires lib.Sound() && s == lib.Abs() && TableOk(s) && p in lib.heap && |errs| == BAR_SLOTS
    requires Unmappable(s, p, errs) && p != NULL && NULL !in s.maps && BarsOk(s, p, s.devs[p])
    modifies lib`maps, lib`heap, lib.devices, lib.heap[p], lib.heap[p].barDescs
    ensures lib.Sound() && Released(s, p, errs, lib.Abs(), ret)
  {
    ghost var at, t := IndexOf(s.table, s.next, p), s;
    var iDev := 0;
    while iDev < lib.iNewDev
      invariant iDev <= lib.iNewDev == s.next && lib.Sound() && lib.Abs() == t
      invariant Searched(s, p, errs, iDev, t) && (iDev <= at ==> lib.heap == old(lib.heap))
    {
      NextMatches(s, p, errs, iDev, t);
      assert lib.devices[iDev] == t.table[iDev];
      if lib.devices[iDev] == p {
        ret := ReleaseHere(lib, iDev, p, errs, s);
        if ret != 0 {
          return;
        }
        t := lib.Abs();
      }
      iDev := iDev + 1;
    }
    ret := 0;
  }

  lemma AssembleFreed(s: State, p: Ptr, io: FreeIo, t: State, u: State, ret: int)
    requires s.next <= |s.table| && Unmappable(s, p, io.unmapErrs) && Released(s, p, io.unmapErrs, t, ret)
    requires t.next <= |t.table| && (ret != 0 ==> u == t) && (ret == 0 ==> u == ShrinkTable(t, AsWritten, io.pastNull))
    ensures Outcome(u, ret) == FreeDeviceMem(s, p, io, AsWritten)
  {
  }

  /** `freeDeviceMem`; `CloseReady` gives what it requires, `FreeConserves` that it keeps the invariant. */
  method FreeDeviceMemory(lib: Library, p: Ptr, io: FreeIo) returns (ret: int)
    requires lib.Sound() && p in lib.heap && p != NULL && NULL !in lib.maps && |io.unmapErrs| == BAR_SLOTS
    requires TableOk(lib.Abs()) && Unmappable(lib.Abs(), p, io.unmapErrs) && BarsOk(lib.Abs(), p, lib.Abs().devs[p])
    modifies lib`maps, lib`heap, lib`iNewDev, lib.devices, lib.heap[p], lib.heap[p].barDescs
    ensures lib.Sound() && Outcome(lib.Abs(), ret) == FreeDeviceMem(old(lib.Abs()), p, io, AsWritten)
  {
    ghost var s := lib.Abs();
    ret := ReleaseMatching(lib, p, io.unmapErrs, s);
    ghost var t := lib.Abs();
    if ret == 0 {
      ShrinkDevices(lib, io.pastNull);
    }
    AssembleFreed(s, p, io, t, lib.Abs(), ret);
  }

  /** `close`: on Linux the descriptor is released whatever is reported. */
  method CloseFd(lib: Library, fd: int)
    requires fd in lib.fds
    modifies lib`fds
    ensures lib.Abs() == FdClosed(old(lib.Abs()), fd)
    ensures lib.fds == old(lib.fds) - {fd}
  {
    lib.fds := lib.fds - {fd};
  }

  /** `CRONO_KERNEL_PciDeviceClose`. */
  method PciDeviceClose(lib: Library, h: Ptr, io: CloseIo) returns (ret: int)
    requires lib.Valid() && (h != NULL ==> h in lib.heap) && |io.free.unmapErrs| == BAR_SLOTS
    modifies lib.Repr()
    ensures lib.Valid() && Closable(old(lib.Abs()), h, io) && old(lib.iNewDev) <= |old(lib.Abs()).table|
    ensures Outcome(lib.Abs(), ret) == Close(old(lib.Abs()), h, io, AsWritten)
  {
    ghost var s := lib.Abs();
    CloseReady(s, h, io);
    if h == NULL || lib.heap[h].deviceId == 0 {
      return -EINVAL;
    }
    var fd := lib.heap[h].miscdevFd;
    if fd !in lib.fds {
      return EBADF;
    }
    CloseFd(lib, fd);
    if io.closeErrno != 0 {
      return io.closeErrno;
    }
    ret := FreeDeviceMemory(lib, h, io.free);
  }

  lemma CloseReady(s: State, h: Ptr, io: CloseIo)
    requires Inv(s) && (h != NULL ==> h in s.devs) && |io.free.unmapErrs| == BAR_SLOTS
    ensures Closable(s, h, io) && Inv(Close(s, h, io, AsWritten).state)
    ensures Reaches(s, h) ==>
              var c := FdClosed(s, s.devs[h].fd);
              && TableOk(c) && NULL !in c.maps && BarsOk(c, h, c.devs[h])
              && Unmappable(c, h, io.free.unmapErrs)
  {
    if h != NULL {
      assert RecordOk(s, h);
    }
    CloseConserves(s, h, io, AsWritten);
  }

  // ---------------------------------------------------------------- open

  /** The directory loop; `at` keeps what the scan variables hold from one entry to the next. */
  method FindSlot(entries: seq<Entry>, slot: Slot, unset: Slot) returns (found: bool)
    ensures found <==> Listed(entries, slot, unset)
  {
    var at, i := unset, 0;
    while i < |entries|
      invariant i <= |entries|
      invariant Listed(entries, slot, unset) == Listed(entries[i..], slot, at)
    {
      assert entries[i..][1..] == entries[i + 1..];
      if entries[i].isLink {
        at := Naming.ScanName(entries[i].name, at);
        if at == slot {
          return true;
        }
      }
      i := i + 1;
    }
    return false;
  }

  /** The state with record `r` entered at `p`. */
  function Draft(s: State, p: Ptr, r: Record): State
    requires s.next < |s.table|
  {
    s.(table := s.table[s.next := p], next := s.next + 1, devs := s.devs[p := r])
  }

  /** `malloc`, the table entry, the `memset` and the slot. */
  method EnterDevice(lib: Library, p: Ptr, slot: Slot)
    requires lib.Sound() && lib.iNewDev < TABLE_SIZE && p !in lib.heap
    modifies lib`heap, lib`iNewDev, lib.devices
    ensures lib.Sound() && p in lib.heap && fresh(lib.heap[p]) && fresh(lib.heap[p].barDescs)
    ensures lib.heap == old(lib.heap)[p := lib.heap[p]]
    ensures old(lib.iNewDev) < |old(lib.Abs()).table|
    ensures lib.Abs() == Draft(old(lib.Abs()), p, Record(slot, 0, 0, PadBars([]), 0, "", 0))
  {
    AllocateDevice(lib, p, slot);
    EnterTable(lib, p);
  }

  /** The record: `malloc`, the `memset` and the slot. */
  method AllocateDevice(lib: Library, p: Ptr, slot: Slot)
    requires lib.Sound() && p !in lib.heap
    modifies lib`heap
    ensures lib.Sound() && p in lib.heap && fresh(lib.heap[p]) && fresh(lib.heap[p].barDescs)
    ensures lib.heap == old(lib.heap)[p := lib.heap[p]]
    ensures Views(lib.heap) == old(Views(lib.heap))[p := Record(slot, 0, 0, PadBars([]), 0, "", 0)]
  {
    ghost var before := Views(lib.heap);
    var device := new Device();
    lib.heap := lib.heap[p := device];
    device.slot := slot;
    NewViewAdded(lib.heap, p, before);
  }

  /** `devices[iNewDev++] = pDevice`. */
  method EnterTable(lib: Library, p: Ptr)
    requires lib.devices.Length == TABLE_SIZE && lib.iNewDev < TABLE_SIZE
    modifies lib`iNewDev, lib.devices
    ensures lib.devices[..] == old(lib.devices[..])[old(lib.iNewDev) := p] && lib.iNewDev == old(lib.iNewDev) + 1
    ensures Views(lib.heap) == old(Views(lib.heap))
  {
    lib.devices[lib.iNewDev] := p;
    lib.iNewDev := lib.iNewDev + 1;
  }

  lemma NewViewAdded(heap: map<Ptr, Device>, p: Ptr, before: map<Ptr, Record>)
    requires p in heap && heap.Keys == before.Keys + {p}
    requires forall q :: q in heap && q != p ==> heap[q].View() == before[q]
    ensures Views(heap) == before[p := heap[p].View()]
  {
  }

  /** The state with one record changed. */
  function OneRecord(s: State, p: Ptr, r: Record): State
  {
    s.(devs := s.devs[p := r])
  }

  /** The record's ids and `/dev` name are set. */
  method NameDevice(lib: Library, p: Ptr, slot: Slot, io: OpenIo)
    requires lib.Sound() && p in lib.heap
    modifies lib.heap[p]
    ensures p in old(Views(lib.heap))
    ensures lib.Abs() == OneRecord(old(lib.Abs()), p, old(Views(lib.heap))[p].(vendorId := io.vendorId,
                           deviceId := io.deviceId, name := Naming.MiscdevName(io.deviceId, slot)))
  {
    ghost var before := Views(lib.heap);
    lib.heap[p].deviceId := io.deviceId;
    lib.heap[p].vendorId := io.vendorId;
    lib.heap[p].miscdevName := Naming.MiscdevName(io.deviceId, slot);
    OneViewChanged(lib.heap, p, before);
  }

  /** The descriptor is stored in the record. */
  method StoreFd(lib: Library, p: Ptr, fd: int)
    requires lib.Sound() && p in lib.heap
    modifies lib.heap[p]
    ensures p in old(Views(lib.heap))
    ensures lib.Abs() == OneRecord(old(lib.Abs()), p, old(Views(lib.heap))[p].(fd := fd))
  {
    ghost var before := Views(lib.heap);
    lib.heap[p].miscdevFd := fd;
    OneViewChanged(lib.heap, p, before);
  }

  lemma DraftTakenBack(s: State, t: State, io: OpenIo, r: Record, fds: map<int, Ptr>, maps: map<Ptr, Mapping>)
    requires s.next < |s.table| && io.record !in s.devs
    requires t == Draft(s, io.record, r).(fds := fds, maps := maps)
    ensures t.(next := t.next - 1, devs := t.devs - {io.record}) == Abandoned(s, io).(fds := fds, maps := maps)
  {
    assert t.devs - {io.record} == s.devs;
  }

  /** The label `device_error`: the record is freed and the index taken back; the table cell is left as it is. */
  method DiscardDevice(lib: Library, io: OpenIo, ghost s: State, ghost r: Record,
                       ghost fds: map<int, Ptr>, ghost maps: map<Ptr, Mapping>)
    requires lib.Sound() && s.next < |s.table| && io.record !in s.devs && io.record in lib.heap
    requires lib.Abs() == Draft(s, io.record, r).(fds := fds, maps := maps)
    modifies lib`heap, lib`iNewDev
    ensures lib.Sound()
    ensures lib.Abs() == Abandoned(s, io).(fds := fds, maps := maps)
  {
    DraftTakenBack(s, lib.Abs(), io, r, fds, maps);
    DropRecord(lib, io.record);
    TakeBackIndex(lib);
  }

  /** `free(pDevice)`. */
  method DropRecord(lib: Library, p: Ptr)
    requires lib.Sound() && p in lib.heap
    modifies lib`heap
    ensures lib.Sound() && lib.Abs() == old(lib.Abs()).(devs := old(Views(lib.heap)) - {p})
  {
    ghost var before := Views(lib.heap);
    lib.heap := lib.heap - {p};
    OthersViewed(lib.heap, p, before);
  }

  /** `iNewDev--`. */
  method TakeBackIndex(lib: Library)
    requires lib.iNewDev > 0
    modifies lib`iNewDev
    ensures lib.Abs() == old(lib.Abs()).(next := old(lib.iNewDev) - 1)
  {
    lib.iNewDev := lib.iNewDev - 1;
  }

  /** `open` on the `/dev` node. */
  method OpenFd(lib: Library, p: Ptr, fd: int)
    modifies lib`fds
    ensures lib.Abs() == old(lib.Abs()).(fds := old(lib.fds)[fd := p])
  {
    lib.fds := lib.fds[fd := p];
  }

  /** Steps that touch only the record keep everything else of the draft. */
  method DescribeDevice(lib: Library, slot: Slot, io: OpenIo, ghost s: State)
    requires lib.Sound() && io.record in lib.heap && s.next < |s.table| && io.record !in s.devs
    requires lib.Abs() == Draft(s, io.record, Record(slot, 0, 0, PadBars([]), 0, "", 0))
    modifies lib.heap[io.record]
    ensures lib.Abs() == Draft(s, io.record, NewRecord(slot, io).(fd := 0))
  {
    NameDevice(lib, io.record, slot, io);
    DraftIsDescribed(s, slot, io);
  }

  lemma DraftIsDescribed(s: State, slot: Slot, io: OpenIo)
    requires s.next < |s.table|
    ensures var d := Draft(s, io.record, Record(slot, 0, 0, PadBars([]), 0, "", 0));
            OneRecord(d, io.record, d.devs[io.record].(vendorId := io.vendorId, deviceId := io.deviceId,
                                                       name := Naming.MiscdevName(io.deviceId, slot))) ==
            Draft(s, io.record, NewRecord(slot, io).(fd := 0))
  {
  }

  method KeepFd(lib: Library, slot: Slot, io: OpenIo, ghost s: State)
    requires lib.Sound() && io.record in lib.heap && s.next < |s.table| && io.record !in s.devs
    requires lib.Abs() == Draft(s, io.record, NewRecord(slot, io).(fd := 0)).(fds := s.fds[io.fd := io.record])
    modifies lib.heap[io.record]
    ensures lib.Abs() == Entered(s, slot, io)
  {
    StoreFd(lib, io.record, io.fd);
    DraftBecomesEntered(s, slot, io);
  }

  lemma DraftBecomesEntered(s: State, slot: Slot, io: OpenIo)
    requires s.next < |s.table|
    ensures var d := Draft(s, io.record, NewRecord(slot, io).(fd := 0)).(fds := s.fds[io.fd := io.record]);
            OneRecord(d, io.record, d.devs[io.record].(fd := io.fd)) == Entered(s, slot, io)
  {
    var d := Draft(s, io.record, NewRecord(slot, io).(fd := 0)).(fds := s.fds[io.fd := io.record]);
    assert d.devs[io.record].(fd := io.fd) == NewRecord(slot, io);
    assert d.devs[io.record := NewRecord(slot, io)] == s.devs[io.record := NewRecord(slot, io)];
  }

  /** From the record with its descriptor to the handle or the cleanup. */
  method OpenFill(lib: Library, slot: Slot, io: OpenIo, ghost s: State) returns (ret: int)
    requires lib.Sound() && io.record in lib.heap && s.next < |s.table| && io.record !in s.devs && io.fd !in s.fds
    requires lib.Abs() == Entered(s, slot, io) && FillOk(lib.Abs(), io.fill)
    modifies lib`fds, lib`maps, lib`heap, lib`iNewDev, lib.heap[io.record], lib.heap[io.record].barDescs
    ensures lib.Sound()
    ensures OpenOutcome(lib.Abs(), ret, io.record) == OpenBars(s, slot, io)
  {
    ghost var e := lib.Abs();
    ret := FillDeviceBarDescriptions(lib, io.record, io.fill);
    if ret != 0 {
      ghost var maps := lib.maps;
      CloseFd(lib, io.fd);
      FillLeftDraft(s, slot, io, lib.Abs(), maps);
      DiscardDevice(lib, io, s, NewRecord(slot, io), s.fds, maps);
    }
  }

  lemma FillLeftDraft(s: State, slot: Slot, io: OpenIo, t: State, maps: map<Ptr, Mapping>)
    requires s.next < |s.table| && io.fd !in s.fds && FillOk(Entered(s, slot, io), io.fill)
    requires var f := Fill(Entered(s, slot, io), io.record, io.fill);
             f.code != 0 && t == FdClosed(f.state, io.fd) && maps == f.state.maps
    ensures t == Draft(s, io.record, NewRecord(slot, io)).(fds := s.fds, maps := maps)
  {
    FillCode(Entered(s, slot, io), io.record, io.fill);
    assert s.fds[io.fd := io.record] - {io.fd} == s.fds;
  }

  /** The `switch` on `errno` after a failed `open`. */
  method NodeError(errno: int) returns (ret: int)
    ensures ret == OpenError(errno) && NodeSays(errno, ret)
  {
    match errno
    case EBUSY => ret := TRY_AGAIN;
    case ENODEV => ret := NO_DEVICE_OBJECT;
    case _ => ret := INSUFFICIENT_RESOURCES;
  }

  /** `miscdev_fd <= 0`: the `/dev` node did not open, or with descriptor 0, which is taken for that and stays open. */
  method RefuseNode(lib: Library, slot: Slot, io: OpenIo, ghost s: State) returns (ret: int)
    requires lib.Sound() && io.record in lib.heap && s.next < |s.table| && io.record !in s.devs
    requires lib.Abs() == Draft(s, io.record, NewRecord(slot, io).(fd := 0))
    requires io.readErr == 0 && io.statOk && io.fd <= 0
    modifies lib`fds, lib`heap, lib`iNewDev
    ensures lib.Sound() && Outcome(lib.Abs(), ret) == Outcome(OpenBroken(s, io), OpenError(io.openErrno))
  {
    ghost var r := NewRecord(slot, io).(fd := 0);
    if io.fd == 0 {
      OpenFd(lib, io.record, 0);
      DiscardDevice(lib, io, s, r, s.fds[0 := io.record], s.maps);
    } else {
      DiscardDevice(lib, io, s, r, s.fds, s.maps);
    }
    ret := NodeError(io.openErrno);
  }

  /** From the named record on: find and open its `/dev` node. */
  method OpenNode(lib: Library, slot: Slot, io: OpenIo, ghost s: State) returns (ret: int, handle: Ptr)
    requires lib.Sound() && io.record in lib.heap && s.next < |s.table| && io.record !in s.devs && io.fd !in s.fds
    requires lib.Abs() == Draft(s, io.record, NewRecord(slot, io).(fd := 0))
    requires FillOk(Entered(s, slot, io), io.fill) && io.readErr == 0
    modifies lib`fds, lib`maps, lib`heap, lib`iNewDev, lib.heap[io.record], lib.heap[io.record].barDescs
    ensures lib.Sound()
    ensures OpenOutcome(lib.Abs(), ret, handle) ==
              if !io.statOk then OpenOutcome(OpenBroken(s, io), -EINVAL, NULL)
              else if io.fd <= 0 then OpenOutcome(OpenBroken(s, io), OpenError(io.openErrno), NULL)
              else OpenBars(s, slot, io)
  {
    ghost var r := NewRecord(slot, io).(fd := 0);
    if !io.statOk {
      DiscardDevice(lib, io, s, r, s.fds, s.maps);
      return -EINVAL, NULL;
    }
    if io.fd <= 0 {
      ret := RefuseNode(lib, slot, io, s);
      return ret, NULL;
    }
    OpenFd(lib, io.record, io.fd);
    KeepFd(lib, slot, io, s);
    ret := OpenFill(lib, slot, io, s);
    handle := io.record;
  }

  /** How `Open` goes once an entry matches. */
  lemma OpenOfListed(s: State, slot: Slot, io: OpenIo)
    requires s.next < |s.table| && |io.fill.bars| == BAR_SLOTS
    requires io.dirErrno == 0 && Listed(io.entries, slot, io.unset)
    ensures Open(s, true, Some(slot), io) ==
              if io.readErr != 0 then OpenOutcome(Abandoned(s, io), TRY_AGAIN, NULL)
              else if !io.statOk then OpenOutcome(OpenBroken(s, io), -EINVAL, NULL)
              else if io.fd <= 0 then OpenOutcome(OpenBroken(s, io), OpenError(io.openErrno), NULL)
              else OpenBars(s, slot, io)
  {
  }

  /** From the matching entry on. */
  method OpenListed(lib: Library, slot: Slot, io: OpenIo, ghost s: State) returns (ret: int, handle: Ptr)
    requires lib.Sound() && s == lib.Abs() && lib.iNewDev < TABLE_SIZE && io.record !in s.devs && io.fd !in s.fds
    requires FillOk(Entered(s, slot, io), io.fill)
    requires io.dirErrno == 0 && Listed(io.entries, slot, io.unset)
    modifies lib, lib.devices
    ensures lib.Sound()
    ensures OpenOutcome(lib.Abs(), ret, handle) == Open(s, true, Some(slot), io)
  {
    OpenOfListed(s, slot, io);
    EnterDevice(lib, io.record, slot);
    if io.readErr != 0 {
      DiscardDevice(lib, io, s, Record(slot, 0, 0, PadBars([]), 0, "", 0), s.fds, s.maps);
      return TRY_AGAIN, NULL;
    }
    DescribeDevice(lib, slot, io, s);
    ret, handle := OpenNode(lib, slot, io, s);
  }

  lemma OpenKeepsAndSays(s: State, hasOut: bool, slot: Option<Slot>, io: OpenIo)
    requires Inv(s) && s.next < TABLE_SIZE && OpenOk(s, slot, io)
    ensures var o := Open(s, hasOut, slot, io);
            Inv(o.state) && OpenSays(hasOut, slot, io, o.code, o.handle)
  {
    OpenConserves(s, hasOut, slot, io);
    OpenAnswers(s, hasOut, slot, io);
  }

  /** `CRONO_KERNEL_PciDeviceOpen`. */
  method PciDeviceOpen(lib: Library, hasOut: bool, slot: Option<Slot>, io: OpenIo) returns (ret: int, handle: Ptr)
    requires lib.Valid() && lib.iNewDev < TABLE_SIZE && OpenOk(lib.Abs(), slot, io)
    modifies lib, lib.devices
    ensures lib.Valid()
    ensures OpenOutcome(lib.Abs(), ret, handle) == Open(old(lib.Abs()), hasOut, slot, io)
    ensures OpenSays(hasOut, slot, io, ret, handle)
  {
    ghost var s := lib.Abs();
    OpenKeepsAndSays(s, hasOut, slot, io);
    if !hasOut || slot.None? {
      return -EINVAL, NULL;
    }
    if io.dirErrno != 0 {
      return io.dirErrno, NULL;
    }
    var found := FindSlot(io.entries, slot.value, io.unset);
    if !found {
      return 0, NULL;
    }
    ret, handle := OpenListed(lib, slot.value, io, s);
  }

  // ---------------------------------------------------------------- unload

  /** The loop of `freeDevicesMem`; every `free` is of a record that is live. */
  method FreeEntries(lib: Library, ghost table: seq<Ptr>)
    requires lib.devices.Length == TABLE_SIZE && table == lib.devices[..] && lib.iNewDev <= TABLE_SIZE
    requires forall i :: 0 <= i < lib.iNewDev && table[i] != NULL ==> table[i] in lib.heap
    requires forall i, j :: 0 <= i < j < lib.iNewDev && table[i] != NULL ==> table[i] != table[j]
    requires NULL !in lib.heap
    modifies lib`heap, lib.devices
    ensures forall j :: 0 <= j < TABLE_SIZE ==> lib.devices[j] == if j < lib.iNewDev then NULL else table[j]
    ensures forall p :: p in lib.heap <==> p in old(lib.heap) && p !in table[..lib.iNewDev]
    ensures forall p :: p in lib.heap ==> lib.heap[p] == old(lib.heap)[p]
  {
    var iDev := 0;
    while iDev < lib.iNewDev
      invariant iDev <= lib.iNewDev
      invariant forall j :: 0 <= j < TABLE_SIZE ==> lib.devices[j] == if j < iDev then NULL else table[j]
      invariant forall p :: p in lib.heap <==> p in old(lib.heap) && p !in table[..iDev]
      invariant forall p :: p in lib.heap ==> lib.heap[p] == old(lib.heap)[p]
    {
      var p := lib.devices[iDev];
      assert table[..iDev + 1] == table[..iDev] + [p];
      if p != NULL {
        assert p in lib.heap;
        lib.heap := lib.heap - {p};
        lib.devices[iDev] := NULL;
      }
      iDev := iDev + 1;
    }
  }

  lemma FewerViews(heap: map<Ptr, Device>, s: State)
    requires s.next <= |s.table|
    requires forall p :: p in heap <==> p in s.devs && p !in s.table[..s.next]
    requires forall p :: p in heap ==> heap[p].View() == s.devs[p]
    ensures Views(heap) == FreeDevicesMem(s).devs
  {
  }

  /** `freeDevicesMem`, run by the library's destructor; `UnloadKeepsInv` says that it keeps the invariant. */
  method FreeDevicesMemory(lib: Library)
    requires lib.Sound() && TableOk(lib.Abs()) && NULL !in lib.heap
    modifies lib`heap, lib`iNewDev, lib.devices
    ensures lib.Sound() && old(lib.iNewDev) <= |old(lib.Abs()).table|
    ensures lib.Abs() == FreeDevicesMem(old(lib.Abs()))
  {
    ghost var s := lib.Abs();
    FreeEntries(lib, s.table);
    lib.iNewDev := 0;
    FewerViews(lib.heap, s);
    assert lib.devices[..] == FreeDevicesMem(s).table;
  }
}
