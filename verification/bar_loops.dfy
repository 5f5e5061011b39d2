/** What the BAR mapping loop and the unmapping loop compute, said without recursion. */
module BarLoops {
  import opened Kernel
  import opened Lifecycle
  import opened Ownership

  // ---------------------------------------------------------------- what the system may answer

  /**
   A failing call sets `errno`; a new descriptor or mapping is not one that is live; `mmap` gives as many bytes as it
   was asked for and refuses a length of zero.
   */
  predicate BarIoOk(s: State, io: FillIo, b: BarIo)
  {
    Present(b) ==>
      && (b.fd < 0 ==> b.openErrno != 0)
      && (b.fd >= 0 ==> b.fd !in s.fds && b.fd != io.resourceFd)
      && (b.map_.MapFailed? ==> b.map_.errno != 0)
      && (b.map_.Mapped? ==> b.map_.addr != NULL && b.map_.addr !in s.maps &&
                             |b.map_.bytes| == BarLength(b) && BarLength(b) > 0)
  }

  ghost predicate DistinctMaps(bars: seq<BarIo>)
  {
    forall i, j :: 0 <= i < j < |bars| && BarMaps(bars[i]) && BarMaps(bars[j]) ==>
      bars[i].map_.addr != bars[j].map_.addr
  }

  ghost predicate FillOk(s: State, io: FillIo)
  {
    && |io.bars| == BAR_SLOTS
    && (io.resourceFd < 0 ==> io.resourceErrno != 0)
    && (io.resourceFd >= 0 ==> io.resourceFd !in s.fds)
    && (forall k :: 0 <= k < |io.bars| ==> BarIoOk(s, io, io.bars[k]))
    && DistinctMaps(io.bars)
  }

  // ---------------------------------------------------------------- compaction

  /** `d` says what the line its `barNum` names says, and where the BAR of that line was mapped. */
  predicate Describes(bars: seq<BarIo>, d: Bar)
  {
    && d.barNum < |bars| && BarMaps(bars[d.barNum])
    && var b := bars[d.barNum];
       && d.physicalAddress == b.start && d.userAddress == b.map_.addr
       && d.length == (b.end - b.start + 1) % U64 % U32
  }

  ghost predicate HasBar(descs: seq<Bar>, k: nat)
  {
    exists i :: 0 <= i < |descs| && descs[i].barNum == k
  }

  /** `descs` holds exactly the lines among the first `n` that map, in order. */
  ghost predicate Compacted(bars: seq<BarIo>, n: nat, descs: seq<Bar>)
    requires n <= |bars|
  {
    && |descs| <= n
    && (forall i :: 0 <= i < |descs| ==> Describes(bars, descs[i]) && descs[i].barNum < n)
    && (forall i, j :: 0 <= i < j < |descs| ==> descs[i].barNum < descs[j].barNum)
    && (forall k :: 0 <= k < n && BarMaps(bars[k]) ==> HasBar(descs, k))
  }

  lemma CompactedAdd(bars: seq<BarIo>, n: nat, d: seq<Bar>, b: Bar)
    requires 0 < n <= |bars| && Compacted(bars, n - 1, d)
    requires Describes(bars, b) && b.barNum == n - 1
    ensures Compacted(bars, n, d + [b])
  {
    var e := d + [b];
    forall k | 0 <= k < n && BarMaps(bars[k])
      ensures HasBar(e, k)
    {
      if k < n - 1 {
        assert HasBar(d, k);
        var i :| 0 <= i < |d| && d[i].barNum == k;
        assert e[i].barNum == k;
      } else {
        assert e[|d|].barNum == k;
      }
    }
    forall i | 0 <= i < |e|
      ensures Describes(bars, e[i]) && e[i].barNum < n
    {
      assert i < |d| ==> e[i] == d[i];
    }
  }

  lemma {:induction false} DescribedCompacts(bars: seq<BarIo>, n: nat)
    requires n <= |bars|
    ensures Compacted(bars, n, Described(bars, n))
  {
    if n > 0 {
      DescribedCompacts(bars, n - 1);
      if BarMaps(bars[n - 1]) {
        CompactedAdd(bars, n, Described(bars, n - 1), Describe(bars[n - 1], n - 1));
      }
    }
  }

  /** A line has one descriptor. */
  lemma SameLine(bars: seq<BarIo>, d: Bar, e: Bar)
    requires Describes(bars, d) && Describes(bars, e) && d.barNum == e.barNum
    ensures d == e
  {
  }

  /** A compacted list is unique: its order and contents leave no choice. */
  lemma {:induction false} CompactedUnique(bars: seq<BarIo>, n: nat, d: seq<Bar>, e: seq<Bar>)
    requires n <= |bars| && Compacted(bars, n, d) && Compacted(bars, n, e)
    ensures d == e
    decreases n
  {
    if n > 0 {
      if BarMaps(bars[n - 1]) {
        CompactedDrop(bars, n, d);
        CompactedDrop(bars, n, e);
        CompactedUnique(bars, n - 1, d[..|d| - 1], e[..|e| - 1]);
        SameLine(bars, d[|d| - 1], e[|e| - 1]);
        assert d == d[..|d| - 1] + [d[|d| - 1]] && e == e[..|e| - 1] + [e[|e| - 1]];
      } else {
        CompactedSkip(bars, n, d);
        CompactedSkip(bars, n, e);
        CompactedUnique(bars, n - 1, d, e);
      }
    }
  }

  lemma CompactedLast(bars: seq<BarIo>, n: nat, d: seq<Bar>)
    requires 0 < n <= |bars| && Compacted(bars, n, d) && BarMaps(bars[n - 1])
    ensures |d| > 0 && d[|d| - 1].barNum == n - 1
  {
    assert HasBar(d, n - 1);
    var i :| 0 <= i < |d| && d[i].barNum == n - 1;
    assert d[|d| - 1].barNum < n;
    assert d[i].barNum <= d[|d| - 1].barNum;
  }

  lemma CompactedDrop(bars: seq<BarIo>, n: nat, d: seq<Bar>)
    requires 0 < n <= |bars| && Compacted(bars, n, d) && BarMaps(bars[n - 1])
    ensures |d| > 0 && d[|d| - 1].barNum == n - 1 && Compacted(bars, n - 1, d[..|d| - 1])
  {
    CompactedLast(bars, n, d);
    var e := d[..|d| - 1];
    forall k | 0 <= k < n - 1 && BarMaps(bars[k])
      ensures HasBar(e, k)
    {
      assert HasBar(d, k);
      var j :| 0 <= j < |d| && d[j].barNum == k;
      assert e[j].barNum == k;
    }
  }

  lemma CompactedSkip(bars: seq<BarIo>, n: nat, d: seq<Bar>)
    requires 0 < n <= |bars| && Compacted(bars, n, d) && !BarMaps(bars[n - 1])
    ensures Compacted(bars, n - 1, d)
  {
    forall i | 0 <= i < |d|
      ensures d[i].barNum < n - 1
    {
      assert Describes(bars, d[i]);
    }
    Increasing(d, |d|);
  }

  /** Strictly increasing numbers below a bound are no more than the bound. */
  lemma {:induction false} Increasing(d: seq<Bar>, m: nat)
    requires m <= |d|
    requires forall i, j :: 0 <= i < j < m ==> d[i].barNum < d[j].barNum
    ensures m > 0 ==> m <= d[m - 1].barNum + 1
  {
    if m > 1 {
      Increasing(d, m - 1);
    }
  }

  // ---------------------------------------------------------------- mapping

  /** One of the first `m` lines is mapped at `a`. */
  ghost predicate MapsAt(bars: seq<BarIo>, m: nat, a: Ptr)
    requires m <= |bars|
  {
    exists k :: 0 <= k < m && BarMaps(bars[k]) && bars[k].map_.addr == a
  }

  /** The mappings the loop adds are those of its lines, all new, and are the device's. */
  lemma {:induction false} MapsAdded(s: State, p: Ptr, io: FillIo, m: nat, a: Ptr)
    requires FillOk(s, io) && m <= |io.bars|
    ensures var maps := MapsWith(p, s.maps, io.bars, m);
            && (a in maps <==> a in s.maps || MapsAt(io.bars, m, a))
            && (a in s.maps ==> maps[a] == s.maps[a] && !MapsAt(io.bars, m, a))
            && (MapsAt(io.bars, m, a) ==> maps[a].owner == p && a != NULL)
  {
    if m > 0 {
      MapsAdded(s, p, io, m - 1, a);
      var b := io.bars[m - 1];
      assert BarIoOk(s, io, b);
      assert MapsAt(io.bars, m, a) <==> MapsAt(io.bars, m - 1, a) || (BarMaps(b) && a == b.map_.addr);
    }
  }

  ghost predicate AllMapped(maps: map<Ptr, Mapping>, p: Ptr, descs: seq<Bar>)
  {
    forall i :: 0 <= i < |descs| ==> descs[i].userAddress != NULL && MappedFor(maps, p, descs[i])
  }

  /** Every descriptor is mapped for the device, at its recorded length. */
  lemma {:induction false} DescribedMapped(s: State, p: Ptr, io: FillIo, m: nat)
    requires FillOk(s, io) && m <= |io.bars|
    ensures AllMapped(MapsWith(p, s.maps, io.bars, m), p, Described(io.bars, m))
  {
    if m > 0 {
      DescribedMapped(s, p, io, m - 1);
      DescribedCompacts(io.bars, m - 1);
      var d, b := Described(io.bars, m - 1), io.bars[m - 1];
      assert BarIoOk(s, io, b);
      if BarMaps(b) {
        forall i | 0 <= i < |d|
          ensures d[i].userAddress != b.map_.addr
        {
          assert Describes(io.bars, d[i]);
          assert d[i].barNum < m - 1;
        }
      }
    }
  }

  /** The record with the descriptors copied in satisfies its invariant and lists exactly what was mapped. */
  lemma FilledBarsOk(s: State, t: State, p: Ptr, r: Record, io: FillIo)
    requires FillOk(s, io)
    requires var m := |io.bars|;
             t.maps == MapsWith(p, s.maps, io.bars, m) && r == Filled(r, Described(io.bars, m))
    ensures BarsOk(t, p, r) && Intact(r)
    ensures forall a :: ListsBar(r, a) <==> MapsAt(io.bars, |io.bars|, a)
  {
    var m := |io.bars|;
    var d := Described(io.bars, m);
    DescribedCompacts(io.bars, m);
    DescribedMapped(s, p, io, m);
    forall i, j | 0 <= i < j < BAR_SLOTS && r.bars[i].userAddress != NULL
      ensures r.bars[i].userAddress != r.bars[j].userAddress
    {
      if j < |d| {
        assert Describes(io.bars, d[i]) && Describes(io.bars, d[j]);
      }
    }
    forall a
      ensures ListsBar(r, a) <==> MapsAt(io.bars, m, a)
    {
      ListedIsMapped(s, p, r, io, a);
    }
  }

  lemma ListedIsMapped(s: State, p: Ptr, r: Record, io: FillIo, a: Ptr)
    requires FillOk(s, io) && r == Filled(r, Described(io.bars, |io.bars|))
    requires Compacted(io.bars, |io.bars|, Described(io.bars, |io.bars|))
    ensures ListsBar(r, a) <==> MapsAt(io.bars, |io.bars|, a)
  {
    var d := Described(io.bars, |io.bars|);
    if ListsBar(r, a) {
      var i :| 0 <= i < |r.bars| && r.bars[i].userAddress == a;
      assert Describes(io.bars, d[i]);
    }
    if MapsAt(io.bars, |io.bars|, a) {
      var k :| 0 <= k < |io.bars| && BarMaps(io.bars[k]) && io.bars[k].map_.addr == a;
      assert BarIoOk(s, io, io.bars[k]);
      assert HasBar(d, k);
      var i :| 0 <= i < |d| && d[i].barNum == k;
      assert Describes(io.bars, d[i]);
      assert r.bars[i].userAddress == a;
    }
  }

  /** The loop runs to the end. */
  predicate FillsAll(bars: seq<BarIo>)
  {
    FillStop(bars, |bars|) == |bars|
  }

  /** The BAR loop is entered. */
  predicate FillReaches(s: State, p: Ptr, io: FillIo)
  {
    p in s.devs && s.devs[p].barCount == 0 && io.pathErr == 0 && io.resourceFd >= 0 && io.streamOk
  }

  /** `fill_device_bar_descriptions` ran its loop to the end. */
  predicate FillCompletes(s: State, p: Ptr, io: FillIo)
  {
    FillReaches(s, p, io) && FillsAll(io.bars)
  }

  lemma FillCode(s: State, p: Ptr, io: FillIo)
    requires p in s.devs && FillOk(s, io)
    ensures var Outcome(t, ret) := Fill(s, p, io);
            && (ret == 0 <==> s.devs[p].barCount > 0 || FillCompletes(s, p, io))
            && (!FillReaches(s, p, io) ==> t == s)
            && (FillReaches(s, p, io) ==> t.maps == MapsWith(p, s.maps, io.bars, FillStop(io.bars, |io.bars|)))
            && (FillReaches(s, p, io) && !FillCompletes(s, p, io) ==> t == s.(maps := t.maps))
            && (FillCompletes(s, p, io) ==>
                  && t == s.(maps := t.maps, devs := t.devs)
                  && t.devs == s.devs[p := Filled(s.devs[p], Described(io.bars, |io.bars|))])
  {
    var m := FillStop(io.bars, |io.bars|);
    if m < |io.bars| {
      assert BarIoOk(s, io, io.bars[m]);
    }
  }

  /**
   The 32-bit `length` of a BAR whose size is a multiple of 4 GiB is 0, which `mmap` refuses: such a device is never
   described, hence never opened.
   */
  lemma WholeFourGigabytesFail(s: State, p: Ptr, io: FillIo, k: nat)
    requires p in s.devs && FillOk(s, io) && FillReaches(s, p, io)
    requires k < |io.bars| && io.bars[k].start <= io.bars[k].end
    requires io.bars[k].end < U64 && Present(io.bars[k]) && (io.bars[k].end - io.bars[k].start + 1) % U32 == 0
    ensures BarLength(io.bars[k]) == 0 && Fill(s, p, io).code != 0
  {
    FillCode(s, p, io);
    assert BarIoOk(s, io, io.bars[k]);
    assert BarFails(io.bars[k]);
  }

  /**
   A first fill that succeeds leaves exactly the present BARs, in order, with the tail zeroed; one that fails leaves
   the record as it was and, as its only residue, the mappings of the lines before the first that failed; a fill of a
   record that has BARs does nothing.
   */
  lemma BarCompaction(s: State, p: Ptr, io: FillIo)
    requires p in s.devs && FillOk(s, io)
    ensures var Outcome(t, ret) := Fill(s, p, io);
            && (s.devs[p].barCount > 0 ==> ret == 0 && t == s)
            && (s.devs[p].barCount == 0 && ret == 0 ==>
                  && p in t.devs && t.devs[p].barCount <= |t.devs[p].bars| == BAR_SLOTS
                  && (forall k :: 0 <= k < |io.bars| ==> (Present(io.bars[k]) <==> BarMaps(io.bars[k])))
                  && Compacted(io.bars, |io.bars|, t.devs[p].bars[..t.devs[p].barCount])
                  && (forall i :: t.devs[p].barCount <= i < BAR_SLOTS ==> t.devs[p].bars[i] == NO_BAR))
            && (ret != 0 ==>
                  && t == s.(maps := t.maps)
                  && forall a :: a in t.maps && a !in s.maps ==> MapsAt(io.bars, FillStop(io.bars, |io.bars|), a))
  {
    var Outcome(t, ret) := Fill(s, p, io);
    FillCode(s, p, io);
    DescribedCompacts(io.bars, |io.bars|);
    if s.devs[p].barCount == 0 && ret == 0 {
      assert t.devs[p].bars[..t.devs[p].barCount] == Described(io.bars, |io.bars|);
    }
    forall a | ret != 0 && a in t.maps && a !in s.maps
      ensures MapsAt(io.bars, FillStop(io.bars, |io.bars|), a)
    {
      MapsAdded(s, p, io, FillStop(io.bars, |io.bars|), a);
    }
  }

  /** Descriptor `d` describes its line, and what is mapped at its address is what `mmap` gave, for `p`. */
  predicate FromLine(d: Bar, bars: seq<BarIo>, maps: map<Ptr, Mapping>, p: Ptr)
  {
    && Describes(bars, d)
    && d.userAddress in maps && maps[d.userAddress] == Mapping(p, bars[d.barNum].map_.bytes)
  }

  /** What a line that maps leaves is not overwritten by those after it. */
  lemma {:induction false} LineStaysMapped(p: Ptr, maps: map<Ptr, Mapping>, bars: seq<BarIo>, m: nat, k: nat)
    requires k < m <= |bars| && BarMaps(bars[k]) && DistinctMaps(bars)
    ensures bars[k].map_.addr in MapsWith(p, maps, bars, m)
    ensures MapsWith(p, maps, bars, m)[bars[k].map_.addr] == Mapping(p, bars[k].map_.bytes)
  {
    if k < m - 1 {
      LineStaysMapped(p, maps, bars, m - 1, k);
    }
  }

  /**
   After a first fill with code 0 every descriptor holds the first address and the length of the line its number names,
   the address that line's BAR was mapped at, and what is mapped there is what `mmap` gave, for this device.  Nothing
   else in the record changes.
   */
  lemma DescriptorsSayTheirLines(s: State, p: Ptr, io: FillIo)
    requires p in s.devs && s.devs[p].barCount == 0 && FillOk(s, io) && Fill(s, p, io).code == 0
    ensures var t := Fill(s, p, io).state;
            && p in t.devs && t.devs[p].barCount <= |t.devs[p].bars| == BAR_SLOTS
            && (forall i :: 0 <= i < t.devs[p].barCount ==> FromLine(t.devs[p].bars[i], io.bars, t.maps, p))
            && t.devs[p] == s.devs[p].(bars := t.devs[p].bars, barCount := t.devs[p].barCount)
  {
    BarCompaction(s, p, io);
    FillCode(s, p, io);
    var t := Fill(s, p, io).state;
    var r := t.devs[p];
    forall i | 0 <= i < r.barCount
      ensures FromLine(r.bars[i], io.bars, t.maps, p)
    {
      var d := r.bars[..r.barCount][i];
      assert Describes(io.bars, d);
      LineStaysMapped(p, s.maps, io.bars, |io.bars|, d.barNum);
    }
  }

  /** The code of a first fill: what went wrong before the lines, or `errno` of the first line that fails, or 0. */
  predicate FillSays(io: FillIo, ret: int)
  {
    if io.pathErr != 0 then ret == io.pathErr
    else if io.resourceFd < 0 then ret == io.resourceErrno
    else if !io.streamOk then ret == -EINVAL
    else
      && (ret == 0 <==> forall k :: 0 <= k < |io.bars| ==> LineWorks(io.bars[k]))
      && (forall k :: 0 <= k < |io.bars| && FirstToFail(io.bars, k) ==>
            ret == if io.bars[k].fd < 0 then io.bars[k].openErrno else io.bars[k].map_.errno)
  }

  lemma FillAnswers(s: State, p: Ptr, io: FillIo)
    requires p in s.devs && FillOk(s, io)
    ensures var ret := Fill(s, p, io).code;
            (s.devs[p].barCount > 0 ==> ret == 0) && (s.devs[p].barCount == 0 ==> FillSays(io, ret))
  {
    var m := FillStop(io.bars, |io.bars|);
    if m < |io.bars| {
      assert BarIoOk(s, io, io.bars[m]) && !LineWorks(io.bars[m]);
    }
    assert forall k :: 0 <= k < m ==> !BarFails(io.bars[k]) && LineWorks(io.bars[k]);
    forall k | 0 <= k < |io.bars| && k != m
      ensures !FirstToFail(io.bars, k)
    {
      if k > m {
        assert !LineWorks(io.bars[m]);
      }
    }
  }

  /** The line names no BAR, or its BAR opens and maps. */
  predicate LineWorks(b: BarIo)
  {
    (b.start == 0 && b.end == 0) || (b.fd >= 0 && b.map_.Mapped?)
  }

  predicate FirstToFail(bars: seq<BarIo>, k: nat)
    requires k < |bars|
  {
    !LineWorks(bars[k]) && forall j :: 0 <= j < k ==> LineWorks(bars[j])
  }
}
