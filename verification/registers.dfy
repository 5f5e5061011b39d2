/**
 Register access through the mapped BARs: the five readers and five writers, which differ in width and in the BAR they
 use.  BAR memory is taken to behave like memory: a register keeps what was written and reading has no effect.
 */
module Registers {
  import opened Kernel
  import opened Lifecycle
  import opened Ownership
  import opened Objects
  import opened LittleEndian

  /** `sizeof(val)` where `val` is a pointer, as in every reader, on the 64-bit builds. */
  const READ_ROOM: nat := 8

  predicate IsWidth(width: nat)
  {
    width == 1 || width == 2 || width == 4 || width == 8
  }

  /** The window of descriptor `i` admits `room` bytes at `off`; the sum is made in 64 bits and cannot wrap. */
  predicate Admits(s: State, h: Ptr, i: nat, off: nat, room: nat)
  {
    h in s.devs && i < |s.devs[h].bars| && off + room <= s.devs[h].bars[i].length
  }

  /** The bytes the descriptor's address maps. */
  function Window(s: State, h: Ptr, i: nat): seq<Byte>
    requires h in s.devs && i < |s.devs[h].bars| && s.devs[h].bars[i].userAddress in s.maps
  {
    s.maps[s.devs[h].bars[i].userAddress].bytes
  }

  predicate HasWindow(s: State, h: Ptr, i: nat)
  {
    h in s.devs && i < |s.devs[h].bars| && s.devs[h].bars[i].userAddress in s.maps
  }

  // ---------------------------------------------------------------- safety

  /**
   An access the guard admits lies inside one live mapping that is the device's own, for every device whose descriptor
   is open; a descriptor without a BAR has length 0 and admits nothing.
   */
  lemma AccessInside(s: State, h: Ptr, i: nat, off: nat, width: nat)
    requires Inv(s) && HoldsFd(s, h) && i < BAR_SLOTS
    ensures h in s.devs && |s.devs[h].bars| == BAR_SLOTS
    ensures width > 0 && Admits(s, h, i, off, width) ==>
              && i < s.devs[h].barCount && HasWindow(s, h, i)
              && s.maps[s.devs[h].bars[i].userAddress].owner == h
              && Fits(Window(s, h, i), off, width)
  {
    assert RecordOk(s, h);
    assert s.devs[h].bars[i].userAddress != NULL ==> MappedFor(s.maps, h, s.devs[h].bars[i]);
  }

  /**
   After a release that failed part way the guard alone does not protect: it admits the same offsets, and the access is
   inside a live mapping exactly when that descriptor has not been unmapped yet.
   */
  lemma HalfClosedAccess(s: State, h: Ptr, i: nat, off: nat, width: nat)
    requires Inv(s) && h in s.devs && i < BAR_SLOTS && width > 0
    requires Admits(s, h, i, off, width)
    ensures HasWindow(s, h, i) && Fits(Window(s, h, i), off, width) <==> s.devs[h].bars[i].userAddress != NULL
  {
    assert RecordOk(s, h);
    assert s.devs[h].bars[i].userAddress != NULL ==> MappedFor(s.maps, h, s.devs[h].bars[i]);
  }

  /** Different descriptors, of one device or of two, never name the same mapping. */
  lemma WindowsApart(s: State, h: Ptr, i: nat, h': Ptr, i': nat)
    requires Inv(s) && h in s.devs && h' in s.devs && i < BAR_SLOTS && i' < BAR_SLOTS && (h != h' || i != i')
    ensures |s.devs[h].bars| == BAR_SLOTS && |s.devs[h'].bars| == BAR_SLOTS
    ensures s.devs[h].bars[i].userAddress != NULL ==> s.devs[h].bars[i].userAddress != s.devs[h'].bars[i'].userAddress
  {
    assert RecordOk(s, h) && RecordOk(s, h');
    if s.devs[h].bars[i].userAddress != NULL {
      assert MappedFor(s.maps, h, s.devs[h].bars[i]);
      if s.devs[h'].bars[i'].userAddress != NULL {
        assert MappedFor(s.maps, h', s.devs[h'].bars[i']);
      }
    }
  }

  // ---------------------------------------------------------------- writing

  /**
   A write of `width` bytes through descriptor `i`.  `EFAULT` is not a code the function returns: it stands for an
   access outside every live mapping, which would end the process.
   */
  function WriteRegister(s: State, h: Ptr, i: nat, off: nat, width: nat, val: nat): Outcome
  {
    if !Usable(s, h) then Outcome(s, -EINVAL)
    else if !Admits(s, h, i, off, width) then Outcome(s, -ENOMEM)
    else if !HasWindow(s, h, i) || !Fits(Window(s, h, i), off, width) then Outcome(s, EFAULT)
    else
      var a := s.devs[h].bars[i].userAddress;
      Outcome(s.(maps := s.maps[a := s.maps[a].(bytes := Store(s.maps[a].bytes, off, ToBytes(val, width)))]), 0)
  }

  /** Replacing the bytes of a mapping by as many others keeps the invariant. */
  lemma RewriteKeepsInv(s: State, a: Ptr, bytes: seq<Byte>)
    requires Inv(s) && a in s.maps && |bytes| == |s.maps[a].bytes|
    ensures Inv(s.(maps := s.maps[a := s.maps[a].(bytes := bytes)]))
  {
    var t := s.(maps := s.maps[a := s.maps[a].(bytes := bytes)]);
    forall q | q in t.devs
      ensures RecordOk(t, q)
    {
      assert RecordOk(s, q);
      assert forall i :: 0 <= i < BAR_SLOTS && t.devs[q].bars[i].userAddress != NULL ==>
                           MappedFor(s.maps, q, s.devs[q].bars[i]);
    }
    assert forall d :: d in s.dma.contigs ==> ContigOk(s, d);
    assert forall d :: d in s.dma.sgs ==> SgOk(s, d);
  }

  /** The store through an address: outside every mapping it faults. */
  method StoreAt(lib: Library, a: Ptr, off: nat, bytes: seq<Byte>) returns (faults: bool)
    modifies lib`maps
    ensures faults <==> a !in old(lib.maps) || !Fits(old(lib.maps)[a].bytes, off, |bytes|)
    ensures faults ==> lib.Abs() == old(lib.Abs())
    ensures !faults ==>
              lib.Abs() == old(lib.Abs()).(maps := old(lib.maps)[a :=
                             old(lib.maps)[a].(bytes := Store(old(lib.maps)[a].bytes, off, bytes))])
  {
    if a !in lib.maps || !Fits(lib.maps[a].bytes, off, |bytes|) {
      return true;
    }
    lib.maps := lib.maps[a := lib.maps[a].(bytes := Store(lib.maps[a].bytes, off, bytes))];
    return false;
  }

  /** A write keeps the invariant; it faults exactly when the guard admits it and the BAR is no longer mapped. */
  lemma WriteIsSafe(s: State, h: Ptr, i: nat, off: nat, width: nat, val: nat)
    requires Inv(s) && i < BAR_SLOTS && width > 0
    ensures var Outcome(t, ret) := WriteRegister(s, h, i, off, width, val);
            && Inv(t)
            && (ret == EFAULT <==>
                  Usable(s, h) && Admits(s, h, i, off, width) && s.devs[h].bars[i].userAddress == NULL)
            && (HoldsFd(s, h) ==> ret != EFAULT)
  {
    if Usable(s, h) && Admits(s, h, i, off, width) {
      HalfClosedAccess(s, h, i, off, width);
      if HoldsFd(s, h) {
        AccessInside(s, h, i, off, width);
      }
      var a := s.devs[h].bars[i].userAddress;
      if a != NULL {
        RewriteKeepsInv(s, a, Store(s.maps[a].bytes, off, ToBytes(val, width)));
      }
    }
  }

  /**
   While the descriptor of a device is open, a write of any width is accepted exactly when its bytes are among those the
   BAR has mapped, the last ones included; one that is refused changes nothing.
   */
  lemma WriteAcceptedExactly(s: State, h: Ptr, i: nat, off: nat, width: nat, val: nat)
    requires Inv(s) && HoldsFd(s, h) && i < BAR_SLOTS && width > 0
    ensures |s.devs[h].bars| == BAR_SLOTS
    ensures var Outcome(t, ret) := WriteRegister(s, h, i, off, width, val);
            var a := s.devs[h].bars[i].userAddress;
            && (ret == 0 <==> s.devs[h].deviceId != 0 && a in s.maps && off + width <= |s.maps[a].bytes|)
            && (s.devs[h].deviceId == 0 ==> ret == -EINVAL)
            && (s.devs[h].deviceId != 0 && ret != 0 ==> ret == -ENOMEM)
            && (ret != 0 ==> t == s)
  {
    MappedIsAdmitted(s, h, i, off, width);
  }

  /** Over what is mapped: the guard admits what fits the mapping of an open device, and nothing else. */
  lemma MappedIsAdmitted(s: State, h: Ptr, i: nat, off: nat, room: nat)
    requires Inv(s) && HoldsFd(s, h) && i < BAR_SLOTS && room > 0
    ensures h != NULL && |s.devs[h].bars| == BAR_SLOTS
    ensures var a := s.devs[h].bars[i].userAddress;
            Admits(s, h, i, off, room) <==> a in s.maps && off + room <= |s.maps[a].bytes|
  {
    AccessInside(s, h, i, off, room);
    assert RecordOk(s, h);
    assert s.devs[h].bars[i].userAddress != NULL ==> MappedFor(s.maps, h, s.devs[h].bars[i]);
  }

  /**
   `CRONO_KERNEL_WriteAddr8/16/32/64` for descriptor 0 and `CRONO_KERNEL_WriteAddr` for any, on any handle that has not
   been freed.  `EFAULT` stands for the fault of a store through a zeroed address.
   */
  method WriteAddr(lib: Library, h: Ptr, i: nat, off: nat, width: nat, val: nat) returns (ret: int)
    requires lib.Valid() && i < BAR_SLOTS && IsWidth(width) && (h != NULL ==> h in lib.heap)
    modifies lib`maps
    ensures lib.Valid()
    ensures Outcome(lib.Abs(), ret) == WriteRegister(old(lib.Abs()), h, i, off, width, val)
    ensures old(HoldsFd(lib.Abs(), h)) ==>
              && ret != EFAULT
              && (ret == 0 <==> lib.heap[h].deviceId != 0 && old(HasWindow(lib.Abs(), h, i)) &&
                                off + width <= |old(Window(lib.Abs(), h, i))|)
  {
    ghost var s := lib.Abs();
    WriteIsSafe(s, h, i, off, width, val);
    if HoldsFd(s, h) {
      WriteAcceptedExactly(s, h, i, off, width, val);
    }
    if h == NULL || lib.heap[h].deviceId == 0 {
      return -EINVAL;
    }
    assert RecordOk(s, h) && lib.heap[h].barDescs[..] == s.devs[h].bars;
    if off + width > lib.heap[h].barDescs[i].length {
      return -ENOMEM;
    }
    var faults := StoreAt(lib, lib.heap[h].barDescs[i].userAddress, off, ToBytes(val, width));
    return if faults then EFAULT else 0;
  }

  /**
   `CRONO_KERNEL_ReadAddr8/16/32/64` for descriptor 0 and `CRONO_KERNEL_ReadAddr` for any; `hasOut` says whether `val`
   is given, which the last one does not check.  Every width needs eight bytes of room.
   */
  method ReadAddr(lib: Library, h: Ptr, i: nat, off: nat, width: nat, hasOut: bool) returns (ret: int, val: nat)
    requires lib.Valid() && i < BAR_SLOTS && IsWidth(width) && (h != NULL ==> h in lib.heap)
    ensures !Usable(lib.Abs(), h) ==> ret == -EINVAL
    ensures Usable(lib.Abs(), h) && !(hasOut && Admits(lib.Abs(), h, i, off, READ_ROOM)) ==> ret == -ENOMEM
    ensures Usable(lib.Abs(), h) && hasOut && Admits(lib.Abs(), h, i, off, READ_ROOM) ==>
              ret == if HasWindow(lib.Abs(), h, i) then 0 else EFAULT
    ensures HoldsFd(lib.Abs(), h) ==>
              && ret != EFAULT
              && (ret == 0 <==> lib.heap[h].deviceId != 0 && hasOut && HasWindow(lib.Abs(), h, i) &&
                                off + 8 <= |Window(lib.Abs(), h, i)|)
    ensures ret == 0 ==> HasWindow(lib.Abs(), h, i) && Fits(Window(lib.Abs(), h, i), off, width)
    ensures ret == 0 ==> val == FromBytes(Load(Window(lib.Abs(), h, i), off, width)) && val < Limit(width)
  {
    ghost var s := lib.Abs();
    if HoldsFd(s, h) {
      MappedIsAdmitted(s, h, i, off, READ_ROOM);
    }
    if h == NULL || lib.heap[h].deviceId == 0 {
      return -EINVAL, 0;
    }
    assert RecordOk(s, h) && lib.heap[h].barDescs[..] == s.devs[h].bars;
    if !hasOut || off + READ_ROOM > lib.heap[h].barDescs[i].length {
      return -ENOMEM, 0;
    }
    HalfClosedAccess(s, h, i, off, READ_ROOM);
    var a := lib.heap[h].barDescs[i].userAddress;
    if a !in lib.maps {
      return EFAULT, 0;
    }
    NumberRoundTrip(Load(lib.maps[a].bytes, off, width));
    return 0, FromBytes(Load(lib.maps[a].bytes, off, width));
  }

  // ---------------------------------------------------------------- many writes

  /** One call of a writer: descriptor, offset, width, value. */
  datatype Access = Access(i: nat, off: nat, width: nat, val: nat)

  ghost predicate AllInRange(ws: seq<Access>)
  {
    forall k :: 0 <= k < |ws| ==> ws[k].i < BAR_SLOTS && IsWidth(ws[k].width)
  }

  /** `t` differs from `s` only in what the mappings of `h` hold, not in how long they are or whose. */
  ghost predicate OnlyBytes(s: State, t: State, h: Ptr)
  {
    && t == s.(maps := t.maps) && h in s.devs
    && (forall a :: a in s.maps <==> a in t.maps)
    && (forall a :: a in s.maps ==> t.maps[a].owner == s.maps[a].owner && |t.maps[a].bytes| == |s.maps[a].bytes|)
    && (forall a :: a in s.maps && !ListsBar(s.devs[h], a) ==> t.maps[a] == s.maps[a])
  }

  lemma WriteKeeps(s: State, h: Ptr, w: Access)
    requires Inv(s) && HoldsFd(s, h) && w.i < BAR_SLOTS && IsWidth(w.width)
    ensures var Outcome(t, ret) := WriteRegister(s, h, w.i, w.off, w.width, w.val);
            Inv(t) && HoldsFd(t, h) && OnlyBytes(s, t, h) && ret != EFAULT
  {
    AccessInside(s, h, w.i, w.off, w.width);
    assert RecordOk(s, h);
    if Admits(s, h, w.i, w.off, w.width) {
      var a := s.devs[h].bars[w.i].userAddress;
      assert ListsBar(s.devs[h], a);
      RewriteKeepsInv(s, a, Store(s.maps[a].bytes, w.off, ToBytes(w.val, w.width)));
    }
  }

  /** The state after the first `k` writes, accepted or not. */
  function WriteFirst(s: State, h: Ptr, ws: seq<Access>, k: nat): State
    requires k <= |ws|
  {
    if k == 0 then s
    else
      var t, w := WriteFirst(s, h, ws, k - 1), ws[k - 1];
      WriteRegister(t, h, w.i, w.off, w.width, w.val).state
  }

  /** No writes, accepted or not, break the invariant or touch anything but the device's own BARs. */
  lemma {:induction false} WritesKeep(s: State, h: Ptr, ws: seq<Access>, k: nat, t: State)
    requires Inv(s) && HoldsFd(s, h) && AllInRange(ws) && k <= |ws| && t == WriteFirst(s, h, ws, k)
    ensures Inv(t) && HoldsFd(t, h) && OnlyBytes(s, t, h)
    decreases k
  {
    if k > 0 {
      var j := k - 1;
      var u := WriteFirst(s, h, ws, j);
      WritesKeep(s, h, ws, j, u);
      WriteKeeps(u, h, ws[j]);
      OnlyBytesAgain(s, u, t, h);
    }
  }

  lemma OnlyBytesAgain(s: State, u: State, t: State, h: Ptr)
    requires OnlyBytes(s, u, h) && OnlyBytes(u, t, h)
    ensures OnlyBytes(s, t, h)
  {
  }

  /** The guard lets the write through, and it goes to descriptor `i`. */
  predicate Goes(s: State, h: Ptr, w: Access, i: nat)
  {
    Usable(s, h) && w.i == i && Admits(s, h, i, w.off, w.width)
  }

  /** The accepted among the first `k` writes through descriptor `i`, as byte writes. */
  function Accepted(s: State, h: Ptr, ws: seq<Access>, i: nat, k: nat): seq<Write>
    requires k <= |ws|
  {
    if k == 0 then []
    else
      var log, w := Accepted(s, h, ws, i, k - 1), ws[k - 1];
      if Goes(s, h, w, i) then log + [Write(w.off, ToBytes(w.val, w.width))] else log
  }

  lemma ReplayAdd(mem: seq<Byte>, log: seq<Write>, w: Write)
    requires AllFit(|mem|, log) && w.off + |w.bytes| <= |mem|
    ensures AllFit(|mem|, log + [w])
    ensures Replay(mem, log + [w]) == Store(Replay(mem, log), w.off, w.bytes)
  {
    assert (log + [w])[..|log|] == log;
  }

  /** One write changes the window it goes through, if it is accepted, and no other of the device. */
  lemma OneWrite(s: State, h: Ptr, w: Access, i: nat)
    requires Inv(s) && HoldsFd(s, h) && w.i < BAR_SLOTS && IsWidth(w.width) && i < BAR_SLOTS && HasWindow(s, h, i)
    ensures Goes(s, h, w, i) ==> Fits(Window(s, h, i), w.off, w.width)
    ensures var t := WriteRegister(s, h, w.i, w.off, w.width, w.val).state;
            && HasWindow(t, h, i)
            && Window(t, h, i) ==
                 if Goes(s, h, w, i) then Store(Window(s, h, i), w.off, ToBytes(w.val, w.width)) else Window(s, h, i)
  {
    AccessInside(s, h, w.i, w.off, w.width);
    if w.i != i {
      WindowsApart(s, h, i, h, w.i);
    }
  }

  /** Descriptor `i` holds `mem` with the writes of `log` replayed, and all of them fit. */
  ghost predicate Refines(t: State, h: Ptr, i: nat, mem: seq<Byte>, log: seq<Write>)
  {
    HasWindow(t, h, i) && AllFit(|mem|, log) && Window(t, h, i) == Replay(mem, log)
  }

  /** One write more, on the window and on the log. */
  lemma NextWrite(u: State, h: Ptr, w: Access, i: nat, mem: seq<Byte>, log: seq<Write>, t: State)
    requires Inv(u) && HoldsFd(u, h) && w.i < BAR_SLOTS && IsWidth(w.width) && i < BAR_SLOTS
    requires Refines(u, h, i, mem, log) && t == WriteRegister(u, h, w.i, w.off, w.width, w.val).state
    ensures Refines(t, h, i, mem, if Goes(u, h, w, i) then log + [Write(w.off, ToBytes(w.val, w.width))] else log)
  {
    OneWrite(u, h, w, i);
    if Goes(u, h, w, i) {
      ReplayAdd(mem, log, Write(w.off, ToBytes(w.val, w.width)));
    }
  }

  /** Which writes go through does not depend on what writes change. */
  lemma SameGoes(s: State, u: State, h: Ptr, w: Access, i: nat)
    requires OnlyBytes(s, u, h)
    ensures Goes(u, h, w, i) == Goes(s, h, w, i)
  {
  }

  /**
   The writers implement one flat byte store per BAR: after any calls, of any widths, at any offsets, accepted or not,
   through any descriptors of the device, each BAR holds its first contents with the accepted writes to it replayed.
   */
  lemma {:induction false} WritesRefineStore(s: State, h: Ptr, ws: seq<Access>, i: nat, k: nat, mem: seq<Byte>)
    requires Inv(s) && HoldsFd(s, h) && AllInRange(ws) && i < BAR_SLOTS && k <= |ws|
    requires HasWindow(s, h, i) && mem == Window(s, h, i)
    ensures Refines(WriteFirst(s, h, ws, k), h, i, mem, Accepted(s, h, ws, i, k))
    decreases k
  {
    if k > 0 {
      var j := k - 1;
      WritesRefineStore(s, h, ws, i, j, mem);
      var u := WriteFirst(s, h, ws, j);
      WritesKeep(s, h, ws, j, u);
      SameGoes(s, u, h, ws[j], i);
      NextWrite(u, h, ws[j], i, mem, Accepted(s, h, ws, i, j), WriteFirst(s, h, ws, k));
    }
  }

  /** What a reader finds after any writes: byte by byte, the last accepted write, or the first contents. */
  lemma ReadSeesLastWrites(s: State, h: Ptr, ws: seq<Access>, i: nat, a: nat)
    requires Inv(s) && HoldsFd(s, h) && AllInRange(ws) && i < BAR_SLOTS && HasWindow(s, h, i) && a < |Window(s, h, i)|
    ensures var log, t := Accepted(s, h, ws, i, |ws|), WriteFirst(s, h, ws, |ws|);
            && HasWindow(t, h, i) && |Window(t, h, i)| == |Window(s, h, i)|
            && IsLast(Window(s, h, i), log, a, Window(t, h, i)[a])
  {
    WritesRefineStore(s, h, ws, i, |ws|, Window(s, h, i));
    LastWriteWins(Window(s, h, i), Accepted(s, h, ws, i, |ws|), a);
  }

  /**
   And so the number a reader returns after any writes is the one whose bytes, lowest first, are the last ones accepted
   for each place it covers.
   */
  lemma ReadReturnsLastWrites(s: State, h: Ptr, ws: seq<Access>, i: nat, off: nat, bytes: seq<Byte>)
    requires Inv(s) && HoldsFd(s, h) && AllInRange(ws) && i < BAR_SLOTS && HasWindow(s, h, i)
    requires Fits(Window(s, h, i), off, |bytes|)
    requires forall d :: 0 <= d < |bytes| ==>
               IsLast(Window(s, h, i), Accepted(s, h, ws, i, |ws|), off + d, bytes[d])
    ensures var t := WriteFirst(s, h, ws, |ws|);
            && HasWindow(t, h, i) && Fits(Window(t, h, i), off, |bytes|)
            && FromBytes(Load(Window(t, h, i), off, |bytes|)) == FromBytes(bytes)
  {
    var mem, log := Window(s, h, i), Accepted(s, h, ws, i, |ws|);
    WritesRefineStore(s, h, ws, i, |ws|, mem);
    LoadIsLast(mem, log, off, bytes);
  }

  lemma LoadIsLast(mem: seq<Byte>, log: seq<Write>, off: nat, bytes: seq<Byte>)
    requires AllFit(|mem|, log) && Fits(mem, off, |bytes|)
    requires forall d :: 0 <= d < |bytes| ==> IsLast(mem, log, off + d, bytes[d])
    ensures Load(Replay(mem, log), off, |bytes|) == bytes
  {
    var after := Replay(mem, log);
    forall d | 0 <= d < |bytes|
      ensures after[off + d] == bytes[d]
    {
      LastWriteWins(mem, log, off + d);
      LastIsUnique(mem, log, off + d, after[off + d], bytes[d]);
    }
  }

  // ---------------------------------------------------------------- widths

  /** The `j`-th of the narrow writes that stand for a wide one. */
  function Narrow(i: nat, off: nat, val: nat, chunk: nat, j: nat): Access
  {
    Access(i, off + Times(chunk, j), chunk, Shift(val, Times(chunk, j)))
  }

  /** Descriptor `i` admits `n` bytes at `off`, and they are mapped. */
  predicate Writable(s: State, h: Ptr, i: nat, off: nat, n: nat)
  {
    Usable(s, h) && Admits(s, h, i, off, n) && HasWindow(s, h, i) && Fits(Window(s, h, i), off, n)
  }

  /** A write of the rest of a value after a write of its first `m` bytes, which left `u`. */
  lemma WriteMore(s: State, h: Ptr, i: nat, off: nat, val: nat, m: nat, n: nat, w: Access, u: State)
    requires Writable(s, h, i, off, n) && n == m + w.width && w == Access(i, off + m, w.width, Shift(val, m))
    requires u == WriteRegister(s, h, i, off, m, val).state
    ensures WriteRegister(u, h, i, w.off, w.width, w.val) == WriteRegister(s, h, i, off, n, val)
  {
    BytesSplit(val, m, w.width);
    StoreSplit(Window(s, h, i), off, ToBytes(val, m), ToBytes(w.val, w.width));
  }

  lemma WriteNothing(s: State, h: Ptr, i: nat, off: nat, val: nat)
    requires Writable(s, h, i, off, 0)
    ensures WriteRegister(s, h, i, off, 0, val).state == s
  {
    var a := s.devs[h].bars[i].userAddress;
    assert Store(s.maps[a].bytes, off, []) == s.maps[a].bytes;
    assert s.maps[a := s.maps[a]] == s.maps;
  }

  /**
   An accepted wide write leaves the state that the narrow writes of its parts leave, lowest first: 64 bits as two times
   32, four times 16 or eight times 8.
   */
  lemma {:induction false} WideWriteIsNarrow(s: State, h: Ptr, i: nat, off: nat, val: nat, chunk: nat,
                                             ws: seq<Access>, k: nat, n: nat)
    requires k <= |ws| && forall j :: 0 <= j < k ==> ws[j] == Narrow(i, off, val, chunk, j)
    requires n == Times(chunk, k) && Writable(s, h, i, off, n)
    ensures WriteFirst(s, h, ws, k) == WriteRegister(s, h, i, off, n, val).state
    decreases k
  {
    if k == 0 {
      WriteNothing(s, h, i, off, val);
    } else {
      var j := k - 1;
      var m := Times(chunk, j);
      WideWriteIsNarrow(s, h, i, off, val, chunk, ws, j, m);
      assert ws[j] == Narrow(i, off, val, chunk, j);
      WriteMore(s, h, i, off, val, m, n, ws[j], WriteFirst(s, h, ws, j));
    }
  }
}
