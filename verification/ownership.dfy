/**
 Who holds what.  A resource is live while the process or the kernel keeps it; it is held when a record the program can
 still reach lists it; it is leaked when it is live and nothing holds it.
 */
module Ownership {
  import opened Kernel
  import opened Lifecycle

  datatype Resource = Fd(fd: int) | Block(ptr: Ptr) | Mem(base: Ptr) | SgId(id: int) | ContigId(id: int)

  /** `p` is in the table below `iNewDev`, where `freeDeviceMem` looks. */
  ghost predicate Registered(s: State, p: Ptr)
  {
    p != NULL && exists i :: 0 <= i < s.next && i < |s.table| && s.table[i] == p
  }

  /** The descriptor a record names is open and is the one it was given. */
  predicate HoldsFd(s: State, p: Ptr)
  {
    p in s.devs && s.devs[p].fd in s.fds && s.fds[s.devs[p].fd] == p
  }

  ghost predicate ListsBar(r: Record, a: Ptr)
  {
    a != NULL && exists i :: 0 <= i < |r.bars| && r.bars[i].userAddress == a
  }

  predicate IsBlock(s: State, b: Ptr)
  {
    b in s.devs || b in s.dma.sgs || b in s.dma.pageTables || b in s.dma.contigs || b in s.dma.scratch
  }

  predicate Live(s: State, r: Resource)
  {
    match r
    case Fd(fd) => fd in s.fds
    case Block(b) => IsBlock(s, b)
    case Mem(a) => a in s.maps
    case SgId(id) => id in s.dma.sgIds
    case ContigId(id) => id in s.dma.contigIds
  }

  /** The record at `o` is reachable and lists `r`: by the table for devices, by the caller's handle for buffers. */
  ghost predicate HeldBy(s: State, o: Ptr, r: Resource)
  {
    match r
    case Fd(fd) => Registered(s, o) && HoldsFd(s, o) && s.devs[o].fd == fd
    case Block(b) =>
      || (b == o && ((o in s.devs && Registered(s, o)) || o in s.dma.sgs || o in s.dma.contigs))
      || (o in s.dma.sgs && s.dma.sgs[o].page == b)
    case Mem(a) =>
      || (o in s.devs && Registered(s, o) && ListsBar(s.devs[o], a))
      || (o in s.dma.contigs && s.dma.contigs[o].userAddr == a)
    case SgId(id) => o in s.dma.sgs && s.dma.sgs[o].id == id
    case ContigId(id) => o in s.dma.contigs && s.dma.contigs[o].id == id
  }

  ghost predicate Held(s: State, r: Resource)
  {
    exists o :: HeldBy(s, o, r)
  }

  ghost predicate Leaked(s: State, r: Resource)
  {
    Live(s, r) && !Held(s, r)
  }

  // ---------------------------------------------------------------- the invariant

  /** Entries below `iNewDev` are null or live records, each at one index only. */
  ghost predicate TableOk(s: State)
  {
    && |s.table| == TABLE_SIZE && s.next <= TABLE_SIZE
    && (forall i :: 0 <= i < s.next && s.table[i] != NULL ==> s.table[i] in s.devs)
    && (forall i, j :: 0 <= i < j < s.next && s.table[i] != NULL ==> s.table[i] != s.table[j])
  }

  /** Every BAR address a record holds is a live mapping of its own, of the recorded length. */
  ghost predicate BarsOk(s: State, p: Ptr, r: Record)
  {
    && |r.bars| == BAR_SLOTS && r.barCount <= BAR_SLOTS
    && (forall i :: 0 <= i < BAR_SLOTS && r.bars[i].userAddress != NULL ==>
          i < r.barCount && MappedFor(s.maps, p, r.bars[i]))
    && (forall i, j :: 0 <= i < j < BAR_SLOTS && r.bars[i].userAddress != NULL ==>
          r.bars[i].userAddress != r.bars[j].userAddress)
    && (forall i :: r.barCount <= i < BAR_SLOTS ==> r.bars[i] == NO_BAR)
  }

  predicate MappedFor(maps: map<Ptr, Mapping>, p: Ptr, b: Bar)
  {
    b.userAddress in maps && maps[b.userAddress].owner == p && |maps[b.userAddress].bytes| == b.length
  }

  /** No BAR of the record has been unmapped. */
  ghost predicate Intact(r: Record)
  {
    forall i :: 0 <= i < r.barCount && i < |r.bars| ==> r.bars[i].userAddress != NULL
  }

  /** A record is consistent, and complete for as long as its descriptor is open. */
  ghost predicate RecordOk(s: State, p: Ptr)
    requires p in s.devs
  {
    p != NULL && s.devs[p].fd > 0 && BarsOk(s, p, s.devs[p]) && (HoldsFd(s, p) ==> Intact(s.devs[p]))
  }

  ghost predicate DevicesOk(s: State)
  {
    forall p :: p in s.devs ==> RecordOk(s, p)
  }

  predicate SgOk(s: State, d: Ptr)
    requires d in s.dma.sgs
  {
    && d != NULL
    && s.dma.sgs[d].page in s.dma.pageTables && s.dma.pageTables[s.dma.sgs[d].page].owner == d
    && s.dma.sgs[d].id in s.dma.sgIds && s.dma.sgIds[s.dma.sgs[d].id] == d
  }

  predicate ContigOk(s: State, d: Ptr)
    requires d in s.dma.contigs
  {
    && d != NULL
    && s.dma.contigs[d].userAddr in s.maps && s.maps[s.dma.contigs[d].userAddr].owner == d
    && s.dma.contigs[d].id in s.dma.contigIds && s.dma.contigIds[s.dma.contigs[d].id] == d
  }

  ghost predicate BuffersOk(s: State)
  {
    && (forall d :: d in s.dma.sgs ==> SgOk(s, d))
    && (forall d :: d in s.dma.contigs ==> ContigOk(s, d))
  }

  /** An address is one heap block of one kind, and no scratch block outlives a call. */
  ghost predicate HeapOk(s: State)
  {
    && (forall b :: b in s.devs ==> b !in s.dma.sgs && b !in s.dma.pageTables && b !in s.dma.contigs)
    && (forall b :: b in s.dma.sgs ==> b !in s.dma.pageTables && b !in s.dma.contigs)
    && (forall b :: b in s.dma.pageTables ==> b != NULL && b !in s.dma.contigs)
    && s.dma.scratch == {}
    && NULL !in s.maps
  }

  ghost predicate Inv(s: State)
  {
    TableOk(s) && DevicesOk(s) && BuffersOk(s) && HeapOk(s)
  }

  /** The record a live resource was acquired for. */
  function Acquirer(s: State, r: Resource): Ptr
    requires Live(s, r)
  {
    match r
    case Fd(fd) => s.fds[fd]
    case Block(b) => if b in s.dma.pageTables then s.dma.pageTables[b].owner else b
    case Mem(a) => s.maps[a].owner
    case SgId(id) => s.dma.sgIds[id]
    case ContigId(id) => s.dma.contigIds[id]
  }

  /** Everything held is live, and held only by the record it was acquired for. */
  lemma HolderIsAcquirer(s: State, o: Ptr, r: Resource)
    requires Inv(s) && HeldBy(s, o, r)
    ensures Live(s, r) && o == Acquirer(s, r)
  {
    if o in s.devs {
      assert RecordOk(s, o);
    }
    if o in s.dma.sgs {
      assert SgOk(s, o);
    }
    if o in s.dma.contigs {
      assert ContigOk(s, o);
    }
  }

  /**
   Live resources are the disjoint union of what each reachable record holds and what is leaked: no resource has two
   holders, none is both held and leaked, and nothing held is gone.
   */
  lemma DisjointOwnership(s: State, r: Resource)
    requires Inv(s)
    ensures Live(s, r) <==> Held(s, r) || Leaked(s, r)
    ensures !(Held(s, r) && Leaked(s, r))
    ensures forall o, o' :: HeldBy(s, o, r) && HeldBy(s, o', r) ==> o == o'
  {
    forall o | HeldBy(s, o, r)
      ensures Live(s, r) && o == Acquirer(s, r)
    {
      HolderIsAcquirer(s, o, r);
    }
  }

  /** Leaking is a question about the acquirer alone. */
  lemma LeakedByAcquirer(s: State, r: Resource)
    requires Inv(s)
    ensures Leaked(s, r) <==> Live(s, r) && !HeldBy(s, Acquirer(s, r), r)
  {
    forall o | HeldBy(s, o, r)
      ensures Live(s, r) && o == Acquirer(s, r)
    {
      HolderIsAcquirer(s, o, r);
    }
  }

  /** With nothing registered, no buffer outstanding and nothing leaked, the process is back to holding nothing. */
  lemma NothingHeldNothingLive(s: State, r: Resource)
    requires Inv(s)
    requires forall p :: !Registered(s, p)
    requires s.dma.sgs == map[] && s.dma.contigs == map[]
    requires !Leaked(s, r)
    ensures !Live(s, r)
  {
    DisjointOwnership(s, r);
  }
}
