/**
 Scatter/gather paging: how many pages a buffer is given, and what the page table says about where its bytes are.
 */
module Paging {
  import opened Kernel
  import opened Lifecycle
  import opened Conservation

  /** The size every entry of the page table is given, whatever the page size is. */
  const ENTRY_BYTES: nat := 4096

  // ---------------------------------------------------------------- division

  /** `q` is the quotient exactly when `n` lies between its two multiples. */
  lemma QuotientIs(n: nat, d: nat, q: nat)
    requires d > 0
    ensures n / d == q <==> q * d <= n < (q + 1) * d
  {
    var k, r := n / d, n % d;
    assert n == k * d + r;
    if k < q {
      assert (k + 1) * d <= q * d;
    } else if k > q {
      assert (q + 1) * d <= k * d;
    }
  }

  lemma Ordered(k: int, m: int, d: nat)
    requires d > 0
    ensures k <= m <==> k * d <= m * d
  {
    if k <= m {
      var e := m - k;
      assert m * d == k * d + e * d && e * d >= 0;
    } else {
      var e := k - m - 1;
      assert k * d == m * d + e * d + d && e * d >= 0;
    }
  }

  lemma NextMultiple(n: int, d: nat)
    ensures (n + 1) * d == n * d + d
  {
  }

  /** `k` pages are enough exactly when there are as many as counted. */
  lemma EnoughPages(size: nat, pageSize: nat, k: nat)
    requires pageSize > 0
    ensures size <= k * pageSize <==> DivRoundUp(size, pageSize) <= k
  {
    var n := DivRoundUp(size, pageSize);
    QuotientIs(size + pageSize - 1, pageSize, n);
    NextMultiple(n, pageSize);
    NextMultiple(k, pageSize);
    Ordered(n, k, pageSize);
    Ordered(k + 1, n, pageSize);
  }

  lemma NoLessThan(n: nat, d: nat)
    requires d > 0
    ensures n <= n * d
  {
    var e := d - 1;
    assert n * d == n + n * e && n * e >= 0;
  }

  /** Enough pages, and not one too many; and the count fits the 32 bits of the size. */
  lemma PageCount(size: nat, pageSize: nat)
    requires size > 0 && pageSize > 0
    ensures var n := DivRoundUp(size, pageSize);
            n > 0 && (n - 1) * pageSize < size <= n * pageSize && n <= size
  {
    var n := DivRoundUp(size, pageSize);
    EnoughPages(size, pageSize, n);
    EnoughPages(size, pageSize, 0);
    NoLessThan(size, pageSize);
    EnoughPages(size, pageSize, size);
    var m: nat := n - 1;
    EnoughPages(size, pageSize, m);
  }

  // ---------------------------------------------------------------- the table

  /** Walks the table as a device does, entry by entry, each as long as it says. */
  function Locate(table: seq<DmaPage>, offset: nat): Option<nat>
  {
    if table == [] then None
    else if offset < table[0].bytes then Some(table[0].physicalAddr + offset)
    else Locate(table[1..], offset - table[0].bytes)
  }

  /** Where the byte at `offset` of a page-aligned buffer really is, given the addresses of its pages. */
  function PhysicalOf(addresses: seq<nat>, pageSize: nat, offset: nat): nat
    requires pageSize > 0 && offset / pageSize < |addresses|
  {
    addresses[offset / pageSize] + offset % pageSize
  }

  ghost predicate AlignedPages(addresses: seq<nat>, pageSize: nat)
    requires pageSize > 0
  {
    && (forall i :: 0 <= i < |addresses| ==> addresses[i] % pageSize == 0)
    && (forall i, j :: 0 <= i < j < |addresses| ==> addresses[i] != addresses[j])
  }

  /** A walk of `SgPages` divides by the constant entry size. */
  lemma {:induction false} LocateDivides(addresses: seq<nat>, offset: nat)
    ensures var i := offset / ENTRY_BYTES;
            Locate(SgPages(addresses), offset) ==
              if i < |addresses| then Some(addresses[i] + offset % ENTRY_BYTES) else None
    decreases |addresses|
  {
    if addresses != [] && offset >= ENTRY_BYTES {
      LocateDivides(addresses[1..], offset - ENTRY_BYTES);
      assert SgPages(addresses)[1..] == SgPages(addresses[1..]);
    }
  }

  /** An offset inside the buffer falls on a page the buffer was given. */
  lemma OffsetInRange(size: nat, pageSize: nat, offset: nat)
    requires pageSize > 0 && offset < size
    ensures offset / pageSize < DivRoundUp(size, pageSize)
  {
    var n, q := DivRoundUp(size, pageSize), offset / pageSize;
    EnoughPages(size, pageSize, n);
    QuotientIs(offset, pageSize, q);
    Ordered(n, q, pageSize);
  }

  /** The table leads every byte of the buffer to where it is. */
  ghost predicate TableRight(addresses: seq<nat>, pageSize: nat, size: nat)
    requires pageSize > 0 && |addresses| == DivRoundUp(size, pageSize)
  {
    forall o: nat :: o < size ==>
      o / pageSize < |addresses| && Locate(SgPages(addresses), o) == Some(PhysicalOf(addresses, pageSize, o))
  }

  /** Pages of the size the entries say, or a buffer inside the first entry. */
  lemma TableRightWhen(addresses: seq<nat>, pageSize: nat, size: nat)
    requires pageSize > 0 && |addresses| == DivRoundUp(size, pageSize)
    requires pageSize == ENTRY_BYTES || size <= Min(pageSize, ENTRY_BYTES)
    ensures TableRight(addresses, pageSize, size)
  {
    forall o: nat | o < size
      ensures o / pageSize < |addresses| && Locate(SgPages(addresses), o) == Some(PhysicalOf(addresses, pageSize, o))
    {
      OffsetInRange(size, pageSize, o);
      LocateDivides(addresses, o);
      if pageSize != ENTRY_BYTES {
        QuotientIs(o, pageSize, 0);
        QuotientIs(o, ENTRY_BYTES, 0);
      }
    }
  }

  /** Pages further apart than they are long. */
  function SparsePages(n: nat, pageSize: nat): seq<nat>
  {
    seq(n, i => 2 * i * pageSize)
  }

  lemma SparseAligned(n: nat, pageSize: nat)
    requires pageSize > 0
    ensures AlignedPages(SparsePages(n, pageSize), pageSize)
  {
    var a := SparsePages(n, pageSize);
    forall i | 0 <= i < n ensures a[i] % pageSize == 0 {
      MultipleRemainder(2 * i, pageSize);
    }
    forall i, j | 0 <= i < j < n ensures a[i] != a[j] {
      Ordered(2 * j, 2 * i, pageSize);
    }
  }

  lemma MultipleRemainder(k: nat, d: nat)
    requires d > 0
    ensures k * d % d == 0
  {
    QuotientIs(k * d, d, k);
  }

  /** With other page sizes a longer buffer has pages for which the table is wrong. */
  lemma TableWrong(pageSize: nat, size: nat)
    requires pageSize > 0 && pageSize != ENTRY_BYTES && size > Min(pageSize, ENTRY_BYTES)
    ensures !TableRight(SparsePages(DivRoundUp(size, pageSize), pageSize), pageSize, size)
  {
    var a := SparsePages(DivRoundUp(size, pageSize), pageSize);
    var o := Min(pageSize, ENTRY_BYTES);
    OffsetInRange(size, pageSize, o);
    LocateDivides(a, o);
    if pageSize < ENTRY_BYTES {
      QuotientIs(o, pageSize, 1);
      QuotientIs(o, ENTRY_BYTES, 0);
      assert PhysicalOf(a, pageSize, o) == 2 * pageSize;
    } else {
      QuotientIs(o, pageSize, 0);
      assert PhysicalOf(a, pageSize, o) == ENTRY_BYTES;
    }
  }

  /**
   The table is right for every set of pages the kernel may hand out exactly when the page size is the constant 4096 of
   the entries, or the buffer is no longer than one page and one entry.
   */
  lemma TableRightExactly(pageSize: nat, size: nat)
    requires pageSize > 0
    ensures (forall addresses: seq<nat> ::
               |addresses| == DivRoundUp(size, pageSize) && AlignedPages(addresses, pageSize) ==>
                 TableRight(addresses, pageSize, size))
            <==> pageSize == ENTRY_BYTES || size <= Min(pageSize, ENTRY_BYTES)
  {
    if pageSize == ENTRY_BYTES || size <= Min(pageSize, ENTRY_BYTES) {
      forall addresses: seq<nat> | |addresses| == DivRoundUp(size, pageSize) && AlignedPages(addresses, pageSize)
        ensures TableRight(addresses, pageSize, size)
      {
        TableRightWhen(addresses, pageSize, size);
      }
    } else {
      TableWrong(pageSize, size);
      SparseAligned(DivRoundUp(size, pageSize), pageSize);
    }
  }

  lemma SameDivision(o: nat, p: nat, d: nat)
    requires d > 0 && o / d == p / d && o % d == p % d
    ensures o == p
  {
    assert o == o / d * d + o % d;
  }

  /** Different bytes of a buffer are at different places. */
  lemma PhysicalInjective(addresses: seq<nat>, pageSize: nat, o: nat, p: nat)
    requires pageSize > 0 && AlignedPages(addresses, pageSize)
    requires o / pageSize < |addresses| && p / pageSize < |addresses|
    requires PhysicalOf(addresses, pageSize, o) == PhysicalOf(addresses, pageSize, p)
    ensures o == p
  {
    SamePage(addresses, pageSize, o / pageSize, o % pageSize, p / pageSize, p % pageSize);
    SameDivision(o, p, pageSize);
  }

  lemma SamePage(addresses: seq<nat>, d: nat, i: nat, r: nat, j: nat, t: nat)
    requires d > 0 && AlignedPages(addresses, d) && i < |addresses| && j < |addresses| && r < d && t < d
    requires addresses[i] + r == addresses[j] + t
    ensures i == j && r == t
  {
    AlignedSum(addresses[i], r, addresses[j], t, d);
  }

  lemma AlignedSum(a: nat, r: nat, b: nat, t: nat, d: nat)
    requires d > 0 && a % d == 0 && b % d == 0 && r < d && t < d
    requires a + r == b + t
    ensures a == b && r == t
  {
    WholeMultiple(a, d);
    WholeMultiple(b, d);
    SameMultiple(a / d, r, b / d, t, d);
  }

  lemma WholeMultiple(a: nat, d: nat)
    requires d > 0 && a % d == 0
    ensures a / d * d == a
  {
  }

  lemma SameMultiple(i: nat, r: nat, j: nat, t: nat, d: nat)
    requires r < d && t < d && i * d + r == j * d + t
    ensures i == j && r == t
  {
    NextMultiple(i, d);
    NextMultiple(j, d);
    Ordered(i + 1, j, d);
    Ordered(j + 1, i, d);
  }

  /** The table leads every byte of the buffer to its place, and no two bytes to the same. */
  ghost predicate Resolves(table: seq<DmaPage>, addresses: seq<nat>, size: nat)
  {
    && (forall o: nat :: o < size ==>
          o / ENTRY_BYTES < |addresses| && Locate(table, o) == Some(PhysicalOf(addresses, ENTRY_BYTES, o)))
    && (forall o: nat, p: nat :: o < p < size ==> Locate(table, o) != Locate(table, p))
  }

  lemma AlignedResolves(addresses: seq<nat>, size: nat)
    requires |addresses| == DivRoundUp(size, ENTRY_BYTES) && AlignedPages(addresses, ENTRY_BYTES)
    ensures Resolves(SgPages(addresses), addresses, size)
  {
    TableRightWhen(addresses, ENTRY_BYTES, size);
    forall o: nat, p: nat | o < p < size
      ensures Locate(SgPages(addresses), o) != Locate(SgPages(addresses), p)
    {
      if PhysicalOf(addresses, ENTRY_BYTES, o) == PhysicalOf(addresses, ENTRY_BYTES, p) {
        PhysicalInjective(addresses, ENTRY_BYTES, o, p);
      }
    }
  }

  /**
   After a successful lock of a page-aligned buffer of any size, with the 4096-byte pages the entries stand for, the
   table in the handle has one entry for each page and resolves the whole buffer.
   */
  lemma LockedBufferResolves(s: State, h: Ptr, buf: Ptr, size: nat, io: SgIo)
    requires (h != NULL ==> h in s.devs) && SgIoOk(s, size, ENTRY_BYTES, io)
    requires SgLock(s, h, buf, size, true, ENTRY_BYTES, io).code == 0
    requires AlignedPages(io.addresses, ENTRY_BYTES)
    ensures var d := SgLock(s, h, buf, size, true, ENTRY_BYTES, io).state.dma;
            && io.record in d.sgs && d.sgs[io.record].page in d.pageTables
            && d.sgs[io.record].pages == DivRoundUp(size, ENTRY_BYTES) == |d.pageTables[d.sgs[io.record].page].entries|
            && Resolves(d.pageTables[d.sgs[io.record].page].entries, io.addresses, size)
  {
    AlignedResolves(io.addresses, size);
  }

  // ---------------------------------------------------------------- unaligned buffers

  /** How many pages the bytes from `buf` on really lie on. */
  function PagesTouched(buf: nat, size: nat, pageSize: nat): int
    requires size > 0 && pageSize > 0
  {
    (buf + size - 1) / pageSize - buf / pageSize + 1
  }

  /**
   The count asked for ignores where the buffer starts.  It is enough exactly when the start is no further into its page
   than the last page has room to spare, and it is never short of more than one.
   */
  lemma CountEnoughExactly(buf: nat, size: nat, pageSize: nat)
    requires size > 0 && pageSize > 0
    ensures var n := DivRoundUp(size, pageSize);
            && PagesTouched(buf, size, pageSize) <= n + 1
            && (PagesTouched(buf, size, pageSize) <= n <==> buf % pageSize <= n * pageSize - size)
  {
    var n := DivRoundUp(size, pageSize);
    var first, into := buf / pageSize, buf % pageSize;
    var last := (buf + size - 1) / pageSize;
    assert buf == first * pageSize + into;
    EnoughPages(size, pageSize, n);
    QuotientIs(buf + size - 1, pageSize, last);
    assert (first + n) * pageSize == first * pageSize + n * pageSize;
    NextMultiple(first + n, pageSize);
    NextMultiple(last, pageSize);
    Ordered(first + n + 2, last + 1, pageSize);
    NextMultiple(first + n + 1, pageSize);
    Ordered(first + n, last, pageSize);
    Ordered(last + 1, first + n, pageSize);
  }
}
