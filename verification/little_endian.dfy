/** Unsigned numbers as little-endian bytes, and a flat byte store. */
module LittleEndian {
  import opened Kernel

  /** The low `n` bytes of `v`, lowest first: what storing `v` through an `n`-byte pointer writes. */
  function ToBytes(v: nat, n: nat): (b: seq<Byte>)
    ensures |b| == n
  {
    if n == 0 then [] else [v % 256] + ToBytes(v / 256, n - 1)
  }

  /** The number that `b` spells. */
  function FromBytes(b: seq<Byte>): nat
  {
    if b == [] then 0 else b[0] + 256 * FromBytes(b[1..])
  }

  /** `v` without its low `n` bytes. */
  function Shift(v: nat, n: nat): nat
  {
    if n == 0 then v else Shift(v / 256, n - 1)
  }

  /** The first value that needs more than `n` bytes. */
  function Limit(n: nat): nat
  {
    if n == 0 then 1 else 256 * Limit(n - 1)
  }

  lemma Limits()
    ensures Limit(1) == 0x100 && Limit(2) == 0x10000 && Limit(4) == U32 && Limit(8) == U64
  {
    assert Limit(3) == 256 * Limit(2) && Limit(5) == 256 * Limit(4) && Limit(6) == 256 * Limit(5);
    assert Limit(7) == 256 * Limit(6) && Limit(8) == 256 * Limit(7);
  }

  /** Writing a number and reading it back gives it, when it fits. */
  lemma {:induction false} BytesRoundTrip(v: nat, n: nat)
    requires v < Limit(n)
    ensures FromBytes(ToBytes(v, n)) == v
  {
    if n > 0 {
      BytesRoundTrip(v / 256, n - 1);
      assert ToBytes(v, n)[1..] == ToBytes(v / 256, n - 1);
    }
  }

  /** Bytes read as a number fit, and are the bytes of that number. */
  lemma {:induction false} NumberRoundTrip(b: seq<Byte>)
    ensures FromBytes(b) < Limit(|b|)
    ensures ToBytes(FromBytes(b), |b|) == b
  {
    if b != [] {
      NumberRoundTrip(b[1..]);
      var v := FromBytes(b);
      assert v % 256 == b[0] && v / 256 == FromBytes(b[1..]);
      assert b == [b[0]] + b[1..];
    }
  }

  /** The bytes of a number are those of its low part followed by those of its high part. */
  lemma {:induction false} BytesSplit(v: nat, m: nat, n: nat)
    ensures ToBytes(v, m + n) == ToBytes(v, m) + ToBytes(Shift(v, m), n)
  {
    if m > 0 {
      BytesSplit(v / 256, m - 1, n);
      assert m + n - 1 == m - 1 + n;
    } else {
      assert ToBytes(v, 0) + ToBytes(v, n) == ToBytes(v, n);
    }
  }

  // ---------------------------------------------------------------- the store

  predicate Fits(mem: seq<Byte>, off: nat, n: nat)
  {
    off + n <= |mem|
  }

  function Store(mem: seq<Byte>, off: nat, bytes: seq<Byte>): (m: seq<Byte>)
    requires Fits(mem, off, |bytes|)
    ensures |m| == |mem|
    ensures forall a :: 0 <= a < |mem| ==> m[a] == if off <= a < off + |bytes| then bytes[a - off] else mem[a]
  {
    mem[..off] + bytes + mem[off + |bytes|..]
  }

  function Load(mem: seq<Byte>, off: nat, n: nat): seq<Byte>
    requires Fits(mem, off, n)
  {
    mem[off..off + n]
  }

  lemma StoreSplit(mem: seq<Byte>, off: nat, a: seq<Byte>, b: seq<Byte>)
    requires Fits(mem, off, |a| + |b|)
    ensures Store(mem, off, a + b) == Store(Store(mem, off, a), off + |a|, b)
  {
  }

  /** `chunk` bytes, `k` times over. */
  function Times(chunk: nat, k: nat): nat
  {
    if k == 0 then 0 else chunk + Times(chunk, k - 1)
  }

  // ---------------------------------------------------------------- last writes

  datatype Write = Write(off: nat, bytes: seq<Byte>)

  ghost predicate AllFit(size: nat, log: seq<Write>)
  {
    forall i :: 0 <= i < |log| ==> log[i].off + |log[i].bytes| <= size
  }

  /** The writes one after another. */
  function Replay(mem: seq<Byte>, log: seq<Write>): (m: seq<Byte>)
    requires AllFit(|mem|, log)
    ensures |m| == |mem|
  {
    if log == [] then mem
    else
      var last := log[|log| - 1];
      Store(Replay(mem, log[..|log| - 1]), last.off, last.bytes)
  }

  predicate Covers(w: Write, a: nat)
  {
    w.off <= a < w.off + |w.bytes|
  }

  /** Write `i` is the last that covers `a`. */
  ghost predicate LastCovering(log: seq<Write>, a: nat, i: nat)
  {
    i < |log| && Covers(log[i], a) && forall j :: i < j < |log| ==> !Covers(log[j], a)
  }

  ghost predicate NotCovered(log: seq<Write>, a: nat)
  {
    forall i :: 0 <= i < |log| ==> !Covers(log[i], a)
  }

  /** `b` is what the last write that covers `a` put there, or what was there before. */
  ghost predicate IsLast(before: seq<Byte>, log: seq<Write>, a: nat, b: Byte)
    requires a < |before|
  {
    && (forall i: nat :: LastCovering(log, a, i) ==> b == log[i].bytes[a - log[i].off])
    && (NotCovered(log, a) ==> b == before[a])
  }

  /** That is always one byte and no other. */
  lemma LastIsUnique(before: seq<Byte>, log: seq<Write>, a: nat, b: Byte, c: Byte)
    requires a < |before| && IsLast(before, log, a, b) && IsLast(before, log, a, c)
    ensures b == c
  {
    if !NotCovered(log, a) {
      var i := |log| - 1;
      while !Covers(log[i], a)
        invariant 0 <= i < |log| && forall j :: i < j < |log| ==> !Covers(log[j], a)
        decreases i
      {
        i := i - 1;
      }
      assert LastCovering(log, a, i);
    }
  }

  lemma LastIsLast(log: seq<Write>, a: nat, i: nat)
    requires log != [] && Covers(log[|log| - 1], a) && LastCovering(log, a, i)
    ensures i == |log| - 1
  {
  }

  lemma LastIsEarlier(log: seq<Write>, a: nat, i: nat)
    requires log != [] && !Covers(log[|log| - 1], a) && LastCovering(log, a, i)
    ensures LastCovering(log[..|log| - 1], a, i)
  {
    assert forall j :: i < j < |log| - 1 ==> log[..|log| - 1][j] == log[j];
  }

  /** Every byte holds what the last write that covers it put there, or what it held before, under any overlap. */
  lemma {:induction false} LastWriteWins(mem: seq<Byte>, log: seq<Write>, a: nat)
    requires AllFit(|mem|, log) && a < |mem|
    ensures IsLast(mem, log, a, Replay(mem, log)[a])
  {
    if log != [] {
      var init := log[..|log| - 1];
      LastWriteWins(mem, init, a);
      forall i: nat | LastCovering(log, a, i)
        ensures Replay(mem, log)[a] == log[i].bytes[a - log[i].off]
      {
        if Covers(log[|log| - 1], a) {
          LastIsLast(log, a, i);
        } else {
          LastIsEarlier(log, a, i);
          assert init[i] == log[i];
        }
      }
      if NotCovered(log, a) {
        assert forall j :: 0 <= j < |init| ==> init[j] == log[j];
        assert NotCovered(init, a) && !Covers(log[|log| - 1], a);
      }
    }
  }
}
