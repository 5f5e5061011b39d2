/**
 Configuration space through sysfs: the two transfer loops, the vendor/device read, and the 32-bit accessors on top.
 A file is its readable bytes and the size `stat` reports; each `pread64`/`pwrite64` moves any number of bytes the
 system chooses, or fails, and moves none only when nothing is left.
 */
module ConfigSpace {
  import opened Kernel
  import opened LittleEndian
  import opened Objects
  import Naming

  /** What one transfer call does: tries to move `want` bytes (at least one), or fails. */
  datatype Transfer = Move(want: nat) | Fail(errno: Errno)

  type Errno = e: int | e > 0 witness EINVAL

  /** The outcome of every call of one loop, by its number. */
  type Schedule = nat -> Transfer

  /** Bytes left in the file from `offset`. */
  function Available(len: nat, offset: nat): nat
  {
    if offset < len then len - offset else 0
  }

  /** How many bytes a call moves: what it tries, at least one, within the request and the file. */
  function Moved(want: nat, size: nat, available: nat): (n: nat)
    requires size > 0 && available > 0
    ensures 1 <= n <= Min(size, available)
  {
    if want == 0 then 1 else Min(want, Min(size, available))
  }

  /** What a loop comes to: the code of the call that failed, or 0, and the bytes moved in all. */
  datatype Total = Total(err: int, moved: nat)

  /** The transfers from call `k` on, with `size` bytes still wanted and `available` left in the file. */
  function TotalOf(schedule: Schedule, k: nat, size: nat, available: nat): (t: Total)
    decreases size
  {
    if size == 0 then Total(0, 0)
    else
      match schedule(k)
      case Fail(errno) => Total(errno, 0)
      case Move(want) =>
        if available == 0 then Total(0, 0)
        else
          var n := Moved(want, size, available);
          var rest := TotalOf(schedule, k + 1, size - n, available - n);
          Total(rest.err, n + rest.moved)
  }

  /**
   However the calls cut the transfer up: it never passes the request or the end of the file, and it reaches the nearer
   of the two unless a call fails.  A code other than 0 is that of a failing call, none before it having failed.
   */
  lemma {:induction false} ChunkingIndependent(schedule: Schedule, k: nat, size: nat, available: nat)
    ensures var t := TotalOf(schedule, k, size, available);
            && t.moved <= Min(size, available)
            && (t.err == 0 ==> t.moved == Min(size, available))
            && (t.err != 0 ==> exists j :: FirstFailure(schedule, k, j, t.err))
    decreases size
  {
    if size > 0 {
      match schedule(k) {
        case Fail(errno) =>
          assert FirstFailure(schedule, k, k, errno);
        case Move(want) =>
          if available == 0 {
            return;
          }
          var n := Moved(want, size, available);
          ChunkingIndependent(schedule, k + 1, size - n, available - n);
          var t := TotalOf(schedule, k + 1, size - n, available - n);
          if t.err != 0 {
            var j :| FirstFailure(schedule, k + 1, j, t.err);
            assert FirstFailure(schedule, k, j, t.err);
          }
      }
    }
  }

  /** Call `j` is the first from `from` on that fails, and its code is `err`. */
  ghost predicate FirstFailure(schedule: Schedule, from: nat, j: nat, err: int)
  {
    from <= j && schedule(j).Fail? && schedule(j).errno == err && forall i :: from <= i < j ==> schedule(i).Move?
  }

  /** A configuration file: what can be read and written, and what `stat` says its size is. */
  class ConfigFile {
    var content: seq<Byte>
    const statSize: nat

    constructor (content: seq<Byte>, statSize: nat)
      ensures this.content == content && this.statSize == statSize
    {
      this.content, this.statSize := content, statSize;
    }
  }

  /** A whole transfer: the `open`, then the loop. */
  function Transferred(openErr: int, schedule: Schedule, size: nat, available: nat): Total
  {
    if openErr != 0 then Total(openErr, 0) else TotalOf(schedule, 0, size, available)
  }

  /**
   What a transfer comes to: nothing but the error when the file does not open; all there is when no call fails; and any
   other error is that of the first call that failed.
   */
  lemma TransferExactly(openErr: int, schedule: Schedule, size: nat, available: nat)
    ensures var t := Transferred(openErr, schedule, size, available);
            && (openErr != 0 ==> t.err == openErr && t.moved == 0)
            && (openErr == 0 && (forall k :: schedule(k).Move?) ==> t.err == 0)
            && (openErr == 0 && t.err != 0 ==> exists j :: FirstFailure(schedule, 0, j, t.err))
            && (t.err == 0 ==> t.moved == if size <= available then size else available)
  {
    ChunkingIndependent(schedule, 0, size, available);
  }

  /** A loop that has moved `at` bytes and still has `rest` to come ends at `all`. */
  predicate Resumes(all: Total, at: nat, rest: Total)
  {
    all == Total(rest.err, at + rest.moved)
  }

  /** A call that moves `n` bytes leaves the rest of the transfer to come. */
  lemma ResumesAfter(schedule: Schedule, all: Total, at: nat, k: nat, size: nat, left: nat, n: nat)
    requires size > 0 && left > 0 && schedule(k).Move? && n == Moved(schedule(k).want, size, left)
    requires Resumes(all, at, TotalOf(schedule, k, size, left))
    ensures Resumes(all, at + n, TotalOf(schedule, k + 1, size - n, left - n))
  {
  }

  // ---------------------------------------------------------------- the loops

  /** Bytes after the first `n` bytes of `data` went to `offset`. */
  function Spliced(content: seq<Byte>, offset: nat, data: seq<Byte>, n: nat): (c: seq<Byte>)
    requires n <= Min(|data|, Available(|content|, offset))
    ensures |c| == |content|
  {
    if n == 0 then content else Store(content, offset, data[..n])
  }

  lemma SpliceMore(content: seq<Byte>, offset: nat, data: seq<Byte>, at: nat, n: nat)
    requires at + n <= Min(|data|, Available(|content|, offset)) && n > 0
    ensures Store(Spliced(content, offset, data, at), offset + at, data[at..at + n]) ==
            Spliced(content, offset, data, at + n)
  {
    assert data[..at] + data[at..at + n] == data[..at + n];
    if at > 0 {
      StoreSplit(content, offset, data[..at], data[at..at + n]);
    }
  }

  /** What a read of `size` bytes at `offset` is after: the bytes there, as far as the file has them. */
  function Wanted(content: seq<Byte>, offset: nat, size: nat): (w: seq<Byte>)
    ensures |w| == Min(size, Available(|content|, offset))
  {
    if offset < |content| then content[offset..offset + Min(size, |content| - offset)] else []
  }

  /**
   One `pread64`, after `at` bytes of the `size` wanted came: how many bytes it moved, 0 at the end of the file, or
   negative with `errno`.
   */
  method Pread64(file: ConfigFile, data: array<Byte>, offset: nat, size: nat, at: nat, schedule: Schedule, call: nat,
                 ghost before: seq<Byte>, ghost wanted: seq<Byte>, ghost all: Total)
    returns (bytes: int, errno: int)
    requires at < size <= data.Length == |before| && at <= |wanted| && wanted == Wanted(file.content, offset, size)
    requires data[..] == Spliced(before, 0, wanted, at)
    requires Resumes(all, at, TotalOf(schedule, call, size - at, Available(|file.content|, offset) - at))
    modifies data
    ensures bytes <= 0 ==> all == Total(if bytes < 0 then errno else 0, at) && data[..] == old(data[..])
    ensures bytes > 0 ==>
              var n := at + bytes;
              && n <= |wanted| && data[..] == Spliced(before, 0, wanted, n)
              && Resumes(all, n, TotalOf(schedule, call + 1, size - n, Available(|file.content|, offset) - n))
  {
    var left := Available(|file.content|, offset + at);
    match schedule(call) {
      case Fail(e) => return -1, e;
      case Move(want) =>
        if left == 0 {
          return 0, 0;
        }
        bytes, errno := Moved(want, size - at, left), 0;
        ResumesAfter(schedule, all, at, call, size - at, left, bytes);
        CopyOut(file, data, at, offset, bytes, before, size, wanted);
    }
  }

  /** What a successful `pread64` of `n` bytes does to the buffer. */
  method CopyOut(file: ConfigFile, data: array<Byte>, at: nat, offset: nat, n: nat, ghost before: seq<Byte>,
                 ghost size: nat, ghost wanted: seq<Byte>)
    requires n > 0 && at + n <= |wanted| && size <= data.Length == |before|
    requires wanted == Wanted(file.content, offset, size) && data[..] == Spliced(before, 0, wanted, at)
    modifies data
    ensures data[..] == Spliced(before, 0, wanted, at + n)
  {
    SpliceMore(before, 0, wanted, at, n);
    forall i | 0 <= i < n {
      data[at + i] := file.content[offset + at + i];
    }
    assert data[..] == Store(old(data[..]), at, wanted[at..at + n]);
  }

  /**
   `crono_read_config`: whatever the transfers, a prefix of the requested bytes is copied, exactly `bytesRead` long, and
   the rest of the buffer is as it was.  Without an error it is all there is to read: the copy does not depend on how
   it was cut up.  An error is the code of the first call that failed, after what the calls before it moved, or of the
   `open`.
   */
  method ReadConfig(file: ConfigFile, openErr: int, data: array<Byte>, offset: nat, size: nat, schedule: Schedule)
    returns (err: int, bytesRead: nat)
    requires size <= data.Length
    modifies data
    ensures bytesRead <= Min(size, Available(|file.content|, offset))
    ensures data[..] == Spliced(old(data[..]), 0, Wanted(file.content, offset, size), bytesRead)
    ensures Total(err, bytesRead) == Transferred(openErr, schedule, size, Available(|file.content|, offset))
    ensures err == 0 ==> bytesRead == Min(size, Available(|file.content|, offset))
  {
    if openErr != 0 {
      return openErr, 0;
    }
    ChunkingIndependent(schedule, 0, size, Available(|file.content|, offset));
    err, bytesRead := ReadLoop(file, data, offset, size, schedule, data[..], Wanted(file.content, offset, size));
  }

  /** The transfer loop. */
  method ReadLoop(file: ConfigFile, data: array<Byte>, offset: nat, size: nat, schedule: Schedule,
                  ghost before: seq<Byte>, ghost wanted: seq<Byte>)
    returns (err: int, bytesRead: nat)
    requires size <= data.Length && before == data[..] && wanted == Wanted(file.content, offset, size)
    modifies data
    ensures bytesRead <= |wanted| && data[..] == Spliced(before, 0, wanted, bytesRead)
    ensures Total(err, bytesRead) == TotalOf(schedule, 0, size, Available(|file.content|, offset))
  {
    err := 0;
    ghost var left := Available(|file.content|, offset);
    ghost var all := TotalOf(schedule, 0, size, left);
    var tempSize, at, calls := size, 0, 0;
    while tempSize > 0
      invariant at == size - tempSize && 0 <= tempSize && at <= |wanted|
      invariant Resumes(all, at, TotalOf(schedule, calls, tempSize, left - at))
      invariant data[..] == Spliced(before, 0, wanted, at)
      decreases tempSize
    {
      var bytes, errno := Pread64(file, data, offset, size, at, schedule, calls, before, wanted, all);
      if bytes == 0 {
        break;
      }
      if bytes < 0 {
        err := errno;
        break;
      }
      tempSize := tempSize - bytes;
      at := at + bytes;
      calls := calls + 1;
    }
    bytesRead := size - tempSize;
  }

  /** One `pwrite64`, after the first `at` bytes went out; its result is as that of `Pread64`. */
  method Pwrite64(file: ConfigFile, data: seq<Byte>, offset: nat, at: nat, schedule: Schedule, call: nat,
                  ghost before: seq<Byte>, ghost all: Total)
    returns (bytes: int, errno: int)
    requires at < |data| && at <= Available(|before|, offset)
    requires file.content == Spliced(before, offset, data, at)
    requires Resumes(all, at, TotalOf(schedule, call, |data| - at, Available(|before|, offset) - at))
    modifies file
    ensures bytes <= 0 ==> all == Total(if bytes < 0 then errno else 0, at) && file.content == old(file.content)
    ensures bytes > 0 ==>
              var n := at + bytes;
              && n <= Min(|data|, Available(|before|, offset))
              && file.content == Spliced(before, offset, data, n)
              && Resumes(all, n, TotalOf(schedule, call + 1, |data| - n, Available(|before|, offset) - n))
  {
    var left := Available(|file.content|, offset + at);
    match schedule(call) {
      case Fail(e) => return -1, e;
      case Move(want) =>
        if left == 0 {
          return 0, 0;
        }
        bytes, errno := Moved(want, |data| - at, left), 0;
        ResumesAfter(schedule, all, at, call, |data| - at, left, bytes);
        SpliceMore(before, offset, data, at, bytes);
        file.content := Store(file.content, offset + at, data[at..at + bytes]);
    }
  }

  /**
   `crono_write_config`: a prefix of the data is spliced into the file, exactly `bytesWritten` long; the file keeps its
   length and every other byte.
   */
  method WriteConfig(file: ConfigFile, openErr: int, data: seq<Byte>, offset: nat, schedule: Schedule)
    returns (err: int, bytesWritten: nat)
    modifies file
    ensures bytesWritten <= Min(|data|, Available(old(|file.content|), offset))
    ensures file.content == Spliced(old(file.content), offset, data, bytesWritten)
    ensures Total(err, bytesWritten) == Transferred(openErr, schedule, |data|, Available(old(|file.content|), offset))
    ensures err == 0 ==> bytesWritten == Min(|data|, Available(old(|file.content|), offset))
  {
    if openErr != 0 {
      return openErr, 0;
    }
    ChunkingIndependent(schedule, 0, |data|, Available(|file.content|, offset));
    err, bytesWritten := WriteLoop(file, data, offset, schedule, file.content);
  }

  /** The transfer loop. */
  method WriteLoop(file: ConfigFile, data: seq<Byte>, offset: nat, schedule: Schedule, ghost before: seq<Byte>)
    returns (err: int, bytesWritten: nat)
    requires before == file.content
    modifies file
    ensures bytesWritten <= Min(|data|, Available(|before|, offset))
    ensures file.content == Spliced(before, offset, data, bytesWritten)
    ensures Total(err, bytesWritten) == TotalOf(schedule, 0, |data|, Available(|before|, offset))
  {
    err := 0;
    ghost var left := Available(|before|, offset);
    ghost var all := TotalOf(schedule, 0, |data|, left);
    var tempSize, at, calls := |data|, 0, 0;
    while tempSize > 0
      invariant at == |data| - tempSize && 0 <= tempSize && at <= Min(|data|, left)
      invariant Resumes(all, at, TotalOf(schedule, calls, tempSize, left - at))
      invariant file.content == Spliced(before, offset, data, at)
      decreases tempSize
    {
      var bytes, errno := Pwrite64(file, data, offset, at, schedule, calls, before, all);
      if bytes == 0 {
        break;
      }
      if bytes < 0 {
        err := errno;
        break;
      }
      tempSize := tempSize - bytes;
      at := at + bytes;
      calls := calls + 1;
    }
    bytesWritten := |data| - tempSize;
  }

  /** `crono_get_config_space_size`. */
  method GetConfigSpaceSize(file: ConfigFile, statErr: int) returns (err: int, size: nat)
    ensures err == statErr && (err == 0 ==> size == file.statSize)
  {
    if statErr != 0 {
      return statErr, 0;
    }
    return 0, file.statSize;
  }

  // ---------------------------------------------------------------- vendor and device

  /**
   `crono_read_vendor_device`; the out-variables keep `vendor0` and `device0` unless all four bytes came.  Code 0 does
   not mean that they came: a file with fewer readable bytes gives code 0 and leaves both as they were.
   */
  method ReadVendorDevice(file: ConfigFile, openErr: int, schedule: Schedule, vendor0: nat, device0: nat)
    returns (err: int, vendorId: nat, deviceId: nat)
    ensures err == Transferred(openErr, schedule, 4, |file.content|).err
    ensures err == 0 && |file.content| >= 4 ==>
              vendorId == WordAt(file.content, 0) && deviceId == WordAt(file.content, 2)
    ensures err != 0 || |file.content| < 4 ==> vendorId == vendor0 && deviceId == device0
  {
    var bytes := new Byte[4];
    var bytesRead;
    err, bytesRead := ReadConfig(file, openErr, bytes, 0, 4, schedule);
    if bytesRead != 4 || err != 0 {
      return err, vendor0, device0;
    }
    var val := FromBytes(bytes[..]);
    WordsRead(file.content, bytes[..]);
    return err, val % 0x10000, val / 0x10000;
  }

  /** The 16-bit word at `offset`. */
  function WordAt(content: seq<Byte>, offset: nat): (w: nat)
    requires offset + 2 <= |content|
    ensures w < 0x10000
  {
    NumberRoundTrip(content[offset..offset + 2]);
    Limits();
    FromBytes(content[offset..offset + 2])
  }

  /** Its low byte comes first. */
  lemma WordIs(content: seq<Byte>, offset: nat)
    requires offset + 2 <= |content|
    ensures WordAt(content, offset) == content[offset] as int + 256 * content[offset + 1] as int
  {
    var b := content[offset..offset + 2];
    assert b[1..][1..] == [];
    var low: nat, high: nat := b[0], b[1];
    assert FromBytes(b[1..]) == high;
    assert FromBytes(b) == low + 256 * high;
  }

  lemma WordsRead(content: seq<Byte>, b: seq<Byte>)
    requires |b| == 4 <= |content| && b == content[..4]
    ensures FromBytes(b) % 0x10000 == WordAt(content, 0) && FromBytes(b) / 0x10000 == WordAt(content, 2)
  {
    WordsOf(b);
    assert b[..2] == content[0..2] && b[2..] == content[2..4];
  }

  /** The low and the high half of four bytes are the words at offsets 0 and 2. */
  lemma WordsOf(b: seq<Byte>)
    requires |b| == 4
    ensures FromBytes(b) % 0x10000 == FromBytes(b[..2]) < 0x10000
    ensures FromBytes(b) / 0x10000 == FromBytes(b[2..]) < 0x10000
  {
    NumberRoundTrip(b[..2]);
    NumberRoundTrip(b[2..]);
    Limits();
    assert b[1..][1..] == b[2..];
    var low := b[..2];
    assert low[1..][1..] == [];
    var first: nat, second: nat := b[0], b[1];
    assert FromBytes(low) == first + 256 * second;
    assert FromBytes(b) == first + 256 * (second + 256 * FromBytes(b[2..]));
  }

  // ---------------------------------------------------------------- 32-bit accessors

  /** The configuration file a record names, by its path. */
  function FileOf(fs: map<string, ConfigFile>, slot: Slot): Option<ConfigFile>
  {
    if Naming.ConfigPath(slot) in fs then Some(fs[Naming.ConfigPath(slot)]) else None
  }

  /** That is the file at the slot's own path, and no other slot's. */
  lemma OwnFile(fs: map<string, ConfigFile>, slot: Slot, other: Slot)
    requires Naming.Is32Bit(slot) && Naming.Is32Bit(other)
    ensures var path := "/sys/bus/pci/devices" + "/" + Naming.PrintName(slot) + "/config";
            && (FileOf(fs, slot).Some? <==> path in fs)
            && (path in fs ==> FileOf(fs, slot) == Some(fs[path]))
            && (Naming.ConfigPath(other) == path <==> other == slot)
  {
    Naming.PathsInjective(slot, other);
  }

  /**
   `CRONO_KERNEL_PciReadCfg32` into the four bytes at `val`.  Code 0 means that everything readable among the four
   bytes was read: all four exactly when the file is readable that far.
   */
  method PciReadCfg32(lib: Library, h: Ptr, fs: map<string, ConfigFile>, dwOffset: nat, hasOut: bool, val: array<Byte>,
                      statErr: int, openErr: int, schedule: Schedule)
    returns (ret: int)
    requires h != NULL ==> h in lib.heap
    requires dwOffset < U32 && val.Length == 4
    requires h != NULL && FileOf(fs, lib.heap[h].slot).None? ==> statErr != 0
    modifies val
    ensures h == NULL || lib.heap[h].deviceId == 0 || !hasOut ==> ret == -EINVAL && val[..] == old(val[..])
    ensures h != NULL && lib.heap[h].deviceId != 0 && hasOut && statErr != 0 ==>
              ret == statErr && val[..] == old(val[..])
    ensures h != NULL && lib.heap[h].deviceId != 0 && hasOut && statErr == 0 ==>
              var file := FileOf(fs, lib.heap[h].slot).value;
              var t := Transferred(openErr, schedule, 4, Available(|file.content|, dwOffset));
              if file.statSize < dwOffset + 4 then ret == -EINVAL && val[..] == old(val[..])
              else
                && ret == t.err
                && t.moved <= Min(4, Available(|file.content|, dwOffset))
                && (ret == 0 ==> t.moved == Min(4, Available(|file.content|, dwOffset)))
                && val[..] == Spliced(old(val[..]), 0, Wanted(file.content, dwOffset, 4), t.moved)
  {
    if h == NULL || lib.heap[h].deviceId == 0 || !hasOut {
      return -EINVAL;
    }
    if statErr != 0 {
      return statErr;
    }
    var file := FileOf(fs, lib.heap[h].slot).value;
    var err, size := GetConfigSpaceSize(file, statErr);
    if size < dwOffset + 4 {
      return -EINVAL;
    }
    var bytesRead;
    ret, bytesRead := ReadConfig(file, openErr, val, dwOffset, 4, schedule);
    if bytesRead != 4 || ret != 0 {
      return ret;
    }
    return 0;
  }

  /**
   `CRONO_KERNEL_PciWriteCfg32`.  Only the file at the device's own path can change, and in it only the four bytes at
   the offset; code 0 means that all of them that the file has were written.
   */
  method PciWriteCfg32(lib: Library, h: Ptr, fs: map<string, ConfigFile>, dwOffset: nat, val: nat,
                       statErr: int, openErr: int, schedule: Schedule)
    returns (ret: int)
    requires h != NULL ==> h in lib.heap
    requires dwOffset < U32 && val < U32
    requires h != NULL && FileOf(fs, lib.heap[h].slot).None? ==> statErr != 0
    modifies if h != NULL && FileOf(fs, lib.heap[h].slot).Some? then {FileOf(fs, lib.heap[h].slot).value} else {}
    ensures h == NULL || lib.heap[h].deviceId == 0 ==> ret == -EINVAL
    ensures h != NULL && lib.heap[h].deviceId != 0 && statErr != 0 ==> ret == statErr
    ensures h != NULL && FileOf(fs, lib.heap[h].slot).Some? && (lib.heap[h].deviceId == 0 || statErr != 0) ==>
              FileOf(fs, lib.heap[h].slot).value.content == old(FileOf(fs, lib.heap[h].slot).value.content)
    ensures h != NULL && lib.heap[h].deviceId != 0 && statErr == 0 ==>
              var file := FileOf(fs, lib.heap[h].slot).value;
              var t := Transferred(openErr, schedule, 4, Available(old(|file.content|), dwOffset));
              if file.statSize < dwOffset + 4 then ret == -EINVAL && file.content == old(file.content)
              else
                && ret == t.err
                && t.moved <= Min(4, Available(old(|file.content|), dwOffset))
                && (ret == 0 ==> t.moved == Min(4, Available(old(|file.content|), dwOffset)))
                && file.content == Spliced(old(file.content), dwOffset, ToBytes(val, 4), t.moved)
  {
    if h == NULL || lib.heap[h].deviceId == 0 {
      return -EINVAL;
    }
    if statErr != 0 {
      return statErr;
    }
    var file := FileOf(fs, lib.heap[h].slot).value;
    var err, size := GetConfigSpaceSize(file, statErr);
    if size < dwOffset + 4 {
      return -EINVAL;
    }
    var bytesWritten;
    ret, bytesWritten := WriteConfig(file, openErr, ToBytes(val, 4), dwOffset, schedule);
    if bytesWritten != 4 || ret != 0 {
      return ret;
    }
    return 0;
  }

  /**
   What a read with code 0 finds after a write with code 0 at the same offset, aligned or not, of a file of any length:
   the bytes of the value that the file has room for, hence the value when it has all four.  The rest of the buffer and
   every other byte of the file are as before.
   */
  lemma ConfigRoundTrip(content: seq<Byte>, buffer: seq<Byte>, dwOffset: nat, val: nat)
    requires val < U32 && |buffer| == 4
    ensures var n := Min(4, Available(|content|, dwOffset));
            var after := Spliced(content, dwOffset, ToBytes(val, 4), n);
            var got := Spliced(buffer, 0, Wanted(after, dwOffset, 4), n);
            && got == ToBytes(val, 4)[..n] + buffer[n..]
            && (dwOffset + 4 <= |content| ==> FromBytes(got) == val)
            && (forall a :: 0 <= a < |content| && !(dwOffset <= a < dwOffset + 4) ==> after[a] == content[a])
  {
    Limits();
    BytesRoundTrip(val, 4);
    if dwOffset + 4 <= |content| {
      var bytes := ToBytes(val, 4);
      assert bytes[..4] == bytes && bytes + buffer[4..] == bytes;
    }
  }

  /**
   The two calls one after the other.  When both return 0 and the file is readable as far as its size says, the value
   read is the value written, aligned or not, and every other byte of the file is as before.
   */
  method WriteThenRead(lib: Library, h: Ptr, fs: map<string, ConfigFile>, dwOffset: nat, val: nat, out: array<Byte>,
                       writeStat: int, writeOpen: int, sending: Schedule,
                       readStat: int, readOpen: int, receiving: Schedule)
    returns (wrote: int, read: int)
    requires h != NULL ==> h in lib.heap
    requires dwOffset < U32 && val < U32 && out.Length == 4
    requires h != NULL && FileOf(fs, lib.heap[h].slot).None? ==> writeStat != 0 && readStat != 0
    modifies out, if h != NULL && FileOf(fs, lib.heap[h].slot).Some? then {FileOf(fs, lib.heap[h].slot).value} else {}
    ensures wrote == 0 && read == 0 ==>
              && h != NULL && FileOf(fs, lib.heap[h].slot).Some?
              && var file := FileOf(fs, lib.heap[h].slot).value;
                 && dwOffset + 4 <= file.statSize && |file.content| == old(|file.content|)
                 && (file.statSize <= |file.content| ==> FromBytes(out[..]) == val)
                 && (forall a :: 0 <= a < |file.content| && !(dwOffset <= a < dwOffset + 4) ==>
                       file.content[a] == old(file.content)[a])
  {
    wrote := PciWriteCfg32(lib, h, fs, dwOffset, val, writeStat, writeOpen, sending);
    ghost var buffer := out[..];
    read := PciReadCfg32(lib, h, fs, dwOffset, true, out, readStat, readOpen, receiving);
    if wrote == 0 && read == 0 {
      ConfigRoundTrip(old(FileOf(fs, lib.heap[h].slot).value.content), buffer, dwOffset, val);
    }
  }
}
