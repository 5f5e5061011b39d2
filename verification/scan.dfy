/**
 `CRONO_KERNEL_PciScanDevices`: the directory loop and the result it fills, against a filter over the directory's
 devices.
 */
module Scan {
  import opened Kernel
  import opened Lifecycle
  import opened ConfigSpace
  import Naming

  const PCI_ANY_ID: nat := 0xFFFF_FFFF
  const PCI_CARDS: nat := 100

  datatype CardId = CardId(vendorId: nat, deviceId: nat)

  /** One reported device. */
  datatype Found = Found(id: CardId, slot: Slot)

  /** How the configuration read of one entry goes: its `open`, then its transfers. */
  datatype ReadIo = ReadIo(openErr: int, schedule: Schedule)

  /** The readable bytes of every configuration file, by path. */
  type Files = map<string, seq<Byte>>

  predicate Accepts(want: nat, id: nat)
  {
    id == want || want == PCI_ANY_ID
  }

  predicate Matches(id: CardId, vendor: nat, device: nat)
  {
    Accepts(vendor, id.vendorId) && Accepts(device, id.deviceId)
  }

  /** The readable bytes of the file a slot's path names, none if there is none. */
  function ContentOf(files: Files, slot: Slot): seq<Byte>
  {
    if Naming.ConfigPath(slot) in files then files[Naming.ConfigPath(slot)] else []
  }

  /** The code of the vendor and device read: a missing file does not open. */
  function ReadCode(io: ReadIo, files: Files, slot: Slot): int
  {
    if Naming.ConfigPath(slot) !in files then ENOENT
    else Transferred(io.openErr, io.schedule, 4, |ContentOf(files, slot)|).err
  }

  /** The identifiers in a file's first four bytes, or what the variables held when it has fewer. */
  function IdsIn(content: seq<Byte>, held: CardId): CardId
  {
    if |content| >= 4 then CardId(WordAt(content, 0), WordAt(content, 2)) else held
  }

  function One(matched: bool, f: Found): seq<Found>
  {
    if matched then [f] else []
  }

  /**
   What the loop reports from entry `i` on.  `slot` and `held` are its local variables, never set but by the scan of a
   name and by a read of four bytes.
   */
  function ScanFrom(entries: seq<Entry>, ios: seq<ReadIo>, i: nat, slot: Slot, held: CardId, files: Files,
                    vendor: nat, device: nat): seq<Found>
    requires i <= |entries| == |ios|
    decreases |entries| - i
  {
    if i == |entries| then []
    else if !entries[i].isLink then ScanFrom(entries, ios, i + 1, slot, held, files, vendor, device)
    else
      var at := Naming.ScanName(entries[i].name, slot);
      var content := ContentOf(files, at);
      if ReadCode(ios[i], files, at) != 0 then ScanFrom(entries, ios, i + 1, at, held, files, vendor, device)
      else
        var id := IdsIn(content, held);
        One(Matches(id, vendor, device), Found(id, at)) +
        ScanFrom(entries, ios, i + 1, at, id, files, vendor, device)
  }

  /** One step of the loop on the list it reports. */
  lemma LinkStep(entries: seq<Entry>, ios: seq<ReadIo>, i: nat, slot: Slot, held: CardId, files: Files,
                 vendor: nat, device: nat, at: Slot, id: CardId, matched: bool)
    requires i < |entries| == |ios| && entries[i].isLink
    requires at == Naming.ScanName(entries[i].name, slot)
    requires id == if ReadCode(ios[i], files, at) == 0 then IdsIn(ContentOf(files, at), held) else held
    requires matched <==> ReadCode(ios[i], files, at) == 0 && Matches(id, vendor, device)
    ensures ScanFrom(entries, ios, i, slot, held, files, vendor, device) ==
            One(matched, Found(id, at)) + ScanFrom(entries, ios, i + 1, at, id, files, vendor, device)
  {
  }

  lemma OtherStep(entries: seq<Entry>, ios: seq<ReadIo>, i: nat, j: nat, slot: Slot, held: CardId, files: Files,
                  vendor: nat, device: nat)
    requires i + 1 == j <= |entries| == |ios| && !entries[i].isLink
    ensures ScanFrom(entries, ios, i, slot, held, files, vendor, device) ==
            ScanFrom(entries, ios, j, slot, held, files, vendor, device)
  {
  }

  // ---------------------------------------------------------------- what a scan reports

  /** The entry is the link of the device in `slot`, as sysfs names it. */
  predicate IsLinkOf(e: Entry, slot: Slot)
  {
    e.isLink && e.name == Naming.PrintName(slot)
  }

  /** Every link is named after a slot the scan can read back, and its file, if it reads, has its first four bytes. */
  ghost predicate WellFormed(entries: seq<Entry>, ios: seq<ReadIo>, slots: seq<Slot>, files: Files)
    requires |slots| == |ios| == |entries|
  {
    forall i :: 0 <= i < |entries| && entries[i].isLink ==>
      IsLinkOf(entries[i], slots[i]) && Naming.Scannable(slots[i]) &&
      (ReadCode(ios[i], files, slots[i]) == 0 ==> |ContentOf(files, slots[i])| >= 4)
  }

  /** The device of entry `i` as its own file describes it. */
  function DeviceAt(slots: seq<Slot>, files: Files, i: nat): Found
    requires i < |slots| && |ContentOf(files, slots[i])| >= 4
  {
    var content := ContentOf(files, slots[i]);
    Found(CardId(WordAt(content, 0), WordAt(content, 2)), slots[i])
  }

  /** The matching devices of the readable links, in directory order. */
  function Selected(entries: seq<Entry>, ios: seq<ReadIo>, slots: seq<Slot>, i: nat, files: Files,
                    vendor: nat, device: nat): seq<Found>
    requires i <= |entries| == |ios| == |slots| && WellFormed(entries, ios, slots, files)
    decreases |entries| - i
  {
    if i == |entries| then []
    else
      var rest := Selected(entries, ios, slots, i + 1, files, vendor, device);
      if entries[i].isLink && ReadCode(ios[i], files, slots[i]) == 0 &&
         Matches(DeviceAt(slots, files, i).id, vendor, device)
      then [DeviceAt(slots, files, i)] + rest
      else rest
  }

  /** On a well-formed directory the scan is that filter, whatever its variables hold at the start. */
  lemma {:induction false} ScanSelects(entries: seq<Entry>, ios: seq<ReadIo>, slots: seq<Slot>, i: nat, slot: Slot,
                                       held: CardId, files: Files, vendor: nat, device: nat)
    requires i <= |entries| == |ios| == |slots| && WellFormed(entries, ios, slots, files)
    ensures ScanFrom(entries, ios, i, slot, held, files, vendor, device) ==
            Selected(entries, ios, slots, i, files, vendor, device)
    decreases |entries| - i
  {
    if i < |entries| {
      if entries[i].isLink {
        var at := Naming.ScanName(entries[i].name, slot);
        Naming.NameRoundTrip(slots[i], slot);
        assert at == slots[i];
        var content := ContentOf(files, at);
        var next := if ReadCode(ios[i], files, at) != 0 then held else IdsIn(content, held);
        ScanSelects(entries, ios, slots, i + 1, at, next, files, vendor, device);
      } else {
        ScanSelects(entries, ios, slots, i + 1, slot, held, files, vendor, device);
      }
    }
  }

  /** The devices of a list that match. */
  function Filter(found: seq<Found>, vendor: nat, device: nat): seq<Found>
  {
    if found == [] then []
    else (if Matches(found[0].id, vendor, device) then [found[0]] else []) + Filter(found[1..], vendor, device)
  }

  lemma {:induction false} FilterPrepend(f: Found, rest: seq<Found>, vendor: nat, device: nat)
    ensures Filter([f] + rest, vendor, device) ==
            (if Matches(f.id, vendor, device) then [f] else []) + Filter(rest, vendor, device)
  {
    assert ([f] + rest)[1..] == rest;
  }

  /**
   A scan for one vendor and device reports exactly the matching part, in order, of what the scan for any reports of the
   same directory, well-formed or not.
   */
  lemma {:induction false} SpecificIsFilteredWildcard(entries: seq<Entry>, ios: seq<ReadIo>, i: nat, slot: Slot,
                                                      held: CardId, files: Files, vendor: nat, device: nat)
    requires i <= |entries| == |ios|
    ensures ScanFrom(entries, ios, i, slot, held, files, vendor, device) ==
            Filter(ScanFrom(entries, ios, i, slot, held, files, PCI_ANY_ID, PCI_ANY_ID), vendor, device)
    decreases |entries| - i
  {
    if i < |entries| {
      if !entries[i].isLink {
        SpecificIsFilteredWildcard(entries, ios, i + 1, slot, held, files, vendor, device);
      } else {
        var at := Naming.ScanName(entries[i].name, slot);
        var content := ContentOf(files, at);
        if ReadCode(ios[i], files, at) != 0 {
          SpecificIsFilteredWildcard(entries, ios, i + 1, at, held, files, vendor, device);
        } else {
          var id := IdsIn(content, held);
          SpecificIsFilteredWildcard(entries, ios, i + 1, at, id, files, vendor, device);
          var rest := ScanFrom(entries, ios, i + 1, at, id, files, PCI_ANY_ID, PCI_ANY_ID);
          FilterPrepend(Found(id, at), rest, vendor, device);
        }
      }
    }
  }

  /**
   `f` is the device of a readable link, with the identifiers of its own file, and each of the two that is asked for is
   the one in the file.
   */
  ghost predicate Reportable(entries: seq<Entry>, ios: seq<ReadIo>, files: Files, vendor: nat, device: nat, f: Found,
                             k: nat)
  {
    && k < |entries| == |ios| && IsLinkOf(entries[k], f.slot)
    && ReadCode(ios[k], files, f.slot) == 0
    && Naming.ConfigPath(f.slot) in files
    && var content := files[Naming.ConfigPath(f.slot)];
       && |content| >= 4 && f.id == CardId(WordAt(content, 0), WordAt(content, 2))
       && (vendor == PCI_ANY_ID || WordAt(content, 0) == vendor)
       && (device == PCI_ANY_ID || WordAt(content, 2) == device)
  }

  /** Device by device, what `ks` gives stands for it. */
  ghost predicate Paired(found: seq<Found>, ks: seq<nat>, i: nat, standsFor: (nat, Found) -> bool)
  {
    |ks| == |found| && forall a :: 0 <= a < |ks| ==> i <= ks[a] && standsFor(ks[a], found[a])
  }

  predicate Ascending(ks: seq<nat>)
  {
    forall a, b :: 0 <= a < b < |ks| ==> ks[a] < ks[b]
  }

  /** `found` has one device for each `k` from `i` on that stands for one, in order. */
  ghost predicate Lists(found: seq<Found>, ks: seq<nat>, i: nat, standsFor: (nat, Found) -> bool)
  {
    && Paired(found, ks, i, standsFor) && Ascending(ks)
    && (forall k: nat, f: Found :: i <= k && standsFor(k, f) ==> k in ks)
  }

  lemma PairedMore(found: seq<Found>, ks: seq<nat>, i: nat, j: nat, f: Found, standsFor: (nat, Found) -> bool)
    requires j == i + 1 && Paired(found, ks, j, standsFor) && standsFor(i, f)
    ensures Paired([f] + found, [i] + ks, i, standsFor)
  {
  }

  lemma AscendingMore(ks: seq<nat>, i: nat)
    requires Ascending(ks) && forall a :: 0 <= a < |ks| ==> i < ks[a]
    ensures Ascending([i] + ks)
  {
  }

  lemma ListsMore(found: seq<Found>, ks: seq<nat>, i: nat, j: nat, f: Found, standsFor: (nat, Found) -> bool)
    requires j == i + 1 && Lists(found, ks, j, standsFor) && standsFor(i, f)
    ensures Lists([f] + found, [i] + ks, i, standsFor)
  {
    var all := [i] + ks;
    PairedMore(found, ks, i, j, f, standsFor);
    AscendingMore(ks, i);
    forall k: nat, g: Found | i <= k && standsFor(k, g)
      ensures k in all
    {
      assert k in [i] || k in ks;
    }
  }

  lemma ListsSame(found: seq<Found>, ks: seq<nat>, i: nat, j: nat, standsFor: (nat, Found) -> bool)
    requires j == i + 1 && Lists(found, ks, j, standsFor) && forall f :: !standsFor(i, f)
    ensures Lists(found, ks, i, standsFor)
  {
  }

  /** Entry `k` is the link of the device `f`, which is to be reported. */
  ghost function Links(entries: seq<Entry>, ios: seq<ReadIo>, files: Files, vendor: nat, device: nat)
    : (nat, Found) -> bool
  {
    (k: nat, f: Found) => Naming.Is32Bit(f.slot) && Reportable(entries, ios, files, vendor, device, f, k)
  }

  /** Only its own device can stand for an entry. */
  lemma OwnDevice(entries: seq<Entry>, ios: seq<ReadIo>, slots: seq<Slot>, i: nat, files: Files,
                  vendor: nat, device: nat, f: Found)
    requires i < |entries| == |ios| == |slots| && WellFormed(entries, ios, slots, files)
    requires Naming.Is32Bit(f.slot) && Reportable(entries, ios, files, vendor, device, f, i)
    ensures f.slot == slots[i] && ReadCode(ios[i], files, slots[i]) == 0 && f == DeviceAt(slots, files, i)
    ensures Matches(f.id, vendor, device)
  {
    Naming.NamesInjective(f.slot, slots[i]);
  }

  lemma NoneStands(entries: seq<Entry>, ios: seq<ReadIo>, slots: seq<Slot>, i: nat, files: Files,
                   vendor: nat, device: nat)
    requires i < |entries| == |ios| == |slots| && WellFormed(entries, ios, slots, files)
    requires !(entries[i].isLink && ReadCode(ios[i], files, slots[i]) == 0 &&
               Matches(DeviceAt(slots, files, i).id, vendor, device))
    ensures forall f :: !Links(entries, ios, files, vendor, device)(i, f)
  {
    forall f | Links(entries, ios, files, vendor, device)(i, f)
      ensures entries[i].isLink && ReadCode(ios[i], files, slots[i]) == 0 && f == DeviceAt(slots, files, i)
      ensures Matches(f.id, vendor, device)
    {
      OwnDevice(entries, ios, slots, i, files, vendor, device, f);
    }
  }

  lemma DeviceStands(entries: seq<Entry>, ios: seq<ReadIo>, slots: seq<Slot>, i: nat, files: Files,
                     vendor: nat, device: nat)
    requires i < |entries| == |ios| == |slots| && WellFormed(entries, ios, slots, files)
    requires entries[i].isLink && ReadCode(ios[i], files, slots[i]) == 0
    requires Matches(DeviceAt(slots, files, i).id, vendor, device)
    ensures Links(entries, ios, files, vendor, device)(i, DeviceAt(slots, files, i))
  {
    assert Naming.Scannable(slots[i]);
    assert Reportable(entries, ios, files, vendor, device, DeviceAt(slots, files, i), i);
  }

  lemma {:induction false} SelectedInOrder(entries: seq<Entry>, ios: seq<ReadIo>, slots: seq<Slot>, i: nat,
                                           files: Files, vendor: nat, device: nat) returns (ks: seq<nat>)
    requires i <= |entries| == |ios| == |slots| && WellFormed(entries, ios, slots, files)
    ensures Lists(Selected(entries, ios, slots, i, files, vendor, device), ks, i,
                  Links(entries, ios, files, vendor, device))
    decreases |entries| - i
  {
    if i == |entries| {
      return [];
    }
    var j, standsFor := i + 1, Links(entries, ios, files, vendor, device);
    var rest := Selected(entries, ios, slots, j, files, vendor, device);
    ks := SelectedInOrder(entries, ios, slots, j, files, vendor, device);
    if entries[i].isLink && ReadCode(ios[i], files, slots[i]) == 0 &&
       Matches(DeviceAt(slots, files, i).id, vendor, device)
    {
      DeviceStands(entries, ios, slots, i, files, vendor, device);
      ListsMore(rest, ks, i, j, DeviceAt(slots, files, i), standsFor);
      ks := [i] + ks;
    } else {
      NoneStands(entries, ios, slots, i, files, vendor, device);
      ListsSame(rest, ks, i, j, standsFor);
    }
  }

  /** The result has each of them once, in the order of the directory, and nothing else. */
  lemma ReportsInOrder(entries: seq<Entry>, ios: seq<ReadIo>, slots: seq<Slot>, slot: Slot, held: CardId, files: Files,
                       vendor: nat, device: nat)
    requires |entries| == |ios| == |slots| && WellFormed(entries, ios, slots, files)
    ensures exists ks :: Lists(ScanFrom(entries, ios, 0, slot, held, files, vendor, device), ks, 0,
                               Links(entries, ios, files, vendor, device))
  {
    ScanSelects(entries, ios, slots, 0, slot, held, files, vendor, device);
    var ks := SelectedInOrder(entries, ios, slots, 0, files, vendor, device);
  }

  lemma OneDevice(entries: seq<Entry>, ios: seq<ReadIo>, slots: seq<Slot>, files: Files, vendor: nat, device: nat,
                  k: nat, f: Found, g: Found)
    requires |entries| == |ios| == |slots| && WellFormed(entries, ios, slots, files)
    requires Links(entries, ios, files, vendor, device)(k, f) && Links(entries, ios, files, vendor, device)(k, g)
    ensures f == g
  {
    OwnDevice(entries, ios, slots, k, files, vendor, device, f);
    OwnDevice(entries, ios, slots, k, files, vendor, device, g);
  }

  lemma ListsAll(found: seq<Found>, ks: seq<nat>, standsFor: (nat, Found) -> bool, f: Found)
    requires Lists(found, ks, 0, standsFor)
    requires forall k, g, g' :: standsFor(k, g) && standsFor(k, g') ==> g == g'
    ensures f in found <==> exists k :: standsFor(k, f)
  {
    if f in found {
      var a :| 0 <= a < |found| && found[a] == f;
      assert standsFor(ks[a], f);
    }
    if k :| standsFor(k, f) {
      var a :| 0 <= a < |ks| && ks[a] == k;
      assert standsFor(k, found[a]);
    }
  }

  /**
   A well-formed directory is reported correctly: a device is in the result exactly when some readable link is named
   after its slot, its identifiers are the little-endian words at offsets 0 and 2 of that slot's own configuration
   file, and each is the wanted one or none is wanted.
   */
  lemma ReportsExactly(entries: seq<Entry>, ios: seq<ReadIo>, slots: seq<Slot>, slot: Slot, held: CardId, files: Files,
                       vendor: nat, device: nat, f: Found)
    requires |entries| == |ios| == |slots| && WellFormed(entries, ios, slots, files) && Naming.Is32Bit(f.slot)
    ensures f in ScanFrom(entries, ios, 0, slot, held, files, vendor, device) <==>
            exists k: nat :: Reportable(entries, ios, files, vendor, device, f, k)
  {
    var standsFor := Links(entries, ios, files, vendor, device);
    ReportsInOrder(entries, ios, slots, slot, held, files, vendor, device);
    var ks :| Lists(ScanFrom(entries, ios, 0, slot, held, files, vendor, device), ks, 0, standsFor);
    forall k, g, g' | standsFor(k, g) && standsFor(k, g')
      ensures g == g'
    {
      OneDevice(entries, ios, slots, files, vendor, device, k, g, g');
    }
    ListsAll(ScanFrom(entries, ios, 0, slot, held, files, vendor, device), ks, standsFor, f);
    assert forall k: nat :: standsFor(k, f) <==> Reportable(entries, ios, files, vendor, device, f, k);
  }

  /**
   A read of the identifiers.  A file that is not there, one that does not open, and one that does; a call that fails is
   reported as long as one of the four bytes is missing, and none is made once they are there.
   */
  lemma ReadCodes(io: ReadIo, files: Files, slot: Slot)
    ensures Naming.ConfigPath(slot) !in files ==> ReadCode(io, files, slot) == ENOENT
    ensures Naming.ConfigPath(slot) in files && io.openErr != 0 ==> ReadCode(io, files, slot) == io.openErr
    ensures Naming.ConfigPath(slot) in files && io.openErr == 0 ==>
              && ((forall k :: io.schedule(k).Move?) ==> ReadCode(io, files, slot) == 0)
              && (ReadCode(io, files, slot) != 0 ==>
                    exists j :: FirstFailure(io.schedule, 0, j, ReadCode(io, files, slot)))
    ensures Naming.ConfigPath(slot) in files && io.openErr == 0 && |ContentOf(files, slot)| >= 4 &&
            io.schedule(0).Move? && io.schedule(0).want > 0 ==>
              && (io.schedule(0).want >= 4 ==> ReadCode(io, files, slot) == 0)
              && (io.schedule(0).want < 4 && io.schedule(1).Fail? ==>
                    ReadCode(io, files, slot) == io.schedule(1).errno)
  {
    var left := |ContentOf(files, slot)|;
    TransferExactly(io.openErr, io.schedule, 4, left);
    if left >= 4 && io.schedule(0).Move? && io.schedule(0).want > 0 {
      FirstCall(io.schedule, io.schedule(0).want, left);
    }
  }

  lemma FirstCall(schedule: Schedule, want: nat, left: nat)
    requires left >= 4 && want > 0 && schedule(0) == Move(want)
    ensures want >= 4 ==> TotalOf(schedule, 0, 4, left).err == 0
    ensures want < 4 && schedule(1).Fail? ==> TotalOf(schedule, 0, 4, left).err == schedule(1).errno
  {
    var n := Moved(want, 4, left);
    assert TotalOf(schedule, 0, 4, left).err == TotalOf(schedule, 1, 4 - n, left - n).err;
  }

  // ---------------------------------------------------------------- names and files that are not as expected

  /** What the loop reports for one link, by what its variables hold when it comes to it. */
  function LinkReport(name: string, io: ReadIo, slot: Slot, held: CardId, files: Files, vendor: nat, device: nat)
    : seq<Found>
  {
    var at := Naming.ScanName(name, slot);
    var id := IdsIn(ContentOf(files, at), held);
    One(ReadCode(io, files, at) == 0 && Matches(id, vendor, device), Found(id, at))
  }

  /** That is what a directory with nothing but the link reports. */
  lemma LoneLink(name: string, io: ReadIo, slot: Slot, held: CardId, files: Files, vendor: nat, device: nat)
    ensures ScanFrom([Entry(true, name)], [io], 0, slot, held, files, vendor, device) ==
            LinkReport(name, io, slot, held, files, vendor, device)
  {
    var at := Naming.ScanName(name, slot);
    var id := if ReadCode(io, files, at) == 0 then IdsIn(ContentOf(files, at), held) else held;
    var matched := ReadCode(io, files, at) == 0 && Matches(id, vendor, device);
    LinkStep([Entry(true, name)], [io], 0, slot, held, files, vendor, device, at, id, matched);
    assert ScanFrom([Entry(true, name)], [io], 1, at, id, files, vendor, device) == [];
  }

  /** Every configuration file has at least its first four bytes. */
  ghost predicate NoShortFile(files: Files)
  {
    forall path :: path in files ==> |files[path]| >= 4
  }

  /** Whatever the files hold, what is reported for the link does not depend on what the variables hold. */
  ghost predicate OwnReport(name: string, io: ReadIo, vendor: nat, device: nat)
  {
    forall files: Files, p, q, held, held' :: NoShortFile(files) ==>
      LinkReport(name, io, p, held, files, vendor, device) == LinkReport(name, io, q, held', files, vendor, device)
  }

  /** Every transfer as long as it can be, and no failure. */
  const WHOLE: ReadIo := ReadIo(0, k => Move(4))

  lemma WholeReads(files: Files, slot: Slot)
    requires Naming.ConfigPath(slot) in files
    ensures ReadCode(WHOLE, files, slot) == 0
  {
    ChunkingIndependent(WHOLE.schedule, 0, 4, |ContentOf(files, slot)|);
  }

  lemma CompletedReport(name: string, io: ReadIo, files: Files, p: Slot, q: Slot, held: CardId, held': CardId,
                        vendor: nat, device: nat)
    requires Naming.Completes(name) && NoShortFile(files)
    ensures LinkReport(name, io, p, held, files, vendor, device) ==
            LinkReport(name, io, q, held', files, vendor, device)
  {
    Naming.ScanSets(name, p, q);
  }

  /** Two slots whose files exist, and which the link is taken for in turn. */
  lemma BorrowedReport(name: string)
    requires !Naming.Completes(name)
    ensures !OwnReport(name, WHOLE, PCI_ANY_ID, PCI_ANY_ID)
  {
    var p, q := Slot(0, 0, 0, 0), Slot(0, 0, 0, 1);
    Naming.ScanSets(name, p, p);
    Naming.ScanSets(name, q, q);
    var a, b := Naming.ScanName(name, p), Naming.ScanName(name, q);
    var held := CardId(0, 0);
    var files: Files := map[Naming.ConfigPath(a) := [0, 0, 0, 0], Naming.ConfigPath(b) := [0, 0, 0, 0]];
    WholeReads(files, a);
    WholeReads(files, b);
    assert LinkReport(name, WHOLE, p, held, files, PCI_ANY_ID, PCI_ANY_ID)[0].slot == a;
    assert LinkReport(name, WHOLE, q, held, files, PCI_ANY_ID, PCI_ANY_ID)[0].slot == b;
    assert NoShortFile(files);
  }

  /**
   The loop does not look at how many fields `sscanf` read.  What it reports for a link is the link's own, whatever
   entries came before it and whatever the variables held at the start, exactly when the whole name matches the format.
   */
  lemma OwnReportExactly(name: string)
    ensures (forall io, vendor, device :: OwnReport(name, io, vendor, device)) <==> Naming.Completes(name)
  {
    if Naming.Completes(name) {
      forall io, vendor, device
        ensures OwnReport(name, io, vendor, device)
      {
        forall files: Files, p, q, held, held' | NoShortFile(files)
          ensures LinkReport(name, io, p, held, files, vendor, device) ==
                  LinkReport(name, io, q, held', files, vendor, device)
        {
          CompletedReport(name, io, files, p, q, held, held', vendor, device);
        }
      }
    } else {
      BorrowedReport(name);
    }
  }

  /**
   For a link whose name completes, the identifiers reported are its own exactly when its file does not read or has four
   bytes: a shorter file is reported with those of the entry before it.
   */
  lemma OwnIdsExactly(name: string, io: ReadIo, slot: Slot, files: Files)
    ensures var at := Naming.ScanName(name, slot);
            (forall held, held' :: LinkReport(name, io, slot, held, files, PCI_ANY_ID, PCI_ANY_ID) ==
                                   LinkReport(name, io, slot, held', files, PCI_ANY_ID, PCI_ANY_ID))
            <==> ReadCode(io, files, at) != 0 || |ContentOf(files, at)| >= 4
  {
    var at := Naming.ScanName(name, slot);
    if ReadCode(io, files, at) == 0 && |ContentOf(files, at)| < 4 {
      var x, y := CardId(0, 0), CardId(0, 1);
      assert LinkReport(name, io, slot, x, files, PCI_ANY_ID, PCI_ANY_ID)[0].id == x;
      assert LinkReport(name, io, slot, y, files, PCI_ANY_ID, PCI_ANY_ID)[0].id == y;
    }
  }

  /** Every link's name completes, and its file does not read or has its first four bytes. */
  ghost predicate Complete(entries: seq<Entry>, ios: seq<ReadIo>, files: Files)
    requires |entries| == |ios|
  {
    forall i, s :: 0 <= i < |entries| && entries[i].isLink ==>
      Naming.Completes(entries[i].name) &&
      (ReadCode(ios[i], files, Naming.ScanName(entries[i].name, s)) == 0 ==>
         |ContentOf(files, Naming.ScanName(entries[i].name, s))| >= 4)
  }

  /** A whole scan of such a directory does not depend on the variables, which the source leaves uninitialised. */
  lemma {:induction false} UnsetDoesNotMatter(entries: seq<Entry>, ios: seq<ReadIo>, i: nat, files: Files,
                                              p: Slot, q: Slot, held: CardId, held': CardId, vendor: nat, device: nat)
    requires i <= |entries| == |ios| && Complete(entries, ios, files)
    ensures ScanFrom(entries, ios, i, p, held, files, vendor, device) ==
            ScanFrom(entries, ios, i, q, held', files, vendor, device)
    decreases |entries| - i
  {
    if i < |entries| {
      var j := i + 1;
      if entries[i].isLink {
        var at := Naming.ScanName(entries[i].name, p);
        Naming.ScanSets(entries[i].name, p, q);
        var ok := ReadCode(ios[i], files, at) == 0;
        var x := if ok then IdsIn(ContentOf(files, at), held) else held;
        var y := if ok then IdsIn(ContentOf(files, at), held') else held';
        LinkStep(entries, ios, i, p, held, files, vendor, device, at, x, ok && Matches(x, vendor, device));
        LinkStep(entries, ios, i, q, held', files, vendor, device, at, y, ok && Matches(y, vendor, device));
        UnsetDoesNotMatter(entries, ios, j, files, at, at, x, y, vendor, device);
      } else {
        UnsetDoesNotMatter(entries, ios, j, files, p, q, held, held', vendor, device);
      }
    }
  }

  /**
   A link whose name has no leading hexadecimal digit scans to nothing and is taken for the device before it, which is
   then reported twice.
   */
  lemma MalformedDuplicates(entries: seq<Entry>, ios: seq<ReadIo>, i: nat, slot: Slot, held: CardId, files: Files,
                            vendor: nat, device: nat, s: Slot)
    requires i + 1 < |entries| == |ios| && entries[i].isLink && s == Naming.ScanName(entries[i].name, slot)
    requires entries[i + 1].isLink && Naming.NoLeadingDigit(entries[i + 1].name)
    requires ReadCode(ios[i], files, s) == 0 && ReadCode(ios[i + 1], files, s) == 0
    requires Matches(IdsIn(ContentOf(files, s), held), vendor, device)
    ensures var found := ScanFrom(entries, ios, i, slot, held, files, vendor, device);
            |found| >= 2 && found[0] == found[1] == Found(IdsIn(ContentOf(files, s), held), s)
  {
    var id, j := IdsIn(ContentOf(files, s), held), i + 1;
    Naming.ScansToNothingExactly(entries[j].name);
    LinkReported(entries, ios, i, j, slot, held, files, vendor, device, s, id);
    LinkReported(entries, ios, j, j + 1, s, id, files, vendor, device, s, id);
    FrontTwo(ScanFrom(entries, ios, i, slot, held, files, vendor, device),
             ScanFrom(entries, ios, j, s, id, files, vendor, device), Found(id, s));
  }

  /** A link that scans to `s` and reads is reported as the first of what follows. */
  lemma LinkReported(entries: seq<Entry>, ios: seq<ReadIo>, i: nat, j: nat, slot: Slot, held: CardId, files: Files,
                     vendor: nat, device: nat, s: Slot, id: CardId)
    requires j == i + 1 <= |entries| == |ios| && entries[i].isLink && Naming.ScanName(entries[i].name, slot) == s
    requires ReadCode(ios[i], files, s) == 0 && id == IdsIn(ContentOf(files, s), held) && Matches(id, vendor, device)
    ensures var rest := ScanFrom(entries, ios, j, s, id, files, vendor, device);
            var all := ScanFrom(entries, ios, i, slot, held, files, vendor, device);
            all == [Found(id, s)] + rest && [Found(id, s)] <= all
  {
    LinkStep(entries, ios, i, slot, held, files, vendor, device, s, id, true);
  }

  lemma FrontTwo(all: seq<Found>, rest: seq<Found>, f: Found)
    requires [f] <= rest && all == [f] + rest
    ensures |all| >= 2 && all[0] == all[1] == f
  {
    assert rest[0] == f;
  }

  /**
   The directory loop of `CRONO_KERNEL_PciDeviceOpen` stops exactly when a link is named after the slot asked for,
   whatever its variables hold at the start; so it can open what a scan reports.
   */
  lemma {:induction false} OpenFindsLinks(entries: seq<Entry>, slots: seq<Slot>, slot: Slot, unset: Slot)
    requires |slots| == |entries| && Naming.Is32Bit(slot)
    requires forall i :: 0 <= i < |entries| && entries[i].isLink ==>
               IsLinkOf(entries[i], slots[i]) && Naming.Scannable(slots[i])
    ensures Listed(entries, slot, unset) <==> exists k :: 0 <= k < |entries| && IsLinkOf(entries[k], slot)
  {
    if entries != [] {
      var rest, at := entries[1..], if entries[0].isLink then Naming.ScanName(entries[0].name, unset) else unset;
      OpenFindsLinks(rest, slots[1..], slot, at);
      if entries[0].isLink {
        Naming.NameRoundTrip(slots[0], unset);
      }
      if IsLinkOf(entries[0], slot) {
        Naming.NamesInjective(slot, slots[0]);
      }
      if k :| 0 <= k < |entries| && IsLinkOf(entries[k], slot) {
        assert k == 0 || entries[k] == rest[k - 1];
      }
      if k :| 0 <= k < |rest| && IsLinkOf(rest[k], slot) {
        assert IsLinkOf(entries[k + 1], slot);
      }
    }
  }

  /** Whether the open loop stops at the link, with `unset` in its variables. */
  predicate StopsAt(name: string, slot: Slot, unset: Slot)
  {
    Listed([Entry(true, name)], slot, unset)
  }

  lemma StopsAtScanned(name: string, slot: Slot, unset: Slot)
    ensures StopsAt(name, slot, unset) <==> Naming.ScanName(name, unset) == slot
  {
    var es := [Entry(true, name)];
    var rest, at := es[1..], Naming.ScanName(name, unset);
    assert !Listed(rest, slot, at);
    assert es[0].isLink && Listed(es, slot, unset) == (at == slot || Listed(rest, slot, at));
  }

  /**
   For one link the open loop gives the same answer, whatever its variables hold, exactly when the name completes; any
   other name can make it open the slot of the entry before it.
   */
  lemma OpenOwnExactly(name: string)
    ensures (forall slot, p, q :: StopsAt(name, slot, p) == StopsAt(name, slot, q)) <==> Naming.Completes(name)
  {
    forall slot, p, q | Naming.Completes(name)
      ensures StopsAt(name, slot, p) == StopsAt(name, slot, q)
    {
      Naming.ScanSets(name, p, q);
      StopsAtScanned(name, slot, p);
      StopsAtScanned(name, slot, q);
    }
    if !Naming.Completes(name) {
      Naming.ScanIndependentExactly(name);
      var p, q :| Naming.ScanName(name, p) != Naming.ScanName(name, q);
      var a := Naming.ScanName(name, p);
      StopsAtScanned(name, a, p);
      StopsAtScanned(name, a, q);
      assert StopsAt(name, a, p) != StopsAt(name, a, q);
    }
  }

  // ---------------------------------------------------------------- the method

  /** `CRONO_KERNEL_PCI_SCAN_RESULT`. */
  class ScanResult {
    var dwNumDevices: nat
    const deviceId: array<CardId>
    const deviceSlot: array<Slot>

    constructor ()
      ensures fresh(deviceId) && fresh(deviceSlot) && Shaped() && dwNumDevices == 0
    {
      dwNumDevices := 0;
      deviceId := new CardId[PCI_CARDS](_ => CardId(0, 0));
      deviceSlot := new Slot[PCI_CARDS](_ => Slot(0, 0, 0, 0));
    }

    ghost predicate Shaped()
    {
      deviceId.Length == PCI_CARDS && deviceSlot.Length == PCI_CARDS
    }

    /** Cell `k`. */
    ghost function Cell(k: nat): Found
      requires k < PCI_CARDS && Shaped()
      reads deviceId, deviceSlot
    {
      Found(deviceId[k], deviceSlot[k])
    }

    ghost function Cells(): (c: seq<Found>)
      requires Shaped()
      reads deviceId, deviceSlot
      ensures |c| == PCI_CARDS
    {
      seq(PCI_CARDS, k requires 0 <= k < PCI_CARDS && Shaped() reads deviceId, deviceSlot => Cell(k))
    }

    /** One match. */
    method Put(index: nat, id: CardId, slot: Slot)
      requires Shaped() && index < PCI_CARDS
      modifies this, deviceId, deviceSlot
      ensures Cells() == old(Cells())[index := Found(id, slot)] && dwNumDevices == index + 1
    {
      deviceId[index], deviceSlot[index] := id, slot;
      dwNumDevices := index + 1;
      assert Cells() == old(Cells())[index := Found(id, slot)];
    }
  }

  /** The readable bytes of the files. */
  ghost function Contents(fs: map<string, ConfigFile>): Files
    reads set p | p in fs :: fs[p]
  {
    map p | p in fs :: fs[p].content
  }

  /** The read of one entry: the code, and what the two identifiers hold after it. */
  method ReadEntry(fs: map<string, ConfigFile>, slot: Slot, io: ReadIo, held: CardId) returns (ret: int, id: CardId)
    ensures ret == ReadCode(io, Contents(fs), slot)
    ensures id == if ret == 0 then IdsIn(ContentOf(Contents(fs), slot), held) else held
  {
    if Naming.ConfigPath(slot) !in fs {
      return ENOENT, held;
    }
    var file := fs[Naming.ConfigPath(slot)];
    var vendor, device;
    ret, vendor, device := ReadVendorDevice(file, io.openErr, io.schedule, held.vendorId, held.deviceId);
    id := CardId(vendor, device);
  }

  /** What the result is after `found` was reported: its first cells, and the count if there are any. */
  ghost predicate Holds(result: ScanResult, found: seq<Found>, cells: seq<Found>, count: nat)
    requires result.Shaped() && |cells| == PCI_CARDS
    reads result, result.deviceId, result.deviceSlot
  {
    && |found| <= PCI_CARDS
    && result.Cells() == found + cells[|found|..]
    && result.dwNumDevices == if found == [] then count else |found|
  }

  /** A match goes to the next cell. */
  method Report(result: ScanResult, matched: bool, index: nat, f: Found, ghost found: seq<Found>,
                ghost cells: seq<Found>, ghost count: nat, ghost fs: map<string, ConfigFile>)
    returns (next: nat)
    requires result.Shaped() && |cells| == PCI_CARDS && Holds(result, found, cells, count)
    requires index == |found| && |found + One(matched, f)| <= PCI_CARDS
    modifies result, result.deviceId, result.deviceSlot
    ensures Holds(result, found + One(matched, f), cells, count) && next == |found + One(matched, f)|
    ensures Contents(fs) == old(Contents(fs))
  {
    if !matched {
      assert found + One(matched, f) == found;
      return index;
    }
    result.Put(index, f.id, f.slot);
    assert (found + cells[|found|..])[index := f] == found + [f] + cells[index + 1..];
    return index + 1;
  }

  lemma PartFits(found: seq<Found>, rest: seq<Found>)
    requires |found + rest| <= PCI_CARDS
    ensures |found| <= PCI_CARDS
  {
  }

  /** Name and identifiers of one link, and whether it is reported. */
  method ReadLink(entries: seq<Entry>, ios: seq<ReadIo>, i: nat, slot: Slot, held: CardId,
                  fs: map<string, ConfigFile>, vendor: nat, device: nat)
    returns (at: Slot, id: CardId, matched: bool)
    requires i < |entries| == |ios| && entries[i].isLink
    ensures ScanFrom(entries, ios, i, slot, held, Contents(fs), vendor, device) ==
            One(matched, Found(id, at)) + ScanFrom(entries, ios, i + 1, at, id, Contents(fs), vendor, device)
  {
    at := Naming.ScanName(entries[i].name, slot);
    var ret;
    ret, id := ReadEntry(fs, at, ios[i], held);
    matched := ret == 0 && Matches(id, vendor, device);
    LinkStep(entries, ios, i, slot, held, Contents(fs), vendor, device, at, id, matched);
  }

  /** The body of the loop for a link; `found` and `rest` are what is and what will be reported. */
  method ScanLink(entries: seq<Entry>, ios: seq<ReadIo>, i: nat, ghost j: nat, slot: Slot, held: CardId, index: nat,
                  fs: map<string, ConfigFile>, vendor: nat, device: nat, result: ScanResult,
                  ghost found: seq<Found>, ghost rest: seq<Found>, ghost cells: seq<Found>, ghost count: nat)
    returns (at: Slot, id: CardId, next: nat, ghost found': seq<Found>, ghost rest': seq<Found>)
    requires result.Shaped() && |cells| == PCI_CARDS && i + 1 == j <= |entries| == |ios| && entries[i].isLink
    requires index == |found| && |found + rest| <= PCI_CARDS && Holds(result, found, cells, count)
    requires rest == ScanFrom(entries, ios, i, slot, held, Contents(fs), vendor, device)
    modifies result, result.deviceId, result.deviceSlot
    ensures Contents(fs) == old(Contents(fs))
    ensures next == |found'| && found' + rest' == found + rest && Holds(result, found', cells, count)
    ensures rest' == ScanFrom(entries, ios, j, at, id, Contents(fs), vendor, device)
  {
    var matched;
    at, id, matched := ReadLink(entries, ios, i, slot, held, fs, vendor, device);
    var f := Found(id, at);
    rest' := ScanFrom(entries, ios, j, at, id, Contents(fs), vendor, device);
    found' := found + One(matched, f);
    assert found' + rest' == found + rest;
    PartFits(found', rest');
    next := Report(result, matched, index, f, found, cells, count, fs);
  }

  /** The directory loop. */
  method ScanEntries(entries: seq<Entry>, ios: seq<ReadIo>, unset: Slot, unsetIds: CardId, fs: map<string, ConfigFile>,
                     vendor: nat, device: nat, result: ScanResult)
    requires result.Shaped() && |entries| == |ios|
    requires |ScanFrom(entries, ios, 0, unset, unsetIds, Contents(fs), vendor, device)| <= PCI_CARDS
    modifies result, result.deviceId, result.deviceSlot
    ensures Holds(result, ScanFrom(entries, ios, 0, unset, unsetIds, old(Contents(fs)), vendor, device),
                  old(result.Cells()), old(result.dwNumDevices))
  {
    ghost var files, cells, count := Contents(fs), result.Cells(), result.dwNumDevices;
    ghost var all := ScanFrom(entries, ios, 0, unset, unsetIds, files, vendor, device);
    ghost var found: seq<Found> := [];
    ghost var rest := all;
    var at, held, indexInResult, i := unset, unsetIds, 0, 0;
    while i < |entries|
      invariant i <= |entries| && indexInResult == |found| && files == Contents(fs)
      invariant all == found + rest && rest == ScanFrom(entries, ios, i, at, held, files, vendor, device)
      invariant Holds(result, found, cells, count)
    {
      ghost var j := i + 1;
      if entries[i].isLink {
        at, held, indexInResult, found, rest :=
          ScanLink(entries, ios, i, j, at, held, indexInResult, fs, vendor, device, result, found, rest, cells, count);
      } else {
        OtherStep(entries, ios, i, j, at, held, files, vendor, device);
      }
      i := i + 1;
      assert i == j;
    }
    assert rest == [];
    assert all == found;
  }

  /**
   `CRONO_KERNEL_PciScanDevices`.  The result holds the reported devices from its first cell on and is otherwise as
   before: in particular its count keeps its old value when nothing matches.  Something that is not a directory gives
   whatever `errno` was.  More than 100 matches would run past the result: nothing checks that.
   */
  method PciScanDevices(entries: seq<Entry>, ios: seq<ReadIo>, unset: Slot, unsetIds: CardId,
                        fs: map<string, ConfigFile>, vendor: nat, device: nat, result: ScanResult,
                        statErr: int, isDirectory: bool, staleErrno: int, opendirErr: int)
    returns (ret: int)
    requires result.Shaped() && |entries| == |ios|
    requires |ScanFrom(entries, ios, 0, unset, unsetIds, Contents(fs), vendor, device)| <= PCI_CARDS
    modifies result, result.deviceId, result.deviceSlot
    ensures ret == if statErr != 0 then statErr else if !isDirectory then staleErrno else opendirErr
    ensures Holds(result,
                  if statErr != 0 || !isDirectory || opendirErr != 0 then []
                  else ScanFrom(entries, ios, 0, unset, unsetIds, old(Contents(fs)), vendor, device),
                  old(result.Cells()), old(result.dwNumDevices))
  {
    if statErr != 0 {
      return statErr;
    }
    if !isDirectory {
      return staleErrno;
    }
    if opendirErr != 0 {
      return opendirErr;
    }
    ScanEntries(entries, ios, unset, unsetIds, fs, vendor, device, result);
    return 0;
  }
}
