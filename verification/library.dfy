/** The library's globals and the records it allocates, as objects that the calls update in place. */
module Objects {
  import opened Kernel
  import opened Lifecycle
  import opened Ownership

  /** `CRONO_KERNEL_DEVICE`. */
  class Device {
    var slot: Slot
    var vendorId: nat
    var deviceId: nat
    const barDescs: array<Bar>
    var barCount: nat
    var miscdevName: string
    var miscdevFd: int

    /** `malloc` and the `memset` to zero. */
    constructor ()
      ensures fresh(barDescs) && barDescs.Length == BAR_SLOTS
      ensures View() == Record(Slot(0, 0, 0, 0), 0, 0, PadBars([]), 0, "", 0)
    {
      slot, vendorId, deviceId := Slot(0, 0, 0, 0), 0, 0;
      barDescs := new Bar[BAR_SLOTS](_ => NO_BAR);
      barCount, miscdevName, miscdevFd := 0, "", 0;
      new;
      assert barDescs[..] == PadBars([]);
    }

    ghost function View(): Record
      reads this, barDescs
    {
      Record(slot, vendorId, deviceId, barDescs[..], barCount, miscdevName, miscdevFd)
    }
  }

  /** The records at the addresses of the heap. */
  ghost function Views(heap: map<Ptr, Device>): map<Ptr, Record>
    reads set p | p in heap :: heap[p], set p | p in heap :: heap[p].barDescs
  {
    map p | p in heap :: heap[p].View()
  }

  /** Different addresses hold different objects with different arrays, as blocks of a heap do. */
  ghost predicate Separate(heap: map<Ptr, Device>)
  {
    && (forall p :: p in heap ==> heap[p].barDescs.Length == BAR_SLOTS)
    && (forall p, q :: p in heap && q in heap && p != q ==> heap[p] != heap[q] && heap[p].barDescs != heap[q].barDescs)
  }

  /**
   The process: the globals `devices` and `iNewDev`, the device records by heap address, the open descriptors, the
   mappings, and what the DMA calls keep.
   */
  class Library {
    const devices: array<Ptr>
    var iNewDev: nat
    var heap: map<Ptr, Device>
    var fds: map<int, Ptr>
    var maps: map<Ptr, Mapping>
    var dma: Dma

    constructor ()
      ensures Valid() && Abs() == EMPTY
      ensures fresh(devices)
    {
      devices := new Ptr[TABLE_SIZE](_ => NULL);
      iNewDev, heap, fds, maps := 0, map[], map[], map[];
      dma := Dma(map[], map[], map[], {}, map[], map[]);
      new;
      assert devices[..] == EMPTY.table;
      assert Views(heap) == map[];
    }

    /** Every object the library may update. */
    ghost function Repr(): set<object>
      reads this
    {
      {this, devices} + (set p | p in heap :: heap[p]) + (set p | p in heap :: heap[p].barDescs)
    }

    ghost function Abs(): State
      reads this, devices, set p | p in heap :: heap[p], set p | p in heap :: heap[p].barDescs
    {
      State(devices[..], iNewDev, Views(heap), fds, maps, dma)
    }

    /** The objects are laid out as a heap. */
    ghost predicate Sound()
      reads this
    {
      devices.Length == TABLE_SIZE && Separate(heap)
    }

    ghost predicate Valid()
      reads this, devices, set p | p in heap :: heap[p], set p | p in heap :: heap[p].barDescs
    {
      Sound() && Inv(Abs())
    }
  }
}
