/** Constants and record types shared by every part of the model. */
module Kernel {

  /** A user-space address. Zero is the null pointer. */
  type Ptr = nat

  type Byte = n: nat | n < 256

  const NULL: Ptr := 0

  const U32: nat := 0x1_0000_0000
  const U64: nat := 0x1_0000_0000_0000_0000

  /** Cells in the global `devices` table and in a record's `bar_descs`. */
  const TABLE_SIZE: nat := 8
  const BAR_SLOTS: nat := 6

  const ENOENT: int := 2
  const EBADF: int := 9
  const ENOMEM: int := 12
  const EFAULT: int := 14
  const EBUSY: int := 16
  const ENODEV: int := 19
  const EINVAL: int := 22

  const INSUFFICIENT_RESOURCES: int := 0x20000005
  const TRY_AGAIN: int := 0x2000001d
  const NO_DEVICE_OBJECT: int := 0x20000023

  function Min(a: nat, b: nat): nat
  {
    if a < b then a else b
  }

  datatype Option<+T> = None | Some(value: T)

  /** Where a function sits on the bus: `CRONO_KERNEL_PCI_SLOT`. */
  datatype Slot = Slot(domain: nat, bus: nat, dev: nat, func: nat)

  /** `CRONO_KERNEL_BAR_DESC`; its `flags` member is zeroed and never set. */
  datatype Bar = Bar(barNum: nat, userAddress: Ptr, physicalAddress: nat, length: nat)

  const NO_BAR: Bar := Bar(0, 0, 0, 0)

  /** The contents of one `CRONO_KERNEL_DEVICE`. */
  datatype Record = Record(slot: Slot, vendorId: nat, deviceId: nat, bars: seq<Bar>, barCount: nat,
                           name: string, fd: int)

  /** `CRONO_KERNEL_DMA_PAGE`. */
  datatype DmaPage = DmaPage(physicalAddr: nat, bytes: nat)

  /** The contents of one `CRONO_KERNEL_DMA_SG`; `page` points to its page array. */
  datatype Sg = Sg(userAddr: Ptr, pages: nat, page: Ptr, id: int)

  /** The contents of one `CRONO_KERNEL_DMA_CONTIG`. */
  datatype Contig = Contig(userAddr: Ptr, bytes: nat, physicalAddr: nat, id: int)
}
