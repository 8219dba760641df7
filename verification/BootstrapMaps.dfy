/** What the finished boot tables translate, through the low root, through the high root and through the walker. */
module BootstrapMaps {
  import opened Options
  import opened Vmsav8
  import opened PageTables
  import opened Walker
  import opened FlatModel
  import opened Bootstrap

  function BlockOut(d: bv64, addr: bv64): bv64 {
    (d & 0x0000_FFFF_FFE0_0000) | (addr & 0x1F_FFFF)
  }

  predicate SameOffset(x: bv64, y: bv64) {
    x & 0x1F_FFFF == y & 0x1F_FFFF
  }

  /** The physical address an address of the high half stands for; the subtraction wraps. */
  function Below(x: bv64): bv64 {
    x - 0xFFFF_FFFF_0000_0000
  }

  /** The physical address hardware reaches, from what the tables hold for an address. */
  function Output(seen: Seen, va: VirtAddr): Option<bv64> {
    match seen
    case Unmapped => None
    case Block(level, d) =>
      if !HasAccessFlag(d) || level == 0 then None
      else if level == 1 then Some((d & 0x0000_FFFF_C000_0000) | (va.addr & 0x3FFF_FFFF))
      else Some(BlockOut(d, va.addr))
    case Page(d) =>
      if HasTableOrPageBit(d) && HasAccessFlag(d) then Some((d & 0x0000_FFFF_FFFF_F000) | (va.addr & 0xFFF)) else None
  }

  predicate InDevice(p: bv64) {
    0x0800_0000 <= p < 0x0920_0000
  }

  predicate InRam(p: bv64) {
    0x4000_0000 <= p < 0x4800_0000
  }

  /** An address of the half TTBR1 serves. */
  predicate HighHalf(va: VirtAddr) {
    va.addr & 0xFFFF_0000_0000_0000 == 0xFFFF_0000_0000_0000
  }

  function BlockBase(p: bv64): bv64 {
    p & 0xFFFF_FFFF_FFE0_0000
  }

  /** What both roots are meant to hold for physical address `p`. */
  function Meant(p: bv64): Seen {
    if InDevice(p) then Block(2, DeviceBlock(BlockBase(p)))
    else if InRam(p) then Block(2, RamBlock(BlockBase(p)))
    else Unmapped
  }

  function AsBlock(d: bv64): Seen {
    if IsValid(d) then Block(2, d) else Unmapped
  }

  lemma DeviceEntriesAreBlocks(i: bv9)
    ensures !IsTable(LowEntry(i)) && (IsValid(LowEntry(i)) <==> 64 <= i < 73)
  {
    hide DeviceBlock, IsValid, HasTableOrPageBit;
    ZeroIsInvalid();
    DeviceBlockIsBlock((i as bv64) << 21);
  }

  lemma RamEntriesAreBlocks(i: bv9)
    ensures !IsTable(HighEntry(i)) && (IsValid(HighEntry(i)) <==> i < 64)
  {
    hide RamBlock, IsValid, HasTableOrPageBit;
    ZeroIsInvalid();
    RamBlockIsBlock(0x4000_0000 + ((i as bv64) << 21));
  }

  lemma DeviceBlockIsBlock(pa: bv64)
    ensures var d := DeviceBlock(pa);
      IsValid(d) && !HasTableOrPageBit(d) && HasAccessFlag(d) && d & BLOCK_OA_MASK_L2 == pa & BLOCK_OA_MASK_L2
  {
    hide BlockDescriptor, FlagsToDescriptorBits;
    BlockDescriptorAddress(pa, FlagsToDescriptorBits(DEVICE_FLAGS));
  }

  lemma RamBlockIsBlock(pa: bv64)
    ensures var d := RamBlock(pa);
      IsValid(d) && !HasTableOrPageBit(d) && HasAccessFlag(d) && d & BLOCK_OA_MASK_L2 == pa & BLOCK_OA_MASK_L2
  {
    hide BlockDescriptor, FlagsToDescriptorBits;
    BlockDescriptorAddress(pa, FlagsToDescriptorBits(RAM_FLAGS));
  }

  /** A root that links one table, which links the two shared ones, holds the shared blocks and nothing else. */
  lemma ThroughLinks(w: Words, b: BootFrames, root: PhysFrame, l1: PhysFrame, i: bv9, j: bv9, k: bv9, va: VirtAddr)
    requires Distinguished(b) && Representable(l1) && j != k
    requires OneLink(w, root, i, l1) && TwoLinks(w, l1, j, k, b) && BlockTables(w, b)
    ensures Look(w, root, va) ==
      if VaIndex(va, 0) != i then Unmapped
      else if VaIndex(va, 1) == j then AsBlock(LowEntry(VaIndex(va, 2)))
      else if VaIndex(va, 1) == k then AsBlock(HighEntry(VaIndex(va, 2)))
      else Unmapped
  {
    hide VaIndex, IsValid, HasTableOrPageBit, NextTable, TableDescriptor, LowEntry, HighEntry, Representable;
    ZeroIsInvalid();
    TableDescriptorRoundTrip(l1);
    TableDescriptorRoundTrip(b.l2Low);
    TableDescriptorRoundTrip(b.l2High);
    DeviceEntriesAreBlocks(VaIndex(va, 2));
    RamEntriesAreBlocks(VaIndex(va, 2));
    assert TableAt(w, root, va, 0) == At(root);
    assert w[Slot(root, VaIndex(va, 0))] == if VaIndex(va, 0) == i then TableDescriptor(l1) else 0;
    assert TableAt(w, root, va, 1) == if VaIndex(va, 0) == i then At(l1) else Hole(0);
    var d := w[Slot(l1, VaIndex(va, 1))];
    assert TableAt(w, root, va, 2) ==
      if VaIndex(va, 0) != i then Hole(0)
      else if VaIndex(va, 1) == j then At(b.l2Low) else if VaIndex(va, 1) == k then At(b.l2High) else Hole(1);
  }

  lemma NoPagesAtBoot(w: Words, b: BootFrames, va: VirtAddr)
    requires Distinguished(b) && LowTables(w, b) && HighTables(w, b)
    ensures !Look(w, b.l0, va).Page? && !Look(w, b.l0hh, va).Page?
  {
    hide VaIndex, IsValid, OneLink, TwoLinks, BlockTables, Look, LowEntry, HighEntry;
    ThroughLinks(w, b, b.l0, b.l1, 0, 0, 1, va);
    ThroughLinks(w, b, b.l0hh, b.l1hh, 511, 508, 509, va);
  }

  lemma DeviceIndices(p: bv64)
    requires LowBits(p)
    ensures (VaIndex(VirtAddr(p), 0) == 0 && VaIndex(VirtAddr(p), 1) == 0 && 64 <= VaIndex(VirtAddr(p), 2) < 73)
      <==> InDevice(p)
  {
  }

  lemma RamIndices(p: bv64)
    requires LowBits(p)
    ensures (VaIndex(VirtAddr(p), 0) == 0 && VaIndex(VirtAddr(p), 1) == 1 && VaIndex(VirtAddr(p), 2) < 64) <==> InRam(p)
  {
  }

  lemma DeviceBase(p: bv64)
    requires InDevice(p)
    ensures (VaIndex(VirtAddr(p), 2) as bv64) << 21 == BlockBase(p)
  {
  }

  lemma RamBase(p: bv64)
    requires InRam(p)
    ensures 0x4000_0000 + ((VaIndex(VirtAddr(p), 2) as bv64) << 21) == BlockBase(p)
  {
  }

  /** What the low root holds, for every address of the low half. */
  lemma LowRootHolds(w: Words, b: BootFrames, va: VirtAddr)
    requires Distinguished(b) && LowTables(w, b) && Low(va)
    ensures Look(w, b.l0, va) == Meant(va.addr)
  {
    hide VaIndex, IsValid, DeviceBlock, RamBlock, InDevice, InRam, BlockBase, OneLink, TwoLinks, BlockTables, LowBits,
      Representable, Look;
    ThroughLinks(w, b, b.l0, b.l1, 0, 0, 1, va);
    DeviceIndices(va.addr);
    RamIndices(va.addr);
    DeviceEntriesAreBlocks(VaIndex(va, 2));
    RamEntriesAreBlocks(VaIndex(va, 2));
    assert va == VirtAddr(va.addr);
    if InDevice(va.addr) { DeviceBase(va.addr); }
    if InRam(va.addr) { RamBase(va.addr); }
  }

  lemma BlockOutput(p: bv64, d: bv64, addr: bv64)
    requires d & BLOCK_OA_MASK_L2 == BlockBase(p) & BLOCK_OA_MASK_L2 && p < 0x8000_0000 && SameOffset(addr, p)
    ensures BlockOut(d, addr) == p
  {
  }

  lemma DeviceOutput(p: bv64, addr: bv64)
    requires InDevice(p) && SameOffset(addr, p)
    ensures HasAccessFlag(DeviceBlock(BlockBase(p))) && BlockOut(DeviceBlock(BlockBase(p)), addr) == p
  {
    hide DeviceBlock, HasAccessFlag, BlockOut, SameOffset, BlockBase;
    DeviceBlockIsBlock(BlockBase(p));
    BlockOutput(p, DeviceBlock(BlockBase(p)), addr);
  }

  lemma RamOutput(p: bv64, addr: bv64)
    requires InRam(p) && SameOffset(addr, p)
    ensures HasAccessFlag(RamBlock(BlockBase(p))) && BlockOut(RamBlock(BlockBase(p)), addr) == p
  {
    hide RamBlock, HasAccessFlag, BlockOut, SameOffset, BlockBase;
    RamBlockIsBlock(BlockBase(p));
    BlockOutput(p, RamBlock(BlockBase(p)), addr);
  }

  /** The boot descriptors lead to exactly the physical address they are meant for. */
  lemma MeantOutput(p: bv64, va: VirtAddr)
    requires SameOffset(va.addr, p)
    ensures Output(Meant(p), va) == if InDevice(p) || InRam(p) then Some(p) else None
  {
    hide DeviceBlock, RamBlock, BlockBase, HasAccessFlag, InDevice, InRam, BlockOut, SameOffset;
    if InDevice(p) { DeviceOutput(p, va.addr); }
    if InRam(p) { RamOutput(p, va.addr); }
  }

  /** The low root is the identity on the device and RAM windows and maps nothing else. */
  lemma LowRootIsIdentity(w: Words, b: BootFrames, va: VirtAddr)
    requires Distinguished(b) && LowTables(w, b) && Low(va)
    ensures Output(Look(w, b.l0, va), va) == if InDevice(va.addr) || InRam(va.addr) then Some(va.addr) else None
  {
    hide Output, Look, InDevice, InRam, LowTables, Distinguished, LowBits, Meant;
    LowRootHolds(w, b, va);
    assert SameOffset(va.addr, va.addr);
    MeantOutput(va.addr, va);
  }

  // ----- the high half ------------------------------------------------------------------------------

  function HighOf(p: bv64): VirtAddr {
    VirtAddr(0xFFFF_FFFF_0000_0000 | p)
  }

  lemma HighDeviceIndices(x: bv64)
    requires x & 0xFFFF_0000_0000_0000 == 0xFFFF_0000_0000_0000
    ensures (VaIndex(VirtAddr(x), 0) == 511 && VaIndex(VirtAddr(x), 1) == 508 && 64 <= VaIndex(VirtAddr(x), 2) < 73)
      <==> 0xFFFF_FFFF_0800_0000 <= x < 0xFFFF_FFFF_0920_0000
  {
  }

  lemma HighRamIndices(x: bv64)
    requires x & 0xFFFF_0000_0000_0000 == 0xFFFF_0000_0000_0000
    ensures (VaIndex(VirtAddr(x), 0) == 511 && VaIndex(VirtAddr(x), 1) == 509 && VaIndex(VirtAddr(x), 2) < 64)
      <==> 0xFFFF_FFFF_4000_0000 <= x < 0xFFFF_FFFF_4800_0000
  {
  }

  lemma HighDeviceBase(x: bv64)
    requires 0xFFFF_FFFF_0800_0000 <= x < 0xFFFF_FFFF_0920_0000
    ensures (VaIndex(VirtAddr(x), 2) as bv64) << 21 == BlockBase(Below(x))
  {
  }

  lemma HighRamBase(x: bv64)
    requires 0xFFFF_FFFF_4000_0000 <= x < 0xFFFF_FFFF_4800_0000
    ensures 0x4000_0000 + ((VaIndex(VirtAddr(x), 2) as bv64) << 21) == BlockBase(Below(x))
  {
  }

  /** The windows, seen from the high half: subtraction wraps below the offset and leaves them. */
  lemma HighWindows(x: bv64)
    requires x & 0xFFFF_0000_0000_0000 == 0xFFFF_0000_0000_0000
    ensures InDevice(Below(x)) <==> 0xFFFF_FFFF_0800_0000 <= x < 0xFFFF_FFFF_0920_0000
    ensures InRam(Below(x)) <==> 0xFFFF_FFFF_4000_0000 <= x < 0xFFFF_FFFF_4800_0000
  {
  }

  lemma BelowKeepsOffset(x: bv64)
    ensures SameOffset(x, Below(x))
  {
  }

  /** What the high root holds for an address of the high half: the descriptor the low root holds for the physical
      address below the offset. */
  lemma HighRootHolds(w: Words, b: BootFrames, va: VirtAddr)
    requires Distinguished(b) && LowTables(w, b) && HighTables(w, b) && HighHalf(va)
    ensures Look(w, b.l0hh, va) == Meant(Below(va.addr))
  {
    hide VaIndex, IsValid, DeviceBlock, RamBlock, InDevice, InRam, BlockBase, OneLink, TwoLinks, BlockTables,
      Representable, Look, Below;
    ThroughLinks(w, b, b.l0hh, b.l1hh, 511, 508, 509, va);
    HighDeviceIndices(va.addr);
    HighRamIndices(va.addr);
    HighWindows(va.addr);
    DeviceEntriesAreBlocks(VaIndex(va, 2));
    RamEntriesAreBlocks(VaIndex(va, 2));
    assert va == VirtAddr(va.addr);
    if InDevice(Below(va.addr)) { HighDeviceBase(va.addr); }
    if InRam(Below(va.addr)) { HighRamBase(va.addr); }
  }

  /** The high root maps offset plus `p` to `p` on the two windows and maps nothing else. */
  lemma HighRootIsOffsetMap(w: Words, b: BootFrames, va: VirtAddr)
    requires Distinguished(b) && LowTables(w, b) && HighTables(w, b) && HighHalf(va)
    ensures var p := Below(va.addr);
      Output(Look(w, b.l0hh, va), va) == if InDevice(p) || InRam(p) then Some(p) else None
  {
    hide Output, Look, InDevice, InRam, LowTables, HighTables, Distinguished, Meant, Below, SameOffset, HighHalf;
    HighRootHolds(w, b, va);
    BelowKeepsOffset(va.addr);
    MeantOutput(Below(va.addr), va);
  }

  // ----- what the windows grant ----------------------------------------------------------------------------------

  /** The fields of a leaf that say what may be done through it: execute-never at EL0 and EL1, global, shareability,
      access permissions and memory type. */
  function Fields(d: bv64): bv64 {
    d & 0x0060_0000_0000_0BDC
  }

  lemma DeviceFields(pa: bv64)
    ensures Fields(DeviceBlock(pa)) == 0x0060_0000_0000_0000
  {
  }

  lemma RamFields(pa: bv64)
    ensures Fields(RamBlock(pa)) == 0x0040_0000_0000_0304
  {
  }

  /** What both finished roots grant, in bits: the device window is device memory, non-shareable, read-write for EL1 only,
      executable nowhere; the RAM window is normal memory, inner shareable, read-write for EL1 only, executable at EL1;
      both are global. */
  lemma WindowsGrant(w: Words, b: BootFrames, va: VirtAddr)
    requires Distinguished(b) && LowTables(w, b)
    ensures Low(va) && 0x0800_0000 <= va.addr < 0x0920_0000 ==>
      Look(w, b.l0, va).Block? && Fields(Look(w, b.l0, va).desc) == 0x0060_0000_0000_0000
    ensures Low(va) && 0x4000_0000 <= va.addr < 0x4800_0000 ==>
      Look(w, b.l0, va).Block? && Fields(Look(w, b.l0, va).desc) == 0x0040_0000_0000_0304
    ensures HighTables(w, b) && HighHalf(va) && 0xFFFF_FFFF_0800_0000 <= va.addr < 0xFFFF_FFFF_0920_0000 ==>
      Look(w, b.l0hh, va).Block? && Fields(Look(w, b.l0hh, va).desc) == 0x0060_0000_0000_0000
    ensures HighTables(w, b) && HighHalf(va) && 0xFFFF_FFFF_4000_0000 <= va.addr < 0xFFFF_FFFF_4800_0000 ==>
      Look(w, b.l0hh, va).Block? && Fields(Look(w, b.l0hh, va).desc) == 0x0040_0000_0000_0304
  {
    hide Look, DeviceBlock, RamBlock, Fields, LowBits, BlockBase, LowTables, HighTables, Distinguished, Below;
    if Low(va) {
      LowRootHolds(w, b, va);
      DeviceFields(BlockBase(va.addr));
      RamFields(BlockBase(va.addr));
    }
    if HighTables(w, b) && HighHalf(va) {
      HighRootHolds(w, b, va);
      HighWindows(va.addr);
      DeviceFields(BlockBase(Below(va.addr)));
      RamFields(BlockBase(Below(va.addr)));
    }
  }

  // ----- shared tables -------------------------------------------------------------------------------

  /** The six links the boot code writes, whatever else the tables have come to hold. */
  ghost predicate Linked(w: Words, b: BootFrames) {
    && w[Slot(b.l0, 0)] == TableDescriptor(b.l1)
    && w[Slot(b.l1, 0)] == TableDescriptor(b.l2Low) && w[Slot(b.l1, 1)] == TableDescriptor(b.l2High)
    && w[Slot(b.l0hh, 511)] == TableDescriptor(b.l1hh)
    && w[Slot(b.l1hh, 508)] == TableDescriptor(b.l2Low) && w[Slot(b.l1hh, 509)] == TableDescriptor(b.l2High)
  }

  lemma LinkIndices(p: bv64)
    requires p < 0x8000_0000
    ensures VaIndex(VirtAddr(p), 0) == 0 && VaIndex(VirtAddr(p), 1) == (if p < 0x4000_0000 then 0 else 1)
    ensures VaIndex(HighOf(p), 0) == 511 && VaIndex(HighOf(p), 1) == if p < 0x4000_0000 then 508 else 509
  {
  }

  lemma LowerIndices(p: bv64)
    requires p < 0x8000_0000
    ensures VaIndex(VirtAddr(p), 2) == VaIndex(HighOf(p), 2) && VaIndex(VirtAddr(p), 3) == VaIndex(HighOf(p), 3)
  {
  }

  lemma SharedWalk(w: Words, b: BootFrames, p: bv64)
    requires Distinguished(b) && Linked(w, b) && p < 0x8000_0000
    ensures TableAt(w, b.l0, VirtAddr(p), 2) == TableAt(w, b.l0hh, HighOf(p), 2)
  {
    hide VaIndex, IsValid, HasTableOrPageBit, NextTable, TableDescriptor, Representable, HighOf;
    LinkIndices(p);
    TableDescriptorRoundTrip(b.l1);
    TableDescriptorRoundTrip(b.l1hh);
    TableDescriptorRoundTrip(b.l2Low);
    TableDescriptorRoundTrip(b.l2High);
    assert TableAt(w, b.l0, VirtAddr(p), 0) == At(b.l0) && TableAt(w, b.l0hh, HighOf(p), 0) == At(b.l0hh);
    assert TableAt(w, b.l0, VirtAddr(p), 1) == At(b.l1) && TableAt(w, b.l0hh, HighOf(p), 1) == At(b.l1hh);
  }

  /** While the six links stand, the two roots hold the same for every physical address below 2 GiB, whatever the
      shared tables contain. */
  lemma RootsShareTheirTables(w: Words, b: BootFrames, p: bv64)
    requires Distinguished(b) && Linked(w, b) && p < 0x8000_0000
    ensures Look(w, b.l0, VirtAddr(p)) == Look(w, b.l0hh, HighOf(p))
  {
    hide VaIndex, IsValid, HasTableOrPageBit, NextTable, TableDescriptor, Representable, HighOf, Linked, Distinguished;
    SharedWalk(w, b, p);
    LowerIndices(p);
    assert TableAt(w, b.l0, VirtAddr(p), 3) == TableAt(w, b.l0hh, HighOf(p), 3);
  }

  // ----- the walker on the boot tables ------------------------------------------------------------------

  /** The tree of a root that links one table, which links the two shared ones. */
  function BootTree(root: PhysFrame, i: bv9, l1: PhysFrame, j: bv9, k: bv9, b: BootFrames): Tree {
    Tree(root, map[root := 0, l1 := 1, b.l2Low := 2, b.l2High := 2],
         map[l1 := Slot(root, i), b.l2Low := Slot(l1, j), b.l2High := Slot(l1, k)])
  }

  function LowTree(b: BootFrames): Tree {
    BootTree(b.l0, 0, b.l1, 0, 1, b)
  }

  function HighTree(b: BootFrames): Tree {
    BootTree(b.l0hh, 511, b.l1hh, 508, 509, b)
  }

  /** The finished tables are a well-formed tree of four tables below either root. */
  lemma BootTreeIsWellFormed(w: Words, b: BootFrames)
    requires Distinguished(b) && LowTables(w, b)
    ensures WellFormed(w, LowTree(b))
    ensures HighTables(w, b) ==> WellFormed(w, HighTree(b))
  {
    hide OneLink, TwoLinks, BlockTables, WellFormed, BootTree, Representable;
    LinkedTreeIsWellFormed(w, b.l0, 0, b.l1, 0, 1, b);
    if HighTables(w, b) {
      LinkedTreeIsWellFormed(w, b.l0hh, 511, b.l1hh, 508, 509, b);
    }
  }

  /** The links of either root, over the shared tables. */
  ghost predicate RootLinks(w: Words, root: PhysFrame, i: bv9, l1: PhysFrame, j: bv9, k: bv9, b: BootFrames) {
    && root !in {l1, b.l2Low, b.l2High} && l1 !in {b.l2Low, b.l2High} && b.l2Low != b.l2High && j != k
    && Representable(root) && Representable(l1) && Representable(b.l2Low) && Representable(b.l2High)
    && OneLink(w, root, i, l1) && TwoLinks(w, l1, j, k, b) && BlockTables(w, b)
  }

  lemma LinkedTreeIsWellFormed(w: Words, root: PhysFrame, i: bv9, l1: PhysFrame, j: bv9, k: bv9, b: BootFrames)
    requires RootLinks(w, root, i, l1, j, k, b)
    ensures WellFormed(w, BootTree(root, i, l1, j, k, b))
  {
    hide IsValid, HasTableOrPageBit, NextTable, TableDescriptor, LowEntry, HighEntry, Representable,
      OneLink, TwoLinks, BlockTables;
    var t := BootTree(root, i, l1, j, k, b);
    forall s: Slot | Interior(t, s) && IsTable(w[s]) ensures ChildOwned(w, t, s) {
      BootChild(w, root, i, l1, j, k, b, s);
    }
    forall f | f in t.parent ensures ParentOwned(w, t, f) {
      BootParent(w, root, i, l1, j, k, b, f);
    }
  }

  lemma RootEntry(w: Words, table: PhysFrame, i: bv9, next: PhysFrame, k: bv9)
    requires OneLink(w, table, i, next) && Representable(next)
    ensures IsTable(w[Slot(table, k)]) ==> k == i && NextTable(w[Slot(table, k)]) == next
  {
    hide IsValid, HasTableOrPageBit, NextTable, TableDescriptor, Representable;
    ZeroIsInvalid();
    TableDescriptorRoundTrip(next);
  }

  lemma LinkEntry(w: Words, table: PhysFrame, i: bv9, j: bv9, b: BootFrames, k: bv9)
    requires TwoLinks(w, table, i, j, b) && Representable(b.l2Low) && Representable(b.l2High)
    ensures IsTable(w[Slot(table, k)]) ==>
      (k == i && NextTable(w[Slot(table, k)]) == b.l2Low) || (k == j && NextTable(w[Slot(table, k)]) == b.l2High)
  {
    hide IsValid, HasTableOrPageBit, NextTable, TableDescriptor, Representable;
    ZeroIsInvalid();
    TableDescriptorRoundTrip(b.l2Low);
    TableDescriptorRoundTrip(b.l2High);
  }

  lemma BlockEntry(w: Words, b: BootFrames, k: bv9)
    requires BlockTables(w, b)
    ensures !IsTable(w[Slot(b.l2Low, k)]) && !IsTable(w[Slot(b.l2High, k)])
  {
    hide IsTable, LowEntry, HighEntry;
    DeviceEntriesAreBlocks(k);
    RamEntriesAreBlocks(k);
  }

  lemma BootChild(w: Words, root: PhysFrame, i: bv9, l1: PhysFrame, j: bv9, k: bv9, b: BootFrames, s: Slot)
    requires RootLinks(w, root, i, l1, j, k, b)
    requires Interior(BootTree(root, i, l1, j, k, b), s) && IsTable(w[s])
    ensures ChildOwned(w, BootTree(root, i, l1, j, k, b), s)
  {
    hide IsTable, NextTable, Representable, OneLink, TwoLinks, BlockTables;
    assert s == Slot(s.table, s.idx);
    RootEntry(w, root, i, l1, s.idx);
    LinkEntry(w, l1, j, k, b, s.idx);
    BlockEntry(w, b, s.idx);
  }

  lemma BootParent(w: Words, root: PhysFrame, i: bv9, l1: PhysFrame, j: bv9, k: bv9, b: BootFrames, f: PhysFrame)
    requires RootLinks(w, root, i, l1, j, k, b) && f in BootTree(root, i, l1, j, k, b).parent
    ensures ParentOwned(w, BootTree(root, i, l1, j, k, b), f)
  {
    hide IsValid, HasTableOrPageBit, NextTable, TableDescriptor, BlockTables, Representable;
    TableDescriptorRoundTrip(f);
    assert Representable(f);
  }

  /** Through the low boot root `translate` never succeeds; inside the windows `translate` and `unmap` answer
      `BlockMapped` and `map` answers `AlreadyMapped`, and nothing is written and no frame is taken. */
  lemma BootRootThroughWalker(m: Mem, b: BootFrames, va: VirtAddr, pa: PhysFrame, flags: bv32)
    requires Distinguished(b) && LowTables(m.words, b) && Inv(m, LowTree(b)) && Low(va)
    ensures Translate(m.words, b.l0, va)
      == if InDevice(va.addr) || InRam(va.addr) then Err(BlockMapped) else Err(NotMapped)
    ensures (InDevice(va.addr) || InRam(va.addr)) && IsPageAligned(va.addr) ==>
      && Unmap(m, b.l0, va) == (m, Err(BlockMapped))
      && (!Rejected(flags) ==> Walker.Map(m, b.l0, va, pa, flags) == (m, Err(AlreadyMapped)))
  {
    hide Look, InDevice, InRam, LowTables, Distinguished, LowBits, IsPageAligned, Rejected, Map, Unmap, Inv, Moved,
      DeviceBlock, RamBlock, BlockBase;
    LowRootHolds(m.words, b, va);
    UnmapOutcome(m, LowTree(b), va);
    var t' := MapOutcome(m, LowTree(b), va, pa, flags);
  }

  /** A page mapped through the low boot root below 2 GiB appears through the high root as well. */
  lemma LowMappingShowsInHighHalf(m: Mem, t: Tree, b: BootFrames, va: VirtAddr, pa: PhysFrame, flags: bv32)
    requires Distinguished(b) && Linked(m.words, b) && Inv(m, t) && t.root == b.l0
    requires b.l0hh !in AllOf(m, t) && b.l1hh !in AllOf(m, t)
    requires va.addr < 0x8000_0000 && Walker.Map(m, b.l0, va, pa, flags).1.Ok?
    ensures var w' := Walker.Map(m, b.l0, va, pa, flags).0.words;
      Linked(w', b) && Look(w', b.l0hh, HighOf(va.addr)) == Page(Leaf(pa, flags))
  {
    hide Look, Map, Leaf, IsPageAligned, Rejected, TableDescriptor, HighOf, WellFormed, Distinguished;
    var w' := Walker.Map(m, b.l0, va, pa, flags).0.words;
    var t' := MapOutcome(m, t, va, pa, flags);
    LowLinksAreInterior(m.words, t, b);
    LinksStand(m, t, Walker.Map(m, b.l0, va, pa, flags).0, t', b);
    SamePageIffPageNumber(va, va);
    assert va == VirtAddr(va.addr);
    RootsShareTheirTables(w', b, va.addr);
  }

  ghost function AllOf(m: Mem, t: Tree): set<PhysFrame> {
    t.level.Keys + Elements(m.free)
  }

  lemma LowLinksAreInterior(w: Words, t: Tree, b: BootFrames)
    requires Distinguished(b) && Linked(w, b) && WellFormed(w, t) && t.root == b.l0
    ensures Interior(t, Slot(b.l0, 0)) && Interior(t, Slot(b.l1, 0)) && Interior(t, Slot(b.l1, 1))
    ensures IsValid(w[Slot(b.l0, 0)]) && IsValid(w[Slot(b.l1, 0)]) && IsValid(w[Slot(b.l1, 1)])
  {
    hide IsValid, HasTableOrPageBit, NextTable, TableDescriptor, Representable;
    TableDescriptorRoundTrip(b.l1);
    TableDescriptorRoundTrip(b.l2Low);
    TableDescriptorRoundTrip(b.l2High);
    assert ChildOwned(w, t, Slot(b.l0, 0));
  }

  lemma LinksStand(m: Mem, t: Tree, m': Mem, t': Tree, b: BootFrames)
    requires Linked(m.words, b) && Moved(m, t, m', t')
    requires Interior(t, Slot(b.l0, 0)) && Interior(t, Slot(b.l1, 0)) && Interior(t, Slot(b.l1, 1))
    requires IsValid(m.words[Slot(b.l0, 0)]) && IsValid(m.words[Slot(b.l1, 0)]) && IsValid(m.words[Slot(b.l1, 1)])
    requires b.l0hh !in AllOf(m, t) && b.l1hh !in AllOf(m, t)
    ensures Linked(m'.words, b)
  {
    hide IsValid, TableDescriptor;
    assert forall f | f in Elements(m.free[|m'.free|..]) :: f in m.free;
  }

  // ----- blocks over whole runs --------------------------------------------------------------------------

  function EndOfRun(m: Mem, root: PhysFrame, ops: seq<Op>): Mem
    decreases ops
  {
    if ops == [] then m else EndOfRun(TableStep(m, root, ops[0]).0, root, ops[1..])
  }

  /** Over any run, an address a block covers keeps that block. */
  lemma {:induction false} BlocksSurviveRuns(m: Mem, t: Tree, ops: seq<Op>, va: VirtAddr)
    requires Inv(m, t) && Look(m.words, t.root, va).Block?
    ensures Look(EndOfRun(m, t.root, ops).words, t.root, va) == Look(m.words, t.root, va)
    decreases ops
  {
    hide Inv, Look, Map, Unmap, Moved, IsPageAligned, Rejected, Missing, LeafFrame, Leaf, Translate, SamePage,
      PageNumber;
    if ops != [] {
      var m' := TableStep(m, t.root, ops[0]).0;
      var t' := t;
      match ops[0] {
        case MapOp(vb, pa, flags) =>
          t' := MapOutcome(m, t, vb, pa, flags);
          SamePageKeepsLook(m.words, t.root, vb, va);
        case UnmapOp(vb) =>
          UnmapOutcome(m, t, vb);
          SamePageKeepsLook(m.words, t.root, vb, va);
        case TranslateOp(_) =>
      }
      BlocksSurviveRuns(m', t', ops[1..], va);
    }
  }

  lemma SamePageKeepsLook(w: Words, root: PhysFrame, va: VirtAddr, vb: VirtAddr)
    ensures SamePage(va, vb) ==> Look(w, root, va) == Look(w, root, vb)
  {
    if SamePage(va, vb) { SamePageIsEqualLook(w, root, va, vb); }
  }
}
