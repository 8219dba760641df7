/** The boot-time tables: two roots, a low identity map and a high-half map, over the same two level-2 tables. */
module Bootstrap {
  import opened Vmsav8
  import opened PageTables
  import opened Walker
  import opened FlatModel
  import QemuVirtMmu

  /** The six frames the linker sets aside. */
  datatype BootFrames = BootFrames(l0: PhysFrame, l1: PhysFrame, l2Low: PhysFrame, l2High: PhysFrame,
                                   l0hh: PhysFrame, l1hh: PhysFrame)

  /** The linker's and the boot loader's part: six different page-aligned frames. */
  predicate Distinguished(b: BootFrames) {
    && b.l0 !in {b.l1, b.l2Low, b.l2High, b.l0hh, b.l1hh} && b.l1 !in {b.l2Low, b.l2High, b.l0hh, b.l1hh}
    && b.l2Low !in {b.l2High, b.l0hh, b.l1hh} && b.l2High !in {b.l0hh, b.l1hh} && b.l0hh != b.l1hh
    && Representable(b.l0) && Representable(b.l1) && Representable(b.l2Low) && Representable(b.l2High)
    && Representable(b.l0hh) && Representable(b.l1hh)
  }

  const DEVICE_FLAGS: bv32 := DEVICE | WRITE | GLOBAL
  const RAM_FLAGS: bv32 := WRITE | EXECUTE | GLOBAL

  function DeviceBlock(pa: bv64): bv64 {
    BlockDescriptor(pa, FlagsToDescriptorBits(DEVICE_FLAGS))
  }

  function RamBlock(pa: bv64): bv64 {
    BlockDescriptor(pa, FlagsToDescriptorBits(RAM_FLAGS))
  }

  /** Entry `i` of the device level-2 table: blocks 64 to 72 map themselves. */
  function LowEntry(i: bv9): bv64 {
    if 64 <= i < 73 then DeviceBlock((i as bv64) << 21) else 0
  }

  /** Entry `i` of the RAM level-2 table: the first 64 blocks map RAM from 1 GiB up. */
  function HighEntry(i: bv9): bv64 {
    if i < 64 then RamBlock(0x4000_0000 + ((i as bv64) << 21)) else 0
  }

  /** The table links `next` at entry `i` and nothing else. */
  ghost predicate OneLink(w: Words, table: PhysFrame, i: bv9, next: PhysFrame) {
    forall k: bv9 :: w[Slot(table, k)] == if k == i then TableDescriptor(next) else 0
  }

  /** The table links the device table at entry `i`, the RAM table at entry `j`, and nothing else. */
  ghost predicate TwoLinks(w: Words, table: PhysFrame, i: bv9, j: bv9, b: BootFrames) {
    forall k: bv9 :: w[Slot(table, k)]
      == if k == i then TableDescriptor(b.l2Low) else if k == j then TableDescriptor(b.l2High) else 0
  }

  ghost predicate BlockTables(w: Words, b: BootFrames) {
    forall i: bv9 :: w[Slot(b.l2Low, i)] == LowEntry(i) && w[Slot(b.l2High, i)] == HighEntry(i)
  }

  ghost predicate LowTables(w: Words, b: BootFrames) {
    OneLink(w, b.l0, 0, b.l1) && TwoLinks(w, b.l1, 0, 1, b) && BlockTables(w, b)
  }

  ghost predicate HighTables(w: Words, b: BootFrames) {
    OneLink(w, b.l0hh, 511, b.l1hh) && TwoLinks(w, b.l1hh, 508, 509, b)
  }

  ghost predicate SameTable(w: Words, w': Words, table: PhysFrame) {
    forall s: Slot | s.table == table :: w'[s] == w[s]
  }

  lemma LinkOne(w: Words, table: PhysFrame, i: bv9, next: PhysFrame)
    requires Zeroed(w, table)
    ensures OneLink(w[Slot(table, i) := TableDescriptor(next)], table, i, next)
  {
    hide TableDescriptor;
  }

  lemma LinkTwo(w: Words, table: PhysFrame, i: bv9, j: bv9, b: BootFrames)
    requires Zeroed(w, table) && i != j
    ensures TwoLinks(w[Slot(table, i) := TableDescriptor(b.l2Low)][Slot(table, j) := TableDescriptor(b.l2High)],
                     table, i, j, b)
  {
    hide TableDescriptor;
  }

  lemma LinksStay(w: Words, w': Words, table: PhysFrame)
    requires SameTable(w, w', table)
    ensures Zeroed(w, table) ==> Zeroed(w', table)
    ensures forall i: bv9, next: PhysFrame :: OneLink(w, table, i, next) ==> OneLink(w', table, i, next)
    ensures forall i: bv9, j: bv9, b: BootFrames :: TwoLinks(w, table, i, j, b) ==> TwoLinks(w', table, i, j, b)
  {
    hide TableDescriptor;
  }

  const KERNEL_HIGH_HALF_OFFSET: bv64 := 0xFFFF_FFFF_0000_0000

  /** The first `n` entries of the table are done, the others still zero. */
  ghost predicate DeviceFilled(w: Words, table: PhysFrame, n: bv64) {
    forall i: bv9 :: w[Slot(table, i)] == if i as bv64 < n then LowEntry(i) else 0
  }

  ghost predicate RamFilled(w: Words, table: PhysFrame, n: bv64) {
    forall i: bv9 :: w[Slot(table, i)] == if i as bv64 < n then HighEntry(i) else 0
  }

  lemma NextEntry(n: bv64, i: bv9)
    requires n < 512
    ensures i as bv64 < n + 1 <==> i as bv64 < n || i == n as bv9
    ensures (n as bv9) as bv64 == n
  {
  }

  lemma DeviceEntryWritten(w: Words, table: PhysFrame, n: bv64)
    requires DeviceFilled(w, table, n) && 64 <= n < 73
    ensures DeviceFilled(w[Slot(table, n as bv9) := DeviceBlock(n << 21)], table, n + 1)
  {
    hide DeviceBlock, LowEntry;
    var w': Words := w[Slot(table, n as bv9) := DeviceBlock(n << 21)];
    DeviceEntryAt(n);
    forall i: bv9 ensures w'[Slot(table, i)] == if i as bv64 < n + 1 then LowEntry(i) else 0 {
      NextEntry(n, i);
    }
  }

  lemma DeviceEntryAt(n: bv64)
    requires 64 <= n < 73
    ensures LowEntry(n as bv9) == DeviceBlock(n << 21)
  {
    hide DeviceBlock;
  }

  lemma RamEntryWritten(w: Words, table: PhysFrame, n: bv64)
    requires RamFilled(w, table, n) && n < 64
    ensures RamFilled(w[Slot(table, n as bv9) := RamBlock(0x4000_0000 + (n << 21))], table, n + 1)
  {
    hide RamBlock, HighEntry;
    var w': Words := w[Slot(table, n as bv9) := RamBlock(0x4000_0000 + (n << 21))];
    RamEntryAt(n);
    forall i: bv9 ensures w'[Slot(table, i)] == if i as bv64 < n + 1 then HighEntry(i) else 0 {
      NextEntry(n, i);
    }
  }

  lemma RamEntryAt(n: bv64)
    requires n < 64
    ensures HighEntry(n as bv9) == RamBlock(0x4000_0000 + (n << 21))
  {
    hide RamBlock;
  }

  lemma FilledEnds(w: Words, low: PhysFrame, high: PhysFrame)
    ensures Zeroed(w, low) ==> DeviceFilled(w, low, 64)
    ensures Zeroed(w, high) ==> RamFilled(w, high, 0)
    ensures DeviceFilled(w, low, 73) ==> forall i: bv9 :: w[Slot(low, i)] == LowEntry(i)
    ensures RamFilled(w, high, 64) ==> forall i: bv9 :: w[Slot(high, i)] == HighEntry(i)
  {
    hide DeviceBlock, RamBlock;
  }

  lemma Stride(n: bv64)
    requires n < 512
    ensures (n << 21) + 0x20_0000 == (n + 1) << 21
  {
  }

  /** The nine 2 MiB device blocks of the low level-2 table. */
  method FillDeviceBlocks(mmu: QemuVirtMmu.Mmu, l2Low: PhysFrame)
    requires Zeroed(mmu.words, l2Low)
    modifies mmu`words
    ensures DeviceFilled(mmu.words, l2Low, 73)
    ensures OnlyTables(old(mmu.words), mmu.words, {l2Low})
  {
    hide DeviceBlock, LowEntry, DeviceFilled;
    var va: bv64 := 0x0800_0000;
    var idx: bv64 := va >> 21;
    FilledEnds(mmu.words, l2Low, l2Low);
    while idx < 0x0920_0000 >> 21
      invariant 64 <= idx <= 73 && va == idx << 21
      invariant DeviceFilled(mmu.words, l2Low, idx)
      invariant OnlyTables(old(mmu.words), mmu.words, {l2Low})
      decreases 73 - idx
    {
      DeviceEntryWritten(mmu.words, l2Low, idx);
      Stride(idx);
      mmu.WriteVolatile(Slot(l2Low, idx as bv9), DeviceBlock(va));
      va := va + 0x20_0000;
      idx := idx + 1;
    }
  }

  /** The sixty-four 2 MiB RAM blocks of the high level-2 table. */
  method FillRamBlocks(mmu: QemuVirtMmu.Mmu, l2High: PhysFrame)
    requires Zeroed(mmu.words, l2High)
    modifies mmu`words
    ensures RamFilled(mmu.words, l2High, 64)
    ensures OnlyTables(old(mmu.words), mmu.words, {l2High})
  {
    hide RamBlock, HighEntry, RamFilled;
    var idx: bv64 := 0;
    var pa: bv64 := 0x4000_0000;
    FilledEnds(mmu.words, l2High, l2High);
    while idx < 512 / 8
      invariant idx <= 64 && pa == 0x4000_0000 + (idx << 21)
      invariant RamFilled(mmu.words, l2High, idx)
      invariant OnlyTables(old(mmu.words), mmu.words, {l2High})
      decreases 64 - idx
    {
      RamEntryWritten(mmu.words, l2High, idx);
      Stride(idx);
      mmu.WriteVolatile(Slot(l2High, idx as bv9), RamBlock(pa));
      pa := pa + 0x20_0000;
      idx := idx + 1;
    }
  }

  ghost predicate OnlyTables(w: Words, w': Words, tables: set<PhysFrame>) {
    forall s: Slot | s.table !in tables :: w'[s] == w[s]
  }

  lemma LowLinksBuilt(w: Words, b: BootFrames)
    requires Distinguished(b) && Zeroed(w, b.l0) && Zeroed(w, b.l1)
    ensures var w': Words := w[Slot(b.l0, 0) := TableDescriptor(b.l1)][Slot(b.l1, 0) := TableDescriptor(b.l2Low)]
                              [Slot(b.l1, 1) := TableDescriptor(b.l2High)];
      OneLink(w', b.l0, 0, b.l1) && TwoLinks(w', b.l1, 0, 1, b) && OnlyTables(w, w', {b.l0, b.l1})
  {
    hide TableDescriptor, Representable, OneLink, TwoLinks, Zeroed;
    var w1: Words := w[Slot(b.l0, 0) := TableDescriptor(b.l1)];
    var w': Words := w1[Slot(b.l1, 0) := TableDescriptor(b.l2Low)][Slot(b.l1, 1) := TableDescriptor(b.l2High)];
    LinkOne(w, b.l0, 0, b.l1);
    LinksStay(w, w1, b.l1);
    LinkTwo(w1, b.l1, 0, 1, b);
    LinksStay(w1, w', b.l0);
  }

  lemma HighLinksBuilt(w: Words, b: BootFrames)
    requires Distinguished(b) && Zeroed(w, b.l0hh) && Zeroed(w, b.l1hh)
    ensures var w': Words := w[Slot(b.l0hh, 511) := TableDescriptor(b.l1hh)]
                              [Slot(b.l1hh, 508) := TableDescriptor(b.l2Low)]
                              [Slot(b.l1hh, 509) := TableDescriptor(b.l2High)];
      HighTables(w', b) && OnlyTables(w, w', {b.l0hh, b.l1hh})
  {
    hide TableDescriptor, Representable, OneLink, TwoLinks, Zeroed;
    var w1: Words := w[Slot(b.l0hh, 511) := TableDescriptor(b.l1hh)];
    var w': Words := w1[Slot(b.l1hh, 508) := TableDescriptor(b.l2Low)][Slot(b.l1hh, 509) := TableDescriptor(b.l2High)];
    LinkOne(w, b.l0hh, 511, b.l1hh);
    LinksStay(w, w1, b.l1hh);
    LinkTwo(w1, b.l1hh, 508, 509, b);
    LinksStay(w1, w', b.l0hh);
  }

  lemma TablesStay(w: Words, w': Words, tables: set<PhysFrame>, b: BootFrames)
    requires OnlyTables(w, w', tables)
    ensures b.l0 !in tables && OneLink(w, b.l0, 0, b.l1) ==> OneLink(w', b.l0, 0, b.l1)
    ensures b.l1 !in tables && TwoLinks(w, b.l1, 0, 1, b) ==> TwoLinks(w', b.l1, 0, 1, b)
    ensures b.l2Low !in tables && b.l2High !in tables && BlockTables(w, b) ==> BlockTables(w', b)
    ensures b.l2Low !in tables && Zeroed(w, b.l2Low) ==> Zeroed(w', b.l2Low)
    ensures b.l2High !in tables && Zeroed(w, b.l2High) ==> Zeroed(w', b.l2High)
    ensures b.l2Low !in tables && DeviceFilled(w, b.l2Low, 73) ==> DeviceFilled(w', b.l2Low, 73)
  {
    hide TableDescriptor, LowEntry, HighEntry;
  }

  lemma OnlyTablesTwice(w: Words, w1: Words, w2: Words, first: set<PhysFrame>, second: set<PhysFrame>)
    requires OnlyTables(w, w1, first) && OnlyTables(w1, w2, second)
    ensures OnlyTables(w, w2, first + second)
  {
  }

  lemma BlocksBuilt(w: Words, b: BootFrames)
    requires DeviceFilled(w, b.l2Low, 73) && RamFilled(w, b.l2High, 64)
    ensures BlockTables(w, b)
  {
    hide LowEntry, HighEntry, DeviceFilled, RamFilled;
    FilledEnds(w, b.l2Low, b.l2High);
  }

  /** L0[0] to L1, L1[0] to the device table, L1[1] to the RAM table. */
  method LinkLowTables(mmu: QemuVirtMmu.Mmu, b: BootFrames)
    requires Distinguished(b) && Zeroed(mmu.words, b.l0) && Zeroed(mmu.words, b.l1)
    modifies mmu`words
    ensures OneLink(mmu.words, b.l0, 0, b.l1) && TwoLinks(mmu.words, b.l1, 0, 1, b)
    ensures OnlyTables(old(mmu.words), mmu.words, {b.l0, b.l1})
  {
    hide TableDescriptor, OneLink, TwoLinks, Zeroed, OnlyTables, Distinguished;
    LowLinksBuilt(mmu.words, b);
    mmu.WriteVolatile(Slot(b.l0, 0), TableDescriptor(b.l1));
    mmu.WriteVolatile(Slot(b.l1, 0), TableDescriptor(b.l2Low));
    mmu.WriteVolatile(Slot(b.l1, 1), TableDescriptor(b.l2High));
  }

  method MmuBootstrap(mmu: QemuVirtMmu.Mmu, b: BootFrames)
    requires Distinguished(b)
    requires Zeroed(mmu.words, b.l0) && Zeroed(mmu.words, b.l1) && Zeroed(mmu.words, b.l2Low)
      && Zeroed(mmu.words, b.l2High)
    modifies mmu`words, mmu`ttbr0, mmu`epd0, mmu`ttbr1, mmu`epd1, mmu`tlb
    ensures LowTables(mmu.words, b)
    ensures OnlyTables(old(mmu.words), mmu.words, {b.l0, b.l1, b.l2Low, b.l2High})
    ensures mmu.ttbr0 == b.l0 && !mmu.epd0 && mmu.ttbr1 == PhysFrame(0) && mmu.epd1 && mmu.tlb == map[]
  {
    hide TableDescriptor, BlockTables, DeviceFilled, RamFilled, Representable, OneLink, TwoLinks, Zeroed, OnlyTables,
      Distinguished, LowTables;
    ghost var w0 := mmu.words;
    LinkLowTables(mmu, b);
    ghost var w1 := mmu.words;
    TablesAreApart(b);
    TablesStay(w0, w1, {b.l0, b.l1}, b);
    FillDeviceBlocks(mmu, b.l2Low);
    ghost var w2 := mmu.words;
    TablesStay(w1, w2, {b.l2Low}, b);
    FillRamBlocks(mmu, b.l2High);
    LowTablesBuilt(w0, w1, w2, mmu.words, b);
    mmu.ttbr0 := b.l0;
    mmu.epd0 := false;
    mmu.ttbr1 := PhysFrame(0);
    mmu.epd1 := true;
    mmu.tlb := map[];
  }

  lemma TablesAreApart(b: BootFrames)
    requires Distinguished(b)
    ensures b.l2Low !in {b.l0, b.l1} && b.l2High !in {b.l0, b.l1} && b.l2High !in {b.l2Low}
    ensures b.l0 !in {b.l2Low} && b.l1 !in {b.l2Low}
    ensures b.l0 !in {b.l2High} && b.l1 !in {b.l2High} && b.l2Low !in {b.l2High}
  {
    hide Representable;
  }

  lemma LowTablesBuilt(w0: Words, w1: Words, w2: Words, w3: Words, b: BootFrames)
    requires Distinguished(b)
    requires OneLink(w1, b.l0, 0, b.l1) && TwoLinks(w1, b.l1, 0, 1, b) && OnlyTables(w0, w1, {b.l0, b.l1})
    requires DeviceFilled(w2, b.l2Low, 73) && OnlyTables(w1, w2, {b.l2Low})
    requires RamFilled(w3, b.l2High, 64) && OnlyTables(w2, w3, {b.l2High})
    ensures LowTables(w3, b) && OnlyTables(w0, w3, {b.l0, b.l1, b.l2Low, b.l2High})
  {
    hide TableDescriptor, BlockTables, DeviceFilled, RamFilled, Representable, OneLink, TwoLinks, Zeroed, OnlyTables,
      Distinguished;
    TablesAreApart(b);
    TablesStay(w1, w2, {b.l2Low}, b);
    TablesStay(w2, w3, {b.l2High}, b);
    BlocksBuilt(w3, b);
    OnlyTablesTwice(w0, w1, w2, {b.l0, b.l1}, {b.l2Low});
    OnlyTablesTwice(w0, w2, w3, {b.l0, b.l1} + {b.l2Low}, {b.l2High});
    assert {b.l0, b.l1} + {b.l2Low} + {b.l2High} == {b.l0, b.l1, b.l2Low, b.l2High};
  }

  method HighHalfActivate(mmu: QemuVirtMmu.Mmu, b: BootFrames)
    requires Distinguished(b) && LowTables(mmu.words, b)
    requires Zeroed(mmu.words, b.l0hh) && Zeroed(mmu.words, b.l1hh)
    modifies mmu`words, mmu`ttbr1, mmu`epd1
    ensures LowTables(mmu.words, b) && HighTables(mmu.words, b)
    ensures OnlyTables(old(mmu.words), mmu.words, {b.l0hh, b.l1hh})
    ensures mmu.ttbr1 == b.l0hh && !mmu.epd1
  {
    hide TableDescriptor, BlockTables, Representable, OneLink, TwoLinks, Zeroed, VaIndex;
    ghost var w0 := mmu.words;
    var vaDev := KERNEL_HIGH_HALF_OFFSET + 0x0800_0000;
    var vaRam := KERNEL_HIGH_HALF_OFFSET + 0x4000_0000;
    var l0Idx := VaIndex(VirtAddr(vaRam), 0);
    var l1IdxDev := VaIndex(VirtAddr(vaDev), 1);
    var l1IdxRam := VaIndex(VirtAddr(vaRam), 1);
    HighIndices();
    HighLinksBuilt(w0, b);
    mmu.WriteVolatile(Slot(b.l0hh, l0Idx), TableDescriptor(b.l1hh));
    mmu.WriteVolatile(Slot(b.l1hh, l1IdxDev), TableDescriptor(b.l2Low));
    mmu.WriteVolatile(Slot(b.l1hh, l1IdxRam), TableDescriptor(b.l2High));
    TablesStay(w0, mmu.words, {b.l0hh, b.l1hh}, b);
    mmu.ttbr1 := b.l0hh;
    mmu.epd1 := false;
  }

  lemma HighIndices()
    ensures VaIndex(VirtAddr(KERNEL_HIGH_HALF_OFFSET + 0x4000_0000), 0) == 511
    ensures VaIndex(VirtAddr(KERNEL_HIGH_HALF_OFFSET + 0x0800_0000), 1) == 508
    ensures VaIndex(VirtAddr(KERNEL_HIGH_HALF_OFFSET + 0x4000_0000), 1) == 509
  {
  }
}
