/** The high half over the life of the system: which maps through the low boot root reach it, and that user spaces never
    do. */
module KernelHalf {
  import opened Options
  import opened Vmsav8
  import opened PageTables
  import opened Walker
  import opened WalkerProperties
  import opened FlatModel
  import opened AddressSpaces
  import opened AddressSpaceRuns
  import opened Bootstrap
  import opened BootstrapMaps

  // ----- maps through the low boot root --------------------------------------------------------------------------

  /** The page lies below 2 GiB. */
  predicate BelowTwoGiB(page: PageNo) {
    page.bits < 0x8_0000
  }

  /** The high root translates every address of the high half as before. */
  ghost predicate HighHalfStays(w: Words, w': Words, b: BootFrames) {
    forall va: VirtAddr | HighHalf(va) :: Look(w', b.l0hh, va) == Look(w, b.l0hh, va)
  }

  /** Through entries 508 and 509 the high half shows a physical address below 2 GiB. */
  lemma HighIndicesMean(x: bv64)
    requires x & 0xFFFF_0000_0000_0000 == 0xFFFF_0000_0000_0000
    requires VaIndex(VirtAddr(x), 0) == 511 && (VaIndex(VirtAddr(x), 1) == 508 || VaIndex(VirtAddr(x), 1) == 509)
    ensures Below(x) < 0x8000_0000 && HighOf(Below(x)) == VirtAddr(x)
  {
  }

  lemma LowPageNumber(p: bv64)
    requires p < 0x8000_0000
    ensures BelowTwoGiB(PageNumber(VirtAddr(p))) && HighHalf(HighOf(p))
  {
  }

  lemma PageBelowTwoGiB(addr: bv64)
    requires PageBits(addr) < 0x8_0000
    ensures LowPart(addr) < 0x8000_0000
  {
  }

  /** The two tables only the high root uses are the same in both memories. */
  ghost predicate HighTablesStay(w: Words, w': Words, b: BootFrames) {
    SameTable(w, w', b.l0hh) && SameTable(w, w', b.l1hh)
  }

  /** Outside entries 508 and 509 of the one level-1 table, the high root holds nothing. */
  lemma ElsewhereUnmapped(w: Words, b: BootFrames, va: VirtAddr)
    requires Distinguished(b) && HighTables(w, b)
    requires VaIndex(va, 0) != 511 || (VaIndex(va, 1) != 508 && VaIndex(va, 1) != 509)
    ensures Look(w, b.l0hh, va) == Unmapped
  {
    hide VaIndex, IsValid, HasTableOrPageBit, NextTable, TableDescriptor, Representable;
    ZeroIsInvalid();
    TableDescriptorRoundTrip(b.l1hh);
    assert TableAt(w, b.l0hh, va, 0) == At(b.l0hh);
    assert w[Slot(b.l0hh, VaIndex(va, 0))] == if VaIndex(va, 0) == 511 then TableDescriptor(b.l1hh) else 0;
    assert TableAt(w, b.l0hh, va, 1) == if VaIndex(va, 0) == 511 then At(b.l1hh) else Hole(0);
    assert VaIndex(va, 0) == 511 ==> w[Slot(b.l1hh, VaIndex(va, 1))] == 0;
    assert TableAt(w, b.l0hh, va, 2) == if VaIndex(va, 0) == 511 then Hole(1) else Hole(0);
  }

  /** What a map through the low boot root does not touch. */
  lemma HighTablesSurvive(m: Mem, t: Tree, m': Mem, t': Tree, b: BootFrames)
    requires Moved(m, t, m', t') && HighTables(m.words, b)
    requires b.l0hh !in AllOf(m, t) && b.l1hh !in AllOf(m, t)
    ensures HighTables(m'.words, b)
  {
    hide LinksKept, TableDescriptor, OneLink, TwoLinks;
    assert forall f | f in Elements(m.free[|m'.free|..]) :: f in m.free;
    assert HighTablesStay(m.words, m'.words, b);
    LinksStay(m.words, m'.words, b.l0hh);
    LinksStay(m.words, m'.words, b.l1hh);
  }

  lemma HighAddressStays(w: Words, w': Words, b: BootFrames, va: VirtAddr, seen: Seen, vb: VirtAddr)
    requires Distinguished(b) && Linked(w, b) && Linked(w', b) && HighTables(w, b) && HighTables(w', b)
    requires Updated(w, w', b.l0, va, seen) && !BelowTwoGiB(PageNumber(va)) && HighHalf(vb)
    ensures Look(w', b.l0hh, vb) == Look(w, b.l0hh, vb)
  {
    hide Look, VaIndex, Linked, HighTables, Distinguished, BelowTwoGiB, PageNumber, Below, HighOf, SamePage;
    assert vb == VirtAddr(vb.addr);
    if VaIndex(vb, 0) == 511 && (VaIndex(vb, 1) == 508 || VaIndex(vb, 1) == 509) {
      var p := Below(vb.addr);
      HighIndicesMean(vb.addr);
      RootsShareTheirTables(w, b, p);
      RootsShareTheirTables(w', b, p);
      LowPageNumber(p);
      SamePageIffPageNumber(va, VirtAddr(p));
    } else {
      ElsewhereUnmapped(w, b, vb);
      ElsewhereUnmapped(w', b, vb);
    }
  }

  /** A successful map through the low boot root, of any address, leaves the high half alone exactly when its page lies
      at or above 2 GiB; below, the page shows at its place in the high half. */
  lemma HighHalfStaysIff(m: Mem, t: Tree, b: BootFrames, va: VirtAddr, pa: PhysFrame, flags: bv32)
    requires Distinguished(b) && Linked(m.words, b) && HighTables(m.words, b) && Inv(m, t) && t.root == b.l0
    requires b.l0hh !in AllOf(m, t) && b.l1hh !in AllOf(m, t)
    requires Walker.Map(m, b.l0, va, pa, flags).1.Ok?
    ensures var w' := Walker.Map(m, b.l0, va, pa, flags).0.words;
      && Linked(w', b) && HighTables(w', b)
      && (HighHalfStays(m.words, w', b) <==> !BelowTwoGiB(PageNumber(va)))
      && (BelowTwoGiB(PageNumber(va)) ==>
            Look(m.words, b.l0hh, HighOf(LowPart(va.addr))) == Unmapped
            && Look(w', b.l0hh, HighOf(LowPart(va.addr))) == Page(Leaf(pa, flags)))
  {
    hide Look, Map, Leaf, IsPageAligned, Rejected, TableDescriptor, HighOf, WellFormed, Distinguished, Missing, Stocked,
      BelowTwoGiB, PageNumber, LinksKept, HighTables, Linked, SamePage, HighHalf, LowPart;
    var (m', r) := Walker.Map(m, b.l0, va, pa, flags);
    var t' := MapOutcome(m, t, va, pa, flags);
    LowLinksAreInterior(m.words, t, b);
    LinksStand(m, t, m', t', b);
    HighTablesSurvive(m, t, m', t', b);
    if BelowTwoGiB(PageNumber(va)) {
      ShowsAt(m.words, m'.words, b, va, Page(Leaf(pa, flags)));
    } else {
      forall vb: VirtAddr | HighHalf(vb) ensures Look(m'.words, b.l0hh, vb) == Look(m.words, b.l0hh, vb) {
        HighAddressStays(m.words, m'.words, b, va, Page(Leaf(pa, flags)), vb);
      }
    }
  }

  lemma ShowsAt(w: Words, w': Words, b: BootFrames, va: VirtAddr, seen: Seen)
    requires Distinguished(b) && Linked(w, b) && Linked(w', b) && BelowTwoGiB(PageNumber(va))
    requires Updated(w, w', b.l0, va, seen)
    ensures var high := HighOf(LowPart(va.addr));
      HighHalf(high) && Look(w', b.l0hh, high) == seen && Look(w, b.l0hh, high) == Look(w, b.l0, va)
  {
    hide Look, Linked, Distinguished, HighOf, SamePage, HighHalf, LowPart, PageBits;
    var p := LowPart(va.addr);
    PageBelowTwoGiB(va.addr);
    LowPageNumber(p);
    LowPartKeepsPage(va.addr);
    SamePageIffPageNumber(va, VirtAddr(p));
    SamePageIsEqualLook(w, b.l0, va, VirtAddr(p));
    RootsShareTheirTables(w, b, p);
    RootsShareTheirTables(w', b, p);
  }

  /** Straight after boot, mapping the page at 4 KiB through the low root takes one frame, succeeds, and shows in the
      high half. */
  lemma BootPageShowsHigh(m: Mem, b: BootFrames, pa: PhysFrame)
    requires Distinguished(b) && LowTables(m.words, b) && HighTables(m.words, b) && Inv(m, LowTree(b)) && m.free != []
    requires b.l0hh !in AllOf(m, LowTree(b)) && b.l1hh !in AllOf(m, LowTree(b))
    ensures var (m', r) := Walker.Map(m, b.l0, VirtAddr(0x1000), pa, WRITE);
      r.Ok? && |m'.free| == |m.free| - 1 && !HighHalfStays(m.words, m'.words, b)
  {
    hide Look, Map, Leaf, Inv, Moved, TableDescriptor, HighOf, WellFormed, Distinguished, OneLink, TwoLinks, BlockTables,
      HighHalfStays, BelowTwoGiB, PageNumber, AllOf, Missing, VaIndex, LowTables, HighTables, TableAt;
    var va := VirtAddr(0x1000);
    FirstPageFacts();
    FirstPageIsHole(m.words, b);
    var _ := MapOutcome(m, LowTree(b), va, pa, WRITE);
    TablesAreLinked(m.words, b);
    HighHalfStaysIff(m, LowTree(b), b, va, pa, WRITE);
  }

  lemma FirstPageFacts()
    ensures var va := VirtAddr(0x1000);
      && IsPageAligned(va.addr) && !Rejected(WRITE) && BelowTwoGiB(PageNumber(va))
      && VaIndex(va, 0) == 0 && VaIndex(va, 1) == 0 && VaIndex(va, 2) == 0
  {
  }

  lemma TablesAreLinked(w: Words, b: BootFrames)
    requires LowTables(w, b) && HighTables(w, b)
    ensures Linked(w, b)
  {
    hide TableDescriptor, BlockTables;
  }

  lemma FirstPageIsHole(w: Words, b: BootFrames)
    requires Distinguished(b) && LowTables(w, b)
    ensures Look(w, b.l0, VirtAddr(0x1000)) == Unmapped && Missing(w, b.l0, VirtAddr(0x1000)) == 1
  {
    hide VaIndex, IsValid, HasTableOrPageBit, NextTable, TableDescriptor, Representable, DeviceBlock, RamBlock;
    var va := VirtAddr(0x1000);
    FirstPageFacts();
    ZeroIsInvalid();
    TableDescriptorRoundTrip(b.l1);
    TableDescriptorRoundTrip(b.l2Low);
    assert TableAt(w, b.l0, va, 0) == At(b.l0);
    assert TableAt(w, b.l0, va, 1) == At(b.l1);
    assert TableAt(w, b.l0, va, 2) == At(b.l2Low);
    assert w[Slot(b.l2Low, VaIndex(va, 2))] == 0;
  }

  // ----- user spaces ---------------------------------------------------------------------------------------------

  /** Once the high boot tree is one of the spaces and nothing operates on it, no legal run of maps, unmaps, fills,
      flushes, activations and new spaces changes what the kernel half translates: offset plus `p` to `p` on the two
      windows, and nothing else. */
  lemma UserSpacesKeepKernelHalf(world: World, trees: Ledger, events: seq<Event>, b: BootFrames, va: VirtAddr)
    requires Good(world, trees) && Stocked(world.m)
    requires Legal(world, trees.Keys, AllFrames(world.m, trees), events)
    requires Distinguished(b) && LowTables(world.m.words, b) && HighTables(world.m.words, b)
    requires b.l0hh in trees && trees[b.l0hh] == HighTree(b)
    requires forall event | event in events :: !OperatesOn(event, b.l0hh)
    requires HighHalf(va)
    ensures var w' := Run(world, events).m.words;
      && Look(w', b.l0hh, va) == Meant(Below(va.addr))
      && Output(Look(w', b.l0hh, va), va)
         == if InDevice(Below(va.addr)) || InRam(Below(va.addr)) then Some(Below(va.addr)) else None
  {
    hide Good, Stocked, Legal, AllFrames, Run, Look, OperatesOn, LowTables, HighTables, Distinguished, HighHalf, Meant,
      Output, InDevice, InRam, Below;
    UntouchedSpaceStays(world, trees, events, b.l0hh);
    HighRootHolds(world.m.words, b, va);
    HighRootIsOffsetMap(world.m.words, b, va);
  }

  /** Such a state exists: the finished tables with the high boot tree as the one space. */
  lemma BootSpaceIsGood(m: Mem, b: BootFrames)
    requires Distinguished(b) && LowTables(m.words, b) && HighTables(m.words, b) && Stocked(m)
    requires forall f | f in m.free :: f !in {b.l0hh, b.l1hh, b.l2Low, b.l2High}
    ensures Good(World(m, None, map[], {}), map[b.l0hh := HighTree(b)])
  {
    hide WellFormed, LowTables, HighTables, Distinguished, Stocked, Look, Low, PageNumber;
    BootTreeIsWellFormed(m.words, b);
  }

  /** Neither boot root holds a page, so `unmap` and `translate` succeed alike from boot on. */
  lemma BootRootsAreServed(w: Words, b: BootFrames)
    requires Distinguished(b) && LowTables(w, b) && HighTables(w, b)
    ensures AllServed(w, {b.l0, b.l0hh})
  {
    hide LowTables, HighTables, Distinguished, Look, Answer;
    forall va: VirtAddr ensures !Look(w, b.l0, va).Page? && !Look(w, b.l0hh, va).Page? {
      NoPagesAtBoot(w, b, va);
    }
  }
}
