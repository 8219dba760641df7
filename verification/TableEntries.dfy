/** No entry on the way to a page restricts it: over every operation and run the links the walker writes are bare, and
    so what hardware grants on a page is what its leaf says. */
module TableEntries {
  import opened Options
  import opened Vmsav8
  import opened PageTables
  import opened Walker
  import opened WalkerProperties
  import opened FlatModel
  import opened AddressSpaces
  import opened AddressSpaceRuns
  import opened Bootstrap
  import opened BootstrapMaps

  /** Address and type bits only. */
  predicate Bare(d: bv64) {
    d & !0x0000_FFFF_FFFF_F003 == 0
  }

  /** A page leaf without reserved, software or hint bits. */
  predicate Tidy(d: bv64) {
    d & 0xFF9F_0000_0000_0020 == 0
  }

  /** The entry a walk reads at a level, where it gets that far. */
  function EntryAt(w: Words, root: PhysFrame, va: VirtAddr, level: nat): Option<bv64>
    requires level <= TABLE_LEVELS
  {
    match TableAt(w, root, va, level)
    case At(table) => Some(w[Slot(table, VaIndex(va, level))])
    case _ => None
  }

  /** Every link any walk passes is bare, and every page any walk finds is tidy. */
  ghost predicate Unrestricted(w: Words, root: PhysFrame) {
    && (forall va: VirtAddr, level: nat | level < TABLE_LEVELS :: BareAt(w, root, va, level))
    && forall va: VirtAddr :: Look(w, root, va).Page? ==> Tidy(Look(w, root, va).desc)
  }

  predicate BareAt(w: Words, root: PhysFrame, va: VirtAddr, level: nat)
    requires level < TABLE_LEVELS
  {
    var entry := EntryAt(w, root, va, level);
    entry.Some? && IsTable(entry.value) ==> Bare(entry.value)
  }

  /** The same of the entries of the tables an address space owns. */
  ghost predicate BareTree(w: Words, t: Tree) {
    forall s: Slot | Interior(t, s) && IsTable(w[s]) :: Bare(w[s])
  }

  ghost predicate TidyPages(w: Words, root: PhysFrame) {
    forall va: VirtAddr :: Look(w, root, va).Page? ==> Tidy(Look(w, root, va).desc)
  }

  /** The entries on walks are the entries of the owned tables. */
  lemma UnrestrictedIffBareTree(w: Words, t: Tree)
    requires WellFormed(w, t)
    ensures Unrestricted(w, t.root) <==> BareTree(w, t) && TidyPages(w, t.root)
  {
    hide WellFormed, IsTable, Bare, Tidy, TableAt, Look, VaIndex;
    if BareTree(w, t) {
      forall va: VirtAddr, level: nat | level < TABLE_LEVELS ensures BareAt(w, t.root, va, level) {
        WalkStaysInside(w, t, va, level);
      }
    }
    if Unrestricted(w, t.root) {
      forall s: Slot | Interior(t, s) && IsTable(w[s]) ensures Bare(w[s]) {
        var va := PathTo(w, t, s.table);
        var level: nat := t.level[s.table];
        var vb := WithIndex(va, level, s.idx);
        WithIndexMeans(va, level, s.idx);
        SamePath(w, t.root, va, vb, level);
        assert BareAt(w, t.root, vb, level);
      }
    }
  }

  // ----- kept by every operation -------------------------------------------------------------------------------------

  lemma LinkIsBare(f: PhysFrame)
    ensures Bare(TableDescriptor(f))
  {
    TableDescriptorIsBare(f);
  }

  /** Every word is as before or a bare one. */
  ghost predicate WritesBare(w: Words, w': Words) {
    forall s: Slot :: w'[s] == w[s] || Bare(w'[s])
  }

  lemma LevelWritesBareLinks(m: Mem, parent: PhysFrame, idx: bv9, unmap: bool)
    ensures WritesBare(m.words, WalkOrAlloc(m, parent, idx, unmap).0.words)
  {
    hide IsValid, HasTableOrPageBit, NextTable, TableDescriptor, Bare;
    if m.free != [] {
      LinkIsBare(m.free[|m.free| - 1]);
    }
  }

  /** The walk writes nothing but bare links. */
  lemma {:induction false} DescendWritesBareLinks(m: Mem, root: PhysFrame, va: VirtAddr, n: nat, unmap: bool)
    requires n <= TABLE_LEVELS
    ensures WritesBare(m.words, Descend(m, root, va, n, unmap).0.words)
  {
    hide WalkOrAlloc, VaIndex, Bare;
    if n > 0 {
      DescendWritesBareLinks(m, root, va, n - 1, unmap);
      var (m1, r) := Descend(m, root, va, n - 1, unmap);
      if r.Ok? {
        LevelWritesBareLinks(m1, r.value, VaIndex(va, n - 1), unmap);
      }
    }
  }

  lemma BareAfterMove(m: Mem, t: Tree, m': Mem, t': Tree)
    requires Inv(m, t) && Moved(m, t, m', t') && BareTree(m.words, t)
    requires WritesBare(m.words, m'.words)
    ensures BareTree(m'.words, t')
  {
    hide WellFormed, Bare, Representable, HasTableOrPageBit, IsValid;
    ZeroIsInvalid();
    forall s: Slot | Interior(t', s) && IsTable(m'.words[s]) ensures Bare(m'.words[s]) {
      if s.table !in t.level {
        assert s.table in t'.level.Keys && s.table in Elements(m.free[|m'.free|..]);
        assert s.table in m.free && m.words[Slot(s.table, s.idx)] == 0;
        assert s == Slot(s.table, s.idx);
      }
    }
  }

  lemma LeafIsTidy(pa: PhysFrame, flags: bv32)
    ensures Tidy(Leaf(pa, flags))
  {
    hide PageDescriptor, FlagsToDescriptorBits;
    LeafDescriptorsAreBare(pa.addr, FlagsToDescriptorBits(flags));
  }

  /** A write at the leaf level leaves the links alone. */
  lemma LeafWriteKeepsLinks(w: Words, t: Tree, va: VirtAddr, table: PhysFrame, d: bv64)
    requires WellFormed(w, t) && TableAt(w, t.root, va, TABLE_LEVELS) == At(table) && BareTree(w, t)
    ensures BareTree(w[Slot(table, VaIndex(va, TABLE_LEVELS)) := d], t)
  {
    hide WellFormed, Bare, VaIndex, IsTable, TableAt;
    WalkStaysInside(w, t, va, TABLE_LEVELS);
  }

  lemma MapKeepsLinks(m: Mem, t: Tree, va: VirtAddr, pa: PhysFrame, flags: bv32) returns (t': Tree)
    requires Inv(m, t) && BareTree(m.words, t)
    ensures var m' := Map(m, t.root, va, pa, flags).0;
      WellFormed(m'.words, t') && t'.root == t.root && BareTree(m'.words, t')
  {
    hide WellFormed, Stocked, IsPageAligned, Rejected, VaIndex, Descend, TableAt, IsValid, Look, Bare, BareTree, Moved,
      SameTranslations, Zeroed, PageDescriptor, FlagsToDescriptorBits, WritesBare;
    t' := t;
    if IsPageAligned(va.addr) && !Rejected(flags) {
      t' := DescendMapping(m, t, va, TABLE_LEVELS);
      var (m1, r1) := Descend(m, t.root, va, TABLE_LEVELS, false);
      DescendWritesBareLinks(m, t.root, va, TABLE_LEVELS, false);
      BareAfterMove(m, t, m1, t');
      assert WellFormed(m1.words, t');
      if r1.Ok? {
        assert TableAt(m1.words, t'.root, va, TABLE_LEVELS) == At(r1.value);
        LeafWriteKeepsLinks(m1.words, t', va, r1.value, Leaf(pa, flags));
        WriteLeaf(m1, t', va, r1.value, Leaf(pa, flags));
      }
    }
  }

  /** `map` of any address, whatever it answers, keeps links bare and pages tidy. */
  lemma MapKeepsUnrestricted(m: Mem, t: Tree, va: VirtAddr, pa: PhysFrame, flags: bv32)
    requires Inv(m, t) && Unrestricted(m.words, t.root)
    ensures Unrestricted(Map(m, t.root, va, pa, flags).0.words, t.root)
  {
    hide Map, Look, SamePage, WellFormed, Stocked, Moved, IsPageAligned, Rejected, Missing, Leaf, Unrestricted, Tidy,
      BareTree;
    UnrestrictedIffBareTree(m.words, t);
    var t' := MapKeepsLinks(m, t, va, pa, flags);
    var _ := MapOutcome(m, t, va, pa, flags);
    LeafIsTidy(pa, flags);
    UnrestrictedIffBareTree(Map(m, t.root, va, pa, flags).0.words, t');
  }

  /** So does `unmap`. */
  lemma UnmapKeepsUnrestricted(m: Mem, t: Tree, va: VirtAddr)
    requires Inv(m, t) && Unrestricted(m.words, t.root)
    ensures Unrestricted(Unmap(m, t.root, va).0.words, t.root)
  {
    hide Look, SamePage, WellFormed, Stocked, Moved, IsPageAligned, Unrestricted, Tidy, BareTree, Descend, TableAt, VaIndex,
      LeafFrame, IsValid;
    UnrestrictedIffBareTree(m.words, t);
    UnmapOutcome(m, t, va);
    DescendReading(m, t.root, va, TABLE_LEVELS);
    if TableAt(m.words, t.root, va, TABLE_LEVELS).At? {
      LeafWriteKeepsLinks(m.words, t, va, TableAt(m.words, t.root, va, TABLE_LEVELS).table, 0);
    }
    UnrestrictedIffBareTree(Unmap(m, t.root, va).0.words, t);
  }

  /** A successful `unmap` writes one word, the entry of its page, and writes it zero. */
  lemma UnmapZeroesEntry(m: Mem, t: Tree, va: VirtAddr) returns (leaf: Slot)
    requires Inv(m, t) && Unmap(m, t.root, va).1.Ok?
    ensures var w' := Unmap(m, t.root, va).0.words;
      && EntryAt(w', t.root, va, TABLE_LEVELS) == Some(0)
      && w' == m.words[leaf := 0]
  {
    hide WellFormed, Stocked, IsPageAligned, Descend, TableAt, VaIndex, LeafFrame, IsValid;
    DescendReading(m, t.root, va, TABLE_LEVELS);
    var table := TableAt(m.words, t.root, va, TABLE_LEVELS).table;
    leaf := Slot(table, VaIndex(va, TABLE_LEVELS));
    WalkStaysInside(m.words, t, va, TABLE_LEVELS);
    WalkFrame(m.words, m.words[leaf := 0], t, va, TABLE_LEVELS);
  }

  // ----- what hardware grants ------------------------------------------------------------------------------------

  /** A leaf as hardware takes it below a link: the link's execute-never, read-only and no-EL0 bits override it. */
  function Overridden(leaf: bv64, link: bv64): bv64 {
    var restricted := leaf | ((link >> 6) & 0x0060_0000_0000_0000)
                      | (if link & 0x4000_0000_0000_0000 != 0 then 0x80 else 0);
    if link & 0x2000_0000_0000_0000 != 0 then restricted & !0x40 else restricted
  }

  /** The leaf of `va` below the first `n` links of its path. */
  function Effective(w: Words, root: PhysFrame, va: VirtAddr, leaf: bv64, n: nat): bv64
    requires n <= TABLE_LEVELS
  {
    if n == 0 then leaf
    else
      match EntryAt(w, root, va, n - 1)
      case Some(link) => Overridden(Effective(w, root, va, leaf, n - 1), link)
      case None => Effective(w, root, va, leaf, n - 1)
  }

  lemma BareOverridesNothing(leaf: bv64, link: bv64)
    requires Bare(link)
    ensures Overridden(leaf, link) == leaf
  {
    BareHasNoOverride(link);
  }

  lemma BareHasNoOverride(link: bv64)
    requires Bare(link)
    ensures (link >> 6) & 0x0060_0000_0000_0000 == 0
    ensures link & 0x4000_0000_0000_0000 == 0 && link & 0x2000_0000_0000_0000 == 0
  {
  }

  lemma LinkOnTheWay(w: Words, root: PhysFrame, va: VirtAddr, n: nat)
    requires n < TABLE_LEVELS && TableAt(w, root, va, n + 1).At?
    ensures EntryAt(w, root, va, n).Some? && IsTable(EntryAt(w, root, va, n).value)
  {
    hide VaIndex, IsValid, HasTableOrPageBit, NextTable;
    TableAtStep(w, root, va, n + 1);
  }

  lemma {:induction false} NothingOverridden(w: Words, root: PhysFrame, va: VirtAddr, leaf: bv64, n: nat)
    requires Unrestricted(w, root) && n <= TABLE_LEVELS && TableAt(w, root, va, n).At?
    ensures Effective(w, root, va, leaf, n) == leaf
  {
    hide Unrestricted, Overridden, Bare, IsTable, EntryAt, TableAt, Next, VaIndex;
    if n > 0 {
      TableAtStep(w, root, va, n);
      NothingOverridden(w, root, va, leaf, n - 1);
      LinkOnTheWay(w, root, va, n - 1);
      LinkIsBareAt(w, root, va, n - 1);
      BareOverridesNothing(leaf, EntryAt(w, root, va, n - 1).value);
    }
  }

  lemma LinkIsBareAt(w: Words, root: PhysFrame, va: VirtAddr, level: nat)
    requires Unrestricted(w, root) && level < TABLE_LEVELS
    ensures BareAt(w, root, va, level)
  {
    hide BareAt;
  }

  /** The flags `translate` reports are those of the leaf with every restriction on its path taken in. */
  lemma TranslateReportsEffectiveFlags(w: Words, root: PhysFrame, va: VirtAddr)
    requires Unrestricted(w, root) && Translate(w, root, va).Ok?
    ensures var leaf := Look(w, root, va).desc;
      Translate(w, root, va).value.1 == DescriptorBitsToFlags(Effective(w, root, va, leaf, TABLE_LEVELS))
  {
    hide Unrestricted, DescriptorBitsToFlags, Effective, LeafFrame, HasAccessFlag, HasTableOrPageBit, IsValid, VaIndex;
    NothingOverridden(w, root, va, Look(w, root, va).desc, TABLE_LEVELS);
  }

  // ----- over runs, and at boot ----------------------------------------------------------------------------------

  ghost predicate AllUnrestricted(w: Words, roots: set<PhysFrame>) {
    forall r | r in roots :: Unrestricted(w, r)
  }

  lemma NewSpaceIsUnrestricted(m: Mem, root: PhysFrame)
    requires Stocked(m) && root !in m.free && Representable(root) && Zeroed(m.words, root)
    ensures Unrestricted(m.words, root)
  {
    hide Unrestricted, Stocked, Representable, Bare, Tidy, VaIndex;
    var t := Tree(root, map[root := 0], map[]);
    NewAddressSpace(m, root);
    UnrestrictedIffBareTree(m.words, t);
    ZeroIsInvalid();
    forall s: Slot | Interior(t, s) ensures !IsTable(m.words[s]) {
      assert s == Slot(root, s.idx);
    }
    forall va: VirtAddr ensures !Look(m.words, root, va).Page? {
      EmptyRoot(m.words, root, va, TABLE_LEVELS);
    }
  }

  /** An operation in one space writes no table of another. */
  lemma ForeignTablesStay(m: Mem, trees: Ledger, m': Mem, t': Tree, q: PhysFrame)
    requires Spaces(m, trees) && t'.root in trees && q in trees && q != t'.root
    requires Moved(m, trees[t'.root], m', t')
    ensures forall s: Slot | s.table in trees[q].level :: m'.words[s] == m.words[s]
  {
    hide WellFormed, Stocked, LinksKept;
    var t, u := trees[t'.root], trees[q];
    forall f | f in u.level ensures f !in t'.level {
      assert Inv(m, u) && f !in t.level.Keys && f !in m.free;
      assert f !in Elements(m.free[|m'.free|..]);
    }
  }

  lemma ForeignStaysUnrestricted(m: Mem, trees: Ledger, m': Mem, t': Tree, q: PhysFrame)
    requires Spaces(m, trees) && t'.root in trees && q in trees && q != t'.root && Unrestricted(m.words, q)
    requires Inv(m', t') && Moved(m, trees[t'.root], m', t')
    ensures Unrestricted(m'.words, q)
  {
    hide WellFormed, Stocked, Moved, Unrestricted, Look, Tidy, Bare, IsTable;
    var u := trees[q];
    assert u.root == q && Inv(m, u);
    UnrestrictedIffBareTree(m.words, u);
    ForeignTablesStay(m, trees, m', t', q);
    Isolation(m, trees, m', t', q);
    UnrestrictedIffBareTree(m'.words, u);
  }

  lemma StepKeepsUnrestricted(world: World, trees: Ledger, event: Event, r: PhysFrame)
    requires Good(world, trees) && Stocked(world.m) && AllUnrestricted(world.m.words, trees.Keys)
    requires Legal(world, trees.Keys, AllFrames(world.m, trees), [event])
    requires r in trees.Keys + CreatedRoots([event])
    ensures Unrestricted(Step(world, event).m.words, r)
  {
    hide Map, Unmap, AllFrames, Coherent, Unrestricted, Inv, FlushedPage, Zeroed, Moved, Look, Stocked, IsPageAligned,
      Rejected, Missing, LeafFrame;
    OneRoot(event);
    match event
    case Create(root) =>
      if r == root {
        assert root !in world.m.free by { NotHeld(world.m, trees, root); }
        NewSpaceIsUnrestricted(world.m, r);
      }
    case MapPage(root, va, pa, flags) =>
      if r == root {
        MapKeepsUnrestricted(world.m, trees[r], va, pa, flags);
      } else {
        var t' := MapOutcome(world.m, trees[root], va, pa, flags);
        ForeignStaysUnrestricted(world.m, trees, Map(world.m, root, va, pa, flags).0, t', r);
      }
    case UnmapPage(root, va) =>
      if r == root {
        UnmapKeepsUnrestricted(world.m, trees[r], va);
      } else {
        UnmapOutcome(world.m, trees[root], va);
        ForeignStaysUnrestricted(world.m, trees, Unmap(world.m, root, va).0, trees[root], r);
      }
    case _ =>
  }

  lemma NotHeld(m: Mem, trees: Ledger, root: PhysFrame)
    requires root !in AllFrames(m, trees)
    ensures root !in m.free
  {
    assert root in m.free ==> root in Elements(m.free);
  }

  /** Over every legal run, in every space, every link stays bare and every page tidy. */
  lemma {:induction false} RunKeepsUnrestricted(world: World, trees: Ledger, events: seq<Event>)
    requires Good(world, trees) && Stocked(world.m) && AllUnrestricted(world.m.words, trees.Keys)
    requires Legal(world, trees.Keys, AllFrames(world.m, trees), events)
    ensures AllUnrestricted(Run(world, events).m.words, trees.Keys + CreatedRoots(events))
    decreases events
  {
    hide Good, Stocked, AllFrames, Step, Unrestricted;
    if events == [] {
      assert CreatedRoots(events) == {};
      assert trees.Keys + {} == trees.Keys;
    } else {
      var world1 := Step(world, events[0]);
      var trees1 := StepKeepsGood(world, trees, events[0]);
      OneRoot(events[0]);
      assert trees.Keys + {} == trees.Keys && AllFrames(world.m, trees) + {} == AllFrames(world.m, trees);
      forall r | r in trees1.Keys ensures Unrestricted(world1.m.words, r) {
        StepKeepsUnrestricted(world, trees, events[0], r);
      }
      RunKeepsUnrestricted(world1, trees1, events[1..]);
      RootsInTwo(events);
      assert trees1.Keys + CreatedRoots(events[1..]) == trees.Keys + CreatedRoots(events);
    }
  }

  /** Both boot roots start so. */
  lemma BootRootsAreUnrestricted(w: Words, b: BootFrames)
    requires Distinguished(b) && LowTables(w, b) && HighTables(w, b)
    ensures AllUnrestricted(w, {b.l0, b.l0hh})
  {
    hide Unrestricted, Look, WellFormed, BareTree, Tidy, OneLink, TwoLinks, BlockTables, Representable, BootTree;
    BootTreeIsWellFormed(w, b);
    BootLinksAreBare(w, b.l0, 0, b.l1, 0, 1, b);
    BootLinksAreBare(w, b.l0hh, 511, b.l1hh, 508, 509, b);
    forall va: VirtAddr ensures !Look(w, b.l0, va).Page? && !Look(w, b.l0hh, va).Page? {
      NoPagesAtBoot(w, b, va);
    }
    LowTreeRoot(b);
    UnrestrictedIffBareTree(w, LowTree(b));
    UnrestrictedIffBareTree(w, HighTree(b));
  }

  lemma LowTreeRoot(b: BootFrames)
    ensures LowTree(b).root == b.l0 && HighTree(b).root == b.l0hh
  {
  }

  lemma BootLinksAreBare(w: Words, root: PhysFrame, i: bv9, l1: PhysFrame, j: bv9, k: bv9, b: BootFrames)
    requires RootLinks(w, root, i, l1, j, k, b)
    ensures BareTree(w, BootTree(root, i, l1, j, k, b))
  {
    hide IsTable, TableDescriptor, Representable, LowEntry, HighEntry, Bare;
    LinkIsBare(l1);
    LinkIsBare(b.l2Low);
    LinkIsBare(b.l2High);
    ZeroIsInvalid();
    ZeroIsNoTable();
    forall s: Slot | Interior(BootTree(root, i, l1, j, k, b), s) && IsTable(w[s]) ensures Bare(w[s]) {
      assert s == Slot(s.table, s.idx);
      BlockEntry(w, b, s.idx);
    }
  }

  lemma ZeroIsNoTable()
    ensures !IsTable(0)
  {
  }
}
