/** Which tables a page still lacks once another page has been mapped. */
module MissingTables {
  import opened Vmsav8
  import opened PageTables
  import opened Walker

  /** How many of the first three indices two addresses share from the top. */
  function Shared(va: VirtAddr, vb: VirtAddr): (c: nat)
    ensures c <= TABLE_LEVELS
    ensures forall level: nat | level < c :: VaIndex(va, level) == VaIndex(vb, level)
    ensures c < TABLE_LEVELS ==> VaIndex(va, c) != VaIndex(vb, c)
  {
    if VaIndex(va, 0) != VaIndex(vb, 0) then 0
    else if VaIndex(va, 1) != VaIndex(vb, 1) then 1
    else if VaIndex(va, 2) != VaIndex(vb, 2) then 2
    else 3
  }

  lemma SharedIsSymmetric(va: VirtAddr, vb: VirtAddr)
    ensures Shared(va, vb) == Shared(vb, va)
  {
    hide VaIndex;
  }

  /** How far into the tables the walk of an address gets: to the level of its first missing table, or all the way. */
  function Depth(w: Words, root: PhysFrame, va: VirtAddr): nat {
    TABLE_LEVELS - Missing(w, root, va)
  }

  function Least(x: nat, y: nat): nat {
    if x < y then x else y
  }

  /** The tables on the path of `va` have been built from level `k` down to level `n`: an address that shares more than
      `k` indices with `va` gets as far as they share or as far as was built; every other one gets as far as before. */
  ghost predicate Built(w: Words, w': Words, root: PhysFrame, va: VirtAddr, k: nat, n: nat) {
    forall vb: VirtAddr :: Depth(w', root, vb)
      == if Shared(va, vb) > k then Least(Shared(va, vb), n) else Depth(w, root, vb)
  }

  lemma HoleIsDepth(w: Words, root: PhysFrame, va: VirtAddr)
    ensures TableAt(w, root, va, TABLE_LEVELS).Hole? <==> Depth(w, root, va) < TABLE_LEVELS
    ensures TableAt(w, root, va, TABLE_LEVELS).Hole? ==>
      TableAt(w, root, va, TABLE_LEVELS).level == Depth(w, root, va)
  {
    HoleIsShallow(w, root, va, TABLE_LEVELS);
  }

  /** A walk that ends at a hole ends there however far one asks it to go on. */
  lemma {:induction false} HoleStays(w: Words, root: PhysFrame, va: VirtAddr, k: nat, n: nat, more: nat)
    requires n <= more <= TABLE_LEVELS && TableAt(w, root, va, n) == Hole(k)
    ensures TableAt(w, root, va, more) == Hole(k)
    decreases more
  {
    hide Next;
    if n < more {
      HoleStays(w, root, va, k, n, more - 1);
      TableAtStep(w, root, va, more);
    }
  }

  /** Addresses that share the way into a hole end in the same one. */
  lemma SharedHole(w: Words, root: PhysFrame, va: VirtAddr, vb: VirtAddr, k: nat)
    requires k < TABLE_LEVELS && TableAt(w, root, va, k + 1) == Hole(k) && Shared(va, vb) > k
    ensures TableAt(w, root, vb, TABLE_LEVELS) == Hole(k) && Depth(w, root, vb) == k
  {
    hide VaIndex, Next, Shared;
    SamePath(w, root, va, vb, k + 1);
    HoleStays(w, root, vb, k, k + 1, TABLE_LEVELS);
    HoleIsDepth(w, root, vb);
  }

  /** Nothing built yet. */
  lemma BuiltNothing(w: Words, root: PhysFrame, va: VirtAddr, k: nat)
    requires k < TABLE_LEVELS && TableAt(w, root, va, k + 1) == Hole(k)
    ensures Built(w, w, root, va, k, k)
  {
    hide VaIndex, Next, Shared, TableAt, Missing;
    forall vb: VirtAddr | Shared(va, vb) > k ensures Depth(w, root, vb) == k {
      SharedHole(w, root, va, vb, k);
    }
  }

  /** One more table linked, at level `n` of the path. */
  lemma BuiltOneMore(w: Words, w1: Words, t1: Tree, va: VirtAddr, k: nat, n: nat, s: Slot, g: PhysFrame)
    requires WellFormed(w1, t1) && Graftable(w1, t1, s, g) && k <= n < TABLE_LEVELS
    requires Built(w, w1, t1.root, va, k, n)
    requires TableAt(w1, t1.root, va, n) == At(s.table) && s.idx == VaIndex(va, n)
    ensures Built(w, w1[s := TableDescriptor(g)], t1.root, va, k, n + 1)
  {
    hide VaIndex, Next, Shared, TableAt, Missing, WellFormed, Graftable, TableDescriptor, IsValid;
    var w2: Words := w1[s := TableDescriptor(g)];
    forall vb: VirtAddr ensures Depth(w2, t1.root, vb)
      == if Shared(va, vb) > k then Least(Shared(va, vb), n + 1) else Depth(w, t1.root, vb)
    {
      DepthAfterLink(w1, t1, va, n, s, g, vb);
    }
  }

  lemma DepthAfterLink(w1: Words, t1: Tree, va: VirtAddr, n: nat, s: Slot, g: PhysFrame, vb: VirtAddr)
    requires WellFormed(w1, t1) && Graftable(w1, t1, s, g) && n < TABLE_LEVELS
    requires TableAt(w1, t1.root, va, n) == At(s.table) && s.idx == VaIndex(va, n)
    ensures var w2: Words := w1[s := TableDescriptor(g)];
      Depth(w2, t1.root, vb) == if Shared(va, vb) > n then n + 1 else Depth(w1, t1.root, vb)
  {
    hide VaIndex, Next, Shared, TableAt, Missing, WellFormed, TableDescriptor, IsValid, Zeroed, Representable;
    var w2: Words := w1[s := TableDescriptor(g)];
    WalkStaysInside(w1, t1, va, n);
    GraftedWalk(w1, t1, s, g, vb, TABLE_LEVELS);
    HoleIsDepth(w1, t1.root, vb);
    HoleIsDepth(w2, t1.root, vb);
    SameWayIff(w1, t1, va, n, vb, s.table);
    SameDepth(w1, w2, t1.root, vb);
  }

  lemma SameDepth(w: Words, w': Words, root: PhysFrame, va: VirtAddr)
    ensures TableAt(w', root, va, TABLE_LEVELS) == TableAt(w, root, va, TABLE_LEVELS) ==>
      Depth(w', root, va) == Depth(w, root, va)
  {
    hide TableAt;
  }

  /** An address comes through entry `VaIndex(va, n)` of the table exactly when it shares the first `n + 1` indices. */
  lemma SameWayIff(w: Words, t: Tree, va: VirtAddr, n: nat, vb: VirtAddr, table: PhysFrame)
    requires WellFormed(w, t) && n < TABLE_LEVELS && TableAt(w, t.root, va, n) == At(table)
    ensures TableAt(w, t.root, vb, n) == At(table) && VaIndex(va, n) == VaIndex(vb, n) <==> Shared(va, vb) > n
  {
    hide VaIndex, TableAt, WellFormed, Shared;
    if Shared(va, vb) > n {
      SamePath(w, t.root, va, vb, n);
    } else if TableAt(w, t.root, vb, n) == At(table) {
      OnePathToTable(w, t, va, vb, n);
    }
  }

  /** The allocating walk builds exactly the rest of its own path. */
  lemma {:induction false} DescendBuilds(m: Mem, t: Tree, va: VirtAddr, n: nat)
    requires Inv(m, t) && n <= TABLE_LEVELS && Descend(m, t.root, va, n, false).1.Ok?
    ensures var m' := Descend(m, t.root, va, n, false).0;
      match TableAt(m.words, t.root, va, n)
      case Hole(k) => k < n && Built(m.words, m'.words, t.root, va, k, n)
      case _ => m' == m
    decreases n
  {
    hide WalkOrAlloc, Inv, Look, TableAt, Built, Moved, SameTranslations, Zeroed, VaIndex;
    if n == 0 {
      WalkStarts(m.words, t.root, va);
    } else {
      DescendBuilds(m, t, va, n - 1);
      var t1 := DescendMapping(m, t, va, n - 1);
      var (m1, r1) := Descend(m, t.root, va, n - 1, false);
      BuildsOneMore(m, t, va, n, m1, t1, r1.value);
    }
  }

  lemma BuildsOneMore(m: Mem, t: Tree, va: VirtAddr, n: nat, m1: Mem, t1: Tree, table: PhysFrame)
    requires 0 < n <= TABLE_LEVELS && Inv(m, t) && Descended(m, t, va, n - 1, m1, t1, Ok(table))
    requires match TableAt(m.words, t.root, va, n - 1)
             case Hole(k) => k < n - 1 && Built(m.words, m1.words, t.root, va, k, n - 1)
             case _ => m1 == m
    requires WalkOrAlloc(m1, table, VaIndex(va, n - 1), false).1.Ok?
    ensures var m' := WalkOrAlloc(m1, table, VaIndex(va, n - 1), false).0;
      match TableAt(m.words, t.root, va, n)
      case Hole(k) => k < n && Built(m.words, m'.words, t.root, va, k, n)
      case _ => m' == m
  {
    hide IsValid, HasTableOrPageBit, NextTable, TableDescriptor, Representable, WellFormed, VaIndex, Look, Moved,
      SameTranslations, TableAt, Built, Stocked, Zeroed;
    var s := Slot(table, VaIndex(va, n - 1));
    TableAtStep(m.words, t.root, va, n);
    assert TableAt(m1.words, t1.root, va, n - 1) == At(table);
    if TableAt(m.words, t.root, va, n - 1).Hole? {
      ZeroedIsInvalid(m1.words, table, s.idx);
    } else if !IsValid(m1.words[s]) {
      BuiltNothing(m.words, t.root, va, n - 1);
    }
    if !IsValid(m1.words[s]) {
      WalkStaysInside(m1.words, t1, va, n - 1);
      NextIsFresh(m1, t1);
      BuiltOneMore(m.words, m1.words, t1, va,
                   match TableAt(m.words, t.root, va, n) case Hole(k) => k case _ => n - 1,
                   n - 1, s, m1.free[|m1.free| - 1]);
    }
  }

  lemma ZeroedIsInvalid(w: Words, f: PhysFrame, idx: bv9)
    requires Zeroed(w, f)
    ensures !IsValid(w[Slot(f, idx)])
  {
    ZeroIsInvalid();
    assert w[Slot(f, idx)] == 0;
  }

  /** After a successful `map`, exactly: an address that shares more indices with the mapped one than there were tables
      for lacks only what they do not share; every other address lacks what it did. */
  lemma MapBuilds(m: Mem, t: Tree, va: VirtAddr, pa: PhysFrame, flags: bv32)
    requires Inv(m, t) && Map(m, t.root, va, pa, flags).1.Ok?
    ensures Built(m.words, Map(m, t.root, va, pa, flags).0.words, t.root, va, Depth(m.words, t.root, va), TABLE_LEVELS)
  {
    hide IsPageAligned, Rejected, VaIndex, Descend, TableAt, Built, WellFormed, Stocked, IsValid, PageDescriptor,
      FlagsToDescriptorBits,
      Moved, SameTranslations, Zeroed, Look;
    var (m1, r1) := Descend(m, t.root, va, TABLE_LEVELS, false);
    DescendBuilds(m, t, va, TABLE_LEVELS);
    var t1 := DescendMapping(m, t, va, TABLE_LEVELS);
    HoleIsDepth(m.words, t.root, va);
    if !TableAt(m.words, t.root, va, TABLE_LEVELS).Hole? {
      BuiltAll(m.words, t.root, va);
    }
    LeafKeepsBuilt(m.words, m1.words, t1, va, Depth(m.words, t.root, va), r1.value, Leaf(pa, flags));
  }

  lemma BuiltAll(w: Words, root: PhysFrame, va: VirtAddr)
    ensures Built(w, w, root, va, TABLE_LEVELS, TABLE_LEVELS)
  {
    hide Missing;
  }

  lemma LeafKeepsBuilt(w: Words, w1: Words, t1: Tree, va: VirtAddr, k: nat, table: PhysFrame, d: bv64)
    requires WellFormed(w1, t1)
    requires TableAt(w1, t1.root, va, TABLE_LEVELS) == At(table) && Built(w, w1, t1.root, va, k, TABLE_LEVELS)
    ensures Built(w, w1[Slot(table, VaIndex(va, TABLE_LEVELS)) := d], t1.root, va, k, TABLE_LEVELS)
  {
    hide WellFormed, VaIndex, TableAt, Missing, Shared;
    var w2: Words := w1[Slot(table, VaIndex(va, TABLE_LEVELS)) := d];
    WalkStaysInside(w1, t1, va, TABLE_LEVELS);
    forall vb: VirtAddr ensures Depth(w2, t1.root, vb) == Depth(w1, t1.root, vb) {
      WalkFrame(w1, w2, t1, vb, TABLE_LEVELS);
      SameDepth(w1, w2, t1.root, vb);
    }
  }

  /** Two pages lack the same number of tables together, whichever is mapped first. */
  lemma MissingTogether(m: Mem, t: Tree, va: VirtAddr, pa: PhysFrame, fa: bv32, vb: VirtAddr, pb: PhysFrame, fb: bv32)
    requires Inv(m, t) && Map(m, t.root, va, pa, fa).1.Ok? && Map(m, t.root, vb, pb, fb).1.Ok?
    ensures Missing(m.words, t.root, va) + Missing(Map(m, t.root, va, pa, fa).0.words, t.root, vb)
         == Missing(m.words, t.root, vb) + Missing(Map(m, t.root, vb, pb, fb).0.words, t.root, va)
  {
    hide Map, Inv, Missing, VaIndex, TableAt, Shared;
    MapBuilds(m, t, va, pa, fa);
    MapBuilds(m, t, vb, pb, fb);
    SharedIsSymmetric(va, vb);
    SharedDepths(m.words, t.root, va, vb);
    SharedDepths(m.words, t.root, vb, va);
  }

  lemma SharedDepths(w: Words, root: PhysFrame, va: VirtAddr, vb: VirtAddr)
    ensures Shared(va, vb) > Depth(w, root, va) ==> Depth(w, root, vb) == Depth(w, root, va)
  {
    hide VaIndex, Shared, TableAt, Missing;
    if Shared(va, vb) > Depth(w, root, va) {
      HoleIsDepth(w, root, va);
      HoleFromAbove(w, root, va, Depth(w, root, va), TABLE_LEVELS);
      SharedHole(w, root, va, vb, Depth(w, root, va));
    }
  }

  /** A walk that ends at a hole of level `k` has found it by step `k + 1`. */
  lemma {:induction false} HoleFromAbove(w: Words, root: PhysFrame, va: VirtAddr, k: nat, n: nat)
    requires n <= TABLE_LEVELS && TableAt(w, root, va, n) == Hole(k)
    ensures k < n && TableAt(w, root, va, k + 1) == Hole(k)
    decreases n
  {
    hide VaIndex, IsValid, HasTableOrPageBit, NextTable;
    if n > 0 {
      TableAtStep(w, root, va, n);
      if TableAt(w, root, va, n - 1).Hole? {
        HoleFromAbove(w, root, va, k, n - 1);
      }
    }
  }
}
