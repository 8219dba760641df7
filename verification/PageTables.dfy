/** The four-level translation tables: physical memory as words, the table walk, and the ownership
    discipline that makes one walk independent of another. */
module PageTables {
  import opened Vmsav8

  /** A 64-bit virtual address. */
  datatype VirtAddr = VirtAddr(addr: bv64)

  /** A 36-bit page number: bits 47 to 12 of an address. */
  datatype PageNo = PageNo(bits: bv64)

  /** One 64-bit entry of physical memory: entry `idx` of the 512-entry frame at `table`. */
  datatype Slot = Slot(table: PhysFrame, idx: bv9)

  /** Physical memory, reached through the kernel's direct map. */
  type Words = w: imap<Slot, bv64> | forall s: Slot :: s in w
    ghost witness imap s: Slot | true :: 0 as bv64

  const TABLE_LEVELS := 3

  /** The index of `va` at a level: nine bits from 39, 30, 21 or 12 up. Bits 48 and above play no part. */
  function VaIndex(va: VirtAddr, level: nat): bv9
    requires level <= TABLE_LEVELS
  {
    if level == 0 then ((va.addr >> 39) & 0x1FF) as bv9
    else if level == 1 then ((va.addr >> 30) & 0x1FF) as bv9
    else if level == 2 then ((va.addr >> 21) & 0x1FF) as bv9
    else ((va.addr >> 12) & 0x1FF) as bv9
  }

  /** Where a walk over the first levels of a path ends: at a table, at an invalid entry or at a block. */
  datatype Reach = At(table: PhysFrame) | Hole(level: nat) | Blocked(level: nat, desc: bv64)

  /** One step of a walk, from the table reached so far. */
  function Next(w: Words, table: PhysFrame, idx: bv9, level: nat): Reach {
    var d := w[Slot(table, idx)];
    if !IsValid(d) then Hole(level) else if !HasTableOrPageBit(d) then Blocked(level, d) else At(NextTable(d))
  }

  function TableAt(w: Words, root: PhysFrame, va: VirtAddr, n: nat): Reach
    requires n <= TABLE_LEVELS
  {
    if n == 0 then At(root)
    else
      match TableAt(w, root, va, n - 1)
      case At(table) => Next(w, table, VaIndex(va, n - 1), n - 1)
      case stop => stop
  }

  /** What the tables hold for a page: nothing, a block that covers it, or its own valid leaf entry. */
  datatype Seen = Unmapped | Block(level: nat, desc: bv64) | Page(desc: bv64)

  function Look(w: Words, root: PhysFrame, va: VirtAddr): Seen {
    match TableAt(w, root, va, TABLE_LEVELS)
    case Hole(_) => Unmapped
    case Blocked(level, d) => Block(level, d)
    case At(table) =>
      var d := w[Slot(table, VaIndex(va, TABLE_LEVELS))];
      if IsValid(d) then Page(d) else Unmapped
  }

  /** How many tables the path of `va` still lacks. */
  function Missing(w: Words, root: PhysFrame, va: VirtAddr): (k: nat)
    ensures k <= TABLE_LEVELS
  {
    HoleIsShallow(w, root, va, TABLE_LEVELS);
    match TableAt(w, root, va, TABLE_LEVELS)
    case Hole(level) => TABLE_LEVELS - level
    case _ => 0
  }

  lemma HoleIsShallow(w: Words, root: PhysFrame, va: VirtAddr, n: nat)
    requires n <= TABLE_LEVELS
    ensures TableAt(w, root, va, n).Hole? ==> TableAt(w, root, va, n).level < n
  {
  }

  predicate SamePage(va: VirtAddr, vb: VirtAddr) {
    forall level: nat | level <= TABLE_LEVELS :: VaIndex(va, level) == VaIndex(vb, level)
  }

  function PageBits(addr: bv64): bv64 {
    (addr >> 12) & 0xF_FFFF_FFFF
  }

  function PageNumber(va: VirtAddr): PageNo {
    PageNo(PageBits(va.addr))
  }

  function Pack(i0: bv9, i1: bv9, i2: bv9, i3: bv9): PageNo {
    PageNo(((i0 as bv64) << 27) | ((i1 as bv64) << 18) | ((i2 as bv64) << 9) | (i3 as bv64))
  }

  function Unpack(page: PageNo, level: nat): bv9
    requires level <= TABLE_LEVELS
  {
    if level == 0 then ((page.bits >> 27) & 0x1FF) as bv9
    else if level == 1 then ((page.bits >> 18) & 0x1FF) as bv9
    else if level == 2 then ((page.bits >> 9) & 0x1FF) as bv9
    else (page.bits & 0x1FF) as bv9
  }

  lemma PageNumberFromIndices(va: VirtAddr)
    ensures PageNumber(va) == Pack(VaIndex(va, 0), VaIndex(va, 1), VaIndex(va, 2), VaIndex(va, 3))
  {
  }

  lemma IndexFromPageNumber(va: VirtAddr, level: nat)
    requires level <= TABLE_LEVELS
    ensures VaIndex(va, level) == Unpack(PageNumber(va), level)
  {
  }

  /** Two addresses share a path exactly when they agree on the 36-bit page number. */
  lemma SamePageIffPageNumber(va: VirtAddr, vb: VirtAddr)
    ensures SamePage(va, vb) <==> PageNumber(va) == PageNumber(vb)
  {
    hide VaIndex, PageNumber, Pack, Unpack;
    PageNumberFromIndices(va);
    PageNumberFromIndices(vb);
    forall level: nat | level <= TABLE_LEVELS
      ensures PageNumber(va) == PageNumber(vb) ==> VaIndex(va, level) == VaIndex(vb, level)
    {
      IndexFromPageNumber(va, level);
      IndexFromPageNumber(vb, level);
    }
  }

  // ----- ownership -----------------------------------------------------------------------------

  /** The ledger of one address space: the level of each table it owns and the one entry that leads to it. */
  datatype Tree = Tree(root: PhysFrame, level: map<PhysFrame, int>, parent: map<PhysFrame, Slot>)

  /** `s` is an entry of an owned table above the leaf level. */
  predicate Interior(t: Tree, s: Slot) {
    s.table in t.level && 0 <= t.level[s.table] < TABLE_LEVELS
  }

  ghost predicate WellFormed(w: Words, t: Tree) {
    && t.root in t.level && t.level[t.root] == 0
    && t.parent.Keys == t.level.Keys - {t.root}
    && (forall f | f in t.level :: Representable(f) && 0 <= t.level[f] <= TABLE_LEVELS)
    && (forall s: Slot | Interior(t, s) && IsTable(w[s]) :: ChildOwned(w, t, s))
    && (forall f | f in t.parent :: ParentOwned(w, t, f))
  }

  ghost predicate ChildOwned(w: Words, t: Tree, s: Slot)
    requires Interior(t, s)
  {
    var child := NextTable(w[s]);
    child in t.parent && child in t.level && t.level[child] == t.level[s.table] + 1 && t.parent[child] == s
  }

  ghost predicate ParentOwned(w: Words, t: Tree, f: PhysFrame)
    requires f in t.parent
  {
    var s := t.parent[f];
    Interior(t, s) && f in t.level && t.level[f] == t.level[s.table] + 1 && IsTable(w[s]) && NextTable(w[s]) == f
  }

  ghost predicate Zeroed(w: Words, f: PhysFrame) {
    forall i: bv9 :: w[Slot(f, i)] == 0
  }

  /** A walk only visits owned tables, one level deeper at each step, through the recorded parent entries. */
  lemma {:induction false} WalkStaysInside(w: Words, t: Tree, va: VirtAddr, n: nat)
    requires WellFormed(w, t) && n <= TABLE_LEVELS
    ensures match TableAt(w, t.root, va, n)
            case At(f) => f in t.level && t.level[f] == n && (n > 0 ==>
              f in t.parent && TableAt(w, t.root, va, n - 1) == At(t.parent[f].table)
              && t.parent[f].idx == VaIndex(va, n - 1))
            case _ => true
  {
    if n > 0 {
      WalkStaysInside(w, t, va, n - 1);
      match TableAt(w, t.root, va, n - 1)
      case At(table) =>
        var s := Slot(table, VaIndex(va, n - 1));
        if IsTable(w[s]) { assert ChildOwned(w, t, s); }
      case _ =>
    }
  }

  /** One table, one path: two walks that meet in a table took the same indices to it. */
  lemma {:induction false} OnePathToTable(w: Words, t: Tree, va: VirtAddr, vb: VirtAddr, n: nat)
    requires WellFormed(w, t) && n <= TABLE_LEVELS
    requires TableAt(w, t.root, va, n).At? && TableAt(w, t.root, va, n) == TableAt(w, t.root, vb, n)
    ensures forall level: nat | level < n :: VaIndex(va, level) == VaIndex(vb, level)
  {
    if n > 0 {
      WalkStaysInside(w, t, va, n);
      WalkStaysInside(w, t, vb, n);
      OnePathToTable(w, t, va, vb, n - 1);
    }
  }

  /** Walks depend on the interior entries of owned tables only. */
  lemma {:induction false} WalkFrame(w: Words, w': Words, t: Tree, va: VirtAddr, n: nat)
    requires WellFormed(w, t) && n <= TABLE_LEVELS
    requires forall s: Slot | Interior(t, s) :: w'[s] == w[s]
    ensures TableAt(w', t.root, va, n) == TableAt(w, t.root, va, n)
  {
    hide WellFormed, VaIndex, IsValid, HasTableOrPageBit, NextTable, Representable;
    if n > 0 {
      WalkFrame(w, w', t, va, n - 1);
      WalkStaysInside(w, t, va, n - 1);
    }
  }

  /** Writes outside the owned tables change neither the tree nor anything it translates. */
  lemma {:induction false} WritesElsewhere(w: Words, w': Words, t: Tree)
    requires WellFormed(w, t)
    requires forall s: Slot | s.table in t.level :: w'[s] == w[s]
    ensures WellFormed(w', t)
    ensures forall va: VirtAddr :: Look(w', t.root, va) == Look(w, t.root, va)
  {
    hide VaIndex, IsValid, HasTableOrPageBit, NextTable, Representable;
    forall s: Slot | Interior(t, s) && IsTable(w'[s]) ensures ChildOwned(w', t, s) {
      assert ChildOwned(w, t, s);
    }
    forall f | f in t.parent ensures ParentOwned(w', t, f) {
      assert ParentOwned(w, t, f);
    }
    forall va: VirtAddr ensures Look(w', t.root, va) == Look(w, t.root, va) {
      WalkFrame(w, w', t, va, TABLE_LEVELS);
      WalkStaysInside(w, t, va, TABLE_LEVELS);
    }
  }

  // ----- the two writes the walker performs ---------------------------------------------------------

  /** Writing a leaf entry changes what the tables hold for its own page and for no other. */
  lemma {:induction false} LeafWrite(w: Words, t: Tree, va: VirtAddr, table: PhysFrame, d: bv64)
    requires WellFormed(w, t) && TableAt(w, t.root, va, TABLE_LEVELS) == At(table)
    ensures var w': Words := w[Slot(table, VaIndex(va, TABLE_LEVELS)) := d];
      && WellFormed(w', t)
      && forall vb: VirtAddr :: Look(w', t.root, vb)
           == if SamePage(va, vb) then (if IsValid(d) then Page(d) else Unmapped) else Look(w, t.root, vb)
  {
    hide VaIndex, IsValid, HasTableOrPageBit, NextTable, Representable;
    var w': Words := w[Slot(table, VaIndex(va, TABLE_LEVELS)) := d];
    WalkStaysInside(w, t, va, TABLE_LEVELS);
    forall s: Slot | Interior(t, s) && IsTable(w'[s]) ensures ChildOwned(w', t, s) {
      assert ChildOwned(w, t, s);
    }
    forall f | f in t.parent ensures ParentOwned(w', t, f) {
      assert ParentOwned(w, t, f);
    }
    forall vb: VirtAddr ensures Look(w', t.root, vb)
      == if SamePage(va, vb) then (if IsValid(d) then Page(d) else Unmapped) else Look(w, t.root, vb)
    {
      LeafWriteSeen(w, t, va, vb, table, d);
    }
  }

  lemma LeafWriteSeen(w: Words, t: Tree, va: VirtAddr, vb: VirtAddr, table: PhysFrame, d: bv64)
    requires WellFormed(w, t) && TableAt(w, t.root, va, TABLE_LEVELS) == At(table)
    ensures var w': Words := w[Slot(table, VaIndex(va, TABLE_LEVELS)) := d];
      Look(w', t.root, vb)
        == if SamePage(va, vb) then (if IsValid(d) then Page(d) else Unmapped) else Look(w, t.root, vb)
  {
    hide VaIndex, IsValid, HasTableOrPageBit, NextTable, WellFormed, TableAt;
    var w': Words := w[Slot(table, VaIndex(va, TABLE_LEVELS)) := d];
    WalkStaysInside(w, t, va, TABLE_LEVELS);
    WalkFrame(w, w', t, vb, TABLE_LEVELS);
    if SamePage(va, vb) {
      SamePath(w, t.root, va, vb, TABLE_LEVELS);
    } else if TableAt(w, t.root, vb, TABLE_LEVELS) == At(table) {
      OnePathToTable(w, t, va, vb, TABLE_LEVELS);
    }
  }

  lemma {:induction false} SamePath(w: Words, root: PhysFrame, va: VirtAddr, vb: VirtAddr, n: nat)
    requires n <= TABLE_LEVELS && forall level: nat | level < n :: VaIndex(va, level) == VaIndex(vb, level)
    ensures TableAt(w, root, va, n) == TableAt(w, root, vb, n)
  {
    if n > 0 {
      SamePath(w, root, va, vb, n - 1);
    }
  }

  lemma SamePageIsEqualLook(w: Words, root: PhysFrame, va: VirtAddr, vb: VirtAddr)
    requires SamePage(va, vb)
    ensures Look(w, root, va) == Look(w, root, vb)
  {
    hide VaIndex, IsValid, TableAt;
    SamePath(w, root, va, vb, TABLE_LEVELS);
  }

  /** The ledger after the fresh table `g` has been linked at entry `s`. */
  function Grafted(t: Tree, s: Slot, g: PhysFrame): Tree
    requires s.table in t.level
  {
    Tree(t.root, t.level[g := t.level[s.table] + 1], t.parent[g := s])
  }

  /** `s` is an empty interior entry and `g` a fresh zeroed frame. */
  ghost predicate Graftable(w: Words, t: Tree, s: Slot, g: PhysFrame) {
    Interior(t, s) && !IsValid(w[s]) && g !in t.level && Representable(g) && Zeroed(w, g)
  }

  /** Linking a fresh zeroed table at an empty interior entry keeps the tree well formed and changes no translation. */
  lemma Graft(w: Words, t: Tree, s: Slot, g: PhysFrame)
    requires WellFormed(w, t) && Graftable(w, t, s, g)
    ensures var w': Words := w[s := TableDescriptor(g)];
      && WellFormed(w', Grafted(t, s, g))
      && forall va: VirtAddr :: Look(w', t.root, va) == Look(w, t.root, va)
  {
    hide WellFormed, Graftable, TableDescriptor, Look;
    GraftedTree(w, t, s, g);
    var w': Words := w[s := TableDescriptor(g)];
    forall va: VirtAddr ensures Look(w', t.root, va) == Look(w, t.root, va) {
      GraftedSeen(w, t, s, g, va);
    }
  }

  lemma GraftedTree(w: Words, t: Tree, s: Slot, g: PhysFrame)
    requires WellFormed(w, t) && Graftable(w, t, s, g)
    ensures WellFormed(w[s := TableDescriptor(g)], Grafted(t, s, g))
  {
    hide VaIndex, IsValid, HasTableOrPageBit, NextTable, Representable, TableDescriptor, Zeroed;
    var w': Words := w[s := TableDescriptor(g)];
    var t' := Grafted(t, s, g);
    TableDescriptorRoundTrip(g);
    forall x: Slot | Interior(t', x) && IsTable(w'[x]) ensures ChildOwned(w', t', x) {
      GraftedChild(w, t, s, g, x);
    }
    forall f | f in t'.parent ensures ParentOwned(w', t', f) {
      if f != g { assert ParentOwned(w, t, f); }
    }
  }

  lemma GraftedChild(w: Words, t: Tree, s: Slot, g: PhysFrame, x: Slot)
    requires WellFormed(w, t) && Graftable(w, t, s, g)
    requires Interior(Grafted(t, s, g), x)
    ensures var w': Words := w[s := TableDescriptor(g)];
      IsTable(w'[x]) ==> ChildOwned(w', Grafted(t, s, g), x)
  {
    hide VaIndex, IsValid, HasTableOrPageBit, NextTable, Representable, TableDescriptor;
    TableDescriptorRoundTrip(g);
    ZeroIsInvalid();
    if x.table == g {
      assert x == Slot(g, x.idx);
    } else if x != s && IsTable(w[x]) {
      assert ChildOwned(w, t, x);
    }
  }

  lemma GraftedSeen(w: Words, t: Tree, s: Slot, g: PhysFrame, va: VirtAddr)
    requires WellFormed(w, t) && Graftable(w, t, s, g)
    ensures var w': Words := w[s := TableDescriptor(g)];
      Look(w', t.root, va) == Look(w, t.root, va)
  {
    hide VaIndex, IsValid, HasTableOrPageBit, NextTable, Representable, TableDescriptor, WellFormed, TableAt;
    GraftedWalk(w, t, s, g, va, TABLE_LEVELS);
    WalkStaysInside(w, t, va, TABLE_LEVELS);
    ZeroIsInvalid();
    assert w[Slot(g, VaIndex(va, TABLE_LEVELS))] == 0;
  }

  lemma TableAtStep(w: Words, root: PhysFrame, va: VirtAddr, n: nat)
    requires 0 < n <= TABLE_LEVELS
    ensures TableAt(w, root, va, n) ==
      match TableAt(w, root, va, n - 1)
      case At(table) => Next(w, table, VaIndex(va, n - 1), n - 1)
      case stop => stop
  {
  }

  /** What one step finds after linking `g` at `s`: the same as before, but `g` at `s` and nothing in `g`. */
  lemma GraftedNext(w: Words, t: Tree, s: Slot, g: PhysFrame, x: Slot, level: nat)
    requires Graftable(w, t, s, g)
    ensures Next(w[s := TableDescriptor(g)], x.table, x.idx, level) ==
      if x == s then At(g) else if x.table == g then Hole(level) else Next(w, x.table, x.idx, level)
    ensures x == s ==> Next(w, x.table, x.idx, level) == Hole(level)
  {
    hide IsValid, HasTableOrPageBit, NextTable, Representable, TableDescriptor;
    TableDescriptorRoundTrip(g);
    ZeroIsInvalid();
    assert x.table == g ==> w[Slot(g, x.idx)] == 0;
  }

  /** After linking `g`, a walk that used to end at the empty entry goes on into `g` and no further. */
  lemma {:induction false} GraftedWalk(w: Words, t: Tree, s: Slot, g: PhysFrame, va: VirtAddr, n: nat)
    requires WellFormed(w, t) && Graftable(w, t, s, g) && n <= TABLE_LEVELS
    ensures var w': Words := w[s := TableDescriptor(g)];
      var k: nat := t.level[s.table];
      if k < n && TableAt(w, t.root, va, k) == At(s.table) && s.idx == VaIndex(va, k)
      then TableAt(w, t.root, va, n) == Hole(k) && TableAt(w', t.root, va, n) == if n == k + 1 then At(g) else Hole(k + 1)
      else TableAt(w', t.root, va, n) == TableAt(w, t.root, va, n)
  {
    hide WellFormed, VaIndex, Next, TableDescriptor, Representable, TableAt, IsValid, Zeroed;
    if n == 0 {
      WalkStarts(w, t.root, va);
      WalkStarts(w[s := TableDescriptor(g)], t.root, va);
    } else {
      var w': Words := w[s := TableDescriptor(g)];
      GraftedWalk(w, t, s, g, va, n - 1);
      WalkStaysInside(w, t, va, n - 1);
      TableAtStep(w, t.root, va, n);
      TableAtStep(w', t.root, va, n);
      match TableAt(w, t.root, va, n - 1) {
        case At(table) => GraftedNext(w, t, s, g, Slot(table, VaIndex(va, n - 1)), n - 1);
        case _ =>
      }
      GraftedNext(w, t, s, g, Slot(g, VaIndex(va, n - 1)), n - 1);
    }
  }

  lemma WalkStarts(w: Words, root: PhysFrame, va: VirtAddr)
    ensures TableAt(w, root, va, 0) == At(root)
  {
  }
}
