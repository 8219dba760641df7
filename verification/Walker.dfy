/** What one `map`, `unmap` or `translate` does to memory and to the frame provider, as functions on values. */
module Walker {
  import opened Vmsav8
  import opened PageTables

  datatype MmuError = AlreadyMapped | NotMapped | MisalignedAddress | OutOfFrames | InvalidFlags | BlockMapped

  datatype Result<+T> = Ok(value: T) | Err(error: MmuError)

  /** Physical memory together with the provider's stock of free frames, the next one handed out last. */
  datatype Mem = Mem(words: Words, free: seq<PhysFrame>)

  /** One level of the walk: step into an existing table or, when mapping, link a fresh one. */
  function WalkOrAlloc(m: Mem, parent: PhysFrame, idx: bv9, unmap: bool): (Mem, Result<PhysFrame>) {
    var s := Slot(parent, idx);
    var d := m.words[s];
    if IsValid(d) then
      if !HasTableOrPageBit(d) then (m, Err(if unmap then BlockMapped else AlreadyMapped))
      else (m, Ok(NextTable(d)))
    else if unmap then (m, Err(NotMapped))
    else if m.free == [] then (m, Err(OutOfFrames))
    else
      var g := m.free[|m.free| - 1];
      (Mem(m.words[s := TableDescriptor(g)], m.free[..|m.free| - 1]), Ok(g))
  }

  /** The first `n` levels of the walk, stopping at the first error. */
  function Descend(m: Mem, root: PhysFrame, va: VirtAddr, n: nat, unmap: bool): (Mem, Result<PhysFrame>)
    requires n <= TABLE_LEVELS
  {
    if n == 0 then (m, Ok(root))
    else
      var (m1, r) := Descend(m, root, va, n - 1, unmap);
      match r
      case Ok(table) => WalkOrAlloc(m1, table, VaIndex(va, n - 1), unmap)
      case Err(e) => (m1, Err(e))
  }

  function InstallLeaf(m: Mem, root: PhysFrame, va: VirtAddr, pa: PhysFrame, flags: bv32): (Mem, Result<PhysFrame>) {
    var (m1, r) := Descend(m, root, va, TABLE_LEVELS, false);
    match r
    case Err(e) => (m1, Err(e))
    case Ok(table) =>
      var leaf := Slot(table, VaIndex(va, TABLE_LEVELS));
      if IsValid(m1.words[leaf]) then (m1, Err(AlreadyMapped))
      else (Mem(m1.words[leaf := PageDescriptor(pa.addr, FlagsToDescriptorBits(flags))], m1.free), Ok(pa))
  }

  function ClearLeaf(m: Mem, root: PhysFrame, va: VirtAddr): (Mem, Result<PhysFrame>) {
    var (m1, r) := Descend(m, root, va, TABLE_LEVELS, true);
    match r
    case Err(e) => (m1, Err(e))
    case Ok(table) =>
      var leaf := Slot(table, VaIndex(va, TABLE_LEVELS));
      var existing := m1.words[leaf];
      if !IsValid(existing) then (m1, Err(NotMapped))
      else (Mem(m1.words[leaf := 0], m1.free), Ok(LeafFrame(existing)))
  }

  /** `map`: on success the flush token's address comes back. */
  function Map(m: Mem, root: PhysFrame, va: VirtAddr, pa: PhysFrame, flags: bv32): (Mem, Result<VirtAddr>) {
    if !IsPageAligned(va.addr) then (m, Err(MisalignedAddress))
    else if Rejected(flags) then (m, Err(InvalidFlags))
    else
      var (m1, r) := InstallLeaf(m, root, va, pa, flags);
      (m1, match r case Ok(_) => Ok(va) case Err(e) => Err(e))
  }

  /** `unmap`: on success the flush token's address and the frame that was mapped come back. */
  function Unmap(m: Mem, root: PhysFrame, va: VirtAddr): (Mem, Result<(VirtAddr, PhysFrame)>) {
    if !IsPageAligned(va.addr) then (m, Err(MisalignedAddress))
    else
      var (m1, r) := ClearLeaf(m, root, va);
      (m1, match r case Ok(f) => Ok((va, f)) case Err(e) => Err(e))
  }

  /** What `translate` answers for what the tables hold. */
  function Answer(seen: Seen): Result<(PhysFrame, bv32)> {
    match seen
    case Unmapped => Err(NotMapped)
    case Block(_, _) => Err(BlockMapped)
    case Page(d) =>
      if !HasTableOrPageBit(d) || !HasAccessFlag(d) then Err(NotMapped)
      else Ok((LeafFrame(d), DescriptorBitsToFlags(d)))
  }

  function Translate(w: Words, root: PhysFrame, va: VirtAddr): Result<(PhysFrame, bv32)> {
    Answer(Look(w, root, va))
  }

  /** The leaf `map` writes. */
  function Leaf(pa: PhysFrame, flags: bv32): bv64 {
    PageDescriptor(pa.addr, FlagsToDescriptorBits(flags))
  }

  // ----- the frame provider -----------------------------------------------------------------------

  ghost predicate Distinct(free: seq<PhysFrame>) {
    forall i, j | 0 <= i < j < |free| :: free[i] != free[j]
  }

  /** The provider's contract: every frame it holds is representable, zeroed and held once. */
  ghost predicate Stocked(m: Mem) {
    Distinct(m.free) && forall g | g in m.free :: Representable(g) && Zeroed(m.words, g)
  }

  ghost predicate Inv(m: Mem, t: Tree) {
    WellFormed(m.words, t) && Stocked(m) && forall g | g in m.free :: g !in t.level
  }

  /** From `(m, t)` to `(m', t')` frames only moved from the end of the provider's stock into the tree, no word outside
      the tree was written, and no link or block above the leaf level was overwritten. */
  ghost predicate Moved(m: Mem, t: Tree, m': Mem, t': Tree) {
    && m'.free <= m.free
    && t'.level.Keys == t.level.Keys + Elements(m.free[|m'.free|..])
    && (forall s: Slot | s.table !in t'.level :: m'.words[s] == m.words[s])
    && LinksKept(m.words, t, m'.words, t')
  }

  ghost predicate LinksKept(w: Words, t: Tree, w': Words, t': Tree) {
    && (forall f | f in t.level :: f in t'.level && t'.level[f] == t.level[f])
    && forall s: Slot | Interior(t, s) && IsValid(w[s]) :: w'[s] == w[s]
  }

  ghost function Elements(s: seq<PhysFrame>): set<PhysFrame> {
    set f | f in s
  }

  /** Linking the provider's next frame at an empty entry of the tree. */
  lemma LinkNext(m: Mem, t: Tree, s: Slot) returns (t': Tree)
    requires Inv(m, t) && Interior(t, s) && !IsValid(m.words[s]) && m.free != []
    ensures var (m', r) := WalkOrAlloc(m, s.table, s.idx, false);
      && Inv(m', t') && t'.root == t.root && Moved(m, t, m', t') && |m'.free| == |m.free| - 1
      && r == Ok(m.free[|m.free| - 1]) && Zeroed(m'.words, m.free[|m.free| - 1])
      && t' == Grafted(t, s, m.free[|m.free| - 1])
      && SameTranslations(m.words, m'.words, t.root)
  {
    hide IsValid, TableDescriptor, Representable, WellFormed, VaIndex, Look, Stocked, LinksKept;
    var g := m.free[|m.free| - 1];
    var m' := Mem(m.words[s := TableDescriptor(g)], m.free[..|m.free| - 1]);
    assert m.free == m'.free + [g];
    NextIsFresh(m, t);
    Graft(m.words, t, s, g);
    t' := Grafted(t, s, g);
    StockWithoutLast(m, s, TableDescriptor(g));
    assert m.free[|m'.free|..] == [g];
    LinkKeepsLinks(m.words, t, s, g, m'.words);
  }

  lemma NextIsFresh(m: Mem, t: Tree)
    requires Inv(m, t) && m.free != []
    ensures var g := m.free[|m.free| - 1]; g !in t.level && Representable(g) && Zeroed(m.words, g)
  {
    hide WellFormed, Representable;
    assert m.free[|m.free| - 1] in m.free;
  }

  lemma LinkKeepsLinks(w: Words, t: Tree, s: Slot, g: PhysFrame, w': Words)
    requires s.table in t.level && !IsValid(w[s]) && g !in t.level
    requires forall x: Slot | x != s :: w'[x] == w[x]
    ensures LinksKept(w, t, w', Grafted(t, s, g))
  {
    hide IsValid;
  }

  /** Without its last frame, and after a write outside the others, the stock is still good. */
  lemma StockWithoutLast(m: Mem, s: Slot, d: bv64)
    requires Stocked(m) && m.free != [] && s.table !in m.free
    ensures Stocked(Mem(m.words[s := d], m.free[..|m.free| - 1]))
    ensures m.free[|m.free| - 1] !in m.free[..|m.free| - 1]
    ensures Zeroed(m.words[s := d], m.free[|m.free| - 1])
  {
    hide Representable;
    var m' := Mem(m.words[s := d], m.free[..|m.free| - 1]);
    forall f | f in m'.free ensures f in m.free {
    }
    assert m.free[|m.free| - 1] in m.free;
  }

  /** The mapping walk of `n` levels went from `(m, t)` to `(m', t')`: it found the table, met a block, or built
      exactly the missing tables while stock lasted; in every case it changed no translation and kept the tree, the
      stock and the frames between them intact. */
  ghost predicate Descended(m: Mem, t: Tree, va: VirtAddr, n: nat, m': Mem, t': Tree, r: Result<PhysFrame>)
    requires n <= TABLE_LEVELS
  {
    && Inv(m', t') && t'.root == t.root && Moved(m, t, m', t')
    && SameTranslations(m.words, m'.words, t.root)
    && match TableAt(m.words, t.root, va, n)
       case At(f) => m' == m && r == Ok(f)
       case Blocked(_, _) => m' == m && r == Err(AlreadyMapped)
       case Hole(k) =>
         && k < n
         && (if |m.free| < n - k
             then r == Err(OutOfFrames) && m'.free == [] && TableAt(m'.words, t.root, va, n) == Hole(k + |m.free|)
             else r.Ok? && TableAt(m'.words, t.root, va, n) == At(r.value) && Zeroed(m'.words, r.value)
                  && |m'.free| == |m.free| - (n - k))
  }

  ghost predicate SameTranslations(w: Words, w': Words, root: PhysFrame) {
    forall vb: VirtAddr :: Look(w', root, vb) == Look(w, root, vb)
  }

  lemma {:induction false} DescendMapping(m: Mem, t: Tree, va: VirtAddr, n: nat) returns (t': Tree)
    requires Inv(m, t) && n <= TABLE_LEVELS
    ensures var (m', r) := Descend(m, t.root, va, n, false);
      Descended(m, t, va, n, m', t', r)
  {
    hide WalkOrAlloc, Inv, Look, TableAt;
    if n == 0 {
      t' := t;
      StandStill(m, t, va);
    } else {
      hide Descended;
      t' := DescendMapping(m, t, va, n - 1);
      var (m1, r1) := Descend(m, t.root, va, n - 1, false);
      t' := OneMoreLevel(m, t, va, n, m1, t', r1);
    }
  }

  lemma StandStill(m: Mem, t: Tree, va: VirtAddr)
    requires Inv(m, t)
    ensures Descended(m, t, va, 0, m, t, Ok(t.root))
  {
    hide Inv, Look;
  }

  lemma OneMoreLevel(m: Mem, t: Tree, va: VirtAddr, n: nat, m1: Mem, t1: Tree, r1: Result<PhysFrame>)
    returns (t2: Tree)
    requires 0 < n <= TABLE_LEVELS && Inv(m, t) && Descended(m, t, va, n - 1, m1, t1, r1)
    ensures match r1
            case Err(e) => Descended(m, t, va, n, m1, t2, r1)
            case Ok(table) =>
              var (m2, r2) := WalkOrAlloc(m1, table, VaIndex(va, n - 1), false);
              Descended(m, t, va, n, m2, t2, r2)
  {
    hide IsValid, HasTableOrPageBit, NextTable, TableDescriptor, Representable, WellFormed, VaIndex, Look;
    t2 := t1;
    ZeroIsInvalid();
    if r1.Ok? {
      var s := Slot(r1.value, VaIndex(va, n - 1));
      if !IsValid(m1.words[s]) && m1.free != [] {
        t2 := LinkedLevel(m, t, va, n, m1, t1, s);
      } else {
        hide Moved, SameTranslations, Inv;
      }
    }
  }

  lemma LinkedLevel(m: Mem, t: Tree, va: VirtAddr, n: nat, m1: Mem, t1: Tree, s: Slot)
    returns (t2: Tree)
    requires 0 < n <= TABLE_LEVELS && Inv(m, t) && Descended(m, t, va, n - 1, m1, t1, Ok(s.table))
    requires s.idx == VaIndex(va, n - 1) && !IsValid(m1.words[s]) && m1.free != []
    ensures var (m2, r2) := WalkOrAlloc(m1, s.table, s.idx, false);
      Descended(m, t, va, n, m2, t2, r2)
  {
    hide IsValid, HasTableOrPageBit, NextTable, TableDescriptor, Representable, WellFormed, VaIndex, Look,
      Moved, SameTranslations;
    assert Inv(m1, t1) && t1.root == t.root && TableAt(m1.words, t1.root, va, n - 1) == At(s.table);
    WalkStaysInside(m1.words, t1, va, n - 1);
    t2 := LinkNext(m1, t1, s);
    var (m2, r2) := WalkOrAlloc(m1, s.table, s.idx, false);
    GraftedWalk(m1.words, t1, s, m1.free[|m1.free| - 1], va, n);
    MovedTwice(m, t, m1, t1, m2, t2);
    assert SameTranslations(m.words, m2.words, t.root) by { SameTwice(m.words, m1.words, m2.words, t.root); }
  }

  lemma SameTwice(w: Words, w1: Words, w2: Words, root: PhysFrame)
    requires SameTranslations(w, w1, root) && SameTranslations(w1, w2, root)
    ensures SameTranslations(w, w2, root)
  {
  }

  lemma MovedTwice(m: Mem, t: Tree, m1: Mem, t1: Tree, m2: Mem, t2: Tree)
    requires Moved(m, t, m1, t1) && Moved(m1, t1, m2, t2)
    ensures Moved(m, t, m2, t2)
  {
    hide LinksKept, Elements;
    FramesTwice(m.free, m1.free, m2.free);
    LinksKeptTwice(m.words, t, m1.words, t1, m2.words, t2);
  }

  lemma FramesTwice(free: seq<PhysFrame>, free1: seq<PhysFrame>, free2: seq<PhysFrame>)
    requires free1 <= free && free2 <= free1
    ensures free2 <= free && Elements(free[|free2|..]) == Elements(free1[|free2|..]) + Elements(free[|free1|..])
  {
    assert free[|free2|..] == free1[|free2|..] + free[|free1|..];
  }

  lemma LinksKeptTwice(w: Words, t: Tree, w1: Words, t1: Tree, w2: Words, t2: Tree)
    requires LinksKept(w, t, w1, t1) && LinksKept(w1, t1, w2, t2)
    ensures LinksKept(w, t, w2, t2)
  {
    hide IsValid;
  }

  /** The read-only walk finds exactly what the tables hold and touches nothing. */
  lemma {:induction false} DescendReading(m: Mem, root: PhysFrame, va: VirtAddr, n: nat)
    requires n <= TABLE_LEVELS
    ensures Descend(m, root, va, n, true) ==
      (m, match TableAt(m.words, root, va, n)
          case At(f) => Ok(f)
          case Hole(_) => Err(NotMapped)
          case Blocked(_, _) => Err(BlockMapped))
  {
    hide IsValid, HasTableOrPageBit, NextTable, VaIndex;
    if n > 0 {
      DescendReading(m, root, va, n - 1);
    }
  }

  // ----- the three operations, against what the tables hold ---------------------------------------

  ghost predicate Updated(w: Words, w': Words, root: PhysFrame, va: VirtAddr, seen: Seen) {
    forall vb: VirtAddr :: Look(w', root, vb) == if SamePage(va, vb) then seen else Look(w, root, vb)
  }

  /** A leaf write inside the tree keeps the invariant and changes what one page holds. */
  lemma WriteLeaf(m: Mem, t: Tree, va: VirtAddr, table: PhysFrame, d: bv64)
    requires Inv(m, t) && TableAt(m.words, t.root, va, TABLE_LEVELS) == At(table)
    ensures var m' := Mem(m.words[Slot(table, VaIndex(va, TABLE_LEVELS)) := d], m.free);
      && Inv(m', t) && Moved(m, t, m', t)
      && Updated(m.words, m'.words, t.root, va, if IsValid(d) then Page(d) else Unmapped)
  {
    hide IsValid, Representable, WellFormed, VaIndex, Look, TableAt;
    WalkStaysInside(m.words, t, va, TABLE_LEVELS);
    LeafWrite(m.words, t, va, table, d);
  }

  /** `map` in full: which result, which frames move, and what every address translates to afterwards. */
  lemma MapOutcome(m: Mem, t: Tree, va: VirtAddr, pa: PhysFrame, flags: bv32) returns (t': Tree)
    requires Inv(m, t)
    ensures var (m', r) := Map(m, t.root, va, pa, flags);
      && Inv(m', t') && t'.root == t.root && Moved(m, t, m', t')
      && if !IsPageAligned(va.addr) then m' == m && r == Err(MisalignedAddress)
         else if Rejected(flags) then m' == m && r == Err(InvalidFlags)
         else if Look(m.words, t.root, va) != Unmapped then m' == m && r == Err(AlreadyMapped)
         else if |m.free| < Missing(m.words, t.root, va) then
           && r == Err(OutOfFrames) && m'.free == [] && SameTranslations(m.words, m'.words, t.root)
           && Missing(m'.words, t.root, va) == Missing(m.words, t.root, va) - |m.free|
         else
           && r == Ok(va) && |m'.free| == |m.free| - Missing(m.words, t.root, va)
           && Updated(m.words, m'.words, t.root, va, Page(Leaf(pa, flags)))
  {
    hide IsValid, IsPageAligned, Rejected, PageDescriptor, FlagsToDescriptorBits, VaIndex, Inv, Moved,
      TableAt, Descend, Updated, SameTranslations;
    t' := t;
    if IsPageAligned(va.addr) && !Rejected(flags) {
      t' := DescendMapping(m, t, va, TABLE_LEVELS);
      var (m1, r1) := Descend(m, t.root, va, TABLE_LEVELS, false);
      if r1.Ok? {
        MapAtTable(m, t, va, pa, flags, m1, t', r1.value);
      }
    } else {
      StayMoved(m, t);
    }
  }

  lemma StayMoved(m: Mem, t: Tree)
    ensures Moved(m, t, m, t)
  {
  }

  lemma MapAtTable(m: Mem, t: Tree, va: VirtAddr, pa: PhysFrame, flags: bv32, m1: Mem, t1: Tree, table: PhysFrame)
    requires Inv(m, t) && Descended(m, t, va, TABLE_LEVELS, m1, t1, Ok(table))
    ensures var leaf := Slot(table, VaIndex(va, TABLE_LEVELS));
      if IsValid(m1.words[leaf]) then m1 == m && Look(m.words, t.root, va) == Page(m1.words[leaf])
      else
        var m' := Mem(m1.words[leaf := Leaf(pa, flags)], m1.free);
        && Inv(m', t1) && Moved(m, t, m', t1) && |m.free| >= Missing(m.words, t.root, va)
        && |m'.free| == |m.free| - Missing(m.words, t.root, va)
        && Look(m.words, t.root, va) == Unmapped
        && Updated(m.words, m'.words, t.root, va, Page(Leaf(pa, flags)))
  {
    hide IsValid, Leaf, VaIndex, Inv, Moved;
    var leaf := Slot(table, VaIndex(va, TABLE_LEVELS));
    ZeroIsInvalid();
    assert TableAt(m1.words, t1.root, va, TABLE_LEVELS) == At(table);
    LeafIsValid(pa, flags);
    if !IsValid(m1.words[leaf]) {
      var m' := Mem(m1.words[leaf := Leaf(pa, flags)], m1.free);
      WriteLeaf(m1, t1, va, table, Leaf(pa, flags));
      MovedTwice(m, t, m1, t1, m', t1);
    }
  }

  lemma LeafIsValid(pa: PhysFrame, flags: bv32)
    ensures IsTable(Leaf(pa, flags)) && HasAccessFlag(Leaf(pa, flags))
  {
    PageDescriptorFrame(pa, FlagsToDescriptorBits(flags));
  }

  /** `unmap` in full: it never takes a frame, and clears exactly the page it answers for. */
  lemma UnmapOutcome(m: Mem, t: Tree, va: VirtAddr)
    requires Inv(m, t)
    ensures var (m', r) := Unmap(m, t.root, va);
      && Inv(m', t) && Moved(m, t, m', t) && m'.free == m.free
      && if !IsPageAligned(va.addr) then m' == m && r == Err(MisalignedAddress)
         else match Look(m.words, t.root, va)
              case Unmapped => m' == m && r == Err(NotMapped)
              case Block(_, _) => m' == m && r == Err(BlockMapped)
              case Page(d) => r == Ok((va, LeafFrame(d))) && Updated(m.words, m'.words, t.root, va, Unmapped)
  {
    hide IsValid, IsPageAligned, VaIndex, Inv, Moved, TableAt, Descend, Updated, LeafFrame;
    StayMoved(m, t);
    if IsPageAligned(va.addr) {
      DescendReading(m, t.root, va, TABLE_LEVELS);
      if TableAt(m.words, t.root, va, TABLE_LEVELS).At? {
        ZeroIsInvalid();
        WriteLeaf(m, t, va, TableAt(m.words, t.root, va, TABLE_LEVELS).table, 0);
      }
    }
  }
}
