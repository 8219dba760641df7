/** What the outcomes of `map` and `unmap` add up to: failures change nothing, tables stay reachable, unmapping undoes
    mapping. */
module WalkerProperties {
  import opened Vmsav8
  import opened PageTables
  import opened Walker
  import opened MissingTables

  // ----- failure semantics -----------------------------------------------------------------------------------------

  /** The errors that come back before any frame is asked for. */
  predicate BeforeAllocation(error: MmuError) {
    error in {AlreadyMapped, MisalignedAddress, InvalidFlags}
  }

  /** Every failed `map` leaves every translation as it was and takes at most three frames; one that fails before
      asking for a frame changes nothing at all, and one that runs out has used up the stock on the path to the page, so
      a later attempt needs that many fewer. */
  lemma FailedMapChangesNothing(m: Mem, t: Tree, va: VirtAddr, pa: PhysFrame, flags: bv32)
    requires Inv(m, t) && Map(m, t.root, va, pa, flags).1.Err?
    ensures var (m', r) := Map(m, t.root, va, pa, flags);
      && SameTranslations(m.words, m'.words, t.root)
      && |m.free| - TABLE_LEVELS <= |m'.free| <= |m.free|
      && (BeforeAllocation(r.error) <==> r.error != OutOfFrames)
      && (BeforeAllocation(r.error) ==> m' == m)
      && (r.error == OutOfFrames ==>
            m'.free == [] && Missing(m'.words, t.root, va) == Missing(m.words, t.root, va) - |m.free|)
  {
    hide Map, IsPageAligned, Rejected, Look, Missing, Inv, Moved, Leaf;
    var _ := MapOutcome(m, t, va, pa, flags);
  }

  /** A failed `unmap` writes nothing, and no `unmap` touches the stock. */
  lemma FailedUnmapChangesNothing(m: Mem, t: Tree, va: VirtAddr)
    requires Inv(m, t)
    ensures Unmap(m, t.root, va).0.free == m.free
    ensures Unmap(m, t.root, va).1.Err? ==> Unmap(m, t.root, va).0 == m
  {
    hide Unmap, IsPageAligned, Look, Inv, Moved;
    UnmapOutcome(m, t, va);
  }

  /** A failed `map` does not keep the frame it was given: no page leads to it afterwards that did not before. */
  lemma FailedMapKeepsNoFrame(m: Mem, t: Tree, va: VirtAddr, pa: PhysFrame, flags: bv32, vb: VirtAddr)
    requires Inv(m, t) && Map(m, t.root, va, pa, flags).1.Err?
    ensures var m' := Map(m, t.root, va, pa, flags).0;
      LeadsTo(m'.words, t.root, vb, pa) <==> LeadsTo(m.words, t.root, vb, pa)
  {
    hide Map, Look, Inv;
    FailedMapChangesNothing(m, t, va, pa, flags);
  }

  predicate LeadsTo(w: Words, root: PhysFrame, va: VirtAddr, pa: PhysFrame) {
    Look(w, root, va).Page? && LeafFrame(Look(w, root, va).desc) == pa
  }

  // ----- reachability ----------------------------------------------------------------------------------------------

  /** The address whose path agrees with `va` above `level` and takes entry `idx` there. */
  function WithIndex(va: VirtAddr, level: nat, idx: bv9): VirtAddr
    requires level < TABLE_LEVELS
  {
    if level == 0 then VirtAddr(WithBits(va.addr, 39, idx))
    else if level == 1 then VirtAddr(WithBits(va.addr, 30, idx))
    else VirtAddr(WithBits(va.addr, 21, idx))
  }

  function WithBits(addr: bv64, shift: bv6, idx: bv9): bv64 {
    (addr & !((0x1FF as bv64) << shift)) | ((idx as bv64) << shift)
  }

  lemma WithIndexAt0(va: VirtAddr, idx: bv9)
    ensures VaIndex(WithIndex(va, 0, idx), 0) == idx
  {
  }

  lemma WithIndexAt1(va: VirtAddr, idx: bv9)
    ensures VaIndex(WithIndex(va, 1, idx), 1) == idx
    ensures VaIndex(WithIndex(va, 1, idx), 0) == VaIndex(va, 0)
  {
  }

  lemma WithIndexAt2(va: VirtAddr, idx: bv9)
    ensures VaIndex(WithIndex(va, 2, idx), 2) == idx
    ensures VaIndex(WithIndex(va, 2, idx), 1) == VaIndex(va, 1)
    ensures VaIndex(WithIndex(va, 2, idx), 0) == VaIndex(va, 0)
  {
  }

  lemma WithIndexMeans(va: VirtAddr, level: nat, idx: bv9)
    requires level < TABLE_LEVELS
    ensures VaIndex(WithIndex(va, level, idx), level) == idx
    ensures forall above: nat | above < level :: VaIndex(WithIndex(va, level, idx), above) == VaIndex(va, above)
  {
    hide VaIndex, WithIndex;
    WithIndexAt0(va, idx);
    WithIndexAt1(va, idx);
    WithIndexAt2(va, idx);
  }

  /** Some address's walk visits table `f`. */
  ghost predicate Reachable(w: Words, root: PhysFrame, f: PhysFrame) {
    exists va: VirtAddr, n: nat | n <= TABLE_LEVELS :: TableAt(w, root, va, n) == At(f)
  }

  /** A path to an owned table, followed back through its parents. */
  lemma {:induction false} PathTo(w: Words, t: Tree, f: PhysFrame) returns (va: VirtAddr)
    requires WellFormed(w, t) && f in t.level
    ensures 0 <= t.level[f] <= TABLE_LEVELS && TableAt(w, t.root, va, t.level[f]) == At(f)
    decreases t.level[f]
  {
    hide VaIndex, IsValid, HasTableOrPageBit, NextTable, Representable, WithIndex;
    va := VirtAddr(0);
    if f != t.root {
      assert ParentOwned(w, t, f);
      var s := t.parent[f];
      var up := PathTo(w, t, s.table);
      va := WithIndex(up, t.level[s.table], s.idx);
      WithIndexMeans(up, t.level[s.table], s.idx);
      SamePath(w, t.root, up, va, t.level[s.table]);
    }
  }

  /** The tables an address space owns are exactly the ones its walks visit, each at one level. */
  lemma OwnedIffReachable(w: Words, t: Tree, f: PhysFrame)
    requires WellFormed(w, t)
    ensures f in t.level <==> Reachable(w, t.root, f)
    ensures forall va: VirtAddr, n: nat | n <= TABLE_LEVELS && TableAt(w, t.root, va, n) == At(f) :: t.level[f] == n
  {
    hide WellFormed, TableAt;
    if f in t.level {
      var va := PathTo(w, t, f);
      assert TableAt(w, t.root, va, t.level[f]) == At(f);
    }
    forall va: VirtAddr, n: nat | n <= TABLE_LEVELS && TableAt(w, t.root, va, n) == At(f)
      ensures f in t.level && t.level[f] == n
    {
      WalkStaysInside(w, t, va, n);
    }
  }

  /** No frame leaks: after any `map`, failed or not, the tables the walks reach are the ones they reached before and
      the frames that left the stock, and nothing else. */
  lemma MapLeaksNoFrame(m: Mem, t: Tree, va: VirtAddr, pa: PhysFrame, flags: bv32, f: PhysFrame)
    requires Inv(m, t)
    ensures var m' := Map(m, t.root, va, pa, flags).0;
      && m'.free <= m.free
      && (Reachable(m'.words, t.root, f) <==> Reachable(m.words, t.root, f) || f in m.free[|m'.free|..])
  {
    hide Map, Look, Reachable, WellFormed, IsPageAligned, Rejected, LinksKept;
    var t' := MapOutcome(m, t, va, pa, flags);
    var m' := Map(m, t.root, va, pa, flags).0;
    OwnedIffReachable(m.words, t, f);
    OwnedIffReachable(m'.words, t', f);
    assert f in t'.level.Keys <==> f in t.level.Keys || f in Elements(m.free[|m'.free|..]);
  }

  // ----- operations against one another --------------------------------------------------------------------------

  /** Unmapping a page just mapped gives the flush token and the frame back and restores every translation; the frame is
      the one mapped exactly when the descriptor can carry it. */
  lemma UnmapUndoesMap(m: Mem, t: Tree, va: VirtAddr, pa: PhysFrame, flags: bv32)
    requires Inv(m, t) && Map(m, t.root, va, pa, flags).1.Ok?
    ensures var m1 := Map(m, t.root, va, pa, flags).0;
      var (m2, r) := Unmap(m1, t.root, va);
      && r == Ok((va, PhysFrame(pa.addr & PAGE_OA_MASK_L3)))
      && (r == Ok((va, pa)) <==> Representable(pa))
      && SameTranslations(m.words, m2.words, t.root) && m2.free == m1.free
  {
    hide Map, Unmap, Look, SamePage, Inv, Moved, IsPageAligned, Rejected, Missing, PageDescriptor, LeafFrame,
      FlagsToDescriptorBits, Representable;
    var t' := MapOutcome(m, t, va, pa, flags);
    var m1 := Map(m, t.root, va, pa, flags).0;
    UnmapOutcome(m1, t', va);
    SamePageIffPageNumber(va, va);
    PageDescriptorFrame(pa, FlagsToDescriptorBits(flags));
    var m2 := Unmap(m1, t.root, va).0;
    forall vb: VirtAddr ensures Look(m2.words, t.root, vb) == Look(m.words, t.root, vb) {
      if SamePage(va, vb) {
        SamePageIsEqualLook(m.words, t.root, va, vb);
      }
    }
  }

  /** Every page the tables hold is one `translate` answers for. */
  ghost predicate Served(w: Words, root: PhysFrame) {
    forall va: VirtAddr :: Look(w, root, va).Page? ==> Answer(Look(w, root, va)).Ok?
  }

  lemma LeafIsServed(pa: PhysFrame, flags: bv32)
    ensures Answer(Page(Leaf(pa, flags))).Ok?
  {
    hide Leaf, LeafFrame, DescriptorBitsToFlags;
    LeafIsValid(pa, flags);
  }

  /** `map` and `unmap`, of any address and whatever they answer, keep every page served. */
  lemma OperationsKeepServed(m: Mem, t: Tree, va: VirtAddr, pa: PhysFrame, flags: bv32)
    requires Inv(m, t) && Served(m.words, t.root)
    ensures Served(Map(m, t.root, va, pa, flags).0.words, t.root)
    ensures Served(Unmap(m, t.root, va).0.words, t.root)
  {
    hide Map, Unmap, Look, SamePage, Inv, Moved, IsPageAligned, Rejected, Missing, Leaf, LeafFrame, Answer;
    var _ := MapOutcome(m, t, va, pa, flags);
    UnmapOutcome(m, t, va);
    LeafIsServed(pa, flags);
  }

  /** Exactly when `unmap` succeeds on a page that `translate` refuses: the leaf is valid but reserved or unaccessed.
      Where every page is served there is none, and the two succeed alike and name the same frame. */
  lemma UnmapBeyondTranslateIff(m: Mem, t: Tree, va: VirtAddr)
    requires Inv(m, t) && IsPageAligned(va.addr)
    ensures Unmap(m, t.root, va).1.Ok? && Translate(m.words, t.root, va).Err?
      <==> Look(m.words, t.root, va).Page?
           && !(HasTableOrPageBit(Look(m.words, t.root, va).desc) && HasAccessFlag(Look(m.words, t.root, va).desc))
    ensures Translate(m.words, t.root, va).Ok? ==>
      Unmap(m, t.root, va).1 == Ok((va, Translate(m.words, t.root, va).value.0))
    ensures Served(m.words, t.root) ==> (Unmap(m, t.root, va).1.Ok? <==> Translate(m.words, t.root, va).Ok?)
  {
    hide Unmap, Look, Inv, Moved, HasTableOrPageBit, HasAccessFlag, DescriptorBitsToFlags, LeafFrame;
    UnmapOutcome(m, t, va);
  }

  /** If one page can be mapped and then another, they can be mapped in the other order as well, with the same
      translations and as many frames left. */
  lemma MapsOfDifferentPagesCommute(m: Mem, t: Tree, va: VirtAddr, pa: PhysFrame, fa: bv32,
                                    vb: VirtAddr, pb: PhysFrame, fb: bv32)
    requires Inv(m, t) && PageNumber(va) != PageNumber(vb)
    requires Map(m, t.root, va, pa, fa).1.Ok? && Map(Map(m, t.root, va, pa, fa).0, t.root, vb, pb, fb).1.Ok?
    ensures var ab := Map(Map(m, t.root, va, pa, fa).0, t.root, vb, pb, fb);
      var ba := Map(Map(m, t.root, vb, pb, fb).0, t.root, va, pa, fa);
      && Map(m, t.root, vb, pb, fb).1.Ok? && ba.1.Ok?
      && SameTranslations(ab.0.words, ba.0.words, t.root) && |ab.0.free| == |ba.0.free|
  {
    hide Map, Look, SamePage, PageNumber, Inv, Moved, IsPageAligned, Rejected, Missing, Leaf;
    SecondMapFirst(m, t, va, pa, fa, vb, pb, fb);
    MissingTogether(m, t, va, pa, fa, vb, pb, fb);
    var ta := MapOutcome(m, t, va, pa, fa);
    var tb := MapOutcome(m, t, vb, pb, fb);
    var ma, mb := Map(m, t.root, va, pa, fa).0, Map(m, t.root, vb, pb, fb).0;
    var _ := MapOutcome(ma, ta, vb, pb, fb);
    var _ := MapOutcome(mb, tb, va, pa, fa);
    SamePageIffPageNumber(vb, va);
    var ab, ba := Map(ma, t.root, vb, pb, fb).0, Map(mb, t.root, va, pa, fa).0;
    forall vc: VirtAddr ensures Look(ab.words, t.root, vc) == Look(ba.words, t.root, vc) {
      SamePageIffPageNumber(va, vc);
      SamePageIffPageNumber(vb, vc);
    }
  }

  lemma SecondMapFirst(m: Mem, t: Tree, va: VirtAddr, pa: PhysFrame, fa: bv32, vb: VirtAddr, pb: PhysFrame, fb: bv32)
    requires Inv(m, t) && PageNumber(va) != PageNumber(vb)
    requires Map(m, t.root, va, pa, fa).1.Ok? && Map(Map(m, t.root, va, pa, fa).0, t.root, vb, pb, fb).1.Ok?
    ensures Map(m, t.root, vb, pb, fb).1.Ok?
  {
    hide Map, Look, SamePage, PageNumber, Inv, Moved, IsPageAligned, Rejected, Missing, Leaf;
    var ta := MapOutcome(m, t, va, pa, fa);
    var _ := MapOutcome(m, t, vb, pb, fb);
    var _ := MapOutcome(Map(m, t.root, va, pa, fa).0, ta, vb, pb, fb);
    SamePageIffPageNumber(va, vb);
    FirstMapTakesLess(m, t, va, pa, fa, vb);
  }

  /** Mapping `va` first saves `vb` at most the frames it takes itself. */
  lemma FirstMapTakesLess(m: Mem, t: Tree, va: VirtAddr, pa: PhysFrame, fa: bv32, vb: VirtAddr)
    requires Inv(m, t) && Map(m, t.root, va, pa, fa).1.Ok?
    ensures Missing(m.words, t.root, vb)
      <= Missing(m.words, t.root, va) + Missing(Map(m, t.root, va, pa, fa).0.words, t.root, vb)
  {
    hide Map, Inv, Missing, VaIndex, TableAt, Shared;
    MapBuilds(m, t, va, pa, fa);
    SharedDepths(m.words, t.root, va, vb);
  }
}
