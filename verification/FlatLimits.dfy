/** Where the fake and the tables part: addresses with bits above 47 set, exactly. */
module FlatLimits {
  import opened Options
  import opened Vmsav8
  import opened PageTables
  import opened Walker
  import opened FlatModel

  /** The address of the low half whose page the tables take `va` for. */
  function Alias(va: VirtAddr): VirtAddr {
    VirtAddr(LowPart(va.addr))
  }

  lemma AliasMeans(va: VirtAddr)
    ensures Low(Alias(va)) && PageNumber(Alias(va)) == PageNumber(va) && (Alias(va) == va <==> Low(va))
    ensures IsPageAligned(Alias(va).addr) <==> IsPageAligned(va.addr)
  {
    hide LowBits, PageBits, LowPart, IsPageAligned;
    LowPartIsLow(va.addr);
    LowPartKeepsPage(va.addr);
    AliasAligned(va.addr);
  }

  lemma AliasAligned(addr: bv64)
    ensures IsPageAligned(LowPart(addr)) <==> IsPageAligned(addr)
  {
  }

  lemma TablesSeeAlias(w: Words, root: PhysFrame, va: VirtAddr)
    ensures Look(w, root, va) == Look(w, root, Alias(va))
  {
    hide Look, Alias, Low, PageNumber, SamePage, IsPageAligned;
    AliasMeans(va);
    SamePageIffPageNumber(va, Alias(va));
    SamePageIsEqualLook(w, root, va, Alias(va));
  }

  /** `translate`, for every address: the tables answer for the alias, so they reply as the fake does exactly when the
      fake holds the same for both pages. */
  lemma TranslateAgreesIff(w: Words, root: PhysFrame, fake: Mappings, va: VirtAddr)
    requires Agrees(w, root, fake)
    ensures Translate(w, root, va) == FlatTranslate(fake, va)
      <==> FlatTranslate(fake, va) == FlatTranslate(fake, Alias(va))
  {
    hide Look, Low, Alias, Answer, PageBase, PageNumber, IsPageAligned;
    AliasMeans(va);
    TablesSeeAlias(w, root, va);
    assert Translate(w, root, Alias(va)) == FlatTranslate(fake, Alias(va));
  }

  /** The frame the fake holds at a page base. */
  function FrameAt(fake: Mappings, va: VirtAddr): Option<PhysFrame> {
    if va in fake then Some(fake[va].0) else None
  }

  /** `unmap`, for every address: the replies are alike exactly when the address is misaligned or the fake holds the
      same frame for it and for its alias, and agreement is kept exactly when the address is misaligned, low, or its alias
      unmapped. */
  lemma UnmapAgreesIff(m: Mem, t: Tree, fake: Mappings, va: VirtAddr)
    requires Inv(m, t) && Agrees(m.words, t.root, fake)
    ensures var (m', r) := Unmap(m, t.root, va);
      var (fake', s) := FlatUnmap(fake, va);
      && (r == s <==> !IsPageAligned(va.addr) || FrameAt(fake, va) == FrameAt(fake, Alias(va)))
      && (Agrees(m'.words, t.root, fake') <==> !IsPageAligned(va.addr) || Low(va) || Alias(va) !in fake)
  {
    hide Look, Low, Alias, PageBase, PageNumber, IsPageAligned, Unmap, Inv, Moved, SamePage, Agrees, Translate;
    AliasMeans(va);
    UnmapOutcome(m, t, va);
    if !IsPageAligned(va.addr) {
    } else if Low(va) {
      UnmapKeepsAgreement(m, t, fake, va);
    } else {
      UnmapWide(m, t, fake, va);
    }
  }

  lemma UnmapWide(m: Mem, t: Tree, fake: Mappings, va: VirtAddr)
    requires Inv(m, t) && Agrees(m.words, t.root, fake) && IsPageAligned(va.addr) && !Low(va)
    ensures var (m', r) := Unmap(m, t.root, va);
      var (fake', s) := FlatUnmap(fake, va);
      && (r == s <==> FrameAt(fake, va) == FrameAt(fake, Alias(va)))
      && (Agrees(m'.words, t.root, fake') <==> Alias(va) !in fake)
  {
    hide Look, Low, Alias, PageBase, PageNumber, IsPageAligned, Unmap, Inv, Moved, SamePage, LeafFrame,
      DescriptorBitsToFlags, HasTableOrPageBit, HasAccessFlag;
    var vb := Alias(va);
    AliasMeans(va);
    BaseOfAligned(vb);
    TablesSeeAlias(m.words, t.root, va);
    AgreesOn(m.words, t.root, fake, vb);
    UnmapOutcome(m, t, va);
    var w' := Unmap(m, t.root, va).0.words;
    var fake' := FlatUnmap(fake, va).0;
    SamePageIffPageNumber(va, vb);
    if vb in fake {
      assert Look(w', t.root, vb) == Unmapped && vb in fake';
      assert Translate(w', t.root, vb) != FlatTranslate(fake', vb);
    } else {
      LowLookupsStay(fake, va);
      forall vc: VirtAddr | Low(vc)
        ensures Translate(w', t.root, vc) == FlatTranslate(fake', vc)
        ensures Look(w', t.root, vc).Page? ==> Answer(Look(w', t.root, vc)).Ok?
      {
        assert Translate(m.words, t.root, vc) == FlatTranslate(fake, vc);
      }
    }
  }

  /** Removing a wide page from the fake changes no lookup of the low half. */
  lemma LowLookupsStay(fake: Mappings, va: VirtAddr)
    requires !Low(va)
    ensures forall vc: VirtAddr | Low(vc) :: FlatTranslate(fake - {va}, vc) == FlatTranslate(fake, vc)
  {
    hide LowBits, BaseBits;
    forall vc: VirtAddr | Low(vc) ensures PageBase(vc) != va {
      BaseIsLow(vc.addr);
    }
  }

  lemma BaseIsLow(addr: bv64)
    requires LowBits(addr)
    ensures LowBits(BaseBits(addr))
  {
  }

  /** A first `map` at address 2^48 succeeds on both, and `translate` of address 0 then answers on the tables and not on
      the fake. */
  lemma WideMapPartsTheTwo()
    ensures var m := BlankMem();
      var va := VirtAddr(0x0001_0000_0000_0000);
      var (m', r) := Map(m, BLANK_ROOT, va, BLANK_PAGE, WRITE);
      var (fake', s) := FlatMap(map[], va, BLANK_PAGE, WRITE);
      && Agrees(m.words, BLANK_ROOT, map[]) && r == s == Ok(va) && !Agrees(m'.words, BLANK_ROOT, fake')
      && Translate(m'.words, BLANK_ROOT, VirtAddr(0)).Ok? && FlatTranslate(fake', VirtAddr(0)) == Err(NotMapped)
  {
    hide Map, Look, BlankMem, Inv, Moved, Missing, SamePage, Leaf, LeafFrame, DescriptorBitsToFlags;
    var va := VirtAddr(0x0001_0000_0000_0000);
    WideFacts();
    BlankMapSucceeds(va, BLANK_PAGE, WRITE);
    NewAddressSpace(BlankMem(), BLANK_ROOT);
    var _ := MapOutcome(BlankMem(), Tree(BLANK_ROOT, map[BLANK_ROOT := 0], map[]), va, BLANK_PAGE, WRITE);
    SamePageIffPageNumber(va, VirtAddr(0));
    AnswerOfLeaf(BLANK_PAGE, WRITE);
  }

  lemma WideFacts()
    ensures var va := VirtAddr(0x0001_0000_0000_0000);
      && IsPageAligned(va.addr) && !Rejected(WRITE) && Low(VirtAddr(0))
      && PageNumber(va) == PageNumber(VirtAddr(0)) && PageBase(VirtAddr(0)) == VirtAddr(0)
  {
  }
}
