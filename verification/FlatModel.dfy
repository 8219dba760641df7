/** The flat specification of an address space and its agreement, over whole runs, with the four-level tables. */
module FlatModel {
  import opened Vmsav8
  import opened PageTables
  import opened Walker

  /** One mapping per page base, kept exactly as the caller gave it. */
  type Mappings = map<VirtAddr, (PhysFrame, bv32)>

  function BaseBits(addr: bv64): bv64 {
    addr & 0xFFFF_FFFF_FFFF_F000
  }

  function PageBase(va: VirtAddr): VirtAddr {
    VirtAddr(BaseBits(va.addr))
  }

  function FlatMap(fake: Mappings, va: VirtAddr, pa: PhysFrame, flags: bv32): (Mappings, Result<VirtAddr>) {
    if !IsPageAligned(va.addr) then (fake, Err(MisalignedAddress))
    else if Rejected(flags) then (fake, Err(InvalidFlags))
    else if va in fake then (fake, Err(AlreadyMapped))
    else (fake[va := (pa, flags)], Ok(va))
  }

  function FlatUnmap(fake: Mappings, va: VirtAddr): (Mappings, Result<(VirtAddr, PhysFrame)>) {
    if !IsPageAligned(va.addr) then (fake, Err(MisalignedAddress))
    else if va in fake then (fake - {va}, Ok((va, fake[va].0)))
    else (fake, Err(NotMapped))
  }

  function FlatTranslate(fake: Mappings, va: VirtAddr): Result<(PhysFrame, bv32)> {
    if PageBase(va) in fake then Ok(fake[PageBase(va)]) else Err(NotMapped)
  }

  // ----- agreement ---------------------------------------------------------------------------------

  /** A virtual address of the low half: the tables ignore bits 48 and above. */
  predicate Low(va: VirtAddr) {
    LowBits(va.addr)
  }

  predicate LowBits(addr: bv64) {
    addr & 0xFFFF_0000_0000_0000 == 0
  }

  predicate NamedOnly(flags: bv32) {
    flags & NAMED_FLAGS == flags
  }

  /** Both answer every `translate` of the low half alike, and every leaf the tables hold is one `translate` serves. */
  ghost predicate Agrees(w: Words, root: PhysFrame, fake: Mappings) {
    && (forall va: VirtAddr | Low(va) :: Translate(w, root, va) == FlatTranslate(fake, va))
    && forall va: VirtAddr | Low(va) :: Look(w, root, va).Page? ==> Answer(Look(w, root, va)).Ok?
  }

  function ShiftBack(page: bv64): bv64 {
    page << 12
  }

  lemma PageOfBase(addr: bv64)
    ensures PageBits(BaseBits(addr)) == PageBits(addr)
  {
  }

  lemma BaseOfPage(addr: bv64)
    requires LowBits(addr)
    ensures BaseBits(addr) == ShiftBack(PageBits(addr))
  {
  }

  /** Within the low half, pages are told apart by their base address. */
  lemma PageBaseIffPageNumber(va: VirtAddr, vb: VirtAddr)
    requires Low(va) && Low(vb)
    ensures PageBase(va) == PageBase(vb) <==> PageNumber(va) == PageNumber(vb)
  {
    hide LowBits, BaseBits, PageBits, ShiftBack;
    PageOfBase(va.addr);
    PageOfBase(vb.addr);
    BaseOfPage(va.addr);
    BaseOfPage(vb.addr);
  }

  lemma BaseOfAligned(va: VirtAddr)
    ensures IsPageAligned(va.addr) <==> PageBase(va) == va
  {
  }

  /** The page base of a low address, seen from a mapped page. */
  lemma SamePageIffBase(va: VirtAddr, vb: VirtAddr)
    requires Low(va) && Low(vb) && IsPageAligned(va.addr)
    ensures SamePage(va, vb) <==> PageBase(vb) == va
  {
    hide Low, PageBase, IsPageAligned, SamePage, PageNumber;
    PageBaseIffPageNumber(va, vb);
    BaseOfAligned(va);
    SamePageIffPageNumber(va, vb);
  }

  /** What `translate` answers for a page just mapped. */
  lemma AnswerOfLeaf(pa: PhysFrame, flags: bv32)
    requires !Rejected(flags)
    ensures Answer(Page(Leaf(pa, flags))).Ok?
    ensures Answer(Page(Leaf(pa, flags))) == Ok((pa, flags)) <==> Representable(pa) && NamedOnly(flags)
  {
    hide PageDescriptor, FlagsToDescriptorBits, DescriptorBitsToFlags, LeafFrame, Representable, Rejected;
    PageDescriptorFrame(pa, FlagsToDescriptorBits(flags));
    PageDescriptorFlags(pa.addr, flags);
  }

  function LowPart(addr: bv64): bv64 {
    addr & 0x0000_FFFF_FFFF_FFFF
  }

  lemma LowPartIsLow(addr: bv64)
    ensures LowBits(LowPart(addr))
    ensures LowPart(addr) == addr <==> LowBits(addr)
  {
  }

  lemma LowPartKeepsPage(addr: bv64)
    ensures PageBits(LowPart(addr)) == PageBits(addr)
  {
  }

  lemma LowPartKeepsAlignment(addr: bv64)
    ensures IsPageAligned(addr) ==> IsPageAligned(LowPart(addr))
  {
  }

  /** Every page-aligned address shares its page with one of the low half. */
  lemma LowAlias(va: VirtAddr) returns (vb: VirtAddr)
    requires IsPageAligned(va.addr)
    ensures Low(vb) && PageBase(vb) == vb && PageNumber(vb) == PageNumber(va)
    ensures vb == va <==> Low(va)
  {
    hide LowBits, PageBits, BaseBits, IsPageAligned, LowPart;
    vb := VirtAddr(LowPart(va.addr));
    LowPartIsLow(va.addr);
    LowPartKeepsPage(va.addr);
    LowPartKeepsAlignment(va.addr);
    BaseOfAligned(vb);
  }

  /** The agreement, unfolded to what each operation branches on. */
  lemma AgreesOn(w: Words, root: PhysFrame, fake: Mappings, va: VirtAddr)
    requires Agrees(w, root, fake) && Low(va)
    ensures PageBase(va) in fake ==> Look(w, root, va).Page? && Answer(Look(w, root, va)) == Ok(fake[PageBase(va)])
    ensures PageBase(va) !in fake ==> Look(w, root, va) == Unmapped
  {
    hide Low, PageBase, Look, HasTableOrPageBit, HasAccessFlag, LeafFrame, DescriptorBitsToFlags;
    assert Translate(w, root, va) == FlatTranslate(fake, va);
  }

  /** A successful `map` keeps the agreement exactly when its page is in the low half, its frame is page aligned and
      below 2^48, and its flags have no unnamed bit. */
  lemma MapKeepsAgreementIff(m: Mem, t: Tree, fake: Mappings, va: VirtAddr, pa: PhysFrame, flags: bv32)
    requires Inv(m, t) && Agrees(m.words, t.root, fake) && Map(m, t.root, va, pa, flags).1.Ok?
    ensures Agrees(Map(m, t.root, va, pa, flags).0.words, t.root, fake[va := (pa, flags)])
      <==> Low(va) && Representable(pa) && NamedOnly(flags)
  {
    hide Low, PageBase, Look, IsPageAligned, SamePage, PageNumber, Representable, NamedOnly, Rejected, Leaf, Map, Answer,
      Inv, Moved, Missing;
    var w := m.words;
    var t' := MapOutcome(m, t, va, pa, flags);
    var w' := Map(m, t.root, va, pa, flags).0.words;
    var fake' := fake[va := (pa, flags)];
    AnswerOfLeaf(pa, flags);
    BaseOfAligned(va);
    assert SamePage(va, va) by { SamePageIffPageNumber(va, va); }
    if Low(va) {
      assert Translate(w', t.root, va) == Ok((pa, flags)) <==> Representable(pa) && NamedOnly(flags);
      if Representable(pa) && NamedOnly(flags) {
        forall vb: VirtAddr | Low(vb)
          ensures Translate(w', t.root, vb) == FlatTranslate(fake', vb)
          ensures Look(w', t.root, vb).Page? ==> Answer(Look(w', t.root, vb)).Ok?
        {
          SamePageIffBase(va, vb);
          assert Translate(w, t.root, vb) == FlatTranslate(fake, vb);
        }
      }
    } else {
      var vb := LowAlias(va);
      SamePageIffPageNumber(va, vb);
      SamePageIsEqualLook(w, t.root, va, vb);
      AgreesOn(w, t.root, fake, vb);
      assert Translate(w', t.root, vb).Ok? && FlatTranslate(fake', vb).Err?;
    }
  }

  /** An `unmap` in the low half answers alike on both and keeps the agreement. */
  lemma UnmapKeepsAgreement(m: Mem, t: Tree, fake: Mappings, va: VirtAddr)
    requires Inv(m, t) && Agrees(m.words, t.root, fake) && Low(va)
    ensures var (m', r) := Unmap(m, t.root, va);
      var (fake', s) := FlatUnmap(fake, va);
      r == s && Agrees(m'.words, t.root, fake')
  {
    hide Low, PageBase, Look, IsPageAligned, SamePage, Unmap, Inv, Moved, LeafFrame, DescriptorBitsToFlags,
      HasTableOrPageBit, HasAccessFlag;
    var w := m.words;
    UnmapOutcome(m, t, va);
    var (m', r) := Unmap(m, t.root, va);
    var (fake', s) := FlatUnmap(fake, va);
    BaseOfAligned(va);
    AgreesOn(w, t.root, fake, va);
    if r.Ok? {
      forall vb: VirtAddr | Low(vb)
        ensures Translate(m'.words, t.root, vb) == FlatTranslate(fake', vb)
        ensures Look(m'.words, t.root, vb).Page? ==> Answer(Look(m'.words, t.root, vb)).Ok?
      {
        SamePageIffBase(va, vb);
        assert Translate(w, t.root, vb) == FlatTranslate(fake, vb);
      }
    }
  }

  // ----- whole runs --------------------------------------------------------------------------------

  datatype Op = MapOp(va: VirtAddr, pa: PhysFrame, flags: bv32) | UnmapOp(va: VirtAddr) | TranslateOp(va: VirtAddr)

  datatype Reply =
    | Mapped(token: Result<VirtAddr>)
    | Removed(frame: Result<(VirtAddr, PhysFrame)>)
    | Answered(mapping: Result<(PhysFrame, bv32)>)

  predicate InRange(op: Op) {
    match op
    case MapOp(va, pa, flags) => Low(va) && Representable(pa) && NamedOnly(flags)
    case UnmapOp(va) => Low(va)
    case TranslateOp(va) => Low(va)
  }

  function TableStep(m: Mem, root: PhysFrame, op: Op): (Mem, Reply) {
    match op
    case MapOp(va, pa, flags) => var (m', r) := Map(m, root, va, pa, flags); (m', Mapped(r))
    case UnmapOp(va) => var (m', r) := Unmap(m, root, va); (m', Removed(r))
    case TranslateOp(va) => (m, Answered(Translate(m.words, root, va)))
  }

  function FlatStep(fake: Mappings, op: Op): (Mappings, Reply) {
    match op
    case MapOp(va, pa, flags) => var (fake', r) := FlatMap(fake, va, pa, flags); (fake', Mapped(r))
    case UnmapOp(va) => var (fake', r) := FlatUnmap(fake, va); (fake', Removed(r))
    case TranslateOp(va) => (fake, Answered(FlatTranslate(fake, va)))
  }

  /** The replies of a run of the tables. */
  function TableRun(m: Mem, root: PhysFrame, ops: seq<Op>): seq<Reply>
    decreases ops
  {
    if ops == [] then []
    else
      var (m', reply) := TableStep(m, root, ops[0]);
      [reply] + TableRun(m', root, ops[1..])
  }

  function FlatRun(fake: Mappings, ops: seq<Op>): seq<Reply>
    decreases ops
  {
    if ops == [] then []
    else
      var (fake', reply) := FlatStep(fake, ops[0]);
      [reply] + FlatRun(fake', ops[1..])
  }

  function Maps(ops: seq<Op>): nat {
    if ops == [] then 0 else (if ops[0].MapOp? then 1 else 0) + Maps(ops[1..])
  }

  /** One step: the replies are equal unless the tables ran out of frames, and then nothing any page translates to has
      changed. A `map` takes at most three frames; nothing else takes any. */
  lemma StepAgrees(m: Mem, t: Tree, fake: Mappings, op: Op) returns (t': Tree)
    requires Inv(m, t) && Agrees(m.words, t.root, fake) && InRange(op)
    ensures var (m', reply) := TableStep(m, t.root, op);
      var (fake', expected) := FlatStep(fake, op);
      && Inv(m', t') && t'.root == t.root
      && |m'.free| >= |m.free| - (if op.MapOp? then TABLE_LEVELS else 0)
      && if reply == Mapped(Err(OutOfFrames))
         then op.MapOp? && |m.free| < TABLE_LEVELS && Agrees(m'.words, t.root, fake)
         else reply == expected && Agrees(m'.words, t.root, fake')
  {
    t' := t;
    match op
    case MapOp(va, pa, flags) => t' := MapStepAgrees(m, t, fake, va, pa, flags);
    case UnmapOp(va) =>
      UnmapKeepsAgreement(m, t, fake, va);
      assert Unmap(m, t.root, va).0.free == m.free && Inv(Unmap(m, t.root, va).0, t) by { UnmapOutcome(m, t, va); }
    case TranslateOp(va) => assert Translate(m.words, t.root, va) == FlatTranslate(fake, va);
  }

  lemma MapStepAgrees(m: Mem, t: Tree, fake: Mappings, va: VirtAddr, pa: PhysFrame, flags: bv32) returns (t': Tree)
    requires Inv(m, t) && Agrees(m.words, t.root, fake) && Low(va) && Representable(pa) && NamedOnly(flags)
    ensures var (m', r) := Map(m, t.root, va, pa, flags);
      var (fake', s) := FlatMap(fake, va, pa, flags);
      && Inv(m', t') && t'.root == t.root && |m'.free| >= |m.free| - TABLE_LEVELS
      && if r == Err(OutOfFrames) then |m.free| < TABLE_LEVELS && Agrees(m'.words, t.root, fake)
         else r == s && Agrees(m'.words, t.root, fake')
  {
    hide Low, PageBase, Look, IsPageAligned, Representable, NamedOnly, Rejected, Map, Inv, Moved, Updated, Answer;
    t' := MapOutcome(m, t, va, pa, flags);
    BaseOfAligned(va);
    AgreesOn(m.words, t.root, fake, va);
    var (m', r) := Map(m, t.root, va, pa, flags);
    if r.Ok? {
      MapKeepsAgreementIff(m, t, fake, va, pa, flags);
    } else if r == Err(OutOfFrames) {
      forall vb: VirtAddr | Low(vb)
        ensures Translate(m'.words, t.root, vb) == FlatTranslate(fake, vb)
        ensures Look(m'.words, t.root, vb).Page? ==> Answer(Look(m'.words, t.root, vb)).Ok?
      {
        assert Look(m'.words, t.root, vb) == Look(m.words, t.root, vb);
        assert Translate(m.words, t.root, vb) == FlatTranslate(fake, vb);
      }
    }
  }

  /** Refinement over every run: with three free frames for each `map`, the four-level tables and the flat map give
      the same reply to every operation. */
  lemma {:induction false} RunsAgree(m: Mem, t: Tree, fake: Mappings, ops: seq<Op>)
    requires Inv(m, t) && Agrees(m.words, t.root, fake)
    requires forall op | op in ops :: InRange(op)
    requires |m.free| >= TABLE_LEVELS * Maps(ops)
    ensures TableRun(m, t.root, ops) == FlatRun(fake, ops)
    decreases ops
  {
    hide Inv, Agrees, TableStep, FlatStep, InRange;
    if ops != [] {
      var t' := StepAgrees(m, t, fake, ops[0]);
      RunsAgree(TableStep(m, t.root, ops[0]).0, t', FlatStep(fake, ops[0]).0, ops[1..]);
    }
  }

  /** A zeroed root is a well-formed, empty address space that agrees with the empty flat map. */
  lemma NewAddressSpace(m: Mem, root: PhysFrame)
    requires Stocked(m) && root !in m.free && Representable(root) && Zeroed(m.words, root)
    ensures Inv(m, Tree(root, map[root := 0], map[])) && Agrees(m.words, root, map[])
  {
    hide VaIndex, Representable;
    ZeroIsInvalid();
    forall va: VirtAddr ensures Look(m.words, root, va) == Unmapped {
      EmptyRoot(m.words, root, va, TABLE_LEVELS);
    }
    forall s: Slot | s.table == root ensures !IsValid(m.words[s]) {
      assert s == Slot(root, s.idx);
    }
  }

  // A machine to start from: zeroed memory, a root frame, a page frame and three frames in stock.
  const BLANK_ROOT := PhysFrame(0x1000)
  const BLANK_PAGE := PhysFrame(0x5000)

  predicate Everywhere(s: Slot) {
    true
  }

  ghost function BlankMem(): Mem {
    Mem(imap s: Slot | Everywhere(s) :: 0 as bv64, [PhysFrame(0x2000), PhysFrame(0x3000), PhysFrame(0x4000)])
  }

  /** The first `map` from there succeeds for every aligned address. */
  lemma BlankMapSucceeds(va: VirtAddr, pa: PhysFrame, flags: bv32)
    requires IsPageAligned(va.addr) && !Rejected(flags)
    ensures var m := BlankMem();
      && Stocked(m) && BLANK_ROOT !in m.free && Representable(BLANK_ROOT) && Zeroed(m.words, BLANK_ROOT)
      && Look(m.words, BLANK_ROOT, va) == Unmapped
      && Map(m, BLANK_ROOT, va, pa, flags).1 == Ok(va)
  {
    hide Map, IsPageAligned, Rejected, VaIndex, Moved, Leaf;
    var m := BlankMem();
    NewAddressSpace(m, BLANK_ROOT);
    EmptyRoot(m.words, BLANK_ROOT, va, TABLE_LEVELS);
    var _ := MapOutcome(m, Tree(BLANK_ROOT, map[BLANK_ROOT := 0], map[]), va, pa, flags);
  }

  lemma {:induction false} EmptyRoot(w: Words, root: PhysFrame, va: VirtAddr, n: nat)
    requires Zeroed(w, root) && 0 < n <= TABLE_LEVELS
    ensures TableAt(w, root, va, n) == Hole(0)
  {
    hide VaIndex;
    ZeroIsInvalid();
    if n > 1 { EmptyRoot(w, root, va, n - 1); }
    else { assert TableAt(w, root, va, 0) == At(root); assert w[Slot(root, VaIndex(va, 0))] == 0; }
  }
}
