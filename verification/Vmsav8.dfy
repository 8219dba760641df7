/** Descriptor encoders and decoders of the VMSAv8-64 translation tables (4 KiB granule), on raw 64-bit words. */
module Vmsav8 {
  import opened Options

  // Mapping flags: the five named bits of a 32-bit word.
  const WRITE: bv32 := 0x01
  const EXECUTE: bv32 := 0x02
  const USER: bv32 := 0x04
  const DEVICE: bv32 := 0x08
  const GLOBAL: bv32 := 0x10
  const NAMED_FLAGS: bv32 := 0x1F

  const DESC_VALID_BIT: bv64 := 0x1
  const DESC_TABLE_OR_PAGE_BIT: bv64 := 0x2
  const DESC_AF_BIT: bv64 := 0x400
  const DESC_NG_BIT: bv64 := 0x800
  const DESC_PXN_BIT: bv64 := 0x0020_0000_0000_0000
  const DESC_UXN_BIT: bv64 := 0x0040_0000_0000_0000

  const BLOCK_OA_MASK_L2: bv64 := 0x0000_FFFF_FFE0_0000
  const PAGE_OA_MASK_L3: bv64 := 0x0000_FFFF_FFFF_F000
  const TABLE_NLA_MASK: bv64 := 0x0000_FFFF_FFFF_F000

  const ATTR_IDX_DEVICE: bv8 := 0
  const ATTR_IDX_NORMAL: bv8 := 1
  const SH_NON_SHAREABLE: bv8 := 0
  const SH_INNER_SHAREABLE: bv8 := 3
  const AP_KERNEL_RW: bv8 := 0
  const AP_USER_RW: bv8 := 1
  const AP_KERNEL_RO: bv8 := 2
  const AP_USER_RO: bv8 := 3

  datatype DescriptorBits = DescriptorBits(attrIdx: bv8, ap: bv8, sh: bv8, pxn: bool, uxn: bool, ng: bool)

  predicate Contains(flags: bv32, other: bv32) {
    flags & other == other
  }

  function FlagsToDescriptorBits(flags: bv32): DescriptorBits {
    var device := Contains(flags, DEVICE);
    var write := Contains(flags, WRITE);
    var execute := Contains(flags, EXECUTE);
    var user := Contains(flags, USER);
    DescriptorBits(
      if device then ATTR_IDX_DEVICE else ATTR_IDX_NORMAL,
      if user then (if write then AP_USER_RW else AP_USER_RO) else (if write then AP_KERNEL_RW else AP_KERNEL_RO),
      if device then SH_NON_SHAREABLE else SH_INNER_SHAREABLE,
      device || !execute || user,
      device || !execute || !user,
      !Contains(flags, GLOBAL))
  }

  /** The attribute fields shared by block and page descriptors. */
  function AttributeBits(bits: DescriptorBits): bv64 {
    (((bits.attrIdx as bv64) & 0x7) << 2)
    | (((bits.ap as bv64) & 0x3) << 6)
    | (((bits.sh as bv64) & 0x3) << 8)
    | DESC_AF_BIT
    | (if bits.ng then DESC_NG_BIT else 0)
    | (if bits.pxn then DESC_PXN_BIT else 0)
    | (if bits.uxn then DESC_UXN_BIT else 0)
  }

  function BlockWord(attributes: bv64, pa: bv64): bv64 {
    DESC_VALID_BIT | attributes | (pa & BLOCK_OA_MASK_L2)
  }

  function BlockDescriptor(pa: bv64, bits: DescriptorBits): bv64 {
    BlockWord(AttributeBits(bits), pa)
  }

  function PageWord(attributes: bv64, pa: bv64): bv64 {
    DESC_VALID_BIT | DESC_TABLE_OR_PAGE_BIT | attributes | (pa & PAGE_OA_MASK_L3)
  }

  function PageDescriptor(pa: bv64, bits: DescriptorBits): bv64 {
    PageWord(AttributeBits(bits), pa)
  }

  function TableDescriptor(nextLevel: PhysFrame): bv64 {
    DESC_VALID_BIT | DESC_TABLE_OR_PAGE_BIT | (nextLevel.addr & TABLE_NLA_MASK)
  }

  function DescriptorBitsToFlags(desc: bv64): bv32 {
    var attrIdx := (desc >> 2) & 0x7;
    var ap := (desc >> 6) & 0x3;
    var user := ap & 1 != 0;
    var execute := if user then desc & DESC_UXN_BIT == 0 else desc & DESC_PXN_BIT == 0;
    (if ap & 2 == 0 then WRITE else 0)
    | (if execute then EXECUTE else 0)
    | (if user then USER else 0)
    | (if attrIdx == ATTR_IDX_DEVICE as bv64 then DEVICE else 0)
    | (if desc & DESC_NG_BIT == 0 then GLOBAL else 0)
  }

  predicate IsValid(d: bv64) {
    d & DESC_VALID_BIT != 0
  }

  predicate HasTableOrPageBit(d: bv64) {
    d & DESC_TABLE_OR_PAGE_BIT != 0
  }

  predicate HasAccessFlag(d: bv64) {
    d & DESC_AF_BIT != 0
  }

  /** A valid entry of level 0, 1 or 2 that leads to a next-level table. */
  predicate IsTable(d: bv64) {
    IsValid(d) && HasTableOrPageBit(d)
  }

  /** A physical frame, named by the address of its first byte. */
  datatype PhysFrame = PhysFrame(addr: bv64)

  function NextTable(d: bv64): PhysFrame {
    PhysFrame(d & TABLE_NLA_MASK)
  }

  /** The frame a page descriptor leads to. */
  function LeafFrame(d: bv64): PhysFrame {
    PhysFrame(d & PAGE_OA_MASK_L3)
  }

  const PAGE_SIZE_MASK: bv64 := 0xFFF

  predicate IsPageAligned(addr: bv64) {
    addr & PAGE_SIZE_MASK == 0
  }

  /** The checked constructor of frames: only page-aligned addresses name one. */
  function FromAligned(addr: bv64): Option<PhysFrame> {
    if IsPageAligned(addr) then Some(PhysFrame(addr)) else None
  }

  /** A frame the descriptors can carry: page aligned and below 2^48. */
  predicate Representable(f: PhysFrame) {
    f.addr & TABLE_NLA_MASK == f.addr
  }

  predicate Rejected(flags: bv32) {
    Contains(flags, DEVICE) && Contains(flags, EXECUTE)
  }

  lemma ZeroIsInvalid()
    ensures !IsValid(0)
  {
  }

  lemma TableDescriptorRoundTrip(f: PhysFrame)
    ensures IsTable(TableDescriptor(f))
    ensures NextTable(TableDescriptor(f)) == f <==> Representable(f)
  {
  }

  /** The attribute fields lie outside bits 1:0 and the output address, and carry the access flag. */
  lemma AttributeBitsApart(bits: DescriptorBits)
    ensures AttributeBits(bits) & (TABLE_NLA_MASK | 3) == 0
    ensures HasAccessFlag(AttributeBits(bits))
  {
  }

  /** The flags a leaf decodes to do not depend on its type bits or on its output address. */
  lemma FlagsIgnoreAddress(attributes: bv64, pa: bv64)
    ensures DescriptorBitsToFlags(PageWord(attributes, pa))
         == DescriptorBitsToFlags(attributes)
  {
  }

  /** DEVICE together with EXECUTE is the one combination of named flags the encoder coerces. */
  lemma AttributesRoundTrip(flags: bv32)
    ensures DescriptorBitsToFlags(AttributeBits(FlagsToDescriptorBits(flags)))
         == if Rejected(flags) then flags & NAMED_FLAGS & !EXECUTE else flags & NAMED_FLAGS
  {
    var a := AttributeBits(FlagsToDescriptorBits(flags));
    assert Contains(flags, DEVICE) || !Contains(flags, DEVICE);
    assert Contains(flags, EXECUTE) || !Contains(flags, EXECUTE);
    assert Contains(flags, USER) || !Contains(flags, USER);
    assert Contains(flags, WRITE) || !Contains(flags, WRITE);
    assert Contains(flags, GLOBAL) || !Contains(flags, GLOBAL);
  }

  lemma PageShape(a: bv64, pa: bv64)
    requires a & (TABLE_NLA_MASK | 3) == 0 && HasAccessFlag(a)
    ensures IsTable(PageWord(a, pa)) && HasAccessFlag(PageWord(a, pa))
    ensures LeafFrame(PageWord(a, pa)) == PhysFrame(pa & PAGE_OA_MASK_L3)
  {
  }

  /** A page descriptor is a valid, accessed leaf that gives back its frame exactly when the frame is representable. */
  lemma PageDescriptorFrame(f: PhysFrame, bits: DescriptorBits)
    ensures var d := PageDescriptor(f.addr, bits);
      && IsTable(d) && HasAccessFlag(d)
      && LeafFrame(d) == PhysFrame(f.addr & PAGE_OA_MASK_L3)
      && (LeafFrame(d) == f <==> Representable(f))
  {
    hide AttributeBits, PageWord, IsTable, HasAccessFlag, LeafFrame;
    AttributeBitsApart(bits);
    PageShape(AttributeBits(bits), f.addr);
    assert PhysFrame(f.addr & PAGE_OA_MASK_L3) == f <==> Representable(f);
  }

  /** The flags decoded from a page descriptor are the ones it was built from exactly when no unnamed bit is set
      and they are not DEVICE together with EXECUTE. */
  lemma PageDescriptorFlags(pa: bv64, flags: bv32)
    ensures var decoded := DescriptorBitsToFlags(PageDescriptor(pa, FlagsToDescriptorBits(flags)));
      && (!Rejected(flags) ==> decoded == flags & NAMED_FLAGS)
      && (decoded == flags <==> flags & NAMED_FLAGS == flags && !Rejected(flags))
  {
    hide AttributeBits, PageWord, DescriptorBitsToFlags, FlagsToDescriptorBits;
    FlagsIgnoreAddress(AttributeBits(FlagsToDescriptorBits(flags)), pa);
    AttributesRoundTrip(flags);
  }

  /** What an attribute field grants hardware: execution at each level, EL0 access, writing, memory type, shareability
      and whether the entry is global. */
  predicate Grants(d: bv64, flags: bv32) {
    var write, user, device := flags & 0x01 != 0, flags & 0x04 != 0, flags & 0x08 != 0;
    var execute := flags & 0x02 != 0 && !device;
    && (d & 0x0040_0000_0000_0000 == 0 <==> execute && user)
    && (d & 0x0020_0000_0000_0000 == 0 <==> execute && !user)
    && (d & 0x40 != 0 <==> user)
    && (d & 0x80 == 0 <==> write)
    && (d & 0x800 == 0 <==> flags & 0x10 != 0)
    && d & 0x1C == (if device then 0 else 0x4)
    && d & 0x300 == (if device then 0 else 0x300)
  }

  lemma AttributesGrant(flags: bv32)
    ensures Grants(AttributeBits(FlagsToDescriptorBits(flags)), flags)
  {
    assert Contains(flags, DEVICE) || !Contains(flags, DEVICE);
    assert Contains(flags, EXECUTE) || !Contains(flags, EXECUTE);
    assert Contains(flags, USER) || !Contains(flags, USER);
    assert Contains(flags, WRITE) || !Contains(flags, WRITE);
    assert Contains(flags, GLOBAL) || !Contains(flags, GLOBAL);
  }

  lemma AddressGrantsNothing(a: bv64, pa: bv64)
    ensures var fields := DESC_UXN_BIT | DESC_PXN_BIT | DESC_NG_BIT | 0x3DC;
      PageWord(a, pa) & fields == a & fields && BlockWord(a, pa) & fields == a & fields
  {
  }

  lemma GrantsOfFields(a: bv64, d: bv64, flags: bv32)
    requires var fields := DESC_UXN_BIT | DESC_PXN_BIT | DESC_NG_BIT | 0x3DC; d & fields == a & fields
    ensures Grants(a, flags) ==> Grants(d, flags)
  {
    assert d & DESC_UXN_BIT == a & DESC_UXN_BIT && d & DESC_PXN_BIT == a & DESC_PXN_BIT;
    assert d & DESC_NG_BIT == a & DESC_NG_BIT && d & 0x40 == a & 0x40 && d & 0x80 == a & 0x80;
    assert d & 0x1C == a & 0x1C && d & 0x300 == a & 0x300;
  }

  /** Whatever the address, a leaf grants exactly what its flags name: EL0 executes it only as an executable user page
      and EL1 only as an executable kernel page, never both, and a device page is executable at neither. */
  lemma LeavesGrantTheirFlags(pa: bv64, flags: bv32)
    ensures Grants(PageDescriptor(pa, FlagsToDescriptorBits(flags)), flags)
    ensures Grants(BlockDescriptor(pa, FlagsToDescriptorBits(flags)), flags)
  {
    hide AttributeBits, PageWord, BlockWord, FlagsToDescriptorBits, Grants;
    var a := AttributeBits(FlagsToDescriptorBits(flags));
    AttributesGrant(flags);
    AddressGrantsNothing(a, pa);
    GrantsOfFields(a, PageWord(a, pa), flags);
    GrantsOfFields(a, BlockWord(a, pa), flags);
  }

  lemma BlockShape(a: bv64, pa: bv64)
    requires a & (TABLE_NLA_MASK | 3) == 0 && HasAccessFlag(a)
    ensures var d := BlockWord(a, pa);
      && IsValid(d) && !HasTableOrPageBit(d) && HasAccessFlag(d)
      && d & BLOCK_OA_MASK_L2 == pa & BLOCK_OA_MASK_L2
  {
  }

  /** A block descriptor is a valid, accessed entry that is no table and carries the 2 MiB-aligned address. */
  lemma BlockDescriptorAddress(pa: bv64, bits: DescriptorBits)
    ensures var d := BlockDescriptor(pa, bits);
      && IsValid(d) && !HasTableOrPageBit(d) && HasAccessFlag(d)
      && d & BLOCK_OA_MASK_L2 == pa & BLOCK_OA_MASK_L2
  {
    hide AttributeBits, BlockWord;
    AttributeBitsApart(bits);
    BlockShape(AttributeBits(bits), pa);
  }

  /** The conditions the outcomes are stated with, as bounds on numbers. */
  lemma ConditionsMean(f: PhysFrame, addr: bv64, flags: bv32)
    ensures IsPageAligned(addr) <==> addr & 0xFFF == 0
    ensures Representable(f) <==> f.addr & 0xFFF == 0 && f.addr < 0x0001_0000_0000_0000
    ensures Rejected(flags) <==> flags & 0x0A == 0x0A
    ensures flags & NAMED_FLAGS == flags <==> flags < 0x20
  {
  }

  // ----- nothing else is set -----------------------------------------------------------------------------------------

  /** A table descriptor is its address and type bits; in particular none of the bits 63 to 59 that would restrict
      everything below it is set. */
  lemma TableDescriptorIsBare(f: PhysFrame)
    ensures TableDescriptor(f) & !0x0000_FFFF_FFFF_F003 == 0 && TableDescriptor(f) & 3 == 3
    ensures TableDescriptor(f) & 0xF800_0000_0000_0000 == 0
  {
  }

  lemma AttributesAreBare(bits: DescriptorBits)
    ensures AttributeBits(bits) & !0x0060_0000_0000_0FDC == 0 && AttributeBits(bits) & 0x400 == 0x400
  {
  }

  lemma PageOfBareIsBare(a: bv64, pa: bv64)
    requires a & !0x0060_0000_0000_0FDC == 0 && a & 0x400 == 0x400
    ensures PageWord(a, pa) & 0xFF9F_0000_0000_0020 == 0 && PageWord(a, pa) & 0x403 == 0x403
    ensures BlockWord(a, pa) & 0xFF9F_0000_001F_F020 == 0 && BlockWord(a, pa) & 0x403 == 0x401
  {
  }

  /** A leaf descriptor sets nothing but its type, its attribute fields and its address: no contiguous hint, no software
      bit, no low address bit of a block; the access flag is set. */
  lemma LeafDescriptorsAreBare(pa: bv64, bits: DescriptorBits)
    ensures PageDescriptor(pa, bits) & 0xFF9F_0000_0000_0020 == 0 && PageDescriptor(pa, bits) & 0x403 == 0x403
    ensures BlockDescriptor(pa, bits) & 0xFF9F_0000_001F_F020 == 0 && BlockDescriptor(pa, bits) & 0x403 == 0x401
  {
    hide AttributeBits, PageWord, BlockWord;
    AttributesAreBare(bits);
    PageOfBareIsBare(AttributeBits(bits), pa);
  }

  /** The address field of a descriptor is always page aligned, so decoding it never fails. */
  lemma MaskedAddressIsAFrame(d: bv64)
    ensures FromAligned(d & TABLE_NLA_MASK) == Some(NextTable(d))
    ensures FromAligned(d & PAGE_OA_MASK_L3) == Some(LeafFrame(d))
  {
  }

  lemma DecodedFlagsAreNamed(d: bv64)
    ensures DescriptorBitsToFlags(d) & NAMED_FLAGS == DescriptorBitsToFlags(d)
  {
  }
}
