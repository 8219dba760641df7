/** The MMU driver itself: it reads and overwrites descriptors in physical memory, takes frames from a provider and
    drives the translation registers and the TLB. Each method is proved against the functions of `Walker`,
    `AddressSpaces` and `FlatModel`. */
module QemuVirtMmu {
  import opened Options
  import opened Vmsav8
  import opened PageTables
  import opened Walker
  import opened FlatModel
  import opened AddressSpaces

  /** A stock of frames; the most recently added one is handed out first. */
  class FrameProvider {
    var available: seq<PhysFrame>

    constructor (frames: seq<PhysFrame>)
      ensures available == frames
    {
      available := frames;
    }

    method AllocFrame() returns (r: Option<PhysFrame>)
      modifies this
      ensures old(available) == [] ==> r == None && available == []
      ensures old(available) != [] ==> r.Some? && old(available) == available + [r.value]
    {
      if |available| == 0 {
        return None;
      }
      r := Some(available[|available| - 1]);
      available := available[..|available| - 1];
    }
  }

  datatype AddressSpace = AddressSpace(root: PhysFrame)

  /** A flush token: the address whose cached translation must go. */
  datatype MapperFlush = MapperFlush(va: VirtAddr)

  /** The core as the driver sees it: physical memory, the translation registers and the low half of the TLB. */
  class Mmu {
    var words: Words
    var ttbr0: PhysFrame
    var epd0: bool
    var ttbr1: PhysFrame
    var epd1: bool
    var tlb: map<PageNo, Seen>
    ghost var stale: set<PageNo>

    constructor (memory: Words)
      ensures words == memory && epd0 && epd1 && tlb == map[] && stale == {}
    {
      words := memory;
      ttbr0 := PhysFrame(0);
      epd0 := true;
      ttbr1 := PhysFrame(0);
      epd1 := true;
      tlb := map[];
      stale := {};
    }

    ghost function Active(): Option<PhysFrame>
      reads this
    {
      if epd0 then None else Some(ttbr0)
    }

    ghost function Snapshot(frames: FrameProvider): World
      reads this, frames
    {
      World(Mem(words, frames.available), Active(), tlb, stale)
    }

    method ReadVolatile(s: Slot) returns (d: bv64)
      ensures d == words[s]
    {
      d := words[s];
    }

    method WriteVolatile(s: Slot, d: bv64)
      modifies this`words
      ensures words == old(words)[s := d]
    {
      words := words[s := d];
    }

    method WalkOrAllocTable(parent: PhysFrame, idx: bv9, frames: FrameProvider, unmap: bool)
      returns (r: Result<PhysFrame>)
      modifies this`words, frames
      ensures (Mem(words, frames.available), r) == WalkOrAlloc(old(Mem(words, frames.available)), parent, idx, unmap)
      ensures unmap ==> words == old(words) && frames.available == old(frames.available)
    {
      hide TableDescriptor, NextTable, FromAligned;
      var slot := Slot(parent, idx);
      var existing := ReadVolatile(slot);
      if IsValid(existing) {
        if !HasTableOrPageBit(existing) {
          return Err(if unmap then BlockMapped else AlreadyMapped);
        }
        MaskedAddressIsAFrame(existing);
        var next := FromAligned(existing & TABLE_NLA_MASK);
        match next {
          case Some(table) => return Ok(table);
          case None => return Err(MisalignedAddress);
        }
      }
      if unmap {
        return Err(NotMapped);
      }
      var taken := frames.AllocFrame();
      match taken {
        case None => return Err(OutOfFrames);
        case Some(newTable) =>
          WriteVolatile(slot, TableDescriptor(newTable));
          return Ok(newTable);
      }
    }

    method WalkAndInstallLeaf(root: PhysFrame, va: VirtAddr, pa: PhysFrame, flags: bv32, frames: FrameProvider,
                              unmap: bool)
      returns (r: Result<PhysFrame>)
      modifies this`words, frames
      ensures !unmap ==>
        (Mem(words, frames.available), r) == InstallLeaf(old(Mem(words, frames.available)), root, va, pa, flags)
      ensures unmap ==>
        (Mem(words, frames.available), r) == ClearLeaf(old(Mem(words, frames.available)), root, va)
    {
      hide VaIndex, WalkOrAlloc, PageDescriptor, FlagsToDescriptorBits, LeafFrame, FromAligned;
      ghost var m := Mem(words, frames.available);
      DescendUnrolled(m, root, va, unmap);
      var l1 := WalkOrAllocTable(root, VaIndex(va, 0), frames, unmap);
      if l1.Err? { return l1; }
      var l2 := WalkOrAllocTable(l1.value, VaIndex(va, 1), frames, unmap);
      if l2.Err? { return l2; }
      var l3 := WalkOrAllocTable(l2.value, VaIndex(va, 2), frames, unmap);
      if l3.Err? { return l3; }
      var leafSlot := Slot(l3.value, VaIndex(va, 3));
      var existing := ReadVolatile(leafSlot);
      if unmap {
        if !IsValid(existing) {
          return Err(NotMapped);
        }
        MaskedAddressIsAFrame(existing);
        WriteVolatile(leafSlot, 0);
        var leafFrame := FromAligned(existing & PAGE_OA_MASK_L3);
        match leafFrame {
          case Some(f) => return Ok(f);
          case None => return Err(MisalignedAddress);
        }
      }
      if IsValid(existing) {
        return Err(AlreadyMapped);
      }
      WriteVolatile(leafSlot, PageDescriptor(pa.addr, FlagsToDescriptorBits(flags)));
      return Ok(pa);
    }

    method Map(space: AddressSpace, va: VirtAddr, pa: PhysFrame, flags: bv32, frames: FrameProvider)
      returns (r: Result<MapperFlush>)
      modifies this`words, this`stale, frames
      ensures Snapshot(frames) == Step(old(Snapshot(frames)), MapPage(space.root, va, pa, flags))
      ensures var expected := Walker.Map(old(Mem(words, frames.available)), space.root, va, pa, flags).1;
        match r case Ok(token) => expected == Ok(token.va) case Err(e) => expected == Err(e)
    {
      hide InstallLeaf, IsPageAligned, Rejected, PageNumber;
      if !IsPageAligned(va.addr) {
        return Err(MisalignedAddress);
      }
      if Rejected(flags) {
        return Err(InvalidFlags);
      }
      var installed := WalkAndInstallLeaf(space.root, va, pa, flags, frames, false);
      match installed {
        case Err(e) => return Err(e);
        case Ok(_) =>
          stale := stale + {PageNumber(va)};
          return Ok(MapperFlush(va));
      }
    }

    /** `frames` appears in the contract only: `unmap` walks with a provider that has nothing to give. */
    method Unmap(space: AddressSpace, va: VirtAddr, ghost frames: FrameProvider)
      returns (r: Result<(MapperFlush, PhysFrame)>)
      modifies this`words, this`stale
      ensures Snapshot(frames) == Step(old(Snapshot(frames)), UnmapPage(space.root, va))
      ensures var expected := Walker.Unmap(old(Mem(words, frames.available)), space.root, va).1;
        match r case Ok(pair) => expected == Ok((pair.0.va, pair.1)) case Err(e) => expected == Err(e)
    {
      hide IsPageAligned, PageNumber, LeafFrame, VaIndex, Descend, TableAt;
      if !IsPageAligned(va.addr) {
        return Err(MisalignedAddress);
      }
      var none := new FrameProvider([]);
      DescendReading(Mem(words, []), space.root, va, TABLE_LEVELS);
      DescendReading(Mem(words, frames.available), space.root, va, TABLE_LEVELS);
      var cleared := WalkAndInstallLeaf(space.root, va, space.root, 0, none, true);
      match cleared {
        case Err(e) => return Err(e);
        case Ok(f) =>
          stale := stale + {PageNumber(va)};
          return Ok((MapperFlush(va), f));
      }
    }

    method Translate(space: AddressSpace, va: VirtAddr) returns (r: Result<(PhysFrame, bv32)>)
      modifies this`words
      ensures words == old(words)
      ensures r == Walker.Translate(words, space.root, va)
    {
      hide VaIndex, WalkOrAlloc, LeafFrame, FromAligned, DescriptorBitsToFlags, HasAccessFlag, TableAt;
      var none := new FrameProvider([]);
      DescendUnrolled(Mem(words, []), space.root, va, true);
      DescendReading(Mem(words, []), space.root, va, TABLE_LEVELS);
      var l1 := WalkOrAllocTable(space.root, VaIndex(va, 0), none, true);
      if l1.Err? { return Err(l1.error); }
      var l2 := WalkOrAllocTable(l1.value, VaIndex(va, 1), none, true);
      if l2.Err? { return Err(l2.error); }
      var l3 := WalkOrAllocTable(l2.value, VaIndex(va, 2), none, true);
      if l3.Err? { return Err(l3.error); }
      var leaf := ReadVolatile(Slot(l3.value, VaIndex(va, 3)));
      if !IsValid(leaf) {
        return Err(NotMapped);
      }
      if !HasTableOrPageBit(leaf) {
        return Err(NotMapped);
      }
      if !HasAccessFlag(leaf) {
        return Err(NotMapped);
      }
      MaskedAddressIsAFrame(leaf);
      var frame := FromAligned(leaf & PAGE_OA_MASK_L3);
      match frame {
        case Some(f) => return Ok((f, DescriptorBitsToFlags(leaf)));
        case None => return Err(MisalignedAddress);
      }
    }

    /** Install the root, re-enable low-half walks and drop every cached translation. */
    method Activate(space: AddressSpace, ghost frames: FrameProvider)
      modifies this`ttbr0, this`epd0, this`tlb, this`stale
      ensures Snapshot(frames) == Step(old(Snapshot(frames)), AddressSpaces.Activate(space.root))
      ensures ttbr0 == space.root && !epd0 && tlb == map[]
    {
      ttbr0 := space.root;
      epd0 := false;
      tlb := map[];
      stale := {};
    }

    method InvalidateTlbAddress(va: VirtAddr, ghost frames: FrameProvider)
      modifies this`tlb, this`stale
      ensures Snapshot(frames) == Step(old(Snapshot(frames)), AddressSpaces.Flush(va))
    {
      var page := FlushedPage(va);
      tlb := tlb - {page};
      stale := stale - {page};
    }

    method InvalidateTlbAll(ghost frames: FrameProvider)
      modifies this`tlb, this`stale
      ensures Snapshot(frames) == Step(old(Snapshot(frames)), InvalidateAll)
    {
      tlb := map[];
      stale := {};
    }

    /** Discharge a token by invalidating its address. */
    method Flush(token: MapperFlush, ghost frames: FrameProvider)
      modifies this`tlb, this`stale
      ensures Snapshot(frames) == Step(old(Snapshot(frames)), AddressSpaces.Flush(token.va))
    {
      InvalidateTlbAddress(token.va, frames);
    }
  }

  /** The three walk steps, one level after the other. */
  lemma DescendUnrolled(m: Mem, root: PhysFrame, va: VirtAddr, unmap: bool)
    ensures var (m1, l1) := WalkOrAlloc(m, root, VaIndex(va, 0), unmap);
      Descend(m, root, va, 3, unmap) ==
        if l1.Err? then (m1, l1)
        else
          var (m2, l2) := WalkOrAlloc(m1, l1.value, VaIndex(va, 1), unmap);
          if l2.Err? then (m2, l2) else WalkOrAlloc(m2, l2.value, VaIndex(va, 2), unmap)
  {
    hide WalkOrAlloc, VaIndex;
    assert Descend(m, root, va, 0, unmap) == (m, Ok(root));
    assert Descend(m, root, va, 1, unmap) == WalkOrAlloc(m, root, VaIndex(va, 0), unmap);
    var (m1, l1) := WalkOrAlloc(m, root, VaIndex(va, 0), unmap);
    assert l1.Ok? ==> Descend(m, root, va, 2, unmap) == WalkOrAlloc(m1, l1.value, VaIndex(va, 1), unmap);
  }
}
