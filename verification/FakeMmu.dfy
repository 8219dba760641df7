/** The host-side fake: a mutable flat map per address space, with its activation and invalidation log. */
module FakeMmu {
  import opened Options
  import opened Vmsav8
  import opened PageTables
  import opened Walker
  import opened FlatModel
  import opened QemuVirtMmu

  class FakeAddressSpace {
    const root: PhysFrame
    var mappings: Mappings

    constructor (root: PhysFrame)
      ensures this.root == root && mappings == map[]
    {
      this.root := root;
      mappings := map[];
    }
  }

  class FakeMmu {
    var activatedRoot: Option<PhysFrame>
    var tlbAddressInvalidations: seq<VirtAddr>
    var tlbAllCount: nat

    constructor ()
      ensures activatedRoot == None && tlbAddressInvalidations == [] && tlbAllCount == 0
    {
      activatedRoot := None;
      tlbAddressInvalidations := [];
      tlbAllCount := 0;
    }

    method Activate(space: FakeAddressSpace)
      modifies this`activatedRoot
      ensures activatedRoot == Some(space.root)
    {
      activatedRoot := Some(space.root);
    }

    method Map(space: FakeAddressSpace, va: VirtAddr, pa: PhysFrame, flags: bv32) returns (r: Result<MapperFlush>)
      modifies space`mappings
      ensures space.mappings == FlatMap(old(space.mappings), va, pa, flags).0
      ensures var expected := FlatMap(old(space.mappings), va, pa, flags).1;
        match r case Ok(token) => expected == Ok(token.va) case Err(e) => expected == Err(e)
    {
      hide IsPageAligned, Rejected;
      if !IsPageAligned(va.addr) {
        return Err(MisalignedAddress);
      }
      if Rejected(flags) {
        return Err(InvalidFlags);
      }
      if va in space.mappings {
        return Err(AlreadyMapped);
      }
      space.mappings := space.mappings[va := (pa, flags)];
      return Ok(MapperFlush(va));
    }

    method Unmap(space: FakeAddressSpace, va: VirtAddr) returns (r: Result<(MapperFlush, PhysFrame)>)
      modifies space`mappings
      ensures space.mappings == FlatUnmap(old(space.mappings), va).0
      ensures var expected := FlatUnmap(old(space.mappings), va).1;
        match r case Ok(pair) => expected == Ok((pair.0.va, pair.1)) case Err(e) => expected == Err(e)
    {
      hide IsPageAligned;
      if !IsPageAligned(va.addr) {
        return Err(MisalignedAddress);
      }
      if va !in space.mappings {
        return Err(NotMapped);
      }
      var pa := space.mappings[va].0;
      space.mappings := space.mappings - {va};
      return Ok((MapperFlush(va), pa));
    }

    method Translate(space: FakeAddressSpace, va: VirtAddr) returns (r: Result<(PhysFrame, bv32)>)
      ensures r == FlatTranslate(space.mappings, va)
    {
      hide BaseBits;
      var pageBase := PageBase(va);
      if pageBase in space.mappings {
        return Ok(space.mappings[pageBase]);
      }
      return Err(NotMapped);
    }

    method InvalidateTlbAddress(va: VirtAddr)
      modifies this`tlbAddressInvalidations
      ensures tlbAddressInvalidations == old(tlbAddressInvalidations) + [va]
    {
      tlbAddressInvalidations := tlbAddressInvalidations + [va];
    }

    method InvalidateTlbAll()
      modifies this`tlbAllCount
      ensures tlbAllCount == old(tlbAllCount) + 1
    {
      tlbAllCount := tlbAllCount + 1;
    }
  }

  /** The decorator that runs out of frames: it maps first and takes the mapping back when no frame is left. */
  class OutOfFramesMmu {
    const inner: FakeMmu

    constructor ()
      ensures inner.activatedRoot == None && fresh(inner)
    {
      inner := new FakeMmu();
    }

    method Map(space: FakeAddressSpace, va: VirtAddr, pa: PhysFrame, flags: bv32, frames: FrameProvider)
      returns (r: Result<MapperFlush>)
      modifies space`mappings, frames
      ensures r.Err? ==> space.mappings == old(space.mappings) && frames.available == old(frames.available)
      ensures r.Ok? ==>
        && old(frames.available) != [] && |frames.available| == |old(frames.available)| - 1
        && (space.mappings, Ok(r.value.va)) == FlatMap(old(space.mappings), va, pa, flags)
      ensures r == Err(OutOfFrames) <==>
        old(frames.available) == [] && FlatMap(old(space.mappings), va, pa, flags).1.Ok?
    {
      hide IsPageAligned, Rejected;
      r := inner.Map(space, va, pa, flags);
      if r.Err? {
        return;
      }
      var taken := frames.AllocFrame();
      if taken.None? {
        var undone := inner.Unmap(space, va);
        assert space.mappings == old(space.mappings);
        return Err(OutOfFrames);
      }
    }
  }
}
