/** Several address spaces over one memory and one TLB: every step keeps the spaces apart, the frames accounted for
    and the TLB coherent up to the flush tokens not yet discharged. */
module AddressSpaces {
  import opened Options
  import opened Vmsav8
  import opened PageTables
  import opened Walker
  import opened FlatModel

  /** The whole machine state. `active` is the root TTBR0 walks from, when such walks are enabled; `stale` records the
      pages whose flush token has been minted and not yet followed by an invalidate of that page. */
  datatype World = World(m: Mem, active: Option<PhysFrame>, tlb: map<PageNo, Seen>, stale: set<PageNo>)

  datatype Event =
    | Create(root: PhysFrame)
    | MapPage(root: PhysFrame, va: VirtAddr, pa: PhysFrame, flags: bv32)
    | UnmapPage(root: PhysFrame, va: VirtAddr)
    | Fill(va: VirtAddr)
    | Flush(va: VirtAddr)
    | Ignore(va: VirtAddr)
    | InvalidateAll
    | Activate(root: PhysFrame)

  /** The page operand of a per-address invalidate: bits 59 to 12 of the address, as the comment on
      `invalidate_tlb_address` lays the operand out. */
  function FlushedPage(va: VirtAddr): PageNo {
    PageNo((va.addr >> 12) & 0x0000_FFFF_FFFF_FFFF)
  }

  /** What a translation walk may cache: an accessed page, or an accessed block of level 1 or 2. */
  predicate Cacheable(seen: Seen) {
    match seen
    case Unmapped => false
    case Block(level, d) => level >= 1 && HasAccessFlag(d)
    case Page(d) => HasTableOrPageBit(d) && HasAccessFlag(d)
  }

  function Step(world: World, event: Event): World {
    match event
    case Create(_) => world
    case MapPage(root, va, pa, flags) =>
      var (m', r) := Map(world.m, root, va, pa, flags);
      world.(m := m', stale := if r.Ok? then world.stale + {PageNumber(r.value)} else world.stale)
    case UnmapPage(root, va) =>
      var (m', r) := Unmap(world.m, root, va);
      world.(m := m', stale := if r.Ok? then world.stale + {PageNumber(r.value.0)} else world.stale)
    case Fill(va) =>
      if world.active.Some? && Low(va) && Cacheable(Look(world.m.words, world.active.value, va))
      then world.(tlb := world.tlb[PageNumber(va) := Look(world.m.words, world.active.value, va)])
      else world
    case Flush(va) => world.(tlb := world.tlb - {FlushedPage(va)}, stale := world.stale - {FlushedPage(va)})
    case Ignore(_) => world
    case InvalidateAll => world.(tlb := map[], stale := {})
    case Activate(root) => world.(active := Some(root), tlb := map[], stale := {})
  }

  // ----- spaces kept apart ---------------------------------------------------------------------------

  type Ledger = map<PhysFrame, Tree>

  /** Every space is a well-formed tree, no frame belongs to two of them, and none of them is in stock. */
  ghost predicate Spaces(m: Mem, trees: Ledger) {
    && (forall r | r in trees :: trees[r].root == r && Inv(m, trees[r]))
    && (forall q, r | q in trees && r in trees && q != r :: trees[q].level.Keys !! trees[r].level.Keys)
  }

  ghost function Owned(trees: Ledger): set<PhysFrame> {
    set r, f | r in trees && f in trees[r].level :: f
  }

  /** Every frame the spaces or the provider hold. */
  ghost function AllFrames(m: Mem, trees: Ledger): set<PhysFrame> {
    Elements(m.free) + Owned(trees)
  }

  /** An operation inside one space leaves every other space, and everything it translates, as it was. */
  lemma Isolation(m: Mem, trees: Ledger, m': Mem, t': Tree, q: PhysFrame)
    requires Spaces(m, trees) && t'.root in trees && q in trees && q != t'.root
    requires Inv(m', t') && Moved(m, trees[t'.root], m', t')
    ensures Inv(m', trees[q]) && trees[q].level.Keys !! t'.level.Keys
    ensures SameTranslations(m.words, m'.words, q)
  {
    hide WellFormed, Representable, Look;
    var t, u := trees[t'.root], trees[q];
    forall f | f in u.level ensures f !in t'.level {
      assert Inv(m, u) && f !in t.level.Keys && f !in m.free;
      assert f !in Elements(m.free[|m'.free|..]);
    }
    WritesElsewhere(m.words, m'.words, u);
  }

  lemma MoveKeepsSpaces(m: Mem, trees: Ledger, m': Mem, t': Tree)
    requires Spaces(m, trees) && t'.root in trees
    requires Inv(m', t') && Moved(m, trees[t'.root], m', t')
    ensures Spaces(m', trees[t'.root := t'])
    ensures AllFrames(m', trees[t'.root := t']) == AllFrames(m, trees)
    ensures forall q | q in trees && q != t'.root :: SameTranslations(m.words, m'.words, q)
  {
    hide Moved;
    var trees' := trees[t'.root := t'];
    forall q | q in trees && q != t'.root
      ensures Inv(m', trees[q]) && trees[q].level.Keys !! t'.level.Keys && SameTranslations(m.words, m'.words, q)
    {
      Isolation(m, trees, m', t', q);
    }
    MoveKeepsFrames(m, trees, m', t');
    SpacesAfter(m, trees, m', t');
  }

  lemma SpacesAfter(m: Mem, trees: Ledger, m': Mem, t': Tree)
    requires Spaces(m, trees) && t'.root in trees && Inv(m', t')
    requires forall q | q in trees && q != t'.root :: Inv(m', trees[q]) && trees[q].level.Keys !! t'.level.Keys
    ensures Spaces(m', trees[t'.root := t'])
  {
    hide Inv;
  }

  /** Frames only change hands: none is lost and none appears. */
  lemma MoveKeepsFrames(m: Mem, trees: Ledger, m': Mem, t': Tree)
    requires t'.root in trees && Moved(m, trees[t'.root], m', t')
    ensures AllFrames(m', trees[t'.root := t']) == AllFrames(m, trees)
  {
    var trees' := trees[t'.root := t'];
    var taken := m.free[|m'.free|..];
    assert m.free == m'.free + taken;
    assert Elements(m.free) == Elements(m'.free) + Elements(taken);
    forall f ensures f in Owned(trees') <==> f in Owned(trees) || f in Elements(taken) {
      if f in Owned(trees') {
        var r :| r in trees' && f in trees'[r].level;
        assert r == t'.root ==> f in t'.level.Keys;
      }
      if f in Owned(trees) {
        var r :| r in trees && f in trees[r].level;
        assert r == t'.root ==> f in t'.level.Keys;
        assert r in trees' && f in trees'[r].level;
      }
      if f in Elements(taken) {
        assert f in t'.level.Keys && trees'[t'.root] == t';
      }
    }
  }

  // ----- coherence -----------------------------------------------------------------------------------

  /** Every cached entry of a page that is not stale is what the active tables hold for it now. */
  ghost predicate Coherent(world: World) {
    forall va: VirtAddr | Low(va) && PageNumber(va) in world.tlb && PageNumber(va) !in world.stale ::
      world.active.Some? && Look(world.m.words, world.active.value, va) == world.tlb[PageNumber(va)]
  }

  /** Full agreement: nothing cached differs from the current translation. */
  ghost predicate FullyCoherent(world: World) {
    forall va: VirtAddr | Low(va) && PageNumber(va) in world.tlb ::
      world.active.Some? && Look(world.m.words, world.active.value, va) == world.tlb[PageNumber(va)]
  }

  ghost predicate Good(world: World, trees: Ledger) {
    && Spaces(world.m, trees)
    && (world.active.Some? ==> world.active.value in trees)
    && Coherent(world)
  }

  /** A change to one page of one space keeps the TLB coherent once that page counts as stale. */
  lemma PageChangeKeepsCoherence(world: World, m': Mem, root: PhysFrame, va: VirtAddr, seen: Seen, trees: Ledger)
    requires Coherent(world) && root in trees && (world.active.Some? ==> world.active.value in trees)
    requires Updated(world.m.words, m'.words, root, va, seen)
    requires forall q | q in trees && q != root :: SameTranslations(world.m.words, m'.words, q)
    ensures Coherent(world.(m := m', stale := world.stale + {PageNumber(va)}))
  {
    hide Look, Low, PageNumber, SamePage;
    var world' := world.(m := m', stale := world.stale + {PageNumber(va)});
    forall vb: VirtAddr | Low(vb) && PageNumber(vb) in world'.tlb && PageNumber(vb) !in world'.stale
      ensures world'.active.Some? && Look(m'.words, world'.active.value, vb) == world'.tlb[PageNumber(vb)]
    {
      SamePageIffPageNumber(va, vb);
      assert Look(world.m.words, world.active.value, vb) == world.tlb[PageNumber(vb)];
    }
  }

  lemma NoChangeKeepsCoherence(world: World, m': Mem, trees: Ledger)
    requires Coherent(world) && (world.active.Some? ==> world.active.value in trees)
    requires forall q | q in trees :: SameTranslations(world.m.words, m'.words, q)
    ensures Coherent(world.(m := m'))
  {
    hide Look, Low, PageNumber;
    forall vb: VirtAddr | Low(vb) && PageNumber(vb) in world.tlb && PageNumber(vb) !in world.stale
      ensures world.active.Some? && Look(m'.words, world.active.value, vb) == world.tlb[PageNumber(vb)]
    {
      assert Look(world.m.words, world.active.value, vb) == world.tlb[PageNumber(vb)];
    }
  }

  lemma MapKeepsGood(world: World, trees: Ledger, root: PhysFrame, va: VirtAddr, pa: PhysFrame, flags: bv32)
    returns (trees': Ledger)
    requires Good(world, trees) && root in trees
    ensures var world' := Step(world, MapPage(root, va, pa, flags));
      && Good(world', trees') && trees'.Keys == trees.Keys
      && AllFrames(world'.m, trees') == AllFrames(world.m, trees)
  {
    hide Map, Look, Low, PageNumber, SamePage, Inv, Moved, Missing, Rejected, IsPageAligned, Coherent, AllFrames;
    var t' := MapOutcome(world.m, trees[root], va, pa, flags);
    var (m', r) := Map(world.m, root, va, pa, flags);
    MoveKeepsSpaces(world.m, trees, m', t');
    trees' := trees[root := t'];
    if r.Ok? {
      PageChangeKeepsCoherence(world, m', root, va, Page(Leaf(pa, flags)), trees);
    } else {
      NoChangeKeepsCoherence(world, m', trees);
    }
  }

  lemma UnmapKeepsGood(world: World, trees: Ledger, root: PhysFrame, va: VirtAddr) returns (trees': Ledger)
    requires Good(world, trees) && root in trees
    ensures var world' := Step(world, UnmapPage(root, va));
      && Good(world', trees') && trees'.Keys == trees.Keys
      && AllFrames(world'.m, trees') == AllFrames(world.m, trees)
  {
    hide Unmap, Look, Low, PageNumber, SamePage, Inv, Moved, IsPageAligned, LeafFrame, Coherent, AllFrames;
    UnmapOutcome(world.m, trees[root], va);
    var (m', r) := Unmap(world.m, root, va);
    MoveKeepsSpaces(world.m, trees, m', trees[root]);
    trees' := trees[root := trees[root]];
    if r.Ok? {
      PageChangeKeepsCoherence(world, m', root, va, Unmapped, trees);
    } else {
      NoChangeKeepsCoherence(world, m', trees);
    }
  }

  lemma FillKeepsCoherence(world: World, va: VirtAddr)
    requires Coherent(world)
    ensures Coherent(Step(world, Fill(va)))
  {
    hide Look, Low, PageNumber, SamePage, Cacheable;
    var world' := Step(world, Fill(va));
    forall vb: VirtAddr | Low(vb) && PageNumber(vb) in world'.tlb && PageNumber(vb) !in world'.stale
      ensures world'.active.Some? && Look(world'.m.words, world'.active.value, vb) == world'.tlb[PageNumber(vb)]
    {
      SamePageIffPageNumber(va, vb);
      if PageNumber(va) == PageNumber(vb) && world' != world {
        SamePageIsEqualLook(world.m.words, world.active.value, va, vb);
      } else {
        assert Look(world.m.words, world.active.value, vb) == world.tlb[PageNumber(vb)];
      }
    }
  }

  lemma CreateKeepsSpaces(m: Mem, trees: Ledger, root: PhysFrame)
    requires Spaces(m, trees) && Stocked(m)
    requires root !in AllFrames(m, trees) && Representable(root) && Zeroed(m.words, root)
    ensures var trees' := trees[root := Tree(root, map[root := 0], map[])];
      Spaces(m, trees') && AllFrames(m, trees') == AllFrames(m, trees) + {root}
  {
    hide Inv, Stocked;
    var t := Tree(root, map[root := 0], map[]);
    var trees' := trees[root := t];
    NewAddressSpace(m, root);
    assert root !in Owned(trees);
    forall q | q in trees ensures q != root && trees[q].level.Keys !! t.level.Keys {
      RootIsOwned(m, trees[q]);
      assert root !in trees[q].level;
    }
    forall f ensures f in Owned(trees') <==> f in Owned(trees) || f == root {
      if f in Owned(trees) {
        var r :| r in trees && f in trees[r].level;
        assert r in trees' && f in trees'[r].level;
      }
      if f == root { assert root in trees' && f in trees'[root].level; }
    }
  }

  lemma RootIsOwned(m: Mem, t: Tree)
    requires Inv(m, t)
    ensures t.root in t.level
  {
  }

  /** Every step keeps the spaces apart, every frame accounted for, and the TLB coherent outside the stale pages. */
  lemma StepKeepsGood(world: World, trees: Ledger, event: Event) returns (trees': Ledger)
    requires Good(world, trees) && Stocked(world.m)
    requires Legal(world, trees.Keys, AllFrames(world.m, trees), [event])
    ensures var world' := Step(world, event);
      && Good(world', trees') && Stocked(world'.m)
      && trees'.Keys == trees.Keys + CreatedRoots([event])
      && AllFrames(world'.m, trees') == AllFrames(world.m, trees) + CreatedRoots([event])
  {
    hide Coherent, Spaces, Stocked, AllFrames;
    trees' := trees;
    assert CreatedRoots([event]) == if event.Create? then {event.root} else {} by { OneRoot(event); }
    match event
    case Create(root) =>
      CreateKeepsSpaces(world.m, trees, root);
      trees' := trees[root := Tree(root, map[root := 0], map[])];
    case MapPage(root, va, pa, flags) =>
      trees' := MapKeepsGood(world, trees, root, va, pa, flags);
      StockFollows(Step(world, event).m, trees', root);
    case UnmapPage(root, va) =>
      trees' := UnmapKeepsGood(world, trees, root, va);
      StockFollows(Step(world, event).m, trees', root);
    case Fill(va) => FillKeepsCoherence(world, va);
    case Flush(va) => FlushKeepsCoherence(world, va);
    case Ignore(_) =>
    case InvalidateAll => EmptyTlbIsCoherent(Step(world, event));
    case Activate(_) => EmptyTlbIsCoherent(Step(world, event));
  }

  lemma OneRoot(event: Event)
    ensures CreatedRoots([event]) == if event.Create? then {event.root} else {}
  {
    assert [event][0] == event;
  }

  lemma StockFollows(m: Mem, trees: Ledger, root: PhysFrame)
    requires Spaces(m, trees) && root in trees
    ensures Stocked(m)
  {
    assert Inv(m, trees[root]);
  }

  lemma FlushKeepsCoherence(world: World, va: VirtAddr)
    requires Coherent(world)
    ensures Coherent(Step(world, Flush(va)))
  {
    hide Look, Low, PageNumber, FlushedPage;
  }

  lemma EmptyTlbIsCoherent(world: World)
    requires world.tlb == map[]
    ensures FullyCoherent(world) && Coherent(world)
  {
    hide Look, Low, PageNumber;
  }

  /** Invalidating everything, or activating any root, restores full agreement from whatever state, and leaves no page
      stale. */
  lemma SweepRestoresAgreement(world: World, root: PhysFrame)
    ensures FullyCoherent(Step(world, InvalidateAll)) && Step(world, InvalidateAll).stale == {}
    ensures FullyCoherent(Step(world, Activate(root))) && Step(world, Activate(root)).stale == {}
  {
    hide FullyCoherent, Coherent;
    EmptyTlbIsCoherent(Step(world, InvalidateAll));
    EmptyTlbIsCoherent(Step(world, Activate(root)));
  }

  /** Where a run of events leads. */
  function Run(world: World, events: seq<Event>): World
    decreases events
  {
    if events == [] then world else Run(Step(world, events[0]), events[1..])
  }

  /** Every event of the run is one its callers may issue: operations name roots created so far, and a new root is a
      zeroed frame that none of the frames held so far is. */
  ghost predicate Legal(world: World, roots: set<PhysFrame>, held: set<PhysFrame>, events: seq<Event>)
    decreases events
  {
    events == [] ||
    match events[0]
    case Create(root) =>
      && root !in held && Representable(root) && Zeroed(world.m.words, root)
      && Legal(Step(world, events[0]), roots + {root}, held + {root}, events[1..])
    case MapPage(root, _, _, _) => root in roots && Legal(Step(world, events[0]), roots, held, events[1..])
    case UnmapPage(root, _) => root in roots && Legal(Step(world, events[0]), roots, held, events[1..])
    case Activate(root) => root in roots && Legal(Step(world, events[0]), roots, held, events[1..])
    case _ => Legal(Step(world, events[0]), roots, held, events[1..])
  }

  ghost function CreatedRoots(events: seq<Event>): set<PhysFrame> {
    set i | 0 <= i < |events| && events[i].Create? :: events[i].root
  }

  /** Over every legal run the spaces stay apart, the frames held are the ones held before plus the new roots, and the
      TLB is coherent outside the stale pages. */
  lemma {:induction false} RunKeepsGood(world: World, trees: Ledger, events: seq<Event>) returns (trees': Ledger)
    requires Good(world, trees) && Stocked(world.m)
    requires Legal(world, trees.Keys, AllFrames(world.m, trees), events)
    ensures var world' := Run(world, events);
      && Good(world', trees')
      && trees'.Keys == trees.Keys + CreatedRoots(events)
      && AllFrames(world'.m, trees') == AllFrames(world.m, trees) + CreatedRoots(events)
    decreases events
  {
    hide Good, Stocked, AllFrames, Step;
    if events == [] {
      trees' := trees;
    } else {
      var trees1 := StepKeepsGood(world, trees, events[0]);
      OneRoot(events[0]);
      assert trees.Keys + {} == trees.Keys && AllFrames(world.m, trees) + {} == AllFrames(world.m, trees);
      assert events == [events[0]] + events[1..];
      trees' := RunKeepsGood(Step(world, events[0]), trees1, events[1..]);
    }
  }

  /** An invalidate of everything, or an activation, or flushing every stale page restores full agreement. */
  lemma NothingStaleMeansFullAgreement(world: World)
    requires Coherent(world) && world.stale == {}
    ensures FullyCoherent(world)
  {
    hide Look, Low, PageNumber;
  }
}
