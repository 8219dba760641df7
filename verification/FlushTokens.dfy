/** Flush tokens over whole runs: what discharging them restores, and for which addresses a token's own flush does. */
module FlushTokens {
  import opened Options
  import opened Vmsav8
  import opened PageTables
  import opened Walker
  import opened FlatModel
  import opened AddressSpaces

  // ----- every token discharged ------------------------------------------------------------------------------------

  /** The flush token an event mints. */
  function Minted(world: World, event: Event): Option<VirtAddr> {
    match event
    case MapPage(root, va, pa, flags) =>
      (match Map(world.m, root, va, pa, flags).1 case Ok(token) => Some(token) case Err(_) => None)
    case UnmapPage(root, va) =>
      (match Unmap(world.m, root, va).1 case Ok(pair) => Some(pair.0) case Err(_) => None)
    case _ => None
  }

  predicate Discharges(event: Event, page: PageNo) {
    match event
    case Flush(va) => FlushedPage(va) == page
    case InvalidateAll => true
    case Activate(_) => true
    case _ => false
  }

  ghost predicate DischargedIn(events: seq<Event>, page: PageNo) {
    exists event | event in events :: Discharges(event, page)
  }

  /** Each token the run mints is followed by an invalidate that reaches its page. */
  ghost predicate EveryTokenDischarged(world: World, events: seq<Event>)
    decreases events
  {
    events == [] ||
    (&& (Minted(world, events[0]).Some? ==> DischargedIn(events[1..], PageNumber(Minted(world, events[0]).value)))
     && EveryTokenDischarged(Step(world, events[0]), events[1..]))
  }

  lemma StepStales(world: World, event: Event, page: PageNo)
    requires page in Step(world, event).stale
    ensures (Minted(world, event).Some? && PageNumber(Minted(world, event).value) == page)
      || (page in world.stale && !Discharges(event, page))
  {
    hide Map, Unmap, PageNumber, FlushedPage;
  }

  /** A page is still stale after such a run only if it was before and nothing in the run has discharged it. */
  lemma {:induction false} StaleIsUndischarged(world: World, events: seq<Event>, page: PageNo)
    requires EveryTokenDischarged(world, events) && page in Run(world, events).stale
    ensures page in world.stale && !DischargedIn(events, page)
    decreases events
  {
    hide Step, Minted, Discharges, PageNumber;
    if events != [] {
      StaleIsUndischarged(Step(world, events[0]), events[1..], page);
      StepStales(world, events[0], page);
    }
  }

  /** Over every legal run that starts with nothing stale and discharges every token it mints, the TLB ends in full
      agreement with the tables. */
  lemma DischargedRunIsFullyCoherent(world: World, trees: Ledger, events: seq<Event>)
    requires Good(world, trees) && Stocked(world.m) && world.stale == {}
    requires Legal(world, trees.Keys, AllFrames(world.m, trees), events)
    requires EveryTokenDischarged(world, events)
    ensures FullyCoherent(Run(world, events))
  {
    hide Step, Run, Legal, EveryTokenDischarged, Spaces, Stocked, AllFrames, Coherent, FullyCoherent;
    var _ := RunKeepsGood(world, trees, events);
    forall page | page in Run(world, events).stale ensures page in world.stale {
      StaleIsUndischarged(world, events, page);
    }
    NothingStaleMeansFullAgreement(Run(world, events));
  }

  // ----- a token's own flush -------------------------------------------------------------------------------------

  /** Bits 59 to 48 of the address are clear. */
  predicate Plain(va: VirtAddr) {
    va.addr & 0x0FFF_0000_0000_0000 == 0
  }

  /** A flush token's invalidate names the page its operation changed exactly for a plain address. */
  lemma FlushNamesItsPageIff(va: VirtAddr)
    ensures FlushedPage(va) == PageNumber(va) <==> Plain(va)
  {
    FlushBits(va.addr);
  }

  lemma FlushBits(addr: bv64)
    ensures (addr >> 12) & 0x0000_FFFF_FFFF_FFFF == (addr >> 12) & 0xF_FFFF_FFFF
      <==> addr & 0x0FFF_0000_0000_0000 == 0
  {
  }

  /** In a space being walked, unmap a page the TLB has cached and flush the token that comes back. In between the
      cached entry is wrong; the flush removes it exactly when bits 59 to 48 of the address are clear, and so agreement
      is restored exactly then. */
  lemma FlushAfterUnmapIff(world: World, trees: Ledger, va: VirtAddr)
    requires Good(world, trees) && world.active.Some?
    requires PageNumber(va) in world.tlb && world.tlb[PageNumber(va)] != Unmapped
    requires Unmap(world.m, world.active.value, va).1.Ok?
    ensures var unmapped := Step(world, UnmapPage(world.active.value, va));
      var flushed := Step(unmapped, Flush(va));
      && PageNumber(va) in unmapped.stale && !FullyCoherent(unmapped)
      && (PageNumber(va) !in flushed.tlb <==> Plain(va))
      && (!Plain(va) ==> !FullyCoherent(flushed))
      && (FullyCoherent(world) ==> (FullyCoherent(flushed) <==> Plain(va)))
  {
    hide Look, PageNumber, Unmap, Inv, Moved, IsPageAligned, LeafFrame, FlushedPage, Low, Plain, SamePage;
    var root := world.active.value;
    UnmapOutcome(world.m, trees[root], va);
    FlushNamesItsPageIff(va);
    var vb := LowAlias(va);
    SamePageIffPageNumber(va, vb);
    var unmapped := Step(world, UnmapPage(root, va));
    var flushed := Step(unmapped, Flush(va));
    assert Look(unmapped.m.words, root, vb) == Unmapped;
    if FullyCoherent(world) && Plain(va) {
      forall vc: VirtAddr | Low(vc) && PageNumber(vc) in flushed.tlb
        ensures Look(flushed.m.words, root, vc) == flushed.tlb[PageNumber(vc)]
      {
        SamePageIffPageNumber(va, vc);
        assert Look(world.m.words, root, vc) == world.tlb[PageNumber(vc)];
      }
    }
  }

  /** The event is the token's own flush, or sweeps the whole TLB. */
  predicate Redeems(event: Event, va: VirtAddr) {
    match event
    case Flush(vb) => vb == va
    case InvalidateAll => true
    case Activate(_) => true
    case _ => false
  }

  ghost predicate RedeemedIn(events: seq<Event>, va: VirtAddr) {
    exists event | event in events :: Redeems(event, va)
  }

  /** Each token the run mints is flushed later in the run, or the TLB swept. */
  ghost predicate EveryTokenRedeemed(world: World, events: seq<Event>)
    decreases events
  {
    events == [] ||
    (&& (Minted(world, events[0]).Some? ==> RedeemedIn(events[1..], Minted(world, events[0]).value))
     && EveryTokenRedeemed(Step(world, events[0]), events[1..]))
  }

  /** The run mints a token for this page whose address is not plain. */
  ghost predicate WideTokenMinted(world: World, events: seq<Event>, page: PageNo)
    decreases events
  {
    events != [] &&
    ((&& Minted(world, events[0]).Some? && !Plain(Minted(world, events[0]).value)
      && PageNumber(Minted(world, events[0]).value) == page)
     || WideTokenMinted(Step(world, events[0]), events[1..], page))
  }

  lemma RedeemedIsDischarged(events: seq<Event>, va: VirtAddr)
    requires RedeemedIn(events, va) && Plain(va)
    ensures DischargedIn(events, PageNumber(va))
  {
    hide FlushedPage, PageNumber, Plain;
    FlushNamesItsPageIff(va);
    var event :| event in events && Redeems(event, va);
    assert Discharges(event, PageNumber(va));
  }

  lemma {:induction false} StaleIsWide(world: World, events: seq<Event>, page: PageNo)
    requires EveryTokenRedeemed(world, events) && page in Run(world, events).stale
    ensures (page in world.stale && !DischargedIn(events, page)) || WideTokenMinted(world, events, page)
    decreases events
  {
    hide Step, Minted, Discharges, Redeems, PageNumber, Plain, RedeemedIn;
    if events != [] {
      StaleIsWide(Step(world, events[0]), events[1..], page);
      if !WideTokenMinted(Step(world, events[0]), events[1..], page) {
        StepStales(world, events[0], page);
      }
      var token := Minted(world, events[0]);
      if token.Some? && PageNumber(token.value) == page && Plain(token.value) {
        RedeemedIsDischarged(events[1..], token.value);
      }
    }
  }

  /** Over every legal run that starts with nothing stale and flushes every token it mints, a cached entry differs from
      the current translation only on the page of a token with one of bits 59 to 48 set; without such a token the TLB
      ends in full agreement. */
  lemma RedeemedRunAgreesButForWideTokens(world: World, trees: Ledger, events: seq<Event>)
    requires Good(world, trees) && Stocked(world.m) && world.stale == {}
    requires Legal(world, trees.Keys, AllFrames(world.m, trees), events)
    requires EveryTokenRedeemed(world, events)
    ensures var world' := Run(world, events);
      && (forall va: VirtAddr | Low(va) && PageNumber(va) in world'.tlb
            && !WideTokenMinted(world, events, PageNumber(va)) ::
            world'.active.Some? && Look(world'.m.words, world'.active.value, va) == world'.tlb[PageNumber(va)])
      && ((forall page: PageNo :: !WideTokenMinted(world, events, page)) ==> FullyCoherent(world'))
  {
    hide Step, Run, Legal, EveryTokenRedeemed, Spaces, Stocked, AllFrames, WideTokenMinted, DischargedIn, Look, Low,
      PageNumber;
    var _ := RunKeepsGood(world, trees, events);
    forall page | page in Run(world, events).stale ensures WideTokenMinted(world, events, page) {
      StaleIsWide(world, events, page);
    }
  }

  // ----- a run whose tokens are all flushed and whose TLB is wrong -----------------------------------------------

  const WIDE := VirtAddr(0x0001_0000_0000_0000)

  /** From blank memory: create and activate a space, map a page at a wide address, let the walk cache it, unmap it,
      flush the token. */
  function WideRun(): seq<Event> {
    [Create(BLANK_ROOT), Activate(BLANK_ROOT), MapPage(BLANK_ROOT, WIDE, BLANK_PAGE, WRITE), Fill(VirtAddr(0)),
     UnmapPage(BLANK_ROOT, WIDE), Flush(WIDE)]
  }

  ghost function BlankWorld(): World {
    World(BlankMem(), None, map[], {})
  }

  /** Where that run leads, event by event. */
  lemma WideRunUnfolds() returns (mapped: World, unmapped: World)
    ensures mapped == Step(Step(Step(Step(BlankWorld(), Create(BLANK_ROOT)), Activate(BLANK_ROOT)),
                                MapPage(BLANK_ROOT, WIDE, BLANK_PAGE, WRITE)), Fill(VirtAddr(0)))
    ensures unmapped == Step(mapped, UnmapPage(BLANK_ROOT, WIDE))
    ensures Run(BlankWorld(), WideRun()) == Step(unmapped, Flush(WIDE))
    ensures Run(BlankWorld(), WideRun()[..4]) == mapped
  {
    hide Step;
    var w1 := Step(BlankWorld(), Create(BLANK_ROOT));
    var w2 := Step(w1, Activate(BLANK_ROOT));
    var w3 := Step(w2, MapPage(BLANK_ROOT, WIDE, BLANK_PAGE, WRITE));
    mapped := Step(w3, Fill(VirtAddr(0)));
    unmapped := Step(mapped, UnmapPage(BLANK_ROOT, WIDE));
  }

  lemma WideAliasesZero()
    ensures IsPageAligned(WIDE.addr) && !Plain(WIDE) && Low(VirtAddr(0)) && PageNumber(WIDE) == PageNumber(VirtAddr(0))
    ensures !Rejected(WRITE)
  {
  }

  /** Memory and TLB once the page is mapped and cached. */
  lemma WideRunCaches() returns (mapped: World, unmapped: World)
    ensures Run(BlankWorld(), WideRun()[..4]) == mapped && mapped.active == Some(BLANK_ROOT)
    ensures PageNumber(WIDE) in mapped.tlb && mapped.tlb[PageNumber(WIDE)] == Page(Leaf(BLANK_PAGE, WRITE))
    ensures Look(mapped.m.words, BLANK_ROOT, WIDE) == Page(Leaf(BLANK_PAGE, WRITE))
    ensures unmapped == Step(mapped, UnmapPage(BLANK_ROOT, WIDE))
    ensures Run(BlankWorld(), WideRun()) == Step(unmapped, Flush(WIDE))
  {
    hide Map, Unmap, Look, IsPageAligned, Rejected, Plain, Low, PageNumber, Leaf, BlankMem, Inv, Moved, Missing, SamePage,
      Run, Zeroed, Stocked;
    mapped, unmapped := WideRunUnfolds();
    WideAliasesZero();
    BlankMapSucceeds(WIDE, BLANK_PAGE, WRITE);
    NewAddressSpace(BlankMem(), BLANK_ROOT);
    var _ := MapOutcome(BlankMem(), Tree(BLANK_ROOT, map[BLANK_ROOT := 0], map[]), WIDE, BLANK_PAGE, WRITE);
    SamePageIffPageNumber(WIDE, VirtAddr(0));
    SamePageIffPageNumber(WIDE, WIDE);
    LeafIsValid(BLANK_PAGE, WRITE);
  }

  lemma WideRunIsLegal()
    ensures var world := BlankWorld();
      Good(world, map[]) && Stocked(world.m) && Legal(world, {}, AllFrames(world.m, map[]), WideRun())
  {
    hide Map, Unmap, Look, IsPageAligned, Rejected, PageNumber, BlankMem, Zeroed, Representable, Stocked;
    BlankMapSucceeds(VirtAddr(0), BLANK_PAGE, WRITE) by { ZeroIsAligned(); }
    assert BLANK_ROOT !in Elements(BlankMem().free);
  }

  lemma ZeroIsAligned()
    ensures IsPageAligned(0) && !Rejected(WRITE)
  {
  }

  lemma LegalPrefix(world: World, roots: set<PhysFrame>, held: set<PhysFrame>, events: seq<Event>, n: nat)
    requires Legal(world, roots, held, events) && n <= |events|
    ensures Legal(world, roots, held, events[..n])
    decreases n
  {
    hide Step, Zeroed, Representable;
    if n > 0 {
      assert events[..n][1..] == events[1..][..n - 1];
      var e := events[0];
      LegalPrefix(Step(world, e), if e.Create? then roots + {e.root} else roots,
                  if e.Create? then held + {e.root} else held, events[1..], n - 1);
    }
  }

  lemma WideRunRedeems()
    ensures EveryTokenRedeemed(BlankWorld(), WideRun())
  {
    hide Map, Unmap, BlankMem;
    var events := WideRun();
    assert Redeems(Flush(WIDE), WIDE);
    assert Flush(WIDE) in events[3..] && Flush(WIDE) in events[5..];
    MintedAt(Step(Step(BlankWorld(), events[0]), events[1]), events[2]);
    MintedAt(Step(Step(Step(Step(BlankWorld(), events[0]), events[1]), events[2]), events[3]), events[4]);
  }

  lemma MintedAt(world: World, event: Event)
    ensures Minted(world, event) == match event
      case MapPage(root, va, pa, flags) => if Map(world.m, root, va, pa, flags).1.Ok? then Some(va) else None
      case UnmapPage(root, va) => if Unmap(world.m, root, va).1.Ok? then Some(va) else None
      case _ => None
  {
    hide InstallLeaf, ClearLeaf, IsPageAligned, Rejected;
  }

  /** A legal run that flushes every token it mints and still leaves the TLB wrong: `map`, walk, `unmap` and flush of
      address 2^48. */
  lemma WideRunEndsWrong()
    ensures var world := BlankWorld();
      && Good(world, map[]) && Stocked(world.m) && world.stale == {}
      && Legal(world, {}, AllFrames(world.m, map[]), WideRun())
      && EveryTokenRedeemed(world, WideRun())
      && !FullyCoherent(Run(world, WideRun()))
  {
    hide Run, Legal, EveryTokenRedeemed, BlankMem, Unmap, Look, PageNumber, Plain, Low, FullyCoherent, Coherent, Inv,
      Stocked, AllFrames, Moved, LeafFrame, Leaf, IsPageAligned;
    var world := BlankWorld();
    WideRunIsLegal();
    WideRunRedeems();
    WideAliasesZero();
    var mapped, unmapped := WideRunCaches();
    LegalPrefix(world, {}, AllFrames(world.m, map[]), WideRun(), 4);
    var none: Ledger := map[];
    assert none.Keys == {};
    var trees := RunKeepsGood(world, none, WideRun()[..4]);
    UnmapOutcome(mapped.m, trees[BLANK_ROOT], WIDE);
    FlushAfterUnmapIff(mapped, trees, WIDE);
  }
}
