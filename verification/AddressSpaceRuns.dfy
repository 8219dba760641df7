/** What whole runs leave alone: the spaces no event operates on, and the property that every page held is served. */
module AddressSpaceRuns {
  import opened Options
  import opened Vmsav8
  import opened PageTables
  import opened Walker
  import opened WalkerProperties
  import opened FlatModel
  import opened AddressSpaces

  /** The event maps or unmaps a page of space `q`. */
  predicate OperatesOn(event: Event, q: PhysFrame) {
    match event
    case MapPage(root, _, _, _) => root == q
    case UnmapPage(root, _) => root == q
    case _ => false
  }

  lemma StepElsewhere(world: World, trees: Ledger, event: Event, q: PhysFrame)
    requires Good(world, trees) && q in trees && !OperatesOn(event, q)
    requires Legal(world, trees.Keys, AllFrames(world.m, trees), [event])
    ensures SameTranslations(world.m.words, Step(world, event).m.words, q)
  {
    hide Map, Unmap, Look, Low, PageNumber, Inv, Moved, IsPageAligned, Rejected, Missing, LeafFrame, AllFrames, Coherent,
      FlushedPage;
    match event
    case MapPage(root, va, pa, flags) =>
      var t' := MapOutcome(world.m, trees[root], va, pa, flags);
      MoveKeepsSpaces(world.m, trees, Map(world.m, root, va, pa, flags).0, t');
    case UnmapPage(root, va) =>
      UnmapOutcome(world.m, trees[root], va);
      MoveKeepsSpaces(world.m, trees, Unmap(world.m, root, va).0, trees[root]);
    case _ =>
  }

  /** Over every legal run, a space no event operates on translates every address as before, whatever the other spaces,
      the provider and the TLB go through. */
  lemma {:induction false} UntouchedSpaceStays(world: World, trees: Ledger, events: seq<Event>, q: PhysFrame)
    requires Good(world, trees) && Stocked(world.m) && q in trees
    requires Legal(world, trees.Keys, AllFrames(world.m, trees), events)
    requires forall event | event in events :: !OperatesOn(event, q)
    ensures SameTranslations(world.m.words, Run(world, events).m.words, q)
    decreases events
  {
    hide Good, Stocked, AllFrames, Step, OperatesOn, Look;
    if events != [] {
      StepElsewhere(world, trees, events[0], q);
      var trees1 := StepKeepsGood(world, trees, events[0]);
      OneRoot(events[0]);
      assert trees.Keys + {} == trees.Keys && AllFrames(world.m, trees) + {} == AllFrames(world.m, trees);
      UntouchedSpaceStays(Step(world, events[0]), trees1, events[1..], q);
      SameTwice(world.m.words, Step(world, events[0]).m.words, Run(world, events).m.words, q);
    }
  }

  // ----- every page served ---------------------------------------------------------------------------------------

  ghost predicate AllServed(w: Words, roots: set<PhysFrame>) {
    forall r | r in roots :: Served(w, r)
  }

  lemma ServedAlike(w: Words, w': Words, root: PhysFrame)
    requires Served(w, root) && SameTranslations(w, w', root)
    ensures Served(w', root)
  {
    hide Look, Answer;
  }

  lemma NewSpaceIsServed(m: Mem, root: PhysFrame)
    requires Zeroed(m.words, root)
    ensures Served(m.words, root)
  {
    hide Answer, VaIndex;
    forall va: VirtAddr ensures Look(m.words, root, va) == Unmapped {
      EmptyRoot(m.words, root, va, TABLE_LEVELS);
    }
  }

  lemma StepKeepsServed(world: World, trees: Ledger, event: Event, r: PhysFrame)
    requires Good(world, trees) && AllServed(world.m.words, trees.Keys)
    requires Legal(world, trees.Keys, AllFrames(world.m, trees), [event])
    requires r in trees.Keys + CreatedRoots([event])
    ensures Served(Step(world, event).m.words, r)
  {
    hide Map, Unmap, AllFrames, Coherent, Served, Inv, FlushedPage, Zeroed;
    OneRoot(event);
    if event.Create? && r == event.root {
      NewSpaceIsServed(world.m, r);
    } else if OperatesOn(event, r) {
      match event
      case MapPage(_, va, pa, flags) => OperationsKeepServed(world.m, trees[r], va, pa, flags);
      case UnmapPage(_, va) => OperationsKeepServed(world.m, trees[r], va, r, 0);
    } else {
      StepElsewhere(world, trees, event, r);
      ServedAlike(world.m.words, Step(world, event).m.words, r);
    }
  }

  /** No legal run ever brings about a page that `unmap` would answer for and `translate` would not: if every page of
      every space is served at the start, and new spaces start empty, every page of every space is served at the end. */
  lemma {:induction false} RunKeepsServed(world: World, trees: Ledger, events: seq<Event>)
    requires Good(world, trees) && Stocked(world.m) && AllServed(world.m.words, trees.Keys)
    requires Legal(world, trees.Keys, AllFrames(world.m, trees), events)
    ensures AllServed(Run(world, events).m.words, trees.Keys + CreatedRoots(events))
    decreases events
  {
    hide Good, Stocked, AllFrames, Step, Served;
    if events == [] {
      assert CreatedRoots(events) == {};
      assert trees.Keys + {} == trees.Keys;
    } else {
      var world1 := Step(world, events[0]);
      var trees1 := StepKeepsGood(world, trees, events[0]);
      OneRoot(events[0]);
      assert trees.Keys + {} == trees.Keys && AllFrames(world.m, trees) + {} == AllFrames(world.m, trees);
      forall r | r in trees1.Keys ensures Served(world1.m.words, r) {
        StepKeepsServed(world, trees, events[0], r);
      }
      RunKeepsServed(world1, trees1, events[1..]);
      RootsInTwo(events);
      assert trees1.Keys + CreatedRoots(events[1..]) == trees.Keys + CreatedRoots(events);
    }
  }

  lemma RootsInTwo(events: seq<Event>)
    requires events != []
    ensures CreatedRoots(events) == CreatedRoots([events[0]]) + CreatedRoots(events[1..])
  {
    assert events == [events[0]] + events[1..];
    forall r ensures r in CreatedRoots(events) <==> r in CreatedRoots([events[0]]) + CreatedRoots(events[1..]) {
      if r in CreatedRoots(events[1..]) {
        var i :| 0 <= i < |events[1..]| && events[1..][i].Create? && events[1..][i].root == r;
        assert events[i + 1] == events[1..][i];
      }
      if r in CreatedRoots(events) {
        var i :| 0 <= i < |events| && events[i].Create? && events[i].root == r;
        assert i > 0 ==> events[1..][i - 1] == events[i];
      }
      if r in CreatedRoots([events[0]]) {
        assert [events[0]][0] == events[0];
      }
    }
  }

  /** From then on `unmap` and `translate` succeed on the same pages and name the same frame. */
  lemma UnmapIffTranslateAfterRun(world: World, trees: Ledger, events: seq<Event>, root: PhysFrame, va: VirtAddr)
    requires Good(world, trees) && Stocked(world.m) && AllServed(world.m.words, trees.Keys)
    requires Legal(world, trees.Keys, AllFrames(world.m, trees), events)
    requires root in trees.Keys + CreatedRoots(events) && IsPageAligned(va.addr)
    ensures var m := Run(world, events).m;
      && (Unmap(m, root, va).1.Ok? <==> Translate(m.words, root, va).Ok?)
      && (Translate(m.words, root, va).Ok? ==> Unmap(m, root, va).1 == Ok((va, Translate(m.words, root, va).value.0)))
  {
    hide Step, Run, Legal, Stocked, AllFrames, Coherent, Served, Inv, Unmap, Translate, IsPageAligned;
    RunKeepsServed(world, trees, events);
    var trees' := RunKeepsGood(world, trees, events);
    UnmapBeyondTranslateIff(Run(world, events).m, trees'[root], va);
  }

  // ----- which space is walked -----------------------------------------------------------------------------------

  /** The root of the last activation of a run. */
  function LastActivated(events: seq<Event>): Option<PhysFrame> {
    if events == [] then None
    else if events[|events| - 1].Activate? then Some(events[|events| - 1].root)
    else LastActivated(events[..|events| - 1])
  }

  lemma {:induction false} RunInTwo(world: World, first: seq<Event>, second: seq<Event>)
    ensures Run(world, first + second) == Run(Run(world, first), second)
    decreases first
  {
    hide Step;
    if first == [] {
      assert first + second == second;
    } else {
      assert (first + second)[1..] == first[1..] + second && (first + second)[0] == first[0];
      RunInTwo(Step(world, first[0]), first[1..], second);
    }
  }

  lemma OnlyActivationMoves(world: World, event: Event)
    ensures Step(world, event).active == if event.Activate? then Some(event.root) else world.active
  {
    hide Map, Unmap, Look, Low, PageNumber, FlushedPage;
  }

  /** Over every run the space being walked is the one activated last, whatever was active before; nothing but an
      activation changes it. */
  lemma {:induction false} ActiveIsLastActivated(world: World, events: seq<Event>)
    ensures Run(world, events).active == match LastActivated(events)
      case Some(root) => Some(root)
      case None => world.active
    decreases |events|
  {
    hide Step;
    if events != [] {
      var n := |events| - 1;
      assert events == events[..n] + [events[n]];
      RunInTwo(world, events[..n], [events[n]]);
      ActiveIsLastActivated(world, events[..n]);
      OnlyActivationMoves(Run(world, events[..n]), events[n]);
      var one := [events[n]];
      assert one[1..] == [];
    }
  }

  /** A walk after any run caches what the tables of the last activated root hold: every page `translate` answers for,
      and every accessed block of 1 GiB or 2 MiB. */
  lemma FillCachesLastActivated(world: World, events: seq<Event>, root: PhysFrame, va: VirtAddr)
    requires LastActivated(events) == Some(root) && Low(va)
    ensures var before := Run(world, events);
      var seen := Look(before.m.words, root, va);
      (Translate(before.m.words, root, va).Ok? || (seen.Block? && seen.level >= 1 && HasAccessFlag(seen.desc))) ==>
        Step(before, Fill(va)) == before.(tlb := before.tlb[PageNumber(va) := seen])
  {
    hide Run, Look, PageNumber, LeafFrame, DescriptorBitsToFlags, HasAccessFlag, HasTableOrPageBit;
    ActiveIsLastActivated(world, events);
  }

  /** Switching from one space to another: from the second activation on the second one is walked. */
  lemma SecondActivationWins(world: World, a: PhysFrame, b: PhysFrame)
    ensures Run(world, [Activate(a), Activate(b)]).active == Some(b)
  {
    ActiveIsLastActivated(world, [Activate(a), Activate(b)]);
  }
}
