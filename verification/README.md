# Verified models of Tyrne

This project models the parts of the Tyrne kernel and of its repository tools whose behaviour is hardest to see from
the code, and proves what they promise. To verify it: `dafny verify dfyconfig.toml` (Dafny 4.11).

**Address translation.** `Vmsav8` holds the descriptor encoders and decoders on real 64-bit words (the 4 KiB granule of
the Arm Architecture Reference Manual, DDI 0487, section D5.3). `PageTables` is physical memory as 64-bit words, the
table walk, and the ownership discipline that makes walks independent of one another. `Walker` states what one `map`,
`unmap` or `translate` does to memory and to the frame provider; `MissingTables` and `WalkerProperties` add up the
outcomes: failure atomicity, reachability, undoing, commuting; `TableEntries` shows that no link on the way to a page
restricts it. `FlatModel` is the flat specification, one mapping per
page, and the proof that the four-level tables give the same reply to every operation of every run; `FlatLimits` says
where the two part. `AddressSpaces` puts several spaces over one memory and one TLB that may fill from the active tables
at any moment; `FlushTokens` and `AddressSpaceRuns` are about its whole runs. `QemuVirtMmu` is the driver itself, a class
whose methods overwrite descriptors in place; each is proved against those functions. `FakeMmu` is the host-side fake
and its out-of-frames decorator. `Bootstrap` builds the boot tables with their loops, `BootstrapMaps` says what the two
finished roots translate, and `KernelHalf` what later maps can change of it.

**Kernel drivers.** `Timer` is the tick arithmetic, `Gic` the interrupt distributor against the set of enabled lines,
`ContextSwitch` the register save and restore sequence and what tasks find over whole runs.

**Repository tools.** `Emphasis` and `EmphasisScan` resolve competing star and underscore runs (section 6.2 and the
"process emphasis" procedure of the CommonMark specification) without and with the memo of failed searches;
`EmphasisPairing` says over the text alone what they must find. `SpanIndex` holds the one-pass indexes and the searches
they replace. `SourceLexer` and `CommentSpans` find, join, blank and mask comments and strings, and `Lexing` says over
the text alone where those begin and end. `Reviews` is the worklist of discoverable documents. `BranchProtection` applies
additive status checks to a remote that others may change at any moment.

Three modelling choices run through the translation part. Memory is a total map from (frame, 9-bit index) to words.
Frames come from a provider whose contract, as the trait states it, is that each is page aligned, zeroed and handed out
once; the walker does not zero a frame itself, although the comment on `walk_or_alloc_table` says it does. A virtual
page is its 36-bit page number, because the walk ignores bits 48 and above.

What the proofs found, kept as the code has it and stated exactly, each with an input:

- The fake promises to be faithful bit for bit in what it models. A successful `map` keeps it so exactly when the page
  is in the low half, the frame is below 2^48 and the flags have no unnamed bit (`FlatModel.MapKeepsAgreementIff`);
  `unmap` and `translate` of an address above bit 47 answer as the tables do exactly when the fake holds the same there
  as at the low alias (`FlatLimits.UnmapAgreesIff`, `FlatLimits.TranslateAgreesIff`). Mapping address 2^48 parts the two
  (`FlatLimits.WideMapPartsTheTwo`).
- Flushing the token of an `unmap` removes the cached entry exactly when bits 59 to 48 of the address are clear, the page
  operand being bits 59 to 12 as the comment on `invalidate_tlb_address` describes it
  (`FlushTokens.FlushAfterUnmapIff`). A run at address 2^48 flushes all its tokens and ends with a wrong entry
  (`FlushTokens.WideRunEndsWrong`).
- The two boot roots share their level-2 tables: a map through the low boot root changes what the high root translates
  exactly when its page is below 2 GiB (`KernelHalf.HighHalfStaysIff`), as the first page mapped after boot may
  (`KernelHalf.BootPageShowsHigh`).
- An armed deadline fires at exactly the first tick that reaches it, except that a deadline beyond the last tick fires
  when the counter stands at its very last value (`Timer.DeadlineIsExactIff`, `Timer.LastTickFiresEarly`).

A remark on robustness: taken alone, `unmap` succeeds on a valid leaf that is reserved or has its access flag clear,
where `translate` answers `NotMapped`. No run of the code brings such a leaf about: every page of every space stays one
`translate` answers for, from boot on and for all 64-bit addresses (`AddressSpaceRuns.RunKeepsServed`,
`KernelHalf.BootRootsAreServed`).

## Model

| member | source | states |
|---|---|---|
| `Vmsav8.TableDescriptorRoundTrip` | hal/src/mmu/vmsav8.rs:502-504 | A table descriptor is a valid table entry for any address, and leads back to the frame it was built from exactly when that frame is page aligned and below 2^48. |
| `Vmsav8.AttributesRoundTrip` | hal/src/mmu/vmsav8.rs:397-431 | Decoding the encoded attributes gives back the five named flags for every 32-bit flag word, but for EXECUTE where DEVICE is set too; unnamed bits vanish. |
| `Vmsav8.PageDescriptorFrame` | hal/src/mmu/vmsav8.rs:479-491 | A page descriptor is a valid, accessed leaf; its frame is the one given exactly when the descriptor can carry it. |
| `Vmsav8.PageDescriptorFlags` | hal/src/mmu/vmsav8.rs:371-397 | The flags read back from a page descriptor are the flags written exactly when no unnamed bit is set and they are not DEVICE with EXECUTE. |
| `Vmsav8.LeavesGrantTheirFlags` | hal/src/mmu/vmsav8.rs:305-363 | Pages and blocks grant exactly what their flags name, whatever the address: no leaf is executable at both exception levels, device leaves at neither, EL0 access only with USER, writing only with WRITE. |
| `Vmsav8.BlockDescriptorAddress` | hal/src/mmu/vmsav8.rs:451-463 | A block descriptor is valid, accessed, no table, and carries the 2 MiB-aligned part of the address. |
| `Vmsav8.MaskedAddressIsAFrame` | bsp-qemu-virt/src/mmu.rs:617-619 | The frame check on a decoded address never fails, so the walker never answers MisalignedAddress for a descriptor. |
| `Vmsav8.DecodedFlagsAreNamed` | hal/src/mmu/vmsav8.rs:388-392 | Any 64-bit word whatsoever decodes to named flags only. |
| `Vmsav8.TableDescriptorIsBare` | hal/src/mmu/vmsav8.rs:493-504 | A table descriptor sets its type and address bits and nothing else, none of the bits that would restrict the levels below. |
| `Vmsav8.LeafDescriptorsAreBare` | hal/src/mmu/vmsav8.rs:451-491 | A page or block descriptor sets its type, attribute fields, access flag and address and nothing else: no hint, software or low address bit. |
| `Vmsav8.ConditionsMean` | hal/src/mmu/vmsav8.rs:305-363 | The conditions of the other results as bounds on numbers: page aligned, below 2^48, DEVICE with EXECUTE, no bit above the fifth. |
| `PageTables.SamePageIffPageNumber` | bsp-qemu-virt/src/mmu.rs:470-472 | Two addresses take the same path through all four levels exactly when bits 47 to 12 agree. |
| `PageTables.WalkStaysInside` | bsp-qemu-virt/src/mmu.rs:481-488 | A walk of n levels ends in an owned table of level n that was reached through its one recorded parent entry. |
| `PageTables.OnePathToTable` | bsp-qemu-virt/src/mmu.rs:481-488 | Two walks that meet in a table took the same index at every level above it: no table is shared. |
| `PageTables.WritesElsewhere` | bsp-qemu-virt/src/mmu.rs:486-487 | Writes outside an address space's own tables change neither its tree nor anything it translates. |
| `PageTables.LeafWrite` | bsp-qemu-virt/src/mmu.rs:532-564 | Writing one leaf entry changes what the tables hold for its own page and for no other address. |
| `PageTables.Graft` | bsp-qemu-virt/src/mmu.rs:626-638 | Linking a fresh zeroed table at an empty entry keeps the tree well formed and changes no translation. |
| `PageTables.GraftedWalk` | bsp-qemu-virt/src/mmu.rs:626-638 | After the link exactly the walks that ended at that entry go on, one level further and no more. |
| `Walker.DescendReading` | bsp-qemu-virt/src/mmu.rs:597-625 | The no-allocate walk finds the table, the hole or the block the tables hold for the address, and touches nothing. |
| `Walker.DescendMapping` | bsp-qemu-virt/src/mmu.rs:509-520 | The allocating walk finds the table, meets a block, or builds exactly the missing tables while stock lasts; every intermediate state keeps the tree, the stock and every translation. |
| `Walker.MapOutcome` | bsp-qemu-virt/src/mmu.rs:246-297 | `map` in full: which error comes back exactly when, how many frames go, that the invariant is kept, and that on success one page changes and no other. |
| `Walker.UnmapOutcome` | bsp-qemu-virt/src/mmu.rs:299-329 | `unmap` in full: the result for every content of the tables, no frame taken, and exactly the answered page cleared. |
| `Walker.LeafIsValid` | bsp-qemu-virt/src/mmu.rs:557-562 | Every leaf `map` writes is one a walk accepts: valid, page bit, accessed. |
| `WalkerProperties.FailedMapChangesNothing` | hal/src/mmu/mod.rs:506-530 | Every failed `map` leaves every translation as it was and takes at most three frames; all errors but OutOfFrames change nothing at all; after OutOfFrames the frames taken shorten the path a retry needs. |
| `WalkerProperties.FailedMapKeepsNoFrame` | hal/src/mmu/mod.rs:515-522 | A failed `map` does not consume the leaf frame: exactly the pages that led to it before lead to it after. |
| `WalkerProperties.FailedUnmapChangesNothing` | bsp-qemu-virt/src/mmu.rs:299-329 | A failed `unmap` writes nothing and no `unmap` touches the provider. |
| `WalkerProperties.OwnedIffReachable` | bsp-qemu-virt/src/mmu.rs:481-488 | The tables an address space owns are exactly the ones some walk visits, each at one level only. |
| `WalkerProperties.MapLeaksNoFrame` | hal/src/mmu/mod.rs:523-530 | After any `map`, failed or not, the reachable tables are the ones before and exactly the frames that left the provider. |
| `WalkerProperties.UnmapUndoesMap` | bsp-qemu-virt/src/mmu.rs:299-329 | `unmap` after `map` gives the token and the frame back and restores every translation; the frame is the one mapped exactly when a descriptor can carry it. |
| `WalkerProperties.OperationsKeepServed` | bsp-qemu-virt/src/mmu.rs:365-393 | `map` and `unmap` of any 64-bit address, whatever they answer, keep it so that every page the tables hold is one `translate` answers for. |
| `WalkerProperties.UnmapBeyondTranslateIff` | bsp-qemu-virt/src/mmu.rs:365-387 | `unmap` succeeds where `translate` refuses exactly on a valid leaf that is reserved or unaccessed; with every page served, which every run keeps, there is none, and both succeed on the same pages and name the same frame. |
| `MissingTables.MapBuilds` | bsp-qemu-virt/src/mmu.rs:509-520 | After a successful `map` it is known of every address how many tables it still lacks: only those it shares with the mapped page have been built. |
| `MissingTables.MissingTogether` | bsp-qemu-virt/src/mmu.rs:509-520 | Two pages lack the same number of tables together, whichever is mapped first. |
| `WalkerProperties.MapsOfDifferentPagesCommute` | bsp-qemu-virt/src/mmu.rs:246-297 | If two different pages can be mapped one after the other, they can be in the other order too, with the same translations and as many frames left. |
| `FlatModel.MapKeepsAgreementIff` | test-hal/src/mmu.rs:100-108 | A successful `map` keeps tables and flat map in agreement if and only if the address is in the low half, the frame is representable and no unnamed flag bit is set. |
| `FlatLimits.UnmapAgreesIff` | test-hal/src/mmu.rs:249-263 | `unmap` of any address: tables and fake reply alike exactly when it is misaligned or the fake holds the same frame at the address and at its low alias; agreement is kept exactly when it is misaligned, low, or its alias unmapped. |
| `FlatLimits.TranslateAgreesIff` | test-hal/src/mmu.rs:265-276 | `translate` of any address: both reply alike exactly when the fake answers for the address as for its low alias. |
| `FlatLimits.WideMapPartsTheTwo` | test-hal/src/mmu.rs:100-108 | On blank memory `map` at 2^48 succeeds on both; afterwards the tables answer for address 0 and the fake does not. |
| `FlatModel.StepAgrees` | test-hal/src/mmu.rs:212-276 | Each operation replies alike on both; running out of frames is the only exception, needs fewer than three free frames and changes no translation. |
| `FlatModel.RunsAgree` | test-hal/src/mmu.rs:212-276 | Over every sequence of operations with three free frames for each `map`, the four-level tables give the flat map's replies, interior offsets included. |
| `FlatModel.NewAddressSpace` | bsp-qemu-virt/src/mmu.rs:173-186 | A zeroed root is a well-formed, empty address space that agrees with the empty flat map. |
| `AddressSpaces.Isolation` | bsp-qemu-virt/src/mmu.rs:486-487 | An operation in one address space leaves every other one well formed, disjoint from it and with the same translations. |
| `AddressSpaces.MoveKeepsFrames` | hal/src/mmu/mod.rs:523-530 | Frames only change hands between the provider and the tables: none is lost and none appears. |
| `AddressSpaces.StepKeepsGood` | bsp-qemu-virt/src/mmu.rs:192-244 | Every step of the machine (map, unmap, TLB fill at any moment, flush, invalidate, activate, new space) keeps the spaces apart, the frames accounted for and the TLB coherent outside the pages whose token is pending. |
| `AddressSpaces.RunKeepsGood` | bsp-qemu-virt/src/mmu.rs:192-453 | The same over every legal run. |
| `FlushTokens.DischargedRunIsFullyCoherent` | hal/src/mmu/mod.rs:423-449 | A run that starts with nothing stale and discharges every token it mints ends with every cached entry equal to the current translation. |
| `AddressSpaces.SweepRestoresAgreement` | bsp-qemu-virt/src/mmu.rs:436-453 | From any state, invalidating everything or activating any root leaves every cached entry equal to the current translation and nothing stale. |
| `FlushTokens.FlushAfterUnmapIff` | bsp-qemu-virt/src/mmu.rs:395-434 | Unmap a cached page of the active space, at any address, and flush its token: in between the cached entry is wrong; the flush removes it, and restores agreement, exactly when bits 59 to 48 of the address are clear. |
| `FlushTokens.RedeemedRunAgreesButForWideTokens` | hal/src/mmu/mod.rs:423-449 | Over every legal run that flushes each token it mints by that token's own address, the TLB is wrong at most on pages whose token had one of bits 59 to 48 set, and nowhere if none had. |
| `FlushTokens.WideRunEndsWrong` | bsp-qemu-virt/src/mmu.rs:395-434 | The run map, walk, unmap, flush at address 2^48 is legal, flushes every token, and ends with a wrong cached entry. |
| `AddressSpaceRuns.UntouchedSpaceStays` | bsp-qemu-virt/src/mmu.rs:486-487 | Over every legal run, a space no event operates on keeps the translation of every address. |
| `AddressSpaceRuns.RunKeepsServed` | bsp-qemu-virt/src/mmu.rs:365-393 | Over every legal run, pages that `unmap` would answer for and `translate` would not never come about in any space. |
| `AddressSpaceRuns.UnmapIffTranslateAfterRun` | bsp-qemu-virt/src/mmu.rs:299-393 | After every such run `unmap` and `translate` succeed on the same pages of every space and name the same frame. |
| `AddressSpaceRuns.ActiveIsLastActivated` | bsp-qemu-virt/src/mmu.rs:192-244 | Over every run the space being walked is the one activated last, whatever was active before, and nothing else changes it. |
| `AddressSpaceRuns.FillCachesLastActivated` | bsp-qemu-virt/src/mmu.rs:192-244 | After any run a walk caches what the last activated tables hold for every low page `translate` answers for and every accessed block. |
| `AddressSpaceRuns.SecondActivationWins` | bsp-qemu-virt/src/mmu.rs:192-244 | Switching from one space to another leaves the second one walked. |
| `TableEntries.UnrestrictedIffBareTree` | bsp-qemu-virt/src/mmu.rs:481-488 | The links walks pass are exactly the links in the tables the space owns. |
| `TableEntries.MapKeepsUnrestricted` | bsp-qemu-virt/src/mmu.rs:626-638 | `map` of any address, whatever it answers, keeps every link of the space bare and every page without stray bits. |
| `TableEntries.UnmapKeepsUnrestricted` | bsp-qemu-virt/src/mmu.rs:534-549 | So does `unmap`. |
| `TableEntries.UnmapZeroesEntry` | bsp-qemu-virt/src/mmu.rs:544-549 | A successful `unmap` writes one word, the entry of its page, and writes it zero. |
| `TableEntries.RunKeepsUnrestricted` | bsp-qemu-virt/src/mmu.rs:246-329 | Over every legal run, in every space, links stay bare and pages without stray bits. |
| `TableEntries.BootRootsAreUnrestricted` | bsp-qemu-virt/src/mmu_bootstrap.rs:128-177 | The finished boot tables start so under both roots. |
| `TableEntries.TranslateReportsEffectiveFlags` | bsp-qemu-virt/src/mmu.rs:389-392 | The flags `translate` reports are those of the leaf after every restriction a link on its path could impose has been taken in. |
| `QemuVirtMmu.FrameProvider.AllocFrame` | test-hal/src/mmu.rs:52-56 | The newest frame is handed out and removed; an empty provider answers nothing. |
| `QemuVirtMmu.Mmu.WalkOrAllocTable` | bsp-qemu-virt/src/mmu.rs:580-639 | The in-place level step does to memory and provider exactly what the specification says, and writes nothing on the no-allocate path. |
| `QemuVirtMmu.Mmu.WalkAndInstallLeaf` | bsp-qemu-virt/src/mmu.rs:496-565 | The in-place walk meets the specification of installing and of clearing a leaf. |
| `QemuVirtMmu.Mmu.Map` | bsp-qemu-virt/src/mmu.rs:246-297 | The driver's `map` takes the whole machine state to the one the step model says and returns the specified result. |
| `QemuVirtMmu.Mmu.Unmap` | bsp-qemu-virt/src/mmu.rs:299-329 | The same for `unmap`, which runs with an empty provider. |
| `QemuVirtMmu.Mmu.Translate` | bsp-qemu-virt/src/mmu.rs:331-393 | `translate` returns the specified answer and leaves memory as it was. |
| `QemuVirtMmu.Mmu.Activate` | bsp-qemu-virt/src/mmu.rs:192-244 | Activation installs the given root in every state, re-enables low walks and empties the TLB. |
| `QemuVirtMmu.Mmu.InvalidateTlbAddress` | bsp-qemu-virt/src/mmu.rs:395-434 | Drops the page bits 59 to 12 of the address name, and no other. |
| `QemuVirtMmu.Mmu.InvalidateTlbAll` | bsp-qemu-virt/src/mmu.rs:436-453 | Drops every cached translation. |
| `QemuVirtMmu.Mmu.Flush` | hal/src/mmu/mod.rs:423-429 | Discharging a token is the per-address invalidate of its address. |
| `FakeMmu.FakeMmu.Map` | test-hal/src/mmu.rs:212-247 | The fake's `map`, in place, meets the flat specification. |
| `FakeMmu.FakeMmu.Unmap` | test-hal/src/mmu.rs:249-263 | The fake's `unmap`, in place, meets the flat specification. |
| `FakeMmu.FakeMmu.Translate` | test-hal/src/mmu.rs:265-276 | The fake's `translate` meets the flat specification. |
| `FakeMmu.OutOfFramesMmu.Map` | test-hal/src/mmu.rs:379-403 | The decorator fails without any effect, uses one frame exactly on success, and answers OutOfFrames exactly when the provider is empty and the fake would have mapped. |
| `Bootstrap.FillDeviceBlocks` | bsp-qemu-virt/src/mmu_bootstrap.rs:148-158 | The loop fills exactly entries 64 to 72 with identity device blocks and writes no other table. |
| `Bootstrap.FillRamBlocks` | bsp-qemu-virt/src/mmu_bootstrap.rs:168-176 | The loop fills exactly the first 64 entries with consecutive RAM blocks and writes no other table. |
| `Bootstrap.MmuBootstrap` | bsp-qemu-virt/src/mmu_bootstrap.rs:95-262 | The finished low tables, word for word, no other frame written, and the low root live with the high half off. |
| `Bootstrap.HighHalfActivate` | bsp-qemu-virt/src/mmu_bootstrap.rs:308-375 | The finished high tables, the low ones untouched, and the high root live. |
| `BootstrapMaps.LowRootHolds` | bsp-qemu-virt/src/mmu_bootstrap.rs:128-177 | For every low address, the descriptor the low root holds for it, or nothing. |
| `BootstrapMaps.LowRootIsIdentity` | bsp-qemu-virt/src/mmu_bootstrap.rs:148-176 | The low root is the identity on the device and RAM windows and maps no other low address. |
| `BootstrapMaps.HighRootHolds` | bsp-qemu-virt/src/mmu_bootstrap.rs:318-347 | For every high address, the high root holds what the low root holds for the physical address below the offset. |
| `BootstrapMaps.HighRootIsOffsetMap` | bsp-qemu-virt/src/mmu_bootstrap.rs:318-347 | The high root maps offset plus p to p on the two windows and maps no other high address. |
| `BootstrapMaps.WindowsGrant` | bsp-qemu-virt/src/mmu_bootstrap.rs:148-166 | In bits, under both roots: the device window is global device memory, non-shareable, read-write at EL1 only, executable nowhere; the RAM window is global normal memory, inner shareable, read-write at EL1 only, executable at EL1. |
| `BootstrapMaps.RootsShareTheirTables` | bsp-qemu-virt/src/mmu_bootstrap.rs:340-347 | While the six links stand, both roots hold the same for every physical address below 2 GiB, whatever the shared tables contain. |
| `BootstrapMaps.BootTreeIsWellFormed` | bsp-qemu-virt/src/mmu_bootstrap.rs:128-177 | The low boot tables are an owned tree the walker may work on. |
| `BootstrapMaps.BootRootThroughWalker` | bsp-qemu-virt/src/mmu.rs:597-616 | Through the low boot root `translate` never succeeds; in the windows `translate` and `unmap` answer BlockMapped, `map` AlreadyMapped, and nothing is written or allocated. |
| `BootstrapMaps.LowMappingShowsInHighHalf` | bsp-qemu-virt/src/mmu_bootstrap.rs:340-347 | A page mapped through the low boot root below 2 GiB appears through the high root, whatever else the high tables hold. |
| `KernelHalf.HighHalfStaysIff` | bsp-qemu-virt/src/mmu_bootstrap.rs:340-347 | A successful map through the low boot root, of any address, changes what the high root translates if and only if its page is below 2 GiB; then it shows at its offset place, where nothing was. |
| `KernelHalf.BootPageShowsHigh` | bsp-qemu-virt/src/mmu_bootstrap.rs:340-347 | Straight after boot the map of the page at 4 KiB is such a one: it takes one frame, succeeds, and changes the high half. |
| `KernelHalf.UserSpacesKeepKernelHalf` | bsp-qemu-virt/src/mmu_bootstrap.rs:318-347 | Over every legal run of the other address spaces the kernel half stays the offset map of the two windows. The low boot root, which shares its tables, is none of them. |
| `KernelHalf.BootSpaceIsGood` | bsp-qemu-virt/src/mmu_bootstrap.rs:318-347 | The finished tables are a state such a run may start from. |
| `KernelHalf.BootRootsAreServed` | bsp-qemu-virt/src/mmu_bootstrap.rs:148-176 | Neither boot root holds a page, so the runs in which `unmap` and `translate` succeed alike start at boot. |
| `BootstrapMaps.BlocksSurviveRuns` | bsp-qemu-virt/src/mmu.rs:599-616 | Over any run of operations an address a block covers keeps that block. |
| `Timer.DeadlineIsExactIff` | hal/src/timer.rs:209-224 | The counter has reached the armed tick exactly when its time has reached the deadline, except at the last counter value when the tick count is not representable. |
| `Timer.LastTickFiresEarly` | hal/src/timer.rs:214-223 | At 2 GHz the deadline 2^64 - 1 is armed at the last tick, and the comparator holds there at about half that time. |
| `Timer.FiresAtFirstReachingTick` | bsp-qemu-virt/src/cpu.rs:679-705 | An armed comparator first holds at the first tick at which the clock reads the deadline or later. |
| `Timer.ConversionsAreMonotone` | hal/src/timer.rs:107-119 | Both conversions are monotone, at saturation as well. |
| `Timer.RoundTripIff` | hal/src/timer.rs:209-224 | Without saturation ticks to nanoseconds and back never gains a tick, and loses none exactly when the remainder is below 10^9; at 1 GHz and below it is exact. |
| `Timer.ResolutionIsNearest` | hal/src/timer.rs:147-164 | The resolution is never zero and, up to 2 GHz, within half a nanosecond of the true period. |
| `Timer.OneSecond` | hal/src/timer.rs:107-119 | A second is as many ticks as the frequency says and 10^9 nanoseconds, both ways. |
| `Timer.IntermediatesFit` | hal/src/timer.rs:112-113 | The 128-bit products never overflow. |
| `Timer.ResolutionFits` | hal/src/timer.rs:156-156 | The 64-bit sum never overflows. |
| `Gic.Enable` | bsp-qemu-virt/src/gic.rs:316-340 | The register write for a line lands in the enable bank of that line and sets its bit. |
| `Gic.Disable` | bsp-qemu-virt/src/gic.rs:342-362 | The register write for a line lands in the disable bank of that line and clears its bit. |
| `Gic.EnableChangesOneLine` | bsp-qemu-virt/src/gic.rs:323-339 | Enabling a line enables that line and no other. |
| `Gic.DisableChangesOneLine` | bsp-qemu-virt/src/gic.rs:349-361 | Disabling a line disables that line and no other. |
| `Gic.RunsAgree` | test-hal/src/irq_controller.rs:100-122 | Over every run of enables and disables each line's bit agrees with the fake's set. |
| `Gic.Init` | bsp-qemu-virt/src/gic.rs:153-247 | After boot exactly the implemented shared lines are cleared, at priority 0xA0 and routed to CPU 0; no other bank or byte changes, every write stays in its register bank, and the CPU interface lets every priority through. |
| `Gic.SpisAreOff` | bsp-qemu-virt/src/gic.rs:168-186 | After boot a line is enabled exactly when it was before and is not an implemented shared line. |
| `Gic.IrqCountIs` | bsp-qemu-virt/src/gic.rs:165-167 | The number of lines is 32 times one more than the low five bits of the type register. |
| `Gic.SpisFollowTheFake` | test-hal/src/irq_controller.rs:100-122 | From boot on, a shared line is enabled exactly when the fake, started empty, has it in its set. |
| `Gic.FakeIrqController.Enable` | test-hal/src/irq_controller.rs:101-112 | The fake's set gains the line, as in the run model. |
| `Gic.FakeIrqController.Disable` | test-hal/src/irq_controller.rs:114-122 | The fake's set loses the line, as in the run model. |
| `ContextSwitch.Cpu.SaveTo` | bsp-qemu-virt/src/cpu.rs:391-403 | The store sequence fills the 21 words of a context with x19 to x28, fp, lr, sp and d8 to d15, in their fields, and disturbs none of them. |
| `ContextSwitch.Cpu.RestoreFrom` | bsp-qemu-virt/src/cpu.rs:405-421 | The load sequence makes every callee-saved register the one in the context. |
| `ContextSwitch.Cpu.ContextSwitch` | bsp-qemu-virt/src/cpu.rs:373-423 | Registers of the old task saved, those of the new one live, and control at its saved link register. |
| `ContextSwitch.Cpu.EnterEl0` | bsp-qemu-virt/src/cpu.rs:477-566 | The trampoline leaves for the entry and stack in x19 and x20 with every general-purpose and all 128 bits of every SIMD register zero and the kernel stack in place. |
| `ContextSwitch.InitContext` | bsp-qemu-virt/src/cpu.rs:585-599 | A fresh context starts at the entry on its own stack; its other words stay. |
| `ContextSwitch.InitUserContext` | bsp-qemu-virt/src/cpu.rs:601-626 | A fresh user context starts in the trampoline with entry and user stack where the trampoline reads them. |
| `ContextSwitch.FirstUserDispatch` | bsp-qemu-virt/src/cpu.rs:601-626 | First dispatch composed: the switch lands in the trampoline and EL0 starts at the user entry, on the user stack, with no kernel value in its registers. |
| `ContextSwitch.HandOver` | bsp-qemu-virt/src/cpu.rs:573-583 | A switch between distinct contexts of the machine is one handover of the run model. |
| `ContextSwitch.SuspendedContextStays` | bsp-qemu-virt/src/cpu.rs:373-423 | While a task does not run nothing touches its context. |
| `ContextSwitch.TaskResumesWithItsRegisters` | bsp-qemu-virt/src/cpu.rs:373-423 | Over every interleaving a task resumes with exactly the callee-saved registers it had when suspended. |
| `Emphasis.RemovalsAreABracketing` | tools/docs_consistency.py:1078-1089 | For every text the removed characters pair into a non-crossing matching of equal, non-literal markers, opener first, none removed twice. |
| `Emphasis.Nearest` | tools/docs_consistency.py:1060-1072 | The search without the memo: no opener above the one found is eligible, and none at all when none is found. |
| `EmphasisPairing.FlanksMean` | tools/docs_consistency.py:1048-1055 | By the classes of its two neighbours alone, when a star run and when an underscore run may open and may close; inside a word an underscore does neither. |
| `EmphasisPairing.RunIsMaximal` | tools/docs_consistency.py:1042-1047 | A run goes on exactly as long as its characters are the same unescaped marker at consecutive places. |
| `EmphasisPairing.ResolveIsPairing` | tools/docs_consistency.py:1057-1088 | Over the text alone: each closing character pairs with the nearest earlier character of a matching opening run, under the rule of three, that no pair closed before has taken or enclosed, and with none exactly when there is none. |
| `EmphasisPairing.PairingIsUnique` | tools/docs_consistency.py:1057-1088 | A text calls for one such pairing only. |
| `EmphasisPairing.KeptIsTheRest` | tools/docs_consistency.py:1089-1089 | The text that is left has exactly the other characters, each at its rank. |
| `EmphasisScan.SameClassSameVerdict` | tools/docs_consistency.py:1058-1070 | Whether an opener can be closed depends on the closer only through its marker, openness and length modulo three. |
| `EmphasisScan.Search` | tools/docs_consistency.py:1060-1077 | The loop that stops at the remembered bottom finds the same opener as the search without it, at the stated number of inspections. |
| `EmphasisScan.FailureKeepsScan` | tools/docs_consistency.py:1073-1077 | Raising a class's bottom after a failed search keeps the memo sound for every later closer of the class. |
| `EmphasisScan.FailureIsPaid` | tools/docs_consistency.py:1073-1077 | A failed search is paid for by the credit that raising the bottom takes off the openers it inspected. |
| `EmphasisScan.ScanRun` | tools/docs_consistency.py:1042-1055 | The character loop finds the maximal run and its flanking exactly. |
| `EmphasisScan.CloseRun` | tools/docs_consistency.py:1057-1086 | Closing one run with the memo does what closing it without does, within the credit. |
| `EmphasisScan.PlainEmphasis` | tools/docs_consistency.py:1022-1089 | The scan with its memo keeps exactly the characters the plain algorithm keeps, all but those of the pairing the text calls for, and inspects at most fourteen openers per character. |
| `SpanIndex.ClosingParentheses` | tools/docs_audit.py:437-445 | One pass indexes every open parenthesis with what counting depth forward from it finds, and nothing else. |
| `SpanIndex.ClosedAtBalances` | tools/docs_audit.py:439-445 | Depth counting finds the first place where closing parentheses outnumber opening ones by the depth, and nothing exactly when there is no such place. |
| `SpanIndex.BisectRight` | tools/docs_consistency.py:693-699 | Bisection splits an ascending list at the first entry above the key. |
| `SpanIndex.IndexRuns` | tools/docs_consistency.py:682-684 | Every maximal backtick run of the text is listed under its length, in order, and nothing else is. |
| `SpanIndex.CodeSpans.Boundary` | tools/docs_consistency.py:691-693 | The bisected boundary is the next line after the position that begins a block, or the end of the text. |
| `SpanIndex.NextBoundaryIs` | tools/docs_consistency.py:685-693 | The next boundary lies after the position, begins a block or ends the text, and no line between begins a block. |
| `SpanIndex.FirstClosingMeans` | tools/docs_consistency.py:695-704 | The naive search finds the first run of exactly that many backticks, with no backtick on either side, in its range, or there is none. |
| `SpanIndex.CodeSpans.End` | tools/docs_consistency.py:695-704 | For every text and position the indexed answer is the end of the first later backtick run of equal length before the next block boundary. |
| `SourceLexer.DepthIsNesting` | tools/docs_audit.py:362-375 | Counting comment depth closes nested block comments one at a time: a comment ends where its own closer stands, after every inner one is balanced; in assembly comments do not nest. |
| `SourceLexer.ScanBlock` | tools/docs_audit.py:362-375 | The depth loop finds the end of the nested comment, or that it is unterminated. |
| `SourceLexer.ScanString` | tools/docs_audit.py:389-397 | The string loop finds the quote that ends the string, or that there is none. |
| `SourceLexer.RawClosing` | tools/docs_audit.py:380-387 | A raw string ends at the first quote that is followed by as many hashes as opened it. |
| `SourceLexer.QuoteIsFirstUnescaped` | tools/docs_audit.py:389-397 | A string ends at its first quote with an even number of backslashes before it. |
| `SourceLexer.StepAt` | tools/docs_audit.py:354-413 | Each step moves on inside the text or yields one token that starts at the cursor and is not empty. |
| `SourceLexer.StepIsSound` | tools/docs_audit.py:354-413 | Each token begins as its kind does, and a block comment begins with its opener and ends with a closer past it. |
| `SourceLexer.ScanStep` | tools/docs_audit.py:354-413 | One round of the pass, with its comment and string loops, is the specified step. |
| `SourceLexer.TokensAreInOrder` | tools/docs_audit.py:354-413 | Comments and strings come out ordered, disjoint and inside the text. |
| `Lexing.TokensIffLexes` | tools/docs_audit.py:353-413 | The token sequence is exactly the reading of the text: line comments run to the line ending, block comments to their own closer, strings to their first unescaped quote, raw strings to the first quote with as many hashes as opened them; between them character literals are passed over whole and everything else, lifetimes included, character by character. |
| `Lexing.EveryStepFits` | tools/docs_audit.py:353-413 | Where a comment or string begins, a step finds the only one that does; where none begins it passes the only piece there is; it reports what never ends. |
| `Lexing.FailsWhereStuck` | tools/docs_audit.py:350-351 | A failure names the place where the reading gets stuck. |
| `Lexing.CharLiteralIff` | tools/docs_audit.py:398-411 | A character literal is one character between apostrophes or one escape; its end is where the pass looks for it. |
| `Lexing.RawOpensIff` | tools/docs_audit.py:380-386 | A raw string opens with `r`, `br` or `cr`, any number of hashes and a quote, and with nothing else. |
| `SourceLexer.Scan` | tools/docs_audit.py:343-413 | The pass yields exactly the comments and the strings of the token sequence, each list in order, or fails where the first unterminated construct begins. |
| `CommentSpans.BlankLine` | tools/docs_audit.py:355-361 | Blanking a line comment's marker keeps the length and every other character. |
| `CommentSpans.RegionContentIs` | tools/docs_audit.py:358-377 | A line comment loses its slashes, a documentation mark and one blank after them, and nothing else; a block comment every marker the replacement comes to. |
| `CommentSpans.MarkLengthIs` | tools/docs_audit.py:376-376 | An opener, a closer, or a star with only blanks before it on its line together with one blank after it is a marker; nothing else is. |
| `CommentSpans.LineBreakIs` | tools/docs_audit.py:419-421 | The gap that joins is one line ending of any of the three kinds with only spaces and tabs after it. |
| `CommentSpans.MarksAreABlanking` | tools/docs_audit.py:376-377 | Blanking a block comment's markers keeps the length, every line ending and every character that is no marker. |
| `CommentSpans.MarksAreBlank` | tools/docs_audit.py:376-377 | Every marker the left-to-right replacement comes to is blank afterwards. |
| `CommentSpans.JoinLines` | tools/docs_audit.py:414-429 | The joining loop computes the join. |
| `CommentSpans.JoinIsRegions` | tools/docs_audit.py:414-429 | Joined regions are ordered and disjoint and their content is as long as, and position by position a blanking of, the source they cover. |
| `CommentSpans.JoinCovers` | tools/docs_audit.py:414-429 | Joining covers every comment and, besides comments, only blanks and line endings. |
| `CommentSpans.JoinIsMaximal` | tools/docs_audit.py:418-428 | No two neighbours are left that only a line break separates. |
| `CommentSpans.StringsAreApart` | tools/docs_audit.py:343-429 | No string overlaps a joined comment. |
| `CommentSpans.CommentsInSource` | tools/docs_audit.py:343-429 | The whole function: joined comments and strings of the one reading of the text, and a failure exactly when it has none. |
| `CommentSpans.Mask` | tools/docs_audit.py:614-619 | In place on the character list, exactly the covered characters that are no line ending become blank. |
| `CommentSpans.MaskHidesTokens` | tools/docs_audit.py:614-619 | Masking keeps every offset and line ending, leaves no comment or string character visible and no other character changed, tabs between joined comments apart. |
| `CommentSpans.CodeOf` | tools/docs_audit.py:614-619 | The composition leaves only the code of the one reading of the text, at its own offsets, and fails exactly when there is none. |
| `Reviews.ReachableReviews` | tools/docs_metadata.py:316-351 | The worklist ends with the least set that holds the available seeds and is closed under visible links and strict descendant directories. |
| `Reviews.FollowLinks` | tools/docs_metadata.py:328-350 | Reading one document reaches everything it grants, forces nothing more, and keeps the directory cache right. |
| `Reviews.LeastClosedIsUnique` | tools/docs_metadata.py:316-351 | The result does not depend on the order documents are visited in. |
| `Reviews.ReachedIffChained` | tools/docs_metadata.py:316-321 | A review is reached exactly when a chain of visible links leads to it from an available seed. |
| `Reviews.GrantedIs` | tools/docs_metadata.py:341-347 | What a link grants, exactly: the review it names, or what lies strictly inside a directory strictly inside the family. |
| `Reviews.FamilyRootGrantsNothing` | tools/docs_metadata.py:317-321 | A link to the family root, or to any directory not below it, grants nothing. |
| `Reviews.HiddenLinksGrantNothing` | tools/docs_metadata.py:332-341 | Images, unlabelled links, bare fragments and queries and unresolved links grant nothing. |
| `BranchProtection.AdditionsOnlyAdd` | tools/branch-protection.py:178-190 | When additions are allowed, the desired checks are exactly the current ones and the added ones, apart, and nothing else of the policy differs. |
| `BranchProtection.AdditionsIff` | tools/branch-protection.py:178-190 | Additions are refused exactly when something but the list of checks differs or a current check is no longer wanted. |
| `BranchProtection.BindingIsTheCheck` | tools/branch-protection.py:187-189 | A context is bound to an app exactly when that check is in the list. |
| `BranchProtection.GreenIffOneGoodRun` | tools/branch-protection.py:201-208 | A check is green exactly when one run bears its name, completed with success, at the commit, under its app. |
| `BranchProtection.Apply` | tools/branch-protection.py:211-223 | Against any interference it passes exactly when cleared and the last read is the desired policy, and writes at most once: exactly the desired checks, right after two reads of the expected policy, exactly when cleared with something to add. |
| `BranchProtection.WrittenPayloadIsAdditive` | tools/branch-protection.py:178-223 | A written payload keeps every expected binding, adds only checks seen green, and leaves every other policy as expected. |

## Left out

- Mapping under `phys_to_kernel_va`: the direct map, volatile access, barriers, cache maintenance and the migration
  trampoline are hardware mechanics; physical memory is a map of frames.
- The values of MAIR, TCR and SCTLR beyond the two walk-disable bits, and the high half of the TLB.
- AddressSpaces.StepKeepsGood: the TLB is indexed by page, so entries of different granule or address-space identifier
  are not told apart; the source runs with identifier 0 only.
- The `BlockMappedMmu` decorator and `FakeUserMem`: thin wrappers over the fake.
- QemuVirtMmu.FrameProvider.AllocFrame: that a frame is zeroed and handed out once is the provider's contract (the
  predicate `Stocked`), not something the class enforces.
- Kernel subsystems behind these drivers (capabilities, scheduler, message passing, task loader, user copy, console).
- FlushTokens.FlushAfterUnmapIff: the invalidate's operand is read as the source comment lays it out; which of its bits
  a core compares is not part of the model.
- Interrupt acknowledge, end of interrupt and the fake's pending queue and history: easy members.
- ContextSwitch.Cpu.ContextSwitch: the interrupt mask and the stack memory a task leaves behind are not modelled.
- EmphasisScan.PlainEmphasis: Unicode classification of neighbours (space, punctuation) is an input.
- SourceLexer.Scan: which characters are word characters is an input; an unterminated construct is reported by where it
  begins, not by line number.
- CommentSpans.CodeOf: the search for redirections in the masked code, and the identifier references `comment_tags`
  collects with the parenthesis index, are regular-expression work.
- Reviews.ReachableReviews: link parsing and resolution, file loading and the order documents are visited in (any order
  gives the same set).
- SpanIndex.CodeSpans.End: the block layout of the text, that is, which lines begin a block, is an input.
- BranchProtection.Apply: network calls, JSON validation and normalisation; a read either yields a valid policy or
  fails.
- The Markdown block grammar, the manifest parser, the footprint tool and the shell and emulator harnesses.
