/** The GICv2 distributor driver: its register writes, bank by bank, against the set of enabled lines they stand for. */
module Gic {

  const GIC_MAX_IRQ: bv32 := 1020
  const DEFAULT_PRIORITY_BYTE: bv32 := 0xA0
  const TARGET_CPU0_BYTE: bv32 := 0x01

  /** An interrupt line. */
  datatype Irq = Irq(n: bv32)

  /** One 32-bit word of the enable bits. */
  datatype Bank = Bank(n: bv32)

  type Banks = b: imap<Bank, bv32> | forall x: Bank :: x in b
    ghost witness imap x: Bank | true :: 0 as bv32

  type Bytes = b: imap<Irq, bv32> | forall x: Irq :: x in b
    ghost witness imap x: Irq | true :: 0 as bv32

  function Position(irq: bv32): (p: bv32)
    ensures p < 32
  {
    irq & 31
  }

  function BitAt(word: bv32, p: bv32): bv32
    requires p < 32
  {
    word & (1 << p)
  }

  function SetAt(word: bv32, p: bv32): bv32
    requires p < 32
  {
    word | (1 << p)
  }

  function ClearAt(word: bv32, p: bv32): bv32
    requires p < 32
  {
    word & !(1 << p)
  }

  function BankIndex(irq: bv32): bv32 {
    irq >> 5
  }

  function BankOf(irq: bv32): Bank {
    Bank(BankIndex(irq))
  }

  predicate HasBit(word: bv32, irq: bv32) {
    BitAt(word, Position(irq)) != 0
  }

  function WithBit(word: bv32, irq: bv32): bv32 {
    SetAt(word, Position(irq))
  }

  function WithoutBit(word: bv32, irq: bv32): bv32 {
    ClearAt(word, Position(irq))
  }

  /** The enable bit of a line. */
  predicate Enabled(banks: Banks, irq: Irq) {
    HasBit(banks[BankOf(irq.n)], irq.n)
  }

  function EnableBits(banks: Banks, irq: Irq): Banks {
    banks[BankOf(irq.n) := WithBit(banks[BankOf(irq.n)], irq.n)]
  }

  function DisableBits(banks: Banks, irq: Irq): Banks {
    banks[BankOf(irq.n) := WithoutBit(banks[BankOf(irq.n)], irq.n)]
  }

  // ----- the distributor, as hardware answers writes -------------------------------------------------------------

  class Distributor {
    var ctlr: bv32
    const typer: bv32
    var banks: Banks
    var priority: Bytes
    var target: Bytes

    constructor (typer: bv32, banks: Banks, priority: Bytes, target: Bytes)
      ensures this.typer == typer && this.banks == banks && this.priority == priority && this.target == target
    {
      this.ctlr := 0;
      this.typer := typer;
      this.banks := banks;
      this.priority := priority;
      this.target := target;
    }

    /** GICD_CTLR. */
    method WriteCtlr(value: bv32)
      modifies this`ctlr
      ensures ctlr == value
    {
      ctlr := value;
    }

    /** GICD_ISENABLER: one bits set, zero bits leave alone. */
    method WriteSetEnable(offset: bv32, value: bv32)
      requires 0x100 <= offset < 0x180 && offset & 3 == 0
      modifies this`banks
      ensures var b := Bank((offset - 0x100) >> 2); banks == old(banks)[b := old(banks)[b] | value]
    {
      var b := Bank((offset - 0x100) >> 2);
      banks := banks[b := banks[b] | value];
    }

    /** GICD_ICENABLER: one bits clear, zero bits leave alone. */
    method WriteClearEnable(offset: bv32, value: bv32)
      requires 0x180 <= offset < 0x200 && offset & 3 == 0
      modifies this`banks
      ensures var b := Bank((offset - 0x180) >> 2); banks == old(banks)[b := old(banks)[b] & !value]
    {
      var b := Bank((offset - 0x180) >> 2);
      banks := banks[b := banks[b] & !value];
    }

    /** GICD_IPRIORITYR: one byte for each of four lines. */
    method WritePriority(offset: bv32, value: bv32)
      requires 0x400 <= offset < 0x800 && offset & 3 == 0
      modifies this`priority
      ensures priority == FourBytes(old(priority), offset - 0x400, value)
    {
      priority := FourBytes(priority, offset - 0x400, value);
    }

    /** GICD_ITARGETSR: one byte for each of four lines. */
    method WriteTarget(offset: bv32, value: bv32)
      requires 0x800 <= offset < 0xC00 && offset & 3 == 0
      modifies this`target
      ensures target == FourBytes(old(target), offset - 0x800, value)
    {
      target := FourBytes(target, offset - 0x800, value);
    }
  }

  /** The interface of the one core: its priority mask and its enable. */
  class CpuInterface {
    var pmr: bv32
    var ctlr: bv32

    constructor ()
      ensures pmr == 0 && ctlr == 0
    {
      pmr, ctlr := 0, 0;
    }

    /** GICC_PMR. */
    method WritePmr(value: bv32)
      modifies this`pmr
      ensures pmr == value
    {
      pmr := value;
    }

    /** GICC_CTLR. */
    method WriteCtlr(value: bv32)
      modifies this`ctlr
      ensures ctlr == value
    {
      ctlr := value;
    }
  }

  function FourBytes(bytes: Bytes, first: bv32, value: bv32): Bytes {
    bytes[Irq(first) := value & 0xFF][Irq(first + 1) := (value >> 8) & 0xFF]
         [Irq(first + 2) := (value >> 16) & 0xFF][Irq(first + 3) := (value >> 24) & 0xFF]
  }

  // ----- the driver ------------------------------------------------------------------------------------------------

  /** Lines the distributor implements, from its type register. */
  function IrqCount(typer: bv32): bv32 {
    ((typer & 0x1F) + 1) * 32
  }

  lemma CountIsBounded(typer: bv32)
    ensures 32 <= IrqCount(typer) <= 1024 && IrqCount(typer) & 31 == 0
  {
  }

  /** The type register's low five bits count the implemented lines in blocks of 32, less one. */
  lemma IrqCountIs(typer: bv32)
    ensures IrqCount(typer) == ((typer & 0x1F) << 5) + 32
  {
    BlocksOfThirtyTwo((typer & 0x1F) + 1);
  }

  lemma BlocksOfThirtyTwo(blocks: bv32)
    ensures blocks * 32 == blocks << 5
  {
  }

  lemma IrqCountsAre()
    ensures IrqCount(0) == 32 && IrqCount(8) == 288 && IrqCount(0x1F) == 1024 && IrqCount(0x20) == 32
  {
  }

  // Which word of a register bank holds a line's bit, and which bit it is, by division as the driver computes them.
  function WordIndex(n: bv32): bv32 {
    n / 32
  }

  function BitIndex(n: bv32): (p: bv32)
    ensures p < 32
  {
    n % 32
  }

  function RegisterOffset(base: bv32, n: bv32): bv32 {
    base + WordIndex(n) * 4
  }

  function LineBit(n: bv32): bv32 {
    1 << BitIndex(n)
  }

  lemma WordDivision(n: bv32)
    ensures WordIndex(n) == BankIndex(n) && BitIndex(n) == Position(n)
  {
  }

  lemma EnableOffset(n: bv32)
    requires n < 1020
    ensures 0x100 <= 0x100 + BankIndex(n) * 4 < 0x180 && (0x100 + BankIndex(n) * 4) & 3 == 0
    ensures (0x100 + BankIndex(n) * 4 - 0x100) >> 2 == BankIndex(n)
  {
  }

  lemma DisableOffset(n: bv32)
    requires n < 1020
    ensures 0x180 <= 0x180 + BankIndex(n) * 4 < 0x200 && (0x180 + BankIndex(n) * 4) & 3 == 0
    ensures (0x180 + BankIndex(n) * 4 - 0x180) >> 2 == BankIndex(n)
  {
  }

  lemma OffsetMeans(base: bv32, n: bv32)
    ensures RegisterOffset(base, n) == base + BankIndex(n) * 4
  {
    hide BankIndex, Position, WordIndex, BitIndex;
    WordDivision(n);
  }

  lemma EnableRegister(n: bv32)
    requires n < 1020
    ensures var offset := RegisterOffset(0x100, n);
      0x100 <= offset < 0x180 && offset & 3 == 0 && (offset - 0x100) >> 2 == BankIndex(n)
  {
    hide BankIndex, RegisterOffset;
    OffsetMeans(0x100, n);
    EnableOffset(n);
  }

  lemma DisableRegister(n: bv32)
    requires n < 1020
    ensures var offset := RegisterOffset(0x180, n);
      0x180 <= offset < 0x200 && offset & 3 == 0 && (offset - 0x180) >> 2 == BankIndex(n)
  {
    hide BankIndex, RegisterOffset;
    OffsetMeans(0x180, n);
    DisableOffset(n);
  }

  lemma LineBitMeans(word: bv32, n: bv32)
    ensures WithBit(word, n) == word | LineBit(n) && WithoutBit(word, n) == word & !LineBit(n)
  {
    hide Position, BankIndex;
    WordDivision(n);
  }

  method Enable(gic: Distributor, irq: Irq)
    requires irq.n < GIC_MAX_IRQ
    modifies gic`banks
    ensures gic.banks == EnableBits(old(gic.banks), irq)
  {
    hide BankIndex, RegisterOffset, LineBit, WithBit;
    EnableRegister(irq.n);
    LineBitMeans(gic.banks[BankOf(irq.n)], irq.n);
    gic.WriteSetEnable(RegisterOffset(0x100, irq.n), LineBit(irq.n));
  }

  method Disable(gic: Distributor, irq: Irq)
    requires irq.n < GIC_MAX_IRQ
    modifies gic`banks
    ensures gic.banks == DisableBits(old(gic.banks), irq)
  {
    hide BankIndex, RegisterOffset, LineBit, WithoutBit;
    DisableRegister(irq.n);
    LineBitMeans(gic.banks[BankOf(irq.n)], irq.n);
    gic.WriteClearEnable(RegisterOffset(0x180, irq.n), LineBit(irq.n));
  }

  /** A shared peripheral line the distributor implements. */
  predicate IsSpi(irq: Irq, count: bv32) {
    32 <= irq.n < count
  }

  lemma AndNot(x: bv32, a: bv32, b: bv32)
    ensures (x & !a) & b == x & (b & !a)
  {
  }

  lemma AndOr(x: bv32, a: bv32, b: bv32)
    ensures (x | a) & b == (x & b) | (a & b)
  {
  }

  lemma PowersApart(p: bv32, q: bv32)
    requires p < 32 && q < 32 && p != q
    ensures ((1 as bv32) << p) & (1 << q) == 0
    ensures ((1 as bv32) << q) & !(1 << p) == 1 << q
  {
  }

  lemma SetSame(x: bv32, p: bv32)
    requires p < 32
    ensures BitAt(SetAt(x, p), p) != 0
  {
  }

  lemma SetOther(x: bv32, p: bv32, q: bv32)
    requires p < 32 && q < 32 && p != q
    ensures BitAt(SetAt(x, p), q) == BitAt(x, q)
  {
    AndOr(x, 1 << p, 1 << q);
    PowersApart(p, q);
  }

  lemma ClearSame(x: bv32, p: bv32)
    requires p < 32
    ensures BitAt(ClearAt(x, p), p) == 0
  {
  }

  lemma ClearOther(x: bv32, p: bv32, q: bv32)
    requires p < 32 && q < 32 && p != q
    ensures BitAt(ClearAt(x, p), q) == BitAt(x, q)
  {
    AndNot(x, 1 << p, 1 << q);
    PowersApart(p, q);
  }

  /** Within one word, positions tell lines apart. */
  lemma PositionInBank(i: bv32, j: bv32)
    requires BankIndex(i) == BankIndex(j)
    ensures Position(i) == Position(j) <==> i == j
  {
  }

  lemma SetBitTells(x: bv32, i: bv32, j: bv32)
    requires BankIndex(i) == BankIndex(j)
    ensures HasBit(WithBit(x, i), j) <==> i == j || HasBit(x, j)
  {
    hide BitAt, SetAt, Position, BankIndex;
    PositionInBank(i, j);
    SetSame(x, Position(i));
    if i != j { SetOther(x, Position(i), Position(j)); }
  }

  lemma ClearBitTells(x: bv32, i: bv32, j: bv32)
    requires BankIndex(i) == BankIndex(j)
    ensures HasBit(WithoutBit(x, i), j) <==> i != j && HasBit(x, j)
  {
    hide BitAt, ClearAt, Position, BankIndex;
    PositionInBank(i, j);
    ClearSame(x, Position(i));
    if i != j { ClearOther(x, Position(i), Position(j)); }
  }

  /** Enabling a line sets its bit and no other. */
  lemma EnableChangesOneLine(banks: Banks, i: Irq, j: Irq)
    ensures Enabled(EnableBits(banks, i), j) <==> i == j || Enabled(banks, j)
  {
    hide HasBit, WithBit, BankIndex;
    if BankOf(i.n) == BankOf(j.n) { SetBitTells(banks[BankOf(i.n)], i.n, j.n); }
  }

  lemma DisableChangesOneLine(banks: Banks, i: Irq, j: Irq)
    ensures Enabled(DisableBits(banks, i), j) <==> i != j && Enabled(banks, j)
  {
    hide HasBit, WithoutBit, BankIndex;
    if BankOf(i.n) == BankOf(j.n) { ClearBitTells(banks[BankOf(i.n)], i.n, j.n); }
  }

  // ----- whole runs against the set of enabled lines -----------------------------------------------------------------

  datatype Op = EnableOp(irq: Irq) | DisableOp(irq: Irq)

  function RegisterRun(banks: Banks, ops: seq<Op>): Banks
    decreases ops
  {
    if ops == [] then banks
    else RegisterRun(match ops[0] case EnableOp(i) => EnableBits(banks, i) case DisableOp(i) => DisableBits(banks, i),
                     ops[1..])
  }

  /** The fake controller's enabled set over the same run. */
  function SetRun(enabled: set<Irq>, ops: seq<Op>): set<Irq>
    decreases ops
  {
    if ops == [] then enabled
    else SetRun(match ops[0] case EnableOp(i) => enabled + {i} case DisableOp(i) => enabled - {i}, ops[1..])
  }

  /** Over every run, each line's enable bit agrees with the fake's set wherever it did at the start. */
  lemma {:induction false} RunsAgree(banks: Banks, enabled: set<Irq>, ops: seq<Op>, irq: Irq)
    requires Enabled(banks, irq) <==> irq in enabled
    ensures Enabled(RegisterRun(banks, ops), irq) <==> irq in SetRun(enabled, ops)
    decreases ops
  {
    hide Enabled, EnableBits, DisableBits;
    if ops != [] {
      match ops[0] {
        case EnableOp(i) =>
          EnableChangesOneLine(banks, i, irq);
          RunsAgree(EnableBits(banks, i), enabled + {i}, ops[1..], irq);
        case DisableOp(i) =>
          DisableChangesOneLine(banks, i, irq);
          RunsAgree(DisableBits(banks, i), enabled - {i}, ops[1..], irq);
      }
    }
  }

  // ----- initialisation ----------------------------------------------------------------------------------------------

  predicate Within(n: bv32, limit: bv32) {
    32 <= n < limit
  }

  /** Every line in `[32, limit)` carries `byte`, and every other line what it did before. */
  ghost predicate BytesSet(bytes: Bytes, before: Bytes, limit: bv32, byte: bv32) {
    forall i: Irq :: bytes[i] == if Within(i.n, limit) then byte else before[i]
  }

  lemma OneMoreByte(bytes: Bytes, before: Bytes, limit: bv32, byte: bv32)
    requires BytesSet(bytes, before, limit, byte) && 32 <= limit < 1024
    ensures BytesSet(bytes[Irq(limit) := byte], before, limit + 1, byte)
  {
    hide Within;
    forall i: Irq ensures bytes[Irq(limit) := byte][i] == if Within(i.n, limit + 1) then byte else before[i] {
      Successor(limit, i.n);
      assert i == Irq(limit) <==> i.n == limit;
    }
  }

  lemma Successor(limit: bv32, n: bv32)
    requires 32 <= limit < 1024
    ensures Within(n, limit + 1) <==> Within(n, limit) || n == limit
  {
  }

  /** The same byte four times over. */
  function Fourfold(byte: bv32): bv32 {
    byte | (byte << 8) | (byte << 16) | (byte << 24)
  }

  lemma FourfoldIs(byte: bv32)
    requires byte < 0x100
    ensures var word := Fourfold(byte);
      && word & 0xFF == byte && (word >> 8) & 0xFF == byte
      && (word >> 16) & 0xFF == byte && (word >> 24) & 0xFF == byte
  {
  }

  lemma FourMore(bytes: Bytes, before: Bytes, limit: bv32, byte: bv32)
    requires BytesSet(bytes, before, limit, byte) && 32 <= limit <= 1020 && byte < 0x100
    ensures BytesSet(FourBytes(bytes, limit, Fourfold(byte)), before, limit + 4, byte)
  {
    hide BytesSet, Fourfold;
    FourfoldIs(byte);
    OneMoreByte(bytes, before, limit, byte);
    OneMoreByte(bytes[Irq(limit) := byte], before, limit + 1, byte);
    OneMoreByte(bytes[Irq(limit) := byte][Irq(limit + 1) := byte], before, limit + 2, byte);
    OneMoreByte(bytes[Irq(limit) := byte][Irq(limit + 1) := byte][Irq(limit + 2) := byte], before, limit + 3, byte);
    Added(limit);
  }

  lemma Added(limit: bv32)
    ensures limit + 1 + 1 == limit + 2 && limit + 2 + 1 == limit + 3 && limit + 3 + 1 == limit + 4
  {
  }

  /** Banks `[1, limit)` are clear, every other bank is as before. */
  ghost predicate BanksClear(banks: Banks, before: Banks, limit: bv32) {
    forall b: Bank :: banks[b] == if 1 <= b.n < limit then 0 else before[b]
  }

  lemma OneMoreBank(banks: Banks, before: Banks, n: bv32)
    requires BanksClear(banks, before, n) && 1 <= n < 32
    ensures BanksClear(banks[Bank(n) := banks[Bank(n)] & !0xFFFF_FFFF], before, n + 1)
  {
  }

  method DisableSpis(gic: Distributor, irqCount: bv32)
    requires WholeBanks(irqCount)
    modifies gic`banks
    ensures BanksClear(gic.banks, old(gic.banks), (irqCount >> 5))
  {
    hide BanksClear;
    var n: bv32 := 1;
    NoBankYet(gic.banks);
    while n * 32 < irqCount
      invariant 1 <= n <= (irqCount >> 5) && BanksClear(gic.banks, old(gic.banks), n)
      decreases (irqCount >> 5) - n
    {
      ClearOffset(n);
      OneMoreBank(gic.banks, old(gic.banks), n);
      gic.WriteClearEnable(0x180 + n * 4, 0xFFFF_FFFF);
      n := n + 1;
    }
  }

  lemma NoBankYet(banks: Banks)
    ensures BanksClear(banks, banks, 1)
  {
  }

  lemma ClearOffset(n: bv32)
    requires 1 <= n < 32
    ensures 0x180 <= 0x180 + n * 4 < 0x200 && (0x180 + n * 4) & 3 == 0 && (0x180 + n * 4 - 0x180) >> 2 == n
  {
  }

  predicate WordAligned(offset: bv32) {
    offset & 3 == 0
  }

  predicate WholeBanks(count: bv32) {
    32 <= count <= 1024 && count & 31 == 0
  }

  /** Inside the lines a word's offset is inside either register bank. */
  lemma WordOffset(byteIdx: bv32, count: bv32)
    requires WholeBanks(count) && 32 <= byteIdx < count && WordAligned(byteIdx)
    ensures byteIdx <= 1020
    ensures 0x400 <= 0x400 + byteIdx < 0x800 && (0x400 + byteIdx) & 3 == 0 && 0x400 + byteIdx - 0x400 == byteIdx
    ensures 0x800 <= 0x800 + byteIdx < 0xC00 && (0x800 + byteIdx) & 3 == 0 && 0x800 + byteIdx - 0x800 == byteIdx
  {
  }

  /** One priority word: four lines more. */
  method SetPriority(gic: Distributor, byteIdx: bv32, irqCount: bv32, byte: bv32, ghost before: Bytes)
    requires WholeBanks(irqCount) && 32 <= byteIdx < irqCount && WordAligned(byteIdx) && byte < 0x100
    requires BytesSet(gic.priority, before, byteIdx, byte)
    modifies gic`priority
    ensures BytesSet(gic.priority, before, byteIdx + 4, byte)
  {
    hide BytesSet, FourBytes, Fourfold, WordAligned, WholeBanks;
    WordOffset(byteIdx, irqCount);
    FourMore(gic.priority, before, byteIdx, byte);
    gic.WritePriority(0x400 + byteIdx, Fourfold(byte));
  }

  /** One target word: four lines more. */
  method SetTarget(gic: Distributor, byteIdx: bv32, irqCount: bv32, byte: bv32, ghost before: Bytes)
    requires WholeBanks(irqCount) && 32 <= byteIdx < irqCount && WordAligned(byteIdx) && byte < 0x100
    requires BytesSet(gic.target, before, byteIdx, byte)
    modifies gic`target
    ensures BytesSet(gic.target, before, byteIdx + 4, byte)
  {
    hide BytesSet, FourBytes, Fourfold, WordAligned, WholeBanks;
    WordOffset(byteIdx, irqCount);
    FourMore(gic.target, before, byteIdx, byte);
    gic.WriteTarget(0x800 + byteIdx, Fourfold(byte));
  }

  method SetPriorities(gic: Distributor, irqCount: bv32)
    requires WholeBanks(irqCount)
    modifies gic`priority
    ensures BytesSet(gic.priority, old(gic.priority), irqCount, DEFAULT_PRIORITY_BYTE)
  {
    hide BytesSet;
    var byteIdx: bv32 := 32;
    NoByteYet(gic.priority, DEFAULT_PRIORITY_BYTE);
    while byteIdx < irqCount
      invariant 32 <= byteIdx <= irqCount && WordAligned(byteIdx)
      invariant BytesSet(gic.priority, old(gic.priority), byteIdx, DEFAULT_PRIORITY_BYTE)
      decreases irqCount - byteIdx
    {
      SetPriority(gic, byteIdx, irqCount, DEFAULT_PRIORITY_BYTE, old(gic.priority));
      byteIdx := byteIdx + 4;
    }
  }

  lemma NoByteYet(bytes: Bytes, byte: bv32)
    ensures BytesSet(bytes, bytes, 32, byte)
  {
  }

  method RouteToCpu0(gic: Distributor, irqCount: bv32)
    requires WholeBanks(irqCount)
    modifies gic`target
    ensures BytesSet(gic.target, old(gic.target), irqCount, TARGET_CPU0_BYTE)
  {
    hide BytesSet;
    var byteIdx: bv32 := 32;
    NoByteYet(gic.target, TARGET_CPU0_BYTE);
    while byteIdx < irqCount
      invariant 32 <= byteIdx <= irqCount && WordAligned(byteIdx)
      invariant BytesSet(gic.target, old(gic.target), byteIdx, TARGET_CPU0_BYTE)
      decreases irqCount - byteIdx
    {
      SetTarget(gic, byteIdx, irqCount, TARGET_CPU0_BYTE, old(gic.target));
      byteIdx := byteIdx + 4;
    }
  }

  /** The boot sequence: every implemented shared line ends up disabled, at the default priority and routed to CPU 0,
      nothing else about any line changes, and the core takes interrupts of every priority. */
  method Init(gic: Distributor, cpu: CpuInterface)
    modifies gic, cpu
    ensures var count := IrqCount(gic.typer);
      && gic.ctlr == 1
      && BanksClear(gic.banks, old(gic.banks), count >> 5)
      && BytesSet(gic.priority, old(gic.priority), count, 0xA0)
      && BytesSet(gic.target, old(gic.target), count, 0x01)
      && cpu.pmr == 0xFF && cpu.ctlr == 1
  {
    hide BanksClear, BytesSet, IrqCount;
    gic.WriteCtlr(0);
    var irqCount := IrqCount(gic.typer);
    CountIsBounded(gic.typer);
    DisableSpis(gic, irqCount);
    SetPriorities(gic, irqCount);
    RouteToCpu0(gic, irqCount);
    gic.WriteCtlr(1);
    cpu.WritePmr(0xFF);
    cpu.WriteCtlr(1);
  }

  /** After the boot sequence exactly the implemented shared lines have lost their enable bit; every other line keeps
      the one it had. */
  lemma SpisAreOff(banks: Banks, before: Banks, typer: bv32, irq: Irq)
    requires BanksClear(banks, before, IrqCount(typer) >> 5)
    ensures Enabled(banks, irq) <==> !IsSpi(irq, IrqCount(typer)) && Enabled(before, irq)
  {
    hide IrqCount, HasBit;
    CountIsBounded(typer);
    SpiBank(irq.n, IrqCount(typer));
    NoBitInZero(irq.n);
  }

  lemma SpiBank(n: bv32, count: bv32)
    requires 32 <= count <= 1024 && count & 31 == 0
    ensures 1 <= BankIndex(n) < (count >> 5) <==> 32 <= n < count
  {
  }

  lemma NoBitInZero(n: bv32)
    ensures !HasBit(0, n)
  {
  }

  /** From boot on: for every run of enables and disables, a shared line is enabled exactly when the fake, which starts
      with nothing enabled, has it in its set. */
  lemma SpisFollowTheFake(banks: Banks, before: Banks, typer: bv32, ops: seq<Op>, irq: Irq)
    requires BanksClear(banks, before, IrqCount(typer) >> 5) && IsSpi(irq, IrqCount(typer))
    ensures Enabled(RegisterRun(banks, ops), irq) <==> irq in SetRun({}, ops)
  {
    hide BanksClear, IrqCount, Enabled;
    SpisAreOff(banks, before, typer, irq);
    RunsAgree(banks, {}, ops, irq);
  }

  // ----- the fake controller -----------------------------------------------------------------------------------------

  class FakeIrqController {
    var enabled: set<Irq>

    constructor ()
      ensures enabled == {}
    {
      enabled := {};
    }

    method Enable(irq: Irq)
      requires irq.n < GIC_MAX_IRQ
      modifies this`enabled
      ensures enabled == SetRun(old(enabled), [EnableOp(irq)])
    {
      enabled := enabled + {irq};
    }

    method Disable(irq: Irq)
      requires irq.n < GIC_MAX_IRQ
      modifies this`enabled
      ensures enabled == SetRun(old(enabled), [DisableOp(irq)])
    {
      enabled := enabled - {irq};
    }
  }
}
