/** Cooperative task switching: the save and restore sequence, instruction by instruction, and what a task finds in
    its registers when it runs again. */
module ContextSwitch {

  /** The saved registers of one task, as the 21 words of its context: x19 to x28, fp, lr, sp, d8 to d15. */
  type Saved = s: seq<bv64> | |s| == 21 witness seq(21, _ => 0)

  // Word indices of the fields at byte offsets 88 and 96.
  const LR := 11
  const SP := 12

  lemma SameWords(a: Saved, b: Saved)
    requires a[0] == b[0] && a[1] == b[1] && a[2] == b[2] && a[3] == b[3] && a[4] == b[4] && a[5] == b[5]
    requires a[6] == b[6]
    requires a[7] == b[7] && a[8] == b[8] && a[9] == b[9] && a[10] == b[10] && a[11] == b[11] && a[12] == b[12]
    requires a[13] == b[13] && a[14] == b[14] && a[15] == b[15] && a[16] == b[16] && a[17] == b[17] && a[18] == b[18]
    requires a[19] == b[19] && a[20] == b[20]
    ensures a == b
  {
  }

  class TaskContext {
    var words: Saved

    constructor ()
      ensures words == seq(21, _ => 0)
    {
      words := seq(21, _ => 0);
    }
  }

  /** A 128-bit vector register; its d register is the low half. */
  datatype Vector = Vector(low: bv64, high: bv64)

  function Lows(v: seq<Vector>): (d: seq<bv64>)
    ensures |d| == |v| && forall i | 0 <= i < |v| :: d[i] == v[i].low
  {
    seq(|v|, i requires 0 <= i < |v| => v[i].low)
  }

  class Cpu {
    var x: seq<bv64>
    var sp: bv64
    var v: seq<Vector>
    var spEl0: bv64
    var elr: bv64
    var spsr: bv64
    var fpcr: bv64
    var fpsr: bv64
    var tpidrEl0: bv64
    var tpidrroEl0: bv64

    ghost predicate Valid()
      reads this
    {
      |x| == 31 && |v| == 32
    }

    constructor ()
      ensures Valid()
    {
      x, sp, v := seq(31, _ => 0), 0, seq(32, _ => Vector(0, 0));
      spEl0, elr, spsr := 0, 0, 0;
      fpcr, fpsr, tpidrEl0, tpidrroEl0 := 0, 0, 0, 0;
    }

    /** The callee-saved registers of the running task, in the order of a context's words. */
    ghost function CalleeSaved(): Saved
      requires Valid()
      reads this
    {
      var general: seq<bv64> := x[19..31] + [sp];
      var all: seq<bv64> := general + Lows(v[8..16]);
      all
    }

    /** Words 0 to 12 are x19 to x30 and the stack pointer. */
    ghost predicate GeneralAre(words: Saved)
      requires Valid()
      reads this
    {
      && words[0] == x[19] && words[1] == x[20] && words[2] == x[21] && words[3] == x[22]
      && words[4] == x[23] && words[5] == x[24] && words[6] == x[25] && words[7] == x[26]
      && words[8] == x[27] && words[9] == x[28] && words[10] == x[29] && words[LR] == x[30]
      && words[SP] == sp
    }

    /** Words 13 to 20 are d8 to d15. */
    ghost predicate VectorsAre(words: Saved)
      requires Valid()
      reads this
    {
      && words[13] == v[8].low && words[14] == v[9].low && words[15] == v[10].low && words[16] == v[11].low
      && words[17] == v[12].low && words[18] == v[13].low && words[19] == v[14].low && words[20] == v[15].low
    }

    lemma CalleeSavedIs()
      requires Valid()
      ensures GeneralAre(CalleeSaved()) && VectorsAre(CalleeSaved())
    {
      var d := Lows(v[8..16]);
      var general: seq<bv64> := x[19..31] + [sp];
      assert CalleeSaved() == general + d;
    }

    /** The two halves together are all 21 words. */
    lemma SavedIff(words: Saved)
      requires Valid()
      ensures words == CalleeSaved() <==> GeneralAre(words) && VectorsAre(words)
    {
      hide CalleeSaved;
      CalleeSavedIs();
      if GeneralAre(words) && VectorsAre(words) {
        SameWords(words, CalleeSaved());
      }
    }

    /** stp xa, xb, [ctx, #offset] */
    method StorePairX(a: nat, b: nat, ctx: TaskContext, word: nat)
      requires Valid() && a < 31 && b < 31 && word + 2 <= 21
      modifies ctx
      ensures ctx.words[word] == x[a] && ctx.words[word + 1] == x[b]
      ensures forall i | 0 <= i < 21 && i != word && i != word + 1 :: ctx.words[i] == old(ctx.words[i])
    {
      ctx.words := ctx.words[word := x[a]][word + 1 := x[b]];
    }

    /** stp da, db, [ctx, #offset] */
    method StorePairD(a: nat, b: nat, ctx: TaskContext, word: nat)
      requires Valid() && a < 32 && b < 32 && word + 2 <= 21
      modifies ctx
      ensures ctx.words[word] == v[a].low && ctx.words[word + 1] == v[b].low
      ensures forall i | 0 <= i < 21 && i != word && i != word + 1 :: ctx.words[i] == old(ctx.words[i])
    {
      ctx.words := ctx.words[word := v[a].low][word + 1 := v[b].low];
    }

    /** str x8, [ctx, #offset] */
    method StoreX8(ctx: TaskContext, word: nat)
      requires Valid() && word < 21
      modifies ctx
      ensures ctx.words[word] == x[8]
      ensures forall i | 0 <= i < 21 && i != word :: ctx.words[i] == old(ctx.words[i])
    {
      ctx.words := ctx.words[word := x[8]];
    }

    /** ldp xa, xb, [ctx, #offset] */
    method LoadPairX(a: nat, b: nat, ctx: TaskContext, word: nat)
      requires Valid() && a < b < 31 && word + 2 <= 21
      modifies this`x
      ensures Valid() && x[a] == ctx.words[word] && x[b] == ctx.words[word + 1]
      ensures forall i | 0 <= i < 31 && i != a && i != b :: x[i] == old(x[i])
    {
      x := x[a := ctx.words[word]][b := ctx.words[word + 1]];
    }

    /** ldp da, db, [ctx, #offset]: writing a d register clears the high half of its vector. */
    method LoadPairD(a: nat, b: nat, ctx: TaskContext, word: nat)
      requires Valid() && a < b < 32 && word + 2 <= 21
      modifies this`v
      ensures Valid() && v[a] == Vector(ctx.words[word], 0) && v[b] == Vector(ctx.words[word + 1], 0)
      ensures forall i | 0 <= i < 32 && i != a && i != b :: v[i] == old(v[i])
    {
      v := v[a := Vector(ctx.words[word], 0)][b := Vector(ctx.words[word + 1], 0)];
    }

    /** ldr x8, [ctx, #offset] */
    method LoadX8(ctx: TaskContext, word: nat)
      requires Valid() && word < 21
      modifies this`x
      ensures Valid() && x[8] == ctx.words[word]
      ensures forall i | 0 <= i < 31 && i != 8 :: x[i] == old(x[i])
    {
      x := x[8 := ctx.words[word]];
    }

    method StoreGeneral(ctx: TaskContext)
      requires Valid()
      modifies this`x, ctx
      ensures Valid() && (forall i | 0 <= i < 31 && i != 8 :: x[i] == old(x[i]))
      ensures GeneralAre(ctx.words) && sp == old(sp)
    {
      StorePairX(19, 20, ctx, 0 / 8);
      StorePairX(21, 22, ctx, 16 / 8);
      StorePairX(23, 24, ctx, 32 / 8);
      StorePairX(25, 26, ctx, 48 / 8);
      StorePairX(27, 28, ctx, 64 / 8);
      StorePairX(29, 30, ctx, 80 / 8);
      x := x[8 := sp];
      StoreX8(ctx, 96 / 8);
    }

    method StoreVectors(ctx: TaskContext)
      requires Valid()
      modifies ctx
      ensures forall i | 0 <= i <= SP :: ctx.words[i] == old(ctx.words[i])
      ensures VectorsAre(ctx.words)
    {
      StorePairD(8, 9, ctx, 104 / 8);
      StorePairD(10, 11, ctx, 120 / 8);
      StorePairD(12, 13, ctx, 136 / 8);
      StorePairD(14, 15, ctx, 152 / 8);
    }

    /** The first half of the switch: every callee-saved register goes to `current`. */
    method SaveTo(current: TaskContext)
      requires Valid()
      modifies this`x, current
      ensures Valid() && current.words == old(CalleeSaved()) && CalleeSaved() == old(CalleeSaved())
    {
      StoreGeneral(current);
      StoreVectors(current);
      SavedIff(current.words);
      assert CalleeSaved() == old(CalleeSaved());
    }

    method LoadVectors(ctx: TaskContext)
      requires Valid()
      modifies this`v
      ensures Valid() && VectorsAre(ctx.words)
    {
      LoadPairD(14, 15, ctx, 152 / 8);
      LoadPairD(12, 13, ctx, 136 / 8);
      LoadPairD(10, 11, ctx, 120 / 8);
      LoadPairD(8, 9, ctx, 104 / 8);
    }

    method LoadGeneral(ctx: TaskContext)
      requires Valid()
      modifies this`x, this`sp
      ensures Valid() && GeneralAre(ctx.words)
    {
      LoadX8(ctx, 96 / 8);
      sp := x[8];
      LoadPairX(29, 30, ctx, 80 / 8);
      LoadPairX(27, 28, ctx, 64 / 8);
      LoadPairX(25, 26, ctx, 48 / 8);
      LoadPairX(23, 24, ctx, 32 / 8);
      LoadPairX(21, 22, ctx, 16 / 8);
      LoadPairX(19, 20, ctx, 0 / 8);
    }

    /** The second half: every callee-saved register comes from `next`. */
    method RestoreFrom(next: TaskContext)
      requires Valid()
      modifies this`x, this`v, this`sp
      ensures Valid() && CalleeSaved() == next.words
    {
      LoadVectors(next);
      LoadGeneral(next);
      SavedIff(next.words);
    }

    /** The switch: control goes to the link register just restored. */
    method ContextSwitch(current: TaskContext, next: TaskContext) returns (target: bv64)
      requires Valid() && current != next
      modifies this`x, this`v, this`sp, current
      ensures Valid() && current.words == old(CalleeSaved()) && CalleeSaved() == next.words && target == next.words[LR]
    {
      SaveTo(current);
      RestoreFrom(next);
      target := x[30];
    }

    /** Drop to EL0: install the entry state from x19 and x20, then clear every general-purpose and SIMD register and
        the floating-point and thread registers EL0 can read. */
    method EnterEl0()
      requires Valid()
      modifies this
      ensures Valid() && spEl0 == old(x[20]) && elr == old(x[19]) && spsr == 0x3C0 && sp == old(sp)
      ensures (forall i | 0 <= i < 31 :: x[i] == 0) && forall i | 0 <= i < 32 :: v[i] == Vector(0, 0)
      ensures fpcr == 0 && fpsr == 0 && tpidrEl0 == 0 && tpidrroEl0 == 0
    {
      spEl0 := x[20];
      elr := x[19];
      x := x[8 := 0x3C0];
      spsr := x[8];
      x := seq(31, _ => 0);
      v := seq(32, _ => Vector(0, 0));
      fpcr, fpsr, tpidrEl0, tpidrroEl0 := 0, 0, 0, 0;
    }
  }

  /** A kernel task's first context: it starts at `entry` on its own stack. */
  method InitContext(ctx: TaskContext, entry: bv64, stackTop: bv64)
    modifies ctx
    ensures ctx.words == old(ctx.words)[LR := entry][SP := stackTop]
  {
    ctx.words := ctx.words[LR := entry];
    ctx.words := ctx.words[SP := stackTop];
  }

  /** A user task's first context: it starts in the trampoline `enterEl0`, which reads x19 and x20. */
  method InitUserContext(ctx: TaskContext, userEntry: bv64, userSp: bv64, kernelStackTop: bv64, enterEl0: bv64)
    modifies ctx
    ensures ctx.words == old(ctx.words)[0 := userEntry][1 := userSp][LR := enterEl0][SP := kernelStackTop]
  {
    ctx.words := ctx.words[0 := userEntry];
    ctx.words := ctx.words[1 := userSp];
    ctx.words := ctx.words[LR := enterEl0];
    ctx.words := ctx.words[SP := kernelStackTop];
  }

  /** First dispatch of a user task: the switch lands in the trampoline, and the trampoline leaves for the user entry
      with the user stack, its kernel stack in place and nothing else of the kernel in its registers. */
  method FirstUserDispatch(cpu: Cpu, current: TaskContext, ctx: TaskContext,
                           userEntry: bv64, userSp: bv64, kernelStackTop: bv64, enterEl0: bv64)
    requires cpu.Valid() && current != ctx
    modifies cpu, current, ctx
    ensures cpu.Valid() && cpu.elr == userEntry && cpu.spEl0 == userSp && cpu.spsr == 0x3C0 && cpu.sp == kernelStackTop
    ensures (forall i | 0 <= i < 31 :: cpu.x[i] == 0) && forall i | 0 <= i < 32 :: cpu.v[i] == Vector(0, 0)
    ensures current.words == old(cpu.CalleeSaved())
  {
    InitUserContext(ctx, userEntry, userSp, kernelStackTop, enterEl0);
    var target := cpu.ContextSwitch(current, ctx);
    assert target == enterEl0;
    assert cpu.CalleeSaved()[0] == userEntry && cpu.CalleeSaved()[1] == userSp;
    assert cpu.CalleeSaved()[SP] == kernelStackTop;
    cpu.EnterEl0();
  }

  // ----- whole runs -----------------------------------------------------------------------------------------------

  /** What runs, its callee-saved registers, and the context of every task. */
  datatype System = System(registers: Saved, contexts: seq<Saved>, running: nat)

  /** The running task leaves `registers` behind and hands over to task `to`. */
  datatype Handover = Handover(registers: Saved, to: nat)

  predicate Possible(system: System, h: Handover) {
    system.running < |system.contexts| && h.to < |system.contexts| && h.to != system.running
  }

  function Switch(system: System, h: Handover): System
    requires Possible(system, h)
  {
    System(system.contexts[h.to], system.contexts[system.running := h.registers], h.to)
  }

  /** The machine's own state, as such a system. */
  ghost function SystemOf(cpu: Cpu, contexts: seq<TaskContext>, running: nat): System
    requires cpu.Valid()
    reads cpu, contexts
  {
    System(cpu.CalleeSaved(),
           seq(|contexts|, i requires 0 <= i < |contexts| reads contexts => contexts[i].words),
           running)
  }

  /** One switch of the machine, between distinct contexts, is one handover. */
  method HandOver(cpu: Cpu, contexts: seq<TaskContext>, running: nat, to: nat) returns (target: bv64)
    requires cpu.Valid() && running < |contexts| && to < |contexts| && running != to
    requires forall i, j | 0 <= i < j < |contexts| :: contexts[i] != contexts[j]
    modifies cpu, contexts[running]
    ensures cpu.Valid() && target == old(contexts[to].words)[LR]
    ensures var h := Handover(old(cpu.CalleeSaved()), to);
      && Possible(old(SystemOf(cpu, contexts, running)), h)
      && SystemOf(cpu, contexts, to) == Switch(old(SystemOf(cpu, contexts, running)), h)
  {
    target := cpu.ContextSwitch(contexts[running], contexts[to]);
    ghost var before, after := old(SystemOf(cpu, contexts, running)), SystemOf(cpu, contexts, to);
    forall i | 0 <= i < |contexts|
      ensures after.contexts[i] == before.contexts[running := old(cpu.CalleeSaved())][i]
    {
      assert i != running ==> contexts[i] != contexts[running];
    }
  }

  predicate PossibleRun(system: System, run: seq<Handover>)
    decreases run
  {
    run == [] || (Possible(system, run[0]) && PossibleRun(Switch(system, run[0]), run[1..]))
  }

  function AfterRun(system: System, run: seq<Handover>): System
    requires PossibleRun(system, run)
    decreases run
  {
    if run == [] then system else AfterRun(Switch(system, run[0]), run[1..])
  }

  /** While a task does not run, nothing touches its context. */
  lemma {:induction false} SuspendedContextStays(system: System, run: seq<Handover>, task: nat)
    requires PossibleRun(system, run) && task < |system.contexts| && task != system.running
    requires forall h | h in run :: h.to != task
    ensures var after := AfterRun(system, run);
      && |after.contexts| == |system.contexts| && after.running != task && after.contexts[task] == system.contexts[task]
    decreases run
  {
    if run != [] {
      SuspendedContextStays(Switch(system, run[0]), run[1..], task);
    }
  }

  lemma {:induction false} RunInTwo(system: System, first: seq<Handover>, second: seq<Handover>)
    requires PossibleRun(system, first + second)
    ensures PossibleRun(system, first) && PossibleRun(AfterRun(system, first), second)
    ensures AfterRun(system, first + second) == AfterRun(AfterRun(system, first), second)
    decreases first
  {
    if first == [] {
      assert first + second == second;
    } else {
      assert (first + second)[1..] == first[1..] + second;
      RunInTwo(Switch(system, first[0]), first[1..], second);
    }
  }

  /** Over every interleaving, a task resumes with exactly the callee-saved registers it had when it was suspended. */
  lemma TaskResumesWithItsRegisters(system: System, leave: Handover, between: seq<Handover>, back: Handover)
    requires PossibleRun(system, [leave] + between + [back])
    requires back.to == system.running && forall h | h in between :: h.to != system.running
    ensures AfterRun(system, [leave] + between + [back]).registers == leave.registers
    ensures AfterRun(system, [leave] + between + [back]).running == system.running
  {
    RunInTwo(system, [leave] + between, [back]);
    RunInTwo(system, [leave], between);
    assert AfterRun(system, [leave]) == Switch(system, leave);
    SuspendedContextStays(Switch(system, leave), between, system.running);
  }
}
