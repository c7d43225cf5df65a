/**
  The event filter stub, as the 68k words the host writes (toolbox_window.cpp):
  it saves the registers, lets the host look at its queue, enters the assembled
  routine if one is waiting, and chains to the filter that was there before.
 */
module FilterStub {
  import opened GuestMemory
  import opened WindowCalls
  import Machine68k

  const FLAG := 64
  const BUSY := 65
  const OLD_FILTER := 68
  const SAFEPOINT: Word := 0x7132

  function Abs(base: CodeBase, offset: nat): seq<Word>
    requires offset < CODE_SIZE
  {
    Machine68k.LongWords(base + offset)
  }

  /** The words of the stub. */
  function Words(base: CodeBase): (w: seq<Word>)
    ensures |w| == 28
  {
    [0x48e7, 0xfffe, SAFEPOINT, 0x4a39] + Abs(base, FLAG) + [0x6718, 0x4239] + Abs(base, FLAG)
    + [0x50f9] + Abs(base, BUSY) + [0x4eb9] + Abs(base, SCRATCH) + [0x4239] + Abs(base, BUSY)
    + [0x4cdf, 0x7fff, 0x2f39] + Abs(base, OLD_FILTER) + [0x4a97, 0x6602, 0x588f, 0x4e75]
  }

  datatype State = Going | Gone(to: Long) | Stuck

  /** The processor in the stub; `pc` counts words from its start and the stack holds longs, top first. */
  datatype Cpu = Cpu(state: State, pc: int, regs: seq<Long>, stack: seq<Long>, zero: bool, memory: Memory) {
    function Fail(): Cpu { this.(state := Stuck) }
  }

  /** What the code called from the stub does: the host's visit to memory, and the routine to memory and registers. */
  datatype Callees = Callees(visit: Memory -> Memory, routine: Memory -> (Memory, seq<Long>))

  const REGISTERS := 15 // D0-D7, A0-A6

  /** The long after the opcode at `k`. */
  function Operand(code: seq<Word>, k: int): Long
    requires 0 <= k && k + 2 < |code|
  {
    Machine68k.LongOf(code[k + 1], code[k + 2])
  }

  /** Eight-bit branch: to the displacement after the word following the opcode. */
  function Branch(k: int, w: Word): int {
    k + 1 + (if w % 0x100 < 0x80 then w % 0x100 else w % 0x100 - 0x100) / 2
  }

  /** One instruction. */
  function Step(code: seq<Word>, f: Callees, c: Cpu): Cpu {
    var k := c.pc;
    if c.state != Going then c
    else if k < 0 || k >= |code| then c.Fail()
    else
      var w := code[k];
      if w == SAFEPOINT then c.(pc := k + 1, memory := f.visit(c.memory))
      else if w / 0x100 == 0x67 then c.(pc := if c.zero then Branch(k, w) else k + 1)
      else if w / 0x100 == 0x66 then c.(pc := if c.zero then k + 1 else Branch(k, w))
      else if w == 0x4a97 then // TST.L (SP)
        if c.stack == [] then c.Fail() else c.(pc := k + 1, zero := c.stack[0] == 0)
      else if w == 0x588f then // ADDQ.L #4,SP
        if c.stack == [] then c.Fail() else c.(pc := k + 1, stack := c.stack[1..])
      else if w == 0x4e75 then // RTS
        if c.stack == [] then c.Fail() else c.(state := Gone(c.stack[0]), stack := c.stack[1..])
      else if k + 1 >= |code| then c.Fail()
      else if w == 0x48e7 && code[k + 1] == 0xfffe then // MOVEM.L D0-D7/A0-A6,-(SP)
        c.(pc := k + 2, stack := c.regs + c.stack)
      else if w == 0x4cdf && code[k + 1] == 0x7fff then // MOVEM.L (SP)+,D0-D7/A0-A6
        if |c.stack| < REGISTERS then c.Fail()
        else c.(pc := k + 2, regs := c.stack[..REGISTERS], stack := c.stack[REGISTERS..])
      else if k + 2 >= |code| then c.Fail()
      else Absolute(f, c, w, Operand(code, k))
  }

  /** The instructions with a long address. */
  function Absolute(f: Callees, c: Cpu, w: Word, a: Long): Cpu {
    var next := c.pc + 3;
    if w == 0x4a39 then c.(pc := next, zero := c.memory.Read8(a) == 0)                // TST.B
    else if w == 0x4239 then c.(pc := next, memory := c.memory.Write8(a, 0), zero := true) // CLR.B
    else if w == 0x50f9 then c.(pc := next, memory := c.memory.Write8(a, 0xff))       // ST
    else if w == 0x2f39 then                                                          // MOVE.L (a),-(SP)
      c.(pc := next, stack := [c.memory.Read32(a)] + c.stack, zero := c.memory.Read32(a) == 0)
    else if w == 0x4eb9 then                                                          // JSR
      var (m, r) := f.routine(c.memory);
      if |r| != REGISTERS then c.Fail() else c.(pc := next, memory := m, regs := r)
    else c.Fail()
  }

  function Steps(code: seq<Word>, f: Callees, c: Cpu, n: nat): Cpu
    decreases n
  {
    if n == 0 then c else Steps(code, f, Step(code, f, c), n - 1)
  }

  lemma {:induction false} StepsAdd(code: seq<Word>, f: Callees, c: Cpu, a: nat, b: nat)
    ensures Steps(code, f, c, a + b) == Steps(code, f, Steps(code, f, c, a), b)
    decreases a
  {
    hide Step;
    if a > 0 { StepsAdd(code, f, Step(code, f, c), a - 1, b); }
  }

  lemma OperandsOfStub(base: CodeBase)
    ensures var w := Words(base);
            && w[0] == 0x48e7 && w[1] == 0xfffe && w[2] == SAFEPOINT
            && w[3] == 0x4a39 && Operand(w, 3) == base + FLAG
            && w[6] == 0x6718
            && w[7] == 0x4239 && Operand(w, 7) == base + FLAG
            && w[10] == 0x50f9 && Operand(w, 10) == base + BUSY
            && w[13] == 0x4eb9 && Operand(w, 13) == base + SCRATCH
            && w[16] == 0x4239 && Operand(w, 16) == base + BUSY
            && w[19] == 0x4cdf && w[20] == 0x7fff
            && w[21] == 0x2f39 && Operand(w, 21) == base + OLD_FILTER
            && w[24] == 0x4a97 && w[25] == 0x6602 && w[26] == 0x588f && w[27] == 0x4e75
  {
    assert forall o :: 0 <= o < CODE_SIZE ==> Machine68k.LongOf(Abs(base, o)[0], Abs(base, o)[1]) == base + o;
  }

  /** Memory once a waiting routine has been entered, has run and has returned; the flag is down before it starts. */
  function AfterRoutine(base: CodeBase, f: Callees, m: Memory): Memory {
    f.routine(m.Write8(base + FLAG, 0).Write8(base + BUSY, 0xff)).0.Write8(base + BUSY, 0)
  }

  /** Memory once the stub is done. */
  function AfterStub(base: CodeBase, f: Callees, m: Memory): Memory {
    var seen := f.visit(m);
    if seen.Read8(base + FLAG) == 0 then seen else AfterRoutine(base, f, seen)
  }

  ghost predicate ReturnsRegisters(f: Callees) {
    forall m :: |f.routine(m).1| == REGISTERS
  }

  lemma Prologue(base: CodeBase, f: Callees, c: Cpu)
    requires c.state == Going && c.pc == 0 && |c.regs| == REGISTERS
    ensures var m := f.visit(c.memory);
            Steps(Words(base), f, c, 3) == c.(pc := 6, stack := c.regs + c.stack, memory := m,
                                              zero := m.Read8(base + FLAG) == 0)
  {
    hide Words, Memory.Read8, Operand;
    OperandsOfStub(base);
    var code := Words(base);
    var c1 := Step(code, f, c);
    var c2 := Step(code, f, c1);
    assert Steps(code, f, c2, 1) == Step(code, f, c2) by {
      assert Steps(code, f, Step(code, f, c2), 0) == Step(code, f, c2);
    }
    assert Steps(code, f, c1, 2) == Steps(code, f, c2, 1);
  }

  /** The branch to the chaining part. */
  lemma NothingWaiting(base: CodeBase, f: Callees, c: Cpu)
    requires c.state == Going && c.pc == 6 && c.zero
    ensures Steps(Words(base), f, c, 1) == c.(pc := 19)
  {
    hide Words, Operand;
    OperandsOfStub(base);
    assert Steps(Words(base), f, Step(Words(base), f, c), 0) == Step(Words(base), f, c);
  }

  lemma RoutineWaiting(base: CodeBase, f: Callees, c: Cpu)
    requires c.state == Going && c.pc == 6 && !c.zero && ReturnsRegisters(f)
    ensures var r := f.routine(c.memory.Write8(base + FLAG, 0).Write8(base + BUSY, 0xff)).1;
            Steps(Words(base), f, c, 5) == c.(pc := 19, regs := r, memory := AfterRoutine(base, f, c.memory),
                                              zero := true)
  {
    hide Words, Memory.Write8, Operand;
    OperandsOfStub(base);
    var code := Words(base);
    var c1 := Step(code, f, c);
    var c2 := Step(code, f, c1);
    var c3 := Step(code, f, c2);
    var c4 := Step(code, f, c3);
    var c5 := Step(code, f, c4);
    assert c1 == c.(pc := 7);
    assert c2 == c.(pc := 10, memory := c.memory.Write8(base + FLAG, 0), zero := true);
    assert c3 == c2.(pc := 13, memory := c2.memory.Write8(base + BUSY, 0xff));
    Unfold5(code, f, c, c1, c2, c3, c4, c5);
  }

  lemma Unfold5(code: seq<Word>, f: Callees, c: Cpu, c1: Cpu, c2: Cpu, c3: Cpu, c4: Cpu, c5: Cpu)
    requires c1 == Step(code, f, c) && c2 == Step(code, f, c1) && c3 == Step(code, f, c2) && c4 == Step(code, f, c3)
            && c5 == Step(code, f, c4)
    ensures Steps(code, f, c, 5) == c5
  {
    hide Step;
    assert Steps(code, f, c5, 0) == c5 && Steps(code, f, c4, 1) == c5 && Steps(code, f, c3, 2) == c5;
    assert Steps(code, f, c2, 3) == c5 && Steps(code, f, c1, 4) == c5;
  }

  /** Restores the registers and goes on to the previous filter, or back to the caller when there was none. */
  lemma Chains(base: CodeBase, f: Callees, c: Cpu, regs: seq<Long>, stack: seq<Long>)
    requires c.state == Going && c.pc == 19 && |regs| == REGISTERS && c.stack == regs + stack && stack != []
    ensures var prev := c.memory.Read32(base + OLD_FILTER);
            var r := Steps(Words(base), f, c, 6);
            && r.memory == c.memory && r.regs == regs
            && r.state == Gone(if prev != 0 then prev else stack[0])
            && r.stack == if prev != 0 then stack else stack[1..]
  {
    hide Words, Memory.Read32, Operand;
    OperandsOfStub(base);
    var code := Words(base);
    var prev := c.memory.Read32(base + OLD_FILTER);
    var c1 := Step(code, f, c);
    assert c1 == c.(pc := 21, regs := regs, stack := stack);
    var c2 := Step(code, f, c1);
    assert c2 == c1.(pc := 24, stack := [prev] + stack, zero := prev == 0);
    var c3 := Step(code, f, c2);
    assert c3 == c2.(pc := 25, zero := prev == 0);
    var c4 := Step(code, f, c3);
    assert c4 == c3.(pc := if prev == 0 then 26 else 27);
    var c5 := Step(code, f, c4);
    var c6 := Step(code, f, c5);
    Unfold5(code, f, c1, c2, c3, c4, c5, c6);
    assert Steps(code, f, c, 6) == Steps(code, f, c1, 5);
  }

  /**
    Run from its first word, the stub lets the host visit once, enters the
    scratch routine exactly when that left the flag up, with the flag already
    down and the busy byte set, and leaves with every register and the stack as
    it found them: to the previous filter, or to the caller when there is none.
   */
  lemma StubEntersOnceAndChains(base: CodeBase, f: Callees, c: Cpu)
    requires c.state == Going && c.pc == 0 && |c.regs| == REGISTERS && c.stack != [] && ReturnsRegisters(f)
    ensures var m := AfterStub(base, f, c.memory);
            var prev := m.Read32(base + OLD_FILTER);
            var r := Steps(Words(base), f, c, if f.visit(c.memory).Read8(base + FLAG) == 0 then 10 else 14);
            && r.memory == m && r.regs == c.regs
            && r.state == Gone(if prev != 0 then prev else c.stack[0])
            && r.stack == if prev != 0 then c.stack else c.stack[1..]
  {
    hide Words, Step, AfterRoutine, Memory.Read8, Memory.Read32;
    var code := Words(base);
    Prologue(base, f, c);
    var c3 := Steps(code, f, c, 3);
    if c3.zero {
      NothingWaiting(base, f, c3);
      StepsAdd(code, f, c, 3, 1);
      Chains(base, f, Steps(code, f, c3, 1), c.regs, c.stack);
      StepsAdd(code, f, c, 4, 6);
    } else {
      RoutineWaiting(base, f, c3);
      StepsAdd(code, f, c, 3, 5);
      Chains(base, f, Steps(code, f, c3, 5), c.regs, c.stack);
      StepsAdd(code, f, c, 8, 6);
    }
  }
}
