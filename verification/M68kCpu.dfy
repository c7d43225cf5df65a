/**
  The processor state as the kernel keeps it: one record of registers and flags,
  with the stack pointer bank an array.  Each method is proved to do what the
  function of Interrupts says.
 */
module M68kCpu {
  import opened GuestMemory
  import opened I = Interrupts

  class Core {
    const kind: Kind
    const bank: array<Long> // sp[7]: 0 user, 4 interrupt, 6 master
    var a7: Long
    var flags: Flags
    var pc: Long
    var vbr: Long
    var memory: Memory
    var stopped: Long
    var intLevel: Long
    var nmi: bool
    var virqState: set<int>

    constructor (kind: Kind, memory: Memory)
      ensures Valid() && fresh(bank) && View().kind == kind && View().memory == memory && FlagsOk(kind, View().flags)
    {
      this.kind, this.memory := kind, memory;
      bank := new Long[7](_ => 0);
      flags := Flags(0, 0, 4, 0, 0x700, 0, 0, 1, 0, 0);
      a7, pc, vbr, stopped, intLevel, nmi, virqState := 0, 0, 0, 0, 0, false, {};
    }

    ghost predicate Valid()
      reads this
    {
      bank.Length == 7 && (flags.s == 0 || flags.s == 4) && (flags.m == 0 || flags.m == 2)
    }

    ghost function View(): Cpu
      requires Valid()
      reads this, bank
    {
      Cpu(kind, a7, Bank(bank[0], bank[4], bank[6]), flags, pc, vbr, memory, stopped, intLevel, nmi)
    }

    // --------------------------------------------------------------- stack

    method Push16(v: int)
      requires Valid()
      modifies this`a7, this`memory
      ensures Valid() && View() == I.Push16(old(View()), v)
    {
      a7 := Wrap32(a7 - 2);
      memory := memory.Write16(Pins(kind, a7), Bits16(v));
    }

    method Push32(v: Long)
      requires Valid()
      modifies this`a7, this`memory
      ensures Valid() && View() == I.Push32(old(View()), v)
    {
      a7 := Wrap32(a7 - 4);
      memory := memory.Write32(Pins(kind, a7), v);
    }

    method Pull16() returns (v: Word)
      requires Valid()
      modifies this`a7
      ensures Valid() && (View(), v) == I.Pull16(old(View()))
    {
      hide Pins, Memory.Read16;
      var at := a7;
      a7 := Wrap32(a7 + 2);
      v := memory.Read16(Pins(kind, at));
    }

    method Pull32() returns (v: Long)
      requires Valid()
      modifies this`a7
      ensures Valid() && (View(), v) == I.Pull32(old(View()))
    {
      hide Pins, Memory.Read32;
      var at := a7;
      a7 := Wrap32(a7 + 4);
      v := memory.Read32(Pins(kind, at));
    }

    // ----------------------------------------------------- status register

    method SetSmFlag(s: Long, m: Long)
      requires Valid() && (s == 0 || s == 4) && (m == 0 || m == 2)
      modifies this`a7, this`flags, bank
      ensures Valid() && View() == Switch(old(View()), s, m)
    {
      bank[if flags.s == 0 then 0 else if flags.m == 0 then 4 else 6] := a7;
      flags := flags.(s := s, m := m);
      a7 := bank[if flags.s == 0 then 0 else if flags.m == 0 then 4 else 6];
    }

    method SetSrNoint(value: Long)
      requires Valid()
      modifies this`a7, this`flags, bank
      ensures Valid() && View() == SetSr(old(View()), value)
    {
      hide Masked, WithCcr, Switch;
      var v := Masked(kind, value);
      flags := flags.(t1 := BitOf(v, 0x8000), t0 := BitOf(v, 0x4000), intMask := v / 0x100 % 8 * 0x100);
      ModeStays(flags, v);
      flags := WithCcr(flags, v);
      var sm := v / 0x800 % 8 / 2 * 2;
      SetSmFlag(BitOf(sm, 4), BitOf(sm, 2));
    }

    // ------------------------------------------------------------ exceptions

    method InitException() returns (sr: int)
      requires Valid()
      modifies this`a7, this`flags, bank
      ensures Valid() && (View(), sr) == I.InitException(old(View()))
    {
      hide GetSr, Switch;
      sr := GetSr(flags);
      flags := flags.(t1 := 0, t0 := 0);
      SetSmFlag(4, flags.m);
    }

    method StackFrame0(pc: Long, sr: int, vector: nat)
      requires Valid()
      modifies this`a7, this`memory
      ensures Valid() && View() == Frame0(old(View()), pc, sr, vector)
    {
      hide I.Push16, I.Push32;
      if kind == M68000 {
        Push32(pc);
        Push16(sr);
        return;
      }
      Push16(vector * 4);
      Push32(pc);
      Push16(sr);
    }

    method StackFrame1(pc: Long, sr: int, vector: nat)
      requires Valid()
      modifies this`a7, this`memory
      ensures Valid() && View() == Frame1(old(View()), pc, sr, vector)
    {
      hide I.Push16, I.Push32;
      Push16(0x1000 + vector * 4);
      Push32(pc);
      Push16(sr);
    }

    method StackAll(level: nat, vector: nat)
      requires Valid()
      modifies this`a7, this`flags, this`memory, bank
      ensures Valid() && View() == Stacked(old(View()), level, vector)
    {
      hide I.InitException, Frame0, Frame1, Switch, Wrap32, Supervisor;
      var sr := InitException();
      InitKeepsPc(old(View()));
      flags := flags.(intMask := Wrap32(level * 0x100));
      StackFrame0(pc, sr, vector);
      if flags.m != 0 && kind == M68020 {
        assert BitOf(4, 4) == 4 && BitOf(4, 2) == 0;
        SetSmFlag(4, 0);
        StackFrame1(pc, Supervisor(sr), vector);
      }
    }

    method ExceptionInterrupt(level: nat, ack: Ack)
      requires Valid()
      modifies this`a7, this`flags, this`memory, this`pc, this`stopped, this`intLevel, bank
      ensures Valid() && View() == Interrupt(old(View()), level, ack)
    {
      hide Stacked, Handler, Wrap32;
      stopped := stopped / 2 * 2;
      if stopped != 0 { return; }
      var vector := VectorFor(ack, level);
      if vector > 255 { return; }
      var newPc := HandlerAddress(vector);
      StackAll(level, vector);
      pc := newPc;
      intLevel := 0;
    }

    method HandlerAddress(vector: nat) returns (r: Long)
      requires Valid()
      ensures r == Handler(View(), vector)
    {
      hide Pins, Wrap32, Memory.Read32;
      r := memory.Read32(Pins(kind, Wrap32(vector * 4 + vbr)));
      if r == 0 {
        r := memory.Read32(Pins(kind, Wrap32(UNINITIALIZED * 4 + vbr)));
      }
    }

    method CheckForInterrupts(ack: Ack)
      requires Valid()
      modifies this`a7, this`flags, this`memory, this`pc, this`stopped, this`intLevel, this`nmi, bank
      ensures Valid() && View() == CheckInterrupts(old(View()), ack)
    {
      hide Interrupt;
      if nmi {
        nmi := false;
        ExceptionInterrupt(7, ack);
      } else if intLevel > flags.intMask {
        ExceptionInterrupt(intLevel / 0x100, ack);
      }
    }

    // ------------------------------------------------------- interrupt lines

    method SetIrqLevel(level: nat)
      requires Valid()
      modifies this`intLevel, this`nmi
      ensures Valid() && View() == SetIrq(old(View()), level)
    {
      hide Wrap32;
      var before := intLevel;
      intLevel := Wrap32(level * 0x100);
      if before != 0x700 && intLevel == 0x700 {
        nmi := true;
      }
    }

    method SetVirq(level: nat, active: bool)
      requires Valid()
      modifies this`virqState, this`intLevel, this`nmi
      ensures Valid() && virqState == (if active then old(virqState) + {level} else old(virqState) - {level})
      ensures View() == SetIrq(old(View()), Highest(virqState, 7))
    {
      hide SetIrq;
      virqState := if active then virqState + {level} else virqState - {level};
      var line := 7;
      while line > 0
        invariant 0 <= line <= 7 && Highest(virqState, 7) == Highest(virqState, line)
      {
        if line in virqState { break; }
        line := line - 1;
      }
      SetIrqLevel(line);
    }
  }

  lemma ModeStays(f: Flags, v: Long)
    ensures WithCcr(f, v).s == f.s && WithCcr(f, v).m == f.m
  {
    hide BitOf;
  }

  lemma InitKeepsPc(c: Cpu)
    ensures I.InitException(c).0.pc == c.pc && I.InitException(c).0.kind == c.kind
  {
    hide GetSr;
  }
}
