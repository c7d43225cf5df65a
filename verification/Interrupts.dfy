/**
  The supervisor model of the 68k kernel (Musashi/m68kcpu.h, m68kcpu.c): three
  stack pointers behind register A7, the status register packed from flags, and
  interrupt frames, including the throwaway frame of the master state.

  The banks are named as the code indexes them: 0 for USP, 4 for ISP and 6 for
  MSP, the index being S with M counted only in supervisor state.
 */
module Interrupts {
  import opened Arithmetic
  import opened GuestMemory

  datatype Kind = M68000 | M68010 | M68020

  /** The banked stack pointers sp[0], sp[4] and sp[6]. */
  datatype Bank = Bank(usp: Long, isp: Long, msp: Long)

  /** The flags as the kernel keeps them, each in the bit its own arithmetic leaves it in. */
  datatype Flags = Flags(t1: Long, t0: Long, s: Long, m: Long, intMask: Long, x: Long, n: Long, notZ: Long, v: Long,
                         c: Long)

  /** `sp` is register A7. */
  datatype Cpu = Cpu(kind: Kind, sp: Long, bank: Bank, flags: Flags, pc: Long, vbr: Long, memory: Memory,
                     stopped: Long, intLevel: Long, nmi: bool)

  // ------------------------------------------------------- status register

  /** The bit of weight `w` of a value: `w` or nothing. */
  function BitOf(v: Long, w: Long): Long
    requires w > 0
  {
    if v / w % 2 == 1 then w else 0
  }

  /** `v & CPU_SR_MASK`: T1 S I2-I0 and X N Z V C, and on the 68020 also T0 and M. */
  function Masked(k: Kind, v: Long): Long {
    BitOf(v, 0x8000) + (if k == M68020 then BitOf(v, 0x4000) else 0) + BitOf(v, 0x2000)
        + (if k == M68020 then BitOf(v, 0x1000) else 0)
    + v / 0x100 % 8 * 0x100 + v % 0x20
  }

  function Ccr(f: Flags): Long {
    BitOf(f.x, 0x100) / 16 + BitOf(f.n, 0x80) / 16 + (if f.notZ == 0 then 4 else 0) + BitOf(f.v, 0x80) / 64
        + BitOf(f.c, 0x100) / 256
  }

  /** m68ki_get_sr: the flags occupy different bits, so adding is or-ing. */
  function GetSr(f: Flags): int {
    f.t1 + f.t0 + f.s * 0x800 + f.m * 0x800 + f.intMask + Ccr(f)
  }

  /** The flags hold what their places in the status register allow on this processor. */
  predicate FlagsOk(k: Kind, f: Flags) {
    && (f.t1 == 0 || f.t1 == 0x8000) && (f.t0 == 0 || f.t0 == 0x4000) && (f.s == 0 || f.s == 4)
        && (f.m == 0 || f.m == 2)
    && f.intMask % 0x100 == 0 && f.intMask < 0x800
    && (k != M68020 ==> f.t0 == 0 && f.m == 0)
  }

  function WithCcr(f: Flags, v: Long): Flags {
    f.(x := BitOf(v, 0x10) * 16, n := BitOf(v, 8) * 16, notZ := if BitOf(v, 4) != 0 then 0 else 1,
       v := BitOf(v, 2) * 64, c := BitOf(v, 1) * 256)
  }

  // ---------------------------------------------------------- stack pointers

  /** `FLAG_S | ((FLAG_S >> 1) & FLAG_M)`. */
  function BankIndex(f: Flags): Long {
    if f.s == 0 then 0 else if f.m == 0 then 4 else 6
  }

  function Load(b: Bank, k: Long): Long {
    if k == 0 then b.usp else if k == 4 then b.isp else b.msp
  }

  function Save(b: Bank, k: Long, v: Long): Bank {
    if k == 0 then b.(usp := v) else if k == 4 then b.(isp := v) else b.(msp := v)
  }

  /** Saves A7 in its bank, changes S and M, and takes A7 from the bank they then select. */
  function Switch(c: Cpu, s: Long, m: Long): Cpu {
    var b, f := Save(c.bank, BankIndex(c.flags), c.sp), c.flags.(s := s, m := m);
    c.(bank := b, flags := f, sp := Load(b, BankIndex(f)))
  }

  /** m68ki_set_s_flag; the value is 0 or 4. */
  function SetS(c: Cpu, value: Long): Cpu {
    Switch(c, value, c.flags.m)
  }

  /** m68ki_set_sm_flag; the value is 0, 2, 4 or 6. */
  function SetSM(c: Cpu, value: Long): Cpu {
    Switch(c, BitOf(value, 4), BitOf(value, 2))
  }

  /** The stack pointers as m68k_get_reg reports them. */
  function Usp(c: Cpu): Long { if c.flags.s != 0 then c.bank.usp else c.sp }
  function Isp(c: Cpu): Long { if c.flags.s != 0 && c.flags.m == 0 then c.sp else c.bank.isp }
  function Msp(c: Cpu): Long { if c.flags.s != 0 && c.flags.m != 0 then c.sp else c.bank.msp }

  ghost predicate SamePointers(c: Cpu, d: Cpu) {
    Usp(d) == Usp(c) && Isp(d) == Isp(c) && Msp(d) == Msp(c)
  }

  /** Mode switches never change what is reported of any of the three stack pointers. */
  lemma SwitchKeepsReportedPointers(c: Cpu, s: Long, m: Long)
    requires FlagsOk(c.kind, c.flags) && (s == 0 || s == 4) && (m == 0 || m == 2)
    ensures SamePointers(c, Switch(c, s, m))
  {
  }

  /** m68ki_set_sr_noint. */
  function SetSr(c: Cpu, value: Long): Cpu {
    var v := Masked(c.kind, value);
    var f := WithCcr(c.flags.(t1 := BitOf(v, 0x8000), t0 := BitOf(v, 0x4000), intMask := v / 0x100 % 8 * 0x100), v);
    SetSM(c.(flags := f), v / 0x800 % 8 / 2 * 2)
  }

  /** A status register from its digits: T1, T0, S, M, the mask and the condition codes. */
  function FromDigits(t1: int, t0: int, s: int, m: int, mid: int, low: int): int {
    t1 * 0x8000 + t0 * 0x4000 + s * 0x2000 + m * 0x1000 + mid * 0x100 + low
  }

  /** One digit of a number: what is above it, the digit in base `n`, what is below it. */
  lemma DigitAt(w: int, d: int, hi: int, digit: int, r: int, n: int)
    requires d > 0 && n > 0 && w == (hi * n + digit) * d + r && 0 <= digit < n && 0 <= r < d
    ensures w / d % n == digit
  {
    Quotient(w, d, hi * n + digit, r);
    Quotient(hi * n + digit, n, hi, digit);
  }

  lemma Digits(t1: int, t0: int, s: int, m: int, mid: int, low: int)
    requires 0 <= t1 < 2 && 0 <= t0 < 2 && 0 <= s < 2 && 0 <= m < 2 && 0 <= mid < 8 && 0 <= low < 0x20
    ensures var w := FromDigits(t1, t0, s, m, mid, low);
            && 0 <= w < 0x1_0000
            && w / 0x8000 % 2 == t1 && w / 0x4000 % 2 == t0 && w / 0x2000 % 2 == s && w / 0x1000 % 2 == m
            && w / 0x100 % 8 == mid && w % 0x20 == low && w / 0x800 % 8 / 2 * 2 == 4 * s + 2 * m
  {
    var w := FromDigits(t1, t0, s, m, mid, low);
    DigitAt(w, 0x8000, 0, t1, t0 * 0x4000 + s * 0x2000 + m * 0x1000 + mid * 0x100 + low, 2);
    DigitAt(w, 0x4000, t1, t0, s * 0x2000 + m * 0x1000 + mid * 0x100 + low, 2);
    DigitAt(w, 0x2000, 2 * t1 + t0, s, m * 0x1000 + mid * 0x100 + low, 2);
    DigitAt(w, 0x1000, 4 * t1 + 2 * t0 + s, m, mid * 0x100 + low, 2);
    DigitAt(w, 0x100, 16 * t1 + 8 * t0 + 4 * s + 2 * m, mid, low, 8);
    DigitAt(w, 1, 1024 * t1 + 512 * t0 + 256 * s + 128 * m + 8 * mid, low, 0, 0x20);
    DigitAt(w, 0x800, 2 * t1 + t0, 4 * s + 2 * m, mid * 0x100 + low, 8);
    assert w / 1 == w;
  }

  lemma BitIsDigit(v: Long, w: Long)
    requires w > 0
    ensures BitOf(v, w) == v / w % 2 * w
  {
    if v / w % 2 == 1 {} else { assert v / w % 2 == 0; }
  }

  /** What the mask keeps, digit by digit. */
  lemma MaskedDigits(k: Kind, v: Long)
    ensures Masked(k, v) == FromDigits(v / 0x8000 % 2, if k == M68020 then v / 0x4000 % 2 else 0, v / 0x2000 % 2,
                                       if k == M68020 then v / 0x1000 % 2 else 0, v / 0x100 % 8, v % 0x20)
  {
    BitIsDigit(v, 0x8000);
    BitIsDigit(v, 0x4000);
    BitIsDigit(v, 0x2000);
    BitIsDigit(v, 0x1000);
  }

  /** The low digits of a number split at the digit of weight `w`; `d` is twice that. */
  lemma HalfBit(v: Long, w: Long, d: Long)
    requires w > 0 && d == 2 * w
    ensures v % d == v % w + BitOf(v, w)
  {
    BitIsDigit(v, w);
    var q: int, r: int := v / w, v % w;
    var h, b := q / 2, q % 2;
    Regroup(h, b, w);
    Quotient(v, d, h, b * w + r);
  }

  lemma Regroup(h: int, b: int, w: int)
    requires 0 <= b < 2 && w > 0
    ensures (2 * h + b) * w == h * (2 * w) + b * w && 0 <= b * w <= w
  {
    Distributes(2 * h, -b, w);
    Distributes(h, -h, w);
    assert (2 * h) * w == h * w + h * w == h * (2 * w);
  }

  lemma OneMoreBit(v: Long)
    ensures v % 0x20 == v % 0x10 + BitOf(v, 0x10) && v % 0x10 == v % 8 + BitOf(v, 8)
  {
    hide BitOf;
    HalfBit(v, 0x10, 0x20);
    HalfBit(v, 8, 0x10);
  }

  lemma ThreeMoreBits(v: Long)
    ensures v % 8 == BitOf(v, 4) + BitOf(v, 2) + BitOf(v, 1)
  {
    hide BitOf;
    HalfBit(v, 4, 8);
    HalfBit(v, 2, 4);
    HalfBit(v, 1, 2);
    assert v % 1 == 0;
  }

  lemma CcrOfWithCcr(f: Flags, v: Long)
    ensures Ccr(WithCcr(f, v)) == v % 0x20
  {
    OneMoreBit(v);
    ThreeMoreBits(v);
    var x, n, z, o, c := BitOf(v, 0x10), BitOf(v, 8), BitOf(v, 4), BitOf(v, 2), BitOf(v, 1);
    assert BitOf(x * 16, 0x100) / 16 == x && BitOf(n * 16, 0x80) / 16 == n;
    assert BitOf(o * 64, 0x80) / 64 == o && BitOf(c * 256, 0x100) / 256 == c;
  }

  /**
    Setting and reading back the status register gives the value under the mask,
    and keeps all three stack pointers.
   */
  lemma SetThenGetSr(c: Cpu, value: Long)
    requires FlagsOk(c.kind, c.flags)
    ensures var d := SetSr(c, value);
            GetSr(d.flags) == Masked(c.kind, value) && FlagsOk(c.kind, d.flags) && SamePointers(c, d)
  {
    hide Masked, Ccr, WithCcr, BitOf;
    var v := Masked(c.kind, value);
    MaskedDigits(c.kind, value);
    var t1, t0 := value / 0x8000 % 2, if c.kind == M68020 then value / 0x4000 % 2 else 0;
    var s, m := value / 0x2000 % 2, if c.kind == M68020 then value / 0x1000 % 2 else 0;
    Digits(t1, t0, s, m, value / 0x100 % 8, value % 0x20);
    SrPieces(c, v, t1, t0, s, m, value / 0x100 % 8, value % 0x20);
  }

  lemma SrPieces(c: Cpu, v: Long, t1: int, t0: int, s: int, m: int, mid: int, low: int)
    requires FlagsOk(c.kind, c.flags) && 0 <= t1 < 2 && 0 <= t0 < 2 && 0 <= s < 2 && 0 <= m < 2 && 0 <= mid < 8
            && 0 <= low < 0x20
    requires c.kind != M68020 ==> t0 == 0 && m == 0
    requires v == FromDigits(t1, t0, s, m, mid, low) && v / 0x8000 % 2 == t1 && v / 0x4000 % 2 == t0
    requires v / 0x100 % 8 == mid && v % 0x20 == low && v / 0x800 % 8 / 2 * 2 == 4 * s + 2 * m
    ensures var f := WithCcr(c.flags.(t1 := BitOf(v, 0x8000), t0 := BitOf(v, 0x4000),
                                      intMask := v / 0x100 % 8 * 0x100), v);
            var d := SetSM(c.(flags := f), v / 0x800 % 8 / 2 * 2);
            GetSr(d.flags) == v && FlagsOk(c.kind, d.flags) && SamePointers(c, d)
  {
    hide Ccr, BitOf;
    var f0 := c.flags.(t1 := BitOf(v, 0x8000), t0 := BitOf(v, 0x4000), intMask := v / 0x100 % 8 * 0x100);
    var f := WithCcr(f0, v);
    BitIsDigit(v, 0x8000);
    BitIsDigit(v, 0x4000);
    CcrOfWithCcr(f0, v);
    var sm := 4 * s + 2 * m;
    SmBits(s, m);
    CcrIgnoresMode(f, 4 * s, 2 * m);
    SwitchKeepsReportedPointers(c.(flags := f), 4 * s, 2 * m);
  }

  lemma SmBits(s: int, m: int)
    requires 0 <= s < 2 && 0 <= m < 2
    ensures BitOf(4 * s + 2 * m, 4) == 4 * s && BitOf(4 * s + 2 * m, 2) == 2 * m
  {
    assert (4 * s + 2 * m) / 4 == s && (4 * s + 2 * m) / 2 == 2 * s + m;
  }

  lemma CcrIgnoresMode(f: Flags, s: Long, m: Long)
    ensures Ccr(f.(s := s, m := m)) == Ccr(f)
  {
    hide BitOf;
  }

  // ------------------------------------------------------- stack and frames

  /** The address pins: 24 of them on the 68000 and 68010. */
  function Pins(k: Kind, a: Long): Long {
    if k == M68020 then a else a % 0x100_0000
  }

  function Push16(c: Cpu, v: int): Cpu {
    var sp := Wrap32(c.sp - 2);
    c.(sp := sp, memory := c.memory.Write16(Pins(c.kind, sp), Bits16(v)))
  }

  function Push32(c: Cpu, v: Long): Cpu {
    var sp := Wrap32(c.sp - 4);
    c.(sp := sp, memory := c.memory.Write32(Pins(c.kind, sp), v))
  }

  function Pull16(c: Cpu): (Cpu, Word) {
    (c.(sp := Wrap32(c.sp + 2)), c.memory.Read16(Pins(c.kind, c.sp)))
  }

  function Pull32(c: Cpu): (Cpu, Long) {
    (c.(sp := Wrap32(c.sp + 4)), c.memory.Read32(Pins(c.kind, c.sp)))
  }

  /** m68ki_init_exception: the status register to be saved, with trace off and supervisor mode on. */
  function InitException(c: Cpu): (Cpu, int) {
    (SetS(c.(flags := c.flags.(t1 := 0, t0 := 0)), 4), GetSr(c.flags))
  }

  /** Format 0, or three words on the 68000. */
  function Frame0(c: Cpu, pc: Long, sr: int, vector: nat): Cpu {
    if c.kind == M68000 then Push16(Push32(c, pc), sr) else Push16(Push32(Push16(c, vector * 4), pc), sr)
  }

  /** Format 1, the throwaway frame. */
  function Frame1(c: Cpu, pc: Long, sr: int, vector: nat): Cpu {
    Push16(Push32(Push16(c, 0x1000 + vector * 4), pc), sr)
  }

  /** What the interrupt acknowledge returns. */
  datatype Ack = Autovector | Spurious | Vector(n: nat)

  function VectorFor(ack: Ack, level: nat): nat {
    match ack
    case Autovector => 24 + level
    case Spurious => 24
    case Vector(n) => n
  }

  const UNINITIALIZED := 15

  function Handler(c: Cpu, vector: nat): Long {
    var pc := c.memory.Read32(Pins(c.kind, Wrap32(vector * 4 + c.vbr)));
    if pc != 0 then pc else c.memory.Read32(Pins(c.kind, Wrap32(UNINITIALIZED * 4 + c.vbr)))
  }

  /** `sr | 0x2000`. */
  function Supervisor(sr: int): int {
    if sr / 0x2000 % 2 == 1 then sr else sr + 0x2000
  }

  /** The state with the frames stacked, about to enter the handler. */
  function Stacked(c: Cpu, level: nat, vector: nat): Cpu {
    var (d, sr) := InitException(c);
    var e := Frame0(d.(flags := d.flags.(intMask := Wrap32(level * 0x100))), d.pc, sr, vector);
    if e.flags.m != 0 && e.kind == M68020 then Frame1(SetSM(e, 4), e.pc, Supervisor(sr), vector) else e
  }

  /** m68ki_exception_interrupt. */
  function Interrupt(c: Cpu, level: nat, ack: Ack): Cpu {
    var d := c.(stopped := c.stopped / 2 * 2);
    var vector := VectorFor(ack, level);
    if d.stopped != 0 || vector > 255 then d
    else
      Stacked(d, level, vector).(pc := Handler(d, vector), intLevel := 0)
  }

  /** m68ki_check_interrupts. */
  function CheckInterrupts(c: Cpu, ack: Ack): Cpu {
    if c.nmi then Interrupt(c.(nmi := false), 7, ack)
    else if c.intLevel > c.flags.intMask then Interrupt(c, c.intLevel / 0x100, ack)
    else c
  }

  /** Pops one frame: its status register, program counter and, past the 68000, format word. */
  function Pop(c: Cpu): (Cpu, Word) {
    var (d, sr) := Pull16(c);
    var (e, pc) := Pull32(d);
    var (f, format) := if c.kind == M68000 then (e, 0) else Pull16(e);
    (SetSr(f.(pc := pc), sr), format)
  }

  /** Pops the frame, and the one below a throwaway frame. */
  function PopAll(c: Cpu): Cpu {
    var (d, format) := Pop(c);
    if format / 0x1000 == 1 then Pop(d).0 else d
  }

  // -------------------------------------------------------------- round trip

  function FrameSize(k: Kind): int {
    if k == M68000 then 6 else 8
  }

  /** The frame that starts at `at`. */
  predicate HoldsFrame(k: Kind, m: Memory, at: Long, sr: int, pc: Long, format: int) {
    && m.Read16(Pins(k, at)) == sr && m.Read32(Pins(k, Wrap32(at + 2))) == pc
    && (k != M68000 ==> m.Read16(Pins(k, Wrap32(at + 6))) == format)
  }

  /** The part of a frame that returning from it needs. */
  predicate HoldsReturn(k: Kind, m: Memory, at: Long, sr: int, pc: Long) {
    m.Read16(Pins(k, at)) == sr && m.Read32(Pins(k, Wrap32(at + 2))) == pc
  }

  function FormatAt(k: Kind, m: Memory, at: Long): Word {
    m.Read16(Pins(k, Wrap32(at + 6)))
  }

  lemma ReturnIsFrame(k: Kind, m: Memory, at: Long, sr: int, pc: Long)
    ensures HoldsFrame(k, m, at, sr, pc, FormatAt(k, m, at)) <==> HoldsReturn(k, m, at, sr, pc)
  {
  }

  /** The words a frame ending at `top` is written to are not in the ROM. */
  predicate InRam(k: Kind, m: Memory, top: Long) {
    !m.InRom(Pins(k, Wrap32(top - 2))) && !m.InRom(Pins(k, Wrap32(top - 6))) && !m.InRom(Pins(k, Wrap32(top - 8)))
    && !m.InRom(Pins(k, Wrap32(top - 4)))
  }

  /** Accesses of `n` bytes at `a` and `len` bytes at `b` do not meet. */
  predicate Clear(a: int, n: int, b: int, len: int) {
    a + n <= b || b + len <= a
  }

  lemma WritesApart16(m: Memory, a: int, v: Word, b: int)
    requires Clear(a, 2, b, 4)
    ensures m.Write16(a, v).Read32(b) == m.Read32(b)
  {
  }

  lemma WritesApart16Word(m: Memory, a: int, v: Word, b: int)
    requires Clear(a, 2, b, 2)
    ensures m.Write16(a, v).Read16(b) == m.Read16(b)
  {
  }

  lemma WritesApart32(m: Memory, a: int, v: Long, b: int)
    requires Clear(a, 4, b, 4)
    ensures m.Write32(a, v).Read32(b) == m.Read32(b)
  {
  }

  lemma WritesApart32Word(m: Memory, a: int, v: Long, b: int)
    requires Clear(a, 4, b, 2)
    ensures m.Write32(a, v).Read16(b) == m.Read16(b)
  {
  }

  lemma Later(k: Kind, x: Long, d: nat, n: nat, len: nat)
    requires n <= d <= 8 && len <= 8
    ensures Clear(Pins(k, x), n, Pins(k, Wrap32(x + d)), len)
  {
    if k == M68020 {
      assert Wrap32(x + d) == if x + d < 0x1_0000_0000 then x + d else x + d - 0x1_0000_0000;
    } else {
      var p, y := x % 0x100_0000, Wrap32(x + d);
      assert y % 0x100_0000 == (x + d) % 0x100_0000;
      assert (x + d) % 0x100_0000 == if p + d < 0x100_0000 then p + d else p + d - 0x100_0000;
    }
  }

  /** The words of one frame do not meet, wherever the stack is. */
  lemma FrameWordsApart(k: Kind, top: Long)
    ensures Clear(Pins(k, Wrap32(top - 6)), 4, Pins(k, Wrap32(top - 2)), 2)
    ensures Clear(Pins(k, Wrap32(top - 8)), 2, Pins(k, Wrap32(top - 2)), 2)
    ensures Clear(Pins(k, Wrap32(top - 8)), 2, Pins(k, Wrap32(top - 6)), 4)
    ensures Clear(Pins(k, Wrap32(top - 6)), 2, Pins(k, Wrap32(top - 4)), 4)
  {
    hide Pins, Wrap32;
    StackSteps(top);
    Later(k, Wrap32(top - 6), 4, 4, 2);
    Later(k, Wrap32(top - 8), 6, 2, 2);
    Later(k, Wrap32(top - 8), 2, 2, 4);
    Later(k, Wrap32(top - 6), 2, 2, 4);
  }

  /** Stepping twice is stepping once. */
  lemma WrapStep(top: int, a: int, b: int)
    ensures Wrap32(Wrap32(top + a) + b) == Wrap32(top + a + b)
  {
  }

  lemma StackSteps(top: Long)
    ensures Wrap32(Wrap32(top - 2) - 4) == Wrap32(top - 6) && Wrap32(Wrap32(top - 6) - 2) == Wrap32(top - 8)
    ensures Wrap32(Wrap32(top - 4) - 2) == Wrap32(top - 6)
    ensures Wrap32(Wrap32(top - 8) + 2) == Wrap32(top - 6) && Wrap32(Wrap32(top - 8) + 6) == Wrap32(top - 2)
    ensures Wrap32(Wrap32(top - 6) + 2) == Wrap32(top - 4)
    ensures Wrap32(Wrap32(top - 6) + 4) == Wrap32(top - 2) && Wrap32(Wrap32(top - 2) + 2) == top
            && Wrap32(Wrap32(top - 4) + 4) == top
  {
    hide Wrap32;
    WrapStep(top, -2, -4);
    WrapStep(top, -6, -2);
    WrapStep(top, -4, -2);
    WrapStep(top, -8, 2);
    WrapStep(top, -8, 6);
    WrapStep(top, -6, 2);
    WrapStep(top, -6, 4);
    WrapStep(top, -2, 2);
    WrapStep(top, -4, 4);
    WrapTop(top);
  }

  lemma WrapTop(top: Long)
    ensures Wrap32(top) == top
  {
  }

  /** A four-word frame, pushed. */
  lemma PushedFrame(c: Cpu, format: int, pc: Long, sr: int)
    requires c.kind != M68000 && InRam(c.kind, c.memory, c.sp) && 0 <= sr < 0x1_0000 && 0 <= format < 0x1_0000
    ensures var d := Push16(Push32(Push16(c, format), pc), sr);
            && HoldsFrame(c.kind, d.memory, Wrap32(c.sp - 8), sr, pc, format)
            && d == c.(sp := Wrap32(c.sp - 8), memory := d.memory)
            && d.memory.romBase == c.memory.romBase && d.memory.romSize == c.memory.romSize
  {
    hide Pins, Wrap32, Memory.Read16, Memory.Read32, Memory.Write16, Memory.Write32;
    var k, top: int := c.kind, c.sp;
    StackSteps(top);
    FrameWordsApart(k, top);
    assert Bits16(sr) == sr && Bits16(format) == format;
    var m1 := c.memory.Write16(Pins(k, Wrap32(top - 2)), format);
    var m2 := m1.Write32(Pins(k, Wrap32(top - 6)), pc);
    var m3 := m2.Write16(Pins(k, Wrap32(top - 8)), sr);
    WritesApart32Word(m1, Pins(k, Wrap32(top - 6)), pc, Pins(k, Wrap32(top - 2)));
    WritesApart16Word(m2, Pins(k, Wrap32(top - 8)), sr, Pins(k, Wrap32(top - 2)));
    WritesApart16(m2, Pins(k, Wrap32(top - 8)), sr, Pins(k, Wrap32(top - 6)));
  }

  /** A three-word frame, pushed. */
  lemma PushedShortFrame(c: Cpu, pc: Long, sr: int)
    requires c.kind == M68000 && InRam(c.kind, c.memory, c.sp) && 0 <= sr < 0x1_0000
    ensures var d := Push16(Push32(c, pc), sr);
            && HoldsFrame(c.kind, d.memory, Wrap32(c.sp - 6), sr, pc, 0)
            && d == c.(sp := Wrap32(c.sp - 6), memory := d.memory)
  {
    hide Pins, Wrap32, Memory.Read16, Memory.Read32, Memory.Write16, Memory.Write32;
    var k, top: int := c.kind, c.sp;
    StackSteps(top);
    FrameWordsApart(k, top);
    assert Bits16(sr) == sr;
    var m1 := c.memory.Write32(Pins(k, Wrap32(top - 4)), pc);
    WritesApart16(m1, Pins(k, Wrap32(top - 6)), sr, Pins(k, Wrap32(top - 4)));
  }

  /** Popping a frame takes what it holds, and its size, off the stack. */
  lemma PopTakes(c: Cpu, top: Long, sr: int, pc: Long, format: int)
    requires c.sp == Wrap32(top - FrameSize(c.kind)) && HoldsFrame(c.kind, c.memory, c.sp, sr, pc, format)
    requires 0 <= sr < 0x1_0000 && 0 <= format < 0x1_0000
    ensures Pop(c) == (SetSr(c.(sp := top, pc := pc), sr), if c.kind == M68000 then 0 else format)
  {
    hide Pins, Wrap32, Memory.Read16, Memory.Read32, SetSr;
    StackSteps(top);
  }

  lemma CcrIsSmall(f: Flags)
    ensures 0 <= Ccr(f) < 0x20
  {
  }

  lemma SrDigits(k: Kind, f: Flags)
    requires FlagsOk(k, f)
    ensures GetSr(f) == FromDigits(f.t1 / 0x8000, f.t0 / 0x4000, f.s / 4, f.m / 2, f.intMask / 0x100, Ccr(f))
    ensures 0 <= f.intMask / 0x100 < 8
  {
    hide Ccr;
  }

  lemma DigitsAreMasked(k: Kind, t1: int, t0: int, s: int, m: int, mid: int, low: int)
    requires 0 <= t1 < 2 && 0 <= t0 < 2 && 0 <= s < 2 && 0 <= m < 2 && 0 <= mid < 8 && 0 <= low < 0x20
    requires k != M68020 ==> t0 == 0 && m == 0
    ensures var w := FromDigits(t1, t0, s, m, mid, low); 0 <= w < 0x1_0000 && Masked(k, w) == w
    ensures Supervisor(FromDigits(t1, t0, s, m, mid, low)) == FromDigits(t1, t0, 1, m, mid, low)
  {
    hide Masked;
    Digits(t1, t0, s, m, mid, low);
    MaskedDigits(k, FromDigits(t1, t0, s, m, mid, low));
  }

  /** A status register read from flags in order has only bits the mask keeps; forcing S gives one too. */
  lemma SrIsMasked(k: Kind, f: Flags)
    requires FlagsOk(k, f)
    ensures var sr := GetSr(f);
            && 0 <= sr < 0x1_0000 && Masked(k, sr) == sr
            && 0 <= Supervisor(sr) < 0x1_0000 && Masked(k, Supervisor(sr)) == Supervisor(sr)
            && Supervisor(sr) == GetSr(f.(s := 4))
  {
    hide Ccr, Masked, GetSr, Supervisor, FromDigits;
    CcrIsSmall(f);
    CcrIgnoresMode(f, 4, f.m);
    SrDigits(k, f);
    SrDigits(k, f.(s := 4));
    DigitsAreMasked(k, f.t1 / 0x8000, f.t0 / 0x4000, f.s / 4, f.m / 2, f.intMask / 0x100, Ccr(f));
    DigitsAreMasked(k, f.t1 / 0x8000, f.t0 / 0x4000, 1, f.m / 2, f.intMask / 0x100, Ccr(f));
  }

  lemma InitFacts(c: Cpu)
    requires FlagsOk(c.kind, c.flags)
    ensures var (d, sr) := InitException(c);
            && SamePointers(c, d) && d.flags == c.flags.(t1 := 0, t0 := 0, s := 4) && sr == GetSr(c.flags)
            && d == c.(sp := d.sp, bank := d.bank, flags := d.flags)
  {
    hide GetSr;
    SwitchKeepsReportedPointers(c.(flags := c.flags.(t1 := 0, t0 := 0)), 4, c.flags.m);
  }

  /** The stack an exception's frame goes to: the master stack when M is set, else the interrupt stack. */
  function FrameTop(c: Cpu): Long {
    if c.flags.m != 0 then Msp(c) else Isp(c)
  }

  /**
    At this distance of the master stack above the interrupt stack the throwaway
    frame misses the status register and program counter on the master stack.
    Below it, two bytes may overlap: those of the format word.
   */
  predicate FarApart(distance: Long) {
    8 <= distance <= 0x1_0000_0000 - 6
  }

  /** The frames fit in RAM and, in the master state, the throwaway frame misses the other. */
  predicate RoomForFrames(c: Cpu) {
    && InRam(c.kind, c.memory, FrameTop(c))
    && (c.flags.m != 0 ==> InRam(c.kind, c.memory, Isp(c)) && FarApart(Wrap32(Msp(c) - Isp(c))))
  }

  lemma CrossClear(top: Long, other: Long, i: nat, n: nat, j: nat, len: nat)
    requires FarApart(Wrap32(top - other)) && 0 < n && 0 < len && i + n <= 6 && j + len <= 8
    ensures Clear(Wrap32(other - 8 + j), len, Wrap32(top - 8 + i), n)
  {
    var t: int, o: int := top, other;
    var x: int, y: int, d: int := Wrap32(t - 8 + i), Wrap32(o - 8 + j), Wrap32(t - o);
    var turns := (t - o) / 0x1_0000_0000;
    assert t - o == turns * 0x1_0000_0000 + d;
    WrapDifference(t - 8 + i, o - 8 + j, x, y, d + i - j, turns);
  }

  /** Two wrapped numbers differ by what the numbers differ by, up to one turn. */
  lemma WrapDifference(a: int, b: int, x: int, y: int, k: int, turns: int)
    requires x == Wrap32(a) && y == Wrap32(b) && 0 <= k < 0x1_0000_0000 && a - b == turns * 0x1_0000_0000 + k
    ensures x - y == k || y - x == 0x1_0000_0000 - k
  {
    var m, n := a / 0x1_0000_0000, b / 0x1_0000_0000;
    assert x - y - k == (turns - m + n) * 0x1_0000_0000;
  }

  /** The status register and program counter of a frame stay while another frame is pushed on a stack apart from it. */
  lemma FrameStays(c: Cpu, format: int, pc: Long, sr: int, top: Long, sr0: int, pc0: Long, format0: int)
    requires c.kind == M68020 && HoldsFrame(c.kind, c.memory, Wrap32(top - 8), sr0, pc0, format0)
    requires FarApart(Wrap32(top - c.sp))
    ensures HoldsReturn(c.kind, Push16(Push32(Push16(c, format), pc), sr).memory, Wrap32(top - 8), sr0, pc0)
  {
    hide Wrap32, Memory.Read16, Memory.Read32, Memory.Write16, Memory.Write32;
    StackSteps(c.sp);
    StackSteps(top);
    var sp: int, t: int := c.sp, top;
    var w2, w6, w8 := Wrap32(sp - 2), Wrap32(sp - 6), Wrap32(sp - 8);
    var m1 := c.memory.Write16(w2, Bits16(format));
    var m2 := m1.Write32(w6, pc);
    WordStays(c.memory, w2, Bits16(format), w6, pc, w8, Bits16(sr), top, c.sp, 0);
    CrossClear(top, c.sp, 2, 4, 6, 2);
    CrossClear(top, c.sp, 2, 4, 2, 4);
    CrossClear(top, c.sp, 2, 4, 0, 2);
    assert sp - 8 + 6 == sp - 2 && sp - 8 + 2 == sp - 6 && sp - 8 + 0 == sp - 8 && t - 8 + 2 == t - 6;
    WritesApart16(c.memory, w2, Bits16(format), Wrap32(t - 6));
    WritesApart32(m1, w6, pc, Wrap32(t - 6));
    WritesApart16(m2, w8, Bits16(sr), Wrap32(t - 6));
  }

  lemma WordStays(m: Memory, w2: Long, format: Word, w6: Long, pc: Long, w8: Long, sr: Word, top: Long, sp: Long,
                  i: nat)
    requires FarApart(Wrap32(top - sp)) && i <= 4
    requires w2 == Wrap32(sp - 2) && w6 == Wrap32(sp - 6) && w8 == Wrap32(sp - 8)
    ensures m.Write16(w2, format).Write32(w6, pc).Write16(w8, sr).Read16(Wrap32(top - 8 + i))
            == m.Read16(Wrap32(top - 8 + i))
  {
    hide Wrap32, Memory.Read16, Memory.Read32, Memory.Write16, Memory.Write32;
    var s: int, t: int := sp, top;
    CrossClear(top, sp, i, 2, 6, 2);
    CrossClear(top, sp, i, 2, 2, 4);
    CrossClear(top, sp, i, 2, 0, 2);
    assert s - 8 + 6 == s - 2 && s - 8 + 2 == s - 6 && s - 8 + 0 == s - 8;
    var a := Wrap32(t - 8 + i);
    var m1 := m.Write16(w2, format);
    var m2 := m1.Write32(w6, pc);
    WritesApart16Word(m, w2, format, a);
    WritesApart32Word(m1, w6, pc, a);
    WritesApart16Word(m2, w8, sr, a);
  }

  /**
    What is left of the interrupted state on the stack: one frame, or a throwaway
    frame and one on the master stack.
   */
  ghost predicate Returnable(c: Cpu, d: Cpu, sr: int) {
    && d.kind == c.kind && FlagsOk(d.kind, d.flags) && d.flags.s == 4
    && if c.flags.m == 0 then
         && d.flags.m == 0 && d.sp == Wrap32(Isp(c) - FrameSize(c.kind)) && d.bank.usp == Usp(c) && d.bank.msp == Msp(c)
         && (exists format: Word :: format < 0x1000 && HoldsFrame(c.kind, d.memory, d.sp, sr, c.pc, format))
       else
         && d.flags.m == 0 && d.sp == Wrap32(Isp(c) - 8) && d.bank.usp == Usp(c) && d.bank.msp == Wrap32(Msp(c) - 8)
         && (exists format: Word ::
               format / 0x1000 == 1 && HoldsFrame(c.kind, d.memory, d.sp, Supervisor(sr), c.pc, format))
         && HoldsReturn(c.kind, d.memory, d.bank.msp, sr, c.pc)
  }

  lemma StackedIsReturnable(c: Cpu, level: nat, vector: nat)
    requires FlagsOk(c.kind, c.flags) && RoomForFrames(c) && level <= 7 && vector <= 255
    ensures Returnable(c, Stacked(c, level, vector), GetSr(c.flags))
  {
    hide GetSr, HoldsFrame, Wrap32, Supervisor, Masked, InRam;
    InitFacts(c);
    SrIsMasked(c.kind, c.flags);
    var (d, sr) := InitException(c);
    var d1 := d.(flags := d.flags.(intMask := Wrap32(level * 0x100)));
    assert Wrap32(level * 0x100) == level * 0x100 by { LevelFits(level); }
    assert d1.sp == FrameTop(c);
    if c.kind == M68000 {
      PushedShortFrame(d1, c.pc, sr);
    } else {
      PushedFrame(d1, vector * 4, c.pc, sr);
      if c.flags.m != 0 {
        ThrowawayIsReturnable(c, d1, vector, sr);
      }
    }
  }

  lemma LevelFits(level: nat)
    requires level <= 7
    ensures Wrap32(level * 0x100) == level * 0x100
  {
  }

  lemma SameRom(k: Kind, m: Memory, n: Memory, top: Long)
    requires InRam(k, m, top) && n.romBase == m.romBase && n.romSize == m.romSize
    ensures InRam(k, n, top)
  {
    hide Pins, Wrap32;
  }

  lemma ThrowawayIsReturnable(c: Cpu, d: Cpu, vector: nat, sr: int)
    requires c.kind == M68020 && d.kind == M68020 && FlagsOk(d.kind, d.flags) && d.flags.s == 4 && d.flags.m == 2
            && c.flags.m == 2
    requires SamePointers(c, d) && RoomForFrames(c) && d.memory == c.memory && d.pc == c.pc && vector <= 255
    requires 0 <= sr < 0x1_0000 && 0 <= Supervisor(sr) < 0x1_0000
    ensures var e := Frame0(d, c.pc, sr, vector); Returnable(c, Frame1(SetSM(e, 4), e.pc, Supervisor(sr), vector), sr)
  {
    hide HoldsFrame, Wrap32, Supervisor, Push16, Push32, InRam, Pins;
    PushedFrame(d, vector * 4, c.pc, sr);
    var e := Frame0(d, c.pc, sr, vector);
    var g := SetSM(e, 4);
    assert g.sp == Isp(c) && g.bank.msp == Wrap32(Msp(c) - 8) && g.bank.usp == Usp(c);
    assert InRam(g.kind, g.memory, g.sp) by { SameRom(c.kind, c.memory, g.memory, g.sp); }
    PushedFrame(g, 0x1000 + vector * 4, c.pc, Supervisor(sr));
    FrameStays(g, 0x1000 + vector * 4, c.pc, Supervisor(sr), Msp(c), sr, c.pc, vector * 4);
    assert (0x1000 + vector * 4) / 0x1000 == 1;
  }

  lemma ReturnRestores(c: Cpu, d: Cpu)
    requires FlagsOk(c.kind, c.flags) && Returnable(c, d, GetSr(c.flags))
    ensures var r := PopAll(d); GetSr(r.flags) == GetSr(c.flags) && r.pc == c.pc && SamePointers(c, r)
  {
    hide GetSr, HoldsFrame, Wrap32, Supervisor, Masked, Pop, SetSr;
    var sr := GetSr(c.flags);
    SrIsMasked(c.kind, c.flags);
    if c.flags.m == 0 {
      var format: Word :| format < 0x1000 && HoldsFrame(c.kind, d.memory, d.sp, sr, c.pc, format);
      PopTakes(d, Isp(c), sr, c.pc, format);
      SetThenGetSr(d.(sp := Isp(c), pc := c.pc), sr);
      PopLeavesPc(d.(sp := Isp(c), pc := c.pc), sr);
    } else {
      var format: Word :| format / 0x1000 == 1 && HoldsFrame(c.kind, d.memory, d.sp, Supervisor(sr), c.pc, format);
      PopTakes(d, Isp(c), Supervisor(sr), c.pc, format);
      var e := SetSr(d.(sp := Isp(c), pc := c.pc), Supervisor(sr));
      SetThenGetSr(d.(sp := Isp(c), pc := c.pc), Supervisor(sr));
      PopLeavesPc(d.(sp := Isp(c), pc := c.pc), Supervisor(sr));
      MasterAgain(c, d.(sp := Isp(c), pc := c.pc), sr);
      var format0 := FormatAt(c.kind, d.memory, d.bank.msp);
      assert HoldsFrame(c.kind, d.memory, d.bank.msp, sr, c.pc, format0) by {
        ReturnIsFrame(c.kind, d.memory, d.bank.msp, sr, c.pc);
      }
      PopTakes(e, Msp(c), sr, c.pc, format0);
      SetThenGetSr(e.(sp := Msp(c), pc := c.pc), sr);
      PopLeavesPc(e.(sp := Msp(c), pc := c.pc), sr);
    }
  }

  /** Setting the status register leaves the program counter and memory alone. */
  lemma PopLeavesPc(c: Cpu, sr: Long)
    ensures SetSr(c, sr).pc == c.pc && SetSr(c, sr).memory == c.memory && SetSr(c, sr).kind == c.kind
  {
    hide Masked, WithCcr, BitOf;
  }

  /** The throwaway frame's status register brings the master stack back. */
  lemma MasterAgain(c: Cpu, d: Cpu, sr: int)
    requires c.kind == M68020 && d.kind == M68020 && FlagsOk(c.kind, c.flags) && c.flags.m == 2 && sr == GetSr(c.flags)
    requires FlagsOk(d.kind, d.flags) && d.flags.s == 4 && d.flags.m == 0
    ensures 0 <= Supervisor(sr) < 0x1_0000
    ensures var e := SetSr(d, Supervisor(sr));
            e.flags.s == 4 && e.flags.m == 2 && e.sp == d.bank.msp && e.bank.usp == d.bank.usp && e.bank.isp == d.sp
  {
    hide Ccr, Masked, GetSr, Supervisor, BitOf, FromDigits;
    SrIsMasked(c.kind, c.flags);
    var f := c.flags;
    CcrIsSmall(f);
    SrDigits(c.kind, f);
    var t1, t0, mid := f.t1 / 0x8000, f.t0 / 0x4000, f.intMask / 0x100;
    DigitsAreMasked(c.kind, t1, t0, f.s / 4, 1, mid, Ccr(f));
    Digits(t1, t0, 1, 1, mid, Ccr(f));
    SmBits(1, 1);
    var v: Long := Supervisor(sr);
    assert Masked(d.kind, v) == v && v / 0x800 % 8 / 2 * 2 == 6;
  }

  /** An interrupt that is taken, its frames in RAM. */
  ghost predicate Interruptible(c: Cpu, level: nat, ack: Ack) {
    && FlagsOk(c.kind, c.flags) && InRam(c.kind, c.memory, FrameTop(c))
        && (c.flags.m != 0 ==> InRam(c.kind, c.memory, Isp(c)))
    && c.stopped < 2 && level <= 7 && VectorFor(ack, level) <= 255
  }

  /** Popping what the interrupt stacked restores status register, program counter and all three stack pointers. */
  ghost predicate Restores(c: Cpu, level: nat, ack: Ack) {
    var r := PopAll(Interrupt(c, level, ack));
    GetSr(r.flags) == GetSr(c.flags) && r.pc == c.pc && SamePointers(c, r)
  }

  /**
    Taking an interrupt and popping its frame, or both frames of the master
    state, restores the status register, the program counter and all three stack
    pointers as m68k_get_reg reports them.
   */
  lemma InterruptThenPopRestores(c: Cpu, level: nat, ack: Ack)
    requires Interruptible(c, level, ack) && (c.flags.m != 0 ==> FarApart(Wrap32(Msp(c) - Isp(c))))
    ensures Restores(c, level, ack)
  {
    hide GetSr, Stacked, PopAll, Returnable, Handler;
    var d := c.(stopped := 0);
    StackedIsReturnable(d, level, VectorFor(ack, level));
    var e := Interrupt(c, level, ack);
    assert Returnable(d, e, GetSr(c.flags)) by {
      PcDoesNotMatter(d, Stacked(d, level, VectorFor(ack, level)), e, GetSr(c.flags));
    }
    ReturnRestores(d, e);
  }

  lemma PcDoesNotMatter(c: Cpu, d: Cpu, e: Cpu, sr: int)
    requires Returnable(c, d, sr) && e == d.(pc := e.pc, intLevel := e.intLevel)
    ensures Returnable(c, e, sr)
  {
    hide HoldsFrame, Wrap32, Supervisor, FlagsOk;
  }

  /** In the handler: supervisor state, trace off, interrupts up to this level masked, running from the vector. */
  lemma InterruptEntersHandler(c: Cpu, level: nat, ack: Ack)
    requires FlagsOk(c.kind, c.flags) && c.stopped < 2 && level <= 7 && VectorFor(ack, level) <= 255
    ensures var d := Interrupt(c, level, ack);
            && d.flags.s == 4 && d.flags.t1 == 0 && d.flags.t0 == 0 && d.flags.m == 0
                && d.flags.intMask == level * 0x100
            && d.pc == Handler(c, VectorFor(ack, level)) && d.intLevel == 0 && d.stopped == 0
            && Ccr(d.flags) == Ccr(c.flags)
  {
    hide Ccr, Memory.Write16, Memory.Write32, Pins, GetSr, Memory.Read32, Wrap32;
    LevelFits(level);
    CcrIgnoresTrace(c.flags);
    var d := c.(stopped := 0);
    InitFacts(d);
  }

  lemma CcrIgnoresTrace(f: Flags)
    ensures forall t1: Long, t0: Long, s: Long, m: Long, i: Long ::
              Ccr(f.(t1 := t1, t0 := t0, s := s, m := m, intMask := i)) == Ccr(f)
  {
    hide BitOf;
  }

  /**
    Apart stacks are needed: with the two supervisor stacks at the same place the
    throwaway frame lies over the other one, and user code interrupted in the
    master state comes back in supervisor mode.
   */
  lemma OverlappingStacksLoseTheMode(c: Cpu, level: nat)
    requires c.kind == M68020 && FlagsOk(c.kind, c.flags) && c.flags.s == 0 && c.flags.m == 2
            && c.bank.msp == c.bank.isp
    requires InRam(c.kind, c.memory, c.bank.isp) && c.stopped == 0 && level <= 7
    ensures GetSr(PopAll(Interrupt(c, level, Autovector)).flags) != GetSr(c.flags)
  {
    hide GetSr, HoldsFrame, Wrap32, Supervisor, Masked, Pop, SetSr, Push16, Push32, InRam, Pins;
    var vector := 24 + level;
    InitFacts(c);
    SrIsMasked(c.kind, c.flags);
    var (d0, sr) := InitException(c);
    var top := c.bank.isp;
    LevelFits(level);
    var d := d0.(flags := d0.flags.(intMask := level * 0x100));
    PushedFrame(d, vector * 4, c.pc, sr);
    var g := SetSM(Frame0(d, c.pc, sr, vector), 4);
    assert InRam(g.kind, g.memory, g.sp) by { SameRom(c.kind, c.memory, g.memory, g.sp); }
    PushedFrame(g, 0x1000 + vector * 4, c.pc, Supervisor(sr));
    var e := Interrupt(c, level, Autovector);
    var sup, format := Supervisor(sr), 0x1000 + vector * 4;
    PopTakes(e, top, sup, c.pc, format);
    MasterAgain(c, e.(sp := top, pc := c.pc), sr);
    var h := SetSr(e.(sp := top, pc := c.pc), sup);
    SetThenGetSr(e.(sp := top, pc := c.pc), sup);
    PopLeavesPc(e.(sp := top, pc := c.pc), sup);
    PopTakes(h, top, sup, c.pc, format);
    SetThenGetSr(h.(sp := top, pc := c.pc), sup);
    assert format / 0x1000 == 1;
    assert GetSr(c.flags.(s := 4)) == GetSr(c.flags) + 0x2000 by { SIsInSr(c.flags); }
  }

  lemma SIsInSr(f: Flags)
    requires f.s == 0
    ensures GetSr(f.(s := 4)) == GetSr(f) + 0x2000
  {
    hide Ccr;
    CcrIgnoresMode(f, 4, f.m);
  }

  // ------------------------------------------------- how far apart is enough

  /** In the master state the second pop takes what then stands on the master stack. */
  lemma MasterPops(c: Cpu, level: nat)
    requires c.kind == M68020 && c.flags.m == 2 && c.stopped == 0 && Interruptible(c, level, Autovector)
    ensures var e, at := Interrupt(c, level, Autovector), Wrap32(Msp(c) - 8);
            var r := PopAll(e);
            r.pc == e.memory.Read32(Wrap32(at + 2)) && GetSr(r.flags) == Masked(M68020, e.memory.Read16(at))
  {
    hide GetSr, HoldsFrame, Wrap32, Supervisor, Masked, Pop, SetSr, Push16, Push32, InRam, Memory.Read16, Memory.Read32;
    var vector := 24 + level;
    InitFacts(c);
    SrIsMasked(c.kind, c.flags);
    var (d0, sr) := InitException(c);
    LevelFits(level);
    var d := d0.(flags := d0.flags.(intMask := level * 0x100));
    PushedFrame(d, vector * 4, c.pc, sr);
    var g := SetSM(Frame0(d, c.pc, sr, vector), 4);
    assert InRam(g.kind, g.memory, g.sp) by { SameRom(c.kind, c.memory, g.memory, g.sp); }
    var sup, format := Supervisor(sr), 0x1000 + vector * 4;
    PushedFrame(g, format, c.pc, sup);
    var e := Interrupt(c, level, Autovector);
    PopTakes(e, Isp(c), sup, c.pc, format);
    MasterAgain(c, e.(sp := Isp(c), pc := c.pc), sr);
    SetThenGetSr(e.(sp := Isp(c), pc := c.pc), sup);
    PopLeavesPc(e.(sp := Isp(c), pc := c.pc), sup);
    assert format / 0x1000 == 1;
    var h := SetSr(e.(sp := Isp(c), pc := c.pc), sup);
    var at: int := Wrap32(Msp(c) - 8);
    assert h.sp == at && h.memory == e.memory && h.kind == M68020;
    var sr2, pc2 := h.memory.Read16(at), h.memory.Read32(Wrap32(at + 2));
    ReturnIsFrame(h.kind, h.memory, at, sr2, pc2);
    PopTakes(h, Msp(c), sr2, pc2, FormatAt(h.kind, h.memory, at));
    SetThenGetSr(h.(sp := Msp(c), pc := pc2), sr2);
    PopLeavesPc(h.(sp := Msp(c), pc := pc2), sr2);
  }

  function FrameByte(j: int, sr: Word, pc: Long, format: Word): Byte {
    if j == 0 then sr / 0x100 else if j == 1 then sr % 0x100
    else if j == 2 then pc / 0x100_0000 else if j == 3 then pc / 0x1_0000 % 0x100
    else if j == 4 then pc / 0x100 % 0x100 else if j == 5 then pc % 0x100
    else if j == 6 then format / 0x100 else format % 0x100
  }

  /** A four-word frame below `top`. */
  function WithFrame(m: Memory, top: int, sr: Word, pc: Long, format: Word): Memory {
    m.Write16(top - 2, format).Write32(top - 6, pc).Write16(top - 8, sr)
  }

  lemma FrameBytes(m: Memory, top: int, sr: Word, pc: Long, format: Word)
    requires m.romSize == 0
    ensures var n := WithFrame(m, top, sr, pc, format);
            && n.romSize == 0
            && forall x :: n.Read8(x) == if top - 8 <= x < top then FrameByte(x - (top - 8), sr, pc, format)
                else m.Read8(x)
  {
    LongBytes(pc);
    var n1 := m.Write16(top - 2, format);
    var n2 := n1.Write32(top - 6, pc);
  }

  lemma LongBytes(pc: Long)
    ensures pc / 0x1_0000 / 0x100 == pc / 0x100_0000 && pc % 0x1_0000 / 0x100 == pc / 0x100 % 0x100
    ensures pc % 0x1_0000 % 0x100 == pc % 0x100
  {
    var h: int, l: int := pc / 0x1_0000, pc % 0x1_0000;
    var q: int, r: int := h / 0x100, l / 0x100;
    assert pc == q * 0x100_0000 + (h % 0x100) * 0x1_0000 + l;
    assert pc == (h * 0x100 + r) * 0x100 + l % 0x100;
    Quotient(pc, 0x100_0000, q, (h % 0x100) * 0x1_0000 + l);
    Quotient(pc, 0x100, h * 0x100 + r, l % 0x100);
    Quotient(h * 0x100 + r, 0x100, h, r);
  }

  const WITNESS_PC: Long := 0x0102_0304
  const WITNESS_ISP := 0x1000

  /** In the master state an interrupt stacks two frames, the throwaway frame second. */
  lemma MasterStacks(c: Cpu, level: nat)
    requires c.kind == M68020 && FlagsOk(c.kind, c.flags) && c.flags.m == 2 && c.stopped == 0 && level <= 7
            && Msp(c) >= 8 && Isp(c) >= 8
    ensures var sr, vector := GetSr(c.flags), 24 + level;
            && 0 <= sr < 0x1_0000 && 0 <= Supervisor(sr) < 0x1_0000
            && Interrupt(c, level, Autovector).memory
               == WithFrame(WithFrame(c.memory, Msp(c), sr, c.pc, vector * 4),
                            Isp(c), Supervisor(sr), c.pc, 0x1000 + vector * 4)
  {
    hide WithFrame, Handler, Push16, Push32, GetSr, Supervisor, Masked;
    var vector := 24 + level;
    InitFacts(c);
    SrIsMasked(c.kind, c.flags);
    LevelFits(level);
    var (d0, sr) := InitException(c);
    var d := d0.(flags := d0.flags.(intMask := level * 0x100));
    assert d.sp == Msp(c);
    PushedWords(d, vector * 4, c.pc, sr);
    var g := SetSM(Frame0(d, c.pc, sr, vector), 4);
    assert g.sp == Isp(c);
    PushedWords(g, 0x1000 + vector * 4, c.pc, Supervisor(sr));
  }

  /** A user program in the master state, interrupt mask 1, the master stack `d` bytes above the interrupt stack. */
  function Witness(d: int): Cpu
    requires -8 < d < 8
  {
    Cpu(M68020, 0, Bank(0, WITNESS_ISP, WITNESS_ISP + d), Flags(0, 0, 0, 2, 0x100, 0, 0, 1, 0, 0), WITNESS_PC, 0,
        Memory(map[], 0, 0), 0, 0, false)
  }

  lemma PushedWords(c: Cpu, format: Word, pc: Long, sr: Word)
    requires c.kind == M68020 && c.sp >= 8
    ensures var d := Push16(Push32(Push16(c, format), pc), sr);
            d == c.(sp := c.sp - 8, memory := WithFrame(c.memory, c.sp, sr, pc, format))
  {
    hide Memory.Write16, Memory.Write32, Wrap32, Pins, WithFrame;
    StackBelow(c.sp);
    assert Bits16(format) == format && Bits16(sr) == sr;
    assert WithFrame(c.memory, c.sp, sr, pc, format)
        == c.memory.Write16(c.sp as int - 2, format).Write32(c.sp as int - 6, pc).Write16(c.sp as int - 8, sr) by {
      FrameIsThreeWrites(c.memory, c.sp, sr, pc, format);
    }
    assert Pins(c.kind, Wrap32(c.sp as int - 2)) == c.sp - 2 by { AllPins(Wrap32(c.sp as int - 2)); }
    assert Pins(c.kind, Wrap32(c.sp as int - 6)) == c.sp - 6 by { AllPins(Wrap32(c.sp as int - 6)); }
    assert Pins(c.kind, Wrap32(c.sp as int - 8)) == c.sp - 8 by { AllPins(Wrap32(c.sp as int - 8)); }
    StackSteps(c.sp);
  }

  lemma StackBelow(sp: Long)
    requires sp >= 8
    ensures Wrap32(sp - 2) == sp - 2 && Wrap32(sp - 6) == sp - 6 && Wrap32(sp - 8) == sp - 8
  {
  }

  lemma AllPins(a: Long)
    ensures Pins(M68020, a) == a
  {
  }

  lemma FrameIsThreeWrites(m: Memory, top: int, sr: Word, pc: Long, format: Word)
    ensures WithFrame(m, top, sr, pc, format) == m.Write16(top - 2, format).Write32(top - 6, pc).Write16(top - 8, sr)
  {
  }

  const NOTHING := Memory(map[], 0, 0)

  function UserFrame(d: int): Memory {
    WithFrame(NOTHING, WITNESS_ISP + d, 0x1100, WITNESS_PC, 100)
  }

  function BothFrames(d: int): Memory {
    WithFrame(UserFrame(d), WITNESS_ISP, 0x3100, WITNESS_PC, 0x1064)
  }

  lemma WitnessSr(d: int)
    requires -8 < d < 8
    ensures GetSr(Witness(d).flags) == 0x1100 && Supervisor(0x1100) == 0x3100
  {
  }

  /** The bytes where the master stack's frame should be. */
  lemma WitnessByte(d: int, i: int)
    requires -8 < d < 8 && 0 <= i < 8
    ensures BothFrames(d).Read8(WITNESS_ISP + d - 8 + i)
         == if 0 <= i + d < 8 then FrameByte(i + d, 0x3100, WITNESS_PC, 0x1064)
             else FrameByte(i, 0x1100, WITNESS_PC, 100)
  {
    hide WithFrame, FrameByte, Memory.Read8;
    FrameBytes(NOTHING, WITNESS_ISP + d, 0x1100, WITNESS_PC, 100);
    FrameBytes(UserFrame(d), WITNESS_ISP, 0x3100, WITNESS_PC, 0x1064);
  }

  /** What the second pop finds is not what was pushed there. */
  lemma WitnessIsLost(d: int)
    requires -6 < d < 8
    ensures Interruptible(Witness(d), 1, Autovector) && !Restores(Witness(d), 1, Autovector)
  {
    hide Interrupt, PopAll, BothFrames, UserFrame, WithFrame, GetSr, Masked, Memory.Read8, Memory.Read16,
        Memory.Read32, Supervisor;
    var c, at, n := Witness(d), WITNESS_ISP + d - 8, BothFrames(d);
    assert Interruptible(c, 1, Autovector);
    MasterPops(c, 1);
    MasterStacks(c, 1);
    WitnessSr(d);
    assert Interrupt(c, 1, Autovector).memory == n by { WitnessFrames(d); }
    if 1 <= d <= 5 {
      WitnessByte(d, 2);
      FirstByte(n, at + 2);
    } else if d < 0 {
      WitnessByte(d, 5);
      LastByte(n, at + 2);
    } else {
      WitnessByte(d, 0);
      HighByte(n, at);
      OtherStatus(n.Read16(at));
    }
  }

  lemma WitnessFrames(d: int)
    ensures BothFrames(d) == WithFrame(WithFrame(NOTHING, WITNESS_ISP + d, 0x1100, WITNESS_PC, 100),
                                       WITNESS_ISP, 0x3100, WITNESS_PC, 0x1064)
  {
    hide WithFrame;
  }

  lemma HighByte(m: Memory, a: int)
    ensures m.Read16(a) / 0x100 == m.Read8(a)
  {
  }

  lemma FirstByte(m: Memory, a: int)
    ensures m.Read32(a) / 0x100_0000 == m.Read8(a)
  {
  }

  lemma LastByte(m: Memory, a: int)
    ensures m.Read32(a) % 0x100 == m.Read8(a + 3)
  {
  }

  /** These are not the status register of a user program with interrupt mask 1. */
  lemma OtherStatus(v: Word)
    requires v / 0x100 == 0x31 || v / 0x100 == 0x10 || v / 0x100 == 0x64
    ensures Masked(M68020, v) != 0x1100
  {
    if v / 0x100 != 0x10 { assert v / 0x2000 % 2 == 1; }
  }

  /**
    How far apart the two supervisor stacks must be: an interrupt in the master
    state is undone by popping, from every state with the master stack at this
    distance above the interrupt stack, if and only if the throwaway frame misses
    the status register and program counter on the master stack.
   */
  lemma StacksMustBeFarApart(distance: Long)
    ensures (forall c: Cpu, level: nat, ack: Ack ::
               Interruptible(c, level, ack) && c.flags.m != 0 && Wrap32(Msp(c) - Isp(c)) == distance
               ==> Restores(c, level, ack))
        <==> FarApart(distance)
  {
    hide Restores, InRam;
    if FarApart(distance) {
      forall c: Cpu, level: nat, ack: Ack |
        Interruptible(c, level, ack) && c.flags.m != 0 && Wrap32(Msp(c) - Isp(c)) == distance
        ensures Restores(c, level, ack)
      {
        InterruptThenPopRestores(c, level, ack);
      }
    } else {
      var d: int := if distance < 8 then distance else distance - 0x1_0000_0000;
      WitnessIsLost(d);
      assert Wrap32(Msp(Witness(d)) - Isp(Witness(d))) == distance;
    }
  }

  // --------------------------------------------------------- interrupt lines

  /** m68k_set_irq: a change to level 7 from below is also a non-maskable interrupt. */
  function SetIrq(c: Cpu, level: nat): Cpu {
    var now := Wrap32(level * 0x100);
    c.(intLevel := now, nmi := c.nmi || (c.intLevel != 0x700 && now == 0x700))
  }

  /** The highest line among 1 to 7 that is up, or 0. */
  function Highest(lines: set<int>, top: nat): (r: nat)
    ensures r <= top && (r > 0 ==> r in lines) && forall k :: r < k <= top ==> k !in lines
  {
    if top == 0 || top in lines then top else Highest(lines, top - 1)
  }

  /** A call of m68k_set_virq. */
  datatype Change = Change(level: int, up: bool)

  function LinesNext(lines: set<int>, change: Change): set<int> {
    if change.up then lines + {change.level} else lines - {change.level}
  }

  function LinesAfter(lines: set<int>, changes: seq<Change>): set<int>
    decreases |changes|
  {
    if changes == [] then lines else LinesAfter(LinesNext(lines, changes[0]), changes[1..])
  }

  /** The processor while lines change: each call requests the highest line that is up. */
  function Driven(c: Cpu, lines: set<int>, changes: seq<Change>): Cpu
    decreases |changes|
  {
    if changes == [] then c
    else
      var now := LinesNext(lines, changes[0]);
      Driven(SetIrq(c, Highest(now, 7)), now, changes[1..])
  }

  /** A call found line 7 up that was not requested before it. */
  predicate Rises(was: bool, lines: set<int>, changes: seq<Change>)
    decreases |changes|
  {
    changes != [] &&
    (var now := LinesNext(lines, changes[0]);
     (!was && 7 in now) || Rises(7 in now, now, changes[1..]))
  }

  lemma {:induction false} DrivenByTheLines(c: Cpu, lines: set<int>, changes: seq<Change>)
    requires changes != []
    ensures Driven(c, lines, changes)
         == c.(intLevel := Highest(LinesAfter(lines, changes), 7) * 0x100,
               nmi := c.nmi || Rises(c.intLevel == 0x700, lines, changes))
    decreases |changes|
  {
    var now := LinesNext(lines, changes[0]);
    LevelFits(Highest(now, 7));
    var d := SetIrq(c, Highest(now, 7));
    if changes[1..] == [] {
      assert Driven(c, lines, changes) == d;
    } else {
      DrivenByTheLines(d, now, changes[1..]);
    }
  }

  /**
    Over any sequence of changes of the virtual lines, a check after them takes
    an interrupt exactly when line 7 has newly risen on the way (or a
    non-maskable interrupt was pending), or the highest line up is above the
    mask, and then at that level.
   */
  lemma CheckTakesWhatIsAboveTheMask(c: Cpu, lines: set<int>, changes: seq<Change>, ack: Ack)
    requires changes != []
    ensures var top, d := Highest(LinesAfter(lines, changes), 7), Driven(c, lines, changes);
            CheckInterrupts(d, ack)
            == if c.nmi || Rises(c.intLevel == 0x700, lines, changes) then Interrupt(d.(nmi := false), 7, ack)
               else if top * 0x100 > c.flags.intMask then Interrupt(d, top, ack)
               else d
  {
    hide Interrupt;
    DrivenByTheLines(c, lines, changes);
  }
}
