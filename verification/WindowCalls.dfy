/**
  The assembler that turns queued window operations into a 68k routine for the
  event filter to run (toolbox_window.cpp), and the proof that running the
  routine makes exactly the intended Toolbox calls.
 */
module WindowCalls {
  import opened GuestMemory
  import opened Machine68k

  datatype Kind =
    | Select | Resize | Move | Close | BringFront | Hilite | ResizeQuietly
    | Invalidate | ScreenResized | Unknown(code: int)

  datatype WindowOp = WindowOp(kind: Kind, window: Long, a: Int16, b: Int16)

  // Offsets in the 256-byte code block.
  const DM_STATE := 56
  const DM_DEPTH := 60
  const DONE := 66
  const SAVED_PORT := 72
  const SCRATCH := 76
  const SCRATCH_MAX := 180
  const CODE_SIZE := 256

  const PORT_RECT := 16
  const THE_GDEVICE: Long := 0x0cc8

  /** A code block that fits below the top of the address space. */
  type CodeBase = x: int | 0 < x <= 0x1_0000_0000 - CODE_SIZE witness 1

  // ---------------------------------------------------------------- meaning

  /**
    The Toolbox calls an operation stands for, given the calls made before it.
    Longs the routine reads from guest memory are whatever the world then holds
    there: the port _GetPort saved, the current device, the Display Manager's state.
   */
  function Meaning(base: CodeBase, op: WindowOp, world: World, before: History): History {
    var w := op.window;
    match op.kind
    case Select => [SelectWindow(w)]
    case BringFront => [BringToFront(w)]
    case Hilite => [HiliteWindow(w, Bits16(op.a))]
    case Resize => [SizeWindow(w, Bits16(op.a), Bits16(op.b), 1)]
    case ResizeQuietly => [SizeWindow(w, Bits16(op.a), Bits16(op.b), 0)]
    case Move => [MoveWindow(w, Bits16(op.a), Bits16(op.b), 0)]
    case Close => [CloseWindow(w)]
    case Invalidate =>
      var marked := [GetPort(base + SAVED_PORT), SetPort(w), InvalRect(Wrap32(w + PORT_RECT))];
      marked + [SetPort(world.contents(before + marked, base + SAVED_PORT))]
    case ScreenResized =>
      var c0 := [DMBeginConfigureDisplays(base + DM_STATE)];
      var c1 := c0 + [DMSetDisplayMode(world.contents(before + c0, THE_GDEVICE), w, base + DM_DEPTH, 0,
                                       world.contents(before + c0, base + DM_STATE))];
      var c2 := c1 + [DMEndConfigureDisplays(world.contents(before + c1, base + DM_STATE))];
      c2 + [DMDrawDesktopRect(0, 0, Bits16(op.b), Bits16(op.a))]
    case Unknown(_) => []
  }

  function MeaningAll(base: CodeBase, ops: seq<WindowOp>, world: World, before: History): History {
    if ops == [] then []
    else
      var first := Meaning(base, ops[0], world, before);
      first + MeaningAll(base, ops[1..], world, before + first)
  }

  /** Operations on windows still known, plus screen changes, which name none. */
  predicate Wanted(op: WindowOp, known: seq<Long>) {
    !op.kind.Unknown? && (op.kind.ScreenResized? || op.window in known)
  }

  function WantedOps(ops: seq<WindowOp>, known: seq<Long>): seq<WindowOp> {
    if ops == [] then []
    else (if Wanted(ops[0], known) then [ops[0]] else []) + WantedOps(ops[1..], known)
  }

  /** The longest prefix in which every operation starts with 128 bytes to spare before the tail. */
  function Fitting(base: CodeBase, ops: seq<WindowOp>, used: nat): seq<WindowOp> {
    if ops == [] || used + 128 > SCRATCH_MAX - 12 then []
    else [ops[0]] + Fitting(base, ops[1..], used + 2 * |EncodeAll(Compile(base, ops[0]))|)
  }

  // ----------------------------------------------------------- instructions

  function Compile(base: CodeBase, op: WindowOp): seq<Instr> {
    var w := op.window;
    match op.kind
    case Select => [PushLong(w), ALine(0xa91f)]
    case BringFront => [PushLong(w), ALine(0xa920)]
    case Hilite => [PushLong(w), PushWord(Bits16(op.a)), ALine(0xa91c)]
    case Resize => SizeCode(op, 1)
    case ResizeQuietly => SizeCode(op, 0)
    case Move => [PushLong(w), PushWord(Bits16(op.a)), PushWord(Bits16(op.b)), PushWord(0), ALine(0xa91b)]
    case Close => [PushLong(w), ALine(0xa92d)]
    case Invalidate => EnterPortCode(base, w) + LeavePortCode(base, w)
    case ScreenResized =>
      BeginCode(base) + SetModeCode(base, w) + EndCode(base) + DesktopCode(op)
    case Unknown(_) => []
  }

  function EnterPortCode(base: CodeBase, w: Long): seq<Instr> {
    [PushAddress(base + SAVED_PORT), ALine(0xa874), PushLong(w), ALine(0xa873)]
  }

  function LeavePortCode(base: CodeBase, w: Long): seq<Instr> {
    [PushLong(Wrap32(w + PORT_RECT)), ALine(0xa928), PushContents(base + SAVED_PORT), ALine(0xa873)]
  }

  function SizeCode(op: WindowOp, update: Word): seq<Instr> {
    [PushLong(op.window), PushWord(Bits16(op.a)), PushWord(Bits16(op.b)), PushWord(update), ALine(0xa91d)]
  }

  function BeginCode(base: CodeBase): seq<Instr> {
    [ClearWord, PushAddress(base + DM_STATE), LoadD0(0x0206), ALine(0xabeb), PopD0]
  }

  function SetModeCode(base: CodeBase, mode: Long): seq<Instr> {
    SetModeArguments(base, mode) + SetModeDispatchCode(base)
  }

  function SetModeArguments(base: CodeBase, mode: Long): seq<Instr> {
    [ClearWord, PushContents(THE_GDEVICE), PushLong(mode), PushAddress(base + DM_DEPTH), ClearLong]
  }

  function SetModeDispatchCode(base: CodeBase): seq<Instr> {
    [PushContents(base + DM_STATE), LoadD0(0x0a11), ALine(0xabeb), PopD0]
  }

  function EndCode(base: CodeBase): seq<Instr> {
    [ClearWord, PushContents(base + DM_STATE), LoadD0(0x0207), ALine(0xabeb), PopD0]
  }

  function DesktopCode(op: WindowOp): seq<Instr> {
    RectCode(op) + DrawCode()
  }

  function RectCode(op: WindowOp): seq<Instr> {
    [PushWord(Bits16(op.a)), PushWord(Bits16(op.b)), PushWord(0), PushWord(0)]
  }

  function DrawCode(): seq<Instr> {
    [PushStackPointer, LoadD0(0x0202), ALine(0xabeb), DropEight]
  }

  function CompileAll(base: CodeBase, ops: seq<WindowOp>): seq<Instr> {
    if ops == [] then [] else Compile(base, ops[0]) + CompileAll(base, ops[1..])
  }

  function Routine(base: CodeBase, ops: seq<WindowOp>, number: Word): seq<Instr> {
    CompileAll(base, ops) + [StoreWord(number, base + DONE), Return]
  }

  // ------------------------------------------------------------ correctness

  lemma DoNothing(m: Machine, world: World)
    ensures m.DoAll(world, []) == m && Made(m, m, [])
  {
    assert m.calls + [] == m.calls;
  }

  lemma Do2(m: Machine, world: World, a: Instr, b: Instr)
    ensures m.DoAll(world, [a, b]) == m.Do(world, a).Do(world, b)
  {
    DoAllAppend(m, world, [a], [b]);
    assert [a, b] == [a] + [b];
  }

  lemma Do4(m: Machine, world: World, a: Instr, b: Instr, c: Instr, d: Instr)
    ensures m.DoAll(world, [a, b, c, d]) == m.Do(world, a).Do(world, b).Do(world, c).Do(world, d)
  {
    DoAllAppend(m, world, [a, b], [c, d]);
    assert [a, b, c, d] == [a, b] + [c, d];
    Do2(m, world, a, b);
    Do2(m.Do(world, a).Do(world, b), world, c, d);
  }

  lemma Do5(m: Machine, world: World, a: Instr, b: Instr, c: Instr, d: Instr, e: Instr)
    ensures m.DoAll(world, [a, b, c, d, e]) == m.Do(world, a).Do(world, b).Do(world, c).Do(world, d).Do(world, e)
  {
    DoAllAppend(m, world, [a, b, c, d], [e]);
    assert [a, b, c, d, e] == [a, b, c, d] + [e];
    Do4(m, world, a, b, c, d);
  }

  /** `n` differs from `m` by having made the calls `calls`, and perhaps in D0. */
  predicate Made(m: Machine, n: Machine, calls: History) {
    n == m.(calls := m.calls + calls, d0 := n.d0)
  }

  lemma OneArgument(m: Machine, world: World, op: WindowOp, trap: Trap, call: Call)
    requires m.status == Running
    requires || (trap == 0xa91f && call == SelectWindow(op.window))
             || (trap == 0xa920 && call == BringToFront(op.window))
             || (trap == 0xa92d && call == CloseWindow(op.window))
    ensures Made(m, m.DoAll(world, [PushLong(op.window), ALine(trap)]), [call])
  {
    Do2(m, world, PushLong(op.window), ALine(trap));
    assert (LongWords(op.window) + m.stack)[2..] == m.stack;
  }

  lemma HiliteCalls(m: Machine, world: World, w: Long, h: Word)
    requires m.status == Running
    ensures Made(m, m.DoAll(world, [PushLong(w), PushWord(h), ALine(0xa91c)]), [HiliteWindow(w, h)])
  {
    DoAllAppend(m, world, [PushLong(w), PushWord(h)], [ALine(0xa91c)]);
    assert [PushLong(w), PushWord(h), ALine(0xa91c)] == [PushLong(w), PushWord(h)] + [ALine(0xa91c)];
    Do2(m, world, PushLong(w), PushWord(h));
    var n := m.Push(LongWords(w)).Push([h]);
    assert n.stack == [h] + LongWords(w) + m.stack;
    assert n.stack[3..] == m.stack;
  }

  lemma FourArguments(m: Machine, world: World, w: Long, a: Word, b: Word, c: Word, trap: Trap)
    requires m.status == Running
    ensures trap == 0xa91d ==>
              Made(m, m.DoAll(world, [PushLong(w), PushWord(a), PushWord(b), PushWord(c), ALine(trap)]),
                   [SizeWindow(w, a, b, c)])
    ensures trap == 0xa91b ==>
              Made(m, m.DoAll(world, [PushLong(w), PushWord(a), PushWord(b), PushWord(c), ALine(trap)]),
                   [MoveWindow(w, a, b, c)])
  {
    Do5(m, world, PushLong(w), PushWord(a), PushWord(b), PushWord(c), ALine(trap));
    var n := m.Push(LongWords(w)).Push([a]).Push([b]).Push([c]);
    assert n.stack == [c, b, a] + LongWords(w) + m.stack;
    assert n.stack[5..] == m.stack;
  }

  /** One pushed long and a procedure that takes it. */
  lemma PortCall(m: Machine, world: World, push: Instr, v: Long, trap: Trap)
    requires m.status == Running
    requires push == PushLong(v) || push == PushAddress(v)
            || (push.PushContents? && v == world.contents(m.calls, push.addr))
    requires trap in {0xa874, 0xa873, 0xa928}
    ensures Made(m, m.Do(world, push).Do(world, ALine(trap)),
                 [if trap == 0xa874 then GetPort(v) else if trap == 0xa873 then SetPort(v) else InvalRect(v)])
  {
    assert (LongWords(v) + m.stack)[2..] == m.stack;
  }

  lemma InvalidateCalls(m: Machine, world: World, base: CodeBase, op: WindowOp)
    requires m.status == Running && op.kind == Invalidate
    ensures Made(m, m.DoAll(world, Compile(base, op)), Meaning(base, op, world, m.calls))
  {
    hide Machine.Do, Machine.DoAll;
    var saved, w := base + SAVED_PORT, op.window;
    var rect := Wrap32(w + PORT_RECT);
    var p0, p1 := EnterPortCode(base, w), LeavePortCode(base, w);
    DoAllAppend(m, world, p0, p1);
    Do4(m, world, p0[0], p0[1], p0[2], p0[3]);
    PortCall(m, world, p0[0], saved, 0xa874);
    var m1 := m.Do(world, p0[0]).Do(world, p0[1]);
    PortCall(m1, world, p0[2], w, 0xa873);
    var m2 := m1.Do(world, p0[2]).Do(world, p0[3]);
    assert p0 == [p0[0], p0[1], p0[2], p0[3]] && p1 == [p1[0], p1[1], p1[2], p1[3]];
    Do4(m2, world, p1[0], p1[1], p1[2], p1[3]);
    PortCall(m2, world, p1[0], rect, 0xa928);
    var m3 := m2.Do(world, p1[0]).Do(world, p1[1]);
    var marked := [GetPort(saved), SetPort(w), InvalRect(rect)];
    assert m3.calls == m.calls + marked;
    var port := world.contents(m3.calls, saved);
    PortCall(m3, world, p1[2], port, 0xa873);
    assert m3.calls + [SetPort(port)] == m.calls + (marked + [SetPort(port)]);
  }

  lemma BeginCalls(m: Machine, world: World, base: CodeBase)
    requires m.status == Running
    ensures Made(m, m.DoAll(world, BeginCode(base)), [DMBeginConfigureDisplays(base + DM_STATE)])
  {
    var c := BeginCode(base);
    Do5(m, world, c[0], c[1], c[2], c[3], c[4]);
    var state: Long := base + DM_STATE;
    var n := m.Push([0]).Push(LongWords(state)).(d0 := 0x0206);
    assert n.stack[2..] == [0] + m.stack;
    assert ([0] + m.stack)[1..] == m.stack;
  }

  lemma EndCalls(m: Machine, world: World, base: CodeBase)
    requires m.status == Running
    ensures Made(m, m.DoAll(world, EndCode(base)), [DMEndConfigureDisplays(world.contents(m.calls, base + DM_STATE))])
  {
    var c := EndCode(base);
    Do5(m, world, c[0], c[1], c[2], c[3], c[4]);
    var state := world.contents(m.calls, base + DM_STATE);
    var n := m.Push([0]).Push(LongWords(state)).(d0 := 0x0207);
    assert n.stack[2..] == [0] + m.stack;
    assert ([0] + m.stack)[1..] == m.stack;
  }

  lemma SetModePushes(m: Machine, world: World, base: CodeBase, mode: Long)
    requires m.status == Running
    ensures var dev := world.contents(m.calls, THE_GDEVICE);
            m.DoAll(world, SetModeArguments(base, mode))
            == m.(stack := [0, 0] + LongWords(base + DM_DEPTH) + LongWords(mode) + LongWords(dev) + [0] + m.stack)
  {
    Do5(m, world, ClearWord, PushContents(THE_GDEVICE), PushLong(mode), PushAddress(base + DM_DEPTH), ClearLong);
  }

  lemma SetModeDispatch(n: Machine, world: World, dev: Long, mode: Long, depth: Long, state: Long, rest: seq<Word>)
    requires n.status == Running && n.d0 == 0x0a11
    requires n.stack == LongWords(state) + [0, 0] + LongWords(depth) + LongWords(mode) + LongWords(dev) + [0] + rest
    ensures Made(n.(stack := rest), n.DisplayDispatch(world).Do(world, PopD0),
                 [DMSetDisplayMode(dev, mode, depth, 0, state)])
  {
    hide LongOf, LongWords;
    SetModeStack(n.stack, LongWords(state), LongWords(depth), LongWords(mode), LongWords(dev), rest);
    ArgumentRead(n, 0, state);
    ZeroArgument(n, 2);
    ArgumentRead(n, 4, depth);
    ArgumentRead(n, 6, mode);
    ArgumentRead(n, 8, dev);
    var q := n.(stack := [world.result(n.calls + [DMSetDisplayMode(dev, mode, depth, 0, state)])] + rest,
                calls := n.calls + [DMSetDisplayMode(dev, mode, depth, 0, state)]);
    assert n.DisplayDispatch(world) == q;
    assert q.stack[1..] == rest;
  }

  lemma SetModeStack(stack: seq<Word>, a: seq<Word>, b: seq<Word>, c: seq<Word>, d: seq<Word>, rest: seq<Word>)
    requires |a| == 2 && |b| == 2 && |c| == 2 && |d| == 2 && stack == a + [0, 0] + b + c + d + [0] + rest
    ensures |stack| == 11 + |rest| && stack[10..] == [0] + rest && ([0] + rest)[1..] == rest
    ensures stack[0] == a[0] && stack[1] == a[1] && stack[2] == 0 && stack[3] == 0 && stack[4] == b[0]
            && stack[5] == b[1]
    ensures stack[6] == c[0] && stack[7] == c[1] && stack[8] == d[0] && stack[9] == d[1]
  {
  }

  lemma ArgumentRead(n: Machine, k: nat, v: Long)
    requires k + 2 <= |n.stack| && n.stack[k] == LongWords(v)[0] && n.stack[k + 1] == LongWords(v)[1]
    ensures n.ArgLong(k) == v
  {
  }

  lemma ZeroArgument(n: Machine, k: nat)
    requires k + 2 <= |n.stack| && n.stack[k] == 0 && n.stack[k + 1] == 0
    ensures n.ArgLong(k) == 0
  {
  }

  lemma SetModeCalls(m: Machine, world: World, base: CodeBase, mode: Long)
    requires m.status == Running
    ensures Made(m, m.DoAll(world, SetModeCode(base, mode)),
                 [DMSetDisplayMode(world.contents(m.calls, THE_GDEVICE), mode, base + DM_DEPTH, 0,
                                   world.contents(m.calls, base + DM_STATE))])
  {
    hide Machine.DisplayDispatch, LongWords;
    var c, d := SetModeArguments(base, mode), SetModeDispatchCode(base);
    DoAllAppend(m, world, c, d);
    SetModePushes(m, world, base, mode);
    var n := m.DoAll(world, c);
    Do4(n, world, d[0], d[1], d[2], d[3]);
    var state := world.contents(m.calls, base + DM_STATE);
    var q := n.Push(LongWords(state)).(d0 := 0x0a11);
    SetModeDispatch(q, world, world.contents(m.calls, THE_GDEVICE), mode, base + DM_DEPTH, state, m.stack);
  }

  lemma DesktopDispatch(n: Machine, world: World, top: Word, left: Word, bottom: Word, right: Word, rest: seq<Word>)
    requires n.status == Running && n.stack == [top, left, bottom, right] + rest
    ensures var q := n.Push(LongWords(n.SP())).(d0 := 0x0202);
            q.DisplayDispatch(world)
            == n.(d0 := 0x0202, calls := n.calls + [DMDrawDesktopRect(top, left, bottom, right)])
  {
    hide LongWords, LongOf, Wrap32;
    var q := n.Push(LongWords(n.SP())).(d0 := 0x0202);
    assert q.stack[2..] == n.stack;
    assert q.ArgLong(0) == n.SP();
  }

  lemma RectDropped(n: Machine, world: World, a: Word, b: Word, c: Word, d: Word, rest: seq<Word>)
    requires n.status == Running && n.stack == [a, b, c, d] + rest
    ensures n.Do(world, DropEight) == n.(stack := rest)
  {
    assert n.stack[4..] == rest;
  }

  lemma RectPushed(m: Machine, world: World, op: WindowOp)
    requires m.status == Running
    ensures m.DoAll(world, RectCode(op)) == m.(stack := [0, 0, Bits16(op.b), Bits16(op.a)] + m.stack)
  {
    var c := RectCode(op);
    Do4(m, world, c[0], c[1], c[2], c[3]);
  }

  lemma DesktopCalls(m: Machine, world: World, op: WindowOp)
    requires m.status == Running
    ensures Made(m, m.DoAll(world, DesktopCode(op)), [DMDrawDesktopRect(0, 0, Bits16(op.b), Bits16(op.a))])
  {
    hide Machine.DisplayDispatch, LongWords, Bits16;
    var c, d := RectCode(op), DrawCode();
    DoAllAppend(m, world, c, d);
    RectPushed(m, world, op);
    var n := m.DoAll(world, c);
    Do4(n, world, d[0], d[1], d[2], d[3]);
    DesktopDispatch(n, world, 0, 0, Bits16(op.b), Bits16(op.a), m.stack);
    RectDropped(n.Push(LongWords(n.SP())).(d0 := 0x0202).DisplayDispatch(world), world, 0, 0, Bits16(op.b),
                Bits16(op.a), m.stack);
  }

  lemma ScreenResizedCalls(m: Machine, world: World, base: CodeBase, op: WindowOp)
    requires m.status == Running && op.kind == ScreenResized
    ensures Made(m, m.DoAll(world, Compile(base, op)), Meaning(base, op, world, m.calls))
  {
    var b, s, e, d := BeginCode(base), SetModeCode(base, op.window), EndCode(base), DesktopCode(op);
    DoAllAppend(m, world, b + s + e, d);
    DoAllAppend(m, world, b + s, e);
    DoAllAppend(m, world, b, s);
    BeginCalls(m, world, base);
    var m1 := m.DoAll(world, b);
    SetModeCalls(m1, world, base, op.window);
    var m2 := m1.DoAll(world, s);
    EndCalls(m2, world, base);
    var m3 := m2.DoAll(world, e);
    DesktopCalls(m3, world, op);
    var c0 := [DMBeginConfigureDisplays(base + DM_STATE)];
    var c1 := c0 + [DMSetDisplayMode(world.contents(m.calls + c0, THE_GDEVICE), op.window, base + DM_DEPTH, 0,
                                     world.contents(m.calls + c0, base + DM_STATE))];
    var c2 := c1 + [DMEndConfigureDisplays(world.contents(m.calls + c1, base + DM_STATE))];
    assert m2.calls == m.calls + c1;
    assert m3.calls == m.calls + c2;
    assert m3.calls + [DMDrawDesktopRect(0, 0, Bits16(op.b), Bits16(op.a))]
        == m.calls + (c2 + [DMDrawDesktopRect(0, 0, Bits16(op.b), Bits16(op.a))]);
  }

  /** The instructions of one operation make its calls and leave the stack as it was. */
  lemma OperationCalls(m: Machine, world: World, base: CodeBase, op: WindowOp)
    requires m.status == Running
    ensures Made(m, m.DoAll(world, Compile(base, op)), Meaning(base, op, world, m.calls))
  {
    hide Machine.DoAll, Machine.Do;
    match op.kind
    case Select => OneArgument(m, world, op, 0xa91f, SelectWindow(op.window));
    case BringFront => OneArgument(m, world, op, 0xa920, BringToFront(op.window));
    case Close => OneArgument(m, world, op, 0xa92d, CloseWindow(op.window));
    case Hilite => HiliteCalls(m, world, op.window, Bits16(op.a));
    case Resize => FourArguments(m, world, op.window, Bits16(op.a), Bits16(op.b), 1, 0xa91d);
    case ResizeQuietly => FourArguments(m, world, op.window, Bits16(op.a), Bits16(op.b), 0, 0xa91d);
    case Move => FourArguments(m, world, op.window, Bits16(op.a), Bits16(op.b), 0, 0xa91b);
    case Invalidate => InvalidateCalls(m, world, base, op);
    case ScreenResized => ScreenResizedCalls(m, world, base, op);
    case Unknown(_) => DoNothing(m, world);
  }

  lemma {:induction false} OperationsCall(m: Machine, world: World, base: CodeBase, ops: seq<WindowOp>)
    requires m.status == Running
    ensures Made(m, m.DoAll(world, CompileAll(base, ops)), MeaningAll(base, ops, world, m.calls))
    decreases |ops|
  {
    hide Compile, Meaning, Machine.Do;
    if ops == [] {
      assert m.calls + [] == m.calls;
    } else {
      DoAllAppend(m, world, Compile(base, ops[0]), CompileAll(base, ops[1..]));
      OperationCalls(m, world, base, ops[0]);
      var n := m.DoAll(world, Compile(base, ops[0]));
      var first := Meaning(base, ops[0], world, m.calls);
      OperationsCall(n, world, base, ops[1..]);
      assert n.calls == m.calls + first;
      var rest := MeaningAll(base, ops[1..], world, n.calls);
      assert n.calls + rest == m.calls + (first + rest);
    }
  }

  /**
    Main theorem.  `code` starts with the assembled routine; what follows it
    does not matter.  Run from its first word, with any caller's stack, it
    returns with the stack pointer where it started, having made exactly the
    calls the operations mean, in order, and having stored its number at the
    done word and nothing else.
   */
  lemma {:induction false} RoutineMakesExactlyTheCalls(world: World, base: CodeBase, ops: seq<WindowOp>, number: Word,
                                    code: seq<Word>, m: Machine)
    requires m.status == Running && m.stack == []
    requires EncodeAll(Routine(base, ops, number)) <= code
    ensures var r := Run(world, code, 0, m, |Routine(base, ops, number)|);
            && r.status == Returned
            && r.SP() == m.SP()
            && r.calls == m.calls + MeaningAll(base, ops, world, m.calls)
            && r.stores == m.stores + [(base + DONE, number)]
  {
    var body, tail := CompileAll(base, ops), [StoreWord(number, base + DONE), Return];
    hide Run, EncodeAll, Machine.DoAll, Machine.Do, MeaningAll, CompileAll, Routine;
    RoutineRuns(world, base, ops, number, code, m);
    OperationsCall(m, world, base, ops);
    TailReturns(m.DoAll(world, body), world, number, base + DONE);
  }

  /** Running the routine is doing its operations, then its tail. */
  lemma RoutineRuns(world: World, base: CodeBase, ops: seq<WindowOp>, number: Word, code: seq<Word>, m: Machine)
    requires EncodeAll(Routine(base, ops, number)) <= code
    ensures Run(world, code, 0, m, |Routine(base, ops, number)|)
         == m.DoAll(world, CompileAll(base, ops)).DoAll(world, [StoreWord(number, base + DONE), Return])
  {
    hide Run, EncodeAll, Machine.DoAll, Machine.Do, CompileAll;
    var body, tail := CompileAll(base, ops), [StoreWord(number, base + DONE), Return];
    RunExecutesInstructions(world, code, 0, m, body + tail);
    DoAllAppend(m, world, body, tail);
  }

  lemma TailReturns(m: Machine, world: World, number: Word, done: Long)
    requires m.status == Running && m.stack == []
    ensures m.DoAll(world, [StoreWord(number, done), Return])
         == m.(status := Returned, stores := m.stores + [(done, number)])
  {
    Do2(m, world, StoreWord(number, done), Return);
  }

  // -------------------------------------------------------------- assembler

  function WordAt(m: Memory, at: int, k: int): Word {
    m.Read16(at + 2 * k)
  }

  /** The words found at `at` are `words`. */
  ghost predicate CodeAt(m: Memory, at: int, words: seq<Word>) {
    forall k {:trigger WordAt(m, at, k)} :: 0 <= k < |words| ==> WordAt(m, at, k) == words[k]
  }

  ghost predicate Ram(m: Memory, from: int, to: int) {
    m.romSize == 0 || m.romBase + m.romSize <= from || to <= m.romBase
  }

  /** The two memories agree outside [from, to). */
  ghost predicate SameOutside(m: Memory, n: Memory, from: int, to: int) {
    && m.romBase == n.romBase && m.romSize == n.romSize
    && forall x {:trigger n.Read8(x)} :: x < from || x >= to ==> n.Read8(x) == m.Read8(x)
  }

  /** Going from memory `m` and cursor `pc` to `n` and `next` wrote exactly `words`. */
  ghost predicate Emits(m: Memory, pc: int, words: seq<Word>, n: Memory, next: int) {
    next == pc + 2 * |words| && SameOutside(m, n, pc, next) && CodeAt(n, pc, words)
  }

  lemma EmitsTwice(m: Memory, pc: int, a: seq<Word>, n: Memory, next: int, b: seq<Word>, r: Memory, end: int)
    requires Emits(m, pc, a, n, next) && Emits(n, next, b, r, end)
    ensures Emits(m, pc, a + b, r, end)
  {
    forall k | 0 <= k < |a + b| ensures WordAt(r, pc, k) == (a + b)[k] {
      if k < |a| {
        assert WordAt(n, pc, k) == a[k];
        assert r.Read8(pc + 2 * k) == n.Read8(pc + 2 * k);
        assert r.Read8(pc + 2 * k + 1) == n.Read8(pc + 2 * k + 1);
      } else {
        assert WordAt(r, next, k - |a|) == b[k - |a|];
      }
    }
  }

  lemma EmittedCode(m: Memory, pc: int, words: seq<Word>, n: Memory, next: int, end: int)
    requires Emits(m, pc, words, n, next) && next <= end
    ensures CodeAt(n, pc, words) && next == pc + 2 * |words| && SameOutside(m, n, pc, end)
  {
  }

  lemma SameMemory(m: Memory, from: int, to: int)
    ensures SameOutside(m, m, from, to)
  {
  }

  lemma EmitsNothing(m: Memory, pc: int)
    ensures Emits(m, pc, [], m, pc)
  {
  }

  lemma LongParts(m: Memory, a: int, v: Long)
    requires m.Read32(a) == v
    ensures m.Read16(a) == LongWords(v)[0] && m.Read16(a + 2) == LongWords(v)[1]
  {
  }

  lemma WantedStep(ops: seq<WindowOp>, i: nat, known: seq<Long>)
    requires i < |ops|
    ensures WantedOps(ops[i..], known)
         == if Wanted(ops[i], known) then [ops[i]] + WantedOps(ops[i+1..], known) else WantedOps(ops[i+1..], known)
  {
    assert ops[i..][1..] == ops[i+1..];
  }

  lemma FittingStops(base: CodeBase, ops: seq<WindowOp>, used: nat)
    ensures used + 128 > SCRATCH_MAX - 12 ==> Fitting(base, ops, used) == []
  {
  }

  lemma NothingWanted(base: CodeBase, known: seq<Long>, used: nat)
    ensures WantedOps([], known) == [] && Fitting(base, [], used) == []
  {
  }

  lemma FittingStep(base: CodeBase, done: seq<WindowOp>, op: WindowOp, rest: seq<WindowOp>, used: nat)
    requires used + 128 <= SCRATCH_MAX - 12
    ensures done + Fitting(base, [op] + rest, used)
         == (done + [op]) + Fitting(base, rest, used + 2 * |EncodeAll(Compile(base, op))|)
  {
    hide EncodeAll, Compile;
    assert ([op] + rest)[1..] == rest;
    var more := Fitting(base, rest, used + 2 * |EncodeAll(Compile(base, op))|);
    assert Fitting(base, [op] + rest, used) == [op] + more;
    assert done + ([op] + more) == (done + [op]) + more;
  }

  lemma EncodeNext(base: CodeBase, done: seq<WindowOp>, op: WindowOp)
    ensures EncodeAll(CompileAll(base, done + [op])) == EncodeAll(CompileAll(base, done)) + EncodeAll(Compile(base, op))
  {
    hide EncodeAll, Compile, CompileAll;
    CompileAllAppend(base, done, op);
    EncodeAllAppend(CompileAll(base, done), Compile(base, op));
  }

  class WindowCode {
    var memory: Memory
    var codeBase: CodeBase
    var scratchSeq: Word      // number of the last routine assembled
    var known: seq<Long>      // the windows of the last walk
    var pc: int               // where the next word goes
    ghost var start: Memory   // memory when assembling began
    ghost var code: seq<Word> // the words emitted since

    function Scratch(): int
      reads this
    {
      codeBase + SCRATCH
    }

    /** There is room for `bytes` more after the code emitted so far. */
    ghost predicate Room(bytes: nat)
      reads this
    {
      && Ram(start, Scratch(), Scratch() + SCRATCH_MAX)
      && Emits(start, Scratch(), code, memory, pc)
      && Scratch() <= pc <= Scratch() + SCRATCH_MAX - bytes
    }

    /** What every emitting step promises: the code grew by `words`. */
    twostate predicate Grew(words: seq<Word>)
      reads this
    {
      Room(0) && start == old(start) && code == old(code) + words
    }

    /** The scratch area starts with the code of `prog`, and it fits. */
    ghost predicate Holds(prog: seq<Instr>)
      reads this
    {
      CodeAt(memory, Scratch(), EncodeAll(prog)) && 2 * |EncodeAll(prog)| <= SCRATCH_MAX
    }

    method Op(w: Word)
      requires Room(2)
      modifies this`memory, this`pc, this`code
      ensures Grew([w]) && pc == old(pc) + 2
    {
      var m := memory.Write16(pc, w);
      EmitsTwice(start, Scratch(), code, memory, pc, [w], m, pc + 2);
      memory, pc, code := m, pc + 2, code + [w];
    }

    method OpW(w: Word, imm: Word)
      requires Room(4)
      modifies this`memory, this`pc, this`code
      ensures Grew([w, imm]) && pc == old(pc) + 4
    {
      var m := memory.Write16(pc, w).Write16(pc + 2, imm);
      EmitsTwice(start, Scratch(), code, memory, pc, [w, imm], m, pc + 4);
      memory, pc, code := m, pc + 4, code + [w, imm];
    }

    method OpL(w: Word, imm: Long)
      requires Room(6)
      modifies this`memory, this`pc, this`code
      ensures Grew([w] + LongWords(imm)) && pc == old(pc) + 6
    {
      ghost var before, all := code, [w] + LongWords(imm);
      Op(w);
      EmitLong(imm);
      assert code == before + all;
    }

    method EmitLong(v: Long)
      requires Room(4)
      modifies this`memory, this`pc, this`code
      ensures Grew(LongWords(v)) && pc == old(pc) + 4
    {
      var m := memory.Write32(pc, v);
      LongParts(m, pc, v);
      EmitsTwice(start, Scratch(), code, memory, pc, LongWords(v), m, pc + 4);
      memory, pc, code := m, pc + 4, code + LongWords(v);
    }

    method PushL(v: Long)
      requires Room(6)
      modifies this`memory, this`pc, this`code
      ensures Grew(Encode(PushLong(v))) && pc == old(pc) + 6
    {
      hide Emits, Ram, EncodeAll, LongWords;
      OpL(0x2f3c, v);
    }

    method PushW(v: int)
      requires Room(4)
      modifies this`memory, this`pc, this`code
      ensures Grew(Encode(PushWord(Bits16(v)))) && pc == old(pc) + 4
    {
      hide Emits, Ram, EncodeAll, LongWords;
      OpW(0x3f3c, Bits16(v));
    }

    method EmitTrap(t: Trap)
      requires Room(2)
      modifies this`memory, this`pc, this`code
      ensures Grew(Encode(ALine(t))) && pc == old(pc) + 2
    {
      hide Emits, Ram, EncodeAll, LongWords;
      Op(t);
    }

    method EmitCall(w: Long, t: Trap)
      requires Room(8)
      modifies this`memory, this`pc, this`code
      ensures Grew(EncodeAll([PushLong(w), ALine(t)])) && pc == old(pc) + 8
    {
      hide Emits, Ram, EncodeAll, LongWords;
      PushL(w);
      EmitTrap(t);
      EncodeTwo(PushLong(w), ALine(t));
    }

    method EmitHilite(op: WindowOp)
      requires Room(12) && op.kind == Hilite
      modifies this`memory, this`pc, this`code
      ensures Grew(EncodeAll(Compile(codeBase, op))) && pc == old(pc) + 12
    {
      hide Emits, Ram, EncodeAll, LongWords;
      PushL(op.window);
      PushW(op.a);
      EmitTrap(0xa91c);
      EncodeThree(PushLong(op.window), PushWord(Bits16(op.a)), ALine(0xa91c));
      AppendThree(old(code), Encode(PushLong(op.window)), Encode(PushWord(Bits16(op.a))), Encode(ALine(0xa91c)));
    }

    method EmitSize(op: WindowOp, update: Word)
      requires Room(20)
      modifies this`memory, this`pc, this`code
      ensures Grew(EncodeAll(SizeCode(op, update))) && pc == old(pc) + 20
    {
      hide Emits, Ram, EncodeAll, LongWords;
      PushL(op.window);
      PushW(op.a);
      PushW(op.b);
      PushW(update);
      EmitTrap(0xa91d);
      EncodeFive(PushLong(op.window), PushWord(Bits16(op.a)), PushWord(Bits16(op.b)), PushWord(update), ALine(0xa91d));
      AppendFive(old(code), Encode(PushLong(op.window)), Encode(PushWord(Bits16(op.a))),
                 Encode(PushWord(Bits16(op.b))), Encode(PushWord(update)), Encode(ALine(0xa91d)));
    }

    method EmitMove(op: WindowOp)
      requires Room(20) && op.kind == Move
      modifies this`memory, this`pc, this`code
      ensures Grew(EncodeAll(Compile(codeBase, op))) && pc == old(pc) + 20
    {
      hide Emits, Ram, EncodeAll, LongWords;
      PushL(op.window);
      PushW(op.a);
      PushW(op.b);
      PushW(0);
      EmitTrap(0xa91b);
      EncodeFive(PushLong(op.window), PushWord(Bits16(op.a)), PushWord(Bits16(op.b)), PushWord(0), ALine(0xa91b));
      AppendFive(old(code), Encode(PushLong(op.window)), Encode(PushWord(Bits16(op.a))),
                 Encode(PushWord(Bits16(op.b))), Encode(PushWord(0)), Encode(ALine(0xa91b)));
    }

    method EmitEnterPort(w: Long)
      requires Room(16)
      modifies this`memory, this`pc, this`code
      ensures Grew(EncodeAll(EnterPortCode(codeBase, w))) && pc == old(pc) + 16
    {
      hide Emits, Ram, EncodeAll, LongWords;
      OpL(0x4879, codeBase + SAVED_PORT);
      EmitTrap(0xa874);
      PushL(w);
      EmitTrap(0xa873);
      EncodeFour(PushAddress(codeBase + SAVED_PORT), ALine(0xa874), PushLong(w), ALine(0xa873));
      AppendFour(old(code), Encode(PushAddress(codeBase + SAVED_PORT)), Encode(ALine(0xa874)), Encode(PushLong(w)),
                 Encode(ALine(0xa873)));
    }

    method EmitLeavePort(w: Long)
      requires Room(16)
      modifies this`memory, this`pc, this`code
      ensures Grew(EncodeAll(LeavePortCode(codeBase, w))) && pc == old(pc) + 16
    {
      hide Emits, Ram, EncodeAll, LongWords;
      PushL(Wrap32(w + PORT_RECT));
      EmitTrap(0xa928);
      OpL(0x2f39, codeBase + SAVED_PORT);
      EmitTrap(0xa873);
      EncodeFour(PushLong(Wrap32(w + PORT_RECT)), ALine(0xa928), PushContents(codeBase + SAVED_PORT), ALine(0xa873));
      AppendFour(old(code), Encode(PushLong(Wrap32(w + PORT_RECT))), Encode(ALine(0xa928)),
                 Encode(PushContents(codeBase + SAVED_PORT)), Encode(ALine(0xa873)));
    }

    method EmitInvalidate(op: WindowOp)
      requires Room(32) && op.kind == Invalidate
      modifies this`memory, this`pc, this`code
      ensures Grew(EncodeAll(Compile(codeBase, op))) && pc == old(pc) + 32
    {
      hide Emits, Ram, EncodeAll, LongWords;
      EncodeAllAppend(EnterPortCode(codeBase, op.window), LeavePortCode(codeBase, op.window));
      EmitEnterPort(op.window);
      EmitLeavePort(op.window);
    }

    method EmitDispatch(selector: Word)
      requires Room(8)
      modifies this`memory, this`pc, this`code
      ensures Grew(Encode(LoadD0(selector)) + Encode(ALine(0xabeb)) + Encode(PopD0)) && pc == old(pc) + 8
    {
      hide Emits, Ram, EncodeAll, LongWords;
      OpW(0x303c, selector);
      EmitTrap(0xabeb);
      Op(0x301f);
    }

    method EmitBegin()
      requires Room(16)
      modifies this`memory, this`pc, this`code
      ensures Grew(EncodeAll(BeginCode(codeBase))) && pc == old(pc) + 16
    {
      hide Emits, Ram, EncodeAll, LongWords, Encode;
      EmitClearWord();
      EmitAddress(codeBase + DM_STATE);
      EmitDispatch(0x0206);
      EncodeFive(ClearWord, PushAddress(codeBase + DM_STATE), LoadD0(0x0206), ALine(0xabeb), PopD0);
      AppendFive(old(code), Encode(ClearWord), Encode(PushAddress(codeBase + DM_STATE)), Encode(LoadD0(0x0206)),
                 Encode(ALine(0xabeb)), Encode(PopD0));
    }

    method EmitDeviceAndMode(mode: Long)
      requires Room(14)
      modifies this`memory, this`pc, this`code
      ensures Grew(Encode(ClearWord) + Encode(PushContents(THE_GDEVICE)) + Encode(PushLong(mode))) && pc == old(pc) + 14
    {
      hide Emits, Ram, LongWords;
      Op(0x4267);
      OpL(0x2f39, THE_GDEVICE);
      OpL(0x2f3c, mode);
    }

    method EmitAddress(a: Long)
      requires Room(6)
      modifies this`memory, this`pc, this`code
      ensures Grew(Encode(PushAddress(a))) && pc == old(pc) + 6
    {
      hide Emits, Ram, LongWords;
      OpL(0x4879, a);
    }

    method EmitClearWord()
      requires Room(2)
      modifies this`memory, this`pc, this`code
      ensures Grew(Encode(ClearWord)) && pc == old(pc) + 2
    {
      hide Emits, Ram;
      Op(0x4267);
    }

    method EmitContents(a: Long)
      requires Room(6)
      modifies this`memory, this`pc, this`code
      ensures Grew(Encode(PushContents(a))) && pc == old(pc) + 6
    {
      hide Emits, Ram, LongWords;
      OpL(0x2f39, a);
    }

    method EmitClearLong()
      requires Room(2)
      modifies this`memory, this`pc, this`code
      ensures Grew(Encode(ClearLong)) && pc == old(pc) + 2
    {
      hide Emits, Ram;
      Op(0x42a7);
    }

    method EmitSetModeArguments(mode: Long)
      requires Room(22)
      modifies this`memory, this`pc, this`code
      ensures Grew(EncodeAll(SetModeArguments(codeBase, mode))) && pc == old(pc) + 22
    {
      hide Emits, Ram, EncodeAll, LongWords, Encode;
      EmitDeviceAndMode(mode);
      EmitAddress(codeBase + DM_DEPTH);
      EmitClearLong();
      EncodeFive(ClearWord, PushContents(THE_GDEVICE), PushLong(mode), PushAddress(codeBase + DM_DEPTH), ClearLong);
      AppendFive(old(code), Encode(ClearWord), Encode(PushContents(THE_GDEVICE)), Encode(PushLong(mode)),
                 Encode(PushAddress(codeBase + DM_DEPTH)), Encode(ClearLong));
    }

    method EmitSetModeDispatch()
      requires Room(14)
      modifies this`memory, this`pc, this`code
      ensures Grew(EncodeAll(SetModeDispatchCode(codeBase))) && pc == old(pc) + 14
    {
      hide Emits, Ram, EncodeAll, LongWords;
      OpL(0x2f39, codeBase + DM_STATE);
      EmitDispatch(0x0a11);
      EncodeFour(PushContents(codeBase + DM_STATE), LoadD0(0x0a11), ALine(0xabeb), PopD0);
      AppendFour(old(code), Encode(PushContents(codeBase + DM_STATE)), Encode(LoadD0(0x0a11)), Encode(ALine(0xabeb)),
                 Encode(PopD0));
    }

    method EmitEnd()
      requires Room(16)
      modifies this`memory, this`pc, this`code
      ensures Grew(EncodeAll(EndCode(codeBase))) && pc == old(pc) + 16
    {
      hide Emits, Ram, EncodeAll, LongWords, Encode;
      EmitClearWord();
      EmitContents(codeBase + DM_STATE);
      EmitDispatch(0x0207);
      EncodeFive(ClearWord, PushContents(codeBase + DM_STATE), LoadD0(0x0207), ALine(0xabeb), PopD0);
      AppendFive(old(code), Encode(ClearWord), Encode(PushContents(codeBase + DM_STATE)), Encode(LoadD0(0x0207)),
                 Encode(ALine(0xabeb)), Encode(PopD0));
    }

    method EmitRect(op: WindowOp)
      requires Room(16)
      modifies this`memory, this`pc, this`code
      ensures Grew(EncodeAll(RectCode(op))) && pc == old(pc) + 16
    {
      hide Emits, Ram, EncodeAll, LongWords;
      PushW(op.a);
      PushW(op.b);
      PushW(0);
      PushW(0);
      EncodeFour(PushWord(Bits16(op.a)), PushWord(Bits16(op.b)), PushWord(0), PushWord(0));
      AppendFour(old(code), Encode(PushWord(Bits16(op.a))), Encode(PushWord(Bits16(op.b))), Encode(PushWord(0)),
                 Encode(PushWord(0)));
    }

    method EmitDraw()
      requires Room(10)
      modifies this`memory, this`pc, this`code
      ensures Grew(EncodeAll(DrawCode())) && pc == old(pc) + 10
    {
      hide Emits, Ram, EncodeAll, LongWords;
      Op(0x4857);
      OpW(0x303c, 0x0202);
      EmitTrap(0xabeb);
      Op(0x508f);
      EncodeFour(PushStackPointer, LoadD0(0x0202), ALine(0xabeb), DropEight);
      AppendFour(old(code), Encode(PushStackPointer), Encode(LoadD0(0x0202)), Encode(ALine(0xabeb)), Encode(DropEight));
    }

    method EmitScreenResized(op: WindowOp)
      requires Room(94) && op.kind == ScreenResized
      modifies this`memory, this`pc, this`code
      ensures Grew(EncodeAll(Compile(codeBase, op))) && pc == old(pc) + 94
    {
      hide Emits, Ram, EncodeAll, LongWords;
      hide Encode;
      ScreenResizedWords(codeBase, op);
      EmitBegin();
      EmitSetModeArguments(op.window);
      EmitSetModeDispatch();
      EmitEnd();
      AppendFour(old(code), EncodeAll(BeginCode(codeBase)), EncodeAll(SetModeArguments(codeBase, op.window)),
                 EncodeAll(SetModeDispatchCode(codeBase)), EncodeAll(EndCode(codeBase)));
      ghost var half := code;
      EmitRect(op);
      EmitDraw();
    }

    method EmitOperation(op: WindowOp)
      requires Room(94) && !op.kind.Unknown?
      modifies this`memory, this`pc, this`code
      ensures Grew(EncodeAll(Compile(codeBase, op))) && pc <= old(pc) + 94 && pc - old(pc) == 2 * (|code| - |old(code)|)
    {
      hide Emits, Ram, EncodeAll, Encode;
      EmittedLength();
      match op.kind {
        case Select => EmitCall(op.window, 0xa91f);
        case BringFront => EmitCall(op.window, 0xa920);
        case Hilite => EmitHilite(op);
        case Resize => EmitSize(op, 1);
        case ResizeQuietly => EmitSize(op, 0);
        case Move => EmitMove(op);
        case Close => EmitCall(op.window, 0xa92d);
        case Invalidate => EmitInvalidate(op);
        case ScreenResized => EmitScreenResized(op);
      }
      EmittedLength();
    }

    lemma EmittedLength()
      requires Room(0)
      ensures pc == Scratch() + 2 * |code|
    {
    }

    method EmitTail()
      requires Room(10)
      modifies this`memory, this`pc, this`code
      ensures Grew(EncodeAll([StoreWord(scratchSeq, codeBase + DONE), Return]))
    {
      hide Emits, Ram, EncodeAll, LongWords;
      OpW(0x33fc, scratchSeq);
      EmitLong(codeBase + DONE);
      Op(0x4e75);
      EncodeTwo(StoreWord(scratchSeq, codeBase + DONE), Return);
    }

    /**
      Assembles the pending operations into the scratch routine.  Those on
      windows no longer known are skipped; from the first that might not fit
      the rest are dropped.  Nothing outside the scratch area is written, and
      nothing at all when no operation is emitted.
     */
    method Assemble(ops: seq<WindowOp>) returns (ready: bool)
      requires Ram(memory, Scratch(), Scratch() + SCRATCH_MAX)
      modifies this
      ensures codeBase == old(codeBase) && known == old(known)
      ensures ready == (Fitting(codeBase, WantedOps(ops, known), 0) != [])
      ensures ready ==> scratchSeq == Bits16(old(scratchSeq) + 1)
      ensures ready ==> Holds(Routine(codeBase, Fitting(codeBase, WantedOps(ops, known), 0), scratchSeq))
      ensures !ready ==> memory == old(memory) && scratchSeq == old(scratchSeq)
      ensures SameOutside(old(memory), memory, Scratch(), Scratch() + SCRATCH_MAX)
    {
      hide EncodeAll, Encode, Compile, Fitting, WantedOps, Ram, CodeAt, Emits, SameOutside, CompileAll, Bits16;
      pc, code, start := codeBase + SCRATCH, [], memory;
      var limit := codeBase + SCRATCH + SCRATCH_MAX - 12;
      var count := 0;
      ghost var wanted := WantedOps(ops, known);
      ghost var done: seq<WindowOp> := [];
      var i := 0;
      NothingEmitted(codeBase);
      EmitsNothing(memory, pc);
      assert ops[0..] == ops;
      while i < |ops|
        invariant 0 <= i <= |ops|
        invariant codeBase == old(codeBase) && known == old(known) && scratchSeq == old(scratchSeq)
        invariant limit == Scratch() + SCRATCH_MAX - 12
        invariant Room(12) && start == old(memory)
        invariant code == EncodeAll(CompileAll(codeBase, done)) && count == |done|
        invariant Fitting(codeBase, wanted, 0)
               == done + Fitting(codeBase, WantedOps(ops[i..], known), 2 * |code|)
        invariant pc == Scratch() + 2 * |code|
        invariant done == [] ==> memory == old(memory)
      {
        var op := ops[i];
        WantedStep(ops, i, known);
        FittingStops(codeBase, WantedOps(ops[i..], known), 2 * |code|);
        if op.kind != ScreenResized && op.window !in known {
          i := i + 1;
          continue;
        }
        if pc + 128 > limit {
          break;
        }
        if op.kind.Unknown? {
          i := i + 1;
          continue;
        }
        FittingStep(codeBase, done, op, WantedOps(ops[i+1..], known), 2 * |code|);
        EncodeNext(codeBase, done, op);
        EmitOperation(op);
        done, count := done + [op], count + 1;
        i := i + 1;
      }
      NothingWanted(codeBase, known, 2 * |code|);
      if i == |ops| { assert ops[i..] == []; }
      assert done == Fitting(codeBase, wanted, 0);
      if count == 0 {
        SameMemory(memory, Scratch(), Scratch() + SCRATCH_MAX);
        return false;
      }
      scratchSeq := Bits16(scratchSeq + 1);
      EmitTail();
      EncodeAllAppend(CompileAll(codeBase, done), [StoreWord(scratchSeq, codeBase + DONE), Return]);
      EmittedCode(start, Scratch(), code, memory, pc, Scratch() + SCRATCH_MAX);
      return true;
    }
  }

  lemma NothingEmitted(base: CodeBase)
    ensures EncodeAll([]) == [] && CompileAll(base, []) == []
  {
  }

  lemma ScreenResizedWords(base: CodeBase, op: WindowOp)
    requires op.kind == ScreenResized
    ensures EncodeAll(Compile(base, op))
         == EncodeAll(BeginCode(base)) + EncodeAll(SetModeArguments(base, op.window))
             + EncodeAll(SetModeDispatchCode(base))
            + EncodeAll(EndCode(base)) + EncodeAll(RectCode(op)) + EncodeAll(DrawCode())
  {
    hide EncodeAll;
    var b, s, e, d := BeginCode(base), SetModeCode(base, op.window), EndCode(base), DesktopCode(op);
    EncodeAllAppend(b + s + e, d);
    EncodeAllAppend(b + s, e);
    EncodeAllAppend(b, s);
    EncodeAllAppend(SetModeArguments(base, op.window), SetModeDispatchCode(base));
    EncodeAllAppend(RectCode(op), DrawCode());
  }

  lemma {:induction false} CompileAllAppend(base: CodeBase, ops: seq<WindowOp>, op: WindowOp)
    ensures CompileAll(base, ops + [op]) == CompileAll(base, ops) + Compile(base, op)
  {
    if ops == [] {
      assert CompileAll(base, [op]) == Compile(base, op) + CompileAll(base, []);
    } else {
      assert (ops + [op])[1..] == ops[1..] + [op];
      CompileAllAppend(base, ops[1..], op);
    }
  }

  /** What is emitted is a prefix of what is wanted: nothing is reordered and nothing later overtakes. */
  lemma {:induction false} FittingIsPrefix(base: CodeBase, ops: seq<WindowOp>, used: nat)
    ensures Fitting(base, ops, used) <= ops
  {
    hide EncodeAll, Compile;
    if ops != [] && used + 128 <= SCRATCH_MAX - 12 {
      FittingIsPrefix(base, ops[1..], used + 2 * |EncodeAll(Compile(base, ops[0]))|);
    }
  }

  /** The k-th wanted operation is emitted exactly when the code of those before it leaves 128 bytes. */
  lemma {:induction false} EmittedWhileRoom(base: CodeBase, ops: seq<WindowOp>, used: nat, k: nat)
    requires k < |ops|
    ensures k < |Fitting(base, ops, used)|
        <==> used + 2 * |EncodeAll(CompileAll(base, ops[..k]))| + 128 <= SCRATCH_MAX - 12
    decreases k
  {
    hide EncodeAll, Compile;
    NothingEmitted(base);
    if k > 0 {
      assert ops[..k][1..] == ops[1..][..k-1];
      EncodeAllAppend(Compile(base, ops[0]), CompileAll(base, ops[1..][..k-1]));
      EmittedWhileRoom(base, ops[1..], used + 2 * |EncodeAll(Compile(base, ops[0]))|, k - 1);
    }
  }

  /** The words in memory from `at` on. */
  function Fetched(m: Memory, at: int, n: nat): (words: seq<Word>)
    ensures |words| == n && forall k :: 0 <= k < n ==> words[k] == WordAt(m, at, k)
  {
    seq(n, k => WordAt(m, at, k))
  }

  /**
    The assembler is a correct compiler: after Assemble has said `ready`, the
    90 words of the scratch area, executed from the first, make exactly the
    calls of the operations it emitted and return.
   */
  lemma AssembledRoutineMakesExactlyTheCalls(c: WindowCode, prog: seq<Instr>, ops: seq<WindowOp>,
                                             number: Word, world: World, m: Machine)
    requires prog == Routine(c.codeBase, ops, number) && c.Holds(prog)
    requires m.status == Running && m.stack == []
    ensures var r := Run(world, Fetched(c.memory, c.Scratch(), SCRATCH_MAX / 2), 0, m, |prog|);
            && r.status == Returned
            && r.SP() == m.SP()
            && r.calls == m.calls + MeaningAll(c.codeBase, ops, world, m.calls)
            && r.stores == m.stores + [(c.codeBase + DONE, number)]
  {
    hide Run, EncodeAll, MeaningAll, Routine;
    var code := Fetched(c.memory, c.Scratch(), SCRATCH_MAX / 2);
    var words := EncodeAll(prog);
    forall k | 0 <= k < |words| ensures code[k] == words[k] {
      assert WordAt(c.memory, c.Scratch(), k) == words[k];
    }
    RoutineMakesExactlyTheCalls(world, c.codeBase, ops, number, code, m);
  }
}
