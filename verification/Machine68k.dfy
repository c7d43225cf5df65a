/**
  A small 68k stack machine: just the instructions the window-operation
  assembler emits, plus Toolbox calls, which follow the Pascal convention in
  which the callee removes its arguments.
 */
module Machine68k {
  import opened GuestMemory

  datatype Option<+T> = None | Some(value: T)

  datatype Instr =
    | PushLong(imm: Long)            // MOVE.L #imm,-(SP)
    | PushWord(word: Word)           // MOVE.W #imm,-(SP)
    | PushAddress(addr: Long)        // PEA (addr).L
    | PushContents(addr: Long)       // MOVE.L (addr).L,-(SP)
    | ClearWord                      // CLR.W -(SP)
    | ClearLong                      // CLR.L -(SP)
    | LoadD0(word: Word)             // MOVE.W #imm,D0
    | PopD0                          // MOVE.W (SP)+,D0
    | PushStackPointer               // PEA (SP)
    | DropEight                      // ADDQ.L #8,SP
    | StoreWord(word: Word, addr: Long) // MOVE.W #imm,(addr).L
    | Return                         // RTS
    | ALine(trap: Trap)              // a Toolbox call

  type Trap = x: int | 0xa000 <= x < 0xb000 witness 0xa000

  /** The words of one instruction. */
  function Encode(i: Instr): (words: seq<Word>)
    ensures 1 <= |words| <= 4
  {
    match i
    case PushLong(v) => [0x2f3c] + LongWords(v)
    case PushWord(w) => [0x3f3c, w]
    case PushAddress(a) => [0x4879] + LongWords(a)
    case PushContents(a) => [0x2f39] + LongWords(a)
    case ClearWord => [0x4267]
    case ClearLong => [0x42a7]
    case LoadD0(w) => [0x303c, w]
    case PopD0 => [0x301f]
    case PushStackPointer => [0x4857]
    case DropEight => [0x508f]
    case StoreWord(w, a) => [0x33fc, w] + LongWords(a)
    case Return => [0x4e75]
    case ALine(t) => [t]
  }

  function LongWords(v: Long): (words: seq<Word>)
    ensures |words| == 2 && LongOf(words[0], words[1]) == v
  {
    [v / 0x1_0000, v % 0x1_0000]
  }

  function LongOf(hi: Word, lo: Word): Long {
    0x1_0000 * hi + lo
  }

  function EncodeAll(prog: seq<Instr>): seq<Word> {
    if prog == [] then [] else Encode(prog[0]) + EncodeAll(prog[1..])
  }

  /** The instruction at word `k` of `code`, with the index of the next one. */
  function Decode(code: seq<Word>, k: nat): Option<(Instr, nat)> {
    if k >= |code| then None
    else
      var w := code[k];
      var one := k + 1 < |code|;
      var two := k + 2 < |code|;
      var three := k + 3 < |code|;
      if w == 0x2f3c && two then Some((PushLong(LongOf(code[k+1], code[k+2])), k + 3))
      else if w == 0x3f3c && one then Some((PushWord(code[k+1]), k + 2))
      else if w == 0x4879 && two then Some((PushAddress(LongOf(code[k+1], code[k+2])), k + 3))
      else if w == 0x2f39 && two then Some((PushContents(LongOf(code[k+1], code[k+2])), k + 3))
      else if w == 0x4267 then Some((ClearWord, k + 1))
      else if w == 0x42a7 then Some((ClearLong, k + 1))
      else if w == 0x303c && one then Some((LoadD0(code[k+1]), k + 2))
      else if w == 0x301f then Some((PopD0, k + 1))
      else if w == 0x4857 then Some((PushStackPointer, k + 1))
      else if w == 0x508f then Some((DropEight, k + 1))
      else if w == 0x33fc && three then Some((StoreWord(code[k+1], LongOf(code[k+2], code[k+3])), k + 4))
      else if w == 0x4e75 then Some((Return, k + 1))
      else if 0xa000 <= w < 0xb000 then Some((ALine(w), k + 1))
      else None
  }

  /** Toolbox calls with their arguments, as the callee finds them. */
  datatype Call =
    | SelectWindow(window: Long)
    | BringToFront(window: Long)
    | HiliteWindow(window: Long, hilite: Word)
    | SizeWindow(window: Long, width: Word, height: Word, update: Word)
    | MoveWindow(window: Long, h: Word, v: Word, front: Word)
    | CloseWindow(window: Long)
    | GetPort(into: Long)
    | SetPort(port: Long)
    | InvalRect(rect: Long)
    | DMBeginConfigureDisplays(state: Long)
    | DMSetDisplayMode(device: Long, mode: Long, depth: Long, info: Long, state: Long)
    | DMEndConfigureDisplays(state: Long)
    | DMDrawDesktopRect(top: Word, left: Word, bottom: Word, right: Word)

  type History = seq<Call>

  /**
    What the Toolbox does to the rest of guest memory is unknown, so a `World`
    says, for every history of calls, what a long in guest memory then holds and
    what word a function call returns.  Theorems hold for every `World`.
   */
  datatype World = World(contents: (History, Long) -> Long, result: History -> Word)

  datatype Status = Running | Returned | Crashed

  /**
    `stack` holds the words this routine has pushed, the word at SP first; the
    caller's return address is just below them.  `stores` are the direct
    memory writes made, oldest first.
   */
  datatype Machine = Machine(status: Status, base: Long, stack: seq<Word>, d0: Word,
                             calls: History, stores: seq<(Long, Word)>)
  {
    function SP(): Long {
      Wrap32(base - 2 * |stack|)
    }

    function Crash(): Machine {
      this.(status := Crashed)
    }

    function Push(words: seq<Word>): Machine {
      this.(stack := words + stack)
    }

    /** Removes `n` argument words and records the call; a function result then
        replaces the word the caller reserved below the arguments. */
    function Called(world: World, c: Call, n: nat, hasResult: bool): Machine
      requires n <= |stack|
    {
      var rest := stack[n..];
      if !hasResult then this.(stack := rest, calls := calls + [c])
      else if rest == [] then Crash()
      else this.(stack := [world.result(calls + [c])] + rest[1..], calls := calls + [c])
    }

    function ArgLong(k: nat): Long
      requires k + 2 <= |stack|
    {
      LongOf(stack[k], stack[k+1])
    }

    /** The Display Manager takes its parameter size, in words, in the high byte of the selector. */
    function DisplayDispatch(world: World): Machine {
      var n := d0 / 0x100;
      if n > |stack| then Crash()
      else if d0 == 0x0206 then
        Called(world, DMBeginConfigureDisplays(ArgLong(0)), n, true)
      else if d0 == 0x0a11 then
        Called(world, DMSetDisplayMode(ArgLong(8), ArgLong(6), ArgLong(4), ArgLong(2), ArgLong(0)), n, true)
      else if d0 == 0x0207 then
        Called(world, DMEndConfigureDisplays(ArgLong(0)), n, true)
      else if d0 == 0x0202 && |stack| >= 6 && ArgLong(0) == Wrap32(base - 2 * (|stack| - 2)) then
        // the Rect the argument points at is the next thing on the stack
        Called(world, DMDrawDesktopRect(stack[2], stack[3], stack[4], stack[5]), n, false)
      else Crash()
    }

    function Toolbox(world: World, trap: Trap): Machine {
      if trap == 0xabeb then DisplayDispatch(world)
      else if |stack| < 2 then Crash()
      else if trap == 0xa91f then Called(world, SelectWindow(ArgLong(0)), 2, false)
      else if trap == 0xa920 then Called(world, BringToFront(ArgLong(0)), 2, false)
      else if trap == 0xa92d then Called(world, CloseWindow(ArgLong(0)), 2, false)
      else if trap == 0xa874 then Called(world, GetPort(ArgLong(0)), 2, false)
      else if trap == 0xa873 then Called(world, SetPort(ArgLong(0)), 2, false)
      else if trap == 0xa928 then Called(world, InvalRect(ArgLong(0)), 2, false)
      else if |stack| < 3 then Crash()
      else if trap == 0xa91c then Called(world, HiliteWindow(ArgLong(1), stack[0]), 3, false)
      else if |stack| < 5 then Crash()
      else if trap == 0xa91d then Called(world, SizeWindow(ArgLong(3), stack[2], stack[1], stack[0]), 5, false)
      else if trap == 0xa91b then Called(world, MoveWindow(ArgLong(3), stack[2], stack[1], stack[0]), 5, false)
      else Crash()
    }

    /** One instruction.  A machine that has stopped stays stopped. */
    function Do(world: World, i: Instr): Machine {
      if status != Running then this else
      match i
      case PushLong(v) => Push(LongWords(v))
      case PushWord(w) => Push([w])
      case PushAddress(a) => Push(LongWords(a))
      case PushContents(a) => Push(LongWords(world.contents(calls, a)))
      case ClearWord => Push([0])
      case ClearLong => Push([0, 0])
      case LoadD0(w) => this.(d0 := w)
      case PopD0 => if stack == [] then Crash() else this.(d0 := stack[0], stack := stack[1..])
      case PushStackPointer => Push(LongWords(SP()))
      case DropEight => if |stack| < 4 then Crash() else this.(stack := stack[4..])
      case StoreWord(w, a) => this.(stores := stores + [(a, w)])
      case Return => if stack == [] then this.(status := Returned) else Crash()
      case ALine(t) => Toolbox(world, t)
    }

    function DoAll(world: World, prog: seq<Instr>): Machine
      decreases |prog|
    {
      if prog == [] then this else Do(world, prog[0]).DoAll(world, prog[1..])
    }
  }

  /** Fetches and executes up to `fuel` instructions of `code` from word `pc`. */
  function Run(world: World, code: seq<Word>, pc: nat, m: Machine, fuel: nat): Machine
    decreases fuel
  {
    if fuel == 0 || m.status != Running then m
    else match Decode(code, pc)
      case None => m.Crash()
      case Some((i, next)) => Run(world, code, next, m.Do(world, i), fuel - 1)
  }

  lemma DecodeEncode(i: Instr, code: seq<Word>, k: nat)
    requires k + |Encode(i)| <= |code|
    requires code[k..k + |Encode(i)|] == Encode(i)
    ensures Decode(code, k) == Some((i, k + |Encode(i)|))
  {
    var e := Encode(i);
    forall j | 0 <= j < |e| ensures code[k + j] == e[j] {
      assert code[k..k + |e|][j] == e[j];
    }
    assert code[k] == e[0];
    if |e| > 1 { assert code[k + 1] == e[1]; }
    if |e| > 2 { assert code[k + 2] == e[2]; }
    if |e| > 3 { assert code[k + 3] == e[3]; }
  }

  lemma EncodeAllAppend(a: seq<Instr>, b: seq<Instr>)
    ensures EncodeAll(a + b) == EncodeAll(a) + EncodeAll(b)
  {
    if a == [] {
      assert a + b == b;
    } else {
      assert (a + b)[1..] == a[1..] + b;
      EncodeAllAppend(a[1..], b);
    }
  }

  lemma EncodeOne(i: Instr)
    ensures EncodeAll([i]) == Encode(i)
  {
  }

  lemma EncodeTwo(a: Instr, b: Instr)
    ensures EncodeAll([a, b]) == Encode(a) + Encode(b)
  {
    EncodeAllAppend([a], [b]);
    assert [a, b] == [a] + [b];
    EncodeOne(a);
    EncodeOne(b);
  }

  lemma EncodeThree(a: Instr, b: Instr, c: Instr)
    ensures EncodeAll([a, b, c]) == Encode(a) + Encode(b) + Encode(c)
  {
    EncodeAllAppend([a, b], [c]);
    assert [a, b, c] == [a, b] + [c];
    EncodeTwo(a, b);
    EncodeOne(c);
  }

  lemma EncodeFour(a: Instr, b: Instr, c: Instr, d: Instr)
    ensures EncodeAll([a, b, c, d]) == Encode(a) + Encode(b) + Encode(c) + Encode(d)
  {
    EncodeAllAppend([a, b], [c, d]);
    assert [a, b, c, d] == [a, b] + [c, d];
    EncodeTwo(a, b);
    EncodeTwo(c, d);
  }

  lemma EncodeFive(a: Instr, b: Instr, c: Instr, d: Instr, e: Instr)
    ensures EncodeAll([a, b, c, d, e]) == Encode(a) + Encode(b) + Encode(c) + Encode(d) + Encode(e)
  {
    EncodeAllAppend([a, b, c, d], [e]);
    assert [a, b, c, d, e] == [a, b, c, d] + [e];
    EncodeFour(a, b, c, d);
    EncodeOne(e);
  }

  // Appending piece by piece is appending the whole.

  lemma AppendThree(s: seq<Word>, a: seq<Word>, b: seq<Word>, c: seq<Word>)
    ensures s + a + b + c == s + (a + b + c)
  {
  }

  lemma AppendFour(s: seq<Word>, a: seq<Word>, b: seq<Word>, c: seq<Word>, d: seq<Word>)
    ensures s + a + b + c + d == s + (a + b + c + d)
  {
    AppendThree(s, a, b, c);
    assert s + (a + b + c) + d == s + ((a + b + c) + d);
  }

  lemma AppendFive(s: seq<Word>, a: seq<Word>, b: seq<Word>, c: seq<Word>, d: seq<Word>, e: seq<Word>)
    ensures s + a + b + c + d + e == s + (a + b + c + d + e)
  {
    AppendFour(s, a, b, c, d);
    assert s + (a + b + c + d) + e == s + ((a + b + c + d) + e);
  }

  lemma {:induction false} DoAllAppend(m: Machine, world: World, a: seq<Instr>, b: seq<Instr>)
    ensures m.DoAll(world, a + b) == m.DoAll(world, a).DoAll(world, b)
    decreases |a|
  {
    if a == [] {
      assert a + b == b;
    } else {
      assert (a + b)[1..] == a[1..] + b;
      DoAllAppend(m.Do(world, a[0]), world, a[1..], b);
    }
  }

  lemma {:induction false} StoppedStays(m: Machine, world: World, prog: seq<Instr>)
    requires m.status != Running
    ensures m.DoAll(world, prog) == m
    decreases |prog|
  {
    if prog != [] { StoppedStays(m, world, prog[1..]); }
  }

  lemma SplitSlice(code: seq<Word>, pc: nat, a: seq<Word>, b: seq<Word>)
    requires pc + |a| + |b| <= |code| && code[pc..pc + |a| + |b|] == a + b
    ensures code[pc..pc + |a|] == a
    ensures code[pc + |a|..pc + |a| + |b|] == b
  {
    assert code[pc..pc + |a|] == code[pc..pc + |a| + |b|][..|a|];
    assert code[pc + |a|..pc + |a| + |b|] == code[pc..pc + |a| + |b|][|a|..];
  }

  lemma RunStep(world: World, code: seq<Word>, pc: nat, m: Machine, fuel: nat, i: Instr, next: nat)
    requires fuel > 0 && m.status == Running && Decode(code, pc) == Some((i, next))
    ensures Run(world, code, pc, m, fuel) == Run(world, code, next, m.Do(world, i), fuel - 1)
  {
  }

  /**
    Machine code and instructions agree: executing the words that encode `prog`,
    wherever they stand in `code` and whatever follows them, is executing `prog`.
   */
  lemma {:induction false} RunExecutesInstructions(world: World, code: seq<Word>, pc: nat, m: Machine, prog: seq<Instr>)
    requires pc + |EncodeAll(prog)| <= |code|
    requires code[pc..pc + |EncodeAll(prog)|] == EncodeAll(prog)
    ensures Run(world, code, pc, m, |prog|) == m.DoAll(world, prog)
    decreases |prog|
  {
    hide Decode, Encode, Machine.Do;
    if prog == [] {
    } else if m.status != Running {
      StoppedStays(m, world, prog);
    } else {
      SplitSlice(code, pc, Encode(prog[0]), EncodeAll(prog[1..]));
      DecodeEncode(prog[0], code, pc);
      RunStep(world, code, pc, m, |prog|, prog[0], pc + |Encode(prog[0])|);
      RunExecutesInstructions(world, code, pc + |Encode(prog[0])|, m.Do(world, prog[0]), prog[1..]);
    }
  }
}
