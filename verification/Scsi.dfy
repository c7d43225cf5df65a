/**
  The SCSI Manager (scsi.cpp): transfer instruction blocks, which are programs
  in guest memory that modify themselves, and the bus phases around them.
 */
module Scsi {
  import opened GuestMemory

  /** A run of guest bytes. */
  datatype Extent = Extent(ptr: Long, len: Long) {
    function End(): int {
      ptr + len
    }
  }

  const TABLE_SIZE := 32768

  const NO_ERR := 0
  const SC_COMM_ERR := 2
  const SC_BAD_PARMS_ERR := 4
  const SC_PHASE_ERR := 5
  const SC_COMPARE_ERR := 6
  const SC_MGR_BUSY_ERR := 7
  const SC_SEQUENCE_ERR := 8
  const MEM_FULL_ERR := -108

  // -------------------------------------------- the scatter/gather table

  /** The byte addresses of one run, and of a list of runs one after another. */
  function Bytes(e: Extent): (s: seq<int>)
    ensures |s| == e.len
    ensures forall i :: 0 <= i < e.len ==> s[i] == e.ptr + i
  {
    seq(e.len, i => e.ptr + i)
  }

  function Flatten(runs: seq<Extent>): seq<int> {
    if runs == [] then [] else Flatten(runs[..|runs|-1]) + Bytes(runs[|runs|-1])
  }

  function Total(runs: seq<Extent>): nat {
    if runs == [] then 0 else Total(runs[..|runs|-1]) + runs[|runs|-1].len
  }

  predicate Adjoins(table: seq<Extent>, e: Extent) {
    table != [] && e.ptr == table[|table|-1].End()
  }

  /** A full table refuses a run that cannot be merged. */
  predicate Refused(table: seq<Extent>, e: Extent) {
    !Adjoins(table, e) && |table| == TABLE_SIZE
  }

  function Add(table: seq<Extent>, e: Extent): (t: seq<Extent>)
    requires !Refused(table, e)
  {
    if Adjoins(table, e) then
      var last := table[|table|-1];
      table[..|table|-1] + [last.(len := Wrap32(last.len + e.len))]
    else table + [e]
  }

  /** Merging would push a 32-bit entry length past its top. */
  predicate Overflows(table: seq<Extent>, e: Extent) {
    Adjoins(table, e) && table[|table|-1].len + e.len >= 0x1_0000_0000
  }

  lemma FlattenLength(runs: seq<Extent>)
    ensures |Flatten(runs)| == Total(runs)
  {
  }

  lemma SplitBytes(e: Extent, more: nat)
    requires e.len + more < 0x1_0000_0000 && e.End() < 0x1_0000_0000
    ensures Bytes(e.(len := e.len + more)) == Bytes(e) + Bytes(Extent(e.End(), more))
  {
  }

  /** Adding a run appends its bytes, unless a merged entry's length wraps; then it does not. */
  lemma AddAppendsBytes(table: seq<Extent>, e: Extent)
    requires !Refused(table, e)
    ensures Flatten(Add(table, e)) == Flatten(table) + Bytes(e) <==> !Overflows(table, e)
    ensures Total(Add(table, e)) == Total(table) + e.len - (if Overflows(table, e) then 0x1_0000_0000 else 0)
  {
    var t := Add(table, e);
    FlattenLength(t);
    FlattenLength(table);
    var front := t[..|t|-1];
    if Adjoins(table, e) {
      assert front == table[..|table|-1];
      if !Overflows(table, e) {
        SplitBytes(table[|table|-1], e.len);
      }
    } else {
      assert front == table;
    }
  }

  // ------------------------------------------------- executing a block

  datatype Outcome = Running | Done(code: Int16)

  /**
    The interpreter's whole state.  `runs` is the history: the runs named by
    the move instructions that have succeeded, in execution order.
   */
  datatype Tib = Tib(memory: Memory, pc: Long, table: seq<Extent>, total: Long, runs: seq<Extent>, outcome: Outcome)

  function Operands(t: Tib): (Word, Long, Long) {
    (t.memory.Read16(t.pc), t.memory.Read32(Wrap32(t.pc + 2)), t.memory.Read32(Wrap32(t.pc + 6)))
  }

  function Transfer(t: Tib, e: Extent): Tib {
    if Refused(t.table, e) then t.(outcome := Done(MEM_FULL_ERR))
    else t.(table := Add(t.table, e), total := Wrap32(t.total + e.len), runs := t.runs + [e])
  }

  /** One instruction of a transfer block. */
  function Step(t: Tib): Tib {
    if t.outcome != Running then t else
    var (cmd, ptr, len) := Operands(t);
    Interpret(t, cmd, ptr, len)
  }

  function Interpret(t: Tib, cmd: Word, ptr: Long, len: Long): Tib {
    var next := Wrap32(t.pc + 10);
    var u := t.(pc := next);
    match cmd
    case 1 => // scInc
      Transfer(u.(memory := t.memory.Write32(Wrap32(next - 8), Wrap32(ptr + len))), Extent(ptr, len))
    case 2 => // scNoInc
      Transfer(u, Extent(ptr, len))
    case 3 => // scAdd
      u.(memory := t.memory.Write32(ptr, Wrap32(t.memory.Read32(ptr) + len)))
    case 4 => // scMove
      u.(memory := t.memory.Write32(len, t.memory.Read32(ptr)))
    case 5 => // scLoop
      var left := Wrap32(len - 1);
      u.(memory := t.memory.Write32(Wrap32(next - 4), left),
         pc := if left > 0 then Wrap32(next + Signed32(ptr) - 10) else next)
    case 6 => u // scNop
    case 7 => u.(outcome := Done(NO_ERR)) // scStop
    case 8 => u.(outcome := Done(SC_COMPARE_ERR)) // scComp
    case _ => u.(outcome := Done(SC_BAD_PARMS_ERR))
  }

  function Steps(t: Tib, n: nat): Tib
    decreases n
  {
    if n == 0 then t else Steps(Step(t), n - 1)
  }

  // ----------------------------------------- what the table stands for

  /** No run since `from` overflowed an entry when it was merged. */
  predicate NoOverflow(table: seq<Extent>, runs: seq<Extent>)
    decreases |runs|
  {
    runs == [] ||
    (!Refused(table, runs[0]) && !Overflows(table, runs[0]) && NoOverflow(Add(table, runs[0]), runs[1..]))
  }

  /** The table that results from adding `runs` one by one. */
  ghost predicate Merges(table: seq<Extent>, runs: seq<Extent>, result: seq<Extent>)
    decreases |runs|
  {
    if runs == [] then result == table
    else !Refused(table, runs[0]) && Merges(Add(table, runs[0]), runs[1..], result)
  }

  lemma {:induction false} MergesThenAdd(table: seq<Extent>, runs: seq<Extent>, result: seq<Extent>, e: Extent)
    requires Merges(table, runs, result) && !Refused(result, e)
    ensures Merges(table, runs + [e], Add(result, e))
    decreases |runs|
  {
    if runs == [] {
      assert (runs + [e])[1..] == [];
    } else {
      assert (runs + [e])[1..] == runs[1..] + [e];
      MergesThenAdd(Add(table, runs[0]), runs[1..], result, e);
    }
  }

  lemma {:induction false} FlattenAppend(a: seq<Extent>, b: seq<Extent>)
    ensures Flatten(a + b) == Flatten(a) + Flatten(b)
    ensures Total(a + b) == Total(a) + Total(b)
    decreases |b|
  {
    hide Bytes;
    if b == [] {
      assert a + b == a;
    } else {
      var n := |b| - 1;
      assert (a + b)[..|a + b| - 1] == a + b[..n] && (a + b)[|a + b| - 1] == b[n];
      FlattenAppend(a, b[..n]);
      assert (Flatten(a) + Flatten(b[..n])) + Bytes(b[n]) == Flatten(a) + (Flatten(b[..n]) + Bytes(b[n]));
    }
  }

  lemma FlattenOne(e: Extent)
    ensures Flatten([e]) == Bytes(e) && Total([e]) == e.len
  {
    assert [e][..0] == [];
  }

  lemma FlattenCons(runs: seq<Extent>)
    requires runs != []
    ensures Flatten(runs) == Bytes(runs[0]) + Flatten(runs[1..])
    ensures Total(runs) == runs[0].len + Total(runs[1..])
  {
    hide Bytes, Flatten, Total;
    assert runs == [runs[0]] + runs[1..];
    FlattenAppend([runs[0]], runs[1..]);
    FlattenOne(runs[0]);
  }

  /**
    The merged table lists exactly the bytes of its runs, in order, if and only
    if no merge wrapped an entry's length; and it never lists more.
   */
  lemma {:induction false} MergedTableListsTheBytes(table: seq<Extent>, runs: seq<Extent>, result: seq<Extent>)
    requires Merges(table, runs, result)
    ensures Flatten(result) == Flatten(table) + Flatten(runs) <==> NoOverflow(table, runs)
    ensures Total(result) <= Total(table) + Total(runs)
    ensures Total(result) == Total(table) + Total(runs) <==> NoOverflow(table, runs)
    ensures Wrap32(Total(result)) == Wrap32(Total(table) + Total(runs))
    decreases |runs|
  {
    hide Bytes, Flatten, Total, Add, Overflows;
    FlattenLength(result);
    FlattenLength(table);
    FlattenLength(runs);
    if runs == [] {
      NoRuns();
      assert Flatten(table) + [] == Flatten(table);
    } else {
      AddAppendsBytes(table, runs[0]);
      MergedTableListsTheBytes(Add(table, runs[0]), runs[1..], result);
      FlattenCons(runs);
      if !Overflows(table, runs[0]) {
        assert (Flatten(table) + Bytes(runs[0])) + Flatten(runs[1..])
            == Flatten(table) + (Bytes(runs[0]) + Flatten(runs[1..]));
      }
    }
  }

  lemma NoRuns()
    ensures Flatten([]) == [] && Total([]) == 0
  {
  }

  /** A transaction of less than 4 GB cannot wrap an entry. */
  lemma {:induction false} SmallTransfersDoNotOverflow(table: seq<Extent>, runs: seq<Extent>, result: seq<Extent>)
    requires Merges(table, runs, result)
    requires Total(table) + Total(runs) < 0x1_0000_0000
    ensures NoOverflow(table, runs)
    decreases |runs|
  {
    hide Bytes, Flatten, Add;
    if runs != [] {
      AddAppendsBytes(table, runs[0]);
      FlattenCons(runs);
      SmallTransfersDoNotOverflow(Add(table, runs[0]), runs[1..], result);
    }
  }

  /** What execution keeps: table and total are those of the history. */
  ghost predicate Consistent(table: seq<Extent>, total: Long, base: seq<Extent>, runs: seq<Extent>) {
    Merges(base, runs, table) && total == Wrap32(Total(base) + Total(runs)) && |table| <= TABLE_SIZE
  }

  lemma StepKeepsConsistent(t: Tib, base: seq<Extent>, before: seq<Extent>)
    requires Consistent(t.table, t.total, base, before + t.runs)
    ensures Consistent(Step(t).table, Step(t).total, base, before + Step(t).runs)
  {
    hide Merges, Total, Add;
    var (cmd, ptr, len) := Operands(t);
    TransferKeepsConsistent(t.table, t.total, base, before + t.runs, Extent(ptr, len));
    assert (before + t.runs) + [Extent(ptr, len)] == before + (t.runs + [Extent(ptr, len)]);
  }

  lemma TransferKeepsConsistent(table: seq<Extent>, total: Long, base: seq<Extent>, runs: seq<Extent>, e: Extent)
    requires Consistent(table, total, base, runs)
    ensures !Refused(table, e) ==> Consistent(Add(table, e), Wrap32(total + e.len), base, runs + [e])
  {
    hide Merges, Flatten, Total, Bytes;
    if !Refused(table, e) {
      MergesThenAdd(base, runs, table, e);
      FlattenAppend(runs, [e]);
      FlattenOne(e);
    }
  }

  lemma {:induction false} StepsKeepConsistent(t: Tib, base: seq<Extent>, before: seq<Extent>, n: nat)
    requires Consistent(t.table, t.total, base, before + t.runs)
    ensures Consistent(Steps(t, n).table, Steps(t, n).total, base, before + Steps(t, n).runs)
    decreases n
  {
    hide Step, Merges;
    if n > 0 {
      StepKeepsConsistent(t, base, before);
      StepsKeepConsistent(Step(t), base, before, n - 1);
    }
  }

  /** The runs named by the move instructions that execution gets past, read off its states. */
  function Named(t: Tib, n: nat): seq<Extent>
    decreases n
  {
    if n == 0 then []
    else
      NamedNow(t) + Named(Step(t), n - 1)
  }

  function NamedNow(t: Tib): seq<Extent> {
    var (cmd, ptr, len) := Operands(t);
    if t.outcome == Running && (cmd == 1 || cmd == 2) && Step(t).outcome == Running then [Extent(ptr, len)] else []
  }

  lemma StepRecordsWhatIsNamed(t: Tib)
    ensures Step(t).runs == t.runs + NamedNow(t)
  {
    hide Add, Wrap32, Operands;
  }

  lemma {:induction false} HistoryIsWhatWasNamed(t: Tib, n: nat)
    ensures Steps(t, n).runs == t.runs + Named(t, n)
    decreases n
  {
    hide Step, NamedNow;
    if n > 0 {
      StepRecordsWhatIsNamed(t);
      HistoryIsWhatWasNamed(Step(t), n - 1);
    }
  }

  /**
    Executing a block from an empty table: after any number of instructions the
    table lists exactly the bytes of the runs named so far, in order, and the
    total is their length, provided that length is below 4 GB.
   */
  lemma BlockBuildsItsTable(t: Tib, n: nat)
    requires t.table == [] && t.runs == [] && t.total == 0
    requires Total(Named(t, n)) < 0x1_0000_0000
    ensures Flatten(Steps(t, n).table) == Flatten(Named(t, n))
    ensures Steps(t, n).total == Total(Steps(t, n).table) == Total(Named(t, n))
  {
    hide Flatten, Total, Step, Named;
    NoRuns();
    HistoryIsWhatWasNamed(t, n);
    StepsKeepConsistent(t, [], [], n);
    var e := Steps(t, n);
    assert [] + e.runs == e.runs == Named(t, n);
    SmallTransfersDoNotOverflow([], e.runs, e.table);
    MergedTableListsTheBytes([], e.runs, e.table);
  }

  // ------------------------------------------------------------- scLoop

  lemma {:induction false} StepsAdd(t: Tib, a: nat, b: nat)
    ensures Steps(t, a + b) == Steps(Steps(t, a), b)
    decreases a
  {
    hide Step;
    if a > 0 { StepsAdd(Step(t), a - 1, b); }
  }

  /** An scLoop stands at `at`, jumping by `jump`, with `count` in its counter word. */
  predicate LoopAt(m: Memory, at: int, jump: Long, count: Long) {
    m.Read16(at) == 5 && m.Read32(at + 2) == jump && m.Read32(at + 6) == count
  }

  /** Where an scLoop at `at` goes while its counter has not run out. */
  function Target(at: int, jump: Long): Long {
    Wrap32(at + Signed32(jump))
  }

  /**
    From `t` on, each of `count` passes of `k` instructions reaches the loop
    instruction and leaves it, counter included, as it found it.
   */
  predicate Passes(t: Tib, k: nat, at: int, jump: Long, count: nat)
    decreases count
  {
    count == 0 ||
    (var e := Steps(t, k);
     && count < 0x1_0000_0000
     && e.outcome == Running && e.pc == at && LoopAt(e.memory, at, jump, count)
     && Passes(Step(e), k, at, jump, count - 1))
  }

  lemma LoopStep(e: Tib, at: int, jump: Long, count: Long)
    requires 0 <= at && at + 10 < 0x1_0000_0000
    requires e.outcome == Running && e.pc == at && LoopAt(e.memory, at, jump, count) && count >= 1
    requires !e.memory.InRom(at + 6)
    ensures var s := Step(e);
            && s.outcome == Running && s.table == e.table && s.total == e.total && s.runs == e.runs
            && s.memory == e.memory.Write32(at + 6, Wrap32(count - 1))
            && s.pc == if count == 1 then at + 10 else Target(at, jump)
  {
    hide Wrap32, Signed32, Memory.Write32, Memory.Read32, Memory.Read16;
    WrapSmall(at + 2);
    WrapSmall(at + 6);
    WrapSmall(at + 10);
    WrapSmall(count - 1);
    assert Operands(e) == (5, jump, count);
    assert at + 10 + Signed32(jump) - 10 == at + Signed32(jump);
  }

  lemma WrapSmall(x: int)
    requires 0 <= x < 0x1_0000_0000
    ensures Wrap32(x) == x
  {
  }

  lemma {:induction false} StepsKeepRom(t: Tib, n: nat)
    ensures Steps(t, n).memory.romBase == t.memory.romBase && Steps(t, n).memory.romSize == t.memory.romSize
    decreases n
  {
    if n > 0 { StepsKeepRom(Step(t), n - 1); }
  }

  /**
    A loop each of whose passes leaves the loop instruction alone runs the body
    exactly as often as its counter says: pass i of `count` begins after i(k+1)
    instructions, at the loop's target (the first wherever execution was), and
    after the last the counter word is 0 and execution continues past the loop.
   */
  lemma {:induction false} PassesAreCounted(t: Tib, k: nat, at: int, jump: Long, count: nat)
    requires 0 <= at && at + 10 < 0x1_0000_0000 && !t.memory.InRom(at + 6)
    requires count >= 1 && Passes(t, k, at, jump, count)
    ensures forall i :: 1 <= i < count ==> PassBegins(t, k, i, Target(at, jump))
    ensures LoopEnds(t, k, count, at)
    decreases count
  {
    hide Step, Memory.Read32, Memory.Read16, Memory.Write32, Wrap32, Target, Instructions;
    var e := Steps(t, k);
    OnePassMore(1, k);
    NoInstructions(k);
    var s := Step(e);
    StepsKeepRom(t, k);
    LoopStep(e, at, jump, count);
    StepsAdd(t, k, 1);
    assert Steps(t, k + 1) == s;
    WrapSmall(count - 1);
    if count > 1 {
      StepsKeepRom(t, k + 1);
      PassesAreCounted(s, k, at, jump, count - 1);
      StepsAdd(t, k + 1, Instructions(count - 1, k));
      OnePassMore(count, k);
      forall i | 1 <= i < count ensures PassBegins(t, k, i, Target(at, jump)) {
        if i > 1 {
          assert PassBegins(s, k, i - 1, Target(at, jump));
          StepsAdd(t, k + 1, Instructions(i - 1, k));
          OnePassMore(i, k);
        }
      }
    }
  }

  /** The instructions of `count` passes, each of `k` and the scLoop. */
  function Instructions(count: nat, k: nat): nat {
    if count == 0 then 0 else k + 1 + Instructions(count - 1, k)
  }

  lemma NoInstructions(k: nat)
    ensures Instructions(0, k) == 0
  {
  }

  lemma OnePassMore(count: nat, k: nat)
    requires count >= 1
    ensures Instructions(count, k) == k + 1 + Instructions(count - 1, k)
  {
  }

  predicate LoopEnds(t: Tib, k: nat, count: nat, at: int) {
    var e := Steps(t, Instructions(count, k));
    e.outcome == Running && e.pc == at + 10 && e.memory.Read32(at + 6) == 0
  }

  predicate PassBegins(t: Tib, k: nat, i: nat, target: Long) {
    var p := Steps(t, Instructions(i, k));
    p.outcome == Running && p.pc == target
  }

  // ------------------------------------------------ straight-line bodies

  predicate WritesAway(a: Long, lo: int, hi: int) {
    a + 4 <= lo || hi <= a
  }

  /** An instruction that goes on to the next, and writes nothing between lo and hi but its own operand. */
  predicate BodyInstr(m: Memory, a: int, lo: int, hi: int) {
    var cmd := m.Read16(a);
    || cmd == 1 || cmd == 2 || cmd == 6
    || (cmd == 3 && WritesAway(m.Read32(a + 2), lo, hi))
    || (cmd == 4 && WritesAway(m.Read32(a + 6), lo, hi))
  }

  predicate BodyAt(m: Memory, start: int, i: nat, at: int) {
    BodyInstr(m, start + 10 * i, start, at + 10)
  }

  /** `k` such instructions from `start` on, and after them, at `at`, an scLoop back to `start`. */
  predicate Loop(m: Memory, start: int, k: nat, at: int, jump: Long, count: Long) {
    && 0 <= start && at == start + 10 * k && at + 10 < 0x1_0000_0000
    && Signed32(jump) == start - at && LoopAt(m, at, jump, count) && !m.InRom(at + 6)
    && forall i :: 0 <= i < k ==> BodyAt(m, start, i, at)
  }

  lemma SameInstr(m: Memory, n: Memory, start: int, i: nat, at: int)
    requires BodyAt(m, start, i, at)
    requires forall x :: start + 10 * i <= x < start + 10 * i + 10 ==> n.Read8(x) == m.Read8(x)
    ensures BodyAt(n, start, i, at)
  {
    var a := start + 10 * i;
    assert n.Read16(a) == m.Read16(a) && n.Read32(a + 2) == m.Read32(a + 2) && n.Read32(a + 6) == m.Read32(a + 6);
  }

  lemma SameLoopAt(m: Memory, n: Memory, at: int, jump: Long, count: Long)
    requires LoopAt(m, at, jump, count) && forall x :: at <= x < at + 10 ==> n.Read8(x) == m.Read8(x)
    ensures LoopAt(n, at, jump, count)
  {
    assert n.Read16(at) == m.Read16(at) && n.Read32(at + 2) == m.Read32(at + 2) && n.Read32(at + 6) == m.Read32(at + 6);
  }

  /** A write outside the loop leaves it as it is. */
  lemma WriteAwayKeepsLoop(m: Memory, a: Long, v: Long, start: int, k: nat, at: int, jump: Long, count: Long)
    requires Loop(m, start, k, at, jump, count) && WritesAway(a, start, at + 10)
    ensures Loop(m.Write32(a, v), start, k, at, jump, count)
  {
    hide LoopAt, BodyAt, Memory.Write32, Signed32;
    var n := m.Write32(a, v);
    SameLoopAt(m, n, at, jump, count);
    forall i | 0 <= i < k ensures BodyAt(n, start, i, at) { SameInstr(m, n, start, i, at); }
  }

  /** So does advancing the operand of an scInc in the body. */
  lemma OperandKeepsLoop(m: Memory, i: nat, v: Long, start: int, k: nat, at: int, jump: Long, count: Long)
    requires Loop(m, start, k, at, jump, count) && i < k && m.Read16(start + 10 * i) == 1
    ensures Loop(m.Write32(start + 10 * i + 2, v), start, k, at, jump, count)
  {
    hide LoopAt, Memory.Write32, Signed32, BodyInstr;
    var a := start + 10 * i;
    var n := m.Write32(a + 2, v);
    SameLoopAt(m, n, at, jump, count);
    forall j | 0 <= j < k ensures BodyAt(n, start, j, at) {
      if j == i {
        assert n.Read16(a) == m.Read16(a);
        MoveIsBodyInstr(n, a, start, at + 10);
      } else {
        SameInstr(m, n, start, j, at);
      }
    }
  }

  lemma MoveIsBodyInstr(m: Memory, a: int, lo: int, hi: int)
    requires m.Read16(a) == 1
    ensures BodyInstr(m, a, lo, hi)
  {
  }

  /** Counting down leaves the body. */
  lemma CountKeepsLoop(m: Memory, left: Long, start: int, k: nat, at: int, jump: Long, count: Long)
    requires Loop(m, start, k, at, jump, count)
    ensures Loop(m.Write32(at + 6, left), start, k, at, jump, left)
  {
    hide Memory.Write32, Signed32, BodyAt;
    var n := m.Write32(at + 6, left);
    assert n.Read16(at) == m.Read16(at) && n.Read32(at + 2) == m.Read32(at + 2);
    forall i | 0 <= i < k ensures BodyAt(n, start, i, at) { SameInstr(m, n, start, i, at); }
  }

  /** An instruction of the body goes on to the next, unless the table is full. */
  lemma BodyStep(t: Tib, i: nat, start: int, k: nat, at: int, jump: Long, count: Long)
    requires t.outcome == Running && i < k && t.pc == start + 10 * i && Loop(t.memory, start, k, at, jump, count)
    ensures var s := Step(t);
            || s.outcome == Done(MEM_FULL_ERR)
            || (s.outcome == Running && s.pc == start + 10 * (i + 1) && Loop(s.memory, start, k, at, jump, count))
  {
    hide Wrap32, Add, Refused, Memory.Read16, Memory.Read32, Memory.Write32, Loop;
    var a := start + 10 * i;
    LoopFits(t.memory, start, k, at, jump, count, i);
    WrapSmall(a + 2);
    WrapSmall(a + 6);
    WrapSmall(a + 10);
    var (cmd, ptr, len) := Operands(t);
    assert cmd == t.memory.Read16(a) && ptr == t.memory.Read32(a + 2) && len == t.memory.Read32(a + 6);
    if cmd == 1 {
      OperandKeepsLoop(t.memory, i, Wrap32(ptr + len), start, k, at, jump, count);
    } else if cmd == 3 {
      WriteAwayKeepsLoop(t.memory, ptr, Wrap32(t.memory.Read32(ptr) + len), start, k, at, jump, count);
    } else if cmd == 4 {
      WriteAwayKeepsLoop(t.memory, len, t.memory.Read32(ptr), start, k, at, jump, count);
    }
  }

  lemma LoopFits(m: Memory, start: int, k: nat, at: int, jump: Long, count: Long, i: nat)
    requires Loop(m, start, k, at, jump, count) && i < k
    ensures 0 <= start && start + 10 * i + 10 <= at < 0x1_0000_0000 - 10 && BodyInstr(m, start + 10 * i, start, at + 10)
  {
    assert BodyAt(m, start, i, at);
  }

  lemma {:induction false} BodyRuns(t: Tib, i: nat, start: int, k: nat, at: int, jump: Long, count: Long)
    requires t.outcome == Running && i <= k && t.pc == start + 10 * i && Loop(t.memory, start, k, at, jump, count)
    ensures var e := Steps(t, k - i);
            || e.outcome == Done(MEM_FULL_ERR)
            || (e.outcome == Running && e.pc == at && Loop(e.memory, start, k, at, jump, count))
    decreases k - i
  {
    hide Step, BodyAt, LoopAt;
    if i < k {
      BodyStep(t, i, start, k, at, jump, count);
      assert Steps(t, k - i) == Steps(Step(t), k - i - 1);
      if Step(t).outcome == Running {
        BodyRuns(Step(t), i + 1, start, k, at, jump, count);
      } else {
        StoppedStays(Step(t), k - i - 1);
      }
    }
  }

  /** As long as no move is refused, every pass comes back to the loop instruction as it was left. */
  lemma {:induction false} StraightBodyPasses(t: Tib, start: int, k: nat, at: int, jump: Long, count: nat)
    requires t.outcome == Running && t.pc == start && 1 <= count < 0x1_0000_0000
            && Loop(t.memory, start, k, at, jump, count)
    requires Steps(t, Instructions(count, k)).outcome != Done(MEM_FULL_ERR)
    ensures Passes(t, k, at, jump, count)
    decreases count
  {
    hide Step, Steps, Memory.Write32, Memory.Read16, Memory.Read32, BodyAt, Wrap32, LoopAt;
    BodyRuns(t, 0, start, k, at, jump, count);
    var e := Steps(t, k);
    var rest := Instructions(count - 1, k);
    OnePassMore(count, k);
    StepsAdd(t, k, 1 + rest);
    if e.outcome != Running { StoppedStays(e, 1 + rest); }
    LoopStep(e, at, jump, count);
    WrapSmall(count - 1);
    WrapSmall(start);
    CountKeepsLoop(e.memory, count - 1, start, k, at, jump, count);
    if count > 1 {
      StepsAdd(e, 1, rest);
      OneStep(e);
      StraightBodyPasses(Step(e), start, k, at, jump, count - 1);
    } else {
      NoPasses(Step(e), k, at, jump);
    }
  }

  lemma OneStep(t: Tib)
    ensures Steps(t, 1) == Step(t)
  {
    hide Step;
  }

  lemma NoPasses(t: Tib, k: nat, at: int, jump: Long)
    ensures Passes(t, k, at, jump, 0)
  {
  }

  /**
    An scLoop with counter n >= 1 behind a straight-line body whose writes miss
    the loop begins the body exactly n times, after every k + 1 instructions,
    leaves the counter word 0 and goes on behind the loop; or the scatter/gather
    table fills up on the way and the block ends with that error.
   */
  lemma LoopRunsItsBodyCountTimes(t: Tib, start: int, k: nat, at: int, jump: Long, count: nat)
    requires t.outcome == Running && t.pc == start && 1 <= count < 0x1_0000_0000
            && Loop(t.memory, start, k, at, jump, count)
    ensures || Steps(t, Instructions(count, k)).outcome == Done(MEM_FULL_ERR)
            || (LoopEnds(t, k, count, at) && forall i :: 0 <= i < count ==> PassBegins(t, k, i, start))
  {
    hide Step, Memory.Read16, Memory.Read32, BodyAt, LoopAt, Passes, LoopEnds, Wrap32;
    if Steps(t, Instructions(count, k)).outcome != Done(MEM_FULL_ERR) {
      StraightBodyPasses(t, start, k, at, jump, count);
      PassesAreCounted(t, k, at, jump, count);
      assert Target(at, jump) == start by { WrapSmall(start); }
      forall i | 0 <= i < count ensures PassBegins(t, k, i, start) {
      }
    }
  }

  /** A counter of 0 is not "no passes": it wraps and the loop goes on. */
  lemma CounterZeroWraps(e: Tib, at: int, jump: Long)
    requires 0 <= at && at + 10 < 0x1_0000_0000 && !e.memory.InRom(at + 6)
    requires e.outcome == Running && e.pc == at && LoopAt(e.memory, at, jump, 0)
    ensures Step(e).pc == Target(at, jump) && Step(e).memory.Read32(at + 6) == 0xffff_ffff
  {
    hide Wrap32, Signed32, Memory.Read32, Memory.Read16;
    WrapSmall(at + 2);
    WrapSmall(at + 6);
    WrapSmall(at + 10);
    assert Wrap32(-1) == 0xffff_ffff by { WrapMinusOne(); }
    assert at + 10 + Signed32(jump) - 10 == at + Signed32(jump);
  }

  lemma WrapMinusOne()
    ensures Wrap32(-1) == 0xffff_ffff
  {
  }

  /** `scInc(p, len); scLoop(-10, count); scStop` at `at`, in memory that can be written. */
  predicate IncLoop(m: Memory, at: int, p: Long, len: Long, count: Long) {
    && 0 <= at && at + 30 < 0x1_0000_0000
    && !m.InRom(at + 2) && !m.InRom(at + 16)
    && m.Read16(at) == 1 && m.Read32(at + 2) == p && m.Read32(at + 6) == len
    && LoopAt(m, at + 10, 0xffff_fff6, count)
    && m.Read16(at + 20) == 7
  }

  lemma OperandRewritten(m: Memory, at: int, p: Long, q: Long, len: Long, count: Long)
    requires IncLoop(m, at, p, len, count)
    ensures IncLoop(m.Write32(at + 2, q), at, q, len, count)
  {
    var n := m.Write32(at + 2, q);
    forall x | x < at + 2 || x >= at + 6 ensures n.Read8(x) == m.Read8(x) {}
    assert n.Read16(at) == m.Read16(at);
    assert n.Read32(at + 6) == m.Read32(at + 6);
    assert n.Read16(at + 10) == m.Read16(at + 10);
    assert n.Read32(at + 12) == m.Read32(at + 12);
    assert n.Read32(at + 16) == m.Read32(at + 16);
    assert n.Read16(at + 20) == m.Read16(at + 20);
  }

  lemma CounterRewritten(m: Memory, at: int, p: Long, len: Long, count: Long, left: Long)
    requires IncLoop(m, at, p, len, count)
    ensures IncLoop(m.Write32(at + 16, left), at, p, len, left)
  {
    var n := m.Write32(at + 16, left);
    forall x | x < at + 16 || x >= at + 20 ensures n.Read8(x) == m.Read8(x) {}
    assert n.Read16(at) == m.Read16(at);
    assert n.Read32(at + 2) == m.Read32(at + 2);
    assert n.Read32(at + 6) == m.Read32(at + 6);
    assert n.Read16(at + 10) == m.Read16(at + 10);
    assert n.Read32(at + 12) == m.Read32(at + 12);
    assert n.Read16(at + 20) == m.Read16(at + 20);
  }

  lemma IncLoopMove(t: Tib, at: int, p: Long, len: Long, count: Long)
    requires t.outcome == Running && t.pc == at && IncLoop(t.memory, at, p, len, count)
    requires p + len < 0x1_0000_0000
    requires !Refused(t.table, Extent(p, len))
    ensures var s := Step(t);
            && s.outcome == Running && s.pc == at + 10 && s.table == Add(t.table, Extent(p, len))
            && IncLoop(s.memory, at, p + len, len, count)
  {
    hide Wrap32, Add, Refused, Memory.Read16, Memory.Read32, Memory.Write32;
    WrapSmall(at + 2);
    WrapSmall(at + 6);
    WrapSmall(at + 10);
    WrapSmall(p + len);
    assert Operands(t) == (1, p, len);
    OperandRewritten(t.memory, at, p, p + len, len, count);
  }

  lemma IncLoopCount(s: Tib, at: int, p: Long, len: Long, count: Long)
    requires s.outcome == Running && s.pc == at + 10 && IncLoop(s.memory, at, p, len, count) && count >= 1
    ensures var u := Step(s);
            && u.outcome == Running && u.table == s.table
            && u.pc == (if count == 1 then at + 20 else at)
            && IncLoop(u.memory, at, p, len, count - 1)
  {
    hide Step, Memory.Read16, Memory.Read32, Memory.Write32;
    LoopStep(s, at + 10, 0xffff_fff6, count);
    CounterRewritten(s.memory, at, p, len, count, count - 1);
    WrapSmall(count - 1);
    WrapSmall(at);
    assert Signed32(0xffff_fff6) == -10;
  }

  lemma IncLoopStops(t: Tib, at: int, p: Long, len: Long)
    requires t.outcome == Running && t.pc == at + 20 && IncLoop(t.memory, at, p, len, 0)
    ensures Step(t).outcome == Done(NO_ERR) && Step(t).table == t.table && Step(t).memory == t.memory
  {
    hide Wrap32;
  }

  /** The block stopped, the table is the one run [start, end), the operand is `end` and the counter 0. */
  predicate EndsWithOneRun(e: Tib, at: int, start: Long, end: int) {
    && e.outcome == Done(NO_ERR)
    && |e.table| == 1 && e.table[0].ptr == start && e.table[0].End() == end
    && e.memory.Read32(at + 2) == end
    && e.memory.Read32(at + 16) == 0
  }

  lemma {:induction false} IncLoopRuns(t: Tib, at: int, start: Long, p: Long, len: Long, count: nat)
    requires t.outcome == Running && t.pc == at
    requires 1 <= count && p + count * len < 0x1_0000_0000 && count < 0x1_0000_0000
    requires IncLoop(t.memory, at, p, len, count)
    requires (t.table == [] && start == p) || (start <= p && t.table == [Extent(start, p - start)])
    ensures EndsWithOneRun(Steps(t, 2 * count + 1), at, start, p + count * len)
    decreases count
  {
    hide Step, Memory.Read16, Memory.Read32;
    assert len <= count * len && (count - 1) * len == count * len - len;
    var e := Extent(p, len);
    IncLoopMove(t, at, p, len, count);
    var s := Step(t);
    assert s.table == [Extent(start, p + len - start)] by {
      if t.table != [] { WrapSmall(p - start + len); }
    }
    IncLoopCount(s, at, p + len, len, count);
    var u := Step(s);
    assert Steps(t, 2 * count + 1) == Steps(u, 2 * (count - 1) + 1);
    if count == 1 {
      IncLoopStops(u, at, p + len, len);
      assert Steps(u, 1) == Step(u);
    } else {
      IncLoopRuns(u, at, start, p + len, len, count - 1);
    }
  }

  /**
    The standard block that moves `count` pieces of `len` bytes into consecutive
    memory yields the single run [p, p + count*len) and leaves its end in the
    move's own operand.
   */
  lemma IncLoopYieldsOneRun(t: Tib, at: int, p: Long, len: Long, count: nat)
    requires t.outcome == Running && t.pc == at && t.table == []
    requires 1 <= count < 0x1_0000_0000 && p + count * len < 0x1_0000_0000
    requires IncLoop(t.memory, at, p, len, count)
    ensures EndsWithOneRun(Steps(t, 2 * count + 1), at, p, p + count * len)
  {
    hide Step;
    IncLoopRuns(t, at, p, p, len, count);
  }

  // ---------------------------------------------------------- bus phases

  datatype Option<+T> = None | Some(value: T)

  datatype Phase = Free | Arbitrated | Selected | Transferring

  /** What an observer of the manager sees: bus grants, successful move instructions, commands sent to the device. */
  datatype Event =
    | Got
    | Moved(run: Extent)
    | Sent(total: Long, reading: bool, table: seq<Extent>)

  datatype Bus = Bus(memory: Memory, phase: Phase, target: int, status: Word, reading: bool,
                     table: seq<Extent>, total: Long, events: seq<Event>)

  /**
    The calls, with what the host side answers: is the target there, did the
    device succeed, what did it leave in memory.
   */
  datatype Op =
    | Reset
    | Get
    | Select(id: Int32, present: bool)
    | Cmd(cdb: seq<Byte>, accepted: bool)
    | Read(tib: Long, fuel: nat)
    | Write(tib: Long, fuel: nat)
    | Complete(message: Long, stat: Long, success: bool, scsiStat: Word, after: Memory)

  function MovedEvents(runs: seq<Extent>): (events: seq<Event>)
    ensures |events| == |runs| && forall i :: 0 <= i < |runs| ==> events[i] == Moved(runs[i])
  {
    seq(|runs|, i requires 0 <= i < |runs| => Moved(runs[i]))
  }

  function BlockStart(bus: Bus, tib: Long): Tib {
    Tib(bus.memory, tib, bus.table, bus.total, [], Running)
  }

  /** The bus after a block has reached state `t`. */
  function AfterBlock(bus: Bus, t: Tib): Bus {
    bus.(memory := t.memory, table := t.table, total := t.total, events := bus.events + MovedEvents(t.runs))
  }

  /** The code a block ends with; none while it is still going after `fuel` instructions. */
  function Answer(o: Outcome): Option<Int16> {
    match o
    case Running => None
    case Done(code) => Some(code)
  }

  function Execute(bus: Bus, tib: Long, fuel: nat, reading: bool): (Bus, Option<Int16>) {
    if bus.phase != Transferring then (bus, Some(SC_PHASE_ERR))
    else
      var t := Steps(BlockStart(bus, tib), fuel);
      (AfterBlock(bus.(reading := reading), t), Answer(t.outcome))
  }

  function Perform(bus: Bus, op: Op): (Bus, Option<Int16>) {
    match op
    case Reset => (bus.(phase := Free, status := 0, table := [], target := 8), Some(NO_ERR))
    case Get =>
      if bus.phase != Free then (bus, Some(SC_MGR_BUSY_ERR))
      else (bus.(phase := Arbitrated, status := 0x40, reading := false, table := [], total := 0,
                 events := bus.events + [Got]), Some(NO_ERR))
    case Select(id, present) =>
      if bus.phase != Arbitrated then (bus, Some(SC_SEQUENCE_ERR))
      else
        var b := if 0 <= id <= 7 then bus.(target := id) else bus;
        if 0 <= id <= 7 && present then (b.(phase := Selected, status := 0x6a), Some(NO_ERR))
        else (b.(phase := Free, status := 0), Some(SC_COMM_ERR))
    case Cmd(cdb, accepted) =>
      if bus.phase != Selected then (bus, Some(SC_PHASE_ERR))
      else if |cdb| != 6 && |cdb| != 10 && |cdb| != 12 then (bus, Some(SC_BAD_PARMS_ERR))
      else if !accepted then (bus.(phase := Free, status := 0), Some(SC_COMM_ERR))
      else (bus.(phase := Transferring, status := 0x6e), Some(NO_ERR))
    case Read(tib, fuel) => Execute(bus, tib, fuel, true)
    case Write(tib, fuel) => Execute(bus, tib, fuel, false)
    case Complete(message, stat, success, scsiStat, after) =>
      if bus.phase != Transferring then (bus.(memory := bus.memory.Write16(message, 0)), Some(SC_PHASE_ERR))
      else
        (bus.(memory := after.Write16(stat, scsiStat), phase := Free, status := 0,
              events := bus.events + [Sent(bus.total, bus.reading, bus.table)]),
         Some(if success then NO_ERR else SC_COMM_ERR))
  }

  function PerformAll(bus: Bus, ops: seq<Op>): Bus
    decreases |ops|
  {
    if ops == [] then bus else PerformAll(Perform(bus, ops[0]).0, ops[1..])
  }

  /** The runs moved since the bus was last granted. */
  function SinceGot(events: seq<Event>): seq<Extent> {
    if events == [] then []
    else
      var n := |events| - 1;
      match events[n]
      case Got => []
      case Moved(run) => SinceGot(events[..n]) + [run]
      case Sent(_, _, _) => SinceGot(events[..n])
  }

  /** The table handed to the device at event `k` is made of the runs moved since the grant before it. */
  ghost predicate HandedOver(events: seq<Event>, k: nat)
    requires k < |events|
  {
    events[k].Sent? ==> Consistent(events[k].table, events[k].total, [], SinceGot(events[..k]))
  }

  ghost predicate BusOk(bus: Bus) {
    && (bus.phase != Free ==> Consistent(bus.table, bus.total, [], SinceGot(bus.events)))
    && forall k :: 0 <= k < |bus.events| ==> HandedOver(bus.events, k)
  }

  lemma {:induction false} SinceGotMoved(events: seq<Event>, runs: seq<Extent>)
    ensures SinceGot(events + MovedEvents(runs)) == SinceGot(events) + runs
    decreases |runs|
  {
    if runs == [] {
      assert events + MovedEvents(runs) == events;
    } else {
      var n := |runs| - 1;
      SinceGotMoved(events, runs[..n]);
      var all := events + MovedEvents(runs);
      assert all[..|all| - 1] == events + MovedEvents(runs[..n]);
      assert runs == runs[..n] + [runs[n]];
    }
  }

  lemma HandedOverEarlier(events: seq<Event>, more: seq<Event>)
    requires forall k :: 0 <= k < |events| ==> HandedOver(events, k)
    requires forall k :: 0 <= k < |more| && more[k].Sent? ==>
               k == 0 && |more| == 1 && HandedOver(events + more, |events|)
    ensures forall k :: 0 <= k < |events + more| ==> HandedOver(events + more, k)
  {
    forall k | 0 <= k < |events + more| ensures HandedOver(events + more, k) {
      if k < |events| {
        assert HandedOver(events, k);
        assert (events + more)[..k] == events[..k];
      } else {
        assert (events + more)[k] == more[k - |events|];
      }
    }
  }

  lemma BlockKeepsBusOk(bus: Bus, tib: Long, fuel: nat, reading: bool)
    requires BusOk(bus) && bus.phase != Free
    ensures BusOk(AfterBlock(bus.(reading := reading), Steps(BlockStart(bus, tib), fuel)))
  {
    hide Step, Steps, Consistent, SinceGot;
    var since := SinceGot(bus.events);
    var t := Steps(BlockStart(bus, tib), fuel);
    assert since + [] == since;
    StepsKeepConsistent(BlockStart(bus, tib), [], since, fuel);
    SinceGotMoved(bus.events, t.runs);
    HandedOverEarlier(bus.events, MovedEvents(t.runs));
  }

  lemma EventKeepsHandedOver(bus: Bus, e: Event)
    requires BusOk(bus)
    requires e.Sent? ==> bus.phase != Free && e.table == bus.table && e.total == bus.total
    ensures forall k :: 0 <= k < |bus.events + [e]| ==> HandedOver(bus.events + [e], k)
    ensures e == Got ==> SinceGot(bus.events + [e]) == []
  {
    hide Consistent;
    var more := bus.events + [e];
    assert more[..|bus.events|] == bus.events;
    HandedOverEarlier(bus.events, [e]);
  }

  lemma EmptyTableConsistent()
    ensures Consistent([], 0, [], [])
  {
  }

  lemma PerformKeepsBusOk(bus: Bus, op: Op)
    requires BusOk(bus)
    ensures BusOk(Perform(bus, op).0)
  {
    hide Steps, Consistent, SinceGot, HandedOver;
    match op
    case Get =>
      EventKeepsHandedOver(bus, Got);
      EmptyTableConsistent();
    case Read(tib, fuel) => if bus.phase != Free { BlockKeepsBusOk(bus, tib, fuel, true); }
    case Write(tib, fuel) => if bus.phase != Free { BlockKeepsBusOk(bus, tib, fuel, false); }
    case Complete(_, _, _, _, _) =>
      if bus.phase != Free { EventKeepsHandedOver(bus, Sent(bus.total, bus.reading, bus.table)); }
    case _ =>
  }

  /**
    In any run of SCSI Manager calls from a free bus, every table handed to a
    device merges exactly the runs moved since the bus was granted, and the
    length handed over with it is theirs modulo 2^32.
   */
  lemma {:induction false} TransactionsHandOverTheirOwnRuns(bus: Bus, ops: seq<Op>)
    requires BusOk(bus)
    ensures BusOk(PerformAll(bus, ops))
    decreases |ops|
  {
    hide Perform;
    if ops != [] {
      PerformKeepsBusOk(bus, ops[0]);
      TransactionsHandOverTheirOwnRuns(Perform(bus, ops[0]).0, ops[1..]);
    }
  }

  /**
    So, below 4 GB a transaction, the device is given exactly the bytes the
    blocks named, in order, and their exact number; and it is given exactly
    those bytes if and only if no merge wrapped an entry.
   */
  lemma DeviceGetsExactlyTheBytesMoved(start: Bus, ops: seq<Op>, k: nat)
    requires start.phase == Free && start.events == []
    requires k < |PerformAll(start, ops).events| && PerformAll(start, ops).events[k].Sent?
    ensures var events := PerformAll(start, ops).events;
            var sent, runs := events[k], SinceGot(events[..k]);
            && (Flatten(sent.table) == Flatten(runs) <==> NoOverflow([], runs))
            && sent.total == Wrap32(Total(runs))
            && (Total(runs) < 0x1_0000_0000 ==>
                  Flatten(sent.table) == Flatten(runs) && sent.total == |Flatten(runs)|)
  {
    hide Perform, PerformAll, Flatten, Total, Merges, SinceGot;
    TransactionsHandOverTheirOwnRuns(start, ops);
    var events := PerformAll(start, ops).events;
    assert HandedOver(events, k);
    var sent, runs := events[k], SinceGot(events[..k]);
    NoRuns();
    MergedTableListsTheBytes([], runs, sent.table);
    FlattenLength(runs);
    if Total(runs) < 0x1_0000_0000 {
      SmallTransfersDoNotOverflow([], runs, sent.table);
    }
  }

  // --------------------------------------------------- the manager itself

  lemma {:induction false} StoppedStays(t: Tib, n: nat)
    requires t.outcome != Running
    ensures Steps(t, n) == t
    decreases n
  {
    if n > 0 { StoppedStays(t, n - 1); }
  }

  class ScsiManager {
    var memory: Memory
    var phase: Phase
    var targetId: int
    var fakeStatus: Word
    var reading: bool
    const sg: array<Extent>    // scatter/gather table: pointer and length of each entry
    var sgIndex: int           // first unused entry
    var sgTotal: Long
    ghost var events: seq<Event>

    ghost predicate Valid()
      reads this
    {
      sg.Length == TABLE_SIZE && 0 <= sgIndex <= TABLE_SIZE
    }

    function Table(): seq<Extent>
      reads this, sg
      requires 0 <= sgIndex <= sg.Length
    {
      sg[..sgIndex]
    }

    ghost function View(): Bus
      reads this, sg
      requires Valid()
    {
      Bus(memory, phase, targetId, fakeStatus, reading, Table(), sgTotal, events)
    }

    constructor (m: Memory)
      ensures Valid() && fresh(sg)
      ensures View() == Bus(m, Free, 0, 0, false, [], 0, [])
    {
      sg := new Extent[TABLE_SIZE](_ => Extent(0, 0));
      memory, phase, targetId, fakeStatus := m, Free, 0, 0;
      reading, sgIndex, sgTotal, events := false, 0, 0, [];
    }

    /** Adds a run to the table, merging it with the last entry when they adjoin; false when the table is full. */
    method AddRun(e: Extent) returns (ok: bool)
      requires Valid()
      modifies this`sgIndex, this`sgTotal, sg
      ensures Valid()
      ensures ok == !Refused(old(Table()), e)
      ensures ok ==> Table() == Add(old(Table()), e) && sgTotal == Wrap32(old(sgTotal) + e.len)
      ensures !ok ==> Table() == old(Table()) && sgTotal == old(sgTotal)
    {
      if sgIndex > 0 && e.ptr == sg[sgIndex-1].ptr + sg[sgIndex-1].len {
        sg[sgIndex-1] := sg[sgIndex-1].(len := Wrap32(sg[sgIndex-1].len + e.len));
      } else {
        if sgIndex == TABLE_SIZE {
          return false;
        }
        sg[sgIndex] := e;
        sgIndex := sgIndex + 1;
      }
      sgTotal := Wrap32(sgTotal + e.len);
      return true;
    }

    /** One instruction with its operands already fetched; the answer is set when it ends the block. */
    method Interpret1(tib: Long, cmd: Word, ptr: Long, len: Long, ghost now: Tib)
        returns (next: Long, res: Option<Int16>)
      requires Valid() && now == Tib(memory, tib, Table(), sgTotal, now.runs, Running)
      modifies this`memory, this`sgIndex, this`sgTotal, this`events, sg
      ensures Valid()
      ensures var t := Interpret(now, cmd, ptr, len);
              && t == Tib(memory, next, Table(), sgTotal, t.runs, t.outcome)
              && res == Answer(t.outcome)
              && now.runs <= t.runs
              && events == old(events) + MovedEvents(t.runs[|now.runs|..])
    {
      hide Add, Refused, Signed32, Memory.Write32;
      next, res := Wrap32(tib + 10), None;
      ghost var moved: seq<Extent> := [];
      match cmd {
        case 1 =>
          memory := memory.Write32(Wrap32(next - 8), Wrap32(ptr + len));
          res, moved := Move(Extent(ptr, len));
        case 2 =>
          res, moved := Move(Extent(ptr, len));
        case 3 =>
          memory := memory.Write32(ptr, Wrap32(memory.Read32(ptr) + len));
        case 4 =>
          memory := memory.Write32(len, memory.Read32(ptr));
        case 5 =>
          var left := Wrap32(len - 1);
          memory := memory.Write32(Wrap32(next - 4), left);
          if left > 0 {
            next := Wrap32(next + Signed32(ptr) - 10);
          }
        case 6 =>
        case 7 =>
          res := Some(NO_ERR);
        case 8 =>
          res := Some(SC_COMPARE_ERR);
        case _ =>
          res := Some(SC_BAD_PARMS_ERR);
      }
      assert (now.runs + moved)[|now.runs|..] == moved;
      assert now.runs + [] == now.runs;
    }

    /** The shared part of scInc and scNoInc. */
    method Move(e: Extent) returns (res: Option<Int16>, ghost moved: seq<Extent>)
      requires Valid()
      modifies this`sgIndex, this`sgTotal, this`events, sg
      ensures Valid()
      ensures Refused(old(Table()), e) ==>
                res == Some(MEM_FULL_ERR) && moved == [] && Table() == old(Table()) && sgTotal == old(sgTotal)
      ensures !Refused(old(Table()), e) ==>
                res == None && moved == [e] && Table() == Add(old(Table()), e)
                    && sgTotal == Wrap32(old(sgTotal) + e.len)
      ensures events == old(events) + MovedEvents(moved)
    {
      var ok := AddRun(e);
      if !ok {
        return Some(MEM_FULL_ERR), [];
      }
      events := events + [Moved(e)];
      return None, [e];
    }

    /** Fetches the instruction at `tib` and interprets it. */
    method FetchAndInterpret(tib: Long, ghost now: Tib) returns (next: Long, res: Option<Int16>, ghost later: Tib)
      requires Valid() && now == Tib(memory, tib, Table(), sgTotal, now.runs, Running)
      modifies this`memory, this`sgIndex, this`sgTotal, this`events, sg
      ensures Valid() && later == Step(now) && later == Tib(memory, next, Table(), sgTotal, later.runs, later.outcome)
      ensures res == Answer(later.outcome) && now.runs <= later.runs
      ensures events == old(events) + MovedEvents(later.runs[|now.runs|..])
    {
      hide Step, Interpret, MovedEvents;
      var cmd := memory.Read16(tib);
      var at: int := tib;
      var ptr := memory.Read32(Wrap32(at + 2));
      var len := memory.Read32(Wrap32(at + 6));
      StepDefinition(now);
      next, res := Interpret1(tib, cmd, ptr, len, now);
      later := Step(now);
    }

    /** Executes up to `fuel` instructions of the block at `start`. */
    method ExecTib(start: Long, fuel: nat) returns (res: Option<Int16>)
      requires Valid()
      modifies this`memory, this`sgIndex, this`sgTotal, this`events, sg
      ensures Valid()
      ensures View() == AfterBlock(old(View()), Steps(BlockStart(old(View()), start), fuel))
      ensures res == Answer(Steps(BlockStart(old(View()), start), fuel).outcome)
    {
      hide Step, Interpret, MovedEvents;
      ghost var first := BlockStart(View(), start);
      ghost var now := first;
      ghost var before := events;
      var tib: Long := start;
      var n := 0;
      assert before + MovedEvents([]) == before by { NothingMoved(before); }
      while n < fuel
        invariant 0 <= n <= fuel
        invariant Valid()
        invariant now == Tib(memory, tib, Table(), sgTotal, now.runs, Running)
        invariant Steps(first, fuel) == Steps(now, fuel - n)
        invariant events == before + MovedEvents(now.runs)
        invariant phase == old(phase) && targetId == old(targetId) && fakeStatus == old(fakeStatus)
                && reading == old(reading)
      {
        ghost var was := now;
        tib, res, now := FetchAndInterpret(tib, now);
        MovedSplit(before, now.runs, |was.runs|);
        n := n + 1;
        if res != None {
          StoppedStays(now, fuel - n);
          return res;
        }
      }
      return None;
    }

    method Reset() returns (res: Int16)
      requires Valid()
      modifies this
      ensures Valid() && (View(), Some(res)) == Perform(old(View()), Op.Reset)
    {
      phase, fakeStatus, sgIndex, targetId := Free, 0, 0, 8;
      return NO_ERR;
    }

    method Get() returns (res: Int16)
      requires Valid()
      modifies this
      ensures Valid() && (View(), Some(res)) == Perform(old(View()), Op.Get)
    {
      if phase != Free {
        return SC_MGR_BUSY_ERR;
      }
      phase, fakeStatus, reading, sgIndex, sgTotal := Arbitrated, 0x40, false, 0, 0;
      events := events + [Got];
      return NO_ERR;
    }

    method Select(id: Int32, present: bool) returns (res: Int16)
      requires Valid()
      modifies this
      ensures Valid() && (View(), Some(res)) == Perform(old(View()), Op.Select(id, present))
    {
      if phase != Arbitrated {
        return SC_SEQUENCE_ERR;
      }
      if id >= 0 && id <= 7 {
        targetId := id;
        if present {
          phase, fakeStatus := Selected, 0x6a;
          return NO_ERR;
        }
      }
      phase, fakeStatus := Free, 0;
      return SC_COMM_ERR;
    }

    method Cmd(cdb: seq<Byte>, accepted: bool) returns (res: Int16)
      requires Valid()
      modifies this
      ensures Valid() && (View(), Some(res)) == Perform(old(View()), Op.Cmd(cdb, accepted))
    {
      if phase != Selected {
        return SC_PHASE_ERR;
      }
      if |cdb| != 6 && |cdb| != 10 && |cdb| != 12 {
        return SC_BAD_PARMS_ERR;
      }
      if !accepted {
        phase, fakeStatus := Free, 0;
        return SC_COMM_ERR;
      }
      phase, fakeStatus := Transferring, 0x6e;
      return NO_ERR;
    }

    method Read(tib: Long, fuel: nat) returns (res: Option<Int16>)
      requires Valid()
      modifies this, sg
      ensures Valid() && (View(), res) == Perform(old(View()), Op.Read(tib, fuel))
    {
      if phase != Transferring {
        return Some(SC_PHASE_ERR);
      }
      reading := true;
      res := ExecTib(tib, fuel);
    }

    method Write(tib: Long, fuel: nat) returns (res: Option<Int16>)
      requires Valid()
      modifies this, sg
      ensures Valid() && (View(), res) == Perform(old(View()), Op.Write(tib, fuel))
    {
      if phase != Transferring {
        return Some(SC_PHASE_ERR);
      }
      reading := false;
      res := ExecTib(tib, fuel);
    }

    /** Sends the command with the table built; `after` is guest memory as the device leaves it. */
    method Complete(message: Long, stat: Long, success: bool, scsiStat: Word, after: Memory) returns (res: Int16)
      requires Valid()
      modifies this
      ensures Valid() && (View(), Some(res)) == Perform(old(View()),
                                                        Op.Complete(message, stat, success, scsiStat, after))
    {
      memory := memory.Write16(message, 0);
      if phase != Transferring {
        return SC_PHASE_ERR;
      }
      events := events + [Sent(sgTotal, reading, Table())];
      memory := after.Write16(stat, scsiStat);
      phase, fakeStatus := Free, 0;
      res := if success then NO_ERR else SC_COMM_ERR;
    }
  }

  /** Step, unfolded. */
  lemma StepDefinition(t: Tib)
    requires t.outcome == Running
    ensures var (cmd, ptr, len) := Operands(t); Step(t) == Interpret(t, cmd, ptr, len)
  {
    hide Interpret;
  }

  lemma NothingMoved(before: seq<Event>)
    ensures before + MovedEvents([]) == before
  {
  }

  lemma MovedSplit(before: seq<Event>, runs: seq<Extent>, k: nat)
    requires k <= |runs|
    ensures before + MovedEvents(runs) == (before + MovedEvents(runs[..k])) + MovedEvents(runs[k..])
  {
  }
}
