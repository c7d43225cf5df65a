/**
  The host's side of the safe point as the code keeps it: a queue of window
  operations, the shared bytes in guest memory, and the assembler.  Each method
  is proved to do what the function of SafePoint says.
 */
module FilterHook {
  import opened GuestMemory
  import Machine68k
  import opened W = WindowCalls
  import S = SafePoint
  import FilterStub

  /** The byte of low memory that holds back the cursor. */
  const CRSR_BUSY := 0x8cd

  lemma Associates(a: seq<WindowOp>, op: WindowOp, rest: seq<WindowOp>)
    ensures a + ([op] + rest) == (a + [op]) + rest
  {
  }

  /** A pending screen change asks for a size not in force. */
  predicate ChangesSize(h: S.Host) {
    var (w, t) := S.Geometry(h.pending);
    w > 0 && t > 0 && !(w == h.width && t == h.height)
  }

  /**
    Guest memory once a screen change has been dealt with: the Display Manager is
    given a fresh state and the depth, for the routine to use; without it the
    switch leaves memory `after`, and the cursor is let go.
   */
  function Arranged(h: S.Host, v: S.Video, m: Memory, after: Memory): Memory {
    if !ChangesSize(h) then m
    else if v.manager then m.Write32(h.base + DM_STATE, 0).Write32(h.base + DM_DEPTH, v.depth)
    else after.Write8(CRSR_BUSY, 0)
  }

  /** The block that holds stub and routine is the same in both memories. */
  ghost predicate KeepsBlock(m: Memory, n: Memory, base: CodeBase) {
    && n.romBase == m.romBase && n.romSize == m.romSize
    && forall x :: base <= x < base + CODE_SIZE ==> n.Read8(x) == m.Read8(x)
  }

  function Lowered(m: Memory, base: CodeBase): Memory {
    m.Write8(base + FilterStub.BUSY, 0).Write8(base + FilterStub.FLAG, 0)
  }

  /** A switch without the Display Manager leaves our block alone. */
  ghost predicate SwitchSpares(h: S.Host, v: S.Video, m: Memory, after: Memory) {
    ChangesSize(h) && !v.manager ==> KeepsBlock(Lowered(m, h.base), after, h.base)
  }

  lemma BlockKeepsCode(m: Memory, n: Memory, base: CodeBase, words: seq<Word>)
    requires forall x :: base + FilterStub.FLAG <= x < base + CODE_SIZE ==> n.Read8(x) == m.Read8(x)
    requires CodeAt(m, base + SCRATCH, words) && 2 * |words| <= SCRATCH_MAX
    ensures CodeAt(n, base + SCRATCH, words)
  {
    forall k | 0 <= k < |words| ensures WordAt(n, base + SCRATCH, k) == words[k] {
      assert WordAt(m, base + SCRATCH, k) == words[k];
      assert n.Read8(base + SCRATCH + 2 * k) == m.Read8(base + SCRATCH + 2 * k);
      assert n.Read8(base + SCRATCH + 2 * k + 1) == m.Read8(base + SCRATCH + 2 * k + 1);
    }
  }

  lemma DisplayWords(m: Memory, base: CodeBase, depth: Long)
    ensures var n := m.Write32(base + DM_STATE, 0).Write32(base + DM_DEPTH, depth);
            && n.romBase == m.romBase && n.romSize == m.romSize
            && forall x :: base + FilterStub.FLAG <= x ==> n.Read8(x) == m.Read8(x)
  {
    hide Memory.Write32;
  }

  class Hook {
    const gen: WindowCode
    const ramSize: Long
    const active: bool
    var installed: bool
    var pending: seq<WindowOp>
    var stalled: nat
    var width: Int16
    var height: Int16
    ghost var scratch: seq<Machine68k.Instr> // the routine the scratch area holds
    ghost var serial: nat                    // how many have been put there

    constructor (gen: WindowCode, ramSize: Long, active: bool)
      ensures this.gen == gen && !installed && pending == [] && stalled == 0
      ensures Valid()
    {
      this.gen, this.ramSize, this.active := gen, ramSize, active;
      installed, pending, stalled, width, height := false, [], 0, 0, 0;
      scratch, serial := [], 0;
    }

    ghost predicate Valid()
      reads this, gen
    {
      installed ==>
        gen.codeBase > CRSR_BUSY && Ram(gen.memory, gen.codeBase, gen.codeBase + CODE_SIZE) && gen.Holds(scratch)
    }

    ghost function View(): S.Host
      reads this, gen
    {
      S.Host(installed, gen.codeBase, installed && gen.memory.Read8(gen.codeBase + FilterStub.FLAG) != 0,
             installed && gen.memory.Read8(gen.codeBase + FilterStub.BUSY) != 0,
             scratch, serial, pending, gen.known, stalled, gen.scratchSeq, width, height)
    }

    method WithoutResizes(ops: seq<WindowOp>) returns (kept: seq<WindowOp>)
      ensures kept == S.WithoutResizes(ops)
    {
      kept := [];
      assert ops[0..] == ops;
      for i := 0 to |ops|
        invariant S.WithoutResizes(ops) == kept + S.WithoutResizes(ops[i..])
      {
        ghost var rest := S.WithoutResizes(ops[i + 1..]);
        assert ops[i..][1..] == ops[i + 1..] && ops[i..][0] == ops[i];
        if ops[i].kind != ScreenResized {
          Associates(kept, ops[i], rest);
          kept := kept + [ops[i]];
        } else {
          assert S.WithoutResizes(ops[i..]) == [] + rest == rest;
        }
      }
    }

    method LastGeometry(ops: seq<WindowOp>) returns (w: Int16, h: Int16)
      ensures (w, h) == S.Geometry(ops)
    {
      w, h := 0, 0;
      ghost var seen: seq<WindowOp> := [];
      assert ops[0..] == ops;
      for i := 0 to |ops|
        invariant S.Resizes(ops) == seen + S.Resizes(ops[i..])
        invariant (w, h) == if seen == [] then (0, 0) else (seen[|seen| - 1].a, seen[|seen| - 1].b)
      {
        ghost var rest := S.Resizes(ops[i + 1..]);
        assert ops[i..][1..] == ops[i + 1..] && ops[i..][0] == ops[i];
        if ops[i].kind == ScreenResized {
          w, h := ops[i].a, ops[i].b;
          Associates(seen, ops[i], rest);
          seen := seen + [ops[i]];
        } else {
          assert S.Resizes(ops[i..]) == [] + rest == rest;
        }
      }
    }

    method WithMode(ops: seq<WindowOp>, mode: Long) returns (r: seq<WindowOp>)
      ensures r == S.WithMode(ops, mode)
    {
      r := [];
      assert ops[0..] == ops;
      for i := 0 to |ops|
        invariant S.WithMode(ops, mode) == r + S.WithMode(ops[i..], mode)
      {
        assert ops[i..][1..] == ops[i + 1..] && ops[i..][0] == ops[i];
        var op := if ops[i].kind == ScreenResized then ops[i].(window := mode) else ops[i];
        Associates(r, op, S.WithMode(ops[i + 1..], mode));
        r := r + [op];
      }
    }

    /**
      Deals with a screen change among the pending operations; `after` is what a
      plain switch leaves of guest memory.
     */
    method Prepare(v: S.Video, after: Memory) returns (ops: seq<WindowOp>)
      requires Valid() && installed
      requires ChangesSize(View()) && !v.manager ==> KeepsBlock(gen.memory, after, gen.codeBase)
      modifies this`width, this`height, gen`memory
      ensures Valid() && (ops, width, height) == S.Prepared(old(View()), v)
      ensures View() == old(View()).(width := width, height := height)
      ensures gen.memory == Arranged(old(View()), v, old(gen.memory), after)
    {
      hide S.WithoutResizes, S.WithMode, S.Geometry, Machine68k.EncodeAll, Memory.Write32, Memory.Write8,
          Memory.Read8, KeepsBlock, CodeAt;
      ops := pending;
      var w, h := LastGeometry(ops);
      if w > 0 && h > 0 {
        if w == width && h == height {
          ops := WithoutResizes(ops);
        } else if v.manager {
          SetDisplayWords(v.depth);
          ops := WithMode(ops, v.mode);
          width, height := w, h;
        } else {
          ops := WithoutResizes(ops);
          Switch(after);
          if v.switched {
            width, height := w, h;
          }
        }
      }
    }

    /** The words DMBeginConfigureDisplays and DMSetDisplayMode are called with. */
    method SetDisplayWords(depth: Long)
      requires Valid() && installed
      modifies gen`memory
      ensures Valid() && View() == old(View())
      ensures gen.memory == old(gen.memory).Write32(gen.codeBase + DM_STATE, 0).Write32(gen.codeBase + DM_DEPTH, depth)
    {
      hide Machine68k.EncodeAll, Memory.Write32, Memory.Read8, CodeAt;
      ghost var before := gen.memory;
      DisplayWords(before, gen.codeBase, depth);
      gen.memory := gen.memory.Write32(gen.codeBase + DM_STATE, 0);
      gen.memory := gen.memory.Write32(gen.codeBase + DM_DEPTH, depth);
      BlockKeepsCode(before, gen.memory, gen.codeBase, Machine68k.EncodeAll(scratch));
    }

    /** The cursor is held back while the driver switches and the geometry is copied. */
    method Switch(after: Memory)
      requires Valid() && installed && KeepsBlock(gen.memory, after, gen.codeBase)
      modifies gen`memory
      ensures Valid() && View() == old(View()) && gen.memory == after.Write8(CRSR_BUSY, 0)
    {
      hide Machine68k.EncodeAll;
      ghost var before := gen.memory;
      gen.memory := gen.memory.Write8(CRSR_BUSY, 1);
      gen.memory := after;
      gen.memory := gen.memory.Write8(CRSR_BUSY, 0);
      BlockKeepsCode(before, gen.memory, gen.codeBase, Machine68k.EncodeAll(scratch));
    }

    method PutByte(offset: nat, x: Byte)
      requires Valid() && installed && offset < SCRATCH
      modifies gen`memory
      ensures Valid() && gen.memory == old(gen.memory).Write8(gen.codeBase + offset, x)
      ensures gen.memory.Read8(gen.codeBase + offset) == x
      ensures SameOutside(old(gen.memory), gen.memory, gen.codeBase + offset, gen.codeBase + offset + 1)
    {
      hide Machine68k.EncodeAll;
      gen.memory := gen.memory.Write8(gen.codeBase + offset, x);
      CodeStays(old(gen.memory), gen.memory, gen.codeBase, offset, Machine68k.EncodeAll(scratch));
    }

    /** Assembles into the scratch area and raises the flag if anything was emitted. */
    method AssembleAndFlag(ops: seq<WindowOp>)
      requires Valid() && installed
      modifies gen, this`scratch, this`serial
      ensures Valid() && gen.codeBase == old(gen.codeBase) && gen.known == old(gen.known)
      ensures SameOutside(old(gen.memory), gen.memory, gen.codeBase + FilterStub.FLAG, gen.codeBase + CODE_SIZE)
      ensures gen.memory.Read8(gen.codeBase + FilterStub.BUSY) == old(gen.memory.Read8(gen.codeBase + FilterStub.BUSY))
      ensures var emitted := Fitting(gen.codeBase, WantedOps(ops, gen.known), 0);
              if emitted == [] then
                && gen.memory == old(gen.memory) && gen.scratchSeq == old(gen.scratchSeq)
                && scratch == old(scratch) && serial == old(serial)
              else
                && gen.scratchSeq == Bits16(old(gen.scratchSeq) + 1)
                && scratch == Routine(gen.codeBase, emitted, gen.scratchSeq) && serial == old(serial) + 1
                && gen.memory.Read8(gen.codeBase + FilterStub.FLAG) == 1
    {
      hide Fitting, WantedOps, Routine, Machine68k.EncodeAll;
      var ready := gen.Assemble(ops);
      if ready {
        scratch := Routine(gen.codeBase, Fitting(gen.codeBase, WantedOps(ops, gen.known), 0), gen.scratchSeq);
        serial := serial + 1;
        PutByte(FilterStub.FLAG, 1);
      }
    }

    /** Gives up on the routine in the way. */
    method ClearBytes()
      requires Valid() && installed
      modifies gen`memory
      ensures Valid() && View() == old(View()).(busy := false, flag := false)
      ensures SameOutside(old(gen.memory), gen.memory,
                          gen.codeBase + FilterStub.FLAG, gen.codeBase + FilterStub.FLAG + 2)
    {
      hide Machine68k.EncodeAll;
      PutByte(FilterStub.BUSY, 0);
      PutByte(FilterStub.FLAG, 0);
    }

    method AssemblePending(v: S.Video, after: Memory)
      requires Valid() && installed
      requires ChangesSize(View()) && !v.manager ==> KeepsBlock(gen.memory, after, gen.codeBase)
      modifies this, gen
      ensures Valid() && installed && gen.codeBase == old(gen.codeBase) && View() == S.Assembled(old(View()), v)
      ensures SameOutside(Arranged(old(View()), v, old(gen.memory), after), gen.memory,
                          gen.codeBase + FilterStub.FLAG, gen.codeBase + CODE_SIZE)
    {
      hide S.WithoutResizes, S.WithMode, S.Geometry, Fitting, WantedOps, Routine, Bits16, Machine68k.EncodeAll,
          Arranged, ChangesSize;
      var ops := Prepare(v, after);
      stalled, pending := 0, [];
      AssembleAndFlag(ops);
    }

    /** Toolbox_WindowSafePoint. */
    method WindowSafePoint(v: S.Video, after: Memory)
      requires Valid() && (installed ==> SwitchSpares(View(), v, gen.memory, after))
      modifies this, gen
      ensures Valid() && View() == S.Visit(old(View()), v)
      ensures var found := S.Found(old(View()));
              if found.Idle? || found.Blocked? then gen.memory == old(gen.memory)
              else SameOutside(Arranged(old(View()), v, old(gen.memory), after), gen.memory,
                               gen.codeBase + FilterStub.FLAG, gen.codeBase + CODE_SIZE)
    {
      hide S.Assembled, Machine68k.EncodeAll, ChangesSize, Arranged;
      if !installed || pending == [] {
        return;
      }
      ghost var h, m := View(), gen.memory;
      if gen.memory.Read8(gen.codeBase + FilterStub.BUSY) != 0
          || gen.memory.Read8(gen.codeBase + FilterStub.FLAG) != 0 {
        stalled := stalled + 1;
        if stalled < S.PATIENCE {
          return;
        }
        ClearBytes();
      }
      stalled := 0;
      assert View() == h.(busy := false, flag := false, stalled := 0);
      StalledDoesNotMatter(h, v);
      SameChange(h, View(), v, m, gen.memory, after);
      AssemblePending(v, after);
    }

    method QueueWindowOp(op: WindowOp)
      modifies this`pending
      ensures pending == if active && 0x1000 <= op.window < ramSize then S.Queued(old(pending), op) else old(pending)
    {
      if !active || op.window < 0x1000 || op.window >= ramSize {
        return;
      }
      if op.kind == Resize || op.kind == ResizeQuietly || op.kind == Move || op.kind == Invalidate {
        for i := 0 to |pending|
          invariant pending == old(pending)
          invariant forall j :: 0 <= j < i ==> !(pending[j].kind == op.kind && pending[j].window == op.window)
        {
          if pending[i].kind == op.kind && pending[i].window == op.window {
            pending := pending[i := pending[i].(a := op.a, b := op.b)];
            return;
          }
        }
      }
      pending := pending + [op];
    }

    method NotifyScreenResized(w: Int16, h: Int16)
      modifies this`pending
      ensures pending == S.Notified(old(pending), w, h)
    {
      for i := 0 to |pending|
        invariant pending == old(pending)
        invariant forall j :: 0 <= j < i ==> pending[j].kind != ScreenResized
      {
        if pending[i].kind == ScreenResized {
          pending := pending[i := pending[i].(a := w, b := h)];
          return;
        }
      }
      pending := pending + [WindowOp(ScreenResized, 0, w, h)];
    }

    /** Writes words from an address on. */
    method PutWords(at: int, words: seq<Word>)
      requires Ram(gen.memory, at, at + 2 * |words|)
      modifies gen`memory
      ensures CodeAt(gen.memory, at, words) && SameOutside(old(gen.memory), gen.memory, at, at + 2 * |words|)
    {
      for i := 0 to |words|
        invariant Ram(gen.memory, at, at + 2 * |words|)
        invariant CodeAt(gen.memory, at, words[..i]) && SameOutside(old(gen.memory), gen.memory, at, at + 2 * i)
      {
        ghost var before := gen.memory;
        gen.memory := gen.memory.Write16(at + 2 * i, words[i]);
        forall k | 0 <= k <= i ensures WordAt(gen.memory, at, k) == words[..i + 1][k] {
          if k < i {
            assert WordAt(before, at, k) == words[..i][k];
            assert gen.memory.Read8(at + 2 * k) == before.Read8(at + 2 * k);
            assert gen.memory.Read8(at + 2 * k + 1) == before.Read8(at + 2 * k + 1);
          }
        }
      }
      assert words[..|words|] == words;
    }

    method ClearShared(base: CodeBase)
      requires Ram(gen.memory, base, base + CODE_SIZE)
      modifies gen`memory
      ensures SameOutside(old(gen.memory), gen.memory, base + FilterStub.FLAG, base + SCRATCH + 2)
      ensures gen.memory.Read8(base + FilterStub.FLAG) == 0 && gen.memory.Read8(base + FilterStub.BUSY) == 0
      ensures gen.memory.Read16(base + SCRATCH) == 0x4e75
    {
      gen.memory := gen.memory.Write8(base + FilterStub.FLAG, 0);
      gen.memory := gen.memory.Write8(base + FilterStub.BUSY, 0);
      gen.memory := gen.memory.Write16(base + DONE, 0);
      gen.memory := gen.memory.Write16(base + SCRATCH, 0x4e75);
    }

    /** Sets up the code block in the memory the arena gave, if it is not set up. */
    method EnsureGuestCode(base: CodeBase)
      requires Valid() && (!installed ==> Ram(gen.memory, base, base + CODE_SIZE) && base > CRSR_BUSY)
      modifies gen`memory, gen`codeBase, this`installed, this`scratch, this`serial
      ensures Valid() && installed
      ensures old(installed) ==> View() == old(View()) && gen.memory == old(gen.memory)
      ensures !old(installed) ==>
                && View() == old(View()).(installed := true, base := base, flag := false, busy := false,
                                          scratch := [Machine68k.Return], serial := old(serial) + 1)
                && CodeAt(gen.memory, base, FilterStub.Words(base))
                && SameOutside(old(gen.memory), gen.memory, base, base + CODE_SIZE)
    {
      hide FilterStub.Words, Machine68k.EncodeAll, CodeAt;
      if installed { return; }
      gen.codeBase := base;
      PutWords(base, FilterStub.Words(base));
      ghost var code := gen.memory;
      ClearShared(base);
      StubStays(code, gen.memory, base, FilterStub.Words(base));
      scratch, serial, installed := [Machine68k.Return], serial + 1, true;
      OneReturn(gen.memory, base + SCRATCH);
    }

    method Reset()
      modifies this, gen`known, gen`scratchSeq
      ensures Valid()
      ensures View() == old(View()).(installed := false, flag := false, busy := false, pending := [], known := [],
                                     number := 0, width := 0, height := 0)
    {
      pending, width, height, installed := [], 0, 0, false;
      gen.known, gen.scratchSeq := [], 0;
    }
  }

  lemma SameWrite(m: Memory, n: Memory, a: int, v: Long, from: int, to: int)
    requires SameOutside(m, n, from, to)
    ensures SameOutside(m.Write32(a, v), n.Write32(a, v), from, to)
  {
  }

  lemma WiderOutside(m: Memory, n: Memory, from: int, to: int, wider: int)
    requires SameOutside(m, n, from, to) && to <= wider
    ensures SameOutside(m, n, from, wider)
  {
  }

  lemma SameEverywhere(m: Memory, from: int, to: int)
    ensures SameOutside(m, m, from, to)
  {
  }

  /** Lowering the bytes does not change which way a screen change is taken, nor what it does elsewhere. */
  lemma SameChange(h: S.Host, g: S.Host, v: S.Video, m: Memory, n: Memory, after: Memory)
    requires g == h.(busy := false, flag := false, stalled := 0) && SwitchSpares(h, v, m, after)
    requires SameOutside(m, n, h.base + FilterStub.FLAG, h.base + FilterStub.FLAG + 2)
            && Ram(m, h.base, h.base + CODE_SIZE)
    requires n.Read8(h.base + FilterStub.FLAG) == 0 && n.Read8(h.base + FilterStub.BUSY) == 0
    ensures ChangesSize(g) && !v.manager ==> KeepsBlock(n, after, g.base)
    ensures SameOutside(Arranged(h, v, m, after), Arranged(g, v, n, after),
                        h.base + FilterStub.FLAG, h.base + CODE_SIZE)
  {
    hide S.Geometry, Memory.Write8, Memory.Write32, SameOutside, KeepsBlock, Lowered;
    var from, to := h.base + FilterStub.FLAG, h.base + CODE_SIZE;
    WiderOutside(m, n, from, from + 2, to);
    SameWrite(m, n, h.base + DM_STATE, 0, from, to);
    SameWrite(m.Write32(h.base + DM_STATE, 0), n.Write32(h.base + DM_STATE, 0), h.base + DM_DEPTH, v.depth, from, to);
    SameEverywhere(after.Write8(CRSR_BUSY, 0), from, to);
    if ChangesSize(g) && !v.manager { LoweredBlock(m, n, after, h.base); }
  }

  lemma LoweredBlock(m: Memory, n: Memory, after: Memory, base: CodeBase)
    requires SameOutside(m, n, base + FilterStub.FLAG, base + FilterStub.FLAG + 2) && Ram(m, base, base + CODE_SIZE)
    requires n.Read8(base + FilterStub.FLAG) == 0 && n.Read8(base + FilterStub.BUSY) == 0
    requires KeepsBlock(Lowered(m, base), after, base)
    ensures KeepsBlock(n, after, base)
  {
  }

  lemma StalledDoesNotMatter(h: S.Host, v: S.Video)
    ensures S.Assembled(h.(stalled := 0), v) == S.Assembled(h, v)
    ensures S.Assembled(h.(busy := false, flag := false, stalled := 0), v)
            == S.Assembled(h.(busy := false, flag := false), v)
  {
    hide Fitting, WantedOps, Routine, Bits16, S.WithoutResizes, S.WithMode, S.Geometry;
  }

  lemma StubStays(m: Memory, n: Memory, base: CodeBase, words: seq<Word>)
    requires CodeAt(m, base, words) && 2 * |words| <= FilterStub.FLAG
    requires SameOutside(m, n, base + FilterStub.FLAG, base + SCRATCH + 2)
    ensures CodeAt(n, base, words)
  {
    forall k | 0 <= k < |words| ensures WordAt(n, base, k) == words[k] {
      assert WordAt(m, base, k) == words[k];
      assert n.Read8(base + 2 * k) == m.Read8(base + 2 * k);
      assert n.Read8(base + 2 * k + 1) == m.Read8(base + 2 * k + 1);
    }
  }

  lemma OneReturn(m: Memory, at: int)
    requires m.Read16(at) == 0x4e75
    ensures CodeAt(m, at, Machine68k.EncodeAll([Machine68k.Return])) && |Machine68k.EncodeAll([Machine68k.Return])| == 1
  {
    Machine68k.EncodeOne(Machine68k.Return);
    assert WordAt(m, at, 0) == 0x4e75;
  }

  lemma CodeStays(m: Memory, n: Memory, base: CodeBase, offset: nat, words: seq<Word>)
    requires offset < SCRATCH && SameOutside(m, n, base + offset, base + offset + 1) && CodeAt(m, base + SCRATCH, words)
    ensures CodeAt(n, base + SCRATCH, words)
  {
    forall k | 0 <= k < |words| ensures WordAt(n, base + SCRATCH, k) == words[k] {
      assert WordAt(m, base + SCRATCH, k) == words[k];
      assert n.Read8(base + SCRATCH + 2 * k) == m.Read8(base + SCRATCH + 2 * k);
      assert n.Read8(base + SCRATCH + 2 * k + 1) == m.Read8(base + SCRATCH + 2 * k + 1);
    }
  }
}
