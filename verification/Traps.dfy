/**
  The registry of hooked Toolbox traps (toolbox_traps.cpp): trampolines handed
  out from a pool in guest memory, found again from any program counter inside
  them, and put back after a machine reset.
 */
module Traps {
  import opened GuestMemory

  const MAX_TRAPS := 128
  const SLOT := 12
  const POOL := 1536 // MAX_TRAPS * SLOT
  const DISPATCH: Word := 0x7131
  const MOVE_A1_A7: Word := 0x2e49
  const JMP_A0: Word := 0x4ed0

  /** A registered trap; handler 0 is none. */
  datatype Desc = Desc(trap: Word, handler: nat, stub: Long, original: Long, installed: bool)

  /**
    The registry and the guest.  `slots` and `stale` are histories: what each
    slot of the pool was handed out for, and whether the machine was reset since.
   */
  datatype Sys = Sys(descs: seq<Desc>, base: Long, cursor: Long, installed: bool,
                     table: map<Word, Long>, memory: Memory, slots: seq<(Word, Long)>, stale: bool)

  function Find(descs: seq<Desc>, trap: Word): (k: nat)
    ensures k <= |descs|
    ensures k < |descs| ==> descs[k].trap == trap
    ensures forall j :: 0 <= j < k ==> descs[j].trap != trap
  {
    if descs == [] || descs[0].trap == trap then 0 else 1 + Find(descs[1..], trap)
  }

  function Entry(table: map<Word, Long>, trap: Word): Long {
    if trap in table then table[trap] else 0
  }

  function Without(descs: seq<Desc>, k: nat): seq<Desc>
    requires k < |descs|
  {
    descs[..k] + descs[k + 1..]
  }

  function Register(s: Sys, enabled: bool, trap: Word, handler: nat): Sys {
    if !enabled || handler == 0 || trap / 0x1000 != 0xa then s
    else
      var k := Find(s.descs, trap);
      if k < |s.descs| then s.(descs := s.descs[k := s.descs[k].(handler := handler)])
      else if |s.descs| >= MAX_TRAPS then s
      else s.(descs := s.descs + [Desc(trap, handler, 0, 0, false)])
  }

  function Unregister(s: Sys, trap: Word): Sys {
    var k := Find(s.descs, trap);
    if k == |s.descs| then s
    else
      var d := s.descs[k];
      s.(descs := Without(s.descs, k),
         table := if d.installed && d.original != 0 then s.table[d.trap := d.original] else s.table)
  }

  /** The 12 bytes of a trampoline. */
  function Trampoline(m: Memory, at: int, trap: Word, original: Long): Memory {
    m.Write16(at, DISPATCH).Write16(at + 2, MOVE_A1_A7).Write16(at + 4, JMP_A0)
     .Write16(at + 6, trap).Write32(at + 8, original)
  }

  /** A trampoline for this trap is in memory. */
  predicate HoldsTrampoline(m: Memory, at: int, trap: Word, original: Long) {
    && m.Read16(at) == DISPATCH && m.Read16(at + 2) == MOVE_A1_A7 && m.Read16(at + 4) == JMP_A0
    && m.Read16(at + 6) == trap && m.Read32(at + 8) == original
  }

  /** trap_table_still_ours. */
  predicate StillOurs(descs: seq<Desc>, table: map<Word, Long>, m: Memory) {
    descs != [] && (IsOurs(descs[0], table, m) || StillOurs(descs[1..], table, m))
  }

  predicate IsOurs(d: Desc, table: map<Word, Long>, m: Memory) {
    d.installed && d.stub != 0 && Entry(table, d.trap) == d.stub && m.Read16(d.stub) == DISPATCH
        && m.Read16(d.stub + 6) == d.trap
  }

  function Forgotten(descs: seq<Desc>): (r: seq<Desc>)
    ensures |r| == |descs|
    ensures forall i :: 0 <= i < |descs| ==> r[i] == descs[i].(stub := 0, original := 0, installed := false)
  {
    if descs == [] then [] else [descs[0].(stub := 0, original := 0, installed := false)] + Forgotten(descs[1..])
  }

  function Forget(s: Sys): Sys {
    s.(descs := Forgotten(s.descs), base := 0, cursor := 0, installed := false, slots := [])
  }

  predicate NoSlot(s: Sys) {
    s.base == 0 || Wrap32(s.cursor + SLOT) > Wrap32(s.base + POOL)
  }

  /** Hooks the k-th trap. */
  function Hook(s: Sys, k: nat): Sys
    requires k < |s.descs|
  {
    var d, slot := s.descs[k], s.cursor;
    var original := Entry(s.table, d.trap);
    s.(descs := s.descs[k := d.(stub := slot, original := original, installed := true)],
       cursor := Wrap32(slot + SLOT),
       memory := Trampoline(s.memory, slot, d.trap, original),
       table := s.table[d.trap := slot],
       slots := s.slots + [(d.trap, original)])
  }

  /** The loop of InstallAll from the k-th trap on; running out of slots ends it. */
  function HookFrom(s: Sys, k: nat): Sys
    requires k <= |s.descs|
    decreases |s.descs| - k
  {
    if k == |s.descs| then s
    else if s.descs[k].installed then HookFrom(s, k + 1)
    else if NoSlot(s) then
      s.(descs := s.descs[k := s.descs[k].(original := Entry(s.table, s.descs[k].trap), stub := 0)])
    else HookFrom(Hook(s, k), k + 1)
  }

  /** ToolboxTrap_InstallAll; `pool` is what NewPtrSysClear would return. */
  function InstallAll(s: Sys, enabled: bool, pool: Long): Sys {
    if !enabled || s.descs == [] then s
    else if s.installed && StillOurs(s.descs, s.table, s.memory) then s
    else
      var f := if s.installed then Forget(s) else s;
      var p := if f.base == 0 then f.(base := pool, cursor := pool) else f;
      if p.base == 0 then p else HookFrom(p, 0).(installed := true, stale := false)
  }

  /** A reset: the guest's trap table and memory are new. */
  function MachineReset(s: Sys, table: map<Word, Long>, memory: Memory): Sys {
    s.(table := table, memory := memory, stale := true)
  }

  // --------------------------------------------------------------- dispatch

  datatype Regs = Regs(d: seq<Long>, a: seq<Long>)

  type Registers = r: Regs | |r.d| == 8 && |r.a| == 8 witness Regs([0, 0, 0, 0, 0, 0, 0, 0], [0, 0, 0, 0, 0, 0, 0, 0])

  datatype Action = Passthrough | Replace

  /** What the handlers do: given its number, the trap, the registers and the original address. */
  type Handlers = (nat, Word, Registers, Long) -> (Action, Registers)

  function SetA(r: Registers, k: nat, v: Long): Registers
    requires k < 8
  {
    r.(a := r.a[k := v])
  }

  /** A0 the routine to run, A1 the stack to run it on. */
  function Through(r: Registers, original: Long): Registers {
    SetA(SetA(r, 0, original), 1, r.a[7])
  }

  /** stub_addr_from_pc. */
  function StubOf(s: Sys, pc: Long): Long {
    if s.base == 0 || pc < s.base || pc >= s.cursor then 0 else s.base + (pc - s.base) / SLOT * SLOT
  }

  function Dispatch(s: Sys, f: Handlers, pc: Long, r: Registers): Registers {
    var stub := StubOf(s, pc);
    if stub == 0 then r
    else
      var trap, original := s.memory.Read16(stub + 6), s.memory.Read32(stub + 8);
      var t, k := Through(r, original), Find(s.descs, trap);
      if k == |s.descs| || s.descs[k].handler == 0 then t
      else
        var (action, q) := f(s.descs[k].handler, trap, t, original);
        if action == Passthrough then Through(q, original) else q
  }

  // -------------------------------------------------------------- invariant

  predicate InPool(base: Long, a: Long) {
    base != 0 && base <= a < base + POOL
  }

  predicate PoolOk(s: Sys) {
    if s.base == 0 then s.cursor == 0 && s.slots == [] && !s.installed
    else
      && s.base + POOL + SLOT < 0x1_0000_0000 && s.cursor == s.base + SLOT * |s.slots|
      && |s.slots| <= MAX_TRAPS && s.installed
  }

  function SlotAddr(s: Sys, k: int): int {
    s.base + SLOT * k
  }

  /** An installed trap owns a slot handed out for it. */
  predicate OwnsSlot(s: Sys, d: Desc) {
    d.installed ==>
      && s.base != 0 && s.base <= d.stub < s.cursor && (d.stub - s.base) % SLOT == 0
      && SlotIndex(s, d.stub) < |s.slots|
      && s.slots[SlotIndex(s, d.stub)] == (d.trap, d.original)
  }

  function SlotIndex(s: Sys, stub: Long): nat
    requires stub >= s.base
  {
    (stub - s.base) / SLOT
  }

  ghost predicate DistinctTraps(descs: seq<Desc>) {
    forall i, j :: 0 <= i < j < |descs| ==> descs[i].trap != descs[j].trap
  }

  ghost predicate DistinctSlots(descs: seq<Desc>) {
    forall i, j :: 0 <= i < j < |descs| && descs[i].installed && descs[j].installed ==> descs[i].stub != descs[j].stub
  }

  ghost predicate SlotsHold(s: Sys) {
    forall k :: 0 <= k < |s.slots| ==> HoldsTrampoline(s.memory, SlotAddr(s, k), s.slots[k].0, s.slots[k].1)
  }

  ghost predicate OriginalsOutside(s: Sys) {
    forall k :: 0 <= k < |s.slots| ==> !InPool(s.base, s.slots[k].1)
  }

  /** Within the boot the hooks were installed in, the table goes through them. */
  ghost predicate TableOk(s: Sys) {
    !s.stale ==> forall d :: d in s.descs && d.installed ==> Entry(s.table, d.trap) == d.stub
  }

  ghost predicate Inv(s: Sys) {
    && |s.descs| <= MAX_TRAPS && DistinctTraps(s.descs) && DistinctSlots(s.descs)
    && PoolOk(s) && (forall d :: d in s.descs ==> OwnsSlot(s, d))
    && OriginalsOutside(s) && TableOk(s) && (!s.stale ==> SlotsHold(s))
  }

  /** A block the guest's heap has just allocated: in RAM, and nothing dispatches into it. */
  ghost predicate FreshPool(s: Sys, pool: Long) {
    pool != 0 ==>
      && pool + POOL + SLOT < 0x1_0000_0000
      && (s.memory.romSize == 0 || pool + POOL <= s.memory.romBase || s.memory.romBase + s.memory.romSize <= pool)
      && forall t: Word :: !InPool(pool, Entry(s.table, t))
  }

  // ----------------------------------------------------------- trampolines

  ghost predicate SameOutside(m: Memory, n: Memory, from: int, to: int) {
    forall x :: x < from || x >= to ==> n.Read8(x) == m.Read8(x)
  }

  lemma TrampolineHolds(m: Memory, at: int, trap: Word, original: Long)
    requires m.romSize == 0 || at + SLOT <= m.romBase || m.romBase + m.romSize <= at
    ensures var n := Trampoline(m, at, trap, original);
            HoldsTrampoline(n, at, trap, original) && SameOutside(m, n, at, at + SLOT) && n.romBase == m.romBase
                && n.romSize == m.romSize
  {
    hide Memory.Read32, Memory.Write16, Memory.Write32;
    var m1 := m.Write16(at, DISPATCH);
    var m2 := m1.Write16(at + 2, MOVE_A1_A7);
    var m3 := m2.Write16(at + 4, JMP_A0);
    var m4 := m3.Write16(at + 6, trap);
    var m5 := m4.Write32(at + 8, original);
    assert m5.Read16(at) == m4.Read16(at) == m3.Read16(at) == m2.Read16(at) == m1.Read16(at);
    assert m5.Read16(at + 2) == m4.Read16(at + 2) == m3.Read16(at + 2) == m2.Read16(at + 2);
    assert m5.Read16(at + 4) == m4.Read16(at + 4) == m3.Read16(at + 4);
    assert m5.Read16(at + 6) == m4.Read16(at + 6);
  }

  lemma TrampolineStays(m: Memory, n: Memory, from: int, to: int, at: int, trap: Word, original: Long)
    requires SameOutside(m, n, from, to) && (at + SLOT <= from || to <= at) && HoldsTrampoline(m, at, trap, original)
    ensures HoldsTrampoline(n, at, trap, original)
  {
    hide Memory.Read8;
    assert forall x :: at <= x < at + SLOT ==> n.Read8(x) == m.Read8(x);
    assert n.Read16(at) == m.Read16(at) && n.Read16(at + 2) == m.Read16(at + 2) && n.Read16(at + 4) == m.Read16(at + 4);
    assert n.Read16(at + 6) == m.Read16(at + 6);
    assert n.Read16(at + 8) == m.Read16(at + 8) && n.Read16(at + 8 + 2) == m.Read16(at + 8 + 2);
  }

  // ------------------------------------------------------- the install loop

  /** The first k traps are hooked, in the first k slots of a fresh pool, and no other is. */
  ghost predicate Hooking(s: Sys, k: nat) {
    && k <= |s.descs| <= MAX_TRAPS && DistinctTraps(s.descs)
    && s.base != 0 && s.base + POOL + SLOT < 0x1_0000_0000 && s.cursor == s.base + SLOT * k && |s.slots| == k
    && (s.memory.romSize == 0 || s.base + POOL <= s.memory.romBase || s.memory.romBase + s.memory.romSize <= s.base)
    && (forall i :: 0 <= i < k ==> HookedAt(s, i))
    && (forall i :: k <= i < |s.descs| ==> !s.descs[i].installed && !InPool(s.base, Entry(s.table, s.descs[i].trap)))
    && SlotsHold(s) && OriginalsOutside(s)
  }

  predicate HookedAt(s: Sys, i: nat)
    requires i < |s.descs| && i < |s.slots|
  {
    var d := s.descs[i];
    d.installed && d.stub == SlotAddr(s, i) && s.slots[i] == (d.trap, d.original) && Entry(s.table, d.trap) == d.stub
  }

  lemma HookKeepsSlots(s: Sys, k: nat)
    requires Hooking(s, k) && k < |s.descs|
    ensures SlotsHold(Hook(s, k)) && OriginalsOutside(Hook(s, k))
    ensures Hook(s, k).memory.romBase == s.memory.romBase && Hook(s, k).memory.romSize == s.memory.romSize
    ensures Hook(s, k).cursor == s.cursor + SLOT
  {
    hide Trampoline, HoldsTrampoline, SameOutside, HookedAt, DistinctTraps;
    var r := Hook(s, k);
    var d, original := s.descs[k], Entry(s.table, s.descs[k].trap);
    TrampolineHolds(s.memory, s.cursor, d.trap, original);
    forall i | 0 <= i < |r.slots| ensures HoldsTrampoline(r.memory, SlotAddr(r, i), r.slots[i].0, r.slots[i].1) {
      if i < k {
        TrampolineStays(s.memory, r.memory, s.cursor, s.cursor + SLOT, SlotAddr(s, i), s.slots[i].0, s.slots[i].1);
      }
    }
  }

  lemma HookKeepsHooking(s: Sys, k: nat)
    requires Hooking(s, k) && k < |s.descs|
    ensures !NoSlot(s) && !s.descs[k].installed && Hooking(Hook(s, k), k + 1)
  {
    HookKeepsSlots(s, k);
    HookKeepsDescs(s, k);
    hide Trampoline, HoldsTrampoline, SlotsHold, OriginalsOutside, HookedAt, Wrap32;
    assert !NoSlot(s) by { SlotLeft(s, k); }
    var r := Hook(s, k);
    forall i | 0 <= i < k + 1 ensures HookedAt(r, i) {
      if i < k { HookedStays(s, k, i); } else { HookedNow(s, k); }
    }
    forall i | k + 1 <= i < |r.descs|
      ensures !r.descs[i].installed && !InPool(r.base, Entry(r.table, r.descs[i].trap))
    {
      assert r.descs[i] == s.descs[i] && s.descs[i].trap != s.descs[k].trap;
    }
  }

  lemma SlotLeft(s: Sys, k: nat)
    requires s.base != 0 && s.base + POOL + SLOT < 0x1_0000_0000 && s.cursor == s.base + SLOT * k && k < MAX_TRAPS
    ensures !NoSlot(s)
  {
  }

  lemma HookedStays(s: Sys, k: nat, i: nat)
    requires i < k < |s.descs| && |s.slots| == k && HookedAt(s, i) && s.descs[i].trap != s.descs[k].trap
    ensures HookedAt(Hook(s, k), i)
  {
    hide Trampoline, Wrap32;
  }

  lemma HookedNow(s: Sys, k: nat)
    requires k < |s.descs| && |s.slots| == k && s.cursor == SlotAddr(s, k)
    ensures HookedAt(Hook(s, k), k)
  {
    hide Trampoline, Wrap32;
  }

  lemma {:induction false} HookFromHooksAll(s: Sys, k: nat)
    requires Hooking(s, k)
    ensures var r := HookFrom(s, k);
            && Hooking(r, |s.descs|) && |r.descs| == |s.descs|
            && r.base == s.base && r.installed == s.installed && r.stale == s.stale
            && forall i :: 0 <= i < |s.descs| ==>
                 r.descs[i].trap == s.descs[i].trap && r.descs[i].handler == s.descs[i].handler
    decreases |s.descs| - k
  {
    hide Hook, NoSlot;
    if k < |s.descs| {
      HookKeepsHooking(s, k);
      HookKeepsDescs(s, k);
      HookFromHooksAll(Hook(s, k), k + 1);
    }
  }

  lemma HookKeepsDescs(s: Sys, k: nat)
    requires k < |s.descs|
    ensures var r := Hook(s, k);
            && |r.descs| == |s.descs| && r.base == s.base && r.installed == s.installed && r.stale == s.stale
            && forall i :: 0 <= i < |s.descs| ==>
                 r.descs[i].trap == s.descs[i].trap && r.descs[i].handler == s.descs[i].handler
  {
  }

  lemma AllHookedIsInv(s: Sys)
    requires Hooking(s, |s.descs|)
    ensures Inv(s.(installed := true, stale := false))
  {
    hide SlotsHold, OriginalsOutside, HoldsTrampoline;
    var r := s.(installed := true, stale := false);
    assert SlotsHold(r) && OriginalsOutside(r) by { SameSlots(s, r); }
    forall i | 0 <= i < |s.descs|
      ensures OwnsSlot(r, r.descs[i]) && Entry(r.table, r.descs[i].trap) == r.descs[i].stub
    {
      assert HookedAt(s, i);
    }
    forall i, j | 0 <= i < j < |s.descs| ensures r.descs[i].stub != r.descs[j].stub {
      assert HookedAt(s, i) && HookedAt(s, j);
    }
  }

  lemma SameSlots(s: Sys, r: Sys)
    requires SlotsHold(s) && OriginalsOutside(s) && r.slots == s.slots && r.base == s.base && r.memory == s.memory
    ensures SlotsHold(r) && OriginalsOutside(r)
  {
    hide HoldsTrampoline;
  }

  /** Where InstallAll gets to when it installs: no trap hooked, and an empty pool. */
  function Prepared(s: Sys, pool: Long): Sys {
    var f := if s.installed then Forget(s) else s;
    if f.base == 0 then f.(base := pool, cursor := pool) else f
  }

  lemma PreparedIsHooking(s: Sys, pool: Long)
    requires Inv(s) && FreshPool(s, pool) && pool != 0
    ensures Hooking(Prepared(s, pool), 0)
  {
    hide Forgotten;
    assert !s.installed ==> s.base == 0;
    forall i | 0 <= i < |s.descs| ensures !Prepared(s, pool).descs[i].installed {
      assert OwnsSlot(s, s.descs[i]);
    }
  }

  lemma NoPoolKeepsInv(s: Sys)
    requires Inv(s)
    ensures Inv(Prepared(s, 0))
  {
    hide Forgotten;
    var p := Prepared(s, 0);
    forall i | 0 <= i < |s.descs| ensures !p.descs[i].installed && p.descs[i].trap == s.descs[i].trap {
      assert OwnsSlot(s, s.descs[i]);
    }
  }

  lemma InstallKeepsInv(s: Sys, enabled: bool, pool: Long)
    requires Inv(s) && FreshPool(s, pool)
    ensures Inv(InstallAll(s, enabled, pool))
  {
    hide Inv, HookFrom, StillOurs, Hooking, Forget;
    if !enabled || s.descs == [] || (s.installed && StillOurs(s.descs, s.table, s.memory)) {
    } else if pool == 0 {
      BaseWithoutPool(s);
      NoPoolKeepsInv(s);
    } else {
      PreparedBase(s, pool);
      PreparedIsHooking(s, pool);
      HookFromHooksAll(Prepared(s, pool), 0);
      AllHookedIsInv(HookFrom(Prepared(s, pool), 0));
    }
  }

  lemma BaseWithoutPool(s: Sys)
    requires Inv(s)
    ensures Prepared(s, 0).base == 0
  {
    hide Forgotten;
  }

  lemma PreparedBase(s: Sys, pool: Long)
    requires Inv(s)
    ensures Prepared(s, pool).base == pool && |Prepared(s, pool).descs| == |s.descs|
  {
    hide Forgotten;
  }

  // --------------------------------------------------------- the other steps

  /** What the invariant says of one trap. */
  ghost predicate DescOk(s: Sys, d: Desc) {
    OwnsSlot(s, d) && (d.installed && !s.stale ==> Entry(s.table, d.trap) == d.stub)
  }

  lemma InvOfDesc(s: Sys, i: nat)
    requires Inv(s) && i < |s.descs|
    ensures DescOk(s, s.descs[i])
  {
    hide OwnsSlot, SlotsHold, OriginalsOutside, PoolOk;
    assert s.descs[i] in s.descs;
  }

  /** Putting the invariant back together when pool and slots are the same. */
  lemma InvFromDescs(s: Sys, r: Sys)
    requires Inv(s)
    requires r == s.(descs := r.descs, table := r.table)
    requires |r.descs| <= MAX_TRAPS && DistinctTraps(r.descs) && DistinctSlots(r.descs)
    requires forall i :: 0 <= i < |r.descs| ==> DescOk(r, r.descs[i])
    ensures Inv(r)
  {
    hide OwnsSlot, SlotsHold, OriginalsOutside, DistinctTraps, DistinctSlots, PoolOk;
    if !s.stale { SameSlots(s, r); }
    SameOriginals(s, r);
    assert PoolOk(r) by { SamePool(s, r); }
  }

  lemma SamePool(s: Sys, r: Sys)
    requires PoolOk(s) && r == s.(descs := r.descs, table := r.table)
    ensures PoolOk(r)
  {
  }

  lemma DescOkStays(s: Sys, r: Sys, d: Desc, e: Desc)
    requires DescOk(s, d) && e == d.(handler := e.handler)
    requires r == s.(descs := r.descs, table := r.table) && Entry(r.table, d.trap) == Entry(s.table, d.trap)
    ensures DescOk(r, e)
  {
  }

  lemma RegisterKeepsInv(s: Sys, enabled: bool, trap: Word, handler: nat)
    requires Inv(s)
    ensures Inv(Register(s, enabled, trap, handler))
  {
    hide SlotsHold, OriginalsOutside, OwnsSlot, PoolOk, TableOk, DescOk;
    var r, k := Register(s, enabled, trap, handler), Find(s.descs, trap);
    if r != s {
      forall i | 0 <= i < |r.descs| ensures DescOk(r, r.descs[i]) {
        if i < |s.descs| {
          InvOfDesc(s, i);
          DescOkStays(s, r, s.descs[i], r.descs[i]);
        } else {
          NewDescOk(r, r.descs[i]);
        }
      }
      InvFromDescs(s, r);
    }
  }

  lemma NewDescOk(s: Sys, d: Desc)
    requires !d.installed
    ensures DescOk(s, d)
  {
  }

  lemma SameOriginals(s: Sys, r: Sys)
    requires OriginalsOutside(s) && r.slots == s.slots && r.base == s.base
    ensures OriginalsOutside(r)
  {
  }

  lemma UnregisterKeepsInv(s: Sys, trap: Word)
    requires Inv(s)
    ensures Inv(Unregister(s, trap))
  {
    hide SlotsHold, OriginalsOutside, OwnsSlot, PoolOk, TableOk, DescOk;
    var r, k := Unregister(s, trap), Find(s.descs, trap);
    if k < |s.descs| {
      forall i | 0 <= i < |r.descs|
        ensures r.descs[i] == s.descs[if i < k then i else i + 1] && r.descs[i].trap != trap
      {}
      forall i | 0 <= i < |r.descs| ensures DescOk(r, r.descs[i]) {
        InvOfDesc(s, if i < k then i else i + 1);
        DescOkStays(s, r, r.descs[i], r.descs[i]);
      }
      InvFromDescs(s, r);
    }
  }

  lemma ResetKeepsInv(s: Sys, table: map<Word, Long>, memory: Memory)
    requires Inv(s)
    ensures Inv(MachineReset(s, table, memory))
  {
    hide SlotsHold, OriginalsOutside;
    var r := MachineReset(s, table, memory);
    SameOriginals(s, r);
    forall d | d in r.descs ensures OwnsSlot(r, d) {
      assert OwnsSlot(s, d);
    }
  }

  datatype Event =
    | Registered(trap: Word, handler: nat)
    | Unregisters(trap: Word)
    | Installs(pool: Long)
    | Resets(table: map<Word, Long>, memory: Memory)

  function Happens(s: Sys, enabled: bool, e: Event): Sys {
    match e
    case Registered(trap, handler) => Register(s, enabled, trap, handler)
    case Unregisters(trap) => Unregister(s, trap)
    case Installs(pool) => InstallAll(s, enabled, pool)
    case Resets(table, memory) => MachineReset(s, table, memory)
  }

  function Run(s: Sys, enabled: bool, events: seq<Event>): Sys
    decreases |events|
  {
    if events == [] then s else Run(Happens(s, enabled, events[0]), enabled, events[1..])
  }

  ghost predicate Plausible(s: Sys, enabled: bool, events: seq<Event>)
    decreases |events|
  {
    events == [] ||
    ((events[0].Installs? ==> FreshPool(s, events[0].pool))
     && Plausible(Happens(s, enabled, events[0]), enabled, events[1..]))
  }

  /** Any sequence of registrations, installs and resets keeps the registry in order. */
  lemma {:induction false} RunKeepsInv(s: Sys, enabled: bool, events: seq<Event>)
    requires Inv(s) && Plausible(s, enabled, events)
    ensures Inv(Run(s, enabled, events))
    decreases |events|
  {
    hide Inv, InstallAll, Register, Unregister, MachineReset, FreshPool;
    if events != [] {
      match events[0] {
        case Registered(trap, handler) => RegisterKeepsInv(s, enabled, trap, handler);
        case Unregisters(trap) => UnregisterKeepsInv(s, trap);
        case Installs(pool) => InstallKeepsInv(s, enabled, pool);
        case Resets(table, memory) => ResetKeepsInv(s, table, memory);
      }
      RunKeepsInv(Happens(s, enabled, events[0]), enabled, events[1..]);
    }
  }

  const EMPTY: Sys := Sys([], 0, 0, false, map[], Memory(map[], 0, 0), [], false)

  lemma StartIsOk(table: map<Word, Long>, memory: Memory)
    ensures Inv(EMPTY.(table := table, memory := memory))
  {
  }

  // --------------------------------------------------------- what follows

  /** Installed traps own distinct 12-byte slots inside the pool. */
  lemma InstalledTrapsOwnDistinctSlots(s: Sys, i: nat, j: nat)
    requires Inv(s) && i < |s.descs| && j < |s.descs| && s.descs[i].installed && s.descs[j].installed
    ensures s.base <= s.descs[i].stub && s.descs[i].stub + SLOT <= s.cursor <= s.base + POOL
    ensures i != j ==> s.descs[i].stub + SLOT <= s.descs[j].stub || s.descs[j].stub + SLOT <= s.descs[i].stub
  {
    hide SlotsHold, OriginalsOutside, DistinctTraps;
    InvOfDesc(s, i);
    InvOfDesc(s, j);
    SlotEdges(s.base, |s.slots|, s.descs[i].stub);
    SlotEdges(s.base, |s.slots|, s.descs[j].stub);
    if i != j { assert s.descs[i].stub != s.descs[j].stub; }
  }

  lemma SlotEdges(base: Long, n: nat, stub: Long)
    requires base <= stub < base + SLOT * n && (stub - base) % SLOT == 0
    ensures stub + SLOT <= base + SLOT * n && stub == base + SLOT * ((stub - base) / SLOT)
  {
  }

  /** Any program counter inside a slot leads back to its start. */
  lemma AnyPcInASlotFindsIt(s: Sys, k: nat, pc: Long)
    requires Inv(s) && k < |s.slots| && SlotAddr(s, k) <= pc < SlotAddr(s, k) + SLOT
    ensures StubOf(s, pc) == SlotAddr(s, k)
  {
    hide SlotsHold, OriginalsOutside, DistinctTraps, DistinctSlots, OwnsSlot, TableOk;
    assert s.base != 0;
    assert (pc - s.base) / SLOT == k;
  }

  /**
    Dispatching from any program counter in a slot, in the boot it was installed
    in: the handler registered for the slot's trap runs, with the original saved
    in that slot.  With none registered, and after any passthrough, A0 is that
    original and A1 the stack pointer.
   */
  lemma DispatchFromASlot(s: Sys, f: Handlers, k: nat, pc: Long, r: Registers)
    requires Inv(s) && !s.stale && k < |s.slots| && SlotAddr(s, k) <= pc < SlotAddr(s, k) + SLOT
    ensures var (trap, original) := s.slots[k];
            var j, t, out := Find(s.descs, trap), Through(r, original), Dispatch(s, f, pc, r);
            if j == |s.descs| || s.descs[j].handler == 0 then out == t
            else
              var (action, q) := f(s.descs[j].handler, trap, t, original);
              out == if action == Passthrough then Through(q, original) else q
  {
    hide OriginalsOutside, DistinctTraps, DistinctSlots, OwnsSlot, TableOk, Through, Find, StubOf, Memory.Read16,
        Memory.Read32;
    AnyPcInASlotFindsIt(s, k, pc);
    assert HoldsTrampoline(s.memory, SlotAddr(s, k), s.slots[k].0, s.slots[k].1);
    assert SlotAddr(s, k) != 0;
  }

  /** An installed trap's slot runs that trap's own handler with its own saved original. */
  lemma InstalledTrapRunsItsOwnHandler(s: Sys, f: Handlers, i: nat, pc: Long, r: Registers)
    requires Inv(s) && !s.stale && i < |s.descs| && s.descs[i].installed && s.descs[i].handler != 0
    requires s.descs[i].stub <= pc < s.descs[i].stub + SLOT
    ensures var d := s.descs[i];
            var (action, q) := f(d.handler, d.trap, Through(r, d.original), d.original);
            Dispatch(s, f, pc, r) == if action == Passthrough then Through(q, d.original) else q
  {
    hide SlotsHold, OriginalsOutside, DistinctSlots, TableOk, Through, Dispatch, Find;
    var d := s.descs[i];
    InvOfDesc(s, i);
    var k := SlotIndex(s, d.stub);
    SlotEdges(s.base, |s.slots|, d.stub);
    assert Find(s.descs, d.trap) == i;
    DispatchFromASlot(s, f, k, pc, r);
  }

  /** A slot whose trap was unregistered, and a passthrough, go to the saved original on the caller's stack. */
  lemma UnregisteredSlotPassesThrough(s: Sys, f: Handlers, k: nat, pc: Long, r: Registers)
    requires Inv(s) && !s.stale && k < |s.slots| && SlotAddr(s, k) <= pc < SlotAddr(s, k) + SLOT
    requires forall d :: d in s.descs ==> d.trap != s.slots[k].0
    ensures var out := Dispatch(s, f, pc, r);
            out.a[0] == s.slots[k].1 && out.a[1] == r.a[7] && out.a[2..] == r.a[2..] && out.d == r.d
  {
    hide Inv, Dispatch;
    DispatchFromASlot(s, f, k, pc, r);
  }

  /** No saved original is one of our stubs, so a passthrough leaves the registry in one step. */
  lemma OriginalsAreNotOurStubs(s: Sys, i: nat, j: nat)
    requires Inv(s) && i < |s.descs| && j < |s.descs| && s.descs[i].installed && s.descs[j].installed
    ensures s.descs[i].original != s.descs[j].stub && !InPool(s.base, s.descs[i].original)
  {
    hide SlotsHold, DistinctTraps, DistinctSlots, TableOk;
    InvOfDesc(s, i);
    InvOfDesc(s, j);
    assert !InPool(s.base, s.slots[SlotIndex(s, s.descs[i].stub)].1);
  }

  lemma {:induction false} OneIsEnough(descs: seq<Desc>, table: map<Word, Long>, m: Memory, i: nat)
    requires i < |descs| && IsOurs(descs[i], table, m)
    ensures StillOurs(descs, table, m)
  {
    if i > 0 { OneIsEnough(descs[1..], table, m, i - 1); }
  }

  /**
    In the boot they were installed in, and whatever else the guest has since put
    in its trap table, one entry that still goes through its stub is enough to
    recognise the table as ours.
   */
  lemma InstalledIsRecognised(s: Sys, table: map<Word, Long>, i: nat)
    requires Inv(s) && !s.stale && i < |s.descs| && s.descs[i].installed
            && Entry(table, s.descs[i].trap) == s.descs[i].stub
    ensures StillOurs(s.descs, table, s.memory)
  {
    hide OriginalsOutside, DistinctTraps, DistinctSlots, TableOk, StillOurs;
    InvOfDesc(s, i);
    var d := s.descs[i];
    var k := SlotIndex(s, d.stub);
    SlotEdges(s.base, |s.slots|, d.stub);
    assert HoldsTrampoline(s.memory, SlotAddr(s, k), s.slots[k].0, s.slots[k].1);
    OneIsEnough(s.descs, table, s.memory, i);
  }

  /**
    InstallAll again in the same boot, any number of times and whatever block the
    heap would give, changes nothing, even when the guest has patched its trap
    table over our hooks, as long as one entry still goes through its stub.
   */
  lemma InstallingAgainChangesNothing(s: Sys, table: map<Word, Long>, enabled: bool, pools: seq<Long>, i: nat)
    requires Inv(s) && !s.stale && i < |s.descs| && s.descs[i].installed
            && Entry(table, s.descs[i].trap) == s.descs[i].stub
    ensures InstallTimes(s.(table := table), enabled, pools) == s.(table := table)
    decreases |pools|
  {
    hide Inv, InstallAll;
    if pools != [] {
      InstalledIsRecognised(s, table, i);
      assert InstallAll(s.(table := table), enabled, pools[0]) == s.(table := table) by {
        NothingToInstall(s, table, enabled, pools[0], i);
      }
      InstallingAgainChangesNothing(s, table, enabled, pools[1..], i);
    }
  }

  lemma NothingToInstall(s: Sys, table: map<Word, Long>, enabled: bool, pool: Long, i: nat)
    requires Inv(s) && i < |s.descs| && s.descs[i].installed && StillOurs(s.descs, table, s.memory)
    ensures InstallAll(s.(table := table), enabled, pool) == s.(table := table)
  {
    hide StillOurs, SlotsHold, OriginalsOutside;
    assert s.descs[i] in s.descs && OwnsSlot(s, s.descs[i]);
  }

  /** The trap table says the same of every trap. */
  ghost predicate SameTable(a: map<Word, Long>, b: map<Word, Long>) {
    forall t: Word :: Entry(a, t) == Entry(b, t)
  }

  /**
    Unregistering an installed trap in the boot it was hooked in puts back the
    entry found then, and touches no other.  Between a reset and the next
    InstallAll it writes the last boot's routine into the rebuilt table, and that
    is harmless exactly when the trap was not hooked, or the reset brought the
    very same routine back.
   */
  lemma UnregisterPutsTheEntryBack(s: Sys, k: nat)
    requires Inv(s) && k < |s.descs|
    ensures var d, r := s.descs[k], Unregister(s, s.descs[k].trap);
            && (forall t: Word :: t != d.trap ==> Entry(r.table, t) == Entry(s.table, t))
            && (!s.stale && d.installed && d.original != 0 ==> Entry(r.table, d.trap) == d.original)
            && (s.stale ==> (SameTable(r.table, s.table)
                             <==> !d.installed || d.original == 0 || d.original == Entry(s.table, d.trap)))
  {
    hide SlotsHold, OriginalsOutside, DistinctSlots, TableOk, OwnsSlot;
    assert Find(s.descs, s.descs[k].trap) == k;
    var d, r := s.descs[k], Unregister(s, s.descs[k].trap);
    if d.installed && d.original != 0 && d.original != Entry(s.table, d.trap) {
      assert Entry(r.table, d.trap) != Entry(s.table, d.trap);
    }
  }

  function InstallTimes(s: Sys, enabled: bool, pools: seq<Long>): Sys
    decreases |pools|
  {
    if pools == [] then s else InstallTimes(InstallAll(s, enabled, pools[0]), enabled, pools[1..])
  }

  /** The trap's entry leads to its old stub's address, and dispatch word and trap number are still there. */
  predicate Survives(d: Desc, table: map<Word, Long>, memory: Memory) {
    d.installed && Entry(table, d.trap) == d.stub && memory.Read16(d.stub) == DISPATCH
        && memory.Read16(d.stub + 6) == d.trap
  }

  /** Every trap of `s` is hooked in `r`, in its own slot of the pool, with its own handler, over the table's entry. */
  predicate HooksAll(s: Sys, table: map<Word, Long>, pool: Long, r: Sys) {
    && r.base == pool && |r.descs| == |s.descs|
    && forall i :: 0 <= i < |s.descs| ==>
         && r.descs[i].installed && r.descs[i].trap == s.descs[i].trap && r.descs[i].handler == s.descs[i].handler
         && r.descs[i].original == Entry(table, s.descs[i].trap)
         && Entry(r.table, r.descs[i].trap) == r.descs[i].stub == pool + SLOT * i
  }

  lemma InstallOverHooksAll(s: Sys, pool: Long)
    requires Inv(s) && pool != 0 && s.descs != [] && FreshPool(s, pool)
            && !(s.installed && StillOurs(s.descs, s.table, s.memory))
    ensures var r := InstallAll(s, true, pool); Inv(r) && !r.stale && HooksAll(s, s.table, pool, r)
  {
    hide Inv, HookFrom, StillOurs, Hooking, Forgotten;
    InstallKeepsInv(s, true, pool);
    PreparedBase(s, pool);
    PreparedIsHooking(s, pool);
    var p := Prepared(s, pool);
    HookFromHooksAll(p, 0);
    HookFromOriginals(p, 0);
    var r := InstallAll(s, true, pool);
    assert r == HookFrom(p, 0).(installed := true, stale := false);
    forall i | 0 <= i < |s.descs|
      ensures r.descs[i].installed && Entry(r.table, r.descs[i].trap) == r.descs[i].stub == pool + SLOT * i
    {
      HookedFacts(HookFrom(p, 0), i);
    }
  }

  /** With one entry that survives nothing is hooked: that trap's stub is not in the fresh pool. */
  lemma SurvivorStopsInstalling(s: Sys, pool: Long, i: nat)
    requires Inv(s) && pool != 0 && i < |s.descs| && FreshPool(s, pool) && Survives(s.descs[i], s.table, s.memory)
    ensures InstallAll(s, true, pool) == s && !HooksAll(s, s.table, pool, s)
  {
    hide StillOurs, SlotsHold, OriginalsOutside;
    assert s.descs[i] in s.descs && OwnsSlot(s, s.descs[i]);
    OneIsEnough(s.descs, s.table, s.memory, i);
    HookedStubsAreInPool(s, s.table, pool, s, i);
    assert !InPool(pool, Entry(s.table, s.descs[i].trap));
  }

  lemma HookedStubsAreInPool(s: Sys, table: map<Word, Long>, pool: Long, r: Sys, i: nat)
    requires i < |s.descs| <= MAX_TRAPS && pool != 0
    ensures HooksAll(s, table, pool, r) ==> InPool(pool, r.descs[i].stub)
  {
  }

  lemma {:induction false} NoneSurvivesNotOurs(descs: seq<Desc>, table: map<Word, Long>, m: Memory)
    requires forall i :: 0 <= i < |descs| ==> !Survives(descs[i], table, m)
    ensures !StillOurs(descs, table, m)
  {
    if descs != [] {
      assert !Survives(descs[0], table, m);
      forall i | 0 <= i < |descs| - 1 ensures !Survives(descs[1..][i], table, m) {
        assert descs[1..][i] == descs[i + 1];
      }
      NoneSurvivesNotOurs(descs[1..], table, m);
    }
  }

  lemma InstallHooksAllExactlyWhen(s: Sys, pool: Long)
    requires Inv(s) && pool != 0 && s.descs != [] && FreshPool(s, pool)
    ensures HooksAll(s, s.table, pool, InstallAll(s, true, pool))
        <==> forall i :: 0 <= i < |s.descs| ==> !Survives(s.descs[i], s.table, s.memory)
    ensures (forall i :: 0 <= i < |s.descs| ==> !Survives(s.descs[i], s.table, s.memory))
        ==> Inv(InstallAll(s, true, pool)) && !InstallAll(s, true, pool).stale
  {
    hide Inv, InstallAll, StillOurs, HooksAll, Survives, FreshPool;
    if i :| 0 <= i < |s.descs| && Survives(s.descs[i], s.table, s.memory) {
      SurvivorStopsInstalling(s, pool, i);
    } else {
      NoneSurvivesNotOurs(s.descs, s.table, s.memory);
      InstallOverHooksAll(s, pool);
    }
  }

  /**
    After any reset at all, whatever the new heap and table hold, InstallAll with
    a fresh pool hooks every registered trap in its own slot, with its own handler
    and over the rebuilt table's entry, if and only if no hooked trap's new entry
    leads to the address of its old stub with the dispatch word and the trap's
    number still there.
   */
  lemma ResetThenInstallHooksEverything(s: Sys, table: map<Word, Long>, memory: Memory, pool: Long)
    requires Inv(s) && pool != 0 && s.descs != [] && FreshPool(MachineReset(s, table, memory), pool)
    ensures var r := InstallAll(MachineReset(s, table, memory), true, pool);
            && (HooksAll(s, table, pool, r)
                <==> forall i :: 0 <= i < |s.descs| && s.descs[i].installed ==>
                       !(Entry(table, s.descs[i].trap) == s.descs[i].stub
                         && memory.Read16(s.descs[i].stub) == DISPATCH
                         && memory.Read16(s.descs[i].stub + 6) == s.descs[i].trap))
            && (HooksAll(s, table, pool, r) ==> Inv(r) && !r.stale)
  {
    hide Inv, InstallAll, FreshPool;
    ResetKeepsInv(s, table, memory);
    InstallHooksAllExactlyWhen(MachineReset(s, table, memory), pool);
  }

  /**
    InstallAll in the same boot, after the guest has put what it liked into its
    trap table: every trap is hooked again, over the guest's entries, if and only
    if no entry goes through our stubs any more.
   */
  lemma InstallingAgainHooksExactlyWhen(s: Sys, table: map<Word, Long>, pool: Long)
    requires Inv(s) && !s.stale && pool != 0 && s.descs != [] && FreshPool(s.(table := table), pool)
    ensures HooksAll(s, table, pool, InstallAll(s.(table := table), true, pool))
        <==> forall i :: 0 <= i < |s.descs| && s.descs[i].installed ==> Entry(table, s.descs[i].trap) != s.descs[i].stub
  {
    hide Inv, InstallAll, HooksAll, HoldsTrampoline;
    var t := MachineReset(s, table, s.memory);
    ResetThenInstallHooksEverything(s, table, s.memory, pool);
    StaleDoesNotMatter(s.(table := table), pool);
    assert HooksAll(s, table, pool, InstallAll(s.(table := table), true, pool))
        <==> HooksAll(s, table, pool, InstallAll(t, true, pool)) by {
      StaleIsNoHook(s, table, pool, InstallAll(s.(table := table), true, pool), InstallAll(t, true, pool));
    }
    forall i | 0 <= i < |s.descs| && s.descs[i].installed
      ensures s.memory.Read16(s.descs[i].stub) == DISPATCH && s.memory.Read16(s.descs[i].stub + 6) == s.descs[i].trap
    {
      OwnStubHolds(s, i);
    }
  }

  /** The mark of a reset is history, which nothing that is done depends on. */
  lemma StaleDoesNotMatter(s: Sys, pool: Long)
    ensures InstallAll(s.(stale := true), true, pool).(stale := false) == InstallAll(s, true, pool).(stale := false)
  {
    hide HookFrom, StillOurs, Forgotten;
    HookFromIgnoresStale(Prepared(s, pool), 0);
  }

  lemma {:induction false} HookFromIgnoresStale(s: Sys, k: nat)
    requires k <= |s.descs|
    ensures HookFrom(s.(stale := true), k) == HookFrom(s, k).(stale := true)
    decreases |s.descs| - k
  {
    hide Trampoline, Wrap32;
    if k < |s.descs| && !s.descs[k].installed && !NoSlot(s) {
      HookFromIgnoresStale(Hook(s, k), k + 1);
    } else if k < |s.descs| && s.descs[k].installed {
      HookFromIgnoresStale(s, k + 1);
    }
  }

  lemma StaleIsNoHook(s: Sys, table: map<Word, Long>, pool: Long, a: Sys, b: Sys)
    requires a.(stale := false) == b.(stale := false)
    ensures HooksAll(s, table, pool, a) <==> HooksAll(s, table, pool, b)
  {
  }

  lemma OwnStubHolds(s: Sys, i: nat)
    requires Inv(s) && !s.stale && i < |s.descs| && s.descs[i].installed
    ensures s.memory.Read16(s.descs[i].stub) == DISPATCH && s.memory.Read16(s.descs[i].stub + 6) == s.descs[i].trap
  {
    hide OriginalsOutside, DistinctTraps, DistinctSlots, TableOk;
    InvOfDesc(s, i);
    var d := s.descs[i];
    var k := SlotIndex(s, d.stub);
    SlotEdges(s.base, |s.slots|, d.stub);
    assert HoldsTrampoline(s.memory, SlotAddr(s, k), s.slots[k].0, s.slots[k].1);
  }

  /**
    One trap is registered and hooked, the machine resets, and the trap is
    unregistered before anything is installed.
   */
  function LateUnregister(trap: Word, handler: nat, pool: Long, table: map<Word, Long>, memory: Memory): seq<Event> {
    [Registered(trap, handler), Installs(pool), Resets(table, memory), Unregisters(trap)]
  }

  /** Run from the start, that puts the first boot's routine into the second boot's table, whatever that held. */
  lemma LateUnregisterBringsBackTheLastBoot(trap: Word, handler: nat, pool: Long, first: map<Word, Long>, m: Memory,
                                            table: map<Word, Long>, memory: Memory)
    requires trap / 0x1000 == 0xa && handler != 0 && pool != 0 && pool + POOL + SLOT < 0x1_0000_0000
            && Entry(first, trap) != 0
    ensures var s := EMPTY.(table := first, memory := m);
            Entry(Run(s, true, LateUnregister(trap, handler, pool, table, memory)).table, trap) == Entry(first, trap)
  {
    hide Trampoline;
    var s := EMPTY.(table := first, memory := m);
    var a := Register(s, true, trap, handler);
    assert a.descs == [Desc(trap, handler, 0, 0, false)];
    var p := a.(base := pool, cursor := pool);
    assert HookFrom(p, 0) == HookFrom(Hook(p, 0), 1) == Hook(p, 0);
    var b := InstallAll(a, true, pool);
    assert b.descs[0].installed && b.descs[0].original == Entry(first, trap) && |b.descs| == 1;
    var c := MachineReset(b, table, memory);
    var d := Unregister(c, trap);
    RunFour(s, Registered(trap, handler), Installs(pool), Resets(table, memory), Unregisters(trap));
  }

  lemma RunFour(s: Sys, a: Event, b: Event, c: Event, d: Event)
    ensures Run(s, true, [a, b, c, d]) == Happens(Happens(Happens(Happens(s, true, a), true, b), true, c), true, d)
  {
    hide Happens;
    RunFirst(s, a, [b, c, d]);
    RunFirst(Happens(s, true, a), b, [c, d]);
    RunFirst(Happens(Happens(s, true, a), true, b), c, [d]);
    RunFirst(Happens(Happens(Happens(s, true, a), true, b), true, c), d, []);
    assert [a] + [b, c, d] == [a, b, c, d] && [b] + [c, d] == [b, c, d] && [c] + [d] == [c, d] && [d] + [] == [d];
  }

  lemma RunFirst(s: Sys, e: Event, rest: seq<Event>)
    ensures Run(s, true, [e] + rest) == Run(Happens(s, true, e), true, rest)
  {
    hide Happens;
    assert ([e] + rest)[1..] == rest;
  }

  lemma HookedFacts(s: Sys, i: nat)
    requires Hooking(s, |s.descs|) && i < |s.descs|
    ensures s.descs[i].installed && s.descs[i].stub == s.base + SLOT * i
            && Entry(s.table, s.descs[i].trap) == s.descs[i].stub
  {
    hide SlotsHold, OriginalsOutside;
    assert HookedAt(s, i);
  }

  /** The originals saved are the table's entries from before. */
  lemma {:induction false} HookFromOriginals(s: Sys, k: nat)
    requires Hooking(s, k)
    ensures var r := HookFrom(s, k);
            |r.descs| == |s.descs|
            && (forall i :: 0 <= i < k ==> r.descs[i].original == s.descs[i].original)
            && (forall i :: k <= i < |s.descs| ==> r.descs[i].original == Entry(s.table, s.descs[i].trap))
    decreases |s.descs| - k
  {
    hide NoSlot, SlotsHold, OriginalsOutside, Trampoline, HookedAt;
    if k < |s.descs| {
      HookKeepsHooking(s, k);
      HookFromOriginals(Hook(s, k), k + 1);
    }
  }
}
