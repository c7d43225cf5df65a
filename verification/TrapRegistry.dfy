/**
  The trap registry as the code keeps it: a fixed table whose used part is
  changed in place.  Each method is proved to do what the function of Traps says.
 */
module TrapRegistry {
  import opened GuestMemory
  import opened T = Traps

  class Registry {
    const entries: array<Desc>
    const enabled: bool
    var count: nat
    var base: Long
    var cursor: Long
    var installed: bool
    // The guest: its trap table and its memory.
    var trapTable: map<Word, Long>
    var memory: Memory
    ghost var slots: seq<(Word, Long)>
    ghost var stale: bool

    constructor (enabled: bool, trapTable: map<Word, Long>, memory: Memory)
      ensures Valid() && fresh(entries) && View() == EMPTY.(table := trapTable, memory := memory)
    {
      this.enabled, this.trapTable, this.memory := enabled, trapTable, memory;
      entries := new Desc[MAX_TRAPS](_ => Desc(0, 0, 0, 0, false));
      count, base, cursor, installed, slots, stale := 0, 0, 0, false, [], false;
    }

    ghost predicate Valid()
      reads this
    {
      entries.Length == MAX_TRAPS && count <= MAX_TRAPS
    }

    ghost function Used(): seq<Desc>
      requires Valid()
      reads this, entries
    {
      entries[..count]
    }

    ghost function View(): Sys
      requires Valid()
      reads this, entries
    {
      Sys(Used(), base, cursor, installed, trapTable, memory, slots, stale)
    }

    method FindTrap(trap: Word) returns (k: nat)
      requires Valid()
      ensures k == Find(Used(), trap)
    {
      k := 0;
      while k < count
        invariant k <= count && forall j :: 0 <= j < k ==> entries[j].trap != trap
      {
        if entries[k].trap == trap { break; }
        k := k + 1;
      }
    }

    method RegisterTrap(trap: Word, handler: nat) returns (ok: bool)
      requires Valid()
      modifies entries, this`count
      ensures Valid() && View() == Register(old(View()), enabled, trap, handler)
      ensures ok <==>
                && enabled && handler != 0 && trap / 0x1000 == 0xa
                && (Find(old(Used()), trap) < old(count) || old(count) < MAX_TRAPS)
    {
      if !enabled { return false; }
      if handler == 0 || trap / 0x1000 != 0xa { return false; }
      var k := FindTrap(trap);
      if k < count {
        entries[k] := entries[k].(handler := handler);
        return true;
      }
      if count >= MAX_TRAPS { return false; }
      entries[count] := Desc(trap, handler, 0, 0, false);
      count := count + 1;
      return true;
    }

    /** Shifts the entries after the k-th down by one. */
    method ShiftDown(k: nat)
      requires Valid() && k < count
      modifies entries, this`count
      ensures Valid() && Used() == Without(old(Used()), k)
    {
      var j := k;
      while j < count - 1
        invariant k <= j <= count - 1 && count == old(count)
        invariant forall i :: 0 <= i < k ==> entries[i] == old(entries[i])
        invariant forall i :: k <= i < j ==> entries[i] == old(entries[i + 1])
        invariant forall i :: j < i < count ==> entries[i] == old(entries[i])
      {
        entries[j] := entries[j + 1];
        j := j + 1;
      }
      count := count - 1;
    }

    method UnregisterTrap(trap: Word) returns (ok: bool)
      requires Valid()
      modifies entries, this`count, this`trapTable
      ensures Valid() && View() == Unregister(old(View()), trap)
      ensures ok <==> exists d :: d in old(Used()) && d.trap == trap
    {
      hide Without;
      var k := FindTrap(trap);
      if k == count { return false; }
      var d := entries[k];
      assert d in Used();
      if d.installed && d.original != 0 {
        trapTable := trapTable[d.trap := d.original];
      }
      ShiftDown(k);
      return true;
    }

    method TableStillOurs() returns (ours: bool)
      requires Valid()
      ensures ours == StillOurs(Used(), trapTable, memory)
    {
      assert entries[0..count] == Used();
      for i := 0 to count
        invariant StillOurs(Used(), trapTable, memory) == StillOurs(entries[i..count], trapTable, memory)
      {
        assert entries[i..count][1..] == entries[i + 1..count];
        var d := entries[i];
        if !d.installed || d.stub == 0 { continue; }
        if Entry(trapTable, d.trap) != d.stub { continue; }
        if memory.Read16(d.stub) == DISPATCH && memory.Read16(d.stub + 6) == d.trap { return true; }
      }
      return false;
    }

    method ForgetPrevious()
      requires Valid()
      modifies entries, this`base, this`cursor, this`installed, this`slots
      ensures Valid() && View() == Forget(old(View()))
    {
      base, cursor, slots := 0, 0, [];
      for i := 0 to count
        invariant base == 0 && cursor == 0 && slots == [] && count == old(count)
        invariant forall j :: 0 <= j < i ==>
                    entries[j] == old(entries[j]).(stub := 0, original := 0, installed := false)
        invariant forall j :: i <= j < count ==> entries[j] == old(entries[j])
      {
        entries[i] := entries[i].(stub := 0, original := 0, installed := false);
      }
      installed := false;
      assert Used() == Forgotten(old(Used()));
    }

    method AllocSlot() returns (slot: Long)
      modifies this`cursor
      ensures slot == (if base == 0 || Wrap32(old(cursor) + SLOT) > Wrap32(base + POOL) then 0 else old(cursor))
      ensures cursor == if base == 0 || Wrap32(old(cursor) + SLOT) > Wrap32(base + POOL) then old(cursor)
              else Wrap32(old(cursor) + SLOT)
    {
      var limit := Wrap32(base + POOL);
      if base == 0 || Wrap32(cursor + SLOT) > limit { return 0; }
      slot := cursor;
      cursor := Wrap32(cursor + SLOT);
    }

    /** Hooks one trap that is not hooked yet; false when the pool has run out. */
    method HookOne(k: nat) returns (ok: bool)
      requires Valid() && k < count && !entries[k].installed && (base == 0 || cursor != 0)
      modifies entries, this`cursor, this`memory, this`trapTable, this`slots
      ensures Valid() && ok == !NoSlot(old(View()))
      ensures ok ==> View() == Hook(old(View()), k)
      ensures !ok ==> View() == old(View()).(descs :=
                                             old(Used())[k := old(Used())[k].(original :=
                                                 Entry(old(trapTable), old(Used())[k].trap), stub := 0)])
    {
      hide Trampoline, Wrap32;
      var trap := entries[k].trap;
      var original := Entry(trapTable, trap);
      entries[k] := entries[k].(original := original);
      var slot := AllocSlot();
      entries[k] := entries[k].(stub := slot);
      if slot == 0 { return false; }
      memory := Trampoline(memory, slot, trap, original);
      trapTable := trapTable[trap := slot];
      slots := slots + [(trap, original)];
      entries[k] := entries[k].(installed := true);
      return true;
    }

    /** The loop over the table: hooks what is not hooked yet, in whatever slots are left. */
    method HookAll()
      requires Valid() && SlotsLeftOk(View())
      modifies entries, this`cursor, this`memory, this`trapTable, this`slots
      ensures Valid() && View() == HookFrom(old(View()), 0)
    {
      hide Hook, HookFrom, NoSlot, SlotsLeftOk;
      var i := 0;
      while i < count
        invariant Valid() && i <= count && count == old(count) && SlotsLeftOk(View())
        invariant HookFrom(old(View()), 0) == HookFrom(View(), i)
      {
        ghost var s := View();
        HookFromSteps(s, i);
        if entries[i].installed {
          i := i + 1;
          continue;
        }
        CursorIsSet(s);
        var ok := HookOne(i);
        if !ok { return; }
        HookKeepsSlotsLeft(s, i);
        i := i + 1;
      }
      HookFromEnds(View(), i);
    }

    /** ToolboxTrap_InstallAll; `pool` is what the guest's heap would give. */
    method InstallTraps(pool: Long)
      requires Valid() && Inv(View()) && FreshPool(View(), pool)
      modifies entries, this`base, this`cursor, this`installed, this`memory, this`trapTable, this`slots, this`stale
      ensures Valid() && View() == InstallAll(old(View()), enabled, pool)
    {
      hide Inv, HookFrom, StillOurs, Hooking, Forget, FreshPool;
      if !enabled || count == 0 { return; }
      ghost var s := View();
      if installed {
        var ours := TableStillOurs();
        if ours { return; }
        ForgetPrevious();
      }
      assert View() == if s.installed then Forget(s) else s;
      PreparedBase(s, pool);
      if base == 0 {
        base, cursor := pool, pool;
        if base == 0 { return; }
      }
      PreparedIsHooking(s, pool);
      assert View() == Prepared(s, pool);
      HookingLeavesSlots(View(), 0);
      HookAll();
      installed, stale := true, false;
    }

    method StubFromPc(pc: Long) returns (stub: Long)
      requires Valid()
      ensures stub as int == StubOf(View(), pc) as int
    {
      if base == 0 || pc < base || pc >= cursor { return 0; }
      var index := (pc - base) / SLOT;
      stub := base + index * SLOT;
    }

    method DispatchTrap(f: Handlers, pc: Long, r: Registers) returns (out: Registers)
      requires Valid()
      ensures out == Dispatch(View(), f, pc, r)
    {
      hide StubOf, Memory.Read16, Memory.Read32;
      out := r;
      var stub := StubFromPc(pc);
      if stub == 0 { return; }
      var at: int := stub;
      var trap, original := memory.Read16(at + 6), memory.Read32(at + 8);
      out := SetA(out, 0, original);
      out := SetA(out, 1, out.a[7]);
      var k := FindTrap(trap);
      if k == count || entries[k].handler == 0 { return; }
      var (action, q) := f(entries[k].handler, trap, out, original);
      out := q;
      if action == Passthrough {
        out := SetA(out, 0, original);
        out := SetA(out, 1, out.a[7]);
      }
    }
  }

  /** The cursor is inside the pool, or just behind it. */
  predicate SlotsLeftOk(s: Sys) {
    s.base != 0 ==> s.base + POOL + SLOT < 0x1_0000_0000 && s.base <= s.cursor <= s.base + POOL
  }

  lemma HookingLeavesSlots(s: Sys, k: nat)
    requires Hooking(s, k)
    ensures SlotsLeftOk(s)
  {
    hide SlotsHold, OriginalsOutside;
  }

  lemma CursorIsSet(s: Sys)
    requires SlotsLeftOk(s)
    ensures s.base == 0 || s.cursor != 0
  {
  }

  lemma HookKeepsSlotsLeft(s: Sys, k: nat)
    requires SlotsLeftOk(s) && k < |s.descs| && !NoSlot(s)
    ensures SlotsLeftOk(Hook(s, k))
  {
    hide Trampoline;
  }

  lemma HookFromSteps(s: Sys, k: nat)
    requires k < |s.descs|
    ensures s.descs[k].installed ==> HookFrom(s, k) == HookFrom(s, k + 1)
    ensures !s.descs[k].installed && !NoSlot(s) ==> HookFrom(s, k) == HookFrom(Hook(s, k), k + 1)
    ensures !s.descs[k].installed && NoSlot(s) ==>
              HookFrom(s, k) == s.(descs := s.descs[k :=
                                                    s.descs[k].(original := Entry(s.table, s.descs[k].trap),
                                                                stub := 0)])
  {
    hide Hook, NoSlot;
  }

  lemma HookFromEnds(s: Sys, k: nat)
    requires k == |s.descs|
    ensures HookFrom(s, k) == s
  {
  }
}
