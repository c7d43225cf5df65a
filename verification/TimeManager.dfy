/**
  The Time Manager as the code keeps it: a fixed table of descriptors changed in
  place.  Each method is proved to do what the function of Timer says.
 */
module TimeManager {
  import opened GuestMemory
  import opened T = Timer

  class Manager {
    const desc: array<Desc>
    var tasks: map<Long, Task>
    ghost var log: seq<Op>
    var calls: seq<Call>

    constructor (tasks: map<Long, Task>)
      ensures Valid() && fresh(desc) && View().tasks == tasks && View().log == [] && View().calls == []
      ensures forall d :: d in View().descs ==> !d.inUse
    {
      desc := new Desc[SLOTS](_ => Desc(0, Time(0, 0), 0, false));
      this.tasks, log, calls := tasks, [], [];
    }

    ghost predicate Valid()
      reads this
    {
      desc.Length == SLOTS
    }

    ghost function View(): State
      reads this, desc
    {
      State(desc[..], tasks, log, calls)
    }

    method FindTask(tm: Long) returns (k: nat)
      ensures k == FindDesc(desc[..], tm)
    {
      k := 0;
      while k < desc.Length
        invariant k <= desc.Length && forall j :: 0 <= j < k ==> !(desc[j].inUse && desc[j].task == tm)
      {
        if desc[k].inUse && desc[k].task == tm { break; }
        k := k + 1;
      }
    }

    method AllocDesc(tm: Long) returns (k: nat)
      modifies desc
      ensures k == FindFree(old(desc[..]))
      ensures desc[..] == if k < desc.Length then old(desc[..])[k := old(desc[..])[k].(task := tm, inUse := true)]
              else old(desc[..])
    {
      k := 0;
      while k < desc.Length
        invariant k <= desc.Length && desc[..] == old(desc[..]) && forall j :: 0 <= j < k ==> desc[j].inUse
      {
        if !desc[k].inUse {
          desc[k] := desc[k].(task := tm, inUse := true);
          return;
        }
        k := k + 1;
      }
    }

    /** TimerReset: every descriptor is freed. */
    method ResetTimers()
      modifies desc
      ensures View() == Happens(old(View()), Reset)
    {
      for i := 0 to desc.Length
        invariant forall k :: 0 <= k < i ==> desc[k] == old(desc[k]).(inUse := false)
        invariant forall k :: i <= k < desc.Length ==> desc[k] == old(desc[k])
      {
        desc[i] := desc[i].(inUse := false);
      }
    }

    method InsertTask(tm: Long, trap: Word)
      modifies this`tasks, desc
      ensures View() == InsTime(old(View()), tm, trap)
    {
      hide Inserted;
      tasks := tasks[tm := Inserted(Record(State([], tasks, [], []), tm), trap)];
      var k := FindTask(tm);
      if k < desc.Length { return; }
      k := AllocDesc(tm);
    }

    method RemoveTask(tm: Long, now: Time, emuNow: nat)
      modifies this`tasks, desc
      ensures View() == RmvTime(old(View()), tm, now, emuNow)
    {
      hide ToMac, Sub, Add, EmulatedAdvance;
      var k := FindTask(tm);
      if k == desc.Length { return; }
      var t := if tm in tasks then tasks[tm] else BLANK;
      if Active(t) {
        var spent := if emuNow >= desc[k].emu then emuNow - desc[k].emu else 0;
        var current := Add(now, EmulatedAdvance(spent));
        var remaining := Sub(desc[k].wakeup, current);
        tasks := tasks[tm := Deactivated(t).(count := ToMac(remaining))];
      } else {
        tasks := tasks[tm := t.(count := 0)];
      }
      desc[k] := desc[k].(inUse := false);
    }

    method PrimeTask(tm: Long, delay: Int32, now: Time, emuNow: nat)
      modifies this`tasks, desc
      ensures View() == PrimeTime(old(View()), tm, delay, now, emuNow)
    {
      hide Add, FromMac;
      var k := FindTask(tm);
      if k == desc.Length { return; }
      var t := if tm in tasks then tasks[tm] else BLANK;
      var d := desc[k].(emu := emuNow);
      if Extended(t) {
        if t.wakeUp != 0 {
          if delay == 0 {
            desc[k] := d;
            return;
          }
          d := d.(wakeup := Add(d.wakeup, FromMac(delay)));
        } else {
          d := d.(wakeup := Add(now, FromMac(delay)));
        }
        t := t.(wakeUp := 0x1234_5678);
      } else {
        d := d.(wakeup := Add(now, FromMac(delay)));
      }
      desc[k] := d;
      tasks := tasks[tm := Activated(t)];
    }

    /** The guest code a task's routine stands for. */
    method Execute(ops: seq<Op>)
      modifies this`tasks, this`log, desc
      ensures View() == DoAll(old(View()), ops)
    {
      hide InsTime, RmvTime, PrimeTime;
      assert ops[0..] == ops;
      for i := 0 to |ops|
        invariant DoAll(old(View()), ops) == DoAll(View(), ops[i..])
      {
        assert ops[i..][1..] == ops[i + 1..];
        match ops[i] {
          case Insert(tm, trap) => InsertTask(tm, trap);
          case Remove(tm, now, emuNow) => RemoveTask(tm, now, emuNow);
          case Prime(tm, delay, now, emuNow) => PrimeTask(tm, delay, now, emuNow);
          case Poke(tm, task) => tasks := tasks[tm := task];
        }
        log := log + [ops[i]];
      }
    }

    method TimerInterrupt(now: Time, f: Routines)
      modifies this, desc
      ensures View() == Interrupt(old(View()), now, f)
    {
      hide DoAll, Compare;
      for i := 0 to desc.Length
        invariant TurnsFrom(old(View()), 0, now, f) == TurnsFrom(View(), i, now, f)
      {
        ghost var s := View();
        SameSlots(s, i, now, f);
        if desc[i].inUse {
          var tm, wakeup := desc[i].task, desc[i].wakeup;
          var t := if tm in tasks then tasks[tm] else BLANK;
          if Active(t) && Compare(wakeup, now) < 0 {
            var before := t;
            t := Deactivated(t);
            tasks := tasks[tm := t];
            if t.addr != 0 {
              calls := calls + [Call(i, tm, before, t, wakeup)];
              Execute(f(calls));
            }
          }
        }
        assert View() == Turn(s, i, now, f);
      }
    }
  }
}
