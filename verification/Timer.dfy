/**
  The Time Manager (timer.cpp): a table of 64 descriptors, tasks that are
  inserted, primed and removed, and an interrupt that calls the expired ones,
  which may do all of that themselves.
 */
module Timer {
  import opened GuestMemory

  const SLOTS := 64
  const BILLION := 1_000_000_000

  // ------------------------------------------------------------------- time

  /** tm_time_t: seconds and nanoseconds. */
  datatype Time = Time(sec: int, nsec: int)

  predicate Normal(t: Time) {
    0 <= t.nsec < BILLION
  }

  function Ns(t: Time): int {
    t.sec * BILLION + t.nsec
  }

  function Add(a: Time, b: Time): Time {
    var n := a.nsec + b.nsec;
    if n >= BILLION then Time(a.sec + b.sec + 1, n - BILLION) else Time(a.sec + b.sec, n)
  }

  function Sub(a: Time, b: Time): Time {
    var n := a.nsec - b.nsec;
    if n < 0 then Time(a.sec - b.sec - 1, n + BILLION) else Time(a.sec - b.sec, n)
  }

  /** timer_cmp_time: negative, zero or positive. */
  function Compare(a: Time, b: Time): int {
    if a.sec == b.sec then a.nsec - b.nsec else a.sec - b.sec
  }

  /** timer_mac2host_time: positive milliseconds, or negated microseconds. */
  function FromMac(t: Int32): Time {
    var n: int := if t > 0 then t else -(t as int);
    if t > 0 then Time(n / 1000, n % 1000 * 1_000_000) else Time(n / 1_000_000, n % 1_000_000 * 1000)
  }

  /** The delay a Mac time value stands for, in nanoseconds. */
  function DelayNs(t: Int32): int {
    var n: int := t;
    if n > 0 then n * 1_000_000 else -n * 1000
  }

  lemma AddAdds(a: Time, b: Time)
    requires Normal(a) && Normal(b)
    ensures Normal(Add(a, b)) && Ns(Add(a, b)) == Ns(a) + Ns(b)
  {
  }

  lemma SubSubtracts(a: Time, b: Time)
    requires Normal(a) && Normal(b)
    ensures Normal(Sub(a, b)) && Ns(Sub(a, b)) == Ns(a) - Ns(b)
  {
  }

  lemma CompareCompares(a: Time, b: Time)
    requires Normal(a) && Normal(b)
    ensures Compare(a, b) < 0 <==> Ns(a) < Ns(b)
    ensures Compare(a, b) == 0 <==> a == b
  {
  }

  lemma FromMacIsTheDelay(t: Int32)
    ensures Normal(FromMac(t)) && Ns(FromMac(t)) == DelayNs(t)
  {
    var s: int := t;
    if s > 0 {
      assert s == s / 1000 * 1000 + s % 1000;
    } else {
      assert -s == -s / 1_000_000 * 1_000_000 + -s % 1_000_000;
    }
  }

  // ------------------------------------------------------------------ tasks

  /** The fields of a TMTask record. */
  datatype Task = Task(qType: Word, addr: Long, count: Long, wakeUp: Long)

  /** A descriptor; a free one keeps its last contents. */
  datatype Desc = Desc(task: Long, wakeup: Time, emu: nat, inUse: bool)

  datatype Op =
    | Insert(tm: Long, trap: Word)
    | Remove(tm: Long, now: Time, emuNow: nat)
    | Prime(tm: Long, delay: Int32, now: Time, emuNow: nat)
    | Poke(tm: Long, task: Task) // the guest writes the record itself

  /**
    A call of a task's routine: from which slot, the record before the turn and
    as the routine finds it, and the wakeup time.
   */
  datatype Call = Call(slot: nat, tm: Long, before: Task, task: Task, wakeup: Time)

  /** `log` and `calls` are histories: the operations executed, and the calls made. */
  datatype State = State(descs: seq<Desc>, tasks: map<Long, Task>, log: seq<Op>, calls: seq<Call>)

  const BLANK := Task(0, 0, 0, 0)

  function Record(s: State, tm: Long): Task {
    if tm in s.tasks then s.tasks[tm] else BLANK
  }

  predicate Active(t: Task) { t.qType / 0x8000 == 1 }
  predicate Extended(t: Task) { t.qType / 0x4000 % 2 == 1 }
  function Deactivated(t: Task): Task { t.(qType := t.qType % 0x8000) }
  function Activated(t: Task): Task { t.(qType := t.qType % 0x8000 + 0x8000) }

  /** `qType & 0x1fff | (trap << 4) & 0x6000`. */
  function Inserted(t: Task, trap: Word): Task {
    t.(qType := t.qType % 0x2000 + trap / 0x200 % 4 * 0x2000)
  }

  function FindDesc(descs: seq<Desc>, tm: Long): (k: nat)
    ensures k <= |descs|
    ensures k < |descs| ==> descs[k].inUse && descs[k].task == tm
    ensures forall j :: 0 <= j < k ==> !(descs[j].inUse && descs[j].task == tm)
  {
    if descs == [] || (descs[0].inUse && descs[0].task == tm) then 0 else 1 + FindDesc(descs[1..], tm)
  }

  function FindFree(descs: seq<Desc>): (k: nat)
    ensures k <= |descs|
    ensures k < |descs| ==> !descs[k].inUse
    ensures forall j :: 0 <= j < k ==> descs[j].inUse
  {
    if descs == [] || !descs[0].inUse then 0 else 1 + FindFree(descs[1..])
  }

  function SetRecord(s: State, tm: Long, t: Task): State {
    s.(tasks := s.tasks[tm := t])
  }

  /** InsTime; without a free descriptor the task is not entered. */
  function InsTime(s: State, tm: Long, trap: Word): State {
    var t := SetRecord(s, tm, Inserted(Record(s, tm), trap));
    var k := FindFree(s.descs);
    if FindDesc(s.descs, tm) < |s.descs| || k == |s.descs| then t
    else t.(descs := s.descs[k := s.descs[k].(task := tm, inUse := true)])
  }

  /** The emulated time a wall-clock sample is advanced by: microseconds cut to a signed 32-bit number, at least one. */
  function EmulatedAdvance(ns: nat): Time {
    if ns == 0 then Time(0, 0)
    else
      var low := ns / 1000 % 0x1_0000_0000;
      var us: Int32 := if low < 0x8000_0000 then low else low - 0x1_0000_0000;
      FromMac(if us <= 0 then -1 else -us)
  }

  /** timer_host2mac_time. */
  function ToMac(t: Time): Long {
    if t.sec < 0 then 0
    else
      var us := t.sec * 1_000_000 + t.nsec / 1000;
      if us > 0x7fff_ffff then Wrap32(us / 1000) else Wrap32(-us)
  }

  function RmvTime(s: State, tm: Long, now: Time, emuNow: nat): State {
    var k := FindDesc(s.descs, tm);
    if k == |s.descs| then s
    else
      var d, t := s.descs[k], Record(s, tm);
      var spent := if emuNow >= d.emu then emuNow - d.emu else 0;
      var left := ToMac(Sub(d.wakeup, Add(now, EmulatedAdvance(spent))));
      SetRecord(s, tm, if Active(t) then Deactivated(t).(count := left) else t.(count := 0))
        .(descs := s.descs[k := d.(inUse := false)])
  }

  function PrimeTime(s: State, tm: Long, delay: Int32, now: Time, emuNow: nat): State {
    var k, t := FindDesc(s.descs, tm), Record(s, tm);
    if k == |s.descs| then s
    else
      var d := s.descs[k].(emu := emuNow);
      if Extended(t) && t.wakeUp != 0 && delay == 0 then s.(descs := s.descs[k := d])
      else
        var from := if Extended(t) && t.wakeUp != 0 then d.wakeup else now;
        SetRecord(s, tm, Activated(if Extended(t) then t.(wakeUp := 0x1234_5678) else t))
          .(descs := s.descs[k := d.(wakeup := Add(from, FromMac(delay)))])
  }

  function Do(s: State, op: Op): State {
    var r := match op
      case Insert(tm, trap) => InsTime(s, tm, trap)
      case Remove(tm, now, emuNow) => RmvTime(s, tm, now, emuNow)
      case Prime(tm, delay, now, emuNow) => PrimeTime(s, tm, delay, now, emuNow)
      case Poke(tm, task) => SetRecord(s, tm, task);
    r.(log := s.log + [op])
  }

  function DoAll(s: State, ops: seq<Op>): State
    decreases |ops|
  {
    if ops == [] then s else DoAll(Do(s, ops[0]), ops[1..])
  }

  // --------------------------------------------------------- what is left

  /** Microseconds, and milliseconds, that a signed 32-bit number can count. */
  const SOON := 0x8000_0000 * 1000
  const LATER := 0x8000_0000 * 1_000_000

  /**
    The value written to a record stands for the time left: none when it has run
    out, else negated microseconds as long as they fit, else milliseconds.
   */
  predicate HoldsLeft(count: Long, left: int) {
    var v := Signed32(count);
    if left < 0 then v == 0
    else if left < SOON then v <= 0 && DelayNs(v) <= left < DelayNs(v) + 1000
    else left < LATER ==> v > 0 && DelayNs(v) <= left < DelayNs(v) + 1_000_000
  }

  lemma ToMacHoldsLeft(t: Time)
    requires Normal(t)
    ensures HoldsLeft(ToMac(t), Ns(t))
  {
    hide Signed32, Wrap32;
    if t.sec >= 0 {
      var us := t.sec * 1_000_000 + t.nsec / 1000;
      assert us * 1000 <= Ns(t) < us * 1000 + 1000;
      if us <= 0x7fff_ffff { Microseconds(us); } else if Ns(t) < LATER { Milliseconds(us); }
    } else {
      assert Signed32(0) == 0 by { Microseconds(0); }
    }
  }

  lemma Microseconds(us: int)
    requires 0 <= us <= 0x7fff_ffff
    ensures Signed32(Wrap32(-us)) == -us && (us == 0 ==> Wrap32(-us) == 0)
  {
  }

  lemma Milliseconds(us: int)
    requires 0x7fff_ffff < us < 0x8000_0000 * 1000
    ensures Signed32(Wrap32(us / 1000)) == us / 1000 > 0 && us / 1000 * 1000 <= us < us / 1000 * 1000 + 1000
  {
  }

  /** The wall clock is advanced by whole microseconds, at least one for any time spent at all. */
  lemma EmulatedAdvanceIs(ns: nat)
    requires ns < SOON
    ensures Normal(EmulatedAdvance(ns))
    ensures Ns(EmulatedAdvance(ns)) == if ns == 0 then 0 else if ns < 1000 then 1000 else ns / 1000 * 1000
  {
    hide FromMac;
    if ns > 0 { FromMacIsTheDelay(if ns < 1000 then -1 else -(ns / 1000)); }
  }

  /** Emulated time spent since a task was primed. */
  function Spent(d: Desc, emuNow: nat): nat {
    if emuNow >= d.emu then emuNow - d.emu else 0
  }

  /** The nanoseconds to a descriptor's wakeup, the wall clock advanced by the emulated time spent. */
  function NsLeft(d: Desc, now: Time, emuNow: nat): int {
    Ns(d.wakeup) - Ns(now) - Ns(EmulatedAdvance(Spent(d, emuNow)))
  }

  /**
    Removing a task leaves in its record the time it had left when it was active,
    and 0 when it was not; it is inactive, and its descriptor free.
   */
  lemma RemovedTaskHoldsWhatIsLeft(s: State, tm: Long, now: Time, emuNow: nat)
    requires FindDesc(s.descs, tm) < |s.descs| && Normal(now)
    requires var d := s.descs[FindDesc(s.descs, tm)]; Normal(d.wakeup) && Spent(d, emuNow) < SOON
    ensures var k, t, r := FindDesc(s.descs, tm), Record(s, tm), RmvTime(s, tm, now, emuNow);
            var u := Record(r, tm);
            && r.descs == s.descs[k := s.descs[k].(inUse := false)]
            && !Active(u) && u.addr == t.addr && u.wakeUp == t.wakeUp && u.qType % 0x8000 == t.qType % 0x8000
            && (Active(t) ==> HoldsLeft(u.count, NsLeft(s.descs[k], now, emuNow)))
            && (!Active(t) ==> u.count == 0)
  {
    hide Add, Sub, ToMac, EmulatedAdvance, HoldsLeft, Ns, Normal;
    var d := s.descs[FindDesc(s.descs, tm)];
    var spent := EmulatedAdvance(Spent(d, emuNow));
    EmulatedAdvanceIs(Spent(d, emuNow));
    AddAdds(now, spent);
    SubSubtracts(d.wakeup, Add(now, spent));
    ToMacHoldsLeft(Sub(d.wakeup, Add(now, spent)));
  }

  lemma FoundAgain(descs: seq<Desc>, tm: Long, d: Desc)
    requires FindDesc(descs, tm) < |descs| && d.inUse && d.task == tm
    ensures FindDesc(descs[FindDesc(descs, tm) := d], tm) == FindDesc(descs, tm)
  {
    var k := FindDesc(descs, tm);
    var next := descs[k := d];
    assert next[k].inUse && next[k].task == tm;
    assert forall j :: 0 <= j < k ==> next[j] == descs[j];
  }

  /**
    A plain task primed and removed some time later is left with its delay less
    the wall-clock time gone and the emulated time spent.
   */
  lemma PrimedThenRemovedLeavesTheRest(s: State, tm: Long, delay: Int32, now: Time, emuNow: nat, later: Time,
                                       emuLater: nat)
    requires FindDesc(s.descs, tm) < |s.descs| && !Extended(Record(s, tm)) && Normal(now) && Normal(later)
    requires emuNow <= emuLater < emuNow + SOON
    ensures var r := RmvTime(PrimeTime(s, tm, delay, now, emuNow), tm, later, emuLater);
            HoldsLeft(Record(r, tm).count,
                      DelayNs(delay) - (Ns(later) - Ns(now)) - Ns(EmulatedAdvance(emuLater - emuNow)))
  {
    hide Add, FromMac, EmulatedAdvance, HoldsLeft, Ns, Normal, DelayNs;
    var k, p := FindDesc(s.descs, tm), PrimeTime(s, tm, delay, now, emuNow);
    FoundAgain(s.descs, tm, p.descs[k]);
    FromMacIsTheDelay(delay);
    AddAdds(now, FromMac(delay));
    RemovedTaskHoldsWhatIsLeft(p, tm, later, emuLater);
  }

  // -------------------------------------------------------------- interrupt

  /** What a task's routine does, given the calls made so far, its own last. */
  type Routines = seq<Call> -> seq<Op>

  predicate Due(s: State, k: nat, now: Time)
    requires k < |s.descs|
  {
    var d := s.descs[k];
    d.inUse && Active(Record(s, d.task)) && Compare(d.wakeup, now) < 0
  }

  /** The k-th slot's turn: an expired task is marked inactive, and then called. */
  function Turn(s: State, k: nat, now: Time, f: Routines): State
    requires k < |s.descs|
  {
    if !Due(s, k, now) then s
    else
      var d := s.descs[k];
      var t := Deactivated(Record(s, d.task));
      var r := SetRecord(s, d.task, t);
      if t.addr == 0 then r
      else
        var c := r.(calls := s.calls + [Call(k, d.task, Record(s, d.task), t, d.wakeup)]);
        DoAll(c, f(c.calls))
  }

  function TurnsFrom(s: State, k: nat, now: Time, f: Routines): State
    decreases |s.descs| - k
  {
    if k >= |s.descs| then s
    else
      SameSlots(s, k, now, f);
      TurnsFrom(Turn(s, k, now, f), k + 1, now, f)
  }

  /** TimerInterrupt. */
  function Interrupt(s: State, now: Time, f: Routines): State {
    TurnsFrom(s, 0, now, f)
  }

  lemma DoKeepsSlots(s: State, op: Op)
    ensures |Do(s, op).descs| == |s.descs| && Do(s, op).calls == s.calls && Do(s, op).log == s.log + [op]
  {
    hide Record, Inserted, Add, FromMac, ToMac, EmulatedAdvance, Sub;
  }

  lemma {:induction false} DoAllKeepsSlots(s: State, ops: seq<Op>)
    ensures |DoAll(s, ops).descs| == |s.descs| && DoAll(s, ops).calls == s.calls && DoAll(s, ops).log == s.log + ops
    decreases |ops|
  {
    hide Do;
    if ops != [] {
      DoKeepsSlots(s, ops[0]);
      DoAllKeepsSlots(Do(s, ops[0]), ops[1..]);
      assert s.log + ops == s.log + [ops[0]] + ops[1..];
    }
  }

  lemma SameSlots(s: State, k: nat, now: Time, f: Routines)
    requires k < |s.descs|
    ensures |Turn(s, k, now, f).descs| == |s.descs|
  {
    hide DoAll, Record;
    if Due(s, k, now) {
      var d := s.descs[k];
      var t := Deactivated(Record(s, d.task));
      var c := SetRecord(s, d.task, t).(calls := s.calls + [Call(k, d.task, Record(s, d.task), t, d.wakeup)]);
      DoAllKeepsSlots(c, f(c.calls));
    }
  }

  // -------------------------------------------------------------- invariant

  /** No two descriptors in use name the same task. */
  ghost predicate Distinct(descs: seq<Desc>) {
    forall i, j :: 0 <= i < j < |descs| && descs[i].inUse && descs[j].inUse ==> descs[i].task != descs[j].task
  }

  lemma DoKeepsDistinct(s: State, op: Op)
    requires Distinct(s.descs)
    ensures Distinct(Do(s, op).descs)
  {
    hide Record, Inserted, Add, FromMac, ToMac, EmulatedAdvance, Sub;
  }

  lemma {:induction false} DoAllKeepsDistinct(s: State, ops: seq<Op>)
    requires Distinct(s.descs)
    ensures Distinct(DoAll(s, ops).descs)
    decreases |ops|
  {
    hide Do;
    if ops != [] {
      DoKeepsDistinct(s, ops[0]);
      DoAllKeepsDistinct(Do(s, ops[0]), ops[1..]);
    }
  }

  lemma TurnKeepsDistinct(s: State, k: nat, now: Time, f: Routines)
    requires k < |s.descs| && Distinct(s.descs)
    ensures Distinct(Turn(s, k, now, f).descs)
  {
    hide DoAll, Record, Distinct;
    if Due(s, k, now) {
      var d := s.descs[k];
      var t := Deactivated(Record(s, d.task));
      var c := SetRecord(s, d.task, t).(calls := s.calls + [Call(k, d.task, Record(s, d.task), t, d.wakeup)]);
      DoAllKeepsDistinct(c, f(c.calls));
    }
  }

  /** With tasks that insert, remove and prime as they run, descriptors in use keep naming different tasks. */
  lemma {:induction false} InterruptKeepsDistinct(s: State, k: nat, now: Time, f: Routines)
    requires Distinct(s.descs)
    ensures Distinct(TurnsFrom(s, k, now, f).descs)
    decreases |s.descs| - k
  {
    hide Turn, Distinct;
    if k < |s.descs| {
      SameSlots(s, k, now, f);
      TurnKeepsDistinct(s, k, now, f);
      InterruptKeepsDistinct(Turn(s, k, now, f), k + 1, now, f);
    }
  }

  // ------------------------------------------------------------------ calls

  /** The state in which the loop comes to slot k. */
  function Reached(s: State, k: nat, now: Time, f: Routines): (r: State)
    requires k <= |s.descs|
    ensures |r.descs| == |s.descs|
    decreases k
  {
    if k == 0 then s
    else
      var before := Reached(s, k - 1, now, f);
      SameSlots(before, k - 1, now, f);
      Turn(before, k - 1, now, f)
  }

  lemma {:induction false} ReachedThenTurns(s: State, k: nat, now: Time, f: Routines)
    requires k <= |s.descs|
    ensures Interrupt(s, now, f) == TurnsFrom(Reached(s, k, now, f), k, now, f)
    decreases k
  {
    hide Turn;
    if k > 0 { ReachedThenTurns(s, k - 1, now, f); }
  }

  predicate Earlier(a: Time, b: Time) {
    a.sec < b.sec || (a.sec == b.sec && a.nsec < b.nsec)
  }

  /** The slot's task is in use, active, expired, and has a routine. */
  predicate Callable(s: State, k: nat, now: Time)
    requires k < |s.descs|
  {
    var d := s.descs[k];
    d.inUse && Active(Record(s, d.task)) && Earlier(d.wakeup, now) && Record(s, d.task).addr != 0
  }

  /** A call of the task whose slot it is, as the slot stood in `s`, marked inactive. */
  predicate CallOf(c: Call, s: State, now: Time) {
    && c.slot < |s.descs| && Callable(s, c.slot, now)
    && c.tm == s.descs[c.slot].task && c.wakeup == s.descs[c.slot].wakeup
    && c.before == Record(s, c.tm) && Active(c.before)
    && c.task == Deactivated(c.before) && !Active(c.task)
  }

  /** A turn makes one call if the slot is callable, and none otherwise. */
  lemma TurnCalls(s: State, k: nat, now: Time, f: Routines)
    requires k < |s.descs|
    ensures var calls := Turn(s, k, now, f).calls;
            if Callable(s, k, now) then
              |calls| == |s.calls| + 1 && calls[..|s.calls|] == s.calls && calls[|s.calls|].slot == k
                  && CallOf(calls[|s.calls|], s, now)
            else calls == s.calls
  {
    hide DoAll, Record;
    if Due(s, k, now) {
      var d := s.descs[k];
      var t := Deactivated(Record(s, d.task));
      var c := SetRecord(s, d.task, t).(calls := s.calls + [Call(k, d.task, Record(s, d.task), t, d.wakeup)]);
      DoAllKeepsSlots(c, f(c.calls));
    }
  }

  /** The calls after the first n come from rising slots below k, each as its slot stood at its turn. */
  ghost predicate OwnCalls(s: State, k: nat, now: Time, f: Routines, calls: seq<Call>, n: nat)
    requires k <= |s.descs|
  {
    && n <= |calls| <= n + k
    && (forall i :: n <= i < |calls| ==> calls[i].slot < k && CallOf(calls[i], Reached(s, calls[i].slot, now, f), now))
    && (forall i, j :: n <= i < j < |calls| ==> calls[i].slot < calls[j].slot)
  }

  /** Every slot below k that is callable at its turn has been called. */
  ghost predicate NoneMissed(s: State, k: nat, now: Time, f: Routines, calls: seq<Call>, n: nat)
    requires k <= |s.descs|
  {
    forall j :: 0 <= j < k && Callable(Reached(s, j, now, f), j, now)
        ==> exists i :: n <= i < |calls| && calls[i].slot == j
  }

  lemma {:induction false} ReachedCalls(s: State, k: nat, now: Time, f: Routines)
    requires k <= |s.descs|
    ensures var calls := Reached(s, k, now, f).calls;
            && OwnCalls(s, k, now, f, calls, |s.calls|) && calls[..|s.calls|] == s.calls
            && NoneMissed(s, k, now, f, calls, |s.calls|)
    decreases k
  {
    hide Turn, CallOf, Callable, Reached;
    if k == 0 {
      assert Reached(s, 0, now, f) == s by { ReachedStep(s, 0, now, f); }
    } else {
      ReachedCalls(s, k - 1, now, f);
      var before := Reached(s, k - 1, now, f);
      ReachedStep(s, k, now, f);
      TurnCalls(before, k - 1, now, f);
      OneMoreTurn(s, k, now, f, before.calls, Reached(s, k, now, f).calls);
    }
  }

  lemma ReachedStep(s: State, k: nat, now: Time, f: Routines)
    requires k <= |s.descs|
    ensures Reached(s, k, now, f) == if k == 0 then s else Turn(Reached(s, k - 1, now, f), k - 1, now, f)
  {
    hide Turn;
  }

  lemma OneMoreTurn(s: State, k: nat, now: Time, f: Routines, a: seq<Call>, b: seq<Call>)
    requires 0 < k <= |s.descs|
    requires OwnCalls(s, k - 1, now, f, a, |s.calls|) && a[..|s.calls|] == s.calls
            && NoneMissed(s, k - 1, now, f, a, |s.calls|)
    requires var before := Reached(s, k - 1, now, f);
             if Callable(before, k - 1, now) then
               |b| == |a| + 1 && b[..|a|] == a && b[|a|].slot == k - 1 && CallOf(b[|a|], before, now)
             else b == a
    ensures OwnCalls(s, k, now, f, b, |s.calls|) && b[..|s.calls|] == s.calls && NoneMissed(s, k, now, f, b, |s.calls|)
  {
    hide Turn, CallOf, Callable, Reached;
    var n := |s.calls|;
    assert forall i :: 0 <= i < |a| ==> b[i] == a[i] by {
      if b != a { assert forall i :: 0 <= i < |a| ==> b[..|a|][i] == b[i]; }
    }
    forall j | 0 <= j < k && Callable(Reached(s, j, now, f), j, now)
      ensures exists i :: n <= i < |b| && b[i].slot == j
    {
      if j < k - 1 {
        var i :| n <= i < |a| && a[i].slot == j;
        assert b[i].slot == j;
      } else {
        assert b[|a|].slot == j;
      }
    }
  }

  /**
    One interrupt makes at most 64 calls, at most one from each descriptor and in
    their order.  A slot is called if and only if its task is in use, active and
    expired, and has a routine, when the loop comes to it; the call is of that
    task, with its record marked inactive before.
   */
  lemma InterruptCallsEachSlotAtMostOnce(s: State, now: Time, f: Routines)
    requires |s.descs| == SLOTS
    ensures var calls := Interrupt(s, now, f).calls;
            && OwnCalls(s, SLOTS, now, f, calls, |s.calls|) && calls[..|s.calls|] == s.calls
            && forall k :: 0 <= k < SLOTS ==>
                 (Callable(Reached(s, k, now, f), k, now)
                  <==> exists i :: |s.calls| <= i < |calls| && calls[i].slot == k)
  {
    hide Reached, Turn, Callable, CallOf;
    ReachedCalls(s, SLOTS, now, f);
    ReachedThenTurns(s, SLOTS, now, f);
    var calls := Interrupt(s, now, f).calls;
    forall i | |s.calls| <= i < |calls| ensures Callable(Reached(s, calls[i].slot, now, f), calls[i].slot, now) {
      CallOfCallable(calls[i], Reached(s, calls[i].slot, now, f), now);
    }
  }

  lemma CallOfCallable(c: Call, s: State, now: Time)
    requires CallOf(c, s, now)
    ensures c.slot < |s.descs| && Callable(s, c.slot, now)
  {
  }

  // ------------------------------------------------------------ no drift

  /** The delays a task was primed with, in nanoseconds, added up. */
  function Delays(log: seq<Op>, tm: Long): int {
    if log == [] then 0
    else (if log[0].Prime? && log[0].tm == tm then DelayNs(log[0].delay) else 0) + Delays(log[1..], tm)
  }

  lemma {:induction false} DelaysAdd(a: seq<Op>, b: seq<Op>, tm: Long)
    ensures Delays(a + b, tm) == Delays(a, tm) + Delays(b, tm)
    decreases |a|
  {
    if a == [] {
      assert a + b == b;
    } else {
      assert (a + b)[1..] == a[1..] + b;
      DelaysAdd(a[1..], b, tm);
    }
  }

  /** An operation that neither removes nor re-inserts the task, nor writes its record, nor primes it with 0. */
  predicate Steady(op: Op, tm: Long) {
    match op
    case Insert(t, _) => t != tm
    case Remove(t, _, _) => t != tm
    case Prime(t, delay, _, _) => t == tm ==> delay != 0
    case Poke(t, _) => t != tm
  }

  ghost predicate AllSteady(log: seq<Op>, tm: Long) {
    forall i :: 0 <= i < |log| ==> Steady(log[i], tm)
  }

  /** An extended task that has been primed before. */
  predicate Scheduled(s: State, tm: Long) {
    var k := FindDesc(s.descs, tm);
    k < |s.descs| && Extended(Record(s, tm)) && Record(s, tm).wakeUp != 0 && Normal(s.descs[k].wakeup)
  }

  function WakeNs(s: State, tm: Long): int
    requires Scheduled(s, tm)
  {
    Ns(s.descs[FindDesc(s.descs, tm)].wakeup)
  }

  /** The task stays scheduled, and its wakeup time moves by exactly `shift`. */
  ghost predicate Moves(s: State, r: State, tm: Long, shift: int)
    requires Scheduled(s, tm)
  {
    Scheduled(r, tm) && WakeNs(r, tm) == WakeNs(s, tm) + shift
  }

  lemma SameDescMoves(s: State, r: State, tm: Long)
    requires Scheduled(s, tm) && Record(r, tm).qType / 0x4000 % 2 == Record(s, tm).qType / 0x4000 % 2
            && Record(r, tm).wakeUp == Record(s, tm).wakeUp
    requires |r.descs| == |s.descs|
    requires forall i :: 0 <= i < |s.descs| && s.descs[i].inUse && s.descs[i].task == tm ==> r.descs[i] == s.descs[i]
    requires forall i :: 0 <= i < |s.descs| && !(s.descs[i].inUse && s.descs[i].task == tm) ==>
               !(r.descs[i].inUse && r.descs[i].task == tm)
    ensures Moves(s, r, tm, 0)
  {
    var k := FindDesc(s.descs, tm);
    assert FindDesc(r.descs, tm) == k;
  }

  lemma OtherTaskMoves(s: State, op: Op, tm: Long)
    requires Scheduled(s, tm) && Steady(op, tm) && op.tm != tm
    ensures Moves(s, Do(s, op), tm, 0)
  {
    hide Scheduled, Add, FromMac, ToMac, EmulatedAdvance, Sub;
    SameDescMoves(s, Do(s, op), tm);
  }

  lemma OwnPrimeMoves(s: State, op: Op, tm: Long)
    requires Scheduled(s, tm) && op.Prime? && op.tm == tm && op.delay != 0
    ensures Moves(s, Do(s, op), tm, DelayNs(op.delay))
  {
    hide Add, FromMac, DelayNs, Ns;
    var k := FindDesc(s.descs, tm);
    var r := Do(s, op);
    FromMacIsTheDelay(op.delay);
    AddAdds(s.descs[k].wakeup, FromMac(op.delay));
    assert r.descs[k].inUse && r.descs[k].task == tm;
    assert forall i :: 0 <= i < |s.descs| && i != k ==> r.descs[i] == s.descs[i];
    assert FindDesc(r.descs, tm) == k;
    ActivatedStaysExtended(Record(s, tm).(wakeUp := 0x1234_5678));
  }

  lemma ActivatedStaysExtended(t: Task)
    ensures Extended(Activated(t)) == Extended(t) && Activated(t).wakeUp == t.wakeUp
    ensures Extended(Deactivated(t)) == Extended(t) && Deactivated(t).wakeUp == t.wakeUp
  {
  }

  lemma {:induction false} DoAllMoves(s: State, ops: seq<Op>, tm: Long)
    requires Scheduled(s, tm) && AllSteady(ops, tm)
    ensures Moves(s, DoAll(s, ops), tm, Delays(ops, tm))
    decreases |ops|
  {
    hide Do, Scheduled, WakeNs, DelayNs, Steady;
    if ops != [] {
      var op := ops[0];
      assert Steady(op, tm);
      assert Moves(s, Do(s, op), tm, if op.Prime? && op.tm == tm then DelayNs(op.delay) else 0) by {
        OneMove(s, op, tm);
      }
      DoAllMoves(Do(s, op), ops[1..], tm);
    }
  }

  lemma OneMove(s: State, op: Op, tm: Long)
    requires Scheduled(s, tm) && Steady(op, tm)
    ensures Moves(s, Do(s, op), tm, if op.Prime? && op.tm == tm then DelayNs(op.delay) else 0)
  {
    hide Do, Scheduled, WakeNs, DelayNs, Moves;
    if op.tm == tm { OwnPrimeMoves(s, op, tm); } else { OtherTaskMoves(s, op, tm); }
  }

  lemma TurnMoves(s: State, k: nat, now: Time, f: Routines, tm: Long)
    requires k < |s.descs| && Scheduled(s, tm)
    ensures var r := Turn(s, k, now, f);
            |r.log| >= |s.log| && r.log[..|s.log|] == s.log
            && (AllSteady(r.log[|s.log|..], tm) ==> Moves(s, r, tm, Delays(r.log[|s.log|..], tm)))
  {
    hide DoAll, Do, Scheduled, WakeNs, Delays, AllSteady, FindDesc;
    var r := Turn(s, k, now, f);
    if !Due(s, k, now) {
      assert r.log[|s.log|..] == [];
      NothingMoves(s, tm);
    } else {
      var d := s.descs[k];
      var t := Deactivated(Record(s, d.task));
      var p := SetRecord(s, d.task, t);
      DeactivationMoves(s, d.task, tm);
      var c := p.(calls := s.calls + [Call(k, d.task, Record(s, d.task), t, d.wakeup)]);
      CallsDoNotMatter(p, c, tm);
      if t.addr == 0 {
        assert r.log[|s.log|..] == [];
        NothingMoves(s, tm);
      } else {
        DoAllKeepsSlots(c, f(c.calls));
        assert r.log[|s.log|..] == f(c.calls);
        if AllSteady(f(c.calls), tm) { DoAllMoves(c, f(c.calls), tm); }
      }
    }
  }

  lemma NothingMoves(s: State, tm: Long)
    ensures Delays([], tm) == 0 && (Scheduled(s, tm) ==> Moves(s, s, tm, 0))
  {
    hide Scheduled, WakeNs;
  }

  lemma DeactivationMoves(s: State, other: Long, tm: Long)
    requires Scheduled(s, tm)
    ensures Moves(s, SetRecord(s, other, Deactivated(Record(s, other))), tm, 0)
  {
    hide Deactivated, Normal, Ns;
    ActivatedStaysExtended(Record(s, other));
  }

  lemma CallsDoNotMatter(s: State, r: State, tm: Long)
    requires Scheduled(s, tm) && r == s.(calls := r.calls)
    ensures Scheduled(r, tm) && WakeNs(r, tm) == WakeNs(s, tm)
  {
    hide Normal, Ns;
  }

  lemma {:induction false} TurnsMove(s: State, k: nat, now: Time, f: Routines, tm: Long)
    requires Scheduled(s, tm) && k <= |s.descs|
    ensures var r := TurnsFrom(s, k, now, f);
            |r.log| >= |s.log| && r.log[..|s.log|] == s.log
            && (AllSteady(r.log[|s.log|..], tm) ==> Moves(s, r, tm, Delays(r.log[|s.log|..], tm)))
    decreases |s.descs| - k
  {
    hide Turn, Scheduled, WakeNs, Delays, Steady;
    if k == |s.descs| {
      assert s.log[|s.log|..] == [];
      NothingMoves(s, tm);
    } else {
      var t := Turn(s, k, now, f);
      SameSlots(s, k, now, f);
      TurnMoves(s, k, now, f, tm);
      TurnsLog(t, k + 1, now, f);
      var r := TurnsFrom(t, k + 1, now, f);
      LogSplits(s.log, t.log, r.log, tm);
      if AllSteady(r.log[|s.log|..], tm) {
        TurnsMove(t, k + 1, now, f, tm);
      }
    }
  }

  lemma LogSplits(a: seq<Op>, b: seq<Op>, c: seq<Op>, tm: Long)
    requires |a| <= |b| <= |c| && b[..|a|] == a && c[..|b|] == b
    ensures c[..|a|] == a && Delays(c[|a|..], tm) == Delays(b[|a|..], tm) + Delays(c[|b|..], tm)
    ensures AllSteady(c[|a|..], tm) ==> AllSteady(b[|a|..], tm) && AllSteady(c[|b|..], tm)
  {
    hide Delays, Steady;
    assert c[|a|..] == b[|a|..] + c[|b|..];
    assert c[..|a|] == c[..|b|][..|a|];
    DelaysAdd(b[|a|..], c[|b|..], tm);
    if AllSteady(c[|a|..], tm) {
      forall i | 0 <= i < |b[|a|..]| ensures Steady(b[|a|..][i], tm) { assert c[|a|..][i] == b[|a|..][i]; }
      forall i | 0 <= i < |c[|b|..]| ensures Steady(c[|b|..][i], tm) { assert c[|a|..][|b| - |a| + i] == c[|b|..][i]; }
    }
  }

  lemma {:induction false} TurnsLog(s: State, k: nat, now: Time, f: Routines)
    requires k <= |s.descs|
    ensures |TurnsFrom(s, k, now, f).log| >= |s.log| && TurnsFrom(s, k, now, f).log[..|s.log|] == s.log
    decreases |s.descs| - k
  {
    hide Turn;
    if k < |s.descs| {
      var t := Turn(s, k, now, f);
      SameSlots(s, k, now, f);
      TurnLog(s, k, now, f);
      TurnsLog(t, k + 1, now, f);
      assert TurnsFrom(t, k + 1, now, f).log[..|s.log|] == TurnsFrom(t, k + 1, now, f).log[..|t.log|][..|s.log|];
    }
  }

  lemma TurnLog(s: State, k: nat, now: Time, f: Routines)
    requires k < |s.descs|
    ensures |Turn(s, k, now, f).log| >= |s.log| && Turn(s, k, now, f).log[..|s.log|] == s.log
  {
    hide DoAll, Record;
    if Due(s, k, now) {
      var d := s.descs[k];
      var t := Deactivated(Record(s, d.task));
      var c := SetRecord(s, d.task, t).(calls := s.calls + [Call(k, d.task, Record(s, d.task), t, d.wakeup)]);
      DoAllKeepsSlots(c, f(c.calls));
    }
  }

  /** Guest calls, timer interrupts and machine resets, in any order. */
  datatype Event = Guest(op: Op) | Tick(now: Time, f: Routines) | Reset

  /** TimerReset: no descriptor is in use any more. */
  function AllFreed(descs: seq<Desc>): (r: seq<Desc>)
    ensures |r| == |descs| && forall i :: 0 <= i < |r| ==> !r[i].inUse
  {
    seq(|descs|, i requires 0 <= i < |descs| => descs[i].(inUse := false))
  }

  function Happens(s: State, e: Event): State {
    match e
    case Guest(op) => Do(s, op)
    case Tick(now, f) => Interrupt(s, now, f)
    case Reset => s.(descs := AllFreed(s.descs))
  }

  function Run(s: State, events: seq<Event>): State
    decreases |events|
  {
    if events == [] then s else Run(Happens(s, events[0]), events[1..])
  }

  lemma {:induction false} RunLog(s: State, events: seq<Event>)
    ensures |Run(s, events).log| >= |s.log| && Run(s, events).log[..|s.log|] == s.log
    decreases |events|
  {
    hide Do, TurnsFrom;
    if events != [] {
      var t := Happens(s, events[0]);
      match events[0] {
        case Guest(op) => DoKeepsSlots(s, op);
        case Tick(now, f) => TurnsLog(s, 0, now, f);
        case Reset =>
      }
      RunLog(t, events[1..]);
      assert Run(t, events[1..]).log[..|s.log|] == Run(t, events[1..]).log[..|t.log|][..|s.log|];
    }
  }

  lemma NoneInUseIsDistinct(descs: seq<Desc>)
    requires forall i :: 0 <= i < |descs| ==> !descs[i].inUse
    ensures Distinct(descs)
  {
  }

  /** In every run, no two descriptors in use name the same task. */
  lemma {:induction false} RunKeepsDistinct(s: State, events: seq<Event>)
    requires Distinct(s.descs)
    ensures Distinct(Run(s, events).descs)
    decreases |events|
  {
    hide Do, TurnsFrom, Distinct;
    if events != [] {
      match events[0] {
        case Guest(op) => DoKeepsDistinct(s, op);
        case Tick(now, f) => InterruptKeepsDistinct(s, 0, now, f);
        case Reset => assert Distinct(AllFreed(s.descs)) by { NoneInUseIsDistinct(AllFreed(s.descs)); }
      }
      RunKeepsDistinct(Happens(s, events[0]), events[1..]);
    }
  }

  /** The operations executed from one state to a later one. */
  function NewOps(s: State, r: State): seq<Op> {
    if |r.log| >= |s.log| then r.log[|s.log|..] else []
  }

  /**
    An extended task that is re-primed with delays other than 0 and never removed
    wakes at its first wakeup time plus the sum of those delays, however late the
    interrupts ran and whoever primed it, its own routine included.
   */
  lemma {:induction false} ExtendedTasksDoNotDrift(s: State, events: seq<Event>, tm: Long)
    requires Scheduled(s, tm) && AllSteady(NewOps(s, Run(s, events)), tm) && Reset !in events
    ensures Moves(s, Run(s, events), tm, Delays(NewOps(s, Run(s, events)), tm))
    decreases |events|
  {
    hide Do, TurnsFrom, Scheduled, WakeNs, Delays, Steady;
    if events == [] {
      assert s.log[|s.log|..] == [];
      NothingMoves(s, tm);
    } else {
      var t := Happens(s, events[0]);
      var r := Run(t, events[1..]);
      RunLog(t, events[1..]);
      match events[0] {
        case Guest(op) => DoKeepsSlots(s, op);
        case Tick(now, f) => TurnsMove(s, 0, now, f, tm);
      }
      LogSplits(s.log, t.log, r.log, tm);
      if events[0].Guest? {
        GuestMoves(s, events[0].op, t, tm);
      }
      ExtendedTasksDoNotDrift(t, events[1..], tm);
    }
  }

  lemma GuestMoves(s: State, op: Op, t: State, tm: Long)
    requires Scheduled(s, tm) && t == Do(s, op) && t.log == s.log + [op] && AllSteady(t.log[|s.log|..], tm)
    ensures Moves(s, t, tm, Delays(t.log[|s.log|..], tm))
  {
    hide Do, Scheduled, WakeNs, DelayNs;
    assert t.log[|s.log|..] == [op] && [op][0] == op;
    var none: seq<Op> := [];
    assert [op][1..] == none;
    assert Steady([op][0], tm);
    OneMove(s, op, tm);
  }

  // ------------------------------------------------------------ every due task

  /** Routines that leave the Time Manager alone. */
  ghost predicate Quiet(f: Routines) {
    forall c :: f(c) == []
  }

  lemma QuietTurn(s: State, k: nat, now: Time, f: Routines, i: nat)
    requires k < |s.descs| && i < |s.descs| && Distinct(s.descs) && Quiet(f) && s.descs[i].inUse
    ensures var r := Turn(s, k, now, f);
            && r.descs == s.descs
            && (i != k ==> Record(r, s.descs[i].task) == Record(s, s.descs[i].task))
            && !Due(r, k, now)
            && (r.calls == s.calls + if Due(s, k, now) && Record(s, s.descs[k].task).addr != 0
                                     then [Call(k, s.descs[k].task, Record(s, s.descs[k].task),
                                                Deactivated(Record(s, s.descs[k].task)), s.descs[k].wakeup)] else [])
  {
    hide Compare;
  }

  /**
    When the routines leave the Time Manager alone, an interrupt calls every task
    that was active and expired and has a routine, and leaves none of them due.
   */
  lemma {:induction false} QuietInterruptCallsEveryDueTask(s: State, k: nat, now: Time, f: Routines, i: nat)
    requires k <= |s.descs| && i < |s.descs| && Distinct(s.descs) && Quiet(f) && s.descs[i].inUse
    ensures var r := TurnsFrom(s, k, now, f);
            && r.descs == s.descs && |r.calls| >= |s.calls| && r.calls[..|s.calls|] == s.calls
            && (i < k ==> Record(r, s.descs[i].task) == Record(s, s.descs[i].task))
            && (k <= i ==> !Due(r, i, now))
            && (k <= i && Due(s, i, now) && Record(s, s.descs[i].task).addr != 0
                ==> exists c :: c in r.calls[|s.calls|..] && c.slot == i && c.tm == s.descs[i].task)
    decreases |s.descs| - k
  {
    hide Turn, Distinct, Quiet, Compare;
    if k < |s.descs| {
      var t := Turn(s, k, now, f);
      QuietTurn(s, k, now, f, i);
      QuietInterruptCallsEveryDueTask(t, k + 1, now, f, i);
      var r := TurnsFrom(t, k + 1, now, f);
      assert r.calls[..|s.calls|] == r.calls[..|t.calls|][..|s.calls|];
      if k == i && Due(s, i, now) && Record(s, s.descs[i].task).addr != 0 {
        assert r.calls[|s.calls|] == r.calls[..|t.calls|][|s.calls|] == t.calls[|s.calls|];
        assert r.calls[|s.calls|] in r.calls[|s.calls|..];
      } else if k < i && Due(s, i, now) && Record(s, s.descs[i].task).addr != 0 {
        var c :| c in r.calls[|t.calls|..] && c.slot == i && c.tm == s.descs[i].task;
        var n :| 0 <= n < |r.calls[|t.calls|..]| && r.calls[|t.calls|..][n] == c;
        assert r.calls[|s.calls|..][|t.calls| - |s.calls| + n] == c;
      }
    }
  }
}
