/**
  The hand-over of assembled routines to the guest (toolbox_window.cpp): the
  event filter assembles the pending operations into the scratch area, raises a
  flag, and the filter stub enters the routine.  Applications enter the filter
  and yield inside the routine's calls in any order.
 */
module SafePoint {
  import opened GuestMemory
  import opened Machine68k
  import opened WindowCalls

  const PATIENCE := 600

  // ------------------------------------------------------- the host's side

  /** The bytes the host and the stub share, and the host's own state. */
  datatype Host = Host(
    installed: bool, base: CodeBase, flag: bool, busy: bool, scratch: seq<Instr>, serial: nat,
    pending: seq<WindowOp>, known: seq<Long>, stalled: nat, number: Word, width: Int16, height: Int16)

  /**
    What the video driver answers: whether the Display Manager is there, the
    mode's id, its depth, whether a plain switch worked.
   */
  datatype Video = Video(manager: bool, mode: Long, depth: Long, switched: bool)

  /** What a visit of the filter found. */
  datatype Pass =
    | Idle                    // nothing to do
    | Blocked(serial: nat)    // work, but a routine is waiting or running
    | GaveUp(serial: nat)     // the same once too often: flag and busy cleared by force
    | Free                    // work, and no routine in the way

  function Resizes(ops: seq<WindowOp>): seq<WindowOp> {
    if ops == [] then [] else (if ops[0].kind == ScreenResized then [ops[0]] else []) + Resizes(ops[1..])
  }

  function WithoutResizes(ops: seq<WindowOp>): seq<WindowOp> {
    if ops == [] then [] else (if ops[0].kind == ScreenResized then [] else [ops[0]]) + WithoutResizes(ops[1..])
  }

  function WithMode(ops: seq<WindowOp>, mode: Long): seq<WindowOp> {
    if ops == [] then []
    else [if ops[0].kind == ScreenResized then ops[0].(window := mode) else ops[0]] + WithMode(ops[1..], mode)
  }

  /** The size the last screen change asks for. */
  function Geometry(ops: seq<WindowOp>): (Int16, Int16) {
    var r := Resizes(ops);
    if r == [] then (0, 0) else (r[|r| - 1].a, r[|r| - 1].b)
  }

  /** The operations left to assemble once a screen change has been dealt with, and the size then in force. */
  function Prepared(h: Host, v: Video): (seq<WindowOp>, Int16, Int16) {
    var (w, t) := Geometry(h.pending);
    if w <= 0 || t <= 0 then (h.pending, h.width, h.height)
    else if w == h.width && t == h.height then (WithoutResizes(h.pending), h.width, h.height)
    else if v.manager then (WithMode(h.pending, v.mode), w, t)
    else if v.switched then (WithoutResizes(h.pending), w, t)
    else (WithoutResizes(h.pending), h.width, h.height)
  }

  /** Assembles what is pending; nothing emitted leaves flag and scratch alone. */
  function Assembled(h: Host, v: Video): Host {
    var (ops, w, t) := Prepared(h, v);
    var emitted := Fitting(h.base, WantedOps(ops, h.known), 0);
    var r := h.(pending := [], stalled := 0, width := w, height := t);
    if emitted == [] then r
    else
      var n := Bits16(h.number + 1);
      r.(flag := true, number := n, serial := h.serial + 1, scratch := Routine(h.base, emitted, n))
  }

  function Found(h: Host): Pass {
    if !h.installed || h.pending == [] then Idle
    else if !h.busy && !h.flag then Free
    else if h.stalled + 1 < PATIENCE then Blocked(h.serial)
    else GaveUp(h.serial)
  }

  /** Toolbox_WindowSafePoint. */
  function Visit(h: Host, v: Video): Host {
    match Found(h)
    case Idle => h
    case Blocked(_) => h.(stalled := h.stalled + 1)
    case GaveUp(_) => Assembled(h.(busy := false, flag := false), v)
    case Free => Assembled(h, v)
  }

  /** The geometry requests, of which only the latest per window is kept. */
  predicate Collapses(k: Kind) {
    k == Resize || k == ResizeQuietly || k == Move || k == Invalidate
  }

  /** The first pending operation a new request replaces. */
  function Match(ops: seq<WindowOp>, op: WindowOp): (k: nat)
    ensures k <= |ops|
    ensures k < |ops| ==> ops[k].kind == op.kind && ops[k].window == op.window
    ensures forall j :: 0 <= j < k ==> !(ops[j].kind == op.kind && ops[j].window == op.window)
  {
    if ops == [] || (ops[0].kind == op.kind && ops[0].window == op.window) then 0 else 1 + Match(ops[1..], op)
  }

  function Queued(ops: seq<WindowOp>, op: WindowOp): seq<WindowOp> {
    var k := Match(ops, op);
    if Collapses(op.kind) && k < |ops| then ops[k := ops[k].(a := op.a, b := op.b)] else ops + [op]
  }

  function FirstResize(ops: seq<WindowOp>): (k: nat)
    ensures k <= |ops|
    ensures k < |ops| ==> ops[k].kind == ScreenResized
    ensures forall j :: 0 <= j < k ==> ops[j].kind != ScreenResized
  {
    if ops == [] || ops[0].kind == ScreenResized then 0 else 1 + FirstResize(ops[1..])
  }

  function Notified(ops: seq<WindowOp>, w: Int16, h: Int16): seq<WindowOp> {
    var k := FirstResize(ops);
    if k < |ops| then ops[k := ops[k].(a := w, b := h)] else ops + [WindowOp(ScreenResized, 0, w, h)]
  }

  /** At most one geometry request of a kind per window, and at most one screen change, is ever pending. */
  ghost predicate Collapsed(ops: seq<WindowOp>) {
    forall i, j :: 0 <= i < j < |ops| && ops[i].kind == ops[j].kind
        && (Collapses(ops[i].kind) || ops[i].kind == ScreenResized)
      ==> ops[i].kind != ScreenResized && ops[i].window != ops[j].window
  }

  /** The latest request for a window's geometry is the one that will be made. */
  lemma QueueKeepsOnlyTheLatest(ops: seq<WindowOp>, op: WindowOp)
    requires Collapsed(ops) && op.kind != ScreenResized
    ensures Collapsed(Queued(ops, op)) && op in Queued(ops, op)
    ensures forall o :: o in ops && !(o.kind == op.kind && o.window == op.window) ==> o in Queued(ops, op)
  {
    var q, k := Queued(ops, op), Match(ops, op);
    if Collapses(op.kind) && k < |ops| {
      assert q[k] == op;
      forall o | o in ops && !(o.kind == op.kind && o.window == op.window) ensures o in q {
        var j :| 0 <= j < |ops| && ops[j] == o;
        assert q[j] == o;
      }
    } else {
      assert q[|ops|] == op;
    }
  }

  lemma NoticeKeepsOnlyTheLatest(ops: seq<WindowOp>, w: Int16, h: Int16)
    requires Collapsed(ops)
    ensures Collapsed(Notified(ops, w, h)) && Geometry(Notified(ops, w, h)) == (w, h)
  {
    var q, k := Notified(ops, w, h), FirstResize(ops);
    assert Collapsed(q);
    OneResize(q, k);
  }

  lemma {:induction false} OneResize(ops: seq<WindowOp>, k: nat)
    requires k < |ops| && ops[k].kind == ScreenResized
    requires forall j :: 0 <= j < |ops| && j != k ==> ops[j].kind != ScreenResized
    ensures Resizes(ops) == [ops[k]]
    decreases k
  {
    if k == 0 {
      NoResize(ops[1..]);
    } else {
      OneResize(ops[1..], k - 1);
    }
  }

  lemma {:induction false} NoResize(ops: seq<WindowOp>)
    requires forall j :: 0 <= j < |ops| ==> ops[j].kind != ScreenResized
    ensures Resizes(ops) == []
  {
    if ops != [] { NoResize(ops[1..]); }
  }

  // ------------------------------------------------------ the whole system

  /** Where an activation of a routine is: in it; returned; given up on by the watchdog; or its application is gone. */
  datatype Status = Inside | Finished | Abandoned | Lost

  /**
    One entry of a routine: which it was, its code as it then stood, and the
    instructions executed since; `givenUpAt` is how many of them had been when
    the watchdog gave up on it.
   */
  datatype Activation = Activation(serial: nat, code: seq<Instr>, ran: seq<Instr>, status: Status,
                                   givenUpAt: Option<nat>)

  datatype System = System(host: Host, acts: seq<Activation>, passes: seq<Pass>)

  datatype Event =
    | Request(op: WindowOp)                    // the host asks for an operation
    | ScreenSize(w: Int16, h: Int16)           // the host changes the screen
    | Walk(known: seq<Long>)                   // the window list is walked
    | Install(base: CodeBase)                  // the code block is set up, if it is not
    | Filter(video: Video)                     // an application comes through the filter
    | Execute(k: nat, other: Instr)            // an activation executes one instruction
    | Quit(k: nat)                             // its application goes away inside a call
    | MachineReset

  /** The stub after the host's visit: with the flag up it enters the routine, once. */
  function Entered(s: System): System {
    if !s.host.flag then s
    else s.(host := s.host.(flag := false, busy := true),
            acts := s.acts + [Activation(s.host.serial, s.host.scratch, [], Inside, None)])
  }

  function GiveUpOn(a: Activation): Activation {
    if a.status == Inside then a.(status := Abandoned, givenUpAt := Some(|a.ran|)) else a
  }

  function Lose(a: Activation): Activation {
    if a.status == Finished then a else a.(status := Lost)
  }

  function Visited(s: System, v: Video): System {
    System(Visit(s.host, v),
           if Found(s.host).GaveUp? then seq(|s.acts|, i requires 0 <= i < |s.acts| => GiveUpOn(s.acts[i])) else s.acts,
           s.passes + [Found(s.host)])
  }

  /** The instruction an activation is at: its routine's next one, or anything once the code has been replaced. */
  function Next(s: System, a: Activation, other: Instr): Instr {
    if a.serial == s.host.serial && |a.ran| < |s.host.scratch| then s.host.scratch[|a.ran|] else other
  }

  function Executed(s: System, k: nat, other: Instr): System
    requires k < |s.acts|
  {
    var a := s.acts[k];
    if a.status != Inside && a.status != Abandoned then s
    else
      var i := Next(s, a, other);
      s.(acts := s.acts[k := a.(ran := a.ran + [i], status := if i == Return then Finished else a.status)],
         host := if i == Return then s.host.(busy := false) else s.host)
  }

  function Happens(s: System, e: Event): System {
    match e
    case Request(op) => s.(host := s.host.(pending := Queued(s.host.pending, op)))
    case ScreenSize(w, h) => s.(host := s.host.(pending := Notified(s.host.pending, w, h)))
    case Walk(known) => s.(host := s.host.(known := known))
    case Install(base) =>
      if s.host.installed then s
      else s.(host := s.host.(installed := true, base := base, flag := false, busy := false,
                              scratch := [Return], serial := s.host.serial + 1))
    case Filter(v) => if s.host.installed then Entered(Visited(s, v)) else s
    case Execute(k, other) => if k < |s.acts| then Executed(s, k, other) else s
    case Quit(k) =>
      if k < |s.acts| then s.(acts := s.acts[k := Lose(s.acts[k])]) else s
    case MachineReset =>
      System(s.host.(installed := false, flag := false, busy := false, pending := [], known := [], number := 0,
                     width := 0, height := 0),
             seq(|s.acts|, i requires 0 <= i < |s.acts| => Lose(s.acts[i])), s.passes)
  }

  function Run(s: System, events: seq<Event>): System
    decreases |events|
  {
    if events == [] then s else Run(Happens(s, events[0]), events[1..])
  }

  ghost predicate Starting(s: System) {
    !s.host.installed && !s.host.flag && !s.host.busy && s.host.stalled == 0 && s.acts == [] && s.passes == []
  }

  // ----------------------------------------------------------- invariants

  /** How many visits in a row, not counting idle ones, ended blocked. */
  function BlockedLately(passes: seq<Pass>): nat
    decreases |passes|
  {
    if passes == [] then 0
    else
      var last, rest := passes[|passes| - 1], passes[..|passes| - 1];
      match last
      case Idle => BlockedLately(rest)
      case Blocked(_) => 1 + BlockedLately(rest)
      case GaveUp(_) => 0
      case Free => 0
  }

  /** Those visits were all blocked by this routine. */
  predicate BlockedBy(passes: seq<Pass>, serial: nat)
    decreases |passes|
  {
    passes == [] ||
    (var last, rest := passes[|passes| - 1], passes[..|passes| - 1];
     match last
     case Idle => BlockedBy(rest, serial)
     case Blocked(n) => n == serial && BlockedBy(rest, serial)
     case GaveUp(_) => true
     case Free => true)
  }

  lemma OneMorePass(passes: seq<Pass>, p: Pass, serial: nat)
    ensures BlockedLately(passes + [p]) == (match p
                                            case Idle => BlockedLately(passes)
                                            case Blocked(_) => 1 + BlockedLately(passes)
                                            case _ => 0)
    ensures BlockedBy(passes + [p], serial) == (match p
                                                case Idle => BlockedBy(passes, serial)
                                                case Blocked(n) => n == serial && BlockedBy(passes, serial)
                                                case _ => true)
  {
    assert (passes + [p])[..|passes|] == passes;
  }

  /** Holds in every run: the watchdog's count, and that no routine is entered twice. */
  ghost predicate Inv(s: System) {
    && s.host.stalled == BlockedLately(s.passes)
    && (s.host.flag || s.host.busy ==> s.host.installed && BlockedBy(s.passes, s.host.serial))
    && !(s.host.flag && s.host.busy)
    && (forall i :: 0 <= i < |s.acts| ==> s.acts[i].serial <= s.host.serial)
    && (forall i, j :: 0 <= i < j < |s.acts| ==> s.acts[i].serial != s.acts[j].serial)
    && (s.host.flag ==> forall i :: 0 <= i < |s.acts| ==> s.acts[i].serial != s.host.serial)
  }

  lemma VisitKeepsInv(s: System, v: Video)
    requires Inv(s) && s.host.installed
    ensures Inv(Visited(s, v))
  {
    hide BlockedLately, BlockedBy, Prepared, Fitting, WantedOps, Routine, Bits16;
    var r := Visited(s, v);
    OneMorePass(s.passes, Found(s.host), s.host.serial);
    OneMorePass(s.passes, Found(s.host), r.host.serial);
  }

  lemma EnteredKeepsInv(s: System)
    requires Inv(s)
    ensures Inv(Entered(s))
  {
    hide BlockedLately, BlockedBy;
  }

  lemma StepKeepsInv(s: System, e: Event)
    requires Inv(s)
    ensures Inv(Happens(s, e))
  {
    hide BlockedLately, BlockedBy, Visited, Entered, Queued, Notified;
    if e.Filter? && s.host.installed {
      VisitKeepsInv(s, e.video);
      EnteredKeepsInv(Visited(s, e.video));
    }
  }

  lemma {:induction false} RunKeepsInv(s: System, events: seq<Event>)
    requires Inv(s)
    ensures Inv(Run(s, events))
    decreases |events|
  {
    hide Inv, Happens;
    if events != [] {
      StepKeepsInv(s, events[0]);
      RunKeepsInv(Happens(s, events[0]), events[1..]);
    }
  }

  lemma StartHolds(s: System)
    requires Starting(s)
    ensures Inv(s)
  {
  }

  /**
    In any run, whatever happens next: the scratch area is rewritten only when
    neither byte is set, or by a visit that is the 600th with work to do since the
    last that was not blocked, all of them blocked by the one routine now being
    given up on.
   */
  lemma ScratchIsRewrittenOnlyWhenIdle(s: System, events: seq<Event>, e: Event)
    requires Starting(s)
    ensures var t := Run(s, events);
            var r := Happens(t, e);
            r.host.serial != t.host.serial || r.host.scratch != t.host.scratch ==>
              || (!t.host.flag && !t.host.busy)
              || (e.Filter? && BlockedLately(t.passes) == PATIENCE - 1 && BlockedBy(t.passes, t.host.serial))
  {
    hide BlockedLately, BlockedBy, Run, Assembled, Queued, Notified;
    StartHolds(s);
    RunKeepsInv(s, events);
    BlockedBounded(s, events);
  }

  lemma {:induction false} BlockedBounded(s: System, events: seq<Event>)
    requires s.host.stalled < PATIENCE
    ensures Run(s, events).host.stalled < PATIENCE
    decreases |events|
  {
    hide Prepared, Fitting, WantedOps, Routine, Queued, Notified, Bits16;
    if events != [] {
      assert Happens(s, events[0]).host.stalled < PATIENCE;
      BlockedBounded(Happens(s, events[0]), events[1..]);
    }
  }

  /** In any run, each assembled routine is entered at most once. */
  lemma EachRoutineIsEnteredAtMostOnce(s: System, events: seq<Event>, i: nat, j: nat)
    requires Starting(s)
    ensures var t := Run(s, events);
            i < j < |t.acts| ==> t.acts[i].serial != t.acts[j].serial
  {
    hide Run, BlockedLately, BlockedBy;
    StartHolds(s);
    RunKeepsInv(s, events);
  }

  // ------------------------------------------------------ undisturbed runs

  predicate SomeInside(s: System) {
    exists i :: 0 <= i < |s.acts| && s.acts[i].status == Inside
  }

  /** An activation the watchdog gave up on returns while another one is inside its routine. */
  predicate Disturbs(s: System, e: Event) {
    && e.Execute? && e.k < |s.acts| && s.acts[e.k].status == Abandoned
    && Next(s, s.acts[e.k], e.other) == Return && SomeInside(s)
  }

  /** That never happens. */
  predicate Undisturbed(s: System, events: seq<Event>)
    decreases |events|
  {
    events == [] || (!Disturbs(s, events[0]) && Undisturbed(Happens(s, events[0]), events[1..]))
  }

  /** Every activation inside its routine has the busy byte up and its own code in the scratch area. */
  predicate Covered(s: System) {
    forall i :: 0 <= i < |s.acts| && s.acts[i].status == Inside ==> s.host.busy && s.host.scratch == s.acts[i].code
  }

  predicate AlwaysCovered(s: System, events: seq<Event>)
    decreases |events|
  {
    Covered(s) && (events == [] || AlwaysCovered(Happens(s, events[0]), events[1..]))
  }

  /** Nothing the watchdog has given up on ever runs again: what the watchdog takes for granted. */
  predicate Orderly(s: System, events: seq<Event>)
    decreases |events|
  {
    events == [] ||
    ((events[0].Execute? && events[0].k < |s.acts| ==> s.acts[events[0].k].status != Abandoned)
     && Orderly(Happens(s, events[0]), events[1..]))
  }

  /** The routine ends with its only return. */
  predicate ReturnsLast(code: seq<Instr>) {
    code != [] && code[|code| - 1] == Return && forall k :: 0 <= k < |code| - 1 ==> code[k] != Return
  }

  lemma CompileHasNoReturn(base: CodeBase, op: WindowOp)
    ensures Return !in Compile(base, op)
  {
  }

  lemma {:induction false} CompileAllHasNoReturn(base: CodeBase, ops: seq<WindowOp>)
    ensures Return !in CompileAll(base, ops)
  {
    hide Compile;
    if ops != [] {
      CompileHasNoReturn(base, ops[0]);
      CompileAllHasNoReturn(base, ops[1..]);
    }
  }

  lemma RoutineReturnsLast(base: CodeBase, ops: seq<WindowOp>, number: Word)
    ensures ReturnsLast(Routine(base, ops, number))
  {
    hide CompileAll;
    CompileAllHasNoReturn(base, ops);
    var code := Routine(base, ops, number);
    forall k | 0 <= k < |code| - 1 ensures code[k] != Return {
      if k < |CompileAll(base, ops)| { assert code[k] in CompileAll(base, ops); }
    }
  }

  /** An activation has executed its own routine and nothing else, up to the point where it was given up on. */
  ghost predicate Sound(a: Activation, h: Host) {
    && ReturnsLast(a.code)
    && match a.givenUpAt
       case Some(n) => a.status != Inside && n <= |a.ran| && a.ran[..n] <= a.code
       case None =>
         match a.status
         case Inside => h.busy && a.serial == h.serial && a.code == h.scratch && a.ran < a.code
         case Finished => a.ran == a.code
         case Abandoned => false
         case Lost => a.ran < a.code
  }

  ghost predicate AllSound(s: System) {
    && (s.host.flag ==> ReturnsLast(s.host.scratch))
    && forall i :: 0 <= i < |s.acts| ==> Sound(s.acts[i], s.host)
  }

  lemma VisitKeepsSound(s: System, v: Video)
    requires Inv(s) && AllSound(s) && s.host.installed
    ensures AllSound(Visited(s, v))
  {
    hide BlockedLately, BlockedBy, Prepared, Fitting, WantedOps, Routine, Bits16, ReturnsLast;
    var h := if Found(s.host).GaveUp? then s.host.(busy := false, flag := false) else s.host;
    var (ops, _, _) := Prepared(h, v);
    RoutineReturnsLast(h.base, Fitting(h.base, WantedOps(ops, h.known), 0), Bits16(h.number + 1));
    forall i | 0 <= i < |s.acts| ensures Sound(Visited(s, v).acts[i], Visited(s, v).host) {
      assert Sound(s.acts[i], s.host);
    }
  }

  lemma EnteredKeepsSound(s: System)
    requires Inv(s) && AllSound(s)
    ensures AllSound(Entered(s))
  {
    hide BlockedLately, BlockedBy, ReturnsLast;
    var r := Entered(s);
    forall i | 0 <= i < |r.acts| ensures Sound(r.acts[i], r.host) {
      if i < |s.acts| {
        assert Sound(s.acts[i], s.host);
      } else if s.host.flag {
        assert ReturnsLast(s.host.scratch);
        Nonempty(s.host.scratch);
      }
    }
  }

  lemma Nonempty(code: seq<Instr>)
    requires ReturnsLast(code)
    ensures code != []
  {
  }

  lemma ExecutedKeepsSound(s: System, k: nat, other: Instr)
    requires Inv(s) && AllSound(s) && k < |s.acts| && !Disturbs(s, Execute(k, other))
    ensures AllSound(Executed(s, k, other))
  {
    hide BlockedLately, BlockedBy;
    var r, a := Executed(s, k, other), s.acts[k];
    assert Sound(a, s.host);
    if a.status == Inside {
      assert a.ran + [a.code[|a.ran|]] == a.code[..|a.ran| + 1];
      assert a.code[..|a.code|] == a.code;
    }
    forall i | 0 <= i < |r.acts| ensures Sound(r.acts[i], r.host) {
      assert Sound(s.acts[i], s.host);
      if a.status == Abandoned && i == k { assert r.acts[k].ran[..a.givenUpAt.value] == a.ran[..a.givenUpAt.value]; }
    }
  }

  lemma StepKeepsSound(s: System, e: Event)
    requires Inv(s) && AllSound(s) && !Disturbs(s, e)
    ensures AllSound(Happens(s, e))
  {
    hide BlockedLately, BlockedBy, Visited, Entered, Queued, Notified, Executed, ReturnsLast, Disturbs;
    if e.Filter? && s.host.installed {
      VisitKeepsInv(s, e.video);
      VisitKeepsSound(s, e.video);
      EnteredKeepsSound(Visited(s, e.video));
    } else if e.Execute? && e.k < |s.acts| {
      ExecutedKeepsSound(s, e.k, e.other);
    } else {
      var r := Happens(s, e);
      assert |r.acts| == |s.acts|;
      forall i | 0 <= i < |r.acts| ensures Sound(r.acts[i], r.host) {
        assert Sound(s.acts[i], s.host);
      }
    }
  }

  lemma {:induction false} UndisturbedRunKeepsSound(s: System, events: seq<Event>)
    requires Inv(s) && AllSound(s) && Undisturbed(s, events)
    ensures AllSound(Run(s, events)) && Inv(Run(s, events))
    decreases |events|
  {
    hide Inv, AllSound, Happens, Disturbs;
    if events != [] {
      StepKeepsInv(s, events[0]);
      StepKeepsSound(s, events[0]);
      UndisturbedRunKeepsSound(Happens(s, events[0]), events[1..]);
    }
  }

  lemma SoundIsCovered(s: System)
    requires AllSound(s)
    ensures Covered(s)
  {
    hide ReturnsLast;
    forall i | 0 <= i < |s.acts| && s.acts[i].status == Inside ensures s.host.busy && s.host.scratch == s.acts[i].code {
      assert Sound(s.acts[i], s.host);
    }
  }

  /** Such a return takes the busy byte away from the one that is inside. */
  lemma DisturbingUncovers(s: System, e: Event)
    requires Disturbs(s, e)
    ensures !Covered(Happens(s, e))
  {
    var i :| 0 <= i < |s.acts| && s.acts[i].status == Inside;
    var r := Happens(s, e);
    assert r.acts[i] == s.acts[i] && !r.host.busy;
  }

  lemma {:induction false} CoveredWhileUndisturbed(s: System, events: seq<Event>)
    requires Inv(s) && AllSound(s)
    ensures AlwaysCovered(s, events) <==> Undisturbed(s, events)
    decreases |events|
  {
    hide Inv, AllSound, Happens, Disturbs, Covered;
    SoundIsCovered(s);
    if events != [] {
      if Disturbs(s, events[0]) {
        DisturbingUncovers(s, events[0]);
        assert !AlwaysCovered(Happens(s, events[0]), events[1..]);
      } else {
        StepKeepsInv(s, events[0]);
        StepKeepsSound(s, events[0]);
        CoveredWhileUndisturbed(Happens(s, events[0]), events[1..]);
      }
    }
  }

  lemma StartIsSound(s: System)
    requires Starting(s)
    ensures Inv(s) && AllSound(s)
  {
    StartHolds(s);
  }

  /**
    When code is never replaced underneath an activation: in every state of a run
    each activation inside its routine has the busy byte up and its own code in
    the scratch area, if and only if no activation the watchdog gave up on ever
    returns while another one is inside.
   */
  lemma RoutinesStayCoveredExactlyWhen(s: System, events: seq<Event>)
    requires Starting(s)
    ensures AlwaysCovered(s, events) <==> Undisturbed(s, events)
  {
    StartIsSound(s);
    CoveredWhileUndisturbed(s, events);
  }

  /** In an orderly run what was given up on has executed nothing since. */
  ghost predicate Still(s: System) {
    forall i :: 0 <= i < |s.acts| && s.acts[i].givenUpAt != None ==> s.acts[i].givenUpAt == Some(|s.acts[i].ran|)
  }

  lemma OrderlyStepKeepsStill(s: System, e: Event)
    requires AllSound(s) && Still(s) && (e.Execute? && e.k < |s.acts| ==> s.acts[e.k].status != Abandoned)
    ensures Still(Happens(s, e))
  {
    hide Queued, Notified, ReturnsLast, Assembled;
    var r := Happens(s, e);
    forall i | 0 <= i < |r.acts| && r.acts[i].givenUpAt != None ensures r.acts[i].givenUpAt == Some(|r.acts[i].ran|) {
      if i < |s.acts| { assert Sound(s.acts[i], s.host); }
    }
  }

  lemma {:induction false} OrderlyRunKeepsStill(s: System, events: seq<Event>)
    requires Inv(s) && AllSound(s) && Still(s) && Orderly(s, events)
    ensures Still(Run(s, events)) && Undisturbed(s, events)
    decreases |events|
  {
    hide Inv, AllSound, Happens, Still;
    if events != [] {
      StepKeepsInv(s, events[0]);
      StepKeepsSound(s, events[0]);
      OrderlyStepKeepsStill(s, events[0]);
      OrderlyRunKeepsStill(Happens(s, events[0]), events[1..]);
    }
  }

  /** So what the watchdog takes for granted is more than it needs. */
  lemma OrderlyRunsAreUndisturbed(s: System, events: seq<Event>)
    requires Starting(s) && Orderly(s, events)
    ensures Undisturbed(s, events)
  {
    hide Orderly, Undisturbed;
    StartIsSound(s);
    OrderlyRunKeepsStill(s, events);
  }

  /**
    In an undisturbed run at most one activation is inside; every activation has
    executed a prefix of its own routine, all of it when it has returned, and one
    that was given up on had done so up to then.  In an orderly run that is so of
    every activation to the end.
   */
  lemma ActivationsRunTheirOwnRoutine(s: System, events: seq<Event>)
    requires Starting(s) && Undisturbed(s, events)
    ensures var t := Run(s, events);
            && Covered(t)
            && (forall i, j :: 0 <= i < j < |t.acts| ==> !(t.acts[i].status == Inside && t.acts[j].status == Inside))
            && (forall i :: 0 <= i < |t.acts| ==> var a := t.acts[i];
                  match a.givenUpAt
                  case None => a.ran <= a.code && (a.status == Finished ==> a.ran == a.code)
                  case Some(n) => n <= |a.ran| && a.ran[..n] <= a.code && (Orderly(s, events) ==> a.ran <= a.code))
  {
    hide Run, BlockedLately, BlockedBy, ReturnsLast, Undisturbed, Orderly;
    StartIsSound(s);
    if Orderly(s, events) { OrderlyRunKeepsStill(s, events); }
    UndisturbedRunKeepsSound(s, events);
    var t := Run(s, events);
    SoundIsCovered(t);
    forall i | 0 <= i < |t.acts| ensures Sound(t.acts[i], t.host) {}
    forall i | 0 <= i < |t.acts| && t.acts[i].givenUpAt == Some(|t.acts[i].ran|)
      ensures t.acts[i].ran <= t.acts[i].code
    {
      assert t.acts[i].ran[..|t.acts[i].ran|] == t.acts[i].ran;
    }
  }

  // ------------------------------------------------------- a disturbed run

  /** The emulator as it starts. */
  const BOOT := System(Host(false, 1, false, false, [], 0, [], [], 0, 0, 0, 0), [], [])

  function Filters(v: Video, n: nat): seq<Event> {
    if n == 0 then [] else Filters(v, n - 1) + [Filter(v)]
  }

  lemma {:induction false} RunAppend(s: System, a: seq<Event>, b: seq<Event>)
    ensures Run(s, a + b) == Run(Run(s, a), b)
    decreases |a|
  {
    hide Happens;
    if a == [] {
      assert a + b == b;
    } else {
      assert (a + b)[1..] == a[1..] + b;
      RunAppend(Happens(s, a[0]), a[1..], b);
    }
  }

  lemma RunOne(s: System, e: Event)
    ensures Run(s, [e]) == Happens(s, e)
  {
    hide Happens;
    assert [e][1..] == [];
  }

  lemma RunLast(s: System, events: seq<Event>, e: Event)
    ensures Run(s, events + [e]) == Happens(Run(s, events), e)
  {
    hide Happens, Run;
    RunAppend(s, events, [e]);
    RunOne(Run(s, events), e);
  }

  /** One selected window that is known is assembled, under the next number. */
  lemma OneSelectAssembles(h: Host, v: Video, op: WindowOp)
    requires h.pending == [op] && op.kind == Select && op.window in h.known
    ensures var n := Bits16(h.number + 1);
            Assembled(h, v) == h.(pending := [], stalled := 0, flag := true, number := n, serial := h.serial + 1,
                                  scratch := Routine(h.base, [op], n))
  {
    hide Routine, Compile;
    var none: seq<WindowOp> := [];
    assert h.pending[1..] == none;
    assert Resizes(h.pending) == [];
    assert WantedOps(h.pending, h.known) == [op];
    assert [op][1..] == none;
    assert Fitting(h.base, [op], 0) == [op];
  }

  /** The state between visits: one routine inside, one selection pending. */
  predicate Waiting(s: System, op: WindowOp, k: nat) {
    && s.host.installed && !s.host.flag && s.host.busy && s.host.stalled == k
    && s.host.pending == [op] && op.kind == Select && op.window in s.host.known
  }

  /** Visits that find work behind a busy routine only count. */
  lemma {:induction false} FiltersBlock(s: System, v: Video, op: WindowOp, n: nat)
    requires Waiting(s, op, 0) && n < PATIENCE
    ensures var r := Run(s, Filters(v, n));
            Waiting(r, op, n) && r.acts == s.acts && r.host == s.host.(stalled := n)
    decreases n
  {
    hide Run, Assembled;
    if n == 0 {
      assert Run(s, []) == s by { RunNothing(s); }
    } else {
      FiltersBlock(s, v, op, n - 1);
      RunLast(s, Filters(v, n - 1), Filter(v));
    }
  }

  lemma RunNothing(s: System)
    ensures Run(s, []) == s
  {
  }

  /** A visit that finds no routine in the way enters a new one. */
  lemma FreeVisitEnters(s: System, v: Video, op: WindowOp)
    requires s.host.installed && !s.host.flag && !s.host.busy
    requires s.host.pending == [op] && op.kind == Select && op.window in s.host.known
    ensures var r, n := Happens(s, Filter(v)), Bits16(s.host.number + 1);
            var code := Routine(s.host.base, [op], n);
            && r.host == s.host.(pending := [], stalled := 0, busy := true, number := n, serial := s.host.serial + 1,
                                 scratch := code)
            && r.acts == s.acts + [Activation(s.host.serial + 1, code, [], Inside, None)]
  {
    hide Routine, Assembled;
    OneSelectAssembles(s.host, v, op);
  }

  /** The 600th blocked visit gives up on what is inside, and enters a new routine all the same. */
  lemma LastFilterGivesUp(s: System, v: Video, op: WindowOp)
    requires Waiting(s, op, PATIENCE - 1)
    ensures var r, n := Happens(s, Filter(v)), Bits16(s.host.number + 1);
            var code := Routine(s.host.base, [op], n);
            && r.host == s.host.(pending := [], stalled := 0, number := n, serial := s.host.serial + 1, scratch := code)
            && |r.acts| == |s.acts| + 1 && r.acts[|s.acts|] == Activation(s.host.serial + 1, code, [], Inside, None)
            && forall i :: 0 <= i < |s.acts| ==> r.acts[i] == GiveUpOn(s.acts[i])
  {
    hide Routine, Assembled;
    OneSelectAssembles(s.host.(busy := false, flag := false), v, op);
  }

  function Selecting(window: Long): WindowOp {
    WindowOp(Select, window, 0, 0)
  }

  /** A window is selected, the application yields inside the call, and a second selection is asked for. */
  function UpToYield(base: CodeBase, w: Long, v: Video): seq<Event> {
    [Install(base), Walk([w]), Request(Selecting(w)), Filter(v), Request(Selecting(w))]
  }

  lemma RunFive(s: System, a: Event, b: Event, c: Event, d: Event, e: Event)
    ensures Run(s, [a, b, c, d, e]) == Happens(Happens(Happens(Happens(Happens(s, a), b), c), d), e)
  {
    hide Happens, Run;
    RunOne(s, a);
    RunLast(s, [a], b);
    RunLast(s, [a, b], c);
    RunLast(s, [a, b, c], d);
    RunLast(s, [a, b, c, d], e);
    assert [a] + [b] == [a, b] && [a, b] + [c] == [a, b, c] && [a, b, c] + [d] == [a, b, c, d];
    assert [a, b, c, d] + [e] == [a, b, c, d, e];
  }

  lemma OneRoutineYields(base: CodeBase, w: Long, v: Video)
    ensures var r := Run(BOOT, UpToYield(base, w, v));
            && Waiting(r, Selecting(w), 0) && r.host.base == base && r.host.known == [w] && r.host.number == 1
                && r.host.serial == 2
            && |r.acts| == 1 && r.acts[0].status == Inside && r.acts[0].serial == 2
  {
    hide Run, Routine, Assembled, Visited, Entered;
    var op := Selecting(w);
    RunFive(BOOT, Install(base), Walk([w]), Request(op), Filter(v), Request(op));
    var a := Happens(Happens(BOOT, Install(base)), Walk([w]));
    var b := Happens(a, Request(op));
    assert b.host.pending == [op];
    FreeVisitEnters(b, v, op);
  }

  /**
    600 visits find the routine still inside; it comes back after all, and a
    third selection is asked for and visited.
   */
  function StalledRun(base: CodeBase, w: Long, v: Video): seq<Event> {
    UpToYield(base, w, v) + Filters(v, PATIENCE - 1) + [Filter(v)] + [Execute(0, Return)] + [Request(Selecting(w))]
        + [Filter(v)]
  }

  /**
    That can happen.  From the start: the routine that was given up on comes back,
    its return clears the busy byte of the routine that replaced it, and the next
    visit rewrites the code that one is in the middle of, and enters a third on top.
   */
  lemma AStalledRoutineThatComesBackUncoversTheNext(base: CodeBase, w: Long, v: Video)
    ensures var t := Run(BOOT, StalledRun(base, w, v));
            && |t.acts| == 3 && t.acts[1].status == Inside && t.acts[2].status == Inside
            && t.host.scratch != t.acts[1].code && t.host.scratch == t.acts[2].code
            && !Undisturbed(BOOT, StalledRun(base, w, v))
  {
    hide Run, Happens, Routine, Undisturbed, Orderly;
    var op := Selecting(w);
    var start := UpToYield(base, w, v);
    var all := start + Filters(v, PATIENCE - 1);
    OneRoutineYields(base, w, v);
    RunAppend(BOOT, start, Filters(v, PATIENCE - 1));
    FiltersBlock(Run(BOOT, start), v, op, PATIENCE - 1);
    var a := Run(BOOT, all);
    RunLast(BOOT, all, Filter(v));
    LastFilterGivesUp(a, v, op);
    var b := Happens(a, Filter(v));
    RunLast(BOOT, all + [Filter(v)], Execute(0, Return));
    LateReturn(b);
    var c := Happens(b, Execute(0, Return));
    RunLast(BOOT, all + [Filter(v)] + [Execute(0, Return)], Request(op));
    SelectIsQueued(c, op);
    var d := Happens(c, Request(op));
    RunLast(BOOT, all + [Filter(v)] + [Execute(0, Return)] + [Request(op)], Filter(v));
    FreeVisitEnters(d, v, op);
    DifferentNumbersDiffer(base, op, 2, 3);
    if Undisturbed(BOOT, StalledRun(base, w, v)) {
      ActivationsRunTheirOwnRoutine(BOOT, StalledRun(base, w, v));
    }
  }

  lemma LateReturn(b: System)
    requires |b.acts| == 2 && b.acts[0].status == Abandoned && b.acts[0].serial < b.host.serial
    ensures var c := Happens(b, Execute(0, Return));
            c.host == b.host.(busy := false) && |c.acts| == 2 && c.acts[1] == b.acts[1]
  {
  }

  lemma SelectIsQueued(c: System, op: WindowOp)
    requires c.host.pending == [] && op.kind == Select
    ensures Happens(c, Request(op)) == c.(host := c.host.(pending := [op]))
  {
  }

  lemma DifferentNumbersDiffer(base: CodeBase, op: WindowOp, m: Word, n: Word)
    requires m != n
    ensures Routine(base, [op], m) != Routine(base, [op], n)
  {
    hide CompileAll;
    var a, b := Routine(base, [op], m), Routine(base, [op], n);
    assert a[|a| - 2] == StoreWord(m, base + DONE) && b[|b| - 2] == StoreWord(n, base + DONE);
  }
}
