/**
  Reconciling walks of the guest's window list with what the host has been told
  (toolbox_window.cpp): a window is announced when first seen, and retired when
  its trap hook says so or when 600 walks in a row have not seen it.
 */
module WindowSync {
  import opened GuestMemory
  import Arena
  import R = Redirect

  const PATIENCE := 600

  /** What the host acts on. */
  datatype Look = Look(top: Int16, left: Int16, bottom: Int16, right: Int16, visible: bool, hilited: bool,
                       zOrder: int, layer: Long, title: string)

  datatype Win = Win(ptr: Long, look: Look)

  /** A call to the host. */
  datatype Event = Added(w: Win) | Changed(w: Win) | Removed(ptr: Long)

  /** The kept snapshot, the walks each window has been missing from, and the calls made so far. */
  datatype Sync = Sync(snapshot: seq<Win>, missing: map<Long, nat>, events: seq<Event>)

  /** find_window. */
  function Find(list: seq<Win>, p: Long): (k: nat)
    ensures k <= |list|
    ensures k < |list| ==> list[k].ptr == p
    ensures forall j :: 0 <= j < k ==> list[j].ptr != p
  {
    if list == [] || list[0].ptr == p then 0 else 1 + Find(list[1..], p)
  }

  predicate Has(list: seq<Win>, p: Long) {
    Find(list, p) < |list|
  }

  ghost predicate DupFree(list: seq<Win>) {
    forall i, j :: 0 <= i < j < |list| ==> list[i].ptr != list[j].ptr
  }

  /** Walks missed so far. */
  function Count(missing: map<Long, nat>, p: Long): nat {
    if p in missing then missing[p] else 0
  }

  datatype Pass = Pass(current: seq<Win>, missing: map<Long, nat>, removed: seq<Event>)

  /** Goes through the old snapshot: what is missing is kept for a while, then removed. */
  function RetirePass(was: seq<Win>, pass: Pass): Pass
    decreases |was|
  {
    if was == [] then pass
    else
      var p := was[0].ptr;
      var n := Count(pass.missing, p) + 1;
      RetirePass(was[1..],
        if Has(pass.current, p) then pass.(missing := pass.missing - {p})
        else if n < PATIENCE then Pass(pass.current + [was[0]], pass.missing[p := n], pass.removed)
        else Pass(pass.current, pass.missing - {p}, pass.removed + [Removed(p)]))
  }

  /** Goes through the new one: what the old one lacks is announced, and what looks different is reported. */
  function AdoptPass(current: seq<Win>, was: seq<Win>): seq<Event>
    decreases |current|
  {
    if current == [] then [] else Reported(current[0], was) + AdoptPass(current[1..], was)
  }

  function Reported(w: Win, was: seq<Win>): seq<Event> {
    var k := Find(was, w.ptr);
    if k == |was| then [Added(w)] else if was[k].look != w.look then [Changed(w)] else []
  }

  /** Toolbox_ProcessPendingWindowSync. */
  function Walk(s: Sync, walk: seq<Win>): Sync {
    var pass := RetirePass(s.snapshot, Pass(walk, s.missing, []));
    Sync(pass.current, pass.missing, s.events + pass.removed + AdoptPass(pass.current, s.snapshot))
  }

  /** The hook on _CloseWindow and _DisposeWindow: the missing count is left alone. */
  function Teardown(s: Sync, p: Long): Sync {
    var k := Find(s.snapshot, p);
    s.(snapshot := if k < |s.snapshot| then s.snapshot[..k] + s.snapshot[k + 1..] else s.snapshot,
       events := s.events + [Removed(p)])
  }

  function RemovedAll(list: seq<Win>): seq<Event> {
    if list == [] then [] else [Removed(list[0].ptr)] + RemovedAll(list[1..])
  }

  function Reset(s: Sync): Sync {
    Sync([], map[], s.events + RemovedAll(s.snapshot))
  }

  datatype Step = WalkStep(walk: seq<Win>) | TeardownStep(ptr: Long) | ResetStep

  function Do(s: Sync, step: Step): Sync {
    match step
    case WalkStep(walk) => Walk(s, walk)
    case TeardownStep(p) => Teardown(s, p)
    case ResetStep => Reset(s)
  }

  function DoAll(s: Sync, steps: seq<Step>): Sync
    decreases |steps|
  {
    if steps == [] then s else DoAll(Do(s, steps[0]), steps[1..])
  }

  // ------------------------------------------------- what the host believes

  /** Whether the host has been told of a window: added since it was last removed. */
  predicate Told(events: seq<Event>, p: Long)
    decreases |events|
  {
    if events == [] then false
    else
      match events[|events| - 1]
      case Added(w) => w.ptr == p || Told(events[..|events| - 1], p)
      case Removed(q) => q != p && Told(events[..|events| - 1], p)
      case Changed(_) => Told(events[..|events| - 1], p)
  }

  ghost predicate AddedIn(events: seq<Event>, p: Long) {
    exists k :: 0 <= k < |events| && events[k].Added? && events[k].w.ptr == p
  }

  predicate RemovedIn(events: seq<Event>, p: Long) {
    Removed(p) in events
  }

  lemma {:induction false} ToldAppend(events: seq<Event>, more: seq<Event>, p: Long)
    requires !(AddedIn(more, p) && RemovedIn(more, p))
    ensures Told(events + more, p)
         == if AddedIn(more, p) then true else if RemovedIn(more, p) then false else Told(events, p)
    decreases |more|
  {
    if more == [] {
      assert events + more == events;
    } else {
      var n := |more| - 1;
      var init := more[..n];
      assert (events + more)[..|events| + n] == events + init && more == init + [more[n]];
      assert AddedIn(init, p) ==> AddedIn(more, p);
      assert AddedIn(more, p) <==> AddedIn(init, p) || (more[n].Added? && more[n].w.ptr == p);
      ToldAppend(events, init, p);
    }
  }

  lemma HasAppend(list: seq<Win>, w: Win, p: Long)
    ensures Has(list + [w], p) <==> Has(list, p) || w.ptr == p
  {
    hide Find;
    var more := list + [w];
    if Has(list, p) { assert more[Find(list, p)].ptr == p; }
    if w.ptr == p { assert more[|list|].ptr == p; }
    if Has(more, p) && !Has(list, p) {
      assert Find(more, p) == |list|;
    }
  }

  lemma HasTail(list: seq<Win>, p: Long)
    requires list != []
    ensures Has(list, p) <==> list[0].ptr == p || Has(list[1..], p)
    ensures DupFree(list) ==> DupFree(list[1..]) && !Has(list[1..], list[0].ptr)
  {
  }

  lemma DupFreeAppend(list: seq<Win>, w: Win)
    requires DupFree(list) && !Has(list, w.ptr)
    ensures DupFree(list + [w])
  {
    hide Find;
  }

  // ------------------------------------------------------------- one walk

  /** A window of the old snapshot that this walk does not see but that is kept for now. */
  predicate Lingers(was: seq<Win>, pass: Pass, p: Long) {
    Has(was, p) && !Has(pass.current, p) && Count(pass.missing, p) + 1 < PATIENCE
  }

  predicate Expires(was: seq<Win>, pass: Pass, p: Long) {
    Has(was, p) && !Has(pass.current, p) && Count(pass.missing, p) + 1 >= PATIENCE
  }

  /** What the retiring pass has done by its end to any one window. */
  ghost predicate Retired(was: seq<Win>, pass: Pass, r: Pass, p: Long) {
    && (Has(r.current, p) <==> Has(pass.current, p) || Lingers(was, pass, p))
    && (RemovedIn(r.removed, p) <==> RemovedIn(pass.removed, p) || Expires(was, pass, p))
    && (p in r.missing <==> Lingers(was, pass, p) || (p in pass.missing && !Has(was, p)))
    && (p in r.missing ==> r.missing[p] == if Lingers(was, pass, p) then Count(pass.missing, p) + 1
        else pass.missing[p])
    && (AddedIn(r.removed, p) ==> AddedIn(pass.removed, p))
  }

  /** The pass after its first window. */
  function RetireOne(w: Win, pass: Pass): Pass {
    var p := w.ptr;
    var n := Count(pass.missing, p) + 1;
    if Has(pass.current, p) then pass.(missing := pass.missing - {p})
    else if n < PATIENCE then Pass(pass.current + [w], pass.missing[p := n], pass.removed)
    else Pass(pass.current, pass.missing - {p}, pass.removed + [Removed(p)])
  }

  lemma RetireOneRetires(was: seq<Win>, pass: Pass, r: Pass, p: Long)
    requires was != [] && DupFree(was)
    requires Retired(was[1..], RetireOne(was[0], pass), r, p)
    ensures Retired(was, pass, r, p)
  {
    hide Find, Has;
    HasTail(was, p);
    HasTail(was, was[0].ptr);
    HasAppend(pass.current, was[0], p);
  }

  lemma {:induction false} RetirePassRetires(was: seq<Win>, pass: Pass, p: Long)
    requires DupFree(was) && DupFree(pass.current)
    ensures Retired(was, pass, RetirePass(was, pass), p) && DupFree(RetirePass(was, pass).current)
    decreases |was|
  {
    hide Has, Retired, DupFree;
    if was == [] {
      RetireNothing(pass, p);
    } else {
      HasTail(was, p);
      var next := RetireOne(was[0], pass);
      if !Has(pass.current, was[0].ptr) { DupFreeAppend(pass.current, was[0]); }
      RetirePassRetires(was[1..], next, p);
      RetireOneRetires(was, pass, RetirePass(was, pass), p);
    }
  }

  lemma RetireNothing(pass: Pass, p: Long)
    ensures Retired([], pass, pass, p)
  {
  }

  lemma ReportedAdds(w: Win, was: seq<Win>, p: Long)
    ensures AddedIn(Reported(w, was), p) <==> w.ptr == p && !Has(was, p)
    ensures !RemovedIn(Reported(w, was), p)
  {
    hide Find;
    if Find(was, w.ptr) == |was| { assert Reported(w, was)[0] == Added(w); }
  }

  lemma {:induction false} AdoptPassAdopts(current: seq<Win>, was: seq<Win>, p: Long)
    ensures AddedIn(AdoptPass(current, was), p) <==> Has(current, p) && !Has(was, p)
    ensures !RemovedIn(AdoptPass(current, was), p)
    decreases |current|
  {
    hide Has, Reported;
    if current == [] {
      NothingHas(p);
    } else {
      AdoptPassAdopts(current[1..], was, p);
      ReportedAdds(current[0], was, p);
      HasTail(current, p);
      AddedInConcat(Reported(current[0], was), AdoptPass(current[1..], was), p);
    }
  }

  lemma AddedInConcat(a: seq<Event>, b: seq<Event>, p: Long)
    ensures AddedIn(a + b, p) <==> AddedIn(a, p) || AddedIn(b, p)
    ensures RemovedIn(a + b, p) <==> RemovedIn(a, p) || RemovedIn(b, p)
  {
    var c := a + b;
    if AddedIn(a, p) {
      var k :| 0 <= k < |a| && a[k].Added? && a[k].w.ptr == p;
      assert c[k] == a[k];
    }
    if AddedIn(b, p) {
      var k :| 0 <= k < |b| && b[k].Added? && b[k].w.ptr == p;
      assert c[|a| + k] == b[k];
    }
  }

  /** The calls a walk makes. */
  function Calls(s: Sync, walk: seq<Win>): seq<Event> {
    var pass := RetirePass(s.snapshot, Pass(walk, s.missing, []));
    pass.removed + AdoptPass(pass.current, s.snapshot)
  }

  /** What a walk does about any one window. */
  lemma WalkDoes(s: Sync, walk: seq<Win>, p: Long)
    requires DupFree(s.snapshot) && DupFree(walk)
    ensures var r, kept := Walk(s, walk), Has(s.snapshot, p) && !Has(walk, p) && Count(s.missing, p) + 1 < PATIENCE;
            && r.events == s.events + Calls(s, walk) && DupFree(r.snapshot)
            && (Has(r.snapshot, p) <==> Has(walk, p) || kept)
            && (p in r.missing <==> kept || (p in s.missing && !Has(s.snapshot, p)))
            && (p in r.missing ==> r.missing[p] == if kept then Count(s.missing, p) + 1 else s.missing[p])
            && (AddedIn(Calls(s, walk), p) <==> Has(walk, p) && !Has(s.snapshot, p))
            && (RemovedIn(Calls(s, walk), p)
                <==> Has(s.snapshot, p) && !Has(walk, p) && Count(s.missing, p) + 1 >= PATIENCE)
  {
    hide Has, AdoptPass, RetirePass, AddedIn;
    var start := Pass(walk, s.missing, []);
    RetirePassRetires(s.snapshot, start, p);
    var pass := RetirePass(s.snapshot, start);
    assert !AddedIn([], p) by { NothingAdded(p); }
    AdoptPassAdopts(pass.current, s.snapshot, p);
    AddedInConcat(pass.removed, AdoptPass(pass.current, s.snapshot), p);
    assert s.events + pass.removed + AdoptPass(pass.current, s.snapshot) == s.events + Calls(s, walk);
  }

  lemma NothingAdded(p: Long)
    ensures !AddedIn([], p)
  {
  }

  // ------------------------------------------------------------ invariants

  /** The host has been told of exactly the windows in the kept snapshot. */
  ghost predicate Agrees(s: Sync) {
    DupFree(s.snapshot) && forall p: Long :: Told(s.events, p) <==> Has(s.snapshot, p)
  }

  lemma WalkAgrees(s: Sync, walk: seq<Win>)
    requires Agrees(s) && DupFree(walk)
    ensures Agrees(Walk(s, walk))
  {
    hide Has, Walk, Calls, Told, AddedIn, RemovedIn, DupFree;
    var r := Walk(s, walk);
    forall p: Long ensures Told(r.events, p) <==> Has(r.snapshot, p) {
      WalkDoes(s, walk, p);
      ToldAppend(s.events, Calls(s, walk), p);
    }
    WalkDoes(s, walk, 0);
  }

  lemma TeardownDoes(s: Sync, p: Long, q: Long)
    requires DupFree(s.snapshot)
    ensures DupFree(Teardown(s, p).snapshot)
    ensures Has(Teardown(s, p).snapshot, q) <==> Has(s.snapshot, q) && q != p
    ensures Told(Teardown(s, p).events, q) <==> Told(s.events, q) && q != p
  {
    hide Has, Find;
    var k, r := Find(s.snapshot, p), Teardown(s, p);
    assert r.events[..|s.events|] == s.events;
    HasAt(s.snapshot, p);
    HasAt(s.snapshot, q);
    HasAt(r.snapshot, q);
    if k < |s.snapshot| { WithoutAt(s.snapshot, k, r.snapshot, q); }
  }

  /** Being in a list, in terms of places. */
  lemma HasAt(list: seq<Win>, p: Long)
    ensures Has(list, p) <==> exists k :: 0 <= k < |list| && list[k].ptr == p
    ensures Has(list, p) ==> Find(list, p) < |list|
    ensures !Has(list, p) ==> Find(list, p) == |list|
  {
  }

  lemma WithoutAt(list: seq<Win>, k: nat, r: seq<Win>, q: Long)
    requires k < |list| && r == list[..k] + list[k + 1..] && DupFree(list)
    ensures DupFree(r)
    ensures (exists j :: 0 <= j < |r| && r[j].ptr == q)
            <==> q != list[k].ptr && exists j :: 0 <= j < |list| && list[j].ptr == q
  {
    forall j | 0 <= j < |r| ensures r[j] == list[if j < k then j else j + 1] {}
    if j :| 0 <= j < |list| && list[j].ptr == q && q != list[k].ptr {
      assert r[if j < k then j else j - 1].ptr == q;
    }
  }

  lemma {:induction false} RemovedAllRemoves(list: seq<Win>, p: Long)
    ensures RemovedIn(RemovedAll(list), p) <==> Has(list, p)
    ensures !AddedIn(RemovedAll(list), p)
  {
    hide Find;
    if list == [] {
    } else {
      RemovedAllRemoves(list[1..], p);
      HasTail(list, p);
      AddedInConcat([Removed(list[0].ptr)], RemovedAll(list[1..]), p);
    }
  }

  lemma ResetAgrees(s: Sync)
    requires Agrees(s)
    ensures Agrees(Reset(s))
  {
    hide Has, Told, AddedIn, RemovedIn;
    forall p: Long ensures Told(Reset(s).events, p) <==> Has([], p) {
      RemovedAllRemoves(s.snapshot, p);
      ToldAppend(s.events, RemovedAll(s.snapshot), p);
      assert !Has([], p) by { NothingHas(p); }
    }
  }

  lemma NothingHas(p: Long)
    ensures !Has([], p)
  {
  }

  ghost predicate Clean(steps: seq<Step>) {
    forall i :: 0 <= i < |steps| && steps[i].WalkStep? ==> DupFree(steps[i].walk)
  }

  /** After every run of duplicate-free walks, teardowns and resets, the host knows exactly the kept snapshot. */
  lemma {:induction false} HostKnowsTheSnapshot(s: Sync, steps: seq<Step>)
    requires Agrees(s) && Clean(steps)
    ensures Agrees(DoAll(s, steps))
    decreases |steps|
  {
    hide Walk, Teardown, Reset, Has, Told, DupFree, Agrees;
    if steps != [] {
      match steps[0] {
        case WalkStep(walk) => WalkAgrees(s, walk);
        case TeardownStep(p) => TeardownAgrees(s, p);
        case ResetStep => ResetAgrees(s);
      }
      HostKnowsTheSnapshot(Do(s, steps[0]), steps[1..]);
    }
  }

  lemma TeardownAgrees(s: Sync, p: Long)
    requires Agrees(s)
    ensures Agrees(Teardown(s, p))
  {
    hide Has, Teardown, Told, DupFree;
    TeardownDoes(s, p, p);
    forall q: Long ensures Told(Teardown(s, p).events, q) <==> Has(Teardown(s, p).snapshot, q) {
      TeardownDoes(s, p, q);
    }
  }

  // ------------------------------------------------- the last 600 walks

  const START := Sync([], map[], [])

  /** How many walks in a row, up to now, have not seen the window. */
  function Absent(steps: seq<Step>, p: Long): nat
    decreases |steps|
  {
    if steps == [] then 0
    else
      match steps[|steps| - 1]
      case WalkStep(walk) => if Has(walk, p) then 0 else 1 + Absent(steps[..|steps| - 1], p)
      case TeardownStep(_) => Absent(steps[..|steps| - 1], p)
      case ResetStep => 0
  }

  /** The window has been seen since it was last torn down, and never missing for 600 walks in a row since. */
  predicate InView(steps: seq<Step>, p: Long)
    decreases |steps|
  {
    if steps == [] then false
    else
      var before := steps[..|steps| - 1];
      match steps[|steps| - 1]
      case WalkStep(walk) => Has(walk, p) || (InView(before, p) && Absent(before, p) + 1 < PATIENCE)
      case TeardownStep(q) => q != p && InView(before, p)
      case ResetStep => false
  }

  /**
    The missing count a teardown left behind and the walks still go on from: the
    hook does not clear it, a window coming back at that address takes it over,
    and it is gone once a walk sees the window again, or retires it.
   */
  function Stale(steps: seq<Step>, p: Long): nat
    decreases |steps|
  {
    if steps == [] then 0
    else
      var before := steps[..|steps| - 1];
      match steps[|steps| - 1]
      case WalkStep(walk) =>
        if InView(before, p) && (Has(walk, p) || Absent(before, p) + 1 >= PATIENCE) then 0 else Stale(before, p)
      case TeardownStep(q) =>
        if q != p || !InView(before, p) then Stale(before, p)
        else if Stale(before, p) + Absent(before, p) < PATIENCE then Stale(before, p) + Absent(before, p)
        else 0
      case ResetStep => 0
  }

  /** The window is never torn down while the walks are missing it. */
  predicate Prompt(steps: seq<Step>, p: Long)
    decreases |steps|
  {
    steps == [] ||
    (var before := steps[..|steps| - 1];
     Prompt(before, p) && (steps[|steps| - 1] == TeardownStep(p) && InView(before, p) ==> Absent(before, p) == 0))
  }

  lemma {:induction false} DoAllAppend(s: Sync, steps: seq<Step>, last: Step)
    ensures DoAll(s, steps + [last]) == Do(DoAll(s, steps), last)
    decreases |steps|
  {
    hide Do;
    if steps == [] {
      assert [last][1..] == [] && [] + [last] == [last];
      assert DoAll(s, [last]) == DoAll(Do(s, last), [last][1..]);
    } else {
      assert (steps + [last])[1..] == steps[1..] + [last];
      DoAllAppend(Do(s, steps[0]), steps[1..], last);
    }
  }

  /** What the snapshot and the missing count are, from the history alone. */
  ghost predicate Counted(s: Sync, steps: seq<Step>, p: Long) {
    && (Has(s.snapshot, p) <==> InView(steps, p) && Stale(steps, p) + Absent(steps, p) < PATIENCE)
    && Count(s.missing, p) == (if Has(s.snapshot, p) then Stale(steps, p) + Absent(steps, p)
                               else if InView(steps, p) then 0 else Stale(steps, p))
    && Stale(steps, p) < PATIENCE && (InView(steps, p) ==> Absent(steps, p) < PATIENCE)
  }

  lemma {:induction false} CountsAreRight(steps: seq<Step>, p: Long)
    requires Clean(steps)
    ensures Counted(DoAll(START, steps), steps, p) && DupFree(DoAll(START, steps).snapshot)
    decreases |steps|
  {
    hide Do, Has, DupFree, Counted;
    if steps == [] {
      assert Counted(START, steps, p) by { hide *; CountedAtStart(steps, p); }
      assert DupFree([]) by { NothingDup(); }
    } else {
      var init, last := steps[..|steps| - 1], steps[|steps| - 1];
      CountsAreRight(init, p);
      assert steps == init + [last];
      DoAllAppend(START, init, last);
      StepCounts(DoAll(START, init), init, last, p);
    }
  }

  lemma CountedAtStart(steps: seq<Step>, p: Long)
    requires steps == []
    ensures Counted(START, steps, p)
  {
    NothingHas(p);
  }

  lemma StepCounts(s: Sync, init: seq<Step>, last: Step, p: Long)
    requires Counted(s, init, p) && DupFree(s.snapshot) && (last.WalkStep? ==> DupFree(last.walk))
    ensures Counted(Do(s, last), init + [last], p) && DupFree(Do(s, last).snapshot)
  {
    hide Walk, Teardown, Has, DupFree;
    var steps := init + [last];
    assert steps[..|steps| - 1] == init;
    match last {
      case WalkStep(walk) => WalkDoes(s, walk, p);
      case TeardownStep(q) =>
        TeardownDoes(s, q, p);
        TeardownKeepsMissing(s, q);
      case ResetStep =>
        assert !Has([], p) by { NothingHas(p); }
        assert DupFree([]) by { NothingDup(); }
    }
  }

  lemma NothingDup()
    ensures DupFree([])
  {
  }

  /**
    The host knows exactly the windows seen since their last teardown and never
    since then missing from 600 walks in a row, except one that took over a stale
    count and has been missing long enough for the two together to reach 600.
   */
  lemma HostKnowsTheWindowsInView(steps: seq<Step>, p: Long)
    requires Clean(steps)
    ensures Told(DoAll(START, steps).events, p) <==> InView(steps, p) && Stale(steps, p) + Absent(steps, p) < PATIENCE
  {
    hide InView, Told, DoAll, Has, DupFree;
    StartAgrees();
    HostKnowsTheSnapshot(START, steps);
    CountsAreRight(steps, p);
  }

  /** A window that is only ever torn down while it is being seen takes over no count, whatever happens to others. */
  lemma {:induction false} PromptTeardownsLeaveNoCount(steps: seq<Step>, p: Long)
    requires Clean(steps) && Prompt(steps, p)
    ensures Stale(steps, p) == 0
    ensures Told(DoAll(START, steps).events, p) <==> InView(steps, p)
    decreases |steps|
  {
    hide Has, Told, DoAll;
    HostKnowsTheWindowsInView(steps, p);
    CountsAreRight(steps, p);
    if steps != [] {
      PromptTeardownsLeaveNoCount(steps[..|steps| - 1], p);
    }
  }

  lemma StartAgrees()
    ensures Agrees(START)
  {
  }

  /** A run of walks that do not see the window. */
  ghost predicate AllMiss(walks: seq<seq<Win>>, p: Long) {
    forall i :: 0 <= i < |walks| ==> DupFree(walks[i]) && !Has(walks[i], p)
  }

  function Walks(walks: seq<seq<Win>>): seq<Step> {
    if walks == [] then [] else [WalkStep(walks[0])] + Walks(walks[1..])
  }

  /**
    A known window that goes missing for fewer than 600 walks and returns is
    neither removed nor added again: nothing at all is said of it but changes.
   */
  lemma {:induction false} AShortAbsenceGoesUnnoticed(s: Sync, walks: seq<seq<Win>>, p: Long, back: seq<Win>)
    requires DupFree(s.snapshot) && Has(s.snapshot, p) && AllMiss(walks, p) && Count(s.missing, p) + |walks| < PATIENCE
    requires DupFree(back) && Has(back, p)
    ensures var r := DoAll(s, Walks(walks) + [WalkStep(back)]);
            && |s.events| <= |r.events| && r.events[..|s.events|] == s.events
            && !AddedIn(r.events[|s.events|..], p) && !RemovedIn(r.events[|s.events|..], p)
            && Has(r.snapshot, p) && p !in r.missing
    decreases |walks|
  {
    hide Has, Walk, Calls, AddedIn, RemovedIn, DupFree, DoAll, Walks;
    if walks == [] {
      WalkDoes(s, back, p);
      NoWalks(Walk(s, back));
      assert Walks(walks) + [WalkStep(back)] == [WalkStep(back)] + [];
      FirstWalk(s, back, []);
      EventsGrow(s.events, Calls(s, back), []);
    } else {
      var first, rest := walks[0], walks[1..];
      WalkDoes(s, first, p);
      var t := Walk(s, first);
      var later := Walks(rest) + [WalkStep(back)];
      AShortAbsenceGoesUnnoticed(t, rest, p, back);
      WalksSplit(walks);
      assert Walks(walks) + [WalkStep(back)] == [WalkStep(first)] + later;
      FirstWalk(s, first, later);
      var tail := DoAll(t, later).events[|t.events|..];
      assert DoAll(t, later).events == t.events + tail;
      EventsGrow(s.events, Calls(s, first), tail);
      AddedInConcat(Calls(s, first), tail, p);
    }
  }

  lemma NoWalks(s: Sync)
    ensures Walks([]) == [] && DoAll(s, []) == s
  {
  }

  lemma WalksSplit(walks: seq<seq<Win>>)
    requires walks != []
    ensures Walks(walks) == [WalkStep(walks[0])] + Walks(walks[1..])
  {
  }

  lemma FirstWalk(s: Sync, first: seq<Win>, later: seq<Step>)
    ensures DoAll(s, [WalkStep(first)] + later) == DoAll(Walk(s, first), later)
  {
    hide Walk;
    assert ([WalkStep(first)] + later)[1..] == later;
  }

  lemma EventsGrow(was: seq<Event>, calls: seq<Event>, tail: seq<Event>)
    ensures var all := was + calls + tail; all[..|was|] == was && all[|was|..] == calls + tail
    ensures calls + [] == calls
    ensures was + calls + [] == was + calls
  {
  }

  /** `n` walks that see nothing. */
  function EmptyWalks(n: nat): seq<Step> {
    if n == 0 then [] else EmptyWalks(n - 1) + [WalkStep([])]
  }

  lemma OneMoreMiss(init: seq<Step>, p: Long)
    requires InView(init, p) && Absent(init, p) + 1 < PATIENCE
    ensures var steps := init + [WalkStep([])];
            && InView(steps, p) && Absent(steps, p) == Absent(init, p) + 1 && Stale(steps, p) == Stale(init, p)
            && (Clean(init) ==> Clean(steps))
  {
    hide Has, DupFree;
    var steps := init + [WalkStep([])];
    assert steps[..|steps| - 1] == init;
    assert !Has([], p) by { NothingHas(p); }
    assert DupFree([]) by { NothingDup(); }
  }

  lemma {:induction false} EmptyWalksMiss(before: seq<Step>, n: nat, p: Long)
    requires InView(before, p) && Absent(before, p) == 0 && n < PATIENCE
    ensures var steps := before + EmptyWalks(n);
            InView(steps, p) && Absent(steps, p) == n && Stale(steps, p) == Stale(before, p)
                && (Clean(before) ==> Clean(steps))
    decreases n
  {
    hide InView, Absent, Stale, Clean;
    if n == 0 {
      assert before + EmptyWalks(0) == before;
    } else {
      EmptyWalksMiss(before, n - 1, p);
      OneMoreMiss(before + EmptyWalks(n - 1), p);
      assert before + EmptyWalks(n) == before + EmptyWalks(n - 1) + [WalkStep([])];
    }
  }

  /** Seen once, missed by `n` walks, torn down, and seen again at the same address. */
  function Reused(w: Win, n: nat): seq<Step> {
    [WalkStep([w])] + EmptyWalks(n) + [TeardownStep(w.ptr), WalkStep([w])]
  }

  lemma ReusedIsStale(w: Win, n: nat)
    requires n < PATIENCE
    ensures Clean(Reused(w, n)) && InView(Reused(w, n), w.ptr) && Absent(Reused(w, n), w.ptr) == 0
            && Stale(Reused(w, n), w.ptr) == n
  {
    hide Has, DupFree;
    var p := w.ptr;
    assert DupFree([w]) && Has([w], p) by { Singles(w); }
    var one := [WalkStep([w])];
    var none: seq<Step> := [];
    assert one[..0] == none;
    EmptyWalksMiss(one, n, p);
    var two := one + EmptyWalks(n);
    var three := two + [TeardownStep(p)];
    var four := three + [WalkStep([w])];
    assert three[..|three| - 1] == two && four[..|four| - 1] == three;
    assert Reused(w, n) == four;
  }

  /**
    Why addresses must not be reused while counted: from a fresh start, a window
    torn down after n missed walks passes its count to the next one at its
    address, which is retired as soon as it has missed 600 - n.
   */
  lemma AStaleCountRetiresTheNextWindow(w: Win, n: nat, m: nat)
    requires n < PATIENCE && m < PATIENCE
    ensures var steps := Reused(w, n) + EmptyWalks(m);
            && Clean(steps) && InView(steps, w.ptr) && Absent(steps, w.ptr) == m
            && (Told(DoAll(START, steps).events, w.ptr) <==> n + m < PATIENCE)
  {
    hide InView, Absent, Stale, Told, DoAll, Reused, Clean;
    ReusedIsStale(w, n);
    EmptyWalksMiss(Reused(w, n), m, w.ptr);
    HostKnowsTheWindowsInView(Reused(w, n) + EmptyWalks(m), w.ptr);
  }

  lemma TeardownKeepsMissing(s: Sync, p: Long)
    ensures Teardown(s, p).missing == s.missing
  {
  }

  lemma Singles(w: Win)
    ensures DupFree([w]) && Has([w], w.ptr) && DupFree([]) && !Has([], w.ptr)
  {
  }

  // ------------------------------------------- what a walk does to the pixels

  /** How pixels are redirected: the size of RAM, whether at all, and for which windows new pages can be mapped. */
  datatype Means = Means(ram: Long, enabled: bool, mapped: Win -> bool)

  function Content(w: Win): R.Rect {
    R.Rect(w.look.top, w.look.left, w.look.bottom, w.look.right)
  }

  /** The window is redirected, and its port no longer has the size of its buffer. */
  predicate Resized(s: R.Surfaces, p: Long) {
    var k, rect := R.IndexOf(s.records, p), R.ReadRect(s.memory, p + R.PORT_RECT);
    && k < |s.records|
    && !(rect.right - rect.left == s.records[k].width && rect.bottom - rect.top == s.records[k].height)
  }

  function Redirected(s: R.Surfaces, w: Win, how: Means): R.Surfaces {
    R.Redirected(s, how.ram, how.enabled, w.ptr, Content(w), how.mapped(w))
  }

  /** A new window is redirected; one that has been resized is given back and redirected from scratch. */
  function Attended(s: R.Surfaces, w: Win, was: seq<Win>, how: Means): R.Surfaces {
    var k := Find(was, w.ptr);
    if k == |was| then Redirected(s, w, how)
    else if was[k].look != w.look && Resized(s, w.ptr) then Redirected(R.GivenBack(s, how.ram, w.ptr, true), w, how)
    else s
  }

  /** The second loop. */
  function AdoptSurfaces(s: R.Surfaces, current: seq<Win>, was: seq<Win>, how: Means): R.Surfaces
    decreases |current|
  {
    if current == [] then s else AdoptSurfaces(Attended(s, current[0], was, how), current[1..], was, how)
  }

  /** The first loop: what is retired is given back, its port untouched. */
  function RetireSurfaces(s: R.Surfaces, was: seq<Win>, pass: Pass, how: Means): R.Surfaces
    decreases |was|
  {
    if was == [] then s
    else
      var next := RetireOne(was[0], pass);
      RetireSurfaces(if next.removed == pass.removed then s
                     else R.GivenBack(s, how.ram, was[0].ptr, false), was[1..], next, how)
  }

  /** A whole walk: ports re-asserted, lost windows given back, new and resized ones redirected. */
  function WalkSurfaces(s: R.Surfaces, state: Sync, walk: seq<Win>, how: Means): R.Surfaces {
    var asserted := s.(memory := R.ReassertedAll(s.memory, how.ram, s.records));
    var start := Pass(walk, state.missing, []);
    AdoptSurfaces(RetireSurfaces(asserted, state.snapshot, start, how), RetirePass(state.snapshot, start).current,
                  state.snapshot, how)
  }

  lemma {:induction false} AdoptSplits(s: R.Surfaces, a: seq<Win>, b: seq<Win>, was: seq<Win>, how: Means)
    ensures AdoptSurfaces(s, a + b, was, how) == AdoptSurfaces(AdoptSurfaces(s, a, was, how), b, was, how)
    decreases |a|
  {
    hide Attended;
    if a == [] {
      assert a + b == b;
    } else {
      assert (a + b)[1..] == a[1..] + b && (a + b)[0] == a[0];
      AdoptSplits(Attended(s, a[0], was, how), a[1..], b, was, how);
    }
  }

  /** Attending to a window leaves every other one redirected or not. */
  lemma AttendedLeavesOthers(s: R.Surfaces, w: Win, was: seq<Win>, how: Means, p: Long)
    requires p != w.ptr
    ensures R.HasRecord(Attended(s, w, was, how).records, p) <==> R.HasRecord(s.records, p)
  {
    hide R.Redirected, R.GivenBack, R.HasRecord, Resized, Find;
    RedirectedLeavesOthers(s, w, how, p);
    GivenBackLeavesOthers(s, how.ram, w.ptr, true, p);
    RedirectedLeavesOthers(R.GivenBack(s, how.ram, w.ptr, true), w, how, p);
  }

  lemma RedirectedLeavesOthers(s: R.Surfaces, w: Win, how: Means, p: Long)
    requires p != w.ptr
    ensures R.HasRecord(Redirected(s, w, how).records, p) <==> R.HasRecord(s.records, p)
  {
    hide R.Redirected, R.HasRecord, R.Takes;
    R.RedirectedRecords(s, how.ram, how.enabled, w.ptr, Content(w), how.mapped(w));
    var r := Redirected(s, w, how);
    if r.records != s.records { OneMoreRecord(s.records, r.records, p); }
  }

  lemma OneMoreRecord(was: seq<R.Record>, now: seq<R.Record>, p: Long)
    requires |now| == |was| + 1 && now[..|was|] == was && now[|was|].window != p
    ensures R.HasRecord(now, p) <==> R.HasRecord(was, p)
  {
    assert forall i :: 0 <= i < |was| ==> now[i] == was[i];
  }

  lemma GivenBackLeavesOthers(s: R.Surfaces, ram: Long, window: Long, portValid: bool, p: Long)
    requires p != window
    ensures R.HasRecord(R.GivenBack(s, ram, window, portValid).records, p) <==> R.HasRecord(s.records, p)
  {
    hide R.Unpoint, R.Freed;
    var k, r := R.IndexOf(s.records, window), R.GivenBack(s, ram, window, portValid);
    if k < |s.records| {
      assert forall i :: 0 <= i < |r.records| ==> r.records[i] == s.records[if i < k then i else i + 1];
      if R.HasRecord(s.records, p) {
        var i :| 0 <= i < |s.records| && s.records[i].window == p;
        assert r.records[if i < k then i else i - 1].window == p;
      }
    }
  }

  lemma {:induction false} AdoptLeavesOthers(s: R.Surfaces, current: seq<Win>, was: seq<Win>, how: Means, p: Long)
    requires !Has(current, p)
    ensures R.HasRecord(AdoptSurfaces(s, current, was, how).records, p) <==> R.HasRecord(s.records, p)
    decreases |current|
  {
    hide Has, Attended, R.HasRecord;
    if current != [] {
      HasTail(current, p);
      AttendedLeavesOthers(s, current[0], was, how, p);
      AdoptLeavesOthers(Attended(s, current[0], was, how), current[1..], was, how, p);
    }
  }

  /** Whether a window is redirected after its turn: by what it was before, and what port and arena then allow. */
  predicate EndsRedirected(s: R.Surfaces, w: Win, was: seq<Win>, how: Means) {
    var k := Find(was, w.ptr);
    if k == |was| then R.HasRecord(s.records, w.ptr) || R.Takes(s, how.ram, how.enabled, w.ptr, how.mapped(w))
    else if was[k].look != w.look && Resized(s, w.ptr)
    then R.Takes(R.GivenBack(s, how.ram, w.ptr, true), how.ram, how.enabled, w.ptr, how.mapped(w))
    else R.HasRecord(s.records, w.ptr)
  }

  lemma AttendedEnds(s: R.Surfaces, w: Win, was: seq<Win>, how: Means)
    requires R.OnePerWindow(s.records)
    ensures R.HasRecord(Attended(s, w, was, how).records, w.ptr) <==> EndsRedirected(s, w, was, how)
  {
    hide R.Redirected, R.GivenBack, R.HasRecord, R.OnePerWindow, R.Takes, Find;
    var back := R.GivenBack(s, how.ram, w.ptr, true);
    R.RedirectedRecords(s, how.ram, how.enabled, w.ptr, Content(w), how.mapped(w));
    R.RedirectedRecords(back, how.ram, how.enabled, w.ptr, Content(w), how.mapped(w));
    GivenBackHasNone(s, how.ram, w.ptr, true);
  }

  lemma GivenBackHasNone(s: R.Surfaces, ram: Long, window: Long, portValid: bool)
    requires R.OnePerWindow(s.records)
    ensures var r := R.GivenBack(s, ram, window, portValid);
            !R.HasRecord(r.records, window) && R.OnePerWindow(r.records)
  {
    hide R.Unpoint, R.Freed, R.HasRecord, R.OnePerWindow, R.IndexOf;
    R.IndexFinds(s.records, window);
    var k := R.IndexOf(s.records, window);
    if k < |s.records| { R.OnePerWindowWithout(s.records, k); }
  }

  lemma AttendedKeepsOne(s: R.Surfaces, w: Win, was: seq<Win>, how: Means)
    requires R.OnePerWindow(s.records)
    ensures R.OnePerWindow(Attended(s, w, was, how).records)
  {
    hide R.Redirected, R.GivenBack, R.HasRecord, R.OnePerWindow, R.Takes, Find;
    RedirectedKeepsOne(s, w, how);
    GivenBackHasNone(s, how.ram, w.ptr, true);
    RedirectedKeepsOne(R.GivenBack(s, how.ram, w.ptr, true), w, how);
  }

  lemma RedirectedKeepsOne(s: R.Surfaces, w: Win, how: Means)
    requires R.OnePerWindow(s.records)
    ensures R.OnePerWindow(Redirected(s, w, how).records)
  {
    hide R.Redirected, R.HasRecord, R.Takes, R.OnePerWindow;
    R.RedirectedRecords(s, how.ram, how.enabled, w.ptr, Content(w), how.mapped(w));
    var r := Redirected(s, w, how);
    if r.records != s.records {
      assert r.records == s.records + [r.records[|s.records|]];
      R.OnePerWindowMore(s.records, r.records[|s.records|]);
    }
  }

  lemma {:induction false} AdoptKeepsOne(s: R.Surfaces, current: seq<Win>, was: seq<Win>, how: Means)
    requires R.OnePerWindow(s.records)
    ensures R.OnePerWindow(AdoptSurfaces(s, current, was, how).records)
    decreases |current|
  {
    hide Attended, R.OnePerWindow;
    if current != [] {
      AttendedKeepsOne(s, current[0], was, how);
      AdoptKeepsOne(Attended(s, current[0], was, how), current[1..], was, how);
    }
  }

  /**
    Which windows end a walk redirected: each one exactly when its own turn, in
    the state the turns before it left, makes or leaves it so.
   */
  lemma EachTurnDecides(s: R.Surfaces, current: seq<Win>, was: seq<Win>, how: Means, k: nat)
    requires DupFree(current) && k < |current| && R.OnePerWindow(s.records)
    ensures R.HasRecord(AdoptSurfaces(s, current, was, how).records, current[k].ptr)
        <==> EndsRedirected(AdoptSurfaces(s, current[..k], was, how), current[k], was, how)
    ensures R.HasRecord(AdoptSurfaces(s, current[..k], was, how).records, current[k].ptr)
            <==> R.HasRecord(s.records, current[k].ptr)
  {
    hide AdoptSurfaces, Attended, EndsRedirected, Has, R.HasRecord, R.OnePerWindow, Find;
    var w, a: seq<Win>, b: seq<Win> := current[k], current[..k], current[k + 1..];
    var before := AdoptSurfaces(s, a, was, how);
    assert current == a + ([w] + b);
    HasAt(a, w.ptr);
    HasAt(b, w.ptr);
    AdoptKeepsOne(s, a, was, how);
    AdoptLeavesOthers(s, a, was, how, w.ptr);
    AdoptSplits(s, a, [w] + b, was, how);
    AdoptFirst(before, w, b, was, how);
    AttendedEnds(before, w, was, how);
    AdoptLeavesOthers(Attended(before, w, was, how), b, was, how, w.ptr);
  }

  lemma AdoptFirst(s: R.Surfaces, w: Win, rest: seq<Win>, was: seq<Win>, how: Means)
    ensures AdoptSurfaces(s, [w] + rest, was, how) == AdoptSurfaces(Attended(s, w, was, how), rest, was, how)
  {
    hide Attended;
    assert ([w] + rest)[1..] == rest;
  }

  // --------------------------------------------------------- the code's form

  /** Every redirected window is among these. */
  ghost predicate Owned(records: seq<R.Record>, list: seq<Win>) {
    forall r :: r in records ==> Has(list, r.window)
  }

  class WindowSync {
    const active: bool
    const ramSize: Long
    const mirror: R.Mirror
    var snapshot: seq<Win>
    var missing: map<Long, nat>
    var events: seq<Event>

    constructor (active: bool, ramSize: Long, mirror: R.Mirror)
      requires mirror.Valid() && mirror.records == []
      ensures Valid() && View() == START && this.active == active && this.ramSize == ramSize && this.mirror == mirror
    {
      this.active, this.ramSize, this.mirror := active, ramSize, mirror;
      snapshot, missing, events := [], map[], [];
    }

    /** No pixel buffer outlives its window: every redirected window is still in the kept snapshot. */
    ghost predicate Valid()
      reads this, mirror, mirror.arena
    {
      mirror.Valid() && Owned(mirror.records, snapshot)
    }

    ghost function View(): Sync
      reads this
    {
      Sync(snapshot, missing, events)
    }

    method FindWindow(list: seq<Win>, p: Long) returns (k: nat)
      ensures k == Find(list, p)
    {
      k := 0;
      while k < |list|
        invariant k <= |list| && forall j :: 0 <= j < k ==> list[j].ptr != p
      {
        if list[k].ptr == p { break; }
        k := k + 1;
      }
    }

    /** The window is off the list already, so only its buffer is given back. */
    method ReleaseLost(p: Long, ghost kept: seq<Win>, ghost rest: seq<Win>)
      requires mirror.Valid() && OwnedByEither(mirror.records, kept, rest) && rest != [] && rest[0].ptr == p
      modifies mirror, mirror.arena
      ensures mirror.Valid() && OwnedByEither(mirror.records, kept, rest[1..])
      ensures mirror.View() == R.GivenBack(old(mirror.View()), mirror.ram, p, false)
    {
      hide OwnedByEither, R.HasRecord, R.GivenBack;
      ghost var was := mirror.records;
      mirror.RestoreWindow(p, false);
      StillOwned(was, mirror.records, p, kept, rest);
    }

    /** One window of the old snapshot: seen again, missing for now, or retired. */
    method RetireWindow(w: Win, kept: seq<Win>, ghost rest: seq<Win>, ghost removed: seq<Event>)
      returns (next: seq<Win>, ghost gone: seq<Event>)
      requires mirror.Valid() && OwnedByEither(mirror.records, kept, rest) && rest != [] && rest[0] == w
      modifies this`missing, this`events, mirror, mirror.arena
      ensures RetireOne(w, Pass(kept, old(missing), removed)) == Pass(next, missing, removed + gone)
      ensures events == old(events) + gone
      ensures mirror.Valid() && OwnedByEither(mirror.records, next, rest[1..])
      ensures mirror.View() == if gone == [] then old(mirror.View())
              else R.GivenBack(old(mirror.View()), mirror.ram, w.ptr, false)
    {
      hide Has, OwnedByEither, R.Mirror.Valid, R.Mirror.View, R.GivenBack;
      next, gone := kept, [];
      var k := FindWindow(kept, w.ptr);
      NextOwned(mirror.records, kept, rest);
      assert Has(kept, w.ptr) <==> k < |kept| by { HasFound(kept, w.ptr, k); }
      if k < |kept| {
        missing := missing - {w.ptr};
        return;
      }
      ghost var before := missing;
      missing := missing[w.ptr := Count(missing, w.ptr) + 1];
      if missing[w.ptr] < PATIENCE {
        next := kept + [w];
        return;
      }
      assert missing - {w.ptr} == before - {w.ptr};
      missing := missing - {w.ptr};
      ReleaseLost(w.ptr, kept, rest);
      gone := [Removed(w.ptr)];
      events := events + [Removed(w.ptr)];
    }

    /** The first loop. */
    method Retire(current: seq<Win>, ghost how: Means) returns (kept: seq<Win>)
      requires Valid() && how.ram == mirror.ram
      modifies this`missing, this`events, mirror, mirror.arena
      ensures Pass(kept, missing, events) == AfterRetire(old(View()), current)
      ensures mirror.Valid() && Owned(mirror.records, kept)
      ensures mirror.View() == RetireSurfaces(old(mirror.View()), snapshot, Pass(current, old(missing), []), how)
    {
      hide Has, OwnedByEither, Owned, R.Mirror.Valid, R.Mirror.View, R.GivenBack, RetireOne, RetirePass, RetireSurfaces;
      kept := current;
      StartOwned(mirror.records, kept, snapshot);
      ghost var removed: seq<Event> := [];
      assert snapshot[0..] == snapshot;
      for i := 0 to |snapshot|
        invariant RetirePass(snapshot, Pass(current, old(missing), []))
                == RetirePass(snapshot[i..], Pass(kept, missing, removed))
        invariant events == old(events) + removed
        invariant mirror.Valid() && OwnedByEither(mirror.records, kept, snapshot[i..])
        invariant RetireSurfaces(old(mirror.View()), snapshot, Pass(current, old(missing), []), how)
               == RetireSurfaces(mirror.View(), snapshot[i..], Pass(kept, missing, removed), how)
      {
        assert snapshot[i..][1..] == snapshot[i + 1..];
        RetireSteps(mirror.View(), snapshot[i..], Pass(kept, missing, removed), how);
        ghost var gone;
        kept, gone := RetireWindow(snapshot[i], kept, snapshot[i..], removed);
        assert removed + gone == removed <==> gone == [];
        removed := removed + gone;
      }
      RetireEnds(mirror.View(), snapshot[|snapshot|..], Pass(kept, missing, removed), how);
      assert Owned(mirror.records, kept) by { AllOwned(mirror.records, kept, snapshot[|snapshot|..]); }
    }

    /** Gives a window a buffer, if its port qualifies. */
    method RedirectOne(w: Win, how: Means, ghost current: seq<Win>)
      requires mirror.Valid() && Owned(mirror.records, current) && w in current && Uses(how)
      modifies mirror, mirror.arena
      ensures mirror.Valid() && Owned(mirror.records, current)
      ensures mirror.View() == Redirected(old(mirror.View()), w, how)
    {
      hide Owned, R.Mirror.Valid, R.Redirected, R.Takes, R.HasRecord;
      ghost var before := mirror.View();
      var done := mirror.RedirectWindow(w.ptr, Content(w), how.mapped(w));
      R.RedirectedRecords(before, how.ram, how.enabled, w.ptr, Content(w), how.mapped(w));
      if done { OneMoreOwned(before.records, mirror.records, current, w); }
    }

    predicate Uses(how: Means)
    {
      how.ram == mirror.ram && how.enabled == mirror.enabled
    }

    /** A window that looks different and no longer has its buffer's size is redirected from scratch. */
    method Resize(w: Win, how: Means, ghost current: seq<Win>)
      requires mirror.Valid() && Owned(mirror.records, current) && w in current && Uses(how)
      modifies mirror, mirror.arena
      ensures mirror.Valid() && Owned(mirror.records, current)
      ensures mirror.View() == if Resized(old(mirror.View()), w.ptr)
                               then Redirected(R.GivenBack(old(mirror.View()), how.ram, w.ptr, true), w, how)
                               else old(mirror.View())
    {
      hide Owned, R.Mirror.Valid, R.Redirected, R.HasRecord, R.GivenBack;
      var k := mirror.FindRecord(w.ptr);
      if k == |mirror.records| { return; }
      var rect := R.ReadRect(mirror.memory, w.ptr + R.PORT_RECT);
      if rect.right - rect.left == mirror.records[k].width && rect.bottom - rect.top == mirror.records[k].height {
        return;
      }
      ghost var was := mirror.records;
      mirror.RestoreWindow(w.ptr, true);
      FewerOwned(was, mirror.records, current);
      RedirectOne(w, how, current);
    }

    method Adopt(current: seq<Win>, how: Means)
      requires mirror.Valid() && Owned(mirror.records, current) && Uses(how)
      modifies this`events, mirror, mirror.arena
      ensures events == old(events) + AdoptPass(current, snapshot)
      ensures mirror.View() == AdoptSurfaces(old(mirror.View()), current, snapshot, how)
      ensures mirror.Valid() && Owned(mirror.records, current)
    {
      hide Reported, Owned, R.Mirror.Valid, R.Mirror.View, Attended;
      assert current[0..] == current;
      for i := 0 to |current|
        invariant old(events) + AdoptPass(current, snapshot) == events + AdoptPass(current[i..], snapshot)
        invariant AdoptSurfaces(old(mirror.View()), current, snapshot, how)
                == AdoptSurfaces(mirror.View(), current[i..], snapshot, how)
        invariant mirror.Valid() && Owned(mirror.records, current)
      {
        ghost var before, rest := events, AdoptPass(current[i + 1..], snapshot);
        assert current[i..][1..] == current[i + 1..];
        AdoptOne(current[i], how, current);
        assert before + (Reported(current[i], snapshot) + rest) == events + rest;
      }
    }

    /** Announces a new window, or reports one that looks different. */
    method AdoptOne(w: Win, how: Means, ghost current: seq<Win>)
      requires mirror.Valid() && Owned(mirror.records, current) && w in current && Uses(how)
      modifies this`events, mirror, mirror.arena
      ensures events == old(events) + Reported(w, snapshot)
              && mirror.View() == Attended(old(mirror.View()), w, snapshot, how)
      ensures mirror.Valid() && Owned(mirror.records, current)
    {
      hide Find, Owned, R.Mirror.Valid, R.Mirror.View, R.Redirected, R.GivenBack, Resized;
      var k := FindWindow(snapshot, w.ptr);
      if k == |snapshot| {
        RedirectOne(w, how, current);
        events := events + [Added(w)];
      } else if snapshot[k].look != w.look {
        Resize(w, how, current);
        events := events + [Changed(w)];
      }
    }

    /**
      Toolbox_ProcessPendingWindowSync, with what a walk finds; nothing while the
      guest is inside a routine of ours.
     */
    method ProcessWalk(walk: seq<Win>, busy: bool, how: Means)
      requires Valid() && Uses(how)
      modifies this, mirror, mirror.arena
      ensures Valid() && View() == if active && !busy then Walk(old(View()), walk) else old(View())
      ensures mirror.View() == if active && !busy then WalkSurfaces(old(mirror.View()), old(View()), walk, how)
              else old(mirror.View())
    {
      hide R.Mirror.Valid, Owned, R.ReassertedAll, RetireSurfaces, AdoptSurfaces;
      if !active || busy { return; }
      mirror.ReassertVisRgns();
      var current := Retire(walk, how);
      Adopt(current, how);
      snapshot := current;
    }

    /** The hook on _CloseWindow and _DisposeWindow. */
    method HandleTeardown(p: Long)
      requires Valid()
      modifies this`snapshot, this`events, mirror, mirror.arena
      ensures Valid() && View() == if 0x1000 <= p < ramSize then Teardown(old(View()), p) else old(View())
      ensures 0x1000 <= p < ramSize ==> !R.HasRecord(mirror.records, p)
      ensures mirror.View() == if 0x1000 <= p < ramSize then R.GivenBack(old(mirror.View()), mirror.ram, p, true)
                               else old(mirror.View())
    {
      hide R.Mirror.Valid, Owned, R.HasRecord, Has, R.GivenBack;
      if !(0x1000 <= p < ramSize) { return; }
      ghost var was := mirror.records;
      mirror.RestoreWindow(p, true);
      FewerOwned(was, mirror.records, snapshot);
      events := events + [Removed(p)];
      DropFromSnapshot(p);
    }

    method DropFromSnapshot(p: Long)
      requires Valid() && !R.HasRecord(mirror.records, p)
      modifies this`snapshot
      ensures Valid() && snapshot == Teardown(old(View()), p).snapshot
    {
      hide R.Mirror.Valid, Owned, R.HasRecord, Has, Find;
      var k := FindWindow(snapshot, p);
      if k < |snapshot| {
        RemainingOwned(mirror.records, snapshot, k);
        snapshot := snapshot[..k] + snapshot[k + 1..];
      }
    }

    method AnnounceAllGone()
      modifies this`events
      ensures events == old(events) + RemovedAll(snapshot)
    {
      assert snapshot[0..] == snapshot;
      ghost var made: seq<Event> := [];
      for i := 0 to |snapshot|
        invariant events == old(events) + made && RemovedAll(snapshot) == made + RemovedAll(snapshot[i..])
      {
        assert snapshot[i..][1..] == snapshot[i + 1..];
        made := made + [Removed(snapshot[i].ptr)];
        events := events + [Removed(snapshot[i].ptr)];
      }
    }

    /** ToolboxWindow_Reset. */
    method ResetWindows()
      requires Valid()
      modifies this, mirror, mirror.arena
      ensures Valid() && View() == Reset(old(View()))
      ensures mirror.View() == old(mirror.View()).(records := [], pool := Arena.Reset(old(mirror.View()).pool))
    {
      hide R.Mirror.Valid;
      AnnounceAllGone();
      mirror.Forget();
      snapshot, missing := [], map[];
    }
  }

  // ---------------------------------------------- buffers and their windows

  ghost predicate OwnedByEither(records: seq<R.Record>, a: seq<Win>, b: seq<Win>) {
    forall r :: r in records ==> Has(a, r.window) || Has(b, r.window)
  }

  lemma StartOwned(records: seq<R.Record>, kept: seq<Win>, was: seq<Win>)
    requires Owned(records, was)
    ensures OwnedByEither(records, kept, was)
  {
  }

  lemma HasFound(list: seq<Win>, p: Long, k: nat)
    requires k == Find(list, p)
    ensures Has(list, p) <==> k < |list|
  {
  }

  /** The first window of the second list is kept, appended, or loses its record. */
  lemma NextOwned(records: seq<R.Record>, kept: seq<Win>, rest: seq<Win>)
    requires OwnedByEither(records, kept, rest) && rest != []
    ensures Has(kept, rest[0].ptr) ==> OwnedByEither(records, kept, rest[1..])
    ensures OwnedByEither(records, kept + [rest[0]], rest[1..])
  {
    hide Has;
    forall r | r in records
      ensures Has(kept, rest[0].ptr) ==> Has(kept, r.window) || Has(rest[1..], r.window)
      ensures Has(kept + [rest[0]], r.window) || Has(rest[1..], r.window)
    {
      HasTail(rest, r.window);
      HasAppend(kept, rest[0], r.window);
    }
  }

  lemma StillOwned(was: seq<R.Record>, now: seq<R.Record>, p: Long, kept: seq<Win>, rest: seq<Win>)
    requires OwnedByEither(was, kept, rest) && rest != [] && rest[0].ptr == p
    requires (forall r :: r in now ==> r in was) && !R.HasRecord(now, p)
    ensures OwnedByEither(now, kept, rest[1..])
  {
    hide Has;
    forall r | r in now ensures Has(kept, r.window) || Has(rest[1..], r.window) {
      HasTail(rest, r.window);
      var i :| 0 <= i < |now| && now[i] == r;
      assert r.window != p;
    }
  }

  lemma AllOwned(records: seq<R.Record>, kept: seq<Win>, rest: seq<Win>)
    requires OwnedByEither(records, kept, rest) && rest == []
    ensures Owned(records, kept)
  {
    forall r | r in records ensures Has(kept, r.window) { NothingHas(r.window); }
  }

  lemma FewerOwned(was: seq<R.Record>, now: seq<R.Record>, list: seq<Win>)
    requires Owned(was, list) && forall r :: r in now ==> r in was
    ensures Owned(now, list)
  {
  }

  lemma OneMoreOwned(was: seq<R.Record>, now: seq<R.Record>, list: seq<Win>, w: Win)
    requires Owned(was, list) && w in list && |now| == |was| + 1 && now[..|was|] == was && now[|was|].window == w.ptr
    ensures Owned(now, list)
  {
    hide Find, Has;
    HasAt(list, w.ptr);
    var k :| 0 <= k < |list| && list[k] == w;
    assert list[k].ptr == w.ptr;
    assert now == was + [now[|was|]];
  }

  lemma RemainingOwned(records: seq<R.Record>, list: seq<Win>, k: nat)
    requires Owned(records, list) && k < |list| && !R.HasRecord(records, list[k].ptr)
    ensures Owned(records, list[..k] + list[k + 1..])
  {
    hide Find, Has;
    var rest := list[..k] + list[k + 1..];
    forall r | r in records ensures Has(rest, r.window) {
      HasAt(list, r.window);
      HasAt(rest, r.window);
      var i :| 0 <= i < |records| && records[i] == r;
      var j :| 0 <= j < |list| && list[j].ptr == r.window;
      assert j != k;
      assert rest[if j < k then j else j - 1] == list[j];
    }
  }

  /** One turn of the first loop. */
  lemma RetireSteps(s: R.Surfaces, was: seq<Win>, pass: Pass, how: Means)
    requires was != []
    ensures RetirePass(was, pass) == RetirePass(was[1..], RetireOne(was[0], pass))
    ensures var next := RetireOne(was[0], pass);
            RetireSurfaces(s, was, pass, how)
            == RetireSurfaces(if next.removed == pass.removed then s
                              else R.GivenBack(s, how.ram, was[0].ptr, false), was[1..], next, how)
  {
    hide R.GivenBack, Has;
  }

  lemma RetireEnds(s: R.Surfaces, was: seq<Win>, pass: Pass, how: Means)
    requires was == []
    ensures RetirePass(was, pass) == pass && RetireSurfaces(s, was, pass, how) == s
  {
  }

  /** The retiring pass of a walk, with the calls it adds to those made before. */
  ghost function AfterRetire(s: Sync, walk: seq<Win>): Pass {
    var pass := RetirePass(s.snapshot, Pass(walk, s.missing, []));
    pass.(removed := s.events + pass.removed)
  }
}
