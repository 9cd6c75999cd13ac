/** The package scheduler as a state machine: API calls, the ticker and the package goroutines interleave
    freely between the critical sections of the controller (internal/controller/controller.go). */
module Scheduler {
  import opened Text
  import opened Controller

  const GROUP_LIMIT := 10

  /** Who holds the lock between critical sections: nobody, or pick, waiting for the goroutine group to
      take one more goroutine for the package it has just made active. */
  datatype Mutex = Free | HeldByPick(pkg: PackageId)

  /** A goroutine between queueToAwait and dequeueFromAwait; resolved once its decision has been. */
  datatype Waiter = Waiter(pkg: PackageId, resolved: bool)

  /** running, waiting and exiting are the goroutines of the group: running a job, awaiting a decision,
      and past deactivate but not yet returned. submitted and started are the history. */
  datatype System = System(
    lists: Lists, mutex: Mutex, running: multiset<PackageId>, waiting: map<DecisionId, Waiter>, exiting: nat,
    submitted: seq<PackageId>, started: seq<PackageId>)

  datatype Step =
    | Submit(pkg: PackageId)
    | Tick
    | Spawn
    | Await(pkg: PackageId, dec: DecisionId)
    | Resolve(dec: DecisionId)
    | Resume(dec: DecisionId)
    | Finish(pkg: PackageId)
    | Exit

  const INITIAL := System(EMPTY, Free, multiset{}, map[], 0, [], [])

  function Goroutines(s: System): nat {
    |s.running| + |s.waiting| + s.exiting
  }

  predicate Enabled(s: System, step: Step) {
    match step
    case Submit(_) => s.mutex.Free?
    case Tick => s.mutex.Free?
    case Spawn => s.mutex.HeldByPick? && Goroutines(s) < GROUP_LIMIT
    case Await(pkg, dec) => s.mutex.Free? && pkg in s.running && dec !in s.waiting
    case Resolve(dec) => dec in s.waiting && !s.waiting[dec].resolved
    case Resume(dec) => s.mutex.Free? && dec in s.waiting && s.waiting[dec].resolved
    case Finish(pkg) => s.mutex.Free? && pkg in s.running
    case Exit => s.exiting > 0
  }

  function Do(s: System, step: Step): System
    requires Enabled(s, step)
  {
    match step
    case Submit(pkg) => s.(lists := Queue(s.lists, pkg), submitted := s.submitted + [pkg])
    case Tick =>
      if Idle(s.lists) then s
      else
        var pkg := s.lists.queued[0];
        var picked := s.(lists := Pick(s.lists), started := s.started + [pkg]);
        if Goroutines(s) < GROUP_LIMIT then picked.(running := s.running + multiset{pkg})
        else picked.(mutex := HeldByPick(pkg))
    case Spawn => s.(running := s.running + multiset{s.mutex.pkg}, mutex := Free)
    case Await(pkg, dec) =>
      // The error of queueToAwait is ignored: the goroutine waits in either case.
      s.(
        lists := QueueToAwait(s.lists, pkg, dec), running := s.running - multiset{pkg},
        waiting := s.waiting[dec := Waiter(pkg, false)])
    case Resolve(dec) => s.(waiting := s.waiting[dec := s.waiting[dec].(resolved := true)])
    case Resume(dec) =>
      var pkg := s.waiting[dec].pkg;
      s.(
        lists := DequeueFromAwait(s.lists, pkg, dec), waiting := s.waiting - {dec},
        running := s.running + multiset{pkg})
    case Finish(pkg) =>
      s.(lists := Deactivate(s.lists, pkg), running := s.running - multiset{pkg}, exiting := s.exiting + 1)
    case Exit => s.(exiting := s.exiting - 1)
  }

  // ---------------------------------------------------------------- the invariant

  function Held(m: Mutex): multiset<PackageId> {
    if m.HeldByPick? then multiset{m.pkg} else multiset{}
  }

  /** The list holds the decisions of the package's waiting goroutines, each once. */
  ghost predicate ListsAll(list: seq<DecisionId>, waiting: map<DecisionId, Waiter>, pkg: PackageId) {
    && Distinct(list)
    && forall d :: d in list <==> d in waiting && waiting[d].pkg == pkg
  }

  /** The pending decisions are those of the waiting goroutines; no package keeps an empty list. */
  ghost predicate Listed(awaiting: map<PackageId, seq<DecisionId>>, waiting: map<DecisionId, Waiter>) {
    && (forall p | p in awaiting :: awaiting[p] != [] && ListsAll(awaiting[p], waiting, p))
    && (forall d | d in waiting :: waiting[d].pkg in awaiting)
  }

  ghost predicate Inv(s: System) {
    && multiset(s.lists.active) == s.running + Held(s.mutex)
    && Listed(s.lists.awaiting, s.waiting)
    && s.lists.activeGauge == |s.lists.active| + |s.waiting|
    && s.lists.queueGauge == |s.lists.queued| + |s.lists.active| + |s.waiting|
    && s.submitted == s.started + s.lists.queued
    && Goroutines(s) <= GROUP_LIMIT
  }

  lemma {:induction false} InvStep(s: System, step: Step)
    requires Inv(s) && Enabled(s, step)
    ensures Inv(Do(s, step))
  {
    match step
    case Submit(pkg) => InvSubmit(s, pkg);
    case Tick => InvTick(s);
    case Spawn =>
    case Await(pkg, dec) => InvAwait(s, pkg, dec);
    case Resolve(dec) => InvResolve(s, dec);
    case Resume(dec) => InvResume(s, dec);
    case Finish(pkg) => InvFinish(s, pkg);
    case Exit =>
  }

  lemma InvSubmit(s: System, pkg: PackageId)
    requires Inv(s) && Enabled(s, Submit(pkg))
    ensures Inv(Do(s, Submit(pkg)))
  {
    assert s.started + (s.lists.queued + [pkg]) == (s.started + s.lists.queued) + [pkg];
  }

  lemma InvTick(s: System)
    requires Inv(s) && Enabled(s, Tick)
    ensures Inv(Do(s, Tick))
  {
    if !Idle(s.lists) {
      var pkg, rest := s.lists.queued[0], s.lists.queued[1..];
      assert s.lists.queued == [pkg] + rest;
      assert s.started + s.lists.queued == (s.started + [pkg]) + rest;
      assert multiset(s.lists.active + [pkg]) == multiset(s.lists.active) + multiset{pkg};
    }
  }

  lemma {:induction false} InvAwait(s: System, pkg: PackageId, dec: DecisionId)
    requires Inv(s) && Enabled(s, Await(pkg, dec))
    ensures Inv(Do(s, Await(pkg, dec)))
  {
    assert pkg in multiset(s.lists.active);
    RemoveFirstCounts(s.lists.active, pkg);
    ListedAdd(s.lists.awaiting, s.waiting, pkg, dec);
  }

  lemma InvResolve(s: System, dec: DecisionId)
    requires Inv(s) && Enabled(s, Resolve(dec))
    ensures Inv(Do(s, Resolve(dec)))
  {
    var resolved := s.waiting[dec := s.waiting[dec].(resolved := true)];
    assert resolved.Keys == s.waiting.Keys;
    assert forall d | d in resolved :: resolved[d].pkg == s.waiting[d].pkg;
    assert |resolved| == |s.waiting|;
  }

  lemma {:induction false} InvResume(s: System, dec: DecisionId)
    requires Inv(s) && Enabled(s, Resume(dec))
    ensures Inv(Do(s, Resume(dec)))
  {
    ListedRemove(s.lists.awaiting, s.waiting, dec);
    var pkg := s.waiting[dec].pkg;
    assert multiset(s.lists.active + [pkg]) == multiset(s.lists.active) + multiset{pkg};
  }

  lemma InvFinish(s: System, pkg: PackageId)
    requires Inv(s) && Enabled(s, Finish(pkg))
    ensures Inv(Do(s, Finish(pkg)))
  {
    assert pkg in multiset(s.lists.active);
    RemoveFirstCounts(s.lists.active, pkg);
  }

  lemma ListsAllAdd(pending: seq<DecisionId>, waiting: map<DecisionId, Waiter>, pkg: PackageId, dec: DecisionId)
    requires dec !in waiting && ListsAll(pending, waiting, pkg)
    ensures ListsAll(pending + [dec], waiting[dec := Waiter(pkg, false)], pkg)
  {
    assert forall d | d in pending :: d in waiting;
  }

  lemma ListedAdd(
    awaiting: map<PackageId, seq<DecisionId>>, waiting: map<DecisionId, Waiter>, pkg: PackageId, dec: DecisionId)
    requires Listed(awaiting, waiting) && dec !in waiting
    ensures var pending := if pkg in awaiting then awaiting[pkg] else [];
            Listed(awaiting[pkg := pending + [dec]], waiting[dec := Waiter(pkg, false)])
    ensures |waiting[dec := Waiter(pkg, false)]| == |waiting| + 1
  {
    var pending := if pkg in awaiting then awaiting[pkg] else [];
    var waiting' := waiting[dec := Waiter(pkg, false)];
    assert waiting'.Keys == waiting.Keys + {dec};
    ListsAllAdd(pending, waiting, pkg, dec);
    forall p | p in awaiting && p != pkg ensures ListsAll(awaiting[p], waiting', p) {
      assert ListsAll(awaiting[p], waiting, p);
    }
  }

  lemma ListedRemove(awaiting: map<PackageId, seq<DecisionId>>, waiting: map<DecisionId, Waiter>, dec: DecisionId)
    requires Listed(awaiting, waiting) && dec in waiting
    ensures var pkg := waiting[dec].pkg;
            var rest := RemoveFirst(awaiting[pkg], dec);
            Listed(if rest == [] then awaiting - {pkg} else awaiting[pkg := rest], waiting - {dec})
    ensures |waiting - {dec}| == |waiting| - 1
  {
    var pkg, waiting' := waiting[dec].pkg, waiting - {dec};
    assert waiting'.Keys == waiting.Keys - {dec};
    RemoveFirstKeeps(awaiting[pkg], dec);
    var rest := RemoveFirst(awaiting[pkg], dec);
    assert ListsAll(rest, waiting', pkg);
    forall p | p in awaiting && p != pkg ensures ListsAll(awaiting[p], waiting', p) {
      assert ListsAll(awaiting[p], waiting, p);
    }
    if rest == [] {
      forall d | d in waiting' ensures waiting'[d].pkg in awaiting - {pkg} {
        assert d !in rest;
      }
    }
  }

  // ---------------------------------------------------------------- runs

  predicate CanRun(s: System, steps: seq<Step>)
    decreases |steps|
  {
    steps == [] || (Enabled(s, steps[0]) && CanRun(Do(s, steps[0]), steps[1..]))
  }

  function After(s: System, steps: seq<Step>): System
    requires CanRun(s, steps)
    decreases |steps|
  {
    if steps == [] then s else After(Do(s, steps[0]), steps[1..])
  }

  lemma {:induction false} InvRun(s: System, steps: seq<Step>)
    requires Inv(s) && CanRun(s, steps)
    ensures Inv(After(s, steps))
    decreases |steps|
  {
    if steps != [] {
      InvStep(s, steps[0]);
      InvRun(Do(s, steps[0]), steps[1..]);
    }
  }

  lemma {:induction false} RunConcat(s: System, a: seq<Step>, b: seq<Step>)
    requires CanRun(s, a) && CanRun(After(s, a), b)
    ensures CanRun(s, a + b) && After(s, a + b) == After(After(s, a), b)
    decreases |a|
  {
    if a == [] {
      assert a + b == b;
    } else {
      assert (a + b)[0] == a[0] && (a + b)[1..] == a[1..] + b;
      RunConcat(Do(s, a[0]), a[1..], b);
    }
  }

  ghost function WaitingOf(s: System, pkg: PackageId): set<DecisionId> {
    set d | d in s.waiting && s.waiting[d].pkg == pkg
  }

  /** Whatever the interleaving: each package, counted by identifier, is on the active list or has pending
      decisions exactly as often as it has live goroutines (one more while pick waits to spawn it), the
      gauges agree with the lists, and packages start in the order they were submitted. */
  lemma Conservation(steps: seq<Step>, pkg: PackageId)
    requires CanRun(INITIAL, steps)
    ensures var s := After(INITIAL, steps);
            && multiset(s.lists.active)[pkg] + |Pending(s.lists, pkg)|
               == s.running[pkg] + |WaitingOf(s, pkg)| + Held(s.mutex)[pkg]
            && (pkg in s.lists.awaiting ==> s.lists.awaiting[pkg] != [])
            && s.lists.activeGauge == |s.lists.active| + |s.waiting|
            && s.lists.queueGauge == |s.lists.queued| + s.lists.activeGauge
            && s.started + s.lists.queued == s.submitted
  {
    InvRun(INITIAL, steps);
    var s := After(INITIAL, steps);
    var list := Pending(s.lists, pkg);
    assert forall d | d in WaitingOf(s, pkg) :: s.waiting[d].pkg in s.lists.awaiting;
    if pkg in s.lists.awaiting {
      assert ListsAll(list, s.waiting, pkg);
    }
    assert Elements(list) == WaitingOf(s, pkg);
    DistinctSize(list);
  }

  /** The searches of the critical sections never fail: the errors ignored there do not occur. */
  lemma SearchesSucceed(steps: seq<Step>, step: Step)
    requires CanRun(INITIAL, steps) && Enabled(After(INITIAL, steps), step)
    ensures var s := After(INITIAL, steps);
            match step
            case Await(pkg, _) => pkg in s.lists.active
            case Finish(pkg) => pkg in s.lists.active
            case Resume(dec) => dec in Pending(s.lists, s.waiting[dec].pkg)
            case _ => true
  {
    InvRun(INITIAL, steps);
    var s := After(INITIAL, steps);
    match step
    case Await(pkg, _) => assert pkg in multiset(s.lists.active);
    case Finish(pkg) => assert pkg in multiset(s.lists.active);
    case Resume(dec) => assert ListsAll(s.lists.awaiting[s.waiting[dec].pkg], s.waiting, s.waiting[dec].pkg);
    case _ =>
  }

  /** With the lock free, no more than ten packages are active or awaiting. */
  lemma InFlightBound(steps: seq<Step>)
    requires CanRun(INITIAL, steps)
    ensures var s := After(INITIAL, steps);
            s.mutex.Free? ==> |s.lists.active| + |s.waiting| <= 10
  {
    InvRun(INITIAL, steps);
    var s := After(INITIAL, steps);
    assert |multiset(s.lists.active)| == |s.lists.active|;
  }

  // ---------------------------------------------------------------- what a step changes

  /** The second list is the first without the first x in it. */
  ghost predicate WithoutFirst(before: seq<nat>, x: nat, after: seq<nat>) {
    exists k :: && 0 <= k < |before| && before[k] == x && x !in before[..k]
                && after == before[..k] + before[k + 1..]
  }

  ghost predicate OnlyPending(l: Lists, r: Lists, pkg: PackageId) {
    r.queued == l.queued && forall p | p != pkg :: Pending(r, p) == Pending(l, p)
  }

  /** What the lists are after a step: started from the front of the queue, made active at the end of the list,
      awaiting in order; with the lock held by pick they stay. */
  ghost predicate Effect(s: System, step: Step, l: Lists, r: Lists) {
    match step
    case Submit(pkg) => r.queued == l.queued + [pkg] && r.active == l.active && r.awaiting == l.awaiting
    case Tick =>
      if |l.active| == 2 || l.queued == [] then r == l
      else r.active == l.active + l.queued[..1] && r.queued == l.queued[1..] && r.awaiting == l.awaiting
    case Await(pkg, dec) =>
      && WithoutFirst(l.active, pkg, r.active) && OnlyPending(l, r, pkg)
      && Pending(r, pkg) == Pending(l, pkg) + [dec]
    case Resume(dec) =>
      && dec in s.waiting
      && var pkg := s.waiting[dec].pkg;
         && r.active == l.active + [pkg] && OnlyPending(l, r, pkg)
         && WithoutFirst(Pending(l, pkg), dec, Pending(r, pkg))
    case Finish(pkg) => WithoutFirst(l.active, pkg, r.active) && r.queued == l.queued && r.awaiting == l.awaiting
    case _ => r == l
  }

  lemma {:induction false} NotBefore(list: seq<nat>, x: nat)
    ensures x !in list[..FirstIndex(list, x)]
  {
    if list != [] && list[0] != x {
      NotBefore(list[1..], x);
      assert list[..FirstIndex(list, x)] == [list[0]] + list[1..][..FirstIndex(list[1..], x)];
    }
  }

  lemma {:induction false} RemovedIsWithout(list: seq<nat>, x: nat)
    requires x in list
    ensures WithoutFirst(list, x, RemoveFirst(list, x))
  {
    var k := FirstIndex(list, x);
    NotBefore(list, x);
    assert list[k] == x && x !in list[..k];
  }

  lemma {:induction false} StepEffect(s: System, step: Step)
    requires Inv(s) && Enabled(s, step)
    ensures Effect(s, step, s.lists, Do(s, step).lists)
    ensures s.mutex.HeldByPick? ==> Do(s, step).lists == s.lists
  {
    match step
    case Await(pkg, _) =>
      assert pkg in multiset(s.lists.active);
      RemovedIsWithout(s.lists.active, pkg);
    case Finish(pkg) =>
      assert pkg in multiset(s.lists.active);
      RemovedIsWithout(s.lists.active, pkg);
    case Resume(dec) => ResumeEffect(s, dec);
    case _ =>
  }

  lemma ResumeEffect(s: System, dec: DecisionId)
    requires Inv(s) && Enabled(s, Resume(dec))
    ensures Effect(s, Resume(dec), s.lists, Do(s, Resume(dec)).lists)
  {
    var pkg := s.waiting[dec].pkg;
    assert ListsAll(s.lists.awaiting[pkg], s.waiting, pkg);
    RemovedIsWithout(s.lists.awaiting[pkg], dec);
  }

  /** The slots of the group that are taken. */
  function Slots(s: System): nat {
    |s.running| + |s.waiting| + s.exiting
  }

  lemma SlotsAwait(s: System, pkg: PackageId, dec: DecisionId)
    requires Enabled(s, Await(pkg, dec))
    ensures Slots(Do(s, Await(pkg, dec))) == Slots(s)
  {
    var waiting := s.waiting[dec := Waiter(pkg, false)];
    assert waiting.Keys == s.waiting.Keys + {dec} && |waiting| == |waiting.Keys|;
  }

  lemma SlotsResolve(s: System, dec: DecisionId)
    requires Enabled(s, Resolve(dec))
    ensures Slots(Do(s, Resolve(dec))) == Slots(s)
  {
    var waiting := s.waiting[dec := s.waiting[dec].(resolved := true)];
    assert waiting.Keys == s.waiting.Keys && |waiting| == |waiting.Keys|;
  }

  lemma SlotsResume(s: System, dec: DecisionId)
    requires Enabled(s, Resume(dec))
    ensures Slots(Do(s, Resume(dec))) == Slots(s)
  {
    var waiting := s.waiting - {dec};
    assert waiting.Keys == s.waiting.Keys - {dec} && |waiting| == |waiting.Keys|;
  }

  /** A goroutine takes a slot when it starts and keeps it, also while it waits and after its package has been
      deactivated, until it returns. */
  lemma {:induction false} SlotsTaken(s: System, step: Step)
    requires Enabled(s, step)
    ensures var s' := Do(s, step);
            match step
            case Tick => Slots(s') == if s'.started != s.started && s'.mutex.Free? then Slots(s) + 1 else Slots(s)
            case Spawn => Slots(s') == Slots(s) + 1
            case Exit => Slots(s') == Slots(s) - 1
            case _ => Slots(s') == Slots(s)
  {
    match step
    case Await(pkg, dec) => SlotsAwait(s, pkg, dec);
    case Resolve(dec) => SlotsResolve(s, dec);
    case Resume(dec) => SlotsResume(s, dec);
    case _ =>
  }

  /** A package resumes only once its decision has been resolved. */
  lemma {:induction false} ResolvedFirst(s: System, steps: seq<Step>, dec: DecisionId)
    requires CanRun(s, steps) && Resolve(dec) !in steps
    requires dec in s.waiting ==> !s.waiting[dec].resolved
    ensures Resume(dec) !in steps
    decreases |steps|
  {
    if steps != [] {
      assert steps == [steps[0]] + steps[1..];
      ResolvedFirst(Do(s, steps[0]), steps[1..], dec);
    }
  }

  // ---------------------------------------------------------------- progress

  /** pick holds the lock, the group is full, and no goroutine is on its way out. */
  predicate Stuck(s: System) {
    s.mutex.HeldByPick? && |s.running| + |s.waiting| == 10 && s.exiting == 0
  }

  /** Nothing that can still happen releases a slot: decisions may be resolved, but nobody can act on it. */
  lemma {:induction false} StuckForever(s: System, steps: seq<Step>)
    requires Stuck(s) && CanRun(s, steps)
    ensures Stuck(After(s, steps)) && After(s, steps).lists == s.lists
    decreases |steps|
  {
    if steps != [] {
      var dec := steps[0].dec;
      assert steps[0] == Resolve(dec);
      var s' := Do(s, steps[0]);
      assert s'.waiting.Keys == s.waiting.Keys;
      assert |s'.waiting| == |s'.waiting.Keys|;
      StuckForever(s', steps[1..]);
    }
  }

  ghost predicate CanReturn(s: System) {
    exists steps :: CanRun(s, steps) && After(s, steps).mutex.Free?
  }

  /** pick returns, at once or after some other goroutine has left, except exactly when ten packages are
      in flight, none of them leaving, and pick means to start an eleventh. */
  lemma PickReturnsExactly(s: System)
    requires Inv(s) && s.mutex.Free?
    ensures CanReturn(Do(s, Tick))
            <==> !(|s.running| + |s.waiting| == 10 && s.lists.queued != [] && |s.lists.active| != 2)
  {
    var picked := Do(s, Tick);
    if picked.mutex.Free? {
      assert CanRun(picked, []) && After(picked, []).mutex.Free?;
    } else if picked.exiting > 0 {
      TwoSteps(picked, Exit, Spawn);
    } else {
      forall steps | CanRun(picked, steps) ensures !After(picked, steps).mutex.Free? {
        StuckForever(picked, steps);
      }
    }
  }

  // ---------------------------------------------------------------- how many packages are active

  /** As long as no package resumes from a decision, at most two are active. */
  lemma {:induction false} TwoActiveWithoutResume(s: System, steps: seq<Step>)
    requires Inv(s) && |s.lists.active| <= 2 && CanRun(s, steps)
    requires forall step | step in steps :: !step.Resume?
    ensures |After(s, steps).lists.active| <= 2
    decreases |steps|
  {
    if steps != [] {
      InvStep(s, steps[0]);
      TwoActiveWithoutResume(Do(s, steps[0]), steps[1..]);
    }
  }

  /** In every state of the run at most two packages are active. */
  predicate TwoActive(s: System, steps: seq<Step>)
    requires CanRun(s, steps)
    decreases |steps|
  {
    |s.lists.active| <= 2 && (steps == [] || TwoActive(Do(s, steps[0]), steps[1..]))
  }

  /** Every resumption finds fewer than two packages active: the guard that dequeueFromAwait does not have. */
  predicate ResumesHaveRoom(s: System, steps: seq<Step>)
    requires CanRun(s, steps)
    decreases |steps|
  {
    steps == [] || (
      && (steps[0].Resume? ==> |s.lists.active| < 2)
      && ResumesHaveRoom(Do(s, steps[0]), steps[1..])
    )
  }

  /** Only resuming activates a package without looking at the limit, and it always activates one. */
  lemma ActiveAfterStep(s: System, step: Step)
    requires Inv(s) && Enabled(s, step) && |s.lists.active| <= 2
    ensures |Do(s, step).lists.active| <= 2
            <==> (step.Resume? ==> |s.lists.active| < 2)
  {
    if step.Resume? {
      var pkg := s.waiting[step.dec].pkg;
      assert ListsAll(s.lists.awaiting[pkg], s.waiting, pkg);
    }
  }

  /** The limit of two holds throughout a run exactly if every resumption finds room below it. */
  lemma {:induction false} TwoActiveExactly(s: System, steps: seq<Step>)
    requires Inv(s) && |s.lists.active| <= 2 && CanRun(s, steps)
    ensures TwoActive(s, steps) <==> ResumesHaveRoom(s, steps)
    decreases |steps|
  {
    if steps != [] {
      InvStep(s, steps[0]);
      ActiveAfterStep(s, steps[0]);
      if |Do(s, steps[0]).lists.active| <= 2 {
        TwoActiveExactly(Do(s, steps[0]), steps[1..]);
      }
    }
  }

  /** n packages in a row start and stop at a decision. */
  function Rounds(n: nat): seq<Step> {
    if n == 0 then [] else Rounds(n - 1) + [Submit(n), Tick, Await(n, n)]
  }

  /** Packages 1 to n started; 1 to k have resumed and the others await their decision. */
  ghost predicate PartlyResumed(s: System, n: nat, k: nat) {
    && Inv(s) && s.mutex.Free? && s.lists.queued == [] && s.exiting == 0
    && |s.lists.active| == k <= n == k + |s.waiting|
    && forall d :: d in s.waiting <==> k < d <= n
  }

  ghost predicate NoneResolved(s: System) {
    forall d | d in s.waiting :: !s.waiting[d].resolved
  }

  lemma {:induction false} RoundsRun(n: nat)
    requires n <= 10
    ensures CanRun(INITIAL, Rounds(n))
    ensures PartlyResumed(After(INITIAL, Rounds(n)), n, 0) && NoneResolved(After(INITIAL, Rounds(n)))
  {
    if n > 0 {
      RoundsRun(n - 1);
      var s := After(INITIAL, Rounds(n - 1));
      OneMoreWaits(s, n);
      RunConcat(INITIAL, Rounds(n - 1), [Submit(n), Tick, Await(n, n)]);
    }
  }

  lemma {:induction false} OneMoreWaits(s: System, n: nat)
    requires 1 <= n <= 10 && PartlyResumed(s, n - 1, 0) && NoneResolved(s)
    ensures var steps := [Submit(n), Tick, Await(n, n)];
            CanRun(s, steps) && PartlyResumed(After(s, steps), n, 0) && NoneResolved(After(s, steps))
  {
    OneMoreStops(Do(Do(s, Submit(n)), Tick), n);
    ThreeSteps(s, Submit(n), Tick, Await(n, n));
  }

  /** Package n is the only one running; 1 to n - 1 await their decision. */
  ghost predicate OnlyRunning(s: System, n: nat) {
    && Inv(s) && s.mutex.Free? && s.lists.queued == [] && s.exiting == 0 && s.lists.active == [n]
    && n == 1 + |s.waiting| && s.running == multiset{n} && NoneResolved(s)
    && forall d :: d in s.waiting <==> 0 < d < n
  }

  lemma {:induction false} OneMoreStops(s: System, n: nat)
    requires OnlyRunning(s, n)
    ensures Enabled(s, Await(n, n))
    ensures PartlyResumed(Do(s, Await(n, n)), n, 0) && NoneResolved(Do(s, Await(n, n)))
  {
    InvStep(s, Await(n, n));
    assert RemoveFirst([n], n) == [];
  }

  lemma FirstStep(s: System, a: Step, rest: seq<Step>)
    requires Enabled(s, a) && CanRun(Do(s, a), rest)
    ensures CanRun(s, [a] + rest) && After(s, [a] + rest) == After(Do(s, a), rest)
  {
    assert ([a] + rest)[1..] == rest;
  }

  lemma TwoSteps(s: System, a: Step, b: Step)
    requires Enabled(s, a) && Enabled(Do(s, a), b)
    ensures CanRun(s, [a, b]) && After(s, [a, b]) == Do(Do(s, a), b)
  {
    FirstStep(Do(s, a), b, []);
    assert [b] + [] == [b];
    FirstStep(s, a, [b]);
    assert [a] + [b] == [a, b];
  }

  lemma ThreeSteps(s: System, a: Step, b: Step, c: Step)
    requires Enabled(s, a) && Enabled(Do(s, a), b) && Enabled(Do(Do(s, a), b), c)
    ensures CanRun(s, [a, b, c]) && After(s, [a, b, c]) == Do(Do(Do(s, a), b), c)
  {
    TwoSteps(Do(s, a), b, c);
    FirstStep(s, a, [b, c]);
    assert [a] + [b, c] == [a, b, c];
  }

  /** The stuck state is reached: ten packages await a decision and an eleventh is submitted. */
  lemma DeadlockIsReachable()
    ensures exists steps :: CanRun(INITIAL, steps) && Stuck(After(INITIAL, steps))
  {
    var n: nat :| n == 10;
    RoundsRun(n);
    var s := After(INITIAL, Rounds(n));
    var s1 := Do(s, Submit(11));
    assert s1.lists.queued == [11];
    TwoSteps(s, Submit(11), Tick);
    RunConcat(INITIAL, Rounds(n), [Submit(11), Tick]);
  }

  function Resumes(k: nat): seq<Step> {
    if k == 0 then [] else Resumes(k - 1) + [Resolve(k), Resume(k)]
  }

  lemma {:induction false} ResumesRun(s: System, n: nat, k: nat)
    requires PartlyResumed(s, n, 0) && NoneResolved(s) && k <= n
    ensures CanRun(s, Resumes(k)) && PartlyResumed(After(s, Resumes(k)), n, k) && NoneResolved(After(s, Resumes(k)))
  {
    if k > 0 {
      ResumesRun(s, n, k - 1);
      ResolveAndResume(After(s, Resumes(k - 1)), n, k);
      RunConcat(s, Resumes(k - 1), [Resolve(k), Resume(k)]);
    }
  }

  lemma ResolveAndResume(s: System, n: nat, k: nat)
    requires 1 <= k <= n && PartlyResumed(s, n, k - 1) && NoneResolved(s)
    ensures CanRun(s, [Resolve(k), Resume(k)])
    ensures var s' := After(s, [Resolve(k), Resume(k)]);
            PartlyResumed(s', n, k) && NoneResolved(s')
  {
    var s1 := Do(s, Resolve(k));
    InvStep(s, Resolve(k));
    var s2 := Do(s1, Resume(k));
    InvStep(s1, Resume(k));
    var pkg := s1.waiting[k].pkg;
    assert ListsAll(s1.lists.awaiting[pkg], s1.waiting, pkg);
    assert s2.waiting == s.waiting - {k};
    TwoSteps(s, Resolve(k), Resume(k));
  }

  /** The limit of two is no invariant: any number of packages up to the group limit can be active at
      once, by resuming one after the other. */
  lemma ManyActiveIsReachable(n: nat)
    requires n <= 10
    ensures exists steps :: CanRun(INITIAL, steps) && |After(INITIAL, steps).lists.active| == n
  {
    RoundsRun(n);
    ResumesRun(After(INITIAL, Rounds(n)), n, n);
    RunConcat(INITIAL, Rounds(n), Resumes(n));
  }
}
