/**
 The dispatcher with its workers and its one locker, as a transition system.

 Each critical section is one step, cut at `Cond.Wait`.  A worker loops over
 `Take` and `Release`; the locker is the dispatch goroutine, which brackets a
 full scan or a garbage collection with `Lock` and `Unlock`.  `Add` may happen
 at any time.  A signal wakes any one sleeper, and there are no spurious wakeups.
 */
module DispatcherSystem {
  import opened DispatcherCore

  type Worker = nat

  /** `Woken`: removed from the wait list, has not yet run again. */
  datatype WorkerState = Running | Asleep | Woken | Holding(repo: Repo)

  datatype LockerState = Idle | LockAsleep | LockWoken | Exclusive

  datatype System = System(core: Core, workers: map<Worker, WorkerState>, locker: LockerState)

  datatype Event =
    | Added(repo: Repo, lowPriority: bool)
    | Taken(worker: Worker, repo: Repo)
    | Slept(worker: Worker)
    | Released(worker: Worker, repo: Repo)
    | LockBegun
    | LockResumed
    | Unlocked

  ghost predicate Initial(s: System) {
    && s.core == EMPTY
    && s.locker == Idle
    && forall w :: w in s.workers ==> s.workers[w] == Running
  }

  function AsleepOf(ws: map<Worker, WorkerState>): set<Worker> {
    set w | w in ws && ws[w].Asleep?
  }

  function WokenOf(ws: map<Worker, WorkerState>): set<Worker> {
    set w | w in ws && ws[w].Woken?
  }

  function RunningOf(ws: map<Worker, WorkerState>): set<Worker> {
    set w | w in ws && ws[w].Running?
  }

  function HoldingOf(ws: map<Worker, WorkerState>): set<Worker> {
    set w | w in ws && ws[w].Holding?
  }

  /** `readyCond.Signal()` */
  ghost predicate Signalled(ws: map<Worker, WorkerState>, ws': map<Worker, WorkerState>) {
    if AsleepOf(ws) == {} then ws' == ws
    else exists w :: w in AsleepOf(ws) && ws' == ws[w := Woken]
  }

  ghost predicate SignalledIf(signal: bool, ws: map<Worker, WorkerState>, ws': map<Worker, WorkerState>) {
    if signal then Signalled(ws, ws') else ws' == ws
  }

  /** `readyCond.Broadcast()` */
  function Broadcast(ws: map<Worker, WorkerState>): map<Worker, WorkerState> {
    map w | w in ws :: if ws[w].Asleep? then Woken else ws[w]
  }

  /** The worker is about to test `someReady` in `Take`. */
  predicate CanRun(s: System, w: Worker) {
    w in s.workers && (s.workers[w].Running? || s.workers[w].Woken?)
  }

  function LockTest(c: Core): LockerState {
    if c.pendingCount > 0 then LockAsleep else Exclusive
  }

  ghost predicate Step(s: System, e: Event, s': System) {
    match e
    case Added(repo, lowPriority) =>
      && s'.core == Add(s.core, repo, lowPriority)
      && SignalledIf(AddSignals(s.core, repo), s.workers, s'.workers)
      && s'.locker == s.locker
    case Taken(w, repo) =>
      && CanRun(s, w) && SomeReady(s.core) && repo in Choices(s.core)
      && s' == s.(core := Take(s.core, repo), workers := s.workers[w := Holding(repo)])
    case Slept(w) =>
      && CanRun(s, w) && !SomeReady(s.core)
      && s' == s.(workers := s.workers[w := Asleep])
    case Released(w, repo) =>
      && w in s.workers && s.workers[w] == Holding(repo) && CanRelease(s.core, repo)
      && s'.core == Release(s.core, repo)
      && SignalledIf(ReleaseSignals(s.core, repo), s.workers[w := Running], s'.workers)
      && s'.locker == (if s.locker.LockAsleep? then LockWoken else s.locker)
    case LockBegun =>
      && s.locker.Idle?
      && s' == s.(core := s.core.(locked := true), locker := LockTest(s.core))
    case LockResumed =>
      && s.locker.LockWoken?
      && s' == s.(locker := LockTest(s.core))
    case Unlocked =>
      && s.locker.Exclusive?
      && var c := s.core.(locked := false);
         s' == System(c, if SomeReady(c) then Broadcast(s.workers) else s.workers, Idle)
  }

  /** `Add`, `Lock` and `Unlock` come from outside; the other steps the system does by itself. */
  predicate Internal(e: Event) {
    e.Taken? || e.Slept? || e.Released? || e.LockResumed?
  }

  ghost predicate IsRun(states: seq<System>, events: seq<Event>) {
    && |states| == |events| + 1
    && forall i :: 0 <= i < |events| ==> Step(states[i], events[i], states[i + 1])
  }

  ghost predicate Reachable(s: System) {
    exists states, events :: IsRun(states, events) && Initial(states[0]) && states[|events|] == s
  }

  // ----- The invariant -----

  /** Pending repositories are exactly the held ones, each held once. */
  ghost predicate HoldersMatch(s: System) {
    && (forall w :: w in s.workers && s.workers[w].Holding? ==> s.workers[w].repo in Pending(s.core))
    && (forall r :: r in Pending(s.core) ==> exists w :: w in s.workers && s.workers[w] == Holding(r))
    && (forall v, w :: v in s.workers && w in s.workers && s.workers[v].Holding? && s.workers[v] == s.workers[w] ==>
          v == w)
  }

  ghost predicate LockerMatches(s: System) {
    && (s.locker.Idle? <==> !s.core.locked)
    && (s.locker.Exclusive? ==> s.core.pendingCount == 0)
    && (s.locker.LockAsleep? ==> s.core.pendingCount > 0)
  }

  /** Unlocked, with a worker asleep, every ready repository has a worker on its way. */
  ghost predicate NoLostWakeup(s: System) {
    !s.core.locked && AsleepOf(s.workers) != {} ==> |WokenOf(s.workers)| >= |Ready(s.core)|
  }

  ghost predicate Inv(s: System) {
    Consistent(s.core) && HoldersMatch(s) && LockerMatches(s) && NoLostWakeup(s)
  }

  lemma InitialInv(s: System)
    requires Initial(s)
    ensures Inv(s)
  {
    assert Pending(EMPTY) == {} && Ready(EMPTY) == {};
    assert forall r :: Indexed(EMPTY, r);
  }

  lemma SignalEffect(signal: bool, ws: map<Worker, WorkerState>, ws': map<Worker, WorkerState>)
    requires SignalledIf(signal, ws, ws')
    ensures RunningOf(ws') == RunningOf(ws) && HoldingOf(ws') == HoldingOf(ws)
    ensures ws'.Keys == ws.Keys
    ensures forall w :: w in ws && !ws[w].Asleep? ==> ws'[w] == ws[w]
    ensures forall w :: w in ws && ws[w].Asleep? ==> ws'[w].Asleep? || ws'[w].Woken?
    ensures AsleepOf(ws') <= AsleepOf(ws)
    ensures |WokenOf(ws')| == |WokenOf(ws)| + (if signal && AsleepOf(ws) != {} then 1 else 0)
  {
    if signal && AsleepOf(ws) != {} {
      var w :| w in AsleepOf(ws) && ws' == ws[w := Woken];
      assert WokenOf(ws') == WokenOf(ws) + {w};
    }
  }

  lemma HoldersUnchanged(s: System, s': System)
    requires HoldersMatch(s) && Pending(s'.core) == Pending(s.core) && s'.workers.Keys == s.workers.Keys
    requires forall w :: w in s.workers && s.workers[w].Holding? ==> s'.workers[w] == s.workers[w]
    requires forall w :: w in s.workers && !s.workers[w].Holding? ==> !s'.workers[w].Holding?
    ensures HoldersMatch(s')
  {
    forall r | r in Pending(s'.core)
      ensures exists w :: w in s'.workers && s'.workers[w] == Holding(r)
    {
      var w :| w in s.workers && s.workers[w] == Holding(r);
      assert s'.workers[w] == Holding(r);
    }
  }

  lemma AddedInv(s: System, e: Event, s': System)
    requires Inv(s) && e.Added? && Step(s, e, s')
    ensures Inv(s')
  {
    var c := s.core;
    AddKeeps(c, e.repo, e.lowPriority);
    SignalEffect(AddSignals(c, e.repo), s.workers, s'.workers);
    HoldersUnchanged(s, s');
    AddedWakes(s, e, s');
  }

  /** Whatever becomes ready by an `Add` is signalled. */
  lemma AddedWakes(s: System, e: Event, s': System)
    requires NoLostWakeup(s) && Consistent(s.core) && e.Added? && Step(s, e, s')
    ensures NoLostWakeup(s')
  {
    AddGrowsReady(s.core, e.repo, e.lowPriority);
    SignalEffect(AddSignals(s.core, e.repo), s.workers, s'.workers);
  }

  lemma AddGrowsReady(c: Core, repo: Repo, lowPriority: bool)
    requires Consistent(c)
    ensures |Ready(Add(c, repo, lowPriority))| <= |Ready(c)| + if AddSignals(c, repo) || c.locked then 1 else 0
  {
    AddKeeps(c, repo, lowPriority);
    assert Indexed(c, repo);
    if repo in Ready(c) {
      assert Ready(c) + {repo} == Ready(c);
    }
  }

  lemma TakenHolders(s: System, w: Worker, repo: Repo, s': System)
    requires HoldersMatch(s) && w in s.workers && !s.workers[w].Holding? && repo !in Pending(s.core)
    requires s'.workers == s.workers[w := Holding(repo)] && Pending(s'.core) == Pending(s.core) + {repo}
    ensures HoldersMatch(s')
  {
    forall r | r in Pending(s'.core)
      ensures exists v :: v in s'.workers && s'.workers[v] == Holding(r)
    {
      if r == repo {
        assert s'.workers[w] == Holding(r);
      } else {
        var v :| v in s.workers && s.workers[v] == Holding(r);
        assert s'.workers[v] == Holding(r);
      }
    }
  }

  lemma TakenInv(s: System, e: Event, s': System)
    requires Inv(s) && e.Taken? && Step(s, e, s')
    ensures Inv(s')
  {
    TakeKeeps(s.core, e.repo);
    TakenHolders(s, e.worker, e.repo, s');
    TakenWakes(s, e, s');
  }

  lemma TakenWakes(s: System, e: Event, s': System)
    requires NoLostWakeup(s) && Consistent(s.core) && e.Taken? && Step(s, e, s')
    ensures NoLostWakeup(s')
  {
    TakeShrinksReady(s.core, e.repo);
    StartsHolding(s.workers, e.worker, e.repo);
  }

  lemma TakeShrinksReady(c: Core, repo: Repo)
    requires Consistent(c) && SomeReady(c) && repo in Choices(c)
    ensures |Ready(Take(c, repo))| == |Ready(c)| - 1
  {
    TakeKeeps(c, repo);
  }

  /** At most one worker is no longer on its way. */
  lemma StartsHolding(ws: map<Worker, WorkerState>, w: Worker, repo: Repo)
    requires w in ws && (ws[w].Running? || ws[w].Woken?)
    ensures |WokenOf(ws[w := Holding(repo)])| >= |WokenOf(ws)| - 1
    ensures AsleepOf(ws[w := Holding(repo)]) == AsleepOf(ws)
  {
    assert WokenOf(ws[w := Holding(repo)]) == WokenOf(ws) - {w};
  }

  lemma SleptInv(s: System, e: Event, s': System)
    requires Inv(s) && e.Slept? && Step(s, e, s')
    ensures Inv(s')
  {
    HoldersUnchanged(s, s');
  }

  /** The workers after `w` has let go and at most one sleeper was woken. */
  ghost predicate LetGo(ws: map<Worker, WorkerState>, w: Worker, ws': map<Worker, WorkerState>) {
    && w in ws && ws'.Keys == ws.Keys && !ws'[w].Holding?
    && forall v :: v in ws && v != w ==> ws'[v] == ws[v] || (!ws[v].Holding? && !ws'[v].Holding?)
  }

  lemma SignalledLetsGo(ws: map<Worker, WorkerState>, w: Worker, signal: bool, ws': map<Worker, WorkerState>)
    requires w in ws && SignalledIf(signal, ws[w := Running], ws')
    ensures LetGo(ws, w, ws')
  {
    SignalEffect(signal, ws[w := Running], ws');
  }

  lemma ReleasedHolders(s: System, w: Worker, repo: Repo, s': System)
    requires HoldersMatch(s) && w in s.workers && s.workers[w] == Holding(repo)
    requires Pending(s'.core) == Pending(s.core) - {repo} && LetGo(s.workers, w, s'.workers)
    ensures HoldersMatch(s')
  {
    forall v | v in s'.workers && s'.workers[v].Holding?
      ensures s'.workers[v].repo in Pending(s'.core)
    {
      assert s.workers[v] != s.workers[w];
    }
    forall r | r in Pending(s'.core)
      ensures exists v :: v in s'.workers && s'.workers[v] == Holding(r)
    {
      var v :| v in s.workers && s.workers[v] == Holding(r);
      assert s'.workers[v] == Holding(r);
    }
  }

  lemma ReleasedInv(s: System, e: Event, s': System)
    requires Inv(s) && e.Released? && Step(s, e, s')
    ensures Inv(s')
  {
    ReleaseKeeps(s.core, e.repo);
    SignalledLetsGo(s.workers, e.worker, ReleaseSignals(s.core, e.repo), s'.workers);
    ReleasedHolders(s, e.worker, e.repo, s');
    ReleasedWakes(s, e, s');
  }

  lemma ReleasedWakes(s: System, e: Event, s': System)
    requires NoLostWakeup(s) && Consistent(s.core) && e.Released? && Step(s, e, s')
    ensures NoLostWakeup(s')
  {
    ReleaseGrowsReady(s.core, e.repo);
    SignalEffect(ReleaseSignals(s.core, e.repo), s.workers[e.worker := Running], s'.workers);
    StopsHolding(s.workers, e.worker);
  }

  lemma ReleaseGrowsReady(c: Core, repo: Repo)
    requires Consistent(c) && CanRelease(c, repo)
    ensures Release(c, repo).locked == c.locked
    ensures |Ready(Release(c, repo))| <= |Ready(c)| + if ReleaseSignals(c, repo) || c.locked then 1 else 0
  {
    ReleaseKeeps(c, repo);
  }

  lemma LockStepInv(s: System, e: Event, s': System)
    requires Inv(s) && (e.LockBegun? || e.LockResumed? || e.Unlocked?) && Step(s, e, s')
    ensures Inv(s')
  {
    LockKeeps(s.core, s'.core.locked);
    assert s'.core == s.core.(locked := s'.core.locked);
    HoldersUnchanged(s, s');
    if e.Unlocked? && AsleepOf(s'.workers) != {} {
      assert !SomeReady(s'.core);
      assert Ready(s'.core) == {};
    }
  }

  /** Every step keeps the invariant. */
  lemma StepInv(s: System, e: Event, s': System)
    requires Inv(s) && Step(s, e, s')
    ensures Inv(s')
  {
    match e
    case Added(_, _) => AddedInv(s, e, s');
    case Taken(_, _) => TakenInv(s, e, s');
    case Slept(_) => SleptInv(s, e, s');
    case Released(_, _) => ReleasedInv(s, e, s');
    case _ => LockStepInv(s, e, s');
  }

  lemma {:induction false} RunInv(states: seq<System>, events: seq<Event>, n: nat)
    requires IsRun(states, events) && Inv(states[0]) && n <= |events|
    ensures Inv(states[n])
  {
    if n == 0 {
    } else {
      RunInv(states, events, n - 1);
      StepInv(states[n - 1], events[n - 1], states[n]);
    }
  }

  lemma ReachableInv(s: System)
    requires Reachable(s)
    ensures Inv(s)
  {
    var states, events :| IsRun(states, events) && Initial(states[0]) && states[|events|] == s;
    InitialInv(states[0]);
    RunInv(states, events, |events|);
  }

  // ----- What every reachable state satisfies -----

  /** "Ready work and everyone asleep" cannot happen, and a holder's `Release` never panics. */
  lemma ReachableSafe(s: System)
    requires Reachable(s)
    ensures !s.core.locked && AsleepOf(s.workers) != {} ==> |WokenOf(s.workers)| >= |Ready(s.core)|
    ensures !s.core.locked && Ready(s.core) != {} && AsleepOf(s.workers) != {} ==> WokenOf(s.workers) != {}
    ensures forall w :: w in s.workers && s.workers[w].Holding? ==> CanRelease(s.core, s.workers[w].repo)
    ensures forall v, w :: v in s.workers && w in s.workers && v != w && s.workers[v].Holding? ==>
              s.workers[v] != s.workers[w]
  {
    ReachableInv(s);
    if !s.core.locked && Ready(s.core) != {} && AsleepOf(s.workers) != {} {
      assert |WokenOf(s.workers)| > 0;
    }
  }

  /** No worker is between `Take` and `Release` while a scan or a collection runs. */
  lemma PhaseExclusion(s: System)
    requires Reachable(s)
    ensures s.locker.Exclusive? ==> HoldingOf(s.workers) == {}
    ensures s.locker.LockAsleep? ==> HoldingOf(s.workers) != {}
    ensures !s.locker.Idle? ==> !SomeReady(s.core)
  {
    ReachableInv(s);
    if s.locker.LockAsleep? {
      var r :| r in Pending(s.core);
      var w :| w in s.workers && s.workers[w] == Holding(r);
      assert w in HoldingOf(s.workers);
    }
    if s.locker.Exclusive? {
      assert Pending(s.core) == {};
      assert forall w :: w in s.workers ==> !s.workers[w].Holding?;
    }
  }

  // ----- Progress -----

  /** Bounds the steps the system can still take by itself. */
  function Measure(s: System): nat {
    3 * (|Wanted(s.core)| + |HoldingOf(s.workers)|) + |RunningOf(s.workers)| + |WokenOf(s.workers)|
    + (if s.locker.LockWoken? then 1 else 0)
  }

  lemma TakenDecreases(s: System, e: Event, s': System)
    requires Inv(s) && e.Taken? && Step(s, e, s')
    ensures Measure(s') < Measure(s)
  {
    TakeKeeps(s.core, e.repo);
    assert |Wanted(s'.core)| == |Wanted(s.core)| - 1;
    LeavesRunning(s.workers, e.worker, Holding(e.repo));
  }

  /** A worker that could run and now cannot leaves one of the two sets. */
  lemma LeavesRunning(ws: map<Worker, WorkerState>, w: Worker, st: WorkerState)
    requires w in ws && (ws[w].Running? || ws[w].Woken?) && (st.Asleep? || st.Holding?)
    ensures var ws' := ws[w := st];
            && |RunningOf(ws')| + |WokenOf(ws')| == |RunningOf(ws)| + |WokenOf(ws)| - 1
            && |HoldingOf(ws')| == |HoldingOf(ws)| + if st.Holding? then 1 else 0
  {
    MayHold(ws, w, st);
    var ws' := ws[w := st];
    assert RunningOf(ws') == RunningOf(ws) - {w};
    assert WokenOf(ws') == WokenOf(ws) - {w};
  }

  lemma MayHold(ws: map<Worker, WorkerState>, w: Worker, st: WorkerState)
    requires w in ws && !ws[w].Holding?
    ensures |HoldingOf(ws[w := st])| == |HoldingOf(ws)| + if st.Holding? then 1 else 0
  {
    assert HoldingOf(ws[w := st]) == if st.Holding? then HoldingOf(ws) + {w} else HoldingOf(ws);
  }

  lemma SleptDecreases(s: System, e: Event, s': System)
    requires Inv(s) && e.Slept? && Step(s, e, s')
    ensures Measure(s') < Measure(s)
  {
    LeavesRunning(s.workers, e.worker, Asleep);
  }

  lemma ReleasedDecreases(s: System, e: Event, s': System)
    requires Inv(s) && e.Released? && Step(s, e, s')
    ensures Measure(s') < Measure(s)
  {
    ReleaseKeeps(s.core, e.repo);
    var mid := s.workers[e.worker := Running];
    SignalEffect(ReleaseSignals(s.core, e.repo), mid, s'.workers);
    StopsHolding(s.workers, e.worker);
    assert Wanted(s'.core) == Wanted(s.core);
    assert s'.locker.LockWoken? && !s.locker.LockWoken? ==> s.core.locked;
  }

  lemma StopsHolding(ws: map<Worker, WorkerState>, w: Worker)
    requires w in ws && ws[w].Holding?
    ensures var ws' := ws[w := Running];
            && |HoldingOf(ws')| == |HoldingOf(ws)| - 1
            && |RunningOf(ws')| == |RunningOf(ws)| + 1
            && |WokenOf(ws')| == |WokenOf(ws)|
            && AsleepOf(ws') == AsleepOf(ws)
  {
    var ws' := ws[w := Running];
    assert HoldingOf(ws') == HoldingOf(ws) - {w};
    assert RunningOf(ws') == RunningOf(ws) + {w};
    assert WokenOf(ws') == WokenOf(ws);
  }

  lemma InternalDecreases(s: System, e: Event, s': System)
    requires Inv(s) && Internal(e) && Step(s, e, s')
    ensures Measure(s') < Measure(s)
  {
    match e
    case Taken(_, _) => TakenDecreases(s, e, s');
    case Slept(_) => SleptDecreases(s, e, s');
    case Released(_, _) => ReleasedDecreases(s, e, s');
    case LockResumed =>
  }

  /** Left to itself the system stops, after at most `Measure` steps. */
  lemma {:induction false} InternalRunsEnd(states: seq<System>, events: seq<Event>)
    requires IsRun(states, events) && Inv(states[0])
    requires forall i :: 0 <= i < |events| ==> Internal(events[i])
    ensures |events| + Measure(states[|events|]) <= Measure(states[0])
  {
    if |events| == 0 {
    } else {
      var n := |events| - 1;
      assert IsRun(states[..n + 1], events[..n]);
      InternalRunsEnd(states[..n + 1], events[..n]);
      RunInv(states, events, n);
      InternalDecreases(states[n], events[n], states[n + 1]);
    }
  }

  ghost predicate Stuck(s: System) {
    forall e, s' :: Internal(e) ==> !Step(s, e, s')
  }

  lemma StuckWorkersSleep(s: System)
    requires Inv(s) && Stuck(s)
    ensures forall w :: w in s.workers ==> s.workers[w].Asleep?
    ensures !s.locker.LockWoken?
  {
    forall w | w in s.workers
      ensures s.workers[w].Asleep?
    {
      if CanRun(s, w) {
        RunEnabled(s, w);
      } else if s.workers[w].Holding? {
        ReleaseEnabled(s, w);
      }
    }
    if s.locker.LockWoken? {
      ResumeEnabled(s);
    }
  }

  /** A worker in `Take` that is not asleep can take something or fall asleep. */
  lemma RunEnabled(s: System, w: Worker)
    requires CanRun(s, w)
    ensures exists e, s' :: Internal(e) && Step(s, e, s')
  {
    if SomeReady(s.core) {
      var repo :| repo in Choices(s.core);
      var s' := s.(core := Take(s.core, repo), workers := s.workers[w := Holding(repo)]);
      assert Step(s, Taken(w, repo), s');
    } else {
      assert Step(s, Slept(w), s.(workers := s.workers[w := Asleep]));
    }
  }

  lemma ResumeEnabled(s: System)
    requires s.locker.LockWoken?
    ensures exists s' :: Step(s, LockResumed, s')
  {
    assert Step(s, LockResumed, s.(locker := LockTest(s.core)));
  }

  lemma ReleaseEnabled(s: System, w: Worker)
    requires Inv(s) && w in s.workers && s.workers[w].Holding?
    ensures exists s' :: Step(s, Released(w, s.workers[w].repo), s')
  {
    var repo := s.workers[w].repo;
    var mid := s.workers[w := Running];
    var ws' := mid;
    if ReleaseSignals(s.core, repo) && AsleepOf(mid) != {} {
      var v :| v in AsleepOf(mid);
      ws' := mid[v := Woken];
    }
    assert SignalledIf(ReleaseSignals(s.core, repo), mid, ws');
    var s' := System(Release(s.core, repo), ws', if s.locker.LockAsleep? then LockWoken else s.locker);
    assert Step(s, Released(w, repo), s');
  }

  /**
   Where the system stops: unlocked, with nothing left to fetch and no entry
   kept; or locked, with the locker granted its exclusive phase.
   */
  lemma StuckIsDone(s: System)
    requires Inv(s) && Stuck(s) && s.workers != map[]
    ensures s.locker.Idle? || s.locker.Exclusive?
    ensures s.locker.Idle? ==> s.core == EMPTY
    ensures HoldingOf(s.workers) == {}
  {
    StuckWorkersSleep(s);
    assert HoldingOf(s.workers) == {} && WokenOf(s.workers) == {};
    assert forall r :: r !in Pending(s.core);
    if s.locker.Idle? {
      var w :| w in s.workers;
      assert w in AsleepOf(s.workers);
      assert |Ready(s.core)| <= 0 && Ready(s.core) == {};
      forall r
        ensures r !in s.core.repos
      {
        assert Indexed(s.core, r) && r !in Ready(s.core) && r !in Pending(s.core);
      }
      assert s.core.repos == map[] && s.core.low == {} && s.core.high == {};
    }
  }
}
