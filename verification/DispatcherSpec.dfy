/**
 What the dispatcher is for, without its maps, flags, counters and conditions:
 a set of wanted repositories with a priority each, and who holds which.
 Every run of the system is a run of this specification.
 */
module DispatcherSpec {
  import opened DispatcherCore
  import opened DispatcherSystem

  datatype Gate = Open | Closing | Closed

  /** `wanted[r]` tells whether the request for `r` is urgent. */
  datatype Spec = Spec(wanted: map<Repo, bool>, held: map<Worker, Repo>, gate: Gate)

  predicate Free(a: Spec, r: Repo) {
    r in a.wanted && r !in a.held.Values
  }

  ghost predicate SpecStep(a: Spec, e: Event, a': Spec) {
    match e
    case Added(r, lowPriority) =>
      a' == a.(wanted := a.wanted[r := !lowPriority || (r in a.wanted && a.wanted[r])])
    case Taken(w, r) =>
      && a.gate.Open? && w !in a.held && Free(a, r)
      && (a.wanted[r] || forall q :: Free(a, q) ==> !a.wanted[q])
      && a' == a.(wanted := a.wanted - {r}, held := a.held[w := r])
    case Slept(w) =>
      && w !in a.held && a' == a
      && (a.gate.Open? ==> forall q :: !Free(a, q))
    case Released(w, r) =>
      && w in a.held && a.held[w] == r
      && a' == a.(held := a.held - {w})
    case LockBegun =>
      a.gate.Open? && a' == a.(gate := if a.held == map[] then Closed else Closing)
    case LockResumed =>
      a.gate.Closing? && a' == a.(gate := if a.held == map[] then Closed else Closing)
    case Unlocked =>
      a.gate.Closed? && a' == a.(gate := Open)
  }

  function WantedMap(c: Core): map<Repo, bool> {
    map r | r in c.repos && c.repos[r].Wanted() :: c.repos[r].highPriority
  }

  function HeldMap(ws: map<Worker, WorkerState>): map<Worker, Repo> {
    map w | w in ws && ws[w].Holding? :: ws[w].repo
  }

  function GateOf(l: LockerState): Gate {
    match l
    case Idle => Open
    case Exclusive => Closed
    case _ => Closing
  }

  function Abs(s: System): Spec {
    Spec(WantedMap(s.core), HeldMap(s.workers), GateOf(s.locker))
  }

  // ----- Refinement -----

  /** Free in the specification is ready in the dispatcher. */
  lemma FreeIsReady(s: System, r: Repo)
    requires Inv(s)
    ensures Free(Abs(s), r) <==> r in Ready(s.core)
    ensures Free(Abs(s), r) ==> (Abs(s).wanted[r] <==> r in s.core.high)
  {
    var c := s.core;
    assert Indexed(c, r);
    if r in Pending(c) {
      var w :| w in s.workers && s.workers[w] == Holding(r);
      assert Abs(s).held[w] == r;
    } else {
      assert forall w :: w in Abs(s).held ==> Abs(s).held[w] in Pending(c);
    }
  }

  lemma HeldEmptyIffNotPending(s: System)
    requires Inv(s)
    ensures Abs(s).held == map[] <==> s.core.pendingCount <= 0
  {
    if s.core.pendingCount <= 0 {
      assert Pending(s.core) == {};
      assert Abs(s).held.Keys == {};
    } else {
      var r :| r in Pending(s.core);
      var w :| w in s.workers && s.workers[w] == Holding(r);
      assert w in Abs(s).held;
    }
  }

  lemma SignalKeepsHeld(signal: bool, ws: map<Worker, WorkerState>, ws': map<Worker, WorkerState>)
    requires SignalledIf(signal, ws, ws')
    ensures HeldMap(ws') == HeldMap(ws)
  {
    SignalEffect(signal, ws, ws');
  }

  lemma AddedRefines(s: System, e: Event, s': System)
    requires Inv(s) && e.Added? && Step(s, e, s')
    ensures SpecStep(Abs(s), e, Abs(s'))
  {
    SignalKeepsHeld(AddSignals(s.core, e.repo), s.workers, s'.workers);
    assert Indexed(s.core, e.repo);
    AddWants(s.core, e.repo, e.lowPriority);
  }

  lemma AddWants(c: Core, r: Repo, lowPriority: bool)
    requires Indexed(c, r)
    ensures var wanted := WantedMap(c);
            WantedMap(Add(c, r, lowPriority)) == wanted[r := !lowPriority || (r in wanted && wanted[r])]
  {
  }

  lemma TakenRefines(s: System, e: Event, s': System)
    requires Inv(s) && e.Taken? && Step(s, e, s')
    ensures SpecStep(Abs(s), e, Abs(s'))
  {
    ChoiceIsRight(s, e.repo);
    TakeUnwants(s.core, e.repo);
    assert HeldMap(s'.workers) == HeldMap(s.workers)[e.worker := e.repo];
  }

  /** What can be taken is free, and urgent if anything free is. */
  lemma ChoiceIsRight(s: System, r: Repo)
    requires Inv(s) && r in Choices(s.core)
    ensures Free(Abs(s), r)
    ensures Abs(s).wanted[r] || forall q :: Free(Abs(s), q) ==> !Abs(s).wanted[q]
  {
    FreeIsReady(s, r);
    if !Abs(s).wanted[r] {
      forall q | Free(Abs(s), q)
        ensures !Abs(s).wanted[q]
      {
        FreeIsReady(s, q);
      }
    }
  }

  lemma TakeUnwants(c: Core, r: Repo)
    ensures WantedMap(Take(c, r)) == WantedMap(c) - {r}
  {
  }

  lemma SleptRefines(s: System, e: Event, s': System)
    requires Inv(s) && e.Slept? && Step(s, e, s')
    ensures SpecStep(Abs(s), e, Abs(s'))
  {
    assert HeldMap(s'.workers) == HeldMap(s.workers);
    if s.locker.Idle? {
      forall q
        ensures !Free(Abs(s), q)
      {
        FreeIsReady(s, q);
      }
    }
  }

  lemma ReleasedRefines(s: System, e: Event, s': System)
    requires Inv(s) && e.Released? && Step(s, e, s')
    ensures SpecStep(Abs(s), e, Abs(s'))
  {
    ReleaseDropsHeld(s.workers, e.worker, ReleaseSignals(s.core, e.repo), s'.workers);
    ReleaseKeepsWanted(s.core, e.repo);
  }

  lemma ReleaseDropsHeld(ws: map<Worker, WorkerState>, w: Worker, signal: bool, ws': map<Worker, WorkerState>)
    requires w in ws && ws[w].Holding? && SignalledIf(signal, ws[w := Running], ws')
    ensures HeldMap(ws') == HeldMap(ws) - {w}
  {
    SignalKeepsHeld(signal, ws[w := Running], ws');
    assert HeldMap(ws[w := Running]) == HeldMap(ws) - {w};
  }

  lemma ReleaseKeepsWanted(c: Core, r: Repo)
    requires CanRelease(c, r)
    ensures WantedMap(Release(c, r)) == WantedMap(c)
  {
  }

  lemma LockStepRefines(s: System, e: Event, s': System)
    requires Inv(s) && (e.LockBegun? || e.LockResumed? || e.Unlocked?) && Step(s, e, s')
    ensures SpecStep(Abs(s), e, Abs(s'))
  {
    HeldEmptyIffNotPending(s);
    assert HeldMap(s'.workers) == HeldMap(s.workers);
    assert WantedMap(s'.core) == WantedMap(s.core);
  }

  /** Each step of the dispatcher is the step of the same name in the specification. */
  lemma StepRefines(s: System, e: Event, s': System)
    requires Inv(s) && Step(s, e, s')
    ensures SpecStep(Abs(s), e, Abs(s'))
  {
    match e
    case Added(_, _) => AddedRefines(s, e, s');
    case Taken(_, _) => TakenRefines(s, e, s');
    case Slept(_) => SleptRefines(s, e, s');
    case Released(_, _) => ReleasedRefines(s, e, s');
    case _ => LockStepRefines(s, e, s');
  }

  ghost predicate IsSpecRun(specs: seq<Spec>, events: seq<Event>) {
    && |specs| == |events| + 1
    && forall i :: 0 <= i < |events| ==> SpecStep(specs[i], events[i], specs[i + 1])
  }

  function AbsAll(states: seq<System>): seq<Spec> {
    seq(|states|, i requires 0 <= i < |states| => Abs(states[i]))
  }

  lemma StepRefinesAt(states: seq<System>, events: seq<Event>, i: nat)
    requires IsRun(states, events) && Inv(states[0]) && i < |events|
    ensures SpecStep(AbsAll(states)[i], events[i], AbsAll(states)[i + 1])
  {
    RunInv(states, events, i);
    StepRefines(states[i], events[i], states[i + 1]);
  }

  /** Every run of the dispatcher is a run of the specification with the same events. */
  lemma RunRefines(states: seq<System>, events: seq<Event>)
    requires IsRun(states, events) && Inv(states[0])
    ensures IsSpecRun(AbsAll(states), events)
  {
    forall i | 0 <= i < |events|
      ensures SpecStep(AbsAll(states)[i], events[i], AbsAll(states)[i + 1])
    {
      StepRefinesAt(states, events, i);
    }
  }

  // ----- Properties of runs -----

  predicate Takes(e: Event, r: Repo) {
    e.Taken? && e.repo == r
  }

  predicate Adds(e: Event, r: Repo) {
    e.Added? && e.repo == r
  }

  /** What is wanted stays wanted until it is taken. */
  lemma {:induction false} WantedUntilTaken(specs: seq<Spec>, events: seq<Event>, r: Repo, i: nat, j: nat)
    requires IsSpecRun(specs, events) && i <= j <= |events| && r in specs[i].wanted
    requires forall k :: i <= k < j ==> !Takes(events[k], r)
    ensures r in specs[j].wanted
    decreases j
  {
    if i == j {
    } else {
      WantedUntilTaken(specs, events, r, i, j - 1);
      assert SpecStep(specs[j - 1], events[j - 1], specs[j]);
    }
  }

  function Count(p: Event -> bool, events: seq<Event>): nat {
    if events == [] then 0
    else Count(p, events[..|events| - 1]) + if p(events[|events| - 1]) then 1 else 0
  }

  /** Repeated requests coalesce: a repository is taken at most once for each time it was asked for. */
  lemma {:induction false} TakesNeverExceedAdds(specs: seq<Spec>, events: seq<Event>, r: Repo)
    requires IsSpecRun(specs, events) && specs[0].wanted == map[]
    ensures Count(e => Takes(e, r), events) + (if r in specs[|events|].wanted then 1 else 0)
            <= Count(e => Adds(e, r), events)
    decreases |events|
  {
    if events == [] {
    } else {
      var n := |events| - 1;
      assert IsSpecRun(specs[..n + 1], events[..n]);
      TakesNeverExceedAdds(specs[..n + 1], events[..n], r);
      assert SpecStep(specs[n], events[n], specs[n + 1]);
    }
  }

  ghost predicate HeldOnce(a: Spec) {
    forall v, w :: v in a.held && w in a.held && a.held[v] == a.held[w] ==> v == w
  }

  lemma {:induction false} AlwaysHeldOnce(specs: seq<Spec>, events: seq<Event>, n: nat)
    requires IsSpecRun(specs, events) && specs[0].held == map[] && n <= |events|
    ensures HeldOnce(specs[n])
  {
    if n == 0 {
    } else {
      AlwaysHeldOnce(specs, events, n - 1);
      assert SpecStep(specs[n - 1], events[n - 1], specs[n]);
    }
  }

  /** Holding ends only by the holder's own release. */
  lemma {:induction false} HeldUntilReleased(specs: seq<Spec>, events: seq<Event>, w: Worker, r: Repo, i: nat, j: nat)
    requires IsSpecRun(specs, events) && i <= j <= |events|
    requires w in specs[i].held && specs[i].held[w] == r
    requires forall k :: i <= k < j ==> events[k] != Released(w, r)
    ensures w in specs[j].held && specs[j].held[w] == r
    decreases j
  {
    if i == j {
    } else {
      HeldUntilReleased(specs, events, w, r, i, j - 1);
      assert SpecStep(specs[j - 1], events[j - 1], specs[j]);
    }
  }

  /** Between two takes of a repository it was released by its first taker and asked for again. */
  lemma TakenTwice(specs: seq<Spec>, events: seq<Event>, r: Repo, i: nat, j: nat)
    requires IsSpecRun(specs, events) && i < j < |events| && Takes(events[i], r) && Takes(events[j], r)
    ensures exists k :: i < k < j && events[k] == Released(events[i].worker, r)
    ensures exists k :: i < k < j && Adds(events[k], r)
  {
    assert SpecStep(specs[i], events[i], specs[i + 1]) && SpecStep(specs[j], events[j], specs[j + 1]);
    if forall k :: i < k < j ==> events[k] != Released(events[i].worker, r) {
      HeldUntilReleased(specs, events, events[i].worker, r, i + 1, j);
    }
    if forall k :: i < k < j ==> !Adds(events[k], r) {
      NotWantedUntilAdded(specs, events, r, i + 1, j);
    }
  }

  lemma {:induction false} NotWantedUntilAdded(specs: seq<Spec>, events: seq<Event>, r: Repo, i: nat, j: nat)
    requires IsSpecRun(specs, events) && i <= j <= |events| && r !in specs[i].wanted
    requires forall k :: i <= k < j ==> !Adds(events[k], r)
    ensures r !in specs[j].wanted
    decreases j
  {
    if i == j {
    } else {
      NotWantedUntilAdded(specs, events, r, i, j - 1);
      assert SpecStep(specs[j - 1], events[j - 1], specs[j]);
    }
  }

  /**
   Nothing asked for is forgotten: in a run of an unlocked dispatcher that is
   left to itself until it stops, every repository wanted at the start is taken.
   */
  lemma EverythingWantedIsTaken(states: seq<System>, events: seq<Event>, r: Repo)
    requires IsRun(states, events) && Reachable(states[0]) && states[0].locker.Idle? && states[0].workers != map[]
    requires forall i :: 0 <= i < |events| ==> Internal(events[i])
    requires Stuck(states[|events|])
    requires r in Wanted(states[0].core)
    ensures |events| <= Measure(states[0])
    ensures exists k :: 0 <= k < |events| && Takes(events[k], r)
  {
    ReachableInv(states[0]);
    InternalRunsEnd(states, events);
    var n := |events|;
    RunInv(states, events, n);
    InternalKeepsWorkers(states, events, n);
    StuckIsDone(states[n]);
    RunRefines(states, events);
    var specs := AbsAll(states);
    if forall k :: 0 <= k < n ==> !Takes(events[k], r) {
      WantedUntilTaken(specs, events, r, 0, n);
    }
  }

  lemma {:induction false} InternalKeepsWorkers(states: seq<System>, events: seq<Event>, n: nat)
    requires IsRun(states, events) && n <= |events|
    requires forall i :: 0 <= i < |events| ==> Internal(events[i])
    ensures states[n].locker.Idle? <==> states[0].locker.Idle?
    ensures states[n].workers.Keys == states[0].workers.Keys
  {
    if n == 0 {
    } else {
      InternalKeepsWorkers(states, events, n - 1);
      var s, e, s' := states[n - 1], events[n - 1], states[n];
      assert Step(s, e, s');
      if e.Released? {
        SignalEffect(ReleaseSignals(s.core, e.repo), s.workers[e.worker := Running], s'.workers);
      }
    }
  }

  /** A lock that has been asked for is granted once the system has run by itself to a stop. */
  lemma LockIsGranted(states: seq<System>, events: seq<Event>)
    requires IsRun(states, events) && Reachable(states[0]) && !states[0].locker.Idle? && states[0].workers != map[]
    requires forall i :: 0 <= i < |events| ==> Internal(events[i])
    requires Stuck(states[|events|])
    ensures |events| <= Measure(states[0])
    ensures states[|events|].locker.Exclusive? && HoldingOf(states[|events|].workers) == {}
  {
    ReachableInv(states[0]);
    InternalRunsEnd(states, events);
    RunInv(states, events, |events|);
    InternalKeepsWorkers(states, events, |events|);
    StuckIsDone(states[|events|]);
  }

  /** From the start of the program: no request is lost, and requests coalesce. */
  lemma RequestsInEveryRun(states: seq<System>, events: seq<Event>, r: Repo, i: nat, j: nat)
    requires IsRun(states, events) && Initial(states[0]) && i < j <= |events|
    requires Adds(events[i], r) && forall k :: i < k < j ==> !Takes(events[k], r)
    ensures r in Wanted(states[j].core)
    ensures Count(e => Takes(e, r), events) <= Count(e => Adds(e, r), events)
  {
    InitialInv(states[0]);
    RunRefines(states, events);
    var specs := AbsAll(states);
    assert specs[0] == Abs(states[0]) && specs[0].wanted == map[];
    TakesNeverExceedAdds(specs, events, r);
    assert SpecStep(specs[i], events[i], specs[i + 1]);
    WantedUntilTaken(specs, events, r, i + 1, j);
    assert specs[j] == Abs(states[j]);
  }
}
