/**
 The broadcaster among its callers, as a transition system.

 `Change` holds the mutex from `ChangeBegun` to `ChangeEnded` and offers its
 change to one channel at a time; in between, waiters may enter their receive
 or time out, since neither takes the mutex.  The steps that do take it
 (registering and removing a waiter, the next change) wait for the end.
 */
module BroadcasterSystem {
  import opened Options
  import opened Broadcaster

  type Channel = nat

  /** `Registered`: on the list, not yet in the receive. */
  datatype Phase = Registered | Receiving | Served(change: Change, number: nat) | TimedOut

  /** A wait that has registered and not returned; `began` counts the changes made before it did. */
  datatype Wait = Wait(since: Change, timed: bool, began: nat, phase: Phase)

  /**
   `count` is the number of changes so far, which the program does not know.
   `offering` is the loop index of the change in progress.
   */
  datatype System = System(
    serial: Serial,
    waiters: seq<Channel>,
    waits: map<Channel, Wait>,
    offering: Option<nat>,
    count: nat)

  datatype Event =
    | ChangeBegun
    | Offered
    | ChangeEnded(change: Change)
    | Answered(since: Change, answer: Option<Change>)
    | WaitBegun(ch: Channel, since: Change, timed: bool)
    | ReceiveEntered(ch: Channel)
    | TimerFired(ch: Channel)
    | Returned(ch: Channel, answer: Option<Change>)

  const INITIAL := System(0, [], map[], None, 0)

  function InPhase(s: System, ch: Channel, phase: Phase): System
    requires ch in s.waits
  {
    s.(waits := s.waits[ch := s.waits[ch].(phase := phase)])
  }

  /** The non-blocking send on one channel. */
  function Offer(s: System, ch: Channel): System {
    if ch in s.waits && s.waits[ch].phase == Receiving then InPhase(s, ch, Served(Numbered(s.serial), s.count)) else s
  }

  ghost predicate Step(s: System, e: Event, s': System) {
    match e
    case ChangeBegun =>
      && s.offering.None?
      && s' == s.(serial := (s.serial + 1) % LIMIT, count := s.count + 1, offering := Some(0))
    case Offered =>
      && s.offering.Some? && s.offering.value < |s.waiters|
      && s' == Offer(s, s.waiters[s.offering.value]).(offering := Some(s.offering.value + 1))
    case ChangeEnded(change) =>
      && s.offering == Some(|s.waiters|) && change == Numbered(s.serial)
      && s' == s.(offering := None)
    case Answered(since, answer) =>
      // a timeout that is not positive answers at once as well
      && s.offering.None?
      && answer == (if Newer(s.serial, since) then Some(Numbered(s.serial)) else None)
      && s' == s
    case WaitBegun(ch, since, timed) =>
      && s.offering.None? && !Newer(s.serial, since) && ch !in s.waits
      && s' == s.(waiters := s.waiters + [ch], waits := s.waits[ch := Wait(since, timed, s.count, Registered)])
    case ReceiveEntered(ch) =>
      && ch in s.waits && s.waits[ch].phase == Registered
      && s' == InPhase(s, ch, Receiving)
    case TimerFired(ch) =>
      && ch in s.waits && s.waits[ch].phase == Receiving && s.waits[ch].timed
      && s' == InPhase(s, ch, TimedOut)
    case Returned(ch, answer) =>
      && s.offering.None? && ch in s.waits
      && answer == (match s.waits[ch].phase case Served(change, _) => Some(change) case _ => None)
      && (s.waits[ch].phase.Served? || s.waits[ch].phase.TimedOut?)
      && s' == s.(waiters := Removed(s.waiters, ch), waits := s.waits - {ch})
  }

  ghost predicate IsRun(states: seq<System>, events: seq<Event>) {
    && |states| == |events| + 1
    && states[0] == INITIAL
    && forall i :: 0 <= i < |events| ==> Step(states[i], events[i], states[i + 1])
  }

  // ----- The invariant -----

  /** The list holds every registered unfinished wait once and nothing else. */
  ghost predicate ListExact(s: System) {
    Distinct(s.waiters) && forall ch :: ch in s.waiters <==> ch in s.waits
  }

  /** What a wait was served with is a change made after it began. */
  ghost predicate ServedLater(s: System, w: Wait) {
    && w.began <= s.count
    && (w.phase.Served? ==> w.began < w.phase.number <= s.count && w.phase.change == Nth(w.phase.number))
    && (w.phase.TimedOut? ==> w.timed)
  }

  ghost predicate Inv(s: System) {
    && ListExact(s)
    && s.serial == s.count % LIMIT
    && (s.offering.Some? ==> s.offering.value <= |s.waiters|)
    && (forall ch :: ch in s.waits ==> ServedLater(s, s.waits[ch]))
    && (s.offering.Some? ==> forall ch :: ch in s.waits ==> s.waits[ch].began < s.count)
  }

  /** A step that only moves one wait to another phase. */
  lemma InPhaseInv(s: System, ch: Channel, phase: Phase)
    requires Inv(s) && ch in s.waits && ServedLater(s, s.waits[ch].(phase := phase))
    ensures Inv(InPhase(s, ch, phase))
  {
  }

  lemma OfferedInv(s: System, e: Event, s': System)
    requires Inv(s) && e.Offered? && Step(s, e, s')
    ensures Inv(s')
  {
    var ch := s.waiters[s.offering.value];
    if s.waits[ch].phase == Receiving {
      InPhaseInv(s, ch, Served(Numbered(s.serial), s.count));
    }
  }

  lemma WaitBegunInv(s: System, e: Event, s': System)
    requires Inv(s) && e.WaitBegun? && Step(s, e, s')
    ensures Inv(s')
  {
    assert forall ch :: ch in s'.waits ==> ch == e.ch || s'.waits[ch] == s.waits[ch];
  }

  lemma ReturnedInv(s: System, e: Event, s': System)
    requires Inv(s) && e.Returned? && Step(s, e, s')
    ensures Inv(s')
  {
    RemovedExact(s.waiters, e.ch);
    assert forall ch :: ch in s'.waits ==> s'.waits[ch] == s.waits[ch];
  }

  lemma StepInv(s: System, e: Event, s': System)
    requires Inv(s) && Step(s, e, s')
    ensures Inv(s')
  {
    match e
    case ChangeBegun => assert forall ch :: ch in s.waits ==> ServedLater(s', s.waits[ch]);
    case Offered => OfferedInv(s, e, s');
    case ChangeEnded(_) =>
    case Answered(_, _) =>
    case WaitBegun(_, _, _) => WaitBegunInv(s, e, s');
    case ReceiveEntered(ch) => InPhaseInv(s, ch, Receiving);
    case TimerFired(ch) => InPhaseInv(s, ch, TimedOut);
    case Returned(_, _) => ReturnedInv(s, e, s');
  }

  lemma {:induction false} RunInv(states: seq<System>, events: seq<Event>, i: nat)
    requires IsRun(states, events) && i <= |events|
    ensures Inv(states[i])
  {
    if i == 0 {
    } else {
      RunInv(states, events, i - 1);
      StepInv(states[i - 1], events[i - 1], states[i]);
    }
  }

  /** In every run, the waiter list is the duplicate-free set of registered unfinished waits. */
  lemma WaitersExact(states: seq<System>, events: seq<Event>, i: nat)
    requires IsRun(states, events) && i <= |events|
    ensures ListExact(states[i])
  {
    RunInv(states, events, i);
  }

  // ----- Freshness -----

  /** `Returned(ch, _)` at `j` ends the wait that began at `i`. */
  ghost predicate EndsWait(events: seq<Event>, i: nat, j: nat) {
    && i < j < |events| && events[i].WaitBegun? && events[j].Returned? && events[j].ch == events[i].ch
    && forall k :: i < k < j && events[k].Returned? ==> events[k].ch != events[i].ch
  }

  lemma {:induction false} WaitRemembers(states: seq<System>, events: seq<Event>, i: nat, j: nat)
    requires IsRun(states, events) && i < j <= |events| && events[i].WaitBegun?
    requires forall k :: i < k < j && events[k].Returned? ==> events[k].ch != events[i].ch
    ensures events[i].ch in states[j].waits
    ensures states[j].waits[events[i].ch].since == events[i].since
    ensures states[j].waits[events[i].ch].timed == events[i].timed
    ensures states[j].waits[events[i].ch].began == states[i].count
  {
    assert Step(states[j - 1], events[j - 1], states[j]);
    if i + 1 == j {
    } else {
      WaitRemembers(states, events, i, j - 1);
    }
  }

  /**
   A wait that blocked and succeeded, on the `n`th change of this broadcaster,
   returns a change made after the call; a wait without a timeout never fails.
   While the counter has not overflowed, the serial is strictly greater.
   */
  lemma WaitIsFresh(states: seq<System>, events: seq<Event>, i: nat, j: nat, n: nat) returns (number: nat)
    requires IsRun(states, events) && EndsWait(events, i, j)
    requires n <= states[i].count && events[i].since == Nth(n)
    ensures events[j].answer.None? ==> events[i].timed
    ensures events[j].answer.Some? ==>
              && n <= states[i].count < number <= states[j].count
              && events[j].answer.value == Nth(number)
    ensures events[j].answer.Some? && number < n + LIMIT ==>
              (Newer(events[j].answer.value.serial, events[i].since) <==> n / LIMIT == number / LIMIT)
    ensures events[j].answer.Some? && states[j].count < LIMIT ==> Newer(events[j].answer.value.serial, events[i].since)
  {
    number := 0;
    WaitRemembers(states, events, i, j);
    RunInv(states, events, j);
    var w := states[j].waits[events[i].ch];
    assert Step(states[j], events[j], states[j + 1]);
    assert ServedLater(states[j], w);
    if w.phase.Served? {
      number := w.phase.number;
      if number < n + LIMIT {
        NewerIff(n, number);
      }
    }
  }

  /**
   An answer at once, on the `n`th change, is the latest change and later than
   the `n`th; none is given exactly when there is nothing later or the counter
   overflowed since.
   */
  lemma AnswerIsFresh(states: seq<System>, events: seq<Event>, i: nat, n: nat)
    requires IsRun(states, events) && i < |events| && events[i].Answered?
    requires n <= states[i].count && events[i].since == Nth(n)
    ensures events[i].answer.Some? ==> events[i].answer.value == Nth(states[i].count) && n < states[i].count
    ensures events[i].answer.Some? ==> Newer(events[i].answer.value.serial, events[i].since)
    ensures states[i].count < n + LIMIT ==>
              (events[i].answer.Some? <==> n < states[i].count && n / LIMIT == states[i].count / LIMIT)
  {
    RunInv(states, events, i);
    assert Step(states[i], events[i], states[i + 1]);
    if states[i].count < n + LIMIT {
      NewerIff(n, states[i].count);
    }
  }

  // ----- Every change serves those who wait for it -----

  /** The change that begins at `i` ends at `j`. */
  ghost predicate EndsChange(events: seq<Event>, i: nat, j: nat) {
    && i < j < |events| && events[i].ChangeBegun? && events[j].ChangeEnded?
    && forall k :: i < k < j ==> !events[k].ChangeEnded?
  }

  /** `w` was in its receive when the change began: the offer is still to come, or it has got it, or its timer fired. */
  ghost predicate Reached(s: System, ch: Channel) {
    && ch in s.waits
    && match s.waits[ch].phase
       case Registered => false
       case Receiving => exists k :: s.offering.Some? && s.offering.value <= k < |s.waiters| && s.waiters[k] == ch
       case Served(change, number) => change == Numbered(s.serial) && number == s.count
       case TimedOut => true
  }

  lemma {:induction false} ChangeReaches(states: seq<System>, events: seq<Event>, i: nat, j: nat, ch: Channel)
    requires IsRun(states, events) && i < j <= |events| && events[i].ChangeBegun?
    requires forall k :: i < k < j ==> !events[k].ChangeEnded?
    requires ch in states[i].waits && states[i].waits[ch].phase == Receiving
    ensures states[j].offering.Some? && states[j].count == states[i].count + 1
    ensures Reached(states[j], ch) && states[j].waits[ch].timed == states[i].waits[ch].timed
  {
    assert Step(states[j - 1], events[j - 1], states[j]);
    if i + 1 < j {
      ChangeReaches(states, events, i, j - 1, ch);
    } else {
      RunInv(states, events, i);
      var k :| 0 <= k < |states[i].waiters| && states[i].waiters[k] == ch;
      assert states[j].waiters[k] == ch;
    }
  }

  /**
   `Change` serves every wait that was blocked in its receive when it began,
   with the very change it returns; only a timer that fires first excuses one.
   */
  lemma ChangeServesBlocked(states: seq<System>, events: seq<Event>, i: nat, j: nat, ch: Channel)
    requires IsRun(states, events) && EndsChange(events, i, j)
    requires ch in states[i].waits && states[i].waits[ch].phase == Receiving
    ensures events[j].change == Nth(states[i].count + 1)
    ensures ch in states[j + 1].waits
    ensures states[j + 1].waits[ch].phase == Served(events[j].change, states[i].count + 1)
            || (states[j + 1].waits[ch].phase == TimedOut && states[i].waits[ch].timed)
  {
    ChangeReaches(states, events, i, j, ch);
    RunInv(states, events, j);
    RunInv(states, events, j + 1);
    assert Step(states[j], events[j], states[j + 1]);
    assert ServedLater(states[j + 1], states[j + 1].waits[ch]);
  }
}
