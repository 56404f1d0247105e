/** The editor server's parameter debouncer: callers note updates under a lock, a thread
    releases one rerun per quiet period, and a stop joins the thread. A run is any
    interleaving of their critical sections, wake-ups and the passing of time. */
module Debounce {
  const QUIET: nat := 200

  /** Where the thread is while it does not hold the lock. */
  datatype Place =
    | Entering                   // about to take the lock, at the start or after a rerun
    | Asleep                     // waiting for an update or a stop
    | Timed(until: nat)          // waiting for a deadline it copied
    | Deferring                  // released a rerun, about to queue it
    | Done

  /** The shared fields, the thread, the callers that still have to notify, and a history. */
  datatype State = State(
    now: nat,
    pending: bool, stop: bool, deadline: nat,
    place: Place, notified: bool,
    owed: nat,                   // callers between unlocking and notifying
    joining: bool, joined: bool, // a stop waits for the thread; a stop has returned
    updates: nat, latest: nat,   // how many updates there were, and when the last was
    served: nat,                 // how many of them the last release covers
    releases: nat, releasedAt: nat, queued: nat)

  datatype Action =
    | Tick
    | Update                     // a caller's critical section
    | Notify                     // a caller's notification
    | Stop                       // the stopper's critical section
    | Join                       // the stopper's join succeeds
    | Enter                      // the thread takes the lock
    | Wake                       // the thread is notified, or wakes for no reason
    | TimeOut                    // the thread's deadline passes
    | Queue(alive: bool)         // the rerun is queued if the event loop is still there

  ghost predicate Initial(s: State)
  {
    && !s.pending && !s.stop && s.place == Entering && !s.notified && s.owed == 0 && !s.joining && !s.joined
    && s.updates == 0 && s.served == 0 && s.releases == 0 && s.queued == 0
  }

  ghost predicate Enabled(s: State, a: Action)
  {
    match a
    case Tick => true
    case Update => true
    case Notify => s.owed > 0
    case Stop => !s.joining
    case Join => s.joining && s.place == Done
    case Enter => s.place == Entering
    case Wake => s.place == Asleep || s.place.Timed?
    case TimeOut => s.place.Timed? && s.now >= s.place.until
    case Queue(_) => s.place == Deferring
  }

  /** The thread at the head of its loops, with the lock: it ends, sleeps, or waits for the deadline. */
  ghost function AtLoopHead(s: State): State
  {
    if s.stop then s.(place := Done)
    else if !s.pending then s.(place := Asleep, notified := false)
    else s.(place := Timed(s.deadline), notified := false)
  }

  ghost function After(s: State, a: Action): State
  {
    match a
    case Tick => s.(now := s.now + 1)
    case Update =>
      s.(pending := true, deadline := s.now + QUIET, owed := s.owed + 1, updates := s.updates + 1, latest := s.now)
    case Notify =>
      // A notification that finds nobody waiting is lost.
      if s.owed == 0 then s
      else s.(owed := s.owed - 1, notified := s.notified || s.place == Asleep || s.place.Timed?)
    case Stop => s.(stop := true, pending := false, owed := s.owed + 1, joining := true)
    case Join => s.(joining := false, joined := true)
    case Enter => AtLoopHead(s)
    case Wake =>
      if s.place.Timed? && !s.stop && s.deadline == s.place.until then s.(notified := false)
      else AtLoopHead(s)
    case TimeOut =>
      if !s.place.Timed? then s
      else if s.stop || s.deadline != s.place.until then AtLoopHead(s)
      else s.(pending := false, place := Deferring, notified := false,
              releases := s.releases + 1, releasedAt := s.now, served := s.updates)
    case Queue(alive) => s.(place := Entering, queued := if alive then s.queued + 1 else s.queued)
  }

  ghost predicate Runs(s: State, actions: seq<Action>)
    decreases |actions|
  {
    actions == [] || (Enabled(s, actions[0]) && Runs(After(s, actions[0]), actions[1..]))
  }

  ghost function Final(s: State, actions: seq<Action>): State
    decreases |actions|
  {
    if actions == [] then s else Final(After(s, actions[0]), actions[1..])
  }

  /** A state some run reaches. */
  ghost predicate Reachable(s: State)
  {
    exists s0, actions :: Initial(s0) && Runs(s0, actions) && Final(s0, actions) == s
  }

  /** Whether a step hands out a rerun. */
  ghost predicate Releases(s: State, a: Action)
  {
    After(s, a).releases > s.releases
  }

  // ---------------------------------------------------------------- what every step keeps

  ghost predicate Times(s: State)
  {
    && (s.updates > 0 ==> s.latest <= s.now && s.deadline == s.latest + QUIET)
    && (s.place.Timed? ==> s.updates > 0 && s.place.until <= s.deadline)
    && (s.place.Timed? && !s.stop ==> s.pending)
    && (s.place.Deferring? ==> s.updates > 0 && s.releasedAt <= s.now)
    && (s.place.Deferring? && s.served == s.updates ==> s.latest + QUIET <= s.releasedAt)
    && (s.place.Deferring? && s.served < s.updates ==> s.releasedAt <= s.latest)
  }

  ghost predicate Counts(s: State)
  {
    && s.served <= s.updates
    && s.releases + (if s.pending && !s.stop then 1 else 0) <= s.updates
    && s.releases <= s.served
    && s.queued + (if s.place == Deferring then 1 else 0) <= s.releases
    && (!s.stop ==> (s.pending <==> s.served < s.updates))
  }

  ghost predicate Threads(s: State)
  {
    && (s.place == Asleep && (s.pending || s.stop) ==> s.notified || s.owed > 0)
    && (s.place == Done ==> s.stop)
    && (s.joining ==> s.stop) && (s.joined ==> s.stop && s.place == Done)
    && (s.stop ==> s.joining || s.joined)
  }

  ghost predicate Inv(s: State)
  {
    Times(s) && Counts(s) && Threads(s)
  }

  lemma StepKeepsInv(s: State, a: Action)
    requires Inv(s) && Enabled(s, a)
    ensures Inv(After(s, a))
  {
  }

  lemma {:induction false} RunKeepsInv(s: State, actions: seq<Action>)
    requires Inv(s) && Runs(s, actions)
    ensures Inv(Final(s, actions))
    decreases |actions|
  {
    if actions != [] {
      StepKeepsInv(s, actions[0]);
      RunKeepsInv(After(s, actions[0]), actions[1..]);
    }
  }

  lemma ReachableKeepsInv(s: State)
    requires Reachable(s)
    ensures Inv(s)
  {
    var s0, actions :| Initial(s0) && Runs(s0, actions) && Final(s0, actions) == s;
    RunKeepsInv(s0, actions);
  }

  // ---------------------------------------------------------------- safety

  /** A rerun is released only after a quiet period since the latest update. */
  lemma ReleaseIsQuiet(s: State, a: Action)
    requires Reachable(s) && Enabled(s, a) && Releases(s, a)
    ensures s.updates > 0 && s.now >= s.latest + 200 && s.pending && !s.stop
  {
    ReachableKeepsInv(s);
  }

  /** No update is lost: until a stop, a rerun is pending exactly when some update is not
      yet covered by a release, and only a release or a stop takes it away. */
  lemma UpdatesAreKept(s: State, a: Action)
    requires Reachable(s) && Enabled(s, a)
    ensures !s.stop ==> (s.pending <==> s.served < s.updates)
    ensures s.pending && !After(s, a).pending ==> Releases(s, a) || a == Stop
    ensures Releases(s, a) ==> After(s, a).served == s.updates
  {
    ReachableKeepsInv(s);
  }

  /** Reruns never outnumber updates, and queued ones never outnumber released ones. */
  lemma NoMoreReleasesThanUpdates(s: State)
    requires Reachable(s)
    ensures s.queued <= s.releases <= s.updates
  {
    ReachableKeepsInv(s);
  }

  lemma {:induction false} DoneStaysDone(s: State, actions: seq<Action>)
    requires s.place == Done && Runs(s, actions)
    ensures Final(s, actions).place == Done
    ensures Final(s, actions).queued == s.queued && Final(s, actions).releases == s.releases
    decreases |actions|
  {
    if actions != [] {
      DoneStaysDone(After(s, actions[0]), actions[1..]);
    }
  }

  /** Once a stop has returned, no run queues anything any more. */
  lemma NothingQueuedAfterStop(s: State, actions: seq<Action>)
    requires Reachable(s) && s.joined && Runs(s, actions)
    ensures Final(s, actions).queued == s.queued && Final(s, actions).releases == s.releases
  {
    ReachableKeepsInv(s);
    DoneStaysDone(s, actions);
  }

  // ---------------------------------------------------------------- no wake-up is lost

  /** A step of time, of a notification or of the thread; a wake-up before a deadline was
      prompted by a notification. */
  ghost predicate Own(s: State, a: Action)
  {
    Enabled(s, a) && !a.Update? && !a.Stop? && !a.Join? && (a == Wake ==> s.notified)
  }

  /** A run of such steps alone: no new update, no stop, no spurious wake-up. */
  ghost predicate Prompted(s: State, actions: seq<Action>)
    decreases |actions|
  {
    actions == [] || (Own(s, actions[0]) && Prompted(After(s, actions[0]), actions[1..]))
  }

  /** A sleeping thread with work to do has been notified, or somebody is about to notify it. */
  lemma SleeperIsWoken(s: State)
    requires Reachable(s) && s.place == Asleep && (s.pending || s.stop)
    ensures s.notified || Enabled(s, Notify)
  {
    ReachableKeepsInv(s);
  }

  /** Waiting for time to pass. */
  function Ticks(n: nat): (actions: seq<Action>)
  {
    if n == 0 then [] else [Tick] + Ticks(n - 1)
  }

  lemma {:induction false} TicksPass(s: State, n: nat)
    ensures Prompted(s, Ticks(n)) && Final(s, Ticks(n)) == s.(now := s.now + n)
    decreases n
  {
    if n > 0 {
      assert Ticks(n)[0] == Tick && Ticks(n)[1..] == Ticks(n - 1);
      TicksPass(After(s, Tick), n - 1);
    }
  }

  lemma {:induction false} PromptedRuns(s: State, a: seq<Action>)
    requires Prompted(s, a)
    ensures Runs(s, a)
    decreases |a|
  {
    if a != [] {
      PromptedRuns(After(s, a[0]), a[1..]);
    }
  }

  lemma {:induction false} GoesOn(s: State, a: seq<Action>, b: seq<Action>)
    ensures Runs(s, a) && Runs(Final(s, a), b) ==> Runs(s, a + b)
    ensures Prompted(s, a) && Prompted(Final(s, a), b) ==> Prompted(s, a + b)
    ensures Final(s, a + b) == Final(Final(s, a), b)
    decreases |a|
  {
    if a == [] {
      assert a + b == b;
    } else {
      assert (a + b)[0] == a[0] && (a + b)[1..] == a[1..] + b;
      GoesOn(After(s, a[0]), a[1..], b);
    }
  }

  lemma OneStep(s: State, a: Action)
    ensures Runs(s, [a]) <==> Enabled(s, a)
    ensures Own(s, a) ==> Prompted(s, [a])
    ensures Final(s, [a]) == After(s, a)
  {
    assert [a][1..] == [];
  }

  lemma TwoSteps(s: State, a: Action, b: Action)
    ensures Runs(s, [a]) && Runs(After(s, a), [b]) ==> Runs(s, [a, b])
    ensures Prompted(s, [a]) && Prompted(After(s, a), [b]) ==> Prompted(s, [a, b])
    ensures Final(s, [a, b]) == After(After(s, a), b)
  {
    OneStep(s, a);
    OneStep(After(s, a), b);
    GoesOn(s, [a], [b]);
    assert [a] + [b] == [a, b];
  }

  // ---------------------------------------------------------------- every run makes progress

  /** The steps of a run other than the passing of time. */
  ghost function Moves(actions: seq<Action>): (count: nat)
  {
    if actions == [] then 0 else (if actions[0] == Tick then 0 else 1) + Moves(actions[1..])
  }

  /** How far the thread is from releasing the pending update, or from ending after a stop. */
  ghost function Distance(s: State): (d: nat)
  {
    2 * s.owed + (if s.notified then 1 else 0) +
    match s.place
    case Deferring => 4
    case Entering => 3
    case Asleep => 3
    case Timed(until) => if until == s.deadline then 1 else 2
    case Done => 0
  }

  /** The thread still has something to do that it will do without further calls. */
  ghost predicate Busy(s: State)
  {
    (s.pending && !s.stop) || (s.stop && s.place != Done)
  }

  /** Each step of a busy thread brings it closer, unless it releases. */
  lemma MoveIsCloser(s: State, a: Action)
    requires Inv(s) && Own(s, a) && a != Tick && (Busy(s) || s.stop)
    ensures Releases(s, a) || Distance(After(s, a)) < Distance(s)
  {
  }

  lemma {:induction false} MovesAreBounded(s: State, actions: seq<Action>)
    requires Inv(s) && (Busy(s) || s.stop) && Prompted(s, actions) && Final(s, actions).releases == s.releases
    ensures Moves(actions) + Distance(Final(s, actions)) <= Distance(s)
    ensures Inv(Final(s, actions)) && Final(s, actions).stop == s.stop && (!s.stop ==> Final(s, actions).pending)
    decreases |actions|
  {
    if actions != [] {
      var t := After(s, actions[0]);
      StepKeepsInv(s, actions[0]);
      NeverFewerReleases(t, actions[1..]);
      if actions[0] != Tick {
        MoveIsCloser(s, actions[0]);
      }
      MovesAreBounded(t, actions[1..]);
    }
  }

  lemma {:induction false} NeverFewerReleases(s: State, actions: seq<Action>)
    ensures Final(s, actions).releases >= s.releases
    decreases |actions|
  {
    if actions != [] {
      StepKeepsReleases(s, actions[0]);
      NeverFewerReleases(After(s, actions[0]), actions[1..]);
    }
  }

  lemma StepKeepsReleases(s: State, a: Action)
    ensures After(s, a).releases >= s.releases
  {
  }

  /** A busy thread is never stuck: some step other than time is possible, unless the thread
      waits for a deadline that is still ahead. */
  lemma BusyIsNeverStuck(s: State)
    requires Reachable(s) && Busy(s)
    ensures (exists a :: a != Tick && Own(s, a)) || (s.place.Timed? && s.now < s.place.until <= s.deadline)
  {
    ReachableKeepsInv(s);
    match s.place
    case Entering => assert Own(s, Enter);
    case Asleep => assert Own(s, if s.notified then Wake else Notify);
    case Timed(until) =>
      if s.now >= until {
        assert Own(s, TimeOut);
      }
    case Deferring => assert Own(s, Queue(true));
  }

  /** Nothing happens any more by itself: no step but time is possible, and no deadline is ahead. */
  ghost predicate AtRest(s: State)
  {
    (forall a :: Own(s, a) ==> a == Tick) && !(s.place.Timed? && s.now < s.place.until)
  }

  lemma StillReachable(s: State, actions: seq<Action>)
    requires Reachable(s) && Runs(s, actions)
    ensures Reachable(Final(s, actions))
  {
    var s0, before :| Initial(s0) && Runs(s0, before) && Final(s0, before) == s;
    GoesOn(s0, before, actions);
  }

  /** A thread that came to rest has nothing left to do. */
  lemma RestIsNotBusy(s: State, actions: seq<Action>)
    requires Reachable(s) && Prompted(s, actions) && AtRest(Final(s, actions))
    ensures !Busy(Final(s, actions))
  {
    PromptedRuns(s, actions);
    StillReachable(s, actions);
    if Busy(Final(s, actions)) {
      BusyIsNeverStuck(Final(s, actions));
    }
  }

  /** What is pending or released, together, and the number of updates do not change in such a run. */
  lemma {:induction false} ReleasesArePaidFor(s: State, actions: seq<Action>)
    requires Inv(s) && Prompted(s, actions)
    ensures Inv(Final(s, actions)) && Final(s, actions).stop == s.stop && Final(s, actions).updates == s.updates
    ensures Final(s, actions).releases + Open(Final(s, actions)) == s.releases + Open(s)
    decreases |actions|
  {
    if actions != [] {
      StepKeepsInv(s, actions[0]);
      ReleasesArePaidFor(After(s, actions[0]), actions[1..]);
    }
  }

  ghost function Open(s: State): nat { if s.pending && !s.stop then 1 else 0 }

  /** Every run with an update pending, whatever its order: it has released exactly one rerun,
      which covers all updates, when it comes to rest, and at the latest after so many steps
      other than time. */
  lemma EveryRunReleases(s: State, actions: seq<Action>)
    requires Reachable(s) && s.pending && !s.stop && Prompted(s, actions)
    ensures AtRest(Final(s, actions)) || Moves(actions) >= Distance(s) ==>
      var t := Final(s, actions); t.releases == s.releases + 1 && t.served == t.updates
  {
    ReachableKeepsInv(s);
    ReleasesArePaidFor(s, actions);
    if Final(s, actions).releases == s.releases {
      MovesAreBounded(s, actions);
      if AtRest(Final(s, actions)) {
        RestIsNotBusy(s, actions);
      }
    }
  }

  /** Every run after a stop, whatever its order: it comes to rest after so many steps other
      than time at the latest, and where it rests the thread has ended. */
  lemma EveryRunEnds(s: State, actions: seq<Action>)
    requires Reachable(s) && s.stop && Prompted(s, actions)
    ensures Moves(actions) <= Distance(s)
    ensures AtRest(Final(s, actions)) ==> Final(s, actions).place == Done
  {
    ReachableKeepsInv(s);
    ReleasesArePaidFor(s, actions);
    MovesAreBounded(s, actions);
    if AtRest(Final(s, actions)) {
      RestIsNotBusy(s, actions);
    }
  }

  /** How many steps other than time can still happen by themselves, at most. */
  ghost function RestDistance(s: State): (d: nat)
  {
    2 * s.owed + (if s.notified then 1 else 0) + (if s.pending && !s.stop then 4 else 0) +
    match s.place
    case Deferring => 4
    case Entering => 3
    case Asleep => 2
    case Timed(until) => if until == s.deadline then 1 else 2
    case Done => 0
  }

  lemma RestIsCloser(s: State, a: Action)
    requires Inv(s) && Own(s, a) && a != Tick
    ensures RestDistance(After(s, a)) < RestDistance(s)
  {
  }

  /** The thread comes to rest from every state: its own steps and time suffice. */
  lemma {:induction false} ComesToRest(s: State) returns (actions: seq<Action>)
    requires Inv(s)
    ensures Prompted(s, actions) && AtRest(Final(s, actions))
    decreases RestDistance(s)
  {
    actions := [];
    if !AtRest(s) {
      var wait: nat := if s.place.Timed? && s.now < s.place.until then s.place.until - s.now else 0;
      TicksPass(s, wait);
      var t := Final(s, Ticks(wait));
      var a: Action := TimeOut;
      if !s.place.Timed? {
        a :| Own(t, a) && a != Tick;
      }
      StepKeepsInv(t, a);
      RestIsCloser(t, a);
      var rest := ComesToRest(After(t, a));
      OneStep(t, a);
      GoesOn(t, [a], rest);
      GoesOn(s, Ticks(wait), [a] + rest);
      actions := Ticks(wait) + ([a] + rest);
    }
  }

  /** No run is a dead end: every run of such steps goes on to one that comes to rest. */
  lemma EveryRunGoesToRest(s: State, actions: seq<Action>) returns (more: seq<Action>)
    requires Reachable(s) && Prompted(s, actions)
    ensures Prompted(s, actions + more) && AtRest(Final(s, actions + more))
  {
    PromptedRuns(s, actions);
    StillReachable(s, actions);
    ReachableKeepsInv(Final(s, actions));
    more := ComesToRest(Final(s, actions));
    GoesOn(s, actions, more);
  }

  /** So every pending update can be released by time and the thread alone. */
  lemma PendingCanBeReleased(s: State) returns (actions: seq<Action>)
    requires Reachable(s) && s.pending && !s.stop
    ensures Prompted(s, actions) && Runs(s, actions)
    ensures Final(s, actions).releases == s.releases + 1 && Final(s, actions).served == Final(s, actions).updates
  {
    ReachableKeepsInv(s);
    actions := ComesToRest(s);
    PromptedRuns(s, actions);
    EveryRunReleases(s, actions);
  }

  /** So a stop is always answered: from every state after it the thread can end. */
  lemma StopIsAnswered(s: State) returns (actions: seq<Action>)
    requires Reachable(s) && s.stop
    ensures Prompted(s, actions) && Final(s, actions).place == Done
  {
    ReachableKeepsInv(s);
    actions := ComesToRest(s);
    EveryRunEnds(s, actions);
  }

  // ---------------------------------------------------------------- the queueing is not covered

  /** The rerun is queued after the lock was dropped, so a newer update can slip in between:
      this run queues a rerun in the very millisecond of the latest update. */
  lemma QueueMayFollowAnUpdate() returns (s0: State, actions: seq<Action>)
    ensures Initial(s0) && Runs(s0, actions + [Queue(true)])
    ensures var s := Final(s0, actions); s.place == Deferring && s.updates == 2 && s.now == s.latest
  {
    s0 := State(0, false, false, 0, Entering, false, 0, false, false, 0, 0, 0, 0, 0, 0);
    var s1 := After(After(s0, Update), Enter);
    OneStep(s0, Update);
    OneStep(After(s0, Update), Enter);
    TwoSteps(s0, Update, Enter);
    TicksPass(s1, QUIET);
    PromptedRuns(s1, Ticks(QUIET));
    var s2 := s1.(now := QUIET);
    OneStep(s2, TimeOut);
    OneStep(After(s2, TimeOut), Update);
    TwoSteps(s2, TimeOut, Update);
    GoesOn(s1, Ticks(QUIET), [TimeOut, Update]);
    GoesOn(s0, [Update, Enter], Ticks(QUIET) + [TimeOut, Update]);
    actions := [Update, Enter] + (Ticks(QUIET) + [TimeOut, Update]);
    OneStep(Final(s0, actions), Queue(true));
    GoesOn(s0, actions, [Queue(true)]);
  }

  /** When a queueing is quiet too, stopped or not: it always is if no update came since the
      release, and within a quiet period of the release only then. */
  lemma QueueIsQuiet(s: State)
    requires Reachable(s) && s.place == Deferring
    ensures s.updates > 0
    ensures s.served == s.updates ==> s.now >= s.latest + QUIET
    ensures s.now < s.releasedAt + QUIET ==> (s.now >= s.latest + QUIET <==> s.served == s.updates)
  {
    ReachableKeepsInv(s);
  }
}
