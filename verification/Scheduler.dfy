/** The scheduler of a graph of tasks, as a transition system. One task per node; the atomic
    load and the compare-exchange of the first-error cell are single transitions, and
    any enabled task may move next. */
module Scheduler {
  import opened Options
  import opened Status
  import opened Graph

  /** Where a task is: not started, past the load that saw no error, inside process(),
      back from it with an error not yet offered to the cell, or finished. A finished
      task carries the status it got, or nothing when the load made it skip. */
  datatype Phase = Waiting | Cleared | Running | Returned(status: Status) | Finished(outcome: Option<Status>)

  /** The shared state, with the history of process() calls and of failures in the
      order of their compare-exchanges. `store` is whatever the closures share. */
  datatype State<S> = State(phases: seq<Phase>, first: Status, store: S, calls: seq<nat>, failures: seq<(nat, Status)>)

  datatype Action<S> = Begin(i: nat) | Call(i: nat) | Return(i: nat, status: Status, after: S) | Exchange(i: nat)

  type Dependencies = seq<seq<nat>>

  predicate InRange(deps: Dependencies)
  {
    forall i, d :: 0 <= i < |deps| && d in deps[i] ==> d < |deps|
  }

  ghost predicate DependenciesDone<S>(deps: Dependencies, s: State<S>, i: nat)
  {
    i < |deps| && forall d :: d in deps[i] ==> d < |s.phases| && s.phases[d].Finished?
  }

  ghost predicate Enabled<S>(deps: Dependencies, s: State<S>, a: Action<S>)
  {
    && a.i < |deps| == |s.phases|
    && match a
       case Begin(i) => s.phases[i].Waiting? && DependenciesDone(deps, s, i)
       case Call(i) => s.phases[i].Cleared?
       case Return(i, _, _) => s.phases[i].Running?
       case Exchange(i) => s.phases[i].Returned?
  }

  /** The state after an enabled action. */
  ghost function After<S>(s: State<S>, a: Action<S>): (t: State<S>)
    requires a.i < |s.phases| && (a.Exchange? ==> s.phases[a.i].Returned?)
  {
    match a
    case Begin(i) =>
      s.(phases := s.phases[i := if s.first != OK then Finished(None) else Cleared])
    case Call(i) =>
      s.(phases := s.phases[i := Running], calls := s.calls + [i])
    case Return(i, status, after) =>
      s.(phases := s.phases[i := if status == OK then Finished(Some(OK)) else Returned(status)], store := after)
    case Exchange(i) =>
      var status := s.phases[i].status;
      s.(phases := s.phases[i := Finished(Some(status))],
         first := if s.first == OK then status else s.first,
         failures := s.failures + [(i, status)])
  }

  ghost predicate Initial<S>(deps: Dependencies, s: State<S>)
  {
    && |s.phases| == |deps| && (forall i :: 0 <= i < |deps| ==> s.phases[i] == Waiting)
    && s.first == OK && s.calls == [] && s.failures == []
  }

  ghost predicate Complete<S>(s: State<S>)
  {
    forall i :: 0 <= i < |s.phases| ==> s.phases[i].Finished?
  }

  /** A run: states linked by enabled actions, from an initial state. */
  ghost predicate Run<S>(deps: Dependencies, states: seq<State<S>>, actions: seq<Action<S>>)
  {
    && |states| == |actions| + 1 && Initial(deps, states[0])
    && (forall k :: 0 <= k < |states| ==> |states[k].phases| == |deps|)
    && forall k :: 0 <= k < |actions| ==>
         Enabled(deps, states[k], actions[k]) && states[k + 1] == After(states[k], actions[k])
  }

  // ---------------------------------------------------------------- invariant

  predicate Called(p: Phase)
  {
    p.Running? || p.Returned? || (p.Finished? && p.outcome.Some?)
  }

  predicate Failed(p: Phase)
  {
    p.Returned? || (p.Finished? && p.outcome.Some? && p.outcome.value != OK)
  }

  /** Not processed: not started, or skipped. */
  predicate Idle(p: Phase)
  {
    p.Waiting? || p == Finished(None)
  }

  /** The history agrees with the phases. */
  ghost predicate History<S>(s: State<S>)
  {
    && Nodes(|s.phases|, s.calls)
    && (forall i :: 0 <= i < |s.phases| ==> (i in s.calls <==> Called(s.phases[i])))
    && (forall k :: 0 <= k < |s.failures| ==>
          && s.failures[k].0 < |s.phases| && s.failures[k].1 != OK
          && s.phases[s.failures[k].0] == Finished(Some(s.failures[k].1)))
    && (forall i :: 0 <= i < |s.phases| && s.phases[i].Finished? && Failed(s.phases[i]) ==>
          (i, s.phases[i].outcome.value) in s.failures)
  }

  /** The cell holds the status of the first compare-exchange, and a skip means it was taken. */
  ghost predicate Cell<S>(s: State<S>)
  {
    && s.first == (if s.failures == [] then OK else s.failures[0].1)
    && (forall i :: 0 <= i < |s.phases| && s.phases[i] == Finished(None) ==> s.first != OK)
    && (forall i :: 0 <= i < |s.phases| && s.phases[i].Returned? ==> s.phases[i].status != OK)
  }

  /** A task starts only when its dependencies are finished, and is skipped when one of
      them failed or was itself skipped. */
  ghost predicate Order<S>(deps: Dependencies, s: State<S>)
    requires |s.phases| == |deps|
  {
    && (forall i :: 0 <= i < |deps| && !s.phases[i].Waiting? ==> DependenciesDone(deps, s, i))
    && (forall i, d ::
          0 <= i < |deps| && d in deps[i] && d < |s.phases| && (Failed(s.phases[d]) || Idle(s.phases[d])) ==>
          Idle(s.phases[i]))
  }

  ghost predicate Inv<S>(deps: Dependencies, s: State<S>)
  {
    |s.phases| == |deps| && History(s) && Cell(s) && Order(deps, s)
  }

  lemma InitialInv<S>(deps: Dependencies, s: State<S>)
    requires Initial(deps, s)
    ensures Inv(deps, s)
  {
  }

  lemma StepHistory<S>(deps: Dependencies, s: State<S>, a: Action<S>)
    requires Inv(deps, s) && Enabled(deps, s, a)
    ensures History(After(s, a))
  {
    var t := After(s, a);
    assert forall i :: 0 <= i < |s.phases| && i != a.i ==> t.phases[i] == s.phases[i];
    if a.Call? {
      assert a.i !in s.calls;
      assert t.calls == s.calls + [a.i];
    }
    if a.Exchange? {
      assert t.failures[|s.failures|] == (a.i, s.phases[a.i].status);
    }
    forall i | 0 <= i < |t.phases| && t.phases[i].Finished? && Failed(t.phases[i])
      ensures (i, t.phases[i].outcome.value) in t.failures
    {
      if i != a.i {
        assert (i, s.phases[i].outcome.value) in s.failures;
      }
    }
  }

  lemma StepCell<S>(deps: Dependencies, s: State<S>, a: Action<S>)
    requires Inv(deps, s) && Enabled(deps, s, a)
    ensures Cell(After(s, a))
  {
    var t := After(s, a);
    assert forall i :: 0 <= i < |s.phases| && i != a.i ==> t.phases[i] == s.phases[i];
  }

  /** Once a dependency has failed or been skipped, the cell is taken. */
  lemma CellTaken<S>(deps: Dependencies, s: State<S>, d: nat)
    requires Inv(deps, s) && d < |deps| && s.phases[d].Finished? && (Failed(s.phases[d]) || Idle(s.phases[d]))
    ensures s.first != OK
  {
    if Failed(s.phases[d]) {
      assert (d, s.phases[d].outcome.value) in s.failures;
    }
  }

  lemma StepOrder<S>(deps: Dependencies, s: State<S>, a: Action<S>)
    requires Inv(deps, s) && Enabled(deps, s, a)
    ensures Order(deps, After(s, a))
  {
    var t := After(s, a);
    assert forall i :: 0 <= i < |s.phases| && i != a.i ==> t.phases[i] == s.phases[i];
    forall i | 0 <= i < |deps| && !t.phases[i].Waiting? ensures DependenciesDone(deps, t, i) {
      assert DependenciesDone(deps, s, i);
    }
    forall i, d | 0 <= i < |deps| && d in deps[i] && d < |t.phases| && (Failed(t.phases[d]) || Idle(t.phases[d]))
      ensures Idle(t.phases[i])
    {
      if i == a.i {
        if a.Begin? {
          CellTaken(deps, s, d);
        }
      } else if d == a.i {
        assert !DependenciesDone(deps, s, i);
      }
    }
  }

  lemma StepInv<S>(deps: Dependencies, s: State<S>, a: Action<S>)
    requires Inv(deps, s) && Enabled(deps, s, a)
    ensures Inv(deps, After(s, a))
  {
    StepHistory(deps, s, a);
    StepCell(deps, s, a);
    StepOrder(deps, s, a);
  }

  lemma {:induction false} RunInv<S>(deps: Dependencies, states: seq<State<S>>, actions: seq<Action<S>>, k: nat)
    requires Run(deps, states, actions) && k <= |actions|
    ensures Inv(deps, states[k])
  {
    if k == 0 {
      InitialInv(deps, states[0]);
    } else {
      RunInv(deps, states, actions, k - 1);
      StepInv(deps, states[k - 1], actions[k - 1]);
    }
  }

  // ---------------------------------------------------------------- safety

  /** At any moment of any run: process() has been entered at most once per node, and
      only for nodes whose dependencies are all finished. */
  lemma ProcessedOnceAfterDependencies<S>(deps: Dependencies, states: seq<State<S>>, actions: seq<Action<S>>, k: nat)
    requires Run(deps, states, actions) && k <= |actions|
    ensures Nodes(|deps|, states[k].calls)
    ensures forall i :: i in states[k].calls ==> DependenciesDone(deps, states[k], i)
  {
    RunInv(deps, states, actions, k);
  }

  /** The dependency graph: an edge from each dependency to its dependent. */
  ghost function EdgesInto(from: seq<nat>, i: nat): (edges: seq<Edge>)
    ensures forall d: nat, x: nat :: Edge(d, x) in edges <==> x == i && d in from
  {
    if from == [] then [] else EdgesInto(from[..|from| - 1], i) + [Edge(from[|from| - 1], i)]
  }

  ghost function DependencyEdges(deps: Dependencies, k: nat): (edges: seq<Edge>)
    requires k <= |deps|
    ensures forall d: nat, i: nat :: Edge(d, i) in edges <==> i < k && d in deps[i]
  {
    if k == 0 then []
    else
      DependencyEdges(deps, k - 1) + EdgesInto(deps[k - 1], k - 1)
  }

  ghost function Edges(deps: Dependencies): (edges: seq<Edge>)
    ensures forall d: nat, i: nat :: Edge(d, i) in edges <==> i < |deps| && d in deps[i]
  {
    DependencyEdges(deps, |deps|)
  }

  lemma {:induction false} IdleAlongWalk<S>(deps: Dependencies, s: State<S>, w: seq<nat>, f: nat, i: nat)
    requires Inv(deps, s) && f < |deps| && i < |deps| && Joins(|deps|, Edges(deps), w, f, i)
    requires Failed(s.phases[f]) || Idle(s.phases[f])
    ensures Idle(s.phases[i])
    decreases |w|
  {
    assert Adjacent(|deps|, Edges(deps), w[0], w[1]);
    assert Idle(s.phases[w[1]]);
    if |w| > 2 {
      IdleAlongWalk(deps, s, w[1..], w[1], i);
    }
  }

  /** No transitive dependent of a failed node is ever processed. */
  lemma DependentsOfFailureAreNotProcessed<S>(deps: Dependencies, states: seq<State<S>>, actions: seq<Action<S>>,
                                              k: nat, f: nat, i: nat)
    requires Run(deps, states, actions) && k <= |actions|
    requires Reaches(|deps|, Edges(deps), f, i) && f < |deps| && Failed(states[k].phases[f])
    ensures i < |deps| && i !in states[k].calls
  {
    RunInv(deps, states, actions, k);
    var w :| Joins(|deps|, Edges(deps), w, f, i);
    assert Adjacent(|deps|, Edges(deps), w[|w| - 2], w[|w| - 1]);
    IdleAlongWalk(deps, states[k], w, f, i);
  }

  /** When all tasks are finished, the cell is OK exactly when every node ran and
      returned OK; otherwise it holds the status of the failure exchanged first. */
  lemma ResultIsFirstFailure<S>(deps: Dependencies, states: seq<State<S>>, actions: seq<Action<S>>)
    requires Run(deps, states, actions) && Complete(states[|actions|])
    ensures var s := states[|actions|];
      && (s.first == OK <==> forall i :: 0 <= i < |deps| ==> s.phases[i] == Finished(Some(OK)))
      && (s.first == OK ==> forall i :: 0 <= i < |deps| ==> i in s.calls)
      && (s.first != OK ==>
            s.failures != [] && s.failures[0] == (s.failures[0].0, s.first) && s.failures[0].0 in s.calls)
  {
    RunInv(deps, states, actions, |actions|);
    var s := states[|actions|];
    if s.first == OK {
      assert s.failures == [];
    } else {
      assert s.phases[s.failures[0].0] == Finished(Some(s.first));
    }
  }

  // ---------------------------------------------------------------- progress

  /** While some task is unfinished, some action is enabled: no state deadlocks. */
  lemma NoDeadlock<S>(deps: Dependencies, s: State<S>) returns (a: Action<S>)
    requires InRange(deps) && Acyclic(|deps|, Edges(deps))
    requires Inv(deps, s) && !Complete(s)
    ensures Enabled(deps, s, a)
  {
    var n := |deps|;
    if i :| 0 <= i < n && !s.phases[i].Finished? && !s.phases[i].Waiting? {
      a := match s.phases[i]
           case Cleared => Call(i)
           case Running => Return(i, OK, s.store)
           case Returned(_) => Exchange(i);
    } else {
      var i := ReadyTask(deps, s);
      a := Begin(i);
    }
  }

  /** When every unfinished task waits, some task's dependencies have all finished. */
  lemma ReadyTask<S>(deps: Dependencies, s: State<S>) returns (i: nat)
    requires InRange(deps) && Acyclic(|deps|, Edges(deps)) && |s.phases| == |deps|
    requires !Complete(s) && forall k :: 0 <= k < |deps| ==> s.phases[k].Finished? || s.phases[k].Waiting?
    ensures i < |deps| && s.phases[i].Waiting? && DependenciesDone(deps, s, i)
  {
    var n := |deps|;
    var waiting := set k | k in Below(n) && s.phases[k].Waiting?;
    var some :| 0 <= some < n && !s.phases[some].Finished?;
    assert some in waiting;
    if forall k :: k in waiting ==> !DependenciesDone(deps, s, k) {
      forall k | k in waiting ensures HasPredecessor(n, Edges(deps), waiting, k) {
        var d :| d in deps[k] && !(d < |s.phases| && s.phases[d].Finished?);
        assert d in waiting;
        assert Adjacent(n, Edges(deps), d, k);
      }
      SourcelessImpliesCycle(n, Edges(deps), waiting);
    }
    i :| i in waiting && DependenciesDone(deps, s, i);
  }

  /** A run that cannot be continued has finished every task. */
  lemma StuckRunIsComplete<S(!new)>(deps: Dependencies, states: seq<State<S>>, actions: seq<Action<S>>)
    requires InRange(deps) && Acyclic(|deps|, Edges(deps)) && Run(deps, states, actions)
    requires forall a :: !Enabled(deps, states[|actions|], a)
    ensures Complete(states[|actions|])
  {
    RunInv(deps, states, actions, |actions|);
    if !Complete(states[|actions|]) {
      var a := NoDeadlock(deps, states[|actions|]);
    }
  }

  ghost function Left(phases: seq<Phase>): (steps: nat)
    ensures steps <= 4 * |phases|
  {
    if phases == [] then 0 else Left(phases[..|phases| - 1]) + Cost(phases[|phases| - 1])
  }

  /** How many steps a task still has to take. */
  ghost function Cost(p: Phase): (steps: nat)
    ensures steps <= 4
  {
    match p
    case Waiting => 4
    case Cleared => 3
    case Running => 2
    case Returned(_) => 1
    case Finished(_) => 0
  }

  lemma {:induction false} LeftUpdate(phases: seq<Phase>, i: nat, p: Phase)
    requires i < |phases|
    ensures Left(phases[i := p]) == Left(phases) - Cost(phases[i]) + Cost(p)
  {
    var front := phases[..|phases| - 1];
    if i == |phases| - 1 {
      assert phases[i := p][..|phases| - 1] == front;
    } else {
      assert phases[i := p][..|phases| - 1] == front[i := p];
      LeftUpdate(front, i, p);
    }
  }

  lemma StepCostsOne<S>(deps: Dependencies, s: State<S>, a: Action<S>)
    requires Enabled(deps, s, a)
    ensures Left(After(s, a).phases) < Left(s.phases)
  {
    var t := After(s, a);
    LeftUpdate(s.phases, a.i, t.phases[a.i]);
  }

  /** Every run is finite: four steps per task at the most. */
  lemma {:induction false} RunsTerminate<S>(deps: Dependencies, states: seq<State<S>>, actions: seq<Action<S>>, k: nat)
    requires Run(deps, states, actions) && k <= |actions|
    ensures k + Left(states[k].phases) <= 4 * |deps|
    ensures k <= 4 * |deps|
  {
    if k > 0 {
      RunsTerminate(deps, states, actions, k - 1);
      StepCostsOne(deps, states[k - 1], actions[k - 1]);
    }
  }

  // ---------------------------------------------------------------- the chain

  /** The dependencies run_bound builds: each node on the one before it. */
  ghost predicate Chain(deps: Dependencies)
  {
    forall i :: 0 <= i < |deps| ==> deps[i] == if i == 0 then [] else [i - 1]
  }

  /** What the closures do to the shared store, one after another, stopping at an error. */
  datatype Outcome<S> = Outcome(store: S, status: Status, called: nat)

  function Sequential<S>(process: (nat, S) -> (S, Status), k: nat, store: S): (r: Outcome<S>)
    ensures r.called <= k
    ensures r.status == OK ==> r.called == k
  {
    if k == 0 then Outcome(store, OK, 0)
    else
      var r := Sequential(process, k - 1, store);
      if r.status != OK then r else var (after, status) := process(k - 1, r.store); Outcome(after, status, k)
  }

  /** The branch without dependencies: a plain loop with an early return. */
  method RunSequential<S>(process: (nat, S) -> (S, Status), n: nat, store: S) returns (r: Outcome<S>)
    ensures r == Sequential(process, n, store)
  {
    r := Outcome(store, OK, 0);
    for k := 0 to n
      invariant r == Sequential(process, k, store) && r.status == OK
    {
      var (after, status) := process(k, r.store);
      r := Outcome(after, status, k + 1);
      if status != OK {
        StaysFailed(process, k + 1, n, store);
        return;
      }
    }
  }

  lemma {:induction false} StaysFailed<S>(process: (nat, S) -> (S, Status), k: nat, n: nat, store: S)
    requires k <= n && Sequential(process, k, store).status != OK
    ensures Sequential(process, n, store) == Sequential(process, k, store)
  {
    if k < n {
      StaysFailed(process, k, n - 1, store);
    }
  }

  /** Every return follows the closures' behaviour on the store they find. */
  ghost predicate Follows<S>(process: (nat, S) -> (S, Status), states: seq<State<S>>, actions: seq<Action<S>>)
    requires |states| == |actions| + 1
  {
    forall k :: 0 <= k < |actions| && actions[k].Return? ==>
      (actions[k].after, actions[k].status) == process(actions[k].i, states[k].store)
  }

  ghost predicate CallsUpTo(calls: seq<nat>, n: nat)
  {
    |calls| == n && forall j :: 0 <= j < n ==> calls[j] == j
  }

  /** On the chain, everything before the front is finished, everything after it is
      waiting, and the state is the one the plain loop has there. */
  ghost predicate Tracks<S>(process: (nat, S) -> (S, Status), start: S, s: State<S>, front: nat)
  {
    var n := |s.phases|;
    && front <= n
    && (forall i :: 0 <= i < front ==> s.phases[i].Finished?)
    && (forall i :: front < i < n ==> s.phases[i].Waiting?)
    && (front < n ==> !s.phases[front].Finished?)
    && var r := Sequential(process, front, start);
       var done := front == n || s.phases[front].Waiting?;
       if done then s.store == r.store && s.first == r.status && CallsUpTo(s.calls, r.called)
       else
         && r.status == OK && s.first == OK
         && match s.phases[front]
            case Cleared => s.store == r.store && CallsUpTo(s.calls, front)
            case Running => s.store == r.store && CallsUpTo(s.calls, front + 1)
            case Returned(status) =>
              CallsUpTo(s.calls, front + 1) && Sequential(process, front + 1, start) ==
                Outcome(s.store, status, front + 1)
            case _ => false
  }

  lemma OnlyFrontMoves<S>(process: (nat, S) -> (S, Status), deps: Dependencies, start: S, s: State<S>, a: Action<S>,
                          front: nat)
    requires Chain(deps) && Inv(deps, s) && Enabled(deps, s, a) && Tracks(process, start, s, front)
    ensures a.i == front
  {
    forall i: nat | front < i < |deps| ensures !DependenciesDone(deps, s, i) {
      assert i - 1 in deps[i] && !s.phases[i - 1].Finished?;
    }
  }

  lemma TracksStep<S>(process: (nat, S) -> (S, Status), deps: Dependencies, start: S, s: State<S>, a: Action<S>,
                      front: nat)
    returns (front': nat)
    requires Chain(deps) && Inv(deps, s) && Enabled(deps, s, a) && Tracks(process, start, s, front)
    requires a.Return? ==> (a.after, a.status) == process(a.i, s.store)
    ensures front <= front' <= front + 1 && Tracks(process, start, After(s, a), front')
  {
    OnlyFrontMoves(process, deps, start, s, a, front);
    match a
    case Begin(_) => front' := TracksBegin(process, start, s, a, front);
    case Call(_) => front' := TracksCall(process, start, s, a, front);
    case Return(_, _, _) => front' := TracksReturn(process, start, s, a, front);
    case Exchange(_) => front' := TracksExchange(process, start, s, a, front);
  }

  /** A task begins, or skips because an earlier one failed. */
  lemma TracksBegin<S>(process: (nat, S) -> (S, Status), start: S, s: State<S>, a: Action<S>, front: nat)
    returns (front': nat)
    requires Tracks(process, start, s, front) && front < |s.phases| && a == Begin(front) && s.phases[front].Waiting?
    ensures front <= front' <= front + 1 && Tracks(process, start, After(s, a), front')
  {
    front' := if s.first != OK then front + 1 else front;
  }

  lemma TracksCall<S>(process: (nat, S) -> (S, Status), start: S, s: State<S>, a: Action<S>, front: nat)
    returns (front': nat)
    requires Tracks(process, start, s, front) && front < |s.phases| && a == Call(front) && s.phases[front].Cleared?
    ensures front <= front' <= front + 1 && Tracks(process, start, After(s, a), front')
  {
    front' := front;
  }

  lemma TracksReturn<S>(process: (nat, S) -> (S, Status), start: S, s: State<S>, a: Action<S>, front: nat)
    returns (front': nat)
    requires Tracks(process, start, s, front) && front < |s.phases| && a.Return? && a.i == front &&
      s.phases[front].Running?
    requires (a.after, a.status) == process(front, s.store)
    ensures front <= front' <= front + 1 && Tracks(process, start, After(s, a), front')
  {
    assert Sequential(process, front + 1, start) == Outcome(a.after, a.status, front + 1);
    front' := if a.status == OK then front + 1 else front;
  }

  lemma TracksExchange<S>(process: (nat, S) -> (S, Status), start: S, s: State<S>, a: Action<S>, front: nat)
    returns (front': nat)
    requires Tracks(process, start, s, front) && front < |s.phases| && a == Exchange(front) && s.phases[front].Returned?
    ensures front <= front' <= front + 1 && Tracks(process, start, After(s, a), front')
  {
    front' := front + 1;
  }

  lemma {:induction false} TracksRun<S>(process: (nat, S) -> (S, Status), deps: Dependencies, states: seq<State<S>>,
                                        actions: seq<Action<S>>, k: nat) returns (front: nat)
    requires Chain(deps) && Run(deps, states, actions) && Follows(process, states, actions) && k <= |actions|
    ensures Tracks(process, states[0].store, states[k], front)
  {
    if k == 0 {
      front := 0;
    } else {
      var before := TracksRun(process, deps, states, actions, k - 1);
      RunInv(deps, states, actions, k - 1);
      front := TracksStep(process, deps, states[0].store, states[k - 1], actions[k - 1], before);
    }
  }

  /** No two closures of the chain are ever in flight together. */
  lemma ChainNeverOverlaps<S>(process: (nat, S) -> (S, Status), deps: Dependencies, states: seq<State<S>>,
                              actions: seq<Action<S>>, k: nat)
    requires Chain(deps) && Run(deps, states, actions) && Follows(process, states, actions) && k <= |actions|
    ensures forall i, j :: 0 <= i < j < |deps| ==>
      (states[k].phases[i].Waiting? || states[k].phases[i].Finished? || states[k].phases[j].Waiting? ||
       states[k].phases[j].Finished?)
  {
    var front := TracksRun(process, deps, states, actions, k);
    RunInv(deps, states, actions, k);
  }

  /** Every complete run of the chain ends with the store, the status and the calls of the plain loop. */
  lemma ChainEqualsLoop<S>(process: (nat, S) -> (S, Status), deps: Dependencies, states: seq<State<S>>,
                           actions: seq<Action<S>>)
    requires Chain(deps) && Run(deps, states, actions) && Follows(process, states, actions) &&
      Complete(states[|actions|])
    ensures var s, r := states[|actions|], Sequential(process, |deps|, states[0].store);
      s.store == r.store && s.first == r.status && CallsUpTo(s.calls, r.called)
  {
    var front := TracksRun(process, deps, states, actions, |actions|);
    RunInv(deps, states, actions, |actions|);
  }

  /** When a closure of the chain is entered, the store is what the plain loop has
      after all earlier closures returned OK. */
  lemma ChainEntersInOrder<S>(process: (nat, S) -> (S, Status), deps: Dependencies, states: seq<State<S>>,
                              actions: seq<Action<S>>, k: nat)
    requires Chain(deps) && Run(deps, states, actions) && Follows(process, states, actions)
    requires k < |actions| && actions[k].Call?
    ensures Sequential(process, actions[k].i, states[0].store).status == OK
    ensures states[k].store == Sequential(process, actions[k].i, states[0].store).store
  {
    var front := TracksRun(process, deps, states, actions, k);
    RunInv(deps, states, actions, k);
  }

  // ---------------------------------------------------------------- dispatch

  datatype Mode = Sequentially | Concurrently | Rejected

  /** Which way run() goes, decided before any process() is called. */
  method Dispatch(deps: Dependencies) returns (mode: Mode)
    ensures mode == Sequentially <==> forall i :: 0 <= i < |deps| ==> deps[i] == []
    ensures mode == Rejected <==> !InRange(deps)
  {
    var hasDependencies := exists i :: 0 <= i < |deps| && deps[i] != [];
    if !hasDependencies {
      return Sequentially;
    }
    for i := 0 to |deps|
      invariant forall k, d :: 0 <= k < i && d in deps[k] ==> d < |deps|
    {
      for j := 0 to |deps[i]|
        invariant forall m :: 0 <= m < j ==> deps[i][m] < |deps|
      {
        if deps[i][j] >= |deps| {
          assert deps[i][j] in deps[i];
          return Rejected;
        }
      }
    }
    mode := Concurrently;
  }
}
