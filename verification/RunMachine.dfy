/**
 One DAG run as a state machine: what `Schedule`, a worker and `ReportCompletion` may do to the statuses of its
 tasks, and what then holds over every run.
 */
module RunMachine {
  import opened Ordering
  import opened Graphs
  import opened KahnOrders
  import opened DagTypes

  type Statuses = map<Id, Status>

  datatype RunState = RunState(statuses: Statuses, run: Status)

  datatype Action =
    | Schedule(dispatched: seq<Id>)
    | Start(task: Id)
    | Report(task: Id, status: Status)

  // ---------------------------------------------------------------- the steps

  /** The task has a waiting instance, and all it depends on has succeeded. */
  predicate Dispatchable(tasks: Tasks, st: Statuses, t: Id) {
    t in tasks && t in st && st[t] == Pending && DepsSucceeded(st, tasks[t])
  }

  /** `l` lists what can be dispatched, highest priority first and then by ID. */
  ghost predicate DispatchList(tasks: Tasks, st: Statuses, l: seq<Id>) {
    (forall t :: t in l <==> Dispatchable(tasks, st, t)) && InReadyOrder(tasks, l)
  }

  ghost predicate InReadyOrder(tasks: Tasks, l: seq<Id>) {
    forall i, j :: 0 <= i < j < |l| ==> l[i] in tasks && l[j] in tasks && ReadyBefore(tasks[l[i]], tasks[l[j]])
  }

  /** That order by fields: falling priority, and lexicographic IDs where priorities are equal. */
  lemma ReadyOrderByFields(tasks: Tasks, l: seq<Id>, i: nat, j: nat)
    requires InReadyOrder(tasks, l) && i < j < |l|
    ensures l[i] in tasks && l[j] in tasks && GoesBefore(tasks[l[i]], tasks[l[j]])
  {
    var a, b := l[i], l[j];
    ReadyBeforeByFields(tasks[a], tasks[b]);
  }

  function Queue(tasks: Tasks, st: Statuses): (r: Statuses)
    ensures r.Keys == st.Keys
  {
    map t | t in st :: if Dispatchable(tasks, st, t) then Queued else st[t]
  }

  predicate AllTerminal(st: Statuses) {
    forall t :: t in st ==> st[t].IsTerminal()
  }

  predicate AnyFailed(st: Statuses) {
    exists t :: t in st && st[t] == Failed
  }

  /** The run's status after the completion check: Cancelled and Skipped tasks count as done, not as failed. */
  function RunStatus(st: Statuses): Status {
    if !AllTerminal(st) then Running else if AnyFailed(st) then Failed else Success
  }

  /** `Schedule`, seen from one run; finished runs are not listed. */
  function Scheduled(tasks: Tasks, s: RunState): RunState {
    if s.run != Running then s
    else
      var st := Queue(tasks, s.statuses);
      RunState(st, RunStatus(st))
  }

  /** What callers are expected to do: start queued tasks, report an end status for queued or running ones, once. */
  ghost predicate Step(tasks: Tasks, s: RunState, a: Action, s': RunState) {
    match a
    case Schedule(l) =>
      s' == Scheduled(tasks, s) && if s.run == Running then DispatchList(tasks, s.statuses, l) else l == []
    case Start(t) =>
      t in s.statuses && s.statuses[t] == Queued && s' == s.(statuses := s.statuses[t := Running])
    case Report(t, x) =>
      && t in s.statuses && s.statuses[t] in {Queued, Running} && x.IsTerminal()
      && s' == s.(statuses := s.statuses[t := x])
  }

  function Initial(tasks: Tasks): RunState {
    RunState(map t | t in tasks :: Pending, Running)
  }

  /** `acts` leads from `s` to `s'`. */
  ghost predicate Leads(tasks: Tasks, s: RunState, acts: seq<Action>, s': RunState)
    decreases |acts|, 1
  {
    if acts == [] then s == s' else exists mid :: LeadsVia(tasks, s, acts, mid, s')
  }

  ghost predicate LeadsVia(tasks: Tasks, s: RunState, acts: seq<Action>, mid: RunState, s': RunState)
    requires acts != []
    decreases |acts|, 0
  {
    Leads(tasks, s, acts[..|acts| - 1], mid) && Step(tasks, mid, acts[|acts| - 1], s')
  }

  lemma LastStep(tasks: Tasks, s: RunState, acts: seq<Action>, s': RunState) returns (mid: RunState)
    requires Leads(tasks, s, acts, s') && acts != []
    ensures Leads(tasks, s, acts[..|acts| - 1], mid) && Step(tasks, mid, acts[|acts| - 1], s')
  {
    mid :| LeadsVia(tasks, s, acts, mid, s');
  }

  lemma LeadsNext(tasks: Tasks, s: RunState, acts: seq<Action>, mid: RunState, a: Action, s': RunState)
    requires Leads(tasks, s, acts, mid) && Step(tasks, mid, a, s')
    ensures Leads(tasks, s, acts + [a], s')
  {
    assert (acts + [a])[..|acts + [a]| - 1] == acts;
    assert LeadsVia(tasks, s, acts + [a], mid, s');
  }

  /** The actions determine the outcome, so what leads from the start through `s` is a run that continues from `s`. */
  lemma {:induction false} LeadsSplits(tasks: Tasks, s0: RunState, before: seq<Action>, s: RunState,
                                       after: seq<Action>, s': RunState)
    requires Leads(tasks, s0, before, s) && Leads(tasks, s0, before + after, s')
    ensures Leads(tasks, s, after, s')
  {
    if after == [] {
      assert before + after == before;
      LeadsOnce(tasks, s0, before, s, s');
    } else {
      var rest, a := after[..|after| - 1], after[|after| - 1];
      assert (before + after)[..|before + after| - 1] == before + rest;
      var mid := LastStep(tasks, s0, before + after, s');
      LeadsSplits(tasks, s0, before, s, rest, mid);
      LeadsNext(tasks, s, rest, mid, a, s');
      assert rest + [a] == after;
    }
  }

  lemma {:induction false} LeadsOnce(tasks: Tasks, s0: RunState, acts: seq<Action>, s: RunState, s': RunState)
    requires Leads(tasks, s0, acts, s) && Leads(tasks, s0, acts, s')
    ensures s == s'
  {
    if acts == [] {
    } else {
      var mid := LastStep(tasks, s0, acts, s);
      var mid' := LastStep(tasks, s0, acts, s');
      LeadsOnce(tasks, s0, acts[..|acts| - 1], mid, mid');
    }
  }

  // ---------------------------------------------------------------- what every state keeps

  /** Every instance that has left Pending has all its direct dependencies in Success. */
  ghost predicate Inv(tasks: Tasks, s: RunState) {
    && s.statuses.Keys == tasks.Keys
    && (forall t :: t in tasks ==> s.statuses[t] != UpForRetry)
    && (forall t :: t in tasks && s.statuses[t] != Pending ==> DepsSucceeded(s.statuses, tasks[t]))
    && (s.run == Running || (AllTerminal(s.statuses) && s.run == RunStatus(s.statuses)))
  }

  lemma StepKeepsInv(tasks: Tasks, s: RunState, a: Action, s': RunState)
    requires Inv(tasks, s) && Step(tasks, s, a, s')
    ensures Inv(tasks, s')
  {
    forall t | t in tasks && s'.statuses[t] != Pending ensures DepsSucceeded(s'.statuses, tasks[t]) {
      assert DepsSucceeded(s.statuses, tasks[t]);
    }
  }

  /** A terminal status never changes, and nothing returns to Pending. */
  lemma StepKeepsTerminal(tasks: Tasks, s: RunState, a: Action, s': RunState, t: Id)
    requires Inv(tasks, s) && Step(tasks, s, a, s') && t in tasks
    ensures s.statuses[t].IsTerminal() ==> s'.statuses[t] == s.statuses[t]
    ensures s.statuses[t] != Pending ==> s'.statuses[t] != Pending
  {
  }

  lemma {:induction false} LeadsKeepsInv(tasks: Tasks, s: RunState, acts: seq<Action>, s': RunState)
    requires Inv(tasks, s) && Leads(tasks, s, acts, s')
    ensures Inv(tasks, s')
    ensures forall t :: t in tasks && s.statuses[t].IsTerminal() ==> s'.statuses[t] == s.statuses[t]
  {
    if acts == [] {
    } else {
      var mid := LastStep(tasks, s, acts, s');
      LeadsKeepsInv(tasks, s, acts[..|acts| - 1], mid);
      StepKeepsInv(tasks, mid, acts[|acts| - 1], s');
      forall t | t in tasks && s.statuses[t].IsTerminal() ensures s'.statuses[t] == s.statuses[t] {
        StepKeepsTerminal(tasks, mid, acts[|acts| - 1], s', t);
      }
    }
  }

  lemma InitialInv(tasks: Tasks)
    ensures Inv(tasks, Initial(tasks))
  {
  }

  /** In a state with the invariant, whatever has left Pending has all its transitive upstream tasks in Success. */
  lemma {:induction false} UpstreamOfChain(tasks: Tasks, s: RunState, p: seq<Id>)
    requires Inv(tasks, s) && Chain(DependencyGraph(tasks), p) && |p| >= 2
    requires StatusOf(s.statuses, p[|p| - 1]) != Pending
    ensures StatusOf(s.statuses, p[0]) == Success
  {
    var u, t := p[|p| - 2], p[|p| - 1];
    assert (u, t) in DependencyGraph(tasks).arcs;
    assert DepsSucceeded(s.statuses, tasks[t]);
    if |p| == 2 {
    } else {
      UpstreamOfChain(tasks, s, p[..|p| - 1]);
    }
  }

  lemma UpstreamSucceeded(tasks: Tasks, acts: seq<Action>, s: RunState, u: Id, t: Id)
    requires Leads(tasks, Initial(tasks), acts, s)
    requires Reach(DependencyGraph(tasks), u, t) && StatusOf(s.statuses, t) != Pending
    ensures StatusOf(s.statuses, u) == Success
  {
    InitialInv(tasks);
    LeadsKeepsInv(tasks, Initial(tasks), acts, s);
    var p :| ChainFromTo(DependencyGraph(tasks), p, u, t);
    UpstreamOfChain(tasks, s, p);
  }

  /** Once a task has failed, or was cancelled or skipped, nothing downstream of it is queued in any continuation. */
  lemma FailureBlocksDownstream(tasks: Tasks, before: seq<Action>, s: RunState, after: seq<Action>, s': RunState,
                                u: Id, t: Id)
    requires Leads(tasks, Initial(tasks), before, s) && Leads(tasks, s, after, s')
    requires Unsuccessful(s.statuses, u)
    requires Reach(DependencyGraph(tasks), u, t)
    ensures StatusOf(s'.statuses, t) == Pending
  {
    InitialInv(tasks);
    LeadsKeepsInv(tasks, Initial(tasks), before, s);
    LeadsKeepsInv(tasks, s, after, s');
    if StatusOf(s'.statuses, t) != Pending {
      var p :| ChainFromTo(DependencyGraph(tasks), p, u, t);
      UpstreamOfChain(tasks, s', p);
    }
  }

  /** A finished run is final: nothing that follows changes it, and nothing is dispatched. */
  lemma {:induction false} FinishedIsFinal(tasks: Tasks, s: RunState, acts: seq<Action>, s': RunState)
    requires Inv(tasks, s) && s.run != Running && Leads(tasks, s, acts, s')
    ensures s' == s && forall a :: a in acts ==> a == Schedule([])
  {
    if acts == [] {
    } else {
      var mid := LastStep(tasks, s, acts, s');
      FinishedIsFinal(tasks, s, acts[..|acts| - 1], mid);
      assert acts == acts[..|acts| - 1] + [acts[|acts| - 1]];
    }
  }

  /** A run finishes only when all its tasks have ended, as Failed exactly when one of them Failed. */
  lemma FinishedMeansEnded(tasks: Tasks, acts: seq<Action>, s: RunState)
    requires Leads(tasks, Initial(tasks), acts, s) && s.run != Running
    ensures s.statuses.Keys == tasks.Keys && forall t :: t in tasks ==> s.statuses[t].IsTerminal()
    ensures s.run == Failed <==> exists t :: t in tasks && s.statuses[t] == Failed
    ensures s.run == Success <==> forall t :: t in tasks ==> s.statuses[t] != Failed
  {
    InitialInv(tasks);
    LeadsKeepsInv(tasks, Initial(tasks), acts, s);
  }

  /** A run whose only task was cancelled ends in Success. */
  lemma CancelledEndsInSuccess(task: Task)
    requires task.dependencies == []
    ensures var tasks, t := map[task.id := task], task.id;
            Leads(tasks, Initial(tasks), [Schedule([t]), Report(t, Cancelled), Schedule([])],
                  RunState(map[t := Cancelled], Success))
  {
    var tasks, t := map[task.id := task], task.id;
    var s0, s1 := Initial(tasks), RunState(map[t := Queued], Running);
    var s2, s3 := RunState(map[t := Cancelled], Running), RunState(map[t := Cancelled], Success);
    var a1, a2 := [Schedule([t])], [Schedule([t]), Report(t, Cancelled)];
    CancelledSteps(task);
    assert Leads(tasks, s0, [], s0);
    hide Leads, Step, Initial;
    assert [] + [Schedule([t])] == a1 && a1 + [Report(t, Cancelled)] == a2;
    LeadsNext(tasks, s0, [], s0, Schedule([t]), s1);
    LeadsNext(tasks, s0, a1, s1, Report(t, Cancelled), s2);
    LeadsNext(tasks, s0, a2, s2, Schedule([]), s3);
    assert a2 + [Schedule([])] == [Schedule([t]), Report(t, Cancelled), Schedule([])];
  }

  lemma CancelledSteps(task: Task)
    requires task.dependencies == []
    ensures var tasks, t := map[task.id := task], task.id;
            && Step(tasks, Initial(tasks), Schedule([t]), RunState(map[t := Queued], Running))
            && Step(tasks, RunState(map[t := Queued], Running), Report(t, Cancelled),
                    RunState(map[t := Cancelled], Running))
            && Step(tasks, RunState(map[t := Cancelled], Running), Schedule([]),
                    RunState(map[t := Cancelled], Success))
  {
    var tasks, t := map[task.id := task], task.id;
    var st, end := Initial(tasks).statuses, map[t := Cancelled];
    assert Dispatchable(tasks, st, t) && end[t] == Cancelled;
    assert Queue(tasks, st) == map[t := Queued] && Queue(tasks, end) == end;
    assert map[t := Queued][t] == Queued;
  }

  // ---------------------------------------------------------------- the dispatch order

  /** Everything the calls to `Schedule` returned, in order. */
  ghost function Dispatches(acts: seq<Action>): seq<Id> {
    if acts == [] then []
    else
      var last := acts[|acts| - 1];
      Dispatches(acts[..|acts| - 1]) + if last.Schedule? then last.dispatched else []
  }

  /** Each listed task stands after all its dependencies. */
  ghost predicate DepsBefore(tasks: Tasks, l: seq<Id>) {
    forall j, dep :: 0 <= j < |l| && l[j] in tasks && dep in tasks[l[j]].dependencies ==> dep in l[..j]
  }

  /** Over every run: nothing is dispatched twice, what has left Pending is what was dispatched, dependencies first. */
  lemma {:induction false} DispatchOrder(tasks: Tasks, acts: seq<Action>, s: RunState)
    requires Leads(tasks, Initial(tasks), acts, s)
    ensures Distinct(Dispatches(acts)) && DepsBefore(tasks, Dispatches(acts))
    ensures forall t :: t in Dispatches(acts) <==> t in tasks && StatusOf(s.statuses, t) != Pending
  {
    if acts == [] {
    } else {
      var before, a := acts[..|acts| - 1], acts[|acts| - 1];
      var mid := LastStep(tasks, Initial(tasks), acts, s);
      DispatchOrder(tasks, before, mid);
      InitialInv(tasks);
      LeadsKeepsInv(tasks, Initial(tasks), before, mid);
      if a.Schedule? && mid.run == Running {
        DispatchOrderGrows(tasks, Dispatches(before), mid.statuses, a.dispatched);
      } else {
        assert Dispatches(acts) == Dispatches(before);
        KeepsWaiting(tasks, mid, a, s);
      }
    }
  }

  /** Starting and reporting leave the waiting tasks as they are. */
  lemma KeepsWaiting(tasks: Tasks, s: RunState, a: Action, s': RunState)
    requires Step(tasks, s, a, s') && (a.Schedule? ==> s.run != Running)
    ensures forall t :: StatusOf(s'.statuses, t) == Pending <==> StatusOf(s.statuses, t) == Pending
  {
  }

  lemma DispatchListDistinct(tasks: Tasks, st: Statuses, l: seq<Id>)
    requires DispatchList(tasks, st, l)
    ensures Distinct(l)
  {
    forall i, j | 0 <= i < j < |l| ensures l[i] != l[j] {
      assert l[i] in l && l[j] in l;
      IdLessAsymmetric(tasks[l[i]].id, tasks[l[j]].id);
    }
  }

  lemma DispatchOrderGrows(tasks: Tasks, l: seq<Id>, st: Statuses, more: seq<Id>)
    requires Distinct(l) && DepsBefore(tasks, l) && st.Keys == tasks.Keys
    requires forall t :: t in l <==> t in tasks && StatusOf(st, t) != Pending
    requires DispatchList(tasks, st, more)
    ensures Distinct(l + more) && DepsBefore(tasks, l + more)
    ensures forall t :: t in l + more <==> t in tasks && StatusOf(Queue(tasks, st), t) != Pending
  {
    DispatchListDistinct(tasks, st, more);
    forall i, j | 0 <= i < |l| && 0 <= j < |more| ensures l[i] != more[j] {
      assert l[i] in l && more[j] in more;
    }
    var all := l + more;
    forall j, dep | 0 <= j < |all| && all[j] in tasks && dep in tasks[all[j]].dependencies ensures dep in all[..j] {
      if j < |l| {
        assert dep in l[..j] && all[..j] == l[..j];
      } else {
        assert more[j - |l|] in more;
        assert StatusOf(st, dep) == Success;
        assert all[..j] == l + more[..j - |l|];
      }
    }
  }

  /** The online order is a topological order of the DAG once every task has been dispatched. */
  lemma DispatchesAreTopological(tasks: Tasks, acts: seq<Action>, s: RunState)
    requires Leads(tasks, Initial(tasks), acts, s)
    requires forall t :: t in tasks ==> StatusOf(s.statuses, t) != Pending
    ensures TopologicalOrder(DependencyGraph(tasks), Dispatches(acts))
  {
    DispatchOrder(tasks, acts, s);
    var g, l := DependencyGraph(tasks), Dispatches(acts);
    forall i, j | 0 <= i < |l| && 0 <= j < |l| && (l[i], l[j]) in g.arcs ensures i < j {
      assert l[i] in l[..j];
      var k :| 0 <= k < j && l[k] == l[i];
    }
  }

  /** A terminal status is there because it was reported. */
  lemma {:induction false} TerminalWasReported(tasks: Tasks, acts: seq<Action>, s: RunState, t: Id)
    requires Leads(tasks, Initial(tasks), acts, s) && t in s.statuses && s.statuses[t].IsTerminal()
    ensures Report(t, s.statuses[t]) in acts
  {
    if acts == [] {
    } else {
      var before, a := acts[..|acts| - 1], acts[|acts| - 1];
      var mid := LastStep(tasks, Initial(tasks), acts, s);
      if a != Report(t, s.statuses[t]) {
        TerminalWasReported(tasks, before, mid, t);
      }
      assert acts == before + [a];
    }
  }

  /** Whatever a `Schedule` call returns, the Success reports of all its dependencies came before the call. */
  lemma {:induction false} DispatchAfterReports(tasks: Tasks, acts: seq<Action>, s: RunState, i: nat, t: Id, dep: Id)
    requires Leads(tasks, Initial(tasks), acts, s)
    requires i < |acts| && acts[i].Schedule? && t in acts[i].dispatched
    requires t in tasks && dep in tasks[t].dependencies
    ensures Report(dep, Success) in acts[..i]
  {
    var before, a := acts[..|acts| - 1], acts[|acts| - 1];
    var mid := LastStep(tasks, Initial(tasks), acts, s);
    if i == |acts| - 1 {
      assert mid.run == Running && Dispatchable(tasks, mid.statuses, t);
      TerminalWasReported(tasks, before, mid, dep);
    } else {
      DispatchAfterReports(tasks, before, mid, i, t, dep);
      assert before[..i] == acts[..i];
    }
  }

  // ---------------------------------------------------------------- progress

  /** Nothing is under way and nothing can be dispatched. */
  ghost predicate Quiet(tasks: Tasks, st: Statuses) {
    forall t {:trigger Dispatchable(tasks, st, t)} ::
      t in tasks ==> StatusOf(st, t) !in {Queued, Running} && !Dispatchable(tasks, st, t)
  }

  ghost predicate Unsuccessful(st: Statuses, u: Id) {
    u in st && st[u] in {Failed, Cancelled, Skipped}
  }

  ghost predicate Blocked(tasks: Tasks, st: Statuses, t: Id) {
    exists u :: Unsuccessful(st, u) && Reach(DependencyGraph(tasks), u, t)
  }

  /** In a quiet state exactly the tasks behind an unsuccessful one still wait; without one, everything succeeded. */
  lemma QuietMeansBlocked(tasks: Tasks, s: RunState, t: Id)
    requires Inv(tasks, s) && Quiet(tasks, s.statuses) && t in tasks
    requires Closed(DependencyGraph(tasks)) && Acyclic(DependencyGraph(tasks))
    ensures s.statuses[t] == Pending <==> Blocked(tasks, s.statuses, t)
  {
    var g := DependencyGraph(tasks);
    if u :| Unsuccessful(s.statuses, u) && Reach(g, u, t) {
      if s.statuses[t] != Pending {
        var p :| ChainFromTo(g, p, u, t);
        UpstreamOfChain(tasks, s, p);
      }
    }
    var stuck := Stuck(tasks, s.statuses);
    forall x | x in stuck ensures Preds(g, x) * stuck != {} {
      var dep := StuckHasStuckDep(tasks, s, x);
      PredsAreArcs(g, dep, x);
      assert dep in Preds(g, x) * stuck;
    }
    if stuck != {} {
      SourcelessMeansCycle(g, stuck);
    }
    assert t !in stuck;
  }

  ghost function Stuck(tasks: Tasks, st: Statuses): set<Id> {
    set x | x in tasks && StatusOf(st, x) == Pending && !Blocked(tasks, st, x)
  }

  lemma StuckHasStuckDep(tasks: Tasks, s: RunState, x: Id) returns (dep: Id)
    requires Inv(tasks, s) && Quiet(tasks, s.statuses) && Closed(DependencyGraph(tasks))
    requires x in Stuck(tasks, s.statuses)
    ensures (dep, x) in DependencyGraph(tasks).arcs && dep in Stuck(tasks, s.statuses)
  {
    hide Blocked, Leads;
    var g := DependencyGraph(tasks);
    assert !Dispatchable(tasks, s.statuses, x);
    dep :| dep in tasks[x].dependencies && StatusOf(s.statuses, dep) != Success;
    assert (dep, x) in g.arcs;
    assert !Dispatchable(tasks, s.statuses, dep);
    BlockedSpreads(tasks, s.statuses, dep, x);
  }

  lemma BlockedSpreads(tasks: Tasks, st: Statuses, dep: Id, x: Id)
    requires (dep, x) in DependencyGraph(tasks).arcs
    ensures Unsuccessful(st, dep) || Blocked(tasks, st, dep) ==> Blocked(tasks, st, x)
  {
    var g := DependencyGraph(tasks);
    ReachArc(g, dep, x);
    if u :| Unsuccessful(st, u) && Reach(g, u, dep) {
      ReachJoins(g, u, dep, x);
    }
  }

  /** When all is quiet, the next `Schedule` ends the run exactly if no unsuccessful task has a successor. */
  lemma QuietRunEnds(tasks: Tasks, s: RunState)
    requires Inv(tasks, s) && Quiet(tasks, s.statuses)
    requires Closed(DependencyGraph(tasks)) && Acyclic(DependencyGraph(tasks))
    ensures Scheduled(tasks, s).run != Running <==>
            forall a :: a in DependencyGraph(tasks).arcs ==> !Unsuccessful(s.statuses, a.0)
  {
    var g := DependencyGraph(tasks);
    QuietUnchanged(tasks, s);
    if forall a :: a in g.arcs ==> !Unsuccessful(s.statuses, a.0) {
      forall t | t in tasks ensures s.statuses[t] != Pending {
        NoFailureInside(tasks, s.statuses, t);
        QuietMeansBlocked(tasks, s, t);
      }
    } else {
      var a :| a in g.arcs && Unsuccessful(s.statuses, a.0);
      assert a == (a.0, a.1);
      BlockedSpreads(tasks, s.statuses, a.0, a.1);
      QuietMeansBlocked(tasks, s, a.1);
    }
  }

  lemma QuietUnchanged(tasks: Tasks, s: RunState)
    requires Inv(tasks, s) && Quiet(tasks, s.statuses)
    ensures Queue(tasks, s.statuses) == s.statuses
    ensures Scheduled(tasks, s).run != Running <==> forall t :: t in tasks ==> s.statuses[t] != Pending
  {
  }

  lemma NoFailureInside(tasks: Tasks, st: Statuses, t: Id)
    requires forall a :: a in DependencyGraph(tasks).arcs ==> !Unsuccessful(st, a.0)
    ensures !Blocked(tasks, st, t)
  {
    var g := DependencyGraph(tasks);
    forall u | Unsuccessful(st, u) ensures !Reach(g, u, t) {
      forall p | ChainFromTo(g, p, u, t) ensures (p[0], p[1]) in g.arcs {
      }
    }
  }

  /** A failed, cancelled or skipped task with a successor keeps the run from ever ending. */
  lemma FailureInsideNeverEnds(tasks: Tasks, before: seq<Action>, s: RunState, after: seq<Action>, s': RunState,
                               u: Id, t: Id)
    requires Leads(tasks, Initial(tasks), before, s) && Leads(tasks, s, after, s')
    requires Unsuccessful(s.statuses, u) && (u, t) in DependencyGraph(tasks).arcs
    ensures s'.run == Running
  {
    ReachArc(DependencyGraph(tasks), u, t);
    FailureBlocksDownstream(tasks, before, s, after, s', u, t);
    InitialInv(tasks);
    LeadsKeepsInv(tasks, Initial(tasks), before, s);
    LeadsKeepsInv(tasks, s, after, s');
    assert t in tasks && !s'.statuses[t].IsTerminal();
  }

  /** No deadlock: with nothing under way and nothing unsuccessful, all is done or something can be dispatched. */
  lemma NoDeadlock(tasks: Tasks, acts: seq<Action>, s: RunState)
    requires Leads(tasks, Initial(tasks), acts, s)
    requires Closed(DependencyGraph(tasks)) && Acyclic(DependencyGraph(tasks))
    requires forall t :: t in tasks ==> StatusOf(s.statuses, t) in {Pending, Success}
    ensures (forall t :: t in tasks ==> StatusOf(s.statuses, t) == Success)
            || exists t :: Dispatchable(tasks, s.statuses, t)
  {
    InitialInv(tasks);
    LeadsKeepsInv(tasks, Initial(tasks), acts, s);
    if Quiet(tasks, s.statuses) {
      forall t | t in tasks ensures StatusOf(s.statuses, t) == Success {
        NothingBlocks(tasks, s.statuses, t);
        QuietMeansBlocked(tasks, s, t);
      }
    }
  }

  lemma NothingBlocks(tasks: Tasks, st: Statuses, t: Id)
    requires forall u :: u in st ==> st[u] !in {Failed, Cancelled, Skipped}
    ensures !Blocked(tasks, st, t)
  {
  }

  /** Steps a task can still make. */
  function Rank(x: Status): nat {
    match x
    case Pending => 3
    case Queued => 2
    case Running => 1
    case _ => 0
  }

  ghost function Work(st: Statuses, s: set<Id>): nat {
    if s == {} then 0
    else
      var t :| t in s;
      Rank(StatusOf(st, t)) + Work(st, s - {t})
  }

  /** If exactly the members of `d` lose at least one rank, the work falls by at least their number. */
  lemma {:induction false} WorkFalls(st: Statuses, st': Statuses, s: set<Id>, d: set<Id>)
    requires d <= s
    requires forall t :: t in s ==> Rank(StatusOf(st', t)) + (if t in d then 1 else 0) <= Rank(StatusOf(st, t))
    ensures Work(st', s) + |d| <= Work(st, s)
  {
    if s == {} {
    } else {
      WorkPick(st, st', s);
      var t :| t in s && Work(st, s) == Rank(StatusOf(st, t)) + Work(st, s - {t})
               && Work(st', s) == Rank(StatusOf(st', t)) + Work(st', s - {t});
      WorkFalls(st, st', s - {t}, d - {t});
    }
  }

  lemma WorkPick(st: Statuses, st': Statuses, s: set<Id>)
    requires s != {}
    ensures exists t :: t in s && Work(st, s) == Rank(StatusOf(st, t)) + Work(st, s - {t})
                        && Work(st', s) == Rank(StatusOf(st', t)) + Work(st', s - {t})
  {
  }

  lemma {:induction false} WorkRemove(st: Statuses, s: set<Id>, t: Id)
    requires t in s
    ensures Work(st, s) == Rank(StatusOf(st, t)) + Work(st, s - {t})
  {
    var u :| u in s && Work(st, s) == Rank(StatusOf(st, u)) + Work(st, s - {u});
    if u == t {
    } else {
      WorkRemove(st, s - {u}, t);
      WorkRemove(st, s - {t}, u);
      assert s - {u} - {t} == s - {t} - {u};
    }
  }

  /** Status changes made: one per task dispatched, started or reported. */
  ghost function Changes(acts: seq<Action>): nat {
    if acts == [] then 0
    else
      var last := acts[|acts| - 1];
      Changes(acts[..|acts| - 1]) + if last.Schedule? then |last.dispatched| else 1
  }

  lemma StepCostsWork(tasks: Tasks, s: RunState, a: Action, s': RunState)
    requires Inv(tasks, s) && Step(tasks, s, a, s')
    ensures Work(s'.statuses, tasks.Keys) + (if a.Schedule? then |a.dispatched| else 1) <= Work(s.statuses, tasks.Keys)
  {
    var changed := match a
      case Schedule(l) => set t | t in l
      case Start(t) => {t}
      case Report(t, _) => {t};
    if a.Schedule? {
      if s.run == Running {
        DispatchListDistinct(tasks, s.statuses, a.dispatched);
      }
      SetOfDistinct(a.dispatched);
    }
    forall t | t in tasks.Keys
      ensures Rank(StatusOf(s'.statuses, t)) + (if t in changed then 1 else 0) <= Rank(StatusOf(s.statuses, t))
    {
      if a.Schedule? && s.run == Running {
        assert t in a.dispatched <==> Dispatchable(tasks, s.statuses, t);
      }
    }
    WorkFalls(s.statuses, s'.statuses, tasks.Keys, changed);
  }

  lemma {:induction false} WorkIsBounded(st: Statuses, s: set<Id>)
    ensures Work(st, s) <= 3 * |s|
  {
    if s == {} {
    } else {
      var t :| t in s;
      WorkRemove(st, s, t);
      WorkIsBounded(st, s - {t});
      assert |s - {t}| == |s| - 1;
    }
  }

  lemma {:induction false} ChangesCostWork(tasks: Tasks, s: RunState, acts: seq<Action>, s': RunState)
    requires Inv(tasks, s) && Leads(tasks, s, acts, s')
    ensures Changes(acts) + Work(s'.statuses, tasks.Keys) <= Work(s.statuses, tasks.Keys)
  {
    if acts == [] {
    } else {
      var mid := LastStep(tasks, s, acts, s');
      ChangesCostWork(tasks, s, acts[..|acts| - 1], mid);
      LeadsKeepsInv(tasks, s, acts[..|acts| - 1], mid);
      StepCostsWork(tasks, mid, acts[|acts| - 1], s');
    }
  }

  /** A run of `n` tasks makes at most `3 * n` status changes, whatever happens. */
  lemma BoundedWork(tasks: Tasks, acts: seq<Action>, s: RunState)
    requires Leads(tasks, Initial(tasks), acts, s)
    ensures Changes(acts) <= 3 * |tasks|
  {
    InitialInv(tasks);
    ChangesCostWork(tasks, Initial(tasks), acts, s);
    WorkIsBounded(Initial(tasks).statuses, tasks.Keys);
    assert |tasks.Keys| == |tasks|;
  }
}
