/** What a run comes to, given what each of its tasks would come to if it were executed. */
module Outcomes {
  import opened Ordering
  import opened Graphs
  import opened DagTypes
  import opened RunMachine

  type Outcomes = map<Id, Status>

  ghost predicate AncestorsSucceed(g: Graph, out: Outcomes, t: Id) {
    forall u :: Reach(g, u, t) ==> StatusOf(out, u) == Success
  }

  ghost predicate AllTerminalOutcomes(out: Outcomes) {
    forall t :: t in out ==> out[t].IsTerminal()
  }

  /** All ancestors succeed when all direct dependencies and their ancestors do. */
  lemma AncestorsByDeps(g: Graph, out: Outcomes, t: Id)
    ensures AncestorsSucceed(g, out, t) <==>
            forall u :: u in Preds(g, t) ==> StatusOf(out, u) == Success && AncestorsSucceed(g, out, u)
  {
    forall u ensures u in Preds(g, t) <==> (u, t) in g.arcs {
      PredsAreArcs(g, u, t);
    }
    if AncestorsSucceed(g, out, t) {
      forall u | u in Preds(g, t) ensures StatusOf(out, u) == Success && AncestorsSucceed(g, out, u) {
        ReachArc(g, u, t);
        forall w | Reach(g, w, u) ensures StatusOf(out, w) == Success {
          ReachJoins(g, w, u, t);
        }
      }
    }
    if forall u :: u in Preds(g, t) ==> StatusOf(out, u) == Success && AncestorsSucceed(g, out, u) {
      forall u | Reach(g, u, t) ensures StatusOf(out, u) == Success {
        ReachLastArc(g, u, t);
        var w :| (w, t) in g.arcs && (u == w || Reach(g, u, w));
      }
    }
  }

  /** Every task other tasks depend on succeeds. */
  ghost predicate InnerTasksSucceed(g: Graph, out: Outcomes) {
    forall a :: a in g.arcs ==> StatusOf(out, a.0) == Success
  }

  lemma InnerMeansAncestors(g: Graph, out: Outcomes)
    requires Closed(g)
    ensures InnerTasksSucceed(g, out) <==> forall t :: t in g.nodes ==> AncestorsSucceed(g, out, t)
  {
    if InnerTasksSucceed(g, out) {
      forall t, u | Reach(g, u, t) ensures StatusOf(out, u) == Success {
        var p :| ChainFromTo(g, p, u, t);
        assert (p[0], p[1]) in g.arcs;
      }
    }
    if forall t :: t in g.nodes ==> AncestorsSucceed(g, out, t) {
      forall a | a in g.arcs ensures StatusOf(out, a.0) == Success {
        assert a == (a.0, a.1);
        ReachArc(g, a.0, a.1);
      }
    }
  }

  /** The statuses a run is left with: what had only successful ancestors was executed, the rest still waits. */
  ghost predicate FinalStatuses(tasks: Tasks, out: Outcomes, st: Statuses)
    requires out.Keys == tasks.Keys
  {
    && st.Keys == tasks.Keys
    && forall t :: t in tasks ==> st[t] == if AncestorsSucceed(DependencyGraph(tasks), out, t) then out[t] else Pending
  }

  /** The end status of a run whose tasks all ended: Failed exactly if one of them Failed. */
  function EndStatus(out: Outcomes): Status {
    if AnyFailed(out) then Failed else Success
  }

  // ---------------------------------------------------------------- any order of execution

  /** Every report says what `out` says of its task. */
  ghost predicate Reports(acts: seq<Action>, out: Outcomes) {
    forall a :: a in acts && a.Report? ==> StatusOf(out, a.task) == a.status
  }

  /**
   However starts, reports and calls to `Schedule` interleave: once nothing is under way and nothing can be dispatched,
   exactly the tasks with only successful ancestors have been executed.
   */
  lemma QuietIsFinal(tasks: Tasks, out: Outcomes, acts: seq<Action>, s: RunState)
    requires Leads(tasks, Initial(tasks), acts, s) && out.Keys == tasks.Keys && Reports(acts, out)
    requires Closed(DependencyGraph(tasks)) && Acyclic(DependencyGraph(tasks)) && Quiet(tasks, s.statuses)
    ensures FinalStatuses(tasks, out, s.statuses)
  {
    hide Acyclic, Closed, Blocked;
    InitialInv(tasks);
    LeadsKeepsInv(tasks, Initial(tasks), acts, s);
    forall t | t in tasks
      ensures s.statuses[t] == if AncestorsSucceed(DependencyGraph(tasks), out, t) then out[t] else Pending
    {
      QuietMeansBlocked(tasks, s, t);
      if s.statuses[t] == Pending {
        WaitingIsBehindFailure(tasks, out, acts, s, t);
      } else {
        assert !Dispatchable(tasks, s.statuses, t);
        ExecutedIsReported(tasks, out, acts, s, t);
      }
    }
  }

  lemma WaitingIsBehindFailure(tasks: Tasks, out: Outcomes, acts: seq<Action>, s: RunState, t: Id)
    requires Leads(tasks, Initial(tasks), acts, s) && Reports(acts, out) && Blocked(tasks, s.statuses, t)
    ensures !AncestorsSucceed(DependencyGraph(tasks), out, t)
  {
    var u :| Unsuccessful(s.statuses, u) && Reach(DependencyGraph(tasks), u, t);
    TerminalWasReported(tasks, acts, s, u);
    assert StatusOf(out, u) == s.statuses[u];
  }

  lemma ExecutedIsReported(tasks: Tasks, out: Outcomes, acts: seq<Action>, s: RunState, t: Id)
    requires Leads(tasks, Initial(tasks), acts, s) && Reports(acts, out)
    requires t in s.statuses && s.statuses[t].IsTerminal()
    ensures StatusOf(out, t) == s.statuses[t] && AncestorsSucceed(DependencyGraph(tasks), out, t)
  {
    TerminalWasReported(tasks, acts, s, t);
    forall u | Reach(DependencyGraph(tasks), u, t) ensures StatusOf(out, u) == Success {
      UpstreamSucceeded(tasks, acts, s, u, t);
      TerminalWasReported(tasks, acts, s, u);
    }
  }

  /** Then the next call ends the run exactly if every inner task succeeds, as Failed exactly if a task failed. */
  lemma QuietEndsExactly(tasks: Tasks, out: Outcomes, acts: seq<Action>, s: RunState)
    requires Leads(tasks, Initial(tasks), acts, s) && out.Keys == tasks.Keys && Reports(acts, out)
    requires Closed(DependencyGraph(tasks)) && Acyclic(DependencyGraph(tasks)) && Quiet(tasks, s.statuses)
    requires AllTerminalOutcomes(out)
    ensures Scheduled(tasks, s).run ==
            if InnerTasksSucceed(DependencyGraph(tasks), out) then EndStatus(out) else Running
  {
    InitialInv(tasks);
    LeadsKeepsInv(tasks, Initial(tasks), acts, s);
    QuietIsFinal(tasks, out, acts, s);
    InnerMeansAncestors(DependencyGraph(tasks), out);
    QuietScheduled(tasks, s);
    FinalRunStatus(tasks, out, s.statuses);
  }

  lemma FinalRunStatus(tasks: Tasks, out: Outcomes, st: Statuses)
    requires out.Keys == tasks.Keys && FinalStatuses(tasks, out, st) && AllTerminalOutcomes(out)
    ensures RunStatus(st) == if forall t :: t in tasks ==> AncestorsSucceed(DependencyGraph(tasks), out, t)
                             then EndStatus(out) else Running
  {
    if forall t :: t in tasks ==> AncestorsSucceed(DependencyGraph(tasks), out, t) {
      assert st == out;
    }
  }

  /** Two runs of one DAG with the same outcomes end up the same, whatever happened in between. */
  lemma OrderDoesNotMatter(tasks: Tasks, out: Outcomes, acts: seq<Action>, s: RunState, acts': seq<Action>,
                           s': RunState)
    requires Leads(tasks, Initial(tasks), acts, s) && Leads(tasks, Initial(tasks), acts', s')
    requires out.Keys == tasks.Keys && Reports(acts, out) && Reports(acts', out)
    requires Closed(DependencyGraph(tasks)) && Acyclic(DependencyGraph(tasks))
    requires Quiet(tasks, s.statuses) && Quiet(tasks, s'.statuses)
    ensures s.statuses == s'.statuses && Scheduled(tasks, s) == Scheduled(tasks, s')
  {
    hide Leads, Inv, Quiet, FinalStatuses, Scheduled, Closed, Acyclic;
    QuietIsFinal(tasks, out, acts, s);
    QuietIsFinal(tasks, out, acts', s');
    FinalUnique(tasks, out, s.statuses, s'.statuses);
    InitialInv(tasks);
    LeadsKeepsInv(tasks, Initial(tasks), acts, s);
    LeadsKeepsInv(tasks, Initial(tasks), acts', s');
    QuietScheduled(tasks, s);
    QuietScheduled(tasks, s');
  }

  lemma FinalUnique(tasks: Tasks, out: Outcomes, a: Statuses, b: Statuses)
    requires out.Keys == tasks.Keys && FinalStatuses(tasks, out, a) && FinalStatuses(tasks, out, b)
    ensures a == b
  {
  }

  /** A call to `Schedule` in a quiet state does no more than the completion check. */
  lemma QuietScheduled(tasks: Tasks, s: RunState)
    requires Inv(tasks, s) && Quiet(tasks, s.statuses)
    ensures Scheduled(tasks, s) == RunState(s.statuses, RunStatus(s.statuses))
  {
    QuietUnchanged(tasks, s);
  }
}
