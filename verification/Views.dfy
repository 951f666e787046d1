/** How the instance table of the store appears to one run, and how it changes when instances change status. */
module Views {
  import opened Ordering
  import opened DagTypes
  import opened RunMachine
  import opened Store

  /** Each run has at most one instance per task. */
  ghost predicate OnePerTask(m: Instances) {
    forall a, b :: a in m && b in m && m[a].runID == m[b].runID && m[a].taskID == m[b].taskID ==> a == b
  }

  ghost predicate HasInstance(m: Instances, r: RunID, t: Id) {
    exists k :: k in m && m[k].runID == r && m[k].taskID == t
  }

  ghost function InstanceOf(m: Instances, r: RunID, t: Id): (k: InstanceID)
    requires HasInstance(m, r, t)
    ensures k in m && m[k].runID == r && m[k].taskID == t
  {
    var k :| k in m && m[k].runID == r && m[k].taskID == t;
    k
  }

  ghost function TaskIDs(m: Instances, r: RunID): set<Id> {
    set k | k in m && m[k].runID == r :: m[k].taskID
  }

  /** The statuses of one run, by task. */
  ghost function StatusesOf(m: Instances, r: RunID): Statuses {
    map t | t in TaskIDs(m, r) :: m[InstanceOf(m, r, t)].status
  }

  lemma StatusOfInstance(m: Instances, r: RunID, k: InstanceID)
    requires OnePerTask(m) && k in m && m[k].runID == r
    ensures m[k].taskID in StatusesOf(m, r) && StatusesOf(m, r)[m[k].taskID] == m[k].status
  {
  }

  /** What an instance is, as opposed to how far it has got. */
  function Identity(ti: TaskInstance): (InstanceID, RunID, Id, string, string) {
    (ti.id, ti.runID, ti.taskID, ti.dagID, ti.idempotencyKey)
  }

  /** `m'` holds the same instances, and only those of run `r` may have moved on. */
  ghost predicate KeepsIdentity(m: Instances, m': Instances, r: RunID) {
    && m'.Keys == m.Keys
    && (forall k :: k in m ==> Identity(m'[k]) == Identity(m[k]))
    && (forall k :: k in m && m[k].runID != r ==> m'[k] == m[k])
  }

  /** `m'` is `m` but for waiting instances of run `r` that have been queued. */
  ghost predicate OnlyQueues(m: Instances, m': Instances, r: RunID) {
    m'.Keys == m.Keys && forall k :: k in m ==> m'[k] == m[k] || (m[k].runID == r && IsQueued(m[k], m'[k]))
  }

  predicate IsQueued(was: TaskInstance, now: TaskInstance) {
    was.status == Pending && now == was.(status := Queued)
  }

  lemma OnlyQueuesKeeps(m: Instances, m': Instances, r: RunID)
    requires OnlyQueues(m, m', r)
    ensures KeepsIdentity(m, m', r)
  {
  }

  lemma NothingQueued(m: Instances, r: RunID)
    ensures OnlyQueues(m, m, r)
  {
  }

  lemma OnlyQueuesJoins(a: Instances, b: Instances, c: Instances, r: RunID)
    requires OnlyQueues(a, b, r) && OnlyQueues(b, c, r)
    ensures OnlyQueues(a, c, r)
  {
  }

  lemma KeepsIdentityOthers(m: Instances, m': Instances, r: RunID, other: RunID)
    requires KeepsIdentity(m, m', r) && OnePerTask(m)
    ensures OnePerTask(m') && (FiledById(m) ==> FiledById(m'))
    ensures StatusesOf(m', other).Keys == StatusesOf(m, other).Keys
    ensures other != r ==> StatusesOf(m', other) == StatusesOf(m, other)
  {
  }

  // ---------------------------------------------------------------- the listing of one run

  /** `l` shows the statuses `st`, one task each. */
  ghost predicate Shows(l: seq<TaskInstance>, st: Statuses) {
    && (forall x :: 0 <= x < |l| ==> l[x].taskID in st && st[l[x].taskID] == l[x].status)
    && (forall t :: t in st ==> exists x :: 0 <= x < |l| && l[x].taskID == t)
  }

  /** `l` holds copies of all instances of run `r`, in step with the store, no task twice. */
  ghost predicate Mirrors(m: Instances, r: RunID, l: seq<TaskInstance>) {
    && (forall x :: 0 <= x < |l| ==> l[x].id in m && m[l[x].id] == l[x] && l[x].runID == r)
    && (forall k :: k in m && m[k].runID == r ==> m[k] in l)
    && (forall x, y :: 0 <= x < y < |l| ==> l[x].taskID != l[y].taskID)
  }

  lemma ListingMirrors(m: Instances, r: RunID, l: seq<TaskInstance>)
    requires FiledById(m) && OnePerTask(m) && ListsRun(m, r, l)
    ensures Mirrors(m, r, l)
  {
  }

  lemma MirrorShows(m: Instances, r: RunID, l: seq<TaskInstance>)
    requires OnePerTask(m) && Mirrors(m, r, l)
    ensures Shows(l, StatusesOf(m, r))
  {
  }

  lemma ShowsUnique(l: seq<TaskInstance>, a: Statuses, b: Statuses)
    requires Shows(l, a) && Shows(l, b)
    ensures a == b
  {
  }

  /** Writing one listed instance back with a new status. */
  lemma MirrorUpdate(m: Instances, r: RunID, l: seq<TaskInstance>, x: nat, status: Status)
    requires FiledById(m) && OnePerTask(m) && Mirrors(m, r, l) && x < |l|
    ensures var ti := l[x].(status := status);
            Mirrors(m[ti.id := ti], r, l[x := ti]) && KeepsIdentity(m, m[ti.id := ti], r)
  {
    var ti := l[x].(status := status);
    var m', l' := m[ti.id := ti], l[x := ti];
    forall y | 0 <= y < |l'| ensures l'[y].id in m' && m'[l'[y].id] == l'[y] && l'[y].runID == r {
      assert y != x ==> l[y].id != l[x].id;
    }
    forall k | k in m' && m'[k].runID == r ensures m'[k] in l' {
      if k != ti.id {
        assert m[k] in l;
        var y :| 0 <= y < |l| && l[y] == m[k];
        assert l'[y] == m'[k];
      } else {
        assert l'[x] == m'[k];
      }
    }
  }

  /** Giving one instance a new record changes the status of its task in its run, and nothing else. */
  lemma InstanceUpdate(m: Instances, ti: TaskInstance)
    requires FiledById(m) && OnePerTask(m) && ti.id in m && Identity(ti) == Identity(m[ti.id])
    ensures KeepsIdentity(m, m[ti.id := ti], ti.runID)
    ensures ti.taskID in StatusesOf(m, ti.runID)
    ensures StatusesOf(m[ti.id := ti], ti.runID) == StatusesOf(m, ti.runID)[ti.taskID := ti.status]
  {
    hide StatusesOf, OnePerTask;
    var m', r := m[ti.id := ti], ti.runID;
    KeepsIdentityOthers(m, m', r, r);
    StatusOfInstance(m, r, ti.id);
    forall t | t in StatusesOf(m, r)
      ensures StatusesOf(m', r)[t] == if t == ti.taskID then ti.status else StatusesOf(m, r)[t]
    {
      UpdatedStatus(m, ti, t);
    }
  }

  /** So it is a step of that run's machine if the status change is one, and no other run notices. */
  lemma UpdateIsStep(tasks: Tasks, m: Instances, ti: TaskInstance, run: Status, other: RunID)
    requires FiledById(m) && OnePerTask(m) && ti.id in m && Identity(ti) == Identity(m[ti.id])
    ensures var s := RunState(StatusesOf(m, ti.runID), run);
            var s' := RunState(StatusesOf(m[ti.id := ti], ti.runID), run);
            && (m[ti.id].status == Queued && ti.status == Running ==> Step(tasks, s, Start(ti.taskID), s'))
            && (m[ti.id].status in {Queued, Running} && ti.status.IsTerminal() ==>
                  Step(tasks, s, Report(ti.taskID, ti.status), s'))
            && (m[ti.id].status == ti.status ==> s' == s)
    ensures other != ti.runID ==> StatusesOf(m[ti.id := ti], other) == StatusesOf(m, other)
  {
    hide StatusesOf, OnePerTask, KeepsIdentity;
    InstanceUpdate(m, ti);
    StatusOfInstance(m, ti.runID, ti.id);
    KeepsIdentityOthers(m, m[ti.id := ti], ti.runID, other);
  }

  lemma UpdatedStatus(m: Instances, ti: TaskInstance, t: Id)
    requires OnePerTask(m) && ti.id in m && Identity(ti) == Identity(m[ti.id]) && OnePerTask(m[ti.id := ti])
    requires t in StatusesOf(m, ti.runID)
    ensures t in StatusesOf(m[ti.id := ti], ti.runID)
    ensures StatusesOf(m[ti.id := ti], ti.runID)[t] ==
            if t == ti.taskID then ti.status else StatusesOf(m, ti.runID)[t]
  {
    var k := InstanceOf(m, ti.runID, t);
    StatusOfInstance(m[ti.id := ti], ti.runID, k);
    assert t == ti.taskID <==> k == ti.id;
  }

  // ---------------------------------------------------------------- dispatched instances of one run

  /** The tasks of the listed instances that belong to run `r`, in order. */
  ghost function Project(l: seq<TaskInstance>, r: RunID): seq<Id> {
    if l == [] then []
    else
      var last := l[|l| - 1];
      Project(l[..|l| - 1], r) + if last.runID == r then [last.taskID] else []
  }

  lemma {:induction false} ProjectJoins(a: seq<TaskInstance>, b: seq<TaskInstance>, r: RunID)
    ensures Project(a + b, r) == Project(a, r) + Project(b, r)
  {
    if b == [] {
      assert a + b == a;
    } else {
      ProjectJoins(a, b[..|b| - 1], r);
      assert (a + b)[..|a + b| - 1] == a + b[..|b| - 1];
    }
  }

  /** Listed instances of run `r` keep their order. */
  lemma {:induction false} ProjectKeepsOrder(l: seq<TaskInstance>, r: RunID, x: nat, y: nat) returns (i: nat, j: nat)
    requires x <= y < |l| && l[x].runID == l[y].runID == r
    ensures i <= j < |Project(l, r)| && (x < y ==> i < j)
    ensures Project(l, r)[i] == l[x].taskID && Project(l, r)[j] == l[y].taskID
  {
    var rest := l[..|l| - 1];
    if y < |l| - 1 {
      i, j := ProjectKeepsOrder(rest, r, x, y);
    } else {
      j := |Project(rest, r)|;
      i := j;
      if x < y {
        var last;
        i, last := ProjectKeepsOrder(rest, r, x, x);
      }
    }
  }

  /** What is in the projection comes from an instance of run `r`. */
  lemma {:induction false} ProjectedFrom(l: seq<TaskInstance>, r: RunID, t: Id)
    requires t in Project(l, r)
    ensures exists x :: 0 <= x < |l| && l[x].runID == r && l[x].taskID == t
  {
    var rest, last := l[..|l| - 1], l[|l| - 1];
    if last.runID != r || last.taskID != t {
      ProjectedFrom(rest, r, t);
      var x :| 0 <= x < |rest| && rest[x].runID == r && rest[x].taskID == t;
      assert l[x] == rest[x];
    }
  }

  lemma {:induction false} ProjectOwn(l: seq<TaskInstance>, r: RunID)
    requires forall x :: 0 <= x < |l| ==> l[x].runID == r
    ensures |Project(l, r)| == |l| && forall x :: 0 <= x < |l| ==> Project(l, r)[x] == l[x].taskID
  {
    if l == [] {
    } else {
      ProjectOwn(l[..|l| - 1], r);
    }
  }

  lemma {:induction false} ProjectOther(l: seq<TaskInstance>, r: RunID)
    requires forall x :: 0 <= x < |l| ==> l[x].runID != r
    ensures Project(l, r) == []
  {
    if l == [] {
    } else {
      ProjectOther(l[..|l| - 1], r);
    }
  }
}
