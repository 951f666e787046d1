/** The retry loop of internal/worker/worker.go, over the store and the dead letter queue it writes to. */
module Worker {
  import opened DagTypes
  import opened Store
  import opened Views
  import opened DeadLetter
  import Retry

  datatype ExecResult = ExecResult(status: Status, error: Option<string>)

  /** What an executor returns; either part may be absent. */
  datatype Reply = Reply(result: Option<ExecResult>, err: Option<string>)

  /** The environment of one execution, by attempt: the executor's replies, and how the wait before it went. */
  datatype Script = Script(replies: nat -> Reply, cancelled: nat -> bool, draws: nat -> real, overflow: int)

  /** Executors never return neither. */
  ghost predicate Answers(s: Script) {
    forall i :: s.replies(i).result.Some? || s.replies(i).err.Some?
  }

  predicate Succeeds(r: Reply) {
    r.err.None? && r.result.Some? && r.result.value.status == Success
  }

  /** A well-behaved reply: either an error, or a terminal result. */
  predicate Proper(r: Reply) {
    if r.err.Some? then r.result.None? else r.result.Some? && r.result.value.status.IsTerminal()
  }

  function MaxAttempts(rp: Option<RetryPolicy>): int {
    if rp.Some? then rp.value.maxRetries + 1 else 1
  }

  /** The backoff the worker uses, whatever the task asks for: exponential, with jitter. */
  function BackoffPolicy(rp: RetryPolicy): Retry.Policy {
    Retry.Policy(0, rp.initialBackoff, rp.maxBackoff, rp.backoffFactor, Retry.Exponential, true, None)
  }

  function Backoff(rp: Option<RetryPolicy>, s: Script, attempt: nat): int {
    if rp.None? then 0 else Retry.Delay(BackoffPolicy(rp.value), attempt, s.overflow, s.draws(attempt + 1))
  }

  /** The waits between `n + 1` executions. */
  function Waited(rp: Option<RetryPolicy>, s: Script, n: nat): seq<int> {
    if rp.None? then seq(n, _ => 0) else Retry.Waits(BackoffPolicy(rp.value), n, s.overflow, s.draws)
  }

  /** `n` executions are made: attempts go on until one succeeds, they run out, or a wait is cancelled. */
  ghost predicate Stops(max: int, s: Script, n: nat) {
    && (n == 0 <==> max <= 0)
    && (n > 0 ==> n <= max)
    && (forall i: nat :: i < n - 1 ==> !Succeeds(s.replies(i)))
    && (forall i: nat :: 0 < i < n ==> !s.cancelled(i))
    && (0 < n < max ==> Succeeds(s.replies(n - 1)) || s.cancelled(n))
  }

  /** The wait after execution `n` was cut short. */
  predicate CutShort(max: int, s: Script, n: nat) {
    0 < n < max && !Succeeds(s.replies(n - 1))
  }

  /** The instance as the loop leaves it: the last reply decides. */
  function Settled(ti: TaskInstance, max: int, s: Script, n: nat): TaskInstance {
    var ti := if n > 1 then ti.(attempt := n) else ti;
    if CutShort(max, s, n) then ti.(status := Failed, error := "context cancelled during retry")
    else if n == 0 then ti
    else AfterReply(ti, s.replies(n - 1))
  }

  /** A result counts even when it comes with an error. */
  function AfterReply(ti: TaskInstance, r: Reply): TaskInstance {
    match r
    case Reply(Some(result), _) =>
      ti.(status := result.status, error := if result.error.Some? then result.error.value else ti.error)
    case Reply(None, Some(err)) => ti.(status := Failed, error := err)
    case Reply(None, None) => ti
  }

  function NoDag(dag: string): string { "get DAG: DAG \"" + dag + "\" not found" }

  function NoTask(task: string): string { "task " + task + " not found in DAG" }

  function NoExecutorOf(executor: string): string { "get executor: executor type \"" + executor + "\" not registered" }

  function Letter(ti: TaskInstance): DLQEntry {
    DLQEntry(ti.taskID, ti.runID, ti.error, ti.attempt)
  }

  /** The instance table after an update, which only existing instances get. */
  function Recorded(m: Instances, ti: TaskInstance): Instances {
    if ti.id in m then m[ti.id := ti] else m
  }

  // ---------------------------------------------------------------- how tasks end

  lemma StopsOnce(max: int, s: Script, n: nat, n': nat)
    requires Stops(max, s, n) && Stops(max, s, n')
    ensures n == n'
  {
  }

  /** Attempt `i` brings a Success result and no error, and no wait before it is cancelled. */
  predicate WouldSucceed(s: Script, i: nat) {
    && s.replies(i).err.None? && s.replies(i).result.Some? && s.replies(i).result.value.status == Success
    && forall j :: 0 < j <= i ==> !s.cancelled(j)
  }

  /** Attempt `i` is one of those that the retry count allows; without a policy there is one. */
  predicate Allowed(rp: Option<RetryPolicy>, i: int) {
    0 <= i && if rp.Some? then i <= rp.value.maxRetries else i == 0
  }

  /** No allowed attempt succeeds, no wait is cancelled, and the last attempt brings a Success result with an error. */
  ghost predicate Contradictory(rp: Option<RetryPolicy>, s: Script) {
    && (forall i: nat :: Allowed(rp, i) ==> !WouldSucceed(s, i))
    && (forall i :: i > 0 && Allowed(rp, i) ==> !s.cancelled(i))
    && exists i: nat :: Allowed(rp, i) && !Allowed(rp, i + 1) && s.replies(i).err.Some?
                        && s.replies(i).result.Some? && s.replies(i).result.value.status == Success
  }

  /**
   A task ends in Success exactly when one of the allowed attempts succeeds, or the last one returns a successful
   result together with an error: the error then asks for a retry, but the result decides the status.
   */
  lemma SuccessExactly(ti: TaskInstance, rp: Option<RetryPolicy>, s: Script, n: nat)
    requires Stops(MaxAttempts(rp), s, n) && Answers(s) && ti.status == Running
    ensures Settled(ti, MaxAttempts(rp), s, n).status == Success <==>
            (exists i: nat :: Allowed(rp, i) && WouldSucceed(s, i)) || Contradictory(rp, s)
  {
    var max := MaxAttempts(rp);
    AllowedAttempts(rp);
    if n > 0 && Succeeds(s.replies(n - 1)) {
      assert WouldSucceed(s, n - 1);
    }
    forall i: nat | i < max && WouldSucceed(s, i) ensures n > 0 && Succeeds(s.replies(n - 1)) {
      assert n <= i ==> !s.cancelled(n);
      assert i < n - 1 ==> !Succeeds(s.replies(i));
    }
    if n > 0 && n == max && !Succeeds(s.replies(n - 1)) {
      assert Allowed(rp, n - 1) && !Allowed(rp, n);
    }
  }

  lemma AllowedAttempts(rp: Option<RetryPolicy>)
    ensures forall i :: Allowed(rp, i) <==> 0 <= i < MaxAttempts(rp)
  {
  }

  /** `n` executions, in terms of the retry count: without a policy one, with a negative count none. */
  ghost predicate Counted(rp: Option<RetryPolicy>, s: Script, n: nat) {
    && (rp.None? ==> n == 1)
    && (n == 0 <==> rp.Some? && rp.value.maxRetries < 0)
    && (rp.Some? && n > 0 ==> n <= rp.value.maxRetries + 1)
    && (forall i: nat :: Allowed(rp, i) && WouldSucceed(s, i) ==> n <= i + 1)
    && (rp.Some? && rp.value.maxRetries >= 0 && NeverCancelled(s)
        && (forall i: nat :: i <= rp.value.maxRetries ==> !WouldSucceed(s, i)) ==>
          n == rp.value.maxRetries + 1)
  }

  ghost predicate NeverCancelled(s: Script) {
    forall i :: !s.cancelled(i)
  }

  /** The wait for execution `n + 1`, which was due, was cancelled. */
  ghost predicate Interrupted(rp: Option<RetryPolicy>, s: Script, n: nat) {
    n > 0 && Allowed(rp, n) && s.cancelled(n) && !WouldSucceed(s, n - 1)
  }

  /** What `n` executions make of the instance `start`, field by field. */
  ghost predicate EndsAsScripted(rp: Option<RetryPolicy>, s: Script, start: TaskInstance, end: TaskInstance, n: nat) {
    && Counted(rp, s, n)
    && Identity(end) == Identity(start) && end.workerID == start.workerID
    && (n == 0 ==> end == start)
    && end.attempt == (if n > 1 then n else start.attempt)
    && (Interrupted(rp, s, n) ==> end.status == Failed && end.error == "context cancelled during retry")
    && (n > 0 && !Interrupted(rp, s, n) ==>
          match s.replies(n - 1)
          case Reply(Some(result), _) =>
            end.status == result.status && end.error == if result.error.Some? then result.error.value else start.error
          case Reply(None, Some(err)) => end.status == Failed && end.error == err
          case Reply(None, None) => end.status == start.status && end.error == start.error)
  }

  lemma EndsByFields(start: TaskInstance, rp: Option<RetryPolicy>, s: Script, n: nat)
    requires Stops(MaxAttempts(rp), s, n)
    ensures EndsAsScripted(rp, s, start, Settled(start, MaxAttempts(rp), s, n), n)
    ensures Interrupted(rp, s, n) <==> CutShort(MaxAttempts(rp), s, n)
  {
    var max := MaxAttempts(rp);
    AllowedAttempts(rp);
    assert n > 0 ==> (Succeeds(s.replies(n - 1)) <==> WouldSucceed(s, n - 1));
    forall i: nat | Allowed(rp, i) && WouldSucceed(s, i) ensures n <= i + 1 {
      assert i < n - 1 ==> !Succeeds(s.replies(i));
    }
  }

  /** The waits of a task, by its policy's own fields, while they are in range. */
  ghost predicate WaitsAsSet(rp: Option<RetryPolicy>, s: Script, waits: seq<int>) {
    forall i :: 0 <= i < |waits| ==> WaitAsSet(rp, s, i, waits[i])
  }

  /**
   Wait `i` is the initial backoff times the factor to the power `i`, cut at the maximal backoff, and taken between 3/4
   and 5/4 times by the random draw; there is none without a policy.
   */
  ghost predicate WaitAsSet(rp: Option<RetryPolicy>, s: Script, i: nat, wait: int) {
    match rp
    case None => wait == 0
    case Some(p) =>
      var nominal := Retry.Product(p.initialBackoff as real, Retry.Pow(p.backoffFactor, i)).Floor;
      && 0 <= p.initialBackoff <= Retry.MAX_INT64 && 0 <= 5 * p.maxBackoff <= 4 * Retry.MAX_INT64
      && p.backoffFactor >= 1.0 && nominal <= Retry.MAX_INT64 && 0.0 <= s.draws(i + 1) < 1.0 ==>
        wait == Retry.Spread(Retry.Min(p.maxBackoff, nominal), s.draws(i + 1))
  }

  lemma WaitsByFields(rp: Option<RetryPolicy>, s: Script, n: nat)
    ensures |Waited(rp, s, n)| == n && WaitsAsSet(rp, s, Waited(rp, s, n))
  {
    hide Retry.Delay, Retry.Pow;
    if rp.Some? {
      var p, all := BackoffPolicy(rp.value), Waited(rp, s, n);
      Retry.WaitsInClosedForm(p, n, s.overflow, s.draws);
      forall i | 0 <= i < n ensures WaitAsSet(rp, s, i, all[i]) {
        var wait := all[i];
        assert Retry.InRange(p, i) && 0.0 <= s.draws(i + 1) < 1.0 ==> wait == Retry.ClosedForm(p, i, s.draws(i + 1));
        WaitByFields(rp.value, s, i, wait);
      }
    }
  }

  lemma WaitByFields(rp: RetryPolicy, s: Script, i: nat, wait: int)
    requires Retry.InRange(BackoffPolicy(rp), i) && 0.0 <= s.draws(i + 1) < 1.0 ==>
      wait == Retry.ClosedForm(BackoffPolicy(rp), i, s.draws(i + 1))
    ensures WaitAsSet(Some(rp), s, i, wait)
  {
    hide Retry.Product, Retry.Pow, Retry.Spread;
  }

  /**
   With executors that return an error or a terminal result: the task ends terminal exactly when an attempt is allowed,
   and Success exactly when one of the allowed attempts succeeds; the attempt number is the number of executions.
   A retry count below zero leaves the task Running.
   */
  lemma HowTasksEnd(ti: TaskInstance, rp: Option<RetryPolicy>, s: Script, n: nat)
    requires Stops(MaxAttempts(rp), s, n) && ti.status == Running && forall i :: Proper(s.replies(i))
    ensures var end := Settled(ti, MaxAttempts(rp), s, n);
            && Counted(rp, s, n)
            && (end.status.IsTerminal() <==> rp.Some? ==> rp.value.maxRetries >= 0)
            && (end.status == Success <==> exists i: nat :: Allowed(rp, i) && WouldSucceed(s, i))
            && (n > 0 ==> end.attempt == if n == 1 then ti.attempt else n)
            && (NeverCancelled(s) ==> !Interrupted(rp, s, n))
            && Identity(end) == Identity(ti)
  {
    SuccessExactly(ti, rp, s, n);
    EndsByFields(ti, rp, s, n);
  }

  /** All waits of one task stay within the number of retries times 1.25 times the cap. */
  lemma TaskWaitsBounded(rp: RetryPolicy, s: Script, n: nat)
    requires Stops(MaxAttempts(Some(rp)), s, n) && n > 0
    requires Retry.Sensible(BackoffPolicy(rp)) && 5 * rp.maxBackoff <= 4 * Retry.MAX_INT64
    requires rp.maxRetries > 0 ==> Retry.Fits(BackoffPolicy(rp), rp.maxRetries - 1)
    requires forall i :: 0.0 <= s.draws(i) < 1.0
    ensures 0 <= 4 * Retry.Total(Waited(Some(rp), s, n - 1)) <= 5 * (rp.maxRetries * rp.maxBackoff)
  {
    hide Retry.Waits, Retry.Fits;
    Retry.WaitsWithinRetries(BackoffPolicy(rp), n - 1, rp.maxRetries, s.overflow, s.draws);
  }

  // ---------------------------------------------------------------- the worker

  class Worker {
    const id: string
    const store: MemoryStore
    const dlq: DeadLetterQueue
    const registry: set<string>

    constructor (id: string, store: MemoryStore, dlq: DeadLetterQueue, registry: set<string>)
      ensures this.id == id && this.store == store && this.dlq == dlq && this.registry == registry
    {
      this.id, this.store, this.dlq, this.registry := id, store, dlq, registry;
    }

    function Started(ti: TaskInstance): TaskInstance {
      ti.(status := Running, workerID := id)
    }

    /** Why a task never reaches its executor. */
    function Refusal(ti: TaskInstance): Option<string>
      reads store`dags
    {
      if ti.dagID !in store.dags then Some(NoDag(ti.dagID))
      else if ti.taskID !in store.dags[ti.dagID].tasks then Some(NoTask(ti.taskID))
      else if store.dags[ti.dagID].tasks[ti.taskID].executor !in registry then
        Some(NoExecutorOf(store.dags[ti.dagID].tasks[ti.taskID].executor))
      else None
    }

    function PolicyFor(ti: TaskInstance): Option<RetryPolicy>
      requires Refusal(ti).None?
      reads store`dags
    {
      store.dags[ti.dagID].tasks[ti.taskID].retryPolicy
    }

    method FailTask(ti: TaskInstance, message: string) returns (failed: TaskInstance)
      requires store.Valid()
      modifies store`taskInstances
      ensures store.Valid()
      ensures failed == ti.(status := Failed, error := message)
      ensures store.taskInstances == Recorded(old(store.taskInstances), failed)
    {
      failed := ti.(status := Failed, error := message);
      var _ := store.UpdateTaskInstance(failed);
    }

    /**
     The attempts: `n` executions, after which `r` is the last reply, and the waits between them.
     */
    method Attempts(start: TaskInstance, rp: Option<RetryPolicy>, s: Script)
      returns (ti: TaskInstance, n: nat, r: Reply, cut: bool, waits: seq<int>)
      requires Answers(s)
      ensures Stops(MaxAttempts(rp), s, n)
      ensures r == if n > 0 then s.replies(n - 1) else Reply(None, None)
      ensures cut == CutShort(MaxAttempts(rp), s, n)
      ensures ti == if n > 1 then start.(attempt := n) else start
      ensures waits == Waited(rp, s, if n == 0 then 0 else n - 1)
    {
      var max := MaxAttempts(rp);
      ti, n, r, cut, waits := start, 0, Reply(None, None), false, [];
      var attempt := 0;
      while attempt < max
        invariant 0 <= attempt == n && (n > 0 ==> n <= max)
        invariant forall i: nat :: i < n ==> !Succeeds(s.replies(i))
        invariant forall i: nat :: 0 < i < n ==> !s.cancelled(i)
        invariant r == if n > 0 then s.replies(n - 1) else Reply(None, None)
        invariant ti == if n > 1 then start.(attempt := n) else start
        invariant waits == Waited(rp, s, if n == 0 then 0 else n - 1)
        decreases max - attempt
      {
        if attempt > 0 {
          if s.cancelled(attempt) {
            return ti, n, r, true, waits;
          }
          waits := waits + [Backoff(rp, s, attempt - 1)];
          ti := ti.(attempt := attempt + 1);
        }
        r := s.replies(attempt);
        n := n + 1;
        if Succeeds(r) {
          break;
        }
        attempt := attempt + 1;
      }
    }

    /** The first write: the instance is running.  An instance that the store does not know stops here. */
    method Begin(queued: TaskInstance) returns (ti: TaskInstance, known: bool)
      requires store.Valid()
      modifies store`taskInstances
      ensures store.Valid() && ti == Started(queued)
      ensures known == (queued.id in old(store.taskInstances))
      ensures store.taskInstances == Recorded(old(store.taskInstances), ti)
    {
      ti := Started(queued);
      var updated := store.UpdateTaskInstance(ti);
      known := updated.Ok?;
    }

    /** What `ti`, once begun, comes to after `n` executions. */
    ghost predicate ComesTo(started: TaskInstance, s: Script, ti: TaskInstance, n: nat, waits: seq<int>)
      reads store`dags
    {
      && (Refusal(started).Some? ==>
            ti == started.(status := Failed, error := Refusal(started).value) && n == 0 && waits == [])
      && (Refusal(started).None? ==>
            && Stops(MaxAttempts(PolicyFor(started)), s, n)
            && ti == Settled(started, MaxAttempts(PolicyFor(started)), s, n)
            && waits == Waited(PolicyFor(started), s, if n == 0 then 0 else n - 1))
    }

    /** The task failed after its retry loop ran its course. */
    predicate Buried(started: TaskInstance, s: Script, ti: TaskInstance, n: nat)
      reads store`dags
    {
      Refusal(started).None? && ti.status == Failed && !CutShort(MaxAttempts(PolicyFor(started)), s, n)
    }

    /** The lookups succeed: definition, task and executor are there. */
    predicate Executable(ti: TaskInstance)
      reads store`dags
    {
      && ti.dagID in store.dags && ti.taskID in store.dags[ti.dagID].tasks
      && store.dags[ti.dagID].tasks[ti.taskID].executor in registry
    }

    /** What `ti`, once begun, has come to, field by field. */
    ghost predicate Executed(started: TaskInstance, s: Script, ti: TaskInstance, n: nat, waits: seq<int>)
      reads store`dags
    {
      if !Executable(started) then
        && ti == started.(status := Failed, error := ti.error) && n == 0 && waits == []
        && ti.error ==
           if started.dagID !in store.dags then "get DAG: DAG \"" + started.dagID + "\" not found"
           else if started.taskID !in store.dags[started.dagID].tasks then "task " + started.taskID + " not found in DAG"
           else "get executor: executor type \"" + store.dags[started.dagID].tasks[started.taskID].executor
                + "\" not registered"
      else
        var rp := store.dags[started.dagID].tasks[started.taskID].retryPolicy;
        && EndsAsScripted(rp, s, started, ti, n)
        && |waits| == (if n == 0 then 0 else n - 1) && WaitsAsSet(rp, s, waits)
    }

    /** The dead letters sent: one exactly if the task failed after its retry loop ran its course. */
    ghost function Letters(started: TaskInstance, s: Script, ti: TaskInstance, n: nat): seq<DLQEntry>
      reads store`dags
    {
      if Executable(started) && ti.status == Failed
         && !Interrupted(store.dags[started.dagID].tasks[started.taskID].retryPolicy, s, n)
      then [DLQEntry(ti.taskID, ti.runID, ti.error, ti.attempt)] else []
    }

    lemma ExecutedByFields(started: TaskInstance, s: Script, ti: TaskInstance, n: nat, waits: seq<int>)
      requires ComesTo(started, s, ti, n, waits)
      ensures Executed(started, s, ti, n, waits)
      ensures Letters(started, s, ti, n) == if Buried(started, s, ti, n) then [Letter(ti)] else []
    {
      hide Stops, Settled, CutShort, EndsAsScripted, Waited, WaitsAsSet;
      if Refusal(started).None? {
        EndsByFields(started, PolicyFor(started), s, n);
        WaitsByFields(PolicyFor(started), s, if n == 0 then 0 else n - 1);
      }
    }

    /** From the lookups to the last write; whatever else happened to the store since `Begin`. */
    method Complete(started: TaskInstance, s: Script) returns (ti: TaskInstance, n: nat, waits: seq<int>)
      requires store.Valid() && dlq.Valid() && Answers(s)
      modifies store`taskInstances, dlq
      ensures store.Valid() && dlq.Valid()
      ensures ComesTo(started, s, ti, n, waits) && ti.id == started.id
      ensures Executed(started, s, ti, n, waits) && dlq.pushed == old(dlq.pushed) + Letters(started, s, ti, n)
      ensures store.taskInstances == Recorded(old(store.taskInstances), ti)
      ensures if Buried(started, s, ti, n) then
                && dlq.pushed == old(dlq.pushed) + [Letter(ti)]
                && dlq.entries == WithRoom(old(dlq.entries), dlq.maxSize) + [Letter(ti)]
                && dlq.gone == old(dlq.gone) + Evictions(old(dlq.entries), dlq.maxSize)
              else
                dlq.pushed == old(dlq.pushed) && dlq.entries == old(dlq.entries) && dlq.gone == old(dlq.gone)
    {
      hide Stops, Waited, Settled, CutShort, WithRoom, Evictions, Executed, Letters;
      n, waits := 0, [];
      var found := store.GetDAG(started.dagID);
      if found.Err? {
        ti := FailTask(started, NoDag(started.dagID));
        ExecutedByFields(started, s, ti, n, waits);
        return;
      }
      if started.taskID !in found.value.tasks {
        ti := FailTask(started, NoTask(started.taskID));
        ExecutedByFields(started, s, ti, n, waits);
        return;
      }
      var task := found.value.tasks[started.taskID];
      if task.executor !in registry {
        ti := FailTask(started, NoExecutorOf(task.executor));
        ExecutedByFields(started, s, ti, n, waits);
        return;
      }
      ti, n, waits := RunToEnd(started, task.retryPolicy, s);
      ExecutedByFields(started, s, ti, n, waits);
    }

    /** Runs one instance to its end, as far as the retries reach. */
    method ExecuteTask(queued: TaskInstance, s: Script) returns (ti: TaskInstance, n: nat, waits: seq<int>)
      requires store.Valid() && dlq.Valid() && Answers(s)
      modifies store`taskInstances, dlq
      ensures store.Valid() && dlq.Valid()
      ensures store.taskInstances == Recorded(old(store.taskInstances), ti) && ti.id == queued.id
      ensures if queued.id in old(store.taskInstances) then ComesTo(Started(queued), s, ti, n, waits)
              else ti == Started(queued) && n == 0
      ensures var started := queued.(status := Running, workerID := id);
              if queued.id in old(store.taskInstances) then
                Executed(started, s, ti, n, waits) && dlq.pushed == old(dlq.pushed) + Letters(started, s, ti, n)
              else
                ti == started && n == 0 && waits == [] && dlq.pushed == old(dlq.pushed)
      ensures if queued.id in old(store.taskInstances) && Buried(Started(queued), s, ti, n) then
                && dlq.pushed == old(dlq.pushed) + [Letter(ti)]
                && dlq.entries == WithRoom(old(dlq.entries), dlq.maxSize) + [Letter(ti)]
                && dlq.gone == old(dlq.gone) + Evictions(old(dlq.entries), dlq.maxSize)
              else
                dlq.pushed == old(dlq.pushed) && dlq.entries == old(dlq.entries) && dlq.gone == old(dlq.gone)
    {
      hide ComesTo, Buried, Letter, Letters, Executed, WithRoom, Evictions;
      var known;
      ti, known := Begin(queued);
      n, waits := 0, [];
      if known {
        ti, n, waits := Complete(ti, s);
      }
    }

    method RunToEnd(start: TaskInstance, rp: Option<RetryPolicy>, s: Script) returns (ti: TaskInstance, n: nat,
                    waits: seq<int>)
      requires store.Valid() && dlq.Valid() && Answers(s)
      modifies store`taskInstances, dlq
      ensures store.Valid() && dlq.Valid()
      ensures Stops(MaxAttempts(rp), s, n)
      ensures ti == Settled(start, MaxAttempts(rp), s, n) && ti.id == start.id
      ensures waits == Waited(rp, s, if n == 0 then 0 else n - 1)
      ensures store.taskInstances == Recorded(old(store.taskInstances), ti)
      ensures if ti.status == Failed && !CutShort(MaxAttempts(rp), s, n) then
                && dlq.pushed == old(dlq.pushed) + [Letter(ti)]
                && dlq.entries == WithRoom(old(dlq.entries), dlq.maxSize) + [Letter(ti)]
                && dlq.gone == old(dlq.gone) + Evictions(old(dlq.entries), dlq.maxSize)
              else
                dlq.pushed == old(dlq.pushed) && dlq.entries == old(dlq.entries) && dlq.gone == old(dlq.gone)
    {
      hide Stops, Waited;
      var r, cut;
      ti, n, r, cut, waits := Attempts(start, rp, s);
      if cut {
        ti := FailTask(ti, "context cancelled during retry");
        return;
      }
      ti := Finish(ti, r);
    }

    /** Stores how the task ended, and sends it to the dead letter queue if it failed. */
    method Finish(last: TaskInstance, r: Reply) returns (ti: TaskInstance)
      requires store.Valid() && dlq.Valid()
      modifies store`taskInstances, dlq
      ensures store.Valid() && dlq.Valid()
      ensures ti == AfterReply(last, r)
      ensures store.taskInstances == Recorded(old(store.taskInstances), ti)
      ensures ti.status == Failed ==> dlq.pushed == old(dlq.pushed) + [Letter(ti)]
      ensures ti.status == Failed ==> dlq.entries == WithRoom(old(dlq.entries), dlq.maxSize) + [Letter(ti)]
      ensures ti.status == Failed ==> dlq.gone == old(dlq.gone) + Evictions(old(dlq.entries), dlq.maxSize)
      ensures ti.status != Failed ==>
        dlq.pushed == old(dlq.pushed) && dlq.entries == old(dlq.entries) && dlq.gone == old(dlq.gone)
    {
      ti := last;
      if r.result.Some? {
        var result := r.result.value;
        ti := ti.(status := result.status, error := if result.error.Some? then result.error.value else ti.error);
      } else if r.err.Some? {
        ti := ti.(status := Failed, error := r.err.value);
      }
      var _ := store.UpdateTaskInstance(ti);
      if ti.status == Failed {
        dlq.Push(Letter(ti));
      }
    }
  }
}
