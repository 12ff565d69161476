/** The task scheduler as a state machine, and what holds over all of its runs.  The binary heap is
    a multiset from which some entry of maximal priority is taken. */
module SchedulerRuns {
  import opened Digraph
  import opened RecipeGraph
  import opened TaskDependencies

  // ---- Priorities ----

  datatype Ordering = Less | Equal | Greater {
    function Then(next: Ordering): Ordering {
      if Equal? then next else this
    }
  }

  function Compare(a: nat, b: nat): Ordering {
    if a < b then Less else if a == b then Equal else Greater
  }

  datatype TaskPriority = TaskPriority(criticalPathLength: nat, dependentCount: nat, estimatedTimeMs: nat) {
    function Cmp(other: TaskPriority): Ordering {
      Compare(criticalPathLength, other.criticalPathLength)
      .Then(Compare(dependentCount, other.dependentCount))
      .Then(Compare(estimatedTimeMs, other.estimatedTimeMs))
    }

    predicate AtMost(other: TaskPriority) {
      Cmp(other) != Greater
    }
  }

  datatype ScheduledTask = ScheduledTask(taskId: TaskId, recipeId: RecipeId, priority: TaskPriority)

  predicate IsMax(q: multiset<ScheduledTask>, x: ScheduledTask) {
    x in q && forall y :: y in q ==> y.priority.AtMost(x.priority)
  }

  /** A non-empty queue has an entry of maximal priority to pop. */
  lemma {:induction false} MaxExists(q: multiset<ScheduledTask>)
    requires q != multiset{}
    ensures exists x :: IsMax(q, x)
    decreases |q|
  {
    var x :| x in q;
    var rest := q - multiset{x};
    assert q == rest + multiset{x};
    if rest == multiset{} {
      assert IsMax(q, x);
    } else {
      MaxExists(rest);
      var m :| IsMax(rest, m);
      var best := if m.priority.AtMost(x.priority) then x else m;
      forall y | y in q ensures y.priority.AtMost(best.priority) {
        assert y == x || y in rest;
        PriorityOrderIsTotal(y.priority, m.priority, x.priority);
        PriorityOrderIsTotal(x.priority, m.priority, m.priority);
      }
      assert IsMax(q, best);
    }
  }

  // ---- States and steps ----

  /** What is fixed once the scheduler is initialised. */
  datatype Config = Config(deps: TaskGraph, owner: map<TaskId, RecipeId>, priorities: map<TaskId, TaskPriority>) {
    ghost predicate Initialised() {
      deps.Keys <= owner.Keys && Nodes(deps) <= priorities.Keys
    }
  }

  datatype State = State(completed: set<TaskId>, running: set<TaskId>, queue: multiset<ScheduledTask>)

  datatype Event =
    | Ready(limit: nat, batch: seq<ScheduledTask>)
    | MarkRunning(id: TaskId)
    | MarkCompleted(id: TaskId)
    | MarkFailed(id: TaskId)

  predicate InQueue(q: multiset<ScheduledTask>, t: TaskId) {
    exists x :: x in q && x.taskId == t
  }

  function Scheduled(cfg: Config, t: TaskId): ScheduledTask
    requires t in cfg.owner && t in cfg.priorities
  {
    ScheduledTask(t, cfg.owner[t], cfg.priorities[t])
  }

  /** A task joins the queue when it is neither done, running nor queued, all its dependencies are
      completed, and it was given a priority. */
  predicate Eligible(cfg: Config, s: State, t: TaskId) {
    && t in cfg.deps && t in cfg.owner && t in cfg.priorities
    && t !in s.completed && t !in s.running && !InQueue(s.queue, t)
    && forall d :: d in cfg.deps[t] ==> d in s.completed
  }

  function NewlyReady(cfg: Config, s: State): set<ScheduledTask> {
    set t | t in cfg.deps && Eligible(cfg, s, t) :: Scheduled(cfg, t)
  }

  function UpdateQueue(cfg: Config, s: State): State {
    s.(queue := s.queue + multiset(NewlyReady(cfg, s)))
  }

  function Init(cfg: Config): State {
    UpdateQueue(cfg, State({}, {}, multiset{}))
  }

  /** The pops of one call: entries of maximal priority are removed one after another until enough
      of them are neither completed nor running (`busy`), or the queue is empty. */
  ghost predicate Pops(busy: set<TaskId>, q: multiset<ScheduledTask>, need: nat,
                       popped: seq<ScheduledTask>, rest: multiset<ScheduledTask>)
    decreases |popped|
  {
    if need == 0 || q == multiset{} then popped == [] && rest == q
    else
      && popped != [] && IsMax(q, popped[0])
      && Pops(busy, q - multiset{popped[0]}, if popped[0].taskId in busy then need else need - 1, popped[1..], rest)
  }

  /** The popped entries that are handed out. */
  function HandedOut(busy: set<TaskId>, popped: seq<ScheduledTask>): seq<ScheduledTask> {
    if popped == [] then []
    else (if popped[0].taskId in busy then [] else [popped[0]]) + HandedOut(busy, popped[1..])
  }

  function Ids(batch: seq<ScheduledTask>): set<TaskId> {
    set x | x in batch :: x.taskId
  }

  ghost predicate GetReady(s: State, limit: nat, batch: seq<ScheduledTask>, s': State) {
    && s'.completed == s.completed
    && s'.running == s.running + Ids(batch)
    && exists popped :: PopsBatch(s.completed + s.running, s.queue, limit, popped, batch, s'.queue)
  }

  ghost predicate PopsBatch(busy: set<TaskId>, q: multiset<ScheduledTask>, need: nat, popped: seq<ScheduledTask>,
                            batch: seq<ScheduledTask>, rest: multiset<ScheduledTask>)
  {
    Pops(busy, q, need, popped, rest) && batch == HandedOut(busy, popped)
  }

  function Complete(s: State, t: TaskId): State {
    s.(running := s.running - {t}, completed := s.completed + {t})
  }

  ghost predicate Step(cfg: Config, s: State, e: Event, s': State) {
    match e
    case Ready(limit, batch) => GetReady(s, limit, batch, s')
    case MarkRunning(t) => s' == s.(running := s.running + {t})
    case MarkCompleted(t) => s' == UpdateQueue(cfg, Complete(s, t))
    case MarkFailed(t) => s' == s.(running := s.running - {t})
  }

  ghost predicate Run(cfg: Config, ss: seq<State>, es: seq<Event>) {
    && |ss| == |es| + 1
    && ss[0] == Init(cfg)
    && forall i :: 0 <= i < |es| ==> Step(cfg, ss[i], es[i], ss[i + 1])
  }

  // ---- One call of get_ready_tasks ----

  /** Nothing that could have been handed out is lost between a queue, a batch and what is left. */
  ghost predicate Accounts(busy: set<TaskId>, q: multiset<ScheduledTask>, batch: seq<ScheduledTask>,
                           rest: multiset<ScheduledTask>)
  {
    && multiset(batch) + rest <= q
    && (forall x :: x in batch ==> x.taskId !in busy)
    && (forall x :: x in q && x.taskId !in busy ==> q[x] == multiset(batch)[x] + rest[x])
  }

  lemma PopSkipped(busy: set<TaskId>, q: multiset<ScheduledTask>, first: ScheduledTask, q': multiset<ScheduledTask>,
                   batch: seq<ScheduledTask>, rest: multiset<ScheduledTask>)
    requires first in q && q' == q - multiset{first} && first.taskId in busy && Accounts(busy, q', batch, rest)
    ensures Accounts(busy, q, batch, rest)
  {
    forall x | x in q && x.taskId !in busy ensures q[x] == multiset(batch)[x] + rest[x] {
      assert x in q';
    }
  }

  lemma PopHandedOut(busy: set<TaskId>, q: multiset<ScheduledTask>, first: ScheduledTask, q': multiset<ScheduledTask>,
                     batch: seq<ScheduledTask>, rest: multiset<ScheduledTask>)
    requires first in q && q' == q - multiset{first} && first.taskId !in busy && Accounts(busy, q', batch, rest)
    ensures Accounts(busy, q, [first] + batch, rest)
  {
    assert multiset([first] + batch) == multiset{first} + multiset(batch);
    assert q == q' + multiset{first};
    forall x | x in q && x.taskId !in busy ensures q[x] == multiset([first] + batch)[x] + rest[x] {
      assert multiset(batch)[x] + rest[x] <= q'[x];
      assert x in q' ==> q'[x] == multiset(batch)[x] + rest[x];
    }
  }

  /** What is popped comes out of the queue, enough of it or all of it. */
  lemma {:induction false} PopsAccount(busy: set<TaskId>, q: multiset<ScheduledTask>, need: nat,
                                       popped: seq<ScheduledTask>, rest: multiset<ScheduledTask>)
    requires Pops(busy, q, need, popped, rest)
    ensures Accounts(busy, q, HandedOut(busy, popped), rest)
    ensures |HandedOut(busy, popped)| <= need && (|HandedOut(busy, popped)| < need ==> rest == multiset{})
    decreases |popped|
  {
    if need > 0 && q != multiset{} {
      var first := popped[0];
      var q' := q - multiset{first};
      var tail := HandedOut(busy, popped[1..]);
      if first.taskId in busy {
        PopsAccount(busy, q', need, popped[1..], rest);
        PopSkipped(busy, q, first, q', tail, rest);
        assert HandedOut(busy, popped) == tail;
      } else {
        PopsAccount(busy, q', need - 1, popped[1..], rest);
        PopHandedOut(busy, q, first, q', tail, rest);
        assert HandedOut(busy, popped) == [first] + tail;
      }
    }
  }

  ghost predicate NonIncreasing(batch: seq<ScheduledTask>) {
    forall i, j :: 0 <= i < j < |batch| ==> batch[j].priority.AtMost(batch[i].priority)
  }

  ghost predicate NothingBetterIn(batch: seq<ScheduledTask>, q: multiset<ScheduledTask>) {
    forall x, b :: x in q && b in batch ==> x.priority.AtMost(b.priority)
  }

  lemma PopsComeFromQueue(busy: set<TaskId>, q: multiset<ScheduledTask>, need: nat,
                          popped: seq<ScheduledTask>, rest: multiset<ScheduledTask>, x: ScheduledTask)
    requires Pops(busy, q, need, popped, rest)
    requires x in HandedOut(busy, popped) || x in rest
    ensures x in q
  {
    PopsAccount(busy, q, need, popped, rest);
    assert x in multiset(HandedOut(busy, popped)) || x in rest;
  }

  lemma {:induction false} PopsOrdered(busy: set<TaskId>, q: multiset<ScheduledTask>, need: nat,
                                       popped: seq<ScheduledTask>, rest: multiset<ScheduledTask>)
    requires Pops(busy, q, need, popped, rest)
    ensures NonIncreasing(HandedOut(busy, popped)) && NothingBetterIn(HandedOut(busy, popped), rest)
    decreases |popped|
  {
    if need > 0 && q != multiset{} {
      var first := popped[0];
      var q' := q - multiset{first};
      var need' := if first.taskId in busy then need else need - 1;
      var tail := HandedOut(busy, popped[1..]);
      PopsOrdered(busy, q', need', popped[1..], rest);
      forall x | x in tail || x in rest ensures x.priority.AtMost(first.priority) {
        PopsComeFromQueue(busy, q', need', popped[1..], rest, x);
        assert x in q;
      }
      if first.taskId in busy {
        assert HandedOut(busy, popped) == tail;
      } else {
        assert HandedOut(busy, popped) == [first] + tail;
        PrependBest(first, tail, rest);
      }
    }
  }

  lemma PrependBest(first: ScheduledTask, tail: seq<ScheduledTask>, rest: multiset<ScheduledTask>)
    requires NonIncreasing(tail) && NothingBetterIn(tail, rest)
    requires forall x :: x in tail || x in rest ==> x.priority.AtMost(first.priority)
    ensures NonIncreasing([first] + tail) && NothingBetterIn([first] + tail, rest)
  {
  }

  /** A batch comes in non-increasing priority, leaves nothing better queued, and is short of the
      limit only if the queue has run empty; what is skipped was completed or running. */
  lemma BatchIsBest(s: State, limit: nat, batch: seq<ScheduledTask>, s': State)
    requires GetReady(s, limit, batch, s')
    ensures NonIncreasing(batch) && NothingBetterIn(batch, s'.queue)
    ensures |batch| <= limit && (|batch| < limit ==> s'.queue == multiset{})
    ensures multiset(batch) + s'.queue <= s.queue
    ensures forall x :: x in batch ==> x.taskId !in s.completed + s.running
    ensures forall x :: x in s.queue && x.taskId !in s.completed + s.running ==>
                          s.queue[x] == multiset(batch)[x] + s'.queue[x]
  {
    var busy := s.completed + s.running;
    var popped :| PopsBatch(busy, s.queue, limit, popped, batch, s'.queue);
    PopsAccount(busy, s.queue, limit, popped, s'.queue);
    PopsOrdered(busy, s.queue, limit, popped, s'.queue);
  }

  /** The order on priorities is total and transitive, so "non-increasing" means what it says. */
  lemma PriorityOrderIsTotal(a: TaskPriority, b: TaskPriority, c: TaskPriority)
    ensures a.AtMost(b) || b.AtMost(a)
    ensures a.AtMost(b) && b.AtMost(a) ==> a == b
    ensures a.AtMost(b) && b.AtMost(c) ==> a.AtMost(c)
    ensures a.AtMost(b) <==>
            || a.criticalPathLength < b.criticalPathLength
            || (a.criticalPathLength == b.criticalPathLength &&
                (|| a.dependentCount < b.dependentCount
                 || (a.dependentCount == b.dependentCount && a.estimatedTimeMs <= b.estimatedTimeMs)))
  {
  }

  // ---- Safety over arbitrary runs ----

  /** Every queue entry is a graph task with its own priority, present once, and everything it
      depends on is completed. */
  ghost predicate QueueOk(cfg: Config, s: State) {
    forall x :: x in s.queue ==>
                  && x.taskId in cfg.deps && x.taskId in cfg.owner && x.taskId in cfg.priorities
                  && x == Scheduled(cfg, x.taskId) && s.queue[x] == 1
                  && forall d :: d in cfg.deps[x.taskId] ==> d in s.completed
  }

  lemma UpdateKeepsQueueOk(cfg: Config, s: State)
    requires QueueOk(cfg, s)
    ensures QueueOk(cfg, UpdateQueue(cfg, s))
  {
    var added := NewlyReady(cfg, s);
    var s' := UpdateQueue(cfg, s);
    forall x | x in s'.queue
      ensures x in s.queue || x in added
      ensures s'.queue[x] == 1
    {
      assert x in s.queue ==> InQueue(s.queue, x.taskId);
    }
  }

  lemma StepKeepsQueueOk(cfg: Config, s: State, e: Event, s': State)
    requires QueueOk(cfg, s) && Step(cfg, s, e, s')
    ensures QueueOk(cfg, s') && s.completed <= s'.completed
  {
    match e
    case Ready(limit, batch) =>
      BatchIsBest(s, limit, batch, s');
      forall x | x in s'.queue ensures x in s.queue && s'.queue[x] == 1 {
        assert s'.queue[x] <= s.queue[x];
      }
    case MarkCompleted(t) =>
      var mid := Complete(s, t);
      assert QueueOk(cfg, mid);
      UpdateKeepsQueueOk(cfg, mid);
    case _ =>
  }

  lemma {:induction false} RunKeepsQueueOk(cfg: Config, ss: seq<State>, es: seq<Event>, i: nat)
    requires Run(cfg, ss, es) && i < |ss|
    ensures QueueOk(cfg, ss[i])
    decreases i
  {
    if i == 0 {
      UpdateKeepsQueueOk(cfg, State({}, {}, multiset{}));
    } else {
      RunKeepsQueueOk(cfg, ss, es, i - 1);
      StepKeepsQueueOk(cfg, ss[i - 1], es[i - 1], ss[i]);
    }
  }

  /** In every run, whatever the caller reports: a task that is handed out is a task of the graph
      that was neither completed nor running, all its dependencies are completed, no batch or queue
      holds a task twice. */
  lemma HandedOutTaskIsReady(cfg: Config, ss: seq<State>, es: seq<Event>, i: nat, b: ScheduledTask)
    requires Run(cfg, ss, es) && i < |es| && es[i].Ready? && b in es[i].batch
    ensures b.taskId in cfg.deps && forall d :: d in cfg.deps[b.taskId] ==> d in ss[i].completed
    ensures b.taskId !in ss[i].completed && b.taskId !in ss[i].running && b.taskId in ss[i + 1].running
    ensures b.taskId in cfg.priorities && b.priority == cfg.priorities[b.taskId]
  {
    RunKeepsQueueOk(cfg, ss, es, i);
    assert Step(cfg, ss[i], es[i], ss[i + 1]);
    BatchIsBest(ss[i], es[i].limit, es[i].batch, ss[i + 1]);
    assert b in multiset(es[i].batch) && b in ss[i].queue;
  }

  lemma QueueAndBatchIdsDistinct(cfg: Config, ss: seq<State>, es: seq<Event>, i: nat)
    requires Run(cfg, ss, es) && i < |ss|
    ensures forall x, y :: x in ss[i].queue && y in ss[i].queue && x.taskId == y.taskId ==> x == y
    ensures forall x :: x in ss[i].queue ==> ss[i].queue[x] == 1
    ensures i < |es| && es[i].Ready? ==>
              forall j, k :: 0 <= j < k < |es[i].batch| ==> es[i].batch[j].taskId != es[i].batch[k].taskId
  {
    RunKeepsQueueOk(cfg, ss, es, i);
    if i < |es| && es[i].Ready? {
      assert Step(cfg, ss[i], es[i], ss[i + 1]);
      var batch := es[i].batch;
      BatchIsBest(ss[i], es[i].limit, batch, ss[i + 1]);
      forall j, k | 0 <= j < k < |batch| ensures batch[j].taskId != batch[k].taskId {
        assert batch[j] in multiset(batch) && batch[k] in multiset(batch);
        assert batch[j] in ss[i].queue && batch[k] in ss[i].queue;
        if batch[j] == batch[k] {
          TwiceInSeq(batch, j, k);
        }
      }
    }
  }

  lemma TwiceInSeq(s: seq<ScheduledTask>, j: nat, k: nat)
    requires j < k < |s| && s[j] == s[k]
    ensures multiset(s)[s[j]] >= 2
  {
    assert s == s[..j] + [s[j]] + s[j + 1..k] + [s[k]] + s[k + 1..];
  }

  ghost predicate HandsOut(e: Event, t: TaskId) {
    e.Ready? && t in Ids(e.batch)
  }

  /** Once handed out, a task stays running or completed until it is reported as failed. */
  lemma {:induction false} StaysBusy(cfg: Config, ss: seq<State>, es: seq<Event>, i: nat, m: nat, t: TaskId)
    requires Run(cfg, ss, es) && i < m <= |es| && HandsOut(es[i], t)
    requires forall k :: i < k < m ==> es[k] != MarkFailed(t)
    ensures t in ss[m].completed + ss[m].running
    decreases m
  {
    assert Step(cfg, ss[m - 1], es[m - 1], ss[m]);
    if i + 1 < m {
      StaysBusy(cfg, ss, es, i, m - 1, t);
    }
  }

  /** A task is handed out a second time only if it was marked failed in between; this holds for
      every graph and every run, however the caller interleaves its reports. */
  lemma HandedOutAgainOnlyAfterFailure(cfg: Config, ss: seq<State>, es: seq<Event>, i: nat, j: nat, t: TaskId)
    requires Run(cfg, ss, es) && i < j < |es| && HandsOut(es[i], t) && HandsOut(es[j], t)
    ensures exists k :: i < k < j && es[k] == MarkFailed(t)
  {
    if !exists k :: i < k < j && es[k] == MarkFailed(t) {
      StaysBusy(cfg, ss, es, i, j, t);
      assert Step(cfg, ss[j], es[j], ss[j + 1]);
      BatchIsBest(ss[j], es[j].limit, es[j].batch, ss[j + 1]);
      assert false;
    }
  }

  // ---- Bookkeeping: completed and running stay disjoint subsets of the known tasks ----

  ghost predicate BusyOk(cfg: Config, s: State) {
    && s.completed !! s.running
    && s.completed <= cfg.priorities.Keys
    && s.running <= cfg.priorities.Keys
  }

  /** The reports that keep the books straight. */
  ghost predicate KeepsBooks(cfg: Config, s: State, e: Event) {
    match e
    case MarkRunning(t) => t in cfg.priorities && t !in s.completed
    case MarkCompleted(t) => t in cfg.priorities
    case _ => true
  }

  lemma ReadyKeepsBooks(cfg: Config, s: State, limit: nat, batch: seq<ScheduledTask>, s': State)
    requires QueueOk(cfg, s) && BusyOk(cfg, s) && GetReady(s, limit, batch, s')
    ensures BusyOk(cfg, s')
  {
    BatchIsBest(s, limit, batch, s');
    forall t | t in Ids(batch) ensures t in cfg.priorities && t !in s.completed {
      var x :| x in batch && x.taskId == t;
      assert x in multiset(batch) && x in s.queue;
    }
  }

  lemma RunningKeepsBooksIff(cfg: Config, s: State, t: TaskId, s': State)
    requires BusyOk(cfg, s) && s' == s.(running := s.running + {t})
    ensures BusyOk(cfg, s') <==> t in cfg.priorities && t !in s.completed
  {
    assert t in s'.running;
  }

  lemma CompletionKeepsBooksIff(cfg: Config, s: State, t: TaskId, s': State)
    requires BusyOk(cfg, s) && s'.completed == s.completed + {t} && s'.running == s.running - {t}
    ensures BusyOk(cfg, s') <==> t in cfg.priorities
  {
    assert t in s'.completed;
  }

  /** Exactly these reports keep completed and running disjoint subsets of the known tasks. */
  lemma BooksKeptIff(cfg: Config, s: State, e: Event, s': State)
    requires QueueOk(cfg, s) && BusyOk(cfg, s) && Step(cfg, s, e, s')
    ensures BusyOk(cfg, s') <==> KeepsBooks(cfg, s, e)
  {
    match e
    case Ready(limit, batch) => ReadyKeepsBooks(cfg, s, limit, batch, s');
    case MarkRunning(t) => RunningKeepsBooksIff(cfg, s, t, s');
    case MarkCompleted(t) => CompletionKeepsBooksIff(cfg, s, t, s');
    case MarkFailed(t) =>
  }

  /** A caller that only completes or fails running tasks, and marks as running only what already
      runs, keeps the books in every state of the run. */
  ghost predicate Disciplined(ss: seq<State>, es: seq<Event>) {
    |es| < |ss| &&
    forall i :: 0 <= i < |es| && !es[i].Ready? ==> es[i].id in ss[i].running
  }

  lemma {:induction false} DisciplinedRunKeepsBooks(cfg: Config, ss: seq<State>, es: seq<Event>, i: nat)
    requires Run(cfg, ss, es) && Disciplined(ss, es) && i < |ss|
    ensures BusyOk(cfg, ss[i])
    decreases i
  {
    if i > 0 {
      DisciplinedRunKeepsBooks(cfg, ss, es, i - 1);
      RunKeepsQueueOk(cfg, ss, es, i - 1);
      BooksKeptIff(cfg, ss[i - 1], es[i - 1], ss[i]);
    }
  }

  /** The subtraction total - completed - running that the statistics report as pending never goes
      below zero, and counts the tasks that are neither completed nor running. */
  lemma PendingCountsTheRest(cfg: Config, ss: seq<State>, es: seq<Event>, i: nat)
    requires Run(cfg, ss, es) && Disciplined(ss, es) && i < |ss|
    ensures |cfg.priorities| - |ss[i].completed| - |ss[i].running|
            == |cfg.priorities.Keys - ss[i].completed - ss[i].running|
  {
    DisciplinedRunKeepsBooks(cfg, ss, es, i);
    var all, c, r := cfg.priorities.Keys, ss[i].completed, ss[i].running;
    SubsetDifference(all, c);
    SubsetDifference(all - c, r);
  }

  lemma SubsetDifference(all: set<TaskId>, part: set<TaskId>)
    requires part <= all
    ensures |all - part| == |all| - |part|
  {
    assert all == (all - part) + part;
  }

  // ---- Liveness ----

  /** Everything t depends on, directly or not, is a task of the graph and none of it lies on a
      dependency cycle. */
  ghost predicate Buildable(g: TaskGraph, t: TaskId) {
    forall d :: Reaches(g, t, d) ==> d in g && !OnCycle(g, d)
  }

  /** A failure-free run: the caller only asks for tasks and reports running ones as running or
      completed. */
  ghost predicate FailureFree(ss: seq<State>, es: seq<Event>) {
    Disciplined(ss, es) && forall i :: 0 <= i < |es| ==> !es[i].MarkFailed?
  }

  /** The tasks that have failed since a task was last completed.  They are not queued again before
      the next completion. */
  ghost function FailedSince(es: seq<Event>, i: nat): set<TaskId>
    requires i <= |es|
  {
    if i == 0 then {}
    else match es[i - 1]
         case MarkCompleted(_) => {}
         case MarkFailed(t) => FailedSince(es, i - 1) + {t}
         case _ => FailedSince(es, i - 1)
  }

  lemma {:induction false} NothingFailed(es: seq<Event>, i: nat)
    requires i <= |es| && forall k :: 0 <= k < i ==> !es[k].MarkFailed?
    ensures FailedSince(es, i) == {}
  {
    if i > 0 {
      NothingFailed(es, i - 1);
    }
  }

  ghost predicate CompletedInOrder(g: TaskGraph, completed: set<TaskId>) {
    exists order: seq<TaskId> :: TopoOrder(g, order) && Elems(order) == completed
  }

  ghost predicate DepsDone(g: TaskGraph, t: TaskId, completed: set<TaskId>) {
    t in g && forall d :: d in g[t] ==> d in completed
  }

  ghost predicate QueueIdle(s: State) {
    forall x :: x in s.queue ==> x.taskId !in s.completed && x.taskId !in s.running
  }

  ghost predicate BusyDepsDone(cfg: Config, s: State) {
    forall t :: t in s.completed + s.running ==> DepsDone(cfg.deps, t, s.completed)
  }

  /** Before the queue is brought up to date everything but saturation holds. */
  ghost predicate LiveBeforeUpdate(cfg: Config, s: State) {
    && QueueOk(cfg, s)
    && s.completed !! s.running
    && QueueIdle(s)
    && BusyDepsDone(cfg, s)
    && CompletedInOrder(cfg.deps, s.completed)
  }

  /** Every task whose dependencies are done is done, running or queued, unless it has failed. */
  ghost predicate Saturated(cfg: Config, s: State, failed: set<TaskId>) {
    forall t :: DepsDone(cfg.deps, t, s.completed) ==>
                  t in s.completed || t in s.running || InQueue(s.queue, t) || t in failed
  }

  ghost predicate LiveInv(cfg: Config, s: State, failed: set<TaskId>) {
    LiveBeforeUpdate(cfg, s) && s.completed !! failed && Saturated(cfg, s, failed)
  }

  lemma UpdateSaturates(cfg: Config, s: State, t: TaskId)
    requires cfg.Initialised() && DepsDone(cfg.deps, t, s.completed)
    ensures t in s.completed || t in s.running || InQueue(UpdateQueue(cfg, s).queue, t)
  {
    var s' := UpdateQueue(cfg, s);
    if InQueue(s.queue, t) {
      var x :| x in s.queue && x.taskId == t;
      assert x in s'.queue;
    } else if t !in s.completed && t !in s.running {
      assert t in Nodes(cfg.deps);
      assert Eligible(cfg, s, t);
      assert Scheduled(cfg, t) in NewlyReady(cfg, s);
      assert Scheduled(cfg, t) in s'.queue;
    }
  }

  lemma UpdateKeepsIdle(cfg: Config, s: State)
    requires QueueIdle(s)
    ensures QueueIdle(UpdateQueue(cfg, s))
  {
    forall x | x in UpdateQueue(cfg, s).queue ensures x.taskId !in s.completed && x.taskId !in s.running {
      assert x in s.queue || x in NewlyReady(cfg, s);
    }
  }

  lemma UpdateMakesLive(cfg: Config, s: State)
    requires cfg.Initialised() && LiveBeforeUpdate(cfg, s)
    ensures LiveInv(cfg, UpdateQueue(cfg, s), {})
  {
    var s' := UpdateQueue(cfg, s);
    UpdateKeepsQueueOk(cfg, s);
    UpdateKeepsIdle(cfg, s);
    forall t | DepsDone(cfg.deps, t, s.completed)
      ensures t in s.completed || t in s.running || InQueue(s'.queue, t)
    {
      UpdateSaturates(cfg, s, t);
    }
  }

  lemma InitIsLive(cfg: Config)
    requires cfg.Initialised()
    ensures LiveInv(cfg, Init(cfg), {})
  {
    var s0 := State({}, {}, multiset{});
    assert TopoOrder(cfg.deps, []) && Elems<TaskId>([]) == {};
    UpdateMakesLive(cfg, s0);
  }

  /** What a call of get_ready_tasks leaves queued is not handed out. */
  lemma BatchLeavesQueue(cfg: Config, s: State, limit: nat, batch: seq<ScheduledTask>, s': State, x: ScheduledTask)
    requires QueueOk(cfg, s) && GetReady(s, limit, batch, s') && x in s'.queue
    ensures x in s.queue && x.taskId !in Ids(batch)
  {
    BatchIsBest(s, limit, batch, s');
    assert s'.queue[x] <= s.queue[x];
    forall y | y in batch ensures y.taskId != x.taskId {
      assert y in multiset(batch) && multiset(batch)[x] + s'.queue[x] <= s.queue[x];
    }
  }

  lemma BatchOrQueue(cfg: Config, s: State, limit: nat, batch: seq<ScheduledTask>, s': State, t: TaskId)
    requires QueueIdle(s) && GetReady(s, limit, batch, s') && InQueue(s.queue, t)
    ensures t in Ids(batch) || InQueue(s'.queue, t)
  {
    BatchIsBest(s, limit, batch, s');
    var x :| x in s.queue && x.taskId == t;
    assert s.queue[x] == multiset(batch)[x] + s'.queue[x];
    assert x in batch || x in s'.queue;
  }

  lemma BatchDepsDone(cfg: Config, s: State, limit: nat, batch: seq<ScheduledTask>, s': State)
    requires QueueOk(cfg, s) && BusyDepsDone(cfg, s) && GetReady(s, limit, batch, s')
    ensures BusyDepsDone(cfg, s') && s'.completed !! Ids(batch)
  {
    BatchIsBest(s, limit, batch, s');
    forall x | x in batch ensures DepsDone(cfg.deps, x.taskId, s.completed) {
      assert x in multiset(batch) && x in s.queue;
    }
  }

  lemma ReadyKeepsLive(cfg: Config, s: State, failed: set<TaskId>, limit: nat, batch: seq<ScheduledTask>, s': State)
    requires LiveInv(cfg, s, failed) && GetReady(s, limit, batch, s')
    ensures LiveInv(cfg, s', failed)
  {
    StepKeepsQueueOk(cfg, s, Ready(limit, batch), s');
    BatchDepsDone(cfg, s, limit, batch, s');
    forall x | x in s'.queue ensures x in s.queue && x.taskId !in Ids(batch) {
      BatchLeavesQueue(cfg, s, limit, batch, s', x);
    }
    forall t | DepsDone(cfg.deps, t, s'.completed)
      ensures t in s'.completed || t in s'.running || InQueue(s'.queue, t) || t in failed
    {
      if InQueue(s.queue, t) {
        BatchOrQueue(cfg, s, limit, batch, s', t);
      }
    }
  }

  lemma DepsDoneGrows(g: TaskGraph, t: TaskId, completed: set<TaskId>, more: set<TaskId>)
    requires DepsDone(g, t, completed) && completed <= more
    ensures DepsDone(g, t, more)
  {
  }

  lemma CompletionKeepsOrder(g: TaskGraph, completed: set<TaskId>, t: TaskId)
    requires CompletedInOrder(g, completed) && DepsDone(g, t, completed) && t !in completed
    ensures CompletedInOrder(g, completed + {t})
  {
    var order: seq<TaskId> :| TopoOrder(g, order) && Elems(order) == completed;
    assert t !in Elems(order);
    forall d | d in Succ(g, t) ensures d in order {
      assert d in Elems(order);
    }
    ExtendOrder(g, order, t);
    assert Elems(order + [t]) == Elems(order) + {t};
  }

  lemma CompletionKeepsDeps(cfg: Config, s: State, t: TaskId)
    requires BusyDepsDone(cfg, s) && t in s.running
    ensures BusyDepsDone(cfg, Complete(s, t))
  {
    var mid := Complete(s, t);
    forall d | d in mid.completed + mid.running ensures DepsDone(cfg.deps, d, mid.completed) {
      assert d in s.completed + s.running;
      DepsDoneGrows(cfg.deps, d, s.completed, mid.completed);
    }
  }

  lemma CompletionKeepsQueue(cfg: Config, s: State, t: TaskId)
    requires QueueOk(cfg, s) && QueueIdle(s) && t in s.running
    ensures QueueOk(cfg, Complete(s, t)) && QueueIdle(Complete(s, t))
  {
  }

  lemma CompletionKeepsLive(cfg: Config, s: State, t: TaskId)
    requires cfg.Initialised() && LiveBeforeUpdate(cfg, s) && t in s.running
    ensures LiveInv(cfg, UpdateQueue(cfg, Complete(s, t)), {})
  {
    CompletionKeepsQueue(cfg, s, t);
    CompletionKeepsDeps(cfg, s, t);
    assert DepsDone(cfg.deps, t, s.completed);
    CompletionKeepsOrder(cfg.deps, s.completed, t);
    UpdateMakesLive(cfg, Complete(s, t));
  }

  lemma FailureKeepsLive(cfg: Config, s: State, failed: set<TaskId>, t: TaskId, s': State)
    requires LiveInv(cfg, s, failed) && t in s.running && s' == s.(running := s.running - {t})
    ensures LiveInv(cfg, s', failed + {t})
  {
  }

  lemma {:induction false} RunStaysLive(cfg: Config, ss: seq<State>, es: seq<Event>, i: nat)
    requires cfg.Initialised() && Run(cfg, ss, es) && Disciplined(ss, es) && i < |ss|
    ensures LiveInv(cfg, ss[i], FailedSince(es, i))
    decreases i
  {
    if i == 0 {
      InitIsLive(cfg);
    } else {
      RunStaysLive(cfg, ss, es, i - 1);
      StepStaysLive(cfg, ss[i - 1], es[i - 1], ss[i], es, i - 1, i);
    }
  }

  lemma StepStaysLive(cfg: Config, s: State, e: Event, s': State, es: seq<Event>, j: nat, i: nat)
    requires cfg.Initialised() && i == j + 1 <= |es| && e == es[j] && (e.Ready? || e.id in s.running)
    requires LiveInv(cfg, s, FailedSince(es, j)) && Step(cfg, s, e, s')
    ensures LiveInv(cfg, s', FailedSince(es, i))
  {
    var failed := FailedSince(es, j);
    assert i - 1 == j;
    match e
    case Ready(limit, batch) => ReadyKeepsLive(cfg, s, failed, limit, batch, s');
    case MarkRunning(t) => assert s.running + {t} == s.running;
    case MarkCompleted(t) => CompletionKeepsLive(cfg, s, t);
    case MarkFailed(t) => FailureKeepsLive(cfg, s, failed, t, s');
  }

  lemma CompletedIsClosed(cfg: Config, s: State, t: TaskId, d: TaskId)
    requires BusyDepsDone(cfg, s) && t in s.completed && Reaches(cfg.deps, t, d)
    ensures d in s.completed
  {
    forall n, m | n in s.completed && m in Succ(cfg.deps, n) ensures m in s.completed {
      assert n in s.completed + s.running;
      assert DepsDone(cfg.deps, n, s.completed);
    }
    ClosedContainsReachable(cfg.deps, s.completed, t, d);
  }

  /** Completed tasks are closed under dependencies and ordered by completion, so none of them can
      reach a cycle or a missing task. */
  lemma CompletedAreBuildable(cfg: Config, s: State, t: TaskId)
    requires LiveBeforeUpdate(cfg, s) && t in s.completed
    ensures Buildable(cfg.deps, t)
  {
    var g := cfg.deps;
    var order: seq<TaskId> :| TopoOrder(g, order) && Elems(order) == s.completed;
    forall d | Reaches(g, t, d) ensures d in g && !OnCycle(g, d) {
      CompletedIsClosed(cfg, s, t, d);
      assert d in s.completed + s.running;
      assert DepsDone(g, d, s.completed);
      OrderExcludesCycle(g, order, d);
    }
  }

  ghost predicate ReachesOneOf(g: TaskGraph, t: TaskId, failed: set<TaskId>) {
    exists f :: f in failed && Reaches(g, t, f)
  }

  lemma DependencyIsAsGood(g: TaskGraph, t: TaskId, d: TaskId, failed: set<TaskId>)
    requires Buildable(g, t) && !ReachesOneOf(g, t, failed) && Edge(g, t, d)
    ensures Buildable(g, d) && !ReachesOneOf(g, d, failed)
  {
    EdgeReaches(g, t, d);
    forall x | Reaches(g, d, x) ensures Reaches(g, t, x) {
      ReachesTransitive(g, t, d, x);
    }
  }

  /** If the queue and the running set are empty, an uncompleted buildable task that reaches no failed
      one would have an uncompleted dependency of the same kind, and so on without end. */
  lemma {:induction false} NothingBuildableIsLeft(cfg: Config, s: State, failed: set<TaskId>, t: TaskId, k: nat)
    requires LiveInv(cfg, s, failed) && s.running == {} && s.queue == multiset{}
    requires Buildable(cfg.deps, t) && !ReachesOneOf(cfg.deps, t, failed) && DepthAtMost(cfg.deps, t, k)
    ensures t in s.completed
    decreases k
  {
    var g := cfg.deps;
    ReachesSelf(g, t);
    assert t in g && t !in failed && !InQueue(s.queue, t);
    if t !in s.completed {
      assert !DepsDone(g, t, s.completed);
      var d :| d in g[t] && d !in s.completed;
      assert Edge(g, t, d);
      DependencyIsAsGood(g, t, d, failed);
      NothingBuildableIsLeft(cfg, s, failed, d, k - 1);
    }
  }

  /** In every run that completes and fails only running tasks, failures or not, nothing is completed
      that reaches a dependency cycle or a missing dependency. */
  lemma OnlyBuildableIsCompleted(cfg: Config, ss: seq<State>, es: seq<Event>, i: nat, t: TaskId)
    requires cfg.Initialised() && Run(cfg, ss, es) && Disciplined(ss, es) && i < |ss|
    requires t in ss[i].completed
    ensures Buildable(cfg.deps, t)
  {
    RunStaysLive(cfg, ss, es, i);
    CompletedAreBuildable(cfg, ss[i], t);
  }

  /** When such a run has drained the queue and nothing is running, the completed tasks are exactly
      the buildable ones from which no task can be reached that failed after the last completion. */
  lemma QuiescentWithFailures(cfg: Config, ss: seq<State>, es: seq<Event>, i: nat, t: TaskId)
    requires cfg.Initialised() && Run(cfg, ss, es) && Disciplined(ss, es) && i < |ss|
    requires ss[i].queue == multiset{} && ss[i].running == {}
    ensures t in ss[i].completed <==> Buildable(cfg.deps, t) && !ReachesOneOf(cfg.deps, t, FailedSince(es, i))
  {
    var failed := FailedSince(es, i);
    RunStaysLive(cfg, ss, es, i);
    if t in ss[i].completed {
      CompletedAreBuildable(cfg, ss[i], t);
      forall f | Reaches(cfg.deps, t, f) ensures f !in failed {
        CompletedIsClosed(cfg, ss[i], t, f);
      }
    } else if Buildable(cfg.deps, t) && !ReachesOneOf(cfg.deps, t, failed) {
      NoCycleBoundsDepth(cfg.deps, t);
      NothingBuildableIsLeft(cfg, ss[i], failed, t, |Nodes(cfg.deps) + {t}|);
    }
  }

  /** When a failure-free run has drained the queue and nothing is running, the completed tasks are
      exactly those from which no dependency cycle and no missing dependency can be reached. */
  lemma QuiescentMeansDone(cfg: Config, ss: seq<State>, es: seq<Event>, i: nat, t: TaskId)
    requires cfg.Initialised() && Run(cfg, ss, es) && FailureFree(ss, es) && i < |ss|
    requires ss[i].queue == multiset{} && ss[i].running == {}
    ensures t in ss[i].completed <==> Buildable(cfg.deps, t)
  {
    NothingFailed(es, i);
    QuiescentWithFailures(cfg, ss, es, i, t);
  }

  /** On a closed acyclic graph that is every task. */
  lemma QuiescentMeansAllDone(cfg: Config, ss: seq<State>, es: seq<Event>, i: nat)
    requires cfg.Initialised() && Run(cfg, ss, es) && FailureFree(ss, es) && i < |ss|
    requires ss[i].queue == multiset{} && ss[i].running == {}
    requires Acyclic(cfg.deps) && Nodes(cfg.deps) == cfg.deps.Keys
    ensures ss[i].completed == cfg.deps.Keys
  {
    forall t ensures t in ss[i].completed <==> t in cfg.deps {
      QuiescentMeansDone(cfg, ss, es, i, t);
      if t in cfg.deps {
        forall d | Reaches(cfg.deps, t, d) ensures d in cfg.deps {
          ClosedContainsReachable(cfg.deps, cfg.deps.Keys, t, d);
        }
      } else {
        ReachesSelf(cfg.deps, t);
      }
    }
  }

  // ---- A failure-free run does come to rest ----

  /** A call that finds a non-empty queue hands something out. */
  lemma ReadyMakesProgress(cfg: Config, s: State, limit: nat, batch: seq<ScheduledTask>, s': State)
    requires QueueIdle(s) && GetReady(s, limit, batch, s') && limit > 0
    ensures batch == [] <==> s.queue == multiset{}
  {
    BatchIsBest(s, limit, batch, s');
    if batch == [] {
      assert multiset(batch) == multiset{} && s'.queue == multiset{};
      assert forall x :: x !in s.queue;
    } else {
      assert batch[0] in multiset(batch);
    }
  }

  /** Twice the completed tasks plus the running ones. */
  ghost function Work(s: State): nat {
    2 * |s.completed| + |s.running|
  }

  /** The events that do something: asking a non-empty queue, or completing a running task. */
  ghost predicate Productive(s: State, e: Event) {
    (e.Ready? && e.limit > 0 && s.queue != multiset{}) || (e.MarkCompleted? && e.id in s.running)
  }

  lemma ProductiveStepWorks(cfg: Config, s: State, e: Event, s': State)
    requires LiveBeforeUpdate(cfg, s) && Step(cfg, s, e, s') && Productive(s, e)
    ensures Work(s) < Work(s')
  {
    match e
    case Ready(limit, batch) =>
      ReadyMakesProgress(cfg, s, limit, batch, s');
      BatchIsBest(s, limit, batch, s');
      var first := batch[0];
      assert first.taskId in Ids(batch) && first.taskId !in s.running;
      SubsetSize(s.running + {first.taskId}, s'.running);
    case MarkCompleted(t) =>
      assert t !in s.completed;
      assert |s.completed + {t}| == |s.completed| + 1;
      assert |s.running - {t}| == |s.running| - 1;
    case _ =>
  }

  lemma SubsetSize(a: set<TaskId>, b: set<TaskId>)
    requires a <= b
    ensures |a| <= |b|
  {
    assert b == a + (b - a);
  }

  lemma {:induction false} WorkAccumulates(cfg: Config, ss: seq<State>, es: seq<Event>, i: nat)
    requires cfg.Initialised() && Run(cfg, ss, es) && FailureFree(ss, es) && i < |ss|
    requires forall k :: 0 <= k < i ==> Productive(ss[k], es[k])
    ensures i <= Work(ss[i])
    decreases i
  {
    if i > 0 {
      WorkAccumulates(cfg, ss, es, i - 1);
      RunStaysLive(cfg, ss, es, i - 1);
      ProductiveStepWorks(cfg, ss[i - 1], es[i - 1], ss[i]);
    }
  }

  /** A failure-free run in which every event does something has at most two events per task, so
      a caller that keeps asking and completing reaches the state of `QuiescentMeansDone`. */
  lemma ProductiveRunsAreShort(cfg: Config, ss: seq<State>, es: seq<Event>)
    requires cfg.Initialised() && Run(cfg, ss, es) && FailureFree(ss, es)
    requires forall k :: 0 <= k < |es| ==> Productive(ss[k], es[k])
    ensures |es| <= 2 * |cfg.deps|
  {
    var s := ss[|es|];
    WorkAccumulates(cfg, ss, es, |es|);
    RunStaysLive(cfg, ss, es, |es|);
    forall t | t in s.completed + s.running ensures t in cfg.deps.Keys {
      assert DepsDone(cfg.deps, t, s.completed);
    }
    SubsetSize(s.completed + s.running, cfg.deps.Keys);
    assert |s.completed + s.running| == |s.completed| + |s.running|;
  }
}
