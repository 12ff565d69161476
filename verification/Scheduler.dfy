/** The task scheduler object: its methods, proved to take exactly the steps of the state machine
    in SchedulerRuns. */
module Scheduler {
  import opened Wrappers
  import opened Digraph
  import opened RecipeGraph
  import opened TaskDependencies
  import opened SchedulerRuns

  const ESTIMATED_TIME_MS := 1000

  datatype SchedulerStats = SchedulerStats(totalTasks: nat, completed: nat, running: nat, ready: nat, pending: nat)

  function Owners(a: Arena): map<TaskId, RecipeId> {
    map t | t in a.tasks :: a.tasks[t].recipeId
  }

  /** The priorities that an analysis along `order` assigns. */
  ghost function PrioritiesAlong(g: TaskGraph, order: seq<TaskId>): map<TaskId, TaskPriority> {
    map t | t in Elems(order) ::
      TaskPriority(AnalysedLengths(g, order)[t], DepEntries(g, g.Keys)[t], ESTIMATED_TIME_MS)
  }

  /** The entries that the tasks in `done` contribute to an update of the queue. */
  function ReadyAmong(cfg: Config, s: State, done: set<TaskId>): set<ScheduledTask> {
    set t | t in done && Eligible(cfg, s, t) :: Scheduled(cfg, t)
  }

  /** The queue after the update has looked at the tasks in `done`. */
  function QueueAfter(cfg: Config, s: State, done: set<TaskId>): multiset<ScheduledTask> {
    s.queue + multiset(ReadyAmong(cfg, s, done))
  }

  /** The queue after one task's turn. */
  function QueueWith(cfg: Config, s: State, q: multiset<ScheduledTask>, t: TaskId): multiset<ScheduledTask> {
    if Eligible(cfg, s, t) then q + multiset{Scheduled(cfg, t)} else q
  }

  /** Looking at one more task adds its entry exactly if it is eligible and not queued by now. */
  lemma ReadyAmongAdd(cfg: Config, s: State, done: set<TaskId>, t: TaskId)
    requires t !in done
    ensures ReadyAmong(cfg, s, done + {t}) ==
            if Eligible(cfg, s, t) then ReadyAmong(cfg, s, done) + {Scheduled(cfg, t)} else ReadyAmong(cfg, s, done)
    ensures Eligible(cfg, s, t) ==> Scheduled(cfg, t) !in ReadyAmong(cfg, s, done)
  {
  }

  lemma QueueAfterAdd(cfg: Config, s: State, done: set<TaskId>, t: TaskId)
    requires t !in done
    ensures QueueAfter(cfg, s, done + {t}) == QueueWith(cfg, s, QueueAfter(cfg, s, done), t)
  {
    ReadyAmongAdd(cfg, s, done, t);
    if Eligible(cfg, s, t) {
      var before, x := ReadyAmong(cfg, s, done), Scheduled(cfg, t);
      assert multiset(before + {x}) == multiset(before) + multiset{x};
    }
  }

  lemma QueueAfterAll(cfg: Config, s: State, s': State)
    requires s'.completed == s.completed && s'.running == s.running
    requires s'.queue == QueueAfter(cfg, s, cfg.deps.Keys)
    ensures s' == UpdateQueue(cfg, s)
  {
    assert ReadyAmong(cfg, s, cfg.deps.Keys) == NewlyReady(cfg, s);
  }

  lemma EveryTaskIsOutside(a: Arena)
    ensures TasksOutside(a, {}) == TaskDeps(a).Keys
  {
  }

  lemma QueuedSinceStart(cfg: Config, s: State, done: set<TaskId>, t: TaskId)
    requires t !in done
    ensures InQueue(QueueAfter(cfg, s, done), t) <==> InQueue(s.queue, t)
  {
    var q := QueueAfter(cfg, s, done);
    if InQueue(q, t) {
      var x :| x in q && x.taskId == t;
      assert x in s.queue || x in ReadyAmong(cfg, s, done);
    }
    if InQueue(s.queue, t) {
      var x :| x in s.queue && x.taskId == t;
      assert x in q;
    }
  }

  lemma TurnOf(cfg: Config, s: State, done: set<TaskId>, t: TaskId, q: multiset<ScheduledTask>)
    requires t !in done && q == QueueAfter(cfg, s, done)
    ensures InQueue(q, t) <==> InQueue(s.queue, t)
    ensures QueueAfter(cfg, s, done + {t}) == QueueWith(cfg, s, q, t)
  {
    QueueAfterAdd(cfg, s, done, t);
    QueuedSinceStart(cfg, s, done, t);
  }

  lemma TaskIsNew(ids: seq<TaskId>, i: nat, done: set<TaskId>)
    requires i < |ids| && NoDup(ids) && Elems(ids) !! done
    ensures ids[i] !in done + Elems(ids[..i]) && ids[i] in Elems(ids)
    ensures done + Elems(ids[..i + 1]) == done + Elems(ids[..i]) + {ids[i]}
  {
    ElemsStep(ids, i);
  }

  /** `m` with the entries of `all` for the keys in `done`. */
  function Overwritten(m: map<TaskId, TaskPriority>, all: map<TaskId, TaskPriority>, done: set<TaskId>):
    map<TaskId, TaskPriority>
    requires done <= all.Keys
  {
    map t | t in m.Keys + done :: if t in done then all[t] else m[t]
  }

  lemma OverwriteStep(m: map<TaskId, TaskPriority>, all: map<TaskId, TaskPriority>, done: set<TaskId>, t: TaskId)
    requires done <= all.Keys && t in all
    ensures Overwritten(m, all, done + {t}) == Overwritten(m, all, done)[t := all[t]]
  {
  }

  lemma OverwriteAll(m: map<TaskId, TaskPriority>, all: map<TaskId, TaskPriority>)
    ensures Overwritten(m, all, all.Keys) == m + all
  {
  }

  /** The lengths that are known when the reversed order has been walked down to position i. */
  function LengthsDownTo(g: TaskGraph, sorted: seq<TaskId>, i: nat): map<TaskId, nat>
    requires i <= |sorted|
  {
    Lengths(g, Reverse(sorted[i..]))
  }

  lemma OneLengthMore(g: TaskGraph, sorted: seq<TaskId>, i: nat, next: nat)
    requires i < |sorted| && next == i + 1
    ensures var before := LengthsDownTo(g, sorted, next);
            LengthsDownTo(g, sorted, i) == before[sorted[i] := LengthOf(g, before, sorted[i])]
  {
    assert sorted[i..][1..] == sorted[next..] && sorted[i..][0] == sorted[i];
    LengthsReverseStep(g, sorted[i..]);
  }

  lemma AllLengths(g: TaskGraph, sorted: seq<TaskId>)
    ensures LengthsDownTo(g, sorted, |sorted|) == map[] && LengthsDownTo(g, sorted, 0) == AnalysedLengths(g, sorted)
  {
    assert sorted[|sorted|..] == [] && sorted[0..] == sorted;
  }

  class TaskScheduler {
    const graph: Arena
    var priorities: map<TaskId, TaskPriority>
    var completed: set<TaskId>
    var running: set<TaskId>
    var readyQueue: multiset<ScheduledTask>

    ghost function Cfg(): Config
      reads this`priorities
    {
      Config(TaskDeps(graph), Owners(graph), priorities)
    }

    ghost function View(): State
      reads this
    {
      State(completed, running, readyQueue)
    }

    constructor (graph: Arena)
      ensures this.graph == graph && priorities == map[] && View() == State({}, {}, multiset{})
    {
      this.graph := graph;
      priorities, completed, running, readyQueue := map[], {}, {}, multiset{};
    }

    /** Every task and every dangling dependency id gets a priority.  On an acyclic graph the
        critical path length is 1 throughout. */
    method AnalyzeCriticalPaths()
      requires graph.Valid()
      modifies this`priorities
      ensures exists order :: SchedulerOrder(TaskDeps(graph), order)
                              && priorities == old(priorities) + PrioritiesAlong(TaskDeps(graph), order)
      ensures Nodes(TaskDeps(graph)) <= priorities.Keys
      ensures Acyclic(TaskDeps(graph)) ==>
                forall t :: t in Nodes(TaskDeps(graph)) ==> priorities[t].criticalPathLength == 1
    {
      var taskDeps := BuildTaskDependencies(graph);
      var sorted := TopologicalSort(taskDeps);
      var criticalLengths := ComputeLengths(taskDeps, sorted);
      var dependentCounts := CountDependents(taskDeps);
      CachePriorities(sorted, criticalLengths, dependentCounts, PrioritiesAlong(taskDeps, sorted));
      if Acyclic(taskDeps) {
        ReversedLengths(taskDeps, sorted);
      }
      forall t | t in Nodes(taskDeps)
        ensures t in priorities && (Acyclic(taskDeps) ==> priorities[t].criticalPathLength == 1)
      {
        assert t in Elems(sorted) && t in PrioritiesAlong(taskDeps, sorted);
      }
    }

    method CachePriorities(sorted: seq<TaskId>, criticalLengths: map<TaskId, nat>, dependentCounts: map<TaskId, nat>,
                           ghost all: map<TaskId, TaskPriority>)
      requires all.Keys == Elems(sorted)
      requires forall t :: t in all ==>
                             all[t] == TaskPriority(CountOf(criticalLengths, t), CountOf(dependentCounts, t), ESTIMATED_TIME_MS)
      modifies this`priorities
      ensures priorities == old(priorities) + all
    {
      ghost var done: set<TaskId> := {};
      for i := 0 to |sorted|
        invariant done == Elems(sorted[..i]) && done <= all.Keys
        invariant priorities == Overwritten(old(priorities), all, done)
      {
        var t := sorted[i];
        ElemsStep(sorted, i);
        OverwriteStep(old(priorities), all, done, t);
        done := done + {t};
        var priority := TaskPriority(CountOf(criticalLengths, t), CountOf(dependentCounts, t), ESTIMATED_TIME_MS);
        priorities := priorities[t := priority];
      }
      assert sorted[..|sorted|] == sorted;
      OverwriteAll(old(priorities), all);
    }

    method ComputeLengths(g: TaskGraph, sorted: seq<TaskId>) returns (lengths: map<TaskId, nat>)
      ensures lengths == AnalysedLengths(g, sorted)
    {
      lengths := map[];
      var i := |sorted|;
      AllLengths(g, sorted);
      while i > 0
        invariant 0 <= i <= |sorted|
        invariant lengths == LengthsDownTo(g, sorted, i)
      {
        i := i - 1;
        var t := sorted[i];
        OneLengthMore(g, sorted, i, i + 1);
        var deps := if t in g then g[t] else [];
        if deps == [] {
          lengths := lengths[t := 1];
        } else {
          lengths := lengths[t := MaxRecorded(lengths, deps) + 1];
        }
      }
    }

    /** Initialising a new scheduler puts it into the initial state of its runs. */
    method Initialize()
      requires graph.Valid()
      modifies this
      ensures Cfg().Initialised() && View() == UpdateQueue(Cfg(), old(View()))
      ensures old(View()) == State({}, {}, multiset{}) ==> View() == Init(Cfg())
      ensures Acyclic(TaskDeps(graph)) ==>
                forall t :: t in Nodes(TaskDeps(graph)) ==> priorities[t].criticalPathLength == 1
    {
      AnalyzeCriticalPaths();
      UpdateReadyQueue();
    }

    method UpdateReadyQueue()
      requires graph.Valid()
      modifies this`readyQueue
      ensures View() == UpdateQueue(Cfg(), old(View()))
    {
      ghost var cfg, s := Cfg(), View();
      var taskDeps := BuildTaskDependencies(graph);
      ghost var done: set<TaskId> := {};
      var keys := graph.recipes.Keys;
      while keys != {}
        invariant keys <= graph.recipes.Keys
        invariant done == TasksOutside(graph, keys)
        invariant readyQueue == QueueAfter(cfg, s, done)
        decreases keys
      {
        var r :| r in keys;
        var ids := graph.TasksOf(graph.recipes[r].id);
        RecipeTaskIds(graph, keys, r);
        ConsiderTasks(ids, taskDeps, cfg, s, done);
        done := done + Elems(ids);
        keys := keys - {r};
      }
      EveryTaskIsOutside(graph);
      QueueAfterAll(cfg, s, View());
    }

    method ConsiderTasks(ids: seq<TaskId>, taskDeps: TaskGraph, ghost cfg: Config, ghost s: State,
                         ghost done0: set<TaskId>)
      requires graph.Valid() && taskDeps == TaskDeps(graph)
      requires NoDup(ids) && Elems(ids) !! done0 && Elems(ids) <= ScheduledTasks(graph)
      requires s.completed == completed && s.running == running
      requires cfg == Cfg() && readyQueue == QueueAfter(cfg, s, done0)
      modifies this`readyQueue
      ensures readyQueue == QueueAfter(cfg, s, done0 + Elems(ids))
    {
      ghost var done := done0;
      for i := 0 to |ids|
        invariant done == done0 + Elems(ids[..i])
        invariant readyQueue == QueueAfter(cfg, s, done)
      {
        TaskIsNew(ids, i, done0);
        TurnOf(cfg, s, done, ids[i], readyQueue);
        ConsiderTask(graph.tasks[ids[i]], taskDeps, s);
        done := done + {ids[i]};
      }
      assert ids[..|ids|] == ids;
    }

    /** One task's turn in the update: `s` is the state in which the update began. */
    method ConsiderTask(task: TaskNode, taskDeps: TaskGraph, ghost s: State)
      requires graph.Valid() && taskDeps == TaskDeps(graph)
      requires task.id in ScheduledTasks(graph) && graph.tasks[task.id] == task
      requires s.completed == completed && s.running == running
      requires InQueue(readyQueue, task.id) <==> InQueue(s.queue, task.id)
      modifies this`readyQueue
      ensures readyQueue == QueueWith(Cfg(), s, old(readyQueue), task.id)
    {
      if task.id in completed || task.id in running {
        return;
      }
      if InQueue(readyQueue, task.id) {
        return;
      }
      var deps := taskDeps[task.id];
      if forall d :: d in deps ==> d in completed {
        if task.id in priorities {
          readyQueue := readyQueue + multiset{ScheduledTask(task.id, task.recipeId, priorities[task.id])};
        }
      }
    }

    method GetReadyTasks(limit: nat) returns (ready: seq<ScheduledTask>)
      modifies this`readyQueue, this`running
      ensures Step(Cfg(), old(View()), Ready(limit, ready), View())
    {
      ghost var s, popped := View(), [];
      ready, popped := PopReady(limit);
      MarkAllRunning(ready);
      assert PopsBatch(s.completed + s.running, s.queue, limit, popped, ready, readyQueue);
    }

    method MarkAllRunning(ready: seq<ScheduledTask>)
      modifies this`running
      ensures running == old(running) + Ids(ready)
    {
      for i := 0 to |ready|
        invariant running == old(running) + Ids(ready[..i])
      {
        IdsStep(ready, i);
        running := running + {ready[i].taskId};
      }
      assert ready[..|ready|] == ready;
    }

    /** `BinaryHeap::pop` on a non-empty heap: any entry of maximal priority. */
    method PopMax() returns (task: ScheduledTask)
      requires readyQueue != multiset{}
      modifies this`readyQueue
      ensures old(readyQueue) == readyQueue + multiset{task} && IsMax(readyQueue + multiset{task}, task)
    {
      MaxExists(readyQueue);
      task :| task in readyQueue && IsMax(readyQueue, task);
      readyQueue := readyQueue - multiset{task};
    }

    method PopReady(limit: nat) returns (ready: seq<ScheduledTask>, ghost popped: seq<ScheduledTask>)
      modifies this`readyQueue
      ensures PopsBatch(completed + running, old(readyQueue), limit, popped, ready, readyQueue)
    {
      ghost var busy, q0 := completed + running, readyQueue;
      ready, popped := [], [];
      while |ready| < limit && readyQueue != multiset{}
        invariant |ready| <= limit && ready == HandedOut(busy, popped)
        invariant PoppedSoFar(busy, q0, limit, popped, readyQueue)
        decreases |readyQueue|
      {
        var task := PopMax();
        PopOneMore(busy, q0, limit, popped, task, readyQueue, readyQueue + multiset{task});
        popped := popped + [task];
        if task.taskId !in completed && task.taskId !in running {
          ready := ready + [task];
        }
      }
      PoppedToTheEnd(busy, q0, limit, popped, readyQueue);
    }

    method MarkTaskRunning(t: TaskId)
      modifies this`running
      ensures Step(Cfg(), old(View()), MarkRunning(t), View())
    {
      running := running + {t};
    }

    method MarkTaskCompleted(t: TaskId)
      requires graph.Valid()
      modifies this`running, this`completed, this`readyQueue
      ensures Step(Cfg(), old(View()), MarkCompleted(t), View())
    {
      ghost var s := View();
      running := running - {t};
      completed := completed + {t};
      assert View() == Complete(s, t);
      UpdateReadyQueue();
    }

    method MarkTaskFailed(t: TaskId)
      modifies this`running
      ensures Step(Cfg(), old(View()), MarkFailed(t), View())
    {
      running := running - {t};
    }

    /** None stands for the overflow of the unsigned subtraction. */
    method GetStats() returns (stats: Option<SchedulerStats>)
      ensures stats.Some? <==> |priorities| - |completed| >= 0 && |priorities| - |completed| - |running| >= 0
      ensures stats.Some? ==>
                stats.value == SchedulerStats(|priorities|, |completed|, |running|, |readyQueue|,
                                              |priorities| - |completed| - |running|)
      ensures BusyOk(Cfg(), View()) ==>
                stats.Some? && stats.value.pending == |priorities.Keys - completed - running|
    {
      if BusyOk(Cfg(), View()) {
        SubsetDifference(priorities.Keys, completed);
        SubsetDifference(priorities.Keys - completed, running);
      }
      if |priorities| < |completed| || |priorities| - |completed| < |running| {
        return None;
      }
      return Some(SchedulerStats(|priorities|, |completed|, |running|, |readyQueue|,
                                 |priorities| - |completed| - |running|));
    }
  }

  lemma {:induction false} HandedOutAppend(busy: set<TaskId>, popped: seq<ScheduledTask>, x: ScheduledTask)
    ensures HandedOut(busy, popped + [x]) == HandedOut(busy, popped) + if x.taskId in busy then [] else [x]
  {
    if popped == [] {
      assert popped + [x] == [x];
    } else {
      var longer := popped + [x];
      assert longer[0] == popped[0] && longer[1..] == popped[1..] + [x];
      HandedOutAppend(busy, popped[1..], x);
      var first, rest := if popped[0].taskId in busy then [] else [popped[0]], HandedOut(busy, popped[1..]);
      var last := if x.taskId in busy then [] else [x];
      assert HandedOut(busy, popped) == first + rest;
      assert HandedOut(busy, longer) == first + (rest + last) == (first + rest) + last;
    }
  }

  /** The loop so far: the last popped entry was maximal when it was taken, and the limit had not
      been reached before it. */
  ghost predicate PoppedSoFar(busy: set<TaskId>, q0: multiset<ScheduledTask>, limit: nat,
                              popped: seq<ScheduledTask>, q: multiset<ScheduledTask>)
  {
    if popped == [] then q == q0
    else
      var n := |popped| - 1;
      var before := q + multiset{popped[n]};
      && |HandedOut(busy, popped[..n])| < limit
      && IsMax(before, popped[n])
      && PoppedSoFar(busy, q0, limit, popped[..n], before)
  }

  lemma PopOneMore(busy: set<TaskId>, q0: multiset<ScheduledTask>, limit: nat, popped: seq<ScheduledTask>,
                   x: ScheduledTask, q: multiset<ScheduledTask>, before: multiset<ScheduledTask>)
    requires PoppedSoFar(busy, q0, limit, popped, before) && before == q + multiset{x}
    requires IsMax(before, x) && |HandedOut(busy, popped)| < limit
    ensures PoppedSoFar(busy, q0, limit, popped + [x], q)
    ensures HandedOut(busy, popped + [x]) == HandedOut(busy, popped) + if x.taskId in busy then [] else [x]
  {
    HandedOutAppend(busy, popped, x);
    assert (popped + [x])[..|popped|] == popped;
  }

  lemma PoppedToTheEnd(busy: set<TaskId>, q0: multiset<ScheduledTask>, limit: nat, popped: seq<ScheduledTask>,
                       rest: multiset<ScheduledTask>)
    requires PoppedSoFar(busy, q0, limit, popped, rest) && |HandedOut(busy, popped)| <= limit
    requires |HandedOut(busy, popped)| == limit || rest == multiset{}
    ensures Pops(busy, q0, limit, popped, rest)
  {
    assert popped[..|popped|] == popped && popped[|popped|..] == [];
    PoppedMeansPops(busy, q0, limit, popped, |popped|, rest, rest);
  }

  /** Pops recorded from the front up to k, followed by pops from k on, are pops of the whole. */
  lemma {:induction false} PoppedMeansPops(busy: set<TaskId>, q0: multiset<ScheduledTask>, limit: nat,
                                           all: seq<ScheduledTask>, k: nat,
                                           q: multiset<ScheduledTask>, rest: multiset<ScheduledTask>)
    requires PoppedAt(busy, q0, limit, all, k, q, rest)
    ensures Pops(busy, q0, limit, all, rest)
    decreases k
  {
    if k == 0 {
      assert all[0..] == all && all[..0] == [];
    } else {
      var before := StepBack(busy, q0, limit, all, k, k - 1, q, rest);
      PoppedMeansPops(busy, q0, limit, all, k - 1, before, rest);
    }
  }

  ghost predicate PoppedAt(busy: set<TaskId>, q0: multiset<ScheduledTask>, limit: nat, all: seq<ScheduledTask>, k: nat,
                           q: multiset<ScheduledTask>, rest: multiset<ScheduledTask>)
  {
    && k <= |all| && |HandedOut(busy, all[..k])| <= limit
    && PoppedSoFar(busy, q0, limit, all[..k], q)
    && Pops(busy, q, limit - |HandedOut(busy, all[..k])|, all[k..], rest)
  }

  lemma LastPop(busy: set<TaskId>, q0: multiset<ScheduledTask>, limit: nat, front: seq<ScheduledTask>,
                x: ScheduledTask, popped: seq<ScheduledTask>, q: multiset<ScheduledTask>, before: multiset<ScheduledTask>)
    requires popped == front + [x] && before == q + multiset{x} && PoppedSoFar(busy, q0, limit, popped, q)
    ensures |HandedOut(busy, front)| < limit && IsMax(before, x) && PoppedSoFar(busy, q0, limit, front, before)
  {
    assert popped[..|popped| - 1] == front && popped[|popped| - 1] == x;
  }

  lemma StepBack(busy: set<TaskId>, q0: multiset<ScheduledTask>, limit: nat, all: seq<ScheduledTask>, k: nat, j: nat,
                 q: multiset<ScheduledTask>, rest: multiset<ScheduledTask>) returns (before: multiset<ScheduledTask>)
    requires k == j + 1 && PoppedAt(busy, q0, limit, all, k, q, rest)
    ensures PoppedAt(busy, q0, limit, all, j, before, rest)
  {
    var x := all[j];
    before := q + multiset{x};
    var front, tail := all[..j], all[j..];
    assert all[..k] == front + [x] && tail[1..] == all[k..];
    LastPop(busy, q0, limit, front, x, all[..k], q, before);
    HandedOutAppend(busy, front, x);
    var need: nat, less: nat := limit - |HandedOut(busy, front)|, limit - |HandedOut(busy, all[..k])|;
    assert less == if x.taskId in busy then need else need - 1;
    OnePop(busy, before, need, tail, q, less, all[k..], rest);
  }

  lemma OnePop(busy: set<TaskId>, q: multiset<ScheduledTask>, need: nat, popped: seq<ScheduledTask>,
               q': multiset<ScheduledTask>, need': nat, popped': seq<ScheduledTask>, rest: multiset<ScheduledTask>)
    requires need > 0 && popped != [] && IsMax(q, popped[0])
    requires q == q' + multiset{popped[0]} && popped' == popped[1..]
    requires need' == if popped[0].taskId in busy then need else need - 1
    requires Pops(busy, q', need', popped', rest)
    ensures Pops(busy, q, need, popped, rest)
  {
    assert q - multiset{popped[0]} == q';
  }

  lemma IdsStep(batch: seq<ScheduledTask>, i: nat)
    requires i < |batch|
    ensures Ids(batch[..i + 1]) == Ids(batch[..i]) + {batch[i].taskId}
  {
    assert batch[..i + 1] == batch[..i] + [batch[i]];
  }
}
