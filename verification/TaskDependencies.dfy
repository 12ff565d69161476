/** Task dependencies drawn from the recipe graph, the scheduler's own depth-first order over them,
    and the critical-path recurrence that is run along that order. */
module TaskDependencies {
  import Text
  import opened Wrappers
  import opened Digraph
  import opened RecipeGraph

  type TaskGraph = map<TaskId, seq<TaskId>>

  const SYSROOT_TASK := "do_populate_sysroot"

  predicate StringContains(s: string, part: string) {
    exists i :: 0 <= i <= |s| && Text.OccursAt(s, part, i)
  }

  /** Only tasks with such a name wait for the sysroot of the recipes their recipe depends on. */
  predicate NeedsSysroot(name: string) {
    StringContains(name, "compile") || StringContains(name, "install") || StringContains(name, "configure")
  }

  /** The id a declared dependency stands for: its own id, or else a lookup by name. */
  function Resolve(a: Arena, dep: TaskDependency): Option<TaskId> {
    if dep.taskId.Some? then dep.taskId else a.FindTask(dep.recipeId, dep.taskName)
  }

  function OrNothing(o: Option<TaskId>): seq<TaskId> {
    if o.Some? then [o.value] else []
  }

  function ResolvedDeps(a: Arena, deps: seq<TaskDependency>): seq<TaskId> {
    if deps == [] then [] else ResolvedDeps(a, deps[..|deps| - 1]) + OrNothing(Resolve(a, deps[|deps| - 1]))
  }

  function SysrootDeps(a: Arena, recipes: seq<RecipeId>): seq<TaskId> {
    if recipes == [] then []
    else SysrootDeps(a, recipes[..|recipes| - 1]) + OrNothing(a.FindTask(recipes[|recipes| - 1], SYSROOT_TASK))
  }

  function DepsOfTask(a: Arena, recipe: Recipe, task: TaskNode): seq<TaskId> {
    task.after + ResolvedDeps(a, task.taskDepends)
    + if NeedsSysroot(task.name) then SysrootDeps(a, recipe.depends) else []
  }

  /** The tasks whose recipe exists. */
  function ScheduledTasks(a: Arena): set<TaskId> {
    set t | t in a.tasks && a.tasks[t].recipeId in a.recipes
  }

  function TaskDeps(a: Arena): TaskGraph {
    map t | t in ScheduledTasks(a) :: DepsOfTask(a, a.recipes[a.tasks[t].recipeId], a.tasks[t])
  }

  lemma {:induction false} ResolvedDepsMembers(a: Arena, deps: seq<TaskDependency>, d: TaskId)
    ensures d in ResolvedDeps(a, deps) <==>
            exists x :: x in deps && if x.taskId.Some? then x.taskId.value == d else a.FindTask(x.recipeId, x.taskName) == Some(d)
  {
    if deps != [] {
      var n := |deps| - 1;
      ResolvedDepsMembers(a, deps[..n], d);
      assert deps == deps[..n] + [deps[n]];
    }
  }

  lemma {:induction false} SysrootDepsMembers(a: Arena, recipes: seq<RecipeId>, d: TaskId)
    ensures d in SysrootDeps(a, recipes) <==> exists r :: r in recipes && a.FindTask(r, SYSROOT_TASK) == Some(d)
  {
    if recipes != [] {
      var n := |recipes| - 1;
      SysrootDepsMembers(a, recipes[..n], d);
      assert recipes == recipes[..n] + [recipes[n]];
    }
  }

  /** name is word with something before and after it. */
  predicate IsAround(name: string, before: string, word: string, after: string) {
    name == before + word + after
  }

  lemma OccurrenceIsAround(name: string, word: string, i: nat)
    requires Text.OccursAt(name, word, i)
    ensures IsAround(name, name[..i], word, name[i + |word|..])
  {
  }

  lemma AroundIsOccurrence(name: string, before: string, word: string, after: string)
    requires IsAround(name, before, word, after)
    ensures StringContains(name, word)
  {
    assert Text.OccursAt(name, word, |before|);
  }

  ghost predicate NamesWork(name: string) {
    exists before, word, after :: word in {"compile", "install", "configure"} && IsAround(name, before, word, after)
  }

  /** A task waits for sysroots exactly if its name is one of three words with anything around it. */
  lemma SysrootNames(name: string)
    ensures NeedsSysroot(name) <==> NamesWork(name)
  {
    if word :| word in {"compile", "install", "configure"} && StringContains(name, word) {
      var i: nat :| 0 <= i <= |name| && Text.OccursAt(name, word, i);
      OccurrenceIsAround(name, word, i);
    }
    if before, word, after :| word in {"compile", "install", "configure"} && IsAround(name, before, word, after) {
      AroundIsOccurrence(name, before, word, after);
    }
  }

  /** What a task waits for, said without the loops: its `after` tasks, what its declared
      dependencies resolve to, and the sysroot tasks of its recipe's dependencies if it needs them.
      Its `before` list plays no part. */
  lemma TaskDepsMembers(a: Arena, t: TaskId, d: TaskId)
    requires t in ScheduledTasks(a)
    ensures var task := a.tasks[t]; var recipe := a.recipes[task.recipeId];
            d in TaskDeps(a)[t] <==>
            || d in task.after
            || (exists x :: x in task.taskDepends
                            && if x.taskId.Some? then x.taskId.value == d else a.FindTask(x.recipeId, x.taskName) == Some(d))
            || (NamesWork(task.name)
                && exists r :: r in recipe.depends && a.FindTask(r, "do_populate_sysroot") == Some(d))
  {
    var task := a.tasks[t];
    SysrootNames(task.name);
    ResolvedDepsMembers(a, task.taskDepends, d);
    SysrootDepsMembers(a, a.recipes[task.recipeId].depends, d);
  }

  /** The scheduled tasks of all recipes but those in `keys`. */
  function TasksOutside(a: Arena, keys: set<RecipeId>): set<TaskId> {
    set t | t in ScheduledTasks(a) && a.tasks[t].recipeId !in keys
  }

  /** The tasks listed under a recipe are the scheduled tasks of that recipe, each listed once. */
  lemma RecipeTaskIds(a: Arena, keys: set<RecipeId>, r: RecipeId)
    requires a.Valid() && r in a.recipes && r in keys
    ensures a.recipes[r].id == r && NoDup(a.TasksOf(r))
    ensures forall t :: t in a.TasksOf(r) ==> t in ScheduledTasks(a) && a.tasks[t].recipeId == r
    ensures Elems(a.TasksOf(r)) <= ScheduledTasks(a) && Elems(a.TasksOf(r)) !! TasksOutside(a, keys)
    ensures TasksOutside(a, keys - {r}) == TasksOutside(a, keys) + Elems(a.TasksOf(r))
  {
    forall t ensures t in a.TasksOf(r) <==> t in ScheduledTasks(a) && a.tasks[t].recipeId == r {
      if t in a.TasksOf(r) { assert r in a.recipeToTasks && t in a.recipeToTasks[r]; }
      if t in a.tasks { assert a.tasks[t].recipeId in a.recipeToTasks && t in a.recipeToTasks[a.tasks[t].recipeId]; }
    }
  }

  method BuildTaskDependencies(a: Arena) returns (depsMap: TaskGraph)
    requires a.Valid()
    ensures depsMap == TaskDeps(a)
  {
    depsMap := map[];
    var keys := a.recipes.Keys;
    while keys != {}
      invariant keys <= a.recipes.Keys
      invariant depsMap.Keys == TasksOutside(a, keys)
      invariant forall t :: t in depsMap ==> depsMap[t] == TaskDeps(a)[t]
      decreases keys
    {
      var r :| r in keys;
      RecipeTaskIds(a, keys, r);
      depsMap := AddRecipeDeps(a, r, depsMap);
      keys := keys - {r};
    }
  }

  method AddRecipeDeps(a: Arena, r: RecipeId, depsMap0: TaskGraph) returns (depsMap: TaskGraph)
    requires a.Valid() && r in a.recipes && a.recipes[r].id == r
    requires Elems(a.TasksOf(r)) <= ScheduledTasks(a)
    requires forall t :: t in a.TasksOf(r) ==> a.tasks[t].recipeId == r
    requires forall t :: t in depsMap0 ==> t in ScheduledTasks(a) && depsMap0[t] == TaskDeps(a)[t]
    ensures depsMap.Keys == depsMap0.Keys + Elems(a.TasksOf(r))
    ensures forall t :: t in depsMap ==> t in ScheduledTasks(a) && depsMap[t] == TaskDeps(a)[t]
  {
    depsMap := depsMap0;
    var recipe := a.recipes[r];
    var ids := a.TasksOf(recipe.id);
    for i := 0 to |ids|
      invariant depsMap.Keys == depsMap0.Keys + Elems(ids[..i])
      invariant forall t :: t in depsMap ==> t in ScheduledTasks(a) && depsMap[t] == TaskDeps(a)[t]
    {
      ElemsStep(ids, i);
      var task := a.tasks[ids[i]];
      var taskDeps := CollectDeps(a, recipe, task);
      depsMap := depsMap[task.id := taskDeps];
    }
    assert ids[..|ids|] == ids;
  }

  method CollectDeps(a: Arena, recipe: Recipe, task: TaskNode) returns (taskDeps: seq<TaskId>)
    ensures taskDeps == DepsOfTask(a, recipe, task)
  {
    taskDeps := task.after;
    for i := 0 to |task.taskDepends|
      invariant taskDeps == task.after + ResolvedDeps(a, task.taskDepends[..i])
    {
      var dep := task.taskDepends[i];
      ResolvedDepsStep(a, task.taskDepends, i);
      if dep.taskId.Some? {
        taskDeps := taskDeps + [dep.taskId.value];
      } else {
        var resolved := a.FindTask(dep.recipeId, dep.taskName);
        if resolved.Some? {
          taskDeps := taskDeps + [resolved.value];
        }
      }
    }
    assert task.taskDepends[..|task.taskDepends|] == task.taskDepends;
    taskDeps := AddSysrootDeps(a, recipe, task, taskDeps);
  }

  method AddSysrootDeps(a: Arena, recipe: Recipe, task: TaskNode, declared: seq<TaskId>) returns (taskDeps: seq<TaskId>)
    ensures taskDeps == declared + if NeedsSysroot(task.name) then SysrootDeps(a, recipe.depends) else []
  {
    taskDeps := declared;
    for i := 0 to |recipe.depends|
      invariant taskDeps == declared + if NeedsSysroot(task.name) then SysrootDeps(a, recipe.depends[..i]) else []
    {
      SysrootDepsStep(a, recipe.depends, i);
      var sysroot := a.FindTask(recipe.depends[i], SYSROOT_TASK);
      if sysroot.Some? {
        if NeedsSysroot(task.name) {
          taskDeps := taskDeps + [sysroot.value];
        }
      }
    }
    assert recipe.depends[..|recipe.depends|] == recipe.depends;
  }

  lemma ResolvedDepsStep(a: Arena, deps: seq<TaskDependency>, i: nat)
    requires i < |deps|
    ensures ResolvedDeps(a, deps[..i + 1]) == ResolvedDeps(a, deps[..i]) + OrNothing(Resolve(a, deps[i]))
  {
    assert deps[..i + 1][..i] == deps[..i];
  }

  lemma SysrootDepsStep(a: Arena, recipes: seq<RecipeId>, i: nat)
    requires i < |recipes|
    ensures SysrootDeps(a, recipes[..i + 1])
            == SysrootDeps(a, recipes[..i]) + OrNothing(a.FindTask(recipes[i], SYSROOT_TASK))
  {
    assert recipes[..i + 1][..i] == recipes[..i];
  }

  // ---- The scheduler's depth-first order ----

  /** What the order promises on every graph, cyclic ones included: all nodes (dangling ids too),
      each once; and dependencies first if there is no cycle. */
  ghost predicate SchedulerOrder(g: TaskGraph, sorted: seq<TaskId>) {
    && NoDup(sorted)
    && Elems(sorted) == Nodes(g)
    && (Acyclic(g) ==> TopoOrder(g, sorted))
  }

  ghost predicate VisitState(g: TaskGraph, visited: set<TaskId>, tempMark: set<TaskId>, sorted: seq<TaskId>) {
    && NoDup(sorted)
    && visited == Elems(sorted) && visited !! tempMark && visited <= Nodes(g)
    && (Acyclic(g) ==> TopoOrder(g, sorted))
    && forall n, d :: n in visited && d in Succ(g, n) ==> d in visited || d in tempMark
  }

  method TopologicalSort(g: TaskGraph) returns (sorted: seq<TaskId>)
    ensures SchedulerOrder(g, sorted)
  {
    sorted := [];
    var visited: set<TaskId>, tempMark: set<TaskId> := {}, {};
    var keys := g.Keys;
    while keys != {}
      invariant keys <= g.Keys && tempMark == {}
      invariant VisitState(g, visited, tempMark, sorted)
      invariant g.Keys - keys <= visited
      decreases keys
    {
      var t :| t in keys;
      keys := keys - {t};
      visited, tempMark, sorted := Visit(t, g, visited, tempMark, sorted, []);
    }
    forall d | d in Nodes(g) ensures d in visited {
      if d !in g {
        var k :| k in g && d in g[k];
        assert d in Succ(g, k);
      }
    }
  }

  method Visit(task: TaskId, g: TaskGraph, visited0: set<TaskId>, tempMark0: set<TaskId>,
               sorted0: seq<TaskId>, ghost path: seq<TaskId>)
    returns (visited: set<TaskId>, tempMark: set<TaskId>, sorted: seq<TaskId>)
    requires task in Nodes(g) && LeadsTo(g, path, task) && Elems(path) == tempMark0
    requires VisitState(g, visited0, tempMark0, sorted0)
    ensures VisitState(g, visited, tempMark, sorted)
    ensures tempMark == tempMark0 && visited0 <= visited
    ensures task in visited || task in tempMark
    ensures Acyclic(g) ==> task in visited
    decreases Nodes(g) - visited0 - tempMark0
  {
    visited, tempMark, sorted := visited0, tempMark0, sorted0;
    if task in visited {
      return;
    }
    if task in tempMark {
      StackHitMeansCycle(g, path, task);
      return;
    }
    tempMark := tempMark + {task};
    ghost var path' := path + [task];
    PathStepExtends(g, path, task);
    assert Elems(path') == tempMark;
    if task in g {
      var deps := g[task];
      for i := 0 to |deps|
        invariant tempMark == tempMark0 + {task} && visited0 <= visited
        invariant VisitState(g, visited, tempMark, sorted)
        invariant forall j :: 0 <= j < i ==> deps[j] in visited || deps[j] in tempMark
        invariant Acyclic(g) ==> forall j :: 0 <= j < i ==> deps[j] in visited
      {
        assert Edge(g, task, deps[i]);
        SuccInNodes(g, task, deps[i]);
        assert LeadsTo(g, path', deps[i]);
        visited, tempMark, sorted := Visit(deps[i], g, visited, tempMark, sorted, path');
      }
    }
    FinishTask(g, task, visited, tempMark, sorted);
    tempMark := tempMark - {task};
    visited := visited + {task};
    sorted := sorted + [task];
  }

  lemma FinishTask(g: TaskGraph, task: TaskId, visited: set<TaskId>, tempMark: set<TaskId>, sorted: seq<TaskId>)
    requires VisitState(g, visited, tempMark, sorted) && task in tempMark && task in Nodes(g)
    requires forall d :: d in Succ(g, task) ==> d in visited || d in tempMark
    requires Acyclic(g) ==> forall d :: d in Succ(g, task) ==> d in visited
    ensures VisitState(g, visited + {task}, tempMark - {task}, sorted + [task])
  {
    assert task !in Elems(sorted);
    assert Elems(sorted + [task]) == Elems(sorted) + {task};
    if Acyclic(g) {
      forall d | d in Succ(g, task) ensures d in sorted {
        assert d in Elems(sorted);
      }
      ExtendOrder(g, sorted, task);
    }
  }

  // ---- Critical paths ----

  /** The longest length recorded for any of the dependencies, 0 for those without a record. */
  function MaxRecorded(m: map<TaskId, nat>, deps: seq<TaskId>): (n: nat)
    ensures forall d :: d in deps && d in m ==> m[d] <= n
    ensures n > 0 ==> exists d :: d in deps && d in m && m[d] == n
  {
    if deps == [] then 0
    else
      var rest := MaxRecorded(m, deps[..|deps| - 1]);
      var last := deps[|deps| - 1];
      var here := if last in m then m[last] else 0;
      assert deps == deps[..|deps| - 1] + [last];
      if rest < here then here else rest
  }

  function LengthOf(g: TaskGraph, m: map<TaskId, nat>, t: TaskId): nat {
    if Succ(g, t) == [] then 1 else MaxRecorded(m, Succ(g, t)) + 1
  }

  /** The lengths that the recurrence records when it walks over `order`. */
  function Lengths(g: TaskGraph, order: seq<TaskId>): (m: map<TaskId, nat>)
    ensures m.Keys == Elems(order)
  {
    if order == [] then map[]
    else
      var n := |order| - 1;
      var m := Lengths(g, order[..n]);
      assert order == order[..n] + [order[n]];
      m[order[n] := LengthOf(g, m, order[n])]
  }

  /** A dependency chain that ends at t, read from t backwards: each entry depends on the next. */
  ghost predicate IsChain(g: TaskGraph, t: TaskId, p: seq<TaskId>) {
    Walk(g, p) && p[0] == t
  }

  /** n is the number of tasks on a longest dependency chain that ends at t. */
  ghost predicate IsLongestChain(g: TaskGraph, t: TaskId, n: nat) {
    && (exists p :: IsChain(g, t, p) && |p| == n)
    && (forall p :: IsChain(g, t, p) ==> |p| <= n)
  }

  lemma LongestChainUnique(g: TaskGraph, t: TaskId, n: nat, m: nat)
    requires IsLongestChain(g, t, n) && IsLongestChain(g, t, m)
    ensures n == m
  {
  }

  /** The recurrence is right at t when the dependencies of t carry their own longest chains. */
  lemma LongestFromDeps(g: TaskGraph, m: map<TaskId, nat>, t: TaskId)
    requires forall d :: d in Succ(g, t) ==> d in m && IsLongestChain(g, d, m[d])
    ensures IsLongestChain(g, t, LengthOf(g, m, t))
  {
    var n := LengthOf(g, m, t);
    forall p | IsChain(g, t, p) ensures |p| <= n {
      if |p| > 1 {
        assert Edge(g, p[0], p[1]);
        assert IsChain(g, p[1], p[1..]);
      }
    }
    assert exists p :: IsChain(g, t, p) && |p| == n by {
      assert IsChain(g, t, [t]);
      if n > 1 {
        var d :| d in Succ(g, t) && d in m && m[d] == n - 1;
        var q :| IsChain(g, d, q) && |q| == n - 1;
        var p := [t] + q;
        forall i | 0 <= i < |p| - 1 ensures Edge(g, p[i], p[i + 1]) {
          if i > 0 { assert Edge(g, q[i - 1], q[i]); }
        }
        assert IsChain(g, t, p);
      }
    }
  }

  /** Run over a dependencies-first order, the recurrence computes longest chains: the stated
      intent of the analysis. */
  lemma {:induction false} ForwardOrderGivesLongestChains(g: TaskGraph, order: seq<TaskId>, t: TaskId)
    requires TopoOrder(g, order) && t in order
    ensures IsLongestChain(g, t, Lengths(g, order)[t])
    decreases |order|
  {
    var n := |order| - 1;
    var front := order[..n];
    assert order == front + [order[n]];
    TopoPrefix(g, order, n);
    if t == order[n] {
      forall d | d in Succ(g, t) ensures d in Lengths(g, front) && IsLongestChain(g, d, Lengths(g, front)[d]) {
        ForwardOrderGivesLongestChains(g, front, d);
      }
      LongestFromDeps(g, Lengths(g, front), t);
    } else {
      ForwardOrderGivesLongestChains(g, front, t);
    }
  }

  lemma TopoPrefix(g: TaskGraph, order: seq<TaskId>, n: nat)
    requires TopoOrder(g, order) && n <= |order|
    ensures TopoOrder(g, order[..n])
  {
    forall i | 0 <= i < n ensures order[..n][..i] == order[..i] {}
  }

  function Reverse(s: seq<TaskId>): (r: seq<TaskId>)
    ensures |r| == |s| && forall i :: 0 <= i < |s| ==> r[i] == s[|s| - 1 - i]
  {
    seq(|s|, i requires 0 <= i < |s| => s[|s| - 1 - i])
  }

  /** Nothing in the sequence depends on a later entry. */
  ghost predicate NoLaterDeps(g: TaskGraph, s: seq<TaskId>) {
    forall i, d :: 0 <= i < |s| && d in Succ(g, s[i]) ==> d !in s[i + 1..]
  }

  lemma TopoOrderHasNoLaterDeps(g: TaskGraph, order: seq<TaskId>)
    requires TopoOrder(g, order)
    ensures NoLaterDeps(g, order)
  {
    forall i, d | 0 <= i < |order| && d in Succ(g, order[i]) ensures d !in order[i + 1..] {
      assert d in order[..i];
      var k :| 0 <= k < i && order[k] == d;
      forall j | i + 1 <= j < |order| ensures order[j] != d {}
    }
  }

  lemma NothingRecorded(g: TaskGraph, m: map<TaskId, nat>, t: TaskId)
    requires forall d :: d in Succ(g, t) ==> d !in m
    ensures LengthOf(g, m, t) == 1
  {
    assert MaxRecorded(m, Succ(g, t)) == 0;
  }

  lemma ReverseElems(s: seq<TaskId>)
    ensures Elems(Reverse(s)) == Elems(s)
  {
    forall x | x in s ensures x in Reverse(s) {
      var i :| 0 <= i < |s| && s[i] == x;
      assert Reverse(s)[|s| - 1 - i] == x;
    }
  }

  lemma LengthsReverseStep(g: TaskGraph, s: seq<TaskId>)
    requires s != []
    ensures var before := Lengths(g, Reverse(s[1..]));
            Lengths(g, Reverse(s)) == before[s[0] := LengthOf(g, before, s[0])]
  {
    assert Reverse(s) == Reverse(s[1..]) + [s[0]];
    assert Reverse(s)[..|s| - 1] == Reverse(s[1..]);
  }

  /** The analysis walks the dependencies-first order backwards, so no dependency is recorded yet
      when it is looked up: every task gets length 1. */
  lemma {:induction false} ReversedOrderGivesOne(g: TaskGraph, s: seq<TaskId>)
    requires NoLaterDeps(g, s)
    ensures Lengths(g, Reverse(s)).Keys == Elems(s)
    ensures forall t :: t in Lengths(g, Reverse(s)) ==> Lengths(g, Reverse(s))[t] == 1
    decreases |s|
  {
    ReverseElems(s);
    if s != [] {
      var tail := s[1..];
      forall i, d | 0 <= i < |tail| && d in Succ(g, tail[i]) ensures d !in tail[i + 1..] {
        assert s[i + 1] == tail[i] && s[i + 2..] == tail[i + 1..];
      }
      ReversedOrderGivesOne(g, tail);
      var before := Lengths(g, Reverse(tail));
      LengthsReverseStep(g, s);
      forall d | d in Succ(g, s[0]) ensures d !in before {
        assert d !in s[1..];
      }
      NothingRecorded(g, before, s[0]);
    }
  }

  /** The analysis' own result: the recurrence run over the reversed order. */
  function AnalysedLengths(g: TaskGraph, order: seq<TaskId>): (m: map<TaskId, nat>)
    ensures m.Keys == Elems(order)
  {
    ReverseElems(order);
    Lengths(g, Reverse(order))
  }

  lemma ReversedLengths(g: TaskGraph, order: seq<TaskId>)
    requires TopoOrder(g, order)
    ensures forall t :: t in AnalysedLengths(g, order) ==> AnalysedLengths(g, order)[t] == 1
  {
    TopoOrderHasNoLaterDeps(g, order);
    ReversedOrderGivesOne(g, order);
  }

  ghost predicate AllLongest(g: TaskGraph, m: map<TaskId, nat>) {
    forall t :: t in m ==> IsLongestChain(g, t, m[t])
  }

  lemma LeafHasChainOfOne(g: TaskGraph, t: TaskId)
    ensures IsLongestChain(g, t, 1) <==> Succ(g, t) == []
  {
    if Succ(g, t) == [] {
      LongestFromDeps(g, map[], t);
    } else {
      var d := Succ(g, t)[0];
      assert Edge(g, t, d);
      assert IsChain(g, t, [t, d]) && |[t, d]| == 2;
    }
  }

  /** Exactly when the analysis as written meets its stated intent on an acyclic graph: when no
      task depends on anything. */
  lemma ReversedOrderIsLongestIff(g: TaskGraph, order: seq<TaskId>)
    requires TopoOrder(g, order) && Elems(order) == Nodes(g)
    ensures AllLongest(g, AnalysedLengths(g, order)) <==> forall t :: t in g ==> g[t] == []
  {
    var m := AnalysedLengths(g, order);
    ReversedLengths(g, order);
    forall t | t in m ensures IsLongestChain(g, t, m[t]) <==> Succ(g, t) == [] {
      LeafHasChainOfOne(g, t);
    }
    forall t | t in g ensures t in m {
      assert t in Elems(order);
    }
  }

  // ---- Dependent counts ----

  /** Every dependency entry of the given tasks, with multiplicity. */
  ghost function DepEntries(g: TaskGraph, keys: set<TaskId>): multiset<TaskId>
    requires keys <= g.Keys
  {
    if keys == {} then multiset{}
    else var k :| k in keys; multiset(g[k]) + DepEntries(g, keys - {k})
  }

  lemma {:induction false} DepEntriesAdd(g: TaskGraph, keys: set<TaskId>, k: TaskId)
    requires keys <= g.Keys && k in g && k !in keys
    ensures DepEntries(g, keys + {k}) == multiset(g[k]) + DepEntries(g, keys)
    decreases keys
  {
    var all := keys + {k};
    var c :| c in all && DepEntries(g, all) == multiset(g[c]) + DepEntries(g, all - {c});
    if c == k {
      assert all - {c} == keys;
    } else {
      assert all - {c} == (keys - {c}) + {k};
      DepEntriesAdd(g, keys - {c}, k);
      DepEntriesAdd(g, keys - {c}, c);
      assert keys - {c} + {c} == keys;
    }
  }

  function CountOf(counts: map<TaskId, nat>, t: TaskId): nat {
    if t in counts then counts[t] else 0
  }

  method CountDependents(g: TaskGraph) returns (counts: map<TaskId, nat>)
    ensures forall t :: CountOf(counts, t) == DepEntries(g, g.Keys)[t]
  {
    counts := map[];
    var keys := g.Keys;
    while keys != {}
      invariant keys <= g.Keys
      invariant forall t :: CountOf(counts, t) == DepEntries(g, g.Keys - keys)[t]
      decreases keys
    {
      var k :| k in keys;
      DepEntriesAdd(g, g.Keys - keys, k);
      assert g.Keys - (keys - {k}) == (g.Keys - keys) + {k};
      counts := CountEntries(g[k], counts);
      keys := keys - {k};
    }
    assert g.Keys - {} == g.Keys;
  }

  method CountEntries(deps: seq<TaskId>, counts0: map<TaskId, nat>) returns (counts: map<TaskId, nat>)
    ensures forall t :: CountOf(counts, t) == CountOf(counts0, t) + multiset(deps)[t]
  {
    counts := counts0;
    for i := 0 to |deps|
      invariant forall t :: CountOf(counts, t) == CountOf(counts0, t) + multiset(deps[..i])[t]
    {
      assert deps[..i + 1] == deps[..i] + [deps[i]];
      counts := counts[deps[i] := CountOf(counts, deps[i]) + 1];
    }
    assert deps[..|deps|] == deps;
  }
}
