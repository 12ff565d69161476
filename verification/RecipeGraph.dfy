/** The recipe dependency graph: a flat arena of recipes and tasks that refer to each other by id,
    and the three depth-first traversals over the `depends` edges. */
module RecipeGraph {
  import opened Digraph
  import opened Wrappers

  datatype RecipeId = RecipeId(number: nat)

  datatype TaskId = TaskId(number: nat)

  datatype Recipe = Recipe(id: RecipeId, name: string, depends: seq<RecipeId>, tasks: seq<TaskId>)

  datatype TaskDependency = TaskDependency(recipeId: RecipeId, taskId: Option<TaskId>, taskName: string)

  datatype TaskNode = TaskNode(id: TaskId, recipeId: RecipeId, name: string,
                               after: seq<TaskId>, before: seq<TaskId>, taskDepends: seq<TaskDependency>)

  datatype SortError = CircularDependency(at: RecipeId)

  /** The contents of the arena as a value. */
  datatype Arena = Arena(recipes: map<RecipeId, Recipe>, tasks: map<TaskId, TaskNode>,
                         recipeToTasks: map<RecipeId, seq<TaskId>>,
                         nextRecipeId: nat, nextTaskId: nat)
  {
    /** Ids are the keys under which things are stored and were handed out before `next`; the
        per-recipe task index lists every task exactly once, under its own recipe. */
    ghost predicate Valid() {
      && (forall r :: r in recipes ==> recipes[r].id == r && r.number < nextRecipeId)
      && (forall t :: t in tasks ==> tasks[t].id == t && t.number < nextTaskId)
      && (forall r :: r in recipeToTasks ==> NoDup(recipeToTasks[r]))
      && (forall r, t :: r in recipeToTasks && t in recipeToTasks[r] ==> t in tasks && tasks[t].recipeId == r)
      && (forall t :: t in tasks ==> tasks[t].recipeId in recipeToTasks && t in recipeToTasks[tasks[t].recipeId])
    }

    /** The ids that `get_recipe_tasks` would list, in insertion order. */
    function TasksOf(r: RecipeId): seq<TaskId> {
      if r in recipeToTasks then recipeToTasks[r] else []
    }

    predicate HasName(t: TaskId, name: string) {
      t in tasks && tasks[t].name == name
    }

    function FirstNamed(ts: seq<TaskId>, name: string): Option<TaskId> {
      if ts == [] then None
      else if HasName(ts[0], name) then Some(ts[0])
      else FirstNamed(ts[1..], name)
    }

    function FindTask(r: RecipeId, name: string): Option<TaskId> {
      FirstNamed(TasksOf(r), name)
    }

    /** The `depends` edges between recipes. */
    function Depends(): map<RecipeId, seq<RecipeId>> {
      map r | r in recipes :: recipes[r].depends
    }

    function AddRecipe(name: string): Arena {
      var id := RecipeId(nextRecipeId);
      this.(recipes := recipes[id := Recipe(id, name, [], [])],
            nextRecipeId := nextRecipeId + 1)
    }

    function AddTask(r: RecipeId, name: string): Arena {
      var t := TaskId(nextTaskId);
      this.(tasks := tasks[t := TaskNode(t, r, name, [], [], [])],
            recipes := if r in recipes then recipes[r := recipes[r].(tasks := recipes[r].tasks + [t])] else recipes,
            recipeToTasks := recipeToTasks[r := TasksOf(r) + [t]],
            nextTaskId := nextTaskId + 1)
    }

    function AddDependency(from: RecipeId, to: RecipeId): Arena {
      if from in recipes && to !in recipes[from].depends
      then this.(recipes := recipes[from := recipes[from].(depends := recipes[from].depends + [to])])
      else this
    }

    function AddTaskDependency(from: TaskId, dep: TaskDependency): Arena {
      if from in tasks && dep !in tasks[from].taskDepends
      then this.(tasks := tasks[from := tasks[from].(taskDepends := tasks[from].taskDepends + [dep])])
      else this
    }
  }

  /** A search finds the first task of that name in the recipe, and nothing only if there is none. */
  lemma {:induction false} FirstNamedIsFirst(a: Arena, ts: seq<TaskId>, name: string)
    ensures var found := a.FirstNamed(ts, name);
            if found.Some?
            then exists i :: 0 <= i < |ts| && ts[i] == found.value && a.HasName(ts[i], name)
                             && forall j :: 0 <= j < i ==> !a.HasName(ts[j], name)
            else forall t :: t in ts ==> !a.HasName(t, name)
  {
    if ts != [] && !a.HasName(ts[0], name) {
      FirstNamedIsFirst(a, ts[1..], name);
      var found := a.FirstNamed(ts, name);
      if found.Some? {
        var i :| 0 <= i < |ts[1..]| && ts[1..][i] == found.value && a.HasName(ts[1..][i], name)
                 && forall j :: 0 <= j < i ==> !a.HasName(ts[1..][j], name);
        forall j | 0 <= j < i + 1 ensures !a.HasName(ts[j], name) {
          if j > 0 { assert !a.HasName(ts[1..][j - 1], name); }
        }
        assert ts[i + 1] == found.value;
      }
    }
  }

  /** Of two tasks added under one name, `find_task` keeps returning the one added first; adding a
      task changes no other lookup. */
  lemma FirstAddedTaskWins(a: Arena, r: RecipeId, name: string, r': RecipeId, name': string)
    requires a.Valid()
    ensures var old' := a.FindTask(r', name');
            a.AddTask(r, name).FindTask(r', name') ==
            if old'.None? && r' == r && name' == name then Some(TaskId(a.nextTaskId)) else old'
  {
    var b := a.AddTask(r, name);
    forall t | t in a.TasksOf(r') ensures a.HasName(t, name') == b.HasName(t, name') {
      assert t in a.tasks && t.number < a.nextTaskId;
    }
    FirstNamedSame(a, b, a.TasksOf(r'), name');
    if r' == r {
      FirstNamedAppend(b, a.TasksOf(r), TaskId(a.nextTaskId), name');
    }
  }

  ghost predicate NamesKnown(recipes: map<RecipeId, Recipe>, names: map<string, RecipeId>) {
    forall n :: n in names ==> names[n] in recipes && recipes[names[n]].name == n
  }

  lemma AddTaskKeepsNames(a: Arena, r: RecipeId, name: string, names: map<string, RecipeId>)
    requires NamesKnown(a.recipes, names)
    ensures NamesKnown(a.AddTask(r, name).recipes, names)
  {
  }

  lemma AddTaskKeepsLists(a: Arena, r: RecipeId, name: string, x: RecipeId)
    requires a.Valid() && x in a.AddTask(r, name).recipeToTasks
    ensures var b := a.AddTask(r, name);
            NoDup(b.recipeToTasks[x])
            && forall t :: t in b.recipeToTasks[x] ==> t in b.tasks && b.tasks[t].recipeId == x
  {
    assert forall t :: t in a.TasksOf(r) ==> t in a.tasks;
  }

  lemma AddTaskListsAll(a: Arena, r: RecipeId, name: string, t: TaskId)
    requires a.Valid() && t in a.AddTask(r, name).tasks
    ensures var b := a.AddTask(r, name);
            b.tasks[t].recipeId in b.recipeToTasks && t in b.recipeToTasks[b.tasks[t].recipeId]
  {
    var b := a.AddTask(r, name);
    if t == TaskId(a.nextTaskId) {
      assert b.recipeToTasks[r][|a.TasksOf(r)|] == t;
    } else {
      assert t in a.recipeToTasks[a.tasks[t].recipeId];
    }
  }

  lemma AddTaskKeepsValid(a: Arena, r: RecipeId, name: string)
    requires a.Valid()
    ensures a.AddTask(r, name).Valid()
  {
    var b := a.AddTask(r, name);
    forall x | x in b.recipeToTasks
      ensures NoDup(b.recipeToTasks[x])
      ensures forall t :: t in b.recipeToTasks[x] ==> t in b.tasks && b.tasks[t].recipeId == x
    {
      AddTaskKeepsLists(a, r, name, x);
    }
    forall t | t in b.tasks
      ensures b.tasks[t].recipeId in b.recipeToTasks && t in b.recipeToTasks[b.tasks[t].recipeId]
    {
      AddTaskListsAll(a, r, name, t);
    }
  }

  lemma {:induction false} FirstNamedSame(a: Arena, b: Arena, ts: seq<TaskId>, name: string)
    requires forall t :: t in ts ==> a.HasName(t, name) == b.HasName(t, name)
    ensures a.FirstNamed(ts, name) == b.FirstNamed(ts, name)
  {
    if ts != [] {
      assert ts[0] in ts;
      FirstNamedSame(a, b, ts[1..], name);
    }
  }

  lemma {:induction false} FirstNamedAppend(a: Arena, ts: seq<TaskId>, t: TaskId, name: string)
    ensures a.FirstNamed(ts + [t], name) ==
            if a.FirstNamed(ts, name).Some? then a.FirstNamed(ts, name)
            else if a.HasName(t, name) then Some(t) else None
  {
    if ts != [] {
      assert (ts + [t])[1..] == ts[1..] + [t];
      FirstNamedAppend(a, ts[1..], t, name);
    } else {
      assert (ts + [t])[1..] == [];
    }
  }

  /** A reported cycle: distinct recipes, each depending on the next, the last on the first. */
  ghost predicate GenuineCycle(g: map<RecipeId, seq<RecipeId>>, c: seq<RecipeId>) {
    && |c| > 0
    && NoDup(c)
    && Walk(g, c)
    && Edge(g, c[|c| - 1], c[0])
  }

  lemma GenuineCycleMeansCyclic(g: map<RecipeId, seq<RecipeId>>, c: seq<RecipeId>)
    requires GenuineCycle(g, c)
    ensures OnCycle(g, c[0])
  {
    assert WalkBetween(g, c, c[0], c[|c| - 1]);
    EdgeClosesCycle(g, c[|c| - 1], c[0]);
  }

  /** The edge from n to d closes one of the reported cycles. */
  ghost predicate Closes(cycles: seq<seq<RecipeId>>, n: RecipeId, d: RecipeId) {
    exists c :: c in cycles && c != [] && c[|c| - 1] == n && c[0] == d
  }

  ghost function Kept(cycles: seq<seq<RecipeId>>, n: RecipeId, ds: seq<RecipeId>): (kept: seq<RecipeId>)
    ensures forall d :: d in kept <==> d in ds && !Closes(cycles, n, d)
  {
    if ds == [] then []
    else if Closes(cycles, n, ds[0]) then Kept(cycles, n, ds[1..])
    else [ds[0]] + Kept(cycles, n, ds[1..])
  }

  /** The graph without the edges that close the reported cycles. */
  ghost function WithoutClosing(g: map<RecipeId, seq<RecipeId>>, cycles: seq<seq<RecipeId>>): map<RecipeId, seq<RecipeId>>
  {
    map n | n in g :: Kept(cycles, n, g[n])
  }

  lemma NothingReported(g: map<RecipeId, seq<RecipeId>>, n: RecipeId, d: RecipeId)
    ensures Edge(WithoutClosing(g, []), n, d) <==> Edge(g, n, d)
  {
  }

  lemma {:induction false} SameEdgesSameWalk(g: map<RecipeId, seq<RecipeId>>, h: map<RecipeId, seq<RecipeId>>)
    requires forall n, d :: Edge(h, n, d) <==> Edge(g, n, d)
    ensures Acyclic(g) <==> Acyclic(h)
  {
    forall a, p ensures WalkBetween(g, p, a, a) <==> WalkBetween(h, p, a, a) {
      assert Walk(g, p) <==> Walk(h, p);
    }
    forall a ensures OnCycle(g, a) <==> OnCycle(h, a) {
    }
  }

  lemma UnreportedCycle(g: map<RecipeId, seq<RecipeId>>, cycles: seq<seq<RecipeId>>, p: seq<RecipeId>)
    requires Walk(g, p) && |p| >= 2 && p[0] == p[|p| - 1]
    requires forall i :: 0 <= i < |p| - 1 ==> !Closes(cycles, p[i], p[i + 1])
    ensures OnCycle(WithoutClosing(g, cycles), p[0])
  {
    var h := WithoutClosing(g, cycles);
    forall i | 0 <= i < |p| - 1 ensures Edge(h, p[i], p[i + 1]) {
      assert Edge(g, p[i], p[i + 1]);
    }
    assert WalkBetween(h, p, p[0], p[0]);
  }

  /** Where removing those edges leaves no cycle, every closed walk uses one of them. */
  lemma EveryCycleIsReported(g: map<RecipeId, seq<RecipeId>>, cycles: seq<seq<RecipeId>>, p: seq<RecipeId>)
    requires Acyclic(WithoutClosing(g, cycles))
    requires Walk(g, p) && |p| >= 2 && p[0] == p[|p| - 1]
    ensures exists i :: 0 <= i < |p| - 1 && Closes(cycles, p[i], p[i + 1])
  {
    if forall i :: 0 <= i < |p| - 1 ==> !Closes(cycles, p[i], p[i + 1]) {
      UnreportedCycle(g, cycles, p);
    }
  }

  lemma FewerEdgesKeepOrder(g: map<RecipeId, seq<RecipeId>>, h: map<RecipeId, seq<RecipeId>>, order: seq<RecipeId>)
    requires TopoOrder(g, order) && forall n, d :: d in Succ(h, n) ==> d in Succ(g, n)
    ensures TopoOrder(h, order)
  {
  }

  lemma ReportKeepsOrder(g: map<RecipeId, seq<RecipeId>>, cycles: seq<seq<RecipeId>>, more: seq<seq<RecipeId>>,
                         order: seq<RecipeId>)
    requires TopoOrder(WithoutClosing(g, cycles), order) && cycles <= more
    ensures TopoOrder(WithoutClosing(g, more), order)
  {
    forall n, d | d in Succ(WithoutClosing(g, more), n) ensures d in Succ(WithoutClosing(g, cycles), n) {
      if Closes(cycles, n, d) {
        ClosesMore(cycles, more, n, d);
      }
    }
    FewerEdgesKeepOrder(WithoutClosing(g, cycles), WithoutClosing(g, more), order);
  }

  lemma ClosesMore(cycles: seq<seq<RecipeId>>, more: seq<seq<RecipeId>>, n: RecipeId, d: RecipeId)
    requires Closes(cycles, n, d) && cycles <= more
    ensures Closes(more, n, d)
  {
    var c :| c in cycles && c != [] && c[|c| - 1] == n && c[0] == d;
    assert c in more;
  }

  /** What the cycle search maintains: visited nodes are the finished ones (`order`, in finishing
      order) plus those on the recursion stack; but for the edges that close a reported cycle the
      finishing order is topological. */
  ghost predicate SearchState(g: map<RecipeId, seq<RecipeId>>, visited: set<RecipeId>, recStack: set<RecipeId>,
                              path: seq<RecipeId>, cycles: seq<seq<RecipeId>>, order: seq<RecipeId>)
  {
    && Elems(path) == recStack && NoDup(path)
    && visited == Elems(order) + recStack && Elems(order) !! recStack && visited <= Nodes(g)
    && (forall c :: c in cycles ==> GenuineCycle(g, c))
    && TopoOrder(WithoutClosing(g, cycles), order)
  }

  /** The first i dependencies of a node have been followed: each is finished or closes a cycle. */
  ghost predicate Followed(cycles: seq<seq<RecipeId>>, order: seq<RecipeId>, id: RecipeId, deps: seq<RecipeId>, i: nat) {
    forall j :: 0 <= j < i <= |deps| ==> deps[j] in Elems(order) || Closes(cycles, id, deps[j])
  }

  /** A search only ever adds. */
  ghost predicate Grown(visited0: set<RecipeId>, cycles0: seq<seq<RecipeId>>, order0: seq<RecipeId>,
                        visited: set<RecipeId>, cycles: seq<seq<RecipeId>>, order: seq<RecipeId>)
  {
    visited0 <= visited && cycles0 <= cycles && Elems(order0) <= Elems(order)
  }

  lemma FollowNext(cycles0: seq<seq<RecipeId>>, order0: seq<RecipeId>, cycles: seq<seq<RecipeId>>, order: seq<RecipeId>,
                   id: RecipeId, deps: seq<RecipeId>, i: nat, next: nat)
    requires Followed(cycles0, order0, id, deps, i) && i < |deps| && next == i + 1
    requires cycles0 <= cycles && Elems(order0) <= Elems(order)
    requires deps[i] in Elems(order) || Closes(cycles, id, deps[i])
    ensures Followed(cycles, order, id, deps, next)
  {
    forall j | 0 <= j < i ensures deps[j] in Elems(order) || Closes(cycles, id, deps[j]) {
      if Closes(cycles0, id, deps[j]) {
        ClosesMore(cycles0, cycles, id, deps[j]);
      }
    }
  }

  lemma EnterNode(g: map<RecipeId, seq<RecipeId>>, id: RecipeId, visited: set<RecipeId>, recStack: set<RecipeId>,
                  path: seq<RecipeId>, cycles: seq<seq<RecipeId>>, order: seq<RecipeId>)
    requires SearchState(g, visited, recStack, path, cycles, order)
    requires id in Nodes(g) && id !in visited && LeadsTo(g, path, id)
    ensures Walk(g, path + [id])
    ensures SearchState(g, visited + {id}, recStack + {id}, path + [id], cycles, order)
  {
    PathStepExtends(g, path, id);
    assert id !in Elems(path);
    assert Elems(path + [id]) == Elems(path) + {id};
  }

  lemma PathEndIsCycle(g: map<RecipeId, seq<RecipeId>>, path: seq<RecipeId>, start: nat)
    requires Walk(g, path) && NoDup(path) && start < |path| && Edge(g, path[|path| - 1], path[start])
    ensures GenuineCycle(g, path[start..])
  {
    var cycle := path[start..];
    forall i | 0 <= i < |cycle| - 1 ensures Edge(g, cycle[i], cycle[i + 1]) {
      assert Edge(g, path[start + i], path[start + i + 1]);
    }
  }

  lemma ReportCycle(g: map<RecipeId, seq<RecipeId>>, visited: set<RecipeId>, recStack: set<RecipeId>,
                    path: seq<RecipeId>, cycles: seq<seq<RecipeId>>, order: seq<RecipeId>, start: nat)
    requires SearchState(g, visited, recStack, path, cycles, order) && Walk(g, path)
    requires start < |path| && Edge(g, path[|path| - 1], path[start])
    ensures SearchState(g, visited, recStack, path, cycles + [path[start..]], order)
    ensures Closes(cycles + [path[start..]], path[|path| - 1], path[start])
  {
    var cycle, more := path[start..], cycles + [path[start..]];
    PathEndIsCycle(g, path, start);
    ReportKeepsOrder(g, cycles, more, order);
    assert cycle in more && cycle[|cycle| - 1] == path[|path| - 1] && cycle[0] == path[start];
  }

  lemma FinishInOrder(g: map<RecipeId, seq<RecipeId>>, id: RecipeId, cycles: seq<seq<RecipeId>>, order: seq<RecipeId>)
    requires TopoOrder(WithoutClosing(g, cycles), order) && id !in order
    requires Followed(cycles, order, id, Succ(g, id), |Succ(g, id)|)
    ensures TopoOrder(WithoutClosing(g, cycles), order + [id])
  {
    forall d | d in Succ(WithoutClosing(g, cycles), id) ensures d in order {
      assert d in Elems(order) || Closes(cycles, id, d);
    }
    ExtendOrder(WithoutClosing(g, cycles), order, id);
  }

  lemma FinishNode(g: map<RecipeId, seq<RecipeId>>, id: RecipeId, visited: set<RecipeId>, recStack: set<RecipeId>,
                   path0: seq<RecipeId>, path: seq<RecipeId>, cycles: seq<seq<RecipeId>>, order: seq<RecipeId>)
    requires path == path0 + [id] && SearchState(g, visited, recStack, path, cycles, order)
    requires Followed(cycles, order, id, Succ(g, id), |Succ(g, id)|)
    ensures path[..|path| - 1] == path0
    ensures SearchState(g, visited, recStack - {id}, path0, cycles, order + [id])
    ensures Elems(order + [id]) == Elems(order) + {id}
  {
    assert forall i :: 0 <= i < |path0| ==> path0[i] == path[i];
    assert path[|path0|] == id && id in Elems(path);
    assert Elems(path) == Elems(path0) + {id};
    assert Elems(order + [id]) == Elems(order) + {id};
    assert id !in Elems(order);
    FinishInOrder(g, id, cycles, order);
  }

  lemma AppendedIn(order: seq<RecipeId>, id: RecipeId)
    ensures Elems(order + [id]) == Elems(order) + {id}
  {
  }

  lemma NextDependency(g: map<RecipeId, seq<RecipeId>>, path: seq<RecipeId>, id: RecipeId, dep: RecipeId)
    requires Walk(g, path) && path[|path| - 1] == id && dep in Succ(g, id)
    ensures LeadsTo(g, path, dep) && Edge(g, id, dep) && dep in Nodes(g)
  {
    SuccInNodes(g, id, dep);
  }

  /** When the search is over. */
  lemma CyclesAreReported(g: map<RecipeId, seq<RecipeId>>, cycles: seq<seq<RecipeId>>, order: seq<RecipeId>)
    requires TopoOrder(WithoutClosing(g, cycles), order) && g.Keys <= Elems(order)
    requires forall c :: c in cycles ==> GenuineCycle(g, c)
    ensures Acyclic(WithoutClosing(g, cycles)) && (cycles == [] <==> Acyclic(g))
  {
    OrderMeansAcyclic(WithoutClosing(g, cycles), order);
    if cycles == [] {
      forall n, d ensures Edge(WithoutClosing(g, cycles), n, d) <==> Edge(g, n, d) {
        NothingReported(g, n, d);
      }
      SameEdgesSameWalk(g, WithoutClosing(g, cycles));
    } else {
      assert cycles[0] in cycles;
      GenuineCycleMeansCyclic(g, cycles[0]);
    }
  }

  function IndexOf(s: seq<RecipeId>, x: RecipeId): (i: nat)
    requires x in s
    ensures i < |s| && s[i] == x && x !in s[..i]
  {
    if s[0] == x then 0 else
      var i := 1 + IndexOf(s[1..], x);
      assert s[..i] == [s[0]] + s[1..][..i - 1];
      i
  }

  class RecipeGraph {
    var recipes: map<RecipeId, Recipe>
    var tasks: map<TaskId, TaskNode>
    var nameToRecipe: map<string, RecipeId>
    var recipeToTasks: map<RecipeId, seq<TaskId>>
    var nextRecipeId: nat
    var nextTaskId: nat

    function View(): Arena
      reads this
    {
      Arena(recipes, tasks, recipeToTasks, nextRecipeId, nextTaskId)
    }

    ghost predicate Valid()
      reads this
    {
      View().Valid() && NamesKnown(recipes, nameToRecipe)
    }

    constructor ()
      ensures Valid()
      ensures View() == Arena(map[], map[], map[], 0, 0)
      ensures nameToRecipe == map[]
    {
      recipes, tasks, nameToRecipe, recipeToTasks := map[], map[], map[], map[];
      nextRecipeId, nextTaskId := 0, 0;
    }

    method AddRecipe(name: string) returns (id: RecipeId)
      requires Valid()
      modifies this
      ensures Valid()
      ensures id !in old(recipes) && View() == old(View()).AddRecipe(name)
      ensures nameToRecipe == old(nameToRecipe)[name := id]
      ensures forall r :: r in old(recipes) ==> r in recipes && recipes[r] == old(recipes)[r]
    {
      id := RecipeId(nextRecipeId);
      nextRecipeId := nextRecipeId + 1;
      recipes := recipes[id := Recipe(id, name, [], [])];
      nameToRecipe := nameToRecipe[name := id];
    }

    method AddTask(r: RecipeId, name: string) returns (id: TaskId)
      requires Valid()
      modifies this`nextTaskId, this`tasks, this`recipes, this`recipeToTasks
      ensures Valid()
      ensures id !in old(tasks) && View() == old(View()).AddTask(r, name)
      ensures forall t :: t in old(tasks) ==> t in tasks && tasks[t] == old(tasks)[t]
    {
      AddTaskKeepsValid(View(), r, name);
      AddTaskKeepsNames(View(), r, name, nameToRecipe);
      ghost var next := View().AddTask(r, name);
      id := TaskId(nextTaskId);
      nextTaskId := nextTaskId + 1;
      tasks := tasks[id := TaskNode(id, r, name, [], [], [])];
      if r in recipes {
        recipes := recipes[r := recipes[r].(tasks := recipes[r].tasks + [id])];
      }
      recipeToTasks := recipeToTasks[r := (if r in recipeToTasks then recipeToTasks[r] else []) + [id]];
      assert View() == next;
    }

    method AddDependency(from: RecipeId, to: RecipeId)
      requires Valid()
      modifies this
      ensures Valid()
      ensures View() == old(View()).AddDependency(from, to) && nameToRecipe == old(nameToRecipe)
    {
      if from in recipes && to !in recipes[from].depends {
        recipes := recipes[from := recipes[from].(depends := recipes[from].depends + [to])];
      }
    }

    method AddTaskDependency(from: TaskId, dep: TaskDependency)
      requires Valid()
      modifies this
      ensures Valid()
      ensures View() == old(View()).AddTaskDependency(from, dep) && nameToRecipe == old(nameToRecipe)
    {
      if from in tasks && dep !in tasks[from].taskDepends {
        tasks := tasks[from := tasks[from].(taskDepends := tasks[from].taskDepends + [dep])];
      }
    }

    // ---- Topological sort ----

    /** Ok exactly when the graph has no cycle; then every recipe (and every dangling id that is
        depended on) is listed once, after all it depends on.  The recipe of an error is on a cycle. */
    method TopologicalSort() returns (result: Result<seq<RecipeId>, SortError>)
      ensures result.Success? <==> Acyclic(View().Depends())
      ensures result.Failure? ==> OnCycle(View().Depends(), result.error.at)
      ensures result.Success? ==> TopoOrder(View().Depends(), result.value)
      ensures result.Success? ==> Elems(result.value) == Nodes(View().Depends())
    {
      ghost var g := View().Depends();
      var sorted: seq<RecipeId>, visited: set<RecipeId>, recStack: set<RecipeId> := [], {}, {};
      var keys := recipes.Keys;
      while keys != {}
        invariant keys <= recipes.Keys
        invariant recStack == {} && visited == Elems(sorted) && visited <= Nodes(g)
        invariant TopoOrder(g, sorted)
        invariant recipes.Keys - keys <= visited
        decreases keys
      {
        var id :| id in keys;
        keys := keys - {id};
        if id !in visited {
          var err;
          err, visited, recStack, sorted := TopoSortVisit(g, id, visited, recStack, sorted, []);
          if err.Some? {
            return Failure(err.value);
          }
        }
      }
      OrderMeansAcyclic(g, sorted);
      forall d | d in Nodes(g) ensures d in Elems(sorted) {
        if d !in g {
          var k :| k in g && d in g[k];
          var i :| 0 <= i < |sorted| && sorted[i] == k;
          assert d in Succ(g, sorted[i]);
        }
      }
      return Success(sorted);
    }

    method TopoSortVisit(ghost g: map<RecipeId, seq<RecipeId>>, id: RecipeId,
        visited0: set<RecipeId>, recStack0: set<RecipeId>,
                         sorted0: seq<RecipeId>, ghost path: seq<RecipeId>)
      returns (err: Option<SortError>, visited: set<RecipeId>, recStack: set<RecipeId>, sorted: seq<RecipeId>)
      requires g == View().Depends()
      requires id in Nodes(g) && visited0 <= Nodes(g)
      requires LeadsTo(g, path, id) && Elems(path) == recStack0
      requires visited0 == Elems(sorted0) + recStack0 && Elems(sorted0) !! recStack0
      requires TopoOrder(g, sorted0)
      ensures err.Some? ==> OnCycle(g, err.value.at)
      ensures err.None? ==> recStack == recStack0 && visited0 + {id} <= visited && id in Elems(sorted)
      ensures err.None? ==> visited == Elems(sorted) + recStack && Elems(sorted) !! recStack
      ensures err.None? ==> TopoOrder(g, sorted) && visited <= Nodes(g)
      decreases Nodes(g) - visited0
    {
      err, visited, recStack, sorted := None, visited0, recStack0, sorted0;
      if id in recStack {
        StackHitMeansCycle(g, path, id);
        err := Some(CircularDependency(id));
        return;
      }
      if id in visited {
        return;
      }
      visited := visited + {id};
      recStack := recStack + {id};
      PathStepExtends(g, path, id);
      if id in recipes {
        var deps := recipes[id].depends;
        for i := 0 to |deps|
          invariant err.None? && recStack == recStack0 + {id}
          invariant visited == Elems(sorted) + recStack && Elems(sorted) !! recStack
          invariant visited0 + {id} <= visited <= Nodes(g)
          invariant TopoOrder(g, sorted)
          invariant forall j :: 0 <= j < i ==> deps[j] in Elems(sorted)
        {
          assert Edge(g, id, deps[i]);
          SuccInNodes(g, id, deps[i]);
          assert Elems(path + [id]) == recStack;
          err, visited, recStack, sorted := TopoSortVisit(g, deps[i], visited, recStack, sorted, path + [id]);
          if err.Some? {
            return;
          }
        }
      }
      recStack := recStack - {id};
      ExtendOrder(g, sorted, id);
      sorted := sorted + [id];
    }

    // ---- Cycle reports ----

    /** Every reported list is a genuine cycle, and without the edges that close them no cycle is left,
        so that nothing is reported exactly when `TopologicalSort` succeeds. */
    method DetectCycles() returns (cycles: seq<seq<RecipeId>>)
      ensures forall c :: c in cycles ==> GenuineCycle(View().Depends(), c)
      ensures Acyclic(WithoutClosing(View().Depends(), cycles))
      ensures cycles == [] <==> Acyclic(View().Depends())
    {
      ghost var g := View().Depends();
      cycles := [];
      var visited: set<RecipeId>, recStack: set<RecipeId>, path: seq<RecipeId> := {}, {}, [];
      ghost var order: seq<RecipeId> := [];
      var keys := recipes.Keys;
      while keys != {}
        invariant keys <= recipes.Keys && path == [] && recStack == {}
        invariant SearchState(g, visited, recStack, path, cycles, order)
        invariant recipes.Keys - keys <= visited
        decreases keys
      {
        var id :| id in keys;
        keys := keys - {id};
        if id !in visited {
          visited, recStack, path, cycles, order :=
            DetectCycleDfs(g, id, visited, recStack, path, cycles, order);
        }
      }
      CyclesAreReported(g, cycles, order);
    }

    method DetectCycleDfs(ghost g: map<RecipeId, seq<RecipeId>>, id: RecipeId,
        visited0: set<RecipeId>, recStack0: set<RecipeId>,
                          path0: seq<RecipeId>, cycles0: seq<seq<RecipeId>>, ghost order0: seq<RecipeId>)
      returns (visited: set<RecipeId>, recStack: set<RecipeId>, path: seq<RecipeId>,
               cycles: seq<seq<RecipeId>>, ghost order: seq<RecipeId>)
      requires g == View().Depends()
      requires id in Nodes(g) && id !in visited0
      requires LeadsTo(g, path0, id)
      requires SearchState(g, visited0, recStack0, path0, cycles0, order0)
      ensures recStack == recStack0 && path == path0
      ensures SearchState(g, visited, recStack, path, cycles, order)
      ensures Grown(visited0 + {id}, cycles0, order0 + [id], visited, cycles, order)
      decreases Nodes(g) - visited0
    {
      visited := visited0 + {id};
      recStack := recStack0 + {id};
      path := path0 + [id];
      cycles, order := cycles0, order0;
      EnterNode(g, id, visited0, recStack0, path0, cycles0, order0);
      if id in recipes {
        var deps := recipes[id].depends;
        for i := 0 to |deps|
          invariant recStack == recStack0 + {id} && path == path0 + [id] && Walk(g, path)
          invariant SearchState(g, visited, recStack, path, cycles, order)
          invariant Grown(visited0 + {id}, cycles0, order0, visited, cycles, order)
          invariant Followed(cycles, order, id, deps, i)
        {
          var dep := deps[i];
          ghost var before, finished := cycles, order;
          NextDependency(g, path, id, dep);
          if dep !in visited {
            visited, recStack, path, cycles, order :=
              DetectCycleDfs(g, dep, visited, recStack, path, cycles, order);
            AppendedIn(finished, dep);
          } else if dep in recStack {
            var start := IndexOf(path, dep);
            ReportCycle(g, visited, recStack, path, cycles, order, start);
            cycles := cycles + [path[start..]];
          }
          FollowNext(before, finished, cycles, order, id, deps, i, i + 1);
        }
      }
      FinishNode(g, id, visited, recStack, path0, path, cycles, order);
      AppendedIn(order0, id);
      path := path[..|path| - 1];
      recStack := recStack - {id};
      order := order + [id];
    }

    // ---- Transitive closure ----

    /** Exactly the ids reachable from the recipe other than itself, each once. */
    method GetAllDependencies(root: RecipeId) returns (result: seq<RecipeId>)
      ensures NoDup(result)
      ensures forall x :: x in result <==> x != root && Reaches(View().Depends(), root, x)
    {
      ghost var g := View().Depends();
      ReachesSelf(g, root);
      var visited;
      visited, result := CollectDependenciesRecursive(g, root, {}, [], root, {});
      forall x | Reaches(g, root, x) ensures x in visited {
        ClosedContainsReachable(g, visited, root, x);
      }
      assert forall x :: x in result <==> x in Elems(result);
    }

    method CollectDependenciesRecursive(ghost g: map<RecipeId, seq<RecipeId>>, id: RecipeId,
        visited0: set<RecipeId>, result0: seq<RecipeId>,
                                        ghost root: RecipeId, ghost stack: set<RecipeId>)
      returns (visited: set<RecipeId>, result: seq<RecipeId>)
      requires g == View().Depends()
      requires NoDup(result0) && Elems(result0) == visited0 + {id} - {root}
      requires (root == id || root in visited0) && Reaches(g, root, id)
      requires forall x :: x in visited0 ==> Reaches(g, root, x)
      requires forall n, d :: n in visited0 && n !in stack && d in Succ(g, n) ==> d in visited0
      ensures visited0 + {id} <= visited && result0 <= result
      ensures NoDup(result) && Elems(result) == visited - {root}
      ensures forall x :: x in visited ==> Reaches(g, root, x)
      ensures forall n, d :: n in visited && n !in stack && d in Succ(g, n) ==> d in visited
      decreases Nodes(g) + {id} - visited0
    {
      visited, result := visited0, result0;
      if id in visited {
        return;
      }
      visited := visited + {id};
      if id in recipes {
        var deps := recipes[id].depends;
        for i := 0 to |deps|
          invariant visited0 + {id} <= visited && result0 <= result
          invariant root in visited && NoDup(result) && Elems(result) == visited - {root}
          invariant forall x :: x in visited ==> Reaches(g, root, x)
          invariant forall n, d :: n in visited && n !in stack + {id} && d in Succ(g, n) ==> d in visited
          invariant forall j :: 0 <= j < i ==> deps[j] in visited
        {
          var dep := deps[i];
          if dep !in visited {
            assert Edge(g, id, dep);
            SuccInNodes(g, id, dep);
            EdgeReaches(g, id, dep);
            ReachesTransitive(g, root, id, dep);
            assert dep !in Elems(result);
            assert Elems(result + [dep]) == Elems(result) + {dep};
            result := result + [dep];
            visited, result := CollectDependenciesRecursive(g, dep, visited, result, root, stack + {id});
          }
        }
        assert g[id] == deps;
      }
    }
  }
}
