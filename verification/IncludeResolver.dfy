/** Include files: a memoising depth-first resolver with a set of files being parsed that is not
    cleaned up after failures, proved to answer like a resolver without memory. */
module IncludeResolver {
  import opened Wrappers
  import opened Digraph

  datatype IncludeDirective = IncludeDirective(path: string, required: bool)

  datatype SourceUri = SourceUri(url: string, attributes: string)

  datatype BitbakeRecipe = BitbakeRecipe(filePath: string, variables: map<string, string>,
                                         inherits: seq<string>, sources: seq<SourceUri>,
                                         buildDepends: seq<string>, runtimeDepends: seq<string>,
                                         includes: seq<IncludeDirective>)

  datatype FileContent = Unreadable | Parsed(recipe: BitbakeRecipe)

  datatype IncludeError =
    | CircularInclude(path: string)
    | ParseFailure(path: string)
    | RequiredNotFound(path: string)

  /** The fixed surroundings of a resolver: the existing files, how paths are put together, and how
      a recipe's variables are expanded in an include path. */
  datatype World = World(files: map<string, FileContent>, searchPaths: seq<string>,
                         join: (string, string) -> string, parent: string -> string,
                         expand: (BitbakeRecipe, string) -> string)
  {
    /** The first search path under which the file exists. */
    function SearchFrom(paths: seq<string>, includePath: string): (found: Option<string>)
      ensures found.Some? ==> found.value in files
    {
      if paths == [] then None
      else
        var candidate := join(paths[0], includePath);
        if candidate in files then Some(candidate) else SearchFrom(paths[1..], includePath)
    }

    function Locate(recipe: BitbakeRecipe, inc: IncludeDirective): (found: Option<string>)
      ensures found.Some? ==> found.value in files
    {
      var resolved := expand(recipe, inc.path);
      var relative := join(parent(recipe.filePath), resolved);
      if relative in files then Some(relative) else SearchFrom(searchPaths, resolved)
    }

    // ---- The include graph ----

    function Targets(recipe: BitbakeRecipe, incs: seq<IncludeDirective>): seq<string> {
      if incs == [] then []
      else
        var found := Locate(recipe, incs[0]);
        (if found.Some? then [found.value] else []) + Targets(recipe, incs[1..])
    }

    function Graph(): map<string, seq<string>> {
      map f | f in files && files[f].Parsed? :: Targets(files[f].recipe, files[f].recipe.includes)
    }

    /** A file that cannot be parsed, or that requires a file that does not exist. */
    ghost predicate Defective(f: string) {
      || f !in files
      || files[f].Unreadable?
      || MissingRequired(files[f].recipe)
    }

    ghost predicate MissingRequired(recipe: BitbakeRecipe) {
      exists inc :: inc in recipe.includes && inc.required && Locate(recipe, inc).None?
    }

    // ---- Resolution without memory ----

    /** Loading a file with the files in `active` being parsed: the uncached resolver. */
    function Load(f: string, active: set<string>): Result<BitbakeRecipe, IncludeError>
      decreases files.Keys - active, 0, 0
    {
      if f in active then Failure(CircularInclude(f))
      else if f !in files || files[f].Unreadable? then Failure(ParseFailure(f))
      else MergeIncludes(files[f].recipe, 0, files[f].recipe, active + {f})
    }

    /** Merging the includes of `recipe` from the k-th on into `merged`. */
    function MergeIncludes(recipe: BitbakeRecipe, k: nat, merged: BitbakeRecipe, active: set<string>):
      Result<BitbakeRecipe, IncludeError>
      decreases files.Keys - active, 1, |recipe.includes| - k
    {
      if k >= |recipe.includes| then Success(merged)
      else
        var inc := recipe.includes[k];
        var found := Locate(recipe, inc);
        if found.None? then
          if inc.required then Failure(RequiredNotFound(expand(recipe, inc.path)))
          else MergeIncludes(recipe, k + 1, merged, active)
        else
          var included := Load(found.value, active);
          if included.Failure? then Failure(included.error)
          else MergeIncludes(recipe, k + 1, Merge(merged, included.value), active)
    }

    /** What a file means: its recipe with all includes merged, as a fresh resolver would load it. */
    function Meaning(f: string): Result<BitbakeRecipe, IncludeError> {
      Load(f, {})
    }

    /** What a recipe that is not itself being included resolves to. */
    function Resolved(recipe: BitbakeRecipe): Result<BitbakeRecipe, IncludeError> {
      MergeIncludes(recipe, 0, recipe, {})
    }
  }

  // ---- Where an include is looked for ----

  /** The k-th place: first the directory of the recipe, then the search paths. */
  function Place(w: World, recipe: BitbakeRecipe, inc: IncludeDirective, k: nat): string
    requires k <= |w.searchPaths|
  {
    w.join(if k == 0 then w.parent(recipe.filePath) else w.searchPaths[k - 1], w.expand(recipe, inc.path))
  }

  /** The k-th place has a file, and no place before it has one. */
  ghost predicate FirstPlace(w: World, recipe: BitbakeRecipe, inc: IncludeDirective, k: nat) {
    && k <= |w.searchPaths| && Place(w, recipe, inc, k) in w.files
    && forall j :: 0 <= j < k ==> Place(w, recipe, inc, j) !in w.files
  }

  lemma {:induction false} SearchFindsFirst(w: World, paths: seq<string>, includePath: string)
    ensures w.SearchFrom(paths, includePath).None? ==>
              forall i :: 0 <= i < |paths| ==> w.join(paths[i], includePath) !in w.files
    ensures w.SearchFrom(paths, includePath).Some? ==>
              exists i :: 0 <= i < |paths| && w.SearchFrom(paths, includePath).value == w.join(paths[i], includePath)
                          && forall j :: 0 <= j < i ==> w.join(paths[j], includePath) !in w.files
    decreases |paths|
  {
    if paths != [] && w.join(paths[0], includePath) !in w.files {
      var tail := paths[1..];
      SearchFindsFirst(w, tail, includePath);
      if w.SearchFrom(tail, includePath).Some? {
        var i :| 0 <= i < |tail| && w.SearchFrom(tail, includePath).value == w.join(tail[i], includePath)
                 && forall j :: 0 <= j < i ==> w.join(tail[j], includePath) !in w.files;
        assert tail[i] == paths[i + 1];
        forall j | 0 <= j < i + 1 ensures w.join(paths[j], includePath) !in w.files {
          assert j > 0 ==> paths[j] == tail[j - 1];
        }
      } else {
        forall i | 0 <= i < |paths| ensures w.join(paths[i], includePath) !in w.files {
          assert i > 0 ==> paths[i] == tail[i - 1];
        }
      }
    }
  }

  /** An include is found in the first place that has the file: the recipe's directory wins over the
      search paths, and an earlier search path over a later one. */
  lemma FirstPlaceWins(w: World, recipe: BitbakeRecipe, inc: IncludeDirective)
    ensures w.Locate(recipe, inc).None? <==> forall k :: 0 <= k <= |w.searchPaths| ==> Place(w, recipe, inc, k) !in w.files
    ensures w.Locate(recipe, inc).Some? ==>
              exists k :: FirstPlace(w, recipe, inc, k) && w.Locate(recipe, inc).value == Place(w, recipe, inc, k)
  {
    var p := w.expand(recipe, inc.path);
    SearchFindsFirst(w, w.searchPaths, p);
    if Place(w, recipe, inc, 0) in w.files {
      assert FirstPlace(w, recipe, inc, 0);
    } else if w.SearchFrom(w.searchPaths, p).Some? {
      var i :| 0 <= i < |w.searchPaths| && w.SearchFrom(w.searchPaths, p).value == w.join(w.searchPaths[i], p)
               && forall j :: 0 <= j < i ==> w.join(w.searchPaths[j], p) !in w.files;
      forall j | 0 <= j < i + 1 ensures Place(w, recipe, inc, j) !in w.files {
        assert j > 0 ==> w.join(w.searchPaths[j - 1], p) !in w.files;
      }
      assert FirstPlace(w, recipe, inc, i + 1);
    } else {
      forall k | 0 <= k <= |w.searchPaths| ensures Place(w, recipe, inc, k) !in w.files {
        assert k > 0 ==> w.join(w.searchPaths[k - 1], p) !in w.files;
      }
    }
  }

  function Union<T(==)>(xs: seq<T>, ys: seq<T>): seq<T> {
    if ys == [] then xs
    else
      var r := Union(xs, ys[..|ys| - 1]);
      if ys[|ys| - 1] in r then r else r + [ys[|ys| - 1]]
  }

  predicate HasUrl(sources: seq<SourceUri>, url: string) {
    exists s :: s in sources && s.url == url
  }

  function UnionSources(xs: seq<SourceUri>, ys: seq<SourceUri>): seq<SourceUri> {
    if ys == [] then xs
    else
      var r := UnionSources(xs, ys[..|ys| - 1]);
      if HasUrl(r, ys[|ys| - 1].url) then r else r + [ys[|ys| - 1]]
  }

  /** Included variables override, everything else is added if it is not there yet. */
  function Merge(into: BitbakeRecipe, included: BitbakeRecipe): BitbakeRecipe {
    into.(variables := into.variables + included.variables,
          inherits := Union(into.inherits, included.inherits),
          sources := UnionSources(into.sources, included.sources),
          buildDepends := Union(into.buildDepends, included.buildDepends),
          runtimeDepends := Union(into.runtimeDepends, included.runtimeDepends))
  }

  lemma {:induction false} UnionMembers<T>(xs: seq<T>, ys: seq<T>, x: T)
    ensures x in Union(xs, ys) <==> x in xs || x in ys
    ensures xs <= Union(xs, ys)
    decreases |ys|
  {
    if ys != [] {
      var front := ys[..|ys| - 1];
      UnionMembers(xs, front, x);
      UnionMembers(xs, front, ys[|ys| - 1]);
      assert ys == front + [ys[|ys| - 1]];
    }
  }

  lemma {:induction false} UnionKeepsDistinct<T(!new)>(xs: seq<T>, ys: seq<T>)
    requires NoDup(xs)
    ensures NoDup(Union(xs, ys))
    decreases |ys|
  {
    if ys != [] {
      UnionKeepsDistinct(xs, ys[..|ys| - 1]);
    }
  }

  // ---- When loading succeeds ----

  lemma {:induction false} TargetsMembers(w: World, recipe: BitbakeRecipe, incs: seq<IncludeDirective>, t: string)
    ensures t in w.Targets(recipe, incs) <==> exists inc :: inc in incs && w.Locate(recipe, inc) == Some(t)
  {
    if incs != [] {
      TargetsMembers(w, recipe, incs[1..], t);
      assert incs == [incs[0]] + incs[1..];
    }
  }

  lemma EdgeMeansInclude(w: World, f: string, t: string)
    requires f in w.files && w.files[f].Parsed?
    ensures Edge(w.Graph(), f, t) <==>
            exists inc :: inc in w.files[f].recipe.includes && w.Locate(w.files[f].recipe, inc) == Some(t)
  {
    TargetsMembers(w, w.files[f].recipe, w.files[f].recipe.includes, t);
  }

  /** Whether merging goes through depends on each include separately. */
  lemma {:induction false} MergeSucceedsIff(w: World, recipe: BitbakeRecipe, k: nat, merged: BitbakeRecipe, active: set<string>)
    ensures w.MergeIncludes(recipe, k, merged, active).Success? <==>
            forall i :: k <= i < |recipe.includes| ==>
                          var found := w.Locate(recipe, recipe.includes[i]);
                          if found.Some? then w.Load(found.value, active).Success? else !recipe.includes[i].required
    decreases |recipe.includes| - k
  {
    if k < |recipe.includes| {
      var found := w.Locate(recipe, recipe.includes[k]);
      if found.None? {
        MergeSucceedsIff(w, recipe, k + 1, merged, active);
      } else if w.Load(found.value, active).Success? {
        MergeSucceedsIff(w, recipe, k + 1, Merge(merged, w.Load(found.value, active).value), active);
      }
    }
  }

  /** Nothing that f includes, directly or not, is defective, being parsed, or on an include cycle. */
  ghost predicate Clean(w: World, f: string, active: set<string>) {
    forall h :: Reaches(w.Graph(), f, h) ==> h !in active && !w.Defective(h) && !OnCycle(w.Graph(), h)
  }

  lemma {:induction false} SuccessMeansClean(w: World, f: string, active: set<string>)
    requires w.Load(f, active).Success?
    ensures Clean(w, f, active)
    decreases w.files.Keys - active
  {
    var g := w.Graph();
    var recipe := w.files[f].recipe;
    MergeSucceedsIff(w, recipe, 0, recipe, active + {f});
    forall t | Edge(g, f, t) ensures Clean(w, t, active + {f}) {
      EdgeMeansInclude(w, f, t);
      var inc :| inc in recipe.includes && w.Locate(recipe, inc) == Some(t);
      var i :| 0 <= i < |recipe.includes| && recipe.includes[i] == inc;
      SuccessMeansClean(w, t, active + {f});
    }
    assert !OnCycle(g, f) by {
      if OnCycle(g, f) {
        var d := CycleFirstStep(g, f);
        assert false;
      }
    }
    forall h | Reaches(g, f, h) ensures h !in active && !w.Defective(h) && !OnCycle(g, h) {
      if h != f {
        var d := ReachesFirstStep(g, f, h);
        assert Clean(w, d, active + {f});
      }
    }
  }

  lemma {:induction false} CleanMeansSuccess(w: World, f: string, active: set<string>)
    requires Clean(w, f, active)
    ensures w.Load(f, active).Success?
    decreases w.files.Keys - active
  {
    var g := w.Graph();
    ReachesSelf(g, f);
    assert !w.Defective(f);
    var recipe := w.files[f].recipe;
    forall i | 0 <= i < |recipe.includes|
      ensures var found := w.Locate(recipe, recipe.includes[i]);
              if found.Some? then w.Load(found.value, active + {f}).Success? else !recipe.includes[i].required
    {
      var found := w.Locate(recipe, recipe.includes[i]);
      if found.Some? {
        var t := found.value;
        EdgeMeansInclude(w, f, t);
        assert Edge(g, f, t);
        EdgeReaches(g, f, t);
        forall h | Reaches(g, t, h) ensures h !in active + {f} && !w.Defective(h) && !OnCycle(g, h) {
          ReachesTransitive(g, f, t, h);
          if h == f { EdgeClosesCycle(g, f, t); }
        }
        CleanMeansSuccess(w, t, active + {f});
      } else {
        assert recipe.includes[i] in recipe.includes;
      }
    }
    MergeSucceedsIff(w, recipe, 0, recipe, active + {f});
  }

  /** Loading a file fails exactly when a file that is being parsed, an unparsable file, a missing
      required file or an include cycle can be reached from it. */
  lemma LoadSucceedsIff(w: World, f: string, active: set<string>)
    ensures w.Load(f, active).Success? <==> Clean(w, f, active)
  {
    if w.Load(f, active).Success? {
      SuccessMeansClean(w, f, active);
    }
    if Clean(w, f, active) {
      CleanMeansSuccess(w, f, active);
    }
  }

  /** Resolving a recipe fails exactly when a required include of its own is missing or one of its
      includes leads to an unparsable file, a missing required file or a cycle. */
  lemma ResolvedIff(w: World, recipe: BitbakeRecipe)
    ensures w.Resolved(recipe).Success? <==>
            !w.MissingRequired(recipe) &&
            forall t, h :: t in w.Targets(recipe, recipe.includes) && Reaches(w.Graph(), t, h) ==>
                             !w.Defective(h) && !OnCycle(w.Graph(), h)
  {
    MergeSucceedsIff(w, recipe, 0, recipe, {});
    forall i | 0 <= i < |recipe.includes| && w.Locate(recipe, recipe.includes[i]).Some?
      ensures var t := w.Locate(recipe, recipe.includes[i]).value;
              (w.Load(t, {}).Success? <==> Clean(w, t, {})) && t in w.Targets(recipe, recipe.includes)
    {
      var t := w.Locate(recipe, recipe.includes[i]).value;
      LoadSucceedsIff(w, t, {});
      TargetsMembers(w, recipe, recipe.includes, t);
    }
    forall t | t in w.Targets(recipe, recipe.includes)
      ensures exists i :: 0 <= i < |recipe.includes| && w.Locate(recipe, recipe.includes[i]) == Some(t)
    {
      TargetsMembers(w, recipe, recipe.includes, t);
    }
  }

  // ---- What is being parsed does not change a successful result ----

  lemma {:induction false} SuccessesAgree(w: World, f: string, a: set<string>, b: set<string>)
    requires w.Load(f, a).Success? && w.Load(f, b).Success?
    ensures w.Load(f, a) == w.Load(f, b)
    decreases w.files.Keys - a, 0, 0
  {
    MergesAgree(w, w.files[f].recipe, 0, w.files[f].recipe, a + {f}, b + {f});
  }

  lemma {:induction false} MergesAgree(w: World, recipe: BitbakeRecipe, k: nat, merged: BitbakeRecipe,
                                       a: set<string>, b: set<string>)
    requires w.MergeIncludes(recipe, k, merged, a).Success? && w.MergeIncludes(recipe, k, merged, b).Success?
    ensures w.MergeIncludes(recipe, k, merged, a) == w.MergeIncludes(recipe, k, merged, b)
    decreases w.files.Keys - a, 1, |recipe.includes| - k
  {
    if k < |recipe.includes| {
      var found := w.Locate(recipe, recipe.includes[k]);
      if found.None? {
        MergesAgree(w, recipe, k + 1, merged, a, b);
      } else {
        SuccessesAgree(w, found.value, a, b);
        MergesAgree(w, recipe, k + 1, Merge(merged, w.Load(found.value, a).value), a, b);
      }
    }
  }

  /** Files on a chain of includes that leads to f do not influence the outcome for f: meeting one
      of them again means that f lies on a cycle, and then f fails on its own. */
  lemma ChainDoesNotMatter(w: World, chain: seq<string>, f: string)
    requires LeadsTo(w.Graph(), chain, f)
    ensures w.Load(f, Elems(chain)).Success? <==> w.Meaning(f).Success?
    ensures w.Meaning(f).Success? ==> w.Load(f, Elems(chain)) == w.Meaning(f)
  {
    var g := w.Graph();
    LoadSucceedsIff(w, f, Elems(chain));
    LoadSucceedsIff(w, f, {});
    if Clean(w, f, {}) {
      ReachesSelf(g, f);
      forall h | Reaches(g, f, h) ensures h !in chain {
        if h in chain {
          ReachingStackMeansCycle(g, chain, f, h);
          assert false;
        }
      }
      SuccessesAgree(w, f, Elems(chain), {});
    }
  }

  /** A file means what its recipe resolves to on its own. */
  lemma MeaningIsResolved(w: World, f: string)
    requires f in w.files && w.files[f].Parsed?
    ensures w.Meaning(f).Success? <==> w.Resolved(w.files[f].recipe).Success?
    ensures w.Meaning(f).Success? ==> w.Meaning(f) == w.Resolved(w.files[f].recipe)
  {
    var recipe := w.files[f].recipe;
    assert {} + {f} == {f};
    assert w.Meaning(f) == w.MergeIncludes(recipe, 0, recipe, {f});
    MergeSucceedsIff(w, recipe, 0, recipe, {f});
    MergeSucceedsIff(w, recipe, 0, recipe, {});
    forall i | 0 <= i < |recipe.includes| && w.Locate(recipe, recipe.includes[i]).Some?
      ensures var t := w.Locate(recipe, recipe.includes[i]).value;
              w.Load(t, {f}).Success? <==> w.Load(t, {}).Success?
    {
      var t := w.Locate(recipe, recipe.includes[i]).value;
      assert recipe.includes[i] in recipe.includes;
      EdgeMeansInclude(w, f, t);
      assert LeadsTo(w.Graph(), [f], t);
      assert Elems([f]) == {f};
      ChainDoesNotMatter(w, [f], t);
    }
    if w.Meaning(f).Success? {
      MergesAgree(w, recipe, 0, recipe, {f}, {});
    }
  }

  // ---- What a successful resolution gives ----

  /** The recipe that the i-th include brings in, if it is found and can be loaded. */
  function Included(w: World, recipe: BitbakeRecipe, i: nat, active: set<string>): Option<BitbakeRecipe>
    requires i < |recipe.includes|
  {
    var found := w.Locate(recipe, recipe.includes[i]);
    if found.Some? && w.Load(found.value, active).Success? then Some(w.Load(found.value, active).value) else None
  }

  predicate Brings(w: World, recipe: BitbakeRecipe, i: nat, active: set<string>, x: string) {
    i < |recipe.includes| && Included(w, recipe, i, active).Some?
    && x in Included(w, recipe, i, active).value.variables
  }

  /** The i-th include is the last one, from the k-th on, that brings in x. */
  ghost predicate LastBringer(w: World, recipe: BitbakeRecipe, k: nat, i: nat, active: set<string>, x: string) {
    k <= i && Brings(w, recipe, i, active, x)
    && forall j :: i < j < |recipe.includes| ==> !Brings(w, recipe, j, active, x)
  }

  lemma {:induction false} LastBringerGivesValue(w: World, recipe: BitbakeRecipe, k: nat, merged: BitbakeRecipe,
                                                 active: set<string>, i: nat, x: string)
    requires w.MergeIncludes(recipe, k, merged, active).Success? && LastBringer(w, recipe, k, i, active, x)
    ensures var out := w.MergeIncludes(recipe, k, merged, active).value.variables;
            x in out && out[x] == Included(w, recipe, i, active).value.variables[x]
    decreases |recipe.includes| - k
  {
    var found := w.Locate(recipe, recipe.includes[k]);
    var next := if found.None? then merged else Merge(merged, w.Load(found.value, active).value);
    assert w.MergeIncludes(recipe, k, merged, active) == w.MergeIncludes(recipe, k + 1, next, active);
    if i == k {
      NoBringerKeepsValue(w, recipe, k + 1, next, active, x);
    } else {
      LastBringerGivesValue(w, recipe, k + 1, next, active, i, x);
    }
  }

  lemma {:induction false} NoBringerKeepsValue(w: World, recipe: BitbakeRecipe, k: nat, merged: BitbakeRecipe,
                                               active: set<string>, x: string)
    requires w.MergeIncludes(recipe, k, merged, active).Success?
    requires forall i :: k <= i < |recipe.includes| ==> !Brings(w, recipe, i, active, x)
    ensures var out := w.MergeIncludes(recipe, k, merged, active).value.variables;
            (x in out <==> x in merged.variables) && (x in out ==> out[x] == merged.variables[x])
    decreases |recipe.includes| - k
  {
    if k < |recipe.includes| {
      assert !Brings(w, recipe, k, active, x);
      var found := w.Locate(recipe, recipe.includes[k]);
      var next := if found.None? then merged else Merge(merged, w.Load(found.value, active).value);
      assert w.MergeIncludes(recipe, k, merged, active) == w.MergeIncludes(recipe, k + 1, next, active);
      NoBringerKeepsValue(w, recipe, k + 1, next, active, x);
    }
  }

  /** A variable has the value that the last include to define it gives it, and otherwise the
      recipe's own. */
  lemma LastIncludeWins(w: World, recipe: BitbakeRecipe, x: string)
    requires w.Resolved(recipe).Success?
    ensures var out := w.Resolved(recipe).value.variables;
            && (forall i: nat :: LastBringer(w, recipe, 0, i, {}, x) ==>
                                   x in out && out[x] == Included(w, recipe, i, {}).value.variables[x])
            && ((forall i :: 0 <= i < |recipe.includes| ==> !Brings(w, recipe, i, {}, x)) ==>
                  (x in out <==> x in recipe.variables) && (x in out ==> out[x] == recipe.variables[x]))
  {
    forall i: nat | LastBringer(w, recipe, 0, i, {}, x)
      ensures var out := w.Resolved(recipe).value.variables;
              x in out && out[x] == Included(w, recipe, i, {}).value.variables[x]
    {
      LastBringerGivesValue(w, recipe, 0, recipe, {}, i, x);
    }
    if forall i :: 0 <= i < |recipe.includes| ==> !Brings(w, recipe, i, {}, x) {
      NoBringerKeepsValue(w, recipe, 0, recipe, {}, x);
    }
  }

  lemma {:induction false} ListsAreGathered(w: World, recipe: BitbakeRecipe, k: nat, merged: BitbakeRecipe,
                                            active: set<string>, x: string)
    requires w.MergeIncludes(recipe, k, merged, active).Success?
    ensures var out := w.MergeIncludes(recipe, k, merged, active).value;
            && (x in out.inherits <==> x in merged.inherits || exists i ::
                  k <= i < |recipe.includes| && Included(w, recipe, i, active).Some?
                  && x in Included(w, recipe, i, active).value.inherits)
            && (x in out.buildDepends <==> x in merged.buildDepends || exists i ::
                  k <= i < |recipe.includes| && Included(w, recipe, i, active).Some?
                  && x in Included(w, recipe, i, active).value.buildDepends)
            && (x in out.runtimeDepends <==> x in merged.runtimeDepends || exists i ::
                  k <= i < |recipe.includes| && Included(w, recipe, i, active).Some?
                  && x in Included(w, recipe, i, active).value.runtimeDepends)
    decreases |recipe.includes| - k
  {
    if k < |recipe.includes| {
      var found := w.Locate(recipe, recipe.includes[k]);
      if found.None? {
        ListsAreGathered(w, recipe, k + 1, merged, active, x);
      } else {
        var included := w.Load(found.value, active).value;
        ListsAreGathered(w, recipe, k + 1, Merge(merged, included), active, x);
        UnionMembers(merged.inherits, included.inherits, x);
        UnionMembers(merged.buildDepends, included.buildDepends, x);
        UnionMembers(merged.runtimeDepends, included.runtimeDepends, x);
        assert Included(w, recipe, k, active) == Some(included);
      }
    }
  }

  // ---- Sources: the first one of a URL stays ----

  /** The first source of that URL. */
  function SourceFor(sources: seq<SourceUri>, url: string): Option<SourceUri> {
    if sources == [] then None
    else if sources[0].url == url then Some(sources[0])
    else SourceFor(sources[1..], url)
  }

  lemma {:induction false} SourceForIff(sources: seq<SourceUri>, url: string)
    ensures SourceFor(sources, url).Some? <==> HasUrl(sources, url)
    ensures SourceFor(sources, url).Some? ==> SourceFor(sources, url).value in sources
  {
    if sources != [] {
      SourceForIff(sources[1..], url);
      if HasUrl(sources, url) && sources[0].url != url {
        var s :| s in sources && s.url == url;
        assert s in sources[1..];
      }
    }
  }

  lemma {:induction false} SourceForAppend(xs: seq<SourceUri>, s: SourceUri, url: string)
    ensures SourceFor(xs + [s], url)
            == if SourceFor(xs, url).Some? then SourceFor(xs, url) else if s.url == url then Some(s) else None
  {
    if xs == [] {
      assert xs + [s] == [s];
    } else {
      assert (xs + [s])[0] == xs[0] && (xs + [s])[1..] == xs[1..] + [s];
      SourceForAppend(xs[1..], s, url);
    }
  }

  lemma {:induction false} UnionKeepsFirst(xs: seq<SourceUri>, ys: seq<SourceUri>, url: string)
    ensures SourceFor(UnionSources(xs, ys), url)
            == if SourceFor(xs, url).Some? then SourceFor(xs, url) else SourceFor(ys, url)
    decreases |ys|
  {
    if ys != [] {
      var front, last := ys[..|ys| - 1], ys[|ys| - 1];
      UnionKeepsFirst(xs, front, url);
      var r := UnionSources(xs, front);
      SourceForIff(r, last.url);
      SourceForAppend(r, last, url);
      SourceForAppend(front, last, url);
      assert ys == front + [last];
    }
  }

  ghost predicate Supplies(w: World, recipe: BitbakeRecipe, i: nat, active: set<string>, url: string) {
    && i < |recipe.includes| && Included(w, recipe, i, active).Some?
    && SourceFor(Included(w, recipe, i, active).value.sources, url).Some?
  }

  ghost predicate FirstSupplier(w: World, recipe: BitbakeRecipe, k: nat, i: nat, active: set<string>, url: string) {
    k <= i && Supplies(w, recipe, i, active, url) && forall j :: k <= j < i ==> !Supplies(w, recipe, j, active, url)
  }

  /** What merging the includes from k on makes of the source of a URL. */
  ghost function Supplied(w: World, recipe: BitbakeRecipe, k: nat, active: set<string>, url: string): Option<SourceUri>
    decreases |recipe.includes| - k
  {
    if k >= |recipe.includes| then None
    else if Supplies(w, recipe, k, active, url) then SourceFor(Included(w, recipe, k, active).value.sources, url)
    else Supplied(w, recipe, k + 1, active, url)
  }

  lemma {:induction false} SuppliedByFirst(w: World, recipe: BitbakeRecipe, k: nat, active: set<string>, url: string)
    ensures forall i: nat :: FirstSupplier(w, recipe, k, i, active, url) ==>
              Supplied(w, recipe, k, active, url) == SourceFor(Included(w, recipe, i, active).value.sources, url)
    ensures (forall i: nat :: k <= i ==> !Supplies(w, recipe, i, active, url)) ==>
              Supplied(w, recipe, k, active, url) == None
    decreases |recipe.includes| - k
  {
    if k < |recipe.includes| && !Supplies(w, recipe, k, active, url) {
      SuppliedByFirst(w, recipe, k + 1, active, url);
      forall i: nat | FirstSupplier(w, recipe, k, i, active, url) ensures FirstSupplier(w, recipe, k + 1, i, active, url) {
        assert i != k;
      }
    }
  }

  lemma {:induction false} MergedSource(w: World, recipe: BitbakeRecipe, k: nat, merged: BitbakeRecipe,
                                        active: set<string>, url: string)
    requires w.MergeIncludes(recipe, k, merged, active).Success?
    ensures SourceFor(w.MergeIncludes(recipe, k, merged, active).value.sources, url)
            == if SourceFor(merged.sources, url).Some? then SourceFor(merged.sources, url)
               else Supplied(w, recipe, k, active, url)
    decreases |recipe.includes| - k
  {
    if k < |recipe.includes| {
      var found := w.Locate(recipe, recipe.includes[k]);
      if found.None? {
        MergedSource(w, recipe, k + 1, merged, active, url);
      } else {
        var included := w.Load(found.value, active).value;
        MergedSource(w, recipe, k + 1, Merge(merged, included), active, url);
        UnionKeepsFirst(merged.sources, included.sources, url);
        assert Included(w, recipe, k, active) == Some(included);
      }
    }
  }

  /** Unlike a variable, a source stays as the recipe gives it, or else the first include that has one
      of its URL. */
  lemma FirstSourceWins(w: World, recipe: BitbakeRecipe, url: string)
    requires w.Resolved(recipe).Success?
    ensures var own, out := SourceFor(recipe.sources, url), SourceFor(w.Resolved(recipe).value.sources, url);
            && (own.Some? ==> out == own)
            && (own.None? ==> forall i: nat :: FirstSupplier(w, recipe, 0, i, {}, url) ==>
                                                 out == SourceFor(Included(w, recipe, i, {}).value.sources, url))
            && (own.None? && (forall i: nat :: !Supplies(w, recipe, i, {}, url)) ==> out == None)
  {
    MergedSource(w, recipe, 0, recipe, {}, url);
    SuppliedByFirst(w, recipe, 0, {}, url);
  }

  // ---- The resolver ----

  /** Nothing is ever dropped from a cache, or replaced in it. */
  ghost predicate Keeps(before: map<string, BitbakeRecipe>, after: map<string, BitbakeRecipe>) {
    forall f :: f in before ==> f in after && after[f] == before[f]
  }

  class IncludeResolver {
    const world: World
    var cache: map<string, BitbakeRecipe>
    var parsingStack: set<string>

    /** Everything cached is what the file means. */
    ghost predicate CacheOk()
      reads this
    {
      forall f :: f in cache ==> world.Meaning(f) == Success(cache[f])
    }

    /** Everything marked as being parsed is on the current chain of includes, or was left behind by
        a failure; and then the file does fail. */
    ghost predicate StackOk(chain: seq<string>)
      reads this
    {
      && Elems(chain) <= parsingStack
      && forall f :: f in parsingStack && f !in chain ==> world.Meaning(f).Failure?
    }

    /** Between calls nothing is on a chain. */
    ghost predicate Valid()
      reads this
    {
      CacheOk() && StackOk([])
    }

    constructor (world: World)
      ensures this.world == world && Valid()
    {
      this.world := world;
      cache, parsingStack := map[], {};
    }

    method ParseIncludeFile(path: string, ghost chain: seq<string>)
      returns (result: Result<BitbakeRecipe, IncludeError>)
      requires CacheOk() && StackOk(chain)
      requires path in world.files && LeadsTo(world.Graph(), chain, path)
      modifies this
      ensures CacheOk() && StackOk(chain) && old(parsingStack) <= parsingStack
      ensures result.Success? <==> world.Meaning(path).Success?
      ensures result.Success? ==> result == world.Meaning(path) && parsingStack == old(parsingStack)
      ensures Keeps(old(cache), cache)
      ensures if result.Success? then path in cache && cache[path] == result.value else path in parsingStack
      ensures path in old(parsingStack) ==> result == Failure(CircularInclude(path))
      ensures path !in old(parsingStack) && world.files[path].Unreadable? ==> result == Failure(ParseFailure(path))
      decreases world.files.Keys - parsingStack, 0
    {
      if path in parsingStack {
        if path in chain {
          ChainDoesNotMatter(world, chain, path);
        }
        return Failure(CircularInclude(path));
      }
      if path in cache {
        return Success(cache[path]);
      }
      parsingStack := parsingStack + {path};
      if world.files[path].Unreadable? {
        return Failure(ParseFailure(path));
      }
      var recipe := world.files[path].recipe;
      PathStepExtends(world.Graph(), chain, path);
      MeaningIsResolved(world, path);
      var err;
      err, recipe := ResolveAllIncludes(recipe, chain + [path], path);
      if err.Some? {
        return Failure(err.value);
      }
      parsingStack := parsingStack - {path};
      cache := cache[path := recipe];
      return Success(recipe);
    }

    method ResolveInclude(inc: IncludeDirective, recipe: BitbakeRecipe, ghost chain: seq<string>)
      returns (result: Result<Option<BitbakeRecipe>, IncludeError>)
      requires CacheOk() && StackOk(chain)
      requires world.Locate(recipe, inc).Some? ==> LeadsTo(world.Graph(), chain, world.Locate(recipe, inc).value)
      modifies this
      ensures CacheOk() && StackOk(chain) && old(parsingStack) <= parsingStack && Keeps(old(cache), cache)
      ensures result.Success? ==> parsingStack == old(parsingStack)
      ensures var found := world.Locate(recipe, inc);
              if found.None?
              then result == if inc.required then Failure(RequiredNotFound(world.expand(recipe, inc.path))) else Success(None)
              else (result.Success? <==> world.Meaning(found.value).Success?)
                   && (result.Success? ==> result.value == Some(world.Meaning(found.value).value))
      decreases world.files.Keys - parsingStack, 1
    {
      var resolvedPath := world.expand(recipe, inc.path);
      var includePath := FindIncludeFile(resolvedPath, world.parent(recipe.filePath));
      if includePath.None? {
        if inc.required {
          return Failure(RequiredNotFound(resolvedPath));
        }
        return Success(None);
      }
      var included := ParseIncludeFile(includePath.value, chain);
      if included.Failure? {
        return Failure(included.error);
      }
      return Success(Some(included.value));
    }

    method FindIncludeFile(includePath: string, baseDir: string) returns (found: Option<string>)
      ensures found == if world.join(baseDir, includePath) in world.files then Some(world.join(baseDir, includePath))
                       else world.SearchFrom(world.searchPaths, includePath)
    {
      var relative := world.join(baseDir, includePath);
      if relative in world.files {
        return Some(relative);
      }
      for i := 0 to |world.searchPaths|
        invariant world.SearchFrom(world.searchPaths, includePath)
                  == world.SearchFrom(world.searchPaths[i..], includePath)
      {
        var candidate := world.join(world.searchPaths[i], includePath);
        if candidate in world.files {
          return Some(candidate);
        }
      }
      return None;
    }

    /** The loop over a recipe's includes.  `chain` ends in the file `at` whose recipe this is, or is
        empty for a recipe that a caller hands in. */
    method ResolveAllIncludes(recipe0: BitbakeRecipe, ghost chain: seq<string>, ghost at: string)
      returns (err: Option<IncludeError>, recipe: BitbakeRecipe)
      requires CacheOk() && StackOk(chain)
      requires chain != [] ==> at in world.files && world.files[at] == Parsed(recipe0)
                               && chain[|chain| - 1] == at && Walk(world.Graph(), chain)
      modifies this
      ensures CacheOk() && StackOk(chain) && old(parsingStack) <= parsingStack && Keeps(old(cache), cache)
      ensures err.None? <==> world.Resolved(recipe0).Success?
      ensures err.None? ==> world.Resolved(recipe0) == Success(recipe) && parsingStack == old(parsingStack)
      ensures err.Some? ==> recipe.variables == recipe0.variables
      decreases world.files.Keys - parsingStack, 2
    {
      recipe := recipe0;
      err := None;
      var mergedVariables := recipe.variables;
      for i := 0 to |recipe0.includes|
        invariant CacheOk() && StackOk(chain) && parsingStack == old(parsingStack) && Keeps(old(cache), cache)
        invariant recipe.includes == recipe0.includes && recipe.variables == recipe0.variables
        invariant world.Resolved(recipe0)
                  == world.MergeIncludes(recipe0, i, recipe.(variables := mergedVariables), {})
      {
        var inc := recipe0.includes[i];
        if chain != [] {
          IncludeContinuesChain(world, chain, at, inc);
        }
        var included := ResolveInclude(inc, recipe0, chain);
        match included
        case Failure(e) =>
          return Some(e), recipe;
        case Success(None) =>
        case Success(Some(other)) =>
          mergedVariables := mergedVariables + other.variables;
          var inherits := AppendMissing(recipe.inherits, other.inherits);
          var sources := AppendMissingSources(recipe.sources, other.sources);
          var buildDepends := AppendMissing(recipe.buildDepends, other.buildDepends);
          var runtimeDepends := AppendMissing(recipe.runtimeDepends, other.runtimeDepends);
          recipe := recipe.(inherits := inherits, sources := sources,
                            buildDepends := buildDepends, runtimeDepends := runtimeDepends);
      }
      recipe := recipe.(variables := mergedVariables);
    }

    /** Any number of calls, after successes and failures alike, answers like a resolver without
        cache and without leftovers. */
    method ResolveRecipe(recipe0: BitbakeRecipe) returns (err: Option<IncludeError>, recipe: BitbakeRecipe)
      requires Valid()
      modifies this
      ensures Valid()
      ensures err.None? <==> world.Resolved(recipe0).Success?
      ensures err.None? ==> world.Resolved(recipe0) == Success(recipe)
      ensures err.Some? ==> recipe.variables == recipe0.variables
      ensures Keeps(old(cache), cache)
    {
      err, recipe := ResolveAllIncludes(recipe0, [], "");
    }

    method ClearCache()
      modifies this
      ensures Valid() && cache == map[] && parsingStack == {}
    {
      cache, parsingStack := map[], {};
    }
  }

  lemma IncludeContinuesChain(w: World, chain: seq<string>, at: string, inc: IncludeDirective)
    requires chain != [] && Walk(w.Graph(), chain) && chain[|chain| - 1] == at
    requires at in w.files && w.files[at].Parsed? && inc in w.files[at].recipe.includes
    ensures w.Locate(w.files[at].recipe, inc).Some? ==>
              LeadsTo(w.Graph(), chain, w.Locate(w.files[at].recipe, inc).value)
  {
    var found := w.Locate(w.files[at].recipe, inc);
    if found.Some? {
      EdgeMeansInclude(w, at, found.value);
    }
  }

  method AppendMissing<T(==)>(xs: seq<T>, ys: seq<T>) returns (r: seq<T>)
    ensures r == Union(xs, ys)
  {
    r := xs;
    for i := 0 to |ys|
      invariant r == Union(xs, ys[..i])
    {
      assert ys[..i + 1][..i] == ys[..i];
      if ys[i] !in r {
        r := r + [ys[i]];
      }
    }
    assert ys[..|ys|] == ys;
  }

  method AppendMissingSources(xs: seq<SourceUri>, ys: seq<SourceUri>) returns (r: seq<SourceUri>)
    ensures r == UnionSources(xs, ys)
  {
    r := xs;
    for i := 0 to |ys|
      invariant r == UnionSources(xs, ys[..i])
    {
      assert ys[..i + 1][..i] == ys[..i];
      if !HasUrl(r, ys[i].url) {
        r := r + [ys[i]];
      }
    }
    assert ys[..|ys|] == ys;
  }
}
