/** What the computed signatures mean: they do not depend on the execution order that was used, and
    two builds agree on a task's signature exactly when they agree on everything below it. */
module SignatureTheorems {
  import opened Wrappers
  import opened Digraph
  import opened StringOrder
  import opened SignatureCache

  // ---- Folding over the dependencies ----

  /** A value for t from the values of its dependencies, looking n levels deep. */
  ghost function Fold<V>(f: (TaskId, seq<V>) -> V, g: map<TaskId, seq<TaskId>>, t: TaskId, n: nat): V
    decreases n, 0
  {
    if n == 0 then f(t, []) else f(t, FoldAll(f, g, Succ(g, t), n - 1))
  }

  ghost function FoldAll<V>(f: (TaskId, seq<V>) -> V, g: map<TaskId, seq<TaskId>>, ds: seq<TaskId>, n: nat): seq<V>
    decreases n, |ds| + 1
  {
    if ds == [] then [] else FoldAll(f, g, ds[..|ds| - 1], n) + [Fold(f, g, ds[|ds| - 1], n)]
  }

  lemma {:induction false} FoldAllIndex<V>(f: (TaskId, seq<V>) -> V, g: map<TaskId, seq<TaskId>>, ds: seq<TaskId>, n: nat)
    ensures |FoldAll(f, g, ds, n)| == |ds|
    ensures forall i :: 0 <= i < |ds| ==> FoldAll(f, g, ds, n)[i] == Fold(f, g, ds[i], n)
    decreases |ds|
  {
    if ds != [] {
      FoldAllIndex(f, g, ds[..|ds| - 1], n);
    }
  }

  /** Looking deeper than the longest dependency chain changes nothing. */
  lemma {:induction false} FoldStable<V>(f: (TaskId, seq<V>) -> V, g: map<TaskId, seq<TaskId>>, t: TaskId, n: nat, m: nat)
    requires DepthAtMost(g, t, n) && n <= m
    ensures Fold(f, g, t, n) == Fold(f, g, t, m)
    decreases n, 0
  {
    FoldAllStable(f, g, Succ(g, t), n - 1, m - 1);
  }

  lemma {:induction false} FoldAllStable<V>(f: (TaskId, seq<V>) -> V, g: map<TaskId, seq<TaskId>>, ds: seq<TaskId>, n: nat, m: nat)
    requires n <= m && forall d :: d in ds ==> DepthAtMost(g, d, n)
    ensures FoldAll(f, g, ds, n) == FoldAll(f, g, ds, m)
    decreases n, |ds| + 1
  {
    if ds != [] {
      FoldAllStable(f, g, ds[..|ds| - 1], n, m);
      FoldStable(f, g, ds[|ds| - 1], n, m);
    }
  }

  // ---- Signatures as a fold ----

  ghost function Signer(h: Hash, b: Build): (TaskId, seq<string>) -> string {
    (t, depSignatures) => if t in b.tasks then SignatureOf(h, b.Inputs(h, t, depSignatures)) else ""
  }

  /** The signature of a task, from the signatures of its dependencies down to depth n. */
  ghost function Sig(h: Hash, b: Build, t: TaskId, n: nat): string {
    Fold(Signer(h, b), b.Deps(), t, n)
  }

  ghost function Sigs(h: Hash, b: Build, ds: seq<TaskId>, n: nat): seq<string> {
    FoldAll(Signer(h, b), b.Deps(), ds, n)
  }

  lemma SigStep(h: Hash, b: Build, t: TaskId, n: nat)
    requires t in b.tasks && n > 0
    ensures Sig(h, b, t, n) == SignatureOf(h, b.Inputs(h, t, Sigs(h, b, b.Present(b.tasks[t].dependsOn), n - 1)))
  {
  }

  lemma SigStable(h: Hash, b: Build, t: TaskId, n: nat, m: nat)
    requires DepthAtMost(b.Deps(), t, n) && n <= m
    ensures Sig(h, b, t, n) == Sig(h, b, t, m)
  {
    FoldStable(Signer(h, b), b.Deps(), t, n, m);
  }

  // ---- Independence of the execution order ----

  /** Every task comes after all its dependencies (of those that are tasks at all). */
  ghost predicate DependencyFirst(b: Build, order: seq<TaskId>) {
    forall i, d :: 0 <= i < |order| && order[i] in b.tasks && d in b.Present(b.tasks[order[i]].dependsOn) ==>
                     d in order[..i]
  }

  lemma PrefixIsDependencyFirst(b: Build, order: seq<TaskId>, k: nat)
    requires DependencyFirst(b, order) && k <= |order|
    ensures DependencyFirst(b, order[..k])
  {
    forall i, d | 0 <= i < k && order[i] in b.tasks && d in b.Present(b.tasks[order[i]].dependsOn)
      ensures d in order[..k][..i]
    {
      assert order[..k][..i] == order[..i];
    }
  }

  lemma {:induction false} PositionBoundsDepth(b: Build, order: seq<TaskId>, i: nat)
    requires DependencyFirst(b, order) && i < |order| && order[i] in b.tasks
    ensures DepthAtMost(b.Deps(), order[i], i + 1)
    decreases i
  {
    forall d | d in Succ(b.Deps(), order[i]) ensures DepthAtMost(b.Deps(), d, i) {
      assert d in order[..i];
      var j :| 0 <= j < i && order[j] == d;
      PositionBoundsDepth(b, order, j);
      DepthMonotone(b.Deps(), d, j + 1, i);
    }
  }

  lemma InOrderBoundsDepth(b: Build, order: seq<TaskId>, t: TaskId)
    requires DependencyFirst(b, order) && t in order && t in b.tasks
    ensures DepthAtMost(b.Deps(), t, |order|)
  {
    var i :| 0 <= i < |order| && order[i] == t;
    PositionBoundsDepth(b, order, i);
    DepthMonotone(b.Deps(), t, i + 1, |order|);
  }

  lemma {:induction false} CollectedIsSigs(h: Hash, b: Build, computed: map<string, string>, ds: seq<TaskId>, n: nat)
    requires forall d :: d in b.Present(ds) ==> b.Key(d) in computed && computed[b.Key(d)] == Sig(h, b, d, n)
    ensures Collected(b, computed, ds) == Sigs(h, b, b.Present(ds), n)
    decreases |ds|
  {
    if ds != [] {
      var front, last := ds[..|ds| - 1], ds[|ds| - 1];
      assert forall d :: d in b.Present(front) ==> d in b.Present(ds);
      CollectedIsSigs(h, b, computed, front, n);
      if last in b.tasks {
        var present := b.Present(ds);
        assert present == b.Present(front) + [last];
        assert present[..|present| - 1] == b.Present(front);
        assert last in present;
      }
    }
  }

  lemma FrontSigsStable(h: Hash, b: Build, front: seq<TaskId>, u: TaskId, n: nat, m: nat)
    requires DependencyFirst(b, front) && u in b.tasks && u in front && n == |front| && m == n + 1
    ensures Sig(h, b, u, n) == Sig(h, b, u, m)
  {
    InOrderBoundsDepth(b, front, u);
    SigStable(h, b, u, n, m);
  }

  /** The signature of the last task of an order from those of its dependencies. */
  lemma LastSig(h: Hash, b: Build, front: seq<TaskId>, t: TaskId, before: map<string, string>, n: nat, m: nat)
    requires t in b.tasks && m == n + 1
    requires forall d :: d in b.Present(b.tasks[t].dependsOn) ==> d in front
    requires forall u :: u in b.tasks && u in front ==> b.Key(u) in before && before[b.Key(u)] == Sig(h, b, u, n)
    ensures SignatureOf(h, b.Inputs(h, t, Collected(b, before, b.tasks[t].dependsOn))) == Sig(h, b, t, m)
  {
    CollectedIsSigs(h, b, before, b.tasks[t].dependsOn, n);
    assert m - 1 == n;
    SigStep(h, b, t, m);
  }

  /** The pass computes the signatures. */
  lemma {:induction false} PassComputesSigs(h: Hash, b: Build, order: seq<TaskId>)
    requires b.UniqueKeys() && DependencyFirst(b, order)
    ensures forall k :: k in Computed(h, b, order) <==> exists t :: t in b.tasks && t in order && b.Key(t) == k
    ensures forall t :: t in b.tasks && t in order ==> Computed(h, b, order)[b.Key(t)] == Sig(h, b, t, |order|)
    decreases |order|
  {
    if order != [] {
      var n, m := |order| - 1, |order|;
      var front, t := order[..n], order[n];
      assert order == front + [t];
      PrefixIsDependencyFirst(b, order, n);
      PassComputesSigs(h, b, front);
      forall u | u in b.tasks && u in front ensures Sig(h, b, u, n) == Sig(h, b, u, m) {
        FrontSigsStable(h, b, front, u, n, m);
      }
      if t in b.tasks {
        LastSig(h, b, front, t, Computed(h, b, front), n, m);
      }
    }
  }

  lemma ComputedIsSig(h: Hash, b: Build, order: seq<TaskId>, t: TaskId, n: nat)
    requires b.UniqueKeys() && DependencyFirst(b, order) && t in order && t in b.tasks && |order| <= n
    ensures b.Key(t) in Computed(h, b, order) && Computed(h, b, order)[b.Key(t)] == Sig(h, b, t, n)
    ensures DepthAtMost(b.Deps(), t, n)
  {
    PassComputesSigs(h, b, order);
    InOrderBoundsDepth(b, order, t);
    SigStable(h, b, t, |order|, n);
    DepthMonotone(b.Deps(), t, |order|, n);
  }

  function Max(a: nat, b: nat): nat {
    if a <= b then b else a
  }

  /** The same signature maps a key to the same value in both passes. */
  lemma OrdersAgreeOnTask(h: Hash, b: Build, order1: seq<TaskId>, order2: seq<TaskId>, t: TaskId)
    requires b.UniqueKeys() && DependencyFirst(b, order1) && DependencyFirst(b, order2)
    requires t in b.tasks && t in order1 && t in order2
    ensures b.Key(t) in Computed(h, b, order1) && b.Key(t) in Computed(h, b, order2)
    ensures Computed(h, b, order1)[b.Key(t)] == Computed(h, b, order2)[b.Key(t)]
  {
    var n := Max(|order1|, |order2|);
    ComputedIsSig(h, b, order1, t, n);
    ComputedIsSig(h, b, order2, t, n);
  }

  lemma OrderCovers(h: Hash, b: Build, order1: seq<TaskId>, order2: seq<TaskId>, k: string)
    requires b.UniqueKeys() && DependencyFirst(b, order1) && DependencyFirst(b, order2)
    requires b.tasks.Keys <= Elems(order2) && k in Computed(h, b, order1)
    ensures k in Computed(h, b, order2) && Computed(h, b, order1)[k] == Computed(h, b, order2)[k]
  {
    PassComputesSigs(h, b, order1);
    var t :| t in b.tasks && t in order1 && b.Key(t) == k;
    assert t in Elems(order2);
    OrdersAgreeOnTask(h, b, order1, order2, t);
  }

  /** Any two dependency-first orders over all tasks give the same signature map. */
  lemma OrderDoesNotMatter(h: Hash, b: Build, order1: seq<TaskId>, order2: seq<TaskId>)
    requires b.UniqueKeys() && DependencyFirst(b, order1) && DependencyFirst(b, order2)
    requires b.tasks.Keys <= Elems(order1) && b.tasks.Keys <= Elems(order2)
    ensures Computed(h, b, order1) == Computed(h, b, order2)
  {
    var one, two := Computed(h, b, order1), Computed(h, b, order2);
    forall k | k in one ensures k in two && one[k] == two[k] {
      OrderCovers(h, b, order1, order2, k);
    }
    forall k | k in two ensures k in one {
      OrderCovers(h, b, order2, order1, k);
    }
    assert one.Keys == two.Keys;
  }

  // ---- Independence of the order of dependencies ----

  function Firsts<A, B>(ps: seq<(A, B)>): (r: seq<A>)
    ensures |r| == |ps| && forall i :: 0 <= i < |ps| ==> r[i] == ps[i].0
  {
    seq(|ps|, i requires 0 <= i < |ps| => ps[i].0)
  }

  function Seconds<A, B>(ps: seq<(A, B)>): (r: seq<B>)
    ensures |r| == |ps| && forall i :: 0 <= i < |ps| ==> r[i] == ps[i].1
  {
    seq(|ps|, i requires 0 <= i < |ps| => ps[i].1)
  }

  function Without<A>(s: seq<A>, j: nat): (r: seq<A>)
    requires j < |s|
    ensures |r| == |s| - 1 && forall x :: x in r ==> x in s
  {
    s[..j] + s[j + 1..]
  }

  lemma WithoutCounts<A>(s: seq<A>, j: nat)
    requires j < |s|
    ensures multiset(s) == multiset(Without(s, j)) + multiset{s[j]}
  {
    assert s == s[..j] + [s[j]] + s[j + 1..];
  }

  lemma FirstsWithout<A, B>(ps: seq<(A, B)>, j: nat)
    requires j < |ps|
    ensures multiset(Firsts(ps)) == multiset(Firsts(Without(ps, j))) + multiset{ps[j].0}
  {
    assert Firsts(Without(ps, j)) == Without(Firsts(ps), j);
    WithoutCounts(Firsts(ps), j);
  }

  lemma SecondsWithout<A, B>(ps: seq<(A, B)>, j: nat)
    requires j < |ps|
    ensures multiset(Seconds(ps)) == multiset(Seconds(Without(ps, j))) + multiset{ps[j].1}
  {
    assert Seconds(Without(ps, j)) == Without(Seconds(ps), j);
    WithoutCounts(Seconds(ps), j);
  }

  lemma Cancel<A>(a: multiset<A>, b: multiset<A>, x: A)
    requires a + multiset{x} == b + multiset{x}
    ensures a == b
  {
    assert a == (a + multiset{x}) - multiset{x};
    assert b == (b + multiset{x}) - multiset{x};
  }

  ghost predicate Matching<A(!new), B(!new)>(ps: seq<(A, B)>, qs: seq<(A, B)>) {
    forall p, q :: p in ps && q in qs && p.0 == q.0 ==> p.1 == q.1
  }

  /** If equal first components force equal second components, then first components that agree as
      multisets force second components that agree as multisets. */
  lemma {:induction false} MatchedPairs<A(!new), B(!new)>(ps: seq<(A, B)>, qs: seq<(A, B)>)
    requires Matching(ps, qs)
    requires multiset(Firsts(ps)) == multiset(Firsts(qs))
    ensures multiset(Seconds(ps)) == multiset(Seconds(qs))
    decreases |ps|
  {
    assert |multiset(Firsts(ps))| == |ps| && |multiset(Firsts(qs))| == |qs|;
    if ps == [] {
      assert Seconds(ps) == Seconds(qs);
    } else {
      assert Firsts(ps)[0] in multiset(Firsts(ps)) && Firsts(ps)[0] in Firsts(qs);
      var j :| 0 <= j < |qs| && Firsts(qs)[j] == Firsts(ps)[0];
      assert ps[0] in ps && qs[j] in qs && ps[0].0 == qs[j].0;
      FirstsWithout(ps, 0);
      FirstsWithout(qs, j);
      SecondsWithout(ps, 0);
      SecondsWithout(qs, j);
      Cancel(multiset(Firsts(Without(ps, 0))), multiset(Firsts(Without(qs, j))), ps[0].0);
      MatchedPairs(Without(ps, 0), Without(qs, j));
    }
  }

  lemma {:induction false} PresentCounts(b: Build, ds: seq<TaskId>, d: TaskId)
    ensures multiset(b.Present(ds))[d] == if d in b.tasks then multiset(ds)[d] else 0
    decreases |ds|
  {
    if ds != [] {
      PresentCounts(b, ds[..|ds| - 1], d);
      assert ds == ds[..|ds| - 1] + [ds[|ds| - 1]];
    }
  }

  /** The same build, except that the dependency lists may be arranged differently. */
  ghost predicate SameUpToDepOrder(b: Build, c: Build) {
    && c == b.(tasks := c.tasks)
    && b.tasks.Keys == c.tasks.Keys
    && forall t :: t in b.tasks ==>
                     && c.tasks[t] == b.tasks[t].(dependsOn := c.tasks[t].dependsOn)
                     && multiset(c.tasks[t].dependsOn) == multiset(b.tasks[t].dependsOn)
  }

  function Zip<A, B>(as': seq<A>, bs: seq<B>): (r: seq<(A, B)>)
    requires |as'| == |bs|
    ensures Firsts(r) == as' && Seconds(r) == bs
    ensures forall p :: p in r ==> exists i :: 0 <= i < |as'| && as'[i] == p.0 && bs[i] == p.1
  {
    seq(|as'|, i requires 0 <= i < |as'| => (as'[i], bs[i]))
  }

  lemma SameSortedDeps(h: Hash, i: SignatureInputs, deps1: seq<string>, deps2: seq<string>)
    requires multiset(deps1) == multiset(deps2)
    ensures SignatureOf(h, i.(depSignatures := deps1)) == SignatureOf(h, i.(depSignatures := deps2))
  {
    SameSortIff(deps1, deps2);
  }

  lemma SamePresent(b: Build, c: Build, t: TaskId)
    requires SameUpToDepOrder(b, c) && t in b.tasks
    ensures multiset(b.Present(b.tasks[t].dependsOn)) == multiset(c.Present(c.tasks[t].dependsOn))
  {
    var ds, es := b.Present(b.tasks[t].dependsOn), c.Present(c.tasks[t].dependsOn);
    forall d ensures multiset(ds)[d] == multiset(es)[d] {
      PresentCounts(b, b.tasks[t].dependsOn, d);
      PresentCounts(c, c.tasks[t].dependsOn, d);
    }
  }

  /** The signatures of a task's dependencies. */
  ghost function DepSigs(h: Hash, b: Build, t: TaskId, n: nat): seq<string>
    requires t in b.tasks
  {
    Sigs(h, b, b.Present(b.tasks[t].dependsOn), n)
  }

  /** Equal own inputs and equal dependency signatures, in whatever order, make equal signatures. */
  lemma EqualSigs(h: Hash, b: Build, t: TaskId, c: Build, u: TaskId, n: nat)
    requires t in b.tasks && u in c.tasks && n > 0
    requires b.Inputs(h, t, []) == c.Inputs(h, u, [])
    requires multiset(DepSigs(h, b, t, n - 1)) == multiset(DepSigs(h, c, u, n - 1))
    ensures Sig(h, b, t, n) == Sig(h, c, u, n)
  {
    var sigs1, sigs2 := DepSigs(h, b, t, n - 1), DepSigs(h, c, u, n - 1);
    SigStep(h, b, t, n);
    SigStep(h, c, u, n);
    SameSortedDeps(h, b.Inputs(h, t, []), sigs1, sigs2);
    assert b.Inputs(h, t, sigs1) == b.Inputs(h, t, []).(depSignatures := sigs1);
    assert c.Inputs(h, u, sigs2) == c.Inputs(h, u, []).(depSignatures := sigs2);
  }

  // ---- Signatures determine their inputs ----

  /** No field that is fed to the hash contains the separator. */
  ghost predicate SeparatorFree(b: Build) {
    && (forall t :: t in b.tasks ==> Lacks(b.tasks[t].recipeName, '|') && Lacks(b.tasks[t].taskName, '|'))
    && (forall r :: r in b.recipeHashes ==> Lacks(b.recipeHashes[r], '|'))
    && (b.machine.Some? ==> Lacks(b.machine.value, '|'))
    && (b.distro.Some? ==> Lacks(b.distro.value, '|'))
  }

  /** The entry of m at key k, or `missing` where there is none. */
  function Entry<K, V>(m: map<K, V>, k: K, missing: V): V {
    if k in m then m[k] else missing
  }

  /** The content hash held for a recipe; one that is missing counts as unknown. */
  function HeldHash(b: Build, recipe: string): string {
    Entry(b.recipeHashes, recipe, "unknown")
  }

  /** The code held for a task of a recipe; code that is missing counts as empty. */
  function HeldCode(b: Build, recipe: string, task: string): string {
    Entry(Entry(b.taskImpls, recipe, map[]), task, "")
  }

  lemma HeldAreHashed(b: Build, t: TaskId)
    requires t in b.tasks
    ensures b.RecipeHash(t) == HeldHash(b, b.tasks[t].recipeName)
    ensures b.Code(t) == HeldCode(b, b.tasks[t].recipeName, b.tasks[t].taskName)
  {
  }

  /** The inputs that belong to the task itself. */
  datatype OwnInputs = OwnInputs(recipe: string, task: string, recipeHash: string, code: string,
                                 machine: Option<string>, distro: Option<string>)

  function Own(b: Build, t: TaskId): OwnInputs
    requires t in b.tasks
  {
    var recipe, task := b.tasks[t].recipeName, b.tasks[t].taskName;
    OwnInputs(recipe, task, HeldHash(b, recipe), HeldCode(b, recipe, task), b.machine, b.distro)
  }

  function Head(i: SignatureInputs): seq<string> {
    [i.recipe, i.task, i.recipeHash, i.taskCodeHash]
  }

  function Names(i: SignatureInputs): seq<string> {
    [EnvField("PN", i.recipe), EnvField("TASK", i.task)]
  }

  function Overrides(i: SignatureInputs): seq<string> {
    OptionalField("MACHINE", i.machine) + OptionalField("DISTRO", i.distro)
  }

  lemma BasicFields(i: SignatureInputs)
    requires i.envVars == BasicEnv(i.recipe, i.task)
    ensures Fields(i) == Head(i) + Sort(i.depSignatures) + Names(i) + Overrides(i)
  {
    var keys := ["PN", "TASK"];
    assert AtMost("PN", "TASK") by { assert "PN"[0] < "TASK"[0]; }
    assert i.envVars.Keys == {"PN", "TASK"} == Elems(keys);
    SortedKeysUnique(keys, i.envVars.Keys);
    assert EnvFields(keys, i.envVars) == Names(i);
  }

  lemma EnvFieldHasEquals(key: string, value: string)
    ensures !Lacks(EnvField(key, value), '=')
  {
    assert EnvField(key, value)[|key|] == '=';
  }

  lemma EnvFieldInjective(key: string, v: string, w: string)
    requires EnvField(key, v) == EnvField(key, w)
    ensures v == w
  {
    assert v == EnvField(key, v)[|key| + 1..] && w == EnvField(key, w)[|key| + 1..];
  }

  lemma FieldAfterDeps(head: seq<string>, deps1: seq<string>, tail1: seq<string>, deps2: seq<string>, tail2: seq<string>)
    requires head + deps1 + tail1 == head + deps2 + tail2
    requires |deps1| < |deps2| && tail1 != []
    ensures deps2[|deps1|] == tail1[0]
  {
    var k := |head| + |deps1|;
    assert (head + deps1 + tail1)[k] == tail1[0];
    assert (head + deps2 + tail2)[k] == deps2[|deps1|];
  }

  /** The dependency signatures end where the first field with an equals sign begins. */
  lemma DepsNotLonger(head: seq<string>, deps1: seq<string>, tail1: seq<string>, deps2: seq<string>, tail2: seq<string>)
    requires head + deps1 + tail1 == head + deps2 + tail2
    requires tail1 != [] && !Lacks(tail1[0], '=')
    requires forall i :: 0 <= i < |deps2| ==> Lacks(deps2[i], '=')
    ensures |deps2| <= |deps1|
  {
    if |deps1| < |deps2| {
      FieldAfterDeps(head, deps1, tail1, deps2, tail2);
    }
  }

  lemma OverridesInjective(m1: Option<string>, d1: Option<string>, m2: Option<string>, d2: Option<string>)
    requires OptionalField("MACHINE", m1) + OptionalField("DISTRO", d1)
             == OptionalField("MACHINE", m2) + OptionalField("DISTRO", d2)
    ensures m1 == m2 && d1 == d2
  {
    var f1, f2 := OptionalField("MACHINE", m1) + OptionalField("DISTRO", d1),
                  OptionalField("MACHINE", m2) + OptionalField("DISTRO", d2);
    assert f1 == f2;
    assert f1 != [] ==> f1[0][0] == f2[0][0];
    assert m1.Some? ==> f1[0][0] == 'M';
    assert m1.None? && d1.Some? ==> f1[0][0] == 'D';
    assert m2.Some? ==> f2[0][0] == 'M';
    assert m2.None? && d2.Some? ==> f2[0][0] == 'D';
    assert m1.Some? == m2.Some?;
    if m1.Some? { EnvFieldInjective("MACHINE", m1.value, m2.value); }
    var k := if m1.Some? then 1 else 0;
    assert d1.Some? ==> f1[k] == EnvField("DISTRO", d1.value);
    assert d2.Some? ==> f2[k] == EnvField("DISTRO", d2.value);
    if d1.Some? { EnvFieldInjective("DISTRO", d1.value, d2.value); }
  }

  lemma DepBlocksEqual(head: seq<string>, d1: seq<string>, t1: seq<string>, d2: seq<string>, t2: seq<string>)
    requires head + d1 + t1 == head + d2 + t2
    requires t1 != [] && t2 != [] && !Lacks(t1[0], '=') && !Lacks(t2[0], '=')
    requires forall i :: 0 <= i < |d1| ==> Lacks(d1[i], '=')
    requires forall i :: 0 <= i < |d2| ==> Lacks(d2[i], '=')
    ensures d1 == d2 && t1 == t2
  {
    DepsNotLonger(head, d1, t1, d2, t2);
    DepsNotLonger(head, d2, t2, d1, t1);
    var whole, k := head + d1 + t1, |head|;
    assert d1 == whole[k..k + |d1|] && t1 == whole[k + |d1|..];
    assert d2 == (head + d2 + t2)[k..k + |d2|] && t2 == (head + d2 + t2)[k + |d2|..];
  }

  lemma SortedLack(deps: seq<string>)
    requires forall d :: d in deps ==> Lacks(d, '=')
    ensures forall i :: 0 <= i < |Sort(deps)| ==> Lacks(Sort(deps)[i], '=')
  {
    SortIsSorted(deps);
    forall i | 0 <= i < |Sort(deps)| ensures Lacks(Sort(deps)[i], '=') {
      assert Sort(deps)[i] in multiset(Sort(deps));
    }
  }

  lemma DepsAndTailsEqual(i: SignatureInputs, j: SignatureInputs)
    requires forall d :: d in i.depSignatures || d in j.depSignatures ==> Lacks(d, '=')
    requires Head(i) + Sort(i.depSignatures) + (Names(i) + Overrides(i))
             == Head(i) + Sort(j.depSignatures) + (Names(j) + Overrides(j))
    ensures Sort(i.depSignatures) == Sort(j.depSignatures) && Names(i) + Overrides(i) == Names(j) + Overrides(j)
  {
    SortedLack(i.depSignatures);
    SortedLack(j.depSignatures);
    EnvFieldHasEquals("PN", i.recipe);
    EnvFieldHasEquals("PN", j.recipe);
    DepBlocksEqual(Head(i), Sort(i.depSignatures), Names(i) + Overrides(i),
                   Sort(j.depSignatures), Names(j) + Overrides(j));
  }

  lemma OverridesEqual(i: SignatureInputs, j: SignatureInputs)
    requires Names(i) + Overrides(i) == Names(j) + Overrides(j)
    ensures i.machine == j.machine && i.distro == j.distro
  {
    assert Overrides(i) == (Names(i) + Overrides(i))[2..];
    assert Overrides(j) == (Names(j) + Overrides(j))[2..];
    OverridesInjective(i.machine, i.distro, j.machine, j.distro);
  }

  lemma FieldsDetermineInputs(i: SignatureInputs, j: SignatureInputs)
    requires i.envVars == BasicEnv(i.recipe, i.task) && j.envVars == BasicEnv(j.recipe, j.task)
    requires forall d :: d in i.depSignatures || d in j.depSignatures ==> Lacks(d, '=')
    requires Fields(i) == Fields(j)
    ensures Head(i) == Head(j) && i.machine == j.machine && i.distro == j.distro
    ensures multiset(i.depSignatures) == multiset(j.depSignatures)
  {
    BasicFields(i);
    BasicFields(j);
    HeadsEqual(i, j);
    Regroup(Head(i), Sort(i.depSignatures), Names(i), Overrides(i));
    Regroup(Head(j), Sort(j.depSignatures), Names(j), Overrides(j));
    DepsAndTailsEqual(i, j);
    OverridesEqual(i, j);
    SameSortIff(i.depSignatures, j.depSignatures);
  }

  lemma Regroup(a: seq<string>, b: seq<string>, c: seq<string>, d: seq<string>)
    ensures a + b + c + d == a + b + (c + d)
  {
  }

  lemma HeadsEqual(i: SignatureInputs, j: SignatureInputs)
    requires Head(i) + Sort(i.depSignatures) + Names(i) + Overrides(i)
             == Head(j) + Sort(j.depSignatures) + Names(j) + Overrides(j)
    ensures Head(i) == Head(j)
  {
    assert Head(i) == (Head(i) + Sort(i.depSignatures) + Names(i) + Overrides(i))[..4];
    assert Head(j) == (Head(j) + Sort(j.depSignatures) + Names(j) + Overrides(j))[..4];
  }

  lemma DepthOfDep(b: Build, t: TaskId, d: TaskId, n: nat)
    requires t in b.tasks && d in b.Present(b.tasks[t].dependsOn) && DepthAtMost(b.Deps(), t, n)
    ensures n > 0 && DepthAtMost(b.Deps(), d, n - 1) && Edge(b.Deps(), t, d)
  {
    assert d in Succ(b.Deps(), t);
  }

  // ---- Cones ----

  /** The keys of a task's dependencies. */
  function DepKeys(b: Build, t: TaskId): (r: seq<string>)
    requires t in b.tasks
    ensures |r| == |b.Present(b.tasks[t].dependsOn)|
  {
    var ds := b.Present(b.tasks[t].dependsOn);
    seq(|ds|, i requires 0 <= i < |ds| => assert ds[i] in ds; b.Key(ds[i]))
  }

  /** t in b and u in c have the same own inputs, dependencies with the same keys, and so on for the
      dependencies with equal keys, n levels deep. */
  ghost predicate SameCone(b: Build, t: TaskId, c: Build, u: TaskId, n: nat)
    requires t in b.tasks && u in c.tasks
    decreases n
  {
    && n > 0
    && Own(b, t) == Own(c, u)
    && multiset(DepKeys(b, t)) == multiset(DepKeys(c, u))
    && forall d, e ::
         d in b.Present(b.tasks[t].dependsOn) && e in c.Present(c.tasks[u].dependsOn) && b.Key(d) == c.Key(e) ==>
           SameCone(b, d, c, e, n - 1)
  }

  /** Key and signature of every dependency. */
  ghost function KeyedSigs(h: Hash, b: Build, t: TaskId, n: nat): (r: seq<(string, string)>)
    requires t in b.tasks
    ensures Firsts(r) == DepKeys(b, t) && Seconds(r) == DepSigs(h, b, t, n)
  {
    DepSigsSize(h, b, t, n);
    Zip(DepKeys(b, t), DepSigs(h, b, t, n))
  }

  lemma DepSigsSize(h: Hash, b: Build, t: TaskId, n: nat)
    requires t in b.tasks
    ensures |DepSigs(h, b, t, n)| == |b.Present(b.tasks[t].dependsOn)|
  {
    FoldAllIndex(Signer(h, b), b.Deps(), b.Present(b.tasks[t].dependsOn), n);
  }

  lemma SigAt(h: Hash, b: Build, t: TaskId, n: nat, i: nat)
    requires t in b.tasks && i < |b.Present(b.tasks[t].dependsOn)|
    ensures |DepSigs(h, b, t, n)| == |b.Present(b.tasks[t].dependsOn)|
    ensures DepSigs(h, b, t, n)[i] == Sig(h, b, b.Present(b.tasks[t].dependsOn)[i], n)
  {
    FoldAllIndex(Signer(h, b), b.Deps(), b.Present(b.tasks[t].dependsOn), n);
  }

  /** The dependency that an entry is about. */
  lemma KeyedEntry(h: Hash, b: Build, t: TaskId, n: nat, key: string, sig: string) returns (d: TaskId)
    requires t in b.tasks && (key, sig) in KeyedSigs(h, b, t, n)
    ensures d in b.Present(b.tasks[t].dependsOn) && d in b.tasks && d in Succ(b.Deps(), t)
    ensures key == b.Key(d) && sig == Sig(h, b, d, n)
  {
    DepSigsSize(h, b, t, n);
    var i :| 0 <= i < |DepKeys(b, t)| && DepKeys(b, t)[i] == key && DepSigs(h, b, t, n)[i] == sig;
    SigAt(h, b, t, n, i);
    d := b.Present(b.tasks[t].dependsOn)[i];
  }

  function Swap<A, B>(ps: seq<(A, B)>): (r: seq<(B, A)>)
    ensures Firsts(r) == Seconds(ps) && Seconds(r) == Firsts(ps)
    ensures forall q :: q in r ==> (q.1, q.0) in ps
  {
    seq(|ps|, i requires 0 <= i < |ps| => (ps[i].1, ps[i].0))
  }

  lemma OwnMeansInputs(h: Hash, b: Build, t: TaskId, c: Build, u: TaskId)
    requires t in b.tasks && u in c.tasks && Own(b, t) == Own(c, u)
    ensures b.Inputs(h, t, []) == c.Inputs(h, u, []) && b.Key(t) == c.Key(u)
  {
    HeldAreHashed(b, t);
    HeldAreHashed(c, u);
  }

  /** Equal cones have equal signatures. */
  lemma {:induction false} SameConeSameSig(h: Hash, b: Build, t: TaskId, c: Build, u: TaskId, n: nat)
    requires t in b.tasks && u in c.tasks && SameCone(b, t, c, u, n)
    ensures Sig(h, b, t, n) == Sig(h, c, u, n)
    decreases n
  {
    var ps, qs := KeyedSigs(h, b, t, n - 1), KeyedSigs(h, c, u, n - 1);
    forall p, q | p in ps && q in qs && p.0 == q.0 ensures p.1 == q.1 {
      var d := KeyedEntry(h, b, t, n - 1, p.0, p.1);
      var e := KeyedEntry(h, c, u, n - 1, q.0, q.1);
      SameConeSameSig(h, b, d, c, e, n - 1);
    }
    MatchedPairs(ps, qs);
    OwnMeansInputs(h, b, t, c, u);
    EqualSigs(h, b, t, c, u, n);
  }

  // ---- The arrangement of dependencies ----

  function IdKeys(b: Build, ds: seq<TaskId>): (r: seq<(TaskId, string)>)
    requires forall d :: d in ds ==> d in b.tasks
    ensures Firsts(r) == ds
    ensures forall p :: p in r ==> p.0 in b.tasks && p.1 == b.Key(p.0)
  {
    seq(|ds|, i requires 0 <= i < |ds| => assert ds[i] in ds; (ds[i], b.Key(ds[i])))
  }

  lemma SameDepKeysUpToOrder(b: Build, c: Build, t: TaskId)
    requires SameUpToDepOrder(b, c) && t in b.tasks
    ensures multiset(DepKeys(b, t)) == multiset(DepKeys(c, t))
  {
    var ps, qs := IdKeys(b, b.Present(b.tasks[t].dependsOn)), IdKeys(c, c.Present(c.tasks[t].dependsOn));
    SamePresent(b, c, t);
    assert Matching(ps, qs);
    MatchedPairs(ps, qs);
    assert Seconds(ps) == DepKeys(b, t) && Seconds(qs) == DepKeys(c, t);
  }

  lemma PresentMembers(b: Build, c: Build, t: TaskId, d: TaskId)
    requires SameUpToDepOrder(b, c) && t in b.tasks
    ensures d in b.Present(b.tasks[t].dependsOn) <==> d in c.Present(c.tasks[t].dependsOn)
  {
    SamePresent(b, c, t);
    var ds, es := b.Present(b.tasks[t].dependsOn), c.Present(c.tasks[t].dependsOn);
    assert d in ds <==> d in multiset(ds);
    assert d in es <==> d in multiset(es);
  }

  lemma OwnUpToOrder(b: Build, c: Build, t: TaskId)
    requires SameUpToDepOrder(b, c) && t in b.tasks
    ensures Own(b, t) == Own(c, t) && b.Key(t) == c.Key(t)
  {
  }

  /** Rearranging `depends_on` lists leaves every cone as it is. */
  lemma {:induction false} RearrangedSameCone(b: Build, c: Build, t: TaskId, n: nat)
    requires SameUpToDepOrder(b, c) && b.UniqueKeys() && t in b.tasks && DepthAtMost(b.Deps(), t, n)
    ensures SameCone(b, t, c, t, n)
    decreases n
  {
    OwnUpToOrder(b, c, t);
    SameDepKeysUpToOrder(b, c, t);
    forall d, e | d in b.Present(b.tasks[t].dependsOn) && e in c.Present(c.tasks[t].dependsOn) && b.Key(d) == c.Key(e)
      ensures SameCone(b, d, c, e, n - 1)
    {
      OwnUpToOrder(b, c, e);
      assert d == e;
      DepthOfDep(b, t, d, n);
      RearrangedSameCone(b, c, d, n - 1);
    }
  }

  lemma RearrangedIsDependencyFirst(b: Build, c: Build, order: seq<TaskId>)
    requires SameUpToDepOrder(b, c) && b.UniqueKeys() && DependencyFirst(b, order)
    ensures DependencyFirst(c, order) && c.UniqueKeys()
  {
    forall t | t in b.tasks ensures b.Key(t) == c.Key(t) {
      OwnUpToOrder(b, c, t);
    }
    forall i, d | 0 <= i < |order| && order[i] in c.tasks && d in c.Present(c.tasks[order[i]].dependsOn)
      ensures d in order[..i]
    {
      PresentMembers(b, c, order[i], d);
    }
  }

  lemma RearrangedSameSig(h: Hash, b: Build, c: Build, order: seq<TaskId>, t: TaskId)
    requires SameUpToDepOrder(b, c) && b.UniqueKeys() && DependencyFirst(b, order) && t in b.tasks && t in order
    ensures Sig(h, b, t, |order|) == Sig(h, c, t, |order|) && b.Key(t) == c.Key(t)
  {
    OwnUpToOrder(b, c, t);
    InOrderBoundsDepth(b, order, t);
    RearrangedSameCone(b, c, t, |order|);
    SameConeSameSig(h, b, t, c, t, |order|);
  }

  lemma RearrangedCovers(h: Hash, b: Build, c: Build, order: seq<TaskId>, k: string)
    requires SameUpToDepOrder(b, c) && b.UniqueKeys() && DependencyFirst(b, order)
    requires c.UniqueKeys() && DependencyFirst(c, order) && k in Computed(h, b, order)
    ensures k in Computed(h, c, order) && Computed(h, b, order)[k] == Computed(h, c, order)[k]
  {
    PassComputesSigs(h, b, order);
    var t :| t in b.tasks && t in order && b.Key(t) == k;
    RearrangedSameSig(h, b, c, order, t);
    ComputedIsSig(h, c, order, t, |order|);
  }

  lemma RearrangedBack(b: Build, c: Build)
    requires SameUpToDepOrder(b, c)
    ensures SameUpToDepOrder(c, b)
  {
  }

  /** Rearranging `depends_on` lists leaves every signature as it is. */
  lemma DepOrderDoesNotMatter(h: Hash, b: Build, c: Build, order: seq<TaskId>)
    requires SameUpToDepOrder(b, c) && b.UniqueKeys() && DependencyFirst(b, order)
    ensures Computed(h, b, order) == Computed(h, c, order)
  {
    var one, two := Computed(h, b, order), Computed(h, c, order);
    RearrangedIsDependencyFirst(b, c, order);
    RearrangedBack(b, c);
    forall k | k in one ensures k in two && one[k] == two[k] {
      RearrangedCovers(h, b, c, order, k);
    }
    forall k | k in two ensures k in one {
      RearrangedCovers(h, c, b, order, k);
    }
  }

  // ---- The fields of a task lack the separator ----

  lemma EnvFieldLacks(key: string, value: string)
    requires Lacks(key, '|') && Lacks(value, '|')
    ensures Lacks(EnvField(key, value), '|')
  {
  }

  lemma NamesLack(i: SignatureInputs)
    requires Lacks(i.recipe, '|') && Lacks(i.task, '|')
    ensures forall f :: f in Names(i) ==> Lacks(f, '|')
  {
    EnvFieldLacks("PN", i.recipe);
    EnvFieldLacks("TASK", i.task);
  }

  lemma OverridesLack(i: SignatureInputs)
    requires (i.machine.Some? ==> Lacks(i.machine.value, '|')) && (i.distro.Some? ==> Lacks(i.distro.value, '|'))
    ensures forall f :: f in Overrides(i) ==> Lacks(f, '|')
  {
    if i.machine.Some? { EnvFieldLacks("MACHINE", i.machine.value); }
    if i.distro.Some? { EnvFieldLacks("DISTRO", i.distro.value); }
  }

  lemma SortedMembers(s: seq<string>, f: string)
    ensures f in Sort(s) <==> f in s
  {
    SortIsSorted(s);
    assert f in Sort(s) <==> f in multiset(Sort(s));
    assert f in s <==> f in multiset(s);
  }

  lemma BasicFieldsLack(i: SignatureInputs)
    requires i.envVars == BasicEnv(i.recipe, i.task)
    requires forall f :: f in Head(i) || f in i.depSignatures ==> Lacks(f, '|')
    requires (i.machine.Some? ==> Lacks(i.machine.value, '|')) && (i.distro.Some? ==> Lacks(i.distro.value, '|'))
    ensures forall f :: f in Fields(i) ==> Lacks(f, '|')
  {
    BasicFields(i);
    assert i.recipe in Head(i) && i.task in Head(i);
    NamesLack(i);
    OverridesLack(i);
    forall f | f in Fields(i) ensures Lacks(f, '|') {
      SortedMembers(i.depSignatures, f);
    }
  }

  lemma TaskFieldsLack(h: Hash, b: Build, t: TaskId, sigs: seq<string>)
    requires IdealHash(h) && SeparatorFree(b) && t in b.tasks
    requires forall s :: s in sigs ==> Lacks(s, '|')
    ensures forall f :: f in Fields(b.Inputs(h, t, sigs)) ==> Lacks(f, '|')
  {
    assert Lacks(h(b.Code(t)), '|');
    HeldAreHashed(b, t);
    BasicFieldsLack(b.Inputs(h, t, sigs));
  }

  ghost predicate LookLikeDigests(sigs: seq<string>) {
    forall s :: s in sigs ==> Lacks(s, '|') && Lacks(s, '=')
  }

  lemma SigsLack(h: Hash, b: Build, t: TaskId, n: nat)
    requires IdealHash(h) && t in b.tasks
    ensures LookLikeDigests(DepSigs(h, b, t, n))
  {
    forall s | s in DepSigs(h, b, t, n) ensures Lacks(s, '|') && Lacks(s, '=') {
      var i :| 0 <= i < |DepSigs(h, b, t, n)| && DepSigs(h, b, t, n)[i] == s;
      FoldAllIndex(Signer(h, b), b.Deps(), b.Present(b.tasks[t].dependsOn), n);
      SigIsDigest(h, b, b.Present(b.tasks[t].dependsOn)[i], n);
    }
  }

  lemma SigIsDigest(h: Hash, b: Build, t: TaskId, n: nat)
    requires IdealHash(h) && t in b.tasks
    ensures Lacks(Sig(h, b, t, n), '|') && Lacks(Sig(h, b, t, n), '=')
  {
    var sigs := if n == 0 then [] else FoldAll(Signer(h, b), b.Deps(), Succ(b.Deps(), t), n - 1);
    assert Sig(h, b, t, n) == h(Join(Fields(b.Inputs(h, t, sigs))));
  }

  /** Equal signatures come from equal own inputs and equal dependency signatures. */
  lemma SigDeterminesInputs(h: Hash, b: Build, t: TaskId, c: Build, u: TaskId, n: nat, m: nat)
    requires IdealHash(h) && SeparatorFree(b) && SeparatorFree(c) && t in b.tasks && u in c.tasks && n == m + 1
    requires Sig(h, b, t, n) == Sig(h, c, u, n)
    ensures Own(b, t) == Own(c, u)
    ensures multiset(DepSigs(h, b, t, m)) == multiset(DepSigs(h, c, u, m))
  {
    var sig := Sig(h, b, t, n);
    SigIsHashed(h, b, t, n, m, sig);
    SigIsHashed(h, c, u, n, m, sig);
    InputsFromHash(h, b, t, DepSigs(h, b, t, m), c, u, DepSigs(h, c, u, m), sig);
  }

  /** sig is the hash of t's inputs with these dependency signatures. */
  ghost predicate Signs(h: Hash, b: Build, t: TaskId, sigs: seq<string>, sig: string)
    requires t in b.tasks
  {
    sig == SignatureOf(h, b.Inputs(h, t, sigs))
  }

  lemma SigIsHashed(h: Hash, b: Build, t: TaskId, n: nat, m: nat, sig: string)
    requires IdealHash(h) && t in b.tasks && n == m + 1 && sig == Sig(h, b, t, n)
    ensures Signs(h, b, t, DepSigs(h, b, t, m), sig) && LookLikeDigests(DepSigs(h, b, t, m))
  {
    assert n - 1 == m;
    SigsLack(h, b, t, m);
    SigStep(h, b, t, n);
  }

  lemma InputsFromHash(h: Hash, b: Build, t: TaskId, sigs1: seq<string>, c: Build, u: TaskId, sigs2: seq<string>, sig: string)
    requires IdealHash(h) && SeparatorFree(b) && SeparatorFree(c) && t in b.tasks && u in c.tasks
    requires LookLikeDigests(sigs1) && LookLikeDigests(sigs2)
    requires Signs(h, b, t, sigs1, sig) && Signs(h, c, u, sigs2, sig)
    ensures Own(b, t) == Own(c, u) && multiset(sigs1) == multiset(sigs2)
  {
    var i, j := b.Inputs(h, t, sigs1), c.Inputs(h, u, sigs2);
    TaskFieldsLack(h, b, t, sigs1);
    TaskFieldsLack(h, c, u, sigs2);
    JoinInjective(Fields(i), Fields(j));
    FieldsDetermineInputs(i, j);
    assert Head(i)[0] == Head(j)[0] && Head(i)[1] == Head(j)[1] && Head(i)[2] == Head(j)[2] && Head(i)[3] == Head(j)[3];
    HeldAreHashed(b, t);
    HeldAreHashed(c, u);
  }

  /** Equal signatures have equal cones. */
  lemma {:induction false} SameSigSameCone(h: Hash, b: Build, t: TaskId, c: Build, u: TaskId, n: nat)
    requires IdealHash(h) && SeparatorFree(b) && SeparatorFree(c) && c.UniqueKeys()
    requires t in b.tasks && u in c.tasks
    requires DepthAtMost(b.Deps(), t, n) && DepthAtMost(c.Deps(), u, n)
    requires Sig(h, b, t, n) == Sig(h, c, u, n)
    ensures SameCone(b, t, c, u, n)
    decreases n, 0
  {
    SigDeterminesInputs(h, b, t, c, u, n, n - 1);
    SigsMatchKeys(h, b, t, c, u, n - 1);
    MatchedPairs(Swap(KeyedSigs(h, b, t, n - 1)), Swap(KeyedSigs(h, c, u, n - 1)));
    forall d, e | d in b.Present(b.tasks[t].dependsOn) && e in c.Present(c.tasks[u].dependsOn) && b.Key(d) == c.Key(e)
      ensures SameCone(b, d, c, e, n - 1)
    {
      var e' := SigPartner(h, b, t, d, c, u, n - 1);
      assert DepthAtMost(b.Deps(), d, n - 1) && DepthAtMost(c.Deps(), e', n - 1);
      SameSigSameCone(h, b, d, c, e', n - 1);
      OwnMeansInputs(h, b, d, c, e');
    }
  }

  lemma {:induction false} SigsMatchKeys(h: Hash, b: Build, t: TaskId, c: Build, u: TaskId, n: nat)
    requires IdealHash(h) && SeparatorFree(b) && SeparatorFree(c) && c.UniqueKeys()
    requires t in b.tasks && u in c.tasks
    requires forall d :: d in Succ(b.Deps(), t) ==> DepthAtMost(b.Deps(), d, n)
    requires forall e :: e in Succ(c.Deps(), u) ==> DepthAtMost(c.Deps(), e, n)
    ensures Matching(Swap(KeyedSigs(h, b, t, n)), Swap(KeyedSigs(h, c, u, n)))
    decreases n, 2
  {
    var ps, qs := Swap(KeyedSigs(h, b, t, n)), Swap(KeyedSigs(h, c, u, n));
    forall p, q | p in ps && q in qs && p.0 == q.0 ensures p.1 == q.1 {
      assert (p.1, p.0) in KeyedSigs(h, b, t, n) && (q.1, q.0) in KeyedSigs(h, c, u, n);
      SigMatchesKey(h, b, t, c, u, n, p.1, q.1, p.0);
    }
  }

  lemma {:induction false} SigMatchesKey(h: Hash, b: Build, t: TaskId, c: Build, u: TaskId, n: nat,
                                         key1: string, key2: string, sig: string)
    requires IdealHash(h) && SeparatorFree(b) && SeparatorFree(c) && c.UniqueKeys()
    requires t in b.tasks && u in c.tasks
    requires forall d :: d in Succ(b.Deps(), t) ==> DepthAtMost(b.Deps(), d, n)
    requires forall e :: e in Succ(c.Deps(), u) ==> DepthAtMost(c.Deps(), e, n)
    requires (key1, sig) in KeyedSigs(h, b, t, n) && (key2, sig) in KeyedSigs(h, c, u, n)
    ensures key1 == key2
    decreases n, 1
  {
    var d := KeyedEntry(h, b, t, n, key1, sig);
    var e := KeyedEntry(h, c, u, n, key2, sig);
    SameSigSameCone(h, b, d, c, e, n);
    OwnMeansInputs(h, b, d, c, e);
  }

  /** A dependency of u with the same signature as the dependency d of t. */
  lemma SigPartner(h: Hash, b: Build, t: TaskId, d: TaskId, c: Build, u: TaskId, n: nat) returns (e: TaskId)
    requires t in b.tasks && u in c.tasks && d in b.Present(b.tasks[t].dependsOn)
    requires multiset(DepSigs(h, b, t, n)) == multiset(DepSigs(h, c, u, n))
    ensures e in c.Present(c.tasks[u].dependsOn) && Sig(h, b, d, n) == Sig(h, c, e, n)
  {
    var i :| 0 <= i < |b.Present(b.tasks[t].dependsOn)| && b.Present(b.tasks[t].dependsOn)[i] == d;
    SigAt(h, b, t, n, i);
    var sigs1, sigs2 := DepSigs(h, b, t, n), DepSigs(h, c, u, n);
    assert sigs1[i] in multiset(sigs1);
    assert sigs1[i] in sigs2;
    var j :| 0 <= j < |sigs2| && sigs2[j] == sigs1[i];
    DepSigsSize(h, c, u, n);
    SigAt(h, c, u, n, j);
    e := c.Present(c.tasks[u].dependsOn)[j];
  }

  // ---- Keys ----

  /** The text under which a task's signature is looked up. */
  function LookupKey(task: ExecutableTask): string {
    task.recipeName + ":" + task.taskName
  }

  predicate SameNames(one: ExecutableTask, two: ExecutableTask) {
    one.recipeName == two.recipeName && one.taskName == two.taskName
  }

  /** No two tasks have the same recipe and the same name, and recipe names have no colon. */
  ghost predicate DistinctNames(b: Build) {
    && (forall t :: t in b.tasks ==> Lacks(b.tasks[t].recipeName, ':'))
    && (forall t, u :: t in b.tasks && u in b.tasks && SameNames(b.tasks[t], b.tasks[u]) ==> t == u)
  }

  /** The signature that the pass stores for t is sig. */
  ghost predicate Stored(h: Hash, b: Build, order: seq<TaskId>, t: TaskId, sig: string)
    requires t in b.tasks
  {
    LookupKey(b.tasks[t]) in Computed(h, b, order) && Computed(h, b, order)[LookupKey(b.tasks[t])] == sig
  }

  lemma StoredIsSig(h: Hash, b: Build, order: seq<TaskId>, t: TaskId, n: nat)
    requires DistinctNames(b) && DependencyFirst(b, order) && t in order && t in b.tasks && |order| <= n
    ensures Stored(h, b, order, t, Sig(h, b, t, n)) && DepthAtMost(b.Deps(), t, n)
  {
    NamesMakeKeys(b);
    ComputedIsSig(h, b, order, t, n);
    assert b.Key(t) == LookupKey(b.tasks[t]);
  }

  lemma SplitAtColon(a: string, x: string, b: string, y: string)
    requires Lacks(a, ':') && Lacks(b, ':') && a + ":" + x == b + ":" + y
    ensures a == b && x == y
  {
    var whole := a + ":" + x;
    assert whole == b + ":" + y && whole[|a|] == ':' && whole[|b|] == ':';
    assert forall i :: 0 <= i < |a| ==> whole[i] == a[i] && a[i] in a;
    assert forall i :: 0 <= i < |b| ==> whole[i] == b[i] && b[i] in b;
    assert |a| == |b| && a == whole[..|a|] && b == whole[..|b|];
    assert x == whole[|a| + 1..] && y == whole[|b| + 1..];
  }

  /** Tasks with different names are stored under different keys. */
  lemma NamesMakeKeys(b: Build)
    requires DistinctNames(b)
    ensures b.UniqueKeys()
  {
    forall t, u | t in b.tasks && u in b.tasks && b.Key(t) == b.Key(u) ensures t == u {
      SplitAtColon(b.tasks[t].recipeName, b.tasks[t].taskName, b.tasks[u].recipeName, b.tasks[u].taskName);
    }
  }

  /** Without the condition on colons two tasks can share a key. */
  lemma ColonsMakeKeysCollide(x: string, y: string, z: string)
    ensures var one, two := RecipeGraph.TaskId(0), RecipeGraph.TaskId(1);
            var b := Build(map[one := ExecutableTask(one, x + ":" + y, z, []), two := ExecutableTask(two, x, y + ":" + z, [])],
                           map[], map[], None, None);
            !b.UniqueKeys()
  {
    var one, two := RecipeGraph.TaskId(0), RecipeGraph.TaskId(1);
    var b := Build(map[one := ExecutableTask(one, x + ":" + y, z, []), two := ExecutableTask(two, x, y + ":" + z, [])],
                   map[], map[], None, None);
    assert x + ":" + y + ":" + z == x + ":" + (y + ":" + z);
    assert b.Key(one) == b.Key(two);
  }

  // ---- What a signature tells ----

  /** Signatures agree exactly when cones do. */
  lemma SigsTrackCones(h: Hash, b: Build, t: TaskId, c: Build, u: TaskId, n: nat)
    requires IdealHash(h) && SeparatorFree(b) && SeparatorFree(c) && c.UniqueKeys()
    requires t in b.tasks && u in c.tasks && DepthAtMost(b.Deps(), t, n) && DepthAtMost(c.Deps(), u, n)
    ensures Sig(h, b, t, n) == Sig(h, c, u, n) <==> SameCone(b, t, c, u, n)
  {
    if SameCone(b, t, c, u, n) {
      SameConeSameSig(h, b, t, c, u, n);
    } else if Sig(h, b, t, n) == Sig(h, c, u, n) {
      SameSigSameCone(h, b, t, c, u, n);
    }
  }

  /** Two builds compute the same signature for a task exactly when every input in its cone of
      transitive dependencies is the same. */
  lemma SignaturesTrackCones(h: Hash, b: Build, order1: seq<TaskId>, t: TaskId,
                             c: Build, order2: seq<TaskId>, u: TaskId)
    requires IdealHash(h) && SeparatorFree(b) && SeparatorFree(c) && DistinctNames(b) && DistinctNames(c)
    requires DependencyFirst(b, order1) && t in order1 && t in b.tasks
    requires DependencyFirst(c, order2) && u in order2 && u in c.tasks
    ensures exists one, two ::
              && Stored(h, b, order1, t, one) && Stored(h, c, order2, u, two)
              && (one == two <==> SameCone(b, t, c, u, Max(|order1|, |order2|)))
  {
    var n := Max(|order1|, |order2|);
    StoredIsSig(h, b, order1, t, n);
    StoredIsSig(h, c, order2, u, n);
    NamesMakeKeys(c);
    SigsTrackCones(h, b, t, c, u, n);
  }

  lemma SameDepKeys(b: Build, c: Build, t: TaskId)
    requires c.tasks == b.tasks && t in b.tasks
    ensures DepKeys(b, t) == DepKeys(c, t) && b.Present(b.tasks[t].dependsOn) == c.Present(b.tasks[t].dependsOn)
  {
    SamePresentDeps(b, c, b.tasks[t].dependsOn);
  }

  /** In one task graph, the cones of a task agree exactly when no reachable task has other inputs. */
  lemma {:induction false} SameConeSameInputs(b: Build, c: Build, t: TaskId, n: nat, u: TaskId)
    requires c.tasks == b.tasks && t in b.tasks && SameCone(b, t, c, t, n)
    requires u in b.tasks && Reaches(b.Deps(), t, u)
    ensures Own(b, u) == Own(c, u)
    decreases n
  {
    if u != t {
      var d := ReachesFirstStep(b.Deps(), t, u);
      SameDepKeys(b, c, t);
      assert d in b.Present(b.tasks[t].dependsOn);
      SameConeSameInputs(b, c, d, n - 1, u);
    }
  }

  lemma {:induction false} SameInputsSameCone(b: Build, c: Build, t: TaskId, n: nat)
    requires c.tasks == b.tasks && b.UniqueKeys() && t in b.tasks && DepthAtMost(b.Deps(), t, n)
    requires forall u :: u in b.tasks && Reaches(b.Deps(), t, u) ==> Own(b, u) == Own(c, u)
    ensures SameCone(b, t, c, t, n)
    decreases n
  {
    SameDepKeys(b, c, t);
    ReachesSelf(b.Deps(), t);
    forall d | d in b.Present(b.tasks[t].dependsOn) ensures SameCone(b, d, c, d, n - 1) {
      DepthOfDep(b, t, d, n);
      EdgeReaches(b.Deps(), t, d);
      forall u | u in b.tasks && Reaches(b.Deps(), d, u) ensures Own(b, u) == Own(c, u) {
        ReachesTransitive(b.Deps(), t, d, u);
      }
      SameInputsSameCone(b, c, d, n - 1);
    }
    forall d, e | d in b.Present(b.tasks[t].dependsOn) && e in c.Present(c.tasks[t].dependsOn) && b.Key(d) == c.Key(e)
      ensures SameCone(b, d, c, e, n - 1)
    {
      assert e in b.tasks && c.Key(e) == b.Key(e) && d == e;
    }
  }

  lemma {:induction false} SamePresentDeps(b: Build, c: Build, ds: seq<TaskId>)
    requires c.tasks == b.tasks
    ensures b.Present(ds) == c.Present(ds)
    decreases |ds|
  {
    if ds != [] { SamePresentDeps(b, c, ds[..|ds| - 1]); }
  }

  lemma SameOrderForBoth(b: Build, c: Build, order: seq<TaskId>)
    requires DistinctNames(b) && c.tasks == b.tasks && DependencyFirst(b, order)
    ensures DependencyFirst(c, order) && DistinctNames(c)
  {
    forall i, d | 0 <= i < |order| && order[i] in c.tasks && d in c.Present(c.tasks[order[i]].dependsOn)
      ensures d in order[..i]
    {
      assert d in b.Present(b.tasks[order[i]].dependsOn);
    }
  }

  /** Both passes store a signature for t, and they differ. */
  ghost predicate Differs(h: Hash, b: Build, c: Build, order: seq<TaskId>, t: TaskId)
    requires t in b.tasks && c.tasks == b.tasks
  {
    exists one, two :: Stored(h, b, order, t, one) && Stored(h, c, order, t, two) && one != two
  }

  /** Both passes store the same signature for t. */
  ghost predicate Kept(h: Hash, b: Build, c: Build, order: seq<TaskId>, t: TaskId)
    requires t in b.tasks && c.tasks == b.tasks
  {
    exists one :: Stored(h, b, order, t, one) && Stored(h, c, order, t, one)
  }

  /** A change of inputs reaches the signature of every task that depends on it, directly or not,
      and no other signature. */
  lemma ChangeReachesExactlyDependents(h: Hash, b: Build, c: Build, order: seq<TaskId>, t: TaskId)
    requires IdealHash(h) && SeparatorFree(b) && SeparatorFree(c) && DistinctNames(b) && c.tasks == b.tasks
    requires DependencyFirst(b, order) && t in order && t in b.tasks
    ensures Differs(h, b, c, order, t) || Kept(h, b, c, order, t)
    ensures Differs(h, b, c, order, t)
            <==> exists u :: u in b.tasks && Reaches(b.Deps(), t, u) && Own(b, u) != Own(c, u)
  {
    var n := |order|;
    SameOrderForBoth(b, c, order);
    StoredIsSig(h, b, order, t, n);
    StoredIsSig(h, c, order, t, n);
    SigsTrackTheCone(h, b, c, t, n);
  }

  lemma SigsTrackTheCone(h: Hash, b: Build, c: Build, t: TaskId, n: nat)
    requires IdealHash(h) && SeparatorFree(b) && SeparatorFree(c) && DistinctNames(b) && c.tasks == b.tasks
    requires t in b.tasks && DepthAtMost(b.Deps(), t, n) && DepthAtMost(c.Deps(), t, n)
    ensures Sig(h, b, t, n) != Sig(h, c, t, n)
            <==> exists u :: u in b.tasks && Reaches(b.Deps(), t, u) && Own(b, u) != Own(c, u)
  {
    NamesMakeKeys(b);
    NamesMakeKeys(c);
    SigsTrackCones(h, b, t, c, t, n);
    if SameCone(b, t, c, t, n) {
      forall u | u in b.tasks && Reaches(b.Deps(), t, u) ensures Own(b, u) == Own(c, u) {
        SameConeSameInputs(b, c, t, n, u);
      }
    } else if forall u :: u in b.tasks && Reaches(b.Deps(), t, u) ==> Own(b, u) == Own(c, u) {
      SameInputsSameCone(b, c, t, n);
    }
  }

  /** b with another code for one task. */
  function WithCode(b: Build, recipe: string, task: string, code: string): Build {
    b.(taskImpls := b.taskImpls[recipe := Entry(b.taskImpls, recipe, map[])[task := code]])
  }

  /** b with another content hash for one recipe. */
  function WithRecipeHash(b: Build, recipe: string, hash: string): Build {
    b.(recipeHashes := b.recipeHashes[recipe := hash])
  }

  lemma OwnWithCode(b: Build, recipe: string, task: string, code: string, u: TaskId)
    requires u in b.tasks && code != HeldCode(b, recipe, task)
    ensures Own(b, u) != Own(WithCode(b, recipe, task, code), u)
            <==> b.tasks[u].recipeName == recipe && b.tasks[u].taskName == task
  {
  }

  lemma OwnWithRecipeHash(b: Build, recipe: string, hash: string, u: TaskId)
    requires u in b.tasks && hash != HeldHash(b, recipe)
    ensures Own(b, u) != Own(WithRecipeHash(b, recipe, hash), u) <==> b.tasks[u].recipeName == recipe
  {
  }

  /** Another code for one task changes the signatures of the tasks that are it or reach it, and no others. */
  lemma CodeChangeReachesExactlyDependents(h: Hash, b: Build, recipe: string, task: string, code: string,
                                           order: seq<TaskId>, t: TaskId)
    requires IdealHash(h) && SeparatorFree(b) && DistinctNames(b)
    requires DependencyFirst(b, order) && t in order && t in b.tasks
    requires code != HeldCode(b, recipe, task)
    ensures Differs(h, b, WithCode(b, recipe, task, code), order, t)
            <==> exists u :: && u in b.tasks && Reaches(b.Deps(), t, u)
                             && b.tasks[u].recipeName == recipe && b.tasks[u].taskName == task
  {
    var c := WithCode(b, recipe, task, code);
    ChangeReachesExactlyDependents(h, b, c, order, t);
    forall u | u in b.tasks
      ensures Own(b, u) != Own(c, u) <==> b.tasks[u].recipeName == recipe && b.tasks[u].taskName == task
    {
      OwnWithCode(b, recipe, task, code, u);
    }
  }

  /** Another content hash for one recipe changes the signatures of the tasks that reach a task of
      that recipe, and no others. */
  lemma RecipeChangeReachesExactlyDependents(h: Hash, b: Build, recipe: string, hash: string,
                                             order: seq<TaskId>, t: TaskId)
    requires IdealHash(h) && SeparatorFree(b) && DistinctNames(b) && Lacks(hash, '|')
    requires DependencyFirst(b, order) && t in order && t in b.tasks
    requires hash != HeldHash(b, recipe)
    ensures Differs(h, b, WithRecipeHash(b, recipe, hash), order, t)
            <==> exists u :: u in b.tasks && Reaches(b.Deps(), t, u) && b.tasks[u].recipeName == recipe
  {
    var c := WithRecipeHash(b, recipe, hash);
    ChangeReachesExactlyDependents(h, b, c, order, t);
    forall u | u in b.tasks ensures Own(b, u) != Own(c, u) <==> b.tasks[u].recipeName == recipe {
      OwnWithRecipeHash(b, recipe, hash, u);
    }
  }
}
