/** Task signatures: one pass over the execution order hashes every task's own inputs together with
    the signatures of its dependencies. */
module SignatureCache {
  import opened Wrappers
  import opened Digraph
  import opened StringOrder
  import RecipeGraph

  type TaskId = RecipeGraph.TaskId

  /** The hash, from the bytes fed to it to its hexadecimal digest. */
  type Hash = string -> string

  /** What is assumed of the hash: no collisions, and digests without separator or equals sign. */
  ghost predicate IdealHash(h: Hash) {
    && (forall x, y :: h(x) == h(y) ==> x == y)
    && (forall x :: Lacks(h(x), '|') && Lacks(h(x), '='))
  }

  /** A text in which `|`, `=` and the escape character are spelled with two characters. */
  function Escaped(s: string): string {
    if s == "" then ""
    else (if s[0] == '|' then "~p" else if s[0] == '=' then "~e" else if s[0] == '~' then "~t" else [s[0]])
         + Escaped(s[1..])
  }

  lemma {:induction false} EscapedLacks(s: string)
    ensures Lacks(Escaped(s), '|') && Lacks(Escaped(s), '=')
  {
    if s != "" {
      EscapedLacks(s[1..]);
    }
  }

  lemma {:induction false} EscapedInjective(s: string, t: string)
    requires Escaped(s) == Escaped(t)
    ensures s == t
  {
    if s != "" && t != "" {
      var m, n := if s[0] in "|=~" then 2 else 1, if t[0] in "|=~" then 2 else 1;
      assert Escaped(s)[0] == Escaped(t)[0] && (m == 2 ==> Escaped(s)[1] == Escaped(t)[1]);
      assert Escaped(s)[m..] == Escaped(s[1..]) && Escaped(t)[n..] == Escaped(t[1..]);
      EscapedInjective(s[1..], t[1..]);
      assert s == [s[0]] + s[1..] && t == [t[0]] + t[1..];
    }
  }

  /** The two assumptions do not contradict each other. */
  lemma IdealHashExists()
    ensures exists h: Hash :: IdealHash(h)
  {
    var h: Hash := (x: string) => Escaped(x);
    forall x, y | h(x) == h(y) ensures x == y {
      EscapedInjective(x, y);
    }
    forall x ensures Lacks(h(x), '|') && Lacks(h(x), '=') {
      EscapedLacks(x);
    }
    assert IdealHash(h);
  }

  // ---- One signature ----

  /** Everything that goes into a signature. */
  datatype SignatureInputs = SignatureInputs(recipe: string, task: string, recipeHash: string, taskCodeHash: string,
                                             depSignatures: seq<string>, envVars: map<string, string>,
                                             machine: Option<string>, distro: Option<string>)

  datatype TaskSignature = TaskSignature(inputs: SignatureInputs, signature: Option<string>)

  ghost predicate IsLeast(x: string, keys: set<string>) {
    x in keys && forall y :: y in keys ==> AtMost(x, y)
  }

  lemma {:induction false} LeastExists(keys: set<string>)
    requires keys != {}
    ensures exists x :: IsLeast(x, keys)
    decreases keys
  {
    var k :| k in keys;
    var rest := keys - {k};
    AtMostTotal(k, k);
    if rest == {} {
      assert keys == {k};
      assert IsLeast(k, keys);
    } else {
      LeastExists(rest);
      var m :| IsLeast(m, rest);
      AtMostTotal(k, m);
      var least := if AtMost(k, m) then k else m;
      forall y | y in keys ensures AtMost(least, y) {
        if y != k {
          assert y in rest;
          AtMostTransitive(least, m, y);
        }
      }
      assert IsLeast(least, keys);
    }
  }

  ghost function Least(keys: set<string>): (x: string)
    requires keys != {}
    ensures IsLeast(x, keys)
  {
    LeastExists(keys);
    var x :| IsLeast(x, keys);
    x
  }

  ghost function SortedKeys(keys: set<string>): seq<string> {
    if keys == {} then [] else [Least(keys)] + SortedKeys(keys - {Least(keys)})
  }

  lemma FirstIsLeast(s: seq<string>, keys: set<string>)
    requires Sorted(s) && s != [] && Elems(s) == keys
    ensures keys != {} && Least(keys) == s[0]
  {
    assert s[0] in Elems(s);
    var x := Least(keys);
    assert x in Elems(s);
    AtMostTotal(x, s[0]);
  }

  lemma {:induction false} SortedKeysUnique(s: seq<string>, keys: set<string>)
    requires Sorted(s) && NoDup(s) && Elems(s) == keys
    ensures s == SortedKeys(keys)
    decreases |s|
  {
    if s != [] {
      FirstIsLeast(s, keys);
      TailElems(s);
      SortedKeysUnique(s[1..], keys - {s[0]});
    }
  }

  lemma TailElems(s: seq<string>)
    requires NoDup(s) && s != []
    ensures Elems(s[1..]) == Elems(s) - {s[0]}
  {
    assert s == [s[0]] + s[1..];
  }

  function EnvField(key: string, value: string): string {
    key + "=" + value
  }

  function EnvFields(keys: seq<string>, env: map<string, string>): seq<string>
    requires Elems(keys) <= env.Keys
  {
    seq(|keys|, i requires 0 <= i < |keys| => assert keys[i] in Elems(keys); EnvField(keys[i], env[keys[i]]))
  }

  function OptionalField(key: string, value: Option<string>): seq<string> {
    if value.Some? then [EnvField(key, value.value)] else []
  }

  lemma {:induction false} SortedKeysElems(keys: set<string>)
    ensures Elems(SortedKeys(keys)) == keys
    decreases keys
  {
    if keys != {} {
      var rest := keys - {Least(keys)};
      SortedKeysElems(rest);
      forall y ensures y in SortedKeys(keys) <==> y in keys {
        assert y in SortedKeys(rest) <==> y in Elems(SortedKeys(rest));
      }
    }
  }

  /** The fields in the order in which they are fed to the hash. */
  ghost function Fields(i: SignatureInputs): seq<string> {
    SortedKeysElems(i.envVars.Keys);
    [i.recipe, i.task, i.recipeHash, i.taskCodeHash]
    + Sort(i.depSignatures)
    + EnvFields(SortedKeys(i.envVars.Keys), i.envVars)
    + OptionalField("MACHINE", i.machine)
    + OptionalField("DISTRO", i.distro)
  }

  lemma FieldsInOrder(i: SignatureInputs, fed: seq<string>)
    requires Elems(SortedKeys(i.envVars.Keys)) == i.envVars.Keys
    requires fed == [] + [i.recipe, i.task, i.recipeHash, i.taskCodeHash] + Sort(i.depSignatures)
                    + EnvFields(SortedKeys(i.envVars.Keys), i.envVars)
                    + OptionalField("MACHINE", i.machine) + OptionalField("DISTRO", i.distro)
    ensures fed == Fields(i)
  {
    assert [] + [i.recipe, i.task, i.recipeHash, i.taskCodeHash] == [i.recipe, i.task, i.recipeHash, i.taskCodeHash];
  }

  class EnhancedTaskSignature {
    const hash: Hash
    const inputs: SignatureInputs
    var signature: Option<string>

    constructor (hash: Hash, recipe: string, task: string, recipeHash: string, taskCode: string,
                 depSignatures: seq<string>, envVars: map<string, string>,
                 machine: Option<string>, distro: Option<string>)
      ensures this.hash == hash && signature == None
      ensures inputs == SignatureInputs(recipe, task, recipeHash, hash(taskCode), depSignatures, envVars, machine, distro)
    {
      this.hash := hash;
      inputs := SignatureInputs(recipe, task, recipeHash, hash(taskCode), depSignatures, envVars, machine, distro);
      signature := None;
    }

    method Compute() returns (result: string)
      modifies this
      ensures result == hash(Join(Fields(inputs))) && signature == Some(result)
    {
      var hasher;
      ghost var fed;
      hasher, fed := FeedAll("", [], [inputs.recipe, inputs.task, inputs.recipeHash, inputs.taskCodeHash]);
      hasher, fed := FeedAll(hasher, fed, Sort(inputs.depSignatures));
      var envKeys := SortKeys(inputs.envVars.Keys);
      hasher, fed := FeedAll(hasher, fed, EnvFields(envKeys, inputs.envVars));
      hasher, fed := FeedAll(hasher, fed, OptionalField("MACHINE", inputs.machine));
      hasher, fed := FeedAll(hasher, fed, OptionalField("DISTRO", inputs.distro));
      FieldsInOrder(inputs, fed);
      result := hash(hasher);
      signature := Some(result);
    }

    method GetSignature() returns (result: string)
      modifies this
      ensures old(signature).Some? ==> result == old(signature).value
      ensures old(signature).None? ==> result == hash(Join(Fields(inputs)))
      ensures signature == Some(result)
    {
      if signature.None? {
        result := Compute();
      } else {
        result := signature.value;
      }
    }
  }

  /** Feeding one more field and a separator. */
  method Feed(hasher0: string, ghost fed0: seq<string>, field: string) returns (hasher: string, ghost fed: seq<string>)
    requires hasher0 == Join(fed0)
    ensures fed == fed0 + [field] && hasher == Join(fed)
  {
    JoinAppend(fed0, field);
    hasher := hasher0 + field;
    hasher := hasher + "|";
    fed := fed0 + [field];
  }

  lemma OneMoreField(fed: seq<string>, fields: seq<string>, i: nat, next: nat)
    requires i < |fields| && next == i + 1
    ensures fed + fields[..next] == fed + fields[..i] + [fields[i]]
  {
    assert fields[..next] == fields[..i] + [fields[i]];
  }

  method FeedAll(hasher0: string, ghost fed0: seq<string>, fields: seq<string>)
    returns (hasher: string, ghost fed: seq<string>)
    requires hasher0 == Join(fed0)
    ensures fed == fed0 + fields && hasher == Join(fed)
  {
    hasher, fed := hasher0, fed0;
    for i := 0 to |fields|
      invariant fed == fed0 + fields[..i] && hasher == Join(fed)
    {
      OneMoreField(fed0, fields, i, i + 1);
      hasher, fed := Feed(hasher, fed, fields[i]);
    }
    assert fields[..|fields|] == fields;
  }

  /** The keys of a hash map, collected in some order and then sorted. */
  method SortKeys(keys: set<string>) returns (sorted: seq<string>)
    ensures sorted == SortedKeys(keys) && Elems(sorted) == keys
  {
    var collected: seq<string> := [];
    var rest := keys;
    while rest != {}
      invariant rest <= keys && Elems(collected) == keys - rest && NoDup(collected)
      decreases rest
    {
      var k :| k in rest;
      assert k !in Elems(collected);
      assert Elems(collected + [k]) == Elems(collected) + {k};
      collected := collected + [k];
      rest := rest - {k};
    }
    sorted := Sort(collected);
    SortIsSorted(collected);
    SortKeepsDistinct(collected);
    SortedKeysUnique(sorted, keys);
  }

  lemma SortKeepsDistinct(s: seq<string>)
    requires NoDup(s)
    ensures NoDup(Sort(s)) && Elems(Sort(s)) == Elems(s)
  {
    SortIsSorted(s);
    forall x ensures x in Sort(s) <==> x in s {
      assert x in multiset(Sort(s)) <==> x in multiset(s);
    }
    var t := Sort(s);
    forall i, j | 0 <= i < j < |t| ensures t[i] != t[j] {
      if t[i] == t[j] {
        CountTwice(t, i, j);
        assert t[i] in s;
        CountOnce(s, t[i]);
      }
    }
  }

  lemma CountTwice(s: seq<string>, i: nat, j: nat)
    requires i < j < |s| && s[i] == s[j]
    ensures multiset(s)[s[i]] >= 2
  {
    assert s == s[..i] + [s[i]] + s[i + 1..j] + [s[j]] + s[j + 1..];
  }

  lemma {:induction false} CountOnce(s: seq<string>, x: string)
    requires NoDup(s)
    ensures multiset(s)[x] <= 1
  {
    if s != [] {
      assert s == [s[0]] + s[1..];
      CountOnce(s[1..], x);
      assert s[0] !in s[1..];
    }
  }

  // ---- The task graph ----

  datatype ExecutableTask = ExecutableTask(taskId: TaskId, recipeName: string, taskName: string, dependsOn: seq<TaskId>)

  /** All inputs of one build: the tasks, the recipes' content hashes, the code of the tasks. */
  datatype Build = Build(tasks: map<TaskId, ExecutableTask>, recipeHashes: map<string, string>,
                         taskImpls: map<string, map<string, string>>, machine: Option<string>, distro: Option<string>)
  {
    function Key(t: TaskId): string
      requires t in tasks
    {
      tasks[t].recipeName + ":" + tasks[t].taskName
    }

    function RecipeHash(t: TaskId): string
      requires t in tasks
    {
      if tasks[t].recipeName in recipeHashes then recipeHashes[tasks[t].recipeName] else "unknown"
    }

    function Code(t: TaskId): string
      requires t in tasks
    {
      var task := tasks[t];
      if task.recipeName in taskImpls && task.taskName in taskImpls[task.recipeName]
      then taskImpls[task.recipeName][task.taskName] else ""
    }

    function Inputs(h: Hash, t: TaskId, depSignatures: seq<string>): SignatureInputs
      requires t in tasks
    {
      var task := tasks[t];
      SignatureInputs(task.recipeName, task.taskName, RecipeHash(t), h(Code(t)), depSignatures,
                      BasicEnv(task.recipeName, task.taskName), machine, distro)
    }

    /** The dependencies that are tasks of the graph; others are passed over. */
    function Present(ds: seq<TaskId>): (r: seq<TaskId>)
      ensures forall d :: d in r <==> d in ds && d in tasks
    {
      if ds == [] then []
      else
        var front := Present(ds[..|ds| - 1]);
        var last := ds[|ds| - 1];
        assert ds == ds[..|ds| - 1] + [last];
        if last in tasks then front + [last] else front
    }

    function Deps(): map<TaskId, seq<TaskId>> {
      map t | t in tasks :: Present(tasks[t].dependsOn)
    }

    ghost predicate UniqueKeys() {
      forall t, u :: t in tasks && u in tasks && Key(t) == Key(u) ==> t == u
    }
  }

  function BasicEnv(recipe: string, task: string): map<string, string> {
    map["PN" := recipe, "TASK" := task]
  }

  ghost function SignatureOf(h: Hash, i: SignatureInputs): string {
    h(Join(Fields(i)))
  }

  // ---- The pass over the execution order ----

  /** The signatures found so far for the given dependencies. */
  function Collected(b: Build, computed: map<string, string>, ds: seq<TaskId>): seq<string> {
    if ds == [] then []
    else
      var front := Collected(b, computed, ds[..|ds| - 1]);
      var last := ds[|ds| - 1];
      if last in b.tasks && b.Key(last) in computed then front + [computed[b.Key(last)]] else front
  }

  /** The signatures after the pass has gone through `order`. */
  ghost function Computed(h: Hash, b: Build, order: seq<TaskId>): map<string, string> {
    if order == [] then map[]
    else
      var before := Computed(h, b, order[..|order| - 1]);
      var t := order[|order| - 1];
      if t in b.tasks
      then before[b.Key(t) := SignatureOf(h, b.Inputs(h, t, Collected(b, before, b.tasks[t].dependsOn)))]
      else before
  }

  class SignatureCache {
    const hash: Hash
    var signatures: map<string, TaskSignature>

    constructor (hash: Hash)
      ensures this.hash == hash && signatures == map[]
    {
      this.hash := hash;
      signatures := map[];
    }

    /** Every task of the pass is stored under its key with its computed signature; entries of
        earlier passes under other keys stay. */
    method ComputeSignatures(b: Build, order: seq<TaskId>)
      modifies this
      ensures signatures.Keys == old(signatures).Keys + Computed(hash, b, order).Keys
      ensures forall k :: k in Computed(hash, b, order) ==>
                            signatures[k].signature == Some(Computed(hash, b, order)[k])
      ensures forall k :: k in old(signatures) && k !in Computed(hash, b, order) ==> signatures[k] == old(signatures)[k]
    {
      var computed: map<string, string> := map[];
      for i := 0 to |order|
        invariant computed == Computed(hash, b, order[..i])
        invariant signatures.Keys == old(signatures).Keys + computed.Keys
        invariant forall k :: k in computed ==> signatures[k].signature == Some(computed[k])
        invariant forall k :: k in old(signatures) && k !in computed ==> signatures[k] == old(signatures)[k]
      {
        assert order[..i + 1][..i] == order[..i];
        if order[i] in b.tasks {
          var signature := SignTask(b, order[i], computed);
          computed := computed[b.Key(order[i]) := signature];
        }
      }
      assert order[..|order|] == order;
    }

    method SignTask(b: Build, t: TaskId, computed: map<string, string>) returns (signature: string)
      requires t in b.tasks
      modifies this
      ensures signature == SignatureOf(hash, b.Inputs(hash, t, Collected(b, computed, b.tasks[t].dependsOn)))
      ensures signatures == old(signatures)[b.Key(t) :=
                TaskSignature(b.Inputs(hash, t, Collected(b, computed, b.tasks[t].dependsOn)), Some(signature))]
    {
      var task := b.tasks[t];
      var depSigs := CollectDepSignatures(b, computed, task.dependsOn);
      var env := map["PN" := task.recipeName, "TASK" := task.taskName];
      var sig := new EnhancedTaskSignature(hash, task.recipeName, task.taskName, b.RecipeHash(t), b.Code(t),
                                           depSigs, env, b.machine, b.distro);
      signature := sig.Compute();
      signatures := signatures[b.Key(t) := TaskSignature(sig.inputs, sig.signature)];
    }

    method CollectDepSignatures(b: Build, computed: map<string, string>, ds: seq<TaskId>) returns (depSigs: seq<string>)
      ensures depSigs == Collected(b, computed, ds)
    {
      depSigs := [];
      for i := 0 to |ds|
        invariant depSigs == Collected(b, computed, ds[..i])
      {
        assert ds[..i + 1][..i] == ds[..i];
        if ds[i] in b.tasks {
          var key := b.Key(ds[i]);
          if key in computed {
            depSigs := depSigs + [computed[key]];
          }
        }
      }
      assert ds[..|ds|] == ds;
    }

    method GetSignature(recipe: string, task: string) returns (found: Option<string>)
      ensures var key := recipe + ":" + task;
              found == if key in signatures then signatures[key].signature else None
    {
      var key := recipe + ":" + task;
      if key in signatures {
        return signatures[key].signature;
      }
      return None;
    }
  }
}
