/** Finite directed graphs given by adjacency lists, and the facts about walks, cycles and
    orderings that the graph algorithms of the build engine share.  A node that is not a key of
    the map (a dangling id) has no outgoing edges. */
module Digraph {

  function Succ<N(==)>(g: map<N, seq<N>>, n: N): seq<N> {
    if n in g then g[n] else []
  }

  predicate Edge<N(==)>(g: map<N, seq<N>>, a: N, b: N) {
    b in Succ(g, a)
  }

  /** All nodes of the graph: the keys and every edge target. */
  ghost function Nodes<N(!new)>(g: map<N, seq<N>>): set<N> {
    g.Keys + set k, d | k in g && d in g[k] :: d
  }

  ghost predicate Walk<N(!new)>(g: map<N, seq<N>>, p: seq<N>) {
    |p| > 0 && forall i :: 0 <= i < |p| - 1 ==> Edge(g, p[i], p[i + 1])
  }

  ghost predicate WalkBetween<N(!new)>(g: map<N, seq<N>>, p: seq<N>, a: N, b: N) {
    Walk(g, p) && p[0] == a && p[|p| - 1] == b
  }

  /** b can be reached from a by zero or more edges. */
  ghost predicate Reaches<N(!new)>(g: map<N, seq<N>>, a: N, b: N) {
    exists p :: WalkBetween(g, p, a, b)
  }

  /** a lies on a cycle: some walk of at least one edge leads from a back to a. */
  ghost predicate OnCycle<N(!new)>(g: map<N, seq<N>>, a: N) {
    exists p :: WalkBetween(g, p, a, a) && |p| >= 2
  }

  ghost predicate Acyclic<N(!new)>(g: map<N, seq<N>>) {
    forall a :: !OnCycle(g, a)
  }

  ghost predicate NoDup<N(!new)>(s: seq<N>) {
    forall i, j :: 0 <= i < j < |s| ==> s[i] != s[j]
  }

  function Elems<N(==)>(s: seq<N>): set<N> {
    set x | x in s
  }

  lemma ElemsStep<N(!new)>(s: seq<N>, i: nat)
    requires i < |s|
    ensures Elems(s[..i + 1]) == Elems(s[..i]) + {s[i]}
    ensures s[i] in Elems(s)
  {
    assert s[..i + 1] == s[..i] + [s[i]];
  }

  /** Every element of the order comes after all of its successors, and none is repeated. */
  ghost predicate TopoOrder<N(!new)>(g: map<N, seq<N>>, order: seq<N>) {
    && NoDup(order)
    && forall i :: 0 <= i < |order| ==> forall d :: d in Succ(g, order[i]) ==> d in order[..i]
  }

  // ---- Walks ----

  lemma EdgeReaches<N(!new)>(g: map<N, seq<N>>, a: N, b: N)
    requires Edge(g, a, b)
    ensures Reaches(g, a, b)
  {
    assert WalkBetween(g, [a, b], a, b);
  }

  lemma ReachesSelf<N(!new)>(g: map<N, seq<N>>, a: N)
    ensures Reaches(g, a, a)
  {
    assert WalkBetween(g, [a], a, a);
  }

  lemma JoinWalks<N(!new)>(g: map<N, seq<N>>, p: seq<N>, q: seq<N>, a: N, b: N, c: N)
    requires WalkBetween(g, p, a, b) && WalkBetween(g, q, b, c)
    ensures WalkBetween(g, p + q[1..], a, c)
    ensures |p + q[1..]| == |p| + |q| - 1
  {
    var r := p + q[1..];
    forall i | 0 <= i < |r| - 1 ensures Edge(g, r[i], r[i + 1]) {
      if i < |p| - 1 {
      } else if i == |p| - 1 {
        assert r[i] == q[0] && r[i + 1] == q[1];
      } else {
        assert r[i] == q[i - |p| + 1] && r[i + 1] == q[i - |p| + 2];
      }
    }
  }

  lemma ReachesTransitive<N(!new)>(g: map<N, seq<N>>, a: N, b: N, c: N)
    requires Reaches(g, a, b) && Reaches(g, b, c)
    ensures Reaches(g, a, c)
  {
    var p :| WalkBetween(g, p, a, b);
    var q :| WalkBetween(g, q, b, c);
    JoinWalks(g, p, q, a, b, c);
  }

  /** An edge that closes a path back to where it started puts its target on a cycle. */
  lemma EdgeClosesCycle<N(!new)>(g: map<N, seq<N>>, a: N, b: N)
    requires Edge(g, a, b) && Reaches(g, b, a)
    ensures OnCycle(g, b) && OnCycle(g, a)
  {
    var p :| WalkBetween(g, p, b, a);
    assert WalkBetween(g, [a, b], a, b);
    JoinWalks(g, p, [a, b], b, a, b);
    JoinWalks(g, [a, b], p, a, b, a);
  }

  /** A reachability step seen from its first edge. */
  lemma ReachesFirstStep<N(!new)>(g: map<N, seq<N>>, a: N, b: N) returns (d: N)
    requires Reaches(g, a, b) && a != b
    ensures Edge(g, a, d) && Reaches(g, d, b)
  {
    var p :| WalkBetween(g, p, a, b);
    d := p[1];
    assert Edge(g, p[0], p[1]);
    assert WalkBetween(g, p[1..], d, b);
  }

  /** The cycle through a leaves a by some edge whose target lies on the cycle too. */
  lemma CycleFirstStep<N(!new)>(g: map<N, seq<N>>, a: N) returns (d: N)
    requires OnCycle(g, a)
    ensures Edge(g, a, d) && Reaches(g, d, a) && OnCycle(g, d)
  {
    var p :| WalkBetween(g, p, a, a) && |p| >= 2;
    d := p[1];
    assert Edge(g, p[0], p[1]);
    assert WalkBetween(g, p[1..], d, a);
    EdgeClosesCycle(g, a, d);
  }

  /** A set closed under successors contains everything reachable from its members. */
  lemma {:induction false} ClosedContainsWalk<N(!new)>(g: map<N, seq<N>>, s: set<N>, p: seq<N>)
    requires forall n, d :: n in s && d in Succ(g, n) ==> d in s
    requires Walk(g, p) && p[0] in s
    ensures p[|p| - 1] in s
    decreases |p|
  {
    if |p| > 1 {
      assert Edge(g, p[0], p[1]);
      ClosedContainsWalk(g, s, p[1..]);
    }
  }

  lemma ClosedContainsReachable<N(!new)>(g: map<N, seq<N>>, s: set<N>, a: N, b: N)
    requires forall n, d :: n in s && d in Succ(g, n) ==> d in s
    requires a in s && Reaches(g, a, b)
    ensures b in s
  {
    var p :| WalkBetween(g, p, a, b);
    ClosedContainsWalk(g, s, p);
  }

  // ---- Orders exclude cycles ----

  /** Walking from position k of a topological order, each edge moves strictly to the left. */
  lemma {:induction false} WalkDescends<N(!new)>(g: map<N, seq<N>>, order: seq<N>, k: nat, p: seq<N>)
    requires TopoOrder(g, order)
    requires k < |order| && Walk(g, p) && p[0] == order[k]
    ensures exists m :: 0 <= m < |order| && order[m] == p[|p| - 1] && m + |p| - 1 <= k
    decreases |p|
  {
    if |p| > 1 {
      assert Edge(g, p[0], p[1]);
      assert p[1] in order[..k];
      var j :| 0 <= j < k && order[j] == p[1];
      WalkDescends(g, order, j, p[1..]);
    } else {
      assert order[k] == p[|p| - 1];
    }
  }

  lemma OrderExcludesCycle<N(!new)>(g: map<N, seq<N>>, order: seq<N>, a: N)
    requires TopoOrder(g, order) && a in order
    ensures !OnCycle(g, a)
  {
    if OnCycle(g, a) {
      var p :| WalkBetween(g, p, a, a) && |p| >= 2;
      var k :| 0 <= k < |order| && order[k] == a;
      WalkDescends(g, order, k, p);
    }
  }

  /** A graph whose keys can all be put in topological order has no cycle at all. */
  lemma OrderMeansAcyclic<N(!new)>(g: map<N, seq<N>>, order: seq<N>)
    requires TopoOrder(g, order) && g.Keys <= Elems(order)
    ensures Acyclic(g)
  {
    forall a ensures !OnCycle(g, a) {
      if OnCycle(g, a) {
        var d := CycleFirstStep(g, a);
        assert a in g;
        OrderExcludesCycle(g, order, a);
      }
    }
  }

  lemma ExtendOrder<N(!new)>(g: map<N, seq<N>>, order: seq<N>, a: N)
    requires TopoOrder(g, order) && a !in order
    requires forall d :: d in Succ(g, a) ==> d in order
    ensures TopoOrder(g, order + [a])
  {
    var next := order + [a];
    forall i | 0 <= i < |next| ensures forall d :: d in Succ(g, next[i]) ==> d in next[..i] {
      if i < |order| {
        assert next[..i] == order[..i];
      } else {
        assert next[..i] == order;
      }
    }
  }

  // ---- Recursion stacks of depth-first searches ----

  /** The recursion stack of a traversal: a path of edges that ends in an edge to the node that is
      visited next. */
  ghost predicate LeadsTo<N(!new)>(g: map<N, seq<N>>, path: seq<N>, n: N) {
    path != [] ==> Walk(g, path) && Edge(g, path[|path| - 1], n)
  }

  lemma PathStepExtends<N(!new)>(g: map<N, seq<N>>, path: seq<N>, n: N)
    requires LeadsTo(g, path, n)
    ensures Walk(g, path + [n])
  {
    var p := path + [n];
    forall i | 0 <= i < |p| - 1 ensures Edge(g, p[i], p[i + 1]) {
      if i < |path| - 1 { assert Edge(g, path[i], path[i + 1]); }
    }
  }

  lemma StackHitMeansCycle<N(!new)>(g: map<N, seq<N>>, path: seq<N>, n: N)
    requires LeadsTo(g, path, n) && n in path
    ensures OnCycle(g, n)
  {
    var i :| 0 <= i < |path| && path[i] == n;
    assert WalkBetween(g, path[i..], n, path[|path| - 1]);
    EdgeClosesCycle(g, path[|path| - 1], n);
  }

  /** A node that can go back to the stack that leads to it lies on a cycle. */
  lemma ReachingStackMeansCycle<N(!new)>(g: map<N, seq<N>>, path: seq<N>, n: N, h: N)
    requires LeadsTo(g, path, n) && h in path && Reaches(g, n, h)
    ensures OnCycle(g, n)
  {
    var i :| 0 <= i < |path| && path[i] == h;
    var last := path[|path| - 1];
    assert WalkBetween(g, path[i..], h, last);
    ReachesTransitive(g, n, h, last);
    EdgeClosesCycle(g, last, n);
  }

  // ---- Depth: walks out of a node are bounded exactly when no cycle can be reached ----

  /** Every walk that starts at n visits at most k nodes. */
  ghost predicate DepthAtMost<N(!new)>(g: map<N, seq<N>>, n: N, k: nat) {
    k > 0 && forall d :: d in Succ(g, n) ==> DepthAtMost(g, d, k - 1)
  }

  lemma {:induction false} DepthMonotone<N(!new)>(g: map<N, seq<N>>, n: N, k: nat, m: nat)
    requires DepthAtMost(g, n, k) && k <= m
    ensures DepthAtMost(g, n, m)
  {
    forall d | d in Succ(g, n) ensures DepthAtMost(g, d, m - 1) {
      DepthMonotone(g, d, k - 1, m - 1);
    }
  }

  lemma {:induction false} DepthAlongWalk<N(!new)>(g: map<N, seq<N>>, k: nat, p: seq<N>)
    requires Walk(g, p) && DepthAtMost(g, p[0], k)
    ensures |p| <= k && DepthAtMost(g, p[|p| - 1], k)
    decreases |p|
  {
    if |p| > 1 {
      assert Edge(g, p[0], p[1]);
      DepthAlongWalk(g, k - 1, p[1..]);
      DepthMonotone(g, p[|p| - 1], k - 1, k);
    }
  }

  lemma {:induction false} DepthExcludesCycle<N(!new)>(g: map<N, seq<N>>, n: N, k: nat)
    requires DepthAtMost(g, n, k)
    ensures !OnCycle(g, n)
    decreases k
  {
    if OnCycle(g, n) {
      var d := CycleFirstStep(g, n);
      DepthExcludesCycle(g, d, k - 1);
    }
  }

  lemma {:induction false} DistinctFits<N(!new)>(p: seq<N>, s: set<N>)
    requires NoDup(p) && Elems(p) <= s
    ensures |p| <= |s|
    decreases |p|
  {
    if |p| > 0 {
      var last := p[|p| - 1];
      var front := p[..|p| - 1];
      assert last in p && last in s;
      forall x | x in front ensures x in s - {last} {
        assert x in p;
      }
      DistinctFits(front, s - {last});
    }
  }

  lemma SuccInNodes<N(!new)>(g: map<N, seq<N>>, a: N, b: N)
    requires Edge(g, a, b)
    ensures a in g && b in Nodes(g)
  {
  }

  /** A path without repetition can only be extended until the nodes run out. */
  lemma {:induction false} PathBoundsDepth<N(!new)>(g: map<N, seq<N>>, u: set<N>, p: seq<N>, k: nat)
    requires Nodes(g) <= u && Walk(g, p) && NoDup(p) && Elems(p) <= u
    requires forall c :: Reaches(g, p[0], c) ==> !OnCycle(g, c)
    requires k + |p| == |u| + 1
    ensures DepthAtMost(g, p[|p| - 1], k)
    decreases k
  {
    DistinctFits(p, u);
    var n := p[|p| - 1];
    forall d | d in Succ(g, n) ensures DepthAtMost(g, d, k - 1) {
      SuccInNodes(g, n, d);
      if d in p {
        var i :| 0 <= i < |p| && p[i] == d;
        assert WalkBetween(g, p[i..], d, n);
        EdgeClosesCycle(g, n, d);
        assert WalkBetween(g, p, p[0], n);
        assert false;
      } else {
        var q := p + [d];
        assert Elems(q) <= u;
        assert Walk(g, q) by {
          forall i | 0 <= i < |q| - 1 ensures Edge(g, q[i], q[i + 1]) {
            if i < |p| - 1 { assert Edge(g, p[i], p[i + 1]); } else { assert q[i] == n; }
          }
        }
        DistinctFits(q, u);
        PathBoundsDepth(g, u, q, k - 1);
      }
    }
  }

  /** If no cycle is reachable from n, then walks from n are shorter than the number of nodes. */
  lemma NoCycleBoundsDepth<N(!new)>(g: map<N, seq<N>>, n: N)
    requires forall c :: Reaches(g, n, c) ==> !OnCycle(g, c)
    ensures DepthAtMost(g, n, |Nodes(g) + {n}|)
  {
    PathBoundsDepth(g, Nodes(g) + {n}, [n], |Nodes(g) + {n}|);
  }
}
