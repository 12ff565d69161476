/** Texts with ${NAME} references: as the strings the code scans, and as the chunks they stand for,
    with their full expansion, the number of substitutions it takes and the depth it reaches. */
module VariableText {
  import opened Wrappers
  import opened Digraph

  datatype Chunk = Lit(text: string) | Ref(name: string)

  type Table = map<string, seq<Chunk>>

  function RenderChunk(c: Chunk): string {
    match c
    case Lit(text) => text
    case Ref(name) => "${" + name + "}"
  }

  function Render(cs: seq<Chunk>): string {
    if cs == [] then "" else RenderChunk(cs[0]) + Render(cs[1..])
  }

  /** The variables as the code holds them: names to unexpanded values. */
  function RenderTable(t: Table): map<string, string> {
    map k | k in t :: Render(t[k])
  }

  predicate PlainName(name: string) {
    name != "" && '$' !in name && '}' !in name
  }

  /** No reference begins in the text, nor at its end, whatever follows. */
  predicate PlainText(text: string) {
    && (forall i :: 0 <= i < |text| - 1 && text[i] == '$' ==> text[i + 1] != '{')
    && (text != "" ==> text[|text| - 1] != '$')
  }

  predicate PlainChunk(c: Chunk) {
    match c
    case Lit(text) => PlainText(text)
    case Ref(name) => PlainName(name)
  }

  ghost predicate Plain(cs: seq<Chunk>) {
    forall c :: c in cs ==> PlainChunk(c)
  }

  ghost predicate PlainTable(t: Table) {
    forall k :: k in t ==> Plain(t[k])
  }

  predicate Known(t: Table, c: Chunk) {
    c.Ref? && c.name in t
  }

  ghost predicate Expanded(t: Table, cs: seq<Chunk>) {
    forall c :: c in cs ==> !Known(t, c)
  }

  // ---- Full expansion ----

  /** The rank of the text: how deep references lead, at most n. */
  ghost predicate RankAtMost(t: Table, cs: seq<Chunk>, n: nat)
    decreases n
  {
    forall c :: c in cs && Known(t, c) ==> n > 0 && RankAtMost(t, t[c.name], n - 1)
  }

  /** Every known reference replaced by the full expansion of its value. */
  ghost function Full(t: Table, cs: seq<Chunk>, n: nat): seq<Chunk>
    decreases n, |cs| + 1
  {
    if cs == [] then [] else FullChunk(t, cs[0], n) + Full(t, cs[1..], n)
  }

  ghost function FullChunk(t: Table, c: Chunk, n: nat): seq<Chunk>
    decreases n, 0
  {
    if Known(t, c) && n > 0 then Full(t, t[c.name], n - 1) else [c]
  }

  /** The weight of the text: one for every known reference, plus the weight of its value. */
  ghost function Weight(t: Table, cs: seq<Chunk>, n: nat): nat
    decreases n, |cs| + 1
  {
    if cs == [] then 0 else WeightOfChunk(t, cs[0], n) + Weight(t, cs[1..], n)
  }

  ghost function WeightOfChunk(t: Table, c: Chunk, n: nat): nat
    decreases n, 0
  {
    if Known(t, c) && n > 0 then 1 + Weight(t, t[c.name], n - 1) else 0
  }

  lemma {:induction false} RenderAppend(a: seq<Chunk>, b: seq<Chunk>)
    ensures Render(a + b) == Render(a) + Render(b)
  {
    if a == [] {
      assert a + b == b;
    } else {
      assert (a + b)[0] == a[0] && (a + b)[1..] == a[1..] + b;
      RenderAppend(a[1..], b);
    }
  }

  lemma {:induction false} FullAppend(t: Table, a: seq<Chunk>, b: seq<Chunk>, n: nat)
    ensures Full(t, a + b, n) == Full(t, a, n) + Full(t, b, n)
    ensures Weight(t, a + b, n) == Weight(t, a, n) + Weight(t, b, n)
    decreases |a|
  {
    if a == [] {
      assert a + b == b;
    } else {
      assert (a + b)[0] == a[0] && (a + b)[1..] == a[1..] + b;
      FullAppend(t, a[1..], b, n);
    }
  }

  lemma {:induction false} RankMonotone(t: Table, cs: seq<Chunk>, n: nat, m: nat)
    requires RankAtMost(t, cs, n) && n <= m
    ensures RankAtMost(t, cs, m)
    decreases n
  {
    forall c | c in cs && Known(t, c) ensures RankAtMost(t, t[c.name], m - 1) {
      RankMonotone(t, t[c.name], n - 1, m - 1);
    }
  }

  lemma RankOfTail(t: Table, cs: seq<Chunk>, n: nat)
    requires RankAtMost(t, cs, n) && cs != []
    ensures RankAtMost(t, cs[1..], n)
    ensures Known(t, cs[0]) ==> n > 0 && RankAtMost(t, t[cs[0].name], n - 1)
  {
    assert cs[0] in cs;
  }

  lemma KnownChunk(t: Table, c: Chunk, n: nat, less: nat)
    requires Known(t, c) && n == less + 1
    ensures FullChunk(t, c, n) == Full(t, t[c.name], less)
    ensures WeightOfChunk(t, c, n) == 1 + Weight(t, t[c.name], less)
  {
    assert n - 1 == less;
  }

  /** Beyond the rank, looking deeper changes neither the expansion nor the weight. */
  lemma {:induction false} FullStable(t: Table, cs: seq<Chunk>, n: nat, m: nat)
    requires RankAtMost(t, cs, n) && n <= m
    ensures Full(t, cs, n) == Full(t, cs, m) && Weight(t, cs, n) == Weight(t, cs, m)
    decreases n, |cs|
  {
    if cs != [] {
      RankOfTail(t, cs, n);
      FullStable(t, cs[1..], n, m);
      if Known(t, cs[0]) {
        var n', m': nat := n - 1, m - 1;
        FullStable(t, t[cs[0].name], n', m');
        KnownChunk(t, cs[0], n, n');
        KnownChunk(t, cs[0], m, m');
      }
    }
  }

  /** A full expansion has no known reference left. */
  lemma {:induction false} FullIsExpanded(t: Table, cs: seq<Chunk>, n: nat)
    requires RankAtMost(t, cs, n)
    ensures Expanded(t, Full(t, cs, n))
    decreases n, |cs|
  {
    if cs != [] {
      if Known(t, cs[0]) {
        FullIsExpanded(t, t[cs[0].name], n - 1);
      }
      FullIsExpanded(t, cs[1..], n);
    }
  }

  lemma {:induction false} FullIsPlain(t: Table, cs: seq<Chunk>, n: nat)
    requires PlainTable(t) && Plain(cs)
    ensures Plain(Full(t, cs, n))
    decreases n, |cs|
  {
    if cs != [] {
      if Known(t, cs[0]) && n > 0 {
        FullIsPlain(t, t[cs[0].name], n - 1);
      }
      FullIsPlain(t, cs[1..], n);
    }
  }

  lemma {:induction false} ExpandedIsFull(t: Table, cs: seq<Chunk>, n: nat)
    requires Expanded(t, cs)
    ensures Full(t, cs, n) == cs && Weight(t, cs, n) == 0
    decreases |cs|
  {
    if cs != [] {
      ExpandedIsFull(t, cs[1..], n);
    }
  }

  /** Only an expanded text is weightless. */
  lemma {:induction false} WeightlessIsExpanded(t: Table, cs: seq<Chunk>, n: nat)
    requires RankAtMost(t, cs, n) && Weight(t, cs, n) == 0
    ensures Expanded(t, cs)
    decreases |cs|
  {
    if cs != [] {
      WeightlessIsExpanded(t, cs[1..], n);
    }
  }

  // ---- Rank and cycles ----

  function KnownNames(t: Table, cs: seq<Chunk>): (r: seq<string>)
    ensures forall x :: x in r <==> Ref(x) in cs && x in t
  {
    if cs == [] then []
    else (if Known(t, cs[0]) then [cs[0].name] else []) + KnownNames(t, cs[1..])
  }

  /** An edge from every variable to the variables its value refers to. */
  function References(t: Table): map<string, seq<string>> {
    map k | k in t :: KnownNames(t, t[k])
  }

  lemma {:induction false} DepthGivesRank(t: Table, cs: seq<Chunk>, n: nat)
    requires forall x :: x in KnownNames(t, cs) ==> DepthAtMost(References(t), x, n)
    ensures RankAtMost(t, cs, n)
    decreases n
  {
    forall c | c in cs && Known(t, c) ensures n > 0 && RankAtMost(t, t[c.name], n - 1) {
      assert c == Ref(c.name) && c.name in KnownNames(t, cs);
      assert DepthAtMost(References(t), c.name, n);
      assert Succ(References(t), c.name) == KnownNames(t, t[c.name]);
      DepthGivesRank(t, t[c.name], n - 1);
    }
  }

  lemma {:induction false} RankGivesDepth(t: Table, cs: seq<Chunk>, n: nat, x: string)
    requires RankAtMost(t, cs, n) && x in KnownNames(t, cs)
    ensures DepthAtMost(References(t), x, n)
    decreases n
  {
    assert Known(t, Ref(x)) && RankAtMost(t, t[x], n - 1);
    forall d | d in Succ(References(t), x) ensures DepthAtMost(References(t), d, n - 1) {
      RankGivesDepth(t, t[x], n - 1, d);
    }
  }

  ghost predicate CycleFree(t: Table, cs: seq<Chunk>) {
    forall x, c :: x in KnownNames(t, cs) && Reaches(References(t), x, c) ==> !OnCycle(References(t), c)
  }

  lemma CycleFreeHasRank(t: Table, cs: seq<Chunk>)
    requires CycleFree(t, cs)
    ensures RankAtMost(t, cs, |Nodes(References(t))| + 1)
  {
    var g := References(t);
    var n := |Nodes(g)| + 1;
    forall x | x in KnownNames(t, cs) ensures DepthAtMost(g, x, n) {
      NoCycleBoundsDepth(g, x);
      assert |Nodes(g) + {x}| <= n;
      DepthMonotone(g, x, |Nodes(g) + {x}|, n);
    }
    DepthGivesRank(t, cs, n);
  }

  lemma RankExcludesCycles(t: Table, cs: seq<Chunk>, n: nat)
    requires RankAtMost(t, cs, n)
    ensures CycleFree(t, cs)
  {
    var g := References(t);
    forall x, c | x in KnownNames(t, cs) && Reaches(g, x, c) ensures !OnCycle(g, c) {
      RankGivesDepth(t, cs, n, x);
      var p :| WalkBetween(g, p, x, c);
      DepthAlongWalk(g, n, p);
      DepthExcludesCycle(g, c, n);
    }
  }

  /** Texts that lead into no cycle of references are those that have a rank. */
  lemma CycleFreeIffRanked(t: Table, cs: seq<Chunk>)
    ensures CycleFree(t, cs) <==> exists n: nat :: RankAtMost(t, cs, n)
  {
    if CycleFree(t, cs) {
      CycleFreeHasRank(t, cs);
      assert exists n: nat :: RankAtMost(t, cs, n);
    } else if exists n: nat :: RankAtMost(t, cs, n) {
      var n: nat :| RankAtMost(t, cs, n);
      RankExcludesCycles(t, cs, n);
      assert false;
    }
  }

  // ---- Substitutions on chunks ----

  /** The first known reference replaced by its value. */
  function ReplaceFirst(t: Table, cs: seq<Chunk>): Option<seq<Chunk>> {
    if cs == [] then None
    else if Known(t, cs[0]) then Some(t[cs[0].name] + cs[1..])
    else
      match ReplaceFirst(t, cs[1..])
      case None => None
      case Some(rest) => Some([cs[0]] + rest)
  }

  /** Replacing the first known reference keeps the expansion and takes one off the weight. */
  lemma {:induction false} ReplaceFirstStep(t: Table, cs: seq<Chunk>, n: nat)
    requires PlainTable(t) && Plain(cs) && RankAtMost(t, cs, n)
    ensures ReplaceFirst(t, cs).None? <==> Expanded(t, cs)
    ensures ReplaceFirst(t, cs).Some? ==>
              var next := ReplaceFirst(t, cs).value;
              Plain(next) && RankAtMost(t, next, n) && Full(t, next, n) == Full(t, cs, n)
              && Weight(t, next, n) == Weight(t, cs, n) - 1
    decreases |cs|
  {
    if cs != [] {
      if Known(t, cs[0]) {
        var value := t[cs[0].name];
        RankMonotone(t, value, n - 1, n);
        FullStable(t, value, n - 1, n);
        FullAppend(t, value, cs[1..], n);
        assert cs[0] in cs;
      } else {
        ReplaceFirstStep(t, cs[1..], n);
      }
    }
  }

  /** Every reference to x replaced by v. */
  function ReplaceAll(cs: seq<Chunk>, x: string, v: seq<Chunk>): seq<Chunk> {
    if cs == [] then []
    else (if cs[0] == Ref(x) then v else [cs[0]]) + ReplaceAll(cs[1..], x, v)
  }

  lemma {:induction false} ReplaceAllMembers(cs: seq<Chunk>, x: string, v: seq<Chunk>, c: Chunk)
    ensures c in ReplaceAll(cs, x, v) <==> (c in cs && c != Ref(x)) || (Ref(x) in cs && c in v)
  {
    if cs != [] {
      ReplaceAllMembers(cs[1..], x, v, c);
    }
  }

  lemma {:induction false} ReplaceAllKeepsFull(t: Table, cs: seq<Chunk>, x: string, n: nat)
    requires RankAtMost(t, cs, n) && x in t
    ensures Full(t, ReplaceAll(cs, x, t[x]), n) == Full(t, cs, n)
    decreases |cs|
  {
    if cs != [] {
      ReplaceAllKeepsFull(t, cs[1..], x, n);
      if cs[0] == Ref(x) {
        assert Known(t, cs[0]);
        FullStable(t, t[x], n - 1, n);
        FullAppend(t, t[x], ReplaceAll(cs[1..], x, t[x]), n);
      } else {
        FullAppend(t, [cs[0]], ReplaceAll(cs[1..], x, t[x]), n);
        FullAppend(t, [cs[0]], cs[1..], n);
        assert cs == [cs[0]] + cs[1..];
      }
    }
  }
}
