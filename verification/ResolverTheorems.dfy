/** How the resolver reads names with and without a default, and where the two expanders agree. */
module ResolverTheorems {
  import opened Text
  import opened Wrappers
  import opened VariableText
  import opened Expansion
  import opened ExpansionTheorems
  import opened WordTheorems

  // ---- Names and defaults ----

  const MARK: string := ":-"

  ghost predicate HasDefault(name: string) {
    exists i: nat :: OccursAt(name, MARK, i)
  }

  /** What a name stands for: a variable with this value, or a default. The variable's name ends, and
      the default begins, at the first mark; the default counts where the variable is not set. */
  ghost predicate StandsFor(t: Table, name: string, cs: seq<Chunk>) {
    if HasDefault(name) then
      exists i: nat :: FirstAt(name, MARK, i) && cs == if name[..i] in t then t[name[..i]] else [Lit(name[i + 2..])]
    else name in t && cs == t[name]
  }

  lemma DefaultMarkFound(name: string)
    ensures HasDefault(name) <==> FindDefault(name).Some?
    ensures HasDefault(name) ==> FirstAt(name, MARK, FindDefault(name).value)
  {
    FindDefaultIsFirst(name, MARK);
  }

  lemma RenderOne(text: string)
    ensures Render([Lit(text)]) == text
  {
    assert [Lit(text)][1..] == [] && text + "" == text;
  }

  /** The resolver finds for a name what it stands for, and nothing if it stands for nothing. */
  lemma ValueIff(t: Table, name: string, cs: seq<Chunk>)
    ensures StandsFor(t, name, cs) ==> ValueOf(RenderTable(t), name) == Some(Render(cs))
    ensures ValueOf(RenderTable(t), name).None? <==> !HasDefault(name) && name !in t
  {
    DefaultMarkFound(name);
    if HasDefault(name) {
      var i := FindDefault(name).value;
      RenderOne(name[i + 2..]);
      if StandsFor(t, name, cs) {
        var j: nat :| FirstAt(name, MARK, j) && cs == if name[..j] in t then t[name[..j]] else [Lit(name[j + 2..])];
        FirstIsUnique(name, MARK, i, j);
      }
    }
  }

  ghost predicate NoDefaults(cs: seq<Chunk>) {
    forall c :: c in cs && c.Ref? ==> !HasDefault(c.name)
  }

  ghost predicate NoDefaultsIn(t: Table) {
    forall k :: k in t ==> NoDefaults(t[k])
  }

  lemma PlainNamesAreFound(t: Table, cs: seq<Chunk>)
    requires NoDefaults(cs)
    ensures Finds(RenderTable(t), t, cs)
  {
    forall c | c in cs && c.Ref? ensures ValueOf(RenderTable(t), c.name) == ValueIn(t, c.name) {
      if c.name in t {
        ValueIff(t, c.name, t[c.name]);
      } else {
        ValueIff(t, c.name, []);
      }
    }
  }

  lemma PlainNamesAreFoundIn(t: Table)
    requires NoDefaultsIn(t)
    ensures FindsIn(RenderTable(t), t)
  {
    forall k | k in t ensures Finds(RenderTable(t), t, t[k]) {
      PlainNamesAreFound(t, t[k]);
    }
  }

  // ---- Texts with defaults ----

  /** All names that the text, or the value of a variable, refers to. */
  function Mentioned(t: Table, cs: seq<Chunk>): set<string> {
    (set x | x in Names(cs)) + (set k, x | k in t && x in Names(t[k]) :: x)
  }

  ghost function Meaning(t: Table, name: string): (cs: seq<Chunk>)
    requires HasDefault(name) || name in t
    ensures StandsFor(t, name, cs)
  {
    DefaultMarkFound(name);
    if HasDefault(name) then
      var i := FindDefault(name).value;
      if name[..i] in t then t[name[..i]] else [Lit(name[i + 2..])]
    else t[name]
  }

  /** The table in which every name that is mentioned, with its default if it has one, is a variable
      of its own. */
  ghost function WithDefaults(t: Table, cs: seq<Chunk>): Table {
    map name | name in Mentioned(t, cs) && (HasDefault(name) || name in t) :: Meaning(t, name)
  }

  lemma MeaningIsFound(t: Table, cs: seq<Chunk>, name: string)
    requires name in Mentioned(t, cs)
    ensures ValueOf(RenderTable(t), name) == ValueIn(WithDefaults(t, cs), name)
  {
    if HasDefault(name) || name in t {
      ValueIff(t, name, Meaning(t, name));
    } else {
      ValueIff(t, name, []);
    }
  }

  lemma MentionedAreFound(t: Table, cs: seq<Chunk>, part: seq<Chunk>)
    requires forall x :: x in Names(part) ==> x in Mentioned(t, cs)
    ensures Finds(RenderTable(t), WithDefaults(t, cs), part)
  {
    forall c | c in part && c.Ref? ensures ValueOf(RenderTable(t), c.name) == ValueIn(WithDefaults(t, cs), c.name) {
      NamesMember(part, c.name);
      MeaningIsFound(t, cs, c.name);
    }
  }

  ghost predicate IsEnd(name: string, i: nat, cs: seq<Chunk>) {
    i <= |name| && cs == [Lit(name[i..])]
  }

  /** Every value of the extended table is a value of the table, or the text of a default. */
  lemma ValueWithDefaults(t: Table, cs: seq<Chunk>, name: string)
    requires name in WithDefaults(t, cs)
    ensures (exists k :: k in t && WithDefaults(t, cs)[name] == t[k])
            || (exists i: nat :: IsEnd(name, i, WithDefaults(t, cs)[name]))
  {
    assert StandsFor(t, name, Meaning(t, name));
    if HasDefault(name) {
      var i: nat :| FirstAt(name, MARK, i)
                    && Meaning(t, name) == if name[..i] in t then t[name[..i]] else [Lit(name[i + 2..])];
      assert i + 2 <= |name|;
      assert name[..i] !in t ==> IsEnd(name, i + 2, Meaning(t, name));
    }
  }

  lemma EndOfPlainName(name: string, i: nat)
    requires PlainName(name) && i <= |name|
    ensures Plain([Lit(name[i..])])
  {
    forall k | 0 <= k < |name| - i ensures name[i..][k] != '$' {
      assert name[i..][k] == name[i + k];
    }
  }

  lemma MentionedArePlain(t: Table, cs: seq<Chunk>, name: string)
    requires PlainTable(t) && Plain(cs) && name in Mentioned(t, cs)
    ensures PlainName(name)
  {
    if name in Names(cs) {
      NamesMember(cs, name);
      assert PlainChunk(Ref(name));
    } else {
      var k :| k in t && name in Names(t[k]);
      NamesMember(t[k], name);
      assert Plain(t[k]) && PlainChunk(Ref(name));
    }
  }

  lemma TableWithDefaults(t: Table, cs: seq<Chunk>)
    requires PlainTable(t) && Plain(cs)
    ensures PlainTable(WithDefaults(t, cs))
    ensures FindsIn(RenderTable(t), WithDefaults(t, cs)) && Finds(RenderTable(t), WithDefaults(t, cs), cs)
  {
    var e := WithDefaults(t, cs);
    MentionedAreFound(t, cs, cs);
    forall name | name in e ensures Plain(e[name]) && Finds(RenderTable(t), e, e[name]) {
      ValueWithDefaults(t, cs, name);
      MentionedArePlain(t, cs, name);
      if k :| k in t && e[name] == t[k] {
        MentionedAreFound(t, cs, t[k]);
      } else {
        var i: nat :| IsEnd(name, i, e[name]);
        EndOfPlainName(name, i);
      }
    }
  }

  /** For texts with and without defaults: the result is the full expansion, in which a reference
      stands for its variable's value where that is set and for its default where it is not, exactly if
      that many rounds leave nothing to expand. */
  lemma ResolveWithDefaultsIff(t: Table, cs: seq<Chunk>, n: nat, budget: nat)
    requires PlainTable(t) && Plain(cs) && RankAtMost(WithDefaults(t, cs), cs, n)
    ensures ResolveWithin(RenderTable(t), Render(cs), budget) == Render(Full(WithDefaults(t, cs), cs, n))
            <==> Expanded(WithDefaults(t, cs), Rounds(WithDefaults(t, cs), cs, budget))
  {
    TableWithDefaults(t, cs);
    ResolveIsFullIff(RenderTable(t), WithDefaults(t, cs), cs, n, budget);
  }

  /** With as many rounds as the rank of the text that is so. */
  lemma ResolveIsFull(t: Table, cs: seq<Chunk>, n: nat, budget: nat)
    requires PlainTable(t) && Plain(cs) && RankAtMost(WithDefaults(t, cs), cs, n) && n <= budget
    ensures ResolveWithin(RenderTable(t), Render(cs), budget) == Render(Full(WithDefaults(t, cs), cs, n))
  {
    TableWithDefaults(t, cs);
    RankBoundsRounds(WithDefaults(t, cs), cs, n, budget);
    ResolveWithDefaultsIff(t, cs, n, budget);
  }

  // ---- The bound on the rank is tight ----

  function ChainName(k: nat): string {
    seq(k + 1, _ => 'V')
  }

  /** Variable 0 is a text; every other variable is a reference to the one before it. */
  function Chain(k: nat): Table {
    if k == 0 then map[ChainName(0) := [Lit("x")]] else Chain(k - 1)[ChainName(k) := [Ref(ChainName(k - 1))]]
  }

  lemma {:induction false} ChainLookup(k: nat, j: nat)
    requires j <= k
    ensures ChainName(j) in Chain(k)
    ensures Chain(k)[ChainName(j)] == if j == 0 then [Lit("x")] else [Ref(ChainName(j - 1))]
    decreases k
  {
    assert |ChainName(j)| == j + 1 && |ChainName(k)| == k + 1;
    if j < k {
      ChainLookup(k - 1, j);
    }
  }

  lemma ChainIsPlain(k: nat)
    ensures PlainTable(Chain(k)) && NoDefaultsIn(Chain(k))
    ensures forall j :: 0 <= j <= k ==> PlainName(ChainName(j)) && !HasDefault(ChainName(j))
  {
    forall j: nat ensures PlainName(ChainName(j)) && !HasDefault(ChainName(j)) {
      NoColonNoDefault(ChainName(j));
    }
    forall x | x in Chain(k) ensures Plain(Chain(k)[x]) && NoDefaults(Chain(k)[x]) {
      var j := ChainMember(k, x);
      ChainLookup(k, j);
    }
  }

  lemma NoColonNoDefault(s: string)
    requires ':' !in s
    ensures !HasDefault(s)
  {
    if i: nat :| OccursAt(s, MARK, i) {
      OccursHere(s, MARK, i);
    }
  }

  lemma {:induction false} ChainMember(k: nat, x: string) returns (j: nat)
    requires x in Chain(k)
    ensures j <= k && x == ChainName(j)
  {
    if x == ChainName(k) {
      j := k;
    } else {
      j := ChainMember(k - 1, x);
    }
  }

  lemma {:induction false} ChainRank(k: nat, j: nat)
    requires j <= k
    ensures RankAtMost(Chain(k), [Ref(ChainName(j))], j + 1)
    ensures Full(Chain(k), [Ref(ChainName(j))], j + 1) == [Lit("x")]
    decreases j
  {
    var t, cs := Chain(k), [Ref(ChainName(j))];
    ChainLookup(k, j);
    assert cs[1..] == [];
    assert Full(t, cs, j + 1) == FullChunk(t, cs[0], j + 1) + [];
    if j > 0 {
      ChainRank(k, j - 1);
    } else {
      assert [Lit("x")][1..] == [];
      assert Full(t, [Lit("x")], 0) == FullChunk(t, Lit("x"), 0) + [];
    }
  }

  /** On the chain a round does one step only. */
  lemma ChainRound(k: nat, j: nat)
    requires 0 < j <= k
    ensures Round(Chain(k), [Ref(ChainName(j))]) == [Ref(ChainName(j - 1))]
  {
    var t, x := Chain(k), ChainName(j);
    var cs := [Ref(x)];
    ChainLookup(k, j);
    assert cs[1..] == [];
    assert Names(cs) == [x] && Names(cs)[..0] == [];
    assert RewriteChunks(t, [], cs) == cs;
    assert ReplaceAll(cs, x, t[x]) == t[x] + [];
  }

  lemma ChainStep(k: nat, j: nat, i: nat, budget: nat, less: nat)
    requires j <= k && j == i + 1 && budget == less + 1
    ensures ResolveWithin(RenderTable(Chain(k)), Render([Ref(ChainName(j))]), budget)
            == ResolveWithin(RenderTable(Chain(k)), Render([Ref(ChainName(i))]), less)
  {
    var t, cs := Chain(k), [Ref(ChainName(j))];
    ChainIsPlain(k);
    ChainRank(k, j);
    ChainRound(k, j);
    ChainLookup(k, j);
    assert Known(t, cs[0]);
    PlainNamesAreFound(t, cs);
    ResolveStep(RenderTable(t), t, cs, j + 1, [Ref(ChainName(i))], budget, less);
  }

  lemma {:induction false} ChainRounds(k: nat, j: nat, budget: nat, left: nat)
    requires budget + left == j <= k
    ensures ResolveWithin(RenderTable(Chain(k)), Render([Ref(ChainName(j))]), budget) == Render([Ref(ChainName(left))])
    decreases budget
  {
    if budget > 0 {
      var i: nat, less: nat := j - 1, budget - 1;
      ChainRounds(k, i, less, left);
      ChainStep(k, j, i, budget, less);
    }
  }

  /** For every number of rounds below the rank there is a text that is not expanded in full. */
  lemma FewerRoundsThanRankFail(k: nat, budget: nat)
    requires budget < k + 1
    ensures var t, cs := Chain(k), [Ref(ChainName(k))];
            && PlainTable(t) && NoDefaultsIn(t) && Plain(cs) && NoDefaults(cs) && RankAtMost(t, cs, k + 1)
            && ResolveWithin(RenderTable(t), Render(cs), budget) != Render(Full(t, cs, k + 1))
  {
    ChainIsPlain(k);
    ChainRank(k, k);
    var left: nat := k - budget;
    ChainRounds(k, k, budget, left);
    StartsDiffer(ChainName(left));
  }

  lemma StartsDiffer(name: string)
    ensures Render([Ref(name)]) != Render([Lit("x")])
  {
    assert [Ref(name)][1..] == [] && [Lit("x")][1..] == [];
    assert Render([Ref(name)])[0] == '$' && Render([Lit("x")])[0] == 'x';
  }

  // ---- Both together ----

  /** Both expanders give the full expansion exactly where neither budget runs out, and then nothing
      known is left to expand. */
  lemma ExpandersAgree(t: Table, cs: seq<Chunk>, n: nat)
    requires PlainTable(t) && NoDefaultsIn(t) && Plain(cs) && NoDefaults(cs) && RankAtMost(t, cs, n)
    ensures var vars, text := RenderTable(t), Render(cs);
            ExpandWithin(vars, text, MAX_ITERATIONS) == ResolveWithin(vars, text, MAX_DEPTH) == Render(Full(t, cs, n))
            <==> Weight(t, cs, n) <= 100 && Expanded(t, Rounds(t, cs, 10))
    ensures n <= 10 ==> Expanded(t, Rounds(t, cs, 10))
    ensures Substitute(RenderTable(t), Render(Full(t, cs, n))) == None
    ensures !AnyValue(RenderTable(t), Captures(Render(Full(t, cs, n))))
  {
    ExpanderIsExactUpTo100(t, cs, n);
    PlainNamesAreFound(t, cs);
    PlainNamesAreFoundIn(t);
    ResolveIsFullIff(RenderTable(t), t, cs, n, MAX_DEPTH);
    if n <= 10 {
      RankBoundsRounds(t, cs, n, MAX_DEPTH);
    }
    FullLeavesNothing(t, cs, n);
  }

  lemma DefaultAfterName(x: string, d: string, name: string)
    requires ':' !in x && name == x + (":-" + d)
    ensures HasDefault(name) && FindDefault(name) == Some(|x|) && name[..|x|] == x && name[|x| + 2..] == d
  {
    assert OccursAt(name, MARK, |x|);
    forall j: nat | j < |x| ensures !OccursAt(name, MARK, j) {
      assert name[j] == x[j];
      if OccursAt(name, MARK, j) {
        OccursHere(name, MARK, j);
      }
    }
    DefaultMarkFound(name);
    FirstIsUnique(name, MARK, |x|, FindDefault(name).value);
  }

  lemma ResolveLiteral(vars: Variables, text: string, budget: nat)
    requires PlainText(text)
    ensures ResolveWithin(vars, text, budget) == text
  {
    PassLiteral(vars, text, "");
    assert text + "" == text;
    assert Captures("") == [];
  }

  lemma RewriteReference(vars: Variables, name: string)
    requires PlainName(name) && ValueOf(vars, name).Some?
    ensures Captures(Reference(name)) == [name]
    ensures Rewrite(vars, [name], Reference(name)) == ValueOf(vars, name).value
  {
    var s, value := Reference(name), ValueOf(vars, name).value;
    TakeReference(vars, name, "");
    assert s + "" == s && Captures("") == [];
    ReplaceSame(name, "", value);
    assert Replace("", s, value) == "" && value + "" == value;
    assert [name][..0] == [] && Rewrite(vars, [], s) == s;
  }

  /** A text that is one reference with a value becomes that value, which is final if it has no reference. */
  lemma ResolveReference(vars: Variables, name: string, value: string, budget: nat)
    requires PlainName(name) && ValueOf(vars, name) == Some(value) && budget > 0 && value != Reference(name)
    ensures ResolveWithin(vars, Reference(name), budget) == ResolveWithin(vars, value, budget - 1)
    ensures PlainText(value) ==> ResolveWithin(vars, Reference(name), budget) == value
  {
    var s, less: nat := Reference(name), budget - 1;
    RewriteReference(vars, name);
    assert name in Captures(s);
    ResolveUnfold(vars, s, value, budget, less);
    if PlainText(value) {
      ResolveLiteral(vars, value, less);
    }
  }

  lemma ReferenceStays(vars: Variables, name: string, budget: nat)
    requires PlainName(name) && name !in vars
    ensures ExpandWithin(vars, Reference(name), budget) == Reference(name)
  {
    TakeReference(vars, name, "");
    assert Reference(name) + "" == Reference(name) && Substitute(vars, "") == None;
  }

  /** Defaults are where the expanders differ: without a variable of that name the resolver gives the
      default, and the expander leaves the reference as it is. */
  lemma DefaultsDisagree(vars: Variables, x: string, d: string, name: string, budget: nat)
    requires PlainName(name) && ':' !in x && name == x + (":-" + d) && PlainText(d)
    requires x !in vars && name !in vars && budget > 0
    ensures ExpandWithin(vars, Reference(name), budget) == Reference(name)
    ensures ResolveWithin(vars, Reference(name), budget) == d != Reference(name)
  {
    DefaultAfterName(x, d, name);
    ReferenceStays(vars, name, budget);
    assert |d| < |Reference(name)|;
    ResolveReference(vars, name, d, budget);
  }

  /** Where the variable is set its value is taken, and not the default: one round puts it into the
      text, and a value without references is the result whatever the budget. */
  lemma ValueBeatsDefault(vars: Variables, x: string, d: string, name: string, budget: nat)
    requires PlainName(name) && ':' !in x && name == x + (":-" + d)
    requires x in vars && budget > 0
    ensures Rewrite(vars, Captures(Reference(name)), Reference(name)) == vars[x]
    ensures PlainText(vars[x]) ==> ResolveWithin(vars, Reference(name), budget) == vars[x]
  {
    DefaultAfterName(x, d, name);
    RewriteReference(vars, name);
    if PlainText(vars[x]) {
      ReferenceIsNotPlain(name);
      ResolveReference(vars, name, vars[x], budget);
    }
  }

  lemma ReferenceIsNotPlain(name: string)
    ensures !PlainText(Reference(name))
  {
    assert Reference(name)[0] == '$' && Reference(name)[1] == '{';
  }

  lemma {:induction false} FullHasNoDefaults(t: Table, cs: seq<Chunk>, n: nat)
    requires NoDefaultsIn(t) && NoDefaults(cs)
    ensures NoDefaults(Full(t, cs, n))
    decreases n, |cs|
  {
    if cs != [] {
      if Known(t, cs[0]) && n > 0 {
        FullHasNoDefaults(t, t[cs[0].name], n - 1);
      }
      FullHasNoDefaults(t, cs[1..], n);
    }
  }

  lemma FullLeavesNothing(t: Table, cs: seq<Chunk>, n: nat)
    requires PlainTable(t) && NoDefaultsIn(t) && Plain(cs) && NoDefaults(cs) && RankAtMost(t, cs, n)
    ensures Substitute(RenderTable(t), Render(Full(t, cs, n))) == None
    ensures !AnyValue(RenderTable(t), Captures(Render(Full(t, cs, n))))
  {
    var full := Full(t, cs, n);
    FullIsPlain(t, cs, n);
    FullIsExpanded(t, cs, n);
    FullHasNoDefaults(t, cs, n);
    ScanReplacesFirst(t, full);
    ExpandedIsFull(t, full, n);
    NothingToReplace(t, full);
    CapturesAreNames(full);
    PlainNamesAreFound(t, full);
    ExpandedHasNoValue(RenderTable(t), t, full);
  }

  lemma {:induction false} NothingToReplace(t: Table, cs: seq<Chunk>)
    requires Expanded(t, cs)
    ensures ReplaceFirst(t, cs).None?
    decreases |cs|
  {
    if cs != [] {
      assert cs[0] in cs;
      NothingToReplace(t, cs[1..]);
    }
  }
}
