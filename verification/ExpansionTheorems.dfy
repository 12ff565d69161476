/** When the two expanders compute the full expansion of a text, for references that both read alike. */
module ExpansionTheorems {
  import opened Text
  import opened Wrappers
  import opened VariableText
  import opened Expansion
  import opened WordTheorems

  // ---- Strings and chunks ----

  lemma PlainTail(text: string, rest: string)
    requires PlainText(text) && text != ""
    ensures PlainText(text[1..])
    ensures var s := text + rest; s[0] == text[0] && (s[0] == '$' ==> |s| > 1 && s[1] != '{')
    ensures (text + rest)[1..] == text[1..] + rest && text == [text[0]] + text[1..]
  {
    var tail := text[1..];
    assert tail != "" ==> tail[|tail| - 1] == text[|text| - 1];
    forall i | 0 <= i < |tail| - 1 && tail[i] == '$' ensures tail[i + 1] != '{' {
      assert text[i + 1] == tail[i] && text[i + 2] == tail[i + 1];
    }
    if |text| > 1 {
      assert (text + rest)[1] == text[1];
    }
  }

  /** A literal is passed over. */
  lemma {:induction false} PassLiteral(vars: Variables, text: string, rest: string)
    requires PlainText(text)
    ensures Substitute(vars, text + rest) == Prefixed(text, Substitute(vars, rest))
    ensures Captures(text + rest) == Captures(rest)
  {
    if text == "" {
      assert text + rest == rest;
      PrefixedByNothing(Substitute(vars, rest));
    } else {
      PlainTail(text, rest);
      PassLiteral(vars, text[1..], rest);
      PrefixedTwice([text[0]], text[1..], Substitute(vars, rest));
    }
  }

  lemma {:induction false} FindCloseAfterName(name: string, rest: string)
    requires '}' !in name
    ensures FindClose(name + ("}" + rest)) == Some(|name|)
  {
    var s := name + ("}" + rest);
    if name == "" {
      assert s == "}" + rest;
    } else {
      assert s[0] == name[0] && s[1..] == name[1..] + ("}" + rest);
      FindCloseAfterName(name[1..], rest);
    }
  }

  /** A reference is found with its name. */
  lemma TakeReference(vars: Variables, name: string, rest: string)
    requires PlainName(name)
    ensures Substitute(vars, Reference(name) + rest)
            == if name in vars then Some(vars[name] + rest) else Prefixed(Reference(name), Substitute(vars, rest))
    ensures Captures(Reference(name) + rest) == [name] + Captures(rest)
  {
    var s, t := Reference(name) + rest, name + ("}" + rest);
    assert s[2..] == t;
    FindCloseAfterName(name, rest);
    assert t[..|name|] == name && t[|name| + 1..] == rest;
  }

  lemma RenderFirst(cs: seq<Chunk>)
    requires cs != []
    ensures Render(cs) == (if cs[0].Lit? then cs[0].text else Reference(cs[0].name)) + Render(cs[1..])
  {
  }

  lemma PlainParts(cs: seq<Chunk>)
    requires Plain(cs) && cs != []
    ensures PlainChunk(cs[0]) && Plain(cs[1..])
  {
    assert cs[0] in cs;
  }

  function Rendered(r: Option<seq<Chunk>>): Option<string> {
    match r case None => None case Some(cs) => Some(Render(cs))
  }

  lemma ReplaceFirstCases(t: Table, cs: seq<Chunk>)
    requires cs != []
    ensures Rendered(ReplaceFirst(t, cs))
            == if Known(t, cs[0]) then Some(Render(t[cs[0].name]) + Render(cs[1..]))
               else Prefixed(RenderChunk(cs[0]), Rendered(ReplaceFirst(t, cs[1..])))
  {
    if Known(t, cs[0]) {
      RenderAppend(t[cs[0].name], cs[1..]);
    } else if ReplaceFirst(t, cs).Some? {
      RenderAppend([cs[0]], ReplaceFirst(t, cs[1..]).value);
    }
  }

  /** On plain texts the scan substitutes the first known reference. */
  lemma {:induction false} ScanReplacesFirst(t: Table, cs: seq<Chunk>)
    requires Plain(cs)
    ensures Substitute(RenderTable(t), Render(cs)) == Rendered(ReplaceFirst(t, cs))
  {
    if cs != [] {
      RenderFirst(cs);
      PlainParts(cs);
      ReplaceFirstCases(t, cs);
      ScanReplacesFirst(t, cs[1..]);
      if cs[0].Lit? {
        PassLiteral(RenderTable(t), cs[0].text, Render(cs[1..]));
      } else {
        TakeReference(RenderTable(t), cs[0].name, Render(cs[1..]));
      }
    }
  }

  function Names(cs: seq<Chunk>): seq<string> {
    if cs == [] then [] else (if cs[0].Ref? then [cs[0].name] else []) + Names(cs[1..])
  }

  lemma {:induction false} CapturesAreNames(cs: seq<Chunk>)
    requires Plain(cs)
    ensures Captures(Render(cs)) == Names(cs)
  {
    if cs != [] {
      RenderFirst(cs);
      PlainParts(cs);
      CapturesAreNames(cs[1..]);
      if cs[0].Lit? {
        PassLiteral(map[], cs[0].text, Render(cs[1..]));
      } else {
        TakeReference(map[], cs[0].name, Render(cs[1..]));
      }
    }
  }

  /** Texts that look the same have the same references. */
  lemma SameTextSameNames(cs: seq<Chunk>, ds: seq<Chunk>)
    requires Plain(cs) && Plain(ds) && Render(cs) == Render(ds)
    ensures Names(cs) == Names(ds)
  {
    CapturesAreNames(cs);
    CapturesAreNames(ds);
  }

  ghost function WeightOfNames(t: Table, names: seq<string>, n: nat): nat {
    if names == [] then 0 else WeightOfChunk(t, Ref(names[0]), n) + WeightOfNames(t, names[1..], n)
  }

  lemma {:induction false} WeightByNames(t: Table, cs: seq<Chunk>, n: nat)
    ensures Weight(t, cs, n) == WeightOfNames(t, Names(cs), n)
  {
    if cs != [] {
      WeightByNames(t, cs[1..], n);
      if cs[0].Ref? {
        assert Names(cs)[1..] == Names(cs[1..]) && cs[0] == Ref(Names(cs)[0]);
      } else {
        assert Names(cs) == Names(cs[1..]);
      }
    }
  }

  lemma {:induction false} NamesMember(cs: seq<Chunk>, x: string)
    ensures x in Names(cs) <==> Ref(x) in cs
  {
    if cs != [] {
      NamesMember(cs[1..], x);
    }
  }

  // ---- The expander with a budget of substitutions ----

  lemma SameTextSameWeight(t: Table, cs: seq<Chunk>, ds: seq<Chunk>, n: nat)
    requires Plain(cs) && Plain(ds) && Render(cs) == Render(ds)
    ensures Weight(t, cs, n) == Weight(t, ds, n)
  {
    SameTextSameNames(cs, ds);
    WeightByNames(t, cs, n);
    WeightByNames(t, ds, n);
  }

  lemma SubstitutionChanges(t: Table, cs: seq<Chunk>, n: nat)
    requires PlainTable(t) && Plain(cs) && RankAtMost(t, cs, n) && ReplaceFirst(t, cs).Some?
    ensures Render(ReplaceFirst(t, cs).value) != Render(cs)
  {
    ReplaceFirstStep(t, cs, n);
    if Render(ReplaceFirst(t, cs).value) == Render(cs) {
      SameTextSameWeight(t, ReplaceFirst(t, cs).value, cs, n);
    }
  }

  lemma ExpandDone(t: Table, cs: seq<Chunk>, budget: nat)
    requires Plain(cs) && (ReplaceFirst(t, cs).None? || budget == 0)
    ensures ExpandWithin(RenderTable(t), Render(cs), budget) == Render(cs)
  {
    ScanReplacesFirst(t, cs);
  }

  lemma ExpandUnfold(vars: Variables, s: string, next: string, budget: nat, less: nat)
    requires Substitute(vars, s) == Some(next) && next != s && budget == less + 1
    ensures ExpandWithin(vars, s, budget) == ExpandWithin(vars, next, less)
  {
    assert budget - 1 == less;
  }

  /** One iteration of the expander on a plain text. */
  lemma ExpandStep(t: Table, cs: seq<Chunk>, next: seq<Chunk>, n: nat, budget: nat, less: nat)
    requires PlainTable(t) && Plain(cs) && RankAtMost(t, cs, n) && budget == less + 1
    requires ReplaceFirst(t, cs) == Some(next)
    ensures ExpandWithin(RenderTable(t), Render(cs), budget) == ExpandWithin(RenderTable(t), Render(next), less)
  {
    ScanReplacesFirst(t, cs);
    SubstitutionChanges(t, cs, n);
    ExpandUnfold(RenderTable(t), Render(cs), Render(next), budget, less);
  }

  /** Within a budget the result is the full expansion exactly when the weight fits the budget. */
  lemma {:induction false} ExpandIsFullIff(t: Table, cs: seq<Chunk>, n: nat, budget: nat)
    requires PlainTable(t) && Plain(cs) && RankAtMost(t, cs, n)
    ensures ExpandWithin(RenderTable(t), Render(cs), budget) == Render(Full(t, cs, n)) <==> Weight(t, cs, n) <= budget
    decreases budget
  {
    ReplaceFirstStep(t, cs, n);
    if Expanded(t, cs) {
      ExpandDone(t, cs, budget);
      ExpandedIsFull(t, cs, n);
    } else {
      UnexpandedIsNotFull(t, cs, n);
      if budget == 0 {
        ExpandDone(t, cs, 0);
      } else {
        var next, less: nat := ReplaceFirst(t, cs).value, budget - 1;
        ExpandStep(t, cs, next, n, budget, less);
        ExpandIsFullIff(t, next, n, less);
      }
    }
  }

  lemma UnexpandedIsNotFull(t: Table, cs: seq<Chunk>, n: nat)
    requires PlainTable(t) && Plain(cs) && RankAtMost(t, cs, n) && !Expanded(t, cs)
    ensures Render(cs) != Render(Full(t, cs, n)) && Weight(t, cs, n) > 0
  {
    if Weight(t, cs, n) == 0 {
      WeightlessIsExpanded(t, cs, n);
    }
    FullIsPlain(t, cs, n);
    FullIsExpanded(t, cs, n);
    ExpandedIsFull(t, Full(t, cs, n), n);
    if Render(cs) == Render(Full(t, cs, n)) {
      SameTextSameWeight(t, cs, Full(t, cs, n), n);
    }
  }

  /** The expander as written, with its budget of 100, on tables where no cycle can be reached. */
  lemma ExpanderIsExactUpTo100(t: Table, cs: seq<Chunk>, n: nat)
    requires PlainTable(t) && Plain(cs) && RankAtMost(t, cs, n)
    ensures ExpandWithin(RenderTable(t), Render(cs), MAX_ITERATIONS) == Render(Full(t, cs, n))
            <==> Weight(t, cs, n) <= 100
  {
    ExpandIsFullIff(t, cs, n, MAX_ITERATIONS);
  }

  /** In a reference inside a reference the name ends at the first closing brace and begins after the
      first opening one: "${x" is looked up, and x is not. */
  lemma NestedReferenceIff(vars: Variables, x: string)
    requires PlainName(x)
    ensures var s, name := "${${" + x + "}}", "${" + x;
            && (Substitute(vars, s) == None <==> name !in vars)
            && (name in vars ==> Substitute(vars, s) == Some(vars[name] + "}"))
  {
    var s, name := "${${" + x + "}}", "${" + x;
    assert s[2..] == name + ("}" + "}");
    FindCloseAfterName(name, "}");
    assert s[2..][..|name|] == name && s[2..][|name| + 1..] == "}";
    assert Substitute(vars, "}") == None;
  }

  lemma NestedReferenceStays(vars: Variables, x: string, budget: nat)
    requires PlainName(x) && "${" + x !in vars
    ensures ExpandWithin(vars, "${${" + x + "}}", budget) == "${${" + x + "}}"
  {
    NestedReferenceIff(vars, x);
  }

  /** With A = "B" and B = "value" the text ${${A}} stays as it is. */
  lemma NestedReferenceExample(vars: Variables, s: string, budget: nat)
    requires vars == map["A" := "B", "B" := "value"] && s == "${${A}}"
    ensures ExpandWithin(vars, s, budget) == s != "value"
  {
    var x := "A";
    assert s == "${${" + x + "}}";
    assert |"${" + x| == 3;
    NestedReferenceStays(vars, x, budget);
  }

  // ---- What the searches find ----

  lemma PairAtStart(s: string, part: string)
    requires |part| == 2
    ensures OccursAt(s, part, 0) <==> |s| >= 2 && s[0] == part[0] && s[1] == part[1]
  {
    if |s| >= 2 {
      assert s[0..2] == [s[0], s[1]] && part == [part[0], part[1]];
    }
  }

  /** The search for an opening finds the first "${". */
  lemma {:induction false} FindOpenIsFirst(s: string, open: string)
    requires open == "${"
    ensures FindOpen(s).Some? ==> FirstAt(s, open, FindOpen(s).value)
    ensures FindOpen(s).None? ==> forall i: nat :: !OccursAt(s, open, i)
  {
    PairAtStart(s, open);
    if |s| >= 2 && !OccursAt(s, open, 0) {
      FindOpenIsFirst(s[1..], open);
      if FindOpen(s[1..]).Some? {
        FirstLater(s, open, FindOpen(s[1..]).value, FindOpen(s).value);
      } else {
        NoneLater(s, open);
      }
    }
  }

  /** The search for a default finds the first ":-". */
  lemma {:induction false} FindDefaultIsFirst(s: string, mark: string)
    requires mark == ":-"
    ensures FindDefault(s).Some? ==> FirstAt(s, mark, FindDefault(s).value)
    ensures FindDefault(s).None? ==> forall i: nat :: !OccursAt(s, mark, i)
  {
    PairAtStart(s, mark);
    if |s| >= 2 && !OccursAt(s, mark, 0) {
      FindDefaultIsFirst(s[1..], mark);
      if FindDefault(s[1..]).Some? {
        FirstLater(s, mark, FindDefault(s[1..]).value, FindDefault(s).value);
      } else {
        NoneLater(s, mark);
      }
    }
  }

  /** The search for a closing brace finds the first one. */
  lemma {:induction false} FindCloseIsFirst(s: string)
    ensures FindClose(s).Some? ==> s[FindClose(s).value] == '}' && '}' !in s[..FindClose(s).value]
    ensures FindClose(s).None? ==> '}' !in s
  {
    if s != "" && s[0] != '}' {
      FindCloseIsFirst(s[1..]);
      if FindClose(s).Some? {
        var n := FindClose(s).value;
        assert s[..n] == [s[0]] + s[1..][..n - 1];
      } else {
        assert s == [s[0]] + s[1..];
      }
    }
  }

  // ---- The resolver with a budget of rounds ----

  function ValueIn(t: Table, x: string): Option<string> {
    if x in t then Some(Render(t[x])) else None
  }

  /** For every reference of the text the resolver finds the value that t has for it. */
  ghost predicate Finds(vars: Variables, t: Table, cs: seq<Chunk>) {
    forall c :: c in cs && c.Ref? ==> ValueOf(vars, c.name) == ValueIn(t, c.name)
  }

  ghost predicate FindsIn(vars: Variables, t: Table) {
    forall k :: k in t ==> Finds(vars, t, t[k])
  }

  /** One round on chunks. */
  function RewriteChunks(t: Table, names: seq<string>, cs: seq<Chunk>): seq<Chunk> {
    if names == [] then cs
    else
      var front := RewriteChunks(t, names[..|names| - 1], cs);
      var x := names[|names| - 1];
      if x in t then ReplaceAll(front, x, t[x]) else front
  }

  lemma StartsOpen(s: string, from: string)
    requires StartsWith(s, from) && |from| >= 2 && from[0] == '$' && from[1] == '{'
    ensures |s| >= 2 && s[0] == '$' && s[1] == '{'
  {
    assert s[0] == s[..|from|][0] && s[1] == s[..|from|][1];
  }

  lemma {:induction false} ReplaceSkips(text: string, rest: string, from: string, to': string)
    requires |from| >= 2 && from[0] == '$' && from[1] == '{' && PlainText(text)
    ensures Replace(text + rest, from, to') == text + Replace(rest, from, to')
  {
    if text == "" {
      assert text + rest == rest;
    } else {
      var s := text + rest;
      PlainTail(text, rest);
      if StartsWith(s, from) {
        StartsOpen(s, from);
      }
      ReplaceSkips(text[1..], rest, from, to');
    }
  }

  lemma ReferencesDiffer(x: string, y: string, rest: string)
    requires PlainName(x) && PlainName(y) && StartsWith(Reference(y) + rest, Reference(x))
    ensures x == y
  {
    var s := Reference(y) + rest;
    assert s[..|x| + 3] == Reference(x);
    assert Reference(x)[|x| + 2] == '}' && Reference(y)[|y| + 2] == '}';
    assert forall i :: 0 <= i < |x| ==> s[..|x| + 3][i + 2] == x[i];
    assert forall i :: 0 <= i < |y| ==> s[i + 2] == y[i];
    assert s[|x| + 2] == '}' && s[|y| + 2] == '}';
    assert |x| == |y|;
  }

  lemma ReplaceOther(x: string, y: string, rest: string, to': string)
    requires PlainName(x) && PlainName(y) && x != y
    ensures Replace(Reference(y) + rest, Reference(x), to') == Reference(y) + Replace(rest, Reference(x), to')
  {
    var s := Reference(y) + rest;
    var tail := "{" + y + "}";
    if StartsWith(s, Reference(x)) {
      ReferencesDiffer(x, y, rest);
    }
    assert s[0] == '$' && s[1..] == tail + rest;
    ReplaceSkips(tail, rest, Reference(x), to');
    assert Reference(y) == "$" + tail;
  }

  lemma ReplaceSame(x: string, rest: string, to': string)
    ensures Replace(Reference(x) + rest, Reference(x), to') == to' + Replace(rest, Reference(x), to')
  {
    var s := Reference(x) + rest;
    assert s[..|Reference(x)|] == Reference(x) && s[|Reference(x)|..] == rest;
  }

  lemma ReplaceAllRendered(cs: seq<Chunk>, x: string, v: seq<Chunk>)
    requires cs != []
    ensures Render(ReplaceAll(cs, x, v))
            == (if cs[0] == Ref(x) then Render(v) else RenderChunk(cs[0])) + Render(ReplaceAll(cs[1..], x, v))
  {
    RenderAppend(if cs[0] == Ref(x) then v else [cs[0]], ReplaceAll(cs[1..], x, v));
  }

  /** Replacing in the string is replacing the references. */
  lemma {:induction false} ReplaceIsReplaceAll(cs: seq<Chunk>, x: string, v: seq<Chunk>)
    requires Plain(cs) && PlainName(x)
    ensures Replace(Render(cs), Reference(x), Render(v)) == Render(ReplaceAll(cs, x, v))
    decreases |cs|
  {
    if cs != [] {
      RenderFirst(cs);
      PlainParts(cs);
      ReplaceAllRendered(cs, x, v);
      ReplaceIsReplaceAll(cs[1..], x, v);
      var rest := Render(cs[1..]);
      if cs[0].Lit? {
        ReplaceSkips(cs[0].text, rest, Reference(x), Render(v));
      } else if cs[0].name == x {
        ReplaceSame(x, rest, Render(v));
      } else {
        ReplaceOther(x, cs[0].name, rest, Render(v));
      }
    }
  }

  /** What a round keeps while it works through the names, and how far it has come: references that
      were there before and whose turn is still to come may have full rank, all others less. */
  ghost predicate RoundInvariant(t: Table, cs: seq<Chunk>, done: seq<string>, now: seq<Chunk>, n: nat) {
    && Plain(now)
    && RankAtMost(t, now, n)
    && Full(t, now, n) == Full(t, cs, n)
    && forall c :: c in now && Known(t, c) ==> RankAtMost(t, [c], n - 1) || (c in cs && c.name !in done)
  }

  lemma ChunkRank(t: Table, cs: seq<Chunk>, c: Chunk, n: nat)
    requires RankAtMost(t, cs, n) && c in cs
    ensures RankAtMost(t, [c], n)
  {
  }

  lemma RoundStep(t: Table, cs: seq<Chunk>, done: seq<string>, now: seq<Chunk>, x: string, n: nat)
    requires PlainTable(t) && n > 0
    requires RoundInvariant(t, cs, done, now, n) && x in t
    ensures RoundInvariant(t, cs, done + [x], ReplaceAll(now, x, t[x]), n)
  {
    var next := ReplaceAll(now, x, t[x]);
    ReplaceAllKeepsFull(t, now, x, n);
    forall c | c in next
      ensures PlainChunk(c)
      ensures Known(t, c) ==> RankAtMost(t, [c], n) && (RankAtMost(t, [c], n - 1) || (c in cs && c.name !in done + [x]))
    {
      ReplaceAllMembers(now, x, t[x], c);
      if c in now && c != Ref(x) {
        ChunkRank(t, now, c, n);
      } else {
        assert Known(t, Ref(x)) && Ref(x) in now;
        ChunkRank(t, t[x], c, n - 1);
        RankMonotone(t, [c], n - 1, n);
      }
    }
    RankOfChunks(t, next, n);
  }

  lemma RankOfChunks(t: Table, cs: seq<Chunk>, n: nat)
    requires forall c :: c in cs && Known(t, c) ==> RankAtMost(t, [c], n)
    ensures RankAtMost(t, cs, n)
  {
    forall c | c in cs && Known(t, c) ensures n > 0 && RankAtMost(t, t[c.name], n - 1) {
      assert c in [c];
    }
  }

  lemma {:induction false} RoundKeepsInvariant(t: Table, cs: seq<Chunk>, names: seq<string>, n: nat)
    requires PlainTable(t) && Plain(cs) && RankAtMost(t, cs, n) && n > 0
    ensures RoundInvariant(t, cs, names, RewriteChunks(t, names, cs), n)
    decreases |names|
  {
    if names != [] {
      var front, x := names[..|names| - 1], names[|names| - 1];
      RoundKeepsInvariant(t, cs, front, n);
      assert names == front + [x];
      if x in t {
        RoundStep(t, cs, front, RewriteChunks(t, front, cs), x, n);
      }
    }
  }

  lemma {:induction false} RewriteIsRewriteChunks(vars: Variables, t: Table, cs: seq<Chunk>, names: seq<string>, n: nat)
    requires PlainTable(t) && Plain(cs) && RankAtMost(t, cs, n) && n > 0
    requires forall x :: x in names ==> PlainName(x) && ValueOf(vars, x) == ValueIn(t, x)
    ensures Rewrite(vars, names, Render(cs)) == Render(RewriteChunks(t, names, cs))
    decreases |names|
  {
    if names != [] {
      var front, x := names[..|names| - 1], names[|names| - 1];
      RewriteIsRewriteChunks(vars, t, cs, front, n);
      RoundKeepsInvariant(t, cs, front, n);
      assert x in names;
      if x in t {
        ReplaceIsReplaceAll(RewriteChunks(t, front, cs), x, t[x]);
      }
    }
  }

  /** A full round on chunks. */
  function Round(t: Table, cs: seq<Chunk>): seq<Chunk> {
    RewriteChunks(t, Names(cs), cs)
  }

  /** A round keeps the expansion and lowers the rank. */
  lemma RoundLowersRank(t: Table, cs: seq<Chunk>, n: nat)
    requires PlainTable(t) && Plain(cs) && RankAtMost(t, cs, n) && n > 0
    ensures Plain(Round(t, cs))
    ensures RankAtMost(t, Round(t, cs), n - 1) && Full(t, Round(t, cs), n - 1) == Full(t, cs, n)
  {
    var next := Round(t, cs);
    RoundKeepsInvariant(t, cs, Names(cs), n);
    forall c | c in next && Known(t, c) ensures RankAtMost(t, [c], n - 1) {
      if c in cs {
        NamesMember(cs, c.name);
      }
    }
    RankOfChunks(t, next, n - 1);
    FullStable(t, next, n - 1, n);
  }

  lemma {:induction false} SameNamesSameRank(t: Table, cs: seq<Chunk>, ds: seq<Chunk>, n: nat)
    requires Names(cs) == Names(ds) && RankAtMost(t, cs, n)
    ensures RankAtMost(t, ds, n)
  {
    forall c | c in ds && Known(t, c) ensures RankAtMost(t, [c], n) {
      NamesMember(ds, c.name);
      NamesMember(cs, c.name);
      ChunkRank(t, cs, c, n);
    }
    RankOfChunks(t, ds, n);
  }

  /** What a round puts into the text comes from the table. */
  lemma {:induction false} RewriteKeepsFinds(vars: Variables, t: Table, names: seq<string>, cs: seq<Chunk>)
    requires FindsIn(vars, t) && Finds(vars, t, cs)
    ensures Finds(vars, t, RewriteChunks(t, names, cs))
    decreases |names|
  {
    if names != [] {
      var front, x := RewriteChunks(t, names[..|names| - 1], cs), names[|names| - 1];
      RewriteKeepsFinds(vars, t, names[..|names| - 1], cs);
      if x in t {
        forall c | c in ReplaceAll(front, x, t[x]) && c.Ref? ensures ValueOf(vars, c.name) == ValueIn(t, c.name) {
          ReplaceAllMembers(front, x, t[x], c);
          assert c in front || (c in t[x] && Finds(vars, t, t[x]));
        }
      }
    }
  }

  /** A text that a round leaves as it is has rank zero. */
  lemma {:induction false} FixpointHasNoRank(t: Table, cs: seq<Chunk>, n: nat)
    requires PlainTable(t) && Plain(cs) && RankAtMost(t, cs, n)
    requires Render(Round(t, cs)) == Render(cs)
    ensures Expanded(t, cs)
    decreases n
  {
    if n > 0 {
      RoundLowersRank(t, cs, n);
      SameTextSameNames(Round(t, cs), cs);
      SameNamesSameRank(t, Round(t, cs), cs, n - 1);
      FixpointHasNoRank(t, cs, n - 1);
    }
  }

  lemma NamesArePlain(vars: Variables, t: Table, cs: seq<Chunk>)
    requires Plain(cs) && Finds(vars, t, cs)
    ensures forall x :: x in Names(cs) ==> PlainName(x) && ValueOf(vars, x) == ValueIn(t, x)
  {
    forall x | x in Names(cs) ensures PlainName(x) && ValueOf(vars, x) == ValueIn(t, x) {
      NamesMember(cs, x);
      assert PlainChunk(Ref(x)) && Ref(x).Ref?;
    }
  }

  lemma ExpandedHasNoValue(vars: Variables, t: Table, cs: seq<Chunk>)
    requires Plain(cs) && Finds(vars, t, cs)
    ensures AnyValue(vars, Names(cs)) <==> !Expanded(t, cs)
  {
    NamesArePlain(vars, t, cs);
    forall x ensures x in Names(cs) <==> Ref(x) in cs {
      NamesMember(cs, x);
    }
    if AnyValue(vars, Names(cs)) {
      var x :| x in Names(cs) && ValueOf(vars, x).Some?;
      assert Known(t, Ref(x));
    }
    if !Expanded(t, cs) {
      var c :| c in cs && Known(t, c);
      assert c == Ref(c.name) && c.name in Names(cs) && ValueOf(vars, c.name).Some?;
    }
  }

  lemma {:induction false} NoValueNoChange(vars: Variables, names: seq<string>, s: string)
    requires !AnyValue(vars, names)
    ensures Rewrite(vars, names, s) == s
    decreases |names|
  {
    if names != [] {
      var front := names[..|names| - 1];
      assert forall x :: x in front ==> x in names;
      assert names[|names| - 1] in names;
      NoValueNoChange(vars, front, s);
    }
  }

  /** An expanded text is left alone. */
  lemma ResolveDone(vars: Variables, t: Table, cs: seq<Chunk>, budget: nat)
    requires Plain(cs) && Finds(vars, t, cs) && (Expanded(t, cs) || budget == 0)
    ensures ResolveWithin(vars, Render(cs), budget) == Render(cs)
  {
    CapturesAreNames(cs);
    if Expanded(t, cs) {
      ExpandedHasNoValue(vars, t, cs);
      NoValueNoChange(vars, Names(cs), Render(cs));
    }
  }

  lemma ResolveUnfold(vars: Variables, s: string, next: string, budget: nat, less: nat)
    requires AnyValue(vars, Captures(s)) && next == Rewrite(vars, Captures(s), s) && next != s && budget == less + 1
    ensures ResolveWithin(vars, s, budget) == ResolveWithin(vars, next, less)
  {
    assert budget - 1 == less;
  }

  /** One round of the resolver on a plain text. */
  lemma ResolveStep(vars: Variables, t: Table, cs: seq<Chunk>, n: nat, next: seq<Chunk>, budget: nat, less: nat)
    requires PlainTable(t) && Plain(cs) && Finds(vars, t, cs) && RankAtMost(t, cs, n)
    requires !Expanded(t, cs) && next == Round(t, cs) && budget == less + 1
    ensures ResolveWithin(vars, Render(cs), budget) == ResolveWithin(vars, Render(next), less)
  {
    CapturesAreNames(cs);
    ExpandedHasNoValue(vars, t, cs);
    NamesArePlain(vars, t, cs);
    RewriteIsRewriteChunks(vars, t, cs, Names(cs), n);
    if Render(next) == Render(cs) {
      FixpointHasNoRank(t, cs, n);
    }
    ResolveUnfold(vars, Render(cs), Render(next), budget, less);
  }

  /** The chunks after a number of rounds. */
  function Rounds(t: Table, cs: seq<Chunk>, k: nat): seq<Chunk>
    decreases k
  {
    if k == 0 then cs else Rounds(t, Round(t, cs), k - 1)
  }

  lemma {:induction false} UnknownNamesStay(t: Table, names: seq<string>, cs: seq<Chunk>)
    requires forall x :: x in names ==> x !in t
    ensures RewriteChunks(t, names, cs) == cs
    decreases |names|
  {
    if names != [] {
      assert names[|names| - 1] in names;
      UnknownNamesStay(t, names[..|names| - 1], cs);
    }
  }

  lemma {:induction false} ExpandedStays(t: Table, cs: seq<Chunk>, k: nat)
    requires Expanded(t, cs)
    ensures Rounds(t, cs, k) == cs
  {
    if k > 0 {
      forall x | x in Names(cs) ensures x !in t {
        NamesMember(cs, x);
        assert x in t ==> Known(t, Ref(x));
      }
      UnknownNamesStay(t, Names(cs), cs);
      ExpandedStays(t, cs, k - 1);
    }
  }

  lemma RoundsStep(t: Table, cs: seq<Chunk>, next: seq<Chunk>, budget: nat, less: nat)
    requires next == Round(t, cs) && budget == less + 1
    ensures Rounds(t, cs, budget) == Rounds(t, next, less)
  {
    assert budget - 1 == less;
  }

  /** The result is the full expansion exactly if that many rounds leave nothing known. */
  lemma {:induction false} ResolveIsFullIff(vars: Variables, t: Table, cs: seq<Chunk>, n: nat, budget: nat)
    requires PlainTable(t) && FindsIn(vars, t) && Plain(cs) && Finds(vars, t, cs) && RankAtMost(t, cs, n)
    ensures ResolveWithin(vars, Render(cs), budget) == Render(Full(t, cs, n)) <==> Expanded(t, Rounds(t, cs, budget))
    decreases budget
  {
    if Expanded(t, cs) {
      ResolveDone(vars, t, cs, budget);
      ExpandedIsFull(t, cs, n);
      ExpandedStays(t, cs, budget);
    } else if budget == 0 {
      ResolveDone(vars, t, cs, budget);
      UnexpandedIsNotFull(t, cs, n);
    } else {
      var next, less: nat := Round(t, cs), budget - 1;
      RoundLowersRank(t, cs, n);
      RewriteKeepsFinds(vars, t, Names(cs), cs);
      ResolveIsFullIff(vars, t, next, n - 1, less);
      ResolveStep(vars, t, cs, n, next, budget, less);
      RoundsStep(t, cs, next, budget, less);
    }
  }

  lemma {:induction false} RankBoundsRounds(t: Table, cs: seq<Chunk>, n: nat, budget: nat)
    requires PlainTable(t) && Plain(cs) && RankAtMost(t, cs, n) && n <= budget
    ensures Expanded(t, Rounds(t, cs, budget))
    decreases budget
  {
    if Expanded(t, cs) {
      ExpandedStays(t, cs, budget);
    } else {
      var next, less: nat := Round(t, cs), budget - 1;
      RoundLowersRank(t, cs, n);
      RankBoundsRounds(t, next, n - 1, less);
      RoundsStep(t, cs, next, budget, less);
    }
  }
}
