/** The two expanders of ${NAME} references: one substitutes the leftmost known reference up to 100
    times, the other rewrites the whole string in up to 10 rounds. */
module Expansion {
  import opened Text
  import opened Wrappers
  import opened VariableText

  type Variables = map<string, string>

  const MAX_ITERATIONS: nat := 100
  const MAX_DEPTH: nat := 10

  // ---- Searching strings ----

  /** The position of the first "${". */
  function FindOpen(s: string): (r: Option<nat>)
    ensures r.Some? ==> r.value + 2 <= |s| && s[r.value] == '$' && s[r.value + 1] == '{'
  {
    if |s| < 2 then None
    else if s[0] == '$' && s[1] == '{' then Some(0)
    else Moved(FindOpen(s[1..]), 1)
  }

  /** The position of the first '}'. */
  function FindClose(s: string): (r: Option<nat>)
    ensures r.Some? ==> r.value < |s| && s[r.value] == '}'
  {
    if s == "" then None
    else if s[0] == '}' then Some(0)
    else Moved(FindClose(s[1..]), 1)
  }

  function Reference(name: string): string {
    "${" + name + "}"
  }

  /** All occurrences of a nonempty pattern replaced, from left to right. */
  function Replace(s: string, from: string, to': string): string
    requires from != ""
    decreases |s|
  {
    if s == "" then ""
    else if StartsWith(s, from) then to' + Replace(s[|from|..], from, to')
    else [s[0]] + Replace(s[1..], from, to')
  }

  // ---- VariableExpander ----

  function Prefixed(a: string, r: Option<string>): Option<string> {
    match r case None => None case Some(s) => Some(a + s)
  }

  /** The string after substituting its first known reference, if there is one. */
  function Substitute(vars: Variables, s: string): Option<string>
    decreases |s|
  {
    if |s| < 2 then None
    else if s[0] == '$' && s[1] == '{' then
      match FindClose(s[2..])
      case None => Prefixed("${", Substitute(vars, s[2..]))
      case Some(end) =>
        var name, after := s[2..][..end], s[2..][end + 1..];
        if name in vars then Some(vars[name] + after) else Prefixed(Reference(name), Substitute(vars, after))
    else Prefixed([s[0]], Substitute(vars, s[1..]))
  }

  lemma {:induction false} SkipToOpen(vars: Variables, s: string)
    ensures FindOpen(s).None? ==> Substitute(vars, s).None?
    ensures FindOpen(s).Some? ==>
              Substitute(vars, s) == Prefixed(s[..FindOpen(s).value], Substitute(vars, s[FindOpen(s).value..]))
  {
    if |s| < 2 {
    } else if s[0] == '$' && s[1] == '{' {
      assert s[..0] == "" && s[0..] == s;
      PrefixedByNothing(Substitute(vars, s));
    } else {
      SkipToOpen(vars, s[1..]);
      if FindOpen(s[1..]).Some? {
        var i := FindOpen(s[1..]).value;
        assert s[1..][i..] == s[i + 1..];
        PrefixedTwice([s[0]], s[1..][..i], Substitute(vars, s[i + 1..]));
        assert [s[0]] + s[1..][..i] == s[..i + 1];
      }
    }
  }

  lemma PrefixedByNothing(r: Option<string>)
    ensures Prefixed("", r) == r
  {
    if r.Some? {
      assert "" + r.value == r.value;
    }
  }

  lemma PrefixedTwice(a: string, b: string, r: Option<string>)
    ensures Prefixed(a, Prefixed(b, r)) == Prefixed(a + b, r)
  {
    if r.Some? {
      assert a + (b + r.value) == (a + b) + r.value;
    }
  }

  lemma PrefixedOn(a: string, b: string, joined: string, r: Option<string>, s: Option<string>, whole: Option<string>)
    requires s == Prefixed(b, r) && Prefixed(a, s) == whole && joined == a + b
    ensures Prefixed(joined, r) == whole
  {
    PrefixedTwice(a, b, r);
  }

  lemma SlicesJoin(s: string, i: nat, n: nat, j: nat)
    requires i + n == j <= |s|
    ensures s[..j] == s[..i] + s[i..][..n] && s[i..][n..] == s[j..]
  {
  }

  /** What the scan does with the "${" it has come to. */
  lemma ScanStep(vars: Variables, before: string, pos: nat, start: nat, absStart: nat)
    requires pos <= |before| && FindOpen(before[pos..]) == Some(start) && absStart == pos + start
    requires Prefixed(before[..pos], Substitute(vars, before[pos..])) == Substitute(vars, before)
    ensures Prefixed(before[..absStart], Substitute(vars, before[absStart..])) == Substitute(vars, before)
  {
    var rest := before[pos..];
    SkipToOpen(vars, rest);
    SlicesJoin(before, pos, start, absStart);
    PrefixedOn(before[..pos], rest[..start], before[..absStart], Substitute(vars, rest[start..]),
               Substitute(vars, rest), Substitute(vars, before));
  }

  lemma PassOver(vars: Variables, before: string, at: nat, length: nat, pos: nat)
    requires at + length == pos <= |before|
    requires Substitute(vars, before[at..]) == Prefixed(before[at..][..length], Substitute(vars, before[at..][length..]))
    requires Prefixed(before[..at], Substitute(vars, before[at..])) == Substitute(vars, before)
    ensures Prefixed(before[..pos], Substitute(vars, before[pos..])) == Substitute(vars, before)
  {
    var rest := before[at..];
    SlicesJoin(before, at, length, pos);
    PrefixedOn(before[..at], rest[..length], before[..pos], Substitute(vars, rest[length..]),
               Substitute(vars, rest), Substitute(vars, before));
  }

  lemma SplitReference(s: string, end: nat)
    requires |s| >= 2 && s[0] == '$' && s[1] == '{' && end < |s| - 2 && s[2..][end] == '}'
    ensures s[..end + 3] == Reference(s[2..][..end]) && s[end + 3..] == s[2..][end + 1..]
  {
  }

  /** A closed reference at absStart is substituted if its name is known, and passed over if not. */
  lemma ScanClosed(vars: Variables, before: string, absStart: nat, end: nat, name: string, absEnd: nat, pos: nat)
    requires absEnd == absStart + 2 + end < |before| && pos == absEnd + 1 && name == before[absStart + 2..absEnd]
    requires before[absStart] == '$' && before[absStart + 1] == '{'
    requires FindClose(before[absStart + 2..]) == Some(end)
    requires Prefixed(before[..absStart], Substitute(vars, before[absStart..])) == Substitute(vars, before)
    ensures name in vars ==> Substitute(vars, before) == Some(before[..absStart] + vars[name] + before[pos..])
    ensures name !in vars ==> Prefixed(before[..pos], Substitute(vars, before[pos..])) == Substitute(vars, before)
  {
    var rest := before[absStart..];
    assert rest[2..] == before[absStart + 2..] && rest[2..][..end] == name && rest[2..][end + 1..] == before[pos..];
    if name in vars {
      assert before[..absStart] + (vars[name] + before[pos..]) == before[..absStart] + vars[name] + before[pos..];
    } else {
      SplitReference(rest, end);
      PassOver(vars, before, absStart, end + 3, pos);
    }
  }

  lemma ScanUnclosed(vars: Variables, before: string, absStart: nat, pos: nat)
    requires pos == absStart + 2 <= |before| && before[absStart] == '$' && before[absStart + 1] == '{'
    requires FindClose(before[pos..]) == None
    requires Prefixed(before[..absStart], Substitute(vars, before[absStart..])) == Substitute(vars, before)
    ensures Prefixed(before[..pos], Substitute(vars, before[pos..])) == Substitute(vars, before)
  {
    var rest := before[absStart..];
    assert rest[2..] == before[pos..] && rest[..2] == "${";
    PassOver(vars, before, absStart, 2, pos);
  }

  function ExpandWithin(vars: Variables, s: string, budget: nat): string
    decreases budget
  {
    if budget == 0 then s
    else
      match Substitute(vars, s)
      case None => s
      case Some(next) => if next == s then s else ExpandWithin(vars, next, budget - 1)
  }

  class VariableExpander {
    var variables: Variables

    constructor ()
      ensures variables == map[]
    {
      variables := map[];
    }

    method Set(key: string, value: string)
      modifies this
      ensures variables == old(variables)[key := value]
    {
      variables := variables[key := value];
    }

    method Get(key: string) returns (value: Option<string>)
      ensures value == if key in variables then Some(variables[key]) else None
    {
      value := if key in variables then Some(variables[key]) else None;
    }

    method Expand(input: string) returns (result: string)
      ensures result == ExpandWithin(variables, input, MAX_ITERATIONS)
    {
      result := input;
      var changed, iterations := true, 0;
      while changed && iterations < MAX_ITERATIONS
        invariant 0 <= iterations <= MAX_ITERATIONS
        invariant changed ==> ExpandWithin(variables, result, MAX_ITERATIONS - iterations)
                              == ExpandWithin(variables, input, MAX_ITERATIONS)
        invariant !changed ==> result == ExpandWithin(variables, input, MAX_ITERATIONS)
        decreases MAX_ITERATIONS - iterations
      {
        iterations := iterations + 1;
        var before := result;
        result, changed := SubstituteOne(before);
        if result == before {
          break;
        }
      }
    }

    /** The inner scan: replaces the first known reference it comes to. */
    method SubstituteOne(before: string) returns (result: string, changed: bool)
      ensures changed <==> Substitute(variables, before).Some?
      ensures result == if changed then Substitute(variables, before).value else before
    {
      result, changed := before, false;
      var pos := 0;
      assert before[..0] == "" && before[0..] == before;
      PrefixedByNothing(Substitute(variables, before));
      while true
        invariant pos <= |before| && result == before && !changed
        invariant Prefixed(before[..pos], Substitute(variables, before[pos..])) == Substitute(variables, before)
        decreases |before| - pos
      {
        var start := FindOpen(before[pos..]);
        if start.None? {
          SkipToOpen(variables, before[pos..]);
          break;
        }
        var absStart := pos + start.value;
        ScanStep(variables, before, pos, start.value, absStart);
        var end := FindClose(before[absStart + 2..]);
        if end.Some? {
          var absEnd := absStart + 2 + end.value;
          var name := before[absStart + 2..absEnd];
          pos := absEnd + 1;
          ScanClosed(variables, before, absStart, end.value, name, absEnd, pos);
          if name in variables {
            result := before[..absStart] + variables[name] + before[pos..];
            changed := true;
            break;
          }
        } else {
          pos := absStart + 2;
          ScanUnclosed(variables, before, absStart, pos);
        }
      }
    }
  }

  // ---- SimpleResolver ----

  /** The names matched by the expression \$\{([^}]+)\}, from left to right. */
  function Captures(s: string): seq<string>
    decreases |s|
  {
    if |s| < 2 then []
    else if s[0] == '$' && s[1] == '{' then
      match FindClose(s[2..])
      case None => Captures(s[1..])
      case Some(end) => if end == 0 then Captures(s[1..]) else [s[2..][..end]] + Captures(s[2..][end + 1..])
    else Captures(s[1..])
  }

  /** The position of the first ":-". */
  function FindDefault(s: string): (r: Option<nat>)
    ensures r.Some? ==> r.value + 2 <= |s|
  {
    if |s| < 2 then None
    else if s[0] == ':' && s[1] == '-' then Some(0)
    else Moved(FindDefault(s[1..]), 1)
  }

  /** What a captured name stands for: the variable's value, or the default after ":-". */
  function ValueOf(vars: Variables, name: string): Option<string> {
    var split := FindDefault(name);
    var variable := if split.Some? then name[..split.value] else name;
    if variable in vars then Some(vars[variable])
    else if split.Some? then Some(name[split.value + 2..])
    else None
  }

  /** One round: every captured name in turn, replaced wherever it occurs by now. */
  function Rewrite(vars: Variables, names: seq<string>, s: string): string {
    if names == [] then s
    else
      var front := Rewrite(vars, names[..|names| - 1], s);
      match ValueOf(vars, names[|names| - 1])
      case None => front
      case Some(value) => Replace(front, Reference(names[|names| - 1]), value)
  }

  ghost predicate AnyValue(vars: Variables, names: seq<string>) {
    exists name :: name in names && ValueOf(vars, name).Some?
  }

  ghost function ResolveWithin(vars: Variables, s: string, budget: nat): string
    decreases budget
  {
    if budget == 0 then s
    else
      var names := Captures(s);
      var next := Rewrite(vars, names, s);
      if !AnyValue(vars, names) || next == s then next else ResolveWithin(vars, next, budget - 1)
  }

  class SimpleResolver {
    var variables: Variables

    /** The built-in variables that are derived from the recipe are part of the given map. */
    constructor (variables: Variables)
      ensures this.variables == variables
    {
      this.variables := variables;
    }

    method Set(name: string, value: string)
      modifies this
      ensures variables == old(variables)[name := value]
    {
      variables := variables[name := value];
    }

    method Resolve(input: string) returns (result: string)
      ensures result == ResolveWithin(variables, input, MAX_DEPTH)
    {
      result := input;
      var depth := 0;
      while depth < MAX_DEPTH
        invariant 0 <= depth <= MAX_DEPTH
        invariant ResolveWithin(variables, result, MAX_DEPTH - depth) == ResolveWithin(variables, input, MAX_DEPTH)
        decreases MAX_DEPTH - depth
      {
        var before := result;
        var changed;
        result, changed := RewriteAll(before);
        if !changed || result == before {
          return;
        }
        depth := depth + 1;
      }
    }

    /** One round: replaces every captured reference that has a value. */
    method RewriteAll(before: string) returns (result: string, changed: bool)
      ensures result == Rewrite(variables, Captures(before), before)
      ensures changed <==> AnyValue(variables, Captures(before))
    {
      result, changed := before, false;
      var captures := Captures(before);
      for i := 0 to |captures|
        invariant result == Rewrite(variables, captures[..i], before)
        invariant changed <==> AnyValue(variables, captures[..i])
      {
        var name := captures[i];
        assert captures[..i + 1][..i] == captures[..i] && captures[..i + 1] == captures[..i] + [name];
        var value := ValueOf(variables, name);
        if value.Some? {
          result := Replace(result, Reference(name), value.value);
          changed := true;
        }
      }
      assert captures[..|captures|] == captures;
    }
  }
}
