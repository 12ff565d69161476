/** What splitting makes of an argument list that is written with quotes and nested calls. */
module ArgumentTheorems {
  import opened Text
  import opened Wrappers
  import opened FunctionArgs
  import opened WordTheorems

  // ---- Written arguments ----

  /** A piece of Python code: runs of ordinary characters, quoted texts and parenthesised pieces, one
      after the other. */
  datatype Code =
    | End
    | Run(text: string, rest: Code)
    | Quoted(double: bool, text: string, rest: Code)
    | Group(inside: Code, rest: Code)

  function Mark(double: bool): char {
    if double then '"' else '\''
  }

  function Print(c: Code): string {
    match c
    case End => ""
    case Run(text, rest) => text + Print(rest)
    case Quoted(double, text, rest) => [Mark(double)] + (text + ([Mark(double)] + Print(rest)))
    case Group(inside, rest) => "(" + (Print(inside) + (")" + Print(rest)))
  }

  /** Runs have no quotes and no parentheses, and no commas unless they are inside parentheses; a
      quoted text does not have its own mark. */
  ghost predicate Fits(c: Code, top: bool) {
    match c
    case End => true
    case Run(text, rest) => IsRun(text, top) && Fits(rest, top)
    case Quoted(double, text, rest) => Mark(double) !in text && Fits(rest, top)
    case Group(inside, rest) => Fits(inside, false) && Fits(rest, top)
  }

  ghost predicate IsRun(text: string, top: bool) {
    text != "" && forall ch :: ch in text ==> ch !in {'\'', '"', '(', ')'} && (top ==> ch != ',')
  }

  ghost predicate AreGaps(s: string) {
    forall ch :: ch in s ==> ch == ' ' || ch == '\t'
  }

  /** One argument, after spaces and tabs. */
  datatype Arg = Arg(gap: string, code: Code)

  ghost predicate FitsArg(a: Arg) {
    && AreGaps(a.gap) && Fits(a.code, true)
    && (a.code.Run? ==> a.code.text[0] != ' ' && a.code.text[0] != '\t')
  }

  ghost predicate FitArgs(args: seq<Arg>) {
    forall a :: a in args ==> FitsArg(a)
  }

  function PrintArgs(args: seq<Arg>): string {
    if args == [] then ""
    else if |args| == 1 then args[0].gap + Print(args[0].code)
    else args[0].gap + (Print(args[0].code) + ("," + PrintArgs(args[1..])))
  }

  // ---- What they are read as ----

  /** The text of an argument: quoted texts without their marks, everything in parentheses as it stands. */
  function Value(c: Code): string {
    match c
    case End => ""
    case Run(text, rest) => text + Value(rest)
    case Quoted(_, text, rest) => text + Value(rest)
    case Group(inside, rest) => "(" + Print(inside) + ")" + Value(rest)
  }

  predicate HasQuoted(c: Code) {
    match c
    case End => false
    case Run(_, rest) => HasQuoted(rest)
    case Quoted(_, _, _) => true
    case Group(_, rest) => HasQuoted(rest)
  }

  /** Whitespace at the end is lost, unless the argument is quoted and has nothing else. */
  ghost function Read(c: Code): string {
    if HasQuoted(c) && AllBlank(Value(c)) then Value(c) else TrimEnd(Value(c))
  }

  ghost function ReadArgs(args: seq<Arg>): seq<string> {
    if args == [] then [] else [Read(args[0].code)] + ReadArgs(args[1..])
  }

  // ---- The closing parenthesis of a printed call ----

  lemma {:induction false} ClosingSkipsText(text: string, rest: string, depth: int, single: bool, double: bool)
    requires !(single && double)
    requires single ==> '\'' !in text
    requires double ==> '"' !in text
    requires !single && !double ==> forall ch :: ch in text ==> ch !in {'\'', '"', '(', ')'}
    ensures ClosingFrom(text + rest, depth, single, double) == Moved(ClosingFrom(rest, depth, single, double), |text|)
  {
    if text == "" {
      assert text + rest == rest;
    } else {
      assert (text + rest)[0] == text[0] && (text + rest)[1..] == text[1..] + rest && text[0] in text;
      assert forall ch :: ch in text[1..] ==> ch in text;
      ClosingSkipsText(text[1..], rest, depth, single, double);
    }
  }

  lemma ClosingStep(s: string, ch: char, rest: string, depth: int)
    requires s == [ch] + rest
    ensures ch == '(' ==> ClosingFrom(s, depth, false, false) == Moved(ClosingFrom(rest, depth + 1, false, false), 1)
    ensures ch == ')' && depth != 1 ==> ClosingFrom(s, depth, false, false) == Moved(ClosingFrom(rest, depth - 1, false, false), 1)
    ensures ch == ')' && depth == 1 ==> ClosingFrom(s, depth, false, false) == Some(0)
    ensures ch == ',' ==> ClosingFrom(s, depth, false, false) == Moved(ClosingFrom(rest, depth, false, false), 1)
    ensures ch == '\'' ==> ClosingFrom(s, depth, false, false) == Moved(ClosingFrom(rest, depth, true, false), 1)
    ensures ch == '\'' ==> ClosingFrom(s, depth, true, false) == Moved(ClosingFrom(rest, depth, false, false), 1)
    ensures ch == '"' ==> ClosingFrom(s, depth, false, false) == Moved(ClosingFrom(rest, depth, false, true), 1)
    ensures ch == '"' ==> ClosingFrom(s, depth, false, true) == Moved(ClosingFrom(rest, depth, false, false), 1)
  {
    assert s[0] == ch && s[1..] == rest;
  }

  lemma ClosingSkipsQuoted(double: bool, text: string, rest: string, depth: int)
    requires Mark(double) !in text
    ensures ClosingFrom([Mark(double)] + (text + ([Mark(double)] + rest)), depth, false, false)
            == Moved(ClosingFrom(rest, depth, false, false), |text| + 2)
  {
    var m := Mark(double);
    var tail := [m] + rest;
    ClosingStep([m] + (text + tail), m, text + tail, depth);
    ClosingSkipsText(text, tail, depth, !double, double);
    ClosingStep(tail, m, rest, depth);
  }

  lemma Assoc(a: string, b: string, c: string)
    ensures (a + b) + c == a + (b + c)
  {
  }

  /** A quoted or a parenthesised text, and what follows. */
  lemma Assoc4(a: string, b: string, c: string, d: string, e: string)
    ensures (a + (b + (c + d))) + e == a + (b + (c + (d + e)))
  {
    Assoc(c, d, e);
    Assoc(b, c + d, e);
    Assoc(a, b + (c + d), e);
  }

  /** A text is passed over by the search at this depth. */
  ghost predicate Skipped(text: string, rest: string, depth: int) {
    ClosingFrom(text + rest, depth, false, false) == Moved(ClosingFrom(rest, depth, false, false), |text|)
  }

  lemma SkippedRun(text: string, more: string, rest: string, depth: int, whole: string)
    requires (forall ch :: ch in text ==> ch !in {'\'', '"', '(', ')'}) && Skipped(more, rest, depth) && whole == text + more
    ensures Skipped(whole, rest, depth)
  {
    Assoc(text, more, rest);
    ClosingSkipsText(text, more + rest, depth, false, false);
  }

  lemma SkippedQuoted(double: bool, text: string, more: string, rest: string, depth: int, whole: string)
    requires Mark(double) !in text && Skipped(more, rest, depth)
    requires whole == [Mark(double)] + (text + ([Mark(double)] + more))
    ensures Skipped(whole, rest, depth)
  {
    Assoc4([Mark(double)], text, [Mark(double)], more, rest);
    ClosingSkipsQuoted(double, text, more + rest, depth);
  }

  lemma SkippedGroup(inside: string, more: string, rest: string, depth: int, whole: string)
    requires depth >= 1 && Skipped(inside, ")" + (more + rest), depth + 1) && Skipped(more, rest, depth)
    requires whole == "(" + (inside + (")" + more))
    ensures Skipped(whole, rest, depth)
  {
    var tail := ")" + (more + rest);
    Assoc4("(", inside, ")", more, rest);
    ClosingStep("(" + (inside + tail), '(', inside + tail, depth);
    ClosingStep(tail, ')', more + rest, depth + 1);
  }

  /** A printed piece is passed over, with its quotes and its parentheses. */
  lemma {:induction false} ClosingSkips(c: Code, top: bool, rest: string, depth: int)
    requires Fits(c, top) && depth >= 1
    ensures Skipped(Print(c), rest, depth)
    decreases c
  {
    match c {
      case End =>
        assert "" + rest == rest;
      case Run(text, more) =>
        ClosingSkips(more, top, rest, depth);
        SkippedRun(text, Print(more), rest, depth, Print(c));
      case Quoted(double, text, more) =>
        ClosingSkips(more, top, rest, depth);
        SkippedQuoted(double, text, Print(more), rest, depth, Print(c));
      case Group(inside, more) =>
        ClosingSkips(inside, false, ")" + (Print(more) + rest), depth + 1);
        ClosingSkips(more, top, rest, depth);
        SkippedGroup(Print(inside), Print(more), rest, depth, Print(c));
    }
  }

  lemma ClosingSkipsArg(a: Arg, rest: string)
    requires FitsArg(a)
    ensures Skipped(a.gap + Print(a.code), rest, 1)
  {
    ClosingSkips(a.code, true, rest, 1);
    SkippedRun(a.gap, Print(a.code), rest, 1, a.gap + Print(a.code));
  }

  lemma SkippedComma(one: string, others: string, rest: string, whole: string)
    requires Skipped(one, "," + (others + rest), 1) && Skipped(others, rest, 1) && whole == one + ("," + others)
    ensures Skipped(whole, rest, 1)
  {
    var tail := "," + (others + rest);
    Assoc(one, "," + others, rest);
    Assoc(",", others, rest);
    ClosingStep(tail, ',', others + rest, 1);
  }

  lemma {:induction false} ClosingSkipsArgs(args: seq<Arg>, rest: string)
    requires FitArgs(args)
    ensures Skipped(PrintArgs(args), rest, 1)
    decreases |args|
  {
    if args == [] {
      assert "" + rest == rest;
    } else if |args| == 1 {
      ClosingSkipsArg(args[0], rest);
    } else {
      var one, others := args[0].gap + Print(args[0].code), PrintArgs(args[1..]);
      ClosingSkipsArg(args[0], "," + (others + rest));
      ClosingSkipsArgs(args[1..], rest);
      Assoc(args[0].gap, Print(args[0].code), "," + others);
      SkippedComma(one, others, rest, PrintArgs(args));
    }
  }

  // ---- The splitter on a printed piece ----

  lemma {:induction false} FeedAppend(at: Splitter, a: string, b: string)
    ensures Feed(at, a + b) == Feed(Feed(at, a), b)
    decreases |a|
  {
    if a == "" {
      assert a + b == b;
    } else {
      assert (a + b)[0] == a[0] && (a + b)[1..] == a[1..] + b;
      FeedAppend(at.Next(a[0]), a[1..], b);
    }
  }

  lemma FeedOne(at: Splitter, ch: char, rest: string)
    ensures Feed(at, [ch] + rest) == Feed(at.Next(ch), rest)
  {
    assert ([ch] + rest)[1..] == rest;
  }

  /** Between the marks every other character is kept. */
  lemma {:induction false} FeedInQuotes(at: Splitter, text: string, double: bool)
    requires Mark(double) !in text && at.double == double && at.single == !double && at.started
    ensures Feed(at, text) == at.(current := at.current + text)
    decreases |text|
  {
    if text == "" {
      assert at.current + text == at.current;
    } else {
      assert text[0] in text;
      FeedInQuotes(at.Next(text[0]), text[1..], double);
      assert at.current + [text[0]] + text[1..] == at.current + text;
    }
  }

  /** Ordinary characters are kept, once the argument has begun. */
  lemma {:induction false} FeedRun(at: Splitter, text: string)
    requires !at.single && !at.double && IsRun(text, at.depth == 0)
    requires at.started || (text[0] != ' ' && text[0] != '\t')
    ensures Feed(at, text) == at.(current := at.current + text, started := true)
    decreases |text|
  {
    assert text[0] in text;
    var next := at.Next(text[0]);
    assert next == at.(current := at.current + [text[0]], started := true);
    if |text| > 1 {
      assert forall ch :: ch in text[1..] ==> ch in text;
      FeedRun(next, text[1..]);
    }
    assert at.current + [text[0]] + text[1..] == at.current + text;
  }

  /** Inside a quoted text; its mark is kept in parentheses only. */
  function Opened(at: Splitter, double: bool): Splitter {
    if at.depth > 0 then at.(single := !double, double := double, current := at.current + [Mark(double)], started := true)
    else at.(single := !double, double := double, started := true, quoted := true)
  }

  /** After a quoted text. */
  function Closed(at: Splitter, double: bool, text: string): Splitter {
    if at.depth > 0 then at.(current := at.current + ([Mark(double)] + (text + [Mark(double)])), started := true)
    else at.(current := at.current + text, started := true, quoted := true)
  }

  lemma MarkOpens(at: Splitter, double: bool)
    requires !at.single && !at.double
    ensures at.Next(Mark(double)) == Opened(at, double)
  {
  }

  lemma MarkCloses(at: Splitter, double: bool, text: string)
    requires !at.single && !at.double
    ensures var open := Opened(at, double); open.(current := open.current + text).Next(Mark(double)) == Closed(at, double, text)
  {
    var m := [Mark(double)];
    Assoc(at.current, m, text);
    Assoc(at.current, m + text, m);
    Assoc(m, text, m);
  }

  /** Marks are kept inside parentheses and dropped outside. */
  lemma FeedQuoted(at: Splitter, double: bool, text: string, rest: string)
    requires !at.single && !at.double && Mark(double) !in text
    ensures Feed(at, [Mark(double)] + (text + ([Mark(double)] + rest))) == Feed(Closed(at, double, text), rest)
  {
    var m, open := Mark(double), Opened(at, double);
    MarkOpens(at, double);
    FeedOne(at, m, text + ([m] + rest));
    FeedAppend(open, text, [m] + rest);
    FeedInQuotes(open, text, double);
    FeedOne(open.(current := open.current + text), m, rest);
    MarkCloses(at, double, text);
  }

  /** What a piece adds to the argument inside parentheses. */
  ghost predicate AddsInside(at: Splitter, text: string, after: Splitter) {
    after == at.(current := at.current + text)
  }

  lemma AddsTwice(at: Splitter, a: string, mid: Splitter, b: string, after: Splitter, both: string)
    requires AddsInside(at, a, mid) && AddsInside(mid, b, after) && both == a + b
    ensures AddsInside(at, both, after)
  {
    assert at.current + a + b == at.current + both;
  }

  lemma {:induction false} FeedInside(at: Splitter, c: Code)
    requires at.depth > 0 && at.started && !at.single && !at.double && Fits(c, false)
    ensures AddsInside(at, Print(c), Feed(at, Print(c)))
    decreases c, 1
  {
    match c {
      case End =>
        assert at.current + "" == at.current;
      case Run(text, more) =>
        FeedAppend(at, text, Print(more));
        FeedRun(at, text);
        FeedInside(Feed(at, text), more);
        AddsTwice(at, text, Feed(at, text), Print(more), Feed(at, Print(c)), Print(c));
      case Quoted(double, text, more) =>
        FeedQuoted(at, double, text, Print(more));
        var closed := Closed(at, double, text);
        FeedInside(closed, more);
        QuotedText(double, text, Print(more));
        AddsTwice(at, [Mark(double)] + (text + [Mark(double)]), closed, Print(more), Feed(at, Print(c)), Print(c));
      case Group(inside, more) =>
        var closed := FeedInnerGroup(at, inside, Print(more), c);
        FeedInside(closed, more);
        GroupText(at.current, Print(inside), Print(more));
        AddsTwice(at, "(" + Print(inside) + ")", closed, Print(more), Feed(at, Print(c)), Print(c));
    }
  }

  /** A group inside parentheses adds itself and leaves the depth as it was. */
  lemma {:induction false} FeedInnerGroup(at: Splitter, inside: Code, rest: string, c: Code) returns (closed: Splitter)
    requires at.depth > 0 && at.started && !at.single && !at.double && Fits(inside, false) && inside < c
    ensures Feed(at, "(" + (Print(inside) + (")" + rest))) == Feed(closed, rest)
    ensures AddsInside(at, "(" + Print(inside) + ")", closed)
    decreases c, 0
  {
    var open := at.(depth := at.depth + 1, current := at.current + "(");
    assert at.Next('(') == open;
    FeedOne(at, '(', Print(inside) + (")" + rest));
    FeedAppend(open, Print(inside), ")" + rest);
    FeedInside(open, inside);
    FeedOne(Feed(open, Print(inside)), ')', rest);
    closed := Feed(open, Print(inside)).Next(')');
    assert at.current + "(" + Print(inside) + ")" == at.current + ("(" + Print(inside) + ")");
  }

  lemma QuotedText(double: bool, text: string, more: string)
    ensures ([Mark(double)] + (text + [Mark(double)])) + more == [Mark(double)] + (text + ([Mark(double)] + more))
  {
  }

  lemma GroupText(a: string, b: string, c: string)
    ensures a + "(" + b + ")" + c == a + ("(" + (b + (")" + c)))
    ensures ("(" + b + ")") + c == "(" + (b + (")" + c))
  {
  }

  lemma GroupOpens(at: Splitter, inside: string)
    requires at.depth == 0 && !at.single && !at.double
    ensures at.Next('(') == at.(depth := 1, current := at.current + "(", started := true)
    ensures at.(depth := 1, current := at.current + "(" + inside, started := true).Next(')')
            == at.(current := at.current + ("(" + inside + ")"), started := true)
  {
    assert at.current + "(" + inside + ")" == at.current + ("(" + inside + ")");
  }

  lemma FeedGroup(at: Splitter, inside: Code, rest: string)
    requires at.depth == 0 && !at.single && !at.double && Fits(inside, false)
    ensures Feed(at, "(" + (Print(inside) + (")" + rest)))
            == Feed(at.(current := at.current + ("(" + Print(inside) + ")"), started := true), rest)
  {
    var open := at.(depth := 1, current := at.current + "(", started := true);
    GroupOpens(at, Print(inside));
    FeedOne(at, '(', Print(inside) + (")" + rest));
    FeedAppend(open, Print(inside), ")" + rest);
    FeedInside(open, inside);
    FeedOne(Feed(open, Print(inside)), ')', rest);
  }

  /** What a piece adds to the argument at top level. */
  ghost predicate Adds(at: Splitter, text: string, quoted: bool, after: Splitter) {
    && after.args == at.args && !after.single && !after.double && after.depth == 0
    && after.current == at.current + text && after.quoted == (at.quoted || quoted)
  }

  lemma {:induction false} FeedTop(at: Splitter, c: Code)
    requires at.depth == 0 && !at.single && !at.double && Fits(c, true)
    requires at.started || (c.Run? ==> c.text[0] != ' ' && c.text[0] != '\t')
    ensures Adds(at, Value(c), HasQuoted(c), Feed(at, Print(c)))
    decreases c
  {
    match c {
      case End =>
      case Run(text, more) =>
        FeedAppend(at, text, Print(more));
        FeedRun(at, text);
        FeedTop(Feed(at, text), more);
        Assoc(at.current, text, Value(more));
      case Quoted(double, text, more) =>
        FeedQuoted(at, double, text, Print(more));
        FeedTop(at.(current := at.current + text, started := true, quoted := true), more);
        Assoc(at.current, text, Value(more));
      case Group(inside, more) =>
        FeedGroup(at, inside, Print(more));
        FeedTop(at.(current := at.current + ("(" + Print(inside) + ")"), started := true), more);
        Assoc(at.current, "(" + Print(inside) + ")", Value(more));
    }
  }

  // ---- The splitter on printed arguments ----

  function Before(done: seq<string>): Splitter {
    Splitter(done, "", false, false, 0, false, false)
  }

  lemma {:induction false} FeedGap(done: seq<string>, gap: string)
    requires AreGaps(gap)
    ensures Feed(Before(done), gap) == Before(done)
  {
    if gap != "" {
      assert gap[0] in gap && forall ch :: ch in gap[1..] ==> ch in gap;
      FeedGap(done, gap[1..]);
    }
  }

  lemma FeedArg(done: seq<string>, a: Arg, rest: string) returns (after: Splitter)
    requires FitsArg(a)
    ensures Feed(Before(done), a.gap + (Print(a.code) + rest)) == Feed(after, rest)
    ensures Adds(Before(done), Value(a.code), HasQuoted(a.code), after) && after.current == Value(a.code)
  {
    FeedAppend(Before(done), a.gap, Print(a.code) + rest);
    FeedGap(done, a.gap);
    FeedAppend(Before(done), Print(a.code), rest);
    FeedTop(Before(done), a.code);
    after := Feed(Before(done), Print(a.code));
    assert "" + Value(a.code) == Value(a.code);
  }

  lemma LastIsBlank(s: string, front: string)
    requires |front| <= |s| && s[..|front|] == front && AllBlank(s)
    ensures front == "" || Blank(front[|front| - 1])
  {
  }

  lemma TrimmedToNothing(s: string)
    ensures Trim(s) == "" <==> AllBlank(s)
    ensures TrimEnd(s) == "" <==> AllBlank(s)
  {
    BlankIsTrimmed(s);
    TrimEndIs(s);
    assert s[0..] == s;
    if AllBlank(s) {
      LastIsBlank(s, TrimEnd(s));
    }
  }

  lemma BlankIsTrimmed(s: string)
    ensures Trim(s) == "" <==> AllBlank(s)
  {
    var lead, trail := TrimIs(s);
    if AllBlank(s) {
      assert s == s + "" + "";
      TrimUnique(s, s, "", "");
    }
    if Trim(s) == "" {
      assert s == lead + trail;
    }
  }

  /** The text of an argument that is over; at the end, a lone argument that is empty is none. */
  lemma ArgumentText(after: Splitter, blank: bool, text: string)
    requires blank == AllBlank(after.current)
    requires text == if after.quoted && blank then after.current else TrimEnd(after.current)
    ensures after.Argument() == text
    ensures after.Result() == if after.args == [] && text == "" then [] else after.args + [text]
  {
    TrimmedToNothing(after.current);
  }

  /** What the splitter has read when an argument is over. */
  lemma ArgumentIsRead(done: seq<string>, c: Code, after: Splitter)
    requires Adds(Before(done), Value(c), HasQuoted(c), after) && after.current == Value(c)
    ensures after.Argument() == Read(c)
    ensures after.Result() == if done == [] && Read(c) == "" then [] else done + [Read(c)]
  {
    assert after.args == done && after.quoted == HasQuoted(c);
    ArgumentText(after, AllBlank(Value(c)), Read(c));
  }

  lemma {:induction false} FeedArgs(done: seq<string>, args: seq<Arg>)
    requires FitArgs(args) && args != []
    ensures Feed(Before(done), PrintArgs(args)).Result()
            == if done == [] && ReadArgs(args) == [""] then [] else done + ReadArgs(args)
    decreases |args|
  {
    var a, tail := args[0], args[1..];
    if |args| == 1 {
      assert tail == [] && ReadArgs(args) == [Read(a.code)];
      assert Print(a.code) + "" == Print(a.code);
      var after := FeedArg(done, a, "");
      ArgumentIsRead(done, a.code, after);
    } else {
      FeedFirstArg(done, a, PrintArgs(tail));
      FeedArgs(done + [Read(a.code)], tail);
      ReadFirst(done, Read(a.code), ReadArgs(tail));
      ReadArgsSize(tail);
    }
  }

  lemma FeedFirstArg(done: seq<string>, a: Arg, others: string)
    requires FitsArg(a)
    ensures Feed(Before(done), a.gap + (Print(a.code) + ("," + others))) == Feed(Before(done + [Read(a.code)]), others)
  {
    var after := FeedArg(done, a, "," + others);
    ArgumentIsRead(done, a.code, after);
    FeedOne(after, ',', others);
    assert after.Next(',') == Before(done + [Read(a.code)]);
  }

  lemma ReadFirst(done: seq<string>, x: string, others: seq<string>)
    ensures (done + [x]) + others == done + ([x] + others) && done + [x] != []
    ensures others != [] ==> [x] + others != [""]
  {
  }

  lemma ReadArgsSize(args: seq<Arg>)
    ensures |ReadArgs(args)| == |args|
  {
  }

  // ---- The theorem ----

  lemma {:induction false} FirstOpenAfterGap(gap: string, rest: string)
    requires '(' !in gap
    ensures IndexOf(gap + ("(" + rest), "(") == Some(|gap|)
  {
    var s := gap + ("(" + rest);
    if gap == "" {
      assert s[..1] == "(";
    } else {
      assert s[0] == gap[0] && s[1..] == gap[1..] + ("(" + rest) && s[..1] == [s[0]];
      FirstOpenAfterGap(gap[1..], rest);
    }
  }

  lemma {:induction false} IndexOfIsFirst(s: string, pattern: string)
    ensures IndexOf(s, pattern).Some? ==> FirstAt(s, pattern, IndexOf(s, pattern).value)
    ensures IndexOf(s, pattern).None? ==> forall i: nat :: !OccursAt(s, pattern, i)
  {
    assert StartsWith(s, pattern) <==> OccursAt(s, pattern, 0);
    if s != "" && !StartsWith(s, pattern) {
      IndexOfIsFirst(s[1..], pattern);
      if IndexOf(s[1..], pattern).Some? {
        FirstLater(s, pattern, IndexOf(s[1..], pattern).value, IndexOf(s, pattern).value);
      } else {
        NoneLater(s, pattern);
      }
    }
  }

  /** A call as it stands in an expression, with anything before and after it. */
  function CallText(before: string, funcName: string, gap: string, args: seq<Arg>, after: string): string {
    before + (funcName + (gap + ("(" + (PrintArgs(args) + (")" + after)))))
  }

  /** The function's name does not begin earlier in the expression, and the parenthesis is the next one. */
  ghost predicate FirstCall(before: string, funcName: string, gap: string, args: seq<Arg>, after: string) {
    FirstAt(CallText(before, funcName, gap, args, after), funcName, |before|) && '(' !in gap
  }

  lemma CallIsFound(before: string, funcName: string, gap: string, args: seq<Arg>, after: string)
    requires FirstCall(before, funcName, gap, args, after) && FitArgs(args)
    ensures CallArgs(CallText(before, funcName, gap, args, after), funcName)
            == Some(Feed(FRESH, PrintArgs(args)).Result())
  {
    var expr, body := CallText(before, funcName, gap, args, after), PrintArgs(args);
    var afterOpen := body + (")" + after);
    FoundAt(expr, funcName, |before|);
    AfterCall(before, funcName, gap, afterOpen, |before| + |funcName|, |gap| + 1);
    FirstOpenAfterGap(gap, afterOpen);
    ClosesAfter(args, after, afterOpen, |body|);
    CallArgsAt(expr, funcName, |before|, gap + ("(" + afterOpen), |gap|, afterOpen, |body|, body);
  }

  lemma FoundAt(expr: string, funcName: string, i: nat)
    requires FirstAt(expr, funcName, i)
    ensures IndexOf(expr, funcName) == Some(i)
  {
    IndexOfIsFirst(expr, funcName);
    FirstIsUnique(expr, funcName, i, IndexOf(expr, funcName).value);
  }

  lemma CallArgsAt(expr: string, funcName: string, start: nat, afterFunc: string, open: nat, afterOpen: string,
                   close: nat, body: string)
    requires IndexOf(expr, funcName) == Some(start) && afterFunc == expr[start + |funcName|..]
    requires IndexOf(afterFunc, "(") == Some(open) && afterOpen == afterFunc[open + 1..]
    requires Closing(afterOpen) == Some(close) && body == afterOpen[..close]
    ensures CallArgs(expr, funcName) == Some(Feed(FRESH, body).Result())
  {
    BracketedAt(afterFunc, open, afterOpen, close, body);
  }

  lemma BracketedAt(s: string, open: nat, afterOpen: string, close: nat, body: string)
    requires IndexOf(s, "(") == Some(open) && afterOpen == s[open + 1..]
    requires Closing(afterOpen) == Some(close) && body == afterOpen[..close]
    ensures BracketedArgs(s) == Some(Feed(FRESH, body).Result())
  {
  }

  lemma AfterCall(before: string, funcName: string, gap: string, afterOpen: string, i: nat, j: nat)
    requires i == |before| + |funcName| && j == |gap| + 1
    ensures (before + (funcName + (gap + ("(" + afterOpen))))[i..] == gap + ("(" + afterOpen)
    ensures (gap + ("(" + afterOpen))[j..] == afterOpen
  {
  }

  lemma ClosesAfter(args: seq<Arg>, after: string, afterOpen: string, close: nat)
    requires FitArgs(args) && close == |PrintArgs(args)| && afterOpen == PrintArgs(args) + (")" + after)
    ensures Closing(afterOpen) == Some(close) && afterOpen[..close] == PrintArgs(args)
  {
    ClosingSkipsArgs(args, ")" + after);
    ClosingStep(")" + after, ')', after, 1);
  }

  /** Reading a written call gives one text per argument, in order: quoted texts without their marks,
      everything else as it stands, with the quotes, commas and parentheses of inner calls.  Only a
      single argument that comes out empty is taken for none. */
  lemma ReadOfPrint(before: string, funcName: string, gap: string, args: seq<Arg>, after: string)
    requires FirstCall(before, funcName, gap, args, after) && FitArgs(args)
    ensures CallArgs(CallText(before, funcName, gap, args, after), funcName)
            == Some(if ReadArgs(args) == [""] then [] else ReadArgs(args))
  {
    CallIsFound(before, funcName, gap, args, after);
    if args == [] {
      assert ReadArgs(args) == [];
    } else {
      FeedArgs([], args);
      assert [] + ReadArgs(args) == ReadArgs(args);
    }
  }

  /** Nothing is read where the name does not occur, where no parenthesis follows its first occurrence,
      and where the parenthesis of a written call is never closed. */
  lemma ReadsNothing(expr: string, funcName: string, before: string, gap: string, args: seq<Arg>)
    requires || (forall i: nat :: !OccursAt(expr, funcName, i))
             || (FirstAt(expr, funcName, |before|) && '(' !in gap && FitArgs(args)
                && (expr == before + (funcName + gap) || expr == before + (funcName + (gap + ("(" + PrintArgs(args))))))
    ensures CallArgs(expr, funcName) == None
  {
    IndexOfIsFirst(expr, funcName);
    if i: nat :| FirstAt(expr, funcName, i) {
      FoundAt(expr, funcName, |before|);
      var n := |before| + |funcName|;
      assert expr[n..] == gap || expr[n..] == gap + ("(" + PrintArgs(args));
      NoParenthesis(gap);
      Unclosed(gap, args);
    }
  }

  lemma NoParenthesis(gap: string)
    requires '(' !in gap
    ensures BracketedArgs(gap) == None
  {
    IndexOfIsFirst(gap, "(");
    forall i: nat ensures !OccursAt(gap, "(", i) {
      if i < |gap| {
        assert gap[i..i + 1] == [gap[i]] && gap[i] in gap;
      }
    }
  }

  lemma Unclosed(gap: string, args: seq<Arg>)
    requires '(' !in gap && FitArgs(args)
    ensures BracketedArgs(gap + ("(" + PrintArgs(args))) == None
  {
    var n := |gap| + 1;
    FirstOpenAfterGap(gap, PrintArgs(args));
    ClosingSkipsArgs(args, "");
    assert PrintArgs(args) + "" == PrintArgs(args);
    assert (gap + ("(" + PrintArgs(args)))[n..] == PrintArgs(args);
  }

  /** Whitespace at the end of a text is what reading can lose. */
  ghost predicate EndsClean(text: string) {
    text == "" || !Blank(text[|text| - 1])
  }

  lemma CleanIsKept(text: string)
    ensures TrimEnd(text) == text <==> EndsClean(text)
  {
    TrimEndIs(text);
    if |TrimEnd(text)| < |text| {
      CutEndsBlank(text, |TrimEnd(text)|);
    }
  }

  lemma CutEndsBlank(text: string, n: nat)
    requires n < |text| && AllBlank(text[n..])
    ensures !EndsClean(text)
  {
    assert text[n..][|text| - n - 1] == text[|text| - 1];
  }

  ghost predicate NothingQuoted(c: Code) {
    match c
    case End => true
    case Run(_, rest) => NothingQuoted(rest)
    case Quoted(_, _, _) => false
    case Group(_, rest) => NothingQuoted(rest)
  }

  lemma {:induction false} BareValue(c: Code)
    requires NothingQuoted(c)
    ensures Value(c) == Print(c) && !HasQuoted(c)
    decreases c
  {
    match c {
      case End =>
      case Run(text, rest) => BareValue(rest);
      case Quoted(_, _, _) =>
      case Group(inside, rest) =>
        BareValue(rest);
        assert "(" + Print(inside) + ")" + Print(rest) == "(" + (Print(inside) + (")" + Print(rest)));
    }
  }

  /** An argument that is one quoted text is read as that text, without the marks: exactly if it ends
      without whitespace or is nothing but whitespace. */
  lemma QuotedReadsBackIff(double: bool, text: string)
    ensures Read(Quoted(double, text, End)) == text <==> AllBlank(text) || EndsClean(text)
  {
    assert Value(Quoted(double, text, End)) == text + "" == text;
    CleanIsKept(text);
  }

  /** An argument with nothing quoted but inside parentheses is read verbatim: exactly if it ends
      without whitespace. */
  lemma BareReadsBackIff(c: Code)
    requires NothingQuoted(c)
    ensures Read(c) == Print(c) <==> EndsClean(Print(c))
  {
    BareValue(c);
    CleanIsKept(Print(c));
  }

  // ---- Lists of quoted texts ----

  /** The texts in single quotes, with a space after every comma. */
  function AsQuoted(texts: seq<string>): (args: seq<Arg>)
    ensures |args| == |texts|
  {
    seq(|texts|, i requires 0 <= i < |texts| => Arg(if i == 0 then "" else " ", Quoted(false, texts[i], End)))
  }

  lemma {:induction false} ReadAt(args: seq<Arg>, i: nat)
    requires i < |args|
    ensures |ReadArgs(args)| == |args| && ReadArgs(args)[i] == Read(args[i].code)
  {
    ReadArgsSize(args);
    if i > 0 {
      ReadAt(args[1..], i - 1);
    }
  }

  /** Quoted texts come back as they were exactly when the list is not a single empty text and every
      text is all whitespace or ends without whitespace. */
  lemma RoundTripIff(before: string, funcName: string, gap: string, texts: seq<string>, after: string)
    requires FirstCall(before, funcName, gap, AsQuoted(texts), after)
    requires forall text :: text in texts ==> '\'' !in text
    ensures CallArgs(CallText(before, funcName, gap, AsQuoted(texts), after), funcName) == Some(texts)
            <==> texts != [""] && forall text :: text in texts ==> AllBlank(text) || EndsClean(text)
  {
    var args := AsQuoted(texts);
    forall a | a in args ensures FitsArg(a) {
    }
    ReadOfPrint(before, funcName, gap, args, after);
    ReadArgsSize(args);
    forall i | 0 <= i < |texts|
      ensures ReadArgs(args)[i] == texts[i] <==> AllBlank(texts[i]) || EndsClean(texts[i])
    {
      ReadAt(args, i);
      QuotedReadsBackIff(false, texts[i]);
    }
    if texts == [""] {
      assert ReadArgs(args)[0] == "";
      assert ReadArgs(args) == [""];
    }
    if ReadArgs(args) == texts {
      forall text | text in texts ensures AllBlank(text) || EndsClean(text) {
        var i :| 0 <= i < |texts| && texts[i] == text;
      }
    }
  }
}
