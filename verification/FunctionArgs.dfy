/** Splitting the arguments of a function call in Python text.  Texts are ASCII. */
module FunctionArgs {
  import opened Text
  import opened Wrappers

  // ---- The closing parenthesis ----

  /** The parenthesis that closes `depth` open ones; quoted text is not heeded. */
  function ClosingFrom(s: string, depth: int, single: bool, double: bool): (r: Option<nat>)
    ensures r.Some? ==> r.value < |s|
  {
    if s == "" then None
    else if s[0] == '\'' && !double then Moved(ClosingFrom(s[1..], depth, !single, double), 1)
    else if s[0] == '"' && !single then Moved(ClosingFrom(s[1..], depth, single, !double), 1)
    else if s[0] == '(' && !single && !double then Moved(ClosingFrom(s[1..], depth + 1, single, double), 1)
    else if s[0] == ')' && !single && !double then
      if depth == 1 then Some(0) else Moved(ClosingFrom(s[1..], depth - 1, single, double), 1)
    else Moved(ClosingFrom(s[1..], depth, single, double), 1)
  }

  function Closing(s: string): (r: Option<nat>)
    ensures r.Some? ==> r.value < |s|
  {
    ClosingFrom(s, 1, false, false)
  }

  method FindMatchingParen(s: string) returns (closeParen: Option<nat>)
    ensures closeParen == Closing(s)
  {
    var depth: int, inSingleQuote, inDoubleQuote := 1, false, false;
    assert s[0..] == s;
    for i := 0 to |s|
      invariant Closing(s) == Moved(ClosingFrom(s[i..], depth, inSingleQuote, inDoubleQuote), i)
    {
      var ch := s[i];
      assert s[i..][0] == ch && s[i..][1..] == s[i + 1..];
      if ch == '\'' && !inDoubleQuote {
        inSingleQuote := !inSingleQuote;
      } else if ch == '"' && !inSingleQuote {
        inDoubleQuote := !inDoubleQuote;
      } else if ch == '(' && !inSingleQuote && !inDoubleQuote {
        depth := depth + 1;
      } else if ch == ')' && !inSingleQuote && !inDoubleQuote {
        depth := depth - 1;
        if depth == 0 {
          return Some(i);
        }
      }
    }
    return None;
  }

  // ---- The arguments ----

  /** The splitter between two characters: the argument read so far and the ones before it. */
  datatype Splitter = Splitter(args: seq<string>, current: string, single: bool, double: bool, depth: int,
                               started: bool, quoted: bool)
  {
    /** A quote mark is dropped at top level and kept inside parentheses. */
    function Quote(ch: char): Splitter {
      if depth > 0 then this.(current := current + [ch], started := true) else this.(started := true, quoted := true)
    }

    function Push(ch: char): Splitter {
      this.(current := current + [ch], started := true)
    }

    function Next(ch: char): Splitter {
      if ch == '\'' && !double then this.(single := !single).Quote(ch)
      else if ch == '"' && !single then this.(double := !double).Quote(ch)
      else if ch == '(' && !single && !double then this.(depth := depth + 1).Push(ch)
      else if ch == ')' && !single && !double then this.(depth := depth - 1, current := current + [ch])
      else if ch == ',' && !single && !double && depth == 0 then
        this.(args := args + [Argument()], current := "", started := false, quoted := false)
      else if (ch == ' ' || ch == '\t') && !single && !double && !started then this
      else Push(ch)
    }

    /** Trailing whitespace is dropped, unless the argument is nothing but quoted whitespace. */
    function Argument(): string {
      if quoted && Trim(current) == "" then current else TrimEnd(current)
    }

    /** The arguments at the end of the text. */
    function Result(): seq<string> {
      if current == "" && args == [] then []
      else if quoted && Trim(current) == "" then args + [current]
      else if TrimEnd(current) == "" && args == [] then []
      else args + [TrimEnd(current)]
    }
  }

  const FRESH: Splitter := Splitter([], "", false, false, 0, false, false)

  function Feed(at: Splitter, s: string): Splitter
    decreases |s|
  {
    if s == "" then at else Feed(at.Next(s[0]), s[1..])
  }

  method ParseArgs(argsStr: string) returns (result: seq<string>)
    ensures result == Feed(FRESH, argsStr).Result()
  {
    var args: seq<string>, currentArg: string := [], "";
    var inSingleQuote, inDoubleQuote, parenDepth: int := false, false, 0;
    var argStarted, hadQuotes := false, false;
    assert argsStr[0..] == argsStr;
    for i := 0 to |argsStr|
      invariant Feed(FRESH, argsStr)
                == Feed(Splitter(args, currentArg, inSingleQuote, inDoubleQuote, parenDepth, argStarted, hadQuotes), argsStr[i..])
    {
      var ch := argsStr[i];
      assert argsStr[i..][0] == ch && argsStr[i..][1..] == argsStr[i + 1..];
      if ch == '\'' && !inDoubleQuote {
        inSingleQuote, argStarted := !inSingleQuote, true;
        if parenDepth > 0 { currentArg := currentArg + [ch]; } else { hadQuotes := true; }
      } else if ch == '"' && !inSingleQuote {
        inDoubleQuote, argStarted := !inDoubleQuote, true;
        if parenDepth > 0 { currentArg := currentArg + [ch]; } else { hadQuotes := true; }
      } else if ch == '(' && !inSingleQuote && !inDoubleQuote {
        parenDepth, currentArg, argStarted := parenDepth + 1, currentArg + [ch], true;
      } else if ch == ')' && !inSingleQuote && !inDoubleQuote {
        parenDepth, currentArg := parenDepth - 1, currentArg + [ch];
      } else if ch == ',' && !inSingleQuote && !inDoubleQuote && parenDepth == 0 {
        var result := if hadQuotes && Trim(currentArg) == "" then currentArg else TrimEnd(currentArg);
        args := args + [result];
        currentArg, argStarted, hadQuotes := "", false, false;
      } else if (ch == ' ' || ch == '\t') && !inSingleQuote && !inDoubleQuote && !argStarted {
      } else {
        currentArg, argStarted := currentArg + [ch], true;
      }
    }
    if currentArg != "" || args != [] {
      if hadQuotes && Trim(currentArg) == "" {
        return args + [currentArg];
      }
      var trimmed := TrimEnd(currentArg);
      if trimmed == "" && args == [] {
        return args;
      }
      return args + [trimmed];
    }
    return args;
  }

  // ---- The call ----

  /** The position of the first occurrence of the pattern. */
  function IndexOf(s: string, pattern: string): (r: Option<nat>)
    ensures r.Some? ==> r.value + |pattern| <= |s|
  {
    if StartsWith(s, pattern) then Some(0)
    else if s == "" then None
    else Moved(IndexOf(s[1..], pattern), 1)
  }

  /** The arguments between the first parenthesis and the one that closes it. */
  function BracketedArgs(s: string): Option<seq<string>> {
    match IndexOf(s, "(")
    case None => None
    case Some(open) =>
      var afterOpen := s[open + 1..];
      match Closing(afterOpen)
      case None => None
      case Some(close) => Some(Feed(FRESH, afterOpen[..close]).Result())
  }

  function CallArgs(expr: string, funcName: string): Option<seq<string>> {
    match IndexOf(expr, funcName)
    case None => None
    case Some(start) => BracketedArgs(expr[start + |funcName|..])
  }

  method ParseFunctionArgs(expr: string, funcName: string) returns (args: Option<seq<string>>)
    ensures args == CallArgs(expr, funcName)
  {
    var start := IndexOf(expr, funcName);
    if start.None? {
      return None;
    }
    var afterFunc := expr[start.value + |funcName|..];
    var openParen := IndexOf(afterFunc, "(");
    if openParen.None? {
      return None;
    }
    var afterOpen := afterFunc[openParen.value + 1..];
    var closeParen := FindMatchingParen(afterOpen);
    if closeParen.None? {
      return None;
    }
    var result := ParseArgs(afterOpen[..closeParen.value]);
    return Some(result);
  }
}
