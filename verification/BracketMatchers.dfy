/**
 cpplint's two multi-line bracket matchers, with all their angle-bracket
 heuristics.  A stack holds real brackets and tentative angle brackets alike.
 */
module BracketMatchers {
  import opened BracketGrammar

  // ---- The text tests that the heuristics use ----

  predicate IsSpace(c: char) {
    c == ' ' || c == '\t' || c == '\n' || c == '\r' || c == '\U{0B}' || c == '\U{0C}'
  }

  predicate IsWord(c: char) {
    'a' <= c <= 'z' || 'A' <= c <= 'Z' || '0' <= c <= '9' || c == '_'
  }

  /** The word "operator" ends just before n, and nothing that continues it to the left. */
  predicate OperatorEndsAt(line: string, n: nat)
    requires n <= |line|
  {
    n >= 8 && line[n - 8] == 'o' && line[n - 7] == 'p' && line[n - 6] == 'e' && line[n - 5] == 'r'
    && line[n - 4] == 'a' && line[n - 3] == 't' && line[n - 2] == 'o' && line[n - 1] == 'r'
    && (n == 8 || !IsWord(line[n - 9]))
  }

  /** The pattern \boperator\s*$ occurs in line[..n]. */
  predicate EndsWithOperator(line: string, n: nat)
    requires n <= |line|
  {
    if n > 0 && IsSpace(line[n - 1]) then EndsWithOperator(line, n - 1) else OperatorEndsAt(line, n)
  }

  lemma OperatorTail(line: string, n: nat)
    requires n <= |line| && EndsWithOperator(line, n)
    ensures n > 0 && (line[n - 1] == 'r' || IsSpace(line[n - 1]))
  {
  }

  // ---- One line, forward ----

  /** The outcome of scanning one line: (pos, None), (-1, None) or (-1, stack). */
  datatype LineResult = Ended(pos: nat) | Broken | Unfinished(stack: string)

  datatype Step = Stop(result: LineResult) | Go(next: int, stack: string)

  /** The stack without the run of a at its top. */
  function DropAngles(stack: string, a: char): string {
    if stack != [] && Last(stack) == a then DropAngles(Init(stack), a) else stack
  }

  /** A '>' at i that the forward scan takes for part of "->" or an operator name. */
  predicate ForwardIgnores(line: string, i: nat)
    requires i < |line|
  {
    i > 0 && (line[i - 1] == '-' || EndsWithOperator(line, i - 1))
  }

  function EndStep(line: string, i: nat, stack: string): Step
    requires i < |line|
  {
    var c := line[i];
    if IsOpener(c) then Go(i + 1, stack + [c])
    else if c == '<' then
      if i > 0 && line[i - 1] == '<' then
        if stack == [] || Last(stack) != '<' then Go(i + 1, stack)
        else if |stack| == 1 then Stop(Broken)
        else Go(i + 1, Init(stack))
      else if i > 0 && EndsWithOperator(line, i) then Go(i + 1, stack)
      else Go(i + 1, stack + ['<'])
    else if IsCloser(c) then
      var kept := DropAngles(stack, '<');
      if kept == [] || !Pairs(Last(kept), c) then Stop(Broken)
      else if |kept| == 1 then Stop(Ended(i + 1))
      else Go(i + 1, Init(kept))
    else if c == '>' then
      if ForwardIgnores(line, i) || stack == [] || Last(stack) != '<' then Go(i + 1, stack)
      else if |stack| == 1 then Stop(Ended(i + 1))
      else Go(i + 1, Init(stack))
    else if c == ';' then
      var kept := DropAngles(stack, '<');
      if kept == [] then Stop(Broken) else Go(i + 1, kept)
    else Go(i + 1, stack)
  }

  function FindEnd(line: string, i: nat, stack: string): (r: LineResult)
    requires i <= |line|
    ensures r.Ended? ==> i < r.pos <= |line|
    decreases |line| - i
  {
    if i == |line| then Unfinished(stack)
    else match EndStep(line, i, stack)
      case Stop(result) => result
      case Go(_, next) => FindEnd(line, i + 1, next)
  }

  method PopAngles(stack: string, a: char) returns (kept: string)
    ensures kept == DropAngles(stack, a)
  {
    kept := stack;
    while kept != [] && Last(kept) == a
      invariant DropAngles(stack, a) == DropAngles(kept, a)
      decreases |kept|
    {
      kept := Init(kept);
    }
  }

  method FindEndOfExpressionInLine(line: string, startpos: nat, start: string) returns (r: LineResult)
    requires startpos <= |line|
    ensures r == FindEnd(line, startpos, start)
  {
    var stack := start;
    for i := startpos to |line|
      invariant FindEnd(line, startpos, start) == FindEnd(line, i, stack)
    {
      var c := line[i];
      if IsOpener(c) {
        stack := stack + [c];
      } else if c == '<' {
        if i > 0 && line[i - 1] == '<' {
          if stack != [] && Last(stack) == '<' {
            stack := Init(stack);
            if stack == [] {
              return Broken;
            }
          }
        } else if i > 0 && EndsWithOperator(line, i) {
        } else {
          stack := stack + ['<'];
        }
      } else if IsCloser(c) {
        stack := PopAngles(stack, '<');
        if stack == [] {
          return Broken;
        }
        if Pairs(Last(stack), c) {
          stack := Init(stack);
          if stack == [] {
            return Ended(i + 1);
          }
        } else {
          return Broken;
        }
      } else if c == '>' {
        if i > 0 && (line[i - 1] == '-' || EndsWithOperator(line, i - 1)) {
        } else if stack != [] && Last(stack) == '<' {
          stack := Init(stack);
          if stack == [] {
            return Ended(i + 1);
          }
        }
      } else if c == ';' {
        stack := PopAngles(stack, '<');
        if stack == [] {
          return Broken;
        }
      }
    }
    return Unfinished(stack);
  }

  // ---- One line, backward ----

  /** The pattern \s>=\s starts at i - 1. */
  predicate IsGreaterEqual(line: string, i: nat)
    requires 0 < i < |line|
  {
    IsSpace(line[i - 1]) && line[i] == '>' && i + 2 < |line| && line[i + 1] == '=' && IsSpace(line[i + 2])
  }

  /** A '>' at i that the backward scan takes for part of "->", " >= " or an operator name. */
  predicate BackwardIgnores(line: string, i: nat)
    requires i < |line|
  {
    line[i] == '>' && i > 0 && (line[i - 1] == '-' || IsGreaterEqual(line, i) || EndsWithOperator(line, i))
  }

  /** The backward scan skips the character at i together with the one before it. */
  predicate Skips(line: string, i: nat)
    requires i < |line|
  {
    BackwardIgnores(line, i) || (line[i] == '<' && i > 0 && line[i - 1] == '<')
  }

  function StartStepOn(c: char, i: nat, stack: string): (r: Step)
    ensures r.Go? ==> r.next == i - 1
  {
    if IsCloser(c) || c == '>' then Go(i - 1, stack + [c])
    else if c == '<' then
      if stack == [] || Last(stack) != '>' then Go(i - 1, stack)
      else if |stack| == 1 then Stop(Ended(i))
      else Go(i - 1, Init(stack))
    else if IsOpener(c) then
      var kept := DropAngles(stack, '>');
      if kept == [] || !Pairs(c, Last(kept)) then Stop(Broken)
      else if |kept| == 1 then Stop(Ended(i))
      else Go(i - 1, Init(kept))
    else if c == ';' then
      var kept := DropAngles(stack, '>');
      if kept == [] then Stop(Broken) else Go(i - 1, kept)
    else Go(i - 1, stack)
  }

  function StartStep(line: string, i: nat, stack: string): (r: Step)
    requires i < |line|
    ensures r.Go? ==> -1 <= r.next < i
  {
    if Skips(line, i) then Go(i - 2, stack) else StartStepOn(line[i], i, stack)
  }

  function FindStart(line: string, i: int, stack: string): (r: LineResult)
    requires -1 <= i < |line|
    ensures r.Ended? ==> r.pos <= i
    decreases i + 1
  {
    if i < 0 then Unfinished(stack)
    else match StartStep(line, i, stack)
      case Stop(result) => result
      case Go(j, next) => FindStart(line, j, next)
  }

  method FindStartOfExpressionInLine(line: string, endpos: int, end: string) returns (r: LineResult)
    requires -1 <= endpos < |line|
    ensures r == FindStart(line, endpos, end)
  {
    var i, stack := endpos, end;
    while i >= 0
      invariant -1 <= i < |line|
      invariant FindStart(line, endpos, end) == FindStart(line, i, stack)
      decreases i
    {
      var c := line[i];
      if IsCloser(c) {
        stack := stack + [c];
      } else if c == '>' {
        if i > 0 && (line[i - 1] == '-' || IsGreaterEqual(line, i) || EndsWithOperator(line, i)) {
          i := i - 1;
        } else {
          stack := stack + ['>'];
        }
      } else if c == '<' {
        if i > 0 && line[i - 1] == '<' {
          i := i - 1;
        } else if stack != [] && Last(stack) == '>' {
          stack := Init(stack);
          if stack == [] {
            return Ended(i);
          }
        }
      } else if IsOpener(c) {
        stack := PopAngles(stack, '>');
        if stack == [] {
          return Broken;
        }
        if Pairs(c, Last(stack)) {
          stack := Init(stack);
          if stack == [] {
            return Ended(i);
          }
        } else {
          return Broken;
        }
      } else if c == ';' {
        stack := PopAngles(stack, '>');
        if stack == [] {
          return Broken;
        }
      }
      i := i - 1;
    }
    return Unfinished(stack);
  }

  // ---- Many lines ----

  /** A position in a list of lines, or the answer that there is none. */
  datatype Place = At(line: nat, pos: nat) | Nowhere

  /** Scanning forward from the start of line l. */
  function CloseFrom(lines: seq<string>, l: nat, stack: string): (r: Place)
    requires l <= |lines|
    ensures r.At? ==> l <= r.line < |lines| && 0 < r.pos <= |lines[r.line]|
    decreases |lines| - l
  {
    if stack == [] || l == |lines| then Nowhere
    else match FindEnd(lines[l], 0, stack)
      case Ended(e) => At(l, e)
      case Broken => Nowhere
      case Unfinished(next) => CloseFrom(lines, l + 1, next)
  }

  /** No expression starts at p: not a bracket, or one of "<<" and "<=". */
  predicate NoStart(line: string, p: nat)
    requires p < |line|
  {
    (!IsOpener(line[p]) && line[p] != '<')
    || (line[p] == '<' && p + 1 < |line| && (line[p + 1] == '<' || line[p + 1] == '='))
  }

  function Close(lines: seq<string>, l: nat, p: nat): (r: Place)
    requires l < |lines| && p < |lines[l]|
    ensures r.At? ==> l <= r.line < |lines| && 0 < r.pos <= |lines[r.line]|
    ensures r.At? && r.line == l ==> p < r.pos
  {
    if NoStart(lines[l], p) then Nowhere
    else match FindEnd(lines[l], p, "")
      case Ended(e) => At(l, e)
      case Broken => Nowhere
      case Unfinished(stack) => CloseFrom(lines, l + 1, stack)
  }

  method CloseExpression(lines: seq<string>, linenum: nat, pos: nat) returns (r: Place)
    requires linenum < |lines| && pos < |lines[linenum]|
    ensures r == Close(lines, linenum, pos)
  {
    var line := lines[linenum];
    if NoStart(line, pos) {
      return Nowhere;
    }
    var result := FindEndOfExpressionInLine(line, pos, "");
    if result.Ended? {
      return At(linenum, result.pos);
    }
    var l := linenum;
    while result.Unfinished? && result.stack != [] && l < |lines| - 1
      invariant linenum <= l < |lines| && !result.Ended?
      invariant Close(lines, linenum, pos) ==
                if result.Unfinished? then CloseFrom(lines, l + 1, result.stack) else Nowhere
      decreases |lines| - l
    {
      l := l + 1;
      result := FindEndOfExpressionInLine(lines[l], 0, result.stack);
      if result.Ended? {
        return At(l, result.pos);
      }
    }
    return Nowhere;
  }

  /** Scanning backward from the end of line n - 1. */
  function ReverseFrom(lines: seq<string>, n: nat, stack: string): (r: Place)
    requires n <= |lines|
    ensures r.At? ==> r.line < n && r.pos < |lines[r.line]|
    decreases n
  {
    if stack == [] || n == 0 then Nowhere
    else match FindStart(lines[n - 1], |lines[n - 1]| - 1, stack)
      case Ended(p) => At(n - 1, p)
      case Broken => Nowhere
      case Unfinished(next) => ReverseFrom(lines, n - 1, next)
  }

  /** The answer of ReverseClose when the scan of line m came to r. */
  function ReverseAfter(lines: seq<string>, m: nat, r: LineResult): Place
    requires m < |lines|
  {
    match r
    case Ended(p) => At(m, p)
    case Broken => Nowhere
    case Unfinished(stack) => ReverseFrom(lines, m, stack)
  }

  function ReverseClose(lines: seq<string>, m: nat, q: nat): (r: Place)
    requires m < |lines| && q < |lines[m]|
    ensures r.At? ==> r.line <= m && r.pos < |lines[r.line]|
  {
    if !IsCloser(lines[m][q]) && lines[m][q] != '>' then Nowhere
    else ReverseAfter(lines, m, FindStart(lines[m], q, ""))
  }

  method ReverseCloseExpression(lines: seq<string>, linenum: nat, pos: nat) returns (r: Place)
    requires linenum < |lines| && pos < |lines[linenum]|
    ensures r == ReverseClose(lines, linenum, pos)
  {
    var line := lines[linenum];
    if !IsCloser(line[pos]) && line[pos] != '>' {
      return Nowhere;
    }
    var result := FindStartOfExpressionInLine(line, pos, "");
    if result.Ended? {
      return At(linenum, result.pos);
    }
    var l := linenum;
    while result.Unfinished? && result.stack != [] && l > 0
      invariant l <= linenum && !result.Ended?
      invariant ReverseClose(lines, linenum, pos) ==
                if result.Unfinished? then ReverseFrom(lines, l, result.stack) else Nowhere
      decreases l
    {
      l := l - 1;
      line := lines[l];
      result := FindStartOfExpressionInLine(line, |line| - 1, result.stack);
      if result.Ended? {
        return At(l, result.pos);
      }
    }
    return Nowhere;
  }
}
