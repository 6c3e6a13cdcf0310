/**
 What cpplint's matchers answer when they start at an angle bracket.  Which '<'
 and '>' count is written out here character by character; over a text in which
 those that count nest with the real brackets, both matchers find the partner.
 */
module AngleBrackets {
  import opened BracketGrammar
  import opened BracketMatchers

  // ---- The word operator ----

  ghost predicate OperatorBefore(line: string, n: nat, k: nat) {
    k <= n <= |line| && OperatorEndsAt(line, k) && forall i :: k <= i < n ==> IsSpace(line[i])
  }

  /** EndsWithOperator looks for the word, with nothing but white space behind it. */
  lemma {:induction false} OperatorAndSpaces(line: string, n: nat)
    requires n <= |line|
    ensures EndsWithOperator(line, n) <==> exists k :: OperatorBefore(line, n, k)
  {
    if n > 0 && IsSpace(line[n - 1]) {
      OperatorAndSpaces(line, n - 1);
      if EndsWithOperator(line, n - 1) {
        var k :| OperatorBefore(line, n - 1, k);
        assert OperatorBefore(line, n, k);
      }
      forall k | OperatorBefore(line, n, k)
        ensures OperatorBefore(line, n - 1, k)
      {
      }
    } else {
      assert OperatorEndsAt(line, n) ==> OperatorBefore(line, n, n);
    }
  }

  // ---- Forward ----

  /** A letter, or an angle bracket of "->" or of an operator's name. */
  predicate Passed(line: string, i: nat)
    requires i < |line|
  {
    var c := line[i];
    || (!IsOpener(c) && !IsCloser(c) && c != '<' && c != '>' && c != ';')
    || (c == '>' && i > 0 && (line[i - 1] == '-' || EndsWithOperator(line, i - 1)))
    || (c == '<' && i > 0 && line[i - 1] != '<' && EndsWithOperator(line, i))
  }

  predicate OpensList(line: string, i: nat)
    requires i < |line|
  {
    line[i] == '<' && (i == 0 || (line[i - 1] != '<' && !EndsWithOperator(line, i)))
  }

  predicate ClosesList(line: string, i: nat)
    requires i < |line|
  {
    line[i] == '>' && (i == 0 || (line[i - 1] != '-' && !EndsWithOperator(line, i - 1)))
  }

  /** How the text from one position to another is built; close is where a bracket's partner stands. */
  datatype Lists =
    | Nothing
    | Letter(rest: Lists)
    | Shift(rest: Lists)
    | Angle(close: nat, inside: Lists, rest: Lists)
    | Bracket(close: nat, inside: Lists, rest: Lists)

  /** n is the structure of line[i..j]: a '<' that follows another one undoes it. */
  predicate Fits(n: Lists, line: string, i: nat, j: nat)
    requires j <= |line|
  {
    match n
    case Nothing => i == j
    case Letter(rest) => i < j && Passed(line, i) && Fits(rest, line, i + 1, j)
    case Shift(rest) => i + 1 < j && OpensList(line, i) && line[i + 1] == '<' && Fits(rest, line, i + 2, j)
    case Angle(m, inside, rest) =>
      i < m < j && OpensList(line, i) && ClosesList(line, m)
      && Fits(inside, line, i + 1, m) && Fits(rest, line, m + 1, j)
    case Bracket(m, inside, rest) =>
      i < m < j && Pairs(line[i], line[m]) && Fits(inside, line, i + 1, m) && Fits(rest, line, m + 1, j)
  }

  lemma Goes(line: string, i: nat, stack: string, next: string)
    requires i < |line| && EndStep(line, i, stack) == Go(i + 1, next)
    ensures FindEnd(line, i, stack) == FindEnd(line, i + 1, next)
  {
  }

  lemma PassedGoes(line: string, i: nat, stack: string)
    requires i < |line| && Passed(line, i)
    ensures EndStep(line, i, stack) == Go(i + 1, stack)
  {
  }

  lemma OpenerGoes(line: string, i: nat, stack: string)
    requires i < |line| && (OpensList(line, i) || IsOpener(line[i]))
    ensures EndStep(line, i, stack) == Go(i + 1, stack + [line[i]])
  {
  }

  lemma SecondGoes(line: string, i: nat, stack: string)
    requires 0 < i < |line| && line[i - 1] == '<' && line[i] == '<' && stack != []
    ensures EndStep(line, i, stack + ['<']) == Go(i + 1, stack)
  {
    assert Init(stack + ['<']) == stack;
  }

  lemma CloserGoes(line: string, i: nat, stack: string, c: char)
    requires i < |line| && stack != []
    requires Pairs(c, line[i]) || (c == '<' && ClosesList(line, i))
    ensures EndStep(line, i, stack + [c]) == Go(i + 1, stack)
  {
    assert Init(stack + [c]) == stack;
  }

  lemma GroupPasses(line: string, i: nat, m: nat, stack: string)
    requires i < m < |line| && stack != []
    requires Pairs(line[i], line[m]) || (OpensList(line, i) && ClosesList(line, m))
    requires FindEnd(line, i + 1, stack + [line[i]]) == FindEnd(line, m, stack + [line[i]])
    ensures FindEnd(line, i, stack) == FindEnd(line, m + 1, stack)
  {
    OpenerGoes(line, i, stack);
    Goes(line, i, stack, stack + [line[i]]);
    CloserGoes(line, m, stack, line[i]);
    Goes(line, m, stack + [line[i]], stack);
  }

  lemma ShiftPasses(line: string, i: nat, stack: string)
    requires i + 1 < |line| && stack != [] && OpensList(line, i) && line[i + 1] == '<'
    ensures FindEnd(line, i, stack) == FindEnd(line, i + 2, stack)
  {
    OpenerGoes(line, i, stack);
    Goes(line, i, stack, stack + ['<']);
    SecondGoes(line, i + 1, stack);
    Goes(line, i + 1, stack + ['<'], stack);
  }

  /** A text of such a structure leaves the stack as it was. */
  lemma {:induction false} FitsPasses(n: Lists, line: string, i: nat, j: nat, stack: string)
    requires i <= j <= |line| && stack != [] && Fits(n, line, i, j)
    ensures FindEnd(line, i, stack) == FindEnd(line, j, stack)
    decreases n
  {
    match n {
      case Nothing =>
      case Letter(rest) =>
        PassedGoes(line, i, stack);
        Goes(line, i, stack, stack);
        FitsPasses(rest, line, i + 1, j, stack);
      case Shift(rest) =>
        ShiftPasses(line, i, stack);
        FitsPasses(rest, line, i + 2, j, stack);
      case Angle(m, inside, rest) =>
        FitsPasses(inside, line, i + 1, m, stack + ['<']);
        GroupPasses(line, i, m, stack);
        FitsPasses(rest, line, m + 1, j, stack);
      case Bracket(m, inside, rest) =>
        FitsPasses(inside, line, i + 1, m, stack + [line[i]]);
        GroupPasses(line, i, m, stack);
        FitsPasses(rest, line, m + 1, j, stack);
    }
  }

  lemma LastStep(line: string, q: nat)
    requires q < |line| && (ClosesList(line, q) || line[q] == ';' || IsCloser(line[q]))
    ensures FindEnd(line, q, "<") == if line[q] == '>' then Ended(q + 1) else Broken
  {
    assert Init("<") == "";
    assert DropAngles("<", '<') == DropAngles("", '<') == "";
  }

  /**
   From the '<' at p the forward scan ends behind the '>' that closes its list,
   and it gives up at a semicolon or a real bracket that is closed before that.
   */
  lemma ListCloses(n: Lists, line: string, p: nat, q: nat)
    requires p < q < |line| && OpensList(line, p) && Fits(n, line, p + 1, q)
    requires ClosesList(line, q) || line[q] == ';' || IsCloser(line[q])
    ensures FindEnd(line, p, "") == if line[q] == '>' then Ended(q + 1) else Broken
  {
    OpenerGoes(line, p, "");
    assert "" + [line[p]] == "<";
    Goes(line, p, "", "<");
    FitsPasses(n, line, p + 1, q, "<");
    LastStep(line, q);
  }

  // ---- Backward ----

  /** A '>' that is the second character of "->" or of an operator's name, or the first one of " >= ". */
  predicate TakenAlong(line: string, i: nat)
    requires i < |line|
  {
    line[i] == '>' && i > 0
    && (line[i - 1] == '-' || EndsWithOperator(line, i)
        || (IsSpace(line[i - 1]) && i + 2 < |line| && line[i + 1] == '=' && IsSpace(line[i + 2])))
  }

  predicate IsLetter(c: char) {
    !IsOpener(c) && !IsCloser(c) && c != '<' && c != '>' && c != ';'
  }

  predicate SecondOfShift(line: string, i: nat)
    requires i < |line|
  {
    line[i] == '<' && i > 0 && line[i - 1] == '<'
  }

  predicate ClosesBack(line: string, i: nat)
    requires i < |line|
  {
    line[i] == '>' && !TakenAlong(line, i)
  }

  predicate OpensBack(line: string, i: nat)
    requires i < |line|
  {
    line[i] == '<' && !SecondOfShift(line, i)
  }

  /** The same seen from the end; start is where a bracket's partner stands. */
  datatype BackLists =
    | BackNothing
    | BackLetter(before: BackLists)
    | BackPair(before: BackLists)
    | BackAngle(start: nat, inside: BackLists, before: BackLists)
    | BackBracket(start: nat, inside: BackLists, before: BackLists)

  /** n is the structure of line[i..j]: an angle bracket that is skipped takes the character before it along. */
  predicate BackFits(n: BackLists, line: string, i: nat, j: nat)
    requires j <= |line|
  {
    match n
    case BackNothing => i == j
    case BackLetter(before) => i < j && IsLetter(line[j - 1]) && BackFits(before, line, i, j - 1)
    case BackPair(before) =>
      i + 1 < j && (TakenAlong(line, j - 1) || SecondOfShift(line, j - 1)) && BackFits(before, line, i, j - 2)
    case BackAngle(m, inside, before) =>
      i <= m < j - 1 && OpensBack(line, m) && ClosesBack(line, j - 1)
      && BackFits(inside, line, m + 1, j - 1) && BackFits(before, line, i, m)
    case BackBracket(m, inside, before) =>
      i <= m < j - 1 && Pairs(line[m], line[j - 1])
      && BackFits(inside, line, m + 1, j - 1) && BackFits(before, line, i, m)
  }

  // The backward scan, as far as these texts are concerned: what it answers as a
  // function of the position and the stack.

  type Scan = (int, string) -> LineResult

  predicate LetterAt(line: string, i: int) {
    0 <= i < |line| && IsLetter(line[i])
  }

  predicate PairAt(line: string, i: int) {
    0 <= i < |line| && (TakenAlong(line, i) || SecondOfShift(line, i))
  }

  predicate CloserAt(line: string, i: int, c: char) {
    0 <= i < |line| && line[i] == c && (ClosesBack(line, i) || IsCloser(c))
  }

  predicate OpenerAt(line: string, i: int, c: char) {
    0 <= i < |line| && (Pairs(line[i], c) || (c == '>' && OpensBack(line, i)))
  }

  ghost predicate StepsBack(line: string, scan: Scan) {
    && (forall i, s :: LetterAt(line, i) ==> scan(i, s) == scan(i - 1, s))
    && (forall i, s :: PairAt(line, i) ==> scan(i, s) == scan(i - 2, s))
    && (forall i, c, s :: CloserAt(line, i, c) ==> scan(i, s) == scan(i - 1, s + [c]))
    && (forall i, c, s :: OpenerAt(line, i, c) && s != [] ==> scan(i, s + [c]) == scan(i - 1, s))
  }

  lemma {:induction false} FitsPassesBack(n: BackLists, line: string, i: nat, j: nat, stack: string, scan: Scan)
    requires i <= j <= |line| && stack != [] && BackFits(n, line, i, j) && StepsBack(line, scan)
    ensures scan(j - 1, stack) == scan(i - 1, stack)
    decreases n
  {
    match n {
      case BackNothing =>
      case BackLetter(before) =>
        assert LetterAt(line, j - 1);
        FitsPassesBack(before, line, i, j - 1, stack, scan);
      case BackPair(before) =>
        assert PairAt(line, j - 1);
        FitsPassesBack(before, line, i, j - 2, stack, scan);
      case BackAngle(m, inside, before) =>
        assert CloserAt(line, j - 1, '>') && OpenerAt(line, m, '>');
        FitsPassesBack(inside, line, m + 1, j - 1, stack + ['>'], scan);
        FitsPassesBack(before, line, i, m, stack, scan);
      case BackBracket(m, inside, before) =>
        var c := line[j - 1];
        assert CloserAt(line, j - 1, c) && OpenerAt(line, m, c);
        FitsPassesBack(inside, line, m + 1, j - 1, stack + [c], scan);
        FitsPassesBack(before, line, i, m, stack, scan);
    }
  }

  /** FindStart as such a function. */
  function ScanOf(line: string): Scan {
    (i, s) => if -1 <= i < |line| then FindStart(line, i, s) else Broken
  }

  lemma StepIsTaken(line: string, i: nat, stack: string, j: int, next: string)
    requires i < |line| && -1 <= j < i && StartStep(line, i, stack) == Go(j, next)
    ensures ScanOf(line)(i, stack) == ScanOf(line)(j, next)
  {
  }

  lemma LetterIsPassed(line: string, i: nat, stack: string)
    requires LetterAt(line, i)
    ensures StartStep(line, i, stack) == Go(i - 1, stack)
  {
  }

  lemma PairIsPassed(line: string, i: nat, stack: string)
    requires PairAt(line, i)
    ensures StartStep(line, i, stack) == Go(i - 2, stack)
  {
  }

  lemma CloserIsPushed(line: string, i: nat, c: char, stack: string)
    requires CloserAt(line, i, c)
    ensures StartStep(line, i, stack) == Go(i - 1, stack + [c])
  {
  }

  lemma OpenerPops(line: string, i: nat, c: char, stack: string)
    requires OpenerAt(line, i, c) && stack != []
    ensures StartStep(line, i, stack + [c]) == Go(i - 1, stack)
  {
    assert Init(stack + [c]) == stack;
  }

  lemma FindStartStepsBack(line: string)
    ensures StepsBack(line, ScanOf(line))
  {
    var scan := ScanOf(line);
    forall i, s | LetterAt(line, i)
      ensures scan(i, s) == scan(i - 1, s)
    {
      LetterIsPassed(line, i, s);
      StepIsTaken(line, i, s, i - 1, s);
    }
    forall i, s | PairAt(line, i)
      ensures scan(i, s) == scan(i - 2, s)
    {
      PairIsPassed(line, i, s);
      StepIsTaken(line, i, s, i - 2, s);
    }
    forall i, c, s | CloserAt(line, i, c)
      ensures scan(i, s) == scan(i - 1, s + [c])
    {
      CloserIsPushed(line, i, c, s);
      StepIsTaken(line, i, s, i - 1, s + [c]);
    }
    forall i, c, s | OpenerAt(line, i, c) && s != []
      ensures scan(i, s + [c]) == scan(i - 1, s)
    {
      OpenerPops(line, i, c, s);
      StepIsTaken(line, i, s + [c], i - 1, s);
    }
  }

  lemma ListPassesBack(n: BackLists, line: string, p: nat, q: nat, scan: Scan)
    requires p < q < |line| && ClosesBack(line, q) && BackFits(n, line, p + 1, q) && StepsBack(line, scan)
    ensures scan(q, "") == scan(p, ">")
  {
    assert CloserAt(line, q, '>');
    assert "" + ['>'] == ">";
    FitsPassesBack(n, line, p + 1, q, ">", scan);
  }

  lemma LastStepBack(line: string, p: nat)
    requires p < |line| && (OpensBack(line, p) || line[p] == ';' || IsOpener(line[p]))
    ensures FindStart(line, p, ">") == if line[p] == '<' then Ended(p) else Broken
  {
    assert Init(">") == "";
    assert DropAngles(">", '>') == DropAngles("", '>') == "";
  }

  /**
   From the '>' at q the backward scan ends at the '<' that opens its list, and
   it gives up at a semicolon or a real bracket that is still open before that.
   */
  lemma ListOpens(n: BackLists, line: string, p: nat, q: nat)
    requires p < q < |line| && ClosesBack(line, q) && BackFits(n, line, p + 1, q)
    requires OpensBack(line, p) || line[p] == ';' || IsOpener(line[p])
    ensures FindStart(line, q, "") == if line[p] == '<' then Ended(p) else Broken
  {
    FindStartStepsBack(line);
    ListPassesBack(n, line, p, q, ScanOf(line));
    assert ScanOf(line)(q, "") == FindStart(line, q, "");
    LastStepBack(line, p);
  }

  // ---- Both matchers ----

  /** What follows the '<' of a list cannot be a second one. */
  lemma NoShift(n: Lists, line: string, p: nat, q: nat)
    requires p < q < |line| && OpensList(line, p) && Fits(n, line, p + 1, q)
    requires ClosesList(line, q) || line[q] == ';' || IsCloser(line[q])
    ensures line[p + 1] != '<'
  {
  }

  /** CloseExpression at a '<', unless the two characters are "<=". */
  lemma CloseAtAngle(n: Lists, lines: seq<string>, l: nat, p: nat, q: nat)
    requires l < |lines| && p < q < |lines[l]| && OpensList(lines[l], p) && Fits(n, lines[l], p + 1, q)
    requires ClosesList(lines[l], q) || lines[l][q] == ';' || IsCloser(lines[l][q])
    ensures Close(lines, l, p) == if lines[l][p + 1] != '=' && lines[l][q] == '>' then At(l, q + 1) else Nowhere
  {
    NoShift(n, lines[l], p, q);
    ListCloses(n, lines[l], p, q);
  }

  /** ReverseCloseExpression at a '>'. */
  lemma ReverseAtAngle(n: BackLists, lines: seq<string>, m: nat, p: nat, q: nat)
    requires m < |lines| && p < q < |lines[m]| && ClosesBack(lines[m], q) && BackFits(n, lines[m], p + 1, q)
    requires OpensBack(lines[m], p) || lines[m][p] == ';' || IsOpener(lines[m][p])
    ensures ReverseClose(lines, m, q) == if lines[m][p] == '<' then At(m, p) else Nowhere
  {
    ListOpens(n, lines[m], p, q);
  }

  /** Where both structures exist the matchers are inverse from an angle bracket too. */
  lemma AngleMatchersAreInverse(n: Lists, b: BackLists, lines: seq<string>, l: nat, p: nat, q: nat)
    requires l < |lines| && p < q < |lines[l]| && lines[l][p + 1] != '='
    requires OpensList(lines[l], p) && ClosesList(lines[l], q) && Fits(n, lines[l], p + 1, q)
    requires OpensBack(lines[l], p) && ClosesBack(lines[l], q) && BackFits(b, lines[l], p + 1, q)
    ensures Close(lines, l, p) == At(l, q + 1) && ReverseClose(lines, l, q) == At(l, p)
  {
    CloseAtAngle(n, lines, l, p, q);
    ReverseAtAngle(b, lines, l, p, q);
  }
}
