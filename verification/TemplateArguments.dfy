/**
 NestingState.InTemplateArgumentList: the look-ahead that tells a class head
 from a template argument.  It reads on through the following lines to the first
 character that decides.
 */
module TemplateArguments {
  import opened BracketMatchers

  /** A character at which the look-ahead stops. */
  predicate Stops(c: char) {
    c == '{' || c == '}' || c == ';' || c == '=' || c == '[' || c == ']' || c == '.' || c == '<' || c == '>'
  }

  /** The first such character from p on, or the end of the line. */
  function FirstStop(line: string, p: nat): (k: nat)
    ensures k <= |line| && (p <= |line| ==> p <= k)
    ensures k < |line| ==> p <= k && Stops(line[k])
    ensures forall j :: p <= j < k ==> !Stops(line[j])
    decreases |line| - p
  {
    if p >= |line| then |line| else if Stops(line[p]) then p else FirstStop(line, p + 1)
  }

  function Room(lines: seq<string>, l: nat, p: nat): nat {
    if l < |lines| && p <= |lines[l]| then |lines[l]| - p else 0
  }

  /** The position after p of line l looks like the middle of a template argument list. */
  predicate LookAhead(lines: seq<string>, l: nat, p: nat)
    decreases |lines| - l, Room(lines, l, p)
  {
    l < |lines|
    && var k := FirstStop(lines[l], p);
       if k == |lines[l]| then LookAhead(lines, l + 1, 0)
       else if lines[l][k] == '<' then
         match Close(lines, l, k)
         case At(m, e) => LookAhead(lines, m, e)
         case Nowhere => false
       else lines[l][k] != '{' && lines[l][k] != '}' && lines[l][k] != ';'
  }

  method InTemplateArgumentList(lines: seq<string>, startLine: nat, startPos: nat) returns (r: bool)
    ensures r == LookAhead(lines, startLine, startPos)
  {
    var linenum: nat, pos: nat := startLine, startPos;
    while linenum < |lines|
      invariant LookAhead(lines, startLine, startPos) == LookAhead(lines, linenum, pos)
      decreases |lines| - linenum, Room(lines, linenum, pos)
    {
      var line := lines[linenum];
      if pos >= |line| {
        linenum, pos := linenum + 1, 0;
        continue;
      }
      // The pattern matches up to a stop, or else up to the last character.
      var stop := FirstStop(line, pos);
      var token := if stop < |line| then line[stop] else line[|line| - 1];
      pos := if stop < |line| then stop + 1 else |line|;
      if token == '{' || token == '}' || token == ';' {
        return false;
      }
      if token == '>' || token == '=' || token == '[' || token == ']' || token == '.' {
        return true;
      }
      if token != '<' {
        pos := pos + 1;
        if pos >= |line| {
          linenum, pos := linenum + 1, 0;
        }
        continue;
      }
      var end := CloseExpression(lines, linenum, pos - 1);
      if end.Nowhere? {
        return false;
      }
      linenum, pos := end.line, end.pos;
    }
    return false;
  }

  // ---- What the look-ahead answers ----

  /** What stands after the name in "template <class A>", "<class A = B>", "<class A[]>" and "<class... A>". */
  predicate SaysYes(c: char) {
    c == '>' || c == '=' || c == '[' || c == ']' || c == '.'
  }

  /** What stands after the name in "class A {" and "class A;". */
  predicate SaysNo(c: char) {
    c == '{' || c == '}' || c == ';'
  }

  predicate SaysNothing(c: char) {
    !SaysYes(c) && !SaysNo(c) && c != '<'
  }

  /** No character from position p of line l up to position k of line m says anything. */
  ghost predicate Silent(lines: seq<string>, l: nat, p: nat, m: nat, k: nat)
    requires l <= m < |lines|
  {
    && (forall j :: p <= j < |lines[l]| && l < m ==> SaysNothing(lines[l][j]))
    && (forall i, j :: l < i < m && 0 <= j < |lines[i]| ==> SaysNothing(lines[i][j]))
    && (forall j :: (if l < m then 0 else p) <= j < k && j < |lines[m]| ==> SaysNothing(lines[m][j]))
  }

  /**
   The first character that says something gives the answer, however many
   lines lie before it; at a '<' it is the answer after the list that it opens.
   */
  lemma {:induction false} FirstWordDecides(lines: seq<string>, l: nat, p: nat, m: nat, k: nat)
    requires l <= m < |lines| && k < |lines[m]| && (l == m ==> p <= k) && Silent(lines, l, p, m, k)
    ensures SaysYes(lines[m][k]) ==> LookAhead(lines, l, p)
    ensures SaysNo(lines[m][k]) ==> !LookAhead(lines, l, p)
    ensures lines[m][k] == '<' ==>
              LookAhead(lines, l, p) == match Close(lines, m, k)
                                        case At(x, e) => LookAhead(lines, x, e)
                                        case Nowhere => false
    decreases m - l
  {
    var stop := FirstStop(lines[l], p);
    if l < m {
      assert stop == |lines[l]|;
      FirstWordDecides(lines, l + 1, 0, m, k);
    } else if !SaysNothing(lines[m][k]) {
      assert stop == k;
    }
  }

  /** Where nothing says anything up to the end of the file, it is no template argument. */
  lemma {:induction false} SilenceSaysNo(lines: seq<string>, l: nat, p: nat)
    requires l < |lines| ==> Silent(lines, l, p, |lines| - 1, |lines[|lines| - 1]|)
    ensures !LookAhead(lines, l, p)
    decreases |lines| - l
  {
    if l < |lines| {
      assert FirstStop(lines[l], p) == |lines[l]|;
      SilenceSaysNo(lines, l + 1, 0);
    }
  }

  /** The example of the source: a class that is a template argument on a line of its own. */
  lemma TemplateArgumentExample()
    ensures LookAhead(["template <class A,", "          class B>", "void F() {"], 1, 17)
    ensures !LookAhead(["class B", "{"], 0, 7)
  {
    FirstWordDecides(["template <class A,", "          class B>", "void F() {"], 1, 17, 1, 17);
    FirstWordDecides(["class B", "{"], 0, 7, 1, 0);
  }

  // ---- Looking ahead in the lines from n on ----

  function Shifted(r: Place, n: nat): Place {
    match r
    case At(l, p) => At(l + n, p)
    case Nowhere => Nowhere
  }

  lemma {:induction false} CloseFromShift(lines: seq<string>, n: nat, l: nat, stack: string)
    requires n + l <= |lines|
    ensures CloseFrom(lines, n + l, stack) == Shifted(CloseFrom(lines[n..], l, stack), n)
    decreases |lines| - l
  {
    if stack != [] && n + l < |lines| {
      var r := FindEnd(lines[n + l], 0, stack);
      if r.Unfinished? {
        CloseFromShift(lines, n, l + 1, r.stack);
      }
    }
  }

  lemma CloseShift(lines: seq<string>, n: nat, l: nat, p: nat)
    requires n + l < |lines| && p < |lines[n + l]|
    ensures Close(lines, n + l, p) == Shifted(Close(lines[n..], l, p), n)
  {
    var r := FindEnd(lines[n + l], p, "");
    if r.Unfinished? {
      CloseFromShift(lines, n, l + 1, r.stack);
    }
  }

  lemma {:induction false} LookAheadShift(lines: seq<string>, n: nat, l: nat, p: nat)
    requires n <= |lines|
    ensures LookAhead(lines, n + l, p) == LookAhead(lines[n..], l, p)
    decreases |lines| - l, Room(lines, n + l, p)
  {
    if n + l < |lines| {
      var line := lines[n + l];
      var k := FirstStop(line, p);
      if k == |line| {
        LookAheadShift(lines, n, l + 1, 0);
      } else if line[k] == '<' {
        CloseShift(lines, n, l, k);
        var r := Close(lines[n..], l, k);
        if r.At? {
          LookAheadShift(lines, n, r.line, r.pos);
        }
      }
    }
  }

  // ---- Decided by the first lines ----

  /** A forward scan with this stack reaches the end of the lines still unfinished. */
  predicate RunsOff(lines: seq<string>, l: nat, stack: string)
    requires l <= |lines|
    decreases |lines| - l
  {
    stack != []
    && (l == |lines|
        || match FindEnd(lines[l], 0, stack)
           case Unfinished(next) => RunsOff(lines, l + 1, next)
           case _ => false)
  }

  predicate CloseSettles(lines: seq<string>, l: nat, p: nat)
    requires l < |lines| && p < |lines[l]|
  {
    NoStart(lines[l], p)
    || match FindEnd(lines[l], p, "")
       case Unfinished(stack) => !RunsOff(lines, l + 1, stack)
       case _ => true
  }

  /** A deciding character is reached within these lines. */
  predicate Decided(lines: seq<string>, l: nat, p: nat)
    decreases |lines| - l, Room(lines, l, p)
  {
    l < |lines|
    && var k := FirstStop(lines[l], p);
       if k == |lines[l]| then Decided(lines, l + 1, 0)
       else if lines[l][k] == '<' then
         && CloseSettles(lines, l, k)
         && match Close(lines, l, k)
            case At(m, e) => Decided(lines, m, e)
            case Nowhere => true
       else true
  }

  lemma {:induction false} CloseFromExtends(lines: seq<string>, more: seq<string>, l: nat, stack: string)
    requires l <= |lines| && !RunsOff(lines, l, stack)
    ensures CloseFrom(lines + more, l, stack) == CloseFrom(lines, l, stack)
    decreases |lines| - l
  {
    if stack != [] && l < |lines| {
      var r := FindEnd(lines[l], 0, stack);
      if r.Unfinished? {
        CloseFromExtends(lines, more, l + 1, r.stack);
      }
    }
  }

  lemma CloseExtends(lines: seq<string>, more: seq<string>, l: nat, p: nat)
    requires l < |lines| && p < |lines[l]| && CloseSettles(lines, l, p)
    ensures Close(lines + more, l, p) == Close(lines, l, p)
  {
    var r := FindEnd(lines[l], p, "");
    if !NoStart(lines[l], p) && r.Unfinished? {
      CloseFromExtends(lines, more, l + 1, r.stack);
    }
  }

  /** What the first lines decide, no later line changes. */
  lemma {:induction false} DecidedExtends(lines: seq<string>, more: seq<string>, l: nat, p: nat)
    requires Decided(lines, l, p)
    ensures LookAhead(lines + more, l, p) == LookAhead(lines, l, p)
    decreases |lines| - l, Room(lines, l, p)
  {
    var k := FirstStop(lines[l], p);
    if k == |lines[l]| {
      DecidedExtends(lines, more, l + 1, 0);
    } else if lines[l][k] == '<' {
      CloseExtends(lines, more, l, k);
      var r := Close(lines, l, k);
      if r.At? {
        DecidedExtends(lines, more, r.line, r.pos);
      }
    }
  }
}
