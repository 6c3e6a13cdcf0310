/**
 What #else branches do to cpplint's nesting state.  Deleting the lines from the
 first #else or #elif of a region up to its #endif leaves the state outside such
 branches as it is exactly when the deletion does not change what a kept class
 head sees ahead; the look-ahead does read the deleted lines.
 */
module NestingRegions {
  import opened Nesting
  import opened Options
  import opened TemplateArguments

  // ---- Deleting the branches that do not count ----

  /**
   Where a line stands: outside every #else branch with depth regions open, or
   in an #else branch of region number depth with inner more regions open.
   */
  datatype Mode = Live(depth: nat) | Dead(depth: nat, inner: nat)

  function NextMode(m: Mode, d: Directive): Mode {
    match (m, d)
    case (Live(n), If) => Live(n + 1)
    case (Live(n), Else) => if n > 0 then Dead(n, 0) else m
    case (Live(n), Endif) => Live(if n > 0 then n - 1 else 0)
    case (Dead(n, k), If) => Dead(n, k + 1)
    case (Dead(n, k), Endif) => if k > 0 then Dead(n, k - 1) else Live(if n > 0 then n - 1 else 0)
    case _ => m
  }

  function ModeAfter(lines: seq<Line>, m: Mode): Mode
    decreases |lines|
  {
    if lines == [] then m else ModeAfter(lines[1..], NextMode(m, lines[0].directive))
  }

  /** The first line is kept. */
  predicate Keeps(lines: seq<Line>, m: Mode)
    requires lines != []
  {
    NextMode(m, lines[0].directive).Live?
  }

  /** The lines without those from the first #else or #elif of a region up to its #endif. */
  function Stripped(lines: seq<Line>, m: Mode): (r: seq<Line>)
    ensures lines != [] && Keeps(lines, m) ==> r != [] && r[0] == lines[0]
    decreases |lines|
  {
    if lines == [] then []
    else
      var rest := Stripped(lines[1..], NextMode(m, lines[0].directive));
      if Keeps(lines, m) then [lines[0]] + rest else rest
  }

  lemma StrippedTail(lines: seq<Line>, m: Mode)
    requires lines != []
    ensures var rest := Stripped(lines[1..], NextMode(m, lines[0].directive));
            if Keeps(lines, m) then Stripped(lines, m)[1..] == rest else Stripped(lines, m) == rest
  {
  }

  // ---- How the two runs relate ----

  /** The innermost n regions are still in their first branch. */
  ghost predicate NoElse(cs: seq<Checkpoint>, n: nat) {
    n <= |cs| && forall i :: |cs| - n <= i < |cs| ==> !cs[i].seenElse
  }

  /** The state of the whole run and that of the stripped run. */
  ghost predicate Simulates(m: Mode, whole: State, kept: State) {
    && NoElse(kept.checkpoints, m.depth)
    && match m
       case Live(_) => whole == kept
       case Dead(n, k) =>
         var c := |kept.checkpoints| - 1;
         && n > 0 && |whole.checkpoints| == c + 1 + k
         && whole.checkpoints[..c] == kept.checkpoints[..c]
         && whole.checkpoints[c] == Checkpoint(kept.checkpoints[c].beforeIf, kept.stack, true)
  }

  /** A kept line finds the same state in both runs. */
  lemma KeptLineStartsAlike(m: Mode, whole: State, kept: State, d: Directive)
    requires Simulates(m, whole, kept) && NextMode(m, d).Live?
    ensures Preprocess(whole, d) == Preprocess(kept, d)
    ensures NoElse(Preprocess(kept, d).checkpoints, NextMode(m, d).depth)
  {
    if m.Dead? {
      assert Pop(whole.checkpoints) == whole.checkpoints[..|kept.checkpoints| - 1];
    }
  }

  /** A deleted line, whatever it does to the stack, is undone at the #endif. */
  lemma DeletedLineIsUndone(m: Mode, whole: State, kept: State, d: Directive, stack: seq<Block>)
    requires Simulates(m, whole, kept) && NextMode(m, d).Dead?
    ensures Simulates(NextMode(m, d), Preprocess(whole, d).(stack := stack), kept)
  {
    var c := |kept.checkpoints| - 1;
    var after := Preprocess(whole, d).checkpoints;
    assert after[..c] == whole.checkpoints[..c];
  }

  // ---- What class heads see ----

  /** The look-ahead answers the same before and after the deletion, if the first line asks it. */
  predicate HeadAgrees(stack: seq<Block>, lines: seq<Line>, m: Mode)
    requires lines != [] && Keeps(lines, m)
  {
    Asks(AtClass(stack, lines[0]), lines[0]) ==> Ahead(lines) == Ahead(Stripped(lines, m))
  }

  /** Every class head that is kept and asked about gets the same answer in the whole and the stripped lines. */
  predicate HeadsAgree(s: State, lines: seq<Line>, m: Mode)
    decreases |lines|
  {
    lines != [] ==>
      && (Keeps(lines, m) ==> HeadAgrees(Preprocess(s, lines[0].directive).stack, lines, m))
      && HeadsAgree(Updated(s, lines), lines[1..], NextMode(m, lines[0].directive))
  }

  lemma ScanAgrees(stack: seq<Block>, lines: seq<Line>, m: Mode)
    requires lines != [] && Keeps(lines, m) && HeadAgrees(stack, lines, m)
    ensures Scan(stack, lines) == Scan(stack, Stripped(lines, m))
  {
    var a, b := Ahead(lines), Ahead(Stripped(lines, m));
    if a != b {
      Unasked(stack, lines[0], a, b);
    }
  }

  lemma Unasked(stack: seq<Block>, line: Line, a: bool, b: bool)
    requires !Asks(AtClass(stack, line), line)
    ensures ScanLine(stack, line, a) == ScanLine(stack, line, b)
  {
  }

  /** One line of the whole run beside the line, or none, of the stripped run. */
  function KeptNext(kept: State, lines: seq<Line>, m: Mode): State
    requires lines != []
  {
    if Keeps(lines, m) then Updated(kept, Stripped(lines, m)) else kept
  }

  lemma StepSimulates(m: Mode, whole: State, kept: State, lines: seq<Line>)
    requires lines != [] && Simulates(m, whole, kept)
    requires Keeps(lines, m) ==> Updated(whole, lines) == Updated(kept, Stripped(lines, m))
    ensures Simulates(NextMode(m, lines[0].directive), Updated(whole, lines), KeptNext(kept, lines, m))
  {
    var d := lines[0].directive;
    if Keeps(lines, m) {
      KeptLineStartsAlike(m, whole, kept, d);
    } else {
      DeletedLineIsUndone(m, whole, kept, d, Updated(whole, lines).stack);
    }
  }

  lemma KeptLineAgrees(m: Mode, whole: State, kept: State, lines: seq<Line>)
    requires lines != [] && Simulates(m, whole, kept) && Keeps(lines, m)
    requires HeadAgrees(Preprocess(whole, lines[0].directive).stack, lines, m)
    ensures Updated(whole, lines) == Updated(kept, Stripped(lines, m))
  {
    var d := lines[0].directive;
    KeptLineStartsAlike(m, whole, kept, d);
    ScanAgrees(Preprocess(whole, d).stack, lines, m);
  }

  lemma {:induction false} RunsSimulate(m: Mode, whole: State, kept: State, lines: seq<Line>)
    requires Simulates(m, whole, kept) && HeadsAgree(whole, lines, m)
    ensures Simulates(ModeAfter(lines, m), RunAll(whole, lines), RunAll(kept, Stripped(lines, m)))
    decreases |lines|
  {
    if lines != [] {
      FirstLineAlike(m, whole, kept, lines);
      RunsSimulate(NextMode(m, lines[0].directive), Updated(whole, lines), KeptNext(kept, lines, m), lines[1..]);
      KeptRunStep(kept, lines, m);
    }
  }

  /** Both runs over the first line. */
  lemma FirstLineAlike(m: Mode, whole: State, kept: State, lines: seq<Line>)
    requires Simulates(m, whole, kept) && HeadsAgree(whole, lines, m) && lines != []
    ensures Keeps(lines, m) ==> Updated(whole, lines) == Updated(kept, Stripped(lines, m))
    ensures Simulates(NextMode(m, lines[0].directive), Updated(whole, lines), KeptNext(kept, lines, m))
  {
    if Keeps(lines, m) {
      KeptLineAgrees(m, whole, kept, lines);
    }
    StepSimulates(m, whole, kept, lines);
  }

  /** The stripped run with the first line taken off. */
  lemma KeptRunStep(kept: State, lines: seq<Line>, m: Mode)
    requires lines != []
    ensures RunAll(kept, Stripped(lines, m))
            == RunAll(KeptNext(kept, lines, m), Stripped(lines[1..], NextMode(m, lines[0].directive)))
  {
    StrippedTail(lines, m);
  }

  /** A run of k lines is one line and a run of the rest. */
  lemma RunTail(s: State, lines: seq<Line>, k: nat, rest: seq<Line>, j: nat)
    requires k <= |lines| && lines != [] && rest == lines[1..] && k == j + 1
    ensures Run(s, lines, k) == Run(Updated(s, lines), rest, j)
  {
    RunStep(s, lines, k);
  }

  lemma RunStep(s: State, lines: seq<Line>, k: nat)
    requires 0 < k <= |lines|
    ensures Run(s, lines, k) == Run(Updated(s, lines), lines[1..], k - 1)
  {
  }

  /** On every kept line the two runs come to the same state. */
  predicate SameStates(whole: State, kept: State, lines: seq<Line>, m: Mode)
    decreases |lines|
  {
    lines != [] ==>
      && (Keeps(lines, m) ==> Updated(whole, lines) == Updated(kept, Stripped(lines, m)))
      && SameStates(Updated(whole, lines), KeptNext(kept, lines, m), lines[1..], NextMode(m, lines[0].directive))
  }

  lemma {:induction false} AgreeingRunsMeet(m: Mode, whole: State, kept: State, lines: seq<Line>)
    requires Simulates(m, whole, kept) && HeadsAgree(whole, lines, m)
    ensures SameStates(whole, kept, lines, m)
    decreases |lines|
  {
    if lines != [] {
      FirstLineAlike(m, whole, kept, lines);
      AgreeingRunsMeet(NextMode(m, lines[0].directive), Updated(whole, lines), KeptNext(kept, lines, m), lines[1..]);
    }
  }

  /**
   From every state and for every list of lines, well nested or not, whose kept
   class heads see the same: after each line outside the #else branches opened
   on the way, the state is that of the stripped lines; so it is at the end.
   */
  lemma StrippedRunsAlike(s: State, lines: seq<Line>)
    requires HeadsAgree(s, lines, Live(0))
    ensures SameStates(s, s, lines, Live(0))
    ensures ModeAfter(lines, Live(0)).Live? ==> RunAll(s, lines) == RunAll(s, Stripped(lines, Live(0)))
  {
    AgreeingRunsMeet(Live(0), s, s, lines);
    RunsSimulate(Live(0), s, s, lines);
  }

  // ---- Exactly when the deletion is harmless ----

  /** The first line opens its class. */
  predicate Opens(s: State, lines: seq<Line>)
    requires lines != []
  {
    Asks(AtClass(Preprocess(s, lines[0].directive).stack, lines[0]), lines[0]) && !Ahead(lines)
  }

  /** On every kept line the two runs open the same class, or none, and come to the same state. */
  predicate InStep(whole: State, kept: State, lines: seq<Line>, m: Mode)
    decreases |lines|
  {
    lines != [] ==>
      && (Keeps(lines, m) ==>
            && Updated(whole, lines) == Updated(kept, Stripped(lines, m))
            && Opens(whole, lines) == Opens(kept, Stripped(lines, m)))
      && InStep(Updated(whole, lines), KeptNext(kept, lines, m), lines[1..], NextMode(m, lines[0].directive))
  }

  lemma {:induction false} InStepExactly(m: Mode, whole: State, kept: State, lines: seq<Line>)
    requires Simulates(m, whole, kept)
    ensures InStep(whole, kept, lines, m) <==> HeadsAgree(whole, lines, m)
    decreases |lines|
  {
    if lines != [] {
      var next := NextMode(m, lines[0].directive);
      if Keeps(lines, m) {
        KeptLineStartsAlike(m, whole, kept, lines[0].directive);
        if HeadsAgree(whole, lines, m) {
          KeptLineAgrees(m, whole, kept, lines);
        }
      }
      if HeadsAgree(whole, lines, m) || InStep(whole, kept, lines, m) {
        StepSimulates(m, whole, kept, lines);
        InStepExactly(next, Updated(whole, lines), KeptNext(kept, lines, m), lines[1..]);
      }
    }
  }

  /** The deletion is harmless exactly when every class head kept and asked about sees the same. */
  lemma HarmlessExactlyWhen(s: State, lines: seq<Line>)
    ensures InStep(s, s, lines, Live(0)) <==> HeadsAgree(s, lines, Live(0))
  {
    InStepExactly(Live(0), s, s, lines);
  }

  /** No brace, semicolon or closing parenthesis stands on the line of a class head. */
  predicate Bare(line: Line) {
    line.classDecl.Some? ==> line.rest.tokens == [] && line.classDecl.value.rest.tokens == []
  }

  /** Either the line goes on after its class head and decides on it itself, or it ends with it. */
  predicate Tells(line: Line) {
    Bare(line) || Decided([line.text], 0, line.classDecl.value.end)
  }

  predicate AllTell(lines: seq<Line>) {
    forall i :: 0 <= i < |lines| ==> Tells(lines[i])
  }

  /** A bare head that is opened makes the stack longer than one that is not. */
  lemma BareHeadShows(stack: seq<Block>, line: Line)
    requires Bare(line) && Asks(AtClass(stack, line), line)
    ensures |ScanLine(stack, line, false)| == |ScanLine(stack, line, true)| + 1
  {
  }

  /** A line that decides on its own head decides alike with and without the branches. */
  lemma OwnLineDecides(lines: seq<Line>, m: Mode)
    requires lines != [] && Keeps(lines, m) && lines[0].classDecl.Some?
    requires Decided([lines[0].text], 0, lines[0].classDecl.value.end)
    ensures Ahead(lines) == Ahead(Stripped(lines, m))
  {
    assert Texts([lines[0]]) == [lines[0].text];
    DecidedAhead([lines[0]], lines);
    DecidedAhead([lines[0]], Stripped(lines, m));
  }

  /** Where heads decide on their own line or end it, the states alone tell. */
  lemma {:induction false} SameStatesExactly(m: Mode, whole: State, kept: State, lines: seq<Line>)
    requires Simulates(m, whole, kept) && AllTell(lines)
    ensures SameStates(whole, kept, lines, m) <==> HeadsAgree(whole, lines, m)
    decreases |lines|
  {
    if lines != [] {
      var d := lines[0].directive;
      if Keeps(lines, m) {
        var stack := Preprocess(whole, d).stack;
        KeptLineStartsAlike(m, whole, kept, d);
        if HeadsAgree(whole, lines, m) {
          KeptLineAgrees(m, whole, kept, lines);
        } else if Asks(AtClass(stack, lines[0]), lines[0]) {
          if Bare(lines[0]) {
            BareHeadShows(stack, lines[0]);
          } else {
            OwnLineDecides(lines, m);
          }
        }
      }
      if HeadsAgree(whole, lines, m) || SameStates(whole, kept, lines, m) {
        StepSimulates(m, whole, kept, lines);
        SameStatesExactly(NextMode(m, d), Updated(whole, lines), KeptNext(kept, lines, m), lines[1..]);
      }
    }
  }

  // ---- What a reader of the file can check ----

  /** The lines before the first one that is deleted. */
  function UntilDeleted(lines: seq<Line>, m: Mode): (r: seq<Line>)
    ensures lines != [] && Keeps(lines, m) ==> r != [] && r[0] == lines[0]
    decreases |lines|
  {
    if lines == [] || !Keeps(lines, m) then []
    else [lines[0]] + UntilDeleted(lines[1..], NextMode(m, lines[0].directive))
  }

  lemma {:induction false} UntilDeletedIsShared(lines: seq<Line>, m: Mode)
    ensures UntilDeleted(lines, m) <= lines
    ensures UntilDeleted(lines, m) <= Stripped(lines, m)
    ensures UntilDeleted(lines, m) == lines ==> Stripped(lines, m) == lines
    decreases |lines|
  {
    if lines != [] && Keeps(lines, m) {
      UntilDeletedIsShared(lines[1..], NextMode(m, lines[0].directive));
      assert lines == [lines[0]] + lines[1..];
    }
  }

  /** After each kept class head a deciding character lies before the next #else or #elif, or none follows. */
  predicate HeadsDecided(lines: seq<Line>, m: Mode)
    decreases |lines|
  {
    lines != [] ==>
      && (Keeps(lines, m) && lines[0].classDecl.Some? ==>
            var shared := UntilDeleted(lines, m);
            shared == lines || Decided(Texts(shared), 0, lines[0].classDecl.value.end))
      && HeadsDecided(lines[1..], NextMode(m, lines[0].directive))
  }

  lemma DecidedAhead(shared: seq<Line>, lines: seq<Line>)
    requires shared != [] && shared <= lines && shared[0].classDecl.Some?
    requires Decided(Texts(shared), 0, shared[0].classDecl.value.end)
    ensures Ahead(lines) == Ahead(shared)
  {
    var more := lines[|shared|..];
    assert Texts(lines) == Texts(shared) + Texts(more);
    DecidedExtends(Texts(shared), Texts(more), 0, shared[0].classDecl.value.end);
  }

  lemma {:induction false} DecidedHeadsAgree(s: State, lines: seq<Line>, m: Mode)
    requires HeadsDecided(lines, m)
    ensures HeadsAgree(s, lines, m)
    decreases |lines|
  {
    if lines != [] {
      if Keeps(lines, m) && lines[0].classDecl.Some? {
        var shared := UntilDeleted(lines, m);
        UntilDeletedIsShared(lines, m);
        if shared != lines {
          DecidedAhead(shared, lines);
          DecidedAhead(shared, Stripped(lines, m));
        }
      }
      DecidedHeadsAgree(Updated(s, lines), lines[1..], NextMode(m, lines[0].directive));
    }
  }

  // ---- Well-nested regions ----

  datatype Code =
    | End
    | Simple(line: Line, next: Code)
    | Region(ifLine: Line, body: Code, elses: Elses, endif: Line, next: Code)

  datatype Elses = NoElses | Branch(line: Line, body: Code, more: Elses)

  predicate WellNested(c: Code) {
    match c
    case End => true
    case Simple(line, next) => line.directive == NoDirective && WellNested(next)
    case Region(i, body, elses, e, next) =>
      i.directive == If && WellNested(body) && WellNestedElses(elses) && e.directive == Endif && WellNested(next)
  }

  predicate WellNestedElses(e: Elses) {
    e.Branch? ==> e.line.directive == Else && WellNested(e.body) && WellNestedElses(e.more)
  }

  /** The lines of c followed by tail. */
  function Lines(c: Code, tail: seq<Line>): seq<Line> {
    match c
    case End => tail
    case Simple(line, next) => [line] + Lines(next, tail)
    case Region(i, body, elses, e, next) => [i] + Lines(body, ElseLines(elses, [e] + Lines(next, tail)))
  }

  function ElseLines(e: Elses, tail: seq<Line>): seq<Line> {
    match e
    case NoElses => tail
    case Branch(line, body, more) => [line] + Lines(body, ElseLines(more, tail))
  }

  /** c with every #else and #elif branch deleted, at every depth. */
  function FirstBranches(c: Code): Code {
    match c
    case End => End
    case Simple(line, next) => Simple(line, FirstBranches(next))
    case Region(i, body, _, e, next) => Region(i, FirstBranches(body), NoElses, e, FirstBranches(next))
  }

  lemma StripHead(line: Line, tail: seq<Line>, m: Mode)
    ensures var next := NextMode(m, line.directive);
            && Stripped([line] + tail, m) == (if next.Live? then [line] else []) + Stripped(tail, next)
            && ModeAfter([line] + tail, m) == ModeAfter(tail, next)
  {
    assert ([line] + tail)[1..] == tail;
  }

  /** Nothing of an #else branch is kept. */
  lemma {:induction false} DeadCode(c: Code, tail: seq<Line>, n: nat, k: nat)
    requires WellNested(c)
    ensures Stripped(Lines(c, tail), Dead(n, k)) == Stripped(tail, Dead(n, k))
    ensures ModeAfter(Lines(c, tail), Dead(n, k)) == ModeAfter(tail, Dead(n, k))
    decreases c
  {
    match c {
      case End =>
      case Simple(line, next) =>
        StripHead(line, Lines(next, tail), Dead(n, k));
        DeadCode(next, tail, n, k);
      case Region(i, body, elses, e, next) =>
        var after := [e] + Lines(next, tail);
        DeadHead(i, Lines(body, ElseLines(elses, after)), n, k);
        DeadCode(body, ElseLines(elses, after), n, k + 1);
        DeadElses(elses, after, n, k + 1);
        DeadHead(e, Lines(next, tail), n, k + 1);
        DeadCode(next, tail, n, k);
    }
  }

  /** An #if opens and an #endif closes a region inside a deleted branch. */
  lemma DeadHead(line: Line, tail: seq<Line>, n: nat, k: nat)
    requires line.directive == If || (line.directive == Endif && k > 0)
    ensures var next := Dead(n, if line.directive == If then k + 1 else k - 1);
            && Stripped([line] + tail, Dead(n, k)) == Stripped(tail, next)
            && ModeAfter([line] + tail, Dead(n, k)) == ModeAfter(tail, next)
  {
    StripHead(line, tail, Dead(n, k));
  }

  lemma {:induction false} DeadElses(e: Elses, tail: seq<Line>, n: nat, k: nat)
    requires WellNestedElses(e)
    ensures Stripped(ElseLines(e, tail), Dead(n, k)) == Stripped(tail, Dead(n, k))
    ensures ModeAfter(ElseLines(e, tail), Dead(n, k)) == ModeAfter(tail, Dead(n, k))
    decreases e
  {
    if e.Branch? {
      StripHead(e.line, Lines(e.body, ElseLines(e.more, tail)), Dead(n, k));
      DeadCode(e.body, ElseLines(e.more, tail), n, k);
      DeadElses(e.more, tail, n, k);
    }
  }

  /** The #else branches up to an #endif, seen from the first branch. */
  lemma ElsesVanish(elses: Elses, e: Line, rest: seq<Line>, n: nat)
    requires WellNestedElses(elses) && e.directive == Endif
    ensures Stripped(ElseLines(elses, [e] + rest), Live(n + 1)) == [e] + Stripped(rest, Live(n))
    ensures ModeAfter(ElseLines(elses, [e] + rest), Live(n + 1)) == ModeAfter(rest, Live(n))
  {
    match elses {
      case NoElses =>
        StripHead(e, rest, Live(n + 1));
      case Branch(line, body, more) =>
        var after := ElseLines(more, [e] + rest);
        StripHead(line, Lines(body, after), Live(n + 1));
        DeadCode(body, after, n + 1, 0);
        DeadElses(more, [e] + rest, n + 1, 0);
        StripHead(e, rest, Dead(n + 1, 0));
    }
  }

  /** On well-nested code, stripping is deleting the branches of the tree. */
  lemma {:induction false} StrippedIsFirstBranches(c: Code, tail: seq<Line>, n: nat)
    requires WellNested(c)
    ensures Stripped(Lines(c, tail), Live(n)) == Lines(FirstBranches(c), Stripped(tail, Live(n)))
    ensures ModeAfter(Lines(c, tail), Live(n)) == ModeAfter(tail, Live(n))
    decreases c
  {
    match c {
      case End =>
      case Simple(line, next) =>
        StripHead(line, Lines(next, tail), Live(n));
        StrippedIsFirstBranches(next, tail, n);
      case Region(i, body, elses, e, next) =>
        var after := ElseLines(elses, [e] + Lines(next, tail));
        StrippedIsFirstBranches(body, after, n + 1);
        ElsesVanish(elses, e, Lines(next, tail), n);
        StrippedIsFirstBranches(next, tail, n);
        StripRegion(i, Lines(body, after), n);
    }
  }

  lemma StripRegion(i: Line, inside: seq<Line>, n: nat)
    requires i.directive == If
    ensures Stripped([i] + inside, Live(n)) == [i] + Stripped(inside, Live(n + 1))
    ensures ModeAfter([i] + inside, Live(n)) == ModeAfter(inside, Live(n + 1))
  {
    StripHead(i, inside, Live(n));
  }

  /** The stack after the first branches of c, with no checkpoint taken at all; tail follows c. */
  function StackAfter(stack: seq<Block>, c: Code, tail: seq<Line>): seq<Block>
    decreases c
  {
    match c
    case End => stack
    case Simple(line, next) =>
      StackAfter(Scan(stack, [line] + Lines(FirstBranches(next), tail)), next, tail)
    case Region(i, body, _, e, next) =>
      var rest := [e] + Lines(FirstBranches(next), tail);
      var begun := Scan(stack, [i] + Lines(FirstBranches(body), rest));
      StackAfter(Scan(StackAfter(begun, body, rest), rest), next, tail)
  }

  lemma RunHead(s: State, line: Line, tail: seq<Line>)
    ensures RunAll(s, [line] + tail) == RunAll(Updated(s, [line] + tail), tail)
  {
    assert ([line] + tail)[1..] == tail;
  }

  lemma DirectiveSteps(stack: seq<Block>, cs: seq<Checkpoint>, before: seq<Block>, lines: seq<Line>)
    requires lines != []
    ensures lines[0].directive == NoDirective ==> Updated(State(stack, cs), lines) == State(Scan(stack, lines), cs)
    ensures lines[0].directive == If ==>
              Updated(State(stack, cs), lines) == State(Scan(stack, lines), cs + [Checkpoint(stack, [], false)])
    ensures lines[0].directive == Endif ==>
              Updated(State(stack, cs + [Checkpoint(before, [], false)]), lines) == State(Scan(stack, lines), cs)
  {
    assert Pop(cs + [Checkpoint(before, [], false)]) == cs;
  }

  lemma {:induction false} FirstBranchesRun(stack: seq<Block>, cs: seq<Checkpoint>, c: Code, tail: seq<Line>)
    requires WellNested(c)
    ensures RunAll(State(stack, cs), Lines(FirstBranches(c), tail))
            == RunAll(State(StackAfter(stack, c, tail), cs), tail)
    decreases c
  {
    match c {
      case End =>
      case Simple(line, next) =>
        var rest := Lines(FirstBranches(next), tail);
        RunHead(State(stack, cs), line, rest);
        DirectiveSteps(stack, cs, [], [line] + rest);
        FirstBranchesRun(Scan(stack, [line] + rest), cs, next, tail);
      case Region(i, body, _, e, next) =>
        var after := Lines(FirstBranches(next), tail);
        var all := [i] + Lines(FirstBranches(body), [e] + after);
        var inside := cs + [Checkpoint(stack, [], false)];
        var ended := StackAfter(Scan(stack, all), body, [e] + after);
        RunHead(State(stack, cs), i, Lines(FirstBranches(body), [e] + after));
        DirectiveSteps(stack, cs, [], all);
        FirstBranchesRun(Scan(stack, all), inside, body, [e] + after);
        RunHead(State(ended, inside), e, after);
        DirectiveSteps(ended, cs, stack, [e] + after);
        FirstBranchesRun(Scan(ended, [e] + after), cs, next, tail);
    }
  }

  /**
   Well-nested code whose kept class heads see the same leaves the state that
   deleting its #else branches leaves: the stack is that of its first branches,
   and every checkpoint is as it was.
   */
  lemma RegionsCountOnce(s: State, c: Code)
    requires WellNested(c) && HeadsAgree(s, Lines(c, []), Live(0))
    ensures RunAll(s, Lines(c, [])) == RunAll(s, Lines(FirstBranches(c), []))
    ensures RunAll(s, Lines(c, [])) == State(StackAfter(s.stack, c, []), s.checkpoints)
  {
    var lines := Lines(c, []);
    StrippedIsFirstBranches(c, [], 0);
    StrippedRunsAlike(s, lines);
    FirstBranchesRun(s.stack, s.checkpoints, c, []);
  }

  /** The same from what a reader can check, whatever the state. */
  lemma DecidedRegionsCountOnce(s: State, c: Code)
    requires WellNested(c) && HeadsDecided(Lines(c, []), Live(0))
    ensures RunAll(s, Lines(c, [])) == State(StackAfter(s.stack, c, []), s.checkpoints)
  {
    DecidedHeadsAgree(s, Lines(c, []), Live(0));
    RegionsCountOnce(s, c);
  }

  // ---- Where the branches start ----

  /** Well-nested code leaves the checkpoints as they were, whatever class heads see. */
  lemma {:induction false} RunsThrough(s: State, c: Code, tail: seq<Line>) returns (stack: seq<Block>)
    requires WellNested(c)
    ensures RunAll(s, Lines(c, tail)) == RunAll(State(stack, s.checkpoints), tail)
    decreases c
  {
    match c {
      case End =>
        stack := s.stack;
      case Simple(line, next) =>
        var lines := [line] + Lines(next, tail);
        RunHead(s, line, Lines(next, tail));
        DirectiveSteps(s.stack, s.checkpoints, [], lines);
        stack := RunsThrough(Updated(s, lines), next, tail);
      case Region(i, body, elses, e, next) =>
        var after := [e] + Lines(next, tail);
        var lines := [i] + Lines(body, ElseLines(elses, after));
        RunHead(s, i, Lines(body, ElseLines(elses, after)));
        DirectiveSteps(s.stack, s.checkpoints, [], lines);
        stack := RunsThrough(Updated(s, lines), body, ElseLines(elses, after));
        var c0;
        stack, c0 := ElsesThrough(stack, s.checkpoints, Checkpoint(s.stack, [], false), elses, after);
        RunHead(State(stack, s.checkpoints + [c0]), e, Lines(next, tail));
        var closed := EndifStep(stack, s.checkpoints, c0, after);
        stack := RunsThrough(closed, next, tail);
    }
  }

  lemma EndifStep(stack: seq<Block>, cs: seq<Checkpoint>, c: Checkpoint, lines: seq<Line>) returns (r: State)
    requires lines != [] && lines[0].directive == Endif
    ensures r == Updated(State(stack, cs + [c]), lines) && r.checkpoints == cs
  {
    assert Pop(cs + [c]) == cs;
    r := Updated(State(stack, cs + [c]), lines);
  }

  /** An #else line brings back the stack of the #if, which the checkpoint goes on holding. */
  lemma ElseStep(stack: seq<Block>, cs: seq<Checkpoint>, c: Checkpoint, lines: seq<Line>) returns (c': Checkpoint)
    requires lines != [] && lines[0].directive == Else
    ensures Updated(State(stack, cs + [c]), lines) == State(Scan(c.beforeIf, lines), cs + [c'])
    ensures c'.beforeIf == c.beforeIf
  {
    c' := if c.seenElse then c else c.(seenElse := true, beforeElse := stack);
    assert SetTop(cs + [c], c') == cs + [c'];
  }

  lemma {:induction false} ElsesThrough(
    s: seq<Block>, cs: seq<Checkpoint>, c: Checkpoint, elses: Elses, tail: seq<Line>)
    returns (stack: seq<Block>, c': Checkpoint)
    requires WellNestedElses(elses)
    ensures RunAll(State(s, cs + [c]), ElseLines(elses, tail)) == RunAll(State(stack, cs + [c']), tail)
    ensures c'.beforeIf == c.beforeIf
    decreases elses
  {
    match elses {
      case NoElses =>
        stack, c' := s, c;
      case Branch(line, body, more) =>
        var rest := Lines(body, ElseLines(more, tail));
        RunHead(State(s, cs + [c]), line, rest);
        c' := ElseStep(s, cs, c, [line] + rest);
        stack := RunsThrough(State(Scan(c.beforeIf, [line] + rest), cs + [c']), body, ElseLines(more, tail));
        stack, c' := ElsesThrough(stack, cs, c', more, tail);
    }
  }

  /** Every #else or #elif branch of a region starts with the stack that the region's #if found. */
  lemma BranchesStartAlike(s: State, i: Line, body: Code, elses: Elses, line: Line, tail: seq<Line>)
    returns (checkpoints: seq<Checkpoint>)
    requires i.directive == If && WellNested(body) && WellNestedElses(elses) && line.directive == Else
    ensures RunAll(s, [i] + Lines(body, ElseLines(elses, [line] + tail)))
            == RunAll(State(Scan(s.stack, [line] + tail), checkpoints), tail)
    ensures |checkpoints| == |s.checkpoints| + 1 && checkpoints[..|s.checkpoints|] == s.checkpoints
  {
    var after := ElseLines(elses, [line] + tail);
    var lines := [i] + Lines(body, after);
    RunHead(s, i, Lines(body, after));
    DirectiveSteps(s.stack, s.checkpoints, [], lines);
    var stack := RunsThrough(Updated(s, lines), body, after);
    var c;
    stack, c := ElsesThrough(stack, s.checkpoints, Checkpoint(s.stack, [], false), elses, [line] + tail);
    RunHead(State(stack, s.checkpoints + [c]), line, tail);
    c := ElseStep(stack, s.checkpoints, c, [line] + tail);
    checkpoints := s.checkpoints + [c];
  }

  // ---- A head that looks into the deleted lines ----

  function PlainLine(number: nat, text: string, directive: Directive, tokens: seq<Token>): Line {
    Line(number, text, directive, 0, false, [], None, false, Rest(None, tokens))
  }

  const CLASS_FOO: ClassDecl := ClassDecl("Foo", false, 9, Rest(None, []))

  const CLASS_LINE: Line := PlainLine(1, "class Foo", NoDirective, []).(classDecl := Some(CLASS_FOO))

  const BLOCK_FOO: Block := Block(Class("Foo", false, "private", false), 1, false, 0, NoAsm)

  const IF_LINE: Line := PlainLine(0, "#if A", If, [])
  const ELSE_LINE: Line := PlainLine(2, "#else", Else, [])
  const INT_LINE: Line := PlainLine(3, "int x = 1;", NoDirective, [Semicolon])
  const ENDIF_LINE: Line := PlainLine(4, "#endif", Endif, [])

  /** The body of the class follows the region. */
  function AfterEndif(): Code {
    Simple(PlainLine(5, "{", NoDirective, [OpenBrace(false, false)]),
           Simple(PlainLine(6, "};", NoDirective, [CloseBrace, Semicolon]), End))
  }

  function Example(elses: Elses): Code {
    Region(IF_LINE, Simple(CLASS_LINE, End), elses, ENDIF_LINE, AfterEndif())
  }

  const DROPPED: Elses := Branch(ELSE_LINE, Simple(INT_LINE, End), NoElses)

  /** The lines from the #endif on, and from the class head on. */
  function FromEndif(): seq<Line> {
    [ENDIF_LINE] + Lines(AfterEndif(), [])
  }

  function FromHead(elses: Elses): seq<Line> {
    [CLASS_LINE] + ElseLines(elses, FromEndif())
  }

  /** How many lines come up to the #endif and with it. */
  function UpToEndif(elses: Elses): nat {
    3 + |ElseLines(elses, [])|
  }

  lemma ExampleLines(elses: Elses)
    ensures Lines(Example(elses), []) == [IF_LINE] + FromHead(elses)
    ensures ElseLines(DROPPED, FromEndif()) == [ELSE_LINE] + ([INT_LINE] + FromEndif())
  {
    assert Lines(Simple(CLASS_LINE, End), ElseLines(elses, FromEndif())) == FromHead(elses);
    assert Lines(Simple(INT_LINE, End), FromEndif()) == [INT_LINE] + FromEndif();
  }

  lemma NoStopIn(texts: seq<string>, l: nat, p: nat)
    requires l < |texts| && p <= |texts[l]| && forall j :: p <= j < |texts[l]| ==> !Stops(texts[l][j])
    ensures LookAhead(texts, l, p) == LookAhead(texts, l + 1, 0)
  {
  }

  lemma StopAt(texts: seq<string>, l: nat, k: nat)
    requires l < |texts| && k < |texts[l]| && Stops(texts[l][k]) && texts[l][k] != '<'
    requires forall j :: 0 <= j < k ==> !Stops(texts[l][j])
    ensures LookAhead(texts, l, 0) == (texts[l][k] != '{' && texts[l][k] != '}' && texts[l][k] != ';')
  {
    assert FirstStop(texts[l], 0) == k;
  }

  /** With the branch the look-ahead meets its '='. */
  lemma HeadSeesBranch()
    ensures Ahead(FromHead(DROPPED))
  {
    var lines := FromHead(DROPPED);
    ExampleLines(DROPPED);
    assert lines[0] == CLASS_LINE && lines[1] == ELSE_LINE && lines[2] == INT_LINE;
    EqualsDecides(Texts(lines));
  }

  lemma EqualsDecides(texts: seq<string>)
    requires |texts| > 2 && texts[0] == "class Foo" && texts[1] == "#else" && texts[2] == "int x = 1;"
    ensures LookAhead(texts, 0, 9)
  {
    NoStopIn(texts, 0, 9);
    NoStopIn(texts, 1, 0);
    StopAt(texts, 2, 6);
  }

  /** Without it, it meets the '{'. */
  lemma HeadSeesBrace()
    ensures !Ahead(FromHead(NoElses))
  {
    var lines := FromHead(NoElses);
    assert lines[0] == CLASS_LINE && lines[1] == ENDIF_LINE && lines[2].text == "{";
    NoStopIn(Texts(lines), 0, 9);
    NoStopIn(Texts(lines), 1, 0);
    StopAt(Texts(lines), 2, 0);
  }

  /** A line that leaves a stack that is empty or holds the open head as it is. */
  lemma QuietLine(stack: seq<Block>, lines: seq<Line>)
    requires stack == [] || stack == [BLOCK_FOO]
    requires lines != [] && (lines[0] == IF_LINE || lines[0] == ELSE_LINE || lines[0] == ENDIF_LINE)
    ensures Scan(stack, lines) == stack
  {
  }

  lemma IntLineIsQuiet(lines: seq<Line>)
    requires lines != [] && lines[0] == INT_LINE
    ensures Scan([], lines) == []
  {
    assert ConsumeAll([], [Semicolon], 3) == ConsumeAll([], [], 3);
  }

  /** The run after the #if and the class head. */
  lemma AfterHead(elses: Elses, k: nat)
    requires k <= |ElseLines(elses, FromEndif())|
    ensures var stack := if Ahead(FromHead(elses)) then [] else [BLOCK_FOO];
            Run(State([], []), [IF_LINE] + FromHead(elses), k + 2)
            == Run(State(stack, [Checkpoint([], [], false)]), ElseLines(elses, FromEndif()), k)
  {
    var lines := [IF_LINE] + FromHead(elses);
    var s1 := State([], [Checkpoint([], [], false)]);
    QuietLine([], lines);
    assert Updated(State([], []), lines) == s1;
    HeadOpens(FromHead(elses));
    RunTail(State([], []), lines, k + 2, FromHead(elses), k + 1);
    RunTail(s1, FromHead(elses), k + 1, ElseLines(elses, FromEndif()), k);
  }

  lemma HeadOpens(lines: seq<Line>)
    requires lines != [] && lines[0] == CLASS_LINE
    ensures Scan([], lines) == if Ahead(lines) then [] else [BLOCK_FOO]
  {
  }

  /** The branch is seen, so the class is not open after the #endif. */
  lemma WholeExample()
    ensures UpToEndif(DROPPED) == 5
    ensures Run(State([], []), [IF_LINE] + FromHead(DROPPED), UpToEndif(DROPPED)).stack == []
  {
    var k := UpToEndif(DROPPED) - 2;
    assert k == 3;
    HeadSeesBranch();
    ExampleLines(DROPPED);
    AfterHead(DROPPED, k);
    BranchIsUndone(k);
  }

  lemma BranchIsUndone(k: nat)
    requires k == 3
    ensures Run(State([], [Checkpoint([], [], false)]), [ELSE_LINE] + ([INT_LINE] + FromEndif()), k).stack == []
  {
    var c, d := Checkpoint([], [], false), Checkpoint([], [], true);
    var l3 := [INT_LINE] + FromEndif();
    QuietLine([], [ELSE_LINE] + l3);
    assert Updated(State([], [c]), [ELSE_LINE] + l3) == State([], [d]);
    RunTail(State([], [c]), [ELSE_LINE] + l3, k, l3, k - 1);
    IntLineIsQuiet(l3);
    RunTail(State([], [d]), l3, k - 1, FromEndif(), k - 2);
    QuietLine([], FromEndif());
    RunTail(State([], [d]), FromEndif(), k - 2, Lines(AfterEndif(), []), k - 3);
  }

  /** Without the branch it is. */
  lemma StrippedExample()
    ensures UpToEndif(NoElses) == 3
    ensures Run(State([], []), [IF_LINE] + FromHead(NoElses), UpToEndif(NoElses)).stack == [BLOCK_FOO]
  {
    var k := UpToEndif(NoElses) - 2;
    assert k == 1;
    HeadSeesBrace();
    assert ElseLines(NoElses, FromEndif()) == FromEndif();
    AfterHead(NoElses, k);
    HeadStaysOpen(k);
  }

  lemma HeadStaysOpen(k: nat)
    requires k == 1
    ensures Run(State([BLOCK_FOO], [Checkpoint([], [], false)]), FromEndif(), k).stack == [BLOCK_FOO]
  {
    QuietLine([BLOCK_FOO], FromEndif());
    RunTail(State([BLOCK_FOO], [Checkpoint([], [], false)]), FromEndif(), k, Lines(AfterEndif(), []), k - 1);
  }

  lemma ExampleIsNested()
    ensures WellNested(Example(DROPPED)) && FirstBranches(Example(DROPPED)) == Example(NoElses)
    ensures UpToEndif(DROPPED) <= |[IF_LINE] + FromHead(DROPPED)|
    ensures UpToEndif(NoElses) <= |[IF_LINE] + FromHead(NoElses)|
  {
    ExampleLines(DROPPED);
  }

  /**
   The input on which deleting an #else branch changes the nesting stack: after
   the #endif the class is open without the branch, and not open with it.
   */
  lemma DeletionChangesStack()
    ensures WellNested(Example(DROPPED)) && FirstBranches(Example(DROPPED)) == Example(NoElses)
    ensures UpToEndif(DROPPED) <= |Lines(Example(DROPPED), [])| && UpToEndif(NoElses) <= |Lines(Example(NoElses), [])|
    ensures Run(State([], []), Lines(Example(DROPPED), []), UpToEndif(DROPPED)).stack == []
    ensures Run(State([], []), Lines(Example(NoElses), []), UpToEndif(NoElses)).stack == [BLOCK_FOO]
  {
    ExampleIsNested();
    ExampleLines(DROPPED);
    ExampleLines(NoElses);
    WholeExample();
    StrippedExample();
  }
}
