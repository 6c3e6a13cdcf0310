/**
 Started at a round, square or curly bracket, cpplint's matchers find exactly
 the partner of the balanced-bracket grammar in the concatenated lines, whatever
 the angle-bracket heuristics do on the way.
 */
module BracketTheorems {
  import opened BracketGrammar
  import opened BracketMatchers
  import opened Options
  import opened Sequences

  // ---- A stack without its tentative angle brackets ----

  function Real(stack: string, a: char): string {
    if stack == [] then []
    else if Last(stack) == a then Real(Init(stack), a)
    else Real(Init(stack), a) + [Last(stack)]
  }

  lemma RealPush(stack: string, c: char, a: char)
    ensures Real(stack + [c], a) == if c == a then Real(stack, a) else Real(stack, a) + [c]
  {
    assert Init(stack + [c]) == stack;
  }

  lemma RealOfOne(c: char, a: char)
    requires c != a
    ensures Real([c], a) == [c]
  {
    assert Init([c]) == [];
  }

  /** The scan started at a bracket other than the tentative one. */
  predicate Anchored(stack: string, a: char) {
    stack != [] && stack[0] != a
  }

  lemma {:induction false} AnchoredReal(stack: string, a: char)
    requires Anchored(stack, a)
    ensures Real(stack, a) != []
    ensures Last(stack) == a ==> |stack| > 1 && Anchored(Init(stack), a)
  {
    if Last(stack) == a {
      AnchoredReal(Init(stack), a);
    }
  }

  /** A real bracket on top is the top of the real stack too. */
  lemma RealTop(stack: string, a: char)
    requires Anchored(stack, a) && Last(stack) != a
    ensures var r := Real(stack, a);
            r != [] && Last(r) == Last(stack) && Init(r) == Real(Init(stack), a)
    ensures |stack| == 1 <==> |Real(stack, a)| == 1
    ensures |stack| > 1 ==> Anchored(Init(stack), a)
  {
    if |stack| > 1 {
      AnchoredReal(Init(stack), a);
    }
  }

  lemma {:induction false} RealDrop(stack: string, a: char)
    requires Anchored(stack, a)
    ensures var kept := DropAngles(stack, a);
            Anchored(kept, a) && Last(kept) != a && Real(kept, a) == Real(stack, a)
  {
    if Last(stack) == a {
      AnchoredReal(stack, a);
      RealDrop(Init(stack), a);
    }
  }

  /** Dropping the tentative brackets brings the top of the real stack up. */
  lemma KeptTop(stack: string, a: char)
    requires Anchored(stack, a)
    ensures Real(stack, a) != []
    ensures var kept, r := DropAngles(stack, a), Real(stack, a);
            && kept != [] && Last(kept) == Last(r) && (|kept| == 1 <==> |r| == 1)
            && (|kept| > 1 ==> Anchored(Init(kept), a) && Real(Init(kept), a) == Init(r) != [])
  {
    var kept := DropAngles(stack, a);
    RealDrop(stack, a);
    RealTop(kept, a);
    if |kept| > 1 {
      AnchoredReal(Init(kept), a);
    }
  }

  /** A scan of one line seen without its tentative brackets. */
  function Plainly(r: LineResult, a: char): Verdict {
    match r
    case Ended(p) => Found(p)
    case Broken => Mismatch
    case Unfinished(stack) => Open(Real(stack, a))
  }

  ghost predicate StaysAnchored(r: LineResult, a: char) {
    r.Unfinished? ==> Anchored(r.stack, a)
  }

  // ---- Forward ----

  /** One step of the heuristic scan does to the real stack what the plain machine does. */
  ghost predicate EndStepAgrees(line: string, i: nat, stack: string)
    requires i < |line| && Real(stack, '<') != []
  {
    match EndStep(line, i, stack)
    case Stop(r) => !r.Unfinished? && Plainly(r, '<') == Forward(line, i, Real(stack, '<'))
    case Go(j, next) =>
      j == i + 1 && Anchored(next, '<') && Real(next, '<') != []
      && Forward(line, i, Real(stack, '<')) == Forward(line, i + 1, Real(next, '<'))
  }

  lemma EndStepAtCloser(line: string, i: nat, stack: string)
    requires i < |line| && Anchored(stack, '<') && IsCloser(line[i])
    ensures Real(stack, '<') != [] && EndStepAgrees(line, i, stack)
  {
    KeptTop(stack, '<');
  }

  lemma EndStepAtSemicolon(line: string, i: nat, stack: string)
    requires i < |line| && Anchored(stack, '<') && line[i] == ';'
    ensures Real(stack, '<') != [] && EndStepAgrees(line, i, stack)
  {
    RealDrop(stack, '<');
    AnchoredReal(stack, '<');
  }

  lemma EndStepAtAngle(line: string, i: nat, stack: string)
    requires i < |line| && Anchored(stack, '<') && (line[i] == '<' || line[i] == '>')
    ensures Real(stack, '<') != [] && EndStepAgrees(line, i, stack)
  {
    AnchoredReal(stack, '<');
    RealPush(stack, '<', '<');
  }

  lemma EndStepRefines(line: string, i: nat, stack: string)
    requires i < |line| && Anchored(stack, '<')
    ensures Real(stack, '<') != [] && EndStepAgrees(line, i, stack)
  {
    if IsCloser(line[i]) {
      EndStepAtCloser(line, i, stack);
    } else if line[i] == ';' {
      EndStepAtSemicolon(line, i, stack);
    } else if line[i] == '<' || line[i] == '>' {
      EndStepAtAngle(line, i, stack);
    } else {
      AnchoredReal(stack, '<');
      RealPush(stack, line[i], '<');
    }
  }

  lemma {:induction false} FindEndRefines(line: string, i: nat, stack: string)
    requires i <= |line| && Anchored(stack, '<')
    ensures Real(stack, '<') != []
    ensures Plainly(FindEnd(line, i, stack), '<') == Forward(line, i, Real(stack, '<'))
    ensures StaysAnchored(FindEnd(line, i, stack), '<')
    decreases |line| - i
  {
    AnchoredReal(stack, '<');
    if i < |line| {
      EndStepRefines(line, i, stack);
      match EndStep(line, i, stack) {
        case Stop(_) =>
        case Go(_, next) => FindEndRefines(line, i + 1, next);
      }
    }
  }

  /** The plain machine in a line does what it does where that line lies in a text. */
  lemma {:induction false} ForwardInText(t: string, off: nat, line: string, i: nat, stack: string)
    requires off + |line| <= |t| && t[off..off + |line|] == line
    requires i <= |line| && stack != []
    ensures match Forward(line, i, stack)
            case Found(e) => Forward(t, off + i, stack) == Found(off + e)
            case Mismatch => Forward(t, off + i, stack) == Mismatch
            case Open(st) => st != [] && Forward(t, off + i, stack) == Forward(t, off + |line|, st)
    decreases |line| - i
  {
    if i < |line| {
      assert t[off + i] == line[i];
      if IsOpener(line[i]) {
        ForwardInText(t, off, line, i + 1, stack + [line[i]]);
      } else if !IsCloser(line[i]) {
        ForwardInText(t, off, line, i + 1, stack);
      } else if Pairs(Last(stack), line[i]) && |stack| > 1 {
        ForwardInText(t, off, line, i + 1, Init(stack));
      }
    }
  }

  // ---- Positions in the concatenated lines ----

  function Offset(lines: seq<string>, l: nat): nat
    requires l <= |lines|
  {
    |Flatten(lines[..l])|
  }

  lemma NextOffset(lines: seq<string>, l: nat)
    requires l < |lines|
    ensures Offset(lines, l + 1) == Offset(lines, l) + |lines[l]|
  {
    FlattenSnoc(lines[..l], lines[l]);
    assert lines[..l + 1] == lines[..l] + [lines[l]];
  }

  lemma LineInText(lines: seq<string>, l: nat)
    requires l < |lines|
    ensures var t, off := Flatten(lines), Offset(lines, l);
            off + |lines[l]| <= |t| && t[off..off + |lines[l]|] == lines[l]
            && off + |lines[l]| == Offset(lines, l + 1)
  {
    NextOffset(lines, l);
    FlattenSplit(lines, l);
    var rest := lines[l..];
    assert Flatten(rest) == lines[l] + Flatten(rest[1..]);
    SliceOfConcat(Flatten(lines[..l]), lines[l], Flatten(rest[1..]));
  }

  lemma SliceOfConcat(a: string, b: string, c: string)
    ensures (a + (b + c))[|a|..|a| + |b|] == b
  {
  }

  lemma CharInText(lines: seq<string>, l: nat, p: nat)
    requires l < |lines| && p < |lines[l]|
    ensures Offset(lines, l) + p < |Flatten(lines)|
    ensures Flatten(lines)[Offset(lines, l) + p] == lines[l][p]
  {
    LineInText(lines, l);
    var off := Offset(lines, l);
    assert Flatten(lines)[off..off + |lines[l]|][p] == lines[l][p];
  }

  lemma {:induction false} OffsetsGrow(lines: seq<string>, l: nat, m: nat)
    requires l < m <= |lines|
    ensures Offset(lines, l) + |lines[l]| <= Offset(lines, m)
    decreases m
  {
    LineInText(lines, m - 1);
    if l < m - 1 {
      OffsetsGrow(lines, l, m - 1);
    }
  }

  lemma OffsetIsInjective(lines: seq<string>, l: nat, p: nat, m: nat, q: nat)
    requires l < |lines| && p < |lines[l]| && m < |lines| && q < |lines[m]|
    requires Offset(lines, l) + p == Offset(lines, m) + q
    ensures l == m && p == q
  {
    if l < m {
      OffsetsGrow(lines, l, m);
    } else if m < l {
      OffsetsGrow(lines, m, l);
    }
  }

  /** Where an answer lies in the concatenated lines. */
  function Absolute(lines: seq<string>, r: Place): Option<int>
    requires r.At? ==> r.line <= |lines|
  {
    match r
    case At(l, p) => Some(Offset(lines, l) + p)
    case Nowhere => None
  }

  function Position(v: Verdict): Option<int> {
    if v.Found? then Some(v.pos) else None
  }

  /** Where the plain machine started after the bracket at s ends. */
  function EndOf(t: string, s: nat): Option<int>
    requires s < |t|
  {
    Position(Forward(t, s + 1, [t[s]]))
  }

  /** Where the plain machine started before the bracket at s ends. */
  function StartOf(t: string, s: nat): Option<int>
    requires s < |t|
  {
    Position(Backward(t, s - 1, [t[s]]))
  }

  ghost predicate HasPartner(t: string, p: nat) {
    exists q :: Encloses(t, p, q)
  }

  // ---- CloseExpression is exact ----

  lemma {:induction false} CloseFromRefines(lines: seq<string>, l: nat, stack: string)
    requires l <= |lines| && Anchored(stack, '<')
    ensures Real(stack, '<') != [] && Offset(lines, l) <= |Flatten(lines)|
    ensures Absolute(lines, CloseFrom(lines, l, stack))
         == Position(Forward(Flatten(lines), Offset(lines, l), Real(stack, '<')))
    decreases |lines| - l
  {
    AnchoredReal(stack, '<');
    if l == |lines| {
      assert lines[..l] == lines;
    } else {
      LineInText(lines, l);
      FindEndRefines(lines[l], 0, stack);
      ForwardInText(Flatten(lines), Offset(lines, l), lines[l], 0, Real(stack, '<'));
      var r := FindEnd(lines[l], 0, stack);
      if r.Unfinished? {
        CloseFromRefines(lines, l + 1, r.stack);
      }
    }
  }

  lemma CloseRefines(lines: seq<string>, l: nat, p: nat)
    requires l < |lines| && p < |lines[l]| && IsOpener(lines[l][p])
    ensures Offset(lines, l) + p < |Flatten(lines)|
    ensures Absolute(lines, Close(lines, l, p)) == EndOf(Flatten(lines), Offset(lines, l) + p)
  {
    var o := [lines[l][p]];
    CharInText(lines, l, p);
    LineInText(lines, l);
    FindEndPushes(lines[l], p);
    ForwardInText(Flatten(lines), Offset(lines, l), lines[l], p + 1, o);
    var r := FindEnd(lines[l], p, "");
    if r.Unfinished? {
      CloseFromRefines(lines, l + 1, r.stack);
    }
  }

  /** The first character that CloseExpression scans is the bracket it starts at. */
  lemma FindEndPushes(line: string, p: nat)
    requires p < |line| && IsOpener(line[p])
    ensures var r := FindEnd(line, p, "");
            Plainly(r, '<') == Forward(line, p + 1, [line[p]]) && StaysAnchored(r, '<')
  {
    assert "" + [line[p]] == [line[p]];
    RealOfOne(line[p], '<');
    FindEndRefines(line, p + 1, [line[p]]);
  }

  /** CloseExpression ends after the character at q of line m exactly when the grammar pairs it with p. */
  lemma CloseIsExact(lines: seq<string>, l: nat, p: nat, m: nat, q: nat)
    requires l < |lines| && p < |lines[l]| && IsOpener(lines[l][p])
    requires m < |lines| && q < |lines[m]|
    ensures Close(lines, l, p) == At(m, q + 1)
       <==> Encloses(Flatten(lines), Offset(lines, l) + p, Offset(lines, m) + q)
  {
    CharInText(lines, l, p);
    CloseRefines(lines, l, p);
    EndOfExact(Flatten(lines), Offset(lines, l) + p, Offset(lines, m) + q);
    EndIs(lines, Close(lines, l, p), m, q);
  }

  lemma EndOfExact(t: string, s: nat, q: nat)
    requires s < |t| && IsOpener(t[s])
    ensures EndOf(t, s) == Some(q + 1) <==> Encloses(t, s, q)
  {
    ForwardExact(t, s, q);
  }

  /** An answer just after a character is known by its place in the concatenated lines. */
  lemma EndIs(lines: seq<string>, r: Place, m: nat, q: nat)
    requires m < |lines| && q < |lines[m]|
    requires r.At? ==> r.line < |lines| && 0 < r.pos <= |lines[r.line]|
    ensures r == At(m, q + 1) <==> Absolute(lines, r) == Some(Offset(lines, m) + q + 1)
  {
    if Absolute(lines, r) == Some(Offset(lines, m) + q + 1) {
      OffsetIsInjective(lines, r.line, r.pos - 1, m, q);
    }
  }

  /** It gives up exactly when the bracket has no partner in the whole text. */
  lemma CloseGivesUp(lines: seq<string>, l: nat, p: nat)
    requires l < |lines| && p < |lines[l]| && IsOpener(lines[l][p])
    ensures Close(lines, l, p) == Nowhere <==> !HasPartner(Flatten(lines), Offset(lines, l) + p)
  {
    var t, s := Flatten(lines), Offset(lines, l) + p;
    CharInText(lines, l, p);
    CloseRefines(lines, l, p);
    var v := Forward(t, s + 1, [t[s]]);
    if v.Found? {
      FoundIsBalanced(t, s + 1, t[s]);
      assert Encloses(t, s, v.pos - 1);
    } else {
      forall q
        ensures !Encloses(t, s, q)
      {
        ForwardExact(t, s, q);
      }
    }
  }

  /** Where the line breaks fall does not matter. */
  lemma CloseIgnoresLineBreaks(a: seq<string>, i: nat, p: nat, b: seq<string>, j: nat, q: nat)
    requires Flatten(a) == Flatten(b)
    requires i < |a| && p < |a[i]| && j < |b| && q < |b[j]| && IsOpener(a[i][p])
    requires Offset(a, i) + p == Offset(b, j) + q
    ensures Absolute(a, Close(a, i, p)) == Absolute(b, Close(b, j, q))
  {
    CharInText(a, i, p);
    CharInText(b, j, q);
    CloseRefines(a, i, p);
    CloseRefines(b, j, q);
  }

  // ---- ReverseCloseExpression is exact ----

  ghost predicate StartStepAgrees(line: string, i: nat, stack: string, step: Step)
    requires i < |line| && Real(stack, '>') != []
  {
    match step
    case Stop(r) => !r.Unfinished? && Plainly(r, '>') == Backward(line, i, Real(stack, '>'))
    case Go(j, next) =>
      -1 <= j < i && Anchored(next, '>') && Real(next, '>') != []
      && Backward(line, i, Real(stack, '>')) == Backward(line, j, Real(next, '>'))
  }

  lemma StartStepAtOpener(line: string, i: nat, stack: string)
    requires i < |line| && Anchored(stack, '>') && IsOpener(line[i])
    ensures Real(stack, '>') != [] && StartStepAgrees(line, i, stack, StartStepOn(line[i], i, stack))
  {
    KeptTop(stack, '>');
  }

  lemma StartStepAtSemicolon(line: string, i: nat, stack: string)
    requires i < |line| && Anchored(stack, '>') && line[i] == ';'
    ensures Real(stack, '>') != [] && StartStepAgrees(line, i, stack, StartStepOn(line[i], i, stack))
  {
    RealDrop(stack, '>');
    AnchoredReal(stack, '>');
  }

  lemma StartStepElsewhere(line: string, i: nat, stack: string)
    requires i < |line| && Anchored(stack, '>') && !IsOpener(line[i]) && line[i] != ';'
    ensures Real(stack, '>') != [] && StartStepAgrees(line, i, stack, StartStepOn(line[i], i, stack))
  {
    AnchoredReal(stack, '>');
    RealPush(stack, line[i], '>');
  }

  lemma StartStepRefines(line: string, i: nat, stack: string)
    requires i < |line| && Anchored(stack, '>')
    ensures Real(stack, '>') != [] && StartStepAgrees(line, i, stack, StartStep(line, i, stack))
  {
    if Skips(line, i) {
      AnchoredReal(stack, '>');
      BackwardSkipsTwo(line, i, Real(stack, '>'));
    } else if IsOpener(line[i]) {
      StartStepAtOpener(line, i, stack);
    } else if line[i] == ';' {
      StartStepAtSemicolon(line, i, stack);
    } else {
      StartStepElsewhere(line, i, stack);
    }
  }

  lemma BackwardSkipsTwo(line: string, i: nat, stack: string)
    requires i < |line| && Skips(line, i) && stack != []
    ensures i > 0 && Backward(line, i, stack) == Backward(line, i - 2, stack)
  {
    SkippedIsPlain(line, i);
    assert Backward(line, i, stack) == Backward(line, i - 1, stack);
  }

  /** The character that the backward scan skips beside an ignored '>' or a '<<' is no bracket. */
  lemma SkippedIsPlain(line: string, i: nat)
    requires i < |line| && Skips(line, i)
    ensures !Significant(line, i) && !Significant(line, i - 1)
  {
    if BackwardIgnores(line, i) && EndsWithOperator(line, i) {
      OperatorTail(line, i);
    }
  }

  /** A character that the backward scan reacts to even on an empty stack. */
  predicate Significant(line: string, i: nat)
    requires i < |line|
  {
    IsOpener(line[i]) || IsCloser(line[i]) || line[i] == ';' || (line[i] == '>' && !Skips(line, i))
  }

  lemma {:induction false} FindStartRefines(line: string, i: int, stack: string)
    requires -1 <= i < |line| && Anchored(stack, '>')
    ensures Real(stack, '>') != []
    ensures Plainly(FindStart(line, i, stack), '>') == Backward(line, i, Real(stack, '>'))
    ensures StaysAnchored(FindStart(line, i, stack), '>')
    decreases i + 1
  {
    AnchoredReal(stack, '>');
    if i >= 0 {
      StartStepRefines(line, i, stack);
      match StartStep(line, i, stack) {
        case Stop(_) =>
        case Go(j, next) => FindStartRefines(line, j, next);
      }
    }
  }

  lemma {:induction false} BackwardInText(t: string, off: nat, line: string, i: int, stack: string)
    requires off + |line| <= |t| && t[off..off + |line|] == line
    requires -1 <= i < |line| && stack != []
    ensures match Backward(line, i, stack)
            case Found(p) => Backward(t, off + i, stack) == Found(off + p)
            case Mismatch => Backward(t, off + i, stack) == Mismatch
            case Open(st) => st != [] && Backward(t, off + i, stack) == Backward(t, off - 1, st)
    decreases i + 1
  {
    if i >= 0 {
      assert t[off + i] == line[i];
      if IsCloser(line[i]) {
        BackwardInText(t, off, line, i - 1, stack + [line[i]]);
      } else if !IsOpener(line[i]) {
        BackwardInText(t, off, line, i - 1, stack);
      } else if Pairs(line[i], Last(stack)) && |stack| > 1 {
        BackwardInText(t, off, line, i - 1, Init(stack));
      }
    }
  }

  lemma {:induction false} ReverseFromRefines(lines: seq<string>, n: nat, stack: string)
    requires n <= |lines| && Anchored(stack, '>')
    ensures Real(stack, '>') != [] && Offset(lines, n) <= |Flatten(lines)|
    ensures Absolute(lines, ReverseFrom(lines, n, stack))
         == Position(Backward(Flatten(lines), Offset(lines, n) - 1, Real(stack, '>')))
    decreases n, 0
  {
    AnchoredReal(stack, '>');
    if n > 0 {
      var line := lines[n - 1];
      LineInText(lines, n - 1);
      FindStartRefines(line, |line| - 1, stack);
      ReverseAfterRefines(lines, n - 1, |line| - 1, Real(stack, '>'), FindStart(line, |line| - 1, stack));
    }
  }

  /** A line was scanned down from i with the result r; the rest of the scan follows. */
  lemma {:induction false} ReverseAfterRefines(lines: seq<string>, m: nat, i: int, stack: string, r: LineResult)
    requires m < |lines| && -1 <= i < |lines[m]| && stack != []
    requires Plainly(r, '>') == Backward(lines[m], i, stack) && StaysAnchored(r, '>')
    ensures Offset(lines, m) + |lines[m]| <= |Flatten(lines)|
    ensures var after := ReverseAfter(lines, m, r);
            after.At? ==> after.line <= m
    ensures Absolute(lines, ReverseAfter(lines, m, r))
         == Position(Backward(Flatten(lines), Offset(lines, m) + i, stack))
    decreases m, 1
  {
    LineInText(lines, m);
    BackwardInText(Flatten(lines), Offset(lines, m), lines[m], i, stack);
    if r.Unfinished? {
      ReverseFromRefines(lines, m, r.stack);
    }
  }

  lemma ReverseRefines(lines: seq<string>, m: nat, q: nat)
    requires m < |lines| && q < |lines[m]| && IsCloser(lines[m][q])
    ensures Offset(lines, m) + q < |Flatten(lines)|
    ensures Absolute(lines, ReverseClose(lines, m, q)) == StartOf(Flatten(lines), Offset(lines, m) + q)
  {
    CharInText(lines, m, q);
    FindStartPushes(lines[m], q);
    ReverseAfterRefines(lines, m, q - 1, [lines[m][q]], FindStart(lines[m], q, ""));
  }

  lemma FirstStep(line: string, q: nat)
    requires q < |line| && (IsCloser(line[q]) || (line[q] == '>' && !Skips(line, q)))
    ensures StartStep(line, q, "") == Go(q - 1, [line[q]])
  {
    assert "" + [line[q]] == [line[q]];
  }

  lemma FindStartGoes(line: string, i: nat, stack: string, j: int, next: string)
    requires i < |line| && -1 <= j < i && StartStep(line, i, stack) == Go(j, next)
    ensures FindStart(line, i, stack) == FindStart(line, j, next)
  {
  }

  lemma FindStartFirst(line: string, q: nat)
    requires q < |line| && (IsCloser(line[q]) || (line[q] == '>' && !Skips(line, q)))
    ensures FindStart(line, q, "") == FindStart(line, q - 1, [line[q]])
  {
    FirstStep(line, q);
    FindStartGoes(line, q, "", q - 1, [line[q]]);
  }

  lemma FindStartPushes(line: string, q: nat)
    requires q < |line| && IsCloser(line[q])
    ensures var r := FindStart(line, q, "");
            Plainly(r, '>') == Backward(line, q - 1, [line[q]]) && StaysAnchored(r, '>')
  {
    FindStartFirst(line, q);
    RealOfOne(line[q], '>');
    FindStartRefines(line, q - 1, [line[q]]);
  }

  /** ReverseCloseExpression from a bracket returns p exactly when the grammar pairs the two. */
  lemma ReverseIsExact(lines: seq<string>, l: nat, p: nat, m: nat, q: nat)
    requires l < |lines| && p < |lines[l]|
    requires m < |lines| && q < |lines[m]| && IsCloser(lines[m][q])
    ensures ReverseClose(lines, m, q) == At(l, p)
       <==> Encloses(Flatten(lines), Offset(lines, l) + p, Offset(lines, m) + q)
  {
    CharInText(lines, m, q);
    ReverseRefines(lines, m, q);
    StartOfExact(Flatten(lines), Offset(lines, l) + p, Offset(lines, m) + q);
    StartIs(lines, ReverseClose(lines, m, q), l, p);
  }

  lemma StartOfExact(t: string, p: nat, s: nat)
    requires s < |t| && IsCloser(t[s])
    ensures StartOf(t, s) == Some(p) <==> Encloses(t, p, s)
  {
    BackwardExact(t, p, s);
  }

  lemma StartIs(lines: seq<string>, r: Place, l: nat, p: nat)
    requires l < |lines| && p < |lines[l]|
    requires r.At? ==> r.line < |lines| && r.pos < |lines[r.line]|
    ensures r == At(l, p) <==> Absolute(lines, r) == Some(Offset(lines, l) + p)
  {
    if Absolute(lines, r) == Some(Offset(lines, l) + p) {
      OffsetIsInjective(lines, r.line, r.pos, l, p);
    }
  }

  // ---- The two are inverse ----

  lemma {:induction false} DropKeepsPrefix(stack: string, a: char)
    ensures var kept := DropAngles(stack, a);
            kept <= stack && (kept != [] ==> Last(kept) != a)
  {
    if stack != [] && Last(stack) == a {
      DropKeepsPrefix(Init(stack), a);
    }
  }

  /** A scan that started at a counted '>' can only end at a '<'. */
  lemma {:induction false} AngleEndsAtAngle(line: string, i: int, stack: string)
    requires -1 <= i < |line| && stack != [] && stack[0] == '>'
    ensures match FindStart(line, i, stack)
            case Ended(p) => p < |line| && line[p] == '<'
            case Broken => true
            case Unfinished(st) => st != [] && st[0] == '>'
    decreases i + 1
  {
    if i >= 0 {
      DropKeepsPrefix(stack, '>');
      match StartStep(line, i, stack) {
        case Stop(_) =>
        case Go(j, next) => AngleEndsAtAngle(line, j, next);
      }
    }
  }

  lemma {:induction false} AngleEndsAtAngleAcross(lines: seq<string>, n: nat, stack: string)
    requires n <= |lines| && stack != [] && stack[0] == '>'
    ensures match ReverseFrom(lines, n, stack)
            case At(l, p) => lines[l][p] == '<'
            case Nowhere => true
    decreases n
  {
    if n > 0 {
      var line := lines[n - 1];
      AngleEndsAtAngle(line, |line| - 1, stack);
      var r := FindStart(line, |line| - 1, stack);
      if r.Unfinished? {
        AngleEndsAtAngleAcross(lines, n - 1, r.stack);
      }
    }
  }

  lemma CountedAngleFindsNoBracket(lines: seq<string>, m: nat, q: nat)
    requires m < |lines| && q < |lines[m]| && lines[m][q] == '>' && !Skips(lines[m], q)
    ensures match ReverseClose(lines, m, q)
            case At(l, p) => lines[l][p] == '<'
            case Nowhere => true
  {
    FindStartFirst(lines[m], q);
    AngleEndsAtAngle(lines[m], q - 1, ">");
    var r := FindStart(lines[m], q, "");
    if r.Unfinished? {
      AngleEndsAtAngleAcross(lines, m, r.stack);
    }
  }

  /** Closing from (l, p) ends just after (m, q) exactly when closing backward from (m, q) returns (l, p). */
  ghost predicate InverseFor(lines: seq<string>, l: nat, p: nat, m: nat, q: nat)
    requires l < |lines| && p < |lines[l]| && m < |lines| && q < |lines[m]|
  {
    Close(lines, l, p) == At(m, q + 1) <==> ReverseClose(lines, m, q) == At(l, p)
  }

  /** Forward and backward matching are inverse, unless the backward scan starts at an ignored '>'. */
  lemma MatchersAreInverse(lines: seq<string>, l: nat, p: nat, m: nat, q: nat)
    requires l < |lines| && p < |lines[l]| && IsOpener(lines[l][p])
    requires m < |lines| && q < |lines[m]|
    requires !BackwardIgnores(lines[m], q)
    ensures InverseFor(lines, l, p, m, q)
  {
    CharInText(lines, m, q);
    CloseIsExact(lines, l, p, m, q);
    if IsCloser(lines[m][q]) {
      ReverseIsExact(lines, l, p, m, q);
    } else if lines[m][q] == '>' {
      CountedAngleFindsNoBracket(lines, m, q);
    }
  }

  // ---- When an ignored '>' misleads the backward scan ----

  /** Nothing that a scan with an empty stack reacts to lies in line[k + 1..i + 1]. */
  ghost predicate Quiet(line: string, k: int, i: int)
    requires -1 <= k <= i < |line|
  {
    forall j :: k < j <= i ==> !Significant(line, j)
  }

  lemma {:induction false} EmptyScanSkips(line: string, k: int, i: int)
    requires -1 <= k <= i < |line| && Quiet(line, k, i) && (k < 0 || Significant(line, k))
    ensures FindStart(line, i, "") == FindStart(line, k, "")
    decreases i + 1
  {
    if k < i {
      assert !Significant(line, i);
      if Skips(line, i) {
        SkippedIsPlain(line, i);
        EmptyScanSkips(line, k, i - 2);
      } else {
        EmptyScanSkips(line, k, i - 1);
      }
    }
  }

  /** The last character at or before i that an empty scan reacts to, or -1. */
  function LastSignificant(line: string, i: int): (k: int)
    requires -1 <= i < |line|
    ensures -1 <= k <= i && Quiet(line, k, i) && (k >= 0 ==> Significant(line, k))
  {
    if i < 0 || Significant(line, i) then i else LastSignificant(line, i - 1)
  }

  /** The '>' at q is ignored and the nearest thing before it on its line is a closing bracket. */
  predicate Trails(line: string, q: nat)
    requires q < |line|
  {
    BackwardIgnores(line, q)
    && LastSignificant(line, q) >= 0 && IsCloser(line[LastSignificant(line, q)])
  }

  /** From an ignored '>' the backward scan answers for the last significant character before it. */
  lemma IgnoredAngleDefers(lines: seq<string>, m: nat, q: nat)
    requires m < |lines| && q < |lines[m]| && BackwardIgnores(lines[m], q)
    ensures var k := LastSignificant(lines[m], q);
            k < q && ReverseClose(lines, m, q) ==
            if k >= 0 && (IsCloser(lines[m][k]) || lines[m][k] == '>') then ReverseClose(lines, m, k) else Nowhere
  {
    var k := LastSignificant(lines[m], q);
    assert !Significant(lines[m], q);
    EmptyScanSkips(lines[m], k, q);
  }

  ghost predicate EndsAGroup(t: string, q: nat) {
    exists p: nat :: Encloses(t, p, q)
  }

  /** The grammar pairs the bracket at k of line m with an earlier one. */
  ghost predicate IsPaired(lines: seq<string>, m: nat, k: nat)
    requires m < |lines|
  {
    EndsAGroup(Flatten(lines), Offset(lines, m) + k)
  }

  lemma PairedIsFound(lines: seq<string>, m: nat, k: nat)
    requires m < |lines| && k < |lines[m]| && IsCloser(lines[m][k])
    ensures ReverseClose(lines, m, k).At? <==> IsPaired(lines, m, k)
  {
    var t, s, r := Flatten(lines), Offset(lines, m) + k, ReverseClose(lines, m, k);
    CharInText(lines, m, k);
    ReverseRefines(lines, m, k);
    if r.At? {
      ReverseIsExact(lines, r.line, r.pos, m, k);
    }
    if p: nat :| Encloses(t, p, s) {
      StartOfExact(t, p, s);
    }
  }

  /**
   For one end position q, the matchers are inverse on every bracket exactly
   when q is not an ignored '>' that trails a matched closing bracket.
   */
  lemma InverseExactlyWhen(lines: seq<string>, m: nat, q: nat)
    requires m < |lines| && q < |lines[m]|
    ensures (forall l: nat, p: nat | l < |lines| && p < |lines[l]| && IsOpener(lines[l][p]) ::
               InverseFor(lines, l, p, m, q))
       <==> !(Trails(lines[m], q) && IsPaired(lines, m, LastSignificant(lines[m], q)))
  {
    var line := lines[m];
    var k := LastSignificant(line, q);
    if Trails(line, q) && IsPaired(lines, m, k) {
      IgnoredAngleDefers(lines, m, q);
      PairedIsFound(lines, m, k);
      var r := ReverseClose(lines, m, k);
      BackFindsOpener(lines, m, k);
      CloseIsExact(lines, r.line, r.pos, m, q);
      CharInText(lines, m, q);
      assert !InverseFor(lines, r.line, r.pos, m, q);
    } else {
      forall l: nat, p: nat | l < |lines| && p < |lines[l]| && IsOpener(lines[l][p])
        ensures InverseFor(lines, l, p, m, q)
      {
        InverseUnlessTrailing(lines, l, p, m, q);
      }
    }
  }

  lemma BackFindsOpener(lines: seq<string>, m: nat, k: nat)
    requires m < |lines| && k < |lines[m]| && IsCloser(lines[m][k]) && ReverseClose(lines, m, k).At?
    ensures var r := ReverseClose(lines, m, k); IsOpener(lines[r.line][r.pos])
  {
    var r := ReverseClose(lines, m, k);
    ReverseIsExact(lines, r.line, r.pos, m, k);
    CharInText(lines, r.line, r.pos);
  }

  lemma InverseUnlessTrailing(lines: seq<string>, l: nat, p: nat, m: nat, q: nat)
    requires l < |lines| && p < |lines[l]| && IsOpener(lines[l][p])
    requires m < |lines| && q < |lines[m]|
    requires !(Trails(lines[m], q) && IsPaired(lines, m, LastSignificant(lines[m], q)))
    ensures InverseFor(lines, l, p, m, q)
  {
    if BackwardIgnores(lines[m], q) {
      var k := LastSignificant(lines[m], q);
      IgnoredAngleDefers(lines, m, q);
      if k >= 0 && IsCloser(lines[m][k]) {
        PairedIsFound(lines, m, k);
      }
      CharInText(lines, m, q);
      CloseIsExact(lines, l, p, m, q);
      if k >= 0 && lines[m][k] == '>' {
        CountedAngleFindsNoBracket(lines, m, k);
      }
    } else {
      MatchersAreInverse(lines, l, p, m, q);
    }
  }

  /** In "(a)->" the backward scan from the arrow returns the bracket, which ends earlier. */
  lemma ArrowIsNotInverse()
    ensures ReverseClose(["(a)->"], 0, 4) == At(0, 0)
    ensures Close(["(a)->"], 0, 0) == At(0, 3)
    ensures !InverseFor(["(a)->"], 0, 0, 0, 4)
  {
    var line := "(a)->";
    ArrowBackward(line);
    ArrowForward(line);
  }

  lemma ArrowBackward(line: string)
    requires line == "(a)->"
    ensures FindStart(line, 4, "") == Ended(0)
  {
    FindStartGoes(line, 4, "", 2, "");
    FindStartFirst(line, 2);
    FindStartGoes(line, 1, ")", 0, ")");
    assert FindStart(line, 0, ")") == Ended(0);
  }

  lemma ArrowForward(line: string)
    requires line == "(a)->"
    ensures FindEnd(line, 0, "") == Ended(3)
  {
    assert "" + ['('] == "(";
    assert DropAngles("(", '<') == "(";
    assert FindEnd(line, 2, "(") == Ended(3);
    assert FindEnd(line, 1, "(") == Ended(3);
  }

  // ---- _GetTextInside ----

  /**
   The text between the bracket before start and its partner, where start is
   the end of the first match of the caller's pattern, if there is one.
   */
  method GetTextInside(text: string, matchEnd: Option<nat>) returns (r: Option<string>)
    requires matchEnd.Some? ==> 0 < matchEnd.value <= |text| && IsOpener(text[matchEnd.value - 1])
    ensures matchEnd.None? ==> r.None?
    ensures matchEnd.Some? ==>
              var s := matchEnd.value;
              && (r.Some? <==> HasPartner(text, s - 1))
              && (forall q: nat :: Encloses(text, s - 1, q) ==> r == Some(text[s..q]))
  {
    if matchEnd.None? {
      return None;
    }
    var start := matchEnd.value;
    var stack := [Closer(text[start - 1])];
    ghost var opens := [text[start - 1]];
    var position := start;
    while stack != [] && position < |text|
      invariant start <= position <= |text| && Expected(stack, opens)
      invariant stack != [] ==> Forward(text, start, [text[start - 1]]) == Forward(text, position, opens)
      invariant stack == [] ==> Forward(text, start, [text[start - 1]]) == Found(position)
      decreases |text| - position
    {
      var c := text[position];
      if c == Last(stack) {
        stack, opens := Init(stack), Init(opens);
      } else if IsCloser(c) {
        NoPartner(text, start - 1);
        return None;
      } else if IsOpener(c) {
        stack, opens := stack + [Closer(c)], opens + [c];
      }
      position := position + 1;
    }
    if stack != [] {
      NoPartner(text, start - 1);
      return None;
    }
    PartnerIs(text, start - 1, position - 1);
    return Some(text[start..position - 1]);
  }

  /** The expected closing brackets are those of the open ones. */
  ghost predicate Expected(stack: string, opens: string) {
    |stack| == |opens| && forall k :: 0 <= k < |opens| ==> Pairs(opens[k], stack[k])
  }

  lemma NoPartner(t: string, p: nat)
    requires p < |t| && IsOpener(t[p]) && !Forward(t, p + 1, [t[p]]).Found?
    ensures !HasPartner(t, p)
  {
    if q :| Encloses(t, p, q) {
      ForwardExact(t, p, q);
    }
  }

  lemma PartnerIs(t: string, p: nat, q: nat)
    requires p < |t| && IsOpener(t[p]) && Forward(t, p + 1, [t[p]]) == Found(q + 1)
    ensures Encloses(t, p, q) && forall k :: Encloses(t, p, k) ==> k == q
  {
    ForwardExact(t, p, q);
    forall k | Encloses(t, p, k)
      ensures k == q
    {
      ForwardExact(t, p, k);
    }
  }

  /** On one line CloseExpression and _GetTextInside see the same partner. */
  lemma CloseOnOneLine(text: string, p: nat)
    requires p < |text| && IsOpener(text[p])
    ensures Close([text], 0, p) == Nowhere <==> !HasPartner(text, p)
    ensures forall q: nat :: Encloses(text, p, q) ==> Close([text], 0, p) == At(0, q + 1)
  {
    assert Flatten([text]) == text by {
      assert [text][1..] == [];
    }
    assert Offset([text], 0) == 0;
    CloseGivesUp([text], 0, p);
    forall q: nat | Encloses(text, p, q)
      ensures Close([text], 0, p) == At(0, q + 1)
    {
      CloseIsExact([text], 0, p, 0, q);
    }
  }
}
