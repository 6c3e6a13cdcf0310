/**
 cpplint's NestingState: the stack of open blocks, kept up to date line by
 line, with checkpoints at #if, #else and #endif.

 A line is its text and what Update's patterns find in it: its directive, its
 parentheses, the namespaces and the class it declares, and its braces and
 semicolons in order.
 */
module Nesting {
  import opened Options
  import opened TemplateArguments

  // ---- Blocks and lines ----

  datatype Asm = NoAsm | InsideAsm | EndAsm | BlockAsm

  datatype Kind =
    | Plain
    | ExternC
    | Namespace(name: string)
    | Class(name: string, isStruct: bool, access: string, derived: bool)

  datatype Block = Block(kind: Kind, line: nat, seenOpenBrace: bool, openParentheses: int, asm: Asm)

  datatype Directive = If | Else | Endif | NoDirective

  /** A token at which Update stops; an opening brace may follow extern "C" or asm. */
  datatype Token = OpenBrace(externC: bool, asm: bool) | Semicolon | CloseParenthesis | CloseBrace

  /** What is left of a line: the access keyword it gives, if any, and its tokens. */
  datatype Rest = Rest(access: Option<string>, tokens: seq<Token>)

  datatype NamespaceDecl = NamespaceDecl(name: string, braced: bool)

  /** A class head, where it ends, and the line after it. */
  datatype ClassDecl = ClassDecl(name: string, isStruct: bool, end: nat, rest: Rest)

  datatype Line = Line(
    number: nat,
    text: string,
    directive: Directive,
    depthChange: int,
    startsAsm: bool,
    namespaces: seq<NamespaceDecl>,
    classDecl: Option<ClassDecl>,
    bareColon: bool,
    rest: Rest)

  /** _PreprocessorInfo. */
  datatype Checkpoint = Checkpoint(beforeIf: seq<Block>, beforeElse: seq<Block>, seenElse: bool)

  datatype State = State(stack: seq<Block>, checkpoints: seq<Checkpoint>)

  // ---- What one line does to the stack ----

  function Top<T>(s: seq<T>): T
    requires s != []
  {
    s[|s| - 1]
  }

  function Pop<T>(s: seq<T>): seq<T>
    requires s != []
  {
    s[..|s| - 1]
  }

  function SetTop<T>(s: seq<T>, x: T): seq<T>
    requires s != []
  {
    Pop(s) + [x]
  }

  predicate SeenOpenBrace(stack: seq<Block>) {
    stack == [] || Top(stack).seenOpenBrace
  }

  function CountParentheses(stack: seq<Block>, line: Line): seq<Block> {
    if stack == [] then stack
    else
      var b := Top(stack);
      var open := b.openParentheses + line.depthChange;
      var asm := match b.asm
        case NoAsm | EndAsm => if line.depthChange != 0 && open == 1 && line.startsAsm then InsideAsm else NoAsm
        case InsideAsm => if open == 0 then EndAsm else InsideAsm
        case BlockAsm => BlockAsm;
      SetTop(stack, b.(openParentheses := open, asm := asm))
  }

  function OpenNamespaces(stack: seq<Block>, decls: seq<NamespaceDecl>, number: nat): seq<Block>
    decreases |decls|
  {
    if decls == [] then stack
    else
      var b := Block(Namespace(decls[0].name), number, decls[0].braced, 0, NoAsm);
      OpenNamespaces(stack + [b], decls[1..], number)
  }

  /** The line declares a class where one may stand, so that the look-ahead is asked. */
  predicate Asks(stack: seq<Block>, line: Line) {
    line.classDecl.Some? && (stack == [] || Top(stack).openParentheses == 0)
  }

  function OpenClass(stack: seq<Block>, number: nat, d: ClassDecl): seq<Block> {
    var access := if d.isStruct then "public" else "private";
    stack + [Block(Class(d.name, d.isStruct, access, false), number, false, 0, NoAsm)]
  }

  function CheckBegin(stack: seq<Block>, bareColon: bool): seq<Block> {
    if !SeenOpenBrace(stack) && Top(stack).kind.Class? && bareColon then
      SetTop(stack, Top(stack).(kind := Top(stack).kind.(derived := true)))
    else stack
  }

  function SetAccess(stack: seq<Block>, access: Option<string>): seq<Block> {
    if stack != [] && Top(stack).kind.Class? && access.Some? then
      SetTop(stack, Top(stack).(kind := Top(stack).kind.(access := access.value)))
    else stack
  }

  function Consume(stack: seq<Block>, token: Token, number: nat): seq<Block> {
    match token
    case OpenBrace(externC, asm) =>
      if !SeenOpenBrace(stack) then SetTop(stack, Top(stack).(seenOpenBrace := true))
      else if externC then stack + [Block(ExternC, number, true, 0, NoAsm)]
      else stack + [Block(Plain, number, true, 0, if asm then BlockAsm else NoAsm)]
    case Semicolon | CloseParenthesis => if !SeenOpenBrace(stack) then Pop(stack) else stack
    case CloseBrace => if stack != [] then Pop(stack) else stack
  }

  function ConsumeAll(stack: seq<Block>, tokens: seq<Token>, number: nat): seq<Block>
    decreases |tokens|
  {
    if tokens == [] then stack else ConsumeAll(Consume(stack, tokens[0], number), tokens[1..], number)
  }

  /** The stack when Update has come to the class declaration of the line. */
  function AtClass(stack: seq<Block>, line: Line): seq<Block> {
    OpenNamespaces(CountParentheses(stack, line), line.namespaces, line.number)
  }

  /** Update after UpdatePreprocessor, given the answer of the look-ahead. */
  function ScanLine(stack: seq<Block>, line: Line, templateArgument: bool): seq<Block> {
    var before := AtClass(stack, line);
    var opens := Asks(before, line) && !templateArgument;
    var rest := if opens then line.classDecl.value.rest else line.rest;
    var declared := if opens then OpenClass(before, line.number, line.classDecl.value) else before;
    ConsumeAll(SetAccess(CheckBegin(declared, line.bareColon), rest.access), rest.tokens, line.number)
  }

  function Texts(lines: seq<Line>): (r: seq<string>)
    ensures |r| == |lines| && forall i :: 0 <= i < |lines| ==> r[i] == lines[i].text
  {
    seq(|lines|, i requires 0 <= i < |lines| => lines[i].text)
  }

  /** The look-ahead from the class head on the first of the lines. */
  predicate Ahead(lines: seq<Line>)
    requires lines != []
  {
    lines[0].classDecl.Some? && LookAhead(Texts(lines), 0, lines[0].classDecl.value.end)
  }

  function Scan(stack: seq<Block>, lines: seq<Line>): seq<Block>
    requires lines != []
  {
    ScanLine(stack, lines[0], Ahead(lines))
  }

  /** UpdatePreprocessor. */
  function Preprocess(s: State, d: Directive): State {
    match d
    case If => s.(checkpoints := s.checkpoints + [Checkpoint(s.stack, [], false)])
    case Else =>
      if s.checkpoints == [] then s
      else
        var c := Top(s.checkpoints);
        var marked := if c.seenElse then c else c.(seenElse := true, beforeElse := s.stack);
        State(c.beforeIf, SetTop(s.checkpoints, marked))
    case Endif =>
      if s.checkpoints == [] then s
      else
        var c := Top(s.checkpoints);
        State(if c.seenElse then c.beforeElse else s.stack, Pop(s.checkpoints))
    case NoDirective => s
  }

  /** Update for the first of the lines. */
  function Updated(s: State, lines: seq<Line>): State
    requires lines != []
  {
    var p := Preprocess(s, lines[0].directive);
    p.(stack := Scan(p.stack, lines))
  }

  /** The state after the first k of the lines. */
  function Run(s: State, lines: seq<Line>, k: nat): State
    requires k <= |lines|
    decreases k
  {
    if k == 0 then s else Run(Updated(s, lines), lines[1..], k - 1)
  }

  function RunAll(s: State, lines: seq<Line>): State
    decreases |lines|
  {
    if lines == [] then s else RunAll(Updated(s, lines), lines[1..])
  }

  // ---- The object ----

  class NestingState {
    var stack: seq<Block>
    var checkpoints: seq<Checkpoint>

    function Value(): State
      reads this
    {
      State(stack, checkpoints)
    }

    constructor ()
      ensures Value() == State([], [])
    {
      stack := [];
      checkpoints := [];
    }

    method UpdatePreprocessor(directive: Directive)
      modifies this
      ensures Value() == Preprocess(old(Value()), directive)
    {
      if directive == If {
        checkpoints := checkpoints + [Checkpoint(stack, [], false)];
      } else if directive == Else {
        if checkpoints != [] {
          if !Top(checkpoints).seenElse {
            checkpoints := SetTop(checkpoints, Top(checkpoints).(seenElse := true, beforeElse := stack));
          } else {
            assert checkpoints == SetTop(checkpoints, Top(checkpoints));
          }
          stack := Top(checkpoints).beforeIf;
        }
      } else if directive == Endif {
        if checkpoints != [] {
          if Top(checkpoints).seenElse {
            stack := Top(checkpoints).beforeElse;
          }
          checkpoints := Pop(checkpoints);
        }
      }
    }

    method UpdateParentheses(line: Line)
      modifies this`stack
      ensures stack == CountParentheses(old(stack), line)
    {
      if stack != [] {
        var inner := Top(stack);
        inner := inner.(openParentheses := inner.openParentheses + line.depthChange);
        if inner.asm == NoAsm || inner.asm == EndAsm {
          if line.depthChange != 0 && inner.openParentheses == 1 && line.startsAsm {
            inner := inner.(asm := InsideAsm);
          } else {
            inner := inner.(asm := NoAsm);
          }
        } else if inner.asm == InsideAsm && inner.openParentheses == 0 {
          inner := inner.(asm := EndAsm);
        }
        stack := SetTop(stack, inner);
      }
    }

    method UpdateNamespaces(line: Line)
      modifies this`stack
      ensures stack == OpenNamespaces(old(stack), line.namespaces, line.number)
    {
      var left := line.namespaces;
      while left != []
        invariant OpenNamespaces(stack, left, line.number)
               == OpenNamespaces(old(stack), line.namespaces, line.number)
        decreases |left|
      {
        stack := stack + [Block(Namespace(left[0].name), line.number, left[0].braced, 0, NoAsm)];
        left := left[1..];
      }
    }

    method ConsumeTokens(tokens: seq<Token>, number: nat)
      modifies this`stack
      ensures stack == ConsumeAll(old(stack), tokens, number)
    {
      var left := tokens;
      while left != []
        invariant ConsumeAll(stack, left, number) == ConsumeAll(old(stack), tokens, number)
        decreases |left|
      {
        match left[0] {
          case OpenBrace(externC, asm) =>
            if !SeenOpenBrace(stack) {
              stack := SetTop(stack, Top(stack).(seenOpenBrace := true));
            } else if externC {
              stack := stack + [Block(ExternC, number, true, 0, NoAsm)];
            } else {
              stack := stack + [Block(Plain, number, true, 0, if asm then BlockAsm else NoAsm)];
            }
          case Semicolon =>
            if !SeenOpenBrace(stack) {
              stack := Pop(stack);
            }
          case CloseParenthesis =>
            if !SeenOpenBrace(stack) {
              stack := Pop(stack);
            }
          case CloseBrace =>
            if stack != [] {
              stack := Pop(stack);
            }
        }
        left := left[1..];
      }
    }

    method Update(lines: seq<Line>, linenum: nat)
      requires linenum < |lines|
      modifies this
      ensures Value() == Updated(old(Value()), lines[linenum..])
    {
      var line := lines[linenum];
      UpdatePreprocessor(line.directive);
      UpdateParentheses(line);
      UpdateNamespaces(line);
      var rest := line.rest;
      if line.classDecl.Some? && (stack == [] || Top(stack).openParentheses == 0) {
        var d := line.classDecl.value;
        var inTemplate := InTemplateArgumentList(Texts(lines), linenum, d.end);
        AheadFrom(lines, linenum);
        if !inTemplate {
          rest := d.rest;
          stack := OpenClass(stack, line.number, d);
        }
      }
      stack := CheckBegin(stack, line.bareColon);
      stack := SetAccess(stack, rest.access);
      ConsumeTokens(rest.tokens, line.number);
    }
  }

  /** The look-ahead reads only from its own line on. */
  lemma AheadFrom(lines: seq<Line>, n: nat)
    requires n < |lines| && lines[n].classDecl.Some?
    ensures Ahead(lines[n..]) == LookAhead(Texts(lines), n, lines[n].classDecl.value.end)
  {
    assert Texts(lines[n..]) == Texts(lines)[n..];
    LookAheadShift(Texts(lines), n, 0, lines[n].classDecl.value.end);
  }

  /** Feeding the lines of a file to a new NestingState. */
  method ProcessLines(lines: seq<Line>) returns (s: State)
    ensures s == RunAll(State([], []), lines)
  {
    var nesting := new NestingState();
    for i := 0 to |lines|
      invariant RunAll(nesting.Value(), lines[i..]) == RunAll(State([], []), lines)
    {
      assert lines[i..][1..] == lines[i + 1..];
      nesting.Update(lines, i);
    }
    return nesting.Value();
  }

  // ---- Balanced braces leave no trace ----

  /** Tokens whose braces match. */
  datatype Braces =
    | NoBraces
    | Separator(token: Token, rest: Braces)
    | Body(open: Token, inside: Braces, rest: Braces)

  predicate Matched(b: Braces) {
    match b
    case NoBraces => true
    case Separator(t, rest) => (t.Semicolon? || t.CloseParenthesis?) && Matched(rest)
    case Body(open, inside, rest) => open.OpenBrace? && Matched(inside) && Matched(rest)
  }

  /** The tokens of b followed by tail. */
  function Tokens(b: Braces, tail: seq<Token>): seq<Token> {
    match b
    case NoBraces => tail
    case Separator(t, rest) => [t] + Tokens(rest, tail)
    case Body(open, inside, rest) => [open] + Tokens(inside, [CloseBrace] + Tokens(rest, tail))
  }

  lemma ConsumeHead(stack: seq<Block>, token: Token, tail: seq<Token>, number: nat)
    ensures ConsumeAll(stack, [token] + tail, number) == ConsumeAll(Consume(stack, token, number), tail, number)
  {
    assert ([token] + tail)[1..] == tail;
  }

  lemma ClosePops(stack: seq<Block>, b: Block, tail: seq<Token>, number: nat)
    ensures ConsumeAll(stack + [b], [CloseBrace] + tail, number) == ConsumeAll(stack, tail, number)
  {
    ConsumeHead(stack + [b], CloseBrace, tail, number);
    assert Pop(stack + [b]) == stack;
  }

  /** Inside a block whose brace has been seen, matched braces change nothing. */
  lemma {:induction false} MatchedBracesRestore(stack: seq<Block>, b: Braces, tail: seq<Token>, number: nat)
    requires Matched(b) && SeenOpenBrace(stack)
    ensures ConsumeAll(stack, Tokens(b, tail), number) == ConsumeAll(stack, tail, number)
    decreases b
  {
    match b {
      case NoBraces =>
      case Separator(t, rest) =>
        ConsumeHead(stack, t, Tokens(rest, tail), number);
        MatchedBracesRestore(stack, rest, tail, number);
      case Body(open, inside, rest) =>
        var after := Tokens(rest, tail);
        var inner := Consume(stack, open, number);
        assert inner == stack + [Top(inner)] && SeenOpenBrace(inner);
        ConsumeHead(stack, open, Tokens(inside, [CloseBrace] + after), number);
        MatchedBracesRestore(inner, inside, [CloseBrace] + after, number);
        ClosePops(stack, Top(inner), after, number);
        MatchedBracesRestore(stack, rest, tail, number);
    }
  }

  /** A class or namespace head takes the next brace as its own, and its closing brace removes it. */
  lemma HeadWithBody(stack: seq<Block>, head: Block, open: Token, b: Braces, tail: seq<Token>, number: nat)
    requires !head.seenOpenBrace && open.OpenBrace? && Matched(b)
    ensures ConsumeAll(stack + [head], [open] + Tokens(b, [CloseBrace] + tail), number)
            == ConsumeAll(stack, tail, number)
  {
    var begun := stack + [head.(seenOpenBrace := true)];
    ConsumeHead(stack + [head], open, Tokens(b, [CloseBrace] + tail), number);
    assert Consume(stack + [head], open, number) == begun by {
      assert Pop(stack + [head]) == stack;
    }
    MatchedBracesRestore(begun, b, [CloseBrace] + tail, number);
    ClosePops(stack, Top(begun), tail, number);
  }

  /** A head that meets a semicolon or a closing parenthesis first was no definition and is dropped. */
  lemma HeadWithoutBody(stack: seq<Block>, head: Block, t: Token, tail: seq<Token>, number: nat)
    requires !head.seenOpenBrace && (t.Semicolon? || t.CloseParenthesis?)
    ensures ConsumeAll(stack + [head], [t] + tail, number) == ConsumeAll(stack, tail, number)
  {
    ConsumeHead(stack + [head], t, tail, number);
    assert Pop(stack + [head]) == stack;
  }

  // ---- What a line puts on the stack ----

  /** The namespaces of a line lie on the stack in the order of their declarations. */
  lemma {:induction false} NamespacesLieInOrder(stack: seq<Block>, decls: seq<NamespaceDecl>, number: nat)
    ensures var r := OpenNamespaces(stack, decls, number);
            && |r| == |stack| + |decls| && r[..|stack|] == stack
            && forall i :: 0 <= i < |decls| ==>
                 r[|stack| + i] == Block(Namespace(decls[i].name), number, decls[i].braced, 0, NoAsm)
    decreases |decls|
  {
    if decls != [] {
      var first := Block(Namespace(decls[0].name), number, decls[0].braced, 0, NoAsm);
      NamespacesLieInOrder(stack + [first], decls[1..], number);
      var r := OpenNamespaces(stack, decls, number);
      assert r[..|stack|] == r[..|stack| + 1][..|stack|];
      assert r[|stack|] == r[..|stack| + 1][|stack|];
      forall i | 0 < i < |decls|
        ensures r[|stack| + i] == Block(Namespace(decls[i].name), number, decls[i].braced, 0, NoAsm)
      {
        assert r[|stack| + i] == r[|stack + [first]| + (i - 1)] && decls[i] == decls[1..][i - 1];
      }
    }
  }

  /** A class head that no template argument list claims opens a block, whose body is still to come. */
  lemma ClassHeadOpens(stack: seq<Block>, line: Line)
    requires line.classDecl.Some? && line.namespaces == [] && line.classDecl.value.rest.tokens == []
    requires stack == [] || Top(stack).openParentheses + line.depthChange == 0
    ensures var d := line.classDecl.value;
            var access := if d.rest.access.Some? then d.rest.access.value
                          else if d.isStruct then "public" else "private";
            ScanLine(stack, line, false) == CountParentheses(stack, line)
              + [Block(Class(d.name, d.isStruct, access, line.bareColon), line.number, false, 0, NoAsm)]
  {
    var before, d := CountParentheses(stack, line), line.classDecl.value;
    assert AtClass(stack, line) == before;
    var begun := OpenClass(before, line.number, d);
    assert Pop(begun) == before;
    var checked := CheckBegin(begun, line.bareColon);
    assert Pop(checked) == before;
  }

  /** A template parameter is no class. */
  lemma TemplateArgumentOpensNothing(stack: seq<Block>, line: Line)
    requires line.namespaces == [] && line.rest.tokens == []
    requires stack == [] || !Top(stack).kind.Class?
    ensures ScanLine(stack, line, true) == CountParentheses(stack, line)
  {
  }

  function CountAll(stack: seq<Block>, lines: seq<Line>): seq<Block> {
    if lines == [] then stack
    else CountParentheses(CountAll(stack, lines[..|lines| - 1]), lines[|lines| - 1])
  }

  function Depth(lines: seq<Line>): int {
    if lines == [] then 0 else Depth(lines[..|lines| - 1]) + lines[|lines| - 1].depthChange
  }

  function WithAsm(stack: seq<Block>, open: int, asm: Asm): seq<Block>
    requires stack != []
  {
    SetTop(stack, Top(stack).(openParentheses := open, asm := asm))
  }

  lemma WithAsmTwice(stack: seq<Block>, open: int, asm: Asm, open': int, asm': Asm)
    requires stack != []
    ensures WithAsm(WithAsm(stack, open, asm), open', asm') == WithAsm(stack, open', asm')
  {
    assert Pop(WithAsm(stack, open, asm)) == Pop(stack);
  }

  lemma AsmGoesOn(stack: seq<Block>, open: int, line: Line)
    requires stack != []
    ensures var open' := open + line.depthChange;
            CountParentheses(WithAsm(stack, open, InsideAsm), line)
            == WithAsm(stack, open', if open' == 0 then EndAsm else InsideAsm)
  {
    var open' := open + line.depthChange;
    WithAsmTwice(stack, open, InsideAsm, open', if open' == 0 then EndAsm else InsideAsm);
  }

  /** Inline assembly lasts until as many parentheses have been closed as opened. */
  lemma {:induction false} AsmLasts(stack: seq<Block>, lines: seq<Line>)
    requires stack != [] && Top(stack).openParentheses == 0 && (Top(stack).asm == NoAsm || Top(stack).asm == EndAsm)
    requires lines != [] && lines[0].depthChange == 1 && lines[0].startsAsm
    requires forall k :: 0 < k < |lines| ==> Depth(lines[..k]) != 0
    ensures CountAll(stack, lines) == WithAsm(stack, Depth(lines), if Depth(lines) == 0 then EndAsm else InsideAsm)
  {
    var n := |lines| - 1;
    if n == 0 {
      assert lines[..0] == [] && CountAll(stack, lines[..0]) == stack;
    } else {
      var before := lines[..n];
      forall k | 0 < k < n
        ensures Depth(before[..k]) != 0
      {
        assert before[..k] == lines[..k];
      }
      AsmLasts(stack, before);
      AsmGoesOn(stack, Depth(before), lines[n]);
    }
  }

  /** Where no line starts inline assembly, none is seen, except in the block of an asm brace. */
  lemma {:induction false} AsmStays(stack: seq<Block>, lines: seq<Line>)
    requires stack != [] && Top(stack).asm != InsideAsm
    requires lines != [] && forall i :: 0 <= i < |lines| ==> !lines[i].startsAsm
    ensures CountAll(stack, lines) == WithAsm(stack, Top(stack).openParentheses + Depth(lines),
                                              if Top(stack).asm == BlockAsm then BlockAsm else NoAsm)
  {
    var n := |lines| - 1;
    var asm := if Top(stack).asm == BlockAsm then BlockAsm else NoAsm;
    if n == 0 {
      assert lines[..0] == [] && CountAll(stack, lines[..0]) == stack;
    } else {
      AsmStays(stack, lines[..n]);
      var open := Top(stack).openParentheses;
      WithAsmTwice(stack, open + Depth(lines[..n]), asm, open + Depth(lines), asm);
    }
  }

  /** A brace that no head takes opens a block of the kind that its line says. */
  lemma {:induction false} BraceOpensBlock(stack: seq<Block>, externC: bool, asm: bool, number: nat, lines: seq<Line>)
    requires SeenOpenBrace(stack)
    requires lines != [] && forall i :: 0 <= i < |lines| ==> !lines[i].startsAsm
    ensures CountAll(Consume(stack, OpenBrace(externC, asm), number), lines)
            == stack + [Block(if externC then ExternC else Plain, number, true, Depth(lines),
                              if asm && !externC then BlockAsm else NoAsm)]
  {
    var begun := Consume(stack, OpenBrace(externC, asm), number);
    assert Pop(begun) == stack;
    AsmStays(begun, lines);
  }

  /** An access keyword in a class body holds until the next one. */
  lemma AccessIsKept(stack: seq<Block>, line: Line)
    requires stack != [] && Top(stack).kind.Class? && Top(stack).seenOpenBrace
    requires line.namespaces == [] && line.classDecl.None? && line.rest.tokens == []
    ensures var r := ScanLine(stack, line, false);
            && r != [] && Pop(r) == Pop(stack) && Top(r).kind.Class?
            && Top(r).kind.access == (if line.rest.access.Some? then line.rest.access.value else Top(stack).kind.access)
  {
    var counted := CountParentheses(stack, line);
    assert Pop(counted) == Pop(stack);
    assert AtClass(stack, line) == counted;
  }
}
