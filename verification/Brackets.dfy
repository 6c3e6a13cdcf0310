/** Round, square and curly brackets: the balanced-bracket grammar and a plain stack machine for it. */
module BracketGrammar {

  predicate IsOpener(c: char) {
    c == '(' || c == '[' || c == '{'
  }

  predicate IsCloser(c: char) {
    c == ')' || c == ']' || c == '}'
  }

  function Closer(c: char): (r: char)
    requires IsOpener(c)
    ensures IsCloser(r)
  {
    if c == '(' then ')' else if c == '[' then ']' else '}'
  }

  predicate Pairs(o: char, c: char) {
    IsOpener(o) && c == Closer(o)
  }

  // ---- Grammar ----

  /** A derivation of the balanced texts. */
  datatype Nest = Empty | Plain(c: char, rest: Nest) | Group(open: char, inside: Nest, rest: Nest)

  predicate Proper(n: Nest) {
    match n
    case Empty => true
    case Plain(c, rest) => !IsOpener(c) && !IsCloser(c) && Proper(rest)
    case Group(o, inside, rest) => IsOpener(o) && Proper(inside) && Proper(rest)
  }

  function Text(n: Nest): string
    requires Proper(n)
  {
    match n
    case Empty => []
    case Plain(c, rest) => [c] + Text(rest)
    case Group(o, inside, rest) => [o] + Text(inside) + [Closer(o)] + Text(rest)
  }

  ghost predicate Balanced(s: string) {
    exists n :: Proper(n) && Text(n) == s
  }

  /** The brackets at p and q match. */
  ghost predicate Encloses(t: string, p: nat, q: nat) {
    p < q < |t| && Pairs(t[p], t[q]) && Balanced(t[p + 1..q])
  }

  function Append(n: Nest, m: Nest): (r: Nest)
    requires Proper(n) && Proper(m)
    ensures Proper(r) && Text(r) == Text(n) + Text(m)
  {
    match n
    case Empty => m
    case Plain(c, rest) => Plain(c, Append(rest, m))
    case Group(o, inside, rest) => Group(o, inside, Append(rest, m))
  }

  lemma TextOfPlain(c: char, rest: Nest)
    requires !IsOpener(c) && !IsCloser(c) && Proper(rest)
    ensures Proper(Plain(c, rest)) && Text(Plain(c, rest)) == [c] + Text(rest)
  {
  }

  lemma TextOfGroup(o: char, inside: Nest, rest: Nest)
    requires IsOpener(o) && Proper(inside) && Proper(rest)
    ensures Proper(Group(o, inside, rest))
    ensures Text(Group(o, inside, rest)) == [o] + Text(inside) + [Closer(o)] + Text(rest)
  {
  }

  lemma EmptyBalanced()
    ensures Balanced("")
  {
    assert Text(Empty) == "";
  }

  /** Two balanced slices side by side. */
  lemma JoinBalanced(t: string, i: nat, m: nat, q: nat)
    requires i <= m <= q <= |t| && Balanced(t[i..m]) && Balanced(t[m..q])
    ensures Balanced(t[i..q])
  {
    ConcatBalanced(t[i..m], t[m..q]);
    assert t[i..q] == t[i..m] + t[m..q];
  }

  lemma ConcatBalanced(a: string, b: string)
    requires Balanced(a) && Balanced(b)
    ensures Balanced(a + b)
  {
    var n :| Proper(n) && Text(n) == a;
    var m :| Proper(m) && Text(m) == b;
    assert Text(Append(n, m)) == a + b;
  }

  lemma CharBalanced(t: string, i: nat)
    requires i < |t| && !IsOpener(t[i]) && !IsCloser(t[i])
    ensures Balanced(t[i..i + 1])
  {
    TextOfPlain(t[i], Empty);
    assert t[i..i + 1] == [t[i]] + Text(Empty);
  }

  lemma GroupBalanced(t: string, p: nat, q: nat)
    requires Encloses(t, p, q)
    ensures Balanced(t[p..q + 1])
  {
    var n :| Proper(n) && Text(n) == t[p + 1..q];
    TextOfGroup(t[p], n, Empty);
    SliceOfGroup(t, p, q);
  }

  lemma SliceOfGroup(t: string, p: nat, q: nat)
    requires p < q < |t|
    ensures t[p..q + 1] == [t[p]] + t[p + 1..q] + [t[q]] + Text(Empty)
  {
  }

  // ---- Scanning forward ----

  datatype Verdict = Found(pos: int) | Mismatch | Open(stack: string)

  function Init(s: string): string
    requires s != []
  {
    s[..|s| - 1]
  }

  function Last(s: string): char
    requires s != []
  {
    s[|s| - 1]
  }

  /** The position after the bracket that closes the bottom of the stack. */
  function Forward(t: string, i: nat, stack: string): Verdict
    requires i <= |t| && stack != []
    decreases |t| - i
  {
    if i == |t| then Open(stack)
    else if IsOpener(t[i]) then Forward(t, i + 1, stack + [t[i]])
    else if IsCloser(t[i]) then
      if !Pairs(Last(stack), t[i]) then Mismatch
      else if |stack| == 1 then Found(i + 1)
      else Forward(t, i + 1, Init(stack))
    else Forward(t, i + 1, stack)
  }

  /** Where the parts of a group lie in a text that holds it at i. */
  lemma GroupParts(t: string, i: nat, o: char, inside: string, c: char, rest: string)
    requires i + |inside| + |rest| + 2 <= |t|
    requires t[i..i + |inside| + |rest| + 2] == [o] + inside + [c] + rest
    ensures var j := i + 1 + |inside|;
            t[i] == o && t[i + 1..j] == inside && t[j] == c && t[j + 1..j + 1 + |rest|] == rest
  {
    var j := i + 1 + |inside|;
    var whole := t[i..i + |inside| + |rest| + 2];
    assert t[i] == whole[0];
    forall k | 0 <= k < |inside|
      ensures t[i + 1..j][k] == inside[k]
    {
      assert t[i + 1 + k] == whole[1 + k];
    }
    assert t[i + 1..j] == inside;
    assert t[j] == whole[1 + |inside|];
    assert whole[2 + |inside|..] == rest;
    assert t[j + 1..j + 1 + |rest|] == whole[2 + |inside|..];
  }

  /** Where the parts of a text that starts with one character lie. */
  lemma PlainParts(t: string, i: nat, c: char, rest: string)
    requires i + |rest| + 1 <= |t| && t[i..i + |rest| + 1] == [c] + rest
    ensures t[i] == c && t[i + 1..i + 1 + |rest|] == rest
  {
    var whole := t[i..i + |rest| + 1];
    assert t[i] == whole[0];
    assert t[i + 1..i + 1 + |rest|] == whole[1..];
  }

  /** Opening at i, running to j as if the text between were not there, and closing at j. */
  lemma ForwardGroup(t: string, i: nat, j: nat, stack: string)
    requires i < j < |t| && stack != [] && Pairs(t[i], t[j])
    requires Forward(t, i + 1, stack + [t[i]]) == Forward(t, j, stack + [t[i]])
    ensures Forward(t, i, stack) == Forward(t, j + 1, stack)
  {
    assert Init(stack + [t[i]]) == stack;
  }

  /** The machine runs over balanced text as if it were not there. */
  lemma {:induction false} ForwardSkips(n: Nest, t: string, i: nat, stack: string)
    requires Proper(n) && stack != []
    requires i + |Text(n)| <= |t| && t[i..i + |Text(n)|] == Text(n)
    ensures Forward(t, i, stack) == Forward(t, i + |Text(n)|, stack)
    decreases n
  {
    match n {
      case Empty =>
      case Plain(c, rest) =>
        PlainParts(t, i, c, Text(rest));
        ForwardSkips(rest, t, i + 1, stack);
      case Group(o, inside, rest) =>
        var j := i + 1 + |Text(inside)|;
        TextOfGroup(o, inside, rest);
        GroupParts(t, i, o, Text(inside), Closer(o), Text(rest));
        ForwardSkips(inside, t, i + 1, stack + [o]);
        ForwardGroup(t, i, j, stack);
        ForwardSkips(rest, t, j + 1, stack);
    }
  }

  lemma ForwardFindsMatch(t: string, p: nat, q: nat)
    requires Encloses(t, p, q)
    ensures Forward(t, p + 1, [t[p]]) == Found(q + 1)
  {
    var n :| Proper(n) && Text(n) == t[p + 1..q];
    ForwardSkips(n, t, p + 1, [t[p]]);
  }

  /** A bracket c0 under the stack is not looked at before the stack above it is closed. */
  lemma {:induction false} ForwardFrame(t: string, i: nat, c0: char, stack: string)
    requires i <= |t| && stack != []
    ensures Forward(t, i, [c0] + stack) ==
            match Forward(t, i, stack)
            case Found(m) => if i < m <= |t| then Forward(t, m, [c0]) else Mismatch
            case Mismatch => Mismatch
            case Open(st) => Open([c0] + st)
    ensures Forward(t, i, stack).Found? ==> i < Forward(t, i, stack).pos <= |t|
    decreases |t| - i
  {
    if i < |t| {
      if IsOpener(t[i]) {
        assert [c0] + stack + [t[i]] == [c0] + (stack + [t[i]]);
        ForwardFrame(t, i + 1, c0, stack + [t[i]]);
      } else if IsCloser(t[i]) {
        if Pairs(Last(stack), t[i]) {
          if |stack| == 1 {
            assert Init([c0] + stack) == [c0];
          } else {
            assert Init([c0] + stack) == [c0] + Init(stack);
            ForwardFrame(t, i + 1, c0, Init(stack));
          }
        }
      } else {
        ForwardFrame(t, i + 1, c0, stack);
      }
    }
  }

  /** What lies before a bracket that the machine finds is balanced. */
  lemma {:induction false} FoundIsBalanced(t: string, i: nat, c0: char)
    requires i <= |t| && Forward(t, i, [c0]).Found?
    ensures var q := Forward(t, i, [c0]).pos - 1;
            i <= q < |t| && Pairs(c0, t[q]) && Balanced(t[i..q])
    decreases |t| - i, 1
  {
    var q := Forward(t, i, [c0]).pos - 1;
    if IsOpener(t[i]) {
      FoundPastGroup(t, i, c0);
    } else if IsCloser(t[i]) {
      EmptyBalanced();
      assert t[i..i] == "";
    } else {
      FoundIsBalanced(t, i + 1, c0);
      CharBalanced(t, i);
      JoinBalanced(t, i, i + 1, q);
    }
  }

  /** The group that opens at i is closed first, and the search goes on after it. */
  lemma {:induction false} FoundPastGroup(t: string, i: nat, c0: char)
    requires i < |t| && IsOpener(t[i]) && Forward(t, i, [c0]).Found?
    ensures var q := Forward(t, i, [c0]).pos - 1;
            i <= q < |t| && Pairs(c0, t[q]) && Balanced(t[i..q])
    decreases |t| - i, 0
  {
    assert [c0] + [t[i]] == [c0, t[i]];
    ForwardFrame(t, i + 1, c0, [t[i]]);
    var m := Forward(t, i + 1, [t[i]]).pos;
    FoundIsBalanced(t, i + 1, t[i]);
    GroupBalanced(t, i, m - 1);
    FoundIsBalanced(t, m, c0);
    JoinBalanced(t, i, m, Forward(t, m, [c0]).pos - 1);
  }

  lemma ForwardExact(t: string, p: nat, q: nat)
    requires p < |t| && IsOpener(t[p])
    ensures Forward(t, p + 1, [t[p]]) == Found(q + 1) <==> Encloses(t, p, q)
  {
    if Encloses(t, p, q) {
      ForwardFindsMatch(t, p, q);
    }
    if Forward(t, p + 1, [t[p]]) == Found(q + 1) {
      FoundIsBalanced(t, p + 1, t[p]);
    }
  }

  // ---- Scanning backward ----

  /** The position of the bracket that opens the bottom of the stack. */
  function Backward(t: string, i: int, stack: string): Verdict
    requires -1 <= i < |t| && stack != []
    decreases i + 1
  {
    if i < 0 then Open(stack)
    else if IsCloser(t[i]) then Backward(t, i - 1, stack + [t[i]])
    else if IsOpener(t[i]) then
      if !Pairs(t[i], Last(stack)) then Mismatch
      else if |stack| == 1 then Found(i)
      else Backward(t, i - 1, Init(stack))
    else Backward(t, i - 1, stack)
  }

  lemma BackwardGroup(t: string, i: nat, j: nat, stack: string)
    requires i < j < |t| && stack != [] && Pairs(t[i], t[j])
    requires Backward(t, j - 1, stack + [t[j]]) == Backward(t, i, stack + [t[j]])
    ensures Backward(t, j, stack) == Backward(t, i - 1, stack)
  {
    assert Init(stack + [t[j]]) == stack;
  }

  lemma {:induction false} BackwardSkips(n: Nest, t: string, i: nat, stack: string)
    requires Proper(n) && stack != []
    requires i + |Text(n)| <= |t| && t[i..i + |Text(n)|] == Text(n)
    ensures Backward(t, i + |Text(n)| - 1, stack) == Backward(t, i - 1, stack)
    decreases n
  {
    match n {
      case Empty =>
      case Plain(c, rest) =>
        PlainParts(t, i, c, Text(rest));
        BackwardSkips(rest, t, i + 1, stack);
      case Group(o, inside, rest) =>
        var j := i + 1 + |Text(inside)|;
        TextOfGroup(o, inside, rest);
        GroupParts(t, i, o, Text(inside), Closer(o), Text(rest));
        BackwardSkips(rest, t, j + 1, stack);
        BackwardSkips(inside, t, i + 1, stack + [Closer(o)]);
        BackwardGroup(t, i, j, stack);
    }
  }

  lemma BackwardFindsMatch(t: string, p: nat, q: nat)
    requires Encloses(t, p, q)
    ensures Backward(t, q - 1, [t[q]]) == Found(p)
  {
    var n :| Proper(n) && Text(n) == t[p + 1..q];
    BackwardSkips(n, t, p + 1, [t[q]]);
  }

  lemma {:induction false} BackwardFrame(t: string, i: int, c0: char, stack: string)
    requires -1 <= i < |t| && stack != []
    ensures Backward(t, i, [c0] + stack) ==
            match Backward(t, i, stack)
            case Found(m) => if 0 <= m <= i then Backward(t, m - 1, [c0]) else Mismatch
            case Mismatch => Mismatch
            case Open(st) => Open([c0] + st)
    ensures Backward(t, i, stack).Found? ==> 0 <= Backward(t, i, stack).pos <= i
    decreases i + 1
  {
    if i >= 0 {
      if IsCloser(t[i]) {
        assert [c0] + stack + [t[i]] == [c0] + (stack + [t[i]]);
        BackwardFrame(t, i - 1, c0, stack + [t[i]]);
      } else if IsOpener(t[i]) {
        if Pairs(t[i], Last(stack)) {
          if |stack| == 1 {
            assert Init([c0] + stack) == [c0];
          } else {
            assert Init([c0] + stack) == [c0] + Init(stack);
            BackwardFrame(t, i - 1, c0, Init(stack));
          }
        }
      } else {
        BackwardFrame(t, i - 1, c0, stack);
      }
    }
  }

  lemma {:induction false} FoundBackIsBalanced(t: string, i: int, c0: char)
    requires -1 <= i < |t| && Backward(t, i, [c0]).Found?
    ensures var p := Backward(t, i, [c0]).pos;
            0 <= p <= i && Pairs(t[p], c0) && Balanced(t[p + 1..i + 1])
    decreases i + 1, 1
  {
    var p := Backward(t, i, [c0]).pos;
    if IsCloser(t[i]) {
      FoundBackPastGroup(t, i, c0);
    } else if IsOpener(t[i]) {
      EmptyBalanced();
      assert t[i + 1..i + 1] == "";
    } else {
      FoundBackIsBalanced(t, i - 1, c0);
      CharBalanced(t, i);
      JoinBalanced(t, p + 1, i, i + 1);
    }
  }

  lemma {:induction false} FoundBackPastGroup(t: string, i: nat, c0: char)
    requires i < |t| && IsCloser(t[i]) && Backward(t, i, [c0]).Found?
    ensures var p := Backward(t, i, [c0]).pos;
            0 <= p <= i && Pairs(t[p], c0) && Balanced(t[p + 1..i + 1])
    decreases i + 1, 0
  {
    assert [c0] + [t[i]] == [c0, t[i]];
    BackwardFrame(t, i - 1, c0, [t[i]]);
    var m := Backward(t, i - 1, [t[i]]).pos;
    FoundBackIsBalanced(t, i - 1, t[i]);
    GroupBalanced(t, m, i);
    FoundBackIsBalanced(t, m - 1, c0);
    JoinBalanced(t, Backward(t, m - 1, [c0]).pos + 1, m, i + 1);
  }

  lemma BackwardExact(t: string, p: nat, q: nat)
    requires q < |t| && IsCloser(t[q])
    ensures Backward(t, q - 1, [t[q]]) == Found(p) <==> Encloses(t, p, q)
  {
    if Encloses(t, p, q) {
      BackwardFindsMatch(t, p, q);
    }
    if Backward(t, q - 1, [t[q]]) == Found(p) {
      FoundBackIsBalanced(t, q - 1, t[q]);
    }
  }

  /** A bracket has at most one partner. */
  lemma PartnerIsUnique(t: string, p: nat, q: nat, p': nat, q': nat)
    requires Encloses(t, p, q) && Encloses(t, p', q')
    ensures p == p' <==> q == q'
  {
    ForwardFindsMatch(t, p, q);
    ForwardFindsMatch(t, p', q');
    BackwardFindsMatch(t, p, q);
    BackwardFindsMatch(t, p', q');
  }
}
