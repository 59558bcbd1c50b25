/** Bracket balance: native/src/core.cpp lines 86 to 98. */
module LuaDelimiters {
  predicate IsOpen(c: char) { c == '(' || c == '{' || c == '[' }

  predicate IsClose(c: char) { c == ')' || c == '}' || c == ']' }

  function Closer(open: char): (r: char)
    requires IsOpen(open)
    ensures IsClose(r)
  {
    if open == '(' then ')' else if open == '{' then '}' else ']'
  }

  /** What the scan answers for `s` when the brackets of `stack` are still open. */
  predicate Accepts(s: string, stack: string) {
    if s == "" then stack == ""
    else if IsOpen(s[0]) then Accepts(s[1..], stack + [s[0]])
    else if IsClose(s[0]) then
      && stack != ""
      && IsOpen(stack[|stack| - 1]) && s[0] == Closer(stack[|stack| - 1])
      && Accepts(s[1..], stack[..|stack| - 1])
    else Accepts(s[1..], stack)
  }

  predicate Balanced(s: string) { Accepts(s, "") }

  method BalancedLuaDelimiters(source: string) returns (balanced: bool)
    ensures balanced <==> Balanced(source)
  {
    var stack := "";
    for index := 0 to |source|
      invariant Accepts(source[index..], stack) <==> Balanced(source)
      invariant forall k :: 0 <= k < |stack| ==> IsOpen(stack[k])
    {
      var value := source[index];
      assert source[index..][0] == value && source[index..][1..] == source[index + 1..];
      if value == '(' || value == '{' || value == '[' {
        stack := stack + [value];
      } else if value == ')' || value == '}' || value == ']' {
        if stack == "" { return false; }
        var open := stack[|stack| - 1];
        stack := stack[..|stack| - 1];
        if (value == ')' && open != '(') || (value == '}' && open != '{') || (value == ']' && open != '[') {
          return false;
        }
      }
    }
    return stack == "";
  }

  /** The language of well-nested texts: nothing, a character that is no bracket followed by
      such a text, or a bracketed such text followed by another. */
  datatype Nest =
    | Empty
    | Plain(c: char, rest: Nest)
    | Group(open: char, inside: Nest, rest: Nest)

  predicate WellNested(n: Nest) {
    match n
    case Empty => true
    case Plain(c, rest) => !IsOpen(c) && !IsClose(c) && WellNested(rest)
    case Group(open, inside, rest) => IsOpen(open) && WellNested(inside) && WellNested(rest)
  }

  function Written(n: Nest): string
    requires WellNested(n)
  {
    match n
    case Empty => ""
    case Plain(c, rest) => [c] + Written(rest)
    case Group(open, inside, rest) => [open] + Written(inside) + [Closer(open)] + Written(rest)
  }

  ghost predicate InLanguage(s: string) {
    exists n :: WellNested(n) && Written(n) == s
  }

  /** A well-nested text leaves the stack as it was. */
  lemma {:induction false} NestIsNeutral(n: Nest, after: string, stack: string)
    requires WellNested(n)
    ensures Accepts(Written(n) + after, stack) <==> Accepts(after, stack)
    decreases n
  {
    match n
    case Empty =>
      assert Written(n) + after == after;
    case Plain(c, rest) =>
      assert (Written(n) + after)[1..] == Written(rest) + after;
      NestIsNeutral(rest, after, stack);
    case Group(open, inside, rest) =>
      var close := [Closer(open)] + (Written(rest) + after);
      assert (Written(n) + after)[1..] == Written(inside) + close;
      NestIsNeutral(inside, close, stack + [open]);
      assert close[1..] == Written(rest) + after && (stack + [open])[..|stack|] == stack;
      NestIsNeutral(rest, after, stack);
  }

  lemma Regroup(open: string, inside: string, close: string, tail: string, rest: string)
    ensures open + (inside + (close + (tail + rest))) == open + inside + close + tail + rest
  {
  }

  lemma Pop(s: string, stack: string, open: char)
    requires IsOpen(open) && Accepts(s, stack + [open]) && (s == "" || IsClose(s[0]))
    ensures s != "" && s[0] == Closer(open) && Accepts(s[1..], stack)
  {
    assert (stack + [open])[..|stack|] == stack;
  }

  /** Reads the longest well-nested text in front of an accepted one. */
  lemma {:induction false} Parse(s: string, stack: string) returns (n: Nest, rest: string)
    requires Accepts(s, stack)
    ensures WellNested(n) && s == Written(n) + rest && Accepts(rest, stack)
    ensures rest == "" || IsClose(rest[0])
    decreases |s|
  {
    if s == "" || IsClose(s[0]) {
      n, rest := Empty, s;
    } else if IsOpen(s[0]) {
      var inside, close := Parse(s[1..], stack + [s[0]]);
      Pop(close, stack, s[0]);
      hide Accepts;
      var tail;
      tail, rest := Parse(close[1..], stack);
      n := Group(s[0], inside, tail);
      assert s == [s[0]] + s[1..] && close == [close[0]] + close[1..];
      Regroup([s[0]], Written(inside), [close[0]], Written(tail), rest);
    } else {
      var tail;
      tail, rest := Parse(s[1..], stack);
      n := Plain(s[0], tail);
      assert s == [s[0]] + s[1..];
    }
  }

  /** The scan accepts exactly the well-nested texts. */
  lemma BalancedIsNesting(s: string)
    ensures Balanced(s) <==> InLanguage(s)
  {
    if Balanced(s) {
      var n, rest := Parse(s, "");
      assert rest == "" && s == Written(n);
    }
    if InLanguage(s) {
      var n :| WellNested(n) && Written(n) == s;
      NestIsNeutral(n, "", "");
      assert s + "" == s;
    }
  }

  /** In front of a balanced text only what is added decides. */
  lemma BalancedJoins(a: string, b: string)
    requires Balanced(a)
    ensures Balanced(a + b) <==> Balanced(b)
  {
    BalancedIsNesting(a);
    var n :| WellNested(n) && Written(n) == a;
    NestIsNeutral(n, b, "");
  }

  /** Around a balanced text exactly the three pairs of brackets are accepted. */
  lemma BalancedWraps(open: char, a: string, close: char)
    requires Balanced(a) && open in {'(', '{', '['} && close in {')', '}', ']'}
    ensures Balanced([open] + a + [close]) <==>
            (open == '(' && close == ')') || (open == '{' && close == '}') || (open == '[' && close == ']')
    ensures !Balanced([open]) && !Balanced([close])
  {
    BalancedIsNesting(a);
    var n :| WellNested(n) && Written(n) == a;
    NestIsNeutral(n, [close], [open]);
    AcceptsOpen(open, a + [close]);
    AcceptsOpen(open, "");
    assert [open] + (a + [close]) == [open] + a + [close] && [open] + "" == [open];
    assert [close][1..] == "" && [open][..0] == "";
    assert Accepts([close], [open]) <==> close == Closer(open);
  }

  lemma AcceptsOpen(open: char, rest: string)
    requires IsOpen(open)
    ensures Accepts([open] + rest, "") <==> Accepts(rest, [open])
    ensures Accepts("", [open]) == false
  {
    assert ([open] + rest)[1..] == rest && "" + [open] == [open];
  }

  function Brackets(s: string): string {
    if s == "" then ""
    else (if IsOpen(s[0]) || IsClose(s[0]) then [s[0]] else "") + Brackets(s[1..])
  }

  lemma {:induction false} AcceptsBrackets(s: string, stack: string)
    ensures Accepts(s, stack) <==> Accepts(Brackets(s), stack)
    decreases |s|
  {
    if s != "" {
      var c := s[0];
      if IsOpen(c) || IsClose(c) { assert Brackets(s)[1..] == Brackets(s[1..]); }
      if IsOpen(c) {
        AcceptsBrackets(s[1..], stack + [c]);
      } else if IsClose(c) {
        if stack != "" { AcceptsBrackets(s[1..], stack[..|stack| - 1]); }
      } else {
        assert Brackets(s) == Brackets(s[1..]);
        AcceptsBrackets(s[1..], stack);
      }
    }
  }

  /** Only the brackets matter. */
  lemma BalancedIgnoresOthers(s: string, t: string)
    requires Brackets(s) == Brackets(t)
    ensures Balanced(s) <==> Balanced(t)
  {
    AcceptsBrackets(s, "");
    AcceptsBrackets(t, "");
  }
}
