/**
 What the infix-to-postfix translation does to arbitrary tokens, infix or not: when it succeeds,
 and what its output consists of.
 */
module PostfixCode {
  import opened Wrappers
  import opened CalculatorSpec

  /** Every right parenthesis closes an open one, and none of the `depth` open ones stays open. */
  predicate Balanced<N>(tokens: seq<Token<N>>, depth: nat)
    decreases |tokens|
  {
    if tokens == [] then depth == 0
    else
      match tokens[0]
      case LeftParen => Balanced(tokens[1..], depth + 1)
      case RightParen => depth > 0 && Balanced(tokens[1..], depth - 1)
      case _ => Balanced(tokens[1..], depth)
  }

  /** Only operators and left parentheses are ever pushed. */
  predicate StackTokens<N>(stack: seq<Token<N>>) {
    forall i :: 0 <= i < |stack| ==> stack[i].Operator? || stack[i].LeftParen?
  }

  function Depth<N>(stack: seq<Token<N>>): nat
    decreases |stack|
  {
    if stack == [] then 0
    else Depth(stack[..|stack| - 1]) + if stack[|stack| - 1].LeftParen? then 1 else 0
  }

  predicate IsParen<N>(token: Token<N>) {
    token.LeftParen? || token.RightParen?
  }

  predicate IsOperand<N>(token: Token<N>) {
    token.Number? || token.Ans?
  }

  function NonParens<N>(tokens: seq<Token<N>>): seq<Token<N>> {
    if tokens == [] then []
    else (if IsParen(tokens[0]) then [] else [tokens[0]]) + NonParens(tokens[1..])
  }

  function Operands<N>(tokens: seq<Token<N>>): seq<Token<N>> {
    if tokens == [] then []
    else (if IsOperand(tokens[0]) then [tokens[0]] else []) + Operands(tokens[1..])
  }

  lemma {:induction false} NonParensAppend<N>(a: seq<Token<N>>, b: seq<Token<N>>)
    ensures NonParens(a + b) == NonParens(a) + NonParens(b)
  {
    if a == [] {
      assert a + b == b;
    } else {
      assert (a + b)[1..] == a[1..] + b;
      NonParensAppend(a[1..], b);
    }
  }

  lemma {:induction false} OperandsAppend<N>(a: seq<Token<N>>, b: seq<Token<N>>)
    ensures Operands(a + b) == Operands(a) + Operands(b)
  {
    if a == [] {
      assert a + b == b;
    } else {
      assert (a + b)[0] == a[0] && (a + b)[1..] == a[1..] + b;
      OperandsAppend(a[1..], b);
      var first := if IsOperand(a[0]) then [a[0]] else [];
      assert first + (Operands(a[1..]) + Operands(b)) == first + Operands(a[1..]) + Operands(b);
    }
  }

  /** The tokens a yard holds, parentheses dropped. */
  function Held<N(==)>(yard: Yard<N>): multiset<Token<N>> {
    multiset(yard.output) + multiset(NonParens(yard.stack))
  }

  predicate SameTokens<N(==)>(before: Yard<N>, read: seq<Token<N>>, after: Yard<N>) {
    Held(after) == Held(before) + multiset(NonParens(read))
  }

  predicate SameOperandOrder<N(==)>(before: Yard<N>, read: seq<Token<N>>, after: Yard<N>) {
    Operands(after.output) == Operands(before.output) + Operands(read)
  }

  /** What one step may change: nothing but the places of tokens, and never an operand's place. */
  predicate Accounts<N(==)>(before: Yard<N>, read: seq<Token<N>>, after: Yard<N>) {
    SameTokens(before, read, after) && SameOperandOrder(before, read, after) && StackTokens(after.stack)
  }

  lemma DropLast<N>(stack: seq<Token<N>>)
    requires stack != []
    ensures NonParens(stack) == NonParens(stack[..|stack| - 1]) + NonParens([stack[|stack| - 1]])
  {
    assert stack == stack[..|stack| - 1] + [stack[|stack| - 1]];
    NonParensAppend(stack[..|stack| - 1], [stack[|stack| - 1]]);
  }

  lemma PopSameTokens<N>(yard: Yard<N>)
    requires yard.stack != [] && yard.stack[|yard.stack| - 1].Operator?
    ensures SameTokens(yard, [], yard.Pop())
  {
    DropLast(yard.stack);
    var last := [yard.stack[|yard.stack| - 1]];
    assert NonParens(last) == last;
    assert multiset(yard.Pop().output) == multiset(yard.output) + multiset(last);
    assert multiset(NonParens(yard.stack)) == multiset(NonParens(yard.Pop().stack)) + multiset(last);
  }

  lemma PopSameOperandOrder<N>(yard: Yard<N>)
    requires yard.stack != [] && yard.stack[|yard.stack| - 1].Operator?
    ensures SameOperandOrder(yard, [], yard.Pop())
  {
    var last := [yard.stack[|yard.stack| - 1]];
    assert Operands(last) == [];
    OperandsAppend(yard.output, last);
  }

  lemma PopAccounts<N>(yard: Yard<N>)
    requires yard.stack != [] && yard.stack[|yard.stack| - 1].Operator?
    requires StackTokens(yard.stack)
    ensures Accounts(yard, [], yard.Pop())
    ensures Depth(yard.Pop().stack) == Depth(yard.stack)
  {
    PopSameTokens(yard);
    PopSameOperandOrder(yard);
  }

  lemma {:induction false} PopOperatorsAccounts<N>(table: Table<N>, yard: Yard<N>, current: char)
    requires StackTokens(yard.stack)
    ensures Accounts(yard, [], PopOperators(table, yard, current))
    ensures Depth(PopOperators(table, yard, current).stack) == Depth(yard.stack)
    decreases |yard.stack|
  {
    if yard.stack != [] {
      var top := yard.stack[|yard.stack| - 1];
      if top.Operator? && TopGoesFirst(table, top.symbol, current) {
        PopAccounts(yard);
        PopOperatorsAccounts(table, yard.Pop(), current);
        AccountsChain(yard, [], yard.Pop(), [], PopOperators(table, yard, current));
      }
    }
  }

  lemma {:induction false} PopToParenAccounts<N>(yard: Yard<N>)
    requires StackTokens(yard.stack)
    ensures PopToParen(yard).Some? <==> Depth(yard.stack) > 0
    ensures PopToParen(yard).Some? ==>
              && Accounts(yard, [RightParen], PopToParen(yard).value)
              && Depth(PopToParen(yard).value.stack) == Depth(yard.stack) - 1
    decreases |yard.stack|
  {
    var close: Token<N> := RightParen;
    assert NonParens([close]) == [];
    assert Operands([close]) == [];
    if yard.stack != [] {
      var last := yard.stack[|yard.stack| - 1];
      var below := yard.stack[..|yard.stack| - 1];
      if last.LeftParen? {
        DropLast(yard.stack);
        assert NonParens([last]) == [];
        assert NonParens(yard.stack) == NonParens(below);
      } else {
        PopAccounts(yard);
        PopToParenAccounts(yard.Pop());
        if PopToParen(yard).Some? {
          AccountsChain(yard, [], yard.Pop(), [close], PopToParen(yard).value);
        }
      }
    }
  }

  /** One token: a right parenthesis needs an open one; every other token is accepted. */
  lemma ReadTokenAccounts<N>(table: Table<N>, yard: Yard<N>, token: Token<N>)
    requires StackTokens(yard.stack)
    ensures ReadToken(table, yard, token).Some? <==> (token.RightParen? ==> Depth(yard.stack) > 0)
    ensures ReadToken(table, yard, token).Some? ==>
              var after := ReadToken(table, yard, token).value;
              && Accounts(yard, [token], after)
              && Depth(after.stack) == Depth(yard.stack)
                   + (if token.LeftParen? then 1 else if token.RightParen? then -1 else 0)
  {
    match token
    case RightParen =>
      PopToParenAccounts(yard);
    case Operator(symbol) =>
      PopOperatorsAccounts(table, yard, symbol);
      PushAccounts(PopOperators(table, yard, symbol), token);
      AccountsChain(yard, [], PopOperators(table, yard, symbol), [token], ReadToken(table, yard, token).value);
    case LeftParen =>
      PushAccounts(yard, token);
    case _ =>
      EmitAccounts(yard, token);
  }

  lemma EmitAccounts<N>(yard: Yard<N>, token: Token<N>)
    requires StackTokens(yard.stack) && IsOperand(token)
    ensures Accounts(yard, [token], Yard(yard.output + [token], yard.stack))
  {
    var after := Yard(yard.output + [token], yard.stack);
    assert SameTokens(yard, [token], after) by {
      assert NonParens([token]) == [token];
    }
    assert SameOperandOrder(yard, [token], after) by {
      assert Operands([token]) == [token];
      OperandsAppend(yard.output, [token]);
    }
  }

  lemma PushAccounts<N>(yard: Yard<N>, token: Token<N>)
    requires StackTokens(yard.stack) && (token.Operator? || token.LeftParen?)
    ensures Accounts(yard, [token], Yard(yard.output, yard.stack + [token]))
    ensures Depth(yard.stack + [token]) == Depth(yard.stack) + if token.LeftParen? then 1 else 0
  {
    var after := Yard(yard.output, yard.stack + [token]);
    assert SameTokens(yard, [token], after) by {
      NonParensAppend(yard.stack, [token]);
    }
    assert SameOperandOrder(yard, [token], after) by {
      assert Operands([token]) == [];
    }
    assert (yard.stack + [token])[..|yard.stack|] == yard.stack;
  }

  lemma ChainSameTokens<N>(a: Yard<N>, read1: seq<Token<N>>, b: Yard<N>, read2: seq<Token<N>>, c: Yard<N>)
    requires SameTokens(a, read1, b) && SameTokens(b, read2, c)
    ensures SameTokens(a, read1 + read2, c)
  {
    NonParensAppend(read1, read2);
  }

  lemma ChainSameOperandOrder<N>(a: Yard<N>, read1: seq<Token<N>>, b: Yard<N>, read2: seq<Token<N>>, c: Yard<N>)
    requires SameOperandOrder(a, read1, b) && SameOperandOrder(b, read2, c)
    ensures SameOperandOrder(a, read1 + read2, c)
  {
    OperandsAppend(read1, read2);
  }

  lemma AccountsChain<N>(a: Yard<N>, read1: seq<Token<N>>, b: Yard<N>, read2: seq<Token<N>>, c: Yard<N>)
    requires Accounts(a, read1, b) && Accounts(b, read2, c)
    ensures Accounts(a, read1 + read2, c)
    ensures read1 == [] ==> Accounts(a, read2, c)
  {
    ChainSameTokens(a, read1, b, read2, c);
    ChainSameOperandOrder(a, read1, b, read2, c);
    assert read1 == [] ==> read1 + read2 == read2;
  }

  lemma {:induction false} FlushAccounts<N>(yard: Yard<N>)
    requires StackTokens(yard.stack)
    ensures Flush(yard).Some? <==> Depth(yard.stack) == 0
    ensures Flush(yard).Some? ==> Accounts(yard, [], Yard(Flush(yard).value, []))
    decreases |yard.stack|
  {
    if yard.stack != [] && yard.stack[|yard.stack| - 1].Operator? {
      assert Flush(yard) == Flush(yard.Pop());
      PopAccounts(yard);
      FlushAccounts(yard.Pop());
      hide Accounts, Flush, Depth, NonParens, Operands;
      if Flush(yard).Some? {
        AccountsChain(yard, [], yard.Pop(), [], Yard(Flush(yard).value, []));
      }
    }
  }

  lemma {:induction false} FinishWhenBalanced<N>(table: Table<N>, yard: Yard<N>, tokens: seq<Token<N>>)
    requires StackTokens(yard.stack)
    ensures Finish(table, yard, tokens).Some? <==> Balanced(tokens, Depth(yard.stack))
    decreases |tokens|
  {
    if tokens == [] {
      FlushAccounts(yard);
    } else {
      ReadTokenAccounts(table, yard, tokens[0]);
      var next := ReadToken(table, yard, tokens[0]);
      if next.Some? {
        FinishWhenBalanced(table, next.value, tokens[1..]);
      }
    }
  }

  lemma {:induction false} FinishAccounts<N>(table: Table<N>, yard: Yard<N>, tokens: seq<Token<N>>)
    requires StackTokens(yard.stack) && Finish(table, yard, tokens).Some?
    ensures Accounts(yard, tokens, Yard(Finish(table, yard, tokens).value, []))
    decreases |tokens|
  {
    if tokens == [] {
      FlushAccounts(yard);
    } else {
      var first, rest := [tokens[0]], tokens[1..];
      var next := ReadToken(table, yard, tokens[0]).value;
      var end := Yard(Finish(table, yard, tokens).value, []);
      ReadTokenAccounts(table, yard, tokens[0]);
      FinishAccounts(table, next, rest);
      assert Accounts(yard, tokens, end) by {
        hide *;
        AccountsChain(yard, first, next, rest, end);
        assert tokens == first + rest;
      }
    }
  }

  /**
   On any tokens whatsoever the translation succeeds exactly when the parentheses balance, and
   then its output is a rearrangement of the non-parenthesis tokens that keeps the operands in
   their original order.
   */
  lemma CompileOnAnyTokens<N>(table: Table<N>, tokens: seq<Token<N>>)
    ensures Compile(table, tokens).Some? <==> Balanced(tokens, 0)
    ensures Compile(table, tokens).Some? ==>
              var code := Compile(table, tokens).value;
              && multiset(code) == multiset(NonParens(tokens))
              && Operands(code) == Operands(tokens)
  {
    var start: Yard<N> := Yard([], []);
    FinishWhenBalanced(table, start, tokens);
    if Compile(table, tokens).Some? {
      FinishAccounts(table, start, tokens);
      assert Operands(start.output) + Operands(tokens) == Operands(tokens);
      assert Held(start) == multiset{};
      assert Held(Yard(Compile(table, tokens).value, [])) == multiset(Compile(table, tokens).value);
    }
  }
}
