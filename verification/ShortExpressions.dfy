/** Short infix lines written out: which operand goes where, and how operators group. */
module ShortExpressions {
  import opened Wrappers
  import opened CalculatorSpec
  import opened ExpressionTrees
  import opened CalculatorMachine

  /** What an operation of the table makes of two numbers, a left and a right one. */
  function Applied<N>(env: Env<N>, symbol: char, left: N, right: N): Outcome<N>
    requires IsOperator(env.table, symbol)
  {
    if symbol == '/' && env.isZero(right) then Error(DivisionByZero)
    else Value((Lookup(env.table, symbol).value.apply)(left, right))
  }

  /** Two numbers and an operator between them. */
  lemma TwoNumbers<N>(env: Env<N>, left: N, symbol: char, right: N)
    requires IsOperator(env.table, symbol)
    ensures Calculate(env, [Number(left), Operator(symbol), Number(right)]) == Applied(env, symbol, left, right)
  {
    var x, op, y: Token<N> := Number(left), Operator(symbol), Number(right);
    var e := Binary(symbol, Literal(left), Literal(right));
    var y2, y3 := Yard([x], [op]), Yard([x, y], [op]);
    ReadTwo(env.table, x, symbol, y);
    FlushSpine([x, y], [op]);
    assert [x, y] + Reverse([op]) == [x, y, op] == Postorder(e) + [];
    assert [x] + [op] + [y] == [x, op, y];
    ExecPostorder(env, e, [], []);
  }

  lemma ReadTwo<N>(table: Table<N>, x: Token<N>, symbol: char, y: Token<N>)
    requires x.Number? && y.Number?
    ensures ReadAll(table, Yard([], []), [x] + [Operator(symbol)] + [y]) == Some(Yard([x, y], [Operator(symbol)]))
  {
    var op: Token<N> := Operator(symbol);
    var y0, y1, y2, y3 := Yard([], []), Yard([x], []), Yard([x], [op]), Yard([x, y], [op]);
    ReadOne(table, y0, x);
    assert y0.output + [x] == y1.output;
    ReadOne(table, y1, op);
    assert y1.stack + [op] == y2.stack && PopOperators(table, y1, symbol) == y1;
    ReadOne(table, y2, y);
    assert y2.output + [y] == y3.output;
    hide *;
    ReadChain(table, y0, [x], y1, [op], y2);
    ReadChain(table, y0, [x] + [op], y2, [y], y3);
  }

  /** The tree of two numbers and its meaning. */
  lemma Pair<N>(env: Env<N>, symbol: char, left: N, right: N)
    requires IsOperator(env.table, symbol)
    ensures var e := Binary(symbol, Literal(left), Literal(right));
            && Evaluate(env, e) == Applied(env, symbol, left, right)
            && Postorder(e) == [Number(left), Number(right), Operator(symbol)]
  {
  }

  /**
   Three numbers and two operators: the left ones belong together if their operator has the higher
   priority, or the same and the other one is left-associative; otherwise the right ones do.
   */
  lemma ThreeNumbers<N>(env: Env<N>, x: N, a: char, y: N, b: char, z: N)
    requires IsOperator(env.table, a) && IsOperator(env.table, b)
    ensures var p, q := Lookup(env.table, a).value, Lookup(env.table, b).value;
            Calculate(env, [Number(x), Operator(a), Number(y), Operator(b), Number(z)]) ==
            if p.priority > q.priority || (p.priority == q.priority && !q.rightAssociative) then
              var first := Applied(env, a, x, y);
              if first.Error? then first else Applied(env, b, first.value, z)
            else
              var first := Applied(env, b, y, z);
              if first.Error? then first else Applied(env, a, x, first.value)
  {
    var tx, ta, ty, tb, tz: Token<N> := Number(x), Operator(a), Number(y), Operator(b), Number(z);
    var e := if TopGoesFirst(env.table, a, b) then Binary(b, Binary(a, Literal(x), Literal(y)), Literal(z))
             else Binary(a, Literal(x), Binary(b, Literal(y), Literal(z)));
    ReadThree(env.table, tx, a, ty, b, tz);
    Pair(env, a, x, y);
    Pair(env, b, y, z);
    assert [tx] + [ta] + [ty] + [tb] + [tz] == [tx, ta, ty, tb, tz];
    if TopGoesFirst(env.table, a, b) {
      FlushSpine([tx, ty, ta, tz], [tb]);
      assert [tx, ty, ta, tz] + Reverse([tb]) == [tx, ty, ta, tz, tb] == Postorder(e) + [];
    } else {
      FlushSpine([tx, ty, tz], [ta, tb]);
      ReverseLast([ta, tb]);
      assert [ta, tb][..1] == [ta];
      assert [tx, ty, tz] + Reverse([ta, tb]) == [tx, ty, tz, tb, ta] == Postorder(e) + [];
    }
    ExecPostorder(env, e, [], []);
  }

  lemma ReadThree<N>(table: Table<N>, x: Token<N>, a: char, y: Token<N>, b: char, z: Token<N>)
    requires x.Number? && y.Number? && z.Number?
    ensures ReadAll(table, Yard([], []), [x] + [Operator(a)] + [y] + [Operator(b)] + [z]) ==
            if TopGoesFirst(table, a, b) then Some(Yard([x, y, Operator(a), z], [Operator(b)]))
            else Some(Yard([x, y, z], [Operator(a), Operator(b)]))
  {
    var opA, opB: Token<N> := Operator(a), Operator(b);
    var y3 := Yard([x, y], [opA]);
    var y4 := if TopGoesFirst(table, a, b) then Yard([x, y, opA], [opB]) else Yard([x, y], [opA, opB]);
    var y5 := Yard(y4.output + [z], y4.stack);
    ReadTwo(table, x, a, y);
    ReadOne(table, y3, opB);
    if TopGoesFirst(table, a, b) {
      assert y3.Pop() == Yard([x, y, opA], []) && PopOperators(table, y3, b) == y3.Pop();
      assert y4.stack == [] + [opB];
    } else {
      assert PopOperators(table, y3, b) == y3 && [opA] + [opB] == [opA, opB];
    }
    ReadOne(table, y4, z);
    assert [x, y, opA] + [z] == [x, y, opA, z] && [x, y] + [z] == [x, y, z];
    hide *;
    ReadChain(table, Yard([], []), [x] + [opA] + [y], y3, [opB], y4);
    ReadChain(table, Yard([], []), [x] + [opA] + [y] + [opB], y4, [z], y5);
  }

  /** The shipped operators on a few lines, in any arithmetic. */
  lemma ShippedLines<N>(env: Env<N>, add: (N, N) -> N, diff: (N, N) -> N, times: (N, N) -> N, divide: (N, N) -> N,
                        power: (N, N) -> N, x: N, y: N, z: N)
    requires env.table == ShippedTable(add, diff, times, divide, power)
    ensures Calculate(env, [Number(x), Operator('-'), Number(y)]) == Value(diff(x, y))
    ensures Calculate(env, [Number(x), Operator('/'), Number(y)]) ==
            if env.isZero(y) then Error(DivisionByZero) else Value(divide(x, y))
    ensures Calculate(env, [Number(x), Operator('-'), Number(y), Operator('-'), Number(z)]) == Value(diff(diff(x, y), z))
    ensures Calculate(env, [Number(x), Operator('^'), Number(y), Operator('^'), Number(z)]) == Value(power(x, power(y, z)))
    ensures Calculate(env, [Number(x), Operator('+'), Number(y), Operator('*'), Number(z)]) == Value(add(x, times(y, z)))
    ensures Calculate(env, [Number(x), Operator('*'), Number(y), Operator('+'), Number(z)]) == Value(add(times(x, y), z))
  {
    hide Calculate, Lookup;
    ShippedLookups(add, diff, times, divide, power);
    TwoNumbers(env, x, '-', y);
    TwoNumbers(env, x, '/', y);
    ThreeNumbers(env, x, '-', y, '-', z);
    ThreeNumbers(env, x, '^', y, '^', z);
    ThreeNumbers(env, x, '+', y, '*', z);
    ThreeNumbers(env, x, '*', y, '+', z);
  }

  lemma ShippedLookups<N>(add: (N, N) -> N, diff: (N, N) -> N, times: (N, N) -> N, divide: (N, N) -> N,
                          power: (N, N) -> N)
    ensures var table := ShippedTable(add, diff, times, divide, power);
            && Lookup(table, '+') == Some(Plugin('+', 1, false, add))
            && Lookup(table, '-') == Some(Plugin('-', 1, false, diff))
            && Lookup(table, '*') == Some(Plugin('*', 2, false, times))
            && Lookup(table, '/') == Some(Plugin('/', 2, false, divide))
            && Lookup(table, '^') == Some(Plugin('^', 3, true, power))
  {
    hide Lookup;
    var table := ShippedTable(add, diff, times, divide, power);
    LookupIsFirst(table, '+');
    LookupIsFirst(table, '-');
    LookupIsFirst(table, '*');
    LookupIsFirst(table, '/');
    LookupIsFirst(table, '^');
    assert table[0].symbol == '+' && table[1].symbol == '-' && table[2].symbol == '*';
    assert table[3].symbol == '/' && table[4].symbol == '^';
  }
}
