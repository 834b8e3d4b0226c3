/** What running postfix code does, whatever the code: when it yields a value, and what the first fault is. */
module PostfixRuns {
  import opened Wrappers
  import opened CalculatorSpec
  import opened ExpressionTrees

  /** The codes of several trees, one after the other. */
  function Postorders<N>(trees: seq<Expr<N>>): seq<Token<N>> {
    if trees == [] then []
    else Postorders(trees[..|trees| - 1]) + Postorder(trees[|trees| - 1])
  }

  ghost predicate Evaluates<N>(env: Env<N>, trees: seq<Expr<N>>, values: seq<N>) {
    |trees| == |values| && forall i :: 0 <= i < |trees| ==> Evaluate(env, trees[i]) == Value(values[i])
  }

  lemma PostordersAppend<N>(trees: seq<Expr<N>>, e: Expr<N>)
    ensures Postorders(trees + [e]) == Postorders(trees) + Postorder(e)
  {
    assert (trees + [e])[..|trees|] == trees;
  }

  /** The one operation that is refused, whatever the table says of it. */
  predicate Divides<N>(env: Env<N>, symbol: char, right: N) {
    symbol == '/' && env.isZero(right)
  }

  /**
   The run stops at token k: before it lies the code of complete trees whose values are on the stack, and
   the token, or the end of the code, is at fault.
   */
  ghost predicate StopsAt<N>(env: Env<N>, code: seq<Token<N>>, k: nat, trees: seq<Expr<N>>, values: seq<N>, status: Status) {
    && k <= |code| && code[..k] == Postorders(trees) && Evaluates(env, trees, values)
    && if k == |code| then |trees| != 1 && status == InvalidInput
       else
         match code[k]
         case Number(_) => false
         case Ans => env.ans.None? && status == InvalidInput
         case LeftParen => status == InvalidInput
         case RightParen => status == InvalidInput
         case Operator(symbol) =>
           if |values| < 2 then status == InvalidInput
           else if Divides(env, symbol, values[|values| - 1]) then status == DivisionByZero
           else !IsOperator(env.table, symbol) && status == InvalidInput
  }

  /** The code of complete trees leaves exactly their values. */
  lemma {:induction false} ExecTrees<N>(env: Env<N>, trees: seq<Expr<N>>, values: seq<N>, rest: seq<Token<N>>)
    requires Evaluates(env, trees, values)
    ensures Exec(env, Postorders(trees) + rest, []) == Exec(env, rest, values)
    decreases |trees|
  {
    hide Exec, Postorder, Evaluate;
    if trees == [] {
      assert Postorders(trees) + rest == rest;
    } else {
      var n := |trees| - 1;
      var e := trees[n];
      assert Postorders(trees) + rest == Postorders(trees[..n]) + (Postorder(e) + rest);
      ExecTrees(env, trees[..n], values[..n], Postorder(e) + rest);
      ExecPostorder(env, e, rest, values[..n]);
      assert values[..n] + [values[n]] == values;
    }
  }

  /** Running on from token k: either all code is read, or some token is at fault. */
  lemma {:induction false} Runs<N>(env: Env<N>, code: seq<Token<N>>, k: nat, trees: seq<Expr<N>>, values: seq<N>)
    returns (end: nat, whole: seq<Expr<N>>, results: seq<N>)
    requires k <= |code| && code[..k] == Postorders(trees) && Evaluates(env, trees, values)
    ensures Evaluates(env, whole, results)
    ensures match Exec(env, code[k..], values)
            case Value(value) => |whole| == 1 && code == Postorders(whole) && results == [value]
            case Error(status) => StopsAt(env, code, end, whole, results, status)
    decreases |code| - k
  {
    hide Exec, Evaluate, Postorder, Postorders, Lookup, Divides, Evaluates;
    SameLength(env, trees, values);
    end, whole, results := k, trees, values;
    if k == |code| {
      assert code[k..] == [] && code[..k] == code;
      ExecEnd(env, code[k..], values);
    } else {
      ExecStep(env, code, k, values);
      assert code[..k + 1] == code[..k] + [code[k]];
      if code[k].Number? || (code[k].Ans? && env.ans.Some?) {
        var e, value := OneMore(env, code[k], trees, values);
        end, whole, results := Runs(env, code, k + 1, trees + [e], values + [value]);
      } else if code[k].Operator? && |values| >= 2 {
        var n, symbol := |trees| - 2, code[k].symbol;
        OperatorMeans(env, symbol, values[n], values[n + 1]);
        if !Divides(env, symbol, values[n + 1]) && IsOperator(env.table, symbol) {
          var e, value := OneFewer(env, symbol, trees, values);
          end, whole, results := Runs(env, code, k + 1, trees[..n] + [e], values[..n] + [value]);
        }
      }
    }
  }

  lemma OperatorMeans<N>(env: Env<N>, symbol: char, left: N, right: N)
    ensures ApplyOperator(env, symbol, left, right) ==
            if Divides(env, symbol, right) then Error(DivisionByZero)
            else if !IsOperator(env.table, symbol) then Error(InvalidInput)
            else Value((Lookup(env.table, symbol).value.apply)(left, right))
  {
  }

  /** An operand is the code of one more tree. */
  lemma OneMore<N>(env: Env<N>, token: Token<N>, trees: seq<Expr<N>>, values: seq<N>) returns (e: Expr<N>, value: N)
    requires Evaluates(env, trees, values) && (token.Number? || (token.Ans? && env.ans.Some?))
    ensures Postorders(trees + [e]) == Postorders(trees) + [token] && Evaluates(env, trees + [e], values + [value])
    ensures value == if token.Number? then token.value else env.ans.value
  {
    value := if token.Number? then token.value else env.ans.value;
    e := if token.Number? then Literal(value) else AnsRef;
    PostordersAppend(trees, e);
  }

  /** An operator makes one tree of the last two. */
  lemma OneFewer<N>(env: Env<N>, symbol: char, trees: seq<Expr<N>>, values: seq<N>) returns (e: Expr<N>, value: N)
    requires Evaluates(env, trees, values) && |trees| >= 2 && IsOperator(env.table, symbol)
    requires !Divides(env, symbol, values[|values| - 1])
    ensures var n := |trees| - 2;
            && Postorders(trees[..n] + [e]) == Postorders(trees) + [Operator(symbol)]
            && Evaluates(env, trees[..n] + [e], values[..n] + [value])
            && value == (Lookup(env.table, symbol).value.apply)(values[n], values[n + 1])
  {
    hide Postorder, Postorders, Lookup;
    var n := |trees| - 2;
    e, value := Binary(symbol, trees[n], trees[n + 1]), (Lookup(env.table, symbol).value.apply)(values[n], values[n + 1]);
    assert Evaluate(env, e) == Value(value);
    TwoTaken(trees, e);
  }

  lemma TwoTaken<N>(trees: seq<Expr<N>>, e: Expr<N>)
    requires |trees| >= 2 && e.Binary? && e.left == trees[|trees| - 2] && e.right == trees[|trees| - 1]
    ensures Postorders(trees[..|trees| - 2] + [e]) == Postorders(trees) + [Operator(e.symbol)]
  {
    hide Postorders, Postorder;
    var n := |trees| - 2;
    var front := Postorders(trees[..n]);
    PostordersAppend(trees[..n], e);
    PostordersAppend(trees[..n], trees[n]);
    PostordersAppend(trees[..n + 1], trees[n + 1]);
    assert trees[..n] + [trees[n]] == trees[..n + 1] && trees[..n + 1] + [trees[n + 1]] == trees;
    PostorderOfBinary(e);
    Regrouped(front, Postorder(e.left), Postorder(e.right), [Operator(e.symbol)]);
  }

  lemma PostorderOfBinary<N>(e: Expr<N>)
    requires e.Binary?
    ensures Postorder(e) == Postorder(e.left) + Postorder(e.right) + [Operator(e.symbol)]
  {
  }

  lemma Regrouped<T>(a: seq<T>, b: seq<T>, c: seq<T>, d: seq<T>)
    ensures a + (b + c + d) == a + b + c + d
  {
  }

  /** Code yields a value if and only if it is the postorder of one tree that has it. */
  lemma YieldsIffPostorder<N(!new)>(env: Env<N>, code: seq<Token<N>>, value: N)
    ensures Exec(env, code, []) == Value(value) <==>
            exists e :: code == Postorder(e) && Evaluate(env, e) == Value(value)
  {
    hide Exec, Evaluate, Postorder;
    assert code[..0] == [] && code[0..] == code;
    var end, whole, results := Runs(env, code, 0, [], []);
    if Exec(env, code, []) == Value(value) {
      OneTree(whole);
      assert code == Postorder(whole[0]) && Evaluate(env, whole[0]) == Value(results[0]);
    }
    forall e | code == Postorder(e) && Evaluate(env, e) == Value(value) ensures Exec(env, code, []) == Value(value) {
      assert code + [] == code;
      ExecPostorder(env, e, [], []);
      assert Exec(env, [], [] + [value]) == Value(value) by {
        NoMoreCode(env, value);
      }
    }
  }

  lemma NoMoreCode<N>(env: Env<N>, value: N)
    ensures Exec(env, [], [] + [value]) == Value(value)
  {
  }

  lemma OneTree<N>(trees: seq<Expr<N>>)
    requires |trees| == 1
    ensures Postorders(trees) == Postorder(trees[0])
  {
    assert trees[..0] == [] && [] + Postorder(trees[0]) == Postorder(trees[0]);
  }

  /** And it fails with a status if and only if that is the status of its first fault. */
  lemma FailsIffStops<N(!new)>(env: Env<N>, code: seq<Token<N>>, status: Status)
    ensures Exec(env, code, []) == Error(status) <==>
            exists k, trees, values :: StopsAt(env, code, k, trees, values, status)
  {
    hide Exec, Evaluate, Postorder, StopsAt, Evaluates;
    assert code[..0] == [] && code[0..] == code;
    assert Evaluates(env, [], []) by {
      NothingToEvaluate(env);
    }
    var end, whole, results := Runs(env, code, 0, [], []);
    if Exec(env, code, []) == Error(status) {
      assert StopsAt(env, code, end, whole, results, status);
    }
    forall k, trees, values | StopsAt(env, code, k, trees, values, status) ensures Exec(env, code, []) == Error(status) {
      StopsThere(env, code, k, trees, values, status);
    }
  }

  lemma NothingToEvaluate<N>(env: Env<N>)
    ensures Evaluates(env, [], [])
  {
  }

  lemma StopsThere<N>(env: Env<N>, code: seq<Token<N>>, k: nat, trees: seq<Expr<N>>, values: seq<N>, status: Status)
    requires StopsAt(env, code, k, trees, values, status)
    ensures Exec(env, code, []) == Error(status)
  {
    hide Evaluate, Postorder, Evaluates;
    assert code == Postorders(trees) + code[k..];
    ExecTrees(env, trees, values, code[k..]);
    if k < |code| {
      assert code[k..][0] == code[k];
    }
    assert |trees| == |values| by {
      SameLength(env, trees, values);
    }
  }

  lemma SameLength<N>(env: Env<N>, trees: seq<Expr<N>>, values: seq<N>)
    requires Evaluates(env, trees, values)
    ensures |trees| == |values|
  {
  }
}
