/**
 The calculator as it runs: token arrays with a fixed capacity, an operator stack and a value
 stack popped and pushed in place, and the saved result. Every method is tied to the functions
 of CalculatorSpec.
 */
module CalculatorMachine {
  import opened Wrappers
  import opened CalculatorSpec
  import opened ExpressionTrees

  class TokenArray<N> {
    const items: array<Token<N>>
    var size: nat

    ghost predicate Valid()
      reads this
    {
      items.Length == TOKEN_ARR_SIZE && size <= TOKEN_ARR_SIZE
    }

    ghost function Contents(): seq<Token<N>>
      requires Valid()
      reads this, items
    {
      items[..size]
    }

    constructor ()
      ensures Valid() && fresh(items) && Contents() == []
    {
      items := new Token<N>[TOKEN_ARR_SIZE](_ => LeftParen);
      size := 0;
    }

    method Append(token: Token<N>) returns (status: Status)
      requires Valid()
      modifies this, items
      ensures Valid()
      ensures status == if |old(Contents())| == TOKEN_ARR_SIZE then TooManyTokens else Ok
      ensures Contents() == if status.Ok? then old(Contents()) + [token] else old(Contents())
    {
      if size >= TOKEN_ARR_SIZE {
        return TooManyTokens;
      }
      items[size] := token;
      size := size + 1;
      return Ok;
    }

    method Pop() returns (token: Token<N>)
      requires Valid() && size > 0
      modifies this
      ensures Valid()
      ensures token == old(Contents())[old(size) - 1]
      ensures Contents() == old(Contents())[..old(size) - 1] && size == old(size) - 1
    {
      size := size - 1;
      token := items[size];
    }
  }

  class Calculator<N(0)> {
    var ans: N
    var hasResult: bool
    const operations: Table<N>
    const isZero: N -> bool

    constructor (operations: Table<N>, isZero: N -> bool, zero: N)
      ensures this.operations == operations && this.isZero == isZero && !hasResult && ans == zero
    {
      this.operations := operations;
      this.isZero := isZero;
      ans := zero;
      hasResult := false;
    }

    ghost function Environment(): Env<N>
      reads this
    {
      Env(operations, isZero, if hasResult then Some(ans) else None)
    }

    method GetOperation(symbol: char) returns (operation: Option<Plugin<N>>)
      ensures operation == Lookup(operations, symbol)
      ensures operation.None? ==> forall k :: 0 <= k < |operations| ==> operations[k].symbol != symbol
      ensures operation.Some? ==>
                exists k :: 0 <= k < |operations| && operation.value == operations[k] && operations[k].symbol == symbol
                            && forall j :: 0 <= j < k ==> operations[j].symbol != symbol
    {
      LookupIsFirst(operations, symbol);
      var i := 0;
      while i < |operations|
        invariant 0 <= i <= |operations|
        invariant Lookup(operations, symbol) == Lookup(operations[i..], symbol)
      {
        if operations[i].symbol == symbol {
          return Some(operations[i]);
        }
        i := i + 1;
      }
      return None;
    }

    /** The pop loop at an operator; the room left in `postfix` makes every append succeed. */
    method EmitOperators(stack: TokenArray<N>, postfix: TokenArray<N>, current: char)
      requires stack.Valid() && postfix.Valid() && stack != postfix && stack.items != postfix.items
      requires stack.size + postfix.size <= TOKEN_ARR_SIZE
      modifies stack, postfix, postfix.items
      ensures stack.Valid() && postfix.Valid() && stack.size + postfix.size == old(stack.size + postfix.size)
      ensures Yard(postfix.Contents(), stack.Contents()) ==
              PopOperators(operations, old(Yard(postfix.Contents(), stack.Contents())), current)
    {
      while stack.size != 0 && stack.items[stack.size - 1].Operator?
        invariant stack.Valid() && postfix.Valid() && stack.size + postfix.size == old(stack.size + postfix.size)
        invariant PopOperators(operations, old(Yard(postfix.Contents(), stack.Contents())), current) ==
                  PopOperators(operations, Yard(postfix.Contents(), stack.Contents()), current)
        decreases stack.size
      {
        if !TopGoesFirst(operations, stack.items[stack.size - 1].symbol, current) {
          break;
        }
        var top := stack.Pop();
        var status := postfix.Append(top);
        assert status.Ok?;
      }
    }

    /** The pop loop at a right parenthesis; the matching left one is left on the stack. */
    method EmitToParen(stack: TokenArray<N>, postfix: TokenArray<N>)
      requires stack.Valid() && postfix.Valid() && stack != postfix && stack.items != postfix.items
      requires stack.size + postfix.size <= TOKEN_ARR_SIZE
      modifies stack, postfix, postfix.items
      ensures stack.Valid() && postfix.Valid() && stack.size + postfix.size == old(stack.size + postfix.size)
      ensures stack.size != 0 ==> stack.items[stack.size - 1].LeftParen?
      ensures PopToParen(old(Yard(postfix.Contents(), stack.Contents()))) ==
              PopToParen(Yard(postfix.Contents(), stack.Contents()))
    {
      while stack.size != 0 && !stack.items[stack.size - 1].LeftParen?
        invariant stack.Valid() && postfix.Valid() && stack.size + postfix.size == old(stack.size + postfix.size)
        invariant PopToParen(old(Yard(postfix.Contents(), stack.Contents()))) ==
                  PopToParen(Yard(postfix.Contents(), stack.Contents()))
        decreases stack.size
      {
        var top := stack.Pop();
        var status := postfix.Append(top);
        assert status.Ok?;
      }
    }

    /** The loop that empties the stack once the input has been read. */
    method EmitRest(stack: TokenArray<N>, postfix: TokenArray<N>) returns (status: Status)
      requires stack.Valid() && postfix.Valid() && stack != postfix && stack.items != postfix.items
      requires stack.size + postfix.size <= TOKEN_ARR_SIZE
      modifies stack, postfix, postfix.items
      ensures postfix.Valid()
      ensures var flushed := Flush(old(Yard(postfix.Contents(), stack.Contents())));
              if status.Ok? then flushed == Some(postfix.Contents()) else status.InvalidInput? && flushed.None?
    {
      while stack.size != 0
        invariant stack.Valid() && postfix.Valid() && stack.size + postfix.size == old(stack.size + postfix.size)
        invariant Flush(old(Yard(postfix.Contents(), stack.Contents()))) ==
                  Flush(Yard(postfix.Contents(), stack.Contents()))
        decreases stack.size
      {
        var top := stack.Pop();
        if top.LeftParen? || top.RightParen? {
          return InvalidInput;
        }
        status := postfix.Append(top);
        assert status.Ok?;
      }
      return Ok;
    }

    /** One turn of the main loop. */
    method ReadOneToken(stack: TokenArray<N>, postfix: TokenArray<N>, current: Token<N>) returns (status: Status)
      requires stack.Valid() && postfix.Valid() && stack != postfix && stack.items != postfix.items
      requires stack.size + postfix.size < TOKEN_ARR_SIZE
      modifies stack, stack.items, postfix, postfix.items
      ensures stack.Valid() && postfix.Valid()
      ensures stack.size + postfix.size <= old(stack.size + postfix.size) + 1
      ensures var next := ReadToken(operations, old(Yard(postfix.Contents(), stack.Contents())), current);
              if status.Ok? then next == Some(Yard(postfix.Contents(), stack.Contents()))
              else status.InvalidInput? && next.None?
    {
      if current.Number? || current.Ans? {
        status := postfix.Append(current);
        assert status.Ok?;
      } else if current.LeftParen? {
        status := stack.Append(current);
        assert status.Ok?;
      } else if current.Operator? {
        EmitOperators(stack, postfix, current.symbol);
        status := stack.Append(current);
        assert status.Ok?;
      } else {
        EmitToParen(stack, postfix);
        if stack.size == 0 {
          return InvalidInput;
        }
        ghost var held := stack.Contents();
        stack.size := stack.size - 1;
        assert stack.Contents() == held[..|held| - 1];
        status := Ok;
      }
    }

    method ToPostfix(infix: TokenArray<N>, postfix: TokenArray<N>) returns (status: Status)
      requires infix.Valid() && postfix.Valid() && postfix.Contents() == []
      requires infix != postfix && infix.items != postfix.items
      modifies postfix, postfix.items
      ensures postfix.Valid()
      ensures status == if Compile(operations, infix.Contents()).Some? then Ok else InvalidInput
      ensures status.Ok? ==> Some(postfix.Contents()) == Compile(operations, infix.Contents())
    {
      var stack := new TokenArray<N>();
      ghost var tokens := infix.Contents();
      var i := 0;
      while i < infix.size
        invariant 0 <= i <= infix.size == |tokens| && infix.Contents() == tokens
        invariant postfix.Valid() && stack.Valid() && fresh(stack) && fresh(stack.items)
        invariant stack.size + postfix.size <= i
        invariant Compile(operations, tokens) ==
                  Finish(operations, Yard(postfix.Contents(), stack.Contents()), tokens[i..])
      {
        assert tokens[i..][0] == infix.items[i] && tokens[i..][1..] == tokens[i + 1..];
        status := ReadOneToken(stack, postfix, infix.items[i]);
        if !status.Ok? {
          return;
        }
        i := i + 1;
      }
      status := EmitRest(stack, postfix);
    }

    /** Replace the two topmost values by the operator's result. */
    method ReduceTop(stack: array<N>, stackSize: nat, symbol: char) returns (status: Status)
      requires 2 <= stackSize <= stack.Length
      modifies stack
      ensures forall k :: 0 <= k < stack.Length && k != stackSize - 2 ==> stack[k] == old(stack[k])
      ensures match ApplyOperator(Environment(), symbol, old(stack[stackSize - 2]), old(stack[stackSize - 1]))
              case Value(value) => status == Ok && stack[stackSize - 2] == value
              case Error(error) => status == error && status != Ok
    {
      var right := stack[stackSize - 1];
      var left := stack[stackSize - 2];
      if symbol == '/' && isZero(right) {
        return DivisionByZero;
      }
      var operation := GetOperation(symbol);
      if operation.None? {
        return InvalidInput;
      }
      stack[stackSize - 2] := (operation.value.apply)(left, right);
      return Ok;
    }

    method CalculatePostfix(postfix: TokenArray<N>) returns (status: Status)
      requires postfix.Valid()
      modifies this
      ensures match Exec(old(Environment()), postfix.Contents(), [])
              case Value(value) => status == Ok && hasResult && ans == value
              case Error(error) => status == error && hasResult == old(hasResult) && ans == old(ans)
    {
      hide Exec, ApplyOperator;
      var stack := new N[TOKEN_ARR_SIZE];
      var stackSize := 0;
      ghost var env := Environment();
      ghost var code := postfix.Contents();
      var i := 0;
      while i < postfix.size
        invariant 0 <= i <= postfix.size && 0 <= stackSize <= i
        invariant postfix.Contents() == code && Environment() == env
        invariant hasResult == old(hasResult) && ans == old(ans)
        invariant Exec(env, code, []) == Exec(env, code[i..], stack[..stackSize])
      {
        var current := postfix.items[i];
        ExecStep(env, code, i, stack[..stackSize]);
        if current.Ans? {
          if !hasResult {
            return InvalidInput;
          }
          stack[stackSize] := ans;
          stackSize := stackSize + 1;
          assert stack[..stackSize] == stack[..stackSize - 1] + [ans];
        } else if current.Number? {
          stack[stackSize] := current.value;
          stackSize := stackSize + 1;
          assert stack[..stackSize] == stack[..stackSize - 1] + [current.value];
        } else if current.Operator? {
          if stackSize < 2 {
            return InvalidInput;
          }
          ghost var operands := stack[..stackSize];
          status := ReduceTop(stack, stackSize, current.symbol);
          if !status.Ok? {
            return;
          }
          stackSize := stackSize - 1;
          assert stack[..stackSize] == operands[..|operands| - 2] + [stack[stackSize - 1]];
        } else {
          return InvalidInput;
        }
        i := i + 1;
      }
      ExecEnd(env, code[i..], stack[..stackSize]);
      if stackSize != 1 {
        return InvalidInput;
      }
      ans := stack[0];
      hasResult := true;
      return Ok;
    }

    /** One command line, already split into tokens. */
    method CalculateExpression(tokens: TokenArray<N>) returns (status: Status)
      requires tokens.Valid()
      modifies this
      ensures match Calculate(old(Environment()), tokens.Contents())
              case Value(value) => status == Ok && hasResult && ans == value
              case Error(error) => status == error && hasResult == old(hasResult) && ans == old(ans)
    {
      var postfix := new TokenArray<N>();
      status := ToPostfix(tokens, postfix);
      if status.Ok? {
        status := CalculatePostfix(postfix);
      }
    }
  }

  // ---------- the fixed-table calculator ----------

  function FixedPriority(symbol: char): int {
    match symbol
    case '+' => 1
    case '-' => 1
    case '*' => 2
    case '/' => 2
    case '^' => 3
    case _ => -1
  }

  predicate FixedRightAssociative(symbol: char) {
    symbol == '^'
  }

  /** The five shipped plugins, in any calculator's arithmetic. */
  function ShippedTable<N>(add: (N, N) -> N, diff: (N, N) -> N, times: (N, N) -> N,
                           divide: (N, N) -> N, power: (N, N) -> N): Table<N>
  {
    [Plugin('+', 1, false, add), Plugin('-', 1, false, diff), Plugin('*', 2, false, times),
     Plugin('/', 2, false, divide), Plugin('^', 3, true, power)]
  }

  /**
   The switch statements of the fixed calculator and the table search agree on every character,
   and the shipped table satisfies the condition under which translation is faithful.
   */
  lemma ShippedTableIsUniform<N>(add: (N, N) -> N, diff: (N, N) -> N, times: (N, N) -> N,
                                 divide: (N, N) -> N, power: (N, N) -> N)
    ensures var table := ShippedTable(add, diff, times, divide, power);
            && UniformAssociativity(table)
            && forall c :: Priority(table, c) == FixedPriority(c)
                        && RightAssociative(table, c) == FixedRightAssociative(c)
                        && (IsOperator(table, c) <==> FixedPriority(c) > 0)
  {
    var table := ShippedTable(add, diff, times, divide, power);
    forall c
      ensures Priority(table, c) == FixedPriority(c)
      ensures RightAssociative(table, c) == FixedRightAssociative(c)
      ensures IsOperator(table, c) <==> FixedPriority(c) > 0
    {
      assert Lookup(table[5..], c).None?;
      assert Lookup(table[4..], c) == if c == '^' then Some(table[4]) else None;
      assert Lookup(table[3..], c) == if c == '/' then Some(table[3]) else Lookup(table[4..], c);
      assert Lookup(table[2..], c) == if c == '*' then Some(table[2]) else Lookup(table[3..], c);
      assert Lookup(table[1..], c) == if c == '-' then Some(table[1]) else Lookup(table[2..], c);
      assert Lookup(table[0..], c) == if c == '+' then Some(table[0]) else Lookup(table[1..], c);
      assert table[0..] == table;
    }
  }
}
