/**
 The calculator's two passes as functions: the shunting-yard translation of infix tokens to
 postfix code, and the stack machine that runs the code. Numbers are an abstract type N; the
 table of operations is a sequence of plugins, searched from the front.
 */
module CalculatorSpec {
  import opened Wrappers

  const TOKEN_ARR_SIZE := 100

  datatype Token<+N> = Number(value: N) | Operator(symbol: char) | LeftParen | RightParen | Ans

  datatype Plugin<!N> = Plugin(symbol: char, priority: int, rightAssociative: bool, apply: (N, N) -> N)

  type Table<!N> = seq<Plugin<N>>

  datatype Status = Ok | InvalidInput | DivisionByZero | TooManyTokens

  /** A computed value, or the status that ended the computation. */
  datatype Outcome<+N> = Value(value: N) | Error(status: Status)

  // ---------- the operation table ----------

  function Lookup<N>(table: Table<N>, symbol: char): Option<Plugin<N>> {
    if table == [] then None
    else if table[0].symbol == symbol then Some(table[0])
    else Lookup(table[1..], symbol)
  }

  /** The search finds the first operation with the symbol, if there is one at all. */
  lemma {:induction false} LookupIsFirst<N>(table: Table<N>, symbol: char)
    ensures Lookup(table, symbol).None? ==> forall k :: 0 <= k < |table| ==> table[k].symbol != symbol
    ensures Lookup(table, symbol).Some? ==>
              exists k :: 0 <= k < |table| && Lookup(table, symbol).value == table[k] && table[k].symbol == symbol
                          && forall j :: 0 <= j < k ==> table[j].symbol != symbol
  {
    if table != [] && table[0].symbol != symbol {
      LookupIsFirst(table[1..], symbol);
      if Lookup(table[1..], symbol).Some? {
        var k :| 0 <= k < |table[1..]| && Lookup(table[1..], symbol).value == table[1..][k] && table[1..][k].symbol == symbol
                 && forall j :: 0 <= j < k ==> table[1..][j].symbol != symbol;
        assert table[k + 1] == table[1..][k];
        assert forall j :: 0 < j < k + 1 ==> table[j] == table[1..][j - 1];
      }
    } else if table != [] {
      assert table[0] == Lookup(table, symbol).value;
    }
  }

  predicate IsOperator<N>(table: Table<N>, symbol: char) {
    Lookup(table, symbol).Some?
  }

  function Priority<N>(table: Table<N>, symbol: char): int {
    match Lookup(table, symbol)
    case None => -1
    case Some(plugin) => plugin.priority
  }

  predicate RightAssociative<N>(table: Table<N>, symbol: char) {
    match Lookup(table, symbol)
    case None => false
    case Some(plugin) => plugin.rightAssociative
  }

  /** The pop rule: must the operator on top of the stack be emitted before `current` is pushed? */
  predicate TopGoesFirst<N>(table: Table<N>, top: char, current: char) {
    || Priority(table, top) > Priority(table, current)
    || (Priority(table, top) == Priority(table, current) && !RightAssociative(table, current))
  }

  // ---------- infix to postfix ----------

  /** What the translation has emitted and what it still holds; the stack's top is its last element. */
  datatype Yard<+N> = Yard(output: seq<Token<N>>, stack: seq<Token<N>>)
  {
    function Pop(): Yard<N>
      requires stack != []
    {
      Yard(output + [stack[|stack| - 1]], stack[..|stack| - 1])
    }
  }

  function PopOperators<N>(table: Table<N>, yard: Yard<N>, current: char): Yard<N>
    decreases |yard.stack|
  {
    if yard.stack == [] then yard
    else
      var top := yard.stack[|yard.stack| - 1];
      if top.Operator? && TopGoesFirst(table, top.symbol, current)
      then PopOperators(table, yard.Pop(), current)
      else yard
  }

  /** Emit down to the nearest left parenthesis and drop it; None when there is none. */
  function PopToParen<N>(yard: Yard<N>): Option<Yard<N>>
    decreases |yard.stack|
  {
    if yard.stack == [] then None
    else if yard.stack[|yard.stack| - 1].LeftParen?
    then Some(Yard(yard.output, yard.stack[..|yard.stack| - 1]))
    else PopToParen(yard.Pop())
  }

  function ReadToken<N>(table: Table<N>, yard: Yard<N>, token: Token<N>): Option<Yard<N>> {
    match token
    case Number(_) => Some(Yard(yard.output + [token], yard.stack))
    case Ans => Some(Yard(yard.output + [token], yard.stack))
    case LeftParen => Some(Yard(yard.output, yard.stack + [token]))
    case Operator(symbol) =>
      var popped := PopOperators(table, yard, symbol);
      Some(Yard(popped.output, popped.stack + [token]))
    case RightParen => PopToParen(yard)
  }

  function ReadAll<N>(table: Table<N>, yard: Yard<N>, tokens: seq<Token<N>>): Option<Yard<N>>
    decreases |tokens|
  {
    if tokens == [] then Some(yard)
    else
      match ReadToken(table, yard, tokens[0])
      case None => None
      case Some(next) => ReadAll(table, next, tokens[1..])
  }

  /** Empty the stack at the end of the input; a parenthesis left on it is an error. */
  function Flush<N>(yard: Yard<N>): Option<seq<Token<N>>>
    decreases |yard.stack|
  {
    if yard.stack == [] then Some(yard.output)
    else if yard.stack[|yard.stack| - 1].LeftParen? || yard.stack[|yard.stack| - 1].RightParen? then None
    else Flush(yard.Pop())
  }

  function Finish<N>(table: Table<N>, yard: Yard<N>, tokens: seq<Token<N>>): Option<seq<Token<N>>> {
    match ReadAll(table, yard, tokens)
    case None => None
    case Some(end) => Flush(end)
  }

  function Compile<N>(table: Table<N>, tokens: seq<Token<N>>): Option<seq<Token<N>>> {
    Finish(table, Yard([], []), tokens)
  }

  // ---------- running postfix code ----------

  /** What an evaluation reads: the operations, the test for a zero divisor, and `ans` once it is set. */
  datatype Env<!N> = Env(table: Table<N>, isZero: N -> bool, ans: Option<N>)

  function ApplyOperator<N>(env: Env<N>, symbol: char, left: N, right: N): Outcome<N> {
    if symbol == '/' && env.isZero(right) then Error(DivisionByZero)
    else
      match Lookup(env.table, symbol)
      case None => Error(InvalidInput)
      case Some(plugin) => Value((plugin.apply)(left, right))
  }

  function Exec<N>(env: Env<N>, code: seq<Token<N>>, stack: seq<N>): Outcome<N> {
    if code == [] then
      if |stack| == 1 then Value(stack[0]) else Error(InvalidInput)
    else
      match code[0]
      case Number(value) => Exec(env, code[1..], stack + [value])
      case Ans =>
        (match env.ans
         case None => Error(InvalidInput)
         case Some(value) => Exec(env, code[1..], stack + [value]))
      case Operator(symbol) =>
        if |stack| < 2 then Error(InvalidInput)
        else
          (match ApplyOperator(env, symbol, stack[|stack| - 2], stack[|stack| - 1])
           case Error(status) => Error(status)
           case Value(value) => Exec(env, code[1..], stack[..|stack| - 2] + [value]))
      case LeftParen => Error(InvalidInput)
      case RightParen => Error(InvalidInput)
  }

  /** One turn of the stack machine's loop. */
  lemma ExecStep<N>(env: Env<N>, code: seq<Token<N>>, i: nat, stack: seq<N>)
    requires i < |code|
    ensures Exec(env, code[i..], stack) ==
            if code[i].Number? then Exec(env, code[i + 1..], stack + [code[i].value])
            else if code[i].Ans? && env.ans.Some? then Exec(env, code[i + 1..], stack + [env.ans.value])
            else if code[i].Operator? && |stack| >= 2 then
              var outcome := ApplyOperator(env, code[i].symbol, stack[|stack| - 2], stack[|stack| - 1]);
              if outcome.Error? then outcome
              else Exec(env, code[i + 1..], stack[..|stack| - 2] + [outcome.value])
            else Error(InvalidInput)
  {
    assert code[i..][0] == code[i] && code[i..][1..] == code[i + 1..];
  }

  lemma ExecEnd<N>(env: Env<N>, code: seq<Token<N>>, stack: seq<N>)
    ensures code == [] ==> Exec(env, code, stack) == if |stack| == 1 then Value(stack[0]) else Error(InvalidInput)
  {
  }

  /** Both passes, as calculate_expression chains them. */
  function Calculate<N>(env: Env<N>, tokens: seq<Token<N>>): Outcome<N> {
    match Compile(env.table, tokens)
    case None => Error(InvalidInput)
    case Some(code) => Exec(env, code, [])
  }
}
