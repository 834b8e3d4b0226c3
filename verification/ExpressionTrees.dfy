/**
 The reference meaning of infix text: expression trees, how they are printed, when a tree needs
 no further parentheses, and the proof that compiling and running the printed tokens evaluates
 the tree.
 */
module ExpressionTrees {
  import opened Wrappers
  import opened CalculatorSpec

  /** Parentheses are kept in the tree, so a tree may carry as many redundant pairs as it likes. */
  datatype Expr<+N> =
    | Literal(value: N)
    | AnsRef
    | Paren(inner: Expr<N>)
    | Binary(symbol: char, left: Expr<N>, right: Expr<N>)

  function Print<N>(e: Expr<N>): seq<Token<N>> {
    match e
    case Literal(value) => [Number(value)]
    case AnsRef => [Ans]
    case Paren(inner) => [LeftParen] + Print(inner) + [RightParen]
    case Binary(symbol, left, right) => Print(left) + [Operator(symbol)] + Print(right)
  }

  function Postorder<N>(e: Expr<N>): seq<Token<N>> {
    match e
    case Literal(value) => [Number(value)]
    case AnsRef => [Ans]
    case Paren(inner) => Postorder(inner)
    case Binary(symbol, left, right) => Postorder(left) + Postorder(right) + [Operator(symbol)]
  }

  /**
   Direct recursive evaluation: the left operand, the right operand, and then the first operation in the
   table with the symbol, applied to the left value and the right value; a division by zero is an error.
   */
  function Evaluate<N>(env: Env<N>, e: Expr<N>): Outcome<N> {
    match e
    case Literal(value) => Value(value)
    case AnsRef =>
      (match env.ans
       case None => Error(InvalidInput)
       case Some(value) => Value(value))
    case Paren(inner) => Evaluate(env, inner)
    case Binary(symbol, left, right) =>
      match Evaluate(env, left)
      case Error(status) => Error(status)
      case Value(l) =>
        match Evaluate(env, right)
        case Error(status) => Error(status)
        case Value(r) =>
          if symbol == '/' && env.isZero(r) then Error(DivisionByZero)
          else if !IsOperator(env.table, symbol) then Error(InvalidInput)
          else Value((Lookup(env.table, symbol).value.apply)(l, r))
  }

  // ---------- conventional parenthesisation ----------

  /** An unparenthesised left operand binds tighter, or as tight at a left-associative operator. */
  predicate LeftOperandFits<N>(table: Table<N>, symbol: char, left: Expr<N>) {
    left.Binary? ==>
      || Priority(table, left.symbol) > Priority(table, symbol)
      || (Priority(table, left.symbol) == Priority(table, symbol) && !RightAssociative(table, symbol))
  }

  /** An unparenthesised right operand binds tighter, or as tight at a right-associative operator. */
  predicate RightOperandFits<N>(table: Table<N>, symbol: char, right: Expr<N>) {
    right.Binary? ==>
      || Priority(table, right.symbol) > Priority(table, symbol)
      || (Priority(table, right.symbol) == Priority(table, symbol) && RightAssociative(table, symbol))
  }

  /** Every operator is in the table and every operand that needs parentheses has them. */
  predicate Conventional<N>(table: Table<N>, e: Expr<N>) {
    match e
    case Literal(_) => true
    case AnsRef => true
    case Paren(inner) => Conventional(table, inner)
    case Binary(symbol, left, right) =>
      && IsOperator(table, symbol)
      && LeftOperandFits(table, symbol, left) && Conventional(table, left)
      && RightOperandFits(table, symbol, right) && Conventional(table, right)
  }

  /** Operators of one priority all associate the same way. */
  ghost predicate UniformAssociativity<N>(table: Table<N>) {
    forall a, b ::
      IsOperator(table, a) && IsOperator(table, b) && Priority(table, a) == Priority(table, b)
      ==> RightAssociative(table, a) == RightAssociative(table, b)
  }

  // ---------- the stack machine evaluates postorder code ----------

  /** Running a tree's code in front of any further code pushes the tree's value, or stops with its error. */
  lemma {:induction false} ExecPostorder<N>(env: Env<N>, e: Expr<N>, rest: seq<Token<N>>, stack: seq<N>)
    ensures Exec(env, Postorder(e) + rest, stack) ==
            match Evaluate(env, e)
            case Error(status) => Error(status)
            case Value(value) => Exec(env, rest, stack + [value])
  {
    match e
    case Literal(value) => assert ([Number(value)] + rest)[1..] == rest;
    case AnsRef => assert ([Ans] + rest)[1..] == rest;
    case Paren(inner) => ExecPostorder(env, inner, rest, stack);
    case Binary(symbol, left, right) =>
      var tail := [Operator(symbol)] + rest;
      assert Postorder(e) + rest == Postorder(left) + (Postorder(right) + tail);
      ExecPostorder(env, left, Postorder(right) + tail, stack);
      if Evaluate(env, left).Value? {
        var l := Evaluate(env, left).value;
        ExecPostorder(env, right, tail, stack + [l]);
        if Evaluate(env, right).Value? {
          var r := Evaluate(env, right).value;
          var full := stack + [l] + [r];
          assert full[|full| - 2] == l && full[|full| - 1] == r && full[..|full| - 2] == stack;
          assert tail[1..] == rest;
        }
      }
  }

  // ---------- the translation emits postorder code ----------

  /** Operators still on the stack once a tree has been read: those on its right spine. */
  function Spine<N>(e: Expr<N>): seq<Token<N>> {
    match e
    case Binary(symbol, _, right) => [Operator(symbol)] + Spine(right)
    case _ => []
  }

  /** The code emitted by then: everything except the right spine's operators. */
  function Emitted<N>(e: Expr<N>): seq<Token<N>> {
    match e
    case Binary(_, left, right) => Postorder(left) + Emitted(right)
    case _ => Postorder(e)
  }

  function Reverse<N>(s: seq<Token<N>>): seq<Token<N>> {
    if s == [] then [] else Reverse(s[1..]) + [s[0]]
  }

  lemma {:induction false} EmittedThenSpine<N>(e: Expr<N>)
    ensures Postorder(e) == Emitted(e) + Reverse(Spine(e))
  {
    match e
    case Binary(symbol, left, right) =>
      EmittedThenSpine(right);
      assert Spine(e)[1..] == Spine(right);
      assert Postorder(left) + (Emitted(right) + Reverse(Spine(right))) + [Operator(symbol)]
          == Emitted(e) + Reverse(Spine(e));
    case _ =>
  }

  lemma {:induction false} ReadAllAppend<N>(table: Table<N>, yard: Yard<N>, a: seq<Token<N>>, b: seq<Token<N>>)
    ensures ReadAll(table, yard, a + b) ==
            match ReadAll(table, yard, a)
            case None => None
            case Some(middle) => ReadAll(table, middle, b)
    decreases |a|
  {
    if a == [] {
      assert a + b == b;
    } else {
      assert (a + b)[1..] == a[1..] + b;
      var next := ReadToken(table, yard, a[0]);
      if next.Some? {
        ReadAllAppend(table, next.value, a[1..], b);
      }
    }
  }

  lemma ReadChain<N>(table: Table<N>, start: Yard<N>, a: seq<Token<N>>, middle: Yard<N>, b: seq<Token<N>>, end: Yard<N>)
    requires ReadAll(table, start, a) == Some(middle)
    requires ReadAll(table, middle, b) == Some(end)
    ensures ReadAll(table, start, a + b) == Some(end)
  {
    ReadAllAppend(table, start, a, b);
  }

  /** Does the reader leave the stack alone when a tree starting with operator `symbol` arrives on it? */
  predicate Rests<N>(table: Table<N>, stack: seq<Token<N>>, symbol: char) {
    stack == [] || !stack[|stack| - 1].Operator? || !TopGoesFirst(table, stack[|stack| - 1].symbol, symbol)
  }

  predicate Admits<N>(table: Table<N>, stack: seq<Token<N>>, e: Expr<N>) {
    e.Binary? ==> Rests(table, stack, e.symbol)
  }

  /** The operators on a fitting left operand's spine all go first. */
  lemma {:induction false} SpineGoesFirst<N>(table: Table<N>, e: Expr<N>, symbol: char)
    requires UniformAssociativity(table) && Conventional(table, e)
    requires IsOperator(table, symbol) && LeftOperandFits(table, symbol, e)
    ensures forall i :: 0 <= i < |Spine(e)| ==>
              Spine(e)[i].Operator? && TopGoesFirst(table, Spine(e)[i].symbol, symbol)
  {
    match e
    case Binary(op, _, right) =>
      SpineGoesFirst(table, right, symbol);
    case _ =>
  }

  lemma {:induction false} PopSpine<N>(table: Table<N>, output: seq<Token<N>>, stack: seq<Token<N>>,
                                       spine: seq<Token<N>>, symbol: char)
    requires forall i :: 0 <= i < |spine| ==> spine[i].Operator? && TopGoesFirst(table, spine[i].symbol, symbol)
    requires Rests(table, stack, symbol)
    ensures PopOperators(table, Yard(output, stack + spine), symbol) == Yard(output + Reverse(spine), stack)
    decreases |spine|
  {
    if spine == [] {
      assert stack + spine == stack;
      assert output + Reverse(spine) == output;
    } else {
      var last := |spine| - 1;
      var yard := Yard(output, stack + spine);
      assert yard.stack[|yard.stack| - 1] == spine[last];
      assert yard.Pop() == Yard(output + [spine[last]], stack + spine[..last]);
      assert PopOperators(table, yard, symbol) == PopOperators(table, yard.Pop(), symbol);
      hide PopOperators, Reverse;
      PopSpine(table, output + [spine[last]], stack, spine[..last], symbol);
      ReverseLast(spine);
      assert output + [spine[last]] + Reverse(spine[..last]) == output + Reverse(spine);
    }
  }

  lemma {:induction false} ReverseLast<N>(s: seq<Token<N>>)
    requires s != []
    ensures Reverse(s) == [s[|s| - 1]] + Reverse(s[..|s| - 1])
  {
    if |s| > 1 {
      ReverseLast(s[1..]);
      assert s[1..][..|s| - 2] == s[..|s| - 1][1..];
      assert s[1..][|s| - 2] == s[|s| - 1];
    }
  }

  lemma {:induction false} PopSpineToParen<N>(output: seq<Token<N>>, stack: seq<Token<N>>, spine: seq<Token<N>>)
    requires forall i :: 0 <= i < |spine| ==> spine[i].Operator?
    ensures PopToParen(Yard(output, stack + [LeftParen] + spine)) == Some(Yard(output + Reverse(spine), stack))
    decreases |spine|
  {
    var full := stack + [LeftParen] + spine;
    if spine == [] {
      assert full[..|full| - 1] == stack;
      assert output + Reverse(spine) == output;
    } else {
      var last := |spine| - 1;
      assert full[|full| - 1] == spine[last];
      assert full[..|full| - 1] == stack + [LeftParen] + spine[..last];
      PopSpineToParen(output + [spine[last]], stack, spine[..last]);
      ReverseLast(spine);
      assert output + [spine[last]] + Reverse(spine[..last]) == output + Reverse(spine);
    }
  }

  lemma {:induction false} SpineIsOperators<N>(e: Expr<N>)
    ensures forall i :: 0 <= i < |Spine(e)| ==> Spine(e)[i].Operator?
  {
    match e
    case Binary(_, _, right) => SpineIsOperators(right);
    case _ =>
  }

  /** Reading one token: the one-step unfolding of ReadAll. */
  lemma ReadOne<N>(table: Table<N>, yard: Yard<N>, token: Token<N>)
    ensures ReadAll(table, yard, [token]) == ReadToken(table, yard, token)
  {
    var next := ReadToken(table, yard, token);
    assert [token][1..] == [];
    if next.Some? {
      assert ReadAll(table, next.value, []) == next;
    }
  }

  /** Reading a printed tree emits its code except for the spine, which it leaves on the stack. */
  lemma {:induction false} ReadPrinted<N>(table: Table<N>, e: Expr<N>, output: seq<Token<N>>, stack: seq<Token<N>>)
    requires UniformAssociativity(table) && Conventional(table, e)
    requires Admits(table, stack, e)
    ensures ReadAll(table, Yard(output, stack), Print(e)) == Some(Yard(output + Emitted(e), stack + Spine(e)))
    decreases e, 0
  {
    match e
    case Literal(value) =>
      ReadOne(table, Yard(output, stack), Number(value));
      assert stack + Spine(e) == stack;
    case AnsRef =>
      ReadOne(table, Yard(output, stack), Ans);
      assert stack + Spine(e) == stack;
    case Paren(inner) =>
      ReadParen(table, inner, output, stack);
      assert stack + Spine(e) == stack;
    case Binary(symbol, left, right) =>
      ReadPrinted(table, left, output, stack);
      ReadPrinted(table, right, output + Postorder(left), stack + [Operator(symbol)]);
      ReadBinary(table, e, output, stack);
  }

  /** Left operand, operator and right operand read one after the other. */
  lemma ReadBinary<N>(table: Table<N>, e: Expr<N>, output: seq<Token<N>>, stack: seq<Token<N>>)
    requires UniformAssociativity(table) && Conventional(table, e) && e.Binary? && Rests(table, stack, e.symbol)
    requires ReadAll(table, Yard(output, stack), Print(e.left)) ==
             Some(Yard(output + Emitted(e.left), stack + Spine(e.left)))
    requires ReadAll(table, Yard(output + Postorder(e.left), stack + [Operator(e.symbol)]), Print(e.right)) ==
             Some(Yard(output + Postorder(e.left) + Emitted(e.right), stack + [Operator(e.symbol)] + Spine(e.right)))
    ensures ReadAll(table, Yard(output, stack), Print(e)) == Some(Yard(output + Emitted(e), stack + Spine(e)))
  {
    hide *;
    BinaryParts(table, e);
    YardAfterBinary(e, output, stack);
    ReadOperatorAfter(table, e.left, e.symbol, output, stack);
    var op := [Operator(e.symbol)];
    var y0 := Yard(output, stack);
    var y1 := Yard(output + Emitted(e.left), stack + Spine(e.left));
    var y2 := Yard(output + Postorder(e.left), stack + op);
    var y3 := Yard(y2.output + Emitted(e.right), y2.stack + Spine(e.right));
    ReadChain(table, y0, Print(e.left), y1, op, y2);
    ReadChain(table, y0, Print(e.left) + op, y2, Print(e.right), y3);
  }

  lemma BinaryParts<N>(table: Table<N>, e: Expr<N>)
    requires Conventional(table, e) && e.Binary?
    ensures IsOperator(table, e.symbol) && LeftOperandFits(table, e.symbol, e.left) && Conventional(table, e.left)
    ensures Print(e) == Print(e.left) + [Operator(e.symbol)] + Print(e.right)
  {
    hide IsOperator, LeftOperandFits, RightOperandFits;
  }

  lemma YardAfterBinary<N>(e: Expr<N>, output: seq<Token<N>>, stack: seq<Token<N>>)
    requires e.Binary?
    ensures output + Postorder(e.left) + Emitted(e.right) == output + Emitted(e)
    ensures stack + [Operator(e.symbol)] + Spine(e.right) == stack + Spine(e)
  {
  }

  /** The operator after a left operand empties that operand's spine and stops there. */
  lemma ReadOperatorAfter<N>(table: Table<N>, left: Expr<N>, symbol: char, output: seq<Token<N>>, stack: seq<Token<N>>)
    requires UniformAssociativity(table) && Conventional(table, left)
    requires IsOperator(table, symbol) && LeftOperandFits(table, symbol, left) && Rests(table, stack, symbol)
    ensures ReadAll(table, Yard(output + Emitted(left), stack + Spine(left)), [Operator(symbol)]) ==
            Some(Yard(output + Postorder(left), stack + [Operator(symbol)]))
  {
    hide UniformAssociativity, Conventional, LeftOperandFits, Rests, Emitted, Spine, Postorder, Reverse;
    var y1 := Yard(output + Emitted(left), stack + Spine(left));
    ReadOne(table, y1, Operator(symbol));
    SpineGoesFirst(table, left, symbol);
    PopSpine(table, y1.output, stack, Spine(left), symbol);
    EmittedThenSpine(left);
    assert y1.output + Reverse(Spine(left)) == output + Postorder(left);
  }

  lemma {:induction false} ReadParen<N>(table: Table<N>, inner: Expr<N>, output: seq<Token<N>>, stack: seq<Token<N>>)
    requires UniformAssociativity(table) && Conventional(table, inner)
    ensures ReadAll(table, Yard(output, stack), Print(Paren(inner))) == Some(Yard(output + Postorder(inner), stack))
    decreases inner, 1
  {
    var y0 := Yard(output, stack);
    var y1 := Yard(output, stack + [LeftParen]);
    var y2 := Yard(output + Emitted(inner), y1.stack + Spine(inner));
    var y3 := Yard(output + Postorder(inner), stack);
    ReadOne(table, y0, LeftParen);
    ReadPrinted(table, inner, y1.output, y1.stack);
    ReadCloseAfter(table, inner, output, stack);
    ReadChain(table, y0, [LeftParen], y1, Print(inner), y2);
    ReadChain(table, y0, [LeftParen] + Print(inner), y2, [RightParen], y3);
  }

  lemma ReadCloseAfter<N>(table: Table<N>, inner: Expr<N>, output: seq<Token<N>>, stack: seq<Token<N>>)
    ensures ReadAll(table, Yard(output + Emitted(inner), stack + [LeftParen] + Spine(inner)), [RightParen]) ==
            Some(Yard(output + Postorder(inner), stack))
  {
    var y2 := Yard(output + Emitted(inner), stack + [LeftParen] + Spine(inner));
    ReadOne(table, y2, RightParen);
    SpineIsOperators(inner);
    PopSpineToParen(y2.output, stack, Spine(inner));
    EmittedThenSpine(inner);
    assert y2.output + Reverse(Spine(inner)) == output + Postorder(inner);
  }

  lemma {:induction false} FlushSpine<N>(output: seq<Token<N>>, spine: seq<Token<N>>)
    requires forall i :: 0 <= i < |spine| ==> spine[i].Operator?
    ensures Flush(Yard(output, spine)) == Some(output + Reverse(spine))
    decreases |spine|
  {
    if spine == [] {
      assert output + Reverse(spine) == output;
    } else {
      var last := |spine| - 1;
      FlushSpine(output + [spine[last]], spine[..last]);
      ReverseLast(spine);
      assert output + [spine[last]] + Reverse(spine[..last]) == output + Reverse(spine);
    }
  }

  /** Compiler correctness, first half: the code of a printed tree is its postorder. */
  lemma CompilePrinted<N>(table: Table<N>, e: Expr<N>)
    requires UniformAssociativity(table) && Conventional(table, e)
    ensures Compile(table, Print(e)) == Some(Postorder(e))
  {
    ReadPrinted(table, e, [], []);
    assert [] + Emitted(e) == Emitted(e) && [] + Spine(e) == Spine(e);
    SpineIsOperators(e);
    FlushSpine(Emitted(e), Spine(e));
    EmittedThenSpine(e);
  }

  /**
   Compiler correctness: calculating the printed tokens gives the tree's value, or the first
   error met evaluating it left operand, right operand, operator.
   */
  lemma CalculatePrinted<N>(env: Env<N>, e: Expr<N>)
    requires UniformAssociativity(env.table) && Conventional(env.table, e)
    ensures Calculate(env, Print(e)) == Evaluate(env, e)
  {
    CompilePrinted(env.table, e);
    assert Postorder(e) + [] == Postorder(e);
    ExecPostorder(env, e, [], []);
  }

  // ---------- exactly when the translation respects the conventional trees ----------

  /** Reading `ans a ans b ans` when b makes a go first. */
  lemma ReadMixed<N>(table: Table<N>, a: char, b: char)
    requires TopGoesFirst(table, a, b)
    ensures ReadAll(table, Yard([], []), [Ans] + [Operator(a)] + [Ans] + [Operator(b)] + [Ans]) ==
            Some(Yard([Ans, Ans, Operator(a), Ans], [Operator(b)]))
  {
    var opA, opB: Token<N> := Operator(a), Operator(b);
    var y0, y1 := Yard([], []), Yard([Ans], []);
    var y2, y3 := Yard([Ans], [opA]), Yard([Ans, Ans], [opA]);
    var y4, y5 := Yard([Ans, Ans, opA], [opB]), Yard([Ans, Ans, opA, Ans], [opB]);
    ReadOne(table, y0, Ans);
    assert y0.output + [Ans] == y1.output;
    ReadOne(table, y1, opA);
    assert y1.stack + [opA] == y2.stack && PopOperators(table, y1, a) == y1;
    ReadOne(table, y2, Ans);
    assert y2.output + [Ans] == y3.output;
    ReadOne(table, y3, opB);
    assert y3.Pop() == Yard([Ans, Ans, opA], []) && PopOperators(table, y3, b) == y3.Pop();
    assert y4.stack == [] + [opB];
    ReadOne(table, y4, Ans);
    assert y4.output + [Ans] == y5.output;
    hide *;
    ReadChain(table, y0, [Ans], y1, [opA], y2);
    ReadChain(table, y0, [Ans] + [opA], y2, [Ans], y3);
    ReadChain(table, y0, [Ans] + [opA] + [Ans], y3, [opB], y4);
    ReadChain(table, y0, [Ans] + [opA] + [Ans] + [opB], y4, [Ans], y5);
  }

  /** Two operators of one priority, the first right- and the second left-associative, are regrouped. */
  lemma MixedAssociativityRegroups<N>(table: Table<N>, a: char, b: char)
    requires IsOperator(table, a) && IsOperator(table, b) && Priority(table, a) == Priority(table, b)
    requires RightAssociative(table, a) && !RightAssociative(table, b)
    ensures var e: Expr<N> := Binary(a, AnsRef, Binary(b, AnsRef, AnsRef));
            Conventional(table, e) && Compile(table, Print(e)) != Some(Postorder(e))
  {
    var e: Expr<N> := Binary(a, AnsRef, Binary(b, AnsRef, AnsRef));
    var opA, opB: Token<N> := Operator(a), Operator(b);
    assert Print(e) == [Ans] + [opA] + [Ans] + [opB] + [Ans];
    ReadMixed(table, a, b);
    FlushSpine([Ans, Ans, opA, Ans], [opB]);
    var code := [Ans, Ans, opA, Ans] + Reverse([opB]);
    assert Compile(table, Print(e)) == Some(code);
    assert code[2] == opA && Postorder(e) == [Ans, Ans, Ans, opB, opA];
  }

  /**
   The translation compiles every conventional tree to its postorder if and only if the table
   gives all operators of one priority the same associativity.
   */
  lemma FaithfulIffUniform<N(!new)>(table: Table<N>)
    ensures UniformAssociativity(table) <==>
            forall e: Expr<N> :: Conventional(table, e) ==> Compile(table, Print(e)) == Some(Postorder(e))
  {
    if UniformAssociativity(table) {
      forall e: Expr<N> | Conventional(table, e)
        ensures Compile(table, Print(e)) == Some(Postorder(e))
      {
        CompilePrinted(table, e);
      }
    } else {
      var a, b :| IsOperator(table, a) && IsOperator(table, b) && Priority(table, a) == Priority(table, b)
                  && RightAssociative(table, a) != RightAssociative(table, b);
      if RightAssociative(table, a) {
        MixedAssociativityRegroups(table, a, b);
      } else {
        MixedAssociativityRegroups(table, b, a);
      }
    }
  }

  // ---------- every infix token sequence has a conventional tree ----------

  predicate KnownOperators<N>(table: Table<N>, e: Expr<N>) {
    match e
    case Literal(_) => true
    case AnsRef => true
    case Paren(inner) => KnownOperators(table, inner)
    case Binary(symbol, left, right) =>
      IsOperator(table, symbol) && KnownOperators(table, left) && KnownOperators(table, right)
  }

  /** Append one operator and one unbreakable operand to a tree, keeping it conventional. */
  function Attach<N>(table: Table<N>, tree: Expr<N>, symbol: char, operand: Expr<N>): Expr<N>
    decreases tree
  {
    match tree
    case Binary(root, left, right) =>
      if TopGoesFirst(table, root, symbol) then Binary(symbol, tree, operand)
      else Binary(root, left, Attach(table, right, symbol, operand))
    case _ => Binary(symbol, tree, operand)
  }

  function Join<N>(table: Table<N>, left: Expr<N>, symbol: char, right: Expr<N>): Expr<N>
    decreases right
  {
    match right
    case Binary(root, rl, rr) => Join(table, Join(table, left, symbol, rl), root, rr)
    case _ => Attach(table, left, symbol, right)
  }

  /** The conventional tree with the same printed tokens. */
  function Regroup<N>(table: Table<N>, e: Expr<N>): Expr<N> {
    match e
    case Paren(inner) => Paren(Regroup(table, inner))
    case Binary(symbol, left, right) => Join(table, Regroup(table, left), symbol, Regroup(table, right))
    case _ => e
  }

  lemma {:induction false} AttachIsConventional<N>(table: Table<N>, tree: Expr<N>, symbol: char, operand: Expr<N>)
    requires UniformAssociativity(table) && IsOperator(table, symbol)
    requires Conventional(table, tree) && Conventional(table, operand) && !operand.Binary?
    ensures Conventional(table, Attach(table, tree, symbol, operand))
    ensures Print(Attach(table, tree, symbol, operand)) == Print(tree) + [Operator(symbol)] + Print(operand)
    decreases tree
  {
    match tree
    case Binary(root, left, right) =>
      if !TopGoesFirst(table, root, symbol) {
        AttachIsConventional(table, right, symbol, operand);
        assert RightOperandFits(table, root, Attach(table, right, symbol, operand)) by {
          assert IsOperator(table, root);
        }
        PrintAttached(Print(left), [Operator(root)], Print(right), [Operator(symbol)], Print(operand));
      }
    case _ =>
  }

  lemma PrintAttached<T>(a: seq<T>, b: seq<T>, c: seq<T>, d: seq<T>, e: seq<T>)
    ensures a + b + (c + d + e) == a + b + c + d + e
  {
  }

  lemma {:induction false} JoinIsConventional<N>(table: Table<N>, left: Expr<N>, symbol: char, right: Expr<N>)
    requires UniformAssociativity(table) && IsOperator(table, symbol)
    requires Conventional(table, left) && Conventional(table, right)
    ensures Conventional(table, Join(table, left, symbol, right))
    ensures Print(Join(table, left, symbol, right)) == Print(left) + [Operator(symbol)] + Print(right)
    decreases right
  {
    match right
    case Binary(root, rl, rr) =>
      var inner := Join(table, left, symbol, rl);
      assert Join(table, left, symbol, right) == Join(table, inner, root, rr);
      assert Print(right) == Print(rl) + [Operator(root)] + Print(rr);
      assert Conventional(table, rl) && Conventional(table, rr) && IsOperator(table, root);
      hide Conventional, Join, Print, UniformAssociativity, IsOperator;
      JoinIsConventional(table, left, symbol, rl);
      JoinIsConventional(table, inner, root, rr);
      PrintAttached(Print(left), [Operator(symbol)], Print(rl), [Operator(root)], Print(rr));
    case _ =>
      AttachIsConventional(table, left, symbol, right);
  }

  lemma {:induction false} RegroupIsConventional<N>(table: Table<N>, e: Expr<N>)
    requires UniformAssociativity(table) && KnownOperators(table, e)
    ensures Conventional(table, Regroup(table, e)) && Print(Regroup(table, e)) == Print(e)
  {
    match e
    case Paren(inner) => RegroupIsConventional(table, inner);
    case Binary(symbol, left, right) =>
      RegroupIsConventional(table, left);
      RegroupIsConventional(table, right);
      JoinIsConventional(table, Regroup(table, left), symbol, Regroup(table, right));
    case _ =>
  }

  /** Whatever tree an infix token sequence was printed from, it is calculated as its conventional tree. */
  lemma CalculateInfix<N>(env: Env<N>, e: Expr<N>)
    requires UniformAssociativity(env.table) && KnownOperators(env.table, e)
    ensures Conventional(env.table, Regroup(env.table, e)) && Print(Regroup(env.table, e)) == Print(e)
    ensures Calculate(env, Print(e)) == Evaluate(env, Regroup(env.table, e))
  {
    RegroupIsConventional(env.table, e);
    CalculatePrinted(env, Regroup(env.table, e));
  }
}
