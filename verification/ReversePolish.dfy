/** Arithmetic in the configuration file: infix tokens are put into reverse Polish order with a stack
    of operators, and the result is evaluated with a stack of values. */
module ReversePolish {
  import opened Truncation

  /** A token carries the value its text denotes; Other stands for the kinds that no branch of the
      conversion mentions. */
  datatype Token =
    | Number(value: int) | Float
    | Identifier | Undefined
    | Plus | Minus | UnaryPlus | UnaryMinus | Multiply | Divide
    | OpenParen | CloseParen
    | Other

  datatype Error = Identifiers | Invalid | StackEmpty | NotAnInteger | DivisionByZero | BadExpression

  datatype Result<+T> = Ok(value: T) | Err(error: Error)

  predicate IsOperator(token: Token) {
    token.Plus? || token.Minus? || token.Multiply? || token.Divide? || token.UnaryMinus? || token.UnaryPlus?
  }

  predicate IsUnary(token: Token) {
    token.UnaryMinus? || token.UnaryPlus?
  }

  predicate IsNumber(token: Token) {
    token.Number? || token.Float?
  }

  function Precedence(op: Token): nat {
    if op.Plus? || op.Minus? then 0 else if op.Multiply? || op.Divide? then 5 else 7
  }

  // ---------------------------------------------------------------------------------------------
  // The conversion
  // ---------------------------------------------------------------------------------------------

  /** Operator stack with its top at the end, output, and the tokens treated so far. */
  datatype State = State(stack: seq<Token>, out: seq<Token>, treated: seq<Token>)

  const START := State([], [], [])

  /** A sign is unary at the start, after an opening parenthesis and after an operator. */
  predicate SignIsUnary(treated: seq<Token>) {
    treated == [] || treated[|treated| - 1].OpenParen? || IsOperator(treated[|treated| - 1])
  }

  function Marked(token: Token, treated: seq<Token>): Token {
    if token.Minus? && SignIsUnary(treated) then UnaryMinus
    else if token.Plus? && SignIsUnary(treated) then UnaryPlus
    else token
  }

  /** Operators that bind no weaker than op move from the stack to the output. */
  function Popped(op: Token, stack: seq<Token>, out: seq<Token>): (seq<Token>, seq<Token>)
    decreases |stack|
  {
    if stack == [] then (stack, out)
    else
      var top := stack[|stack| - 1];
      if !top.OpenParen? && Precedence(op) <= Precedence(top) then Popped(op, stack[..|stack| - 1], out + [top])
      else (stack, out)
  }

  /** The operators of a stack from its top down. */
  function Pending(stack: seq<Token>): seq<Token> {
    if stack == [] then []
    else
      var top := stack[|stack| - 1];
      (if top.OpenParen? then [] else [top]) + Pending(stack[..|stack| - 1])
  }

  function Reversed(stack: seq<Token>): seq<Token> {
    if stack == [] then [] else [stack[|stack| - 1]] + Reversed(stack[..|stack| - 1])
  }

  /** A closing parenthesis empties the whole stack, not only down to the matching parenthesis. */
  function Step(st: State, read: Token): Result<State> {
    var token := Marked(read, st.treated);
    var treated := st.treated + [token];
    if token.Identifier? then Err(Identifiers)
    else if token.Undefined? then Err(Invalid)
    else if IsNumber(token) then Ok(State(st.stack, st.out + [token], treated))
    else if IsOperator(token) then
      var (stack, out) := Popped(token, st.stack, st.out);
      Ok(State(stack + [token], out, treated))
    else if token.OpenParen? then Ok(State(st.stack + [token], st.out, treated))
    else if token.CloseParen? then Ok(State([], st.out + Pending(st.stack), treated))
    else Ok(State(st.stack, st.out, treated))
  }

  function Run(tokens: seq<Token>, st: State): Result<State>
    decreases |tokens|
  {
    if tokens == [] then Ok(st)
    else
      match Step(st, tokens[0])
      case Err(e) => Err(e)
      case Ok(next) => Run(tokens[1..], next)
  }

  function Converted(tokens: seq<Token>): Result<seq<Token>> {
    match Run(tokens, START)
    case Err(e) => Err(e)
    case Ok(st) => Ok(st.out + Reversed(st.stack))
  }

  method ToReversePolish(tokens: seq<Token>) returns (r: Result<seq<Token>>)
    ensures r == Converted(tokens)
  {
    var outputQueue: seq<Token>, operatorStack: seq<Token>, treatedInputQueue: seq<Token> := [], [], [];
    var input := tokens;
    while input != []
      invariant Run(input, State(operatorStack, outputQueue, treatedInputQueue)) == Run(tokens, START)
      decreases |input|
    {
      ghost var before := State(operatorStack, outputQueue, treatedInputQueue);
      ghost var read := input[0];
      var token := input[0];
      input := input[1..];
      if token.Identifier? {
        return Err(Identifiers);
      }
      if IsNumber(token) {
        outputQueue := outputQueue + [token];
      }
      if IsOperator(token) {
        token := TransformUnary(token, treatedInputQueue);
        while operatorStack != [] && !operatorStack[|operatorStack| - 1].OpenParen?
          invariant Popped(token, operatorStack, outputQueue) == Popped(token, before.stack, before.out)
          decreases |operatorStack|
        {
          var top := operatorStack[|operatorStack| - 1];
          if Precedence(token) <= Precedence(top) {
            operatorStack := operatorStack[..|operatorStack| - 1];
            outputQueue := outputQueue + [top];
          } else {
            assert Popped(token, operatorStack, outputQueue) == (operatorStack, outputQueue);
            break;
          }
        }
        assert Popped(token, before.stack, before.out) == (operatorStack, outputQueue);
        operatorStack := operatorStack + [token];
      } else if token.OpenParen? {
        operatorStack := operatorStack + [token];
      } else if token.CloseParen? {
        while operatorStack != []
          invariant outputQueue + Pending(operatorStack) == before.out + Pending(before.stack)
          decreases |operatorStack|
        {
          var top := operatorStack[|operatorStack| - 1];
          operatorStack := operatorStack[..|operatorStack| - 1];
          if !top.OpenParen? {
            outputQueue := outputQueue + [top];
          }
        }
        assert outputQueue + Pending([]) == outputQueue;
      } else if token.Undefined? {
        return Err(Invalid);
      }
      treatedInputQueue := treatedInputQueue + [token];
      assert token == Marked(read, before.treated);
      assert Step(before, read) == Ok(State(operatorStack, outputQueue, treatedInputQueue));
    }
    ghost var out, stack := outputQueue, operatorStack;
    while operatorStack != []
      invariant outputQueue + Reversed(operatorStack) == out + Reversed(stack)
      decreases |operatorStack|
    {
      outputQueue := outputQueue + [operatorStack[|operatorStack| - 1]];
      operatorStack := operatorStack[..|operatorStack| - 1];
    }
    assert outputQueue + Reversed([]) == outputQueue;
    return Ok(outputQueue);
  }

  method TransformUnary(token: Token, treated: seq<Token>) returns (r: Token)
    ensures r == Marked(token, treated)
  {
    r := token;
    if token.Minus? || token.Plus? {
      if treated == [] {
        r := if token.Minus? then UnaryMinus else UnaryPlus;
      } else {
        var last := treated[|treated| - 1];
        if last.OpenParen? || IsOperator(last) {
          r := if token.Minus? then UnaryMinus else UnaryPlus;
        }
      }
    }
  }

  // ---------------------------------------------------------------------------------------------
  // The evaluation
  // ---------------------------------------------------------------------------------------------

  function Get(token: Token): Result<int> {
    if token.Number? then Ok(token.value) else Err(NotAnInteger)
  }

  function Binary(op: Token, a: int, b: int): Result<int> {
    if op.Plus? then Ok(a + b)
    else if op.Minus? then Ok(a - b)
    else if op.Multiply? then Ok(a * b)
    else if b == 0 then Err(DivisionByZero)
    else Ok(Quotient(a, b))
  }

  function Unary(op: Token, a: int): int {
    if op.UnaryMinus? then -a else a
  }

  /** A computed value is pushed as the integer token with its decimal text. */
  function EvalStep(stack: seq<Token>, token: Token): Result<seq<Token>> {
    if !IsOperator(token) then Ok(stack + [token])
    else if stack == [] then Err(StackEmpty)
    else
      match Get(stack[|stack| - 1])
      case Err(e) => Err(e)
      case Ok(b) =>
        var rest := stack[..|stack| - 1];
        if IsUnary(token) then Ok(rest + [Number(Unary(token, b))])
        else if rest == [] then Err(StackEmpty)
        else
          match Get(rest[|rest| - 1])
          case Err(e) => Err(e)
          case Ok(a) =>
            match Binary(token, a, b)
            case Err(e) => Err(e)
            case Ok(v) => Ok(rest[..|rest| - 1] + [Number(v)])
  }

  function Evaluated(tokens: seq<Token>, stack: seq<Token>): Result<int>
    decreases |tokens|
  {
    if tokens == [] then
      if |stack| != 1 then Err(BadExpression) else Get(stack[0])
    else
      match EvalStep(stack, tokens[0])
      case Err(e) => Err(e)
      case Ok(next) => Evaluated(tokens[1..], next)
  }

  method ReversePolishEval(tokens: seq<Token>) returns (r: Result<int>)
    ensures r == Evaluated(tokens, [])
  {
    var stack: seq<Token> := [];
    for n := 0 to |tokens|
      invariant Evaluated(tokens[n..], stack) == Evaluated(tokens, [])
    {
      var token := tokens[n];
      ghost var before := stack;
      assert tokens[n..][0] == token && tokens[n..][1..] == tokens[n + 1..];
      if !IsOperator(token) {
        stack := stack + [token];
      } else {
        var values: seq<int> := [];
        var needed := if IsUnary(token) then 1 else 2;
        for i := 0 to needed
          invariant |values| == i && i <= |before| && stack == before[..|before| - i]
          invariant forall k :: 0 <= k < i ==> Get(before[|before| - 1 - k]) == Ok(values[k])
        {
          if stack == [] {
            assert i == 1 ==> before[..|before| - 1] == [] && Get(before[|before| - 1]) == Ok(values[0]);
            assert i == 0 ==> before == [];
            assert EvalStep(before, token) == Err(StackEmpty);
            return Err(StackEmpty);
          }
          var value := Get(stack[|stack| - 1]);
          assert i == 1 ==> before[..|before| - 1][|before| - 2] == stack[|stack| - 1];
          if value.Err? {
            return Err(value.error);
          }
          values := values + [value.value];
          stack := stack[..|stack| - 1];
        }
        var result := if IsUnary(token) then Ok(Unary(token, values[0])) else Binary(token, values[1], values[0]);
        if result.Err? {
          return Err(result.error);
        }
        assert needed == 2 ==> before[..|before| - 1][|before| - 2] == before[|before| - 2];
        assert needed == 2 ==> before[..|before| - 1][..|before| - 2] == before[..|before| - 2];
        stack := stack + [Number(result.value)];
        assert EvalStep(before, token) == Ok(stack);
      }
    }
    if |stack| != 1 {
      return Err(BadExpression);
    }
    return Get(stack[0]);
  }

  function Arithmetic(tokens: seq<Token>): Result<int> {
    match Converted(tokens)
    case Err(e) => Err(e)
    case Ok(rpn) => Evaluated(rpn, [])
  }

  method ParseArithmetic(tokens: seq<Token>) returns (r: Result<int>)
    ensures r == Arithmetic(tokens)
  {
    var rpn := ToReversePolish(tokens);
    if rpn.Err? {
      return Err(rpn.error);
    }
    r := ReversePolishEval(rpn.value);
  }

  // ---------------------------------------------------------------------------------------------
  // Errors
  // ---------------------------------------------------------------------------------------------

  /** Tokens the conversion refuses. */
  predicate Refused(token: Token) {
    token.Identifier? || token.Undefined?
  }

  /** The conversion fails exactly when there is a refused token, with the error of the first one. */
  lemma RefusesExactly(tokens: seq<Token>)
    ensures Converted(tokens).Err? <==> exists k :: 0 <= k < |tokens| && Refused(tokens[k])
    ensures forall k :: 0 <= k < |tokens| && Refused(tokens[k]) && (forall i :: 0 <= i < k ==> !Refused(tokens[i])) ==>
                          Converted(tokens) == Err(if tokens[k].Identifier? then Identifiers else Invalid)
  {
    RunRefuses(tokens, START);
    hide Run;
  }

  lemma {:induction false} RunRefuses(tokens: seq<Token>, st: State)
    ensures Run(tokens, st).Err? <==> exists k :: 0 <= k < |tokens| && Refused(tokens[k])
    ensures forall k :: 0 <= k < |tokens| && Refused(tokens[k]) && (forall i :: 0 <= i < k ==> !Refused(tokens[i])) ==>
                          Run(tokens, st) == Err(if tokens[k].Identifier? then Identifiers else Invalid)
    decreases |tokens|
  {
    if tokens != [] {
      RefusedFirst(st, tokens[0]);
      hide Step, Refused;
      if !Refused(tokens[0]) {
        var rest := tokens[1..];
        RunRefuses(rest, Step(st, tokens[0]).value);
        assert forall k :: 0 <= k < |rest| ==> rest[k] == tokens[k + 1];
        if Run(tokens, st).Err? {
          var k :| 0 <= k < |rest| && Refused(rest[k]);
          assert Refused(tokens[k + 1]);
        }
        forall k | 0 <= k < |tokens| && Refused(tokens[k]) && (forall i :: 0 <= i < k ==> !Refused(tokens[i]))
          ensures Run(tokens, st) == Err(if tokens[k].Identifier? then Identifiers else Invalid)
        {
          assert Refused(rest[k - 1]);
          assert forall i :: 0 <= i < k - 1 ==> rest[i] == tokens[i + 1];
        }
        if k :| 0 <= k < |tokens| && Refused(tokens[k]) {
          assert Refused(rest[k - 1]);
        }
      }
    }
  }

  lemma RefusedFirst(st: State, token: Token)
    ensures Step(st, token).Err? <==> Refused(token)
    ensures Refused(token) ==> Step(st, token) == Err(if token.Identifier? then Identifiers else Invalid)
  {
    hide Popped, Pending;
  }

  /** How many values there are after tokens when there were d before. */
  function Depth(tokens: seq<Token>, d: int): int
    decreases |tokens|
  {
    if tokens == [] then d
    else Depth(tokens[1..], if !IsOperator(tokens[0]) then d + 1 else if IsUnary(tokens[0]) then d else d - 1)
  }

  /** Every operator finds as many values as it takes. */
  predicate Fed(tokens: seq<Token>, d: int)
    decreases |tokens|
  {
    tokens == [] || (if !IsOperator(tokens[0]) then Fed(tokens[1..], d + 1)
                     else if IsUnary(tokens[0]) then d >= 1 && Fed(tokens[1..], d)
                     else d >= 2 && Fed(tokens[1..], d - 1))
  }

  predicate AllNumbers(tokens: seq<Token>) {
    forall k :: 0 <= k < |tokens| ==> tokens[k].Number?
  }

  /** Numbers and operators only: apart from a zero divisor, the evaluation fails on an empty stack exactly
      when some operator lacks a value, and on what is left over exactly when one value is not left. */
  lemma {:induction false} FailsExactly(tokens: seq<Token>, stack: seq<Token>)
    requires AllNumbers(stack) && forall k :: 0 <= k < |tokens| ==> tokens[k].Number? || IsOperator(tokens[k])
    ensures var r := Evaluated(tokens, stack);
            r != Err(DivisionByZero) ==>
              && (r == Err(StackEmpty) <==> !Fed(tokens, |stack|))
              && (r == Err(BadExpression) <==> Fed(tokens, |stack|) && Depth(tokens, |stack|) != 1)
              && (r.Ok? <==> Fed(tokens, |stack|) && Depth(tokens, |stack|) == 1)
    decreases |tokens|
  {
    if tokens != [] {
      StepsFed(stack, tokens[0]);
      var next := EvalStep(stack, tokens[0]);
      hide EvalStep;
      if next.Ok? {
        FailsExactly(tokens[1..], next.value);
      }
    }
  }

  lemma StepsFed(stack: seq<Token>, token: Token)
    requires AllNumbers(stack) && (token.Number? || IsOperator(token))
    ensures var r, needed := EvalStep(stack, token), if !IsOperator(token) then 0 else if IsUnary(token) then 1 else 2;
            && (r == Err(StackEmpty) <==> |stack| < needed)
            && (r.Err? ==> r == Err(StackEmpty) || r == Err(DivisionByZero))
            && (r.Ok? ==> AllNumbers(r.value) && |r.value| == |stack| + 1 - needed)
  {
    if |stack| >= 2 {
      assert stack[..|stack| - 1][|stack| - 2] == stack[|stack| - 2];
    }
  }

  // ---------------------------------------------------------------------------------------------
  // Nothing is lost: all inputs
  // ---------------------------------------------------------------------------------------------

  function Numbers(tokens: seq<Token>): seq<Token> {
    if tokens == [] then []
    else Numbers(tokens[..|tokens| - 1])
         + (if IsNumber(tokens[|tokens| - 1]) then [tokens[|tokens| - 1]] else [])
  }

  function Sign(op: Token): Token {
    if op.UnaryMinus? then Minus else if op.UnaryPlus? then Plus else op
  }

  /** The operators of a sequence, a sign counting the same whether unary or binary. */
  function Operators(tokens: seq<Token>): multiset<Token> {
    if tokens == [] then multiset{}
    else Operators(tokens[..|tokens| - 1])
         + (if IsOperator(tokens[|tokens| - 1]) then multiset{Sign(tokens[|tokens| - 1])} else multiset{})
  }

  lemma {:induction false} NumbersConcat(a: seq<Token>, b: seq<Token>)
    ensures Numbers(a + b) == Numbers(a) + Numbers(b)
    decreases |b|
  {
    if b == [] {
      assert a + b == a;
    } else {
      assert (a + b)[..|a + b| - 1] == a + b[..|b| - 1];
      NumbersConcat(a, b[..|b| - 1]);
    }
  }

  lemma {:induction false} OperatorsConcat(a: seq<Token>, b: seq<Token>)
    ensures Operators(a + b) == Operators(a) + Operators(b)
    decreases |b|
  {
    if b == [] {
      assert a + b == a;
    } else {
      assert (a + b)[..|a + b| - 1] == a + b[..|b| - 1];
      OperatorsConcat(a, b[..|b| - 1]);
    }
  }

  /** The numbers read are those written, in order; the operators read are those written or stacked. */
  ghost predicate Conserves(read: seq<Token>, st: State) {
    && (forall k :: 0 <= k < |st.stack| ==> IsOperator(st.stack[k]) || st.stack[k].OpenParen?)
    && Numbers(st.out) == Numbers(read)
    && Operators(st.out) + Operators(st.stack) == Operators(read)
  }

  lemma Appended(tokens: seq<Token>, token: Token)
    ensures Numbers(tokens + [token]) == Numbers(tokens) + (if IsNumber(token) then [token] else [])
    ensures Operators(tokens + [token])
         == Operators(tokens) + (if IsOperator(token) then multiset{Sign(token)} else multiset{})
  {
    assert (tokens + [token])[..|tokens|] == tokens;
  }

  lemma {:induction false} PoppedConserves(op: Token, stack: seq<Token>, out: seq<Token>)
    requires forall k :: 0 <= k < |stack| ==> IsOperator(stack[k]) || stack[k].OpenParen?
    ensures var (stack', out') := Popped(op, stack, out);
            && stack' <= stack
            && Numbers(out') == Numbers(out)
            && Operators(out') + Operators(stack') == Operators(out) + Operators(stack)
    decreases |stack|
  {
    hide Numbers, Operators;
    if stack != [] {
      var rest, top := stack[..|stack| - 1], stack[|stack| - 1];
      Appended(out, top);
      Appended(rest, top);
      assert stack == rest + [top];
      PoppedConserves(op, rest, out + [top]);
    }
  }

  lemma {:induction false} PendingConserves(stack: seq<Token>)
    requires forall k :: 0 <= k < |stack| ==> IsOperator(stack[k]) || stack[k].OpenParen?
    ensures Numbers(Pending(stack)) == [] && Operators(Pending(stack)) == Operators(stack)
    ensures Numbers(Reversed(stack)) == [] && Operators(Reversed(stack)) == Operators(stack)
    decreases |stack|
  {
    if stack != [] {
      var top, rest := stack[|stack| - 1], stack[..|stack| - 1];
      PendingConserves(rest);
      Appended([], top);
      assert [] + [top] == [top];
      assert Pending(rest) == [] + Pending(rest);
      NumbersConcat([top], Pending(rest));
      OperatorsConcat([top], Pending(rest));
      NumbersConcat([top], Reversed(rest));
      OperatorsConcat([top], Reversed(rest));
    }
  }

  lemma OperatorConserves(read: seq<Token>, st: State, token: Token, op: Token)
    requires Conserves(read, st) && IsOperator(op) && IsOperator(token) && Sign(op) == Sign(token)
    ensures var (stack, out) := Popped(op, st.stack, st.out);
            Conserves(read + [token], State(stack + [op], out, st.treated + [op]))
  {
    hide Popped, Numbers, Operators;
    var (stack, out) := Popped(op, st.stack, st.out);
    PoppedConserves(op, st.stack, st.out);
    Appended(read, token);
    Appended(stack, op);
  }

  lemma NumberConserves(read: seq<Token>, st: State, token: Token, treated: seq<Token>)
    requires Conserves(read, st) && IsNumber(token)
    ensures Conserves(read + [token], State(st.stack, st.out + [token], treated))
  {
    hide Numbers, Operators;
    Appended(read, token);
    Appended(st.out, token);
  }

  lemma ParenConserves(read: seq<Token>, st: State, token: Token, treated: seq<Token>)
    requires Conserves(read, st) && token.OpenParen?
    ensures Conserves(read + [token], State(st.stack + [token], st.out, treated))
  {
    hide Numbers, Operators;
    Appended(read, token);
    Appended(st.stack, token);
  }

  lemma OtherConserves(read: seq<Token>, st: State, token: Token, treated: seq<Token>)
    requires Conserves(read, st) && !IsOperator(token) && !IsNumber(token)
    ensures Conserves(read + [token], State(st.stack, st.out, treated))
    ensures Conserves(read + [token], State([], st.out + Pending(st.stack), treated))
  {
    assert Operators([]) == multiset{};
    hide Pending, Numbers, Operators;
    Appended(read, token);
    PendingConserves(st.stack);
    NumbersConcat(st.out, Pending(st.stack));
    OperatorsConcat(st.out, Pending(st.stack));
  }

  lemma StepConserves(read: seq<Token>, st: State, token: Token)
    requires Conserves(read, st) && Step(st, token).Ok?
    ensures Conserves(read + [token], Step(st, token).value)
  {
    hide Conserves, Popped, Pending;
    var op := Marked(token, st.treated);
    if IsOperator(token) {
      OperatorConserves(read, st, token, op);
    } else if IsNumber(token) {
      NumberConserves(read, st, token, st.treated + [token]);
    } else if token.OpenParen? {
      ParenConserves(read, st, token, st.treated + [token]);
    } else {
      OtherConserves(read, st, token, st.treated + [token]);
    }
  }

  lemma RunFirst(tokens: seq<Token>, st: State)
    requires tokens != [] && Run(tokens, st).Ok?
    ensures Step(st, tokens[0]).Ok? && Run(tokens, st) == Run(tokens[1..], Step(st, tokens[0]).value)
  {
    hide Step;
  }

  lemma {:induction false} RunConserves(read: seq<Token>, tokens: seq<Token>, st: State)
    requires Conserves(read, st) && Run(tokens, st).Ok?
    ensures Conserves(read + tokens, Run(tokens, st).value)
    decreases |tokens|
  {
    hide Step, Conserves;
    if tokens == [] {
      assert read + tokens == read;
    } else {
      RunFirst(tokens, st);
      StepConserves(read, st, tokens[0]);
      RunConserves(read + [tokens[0]], tokens[1..], Step(st, tokens[0]).value);
      assert read + [tokens[0]] + tokens[1..] == read + tokens;
    }
  }

  /** For every token sequence that converts, parentheses balanced or not. */
  lemma NothingLost(tokens: seq<Token>)
    requires Converted(tokens).Ok?
    ensures Numbers(Converted(tokens).value) == Numbers(tokens)
    ensures Operators(Converted(tokens).value) == Operators(tokens)
  {
    RunConserves([], tokens, START);
    assert [] + tokens == tokens;
    var st := Run(tokens, START).value;
    PendingConserves(st.stack);
    NumbersConcat(st.out, Reversed(st.stack));
    OperatorsConcat(st.out, Reversed(st.stack));
  }
}
