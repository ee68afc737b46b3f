/** When the conversion of the configuration parser gives the usual reading of an infix expression.
    Expressions are trees of the usual two-level grammar, left associative, with signs and
    parentheses; they are written as tokens, in postfix order, and evaluated directly. */
module InfixGrammar {
  import opened Truncation
  import opened ReversePolish

  datatype Factor = Leaf(value: int) | Group(body: Expr) | Signed(minus: bool, f: Factor)

  datatype Term = One(f: Factor) | Product(t: Term, divides: bool, f: Factor)

  datatype Expr = Sole(t: Term) | Sum(e: Expr, subtracts: bool, t: Term)

  // ---------------------------------------------------------------------------------------------
  // Text, postfix order, value
  // ---------------------------------------------------------------------------------------------

  function Scale(divides: bool): Token { if divides then Divide else Multiply }

  function Shift(subtracts: bool): Token { if subtracts then Minus else Plus }

  function Mark(minus: bool): Token { if minus then UnaryMinus else UnaryPlus }

  function FactorText(f: Factor): seq<Token> {
    match f
    case Leaf(v) => [Number(v)]
    case Group(e) => [OpenParen] + ExprText(e) + [CloseParen]
    case Signed(minus, g) => [Shift(minus)] + FactorText(g)
  }

  function TermText(t: Term): seq<Token> {
    match t
    case One(f) => FactorText(f)
    case Product(u, divides, f) => TermText(u) + [Scale(divides)] + FactorText(f)
  }

  function ExprText(e: Expr): seq<Token> {
    match e
    case Sole(t) => TermText(t)
    case Sum(d, subtracts, t) => ExprText(d) + [Shift(subtracts)] + TermText(t)
  }

  function FactorPostfix(f: Factor): seq<Token> {
    match f
    case Leaf(v) => [Number(v)]
    case Group(e) => ExprPostfix(e)
    case Signed(minus, g) => FactorPostfix(g) + [Mark(minus)]
  }

  function TermPostfix(t: Term): seq<Token> {
    match t
    case One(f) => FactorPostfix(f)
    case Product(u, divides, f) => TermPostfix(u) + FactorPostfix(f) + [Scale(divides)]
  }

  function ExprPostfix(e: Expr): seq<Token> {
    match e
    case Sole(t) => TermPostfix(t)
    case Sum(d, subtracts, t) => ExprPostfix(d) + TermPostfix(t) + [Shift(subtracts)]
  }

  /** The whole number nearest to a / b on the side of zero, from the division that rounds down. */
  function Towards0(a: int, b: int): (q: int)
    requires b != 0
    ensures Truncated(a, b, q)
  {
    var d := if b < 0 then -b else b;
    var down := a / d;
    var near := if a < 0 && a % d != 0 then down + 1 else down;
    NearTruncates(a, d);
    if b < 0 then
      assert near * d == (-near) * b;
      -near
    else near
  }

  lemma NearTruncates(a: int, d: int)
    requires d > 0
    ensures Truncated(a, d, if a < 0 && a % d != 0 then a / d + 1 else a / d)
  {
    assert a == a / d * d + a % d;
    assert (a / d + 1) * d == a / d * d + d;
    if a >= 0 {
      assert a / d * d <= a;
    }
  }

  function Apply(op: Token, a: Result<int>, b: Result<int>): Result<int> {
    if a.Err? then a
    else if b.Err? then b
    else
      match op
      case Plus => Ok(a.value + b.value)
      case Minus => Ok(a.value - b.value)
      case Multiply => Ok(a.value * b.value)
      case Divide => if b.value == 0 then Err(DivisionByZero) else Ok(Towards0(a.value, b.value))
      case _ => Err(BadExpression)
  }

  /** The evaluator computes what the operators mean. */
  lemma BinaryMeans(op: Token, a: int, b: int)
    requires IsOperator(op) && !IsUnary(op)
    ensures Binary(op, a, b) == Apply(op, Ok(a), Ok(b))
  {
    if op.Divide? && b != 0 {
      QuotientExactly(a, b, Towards0(a, b));
    }
  }

  function Negated(minus: bool, a: Result<int>): Result<int> {
    if a.Ok? then Ok(if minus then -a.value else a.value) else a
  }

  function FactorValue(f: Factor): Result<int> {
    match f
    case Leaf(v) => Ok(v)
    case Group(e) => ExprValue(e)
    case Signed(minus, g) => Negated(minus, FactorValue(g))
  }

  function TermValue(t: Term): Result<int> {
    match t
    case One(f) => FactorValue(f)
    case Product(u, divides, f) => Apply(Scale(divides), TermValue(u), FactorValue(f))
  }

  function ExprValue(e: Expr): Result<int> {
    match e
    case Sole(t) => TermValue(t)
    case Sum(d, subtracts, t) => Apply(Shift(subtracts), ExprValue(d), TermValue(t))
  }

  // ---------------------------------------------------------------------------------------------
  // Evaluating the postfix order gives the value
  // ---------------------------------------------------------------------------------------------

  /** What evaluating the postfix order of a part does in front of anything else. */
  ghost predicate Computes(postfix: seq<Token>, value: Result<int>, rest: seq<Token>, stack: seq<Token>) {
    Evaluated(postfix + rest, stack)
    == if value.Ok? then Evaluated(rest, stack + [Number(value.value)]) else Err(value.error)
  }

  lemma EvaluatedFirst(token: Token, rest: seq<Token>, stack: seq<Token>)
    ensures Evaluated([token] + rest, stack)
         == var next := EvalStep(stack, token);
            if next.Ok? then Evaluated(rest, next.value) else Err(next.error)
  {
    hide EvalStep;
    assert ([token] + rest)[1..] == rest;
  }

  lemma LeafComputes(v: int, rest: seq<Token>, stack: seq<Token>)
    ensures Computes([Number(v)], Ok(v), rest, stack)
  {
    EvaluatedFirst(Number(v), rest, stack);
  }

  lemma UnaryComputes(postfix: seq<Token>, value: Result<int>, minus: bool, rest: seq<Token>, stack: seq<Token>)
    requires Computes(postfix, value, [Mark(minus)] + rest, stack)
    ensures Computes(postfix + [Mark(minus)], Negated(minus, value), rest, stack)
  {
    hide Evaluated;
    assert postfix + ([Mark(minus)] + rest) == postfix + [Mark(minus)] + rest;
    if value.Ok? {
      var on := stack + [Number(value.value)];
      EvaluatedFirst(Mark(minus), rest, on);
      assert on[..|on| - 1] == stack;
    }
  }

  lemma BinaryComputes(p: seq<Token>, a: Result<int>, q: seq<Token>, b: Result<int>, op: Token,
                       rest: seq<Token>, stack: seq<Token>)
    requires IsOperator(op) && !IsUnary(op)
    requires Computes(p, a, q + ([op] + rest), stack)
    requires a.Ok? ==> Computes(q, b, [op] + rest, stack + [Number(a.value)])
    ensures Computes(p + q + [op], Apply(op, a, b), rest, stack)
  {
    hide Evaluated;
    assert p + (q + ([op] + rest)) == p + q + [op] + rest;
    if a.Ok? && b.Ok? {
      BinaryMeans(op, a.value, b.value);
      var on := stack + [Number(a.value)] + [Number(b.value)];
      EvaluatedFirst(op, rest, on);
      assert on[..|on| - 1] == stack + [Number(a.value)];
      assert (stack + [Number(a.value)])[..|stack|] == stack;
    }
  }

  lemma {:induction false} FactorComputes(f: Factor, rest: seq<Token>, stack: seq<Token>)
    ensures Computes(FactorPostfix(f), FactorValue(f), rest, stack)
  {
    hide Computes;
    match f
    case Leaf(v) => LeafComputes(v, rest, stack);
    case Group(e) => ExprComputes(e, rest, stack);
    case Signed(minus, g) =>
      FactorComputes(g, [Mark(minus)] + rest, stack);
      UnaryComputes(FactorPostfix(g), FactorValue(g), minus, rest, stack);
  }

  lemma {:induction false} TermComputes(t: Term, rest: seq<Token>, stack: seq<Token>)
    ensures Computes(TermPostfix(t), TermValue(t), rest, stack)
  {
    hide Computes;
    match t
    case One(f) => FactorComputes(f, rest, stack);
    case Product(u, divides, f) =>
      var op, a := Scale(divides), TermValue(u);
      TermComputes(u, FactorPostfix(f) + ([op] + rest), stack);
      if a.Ok? {
        FactorComputes(f, [op] + rest, stack + [Number(a.value)]);
      }
      BinaryComputes(TermPostfix(u), a, FactorPostfix(f), FactorValue(f), op, rest, stack);
  }

  lemma {:induction false} ExprComputes(e: Expr, rest: seq<Token>, stack: seq<Token>)
    ensures Computes(ExprPostfix(e), ExprValue(e), rest, stack)
  {
    hide Computes;
    match e
    case Sole(t) => TermComputes(t, rest, stack);
    case Sum(d, subtracts, t) =>
      var op, a := Shift(subtracts), ExprValue(d);
      ExprComputes(d, TermPostfix(t) + ([op] + rest), stack);
      if a.Ok? {
        TermComputes(t, [op] + rest, stack + [Number(a.value)]);
      }
      BinaryComputes(ExprPostfix(d), a, TermPostfix(t), TermValue(t), op, rest, stack);
  }

  /** The stack evaluator computes the value of every expression from its postfix order. */
  lemma PostfixEvaluates(e: Expr)
    ensures Evaluated(ExprPostfix(e), []) == ExprValue(e)
  {
    ExprComputes(e, [], []);
    assert ExprPostfix(e) + [] == ExprPostfix(e);
    if ExprValue(e).Ok? {
      assert [] + [Number(ExprValue(e).value)] == [Number(ExprValue(e).value)];
    }
  }

  // ---------------------------------------------------------------------------------------------
  // When the conversion gives the postfix order
  // ---------------------------------------------------------------------------------------------

  predicate FactorGroups(f: Factor) {
    match f
    case Leaf(_) => false
    case Group(_) => true
    case Signed(_, g) => FactorGroups(g)
  }

  predicate TermGroups(t: Term) {
    match t
    case One(f) => FactorGroups(f)
    case Product(u, _, f) => TermGroups(u) || FactorGroups(f)
  }

  predicate ExprGroups(e: Expr) {
    match e
    case Sole(t) => TermGroups(t)
    case Sum(d, _, t) => ExprGroups(d) || TermGroups(t)
  }

  /** No operand has two signs, and nothing follows a closing parenthesis inside a part in front of
      which an operator waits (pending: one waits in front of this part). */
  predicate FactorSafe(f: Factor, pending: bool) {
    match f
    case Leaf(_) => true
    case Group(e) => ExprSafe(e, pending)
    case Signed(_, g) => !g.Signed? && FactorSafe(g, true)
  }

  predicate TermSafe(t: Term, pending: bool) {
    match t
    case One(f) => FactorSafe(f, pending)
    case Product(u, _, f) => TermSafe(u, pending) && (TermGroups(u) ==> !pending) && FactorSafe(f, true)
  }

  predicate ExprSafe(e: Expr, pending: bool) {
    match e
    case Sole(t) => TermSafe(t, pending)
    case Sum(d, _, t) => ExprSafe(d, pending) && (ExprGroups(d) ==> !pending) && TermSafe(t, true)
  }

  /** The stack's top lets operators of this precedence and more be pushed. */
  predicate Ready(stack: seq<Token>, level: nat) {
    stack == [] || stack[|stack| - 1].OpenParen?
    || (IsOperator(stack[|stack| - 1]) && Precedence(stack[|stack| - 1]) < level)
  }

  ghost predicate AllBind(ops: seq<Token>, level: nat) {
    forall k :: 0 <= k < |ops| ==> IsOperator(ops[k]) && level <= Precedence(ops[k])
  }

  predicate EndsOperand(st: State) {
    st.treated != [] && (IsNumber(st.treated[|st.treated| - 1]) || st.treated[|st.treated| - 1].CloseParen?)
  }

  /** After a part was read from stack base and output out: its operators that still wait are ops.
      Without parentheses they wait on top of base; a closing parenthesis has emptied base as well. */
  ghost predicate Read(st: State, ops: seq<Token>, base: seq<Token>, out: seq<Token>, postfix: seq<Token>,
                       groups: bool, level: nat)
  {
    && AllBind(ops, level) && EndsOperand(st)
    && (!groups ==> st.stack == base + ops && st.out + Reversed(ops) == out + postfix)
    && (groups ==> st.stack == ops && st.out + Reversed(ops) == out + postfix + Pending(base))
    && (groups && Pending(base) != [] ==> ops == [])
  }

  /** Two outputs disagree at a place both have reached. */
  ghost predicate Differ(a: seq<Token>, b: seq<Token>) {
    exists i :: 0 <= i < |a| && i < |b| && a[i] != b[i]
  }

  // ---------------------------------------------------------------------------------------------
  // Reading one token
  // ---------------------------------------------------------------------------------------------

  predicate Written(token: Token) {
    token.Number? || token.OpenParen? || token.CloseParen? || (IsOperator(token) && !IsUnary(token))
  }

  predicate AllWritten(tokens: seq<Token>) {
    forall k :: 0 <= k < |tokens| ==> Written(tokens[k])
  }

  /** The state after the tokens of a text. */
  ghost function After(tokens: seq<Token>, st: State): State
    requires AllWritten(tokens)
  {
    RunsOn(tokens, st);
    Run(tokens, st).value
  }

  lemma StepGrows(token: Token, st: State)
    requires Written(token)
    ensures Step(st, token).Ok? && st.out <= Step(st, token).value.out
  {
    PoppedGrows(Marked(token, st.treated), st.stack, st.out);
  }

  lemma {:induction false} PoppedGrows(op: Token, stack: seq<Token>, out: seq<Token>)
    ensures out <= Popped(op, stack, out).1
    decreases |stack|
  {
    if stack != [] {
      PoppedGrows(op, stack[..|stack| - 1], out + [stack[|stack| - 1]]);
    }
  }

  lemma {:induction false} RunsOn(tokens: seq<Token>, st: State)
    requires AllWritten(tokens)
    ensures Run(tokens, st).Ok? && st.out <= Run(tokens, st).value.out
    decreases |tokens|
  {
    hide Step;
    if tokens != [] {
      StepGrows(tokens[0], st);
      RunsOn(tokens[1..], Step(st, tokens[0]).value);
    }
  }

  lemma {:induction false} AfterConcat(a: seq<Token>, b: seq<Token>, st: State)
    requires AllWritten(a) && AllWritten(b)
    ensures AllWritten(a + b) && After(a + b, st) == After(b, After(a, st))
    decreases |a|
  {
    hide Step, Written;
    RunsOn(a, st);
    if a == [] {
      assert a + b == b;
    } else {
      StepGrows(a[0], st);
      RunsOn(a + b, st);
      assert (a + b)[1..] == a[1..] + b;
      AfterConcat(a[1..], b, Step(st, a[0]).value);
    }
  }

  lemma AfterOne(token: Token, st: State)
    requires Written(token)
    ensures Step(st, token).Ok? && After([token], st) == Step(st, token).value
  {
    hide Step;
    StepGrows(token, st);
    var next := Step(st, token).value;
    assert [token][0] == token && [token][1..] == [];
    assert Run([token], st) == Run([], next);
  }

  /** A binary operator behind an operand moves the waiting operators of its operand to the output. */
  lemma {:induction false} PoppedAll(op: Token, base: seq<Token>, ops: seq<Token>, out: seq<Token>)
    requires Ready(base, Precedence(op)) && AllBind(ops, Precedence(op))
    ensures Popped(op, base + ops, out) == (base, out + Reversed(ops))
    decreases |ops|
  {
    hide Popped, Reversed;
    EmptyStack();
    if ops == [] {
      assert base + ops == base && out + [] == out;
      PoppedStops(op, base, out);
    } else {
      var rest, top := ops[..|ops| - 1], ops[|ops| - 1];
      assert base + ops == base + rest + [top];
      PoppedTop(op, base + rest, top, out);
      PoppedAll(op, base, rest, out + [top]);
      ReversedTop(rest, top);
      assert ops == rest + [top] && out + [top] + Reversed(rest) == out + ([top] + Reversed(rest));
    }
  }

  lemma PoppedStops(op: Token, base: seq<Token>, out: seq<Token>)
    requires Ready(base, Precedence(op))
    ensures Popped(op, base, out) == (base, out)
  {
  }

  lemma PoppedTop(op: Token, stack: seq<Token>, top: Token, out: seq<Token>)
    requires IsOperator(top) && Precedence(op) <= Precedence(top)
    ensures Popped(op, stack + [top], out) == Popped(op, stack, out + [top])
  {
    assert (stack + [top])[..|stack|] == stack;
  }

  lemma ReversedTop(stack: seq<Token>, top: Token)
    ensures Reversed(stack + [top]) == [top] + Reversed(stack)
  {
    assert (stack + [top])[..|stack|] == stack;
  }

  lemma {:induction false} ReversedFront(op: Token, ops: seq<Token>)
    ensures Reversed([op] + ops) == Reversed(ops) + [op]
    decreases |ops|
  {
    hide Reversed;
    EmptyStack();
    if ops == [] {
      assert [op] + ops == [] + [op];
      ReversedTop([], op);
    } else {
      var rest, top := ops[..|ops| - 1], ops[|ops| - 1];
      assert ops == rest + [top] && [op] + ops == [op] + rest + [top];
      ReversedTop([op] + rest, top);
      ReversedTop(rest, top);
      ReversedFront(op, rest);
    }
  }

  lemma PendingTop(stack: seq<Token>, op: Token)
    ensures Pending(stack + [op]) == (if op.OpenParen? then [] else [op]) + Pending(stack)
  {
    assert (stack + [op])[..|stack|] == stack;
  }

  lemma EmptyStack()
    ensures Pending([]) == [] && Reversed([]) == []
  {
  }

  // ---------------------------------------------------------------------------------------------
  // Safe parts
  // ---------------------------------------------------------------------------------------------

  lemma SignReads(minus: bool, st: State)
    requires SignIsUnary(st.treated) && Ready(st.stack, 7)
    ensures var next := After([Shift(minus)], st);
            && next.stack == st.stack + [Mark(minus)] && next.out == st.out
            && SignIsUnary(next.treated) && Pending(next.stack) == [Mark(minus)] + Pending(st.stack)
  {
    AfterOne(Shift(minus), st);
    PendingTop(st.stack, Mark(minus));
    PoppedAll(Mark(minus), st.stack, [], st.out);
    assert st.stack + [] == st.stack && st.out + Reversed([]) == st.out;
  }

  /** The state behind a binary operator: everything of the left operand is out. */
  lemma OperatorReads(op: Token, st: State, ops: seq<Token>, base: seq<Token>, out: seq<Token>,
                      postfix: seq<Token>, groups: bool)
    requires IsOperator(op) && !IsUnary(op) && Ready(base, Precedence(op))
    requires Read(st, ops, base, out, postfix, groups, Precedence(op)) && (groups ==> Pending(base) == [])
    ensures var next := After([op], st);
            && next.stack == (if groups then [] else base) + [op] && next.out == out + postfix
            && SignIsUnary(next.treated) && Pending(next.stack) == [op] + Pending(base)
  {
    hide Run, Popped, Pending, Reversed;
    EmptyStack();
    AfterOne(op, st);
    var under := if groups then [] else base;
    PoppedAll(op, under, ops, st.out);
    assert st.stack == under + ops && out + postfix + [] == out + postfix;
    assert Popped(op, st.stack, st.out) == (under, out + postfix);
    PendingTop(under, op);
  }

  lemma OperatorJoins(op: Token, st: State, ops: seq<Token>, base: seq<Token>, out: seq<Token>,
                      p: seq<Token>, left: bool, q: seq<Token>, right: bool, level: nat)
    returns (waiting: seq<Token>)
    requires IsOperator(op) && Precedence(op) < level && (left ==> Pending(base) == [])
    requires Read(st, ops, (if left then [] else base) + [op], out + p, q, right, level)
    ensures Read(st, waiting, base, out, p + q + [op], left || right, Precedence(op))
  {
    var under := if left then [] else base;
    hide Pending, Reversed;
    EmptyStack();
    PendingTop(under, op);
    if right {
      waiting := [];
      assert out + p + q + ([op] + Pending(under)) == out + (p + q + [op]) + Pending(base);
      assert ops == [] && st.out + [] == st.out;
    } else {
      waiting := [op] + ops;
      WaitingJoins(op, st.out, ops, out, p, q);
      assert under + [op] + ops == under + waiting;
      assert out + (p + q + [op]) + [] == out + (p + q + [op]);
      if left {
        assert under + waiting == waiting;
      }
    }
  }

  lemma WaitingJoins(op: Token, now: seq<Token>, ops: seq<Token>, out: seq<Token>, p: seq<Token>, q: seq<Token>)
    requires now + Reversed(ops) == out + p + q
    ensures now + Reversed([op] + ops) == out + (p + q + [op])
  {
    hide *;
    ReversedFront(op, ops);
    assert out + p + q + [op] == out + (p + q + [op]);
    assert now + Reversed(ops) + [op] == now + (Reversed(ops) + [op]);
  }

  lemma {:induction false} FactorWritten(f: Factor)
    ensures AllWritten(FactorText(f))
  {
    match f
    case Leaf(_) =>
    case Group(e) => ExprWritten(e);
    case Signed(_, g) => FactorWritten(g);
  }

  lemma {:induction false} TermWritten(t: Term)
    ensures AllWritten(TermText(t))
  {
    match t
    case One(f) => FactorWritten(f);
    case Product(u, _, f) => TermWritten(u); FactorWritten(f);
  }

  lemma {:induction false} ExprWritten(e: Expr)
    ensures AllWritten(ExprText(e))
  {
    match e
    case Sole(t) => TermWritten(t);
    case Sum(d, _, t) => ExprWritten(d); TermWritten(t);
  }

  /** The parts of a text, read one after the other. */
  lemma AfterGroup(e: Expr, st: State)
    ensures AllWritten(FactorText(Group(e))) && AllWritten(ExprText(e))
    ensures After(FactorText(Group(e)), st) == After([CloseParen], After(ExprText(e), After([OpenParen], st)))
  {
    ExprWritten(e);
    AfterConcat([OpenParen], ExprText(e), st);
    AfterConcat([OpenParen] + ExprText(e), [CloseParen], st);
  }

  lemma AfterSigned(minus: bool, g: Factor, st: State)
    ensures AllWritten(FactorText(Signed(minus, g))) && AllWritten(FactorText(g))
    ensures After(FactorText(Signed(minus, g)), st) == After(FactorText(g), After([Shift(minus)], st))
  {
    FactorWritten(g);
    AfterConcat([Shift(minus)], FactorText(g), st);
  }

  lemma AfterProduct(u: Term, divides: bool, f: Factor, st: State)
    ensures AllWritten(TermText(Product(u, divides, f))) && AllWritten(TermText(u)) && AllWritten(FactorText(f))
    ensures After(TermText(Product(u, divides, f)), st)
         == After(FactorText(f), After([Scale(divides)], After(TermText(u), st)))
  {
    TermWritten(u);
    FactorWritten(f);
    AfterConcat(TermText(u), [Scale(divides)], st);
    AfterConcat(TermText(u) + [Scale(divides)], FactorText(f), st);
  }

  lemma AfterSum(d: Expr, subtracts: bool, t: Term, st: State)
    ensures AllWritten(ExprText(Sum(d, subtracts, t))) && AllWritten(ExprText(d)) && AllWritten(TermText(t))
    ensures After(ExprText(Sum(d, subtracts, t)), st)
         == After(TermText(t), After([Shift(subtracts)], After(ExprText(d), st)))
  {
    ExprWritten(d);
    TermWritten(t);
    AfterConcat(ExprText(d), [Shift(subtracts)], st);
    AfterConcat(ExprText(d) + [Shift(subtracts)], TermText(t), st);
  }

  lemma LeafReads(v: int, st: State)
    ensures Read(After([Number(v)], st), [], st.stack, st.out, [Number(v)], false, 7)
  {
    AfterOne(Number(v), st);
    assert st.stack + [] == st.stack && st.out + [Number(v)] + [] == st.out + [Number(v)];
  }

  lemma OpenReads(st: State)
    ensures var next := After([OpenParen], st);
            && next.stack == st.stack + [OpenParen] && next.out == st.out
            && SignIsUnary(next.treated) && Pending(next.stack) == Pending(st.stack)
  {
    AfterOne(OpenParen, st);
    PendingTop(st.stack, OpenParen);
    assert [] + Pending(st.stack) == Pending(st.stack);
  }

  lemma {:induction false} PendingConcat(base: seq<Token>, ops: seq<Token>)
    requires AllBind(ops, 0)
    ensures Pending(base + ops) == Reversed(ops) + Pending(base)
    decreases |ops|
  {
    if ops == [] {
      assert base + ops == base;
    } else {
      assert (base + ops)[..|base + ops| - 1] == base + ops[..|ops| - 1];
      PendingConcat(base, ops[..|ops| - 1]);
    }
  }

  lemma CloseReads(st: State, ops: seq<Token>, base: seq<Token>, out: seq<Token>, postfix: seq<Token>, groups: bool)
    requires Read(st, ops, base + [OpenParen], out, postfix, groups, 0)
    ensures Read(After([CloseParen], st), [], base, out, postfix, true, 7)
  {
    hide Run, Popped, Pending, Reversed;
    AfterOne(CloseParen, st);
    PendingTop(base, OpenParen);
    EmptyStack();
    assert [] + Pending(base) == Pending(base);
    if groups {
      assert [] + ops == ops && Reversed(ops) + [] == Reversed(ops);
      PendingConcat([], ops);
    } else {
      PendingConcat(base + [OpenParen], ops);
      assert st.out + (Reversed(ops) + Pending(base)) == st.out + Reversed(ops) + Pending(base);
    }
    assert out + postfix + Pending(base) + [] == out + postfix + Pending(base);
  }

  lemma SignJoins(minus: bool, g: Factor, st: State, ops: seq<Token>, base: seq<Token>, out: seq<Token>)
    returns (waiting: seq<Token>)
    requires !g.Signed? && Read(st, ops, base + [Mark(minus)], out, FactorPostfix(g), FactorGroups(g), 7)
    requires g.Leaf? ==> ops == []
    ensures Read(st, waiting, base, out, FactorPostfix(g) + [Mark(minus)], FactorGroups(g), 7)
  {
    PendingTop(base, Mark(minus));
    var p, u := FactorPostfix(g), Mark(minus);
    if FactorGroups(g) {
      waiting := [];
      assert out + p + ([u] + Pending(base)) == out + (p + [u]) + Pending(base);
      assert ops == [] && st.out + [] == st.out;
    } else {
      waiting := [u];
      assert base + [u] + [] == base + [u] && [u][..0] == [] && [u] + [] == [u];
      assert out + p + [u] == out + (p + [u]);
      assert st.out + Reversed([]) == st.out;
    }
  }

  lemma {:induction false} FactorReads(f: Factor, st: State) returns (ops: seq<Token>)
    requires SignIsUnary(st.treated) && (f.Signed? ==> Ready(st.stack, 7)) && FactorSafe(f, Pending(st.stack) != [])
    ensures AllWritten(FactorText(f))
    ensures Read(After(FactorText(f), st), ops, st.stack, st.out, FactorPostfix(f), FactorGroups(f), 7)
    ensures f.Leaf? ==> ops == []
    decreases f
  {
    hide Read, After, Pending;
    match f
    case Leaf(v) =>
      LeafReads(v, st);
      ops := [];
    case Group(e) =>
      AfterGroup(e, st);
      OpenReads(st);
      var inner := ExprReads(e, After([OpenParen], st));
      CloseReads(After(ExprText(e), After([OpenParen], st)), inner, st.stack, st.out, ExprPostfix(e), ExprGroups(e));
      ops := [];
    case Signed(minus, g) =>
      AfterSigned(minus, g, st);
      SignReads(minus, st);
      var signed := After([Shift(minus)], st);
      ops := FactorReads(g, signed);
      ops := SignJoins(minus, g, After(FactorText(g), signed), ops, st.stack, st.out);
  }

  lemma {:induction false} TermReads(t: Term, st: State) returns (ops: seq<Token>)
    requires SignIsUnary(st.treated) && Ready(st.stack, 5) && TermSafe(t, Pending(st.stack) != [])
    ensures AllWritten(TermText(t))
    ensures Read(After(TermText(t), st), ops, st.stack, st.out, TermPostfix(t), TermGroups(t), 5)
    decreases t
  {
    match t
    case One(f) =>
      ops := FactorReads(f, st);
    case Product(u, divides, f) =>
      hide Read, After, Pending;
      AfterProduct(u, divides, f, st);
      var op, read := Scale(divides), After(TermText(u), st);
      var left := TermReads(u, st);
      OperatorReads(op, read, left, st.stack, st.out, TermPostfix(u), TermGroups(u));
      var next := After([op], read);
      ops := FactorReads(f, next);
      ops := OperatorJoins(op, After(FactorText(f), next), ops, st.stack, st.out,
                           TermPostfix(u), TermGroups(u), FactorPostfix(f), FactorGroups(f), 7);
  }

  lemma {:induction false} ExprReads(e: Expr, st: State) returns (ops: seq<Token>)
    requires SignIsUnary(st.treated) && Ready(st.stack, 0) && ExprSafe(e, Pending(st.stack) != [])
    ensures AllWritten(ExprText(e))
    ensures Read(After(ExprText(e), st), ops, st.stack, st.out, ExprPostfix(e), ExprGroups(e), 0)
    decreases e
  {
    match e
    case Sole(t) =>
      ops := TermReads(t, st);
    case Sum(d, subtracts, t) =>
      hide Read, After, Pending;
      AfterSum(d, subtracts, t, st);
      var op, read := Shift(subtracts), After(ExprText(d), st);
      var left := ExprReads(d, st);
      OperatorReads(op, read, left, st.stack, st.out, ExprPostfix(d), ExprGroups(d));
      var next := After([op], read);
      ops := TermReads(t, next);
      ops := OperatorJoins(op, After(TermText(t), next), ops, st.stack, st.out,
                           ExprPostfix(d), ExprGroups(d), TermPostfix(t), TermGroups(t), 5);
  }

  // ---------------------------------------------------------------------------------------------
  // Unsafe parts
  // ---------------------------------------------------------------------------------------------

  lemma DifferGrows(a: seq<Token>, b: seq<Token>, c: seq<Token>, d: seq<Token>)
    requires Differ(a, b) && a <= c && b <= d
    ensures Differ(c, d)
  {
    var i :| 0 <= i < |a| && i < |b| && a[i] != b[i];
    assert c[i] == a[i] && d[i] == b[i];
  }

  lemma {:induction false} FactorStarts(f: Factor)
    ensures FactorPostfix(f) != [] && FactorPostfix(f)[0].Number?
  {
    match f
    case Leaf(_) =>
    case Group(e) => ExprStarts(e);
    case Signed(_, g) => FactorStarts(g);
  }

  lemma {:induction false} TermStarts(t: Term)
    ensures TermPostfix(t) != [] && TermPostfix(t)[0].Number?
  {
    match t
    case One(f) => FactorStarts(f);
    case Product(u, _, _) => TermStarts(u);
  }

  lemma {:induction false} ExprStarts(e: Expr)
    ensures ExprPostfix(e) != [] && ExprPostfix(e)[0].Number?
  {
    match e
    case Sole(t) => TermStarts(t);
    case Sum(d, _, _) => ExprStarts(d);
  }

  predicate OperatorStack(stack: seq<Token>) {
    forall k :: 0 <= k < |stack| ==> IsOperator(stack[k]) || stack[k].OpenParen?
  }

  lemma {:induction false} PendingOperators(stack: seq<Token>)
    requires OperatorStack(stack)
    ensures forall k :: 0 <= k < |Pending(stack)| ==> IsOperator(Pending(stack)[k])
    decreases |stack|
  {
    if stack != [] {
      PendingOperators(stack[..|stack| - 1]);
    }
  }

  /** A second sign moves the first one out before the operand. */
  lemma TwoSigns(m: bool, n: bool, g: Factor, st: State)
    requires SignIsUnary(st.treated) && Ready(st.stack, 7)
    ensures AllWritten(FactorText(Signed(m, Signed(n, g))))
    ensures Differ(After(FactorText(Signed(m, Signed(n, g))), st).out, st.out + FactorPostfix(Signed(m, Signed(n, g))))
  {
    hide *;
    SignWritten(m);
    SignWritten(n);
    AfterSigned(m, Signed(n, g), st);
    AfterSigned(n, g, After([Shift(m)], st));
    SignReads(m, st);
    var one := After([Shift(m)], st);
    SecondSign(m, n, one, st.stack);
    var two := After([Shift(n)], one);
    AfterGrows(FactorText(g), two);
    FactorStarts(Signed(m, Signed(n, g)));
    var p := FactorPostfix(Signed(m, Signed(n, g)));
    DifferNext(st.out, [Mark(m)], p);
    DifferGrows(two.out, st.out + p, After(FactorText(g), two).out, st.out + p);
  }

  lemma SignWritten(minus: bool)
    ensures AllWritten([Shift(minus)])
  {
  }

  lemma AfterGrows(tokens: seq<Token>, st: State)
    requires AllWritten(tokens)
    ensures st.out <= After(tokens, st).out
  {
    RunsOn(tokens, st);
  }

  lemma DifferNext(out: seq<Token>, a: seq<Token>, b: seq<Token>)
    requires a != [] && b != [] && b[0].Number? && (a[0].UnaryMinus? || a[0].UnaryPlus?)
    ensures Differ(out + a, out + b)
  {
    assert (out + a)[|out|] != (out + b)[|out|];
  }

  lemma SecondSign(m: bool, n: bool, one: State, base: seq<Token>)
    requires one.stack == base + [Mark(m)] && SignIsUnary(one.treated) && Ready(base, 7)
    ensures Written(Shift(n)) && After([Shift(n)], one).out == one.out + [Mark(m)]
    ensures Mark(m).UnaryMinus? || Mark(m).UnaryPlus?
  {
    AfterOne(Shift(n), one);
    PoppedAll(Mark(n), base, [Mark(m)], one.out);
    OneReversed(Mark(m));
    hide Popped, Run, Reversed;
  }

  lemma OneReversed(op: Token)
    ensures Reversed([op]) == [op]
  {
    EmptyStack();
    assert [op][..0] == [];
  }

  /** A closing parenthesis has moved out an operator that waits for what follows. */
  lemma TooEarly(st: State, ops: seq<Token>, base: seq<Token>, out: seq<Token>, p: seq<Token>, q: seq<Token>, level: nat)
    requires Read(st, ops, base, out, p, true, level) && Pending(base) != [] && OperatorStack(base)
    requires q != [] && q[0].Number?
    ensures Differ(st.out, out + p + q)
  {
    PendingOperators(base);
    assert st.out + Reversed([]) == st.out;
    assert st.out[|out + p|] != (out + p + q)[|out + p|];
  }

  lemma {:induction false} FactorDiffers(f: Factor, st: State)
    requires SignIsUnary(st.treated) && (f.Signed? ==> Ready(st.stack, 7)) && OperatorStack(st.stack)
    requires !FactorSafe(f, Pending(st.stack) != [])
    ensures AllWritten(FactorText(f))
    ensures Differ(After(FactorText(f), st).out, st.out + FactorPostfix(f))
    decreases f
  {
    hide Differ, Pending, Run;
    match f
    case Leaf(_) =>
    case Group(e) =>
      AfterGroup(e, st);
      OpenReads(st);
      var open := After([OpenParen], st);
      ExprDiffers(e, open);
      RunsOn([CloseParen], After(ExprText(e), open));
      DifferGrows(After(ExprText(e), open).out, st.out + ExprPostfix(e),
                  After(FactorText(f), st).out, st.out + ExprPostfix(e));
    case Signed(minus, g) =>
      if g.Signed? {
        TwoSigns(minus, g.minus, g.f, st);
      } else {
        AfterSigned(minus, g, st);
        SignReads(minus, st);
        FactorDiffers(g, After([Shift(minus)], st));
        DifferGrows(After(FactorText(f), st).out, st.out + FactorPostfix(g),
                    After(FactorText(f), st).out, st.out + FactorPostfix(f));
      }
  }

  lemma {:induction false} TermDiffers(t: Term, st: State)
    requires SignIsUnary(st.treated) && Ready(st.stack, 5) && OperatorStack(st.stack)
    requires !TermSafe(t, Pending(st.stack) != [])
    ensures AllWritten(TermText(t))
    ensures Differ(After(TermText(t), st).out, st.out + TermPostfix(t))
    decreases t
  {
    hide Differ, Pending, Run, Read;
    match t
    case One(f) => FactorDiffers(f, st);
    case Product(u, divides, f) =>
      AfterProduct(u, divides, f, st);
      var op, read := Scale(divides), After(TermText(u), st);
      var next := After([op], read);
      RunsOn([op], read);
      RunsOn(FactorText(f), next);
      var out, p, q := st.out, TermPostfix(u), FactorPostfix(f);
      assert out + p + q <= out + TermPostfix(t);
      var end := After(TermText(t), st).out;
      if !TermSafe(u, Pending(st.stack) != []) {
        TermDiffers(u, st);
        DifferGrows(read.out, out + p, end, out + TermPostfix(t));
      } else {
        var left := TermReads(u, st);
        if TermGroups(u) && Pending(st.stack) != [] {
          FactorStarts(f);
          TooEarly(read, left, st.stack, out, p, q, 5);
          DifferGrows(read.out, out + p + q, end, out + TermPostfix(t));
        } else {
          OperatorReads(op, read, left, st.stack, out, p, TermGroups(u));
          FactorDiffers(f, next);
          DifferGrows(end, out + p + q, end, out + TermPostfix(t));
        }
      }
  }

  lemma {:induction false} ExprDiffers(e: Expr, st: State)
    requires SignIsUnary(st.treated) && Ready(st.stack, 0) && OperatorStack(st.stack)
    requires !ExprSafe(e, Pending(st.stack) != [])
    ensures AllWritten(ExprText(e))
    ensures Differ(After(ExprText(e), st).out, st.out + ExprPostfix(e))
    decreases e
  {
    hide Differ, Pending, Run, Read;
    match e
    case Sole(t) => TermDiffers(t, st);
    case Sum(d, subtracts, t) =>
      AfterSum(d, subtracts, t, st);
      var op, read := Shift(subtracts), After(ExprText(d), st);
      var next := After([op], read);
      RunsOn([op], read);
      RunsOn(TermText(t), next);
      var out, p, q := st.out, ExprPostfix(d), TermPostfix(t);
      assert out + p + q <= out + ExprPostfix(e);
      var end := After(ExprText(e), st).out;
      if !ExprSafe(d, Pending(st.stack) != []) {
        ExprDiffers(d, st);
        DifferGrows(read.out, out + p, end, out + ExprPostfix(e));
      } else {
        var left := ExprReads(d, st);
        if ExprGroups(d) && Pending(st.stack) != [] {
          TermStarts(t);
          TooEarly(read, left, st.stack, out, p, q, 0);
          DifferGrows(read.out, out + p + q, end, out + ExprPostfix(e));
        } else {
          OperatorReads(op, read, left, st.stack, out, p, ExprGroups(d));
          TermDiffers(t, next);
          DifferGrows(end, out + p + q, end, out + ExprPostfix(e));
        }
      }
  }

  // ---------------------------------------------------------------------------------------------
  // Whole expressions
  // ---------------------------------------------------------------------------------------------

  /** The conversion gives the postfix order of exactly the safe expressions. */
  lemma ConvertsExactlySafe(e: Expr)
    ensures Converted(ExprText(e)) == Ok(ExprPostfix(e)) <==> ExprSafe(e, false)
  {
    hide ExprText, ExprPostfix, Run;
    ExprWritten(e);
    RunsOn(ExprText(e), START);
    var st := After(ExprText(e), START);
    EmptyStack();
    hide ExprSafe, Pending, Reversed;
    assert [] + ExprPostfix(e) == ExprPostfix(e) == ExprPostfix(e) + [];
    if ExprSafe(e, false) {
      var ops := ExprReads(e, START);
      assert [] + ops == ops;
    } else {
      ExprDiffers(e, START);
      DifferGrows(st.out, ExprPostfix(e), st.out + Reversed(st.stack), ExprPostfix(e));
    }
  }

  /** Safe expressions are evaluated to their value, with division by zero the only error. */
  lemma SafeEvaluates(e: Expr)
    requires ExprSafe(e, false)
    ensures Arithmetic(ExprText(e)) == ExprValue(e)
  {
    ConvertsExactlySafe(e);
    PostfixEvaluates(e);
  }

  // ---------------------------------------------------------------------------------------------
  // Without parentheses
  // ---------------------------------------------------------------------------------------------

  predicate BinaryToken(token: Token) {
    token.Plus? || token.Minus? || token.Multiply? || token.Divide?
  }

  /** Operands with at most one sign each, separated by binary operators. */
  predicate Flat(tokens: seq<Token>)
    decreases |tokens|
  {
    && tokens != [] && tokens[|tokens| - 1].Number?
    && (FlatFront(tokens[..|tokens| - 1])
        || (|tokens| >= 2 && (tokens[|tokens| - 2].Plus? || tokens[|tokens| - 2].Minus?)
            && FlatFront(tokens[..|tokens| - 2])))
  }

  /** What may stand in front of an operand. */
  predicate FlatFront(front: seq<Token>)
    decreases |front|
  {
    front == [] || (BinaryToken(front[|front| - 1]) && Flat(front[..|front| - 1]))
  }

  ghost predicate Reads(e: Expr, tokens: seq<Token>) {
    ExprText(e) == tokens && !ExprGroups(e) && ExprSafe(e, false)
  }

  lemma AppendFactor(e: Expr, op: Token, f: Factor) returns (whole: Expr)
    requires !ExprGroups(e) && ExprSafe(e, false) && BinaryToken(op) && !FactorGroups(f) && FactorSafe(f, true)
    ensures Reads(whole, ExprText(e) + [op] + FactorText(f))
  {
    if op.Plus? || op.Minus? {
      whole := Sum(e, op.Minus?, One(f));
    } else {
      match e
      case Sole(t) =>
        whole := Sole(Product(t, op.Divide?, f));
      case Sum(d, subtracts, t) =>
        whole := Sum(d, subtracts, Product(t, op.Divide?, f));
        assert ExprText(whole) == ExprText(e) + [op] + FactorText(f);
    }
  }

  /** The operand a flat sequence ends in, and where it begins. */
  lemma LastOperand(tokens: seq<Token>) returns (n: nat, f: Factor)
    requires Flat(tokens)
    ensures n < |tokens| && FlatFront(tokens[..n]) && FactorText(f) == tokens[n..]
    ensures !FactorGroups(f) && FactorSafe(f, true) && FactorSafe(f, false)
  {
    var last := |tokens| - 1;
    var leaf := Leaf(tokens[last].value);
    assert tokens[last..] == [tokens[last]] && FactorText(leaf) == [tokens[last]];
    if FlatFront(tokens[..last]) {
      n, f := last, leaf;
    } else {
      hide FlatFront;
      n, f := last - 1, Signed(tokens[last - 1].Minus?, leaf);
      assert tokens[n..] == [tokens[n]] + [tokens[last]];
      assert FactorSafe(leaf, true) && !FactorGroups(leaf);
    }
  }

  lemma FrontOperator(tokens: seq<Token>, n: nat)
    requires 0 < n <= |tokens| && FlatFront(tokens[..n])
    ensures BinaryToken(tokens[n - 1]) && Flat(tokens[..n - 1])
  {
    hide Flat;
    assert tokens[..n][..n - 1] == tokens[..n - 1];
  }

  lemma {:induction false} FlatReads(tokens: seq<Token>) returns (e: Expr)
    requires Flat(tokens)
    ensures Reads(e, tokens)
    decreases |tokens|
  {
    hide *;
    var n, f := LastOperand(tokens);
    assert tokens == tokens[..n] + tokens[n..];
    if n == 0 {
      e := Sole(One(f));
      OneOperand(f, tokens);
    } else {
      FrontOperator(tokens, n);
      var d := FlatReads(tokens[..n - 1]);
      ReadsIs(d, tokens[..n - 1]);
      e := AppendFactor(d, tokens[n - 1], f);
      assert tokens == tokens[..n - 1] + [tokens[n - 1]] + tokens[n..];
    }
  }

  lemma OneOperand(f: Factor, tokens: seq<Token>)
    requires FactorText(f) == tokens && !FactorGroups(f) && FactorSafe(f, false)
    ensures Reads(Sole(One(f)), tokens)
  {
    hide FactorText, FactorGroups, FactorSafe;
    assert TermText(One(f)) == FactorText(f) && TermSafe(One(f), false) && !TermGroups(One(f));
  }

  lemma ReadsIs(e: Expr, tokens: seq<Token>)
    requires Reads(e, tokens)
    ensures ExprText(e) == tokens && !ExprGroups(e) && ExprSafe(e, false)
  {
  }

  /** Texts end in an operand. */
  lemma {:induction false} FactorEnds(f: Factor)
    ensures FactorText(f) != []
    ensures var last := FactorText(f)[|FactorText(f)| - 1]; if FactorGroups(f) then last.CloseParen? else last.Number?
  {
    match f
    case Leaf(_) =>
    case Group(e) =>
    case Signed(_, g) => FactorEnds(g);
  }

  lemma {:induction false} TermEnds(t: Term)
    ensures TermText(t) != [] && var last := TermText(t)[|TermText(t)| - 1]; last.Number? || last.CloseParen?
  {
    match t
    case One(f) => FactorEnds(f);
    case Product(_, _, f) => FactorEnds(f);
  }

  lemma ExprEnds(e: Expr)
    ensures ExprText(e) != [] && var last := ExprText(e)[|ExprText(e)| - 1]; last.Number? || last.CloseParen?
  {
    match e
    case Sole(t) => TermEnds(t);
    case Sum(_, _, t) => TermEnds(t);
  }

  /** Behind an operator that follows an operand, or at the beginning. */
  ghost predicate OperandFront(front: seq<Token>) {
    front == [] || (|front| >= 2 && BinaryToken(front[|front| - 1]) && !BinaryToken(front[|front| - 2]))
  }

  /** An operand that makes a sequence flat is a number, or a number with one sign. */
  lemma FlatFactor(front: seq<Token>, f: Factor)
    requires OperandFront(front) && Flat(front + FactorText(f))
    ensures FlatFront(front) && !FactorGroups(f) && FactorSafe(f, false) && FactorSafe(f, true)
  {
    var tokens := front + FactorText(f);
    FactorEnds(f);
    assert tokens[|tokens| - 1] == FactorText(f)[|FactorText(f)| - 1];
    match f
    case Leaf(v) =>
      assert tokens[..|tokens| - 1] == front;
      if front != [] {
        assert tokens[..|tokens| - 2] == front[..|front| - 1];
        assert !FlatFront(front[..|front| - 1]);
      }
    case Group(e) =>
    case Signed(m, Leaf(v)) =>
      assert FactorText(f) == [Shift(m), Number(v)];
      assert tokens[..|tokens| - 2] == front;
      assert tokens[..|tokens| - 1][..|tokens| - 2] == front;
      assert !Flat(front);
    case Signed(m, Group(e)) =>
    case Signed(m, Signed(n, g)) =>
      TwoSignsNotFlat(front, m, n, g);
  }

  lemma {:induction false} TwoSignsNotFlat(front: seq<Token>, m: bool, n: bool, g: Factor)
    requires front == [] || BinaryToken(front[|front| - 1])
    ensures !Flat(front + FactorText(Signed(m, Signed(n, g))))
    decreases g
  {
    var tokens := front + FactorText(Signed(m, Signed(n, g)));
    var twice := Signed(m, Signed(n, g));
    FactorEnds(twice);
    assert tokens[|tokens| - 1] == FactorText(twice)[|FactorText(twice)| - 1];
    match g
    case Leaf(v) =>
      assert FactorText(Signed(n, g)) == [Shift(n)] + FactorText(g);
      assert FactorText(twice) == [Shift(m)] + FactorText(Signed(n, g)) == [Shift(m), Shift(n), Number(v)];
      assert tokens == front + [Shift(m), Shift(n), Number(v)];
      TwoSignsThenNumber(front, Shift(m), Shift(n), v);
    case Group(e) =>
      assert FactorGroups(Signed(n, g)) && FactorGroups(twice);
    case Signed(l, h) =>
      TwoSignsNotFlat(front + [Shift(m)], n, l, h);
      assert tokens == front + [Shift(m)] + FactorText(Signed(n, Signed(l, h)));
  }

  lemma TwoSignsThenNumber(front: seq<Token>, a: Token, b: Token, v: int)
    requires front == [] || BinaryToken(front[|front| - 1])
    requires BinaryToken(a) && BinaryToken(b)
    ensures !Flat(front + [a, b, Number(v)])
  {
    var tokens, k := front + [a, b, Number(v)], |front|;
    assert tokens[..k + 2][..k + 1] == front + [a];
    assert !FlatFront(tokens[..k + 2]);
    assert tokens[..k + 1][..k] == front;
    assert !Flat(front) && !FlatFront(tokens[..k + 1]);
  }

  /** The last operand of an expression with several, and what comes before it. */
  lemma LastFactor(e: Expr) returns (rest: Expr, op: Token, f: Factor)
    requires !(e.Sole? && e.t.One?)
    ensures BinaryToken(op) && ExprText(e) == ExprText(rest) + [op] + FactorText(f)
    ensures !ExprGroups(rest) && ExprSafe(rest, false) && !FactorGroups(f) && FactorSafe(f, true) ==>
              !ExprGroups(e) && ExprSafe(e, false)
  {
    match e {
      case Sole(Product(u, divides, g)) =>
        rest, op, f := Sole(u), Scale(divides), g;
      case Sum(d, subtracts, One(g)) =>
        rest, op, f := d, Shift(subtracts), g;
      case Sum(d, subtracts, Product(u, divides, g)) =>
        rest, op, f := Sum(d, subtracts, u), Scale(divides), g;
        assert ExprText(e) == ExprText(rest) + [op] + FactorText(f);
    }
  }

  /** An expression with a flat text has neither parentheses nor a second sign. */
  lemma {:induction false} FlatExpr(e: Expr)
    requires Flat(ExprText(e))
    ensures !ExprGroups(e) && ExprSafe(e, false)
    decreases |ExprText(e)|
  {
    if e.Sole? && e.t.One? {
      FlatFirst(e.t.f);
    } else {
      hide *;
      var rest, op, f := LastFactor(e);
      FlatBehind(rest, op, f);
      FlatExpr(rest);
    }
  }

  lemma FlatFirst(f: Factor)
    requires Flat(ExprText(Sole(One(f))))
    ensures !ExprGroups(Sole(One(f))) && ExprSafe(Sole(One(f)), false)
  {
    assert [] + FactorText(f) == ExprText(Sole(One(f)));
    hide Flat, FlatFront, FactorText;
    FlatFactor([], f);
  }

  lemma FlatBehind(rest: Expr, op: Token, f: Factor)
    requires BinaryToken(op) && Flat(ExprText(rest) + [op] + FactorText(f))
    ensures Flat(ExprText(rest)) && !FactorGroups(f) && FactorSafe(f, true)
    ensures |ExprText(rest)| < |ExprText(rest) + [op] + FactorText(f)|
  {
    hide Flat, FlatFront, ExprText, FactorText, FactorSafe, FactorGroups;
    ExprEnds(rest);
    var front := ExprText(rest) + [op];
    FlatFactor(front, f);
    assert front[..|front|] == front && front[..|front| - 1] == ExprText(rest);
    FrontOperator(front, |front|);
  }

  /** Every sequence without parentheses and double signs evaluates to its value by the grammar, however
      it is read; FlatReads gives a reading. */
  lemma FlatEvaluates(tokens: seq<Token>, e: Expr)
    requires Flat(tokens) && ExprText(e) == tokens
    ensures Arithmetic(tokens) == ExprValue(e)
  {
    FlatExpr(e);
    SafeEvaluates(e);
    hide *;
  }

  // ---------------------------------------------------------------------------------------------
  // The four operations
  // ---------------------------------------------------------------------------------------------

  /** Two numbers and an operator: sum, difference, product, and the quotient that leaves a remainder
      smaller than the divisor and of the sign of the dividend; a zero divisor, and nothing else, is the
      error. */
  lemma FourOperations(a: int, b: int)
    ensures Arithmetic([Number(a), Plus, Number(b)]) == Ok(a + b)
    ensures Arithmetic([Number(a), Minus, Number(b)]) == Ok(a - b)
    ensures Arithmetic([Number(a), Multiply, Number(b)]) == Ok(a * b)
    ensures var r := Arithmetic([Number(a), Divide, Number(b)]);
            if b == 0 then r == Err(DivisionByZero) else r.Ok? && Truncated(a, b, r.value)
  {
    SumOfTwo(a, false, b);
    SumOfTwo(a, true, b);
    ProductOfTwo(a, false, b);
    ProductOfTwo(a, true, b);
  }

  lemma LeafSafe(v: int)
    ensures forall pending :: FactorSafe(Leaf(v), pending) && TermSafe(One(Leaf(v)), pending)
    ensures !FactorGroups(Leaf(v)) && !TermGroups(One(Leaf(v)))
    ensures ExprSafe(Sole(One(Leaf(v))), false) && !ExprGroups(Sole(One(Leaf(v))))
  {
    assert forall pending :: FactorSafe(Leaf(v), pending);
    assert TermSafe(One(Leaf(v)), false);
  }

  lemma SumOfTwo(a: int, subtracts: bool, b: int)
    ensures Arithmetic([Number(a), Shift(subtracts), Number(b)]) == Ok(if subtracts then a - b else a + b)
  {
    var e := Sum(Sole(One(Leaf(a))), subtracts, One(Leaf(b)));
    LeafSafe(a);
    LeafSafe(b);
    LeafIs(a);
    LeafIs(b);
    SafeEvaluates(e);
    hide Arithmetic;
    assert ExprText(e) == [Number(a), Shift(subtracts), Number(b)];
  }

  lemma ProductOfTwo(a: int, divides: bool, b: int)
    ensures Arithmetic([Number(a), Scale(divides), Number(b)]) == Apply(Scale(divides), Ok(a), Ok(b))
  {
    var t := Product(One(Leaf(a)), divides, Leaf(b));
    LeafSafe(a);
    LeafSafe(b);
    LeafIs(a);
    LeafIs(b);
    SafeEvaluates(Sole(t));
    hide Arithmetic;
    assert ExprText(Sole(t)) == TermText(t) == [Number(a), Scale(divides), Number(b)];
    assert ExprValue(Sole(t)) == TermValue(t);
  }

  // ---------------------------------------------------------------------------------------------
  // Two expressions that are read differently
  // ---------------------------------------------------------------------------------------------

  lemma RunFrom(token: Token, rest: seq<Token>, st: State)
    requires Step(st, token).Ok?
    ensures Run([token] + rest, st) == Run(rest, Step(st, token).value)
  {
    hide Step;
    assert ([token] + rest)[1..] == rest;
  }

  /** A state as the steps below see it: stack, output and last treated token. */
  ghost predicate Is(st: State, stack: seq<Token>, out: seq<Token>, last: Token) {
    st.stack == stack && st.out == out && st.treated != [] && st.treated[|st.treated| - 1] == last
  }

  lemma NumberStep(v: int, rest: seq<Token>, st: State) returns (next: State)
    ensures Is(next, st.stack, st.out + [Number(v)], Number(v)) && Run([Number(v)] + rest, st) == Run(rest, next)
  {
    RunFrom(Number(v), rest, st);
    next := Step(st, Number(v)).value;
  }

  lemma OperatorStep(op: Token, rest: seq<Token>, st: State, stack: seq<Token>, out: seq<Token>, last: Token,
                     stack': seq<Token>, out': seq<Token>) returns (next: State)
    requires Is(st, stack, out, last) && BinaryToken(op)
    requires var o := if IsOperator(last) && (op.Plus? || op.Minus?) then Mark(op.Minus?) else op;
             Popped(o, stack, out) == (stack', out') && (last.Number? || last.CloseParen? || IsOperator(last))
    ensures var o := if IsOperator(last) && (op.Plus? || op.Minus?) then Mark(op.Minus?) else op;
            Is(next, stack' + [o], out', o) && Run([op] + rest, st) == Run(rest, next)
  {
    hide Popped, Run;
    next := Step(st, op).value;
    RunFrom(op, rest, st);
  }

  lemma OpenStep(rest: seq<Token>, st: State) returns (next: State)
    ensures Is(next, st.stack + [OpenParen], st.out, OpenParen) && Run([OpenParen] + rest, st) == Run(rest, next)
  {
    RunFrom(OpenParen, rest, st);
    next := Step(st, OpenParen).value;
  }

  lemma CloseStep(rest: seq<Token>, st: State) returns (next: State)
    ensures Is(next, [], st.out + Pending(st.stack), CloseParen) && Run([CloseParen] + rest, st) == Run(rest, next)
  {
    hide Pending;
    RunFrom(CloseParen, rest, st);
    next := Step(st, CloseParen).value;
  }

  lemma PoppedNone(op: Token, stack: seq<Token>, out: seq<Token>)
    requires stack == [] || Precedence(op) > Precedence(stack[|stack| - 1])
    ensures Popped(op, stack, out) == (stack, out)
  {
  }

  lemma PoppedOne(op: Token, stack: seq<Token>, top: Token, out: seq<Token>)
    requires stack == [] || Precedence(op) > Precedence(stack[|stack| - 1])
    requires IsOperator(top) && Precedence(op) <= Precedence(top)
    ensures Popped(op, stack + [top], out) == (stack, out + [top])
  {
    assert (stack + [top])[..|stack|] == stack;
    PoppedNone(op, stack, out + [top]);
  }

  lemma RunEnds(tokens: seq<Token>, st: State, stack: seq<Token>, out: seq<Token>, last: Token, rpn: seq<Token>)
    requires Run(tokens, START) == Run([], st) && Is(st, stack, out, last) && out + Reversed(stack) == rpn
    ensures Converted(tokens) == Ok(rpn)
  {
  }

  const GROUPED := [Number(1), Plus, OpenParen, Number(2), CloseParen, Multiply, Number(3)]

  /** 1 + (2) * 3 is read as (1 + 2) * 3. */
  lemma ParenthesisEmptiesStack()
    ensures ExprText(Sum(Sole(One(Leaf(1))), false, Product(One(Group(Sole(One(Leaf(2))))), false, Leaf(3)))) == GROUPED
    ensures ExprValue(Sum(Sole(One(Leaf(1))), false, Product(One(Group(Sole(One(Leaf(2))))), false, Leaf(3)))) == Ok(7)
    ensures Arithmetic(GROUPED) == Ok(9)
  {
    hide Run, Evaluated;
    GroupedText();
    GroupedConverts();
    SumThenProduct();
  }

  lemma GroupedText()
    ensures var e := Sum(Sole(One(Leaf(1))), false, Product(One(Group(Sole(One(Leaf(2))))), false, Leaf(3)));
            ExprText(e) == GROUPED && ExprValue(e) == Ok(7)
  {
    var two := Group(Sole(One(Leaf(2))));
    assert TermText(One(Leaf(2))) == [Number(2)] && FactorText(two) == [OpenParen, Number(2), CloseParen];
    assert TermValue(One(Leaf(2))) == Ok(2) && FactorValue(two) == Ok(2);
    var product := Product(One(two), false, Leaf(3));
    assert TermText(product) == [OpenParen, Number(2), CloseParen, Multiply, Number(3)] && TermValue(product) == Ok(6);
    assert ExprText(Sole(One(Leaf(1)))) == [Number(1)] && ExprValue(Sole(One(Leaf(1)))) == Ok(1);
  }

  lemma GroupedConverts()
    ensures Converted(GROUPED) == Ok([Number(1), Number(2), Plus, Number(3), Multiply])
  {
    hide Run, Popped, Step, Converted, Pending, Reversed;
    var t1, t2, t3 := [Number(3)] + [], [Multiply, Number(3)], [CloseParen, Multiply, Number(3)];
    var t4, t5, t6 := [Number(2)] + t3, [OpenParen, Number(2)] + t3, [Plus, OpenParen, Number(2)] + t3;
    assert GROUPED == [Number(1)] + t6 && t6 == [Plus] + t5 && t5 == [OpenParen] + t4;
    assert t3 == [CloseParen] + t2 && t2 == [Multiply] + t1;
    var s1 := NumberStep(1, t6, START);
    PoppedNone(Plus, [], [Number(1)]);
    var s2 := OperatorStep(Plus, t5, s1, [], [Number(1)], Number(1), [], [Number(1)]);
    var s3 := OpenStep(t4, s2);
    var s4 := NumberStep(2, t3, s3);
    var s5 := CloseStep(t2, s4);
    assert s4.stack == [] + [Plus] + [OpenParen];
    PendingTop([] + [Plus], OpenParen);
    PendingTop([], Plus);
    EmptyStack();
    assert Pending(s4.stack) == [Plus];
    var out := [Number(1), Number(2), Plus];
    PoppedNone(Multiply, [], out);
    var s6 := OperatorStep(Multiply, t1, s5, [], out, CloseParen, [], out);
    var s7 := NumberStep(3, [], s6);
    OneReversed(Multiply);
    var all := [Number(1), Number(2), Plus, Number(3), Multiply];
    assert [] + [Multiply] == [Multiply] && out + [Number(3)] + [Multiply] == all;
    RunEnds(GROUPED, s7, [Multiply], out + [Number(3)], Number(3), all);
  }

  lemma SumThenProduct()
    ensures Evaluated([Number(1), Number(2), Plus, Number(3), Multiply], []) == Ok(9)
  {
    hide Evaluated;
    var sum := Sum(Sole(One(Leaf(1))), false, One(Leaf(2)));
    assert TermPostfix(One(Leaf(1))) == [Number(1)] && TermPostfix(One(Leaf(2))) == [Number(2)];
    assert ExprPostfix(sum) == [Number(1), Number(2), Plus] && ExprValue(sum) == Ok(3);
    var product := Product(One(Group(sum)), false, Leaf(3));
    assert TermPostfix(One(Group(sum))) == ExprPostfix(sum) && TermValue(One(Group(sum))) == Ok(3);
    assert TermPostfix(product) == [Number(1), Number(2), Plus, Number(3), Multiply] && TermValue(product) == Ok(9);
    PostfixEvaluates(Sole(product));
  }

  /** a + ((b) + c). */
  function Nested(a: int, b: int, c: int): Expr {
    Sum(Sole(One(Leaf(a))), false, One(Group(Sum(Sole(One(Group(Sole(One(Leaf(b)))))), false, One(Leaf(c))))))
  }

  /** An expression that is not safe can have the right value all the same, and for all numbers: the
      conversion takes a + ((b) + c) for (a + b) + c. */
  lemma UnsafeButRight(a: int, b: int, c: int)
    ensures !ExprSafe(Nested(a, b, c), false)
    ensures Converted(ExprText(Nested(a, b, c))) == Ok([Number(a), Number(b), Plus, Number(c), Plus])
    ensures ExprPostfix(Nested(a, b, c)) == [Number(a), Number(b), Number(c), Plus, Plus]
    ensures Arithmetic(ExprText(Nested(a, b, c))) == ExprValue(Nested(a, b, c)) == Ok(a + b + c)
  {
    hide Run, Evaluated, Converted;
    NestedText(a, b, c);
    NestedConverts(a, b, c);
    ThreeSummed(a, b, c);
  }

  lemma NestedText(a: int, b: int, c: int)
    ensures var e := Nested(a, b, c);
            && ExprText(e) == [Number(a), Plus, OpenParen, OpenParen, Number(b), CloseParen, Plus, Number(c), CloseParen]
            && ExprPostfix(e) == [Number(a), Number(b), Number(c), Plus, Plus]
            && ExprValue(e) == Ok(a + b + c) && !ExprSafe(e, false)
  {
    var f := Group(Sole(One(Leaf(b))));
    var d := Sum(Sole(One(f)), false, One(Leaf(c)));
    SafeParts(f, d);
    LeafIs(a);
    LeafIs(b);
    LeafIs(c);
    GroupIs(Sole(One(Leaf(b))));
    AloneIs(f);
    SumIs(Sole(One(f)), One(Leaf(c)));
    GroupIs(d);
    OneIs(Group(d));
    SumIs(Sole(One(Leaf(a))), One(Group(d)));
    hide *;
    assert ExprText(d) == [OpenParen, Number(b), CloseParen, Plus, Number(c)] && ExprPostfix(d) == [Number(b), Number(c), Plus];
    assert Nested(a, b, c) == Sum(Sole(One(Leaf(a))), false, One(Group(d))) by {
      NestedIs(a, b, c);
    }
  }

  lemma NestedIs(a: int, b: int, c: int)
    ensures Nested(a, b, c) == Sum(Sole(One(Leaf(a))), false, One(Group(Sum(Sole(One(Group(Sole(One(Leaf(b)))))), false, One(Leaf(c))))))
  {
  }

  lemma SafeParts(f: Factor, d: Expr)
    requires f.Group? && d.Sum? && d.e == Sole(One(f))
    ensures forall v :: !ExprSafe(Sum(Sole(One(Leaf(v))), false, One(Group(d))), false)
  {
    assert ExprGroups(Sole(One(f))) && !ExprSafe(d, true) && !TermSafe(One(Group(d)), true);
  }

  lemma OneIs(f: Factor)
    ensures TermText(One(f)) == FactorText(f) && TermPostfix(One(f)) == FactorPostfix(f) && TermValue(One(f)) == FactorValue(f)
  {
  }

  lemma AloneIs(f: Factor)
    ensures ExprText(Sole(One(f))) == FactorText(f) && ExprPostfix(Sole(One(f))) == FactorPostfix(f)
    ensures ExprValue(Sole(One(f))) == FactorValue(f)
  {
    OneIs(f);
  }

  lemma LeafIs(v: int)
    ensures ExprText(Sole(One(Leaf(v)))) == TermText(One(Leaf(v))) == [Number(v)]
    ensures ExprPostfix(Sole(One(Leaf(v)))) == TermPostfix(One(Leaf(v))) == [Number(v)]
    ensures ExprValue(Sole(One(Leaf(v)))) == TermValue(One(Leaf(v))) == Ok(v)
  {
    OneIs(Leaf(v));
  }

  lemma GroupIs(e: Expr)
    ensures FactorText(Group(e)) == [OpenParen] + ExprText(e) + [CloseParen]
    ensures FactorPostfix(Group(e)) == ExprPostfix(e) && FactorValue(Group(e)) == ExprValue(e)
  {
  }

  lemma SumIs(d: Expr, t: Term)
    ensures ExprText(Sum(d, false, t)) == ExprText(d) + [Plus] + TermText(t)
    ensures ExprPostfix(Sum(d, false, t)) == ExprPostfix(d) + TermPostfix(t) + [Plus]
    ensures ExprValue(d).Ok? && TermValue(t).Ok? ==> ExprValue(Sum(d, false, t)) == Ok(ExprValue(d).value + TermValue(t).value)
  {
  }

  lemma NestedConverts(a: int, b: int, c: int)
    ensures Converted([Number(a), Plus, OpenParen, OpenParen, Number(b), CloseParen, Plus, Number(c), CloseParen])
         == Ok([Number(a), Number(b), Plus, Number(c), Plus])
  {
    hide Run, Popped, Step, Converted, Pending, Reversed;
    var tokens := [Number(a), Plus, OpenParen, OpenParen, Number(b), CloseParen, Plus, Number(c), CloseParen];
    var t1, t2, t3 := [CloseParen] + [], [Number(c), CloseParen], [Plus, Number(c), CloseParen];
    var t4, t5, t6 := [CloseParen] + t3, [Number(b), CloseParen] + t3, [OpenParen, Number(b), CloseParen] + t3;
    var t7, t8 := [OpenParen] + t6, [Plus] + ([OpenParen] + t6);
    assert t2 == [Number(c)] + t1 && t3 == [Plus] + t2 && t5 == [Number(b)] + t4 && t6 == [OpenParen] + t5;
    assert tokens == [Number(a)] + t8;
    var s1 := NumberStep(a, t8, START);
    PoppedNone(Plus, [], [Number(a)]);
    var s2 := OperatorStep(Plus, t7, s1, [], [Number(a)], Number(a), [], [Number(a)]);
    var s3 := OpenStep(t6, s2);
    var s4 := OpenStep(t5, s3);
    var s5 := NumberStep(b, t4, s4);
    var s6 := CloseStep(t3, s5);
    PendingTop([] + [Plus] + [OpenParen], OpenParen);
    PendingTop([] + [Plus], OpenParen);
    PendingTop([], Plus);
    EmptyStack();
    assert s5.stack == [] + [Plus] + [OpenParen] + [OpenParen] && Pending(s5.stack) == [Plus];
    var out := [Number(a), Number(b), Plus];
    PoppedNone(Plus, [], out);
    var s7 := OperatorStep(Plus, t2, s6, [], out, CloseParen, [], out);
    var s8 := NumberStep(c, t1, s7);
    var s9 := CloseStep([], s8);
    assert s8.stack == [] + [Plus] && s8.out == out + [Number(c)];
    assert Pending(s8.stack) == [Plus];
    var all := [Number(a), Number(b), Plus, Number(c), Plus];
    assert out + [Number(c)] + [Plus] == all;
    assert all + [] == all && Reversed([]) == [];
    RunEnds(tokens, s9, [], all, CloseParen, all);
  }

  lemma ThreeSummed(a: int, b: int, c: int)
    ensures Evaluated([Number(a), Number(b), Plus, Number(c), Plus], []) == Ok(a + b + c)
  {
    hide Evaluated;
    var two := Sum(Sole(One(Leaf(a))), false, One(Leaf(b)));
    var three := Sum(two, false, One(Leaf(c)));
    LeafIs(a);
    LeafIs(b);
    LeafIs(c);
    SumIs(Sole(One(Leaf(a))), One(Leaf(b)));
    SumIs(two, One(Leaf(c)));
    hide ExprPostfix, TermPostfix, ExprValue, TermValue;
    assert ExprPostfix(three) == [Number(a), Number(b), Plus, Number(c), Plus];
    PostfixEvaluates(three);
  }

  const TWO_SIGNS := [Number(1), Minus, Minus, Minus, Number(3)]

  /** 1 - - - 3 is read as (- 1) - (- 3). */
  lemma SecondSignMovesFirst()
    ensures ExprText(Sum(Sole(One(Leaf(1))), true, One(Signed(true, Signed(true, Leaf(3)))))) == TWO_SIGNS
    ensures ExprValue(Sum(Sole(One(Leaf(1))), true, One(Signed(true, Signed(true, Leaf(3)))))) == Ok(-2)
    ensures Arithmetic(TWO_SIGNS) == Ok(2)
  {
    hide Run, Evaluated;
    SignsText();
    SignsConvert();
    DifferenceOfNegatives();
  }

  lemma SignsText()
    ensures var e := Sum(Sole(One(Leaf(1))), true, One(Signed(true, Signed(true, Leaf(3)))));
            ExprText(e) == TWO_SIGNS && ExprValue(e) == Ok(-2)
  {
    var f := Signed(true, Leaf(3));
    assert FactorText(f) == [Minus, Number(3)] && FactorValue(f) == Ok(-3);
    assert FactorText(Signed(true, f)) == [Minus, Minus, Number(3)] && FactorValue(Signed(true, f)) == Ok(3);
  }

  lemma SignsConvert()
    ensures Converted(TWO_SIGNS) == Ok([Number(1), UnaryMinus, Number(3), UnaryMinus, Minus])
  {
    hide Run, Popped, Step, Converted, Reversed;
    var t1, t2 := [Number(3)] + [], [Minus, Number(3)];
    var t3, t4 := [Minus, Minus, Number(3)], [Minus, Minus, Minus, Number(3)];
    assert TWO_SIGNS == [Number(1)] + t4 && t4 == [Minus] + t3 && t3 == [Minus] + t2 && t2 == [Minus] + t1;
    var s1 := NumberStep(1, t4, START);
    var one, signed := [Number(1)], [Number(1), UnaryMinus];
    PoppedNone(Minus, [], one);
    var s2 := OperatorStep(Minus, t3, s1, [], one, Number(1), [], one);
    PoppedNone(UnaryMinus, [Minus], one);
    var s3 := OperatorStep(Minus, t2, s2, [Minus], one, Minus, [Minus], one);
    PoppedOne(UnaryMinus, [Minus], UnaryMinus, one);
    assert one + [UnaryMinus] == signed;
    var s4 := OperatorStep(Minus, t1, s3, [Minus] + [UnaryMinus], one, UnaryMinus, [Minus], signed);
    var s5 := NumberStep(3, [], s4);
    ReversedTop([Minus], UnaryMinus);
    OneReversed(Minus);
    var all := [Number(1), UnaryMinus, Number(3), UnaryMinus, Minus];
    assert signed + [Number(3)] + ([UnaryMinus] + [Minus]) == all;
    RunEnds(TWO_SIGNS, s5, [Minus] + [UnaryMinus], signed + [Number(3)], Number(3), all);
  }

  lemma DifferenceOfNegatives()
    ensures Evaluated([Number(1), UnaryMinus, Number(3), UnaryMinus, Minus], []) == Ok(2)
  {
    var e := Sum(Sole(One(Signed(true, Leaf(1)))), true, One(Signed(true, Leaf(3))));
    hide Evaluated;
    PostfixEvaluates(e);
    assert FactorPostfix(Signed(true, Leaf(1))) == [Number(1), UnaryMinus];
    assert FactorPostfix(Signed(true, Leaf(3))) == [Number(3), UnaryMinus];
    assert FactorValue(Signed(true, Leaf(1))) == Ok(-1) && FactorValue(Signed(true, Leaf(3))) == Ok(-3);
    assert ExprPostfix(e) == [Number(1), UnaryMinus, Number(3), UnaryMinus, Minus];
  }
}
