/** `test` with one to four arguments, where the dispatch on the argument count bypasses the grammar. */
module TestArity {
  import opened TestCommand
  import opened TestMeaning

  predicate Connective(op: string) { op == "-a" || op == "-o" }

  function Opposite(v: Verdict): Verdict {
    match v
    case Holds(value) => Holds(!value)
    case Fails(_) => v
  }

  /** `first -a third` or `first -o third` as a test of two strings. */
  function Joined(first: string, op: string, third: string): Verdict {
    Holds(if op == "-a" then first != "" && third != "" else first != "" || third != "")
  }

  /** The trees that the dispatch reads differently from the grammar, each as it reads them. */
  function Dispatched(w: World, e: Tree): Verdict {
    match e
    case Not(Unary(op, operand)) =>
      if Connective(op) then Joined("!", op, operand) else Value(w, e)
    case Not(Not(Unary(op, operand))) =>
      if Connective(op) then Opposite(Joined("!", op, operand)) else Value(w, e)
    case Both(Not(Str(x)), Str(y)) => Opposite(Joined(x, "-a", y))
    case Either(Not(Str(x)), Str(y)) => Opposite(Joined(x, "-o", y))
    case Group(Str(s)) => if IsBinary(s) then EvalBinary(w, "(", s, ")") else Value(w, e)
    case Not(Group(Str(s))) => if IsBinary(s) then Opposite(EvalBinary(w, "(", s, ")")) else Value(w, e)
    case _ => Value(w, e)
  }

  lemma NotUnfolds(w: World, inner: Tree, level: Level, last: bool)
    ensures Tokens(Not(inner), level) == ["!"] + Tokens(inner, 2)
    ensures Readable(Not(inner), level, last) == Readable(inner, 2, last)
    ensures Value(w, Not(inner)) == Opposite(Value(w, inner))
  {
  }

  lemma GroupUnfolds(w: World, inner: Tree, level: Level, last: bool)
    ensures Tokens(Group(inner), level) == ["("] + Tokens(inner, 0) + [")"]
    ensures Readable(Group(inner), level, last) == Readable(inner, 0, false)
    ensures Value(w, Group(inner)) == Value(w, inner)
  {
  }

  lemma SmallShapes(e: Tree, level: Level)
    ensures |Tokens(e, level)| == 1 ==> e.Str?
    ensures |Tokens(e, level)| == 2 ==> e.Unary? || (e.Not? && e.inner.Str?)
    ensures |Tokens(e, level)| <= 2 && e.Not? ==> Tokens(e, level) == ["!", e.inner.text]
  {
    if e.Not? && !e.inner.Str? { assert |Tokens(e.inner, 2)| >= 2; }
  }

  lemma OperatorsApart(op: string)
    ensures IsUnary(op) ==> !IsBinary(op) && op != "!" && op != "("
    ensures !IsBinary("!") && !IsBinary("-a") && !IsBinary("-o") && !IsUnary("!")
  {
    assert |"-eq"| == 3 && "=="[0] == '=' && "!="[0] == '!';
  }

  lemma {:induction false} StringOrUnary(e: Tree, input: Input)
    requires Readable(e, 0, true) && input.args == Tokens(e, 0) && |input.args| <= 2
    ensures Evaluate(input) == Value(input.world, e)
  {
    hide IsBinary, IsUnary, Term, And, Or, EvalUnary, EvalBinary;
    SmallShapes(e, 0);
    if e.Unary? { OperatorsApart(e.op); }
    if e.Not? { assert input.args == ["!", e.inner.text]; }
  }

  lemma {:induction false} NegatedSmall(e: Tree, input: Input)
    requires e.Not? && Readable(e, 0, true) && input.args == Tokens(e, 0) && 3 <= |input.args| <= 4
    ensures Evaluate(input) == Dispatched(input.world, e)
  {
    hide IsBinary, IsUnary, Term, And, Or, EvalUnary, EvalBinary;
    var w, inner := input.world, e.inner;
    OperatorsApart("");
    NotUnfolds(w, inner, 0, true);
    SmallShapes(inner, 2);
    match inner
    case Unary(op, x) =>
      OperatorsApart(op);
      assert input.args == ["!", op, x];
    case Binary(l, op, r) => assert input.args == ["!", l, op, r];
    case Group(i) =>
      GroupUnfolds(w, i, 2, true);
      SmallShapes(i, 0);
      assert input.args == ["!", "(", i.text, ")"];
      assert !IsUnary(i.text) by { assert Readable(i, 0, false); }
      ConnectivesAreUnary(i.text);
    case Not(i) =>
      NotUnfolds(w, i, 2, true);
      SmallShapes(i, 2);
      DoubleNegation(i, input);
    case _ =>
  }

  lemma ConnectivesAreUnary(s: string)
    ensures Connective(s) ==> IsUnary(s)
  {
  }

  lemma {:induction false} DoubleNegation(i: Tree, input: Input)
    requires Readable(i, 2, true) && input.args == ["!", "!"] + Tokens(i, 2) && |input.args| <= 4
    ensures Evaluate(input) == Dispatched(input.world, Not(Not(i)))
  {
    hide IsBinary, IsUnary, Term, And, Or, EvalUnary, EvalBinary;
    var w := input.world;
    OperatorsApart("");
    NotUnfolds(w, Not(i), 0, true);
    NotUnfolds(w, i, 2, true);
    SmallShapes(i, 2);
    match i
    case Str(s) => assert input.args == ["!", "!", s];
    case Unary(op, x) =>
      OperatorsApart(op);
      assert input.args == ["!", "!", op, x];
    case Not(s) =>
      NotUnfolds(w, s, 2, true);
      assert input.args == ["!", "!", "!", s.text];
    case _ =>
  }

  lemma {:induction false} GroupSmall(e: Tree, input: Input)
    requires e.Group? && Readable(e, 0, true) && input.args == Tokens(e, 0) && |input.args| <= 4
    ensures Evaluate(input) == Dispatched(input.world, e)
  {
    hide IsBinary, IsUnary, Term, And, Or, EvalUnary, EvalBinary;
    GroupUnfolds(input.world, e.inner, 0, true);
    SmallShapes(e.inner, 0);
    OperatorsApart("");
    match e.inner
    case Str(s) =>
      assert input.args == ["(", s, ")"];
      ConnectivesAreUnary(s);
    case Unary(op, x) =>
      OperatorsApart(op);
      assert input.args == ["(", op, x, ")"];
    case Not(i) =>
      NotUnfolds(input.world, i, 0, false);
      assert input.args == ["(", "!", i.text, ")"];
  }

  lemma {:induction false} PairSmall(e: Tree, input: Input)
    requires (e.Both? || e.Either?) && Readable(e, 0, true) && input.args == Tokens(e, 0) && |input.args| <= 4
    ensures Evaluate(input) == Dispatched(input.world, e)
  {
    hide IsBinary, Term, And, Or, EvalUnary, EvalBinary;
    var strong, weak: Level := if e.Both? then 2 else 1, if e.Both? then 1 else 0;
    var a, b := Tokens(e.first, strong), Tokens(e.second, weak);
    var op := if e.Both? then "-a" else "-o";
    assert input.args == a + [op] + b;
    SmallShapes(e.first, strong);
    SmallShapes(e.second, weak);
    OperatorsApart("");
    if |a| == 1 && |b| == 1 {
      assert input.args == [e.first.text, op, e.second.text];
      assert "-a"[1] != "-o"[1];
      assert Value(input.world, e.first) == Holds(input.Arg(1) != "");
      assert Value(input.world, e.second) == Holds(input.Arg(3) != "");
      assert ThreeArguments(input, 1) == Verify(Joined(input.Arg(1), op, input.Arg(3)), 4);
    } else if |a| == 2 && e.first.Not? {
      assert input.args == ["!", e.first.inner.text, op, e.second.text];
    } else {
      assert |input.args| == 4 && input.args[0] == a[0];
      if e.first.Unary? { OperatorsApart(e.first.op); }
      assert a[0] != "!" && a[0] != "(";
      GrammarMeaning(e, input.bracket, input.world);
      assert input == Input(Tokens(e, 0), input.bracket, input.world);
    }
  }

  /** With at most four arguments the dispatch gives every readable tree the meaning above: its own
      value, but for a connective read as a unary operator under `!`, a negated first string of a pair,
      and a binary operator as the one string of a group. */
  lemma DispatchMeaning(e: Tree, bracket: bool, w: World)
    requires Readable(e, 0, true) && |Tokens(e, 0)| <= 4
    ensures Evaluate(Input(Tokens(e, 0), bracket, w)) == Dispatched(w, e)
  {
    hide IsBinary, IsUnary, Term, And, Or, EvalUnary, EvalBinary;
    var input := Input(Tokens(e, 0), bracket, w);
    SmallShapes(e, 0);
    if |input.args| <= 2 {
      StringOrUnary(e, input);
    } else {
      match e
      case Not(_) => NegatedSmall(e, input);
      case Group(_) => GroupSmall(e, input);
      case Binary(l, op, r) => assert input.args == [l, op, r];
      case _ => PairSmall(e, input);
    }
  }

  /** When the dispatch happens to give the tree's own value. */
  predicate DispatchAgrees(w: World, e: Tree) {
    match e
    case Not(Unary(op, operand)) => Connective(op) ==> w.unary(op, operand) != (op == "-o" || operand != "")
    case Not(Not(Unary(op, operand))) => Connective(op) ==> w.unary(op, operand) != (op == "-o" || operand != "")
    case Both(Not(Str(_)), Str(y)) => y != ""
    case Either(Not(Str(_)), Str(y)) => y == ""
    case Group(Str(s)) => IsBinary(s) ==> EvalBinary(w, "(", s, ")") == Holds(true)
    case Not(Group(Str(s))) => IsBinary(s) ==> EvalBinary(w, "(", s, ")") == Holds(true)
    case _ => true
  }

  /** On at most four arguments the dispatch and the grammar give the same verdict exactly there. */
  lemma {:induction false} ArityAgreement(e: Tree, bracket: bool, w: World)
    requires Readable(e, 0, true) && |Tokens(e, 0)| <= 4
    ensures var input := Input(Tokens(e, 0), bracket, w);
            Evaluate(input) == Consumed(input, Expr(input, 1)) <==> DispatchAgrees(w, e)
  {
    hide IsBinary, Term, And, Or, EvalBinary, Readable, Tokens, Evaluate;
    DispatchMeaning(e, bracket, w);
    GrammarMeaning(e, bracket, w);
    match e
    case Not(Unary(op, x)) => ConnectiveUnary(w, op, x);
    case Not(Not(i)) =>
      NotUnfolds(w, i, 2, true);
      NotUnfolds(w, Not(i), 0, true);
      if i.Unary? { ConnectiveUnary(w, i.op, i.operand); }
    case Group(Str(s)) =>
      GroupUnfolds(w, Str(s), 0, true);
      OperatorNotEmpty(s);
    case Not(Group(Str(s))) =>
      GroupUnfolds(w, Str(s), 2, true);
      NotUnfolds(w, Group(Str(s)), 0, true);
      OperatorNotEmpty(s);
    case Both(Not(Str(x)), Str(y)) => NotUnfolds(w, Str(x), 2, false);
    case Either(Not(Str(x)), Str(y)) => NotUnfolds(w, Str(x), 2, false);
    case _ =>
  }

  lemma ConnectiveUnary(w: World, op: string, x: string)
    ensures Connective(op) ==> EvalUnary(w, op, x) == Holds(w.unary(op, x))
  {
  }

  lemma OperatorNotEmpty(s: string)
    ensures IsBinary(s) ==> s != ""
  {
  }
}
