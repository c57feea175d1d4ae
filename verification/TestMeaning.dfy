/** What `test` makes of a printed expression tree. */
module TestMeaning {
  import opened TestCommand

  datatype Tree =
    | Str(text: string)
    | Unary(op: string, operand: string)
    | Binary(left: string, op: string, right: string)
    | Not(inner: Tree)
    | Group(inner: Tree)
    | Both(first: Tree, second: Tree)
    | Either(first: Tree, second: Tree)

  /** Both sides are always evaluated, so the leftmost error wins whatever the truth values are. */
  function Value(w: World, e: Tree): Verdict {
    match e
    case Str(text) => Holds(text != "")
    case Unary(op, operand) => EvalUnary(w, op, operand)
    case Binary(left, op, right) => EvalBinary(w, left, op, right)
    case Not(inner) => (match Value(w, inner) case Holds(v) => Holds(!v) case Fails(error) => Fails(error))
    case Group(inner) => Value(w, inner)
    case Both(first, second) => Strict(Value(w, first), Value(w, second), true)
    case Either(first, second) => Strict(Value(w, first), Value(w, second), false)
  }

  function Strict(a: Verdict, b: Verdict, both: bool): Verdict {
    if a.Fails? then a
    else if b.Fails? then b
    else Holds(if both then a.value && b.value else a.value || b.value)
  }

  /** Binding strength a position asks for: 0 takes anything, 1 no bare `-o`, 2 no bare `-o` or `-a`. */
  type Level = n: nat | n <= 2

  predicate Wrapped(e: Tree, level: Level) { (e.Either? && level > 0) || (e.Both? && level > 1) }

  function Tokens(e: Tree, level: Level): (ts: seq<string>)
    ensures ts != []
    decreases e, if Wrapped(e, level) then 1 else 0
  {
    if Wrapped(e, level) then ["("] + Tokens(e, 0) + [")"]
    else
      match e
      case Str(text) => [text]
      case Unary(op, operand) => [op, operand]
      case Binary(left, op, right) => [left, op, right]
      case Not(inner) => ["!"] + Tokens(inner, 2)
      case Group(inner) => ["("] + Tokens(inner, 0) + [")"]
      case Both(first, second) => Tokens(first, 2) + ["-a"] + Tokens(second, 1)
      case Either(first, second) => Tokens(first, 1) + ["-o"] + Tokens(second, 0)
  }

  /** The leaves cannot be taken for operators where they stand; `last` says that no token follows. */
  predicate Readable(e: Tree, level: Level, last: bool)
    decreases e, if Wrapped(e, level) then 1 else 0
  {
    if Wrapped(e, level) then Readable(e, 0, false)
    else
      match e
      case Str(text) => text != "!" && text != "(" && (IsUnary(text) ==> last)
      case Unary(op, operand) =>
        IsUnary(op) && (IsBinary(operand) ==> last) && (op == "-t" ==> ParseInt(operand).Some?)
      case Binary(left, op, right) => IsBinary(op) && left != "!" && left != "("
      case Not(inner) => Readable(inner, 2, last)
      case Group(inner) => Readable(inner, 0, false)
      case Both(first, second) => Readable(first, 2, false) && Readable(second, 1, last)
      case Either(first, second) => Readable(first, 1, false) && Readable(second, 0, last)
  }

  predicate At(input: Input, pos: nat, ts: seq<string>) {
    && 1 <= pos && pos + |ts| <= input.Argc()
    && input.args[pos - 1..pos - 1 + |ts|] == ts
  }

  /** Nothing that the expression before could go on with stands at `pos`. */
  predicate Ends(input: Input, pos: nat, level: Level) {
    pos == input.Argc() || input.Sees(pos, ")") || (level >= 1 && input.Sees(pos, "-o")) ||
      (level >= 2 && input.Sees(pos, "-a"))
  }

  lemma AtSplit(input: Input, pos: nat, a: seq<string>, b: seq<string>)
    ensures At(input, pos, a + b) <==> At(input, pos, a) && At(input, pos + |a|, b)
  {
    if At(input, pos, a) && At(input, pos + |a|, b) {
      assert input.args[pos - 1..pos - 1 + |a + b|] ==
             input.args[pos - 1..pos - 1 + |a|] + input.args[pos - 1 + |a|..pos - 1 + |a| + |b|];
    }
    if At(input, pos, a + b) {
      var all := input.args[pos - 1..pos - 1 + |a + b|];
      assert all[..|a|] == a && all[|a|..] == b;
    }
  }

  lemma AtOne(input: Input, pos: nat, t: string)
    ensures At(input, pos, [t]) <==> input.Sees(pos, t)
  {
    if input.Sees(pos, t) { assert input.args[pos - 1..pos] == [t]; }
    if At(input, pos, [t]) { assert input.args[pos - 1..pos][0] == t; }
  }

  /** The tokens an expression can end before are no binary operators, and not its own connectives. */
  lemma EndsStop(input: Input, pos: nat, level: Level)
    requires Ends(input, pos, level)
    ensures !IsBinary(input.Arg(pos))
    ensures level <= 1 ==> !input.Sees(pos, "-a")
    ensures level == 0 ==> !input.Sees(pos, "-o")
  {
    var t := input.Arg(pos);
    assert t == "" || t == ")" || t == "-o" || t == "-a";
    assert ")"[0] == ')' && "-a"[1] == 'a' && "-o"[1] == 'o';
  }

  /** Where the two sides and the connective of a printed pair stand. */
  lemma AtJoined(input: Input, pos: nat, a: seq<string>, op: string, b: seq<string>)
    requires At(input, pos, a + [op] + b)
    ensures At(input, pos, a) && input.Sees(pos + |a|, op) && At(input, pos + |a| + 1, b)
  {
    AtSplit(input, pos, a + [op], b);
    AtSplit(input, pos, a, [op]);
    AtOne(input, pos + |a|, op);
  }

  lemma TokensSeen(input: Input, pos: nat, ts: seq<string>)
    requires At(input, pos, ts)
    ensures forall i | 0 <= i < |ts| :: input.Arg(pos + i) == ts[i]
  {
    var slice := input.args[pos - 1..pos - 1 + |ts|];
    forall i | 0 <= i < |ts| ensures input.Arg(pos + i) == ts[i] {
      assert slice[i] == ts[i];
    }
  }

  /** The three grammar functions, by the level they read at. */
  function ParseAt(input: Input, pos: nat, level: Level): Parse
    requires 1 <= pos <= input.Argc()
  {
    if level == 0 then Or(input, pos) else if level == 1 then And(input, pos) else Term(input, pos)
  }

  /** The tree stands printed at `pos`, before something it does not go on with. */
  predicate Printed(input: Input, pos: nat, e: Tree, level: Level) {
    var after := pos + |Tokens(e, level)|;
    At(input, pos, Tokens(e, level)) && Ends(input, after, level) && Readable(e, level, after == input.Argc())
  }

  /** The grammar reads the value of the tree there and stops right after it. */
  predicate Understood(input: Input, pos: nat, e: Tree, level: Level) {
    && 1 <= pos <= input.Argc()
    && ParseAt(input, pos, level) == Verify(Value(input.world, e), pos + |Tokens(e, level)|)
  }

  // ----- From a tree to its parts, and back

  lemma EitherUnfolds(a: Tree, b: Tree, last: bool)
    ensures Tokens(Either(a, b), 0) == Tokens(a, 1) + ["-o"] + Tokens(b, 0)
    ensures Readable(Either(a, b), 0, last) <==> Readable(a, 1, false) && Readable(b, 0, last)
  {
    hide IsBinary, IsUnary;
  }

  lemma EitherParts(input: Input, pos: nat, a: Tree, b: Tree)
    requires Printed(input, pos, Either(a, b), 0)
    ensures var middle := pos + |Tokens(a, 1)|;
            Printed(input, pos, a, 1) && input.Sees(middle, "-o") && Printed(input, middle + 1, b, 0)
  {
    hide IsBinary, IsUnary, Tokens, Readable, At, Wrapped;
    EitherUnfolds(a, b, pos + |Tokens(Either(a, b), 0)| == input.Argc());
    AtJoined(input, pos, Tokens(a, 1), "-o", Tokens(b, 0));
  }

  lemma OrReads(input: Input, pos: nat, a: Verdict, middle: nat, b: Verdict, end: nat)
    requires 1 <= pos <= input.Argc() && input.Sees(middle, "-o")
    requires And(input, pos) == Verify(a, middle) && Or(input, middle + 1) == Verify(b, end)
    ensures Or(input, pos) == Verify(Strict(a, b, false), end)
  {
    hide IsBinary, IsUnary, Term, And, UnaryAt, BinaryAt;
  }

  lemma AndReads(input: Input, pos: nat, a: Verdict, middle: nat, b: Verdict, end: nat)
    requires 1 <= pos <= input.Argc() && input.Sees(middle, "-a")
    requires Term(input, pos) == Verify(a, middle) && And(input, middle + 1) == Verify(b, end)
    ensures And(input, pos) == Verify(Strict(a, b, true), end)
  {
    hide IsBinary, IsUnary, Term, Or, UnaryAt, BinaryAt;
  }

  lemma EitherWhole(input: Input, pos: nat, a: Tree, b: Tree)
    requires Understood(input, pos, a, 1)
    requires var middle := pos + |Tokens(a, 1)|; input.Sees(middle, "-o") && Understood(input, middle + 1, b, 0)
    ensures Understood(input, pos, Either(a, b), 0)
  {
    hide IsBinary, IsUnary, Term, And, Or, UnaryAt, BinaryAt;
    var middle, w := pos + |Tokens(a, 1)|, input.world;
    assert |Tokens(Either(a, b), 0)| == |Tokens(a, 1)| + 1 + |Tokens(b, 0)|;
    OrReads(input, pos, Value(w, a), middle, Value(w, b), middle + 1 + |Tokens(b, 0)|);
  }

  lemma BothUnfolds(a: Tree, b: Tree, last: bool)
    ensures Tokens(Both(a, b), 1) == Tokens(a, 2) + ["-a"] + Tokens(b, 1)
    ensures Readable(Both(a, b), 1, last) <==> Readable(a, 2, false) && Readable(b, 1, last)
  {
    hide IsBinary, IsUnary;
  }

  lemma BothParts(input: Input, pos: nat, a: Tree, b: Tree)
    requires Printed(input, pos, Both(a, b), 1)
    ensures var middle := pos + |Tokens(a, 2)|;
            Printed(input, pos, a, 2) && input.Sees(middle, "-a") && Printed(input, middle + 1, b, 1)
  {
    hide IsBinary, IsUnary, Tokens, Readable, At, Wrapped;
    BothUnfolds(a, b, pos + |Tokens(Both(a, b), 1)| == input.Argc());
    AtJoined(input, pos, Tokens(a, 2), "-a", Tokens(b, 1));
  }

  lemma BothWhole(input: Input, pos: nat, a: Tree, b: Tree)
    requires Understood(input, pos, a, 2)
    requires var middle := pos + |Tokens(a, 2)|; input.Sees(middle, "-a") && Understood(input, middle + 1, b, 1)
    ensures Understood(input, pos, Both(a, b), 1)
  {
    hide IsBinary, IsUnary, Term, And, Or, UnaryAt, BinaryAt;
    var middle, w := pos + |Tokens(a, 2)|, input.world;
    assert |Tokens(Both(a, b), 1)| == |Tokens(a, 2)| + 1 + |Tokens(b, 1)|;
    AndReads(input, pos, Value(w, a), middle, Value(w, b), middle + 1 + |Tokens(b, 1)|);
  }

  /** The text between the parentheses of a group, or of a pair too weak for its place. */
  predicate Parenthesized(e: Tree, level: Level, inner: Tree) {
    if Wrapped(e, level) then inner == e else e == Group(inner)
  }

  lemma ParenthesizedAlike(w: World, e: Tree, inner: Tree, last: bool)
    requires Parenthesized(e, 2, inner)
    ensures Tokens(e, 2) == ["("] + Tokens(inner, 0) + [")"]
    ensures Readable(e, 2, last) == Readable(inner, 0, false) && Value(w, e) == Value(w, inner)
  {
    hide IsBinary, IsUnary, EvalUnary, EvalBinary;
  }

  lemma GroupParts(input: Input, pos: nat, e: Tree, inner: Tree)
    requires Parenthesized(e, 2, inner) && Printed(input, pos, e, 2)
    ensures input.Sees(pos, "(") && Printed(input, pos + 1, inner, 0) && input.Sees(pos + 1 + |Tokens(inner, 0)|, ")")
  {
    hide IsBinary, IsUnary, Tokens, Readable, At;
    var ts := Tokens(inner, 0);
    ParenthesizedAlike(input.world, e, inner, pos + |Tokens(e, 2)| == input.Argc());
    AtSplit(input, pos, ["("] + ts, [")"]);
    AtSplit(input, pos, ["("], ts);
    AtOne(input, pos, "(");
    AtOne(input, pos + 1 + |ts|, ")");
  }

  lemma TermGroup(input: Input, pos: nat)
    requires input.Sees(pos, "(") && pos + 1 < input.Argc()
    requires Or(input, pos + 1).Parsed? ==> input.Sees(Or(input, pos + 1).pos, ")")
    ensures Term(input, pos) == match Or(input, pos + 1)
                                case Failed(error) => Failed(error)
                                case Parsed(value, after) => Parsed(value, after + 1)
  {
    hide IsBinary, IsUnary, And, Or, UnaryAt, BinaryAt;
    assert "("[0] != "!"[0];
  }

  lemma GroupWhole(input: Input, pos: nat, e: Tree, inner: Tree)
    requires Parenthesized(e, 2, inner) && Understood(input, pos + 1, inner, 0)
    requires input.Sees(pos, "(") && input.Sees(pos + 1 + |Tokens(inner, 0)|, ")")
    ensures Understood(input, pos, e, 2)
  {
    hide IsBinary, IsUnary, Term, And, Or, UnaryAt, BinaryAt;
    ParenthesizedAlike(input.world, e, inner, false);
    TermGroup(input, pos);
  }

  lemma NotParts(input: Input, pos: nat, inner: Tree)
    requires Printed(input, pos, Not(inner), 2)
    ensures input.Sees(pos, "!") && pos + 1 < input.Argc() && Printed(input, pos + 1, inner, 2)
  {
    hide IsBinary, IsUnary;
    AtSplit(input, pos, ["!"], Tokens(inner, 2));
    AtOne(input, pos, "!");
  }

  lemma NotWhole(input: Input, pos: nat, inner: Tree)
    requires input.Sees(pos, "!") && pos + 1 < input.Argc() && Understood(input, pos + 1, inner, 2)
    ensures Understood(input, pos, Not(inner), 2)
  {
    hide IsBinary, IsUnary, And, Or, UnaryAt, BinaryAt;
    assert Term(input, pos) == Negated(Term(input, pos + 1));
  }

  /** A printed tree that is no pair of the level is printed alike for the next level. */
  lemma StrongerLevel(input: Input, pos: nat, e: Tree, level: Level)
    requires Printed(input, pos, e, level) && level < 2
    requires Wrapped(e, level) || !(if level == 0 then e.Either? else e.Both?)
    ensures Printed(input, pos, e, level + 1)
  {
    hide IsBinary, IsUnary;
    assert Tokens(e, level + 1) == Tokens(e, level);
  }

  lemma WeakerLevel(input: Input, pos: nat, e: Tree, level: Level)
    requires Printed(input, pos, e, level) && level < 2
    requires Wrapped(e, level) || !(if level == 0 then e.Either? else e.Both?)
    requires Understood(input, pos, e, level + 1)
    ensures Understood(input, pos, e, level)
  {
    hide IsBinary, IsUnary, Term, UnaryAt, BinaryAt;
    var after := pos + |Tokens(e, level)|;
    assert Tokens(e, level + 1) == Tokens(e, level);
    EndsStop(input, after, level);
    if level == 0 { NoOr(input, pos); } else { NoAnd(input, pos); }
  }

  lemma NoOr(input: Input, pos: nat)
    requires 1 <= pos <= input.Argc()
    requires var r := And(input, pos); r.Parsed? ==> !input.Sees(r.pos, "-o")
    ensures Or(input, pos) == And(input, pos)
  {
    hide IsBinary, IsUnary, Term, And, UnaryAt, BinaryAt;
  }

  lemma NoAnd(input: Input, pos: nat)
    requires 1 <= pos <= input.Argc()
    requires var r := Term(input, pos); r.Parsed? ==> !input.Sees(r.pos, "-a")
    ensures And(input, pos) == Term(input, pos)
  {
    hide IsBinary, IsUnary, Term, UnaryAt, BinaryAt;
  }

  // ----- Leaves

  lemma BinaryReads(input: Input, pos: nat)
    requires 1 <= pos && pos + 3 <= input.Argc()
    requires IsBinary(input.Arg(pos + 1)) && input.Arg(pos) != "!" && input.Arg(pos) != "("
    ensures Term(input, pos) == BinaryAt(input, pos)
  {
    hide IsBinary, IsUnary, And, Or, UnaryAt, BinaryAt;
  }

  lemma UnaryReads(input: Input, pos: nat)
    requires 1 <= pos && pos + 2 <= input.Argc() && IsUnary(input.Arg(pos))
    requires IsBinary(input.Arg(pos + 1)) ==> pos + 2 == input.Argc()
    ensures Term(input, pos) == UnaryAt(input, pos)
  {
    hide IsBinary, And, Or, UnaryAt, BinaryAt;
    assert |"!"| == 1 && |"("| == 1;
  }

  lemma StrReads(input: Input, pos: nat)
    requires 1 <= pos < input.Argc() && input.Arg(pos) != "!" && input.Arg(pos) != "("
    requires IsUnary(input.Arg(pos)) ==> pos + 1 == input.Argc()
    requires !IsBinary(input.Arg(pos + 1))
    ensures Term(input, pos) == Parsed(input.Arg(pos) != "", pos + 1)
  {
    hide IsBinary, IsUnary, And, Or, UnaryAt, BinaryAt;
  }

  lemma LeafReads(input: Input, pos: nat, e: Tree)
    requires (e.Str? || e.Unary? || e.Binary?) && Printed(input, pos, e, 2)
    ensures Understood(input, pos, e, 2)
  {
    hide IsBinary, IsUnary, Term, And, Or, EvalUnary, EvalBinary;
    var ts := Tokens(e, 2);
    TokensSeen(input, pos, ts);
    EndsStop(input, pos + |ts|, 2);
    assert input.Arg(pos + 0) == ts[0];
    match e
    case Str(text) =>
      StrReads(input, pos);
    case Unary(op, operand) =>
      assert input.Arg(pos + 1) == ts[1];
      UnaryReads(input, pos);
    case Binary(left, op, right) =>
      assert input.Arg(pos + 1) == ts[1] && input.Arg(pos + 2) == ts[2];
      BinaryReads(input, pos);
  }

  // ----- Trees

  lemma {:induction false} TreeReads(input: Input, pos: nat, e: Tree, level: Level)
    requires Printed(input, pos, e, level)
    ensures Understood(input, pos, e, level)
    decreases e, if e.Both? || e.Either? then (if Wrapped(e, level) then 4 + (2 - level) else 2 - level) else 2 - level
  {
    hide Printed, Understood, Tokens;
    if level < 2 {
      if level == 0 && e.Either? {
        EitherParts(input, pos, e.first, e.second);
        TreeReads(input, pos, e.first, 1);
        TreeReads(input, pos + |Tokens(e.first, 1)| + 1, e.second, 0);
        EitherWhole(input, pos, e.first, e.second);
      } else if level == 1 && e.Both? {
        BothParts(input, pos, e.first, e.second);
        TreeReads(input, pos, e.first, 2);
        TreeReads(input, pos + |Tokens(e.first, 2)| + 1, e.second, 1);
        BothWhole(input, pos, e.first, e.second);
      } else {
        StrongerLevel(input, pos, e, level);
        TreeReads(input, pos, e, level + 1);
        WeakerLevel(input, pos, e, level);
      }
    } else if e.Not? {
      NotParts(input, pos, e.inner);
      TreeReads(input, pos + 1, e.inner, 2);
      NotWhole(input, pos, e.inner);
    } else if e.Group? || e.Both? || e.Either? {
      var inner := if e.Group? then e.inner else e;
      GroupParts(input, pos, e, inner);
      TreeReads(input, pos + 1, inner, 0);
      GroupWhole(input, pos, e, inner);
    } else {
      LeafReads(input, pos, e);
    }
  }

  /** Read by the grammar, every printed tree has its own value, whatever its size. */
  lemma GrammarMeaning(e: Tree, bracket: bool, w: World)
    requires Readable(e, 0, true)
    ensures var input := Input(Tokens(e, 0), bracket, w);
            Expr(input, 1) == Verify(Value(w, e), input.Argc())
  {
    hide IsBinary, IsUnary, Term, And, Or, Value, Readable;
    var input := Input(Tokens(e, 0), bracket, w);
    assert input.args[0..|input.args|] == input.args;
    TreeReads(input, 1, e, 0);
  }

  /** An expression of five or more tokens has the value of its tree. */
  lemma ExpressionMeaning(e: Tree, bracket: bool, w: World)
    requires Readable(e, 0, true) && |Tokens(e, 0)| >= 5
    ensures Evaluate(Input(Tokens(e, 0), bracket, w)) == Value(w, e)
  {
    hide Or, Value, Readable, TwoArguments, ThreeArguments;
    GrammarMeaning(e, bracket, w);
  }

  // ----- Where the leaf conditions come from

  /** A string is read as itself exactly when it is readable. */
  lemma StringExact(input: Input, pos: nat)
    requires 1 <= pos < input.Argc() && Ends(input, pos + 1, 2)
    ensures var s := input.Arg(pos);
            Term(input, pos) == Parsed(s != "", pos + 1) <==> Readable(Str(s), 2, pos + 1 == input.Argc())
  {
    hide IsBinary, And, Or, EvalUnary;
    EndsStop(input, pos + 1, 2);
    var s := input.Arg(pos);
    assert "!"[0] != "("[0] && |"!"| == |"("| == 1;
    if s == "!" && pos + 1 < input.Argc() {
      assert Term(input, pos) == Negated(Term(input, pos + 1));
    } else if s != "!" && s != "(" && IsUnary(s) && pos + 1 < input.Argc() {
      UnaryReads(input, pos);
    }
  }

  /** A unary test is read as itself exactly when it is readable. */
  lemma UnaryExact(input: Input, pos: nat)
    requires 1 <= pos && pos + 2 <= input.Argc() && IsUnary(input.Arg(pos)) && Ends(input, pos + 2, 2)
    ensures var op, operand := input.Arg(pos), input.Arg(pos + 1);
            Term(input, pos) == Verify(EvalUnary(input.world, op, operand), pos + 2) <==>
            Readable(Unary(op, operand), 2, pos + 2 == input.Argc())
  {
    hide IsBinary, And, Or, EvalBinary;
    assert |"!"| == 1 && |"("| == 1;
    if IsBinary(input.Arg(pos + 1)) && pos + 3 <= input.Argc() {
      assert Term(input, pos) == BinaryAt(input, pos);
    } else {
      UnaryReads(input, pos);
    }
  }

  /** A comparison that has a value is read as itself exactly when its left string is not `!`, and not `(` either
      unless the whole is `( op )`, which is read as a group holding a string, and the comparison happens to hold as
      that does. */
  lemma BinaryExact(input: Input, pos: nat)
    requires 1 <= pos && pos + 3 <= input.Argc() && IsBinary(input.Arg(pos + 1)) && Ends(input, pos + 3, 2)
    requires EvalBinary(input.world, input.Arg(pos), input.Arg(pos + 1), input.Arg(pos + 2)).Holds?
    ensures var left, op, right := input.Arg(pos), input.Arg(pos + 1), input.Arg(pos + 2);
            Term(input, pos) == BinaryAt(input, pos) <==>
            left != "!" && (left == "(" ==> right == ")" && EvalBinary(input.world, left, op, right) == Holds(true))
  {
    OperatorPlain(input.Arg(pos + 1));
    if input.Arg(pos) == "!" {
      NegatedOperator(input, pos);
    } else if input.Arg(pos) == "(" {
      GroupedOperator(input, pos);
    } else {
      BinaryReads(input, pos);
    }
  }

  lemma OperatorPlain(op: string)
    requires IsBinary(op)
    ensures op != "!" && op != "(" && op != "" && !IsUnary(op)
    ensures !IsBinary(")")
  {
    assert |"!"| == 1 && |"("| == 1 && |")"| == 1;
    assert ")"[0] == ')' && "!"[0] == '!' && "("[0] == '(';
  }

  lemma NegatedOperator(input: Input, pos: nat)
    requires 1 <= pos && pos + 3 <= input.Argc() && input.Sees(pos, "!") && IsBinary(input.Arg(pos + 1))
    ensures Term(input, pos).Parsed? ==> Term(input, pos).pos != pos + 3
  {
    OperatorPlain(input.Arg(pos + 1));
    hide IsBinary, IsUnary, And, Or, EvalUnary, EvalBinary;
  }

  lemma GroupedOperator(input: Input, pos: nat)
    requires 1 <= pos && pos + 3 <= input.Argc() && input.Sees(pos, "(") && IsBinary(input.Arg(pos + 1))
    ensures Term(input, pos).Parsed? && Term(input, pos).pos == pos + 3 ==> input.Arg(pos + 2) == ")"
    ensures input.Arg(pos + 2) == ")" ==> Term(input, pos) == Parsed(true, pos + 3)
  {
    OperatorPlain(input.Arg(pos + 1));
    assert "!" != "(" && ")" != "-a" && ")" != "-o";
    hide IsBinary, IsUnary, EvalUnary, EvalBinary;
    if input.Arg(pos + 2) == ")" {
      assert Term(input, pos + 1) == Parsed(true, pos + 2);
      assert And(input, pos + 1) == Parsed(true, pos + 2);
      assert Or(input, pos + 1) == Parsed(true, pos + 2);
    }
  }

  /** A comparison whose left string is `(` is taken for a group: `( = ) -a x` holds, though `(` differs from `)`. */
  lemma OpenParenthesisMisread(w: World)
    ensures var e := Both(Binary("(", "=", ")"), Str("x"));
            Evaluate(Input(Tokens(e, 0), false, w)) == Holds(true) && Value(w, e) == Holds(false)
  {
    var e := Both(Binary("(", "=", ")"), Str("x"));
    var input := Input(Tokens(e, 0), false, w);
    assert input.args == ["(", "=", ")", "-a", "x"];
    assert "(" != ")" by { assert "("[0] != ")"[0]; }
    assert Value(w, e.first) == Holds(false);
    var grouped := Both(Group(Str("=")), Str("x"));
    assert Tokens(Group(Str("=")), 2) == ["(", "=", ")"];
    assert Tokens(grouped, 0) == input.args;
    assert Value(w, Str("=")) == Holds(true);
    assert Value(w, Group(Str("="))) == Holds(true);
    assert Value(w, grouped) == Holds(true);
    assert Readable(Group(Str("=")), 2, false);
    ExpressionMeaning(grouped, false, w);
  }
}
