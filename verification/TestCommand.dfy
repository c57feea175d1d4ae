/** The `test` and `[` builtins: arity dispatch over a recursive-descent parser that evaluates as it reads. */
module TestCommand {
  import opened Text

  datatype Error =
    | ArgumentExpected
    | UnaryExpected(token: string)
    | BinaryExpected(token: string)
    | IntegerExpected(token: string)
    | ParenExpected
    | ParenFound(token: string)
    | Unexpected(token: string)
    | TooManyArguments

  datatype Verdict = Holds(value: bool) | Fails(error: Error)

  /** The answers of the host: file, terminal and variable tests of one operand, file comparisons of two. */
  datatype World = World(unary: (string, string) -> bool, files: (string, string, string) -> bool)

  // ----- Leaves

  predicate IsUnary(op: string) {
    |op| == 2 && op[0] == '-' && op[1] in {'a', 'b', 'c', 'd', 'e', 'f', 'g', 'h', 'L', 'k', 'p', 'r', 's', 'S',
                                           't', 'u', 'w', 'x', 'z', 'n', 'o', 'v', 'R', 'O', 'G', 'N'}
  }

  predicate IsBinary(op: string) {
    op in {"=", "==", "!=", "<", ">", "-eq", "-ne", "-lt", "-le", "-gt", "-ge", "-nt", "-ot", "-ef"}
  }

  /** `str::parse::<i64>`. */
  function ParseInt(s: string): Option<int> {
    var negative := s != "" && s[0] == '-';
    var digits := if s != "" && s[0] in {'-', '+'} then s[1..] else s;
    if digits == "" || exists c | c in digits :: !IsDigit(c) then None
    else
      var n := DigitsValue(digits);
      var value := if negative then -n else n;
      if -0x8000_0000_0000_0000 <= value < 0x8000_0000_0000_0000 then Some(value) else None
  }

  function EvalUnary(w: World, op: string, operand: string): Verdict {
    if op == "-z" then Holds(operand == "")
    else if op == "-n" then Holds(operand != "")
    else if IsUnary(op) then Holds(w.unary(op, operand))
    else Fails(UnaryExpected(op))
  }

  function Compare(op: string, a: int, b: int): bool {
    match op
    case "-eq" => a == b
    case "-ne" => a != b
    case "-lt" => a < b
    case "-le" => a <= b
    case "-gt" => a > b
    case _ => a >= b
  }

  function EvalBinary(w: World, left: string, op: string, right: string): Verdict {
    if op in {"=", "=="} then Holds(left == right)
    else if op == "!=" then Holds(left != right)
    else if op == "<" then Holds(Less(left, right))
    else if op == ">" then Holds(Less(right, left))
    else if op in {"-eq", "-ne", "-lt", "-le", "-gt", "-ge"} then
      match ParseInt(left)
      case None => Fails(IntegerExpected(left))
      case Some(a) =>
        match ParseInt(right)
        case None => Fails(IntegerExpected(right))
        case Some(b) => Holds(Compare(op, a, b))
    else if op in {"-nt", "-ot", "-ef"} then Holds(w.files(op, left, right))
    else Fails(BinaryExpected(op))
  }

  // ----- Grammar: the value of the tokens from a position, and the position after them

  datatype Parse = Parsed(value: bool, pos: nat) | Failed(error: Error)

  datatype Input = Input(args: seq<string>, bracket: bool, world: World) {
    /** Positions count the command word: token `i` is the `i`-th argument, for 1 <= i < Argc(). */
    function Argc(): nat { |args| + 1 }

    function Arg(i: nat): string { if 1 <= i < Argc() then args[i - 1] else "" }

    predicate Sees(pos: nat, token: string) { 1 <= pos < Argc() && args[pos - 1] == token }
  }

  function Verify(v: Verdict, pos: nat): Parse {
    match v
    case Holds(value) => Parsed(value, pos)
    case Fails(error) => Failed(error)
  }

  function Negated(p: Parse): Parse {
    match p
    case Parsed(value, pos) => Parsed(!value, pos)
    case Failed(_) => p
  }

  function UnaryAt(input: Input, pos: nat): Parse {
    var op, operand := input.Arg(pos), input.Arg(pos + 1);
    if op == "-t" then
      if pos + 1 >= input.Argc() then Verify(EvalUnary(input.world, "-t", "1"), pos + 1)
      else if ParseInt(operand).Some? then Verify(EvalUnary(input.world, "-t", operand), pos + 2)
      else Parsed(false, pos + 1)
    else if pos + 1 >= input.Argc() then Failed(ArgumentExpected)
    else Verify(EvalUnary(input.world, op, operand), pos + 2)
  }

  function BinaryAt(input: Input, pos: nat): Parse {
    Verify(EvalBinary(input.world, input.Arg(pos), input.Arg(pos + 1), input.Arg(pos + 2)), pos + 3)
  }

  function Term(input: Input, pos: nat): (r: Parse)
    requires 1 <= pos <= input.Argc()
    ensures r.Parsed? ==> pos < r.pos <= input.Argc()
    decreases input.Argc() - pos, 0
  {
    var argc := input.Argc();
    if pos >= argc then Failed(ArgumentExpected)
    else if input.Sees(pos, "!") then
      if pos + 1 >= argc then Failed(ArgumentExpected) else Negated(Term(input, pos + 1))
    else if input.Sees(pos, "(") then
      if pos + 1 >= argc then Failed(ArgumentExpected)
      else
        match Or(input, pos + 1)
        case Failed(error) => Failed(error)
        case Parsed(value, after) =>
          if after >= argc then Failed(if input.bracket then ParenFound("]") else ParenExpected)
          else if !input.Sees(after, ")") then Failed(ParenFound(input.Arg(after)))
          else Parsed(value, after + 1)
    else if pos + 3 <= argc && IsBinary(input.Arg(pos + 1)) then BinaryAt(input, pos)
    else if pos + 2 <= argc && IsUnary(input.Arg(pos)) then UnaryAt(input, pos)
    else Parsed(input.Arg(pos) != "", pos + 1)
  }

  function And(input: Input, pos: nat): (r: Parse)
    requires 1 <= pos <= input.Argc()
    ensures r.Parsed? ==> pos < r.pos <= input.Argc() && !input.Sees(r.pos, "-a")
    decreases input.Argc() - pos, 1
  {
    match Term(input, pos)
    case Failed(error) => Failed(error)
    case Parsed(value, after) => AndTail(input, value, after)
  }

  /** What follows a first conjunct whose value is known. */
  function AndTail(input: Input, value: bool, pos: nat): (r: Parse)
    requires 1 <= pos <= input.Argc()
    ensures r.Parsed? ==> pos <= r.pos <= input.Argc() && !input.Sees(r.pos, "-a")
    decreases input.Argc() - pos, 0
  {
    if !input.Sees(pos, "-a") then Parsed(value, pos)
    else
      match And(input, pos + 1)
      case Failed(error) => Failed(error)
      case Parsed(second, after) => Parsed(value && second, after)
  }

  function Or(input: Input, pos: nat): (r: Parse)
    requires 1 <= pos <= input.Argc()
    ensures r.Parsed? ==> pos < r.pos <= input.Argc() && !input.Sees(r.pos, "-o")
    decreases input.Argc() - pos, 2
  {
    match And(input, pos)
    case Failed(error) => Failed(error)
    case Parsed(value, after) => OrTail(input, value, after)
  }

  function OrTail(input: Input, value: bool, pos: nat): (r: Parse)
    requires 1 <= pos <= input.Argc()
    ensures r.Parsed? ==> pos <= r.pos <= input.Argc() && !input.Sees(r.pos, "-o")
    decreases input.Argc() - pos, 0
  {
    if !input.Sees(pos, "-o") then Parsed(value, pos)
    else
      match Or(input, pos + 1)
      case Failed(error) => Failed(error)
      case Parsed(second, after) => Parsed(value || second, after)
  }

  function Expr(input: Input, pos: nat): Parse
    requires 1 <= pos <= input.Argc()
  {
    if pos >= input.Argc() then Failed(ArgumentExpected) else Or(input, pos)
  }

  // ----- Dispatch on the number of arguments

  function TwoArguments(input: Input, pos: nat): Parse {
    var first := input.Arg(pos);
    if first == "!" then Parsed(input.Arg(pos + 1) == "", pos)
    else if IsUnary(first) then UnaryAt(input, pos)
    else Failed(UnaryExpected(first))
  }

  /** The dispatch cases that discard what they have not read. */
  function AtEnd(input: Input, p: Parse): Parse {
    match p
    case Parsed(value, _) => Parsed(value, input.Argc())
    case Failed(_) => p
  }

  function ThreeArguments(input: Input, pos: nat): Parse {
    var first, middle, third := input.Arg(pos), input.Arg(pos + 1), input.Arg(pos + 2);
    if IsBinary(middle) then AtEnd(input, BinaryAt(input, pos))
    else if middle == "-a" then Parsed(first != "" && third != "", input.Argc())
    else if middle == "-o" then Parsed(first != "" || third != "", input.Argc())
    else if first == "!" then
      if pos + 1 >= input.Argc() then Failed(ArgumentExpected) else Negated(AtEnd(input, TwoArguments(input, pos + 1)))
    else if first == "(" && input.Sees(pos + 2, ")") then Parsed(middle != "", input.Argc())
    else Failed(BinaryExpected(middle))
  }

  function PosixTest(input: Input): (r: Parse)
    ensures r.Parsed? ==> r.pos <= input.Argc()
  {
    match |input.args|
    case 0 => Parsed(false, input.Argc())
    case 1 => Parsed(input.Arg(1) != "", input.Argc())
    case 2 => AtEnd(input, TwoArguments(input, 1))
    case 3 => ThreeArguments(input, 1)
    case 4 =>
      if input.Sees(1, "!") then Negated(ThreeArguments(input, 2))
      else if input.Sees(1, "(") && input.Sees(4, ")") then AtEnd(input, TwoArguments(input, 2))
      else Expr(input, 1)
    case _ => Expr(input, 1)
  }

  /** A parse that stops before the last argument is an error. */
  function Consumed(input: Input, p: Parse): Verdict {
    match p
    case Failed(error) => Fails(error)
    case Parsed(value, pos) =>
      if pos == input.Argc() then Holds(value)
      else if 1 <= pos < input.Argc() && input.Arg(pos) != "" && input.Arg(pos)[0] == '-' then
        Fails(Unexpected(input.Arg(pos)))
      else Fails(TooManyArguments)
  }

  function Evaluate(input: Input): Verdict { Consumed(input, PosixTest(input)) }

  // ----- The parser object

  class TestParser {
    const input: Input
    var pos: nat

    constructor (input: Input)
      ensures this.input == input && pos == 1
    {
      this.input, pos := input, 1;
    }

    ghost predicate InRange() reads this { 1 <= pos <= input.Argc() }

    /** The outcome of a parsing method is the one the grammar gives, and so is the new position. */
    ghost predicate Agrees(r: Verdict, p: Parse)
      reads this
    {
      match p
      case Parsed(value, after) => r == Holds(value) && pos == after
      case Failed(error) => r == Fails(error)
    }

    function Cur(): string
      requires 1 <= pos < input.Argc()
      reads this
    {
      input.args[pos - 1]
    }

    method Advance(check: bool) returns (r: Verdict)
      modifies this`pos
      ensures pos == old(pos) + 1
      ensures r == if check && pos >= input.Argc() then Fails(ArgumentExpected) else Holds(true)
    {
      pos := pos + 1;
      if check && pos >= input.Argc() { return Fails(ArgumentExpected); }
      return Holds(true);
    }

    method UnaryOperator() returns (r: Verdict)
      requires 1 <= pos < input.Argc()
      modifies this`pos
      ensures Agrees(r, UnaryAt(input, old(pos)))
    {
      var op := Cur();
      if op == "-t" {
        var _ := Advance(false);
        if pos < input.Argc() {
          if ParseInt(Cur()).Some? {
            var operand := Cur();
            var _ := Advance(false);
            return EvalUnary(input.world, "-t", operand);
          }
          return Holds(false);
        }
        return EvalUnary(input.world, "-t", "1");
      }
      if pos + 1 >= input.Argc() { return Fails(ArgumentExpected); }
      r := EvalUnary(input.world, op, input.Arg(pos + 1));
      if r.Holds? { pos := pos + 2; }
    }

    method BinaryOperator() returns (r: Verdict)
      requires 1 <= pos < input.Argc()
      modifies this`pos
      ensures Agrees(r, BinaryAt(input, old(pos)))
    {
      r := EvalBinary(input.world, Cur(), input.Arg(pos + 1), input.Arg(pos + 2));
      if r.Holds? { pos := pos + 3; }
    }

    method ParseExpr() returns (r: Verdict)
      requires InRange()
      modifies this`pos
      ensures Agrees(r, Expr(input, old(pos)))
      decreases input.Argc() - pos, 3
    {
      if pos >= input.Argc() { return Fails(ArgumentExpected); }
      r := ParseOr();
    }

    method ParseOr() returns (r: Verdict)
      requires InRange()
      modifies this`pos
      ensures Agrees(r, Or(input, old(pos)))
      decreases input.Argc() - pos, 2
    {
      r := ParseAnd();
      if r.Fails? { return; }
      while pos < input.Argc() && Cur() == "-o"
        invariant old(pos) < pos <= input.Argc() && r.Holds?
        invariant OrTail(input, r.value, pos) == Or(input, old(pos))
      {
        var _ := Advance(false);
        var second := ParseOr();
        if second.Fails? { return second; }
        r := Holds(r.value || second.value);
      }
    }

    method ParseAnd() returns (r: Verdict)
      requires InRange()
      modifies this`pos
      ensures Agrees(r, And(input, old(pos)))
      decreases input.Argc() - pos, 1
    {
      r := ParseTerm();
      if r.Fails? { return; }
      while pos < input.Argc() && Cur() == "-a"
        invariant old(pos) < pos <= input.Argc() && r.Holds?
        invariant AndTail(input, r.value, pos) == And(input, old(pos))
      {
        var _ := Advance(false);
        var second := ParseAnd();
        if second.Fails? { return second; }
        r := Holds(r.value && second.value);
      }
    }

    method ParseTerm() returns (r: Verdict)
      requires InRange()
      modifies this`pos
      ensures Agrees(r, Term(input, old(pos)))
      decreases input.Argc() - pos, 0
    {
      if pos >= input.Argc() { return Fails(ArgumentExpected); }
      if Cur() == "!" {
        var negate := false;
        while pos < input.Argc() && Cur() == "!"
          invariant old(pos) <= pos < input.Argc() && (pos == old(pos) ==> Cur() == "!")
          invariant Term(input, old(pos)) == if negate then Negated(Term(input, pos)) else Term(input, pos)
        {
          var step := Advance(true);
          if step.Fails? { return step; }
          negate := !negate;
        }
        var inner := ParseTerm();
        if inner.Fails? { return inner; }
        return Holds(if negate then !inner.value else inner.value);
      }
      if Cur() == "(" {
        var step := Advance(true);
        if step.Fails? { return step; }
        r := ParseExpr();
        if r.Fails? { return; }
        if pos >= input.Argc() {
          return Fails(if input.bracket then ParenFound("]") else ParenExpected);
        }
        if Cur() != ")" { return Fails(ParenFound(Cur())); }
        var _ := Advance(false);
        return;
      }
      if pos + 3 <= input.Argc() && IsBinary(input.Arg(pos + 1)) {
        r := BinaryOperator();
        return;
      }
      if pos + 2 <= input.Argc() && IsUnary(Cur()) {
        r := UnaryOperator();
        return;
      }
      r := Holds(Cur() != "");
      var _ := Advance(false);
    }

    method ParseTwoArguments() returns (r: Verdict)
      requires 1 <= pos < input.Argc()
      modifies this`pos
      ensures Agrees(r, TwoArguments(input, old(pos)))
    {
      if Cur() == "!" { return Holds(input.Arg(pos + 1) == ""); }
      var first := Cur();
      if first != "" && first[0] == '-' && |first| == 2 {
        if IsUnary(first) {
          r := UnaryOperator();
          return;
        }
      }
      return Fails(UnaryExpected(first));
    }

    method ParseThreeArguments() returns (r: Verdict)
      requires 1 <= pos < input.Argc()
      modifies this`pos
      ensures Agrees(r, ThreeArguments(input, old(pos)))
    {
      var middle := input.Arg(pos + 1);
      if IsBinary(middle) {
        r := BinaryOperator();
        if r.Holds? { pos := input.Argc(); }
        return;
      }
      if middle == "-a" || middle == "-o" {
        var left, right := Cur() != "", input.Arg(pos + 2) != "";
        pos := input.Argc();
        return Holds(if middle == "-a" then left && right else left || right);
      }
      if Cur() == "!" {
        r := Advance(true);
        if r.Fails? { return; }
        r := ParseTwoArguments();
        if r.Fails? { return; }
        pos := input.Argc();
        return Holds(!r.value);
      }
      if Cur() == "(" && input.Sees(pos + 2, ")") {
        r := Holds(middle != "");
        pos := input.Argc();
        return;
      }
      return Fails(BinaryExpected(middle));
    }

    method ParsePosixTest() returns (r: Verdict)
      requires pos == 1
      modifies this`pos
      ensures Agrees(r, PosixTest(input))
    {
      match |input.args|
      case 0 =>
        pos := input.Argc();
        r := Holds(false);
      case 1 =>
        r := Holds(input.Arg(1) != "");
        pos := input.Argc();
      case 2 =>
        r := ParseTwoArguments();
        if r.Holds? { pos := input.Argc(); }
      case 3 =>
        r := ParseThreeArguments();
      case 4 =>
        if Cur() == "!" {
          r := Advance(true);
          r := ParseThreeArguments();
          if r.Holds? { r := Holds(!r.value); }
        } else if Cur() == "(" && input.Sees(input.Argc() - 1, ")") {
          r := Advance(true);
          r := ParseTwoArguments();
          if r.Holds? { pos := input.Argc(); }
        } else {
          r := ParseExpr();
        }
      case _ =>
        r := ParseExpr();
    }
  }

  method EvalExprWithBracket(input: Input) returns (r: Verdict)
    ensures r == Evaluate(input)
    ensures r.Holds? ==> PosixTest(input) == Parsed(r.value, input.Argc())
  {
    var parser := new TestParser(input);
    r := parser.ParsePosixTest();
    if r.Fails? { return; }
    if parser.pos != input.Argc() {
      if 1 <= parser.pos < input.Argc() && parser.Cur() != "" && parser.Cur()[0] == '-' {
        return Fails(Unexpected(parser.Cur()));
      }
      return Fails(TooManyArguments);
    }
  }
}
