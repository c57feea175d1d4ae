/** What the tests of `test` answer and which errors it reports, in terms of the words of the command alone. */
module TestLeaves {
  import opened Text
  import opened TestCommand
  import IndexedCodec
  import IndexedRoundTrip

  // ----- Integers

  /** A number in decimal, with a minus sign when it is negative. */
  function Decimal(n: int): string { if n < 0 then "-" + IndexedCodec.Decimal(-n) else IndexedCodec.Decimal(n) }

  predicate Fits(n: int) { -0x8000_0000_0000_0000 <= n <= 0x7FFF_FFFF_FFFF_FFFF }

  lemma DecimalReads(n: int)
    ensures ParseInt(Decimal(n)) == if Fits(n) then Some(n) else None
  {
    if n < 0 { NegativeReads(n); } else { PlainReads(n); }
  }

  lemma PlainReads(n: nat)
    ensures ParseInt(IndexedCodec.Decimal(n)) == if Fits(n) then Some(n) else None
  {
    var digits := IndexedCodec.Decimal(n);
    IndexedRoundTrip.DecimalDigits(n);
    hide DigitsValue, IndexedCodec.Decimal;
    assert digits[0] in digits && IsDigit(digits[0]);
  }

  lemma NegativeReads(n: int)
    requires n <= 0
    ensures ParseInt("-" + IndexedCodec.Decimal(-n)) == if Fits(n) then Some(n) else None
  {
    IndexedRoundTrip.DecimalDigits(-n);
    hide DigitsValue, IndexedCodec.Decimal;
    assert ("-" + IndexedCodec.Decimal(-n))[1..] == IndexedCodec.Decimal(-n);
  }

  /** Besides digits a number may have one sign in front. */
  lemma SignedReads(n: nat)
    ensures ParseInt("+" + IndexedCodec.Decimal(n)) == if Fits(n) then Some(n) else None
  {
    IndexedRoundTrip.DecimalDigits(n);
    hide DigitsValue, IndexedCodec.Decimal;
    assert ("+" + IndexedCodec.Decimal(n))[1..] == IndexedCodec.Decimal(n);
  }

  /** Anything else is no number: no digits, or a character that is neither a digit nor a sign in front. */
  lemma NoInteger(s: string)
    requires s in {"", "-", "+"} || exists i | 0 <= i < |s| ::
               !('0' <= s[i] <= '9') && (i > 0 || (s[i] != '-' && s[i] != '+'))
    ensures ParseInt(s) == None
  {
    if s !in {"", "-", "+"} {
      var i :| 0 <= i < |s| && !('0' <= s[i] <= '9') && (i > 0 || (s[i] != '-' && s[i] != '+'));
      if s[0] in {'-', '+'} {
        assert s[1..][i - 1] == s[i] && !IsDigit(s[i]);
      } else {
        assert s[i] in s && !IsDigit(s[i]);
      }
    }
  }

  // ----- The commands

  lemma ThreeWords(left: string, op: string, right: string, bracket: bool, w: World)
    requires IsBinary(op)
    ensures Evaluate(Input([left, op, right], bracket, w)) == EvalBinary(w, left, op, right)
  {
    hide EvalBinary, IsBinary;
    var input := Input([left, op, right], bracket, w);
    assert input.Arg(1) == left && input.Arg(2) == op && input.Arg(3) == right;
  }

  /** Numbers compare as numbers, whatever their decimal texts look like. */
  lemma IntegerTests(a: int, b: int, bracket: bool, w: World)
    requires Fits(a) && Fits(b)
    ensures Evaluate(Input([Decimal(a), "-eq", Decimal(b)], bracket, w)) == Holds(a == b)
    ensures Evaluate(Input([Decimal(a), "-ne", Decimal(b)], bracket, w)) == Holds(a != b)
    ensures Evaluate(Input([Decimal(a), "-lt", Decimal(b)], bracket, w)) == Holds(a < b)
    ensures Evaluate(Input([Decimal(a), "-le", Decimal(b)], bracket, w)) == Holds(a <= b)
    ensures Evaluate(Input([Decimal(a), "-gt", Decimal(b)], bracket, w)) == Holds(a > b)
    ensures Evaluate(Input([Decimal(a), "-ge", Decimal(b)], bracket, w)) == Holds(a >= b)
  {
    DecimalReads(a);
    DecimalReads(b);
    hide Evaluate, ParseInt, Decimal, Less;
    ThreeWords(Decimal(a), "-eq", Decimal(b), bracket, w);
    ThreeWords(Decimal(a), "-ne", Decimal(b), bracket, w);
    ThreeWords(Decimal(a), "-lt", Decimal(b), bracket, w);
    ThreeWords(Decimal(a), "-le", Decimal(b), bracket, w);
    ThreeWords(Decimal(a), "-gt", Decimal(b), bracket, w);
    ThreeWords(Decimal(a), "-ge", Decimal(b), bracket, w);
  }

  /** A word that is no number is reported, the left one first. */
  lemma IntegerErrors(left: string, op: string, right: string, bracket: bool, w: World)
    requires op in {"-eq", "-ne", "-lt", "-le", "-gt", "-ge"} && (ParseInt(left).None? || ParseInt(right).None?)
    ensures Evaluate(Input([left, op, right], bracket, w)) ==
            Fails(IntegerExpected(if ParseInt(left).None? then left else right))
  {
    ThreeWords(left, op, right, bracket, w);
    hide Evaluate, ParseInt, Less;
  }

  lemma {:induction false} LessIs(a: string, b: string)
    ensures Less(a, b) <==>
            exists k: nat :: k <= |a| && k < |b| && a[..k] == b[..k] && (k == |a| || a[k] < b[k])
  {
    if Less(a, b) {
      if a == "" || a[0] < b[0] {
        assert a[..0] == b[..0];
      } else {
        LessIs(a[1..], b[1..]);
        var k: nat :| k <= |a[1..]| && k < |b[1..]| && a[1..][..k] == b[1..][..k]
                      && (k == |a[1..]| || a[1..][k] < b[1..][k]);
        assert a[..k + 1] == [a[0]] + a[1..][..k] && b[..k + 1] == [b[0]] + b[1..][..k];
      }
    }
    if k: nat :| k <= |a| && k < |b| && a[..k] == b[..k] && (k == |a| || a[k] < b[k]) {
      if k > 0 {
        assert a[..k][0] == b[..k][0] && a[1..][..k - 1] == a[..k][1..] && b[1..][..k - 1] == b[..k][1..];
        LessIs(a[1..], b[1..]);
      }
    }
  }

  /** Strings are equal or not, and one comes before another when it is a beginning of it or has the smaller character
      where they first differ. */
  lemma StringTests(a: string, b: string, bracket: bool, w: World)
    ensures Evaluate(Input([a, "=", b], bracket, w)) == Holds(a == b)
    ensures Evaluate(Input([a, "==", b], bracket, w)) == Holds(a == b)
    ensures Evaluate(Input([a, "!=", b], bracket, w)) == Holds(a != b)
    ensures Evaluate(Input([a, "<", b], bracket, w)) ==
            Holds(exists k: nat :: k <= |a| && k < |b| && a[..k] == b[..k] && (k == |a| || a[k] < b[k]))
    ensures Evaluate(Input([a, ">", b], bracket, w)) ==
            Holds(exists k: nat :: k <= |b| && k < |a| && a[..k] == b[..k] && (k == |b| || b[k] < a[k]))
  {
    LessIs(a, b);
    LessIs(b, a);
    hide Evaluate, ParseInt, Less;
    ThreeWords(a, "=", b, bracket, w);
    ThreeWords(a, "==", b, bracket, w);
    ThreeWords(a, "!=", b, bracket, w);
    ThreeWords(a, "<", b, bracket, w);
    ThreeWords(a, ">", b, bracket, w);
  }

  /** Files are compared by the host. */
  lemma FileTests(a: string, op: string, b: string, bracket: bool, w: World)
    requires op in {"-nt", "-ot", "-ef"}
    ensures Evaluate(Input([a, op, b], bracket, w)) == Holds(w.files(op, a, b))
  {
    ThreeWords(a, op, b, bracket, w);
    hide Evaluate, ParseInt, Less;
  }

  const HOST_TESTS: set<string> :=
    {"-a", "-b", "-c", "-d", "-e", "-f", "-g", "-h", "-L", "-k", "-p", "-r", "-s", "-S", "-u", "-w", "-x", "-o", "-v",
     "-R", "-O", "-G", "-N"}

  lemma UnaryOperators(op: string)
    ensures IsUnary(op) <==> op in HOST_TESTS || op in {"-z", "-n", "-t"}
  {
    if IsUnary(op) { assert op == ['-', op[1]]; }
  }

  /** Two words: the emptiness of a string, a question to the host, or a negated string; any other first word is an
      error. A descriptor that is no number is no terminal. */
  lemma TwoWords(op: string, x: string, bracket: bool, w: World)
    ensures Evaluate(Input(["-z", x], bracket, w)) == Holds(x == "")
    ensures Evaluate(Input(["-n", x], bracket, w)) == Holds(x != "")
    ensures Evaluate(Input(["!", x], bracket, w)) == Holds(x == "")
    ensures op in HOST_TESTS ==> Evaluate(Input([op, x], bracket, w)) == Holds(w.unary(op, x))
    ensures Evaluate(Input(["-t", x], bracket, w)) == Holds(ParseInt(x).Some? && w.unary("-t", x))
    ensures op != "!" && op !in HOST_TESTS && op !in {"-z", "-n", "-t"} ==>
              Evaluate(Input([op, x], bracket, w)) == Fails(UnaryExpected(op))
  {
    UnaryOperators(op);
    hide Evaluate, ParseInt, IsUnary;
    FirstOfTwo("-z", x, bracket, w);
    FirstOfTwo("-n", x, bracket, w);
    FirstOfTwo("!", x, bracket, w);
    FirstOfTwo("-t", x, bracket, w);
    FirstOfTwo(op, x, bracket, w);
    UnaryOperators("-t");
    UnaryOperators("-z");
    UnaryOperators("-n");
  }

  lemma FirstOfTwo(op: string, x: string, bracket: bool, w: World)
    ensures Evaluate(Input([op, x], bracket, w)) ==
            if op == "!" then Holds(x == "")
            else if !IsUnary(op) then Fails(UnaryExpected(op))
            else if op == "-t" then Holds(ParseInt(x).Some? && w.unary("-t", x))
            else if op == "-z" then Holds(x == "")
            else if op == "-n" then Holds(x != "")
            else Holds(w.unary(op, x))
  {
    hide ParseInt, IsUnary, IsBinary, Term, And, Or;
    assert Input([op, x], bracket, w).Arg(1) == op && Input([op, x], bracket, w).Arg(2) == x;
    if op == "-t" { assert IsUnary("-t") by { UnaryOperators("-t"); } }
  }

  /** No word does not hold, and one word holds unless it is empty. */
  lemma FewWords(x: string, bracket: bool, w: World)
    ensures Evaluate(Input([], bracket, w)) == Holds(false)
    ensures Evaluate(Input([x], bracket, w)) == Holds(x != "")
  {
  }

  const COMPARISONS: set<string> :=
    {"=", "==", "!=", "<", ">", "-eq", "-ne", "-lt", "-le", "-gt", "-ge", "-nt", "-ot", "-ef"}

  lemma BinaryOperators(op: string)
    ensures IsBinary(op) <==> op in COMPARISONS
  {
  }

  // ----- Errors

  /** Three words without an operator in the middle. */
  lemma NoOperator(a: string, op: string, b: string, bracket: bool, w: World)
    requires op !in COMPARISONS && op !in {"-a", "-o"} && a != "!" && !(a == "(" && b == ")")
    ensures Evaluate(Input([a, op, b], bracket, w)) == Fails(BinaryExpected(op))
  {
    BinaryOperators(op);
    hide IsBinary;
    var input := Input([a, op, b], bracket, w);
    assert input.Arg(1) == a && input.Arg(2) == op && input.Arg(3) == b;
  }

  /** Three words in the shapes that need no operator of two operands. */
  lemma ThreeShapes(a: string, b: string, bracket: bool, w: World)
    ensures Evaluate(Input([a, "-a", b], bracket, w)) == Holds(a != "" && b != "")
    ensures Evaluate(Input([a, "-o", b], bracket, w)) == Holds(a != "" || b != "")
    ensures a !in COMPARISONS && a !in {"-a", "-o"} ==> Evaluate(Input(["(", a, ")"], bracket, w)) == Holds(a != "")
  {
    BinaryOperators(a);
    BinaryOperators("-a");
    BinaryOperators("-o");
    hide IsBinary;
    assert |"-a"| == 2 && "-a"[1] == 'a' && "-o"[1] == 'o' && "!" != "(";
    assert Input([a, "-a", b], bracket, w).Arg(1) == a && Input([a, "-a", b], bracket, w).Arg(3) == b;
    assert Input([a, "-o", b], bracket, w).Arg(1) == a && Input([a, "-o", b], bracket, w).Arg(3) == b;
    var input := Input(["(", a, ")"], bracket, w);
    assert input.Arg(1) == "(" && input.Arg(2) == a && input.Arg(3) == ")";
  }

  /** A comparison that the grammar reads at a position, with what follows it. */
  lemma ComparisonAt(input: Input, pos: nat)
    requires 1 <= pos && pos + 3 <= input.Argc() && IsBinary(input.Arg(pos + 1))
    requires input.Arg(pos) != "!" && input.Arg(pos) != "("
    ensures Term(input, pos) ==
            Verify(EvalBinary(input.world, input.Arg(pos), input.Arg(pos + 1), input.Arg(pos + 2)), pos + 3)
  {
    hide IsBinary, IsUnary, And, Or, UnaryAt, EvalBinary;
  }

  /** Words left over after a comparison: an option-like one is named, others are too many. */
  lemma LeftOver(a: string, b: string, x: string, y: string, bracket: bool, w: World)
    requires a != "!" && a != "(" && x !in {"-a", "-o"}
    ensures Evaluate(Input([a, "=", b, x, y], bracket, w)) ==
            Fails(if x != "" && x[0] == '-' then Unexpected(x) else TooManyArguments)
  {
    var input := Input([a, "=", b, x, y], bracket, w);
    assert input.Arg(1) == a && input.Arg(2) == "=" && input.Arg(3) == b && input.Arg(4) == x;
    ComparisonAt(input, 1);
    hide Term, IsBinary, IsUnary;
    assert !input.Sees(4, "-a") && !input.Sees(4, "-o");
    assert And(input, 1) == Parsed(a == b, 4);
    assert Or(input, 1) == Parsed(a == b, 4);
  }

  /** A group that is not closed: `]` is blamed when the command is a bracket, another word when one stands there. */
  lemma Unclosed(a: string, b: string, x: string, bracket: bool, w: World)
    requires a != "!" && a != "("
    ensures b != ")" ==>
              Evaluate(Input(["(", a, "=", b], bracket, w)) == Fails(if bracket then ParenFound("]") else ParenExpected)
    ensures x !in {")", "-a", "-o"} ==> Evaluate(Input(["(", a, "=", b, x], bracket, w)) == Fails(ParenFound(x))
  {
    if b != ")" {
      var input := Input(["(", a, "=", b], bracket, w);
      assert input.Arg(1) == "(" && input.Arg(2) == a && input.Arg(3) == "=" && input.Arg(4) == b;
      GroupOpened(input, a == b);
      FailureRises(input, if bracket then ParenFound("]") else ParenExpected);
    }
    if x !in {")", "-a", "-o"} {
      var input := Input(["(", a, "=", b, x], bracket, w);
      assert input.Arg(1) == "(" && input.Arg(2) == a && input.Arg(3) == "=" && input.Arg(4) == b && input.Arg(5) == x;
      GroupOpened(input, a == b);
      FailureRises(input, ParenFound(x));
    }
  }

  lemma GroupOpened(input: Input, value: bool)
    requires input.Argc() >= 5 && input.Arg(1) == "(" && input.Arg(3) == "=" && value == (input.Arg(2) == input.Arg(4))
    requires input.Arg(2) != "!" && input.Arg(2) != "(" && !input.Sees(5, "-a") && !input.Sees(5, "-o")
    ensures Or(input, 2) == Parsed(value, 5)
    ensures Term(input, 1) ==
            if input.Argc() == 5 then Failed(if input.bracket then ParenFound("]") else ParenExpected)
            else if input.Sees(5, ")") then Parsed(value, 6)
            else Failed(ParenFound(input.Arg(5)))
  {
    ComparisonAt(input, 2);
    assert And(input, 2) == Parsed(value, 5);
    assert Or(input, 2) == Parsed(value, 5);
    assert "!" != "(";
    hide Or, And, IsBinary, IsUnary;
  }

  lemma FailureRises(input: Input, e: Error)
    requires input.Argc() > 1 && Term(input, 1) == Failed(e)
    ensures Expr(input, 1) == Failed(e)
  {
    hide Term;
    assert And(input, 1) == Failed(e);
  }

  /** A connective with nothing behind it. */
  lemma NothingBehind(a: string, b: string, op: string, bracket: bool, w: World)
    requires a != "!" && a != "(" && op in {"-a", "-o"}
    ensures Evaluate(Input([a, "=", b, op], bracket, w)) == Fails(ArgumentExpected)
  {
    var input := Input([a, "=", b, op], bracket, w);
    assert input.Arg(1) == a && input.Arg(2) == "=" && input.Arg(3) == b && input.Arg(4) == op;
    assert "-a"[1] != "-o"[1];
    ComparisonAt(input, 1);
    assert Term(input, 5) == Failed(ArgumentExpected);
    assert And(input, 5) == Failed(ArgumentExpected) && Or(input, 5) == Failed(ArgumentExpected);
    hide Term, IsBinary, IsUnary;
    assert And(input, 1) == if op == "-a" then Failed(ArgumentExpected) else Parsed(a == b, 4);
    assert Or(input, 1) == Failed(ArgumentExpected);
  }
}
