/** Assignment lists as a user writes them: keys and values bare, in single quotes or in double quotes, with any blanks
    between the words. What each form stores is said here character by character. */
module AssocForms {
  import opened Text
  import opened AssocCodec
  import opened AssocRoundTrip
  import opened AssocUpdate

  // ----- Written words

  datatype Piece = Letter(c: char) | Pair(c: char)

  datatype Form = Bare(pieces: seq<Piece>) | Single(text: string) | Double(pieces: seq<Piece>)

  function Spelled(pieces: seq<Piece>): string {
    if pieces == [] then ""
    else
      var p := pieces[0];
      (match p case Letter(c) => [c] case Pair(c) => ['\\', c]) + Spelled(pieces[1..])
  }

  function Written(f: Form): string {
    match f
    case Bare(pieces) => Spelled(pieces)
    case Single(text) => "'" + text + "'"
    case Double(pieces) => "\"" + Spelled(pieces) + "\""
  }

  predicate BlankChar(c: char) { c in {' ', '\t', '\n', '\U{C}', '\r'} }

  predicate BarePiece(p: Piece) {
    !BlankChar(p.c) && p.c != '\'' && p.c != '"' && (p.Letter? ==> p.c != '\\')
  }

  predicate DoublePiece(p: Piece) { p.Letter? ==> p.c != '"' && p.c != '\\' }

  predicate WellWritten(f: Form) {
    match f
    case Bare(pieces) => forall p | p in pieces :: BarePiece(p)
    case Single(text) => '\'' !in text
    case Double(pieces) => forall p | p in pieces :: DoublePiece(p)
  }

  /** Outside quotes a closing bracket would end the subscript. */
  predicate WellWrittenKey(f: Form) { WellWritten(f) && (f.Bare? ==> Letter(']') !in f.pieces) }

  /** Inside double quotes a backslash goes away before five characters. */
  function Unescaped(pieces: seq<Piece>): string {
    if pieces == [] then ""
    else
      var p := pieces[0];
      (if p.Letter? || p.c in {'$', '`', '"', '\\', '\n'} then [p.c] else ['\\', p.c]) + Unescaped(pieces[1..])
  }

  /** The characters that internal markers stand for. */
  function Shown(s: string): string {
    seq(|s|, i requires 0 <= i < |s| =>
        match s[i]
        case '\U{1F}' => '$'
        case '\U{1A}' => '`'
        case '\U{17}' => '\''
        case '\U{14}' => '\\'
        case c => c)
  }

  /** What a written word stores: a bare word with its backslashes, the inside of single quotes as it is, the inside of
      double quotes without escapes. Only there the text `\"\` turns into two quotes. */
  function Denoted(f: Form): string {
    match f
    case Bare(pieces) => Shown(Spelled(pieces))
    case Single(text) => Shown(text)
    case Double(pieces) => if Unescaped(pieces) == ['\\', '"', '\\'] then ['"', '"'] else Shown(Unescaped(pieces))
  }

  lemma {:induction false} ShownIs(s: string)
    ensures Shown(s) == RestoreMarkers(s) && Shown(s) == ReplaceMarkers(s)
  {
    MarkersInOnePass(s);
    if s != "" {
      ShownIs(s[1..]);
      assert Shown(s) == [Marked(s[0])] + Shown(s[1..]);
    }
  }

  // ----- The scanners over written words

  lemma PieceIsInert(p: Piece)
    requires BarePiece(p)
    ensures var head := if p.Letter? then [p.c] else ['\\', p.c];
            Inert(head) && (p != Letter(']') ==> ClosingBracket(head, BARE) == None)
  {
    if p.Letter? {
      assert [p.c][1..] == "";
    } else {
      var head := ['\\', p.c];
      assert head[1..] == [p.c] && [p.c][1..] == "";
      assert WordLength([p.c], BARE) == 1 && WordRun(BARE, [p.c]) == BARE;
      assert WordLength(head, BARE) == 2 && WordRun(BARE, head) == BARE;
      var q := Quotes(false, false, true);
      assert TokenRun(q, [p.c]) == BARE && ClosingBracket([p.c], q) == None;
    }
  }

  lemma {:induction false} BareIsInert(pieces: seq<Piece>)
    requires forall p | p in pieces :: BarePiece(p)
    ensures Inert(Spelled(pieces))
    ensures Letter(']') !in pieces ==> ClosingBracket(Spelled(pieces), BARE) == None
  {
    if pieces != [] {
      var p, rest := pieces[0], Spelled(pieces[1..]);
      assert BarePiece(p) && p in pieces && forall q | q in pieces[1..] :: q in pieces;
      BareIsInert(pieces[1..]);
      var head := if p.Letter? then [p.c] else ['\\', p.c];
      PieceIsInert(p);
      InertAppend(head, rest);
      TokenAppend(head, rest, BARE);
      assert p.Letter? && Letter(']') !in pieces ==> p.c != ']';
    }
  }

  const IN_SINGLE := Quotes(true, false, false)

  lemma {:induction false} SingleStaysInside(s: string)
    requires '\'' !in s
    ensures WordLength(s, IN_SINGLE) == |s| && WordRun(IN_SINGLE, s) == IN_SINGLE
    ensures TokenRun(IN_SINGLE, s) == IN_SINGLE && ClosingBracket(s, IN_SINGLE) == None
  {
    if s != "" { SingleStaysInside(s[1..]); }
  }

  lemma {:induction false} PiecesStayInside(pieces: seq<Piece>)
    requires forall p | p in pieces :: DoublePiece(p)
    ensures var s := Spelled(pieces);
            && WordLength(s, IN_DOUBLE) == |s| && WordRun(IN_DOUBLE, s) == IN_DOUBLE
            && TokenRun(IN_DOUBLE, s) == IN_DOUBLE && ClosingBracket(s, IN_DOUBLE) == None
  {
    if pieces != [] {
      var p, rest := pieces[0], Spelled(pieces[1..]);
      assert DoublePiece(p) && forall q | q in pieces[1..] :: q in pieces;
      PiecesStayInside(pieces[1..]);
      var head := if p.Letter? then [p.c] else ['\\', p.c];
      assert head[1..] == if p.Letter? then "" else [p.c];
      assert !p.Letter? ==> [p.c][1..] == "";
      WordAppend(head, rest, IN_DOUBLE);
      TokenAppend(head, rest, IN_DOUBLE);
    }
  }

  /** A quote, something that stays inside, and the quote again. */
  lemma QuotedIsInertKey(quote: char, s: string)
    requires quote == '\'' || quote == '"'
    requires var q := if quote == '"' then IN_DOUBLE else IN_SINGLE;
             && WordLength(s, q) == |s| && WordRun(q, s) == q && TokenRun(q, s) == q && ClosingBracket(s, q) == None
    ensures InertKey([quote] + s + [quote])
  {
    var q := if quote == '"' then IN_DOUBLE else IN_SINGLE;
    assert [quote][1..] == "";
    WordAppend(s, [quote], q);
    TokenAppend(s, [quote], q);
    assert [quote] + s + [quote] == [quote] + (s + [quote]);
    WordAppend([quote], s + [quote], BARE);
    TokenAppend([quote], s + [quote], BARE);
  }

  lemma FormIsInert(f: Form)
    requires WellWritten(f)
    ensures Inert(Written(f)) && (WellWrittenKey(f) ==> InertKey(Written(f)))
  {
    hide WordLength, WordRun, TokenRun, ClosingBracket;
    match f
    case Bare(pieces) => BareIsInert(pieces);
    case Single(text) =>
      SingleStaysInside(text);
      QuotedIsInertKey('\'', text);
    case Double(pieces) =>
      PiecesStayInside(pieces);
      QuotedIsInertKey('"', Spelled(pieces));
  }

  // ----- The unquoter over written words

  lemma {:induction false} PiecesUnescape(pieces: seq<Piece>)
    requires forall p | p in pieces :: DoublePiece(p)
    ensures UnescapeDouble(Spelled(pieces), false) == Unescaped(pieces)
  {
    hide DoubleEscapable;
    if pieces != [] {
      hide UnescapeDouble, Spelled;
      assert DoublePiece(pieces[0]) && forall q | q in pieces[1..] :: q in pieces;
      PiecesUnescape(pieces[1..]);
      SpelledStep(pieces);
      PieceUnescapes(pieces[0], Spelled(pieces[1..]));
    }
  }

  lemma PieceUnescapes(p: Piece, rest: string)
    requires DoublePiece(p)
    ensures UnescapeDouble((if p.Letter? then [p.c] else ['\\', p.c]) + rest, false) ==
            Unescaped([p]) + UnescapeDouble(rest, false)
  {
    assert Unescaped([p][1..]) == "";
    if p.Letter? {
      assert ([p.c] + rest)[1..] == rest;
    } else {
      assert (['\\', p.c] + rest)[1..] == [p.c] + rest && ([p.c] + rest)[1..] == rest;
    }
  }

  lemma {:induction false} NoQuotesInBare(pieces: seq<Piece>)
    requires forall p | p in pieces :: BarePiece(p)
    ensures forall c | c in Spelled(pieces) :: c != '\'' && c != '"' && !BlankChar(c)
  {
    if pieces != [] {
      assert BarePiece(pieces[0]) && forall q | q in pieces[1..] :: q in pieces;
      NoQuotesInBare(pieces[1..]);
    }
  }

  lemma FormUnquotes(f: Form)
    requires WellWritten(f)
    ensures Unquote(Written(f)) == Denoted(f)
  {
    var text := Written(f);
    assert |SENTINEL| == 3 && SENTINEL[0] == '\\' && SENTINEL[1] == '"' && SENTINEL[2] == '\\';
    match f
    case Bare(pieces) =>
      NoQuotesInBare(pieces);
      assert '"' !in text && SENTINEL[1] in SENTINEL;
      assert text != "" ==> text[0] in text;
      ShownIs(text);
    case Single(inner) =>
      assert text[0] == '\'' && text[|text| - 1] == '\'' && text[1..|text| - 1] == inner;
      ShownIs(inner);
    case Double(pieces) =>
      assert text[0] == '"' && text[|text| - 1] == '"' && text[1..|text| - 1] == Spelled(pieces);
      PiecesUnescape(pieces);
      ShownIs(Unescaped(pieces));
  }

  // ----- Words that are no assignments

  /** No opening bracket outside quotes. */
  predicate NoOpening(s: string, q: Quotes)
    decreases |s|
  {
    s != "" ==> (s[0] == '[' ==> q != BARE) && NoOpening(s[1..], TokenStep(q, s[0]))
  }

  lemma {:induction false} NoOpeningAppend(s: string, t: string, q: Quotes)
    requires NoOpening(s, q) && NoOpening(t, TokenRun(q, s))
    ensures NoOpening(s + t, q)
    decreases |s|
  {
    if s == "" {
      assert s + t == t;
    } else {
      assert (s + t)[1..] == s[1..] + t;
      NoOpeningAppend(s[1..], t, TokenStep(q, s[0]));
    }
  }

  lemma {:induction false} ScanStaysClosed(s: string, first: bool, q: Quotes, closed: bool)
    requires NoOpening(s, q)
    ensures var st := ScanFrom(s, first, Scan(q, false, closed)); !st.open && st.quotes == TokenRun(q, s)
    decreases |s|
  {
    if s != "" {
      var next := ScanStep(Scan(q, false, closed), s[0], first);
      assert !next.open && next.quotes == TokenStep(q, s[0]);
      ScanStaysClosed(s[1..], false, TokenStep(q, s[0]), next.closed);
    }
  }

  /** A bare word with an opening bracket would be a subscript or run on to the next words. */
  predicate WellWrittenWord(f: Form) { WellWritten(f) && (f.Bare? ==> f.pieces != [] && Letter('[') !in f.pieces) }

  lemma SpelledStep(pieces: seq<Piece>)
    requires pieces != []
    ensures var p := pieces[0];
            Spelled(pieces) == (if p.Letter? then [p.c] else ['\\', p.c]) + Spelled(pieces[1..])
  {
  }

  lemma {:induction false} BareHasNoOpening(pieces: seq<Piece>)
    requires (forall p | p in pieces :: BarePiece(p)) && Letter('[') !in pieces
    ensures NoOpening(Spelled(pieces), BARE)
  {
    if pieces != [] {
      var p, rest := pieces[0], Spelled(pieces[1..]);
      assert BarePiece(p) && p in pieces && forall q | q in pieces[1..] :: q in pieces;
      BareHasNoOpening(pieces[1..]);
      hide Spelled;
      SpelledStep(pieces);
      if p.Letter? {
        assert ([p.c] + rest)[1..] == rest;
      } else {
        assert (['\\', p.c] + rest)[1..] == [p.c] + rest && ([p.c] + rest)[1..] == rest;
      }
    }
  }

  lemma {:induction false} SingleHasNoOpening(s: string)
    requires '\'' !in s
    ensures NoOpening(s, IN_SINGLE)
  {
    if s != "" { SingleHasNoOpening(s[1..]); }
  }

  lemma {:induction false} DoubleHasNoOpening(pieces: seq<Piece>)
    requires forall p | p in pieces :: DoublePiece(p)
    ensures NoOpening(Spelled(pieces), IN_DOUBLE)
  {
    if pieces != [] {
      hide NoOpening, Spelled;
      assert DoublePiece(pieces[0]) && forall q | q in pieces[1..] :: q in pieces;
      DoubleHasNoOpening(pieces[1..]);
      SpelledStep(pieces);
      PieceHasNoOpening(pieces[0], Spelled(pieces[1..]));
    }
  }

  lemma PieceHasNoOpening(p: Piece, rest: string)
    requires DoublePiece(p) && NoOpening(rest, IN_DOUBLE)
    ensures NoOpening((if p.Letter? then [p.c] else ['\\', p.c]) + rest, IN_DOUBLE)
  {
    if p.Letter? {
      assert ([p.c] + rest)[1..] == rest;
    } else {
      assert (['\\', p.c] + rest)[1..] == [p.c] + rest && ([p.c] + rest)[1..] == rest;
    }
  }

  lemma QuotedHasNoOpening(quote: char, s: string)
    requires quote == '\'' || quote == '"'
    requires var q := if quote == '"' then IN_DOUBLE else IN_SINGLE; NoOpening(s, q) && TokenRun(q, s) == q
    ensures NoOpening([quote] + s + [quote], BARE)
  {
    var q := if quote == '"' then IN_DOUBLE else IN_SINGLE;
    assert [quote][1..] == "";
    NoOpeningAppend(s, [quote], q);
    assert [quote] + s + [quote] == [quote] + (s + [quote]);
    NoOpeningAppend([quote], s + [quote], BARE);
  }

  lemma WordReads(f: Form)
    requires WellWrittenWord(f)
    ensures Separable(Written(f)) && AssignmentToken(Written(f)) == None
  {
    var text := Written(f);
    FormIsInert(f);
    match f {
      case Bare(pieces) =>
        assert pieces[0] in pieces && BarePiece(pieces[0]);
        BareHasNoOpening(pieces);
      case Single(inner) =>
        SingleStaysInside(inner);
        SingleHasNoOpening(inner);
        QuotedHasNoOpening('\'', inner);
      case Double(pieces) =>
        PiecesStayInside(pieces);
        DoubleHasNoOpening(pieces);
        QuotedHasNoOpening('"', Spelled(pieces));
    }
    assert text != "" && text[0] != '[' && !AsciiBlank(text[0]);
    ScanStaysClosed(text, true, BARE, false);
  }

  // ----- Written lists

  datatype Item = Assigning(key: Form, value: Form) | Extending(key: Form, value: Form) | Plain(word: Form)

  predicate WellWrittenItem(i: Item) {
    match i
    case Plain(word) => WellWrittenWord(word)
    case _ => WellWrittenKey(i.key) && WellWritten(i.value)
  }

  function ItemText(i: Item): string {
    match i
    case Assigning(key, value) => "[" + Written(key) + "]=" + Written(value)
    case Extending(key, value) => "[" + Written(key) + "]+=" + Written(value)
    case Plain(word) => Written(word)
  }

  function Meant(i: Item): Op {
    match i
    case Assigning(key, value) => Assign(Denoted(key), Denoted(value))
    case Extending(key, value) => Extend(Denoted(key), Denoted(value))
    case Plain(word) => Word(Denoted(word))
  }

  function ItemTexts(items: seq<Item>): seq<string> { seq(|items|, i requires 0 <= i < |items| => ItemText(items[i])) }

  function AllMeant(items: seq<Item>): seq<Op> { seq(|items|, i requires 0 <= i < |items| => Meant(items[i])) }

  /** Words with blanks before, between and after them. */
  function Spaced(words: seq<string>, gaps: seq<string>): string
    requires |gaps| == |words| + 1
    decreases |words|
  {
    if words == [] then gaps[0] else gaps[0] + words[0] + Spaced(words[1..], gaps[1..])
  }

  predicate Gaps(gaps: seq<string>) {
    && (forall g | g in gaps :: forall c | c in g :: BlankChar(c))
    && forall i | 0 < i < |gaps| - 1 :: gaps[i] != ""
  }

  lemma {:induction false} BlanksSkipped(gap: string, rest: string)
    requires forall c | c in gap :: BlankChar(c)
    ensures StorageWords(gap + rest) == StorageWords(rest)
  {
    BlanksLead(gap, rest);
    var text := gap + rest;
    assert text[LeadingBlanks(text)..] == rest[LeadingBlanks(rest)..];
    WordsStep(text);
    WordsStep(rest);
  }

  lemma {:induction false} BlanksLead(gap: string, rest: string)
    requires forall c | c in gap :: BlankChar(c)
    ensures LeadingBlanks(gap + rest) == |gap| + LeadingBlanks(rest)
  {
    if gap == "" {
      assert gap + rest == rest;
    } else {
      assert gap[0] in gap && (gap + rest)[1..] == gap[1..] + rest;
      BlanksLead(gap[1..], rest);
    }
  }

  lemma {:induction false} SpacedWords(words: seq<string>, gaps: seq<string>)
    requires |gaps| == |words| + 1 && Gaps(gaps) && forall t | t in words :: Whole(t)
    ensures StorageWords(Spaced(words, gaps)) == words
    decreases |words|
  {
    hide StorageWords, Whole;
    assert gaps[0] in gaps;
    if words == [] {
      assert gaps[0] + "" == gaps[0];
      BlanksSkipped(gaps[0], "");
      WordsStep("");
    } else {
      var tail := Spaced(words[1..], gaps[1..]);
      assert Gaps(gaps[1..]) by {
        assert forall g | g in gaps[1..] :: g in gaps;
        forall i | 0 < i < |gaps[1..]| - 1 ensures gaps[1..][i] != "" { assert gaps[1..][i] == gaps[i + 1]; }
      }
      SpacedWords(words[1..], gaps[1..]);
      assert gaps[0] + words[0] + tail == gaps[0] + (words[0] + tail);
      BlanksSkipped(gaps[0], words[0] + tail);
      SpacedTail(words[1..], gaps[1..], |words| > 1);
      FirstToken(words[0], tail);
      if tail != "" {
        assert tail == [tail[0]] + tail[1..];
        BlanksSkipped([tail[0]], tail[1..]);
      } else {
        WordsStep("");
      }
      assert words == [words[0]] + words[1..];
    }
  }

  lemma SpacedTail(words: seq<string>, gaps: seq<string>, more: bool)
    requires |gaps| == |words| + 1 && (words != [] ==> more) && (more ==> words != [] && gaps[0] != "")
    requires forall g | g in gaps :: forall c | c in g :: BlankChar(c)
    ensures var tail := Spaced(words, gaps); tail == "" || AsciiBlank(tail[0])
  {
    assert gaps[0] in gaps;
    var tail := Spaced(words, gaps);
    if gaps[0] != "" { assert tail[0] == gaps[0][0] && gaps[0][0] in gaps[0]; }
  }

  /** What the tokenizer and the unquoter make of a token. */
  predicate Understood(text: string, op: Op) {
    match op
    case Word(w) => AssignmentToken(text) == None && Unquote(text) == w
    case _ =>
      var t := AssignmentToken(text);
      t.Some? && Unquote(t.value.0) == op.key && Unquote(t.value.1) == op.value && t.value.2 == op.Extend?
  }

  predicate ReadsAs(text: string, op: Op) { Separable(text) && Understood(text, op) }

  lemma ItemReads(i: Item)
    requires WellWrittenItem(i)
    ensures ReadsAs(ItemText(i), Meant(i))
  {
    hide Denoted, Written, Unquote, InertKey, Inert, AssignmentToken, Unfinished, WellWritten;
    match i
    case Plain(word) =>
      WordReads(word);
      WordWellWritten(word);
      FormUnquotes(word);
    case Assigning(key, value) =>
      KeyWellWritten(key);
      FormIsInert(key);
      FormIsInert(value);
      PairTextReads(Written(key), "=", Written(value));
      assert PairText(Written(key), "=", Written(value)) == "[" + Written(key) + "]=" + Written(value);
      FormUnquotes(key);
      FormUnquotes(value);
    case Extending(key, value) =>
      KeyWellWritten(key);
      FormIsInert(key);
      FormIsInert(value);
      PairTextReads(Written(key), "+=", Written(value));
      assert PairText(Written(key), "+=", Written(value)) == "[" + Written(key) + "]+=" + Written(value);
      FormUnquotes(key);
      FormUnquotes(value);
  }

  lemma KeyWellWritten(f: Form)
    requires WellWrittenKey(f)
    ensures WellWritten(f)
  {
  }

  lemma WordWellWritten(f: Form)
    requires WellWrittenWord(f)
    ensures WellWritten(f)
  {
  }

  lemma {:induction false} OpsApply(es: seq<Entry>, texts: seq<string>, ops: seq<Op>)
    requires |texts| == |ops| && forall i | 0 <= i < |ops| :: Understood(texts[i], ops[i])
    ensures ApplyTokens(es, texts) == AllApplied(es, ops)
    decreases |ops|
  {
    hide AssignmentToken, Unquote, Update;
    if ops != [] {
      assert Understood(texts[0], ops[0]);
      assert ApplyToken(es, texts[0]) == Applied(es, ops[0]);
      forall i | 0 <= i < |ops[1..]| ensures Understood(texts[1..][i], ops[1..][i]) {
        assert Understood(texts[i + 1], ops[i + 1]);
      }
      OpsApply(Applied(es, ops[0]), texts[1..], ops[1..]);
    }
  }

  /** For every array, every list of written items and every choice of blanks between them, the executor leaves the text
      of the array that the list means. */
  lemma WrittenMeaning(es: seq<Entry>, items: seq<Item>, gaps: seq<string>)
    requires |gaps| == |items| + 1 && Gaps(gaps) && forall i | i in items :: WellWrittenItem(i)
    ensures AppendAssoc(FormatAssoc(es), "(" + Spaced(ItemTexts(items), gaps) + ")") ==
            FormatAssoc(Outcome(CanonicalEntries(es), AllMeant(items)))
  {
    hide ItemText, Meant, WellWrittenItem, Separable, Understood, Gaps, Spaced, Merged, StorageWords, FormatAssoc,
         AppendAssoc, Outcome, CanonicalEntries;
    var texts, ops := ItemTexts(items), AllMeant(items);
    forall i | 0 <= i < |items| ensures Separable(texts[i]) && Understood(texts[i], ops[i]) {
      assert items[i] in items;
      ItemReads(items[i]);
    }
    TextsApart(texts, gaps);
    ListMeaning(es, texts, ops, Spaced(texts, gaps));
  }

  lemma TextsApart(texts: seq<string>, gaps: seq<string>)
    requires |gaps| == |texts| + 1 && Gaps(gaps) && forall t | t in texts :: Separable(t)
    ensures Merged(StorageWords(Spaced(texts, gaps))) == texts
  {
    hide Spaced, Merged, StorageWords, Whole, Unfinished;
    WholeTokens(texts);
    SpacedWords(texts, gaps);
    FinishedStayApart(texts);
  }

  lemma ListMeaning(es: seq<Entry>, texts: seq<string>, ops: seq<Op>, inside: string)
    requires |texts| == |ops| && forall i | 0 <= i < |ops| :: Understood(texts[i], ops[i])
    requires Merged(StorageWords(inside)) == texts
    ensures AppendAssoc(FormatAssoc(es), "(" + inside + ")") == FormatAssoc(Outcome(CanonicalEntries(es), ops))
  {
    hide StorageWords, Merged, FormatAssoc, AssocEntries, AssignmentToken, Unquote, ApplyTokens, AllApplied,
         CanonicalEntries, PairUp;
    var value := "(" + inside + ")";
    assert value[1..|value| - 1] == inside;
    StoredReadsBack(es);
    OpsApply(CanonicalEntries(es), texts, ops);
    assert Explicit(texts) <==> Subscripted(ops) by { SubscriptsSeen(texts, ops); }
    if !Subscripted(ops) {
      forall i | 0 <= i < |ops| ensures Unquote(texts[i]) == Words(ops)[i] {
        assert Understood(texts[i], ops[i]) && ops[i] in ops;
      }
      assert UnquoteAll(texts) == Words(ops);
    }
  }

  lemma SubscriptsSeen(texts: seq<string>, ops: seq<Op>)
    requires |texts| == |ops| && forall i | 0 <= i < |ops| :: Understood(texts[i], ops[i])
    ensures Explicit(texts) <==> Subscripted(ops)
  {
    hide AssignmentToken, Unquote;
    if Explicit(texts) {
      var i :| 0 <= i < |texts| && AssignmentToken(texts[i]).Some?;
      assert Understood(texts[i], ops[i]) && ops[i] in ops;
    }
    if Subscripted(ops) {
      var i :| 0 <= i < |ops| && !ops[i].Word?;
      assert Understood(texts[i], ops[i]) && texts[i] in texts;
    }
  }

  /** In particular single quotes hold their text together, blanks and brackets included, and are not stored. */
  lemma SingleQuotedValue(es: seq<Entry>, key: string, text: string)
    requires key != "" && (forall c | c in key :: !BlankChar(c) && c !in {'\'', '"', '\\', ']'}) && '\'' !in text
    ensures AppendAssoc(FormatAssoc(es), "([" + key + "]='" + text + "')") ==
            FormatAssoc(Update(CanonicalEntries(es), Shown(key), Shown(text), false))
  {
    var letters := seq(|key|, i requires 0 <= i < |key| => Letter(key[i]));
    var item := Assigning(Bare(letters), Single(text));
    forall p | p in letters ensures BarePiece(p) && p != Letter(']') { assert p.c in key; }
    SpelledLetters(key);
    assert Meant(item) == Assign(Shown(key), Shown(text));
    assert ItemText(item) == "[" + key + "]='" + text + "'";
    assert "(" + ItemText(item) + ")" == "([" + key + "]='" + text + "')";
    assert WellWrittenItem(item);
    hide *;
    OneWritten(es, item, Shown(key), Shown(text));
  }

  lemma OneWritten(es: seq<Entry>, item: Item, key: string, value: string)
    requires WellWrittenItem(item) && Meant(item) == Assign(key, value)
    ensures AppendAssoc(FormatAssoc(es), "(" + ItemText(item) + ")") ==
            FormatAssoc(Update(CanonicalEntries(es), key, value, false))
  {
    var text := ItemText(item);
    assert forall i | i in [item] :: WellWrittenItem(i);
    hide AppendAssoc, FormatAssoc, CanonicalEntries, WellWrittenItem, ItemText, Meant, Outcome;
    OneText(item);
    WrittenMeaning(es, [item], ["", ""]);
    OneOp(CanonicalEntries(es), Meant(item));
    AppliedAssign(CanonicalEntries(es), Meant(item));
  }

  lemma OneText(item: Item)
    ensures Gaps(["", ""]) && AllMeant([item]) == [Meant(item)]
    ensures Spaced(ItemTexts([item]), ["", ""]) == ItemText(item)
  {
    hide ItemText, Meant;
    var text := ItemText(item);
    assert ItemTexts([item]) == [text];
    assert Spaced([], [""]) == "" && ["", ""][1..] == [""] && [text][1..] == [];
    assert "" + text + "" == text;
  }

  lemma OneOp(es: seq<Entry>, op: Op)
    requires !op.Word?
    ensures Outcome(es, [op]) == Applied(es, op)
  {
    var ops := [op];
    assert op in ops && ops[1..] == [];
    assert AllApplied(es, ops) == AllApplied(Applied(es, ops[0]), ops[1..]);
  }

  lemma {:induction false} SpelledLetters(s: string)
    ensures Spelled(seq(|s|, i requires 0 <= i < |s| => Letter(s[i]))) == s
  {
    if s != "" {
      var letters := seq(|s|, i requires 0 <= i < |s| => Letter(s[i]));
      SpelledLetters(s[1..]);
      assert letters[1..] == seq(|s[1..]|, i requires 0 <= i < |s[1..]| => Letter(s[1..][i]));
      assert s == [s[0]] + s[1..];
    }
  }

  // ----- Reading written storage

  function Pairs(ops: seq<Op>): seq<Entry>
    requires forall op | op in ops :: op.Assign?
  {
    if ops == [] then []
    else
      assert ops[0] in ops;
      [(ops[0].key, ops[0].value)] + Pairs(ops[1..])
  }

  lemma {:induction false} OpsRead(texts: seq<string>, ops: seq<Op>)
    requires |texts| == |ops| && forall i | 0 <= i < |ops| :: Understood(texts[i], ops[i])
    requires forall op | op in ops :: op.Assign?
    ensures EntriesOf(texts) == Pairs(ops)
  {
    hide AssignmentToken, Unquote;
    if ops != [] {
      assert Understood(texts[0], ops[0]) && ops[0] in ops;
      forall i | 0 <= i < |ops[1..]| ensures Understood(texts[1..][i], ops[1..][i]) {
        assert Understood(texts[i + 1], ops[i + 1]);
      }
      OpsRead(texts[1..], ops[1..]);
    }
  }

  /** A stored array in any of the forms, with any blanks, is read as its entries. */
  lemma WrittenEntries(items: seq<Item>, gaps: seq<string>)
    requires |gaps| == |items| + 1 && Gaps(gaps)
    requires forall i | i in items :: WellWrittenItem(i) && i.Assigning?
    ensures AssocEntries("(" + Spaced(ItemTexts(items), gaps) + ")") ==
            seq(|items|, i requires 0 <= i < |items| =>
                assert items[i] in items; (Denoted(items[i].key), Denoted(items[i].value)))
  {
    hide Denoted, ItemText, AssocEntries, Spaced, ReadsAs, Gaps, WellWritten, InertKey;
    var texts, ops := ItemTexts(items), AllMeant(items);
    forall i | 0 <= i < |items|
      ensures ReadsAs(texts[i], ops[i]) && ops[i] == Assign(Denoted(items[i].key), Denoted(items[i].value))
    {
      assert items[i] in items;
      ItemReads(items[i]);
    }
    hide Meant, WellWrittenItem;
    EntriesRead(texts, ops, gaps);
  }

  lemma EntriesRead(texts: seq<string>, ops: seq<Op>, gaps: seq<string>)
    requires |texts| == |ops| && (forall i | 0 <= i < |ops| :: ReadsAs(texts[i], ops[i]) && ops[i].Assign?)
    requires |gaps| == |texts| + 1 && Gaps(gaps)
    ensures AssocEntries("(" + Spaced(texts, gaps) + ")") ==
            seq(|ops|, i requires 0 <= i < |ops| => (ops[i].key, ops[i].value))
  {
    hide Separable, Understood, Spaced, AssocEntries, EntriesOf, Merged, StorageWords, Gaps, Whole, Unfinished, Pairs;
    AllSeparable(texts, ops);
    WholeTokens(texts);
    SpacedWords(texts, gaps);
    FinishedStayApart(texts);
    InsideRead(Spaced(texts, gaps));
    OpsRead(texts, ops);
    PairsAre(ops);
  }

  lemma AllSeparable(texts: seq<string>, ops: seq<Op>)
    requires |texts| == |ops| && forall i | 0 <= i < |ops| :: ReadsAs(texts[i], ops[i])
    ensures forall t | t in texts :: Separable(t) && !Unfinished(t)
    ensures forall i | 0 <= i < |ops| :: Understood(texts[i], ops[i])
  {
    hide Whole, Unfinished, Understood;
    forall i | 0 <= i < |ops| ensures Separable(texts[i]) && Understood(texts[i], ops[i]) {
      assert ReadsAs(texts[i], ops[i]);
    }
  }

  lemma InsideRead(inside: string)
    ensures AssocEntries("(" + inside + ")") == EntriesOf(Merged(StorageWords(inside)))
  {
    hide EntriesOf, Merged, StorageWords;
    assert ("(" + inside + ")")[1..|inside| + 1] == inside;
  }

  lemma {:induction false} PairsAre(ops: seq<Op>)
    requires forall op | op in ops :: op.Assign?
    ensures |Pairs(ops)| == |ops| && forall i | 0 <= i < |ops| :: Pairs(ops)[i] == (ops[i].key, ops[i].value)
  {
    if ops != [] {
      assert ops[0] in ops;
      PairsAre(ops[1..]);
    }
  }

  /** No blank, no quote, no backslash and no bracket. */
  predicate PlainWord(w: string) {
    w != "" && forall c | c in w :: !BlankChar(c) && c !in {'\'', '"', '\\', '[', ']'}
  }

  /** The words of a subscript with blanks, the last one with the rest of the assignment. */
  function SubscriptTokens(words: seq<string>, first: bool, value: string): seq<string>
    requires words != []
  {
    var head := (if first then "[" else "") + words[0];
    if |words| == 1 then [head + "]=" + value] else [head] + SubscriptTokens(words[1..], false, value)
  }

  lemma {:induction false} JoinPlain(words: seq<string>)
    requires forall w | w in words :: PlainWord(w)
    ensures forall c | c in Join(words, " ") :: c !in {'\'', '"', '\\', '[', ']'}
  {
    if words != [] {
      assert PlainWord(words[0]) && forall w | w in words[1..] :: w in words;
      JoinPlain(words[1..]);
    }
  }

  lemma {:induction false} OpenScan(s: string)
    requires forall c | c in s :: c !in {'\'', '"', '\\', '[', ']'}
    ensures ScanFrom(s, false, Scan(BARE, true, false)) == Scan(BARE, true, false)
  {
    if s != "" {
      assert s[0] in s;
      forall c | c in s[1..] ensures c !in {'\'', '"', '\\', '[', ']'} { assert c in s; }
      OpenScan(s[1..]);
    }
  }

  lemma StillOpen(s: string)
    requires forall c | c in s :: c !in {'\'', '"', '\\', '[', ']'}
    ensures Unfinished("[" + s)
  {
    assert ("[" + s)[1..] == s;
    OpenScan(s);
  }

  lemma {:induction false} PlainWordWhole(w: string)
    requires forall c | c in w :: !BlankChar(c) && c !in {'\'', '"', '\\', '[', ']'}
    ensures Inert(w) && Inert("[" + w) && ClosingBracket(w, BARE) == None
  {
    assert forall c | c in w :: !ForcesValueQuotes(c);
    assert ']' !in w;
    PlainIsInert(w);
    PlainIsInert("[" + w);
  }

  lemma WordWhole(w: string, first: bool, last: bool, value: Form)
    requires PlainWord(w) && WellWritten(value)
    ensures Whole((if first then "[" else "") + w + if last then "]=" + Written(value) else "")
  {
    var tail := "]=" + Written(value);
    assert w[0] in w;
    PlainWordWhole(w);
    FormIsInert(value);
    PlainIsInert("]=");
    hide Inert, Written;
    InertAppend("]=", Written(value));
    InertAppend(w, tail);
    InertAppend("[" + w, tail);
    assert "" + w == w && w + "" == w && "[" + w + "" == "[" + w;
  }

  lemma {:induction false} TokensWhole(words: seq<string>, first: bool, value: Form)
    requires words != [] && (forall w | w in words :: PlainWord(w)) && WellWritten(value)
    ensures forall t | t in SubscriptTokens(words, first, Written(value)) :: Whole(t)
  {
    hide Whole, Written, PlainWord, WellWritten;
    var head := (if first then "[" else "") + words[0];
    assert words[0] in words && forall w | w in words[1..] :: w in words;
    WordWhole(words[0], first, |words| == 1, value);
    if |words| == 1 {
      assert head + "]=" + Written(value) == head + ("]=" + Written(value));
    } else {
      assert head + "" == head;
      TokensWhole(words[1..], false, value);
    }
  }

  function SubscriptGaps(n: nat, first: bool, gap: string): seq<string> {
    [if first then "" else gap] + if n <= 1 then [""] else SubscriptGaps(n - 1, false, gap)
  }

  lemma {:induction false} GapsOfSubscript(n: nat, first: bool, gap: string)
    requires n > 0 && gap != "" && forall c | c in gap :: BlankChar(c)
    ensures var gaps := SubscriptGaps(n, first, gap);
            && |gaps| == n + 1 && (!first ==> gaps[0] == gap) && Gaps(gaps)
  {
    if n > 1 {
      GapsOfSubscript(n - 1, false, gap);
      var rest := SubscriptGaps(n - 1, false, gap);
      var gaps := SubscriptGaps(n, first, gap);
      assert gaps[1..] == rest;
      forall i | 0 < i < |gaps| - 1 ensures gaps[i] != "" { assert gaps[i] == rest[i - 1]; }
      forall g | g in gaps ensures forall c | c in g :: BlankChar(c) { assert g == gaps[0] || g in rest; }
    }
  }

  lemma {:induction false} SpacedSubscript(words: seq<string>, first: bool, gap: string, value: string)
    requires words != []
    ensures |SubscriptTokens(words, first, value)| == |words|
    ensures |SubscriptGaps(|words|, first, gap)| == |words| + 1
    ensures Spaced(SubscriptTokens(words, first, value), SubscriptGaps(|words|, first, gap)) ==
            (if first then "[" else gap) + Join(words, gap) + "]=" + value
  {
    SubscriptUnfolds(words, first, gap, value);
    hide Spaced, Join, SubscriptTokens, SubscriptGaps;
    var gaps := SubscriptGaps(|words|, first, gap);
    var open, head := if first then "" else gap, (if first then "[" else "") + words[0];
    if |words| == 1 {
      SpacedStep(head + "]=" + value, [], gaps);
      LastSpaced(gaps[1..]);
      assert open + (head + "]=" + value) + "" == (if first then "[" else gap) + words[0] + "]=" + value;
    } else {
      SpacedSubscript(words[1..], false, gap, value);
      SpacedStep(head, SubscriptTokens(words[1..], false, value), gaps);
      var rest := Join(words[1..], gap);
      SpacedTogether(open, head, gap, rest, value);
      assert open + head == (if first then "[" else gap) + words[0];
      Regrouped((if first then "[" else gap), words[0], gap);
      Regrouped((if first then "[" else gap), words[0] + gap, rest);
    }
  }

  lemma SpacedTogether(open: string, head: string, gap: string, rest: string, value: string)
    ensures open + head + (gap + rest + "]=" + value) == open + head + gap + rest + "]=" + value
  {
  }

  lemma LastSpaced(gaps: seq<string>)
    requires gaps == [""]
    ensures Spaced([], gaps) == ""
  {
  }

  lemma SubscriptUnfolds(words: seq<string>, first: bool, gap: string, value: string)
    requires words != []
    ensures var head, gaps := (if first then "[" else "") + words[0], SubscriptGaps(|words|, first, gap);
            && |gaps| >= 2 && gaps[0] == (if first then "" else gap)
            && (|words| == 1 ==> gaps[1..] == [""]
                                 && SubscriptTokens(words, first, value) == [head + "]=" + value]
                                 && Join(words, gap) == words[0])
            && (|words| > 1 ==> gaps[1..] == SubscriptGaps(|words| - 1, false, gap)
                                && SubscriptTokens(words, first, value) ==
                                   [head] + SubscriptTokens(words[1..], false, value)
                                && Join(words, gap) == words[0] + gap + Join(words[1..], gap))
  {
  }

  lemma SpacedStep(word: string, more: seq<string>, gaps: seq<string>)
    requires |gaps| == |more| + 2
    ensures Spaced([word] + more, gaps) == gaps[0] + word + Spaced(more, gaps[1..])
  {
    assert ([word] + more)[1..] == more;
  }

  /** While a subscript is open the merger puts the next token behind it, with one blank. */
  lemma {:induction false} OpenMerges(done: seq<string>, s: string, words: seq<string>, value: string)
    requires Merged(done) == ["[" + s] && words != [] && forall w | w in words :: PlainWord(w)
    requires forall c | c in s :: c !in {'\'', '"', '\\', '[', ']'}
    ensures Merged(done + SubscriptTokens(words, false, value)) == ["[" + s + " " + Join(words, " ") + "]=" + value]
    decreases |words|
  {
    var w := words[0];
    assert w in words && forall x | x in words[1..] :: x in words;
    TokensUnfold(words, value);
    StillOpen(s);
    LongerOpen(s, w);
    assert ["[" + s][..0] == [];
    hide Merged, Unfinished, SubscriptTokens, PlainWord, Join;
    if |words| == 1 {
      MergeStep(done, w + "]=" + value);
      Rebracketed(s, w, value);
    } else {
      MergeStep(done, w);
      OpenMerges(done + [w], s + " " + w, words[1..], value);
      JoinedOnce(s, words, value);
      Behind(done, w, SubscriptTokens(words[1..], false, value));
    }
  }

  lemma TokensUnfold(words: seq<string>, value: string)
    requires words != []
    ensures |words| == 1 ==> SubscriptTokens(words, false, value) == [words[0] + "]=" + value]
    ensures |words| == 1 ==> Join(words, " ") == words[0]
    ensures |words| > 1 ==>
              SubscriptTokens(words, false, value) == [words[0]] + SubscriptTokens(words[1..], false, value)
  {
    assert "" + words[0] == words[0];
  }

  lemma LongerOpen(s: string, w: string)
    requires PlainWord(w) && forall c | c in s :: c !in {'\'', '"', '\\', '[', ']'}
    ensures forall c | c in s + " " + w :: c !in {'\'', '"', '\\', '[', ']'}
    ensures ("[" + s) + " " + w == "[" + (s + " " + w)
  {
  }

  lemma JoinedOnce(s: string, words: seq<string>, value: string)
    requires |words| > 1
    ensures "[" + (s + " " + words[0]) + " " + Join(words[1..], " ") + "]=" + value ==
            "[" + s + " " + Join(words, " ") + "]=" + value
  {
    var rest := Join(words[1..], " ");
    assert Join(words, " ") == words[0] + " " + rest;
    hide Join;
    Regrouped("[", s + " ", words[0]);
    Regrouped("[", s, " ");
    Regrouped("[" + s + " ", words[0], " ");
    Regrouped("[" + s + " ", words[0] + " ", rest);
    assert s + " " + words[0] == (s + " ") + words[0];
  }

  lemma Regrouped(a: string, b: string, c: string)
    ensures a + b + c == a + (b + c)
  {
  }

  lemma Rebracketed(s: string, w: string, value: string)
    ensures ("[" + s) + " " + (w + "]=" + value) == "[" + s + " " + w + "]=" + value
  {
    Regrouped("[" + s + " ", w, "]=");
    Regrouped("[" + s + " ", w + "]=", value);
  }

  lemma Behind(done: seq<string>, w: string, more: seq<string>)
    ensures done + ([w] + more) == done + [w] + more
  {
  }

  lemma MergeStep(tokens: seq<string>, t: string)
    ensures var out := Merged(tokens);
            Merged(tokens + [t]) ==
            if out != [] && Unfinished(out[|out| - 1]) then out[..|out| - 1] + [out[|out| - 1] + " " + t] else out + [t]
  {
    assert (tokens + [t])[..|tokens|] == tokens;
  }

  lemma SubscriptJoined(words: seq<string>, value: string)
    requires words != [] && forall w | w in words :: PlainWord(w)
    ensures Merged(SubscriptTokens(words, true, value)) == ["[" + Join(words, " ") + "]=" + value]
  {
    var w := words[0];
    assert w in words && PlainWord(w) && forall x | x in words[1..] :: x in words;
    assert Merged([]) == [];
    TokensUnfoldFirst(words, value);
    hide Merged, SubscriptTokens, Join, Unfinished;
    if |words| == 1 {
      MergeStep([], "[" + w + "]=" + value);
      assert [] + ["[" + w + "]=" + value] == ["[" + w + "]=" + value];
    } else {
      MergeStep([], "[" + w);
      assert [] + ["[" + w] == ["[" + w];
      assert forall c | c in w :: c !in {'\'', '"', '\\', '[', ']'};
      OpenMerges(["[" + w], w, words[1..], value);
    }
  }

  lemma TokensUnfoldFirst(words: seq<string>, value: string)
    requires words != []
    ensures |words| == 1 ==> SubscriptTokens(words, true, value) == ["[" + words[0] + "]=" + value]
    ensures |words| == 1 ==> Join(words, " ") == words[0]
    ensures |words| > 1 ==>
              && SubscriptTokens(words, true, value) == ["[" + words[0]] + SubscriptTokens(words[1..], false, value)
              && "[" + words[0] + " " + Join(words[1..], " ") == "[" + Join(words, " ")
  {
  }

  /** Whatever blanks stand between the words of an unquoted subscript, the key has one space for each gap. */
  lemma BlanksInSubscript(es: seq<Entry>, words: seq<string>, gap: string, value: Form)
    requires words != [] && (forall w | w in words :: PlainWord(w)) && WellWritten(value)
    requires gap != "" && forall c | c in gap :: BlankChar(c)
    ensures AppendAssoc(FormatAssoc(es), "([" + Join(words, gap) + "]=" + Written(value) + ")") ==
            FormatAssoc(Update(CanonicalEntries(es), Shown(Join(words, " ")), Denoted(value), false))
  {
    var key, v := Join(words, " "), Written(value);
    var inside, text := "[" + Join(words, gap) + "]=" + v, "[" + key + "]=" + v;
    var op := Assign(Shown(key), Denoted(value));
    hide *;
    Bracketed(Join(words, gap), v);
    MergedReads(words, value);
    SubscriptRejoined(words, gap, value);
    ListMeaning(es, [text], [op], inside);
    OneOp(CanonicalEntries(es), op);
    AppliedAssign(CanonicalEntries(es), op);
  }

  lemma Bracketed(key: string, value: string)
    ensures "(" + ("[" + key + "]=" + value) + ")" == "([" + key + "]=" + value + ")"
  {
  }

  lemma AppliedAssign(es: seq<Entry>, op: Op)
    requires op.Assign?
    ensures Applied(es, op) == Update(es, op.key, op.value, false)
  {
  }

  lemma SubscriptRejoined(words: seq<string>, gap: string, value: Form)
    requires words != [] && (forall w | w in words :: PlainWord(w)) && WellWritten(value)
    requires gap != "" && forall c | c in gap :: BlankChar(c)
    ensures Merged(StorageWords("[" + Join(words, gap) + "]=" + Written(value))) ==
            ["[" + Join(words, " ") + "]=" + Written(value)]
  {
    hide *;
    var tokens, gaps := SubscriptTokens(words, true, Written(value)), SubscriptGaps(|words|, true, gap);
    SpacedSubscript(words, true, gap, Written(value));
    SubscriptJoined(words, Written(value));
    TokensWhole(words, true, value);
    GapsOfSubscript(|words|, true, gap);
    SpacedWords(tokens, gaps);
  }

  lemma {:induction false} OpenKey(key: string)
    requires forall c | c in key :: c !in {'\'', '"', '\\', '[', ']'}
    ensures TokenRun(BARE, key) == BARE && ClosingBracket(key, BARE) == None
  {
    if key != "" {
      assert key[0] in key;
      forall c | c in key[1..] ensures c !in {'\'', '"', '\\', '[', ']'} { assert c in key; }
      OpenKey(key[1..]);
    }
  }

  lemma MergedReads(words: seq<string>, value: Form)
    requires (forall w | w in words :: PlainWord(w)) && WellWritten(value)
    ensures Understood("[" + Join(words, " ") + "]=" + Written(value), Assign(Shown(Join(words, " ")), Denoted(value)))
  {
    var key, v := Join(words, " "), Written(value);
    JoinPlain(words);
    FormUnquotes(value);
    OpenKeyUnquotes(key);
    hide Unquote, Shown, Denoted, Written, Join;
    OpenKeyReads(key, v);
  }

  lemma OpenKeyReads(key: string, v: string)
    requires forall c | c in key :: c !in {'\'', '"', '\\', '[', ']'}
    ensures AssignmentToken("[" + key + "]=" + v) == Some((key, v, false))
  {
    var after := "=" + v;
    hide *;
    assert "[" + key + "]=" + v == "[" + (key + ("]" + after));
    KeyCloses(key, after);
    TokenOf(key, after);
    AssignedAfter(key, v);
  }

  lemma KeyCloses(key: string, after: string)
    requires forall c | c in key :: c !in {'\'', '"', '\\', '[', ']'}
    ensures ClosingBracket(key + ("]" + after), BARE) == Some(|key|)
  {
    hide ClosingBracket, TokenRun;
    OpenKey(key);
    TokenAppend(key, "]" + after, BARE);
    BracketFirst(after);
  }

  lemma BracketFirst(after: string)
    ensures ClosingBracket("]" + after, BARE) == Some(0)
  {
    assert ("]" + after)[0] == ']';
  }

  lemma TokenOf(key: string, after: string)
    requires ClosingBracket(key + ("]" + after), BARE) == Some(|key|)
    ensures AssignmentToken("[" + (key + ("]" + after))) == AfterSubscript(key, after)
  {
    hide ClosingBracket, AfterSubscript;
    var rest := key + ("]" + after);
    assert ("[" + rest)[1..] == rest && rest[..|key|] == key && rest[|key| + 1..] == after;
  }

  lemma AssignedAfter(key: string, v: string)
    ensures AfterSubscript(key, "=" + v) == Some((key, v, false))
  {
    var after := "=" + v;
    assert after[1..] == v && after[0] == '=';
    if |after| >= 2 { assert after[..2][0] != "+="[0]; }
  }

  lemma OpenKeyUnquotes(key: string)
    requires forall c | c in key :: c !in {'\'', '"', '\\', '[', ']'}
    ensures Unquote(key) == Shown(key)
  {
    assert key != "" ==> key[0] in key;
    assert '"' !in key && SENTINEL[1] == '"' && SENTINEL[1] in SENTINEL;
    ShownIs(key);
  }

  // ----- What the printer writes

  /** The form in double quotes that the printer uses. */
  function Escaping(s: string): Form {
    Double(seq(|s|, i requires 0 <= i < |s| => if s[i] in {'"', '\\'} then Pair(s[i]) else Letter(s[i])))
  }

  lemma {:induction false} EscapingIs(s: string)
    ensures QuoteForced(s) == Written(Escaping(s))
  {
    if s != "" {
      EscapingIs(s[1..]);
      assert Escaping(s).pieces[1..] == Escaping(s[1..]).pieces;
      assert QuoteForced(s) == "\"" + EscapeDouble(s) + "\"";
      assert QuoteForced(s[1..]) == "\"" + EscapeDouble(s[1..]) + "\"";
      assert QuoteForced(s[1..])[1..] == EscapeDouble(s[1..]) + "\"";
      assert Written(Escaping(s[1..]))[1..] == Spelled(Escaping(s[1..]).pieces) + "\"";
      SameBefore(EscapeDouble(s[1..]), Spelled(Escaping(s[1..]).pieces), "\"");
    } else {
      assert EscapeDouble("") == Spelled([]);
    }
  }

  lemma SameBefore(a: string, b: string, end: string)
    requires a + end == b + end
    ensures a == b
  {
    assert |a| == |b|;
    assert (a + end)[..|a|] == a && (b + end)[..|b|] == b;
  }

  /** The stored text, character by character: pairs in parentheses with one space between them, and quotes only where a
      character asks for them. */
  lemma PrinterWrites(es: seq<Entry>)
    ensures FormatAssoc(es) ==
            "(" + Join(seq(|es|, i requires 0 <= i < |es| =>
                           "[" + QuoteKey(es[i].0) + "]=" + QuoteValue(es[i].1)), " ") + ")"
    ensures forall v: string :: QuoteValue(v) ==
              if v != "" && forall c | c in v :: !BlankChar(c) && c !in {'\'', '"', '\\'} then v
              else Written(Escaping(v))
    ensures forall k: string :: QuoteKey(k) ==
              if k != "" && forall c | c in k :: !BlankChar(c) && c !in {'\'', '"', '\\', ']'} then k
              else Written(Escaping(k))
  {
    PairsPrinted(es);
    hide Written, Escaping, QuoteForced;
    forall v: string ensures QuoteValue(v) ==
      if v != "" && forall c | c in v :: !BlankChar(c) && c !in {'\'', '"', '\\'} then v else Written(Escaping(v))
    {
      EscapingIs(v);
    }
    forall k: string ensures QuoteKey(k) ==
      if k != "" && forall c | c in k :: !BlankChar(c) && c !in {'\'', '"', '\\', ']'} then k else Written(Escaping(k))
    {
      EscapingIs(k);
    }
  }

  lemma {:induction false} PairsPrinted(es: seq<Entry>)
    ensures FormatPairs(es) ==
            seq(|es|, i requires 0 <= i < |es| => "[" + QuoteKey(es[i].0) + "]=" + QuoteValue(es[i].1))
  {
    hide QuoteKey, QuoteValue;
    if es != [] { PairsPrinted(es[1..]); }
  }

  /** The one text that storage rewrites: backslash, double quote, backslash becomes two double quotes. */
  lemma RewrittenText()
    ensures AssocEntries(FormatAssoc([("k", ['\\', '"', '\\'])])) == [("k", ['"', '"'])]
  {
    SentinelIsLost();
    assert SENTINEL == ['\\', '"', '\\'] && EMPTY_QUOTES == ['"', '"'];
  }

  // ----- What an update does to the list

  /** A new key goes to the end; a known one keeps the slot of its last entry, and nothing else moves. */
  lemma UpdateInPlace(es: seq<Entry>, key: string, value: string, extend: bool)
    ensures var after := Update(es, key, value, extend);
            && ((forall e | e in es :: e.0 != key) ==> after == es + [(key, value)])
            && (forall i: nat | i < |es| && es[i].0 == key && (forall j | i < j < |es| :: es[j].0 != key) ::
                  && |after| == |es|
                  && after[i] == (key, if extend then es[i].1 + value else value)
                  && forall j | 0 <= j < |es| && j != i :: after[j] == es[j])
  {
    var at := LastIndex(es, key);
    if at.Some? { assert es[at.value] in es; }
  }

  /** Words without subscripts: the even ones are keys, the odd ones their values, and a last key without a value gets
      the empty one. */
  lemma {:induction false} PairsUp(words: seq<string>)
    ensures |PairUp(words)| == (|words| + 1) / 2
    ensures forall i | 0 <= i < |PairUp(words)| ::
              PairUp(words)[i] == (words[2 * i], if 2 * i + 1 < |words| then words[2 * i + 1] else "")
  {
    if |words| > 1 {
      PairsUp(words[2..]);
      forall i | 0 < i < |PairUp(words)|
        ensures PairUp(words)[i] == (words[2 * i], if 2 * i + 1 < |words| then words[2 * i + 1] else "")
      {
        assert PairUp(words)[i] == PairUp(words[2..])[i - 1];
      }
    }
  }

  // ----- Other texts

  /** A value without parentheses is one word, taken as a key without a value. */
  lemma WordAlone(es: seq<Entry>, word: Form)
    requires WellWrittenWord(word) && Enclosed(Written(word), '(', ')') == None
    ensures AppendAssoc(FormatAssoc(es), Written(word)) ==
            FormatAssoc(CanonicalEntries(es) + [(Denoted(word), "")])
    ensures AppendAssoc(FormatAssoc(es), "") == FormatAssoc(CanonicalEntries(es))
  {
    WordReads(word);
    WordWellWritten(word);
    FormUnquotes(word);
    assert Written(word) != "";
    hide *;
    TextAlone(es, Written(word));
    NoText(es);
  }

  lemma TextAlone(es: seq<Entry>, text: string)
    requires text != "" && Enclosed(text, '(', ')') == None && AssignmentToken(text) == None
    ensures AppendAssoc(FormatAssoc(es), text) == FormatAssoc(CanonicalEntries(es) + [(Unquote(text), "")])
  {
    hide FormatAssoc, AssocEntries, AssignmentToken, Unquote, Unfinished, CanonicalEntries, ApplyTokens;
    StoredReadsBack(es);
    MergeStep([], text);
    assert Merged([]) == [] && [] + [text] == [text];
    assert !Explicit([text]);
    assert UnquoteAll([text]) == [Unquote(text)];
  }

  lemma NoText(es: seq<Entry>)
    ensures AppendAssoc(FormatAssoc(es), "") == FormatAssoc(CanonicalEntries(es))
  {
    hide FormatAssoc, AssocEntries, AssignmentToken, Unquote, Unfinished, CanonicalEntries, ApplyTokens;
    StoredReadsBack(es);
    assert Merged([]) == [] && UnquoteAll([]) == [] && CanonicalEntries(es) + [] == CanonicalEntries(es);
  }

  /** A stored text without subscripts: the key ends at the first equals sign, and brackets around it go away. */
  lemma LooseEntry(key: string, value: Form)
    requires PlainWord(key) && '=' !in key && WellWritten(value)
    ensures EntryOf(key + "=" + Written(value)) == Some((Shown(key), Denoted(value)))
    ensures EntryOf(key + "]=" + Written(value)) == Some((Shown(key), Denoted(value)))
  {
    var v := Written(value);
    FormUnquotes(value);
    PlainKeyUnquotes(key);
    assert key[0] in key && key[|key| - 1] in key;
    assert AssignmentToken(key + "=" + v) == None && AssignmentToken(key + "]=" + v) == None;
    hide Unquote, Written, Denoted, Shown, PlainWord, AssignmentToken;
    SplitOnceAt(key, '=', v);
    SplitOnceAt(key + "]", '=', v);
    assert key + ['='] + v == key + "=" + v && key + "]" + ['='] + v == key + "]=" + v;
    Trimmed(key);
  }

  lemma Trimmed(key: string)
    requires key != "" && key[0] != '[' && key[|key| - 1] != ']'
    ensures TrimEnd(TrimStart(key, '['), ']') == key
    ensures TrimEnd(TrimStart(key + "]", '['), ']') == key
  {
    assert (key + "]")[..|key|] == key;
  }

  lemma PlainKeyUnquotes(key: string)
    requires PlainWord(key)
    ensures Unquote(key) == Shown(key)
  {
    assert key[0] in key;
    ShownIs(key);
    assert '"' !in key && SENTINEL[1] == '"' && SENTINEL[1] in SENTINEL;
  }

  /** Stored text without parentheses around it holds no pair. */
  lemma NoList(text: string)
    requires |text| < 2 || text[0] != '(' || text[|text| - 1] != ')'
    ensures AssocEntries(text) == []
  {
  }
}
