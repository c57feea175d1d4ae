/** Printing an associative array and reading it back. */
module AssocRoundTrip {
  import opened Text
  import opened AssocCodec

  /** What the reader makes of a string that the printer stored. */
  function Canonical(s: string): string { if s == SENTINEL then EMPTY_QUOTES else RestoreMarkers(s) }

  function CanonicalEntries(es: seq<Entry>): seq<Entry> {
    if es == [] then [] else [(Canonical(es[0].0), Canonical(es[0].1))] + CanonicalEntries(es[1..])
  }

  predicate Marker(c: char) { c == '\U{1F}' || c == '\U{1A}' || c == '\U{17}' || c == '\U{14}' }

  /** The strings that survive storage: no internal marker character, and not the text `\"\`. */
  predicate Storable(s: string) {
    s != SENTINEL && forall c | c in s :: !Marker(c)
  }

  predicate AllStorable(es: seq<Entry>) { forall e | e in es :: Storable(e.0) && Storable(e.1) }

  // ----- The three scanners over printed text

  /** Read from outside quotes, the piece is never split and ends outside quotes. */
  predicate Inert(s: string) {
    WordLength(s, BARE) == |s| && WordRun(BARE, s) == BARE && TokenRun(BARE, s) == BARE
  }

  predicate InertKey(s: string) { Inert(s) && ClosingBracket(s, BARE) == None }

  lemma {:induction false} WordAppend(s: string, t: string, q: Quotes)
    requires WordLength(s, q) == |s|
    ensures WordLength(s + t, q) == |s| + WordLength(t, WordRun(q, s))
    ensures WordRun(q, s + t) == WordRun(WordRun(q, s), t)
    decreases |s|
  {
    if s == "" {
      assert s + t == t;
    } else {
      assert (s + t)[1..] == s[1..] + t;
      WordAppend(s[1..], t, WordStep(q, s[0]));
    }
  }

  lemma {:induction false} TokenAppend(s: string, t: string, q: Quotes)
    ensures TokenRun(q, s + t) == TokenRun(TokenRun(q, s), t)
    ensures ClosingBracket(s, q) == None ==>
              ClosingBracket(s + t, q) == match ClosingBracket(t, TokenRun(q, s))
                                          case None => None
                                          case Some(i) => Some(|s| + i)
    decreases |s|
  {
    if s == "" {
      assert s + t == t;
    } else {
      assert (s + t)[1..] == s[1..] + t;
      TokenAppend(s[1..], t, TokenStep(q, s[0]));
    }
  }

  lemma {:induction false} InertAppend(s: string, t: string)
    requires Inert(s) && Inert(t)
    ensures Inert(s + t)
  {
    WordAppend(s, t, BARE);
    TokenAppend(s, t, BARE);
  }

  lemma {:induction false} PlainIsInert(s: string)
    requires forall c | c in s :: !ForcesValueQuotes(c)
    ensures Inert(s) && (']' !in s ==> ClosingBracket(s, BARE) == None)
  {
    if s != "" {
      assert !ForcesValueQuotes(s[0]);
      PlainIsInert(s[1..]);
    }
  }

  lemma {:induction false} EscapedStaysInside(s: string)
    ensures var e := EscapeDouble(s);
            && WordLength(e, IN_DOUBLE) == |e| && WordRun(IN_DOUBLE, e) == IN_DOUBLE
            && TokenRun(IN_DOUBLE, e) == IN_DOUBLE && ClosingBracket(e, IN_DOUBLE) == None
  {
    if s != "" {
      EscapedStaysInside(s[1..]);
      var tail := EscapeDouble(s[1..]);
      if s[0] == '"' || s[0] == '\\' {
        var head := ['\\', s[0]];
        assert head[1..] == [s[0]] && [s[0]][1..] == "";
        WordAppend(head, tail, IN_DOUBLE);
        TokenAppend(head, tail, IN_DOUBLE);
      } else {
        var head := [s[0]];
        assert head[1..] == "";
        WordAppend(head, tail, IN_DOUBLE);
        TokenAppend(head, tail, IN_DOUBLE);
      }
    }
  }

  lemma {:induction false} ForcedIsInert(s: string)
    ensures InertKey(QuoteForced(s))
  {
    var e := EscapeDouble(s);
    EscapedStaysInside(s);
    assert "\""[1..] == "";
    WordAppend(e, "\"", IN_DOUBLE);
    TokenAppend(e, "\"", IN_DOUBLE);
    assert QuoteForced(s) == "\"" + (e + "\"");
    WordAppend("\"", e + "\"", BARE);
    TokenAppend("\"", e + "\"", BARE);
  }

  lemma {:induction false} QuotedIsInert(s: string)
    ensures InertKey(QuoteKey(s)) && Inert(QuoteValue(s))
  {
    ForcedIsInert(s);
    if forall c | c in s :: !ForcesValueQuotes(c) { PlainIsInert(s); }
    if forall c | c in s :: !ForcesKeyQuotes(c) {
      assert forall c | c in s :: !ForcesValueQuotes(c);
      assert ']' !in s;
    }
  }

  // ----- A printed `[key]op value` is one finished token that splits where it was joined

  function PairText(key: string, op: string, value: string): string { "[" + key + "]" + op + value }

  lemma {:induction false} ScanOpenKey(key: string, rest: string, q: Quotes)
    requires ClosingBracket(key, q) == None
    ensures ScanFrom(key + rest, false, Scan(q, true, false)) ==
              ScanFrom(rest, false, Scan(TokenRun(q, key), true, false))
    decreases |key|
  {
    if key == "" {
      assert key + rest == rest;
    } else {
      assert (key + rest)[1..] == key[1..] + rest;
      ScanOpenKey(key[1..], rest, TokenStep(q, key[0]));
    }
  }

  lemma {:induction false} ScanClosedTail(s: string, q: Quotes)
    ensures ScanFrom(s, false, Scan(q, false, true)) == Scan(TokenRun(q, s), false, true)
    decreases |s|
  {
    if s != "" { ScanClosedTail(s[1..], TokenStep(q, s[0])); }
  }

  lemma {:induction false} PairTextReads(key: string, op: string, value: string)
    requires InertKey(key) && Inert(value) && (op == "=" || op == "+=")
    ensures var token := PairText(key, op, value);
            Inert(token) && !Unfinished(token) && AssignmentToken(token) == Some((key, value, op == "+="))
  {
    hide WordLength, WordRun, TokenRun;
    var token := PairText(key, op, value);
    var tail := op + value;
    var rest := key + ("]" + tail);
    assert token == "[" + rest && token[1..] == rest;
    PlainIsInert("[");
    PlainIsInert("]");
    PlainIsInert(op);
    InertAppend(op, value);
    InertAppend("]", tail);
    InertAppend(key, "]" + tail);
    InertAppend("[", rest);

    TokenAppend(key, "]" + tail, BARE);
    assert rest[..|key|] == key && rest[|key| + 1..] == tail;
    assert op == "+=" ==> tail[..2] == "+=" && tail[2..] == value;
    assert op == "=" ==> tail[0] == '=' && tail[1..] == value;

    ScanOpenKey(key, "]" + tail, BARE);
    assert ("]" + tail)[1..] == tail;
    ScanClosedTail(tail, BARE);
  }

  lemma {:induction false} ScanForced(s: string)
    ensures ScanFrom(EscapeDouble(s) + "\"", false, Scan(IN_DOUBLE, false, false)) == Scan(BARE, false, false)
  {
    var text := EscapeDouble(s) + "\"";
    if s != "" {
      ScanForced(s[1..]);
      var tail := EscapeDouble(s[1..]) + "\"";
      if s[0] == '"' || s[0] == '\\' {
        assert text[1..] == [s[0]] + tail && text[1..][1..] == tail;
      } else {
        assert text[1..] == tail;
      }
    }
  }

  /** A fully quoted text is a finished token that assigns nothing. */
  lemma {:induction false} ForcedReads(s: string)
    ensures var token := QuoteForced(s); Inert(token) && !Unfinished(token) && AssignmentToken(token) == None
  {
    ForcedIsInert(s);
    ScanForced(s);
    assert QuoteForced(s)[1..] == EscapeDouble(s) + "\"";
  }

  /** A text that the splitter takes for one word. */
  predicate Whole(token: string) { token != "" && !AsciiBlank(token[0]) && Inert(token) }

  predicate Separable(token: string) { Whole(token) && !Unfinished(token) }

  lemma {:induction false} JoinSplits(tokens: seq<string>)
    requires forall t | t in tokens :: Separable(t)
    ensures StorageWords(Join(tokens, " ")) == tokens
  {
    hide StorageWords, Separable;
    if |tokens| == 0 {
      WordsStep("");
    } else {
      var tail := if |tokens| == 1 then "" else " " + Join(tokens[1..], " ");
      assert Join(tokens, " ") == tokens[0] + tail;
      assert |tokens| > 1 ==> tail[1..] == Join(tokens[1..], " ");
      assert tokens == [tokens[0]] + tokens[1..];
      assert Whole(tokens[0]) by { WholeTokens(tokens); }
      hide *;
      FirstToken(tokens[0], tail);
      if |tokens| > 1 { JoinSplits(tokens[1..]); }
    }
  }

  lemma WholeTokens(tokens: seq<string>)
    requires forall t | t in tokens :: Separable(t)
    ensures forall t | t in tokens :: Whole(t)
  {
    assert forall t | t in tokens :: Separable(t) ==> Whole(t);
  }

  /** A whole word is the first word of any text in which a blank or nothing follows it. */
  lemma FirstToken(t: string, tail: string)
    requires Whole(t) && (tail == "" || AsciiBlank(tail[0]))
    ensures StorageWords(t + tail) == [t] + (if tail == "" then [] else StorageWords(tail[1..]))
  {
    hide StorageWords, WordRun, TokenRun, Unfinished, ScanToken;
    var text := t + tail;
    WordsStep(text);
    assert text[0..] == text && text[..|t|] == t;
    if tail == "" {
      assert text == t;
      WordsStep("");
    } else {
      WordAppend(t, tail, BARE);
      assert text[|t| + 1..] == tail[1..];
    }
  }

  lemma {:induction false} FinishedStayApart(tokens: seq<string>)
    requires forall t | t in tokens :: !Unfinished(t)
    ensures Merged(tokens) == tokens
  {
    if tokens != [] {
      var n := |tokens| - 1;
      FinishedStayApart(tokens[..n]);
      assert tokens[..n] + [tokens[n]] == tokens;
    }
  }

  /** Words joined by single blanks inside parentheses come back as the tokens they were. */
  lemma {:induction false} TokensReadBack(tokens: seq<string>)
    requires forall t | t in tokens :: Separable(t)
    ensures Enclosed("(" + Join(tokens, " ") + ")", '(', ')') == Some(Join(tokens, " "))
    ensures Merged(StorageWords(Join(tokens, " "))) == tokens
  {
    var j := Join(tokens, " ");
    assert ("(" + j + ")")[1..|j| + 1] == j;
    JoinSplits(tokens);
    FinishedStayApart(tokens);
  }

  // ----- Unquoting what was quoted

  /** The four replacements act on every character independently. */
  lemma {:induction false} MarkersInOnePass(s: string)
    ensures ReplaceMarkers(s) == RestoreMarkers(s)
  {
    if s != "" {
      MarkersInOnePass(s[1..]);
      var h, t := [s[0]], s[1..];
      assert s == h + t && h[1..] == "";
      ReplaceAppend(h, t, '\U{1F}', "$");
      var h1, t1 := ReplaceChar(h, '\U{1F}', "$"), ReplaceChar(t, '\U{1F}', "$");
      assert |h1| == 1 && h1[1..] == "";
      ReplaceAppend(h1, t1, '\U{1A}', "`");
      var h2, t2 := ReplaceChar(h1, '\U{1A}', "`"), ReplaceChar(t1, '\U{1A}', "`");
      assert |h2| == 1 && h2[1..] == "";
      ReplaceAppend(h2, t2, '\U{17}', "'");
      var h3, t3 := ReplaceChar(h2, '\U{17}', "'"), ReplaceChar(t2, '\U{17}', "'");
      assert |h3| == 1 && h3[1..] == "";
      ReplaceAppend(h3, t3, '\U{14}', "\\");
    }
  }

  lemma {:induction false} UnescapeEscaped(s: string)
    ensures UnescapeDouble(EscapeDouble(s), false) == s
  {
    if s != "" {
      UnescapeEscaped(s[1..]);
      var tail := EscapeDouble(s[1..]);
      if s[0] == '"' || s[0] == '\\' {
        assert EscapeDouble(s)[1..] == [s[0]] + tail && ([s[0]] + tail)[1..] == tail;
      } else {
        assert EscapeDouble(s)[1..] == tail;
      }
    }
  }

  lemma {:induction false} UnquoteForced(s: string)
    ensures Unquote(QuoteForced(s)) == Canonical(s)
  {
    var text := QuoteForced(s);
    assert text[0] == '"' && text[|text| - 1] == '"' && text[1..|text| - 1] == EscapeDouble(s);
    UnescapeEscaped(s);
    MarkersInOnePass(s);
  }

  lemma {:induction false} UnquotePlain(s: string)
    requires s != "" && forall c | c in s :: !ForcesValueQuotes(c)
    ensures Unquote(s) == Canonical(s)
  {
    assert s[0] in s && SENTINEL[0] == '\\';
    MarkersInOnePass(s);
  }

  lemma {:induction false} UnquoteQuoted(s: string)
    ensures Unquote(QuoteKey(s)) == Canonical(s) && Unquote(QuoteValue(s)) == Canonical(s)
  {
    UnquoteForced(s);
    if s != "" && forall c | c in s :: !ForcesValueQuotes(c) { UnquotePlain(s); }
    if s != "" && forall c | c in s :: !ForcesKeyQuotes(c) { assert forall c | c in s :: !ForcesValueQuotes(c); }
  }

  lemma {:induction false} CanonicalFixed(s: string)
    ensures Canonical(s) == s <==> Storable(s)
  {
    RestoreFixed(s);
    assert |SENTINEL| == 3 && |EMPTY_QUOTES| == 2;
  }

  lemma {:induction false} RestoreFixed(s: string)
    ensures |RestoreMarkers(s)| == |s|
    ensures RestoreMarkers(s) == s <==> forall c | c in s :: !Marker(c)
  {
    if s != "" {
      RestoreFixed(s[1..]);
      var r := RestoreMarkers(s);
      assert r[1..] == RestoreMarkers(s[1..]);
      assert s == [s[0]] + s[1..] && r == [r[0]] + r[1..];
      assert (forall c | c in s :: !Marker(c)) <==> !Marker(s[0]) && forall c | c in s[1..] :: !Marker(c);
      assert r == s <==> r[0] == s[0] && r[1..] == s[1..];
    }
  }

  // ----- The codec

  lemma {:induction false} PairReadsBack(e: Entry)
    ensures Separable(FormatPair(e)) && EntryOf(FormatPair(e)) == Some((Canonical(e.0), Canonical(e.1)))
  {
    assert FormatPair(e) == PairText(QuoteKey(e.0), "=", QuoteValue(e.1));
    hide QuoteKey, QuoteValue, PairText, FormatPair, Canonical, Inert, Unquote;
    QuotedIsInert(e.0);
    QuotedIsInert(e.1);
    PairTextReads(QuoteKey(e.0), "=", QuoteValue(e.1));
    UnquoteQuoted(e.0);
    UnquoteQuoted(e.1);
  }

  lemma {:induction false} PairsReadBack(es: seq<Entry>)
    ensures forall t | t in FormatPairs(es) :: Separable(t)
    ensures EntriesOf(FormatPairs(es)) == CanonicalEntries(es)
  {
    if es != [] {
      PairReadsBack(es[0]);
      PairsReadBack(es[1..]);
    }
  }

  /** Whatever the strings are, reading a stored array yields its entries with every string canonical. */
  lemma {:induction false} StoredReadsBack(es: seq<Entry>)
    ensures AssocEntries(FormatAssoc(es)) == CanonicalEntries(es)
  {
    PairsReadBack(es);
    TokensReadBack(FormatPairs(es));
  }

  /** The array comes back unchanged exactly when every key and value is storable. */
  lemma {:induction false} RoundTrip(es: seq<Entry>)
    ensures AssocEntries(FormatAssoc(es)) == es <==> AllStorable(es)
  {
    StoredReadsBack(es);
    EntriesFixed(es);
  }

  lemma {:induction false} EntriesFixed(es: seq<Entry>)
    ensures |CanonicalEntries(es)| == |es|
    ensures CanonicalEntries(es) == es <==> AllStorable(es)
  {
    if es != [] {
      EntriesFixed(es[1..]);
      CanonicalFixed(es[0].0);
      CanonicalFixed(es[0].1);
      assert es == [es[0]] + es[1..];
      assert AllStorable(es) <==> Storable(es[0].0) && Storable(es[0].1) && AllStorable(es[1..]);
    }
  }

  /** The shortest array that storage changes: one whose value is the text `\"\`. */
  lemma SentinelIsLost()
    ensures AssocEntries(FormatAssoc([("k", SENTINEL)])) == [("k", EMPTY_QUOTES)]
  {
    StoredReadsBack([("k", SENTINEL)]);
    CanonicalFixed("k");
  }
}
