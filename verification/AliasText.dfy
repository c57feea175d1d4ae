/** Alias texts and the state that alias expansion looks at, in characters. */
module AliasText {
  import opened Text
  import opened Aliases
  import F = AssocForms
  import IndexedCodec

  // ----- The text of an alias

  /** No backslash before a newline. */
  predicate Straight(s: string) { forall i | 0 <= i < |s| - 1 :: !(s[i] == '\\' && s[i + 1] == '\n') }

  lemma StraightTail(s: string)
    requires s != "" && Straight(s)
    ensures Straight(s[1..])
  {
    var t := s[1..];
    forall i | 0 <= i < |t| - 1 ensures !(t[i] == '\\' && t[i + 1] == '\n') {
      assert t[i] == s[i + 1] && t[i + 1] == s[i + 1 + 1];
    }
  }

  lemma {:induction false} UnfoldedStraight(s: string)
    requires Straight(s)
    ensures Unfolded(s) == s
  {
    if s != "" {
      StraightTail(s);
      UnfoldedStraight(s[1..]);
      assert s == [s[0]] + s[1..];
    }
  }

  lemma {:induction false} UnfoldedFirst(s: string, rest: string)
    requires Straight(s)
    ensures Unfolded(s + "\\\n" + rest) == s + Unfolded(rest)
  {
    var text := s + "\\\n" + rest;
    if s == "" {
      assert text == "\\\n" + rest && text[2..] == rest;
    } else {
      StraightTail(s);
      UnfoldedFirst(s[1..], rest);
      assert text[1..] == s[1..] + "\\\n" + rest;
      assert |s| > 1 ==> text[1] == s[1];
    }
  }

  function Concat(lines: seq<string>): string { if lines == [] then "" else lines[0] + Concat(lines[1..]) }

  /** A new alias has its text with the continued lines joined, and asks for more when that ends in a space or a tab. */
  lemma {:induction false} NewAliasIs(lines: seq<string>)
    requires lines != [] && forall line | line in lines :: Straight(line)
    ensures var text := Concat(lines);
            NewAlias(Join(lines, "\\\n")) ==
            Alias(text, text != "" && (text[|text| - 1] == ' ' || text[|text| - 1] == '\t'))
  {
    assert lines[0] in lines && forall line | line in lines[1..] :: line in lines;
    if |lines| == 1 {
      UnfoldedStraight(lines[0]);
      assert lines[0] + "" == lines[0] && lines[1..] == [];
    } else {
      NewAliasIs(lines[1..]);
      UnfoldedFirst(lines[0], Join(lines[1..], "\\\n"));
    }
  }

  /** The characters that separate the words of an alias text. */
  predicate WhiteSpace(c: char) {
    var n := c as int;
    || n in {0x09, 0x0A, 0x0B, 0x0C, 0x0D, 0x20, 0x85, 0xA0, 0x1680, 0x2028, 0x2029, 0x202F, 0x205F, 0x3000}
    || 0x2000 <= n <= 0x200A
  }

  lemma {:induction false} WhitePrefix(gap: string, rest: string)
    requires forall c | c in gap :: WhiteSpace(c)
    ensures Parts(gap + rest) == Parts(rest)
  {
    if gap == "" {
      assert gap + rest == rest;
    } else {
      assert gap[0] in gap && (gap + rest)[1..] == gap[1..] + rest;
      WhitePrefix(gap[1..], rest);
    }
  }

  lemma {:induction false} WordFirst(word: string, rest: string)
    requires (forall c | c in word :: !WhiteSpace(c)) && (rest == "" || WhiteSpace(rest[0]))
    ensures WordLength(word + rest) == |word|
  {
    if word == "" {
      assert word + rest == rest;
    } else {
      assert word[0] in word && (word + rest)[1..] == word[1..] + rest;
      WordFirst(word[1..], rest);
    }
  }

  lemma WordThenBlanks(w: string, g: string, more: string)
    requires w != "" && (forall c | c in w :: !WhiteSpace(c)) && forall c | c in g :: WhiteSpace(c)
    requires g == "" ==> more == ""
    ensures Parts(w + g + more) == [w] + Parts(more)
  {
    hide Parts, IsWhitespace, WhiteSpace, WordLength;
    var rest := g + more;
    assert w + g + more == w + rest;
    assert rest == "" || WhiteSpace(rest[0]) by { if g != "" { assert rest[0] == g[0] && g[0] in g; } }
    WordFirst(w, rest);
    PartsStep(w + rest, |w|);
    assert (w + rest)[..|w|] == w && (w + rest)[|w|..] == rest;
    WhitePrefix(g, more);
  }

  /** The words of an alias text are what stands between white space, wherever that is. */
  lemma {:induction false} PartsAre(lead: string, words: seq<string>, gaps: seq<string>)
    requires |gaps| == |words| && forall c | c in lead :: WhiteSpace(c)
    requires forall w | w in words :: w != "" && forall c | c in w :: !WhiteSpace(c)
    requires forall g | g in gaps :: forall c | c in g :: WhiteSpace(c)
    requires forall i | 0 <= i < |gaps| - 1 :: gaps[i] != ""
    ensures Parts(lead + Gapped(words, gaps)) == words
    decreases |words|
  {
    hide Parts, WhiteSpace;
    WhitePrefix(lead, Gapped(words, gaps));
    if words == [] {
      NoParts();
    } else {
      var w, g, more := words[0], gaps[0], Gapped(words[1..], gaps[1..]);
      assert w in words && g in gaps;
      assert forall x | x in words[1..] :: x in words;
      assert forall x | x in gaps[1..] :: x in gaps;
      forall i | 0 <= i < |gaps[1..]| - 1 ensures gaps[1..][i] != "" { assert gaps[1..][i] == gaps[i + 1]; }
      PartsAre("", words[1..], gaps[1..]);
      assert "" + more == more && (g == "" ==> more == "");
      hide Gapped;
      WordThenBlanks(w, g, more);
      assert words == [w] + words[1..];
    }
  }

  function Gapped(words: seq<string>, gaps: seq<string>): string
    requires |gaps| == |words|
  {
    if words == [] then "" else words[0] + gaps[0] + Gapped(words[1..], gaps[1..])
  }

  // ----- Quotes that are open at the end

  /** Text outside quotes and whole quoted texts. */
  datatype Chunk = Bare(pieces: seq<F.Piece>) | Single(text: string) | Double(pieces: seq<F.Piece>)

  predicate WellFormed(c: Chunk) {
    match c
    case Bare(pieces) => forall p | p in pieces && p.Letter? :: p.c != '\'' && p.c != '"' && p.c != '\\'
    case Single(text) => '\'' !in text
    case Double(pieces) => forall p | p in pieces && p.Letter? :: p.c != '"' && p.c != '\\'
  }

  function ChunkText(c: Chunk): string {
    match c
    case Bare(pieces) => F.Spelled(pieces)
    case Single(text) => "'" + text + "'"
    case Double(pieces) => "\"" + F.Spelled(pieces) + "\""
  }

  function ChunksText(chunks: seq<Chunk>): string {
    if chunks == [] then "" else ChunkText(chunks[0]) + ChunksText(chunks[1..])
  }

  lemma {:induction false} InSingle(text: string, rest: string)
    requires '\'' !in text
    ensures QuoteAtEnd(text + rest, Quote.Single) == QuoteAtEnd(rest, Quote.Single)
  {
    if text == "" {
      assert text + rest == rest;
    } else {
      assert (text + rest)[1..] == text[1..] + rest;
      InSingle(text[1..], rest);
    }
  }

  lemma {:induction false} InPieces(pieces: seq<F.Piece>, rest: string, q: Quote)
    requires q != Quote.Single
    requires forall p | p in pieces && p.Letter? :: p.c != '"' && p.c != '\\' && (q == Unquoted ==> p.c != '\'')
    ensures QuoteAtEnd(F.Spelled(pieces) + rest, q) == QuoteAtEnd(rest, q)
  {
    if pieces == [] {
      assert F.Spelled(pieces) + rest == rest;
    } else {
      var p, more := pieces[0], F.Spelled(pieces[1..]) + rest;
      assert p in pieces && forall x | x in pieces[1..] :: x in pieces;
      InPieces(pieces[1..], rest, q);
      F.SpelledStep(pieces);
      var text := F.Spelled(pieces) + rest;
      if p.Letter? {
        assert text == [p.c] + more && text[1..] == more;
      } else {
        assert text == ['\\', p.c] + more && text[2..] == more;
      }
    }
  }

  lemma ChunkPassed(c: Chunk, rest: string)
    requires WellFormed(c)
    ensures QuoteAtEnd(ChunkText(c) + rest, Unquoted) == QuoteAtEnd(rest, Unquoted)
  {
    hide QuoteAtEnd;
    match c
    case Bare(pieces) => InPieces(pieces, rest, Unquoted);
    case Single(text) =>
      var tail := "'" + rest;
      assert ChunkText(c) + rest == "'" + (text + tail);
      QuoteTurns('\'', text + tail, Unquoted);
      InSingle(text, tail);
      QuoteTurns('\'', rest, Quote.Single);
    case Double(pieces) =>
      var tail := "\"" + rest;
      assert ChunkText(c) + rest == "\"" + (F.Spelled(pieces) + tail);
      QuoteTurns('"', F.Spelled(pieces) + tail, Unquoted);
      InPieces(pieces, tail, Quote.Double);
      QuoteTurns('"', rest, Quote.Double);
  }

  lemma QuoteTurns(c: char, rest: string, q: Quote)
    requires c == '\'' || c == '"'
    ensures QuoteAtEnd([c] + rest, q) == QuoteAtEnd(rest, NextQuote(q, c))
  {
    assert ([c] + rest)[1..] == rest;
  }

  lemma ChunksSplit(chunks: seq<Chunk>, rest: string)
    requires chunks != []
    ensures ChunksText(chunks) + rest == ChunkText(chunks[0]) + (ChunksText(chunks[1..]) + rest)
  {
    hide ChunkText;
  }

  lemma {:induction false} ChunksPassed(chunks: seq<Chunk>, rest: string)
    requires forall c | c in chunks :: WellFormed(c)
    ensures QuoteAtEnd(ChunksText(chunks) + rest, Unquoted) == QuoteAtEnd(rest, Unquoted)
  {
    if chunks == [] {
      assert ChunksText(chunks) + rest == rest;
    } else {
      hide *;
      ChunksSplit(chunks, rest);
      ChunksPassed(chunks[1..], rest) by { assert forall c | c in chunks[1..] :: c in chunks; }
      ChunkPassed(chunks[0], ChunksText(chunks[1..]) + rest) by { assert chunks[0] in chunks; }
    }
  }

  /** Whole quoted texts leave nothing open, and neither does a backslash at the end; a quote without its end does. */
  lemma QuotesAtEnd(chunks: seq<Chunk>, text: string, pieces: seq<F.Piece>)
    requires forall c | c in chunks :: WellFormed(c)
    requires '\'' !in text && forall p | p in pieces && p.Letter? :: p.c != '"' && p.c != '\\'
    ensures QuoteAtEnd(ChunksText(chunks), Unquoted) == Unquoted
    ensures QuoteAtEnd(ChunksText(chunks) + "\\", Unquoted) == Unquoted
    ensures QuoteAtEnd(ChunksText(chunks) + ("'" + text), Unquoted) == Quote.Single
    ensures QuoteAtEnd(ChunksText(chunks) + ("\"" + F.Spelled(pieces)), Unquoted) == Quote.Double
  {
    ChunksPassed(chunks, "");
    assert ChunksText(chunks) + "" == ChunksText(chunks);
    ChunksPassed(chunks, "\\");
    ChunksPassed(chunks, "'" + text);
    ChunksPassed(chunks, "\"" + F.Spelled(pieces));
    assert ("'" + text)[1..] == text && ("\"" + F.Spelled(pieces))[1..] == F.Spelled(pieces);
    InSingle(text, "");
    InPieces(pieces, "", Quote.Double);
    assert text + "" == text && F.Spelled(pieces) + "" == F.Spelled(pieces);
  }

  // ----- The state

  /** An alias is held back when it was defined on the line that is being read, its text has no operator and no open
      quote, and its first word does not open a compound command. */
  lemma HeldExactly(sh: Shell, word: string)
    requires word in sh.aliases
    ensures var text, env := sh.aliases[word].value, sh.env;
            Held(sh, word) <==>
            && "__RUBASH_CURRENT_LINE" in env && "__RUBASH_ALIAS_LINE_" + word in env
            && IndexedCodec.ParseIndex(env["__RUBASH_CURRENT_LINE"]).Some?
            && IndexedCodec.ParseIndex(env["__RUBASH_ALIAS_LINE_" + word]) ==
               IndexedCodec.ParseIndex(env["__RUBASH_CURRENT_LINE"])
            && (forall c | c in text :: c !in {';', '\n', '<', '>', '|', '&'})
            && QuoteAtEnd(text, Unquoted) == Unquoted
            && (Parts(text) == [] || Parts(text)[0] !in
                {"if", "case", "for", "while", "until", "select", "function", "!", "(", "{", "then", "elif", "else",
                 "fi", "do", "done", "in", "esac", "coproc"})
  {
    hide QuoteAtEnd, Parts, IndexedCodec.ParseIndex;
  }

  /** Words that stop the expansion which keeps reserved words. */
  lemma ReservedWords(word: string)
    ensures word in RESERVED_WORDS <==>
            word in {"if", "then", "else", "elif", "fi", "while", "do", "done", "until", "for", "case", "esac", "in",
                     "function", "select", "time", "coproc"}
  {
  }

  /** Expansion is on when `expand_aliases` is one of the options that are set. */
  lemma EnabledExactly(sh: Shell, options: seq<string>)
    requires options != [] && forall o | o in options :: '\U{1F}' !in o
    ensures !("__RUBASH_SHOPT_STATE" in sh.env) ==> !Enabled(sh)
    ensures "__RUBASH_SHOPT_STATE" in sh.env && sh.env["__RUBASH_SHOPT_STATE"] == Join(options, "\U{1F}") ==>
              (Enabled(sh) <==> "expand_aliases" in options)
  {
    assert ['\U{1F}'] == "\U{1F}";
    SplitAtJoin(options, '\U{1F}', "\U{1F}");
  }
}
