/** Alias expansion: which aliases a word is replaced by, and how far along a command expansion goes. */
module Aliases {
  import opened Text
  import IndexedCodec

  datatype Alias = Alias(value: string, expandNext: bool)

  /** The executor's alias table and the shell state kept beside it. */
  datatype Shell = Shell(aliases: map<string, Alias>, env: map<string, string>)

  /** A backslash before a newline joins two lines of alias text. */
  function Unfolded(value: string): string {
    if value == "" then ""
    else if |value| >= 2 && value[0] == '\\' && value[1] == '\n' then Unfolded(value[2..])
    else [value[0]] + Unfolded(value[1..])
  }

  predicate EndsInBlank(s: string) { s != "" && s[|s| - 1] in [' ', '\t'] }

  function NewAlias(text: string): Alias {
    var value := Unfolded(text);
    Alias(value, EndsInBlank(value))
  }

  // ----- Words of an alias value

  function WordLength(s: string): (n: nat)
    ensures n <= |s| && (forall i | 0 <= i < n :: !IsWhitespace(s[i])) && (n < |s| ==> IsWhitespace(s[n]))
  {
    if s == "" || IsWhitespace(s[0]) then 0 else 1 + WordLength(s[1..])
  }

  /** `str::split_whitespace`. */
  function Parts(s: string): (parts: seq<string>)
    ensures forall i | 0 <= i < |parts| :: parts[i] != ""
  {
    if s == "" then []
    else if IsWhitespace(s[0]) then Parts(s[1..])
    else
      var n := WordLength(s);
      [s[..n]] + Parts(s[n..])
  }

  // ----- Aliases that are not expanded yet

  datatype Quote = Unquoted | Single | Double

  function NextQuote(q: Quote, c: char): Quote {
    if c == '\'' && q != Double then (if q == Single then Unquoted else Single)
    else if c == '"' && q != Single then (if q == Double then Unquoted else Double)
    else q
  }

  /** The quotes open at the end of a text that starts inside `q`. */
  function QuoteAtEnd(s: string, q: Quote): Quote {
    if s == "" then q
    else if s[0] == '\\' && q != Single then (if |s| == 1 then q else QuoteAtEnd(s[2..], q))
    else QuoteAtEnd(s[1..], NextQuote(q, s[0]))
  }

  lemma QuoteStep(s: string, i: nat, q: Quote)
    requires i < |s|
    ensures s[i] == '\\' && q != Single && i + 1 < |s| ==> QuoteAtEnd(s[i..], q) == QuoteAtEnd(s[i + 2..], q)
    ensures s[i] == '\\' && q != Single && i + 1 == |s| ==> QuoteAtEnd(s[i..], q) == q
    ensures s[i] != '\\' || q == Single ==> QuoteAtEnd(s[i..], q) == QuoteAtEnd(s[i + 1..], NextQuote(q, s[i]))
  {
    assert s[i..][0] == s[i] && s[i..][1..] == s[i + 1..];
    if i + 1 < |s| { assert s[i..][2..] == s[i + 2..]; }
  }

  function OpenQuote(single: bool, double: bool): Quote {
    if single then Single else if double then Double else Unquoted
  }

  method HasUnclosedQuote(value: string) returns (unclosed: bool)
    ensures unclosed <==> QuoteAtEnd(value, Unquoted) != Unquoted
  {
    hide QuoteAtEnd;
    ghost var goal := QuoteAtEnd(value, Unquoted);
    var single, double, escaped := false, false, false;
    assert value[0..] == value;
    for i := 0 to |value|
      invariant !(single && double)
      invariant escaped ==> i > 0 && value[i - 1] == '\\' && !single
      invariant QuoteAtEnd(value[if escaped then i - 1 else i..], OpenQuote(single, double)) == goal
    {
      var ch := value[i];
      QuoteStep(value, if escaped then i - 1 else i, OpenQuote(single, double));
      if escaped {
        escaped := false;
        continue;
      }
      if ch == '\\' && !single {
        escaped := true;
        continue;
      }
      if ch == '\'' && !double {
        single := !single;
      } else if ch == '"' && !single {
        double := !double;
      }
    }
    if escaped {
      QuoteStep(value, |value| - 1, OpenQuote(single, double));
    } else {
      QuoteEnds(OpenQuote(single, double));
      assert value[|value|..] == "";
    }
    return single || double;
  }

  lemma QuoteEnds(q: Quote)
    ensures QuoteAtEnd("", q) == q
  {
  }

  predicate NeedsParser(value: string) {
    (exists c | c in value :: c in [';', '\n', '<', '>', '|', '&']) || QuoteAtEnd(value, Unquoted) != Unquoted
  }

  const OPENING_WORDS: seq<string> :=
    ["if", "case", "for", "while", "until", "select", "function", "!", "(", "{", "then", "elif", "else", "fi", "do",
      "done",
     "in", "esac", "coproc"]

  const RESERVED_WORDS: seq<string> :=
    ["if", "then", "else", "elif", "fi", "while", "do", "done", "until", "for", "case", "esac", "in", "function",
      "select",
     "time", "coproc"]

  predicate StartsReserved(value: string) { Parts(value) != [] && Parts(value)[0] in OPENING_WORDS }

  const LINE := "__RUBASH_CURRENT_LINE"
  const ALIAS_LINE := "__RUBASH_ALIAS_LINE_"

  function LineNumber(sh: Shell, key: string): Option<nat> {
    if key in sh.env then IndexedCodec.ParseIndex(sh.env[key]) else None
  }

  predicate DefinedOnCurrentLine(sh: Shell, word: string) {
    LineNumber(sh, LINE).Some? && LineNumber(sh, ALIAS_LINE + word) == LineNumber(sh, LINE)
  }

  /** An alias defined on the line being read is not seen yet, unless its text has to be parsed again anyway. */
  predicate Held(sh: Shell, word: string)
    requires word in sh.aliases
  {
    var value := sh.aliases[word].value;
    DefinedOnCurrentLine(sh, word) && !NeedsParser(value) && !StartsReserved(value)
  }

  // ----- One word

  function Elements(s: seq<string>): set<string> { set x | x in s }

  /** Words that stay as they are. */
  predicate Settled(sh: Shell, word: string, seen: seq<string>) {
    word in seen || word !in sh.aliases || Held(sh, word)
  }

  lemma OneLess(sh: Shell, word: string, seen: seq<string>)
    requires !Settled(sh, word, seen)
    ensures |sh.aliases.Keys - Elements(seen + [word])| < |sh.aliases.Keys - Elements(seen)|
  {
    var before, after := sh.aliases.Keys - Elements(seen), sh.aliases.Keys - Elements(seen + [word]);
    assert before == after + {word};
  }

  /** What a word becomes, and whether the word after it is expanded as well. */
  function Expand(sh: Shell, word: string, seen: seq<string>): (seq<string>, bool)
    decreases |sh.aliases.Keys - Elements(seen)|
  {
    if Settled(sh, word, seen) then ([word], false)
    else if sh.aliases[word].value == "" then ([], false)
    else
      var Alias(value, expandNext) := sh.aliases[word];
      var parts := Parts(value);
      if parts == [] then ([], expandNext)
      else
        OneLess(sh, word, seen);
        var (first, nested) := Expand(sh, parts[0], seen + [word]);
        (first + parts[1..], expandNext || nested)
  }

  /** The aliases replaced on the way, in order. */
  function Chain(sh: Shell, word: string, seen: seq<string>): seq<string>
    decreases |sh.aliases.Keys - Elements(seen)|
  {
    if Settled(sh, word, seen) || sh.aliases[word].value == "" then []
    else
      var parts := Parts(sh.aliases[word].value);
      if parts == [] then [word]
      else
        OneLess(sh, word, seen);
        [word] + Chain(sh, parts[0], seen + [word])
  }

  // ----- What expansion means

  predicate Distinct(s: seq<string>) { forall i, j | 0 <= i < j < |s| :: s[i] != s[j] }

  /** A word whose text is put in its place. */
  predicate Replaced(sh: Shell, word: string, seen: seq<string>) {
    !Settled(sh, word, seen) && sh.aliases[word].value != ""
  }

  /** A word that is dropped. */
  predicate Vanishes(sh: Shell, word: string, seen: seq<string>) {
    !Settled(sh, word, seen) && sh.aliases[word].value == ""
  }

  /** The words of an alias. */
  function Words(sh: Shell, word: string): seq<string> {
    if word in sh.aliases then Parts(sh.aliases[word].value) else []
  }

  /** Each alias on the chain may be replaced, and its text starts with the next one. */
  predicate Follows(sh: Shell, word: string, seen: seq<string>, chain: seq<string>) {
    && (chain != [] ==> chain[0] == word)
    && Distinct(chain)
    && (forall a | a in chain :: Replaced(sh, a, seen))
    && (forall i | 0 <= i < |chain| - 1 :: Words(sh, chain[i]) != [] && Words(sh, chain[i])[0] == chain[i + 1])
  }

  /** The word at the end of the chain; none when the last text is blank. */
  function Head(sh: Shell, word: string, chain: seq<string>): Option<string> {
    if chain == [] then Some(word)
    else
      var parts := Words(sh, chain[|chain| - 1]);
      if parts == [] then None else Some(parts[0])
  }

  /** The chain goes on until a word is not replaced, or a text has no word. */
  predicate Ends(sh: Shell, word: string, seen: seq<string>, chain: seq<string>) {
    var head := Head(sh, word, chain);
    head.Some? ==> !Replaced(sh, head.value, seen + chain)
  }

  /** The words left after the first one of each text, innermost text first. */
  function Tails(sh: Shell, chain: seq<string>): seq<string> {
    if chain == [] then []
    else Tails(sh, chain[1..]) + (if Words(sh, chain[0]) == [] then [] else Words(sh, chain[0])[1..])
  }

  lemma FollowsLonger(sh: Shell, word: string, seen: seq<string>, rest: seq<string>)
    requires Replaced(sh, word, seen)
    requires rest == [] || (Words(sh, word) != [] && Follows(sh, Words(sh, word)[0], seen + [word], rest))
    ensures Follows(sh, word, seen, [word] + rest)
  {
    hide Words, Held;
    var chain := [word] + rest;
    forall a | a in rest ensures a != word && Replaced(sh, a, seen) {
      assert Replaced(sh, a, seen + [word]);
    }
    forall i | 0 <= i < |chain| - 1 ensures Words(sh, chain[i]) != [] && Words(sh, chain[i])[0] == chain[i + 1] {
      if i > 0 { assert chain[i] == rest[i - 1] && rest[i - 1 + 1] == chain[i + 1]; }
    }
  }

  lemma FollowsShorter(sh: Shell, word: string, seen: seq<string>, chain: seq<string>)
    requires chain != [] && Follows(sh, word, seen, chain)
    ensures Replaced(sh, word, seen)
    ensures |chain| > 1 ==> Words(sh, word) != []
    ensures Words(sh, word) != [] ==> Follows(sh, Words(sh, word)[0], seen + [word], chain[1..])
  {
    hide Words, Held;
    var rest := chain[1..];
    forall a | a in rest ensures a != word && Replaced(sh, a, seen + [word]) {
      var i :| 0 <= i < |rest| && rest[i] == a;
      assert a == chain[i + 1] && chain[0] != chain[i + 1];
      assert Replaced(sh, a, seen);
    }
    forall i | 0 <= i < |rest| - 1 ensures Words(sh, rest[i]) != [] && Words(sh, rest[i])[0] == rest[i + 1] {
      assert rest[i] == chain[i + 1] && rest[i + 1] == chain[i + 1 + 1];
    }
    if |chain| > 1 { assert chain[0 + 1] == rest[0]; }
  }

  /** Where a chain ends does not depend on its first alias, once that one counts as seen. */
  lemma EndsShorter(sh: Shell, word: string, seen: seq<string>, rest: seq<string>)
    requires Words(sh, word) != []
    ensures Head(sh, word, [word] + rest) == Head(sh, Words(sh, word)[0], rest)
    ensures seen + ([word] + rest) == (seen + [word]) + rest
  {
    if rest != [] { assert ([word] + rest)[|rest|] == rest[|rest| - 1]; }
  }

  lemma ChainStep(sh: Shell, word: string, seen: seq<string>)
    ensures !Replaced(sh, word, seen) ==> Chain(sh, word, seen) == []
    ensures Replaced(sh, word, seen) && Words(sh, word) == [] ==> Chain(sh, word, seen) == [word]
    ensures Replaced(sh, word, seen) && Words(sh, word) != [] ==>
              |sh.aliases.Keys - Elements(seen + [word])| < |sh.aliases.Keys - Elements(seen)|
              && Chain(sh, word, seen) == [word] + Chain(sh, Words(sh, word)[0], seen + [word])
  {
    hide Held, Parts;
    if Replaced(sh, word, seen) { OneLess(sh, word, seen); }
  }

  lemma ExpandStep(sh: Shell, word: string, seen: seq<string>)
    ensures !Replaced(sh, word, seen) ==>
              Expand(sh, word, seen) == (if Vanishes(sh, word, seen) then [] else [word], false)
    ensures Replaced(sh, word, seen) && Words(sh, word) == [] ==>
              Expand(sh, word, seen) == ([], sh.aliases[word].expandNext)
    ensures Replaced(sh, word, seen) && Words(sh, word) != [] ==>
              var inner := Expand(sh, Words(sh, word)[0], seen + [word]);
              Expand(sh, word, seen) == (inner.0 + Words(sh, word)[1..], sh.aliases[word].expandNext || inner.1)
  {
    hide Held, Parts;
    if Replaced(sh, word, seen) { OneLess(sh, word, seen); }
  }

  method ExpandAliasWord(sh: Shell, word: string, seenBefore: seq<string>)
    returns (words: seq<string>, expandNext: bool, seen: seq<string>)
    ensures (words, expandNext) == Expand(sh, word, seenBefore)
    ensures seen == seenBefore + Chain(sh, word, seenBefore)
    decreases |sh.aliases.Keys - Elements(seenBefore)|
  {
    hide Expand, Chain, Held, Parts, Elements;
    ChainStep(sh, word, seenBefore);
    ExpandStep(sh, word, seenBefore);
    seen := seenBefore;
    if word in seen || word !in sh.aliases { return [word], false, seen; }
    var alias := sh.aliases[word];
    if Held(sh, word) { return [word], false, seen; }
    if alias.value == "" { return [], false, seen; }

    seen := seen + [word];
    var parts := Parts(alias.value);
    if parts == [] { return [], alias.expandNext, seen; }
    var first, nested;
    first, nested, seen := ExpandAliasWord(sh, parts[0], seen);
    return first + parts[1..], alias.expandNext || nested, seen;
  }

  lemma {:induction false} ChainFollows(sh: Shell, word: string, seen: seq<string>)
    ensures Follows(sh, word, seen, Chain(sh, word, seen)) && Ends(sh, word, seen, Chain(sh, word, seen))
    decreases |sh.aliases.Keys - Elements(seen)|
  {
    assert Follows(sh, word, seen, []);
    hide Chain, Replaced, Words, Follows;
    ChainStep(sh, word, seen);
    if !Replaced(sh, word, seen) {
      assert seen + [] == seen;
    } else if Words(sh, word) == [] {
      FollowsLonger(sh, word, seen, []);
      assert [word] + [] == [word];
    } else {
      var rest := Chain(sh, Words(sh, word)[0], seen + [word]);
      ChainFollows(sh, Words(sh, word)[0], seen + [word]);
      FollowsLonger(sh, word, seen, rest);
      EndsShorter(sh, word, seen, rest);
    }
  }

  /** There is only one such chain. */
  lemma {:induction false} ChainUnique(sh: Shell, word: string, seen: seq<string>, chain: seq<string>)
    requires Follows(sh, word, seen, chain) && Ends(sh, word, seen, chain)
    ensures chain == Chain(sh, word, seen)
    decreases |chain|
  {
    assert chain != [] ==> chain[0] == word;
    hide Chain, Replaced, Words, Follows;
    ChainStep(sh, word, seen);
    if chain == [] {
      assert seen + chain == seen;
    } else {
      FollowsShorter(sh, word, seen, chain);
      assert chain == [word] + chain[1..];
      if Words(sh, word) != [] {
        EndsShorter(sh, word, seen, chain[1..]);
        ChainUnique(sh, Words(sh, word)[0], seen + [word], chain[1..]);
      }
    }
  }

  lemma {:induction false} DistinctBound(s: seq<string>, within: set<string>)
    requires Distinct(s) && forall a | a in s :: a in within
    ensures |s| <= |within|
  {
    if s != [] { DistinctBound(s[1..], within - {s[0]}); }
  }

  predicate Continues(sh: Shell, chain: seq<string>) {
    exists a | a in chain :: a in sh.aliases && sh.aliases[a].expandNext
  }

  /** What is left of the word at the end of the chain. */
  function FirstWord(sh: Shell, word: string, seen: seq<string>, chain: seq<string>): seq<string> {
    var head := Head(sh, word, chain);
    if head.None? || Vanishes(sh, head.value, seen + chain) then [] else [head.value]
  }

  lemma LongerChain(sh: Shell, word: string, seen: seq<string>, rest: seq<string>)
    requires word in sh.aliases
    ensures Words(sh, word) != [] ==>
              && FirstWord(sh, word, seen, [word] + rest) == FirstWord(sh, Words(sh, word)[0], seen + [word], rest)
              && Tails(sh, [word] + rest) == Tails(sh, rest) + Words(sh, word)[1..]
    ensures Words(sh, word) == [] ==> Tails(sh, [word]) == [] && FirstWord(sh, word, seen, [word]) == []
    ensures Continues(sh, [word] + rest) == (sh.aliases[word].expandNext || Continues(sh, rest))
  {
    hide Words, Held;
    var chain := [word] + rest;
    assert word in chain && chain[1..] == rest;
    if Words(sh, word) != [] { EndsShorter(sh, word, seen, rest); }
    assert [word][1..] == [] && Tails(sh, []) == [];
  }

  lemma {:induction false} WordsOfChain(sh: Shell, word: string, seen: seq<string>)
    ensures var chain := Chain(sh, word, seen);
            Expand(sh, word, seen) == (FirstWord(sh, word, seen, chain) + Tails(sh, chain), Continues(sh, chain))
    decreases |sh.aliases.Keys - Elements(seen)|
  {
    hide Chain, Expand, Words, Held, FirstWord, Tails, Settled, Elements, Continues, Vanishes, Replaced;
    FirstAlone(sh, word, seen);
    ChainStep(sh, word, seen);
    ExpandStep(sh, word, seen);
    assert Tails(sh, []) == [] && !Continues(sh, []) by { EmptyChain(sh); }
    if Replaced(sh, word, seen) {
      if Words(sh, word) == [] {
        LongerChain(sh, word, seen, []);
        assert [word] + [] == [word];
        assert FirstWord(sh, word, seen, [word]) + Tails(sh, [word]) == [];
      } else {
        var rest := Chain(sh, Words(sh, word)[0], seen + [word]);
        WordsOfChain(sh, Words(sh, word)[0], seen + [word]);
        LongerChain(sh, word, seen, rest);
        var first := FirstWord(sh, word, seen, [word] + rest);
        var tail := Words(sh, word)[1..];
        assert (first + Tails(sh, rest)) + tail == first + (Tails(sh, rest) + tail);
      }
    } else {
      var first := FirstWord(sh, word, seen, []);
      assert first + Tails(sh, []) == first;
    }
  }

  lemma FirstAlone(sh: Shell, word: string, seen: seq<string>)
    ensures !Replaced(sh, word, seen) ==>
              FirstWord(sh, word, seen, []) == (if Vanishes(sh, word, seen) then [] else [word])
    ensures Replaced(sh, word, seen) ==> word in sh.aliases
  {
    assert seen + [] == seen;
  }

  lemma EmptyChain(sh: Shell)
    ensures Tails(sh, []) == [] && !Continues(sh, [])
  {
  }

  /** The expansion of a word, read off its chain: no alias is used twice, the last word of the chain comes first
      unless it has no text, the rest of every text follows, and the next word is expanded exactly when some alias
      on the chain says so. */
  lemma ExpansionMeaning(sh: Shell, word: string, seen: seq<string>, chain: seq<string>)
    ensures chain == Chain(sh, word, seen) <==> Follows(sh, word, seen, chain) && Ends(sh, word, seen, chain)
    ensures chain == Chain(sh, word, seen) ==>
              && |chain| <= |sh.aliases|
              && var head := Head(sh, word, chain);
                 && (head.None? ==> Expand(sh, word, seen).0 == Tails(sh, chain))
                 && (head.Some? && Vanishes(sh, head.value, seen + chain) ==>
                   Expand(sh, word, seen).0 == Tails(sh, chain))
                 && (head.Some? && !Vanishes(sh, head.value, seen + chain) ==>
                       Settled(sh, head.value, seen + chain)
                       && Expand(sh, word, seen).0 == [head.value] + Tails(sh, chain))
    ensures chain == Chain(sh, word, seen) ==> Expand(sh, word, seen).1 == Continues(sh, chain)
  {
    hide Chain, Expand, Words, Held;
    ChainFollows(sh, word, seen);
    if Follows(sh, word, seen, chain) && Ends(sh, word, seen, chain) { ChainUnique(sh, word, seen, chain); }
    if chain == Chain(sh, word, seen) {
      WordsOfChain(sh, word, seen);
      DistinctBound(chain, sh.aliases.Keys);
      assert [] + Tails(sh, chain) == Tails(sh, chain);
    }
  }

  /** The first left-over word is the second word of the last text on the chain that has one. */
  lemma {:induction false} LeftoverFrom(sh: Shell, chain: seq<string>) returns (m: nat)
    requires Tails(sh, chain) != []
    ensures m < |chain| && |Words(sh, chain[m])| > 1 && Tails(sh, chain)[0] == Words(sh, chain[m])[1]
    ensures forall k | m < k < |chain| :: |Words(sh, chain[k])| <= 1
  {
    hide Words;
    if Tails(sh, chain[1..]) != [] {
      m := LeftoverFrom(sh, chain[1..]);
      m := m + 1;
      forall k | m < k < |chain| ensures |Words(sh, chain[k])| <= 1 { assert chain[k] == chain[1..][k - 1]; }
    } else {
      NoTails(sh, chain[1..]);
      m := 0;
      forall k | 0 < k < |chain| ensures |Words(sh, chain[k])| <= 1 { assert chain[k] == chain[1..][k - 1]; }
    }
  }

  lemma {:induction false} NoTails(sh: Shell, chain: seq<string>)
    requires Tails(sh, chain) == []
    ensures forall k | 0 <= k < |chain| :: |Words(sh, chain[k])| <= 1
  {
    hide Words;
    if chain != [] {
      NoTails(sh, chain[1..]);
      forall k | 0 <= k < |chain| ensures |Words(sh, chain[k])| <= 1 {
        if k > 0 { assert chain[k] == chain[1..][k - 1]; }
      }
    }
  }

  /** The first word of an expansion can be expanded further exactly when the last word of the chain was an alias
      without text, and the word that comes first instead, the second one of the last longer text, is an alias that is
      neither on the chain nor held back. When every alias has a word in its text that cannot happen. */
  lemma FirstWordSettled(sh: Shell, word: string, seen: seq<string>) returns (m: nat)
    requires Expand(sh, word, seen).0 != []
    ensures var words, chain := Expand(sh, word, seen).0, Chain(sh, word, seen);
            var gone := FirstWord(sh, word, seen, chain) == [];
            && (gone ==> m < |chain| && |Words(sh, chain[m])| > 1 && words[0] == Words(sh, chain[m])[1]
                         && forall k | m < k < |chain| :: |Words(sh, chain[k])| <= 1)
            && (!Settled(sh, words[0], seen + chain) <==>
                gone && var second := Words(sh, chain[m])[1];
                        second in sh.aliases && second !in seen + chain && !Held(sh, second))
    ensures (forall a | a in sh.aliases :: Words(sh, a) != []) ==>
              Settled(sh, Expand(sh, word, seen).0[0], seen + Chain(sh, word, seen))
  {
    hide Expand, Chain, Held, Words, Follows, Tails, Continues;
    var chain := Chain(sh, word, seen);
    WordsOfChain(sh, word, seen);
    ChainFollows(sh, word, seen);
    assert [] + Tails(sh, chain) == Tails(sh, chain);
    m := 0;
    if FirstWord(sh, word, seen, chain) == [] { m := LeftoverFrom(sh, chain); }
    if forall a | a in sh.aliases :: Words(sh, a) != [] {
      if chain != [] { LastReplaced(sh, word, seen, chain); }
      NothingVanishes(sh, seen + chain);
    }
  }

  lemma LastReplaced(sh: Shell, word: string, seen: seq<string>, chain: seq<string>)
    requires Follows(sh, word, seen, chain) && chain != []
    ensures chain[|chain| - 1] in sh.aliases
  {
    assert Replaced(sh, chain[|chain| - 1], seen);
  }

  lemma NothingVanishes(sh: Shell, seen: seq<string>)
    requires forall a | a in sh.aliases :: Words(sh, a) != []
    ensures forall word :: !Vanishes(sh, word, seen)
  {
    forall word ensures !Vanishes(sh, word, seen) {
      if word in sh.aliases { assert Words(sh, word) == Parts(sh.aliases[word].value); }
    }
  }

  /** When the first word of an alias text is an alias without text, the other words are left alone. */
  lemma Leftover(sh: Shell, word: string)
    requires Replaced(sh, word, []) && Words(sh, word) != [] && Vanishes(sh, Words(sh, word)[0], [word])
    ensures Expand(sh, word, []) == (Words(sh, word)[1..], sh.aliases[word].expandNext) && Chain(sh, word, []) == [word]
  {
    hide Expand, Chain, Words, Replaced, Vanishes;
    assert [] + [word] == [word];
    assert Vanishes(sh, Words(sh, word)[0], [word]) ==> !Replaced(sh, Words(sh, word)[0], [word]) by {
      VanishesExcludes(sh, Words(sh, word)[0], [word]);
    }
    ExpandStep(sh, word, []);
    ChainStep(sh, word, []);
    ExpandStep(sh, Words(sh, word)[0], [word]);
    ChainStep(sh, Words(sh, word)[0], [word]);
    assert [] + Words(sh, word)[1..] == Words(sh, word)[1..];
  }

  lemma VanishesExcludes(sh: Shell, word: string, seen: seq<string>)
    ensures Vanishes(sh, word, seen) ==> !Replaced(sh, word, seen)
  {
  }

  /** So an expansion may start with an alias that was never looked up. */
  lemma LeftoverAlias()
    ensures var sh := Shell(map["a" := Alias("b c", false), "b" := Alias("", false), "c" := Alias("x", false)], map[]);
            Expand(sh, "a", []) == (["c"], false) && !Settled(sh, "c", Chain(sh, "a", []))
  {
    var sh := Shell(map["a" := Alias("b c", false), "b" := Alias("", false), "c" := Alias("x", false)], map[]);
    hide Expand, Chain, NeedsParser, StartsReserved, Held, Parts;
    TwoParts();
    NoLines(sh);
    assert Words(sh, "a") == ["b", "c"] && ["b", "c"][1..] == ["c"];
    hide Words;
    Leftover(sh, "a");
  }

  lemma TwoParts()
    ensures Parts("b c") == ["b", "c"]
  {
    hide Parts;
    var s := "b c";
    assert s[..1] == "b" && s[1..] == " c" && " c"[1..] == "c" && "c"[..1] == "c" && "c"[1..] == "";
    PartsStep(s, 1);
    PartsStep(" c", 0);
    PartsStep("c", 1);
    assert Parts("") == [] by { NoParts(); }
  }

  lemma NoParts()
    ensures Parts("") == []
  {
  }

  lemma NoLines(sh: Shell)
    requires LINE !in sh.env
    ensures forall word | word in sh.aliases :: !Held(sh, word)
  {
  }

  lemma PartsStep(s: string, n: nat)
    requires s != "" && n <= |s| && n == WordLength(s)
    ensures Parts(s) == if n == 0 then Parts(s[1..]) else [s[..n]] + Parts(s[n..])
  {
  }

  /** In a table filled by the `alias` builtin, the next word is expanded exactly when a text on the chain ends in a
      blank. */
  lemma BlankContinues(sh: Shell, word: string, seen: seq<string>)
    requires forall a | a in sh.aliases :: exists text :: sh.aliases[a] == NewAlias(text)
    ensures Expand(sh, word, seen).1 <==>
              exists a | a in Chain(sh, word, seen) :: a in sh.aliases && EndsInBlank(sh.aliases[a].value)
  {
    hide Expand, Chain, Words, Unfolded;
    WordsOfChain(sh, word, seen);
    ChainFollows(sh, word, seen);
  }

  // ----- A command

  const SHOPT := "__RUBASH_SHOPT_STATE"

  predicate Enabled(sh: Shell) { SHOPT in sh.env && "expand_aliases" in SplitAt(sh.env[SHOPT], "\U{1F}") }

  /** How many words of a command are looked up as aliases. */
  function Reach(sh: Shell, words: seq<string>, keepReserved: bool): (n: nat)
    ensures n <= |words|
  {
    if words == [] || (keepReserved && words[0] in RESERVED_WORDS) then 0
    else if Expand(sh, words[0], []).1 then 1 + Reach(sh, words[1..], keepReserved)
    else 1
  }

  function Expansions(sh: Shell, words: seq<string>): seq<string> {
    if words == [] then [] else Expand(sh, words[0], []).0 + Expansions(sh, words[1..])
  }

  /** Expansion stops after the first word that does not ask for more, or before a reserved word. */
  lemma {:induction false} ReachIs(sh: Shell, words: seq<string>, keepReserved: bool, n: nat)
    requires n <= |words|
    ensures n == Reach(sh, words, keepReserved) <==>
            && (forall i | 0 <= i < n - 1 :: Expand(sh, words[i], []).1)
            && (forall i | 0 <= i < n :: !(keepReserved && words[i] in RESERVED_WORDS))
            && (n < |words| ==>
              (keepReserved && words[n] in RESERVED_WORDS && (n > 0 ==> Expand(sh, words[n - 1], []).1))
                                || (n > 0 && !Expand(sh, words[n - 1], []).1))
  {
    hide Expand;
    if words != [] && n > 0 {
      ReachIs(sh, words[1..], keepReserved, n - 1);
    }
  }

  lemma {:induction false} ExpansionsGrow(sh: Shell, words: seq<string>, word: string)
    ensures Expansions(sh, words + [word]) == Expansions(sh, words) + Expand(sh, word, []).0
  {
    hide Expand;
    if words == [] {
      assert Expansions(sh, [word]) == Expand(sh, word, []).0 + Expansions(sh, [word][1..]) && Expansions(sh, []) == [];
    } else {
      ExpansionsGrow(sh, words[1..], word);
      assert (words + [word])[1..] == words[1..] + [word];
    }
  }

  lemma NoExpansions(sh: Shell, words: seq<string>)
    ensures Expansions(sh, words[..0]) + words[0..0] == []
  {
  }

  /** A word expands to nothing only when it is an alias. */
  lemma NothingLost(sh: Shell, word: string, seen: seq<string>)
    ensures Expand(sh, word, seen).0 == [] ==> word in sh.aliases
  {
    ExpandStep(sh, word, seen);
  }

  method ExpandAliases(sh: Shell, words: seq<string>) returns (expanded: seq<string>)
    ensures var n := Reach(sh, words, false);
            expanded == if Enabled(sh) then Expansions(sh, words[..n]) + words[n..] else words
  {
    hide Expand, Expansions, Reach;
    if !Enabled(sh) { return words; }
    expanded := [];
    var expandNext := true;
    ghost var n: nat := 0;
    NoExpansions(sh, words);
    for i := 0 to |words|
      invariant n <= i && (expandNext ==> n == i) && (i == 0 ==> expandNext)
      invariant i > 0 && expandNext ==> Expand(sh, words[i - 1], []).1
      invariant !expandNext ==> n > 0 && !Expand(sh, words[n - 1], []).1
      invariant forall k | 0 <= k < n - 1 :: Expand(sh, words[k], []).1
      invariant expanded == Expansions(sh, words[..n]) + words[n..i]
    {
      var word := words[i];
      if expandNext {
        var aliasWords, aliasExpandNext, _ := ExpandAliasWord(sh, word, []);
        NothingLost(sh, word, []);
        if aliasWords == [] && word !in sh.aliases {
          expanded := expanded + [word];
        } else {
          expanded := expanded + aliasWords;
        }
        expandNext := aliasExpandNext;
        n := i + 1;
        ExpansionsGrow(sh, words[..i], word);
        assert words[..i + 1] == words[..i] + [word];
      } else {
        expanded := expanded + [word];
        expandNext := false;
      }
    }
    ReachIs(sh, words, false, n);
  }

  method ExpandAliasesPreservingReserved(sh: Shell, words: seq<string>) returns (expanded: seq<string>)
    ensures var n := Reach(sh, words, true);
            expanded == if Enabled(sh) then Expansions(sh, words[..n]) + words[n..] else words
  {
    hide Expand, Expansions, Reach;
    if !Enabled(sh) { return words; }
    expanded := [];
    var expandNext := true;
    ghost var n: nat := 0;
    NoExpansions(sh, words);
    for i := 0 to |words|
      invariant n <= i && (expandNext ==> n == i)
      invariant !expandNext && n < i ==> (n > 0 ==> Expand(sh, words[n - 1], []).1) ==> words[n] in RESERVED_WORDS
      invariant expandNext && n > 0 ==> Expand(sh, words[n - 1], []).1
      invariant !expandNext && n == i ==> n > 0 && !Expand(sh, words[n - 1], []).1
      invariant forall k | 0 <= k < n - 1 :: Expand(sh, words[k], []).1
      invariant forall k | 0 <= k < n :: words[k] !in RESERVED_WORDS
      invariant expanded == Expansions(sh, words[..n]) + words[n..i]
    {
      var word := words[i];
      if expandNext && word !in RESERVED_WORDS {
        var aliasWords, aliasExpandNext, _ := ExpandAliasWord(sh, word, []);
        expanded := expanded + aliasWords;
        expandNext := aliasExpandNext;
        n := i + 1;
        ExpansionsGrow(sh, words[..i], word);
        assert words[..i + 1] == words[..i] + [word];
      } else {
        expanded := expanded + [word];
        expandNext := false;
      }
    }
    ReachIs(sh, words, true, n);
  }
}
