/** Printing an indexed array and reading it back. */
module IndexedRoundTrip {
  import opened Text
  import opened IndexedCodec

  // ----- The chains of replacements act character by character

  /** The image of a character in `$'...'`, after the first `done` kinds of escape have been undone. */
  function DollarChar(c: char, done: nat): string {
    if c == '\\' then "\\\\"
    else if c == '\n' && done < 1 then "\\n"
    else if c == '\r' && done < 2 then "\\r"
    else if c == '\'' && done < 3 then "\\'"
    else [c]
  }

  function Dollar(v: string, done: nat): string {
    if v == "" then "" else DollarChar(v[0], done) + Dollar(v[1..], done)
  }

  function DoubleChar(c: char): string {
    if c == '\\' || c == '"' || c == '$' || c == '`' then ['\\', c] else [c]
  }

  function Double(v: string): string { if v == "" then "" else DoubleChar(v[0]) + Double(v[1..]) }

  lemma {:induction false} DollarInOnePass(v: string)
    ensures DollarChain(v) == Dollar(v, 0)
  {
    if v != "" {
      var h, t := [v[0]], v[1..];
      assert v == h + t && h[1..] == "";
      DollarInOnePass(t);
      ReplaceAppend(h, t, '\\', "\\\\");
      var h1, t1 := ReplaceChar(h, '\\', "\\\\"), ReplaceChar(t, '\\', "\\\\");
      ReplaceAppend(h1, t1, '\n', "\\n");
      var h2, t2 := ReplaceChar(h1, '\n', "\\n"), ReplaceChar(t1, '\n', "\\n");
      ReplaceAppend(h2, t2, '\r', "\\r");
      var h3, t3 := ReplaceChar(h2, '\r', "\\r"), ReplaceChar(t2, '\r', "\\r");
      ReplaceAppend(h3, t3, '\'', "\\'");
      DollarOne(v[0]);
    }
  }

  lemma ReplaceOne(c: char, from: char, text: string)
    ensures ReplaceChar([c], from, text) == if c == from then text else [c]
  {
    assert [c][1..] == "";
  }

  lemma ReplaceTwo(a: char, b: char, from: char, text: string)
    requires a != from && b != from
    ensures ReplaceChar([a, b], from, text) == [a, b]
  {
    ReplaceOne(b, from, text);
    assert [a, b][1..] == [b];
  }

  lemma DollarOne(c: char)
    ensures DollarChain([c]) == DollarChar(c, 0)
  {
    ReplaceOne(c, '\\', "\\\\");
    ReplaceOne(c, '\n', "\\n");
    ReplaceOne(c, '\r', "\\r");
    ReplaceOne(c, '\'', "\\'");
    ReplaceTwo('\\', '\\', '\n', "\\n");
    ReplaceTwo('\\', '\\', '\r', "\\r");
    ReplaceTwo('\\', '\\', '\'', "\\'");
    ReplaceTwo('\\', 'n', '\r', "\\r");
    ReplaceTwo('\\', 'n', '\'', "\\'");
    ReplaceTwo('\\', 'r', '\'', "\\'");
  }

  lemma DoubleOne(c: char)
    ensures DoubleChain([c]) == DoubleChar(c)
  {
    ReplaceOne(c, '\\', "\\\\");
    ReplaceOne(c, '"', "\\\"");
    ReplaceOne(c, '$', "\\$");
    ReplaceOne(c, '`', "\\`");
    ReplaceTwo('\\', '\\', '"', "\\\"");
    ReplaceTwo('\\', '\\', '$', "\\$");
    ReplaceTwo('\\', '\\', '`', "\\`");
    ReplaceTwo('\\', '"', '$', "\\$");
    ReplaceTwo('\\', '"', '`', "\\`");
    ReplaceTwo('\\', '$', '`', "\\`");
  }

  lemma {:induction false} DoubleInOnePass(v: string)
    ensures DoubleChain(v) == Double(v)
  {
    if v != "" {
      var h, t := [v[0]], v[1..];
      assert v == h + t;
      DoubleInOnePass(t);
      ReplaceAppend(h, t, '\\', "\\\\");
      var h1, t1 := ReplaceChar(h, '\\', "\\\\"), ReplaceChar(t, '\\', "\\\\");
      ReplaceAppend(h1, t1, '"', "\\\"");
      var h2, t2 := ReplaceChar(h1, '"', "\\\""), ReplaceChar(t1, '"', "\\\"");
      ReplaceAppend(h2, t2, '$', "\\$");
      var h3, t3 := ReplaceChar(h2, '$', "\\$"), ReplaceChar(t2, '$', "\\$");
      ReplaceAppend(h3, t3, '`', "\\`");
      DoubleOne(v[0]);
    }
  }

  // ----- Undoing the escapes

  lemma {:induction false} DoubleUndone(v: string)
    ensures UndoDouble(Double(v)) == v
  {
    if v != "" {
      DoubleUndone(v[1..]);
      var text, tail := Double(v), Double(v[1..]);
      if DoubleChar(v[0]) == [v[0]] {
        assert text[1..] == tail;
      } else {
        assert text == ['\\', v[0]] + tail && text[2..] == tail;
      }
    }
  }

  /** The letter and the character of the escape that the replacement after `done` others undoes. */
  function Letter(done: nat): char {
    if done == 0 then 'n' else if done == 1 then 'r' else if done == 2 then '\'' else '\\'
  }

  function Meant(done: nat): char {
    if done == 0 then '\n' else if done == 1 then '\r' else if done == 2 then '\'' else '\\'
  }

  /** How often a backslash stands directly before the letter. */
  function Clashes(v: string, letter: char): nat {
    if |v| < 2 then 0 else (if v[0] == '\\' && v[1] == letter then 1 else 0) + Clashes(v[1..], letter)
  }

  lemma PairSteps(a: char, b: char, rest: string, letter: char, c: char)
    ensures ReplacePair([a, b] + rest, letter, c) ==
            if a == '\\' && b == letter then [c] + ReplacePair(rest, letter, c)
            else [a] + ReplacePair([b] + rest, letter, c)
    ensures b != '\\' ==> ReplacePair([b] + rest, letter, c) == [b] + ReplacePair(rest, letter, c)
  {
    var s := [a, b] + rest;
    assert s[1..] == [b] + rest && s[2..] == rest && ([b] + rest)[1..] == rest;
  }

  lemma BackslashStep(rest: string, letter: char, c: char)
    requires rest == "" || rest[0] != letter
    ensures ReplacePair(['\\'] + rest, letter, c) == ['\\'] + ReplacePair(rest, letter, c)
  {
    assert (['\\'] + rest)[1..] == rest;
  }

  lemma DollarHead(v: string, done: nat)
    requires v != ""
    ensures Dollar(v, done) == DollarChar(v[0], done) + Dollar(v[1..], done) && Dollar(v, done) != ""
    ensures Dollar(v, done)[0] == if |DollarChar(v[0], done)| == 2 then '\\' else v[0]
  {
  }

  lemma NoClashAhead(v: string, done: nat)
    requires done < 3 && |v| > 1 && v[0] == '\\' && (done < 2 ==> Clashes(v, Letter(done)) == 0)
    ensures Dollar(v[1..], done)[0] != Letter(done)
  {
    DollarHead(v[1..], done);
  }

  /** One replacement undoes its escape when no backslash of the value stands before the letter. */
  lemma {:induction false} StageUndone(v: string, done: nat)
    requires done < 3 && (done < 2 ==> Clashes(v, Letter(done)) == 0)
    ensures ReplacePair(Dollar(v, done), Letter(done), Meant(done)) == Dollar(v, done + 1)
  {
    assert |v| > 1 && done < 2 ==> Clashes(v[1..], Letter(done)) == 0;
    assert Dollar("", done) == "" && Dollar("", done + 1) == "";
    hide ReplacePair, Dollar, Clashes;
    if v == "" {
      assert ReplacePair("", Letter(done), Meant(done)) == "" by { NothingReplaced(Letter(done), Meant(done)); }
    } else {
      DollarHead(v, done);
      DollarHead(v, done + 1);
      if |v| == 1 { assert v[1..] == ""; } else { StageUndone(v[1..], done); }
      var rest := Dollar(v[1..], done);
      if |v| > 1 && v[0] == '\\' { NoClashAhead(v, done); }
      CharUndone(v[0], rest, done);
      assert Dollar(v, done + 1) == DollarChar(v[0], done + 1) + ReplacePair(rest, Letter(done), Meant(done));
    }
  }

  lemma CharUndone(c: char, rest: string, done: nat)
    requires done < 3 && (c == '\\' && rest != "" ==> rest[0] != Letter(done))
    ensures ReplacePair(DollarChar(c, done) + rest, Letter(done), Meant(done)) ==
            DollarChar(c, done + 1) + ReplacePair(rest, Letter(done), Meant(done))
  {
    hide ReplacePair;
    var text := DollarChar(c, done);
    var undone := ReplacePair(rest, Letter(done), Meant(done));
    if c == '\\' {
      assert text == ['\\', '\\'];
      PairSteps('\\', '\\', rest, Letter(done), Meant(done));
      BackslashStep(rest, Letter(done), Meant(done));
      assert ['\\'] + (['\\'] + undone) == ['\\', '\\'] + undone;
    } else if |text| == 2 {
      PairSteps('\\', text[1], rest, Letter(done), Meant(done));
      assert text == ['\\', text[1]];
      assert ['\\'] + ([text[1]] + undone) == text + undone;
    } else {
      PairSteps('x', c, rest, Letter(done), Meant(done));
    }
  }

  lemma NothingReplaced(letter: char, c: char)
    ensures ReplacePair("", letter, c) == ""
  {
  }

  lemma {:induction false} LastStageUndone(v: string)
    ensures ReplacePair(Dollar(v, 3), '\\', '\\') == v
  {
    if v != "" {
      LastStageUndone(v[1..]);
      var rest := Dollar(v[1..], 3);
      if v[0] == '\\' {
        PairSteps('\\', '\\', rest, '\\', '\\');
        assert Dollar(v, 3) == ['\\', '\\'] + rest;
      } else {
        PairSteps('x', v[0], rest, '\\', '\\');
      }
    }
  }

  lemma CountOne(a: char, b: string, c: char)
    ensures Count([a] + b, c) == (if a == c then 1 else 0) + Count(b, c)
  {
    assert ([a] + b)[1..] == b;
  }

  /** A replacement leaves the number of all other characters alone. */
  lemma {:induction false} OthersCounted(s: string, letter: char, by_: char, c: char)
    requires c != '\\' && c != letter && c != by_
    ensures Count(ReplacePair(s, letter, by_), c) == Count(s, c)
    decreases |s|
  {
    if |s| >= 2 {
      if s[0] == '\\' && s[1] == letter {
        OthersCounted(s[2..], letter, by_, c);
        CountOne(by_, ReplacePair(s[2..], letter, by_), c);
        assert s[1..][1..] == s[2..];
      } else {
        OthersCounted(s[1..], letter, by_, c);
        CountOne(s[0], ReplacePair(s[1..], letter, by_), c);
      }
    }
  }

  /** Every clash makes one newline (or carriage return) too many. */
  lemma {:induction false} ClashesCounted(v: string, done: nat)
    requires done < 2
    ensures Count(ReplacePair(Dollar(v, done), Letter(done), Meant(done)), Meant(done)) ==
            Count(v, Meant(done)) + Clashes(v, Letter(done))
    decreases |v|, 1
  {
    hide ReplacePair;
    if v == "" {
      NothingReplaced(Letter(done), Meant(done));
    } else if v[0] == '\\' {
      ClashesCountedBackslash(v, done);
    } else {
      var rest := Dollar(v[1..], done);
      var l, m := Letter(done), Meant(done);
      ClashesCounted(v[1..], done);
      var undone := ReplacePair(rest, l, m);
      if |DollarChar(v[0], done)| == 2 {
        var b := DollarChar(v[0], done)[1];
        assert Dollar(v, done) == ['\\', b] + rest;
        PairSteps('\\', b, rest, l, m);
        CountOne(m, undone, m);
        CountOne(b, undone, m);
        CountOne('\\', [b] + undone, m);
        assert b == l <==> v[0] == m;
      } else {
        PairSteps('x', v[0], rest, l, m);
        CountOne(v[0], undone, m);
      }
    }
  }

  lemma {:induction false} ClashesCountedBackslash(v: string, done: nat)
    requires done < 2 && v != "" && v[0] == '\\'
    ensures Count(ReplacePair(Dollar(v, done), Letter(done), Meant(done)), Meant(done)) ==
            Count(v, Meant(done)) + Clashes(v, Letter(done))
    decreases |v|, 0
  {
    hide ReplacePair;
    var rest := Dollar(v[1..], done);
    var l, m := Letter(done), Meant(done);
    assert Dollar(v, done) == ['\\', '\\'] + rest;
    PairSteps('\\', '\\', rest, l, m);
    CountOne('\\', ReplacePair(['\\'] + rest, l, m), m);
    if |v| > 1 && v[1] == l {
      var tail := Dollar(v[2..], done);
      ClashesCounted(v[2..], done);
      assert v[1..][1..] == v[2..];
      assert rest == [l] + tail;
      PairSteps('\\', l, tail, l, m);
      assert ['\\'] + rest == ['\\', l] + tail;
      CountOne(m, ReplacePair(tail, l, m), m);
      assert |v| > 2 ==> Clashes(v[1..], l) == Clashes(v[2..], l);
    } else {
      ClashesCounted(v[1..], done);
      if |v| > 1 { DollarHead(v[1..], done); }
      BackslashStep(rest, l, m);
      CountOne('\\', ReplacePair(rest, l, m), m);
    }
  }

  // ----- Which values survive

  /** In the `$'...'` form no backslash may stand directly before an `n` or an `r`. */
  predicate Storable(v: string) {
    (exists c | c in v :: ForcesDollar(c)) ==>
      forall i | 0 <= i < |v| - 1 && v[i] == '\\' :: v[i + 1] != 'n' && v[i + 1] != 'r'
  }

  lemma {:induction false} ClashesAre(v: string, letter: char)
    ensures Clashes(v, letter) == 0 <==> forall i | 0 <= i < |v| - 1 && v[i] == '\\' :: v[i + 1] != letter
  {
    if |v| >= 2 {
      ClashesAre(v[1..], letter);
      var t := v[1..];
      assert forall i | 0 <= i < |t| :: t[i] == v[i + 1];
      if Clashes(v, letter) == 0 {
        forall i | 0 <= i < |v| - 1 && v[i] == '\\' ensures v[i + 1] != letter {
          if i > 0 { assert t[i - 1] == '\\' && t[i] == v[i + 1]; }
        }
      }
    }
  }

  lemma {:induction false} DollarUndone(v: string)
    ensures UndoDollar(Dollar(v, 0)) == v <==> Clashes(v, 'n') == 0 && Clashes(v, 'r') == 0
  {
    var s1 := ReplacePair(Dollar(v, 0), 'n', '\n');
    var s2 := ReplacePair(s1, 'r', '\r');
    var s3 := ReplacePair(s2, '\'', '\'');
    var s4 := ReplacePair(s3, '\\', '\\');
    assert UndoDollar(Dollar(v, 0)) == s4;
    if Clashes(v, 'n') > 0 {
      ClashesCounted(v, 0);
      OthersCounted(s1, 'r', '\r', '\n');
      OthersCounted(s2, '\'', '\'', '\n');
      OthersCounted(s3, '\\', '\\', '\n');
    } else {
      StageUndone(v, 0);
      if Clashes(v, 'r') > 0 {
        ClashesCounted(v, 1);
        OthersCounted(s2, '\'', '\'', '\r');
        OthersCounted(s3, '\\', '\\', '\r');
      } else {
        StageUndone(v, 1);
        StageUndone(v, 2);
        LastStageUndone(v);
      }
    }
  }

  /** A value comes back from its quoted form exactly when it is storable. */
  lemma {:induction false} ValueRoundTrip(v: string)
    ensures UnquoteValue(QuoteValue(v)) == v <==> Storable(v)
  {
    var text := QuoteValue(v);
    if exists c | c in v :: ForcesDollar(c) {
      DollarInOnePass(v);
      assert text[..2] == "$'" && text[2..|text| - 1] == Dollar(v, 0);
      DollarUndone(v);
      ClashesAre(v, 'n');
      ClashesAre(v, 'r');
    } else {
      DoubleInOnePass(v);
      assert text[0] == '"' && text[1..|text| - 1] == Double(v);
      DoubleUndone(v);
    }
  }

  // ----- The splitter over printed entries

  lemma WordsStep(c: char, rest: string, current: string)
    ensures c != '"' && c != '\'' && !IsWhitespace(c) ==>
              Words([c] + rest, None, current) == Words(rest, None, current + [c])
    ensures c == '"' || c == '\'' ==> Words([c] + rest, None, current) == Words(rest, Some(c), current + [c])
    ensures c == ' ' ==> Words([c] + rest, None, current) == Pending(current) + Words(rest, None, "")
  {
    assert ([c] + rest)[1..] == rest;
  }

  lemma QuotedStep(c: char, rest: string, quote: char, current: string)
    ensures c != '\\' ==>
              Words([c] + rest, Some(quote), current) ==
              Words(rest, if c == quote then None else Some(quote), current + [c])
  {
    assert ([c] + rest)[1..] == rest;
  }

  lemma EscapedStep(c: char, rest: string, quote: char, current: string)
    ensures Words(['\\', c] + rest, Some(quote), current) == Words(rest, Some(quote), current + ['\\', c])
  {
    var s := ['\\', c] + rest;
    assert s[2..] == rest && s[..2] == ['\\', c];
  }

  lemma {:induction false} DollarStaysQuoted(v: string, rest: string, current: string)
    ensures Words(Dollar(v, 0) + rest, Some('\''), current) == Words(rest, Some('\''), current + Dollar(v, 0))
    decreases |v|
  {
    hide IsWhitespace, Words;
    if v == "" {
      assert Dollar(v, 0) + rest == rest && current + "" == current;
    } else {
      var image, tail := DollarChar(v[0], 0), Dollar(v[1..], 0);
      assert Dollar(v, 0) + rest == image + (tail + rest);
      assert current + Dollar(v, 0) == current + image + tail;
      if |image| == 2 {
        assert image == ['\\', image[1]];
        EscapedStep(image[1], tail + rest, '\'', current);
      } else {
        QuotedStep(v[0], tail + rest, '\'', current);
      }
      DollarStaysQuoted(v[1..], rest, current + image);
    }
  }

  lemma {:induction false} DoubleStaysQuoted(v: string, rest: string, current: string)
    ensures Words(Double(v) + rest, Some('"'), current) == Words(rest, Some('"'), current + Double(v))
    decreases |v|
  {
    hide IsWhitespace, Words;
    if v == "" {
      assert Double(v) + rest == rest && current + "" == current;
    } else {
      var image, tail := DoubleChar(v[0]), Double(v[1..]);
      assert Double(v) + rest == image + (tail + rest);
      assert current + Double(v) == current + image + tail;
      if |image| == 2 {
        EscapedStep(v[0], tail + rest, '"', current);
      } else {
        QuotedStep(v[0], tail + rest, '"', current);
      }
      DoubleStaysQuoted(v[1..], rest, current + image);
    }
  }

  lemma DollarIsTaken(v: string, rest: string, current: string)
    ensures Words("$'" + Dollar(v, 0) + "'" + rest, None, current) ==
              Words(rest, None, current + ("$'" + Dollar(v, 0) + "'"))
  {
    hide Words, Dollar;
    var body := Dollar(v, 0);
    var end := ['\''] + rest;
    assert "$'" + body + "'" + rest == ['$'] + (['\''] + (body + end));
    WordsStep('$', ['\''] + (body + end), current);
    WordsStep('\'', body + end, current + ['$']);
    DollarStaysQuoted(v, end, current + ['$'] + ['\'']);
    QuotedStep('\'', rest, '\'', current + ['$'] + ['\''] + body);
    assert current + ['$'] + ['\''] + body + ['\''] == current + ("$'" + body + "'");
  }

  lemma DoubleIsTaken(v: string, rest: string, current: string)
    ensures Words("\"" + Double(v) + "\"" + rest, None, current) ==
              Words(rest, None, current + ("\"" + Double(v) + "\""))
  {
    hide Words, Double;
    var body := Double(v);
    var end := ['"'] + rest;
    assert "\"" + body + "\"" + rest == ['"'] + (body + end);
    WordsStep('"', body + end, current);
    DoubleStaysQuoted(v, end, current + ['"']);
    QuotedStep('"', rest, '"', current + ['"'] + body);
    assert current + ['"'] + body + ['"'] == current + ("\"" + body + "\"");
  }

  lemma {:induction false} QuotedIsTaken(v: string, rest: string, current: string)
    ensures Words(QuoteValue(v) + rest, None, current) == Words(rest, None, current + QuoteValue(v))
  {
    hide Words, Dollar, Double, DollarChain, DoubleChain;
    DollarInOnePass(v);
    DoubleInOnePass(v);
    DollarIsTaken(v, rest, current);
    DoubleIsTaken(v, rest, current);
  }

  predicate Bare(s: string) { forall c | c in s :: c != '"' && c != '\'' && !IsWhitespace(c) }

  lemma {:induction false} BareIsTaken(s: string, rest: string, current: string)
    requires Bare(s)
    ensures Words(s + rest, None, current) == Words(rest, None, current + s)
    decreases |s|
  {
    hide IsWhitespace, Words;
    if s == "" {
      assert s + rest == rest && current + s == current;
    } else {
      assert s + rest == [s[0]] + (s[1..] + rest) && current + [s[0]] + s[1..] == current + s;
      WordsStep(s[0], s[1..] + rest, current);
      BareIsTaken(s[1..], rest, current + [s[0]]);
    }
  }

  // ----- Decimal numbers

  lemma {:induction false} DecimalDigits(n: nat)
    ensures Decimal(n) != "" && (forall c | c in Decimal(n) :: IsDigit(c)) && DigitsValue(Decimal(n)) == n
  {
    if n < 10 {
      assert Decimal(n)[..0] == "";
    } else {
      DecimalDigits(n / 10);
      var d := Decimal(n);
      assert d[..|d| - 1] == Decimal(n / 10);
    }
  }

  lemma {:induction false} DecimalParses(n: nat)
    ensures ParseIndex(Decimal(n)) == if n < USIZE_LIMIT then Some(n) else None
  {
    DecimalDigits(n);
    assert IsDigit(Decimal(n)[0]);
  }

  lemma {:induction false} Trimmed(s: string)
    requires forall c | c in s :: IsDigit(c)
    ensures TrimEnd(TrimStart("[" + s + "]", '['), ']') == s
  {
    var t := "[" + s + "]";
    assert t[1..] == s + "]";
    assert (s + "]")[0] != '[' by { if s != "" { assert IsDigit(s[0]); } }
    assert (s + "]")[..|s|] == s;
    if s != "" { assert IsDigit(s[|s| - 1]); }
  }

  // ----- Entries

  lemma {:induction false} HeadIsBare(n: nat)
    ensures Bare("[" + Decimal(n) + "]=") && '=' !in "[" + Decimal(n) + "]"
  {
    DecimalDigits(n);
    var head := "[" + Decimal(n) + "]=";
    forall c | c in head
      ensures c != '"' && c != '\'' && !IsWhitespace(c) && (c in "[" + Decimal(n) + "]" ==> c != '=')
    {
      assert c == '[' || c == ']' || c == '=' || IsDigit(c);
    }
  }

  lemma {:induction false} EntryReadsBack(e: Entry)
    requires e.0 < USIZE_LIMIT
    ensures EntryOf(EntryText(e)) == Some((e.0, UnquoteValue(QuoteValue(e.1))))
  {
    HeadIsBare(e.0);
    var key := "[" + Decimal(e.0) + "]";
    assert EntryText(e) == key + ['='] + QuoteValue(e.1);
    SplitOnceAt(key, '=', QuoteValue(e.1));
    DecimalDigits(e.0);
    Trimmed(Decimal(e.0));
    DecimalParses(e.0);
  }

  lemma {:induction false} EntryIsTaken(e: Entry, rest: string)
    ensures Words(EntryText(e) + rest, None, "") == Words(rest, None, EntryText(e))
  {
    hide Words, QuoteValue, Bare;
    var head := "[" + Decimal(e.0) + "]=";
    HeadIsBare(e.0);
    assert EntryText(e) + rest == head + (QuoteValue(e.1) + rest);
    BareIsTaken(head, QuoteValue(e.1) + rest, "");
    assert "" + head == head && head + QuoteValue(e.1) == EntryText(e);
    QuotedIsTaken(e.1, rest, head);
  }

  lemma {:induction false} EntriesSplit(es: seq<Entry>)
    ensures Words(Join(EntryTexts(es), " "), None, "") == EntryTexts(es)
  {
    hide EntryText;
    var texts := EntryTexts(es);
    if |es| == 1 {
      EntryIsTaken(es[0], "");
      EntryNotEmpty(es[0]);
      assert texts[0] + "" == texts[0];
      assert Pending(texts[0]) == texts;
    } else if |es| > 1 {
      var rest := Join(texts[1..], " ");
      assert texts[1..] == EntryTexts(es[1..]);
      EntriesSplit(es[1..]);
      assert Join(texts, " ") == texts[0] + ([' '] + rest);
      EntryIsTaken(es[0], [' '] + rest);
      WordsStep(' ', rest, texts[0]);
      EntryNotEmpty(es[0]);
      assert texts == [texts[0]] + texts[1..];
    }
  }

  lemma EntryNotEmpty(e: Entry)
    ensures EntryText(e) != ""
  {
  }

  function Reread(es: seq<Entry>): seq<Entry> {
    seq(|es|, i requires 0 <= i < |es| => (es[i].0, UnquoteValue(QuoteValue(es[i].1))))
  }

  lemma {:induction false} EntriesCollected(es: seq<Entry>)
    requires forall e | e in es :: e.0 < USIZE_LIMIT
    ensures Collected(EntryTexts(es)) == MapOf(Reread(es))
  {
    hide UnquoteValue, QuoteValue, EntryText, EntryOf;
    if es != [] {
      var n := |es| - 1;
      EntriesCollected(es[..n]);
      assert es[n] in es;
      EntryReadsBack(es[n]);
      assert EntryTexts(es)[..n] == EntryTexts(es[..n]) && Reread(es)[..n] == Reread(es[..n]);
    }
  }

  /** Whatever the values are, reading a stored array yields its indices with every value as its quoted form reads. */
  lemma {:induction false} StoredReadsBack(es: seq<Entry>)
    requires forall e | e in es :: e.0 < USIZE_LIMIT
    ensures IndexedEntries(FormatIndexed(es)) == MapOf(Reread(es))
  {
    hide Words, Collected, Numbered, MapOf, Reread, EntryTexts, Join;
    var j := Join(EntryTexts(es), " ");
    var text := FormatIndexed(es);
    assert text[1..] == "(" + j + ")" && ("(" + j + ")")[1..|j| + 1] == j;
    EntriesSplit(es);
    EntriesCollected(es);
  }

  /** The list holds every index of the map once, with its value, in any order. */
  ghost predicate Lists(es: seq<Entry>, m: map<nat, string>) {
    && (forall i, j | 0 <= i < j < |es| :: es[i].0 != es[j].0)
    && (forall e | e in es :: e.0 in m && m[e.0] == e.1)
    && (forall k | k in m :: (k, m[k]) in es)
  }

  lemma {:induction false} MapOfLookup(es: seq<Entry>, i: nat)
    requires i < |es| && forall j | i < j < |es| :: es[j].0 != es[i].0
    ensures es[i].0 in MapOf(es) && MapOf(es)[es[i].0] == es[i].1
  {
    if i < |es| - 1 { MapOfLookup(es[..|es| - 1], i); }
  }

  lemma {:induction false} MapOfKeys(es: seq<Entry>, k: nat)
    ensures k in MapOf(es) ==> exists e :: e in es && e.0 == k
  {
    if es != [] {
      var n := |es| - 1;
      MapOfKeys(es[..n], k);
      if k in MapOf(es) {
        if k == es[n].0 {
          assert es[n] in es;
        } else {
          var e :| e in es[..n] && e.0 == k;
          assert e in es;
        }
      }
    }
  }

  /** The array comes back unchanged exactly when every value is storable. */
  lemma {:induction false} RoundTrip(m: map<nat, string>, es: seq<Entry>)
    requires Lists(es, m) && forall k | k in m :: k < USIZE_LIMIT
    ensures IndexedEntries(FormatIndexed(es)) == m <==> forall k | k in m :: Storable(m[k])
  {
    hide UnquoteValue, QuoteValue, IndexedEntries, FormatIndexed, Storable;
    StoredReadsBack(es);
    var again := Reread(es);
    var r := MapOf(again);
    forall i | 0 <= i < |es|
      ensures es[i].0 in m && es[i].0 in r && r[es[i].0] == UnquoteValue(QuoteValue(m[es[i].0]))
    {
      assert es[i] in es;
      MapOfLookup(again, i);
    }
    forall k | k in r ensures k in m {
      MapOfKeys(again, k);
      var e :| e in again && e.0 == k;
      var i :| 0 <= i < |again| && again[i] == e;
      assert es[i] in es;
    }
    forall k | k in m ensures k in r && (r[k] == m[k] <==> Storable(m[k])) {
      var i :| 0 <= i < |es| && es[i] == (k, m[k]);
      ValueRoundTrip(m[k]);
    }
  }
}
