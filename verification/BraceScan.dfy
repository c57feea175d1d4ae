/** The scanner that collects the text of a `${...}` expansion. */
module BraceScan {
  import opened Text

  // ----- Scanner

  datatype Quote = Open | Single | Double

  /** Text collected, text left, and whether a closing brace was consumed between them. */
  datatype Collected = Collected(name: string, left: string, closed: bool)

  function Pushed(s: string, c: Collected): Collected { c.(name := s + c.name) }

  /** A backslash takes the next character along, if there is one. */
  function TakesTwo(c: char, quote: Quote): bool { c == '\\' && quote != Single }

  function Collect(s: string, nested: nat, bracket: bool, quote: Quote): Collected
    decreases |s|
  {
    if s == "" then Collected("", "", false)
    else if TakesTwo(s[0], quote) then
      if |s| == 1 then Collected(s, "", false) else Pushed(s[..2], Collect(s[2..], nested, bracket, quote))
    else
      var c, rest := s[0], s[1..];
      match quote
      case Single => Pushed([c], Collect(rest, nested, bracket, if c == '\'' then Open else Single))
      case Double => Pushed([c], Collect(rest, nested, bracket, if c == '"' then Open else Double))
      case Open =>
        if c == '\'' then Pushed([c], Collect(rest, nested, bracket, Single))
        else if c == '"' then Pushed([c], Collect(rest, nested, bracket, Double))
        else if c == '[' then Pushed([c], Collect(rest, nested, true, Open))
        else if c == ']' then Pushed([c], Collect(rest, nested, false, Open))
        else if c == '$' && rest != "" && rest[0] == '{' then
          Pushed("${", Collect(rest[1..], nested + 1, bracket, Open))
        else if c == '}' && !bracket then
          if nested == 0 then Collected("", rest, true) else Pushed([c], Collect(rest, nested - 1, bracket, Open))
        else Pushed([c], Collect(rest, nested, bracket, Open))
  }

  predicate PlainChar(c: char) { c != '\\' && c != '\'' && c != '"' && c != '[' && c != '}' }

  predicate OpensBrace(s: string) { s != "" && s[0] == '{' }

  lemma Step(c: char, rest: string, nested: nat, bracket: bool, quote: Quote)
    requires !TakesTwo(c, quote)
    ensures quote == Single ==> Collect([c] + rest, nested, bracket, quote) ==
                                Pushed([c], Collect(rest, nested, bracket, if c == '\'' then Open else Single))
    ensures quote == Double ==> Collect([c] + rest, nested, bracket, quote) ==
                                Pushed([c], Collect(rest, nested, bracket, if c == '"' then Open else Double))
    ensures quote == Open && PlainChar(c) && c != ']' && (c == '$' ==> !OpensBrace(rest)) ==>
              Collect([c] + rest, nested, bracket, quote) == Pushed([c], Collect(rest, nested, bracket, Open))
    ensures quote == Open && c == '\'' ==>
              Collect([c] + rest, nested, bracket, quote) == Pushed([c], Collect(rest, nested, bracket, Single))
    ensures quote == Open && c == '"' ==>
              Collect([c] + rest, nested, bracket, quote) == Pushed([c], Collect(rest, nested, bracket, Double))
    ensures quote == Open && c == '[' ==>
              Collect([c] + rest, nested, bracket, quote) == Pushed([c], Collect(rest, nested, true, Open))
    ensures quote == Open && c == ']' ==>
              Collect([c] + rest, nested, bracket, quote) == Pushed([c], Collect(rest, nested, false, Open))
    ensures quote == Open && c == '}' && (bracket || nested > 0) ==>
              Collect([c] + rest, nested, bracket, quote) ==
              Pushed([c], Collect(rest, if bracket then nested else nested - 1, bracket, Open))
  {
    assert ([c] + rest)[1..] == rest;
  }

  lemma StepTwo(c: char, rest: string, nested: nat, bracket: bool, quote: Quote)
    ensures quote != Single ==>
              Collect(['\\', c] + rest, nested, bracket, quote) ==
              Pushed(['\\', c], Collect(rest, nested, bracket, quote))
    ensures quote == Open ==>
              Collect("${" + rest, nested, bracket, quote) == Pushed("${", Collect(rest, nested + 1, bracket, quote))
  {
    var s := ['\\', c] + rest;
    assert s[2..] == rest && s[..2] == ['\\', c];
    var t := "${" + rest;
    assert t[1..] == "{" + rest && t[1..][1..] == rest;
  }

  lemma PushedTwice(a: string, b: string, c: Collected)
    ensures Pushed(a, Pushed(b, c)) == Pushed(a + b, c)
  {
    assert a + (b + c.name) == a + b + c.name;
  }

  lemma PushedNothing(c: Collected)
    ensures Pushed("", c) == c
  {
    assert "" + c.name == c.name;
  }

  lemma LastSteps(rest: string, nested: nat, bracket: bool, quote: Quote)
    ensures Collect("", nested, bracket, quote) == Collected("", "", false)
    ensures quote != Single ==> Collect("\\", nested, bracket, quote) == Collected("\\", "", false)
    ensures Collect(['}'] + rest, 0, false, Open) == Collected("", rest, true)
  {
    assert (['}'] + rest)[1..] == rest;
  }

  class CharStream {
    var rest: string

    constructor (s: string)
      ensures rest == s
    {
      rest := s;
    }

    method Next() returns (c: Option<char>)
      modifies this
      ensures old(rest) == "" ==> c.None? && rest == ""
      ensures old(rest) != "" ==> c == Some(old(rest[0])) && rest == old(rest)[1..]
    {
      if rest == "" { return None; }
      c, rest := Some(rest[0]), rest[1..];
    }
  }

  method CollectBracedParameterName(chars: CharStream) returns (name: string)
    modifies chars
    ensures var c := Collect(old(chars.rest), 0, false, Open); name == c.name && chars.rest == c.left
  {
    hide Collect, Pushed;
    name := "";
    var nested, inBracket, single, double := 0, false, false, false;
    ghost var goal := Collect(chars.rest, 0, false, Open);
    PushedNothing(goal);
    while true
      invariant !(single && double)
      invariant Pushed(name,
        Collect(chars.rest, nested, inBracket, if single then Single else if double then Double else Open)) == goal
      decreases |chars.rest|
    {
      ghost var before, already := chars.rest, name;
      ghost var quote := if single then Single else if double then Double else Open;
      LastSteps("", nested, inBracket, quote);
      var next := chars.Next();
      if next.None? {
        PushedEnds(name, "", "", false);
        return;
      }
      var ch := next.value;
      ghost var rest := chars.rest;
      assert before == [ch] + rest;
      if !TakesTwo(ch, quote) { Step(ch, rest, nested, inBracket, quote); }
      if single {
        if ch == '\'' { single := false; }
        name := name + [ch];
        PushedTwice(already, [ch], Collect(rest, nested, inBracket, if single then Single else Open));
        continue;
      }
      if ch == '\\' {
        name := name + [ch];
        var escaped := chars.Next();
        if escaped.Some? {
          name := name + [escaped.value];
          assert before == [ch, escaped.value] + chars.rest && name == already + [ch, escaped.value];
          StepTwo(escaped.value, chars.rest, nested, inBracket, quote);
          PushedTwice(already, [ch, escaped.value], Collect(chars.rest, nested, inBracket, quote));
        } else {
          assert before == "\\" && name == already + "\\" && chars.rest == "";
          PushedEnds(already, "\\", "", false);
          PushedEnds(name, "", "", false);
        }
        continue;
      }
      if double {
        if ch == '"' { double := false; }
        name := name + [ch];
        PushedTwice(already, [ch], Collect(rest, nested, inBracket, if double then Double else Open));
        continue;
      }
      if ch == '\'' {
        single := true;
      } else if ch == '"' {
        double := true;
      } else if ch == '[' {
        inBracket := true;
      } else if ch == ']' && inBracket {
        inBracket := false;
      } else if ch == '$' && chars.rest != "" && chars.rest[0] == '{' {
        var _ := chars.Next();
        assert before == "${" + chars.rest;
        StepTwo('x', chars.rest, nested, inBracket, Open);
        nested := nested + 1;
        name := name + "${";
        PushedTwice(already, "${", Collect(chars.rest, nested, inBracket, Open));
        continue;
      } else if ch == '}' && !inBracket {
        if nested == 0 {
          LastSteps(rest, nested, inBracket, Open);
          PushedEnds(name, "", rest, true);
          return;
        }
        nested := nested - 1;
      }
      name := name + [ch];
      PushedTwice(already, [ch],
        Collect(rest, nested, inBracket, if single then Single else if double then Double else Open));
    }
  }

  lemma PushedEnds(s: string, name: string, left: string, closed: bool)
    ensures Pushed(s, Collected(name, left, closed)) == Collected(s + name, left, closed)
  {
  }

  // ----- Bodies and their text

  datatype Quoted = Letter(c: char) | Pair(c: char)

  datatype Piece =
    | Plain(c: char)
    | Escaped(c: char)
    | SingleQuoted(text: string)
    | DoubleQuoted(items: seq<Quoted>)
    | Bracketed(inside: seq<Piece>)
    | Expansion(body: seq<Piece>)

  function QuotedText(items: seq<Quoted>): string {
    if items == [] then "" else (if items[0].Letter? then [items[0].c] else ['\\', items[0].c]) + QuotedText(items[1..])
  }

  function PieceText(p: Piece): string
    decreases p
  {
    match p
    case Plain(c) => [c]
    case Escaped(c) => ['\\', c]
    case SingleQuoted(text) => "'" + text + "'"
    case DoubleQuoted(items) => "\"" + QuotedText(items) + "\""
    case Bracketed(items) => "[" + BodyText(items) + "]"
    case Expansion(body) => "${" + BodyText(body) + "}"
  }

  function BodyText(body: seq<Piece>): string
    decreases body
  {
    if body == [] then "" else PieceText(body[0]) + BodyText(body[1..])
  }

  predicate PieceReads(p: Piece)
    decreases p
  {
    match p
    case Plain(c) => PlainChar(c)
    case Escaped(_) => true
    case SingleQuoted(text) => '\'' !in text
    case DoubleQuoted(items) => forall i | i in items && i.Letter? :: i.c != '"' && i.c != '\\'
    case Bracketed(items) => BracketReads(items, "]")
    case Expansion(body) => Reads(body, "}")
  }

  /** Inside brackets braces are plain, quotes and backslashes work as outside, and there is no expansion. */
  predicate BracketReads(items: seq<Piece>, after: string)
    decreases items
  {
    items != [] ==>
      && (match items[0]
          case Plain(c) => c !in {'\\', '\'', '"', ']'}
          case Bracketed(_) => false
          case Expansion(_) => false
          case p => PieceReads(p))
      && (items[0] == Plain('$') ==> !OpensBrace(BodyText(items[1..]) + after))
      && BracketReads(items[1..], after)
  }

  /** Every piece can be told from its neighbours: a plain dollar sign does not stand before an opening brace. */
  predicate Reads(body: seq<Piece>, after: string)
    decreases body
  {
    body != [] ==>
      && PieceReads(body[0])
      && (body[0] == Plain('$') ==> !OpensBrace(BodyText(body[1..]) + after))
      && Reads(body[1..], after)
  }

  // ----- The scanner over printed text

  lemma {:induction false} SingleScanned(text: string, rest: string, nested: nat, bracket: bool)
    requires '\'' !in text
    ensures Collect(text + rest, nested, bracket, Single) == Pushed(text, Collect(rest, nested, bracket, Single))
    decreases |text|
  {
    hide Collect;
    if text == "" {
      assert text + rest == rest;
      PushedNothing(Collect(rest, nested, bracket, Single));
    } else {
      assert text + rest == [text[0]] + (text[1..] + rest) && [text[0]] + text[1..] == text;
      Step(text[0], text[1..] + rest, nested, bracket, Single);
      SingleScanned(text[1..], rest, nested, bracket);
      PushedTwice([text[0]], text[1..], Collect(rest, nested, bracket, Single));
    }
  }

  lemma {:induction false} DoubleScanned(items: seq<Quoted>, rest: string, nested: nat, bracket: bool)
    requires forall i | i in items && i.Letter? :: i.c != '"' && i.c != '\\'
    ensures Collect(QuotedText(items) + rest, nested, bracket, Double) ==
              Pushed(QuotedText(items), Collect(rest, nested, bracket, Double))
    decreases |items|
  {
    hide Collect;
    if items == [] {
      assert QuotedText(items) + rest == rest;
      PushedNothing(Collect(rest, nested, bracket, Double));
    } else {
      var head := if items[0].Letter? then [items[0].c] else ['\\', items[0].c];
      var tail := QuotedText(items[1..]);
      assert items[0] in items;
      assert QuotedText(items) + rest == head + (tail + rest);
      if items[0].Letter? {
        Step(items[0].c, tail + rest, nested, bracket, Double);
      } else {
        StepTwo(items[0].c, tail + rest, nested, bracket, Double);
      }
      DoubleScanned(items[1..], rest, nested, bracket);
      PushedTwice(head, tail, Collect(rest, nested, bracket, Double));
    }
  }

  lemma PushedAround(open: string, text: string, close: string, last: Collected)
    ensures Pushed(open, Pushed(text, Pushed(close, last))) == Pushed(open + text + close, last)
  {
    hide Pushed;
    PushedTwice(text, close, last);
    PushedTwice(open, text + close, last);
    assert open + (text + close) == open + text + close;
  }

  lemma SingleQuotedScanned(text: string, rest: string, nested: nat, bracket: bool)
    requires '\'' !in text
    ensures Collect("'" + text + "'" + rest, nested, bracket, Open) ==
              Pushed("'" + text + "'", Collect(rest, nested, bracket, Open))
  {
    hide Collect, Pushed;
    assert "'" + text + "'" + rest == ['\''] + (text + (['\''] + rest));
    Step('\'', text + (['\''] + rest), nested, bracket, Open);
    SingleScanned(text, ['\''] + rest, nested, bracket);
    Step('\'', rest, nested, bracket, Single);
    PushedAround(['\''], text, ['\''], Collect(rest, nested, bracket, Open));
  }

  lemma DoubleQuotedScanned(items: seq<Quoted>, rest: string, nested: nat, bracket: bool)
    requires forall i | i in items && i.Letter? :: i.c != '"' && i.c != '\\'
    ensures var text := QuotedText(items);
            Collect("\"" + text + "\"" + rest, nested, bracket, Open) ==
              Pushed("\"" + text + "\"", Collect(rest, nested, bracket, Open))
  {
    hide Collect, Pushed, QuotedText;
    var text := QuotedText(items);
    assert "\"" + text + "\"" + rest == ['"'] + (text + (['"'] + rest));
    Step('"', text + (['"'] + rest), nested, bracket, Open);
    DoubleScanned(items, ['"'] + rest, nested, bracket);
    Step('"', rest, nested, bracket, Double);
    PushedAround(['"'], text, ['"'], Collect(rest, nested, bracket, Open));
  }

  lemma {:induction false} BracketScanned(items: seq<Piece>, rest: string, nested: nat)
    requires BracketReads(items, rest)
    ensures Collect(BodyText(items) + rest, nested, true, Open) ==
              Pushed(BodyText(items), Collect(rest, nested, true, Open))
    decreases items
  {
    if items == [] {
      assert BodyText(items) + rest == rest;
      hide Collect;
      PushedNothing(Collect(rest, nested, true, Open));
    } else {
      var p, tail := items[0], BodyText(items[1..]);
      assert BodyText(items) == PieceText(p) + tail && BodyText(items) + rest == PieceText(p) + (tail + rest);
      hide Collect, Pushed, BodyText;
      BracketScanned(items[1..], rest, nested);
      BracketPiece(p, tail + rest, nested);
      PushedTwice(PieceText(p), tail, Collect(rest, nested, true, Open));
    }
  }

  lemma BracketPiece(p: Piece, rest: string, nested: nat)
    requires !p.Bracketed? && !p.Expansion?
    requires if p.Plain? then p.c !in {'\\', '\'', '"', ']'} else PieceReads(p)
    requires p == Plain('$') ==> !OpensBrace(rest)
    ensures Collect(PieceText(p) + rest, nested, true, Open) == Pushed(PieceText(p), Collect(rest, nested, true, Open))
  {
    hide Collect, Pushed, QuotedText;
    match p
    case Plain(c) => Step(c, rest, nested, true, Open);
    case Escaped(c) => StepTwo(c, rest, nested, true, Open);
    case SingleQuoted(text) => SingleQuotedScanned(text, rest, nested, true);
    case DoubleQuoted(items) => DoubleQuotedScanned(items, rest, nested, true);
  }

  lemma BracketedScanned(items: seq<Piece>, rest: string, nested: nat)
    requires BracketReads(items, "]")
    ensures Collect("[" + BodyText(items) + "]" + rest, nested, false, Open) ==
              Pushed("[" + BodyText(items) + "]", Collect(rest, nested, false, Open))
  {
    hide Collect, Pushed, BodyText;
    var text := BodyText(items);
    assert "[" + text + "]" + rest == ['['] + (text + ([']'] + rest));
    Step('[', text + ([']'] + rest), nested, false, Open);
    BracketBefore(items, "]", [']'] + rest);
    BracketScanned(items, [']'] + rest, nested);
    Step(']', rest, nested, true, Open);
    PushedAround(['['], text, [']'], Collect(rest, nested, false, Open));
  }

  lemma {:induction false} BracketBefore(items: seq<Piece>, after: string, other: string)
    requires BracketReads(items, after) && after != "" && other != "" && after[0] == other[0]
    ensures BracketReads(items, other)
    decreases items
  {
    if items != [] { BracketBefore(items[1..], after, other); }
  }

  /** An expansion, once its body is known to be collected whole. */
  lemma ExpansionScanned(text: string, rest: string, nested: nat)
    requires Collect(text + (['}'] + rest), nested + 1, false, Open) ==
             Pushed(text, Collect(['}'] + rest, nested + 1, false, Open))
    ensures Collect("${" + text + "}" + rest, nested, false, Open) ==
              Pushed("${" + text + "}", Collect(rest, nested, false, Open))
  {
    hide Collect, Pushed;
    assert "${" + text + "}" + rest == "${" + (text + (['}'] + rest));
    StepTwo('x', text + (['}'] + rest), nested, false, Open);
    Step('}', rest, nested + 1, false, Open);
    PushedAround("${", text, ['}'], Collect(rest, nested, false, Open));
  }

  lemma {:induction false} PieceScanned(p: Piece, rest: string, nested: nat)
    requires PieceReads(p) && (p == Plain('$') ==> !OpensBrace(rest))
    ensures Collect(PieceText(p) + rest, nested, false, Open) ==
              Pushed(PieceText(p), Collect(rest, nested, false, Open))
    decreases p
  {
    hide Collect, Pushed, QuotedText, BodyText;
    match p
    case Plain(c) => Step(c, rest, nested, false, Open);
    case Escaped(c) => StepTwo(c, rest, nested, false, Open);
    case SingleQuoted(text) => SingleQuotedScanned(text, rest, nested, false);
    case DoubleQuoted(items) => DoubleQuotedScanned(items, rest, nested, false);
    case Bracketed(items) => BracketedScanned(items, rest, nested);
    case Expansion(body) =>
      ReadsBefore(body, "}", ['}'] + rest);
      BodyScanned(body, ['}'] + rest, nested + 1);
      ExpansionScanned(BodyText(body), rest, nested);
  }

  /** Only the first character after a body matters to how it reads. */
  lemma {:induction false} ReadsBefore(body: seq<Piece>, after: string, other: string)
    requires Reads(body, after) && after != "" && other != "" && after[0] == other[0]
    ensures Reads(body, other)
    decreases body
  {
    if body != [] { ReadsBefore(body[1..], after, other); }
  }

  lemma {:induction false} BodyScanned(body: seq<Piece>, rest: string, nested: nat)
    requires Reads(body, rest)
    ensures Collect(BodyText(body) + rest, nested, false, Open) ==
              Pushed(BodyText(body), Collect(rest, nested, false, Open))
    decreases body
  {
    hide Collect, PieceText, PieceReads;
    if body == [] {
      assert BodyText(body) + rest == rest;
      PushedNothing(Collect(rest, nested, false, Open));
    } else {
      var tail := BodyText(body[1..]);
      assert BodyText(body) + rest == PieceText(body[0]) + (tail + rest);
      PieceScanned(body[0], tail + rest, nested);
      BodyScanned(body[1..], rest, nested);
      PushedTwice(PieceText(body[0]), tail, Collect(rest, nested, false, Open));
    }
  }

  /** The scanner inverts printing: it collects exactly the body and leaves what follows the closing brace. */
  lemma {:induction false} ScanInvertsText(body: seq<Piece>, rest: string)
    requires Reads(body, "}")
    ensures Collect(BodyText(body) + "}" + rest, 0, false, Open) == Collected(BodyText(body), rest, true)
  {
    ReadsBefore(body, "}", "}" + rest);
    BodyScanned(body, "}" + rest, 0);
    assert BodyText(body) + "}" + rest == BodyText(body) + ("}" + rest);
    assert ("}" + rest)[1..] == rest;
    assert Collect("}" + rest, 0, false, Open) == Collected("", rest, true);
  }

  /** An expansion inside brackets is opened but its brace does not close it: that takes a brace behind the brackets. */
  lemma ExpansionInBrackets(items: seq<Piece>, rest: string)
    requires BracketReads(items, "}]")
    ensures Collect("[${" + BodyText(items) + "}]" + "}" + rest, 0, false, Open) ==
            Pushed("[${" + BodyText(items) + "}]}", Collect(rest, 0, false, Open))
  {
    hide Collect, Pushed, BodyText;
    var text := BodyText(items);
    var last := "}" + rest;
    var tail := "}" + ("]" + last);
    assert "[${" + text + "}]" + "}" + rest == ['['] + ("${" + (text + tail));
    Step('[', "${" + (text + tail), 0, false, Open);
    StepTwo('x', text + tail, 0, true, Open);
    BracketBefore(items, "}]", tail);
    BracketScanned(items, tail, 1);
    Step('}', "]" + last, 1, true, Open);
    Step(']', last, 1, true, Open);
    Step('}', rest, 1, false, Open);
    var end := Collect(rest, 0, false, Open);
    PushedTwice("]", "}", end);
    PushedTwice("}", "]" + "}", end);
    PushedTwice(text, "}" + ("]" + "}"), end);
    PushedTwice("${", text + ("}" + ("]" + "}")), end);
    PushedTwice(['['], "${" + (text + ("}" + ("]" + "}"))), end);
    assert ['['] + ("${" + (text + ("}" + ("]" + "}")))) == "[${" + text + "}]}";
  }

  predicate Verbatim(s: string, c: Collected) {
    s == c.name + (if c.closed then "}" else "") + c.left && (!c.closed ==> c.left == "")
  }

  lemma VerbatimPushed(a: string, s: string, c: Collected)
    requires Verbatim(s, c)
    ensures Verbatim(a + s, Pushed(a, c))
  {
    assert a + s == a + c.name + (if c.closed then "}" else "") + c.left;
  }

  /** On any text at all the collected name is the consumed text, followed by at most one closing brace; without that
      brace everything was consumed. */
  lemma {:induction false} ConsumedVerbatim(s: string, nested: nat, bracket: bool, quote: Quote)
    ensures Verbatim(s, Collect(s, nested, bracket, quote))
    decreases |s|
  {
    hide Pushed;
    LastSteps("", nested, bracket, quote);
    if s != "" && TakesTwo(s[0], quote) {
      if |s| == 1 {
        assert s == "\\";
      } else {
        ConsumedVerbatim(s[2..], nested, bracket, quote);
        VerbatimPushed(s[..2], s[2..], Collect(s[2..], nested, bracket, quote));
        assert s == s[..2] + s[2..];
      }
    } else if s != "" {
      var c, rest := s[0], s[1..];
      assert s == [c] + rest;
      if quote == Open && c == '$' && OpensBrace(rest) {
        ConsumedVerbatim(rest[1..], nested + 1, bracket, Open);
        VerbatimPushed("${", rest[1..], Collect(rest[1..], nested + 1, bracket, Open));
        assert s == "${" + rest[1..];
      } else if quote == Open && c == '}' && !bracket && nested == 0 {
        LastSteps(rest, nested, bracket, quote);
        assert s == "" + "}" + rest;
      } else {
        var next := if quote == Single then (if c == '\'' then Open else Single)
                    else if quote == Double then (if c == '"' then Open else Double)
                    else if c == '\'' then Single else if c == '"' then Double else Open;
        var inBracket := if quote == Open && (c == '[' || c == ']') then c == '[' else bracket;
        var depth := if quote == Open && c == '}' && !bracket then nested - 1 else nested;
        ConsumedVerbatim(rest, depth, inBracket, next);
        VerbatimPushed([c], rest, Collect(rest, depth, inBracket, next));
      }
    }
  }
}
