/** What the text of an indexed array looks like when it is printed, and how written text is read. */
module IndexedText {
  import opened Text
  import opened IndexedCodec
  import opened IndexedRoundTrip

  // ----- The printed text

  /** The images of the characters, one after the other. */
  function Mapped(v: string, image: char -> string): string {
    if v == "" then "" else image(v[0]) + Mapped(v[1..], image)
  }

  lemma {:induction false} MappedDollar(v: string, image: char -> string)
    requires forall c :: image(c) == DollarChar(c, 0)
    ensures Mapped(v, image) == Dollar(v, 0)
  {
    if v != "" { MappedDollar(v[1..], image); }
  }

  lemma {:induction false} MappedDouble(v: string, image: char -> string)
    requires forall c :: image(c) == DoubleChar(c)
    ensures Mapped(v, image) == Double(v)
  {
    if v != "" { MappedDouble(v[1..], image); }
  }

  /** Only a line break, a carriage return or a single quote makes the printer use dollar quotes. */
  lemma QuotedIs(v: string)
    ensures QuoteValue(v) ==
              if '\n' in v || '\r' in v || '\'' in v then
                "$'" + Mapped(v, c => if c == '\\' then "\\\\" else if c == '\n' then "\\n"
                                      else if c == '\r' then "\\r" else if c == '\'' then "\\'" else [c]) + "'"
              else
                "\"" + Mapped(v, c => if c == '\\' || c == '"' || c == '$' || c == '`' then ['\\', c] else [c]) + "\""
  {
    DollarInOnePass(v);
    DoubleInOnePass(v);
    var dollar := (c: char) => if c == '\\' then "\\\\" else if c == '\n' then "\\n"
                              else if c == '\r' then "\\r" else if c == '\'' then "\\'" else [c];
    var double := (c: char) => if c == '\\' || c == '"' || c == '$' || c == '`' then ['\\', c] else [c];
    hide DollarChain, DoubleChain;
    MappedDollar(v, dollar);
    MappedDouble(v, double);
    assert (exists c | c in v :: ForcesDollar(c)) <==> ('\n' in v || '\r' in v || '\'' in v);
  }

  // ----- Written values

  /** A character inside double quotes, as it is or after a backslash. */
  datatype Unit = Plain(c: char) | Escaped(c: char)

  datatype Form = Word(text: string) | InSingle(text: string) | InDouble(units: seq<Unit>) | InDollar(text: string)

  function UnitsText(units: seq<Unit>): string {
    if units == [] then ""
    else (match units[0] case Plain(c) => [c] case Escaped(c) => ['\\', c]) + UnitsText(units[1..])
  }

  function UnitsValue(units: seq<Unit>): string {
    seq(|units|, i requires 0 <= i < |units| => units[i].c)
  }

  predicate FormOk(f: Form) {
    match f
    case Word(text) => Bare(text)
    case InSingle(text) => '\'' !in text && '\\' !in text
    case InDouble(units) => forall u | u in units :: u.Plain? ==> u.c != '"' && u.c != '\\'
    case InDollar(text) => '\'' !in text && '\\' !in text
  }

  function FormText(f: Form): string {
    match f
    case Word(text) => text
    case InSingle(text) => "'" + text + "'"
    case InDouble(units) => "\"" + UnitsText(units) + "\""
    case InDollar(text) => "$'" + text + "'"
  }

  /** Single quotes stay; the other quotes go. */
  function FormValue(f: Form): string {
    match f
    case Word(text) => text
    case InSingle(text) => "'" + text + "'"
    case InDouble(units) => UnitsValue(units)
    case InDollar(text) => text
  }

  lemma {:induction false} NoPairs(s: string, letter: char, c: char)
    requires '\\' !in s
    ensures ReplacePair(s, letter, c) == s
  {
    if |s| >= 2 {
      NoPairs(s[1..], letter, c);
      assert s == [s[0]] + s[1..];
    }
  }

  lemma {:induction false} UnitsUndone(units: seq<Unit>)
    ensures UndoDouble(UnitsText(units)) == UnitsValue(units)
    requires forall u | u in units :: u.Plain? ==> u.c != '\\'
  {
    if units != [] {
      assert units == [units[0]] + units[1..];
      UnitsUndone(units[1..]);
      var text, tail := UnitsText(units), UnitsText(units[1..]);
      assert UnitsValue(units) == [units[0].c] + UnitsValue(units[1..]);
      match units[0] {
        case Plain(c) => assert text[1..] == tail;
        case Escaped(c) => assert text == ['\\', c] + tail && text[2..] == tail;
      }
    }
  }

  lemma FormReads(f: Form)
    requires FormOk(f)
    ensures UnquoteValue(FormText(f)) == FormValue(f)
  {
    hide ReplacePair, UndoDouble, IsWhitespace;
    var text := FormText(f);
    match f
    case Word(word) =>
      assert text != "" ==> text[0] in text && text[|text| - 1] in text;
    case InSingle(inner) =>
      assert text[0] == '\'';
    case InDouble(units) =>
      assert text[0] == '"' && text[1..|text| - 1] == UnitsText(units);
      UnitsUndone(units);
    case InDollar(inner) =>
      assert text[..2] == "$'" && text[2..|text| - 1] == inner;
      NoPairs(inner, 'n', '\n');
      NoPairs(inner, 'r', '\r');
      NoPairs(inner, '\'', '\'');
      NoPairs(inner, '\\', '\\');
  }

  lemma {:induction false} UnitsStayQuoted(units: seq<Unit>, rest: string, current: string)
    requires forall u | u in units :: u.Plain? ==> u.c != '"' && u.c != '\\'
    ensures Words(UnitsText(units) + rest, Some('"'), current) == Words(rest, Some('"'), current + UnitsText(units))
    decreases |units|
  {
    hide IsWhitespace, Words;
    var text := UnitsText(units);
    if units == [] {
      assert text + rest == rest && current + text == current;
    } else {
      var tail := UnitsText(units[1..]);
      match units[0] {
        case Plain(c) =>
          assert text + rest == [c] + (tail + rest) && current + text == current + [c] + tail;
          QuotedStep(c, tail + rest, '"', current);
          UnitsStayQuoted(units[1..], rest, current + [c]);
        case Escaped(c) =>
          assert text + rest == ['\\', c] + (tail + rest) && current + text == current + ['\\', c] + tail;
          EscapedStep(c, tail + rest, '"', current);
          UnitsStayQuoted(units[1..], rest, current + ['\\', c]);
      }
    }
  }

  lemma {:induction false} TextStaysQuoted(text: string, rest: string, current: string)
    requires '\'' !in text && '\\' !in text
    ensures Words(text + rest, Some('\''), current) == Words(rest, Some('\''), current + text)
    decreases |text|
  {
    hide IsWhitespace, Words;
    if text == "" {
      assert text + rest == rest && current + text == current;
    } else {
      assert text + rest == [text[0]] + (text[1..] + rest) && current + text == current + [text[0]] + text[1..];
      QuotedStep(text[0], text[1..] + rest, '\'', current);
      TextStaysQuoted(text[1..], rest, current + [text[0]]);
    }
  }

  lemma SingleIsTaken(text: string, rest: string, current: string)
    requires '\'' !in text && '\\' !in text
    ensures Words("'" + text + "'" + rest, None, current) == Words(rest, None, current + ("'" + text + "'"))
  {
    hide Words;
    var end := ['\''] + rest;
    assert "'" + text + "'" + rest == ['\''] + (text + end);
    WordsStep('\'', text + end, current);
    TextStaysQuoted(text, end, current + ['\'']);
    QuotedStep('\'', rest, '\'', current + ['\''] + text);
    assert current + ['\''] + text + ['\''] == current + ("'" + text + "'");
  }

  lemma FormIsTaken(f: Form, rest: string, current: string)
    requires FormOk(f)
    ensures Words(FormText(f) + rest, None, current) == Words(rest, None, current + FormText(f))
  {
    hide Words, Bare;
    match f
    case Word(text) => BareIsTaken(text, rest, current);
    case InSingle(text) => SingleIsTaken(text, rest, current);
    case InDouble(units) =>
      var body := UnitsText(units);
      var end := ['"'] + rest;
      assert "\"" + body + "\"" + rest == ['"'] + (body + end);
      WordsStep('"', body + end, current);
      UnitsStayQuoted(units, end, current + ['"']);
      QuotedStep('"', rest, '"', current + ['"'] + body);
      assert current + ['"'] + body + ['"'] == current + ("\"" + body + "\"");
    case InDollar(text) =>
      assert "$'" + text + "'" + rest == ['$'] + ("'" + text + "'" + rest);
      WordsStep('$', "'" + text + "'" + rest, current);
      SingleIsTaken(text, rest, current + ['$']);
      assert current + ['$'] + ("'" + text + "'") == current + ("$'" + text + "'");
  }

  // ----- Written lists

  /** A word of the list: some text without quotes or blanks, and a value. */
  datatype Item = Item(head: string, form: Form)

  function ItemText(item: Item): string { item.head + FormText(item.form) }

  predicate ItemOk(item: Item) { Bare(item.head) && FormOk(item.form) && ItemText(item) != "" }

  predicate Blank(c: char) {
    || c == ' ' || c == '\t' || c == '\n' || c == '\r'
    || c == '\U{0B}' || c == '\U{85}' || c == '\U{A0}' || c == '\U{3000}'
  }

  predicate Gap(s: string) { forall c | c in s :: Blank(c) }

  /** Every word with the blanks after it. */
  function Laid(items: seq<Item>, gaps: seq<string>): string
    requires |gaps| == |items|
  {
    if items == [] then "" else ItemText(items[0]) + (gaps[0] + Laid(items[1..], gaps[1..]))
  }

  /** Only the last word may have no blank after it. */
  predicate Spaced(items: seq<Item>, gaps: seq<string>) {
    && |gaps| == |items| && (forall item | item in items :: ItemOk(item)) && (forall gap | gap in gaps :: Gap(gap))
    && forall i | 0 <= i < |gaps| - 1 :: gaps[i] != ""
  }

  lemma BlankIsWhite(c: char)
    ensures Blank(c) ==> IsWhitespace(c) && c != '"' && c != '\''
  {
  }

  lemma {:induction false} GapSkipped(gap: string, rest: string)
    requires Gap(gap)
    ensures Words(gap + rest, None, "") == Words(rest, None, "")
  {
    hide Blank;
    if gap == "" {
      assert gap + rest == rest;
    } else {
      assert gap == [gap[0]] + gap[1..];
      BlankIsWhite(gap[0]);
      GapSkipped(gap[1..], rest);
      assert (gap + rest)[1..] == gap[1..] + rest;
    }
  }

  lemma WordEnds(gap: string, rest: string, current: string)
    requires Gap(gap) && current != "" && (gap == "" ==> rest == "")
    ensures Words(gap + rest, None, current) == [current] + Words(rest, None, "")
  {
    hide Blank;
    if gap == "" {
      assert gap + rest == "";
    } else {
      assert gap == [gap[0]] + gap[1..];
      BlankIsWhite(gap[0]);
      GapSkipped(gap[1..], rest);
      assert (gap + rest)[1..] == gap[1..] + rest;
    }
  }

  function ItemTexts(items: seq<Item>): seq<string> {
    seq(|items|, i requires 0 <= i < |items| => ItemText(items[i]))
  }

  lemma ItemIsTaken(item: Item, rest: string)
    requires ItemOk(item)
    ensures Words(ItemText(item) + rest, None, "") == Words(rest, None, ItemText(item))
  {
    hide Words, Bare, FormText, FormOk;
    assert ItemText(item) + rest == item.head + (FormText(item.form) + rest);
    BareIsTaken(item.head, FormText(item.form) + rest, "");
    assert "" + item.head == item.head;
    FormIsTaken(item.form, rest, item.head);
  }

  lemma {:induction false} LaidWords(items: seq<Item>, gaps: seq<string>)
    requires Spaced(items, gaps)
    ensures Words(Laid(items, gaps), None, "") == ItemTexts(items)
  {
    hide ItemText, Gap;
    if items != [] {
      assert items[0] in items && gaps[0] in gaps;
      assert Spaced(items[1..], gaps[1..]) by {
        assert forall item | item in items[1..] :: item in items;
        assert forall gap | gap in gaps[1..] :: gap in gaps;
      }
      LaidWords(items[1..], gaps[1..]);
      var rest := Laid(items[1..], gaps[1..]);
      ItemIsTaken(items[0], gaps[0] + rest);
      assert ItemText(items[0]) != "" && (gaps[0] == "" ==> rest == "");
      WordEnds(gaps[0], rest, ItemText(items[0]));
      assert ItemTexts(items) == [ItemText(items[0])] + ItemTexts(items[1..]);
    }
  }

  lemma LeadSkipped(lead: string, items: seq<Item>, gaps: seq<string>)
    requires Gap(lead) && Spaced(items, gaps)
    ensures Words(lead + Laid(items, gaps), None, "") == ItemTexts(items)
  {
    hide Gap, Words, Laid, ItemOk;
    GapSkipped(lead, Laid(items, gaps));
    LaidWords(items, gaps);
  }

  lemma InParentheses(inner: string)
    ensures Enclosed("(" + inner + ")", '(', ')') == Some(inner)
  {
    assert ("(" + inner + ")")[1..|inner| + 1] == inner;
  }

  lemma PrefixedIs(inner: string)
    ensures IndexedEntries("\U{1D}(" + inner + ")") == Collected(Words(inner, None, ""))
  {
    hide Words, Collected;
    InParentheses(inner);
    var text := "\U{1D}(" + inner + ")";
    assert text[1..] == "(" + inner + ")" && text[0] == '\U{1D}';
  }

  lemma PlainIs(inner: string)
    ensures IndexedEntries("(" + inner + ")") == Numbered(Words(inner, None, ""))
  {
    hide Words, Numbered;
    InParentheses(inner);
    assert ("(" + inner + ")")[0] == '(';
  }

  // ----- Lists behind the prefix

  datatype Key = Number(index: nat) | Name(text: string)

  predicate KeyOk(key: Key) {
    key.Name? ==> Bare(key.text) && '=' !in key.text && exists c | c in key.text :: !IsDigit(c) && c !in {'+', '[', ']'}
  }

  function KeyText(key: Key): string { match key case Number(n) => "[" + Decimal(n) + "]" case Name(text) => text }

  /** An entry for a key, or a word without an equals sign. */
  datatype Written = Pair(key: Key, form: Form) | Lone(form: Form)

  predicate WrittenOk(w: Written) {
    match w
    case Pair(key, form) => KeyOk(key) && FormOk(form)
    case Lone(form) => FormOk(form) && FormText(form) != "" && '=' !in FormText(form)
  }

  function ItemOf(w: Written): Item {
    match w
    case Pair(key, form) => Item(KeyText(key) + "=", form)
    case Lone(form) => Item("", form)
  }

  function ItemsOf(ws: seq<Written>): seq<Item> { seq(|ws|, i requires 0 <= i < |ws| => ItemOf(ws[i])) }

  lemma {:induction false} KeptByTrim(s: string, c: char, x: char)
    requires x in s && x != c
    ensures x in TrimStart(s, c) && x in TrimEnd(s, c)
  {
    if s != "" {
      if s[0] == c { KeptAtStart(s, c, x); }
      if s[|s| - 1] == c { KeptAtEnd(s, c, x); }
    }
  }

  lemma {:induction false} KeptAtStart(s: string, c: char, x: char)
    requires x in s && x != c
    ensures x in TrimStart(s, c)
  {
    if s[0] == c {
      assert s == [s[0]] + s[1..];
      KeptAtStart(s[1..], c, x);
    }
  }

  lemma {:induction false} KeptAtEnd(s: string, c: char, x: char)
    requires x in s && x != c
    ensures x in TrimEnd(s, c)
  {
    if s[|s| - 1] == c {
      assert s == s[..|s| - 1] + [s[|s| - 1]];
      KeptAtEnd(s[..|s| - 1], c, x);
    }
  }

  lemma NoIndex(s: string, x: char)
    requires x in s && !IsDigit(x) && x != '+'
    ensures ParseIndex(s) == None
  {
    assert s[0] == '+' ==> x in s[1..] by { assert s == [s[0]] + s[1..]; }
  }

  lemma {:induction false} NoEquals(s: string)
    requires '=' !in s
    ensures SplitOnce(s, '=') == None
  {
    if s != "" {
      assert s == [s[0]] + s[1..];
      NoEquals(s[1..]);
    }
  }

  lemma WrittenReads(w: Written)
    requires WrittenOk(w)
    ensures EntryOf(ItemText(ItemOf(w))) ==
              if w.Pair? && w.key.Number? && w.key.index < 0x1_0000_0000_0000_0000
              then Some((w.key.index, FormValue(w.form))) else None
  {
    hide UnquoteValue, FormText, FormOk, FormValue, ParseIndex, Bare;
    match w
    case Lone(form) =>
      assert ItemText(ItemOf(w)) == FormText(form);
      NoEquals(FormText(form));
    case Pair(key, form) =>
      FormReads(form);
      assert ItemText(ItemOf(w)) == KeyText(key) + ['='] + FormText(form);
      match key {
        case Number(n) =>
          HeadIsBare(n);
          SplitOnceAt(KeyText(key), '=', FormText(form));
          DecimalDigits(n);
          Trimmed(Decimal(n));
          DecimalParses(n);
        case Name(text) =>
          SplitOnceAt(text, '=', FormText(form));
          var x :| x in text && !IsDigit(x) && x !in {'+', '[', ']'};
          KeptByTrim(text, '[', x);
          KeptByTrim(TrimStart(text, '['), ']', x);
          NoIndex(TrimEnd(TrimStart(text, '['), ']'), x);
      }
  }

  lemma WrittenIsItem(w: Written)
    requires WrittenOk(w)
    ensures ItemOk(ItemOf(w))
  {
    hide FormOk, IsWhitespace;
    match w
    case Lone(form) => assert FormText(form) == ItemText(ItemOf(w));
    case Pair(key, form) =>
      if key.Number? { HeadIsBare(key.index); }
      assert ItemText(ItemOf(w))[|KeyText(key)|] == '=';
      assert !IsWhitespace('=') by { EqualsIsNoBlank(); }
  }

  lemma EqualsIsNoBlank()
    ensures !IsWhitespace('=')
  {
  }

  /** The word gives the index a value. */
  predicate Gives(w: Written, n: nat) { w.Pair? && w.key == Number(n) && n < 0x1_0000_0000_0000_0000 }

  lemma CollectedLast(ws: seq<Written>)
    requires ws != [] && WrittenOk(ws[|ws| - 1])
    ensures var (k, w) := (|ws| - 1, ws[|ws| - 1]);
            Collected(ItemTexts(ItemsOf(ws))) ==
            if w.Pair? && w.key.Number? && w.key.index < 0x1_0000_0000_0000_0000
            then Collected(ItemTexts(ItemsOf(ws[..k])))[w.key.index := FormValue(w.form)]
            else Collected(ItemTexts(ItemsOf(ws[..k])))
  {
    hide EntryOf, ItemText, ItemOf, WrittenOk, FormValue;
    var k := |ws| - 1;
    WrittenReads(ws[k]);
    assert ItemTexts(ItemsOf(ws))[..k] == ItemTexts(ItemsOf(ws[..k]));
  }

  lemma {:induction false} CollectedAre(ws: seq<Written>, n: nat)
    requires forall w | w in ws :: WrittenOk(w)
    ensures n in Collected(ItemTexts(ItemsOf(ws))) <==> exists i :: 0 <= i < |ws| && Gives(ws[i], n)
    decreases |ws|
  {
    hide EntryOf, ItemText, ItemOf, ItemsOf, ItemTexts, WrittenOk, FormValue;
    if ws == [] {
      assert ItemTexts(ItemsOf(ws)) == [] by { NothingWritten(); }
    } else {
      var k := |ws| - 1;
      assert forall w | w in ws[..k] :: w in ws;
      CollectedAre(ws[..k], n);
      assert ws[k] in ws;
      CollectedLast(ws);
      assert forall i | 0 <= i < k :: ws[..k][i] == ws[i];
      if Gives(ws[k], n) { assert n in Collected(ItemTexts(ItemsOf(ws))); }
    }
  }

  lemma NothingWritten()
    ensures ItemTexts(ItemsOf([])) == []
  {
  }

  lemma {:induction false} CollectedValue(ws: seq<Written>, n: nat, i: nat)
    requires (forall w | w in ws :: WrittenOk(w)) && i < |ws| && Gives(ws[i], n)
    requires forall j | i < j < |ws| :: !Gives(ws[j], n)
    ensures n in Collected(ItemTexts(ItemsOf(ws))) && Collected(ItemTexts(ItemsOf(ws)))[n] == FormValue(ws[i].form)
    decreases |ws|
  {
    hide EntryOf, ItemText, ItemOf, ItemsOf, ItemTexts, WrittenOk, FormValue;
    var k := |ws| - 1;
    assert ws[k] in ws;
    CollectedLast(ws);
    if i < k {
      assert forall w | w in ws[..k] :: w in ws;
      assert forall j | 0 <= j < k :: ws[..k][j] == ws[j];
      CollectedValue(ws[..k], n, i);
      assert !Gives(ws[k], n);
    }
  }

  /** Text behind the prefix: the indices below two to the sixty-fourth that some entry gives, each with the value of
      the last entry that does; all other words are passed over. */
  lemma PrefixedList(lead: string, ws: seq<Written>, gaps: seq<string>, n: nat)
    requires (forall w | w in ws :: WrittenOk(w)) && Gap(lead) && Spaced(ItemsOf(ws), gaps)
    ensures var m := IndexedEntries("\U{1D}(" + (lead + Laid(ItemsOf(ws), gaps)) + ")");
            && (n in m <==> exists i :: 0 <= i < |ws| && Gives(ws[i], n))
            && forall i | 0 <= i < |ws| && Gives(ws[i], n) && (forall j | i < j < |ws| :: !Gives(ws[j], n)) ::
                 n in m && m[n] == FormValue(ws[i].form)
  {
    hide Laid, Words, Collected, Numbered, Gap, Blank, WrittenOk, FormValue, Enclosed, ItemTexts, ItemOf, ItemOk,
         Gives, IndexedEntries;
    var inner := lead + Laid(ItemsOf(ws), gaps);
    LeadSkipped(lead, ItemsOf(ws), gaps);
    CollectedAre(ws, n);
    forall i | 0 <= i < |ws| && Gives(ws[i], n) && (forall j | i < j < |ws| :: !Gives(ws[j], n))
      ensures n in Collected(ItemTexts(ItemsOf(ws))) && Collected(ItemTexts(ItemsOf(ws)))[n] == FormValue(ws[i].form)
    {
      CollectedValue(ws, n, i);
    }
    PrefixedIs(inner);
  }

  // ----- Lists without the prefix

  /** A value, alone or after a name and an equals sign. */
  datatype Value = Value(name: Option<string>, form: Form)

  predicate ValueOk(v: Value) {
    && FormOk(v.form)
    && match v.name
       case None => FormText(v.form) != "" && '=' !in FormText(v.form)
       case Some(name) => Bare(name) && '=' !in name
  }

  function ValueItem(v: Value): Item {
    Item(match v.name case None => "" case Some(name) => name + "=", v.form)
  }

  function ValueItems(vs: seq<Value>): seq<Item> { seq(|vs|, i requires 0 <= i < |vs| => ValueItem(vs[i])) }

  lemma ValueReads(v: Value)
    requires ValueOk(v)
    ensures var part := ItemText(ValueItem(v));
            UnquoteValue(match SplitOnce(part, '=') case Some((_, x)) => x case None => part) == FormValue(v.form)
  {
    hide UnquoteValue, FormText, FormOk, FormValue, Bare;
    FormReads(v.form);
    match v.name
    case None =>
      assert ItemText(ValueItem(v)) == FormText(v.form);
      NoEquals(FormText(v.form));
    case Some(name) =>
      assert ItemText(ValueItem(v)) == name + ['='] + FormText(v.form);
      SplitOnceAt(name, '=', FormText(v.form));
  }

  /** Text without the prefix: the words are numbered from zero, and a name with its equals sign is dropped. */
  lemma PlainList(lead: string, vs: seq<Value>, gaps: seq<string>)
    requires (forall v | v in vs :: ValueOk(v)) && Gap(lead) && Spaced(ValueItems(vs), gaps)
    ensures var m := IndexedEntries("(" + (lead + Laid(ValueItems(vs), gaps)) + ")");
            && (forall n: nat :: n in m <==> n < |vs|)
            && forall i | 0 <= i < |vs| :: i in m && m[i] == FormValue(vs[i].form)
  {
    hide Laid, Words, Collected, Gap, Blank, ValueOk, ValueItem, FormValue, Enclosed, UnquoteValue, ItemText, ItemOk,
         IndexedEntries;
    var inner := lead + Laid(ValueItems(vs), gaps);
    LeadSkipped(lead, ValueItems(vs), gaps);
    PlainIs(inner);
    var m := Numbered(ItemTexts(ValueItems(vs)));
    forall i | 0 <= i < |vs| ensures i in m && m[i] == FormValue(vs[i].form) {
      assert vs[i] in vs;
      ValueReads(vs[i]);
    }
  }

  /** Without parentheses around it the text holds no entry, with the prefix or without. */
  lemma NoList(text: string)
    requires |text| < 2 || text[0] != '(' || text[|text| - 1] != ')'
    ensures IndexedEntries("\U{1D}" + text) == map[]
    ensures text == "" || text[0] != '\U{1D}' ==> IndexedEntries(text) == map[]
  {
    assert ("\U{1D}" + text)[1..] == text;
  }

  /** The text of an array: its entries as index, equals sign and quoted value, with a space between two of them. */
  lemma PrintedArray(e: Entry, es: seq<Entry>)
    ensures FormatIndexed([]) == "\U{1D}()"
    ensures FormatIndexed([e]) == "\U{1D}([" + Decimal(e.0) + "]=" + QuoteValue(e.1) + ")"
    ensures es != [] ==>
              FormatIndexed([e] + es) ==
              "\U{1D}([" + Decimal(e.0) + "]=" + QuoteValue(e.1) + " " + FormatIndexed(es)[2..]
  {
    hide QuoteValue, Decimal;
    assert EntryTexts([]) == [] && EntryTexts([e]) == [EntryText(e)];
    var texts := EntryTexts([e] + es);
    assert texts[0] == EntryText(e) && texts[1..] == EntryTexts(es);
    assert FormatIndexed(es)[2..] == Join(EntryTexts(es), " ") + ")";
    assert es != [] ==> Join(texts, " ") == EntryText(e) + " " + Join(EntryTexts(es), " ");
  }

  /** Indices are written in base ten. */
  lemma DecimalAt(n: nat)
    ensures n < 10 ==> Decimal(n) == ["0123456789"[n]]
    ensures n >= 10 ==> Decimal(n) == Decimal(n / 10) + ["0123456789"[n % 10]]
    ensures Decimal(1907) == "1907"
  {
    assert Decimal(1) == "1" && Decimal(19) == "19" && Decimal(190) == "190";
  }
}
