/** The text form of associative arrays: printer, word splitter, token merger, `[key]=value`
    tokenizer and unquoter of `executor/assignment_helpers.rs`. */
module AssocCodec {
  import opened Text

  type Entry = (string, string)

  // ----- Printer

  function EscapeDouble(s: string): string {
    if s == "" then ""
    else (if s[0] == '"' || s[0] == '\\' then ['\\', s[0]] else [s[0]]) + EscapeDouble(s[1..])
  }

  function QuoteForced(s: string): string { "\"" + EscapeDouble(s) + "\"" }

  predicate ForcesValueQuotes(c: char) { AsciiBlank(c) || c == '\'' || c == '"' || c == '\\' }

  predicate ForcesKeyQuotes(c: char) { ForcesValueQuotes(c) || c == ']' }

  function QuoteValue(value: string): string {
    if value != "" && forall c | c in value :: !ForcesValueQuotes(c) then value else QuoteForced(value)
  }

  function QuoteKey(key: string): string {
    if key != "" && forall c | c in key :: !ForcesKeyQuotes(c) then key else QuoteForced(key)
  }

  function FormatPair(e: Entry): string { "[" + QuoteKey(e.0) + "]=" + QuoteValue(e.1) }

  function FormatPairs(es: seq<Entry>): seq<string> {
    if es == [] then [] else [FormatPair(es[0])] + FormatPairs(es[1..])
  }

  function FormatAssoc(es: seq<Entry>): string { "(" + Join(FormatPairs(es), " ") + ")" }

  method QuoteAssocStorageValueForced(value: string) returns (quoted: string)
    ensures quoted == QuoteForced(value)
  {
    quoted := "\"";
    for i := 0 to |value|
      invariant quoted + EscapeDouble(value[i..]) == "\"" + EscapeDouble(value)
    {
      assert value[i..][1..] == value[i + 1..];
      if value[i] == '"' || value[i] == '\\' {
        quoted := quoted + "\\";
      }
      quoted := quoted + [value[i]];
    }
    quoted := quoted + "\"";
  }

  // ----- Word splitter

  /** What a scanner remembers between two characters. */
  datatype Quotes = Quotes(single: bool, double: bool, escaped: bool)

  const BARE := Quotes(false, false, false)
  const IN_DOUBLE := Quotes(false, true, false)

  /** In the splitter a backslash protects the next character inside double quotes only. */
  function WordStep(q: Quotes, c: char): Quotes {
    if q.escaped then q.(escaped := false)
    else if c == '\\' && q.double then q.(escaped := true)
    else if c == '\'' && !q.double then q.(single := !q.single)
    else if c == '"' && !q.single then q.(double := !q.double)
    else q
  }

  predicate Breaks(q: Quotes, c: char) { !q.escaped && !q.single && !q.double && AsciiBlank(c) }

  function WordLength(s: string, q: Quotes): (n: nat)
    ensures n <= |s|
  {
    if s == "" || Breaks(q, s[0]) then 0 else 1 + WordLength(s[1..], WordStep(q, s[0]))
  }

  function WordRun(q: Quotes, s: string): Quotes
    decreases |s|
  {
    if s == "" then q else WordRun(WordStep(q, s[0]), s[1..])
  }

  function LeadingBlanks(s: string): (n: nat)
    ensures n <= |s| && (n < |s| ==> !AsciiBlank(s[n]))
  {
    if s == "" || !AsciiBlank(s[0]) then 0 else 1 + LeadingBlanks(s[1..])
  }

  function StorageWords(s: string): seq<string>
    decreases |s|
  {
    var t := s[LeadingBlanks(s)..];
    if t == "" then []
    else
      var n := WordLength(t, BARE);
      [t[..n]] + StorageWords(AfterWord(t))
  }

  function AfterWord(text: string): string {
    var n := WordLength(text, BARE);
    if n < |text| then text[n + 1..] else ""
  }

  lemma WordsStep(s: string)
    ensures var text := s[LeadingBlanks(s)..]; var n := WordLength(text, BARE);
            && (n == 0 <==> text == "")
            && StorageWords(s) == if text == "" then [] else [text[..n]] + StorageWords(AfterWord(text))
  {
  }

  lemma WordLengthStep(s: string, i: nat, q: Quotes)
    requires i <= |s|
    ensures i == |s| || Breaks(q, s[i]) ==> WordLength(s[i..], q) == 0
    ensures i < |s| && !Breaks(q, s[i]) ==> WordLength(s[i..], q) == 1 + WordLength(s[i + 1..], WordStep(q, s[i]))
  {
    if i < |s| { assert s[i..][1..] == s[i + 1..]; }
  }

  class StorageWordIter {
    const input: string
    var offset: nat

    ghost predicate Valid() reads this { offset <= |input| }

    constructor (input: string)
      ensures Valid() && this.input == input && offset == 0
    {
      this.input, offset := input, 0;
    }

    method SkipBlanks()
      requires Valid()
      modifies this`offset
      ensures Valid() && offset == old(offset) + LeadingBlanks(input[old(offset)..])
    {
      ghost var rest := input[offset..];
      while offset < |input| && AsciiBlank(input[offset])
        invariant old(offset) <= offset <= |input|
        invariant offset - old(offset) + LeadingBlanks(input[offset..]) == LeadingBlanks(rest)
      {
        assert input[offset..][1..] == input[offset + 1..];
        offset := offset + 1;
      }
    }

    /** Collects the word at the offset and moves past it and the blank that ends it. */
    method TakeWord() returns (word: string)
      requires Valid()
      modifies this`offset
      ensures Valid()
      ensures var text := input[old(offset)..];
                word == text[..WordLength(text, BARE)] && input[offset..] == AfterWord(text)
      ensures old(offset) + |word| <= offset
    {
      hide WordLength;
      word := "";
      var text := input[offset..];
      var inDouble, inSingle, escaped := false, false, false;
      assert text[0..] == text;
      for relative := 0 to |text|
        invariant offset == old(offset) && word == text[..relative]
        invariant relative + WordLength(text[relative..], Quotes(inSingle, inDouble, escaped)) == WordLength(text, BARE)
        invariant escaped ==> inDouble
      {
        var c := text[relative];
        WordLengthStep(text, relative, Quotes(inSingle, inDouble, escaped));
        if escaped {
          word, escaped := word + [c], false;
        } else if c == '\\' && inDouble {
          word, escaped := word + [c], true;
        } else if c == '\'' && !inDouble {
          inSingle, word := !inSingle, word + [c];
        } else if c == '"' && !inSingle {
          inDouble, word := !inDouble, word + [c];
        } else if AsciiBlank(c) && !inDouble && !inSingle {
          offset := offset + relative + 1;
          assert text[relative + 1..] == input[offset..];
          return;
        } else {
          word := word + [c];
        }
      }
      WordLengthStep(text, |text|, Quotes(inSingle, inDouble, escaped));
      offset := |input|;
    }

    /** Yields the first word of the text not yet consumed and leaves the words after it. */
    method Next() returns (word: Option<string>)
      requires Valid()
      modifies this`offset
      ensures Valid() && old(offset) <= offset
      ensures word.None? ==> offset == |input| && StorageWords(old(input[offset..])) == []
      ensures word.Some? ==>
                && old(offset) < offset
                && StorageWords(old(input[offset..])) == [word.value] + StorageWords(input[offset..])
    {
      hide StorageWords, WordLength, LeadingBlanks, AfterWord;
      ghost var rest := input[offset..];
      SkipBlanks();
      ghost var text := input[offset..];
      assert text == rest[LeadingBlanks(rest)..];
      var collected := TakeWord();
      WordsStep(rest);
      if collected == "" { return None; }
      return Some(collected);
    }
  }

  method SplitStorageWords(value: string) returns (words: seq<string>)
    ensures words == StorageWords(value)
  {
    hide StorageWords, WordLength, LeadingBlanks;
    words := [];
    var iter := new StorageWordIter(value);
    assert value[0..] == value;
    while true
      invariant iter.Valid() && iter.input == value
      invariant words + StorageWords(value[iter.offset..]) == StorageWords(value)
      decreases |value| - iter.offset
    {
      var word := iter.Next();
      if word.None? { return; }
      words := words + [word.value];
    }
  }

  // ----- `[key]=value` tokens

  /** In the tokenizer a backslash protects the next character except inside single quotes. */
  function TokenStep(q: Quotes, c: char): Quotes {
    if q.escaped then q.(escaped := false)
    else if c == '\\' && !q.single then q.(escaped := true)
    else if c == '\'' && !q.double then q.(single := !q.single)
    else if c == '"' && !q.single then q.(double := !q.double)
    else q
  }

  function TokenRun(q: Quotes, s: string): Quotes
    decreases |s|
  {
    if s == "" then q else TokenRun(TokenStep(q, s[0]), s[1..])
  }

  predicate Closes(q: Quotes, c: char) { !q.escaped && !q.single && !q.double && c == ']' }

  /** Where the first unquoted `]` is. */
  function ClosingBracket(s: string, q: Quotes): (at: Option<nat>)
    ensures at.Some? ==> at.value < |s|
  {
    if s == "" then None
    else if Closes(q, s[0]) then Some(0)
    else match ClosingBracket(s[1..], TokenStep(q, s[0]))
      case None => None
      case Some(i) => Some(i + 1)
  }

  /** Key text, value text and whether the operator is `+=`. */
  type Assignment = (string, string, bool)

  function AfterSubscript(key: string, after: string): Option<Assignment> {
    if |after| >= 2 && after[..2] == "+=" then Some((key, after[2..], true))
    else if after != "" && after[0] == '=' then Some((key, after[1..], false))
    else None
  }

  function AssignmentToken(token: string): Option<Assignment> {
    if token == "" || token[0] != '[' then None
    else
      var rest := token[1..];
      match ClosingBracket(rest, BARE)
      case None => None
      case Some(i) => AfterSubscript(rest[..i], rest[i + 1..])
  }

  method AssocAssignmentToken(token: string) returns (r: Option<Assignment>)
    ensures r == AssignmentToken(token)
  {
    if token == "" || token[0] != '[' { return None; }
    var rest := token[1..];
    var inSingle, inDouble, escaped := false, false, false;
    ghost var closing := ClosingBracket(rest, BARE);
    assert rest[0..] == rest;
    for index := 0 to |rest|
      invariant match ClosingBracket(rest[index..], Quotes(inSingle, inDouble, escaped))
                case None => closing == None
                case Some(i) => closing == Some(index + i)
    {
      var c := rest[index];
      assert rest[index..][1..] == rest[index + 1..];
      if escaped {
        escaped := false;
        continue;
      }
      if c == '\\' && !inSingle {
        escaped := true;
      } else if c == '\'' && !inDouble {
        inSingle := !inSingle;
      } else if c == '"' && !inSingle {
        inDouble := !inDouble;
      } else if c == ']' && !inSingle && !inDouble {
        var key, after := rest[..index], rest[index + 1..];
        if |after| >= 2 && after[..2] == "+=" { return Some((key, after[2..], true)); }
        if after != "" && after[0] == '=' { return Some((key, after[1..], false)); }
        return None;
      }
    }
    return None;
  }

  /** Scanner of the merger: quotes, whether a subscript is open, whether one has been closed. */
  datatype Scan = Scan(quotes: Quotes, open: bool, closed: bool)

  function ScanStep(st: Scan, c: char, first: bool): Scan {
    var q := st.quotes;
    var next := st.(quotes := TokenStep(q, c));
    if Closes(q, c) && (st.open || !first) then next.(open := false, closed := true)
    else if c == '[' && q == BARE && !st.open && !st.closed then next.(open := true)
    else next
  }

  function ScanFrom(s: string, first: bool, st: Scan): Scan
    decreases |s|
  {
    if s == "" then st else ScanFrom(s[1..], false, ScanStep(st, s[0], first))
  }

  function ScanToken(token: string): Scan {
    ScanFrom(token, true, Scan(BARE, token != "" && token[0] == '[', false))
  }

  /** A subscript or a quote is still open at the end of the token. */
  predicate Unfinished(token: string) {
    var st := ScanToken(token);
    st.open || st.quotes.single || st.quotes.double
  }

  method AssocTokenScanState(token: string) returns (depth: nat, inSingle: bool, inDouble: bool)
    ensures Unfinished(token) <==> depth > 0 || inSingle || inDouble
  {
    inSingle, inDouble := false, false;
    var escaped := false;
    var subscriptOpen, afterSubscript := token != "" && token[0] == '[', false;
    assert token[0..] == token;
    for i := 0 to |token|
      invariant ScanFrom(token[i..], i == 0,
        Scan(Quotes(inSingle, inDouble, escaped), subscriptOpen, afterSubscript)) == ScanToken(token)
    {
      var c := token[i];
      assert token[i..][1..] == token[i + 1..];
      if escaped {
        escaped := false;
        continue;
      }
      if c == '\\' && !inSingle {
        escaped := true;
      } else if c == '\'' && !inDouble {
        inSingle := !inSingle;
      } else if c == '"' && !inSingle {
        inDouble := !inDouble;
      } else if c == ']' && !inSingle && !inDouble {
        if subscriptOpen || i > 0 {
          subscriptOpen, afterSubscript := false, true;
        }
      } else if c == '[' && !inSingle && !inDouble && !subscriptOpen && !afterSubscript {
        subscriptOpen := true;
      }
    }
    depth := if subscriptOpen then 1 else 0;
  }

  /** Tokens re-joined with one blank wherever the text before is unfinished. */
  function Merged(tokens: seq<string>): seq<string> {
    if tokens == [] then []
    else
      var n := |tokens| - 1;
      var out := Merged(tokens[..n]);
      if out != [] && Unfinished(out[|out| - 1]) then out[..|out| - 1] + [out[|out| - 1] + " " + tokens[n]]
      else out + [tokens[n]]
  }

  method MergeAssocSubscriptTokens(tokens: seq<string>) returns (out: seq<string>)
    ensures out == Merged(tokens)
  {
    out := [];
    for i := 0 to |tokens|
      invariant out == Merged(tokens[..i])
    {
      assert tokens[..i + 1][..i] == tokens[..i];
      var unfinished := false;
      if out != [] {
        var depth, inSingle, inDouble := AssocTokenScanState(out[|out| - 1]);
        unfinished := depth > 0 || inSingle || inDouble;
      }
      if unfinished {
        out := out[|out| - 1 := out[|out| - 1] + " " + tokens[i]];
      } else {
        out := out + [tokens[i]];
      }
    }
    assert tokens[..|tokens|] == tokens;
  }

  // ----- Unquoter

  /** Internal marker characters stand for shell characters that must survive expansion. */
  function Marked(c: char): char {
    if c == '\U{1F}' then '$'
    else if c == '\U{1A}' then '`'
    else if c == '\U{17}' then '\''
    else if c == '\U{14}' then '\\'
    else c
  }

  function RestoreMarkers(s: string): string {
    if s == "" then "" else [Marked(s[0])] + RestoreMarkers(s[1..])
  }

  /** The unquoter restores markers by four replacements one after the other. */
  function ReplaceMarkers(s: string): string {
    ReplaceChar(ReplaceChar(ReplaceChar(ReplaceChar(s, '\U{1F}', "$"), '\U{1A}', "`"), '\U{17}', "'"), '\U{14}', "\\")
  }

  predicate DoubleEscapable(c: char) { c == '$' || c == '`' || c == '"' || c == '\\' || c == '\n' }

  function UnescapeDouble(s: string, escaped: bool): string {
    if s == "" then (if escaped then "\\" else "")
    else if escaped then (if DoubleEscapable(s[0]) then [s[0]] else ['\\', s[0]]) + UnescapeDouble(s[1..], false)
    else if s[0] == '\\' then UnescapeDouble(s[1..], true)
    else [s[0]] + UnescapeDouble(s[1..], false)
  }

  const SENTINEL := "\\\"\\"
  const EMPTY_QUOTES := "\"\""

  function Unquote(value: string): string {
    if value == SENTINEL then EMPTY_QUOTES
    else match Enclosed(value, '\'', '\'')
      case Some(inner) => ReplaceMarkers(inner)
      case None =>
        match Enclosed(value, '"', '"')
        case None => ReplaceMarkers(value)
        case Some(inner) =>
          var unquoted := UnescapeDouble(inner, false);
          if unquoted == SENTINEL then EMPTY_QUOTES else ReplaceMarkers(unquoted)
  }

  method UnescapeDoubleQuoted(inner: string) returns (unquoted: string)
    ensures unquoted == UnescapeDouble(inner, false)
  {
    unquoted := "";
    var escaped := false;
    assert inner[0..] == inner;
    for i := 0 to |inner|
      invariant unquoted + UnescapeDouble(inner[i..], escaped) == UnescapeDouble(inner, false)
    {
      var c := inner[i];
      assert inner[i..][1..] == inner[i + 1..];
      if escaped {
        if !DoubleEscapable(c) { unquoted := unquoted + "\\"; }
        unquoted, escaped := unquoted + [c], false;
      } else if c == '\\' {
        escaped := true;
      } else {
        unquoted := unquoted + [c];
      }
    }
    if escaped { unquoted := unquoted + "\\"; }
  }

  method UnquoteStorageValue(value: string) returns (r: string)
    ensures r == Unquote(value)
  {
    if value == SENTINEL { return EMPTY_QUOTES; }
    if |value| >= 2 && value[0] == '\'' && value[|value| - 1] == '\'' {
      return ReplaceMarkers(value[1..|value| - 1]);
    }
    if !(|value| >= 2 && value[0] == '"' && value[|value| - 1] == '"') {
      return ReplaceMarkers(value);
    }
    var inner := value[1..|value| - 1];
    var unquoted := UnescapeDoubleQuoted(inner);
    if unquoted == SENTINEL { return EMPTY_QUOTES; }
    return ReplaceMarkers(unquoted);
  }

  // ----- Reader

  function EntryOf(part: string): Option<Entry> {
    match AssignmentToken(part)
    case Some((key, value, _)) => Some((Unquote(key), Unquote(value)))
    case None =>
      match SplitOnce(part, '=')
      case None => None
      case Some((key, value)) => Some((Unquote(TrimEnd(TrimStart(key, '['), ']')), Unquote(value)))
  }

  function EntriesOf(parts: seq<string>): seq<Entry> {
    if parts == [] then []
    else (match EntryOf(parts[0]) case None => [] case Some(e) => [e]) + EntriesOf(parts[1..])
  }

  function AssocEntries(value: string): seq<Entry> {
    match Enclosed(value, '(', ')')
    case None => []
    case Some(inner) => EntriesOf(Merged(StorageWords(inner)))
  }

  /** The value of the last entry with this key. */
  function ValueAt(es: seq<Entry>, key: string): Option<string> {
    if es == [] then None
    else
      var last := es[|es| - 1];
      if last.0 == key then Some(last.1) else ValueAt(es[..|es| - 1], key)
  }

  function AssocValueAt(value: string, key: string): Option<string> { ValueAt(AssocEntries(value), key) }
}
