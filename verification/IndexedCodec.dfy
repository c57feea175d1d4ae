/** The text form of indexed arrays as `printf -v` writes and reads it. */
module IndexedCodec {
  import opened Text

  const PREFIX := '\U{1D}'

  // ----- Quoting

  predicate ForcesDollar(c: char) { c == '\n' || c == '\r' || c == '\'' }

  function DollarChain(v: string): string {
    ReplaceChar(ReplaceChar(ReplaceChar(ReplaceChar(v, '\\', "\\\\"), '\n', "\\n"), '\r', "\\r"), '\'', "\\'")
  }

  function DoubleChain(v: string): string {
    ReplaceChar(ReplaceChar(ReplaceChar(ReplaceChar(v, '\\', "\\\\"), '"', "\\\""), '$', "\\$"), '`', "\\`")
  }

  function QuoteValue(v: string): string {
    if exists c | c in v :: ForcesDollar(c) then "$'" + DollarChain(v) + "'" else "\"" + DoubleChain(v) + "\""
  }

  /** `str::replace` of a backslash and one letter by a character, left to right without overlap. */
  function ReplacePair(s: string, letter: char, c: char): string {
    if |s| < 2 then s
    else if s[0] == '\\' && s[1] == letter then [c] + ReplacePair(s[2..], letter, c)
    else [s[0]] + ReplacePair(s[1..], letter, c)
  }

  function UndoDollar(s: string): string {
    ReplacePair(ReplacePair(ReplacePair(ReplacePair(s, 'n', '\n'), 'r', '\r'), '\'', '\''), '\\', '\\')
  }

  /** Every backslash is dropped and the character after it kept as it is. */
  function UndoDouble(s: string): string {
    if s == "" then ""
    else if s[0] != '\\' then [s[0]] + UndoDouble(s[1..])
    else if |s| == 1 then ""
    else [s[1]] + UndoDouble(s[2..])
  }

  function UnquoteValue(text: string): string {
    if |text| >= 3 && text[..2] == "$'" && text[|text| - 1] == '\'' then UndoDollar(text[2..|text| - 1])
    else match Enclosed(text, '"', '"')
      case Some(inner) => UndoDouble(inner)
      case None => text
  }

  lemma UndoStep(s: string, i: nat)
    requires i < |s|
    ensures s[i] != '\\' ==> UndoDouble(s[i..]) == [s[i]] + UndoDouble(s[i + 1..])
    ensures s[i] == '\\' && i + 1 < |s| ==> UndoDouble(s[i..]) == [s[i + 1]] + UndoDouble(s[i + 2..])
    ensures s[i] == '\\' && i + 1 == |s| ==> UndoDouble(s[i..]) == ""
    ensures UndoDouble(s[|s|..]) == ""
  {
    assert s[i..][1..] == s[i + 1..];
    if i + 1 < |s| { assert s[i..][2..] == s[i + 2..]; }
  }

  method UnescapeDoubleQuotedStorage(value: string) returns (output: string)
    ensures output == UndoDouble(value)
  {
    hide UndoDouble;
    output := "";
    var i := 0;
    assert value[0..] == value;
    if value == "" { assert UndoDouble("") == "" by { NothingToUndo(); } }
    while i < |value|
      invariant i <= |value| && output + UndoDouble(value[i..]) == UndoDouble(value)
      invariant i == |value| ==> UndoDouble(value[i..]) == ""
      decreases |value| - i
    {
      UndoStep(value, i);
      if value[i] == '\\' {
        if i + 1 < |value| {
          output := output + [value[i + 1]];
          i := i + 1;
        }
      } else {
        output := output + [value[i]];
      }
      i := i + 1;
    }
  }

  lemma NothingToUndo()
    ensures UndoDouble("") == ""
  {
  }

  // ----- Words

  function Words(s: string, quote: Option<char>, current: string): seq<string>
    decreases |s|
  {
    if s == "" then Pending(current)
    else if quote.Some? then
      if s[0] == '\\' then
        if |s| == 1 then Words("", quote, current + s) else Words(s[2..], quote, current + s[..2])
      else Words(s[1..], if s[0] == quote.value then None else quote, current + [s[0]])
    else if s[0] == '"' || s[0] == '\'' then Words(s[1..], Some(s[0]), current + [s[0]])
    else if IsWhitespace(s[0]) then Pending(current) + Words(s[1..], None, "")
    else Words(s[1..], None, current + [s[0]])
  }

  method SplitStorageWords(value: string) returns (parts: seq<string>)
    ensures parts == Words(value, None, "")
  {
    hide IsWhitespace;
    parts := [];
    var current, quote: Option<char>, i := "", None, 0;
    assert value[0..] == value;
    while i < |value|
      invariant i <= |value| && parts + Words(value[i..], quote, current) == Words(value, None, "")
      decreases |value| - i
    {
      var ch := value[i];
      ghost var before := current;
      ghost var rest := value[i..];
      assert rest[0] == ch && rest[1..] == value[i + 1..];
      match quote {
      case Some(quoteCh) =>
        current := current + [ch];
        if ch == '\\' {
          if i + 1 < |value| {
            current := current + [value[i + 1]];
            assert rest[2..] == value[i + 2..] && before + rest[..2] == current;
            i := i + 1;
          } else {
            assert rest == [ch] && value[i + 1..] == "";
          }
        } else if ch == quoteCh {
          quote := None;
        }
      case None =>
        if ch == '"' || ch == '\'' {
          quote := Some(ch);
          current := current + [ch];
        } else if IsWhitespace(ch) {
          assert parts + (Pending(current) + Words(value[i + 1..], None, "")) ==
            parts + Pending(current) + Words(value[i + 1..], None, "");
          if current != "" {
            parts, current := parts + [current], "";
          }
        } else {
          current := current + [ch];
        }
      }
      i := i + 1;
    }
    if current != "" { parts := parts + [current]; }
  }

  // ----- Indices

  const USIZE_LIMIT: nat := 0x1_0000_0000_0000_0000

  function Digit(d: nat): char requires d < 10 { "0123456789"[d] }

  function Decimal(n: nat): string { if n < 10 then [Digit(n)] else Decimal(n / 10) + [Digit(n % 10)] }

  /** `str::parse::<usize>`: an optional plus sign and decimal digits, in range. */
  function ParseIndex(s: string): Option<nat> {
    var digits := if s != "" && s[0] == '+' then s[1..] else s;
    if digits == "" || exists c | c in digits :: !IsDigit(c) then None
    else
      var n := DigitsValue(digits);
      if 0 <= n < USIZE_LIMIT then Some(n) else None
  }

  // ----- Storage

  type Entry = (nat, string)

  function EntryText(e: Entry): string { "[" + Decimal(e.0) + "]=" + QuoteValue(e.1) }

  function EntryTexts(es: seq<Entry>): seq<string> { seq(|es|, i requires 0 <= i < |es| => EntryText(es[i])) }

  /** The entries of the map in the order the map yields them. */
  function FormatIndexed(es: seq<Entry>): string { [PREFIX] + "(" + Join(EntryTexts(es), " ") + ")" }

  function EntryOf(part: string): Option<Entry> {
    match SplitOnce(part, '=')
    case None => None
    case Some((key, value)) =>
      match ParseIndex(TrimEnd(TrimStart(key, '['), ']'))
      case None => None
      case Some(index) => Some((index, UnquoteValue(value)))
  }

  /** Entries collected into a map: a later entry replaces an earlier one of the same index. */
  function Collected(parts: seq<string>): map<nat, string> {
    if parts == [] then map[]
    else
      var n := |parts| - 1;
      match EntryOf(parts[n])
      case None => Collected(parts[..n])
      case Some(e) => Collected(parts[..n])[e.0 := e.1]
  }

  /** Text without the prefix numbers its words and drops any `name=` in front of a value. */
  function Numbered(parts: seq<string>): map<nat, string> {
    map i: nat | i < |parts| ::
      UnquoteValue(match SplitOnce(parts[i], '=') case Some((_, v)) => v case None => parts[i])
  }

  function IndexedEntries(value: string): map<nat, string> {
    if value != "" && value[0] == PREFIX then
      match Enclosed(value[1..], '(', ')')
      case None => map[]
      case Some(inner) => Collected(Words(inner, None, ""))
    else
      match Enclosed(value, '(', ')')
      case None => map[]
      case Some(inner) => Numbered(Words(inner, None, ""))
  }

  function MapOf(es: seq<Entry>): map<nat, string> {
    if es == [] then map[] else MapOf(es[..|es| - 1])[es[|es| - 1].0 := es[|es| - 1].1]
  }
}
