/** Strings as the repository's Rust code handles them: sequences of Unicode scalar values. */
module Text {

  datatype Option<+T> = None | Some(value: T)

  /** `char::is_ascii_whitespace`: space, tab, newline, form feed and carriage return. */
  predicate AsciiBlank(c: char) {
    c == ' ' || c == '\t' || c == '\n' || c == '\U{0C}' || c == '\r'
  }

  /** `char::is_whitespace`: the Unicode White_Space property. */
  predicate IsWhitespace(c: char) {
    var n := c as int;
    || 0x9 <= n <= 0xD || n == 0x20 || n == 0x85 || n == 0xA0 || n == 0x1680 || 0x2000 <= n <= 0x200A
    || n == 0x2028 || n == 0x2029 || n == 0x202F || n == 0x205F || n == 0x3000
  }

  predicate IsDigit(c: char) { '0' <= c <= '9' }

  /** The value of decimal digits. */
  function DigitsValue(s: string): int {
    if s == "" then 0 else 10 * DigitsValue(s[..|s| - 1]) + (s[|s| - 1] as int - '0' as int)
  }

  /** A collected word, unless nothing was collected. */
  function Pending(current: string): seq<string> { if current == "" then [] else [current] }

  /** The text between a leading `open` and a trailing `close`, when both are there. */
  function Enclosed(s: string, open: char, close: char): Option<string> {
    if |s| >= 2 && s[0] == open && s[|s| - 1] == close then Some(s[1..|s| - 1]) else None
  }

  function Join(parts: seq<string>, sep: string): string {
    if |parts| == 0 then ""
    else if |parts| == 1 then parts[0]
    else parts[0] + sep + Join(parts[1..], sep)
  }

  /** `str::split_once` on one character. */
  function SplitOnce(s: string, c: char): Option<(string, string)> {
    if s == "" then None
    else if s[0] == c then Some(("", s[1..]))
    else match SplitOnce(s[1..], c)
      case None => None
      case Some((left, right)) => Some(([s[0]] + left, right))
  }

  /** `str::split` at any of some characters: one more part than there are separators. */
  function SplitAt(value: string, separators: string): (parts: seq<string>)
    ensures parts != []
  {
    if value == "" then [""]
    else
      var parts := SplitAt(value[1..], separators);
      if value[0] in separators then [""] + parts else parts[0 := [value[0]] + parts[0]]
  }

  function TrimStart(s: string, c: char): string {
    if s != "" && s[0] == c then TrimStart(s[1..], c) else s
  }

  function TrimEnd(s: string, c: char): string {
    if s != "" && s[|s| - 1] == c then TrimEnd(s[..|s| - 1], c) else s
  }

  /** `str::replace` of one character with a text. */
  function ReplaceChar(s: string, c: char, text: string): string {
    if s == "" then "" else (if s[0] == c then text else [s[0]]) + ReplaceChar(s[1..], c, text)
  }

  /** The order of strings by their characters. */
  predicate Less(a: string, b: string) {
    b != "" && (a == "" || a[0] < b[0] || (a[0] == b[0] && Less(a[1..], b[1..])))
  }

  function Count(s: string, c: char): nat { if s == "" then 0 else (if s[0] == c then 1 else 0) + Count(s[1..], c) }

  lemma {:induction false} ReplaceAppend(a: string, b: string, c: char, text: string)
    ensures ReplaceChar(a + b, c, text) == ReplaceChar(a, c, text) + ReplaceChar(b, c, text)
  {
    if a == "" {
      assert a + b == b;
    } else {
      assert (a + b)[1..] == a[1..] + b;
      ReplaceAppend(a[1..], b, c, text);
    }
  }

  lemma {:induction false} CountAppend(a: string, b: string, c: char)
    ensures Count(a + b, c) == Count(a, c) + Count(b, c)
  {
    if a == "" {
      assert a + b == b;
    } else {
      assert (a + b)[1..] == a[1..] + b;
      CountAppend(a[1..], b, c);
    }
  }

  lemma {:induction false} SplitOnceAt(left: string, c: char, right: string)
    requires c !in left
    ensures SplitOnce(left + [c] + right, c) == Some((left, right))
  {
    if left == "" {
      assert left + [c] + right == [c] + right;
    } else {
      SplitOnceAt(left[1..], c, right);
      assert (left + [c] + right)[1..] == left[1..] + [c] + right;
      assert [left[0]] + left[1..] == left;
    }
  }

  lemma {:induction false} SplitAtFirst(left: string, c: char, right: string, separators: string)
    requires (forall x | x in left :: x !in separators) && c in separators
    ensures SplitAt(left, separators) == [left]
    ensures SplitAt(left + [c] + right, separators) == [left] + SplitAt(right, separators)
  {
    if left == "" {
      assert left + [c] + right == [c] + right && ([c] + right)[1..] == right;
    } else {
      assert left == [left[0]] + left[1..];
      SplitAtFirst(left[1..], c, right, separators);
      assert (left + [c] + right)[1..] == left[1..] + [c] + right;
    }
  }

  /** Parts without separators come back from their join by a separator. */
  lemma {:induction false} SplitAtJoin(parts: seq<string>, c: char, separators: string)
    requires parts != [] && (forall part | part in parts :: forall x | x in part :: x !in separators) && c in separators
    ensures SplitAt(Join(parts, [c]), separators) == parts
  {
    assert parts[0] in parts;
    SplitAtFirst(parts[0], c, "", separators);
    if |parts| == 1 {
      assert parts == [parts[0]];
    } else {
      assert forall part | part in parts[1..] :: part in parts;
      SplitAtJoin(parts[1..], c, separators);
      SplitAtFirst(parts[0], c, Join(parts[1..], [c]), separators);
      assert parts == [parts[0]] + parts[1..];
    }
  }
}
