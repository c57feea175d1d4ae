/** How `set` lists the value of a variable, and how the shell reads the listing. */
module ShellQuote {
  import opened Text

  // ----- Quoting

  /** `char::is_control`. */
  predicate IsControl(c: char) { c < ' ' || '\U{7F}' <= c <= '\U{9F}' }

  predicate ShouldDollarQuote(v: string) { exists c | c in v :: IsControl(c) }

  function OctalDigit(d: nat): char requires d < 8 { "01234567"[d] }

  function Octal3(n: nat): string requires n < 512 { [OctalDigit(n / 64), OctalDigit(n / 8 % 8), OctalDigit(n % 8)] }

  function AnsiChar(c: char): string {
    match c
    case '\U{1B}' => "\\E"
    case '\U{7}' => "\\a"
    case '\U{B}' => "\\v"
    case '\U{8}' => "\\b"
    case '\U{C}' => "\\f"
    case '\n' => "\\n"
    case '\r' => "\\r"
    case '\t' => "\\t"
    case '\\' => "\\\\"
    case _ => if IsControl(c) then "\\" + Octal3(c as nat) else [c]
  }

  function AnsiBody(v: string): string { if v == "" then "" else AnsiChar(v[0]) + AnsiBody(v[1..]) }

  method AnsiQuoteValue(v: string) returns (out: string)
    ensures out == "$'" + AnsiBody(v) + "'"
  {
    hide AnsiBody, AnsiChar;
    out := "$'";
    assert v[0..] == v && AnsiBody(v[|v|..]) == "" by { NoAnsiBody(v); }
    for i := 0 to |v|
      invariant out + AnsiBody(v[i..]) == "$'" + AnsiBody(v)
    {
      AnsiBodyStep(v, i);
      assert out + (AnsiChar(v[i]) + AnsiBody(v[i + 1..])) == out + AnsiChar(v[i]) + AnsiBody(v[i + 1..]);
      out := out + AnsiChar(v[i]);
    }
    out := out + "'";
  }

  lemma NoAnsiBody(v: string)
    ensures AnsiBody(v[|v|..]) == ""
  {
  }

  lemma AnsiBodyStep(v: string, i: nat)
    requires i < |v|
    ensures AnsiBody(v[i..]) == AnsiChar(v[i]) + AnsiBody(v[i + 1..])
  {
    hide AnsiChar;
    assert v[i..][1..] == v[i + 1..];
  }

  predicate AlwaysMeta(c: char) {
    c in {' ', '\t', '\n', '\'', '"', '\\', '|', '&', ';', '(', ')', '<', '>', '!', '{', '}', '*', '[', '?', ']', '^',
      '$', '`'}
  }

  predicate MetaAt(v: string, i: nat)
    requires i < |v|
  {
    AlwaysMeta(v[i]) || (v[i] == '~' && (i == 0 || v[i - 1] == '=' || v[i - 1] == ':')) || (v[i] == '#' && i == 0)
  }

  predicate HasMeta(v: string) { exists i: nat :: i < |v| && MetaAt(v, i) }

  method ContainsShellMetas(v: string) returns (found: bool)
    ensures found == HasMeta(v)
  {
    for i := 0 to |v|
      invariant forall j: nat :: j < i ==> !MetaAt(v, j)
    {
      assert MetaAt(v, i) ==> HasMeta(v);
      if AlwaysMeta(v[i]) { return true; }
      if v[i] == '~' {
        if i == 0 || v[i - 1] == '=' || v[i - 1] == ':' { return true; }
      } else if v[i] == '#' {
        if i == 0 { return true; }
      }
    }
    return false;
  }

  function Quoted(v: string): string {
    if ShouldDollarQuote(v) then "$'" + AnsiBody(v) + "'"
    else if !HasMeta(v) then v
    else if v == "'" then "\\'"
    else "'" + ReplaceChar(v, '\'', "'\\''") + "'"
  }

  method ShellQuoteValue(v: string) returns (text: string)
    ensures text == Quoted(v)
  {
    if ShouldDollarQuote(v) {
      text := AnsiQuoteValue(v);
      return;
    }
    var metas := ContainsShellMetas(v);
    if !metas { return v; }
    if v == "'" { return "\\'"; }
    return "'" + ReplaceChar(v, '\'', "'\\''") + "'";
  }

  // ----- Reading: POSIX XCU sections 2.2.1 to 2.2.3 and the dollar-single-quotes of Bash

  datatype Mode = Bare | Single | Double | Ansi

  function Prefixed(s: string, r: Option<string>): Option<string> {
    match r
    case None => None
    case Some(t) => Some(s + t)
  }

  /** Outside quotes these start an operator, an expansion or a pattern, or end the word. */
  predicate Active(c: char) { c in {'|', '&', ';', '<', '>', '(', ')', '$', '`', ' ', '\t', '\n', '*', '?', '['} }

  predicate IsOctal(c: char) { '0' <= c <= '7' }

  function OctalRun(t: string, limit: nat): (n: nat)
    ensures n <= limit && n <= |t| && forall i | 0 <= i < n :: IsOctal(t[i])
  {
    if limit == 0 || t == "" || !IsOctal(t[0]) then 0 else 1 + OctalRun(t[1..], limit - 1)
  }

  function OctalValue(t: string): int {
    if t == "" then 0 else 8 * OctalValue(t[..|t| - 1]) + (t[|t| - 1] as int - '0' as int)
  }

  /** A backslash escape of one letter in `$'...'`. */
  function Letter(c: char): Option<char> {
    match c
    case 'a' => Some('\U{7}')
    case 'b' => Some('\U{8}')
    case 'e' => Some('\U{1B}')
    case 'E' => Some('\U{1B}')
    case 'f' => Some('\U{C}')
    case 'n' => Some('\n')
    case 'r' => Some('\r')
    case 't' => Some('\t')
    case 'v' => Some('\U{B}')
    case '\\' => Some('\\')
    case '\'' => Some('\'')
    case '"' => Some('"')
    case '?' => Some('?')
    case _ => None
  }

  /** The one word that a text reads as after quote removal, or None when it is not a single word free of expansions.
      `start` holds at the start of the word, `tilde` where an unquoted tilde would be expanded. The hexadecimal,
      Unicode and control escapes of `$'...'` are not read, and neither is an octal escape of a byte above 0x7F, which
      by itself is no character. */
  function Read(t: string, mode: Mode, start: bool, tilde: bool): Option<string>
    decreases |t|
  {
    if t == "" then (if mode == Bare then Some("") else None)
    else
      var c, rest := t[0], t[1..];
      match mode
      case Bare =>
        if c == '\\' then
          if rest == "" then None
          else if rest[0] == '\n' then Read(rest[1..], Bare, start, tilde)
          else Prefixed([rest[0]], Read(rest[1..], Bare, false, false))
        else if c == '\'' then Read(rest, Single, false, false)
        else if c == '"' then Read(rest, Double, false, false)
        else if c == '$' && rest != "" && rest[0] == '\'' then Read(rest[1..], Ansi, false, false)
        else if Active(c) || (c == '#' && start) || (c == '~' && tilde) then None
        else Prefixed([c], Read(rest, Bare, false, c == '=' || c == ':'))
      case Single =>
        if c == '\'' then Read(rest, Bare, false, false) else Prefixed([c], Read(rest, Single, false, false))
      case Double =>
        if c == '"' then Read(rest, Bare, false, false)
        else if c == '\\' then
          if rest == "" then None
          else if rest[0] == '\n' then Read(rest[1..], Double, false, false)
          else
            Prefixed(if rest[0] in {'$', '`', '"', '\\'} then [rest[0]] else [c, rest[0]],
                     Read(rest[1..], Double, false, false))
        else if c == '$' || c == '`' then None
        else Prefixed([c], Read(rest, Double, false, false))
      case Ansi =>
        if c == '\'' then Read(rest, Bare, false, false)
        else if c != '\\' then Prefixed([c], Read(rest, Ansi, false, false))
        else if rest == "" then None
        else if IsOctal(rest[0]) then
          var n := OctalRun(rest, 3);
          var byte := OctalValue(rest[..n]) % 256;
          if byte >= 128 then None else Prefixed([byte as char], Read(rest[n..], Ansi, false, false))
        else if rest[0] in {'x', 'u', 'U', 'c'} then None
        else Prefixed(match Letter(rest[0]) case Some(l) => [l] case None => [c, rest[0]],
          Read(rest[1..], Ansi, false, false))
  }

  function Reread(t: string): Option<string> { Read(t, Bare, true, true) }

  // ----- Bare values

  lemma {:induction false} BareReads(v: string, i: nat)
    requires i <= |v| && !HasMeta(v)
    ensures Read(v[i..], Bare, i == 0, i == 0 || v[i - 1] == '=' || v[i - 1] == ':') == Some(v[i..])
    decreases |v| - i
  {
    if i < |v| {
      assert !MetaAt(v, i);
      assert v[i..][0] == v[i] && v[i..][1..] == v[i + 1..];
      BareReads(v, i + 1);
      assert [v[i]] + v[i + 1..] == v[i..];
    }
  }

  // ----- Single quotes

  lemma SingleStep(c: char, rest: string)
    ensures c != '\'' ==> Read([c] + rest, Single, false, false) == Prefixed([c], Read(rest, Single, false, false))
    ensures c == '\'' ==> Read([c] + rest, Single, false, false) == Read(rest, Bare, false, false)
  {
    assert ([c] + rest)[1..] == rest;
  }

  lemma BareStep(c: char, rest: string, start: bool, tilde: bool)
    ensures c == '\'' ==> Read([c] + rest, Bare, start, tilde) == Read(rest, Single, false, false)
    ensures c != '\n' ==> Read(['\\', c] + rest, Bare, start, tilde) == Prefixed([c], Read(rest, Bare, false, false))
    ensures Read("$'" + rest, Bare, start, tilde) == Read(rest, Ansi, false, false)
  {
    assert ([c] + rest)[1..] == rest;
    assert (['\\', c] + rest)[1..] == [c] + rest;
    assert ("$'" + rest)[1..] == "'" + rest && ("'" + rest)[1..] == rest;
  }

  lemma {:induction false} SingleReads(v: string)
    ensures Read(ReplaceChar(v, '\'', "'\\''") + "'", Single, false, false) == Some(v)
  {
    hide Read;
    if v == "" {
      assert "" + "'" == ['\''] + "";
      SingleStep('\'', "");
      assert Read("", Bare, false, false) == Some("") by { EmptyReads(); }
    } else {
      var tail := ReplaceChar(v[1..], '\'', "'\\''") + "'";
      SingleReads(v[1..]);
      assert v == [v[0]] + v[1..];
      if v[0] == '\'' {
        assert ReplaceChar(v, '\'', "'\\''") + "'" == ['\''] + (['\\', '\''] + (['\''] + tail));
        SingleStep('\'', ['\\', '\''] + (['\''] + tail));
        BareStep('\'', ['\''] + tail, false, false);
        BareStep('\'', tail, false, false);
      } else {
        assert ReplaceChar(v, '\'', "'\\''") + "'" == [v[0]] + tail;
        SingleStep(v[0], tail);
      }
    }
  }

  lemma EmptyReads()
    ensures Read("", Bare, false, false) == Some("")
  {
  }

  // ----- Dollar quotes

  lemma AnsiStep(c: char, rest: string)
    ensures c != '\'' && c != '\\' ==>
              Read([c] + rest, Ansi, false, false) == Prefixed([c], Read(rest, Ansi, false, false))
    ensures c == '\'' ==> Read([c] + rest, Ansi, false, false) == Read(rest, Bare, false, false)
  {
    assert ([c] + rest)[1..] == rest;
  }

  lemma AnsiLetterStep(c: char, rest: string)
    requires Letter(c).Some?
    ensures Read(['\\', c] + rest, Ansi, false, false) == Prefixed([Letter(c).value], Read(rest, Ansi, false, false))
  {
    assert !IsOctal(c) && c !in {'x', 'u', 'U', 'c'};
    hide Letter, OctalRun, OctalValue, Prefixed, IsOctal;
    assert (['\\', c] + rest)[1..] == [c] + rest && ([c] + rest)[1..] == rest;
  }

  lemma OctalValueOf(a: nat, b: nat, c: nat)
    requires a < 8 && b < 8 && c < 8
    ensures OctalValue([OctalDigit(a), OctalDigit(b), OctalDigit(c)]) == 64 * a + 8 * b + c
  {
    var s := [OctalDigit(a), OctalDigit(b), OctalDigit(c)];
    assert s[..2] == [OctalDigit(a), OctalDigit(b)] && s[..2][..1] == [OctalDigit(a)] && s[..2][..1][..0] == "";
    assert OctalValue(s[..2][..1]) == a;
    assert OctalValue(s[..2]) == 8 * a + b;
  }

  lemma ThreeDigits(d: string, rest: string)
    requires |d| == 3 && IsOctal(d[0]) && IsOctal(d[1]) && IsOctal(d[2])
    ensures OctalRun(d + rest, 3) == 3 && (d + rest)[..3] == d && (d + rest)[3..] == rest
  {
    var t := d + rest;
    assert t[1..][1..] == [d[2]] + rest && t[1..] == [d[1], d[2]] + rest;
    assert OctalRun(t[1..][1..], 1) == 1;
    assert OctalRun(t[1..], 2) == 2;
  }

  lemma AnsiEscapeStep(d: string, rest: string)
    requires |d| == 3 && IsOctal(d[0]) && IsOctal(d[1]) && IsOctal(d[2])
    ensures var byte := OctalValue(d) % 256;
            Read("\\" + d + rest, Ansi, false, false) ==
            if byte >= 128 then None else Prefixed([byte as char], Read(rest, Ansi, false, false))
  {
    hide OctalRun, OctalValue;
    var t := "\\" + d + rest;
    assert t[1..] == d + rest;
    ThreeDigits(d, rest);
  }

  lemma AnsiOctalStep(n: nat, rest: string)
    requires n < 256
    ensures Read("\\" + Octal3(n) + rest, Ansi, false, false) ==
            if n >= 128 then None else Prefixed([n as char], Read(rest, Ansi, false, false))
  {
    hide Read, OctalValue, Octal3;
    OctalTextOf(n);
    AnsiEscapeStep(Octal3(n), rest);
  }

  /** No control character beyond ASCII; the printer writes one as a single byte, which is not its encoding. */
  predicate NoC1(v: string) { forall c | c in v :: !('\U{80}' <= c <= '\U{9F}') }

  lemma {:induction false} AnsiReads(v: string)
    requires NoC1(v) && '\'' !in v
    ensures Read(AnsiBody(v) + "'", Ansi, false, false) == Some(v)
  {
    hide Read, Letter;
    if v == "" {
      assert AnsiBody(v) + "'" == ['\''] + "";
      AnsiStep('\'', "");
      EmptyReads();
    } else {
      var c, tail := v[0], AnsiBody(v[1..]) + "'";
      assert c in v && v == [c] + v[1..];
      assert forall x | x in v[1..] :: x in v;
      AnsiReads(v[1..]);
      assert AnsiBody(v) + "'" == AnsiChar(c) + tail;
      AnsiCharReads(c, tail);
    }
  }

  lemma {:induction false} AnsiRefuses(v: string)
    requires !NoC1(v) && '\'' !in v
    ensures Read(AnsiBody(v) + "'", Ansi, false, false) == None
  {
    var c, tail := v[0], AnsiBody(v[1..]) + "'";
    assert c in v && v == [c] + v[1..];
    assert forall x | x in v[1..] :: x in v;
    hide Read, Letter;
    assert AnsiBody(v) + "'" == AnsiChar(c) + tail;
    AnsiCharReads(c, tail);
    if !('\U{80}' <= c <= '\U{9F}') {
      assert !NoC1(v[1..]);
      AnsiRefuses(v[1..]);
    }
  }

  lemma AnsiCharReads(c: char, tail: string)
    requires c != '\''
    ensures Read(AnsiChar(c) + tail, Ansi, false, false) ==
            if '\U{80}' <= c <= '\U{9F}' then None else Prefixed([c], Read(tail, Ansi, false, false))
  {
    AnsiImage(c);
    hide AnsiChar, Read, Letter, IsControl, Prefixed, Octal3;
    var image := AnsiChar(c);
    if |image| == 2 {
      AnsiLetterStep(image[1], tail);
    } else if IsControl(c) {
      AnsiOctalStep(c as nat, tail);
    } else {
      AnsiStep(c, tail);
    }
  }

  lemma AnsiImage(c: char)
    ensures var image := AnsiChar(c);
            if |image| == 2 then image == ['\\', image[1]] && Letter(image[1]) == Some(c) && c < '\U{80}'
            else if IsControl(c) then
              (c as nat) < 256 && image == "\\" + Octal3(c as nat) && (c as nat >= 128 <==> '\U{80}' <= c <= '\U{9F}')
            else image == [c] && c != '\\' && !('\U{80}' <= c <= '\U{9F}')
  {
    hide OctalDigit;
  }

  // ----- A quote inside dollar quotes ends them

  predicate IsQuote(c: char) { c == '\'' || c == '"' }

  function Quotes(s: string): nat { if s == "" then 0 else (if IsQuote(s[0]) then 1 else 0) + Quotes(s[1..]) }

  /** Backslashes come in pairs with a character that is no quote and does not stand for one. */
  predicate Aligned(t: string)
    decreases |t|
  {
    t != "" ==> if t[0] == '\\' then |t| >= 2 && Harmless(t[1..]) && Aligned(t[2..]) else Aligned(t[1..])
  }

  predicate Harmless(t: string)
    requires t != ""
  {
    !IsQuote(t[0]) && (IsOctal(t[0]) ==> OctalRun(t, 3) == 3 && !IsQuote((OctalValue(t[..3]) % 256) as char))
  }

  lemma QuotesCons(c: char, s: string)
    ensures Quotes([c] + s) == (if IsQuote(c) then 1 else 0) + Quotes(s)
  {
    assert ([c] + s)[1..] == s;
  }

  lemma {:induction false} QuotesAppend(a: string, b: string)
    ensures Quotes(a + b) == Quotes(a) + Quotes(b)
  {
    if a == "" {
      assert a + b == b;
    } else {
      assert (a + b)[1..] == a[1..] + b;
      QuotesAppend(a[1..], b);
    }
  }

  lemma {:induction false} BodyAligned(v: string)
    ensures Aligned(AnsiBody(v) + "'") && Quotes(AnsiBody(v)) == Quotes(v)
  {
    if v == "" {
      assert "'"[1..] == "";
    } else {
      assert AnsiBody(v) == AnsiChar(v[0]) + AnsiBody(v[1..]);
      hide AnsiChar, AnsiBody, Aligned, Quotes;
      BodyAligned(v[1..]);
      var image, body := AnsiChar(v[0]), AnsiBody(v[1..]);
      var tail := body + "'";
      assert AnsiBody(v) + "'" == image + tail;
      QuotesAppend(image, body);
      assert v == [v[0]] + v[1..];
      QuotesCons(v[0], v[1..]);
      ImageAligned(v[0], tail);
    }
  }

  lemma AlignedCons(c: char, tail: string)
    requires Aligned(tail)
    ensures c != '\\' ==> Aligned([c] + tail)
    ensures Harmless([c] + tail) ==> Aligned(['\\', c] + tail)
  {
    assert ([c] + tail)[1..] == tail && (['\\', c] + tail)[2..] == tail && (['\\', c] + tail)[1..] == [c] + tail;
  }

  lemma ImageAligned(c: char, tail: string)
    requires Aligned(tail)
    ensures Aligned(AnsiChar(c) + tail) && Quotes(AnsiChar(c)) == if IsQuote(c) then 1 else 0
  {
    hide Aligned, OctalRun, OctalValue, Quotes;
    var image := AnsiChar(c);
    NoQuotes();
    if |image| == 1 {
      AlignedCons(c, tail);
      QuotesCons(c, "");
      assert [c] + "" == [c];
    } else if |image| == 2 {
      var x := image[1];
      AlignedCons(x, tail);
      assert image == ['\\', x] && image == ['\\'] + ([x] + "");
      QuotesCons(x, "");
      QuotesCons('\\', [x] + "");
    } else {
      OctalAligned(c, tail);
    }
  }

  lemma NoQuotes()
    ensures Quotes("") == 0
  {
  }

  lemma OctalTextOf(n: nat)
    requires n < 512
    ensures var d := Octal3(n); |d| == 3 && IsOctal(d[0]) && IsOctal(d[1]) && IsOctal(d[2]) && OctalValue(d) == n
  {
    OctalParts(n);
    hide OctalValue, OctalDigit;
    OctalValueOf(n / 64, n / 8 % 8, n % 8);
    OctalDigits(n / 64);
    OctalDigits(n / 8 % 8);
    OctalDigits(n % 8);
  }

  lemma OctalParts(n: nat)
    requires n < 512
    ensures n / 64 < 8 && 64 * (n / 64) + 8 * (n / 8 % 8) + n % 8 == n
  {
    assert n / 8 / 8 == n / 64;
  }

  lemma OctalDigits(d: nat)
    requires d < 8
    ensures IsOctal(OctalDigit(d))
  {
  }

  lemma EscapeAligned(d: string, tail: string)
    requires Aligned(tail) && |d| == 3 && IsOctal(d[0]) && IsOctal(d[1]) && IsOctal(d[2])
    requires !IsQuote((OctalValue(d) % 256) as char)
    ensures Aligned("\\" + d + tail) && Quotes("\\" + d) == 0
  {
    hide Aligned, OctalRun, OctalValue, Quotes;
    var image := "\\" + d;
    NoQuotes();
    ThreeDigits(d, tail);
    var rest := [d[1]] + ([d[2]] + tail);
    assert image + tail == ['\\', d[0]] + rest && [d[0]] + rest == d + tail;
    AlignedCons(d[2], tail);
    AlignedCons(d[1], [d[2]] + tail);
    AlignedCons(d[0], rest);
    assert image == ['\\'] + ([d[0]] + ([d[1]] + ([d[2]] + "")));
    QuotesCons(d[2], "");
    QuotesCons(d[1], [d[2]] + "");
    QuotesCons(d[0], [d[1]] + ([d[2]] + ""));
    QuotesCons('\\', [d[0]] + ([d[1]] + ([d[2]] + "")));
  }

  lemma OctalAligned(c: char, tail: string)
    requires Aligned(tail) && IsControl(c)
    ensures var image := "\\" + Octal3(c as nat); Aligned(image + tail) && Quotes(image) == 0
  {
    hide Aligned, Quotes, OctalValue, Octal3;
    OctalTextOf(c as nat);
    EscapeAligned(Octal3(c as nat), tail);
  }

  lemma {:induction false} AlignedTail(t: string, n: nat)
    requires Aligned(t) && n <= |t| && forall i | 0 <= i < n :: IsOctal(t[i])
    ensures Aligned(t[n..]) && Quotes(t[n..]) == Quotes(t)
  {
    if n == 0 {
      assert t[0..] == t;
    } else {
      assert IsOctal(t[0]);
      AlignedTail(t[1..], n - 1);
      assert t[1..][n - 1..] == t[n..];
    }
  }

  predicate EndsQuoted(t: string) { t != "" && t[|t| - 1] == '\'' }

  /** How many of the quotes of a text that ends in a quote a reading uses up at least. */
  function Spent(t: string, mode: Mode): nat
    requires t != ""
  {
    if mode == Bare then 2 else if mode == Ansi && '\'' in t[..|t| - 1] then 3 else 1
  }

  predicate Spends(t: string, mode: Mode, r: Option<string>)
    requires t != ""
  {
    r.Some? ==> Quotes(r.value) + Spent(t, mode) <= Quotes(t)
  }

  /** Reading `a` as `s` and then the rest. */
  lemma SpendsMore(a: string, s: string, rest: string, mode: Mode, next: Mode, r: Option<string>)
    requires a != "" && rest != "" && Spends(rest, next, r)
    requires Quotes(s) + Spent(a + rest, mode) <= Quotes(a) + Spent(rest, next)
    ensures Spends(a + rest, mode, Prefixed(s, r))
  {
    hide Quotes, Spent;
    QuotesAppend(a, rest);
    if r.Some? { QuotesAppend(s, r.value); }
  }

  lemma NoPrefix(r: Option<string>)
    ensures Prefixed("", r) == r
  {
    if r.Some? { assert "" + r.value == r.value; }
  }

  lemma SpentAfter(a: string, rest: string)
    requires rest != "" && '\'' !in a
    ensures Spent(a + rest, Ansi) == Spent(rest, Ansi)
  {
    var t := a + rest;
    assert t[..|t| - 1] == a + rest[..|rest| - 1];
  }

  lemma QuotesOfTwo(a: char, b: char)
    ensures Quotes([a]) == (if IsQuote(a) then 1 else 0)
    ensures Quotes([a, b]) == (if IsQuote(a) then 1 else 0) + (if IsQuote(b) then 1 else 0)
    ensures Quotes("") == 0
  {
    assert [a, b][1..] == [b] && [b][1..] == "" && [a][1..] == "";
  }

  /** A reading of a text that ends in a quote never yields as many quotes as the text has. */
  lemma {:induction false} ReadSpends(t: string, mode: Mode, start: bool, tilde: bool)
    requires Aligned(t) && EndsQuoted(t)
    ensures Spends(t, mode, Read(t, mode, start, tilde))
    decreases |t|, 2
  {
    match mode
    case Bare => BareSpends(t, start, tilde);
    case Single => SingleSpends(t, start, tilde);
    case Double => DoubleSpends(t, start, tilde);
    case Ansi => AnsiSpends(t, start, tilde);
  }

  /** A quote that is read successfully is closed, so something is left to read. */
  lemma NotAtEnd(t: string, mode: Mode)
    requires mode != Bare && Read(t, mode, false, false).Some?
    ensures t != ""
  {
  }

  lemma Halves(t: string)
    ensures |t| >= 1 ==> t == [t[0]] + t[1..]
    ensures |t| >= 2 ==> t == [t[0], t[1]] + t[2..] && t[1..][1..] == t[2..]
  {
  }

  lemma {:induction false} BareSpends(t: string, start: bool, tilde: bool)
    requires Aligned(t) && EndsQuoted(t)
    ensures Spends(t, Bare, Read(t, Bare, start, tilde))
    decreases |t|, 1
  {
    hide Quotes, OctalRun, OctalValue;
    Halves(t);
    var c, rest := t[0], t[1..];
    if Read(t, Bare, start, tilde).Some? {
      if c == '\\' {
        var joined := rest[0] == '\n';
        var r := Read(rest[1..], Bare, if joined then start else false, if joined then tilde else false);
        ReadSpends(rest[1..], Bare, if rest[0] == '\n' then start else false, if rest[0] == '\n' then tilde else false);
        QuotesOfTwo(c, rest[0]);
        QuotesOfTwo(rest[0], c);
        NoPrefix(r);
        SpendsMore([c, rest[0]], if rest[0] == '\n' then "" else [rest[0]], rest[1..], Bare, Bare, r);
      } else if c == '\'' || c == '"' {
        var next := if c == '\'' then Single else Double;
        NotAtEnd(rest, next);
        ReadSpends(rest, next, false, false);
        QuotesOfTwo(c, c);
        NoPrefix(Read(rest, next, false, false));
        SpendsMore([c], "", rest, Bare, next, Read(rest, next, false, false));
      } else if c == '$' {
        NotAtEnd(rest[1..], Ansi);
        ReadSpends(rest[1..], Ansi, false, false);
        QuotesOfTwo(c, rest[0]);
        NoPrefix(Read(rest[1..], Ansi, false, false));
        SpendsMore([c, rest[0]], "", rest[1..], Bare, Ansi, Read(rest[1..], Ansi, false, false));
      } else {
        ReadSpends(rest, Bare, false, c == '=' || c == ':');
        QuotesOfTwo(c, c);
        SpendsMore([c], [c], rest, Bare, Bare, Read(rest, Bare, false, c == '=' || c == ':'));
      }
    }
  }

  lemma {:induction false} SingleSpends(t: string, start: bool, tilde: bool)
    requires Aligned(t) && EndsQuoted(t)
    ensures Spends(t, Single, Read(t, Single, start, tilde))
    decreases |t|, 1
  {
    hide Quotes, OctalRun, OctalValue;
    Halves(t);
    var c, rest := t[0], t[1..];
    QuotesOfTwo(c, c);
    if Read(t, Single, start, tilde).Some? {
      if c == '\'' {
        ClosingSpends(t, Single, start, tilde);
      } else if c == '\\' {
        var r := Read(rest[1..], Single, false, false);
        ReadSpends(rest[1..], Single, false, false);
        QuotesOfTwo(c, rest[0]);
        SpendsMore([c, rest[0]], [c, rest[0]], rest[1..], Single, Single, r);
        assert Read(rest, Single, false, false) == Prefixed([rest[0]], r);
        PrefixedTwice(c, rest[0], r);
      } else {
        NotAtEnd(rest, Single);
        ReadSpends(rest, Single, false, false);
        SpendsMore([c], [c], rest, Single, Single, Read(rest, Single, false, false));
      }
    }
  }

  lemma PrefixedTwice(a: char, b: char, r: Option<string>)
    ensures Prefixed([a], Prefixed([b], r)) == Prefixed([a, b], r)
  {
    if r.Some? { assert [a] + ([b] + r.value) == [a, b] + r.value; }
  }

  lemma {:induction false} DoubleSpends(t: string, start: bool, tilde: bool)
    requires Aligned(t) && EndsQuoted(t)
    ensures Spends(t, Double, Read(t, Double, start, tilde))
    decreases |t|, 1
  {
    hide Quotes, OctalRun, OctalValue;
    Halves(t);
    var c, rest := t[0], t[1..];
    QuotesOfTwo(c, c);
    if Read(t, Double, start, tilde).Some? {
      if c == '"' {
        ReadSpends(rest, Bare, false, false);
        NoPrefix(Read(rest, Bare, false, false));
        SpendsMore([c], "", rest, Double, Bare, Read(rest, Bare, false, false));
      } else if c == '\\' {
        var r := Read(rest[1..], Double, false, false);
        ReadSpends(rest[1..], Double, false, false);
        QuotesOfTwo(c, rest[0]);
        QuotesOfTwo(rest[0], c);
        NoPrefix(r);
        var s := if rest[0] == '\n' then "" else if rest[0] in {'$', '`', '"', '\\'} then [rest[0]] else [c, rest[0]];
        SpendsMore([c, rest[0]], s, rest[1..], Double, Double, r);
      } else {
        NotAtEnd(rest, Double);
        ReadSpends(rest, Double, false, false);
        SpendsMore([c], [c], rest, Double, Double, Read(rest, Double, false, false));
      }
    }
  }

  /** A closing single quote is spent itself, and two more if anything follows. */
  lemma {:induction false} ClosingSpends(t: string, mode: Mode, start: bool, tilde: bool)
    requires Aligned(t) && EndsQuoted(t) && t[0] == '\'' && (mode == Single || mode == Ansi)
    ensures Spends(t, mode, Read(t, mode, start, tilde))
    decreases |t|, 0
  {
    hide Quotes;
    Halves(t);
    var c, rest := t[0], t[1..];
    QuotesOfTwo(c, c);
    if rest == "" {
      assert t == [c] && t[..|t| - 1] == "";
      EmptyReads();
    } else {
      ReadSpends(rest, Bare, false, false);
      NoPrefix(Read(rest, Bare, false, false));
      SpendsMore([c], "", rest, mode, Bare, Read(rest, Bare, false, false));
    }
  }

  lemma {:induction false} AnsiSpends(t: string, start: bool, tilde: bool)
    requires Aligned(t) && EndsQuoted(t)
    ensures Spends(t, Ansi, Read(t, Ansi, start, tilde))
    decreases |t|, 1
  {
    hide Quotes, OctalRun, OctalValue, Spent;
    Halves(t);
    var c, rest := t[0], t[1..];
    QuotesOfTwo(c, c);
    if Read(t, Ansi, start, tilde).Some? {
      if c == '\'' {
        ClosingSpends(t, Ansi, start, tilde);
      } else if c != '\\' {
        NotAtEnd(rest, Ansi);
        ReadSpends(rest, Ansi, false, false);
        SpentAfter([c], rest);
        SpendsMore([c], [c], rest, Ansi, Ansi, Read(rest, Ansi, false, false));
      } else if IsOctal(rest[0]) {
        OctalSpends(t, start, tilde);
      } else {
        var r := Read(rest[1..], Ansi, false, false);
        ReadSpends(rest[1..], Ansi, false, false);
        QuotesOfTwo(c, rest[0]);
        SpentAfter([c, rest[0]], rest[1..]);
        var s := match Letter(rest[0]) case Some(l) => [l] case None => [c, rest[0]];
        LetterQuotes(rest[0]);
        SpendsMore([c, rest[0]], s, rest[1..], Ansi, Ansi, r);
      }
    }
  }

  lemma LetterQuotes(c: char)
    ensures !IsQuote(c) && Letter(c).Some? ==> Quotes([Letter(c).value]) == 0
  {
    if Letter(c).Some? { QuotesOfTwo(Letter(c).value, c); }
  }

  lemma {:induction false} OctalSpends(t: string, start: bool, tilde: bool)
    requires Aligned(t) && EndsQuoted(t) && |t| >= 2 && t[0] == '\\' && IsOctal(t[1])
    ensures Spends(t, Ansi, Read(t, Ansi, start, tilde))
    decreases |t|, 0
  {
    hide Quotes, OctalValue, Spent;
    var rest := t[1..];
    var n := OctalRun(rest, 3);
    assert n == 3;
    var tail := rest[3..];
    var a := t[..4];
    assert t == a + tail && t[2..] == rest[1..] && t[2..][2..] == tail;
    assert forall i | 0 <= i < 2 :: t[2..][i] == rest[i + 1];
    AlignedTail(t[2..], 2);
    assert EndsQuoted(tail) by { assert t[|t| - 1] == '\'' && !IsOctal('\''); }
    ReadSpends(tail, Ansi, false, false);
    var c := (OctalValue(rest[..3]) % 256) as char;
    QuotesOfTwo(c, c);
    assert '\'' !in a by { assert a == [t[0], rest[0], rest[1], rest[2]]; }
    SpentAfter(a, tail);
    SpendsMore(a, [c], tail, Ansi, Ansi, Read(tail, Ansi, false, false));
  }

  // ----- The listing

  lemma {:induction false} QuoteInBody(v: string)
    requires '\'' in v
    ensures '\'' in AnsiBody(v)
  {
    if v[0] != '\'' { QuoteInBody(v[1..]); }
  }

  /** A listed value reads as itself exactly when it holds no control character, or else neither a single quote nor a
      control character beyond ASCII. */
  lemma {:induction false} ListingReadsBack(v: string)
    ensures Reread(Quoted(v)) == Some(v) <==> (ShouldDollarQuote(v) ==> '\'' !in v && NoC1(v))
  {
    if ShouldDollarQuote(v) {
      DollarListing(v);
    } else if !HasMeta(v) {
      BareReads(v, 0);
      assert v[0..] == v;
    } else if v == "'" {
      BareStep('\'', "", true, true);
      EmptyReads();
      assert ['\\', '\''] + "" == "\\'" && "'" + "" == "'";
    } else {
      var body := ReplaceChar(v, '\'', "'\\''");
      assert "'" + body + "'" == ['\''] + (body + "'");
      BareStep('\'', body + "'", true, true);
      SingleReads(v);
    }
  }

  lemma {:induction false} DollarListing(v: string)
    ensures Reread("$'" + AnsiBody(v) + "'") == Some(v) <==> '\'' !in v && NoC1(v)
  {
    hide Read, Aligned, Quotes, AnsiBody;
    var t := AnsiBody(v) + "'";
    assert "$'" + AnsiBody(v) + "'" == "$'" + t;
    BareStep('x', t, true, true);
    if '\'' in v {
      QuoteInBody(v);
      BodyAligned(v);
      ReadSpends(t, Ansi, false, false);
      assert t[..|t| - 1] == AnsiBody(v);
      QuotesAppend(AnsiBody(v), "'");
      QuotesOfTwo('\'', 'x');
      assert "'" == ['\''];
    } else if NoC1(v) {
      AnsiReads(v);
    } else {
      AnsiRefuses(v);
    }
  }

  // ----- The form of a listed value, in characters

  predicate ControlIn(v: string) {
    exists i: nat :: i < |v| && (v[i] as int < 0x20 || 0x7F <= v[i] as int <= 0x9F)
  }

  predicate SpecialAt(v: string, i: nat)
    requires i < |v|
  {
    || v[i] in {' ', '\t', '\n', '\'', '"', '\\', '|', '&', ';', '(', ')', '<', '>', '!', '{', '}', '*', '[', '?', ']'}
    || v[i] in {'^', '$', '`'}
    || (v[i] == '~' && (i == 0 || v[i - 1] == '=' || v[i - 1] == ':'))
    || (v[i] == '#' && i == 0)
  }

  predicate SpecialIn(v: string) { exists i: nat :: i < |v| && SpecialAt(v, i) }

  lemma {:induction false} QuotesReplaced(parts: seq<string>)
    requires parts != [] && forall p | p in parts :: '\'' !in p
    ensures ReplaceChar(Join(parts, "'"), '\'', "'\\''") == Join(parts, "'\\''")
  {
    assert parts[0] in parts && forall p | p in parts[1..] :: p in parts;
    NothingReplaced(parts[0]);
    if |parts| > 1 {
      var rest := Join(parts[1..], "'");
      QuotesReplaced(parts[1..]);
      ReplaceAppend(parts[0] + "'", rest, '\'', "'\\''");
      ReplaceAppend(parts[0], "'", '\'', "'\\''");
      assert "'"[1..] == "" && ReplaceChar("'", '\'', "'\\''") == "'\\''";
      assert Join(parts, "'") == parts[0] + "'" + rest;
    }
  }

  lemma {:induction false} NothingReplaced(s: string)
    requires '\'' !in s
    ensures ReplaceChar(s, '\'', "'\\''") == s
  {
    if s != "" {
      NothingReplaced(s[1..]);
      assert s == [s[0]] + s[1..];
    }
  }

  /** A control character asks for dollar quotes; otherwise a value without special characters stands bare, a lone quote
      has a backslash, and any other value is in single quotes, where a quote closes, escapes itself and opens again. */
  lemma QuotedForms(parts: seq<string>)
    requires parts != [] && forall p | p in parts :: '\'' !in p
    ensures var v := Join(parts, "'");
            && (ControlIn(v) ==> Quoted(v) == "$'" + AnsiBody(v) + "'")
            && (!ControlIn(v) && !SpecialIn(v) ==> Quoted(v) == v)
            && (!ControlIn(v) && v == "'" ==> Quoted(v) == "\\'")
            && (!ControlIn(v) && SpecialIn(v) && v != "'" ==> Quoted(v) == "'" + Join(parts, "'\\''") + "'")
  {
    var v := Join(parts, "'");
    QuotesReplaced(parts);
    ControlsAre(v);
    SpecialsAre(v);
    hide AnsiBody, ReplaceChar, Join, ShouldDollarQuote, ControlIn, HasMeta;
    if v == "'" { assert SpecialIn(v) by { assert SpecialAt(v, 0); } }
  }

  lemma ControlsAre(v: string)
    ensures ShouldDollarQuote(v) <==> ControlIn(v)
  {
    if ShouldDollarQuote(v) {
      var c :| c in v && IsControl(c);
      var i: nat :| i < |v| && v[i] == c;
    }
    if ControlIn(v) {
      var i: nat :| i < |v| && (v[i] as int < 0x20 || 0x7F <= v[i] as int <= 0x9F);
      assert v[i] in v && IsControl(v[i]);
    }
  }

  lemma SpecialsAre(v: string)
    ensures HasMeta(v) <==> SpecialIn(v)
  {
    forall i: nat | i < |v| ensures MetaAt(v, i) <==> SpecialAt(v, i) {
    }
  }

  /** In dollar quotes the usual control characters have a letter, other ones three octal digits, and all other
      characters but the backslash stand for themselves. */
  lemma DollarForms(c: char)
    ensures AnsiBody("") == ""
    ensures forall v: string :: AnsiBody([c] + v) == AnsiChar(c) + AnsiBody(v)
    ensures AnsiChar('\U{1B}') == "\\E" && AnsiChar('\U{7}') == "\\a" && AnsiChar('\U{B}') == "\\v"
    ensures AnsiChar('\U{8}') == "\\b" && AnsiChar('\U{C}') == "\\f" && AnsiChar('\n') == "\\n"
    ensures AnsiChar('\r') == "\\r" && AnsiChar('\t') == "\\t" && AnsiChar('\\') == "\\\\"
    ensures 0x20 <= c as int < 0x7F && c != '\\' ==> AnsiChar(c) == [c]
    ensures c as int > 0x9F ==> AnsiChar(c) == [c]
    ensures var n := c as int;
            (n < 0x20 || 0x7F <= n <= 0x9F)
            && c !in {'\U{1B}', '\U{7}', '\U{B}', '\U{8}', '\U{C}', '\n', '\r', '\t'} ==>
              AnsiChar(c) == ['\\', "01234567"[n / 64], "01234567"[n / 8 % 8], "01234567"[n % 8]]
  {
    BodyForms(c);
    LetterForms();
    PlainForms(c);
    hide *;
  }

  lemma BodyForms(c: char)
    ensures AnsiBody("") == ""
    ensures forall v: string :: AnsiBody([c] + v) == AnsiChar(c) + AnsiBody(v)
  {
    forall v: string ensures AnsiBody([c] + v) == AnsiChar(c) + AnsiBody(v) {
      hide AnsiChar;
      assert ([c] + v)[1..] == v;
    }
  }

  lemma LetterForms()
    ensures AnsiChar('\U{1B}') == "\\E" && AnsiChar('\U{7}') == "\\a" && AnsiChar('\U{B}') == "\\v"
    ensures AnsiChar('\U{8}') == "\\b" && AnsiChar('\U{C}') == "\\f" && AnsiChar('\n') == "\\n"
    ensures AnsiChar('\r') == "\\r" && AnsiChar('\t') == "\\t" && AnsiChar('\\') == "\\\\"
  {
  }

  lemma PlainForms(c: char)
    ensures 0x20 <= c as int < 0x7F && c != '\\' ==> AnsiChar(c) == [c]
    ensures c as int > 0x9F ==> AnsiChar(c) == [c]
    ensures var n := c as int;
            (n < 0x20 || 0x7F <= n <= 0x9F)
            && c !in {'\U{1B}', '\U{7}', '\U{B}', '\U{8}', '\U{C}', '\n', '\r', '\t'} ==>
              AnsiChar(c) == ['\\', "01234567"[n / 64], "01234567"[n / 8 % 8], "01234567"[n % 8]]
  {
  }

  // ----- What the reader refuses

  /** Unquoted characters that the shell acts on are not read. */
  lemma {:induction false} ReaderRefuses(front: string, i: nat, c: char, rest: string)
    requires !HasMeta(front) && i <= |front|
    requires c in {'|', '&', ';', '<', '>', '(', ')', '`', ' ', '\t', '\n', '*', '?', '['}
    ensures Read(front[i..] + [c] + rest, Bare, i == 0, i == 0 || front[i - 1] == '=' || front[i - 1] == ':') == None
    decreases |front| - i
  {
    var t := front[i..] + [c] + rest;
    if i == |front| {
      assert t == [c] + rest;
    } else {
      assert !MetaAt(front, i);
      assert t[0] == front[i] && t[1..] == front[i + 1..] + [c] + rest;
      ReaderRefuses(front, i + 1, c, rest);
    }
  }
}
