/** Field splitting on texts: which characters separate, which belong together, and what comes out, in characters. */
module FieldText {
  import opened Text
  import opened FieldSplit

  predicate White(c: char) { c in {' ', '\t', '\n'} }

  /** A character of a field, with or without the marker that protects it. */
  datatype Unit = Free(c: char) | Protected(c: char)

  function UnitsText(units: seq<Unit>): string {
    if units == [] then ""
    else
      (match units[0] case Free(c) => [c] case Protected(c) => ['\U{1C}', c]) + UnitsText(units[1..])
  }

  function UnitsData(units: seq<Unit>): string { seq(|units|, i requires 0 <= i < |units| => units[i].c) }

  /** What ends a field: white space, with one other character in it or none. */
  datatype Separator = Space(blanks: string) | Around(before: string, c: char, after: string)

  function SeparatorText(s: Separator): string {
    match s
    case Space(blanks) => blanks
    case Around(before, c, after) => before + [c] + after
  }

  predicate Whites(s: string, ifs: string) { forall c | c in s :: White(c) && c in ifs }

  predicate Separates(s: Separator, ifs: string) {
    match s
    case Space(blanks) => blanks != "" && Whites(blanks, ifs)
    case Around(before, c, after) => Whites(before, ifs) && Whites(after, ifs) && c in ifs && !White(c)
  }

  predicate FieldUnits(units: seq<Unit>, ifs: string) {
    forall u | u in units && u.Free? :: u.c !in ifs && u.c != '\U{1C}'
  }

  datatype Laid = Laid(units: seq<Unit>, separator: Separator)

  /** White space alone ends only a field with characters, and stands before one. */
  predicate LaidWell(laid: seq<Laid>, last: seq<Unit>, ifs: string) {
    && FieldUnits(last, ifs)
    && (forall l | l in laid :: FieldUnits(l.units, ifs) && Separates(l.separator, ifs))
    && forall i | 0 <= i < |laid| && laid[i].separator.Space? ::
         laid[i].units != [] && (i + 1 < |laid| ==> laid[i + 1].units != [])
  }

  function LaidText(laid: seq<Laid>, last: seq<Unit>): string {
    if laid == [] then UnitsText(last)
    else UnitsText(laid[0].units) + SeparatorText(laid[0].separator) + LaidText(laid[1..], last)
  }

  /** Every laid field, and the last one unless it is empty. */
  function LaidFields(laid: seq<Laid>, last: seq<Unit>): seq<string> {
    seq(|laid|, i requires 0 <= i < |laid| => UnitsData(laid[i].units)) + if last == [] then [] else [UnitsData(last)]
  }

  // ----- The cells of such a text

  lemma {:induction false} CellsOfUnits(units: seq<Unit>, rest: string, ifs: string)
    requires FieldUnits(units, ifs) && '\U{1C}' !in ifs
    ensures Cells(UnitsText(units) + rest, ifs) == DataCells(UnitsData(units)) + Cells(rest, ifs)
  {
    hide Cells;
    if units == [] {
      assert UnitsText(units) + rest == rest;
      assert DataCells(UnitsData(units)) == [] && [] + Cells(rest, ifs) == Cells(rest, ifs);
    } else {
      hide DataCells, UnitsData;
      var u, more := units[0], UnitsText(units[1..]) + rest;
      assert u in units && forall v | v in units[1..] :: v in units;
      CellsOfUnits(units[1..], rest, ifs);
      UnitStep(u, more, ifs);
      DataStarts(units);
      assert UnitsText(units) + rest == (if u.Free? then [u.c] else ['\U{1C}', u.c]) + more;
      hide UnitsText;
      Regrouped([Data(u.c, false)], DataCells(UnitsData(units[1..])), Cells(rest, ifs));
    }
  }

  lemma Regrouped(a: seq<Cell>, b: seq<Cell>, c: seq<Cell>)
    ensures a + b + c == a + (b + c)
  {
  }

  lemma UnitStep(u: Unit, more: string, ifs: string)
    requires FieldUnits([u], ifs) && '\U{1C}' !in ifs
    ensures Cells((if u.Free? then [u.c] else ['\U{1C}', u.c]) + more, ifs) == [Data(u.c, false)] + Cells(more, ifs)
  {
    assert u in [u];
    var text := (if u.Free? then [u.c] else ['\U{1C}', u.c]) + more;
    assert text[0..] == text;
    CellsStep(text, ifs, 0);
    if u.Free? { assert text[1..] == more; } else { assert text[2..] == more; }
  }

  lemma DataStarts(units: seq<Unit>)
    requires units != []
    ensures DataCells(UnitsData(units)) == [Data(units[0].c, false)] + DataCells(UnitsData(units[1..]))
  {
    assert UnitsData(units) == [units[0].c] + UnitsData(units[1..]);
  }

  lemma {:induction false} CellsOfWhites(s: string, rest: string, ifs: string)
    requires Whites(s, ifs)
    ensures Cells(s + rest, ifs) == Blanks(|s|) + Cells(rest, ifs)
  {
    if s == "" {
      assert s + rest == rest && Blanks(0) + Cells(rest, ifs) == Cells(rest, ifs);
    } else {
      assert s[0] in s && White(s[0]) && forall c | c in s[1..] :: c in s;
      hide Cells;
      CellsOfWhites(s[1..], rest, ifs);
      var more := s[1..] + rest;
      assert s + rest == [s[0]] + more && ([s[0]] + more)[1..] == more && ([s[0]] + more)[0..] == [s[0]] + more;
      CellsStep([s[0]] + more, ifs, 0);
      assert Blanks(|s|) == [Blank] + Blanks(|s| - 1);
      Regrouped([Blank], Blanks(|s| - 1), Cells(rest, ifs));
    }
  }

  function PieceOf(l: Laid): Piece {
    match l.separator
    case Space(blanks) => Piece(UnitsData(l.units), |blanks|, false, 0)
    case Around(before, _, after) => Piece(UnitsData(l.units), |before|, true, |after|)
  }

  function PiecesOf(laid: seq<Laid>): seq<Piece> { seq(|laid|, i requires 0 <= i < |laid| => PieceOf(laid[i])) }

  lemma CellsOfLaid(l: Laid, rest: string, ifs: string)
    requires FieldUnits(l.units, ifs) && Separates(l.separator, ifs) && '\U{1C}' !in ifs
    ensures Cells(UnitsText(l.units) + SeparatorText(l.separator) + rest, ifs) ==
            PieceCells(PieceOf(l)) + Cells(rest, ifs)
  {
    hide Cells, DataCells, UnitsText;
    var text := UnitsText(l.units);
    match l.separator
    case Space(blanks) =>
      assert text + blanks + rest == text + (blanks + rest);
      CellsOfUnits(l.units, blanks + rest, ifs);
      CellsOfWhites(blanks, rest, ifs);
    case Around(before, c, after) =>
      var tail := [c] + (after + rest);
      assert text + (before + [c] + after) + rest == text + (before + tail);
      CellsOfUnits(l.units, before + tail, ifs);
      CellsOfWhites(before, tail, ifs);
      CellsOfWhites(after, rest, ifs);
      assert tail[0..] == tail && tail[1..] == after + rest;
      CellsStep(tail, ifs, 0);
  }

  lemma {:induction false} CellsOfText(laid: seq<Laid>, last: seq<Unit>, ifs: string)
    requires LaidWell(laid, last, ifs) && '\U{1C}' !in ifs
    ensures Cells(LaidText(laid, last), ifs) == Layout(PiecesOf(laid), UnitsData(last))
  {
    if laid == [] {
      assert UnitsText(last) + "" == UnitsText(last);
      CellsOfUnits(last, "", ifs);
      assert Cells("", ifs) == [] && DataCells(UnitsData(last)) + [] == DataCells(UnitsData(last));
    } else {
      assert laid[0] in laid && forall l | l in laid[1..] :: l in laid;
      assert forall i | 0 <= i < |laid[1..]| :: laid[1..][i] == laid[i + 1];
      assert PiecesOf(laid) == [PieceOf(laid[0])] + PiecesOf(laid[1..]);
      hide Cells, PieceCells, UnitsText, SeparatorText, PieceOf, FieldUnits, Separates;
      CellsOfText(laid[1..], last, ifs);
      CellsOfLaid(laid[0], LaidText(laid[1..], last), ifs);
      LayoutStep(PieceOf(laid[0]), PiecesOf(laid[1..]), UnitsData(last));
    }
  }

  lemma LaidWellIs(laid: seq<Laid>, last: seq<Unit>, ifs: string)
    requires LaidWell(laid, last, ifs)
    ensures WellLaid(PiecesOf(laid)) && Fields(PiecesOf(laid), UnitsData(last)) == LaidFields(laid, last)
  {
    forall i | 0 <= i < |laid| ensures UnitsData(laid[i].units) == "" <==> laid[i].units == [] {
      assert |UnitsData(laid[i].units)| == |laid[i].units|;
    }
    assert forall i | 0 <= i < |laid| :: laid[i] in laid && Separates(laid[i].separator, ifs);
    assert |UnitsData(last)| == |last|;
  }

  // ----- Splitting

  /** Fields laid out with their separators, with white space before them, are split into the fields, for every IFS that
      does not hold the marker. Without white space in IFS nothing is protected, and the empty text is left as it is. */
  lemma TextSplits(lead: string, laid: seq<Laid>, last: seq<Unit>, ifs: string)
    requires ifs != "" && '\U{1C}' !in ifs && Whites(lead, ifs) && LaidWell(laid, last, ifs)
    requires (exists c | c in ifs :: White(c)) || ('\U{1C}' !in LaidText(laid, last) && LaidText(laid, last) != "")
    ensures FieldSplitValues(lead + LaidText(laid, last), Some(ifs)) == LaidFields(laid, last)
  {
    var text := LaidText(laid, last);
    LaidWellIs(laid, last, ifs);
    CellsOfText(laid, last, ifs);
    CellsOfWhites(lead, text, ifs);
    SplitInvertsLayout(|lead|, PiecesOf(laid), UnitsData(last));
    ChoiceOfSplitter(lead + text, ifs);
    hide Cells, MixedFields, FieldSplitValues;
    assert lead != "" ==> lead[0] in lead && White(lead[0]) && lead[0] in ifs;
    if NoBlank(ifs) {
      assert lead + text == text;
    }
  }

  /** Words with white space between them, before them and after them, under the IFS that the shell starts with and
      without any IFS. */
  lemma {:induction false} DefaultSplits(lead: string, words: seq<string>, gaps: seq<string>)
    requires |gaps| == |words| && forall c | c in lead :: White(c)
    requires forall w | w in words :: w != "" && forall c | c in w :: !White(c) && c != '\U{1C}'
    requires forall g | g in gaps :: forall c | c in g :: White(c)
    requires forall i | 0 <= i < |gaps| - 1 :: gaps[i] != ""
    ensures FieldSplitValues(lead + Gapped(words, gaps), Some(" \t\n")) == words
    ensures FieldSplitValues(lead + Gapped(words, gaps), None) == words
  {
    var ifs := " \t\n";
    assert forall c: char :: White(c) <==> c in ifs;
    assert DEFAULT_IFS == ifs;
    assert ' ' in ifs;
    if words == [] {
      TextSplits(lead, [], [], ifs);
      assert UnitsText([]) == "" && LaidFields([], []) == [];
    } else {
      var laid, last := LaidWords(words, gaps);
      TextSplits(lead, laid, last, ifs);
    }
    BlankIfsAgree(lead + Gapped(words, gaps), ifs);
  }

  function Gapped(words: seq<string>, gaps: seq<string>): string
    requires |gaps| == |words|
  {
    if words == [] then "" else words[0] + gaps[0] + Gapped(words[1..], gaps[1..])
  }

  function Frees(s: string): seq<Unit> { seq(|s|, i requires 0 <= i < |s| => Free(s[i])) }

  lemma {:induction false} FreesAre(s: string)
    ensures UnitsText(Frees(s)) == s && UnitsData(Frees(s)) == s
  {
    if s != "" {
      FreesAre(s[1..]);
      assert Frees(s)[1..] == Frees(s[1..]) && s == [s[0]] + s[1..];
    }
  }

  /** The same text as fields and separators: the last word is the last field when nothing follows it. */
  lemma {:induction false} LaidWords(words: seq<string>, gaps: seq<string>) returns (laid: seq<Laid>, last: seq<Unit>)
    requires |gaps| == |words| && words != []
    requires forall w | w in words :: w != "" && forall c | c in w :: !White(c) && c != '\U{1C}'
    requires forall g | g in gaps :: forall c | c in g :: White(c)
    requires forall i | 0 <= i < |gaps| - 1 :: gaps[i] != ""
    ensures LaidWell(laid, last, " \t\n") && LaidText(laid, last) == Gapped(words, gaps)
    ensures LaidFields(laid, last) == words
    ensures laid != [] ==> laid[0].units != []
  {
    var w, g := words[0], gaps[0];
    assert w in words && g in gaps;
    FreesAre(w);
    WordUnits(w);
    if |words| == 1 {
      OneGapped(words, gaps);
      if g == "" {
        laid, last := [], Frees(w);
        assert w + g == w;
      } else {
        laid, last := [Laid(Frees(w), Space(g))], [];
        hide FieldUnits;
        LaidEnd(laid[0]);
      }
    } else {
      assert forall x | x in words[1..] :: x in words;
      assert forall x | x in gaps[1..] :: x in gaps;
      forall i | 0 <= i < |gaps[1..]| - 1 ensures gaps[1..][i] != "" { assert gaps[1..][i] == gaps[i + 1]; }
      var more, end := LaidWords(words[1..], gaps[1..]);
      laid, last := [Laid(Frees(w), Space(g))] + more, end;
      hide FieldUnits, Gapped, UnitsText, LaidFields;
      LaidMore(laid[0], more, end, " \t\n");
      GappedStep(words, gaps);
      LaidFieldsStep(laid[0], more, end);
    }
  }

  lemma WordUnits(w: string)
    requires w != "" && forall c | c in w :: !White(c) && c != '\U{1C}'
    ensures FieldUnits(Frees(w), " \t\n") && Frees(w) != []
  {
    forall u | u in Frees(w) ensures u.c !in " \t\n" && u.c != '\U{1C}' { assert u.c in w; }
  }

  lemma OneGapped(words: seq<string>, gaps: seq<string>)
    requires |words| == 1 && |gaps| == 1
    ensures Gapped(words, gaps) == words[0] + gaps[0]
  {
    assert Gapped(words[1..], gaps[1..]) == "";
  }

  lemma GappedStep(words: seq<string>, gaps: seq<string>)
    requires |words| == |gaps| && words != []
    ensures Gapped(words, gaps) == words[0] + gaps[0] + Gapped(words[1..], gaps[1..])
  {
  }

  lemma LaidEnd(l: Laid)
    requires l.separator.Space?
    ensures LaidText([l], []) == UnitsText(l.units) + l.separator.blanks
    ensures LaidFields([l], []) == [UnitsData(l.units)]
  {
    assert [l][1..] == [] && UnitsText([]) == "" && LaidText([], []) == "";
  }

  lemma LaidMore(l: Laid, more: seq<Laid>, last: seq<Unit>, ifs: string)
    requires LaidWell(more, last, ifs) && FieldUnits(l.units, ifs) && Separates(l.separator, ifs)
    requires l.separator.Space? ==> l.units != [] && (more != [] ==> more[0].units != [])
    ensures LaidWell([l] + more, last, ifs)
    ensures LaidText([l] + more, last) == UnitsText(l.units) + SeparatorText(l.separator) + LaidText(more, last)
  {
    hide FieldUnits, Separates, UnitsText, SeparatorText;
    var laid := [l] + more;
    assert laid[1..] == more;
    forall i | 0 <= i < |laid| && laid[i].separator.Space?
      ensures laid[i].units != [] && (i + 1 < |laid| ==> laid[i + 1].units != [])
    {
      if i > 0 { assert laid[i] == more[i - 1] && (i + 1 < |laid| ==> laid[i + 1] == more[i]); }
    }
  }

  lemma LaidFieldsStep(l: Laid, more: seq<Laid>, last: seq<Unit>)
    ensures LaidFields([l] + more, last) == [UnitsData(l.units)] + LaidFields(more, last)
  {
    hide UnitsData;
    var laid := [l] + more;
    assert forall i | 0 < i < |laid| :: laid[i] == more[i - 1];
  }

  /** The empty IFS splits nothing. */
  lemma EmptyIfs(value: string)
    ensures FieldSplitValues(value, Some("")) == [value]
  {
  }

  /** Without white space in IFS every separator ends a field, empty ones included, but for an empty last one; markers
      stay in the fields. */
  lemma PlainPath(parts: seq<string>, c: char, ifs: string)
    requires c in ifs && (forall x | x in ifs :: !White(x)) && parts != []
    requires forall part | part in parts :: forall x | x in part :: x !in ifs
    ensures FieldSplitValues(Join(parts, [c]), Some(ifs)) ==
            if |parts| > 1 && parts[|parts| - 1] == "" then parts[..|parts| - 1] else parts
  {
    SplitAtJoin(parts, c, ifs);
    assert NoBlank(ifs) && !AllBlank(ifs) by { assert !White(c); }
  }

  /** A marker at the very end protects nothing and goes away. */
  lemma LastMarker(word: string)
    requires word != "" && forall c | c in word :: !White(c) && c != '\U{1C}'
    ensures FieldSplitValues(word + ['\U{1C}'], Some(" \t\n")) == [word]
    ensures FieldSplitValues(word + ['\U{1C}'], None) == [word]
  {
    TrailingMarker(word, " \t\n");
    DefaultSplits("", [word], [""]);
    OneGapped([word], [""]);
    assert "" + (word + "") == word;
    BlankIfsAgree(word, " \t\n");
    assert AllBlank(" \t\n") && DEFAULT_IFS == " \t\n";
  }
}
