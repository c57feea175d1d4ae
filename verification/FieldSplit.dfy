/** Field splitting of expanded values by IFS: the three splitter loops of `executor/arrays.rs` against
    the rules of POSIX XCU section 2.6.5. */
module FieldSplit {
  import opened Text

  const MARK := '\U{1C}'  // protects the next character from splitting
  const DEFAULT_IFS := " \t\n"

  predicate IfsBlank(c: char) { c == ' ' || c == '\t' || c == '\n' }

  /** A character of the value as the splitters see it. Marked data is `glued` when the marker is itself an IFS
      character: blanks before it then do not end the field. */
  datatype Cell = Data(c: char, glued: bool) | Blank | Delimiter

  function CellOf(c: char, ifs: string): Cell {
    if c !in ifs then Data(c, false) else if IfsBlank(c) then Blank else Delimiter
  }

  function Cells(value: string, ifs: string): seq<Cell>
    decreases |value|
  {
    if value == "" then []
    else if value[0] != MARK then [CellOf(value[0], ifs)] + Cells(value[1..], ifs)
    else if |value| == 1 then []
    else [Data(value[1], MARK in ifs)] + Cells(value[2..], ifs)
  }

  predicate GlueFree(cells: seq<Cell>) { forall cell | cell in cells :: cell.Data? ==> !cell.glued }

  predicate Resumes(cell: Cell) { cell.Delimiter? || (cell.Data? && cell.glued) }

  // ----- The splitters

  function BlankFields(cells: seq<Cell>, current: string): seq<string>
    decreases |cells|
  {
    if cells == [] then Pending(current)
    else if cells[0].Data? then BlankFields(cells[1..], current + [cells[0].c])
    else Pending(current) + BlankFields(cells[1..], "")
  }

  function SkipBlanks(cells: seq<Cell>): (rest: seq<Cell>)
    ensures |rest| <= |cells|
    ensures rest == [] || !rest[0].Blank?
    ensures cells != [] && cells[0].Blank? ==> |rest| < |cells|
  {
    if cells != [] && cells[0].Blank? then SkipBlanks(cells[1..]) else cells
  }

  function MixedFields(cells: seq<Cell>, current: string): seq<string>
    decreases |cells|
  {
    if cells == [] then Pending(current)
    else
      match cells[0]
      case Data(c, _) => MixedFields(cells[1..], current + [c])
      case Delimiter => [current] + MixedFields(SkipBlanks(cells[1..]), "")
      case Blank =>
        var rest := SkipBlanks(cells);
        if rest != [] && Resumes(rest[0]) then MixedFields(rest, current)
        else Pending(current) + MixedFields(rest, "")
  }

  method SplitIfsWhitespace(value: string, ifs: string) returns (fields: seq<string>)
    ensures fields == BlankFields(Cells(value, ifs), "")
  {
    fields := [];
    var current, i := "", 0;
    assert value[0..] == value;
    while i < |value|
      invariant i <= |value|
      invariant fields + BlankFields(Cells(value[i..], ifs), current) == BlankFields(Cells(value, ifs), "")
    {
      var ch := value[i];
      assert value[i..][1..] == value[i + 1..];
      i := i + 1;
      if ch == MARK {
        if i < |value| {
          assert value[i - 1..][2..] == value[i + 1..];
          current := current + [value[i]];
          i := i + 1;
        }
        continue;
      }
      if ch in ifs {
        if current != "" {
          fields, current := fields + [current], "";
        }
      } else {
        current := current + [ch];
      }
    }
    if current != "" { fields := fields + [current]; }
  }

  lemma CellsStep(value: string, ifs: string, i: nat)
    requires i <= |value|
    ensures i == |value| ==> Cells(value[i..], ifs) == []
    ensures i < |value| && value[i] != MARK ==>
              Cells(value[i..], ifs) == [CellOf(value[i], ifs)] + Cells(value[i + 1..], ifs)
    ensures i + 1 < |value| && value[i] == MARK ==>
              Cells(value[i..], ifs) == [Data(value[i + 1], MARK in ifs)] + Cells(value[i + 2..], ifs)
    ensures i + 1 == |value| && value[i] == MARK ==> Cells(value[i..], ifs) == []
  {
    if i < |value| { assert value[i..][1..] == value[i + 1..]; }
    if i + 1 < |value| { assert value[i..][2..] == value[i + 2..]; }
  }

  method SkipIfsBlanks(value: string, ifs: string, start: nat) returns (i: nat)
    requires start <= |value|
    ensures start <= i <= |value| && Cells(value[i..], ifs) == SkipBlanks(Cells(value[start..], ifs))
    ensures i < |value| ==> !(value[i] in ifs && IfsBlank(value[i]))
    ensures start < |value| && value[start] in ifs && IfsBlank(value[start]) ==> start < i
  {
    hide Cells;
    i := start;
    while i < |value| && value[i] in ifs && IfsBlank(value[i])
      invariant start <= i <= |value|
      invariant SkipBlanks(Cells(value[i..], ifs)) == SkipBlanks(Cells(value[start..], ifs))
      invariant i == start ==> Cells(value[i..], ifs) == Cells(value[start..], ifs)
    {
      CellsStep(value, ifs, i);
      i := i + 1;
    }
    CellsStep(value, ifs, i);
  }

  method SplitMixedIfs(value: string, ifs: string) returns (fields: seq<string>)
    ensures fields == MixedFields(Cells(value, ifs), "")
  {
    hide Cells, SkipBlanks;
    fields := [];
    var current, index := "", 0;
    assert value[0..] == value;
    CellsStep(value, ifs, |value|);
    while index < |value|
      invariant index <= |value|
      invariant fields + MixedFields(Cells(value[index..], ifs), current) == MixedFields(Cells(value, ifs), "")
      decreases |value| - index
    {
      var ch := value[index];
      CellsStep(value, ifs, index);
      if ch == MARK {
        index := index + 1;
        if index < |value| {
          current := current + [value[index]];
          index := index + 1;
        }
        continue;
      }
      if ch !in ifs {
        current := current + [ch];
        index := index + 1;
        continue;
      }
      if IfsBlank(ch) {
        ghost var cells := Cells(value[index..], ifs);
        index := SkipIfsBlanks(value, ifs, index);
        CellsStep(value, ifs, index);
        ghost var rest := SkipBlanks(cells);
        assert rest == Cells(value[index..], ifs) && cells[0] == Blank;
        assert fields + (Pending(current) + MixedFields(rest, "")) == fields + Pending(current) + MixedFields(rest, "");
        if index < |value| && !IfsBlank(value[index]) && value[index] in ifs {
          continue;
        }
        if current != "" {
          fields, current := fields + [current], "";
        }
        continue;
      }
      ghost var cells := Cells(value[index..], ifs);
      assert cells[1..] == Cells(value[index + 1..], ifs);
      fields, current := fields + [current], "";
      index := SkipIfsBlanks(value, ifs, index + 1);
    }
    if current != "" { fields := fields + [current]; }
  }

  function PlainFields(value: string, ifs: string): seq<string> {
    var parts := SplitAt(value, ifs);
    if parts[|parts| - 1] == "" && |parts| > 1 then parts[..|parts| - 1] else parts
  }

  predicate AllBlank(ifs: string) { forall c | c in ifs :: IfsBlank(c) }

  predicate NoBlank(ifs: string) { forall c | c in ifs :: !IfsBlank(c) }

  function FieldSplitValues(value: string, ifs: Option<string>): seq<string> {
    match ifs
    case None => BlankFields(Cells(value, DEFAULT_IFS), "")
    case Some(ifs) =>
      if ifs == "" then [value]
      else if AllBlank(ifs) then BlankFields(Cells(value, ifs), "")
      else if !NoBlank(ifs) then MixedFields(Cells(value, ifs), "")
      else PlainFields(value, ifs)
  }

  method FieldSplitValuesWithIfs(value: string, ifs: Option<string>) returns (fields: seq<string>)
    ensures fields == FieldSplitValues(value, ifs)
  {
    if ifs.None? {
      fields := SplitIfsWhitespace(value, DEFAULT_IFS);
    } else if ifs.value == "" {
      fields := [value];
    } else if ifs.value == DEFAULT_IFS {
      fields := SplitIfsWhitespace(value, ifs.value);
    } else if AllBlank(ifs.value) {
      fields := SplitIfsWhitespace(value, ifs.value);
    } else if !NoBlank(ifs.value) {
      fields := SplitMixedIfs(value, ifs.value);
    } else {
      fields := PlainFields(value, ifs.value);
    }
  }

  // ----- Reference: fields and the separators between them

  /** A field and the separator that ends it: blanks, at most one delimiter, blanks. */
  datatype Piece = Piece(field: string, before: nat, delimited: bool, after: nat)

  function DataCells(s: string): seq<Cell> { seq(|s|, i requires 0 <= i < |s| => Data(s[i], false)) }

  function Blanks(n: nat): seq<Cell> { seq(n, _ => Blank) }

  function PieceCells(p: Piece): seq<Cell> {
    DataCells(p.field) + Blanks(p.before) + if p.delimited then [Delimiter] + Blanks(p.after) else []
  }

  function Layout(pieces: seq<Piece>, last: string): seq<Cell> {
    if pieces == [] then DataCells(last) else PieceCells(pieces[0]) + Layout(pieces[1..], last)
  }

  /** Blanks alone end only a field with text, and are not followed by a delimiter. */
  predicate WellLaid(pieces: seq<Piece>) {
    forall i | 0 <= i < |pieces| :: pieces[i].delimited ||
      (pieces[i].before > 0 && pieces[i].after == 0 && pieces[i].field != "" &&
        (i + 1 < |pieces| ==> pieces[i + 1].field != ""))
  }

  function Fields(pieces: seq<Piece>, last: string): seq<string> {
    seq(|pieces|, i requires 0 <= i < |pieces| => pieces[i].field) + Pending(last)
  }

  lemma {:induction false} SkipAll(n: nat, rest: seq<Cell>)
    ensures SkipBlanks(Blanks(n) + rest) == SkipBlanks(rest)
  {
    if n == 0 {
      assert Blanks(0) + rest == rest;
    } else {
      assert (Blanks(n) + rest)[1..] == Blanks(n - 1) + rest;
      SkipAll(n - 1, rest);
    }
  }

  lemma {:induction false} TakeData(s: string, rest: seq<Cell>, current: string)
    ensures MixedFields(DataCells(s) + rest, current) == MixedFields(rest, current + s)
    decreases |s|
  {
    if s == "" {
      assert DataCells(s) + rest == rest && current + s == current;
    } else {
      assert (DataCells(s) + rest)[1..] == DataCells(s[1..]) + rest;
      TakeData(s[1..], rest, current + [s[0]]);
      assert current + [s[0]] + s[1..] == current + s;
    }
  }

  /** Splitting ignores blanks before a delimiter and ends the field at other blanks. */
  lemma {:induction false} TakeBlanks(n: nat, rest: seq<Cell>, current: string)
    requires n > 0 && (rest == [] || !rest[0].Blank?)
    ensures MixedFields(Blanks(n) + rest, current) ==
            if rest != [] && Resumes(rest[0]) then MixedFields(rest, current)
            else Pending(current) + MixedFields(rest, "")
  {
    SkipAll(n, rest);
    assert (Blanks(n) + rest)[0] == Blank;
  }

  /** Splitting is not affected by leading blanks. */
  lemma {:induction false} LeadingIgnored(n: nat, rest: seq<Cell>)
    ensures MixedFields(Blanks(n) + rest, "") == MixedFields(rest, "")
  {
    if n == 0 {
      assert Blanks(0) + rest == rest;
    } else if rest == [] || !rest[0].Blank? {
      TakeBlanks(n, rest, "");
    } else {
      SkipAll(n, rest);
      assert (Blanks(n) + rest)[0] == Blank;
    }
  }

  lemma {:induction false} PieceSplits(p: Piece, rest: seq<Cell>)
    requires p.delimited || (p.before > 0 && p.field != "" && (rest != [] ==> rest[0].Data? && !rest[0].glued))
    ensures MixedFields(PieceCells(p) + rest, "") == [p.field] + MixedFields(rest, "")
  {
    if p.delimited {
      var tail := [Delimiter] + (Blanks(p.after) + rest);
      assert PieceCells(p) + rest == DataCells(p.field) + (Blanks(p.before) + tail);
      TakeData(p.field, Blanks(p.before) + tail, "");
      if p.before > 0 { TakeBlanks(p.before, tail, p.field); } else { assert Blanks(0) + tail == tail; }
      assert "" + p.field == p.field && tail[1..] == Blanks(p.after) + rest;
      SkipAll(p.after, rest);
      SkippedAlike(rest);
    } else {
      assert PieceCells(p) + rest == DataCells(p.field) + (Blanks(p.before) + rest);
      TakeData(p.field, Blanks(p.before) + rest, "");
      assert "" + p.field == p.field;
      TakeBlanks(p.before, rest, p.field);
      assert Pending(p.field) == [p.field] && (rest != [] ==> !Resumes(rest[0]));
    }
  }

  lemma {:induction false} SkippedAlike(rest: seq<Cell>)
    ensures MixedFields(SkipBlanks(rest), "") == MixedFields(rest, "")
  {
  }

  lemma NothingLeft(current: string)
    ensures MixedFields([], current) == Pending(current)
  {
  }

  /** Splitting inverts laying out: leading and trailing blanks vanish, blanks around a delimiter belong to it, every
      delimiter ends a field, and nothing follows a last separator. */
  lemma {:induction false} SplitInvertsLayout(lead: nat, pieces: seq<Piece>, last: string)
    requires WellLaid(pieces)
    ensures MixedFields(Blanks(lead) + Layout(pieces, last), "") == Fields(pieces, last)
    decreases |pieces|
  {
    hide MixedFields, SkipBlanks;
    LeadingIgnored(lead, Layout(pieces, last));
    if pieces == [] {
      assert DataCells(last) + [] == DataCells(last) && "" + last == last;
      NothingLeft(last);
      TakeData(last, [], "");
      assert Fields([], last) == Pending(last);
    } else {
      var rest := Layout(pieces[1..], last);
      assert WellLaid(pieces[1..]) by {
        assert forall i | 0 <= i < |pieces| - 1 :: pieces[1..][i] == pieces[i + 1];
      }
      if !pieces[0].delimited && rest != [] {
        if |pieces| > 1 { assert pieces[1].field != "" && rest[0] == Data(pieces[1].field[0], false); }
      }
      PieceSplits(pieces[0], rest);
      SplitInvertsLayout(0, pieces[1..], last);
      assert Blanks(0) + rest == rest;
      assert Fields(pieces, last) == [pieces[0].field] + Fields(pieces[1..], last);
    }
  }

  lemma {:induction false} BlankPrefix(cells: seq<Cell>) returns (n: nat)
    ensures cells == Blanks(n) + SkipBlanks(cells)
  {
    n := 0;
    if cells != [] && cells[0].Blank? {
      var m := BlankPrefix(cells[1..]);
      n := m + 1;
      assert Blanks(n) == [Blank] + Blanks(m);
      assert cells == [Blank] + cells[1..];
    }
  }

  lemma {:induction false} DataPrefix(cells: seq<Cell>) returns (s: string, rest: seq<Cell>)
    requires GlueFree(cells)
    ensures cells == DataCells(s) + rest && (rest == [] || !rest[0].Data?) && GlueFree(rest)
    ensures cells != [] && cells[0].Data? ==> s != ""
  {
    s, rest := "", cells;
    if cells != [] && cells[0].Data? {
      s, rest := DataPrefix(cells[1..]);
      assert cells == [cells[0]] + cells[1..] && cells[0] in cells;
      s := [cells[0].c] + s;
    }
  }

  lemma LayoutStep(p: Piece, more: seq<Piece>, last: string)
    ensures Layout([p] + more, last) == PieceCells(p) + Layout(more, last)
  {
    assert ([p] + more)[1..] == more;
  }

  lemma LayoutEnd(last: string)
    ensures Layout([], last) == DataCells(last)
  {
  }

  lemma PieceInFront(cells: seq<Cell>, rest: seq<Cell>, tail: seq<Cell>, p: Piece, next: seq<Cell>)
    requires cells == DataCells(p.field) + rest && rest == Blanks(p.before) + tail
    requires tail == if p.delimited then [Delimiter] + (Blanks(p.after) + next) else next
    ensures cells == PieceCells(p) + next
  {
  }

  lemma LaidInFront(p: Piece, more: seq<Piece>, last: string)
    requires WellLaid(more)
    requires p.delimited || (p.before > 0 && p.after == 0 && p.field != "" && (more != [] ==> more[0].field != ""))
    ensures WellLaid([p] + more)
  {
    var all := [p] + more;
    forall i | 0 <= i < |all|
      ensures all[i].delimited ||
                (all[i].before > 0 && all[i].after == 0 && all[i].field != "" &&
                (i + 1 < |all| ==> all[i + 1].field != ""))
    {
      if i > 0 { assert all[i] == more[i - 1] && (i + 1 < |all| ==> all[i + 1] == more[i]); }
    }
  }

  /** Every value has a layout, so the reference covers all of them. */
  lemma {:induction false} EveryCellRowIsLaid(cells: seq<Cell>) returns (pieces: seq<Piece>, last: string)
    requires GlueFree(cells) && (cells == [] || !cells[0].Blank?)
    ensures WellLaid(pieces) && cells == Layout(pieces, last)
    ensures cells == [] ==> pieces == []
    ensures pieces != [] && cells[0].Data? ==> pieces[0].field != ""
    decreases |cells|
  {
    hide Layout, PieceCells;
    var field, rest := DataPrefix(cells);
    if rest == [] {
      pieces, last := [], field;
      assert DataCells(field) + rest == DataCells(field);
      LayoutEnd(field);
    } else {
      var before := BlankPrefix(rest);
      var tail := SkipBlanks(rest);
      SkippedIn(rest);
      var p: Piece;
      var next: seq<Cell>;
      if tail != [] && tail[0].Delimiter? {
        var after := BlankPrefix(tail[1..]);
        next := SkipBlanks(tail[1..]);
        SkippedIn(tail[1..]);
        p := Piece(field, before, true, after);
        assert tail == [Delimiter] + tail[1..];
      } else {
        next := tail;
        p := Piece(field, before, false, 0);
        assert rest[0].Blank?;
      }
      PieceInFront(cells, rest, tail, p, next);
      var more, end := EveryCellRowIsLaid(next);
      pieces, last := [p] + more, end;
      assert pieces[1..] == more;
      LaidInFront(p, more, end);
      LayoutStep(p, more, end);
    }
  }

  // ----- A marker inside IFS

  /** The cells with every marked character taken as plain data, as the rules of field splitting have it. */
  function Unglued(cells: seq<Cell>): (u: seq<Cell>)
    ensures GlueFree(u)
  {
    if cells == [] then [] else [if cells[0].Data? then Data(cells[0].c, false) else cells[0]] + Unglued(cells[1..])
  }

  predicate Glued(cells: seq<Cell>) { cells != [] && cells[0].Data? && cells[0].glued }

  /** How many runs of blanks stand between text and a glued character; `pending` says that text comes before. */
  function Joints(cells: seq<Cell>, pending: bool): nat
    decreases |cells|
  {
    if cells == [] then 0
    else
      match cells[0]
      case Data(_, _) => Joints(cells[1..], true)
      case Delimiter => Joints(cells[1..], false)
      case Blank => (if pending && Glued(cells[1..]) then 1 else 0) + Joints(cells[1..], pending)
  }

  lemma {:induction false} UngluedSkip(cells: seq<Cell>)
    ensures Unglued(SkipBlanks(cells)) == SkipBlanks(Unglued(cells))
  {
    if cells != [] && cells[0].Blank? {
      UngluedSkip(cells[1..]);
      assert Unglued(cells)[1..] == Unglued(cells[1..]);
    }
  }

  /** A run of blanks is one joint when it stands between text and a glued character. */
  lemma {:induction false} JointsSkip(cells: seq<Cell>, pending: bool)
    requires cells != [] && cells[0].Blank?
    ensures Joints(cells, pending) ==
            (if pending && Glued(SkipBlanks(cells)) then 1 else 0) + Joints(SkipBlanks(cells), pending)
    decreases |cells|
  {
    var tail := cells[1..];
    if tail != [] && tail[0].Blank? { JointsSkip(tail, pending); }
  }

  lemma {:induction false} JointsAfterDelimiter(cells: seq<Cell>)
    ensures Joints(SkipBlanks(cells), false) == Joints(cells, false)
  {
    if cells != [] && cells[0].Blank? { JointsSkip(cells, false); }
  }

  /** Text before data makes no difference to the joints behind it. */
  lemma DataPends(cells: seq<Cell>, pending: bool)
    requires cells == [] || !cells[0].Blank?
    ensures Joints(cells, pending) == Joints(cells, false)
  {
  }

  lemma UngluedHead(cells: seq<Cell>)
    requires cells != []
    ensures Unglued(cells) != [] && Unglued(cells)[1..] == Unglued(cells[1..])
    ensures cells[0].Data? ==> Unglued(cells)[0] == Data(cells[0].c, false)
    ensures !cells[0].Data? ==> Unglued(cells)[0] == cells[0]
  {
  }

  /** What the splitter does at a run of blanks, with and without the glue behind it. */
  lemma BlankStep(cells: seq<Cell>, current: string, plain: string)
    requires cells != [] && cells[0].Blank?
    ensures var rest := SkipBlanks(cells);
            && Unglued(rest) == SkipBlanks(Unglued(cells))
            && MixedFields(cells, current) ==
               (if rest != [] && Resumes(rest[0]) then MixedFields(rest, current)
                else Pending(current) + MixedFields(rest, ""))
            && MixedFields(Unglued(cells), plain) ==
               if rest != [] && rest[0].Delimiter? then MixedFields(Unglued(rest), plain)
               else Pending(plain) + MixedFields(Unglued(rest), "")
  {
    hide Joints, Pending;
    UngluedHead(cells);
    UngluedSkip(cells);
    var rest := SkipBlanks(cells);
    if rest != [] { UngluedHead(rest); }
  }

  lemma DelimiterStep(cells: seq<Cell>, current: string, plain: string)
    requires cells != [] && cells[0].Delimiter?
    ensures MixedFields(cells, current) == [current] + MixedFields(SkipBlanks(cells[1..]), "")
    ensures MixedFields(Unglued(cells), plain) == [plain] + MixedFields(Unglued(SkipBlanks(cells[1..])), "")
  {
    UngluedHead(cells);
    UngluedSkip(cells[1..]);
  }

  lemma DataStep(cells: seq<Cell>, current: string, plain: string)
    requires cells != [] && cells[0].Data?
    ensures MixedFields(cells, current) == MixedFields(cells[1..], current + [cells[0].c])
    ensures MixedFields(Unglued(cells), plain) == MixedFields(Unglued(cells[1..]), plain + [cells[0].c])
  {
    UngluedHead(cells);
  }

  /** Every joint costs one field, and nothing else does. */
  lemma {:induction false} JointsCostFields(cells: seq<Cell>, current: string, plain: string)
    requires current != "" <==> plain != ""
    ensures |MixedFields(Unglued(cells), plain)| == |MixedFields(cells, current)| + Joints(cells, current != "")
    decreases |cells|
  {
    hide MixedFields, SkipBlanks, Unglued;
    if cells == [] {
      NothingLeft(current);
      NothingLeft(plain);
      assert Unglued(cells) == [] by { NoGlue(); }
    } else if cells[0].Data? {
      DataStep(cells, current, plain);
      JointsCostFields(cells[1..], current + [cells[0].c], plain + [cells[0].c]);
    } else if cells[0].Delimiter? {
      DelimiterStep(cells, current, plain);
      JointsCostFields(SkipBlanks(cells[1..]), "", "");
      JointsAfterDelimiter(cells[1..]);
    } else {
      var rest := SkipBlanks(cells);
      BlankStep(cells, current, plain);
      JointsSkip(cells, current != "");
      hide Joints;
      DataPends(rest, current != "");
      if rest != [] && rest[0].Delimiter? {
        JointsCostFields(rest, current, plain);
      } else if Glued(rest) {
        GluedJoints(rest);
        DataStep(rest, current, "");
        JointsCostFields(rest[1..], current + [rest[0].c], "" + [rest[0].c]);
      } else {
        JointsCostFields(rest, "", "");
      }
    }
  }

  lemma NoGlue()
    ensures Unglued([]) == []
  {
  }

  lemma GluedJoints(cells: seq<Cell>)
    requires Glued(cells)
    ensures Joints(cells, false) == Joints(cells[1..], true)
  {
  }

  lemma {:induction false} NoJointsAlike(cells: seq<Cell>, current: string)
    requires Joints(cells, current != "") == 0
    ensures MixedFields(Unglued(cells), current) == MixedFields(cells, current)
    decreases |cells|
  {
    hide MixedFields, SkipBlanks, Unglued;
    if cells == [] {
      assert Unglued(cells) == [] by { NoGlue(); }
    } else if cells[0].Data? {
      DataStep(cells, current, current);
      NoJointsAlike(cells[1..], current + [cells[0].c]);
    } else if cells[0].Delimiter? {
      DelimiterStep(cells, current, current);
      JointsAfterDelimiter(cells[1..]);
      NoJointsAlike(SkipBlanks(cells[1..]), "");
    } else {
      var rest := SkipBlanks(cells);
      BlankStep(cells, current, current);
      JointsSkip(cells, current != "");
      hide Joints;
      DataPends(rest, current != "");
      if rest != [] && rest[0].Delimiter? {
        NoJointsAlike(rest, current);
      } else {
        NoJointsAlike(rest, "");
        assert Glued(rest) ==> Pending(current) + MixedFields(rest, "") == MixedFields(rest, "");
      }
    }
  }

  /** A marker inside IFS changes the fields exactly when some run of blanks stands between text and a glued
      character. */
  lemma GlueMeaning(cells: seq<Cell>, current: string)
    ensures MixedFields(Unglued(cells), current) == MixedFields(cells, current) <==> Joints(cells, current != "") == 0
  {
    JointsCostFields(cells, current, current);
    if Joints(cells, current != "") == 0 { NoJointsAlike(cells, current); }
  }

  lemma {:induction false} UnambiguousUnglued(value: string, ifs: string)
    requires MARK !in value || MARK !in ifs
    ensures Unglued(Cells(value, ifs)) == Cells(value, ifs)
    decreases |value|
  {
    if value != "" && value[0] != MARK { UnambiguousUnglued(value[1..], ifs); }
    if |value| > 1 && value[0] == MARK { UnambiguousUnglued(value[2..], ifs); }
  }

  /** Every value is laid out as fields and separators, marked characters being data. The splitter yields the fields
      of that layout exactly when no blanks join text to a glued character; every such joint loses one field. */
  lemma SplitRefinesReference(value: string, ifs: string) returns (lead: nat, pieces: seq<Piece>, last: string)
    ensures WellLaid(pieces) && Unglued(Cells(value, ifs)) == Blanks(lead) + Layout(pieces, last)
    ensures MixedFields(Cells(value, ifs), "") == Fields(pieces, last) <==> Joints(Cells(value, ifs), false) == 0
    ensures |MixedFields(Cells(value, ifs), "")| == |Fields(pieces, last)| - Joints(Cells(value, ifs), false)
    ensures MARK !in value || MARK !in ifs ==>
              && Unglued(Cells(value, ifs)) == Cells(value, ifs)
              && MixedFields(Cells(value, ifs), "") == Fields(pieces, last)
  {
    hide MixedFields, Joints, Cells, Unglued, SkipBlanks;
    var cells := Unglued(Cells(value, ifs));
    SkippedIn(cells);
    lead := BlankPrefix(cells);
    pieces, last := EveryCellRowIsLaid(SkipBlanks(cells));
    SplitInvertsLayout(lead, pieces, last);
    GlueMeaning(Cells(value, ifs), "");
    JointsCostFields(Cells(value, ifs), "", "");
    if MARK !in value || MARK !in ifs { UnambiguousUnglued(value, ifs); }
  }

  // ----- Conservation

  function Concat(fields: seq<string>): string { if fields == [] then "" else fields[0] + Concat(fields[1..]) }

  function DataOf(cells: seq<Cell>): string {
    if cells == [] then "" else (if cells[0].Data? then [cells[0].c] else "") + DataOf(cells[1..])
  }

  function WithoutIfs(value: string, ifs: string): string {
    if value == "" then "" else (if value[0] in ifs then "" else [value[0]]) + WithoutIfs(value[1..], ifs)
  }

  lemma {:induction false} ConcatAppend(a: seq<string>, b: seq<string>)
    ensures Concat(a + b) == Concat(a) + Concat(b)
  {
    if a == [] {
      assert a + b == b;
    } else {
      assert (a + b)[1..] == a[1..] + b;
      ConcatAppend(a[1..], b);
    }
  }

  lemma {:induction false} SkippedData(cells: seq<Cell>)
    ensures DataOf(SkipBlanks(cells)) == DataOf(cells)
  {
    if cells != [] && cells[0].Blank? { SkippedData(cells[1..]); }
  }

  lemma Append(a: string, b: string, c: string)
    ensures a + b + c == a + (b + c)
  {
  }

  lemma ConcatCons(field: string, fields: seq<string>)
    ensures Concat([field] + fields) == field + Concat(fields)
    ensures Concat(Pending(field) + fields) == field + Concat(fields)
  {
    assert ([field] + fields)[1..] == fields;
    assert [] + fields == fields;
  }

  /** No field character is lost, moved or made up: the fields in order are the data of the value. */
  lemma {:induction false} SplitKeepsData(cells: seq<Cell>, current: string)
    ensures Concat(MixedFields(cells, current)) == current + DataOf(cells)
    decreases |cells|
  {
    hide SkipBlanks, Concat, Pending;
    if cells == [] {
      ConcatCons(current, []);
      assert Pending(current) + [] == Pending(current) && Concat([]) == "" by { NoFields(); }
    } else {
      match cells[0]
      case Data(c, _) =>
        SplitKeepsData(cells[1..], current + [c]);
        Append(current, [c], DataOf(cells[1..]));
      case Delimiter =>
        var rest := SkipBlanks(cells[1..]);
        SplitKeepsData(rest, "");
        SkippedData(cells[1..]);
        ConcatCons(current, MixedFields(rest, ""));
      case Blank =>
        var rest := SkipBlanks(cells);
        SkippedData(cells);
        if rest != [] && Resumes(rest[0]) {
          SplitKeepsData(rest, current);
        } else {
          SplitKeepsData(rest, "");
          ConcatCons(current, MixedFields(rest, ""));
        }
    }
  }

  lemma NoFields()
    ensures Concat([]) == ""
  {
  }

  lemma {:induction false} UnmarkedData(value: string, ifs: string)
    requires MARK !in value
    ensures DataOf(Cells(value, ifs)) == WithoutIfs(value, ifs)
  {
    if value != "" { UnmarkedData(value[1..], ifs); }
  }

  lemma {:induction false} FieldsAreTheValue(value: string, ifs: string)
    requires MARK !in value
    ensures Concat(MixedFields(Cells(value, ifs), "")) == WithoutIfs(value, ifs)
  {
    SplitKeepsData(Cells(value, ifs), "");
    UnmarkedData(value, ifs);
  }

  // ----- The splitters agree

  lemma {:induction false} BlankCells(value: string, ifs: string)
    requires AllBlank(ifs)
    ensures forall cell | cell in Cells(value, ifs) :: !Resumes(cell)
    decreases |value|
  {
    if value != "" && value[0] != MARK { BlankCells(value[1..], ifs); }
    if |value| > 1 && value[0] == MARK { BlankCells(value[2..], ifs); }
  }

  lemma {:induction false} BlankRunEndsOnce(cells: seq<Cell>)
    ensures BlankFields(SkipBlanks(cells), "") == BlankFields(cells, "")
  {
    if cells != [] && cells[0].Blank? {
      BlankRunEndsOnce(cells[1..]);
      assert [] + BlankFields(cells[1..], "") == BlankFields(cells[1..], "");
    }
  }

  lemma {:induction false} WithoutDelimitersAlike(cells: seq<Cell>, current: string)
    requires forall cell | cell in cells :: !Resumes(cell)
    ensures MixedFields(cells, current) == BlankFields(cells, current)
    decreases |cells|
  {
    if cells != [] {
      assert cells[0] in cells;
      if cells[0].Data? {
        WithoutDelimitersAlike(cells[1..], current + [cells[0].c]);
      } else {
        SkippedIn(cells);
        var rest := SkipBlanks(cells);
        WithoutDelimitersAlike(rest, "");
        BlankRunEndsOnce(cells[1..]);
      }
    }
  }

  lemma {:induction false} SkippedIn(cells: seq<Cell>)
    ensures forall cell | cell in SkipBlanks(cells) :: cell in cells
  {
    if cells != [] && cells[0].Blank? { SkippedIn(cells[1..]); }
  }

  /** With an IFS of blanks only, the general splitter and the blank splitter agree on every value. */
  lemma BlankIfsAgree(value: string, ifs: string)
    requires AllBlank(ifs)
    ensures MixedFields(Cells(value, ifs), "") == BlankFields(Cells(value, ifs), "")
  {
    BlankCells(value, ifs);
    WithoutDelimitersAlike(Cells(value, ifs), "");
  }

  function DropEmptyLast(parts: seq<string>): seq<string> {
    if parts != [] && parts[|parts| - 1] == "" then parts[..|parts| - 1] else parts
  }

  lemma DropAfter(first: string, parts: seq<string>)
    requires parts != []
    ensures DropEmptyLast([first] + parts) == [first] + DropEmptyLast(parts)
  {
  }

  lemma MixedStep(cell: Cell, cells: seq<Cell>, current: string)
    ensures cell.Data? ==> MixedFields([cell] + cells, current) == MixedFields(cells, current + [cell.c])
    ensures cell.Delimiter? && (cells == [] || !cells[0].Blank?) ==>
              MixedFields([cell] + cells, current) == [current] + MixedFields(cells, "")
  {
    assert ([cell] + cells)[1..] == cells;
  }

  lemma {:induction false} PlainSplitsMixed(value: string, ifs: string, current: string)
    requires NoBlank(ifs) && MARK !in value
    ensures var parts := SplitAt(value, ifs);
            MixedFields(Cells(value, ifs), current) == DropEmptyLast(parts[0 := current + parts[0]])
    decreases |value|
  {
    hide SkipBlanks, MixedFields;
    if value == "" {
      assert current + "" == current;
      NothingLeft(current);
    } else {
      hide DropEmptyLast, SplitAt;
      var rest := SplitAt(value[1..], ifs);
      var cells := Cells(value[1..], ifs);
      NoBlankCells(value[1..], ifs);
      MixedStep(CellOf(value[0], ifs), cells, current);
      SplitAtStep(value, ifs, current);
      if value[0] in ifs {
        PlainSplitsMixed(value[1..], ifs, "");
        assert "" + rest[0] == rest[0] && rest[0 := rest[0]] == rest;
        DropAfter(current, rest);
      } else {
        PlainSplitsMixed(value[1..], ifs, current + [value[0]]);
      }
    }
  }

  /** The parts of a text, the first one continued from before it. */
  lemma SplitAtStep(value: string, ifs: string, current: string)
    requires value != ""
    ensures var parts, rest := SplitAt(value, ifs), SplitAt(value[1..], ifs);
            parts[0 := current + parts[0]] ==
            if value[0] in ifs then [current] + rest else rest[0 := current + [value[0]] + rest[0]]
  {
    var rest := SplitAt(value[1..], ifs);
    Append(current, [value[0]], rest[0]);
    assert current + "" == current;
  }

  lemma NoBlankCells(value: string, ifs: string)
    requires NoBlank(ifs)
    ensures Cells(value, ifs) == [] || !Cells(value, ifs)[0].Blank?
  {
  }

  lemma {:induction false} SplittingSpendsMarks(value: string, ifs: string)
    ensures Count(DataOf(Cells(value, ifs)), MARK) <= Count(value, MARK)
    ensures MARK in value && MARK !in ifs ==> Count(DataOf(Cells(value, ifs)), MARK) < Count(value, MARK)
    decreases |value|
  {
    if value != "" {
      var cells := Cells(value, ifs);
      if value[0] != MARK {
        SplittingSpendsMarks(value[1..], ifs);
        assert cells[1..] == Cells(value[1..], ifs);
        var data := DataOf(cells[1..]);
        CountAppend([value[0]], data, MARK);
        assert "" + data == data && [value[0]][1..] == "";
      } else if |value| > 1 {
        SplittingSpendsMarks(value[2..], ifs);
        assert cells[1..] == Cells(value[2..], ifs);
        CountAppend([value[1]], DataOf(cells[1..]), MARK);
        assert [value[1]][1..] == "";
        assert Count(value[1..], MARK) == (if value[1] == MARK then 1 else 0) + Count(value[2..], MARK) by {
          assert value[1..][1..] == value[2..];
        }
      }
    }
  }

  lemma {:induction false} PlainKeepsMarks(value: string, ifs: string)
    requires MARK !in ifs
    ensures Count(Concat(SplitAt(value, ifs)), MARK) == Count(value, MARK)
  {
    if value == "" {
      assert Concat([""]) == "" + Concat([]);
    } else {
      PlainKeepsMarks(value[1..], ifs);
      var rest, parts := SplitAt(value[1..], ifs), SplitAt(value, ifs);
      if value[0] in ifs {
        assert parts[1..] == rest && "" + Concat(rest) == Concat(rest);
      } else {
        assert parts[1..] == rest[1..];
        assert Concat(parts) == [value[0]] + Concat(rest);
        assert ([value[0]] + Concat(rest))[1..] == Concat(rest);
      }
    }
  }

  lemma {:induction false} DroppedIsEmpty(parts: seq<string>)
    ensures Concat(DropEmptyLast(parts)) == Concat(parts)
  {
    if parts != [] && parts[|parts| - 1] == "" {
      ConcatAppend(parts[..|parts| - 1], [""]);
      assert parts == parts[..|parts| - 1] + [""];
      assert Concat([""]) == "" + Concat([]);
    }
  }

  function InIfs(value: string, ifs: string): nat {
    if value == "" then 0 else (if value[0] in ifs then 1 else 0) + InIfs(value[1..], ifs)
  }

  /** How many fields the split-and-drop path yields: one more than there are IFS characters, but for a last one. */
  function PlainCount(value: string, ifs: string): nat {
    1 + InIfs(value, ifs) - if value != "" && value[|value| - 1] in ifs then 1 else 0
  }

  function Delimiters(cells: seq<Cell>): nat {
    if cells == [] then 0 else (if cells[0].Delimiter? then 1 else 0) + Delimiters(cells[1..])
  }

  predicate Ends(cells: seq<Cell>, pending: bool) {
    if cells == [] then pending else Ends(cells[1..], !cells[0].Delimiter?)
  }

  /** How many fields the general splitter yields without blanks. */
  function MixedCount(cells: seq<Cell>, pending: bool): nat {
    Delimiters(cells) + if Ends(cells, pending) then 1 else 0
  }

  lemma {:induction false} PartsCount(value: string, ifs: string)
    ensures var parts := SplitAt(value, ifs);
            && |parts| == 1 + InIfs(value, ifs)
            && (parts[|parts| - 1] == "" <==> value == "" || value[|value| - 1] in ifs)
  {
    if value != "" { PartsCount(value[1..], ifs); }
  }

  lemma {:induction false} LastInIfs(value: string, ifs: string)
    requires value != "" && value[|value| - 1] in ifs
    ensures InIfs(value, ifs) > 0
  {
    if |value| > 1 { LastInIfs(value[1..], ifs); }
  }

  lemma PlainFieldsCount(value: string, ifs: string)
    ensures |PlainFields(value, ifs)| == PlainCount(value, ifs)
  {
    PartsCount(value, ifs);
    if value != "" && value[|value| - 1] in ifs { LastInIfs(value, ifs); }
  }

  lemma {:induction false} MixedFieldsCount(cells: seq<Cell>, current: string)
    requires forall cell | cell in cells :: !cell.Blank?
    ensures |MixedFields(cells, current)| == MixedCount(cells, current != "")
  {
    if cells != [] {
      assert cells[0] in cells && forall cell | cell in cells[1..] :: cell in cells;
      MixedFieldsCount(cells[1..], if cells[0].Data? then current + [cells[0].c] else "");
      if |cells| > 1 { assert !cells[1].Blank?; }
      assert SkipBlanks(cells[1..]) == cells[1..];
    }
  }

  lemma {:induction false} NoBlanksInCells(value: string, ifs: string)
    requires NoBlank(ifs)
    ensures forall cell | cell in Cells(value, ifs) :: !cell.Blank?
    decreases |value|
  {
    if value != "" && value[0] != MARK { NoBlanksInCells(value[1..], ifs); }
    if |value| > 1 && value[0] == MARK { NoBlanksInCells(value[2..], ifs); }
  }

  /** A marker inside IFS is a separator for the split-and-drop path only, so it adds a field there, except at the
      end. */
  lemma {:induction false} MarkersAddFields(value: string, ifs: string, pending: bool)
    requires NoBlank(ifs) && MARK in ifs
    ensures PlainCount(value, ifs) >= MixedCount(Cells(value, ifs), pending)
    ensures value != "" && MARK in value[..|value| - 1] ==>
              PlainCount(value, ifs) > MixedCount(Cells(value, ifs), pending)
    decreases |value|
  {
    hide PlainCount, MixedCount, Cells;
    CellsStep(value, ifs, 0);
    assert value[0..] == value;
    if value == "" {
      NothingCounted(ifs, pending);
    } else {
      PlainCountStep(value, ifs);
      if value[0] != MARK {
        MixedCountStep(CellOf(value[0], ifs), Cells(value[1..], ifs), pending);
        if |value| == 1 { NothingCounted(ifs, value[0] !in ifs); }
        MarkersAddFields(value[1..], ifs, value[0] !in ifs);
        if MARK in value[..|value| - 1] { MarkerAhead(value); }
      } else if |value| == 1 {
        NothingCounted(ifs, pending);
      } else {
        assert value[1..][1..] == value[2..] && value[1..][0] == value[1];
        PlainCountStep(value[1..], ifs);
        MixedCountStep(Data(value[1], true), Cells(value[2..], ifs), pending);
        if |value| == 2 { NothingCounted(ifs, true); }
        MarkersAddFields(value[2..], ifs, true);
      }
    }
  }

  lemma MarkerAhead(value: string)
    requires value != "" && value[0] != MARK && MARK in value[..|value| - 1]
    ensures value[1..] != "" && MARK in value[1..][..|value[1..]| - 1]
  {
    var i :| 0 <= i < |value| - 1 && value[..|value| - 1][i] == MARK;
    assert value[1..][..|value| - 2][i - 1] == MARK;
  }

  lemma NothingCounted(ifs: string, pending: bool)
    ensures PlainCount("", ifs) == 1 && Cells("", ifs) == [] && MixedCount([], pending) == if pending then 1 else 0
  {
  }

  lemma PlainCountStep(value: string, ifs: string)
    requires value != ""
    ensures |value| == 1 ==> PlainCount(value, ifs) == 1
    ensures |value| > 1 ==> PlainCount(value, ifs) == (if value[0] in ifs then 1 else 0) + PlainCount(value[1..], ifs)
  {
    if |value| == 1 { assert value[1..] == "" && InIfs("", ifs) == 0; }
  }

  lemma MixedCountStep(cell: Cell, cells: seq<Cell>, pending: bool)
    ensures MixedCount([cell] + cells, pending) ==
              (if cell.Delimiter? then 1 else 0) + MixedCount(cells, !cell.Delimiter?)
  {
    assert ([cell] + cells)[1..] == cells;
  }

  /** The values on which the path for an IFS without blanks agrees with the general splitter: not empty, and without
      markers, but for one at the end, behind text, when the IFS holds the marker too. */
  predicate PlainAgrees(value: string, ifs: string) {
    && value != ""
    && (MARK in value ==>
          MARK in ifs && |value| > 1 && MARK !in value[..|value| - 1] && value[|value| - 2] !in ifs)
  }

  /** A marker at the end protects nothing. */
  lemma {:induction false} TrailingMarker(front: string, ifs: string)
    requires MARK !in front
    ensures Cells(front + [MARK], ifs) == Cells(front, ifs)
    ensures MARK in ifs ==> SplitAt(front + [MARK], ifs) == SplitAt(front, ifs) + [""]
  {
    if front == "" {
      assert front + [MARK] == [MARK] && [MARK][1..] == "";
    } else {
      assert (front + [MARK])[1..] == front[1..] + [MARK];
      TrailingMarker(front[1..], ifs);
    }
  }

  lemma EndingMarkerAgrees(front: string, ifs: string)
    requires NoBlank(ifs) && MARK in ifs && MARK !in front
    ensures PlainFields(front + [MARK], ifs) == MixedFields(Cells(front + [MARK], ifs), "") <==>
            front != "" && front[|front| - 1] !in ifs
  {
    TrailingMarker(front, ifs);
    PlainSplitsMixed(front, ifs, "");
    PartsCount(front, ifs);
    var parts := SplitAt(front, ifs);
    assert "" + parts[0] == parts[0] && parts[0 := parts[0]] == parts;
    assert (parts + [""])[..|parts|] == parts;
  }

  /** With an IFS free of blanks, the split-and-drop path agrees with the general splitter exactly on those values. */
  lemma PlainIfsAgree(value: string, ifs: string)
    requires NoBlank(ifs)
    ensures PlainFields(value, ifs) == MixedFields(Cells(value, ifs), "") <==> PlainAgrees(value, ifs)
  {
    hide MixedFields, Cells;
    var parts := SplitAt(value, ifs);
    if value == "" {
      assert MixedFields(Cells("", ifs), "") == [] by { NothingToSplit(ifs); }
    } else if MARK !in value {
      PlainSplitsMixed(value, ifs, "");
      assert "" + parts[0] == parts[0] && parts[0 := parts[0]] == parts;
      OnePartIsWhole(value, ifs);
    } else if MARK !in ifs {
      SplitKeepsData(Cells(value, ifs), "");
      SplittingSpendsMarks(value, ifs);
      PlainKeepsMarks(value, ifs);
      DroppedIsEmpty(parts);
      assert "" + DataOf(Cells(value, ifs)) == DataOf(Cells(value, ifs));
      assert PlainFields(value, ifs) == parts || PlainFields(value, ifs) == DropEmptyLast(parts);
    } else {
      var front := value[..|value| - 1];
      assert value == front + [value[|value| - 1]];
      if MARK in front {
        MarkersAddFields(value, ifs, false);
        PlainFieldsCount(value, ifs);
        NoBlanksInCells(value, ifs);
        MixedFieldsCount(Cells(value, ifs), "");
      } else {
        EndingMarkerAgrees(front, ifs);
      }
    }
  }

  lemma NothingToSplit(ifs: string)
    ensures MixedFields(Cells("", ifs), "") == []
  {
  }

  lemma {:induction false} OnePartIsWhole(value: string, ifs: string)
    ensures |SplitAt(value, ifs)| == 1 ==> SplitAt(value, ifs) == [value]
  {
    if value != "" {
      OnePartIsWhole(value[1..], ifs);
      assert value == [value[0]] + value[1..];
    }
  }

  /** The executor's choice of splitter never shows, except with an IFS without blanks on the values above. */
  lemma ChoiceOfSplitter(value: string, ifs: string)
    requires ifs != ""
    ensures FieldSplitValues(value, Some(ifs)) == MixedFields(Cells(value, ifs), "") <==>
            (NoBlank(ifs) ==> PlainAgrees(value, ifs))
  {
    assert ifs[0] in ifs;
    if AllBlank(ifs) {
      BlankIfsAgree(value, ifs);
    } else if NoBlank(ifs) {
      PlainIfsAgree(value, ifs);
    }
  }

  // ----- Joining and splitting

  predicate Splittable(field: string, ifs: string) { field != "" && forall c | c in field :: c !in ifs && c != MARK }

  function JoinPieces(fields: seq<string>, sep: Cell): seq<Piece> {
    seq(|fields|, i requires 0 <= i < |fields| =>
        if sep.Blank? then Piece(fields[i], 1, false, 0) else Piece(fields[i], 0, true, 0))
  }

  lemma {:induction false} CellsOfField(field: string, rest: string, ifs: string)
    requires forall c | c in field :: c !in ifs && c != MARK
    ensures Cells(field + rest, ifs) == DataCells(field) + Cells(rest, ifs)
    decreases |field|
  {
    if field == "" {
      assert field + rest == rest && DataCells(field) + Cells(rest, ifs) == Cells(rest, ifs);
    } else {
      assert (field + rest)[1..] == field[1..] + rest;
      forall c | c in field[1..] ensures c !in ifs && c != MARK { assert c in field; }
      CellsOfField(field[1..], rest, ifs);
      assert DataCells(field) == [Data(field[0], false)] + DataCells(field[1..]);
    }
  }

  lemma JoinLayout(fields: seq<string>, sep: Cell, last: string)
    requires fields != [] && !sep.Data?
    ensures Layout(JoinPieces(fields, sep), last) ==
              DataCells(fields[0]) + [sep] + Layout(JoinPieces(fields[1..], sep), last)
  {
    var pieces := JoinPieces(fields, sep);
    assert pieces[1..] == JoinPieces(fields[1..], sep);
    assert PieceCells(pieces[0]) == DataCells(fields[0]) + [sep];
  }

  lemma NoLayout(sep: Cell, last: string)
    ensures Layout(JoinPieces([], sep), last) == DataCells(last)
  {
  }

  lemma {:induction false} CellsOfJoin(fields: seq<string>, sep: char, ifs: string)
    requires fields != [] && (forall f | f in fields :: Splittable(f, ifs)) && sep in ifs &&
              (sep != MARK || |fields| == 1)
    ensures var n := |fields| - 1;
            Cells(Join(fields, [sep]), ifs) == Layout(JoinPieces(fields[..n], CellOf(sep, ifs)), fields[n])
  {
    hide Cells, Layout, JoinPieces, DataCells;
    assert Splittable(fields[0], ifs) && forall f | f in fields[1..] :: f in fields;
    if |fields| == 1 {
      assert fields[0] + "" == fields[0] && ""[0..] == "" && fields[..0] == [];
      CellsStep("", ifs, 0);
      CellsOfField(fields[0], "", ifs);
      assert DataCells(fields[0]) + [] == DataCells(fields[0]);
      NoLayout(CellOf(sep, ifs), fields[0]);
    } else {
      var rest := Join(fields[1..], [sep]);
      CellsOfJoin(fields[1..], sep, ifs);
      CellsOfFirst(fields[0], sep, rest, ifs);
      assert Join(fields, [sep]) == fields[0] + ([sep] + rest);
      LayoutOfFirst(fields, CellOf(sep, ifs));
    }
  }

  lemma CellsOfFirst(field: string, sep: char, rest: string, ifs: string)
    requires Splittable(field, ifs) && sep in ifs && sep != MARK
    ensures Cells(field + ([sep] + rest), ifs) == DataCells(field) + [CellOf(sep, ifs)] + Cells(rest, ifs)
  {
    hide Cells, DataCells, CellOf;
    var tail := [sep] + rest;
    CellsOfField(field, tail, ifs);
    assert tail[1..] == rest && tail[0..] == tail;
    CellsStep(tail, ifs, 0);
  }

  lemma LayoutOfFirst(fields: seq<string>, sep: Cell)
    requires |fields| > 1 && !sep.Data?
    ensures var n := |fields| - 1;
            && fields[n] == fields[1..][n - 1]
            && Layout(JoinPieces(fields[..n], sep), fields[n]) ==
               DataCells(fields[0]) + [sep] + Layout(JoinPieces(fields[1..][..n - 1], sep), fields[1..][n - 1])
  {
    hide Layout, JoinPieces, DataCells;
    var n := |fields| - 1;
    JoinLayout(fields[..n], sep, fields[n]);
    assert fields[..n][1..] == fields[1..][..n - 1];
  }

  /** Splitting the join of fields by an IFS character gives the fields back, unless that character is the marker and
      the IFS holds blanks as well. */
  lemma {:induction false} JoinSplits(fields: seq<string>, sep: char, ifs: string)
    requires fields != [] && (forall f | f in fields :: Splittable(f, ifs)) && sep in ifs
    ensures FieldSplitValues(Join(fields, [sep]), Some(ifs)) == fields <==> sep != MARK || NoBlank(ifs) || |fields| == 1
  {
    hide MixedFields, Cells, SplitAt;
    assert forall i | 0 <= i < |fields| :: Splittable(fields[i], ifs);
    var value := Join(fields, [sep]);
    if NoBlank(ifs) {
      SplitAtJoin(fields, sep, ifs);
      assert !AllBlank(ifs);
    } else if sep == MARK && |fields| > 1 {
      assert !AllBlank(ifs);
      JoinedCharacters(fields, sep, ifs);
      OnlyData(value, ifs);
      AtMostOneField(Cells(value, ifs), "");
    } else {
      JoinedFields(fields, sep, ifs);
      if AllBlank(ifs) { BlankIfsAgree(value, ifs); }
    }
  }

  lemma JoinedFields(fields: seq<string>, sep: char, ifs: string)
    requires fields != [] && (forall f | f in fields :: Splittable(f, ifs)) && sep in ifs &&
              (sep != MARK || |fields| == 1)
    ensures MixedFields(Cells(Join(fields, [sep]), ifs), "") == fields
  {
    hide MixedFields, Cells, Layout, JoinPieces, WellLaid, Fields;
    var n := |fields| - 1;
    var pieces := JoinPieces(fields[..n], CellOf(sep, ifs));
    CellsOfJoin(fields, sep, ifs);
    JoinedPieces(fields, sep, ifs);
    SplitInvertsLayout(0, pieces, fields[n]);
    assert Blanks(0) + Layout(pieces, fields[n]) == Layout(pieces, fields[n]);
  }

  lemma JoinedPieces(fields: seq<string>, sep: char, ifs: string)
    requires fields != [] && (forall f | f in fields :: Splittable(f, ifs)) && sep in ifs
    ensures var n := |fields| - 1;
            var pieces := JoinPieces(fields[..n], CellOf(sep, ifs));
            WellLaid(pieces) && Fields(pieces, fields[n]) == fields
  {
    assert forall i | 0 <= i < |fields| :: fields[i] != "" by {
      assert forall i | 0 <= i < |fields| :: Splittable(fields[i], ifs);
    }
    hide Splittable;
    var n := |fields| - 1;
    assert forall i | 0 <= i < n :: fields[..n][i] == fields[i];
  }

  lemma {:induction false} JoinedCharacters(fields: seq<string>, sep: char, ifs: string)
    requires forall f | f in fields :: Splittable(f, ifs)
    ensures forall c | c in Join(fields, [sep]) :: c == sep || c !in ifs
  {
    if fields != [] {
      assert Splittable(fields[0], ifs) && forall f | f in fields[1..] :: f in fields;
      JoinedCharacters(fields[1..], sep, ifs);
    }
  }

  lemma {:induction false} OnlyData(value: string, ifs: string)
    requires forall c | c in value :: c == MARK || c !in ifs
    ensures forall cell | cell in Cells(value, ifs) :: cell.Data?
    decreases |value|
  {
    if value != "" && value[0] != MARK { OnlyData(value[1..], ifs); }
    if |value| > 1 && value[0] == MARK { OnlyData(value[2..], ifs); }
  }

  lemma {:induction false} AtMostOneField(cells: seq<Cell>, current: string)
    requires forall cell | cell in cells :: cell.Data?
    ensures |MixedFields(cells, current)| <= 1
  {
    if cells != [] {
      assert cells[0] in cells && forall cell | cell in cells[1..] :: cell in cells;
      AtMostOneField(cells[1..], current + [cells[0].c]);
    }
  }

  /** With the marker itself in a mixed IFS, a blank before a marked character does not end the field; the same cells
      unglued would make two fields. */
  lemma MarkerInIfsJoins()
    ensures var ifs := [' ', MARK];
            var value := ['a', ' ', MARK, 'b'];
            MixedFields(Cells(value, ifs), "") == ["ab"] && Fields([Piece("a", 1, false, 0)], "b") == ["a", "b"]
  {
    var ifs := [' ', MARK];
    var value := ['a', ' ', MARK, 'b'];
    CellsStep(value, ifs, 4);
    CellsStep(value, ifs, 2);
    CellsStep(value, ifs, 1);
    CellsStep(value, ifs, 0);
    assert value[0..] == value;
    var cells := Cells(value, ifs);
    assert cells == [Data('a', false), Blank, Data('b', true)];
    assert cells[1..] == [Blank, Data('b', true)] && cells[1..][1..] == [Data('b', true)];
    assert [Data('b', true)][1..] == [];
    assert SkipBlanks([Data('b', true)]) == [Data('b', true)];
    assert SkipBlanks(cells[1..]) == [Data('b', true)];
    assert MixedFields([Data('b', true)], "a") == MixedFields([], "a" + "b");
    assert "a" + "b" == "ab";
    assert MixedFields(cells[1..], "a") == ["ab"];
    assert "" + "a" == "a";
    assert MixedFields(cells, "") == ["ab"];
    assert Fields([Piece("a", 1, false, 0)], "b") == ["a"] + ["b"];
  }
}
