/** What a symbolic mode does to every bit of the mask, read from its characters. */
module UmaskText {
  import opened Umask

  // ----- Modes as they are written

  /** An operator and its letters. */
  datatype Change = Change(op: char, letters: string)

  /** Letters for classes, and what is to change for them. */
  datatype Part = Part(classes: string, changes: seq<Change>)

  predicate ChangeOk(c: Change) {
    && (c.op == '+' || c.op == '-' || c.op == '=')
    && forall a | a in c.letters :: a in {'r', 'w', 'x', 'X', 's', 't', 'u', 'g', 'o'}
  }

  predicate ClassesOk(classes: string) { forall c | c in classes :: c in {'u', 'g', 'o', 'a'} }

  predicate PartOk(p: Part) { ClassesOk(p.classes) && p.changes != [] && forall c | c in p.changes :: ChangeOk(c) }

  function ChangesText(cs: seq<Change>): string {
    if cs == [] then "" else [cs[0].op] + (cs[0].letters + ChangesText(cs[1..]))
  }

  function PartText(p: Part): string { p.classes + ChangesText(p.changes) }

  function ModeText(parts: seq<Part>): string
    requires parts != []
  {
    if |parts| == 1 then PartText(parts[0]) else PartText(parts[0]) + ("," + ModeText(parts[1..]))
  }

  // ----- What they say of one bit: bits 8 to 6 are read, write and execute for the user, 5 to 3 for the group, 2 to 0
  // for others

  predicate Concerned(classes: string, i: nat) {
    || classes == "" || 'a' in classes
    || ('u' in classes && 6 <= i < 9) || ('g' in classes && 3 <= i < 6) || ('o' in classes && i < 3)
  }

  /** Does the letter ask for the permission that the bit stands for? */
  predicate Asks(a: char, mask: Word, i: nat) {
    match a
    case 'r' => i % 3 == 2
    case 'w' => i % 3 == 1
    case 'x' => i % 3 == 0
    case 'X' => i % 3 == 0 && (6 !in mask || 3 !in mask || 0 !in mask)
    case 'u' => 6 + i % 3 !in mask
    case 'g' => 3 + i % 3 !in mask
    case 'o' => i % 3 !in mask
    case _ => false
  }

  predicate NoCopy(letters: string) { 'u' !in letters && 'g' !in letters && 'o' !in letters }

  /** A class letter among the permissions makes those before it void. */
  predicate Asked(letters: string, mask: Word, i: nat) {
    exists j :: 0 <= j < |letters| && Asks(letters[j], mask, i) && NoCopy(letters[j + 1..])
  }

  function Permitted(classes: string, c: Change, mask: Word, i: nat, before: bool): bool {
    if !Concerned(classes, i) then before
    else if c.op == '+' then before || Asked(c.letters, mask, i)
    else if c.op == '-' then before && !Asked(c.letters, mask, i)
    else Asked(c.letters, mask, i)
  }

  function AfterChanges(classes: string, cs: seq<Change>, mask: Word, i: nat, before: bool): bool {
    if cs == [] then before
    else
      var last := |cs| - 1;
      Permitted(classes, cs[last], mask, i, AfterChanges(classes, cs[..last], mask, i, before))
  }

  function AfterParts(parts: seq<Part>, mask: Word, i: nat): bool {
    if parts == [] then i !in mask
    else
      var last := |parts| - 1;
      AfterChanges(parts[last].classes, parts[last].changes, mask, i, AfterParts(parts[..last], mask, i))
  }

  // ----- Letters

  function PermissionsOf(letters: string, initial: Word, perm: Word): Word {
    if letters == "" then perm else PermissionsOf(letters[1..], initial, ActionBits(initial, perm, letters[0]))
  }

  lemma {:induction false} LettersTaken(letters: string, rest: string, initial: Word, perm: Word)
    requires (forall a | a in letters :: IsAction(a)) && (rest == "" || !IsAction(rest[0]))
    ensures TakeActions(letters + rest, initial, perm) == (PermissionsOf(letters, initial, perm), rest)
  {
    hide ActionBits;
    if letters == "" {
      assert letters + rest == rest;
    } else {
      assert letters == [letters[0]] + letters[1..];
      assert (letters + rest)[1..] == letters[1..] + rest;
      LettersTaken(letters[1..], rest, initial, ActionBits(initial, perm, letters[0]));
    }
  }

  lemma PermittedAtFirst(mask: Word, i: nat)
    requires i < 9
    ensures i in Flipped(mask) * ALL <==> i !in mask
  {
  }

  lemma CopyHas(mask: Word, perm: Word, a: char, i: nat)
    requires (a == 'u' || a == 'g' || a == 'o') && i < 9
    ensures i in ActionBits(Flipped(mask) * ALL, perm, a) <==> Asks(a, mask, i)
  {
    var initial := Flipped(mask) * ALL;
    hide Flipped, ALL, CopyBits;
    CopyBitsHas(initial, 8, 7, 6, i);
    CopyBitsHas(initial, 5, 4, 3, i);
    CopyBitsHas(initial, 2, 1, 0, i);
    PermittedAtFirst(mask, 6 + i % 3);
    PermittedAtFirst(mask, 3 + i % 3);
    PermittedAtFirst(mask, i % 3);
  }

  lemma PlainHas(mask: Word, perm: Word, a: char, i: nat)
    requires IsAction(a) && a != 'u' && a != 'g' && a != 'o' && i < 9
    ensures i in ActionBits(Flipped(mask) * ALL, perm, a) <==> i in perm || Asks(a, mask, i)
  {
    var initial := Flipped(mask) * ALL;
    AnyExec(initial);
    PermittedAtFirst(mask, 6);
    PermittedAtFirst(mask, 3);
    PermittedAtFirst(mask, 0);
    hide Flipped, ALL, CopyBits;
  }

  lemma AskedFirst(a: char, letters: string, mask: Word, i: nat)
    ensures Asked([a] + letters, mask, i) <==> (Asks(a, mask, i) && NoCopy(letters)) || Asked(letters, mask, i)
  {
    hide Asks, NoCopy;
    var all := [a] + letters;
    assert all[1..] == letters && all[0] == a;
    if j :| 0 <= j < |all| && Asks(all[j], mask, i) && NoCopy(all[j + 1..]) {
      if j > 0 { assert letters[j - 1] == all[j] && letters[j - 1 + 1..] == all[j + 1..]; }
    }
    if j :| 0 <= j < |letters| && Asks(letters[j], mask, i) && NoCopy(letters[j + 1..]) {
      assert all[j + 1] == letters[j] && all[j + 1 + 1..] == letters[j + 1..];
    }
    if Asks(a, mask, i) && NoCopy(letters) { assert all[0 + 1..] == letters; }
  }

  lemma NoCopyFirst(a: char, letters: string)
    ensures NoCopy([a] + letters) <==> a != 'u' && a != 'g' && a != 'o' && NoCopy(letters)
  {
  }

  lemma {:induction false} PermissionsHave(letters: string, mask: Word, perm: Word, i: nat)
    requires (forall a | a in letters :: IsAction(a)) && i < 9
    ensures i in PermissionsOf(letters, Flipped(mask) * ALL, perm) <==>
            (NoCopy(letters) && i in perm) || Asked(letters, mask, i)
    decreases |letters|
  {
    hide ActionBits, Asks, Flipped, ALL, Asked, NoCopy;
    if letters == "" {
      assert NoCopy("") && !Asked("", mask, i) by { NothingAsked(mask, i); }
    } else {
      var a, tail := letters[0], letters[1..];
      assert letters == [a] + tail;
      var initial := Flipped(mask) * ALL;
      PermissionsHave(tail, mask, ActionBits(initial, perm, a), i);
      AskedFirst(a, tail, mask, i);
      NoCopyFirst(a, tail);
      if a == 'u' || a == 'g' || a == 'o' { CopyHas(mask, perm, a, i); } else { PlainHas(mask, perm, a, i); }
    }
  }

  lemma NothingAsked(mask: Word, i: nat)
    ensures NoCopy("") && !Asked("", mask, i)
  {
  }

  // ----- Classes

  lemma {:induction false} ClassesTaken(classes: string, rest: string, who: Word)
    requires ClassesOk(classes) && (rest == "" || !IsWho(rest[0]))
    ensures TakeWho(classes + rest, who).1 == rest
    ensures forall i: nat :: i in TakeWho(classes + rest, who).0 <==>
                             i in who || (classes != "" && Concerned(classes, i) && i < 9)
  {
    if classes == "" {
      assert classes + rest == rest;
    } else {
      var c, tail := classes[0], classes[1..];
      assert classes == [c] + tail && (classes + rest)[1..] == tail + rest;
      assert c in classes && IsWho(c);
      assert forall d | d in tail :: d in classes;
      ClassesTaken(tail, rest, who + WhoBits(c));
      forall i: nat
        ensures i in WhoBits(c) || (tail != "" && Concerned(tail, i) && i < 9) <==> Concerned(classes, i) && i < 9
      {
      }
    }
  }

  ghost predicate ClassesAre(who: Word, classes: string) {
    forall i: nat :: i in who <==> i < 9 && Concerned(classes, i)
  }

  lemma ClassesMask(classes: string, rest: string)
    requires ClassesOk(classes) && (rest == "" || !IsWho(rest[0]))
    ensures TakeWho(classes + rest, {}).1 == rest
    ensures var taken := TakeWho(classes + rest, {}).0; ClassesAre(if taken == {} then ALL else taken, classes)
  {
    ClassesTaken(classes, rest, {});
    if classes != "" {
      hide ALL;
      assert classes[0] in classes;
      assert Concerned(classes, 8) || Concerned(classes, 5) || Concerned(classes, 2);
    }
  }

  // ----- The parser's bits while it reads

  /** The permissions among the bits are those after all these parts and changes. */
  ghost predicate Holds(bits: Word, parts: seq<Part>, classes: string, done: seq<Change>, mask: Word) {
    forall i: nat | i < 9 :: i in bits <==> AfterChanges(classes, done, mask, i, AfterParts(parts, mask, i))
  }

  lemma AfterOne(classes: string, done: seq<Change>, c: Change, mask: Word, i: nat, before: bool)
    ensures AfterChanges(classes, done + [c], mask, i, before) ==
            Permitted(classes, c, mask, i, AfterChanges(classes, done, mask, i, before))
  {
    assert (done + [c])[..|done|] == done;
  }

  lemma ChangeHolds(bits: Word, parts: seq<Part>, classes: string, done: seq<Change>, mask: Word, c: Change, who: Word)
    requires Holds(bits, parts, classes, done, mask) && ClassesAre(who, classes) && ChangeOk(c)
    ensures var perm := PermissionsOf(c.letters, Flipped(mask) * ALL, {});
            Holds(ApplyBits(c.op, perm * who, who, bits), parts, classes, done + [c], mask)
  {
    var perm := PermissionsOf(c.letters, Flipped(mask) * ALL, {});
    hide PermissionsOf, ALL, Asked, Concerned, AfterChanges, AfterParts;
    forall i: nat | i < 9
      ensures i in ApplyBits(c.op, perm * who, who, bits) <==>
              AfterChanges(classes, done + [c], mask, i, AfterParts(parts, mask, i))
    {
      AfterOne(classes, done, c, mask, i, AfterParts(parts, mask, i));
      PermissionsHave(c.letters, mask, {}, i);
    }
  }

  /** What the parser does after a change. */
  function Going(rest: string, who: Word, initial: Word, next: Word): Outcome {
    if rest == "" then Mask(Flipped(next) * ALL)
    else if rest[0] == ',' then Clauses(rest[1..], initial, next)
    else if IsOperator(rest[0]) then Groups(rest, who, initial, next)
    else Invalid(Character(rest[0]))
  }

  lemma ChangeRead(c: Change, rest: string, who: Word, initial: Word, bits: Word)
    requires ChangeOk(c) && (rest == "" || !IsAction(rest[0]))
    ensures Groups([c.op] + (c.letters + rest), who, initial, bits) ==
            Going(rest, who, initial, ApplyBits(c.op, PermissionsOf(c.letters, initial, {}) * who, who, bits))
  {
    hide PermissionsOf, ApplyBits, Clauses, TakeActions;
    var text := [c.op] + (c.letters + rest);
    assert text[1..] == c.letters + rest;
    LettersTaken(c.letters, rest, initial, {});
  }

  lemma {:induction false} ChangesRead(todo: seq<Change>, rest: string, who: Word, bits: Word, parts: seq<Part>,
    classes: string, done: seq<Change>, mask: Word) returns (next: Word)
    requires todo != [] && (forall c | c in todo :: ChangeOk(c))
    requires rest == "" || (!IsAction(rest[0]) && !IsOperator(rest[0]))
    requires Holds(bits, parts, classes, done, mask) && ClassesAre(who, classes)
    ensures Holds(next, parts, classes, done + todo, mask)
    ensures Groups(ChangesText(todo) + rest, who, Flipped(mask) * ALL, bits) ==
            Going(rest, who, Flipped(mask) * ALL, next)
    decreases |todo|
  {
    hide PermissionsOf, ApplyBits, Holds, ClassesAre, Groups, Clauses, Flipped, ALL;
    var initial := Flipped(mask) * ALL;
    var c, more := todo[0], todo[1..];
    assert ChangeOk(c);
    next := ApplyBits(c.op, PermissionsOf(c.letters, initial, {}) * who, who, bits);
    ChangeHolds(bits, parts, classes, done, mask, c, who);
    if more == [] {
      assert ChangesText(todo) + rest == [c.op] + (c.letters + rest);
      assert todo == [c];
      ChangeRead(c, rest, who, initial, bits);
    } else {
      var tail := ChangesText(more) + rest;
      assert ChangesText(todo) + rest == [c.op] + (c.letters + tail);
      assert tail[0] == more[0].op && ChangeOk(more[0]);
      ChangeRead(c, tail, who, initial, bits);
      assert done + [c] + more == done + todo;
      next := ChangesRead(more, rest, who, next, parts, classes, done + [c], mask);
    }
  }

  lemma PartHolds(bits: Word, parts: seq<Part>, p: Part, mask: Word)
    requires Holds(bits, parts, p.classes, p.changes, mask)
    ensures Holds(bits, parts + [p], "", [], mask)
  {
    assert (parts + [p])[..|parts|] == parts;
  }

  lemma PartStarts(bits: Word, parts: seq<Part>, classes: string, mask: Word)
    requires Holds(bits, parts, "", [], mask)
    ensures Holds(bits, parts, classes, [], mask)
  {
  }

  lemma PartRead(p: Part, rest: string, bits: Word, parts: seq<Part>, mask: Word) returns (who: Word, next: Word)
    requires PartOk(p) && (rest == "" || (!IsAction(rest[0]) && !IsOperator(rest[0])))
    requires Holds(bits, parts, "", [], mask)
    ensures Holds(next, parts + [p], "", [], mask)
    ensures Clauses(PartText(p) + rest, Flipped(mask) * ALL, bits) == Going(rest, who, Flipped(mask) * ALL, next)
  {
    hide PermissionsOf, Holds, Groups, ClassesAre, TakeWho, Flipped, ALL;
    var text := ChangesText(p.changes) + rest;
    assert PartText(p) + rest == p.classes + text;
    assert ChangeOk(p.changes[0]) && text[0] == p.changes[0].op;
    ClassesMask(p.classes, text);
    var taken := TakeWho(p.classes + text, {}).0;
    who := if taken == {} then ALL else taken;
    PartStarts(bits, parts, p.classes, mask);
    next := ChangesRead(p.changes, rest, who, bits, parts, p.classes, [], mask);
    assert [] + p.changes == p.changes;
    PartHolds(next, parts, p, mask);
  }

  function Prefix(parts: seq<Part>): string { if parts == [] then "" else ModeText(parts) + "," }

  /** Parts that a comma ends are taken off the text. */
  lemma {:induction false} PartsRead(todo: seq<Part>, rest: string, bits: Word, parts: seq<Part>, mask: Word)
    returns (next: Word)
    requires forall p | p in todo :: PartOk(p)
    requires Holds(bits, parts, "", [], mask)
    ensures Holds(next, parts + todo, "", [], mask)
    ensures Clauses(Prefix(todo) + rest, Flipped(mask) * ALL, bits) == Clauses(rest, Flipped(mask) * ALL, next)
    decreases |todo|
  {
    hide Holds, Clauses, PartText, PartOk, Flipped, ALL;
    if todo == [] {
      next := bits;
      assert Prefix(todo) + rest == rest && parts + todo == parts;
    } else {
      var p, more := todo[0], todo[1..];
      var tail := "," + (Prefix(more) + rest);
      assert Prefix(todo) + rest == PartText(p) + tail by { PrefixFirst(todo, rest); }
      assert PartOk(p);
      var who;
      who, next := PartRead(p, tail, bits, parts, mask);
      assert tail[1..] == Prefix(more) + rest;
      assert parts + [p] + more == parts + todo;
      next := PartsRead(more, rest, next, parts + [p], mask);
    }
  }

  lemma PrefixFirst(todo: seq<Part>, rest: string)
    requires todo != []
    ensures Prefix(todo) + rest == PartText(todo[0]) + ("," + (Prefix(todo[1..]) + rest))
  {
    hide PartText;
  }

  lemma StartHolds(mask: Word)
    ensures Holds(Flipped(mask) * ALL, [], "", [], mask)
  {
  }

  lemma {:induction false} LastPart(parts: seq<Part>)
    requires parts != []
    ensures ModeText(parts) == Prefix(parts[..|parts| - 1]) + PartText(parts[|parts| - 1])
    decreases |parts|
  {
    hide PartText;
    if |parts| > 1 {
      var tail := parts[1..];
      LastPart(tail);
      assert tail[..|tail| - 1] == parts[1..|parts| - 1];
      PrefixFirst(parts[..|parts| - 1], PartText(parts[|parts| - 1]));
      assert parts[..|parts| - 1][1..] == tail[..|tail| - 1];
    }
  }

  /** Reading a whole mode and what stands behind it. */
  lemma ModeRead(parts: seq<Part>, rest: string, mask: Word) returns (who: Word, next: Word)
    requires parts != [] && (forall p | p in parts :: PartOk(p))
    requires rest == "" || (!IsAction(rest[0]) && !IsOperator(rest[0]))
    ensures Holds(next, parts, "", [], mask)
    ensures Parse(ModeText(parts) + rest, mask) == Going(rest, who, Flipped(mask) * ALL, next)
  {
    hide Holds, Clauses, PartText, PartOk, Flipped, ALL;
    var n := |parts| - 1;
    LastPart(parts);
    assert ModeText(parts) + rest == Prefix(parts[..n]) + (PartText(parts[n]) + rest);
    StartHolds(mask);
    assert forall p | p in parts[..n] :: p in parts;
    next := PartsRead(parts[..n], PartText(parts[n]) + rest, Flipped(mask) * ALL, [], mask);
    assert [] + parts[..n] == parts[..n] && parts[..n] + [parts[n]] == parts;
    assert parts[n] in parts;
    who, next := PartRead(parts[n], rest, next, parts[..n], mask);
  }

  // ----- What a mode does

  /** Every written mode is accepted, and the new mask has exactly the bits of the nine that are not permitted after all
      of its changes. */
  lemma ModeBits(parts: seq<Part>, mask: Word)
    requires parts != [] && forall p | p in parts :: PartOk(p)
    ensures Parse(ModeText(parts), mask).Mask?
    ensures forall i: nat :: i in Parse(ModeText(parts), mask).mask <==> i < 9 && !AfterParts(parts, mask, i)
  {
    hide Clauses, PartOk, PartText, Groups, AfterParts, Parse;
    var who, next := ModeRead(parts, "", mask);
    assert ModeText(parts) + "" == ModeText(parts);
  }

  /** Where an operator should stand, its absence is the error. */
  lemma NoOperator(parts: seq<Part>, classes: string, rest: string, mask: Word)
    requires (forall p | p in parts :: PartOk(p)) && ClassesOk(classes)
    requires rest == "" || rest[0] !in {'u', 'g', 'o', 'a', '+', '-', '='}
    ensures Parse(Prefix(parts) + (classes + rest), mask) == Invalid(Operator(if rest == "" then '\0' else rest[0]))
  {
    hide Holds, PartOk, PartText, TakeWho, Concerned, Flipped, ALL;
    StartHolds(mask);
    var next := PartsRead(parts, classes + rest, Flipped(mask) * ALL, [], mask);
    ClassesTaken(classes, rest, {});
  }

  /** Behind letters only an operator, a comma or the end may come. */
  lemma StrangeCharacter(parts: seq<Part>, rest: string, mask: Word)
    requires parts != [] && forall p | p in parts :: PartOk(p)
    requires rest != "" && rest[0] !in {'r', 'w', 'x', 'X', 's', 't', 'u', 'g', 'o', '+', '-', '=', ','}
    ensures Parse(ModeText(parts) + rest, mask) == Invalid(Character(rest[0]))
  {
    hide Clauses, PartOk, PartText, Groups, AfterParts, Parse, Holds, Flipped, ALL;
    var who, next := ModeRead(parts, rest, mask);
  }

  // ----- Every text is of one of the three shapes

  lemma {:induction false} FirstClasses(text: string) returns (classes: string, rest: string)
    ensures text == classes + rest && ClassesOk(classes) && (rest == "" || rest[0] !in {'u', 'g', 'o', 'a'})
  {
    classes, rest := "", text;
    if text != "" && text[0] in {'u', 'g', 'o', 'a'} {
      var more;
      more, rest := FirstClasses(text[1..]);
      classes := [text[0]] + more;
    }
  }

  lemma {:induction false} FirstLetters(text: string) returns (letters: string, rest: string)
    ensures text == letters + rest && (rest == "" || !IsAction(rest[0]))
    ensures forall a | a in letters :: a in {'r', 'w', 'x', 'X', 's', 't', 'u', 'g', 'o'}
  {
    letters, rest := "", text;
    if text != "" && IsAction(text[0]) {
      var more;
      more, rest := FirstLetters(text[1..]);
      letters := [text[0]] + more;
    }
  }

  lemma {:induction false} FirstChanges(text: string) returns (cs: seq<Change>, rest: string)
    ensures text == ChangesText(cs) + rest && forall c | c in cs :: ChangeOk(c)
    ensures rest == "" || (!IsOperator(rest[0]) && (cs == [] || !IsAction(rest[0])))
    decreases |text|
  {
    cs, rest := [], text;
    if text != "" && IsOperator(text[0]) {
      var letters, tail := FirstLetters(text[1..]);
      var more;
      assert |text[1..]| == |letters| + |tail|;
      more, rest := FirstChanges(tail);
      var c := Change(text[0], letters);
      cs := [c] + more;
      assert ChangeOk(c) && cs[1..] == more;
      assert text == [c.op] + (letters + (ChangesText(more) + rest));
    }
  }

  predicate Whole(text: string, parts: seq<Part>) { parts != [] && text == ModeText(parts) }

  predicate LacksOperator(text: string, parts: seq<Part>, classes: string, rest: string) {
    && text == Prefix(parts) + (classes + rest) && ClassesOk(classes)
    && (rest == "" || rest[0] !in {'u', 'g', 'o', 'a', '+', '-', '='})
  }

  predicate EndsStrangely(text: string, parts: seq<Part>, rest: string) {
    && parts != [] && text == ModeText(parts) + rest
    && rest != "" && rest[0] !in {'r', 'w', 'x', 'X', 's', 't', 'u', 'g', 'o', '+', '-', '=', ','}
  }

  /** The three cases above leave nothing out. */
  lemma {:induction false} Shapes(text: string) returns (parts: seq<Part>, classes: string, rest: string)
    ensures forall p | p in parts :: PartOk(p)
    ensures Whole(text, parts) || LacksOperator(text, parts, classes, rest) || EndsStrangely(text, parts, rest)
    decreases |text|
  {
    hide PartText, PartOk;
    var tail;
    classes, tail := FirstClasses(text);
    var cs;
    cs, rest := FirstChanges(tail);
    if cs == [] {
      parts := [];
      assert ChangesText([]) + rest == rest && Prefix([]) + text == text;
    } else {
      var p := Part(classes, cs);
      assert PartOk(p) && text == PartText(p) + rest by { FirstPart(text, classes, cs, rest); }
      parts := [p];
      if rest != "" && rest[0] == ',' {
        var others, c, r := Shapes(rest[1..]);
        parts, classes, rest := [p] + others, c, r;
        Carried(text, p, others, c, r);
      }
    }
  }

  lemma FirstPart(text: string, classes: string, cs: seq<Change>, rest: string)
    requires text == classes + (ChangesText(cs) + rest) && ClassesOk(classes)
    requires cs != [] && forall c | c in cs :: ChangeOk(c)
    ensures PartOk(Part(classes, cs)) && text == PartText(Part(classes, cs)) + rest
  {
  }

  lemma Carried(text: string, p: Part, others: seq<Part>, classes: string, rest: string)
    requires |text| > |PartText(p)| && text[..|PartText(p)| + 1] == PartText(p) + ","
    ensures var tail := text[|PartText(p)| + 1..];
            && (Whole(tail, others) ==> Whole(text, [p] + others))
            && (LacksOperator(tail, others, classes, rest) ==> LacksOperator(text, [p] + others, classes, rest))
            && (EndsStrangely(tail, others, rest) ==> EndsStrangely(text, [p] + others, rest))
  {
    hide PartText;
    var tail := text[|PartText(p)| + 1..];
    var parts := [p] + others;
    assert text == PartText(p) + ("," + tail) && parts[1..] == others;
    PrefixFirst(parts, classes + rest);
    assert others != [] ==> ModeText(parts) == PartText(p) + ("," + ModeText(others));
  }

  // ----- The symbolic form

  function Shown(bit: nat, letter: char, mask: Word): string { if bit in mask then "" else [letter] }

  lemma ClassShown(bits: Word, mask: Word, low: nat)
    requires forall k: nat | k < 3 :: k in bits <==> low + k !in mask
    ensures ClassText(bits) == Shown(low + 2, 'r', mask) + Shown(low + 1, 'w', mask) + Shown(low, 'x', mask)
  {
    assert 2 in bits <==> low + 2 !in mask;
    assert 1 in bits <==> low + 1 !in mask;
    assert 0 in bits <==> low + 0 !in mask;
  }

  lemma NineLetters(a: string, b: string, c: string, d: string, e: string, f: string, g: string, h: string, i: string)
    ensures "u=" + (a + b + c) + ",g=" + (d + e + f) + ",o=" + (g + h + i) ==
            "u=" + a + b + c + ",g=" + d + e + f + ",o=" + g + h + i
  {
  }

  /** The symbolic form shows what the mask does not take away. */
  lemma SymbolicIs(mask: Word)
    ensures SymbolicMask(mask) ==
            "u=" + Shown(8, 'r', mask) + Shown(7, 'w', mask) + Shown(6, 'x', mask) +
            ",g=" + Shown(5, 'r', mask) + Shown(4, 'w', mask) + Shown(3, 'x', mask) +
            ",o=" + Shown(2, 'r', mask) + Shown(1, 'w', mask) + Shown(0, 'x', mask)
  {
    var allowed := Flipped(mask) * ALL;
    forall i: nat | i < 9 ensures i in allowed <==> i !in mask { PermittedAtFirst(mask, i); }
    assert forall i: nat | i < 3 :: 6 + i in USERS && 3 + i in GROUPS && i in OTHERS;
    hide Flipped, ALL, USERS, GROUPS, OTHERS, Shown, ClassText;
    Shifted(allowed * USERS, 6);
    Shifted(allowed * GROUPS, 3);
    ClassShown(ShiftedDown(allowed * USERS, 6), mask, 6);
    ClassShown(ShiftedDown(allowed * GROUPS, 3), mask, 3);
    ClassShown(allowed * OTHERS, mask, 0);
    NineLetters(Shown(8, 'r', mask), Shown(7, 'w', mask), Shown(6, 'x', mask), Shown(5, 'r', mask), Shown(4, 'w', mask),
            Shown(3, 'x', mask), Shown(2, 'r', mask), Shown(1, 'w', mask), Shown(0, 'x', mask));
  }

  /** The usual mask of 022. */
  lemma UsualMask()
    ensures SymbolicMask({4, 1}) == "u=rwx,g=rx,o=rx"
  {
    SymbolicIs({4, 1});
  }
}
