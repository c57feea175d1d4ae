/** The symbolic mode language of the `umask` builtin. */
module Umask {

  /** A machine word as the set of the positions of its one bits. */
  type Word = set<nat>

  const WORD: Word := set i: nat | i < 32

  function Flipped(w: Word): Word { WORD - w }

  /** The nine permission bits: execute, write and read at 0, 1, 2 for others, at 3, 4, 5 for the group, at 6, 7, 8
      for the user. */
  const ALL: Word := {8, 7, 6, 5, 4, 3, 2, 1, 0}
  const USERS: Word := {8, 7, 6}
  const GROUPS: Word := {5, 4, 3}
  const OTHERS: Word := {2, 1, 0}
  const READS: Word := {8, 5, 2}
  const WRITES: Word := {7, 4, 1}
  const EXECS: Word := {6, 3, 0}

  datatype ModeError = Operator(c: char) | Character(c: char)

  datatype Outcome = Mask(mask: Word) | Invalid(error: ModeError)

  // ----- The parser, on bits

  function WhoBits(c: char): Word {
    match c
    case 'u' => USERS
    case 'g' => GROUPS
    case 'o' => OTHERS
    case _ => ALL
  }

  predicate IsWho(c: char) { c == 'u' || c == 'g' || c == 'o' || c == 'a' }

  predicate IsOperator(c: char) { c == '+' || c == '-' || c == '=' }

  predicate IsAction(c: char) {
    c == 'u' || c == 'g' || c == 'o' || c == 'r' || c == 'w' || c == 'x' || c == 'X' || c == 's' || c == 't'
  }

  /** The permissions of one class, given by its three bits, for all classes. */
  function CopyBits(initial: Word, read: nat, write: nat, exec: nat): Word {
    (if read in initial then READS else {}) + (if write in initial then WRITES else {})
      + (if exec in initial then EXECS else {})
  }

  /** Copies replace what was collected before; the other letters add to it. */
  function ActionBits(initial: Word, perm: Word, c: char): Word {
    match c
    case 'u' => CopyBits(initial, 8, 7, 6)
    case 'g' => CopyBits(initial, 5, 4, 3)
    case 'o' => CopyBits(initial, 2, 1, 0)
    case 'r' => perm + READS
    case 'w' => perm + WRITES
    case 'X' => if initial * EXECS != {} then perm + EXECS else perm
    case 'x' => perm + EXECS
    case 's' => perm + {11, 10}
    case _ => perm + {9}
  }

  function ApplyBits(op: char, perm: Word, who: Word, bits: Word): Word {
    match op
    case '+' => bits + perm
    case '-' => bits * Flipped(perm)
    case _ => bits * Flipped(who) + perm
  }

  function TakeWho(text: string, who: Word): (r: (Word, string))
    ensures |r.1| <= |text|
  {
    if text != "" && IsWho(text[0]) then TakeWho(text[1..], who + WhoBits(text[0])) else (who, text)
  }

  function TakeActions(text: string, initial: Word, perm: Word): (r: (Word, string))
    ensures |r.1| <= |text|
  {
    if text != "" && IsAction(text[0]) then TakeActions(text[1..], initial, ActionBits(initial, perm, text[0]))
    else (perm, text)
  }

  function Clauses(text: string, initial: Word, bits: Word): Outcome
    decreases |text|, 1
  {
    var (who, rest) := TakeWho(text, {});
    Groups(rest, if who == {} then ALL else who, initial, bits)
  }

  function Groups(text: string, who: Word, initial: Word, bits: Word): Outcome
    decreases |text|, 0
  {
    if text == "" then Invalid(Operator('\0'))
    else if !IsOperator(text[0]) then Invalid(Operator(text[0]))
    else
      var (perm, rest) := TakeActions(text[1..], initial, {});
      var next := ApplyBits(text[0], perm * who, who, bits);
      if rest == "" then Mask(Flipped(next) * ALL)
      else if rest[0] == ',' then Clauses(rest[1..], initial, next)
      else if IsOperator(rest[0]) then Groups(rest, who, initial, next)
      else Invalid(Character(rest[0]))
  }

  function Parse(mode: string, currentMask: Word): Outcome {
    var initial := Flipped(currentMask) * ALL;
    Clauses(mode, initial, initial)
  }

  /** Each class gets exactly the permissions that the given bits of one class stand for. */
  method CopyClass(initial: Word, read: nat, write: nat, exec: nat) returns (bits: Word)
    ensures forall i: nat :: i in bits <==> i < 9 && [exec, write, read][i % 3] in initial
  {
    bits := {};
    if read in initial { bits := bits + READS; }
    if write in initial { bits := bits + WRITES; }
    if exec in initial { bits := bits + EXECS; }
  }

  lemma CopyBitsHas(initial: Word, read: nat, write: nat, exec: nat, i: nat)
    ensures i in CopyBits(initial, read, write, exec) <==> i < 9 && [exec, write, read][i % 3] in initial
  {
  }

  lemma CopiesAre(initial: Word, read: nat, write: nat, exec: nat, bits: Word)
    requires forall i: nat :: i in bits <==> i < 9 && [exec, write, read][i % 3] in initial
    ensures bits == CopyBits(initial, read, write, exec)
  {
    hide CopyBits;
    forall i: nat ensures i in bits <==> i in CopyBits(initial, read, write, exec) {
      CopyBitsHas(initial, read, write, exec, i);
    }
  }

  /** The permissions of a class whose bits have been shifted down to positions 0, 1 and 2. */
  function ClassText(bits: Word): string {
    (if 2 in bits then "r" else "") + (if 1 in bits then "w" else "") + (if 0 in bits then "x" else "")
  }

  /** The letters of a class: those of its permissions, each once and in ascending order. */
  predicate Lists(permissions: string, bits: Word) {
    && (forall c :: c in permissions <==> (c == 'r' && 2 in bits) || (c == 'w' && 1 in bits) || (c == 'x' && 0 in bits))
    && (forall i, j | 0 <= i < j < |permissions| :: permissions[i] < permissions[j])
  }

  method ClassPermissions(bits: Word) returns (permissions: string)
    ensures Lists(permissions, bits)
  {
    permissions := "";
    if 2 in bits { permissions := permissions + "r"; }
    if 1 in bits { permissions := permissions + "w"; }
    if 0 in bits { permissions := permissions + "x"; }
  }

  lemma {:induction false} AscendingUnique(a: string, b: string)
    requires forall i, j | 0 <= i < j < |a| :: a[i] < a[j]
    requires forall i, j | 0 <= i < j < |b| :: b[i] < b[j]
    requires forall c :: c in a <==> c in b
    ensures a == b
  {
    assert a != "" ==> a[0] in b;
    assert b != "" ==> b[0] in a;
    if a != "" {
      assert a[0] == b[0];
      forall c ensures c in a[1..] <==> c in b[1..] {
        assert c in a <==> c == a[0] || c in a[1..] by { assert a == [a[0]] + a[1..]; }
        assert c in b <==> c == b[0] || c in b[1..] by { assert b == [b[0]] + b[1..]; }
      }
      AscendingUnique(a[1..], b[1..]);
      assert a == [a[0]] + a[1..] && b == [b[0]] + b[1..];
    }
  }

  /** Such a list is the one that the symbolic form shows. */
  lemma ListedIs(permissions: string, bits: Word)
    ensures Lists(permissions, bits) <==> permissions == ClassText(bits)
  {
    if Lists(permissions, bits) { AscendingUnique(permissions, ClassText(bits)); }
  }

  function ShiftedDown(w: Word, by_: nat): Word { set i | i in w && i >= by_ :: i - by_ }

  function SymbolicMask(mask: Word): string {
    var allowed := Flipped(mask) * ALL;
    "u=" + ClassText(ShiftedDown(allowed * USERS, 6)) + ",g=" + ClassText(ShiftedDown(allowed * GROUPS, 3))
      + ",o=" + ClassText(allowed * OTHERS)
  }

  method PrintSymbolicMask(mask: Word) returns (text: string)
    ensures text == SymbolicMask(mask)
  {
    var allowed := Flipped(mask) * ALL;
    var user := ClassPermissions(ShiftedDown(allowed * USERS, 6));
    var group := ClassPermissions(ShiftedDown(allowed * GROUPS, 3));
    var other := ClassPermissions(allowed * OTHERS);
    hide Lists, ClassText, ShiftedDown, Flipped;
    ListedIs(user, ShiftedDown(allowed * USERS, 6));
    ListedIs(group, ShiftedDown(allowed * GROUPS, 3));
    ListedIs(other, allowed * OTHERS);
    text := "u=" + user + ",g=" + group + ",o=" + other;
  }

  method ParseWho(mode: string, start: nat) returns (who: Word, s: nat)
    requires start <= |mode|
    ensures start <= s <= |mode| && TakeWho(mode[start..], {}) == (who, mode[s..])
  {
    who, s := {}, start;
    while s < |mode| && IsWho(mode[s])
      invariant start <= s <= |mode| && TakeWho(mode[s..], who) == TakeWho(mode[start..], {})
    {
      assert mode[s..][1..] == mode[s + 1..];
      who := who + WhoBits(mode[s]);
      s := s + 1;
    }
  }

  lemma ActionCopies(initial: Word, perm: Word)
    ensures ActionBits(initial, perm, 'u') == CopyBits(initial, 8, 7, 6)
    ensures ActionBits(initial, perm, 'g') == CopyBits(initial, 5, 4, 3)
    ensures ActionBits(initial, perm, 'o') == CopyBits(initial, 2, 1, 0)
  {
  }

  method ParseActions(mode: string, start: nat, initial: Word) returns (perm: Word, s: nat)
    requires start <= |mode|
    ensures start <= s <= |mode| && TakeActions(mode[start..], initial, {}) == (perm, mode[s..])
  {
    hide ActionBits, CopyBits;
    perm, s := {}, start;
    while s < |mode| && IsAction(mode[s])
      invariant start <= s <= |mode| && TakeActions(mode[s..], initial, perm) == TakeActions(mode[start..], initial, {})
    {
      assert mode[s..][1..] == mode[s + 1..];
      ActionCopies(initial, perm);
      match mode[s] {
        case 'u' =>
          perm := CopyClass(initial, 8, 7, 6);
          CopiesAre(initial, 8, 7, 6, perm);
        case 'g' =>
          perm := CopyClass(initial, 5, 4, 3);
          CopiesAre(initial, 5, 4, 3, perm);
        case 'o' =>
          perm := CopyClass(initial, 2, 1, 0);
          CopiesAre(initial, 2, 1, 0, perm);
        case c => perm := ActionBits(initial, perm, c);
      }
      s := s + 1;
    }
  }

  method ParseSymbolicMask(mode: string, currentMask: Word) returns (r: Outcome)
    ensures r == Parse(mode, currentMask)
  {
    hide TakeWho, TakeActions, ApplyBits, Flipped;
    var initial := Flipped(currentMask) * ALL;
    var bits, s := initial, 0;
    assert mode[0..] == mode;
    while true
      invariant s <= |mode| && Clauses(mode[s..], initial, bits) == Parse(mode, currentMask)
      decreases |mode| - s
    {
      ghost var clause := s;
      var who;
      who, s := ParseWho(mode, s);
      if who == {} { who := ALL; }

      var more := true;
      while more
        invariant clause <= s <= |mode| && (!more ==> clause < s)
        invariant more ==> Groups(mode[s..], who, initial, bits) == Parse(mode, currentMask)
        invariant !more ==> Clauses(mode[s..], initial, bits) == Parse(mode, currentMask)
        decreases more, |mode| - s
      {
        var op := if s < |mode| then mode[s] else '\0';
        if !IsOperator(op) { return Invalid(Operator(op)); }
        assert mode[s..][1..] == mode[s + 1..];
        var perm;
        perm, s := ParseActions(mode, s + 1, initial);
        bits := ApplyBits(op, perm * who, who, bits);
        if s == |mode| { return Mask(Flipped(bits) * ALL); }
        assert mode[s..][0] == mode[s] && mode[s..][1..] == mode[s + 1..];
        if mode[s] == ',' {
          s, more := s + 1, false;
        } else if !IsOperator(mode[s]) {
          return Invalid(Character(mode[s]));
        }
      }
    }
  }

  // ----- The language, on classes and permissions

  datatype Kinds = Kinds(r: bool, w: bool, x: bool)

  datatype Rights = Rights(u: Kinds, g: Kinds, o: Kinds)

  datatype Who = User | Group | Other | Everyone

  datatype Op = Allow | Deny | Assign

  datatype Action = CopyUser | CopyGroup | CopyOther | Read | Write | Exec | ExecIfAny | SetId | Sticky

  datatype ActionGroup = ActionGroup(op: Op, actions: seq<Action>)

  datatype Clause = Clause(who: seq<Who>, groups: seq<ActionGroup>)

  const NOTHING := Kinds(false, false, false)

  function Wanted(initial: Rights, k: Kinds, a: Action): Kinds {
    match a
    case CopyUser => initial.u
    case CopyGroup => initial.g
    case CopyOther => initial.o
    case Read => k.(r := true)
    case Write => k.(w := true)
    case Exec => k.(x := true)
    case ExecIfAny => if initial.u.x || initial.g.x || initial.o.x then k.(x := true) else k
    case SetId => k
    case Sticky => k
  }

  function AllWanted(initial: Rights, k: Kinds, actions: seq<Action>): Kinds
    decreases |actions|
  {
    if actions == [] then k else AllWanted(initial, Wanted(initial, k, actions[0]), actions[1..])
  }

  function Changed(op: Op, have: Kinds, k: Kinds): Kinds {
    match op
    case Allow => Kinds(have.r || k.r, have.w || k.w, have.x || k.x)
    case Deny => Kinds(have.r && !k.r, have.w && !k.w, have.x && !k.x)
    case Assign => k
  }

  /** The classes a clause is about; without any letter it is about all of them. */
  predicate Concerns(who: seq<Who>, class_: Who) { who == [] || class_ in who || Everyone in who }

  function ChangedRights(who: seq<Who>, op: Op, rights: Rights, k: Kinds): Rights {
    Rights(if Concerns(who, User) then Changed(op, rights.u, k) else rights.u,
           if Concerns(who, Group) then Changed(op, rights.g, k) else rights.g,
           if Concerns(who, Other) then Changed(op, rights.o, k) else rights.o)
  }

  function GroupsMeaning(who: seq<Who>, groups: seq<ActionGroup>, initial: Rights, rights: Rights): Rights
    decreases |groups|
  {
    if groups == [] then rights
    else
      var k := AllWanted(initial, NOTHING, groups[0].actions);
      GroupsMeaning(who, groups[1..], initial, ChangedRights(who, groups[0].op, rights, k))
  }

  /** Clauses take effect in order; copies always read the rights there were at the start. */
  function Meaning(clauses: seq<Clause>, initial: Rights, rights: Rights): Rights
    decreases |clauses|
  {
    if clauses == [] then rights
    else Meaning(clauses[1..], initial, GroupsMeaning(clauses[0].who, clauses[0].groups, initial, rights))
  }

  // ----- Their text

  function WhoChar(w: Who): char {
    match w
    case User => 'u'
    case Group => 'g'
    case Other => 'o'
    case Everyone => 'a'
  }

  function OpChar(op: Op): char {
    match op
    case Allow => '+'
    case Deny => '-'
    case Assign => '='
  }

  function ActionChar(a: Action): char {
    match a
    case CopyUser => 'u'
    case CopyGroup => 'g'
    case CopyOther => 'o'
    case Read => 'r'
    case Write => 'w'
    case Exec => 'x'
    case ExecIfAny => 'X'
    case SetId => 's'
    case Sticky => 't'
  }

  function WhoText(who: seq<Who>): string { seq(|who|, i requires 0 <= i < |who| => WhoChar(who[i])) }

  function ActionsText(actions: seq<Action>): string {
    seq(|actions|, i requires 0 <= i < |actions| => ActionChar(actions[i]))
  }

  function GroupsText(groups: seq<ActionGroup>): string {
    if groups == [] then "" else [OpChar(groups[0].op)] + ActionsText(groups[0].actions) + GroupsText(groups[1..])
  }

  function ClauseText(c: Clause): string { WhoText(c.who) + GroupsText(c.groups) }

  function Text(clauses: seq<Clause>): string {
    if clauses == [] then ""
    else if |clauses| == 1 then ClauseText(clauses[0])
    else ClauseText(clauses[0]) + "," + Text(clauses[1..])
  }

  predicate Proper(clauses: seq<Clause>) { clauses != [] && forall c | c in clauses :: c.groups != [] }

  // ----- Bits and rights

  function Spread(k: Kinds): Word {
    (if k.r then READS else {}) + (if k.w then WRITES else {}) + (if k.x then EXECS else {})
  }

  function WhoMask(who: seq<Who>): Word {
    (if Concerns(who, User) then USERS else {}) + (if Concerns(who, Group) then GROUPS else {})
      + (if Concerns(who, Other) then OTHERS else {})
  }

  function Encoded(r: Rights): Word { Spread(r.u) * USERS + Spread(r.g) * GROUPS + Spread(r.o) * OTHERS }

  function RightsOf(bits: Word): Rights {
    Rights(Kinds(8 in bits, 7 in bits, 6 in bits), Kinds(5 in bits, 4 in bits, 3 in bits),
      Kinds(2 in bits, 1 in bits, 0 in bits))
  }

  function Others(k: Kinds): Kinds { Kinds(!k.r, !k.w, !k.x) }

  /** What a mask takes away is what the rights leave out. */
  function Complement(r: Rights): Rights { Rights(Others(r.u), Others(r.g), Others(r.o)) }

  predicate HasBit(r: Rights, i: nat) {
    match i
    case 8 => r.u.r
    case 7 => r.u.w
    case 6 => r.u.x
    case 5 => r.g.r
    case 4 => r.g.w
    case 3 => r.g.x
    case 2 => r.o.r
    case 1 => r.o.w
    case 0 => r.o.x
    case _ => false
  }

  lemma SpreadHas(k: Kinds, i: nat)
    ensures i in Spread(k) <==> (k.r && (i == 8 || i == 5 || i == 2)) || (k.w && (i == 7 || i == 4 || i == 1))
                                || (k.x && (i == 6 || i == 3 || i == 0))
  {
  }

  lemma EncodedHas(r: Rights, i: nat)
    ensures i in Encoded(r) <==> HasBit(r, i)
  {
    hide Spread;
    SpreadHas(r.u, i);
    SpreadHas(r.g, i);
    SpreadHas(r.o, i);
  }

  lemma EncodedTests(r: Rights)
    ensures RightsOf(Encoded(r)) == r
  {
    hide Encoded;
    EncodedHas(r, 8);
    EncodedHas(r, 7);
    EncodedHas(r, 6);
    EncodedHas(r, 5);
    EncodedHas(r, 4);
    EncodedHas(r, 3);
    EncodedHas(r, 2);
    EncodedHas(r, 1);
    EncodedHas(r, 0);
  }

  lemma RightsEncoded(r: Rights)
    ensures Encoded(r) * ALL == Encoded(r) && Flipped(Encoded(r)) * ALL == Encoded(Complement(r))
  {
    hide Encoded;
    forall i: nat
      ensures i in Encoded(r) ==> i in ALL
      ensures i in Flipped(Encoded(r)) * ALL <==> i in Encoded(Complement(r))
    {
      EncodedHas(r, i);
      EncodedHas(Complement(r), i);
    }
  }

  lemma EncodedRights(bits: Word)
    ensures Encoded(RightsOf(bits)) == bits * ALL
  {
    hide Encoded;
    forall i: nat ensures i in Encoded(RightsOf(bits)) <==> i in bits * ALL { EncodedHas(RightsOf(bits), i); }
  }

  // ----- The parser computes the meaning

  lemma WhoMaskHas(who: seq<Who>, i: nat)
    ensures i in WhoMask(who) <==>
              (6 <= i < 9 && Concerns(who, User)) || (3 <= i < 6 && Concerns(who, Group)) ||
              (i < 3 && Concerns(who, Other))
  {
    hide Concerns;
  }

  lemma OpStep(who: seq<Who>, op: Op, r: Rights, k: Kinds, perm: Word)
    requires perm * ALL == Spread(k)
    ensures ApplyBits(OpChar(op), perm * WhoMask(who), WhoMask(who), Encoded(r)) ==
              Encoded(ChangedRights(who, op, r, k))
  {
    hide Concerns, Encoded, WhoMask, Spread;
    var after := ChangedRights(who, op, r, k);
    forall i: nat
      ensures i in ApplyBits(OpChar(op), perm * WhoMask(who), WhoMask(who), Encoded(r)) <==> i in Encoded(after)
    {
      EncodedHas(r, i);
      EncodedHas(after, i);
      WhoMaskHas(who, i);
      SpreadHas(k, i);
      assert i in perm * ALL <==> i in Spread(k);
    }
  }

  lemma AnyExec(bits: Word)
    ensures bits * EXECS != {} <==> 6 in bits || 3 in bits || 0 in bits
  {
    if i: nat :| i in bits * EXECS { assert i == 6 || i == 3 || i == 0; }
    if 6 in bits { assert 6 in bits * EXECS; }
    if 3 in bits { assert 3 in bits * EXECS; }
    if 0 in bits { assert 0 in bits * EXECS; }
  }

  lemma ActionStep(initial: Rights, k: Kinds, perm: Word, a: Action)
    requires perm * ALL == Spread(k)
    ensures ActionBits(Encoded(initial), perm, ActionChar(a)) * ALL == Spread(Wanted(initial, k, a))
  {
    hide Encoded, Spread;
    EncodedTests(initial);
    var bits := ActionBits(Encoded(initial), perm, ActionChar(a));
    var after := Wanted(initial, k, a);
    if a.ExecIfAny? {
      AnyExec(Encoded(initial));
    }
    forall i: nat ensures i in bits * ALL <==> i in Spread(after) {
      assert i in perm * ALL <==> i in Spread(k);
      SpreadHas(k, i);
      SpreadHas(after, i);
    }
  }

  lemma {:induction false} ActionsRead(actions: seq<Action>, rest: string, initial: Rights, k: Kinds, perm: Word)
    requires perm * ALL == Spread(k) && (rest == "" || !IsAction(rest[0]))
    ensures var r := TakeActions(ActionsText(actions) + rest, Encoded(initial), perm);
            r.1 == rest && r.0 * ALL == Spread(AllWanted(initial, k, actions))
    decreases |actions|
  {
    hide ActionBits, Spread, Encoded;
    if actions == [] {
      assert ActionsText(actions) + rest == rest;
    } else {
      var a := actions[0];
      var text := ActionsText(actions) + rest;
      assert text[0] == ActionChar(a) && text[1..] == ActionsText(actions[1..]) + rest;
      ActionStep(initial, k, perm, a);
      ActionsRead(actions[1..], rest, initial, Wanted(initial, k, a),
        ActionBits(Encoded(initial), perm, ActionChar(a)));
    }
  }

  /** The classes the letters name, without the default. */
  function Named(who: seq<Who>): Word {
    if who == [] then {} else WhoBits(WhoChar(who[0])) + Named(who[1..])
  }

  lemma {:induction false} WhoRead(who: seq<Who>, rest: string, bits: Word)
    requires rest == "" || !IsWho(rest[0])
    ensures TakeWho(WhoText(who) + rest, bits) == (bits + Named(who), rest)
    decreases |who|
  {
    if who == [] {
      assert WhoText(who) + rest == rest;
      assert bits + {} == bits;
    } else {
      var text := WhoText(who) + rest;
      assert text[0] == WhoChar(who[0]) && text[1..] == WhoText(who[1..]) + rest;
      WhoRead(who[1..], rest, bits + WhoBits(text[0]));
      assert bits + WhoBits(text[0]) + Named(who[1..]) == bits + Named(who);
    }
  }

  lemma {:induction false} NamedClasses(who: seq<Who>, i: nat)
    ensures i in Named(who) <==>
              (i in USERS && (User in who || Everyone in who)) || (i in GROUPS && (Group in who || Everyone in who))
                                 || (i in OTHERS && (Other in who || Everyone in who))
  {
    if who != [] { NamedClasses(who[1..], i); }
  }

  /** The default of no letter is everyone. */
  lemma WhoBitsRead(who: seq<Who>)
    ensures (if Named(who) == {} then ALL else Named(who)) == WhoMask(who)
  {
    if who == [] {
      assert WhoMask(who) == ALL;
    } else {
      forall i: nat ensures i in Named(who) <==> i in WhoMask(who) { NamedClasses(who, i); }
      assert who[0] in who && 8 in USERS && 5 in GROUPS && 2 in OTHERS;
      NamedClasses(who, 8);
      NamedClasses(who, 5);
      NamedClasses(who, 2);
    }
  }

  /** What is left of a mode after some of its groups. */
  function Remainder(more: seq<Clause>): string { if more == [] then "" else "," + Text(more) }

  /** One operator and its actions, with whatever follows. */
  lemma {:induction false} GroupRead(who: seq<Who>, group: ActionGroup, rest: string, initial: Rights, rights: Rights)
    requires rest == "" || !IsAction(rest[0])
    ensures var text := [OpChar(group.op)] + ActionsText(group.actions) + rest;
            var next := ChangedRights(who, group.op, rights, AllWanted(initial, NOTHING, group.actions));
            Groups(text, WhoMask(who), Encoded(initial), Encoded(rights)) ==
            if rest == "" then Mask(Flipped(Encoded(next)) * ALL)
            else if rest[0] == ',' then Clauses(rest[1..], Encoded(initial), Encoded(next))
            else if IsOperator(rest[0]) then Groups(rest, WhoMask(who), Encoded(initial), Encoded(next))
            else Invalid(Character(rest[0]))
  {
    hide WhoMask, Encoded, ApplyBits, ActionBits, Spread, Clauses, ChangedRights, AllWanted, ActionsText, TakeActions;
    var text := [OpChar(group.op)] + ActionsText(group.actions) + rest;
    assert text[0] == OpChar(group.op) && text[1..] == ActionsText(group.actions) + rest;
    NoPermissions();
    ActionsRead(group.actions, rest, initial, NOTHING, {});
    OpStep(who, group.op, rights, AllWanted(initial, NOTHING, group.actions),
      TakeActions(text[1..], Encoded(initial), {}).0);
  }

  lemma {:induction false} GroupsRead(who: seq<Who>, groups: seq<ActionGroup>, more: seq<Clause>, initial: Rights,
    rights: Rights)
    requires groups != [] && forall c | c in more :: c.groups != []
    ensures Groups(GroupsText(groups) + Remainder(more), WhoMask(who), Encoded(initial), Encoded(rights)) ==
            Mask(Encoded(Complement(Meaning(more, initial, GroupsMeaning(who, groups, initial, rights)))))
    decreases |more|, |groups|
  {
    hide WhoMask, Encoded, Groups, Clauses, ChangedRights, AllWanted, ActionsText, Meaning, Complement;
    var rest := GroupsText(groups[1..]) + Remainder(more);
    assert GroupsText(groups) + Remainder(more) == [OpChar(groups[0].op)] + ActionsText(groups[0].actions) + rest;
    var next := ChangedRights(who, groups[0].op, rights, AllWanted(initial, NOTHING, groups[0].actions));
    if |groups| > 1 {
      assert rest[0] == OpChar(groups[1].op);
      GroupRead(who, groups[0], rest, initial, rights);
      GroupsRead(who, groups[1..], more, initial, next);
    } else {
      assert rest == Remainder(more) && GroupsMeaning(who, groups, initial, rights) == next;
      GroupRead(who, groups[0], rest, initial, rights);
      if more == [] {
        RightsEncoded(next);
        NoClauses(initial, next);
      } else {
        assert rest[1..] == Text(more);
        ClausesRead(more, initial, next);
      }
    }
  }

  lemma NoClauses(initial: Rights, rights: Rights)
    ensures Meaning([], initial, rights) == rights
  {
  }

  lemma NoPermissions()
    ensures {} * ALL == Spread(NOTHING)
  {
  }

  lemma {:induction false} ClausesRead(clauses: seq<Clause>, initial: Rights, rights: Rights)
    requires Proper(clauses)
    ensures Clauses(Text(clauses), Encoded(initial), Encoded(rights)) ==
              Mask(Encoded(Complement(Meaning(clauses, initial, rights))))
    decreases |clauses|, 0
  {
    hide WhoMask, Encoded, Groups, Named, GroupsMeaning;
    var c := clauses[0];
    var rest := GroupsText(c.groups) + Remainder(clauses[1..]);
    assert Text(clauses) == WhoText(c.who) + rest;
    assert c.groups != [] && rest[0] == OpChar(c.groups[0].op);
    WhoRead(c.who, rest, {});
    assert {} + Named(c.who) == Named(c.who);
    WhoBitsRead(c.who);
    GroupsRead(c.who, c.groups, clauses[1..], initial, rights);
  }

  /** The parser returns, for every printed mode and every current mask, the mask of the mode's meaning on the rights
      that the current mask leaves. */
  lemma {:induction false} ParsedMeaning(clauses: seq<Clause>, currentMask: Word)
    requires Proper(clauses)
    ensures var initial := RightsOf(Flipped(currentMask));
            Parse(Text(clauses), currentMask) == Mask(Encoded(Complement(Meaning(clauses, initial, initial))))
  {
    hide Encoded, Clauses;
    EncodedRights(Flipped(currentMask));
    ClausesRead(clauses, RightsOf(Flipped(currentMask)), RightsOf(Flipped(currentMask)));
  }

  // ----- Nothing else is accepted

  lemma {:induction false} WhoTaken(text: string, bits: Word) returns (who: seq<Who>)
    ensures text == WhoText(who) + TakeWho(text, bits).1
  {
    who := [];
    if text != "" && IsWho(text[0]) {
      var rest := WhoTaken(text[1..], bits + WhoBits(text[0]));
      var first := match text[0] case 'u' => User case 'g' => Group case 'o' => Other case _ => Everyone;
      who := [first] + rest;
      assert WhoText(who) == [text[0]] + WhoText(rest);
      assert text == [text[0]] + text[1..];
    } else {
      assert WhoText([]) + text == text;
    }
  }

  function ActionOf(c: char): Action {
    match c
    case 'u' => CopyUser
    case 'g' => CopyGroup
    case 'o' => CopyOther
    case 'r' => Read
    case 'w' => Write
    case 'x' => Exec
    case 'X' => ExecIfAny
    case 's' => SetId
    case _ => Sticky
  }

  lemma {:induction false} ActionsTaken(text: string, initial: Word, perm: Word) returns (actions: seq<Action>)
    ensures text == ActionsText(actions) + TakeActions(text, initial, perm).1
  {
    hide ActionBits;
    actions := [];
    if text != "" && IsAction(text[0]) {
      var rest := ActionsTaken(text[1..], initial, ActionBits(initial, perm, text[0]));
      actions := [ActionOf(text[0])] + rest;
      assert ActionsText(actions) == [text[0]] + ActionsText(rest);
      assert text == [text[0]] + text[1..];
    } else {
      assert ActionsText([]) + text == text;
    }
  }

  lemma GroupsTextCons(g: ActionGroup, others: seq<ActionGroup>)
    ensures GroupsText([g] + others) == [OpChar(g.op)] + ActionsText(g.actions) + GroupsText(others)
    ensures GroupsText([g]) == [OpChar(g.op)] + ActionsText(g.actions)
  {
    assert ([g] + others)[1..] == others;
    assert [g][1..] == [];
  }

  lemma {:induction false} GroupsTaken(text: string, who: Word, initial: Word, bits: Word)
    returns (groups: seq<ActionGroup>, more: seq<Clause>)
    requires Groups(text, who, initial, bits).Mask?
    ensures groups != [] && (forall c | c in more :: c.groups != []) && text == GroupsText(groups) + Remainder(more)
    decreases |text|, 0
  {
    hide ApplyBits, Clauses, Text, GroupsText, TakeActions, ActionsText;
    var op := if text[0] == '+' then Allow else if text[0] == '-' then Deny else Assign;
    var (perm, rest) := TakeActions(text[1..], initial, {});
    var actions := ActionsTaken(text[1..], initial, {});
    var next := ApplyBits(text[0], perm * who, who, bits);
    var group := ActionGroup(op, actions);
    var head := [OpChar(op)] + ActionsText(actions);
    assert text == head + rest;
    groups, more := [group], [];
    GroupsTextCons(group, []);
    if rest != "" && rest[0] == ',' {
      more := ClausesTaken(rest[1..], initial, next);
      assert rest == "," + rest[1..];
    } else if rest != "" {
      var others: seq<ActionGroup>;
      others, more := GroupsTaken(rest, who, initial, next);
      groups := [group] + others;
      GroupsTextCons(group, others);
      assert text == head + GroupsText(others) + Remainder(more);
    }
  }

  lemma {:induction false} ClausesTaken(text: string, initial: Word, bits: Word) returns (clauses: seq<Clause>)
    requires Clauses(text, initial, bits).Mask?
    ensures Proper(clauses) && text == Text(clauses)
    decreases |text|, 1
  {
    hide Groups, GroupsText, TakeWho;
    var (bitsOfWho, rest) := TakeWho(text, {});
    var who := WhoTaken(text, {});
    var groups, more := GroupsTaken(rest, if bitsOfWho == {} then ALL else bitsOfWho, initial, bits);
    clauses := [Clause(who, groups)] + more;
    assert clauses[1..] == more;
    assert text == WhoText(who) + GroupsText(groups) + Remainder(more);
  }

  /** The accepted texts are exactly the printed forms of non-empty clause lists whose clauses have an operator. */
  lemma AcceptedTexts(text: string, currentMask: Word)
    ensures Parse(text, currentMask).Mask? <==> exists clauses :: Proper(clauses) && Text(clauses) == text
  {
    hide Clauses, Text, Proper;
    if Parse(text, currentMask).Mask? {
      var clauses := ClausesTaken(text, Flipped(currentMask) * ALL, Flipped(currentMask) * ALL);
    }
    if clauses :| Proper(clauses) && Text(clauses) == text {
      ParsedMeaning(clauses, currentMask);
    }
  }

  // ----- What follows from the meaning

  /** A parsed mask never has a bit outside the nine permission bits, whatever the text. */
  lemma {:induction false} MaskWithin(text: string, initial: Word, bits: Word)
    ensures var r := Clauses(text, initial, bits); r.Mask? ==> r.mask <= ALL
    decreases |text|, 1
  {
    hide ApplyBits, TakeActions;
    var (who, rest) := TakeWho(text, {});
    GroupMaskWithin(rest, if who == {} then ALL else who, initial, bits);
  }

  lemma {:induction false} GroupMaskWithin(text: string, who: Word, initial: Word, bits: Word)
    ensures var r := Groups(text, who, initial, bits); r.Mask? ==> r.mask <= ALL
    decreases |text|, 0
  {
    hide ApplyBits, Clauses;
    if text != "" && IsOperator(text[0]) {
      var (perm, rest) := TakeActions(text[1..], initial, {});
      var next := ApplyBits(text[0], perm * who, who, bits);
      if rest != "" {
        if rest[0] == ',' { MaskWithin(rest[1..], initial, next); } else { GroupMaskWithin(rest, who, initial, next); }
      }
    }
  }

  predicate Names(c: Clause, class_: Who) { Concerns(c.who, class_) }

  function OfClass(r: Rights, class_: Who): Kinds {
    match class_ case User => r.u case Group => r.g case _ => r.o
  }

  lemma {:induction false} GroupsLeave(who: seq<Who>, groups: seq<ActionGroup>, initial: Rights, rights: Rights,
    class_: Who)
    requires !class_.Everyone? && !Concerns(who, class_)
    ensures OfClass(GroupsMeaning(who, groups, initial, rights), class_) == OfClass(rights, class_)
    decreases |groups|
  {
    if groups != [] {
      var k := AllWanted(initial, NOTHING, groups[0].actions);
      GroupsLeave(who, groups[1..], initial, ChangedRights(who, groups[0].op, rights, k), class_);
    }
  }

  /** A class that no clause is about keeps its rights. */
  lemma {:induction false} UnnamedKept(clauses: seq<Clause>, initial: Rights, rights: Rights, class_: Who)
    requires !class_.Everyone? && forall c | c in clauses :: !Names(c, class_)
    ensures OfClass(Meaning(clauses, initial, rights), class_) == OfClass(rights, class_)
    decreases |clauses|
  {
    if clauses != [] {
      assert !Names(clauses[0], class_);
      GroupsLeave(clauses[0].who, clauses[0].groups, initial, rights, class_);
      UnnamedKept(clauses[1..], initial, GroupsMeaning(clauses[0].who, clauses[0].groups, initial, rights), class_);
    }
  }

  // ----- Printing a mask and parsing it again

  function KindActions(k: Kinds): seq<Action> {
    (if k.r then [Read] else []) + (if k.w then [Write] else []) + (if k.x then [Exec] else [])
  }

  function Assigning(class_: Who, k: Kinds): Clause { Clause([class_], [ActionGroup(Assign, KindActions(k))]) }

  function MaskClauses(r: Rights): seq<Clause> { [Assigning(User, r.u), Assigning(Group, r.g), Assigning(Other, r.o)] }

  lemma KindsText(k: Kinds, bits: Word)
    requires k == Kinds(2 in bits, 1 in bits, 0 in bits)
    ensures ActionsText(KindActions(k)) == ClassText(bits)
  {
  }

  lemma AssigningText(class_: Who, k: Kinds)
    ensures ClauseText(Assigning(class_, k)) == [WhoChar(class_)] + "=" + ActionsText(KindActions(k))
  {
    var groups := Assigning(class_, k).groups;
    assert GroupsText(groups[1..]) == "";
    assert GroupsText(groups) == "=" + ActionsText(KindActions(k));
    assert WhoText([class_]) == [WhoChar(class_)];
  }

  lemma PrintedMask(mask: Word)
    ensures SymbolicMask(mask) == Text(MaskClauses(RightsOf(Flipped(mask) * ALL)))
  {
    hide ActionsText, KindActions, ClassText;
    var allowed := Flipped(mask) * ALL;
    var r := RightsOf(allowed);
    KindsText(r.u, ShiftedDown(allowed * USERS, 6)) by { Shifted(allowed * USERS, 6); }
    KindsText(r.g, ShiftedDown(allowed * GROUPS, 3)) by { Shifted(allowed * GROUPS, 3); }
    KindsText(r.o, allowed * OTHERS);
    AssigningText(User, r.u);
    AssigningText(Group, r.g);
    AssigningText(Other, r.o);
    var cs := MaskClauses(r);
    assert cs[1..] == [cs[1], cs[2]] && [cs[1], cs[2]][1..] == [cs[2]];
    assert Text([cs[2]]) == ClauseText(cs[2]);
    assert Text([cs[1], cs[2]]) == ClauseText(cs[1]) + "," + ClauseText(cs[2]);
    assert Text(cs) == ClauseText(cs[0]) + "," + Text([cs[1], cs[2]]);
    Rejoined(ActionsText(KindActions(r.u)), ActionsText(KindActions(r.g)), ActionsText(KindActions(r.o)));
  }

  lemma Rejoined(u: string, g: string, o: string)
    ensures "u=" + u + ",g=" + g + ",o=" + o == ['u'] + "=" + u + "," + (['g'] + "=" + g + "," + (['o'] + "=" + o))
  {
  }

  lemma Shifted(w: Word, by_: nat)
    ensures forall i: nat :: i in ShiftedDown(w, by_) <==> i + by_ in w
  {
    forall i: nat | i + by_ in w ensures i in ShiftedDown(w, by_) { assert i == (i + by_) - by_; }
  }

  lemma KindsWanted(initial: Rights, k: Kinds)
    ensures AllWanted(initial, NOTHING, KindActions(k)) == k
  {
    var actions := KindActions(k);
    Unrolled(initial, NOTHING, actions);
  }

  lemma Unrolled(initial: Rights, k: Kinds, actions: seq<Action>)
    ensures actions == [] ==> AllWanted(initial, k, actions) == k
    ensures |actions| == 1 ==> AllWanted(initial, k, actions) == Wanted(initial, k, actions[0])
    ensures |actions| == 2 ==>
              AllWanted(initial, k, actions) == Wanted(initial, Wanted(initial, k, actions[0]), actions[1])
    ensures |actions| == 3 ==>
              AllWanted(initial, k, actions) ==
              Wanted(initial, Wanted(initial, Wanted(initial, k, actions[0]), actions[1]), actions[2])
    decreases |actions|
  {
    if |actions| > 0 { Unrolled(initial, Wanted(initial, k, actions[0]), actions[1..]); }
  }

  lemma AssigningMeans(class_: Who, k: Kinds, initial: Rights, rights: Rights)
    requires !class_.Everyone?
    ensures var c := Assigning(class_, k);
            GroupsMeaning(c.who, c.groups, initial, rights) ==
            match class_ case User => rights.(u := k) case Group => rights.(g := k) case _ => rights.(o := k)
  {
    var c := Assigning(class_, k);
    KindsWanted(initial, k);
    assert c.groups[1..] == [];
  }

  lemma MaskClausesMean(r: Rights, initial: Rights)
    ensures Meaning(MaskClauses(r), initial, initial) == r
  {
    hide GroupsMeaning;
    var cs := MaskClauses(r);
    AssigningMeans(User, r.u, initial, initial);
    AssigningMeans(Group, r.g, initial, initial.(u := r.u));
    AssigningMeans(Other, r.o, initial, initial.(u := r.u, g := r.g));
    assert cs[1..] == [cs[1], cs[2]] && [cs[1], cs[2]][1..] == [cs[2]] && [cs[2]][1..] == [];
    var first, second := initial.(u := r.u), initial.(u := r.u, g := r.g);
    NoClauses(initial, r);
    assert Meaning([cs[2]], initial, second) == Meaning([], initial, r);
    assert Meaning([cs[1], cs[2]], initial, first) == Meaning([cs[2]], initial, second);
    assert Meaning(cs, initial, initial) == Meaning([cs[1], cs[2]], initial, first);
  }

  /** The symbolic form of a mask, parsed under any current mask, sets exactly its nine permission bits. */
  lemma MaskRoundTrip(mask: Word, currentMask: Word)
    requires mask <= WORD
    ensures Parse(SymbolicMask(mask), currentMask) == Mask(mask * ALL)
  {
    var allowed := Flipped(mask) * ALL;
    var r := RightsOf(allowed);
    PrintedMask(mask);
    ParsedMeaning(MaskClauses(r), currentMask);
    MaskClausesMean(r, RightsOf(Flipped(currentMask)));
    EncodedRights(allowed);
    RightsEncoded(r);
    assert allowed * ALL == allowed;
    assert Flipped(allowed) * ALL == mask * ALL;
  }
}
