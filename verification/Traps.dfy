/** The trap table: one variable per trapped signal and one that lists the signals, joined by colons. */
module Traps {
  import opened Text
  import IndexedCodec

  type Vars = map<string, string>

  const TRAP_LIST := "__RUBASH_TRAPS"
  const TRAP_PREFIX := "__RUBASH_TRAP_"

  function TrapKey(signal: string): string { TRAP_PREFIX + signal }

  // ----- Ordered sets of signals

  lemma {:induction false} LessTransitive(a: string, b: string, c: string)
    requires Less(a, b) && Less(b, c)
    ensures Less(a, c)
  {
    if a != "" && a[0] == b[0] && b[0] == c[0] { LessTransitive(a[1..], b[1..], c[1..]); }
  }

  lemma {:induction false} LessTotal(a: string, b: string)
    ensures a == b || Less(a, b) || Less(b, a)
    ensures !Less(a, a)
    ensures Less(a, b) ==> !Less(b, a)
  {
    if a != "" && b != "" {
      LessTotal(a[1..], b[1..]);
      assert a == [a[0]] + a[1..] && b == [b[0]] + b[1..];
    }
    if a != "" { LessTotal(a[1..], a[1..]); }
  }

  /** The elements of a set in order. */
  predicate Sorted(s: seq<string>) { forall i, j | 0 <= i < j < |s| :: Less(s[i], s[j]) }

  lemma FirstIsLeast(s: seq<string>)
    requires s != [] && Sorted(s)
    ensures Sorted(s[1..]) && s[0] !in s[1..] && forall y | y in s[1..] :: Less(s[0], y)
    ensures forall y :: y in s <==> y == s[0] || y in s[1..]
  {
    forall y | y in s[1..] ensures Less(s[0], y) && y != s[0] {
      var i :| 0 < i < |s| && s[i] == y;
      LessTotal(y, y);
    }
    assert s == [s[0]] + s[1..];
  }

  lemma PutFirst(x: string, s: seq<string>)
    requires Sorted(s) && forall y | y in s :: Less(x, y)
    ensures Sorted([x] + s)
  {
  }

  function Inserted(s: seq<string>, x: string): (r: seq<string>)
    requires Sorted(s)
    ensures Sorted(r) && forall y :: y in r <==> y in s || y == x
  {
    if s == [] then [x]
    else
      LessTotal(x, s[0]);
      FirstIsLeast(s);
      if s[0] == x then s
      else if Less(x, s[0]) then
        InsertFirst(x, s);
        [x] + s
      else
        var rest := Inserted(s[1..], x);
        PutFirst(s[0], rest);
        [s[0]] + rest
  }

  lemma InsertFirst(x: string, s: seq<string>)
    requires s != [] && Sorted(s) && Less(x, s[0])
    ensures Sorted([x] + s)
  {
    FirstIsLeast(s);
    forall y | y in s ensures Less(x, y) {
      if y != s[0] { LessTransitive(x, s[0], y); }
    }
    PutFirst(x, s);
  }

  function Removed(s: seq<string>, x: string): (r: seq<string>)
    requires Sorted(s)
    ensures Sorted(r) && forall y :: y in r <==> y in s && y != x
  {
    if s == [] then []
    else
      FirstIsLeast(s);
      var rest := Removed(s[1..], x);
      if s[0] == x then rest
      else
        PutFirst(s[0], rest);
        [s[0]] + rest
  }

  function Collected(parts: seq<string>): (r: seq<string>)
    ensures Sorted(r) && forall y :: y in r <==> y in parts
  {
    if parts == [] then []
    else
      var last := |parts| - 1;
      assert parts == parts[..last] + [parts[last]];
      Inserted(Collected(parts[..last]), parts[last])
  }

  /** A set is listed in one way only. */
  lemma {:induction false} SortedUnique(s: seq<string>, t: seq<string>)
    requires Sorted(s) && Sorted(t) && forall y :: y in s <==> y in t
    ensures s == t
  {
    assert s != [] ==> s[0] in t;
    assert t != [] ==> t[0] in s;
    if s != [] {
      FirstIsLeast(s);
      FirstIsLeast(t);
      LessTotal(s[0], t[0]);
      assert s[0] == t[0];
      SortedUnique(s[1..], t[1..]);
      assert s == [s[0]] + s[1..] && t == [t[0]] + t[1..];
    }
  }

  // ----- The list variable

  function TrapList(vars: Vars): (signals: seq<string>)
    ensures Sorted(signals)
  {
    if TRAP_LIST in vars then Collected(SplitAt(vars[TRAP_LIST], ":")) else []
  }

  function Stored(vars: Vars, signals: seq<string>): Vars {
    if signals == [] then vars - {TRAP_LIST} else vars[TRAP_LIST := Join(signals, ":")]
  }

  predicate Plain(signal: string) { ':' !in signal }

  lemma {:induction false} PartsArePlain(text: string)
    ensures forall part | part in SplitAt(text, ":") :: Plain(part)
  {
    if text != "" {
      PartsArePlain(text[1..]);
      var rest, parts := SplitAt(text[1..], ":"), SplitAt(text, ":");
      forall part | part in parts ensures Plain(part) {
        var i :| 0 <= i < |parts| && parts[i] == part;
        if text[0] == ':' {
          assert i > 0 ==> part == rest[i - 1];
        } else {
          assert Plain(rest[i]);
        }
      }
    }
  }

  /** A stored set of signals is read back exactly when no name holds a colon. */
  lemma StoredReadsBack(vars: Vars, signals: seq<string>)
    requires Sorted(signals)
    ensures TrapList(Stored(vars, signals)) == signals <==> forall s | s in signals :: Plain(s)
  {
    var after := Stored(vars, signals);
    if signals != [] {
      PartsArePlain(after[TRAP_LIST]);
      if forall s | s in signals :: Plain(s) {
        assert [':'] == ":";
        SplitAtJoin(signals, ':', ":");
        SortedUnique(Collected(signals), signals);
      }
    }
  }

  lemma ListedArePlain(vars: Vars)
    ensures forall s | s in TrapList(vars) :: Plain(s)
  {
    if TRAP_LIST in vars { PartsArePlain(vars[TRAP_LIST]); }
  }

  // ----- Signal names

  predicate Capital(c: char) { 'A' <= c <= 'Z' || '0' <= c <= '9' || c == '+' || c == '-' }

  /** How a name begins that is no number, no hook and has no `SIG` in front. */
  predicate Begins(a: char, b: char) {
    && 'A' <= a <= 'Z'
    && !(a == 'S' && b == 'I') && !(a == 'E' && b == 'X') && !(a == 'D' && b == 'E')
    && !(a == 'E' && b == 'R') && !(a == 'R' && b == 'E')
  }

  type SignalName = s: string |
    |s| > 4 && s[..3] == "SIG" && Begins(s[3], s[4]) && forall c | c in s :: Capital(c) witness "SIGHUP"

  function Sig(name: string): SignalName
    requires |name| > 1 && Begins(name[0], name[1]) && forall c | c in name :: Capital(c)
  {
    assert forall c | c in "SIG" :: Capital(c);
    "SIG" + name
  }

  const STANDARD_SIGNALS: seq<SignalName> := [
    Sig("HUP"), Sig("INT"), Sig("QUIT"), Sig("ILL"), Sig("TRAP"), Sig("ABRT"), Sig("EMT"), Sig("FPE"), Sig("KILL"),
    Sig("BUS"), Sig("SEGV"), Sig("SYS"), Sig("PIPE"), Sig("ALRM"), Sig("TERM"), Sig("URG"), Sig("STOP"),
    Sig("TSTP"), Sig("CONT"), Sig("CHLD"), Sig("TTIN"), Sig("TTOU"), Sig("IO"), Sig("XCPU"), Sig("XFSZ"),
    Sig("VTALRM"), Sig("PROF"), Sig("WINCH"), Sig("PWR"), Sig("USR1"), Sig("USR2")
  ]

  const REALTIME_SIGNALS: seq<SignalName> := [
    Sig("RTMIN"), Sig("RTMIN+1"), Sig("RTMIN+2"), Sig("RTMIN+3"), Sig("RTMIN+4"), Sig("RTMIN+5"), Sig("RTMIN+6"),
    Sig("RTMIN+7"), Sig("RTMIN+8"), Sig("RTMIN+9"), Sig("RTMIN+10"), Sig("RTMIN+11"), Sig("RTMIN+12"),
    Sig("RTMIN+13"), Sig("RTMIN+14"), Sig("RTMIN+15"), Sig("RTMIN+16"), Sig("RTMAX-15"), Sig("RTMAX-14"),
    Sig("RTMAX-13"), Sig("RTMAX-12"), Sig("RTMAX-11"), Sig("RTMAX-10"), Sig("RTMAX-9"), Sig("RTMAX-8"),
    Sig("RTMAX-7"), Sig("RTMAX-6"), Sig("RTMAX-5"), Sig("RTMAX-4"), Sig("RTMAX-3"), Sig("RTMAX-2"),
    Sig("RTMAX-1"), Sig("RTMAX")
  ]

  const SIGNALS: seq<SignalName> := STANDARD_SIGNALS + REALTIME_SIGNALS

  const HOOKS: seq<string> := ["EXIT", "DEBUG", "ERR", "RETURN"]

  /** `str::to_ascii_uppercase`. */
  function Upper(s: string): string {
    seq(|s|, i requires 0 <= i < |s| => if 'a' <= s[i] <= 'z' then 'A' + (s[i] - 'a') else s[i])
  }

  /** The first candidate whose name after `SIG` is the given one. */
  function FindSignal(name: string, candidates: seq<string>): Option<string> {
    if candidates == [] then None
    else if candidates[0] == "SIG" + name then Some(candidates[0])
    else FindSignal(name, candidates[1..])
  }

  /** The signal that an argument of `trap` names: a hook, a number, or a name with or without `SIG`, in any case. */
  function NormalizeSignal(text: string): Option<string> {
    var s := Upper(text);
    if s == "0" then Some("EXIT")
    else if s in HOOKS then Some(s)
    else
      match IndexedCodec.ParseIndex(s)
      case Some(n) => if 1 <= n <= |SIGNALS| then Some(SIGNALS[n - 1]) else None
      case None => FindSignal(if "SIG" <= s then s[3..] else s, SIGNALS)
  }

  function Normalized(args: seq<string>): seq<string> {
    if args == [] then []
    else
      var last := |args| - 1;
      Normalized(args[..last]) + match NormalizeSignal(args[last]) case Some(signal) => [signal] case None => []
  }

  method NormalizedSignals(args: seq<string>) returns (signals: seq<string>, invalid: bool)
    ensures signals == Normalized(args)
    ensures invalid <==> exists arg | arg in args :: NormalizeSignal(arg).None?
  {
    hide NormalizeSignal;
    signals, invalid := [], false;
    assert args[..0] == [];
    for i := 0 to |args|
      invariant signals == Normalized(args[..i])
      invariant invalid <==> exists k :: 0 <= k < i && NormalizeSignal(args[k]).None?
    {
      assert args[..i + 1][..i] == args[..i];
      match NormalizeSignal(args[i]) {
        case Some(signal) => signals := signals + [signal];
        case None => invalid := true;
      }
    }
    assert args[..|args|] == args;
  }

  lemma {:induction false} FoundSignal(name: string, candidates: seq<string>)
    ensures FindSignal(name, candidates) == if "SIG" + name in candidates then Some("SIG" + name) else None
  {
    if candidates != [] {
      assert candidates == [candidates[0]] + candidates[1..];
      FoundSignal(name, candidates[1..]);
    }
  }

  /** Whatever is asked for, the name is a hook or one of the table, and holds no colon. */
  lemma NormalizedName(text: string)
    ensures var name := NormalizeSignal(text);
            name.Some? ==> (name.value in HOOKS || name.value in SIGNALS) && Plain(name.value)
  {
    hide SIGNALS, HOOKS, FindSignal, Upper, IndexedCodec.ParseIndex, Plain;
    var s := Upper(text);
    FoundSignal(if "SIG" <= s then s[3..] else s, SIGNALS);
    HooksArePlain();
    SignalsArePlain();
    ExitIsHook();
  }

  lemma ExitIsHook()
    ensures "EXIT" in HOOKS
  {
  }

  lemma SignalsArePlain()
    ensures forall name | name in SIGNALS :: Plain(name)
  {
    hide SIGNALS;
    assert !Capital(':');
  }

  lemma HooksArePlain()
    ensures forall name | name in HOOKS :: Plain(name) && name[0] != 'S'
  {
  }

  lemma {:induction false} NormalizedArePlain(args: seq<string>)
    ensures forall s | s in Normalized(args) :: Plain(s)
  {
    hide NormalizeSignal;
    if args != [] {
      NormalizedArePlain(args[..|args| - 1]);
      NormalizedName(args[|args| - 1]);
    }
  }

  /** Every name of the table is understood as itself. */
  lemma OwnName(name: string)
    requires name in SIGNALS
    ensures NormalizeSignal(name) == Some(name)
  {
    hide SIGNALS, HOOKS, FindSignal, Plain, DigitsValue;
    SignalIsUpper(name);
    HooksArePlain();
    assert name == "SIG" + name[3..] && name[0] == 'S' && name[0] in name;
    assert IndexedCodec.ParseIndex(name) == None by { assert !IsDigit('S'); }
    hide IndexedCodec.ParseIndex, Upper;
    FoundSignal(name[3..], SIGNALS);
  }

  lemma SignalIsUpper(name: SignalName)
    ensures Upper(name) == name
  {
    forall i | 0 <= i < |name| ensures Upper(name)[i] == name[i] { assert name[i] in name && Capital(name[i]); }
  }

  // ----- Operations on the table

  function WithTrap(vars: Vars, signal: string, action: string): Vars {
    var entered := vars[TrapKey(signal) := action];
    Stored(entered, Inserted(TrapList(entered), signal))
  }

  function WithoutTrap(vars: Vars, signal: string): Vars {
    var without := vars - {TrapKey(signal)};
    Stored(without, Removed(TrapList(without), signal))
  }

  /** Traps that a subshell keeps: the tracing hooks, and ignored signals. */
  predicate Inherited(vars: Vars, signal: string) {
    signal in ["DEBUG", "RETURN"] || (TrapKey(signal) in vars && vars[TrapKey(signal)] == "")
  }

  function Retained(vars: Vars, signals: seq<string>): (r: seq<string>)
    requires Sorted(signals)
    ensures Sorted(r) && forall y :: y in r <==> y in signals && Inherited(vars, y)
  {
    if signals == [] then []
    else
      FirstIsLeast(signals);
      var rest := Retained(vars, signals[1..]);
      if Inherited(vars, signals[0]) then
        PutFirst(signals[0], rest);
        [signals[0]] + rest
      else rest
  }

  function DroppedKeys(vars: Vars, signals: seq<string>): set<string> {
    set s | s in signals && !Inherited(vars, s) :: TrapKey(s)
  }

  function ForSubshell(vars: Vars): Vars {
    var signals := TrapList(vars);
    Stored(vars - DroppedKeys(vars, signals), Retained(vars, signals))
  }

  class Environment {
    var vars: Vars

    constructor (vars: Vars)
      ensures this.vars == vars
    {
      this.vars := vars;
    }

    method StoreTrapList(signals: seq<string>)
      modifies this
      ensures vars == Stored(old(vars), signals)
    {
      if signals == [] {
        vars := vars - {TRAP_LIST};
      } else {
        vars := vars[TRAP_LIST := Join(signals, ":")];
      }
    }

    method SetTrap(signal: string, action: string)
      modifies this
      ensures vars == WithTrap(old(vars), signal, action)
    {
      vars := vars[TrapKey(signal) := action];
      var signals := TrapList(vars);
      signals := Inserted(signals, signal);
      StoreTrapList(signals);
    }

    method RemoveTrap(signal: string)
      modifies this
      ensures vars == WithoutTrap(old(vars), signal)
    {
      vars := vars - {TrapKey(signal)};
      var signals := TrapList(vars);
      signals := Removed(signals, signal);
      StoreTrapList(signals);
    }

    method TakeExitTrap() returns (action: Option<string>)
      modifies this
      ensures vars == WithoutTrap(old(vars), "EXIT")
      ensures action == if TrapKey("EXIT") in old(vars) then Some(old(vars)[TrapKey("EXIT")]) else None
    {
      action := if TrapKey("EXIT") in vars then Some(vars[TrapKey("EXIT")]) else None;
      vars := vars - {TrapKey("EXIT")};
      var signals := TrapList(vars);
      signals := Removed(signals, "EXIT");
      StoreTrapList(signals);
    }

    method ResetForSubshell()
      modifies this
      ensures vars == ForSubshell(old(vars))
    {
      hide TrapKey, DroppedKeys, Retained, Sorted;
      ghost var before := vars;
      var signals := TrapList(vars);
      var kept: seq<string> := [];
      RetainStart(before, signals);
      for i := 0 to |signals|
        invariant vars == before - DroppedKeys(before, signals[..i])
        invariant Sorted(signals[i..]) && kept + Retained(before, signals[i..]) == Retained(before, signals)
      {
        var signal := signals[i];
        RetainStep(before, signals, i);
        if signal in ["DEBUG", "RETURN"] {
          kept := kept + [signal];
          continue;
        }
        var keep := TrapKey(signal) in vars && vars[TrapKey(signal)] == "";
        if keep {
          kept := kept + [signal];
        } else {
          vars := vars - {TrapKey(signal)};
        }
      }
      assert signals[..|signals|] == signals && kept + [] == kept;
      StoreTrapList(kept);
    }

    /** What `trap action signal ...` does to the table. */
    method Execute(action: string, args: seq<string>) returns (status: nat)
      modifies this
      ensures vars == Executed(old(vars), action, Normalized(args))
      ensures status == if exists arg | arg in args :: NormalizeSignal(arg).None? then 1 else 0
    {
      hide WithTrap, WithoutTrap, NormalizeSignal;
      var signals, invalid := NormalizedSignals(args);
      if action == "-" || action == "0" {
        assert signals[..0] == [];
        for i := 0 to |signals|
          invariant vars == AllRemoved(old(vars), signals[..i])
        {
          RemoveTrap(signals[i]);
          assert signals[..i + 1][..i] == signals[..i];
        }
        assert signals[..|signals|] == signals;
        if action == "0" { RemoveTrap("EXIT"); }
        return if invalid then 1 else 0;
      }
      assert signals[..0] == [];
      for i := 0 to |signals|
        invariant vars == AllSet(old(vars), action, signals[..i])
      {
        SetTrap(signals[i], action);
        assert signals[..i + 1][..i] == signals[..i];
      }
      assert signals[..|signals|] == signals;
      return if invalid then 1 else 0;
    }
  }

  lemma RetainStart(vars: Vars, signals: seq<string>)
    requires Sorted(signals)
    ensures signals[0..] == signals && DroppedKeys(vars, signals[..0]) == {}
    ensures Sorted(signals[|signals|..]) && Retained(vars, signals[|signals|..]) == []
  {
  }

  lemma RetainStep(vars: Vars, signals: seq<string>, i: nat)
    requires Sorted(signals) && i < |signals|
    ensures TrapKey(signals[i]) !in DroppedKeys(vars, signals[..i])
    ensures DroppedKeys(vars, signals[..i + 1]) ==
            DroppedKeys(vars, signals[..i]) + (if Inherited(vars, signals[i]) then {} else {TrapKey(signals[i])})
    ensures Sorted(signals[i..]) && Sorted(signals[i + 1..])
    ensures Retained(vars, signals[i..]) ==
            (if Inherited(vars, signals[i]) then [signals[i]] else []) + Retained(vars, signals[i + 1..])
  {
    forall s | s in signals[..i] ensures TrapKey(s) != TrapKey(signals[i]) {
      var j :| 0 <= j < i && signals[j] == s;
      LessTotal(s, s);
      SameKey(s, signals[i]);
    }
    hide TrapKey, Less, Inherited;
    assert signals[i..][0] == signals[i] && signals[i..][1..] == signals[i + 1..];
    assert signals[..i + 1] == signals[..i] + [signals[i]];
  }

  lemma SameKey(s: string, t: string)
    ensures TrapKey(s) == TrapKey(t) <==> s == t
    ensures TrapKey(s) != TRAP_LIST
  {
    assert TrapKey(s)[|TRAP_PREFIX|..] == s && TrapKey(t)[|TRAP_PREFIX|..] == t;
    assert TrapKey(s)[13] == '_' && TRAP_LIST[13] == 'S';
  }

  function AllRemoved(vars: Vars, signals: seq<string>): Vars {
    if signals == [] then vars
    else WithoutTrap(AllRemoved(vars, signals[..|signals| - 1]), signals[|signals| - 1])
  }

  function AllSet(vars: Vars, action: string, signals: seq<string>): Vars {
    if signals == [] then vars
    else WithTrap(AllSet(vars, action, signals[..|signals| - 1]), signals[|signals| - 1], action)
  }

  function Executed(vars: Vars, action: string, signals: seq<string>): Vars {
    if action == "-" then AllRemoved(vars, signals)
    else if action == "0" then WithoutTrap(AllRemoved(vars, signals), "EXIT")
    else AllSet(vars, action, signals)
  }

  // ----- What the table means

  /** The traps: every listed signal with its action. */
  function Actions(vars: Vars): map<string, string> {
    map s | s in TrapList(vars) && TrapKey(s) in vars :: vars[TrapKey(s)]
  }

  predicate TrapVariable(key: string) { key == TRAP_LIST || TRAP_PREFIX <= key }

  function Others(vars: Vars): Vars { map k | k in vars && !TrapVariable(k) :: vars[k] }

  /** The listed signals are exactly those with an action. */
  ghost predicate Consistent(vars: Vars) { forall s: string :: s in TrapList(vars) <==> TrapKey(s) in vars }

  datatype Op =
    | Set(signal: string, action: string)
    | Remove(signal: string)
    | TakeExit
    | Reset
    | Trap(action: string, args: seq<string>)

  /** Only the internal setter takes a name that was not looked up; a name with a colon breaks the list. */
  predicate Named(op: Op) { op.Set? ==> Plain(op.signal) }

  function Stepped(vars: Vars, op: Op): Vars {
    match op
    case Set(signal, action) => WithTrap(vars, signal, action)
    case Remove(signal) => WithoutTrap(vars, signal)
    case TakeExit => WithoutTrap(vars, "EXIT")
    case Reset => ForSubshell(vars)
    case Trap(action, args) => Executed(vars, action, Normalized(args))
  }

  function Run(vars: Vars, ops: seq<Op>): Vars
    decreases |ops|
  {
    if ops == [] then vars else Run(Stepped(vars, ops[0]), ops[1..])
  }

  type Table = map<string, string>

  /** The same operations on a map from signals to actions. */
  function TableStep(t: Table, op: Op): Table {
    match op
    case Set(signal, action) => t[signal := action]
    case Remove(signal) => t - {signal}
    case TakeExit => t - {"EXIT"}
    case Reset => map s | s in t && (s in ["DEBUG", "RETURN"] || t[s] == "") :: t[s]
    case Trap(action, args) =>
      var names := set s | s in Normalized(args);
      if action == "-" then t - names
      else if action == "0" then t - names - {"EXIT"}
      else t + (map s | s in names :: action)
  }

  function TableRun(t: Table, ops: seq<Op>): Table
    decreases |ops|
  {
    if ops == [] then t else TableRun(TableStep(t, ops[0]), ops[1..])
  }

  predicate SameOthers(vars: Vars, from: Vars) {
    && (forall k | k in vars && !TrapVariable(k) :: k in from && from[k] == vars[k])
    && (forall k | k in from && !TrapVariable(k) :: k in vars)
  }

  /** The entries of the table, leaving the list aside. */
  ghost predicate Entries(vars: Vars, t: Table, from: Vars) {
    && SameOthers(vars, from)
    && (forall s: string :: TrapKey(s) in vars <==> s in t)
    && (forall s | s in t :: vars[TrapKey(s)] == t[s])
  }

  ghost predicate Lists(vars: Vars, t: Table) { forall s: string :: s in TrapList(vars) <==> s in t }

  /** A table with the given traps and otherwise the variables of `from`. */
  ghost predicate Shows(vars: Vars, t: Table, from: Vars) { Entries(vars, t, from) && Lists(vars, t) }

  lemma ShowsIs(vars: Vars, t: Table, from: Vars)
    requires Shows(vars, t, from)
    ensures Consistent(vars) && Actions(vars) == t && Others(vars) == Others(from)
  {
  }

  lemma ConsistentShows(vars: Vars)
    requires Consistent(vars)
    ensures Shows(vars, Actions(vars), vars)
  {
  }

  function SignalOf(key: string): string { if |key| >= |TRAP_PREFIX| then key[|TRAP_PREFIX|..] else "" }

  lemma KeysApart()
    ensures forall s: string :: SignalOf(TrapKey(s)) == s && TrapKey(s) != TRAP_LIST && TrapVariable(TrapKey(s))
  {
    forall s: string ensures SignalOf(TrapKey(s)) == s && TrapKey(s) != TRAP_LIST { SameKey(s, s); }
  }

  /** Storing a list changes nothing but the list. */
  predicate SameExceptList(vars: Vars, after: Vars) {
    && (forall k | k in vars && k != TRAP_LIST :: k in after && after[k] == vars[k])
    && (forall k | k in after && k != TRAP_LIST :: k in vars)
  }

  lemma StoredKeeps(vars: Vars, signals: seq<string>)
    ensures SameExceptList(vars, Stored(vars, signals))
  {
  }

  lemma OthersKept(vars: Vars, after: Vars, from: Vars)
    requires SameExceptList(vars, after) && SameOthers(vars, from)
    ensures SameOthers(after, from)
  {
    assert TrapVariable(TRAP_LIST);
    hide TrapVariable;
  }

  lemma SignalsKept(vars: Vars, after: Vars, s: string)
    requires SameExceptList(vars, after)
    ensures TrapKey(s) in after <==> TrapKey(s) in vars
    ensures TrapKey(s) in vars ==> after[TrapKey(s)] == vars[TrapKey(s)]
  {
    SameKey(s, s);
  }

  lemma StoredEntries(vars: Vars, t: Table, from: Vars, signals: seq<string>)
    requires Entries(vars, t, from)
    ensures Entries(Stored(vars, signals), t, from)
  {
    hide TrapKey, Stored, SameOthers, SameExceptList;
    var after := Stored(vars, signals);
    StoredKeeps(vars, signals);
    OthersKept(vars, after, from);
    forall s: string ensures TrapKey(s) in after <==> s in t { SignalsKept(vars, after, s); }
    forall s | s in t ensures after[TrapKey(s)] == t[s] { SignalsKept(vars, after, s); }
  }

  /** Storing the names of a table's entries completes it. */
  lemma StoredShows(vars: Vars, t: Table, from: Vars, signals: seq<string>)
    requires Sorted(signals) && (forall s | s in signals :: Plain(s)) && (forall s: string :: s in signals <==> s in t)
    requires Entries(vars, t, from)
    ensures Shows(Stored(vars, signals), t, from)
  {
    hide TrapList, Stored, Sorted, Plain, Entries;
    StoredEntries(vars, t, from, signals);
    StoredReadsBack(vars, signals);
  }

  lemma SameList(vars: Vars, after: Vars)
    ensures (TRAP_LIST in after <==> TRAP_LIST in vars) &&
              (TRAP_LIST in vars ==> after[TRAP_LIST] == vars[TRAP_LIST]) ==>
              TrapList(after) == TrapList(vars)
  {
  }

  lemma EntriesSet(vars: Vars, t: Table, from: Vars, signal: string, action: string)
    requires Entries(vars, t, from)
    ensures Entries(vars[TrapKey(signal) := action], t[signal := action], from)
    ensures TrapList(vars[TrapKey(signal) := action]) == TrapList(vars)
  {
    var after := vars[TrapKey(signal) := action];
    SameKey(signal, signal);
    SameList(vars, after);
    assert SameOthers(after, from) by {
      assert TrapVariable(TrapKey(signal));
      hide TrapKey, TrapVariable;
    }
    hide TrapKey, TrapList, SameOthers;
    forall s: string ensures TrapKey(s) in after <==> s in t[signal := action] { SameKey(s, signal); }
    forall s | s in t[signal := action] ensures after[TrapKey(s)] == t[signal := action][s] { SameKey(s, signal); }
  }

  function KeysOf(signals: set<string>): set<string> { set s | s in signals :: TrapKey(s) }

  lemma EntriesRemoved(vars: Vars, t: Table, from: Vars, signals: set<string>)
    requires Entries(vars, t, from)
    ensures Entries(vars - KeysOf(signals), t - signals, from)
    ensures TrapList(vars - KeysOf(signals)) == TrapList(vars)
  {
    SameList(vars, vars - KeysOf(signals));
    KeysApart();
    hide TrapKey, TrapVariable, SignalOf, TrapList;
  }

  lemma SetShows(vars: Vars, t: Table, from: Vars, signal: string, action: string)
    requires Shows(vars, t, from) && Plain(signal)
    ensures Shows(WithTrap(vars, signal, action), t[signal := action], from)
  {
    hide Plain, Sorted, Stored, Entries, TrapList;
    EntriesSet(vars, t, from, signal, action);
    ListedArePlain(vars);
    StoredShows(vars[TrapKey(signal) := action], t[signal := action], from, Inserted(TrapList(vars), signal));
  }

  lemma RemoveShows(vars: Vars, t: Table, from: Vars, signal: string)
    requires Shows(vars, t, from)
    ensures Shows(WithoutTrap(vars, signal), t - {signal}, from)
  {
    hide Plain, Sorted, Stored, Entries, TrapList, TrapKey;
    EntriesRemoved(vars, t, from, {signal});
    assert KeysOf({signal}) == {TrapKey(signal)};
    ListedArePlain(vars);
    StoredShows(vars - {TrapKey(signal)}, t - {signal}, from, Removed(TrapList(vars), signal));
  }

  lemma ResetShows(vars: Vars, t: Table, from: Vars)
    requires Shows(vars, t, from)
    ensures Shows(ForSubshell(vars), TableStep(t, Reset), from)
  {
    var signals := TrapList(vars);
    var dropped := set s | s in signals && !Inherited(vars, s);
    forall s | s in t ensures Inherited(vars, s) <==> s in ["DEBUG", "RETURN"] || t[s] == "" {
      assert TrapKey(s) in vars;
    }
    hide Plain, Sorted, Stored, Entries, TrapList, Inherited;
    EntriesRemoved(vars, t, from, dropped);
    assert KeysOf(dropped) == DroppedKeys(vars, signals);
    assert TableStep(t, Reset) == t - dropped;
    ListedArePlain(vars);
    StoredShows(vars - DroppedKeys(vars, signals), t - dropped, from, Retained(vars, signals));
  }

  lemma {:induction false} AllRemovedShows(vars: Vars, t: Table, from: Vars, signals: seq<string>)
    requires Shows(vars, t, from)
    ensures Shows(AllRemoved(vars, signals), t - (set s | s in signals), from)
  {
    hide Shows, WithoutTrap;
    var names := set s | s in signals;
    if signals == [] {
      assert t - names == t;
    } else {
      var last := |signals| - 1;
      var before := set s | s in signals[..last];
      AllRemovedShows(vars, t, from, signals[..last]);
      RemoveShows(AllRemoved(vars, signals[..last]), t - before, from, signals[last]);
      assert signals == signals[..last] + [signals[last]];
      assert t - names == t - before - {signals[last]};
    }
  }

  lemma {:induction false} AllSetShows(vars: Vars, t: Table, from: Vars, action: string, signals: seq<string>)
    requires Shows(vars, t, from) && forall s | s in signals :: Plain(s)
    ensures Shows(AllSet(vars, action, signals), t + (map s | s in signals :: action), from)
  {
    hide Shows, WithTrap, Plain;
    var added := map s | s in signals :: action;
    if signals == [] {
      assert t + added == t;
    } else {
      var last := |signals| - 1;
      var before := map s | s in signals[..last] :: action;
      AllSetShows(vars, t, from, action, signals[..last]);
      SetShows(AllSet(vars, action, signals[..last]), t + before, from, signals[last], action);
      assert signals == signals[..last] + [signals[last]];
      assert t + added == (t + before)[signals[last] := action];
    }
  }

  lemma StepShows(vars: Vars, t: Table, from: Vars, op: Op)
    requires Shows(vars, t, from) && Named(op)
    ensures Shows(Stepped(vars, op), TableStep(t, op), from)
  {
    hide Shows, Plain, Normalized, Executed;
    match op
    case Set(signal, action) => SetShows(vars, t, from, signal, action);
    case Remove(signal) => RemoveShows(vars, t, from, signal);
    case TakeExit => RemoveShows(vars, t, from, "EXIT");
    case Reset => ResetShows(vars, t, from);
    case Trap(action, args) =>
      NormalizedArePlain(args);
      ExecutedShows(vars, t, from, action, Normalized(args));
  }

  lemma ExecutedShows(vars: Vars, t: Table, from: Vars, action: string, signals: seq<string>)
    requires Shows(vars, t, from) && forall s | s in signals :: Plain(s)
    ensures var names := set s | s in signals;
            Shows(Executed(vars, action, signals),
                  if action == "-" then t - names
                  else if action == "0" then t - names - {"EXIT"}
                  else t + (map s | s in names :: action), from)
  {
    hide Shows, Plain;
    var names := set s | s in signals;
    if action == "-" || action == "0" {
      AllRemovedShows(vars, t, from, signals);
      RemoveShows(AllRemoved(vars, signals), t - names, from, "EXIT");
    } else {
      AllSetShows(vars, t, from, action, signals);
      assert (map s | s in signals :: action) == (map s | s in names :: action);
    }
  }

  lemma {:induction false} RunShows(vars: Vars, t: Table, from: Vars, ops: seq<Op>)
    requires Shows(vars, t, from) && forall op | op in ops :: Named(op)
    ensures Shows(Run(vars, ops), TableRun(t, ops), from)
    decreases |ops|
  {
    hide Shows, Named, Stepped, TableStep;
    if ops != [] {
      StepShows(vars, t, from, ops[0]);
      RunShows(Stepped(vars, ops[0]), TableStep(t, ops[0]), from, ops[1..]);
    }
  }

  /** Over every run the listed signals are those with an action, the traps change as a map would, and no other
      variable does. */
  lemma RunKeepsTable(vars: Vars, ops: seq<Op>)
    requires Consistent(vars) && forall op | op in ops :: Named(op)
    ensures Consistent(Run(vars, ops))
    ensures Actions(Run(vars, ops)) == TableRun(Actions(vars), ops)
    ensures Others(Run(vars, ops)) == Others(vars)
  {
    hide TableRun, Run, Actions, TrapList;
    ConsistentShows(vars);
    hide Shows;
    RunShows(vars, Actions(vars), vars, ops);
    ShowsIs(Run(vars, ops), TableRun(Actions(vars), ops), vars);
  }

  /** Setting a trap keeps the two in step exactly when the signal's name holds no colon. */
  lemma SetKeepsConsistent(vars: Vars, signal: string, action: string)
    requires Consistent(vars)
    ensures Consistent(WithTrap(vars, signal, action)) <==> Plain(signal)
  {
    hide Actions, TrapList;
    if Plain(signal) {
      ConsistentShows(vars);
      SetShows(vars, Actions(vars), vars, signal, action);
      ShowsIs(WithTrap(vars, signal, action), Actions(vars)[signal := action], vars);
    } else {
      var after := WithTrap(vars, signal, action);
      ListedArePlain(after);
      SameKey(signal, signal);
      assert TrapKey(signal) in after && signal !in TrapList(after);
    }
  }

  lemma {:induction false} RetainedTwice(vars: Vars, after: Vars, signals: seq<string>)
    requires Sorted(signals) && forall s | s in Retained(vars, signals) :: Inherited(after, s)
    ensures Retained(after, Retained(vars, signals)) == Retained(vars, signals)
  {
    hide Inherited;
    var kept := Retained(vars, signals);
    SortedUnique(Retained(after, kept), kept);
  }

  /** Entering a subshell twice is entering it once, whatever the variables hold. */
  lemma ResetIdempotent(vars: Vars)
    ensures ForSubshell(ForSubshell(vars)) == ForSubshell(vars)
  {
    hide TrapKey, TrapList, Sorted, Plain;
    KeysApart();
    var signals := TrapList(vars);
    var kept := Retained(vars, signals);
    var without := vars - DroppedKeys(vars, signals);
    var after := Stored(without, kept);
    ListedArePlain(vars);
    StoredReadsBack(without, kept);
    StoredKeeps(without, kept);
    assert forall s | s in kept :: Inherited(after, s);
    RetainedTwice(vars, after, signals);
    assert DroppedKeys(after, kept) == {};
    assert after - {} == after;
  }
}
