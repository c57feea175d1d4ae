/** The names by which `trap` knows its signals and variables, spelled out. */
module TrapNames {
  import opened Text
  import opened Traps
  import IndexedCodec

  // ----- The table

  /** The standard signals, numbered from one. */
  lemma StandardSignals()
    ensures SIGNALS[..31] == [
      "SIG" + "HUP", "SIG" + "INT", "SIG" + "QUIT", "SIG" + "ILL", "SIG" + "TRAP", "SIG" + "ABRT", "SIG" + "EMT",
      "SIG" + "FPE", "SIG" + "KILL", "SIG" + "BUS", "SIG" + "SEGV", "SIG" + "SYS", "SIG" + "PIPE", "SIG" + "ALRM",
      "SIG" + "TERM", "SIG" + "URG", "SIG" + "STOP", "SIG" + "TSTP", "SIG" + "CONT", "SIG" + "CHLD", "SIG" + "TTIN",
      "SIG" + "TTOU", "SIG" + "IO", "SIG" + "XCPU", "SIG" + "XFSZ", "SIG" + "VTALRM", "SIG" + "PROF",
      "SIG" + "WINCH", "SIG" + "PWR", "SIG" + "USR1", "SIG" + "USR2"]
  {
    assert SIGNALS[..31] == STANDARD_SIGNALS;
  }

  /** The real-time signals, numbered from 32. */
  lemma RealtimeSignals()
    ensures SIGNALS[31..] == [
      "SIG" + "RTMIN", "SIG" + "RTMIN+1", "SIG" + "RTMIN+2", "SIG" + "RTMIN+3", "SIG" + "RTMIN+4", "SIG" + "RTMIN+5",
      "SIG" + "RTMIN+6", "SIG" + "RTMIN+7", "SIG" + "RTMIN+8", "SIG" + "RTMIN+9", "SIG" + "RTMIN+10",
      "SIG" + "RTMIN+11", "SIG" + "RTMIN+12", "SIG" + "RTMIN+13", "SIG" + "RTMIN+14", "SIG" + "RTMIN+15",
      "SIG" + "RTMIN+16", "SIG" + "RTMAX-15", "SIG" + "RTMAX-14", "SIG" + "RTMAX-13", "SIG" + "RTMAX-12",
      "SIG" + "RTMAX-11", "SIG" + "RTMAX-10", "SIG" + "RTMAX-9", "SIG" + "RTMAX-8", "SIG" + "RTMAX-7",
      "SIG" + "RTMAX-6", "SIG" + "RTMAX-5", "SIG" + "RTMAX-4", "SIG" + "RTMAX-3", "SIG" + "RTMAX-2",
      "SIG" + "RTMAX-1", "SIG" + "RTMAX"]
  {
    assert SIGNALS[31..] == REALTIME_SIGNALS;
  }

  lemma TableSize()
    ensures |SIGNALS| == 64
  {
  }

  /** The name is in capitals, and what follows `SIG` is no number, no hook and has no `SIG` in front. */
  lemma ShortName(name: SignalName)
    ensures (forall c | c in name :: !('a' <= c <= 'z')) && (forall c | c in name[3..] :: !('a' <= c <= 'z'))
    ensures name[3..] !in HOOKS && !("SIG" <= name[3..]) && IndexedCodec.ParseIndex(name[3..]) == None
    ensures name !in HOOKS && "SIG" <= name && IndexedCodec.ParseIndex(name) == None
  {
    hide DigitsValue;
    forall c | c in name ensures !('a' <= c <= 'z') { assert Capital(c); }
    assert forall c | c in name[3..] :: c in name;
    assert name[3] in name[3..] && name[3] != '+' && !IsDigit(name[3]);
    assert name[0] in name && name[0] == 'S' && !IsDigit('S');
    NoHook(name[3..]);
    HooksArePlain();
  }

  lemma NoHook(name: string)
    requires |name| > 1 && Begins(name[0], name[1])
    ensures name !in HOOKS
  {
    assert name in HOOKS ==> name == "EXIT" || name == "DEBUG" || name == "ERR" || name == "RETURN";
  }

  // ----- Any case

  /** The character, or its capital. */
  predicate Same(c: char, d: char) { c == d || ('a' <= c <= 'z' && c as int - 32 == d as int) }

  /** The letters of the text, in either case, are those of the name. */
  predicate Spells(text: string, name: string) {
    |text| == |name| && forall i | 0 <= i < |text| :: Same(text[i], name[i])
  }

  lemma UpperIs(text: string, name: string)
    requires forall c | c in name :: !('a' <= c <= 'z')
    ensures Upper(text) == name <==> Spells(text, name)
  {
    if Spells(text, name) {
      forall i | 0 <= i < |text| ensures Upper(text)[i] == name[i] {
        assert name[i] in name && Same(text[i], name[i]);
      }
    }
    if Upper(text) == name {
      forall i | 0 <= i < |text| ensures Same(text[i], name[i]) { assert name[i] == Upper(text)[i]; }
    }
  }

  /** Decimal digits, perhaps after a plus sign, of the given value. */
  predicate Numeral(text: string, value: nat) {
    var digits := if text != "" && text[0] == '+' then text[1..] else text;
    digits != "" && (forall c | c in digits :: '0' <= c <= '9') && DigitsValue(digits) == value
  }

  lemma NumeralUpper(text: string)
    ensures (forall c | c in Upper(text) :: IsDigit(c) || c == '+') <==>
            (forall c | c in text :: IsDigit(c) || c == '+')
    ensures (forall c | c in text :: IsDigit(c) || c == '+') ==> Upper(text) == text
  {
    var up := Upper(text);
    if forall c | c in up :: IsDigit(c) || c == '+' {
      forall c | c in text ensures IsDigit(c) || c == '+' {
        var i :| 0 <= i < |text| && text[i] == c;
        assert up[i] in up;
      }
    }
    if forall c | c in text :: IsDigit(c) || c == '+' {
      forall i | 0 <= i < |text| ensures up[i] == text[i] { assert text[i] in text; }
      assert up == text;
    }
  }

  // ----- What `trap` understands

  lemma NumeralParses(text: string, k: nat)
    requires k < 0x1_0000_0000_0000_0000
    ensures Numeral(text, k) <==> IndexedCodec.ParseIndex(Upper(text)) == Some(k)
  {
    hide DigitsValue, Upper;
    var s := Upper(text);
    NumeralUpper(text);
    if IndexedCodec.ParseIndex(s) == Some(k) {
      assert forall c | c in s :: IsDigit(c) || c == '+' by { assert s == [s[0]] + s[1..]; }
      assert s == text;
      ValueHasNumeral(text, k);
    }
    if Numeral(text, k) {
      assert forall c | c in text :: IsDigit(c) || c == '+' by { assert text == [text[0]] + text[1..]; }
      assert s == text;
      NumeralHasValue(text, k);
    }
  }

  lemma NumeralHasValue(text: string, k: nat)
    requires Numeral(text, k) && k < 0x1_0000_0000_0000_0000
    ensures IndexedCodec.ParseIndex(text) == Some(k)
  {
    hide DigitsValue;
    var digits := if text != "" && text[0] == '+' then text[1..] else text;
    assert DigitsValue(digits) == k;
  }

  lemma ValueHasNumeral(text: string, k: nat)
    requires IndexedCodec.ParseIndex(text) == Some(k)
    ensures Numeral(text, k)
  {
    hide DigitsValue;
    var digits := if text != "" && text[0] == '+' then text[1..] else text;
    assert DigitsValue(digits) == k;
    assert digits != "";
    forall c | c in digits ensures '0' <= c <= '9' { assert IsDigit(c); }
  }

  lemma NumeralIsNoHook(text: string, k: nat)
    requires Numeral(text, k)
    ensures Upper(text) !in HOOKS && (k > 0 ==> Upper(text) != "0")
  {
    hide Upper;
    NumeralUpper(text);
    assert forall c | c in text :: IsDigit(c) || c == '+' by { assert text == [text[0]] + text[1..]; }
    NoughtIsZero();
    hide DigitsValue;
    assert Upper(text) == text && text[0] in text;
    assert forall hook | hook in HOOKS :: !IsDigit(hook[0]) && hook[0] != '+';
  }

  lemma NoughtIsZero()
    ensures DigitsValue("0") == 0
  {
    assert "0"[..0] == "";
  }

  lemma SpelledIs(text: string, signal: SignalName)
    requires signal in SIGNALS && (Spells(text, signal) || Spells(text, signal[3..]))
    ensures NormalizeSignal(text) == Some(signal)
  {
    hide SIGNALS, HOOKS, Upper, Spells, IndexedCodec.ParseIndex, FindSignal;
    ShortName(signal);
    UpperIs(text, signal);
    UpperIs(text, signal[3..]);
    assert signal == "SIG" + signal[3..] && |signal| > 4;
    FoundSignal(signal[3..], SIGNALS);
  }

  lemma FoundIs(text: string, signal: string)
    requires NormalizeSignal(text) == Some(signal) && Upper(text) != "0" && Upper(text) !in HOOKS
    requires IndexedCodec.ParseIndex(Upper(text)) == None
    ensures signal in SIGNALS && |signal| > 3 && (Spells(text, signal) || Spells(text, signal[3..]))
  {
    hide SIGNALS, HOOKS, Upper, Spells, IndexedCodec.ParseIndex, FindSignal;
    var s := Upper(text);
    FoundSignal(if "SIG" <= s then s[3..] else s, SIGNALS);
    assert signal in SIGNALS;
    ShortName(signal);
    UpperIs(text, signal);
    UpperIs(text, signal[3..]);
    assert s == signal || s == signal[3..];
  }

  lemma HookIs(text: string, hook: string)
    ensures Upper(text) == hook && hook in HOOKS <==> hook in {"EXIT", "DEBUG", "ERR", "RETURN"} && Spells(text, hook)
    ensures Upper(text) == "0" <==> text == "0"
  {
    hide Upper, Spells;
    assert hook in HOOKS <==> hook in {"EXIT", "DEBUG", "ERR", "RETURN"};
    assert hook in HOOKS ==> forall c | c in hook :: !('a' <= c <= 'z');
    if hook in HOOKS { UpperIs(text, hook); }
    UpperIs(text, "0");
    OnlyNought(text);
  }

  lemma OnlyNought(text: string)
    ensures Spells(text, "0") <==> text == "0"
  {
  }

  /** A place of the table: its number, or its name with `SIG` or without. */
  predicate Place(text: string, signal: string, n: nat) {
    && 1 <= n <= |SIGNALS| && SIGNALS[n - 1] == signal && |signal| > 3
    && (Numeral(text, n) || Spells(text, signal) || Spells(text, signal[3..]))
  }

  ghost predicate InTable(text: string, signal: string) { exists n :: Place(text, signal, n) }

  lemma TableIsUnderstood(text: string, signal: string)
    requires InTable(text, signal)
    ensures NormalizeSignal(text) == Some(signal)
  {
    hide SIGNALS, HOOKS, Upper, Spells, Numeral, IndexedCodec.ParseIndex, FindSignal;
    TableSize();
    var n :| Place(text, signal, n);
    if Numeral(text, n) {
      NumeralParses(text, n);
      NumeralIsNoHook(text, n);
    } else {
      SpelledIs(text, signal);
    }
  }

  lemma UnderstoodIsInTable(text: string, signal: string)
    requires NormalizeSignal(text) == Some(signal) && Upper(text) != "0" && Upper(text) !in HOOKS
    ensures InTable(text, signal)
  {
    hide SIGNALS, HOOKS, Upper, Spells, Numeral, IndexedCodec.ParseIndex, FindSignal;
    TableSize();
    var s := Upper(text);
    if IndexedCodec.ParseIndex(s).Some? {
      var n := IndexedCodec.ParseIndex(s).value;
      NumeralParses(text, n);
      assert Place(text, signal, n);
    } else {
      FoundIs(text, signal);
      var i :| 0 <= i < |SIGNALS| && SIGNALS[i] == signal;
      assert Place(text, signal, i + 1);
    }
  }

  /** Nought alone and the hooks come first; then numerals of the table's places; then its names, with `SIG` or
      without. Nothing else is understood, and `00` is not. */
  lemma UnderstoodAs(text: string, signal: string)
    ensures NormalizeSignal(text) == Some(signal) <==>
            || (text == "0" && signal == "EXIT")
            || (signal in {"EXIT", "DEBUG", "ERR", "RETURN"} && Spells(text, signal))
            || InTable(text, signal)
  {
    hide SIGNALS, Upper, Spells, InTable, IndexedCodec.ParseIndex, FindSignal;
    var s := Upper(text);
    HookIs(text, s);
    HookIs(text, signal);
    if NormalizeSignal(text) == Some(signal) && s != "0" && s !in HOOKS { UnderstoodIsInTable(text, signal); }
    if InTable(text, signal) { TableIsUnderstood(text, signal); }
  }

  // ----- The variables

  lemma KeyIs(signal: string)
    ensures TrapKey(signal) == "__RUBASH_TRAP_" + signal
  {
  }

  lemma {:induction false} OnePart(text: string)
    requires ':' !in text
    ensures SplitAt(text, ":") == [text]
  {
    SplitAtFirst(text, ':', "", ":");
  }

  /** The first trap: its action under the signal's name, and the name as the list. */
  lemma FirstTrap(vars: Vars, signal: string, action: string)
    requires "__RUBASH_TRAPS" !in vars
    ensures WithTrap(vars, signal, action) == vars["__RUBASH_TRAP_" + signal := action]["__RUBASH_TRAPS" := signal]
  {
    KeyIs(signal);
    assert TrapKey(signal)[13] == '_' && "__RUBASH_TRAPS"[13] == 'S';
    assert Inserted([], signal) == [signal];
    assert Join([signal], ":") == signal;
  }

  /** Removing the only trap removes both variables. */
  lemma LastTrap(vars: Vars, signal: string)
    requires "__RUBASH_TRAPS" in vars && vars["__RUBASH_TRAPS"] == signal && ':' !in signal
    ensures WithoutTrap(vars, signal) == vars - {"__RUBASH_TRAP_" + signal} - {"__RUBASH_TRAPS"}
  {
    KeyIs(signal);
    assert TrapKey(signal)[13] == '_' && "__RUBASH_TRAPS"[13] == 'S';
    OnePart(signal);
    assert Collected([]) == [] && [signal][..0] == [];
    assert Collected([signal]) == [signal] && Removed([signal], signal) == [];
  }

  /** A second trap: the names are listed in the order of their characters, with a colon between them. */
  lemma SecondTrap(vars: Vars, listed: string, signal: string, action: string)
    requires "__RUBASH_TRAPS" in vars && vars["__RUBASH_TRAPS"] == listed && ':' !in listed
    ensures WithTrap(vars, signal, action) ==
            vars["__RUBASH_TRAP_" + signal := action]["__RUBASH_TRAPS" :=
              if signal == listed then listed else if Less(signal, listed) then signal + ":" + listed
              else listed + ":" + signal]
  {
    KeyIs(signal);
    assert TrapKey(signal)[13] == '_' && "__RUBASH_TRAPS"[13] == 'S';
    OnePart(listed);
    assert Collected([]) == [] && [listed][..0] == [];
    assert Collected([listed]) == [listed];
    LessTotal(signal, listed);
    assert Inserted([], signal) == [signal] && [listed][1..] == [];
    assert [signal, listed][1..] == [listed] && [listed, signal][1..] == [signal];
    assert Join([listed], ":") == listed && Join([signal], ":") == signal;
  }

  /** Is the trap kept on entering a subshell? Only the tracing hooks and ignored signals are. */
  predicate Kept(vars: Vars, signal: string) {
    || signal == "DEBUG" || signal == "RETURN"
    || ("__RUBASH_TRAP_" + signal in vars && vars["__RUBASH_TRAP_" + signal] == "")
  }

  /** Of the listed signals a subshell keeps exactly those, and it loses the actions of the others; no other variable
      changes. */
  lemma SubshellKeeps(vars: Vars)
    ensures var after := ForSubshell(vars);
            && (forall signal :: signal in TrapList(after) <==> signal in TrapList(vars) && Kept(vars, signal))
            && (forall name | name != "__RUBASH_TRAPS" ::
                  name in after <==>
                  name in vars &&
                  forall signal | signal in TrapList(vars) && !Kept(vars, signal) :: name != "__RUBASH_TRAP_" + signal)
            && (forall name | name in after && name != "__RUBASH_TRAPS" :: name in vars && after[name] == vars[name])
  {
    hide TrapList, Sorted, Plain, Retained, Kept, Inherited;
    var signals := TrapList(vars);
    var without := vars - DroppedKeys(vars, signals);
    forall signal
      ensures Inherited(vars, signal) == Kept(vars, signal) && TrapKey(signal) == "__RUBASH_TRAP_" + signal
    {
      SameTest(vars, signal);
      KeyIs(signal);
    }
    ListedArePlain(vars);
    StoredReadsBack(without, Retained(vars, signals));
  }

  lemma SameTest(vars: Vars, signal: string)
    ensures Inherited(vars, signal) == Kept(vars, signal)
  {
    KeyIs(signal);
  }
}
