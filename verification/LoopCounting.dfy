/** The machine of `LoopMachine` counts the loops whose body runs. One that also counts loops testing their condition
    does the same on every program without `break` and `continue` in conditions, and not on others. */
module LoopCounting {
  import opened LoopControl
  import opened LoopMachine

  predicate Loops(f: Frame) { f.Body? || f.Testing? }

  /** The stack without its `levels` innermost entered loops and whatever is inside them. */
  function OutsideEntered(stack: seq<Frame>, levels: nat): (outer: seq<Frame>)
    requires levels <= Entered(stack)
    ensures Entered(outer) == Entered(stack) - levels
  {
    if levels == 0 then stack else OutsideEntered(stack[1..], if Loops(stack[0]) then levels - 1 else levels)
  }

  function ToEntered(stack: seq<Frame>): (s: seq<Frame>)
    requires Entered(stack) > 0
    ensures s != [] && Loops(s[0])
  {
    if Loops(stack[0]) then stack else ToEntered(stack[1..])
  }

  function NextTest(core: Core, s: seq<Frame>): Config
    requires s != [] && Loops(s[0])
  {
    var f := s[0];
    var testing := Testing(f.loop, if f.Testing? then f.ran else true, f.last);
    Running(core.(exitCode := 0), f.loop.condition, [testing] + s[1..])
  }

  predicate Controls(c: Command) { c.BreakCommand? || c.ContinueCommand? }

  /** `break` and `continue`, counting every loop that has been entered. */
  function CountedControl(core: Core, c: Command, code: seq<Command>, stack: seq<Frame>): Config
    requires Controls(c)
  {
    if Entered(stack) == 0 then Running(core.(exitCode := 0), code, stack)
    else if c.levels == 0 then Running(core.(exitCode := 1), code, stack)
    else
      var levels := Min(c.levels, Entered(stack));
      if c.BreakCommand? then Running(core.(exitCode := 0), [], OutsideEntered(stack, levels))
      else NextTest(core, ToEntered(OutsideEntered(stack, levels - 1)))
  }

  function CountingStep(w: World, cfg: Config): Config {
    if cfg.Running? && cfg.code != [] && Controls(cfg.code[0]) then
      CountedControl(cfg.core, cfg.code[0], cfg.code[1..], cfg.stack)
    else Step(w, cfg)
  }

  function CountingSteps(w: World, n: nat, cfg: Config): Config {
    if n == 0 then cfg else CountingSteps(w, n - 1, CountingStep(w, cfg))
  }

  // ----- Programs whose conditions hold no break and no continue

  /** No break and no continue, at any depth. */
  predicate Clean(commands: seq<Command>)
    decreases commands
  {
    commands != [] ==>
      && (match commands[0]
          case Simple(_) => true
          case Loop(_, condition, body) => Clean(condition) && Clean(body)
          case _ => false)
      && Clean(commands[1..])
  }

  /** Every condition is clean, at any depth. */
  predicate Proper(commands: seq<Command>)
    decreases commands
  {
    commands != [] ==>
      && (match commands[0]
          case Loop(_, condition, body) => Clean(condition) && Proper(condition) && Proper(body)
          case _ => true)
      && Proper(commands[1..])
  }

  /** Commands that may stand inside these frames. */
  predicate Fits(commands: seq<Command>, stack: seq<Frame>) {
    Proper(commands) && (OpenTests(stack) > 0 ==> Clean(commands))
  }

  function Code(f: Frame): seq<Command> { if f.Rest? then f.commands else [f.loop] }

  predicate FitStack(stack: seq<Frame>) { stack != [] ==> Fits(Code(stack[0]), stack[1..]) && FitStack(stack[1..]) }

  predicate Fit(cfg: Config) { cfg.Running? ==> Fits(cfg.code, cfg.stack) && FitStack(cfg.stack) }

  lemma {:induction false} WithoutTests(stack: seq<Frame>, levels: nat)
    requires OpenTests(stack) == 0 && levels <= OpenLoops(stack) && FitStack(stack)
    ensures OutsideEntered(stack, levels) == Outside(stack, levels)
    ensures OpenTests(Outside(stack, levels)) == 0 && FitStack(Outside(stack, levels))
  {
    if levels > 0 { WithoutTests(stack[1..], if stack[0].Body? then levels - 1 else levels); }
  }

  lemma {:induction false} ToLoopAlike(stack: seq<Frame>)
    requires OpenTests(stack) == 0 && OpenLoops(stack) > 0 && FitStack(stack)
    ensures ToEntered(stack) == ToLoop(stack) && OpenTests(ToLoop(stack)) == 0 && FitStack(ToLoop(stack))
  {
    if !stack[0].Body? { ToLoopAlike(stack[1..]); }
  }

  lemma Pushed(f: Frame, stack: seq<Frame>)
    requires Fits(Code(f), stack) && FitStack(stack)
    ensures FitStack([f] + stack)
  {
    assert ([f] + stack)[1..] == stack;
  }

  lemma ProperParts(commands: seq<Command>)
    requires commands != []
    ensures Proper(commands) ==> Proper(commands[1..])
    ensures Clean(commands) ==> Clean(commands[1..]) && !Controls(commands[0])
    ensures Proper(commands) ==> Proper([commands[0]])
    ensures Clean(commands) ==> Clean([commands[0]])
    ensures commands[0].Loop? && Clean(commands) ==> Clean(commands[0].condition) && Clean(commands[0].body)
    ensures commands[0].Loop? && Proper(commands) ==>
              Clean(commands[0].condition) && Proper(commands[0].condition) && Proper(commands[0].body)
  {
    assert [commands[0]][1..] == [];
  }

  /** The condition of a loop, inside the frame that tests it. */
  lemma TestFits(c: LoopCommand, ran: bool, last: int, stack: seq<Frame>)
    requires Fits([c], stack) && FitStack(stack)
    ensures Fits(c.condition, [Testing(c, ran, last)] + stack) && FitStack([Testing(c, ran, last)] + stack)
  {
    hide Proper, Clean;
    ProperParts([c]);
    Pushed(Testing(c, ran, last), stack);
  }

  lemma BodyFits(c: LoopCommand, last: int, stack: seq<Frame>)
    requires Fits([c], stack) && FitStack(stack)
    ensures Fits(c.body, [Body(c, last)] + stack) && FitStack([Body(c, last)] + stack)
  {
    hide Proper, Clean;
    ProperParts([c]);
    Popped(Body(c, last), stack);
    Pushed(Body(c, last), stack);
  }

  lemma NothingFits(stack: seq<Frame>)
    ensures Fits([], stack)
  {
  }

  lemma PopFits(w: World, core: Core, f: Frame, stack: seq<Frame>)
    requires FitStack([f] + stack)
    ensures Fit(Step(w, Running(core, [], [f] + stack)))
  {
    assert ([f] + stack)[1..] == stack;
    hide Step, Proper, Clean, FitStack, Fits;
    PopStep(w, core, f, stack);
    match f
    case Rest(_) =>
    case Testing(c, ran, last) =>
      NothingFits(stack);
      BodyFits(c, last, stack);
    case Body(c, last) => TestFits(c, true, core.exitCode, stack);
  }

  /** Without a loop testing its condition, the two ways of counting are one. */
  lemma BreakAlike(core: Core, stack: seq<Frame>, levels: nat)
    requires OpenTests(stack) == 0 && levels <= OpenLoops(stack) && FitStack(stack)
    ensures BreakJump(core, stack, levels) == Running(core.(exitCode := 0), [], OutsideEntered(stack, levels))
    ensures Fit(BreakJump(core, stack, levels))
  {
    hide FitStack, Fits, OpenTests, OpenLoops;
    WithoutTests(stack, levels);
    NothingFits(Outside(stack, levels));
  }

  lemma ContinueAlike(core: Core, stack: seq<Frame>, levels: nat)
    requires OpenTests(stack) == 0 && 1 <= levels <= OpenLoops(stack) && FitStack(stack)
    ensures ContinueJump(core, stack, levels) == NextTest(core, ToEntered(OutsideEntered(stack, levels - 1)))
    ensures Fit(ContinueJump(core, stack, levels))
  {
    hide FitStack, Fits, OpenTests, Outside, OutsideEntered;
    WithoutTests(stack, levels - 1);
    var outer := Outside(stack, levels - 1);
    ToLoopAlike(outer);
    var s := ToLoop(outer);
    HeadFits(s);
    TestFits(s[0].loop, true, s[0].last, s[1..]);
  }

  lemma ControlStep(w: World, core: Core, c: Command, code: seq<Command>, stack: seq<Frame>)
    requires Controls(c)
    ensures Step(w, Running(core, [c] + code, stack)) ==
            if OpenLoops(stack) == 0 then Running(core.(exitCode := 0), code, stack)
            else if c.levels == 0 then Running(core.(exitCode := 1), code, stack)
            else if c.BreakCommand? then BreakJump(core, stack, Min(c.levels, OpenLoops(stack)))
            else ContinueJump(core, stack, Min(c.levels, OpenLoops(stack)))
  {
    hide BreakJump, ContinueJump, OpenLoops;
    assert ([c] + code)[1..] == code && ([c] + code)[0] == c;
  }

  lemma ControlAlike(core: Core, c: Command, code: seq<Command>, stack: seq<Frame>)
    requires Controls(c) && OpenTests(stack) == 0 && Proper(code) && FitStack(stack)
    ensures var levels := Min(c.levels, OpenLoops(stack));
            CountedControl(core, c, code, stack) ==
            if OpenLoops(stack) == 0 then Running(core.(exitCode := 0), code, stack)
            else if c.levels == 0 then Running(core.(exitCode := 1), code, stack)
            else if c.BreakCommand? then BreakJump(core, stack, levels) else ContinueJump(core, stack, levels)
    ensures Fit(CountedControl(core, c, code, stack))
  {
    hide Proper, Clean, FitStack, OpenTests, OpenLoops, BreakJump, ContinueJump, OutsideEntered, ToEntered, NextTest;
    if OpenLoops(stack) > 0 && c.levels > 0 {
      if c.BreakCommand? {
        BreakAlike(core, stack, Min(c.levels, OpenLoops(stack)));
      } else {
        ContinueAlike(core, stack, Min(c.levels, OpenLoops(stack)));
      }
    }
  }

  lemma ControlFits(w: World, core: Core, c: Command, code: seq<Command>, stack: seq<Frame>)
    requires Controls(c) && Fits([c] + code, stack) && FitStack(stack)
    ensures Step(w, Running(core, [c] + code, stack)) == CountedControl(core, c, code, stack)
    ensures Fit(CountedControl(core, c, code, stack))
  {
    assert ([c] + code)[1..] == code && ([c] + code)[0] == c;
    ProperParts([c] + code);
    assert OpenTests(stack) == 0 && Proper(code);
    hide *;
    ControlStep(w, core, c, code, stack);
    ControlAlike(core, c, code, stack);
  }

  lemma HeadFits(stack: seq<Frame>)
    requires stack != [] && FitStack(stack)
    ensures Fits(Code(stack[0]), stack[1..]) && FitStack(stack[1..])
  {
  }

  lemma LoopFits(w: World, core: Core, c: LoopCommand, code: seq<Command>, stack: seq<Frame>)
    requires Fits([c] + code, stack) && FitStack(stack)
    ensures Fit(Step(w, Running(core, [c] + code, stack)))
  {
    assert ([c] + code)[1..] == code && ([c] + code)[0] == c;
    hide Proper, Clean, FitStack;
    ProperParts([c] + code);
    Popped(Rest(code), stack);
    Pushed(Rest(code), stack);
    TestFits(c, false, 0, [Rest(code)] + stack);
    assert [Testing(c, false, 0), Rest(code)] + stack == [Testing(c, false, 0)] + ([Rest(code)] + stack);
  }

  lemma StepFits(w: World, cfg: Config)
    requires Fit(cfg)
    ensures CountingStep(w, cfg) == Step(w, cfg) && Fit(Step(w, cfg))
  {
    if cfg.Running? {
      var Running(core, code, stack) := cfg;
      if code == [] {
        if stack != [] {
          assert stack == [stack[0]] + stack[1..];
          hide Step, FitStack, Fits;
          PopFits(w, core, stack[0], stack[1..]);
        }
      } else {
        assert code == [code[0]] + code[1..];
        ProperParts(code);
        hide Proper, Clean, FitStack;
        if Controls(code[0]) { hide Step, Fits; ControlFits(w, core, code[0], code[1..], stack); }
        else if code[0].Loop? { hide Step, Fits; LoopFits(w, core, code[0], code[1..], stack); }
      }
    }
  }

  /** On a program whose conditions hold no break and no continue, the two ways of counting make no difference, however
      long it runs. */
  lemma {:induction false} CountingAgrees(w: World, n: nat, cfg: Config)
    requires Fit(cfg)
    ensures CountingSteps(w, n, cfg) == Steps(w, n, cfg)
  {
    hide Step, CountingStep, Fit;
    if n > 0 {
      StepFits(w, cfg);
      CountingAgrees(w, n - 1, Step(w, cfg));
    }
  }

  /** So there the executor ends a program in the state in which the counting machine halts. */
  lemma ProperPrograms(w: World, fuel: nat, program: seq<Command>)
    requires Proper(program)
    ensures var r := ExecList(w, fuel, State(0, 0, 0, []), program);
            r.Done? ==> exists n: nat ::
                CountingSteps(w, n, Running(Core(0, []), program, [])) == Halted(CoreOf(r.state), r.result)
    ensures forall n: nat | CountingSteps(w, n, Running(Core(0, []), program, [])).Halted? ::
              ExecList(w, n + 1, State(0, 0, 0, []), program).Done?
  {
    var start := Running(Core(0, []), program, []);
    assert Fit(start);
    hide ExecList, Proper, CountingSteps, Steps, Fit;
    var r := ExecList(w, fuel, State(0, 0, 0, []), program);
    if r.Done? {
      ProgramHalts(w, fuel, program);
      var n: nat :| Steps(w, n, start) == Halted(CoreOf(r.state), r.result);
      CountingAgrees(w, n, start);
    }
    forall n: nat | CountingSteps(w, n, start).Halted? ensures ExecList(w, n + 1, State(0, 0, 0, []), program).Done? {
      CountingAgrees(w, n, start);
      HaltingProgramEnds(w, n, program);
    }
  }

  // ----- Where the two ways of counting part

  lemma {:induction false} EnteredAdd(s: seq<Frame>, t: seq<Frame>)
    ensures Entered(s + t) == Entered(s) + Entered(t)
  {
    if s == [] {
      assert s + t == t;
    } else {
      assert (s + t)[1..] == s[1..] + t;
      EnteredAdd(s[1..], t);
    }
  }

  lemma EnteredGrows(stack: seq<Frame>, k: nat, j: nat)
    requires k < j <= |stack| && Loops(stack[j - 1])
    ensures Entered(stack[..k]) < Entered(stack[..j])
  {
    hide Entered;
    var inner, last := stack[k..j - 1], [stack[j - 1]];
    assert stack[..j] == stack[..k] + inner + last;
    EnteredAdd(stack[..k] + inner, last);
    EnteredAdd(stack[..k], inner);
    assert last[1..] == [];
    EnteredHead(last);
  }

  lemma EnteredHead(s: seq<Frame>)
    ensures s != [] ==> Entered(s) == (if Loops(s[0]) then 1 else 0) + Entered(s[1..])
  {
  }

  lemma {:induction false} OutsideEnteredCuts(stack: seq<Frame>, levels: nat) returns (k: nat)
    requires 1 <= levels <= Entered(stack)
    ensures 0 < k <= |stack| && OutsideEntered(stack, levels) == stack[k..]
    ensures Loops(stack[k - 1]) && Entered(stack[..k]) == levels
  {
    assert stack != [] && Entered([]) == 0;
    EnteredHead(stack);
    hide OpenLoops, OpenTests;
    var rest := if Loops(stack[0]) then levels - 1 else levels;
    k := 0;
    if rest > 0 {
      k := OutsideEnteredCuts(stack[1..], rest);
    }
    k := k + 1;
    assert stack[1..][..0] == [] && stack[..k][1..] == stack[1..][..k - 1] && stack[..k][0] == stack[0];
    EnteredHead(stack[..k]);
  }

  /** A single `break` does the same under both ways of counting exactly when the loops that it ends, testing ones
      included, are as many as it asks for, or all that have been entered. */
  lemma BreakCountsAgree(w: World, core: Core, levels: nat, code: seq<Command>, stack: seq<Frame>) returns (k: nat)
    requires 1 <= levels && OpenLoops(stack) > 0
    ensures 0 < k <= |stack| && stack[k - 1].Body?
    ensures Step(w, Running(core, [BreakCommand(levels)] + code, stack)) ==
            Running(core.(exitCode := 0), [], stack[k..])
    ensures CountingStep(w, Running(core, [BreakCommand(levels)] + code, stack)) ==
            Step(w, Running(core, [BreakCommand(levels)] + code, stack)) <==>
            Entered(stack[..k]) == Min(levels, Entered(stack))
  {
    k := BreakEnds(w, core, levels, code, stack);
    hide Step, OutsideEntered, OpenLoops, OpenTests;
    var j := OutsideEnteredCuts(stack, Min(levels, Entered(stack)));
    assert CountingStep(w, Running(core, [BreakCommand(levels)] + code, stack)) ==
           Running(core.(exitCode := 0), [], stack[j..]);
    if k < j { EnteredGrows(stack, k, j); }
    if j < k { EnteredGrows(stack, j, k); }
    assert j != k ==> |stack[j..]| != |stack[k..]|;
  }

  // ----- Conditions that do hold one

  /** `break 1` in the condition of a loop inside another one's body ends both. */
  lemma BreakInCondition(w: World, core: Core, c: LoopCommand, d: LoopCommand, last: int, code: seq<Command>)
    ensures var stack := [Testing(c, false, 0), Rest(code), Body(d, last)];
            && Entered(stack) == 2
            && Step(w, Running(core, [BreakCommand(1)], stack)) == Running(core.(exitCode := 0), [], [])
            && CountingStep(w, Running(core, [BreakCommand(1)], stack)) ==
               Running(core.(exitCode := 0), [], [Rest(code), Body(d, last)])
  {
    var stack := [Testing(c, false, 0), Rest(code), Body(d, last)];
    assert stack[1..] == [Rest(code), Body(d, last)] && stack[1..][1..] == [Body(d, last)];
    assert stack[1..][1..][1..] == [];
    assert OpenLoops(stack[1..][1..]) == 1 && OpenTests(stack[1..][1..]) == 0;
    assert OpenLoops(stack[1..]) == 1 && OpenTests(stack[1..]) == 0;
    assert Outside(stack[1..][1..], 1) == Outside([], 0) == [];
    assert Outside(stack[1..], 1) == [];
    assert OutsideEntered(stack[1..], 0) == stack[1..];
  }

  function WhileBreak(): LoopCommand { Loop(false, [BreakCommand(1)], []) }

  /** At top level `while break` never ends: with no body running the break is stray, and its status is zero. */
  lemma {:induction false} WhileBreakSpins(w: World, fuel: nat, st: State, ran: bool, last: int)
    requires st.loopDepth == 0
    ensures ExecLoop(w, fuel, st, WhileBreak(), ran, last).Timeout?
    decreases fuel
  {
    if fuel > 0 {
      var before := st.(suppressed := st.suppressed + 1);
      assert [BreakCommand(1)][1..] == [];
      assert ExecList(w, fuel - 1, before, [BreakCommand(1)]) == Done(before.(exitCode := 0), Ok);
      var st1 := st.(exitCode := 0);
      assert ExecList(w, fuel - 1, st1.(loopDepth := 1), []) == Done(st1.(loopDepth := 1), Ok);
      WhileBreakSpins(w, fuel - 1, st1, true, 0);
    }
  }

  /** Counting the tested loop, the same program halts. */
  lemma WhileBreakCounted(w: World)
    ensures CountingSteps(w, 4, Running(Core(0, []), [WhileBreak()], [])) == Halted(Core(0, []), Ok)
  {
    var core := Core(0, []);
    var inner := [Testing(WhileBreak(), false, 0), Rest([])];
    assert [WhileBreak()][1..] == [] && inner + [] == inner && inner[1..] == [Rest([])] && inner[1..][1..] == [];
    assert OpenLoops(inner[1..]) == 0 && OpenTests(inner[1..]) == 0;
    assert CountingStep(w, Running(core, [WhileBreak()], [])) == Running(core, [BreakCommand(1)], inner);
    assert Entered(inner) == 1 && OutsideEntered(inner, 1) == OutsideEntered([Rest([])], 0) == [Rest([])];
    assert CountingStep(w, Running(core, [BreakCommand(1)], inner)) == Running(core, [], [Rest([])]);
    assert [Rest([])][1..] == [];
    assert CountingStep(w, Running(core, [], [Rest([])])) == Running(core, [], []);
    assert CountingStep(w, Running(core, [], [])) == Halted(core, Ok);
    assert CountingSteps(w, 1, Running(core, [], [])) == CountingSteps(w, 0, Halted(core, Ok));
    assert CountingSteps(w, 2, Running(core, [], [Rest([])])) == Halted(core, Ok);
    assert CountingSteps(w, 3, Running(core, [BreakCommand(1)], inner)) == Halted(core, Ok);
  }
}
