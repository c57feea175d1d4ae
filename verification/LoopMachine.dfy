/** A stack machine on which `break` and `continue` jump straight to a loop, and the proof that passing errors
    outwards does the same. */
module LoopMachine {
  import opened LoopControl

  /** What remains to be done once the code at hand has ended. */
  datatype Frame =
    | Rest(commands: seq<Command>)                      // the commands after a loop
    | Testing(loop: LoopCommand, ran: bool, last: int)      // decide on the condition just run
    | Body(loop: LoopCommand, last: int)                    // test the condition again

  datatype Core = Core(exitCode: int, log: seq<nat>)

  datatype Config = Running(core: Core, code: seq<Command>, stack: seq<Frame>) | Halted(core: Core, result: Result)

  /** The loops whose body is being executed. */
  function OpenLoops(stack: seq<Frame>): nat {
    if stack == [] then 0 else (if stack[0].Body? then 1 else 0) + OpenLoops(stack[1..])
  }

  function OpenTests(stack: seq<Frame>): nat {
    if stack == [] then 0 else (if stack[0].Testing? then 1 else 0) + OpenTests(stack[1..])
  }

  /** The loops that have been entered and not left, whether their body or their condition is being executed. */
  function Entered(stack: seq<Frame>): nat { OpenLoops(stack) + OpenTests(stack) }

  /** The stack without its `levels` innermost loops, counted by their bodies, and whatever is inside them. */
  function Outside(stack: seq<Frame>, levels: nat): (outer: seq<Frame>)
    requires levels <= OpenLoops(stack)
    ensures OpenLoops(outer) == OpenLoops(stack) - levels
  {
    if levels == 0 then stack
    else Outside(stack[1..], if stack[0].Body? then levels - 1 else levels)
  }

  /** The stack with the innermost loop on top. */
  function ToLoop(stack: seq<Frame>): (s: seq<Frame>)
    requires OpenLoops(stack) > 0
    ensures s != [] && s[0].Body? && OpenLoops(s) == OpenLoops(stack)
  {
    if stack[0].Body? then stack else ToLoop(stack[1..])
  }

  /** Leave `levels` loops and go on after the outermost of them. */
  function BreakJump(core: Core, stack: seq<Frame>, levels: nat): Config
    requires levels <= OpenLoops(stack)
  {
    Running(core.(exitCode := 0), [], Outside(stack, levels))
  }

  /** Leave all but the last of `levels` loops and test that one's condition. */
  function ContinueJump(core: Core, stack: seq<Frame>, levels: nat): Config
    requires 1 <= levels <= OpenLoops(stack)
  {
    var s := ToLoop(Outside(stack, levels - 1));
    Running(core.(exitCode := 0), s[0].loop.condition, [Testing(s[0].loop, true, s[0].last)] + s[1..])
  }

  function Step(w: World, cfg: Config): Config {
    match cfg
    case Halted(_, _) => cfg
    case Running(core, code, stack) =>
      if code != [] then
        (match code[0]
         case Simple(id) =>
           (match w(core.log, id)
            case Status(status) => Running(Core(status, core.log + [id]), code[1..], stack)
            case Raises(status) => Halted(core.(log := core.log + [id]), Err(Other(status))))
         case Loop(_, condition, _) => Running(core, condition, [Testing(code[0], false, 0), Rest(code[1..])] + stack)
         case BreakCommand(levels) =>
           if OpenLoops(stack) == 0 then Running(core.(exitCode := 0), code[1..], stack)
           else if levels == 0 then Running(core.(exitCode := 1), code[1..], stack)
           else BreakJump(core, stack, Min(levels, OpenLoops(stack)))
         case ContinueCommand(levels) =>
           if OpenLoops(stack) == 0 then Running(core.(exitCode := 0), code[1..], stack)
           else if levels == 0 then Running(core.(exitCode := 1), code[1..], stack)
           else ContinueJump(core, stack, Min(levels, OpenLoops(stack))))
      else if stack == [] then Halted(core, Ok)
      else
        match stack[0]
        case Rest(commands) => Running(core, commands, stack[1..])
        case Testing(c, ran, last) =>
          if (core.exitCode == 0) == c.until then
            Running(core.(exitCode := Finished(core.exitCode, ran, last)), [], stack[1..])
          else Running(core, c.body, [Body(c, last)] + stack[1..])
        case Body(c, _) =>
          Running(core, c.condition, [Testing(c, true, core.exitCode)] + stack[1..])
  }

  function Steps(w: World, n: nat, cfg: Config): Config { if n == 0 then cfg else Steps(w, n - 1, Step(w, cfg)) }

  lemma {:induction false} StepsAdd(w: World, m: nat, n: nat, cfg: Config)
    ensures Steps(w, m + n, cfg) == Steps(w, n, Steps(w, m, cfg))
  {
    if m > 0 { StepsAdd(w, m - 1, n, Step(w, cfg)); }
  }

  /** Not finished at this depth: something is left to do above the lowest `depth` frames. */
  predicate Within(cfg: Config, depth: nat) {
    cfg.Running? && (|cfg.stack| > depth || (|cfg.stack| == depth && cfg.code != []))
  }

  /** So it is at each of the next `n` steps. */
  predicate Inside(w: World, n: nat, cfg: Config, depth: nat)
    decreases n
  {
    n > 0 ==> Within(cfg, depth) && Inside(w, n - 1, Step(w, cfg), depth)
  }

  lemma {:induction false} InsideAdd(w: World, m: nat, n: nat, cfg: Config, depth: nat)
    requires Inside(w, m, cfg, depth) && Inside(w, n, Steps(w, m, cfg), depth)
    ensures Inside(w, m + n, cfg, depth)
  {
    hide Step;
    if m > 0 { InsideAdd(w, m - 1, n, Step(w, cfg), depth); }
  }

  lemma {:induction false} InsideLower(w: World, n: nat, cfg: Config, depth: nat)
    requires Inside(w, n, cfg, depth + 1)
    ensures Inside(w, n, cfg, depth)
  {
    hide Step;
    if n > 0 { InsideLower(w, n - 1, Step(w, cfg), depth); }
  }

  lemma InsideOne(w: World, cfg: Config, depth: nat)
    requires Within(cfg, depth)
    ensures Inside(w, 1, cfg, depth) && Inside(w, 0, cfg, depth)
  {
    hide Step;
    assert Inside(w, 0, Step(w, cfg), depth);
  }

  function CoreOf(st: State): Core { Core(st.exitCode, st.log) }

  /** Where the machine is when a run of the executor inside these frames has ended. */
  function Landing(st: State, result: Result, code: seq<Command>, stack: seq<Frame>): Config
    requires result.Err? && Unwinds(result.error) ==> 1 <= result.error.level <= OpenLoops(stack)
  {
    match result
    case Ok => Running(CoreOf(st), code, stack)
    case Err(Break(level)) => BreakJump(CoreOf(st), stack, level)
    case Err(Continue(level)) => ContinueJump(CoreOf(st), stack, level)
    case Err(Other(status)) => Halted(CoreOf(st), result)
  }

  /** A break or continue that is passed on asks for at least one and at most all of the open loops. */
  predicate Bounded(st: State, result: Result) {
    result.Err? && Unwinds(result.error) ==> 1 <= result.error.level <= st.loopDepth
  }

  predicate Matches(st: State, stack: seq<Frame>) {
    st.loopDepth == OpenLoops(stack) && st.suppressed == OpenTests(stack)
  }

  lemma Popped(f: Frame, stack: seq<Frame>)
    ensures OpenLoops([f] + stack) == (if f.Body? then 1 else 0) + OpenLoops(stack)
    ensures OpenTests([f] + stack) == (if f.Testing? then 1 else 0) + OpenTests(stack)
  {
    assert ([f] + stack)[1..] == stack;
  }

  /** Leaving loops does not depend on frames inside the innermost one. */
  lemma OutsidePast(f: Frame, stack: seq<Frame>, levels: nat)
    requires 1 <= levels <= OpenLoops([f] + stack)
    ensures !f.Body? ==> levels <= OpenLoops(stack) && Outside([f] + stack, levels) == Outside(stack, levels)
    ensures f.Body? ==> levels - 1 <= OpenLoops(stack) && Outside([f] + stack, levels) == Outside(stack, levels - 1)
  {
    Popped(f, stack);
    assert ([f] + stack)[1..] == stack;
  }

  lemma BreakPast(core: Core, f: Frame, stack: seq<Frame>, levels: nat)
    requires 1 <= levels <= OpenLoops([f] + stack)
    ensures !f.Body? ==>
              levels <= OpenLoops(stack) && BreakJump(core, [f] + stack, levels) == BreakJump(core, stack, levels)
    ensures f.Body? && levels > 1 ==>
              && levels - 1 <= OpenLoops(stack)
              && BreakJump(core, [f] + stack, levels) == BreakJump(core, stack, levels - 1)
    ensures f.Body? && levels == 1 ==> BreakJump(core, [f] + stack, 1) == Running(core.(exitCode := 0), [], stack)
  {
    Popped(f, stack);
    OutsidePast(f, stack, levels);
  }

  lemma ContinuePast(core: Core, f: Frame, stack: seq<Frame>, levels: nat)
    requires 1 <= levels <= OpenLoops([f] + stack)
    ensures !f.Body? ==>
              levels <= OpenLoops(stack) && ContinueJump(core, [f] + stack, levels) == ContinueJump(core, stack, levels)
    ensures f.Body? && levels > 1 ==>
              && levels - 1 <= OpenLoops(stack)
              && ContinueJump(core, [f] + stack, levels) == ContinueJump(core, stack, levels - 1)
    ensures f.Body? && levels == 1 ==>
              ContinueJump(core, [f] + stack, 1) ==
              Running(core.(exitCode := 0), f.loop.condition, [Testing(f.loop, true, f.last)] + stack)
  {
    Popped(f, stack);
    if levels > 1 {
      hide ToLoop;
      OutsidePast(f, stack, levels - 1);
    } else {
      assert ([f] + stack)[1..] == stack;
      assert Outside([f] + stack, 0) == [f] + stack;
      if !f.Body? { assert Outside(stack, 0) == stack; }
    }
  }

  lemma JumpsPast(core: Core, f: Frame, stack: seq<Frame>, e: Error)
    requires Unwinds(e) && 1 <= e.level <= OpenLoops([f] + stack)
    ensures !f.Body? ==> e.level <= OpenLoops(stack)
    ensures f.Body? ==> e.level - 1 <= OpenLoops(stack)
    ensures e.Break? ==> !f.Body? ==> BreakJump(core, [f] + stack, e.level) == BreakJump(core, stack, e.level)
    ensures e.Continue? ==> !f.Body? ==> ContinueJump(core, [f] + stack, e.level) == ContinueJump(core, stack, e.level)
  {
    Popped(f, stack);
    if e.Break? { BreakPast(core, f, stack, e.level); } else { ContinuePast(core, f, stack, e.level); }
  }

  lemma PopStep(w: World, core: Core, f: Frame, stack: seq<Frame>)
    ensures Step(w, Running(core, [], [f] + stack)) ==
            match f
            case Rest(commands) => Running(core, commands, stack)
            case Testing(c, ran, last) =>
              if (core.exitCode == 0) == c.until then
                Running(core.(exitCode := Finished(core.exitCode, ran, last)), [], stack)
              else Running(core, c.body, [Body(c, last)] + stack)
            case Body(c, _) => Running(core, c.condition, [Testing(c, true, core.exitCode)] + stack)
  {
    assert ([f] + stack)[1..] == stack;
  }

  lemma OneMore(w: World, n: nat, cfg: Config)
    ensures Steps(w, n + 1, cfg) == Step(w, Steps(w, n, cfg))
  {
    StepsAdd(w, n, 1, cfg);
    assert Steps(w, 1, Steps(w, n, cfg)) == Steps(w, 0, Step(w, Steps(w, n, cfg)));
  }

  // ----- The executor and the machine reach the same places

  lemma {:induction false} SimpleRuns(w: World, st: State, c: Command, code: seq<Command>, stack: seq<Frame>)
    requires !c.Loop? && Matches(st, stack)
    ensures var (ran, result) := RunSimple(w, st, c);
            Bounded(st, result) && Absorbed(ran, result) == (ran, result)
            && Step(w, Running(CoreOf(st), [c] + code, stack)) == Landing(ran, result, code, stack)
  {
    assert ([c] + code)[1..] == code;
  }

  lemma {:induction false} ListRuns(w: World, fuel: nat, st: State, code: seq<Command>, stack: seq<Frame>)
    returns (n: nat)
    requires Matches(st, stack) && ExecList(w, fuel, st, code).Done?
    ensures var r := ExecList(w, fuel, st, code);
            && Bounded(st, r.result)
            && Steps(w, n, Running(CoreOf(st), code, stack)) == Landing(r.state, r.result, [], stack)
    ensures Inside(w, n, Running(CoreOf(st), code, stack), |stack|)
    decreases fuel, |code|, 3
  {
    hide Inside;
    n := 0;
    InsideNothing(w, Running(CoreOf(st), code, stack), |stack|);
    if code != [] {
      var first := ExecCommand(w, fuel, st, code[0]);
      n := CommandRuns(w, fuel, st, code[0], code[1..], stack);
      assert [code[0]] + code[1..] == code;
      if first.result.Ok? {
        var m := ListRuns(w, fuel, first.state, code[1..], stack);
        StepsAdd(w, n, m, Running(CoreOf(st), code, stack));
        InsideAdd(w, n, m, Running(CoreOf(st), code, stack), |stack|);
        n := n + m;
      }
    }
  }

  lemma InsideNothing(w: World, cfg: Config, depth: nat)
    ensures Inside(w, 0, cfg, depth)
  {
  }

  lemma {:induction false} CommandRuns(w: World, fuel: nat, st: State, c: Command, code: seq<Command>,
    stack: seq<Frame>)
    returns (n: nat)
    requires Matches(st, stack) && ExecCommand(w, fuel, st, c).Done?
    ensures var r := ExecCommand(w, fuel, st, c);
            && Bounded(st, r.result)
            && Steps(w, n, Running(CoreOf(st), [c] + code, stack)) == Landing(r.state, r.result, code, stack)
    ensures Inside(w, n, Running(CoreOf(st), [c] + code, stack), |stack|)
    decreases fuel, 0, 2
  {
    hide BreakJump, ContinueJump, OpenLoops, OpenTests, Inside;
    var start := Running(CoreOf(st), [c] + code, stack);
    InsideOne(w, start, |stack|);
    if !c.Loop? {
      SimpleRuns(w, st, c, code, stack);
      OneMore(w, 0, start);
      n := 1;
    } else {
      var r := ExecCommand(w, fuel, st, c);
      var inner := [Rest(code)] + stack;
      Popped(Rest(code), stack);
      var m := LoopRuns(w, fuel, st, c, false, 0, inner);
      assert ([c] + code)[1..] == code;
      assert [Testing(c, false, 0), Rest(code)] + stack == [Testing(c, false, 0)] + inner;
      assert Step(w, start) == Running(CoreOf(st), c.condition, [Testing(c, false, 0)] + inner);
      n := m + 1;
      assert |inner| == |stack| + 1;
      InsideLower(w, m, Step(w, start), |stack|);
      OneMore(w, 0, start);
      InsideAdd(w, 1, m, start, |stack|);
      match r.result
      case Ok =>
        PopStep(w, CoreOf(r.state), Rest(code), stack);
        OneMore(w, n, start);
        InsideOne(w, Steps(w, n, start), |stack|);
        InsideAdd(w, n, 1, start, |stack|);
        n := n + 1;
      case Err(Other(_)) =>
      case Err(e) => JumpsPast(CoreOf(r.state), Rest(code), stack, e);
    }
  }

  lemma {:induction false} LoopRuns(w: World, fuel: nat, st: State, c: LoopCommand, ran: bool, last: int,
    stack: seq<Frame>)
    returns (n: nat)
    requires Matches(st, stack) && ExecLoop(w, fuel, st, c, ran, last).Done?
    ensures var r := ExecLoop(w, fuel, st, c, ran, last);
            && Bounded(st, r.result)
            && Steps(w, n, Running(CoreOf(st), c.condition, [Testing(c, ran, last)] + stack)) ==
              Landing(r.state, r.result, [], stack)
    ensures Inside(w, n, Running(CoreOf(st), c.condition, [Testing(c, ran, last)] + stack), |stack|)
    decreases fuel, 0, 1
  {
    hide BreakJump, ContinueJump, OpenLoops, OpenTests, Step, Steps, Inside;
    var testing := Testing(c, ran, last);
    var start := Running(CoreOf(st), c.condition, [testing] + stack);
    var before := st.(suppressed := st.suppressed + 1);
    var tested := ExecList(w, fuel - 1, before, c.condition);
    Popped(testing, stack);
    n := ListRuns(w, fuel - 1, before, c.condition, [testing] + stack);
    assert |[testing] + stack| == |stack| + 1;
    InsideLower(w, n, start, |stack|);
    if tested.result.Err? {
      if Unwinds(tested.result.error) { JumpsPast(CoreOf(tested.state), testing, stack, tested.result.error); }
    } else {
      var st1 := tested.state.(suppressed := st.suppressed);
      PopStep(w, CoreOf(st1), testing, stack);
      OneMore(w, n, start);
      InsideOne(w, Steps(w, n, start), |stack|);
      InsideAdd(w, n, 1, start, |stack|);
      n := n + 1;
      if (st1.exitCode == 0) != c.until {
        var m := IterationRuns(w, fuel, st1, c, last, stack);
        StepsAdd(w, n, m, start);
        InsideAdd(w, n, m, start, |stack|);
        n := n + m;
        SecondHalf(w, fuel, st, c, ran, last);
      }
    }
  }

  /** What the executor does from the start of a body on. */
  function Iteration(w: World, fuel: nat, st: State, c: LoopCommand, last: int): Run
    requires fuel > 0
  {
    match ExecList(w, fuel - 1, st.(loopDepth := st.loopDepth + 1), c.body)
    case Timeout => Timeout
    case Done(inner, result) => AfterBody(w, fuel, inner.(loopDepth := st.loopDepth), result, c, last)
  }

  function AfterBody(w: World, fuel: nat, st: State, result: Result, c: LoopCommand, last: int): Run
    requires fuel > 0
  {
    match result
    case Ok => ExecLoop(w, fuel - 1, st, c, true, st.exitCode)
    case Err(Break(level)) =>
      if level <= 1 then Done(st.(exitCode := Finished(0, true, last)), Ok) else Done(st, Err(Break(level - 1)))
    case Err(Continue(level)) =>
      if level <= 1 then ExecLoop(w, fuel - 1, st.(exitCode := 0), c, true, last)
      else Done(st, Err(Continue(level - 1)))
    case Err(Other(code)) => Done(st, Err(Other(code)))
  }

  lemma SecondHalf(w: World, fuel: nat, st: State, c: LoopCommand, ran: bool, last: int)
    requires fuel > 0
    ensures var tested := ExecList(w, fuel - 1, st.(suppressed := st.suppressed + 1), c.condition);
            tested.Done? && tested.result.Ok? && (tested.state.exitCode == 0) != c.until ==>
            ExecLoop(w, fuel, st, c, ran, last) ==
              Iteration(w, fuel, tested.state.(suppressed := st.suppressed), c, last)
  {
  }

  lemma {:induction false} IterationRuns(w: World, fuel: nat, st: State, c: LoopCommand, last: int, stack: seq<Frame>)
    returns (n: nat)
    requires fuel > 0 && Matches(st, stack) && Iteration(w, fuel, st, c, last).Done?
    ensures var r := Iteration(w, fuel, st, c, last);
            && Bounded(st, r.result)
            && Steps(w, n, Running(CoreOf(st), c.body, [Body(c, last)] + stack)) ==
              Landing(r.state, r.result, [], stack)
    ensures Inside(w, n, Running(CoreOf(st), c.body, [Body(c, last)] + stack), |stack|)
    decreases fuel, 0, 0
  {
    hide BreakJump, ContinueJump, OpenLoops, OpenTests, Step, Steps, ExecLoop, AfterBody, Inside;
    var body := Body(c, last);
    var deeper := st.(loopDepth := st.loopDepth + 1);
    var inner := ExecList(w, fuel - 1, deeper, c.body);
    Popped(body, stack);
    n := ListRuns(w, fuel - 1, deeper, c.body, [body] + stack);
    var st2 := inner.state.(loopDepth := st.loopDepth);
    assert Matches(st2, stack);
    var m := AfterBodyRuns(w, fuel, st2, inner.result, c, last, stack);
    var start := Running(CoreOf(st), c.body, [body] + stack);
    assert |[body] + stack| == |stack| + 1;
    InsideLower(w, n, start, |stack|);
    StepsAdd(w, n, m, start);
    InsideAdd(w, n, m, start, |stack|);
    n := n + m;
  }

  lemma {:induction false} AfterBodyRuns(w: World, fuel: nat, st: State, result: Result, c: LoopCommand, last: int,
    stack: seq<Frame>)
    returns (n: nat)
    requires fuel > 0 && Matches(st, stack) && AfterBody(w, fuel, st, result, c, last).Done?
    requires Bounded(st.(loopDepth := st.loopDepth + 1), result)
    requires OpenLoops([Body(c, last)] + stack) == st.loopDepth + 1
    ensures var r := AfterBody(w, fuel, st, result, c, last);
            && Bounded(st, r.result)
            && Steps(w, n, Landing(st, result, [], [Body(c, last)] + stack)) == Landing(r.state, r.result, [], stack)
    ensures Inside(w, n, Landing(st, result, [], [Body(c, last)] + stack), |stack|)
    decreases fuel - 1, 0, 2
  {
    hide BreakJump, ContinueJump, OpenLoops, OpenTests, Step, ExecLoop, Inside;
    var body := Body(c, last);
    n := 0;
    InsideNothing(w, Landing(st, result, [], [body] + stack), |stack|);
    match result
    case Ok =>
      PopStep(w, CoreOf(st), body, stack);
      var m := LoopRuns(w, fuel - 1, st, c, true, st.exitCode, stack);
      var start := Running(CoreOf(st), [], [body] + stack);
      InsideOne(w, start, |stack|);
      OneMore(w, 0, start);
      InsideAdd(w, 1, m, start, |stack|);
      n := m + 1;
    case Err(Continue(level)) =>
      ContinuePast(CoreOf(st), body, stack, level);
      if level == 1 { n := LoopRuns(w, fuel - 1, st.(exitCode := 0), c, true, last, stack); }
    case Err(Break(level)) => BreakPast(CoreOf(st), body, stack, level);
    case Err(Other(_)) =>
  }

  // ----- Runs that do not end

  lemma {:induction false} HaltedStays(w: World, n: nat, cfg: Config)
    requires cfg.Halted?
    ensures Steps(w, n, cfg) == cfg
  {
    if n > 0 { HaltedStays(w, n - 1, cfg); }
  }

  lemma {:induction false} ListSpins(w: World, fuel: nat, st: State, code: seq<Command>, stack: seq<Frame>)
    returns (n: nat)
    requires Matches(st, stack) && ExecList(w, fuel, st, code).Timeout?
    ensures n >= fuel && Steps(w, n, Running(CoreOf(st), code, stack)).Running?
    decreases fuel, |code|, 3
  {
    hide BreakJump, ContinueJump, OpenLoops, OpenTests, Step, Steps;
    assert [code[0]] + code[1..] == code;
    var start := Running(CoreOf(st), code, stack);
    var first := ExecCommand(w, fuel, st, code[0]);
    if first.Timeout? {
      n := CommandSpins(w, fuel, st, code[0], code[1..], stack);
    } else {
      var k := CommandRuns(w, fuel, st, code[0], code[1..], stack);
      var m := ListSpins(w, fuel, first.state, code[1..], stack);
      StepsAdd(w, k, m, start);
      n := k + m;
    }
  }

  lemma {:induction false} CommandSpins(w: World, fuel: nat, st: State, c: Command, code: seq<Command>,
    stack: seq<Frame>)
    returns (n: nat)
    requires Matches(st, stack) && ExecCommand(w, fuel, st, c).Timeout?
    ensures n >= fuel && Steps(w, n, Running(CoreOf(st), [c] + code, stack)).Running?
    decreases fuel, 0, 2
  {
    hide BreakJump, ContinueJump, OpenLoops, OpenTests;
    Popped(Rest(code), stack);
    var inner := [Rest(code)] + stack;
    var m := LoopSpins(w, fuel, st, c, false, 0, inner);
    assert ([c] + code)[1..] == code;
    assert [Testing(c, false, 0), Rest(code)] + stack == [Testing(c, false, 0)] + inner;
    assert Step(w, Running(CoreOf(st), [c] + code, stack)) ==
      Running(CoreOf(st), c.condition, [Testing(c, false, 0)] + inner);
    n := m + 1;
  }

  lemma {:induction false} LoopSpins(w: World, fuel: nat, st: State, c: LoopCommand, ran: bool, last: int,
    stack: seq<Frame>)
    returns (n: nat)
    requires Matches(st, stack) && ExecLoop(w, fuel, st, c, ran, last).Timeout?
    ensures n + 1 >= fuel && Steps(w, n, Running(CoreOf(st), c.condition, [Testing(c, ran, last)] + stack)).Running?
    decreases fuel, 0, 1
  {
    hide BreakJump, ContinueJump, OpenLoops, OpenTests, Step;
    n := 0;
    if fuel > 0 {
      var testing := Testing(c, ran, last);
      var start := Running(CoreOf(st), c.condition, [testing] + stack);
      var before := st.(suppressed := st.suppressed + 1);
      var tested := ExecList(w, fuel - 1, before, c.condition);
      Popped(testing, stack);
      if tested.Timeout? {
        n := ListSpins(w, fuel - 1, before, c.condition, [testing] + stack);
      } else {
        n := ListRuns(w, fuel - 1, before, c.condition, [testing] + stack);
        var st1 := tested.state.(suppressed := st.suppressed);
        SecondHalf(w, fuel, st, c, ran, last);
        PopStep(w, CoreOf(st1), testing, stack);
        OneMore(w, n, start);
        var m := IterationSpins(w, fuel, st1, c, last, stack);
        StepsAdd(w, n + 1, m, start);
        n := n + 1 + m;
      }
    }
  }

  lemma {:induction false} IterationSpins(w: World, fuel: nat, st: State, c: LoopCommand, last: int, stack: seq<Frame>)
    returns (n: nat)
    requires fuel > 0 && Matches(st, stack) && Iteration(w, fuel, st, c, last).Timeout?
    ensures n + 2 >= fuel && Steps(w, n, Running(CoreOf(st), c.body, [Body(c, last)] + stack)).Running?
    decreases fuel, 0, 0
  {
    hide BreakJump, ContinueJump, OpenLoops, OpenTests, Step, Steps, ExecLoop;
    var body := Body(c, last);
    var deeper := st.(loopDepth := st.loopDepth + 1);
    var inner := ExecList(w, fuel - 1, deeper, c.body);
    var start := Running(CoreOf(st), c.body, [body] + stack);
    Popped(body, stack);
    if inner.Timeout? {
      n := ListSpins(w, fuel - 1, deeper, c.body, [body] + stack);
    } else {
      n := ListRuns(w, fuel - 1, deeper, c.body, [body] + stack);
      var st2 := inner.state.(loopDepth := st.loopDepth);
      assert Matches(st2, stack);
      var m: nat;
      if inner.result.Ok? {
        m := LoopSpins(w, fuel - 1, st2, c, true, st2.exitCode, stack);
        PopStep(w, CoreOf(st2), body, stack);
        OneMore(w, n, start);
        n := n + 1;
      } else {
        ContinuePast(CoreOf(st2), body, stack, 1);
        m := LoopSpins(w, fuel - 1, st2.(exitCode := 0), c, true, last, stack);
      }
      StepsAdd(w, n, m, start);
      n := n + m;
    }
  }

  // ----- Main results

  /** Where `levels` loops end: directly after the frame of the outermost of them. */
  lemma {:induction false} OutsideCuts(stack: seq<Frame>, levels: nat) returns (k: nat)
    requires 1 <= levels <= OpenLoops(stack)
    ensures 0 < k <= |stack| && Outside(stack, levels) == stack[k..]
    ensures stack[k - 1].Body? && OpenLoops(stack[..k]) == levels
  {
    var rest := if stack[0].Body? then levels - 1 else levels;
    k := 0;
    if rest > 0 {
      k := OutsideCuts(stack[1..], rest);
      assert stack[..k + 1][1..] == stack[1..][..k];
    } else {
      assert stack[..1][1..] == [];
    }
    k := k + 1;
  }

  lemma {:induction false} ToLoopCuts(stack: seq<Frame>) returns (k: nat)
    requires OpenLoops(stack) > 0
    ensures k < |stack| && ToLoop(stack) == stack[k..] && stack[k].Body? && OpenLoops(stack[..k]) == 0
  {
    k := 0;
    if !stack[0].Body? {
      k := ToLoopCuts(stack[1..]);
      assert stack[..k + 1][1..] == stack[1..][..k];
      k := k + 1;
    }
  }

  lemma {:induction false} OpenLoopsAdd(s: seq<Frame>, t: seq<Frame>)
    ensures OpenLoops(s + t) == OpenLoops(s) + OpenLoops(t)
  {
    if s == [] { assert s + t == t; }
    else {
      assert (s + t)[1..] == s[1..] + t;
      OpenLoopsAdd(s[1..], t);
    }
  }

  /** `break n` counts the loops whose body is being executed and goes on after the n-th of them, or the outermost. The
      loops it ends are exactly so many when none of them is executing its condition; each one that is ends as well. */
  lemma BreakEnds(w: World, core: Core, levels: nat, code: seq<Command>, stack: seq<Frame>) returns (k: nat)
    requires 1 <= levels && OpenLoops(stack) > 0
    ensures 0 < k <= |stack| && stack[k - 1].Body?
    ensures OpenLoops(stack[..k]) == if levels <= OpenLoops(stack) then levels else OpenLoops(stack)
    ensures Step(w, Running(core, [BreakCommand(levels)] + code, stack)) ==
              Running(core.(exitCode := 0), [], stack[k..])
    ensures Entered(stack[..k]) == OpenLoops(stack[..k]) <==> OpenTests(stack[..k]) == 0
  {
    k := OutsideCuts(stack, Min(levels, OpenLoops(stack)));
  }

  lemma OutsideNothing(stack: seq<Frame>)
    ensures Outside(stack, 0) == stack[0..]
  {
  }

  /** `continue n` tests the condition of the n-th loop again, counted in the same way, and ends the loops inside it:
      exactly n-1 when none of them is executing its condition. */
  lemma ContinueEnds(w: World, core: Core, levels: nat, code: seq<Command>, stack: seq<Frame>) returns (k: nat)
    requires 1 <= levels && OpenLoops(stack) > 0
    ensures k < |stack| && stack[k].Body?
    ensures OpenLoops(stack[..k]) + 1 == if levels <= OpenLoops(stack) then levels else OpenLoops(stack)
    ensures Step(w, Running(core, [ContinueCommand(levels)] + code, stack)) ==
            Running(core.(exitCode := 0), stack[k].loop.condition,
                    [Testing(stack[k].loop, true, stack[k].last)] + stack[k + 1..])
    ensures Entered(stack[..k]) == OpenLoops(stack[..k]) <==> OpenTests(stack[..k]) == 0
  {
    hide Step, ToLoop, Outside, OpenLoops;
    ContinueStep(w, core, levels, code, stack);
    k := ContinueCuts(stack, Min(levels, OpenLoops(stack)));
    assert stack[k..][1..] == stack[k + 1..];
  }

  lemma ContinueStep(w: World, core: Core, levels: nat, code: seq<Command>, stack: seq<Frame>)
    requires 1 <= levels && OpenLoops(stack) > 0
    ensures Step(w, Running(core, [ContinueCommand(levels)] + code, stack)) ==
            ContinueJump(core, stack, Min(levels, OpenLoops(stack)))
  {
    hide BreakJump, ContinueJump, Finished, OpenLoops;
    assert ([ContinueCommand(levels)] + code)[0] == ContinueCommand(levels);
  }

  lemma ContinueCuts(stack: seq<Frame>, levels: nat) returns (k: nat)
    requires 1 <= levels <= OpenLoops(stack)
    ensures k < |stack| && stack[k].Body? && OpenLoops(stack[..k]) == levels - 1
    ensures ToLoop(Outside(stack, levels - 1)) == stack[k..]
  {
    hide ToLoop;
    var j: nat := 0;
    if levels > 1 { j := OutsideCuts(stack, levels - 1); }
    hide Outside;
    assert Outside(stack, levels - 1) == stack[j..] by { OutsideNothing(stack); }
    assert OpenLoops(stack[..j]) == levels - 1;
    hide OpenLoops;
    var i := ToLoopCuts(stack[j..]);
    k := j + i;
    assert stack[..k] == stack[..j] + stack[j..][..i];
    OpenLoopsAdd(stack[..j], stack[j..][..i]);
    assert stack[j..][i..] == stack[k..];
  }

  /** A whole program that ends under the executor halts on the machine in the same state, and no break or continue
      is left over. */
  lemma ProgramHalts(w: World, fuel: nat, program: seq<Command>)
    requires ExecList(w, fuel, State(0, 0, 0, []), program).Done?
    ensures var r := ExecList(w, fuel, State(0, 0, 0, []), program);
            && !(r.result.Err? && Unwinds(r.result.error))
            && exists n: nat :: Steps(w, n, Running(Core(0, []), program, [])) == Halted(CoreOf(r.state), r.result)
  {
    hide ExecList;
    var st := State(0, 0, 0, []);
    var r := ExecList(w, fuel, st, program);
    var n := ListRuns(w, fuel, st, program, []);
    if r.result.Ok? {
      OneMore(w, n, Running(Core(0, []), program, []));
      assert Steps(w, n + 1, Running(Core(0, []), program, [])) == Halted(CoreOf(r.state), r.result);
    } else {
      assert Steps(w, n, Running(Core(0, []), program, [])) == Halted(CoreOf(r.state), r.result);
    }
  }

  /** Conversely, a program that halts on the machine ends under the executor, in the state the machine halts in. */
  lemma HaltingProgramEnds(w: World, n: nat, program: seq<Command>)
    requires Steps(w, n, Running(Core(0, []), program, [])).Halted?
    ensures var r := ExecList(w, n + 1, State(0, 0, 0, []), program);
            r.Done? && Steps(w, n, Running(Core(0, []), program, [])) == Halted(CoreOf(r.state), r.result)
  {
    hide ExecList, Step;
    var st := State(0, 0, 0, []);
    var start := Running(Core(0, []), program, []);
    var r := ExecList(w, n + 1, st, program);
    if r.Timeout? {
      var m := ListSpins(w, n + 1, st, program, []);
      StepsAdd(w, n, m - n, start);
      HaltedStays(w, m - n, Steps(w, n, start));
    } else {
      ProgramHalts(w, n + 1, program);
      var m: nat :| Steps(w, m, start) == Halted(CoreOf(r.state), r.result);
      if m <= n {
        StepsAdd(w, m, n - m, start);
        HaltedStays(w, n - m, Steps(w, m, start));
      } else {
        StepsAdd(w, n, m - n, start);
        HaltedStays(w, m - n, Steps(w, n, start));
      }
    }
  }
}
