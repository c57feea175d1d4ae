/** The status that a loop leaves, read from the run of the machine. */
module LoopStatus {
  import opened LoopControl
  import opened LoopMachine

  /** A body of the loop at this depth has just ended normally: none of its code is left, and the frame of the body is
      about to be popped. */
  predicate BodyDone(cfg: Config, depth: nat) {
    cfg.Running? && cfg.code == [] && |cfg.stack| == depth + 1 && cfg.stack[0].Body?
  }

  /** The statuses with which bodies of that loop have ended in `n` steps. */
  function Seen(w: World, n: nat, cfg: Config, depth: nat): seq<int>
    decreases n
  {
    if n == 0 then []
    else (if BodyDone(cfg, depth) then [cfg.core.exitCode] else []) + Seen(w, n - 1, Step(w, cfg), depth)
  }

  /** The condition of the loop has just been run. */
  predicate ConditionDone(cfg: Config, stack: seq<Frame>) {
    && cfg.Running? && cfg.code == []
    && cfg.stack != [] && cfg.stack[0].Testing? && cfg.stack[1..] == stack
  }

  lemma {:induction false} SeenAdd(w: World, m: nat, n: nat, cfg: Config, depth: nat)
    ensures Seen(w, m + n, cfg, depth) == Seen(w, m, cfg, depth) + Seen(w, n, Steps(w, m, cfg), depth)
  {
    hide Step, BodyDone;
    if m == 0 {
      assert [] + Seen(w, n, cfg, depth) == Seen(w, n, cfg, depth);
    } else {
      SeenAdd(w, m - 1, n, Step(w, cfg), depth);
      var head := if BodyDone(cfg, depth) then [cfg.core.exitCode] else [];
      Regrouped(head, Seen(w, m - 1, Step(w, cfg), depth), Seen(w, n, Steps(w, m, cfg), depth));
    }
  }

  lemma Regrouped(a: seq<int>, b: seq<int>, c: seq<int>)
    ensures a + b + c == a + (b + c)
  {
  }

  lemma {:induction false} Unseen(w: World, n: nat, cfg: Config, depth: nat)
    requires Inside(w, n, cfg, depth + 1)
    ensures Seen(w, n, cfg, depth) == []
  {
    hide Step;
    if n > 0 { Unseen(w, n - 1, Step(w, cfg), depth); }
  }

  lemma {:induction false} InsideAt(w: World, n: nat, k: nat, cfg: Config, depth: nat)
    requires Inside(w, n, cfg, depth) && k < n
    ensures Within(Steps(w, k, cfg), depth)
  {
    hide Step;
    if k > 0 { InsideAt(w, n - 1, k - 1, Step(w, cfg), depth); }
  }

  lemma SeenOne(w: World, cfg: Config, depth: nat)
    ensures Seen(w, 1, cfg, depth) == if BodyDone(cfg, depth) then [cfg.core.exitCode] else []
  {
    hide Step, BodyDone;
    assert Seen(w, 0, Step(w, cfg), depth) == [];
  }

  function LastOr(statuses: seq<int>, otherwise: int): int {
    if statuses == [] then otherwise else statuses[|statuses| - 1]
  }

  /** How a loop ends that raises no error: where the machine is, and with which status. */
  predicate EndsWith(w: World, n: nat, start: Config, stack: seq<Frame>, until: bool, before: int, st: State) {
    && n > 0
    && Steps(w, n, start) == Running(CoreOf(st), [], stack)
    && st.exitCode ==
       (if ConditionDone(Steps(w, n - 1, start), stack) && !until then LastOr(Seen(w, n, start, |stack|), before)
        else 0)
  }

  /** From any test of the condition on. */
  lemma {:induction false} LoopEnds(w: World, fuel: nat, st: State, c: LoopCommand, ran: bool, last: int,
    stack: seq<Frame>)
    returns (n: nat)
    requires Matches(st, stack) && (!ran ==> last == 0)
    requires ExecLoop(w, fuel, st, c, ran, last).Done? && ExecLoop(w, fuel, st, c, ran, last).result.Ok?
    ensures EndsWith(w, n, Running(CoreOf(st), c.condition, [Testing(c, ran, last)] + stack), stack, c.until, last,
                     ExecLoop(w, fuel, st, c, ran, last).state)
    decreases fuel, 0
  {
    hide BreakJump, ContinueJump, OpenLoops, OpenTests, Step, Steps, Inside, Seen;
    var testing := Testing(c, ran, last);
    var start := Running(CoreOf(st), c.condition, [testing] + stack);
    var before := st.(suppressed := st.suppressed + 1);
    var tested := ExecList(w, fuel - 1, before, c.condition);
    Popped(testing, stack);
    n := ListRuns(w, fuel - 1, before, c.condition, [testing] + stack);
    assert |[testing] + stack| == |stack| + 1 && ([testing] + stack)[1..] == stack;
    Unseen(w, n, start, |stack|);
    var st1 := tested.state.(suppressed := st.suppressed);
    var done := Running(CoreOf(st1), [], [testing] + stack);
    PopStep(w, CoreOf(st1), testing, stack);
    OneMore(w, n, start);
    SeenAdd(w, n, 1, start, |stack|);
    SeenOne(w, done, |stack|);
    assert Seen(w, n + 1, start, |stack|) == [];
    n := n + 1;
    if (st1.exitCode == 0) != c.until {
      SecondHalf(w, fuel, st, c, ran, last);
      var m := IterationEnds(w, fuel, st1, c, last, stack);
      Behind(w, n, m, start, stack, c.until, last, Iteration(w, fuel, st1, c, last).state);
      n := n + m;
    }
  }

  /** What comes after steps that saw nothing. */
  lemma Behind(w: World, n: nat, m: nat, start: Config, stack: seq<Frame>, until: bool, before: int, st: State)
    requires Seen(w, n, start, |stack|) == [] && EndsWith(w, m, Steps(w, n, start), stack, until, before, st)
    ensures EndsWith(w, n + m, start, stack, until, before, st)
  {
    hide *;
    StepsAdd(w, n, m, start);
    BeforeLast(w, n, m, start, Steps(w, n, start));
    SeenAdd(w, n, m, start, |stack|);
    NothingBefore(Seen(w, n, start, |stack|), Seen(w, m, Steps(w, n, start), |stack|));
    EndsLater(w, n, m, start, stack, until, before, st);
  }

  lemma NothingBefore(a: seq<int>, b: seq<int>)
    requires a == []
    ensures a + b == b
  {
  }

  lemma BeforeLast(w: World, n: nat, m: nat, start: Config, middle: Config)
    requires middle == Steps(w, n, start)
    ensures m > 0 ==> Steps(w, n + m - 1, start) == Steps(w, m - 1, middle)
  {
    if m > 0 { StepsAdd(w, n, m - 1, start); }
  }

  lemma EndsLater(w: World, n: nat, m: nat, start: Config, stack: seq<Frame>, until: bool, before: int, st: State)
    requires EndsWith(w, m, Steps(w, n, start), stack, until, before, st)
    requires Steps(w, n + m, start) == Steps(w, m, Steps(w, n, start))
    requires m > 0 ==> Steps(w, n + m - 1, start) == Steps(w, m - 1, Steps(w, n, start))
    requires Seen(w, n + m, start, |stack|) == Seen(w, m, Steps(w, n, start), |stack|)
    ensures EndsWith(w, n + m, start, stack, until, before, st)
  {
    hide Step, Steps, Seen, LastOr, ConditionDone, CoreOf;
  }

  /** A body that ended normally, and what comes after it. */
  lemma OneRound(w: World, m: nat, cfg: Config, stack: seq<Frame>, until: bool, before: int, st: State)
    requires BodyDone(cfg, |stack|) && EndsWith(w, m, Step(w, cfg), stack, until, cfg.core.exitCode, st)
    ensures EndsWith(w, m + 1, cfg, stack, until, before, st)
  {
    hide Step, ConditionDone, CoreOf;
    OneMore(w, 0, cfg);
    StepsAdd(w, 1, m, cfg);
    StepsAdd(w, 1, m - 1, cfg);
    SeenAdd(w, 1, m, cfg, |stack|);
    SeenOne(w, cfg, |stack|);
  }

  /** A loop that its body has broken out of. */
  lemma BrokenEnds(w: World, n: nat, start: Config, stack: seq<Frame>, until: bool, before: int, st: State)
    requires Steps(w, n, start) == Running(CoreOf(st), [], stack) && st.exitCode == 0
    requires start.Running? && |start.stack| == |stack| + 1 && Inside(w, n, start, |stack| + 1)
    ensures EndsWith(w, n, start, stack, until, before, st)
  {
    hide Step;
    assert n > 0;
    InsideAt(w, n, n - 1, start, |stack| + 1);
  }

  lemma {:induction false} IterationEnds(w: World, fuel: nat, st: State, c: LoopCommand, last: int, stack: seq<Frame>)
    returns (n: nat)
    requires fuel > 0 && Matches(st, stack)
    requires Iteration(w, fuel, st, c, last).Done? && Iteration(w, fuel, st, c, last).result.Ok?
    ensures EndsWith(w, n, Running(CoreOf(st), c.body, [Body(c, last)] + stack), stack, c.until, last,
                     Iteration(w, fuel, st, c, last).state)
    decreases fuel - 1, 1
  {
    hide BreakJump, ContinueJump, OpenLoops, OpenTests, Step, Steps, Inside, Seen, EndsWith, ExecLoop;
    var body := Body(c, last);
    var deeper := st.(loopDepth := st.loopDepth + 1);
    var inner := ExecList(w, fuel - 1, deeper, c.body);
    var start := Running(CoreOf(st), c.body, [body] + stack);
    Popped(body, stack);
    n := ListRuns(w, fuel - 1, deeper, c.body, [body] + stack);
    assert |[body] + stack| == |stack| + 1;
    Unseen(w, n, start, |stack|);
    var st2 := inner.state.(loopDepth := st.loopDepth);
    assert Matches(st2, stack);
    match inner.result
    case Ok =>
      var end := ExecLoop(w, fuel - 1, st2, c, true, st2.exitCode).state;
      var m := LoopEnds(w, fuel - 1, st2, c, true, st2.exitCode, stack);
      PopStep(w, CoreOf(st2), body, stack);
      OneRound(w, m, Running(CoreOf(st2), [], [body] + stack), stack, c.until, last, end);
      Behind(w, n, m + 1, start, stack, c.until, last, end);
      n := n + m + 1;
    case Err(Continue(level)) =>
      ContinuePast(CoreOf(st2), body, stack, 1);
      var m := LoopEnds(w, fuel - 1, st2.(exitCode := 0), c, true, last, stack);
      Behind(w, n, m, start, stack, c.until, last,
             ExecLoop(w, fuel - 1, st2.(exitCode := 0), c, true, last).state);
      n := n + m;
    case Err(Break(level)) =>
      BreakPast(CoreOf(st2), body, stack, 1);
      BrokenEnds(w, n, start, stack, c.until, last, st2.(exitCode := 0));
  }

  /** A loop that raises no error: when it ends by its condition, a `while` loop has the status of the last of its
      bodies that ended normally, zero if none did; an `until` loop, and a loop that is broken out of, have status
      zero. */
  lemma LoopLeaves(w: World, fuel: nat, st: State, c: LoopCommand, stack: seq<Frame>) returns (n: nat)
    requires Matches(st, stack)
    requires ExecLoop(w, fuel, st, c, false, 0).Done? && ExecLoop(w, fuel, st, c, false, 0).result.Ok?
    ensures var start := Running(CoreOf(st), c.condition, [Testing(c, false, 0)] + stack);
            var end := ExecLoop(w, fuel, st, c, false, 0).state;
            var seen := Seen(w, n, start, |stack|);
            && n > 0
            && Steps(w, n, start) == Running(CoreOf(end), [], stack)
            && (c.until || !ConditionDone(Steps(w, n - 1, start), stack) ==> end.exitCode == 0)
            && (!c.until && ConditionDone(Steps(w, n - 1, start), stack) ==>
                  end.exitCode == if seen == [] then 0 else seen[|seen| - 1])
  {
    n := LoopEnds(w, fuel, st, c, false, 0, stack);
  }

  /** Outside all loops `break` and `continue` only set the status to zero. */
  lemma StrayControl(w: World, fuel: nat, st: State, levels: nat, rest: seq<Command>)
    requires st.loopDepth == 0
    ensures ExecList(w, fuel, st, [BreakCommand(levels)] + rest) == ExecList(w, fuel, st.(exitCode := 0), rest)
    ensures ExecList(w, fuel, st, [ContinueCommand(levels)] + rest) == ExecList(w, fuel, st.(exitCode := 0), rest)
  {
    assert ([BreakCommand(levels)] + rest)[1..] == rest && ([ContinueCommand(levels)] + rest)[1..] == rest;
  }

  /** In a loop they end the list at once, with no more levels than there are loops; for no level at all they fail with
      status one and the list goes on. */
  lemma LoopControls(w: World, fuel: nat, st: State, levels: nat, rest: seq<Command>)
    requires st.loopDepth > 0
    ensures levels == 0 ==>
              && ExecList(w, fuel, st, [BreakCommand(levels)] + rest) == ExecList(w, fuel, st.(exitCode := 1), rest)
              && ExecList(w, fuel, st, [ContinueCommand(levels)] + rest) == ExecList(w, fuel, st.(exitCode := 1), rest)
    ensures levels > 0 ==>
              var n := if levels <= st.loopDepth then levels else st.loopDepth;
              && ExecList(w, fuel, st, [BreakCommand(levels)] + rest) == Done(st, Err(Break(n)))
              && ExecList(w, fuel, st, [ContinueCommand(levels)] + rest) == Done(st, Err(Continue(n)))
  {
    assert ([BreakCommand(levels)] + rest)[1..] == rest && ([ContinueCommand(levels)] + rest)[1..] == rest;
  }

  /** A loop whose condition, command 0, lets its body, command 1, run once: the condition comes before and after the
      body, and the status is the body's for `while` and zero for `until`. */
  lemma OneIteration(w: World, fuel: nat, until: bool, first: int, body: int, second: int)
    requires fuel >= 3 && (first == 0) != until && (second == 0) == until
    requires w([], 0) == Status(first) && w([0], 1) == Status(body) && w([0, 1], 0) == Status(second)
    ensures ExecList(w, fuel, State(0, 0, 0, []), [Loop(until, [Simple(0)], [Simple(1)])]) ==
            Done(State(0, 0, if until then 0 else body, [0, 1, 0]), Ok)
  {
    var c := Loop(until, [Simple(0)], [Simple(1)]);
    SimpleAlone(w, fuel - 1, State(0, 1, 0, []), 0, first);
    SimpleAlone(w, fuel - 1, State(1, 0, first, [0]), 1, body);
    SimpleAlone(w, fuel - 2, State(0, 1, body, [0, 1]), 0, second);
    assert [] + [0] == [0] && [0] + [1] == [0, 1] && [0, 1] + [0] == [0, 1, 0];
    var end := State(0, 0, if until then 0 else body, [0, 1, 0]);
    assert ExecLoop(w, fuel - 1, State(0, 0, body, [0, 1]), c, true, body) == Done(end, Ok);
    assert ExecLoop(w, fuel, State(0, 0, 0, []), c, false, 0) == Done(end, Ok);
    assert ExecCommand(w, fuel, State(0, 0, 0, []), c) == Done(end, Ok);
    assert [c][1..] == [];
  }

  lemma SimpleAlone(w: World, fuel: nat, st: State, id: nat, code: int)
    requires w(st.log, id) == Status(code)
    ensures ExecList(w, fuel, st, [Simple(id)]) == Done(st.(log := st.log + [id], exitCode := code), Ok)
  {
    assert [Simple(id)][1..] == [];
  }
}
