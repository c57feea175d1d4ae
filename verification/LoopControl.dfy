/** `while` and `until` loops, with `break n` and `continue n` passed outwards as errors. */
module LoopControl {
  import opened Text

  datatype Command =
    | Simple(id: nat)
    | BreakCommand(levels: nat)
    | ContinueCommand(levels: nat)
    | Loop(until: bool, condition: seq<Command>, body: seq<Command>)

  type LoopCommand = c: Command | c.Loop? witness Loop(false, [], [])

  datatype Error = Break(level: nat) | Continue(level: nat) | Other(code: int)

  datatype Result = Ok | Err(error: Error)

  /** What a simple command does: end with a status, or fail with an error that no loop handles. */
  datatype Effect = Status(code: int) | Raises(code: int)

  /** The effect of every simple command, given the commands run before it. */
  type World = (seq<nat>, nat) -> Effect

  /** The executor's fields that loops touch; `log` holds the simple commands run so far. */
  datatype State = State(loopDepth: nat, suppressed: nat, exitCode: int, log: seq<nat>)

  datatype Run = Done(state: State, result: Result) | Timeout

  predicate Unwinds(e: Error) { e.Break? || e.Continue? }

  function Min(a: nat, b: nat): nat { if a <= b then a else b }

  /** A simple command or a loop control command; the latter never ask for more levels than there are loops. */
  function RunSimple(w: World, st: State, c: Command): (State, Result)
    requires !c.Loop?
  {
    match c
    case Simple(id) =>
      var after := st.(log := st.log + [id]);
      (match w(st.log, id)
       case Status(code) => (after.(exitCode := code), Ok)
       case Raises(code) => (after, Err(Other(code))))
    case BreakCommand(levels) =>
      if st.loopDepth == 0 then (st.(exitCode := 0), Ok)
      else if levels == 0 then (st.(exitCode := 1), Ok)
      else (st, Err(Break(Min(levels, st.loopDepth))))
    case ContinueCommand(levels) =>
      if st.loopDepth == 0 then (st.(exitCode := 0), Ok)
      else if levels == 0 then (st.(exitCode := 1), Ok)
      else (st, Err(Continue(Min(levels, st.loopDepth))))
  }

  /** At top level a stray break or continue is ignored. */
  function Absorbed(st: State, r: Result): (State, Result) {
    if r.Err? && Unwinds(r.error) && st.loopDepth == 0 then (st.(exitCode := 0), Ok) else (st, r)
  }

  /** A list of commands; `fuel` bounds the depth of loop iterations, and running out of it is no result. */
  function ExecList(w: World, fuel: nat, st: State, commands: seq<Command>): (r: Run)
    ensures r.Done? ==> r.state.loopDepth == st.loopDepth && r.state.suppressed == st.suppressed
    decreases fuel, |commands|, 2
  {
    if commands == [] then Done(st, Ok)
    else
      match ExecCommand(w, fuel, st, commands[0])
      case Timeout => Timeout
      case Done(after, Err(e)) => Done(after, Err(e))
      case Done(after, Ok) => ExecList(w, fuel, after, commands[1..])
  }

  function ExecCommand(w: World, fuel: nat, st: State, c: Command): (r: Run)
    ensures r.Done? ==> r.state.loopDepth == st.loopDepth && r.state.suppressed == st.suppressed
    decreases fuel, 0, 1
  {
    if c.Loop? then ExecLoop(w, fuel, st, c, false, 0)
    else
      var (ran, result) := RunSimple(w, st, c);
      var (after, final) := Absorbed(ran, result);
      Done(after, final)
  }

  /** The status of a finished loop: zero if its body never ran, else that of the last body that ended normally,
      unless the loop ended with status zero. */
  function Finished(exitCode: int, ran: bool, last: int): int { if !ran || exitCode == 0 then 0 else last }

  function ExecLoop(w: World, fuel: nat, st: State, c: LoopCommand, ran: bool, last: int): (r: Run)
    ensures r.Done? ==> r.state.loopDepth == st.loopDepth && r.state.suppressed == st.suppressed
    decreases fuel, 0, 0
  {
    if fuel == 0 then Timeout
    else
      match ExecList(w, fuel - 1, st.(suppressed := st.suppressed + 1), c.condition)
      case Timeout => Timeout
      case Done(tested, Err(e)) => Done(tested.(suppressed := st.suppressed), Err(e))
      case Done(tested, Ok) =>
        var st1 := tested.(suppressed := st.suppressed);
        if (st1.exitCode == 0) == c.until then Done(st1.(exitCode := Finished(st1.exitCode, ran, last)), Ok)
        else
          match ExecList(w, fuel - 1, st1.(loopDepth := st1.loopDepth + 1), c.body)
          case Timeout => Timeout
          case Done(inner, result) =>
            var st2 := inner.(loopDepth := st.loopDepth);
            match result
            case Ok => ExecLoop(w, fuel - 1, st2, c, true, st2.exitCode)
            case Err(Break(level)) =>
              if level <= 1 then Done(st2.(exitCode := Finished(0, true, last)), Ok)
              else Done(st2, Err(Break(level - 1)))
            case Err(Continue(level)) =>
              if level <= 1 then ExecLoop(w, fuel - 1, st2.(exitCode := 0), c, true, last)
              else Done(st2, Err(Continue(level - 1)))
            case Err(Other(code)) => Done(st2, Err(Other(code)))
  }

  // ----- The executor object

  class Executor {
    const world: World
    var loopDepth: nat
    var suppressed: nat
    var exitCode: int
    var log: seq<nat>

    constructor (world: World)
      ensures this.world == world && Current() == State(0, 0, 0, [])
    {
      this.world := world;
      loopDepth, suppressed, exitCode, log := 0, 0, 0, [];
    }

    ghost function Current(): State reads this { State(loopDepth, suppressed, exitCode, log) }

    /** The outcome is the specified one; without fuel there is none. */
    ghost predicate Agrees(r: Option<Result>, run: Run)
      reads this
    {
      match run
      case Timeout => r.None?
      case Done(st, result) => r == Some(result) && Current() == st
    }

    method ExecuteCommand(c: Command) returns (r: Result)
      requires !c.Loop?
      modifies this
      ensures (Current(), r) == RunSimple(world, old(Current()), c)
    {
      match c
      case Simple(id) =>
        var effect := world(log, id);
        log := log + [id];
        match effect {
          case Status(code) =>
            exitCode := code;
            return Ok;
          case Raises(code) => return Err(Other(code));
        }
      case BreakCommand(levels) =>
        if loopDepth == 0 {
          exitCode := 0;
          return Ok;
        }
        if levels == 0 {
          exitCode := 1;
          return Ok;
        }
        return Err(Break(Min(levels, loopDepth)));
      case ContinueCommand(levels) =>
        if loopDepth == 0 {
          exitCode := 0;
          return Ok;
        }
        if levels == 0 {
          exitCode := 1;
          return Ok;
        }
        return Err(Continue(Min(levels, loopDepth)));
    }

    method ExecuteAst(fuel: nat, commands: seq<Command>) returns (r: Option<Result>)
      modifies this
      ensures Agrees(r, ExecList(world, fuel, old(Current()), commands))
      decreases fuel, 1
    {
      ghost var goal := ExecList(world, fuel, Current(), commands);
      var index := 0;
      assert commands[0..] == commands;
      while index < |commands|
        invariant index <= |commands| && ExecList(world, fuel, Current(), commands[index..]) == goal
      {
        assert commands[index..][0] == commands[index] && commands[index..][1..] == commands[index + 1..];
        var result := Ok;
        if commands[index].Loop? {
          var ended := ExecuteSimpleLoop(fuel, commands[index]);
          if ended.None? { return None; }
          result := ended.value;
        } else {
          result := ExecuteCommand(commands[index]);
          if result.Err? && Unwinds(result.error) && loopDepth == 0 {
            exitCode := 0;
            result := Ok;
          }
        }
        if result.Err? { return Some(result); }
        index := index + 1;
      }
      return Some(Ok);
    }

    method ExecuteSimpleLoop(fuel: nat, c: LoopCommand) returns (r: Option<Result>)
      modifies this
      ensures Agrees(r, ExecLoop(world, fuel, old(Current()), c, false, 0))
      decreases fuel, 0
    {
      ghost var goal := ExecLoop(world, fuel, Current(), c, false, 0);
      var ranBody, lastBodyStatus := false, 0;
      var left: nat := fuel;
      while true
        invariant left <= fuel && ExecLoop(world, left, Current(), c, ranBody, lastBodyStatus) == goal
        decreases left
      {
        if left == 0 { return None; }
        left := left - 1;
        suppressed := suppressed + 1;
        var tested := ExecuteAst(left, c.condition);
        if tested.None? { return None; }
        suppressed := suppressed - 1;
        if tested.value.Err? { return tested; }
        if (exitCode == 0) == c.until { break; }

        ranBody := true;
        loopDepth := loopDepth + 1;
        var result := ExecuteAst(left, c.body);
        if result.None? { return None; }
        loopDepth := loopDepth - 1;
        match result.value {
          case Ok => lastBodyStatus := exitCode;
          case Err(Break(level)) =>
            if level > 1 { return Some(Err(Break(level - 1))); }
            exitCode := 0;
            break;
          case Err(Continue(level)) =>
            if level > 1 { return Some(Err(Continue(level - 1))); }
            exitCode := 0;
          case Err(Other(_)) => return result;
        }
      }
      if !ranBody {
        exitCode := 0;
      } else if exitCode != 0 {
        exitCode := lastBodyStatus;
      }
      return Some(Ok);
    }
  }
}
