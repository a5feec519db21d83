/**
 What `Smp` can always do next: a CPU that is in the kernel, or waits for the lock,
 can come out again, unless one finds nothing to run and stays in the monitor.
 */
module SmpProgress {
  import Paging
  import Envs
  import opened Smp
  import Scheduler

  lemma Cons(s: Sys, c: nat, a: Action, rest: seq<Move>)
    requires Enabled(s, c, a) && CanRun(Apply(s, c, a), rest)
    ensures CanRun(s, [Move(c, a)] + rest) && Run(s, [Move(c, a)] + rest) == Run(Apply(s, c, a), rest)
  {
    assert ([Move(c, a)] + rest)[1..] == rest;
  }

  lemma {:induction false} RunThen(s: Sys, a: seq<Move>, b: seq<Move>)
    requires CanRun(s, a) && CanRun(Run(s, a), b)
    ensures CanRun(s, a + b) && Run(s, a + b) == Run(Run(s, a), b)
    decreases |a|
  {
    if a == [] {
      assert a + b == b;
    } else {
      RunThen(Apply(s, a[0].cpu, a[0].action), a[1..], b);
      assert (a + b)[1..] == a[1..] + b;
    }
  }

  // Steps of CPU `c` alone, which leave the other CPUs where they are
  ghost predicate OwnRun(s: Sys, c: nat, moves: seq<Move>) {
    CanRun(s, moves) && Inv(Run(s, moves)) && OthersSame(s, Run(s, moves), c)
  }

  lemma OwnMore(s: Sys, c: nat, a: Action, rest: seq<Move>)
    requires Inv(s) && Enabled(s, c, a) && OwnRun(Apply(s, c, a), c, rest)
    ensures OwnRun(s, c, [Move(c, a)] + rest) && Run(s, [Move(c, a)] + rest) == Run(Apply(s, c, a), rest)
  {
    hide Inv, CanDo, Apply, CanRun, Run;
    assert OthersSame(s, Apply(s, c, a), c) by { StepIsOwn(s, c, a); }
    Cons(s, c, a, rest);
  }

  lemma StepIsOwn(s: Sys, c: nat, a: Action)
    requires Enabled(s, c, a)
    ensures OthersSame(s, Apply(s, c, a), c)
  {
    hide CanDo;
  }

  // How many steps of its own a CPU with the lock is from giving it up
  function ToRelease(pc: Pc): nat {
    match pc
    case LockRecord(_) => 10
    case TrapBody => 9
    case Dispatch => 8
    case TrapEnd => 7
    case Boot => 7
    case Sched => 6
    case EnvRun(_) => 5
    case Halt => 5
    case UnlockCheck(_) => 4
    case UnlockClear(_) => 3
    case UnlockXchg(_) => 2
    case _ => 0
  }

  // Outside the kernel
  predicate Out(pc: Pc) {
    pc.User? || pc.Idle?
  }

  // One of its steps that gets it closer
  lemma NextStep(s: Sys, c: nat) returns (a: Action)
    requires Inv(s) && |s.envs| > 0 && c < |s.cpus| && Holds(s.cpus[c].pc) && !s.cpus[c].pc.Monitor?
    ensures Enabled(s, c, a)
    ensures var s' := Apply(s, c, a); var pc := s'.cpus[c].pc;
            if Holds(pc) then
              ToRelease(pc) < ToRelease(s.cpus[c].pc) && (pc.Monitor? ==> s.cpus[c].pc.Halt? && !AnyoneToRun(s'))
            else Out(pc) && !s'.locked
  {
    hide FreshDir, DistinctDirs, DistinctEnvs, Exclusion, EnvOk, Scheduler.Chosen;
    assert CpuOk(s, c) && LockOk(s, c);
    if s.cpus[c].pc.Sched? {
      var next := Scheduler.ChoiceExists(s.envs, s.cpus[c].env);
      a := Choose(next);
    } else {
      a := if s.cpus[c].pc.Dispatch? then Other else Tick;
    }
  }

  // A CPU with the lock comes out of the kernel and leaves the lock free, or it finds
  // nothing to run.
  lemma {:induction false} HolderLeaves(s: Sys, c: nat) returns (moves: seq<Move>)
    requires Inv(s) && |s.envs| > 0 && c < |s.cpus| && Holds(s.cpus[c].pc) && !s.cpus[c].pc.Monitor?
    ensures OwnRun(s, c, moves)
    ensures var s' := Run(s, moves);
            if s'.cpus[c].pc.Monitor? then !AnyoneToRun(s') else Out(s'.cpus[c].pc) && !s'.locked
    decreases ToRelease(s.cpus[c].pc)
  {
    hide Inv, CanDo, Apply, OwnRun, AnyoneToRun;
    var a := NextStep(s, c);
    StepKeepsInv(s, c, a);
    StepIsOwn(s, c, a);
    var s1 := Apply(s, c, a);
    var rest: seq<Move> := [];
    NoMoves(s1, c);
    if Holds(s1.cpus[c].pc) && !s1.cpus[c].pc.Monitor? { rest := HolderLeaves(s1, c); }
    OwnMore(s, c, a, rest);
    moves := [Move(c, a)] + rest;
  }

  lemma NoMoves(s: Sys, c: nat)
    requires Inv(s)
    ensures OwnRun(s, c, []) && Run(s, []) == s
  {
  }

  // A CPU on its way to the lock comes to the xchg.
  predicate OnItsWay(pc: Pc) {
    pc.Start? || pc.TrapEntry? || pc.LockCheck? || pc.LockXchg?
  }

  function ToXchg(pc: Pc): nat {
    if pc.LockXchg? then 0 else if pc.LockCheck? then 1 else 2
  }

  lemma WayStep(s: Sys, c: nat)
    requires Inv(s) && |s.envs| > 0 && c < |s.cpus| && OnItsWay(s.cpus[c].pc) && !s.cpus[c].pc.LockXchg?
    ensures Enabled(s, c, Tick)
    ensures var s' := Apply(s, c, Tick);
            OnItsWay(s'.cpus[c].pc) && ToXchg(s'.cpus[c].pc) < ToXchg(s.cpus[c].pc) && s'.locked == s.locked
  {
    hide DistinctDirs, DistinctEnvs, Exclusion, EnvOk;
    assert CpuOk(s, c) && LockOk(s, c);
  }

  lemma {:induction false} ReachesXchg(s: Sys, c: nat) returns (moves: seq<Move>)
    requires Inv(s) && |s.envs| > 0 && c < |s.cpus| && OnItsWay(s.cpus[c].pc)
    ensures OwnRun(s, c, moves) && Run(s, moves).cpus[c].pc.LockXchg? && Run(s, moves).locked == s.locked
    decreases ToXchg(s.cpus[c].pc)
  {
    hide Inv, CanDo, Apply, OwnRun;
    moves := [];
    NoMoves(s, c);
    if !s.cpus[c].pc.LockXchg? {
      WayStep(s, c);
      StepKeepsInv(s, c, Tick);
      StepIsOwn(s, c, Tick);
      var rest := ReachesXchg(Apply(s, c, Tick), c);
      OwnMore(s, c, Tick, rest);
      moves := [Move(c, Tick)] + rest;
    }
  }

  // With the lock free the xchg takes it.
  lemma TakesLock(s: Sys, c: nat)
    requires Inv(s) && |s.envs| > 0 && c < |s.cpus| && s.cpus[c].pc.LockXchg? && !s.locked
    ensures Enabled(s, c, Tick) && Inv(Apply(s, c, Tick)) && Apply(s, c, Tick).cpus[c].pc.LockRecord?
    ensures OthersSame(s, Apply(s, c, Tick), c)
  {
    hide DistinctDirs, DistinctEnvs, Exclusion, EnvOk;
    assert CpuOk(s, c) && LockOk(s, c);
    StepKeepsInv(s, c, Tick);
  }

  ghost predicate InMonitor(s: Sys) {
    exists h :: 0 <= h < |s.cpus| && s.cpus[h].pc.Monitor?
  }

  // From any state a CPU comes out of the kernel, or one stays in the monitor.
  lemma CpuComesOut(s: Sys, c: nat) returns (moves: seq<Move>)
    requires Inv(s) && LockHasHolder(s) && |s.envs| > 0 && c < |s.cpus|
    ensures CanRun(s, moves) && c < |Run(s, moves).cpus|
    ensures InMonitor(Run(s, moves)) || Out(Run(s, moves).cpus[c].pc)
  {
    assert LockOk(s, c);
    moves := [];
    if Out(s.cpus[c].pc) || s.cpus[c].pc.Monitor? {
    } else if Holds(s.cpus[c].pc) {
      moves := HolderLeaves(s, c);
    } else {
      var way := ReachesXchg(s, c);
      var s1 := Run(s, way);
      var clear: seq<Move> := [];
      NoMoves(s1, c);
      if s.locked {
        var h :| 0 <= h < |s.cpus| && Holds(s.cpus[h].pc);
        if !s.cpus[h].pc.Monitor? { clear := HolderLeaves(s1, h); }
      }
      moves := way + clear;
      RunThen(s, way, clear);
      var s2 := Run(s1, clear);
      if !InMonitor(s2) {
        assert s2.cpus[c] == s1.cpus[c] && !s2.locked;
        var last := TakeAndLeave(s2, c);
        RunThen(s, moves, last);
        moves := moves + last;
      }
    }
  }

  lemma TakeAndLeave(s: Sys, c: nat) returns (moves: seq<Move>)
    requires Inv(s) && |s.envs| > 0 && c < |s.cpus| && s.cpus[c].pc.LockXchg? && !s.locked
    ensures OwnRun(s, c, moves) && (Run(s, moves).cpus[c].pc.Monitor? || Out(Run(s, moves).cpus[c].pc))
  {
    hide Inv, CanDo, Apply, OwnRun;
    TakesLock(s, c);
    var rest := HolderLeaves(Apply(s, c, Tick), c);
    OwnMore(s, c, Tick, rest);
    moves := [Move(c, Tick)] + rest;
  }

  // Whatever has happened since power-on, each CPU that is in the kernel, or waits for
  // its lock, can come back to user mode or to rest, unless some CPU is, or comes to
  // be, in the monitor for good.
  lemma NoDeadlock(s: Sys, moves: seq<Move>, c: nat) returns (more: seq<Move>)
    requires Init(s) && CanRun(s, moves) && |s.envs| > 0 && c < |s.cpus|
    ensures CanRun(s, moves + more) && c < |Run(s, moves + more).cpus|
    ensures var s' := Run(s, moves + more); InMonitor(s') || s'.cpus[c].pc.User? || s'.cpus[c].pc.Idle?
  {
    RunKeepsInv(s, moves);
    RunKeepsHolder(s, moves);
    RunKeepsEnvs(s, moves);
    more := CpuComesOut(Run(s, moves), c);
    RunThen(s, moves, more);
  }

  // ----- a call returns -----

  // On the way back to the environment `x` it has
  predicate Returning(s: Sys, c: nat, x: nat)
    requires c < |s.cpus|
  {
    && s.cpus[c].env == Paging.Some(x) && x < |s.envs| && s.envs[x].status == Envs.RUNNING
    && match s.cpus[c].pc
       case TrapEnd => true
       case EnvRun(next) => next == x
       case UnlockCheck(idle) => !idle
       case UnlockClear(idle) => !idle
       case UnlockXchg(idle) => !idle
       case _ => false
  }

  lemma ReturnStep(s: Sys, c: nat, x: nat)
    requires Inv(s) && c < |s.cpus| && Returning(s, c, x)
    ensures Enabled(s, c, Tick)
    ensures var s' := Apply(s, c, Tick);
            && s'.envs == s.envs && s'.cpus[c].env == Paging.Some(x)
            && (s'.cpus[c].pc.User? || (Returning(s', c, x) && ToRelease(s'.cpus[c].pc) < ToRelease(s.cpus[c].pc)))
  {
    hide DistinctDirs, DistinctEnvs, Exclusion, EnvOk;
    assert CpuOk(s, c) && LockOk(s, c);
  }

  predicate AllTicks(moves: seq<Move>, c: nat) {
    forall i :: 0 <= i < |moves| ==> moves[i] == Move(c, Tick)
  }

  // Its only steps lead to user mode, with the environment it had and nobody changed.
  ghost predicate ComesBack(s: Sys, c: nat, x: nat, moves: seq<Move>) {
    && OwnRun(s, c, moves) && AllTicks(moves, c) && c < |Run(s, moves).cpus|
    && Run(s, moves).cpus[c].pc.User? && Run(s, moves).cpus[c].env == Paging.Some(x) && Run(s, moves).envs == s.envs
  }

  lemma {:induction false} TicksToUser(s: Sys, c: nat, x: nat) returns (moves: seq<Move>)
    requires Inv(s) && c < |s.cpus| && Returning(s, c, x)
    ensures ComesBack(s, c, x, moves)
    decreases ToRelease(s.cpus[c].pc)
  {
    hide Inv, CanDo, Apply, OwnRun, Returning;
    ReturnStep(s, c, x);
    StepKeepsInv(s, c, Tick);
    StepIsOwn(s, c, Tick);
    var s1 := Apply(s, c, Tick);
    moves := [];
    NoMoves(s1, c);
    if !s1.cpus[c].pc.User? { moves := TicksToUser(s1, c, x); }
    OwnMore(s, c, Tick, moves);
    moves := [Move(c, Tick)] + moves;
  }

  // A system call or fault that leaves its environment running, and does not yield,
  // goes back to it: the CPU has no other way.
  lemma CallReturns(s: Sys, c: nat, a: Action, x: nat) returns (moves: seq<Move>)
    requires Inv(s) && Enabled(s, c, a) && s.cpus[c].pc.Dispatch? && s.cpus[c].env == Paging.Some(x) && !a.Yield?
    requires x < |Apply(s, c, a).envs| && Apply(s, c, a).cpus[c].env == Paging.Some(x)
    requires Apply(s, c, a).envs[x].status == Envs.RUNNING
    ensures ComesBack(Apply(s, c, a), c, x, moves)
  {
    hide DistinctDirs, DistinctEnvs, Exclusion, EnvOk, CpuOk, LockOk, FreshDir, ComesBack;
    StepKeepsInv(s, c, a);
    moves := TicksToUser(Apply(s, c, a), c, x);
  }

  lemma {:induction false} RunKeepsEnvs(s: Sys, moves: seq<Move>)
    requires CanRun(s, moves)
    ensures |Run(s, moves).envs| == |s.envs|
    decreases |moves|
  {
    hide CanDo;
    if moves != [] {
      StepIsOwn(s, moves[0].cpu, moves[0].action);
      RunKeepsEnvs(Apply(s, moves[0].cpu, moves[0].action), moves[1..]);
    }
  }
}
