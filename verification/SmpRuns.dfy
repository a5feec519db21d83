/**
 Runs from power-on in which a hypothesis of `Smp` is broken: twice an environment
 ends up in user mode on two CPUs, once a CPU keeps a freed directory loaded.
 */
module SmpRuns {
  import opened Paging
  import opened Envs
  import opened Smp
  import Scheduler

  ghost predicate CanFollow(s: Sys, s': Sys) {
    exists c: nat, a :: CanDo(s, c, a) && s' == Apply(s, c, a)
  }

  // A run in which system calls take any arguments
  ghost predicate Trace(tr: seq<Sys>) {
    tr != [] && forall i :: 0 <= i < |tr| - 1 ==> CanFollow(tr[i], tr[i + 1])
  }

  // `to` follows from `from`, the last state of a run, by a longer run.
  ghost predicate Longer(from: seq<Sys>, to: seq<Sys>, s: Sys) {
    from != [] && to != [] && Trace(to) && to[0] == from[0] && to[|to| - 1] == s
  }

  function Now(tr: seq<Sys>): Sys
    requires tr != []
  {
    tr[|tr| - 1]
  }

  lemma Extend(tr: seq<Sys>, c: nat, a: Action) returns (tr': seq<Sys>)
    requires Trace(tr) && CanDo(Now(tr), c, a)
    ensures Longer(tr, tr', Apply(Now(tr), c, a))
  {
    assert CanFollow(Now(tr), Apply(Now(tr), c, a));
    tr' := tr + [Apply(Now(tr), c, a)];
  }

  // ----- what a CPU does between two choices -----

  function Locked(s: Sys, c: nat): Sys {
    s.(locked := true, owner := Some(c))
  }

  function Unlocked(s: Sys): Sys {
    s.(locked := false, owner := None)
  }

  // CPU `c` can take a step at all.
  ghost predicate Sound(s: Sys, c: nat) {
    c < |s.cpus| && |s.envs| > 0 && (s.cpus[c].env.Some? ==> s.cpus[c].env.value < |s.envs|)
  }

  // spin_lock on a free lock
  lemma Acquire(tr: seq<Sys>, c: nat, g: Goal) returns (tr': seq<Sys>)
    requires Trace(tr) && Sound(Now(tr), c) && Now(tr).cpus[c].pc == LockCheck(g) && !Now(tr).locked
    ensures Longer(tr, tr', Locked(Goto(Now(tr), c, AfterLock(g)), c))
  {
    hide Trace, AnyoneToRun;
    tr' := Extend(tr, c, Tick);
    tr' := Extend(tr', c, Tick);
    tr' := Extend(tr', c, Tick);
  }

  // spin_unlock by its owner
  lemma Release(tr: seq<Sys>, c: nat, idle: bool) returns (tr': seq<Sys>)
    requires Trace(tr) && Sound(Now(tr), c) && Now(tr).cpus[c].pc == UnlockCheck(idle)
    requires Now(tr).locked && Now(tr).owner == Some(c)
    ensures Longer(tr, tr', Unlocked(Goto(Now(tr), c, if idle then Idle else User)))
  {
    hide Trace, AnyoneToRun;
    tr' := Extend(tr, c, Tick);
    tr' := Extend(tr', c, Tick);
    tr' := Extend(tr', c, Tick);
  }

  // A trap from user mode, up to trap_dispatch
  lemma EnterKernel(tr: seq<Sys>, c: nat) returns (tr': seq<Sys>)
    requires Trace(tr) && Sound(Now(tr), c) && Now(tr).cpus[c].pc.User? && !Now(tr).cpus[c].halted && !Now(tr).locked
    requires Current(Now(tr), c) && Now(tr).envs[Now(tr).cpus[c].env.value].status != DYING
    ensures Longer(tr, tr', Locked(Goto(Now(tr), c, Dispatch), c))
  {
    hide Trace, AnyoneToRun;
    tr' := Extend(tr, c, Trap);
    tr' := Extend(tr', c, Tick);
    tr' := Acquire(tr', c, ToTrap);
    tr' := Extend(tr', c, Tick);
  }

  // An interrupt on a halted CPU, up to sched_yield
  lemma WakeUp(tr: seq<Sys>, c: nat) returns (tr': seq<Sys>)
    requires Trace(tr) && Sound(Now(tr), c) && !Now(tr).locked
    requires Now(tr).cpus[c] == Cpu(Idle, None, None, true)
    ensures Longer(tr, tr', Locked(SetCpu(Now(tr), c, Cpu(Sched, None, None, false)), c))
  {
    hide Trace, AnyoneToRun;
    tr' := Extend(tr, c, Trap);
    tr' := Extend(tr', c, Tick);
    tr' := Acquire(tr', c, AfterIdle(false));
    tr' := Extend(tr', c, Yield);
  }

  // sched_yield picks `x`, and env_run leaves for user mode.
  lemma RunNext(tr: seq<Sys>, c: nat, x: nat) returns (tr': seq<Sys>)
    requires Trace(tr) && Sound(Now(tr), c) && Now(tr).cpus[c].pc.Sched? && x < |Now(tr).envs|
    requires Now(tr).locked && Now(tr).owner == Some(c)
    requires Scheduler.Chosen(Now(tr).envs, Now(tr).cpus[c].env, Some(x))
    ensures Longer(tr, tr', Unlocked(Goto(RunEnv(Now(tr), c, x), c, User)))
  {
    hide Trace, AnyoneToRun, Scheduler.Chosen;
    tr' := Extend(tr, c, Choose(Some(x)));
    tr' := Extend(tr', c, Tick);
    tr' := Release(tr', c, false);
  }

  // sched_yield finds nobody, and sched_halt gives up the lock.
  lemma HaltIdle(tr: seq<Sys>, c: nat) returns (tr': seq<Sys>)
    requires Trace(tr) && Sound(Now(tr), c) && Now(tr).cpus[c].pc.Sched?
    requires Now(tr).locked && Now(tr).owner == Some(c) && AnyoneToRun(Now(tr))
    requires Scheduler.Chosen(Now(tr).envs, Now(tr).cpus[c].env, None)
    ensures Longer(tr, tr', Unlocked(SetCpu(Now(tr), c, Cpu(Idle, None, None, true))))
  {
    hide Trace, Scheduler.Chosen;
    tr' := Extend(tr, c, Choose(None));
    assert Now(tr').envs == Now(tr).envs && AnyoneToRun(Now(tr'));
    tr' := Extend(tr', c, Tick);
    tr' := Release(tr', c, true);
  }

  // The end of trap() for an environment that is still running
  lemma BackToUser(tr: seq<Sys>, c: nat) returns (tr': seq<Sys>)
    requires Trace(tr) && Sound(Now(tr), c) && Now(tr).cpus[c].pc.TrapEnd? && Current(Now(tr), c)
    requires Now(tr).locked && Now(tr).owner == Some(c) && Now(tr).envs[Now(tr).cpus[c].env.value].status == RUNNING
    ensures Longer(tr, tr', Unlocked(Goto(Now(tr), c, User)))
  {
    hide Trace, AnyoneToRun;
    tr' := Extend(tr, c, Tick);
    tr' := Extend(tr', c, Tick);
    tr' := Release(tr', c, false);
  }

  // ... and for one that is not
  lemma ToSched(tr: seq<Sys>, c: nat) returns (tr': seq<Sys>)
    requires Trace(tr) && Sound(Now(tr), c) && Now(tr).cpus[c].pc.TrapEnd? && Current(Now(tr), c)
    requires Now(tr).envs[Now(tr).cpus[c].env.value].status != RUNNING
    ensures Longer(tr, tr', Goto(Now(tr), c, Sched))
  {
    hide Trace, AnyoneToRun;
    tr' := Extend(tr, c, Tick);
  }

  // ----- two CPUs, two slots -----

  function Slot(st: Status, pgdir: Option<nat>, recving: bool): Env {
    Env(None, 0, 0, st, pgdir, 0, recving, 0, 0, 0, Perm(0, {}), 0, FRESH_TF, ENV_TYPE_USER, 0)
  }

  const VACANT: Env := Slot(FREE, None, false)

  // Who is current where; `first` and `second` are the program counters.
  function Two(first: Cpu, second: Cpu, zero: Env, one: Env, owner: Option<nat>): Sys {
    Sys([first, second], [zero, one], owner.Some?, owner)
  }

  function On(pc: Pc, x: nat): Cpu {
    Cpu(pc, Some(x), Some(7 + x), false)
  }

  const RESTING: Cpu := Cpu(Idle, None, None, true)
  const OFF: Cpu := Cpu(Start, None, None, false)

  function PowerOn(): Sys {
    Two(OFF, OFF, VACANT, VACANT, None)
  }

  lemma PowerOnIsInit()
    ensures Init(PowerOn())
  {
  }

  lemma OnlyOne(envs: seq<Env>, cur: Option<nat>, x: nat)
    requires |envs| == 2 && x < 2 && envs[x].status == RUNNABLE && envs[1 - x].status != RUNNABLE
    requires cur.Some? ==> cur.value < 2 && envs[cur.value].pr >= envs[x].pr
    ensures Scheduler.Chosen(envs, cur, Some(x))
  {
    var c := if cur.Some? then cur.value else 0;
    assert Scheduler.BestOf(envs, c, 2, Some(x));
  }

  lemma Nobody(envs: seq<Env>, cur: Option<nat>)
    requires |envs| == 2 && envs[0].status != RUNNABLE && envs[1].status != RUNNABLE
    requires cur.Some? ==> cur.value < 2 && envs[cur.value].status != RUNNING
    ensures Scheduler.Chosen(envs, cur, None)
  {
    var c := if cur.Some? then cur.value else 0;
    assert Scheduler.BestOf(envs, c, 2, None);
  }

  function Parent(st: Status): Env {
    Slot(st, Some(7), false)
  }

  function Child(st: Status, recving: bool): Env {
    Slot(st, Some(8), recving)
  }

  // The boot CPU creates an environment and runs it; the other finds nothing to do.
  lemma Boots() returns (tr: seq<Sys>)
    ensures Longer([PowerOn()], tr, Two(On(User, 0), RESTING, Parent(RUNNING), VACANT, None))
  {
    tr := FirstCpuBoots();
    hide Trace, Scheduler.Chosen;
    tr := Extend(tr, 1, Tick);
    assert Now(tr) == Two(On(User, 0), Cpu(LockCheck(Goal.ToSched), None, None, false), Parent(RUNNING), VACANT, None);
    tr := Acquire(tr, 1, Goal.ToSched);
    assert Now(tr) == Two(On(User, 0), Cpu(Sched, None, None, false), Parent(RUNNING), VACANT, Some(1));
    Nobody(Now(tr).envs, None);
    tr := HaltIdle(tr, 1);
  }

  lemma FirstCpuLocks() returns (tr: seq<Sys>)
    ensures Longer([PowerOn()], tr, Two(Cpu(Boot, None, None, false), OFF, VACANT, VACANT, Some(0)))
  {
    tr := [PowerOn()];
    assert Trace(tr);
    hide Trace, AnyoneToRun;
    tr := Extend(tr, 0, Tick);
    assert Now(tr) == Two(Cpu(LockCheck(ToBoot), None, None, false), OFF, VACANT, VACANT, None);
    tr := Acquire(tr, 0, ToBoot);
  }

  lemma FirstCpuBoots() returns (tr: seq<Sys>)
    ensures Longer([PowerOn()], tr, Two(On(User, 0), OFF, Parent(RUNNING), VACANT, None))
  {
    hide Trace, AnyoneToRun, Scheduler.Chosen;
    tr := FirstCpuLocks();
    tr := Extend(tr, 0, Create(0, 7));
    tr := Extend(tr, 0, Tick);
    assert Now(tr) == Two(Cpu(Sched, None, None, false), OFF, Parent(RUNNABLE), VACANT, Some(0));
    OnlyOne(Now(tr).envs, None, 0);
    tr := RunNext(tr, 0, 0);
  }

  /**
   An environment that marks itself runnable: env_run leaves the status of curenv
   alone, so the other CPU takes it too.
   */
  lemma SelfRunnableRunsTwice() returns (tr: seq<Sys>)
    ensures Trace(tr) && Init(tr[0])
    ensures Now(tr) == Two(On(User, 0), On(User, 0), Parent(RUNNING), VACANT, None)
  {
    PowerOnIsInit();
    tr := Boots();
    tr := EnterKernel(tr, 0);
    tr := Extend(tr, 0, SetStatus(0, RUNNABLE));
    assert Now(tr) == Two(On(TrapEnd, 0), RESTING, Parent(RUNNABLE), VACANT, Some(0));
    tr := ToSched(tr, 0);
    OnlyOne(Now(tr).envs, Some(0), 0);
    tr := RunNext(tr, 0, 0);
    assert Now(tr) == Two(On(User, 0), RESTING, Parent(RUNNABLE), VACANT, None);
    tr := WakeUp(tr, 1);
    OnlyOne(Now(tr).envs, None, 0);
    tr := RunNext(tr, 1, 0);
  }

  // A forked child runs on the second CPU and blocks in sys_ipc_recv.
  lemma ChildWaits() returns (tr: seq<Sys>)
    ensures Longer([PowerOn()], tr, Two(On(User, 0), RESTING, Parent(RUNNING), Child(NOT_RUNNABLE, true), None))
  {
    tr := ChildRuns();
    tr := EnterKernel(tr, 1);
    tr := Extend(tr, 1, IpcRecv);
    assert Now(tr) == Two(On(User, 0), On(TrapEnd, 1), Parent(RUNNING), Child(NOT_RUNNABLE, true), Some(1));
    tr := ToSched(tr, 1);
    Nobody(Now(tr).envs, Some(1));
    tr := HaltIdle(tr, 1);
  }

  lemma ChildStarts() returns (tr: seq<Sys>)
    ensures Longer([PowerOn()], tr, Two(On(User, 0), RESTING, Parent(RUNNING), Child(RUNNABLE, false), None))
  {
    tr := Boots();
    tr := EnterKernel(tr, 0);
    tr := Extend(tr, 0, Exofork(1, 8));
    assert Now(tr) == Two(On(TrapEnd, 0), RESTING, Parent(RUNNING), Child(NOT_RUNNABLE, false), Some(0));
    tr := BackToUser(tr, 0);
    tr := EnterKernel(tr, 0);
    tr := Extend(tr, 0, SetStatus(1, RUNNABLE));
    assert Now(tr) == Two(On(TrapEnd, 0), RESTING, Parent(RUNNING), Child(RUNNABLE, false), Some(0));
    tr := BackToUser(tr, 0);
  }

  lemma ChildRuns() returns (tr: seq<Sys>)
    ensures Longer([PowerOn()], tr, Two(On(User, 0), On(User, 1), Parent(RUNNING), Child(RUNNING, false), None))
  {
    tr := ChildStarts();
    tr := WakeUp(tr, 1);
    OnlyOne(Now(tr).envs, None, 1);
    tr := RunNext(tr, 1, 1);
  }

  // The parent starts the waiting child, and only then sends to it.
  lemma ChildMarkedAgain() returns (tr: seq<Sys>)
    ensures Longer([PowerOn()], tr, Two(On(User, 0), On(User, 1), Parent(RUNNING), Child(RUNNABLE, false), None))
  {
    tr := ChildWaits();
    tr := EnterKernel(tr, 0);
    tr := Extend(tr, 0, SetStatus(1, RUNNABLE));
    tr := BackToUser(tr, 0);
    assert Now(tr) == Two(On(User, 0), RESTING, Parent(RUNNING), Child(RUNNABLE, true), None);
    tr := WakeUp(tr, 1);
    OnlyOne(Now(tr).envs, None, 1);
    tr := RunNext(tr, 1, 1);
    assert Now(tr) == Two(On(User, 0), On(User, 1), Parent(RUNNING), Child(RUNNING, true), None);
    tr := EnterKernel(tr, 0);
    tr := Extend(tr, 0, IpcSend(1));
    assert Now(tr) == Two(On(TrapEnd, 0), On(User, 1), Parent(RUNNING), Child(RUNNABLE, false), Some(0));
    tr := BackToUser(tr, 0);
  }

  /**
   A parent that makes a waiting receiver runnable: the message it sends later marks
   the receiver runnable although it runs already, and a second CPU takes it.
   */
  lemma StartedReceiverRunsTwice() returns (tr: seq<Sys>)
    ensures Trace(tr) && Init(tr[0])
    ensures Now(tr) == Two(On(User, 1), On(User, 1), Parent(RUNNABLE), Child(RUNNING, false), None)
  {
    PowerOnIsInit();
    tr := ChildMarkedAgain();
    tr := EnterKernel(tr, 0);
    tr := Extend(tr, 0, Yield);
    assert Now(tr) == Two(On(Sched, 0), On(User, 1), Parent(RUNNING), Child(RUNNABLE, false), Some(0));
    OnlyOne(Now(tr).envs, Some(0), 1);
    tr := RunNext(tr, 0, 1);
  }

  /**
   A parent that destroys a running child twice: the second time the child is DYING,
   and its directory is freed while the other CPU has it loaded.
   */
  lemma DestroyedTwiceLosesDirectory() returns (tr: seq<Sys>)
    ensures Trace(tr) && Init(tr[0])
    ensures Now(tr) == Two(On(User, 0), On(User, 1), Parent(RUNNING), VACANT, None)
    ensures Now(tr).cpus[1].cr3 == Some(8) && !Live(Now(tr), 1)
  {
    PowerOnIsInit();
    tr := ChildRuns();
    tr := EnterKernel(tr, 0);
    tr := Extend(tr, 0, Destroy(1));
    assert Now(tr) == Two(On(TrapEnd, 0), On(User, 1), Parent(RUNNING), Child(DYING, false), Some(0));
    tr := BackToUser(tr, 0);
    tr := EnterKernel(tr, 0);
    tr := Extend(tr, 0, Destroy(1));
    tr := BackToUser(tr, 0);
  }
}
