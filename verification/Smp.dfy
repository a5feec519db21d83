/**
 N CPUs, the big kernel lock and the life cycle of environments (`kern/spinlock.c`,
 `kern/trap.c`, `kern/sched.c`, `kern/env.c`) as a transition system: one CPU at a
 time takes one step, and xchg is the only atomic read-modify-write.
 */
module Smp {
  import opened Paging
  import opened Envs
  import Scheduler

  // What a CPU does once it has the lock. `AfterIdle(fromUser)`: trap() took the
  // lock because cpu_status was CPU_HALTED.
  datatype Goal = ToBoot | ToSched | ToTrap | AfterIdle(fromUser: bool)

  datatype Pc =
    | Start                        // before lock_kernel in i386_init or mp_main
    | User                         // running cpu_env in user mode
    | Idle                         // halted
    | TrapEntry(fromUser: bool)    // trap(), before the lock
    | LockCheck(goal: Goal)        // spin_lock: the holding() check
    | LockXchg(goal: Goal)         // spin_lock: the xchg loop
    | LockRecord(goal: Goal)       // spin_lock: lk->cpu = thiscpu
    | Boot                         // i386_init creating environments
    | TrapBody                     // trap(), lock held, before the zombie check
    | Dispatch                     // trap_dispatch
    | TrapEnd                      // trap(), after trap_dispatch
    | Sched                        // sched_yield
    | EnvRun(next: nat)            // env_run
    | Halt                         // sched_halt
    | UnlockCheck(idle: bool)      // spin_unlock: the holding() check
    | UnlockClear(idle: bool)      // spin_unlock: lk->cpu = 0
    | UnlockXchg(idle: bool)       // spin_unlock: xchg(&lk->locked, 0)
    | Monitor                      // nothing runnable: in the kernel monitor for good
    | Panic

  // `halted`: cpu_status is CPU_HALTED. `cr3`: None is kern_pgdir.
  datatype Cpu = Cpu(pc: Pc, env: Option<nat>, cr3: Option<nat>, halted: bool)

  datatype Sys = Sys(cpus: seq<Cpu>, envs: seq<Env>, locked: bool, owner: Option<nat>)

  datatype Action =
    | Tick                                       // the only thing the CPU can do next
    | Trap                                       // a trap or interrupt arrives
    | Create(slot: nat, pgdir: nat)              // env_create
    | Yield                                      // sys_yield or a timer interrupt
    | Resume                                     // page fault upcall
    | Destroy(slot: nat)                         // env_destroy
    | SetStatus(slot: nat, status: Status)       // sys_env_set_status
    | Exofork(slot: nat, pgdir: nat)             // sys_exofork
    | IpcRecv                                    // sys_ipc_recv
    | IpcSend(slot: nat)                         // sys_ipc_try_send
    | Other                                      // a call that touches none of this
    | Choose(next: Option<nat>)                  // what the scan of sched_yield found

  predicate Live(s: Sys, x: nat) {
    x < |s.envs| && s.envs[x].status != FREE
  }

  predicate Current(s: Sys, c: nat)
    requires c < |s.cpus|
  {
    s.cpus[c].env.Some? && s.cpus[c].env.value < |s.envs|
  }

  // The page given to a new environment is not in use by a live one.
  ghost predicate FreshDir(s: Sys, d: nat) {
    forall x :: 0 <= x < |s.envs| && Live(s, x) ==> s.envs[x].pgdir != Some(d)
  }

  function SetCpu(s: Sys, c: nat, cpu: Cpu): Sys
    requires c < |s.cpus|
  {
    s.(cpus := s.cpus[c := cpu])
  }

  function Goto(s: Sys, c: nat, pc: Pc): Sys
    requires c < |s.cpus|
  {
    SetCpu(s, c, s.cpus[c].(pc := pc))
  }

  function SetEnv(s: Sys, x: nat, e: Env): Sys
    requires x < |s.envs|
  {
    s.(envs := s.envs[x := e])
  }

  // env_alloc, and the status its caller leaves
  function NewEnv(s: Sys, x: nat, d: nat, st: Status): Sys
    requires x < |s.envs|
  {
    SetEnv(s, x, s.envs[x].(status := st, pgdir := Some(d), recving := false))
  }

  // env_free: if the environment is current, kern_pgdir is loaded first.
  function EnvFree(s: Sys, c: nat, x: nat): Sys
    requires c < |s.cpus| && x < |s.envs|
  {
    var s1 := SetEnv(s, x, s.envs[x].(status := FREE, pgdir := None));
    if s.cpus[c].env == Some(x) then SetCpu(s1, c, s.cpus[c].(cr3 := None)) else s1
  }

  // env_destroy
  function EnvDestroy(s: Sys, c: nat, x: nat): Sys
    requires c < |s.cpus| && x < |s.envs|
  {
    if s.envs[x].status == RUNNING && s.cpus[c].env != Some(x) then
      Goto(SetEnv(s, x, s.envs[x].(status := DYING)), c, TrapEnd)
    else
      var s1 := EnvFree(s, c, x);
      if s.cpus[c].env == Some(x) then SetCpu(s1, c, s1.cpus[c].(env := None, pc := Sched)) else Goto(s1, c, TrapEnd)
  }

  // env_run up to env_pop_tf
  function RunEnv(s: Sys, c: nat, x: nat): Sys
    requires c < |s.cpus| && x < |s.envs| && (s.cpus[c].env.Some? ==> s.cpus[c].env.value < |s.envs|)
  {
    if s.cpus[c].env == Some(x) then Goto(s, c, UnlockCheck(false))
    else
      var s1 := if s.cpus[c].env.Some? && s.envs[s.cpus[c].env.value].status == RUNNING
                then SetEnv(s, s.cpus[c].env.value, s.envs[s.cpus[c].env.value].(status := RUNNABLE)) else s;
      SetCpu(SetEnv(s1, x, s1.envs[x].(status := RUNNING)), c,
             s.cpus[c].(env := Some(x), cr3 := s.envs[x].pgdir, pc := UnlockCheck(false)))
  }

  // The step of a CPU leaves the other CPUs alone.
  ghost predicate OthersSame(s: Sys, s': Sys, c: nat) {
    && |s'.cpus| == |s.cpus| && |s'.envs| == |s.envs|
    && forall c' :: 0 <= c' < |s.cpus| && c' != c ==> s'.cpus[c'] == s.cpus[c']
  }

  predicate AnyoneToRun(s: Sys) {
    exists x :: 0 <= x < |s.envs| && (s.envs[x].status == RUNNABLE || s.envs[x].status == RUNNING)
  }

  // The conditions under which the two calls that can reach any environment are safe.
  predicate SafeStatus(s: Sys, c: nat, x: nat, st: Status)
    requires c < |s.cpus| && x < |s.envs|
  {
    if s.cpus[c].env == Some(x) then st == NOT_RUNNABLE
    else (s.envs[x].status == RUNNABLE || s.envs[x].status == NOT_RUNNABLE)
         && (st == RUNNABLE ==> !s.envs[x].recving)
  }

  predicate SafeDestroy(s: Sys, x: nat)
    requires x < |s.envs|
  {
    s.envs[x].status != DYING
  }

  // When CPU `c` can do `a`, whatever the arguments of the system call.
  ghost predicate CanDo(s: Sys, c: nat, a: Action) {
    && c < |s.cpus| && |s.envs| > 0 && (s.cpus[c].env.Some? ==> s.cpus[c].env.value < |s.envs|)
    && var pc := s.cpus[c].pc;
    match a
    case Trap => pc.User? || pc.Idle?
    case Create(x, d) => pc.Boot? && x < |s.envs| && s.envs[x].status == FREE && FreshDir(s, d)
    case Yield => pc.Dispatch?
    case Resume => pc.Dispatch? && Current(s, c)
    case Destroy(x) => pc.Dispatch? && Current(s, c) && Live(s, x)
    case SetStatus(x, st) => pc.Dispatch? && Current(s, c) && Live(s, x) && (st == RUNNABLE || st == NOT_RUNNABLE)
    case Exofork(x, d) => pc.Dispatch? && Current(s, c) && x < |s.envs| && s.envs[x].status == FREE && FreshDir(s, d)
    case IpcRecv => pc.Dispatch? && Current(s, c)
    case IpcSend(x) => pc.Dispatch? && Current(s, c) && Live(s, x)
    case Other => pc.Dispatch?
    case Choose(next) =>
      pc.Sched? && Scheduler.Chosen(s.envs, s.cpus[c].env, next) && (next.Some? ==> next.value < |s.envs|)
    case Tick =>
      !(pc.User? || pc.Idle? || pc.Dispatch? || pc.Sched? || pc.Monitor? || pc.Panic?)
      && (pc.EnvRun? ==> pc.next < |s.envs|)
      && (pc.TrapBody? ==> Current(s, c))
  }

  // ... and within the hypothesis on those two calls.
  ghost predicate Enabled(s: Sys, c: nat, a: Action) {
    && CanDo(s, c, a)
    && (a.Destroy? ==> SafeDestroy(s, a.slot))
    && (a.SetStatus? ==> SafeStatus(s, c, a.slot, a.status))
  }

  function AfterLock(g: Goal): Pc {
    match g
    case ToBoot => Boot
    case ToSched => Sched
    case ToTrap => TrapBody
    case AfterIdle(fromUser) => if fromUser then LockCheck(ToTrap) else Dispatch
  }

  // Inside spin_lock or spin_unlock
  predicate Spinning(pc: Pc) {
    pc.LockCheck? || pc.LockXchg? || pc.LockRecord? || pc.UnlockCheck? || pc.UnlockClear? || pc.UnlockXchg?
  }

  // One step of spin_lock or spin_unlock
  function SpinStep(s: Sys, c: nat): (s': Sys)
    requires c < |s.cpus| && Spinning(s.cpus[c].pc)
    ensures OthersSame(s, s', c)
  {
    match s.cpus[c].pc
    case LockCheck(g) => Goto(s, c, if s.locked && s.owner == Some(c) then Panic else LockXchg(g))
    case LockXchg(g) => if s.locked then s else Goto(s.(locked := true), c, LockRecord(g))
    case LockRecord(g) => Goto(s.(owner := Some(c)), c, AfterLock(g))
    case UnlockCheck(i) => Goto(s, c, if s.locked && s.owner == Some(c) then UnlockClear(i) else Panic)
    case UnlockClear(i) => Goto(s.(owner := None), c, UnlockXchg(i))
    case UnlockXchg(i) => Goto(s.(locked := false), c, if i then Idle else User)
  }

  function TickStep(s: Sys, c: nat): (s': Sys)
    requires c < |s.cpus| && CanDo(s, c, Tick)
    ensures OthersSame(s, s', c)
  {
    var cpu := s.cpus[c];
    if Spinning(cpu.pc) then SpinStep(s, c) else
    match cpu.pc
    case Start => Goto(s, c, LockCheck(if c == 0 then ToBoot else ToSched))
    case TrapEntry(fromUser) =>
      var s1 := SetCpu(s, c, cpu.(halted := false));
      Goto(s1, c,
           if cpu.halted then LockCheck(AfterIdle(fromUser)) else if fromUser then LockCheck(ToTrap) else Dispatch)
    case Boot => Goto(s, c, Sched)
    case TrapBody =>
      if s.envs[cpu.env.value].status == DYING then
        var s1 := EnvFree(s, c, cpu.env.value);
        SetCpu(s1, c, s1.cpus[c].(env := None, pc := Sched))
      else Goto(s, c, Dispatch)
    case TrapEnd =>
      Goto(s, c, if Current(s, c) && s.envs[cpu.env.value].status == RUNNING then EnvRun(cpu.env.value) else Sched)
    case EnvRun(x) => RunEnv(s, c, x)
    case Halt =>
      if AnyoneToRun(s) then SetCpu(s, c, cpu.(env := None, cr3 := None, halted := true, pc := UnlockCheck(true)))
      else Goto(s, c, Monitor)
    case _ => s
  }

  function Apply(s: Sys, c: nat, a: Action): (s': Sys)
    requires CanDo(s, c, a)
    ensures OthersSame(s, s', c)
  {
    var cpu := s.cpus[c];
    match a
    case Tick => TickStep(s, c)
    case Trap => Goto(s, c, TrapEntry(cpu.pc.User?))
    case Create(x, d) => NewEnv(s, x, d, RUNNABLE)
    case Yield => Goto(s, c, Sched)
    case Resume => Goto(s, c, EnvRun(cpu.env.value))
    case Destroy(x) => EnvDestroy(s, c, x)
    case SetStatus(x, st) => Goto(SetEnv(s, x, s.envs[x].(status := st)), c, TrapEnd)
    case Exofork(x, d) => Goto(NewEnv(s, x, d, NOT_RUNNABLE), c, TrapEnd)
    case IpcRecv =>
      Goto(SetEnv(s, cpu.env.value, s.envs[cpu.env.value].(recving := true, status := NOT_RUNNABLE)), c, TrapEnd)
    case IpcSend(x) =>
      Goto(if s.envs[x].recving then SetEnv(s, x, s.envs[x].(recving := false, status := RUNNABLE)) else s, c, TrapEnd)
    case Other => Goto(s, c, TrapEnd)
    case Choose(next) => Goto(s, c, match next case Some(x) => EnvRun(x) case None => Halt)
  }

  // ----- the lock -----

  // The CPU owns lk->locked.
  predicate Holds(pc: Pc) {
    match pc
    case LockRecord(_) => true
    case Boot => true
    case TrapBody => true
    case Dispatch => true
    case TrapEnd => true
    case Sched => true
    case EnvRun(_) => true
    case Halt => true
    case UnlockCheck(_) => true
    case UnlockClear(_) => true
    case UnlockXchg(_) => true
    case Monitor => true
    case _ => false
  }

  // ... and lk->cpu says so.
  predicate Recorded(pc: Pc) {
    Holds(pc) && !pc.LockRecord? && !pc.UnlockXchg?
  }

  ghost predicate LockOk(s: Sys, c: nat)
    requires c < |s.cpus|
  {
    && (Holds(s.cpus[c].pc) ==> s.locked)
    && (s.owner == Some(c) <==> Recorded(s.cpus[c].pc))
    && !s.cpus[c].pc.Panic?
  }

  ghost predicate Exclusion(s: Sys) {
    forall c, c' :: 0 <= c < |s.cpus| && 0 <= c' < |s.cpus| && Holds(s.cpus[c].pc) && Holds(s.cpus[c'].pc) ==> c == c'
  }

  // ----- environments and CPUs -----

  // Outside the kernel on behalf of cpu_env, or on the way in or out
  predicate OnUserSide(pc: Pc) {
    match pc
    case User => true
    case TrapEntry(fromUser) => fromUser
    case LockCheck(g) => g.ToTrap?
    case LockXchg(g) => g.ToTrap?
    case LockRecord(g) => g.ToTrap?
    case TrapBody => true
    case UnlockCheck(idle) => !idle
    case UnlockClear(idle) => !idle
    case UnlockXchg(idle) => !idle
    case _ => false
  }

  // With no environment, on the way in or out of the kernel, booting or halted
  predicate OnIdleSide(pc: Pc) {
    match pc
    case Start => true
    case Idle => true
    case TrapEntry(fromUser) => !fromUser
    case LockCheck(g) => !g.ToTrap?
    case LockXchg(g) => !g.ToTrap?
    case LockRecord(g) => !g.ToTrap?
    case Boot => true
    case UnlockCheck(idle) => idle
    case UnlockClear(idle) => idle
    case UnlockXchg(idle) => idle
    case _ => false
  }

  predicate MarkedHalted(pc: Pc) {
    match pc
    case Idle => true
    case TrapEntry(fromUser) => !fromUser
    case UnlockCheck(idle) => idle
    case UnlockClear(idle) => idle
    case UnlockXchg(idle) => idle
    case _ => false
  }

  ghost predicate CpuOk(s: Sys, c: nat)
    requires c < |s.cpus|
  {
    var cpu := s.cpus[c];
    && (cpu.halted <==> MarkedHalted(cpu.pc))
    && (match cpu.pc
        case LockCheck(AfterIdle(fromUser)) => !fromUser
        case LockXchg(AfterIdle(fromUser)) => !fromUser
        case LockRecord(AfterIdle(fromUser)) => !fromUser
        case _ => true)
    // the loaded directory is the current environment's, and that is live
    && (cpu.env.None? ==> cpu.cr3.None?)
    && (cpu.env.Some? ==>
          && Live(s, cpu.env.value) && cpu.cr3 == s.envs[cpu.env.value].pgdir
          && s.envs[cpu.env.value].status != RUNNABLE)
    && (OnUserSide(cpu.pc) ==>
          cpu.env.Some? && (s.envs[cpu.env.value].status == RUNNING || s.envs[cpu.env.value].status == DYING))
    && (OnIdleSide(cpu.pc) ==> cpu.env.None?)
    // a zombie is collected on entry, before anything is dispatched
    && (Holds(cpu.pc) && cpu.env.Some? && s.envs[cpu.env.value].status == DYING ==>
          cpu.pc.LockRecord? || cpu.pc.TrapBody?)
    && (cpu.pc.Dispatch? && cpu.env.Some? ==> s.envs[cpu.env.value].status == RUNNING)
    && (cpu.pc.EnvRun? ==>
          Live(s, cpu.pc.next)
          && (s.envs[cpu.pc.next].status == RUNNABLE
             || (cpu.env == Some(cpu.pc.next) && s.envs[cpu.pc.next].status == RUNNING)))
    && (cpu.pc.Halt? && cpu.env.Some? ==> s.envs[cpu.env.value].status != RUNNING)
  }

  ghost predicate OnSomeCpu(s: Sys, x: nat) {
    exists c :: 0 <= c < |s.cpus| && s.cpus[c].env == Some(x)
  }

  ghost predicate EnvOk(s: Sys, x: nat)
    requires x < |s.envs|
  {
    && (s.envs[x].pgdir.Some? <==> s.envs[x].status != FREE)
    && (s.envs[x].status == RUNNING || s.envs[x].status == DYING ==> OnSomeCpu(s, x))
    && (Live(s, x) && s.envs[x].recving ==> s.envs[x].status == NOT_RUNNABLE)
  }

  ghost predicate DistinctDirs(s: Sys) {
    forall x, y ::
      (0 <= x < |s.envs| && 0 <= y < |s.envs| && Live(s, x) && Live(s, y) && s.envs[x].pgdir == s.envs[y].pgdir) ==>
        x == y
  }

  ghost predicate DistinctEnvs(s: Sys) {
    forall c, c' ::
      0 <= c < |s.cpus| && 0 <= c' < |s.cpus| && s.cpus[c].env.Some? && s.cpus[c].env == s.cpus[c'].env ==> c == c'
  }

  ghost predicate Inv(s: Sys) {
    && (forall c :: 0 <= c < |s.cpus| ==> LockOk(s, c))
    && Exclusion(s)
    && (forall c :: 0 <= c < |s.cpus| ==> CpuOk(s, c))
    && (forall x :: 0 <= x < |s.envs| ==> EnvOk(s, x))
    && DistinctDirs(s) && DistinctEnvs(s)
  }

  // A step that changes neither an environment nor which one a CPU has
  predicate Quiet(s: Sys, c: nat, a: Action)
    requires c < |s.cpus|
  {
    match a
    case Tick => !(s.cpus[c].pc.TrapBody? || s.cpus[c].pc.EnvRun? || s.cpus[c].pc.Halt?)
    case Trap => true
    case Yield => true
    case Resume => true
    case Other => true
    case Choose(_) => true
    case _ => false
  }

  lemma QuietStep(s: Sys, c: nat, a: Action)
    requires CanDo(s, c, a) && Quiet(s, c, a)
    ensures var s' := Apply(s, c, a);
            && s'.envs == s.envs && |s'.cpus| == |s.cpus|
            && (forall c' :: 0 <= c' < |s.cpus| && c' != c ==> s'.cpus[c'] == s.cpus[c'])
            && s'.cpus[c].env == s.cpus[c].env && s'.cpus[c].cr3 == s.cpus[c].cr3
  {
  }

  // An environment another CPU has keeps its directory; at worst it is marked
  // to die.
  lemma OthersEnvironment(s: Sys, c: nat, a: Action, c': nat)
    requires Inv(s) && Enabled(s, c, a) && c' < |s.cpus| && c' != c && s.cpus[c'].env.Some?
    ensures var x, s' := s.cpus[c'].env.value, Apply(s, c, a);
            && x < |s'.envs| == |s.envs| && s'.envs[x].pgdir == s.envs[x].pgdir
            && (s'.envs[x].status == s.envs[x].status
                || (s.envs[x].status == RUNNING && s'.envs[x].status == DYING && OnUserSide(s.cpus[c'].pc)))
            && |s'.cpus| == |s.cpus| && s'.cpus[c'] == s.cpus[c']
  {
    assert CpuOk(s, c') && CpuOk(s, c) && LockOk(s, c) && LockOk(s, c');
    if Quiet(s, c, a) { QuietStep(s, c, a); }
    if a.IpcSend? { assert EnvOk(s, a.slot); }
  }

  lemma SameCpu(s: Sys, s': Sys, c: nat)
    requires c < |s.cpus| == |s'.cpus| && |s'.envs| == |s.envs| && s'.cpus[c] == s.cpus[c] && CpuOk(s, c)
    requires !s.cpus[c].pc.EnvRun? && !s.cpus[c].pc.Dispatch? && !s.cpus[c].pc.Halt?
    requires s.cpus[c].env.Some? ==>
               var x := s.cpus[c].env.value;
               && s'.envs[x].pgdir == s.envs[x].pgdir
               && (s'.envs[x].status == s.envs[x].status
                   || (s'.envs[x].status == DYING && OnUserSide(s.cpus[c].pc) && !Holds(s.cpus[c].pc)))
    ensures CpuOk(s', c)
  {
  }

  lemma OtherCpus(s: Sys, c: nat, a: Action, c': nat)
    requires Inv(s) && Enabled(s, c, a) && c' < |s.cpus| && c' != c
    ensures CpuOk(Apply(s, c, a), c')
  {
    hide Apply, CanDo, EnvOk, DistinctDirs, DistinctEnvs, Exclusion;
    var s' := Apply(s, c, a);
    assert CpuOk(s, c') && LockOk(s, c');
    if s.cpus[c'].env.Some? { OthersEnvironment(s, c, a, c'); }
    if Holds(s.cpus[c'].pc) {
      HolderExcludes(s, c, a, c');
      SameCpuSameEnvs(s, s', c');
    } else {
      SameCpu(s, s', c');
    }
  }

  lemma SameCpuSameEnvs(s: Sys, s': Sys, c: nat)
    requires c < |s.cpus| == |s'.cpus| && s'.envs == s.envs && s'.cpus[c] == s.cpus[c] && CpuOk(s, c)
    ensures CpuOk(s', c)
  {
  }

  // While one CPU holds the lock, the steps of others are quiet.
  lemma HolderExcludes(s: Sys, c: nat, a: Action, c': nat)
    requires Inv(s) && Enabled(s, c, a) && c' < |s.cpus| && c' != c && Holds(s.cpus[c'].pc)
    ensures Quiet(s, c, a) && !Holds(s.cpus[c].pc)
    ensures var s' := Apply(s, c, a); s'.envs == s.envs && |s'.cpus| == |s.cpus| && s'.cpus[c'] == s.cpus[c']
  {
    QuietStep(s, c, a);
  }

  lemma ThisCpuSpins(s: Sys, c: nat)
    requires c < |s.cpus| && Spinning(s.cpus[c].pc) && CpuOk(s, c) && LockOk(s, c)
    ensures CpuOk(SpinStep(s, c), c) && LockOk(SpinStep(s, c), c)
  {
    if s.cpus[c].pc.UnlockXchg? { assert !Recorded(s.cpus[c].pc); }
  }

  lemma ThisCpuQuiet(s: Sys, c: nat, a: Action)
    requires Inv(s) && Enabled(s, c, a) && Quiet(s, c, a) && !(a.Tick? && Spinning(s.cpus[c].pc))
    ensures CpuOk(Apply(s, c, a), c)
  {
    hide SpinStep, RunEnv, EnvFree, EnvDestroy, FreshDir;
    assert CpuOk(s, c) && LockOk(s, c);
  }

  lemma ThisCpuCalls(s: Sys, c: nat, a: Action)
    requires Inv(s) && Enabled(s, c, a) && !Quiet(s, c, a) && !a.Tick?
    ensures CpuOk(Apply(s, c, a), c)
  {
    hide TickStep, FreshDir, Scheduler.Chosen, DistinctEnvs, DistinctDirs, Exclusion, LockOk;
    assert CpuOk(s, c);
    if a.IpcSend? { assert EnvOk(s, a.slot); }
  }

  lemma ThisCpuTicks(s: Sys, c: nat)
    requires Inv(s) && Enabled(s, c, Tick) && !Quiet(s, c, Tick)
    ensures CpuOk(Apply(s, c, Tick), c)
  {
    hide FreshDir, SpinStep, EnvDestroy, DistinctEnvs, DistinctDirs, Exclusion, LockOk;
    assert CpuOk(s, c);
    if s.cpus[c].pc.EnvRun? { assert EnvOk(s, s.cpus[c].pc.next); }
  }

  lemma ThisCpu(s: Sys, c: nat, a: Action)
    requires Inv(s) && Enabled(s, c, a)
    ensures CpuOk(Apply(s, c, a), c)
  {
    if a.Tick? && Spinning(s.cpus[c].pc) {
      assert CpuOk(s, c) && LockOk(s, c);
      ThisCpuSpins(s, c);
    } else if Quiet(s, c, a) {
      ThisCpuQuiet(s, c, a);
    } else if a.Tick? {
      ThisCpuTicks(s, c);
    } else {
      ThisCpuCalls(s, c, a);
    }
  }

  // Where an environment marked as running comes from
  ghost predicate Accounted(s: Sys, s': Sys, c: nat, x: nat)
    requires c < |s.cpus| == |s'.cpus| && x < |s.envs| == |s'.envs|
  {
    s'.envs[x].status == RUNNING || s'.envs[x].status == DYING ==>
      s'.cpus[c].env == Some(x)
      || ((s.envs[x].status == RUNNING || s.envs[x].status == DYING) && s.cpus[c].env != Some(x))
  }

  lemma TickAccounts(s: Sys, c: nat, x: nat)
    requires Inv(s) && CanDo(s, c, Tick) && x < |s.envs| && !Quiet(s, c, Tick)
    ensures Accounted(s, Apply(s, c, Tick), c, x)
  {
    hide FreshDir, SpinStep, EnvDestroy, DistinctDirs, DistinctEnvs, Exclusion, LockOk, EnvOk;
    assert CpuOk(s, c);
  }

  lemma CallAccounts(s: Sys, c: nat, a: Action, x: nat)
    requires Inv(s) && Enabled(s, c, a) && x < |s.envs| && !a.Tick? && !Quiet(s, c, a)
    ensures Accounted(s, Apply(s, c, a), c, x)
  {
    hide Scheduler.Chosen, FreshDir, TickStep, DistinctDirs, DistinctEnvs, Exclusion, LockOk, EnvOk;
    assert CpuOk(s, c);
  }

  lemma RunningSource(s: Sys, c: nat, a: Action, x: nat)
    requires Inv(s) && Enabled(s, c, a) && x < |s.envs|
    ensures Accounted(s, Apply(s, c, a), c, x)
  {
    hide Apply, EnvOk, DistinctDirs, DistinctEnvs, Exclusion, LockOk;
    if Quiet(s, c, a) {
      QuietStep(s, c, a);
    } else if a.Tick? {
      TickAccounts(s, c, x);
    } else {
      CallAccounts(s, c, a, x);
    }
  }

  lemma OnCpuFrame(s: Sys, s': Sys, c: nat, x: nat)
    requires c < |s.cpus| == |s'.cpus| && forall c' :: 0 <= c' < |s.cpus| && c' != c ==> s'.cpus[c'] == s.cpus[c']
    requires s'.cpus[c].env == Some(x) || (OnSomeCpu(s, x) && s.cpus[c].env != Some(x))
    ensures OnSomeCpu(s', x)
  {
    if s'.cpus[c].env != Some(x) {
      var w :| 0 <= w < |s.cpus| && s.cpus[w].env == Some(x);
      assert s'.cpus[w].env == Some(x);
    }
  }

  lemma StillOnCpu(s: Sys, c: nat, a: Action, x: nat)
    requires Inv(s) && Enabled(s, c, a) && x < |s.envs|
    requires var st := Apply(s, c, a).envs[x].status; st == RUNNING || st == DYING
    ensures OnSomeCpu(Apply(s, c, a), x)
  {
    assert EnvOk(s, x);
    RunningSource(s, c, a, x);
    OnCpuFrame(s, Apply(s, c, a), c, x);
  }

  predicate FieldsOk(e: Env) {
    (e.pgdir.Some? <==> e.status != FREE) && (e.status != FREE && e.recving ==> e.status == NOT_RUNNABLE)
  }

  lemma TickKeepsFields(s: Sys, c: nat, x: nat)
    requires Inv(s) && CanDo(s, c, Tick) && x < |s.envs| && !Quiet(s, c, Tick)
    ensures FieldsOk(Apply(s, c, Tick).envs[x])
  {
    hide FreshDir, SpinStep, EnvDestroy, DistinctDirs, DistinctEnvs, Exclusion, LockOk;
    assert CpuOk(s, c) && EnvOk(s, x);
  }

  lemma CallKeepsFields(s: Sys, c: nat, a: Action, x: nat)
    requires Inv(s) && Enabled(s, c, a) && x < |s.envs| && !a.Tick? && !Quiet(s, c, a)
    ensures FieldsOk(Apply(s, c, a).envs[x])
  {
    hide Scheduler.Chosen, FreshDir, TickStep, DistinctDirs, DistinctEnvs, Exclusion, LockOk;
    assert CpuOk(s, c) && EnvOk(s, x);
  }

  lemma StepKeepsFields(s: Sys, c: nat, a: Action, x: nat)
    requires Inv(s) && Enabled(s, c, a) && x < |s.envs|
    ensures FieldsOk(Apply(s, c, a).envs[x])
  {
    hide Apply, DistinctDirs, DistinctEnvs, Exclusion, LockOk;
    if Quiet(s, c, a) {
      assert EnvOk(s, x);
      QuietStep(s, c, a);
    } else if a.Tick? {
      TickKeepsFields(s, c, x);
    } else {
      CallKeepsFields(s, c, a, x);
    }
  }

  lemma StepKeepsEnvs(s: Sys, c: nat, a: Action, x: nat)
    requires Inv(s) && Enabled(s, c, a) && x < |s.envs|
    ensures EnvOk(Apply(s, c, a), x)
  {
    StepKeepsFields(s, c, a, x);
    var st := Apply(s, c, a).envs[x].status;
    if st == RUNNING || st == DYING { StillOnCpu(s, c, a, x); }
  }

  // A directory either was there before or is the fresh one of a new environment.
  ghost predicate DirAccounted(s: Sys, s': Sys, a: Action, x: nat)
    requires x < |s.envs| == |s'.envs|
  {
    Live(s', x) ==>
      (Live(s, x) && s'.envs[x].pgdir == s.envs[x].pgdir)
      || ((a.Create? || a.Exofork?) && a.slot == x && s'.envs[x].pgdir == Some(a.pgdir))
  }

  lemma TickDirSource(s: Sys, c: nat, x: nat)
    requires Inv(s) && CanDo(s, c, Tick) && x < |s.envs| && !Quiet(s, c, Tick)
    ensures DirAccounted(s, Apply(s, c, Tick), Tick, x)
  {
    hide FreshDir, SpinStep, EnvDestroy, DistinctDirs, DistinctEnvs, Exclusion, LockOk;
    assert CpuOk(s, c);
  }

  lemma CallDirSource(s: Sys, c: nat, a: Action, x: nat)
    requires Inv(s) && Enabled(s, c, a) && x < |s.envs| && !a.Tick? && !Quiet(s, c, a)
    ensures DirAccounted(s, Apply(s, c, a), a, x)
  {
    hide Scheduler.Chosen, FreshDir, TickStep, DistinctDirs, DistinctEnvs, Exclusion, LockOk;
    assert CpuOk(s, c);
  }

  lemma DirSource(s: Sys, c: nat, a: Action, x: nat)
    requires Inv(s) && Enabled(s, c, a) && x < |s.envs|
    ensures DirAccounted(s, Apply(s, c, a), a, x)
  {
    hide Apply, DistinctDirs, DistinctEnvs, Exclusion, LockOk;
    if Quiet(s, c, a) {
      QuietStep(s, c, a);
    } else if a.Tick? {
      TickDirSource(s, c, x);
    } else {
      CallDirSource(s, c, a, x);
    }
  }

  lemma StepKeepsDistinctDirs(s: Sys, c: nat, a: Action)
    requires Inv(s) && Enabled(s, c, a)
    ensures DistinctDirs(Apply(s, c, a))
  {
    var s' := Apply(s, c, a);
    forall x, y |
      0 <= x < |s'.envs| && 0 <= y < |s'.envs| && Live(s', x) && Live(s', y) && s'.envs[x].pgdir == s'.envs[y].pgdir
      ensures x == y
    {
      DirSource(s, c, a, x);
      DirSource(s, c, a, y);
    }
  }

  lemma StepKeepsDistinctEnvs(s: Sys, c: nat, a: Action)
    requires Inv(s) && Enabled(s, c, a)
    ensures DistinctEnvs(Apply(s, c, a))
  {
    var s' := Apply(s, c, a);
    if Quiet(s, c, a) {
      QuietStep(s, c, a);
    } else {
      forall c' | 0 <= c' < |s.cpus| && c' != c
        ensures s'.cpus[c'] == s.cpus[c'] && (s'.cpus[c'].env.Some? ==> s'.cpus[c].env != s'.cpus[c'].env)
      {
        assert CpuOk(s, c') && CpuOk(s, c);
      }
    }
  }

  lemma ThisCpuLock(s: Sys, c: nat, a: Action)
    requires Inv(s) && Enabled(s, c, a)
    ensures LockOk(Apply(s, c, a), c)
  {
    hide Scheduler.Chosen, FreshDir, DistinctDirs, DistinctEnvs, SpinStep;
    assert CpuOk(s, c) && LockOk(s, c);
    if a.Tick? && Spinning(s.cpus[c].pc) { ThisCpuSpins(s, c); }
  }

  lemma OtherCpuLock(s: Sys, c: nat, a: Action, c': nat)
    requires Inv(s) && Enabled(s, c, a) && c' < |s.cpus| && c' != c
    ensures LockOk(Apply(s, c, a), c') && Apply(s, c, a).cpus[c'] == s.cpus[c']
    ensures Holds(s.cpus[c'].pc) ==> !Holds(Apply(s, c, a).cpus[c].pc)
  {
    assert CpuOk(s, c) && LockOk(s, c) && LockOk(s, c');
  }

  lemma StepKeepsInv(s: Sys, c: nat, a: Action)
    requires Inv(s) && Enabled(s, c, a)
    ensures Inv(Apply(s, c, a))
  {
    assert c < |s.cpus|;
    hide Apply, CpuOk, EnvOk, LockOk, DistinctDirs, DistinctEnvs, CanDo;
    var s' := Apply(s, c, a);
    forall c' | 0 <= c' < |s.cpus|
      ensures LockOk(s', c') && CpuOk(s', c')
      ensures c' != c ==> s'.cpus[c'] == s.cpus[c'] && (Holds(s.cpus[c'].pc) ==> !Holds(s'.cpus[c].pc))
    {
      if c' != c {
        OtherCpuLock(s, c, a, c');
        OtherCpus(s, c, a, c');
      } else {
        ThisCpuLock(s, c, a);
        ThisCpu(s, c, a);
      }
    }
    forall x | 0 <= x < |s.envs| ensures EnvOk(s', x) { StepKeepsEnvs(s, c, a, x); }
    StepKeepsDistinctDirs(s, c, a);
    StepKeepsDistinctEnvs(s, c, a);
  }

  // ----- whole runs -----

  datatype Move = Move(cpu: nat, action: Action)

  // Power-on: nobody has the lock, every slot of envs is free.
  ghost predicate Init(s: Sys) {
    && (forall c :: 0 <= c < |s.cpus| ==> s.cpus[c] == Cpu(Start, None, None, false))
    && (forall x :: 0 <= x < |s.envs| ==> s.envs[x].status == FREE && s.envs[x].pgdir.None?)
    && !s.locked && s.owner.None?
  }

  ghost predicate CanRun(s: Sys, moves: seq<Move>)
    decreases |moves|
  {
    moves == []
    || (Enabled(s, moves[0].cpu, moves[0].action) && CanRun(Apply(s, moves[0].cpu, moves[0].action), moves[1..]))
  }

  ghost function Run(s: Sys, moves: seq<Move>): Sys
    requires CanRun(s, moves)
    decreases |moves|
  {
    if moves == [] then s else Run(Apply(s, moves[0].cpu, moves[0].action), moves[1..])
  }

  lemma {:induction false} RunKeepsInv(s: Sys, moves: seq<Move>)
    requires Inv(s) && CanRun(s, moves)
    ensures Inv(Run(s, moves)) && |Run(s, moves).cpus| == |s.cpus|
    decreases |moves|
  {
    if moves != [] {
      StepKeepsInv(s, moves[0].cpu, moves[0].action);
      RunKeepsInv(Apply(s, moves[0].cpu, moves[0].action), moves[1..]);
    }
  }

  // The lock is never left behind.
  ghost predicate LockHasHolder(s: Sys) {
    s.locked ==> exists c :: 0 <= c < |s.cpus| && Holds(s.cpus[c].pc)
  }

  lemma StepKeepsHolder(s: Sys, c: nat, a: Action)
    requires Inv(s) && Enabled(s, c, a) && LockHasHolder(s)
    ensures LockHasHolder(Apply(s, c, a))
  {
    hide Scheduler.Chosen, FreshDir, EnvOk, CpuOk, DistinctDirs, DistinctEnvs;
    var s' := Apply(s, c, a);
    assert LockOk(s, c);
    if s'.locked && !Holds(s'.cpus[c].pc) {
      OwnStepKeepsLock(s, c, a);
      var h :| 0 <= h < |s.cpus| && Holds(s.cpus[h].pc);
      assert h != c;
      assert Holds(s'.cpus[h].pc);
    }
  }

  // A CPU lets go of the lock only by clearing it.
  lemma OwnStepKeepsLock(s: Sys, c: nat, a: Action)
    requires CanDo(s, c, a) && LockOk(s, c) && CpuOk(s, c) && Apply(s, c, a).locked && c < |Apply(s, c, a).cpus|
    requires !Holds(Apply(s, c, a).cpus[c].pc)
    ensures s.locked && !Holds(s.cpus[c].pc)
  {
    hide Scheduler.Chosen, FreshDir, SpinStep;
    if a.Tick? && Spinning(s.cpus[c].pc) { SpinKeepsLock(s, c); }
  }

  lemma SpinKeepsLock(s: Sys, c: nat)
    requires c < |s.cpus| && Spinning(s.cpus[c].pc) && LockOk(s, c) && CpuOk(s, c)
    requires SpinStep(s, c).locked && !Holds(SpinStep(s, c).cpus[c].pc)
    ensures s.locked && !Holds(s.cpus[c].pc)
  {
  }

  lemma {:induction false} RunKeepsHolder(s: Sys, moves: seq<Move>)
    requires Inv(s) && CanRun(s, moves) && LockHasHolder(s)
    ensures LockHasHolder(Run(s, moves))
    decreases |moves|
  {
    if moves != [] {
      StepKeepsInv(s, moves[0].cpu, moves[0].action);
      StepKeepsHolder(s, moves[0].cpu, moves[0].action);
      RunKeepsHolder(Apply(s, moves[0].cpu, moves[0].action), moves[1..]);
    }
  }

  // At most one CPU is between taking and giving up the lock, the lock is taken
  // exactly while one is, and neither panic of the spin lock is reachable.
  lemma KernelIsExclusive(s: Sys, moves: seq<Move>)
    requires Init(s) && CanRun(s, moves)
    ensures var s' := Run(s, moves);
            && Exclusion(s')
            && (s'.locked <==> exists c :: 0 <= c < |s'.cpus| && Holds(s'.cpus[c].pc))
            && (forall c :: 0 <= c < |s'.cpus| ==> !s'.cpus[c].pc.Panic?)
  {
    RunKeepsInv(s, moves);
    RunKeepsHolder(s, moves);
    var s' := Run(s, moves);
    forall c | 0 <= c < |s'.cpus| ensures !s'.cpus[c].pc.Panic? && (Holds(s'.cpus[c].pc) ==> s'.locked) {
      assert LockOk(s', c);
    }
  }

  // No environment is on two CPUs; outside the kernel a CPU's environment is
  // running or dying; every running environment is on a CPU; and a directory in
  // some cr3 belongs to a live environment.
  lemma NoEnvironmentOnTwoCpus(s: Sys, moves: seq<Move>)
    requires Init(s) && CanRun(s, moves)
    ensures var s' := Run(s, moves);
            && DistinctEnvs(s')
            && (forall c :: 0 <= c < |s'.cpus| && s'.cpus[c].env.Some? ==>
                  Live(s', s'.cpus[c].env.value)
                  && (!Holds(s'.cpus[c].pc)
                     ==> var st := s'.envs[s'.cpus[c].env.value].status; st == RUNNING || st == DYING))
            && (forall x :: 0 <= x < |s'.envs| && s'.envs[x].status == RUNNING ==> OnSomeCpu(s', x))
            && (forall c :: 0 <= c < |s'.cpus| && s'.cpus[c].cr3.Some? ==>
                  s'.cpus[c].env.Some? && Live(s', s'.cpus[c].env.value)
                  && s'.envs[s'.cpus[c].env.value].pgdir == s'.cpus[c].cr3)
  {
    RunKeepsInv(s, moves);
    var s' := Run(s, moves);
    forall c | 0 <= c < |s'.cpus| && s'.cpus[c].env.Some?
      ensures Live(s', s'.cpus[c].env.value)
      ensures !Holds(s'.cpus[c].pc) ==> var st := s'.envs[s'.cpus[c].env.value].status; st == RUNNING || st == DYING
    {
      assert CpuOk(s', c) && LockOk(s', c);
    }
    forall x | 0 <= x < |s'.envs| && s'.envs[x].status == RUNNING ensures OnSomeCpu(s', x) {
      assert EnvOk(s', x);
    }
    forall c | 0 <= c < |s'.cpus| && s'.cpus[c].cr3.Some?
      ensures s'.cpus[c].env.Some? && Live(s', s'.cpus[c].env.value)
              && s'.envs[s'.cpus[c].env.value].pgdir == s'.cpus[c].cr3
    {
      assert CpuOk(s', c);
    }
  }

  // ----- the hypothesis is exactly what the two calls need -----

  lemma UnsafeStatusBreaks(s: Sys, c: nat, x: nat, st: Status) returns (w: nat)
    requires Inv(s) && CanDo(s, c, SetStatus(x, st)) && !SafeStatus(s, c, x, st)
    ensures var s' := Apply(s, c, SetStatus(x, st));
            (w < |s'.cpus| && !CpuOk(s', w)) || (x < |s'.envs| && !EnvOk(s', x))
  {
    assert CpuOk(s, c) && EnvOk(s, x);
    w := c;
    if s.envs[x].status == RUNNING || s.envs[x].status == DYING {
      w :| 0 <= w < |s.cpus| && s.cpus[w].env == Some(x);
      assert CpuOk(s, w) && LockOk(s, w);
    }
  }

  // sys_env_set_status keeps the invariant precisely for these targets.
  lemma SetStatusSafeExactly(s: Sys, c: nat, x: nat, st: Status)
    requires Inv(s) && CanDo(s, c, SetStatus(x, st))
    ensures Inv(Apply(s, c, SetStatus(x, st))) <==> SafeStatus(s, c, x, st)
  {
    if SafeStatus(s, c, x, st) {
      StepKeepsInv(s, c, SetStatus(x, st));
    } else {
      var w := UnsafeStatusBreaks(s, c, x, st);
    }
  }

  // env_destroy keeps the invariant precisely for targets that are not dying:
  // freeing a zombie takes the directory away from the CPU that still runs it.
  lemma DestroySafeExactly(s: Sys, c: nat, x: nat)
    requires Inv(s) && CanDo(s, c, Destroy(x))
    ensures Inv(Apply(s, c, Destroy(x))) <==> SafeDestroy(s, x)
  {
    if SafeDestroy(s, x) {
      StepKeepsInv(s, c, Destroy(x));
    } else {
      assert CpuOk(s, c) && EnvOk(s, x);
      var w :| 0 <= w < |s.cpus| && s.cpus[w].env == Some(x);
      assert !CpuOk(Apply(s, c, Destroy(x)), w);
    }
  }
}
