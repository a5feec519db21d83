/**
 Runs of the kernel's tables through system calls, env_run and env_free in any order,
 and what such an event is on the machine of `Smp`. `Kernel` proves of its methods
 that they are events.
 */
module KernelRuns {
  import opened Paging
  import opened Envs
  import opened EnvIds
  import opened KernelSpec
  import Smp
  import V = EnvVm

  ghost predicate Step(t: Tables, ev: Event, t': Tables) {
    CanHappen(t, ev) && !Breaks(t, ev) && Happened(t, ev, t')
  }

  // Any events, but for the calls that break the tables
  ghost predicate IsRun(tr: seq<Tables>, evs: seq<Event>) {
    |tr| == |evs| + 1 && InOrder(tr[0]) && forall i :: 0 <= i < |evs| ==> Step(tr[i], evs[i], tr[i + 1])
  }

  lemma StepAt(tr: seq<Tables>, evs: seq<Event>, i: nat)
    requires IsRun(tr, evs) && i < |evs|
    ensures Step(tr[i], evs[i], tr[i + 1])
  {
  }

  lemma StepKeeps(t: Tables, ev: Event, t': Tables)
    requires Step(t, ev, t')
    ensures CanHappen(t, ev) && InOrder(t') && AllocsKept(t.logs, t'.logs)
  {
    hide InOrder, CanHappen, Breaks, AllocsKept;
  }

  lemma {:induction false} RunKeepsOrder(tr: seq<Tables>, evs: seq<Event>, n: nat)
    requires IsRun(tr, evs) && n <= |evs|
    ensures InOrder(tr[n])
  {
    hide Step, InOrder;
    if n > 0 {
      StepAt(tr, evs, n - 1);
      StepKeeps(tr[n - 1], evs[n - 1], tr[n]);
    }
  }

  // The call takes page `p` from the allocator.
  ghost predicate TakesAt(t: Tables, ev: Event, p: nat)
    requires CanHappen(t, ev)
  {
    ev.Called? && TakesPage(t.envs, ev.cur, ev.call) && t.o.free != [] && t.o.free[0] == p
  }

  // How many of the first `n` events took page `p`
  ghost function Takings(tr: seq<Tables>, evs: seq<Event>, p: nat, n: nat): nat
    requires IsRun(tr, evs) && n <= |evs|
  {
    if n == 0 then 0
    else
      StepAt(tr, evs, n - 1);
      Takings(tr, evs, p, n - 1) + if TakesAt(tr[n - 1], evs[n - 1], p) then 1 else 0
  }

  lemma TakenStep(t: Tables, ev: Event, t': Tables, p: nat)
    requires InOrder(t) && Step(t, ev, t') && p < |t'.taken|
    ensures |t.taken| == |t'.taken| && t'.taken[p] == t.taken[p] + if TakesAt(t, ev, p) then 1 else 0
  {
    assert Sized(t.s, t.o);
    if t.o.free != [] { assert t.o.free[0] in t.o.free; }
  }

  lemma {:induction false} TakenIsTakings(tr: seq<Tables>, evs: seq<Event>, p: nat, n: nat)
    requires IsRun(tr, evs) && n <= |evs| && p < |tr[n].taken|
    ensures p < |tr[0].taken| && tr[n].taken[p] == tr[0].taken[p] + Takings(tr, evs, p, n)
  {
    hide Step, InOrder, CanHappen;
    if n > 0 {
      StepAt(tr, evs, n - 1);
      StepKeeps(tr[n - 1], evs[n - 1], tr[n]);
      RunKeepsOrder(tr, evs, n - 1);
      TakenStep(tr[n - 1], evs[n - 1], tr[n], p);
      TakenIsTakings(tr, evs, p, n - 1);
    }
  }

  /**
   After any run, the count of a page in use is the number of places where live
   environments map it plus the number of sys_page_alloc calls that ever took it.
   */
  lemma CountsOverRun(tr: seq<Tables>, evs: seq<Event>, p: nat)
    requires IsRun(tr, evs)
    requires var t := tr[|evs|]; p < |t.s.pages| && p < |t.o.kind| && t.o.kind[p].Data?
    ensures var t := tr[|evs|];
            p < |tr[0].taken|
            && t.s.pages[p].ref == |Mappings(t.envs, t.s, p)| + tr[0].taken[p] + Takings(tr, evs, p, |evs|)
  {
    hide Step, CanHappen, Mappings;
    var t := tr[|evs|];
    RunKeepsOrder(tr, evs, |evs|);
    CountIsMappings(t.envs, t.s, t.o, t.kern, p);
    SurplusIsTaken(t);
    TakenIsTakings(tr, evs, p, |evs|);
  }

  lemma SurplusIsTaken(t: Tables)
    requires InOrder(t)
    ensures t.o.surplus == t.taken && Sized(t.s, t.o)
  {
  }

  lemma {:induction false} AllocsGrow(tr: seq<Tables>, evs: seq<Event>, i: nat, j: nat)
    requires IsRun(tr, evs) && i <= j <= |evs|
    ensures AllocsKept(tr[i].logs, tr[j].logs)
    decreases j
  {
    hide Step, InOrder;
    if i < j {
      AllocsGrow(tr, evs, i, j - 1);
      StepAt(tr, evs, j - 1);
      StepKeeps(tr[j - 1], evs[j - 1], tr[j]);
    }
  }

  /**
   An id once handed out finds, ever after, its own environment, or one allocated in
   the same slot a whole number of id periods later.
   */
  lemma IdsOverRun(tr: seq<Tables>, evs: seq<Event>, i: nat, j: nat, x: nat, cur: nat, checkperm: bool)
    requires IsRun(tr, evs) && i <= j <= |evs| && x < NENV && cur < NENV
    requires |tr[i].envs| == |tr[i].logs| == |tr[j].envs| == |tr[j].logs| == NENV && Live(tr[i].envs[x])
    ensures var r := Resolve(tr[j].envs, cur, tr[i].envs[x].id, checkperm);
            r.Some? ==> r == Some(x) && Live(tr[j].envs[x])
                        && tr[i].logs[x].allocs <= tr[j].logs[x].allocs
                        && (tr[j].logs[x].allocs - tr[i].logs[x].allocs) % PERIOD == 0
  {
    hide Step, CanHappen, Resolve, IdAfter, IpcOk, Spaces, SlotsOk;
    RunKeepsOrder(tr, evs, i);
    RunKeepsOrder(tr, evs, j);
    AllocsGrow(tr, evs, i, j);
    assert EnvOk(x, tr[i].envs[x], tr[i].logs[x]);
    StaleIdsRejected(tr[j].envs, tr[j].logs, cur, x, tr[i].logs[x].allocs, checkperm);
  }

  // ----- protection -----

  // Events that may not change its address space do not end an environment either.
  lemma LivesOn(t: Tables, ev: Event, t': Tables, i: nat, va: nat)
    requires Step(t, ev, t') && i < |t.envs| && Live(t.envs[i]) && !MayRemap(t, ev, i, va)
    ensures |t'.envs| == |t.envs| && Live(t'.envs[i])
  {
    hide InOrder, Guarded, AllocsKept;
  }

  // A system call changes nothing of an environment that is not in the caller's hand,
  // but that a waiting receiver gets its message.
  lemma OthersUnchanged(t: Tables, cur: nat, call: Call, t': Tables, i: nat)
    requires InOrder(t) && Step(t, Called(cur, call), t')
    requires i < |t.envs| && Live(t.envs[i]) && !InHand(t.envs, cur, i)
    ensures i < |t'.envs|
    ensures t'.envs[i] == t.envs[i]
            || (call.IpcTrySend? && t.envs[i].recving
                && Received(t.envs[i], t'.envs[i], t.envs[cur].id, call.value))
  {
    hide Spaces, EnvsOk, SlotChain, Guarded, AllocsKept, TransferResult;
    assert t.slots != [] ==> t.slots[0] in t.slots;
  }

  lemma RemapStep(t: Tables, ev: Event, t': Tables, i: nat, va: nat)
    requires Step(t, ev, t') && i < |t.envs| && Live(t.envs[i]) && va < UTOP && !MayRemap(t, ev, i, va)
    ensures MapOf(t'.envs, t'.s, i, va) == MapOf(t.envs, t.s, i, va)
  {
    hide InOrder, CanHappen, Breaks, EnvsAfter, AllocsKept, MapOf;
  }

  // Throughout the run nobody is in a position to change what `i` has at `va`.
  ghost predicate Untouchable(tr: seq<Tables>, evs: seq<Event>, a: nat, b: nat, i: nat, va: nat) {
    |tr| == |evs| + 1 && a <= b <= |evs| && forall k: nat :: a <= k < b ==> !MayRemap(tr[k], evs[k], i, va)
  }

  /**
   Over any run, what an environment has mapped at an address changes only by its own
   calls and its parent's, by a message it waits for there, and by its death.
   */
  lemma {:induction false} SpacesProtected(tr: seq<Tables>, evs: seq<Event>, a: nat, b: nat, i: nat, va: nat)
    requires IsRun(tr, evs) && Untouchable(tr, evs, a, b, i, va) && va < UTOP
    requires i < |tr[a].envs| && Live(tr[a].envs[i])
    ensures i < |tr[b].envs| && Live(tr[b].envs[i])
    ensures MapOf(tr[b].envs, tr[b].s, i, va) == MapOf(tr[a].envs, tr[a].s, i, va)
    decreases b
  {
    hide Step, InOrder, MapOf, MayRemap;
    if a < b {
      SpacesProtected(tr, evs, a, b - 1, i, va);
      StepAt(tr, evs, b - 1);
      LivesOn(tr[b - 1], evs[b - 1], tr[b], i, va);
      RemapStep(tr[b - 1], evs[b - 1], tr[b], i, va);
    }
  }

  lemma WritersStep(t: Tables, ev: Event, t': Tables, p: nat)
    requires Step(t, ev, t') && !Writable(t.envs, t.s, p) && p !in t.o.free
    ensures !Writable(t'.envs, t'.s, p)
  {
    hide InOrder, CanHappen, Breaks, EnvsAfter, AllocsKept, Writes;
  }

  /**
   A page in use that nobody can write stays so over any run, until it has been free:
   no call and no message turns a read-only page into a writable one.
   */
  lemma {:induction false} ReadOnlyStays(tr: seq<Tables>, evs: seq<Event>, a: nat, b: nat, p: nat)
    requires IsRun(tr, evs) && a <= b <= |evs| && !Writable(tr[a].envs, tr[a].s, p)
    requires forall k :: a <= k < b ==> p !in tr[k].o.free
    ensures !Writable(tr[b].envs, tr[b].s, p)
    decreases b
  {
    hide Step, InOrder, Writable;
    if a < b {
      ReadOnlyStays(tr, evs, a, b - 1, p);
      StepAt(tr, evs, b - 1);
      WritersStep(tr[b - 1], evs[b - 1], tr[b], p);
    }
  }

  // ----- the same events on the machine of Smp -----

  predicate Alike(e: Env, f: Env) {
    e.status == f.status && e.pgdir == f.pgdir && e.recving == f.recving
  }

  // Status, directory and waiting flag are those the kernel has.
  ghost predicate SameLife(es: seq<Env>, fs: seq<Env>) {
    |es| == |fs| && forall i :: 0 <= i < |es| ==> Alike(es[i], fs[i])
  }

  // What the dispatcher's call is to the machine
  ghost function ActionOf(t: Tables, cur: nat, call: Call, t': Tables): Smp.Action
    requires |t.envs| == |t'.envs| == NENV && cur < NENV
  {
    match call
    case Yield => Smp.Yield
    case EnvDestroy(envid) =>
      if Resolve(t.envs, cur, envid, true).None? then Smp.Other
      else Smp.Destroy(Resolve(t.envs, cur, envid, true).value)
    case Exofork =>
      if ExoforkResult(t.envs, t.slots, t.o) < 0 || t.slots == [] || t.slots[0] >= NENV
         || t'.envs[t.slots[0]].pgdir.None? then Smp.Other
      else Smp.Exofork(t.slots[0], t'.envs[t.slots[0]].pgdir.value)
    case EnvSetStatus(envid, status) =>
      if SetStatusResult(t.envs, cur, envid, status) != 0 then Smp.Other
      else Smp.SetStatus(Resolve(t.envs, cur, envid, true).value, status)
    case IpcTrySend(envid, _, srcva, perm) =>
      if SendResult(t.envs, t.s, t.o, cur, envid, srcva, perm) != 0 then Smp.Other
      else Smp.IpcSend(Resolve(t.envs, cur, envid, false).value)
    case IpcRecv(dstva) => if dstva < UTOP && dstva % PGSIZE != 0 then Smp.Other else Smp.IpcRecv
    case _ => Smp.Other
  }

  // CPU `c` is in trap_dispatch for environment `cur` of tables `t`.
  ghost predicate Dispatching(s: Smp.Sys, c: nat, t: Tables, cur: nat) {
    SameLife(s.envs, t.envs) && c < |s.cpus| && s.cpus[c].pc.Dispatch? && s.cpus[c].env == Some(cur) && cur < |s.envs|
  }

  lemma SameLifeUpdate(es: seq<Env>, fs: seq<Env>, i: nat, e: Env, f: Env)
    requires SameLife(es, fs) && i < |es| && Alike(e, f)
    ensures SameLife(es[i := e], fs[i := f])
  {
  }

  // The machine's changes to environments, each for itself
  lemma DestroyChanges(s: Smp.Sys, c: nat, x: nat)
    requires Smp.CanDo(s, c, Smp.Destroy(x))
    ensures x < |s.envs|
    ensures Smp.Apply(s, c, Smp.Destroy(x)).envs ==
            if s.envs[x].status == RUNNING && s.cpus[c].env != Some(x) then s.envs[x := s.envs[x].(status := DYING)]
            else s.envs[x := s.envs[x].(status := FREE, pgdir := None)]
  {
    hide Smp.TickStep;
  }

  lemma StatusChanges(s: Smp.Sys, c: nat, x: nat, st: Status)
    requires Smp.CanDo(s, c, Smp.SetStatus(x, st))
    ensures x < |s.envs| && Smp.Apply(s, c, Smp.SetStatus(x, st)).envs == s.envs[x := s.envs[x].(status := st)]
  {
    hide Smp.TickStep;
  }

  lemma SendChanges(s: Smp.Sys, c: nat, x: nat)
    requires Smp.CanDo(s, c, Smp.IpcSend(x)) && s.envs[x].recving
    ensures Smp.Apply(s, c, Smp.IpcSend(x)).envs == s.envs[x := s.envs[x].(recving := false, status := RUNNABLE)]
  {
    hide Smp.TickStep;
  }

  lemma RecvChanges(s: Smp.Sys, c: nat)
    requires Smp.CanDo(s, c, Smp.IpcRecv)
    ensures var x := s.cpus[c].env.value;
            Smp.Apply(s, c, Smp.IpcRecv).envs == s.envs[x := s.envs[x].(recving := true, status := NOT_RUNNABLE)]
  {
    hide Smp.TickStep;
  }

  lemma OtherChanges(s: Smp.Sys, c: nat, a: Smp.Action)
    requires Smp.CanDo(s, c, a) && (a.Other? || a.Yield?)
    ensures Smp.Apply(s, c, a).envs == s.envs
  {
    hide Smp.TickStep;
  }

  lemma Lives(s: Smp.Sys, t: Tables, x: nat)
    requires SameLife(s.envs, t.envs) && x < |s.envs|
    ensures Alike(s.envs[x], t.envs[x]) && (Smp.Live(s, x) <==> Live(t.envs[x]))
  {
  }

  // The page env_alloc takes for a directory is no live environment's.
  lemma DirIsFresh(t: Tables, t': Tables, i: nat, e: Env, d: nat)
    requires InOrder(t) && InOrder(t') && i in t.slots && i < |t.envs| && t'.envs == t.envs[i := e]
    requires Live(e) && e.pgdir == Some(d)
    ensures !Live(t.envs[i])
    ensures forall x :: 0 <= x < |t.envs| && Live(t.envs[x]) ==> t.envs[x].pgdir != Some(d)
  {
    hide Inv, SlotChain, V.DirEmptied, EnvsOk;
    assert Rooted(t'.envs, i, d);
    forall x | 0 <= x < |t.envs| && Live(t.envs[x]) ensures t.envs[x].pgdir != Some(d) {
      assert Rooted(t'.envs, x, d) ==> x == i;
    }
  }

  lemma ForkChanges(s: Smp.Sys, c: nat, x: nat, d: nat)
    requires Smp.CanDo(s, c, Smp.Exofork(x, d))
    ensures x < |s.envs| && Smp.Apply(s, c, Smp.Exofork(x, d)).envs ==
                            s.envs[x := s.envs[x].(status := NOT_RUNNABLE, pgdir := Some(d), recving := false)]
  {
    hide Smp.TickStep;
  }

  lemma ForkIsStep(s: Smp.Sys, c: nat, t: Tables, cur: nat, t': Tables)
    requires InOrder(t) && InOrder(t') && Dispatching(s, c, t, cur) && EnvsAfter(t, cur, Exofork, t'.envs)
    requires |t.envs| == |t'.envs| == NENV
    ensures var a := ActionOf(t, cur, Exofork, t');
            Smp.CanDo(s, c, a) && SameLife(Smp.Apply(s, c, a).envs, t'.envs)
  {
    hide InOrder, Smp.Apply, EnvX;
    var a := ActionOf(t, cur, Exofork, t');
    if a.Other? {
      OtherChanges(s, c, a);
    } else {
      var i, d := a.slot, a.pgdir;
      assert i in t.slots;
      DirIsFresh(t, t', i, t'.envs[i], d);
      forall x | 0 <= x < |s.envs| ensures Alike(s.envs[x], t.envs[x]) { Lives(s, t, x); }
      ForkChanges(s, c, i, d);
      SameLifeUpdate(s.envs, t.envs, i, Smp.Apply(s, c, a).envs[i], t'.envs[i]);
    }
  }

  lemma DestroyIsStep(s: Smp.Sys, c: nat, t: Tables, cur: nat, envid: int, t': Tables)
    requires |t.envs| == |t'.envs| == NENV && Dispatching(s, c, t, cur) && Live(t.envs[cur])
    requires EnvsAfter(t, cur, EnvDestroy(envid), t'.envs)
    ensures var a := ActionOf(t, cur, EnvDestroy(envid), t');
            Smp.CanDo(s, c, a) && SameLife(Smp.Apply(s, c, a).envs, t'.envs)
  {
    hide Smp.Apply, Resolve;
    var a := ActionOf(t, cur, EnvDestroy(envid), t');
    if a.Other? {
      OtherChanges(s, c, a);
    } else {
      var x := a.slot;
      Lives(s, t, x);
      DestroyChanges(s, c, x);
      SameLifeUpdate(s.envs, t.envs, x, Smp.Apply(s, c, a).envs[x], t'.envs[x]);
    }
  }

  lemma StatusIsStep(s: Smp.Sys, c: nat, t: Tables, cur: nat, envid: int, status: Status, t': Tables)
    requires |t.envs| == |t'.envs| == NENV && Dispatching(s, c, t, cur) && Live(t.envs[cur])
    requires EnvsAfter(t, cur, EnvSetStatus(envid, status), t'.envs)
    ensures var a := ActionOf(t, cur, EnvSetStatus(envid, status), t');
            Smp.CanDo(s, c, a) && SameLife(Smp.Apply(s, c, a).envs, t'.envs)
  {
    hide Smp.Apply, Resolve;
    var a := ActionOf(t, cur, EnvSetStatus(envid, status), t');
    if a.Other? {
      OtherChanges(s, c, a);
    } else {
      var x := a.slot;
      Lives(s, t, x);
      StatusChanges(s, c, x, status);
      SameLifeUpdate(s.envs, t.envs, x, Smp.Apply(s, c, a).envs[x], t'.envs[x]);
    }
  }

  lemma SendIsStep(s: Smp.Sys, c: nat, t: Tables, cur: nat, call: Call, t': Tables)
    requires |t.envs| == |t'.envs| == NENV && Dispatching(s, c, t, cur) && Live(t.envs[cur]) && call.IpcTrySend?
    requires EnvsAfter(t, cur, call, t'.envs)
    ensures var a := ActionOf(t, cur, call, t');
            Smp.CanDo(s, c, a) && SameLife(Smp.Apply(s, c, a).envs, t'.envs)
  {
    hide Smp.Apply, Resolve, TransferResult;
    var a := ActionOf(t, cur, call, t');
    if a.Other? {
      OtherChanges(s, c, a);
    } else {
      var x := a.slot;
      Lives(s, t, x);
      SendChanges(s, c, x);
      SameLifeUpdate(s.envs, t.envs, x, Smp.Apply(s, c, a).envs[x], t'.envs[x]);
    }
  }

  lemma RecvIsStep(s: Smp.Sys, c: nat, t: Tables, cur: nat, dstva: nat, t': Tables)
    requires |t.envs| == |t'.envs| == NENV && Dispatching(s, c, t, cur) && Live(t.envs[cur])
    requires EnvsAfter(t, cur, IpcRecv(dstva), t'.envs)
    ensures var a := ActionOf(t, cur, IpcRecv(dstva), t');
            Smp.CanDo(s, c, a) && SameLife(Smp.Apply(s, c, a).envs, t'.envs)
  {
    hide Smp.Apply;
    var a := ActionOf(t, cur, IpcRecv(dstva), t');
    if a.Other? {
      OtherChanges(s, c, a);
    } else {
      Lives(s, t, cur);
      RecvChanges(s, c);
      SameLifeUpdate(s.envs, t.envs, cur, Smp.Apply(s, c, a).envs[cur], t'.envs[cur]);
    }
  }

  // The calls that change no status, directory or waiting flag
  lemma QuietCallIsStep(s: Smp.Sys, c: nat, t: Tables, cur: nat, call: Call, t': Tables)
    requires |t.envs| == |t'.envs| == NENV && Dispatching(s, c, t, cur)
    requires !call.EnvDestroy? && !call.Exofork? && !call.EnvSetStatus? && !call.IpcTrySend? && !call.IpcRecv?
    requires EnvsAfter(t, cur, call, t'.envs)
    ensures var a := ActionOf(t, cur, call, t');
            Smp.CanDo(s, c, a) && SameLife(Smp.Apply(s, c, a).envs, t'.envs)
  {
    hide Smp.Apply, Resolve;
    OtherChanges(s, c, ActionOf(t, cur, call, t'));
    forall i | 0 <= i < NENV ensures Alike(s.envs[i], t'.envs[i]) { Lives(s, t, i); }
  }

  lemma StepParts(t: Tables, cur: nat, call: Call, t': Tables)
    requires InOrder(t) && Step(t, Called(cur, call), t')
    ensures |t.envs| == |t'.envs| == NENV && cur < NENV && Live(t.envs[cur])
    ensures InOrder(t') && EnvsAfter(t, cur, call, t'.envs)
  {
    hide EnvsAfter;
  }

  /**
   A system call is the machine's step of that name: whatever CPU makes it, the life
   of every environment goes on as the machine says.
   */
  lemma CallIsSmpStep(s: Smp.Sys, c: nat, t: Tables, cur: nat, call: Call, t': Tables)
    requires InOrder(t) && Dispatching(s, c, t, cur) && Step(t, Called(cur, call), t')
    ensures |t'.envs| == NENV == |t.envs| && cur < NENV
    ensures var a := ActionOf(t, cur, call, t');
            Smp.CanDo(s, c, a) && SameLife(Smp.Apply(s, c, a).envs, t'.envs)
  {
    hide InOrder, Step, EnvsAfter, ActionOf, Smp.Apply, Smp.CanDo, SameLife;
    StepParts(t, cur, call, t');
    match call
    case EnvDestroy(envid) => DestroyIsStep(s, c, t, cur, envid, t');
    case Exofork => ForkIsStep(s, c, t, cur, t');
    case EnvSetStatus(envid, status) => StatusIsStep(s, c, t, cur, envid, status, t');
    case IpcTrySend(_, _, _, _) => SendIsStep(s, c, t, cur, call, t');
    case IpcRecv(dstva) => RecvIsStep(s, c, t, cur, dstva, t');
    case _ => QuietCallIsStep(s, c, t, cur, call, t');
  }

  lemma TickRuns(s: Smp.Sys, c: nat, x: nat)
    requires Smp.CanDo(s, c, Smp.Tick) && s.cpus[c].pc == Smp.EnvRun(x)
    ensures Smp.Apply(s, c, Smp.Tick) == Smp.RunEnv(s, c, x)
  {
    hide Smp.RunEnv;
  }

  lemma RunLife(s: Smp.Sys, c: nat, envs: seq<Env>, x: nat)
    requires c < |s.cpus| && x < |s.envs| && (s.cpus[c].env.Some? ==> s.cpus[c].env.value < |s.envs|)
    requires SameLife(s.envs, envs)
    ensures SameLife(Smp.RunEnv(s, c, x).envs, AfterRun(envs, s.cpus[c].env, x))
  {
    assert Alike(s.envs[x], envs[x]);
    if s.cpus[c].env.Some? { assert Alike(s.envs[s.cpus[c].env.value], envs[s.cpus[c].env.value]); }
  }

  // env_run is the machine's step of a CPU that has chosen.
  lemma RunIsSmpStep(s: Smp.Sys, c: nat, t: Tables, next: nat, t': Tables)
    requires SameLife(s.envs, t.envs) && c < |s.cpus| && s.cpus[c].pc == Smp.EnvRun(next)
    requires Step(t, Ran(s.cpus[c].env, next), t')
    ensures Smp.CanDo(s, c, Smp.Tick) && SameLife(Smp.Apply(s, c, Smp.Tick).envs, t'.envs)
  {
    hide InOrder, SameLife, Smp.Apply, Smp.RunEnv, AfterRun;
    LifeSize(s.envs, t.envs);
    TickRuns(s, c, next);
    RunLife(s, c, t.envs, next);
  }

  lemma LifeSize(es: seq<Env>, fs: seq<Env>)
    requires SameLife(es, fs)
    ensures |es| == |fs|
  {
  }

  lemma TickBuries(s: Smp.Sys, c: nat, x: nat)
    requires Smp.CanDo(s, c, Smp.Tick) && s.cpus[c].pc.TrapBody? && s.cpus[c].env == Some(x) && x < |s.envs|
    requires s.envs[x].status == DYING
    ensures Smp.Apply(s, c, Smp.Tick).envs == s.envs[x := s.envs[x].(status := FREE, pgdir := None)]
  {
    hide Smp.RunEnv, Smp.SpinStep;
  }

  // The end of an environment that faulted, or that was marked to die
  lemma DeathIsSmpStep(s: Smp.Sys, c: nat, t: Tables, dead: nat, t': Tables)
    requires SameLife(s.envs, t.envs) && c < |s.cpus| && s.cpus[c].env == Some(dead)
    requires Step(t, Died(dead), t')
    requires s.cpus[c].pc.Dispatch? || (s.cpus[c].pc.TrapBody? && s.envs[dead].status == DYING)
    ensures var a := if s.cpus[c].pc.Dispatch? then Smp.Destroy(dead) else Smp.Tick;
            Smp.CanDo(s, c, a) && SameLife(Smp.Apply(s, c, a).envs, t'.envs)
  {
    hide InOrder, Smp.Apply;
    Lives(s, t, dead);
    if s.cpus[c].pc.Dispatch? {
      DestroyChanges(s, c, dead);
      SameLifeUpdate(s.envs, t.envs, dead, Smp.Apply(s, c, Smp.Destroy(dead)).envs[dead], t'.envs[dead]);
    } else {
      TickBuries(s, c, dead);
      SameLifeUpdate(s.envs, t.envs, dead, Smp.Apply(s, c, Smp.Tick).envs[dead], t'.envs[dead]);
    }
  }
}
