/**
 Copy-on-write fork (`lib/fork.c`) as a transition system: any number of
 environments writing, faulting, forking, allocating and exiting, interleaved one
 system call, one copied byte or one store at a time. The page tables are the flat
 map from (environment, page) to entry that `PmapSpec` justifies.
 */
module CowFork {
  import opened Paging

  const USTACKTOP: nat := 0xEEBFE   // page numbers of USTACKTOP,
  const UXSTACK: nat := 0xEEBFF     // UXSTACKTOP - PGSIZE
  const PFTEMP: nat := 0x7FF        // and PFTEMP

  type Byte = x: int | 0 <= x < 256 witness 0
  type Content = c: seq<Byte> | |c| == PGSIZE witness seq(PGSIZE, _ => 0)

  function Zeros(): Content {
    seq(PGSIZE, _ => 0)
  }

  datatype Key = Key(env: nat, vpn: nat)

  // Where an environment stands in pgfault
  datatype Fault = NoFault | Entered(vpn: nat) | Copying(vpn: nat, done: nat) | Mapped(vpn: nat)

  // Where it stands in fork; `Embryo` is a child not yet started.
  datatype Prog =
    | User
    | Embryo(parent: nat)
    | Check(child: nat, vpn: nat)
    | MapChild(child: nat, vpn: nat)
    | MapSelf(child: nat, vpn: nat)
    | MapReadOnly(child: nat, vpn: nat)
    | GiveStack(child: nat)
    | Launch(child: nat)
  {
    predicate Forking() {
      !User? && !Embryo?
    }

    // The child has the parent's pages below this one.
    function Bound(): nat
      requires Forking()
    {
      match this
      case Check(_, v) => v
      case MapChild(_, v) => v
      case MapReadOnly(_, v) => v
      case MapSelf(_, v) => v + 1
      case _ => USTACKTOP
    }
  }

  datatype Thread = Thread(prog: Prog, fault: Fault)

  datatype Sys = Sys(pt: map<Key, Word>, frames: map<nat, Content>, threads: map<nat, Thread>)

  datatype Step =
    | Write(env: nat, vpn: nat, off: nat, b: Byte)
    | TakeFault(env: nat, vpn: nat)
    | FaultAlloc(env: nat, page: nat)
    | FaultCopy(env: nat)
    | FaultMap(env: nat)
    | FaultUnmap(env: nat)
    | Exofork(env: nat, newEnv: nat)
    | CheckPage(env: nat)
    | DupChild(env: nat)
    | DupSelf(env: nat)
    | DupReadOnly(env: nat)
    | StackAlloc(env: nat, page: nat)
    | SetRunnable(env: nat)
    | UserAlloc(env: nat, vpn: nat, page: nat)
    | UserUnmap(env: nat, vpn: nat)
    | Receive(env: nat, vpn: nat, sender: nat, page: nat, perm: set<Flag>)   // a page comes by IPC
    | Exit(env: nat)

  const RW: set<Flag> := {P, U, W}
  const SHARED: set<Flag> := {P, U, COW}
  const READ_ONLY: set<Flag> := {P, U}

  predicate Active(s: Sys, e: nat) {
    e in s.threads && !s.threads[e].prog.Embryo? && s.threads[e].fault.NoFault?
  }

  predicate Started(s: Sys, e: nat) {
    e in s.threads && !s.threads[e].prog.Embryo?
  }

  // A page duppage shares copy-on-write
  predicate Shareable(w: Word) {
    W in w.flags || COW in w.flags
  }

  predicate FreshPage(s: Sys, p: nat) {
    forall k :: k in s.pt ==> s.pt[k].pn != p
  }

  // When a step can be taken. System calls are assumed to succeed.
  predicate Enabled(s: Sys, step: Step) {
    var e := step.env;
    e in s.threads &&
    match step
    case Write(_, v, off, _) =>
      Active(s, e) && v != PFTEMP && off < PGSIZE && Key(e, v) in s.pt && W in s.pt[Key(e, v)].flags
      && s.pt[Key(e, v)].pn in s.frames
    case TakeFault(_, v) =>
      Active(s, e) && v != PFTEMP && Key(e, v) in s.pt && W !in s.pt[Key(e, v)].flags && COW in s.pt[Key(e, v)].flags
    case FaultAlloc(_, p) => s.threads[e].fault.Entered? && FreshPage(s, p)
    case FaultCopy(_) =>
      s.threads[e].fault.Copying? && s.threads[e].fault.done < PGSIZE
      && Key(e, PFTEMP) in s.pt && s.pt[Key(e, PFTEMP)].pn in s.frames
      && Key(e, s.threads[e].fault.vpn) in s.pt && s.pt[Key(e, s.threads[e].fault.vpn)].pn in s.frames
    case FaultMap(_) =>
      s.threads[e].fault.Copying? && s.threads[e].fault.done == PGSIZE && Key(e, PFTEMP) in s.pt
    case FaultUnmap(_) => s.threads[e].fault.Mapped?
    case Exofork(_, c) => Active(s, e) && s.threads[e].prog.User? && c !in s.threads
    case CheckPage(_) => Active(s, e) && s.threads[e].prog.Check?
    case DupChild(_) =>
      Active(s, e) && s.threads[e].prog.MapChild? && Key(e, s.threads[e].prog.vpn) in s.pt
    case DupSelf(_) =>
      Active(s, e) && s.threads[e].prog.MapSelf? && Key(e, s.threads[e].prog.vpn) in s.pt
    case DupReadOnly(_) =>
      Active(s, e) && s.threads[e].prog.MapReadOnly? && Key(e, s.threads[e].prog.vpn) in s.pt
    case StackAlloc(_, p) => Active(s, e) && s.threads[e].prog.GiveStack? && FreshPage(s, p)
    case SetRunnable(_) => Active(s, e) && s.threads[e].prog.Launch?
    case UserAlloc(_, v, p) => Active(s, e) && s.threads[e].prog.User? && v != PFTEMP && FreshPage(s, p)
    case UserUnmap(_, v) => Active(s, e) && s.threads[e].prog.User? && v != PFTEMP
    case Receive(_, v, x, u, perm) =>
      Active(s, e) && s.threads[e].prog.User? && v != PFTEMP && u != PFTEMP
      && Started(s, x) && Key(x, u) in s.pt && W !in s.pt[Key(x, u)].flags
      && READ_ONLY <= perm <= s.pt[Key(x, u)].flags
    case Exit(_) => Active(s, e) && s.threads[e].prog.User?
  }

  function SetThread(s: Sys, e: nat, t: Thread): Sys {
    s.(threads := s.threads[e := t])
  }

  function SetProg(s: Sys, e: nat, p: Prog): Sys
    requires e in s.threads
  {
    SetThread(s, e, Thread(p, s.threads[e].fault))
  }

  function SetFault(s: Sys, e: nat, f: Fault): Sys
    requires e in s.threads
  {
    SetThread(s, e, Thread(s.threads[e].prog, f))
  }

  // sys_page_alloc: a zeroed page of its own
  function MapFresh(s: Sys, k: Key, p: nat): Sys {
    s.(pt := s.pt[k := Word(p, RW)], frames := s.frames[p := Zeros()])
  }

  function SetEntry(s: Sys, k: Key, w: Word): Sys {
    s.(pt := s.pt[k := w])
  }

  function Apply(s: Sys, step: Step): Sys
    requires Enabled(s, step)
  {
    var e := step.env;
    var t := s.threads[e];
    match step
    case Write(_, v, off, b) =>
      var p := s.pt[Key(e, v)].pn;
      s.(frames := s.frames[p := s.frames[p][off := b]])
    case TakeFault(_, v) => SetFault(s, e, Entered(v))
    case FaultAlloc(_, p) => SetFault(MapFresh(s, Key(e, PFTEMP), p), e, Copying(t.fault.vpn, 0))
    case FaultCopy(_) =>
      var q, p := s.pt[Key(e, PFTEMP)].pn, s.pt[Key(e, t.fault.vpn)].pn;
      var i := t.fault.done;
      SetFault(s.(frames := s.frames[q := s.frames[q][i := s.frames[p][i]]]), e, Copying(t.fault.vpn, i + 1))
    case FaultMap(_) =>
      SetFault(SetEntry(s, Key(e, t.fault.vpn), Word(s.pt[Key(e, PFTEMP)].pn, RW)), e, Mapped(t.fault.vpn))
    case FaultUnmap(_) => SetFault(s.(pt := s.pt - {Key(e, PFTEMP)}), e, NoFault)
    case Exofork(_, c) => SetThread(SetProg(s, e, Check(c, 0)), c, Thread(Embryo(e), NoFault))
    case CheckPage(_) =>
      var c, v := t.prog.child, t.prog.vpn;
      SetProg(s, e,
        if v >= USTACKTOP then GiveStack(c)
        else if Key(e, v) !in s.pt || U !in s.pt[Key(e, v)].flags then Check(c, v + 1)
        else if Shareable(s.pt[Key(e, v)]) then MapChild(c, v)
        else MapReadOnly(c, v))
    case DupChild(_) =>
      var c, v := t.prog.child, t.prog.vpn;
      SetProg(SetEntry(s, Key(c, v), Word(s.pt[Key(e, v)].pn, SHARED)), e, MapSelf(c, v))
    case DupSelf(_) =>
      var c, v := t.prog.child, t.prog.vpn;
      SetProg(SetEntry(s, Key(e, v), Word(s.pt[Key(e, v)].pn, SHARED)), e, Check(c, v + 1))
    case DupReadOnly(_) =>
      var c, v := t.prog.child, t.prog.vpn;
      SetProg(SetEntry(s, Key(c, v), Word(s.pt[Key(e, v)].pn, READ_ONLY)), e, Check(c, v + 1))
    case StackAlloc(_, p) => SetProg(MapFresh(s, Key(t.prog.child, UXSTACK), p), e, Launch(t.prog.child))
    case SetRunnable(_) => SetThread(SetProg(s, e, User), t.prog.child, Thread(User, NoFault))
    case UserAlloc(_, v, p) => MapFresh(s, Key(e, v), p)
    case UserUnmap(_, v) => s.(pt := s.pt - {Key(e, v)})
    case Receive(_, v, x, u, perm) => SetEntry(s, Key(e, v), Word(s.pt[Key(x, u)].pn, perm))
    case Exit(_) =>
      s.(pt := map k | k in s.pt && k.env != e :: s.pt[k], threads := s.threads - {e})
  }

  // ----- the eager machine: every page copied at once, as in user/dumbfork.c -----

  datatype Eager =
    | Stutter
    | Store(key: Key, off: nat, b: Byte)
    | Copy(src: Key, dst: Key)
    | Zero(key: Key)
    | Drop(key: Key)
    | DropAll(env: nat)

  type Memory = map<Key, Content>

  function EagerStep(m: Memory, a: Eager): Memory {
    match a
    case Stutter => m
    case Store(k, off, b) => if k in m && off < PGSIZE then m[k := m[k][off := b]] else m
    case Copy(src, dst) => if src in m then m[dst := m[src]] else m
    case Zero(k) => m[k := Zeros()]
    case Drop(k) => m - {k}
    case DropAll(e) => map k | k in m && k.env != e :: m[k]
  }

  // The child's entry is there but its copy has not happened yet: the parent can
  // still write the shared page, until duppage's second sys_page_map.
  predicate Pending(s: Sys, k: Key) {
    && k in s.pt && k.env in s.threads && s.threads[k.env].prog.Embryo?
    && var e := s.threads[k.env].prog.parent;
    && e in s.threads && s.threads[e].prog == MapSelf(k.env, k.vpn)
    && Key(e, k.vpn) in s.pt && W in s.pt[Key(e, k.vpn)].flags && s.pt[Key(e, k.vpn)].pn == s.pt[k].pn
  }

  // What the eager machine does meanwhile: a page is copied by the first
  // sys_page_map of duppage if the parent could not write it, else by the second.
  function Meanwhile(s: Sys, step: Step): Eager
    requires Enabled(s, step)
  {
    var e := step.env;
    var prog := s.threads[e].prog;
    match step
    case Write(_, v, off, b) => Store(Key(e, v), off, b)
    case DupChild(_) =>
      if W in s.pt[Key(e, prog.vpn)].flags then Stutter else Copy(Key(e, prog.vpn), Key(prog.child, prog.vpn))
    case DupSelf(_) =>
      if Pending(s, Key(prog.child, prog.vpn)) then Copy(Key(e, prog.vpn), Key(prog.child, prog.vpn)) else Stutter
    case DupReadOnly(_) => Copy(Key(e, prog.vpn), Key(prog.child, prog.vpn))
    case StackAlloc(_, _) => Zero(Key(prog.child, UXSTACK))
    case UserAlloc(_, v, _) => Zero(Key(e, v))
    case UserUnmap(_, v) => Drop(Key(e, v))
    case Receive(_, v, x, u, _) => Copy(Key(x, u), Key(e, v))
    case Exit(_) => DropAll(e)
    case _ => Stutter
  }

  // ----- the invariant -----

  // The only two ways a writable page can have a second mapping: at PFTEMP at
  // the end of pgfault, and in a child between duppage's two calls.
  ghost predicate TempAlias(s: Sys, k1: Key, k2: Key) {
    && k1.env == k2.env && k1.env in s.threads && s.threads[k1.env].fault.Mapped?
    && var v := s.threads[k1.env].fault.vpn;
       (k1.vpn == v && k2.vpn == PFTEMP) || (k1.vpn == PFTEMP && k2.vpn == v)
  }

  ghost predicate Window(s: Sys, k1: Key, k2: Key) {
    && k1.env in s.threads && s.threads[k1.env].prog == MapSelf(k2.env, k2.vpn) && k1.vpn == k2.vpn
    && k2 in s.pt && W !in s.pt[k2].flags
  }

  ghost predicate Apart(s: Sys, k1: Key, k2: Key) {
    k1 in s.pt && k2 in s.pt && k1 != k2 && s.pt[k1].pn == s.pt[k2].pn && W in s.pt[k1].flags ==>
      TempAlias(s, k1, k2) || Window(s, k1, k2)
  }

  ghost predicate Exclusive(s: Sys) {
    forall k1, k2 :: Apart(s, k1, k2)
  }

  ghost predicate EntryOk(s: Sys, k: Key)
    requires k in s.pt
  {
    k.env in s.threads && READ_ONLY <= s.pt[k].flags && s.pt[k].pn in s.frames
  }

  ghost predicate EntriesOk(s: Sys) {
    forall k :: k in s.pt ==> EntryOk(s, k)
  }

  ghost predicate FaultOk(s: Sys, e: nat)
    requires e in s.threads
  {
    match s.threads[e].fault
    case NoFault => Key(e, PFTEMP) !in s.pt
    case Entered(v) => Key(e, PFTEMP) !in s.pt && CowPage(s, e, v)
    case Copying(v, done) =>
      && CowPage(s, e, v) && Key(e, PFTEMP) in s.pt && W in s.pt[Key(e, PFTEMP)].flags && done <= PGSIZE
      && s.pt[Key(e, v)].pn in s.frames && s.pt[Key(e, PFTEMP)].pn in s.frames
      && forall i :: 0 <= i < done ==> s.frames[s.pt[Key(e, PFTEMP)].pn][i] == s.frames[s.pt[Key(e, v)].pn][i]
    case Mapped(v) =>
      v != PFTEMP && Key(e, PFTEMP) in s.pt && Key(e, v) in s.pt
      && s.pt[Key(e, v)] == Word(s.pt[Key(e, PFTEMP)].pn, RW)
  }

  ghost predicate CowPage(s: Sys, e: nat, v: nat) {
    v != PFTEMP && Key(e, v) in s.pt && COW in s.pt[Key(e, v)].flags && W !in s.pt[Key(e, v)].flags
  }

  // The child has exactly the parent's pages below `v`.
  ghost predicate CopiedBelow(s: Sys, e: nat, c: nat, v: nat) {
    && v <= USTACKTOP
    && c in s.threads && s.threads[c].prog == Embryo(e)
    && forall u :: CopiedAt(s, e, c, v, u)
  }

  ghost predicate CopiedAt(s: Sys, e: nat, c: nat, v: nat, u: nat) {
    u != PFTEMP && u != UXSTACK ==> (Key(c, u) in s.pt <==> u < v && Key(e, u) in s.pt)
  }

  ghost predicate ProgOk(s: Sys, e: nat)
    requires e in s.threads
  {
    var prog := s.threads[e].prog;
    && (prog.Embryo? ==> s.threads[e].fault.NoFault?)
    && (prog.Forking() ==> CopiedBelow(s, e, prog.child, prog.Bound()))
    && (prog.MapChild? || prog.MapReadOnly? || prog.MapSelf? ==>
          prog.vpn < USTACKTOP && prog.vpn != PFTEMP && Key(e, prog.vpn) in s.pt)
    && (prog.MapReadOnly? ==> !Shareable(s.pt[Key(e, prog.vpn)]))
  }

  ghost predicate ThreadOk(s: Sys, e: nat) {
    e in s.threads ==> FaultOk(s, e) && ProgOk(s, e)
  }

  ghost predicate ThreadsOk(s: Sys) {
    forall e :: ThreadOk(s, e)
  }

  ghost predicate Inv(s: Sys) {
    EntriesOk(s) && ThreadsOk(s) && Exclusive(s)
  }

  // Every page an environment can read is what the eager machine has there.
  ghost predicate Refines(s: Sys, m: Memory) {
    && (forall k :: k in m <==> k in s.pt && k.vpn != PFTEMP && !Pending(s, k))
    && (forall k :: k in m ==> s.pt[k].pn in s.frames && m[k] == s.frames[s.pt[k].pn])
  }

  // ----- every step keeps the invariant -----

  lemma StepKeepsEntries(s: Sys, step: Step)
    requires Inv(s) && Enabled(s, step)
    ensures EntriesOk(Apply(s, step))
  {
    assert ThreadOk(s, step.env);
    forall k | k in Apply(s, step).pt ensures EntryOk(Apply(s, step), k) {
      if k in s.pt { assert EntryOk(s, k); }
    }
  }

  // The page whose sharing decides what a step may do
  function Pivot(s: Sys, step: Step): Key
    requires Enabled(s, step)
  {
    match step
    case Write(e, v, _, _) => Key(e, v)
    case DupChild(e) => Key(e, s.threads[e].prog.vpn)
    case DupReadOnly(e) => Key(e, s.threads[e].prog.vpn)
    case Receive(_, _, x, u, _) => Key(x, u)
    case _ => Key(step.env, PFTEMP)
  }

  predicate IsFaultStep(step: Step) {
    step.TakeFault? || step.FaultAlloc? || step.FaultCopy? || step.FaultMap? || step.FaultUnmap? || step.Write?
  }

  predicate IsForkStep(step: Step) {
    step.Exofork? || step.CheckPage? || step.StackAlloc? || step.SetRunnable?
  }

  predicate IsDupStep(step: Step) {
    step.DupChild? || step.DupSelf? || step.DupReadOnly?
  }

  lemma FaultStepKeepsExclusive(s: Sys, step: Step)
    requires Inv(s) && Enabled(s, step) && IsFaultStep(step)
    ensures Exclusive(Apply(s, step))
  {
    var p := Pivot(s, step);
    assert ThreadOk(s, step.env);
    forall k1, k2 ensures Apart(Apply(s, step), k1, k2) {
      assert Apart(s, k1, k2) && Apart(s, k1, p) && Apart(s, p, k1) && Apart(s, p, k2);
    }
  }

  lemma OtherStepKeepsExclusive(s: Sys, step: Step)
    requires Inv(s) && Enabled(s, step) && !IsFaultStep(step)
    ensures Exclusive(Apply(s, step))
  {
    var p := Pivot(s, step);
    assert ThreadOk(s, step.env);
    forall k1, k2 ensures Apart(Apply(s, step), k1, k2) {
      assert Apart(s, k1, k2) && Apart(s, k1, p) && Apart(s, p, k2) && ThreadOk(s, k1.env);
    }
  }

  // What a forking environment has given its child stays given.
  lemma ForkKeepsCopied(s: Sys, step: Step, x: nat)
    requires Inv(s) && Enabled(s, step) && IsForkStep(step)
    requires var s' := Apply(s, step); x in s'.threads && s'.threads[x].prog.Forking()
    ensures var s' := Apply(s, step); CopiedBelow(s', x, s'.threads[x].prog.child, s'.threads[x].prog.Bound())
  {
    hide Exclusive, FaultOk;
    var s' := Apply(s, step);
    var c := s'.threads[x].prog.child;
    assert ThreadOk(s, step.env) && ThreadOk(s, x) && ThreadOk(s, c);
    forall u ensures CopiedAt(s', x, c, s'.threads[x].prog.Bound(), u) {
      if x in s.threads && s.threads[x].prog.Forking() { assert CopiedAt(s, x, c, s.threads[x].prog.Bound(), u); }
    }
  }

  lemma DupKeepsCopied(s: Sys, step: Step, x: nat)
    requires Inv(s) && Enabled(s, step) && IsDupStep(step)
    requires var s' := Apply(s, step); x in s'.threads && s'.threads[x].prog.Forking()
    ensures var s' := Apply(s, step); CopiedBelow(s', x, s'.threads[x].prog.child, s'.threads[x].prog.Bound())
  {
    hide Exclusive, FaultOk;
    var s' := Apply(s, step);
    var c := s'.threads[x].prog.child;
    assert ThreadOk(s, step.env) && ThreadOk(s, x) && ThreadOk(s, c);
    forall u ensures CopiedAt(s', x, c, s'.threads[x].prog.Bound(), u) {
      assert CopiedAt(s, x, c, s.threads[x].prog.Bound(), u);
    }
  }

  lemma OtherKeepsCopied(s: Sys, step: Step, x: nat)
    requires Inv(s) && Enabled(s, step) && !IsForkStep(step) && !IsDupStep(step)
    requires x in s.threads && s.threads[x].prog.Forking()
    ensures var prog := s.threads[x].prog;
            && x in Apply(s, step).threads && Apply(s, step).threads[x].prog == prog
            && CopiedBelow(Apply(s, step), x, prog.child, prog.Bound())
  {
    var c, b := s.threads[x].prog.child, s.threads[x].prog.Bound();
    assert ThreadOk(s, step.env) && ThreadOk(s, x) && ThreadOk(s, c);
    forall u ensures CopiedAt(Apply(s, step), x, c, b, u) {
      assert CopiedAt(s, x, c, b, u);
    }
  }

  lemma ForkKeepsFaults(s: Sys, step: Step, x: nat)
    requires Inv(s) && Enabled(s, step) && IsForkStep(step) && x in Apply(s, step).threads
    ensures FaultOk(Apply(s, step), x)
  {
    hide Exclusive, CopiedAt;
    assert ThreadOk(s, step.env) && ThreadOk(s, x);
  }

  lemma DupKeepsFaults(s: Sys, step: Step, x: nat)
    requires Inv(s) && Enabled(s, step) && IsDupStep(step) && x in Apply(s, step).threads
    ensures FaultOk(Apply(s, step), x)
  {
    hide Exclusive, CopiedAt;
    assert ThreadOk(s, step.env) && ThreadOk(s, x);
  }

  lemma ForkKeepsProgs(s: Sys, step: Step, x: nat)
    requires Inv(s) && Enabled(s, step) && IsForkStep(step) && x in Apply(s, step).threads
    ensures ProgOk(Apply(s, step), x)
  {
    hide Exclusive, CopiedAt;
    assert ThreadOk(s, step.env) && ThreadOk(s, x);
    if Apply(s, step).threads[x].prog.Forking() { ForkKeepsCopied(s, step, x); }
  }

  lemma DupKeepsProgs(s: Sys, step: Step, x: nat)
    requires Inv(s) && Enabled(s, step) && IsDupStep(step) && x in Apply(s, step).threads
    ensures ProgOk(Apply(s, step), x)
  {
    hide Exclusive, CopiedAt;
    assert ThreadOk(s, step.env) && ThreadOk(s, x);
    if Apply(s, step).threads[x].prog.Forking() { DupKeepsCopied(s, step, x); }
  }

  lemma OtherKeepsFaults(s: Sys, step: Step, x: nat)
    requires Inv(s) && Enabled(s, step) && !IsForkStep(step) && !IsDupStep(step)
    requires !step.Write? && !step.FaultCopy? && x in Apply(s, step).threads
    ensures FaultOk(Apply(s, step), x)
  {
    hide Exclusive, CopiedBelow;
    assert ThreadOk(s, step.env) && ThreadOk(s, x);
  }

  lemma OtherKeepsProgs(s: Sys, step: Step, x: nat)
    requires Inv(s) && Enabled(s, step) && !IsForkStep(step) && !IsDupStep(step)
    requires !step.Write? && !step.FaultCopy? && x in Apply(s, step).threads
    ensures ProgOk(Apply(s, step), x)
  {
    hide Exclusive, CopiedAt;
    assert ThreadOk(s, step.env) && ThreadOk(s, x);
    if x in s.threads && s.threads[x].prog.Forking() { OtherKeepsCopied(s, step, x); }
  }

  // A store never lands in a page somebody is copying from or to.
  lemma StoreKeepsThreads(s: Sys, step: Step, x: nat)
    requires Inv(s) && Enabled(s, step) && (step.Write? || step.FaultCopy?)
    ensures ThreadOk(Apply(s, step), x)
  {
    var p := Pivot(s, step);
    assert ThreadOk(s, step.env) && ThreadOk(s, x);
    if x in s.threads {
      if s.threads[x].fault.Copying? {
        assert Apart(s, p, Key(x, PFTEMP)) && Apart(s, p, Key(x, s.threads[x].fault.vpn));
      }
      if s.threads[x].prog.Forking() { OtherKeepsCopied(s, step, x); }
    }
  }

  lemma StepKeepsThread(s: Sys, step: Step, x: nat)
    requires Inv(s) && Enabled(s, step)
    ensures ThreadOk(Apply(s, step), x)
  {
    hide Apply, Inv, Enabled, FaultOk, ProgOk;
    if x in Apply(s, step).threads {
      if step.Write? || step.FaultCopy? {
        StoreKeepsThreads(s, step, x);
      } else if IsForkStep(step) {
        ForkKeepsFaults(s, step, x);
        ForkKeepsProgs(s, step, x);
      } else if IsDupStep(step) {
        DupKeepsFaults(s, step, x);
        DupKeepsProgs(s, step, x);
      } else {
        OtherKeepsFaults(s, step, x);
        OtherKeepsProgs(s, step, x);
      }
    }
  }

  lemma StepKeepsInv(s: Sys, step: Step)
    requires Inv(s) && Enabled(s, step)
    ensures Inv(Apply(s, step))
  {
    StepKeepsEntries(s, step);
    if IsFaultStep(step) { FaultStepKeepsExclusive(s, step); } else { OtherStepKeepsExclusive(s, step); }
    forall x ensures ThreadOk(Apply(s, step), x) { StepKeepsThread(s, step, x); }
  }

  // ----- every step is a step of the eager machine -----

  // A store is seen through no other mapping.
  lemma StoreRefines(s: Sys, m: Memory, step: Step)
    requires Inv(s) && Enabled(s, step) && Refines(s, m) && (step.Write? || step.FaultCopy?)
    ensures Refines(Apply(s, step), EagerStep(m, Meanwhile(s, step)))
  {
    var p := Pivot(s, step);
    assert ThreadOk(s, step.env);
    forall k | k in m ensures k != p ==> s.pt[k].pn != s.pt[p].pn {
      assert Apart(s, p, k);
    }
  }

  // When pgfault installs its copy, the copy is complete and private.
  lemma FaultMapRefines(s: Sys, m: Memory, step: Step)
    requires Inv(s) && Enabled(s, step) && Refines(s, m) && step.FaultMap?
    ensures Refines(Apply(s, step), EagerStep(m, Meanwhile(s, step)))
  {
    var e := step.env;
    assert ThreadOk(s, e);
    assert s.frames[s.pt[Key(e, PFTEMP)].pn] == s.frames[s.pt[Key(e, s.threads[e].fault.vpn)].pn];
    forall k ensures k in s.pt && k != Key(e, PFTEMP) ==> s.pt[k].pn != s.pt[Key(e, PFTEMP)].pn {
      assert Apart(s, Key(e, PFTEMP), k);
    }
  }

  lemma FaultStepRefines(s: Sys, m: Memory, step: Step)
    requires Inv(s) && Enabled(s, step) && Refines(s, m)
    requires step.TakeFault? || step.FaultAlloc? || step.FaultUnmap?
    ensures Refines(Apply(s, step), EagerStep(m, Meanwhile(s, step)))
  {
    assert ThreadOk(s, step.env);
  }

  lemma ForkStepRefines(s: Sys, m: Memory, step: Step)
    requires Inv(s) && Enabled(s, step) && Refines(s, m) && (step.Exofork? || step.CheckPage? || step.StackAlloc?)
    ensures Refines(Apply(s, step), EagerStep(m, Meanwhile(s, step)))
  {
    assert ThreadOk(s, step.env);
  }

  lemma LaunchRefines(s: Sys, m: Memory, step: Step)
    requires Inv(s) && Enabled(s, step) && Refines(s, m) && step.SetRunnable?
    ensures Refines(Apply(s, step), EagerStep(m, Meanwhile(s, step)))
  {
    assert ThreadOk(s, step.env);
  }

  lemma DupChildRefines(s: Sys, m: Memory, step: Step)
    requires Inv(s) && Enabled(s, step) && Refines(s, m) && step.DupChild?
    ensures Refines(Apply(s, step), EagerStep(m, Meanwhile(s, step)))
  {
    hide Exclusive, EntriesOk, FaultOk, FreshPage;
    var prog := s.threads[step.env].prog;
    assert ThreadOk(s, step.env);
    assert CopiedAt(s, step.env, prog.child, prog.vpn, prog.vpn);
  }

  lemma DupReadOnlyRefines(s: Sys, m: Memory, step: Step)
    requires Inv(s) && Enabled(s, step) && Refines(s, m) && step.DupReadOnly?
    ensures Refines(Apply(s, step), EagerStep(m, Meanwhile(s, step)))
  {
    hide Exclusive, EntriesOk, FaultOk, FreshPage;
    var prog := s.threads[step.env].prog;
    assert ThreadOk(s, step.env);
    assert CopiedAt(s, step.env, prog.child, prog.vpn, prog.vpn);
  }

  lemma DupSelfRefines(s: Sys, m: Memory, step: Step)
    requires Inv(s) && Enabled(s, step) && Refines(s, m) && step.DupSelf?
    ensures Refines(Apply(s, step), EagerStep(m, Meanwhile(s, step)))
  {
    assert ThreadOk(s, step.env);
  }

  lemma ExitRefines(s: Sys, m: Memory, step: Step)
    requires Inv(s) && Enabled(s, step) && Refines(s, m) && step.Exit?
    ensures Refines(Apply(s, step), EagerStep(m, Meanwhile(s, step)))
  {
    assert ThreadOk(s, step.env);
  }

  lemma UserStepRefines(s: Sys, m: Memory, step: Step)
    requires Inv(s) && Enabled(s, step) && Refines(s, m) && (step.UserAlloc? || step.UserUnmap?)
    ensures Refines(Apply(s, step), EagerStep(m, Meanwhile(s, step)))
  {
    assert ThreadOk(s, step.env);
  }

  // A page nobody can write is as good as a copy of it.
  lemma ReceiveRefines(s: Sys, m: Memory, step: Step)
    requires Inv(s) && Enabled(s, step) && Refines(s, m) && step.Receive?
    ensures Refines(Apply(s, step), EagerStep(m, Meanwhile(s, step)))
  {
    hide Exclusive, FaultOk, ProgOk;
    var k := Key(step.env, step.vpn);
    assert Key(step.sender, step.page) in m;
    forall x ensures Pending(Apply(s, step), x) <==> Pending(s, x) {
      assert ThreadOk(s, x.env);
    }
  }

  // A page may pass from one environment to another exactly when its sender cannot
  // write it.
  lemma ReceiveSafeExactly(s: Sys, e: nat, v: nat, x: nat, u: nat, perm: set<Flag>)
    requires Inv(s) && Active(s, e) && s.threads[e].prog.User? && v != PFTEMP && u != PFTEMP
    requires Started(s, x) && Key(x, u) in s.pt && Key(x, u) != Key(e, v) && READ_ONLY <= perm <= s.pt[Key(x, u)].flags
    ensures Inv(SetEntry(s, Key(e, v), Word(s.pt[Key(x, u)].pn, perm))) <==> W !in s.pt[Key(x, u)].flags
  {
    var s' := SetEntry(s, Key(e, v), Word(s.pt[Key(x, u)].pn, perm));
    if W !in s.pt[Key(x, u)].flags {
      StepKeepsInv(s, Receive(e, v, x, u, perm));
    } else {
      assert ThreadOk(s, x);
      assert !Apart(s', Key(x, u), Key(e, v));
    }
  }

  lemma SetByte(c: Content, off: nat, b: Byte)
    requires off < PGSIZE && b != c[off]
    ensures c[off := b] != c
  {
    assert c[off := b][off] == b;
  }

  // A page the sender can still write is not the receiver's own: a store of the
  // sender shows through, where the eager machine keeps them apart.
  lemma WritableReceiveShows(s: Sys, m: Memory, e: nat, v: nat, x: nat, u: nat, perm: set<Flag>, off: nat, b: Byte)
    requires Inv(s) && Refines(s, m) && e in s.threads && v != PFTEMP && u != PFTEMP && off < PGSIZE
    requires Active(s, x) && Key(x, u) in s.pt && Key(x, u) != Key(e, v) && W in s.pt[Key(x, u)].flags
    requires !s.threads[e].prog.Embryo? && s.pt[Key(x, u)].pn in s.frames && b != s.frames[s.pt[Key(x, u)].pn][off]
    ensures var s1 := SetEntry(s, Key(e, v), Word(s.pt[Key(x, u)].pn, perm));
            && Enabled(s1, Write(x, u, off, b))
            && !Refines(Apply(s1, Write(x, u, off, b)),
                        EagerStep(EagerStep(m, Copy(Key(x, u), Key(e, v))), Store(Key(x, u), off, b)))
  {
    hide Inv, Exclusive;
    var p := s.pt[Key(x, u)].pn;
    var s1 := SetEntry(s, Key(e, v), Word(p, perm));
    var s2 := Apply(s1, Write(x, u, off, b));
    SetByte(s.frames[p], off, b);
    assert s2.frames[p] != s.frames[p] && s2.pt[Key(e, v)].pn == p;
    assert Key(x, u) in m && m[Key(x, u)] == s.frames[p] by { NotPending(s, x, u); }
  }

  lemma NotPending(s: Sys, x: nat, u: nat)
    requires Active(s, x)
    ensures !Pending(s, Key(x, u))
  {
  }

  lemma StepRefines(s: Sys, m: Memory, step: Step)
    requires Inv(s) && Enabled(s, step) && Refines(s, m)
    ensures Refines(Apply(s, step), EagerStep(m, Meanwhile(s, step)))
  {
    if step.Write? || step.FaultCopy? { StoreRefines(s, m, step); }
    else if step.FaultMap? { FaultMapRefines(s, m, step); }
    else if IsFaultStep(step) { FaultStepRefines(s, m, step); }
    else if step.SetRunnable? { LaunchRefines(s, m, step); }
    else if IsForkStep(step) { ForkStepRefines(s, m, step); }
    else if step.DupSelf? { DupSelfRefines(s, m, step); }
    else if step.DupChild? { DupChildRefines(s, m, step); }
    else if step.DupReadOnly? { DupReadOnlyRefines(s, m, step); }
    else if step.Exit? { ExitRefines(s, m, step); }
    else if step.Receive? { ReceiveRefines(s, m, step); }
    else { UserStepRefines(s, m, step); }
  }

  // ----- whole runs -----

  ghost predicate CanRun(s: Sys, steps: seq<Step>)
    decreases |steps|
  {
    steps == [] || (Enabled(s, steps[0]) && CanRun(Apply(s, steps[0]), steps[1..]))
  }

  ghost function Run(s: Sys, steps: seq<Step>): Sys
    requires CanRun(s, steps)
    decreases |steps|
  {
    if steps == [] then s else Run(Apply(s, steps[0]), steps[1..])
  }

  // The eager machine's memory after the same run
  ghost function EagerRun(s: Sys, m: Memory, steps: seq<Step>): Memory
    requires CanRun(s, steps)
    decreases |steps|
  {
    if steps == [] then m
    else EagerRun(Apply(s, steps[0]), EagerStep(m, Meanwhile(s, steps[0])), steps[1..])
  }

  // Freshly loaded environments: every page mapped once, nobody forking or faulting.
  ghost predicate Init(s: Sys) {
    && EntriesOk(s)
    && (forall k1, k2 :: k1 in s.pt && k2 in s.pt && k1 != k2 ==> s.pt[k1].pn != s.pt[k2].pn)
    && (forall e :: e in s.threads ==> s.threads[e] == Thread(User, NoFault) && Key(e, PFTEMP) !in s.pt)
  }

  ghost function MemoryOf(s: Sys): Memory
    requires EntriesOk(s)
  {
    map k | k in s.pt && k.vpn != PFTEMP && !Pending(s, k) && EntryOk(s, k) :: s.frames[s.pt[k].pn]
  }

  lemma {:induction false} RunRefines(s: Sys, m: Memory, steps: seq<Step>)
    requires Inv(s) && Refines(s, m) && CanRun(s, steps)
    ensures Inv(Run(s, steps)) && Refines(Run(s, steps), EagerRun(s, m, steps))
    decreases |steps|
  {
    if steps != [] {
      StepKeepsInv(s, steps[0]);
      StepRefines(s, m, steps[0]);
      RunRefines(Apply(s, steps[0]), EagerStep(m, Meanwhile(s, steps[0])), steps[1..]);
    }
  }

  lemma MemoryRefines(s: Sys)
    requires EntriesOk(s)
    ensures Refines(s, MemoryOf(s))
  {
    forall k ensures k in MemoryOf(s) <==> k in s.pt && k.vpn != PFTEMP && !Pending(s, k) {
      assert k in s.pt ==> EntryOk(s, k);
    }
  }

  // Copy-on-write fork means eager copying: after any interleaving of stores,
  // faults, forks, allocations and exits, each started environment has exactly
  // the pages, with exactly the contents, that it would have had if fork had
  // copied every page.
  lemma CowForkMeansEagerCopy(s: Sys, steps: seq<Step>, e: nat, v: nat)
    requires Init(s) && CanRun(s, steps)
    requires v != PFTEMP && e in Run(s, steps).threads && !Run(s, steps).threads[e].prog.Embryo?
    ensures EntriesOk(s)
    ensures var s', m := Run(s, steps), EagerRun(s, MemoryOf(s), steps);
            && (Key(e, v) in s'.pt <==> Key(e, v) in m)
            && (Key(e, v) in m ==> s'.pt[Key(e, v)].pn in s'.frames && s'.frames[s'.pt[Key(e, v)].pn] == m[Key(e, v)])
  {
    MemoryRefines(s);
    RunRefines(s, MemoryOf(s), steps);
  }

  // ----- isolation -----

  // What is read through an entry
  ghost function Sees(s: Sys, k: Key): Content {
    if k in s.pt && s.pt[k].pn in s.frames then s.frames[s.pt[k].pn] else Zeros()
  }

  // The eager machine changes nothing of a started environment on behalf of another.
  lemma EagerIsolation(s: Sys, m: Memory, step: Step, e: nat, v: nat)
    requires Inv(s) && Enabled(s, step) && Started(s, e) && step.env != e
    ensures Started(Apply(s, step), e)
    ensures var m' := EagerStep(m, Meanwhile(s, step));
            (Key(e, v) in m' <==> Key(e, v) in m) && (Key(e, v) in m ==> m'[Key(e, v)] == m[Key(e, v)])
  {
    hide Exclusive, EntriesOk, CopiedAt;
    assert ThreadOk(s, step.env) && ThreadOk(s, e);
  }

  lemma {:induction false} EagerRunIsolation(s: Sys, m: Memory, steps: seq<Step>, e: nat, v: nat)
    requires Inv(s) && CanRun(s, steps) && Started(s, e) && forall i :: 0 <= i < |steps| ==> steps[i].env != e
    ensures Started(Run(s, steps), e)
    ensures var m' := EagerRun(s, m, steps);
            (Key(e, v) in m' <==> Key(e, v) in m) && (Key(e, v) in m ==> m'[Key(e, v)] == m[Key(e, v)])
    decreases |steps|
  {
    if steps != [] {
      EagerIsolation(s, m, steps[0], e, v);
      StepKeepsInv(s, steps[0]);
      EagerRunIsolation(Apply(s, steps[0]), EagerStep(m, Meanwhile(s, steps[0])), steps[1..], e, v);
    }
  }

  // However many pages it shares, nothing the other environments do, stores, faults
  // and forks included, changes what a started environment has mapped or reads.
  lemma NobodyElseWrites(s: Sys, steps: seq<Step>, e: nat, v: nat)
    requires Inv(s) && CanRun(s, steps) && Started(s, e) && v != PFTEMP
    requires forall i :: 0 <= i < |steps| ==> steps[i].env != e
    ensures var s' := Run(s, steps);
            (Key(e, v) in s'.pt <==> Key(e, v) in s.pt) && Sees(s', Key(e, v)) == Sees(s, Key(e, v))
  {
    MemoryRefines(s);
    RunRefines(s, MemoryOf(s), steps);
    EagerRunIsolation(s, MemoryOf(s), steps, e, v);
  }

  // When the child is started it has just the parent's pages, and a stack for its
  // faults.
  lemma LaunchedChildIsComplete(s: Sys, e: nat, v: nat)
    requires Inv(s) && Enabled(s, SetRunnable(e)) && v != PFTEMP && v != UXSTACK
    ensures Key(s.threads[e].prog.child, v) in s.pt <==> v < 0xEEBFE && Key(e, v) in s.pt
  {
    var c := s.threads[e].prog.child;
    assert ThreadOk(s, e) && CopiedAt(s, e, c, USTACKTOP, v);
  }

  // ----- one duppage, interleaved with anything -----

  // Environment `e` is inside duppage(c, v).
  ghost predicate InDuppage(s: Sys, e: nat, c: nat, v: nat) {
    e in s.threads && (s.threads[e].prog == MapChild(c, v) || s.threads[e].prog == MapSelf(c, v))
  }

  // Between the two calls of duppage nobody else touches the child's page.
  lemma OthersLeaveCopyAlone(s: Sys, m: Memory, step: Step, e: nat, c: nat, v: nat)
    requires Inv(s) && Enabled(s, step) && Refines(s, m)
    requires InDuppage(s, e, c, v) && step != DupSelf(e) && step != DupChild(e)
    ensures var m' := EagerStep(m, Meanwhile(s, step));
            (Key(c, v) in m' <==> Key(c, v) in m) && (Key(c, v) in m ==> m'[Key(c, v)] == m[Key(c, v)])
    ensures Apply(s, step).threads[e].prog == s.threads[e].prog && InDuppage(Apply(s, step), e, c, v)
  {
    hide Exclusive, EntriesOk, FaultOk, CopiedAt, Refines, FreshPage;
    assert ThreadOk(s, e) && ThreadOk(s, step.env);
  }

  // A step inside duppage that is not its second call
  lemma InsideDuppage(s: Sys, step: Step, e: nat, c: nat, v: nat)
    requires Inv(s) && Enabled(s, step) && InDuppage(s, e, c, v) && step != DupSelf(e)
    ensures Inv(Apply(s, step)) && InDuppage(Apply(s, step), e, c, v)
    ensures step == DupChild(e) ==> Sees(Apply(s, step), Key(c, v)) == Sees(s, Key(e, v))
    ensures step != DupChild(e) ==> Apply(s, step).threads[e].prog == s.threads[e].prog
    ensures step != DupChild(e) && s.threads[e].prog.MapSelf? ==>
              (Pending(Apply(s, step), Key(c, v)) <==> Pending(s, Key(c, v)))
              && (!Pending(s, Key(c, v)) ==> Sees(Apply(s, step), Key(c, v)) == Sees(s, Key(c, v)))
  {
    StepKeepsInv(s, step);
    MemoryRefines(s);
    StepRefines(s, MemoryOf(s), step);
    assert ThreadOk(s, e) && EntryOk(s, Key(e, v));
    if step != DupChild(e) {
      OthersLeaveCopyAlone(s, MemoryOf(s), step, e, c, v);
      if s.threads[e].prog.MapSelf? {
        assert CopiedAt(s, e, c, v + 1, v);
        assert ThreadOk(Apply(s, step), e) && CopiedAt(Apply(s, step), e, c, v + 1, v);
      }
    }
  }

  // The second call
  lemma EndOfDuppage(s: Sys, e: nat, c: nat, v: nat)
    requires Inv(s) && Enabled(s, DupSelf(e)) && InDuppage(s, e, c, v)
    ensures var s' := Apply(s, DupSelf(e));
            && Key(e, v) in s'.pt && Key(c, v) in s'.pt && W !in s'.pt[Key(e, v)].flags
            && Sees(s', Key(c, v)) == if Pending(s, Key(c, v)) then Sees(s, Key(e, v)) else Sees(s, Key(c, v))
  {
    assert ThreadOk(s, e) && CopiedAt(s, e, c, v + 1, v);
  }

  // duppage, with any steps of any environment before, between and after its
  // calls, leaves the parent unable to write the page and the child with the page
  // as the parent had it at one moment during the call.
  lemma {:induction false} DuppageCopiesOneMoment(s: Sys, steps: seq<Step>, e: nat, c: nat, v: nat) returns (i: nat)
    requires Inv(s) && CanRun(s, steps) && InDuppage(s, e, c, v)
    requires steps != [] && steps[|steps| - 1] == DupSelf(e)
    requires forall j :: 0 <= j < |steps| - 1 ==> steps[j] != DupSelf(e)
    ensures i <= |steps| && CanRun(s, steps[..i])
    ensures var s' := Run(s, steps);
            Key(e, v) in s'.pt && Key(c, v) in s'.pt && W !in s'.pt[Key(e, v)].flags
    ensures Sees(Run(s, steps), Key(c, v)) == Sees(Run(s, steps[..i]), Key(e, v))
            || (s.threads[e].prog == MapSelf(c, v) && !Pending(s, Key(c, v))
                && Sees(Run(s, steps), Key(c, v)) == Sees(s, Key(c, v)))
    decreases |steps|
  {
    i := 0;
    if |steps| == 1 {
      EndOfDuppage(s, e, c, v);
    } else {
      InsideDuppage(s, steps[0], e, c, v);
      var s1 := Apply(s, steps[0]);
      assert steps[1..][|steps| - 2] == steps[|steps| - 1];
      var j := DuppageCopiesOneMoment(s1, steps[1..], e, c, v);
      assert steps[..j + 1][1..] == steps[1..][..j] && steps[..0] == [];
      if Sees(Run(s, steps), Key(c, v)) == Sees(Run(s1, steps[1..][..j]), Key(e, v)) { i := j + 1; }
    }
  }
}
