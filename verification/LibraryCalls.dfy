/**
 The steps of the machine of `CowFork` taken on the kernel itself: each is the system
 call that `lib/fork.c`, `lib/pgfault.c` or `lib/ipc.c` makes for it, and the tables
 and pages of `Kernel` end up as the machine's map and pages do.
 */
module LibraryCalls {
  import opened Paging
  import opened Envs
  import opened EnvIds
  import opened KernelSpec
  import opened FlatMap
  import Cow = CowFork
  import Kernel
  import S = PmapSpec

  // The steps that are system calls
  predicate IsCall(step: Cow.Step) {
    !step.Write? && !step.TakeFault? && !step.FaultCopy? && !step.CheckPage?
  }

  // Every mapped page holds the bytes the machine has there; `bytes` reads a page of
  // words as one of bytes.
  ghost predicate Images(bytes: Frame -> Cow.Content, pt: Flat, pages: map<nat, Cow.Content>, s: State) {
    forall k :: k in pt ==> Image(bytes, pt[k].pn, pages, s)
  }

  ghost predicate Image(bytes: Frame -> Cow.Content, p: nat, pages: map<nat, Cow.Content>, s: State) {
    p in pages && p < |s.frames| && pages[p] == bytes(s.frames[p])
  }

  lemma FlatEntry(envs: seq<Env>, s: State, k: Cow.Key)
    requires k in FlatOf(envs, s)
    ensures k.env < |envs| && Live(envs[k.env]) && k.vpn < USER_PAGES
    ensures MapOf(envs, s, k.env, k.vpn * PGSIZE) == Some(FlatOf(envs, s)[k])
  {
    assert Has(FlatOf(envs, s), k, FlatOf(envs, s)[k]);
  }

  lemma ImagesKept(bytes: Frame -> Cow.Content, pt: Flat, pages: map<nat, Cow.Content>,
                   envs: seq<Env>, s: State, o: Own, kern: nat, s': State)
    requires Spaces(envs, s, o, kern) && pt == FlatOf(envs, s) && Images(bytes, pt, pages, s)
    requires S.SameContents(s, s', o)
    ensures Images(bytes, pt, pages, s')
  {
    hide Spaces, MapOf;
    forall k | k in pt ensures Image(bytes, pt[k].pn, pages, s') {
      FlatEntry(envs, s, k);
      PageAddress(k.vpn);
      SpacesSized(envs, s, o, kern);
      MappedIsNotFree(envs, s, o, kern, k.env, k.vpn * PGSIZE);
      assert Image(bytes, pt[k].pn, pages, s);
    }
  }

  lemma SpacesSized(envs: seq<Env>, s: State, o: Own, kern: nat)
    requires Spaces(envs, s, o, kern)
    ensures |envs| == NENV && Sized(s, o)
  {
  }

  lemma ImagesOfNew(bytes: Frame -> Cow.Content, pt: Flat, pages: map<nat, Cow.Content>, s: State,
                    k: Cow.Key, p: nat, w: Word)
    requires Images(bytes, pt, pages, s) && w.pn == p < |s.frames| && s.frames[p] == ZeroFrame()
    requires bytes(ZeroFrame()) == Cow.Zeros() && forall x :: x in pt ==> pt[x].pn != p
    ensures Images(bytes, pt[k := w], pages[p := Cow.Zeros()], s)
  {
    forall x | x in pt && x != k ensures Image(bytes, pt[x].pn, pages[p := Cow.Zeros()], s) {
      assert Image(bytes, pt[x].pn, pages, s);
    }
  }

  lemma ResolvesTo(envs: seq<Env>, logs: seq<Log>, cur: nat, c: nat)
    requires EnvsOk(envs, logs) && cur < NENV && c < NENV && Live(envs[c])
    ensures envs[c].parent == envs[cur].id ==> Resolve(envs, cur, envs[c].id, true) == Some(c)
    ensures Resolve(envs, cur, envs[c].id, false) == Some(c)
  {
    assert EnvOk(c, envs[c], logs[c]);
    IdWellFormed(c, logs[c].allocs);
  }

  // What the caller of the library has: the environments of the step are live, a child
  // is the caller's own, a page or slot to be taken is the first free one, and the
  // receiver of a page waits for it there.
  ghost predicate Ready(t: Tables, m: Cow.Sys, step: Cow.Step)
    requires Cow.Enabled(m, step) && |t.envs| == NENV
  {
    var e := step.env;
    var prog := m.threads[e].prog;
    && e < NENV && Live(t.envs[e])
    && (prog.Forking() ==>
          prog.child < NENV && prog.child != e && Live(t.envs[prog.child]) && t.envs[prog.child].parent == t.envs[e].id
          && !t.envs[prog.child].recving)
    && match step
       case FaultAlloc(_, p) => t.s.head == Some(p)
       case StackAlloc(_, p) => t.s.head == Some(p)
       case UserAlloc(_, v, p) => t.s.head == Some(p) && v < USER_PAGES
       case UserUnmap(_, v) => v < USER_PAGES
       case Exofork(_, c) => t.head == Some(c)
       case Receive(_, v, x, _, _) =>
         v < USER_PAGES && x < NENV && Live(t.envs[x]) && t.envs[e].recving && t.envs[e].dstva == v * PGSIZE
       case _ => true
  }

  // sys_page_map(0, u, c, v, perm), the target being the caller or its child
  method Map(k: Kernel.Kernel, e: nat, u: nat, c: nat, v: nat, perm: set<Flag>) returns (r: int)
    requires k.Valid() && Room(k.pm.View()) && e < NENV && Live(k.envs[e]) && c < NENV && Live(k.envs[c])
    requires c != e ==> k.envs[c].parent == k.envs[e].id
    requires u < USER_PAGES && v < USER_PAGES && {P, U} <= perm
    requires k.Map(e, u * PGSIZE).Some? && (W in perm ==> W in k.Map(e, u * PGSIZE).value.flags)
    modifies k.pm, k.pm.pages, k.pm.frames
    ensures k.Valid() && (r == 0 || r == -S.E_NO_MEM)
    ensures r != 0 ==> k.pm.View() == old(k.pm.View()) && k.pm.own == old(k.pm.own)
    ensures r == 0 ==> Mapped(k.envs[..], old(k.pm.View()), k.pm.View(), e, u, c, v, perm)
    ensures S.SameContents(old(k.pm.View()), k.pm.View(), old(k.pm.own))
  {
    hide Spaces, SlotsOk, EnvOk, MapsChangedAt, FreedAt, S.SameContents, Resolve, MapOf, Explained;
    ResolvesTo(k.envs[..], k.logs, e, c);
    ResolvesToSelf(k.envs[..], e);
    PageAddress(u);
    PageAddress(v);
    LowIsClean(k.Map(e, u * PGSIZE).value.pn, perm);
    r := k.SysPageMap(e, 0, u * PGSIZE, if c == e then 0 else k.envs[c].id, v * PGSIZE, Low(perm));
  }

  lemma ResolvesToSelf(envs: seq<Env>, cur: nat)
    requires |envs| == NENV && cur < NENV
    ensures Resolve(envs, cur, 0, true) == Some(cur)
  {
  }

  // sys_page_alloc(c, v, PTE_P | PTE_U | PTE_W)
  method Alloc(k: Kernel.Kernel, e: nat, c: nat, v: nat) returns (r: int)
    requires k.Valid() && Room(k.pm.View()) && e < NENV && Live(k.envs[e]) && c < NENV && Live(k.envs[c])
    requires (c != e ==> k.envs[c].parent == k.envs[e].id) && v < USER_PAGES
    modifies k`taken, k.pm, k.pm.pages, k.pm.frames
    ensures k.Valid() && (r == 0 || r == -S.E_NO_MEM)
    ensures r != 0 ==> MapsSame(k.envs[..], old(k.pm.View()), k.pm.View())
    ensures r == 0 ==>
              old(k.pm.page_free_list).Some?
              && Alloced(k.envs[..], old(k.pm.View()), old(k.pm.own), k.pm.View(), k.pm.own, c, v,
                         old(k.pm.page_free_list).value)
    ensures S.SameContents(old(k.pm.View()), k.pm.View(), old(k.pm.own))
  {
    hide SlotsOk, EnvOk, MappedFresh, S.SameContents, Resolve, MapsSame, Explained;
    SpacesParts(k.envs[..], k.pm.View(), k.pm.own, k.kern_pgdir);
    ResolvesTo(k.envs[..], k.logs, e, c);
    ResolvesToSelf(k.envs[..], e);
    PageAddress(v);
    if k.pm.page_free_list.Some? { LowIsClean(k.pm.page_free_list.value, Cow.RW); }
    r := k.SysPageAlloc(e, if c == e then 0 else k.envs[c].id, v * PGSIZE, Low(Cow.RW));
  }

  // sys_page_unmap(0, v)
  method Unmap(k: Kernel.Kernel, e: nat, v: nat)
    requires k.Valid() && e < NENV && Live(k.envs[e]) && v < USER_PAGES
    modifies k.pm, k.pm.pages, k.pm.frames
    ensures k.Valid() && Unmapped(k.envs[..], old(k.pm.View()), k.pm.View(), e, v)
    ensures S.SameContents(old(k.pm.View()), k.pm.View(), old(k.pm.own))
  {
    hide SlotsOk, EnvOk, MapsChangedAt, FreedAt, S.SameContents, Resolve;
    ResolvesToSelf(k.envs[..], e);
    PageAddress(v);
    var r := k.SysPageUnmap(e, 0, v * PGSIZE);
  }

  // ----- what the machine makes of pages -----

  predicate TakesPage(step: Cow.Step) {
    step.FaultAlloc? || step.StackAlloc? || step.UserAlloc?
  }

  // Where a call allocates nothing, every page it leaves mapped was mapped before.
  lemma OldPages(m: Cow.Sys, step: Cow.Step)
    requires Cow.Inv(m) && Cow.Enabled(m, step) && IsCall(step) && !TakesPage(step)
    ensures Cow.Apply(m, step).frames == m.frames
    ensures forall k :: k in Cow.Apply(m, step).pt ==>
              exists x :: x in m.pt && m.pt[x].pn == Cow.Apply(m, step).pt[k].pn
  {
    hide Cow.Inv;
    forall k | k in Cow.Apply(m, step).pt
      ensures exists x :: x in m.pt && m.pt[x].pn == Cow.Apply(m, step).pt[k].pn
    {
      if k in m.pt && m.pt[k] == Cow.Apply(m, step).pt[k] {
      } else {
        var e := step.env;
        var prog := m.threads[e].prog;
        var src := if step.FaultMap? then Cow.Key(e, Cow.PFTEMP)
                   else if step.Receive? then Cow.Key(step.sender, step.page)
                   else Cow.Key(e, prog.vpn);
        assert src in m.pt && m.pt[src].pn == Cow.Apply(m, step).pt[k].pn;
      }
    }
  }

  lemma ImagesOfOld(bytes: Frame -> Cow.Content, pt: Flat, pt': Flat, pages: map<nat, Cow.Content>, s: State)
    requires Images(bytes, pt, pages, s)
    requires forall k :: k in pt' ==> exists x :: x in pt && pt[x].pn == pt'[k].pn
    ensures Images(bytes, pt', pages, s)
  {
    forall k | k in pt' ensures Image(bytes, pt'[k].pn, pages, s) {
      var x :| x in pt && pt[x].pn == pt'[k].pn;
      assert Image(bytes, pt[x].pn, pages, s);
    }
  }

  // The kernel is where the machine is.
  ghost predicate At(bytes: Frame -> Cow.Content, m: Cow.Sys, t: Tables) {
    InOrder(t) && m.pt == FlatOf(t.envs, t.s) && Images(bytes, m.pt, m.frames, t.s)
  }

  // The entry a new page becomes
  function NewKey(m: Cow.Sys, step: Cow.Step): Cow.Key
    requires Cow.Enabled(m, step) && TakesPage(step)
  {
    if step.FaultAlloc? then Cow.Key(step.env, Cow.PFTEMP)
    else if step.StackAlloc? then Cow.Key(m.threads[step.env].prog.child, Cow.UXSTACK)
    else Cow.Key(step.env, step.vpn)
  }

  lemma NewPage(m: Cow.Sys, step: Cow.Step)
    requires Cow.Enabled(m, step) && TakesPage(step)
    ensures && Cow.Apply(m, step).pt == m.pt[NewKey(m, step) := Word(step.page, Cow.RW)]
            && Cow.Apply(m, step).frames == m.frames[step.page := Cow.Zeros()]
            && forall x :: x in m.pt ==> m.pt[x].pn != step.page
  {
  }

  // A call as the library makes it takes kernel and machine to the same place.
  lemma Follows(bytes: Frame -> Cow.Content, m: Cow.Sys, step: Cow.Step, t: Tables, t': Tables)
    requires At(bytes, m, t) && InOrder(t') && Cow.Inv(m) && Cow.Enabled(m, step) && IsCall(step)
    requires AsPromised(m, step, t.envs, t.s, t.o, t'.envs, t'.s, t'.o) && S.SameContents(t.s, t'.s, t.o)
    requires bytes(ZeroFrame()) == Cow.Zeros()
    requires TakesPage(step) ==> step.page < |t'.s.frames| && t'.s.frames[step.page] == ZeroFrame()
    ensures At(bytes, Cow.Apply(m, step), t')
  {
    hide Spaces, SlotsOk, EnvsOk, HeldOnly, AsPromised, Cow.Inv, Cow.Enabled, Cow.Apply, Images, S.SameContents;
    CallIsStep(m, step, t.envs, t.s, t.o, t.kern, t'.envs, t'.s, t'.o);
    ImagesKept(bytes, m.pt, m.frames, t.envs, t.s, t.o, t.kern, t'.s);
    if TakesPage(step) {
      NewPage(m, step);
      ImagesOfNew(bytes, m.pt, m.frames, t'.s, NewKey(m, step), step.page, Word(step.page, Cow.RW));
    } else {
      OldPages(m, step);
      ImagesOfOld(bytes, m.pt, Cow.Apply(m, step).pt, m.frames, t'.s);
    }
  }

  lemma StaysAt(bytes: Frame -> Cow.Content, m: Cow.Sys, t: Tables, t': Tables)
    requires At(bytes, m, t) && InOrder(t') && t'.envs == t.envs && MapsSame(t.envs, t.s, t'.s)
    requires S.SameContents(t.s, t'.s, t.o)
    ensures At(bytes, m, t')
  {
    hide Spaces, SlotsOk, EnvsOk, HeldOnly, Images, S.SameContents, MapOf;
    ImagesKept(bytes, m.pt, m.frames, t.envs, t.s, t.o, t.kern, t'.s);
    forall k, w ensures FlatMap.Entry(t.envs, t'.s, k, w) <==> FlatMap.Entry(t.envs, t.s, k, w) {
      if k.vpn < USER_PAGES { PageAddress(k.vpn); }
    }
    SameFlat(FlatOf(t'.envs, t'.s), FlatOf(t.envs, t.s));
  }

  // ----- the calls -----

  // An entry the machine has, as the kernel finds it
  lemma KernelHas(m: Cow.Sys, t: Tables, k: Cow.Key)
    requires InOrder(t) && m.pt == FlatOf(t.envs, t.s) && k in m.pt
    ensures k.env < NENV && Live(t.envs[k.env]) && k.vpn < USER_PAGES && k.vpn * PGSIZE < UTOP
    ensures MapOf(t.envs, t.s, k.env, k.vpn * PGSIZE) == Some(m.pt[k])
  {
    hide MapOf;
    FlatEntry(t.envs, t.s, k);
    PageAddress(k.vpn);
  }

  predicate MapsPage(step: Cow.Step) {
    step.DupChild? || step.DupSelf? || step.DupReadOnly? || step.FaultMap?
  }

  // Source and target of the sys_page_map of a step, and its flags
  function Source(m: Cow.Sys, step: Cow.Step): Cow.Key
    requires Cow.Enabled(m, step) && MapsPage(step)
  {
    Cow.Key(step.env, if step.FaultMap? then Cow.PFTEMP else m.threads[step.env].prog.vpn)
  }

  function Target(m: Cow.Sys, step: Cow.Step): Cow.Key
    requires Cow.Enabled(m, step) && MapsPage(step)
  {
    var th := m.threads[step.env];
    if step.FaultMap? then Cow.Key(step.env, th.fault.vpn)
    else Cow.Key(if step.DupSelf? then step.env else th.prog.child, th.prog.vpn)
  }

  function Flags(step: Cow.Step): (perm: set<Flag>)
    ensures {P, U} <= perm
  {
    if step.FaultMap? then Cow.RW else if step.DupReadOnly? then Cow.READ_ONLY else Cow.SHARED
  }

  lemma MapSource(m: Cow.Sys, step: Cow.Step)
    requires Cow.Inv(m) && Cow.Enabled(m, step) && MapsPage(step)
    ensures Source(m, step) in m.pt && (W in Flags(step) ==> W in m.pt[Source(m, step)].flags)
    ensures Target(m, step).vpn == Source(m, step).vpn || Target(m, step) in m.pt
  {
    assert Cow.ThreadOk(m, step.env);
  }

  lemma MapTarget(t: Tables, m: Cow.Sys, step: Cow.Step)
    requires Cow.Enabled(m, step) && MapsPage(step) && |t.envs| == NENV && Ready(t, m, step)
    ensures var e, c := step.env, Target(m, step).env;
            && e < NENV && Live(t.envs[e]) && c < NENV && Live(t.envs[c])
            && (c != e ==> t.envs[c].parent == t.envs[e].id)
  {
  }

  lemma MapArguments(bytes: Frame -> Cow.Content, m: Cow.Sys, step: Cow.Step, t: Tables)
    requires At(bytes, m, t) && Cow.Inv(m) && Cow.Enabled(m, step) && MapsPage(step) && |t.envs| == NENV
    requires Ready(t, m, step)
    ensures var src, dst := Source(m, step), Target(m, step);
            && src.env == step.env < NENV && Live(t.envs[src.env]) && dst.env < NENV && Live(t.envs[dst.env])
            && (dst.env != src.env ==> t.envs[dst.env].parent == t.envs[src.env].id)
            && src.vpn < USER_PAGES && dst.vpn < USER_PAGES && MapOf(t.envs, t.s, src.env, src.vpn * PGSIZE).Some?
            && (W in Flags(step) ==> W in MapOf(t.envs, t.s, src.env, src.vpn * PGSIZE).value.flags)
  {
    hide Images, MapOf, Cow.Inv, InOrder;
    MapSource(m, step);
    MapTarget(t, m, step);
    KernelHas(m, t, Source(m, step));
    if Target(m, step) in m.pt { KernelHas(m, t, Target(m, step)); }
  }

  lemma MapPromised(m: Cow.Sys, step: Cow.Step, t: Tables, t': Tables)
    requires Cow.Enabled(m, step) && MapsPage(step) && t'.envs == t.envs
    requires Mapped(t.envs, t.s, t'.s, step.env, Source(m, step).vpn,
                    Target(m, step).env, Target(m, step).vpn, Flags(step))
    ensures AsPromised(m, step, t.envs, t.s, t.o, t'.envs, t'.s, t'.o)
  {
    hide Mapped;
  }

  // duppage's calls and pgfault's sys_page_map
  method MapStep(k: Kernel.Kernel, m: Cow.Sys, step: Cow.Step, ghost bytes: Frame -> Cow.Content) returns (r: int)
    requires k.Valid() && Room(k.pm.View()) && At(bytes, m, k.Now()) && Cow.Inv(m) && Cow.Enabled(m, step)
    requires MapsPage(step) && Ready(k.Now(), m, step) && bytes(ZeroFrame()) == Cow.Zeros()
    modifies k.pm, k.pm.pages, k.pm.frames
    ensures k.Valid() && (r == 0 || r == -S.E_NO_MEM)
    ensures At(bytes, if r == 0 then Cow.Apply(m, step) else m, k.Now())
  {
    hide Spaces, SlotsOk, EnvsOk, HeldOnly, Images, S.SameContents, MapOf, Mapped, AsPromised, Ready, Source, Target,
      Flags, Cow.Apply, Cow.Inv, Cow.Enabled, FlatOf, InOrder, Room;
    ghost var t := k.Now();
    TablesSized(t);
    var src, dst := Source(m, step), Target(m, step);
    MapArguments(bytes, m, step, t);
    assert k.envs[src.env] == t.envs[src.env] && k.envs[dst.env] == t.envs[dst.env];
    r := Map(k, src.env, src.vpn, dst.env, dst.vpn, Flags(step));
    if r == 0 {
      MapPromised(m, step, t, k.Now());
      Follows(bytes, m, step, t, k.Now());
    }
  }

  // sys_page_alloc in pgfault, in fork and by the program
  method AllocStep(k: Kernel.Kernel, m: Cow.Sys, step: Cow.Step, ghost bytes: Frame -> Cow.Content) returns (r: int)
    requires k.Valid() && Room(k.pm.View()) && At(bytes, m, k.Now()) && Cow.Inv(m) && Cow.Enabled(m, step)
    requires TakesPage(step) && Ready(k.Now(), m, step) && bytes(ZeroFrame()) == Cow.Zeros()
    modifies k`taken, k.pm, k.pm.pages, k.pm.frames
    ensures k.Valid() && (r == 0 || r == -S.E_NO_MEM)
    ensures At(bytes, if r == 0 then Cow.Apply(m, step) else m, k.Now())
  {
    hide Spaces, SlotsOk, EnvsOk, HeldOnly, Images, S.SameContents, MapsSame, MapsChangedAt, FreedAt, Cow.Apply,
      Cow.Inv;
    ghost var t := k.Now();
    TablesSized(t);
    var e := step.env;
    var key := NewKey(m, step);
    assert k.envs[e] == t.envs[e] && k.envs[key.env] == t.envs[key.env];
    r := Alloc(k, e, key.env, key.vpn);
    if r == 0 { Follows(bytes, m, step, t, k.Now()); } else { StaysAt(bytes, m, t, k.Now()); }
  }

  // sys_page_unmap in pgfault and by the program
  method UnmapStep(k: Kernel.Kernel, m: Cow.Sys, step: Cow.Step, ghost bytes: Frame -> Cow.Content)
    requires k.Valid() && At(bytes, m, k.Now()) && Cow.Inv(m) && Cow.Enabled(m, step)
    requires (step.FaultUnmap? || step.UserUnmap?) && Ready(k.Now(), m, step) && bytes(ZeroFrame()) == Cow.Zeros()
    modifies k.pm, k.pm.pages, k.pm.frames
    ensures k.Valid() && At(bytes, Cow.Apply(m, step), k.Now())
  {
    hide Spaces, SlotsOk, EnvsOk, HeldOnly, Images, S.SameContents, Unmapped, Cow.Apply, Cow.Inv;
    ghost var t := k.Now();
    TablesSized(t);
    assert k.envs[step.env] == t.envs[step.env];
    Unmap(k, step.env, if step.FaultUnmap? then Cow.PFTEMP else step.vpn);
    Follows(bytes, m, step, t, k.Now());
  }

  // sys_exofork
  method ExoforkStep(k: Kernel.Kernel, m: Cow.Sys, step: Cow.Step, ghost bytes: Frame -> Cow.Content) returns (r: int)
    requires k.Valid() && Room(k.pm.View()) && At(bytes, m, k.Now()) && Cow.Inv(m) && Cow.Enabled(m, step)
    requires step.Exofork? && Ready(k.Now(), m, step) && bytes(ZeroFrame()) == Cow.Zeros()
    modifies k, k.envs, k.pm, k.pm.pages, k.pm.frames
    ensures k.Valid() && (r == -S.E_NO_MEM || (r > 0 && r == k.envs[step.newEnv].id))
    ensures r > 0 ==> Live(k.envs[step.newEnv]) && k.envs[step.newEnv].parent == k.envs[step.env].id
    ensures At(bytes, if r > 0 then Cow.Apply(m, step) else m, k.Now())
  {
    hide Spaces, SlotsOk, EnvsOk, HeldOnly, Images, S.SameContents, OthersSame, NothingMapped, Cow.Apply,
      Cow.Inv, IdAfter;
    ghost var t := k.Now();
    TablesSized(t);
    SlotsParts(k.envs[..], k.env_free_list, k.slots);
    FirstSlotFree(t);
    RoomIsRoom(k.pm.View());
    assert k.envs[step.env] == t.envs[step.env];
    r := k.SysExofork(step.env);
    assert k.envs[step.env] == k.envs[..][step.env];
    if r > 0 { Follows(bytes, m, step, t, k.Now()); }
  }

  lemma FirstSlotFree(t: Tables)
    requires InOrder(t)
    ensures t.slots != [] ==> t.slots[0] < |t.envs| && !Live(t.envs[t.slots[0]]) && t.head == Some(t.slots[0])
  {
    if t.slots != [] { assert t.slots[0] in t.slots; }
  }

  // sys_env_set_status(child, ENV_RUNNABLE) at the end of fork
  method StartStep(k: Kernel.Kernel, m: Cow.Sys, step: Cow.Step, ghost bytes: Frame -> Cow.Content)
    requires k.Valid() && At(bytes, m, k.Now()) && Cow.Inv(m) && Cow.Enabled(m, step)
    requires step.SetRunnable? && Ready(k.Now(), m, step) && bytes(ZeroFrame()) == Cow.Zeros()
    modifies k.envs
    ensures k.Valid() && At(bytes, Cow.Apply(m, step), k.Now())
    ensures k.envs[m.threads[step.env].prog.child].status == RUNNABLE
  {
    hide Spaces, SlotsOk, EnvOk, HeldOnly, Images, S.SameContents, Cow.Apply, Cow.Inv, Resolve;
    ghost var t := k.Now();
    TablesSized(t);
    var e, c := step.env, m.threads[step.env].prog.child;
    ResolvesTo(k.envs[..], k.logs, e, c);
    Kernel.Unchanged(k.pm.View(), k.pm.own);
    var r := k.SysEnvSetStatus(e, k.envs[c].id, RUNNABLE);
    assert SameRoots(t.envs, k.envs[..]);
    Follows(bytes, m, step, t, k.Now());
  }

  // sys_ipc_try_send with a page, by the sender
  method SendStep(k: Kernel.Kernel, m: Cow.Sys, step: Cow.Step, value: int, ghost bytes: Frame -> Cow.Content)
    returns (r: int)
    requires k.Valid() && Room(k.pm.View()) && At(bytes, m, k.Now()) && Cow.Inv(m) && Cow.Enabled(m, step)
    requires step.Receive? && Ready(k.Now(), m, step) && bytes(ZeroFrame()) == Cow.Zeros()
    modifies k`logs, k.envs, k.pm, k.pm.pages, k.pm.frames
    ensures k.Valid() && (r == 0 || r == -S.E_NO_MEM)
    ensures At(bytes, if r == 0 then Cow.Apply(m, step) else m, k.Now())
  {
    hide Spaces, SlotsOk, EnvOk, HeldOnly, Images, S.SameContents, MapOf, MapsChangedAt, Cow.Apply, Cow.Inv, Resolve,
      InsertResult, Delivered, LogSent, AsPromised, Mapped, SameRoots, Transferred;
    ghost var t := k.Now();
    TablesSized(t);
    var e, x := step.env, step.sender;
    ResolvesTo(k.envs[..], k.logs, x, e);
    KernelHas(m, t, Cow.Key(x, step.page));
    LowIsClean(m.pt[Cow.Key(x, step.page)].pn, step.perm);
    PageAddress(step.vpn);
    InsertFails(t.s, t.o, t.envs[e], t.envs[e].dstva);
    r := k.SysIpcTrySend(x, k.envs[e].id, value, step.page * PGSIZE, Low(step.perm));
    if r == 0 {
      SendPromised(m, step, t, k.Now(), value);
      Follows(bytes, m, step, t, k.Now());
    }
  }

  lemma SendPromised(m: Cow.Sys, step: Cow.Step, t: Tables, t': Tables, value: int)
    requires Cow.Enabled(m, step) && step.Receive? && |t.envs| == NENV && Ready(t, m, step)
    requires MapOf(t.envs, t.s, step.sender, step.page * PGSIZE).Some? && step.page * PGSIZE < UTOP
    requires step.vpn * PGSIZE < UTOP
    requires Transferred(t.envs, t.s, t'.s, step.sender, step.env, step.page * PGSIZE, Low(step.perm))
    requires t'.envs == t.envs[step.env := Delivered(t.envs[step.env], t.envs[step.sender].id, value,
                                                     step.page * PGSIZE, Low(step.perm))]
    ensures AsPromised(m, step, t.envs, t.s, t.o, t'.envs, t'.s, t'.o)
  {
    hide MapOf, MapsChangedAt;
    assert SameRoots(t.envs, t'.envs);
  }

  lemma InsertFails(s: State, o: Own, e: Env, va: nat)
    ensures InsertResult(s, o, e, va) == 0 || InsertResult(s, o, e, va) == -S.E_NO_MEM
  {
  }

  // sys_env_destroy(0) in exit
  method ExitStep(k: Kernel.Kernel, m: Cow.Sys, step: Cow.Step, ghost bytes: Frame -> Cow.Content)
    requires k.Valid() && At(bytes, m, k.Now()) && Cow.Inv(m) && Cow.Enabled(m, step)
    requires step.Exit? && Ready(k.Now(), m, step) && bytes(ZeroFrame()) == Cow.Zeros()
    modifies k, k.envs, k.pm, k.pm.pages, k.pm.frames
    ensures k.Valid() && !Live(k.envs[step.env]) && At(bytes, Cow.Apply(m, step), k.Now())
  {
    hide Spaces, SlotsOk, EnvOk, HeldOnly, Images, S.SameContents, OthersSame, ReturnedAtExit, Cow.Apply,
      Cow.Inv, Resolve;
    ghost var t := k.Now();
    TablesSized(t);
    ResolvesToSelf(k.envs[..], step.env);
    var r, back := k.SysEnvDestroy(step.env, 0);
    Follows(bytes, m, step, t, k.Now());
  }
}
