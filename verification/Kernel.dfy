/**
 The kernel's tables as the system calls change them (`kern/env.c`,
 `kern/syscall.c`). Each method runs under the kernel lock for the environment
 `cur`, the calling CPU's curenv.
 */
module Kernel {
  import opened Paging
  import opened Envs
  import opened EnvIds
  import opened KernelSpec
  import S = PmapSpec
  import Pmap
  import Protection
  import V = EnvVm

  const ZERO_ENV: Env := Env(None, 0, 0, FREE, None, 0, false, 0, 0, 0, Perm(0, {}), 0, FRESH_TF, ENV_TYPE_USER, 0)

  // env_init: every slot is free, and the free list hands them out in order.
  method EnvInit(envs: array<Env>) returns (head: Option<nat>, ghost slots: seq<nat>)
    requires envs.Length == NENV && forall k :: 0 <= k < NENV ==> envs[k].status == FREE
    modifies envs
    ensures SlotsOk(envs[..], head, slots)
    ensures |slots| == NENV && forall k :: 0 <= k < NENV ==> slots[k] == k
    ensures forall k :: 0 <= k < NENV ==> envs[k].status == FREE && envs[k].id == 0
  {
    head, slots := None, [];
    for i := NENV downto 0
      invariant forall k :: 0 <= k < NENV ==> envs[k].status == FREE
      invariant forall k :: i <= k < NENV ==> envs[k].id == 0
      invariant |slots| == NENV - i && forall k :: 0 <= k < |slots| ==> slots[k] == i + k
      invariant SlotChain(envs[..], head, slots)
    {
      ghost var before := envs[..];
      envs[i] := envs[i].(id := 0, link := head);
      assert envs[..] == before[i := envs[i]];
      SlotChainFrame(before, head, slots, i, envs[i]);
      head := Some(i);
      slots := [i] + slots;
    }
    assert forall k :: 0 <= k < NENV ==> slots[k] == k && !Live(envs[..][k]);
  }

  class Kernel {
    const pm: Pmap.PhysMem
    const envs: array<Env>
    const kern_pgdir: nat
    var env_free_list: Option<nat>
    ghost var slots: seq<nat>
    ghost var logs: seq<Log>
    // taken[p]: how many sys_page_alloc calls took page p from the allocator
    ghost var taken: seq<nat>

    ghost function Now(): Tables
      reads this, pm, pm.pages, pm.frames, envs
    {
      Tables(envs[..], env_free_list, slots, logs, pm.View(), pm.own, taken, kern_pgdir)
    }

    ghost predicate Valid()
      reads this, pm, pm.pages, pm.frames, envs
    {
      InOrder(Now())
    }

    // The entry `va` has in the address space of environment `i`
    ghost function Map(i: nat, va: nat): Option<Word>
      reads this, pm, pm.pages, pm.frames, envs
    {
      MapOf(envs[..], pm.View(), i, va)
    }

    // The tables as mem_init and env_init leave them
    constructor (mem: Pmap.PhysMem, kern: nat)
      requires mem.Valid() && HeldOnly(mem.own, None)
      requires forall d :: 0 <= d < |mem.own.kind| ==> !mem.own.kind[d].Dir?
      requires kern < |mem.own.kind| && mem.own.kind[kern].Reserved? && V.DirEmptied(mem.View(), kern, USER_PDES)
      ensures Valid() && pm == mem && kern_pgdir == kern && fresh(envs)
      ensures |slots| == NENV && forall k :: 0 <= k < NENV ==> slots[k] == k
    {
      pm, kern_pgdir := mem, kern;
      envs := new Env[NENV](_ => ZERO_ENV);
      env_free_list := None;
      slots, logs, taken := [], seq(NENV, _ => Log(0, 0, [])), mem.own.surplus;
      new;
      env_free_list, slots := EnvInit(envs);
      assert forall i :: 0 <= i < NENV ==> IdAfter(i, 0) == 0;
    }

    method Envid2Env(cur: nat, envid: int, checkperm: bool) returns (e: Option<nat>)
      requires envs.Length == NENV && cur < NENV
      ensures e == Resolve(envs[..], cur, envid, checkperm)
      // all that the id stands for, and nothing else
      ensures EnvsOk(envs[..], logs) ==>
                forall i: nat :: e == Some(i) <==> StandsFor(envs[..], cur, envid, checkperm, i)
    {
      if EnvsOk(envs[..], logs) {
        forall i: nat
          ensures Resolve(envs[..], cur, envid, checkperm) == Some(i) <==> StandsFor(envs[..], cur, envid, checkperm, i)
        {
          ResolveFinds(envs[..], logs, cur, envid, checkperm, i);
        }
      }
      if envid == 0 { return Some(cur); }
      var i := EnvX(envid);
      if envs[i].status == FREE || envs[i].id != envid { return None; }
      if checkperm && i != cur && envs[i].parent != envs[cur].id { return None; }
      return Some(i);
    }

    method SysPageUnmap(cur: nat, envid: int, va: nat) returns (r: int)
      requires Valid() && cur < NENV && Live(envs[cur])
      modifies pm, pm.pages, pm.frames
      ensures Valid()
      ensures var e := Resolve(envs[..], cur, envid, true);
              && r == PageUnmapResult(envs[..], cur, envid, va)
              && (r != 0 ==> pm.View() == old(pm.View()) && pm.own == old(pm.own))
              && (r == 0 ==> MapsChangedAt(envs[..], old(pm.View()), pm.View(), e.value, va, None))
              && (r == 0 ==> FreedAt(envs[..], old(pm.View()), old(pm.own), pm.own, e.value, va, None))
      ensures S.SameContents(old(pm.View()), pm.View(), old(pm.own))
    {
      if va >= UTOP || va % PGSIZE != 0 { return -E_INVAL; }
      var e := Envid2Env(cur, envid, true);
      if e.None? { return -E_BAD_ENV; }
      ghost var s, o := pm.View(), pm.own;
      assert SpaceOk(s, o, envs[e.value]);
      pm.PageRemove(envs[e.value].pgdir.value, va);
      AfterRemove(envs[..], s, o, kern_pgdir, pm.View(), pm.own, e.value, va);
      return 0;
    }

    // page_lookup in the space of environment `i`: the page and its entry
    method Lookup(i: nat, va: nat) returns (w: Option<Word>)
      requires Spaces(envs[..], pm.View(), pm.own, kern_pgdir) && i < NENV && Live(envs[i]) && va < UTOP
      ensures w == Map(i, va)
      ensures w.Some? ==> w.value.pn < pm.pages.Length && pm.own.kind[w.value.pn] == Data
    {
      assert SpaceOk(pm.View(), pm.own, envs[i]);
      S.InvReady(pm.View(), pm.own, envs[i].pgdir.value, va);
      var pg := pm.PageLookup(envs[i].pgdir.value, va);
      if pg.None? { return None; }
      MappedIsNotFree(envs[..], pm.View(), pm.own, kern_pgdir, i, va);
      return Some(pm.frames[pg.value.1][Ptx(va)]);
    }

    // page_insert into the space of environment `j`
    method Insert(j: nat, pp: nat, va: nat, perm: Perm) returns (r: int)
      requires Spaces(envs[..], pm.View(), pm.own, kern_pgdir) && HeldOnly(pm.own, Some(pp)) && S.HasRoom(pm.View())
      requires j < NENV && Live(envs[j]) && va < UTOP
      requires pp < pm.pages.Length && (pm.own.kind[pp].Held? || pm.own.kind[pp].Data?)
      modifies pm, pm.pages, pm.frames
      ensures if r != 0 || Clean(pp, perm) then Spaces(envs[..], pm.View(), pm.own, kern_pgdir)
              else !Explained(pm.View(), pm.own) && !Spaces(envs[..], pm.View(), pm.own, kern_pgdir)
      ensures pm.own.surplus == old(pm.own.surplus)
      ensures r == InsertResult(old(pm.View()), old(pm.own), envs[j], va)
      ensures r != 0 ==> pm.View() == old(pm.View()) && pm.own == old(pm.own)
      ensures r == 0 ==> HeldOnly(pm.own, None) && pp !in pm.own.free && pm.frames[pp] == old(pm.frames[pp])
      ensures r == 0 ==> MapsChangedAt(envs[..], old(pm.View()), pm.View(), j, va, Some(Stored(pp, perm)))
      ensures r == 0 ==> FreedAt(envs[..], old(pm.View()), old(pm.own), pm.own, j, va, Some(pp))
      ensures S.SameContents(old(pm.View()), pm.View(), old(pm.own))
    {
      ghost var s, o := pm.View(), pm.own;
      assert SpaceOk(s, o, envs[j]);
      r := pm.PageInsert(envs[j].pgdir.value, pp, va, perm);
      if r == 0 {
        AfterInsert(envs[..], s, o, kern_pgdir, pm.View(), pm.own, j, pp, va, perm);
      }
    }

    method SysPageMap(cur: nat, src: int, srcva: nat, dst: int, dstva: nat, perm: Perm) returns (r: int)
      requires Valid() && cur < NENV && Live(envs[cur]) && Room(pm.View())
      modifies pm, pm.pages, pm.frames
      // an entry that names another page than the one counted leaves the tables
      // unexplained
      ensures Valid() <==> !NamesAnother(envs[..], old(pm.View()), old(pm.own), cur,
                                         PageMap(src, srcva, dst, dstva, perm))
      ensures !Valid() ==> !Explained(pm.View(), pm.own)
      ensures pm.own.surplus == taken
      ensures r == PageMapResult(envs[..], old(pm.View()), old(pm.own), cur, src, srcva, dst, dstva, perm)
      ensures r != 0 ==> pm.View() == old(pm.View()) && pm.own == old(pm.own)
      ensures r == 0 ==>
                var se, de := Resolve(envs[..], cur, src, true).value, Resolve(envs[..], cur, dst, true).value;
                var pg := MapOf(envs[..], old(pm.View()), se, srcva).value.pn;
                && MapsChangedAt(envs[..], old(pm.View()), pm.View(), de, dstva, Some(Stored(pg, perm)))
                && FreedAt(envs[..], old(pm.View()), old(pm.own), pm.own, de, dstva, Some(pg)) && pg !in pm.own.free
      // the bytes of every page in use stay as they are
      ensures S.SameContents(old(pm.View()), pm.View(), old(pm.own))
    {
      hide Spaces, EnvsOk, SlotsOk, MapsChangedAt, FreedAt, S.SameContents, Resolve, InsertResult, Explained;
      TablesSized(Now());
      Unchanged(pm.View(), pm.own);
      var se := Envid2Env(cur, src, true);
      if se.None? { return -E_BAD_ENV; }
      var de := Envid2Env(cur, dst, true);
      if de.None? { return -E_BAD_ENV; }
      if srcva >= UTOP || dstva >= UTOP || srcva % PGSIZE != 0 || dstva % PGSIZE != 0 { return -E_INVAL; }
      var pte := Lookup(se.value, srcva);
      if pte.None? { return -E_INVAL; }
      if !({P, U} <= perm.flags) { return -E_INVAL; }
      if W !in pte.value.flags && W in perm.flags { return -E_INVAL; }
      r := Insert(de.value, pte.value.pn, dstva, perm);
    }

    // page_alloc(ALLOC_ZERO), pp_ref++
    method TakeZeroed() returns (pp: Option<nat>)
      requires Valid() && Room(pm.View())
      modifies this`taken, pm, pm.pages, pm.frames
      ensures pp == old(pm.page_free_list) && (pp.None? <==> old(pm.own.free) == [])
      ensures pp.None? ==> Valid() && pm.View() == old(pm.View()) && pm.own == old(pm.own) && taken == old(taken)
      ensures pp.Some? ==> Spaces(envs[..], pm.View(), pm.own, kern_pgdir) && S.HasRoom(pm.View())
      ensures pp.Some? ==> Taken(envs[..], old(pm.View()), old(pm.own), pm.View(), pm.own, pp.value)
      ensures taken == pm.own.surplus == OneMoreTaken(old(taken), old(pm.own.free))
    {
      hide EnvsOk, SlotsOk, MapsSame, Taken, HeldOnly;
      ghost var s, o := pm.View(), pm.own;
      pp := pm.PageAlloc(true);
      if pp.Some? {
        RoomLeft(s, pp.value);
        TakePage(envs[..], s, o, kern_pgdir);
        pm.TakeRef(pp.value);
        pm.own := AddSurplus(pm.own, pp.value);
        taken := pm.own.surplus;
      }
    }

    // page_free of the page in the caller's hands
    method PutBack(pp: nat)
      requires Spaces(envs[..], pm.View(), pm.own, kern_pgdir) && HeldOnly(pm.own, Some(pp))
      requires pp < pm.pages.Length && pm.own.kind[pp].Held?
      modifies pm, pm.pages
      ensures Spaces(envs[..], pm.View(), pm.own, kern_pgdir) && HeldOnly(pm.own, None)
      ensures pm.own.free == [pp] + old(pm.own.free) && pm.own.surplus == old(pm.own.surplus)
      ensures pm.View().frames == old(pm.View()).frames
    {
      GiveBack(envs[..], pm.View(), pm.own, kern_pgdir, pp);
      pm.PageFree(pp);
      pm.own := PushFreeOwn(pm.own, pp);
    }

    // page_insert of the page just taken, which goes back if there is no room for it
    method InsertTaken(j: nat, pp: nat, va: nat, perm: Perm, ghost s: State, ghost o: Own) returns (r: int)
      requires Spaces(envs[..], s, o, kern_pgdir)
      requires Spaces(envs[..], pm.View(), pm.own, kern_pgdir) && S.HasRoom(pm.View())
      requires Taken(envs[..], s, o, pm.View(), pm.own, pp) && j < NENV && Live(envs[j]) && va < UTOP
      modifies pm, pm.pages, pm.frames
      ensures HeldOnly(pm.own, None)
      ensures if r != 0 || Clean(pp, perm) then Spaces(envs[..], pm.View(), pm.own, kern_pgdir)
              else !Explained(pm.View(), pm.own) && !Spaces(envs[..], pm.View(), pm.own, kern_pgdir)
      ensures pm.own.surplus == old(pm.own.surplus)
      ensures r == MapFreshResult(s, o, envs[j], va)
      ensures r != 0 ==> MapsSame(envs[..], s, pm.View()) && pm.own.free == o.free
      ensures r == 0 ==> MappedFresh(envs[..], s, o, pm.View(), pm.own, j, va, perm)
      ensures S.SameContents(s, pm.View(), o)
    {
      ghost var s1, o1 := pm.View(), pm.own;
      ResultAfterTaking(envs[..], s, o, s1, o1, kern_pgdir, pp, j, va);
      r := Insert(j, pp, va, perm);
      if r != 0 {
        ContentsAfterTaking(envs[..], s, o, s1, o1, kern_pgdir, pp, s1);
        PutBack(pp);
      } else {
        TakenThenMapped(envs[..], s, o, kern_pgdir, s1, o1, pm.View(), pm.own, j, pp, va, perm);
      }
    }

    method SysPageAlloc(cur: nat, envid: int, va: nat, perm: Perm) returns (r: int)
      requires Valid() && cur < NENV && Live(envs[cur]) && Room(pm.View())
      modifies this`taken, pm, pm.pages, pm.frames
      ensures Valid() <==> !NamesAnother(envs[..], old(pm.View()), old(pm.own), cur, PageAlloc(envid, va, perm))
      ensures !Valid() ==> !Explained(pm.View(), pm.own)
      ensures pm.own.surplus == taken
      ensures r == PageAllocResult(envs[..], old(pm.View()), old(pm.own), cur, envid, va, perm)
      ensures r != 0 ==> MapsSame(envs[..], old(pm.View()), pm.View()) && pm.own.free == old(pm.own.free)
      ensures r == 0 ==> MappedFresh(envs[..], old(pm.View()), old(pm.own), pm.View(), pm.own,
                                     Resolve(envs[..], cur, envid, true).value, va, perm)
      // whether or not it could be mapped, the page taken is counted once too often
      ensures taken == if r == -E_BAD_ENV || r == -E_INVAL then old(taken)
                       else OneMoreTaken(old(taken), old(pm.own.free))
      ensures S.SameContents(old(pm.View()), pm.View(), old(pm.own))
    {
      hide Spaces, EnvsOk, SlotsOk, MappedFresh, S.SameContents, Resolve, Explained, OneMoreTaken;
      TablesSized(Now());
      Unchanged(pm.View(), pm.own);
      var e := Envid2Env(cur, envid, true);
      if e.None? { return -E_BAD_ENV; }
      if va >= UTOP { return -E_INVAL; }
      if !({P, U} <= perm.flags) { return -E_INVAL; }
      ghost var s, o := pm.View(), pm.own;
      var pg := TakeZeroed();
      if pg.None? { return -S.E_NO_MEM; }
      r := InsertTaken(e.value, pg.value, va, perm, s, o);
    }

    // The stores that complete a send
    method Deliver(e: nat, from: int, value: int, srcva: nat, perm: Perm)
      requires Valid() && e < NENV && Live(envs[e]) && envs[e].recving
      modifies this`logs, envs
      ensures Valid()
      ensures envs[..] == old(envs[..])[e := Delivered(old(envs[..])[e], from, value, srcva, perm)]
      ensures Received(old(envs[..])[e], envs[e], from, value)
      ensures envs[e].perm == if srcva < UTOP && old(envs[e].dstva) < UTOP then perm else old(envs[e].perm)
      ensures logs == old(logs)[e := LogSent(old(logs)[e], from, value)]
    {
      hide Spaces, SlotsOk, NothingMapped;
      ghost var was, log := envs[..], LogSent(logs[e], from, value);
      assert EnvOk(e, envs[e], logs[e]);
      UpdateLive(was, logs, pm.View(), pm.own, kern_pgdir, env_free_list, slots, e,
        Delivered(was[e], from, value, srcva, perm), log);
      if srcva < UTOP && envs[e].dstva < UTOP {
        envs[e] := envs[e].(perm := perm);
      }
      envs[e] := envs[e].(recving := false);
      envs[e] := envs[e].(from := from);
      envs[e] := envs[e].(value := value);
      envs[e] := envs[e].(status := RUNNABLE);
      envs[e] := envs[e].(tf := envs[e].tf.(eax := 0));
      logs := logs[e := log];
      assert envs[..] == was[e := Delivered(was[e], from, value, srcva, perm)];
    }

    // The part of sys_ipc_try_send that passes a page on
    method Transfer(cur: nat, e: nat, srcva: nat, perm: Perm) returns (r: int)
      requires Valid() && Room(pm.View()) && cur < NENV && Live(envs[cur]) && e < NENV && Live(envs[e])
      modifies pm, pm.pages, pm.frames
      ensures Valid()
      ensures r == TransferResult(envs[..], old(pm.View()), old(pm.own), cur, e, srcva, perm)
      ensures r != 0 ==> pm.View() == old(pm.View()) && pm.own == old(pm.own)
      ensures r == 0 ==> Transferred(envs[..], old(pm.View()), pm.View(), cur, e, srcva, perm)
      ensures S.SameContents(old(pm.View()), pm.View(), old(pm.own))
    {
      if srcva < UTOP {
        var pte := Lookup(cur, srcva);
        if pte.None? { return -E_INVAL; }
        if !Covers(pte.value, perm) { return -E_INVAL; }
        if W in perm.flags && W !in pte.value.flags { return -E_INVAL; }
        if srcva % PGSIZE != 0 { return -E_INVAL; }
        if envs[e].dstva < UTOP {
          r := Insert(e, pte.value.pn, envs[e].dstva, perm);
          return r;
        }
      }
      return 0;
    }

    method SysIpcTrySend(cur: nat, envid: int, value: int, srcva: nat, perm: Perm) returns (r: int)
      requires Valid() && cur < NENV && Live(envs[cur]) && Room(pm.View())
      modifies this`logs, envs, pm, pm.pages, pm.frames
      ensures Valid()
      ensures r == SendResult(old(envs[..]), old(pm.View()), old(pm.own), cur, envid, srcva, perm)
      ensures r != 0 ==> envs[..] == old(envs[..]) && logs == old(logs)
      ensures r != 0 ==> pm.View() == old(pm.View()) && pm.own == old(pm.own)
      ensures S.SameContents(old(pm.View()), pm.View(), old(pm.own))
      ensures r == 0 ==>
                var e, from := Resolve(old(envs[..]), cur, envid, false).value, old(envs[cur].id);
                && envs[..] == old(envs[..])[e := Delivered(old(envs[..])[e], from, value, srcva, perm)]
                && logs == old(logs)[e := LogSent(old(logs)[e], from, value)]
                && Transferred(old(envs[..]), old(pm.View()), pm.View(), cur, e, srcva, perm)
    {
      var e := Envid2Env(cur, envid, false);
      if e.None? { return -E_BAD_ENV; }
      if !envs[e.value].recving { return -E_IPC_NOT_RECV; }
      r := Transfer(cur, e.value, srcva, perm);
      if r != 0 { return r; }
      Deliver(e.value, envs[cur].id, value, srcva, perm);
    }

    method SysIpcRecv(cur: nat, dstva: nat) returns (r: int)
      requires Valid() && cur < NENV && Live(envs[cur]) && !envs[cur].recving
      modifies this`logs, envs
      ensures Valid()
      ensures r == (if dstva < UTOP && dstva % PGSIZE != 0 then -E_INVAL else 0)
      ensures r != 0 ==> envs[..] == old(envs[..]) && logs == old(logs)
      ensures r == 0 ==>
                && envs[..] == old(envs[..])[cur := old(envs[..])[cur].(
                                 recving := true, status := NOT_RUNNABLE, dstva := dstva)]
                && logs == old(logs)[cur := old(logs)[cur].(recvs := old(logs)[cur].recvs + 1)]
    {
      hide Spaces, SlotsOk, NothingMapped;
      if dstva < UTOP && dstva % PGSIZE != 0 { return -E_INVAL; }
      ghost var was, e', log := envs[..], envs[cur].(recving := true, status := NOT_RUNNABLE, dstva := dstva),
                                logs[cur].(recvs := logs[cur].recvs + 1);
      assert EnvOk(cur, was[cur], logs[cur]);
      UpdateLive(was, logs, pm.View(), pm.own, kern_pgdir, env_free_list, slots, cur, e', log);
      envs[cur] := envs[cur].(recving := true);
      envs[cur] := envs[cur].(status := NOT_RUNNABLE);
      envs[cur] := envs[cur].(dstva := dstva);
      logs := logs[cur := log];
      assert envs[..] == was[cur := e'];
      return 0;
    }

    // Keeps the tables in order exactly when it does not start an environment that
    // is still waiting for a message.
    method SysEnvSetStatus(cur: nat, envid: int, status: Status) returns (r: int)
      requires Valid() && cur < NENV && Live(envs[cur])
      modifies envs
      ensures var e := Resolve(old(envs[..]), cur, envid, true);
              && r == SetStatusResult(old(envs[..]), cur, envid, status)
              && (r == 0 <==> e.Some? && (status == RUNNABLE || status == NOT_RUNNABLE))
              && envs[..] == (if r == 0 then old(envs[..])[e.value := old(envs[..])[e.value].(status := status)]
                              else old(envs[..]))
              && (Valid() <==> !(r == 0 && status == RUNNABLE && old(envs[..])[e.value].recving))
    {
      hide Spaces, SlotsOk, NothingMapped;
      if status != NOT_RUNNABLE && status != RUNNABLE { return -E_INVAL; }
      var t := Envid2Env(cur, envid, true);
      if t.None? { return -E_BAD_ENV; }
      var e := t.value;
      ghost var was, e' := envs[..], envs[e].(status := status);
      assert EnvOk(e, was[e], logs[e]);
      UpdateLive(was, logs, pm.View(), pm.own, kern_pgdir, env_free_list, slots, e, e', logs[e]);
      assert logs[e := logs[e]] == logs;
      envs[e] := envs[e].(status := status);
      assert envs[..] == was[e := e'];
      return 0;
    }

    method EnvAlloc(parent: int) returns (r: int, e: nat)
      requires Valid() && S.HasRoom(pm.View())
      modifies this, envs, pm, pm.pages, pm.frames
      ensures Valid() && taken == old(taken)
      ensures r == (if old(slots) == [] then -E_NO_FREE_ENV else if old(pm.own.free) == [] then -S.E_NO_MEM else 0)
      ensures r != 0 ==> envs[..] == old(envs[..]) && logs == old(logs) && env_free_list == old(env_free_list)
      ensures r != 0 ==> pm.View() == old(pm.View()) && pm.own == old(pm.own)
      ensures r == 0 ==> e < NENV && old(slots) == [e] + slots && logs == old(logs)[e := NewLog(old(logs)[e])]
      ensures r == 0 ==> !Live(old(envs[..])[e])
      ensures r == 0 ==> envs[e].pgdir == old(pm.page_free_list) && envs[e].pgdir.Some?
      ensures r == 0 ==> envs[..] == old(envs[..])[e := NewEnv(e, old(envs[..])[e], parent, envs[e].pgdir.value)]
      ensures r == 0 ==> AsNew(envs[e], parent) && envs[e].status == RUNNABLE && envs[e].tf == FRESH_TF
      ensures r == 0 ==>
                OthersSame(old(envs[..]), old(pm.View()), pm.View(), e) && NothingMapped(envs[..], pm.View(), e)
      ensures S.SameContents(old(pm.View()), pm.View(), old(pm.own))
    {
      hide OthersSame, NothingMapped, Spaces, SlotsOk, Inv;
      SpacesParts(envs[..], pm.View(), pm.own, kern_pgdir);
      SlotsParts(envs[..], env_free_list, slots);
      e := 0;
      if env_free_list.None? { return -E_NO_FREE_ENV, 0; }
      e := env_free_list.value;
      ghost var was, s, o := envs[..], pm.View(), pm.own;
      var pgdir;
      r, pgdir := V.EnvSetupVm(pm, kern_pgdir);
      if r != 0 { return r, 0; }
      ghost var e' := NewEnv(e, was[e], parent, pgdir);
      PopSlot(was, env_free_list, slots, e');
      NewSpace(was, s, o, kern_pgdir, pm.View(), pm.own, e, e', pgdir);
      NewEnvOk(was, logs, e, parent, pgdir);
      InitEnv(e, parent, pgdir);
    }

    // env_alloc's stores, and taking the slot off the free list
    method InitEnv(e: nat, parent: int, pgdir: nat)
      requires e < envs.Length == NENV && e < |logs| && slots != []
      modifies this`logs, this`slots, this`env_free_list, envs
      ensures envs[..] == old(envs[..])[e := NewEnv(e, old(envs[..])[e], parent, pgdir)]
      ensures env_free_list == old(envs[e].link) && slots == old(slots)[1..]
              && logs == old(logs)[e := NewLog(old(logs)[e])]
    {
      envs[e] := envs[e].(pgdir := Some(pgdir));
      envs[e] := envs[e].(id := NextId(envs[e].id, e));
      envs[e] := envs[e].(parent := parent);
      envs[e] := envs[e].(ty := ENV_TYPE_USER);
      envs[e] := envs[e].(status := RUNNABLE);
      envs[e] := envs[e].(runs := 0);
      envs[e] := envs[e].(tf := FRESH_TF);
      envs[e] := envs[e].(upcall := 0);
      envs[e] := envs[e].(recving := false);
      env_free_list := envs[e].link;
      slots, logs := slots[1..], logs[e := NewLog(logs[e])];
    }

    method EnvFree(e: nat)
      requires Valid() && e < NENV && Live(envs[e])
      modifies this, envs, pm, pm.pages, pm.frames
      ensures Valid() && logs == old(logs) && taken == old(taken)
      ensures envs[..] == old(envs[..])[e := GoneEnv(old(envs[..])[e], old(env_free_list))]
      ensures env_free_list == Some(e) && slots == [e] + old(slots)
      ensures envs[e].status == FREE && envs[e].pgdir.None? && envs[e].link == old(env_free_list)
      ensures envs[e].id == old(envs[e].id)
      ensures OthersSame(old(envs[..]), old(pm.View()), pm.View(), e)
      ensures ReturnedAtExit(envs[..], pm.View(), old(pm.own), pm.own)
      ensures S.SameContents(old(pm.View()), pm.View(), old(pm.own))
      ensures CanHappen(old(Now()), Died(e)) && Happened(old(Now()), Died(e), Now())
    {
      hide OthersSame, Spaces, EnvsOk, SlotsOk, Inv, V.Freed, Guarded;
      ghost var was, s, o := envs[..], pm.View(), pm.own;
      SpacesParts(was, s, o, kern_pgdir);
      assert SpaceOk(s, o, envs[e]);
      var pgdir := envs[e].pgdir.value;
      V.EnvFree(pm, pgdir);
      ghost var e' := GoneEnv(was[e], env_free_list);
      SpaceGone(was, s, o, kern_pgdir, pm.View(), pm.own, e, e', pgdir);
      PushSlot(was, env_free_list, slots, e, e');
      GoneEnvOk(was, logs, e, env_free_list);
      envs[e] := envs[e].(pgdir := None);
      envs[e] := envs[e].(status := FREE);
      envs[e] := envs[e].(link := env_free_list);
      assert envs[..] == was[e := e'];
      env_free_list := Some(e);
      slots := [e] + slots;
      Protection.DeathGuarded(old(Now()), e, e', Now());
    }

    // env_run's part in the tables; `cur` is the CPU's curenv.
    method EnvRun(cur: Option<nat>, e: nat)
      requires Valid() && (cur.Some? ==> cur.value < NENV) && e < NENV && Live(envs[e])
      requires envs[e].status == RUNNABLE || cur == Some(e)
      modifies envs
      ensures Valid() && envs[..] == AfterRun(old(envs[..]), cur, e)
      ensures cur == Some(e) ==> envs[..] == old(envs[..])
      ensures cur != Some(e) ==> envs[e].status == RUNNING && envs[e].runs == (old(envs[e].runs) + 1) % 0x1_0000_0000
      ensures cur.Some? && cur.value != e ==>
                envs[cur.value].status == (if old(envs[cur.value].status) == RUNNING then RUNNABLE
                                           else old(envs[cur.value].status))
      ensures forall i :: 0 <= i < NENV && i != e && cur != Some(i) ==> envs[i] == old(envs[..])[i]
      ensures CanHappen(old(Now()), Ran(cur, e)) && Happened(old(Now()), Ran(cur, e), Now())
    {
      hide Spaces, SlotsOk, NothingMapped, Guarded;
      Unchanged(pm.View(), pm.own);
      if cur != Some(e) {
        if cur.Some? && envs[cur.value].status == RUNNING {
          Restate(cur.value, envs[cur.value].(status := RUNNABLE));
        }
        Restate(e, StartRun(envs[e]));
      }
      Protection.RunGuarded(old(Now()), cur, e, Now());
    }

    // A store to the status of a live environment that waits for nothing
    method Restate(e: nat, env: Env)
      requires Valid() && e < NENV && Live(envs[e]) && !envs[e].recving && Live(env)
      requires env == envs[e].(status := env.status, runs := env.runs)
      modifies envs
      ensures Valid() && envs[..] == old(envs[..])[e := env]
    {
      hide Spaces, SlotsOk, NothingMapped;
      ghost var was := envs[..];
      assert EnvOk(e, was[e], logs[e]);
      UpdateLive(was, logs, pm.View(), pm.own, kern_pgdir, env_free_list, slots, e, env, logs[e]);
      assert logs[e := logs[e]] == logs;
      envs[e] := env;
      assert envs[..] == was[e := env];
    }

    // A child with the next id of its slot, nothing mapped and not yet runnable, that
    // will see its caller's registers and a zero result
    method SysExofork(cur: nat) returns (r: int)
      requires Valid() && cur < NENV && Live(envs[cur]) && S.HasRoom(pm.View())
      modifies this, envs, pm, pm.pages, pm.frames
      ensures Valid() && taken == old(taken)
      ensures r == ExoforkResult(old(envs[..]), old(slots), old(pm.own))
      ensures r <= 0 ==> r < 0 && envs[..] == old(envs[..]) && logs == old(logs) && pm.View() == old(pm.View())
      ensures r > 0 ==>
                var e := EnvX(r);
                && old(slots) == [e] + slots && r == IdAfter(e, old(logs)[e].allocs + 1) == envs[e].id
                && envs[e].pgdir.Some? && !Live(old(envs[..])[e]) && logs == old(logs)[e := NewLog(old(logs)[e])]
                && envs[..] == old(envs[..])[e := ForkedEnv(e, old(envs[..])[e], old(envs[cur]), envs[e].pgdir.value)]
                && AsNew(envs[e], old(envs[cur].id)) && envs[e].status == NOT_RUNNABLE
                && envs[e].tf.eax == 0 && SameButEax(envs[e].tf, old(envs[cur].tf))
                && OthersSame(old(envs[..]), old(pm.View()), pm.View(), e) && NothingMapped(envs[..], pm.View(), e)
      ensures S.SameContents(old(pm.View()), pm.View(), old(pm.own))
    {
      hide Spaces, SlotsOk, OthersSame, S.SameContents;
      ghost var before := envs[..];
      var e;
      r, e := EnvAlloc(envs[cur].id);
      if r != 0 { return r; }
      ghost var was, e' := envs[..], ForkedEnv(e, before[e], before[cur], envs[e].pgdir.value);
      assert EnvOk(e, was[e], logs[e]) && envs[cur] == before[cur];
      UpdateLive(was, logs, pm.View(), pm.own, kern_pgdir, env_free_list, slots, e, e', logs[e]);
      assert logs[e := logs[e]] == logs;
      envs[e] := envs[e].(tf := envs[cur].tf);
      envs[e] := envs[e].(status := NOT_RUNNABLE);
      envs[e] := envs[e].(tf := envs[e].tf.(eax := 0));
      assert envs[..] == was[e := e'] == before[e := e'];
      IdWellFormed(e, logs[e].allocs);
      return envs[e].id;
    }

    // env_destroy of an environment running elsewhere only marks it; any other is
    // freed on the spot. `back` is false where the caller was the one: env_destroy
    // goes on to sched_yield and does not return.
    method SysEnvDestroy(cur: nat, envid: int) returns (r: int, back: bool)
      requires Valid() && cur < NENV && Live(envs[cur])
      modifies this, envs, pm, pm.pages, pm.frames
      ensures Valid() && logs == old(logs) && taken == old(taken)
      ensures back <==> Resolve(old(envs[..]), cur, envid, true) != Some(cur)
      ensures S.SameContents(old(pm.View()), pm.View(), old(pm.own))
      ensures var t := Resolve(old(envs[..]), cur, envid, true);
              if t.None? then r == -E_BAD_ENV && envs[..] == old(envs[..]) && pm.View() == old(pm.View())
              else
                var e := t.value; var was := old(envs[..])[e];
                && r == 0 && envs[e].status == (if was.status == RUNNING && e != cur then DYING else FREE)
                && (if was.status == RUNNING && e != cur then
                      envs[..] == old(envs[..])[e := was.(status := DYING)] && pm.View() == old(pm.View())
                    else
                      && envs[..] == old(envs[..])[e := GoneEnv(was, old(env_free_list))]
                      && slots == [e] + old(slots) && OthersSame(old(envs[..]), old(pm.View()), pm.View(), e)
                      && ReturnedAtExit(envs[..], pm.View(), old(pm.own), pm.own))
    {
      hide Spaces, SlotsOk, NothingMapped, OthersSame, ReturnedAtExit;
      var t := Envid2Env(cur, envid, true);
      if t.None? { return -E_BAD_ENV, true; }
      var e := t.value;
      if envs[e].status == RUNNING && cur != e {
        ghost var was, e' := envs[..], envs[e].(status := DYING);
        assert EnvOk(e, was[e], logs[e]);
        UpdateLive(was, logs, pm.View(), pm.own, kern_pgdir, env_free_list, slots, e, e', logs[e]);
        assert logs[e := logs[e]] == logs;
        envs[e] := envs[e].(status := DYING);
        assert envs[..] == was[e := e'];
      } else {
        EnvFree(e);
      }
      return 0, e != cur;
    }

    method SysEnvSetPgfaultUpcall(cur: nat, envid: int, func: int) returns (r: int)
      requires Valid() && cur < NENV && Live(envs[cur])
      modifies envs
      ensures Valid()
      ensures var e := Resolve(old(envs[..]), cur, envid, true);
              && r == (if e.None? then -E_BAD_ENV else 0)
              && envs[..] == if e.None? then old(envs[..])
                             else old(envs[..])[e.value := old(envs[..])[e.value].(upcall := func)]
    {
      var t := Envid2Env(cur, envid, true);
      if t.None? { return -E_BAD_ENV; }
      Amend(t.value, envs[t.value].(upcall := func));
      return 0;
    }

    method SysChangePr(cur: nat, pr: int) returns (r: int)
      requires Valid() && cur < NENV && Live(envs[cur])
      modifies envs
      ensures Valid() && r == 0 && envs[..] == old(envs[..])[cur := old(envs[..])[cur].(pr := pr)]
    {
      Amend(cur, envs[cur].(pr := pr));
      return 0;
    }

    // A store to a field of a live environment that nothing else depends on
    method Amend(e: nat, env: Env)
      requires Valid() && e < NENV && Live(envs[e])
      requires env == envs[e].(upcall := env.upcall, pr := env.pr)
      modifies envs
      ensures Valid() && envs[..] == old(envs[..])[e := env]
    {
      hide Spaces, SlotsOk, NothingMapped;
      ghost var was := envs[..];
      assert EnvOk(e, was[e], logs[e]);
      UpdateLive(was, logs, pm.View(), pm.own, kern_pgdir, env_free_list, slots, e, env, logs[e]);
      assert logs[e := logs[e]] == logs;
      envs[e] := env;
      assert envs[..] == was[e := env];
    }

    // syscall(), the calls that edit address spaces
    method PageCall(cur: nat, call: Call) returns (r: Outcome)
      requires Valid() && cur < NENV && Live(envs[cur]) && !envs[cur].recving && Room(pm.View())
      requires call.PageAlloc? || call.PageMap? || call.PageUnmap?
      modifies this, envs, pm, pm.pages, pm.frames
      ensures r == CallResult(old(envs[..]), old(slots), old(pm.View()), old(pm.own), cur, call)
      ensures NamesAnother(old(envs[..]), old(pm.View()), old(pm.own), cur, call) ==> !Explained(pm.View(), pm.own)
      ensures CanHappen(old(Now()), Called(cur, call)) && Happened(old(Now()), Called(cur, call), Now())
    {
      hide InOrder, Happened, Guarded, EnvsAfter, Explained, S.SameContents, OthersSame, ReturnedAtExit, MapsChangedAt,
        FreedAt, MappedFresh, MapsSame, Transferred, NothingMapped, SendResult, PageAllocResult, PageMapResult, Resolve,
        EnvX, Delivered, GoneEnv, ForkedEnv, OneMoreTaken, IdAfter;
      TablesSized(Now());
      ghost var t := Now();
      var value;
      match call {
        case PageAlloc(envid, va, perm) =>
          value := SysPageAlloc(cur, envid, va, perm);
          AllocTakes(t.envs, t.s, t.o, cur, envid, va, perm);
          Protection.AllocGuarded(t, cur, envid, va, perm, Now());
        case PageMap(src, srcva, dst, dstva, perm) =>
          value := SysPageMap(cur, src, srcva, dst, dstva, perm);
          Protection.MapGuarded(t, cur, src, srcva, dst, dstva, perm, Now());
        case PageUnmap(envid, va) =>
          value := SysPageUnmap(cur, envid, va);
          Protection.UnmapGuarded(t, cur, envid, va, Now());
      }
      SameEnvs(t, cur, call);
      CallHappened(t, cur, call, Now());
      return Returns(value);
    }

    // ... those about environments
    method EnvCall(cur: nat, call: Call) returns (r: Outcome)
      requires Valid() && cur < NENV && Live(envs[cur]) && !envs[cur].recving && Room(pm.View())
      requires call.EnvDestroy? || call.Exofork? || call.EnvSetStatus? || call.EnvSetPgfaultUpcall? || call.ChangePr?
      modifies this, envs, pm, pm.pages, pm.frames
      ensures r == CallResult(old(envs[..]), old(slots), old(pm.View()), old(pm.own), cur, call)
      ensures CanHappen(old(Now()), Called(cur, call)) && Happened(old(Now()), Called(cur, call), Now())
    {
      hide InOrder, Happened, Guarded, EnvsAfter, Explained, S.SameContents, OthersSame, ReturnedAtExit, MapsChangedAt,
        FreedAt, MappedFresh, MapsSame, Transferred, NothingMapped, SendResult, PageAllocResult, PageMapResult, Resolve,
        EnvX, Delivered, GoneEnv, ForkedEnv, OneMoreTaken, IdAfter;
      TablesSized(Now());
      ghost var t := Now();
      Unchanged(pm.View(), pm.own);
      var value, back := 0, true;
      match call {
        case EnvDestroy(envid) =>
          value, back := SysEnvDestroy(cur, envid);
          value := 0;
          AfterDestroy(t, cur, envid, envs[..]);
          Protection.DestroyGuarded(t, cur, envid, Now());
        case Exofork =>
          RoomIsRoom(pm.View());
          value := SysExofork(cur);
          if value > 0 {
            AfterExofork(t, cur, EnvX(value), envs[EnvX(value)].pgdir.value, envs[..]);
            Protection.ExoforkGuarded(t, cur, EnvX(value), envs[EnvX(value)], Now());
          } else {
            AfterExofork(t, cur, 0, 0, envs[..]);
            Protection.QuietGuarded(t, cur, call, Now());
          }
        case EnvSetStatus(envid, status) =>
          value := SysEnvSetStatus(cur, envid, status);
          AfterSetStatus(t, cur, envid, status, envs[..]);
          Protection.QuietGuarded(t, cur, call, Now());
        case EnvSetPgfaultUpcall(envid, func) =>
          value := SysEnvSetPgfaultUpcall(cur, envid, func);
          AfterUpcall(t, cur, envid, func, envs[..]);
          Protection.QuietGuarded(t, cur, call, Now());
        case ChangePr(pr) =>
          value := SysChangePr(cur, pr);
          AfterChangePr(t, cur, pr, envs[..]);
          Protection.QuietGuarded(t, cur, call, Now());
      }
      CallHappened(t, cur, call, Now());
      return if back then Returns(value) else NoReturn;
    }

    // ... and messages
    method IpcCall(cur: nat, call: Call) returns (r: Outcome)
      requires Valid() && cur < NENV && Live(envs[cur]) && !envs[cur].recving && Room(pm.View())
      requires call.IpcTrySend? || call.IpcRecv?
      modifies this, envs, pm, pm.pages, pm.frames
      ensures r == CallResult(old(envs[..]), old(slots), old(pm.View()), old(pm.own), cur, call)
      ensures CanHappen(old(Now()), Called(cur, call)) && Happened(old(Now()), Called(cur, call), Now())
    {
      hide InOrder, Happened, Guarded, EnvsAfter, Explained, S.SameContents, OthersSame, ReturnedAtExit, MapsChangedAt,
        FreedAt, MappedFresh, MapsSame, Transferred, NothingMapped, PageAllocResult, PageMapResult, Resolve, EnvX,
        Delivered, GoneEnv, ForkedEnv, OneMoreTaken, IdAfter;
      TablesSized(Now());
      ghost var t := Now();
      Unchanged(pm.View(), pm.own);
      var value;
      match call {
        case IpcTrySend(envid, msg, srcva, perm) =>
          value := SysIpcTrySend(cur, envid, msg, srcva, perm);
          AfterSend(t, cur, envid, msg, srcva, perm, envs[..]);
          Protection.SendGuarded(t, cur, envid, msg, srcva, perm, Now());
        case IpcRecv(dstva) =>
          value := SysIpcRecv(cur, dstva);
          AfterRecv(t, cur, dstva, envs[..]);
          Protection.QuietGuarded(t, cur, call, Now());
      }
      CallHappened(t, cur, call, Now());
      return Returns(value);
    }

    // syscall(): whatever the call and its arguments, the tables stay in order unless
    // it starts a waiting receiver or maps a page under another's number, no page in
    // use is written, and only sys_page_alloc adds a surplus, one to the page it takes.
    method Syscall(cur: nat, call: Call) returns (r: Outcome)
      requires Valid() && cur < NENV && Live(envs[cur]) && !envs[cur].recving && Room(pm.View())
      modifies this, envs, pm, pm.pages, pm.frames
      ensures call.Getenvid? ==> r == Returns(old(envs[cur].id))
      ensures call.Yield? ==> r == NoReturn
      ensures call.NoSuchCall? ==> r == Returns(-3)
      ensures r == CallResult(old(envs[..]), old(slots), old(pm.View()), old(pm.own), cur, call)
      ensures NamesAnother(old(envs[..]), old(pm.View()), old(pm.own), cur, call) ==> !Explained(pm.View(), pm.own)
      ensures CanHappen(old(Now()), Called(cur, call)) && Happened(old(Now()), Called(cur, call), Now())
    {
      hide InOrder, Happened, Guarded, EnvsAfter, Explained, S.SameContents, OthersSame, ReturnedAtExit, MapsChangedAt,
        FreedAt, MappedFresh, MapsSame, Transferred, NothingMapped, SendResult, PageAllocResult, PageMapResult, Resolve,
        EnvX, Delivered, GoneEnv, ForkedEnv, OneMoreTaken, IdAfter;
      TablesSized(Now());
      ghost var t := Now();
      Unchanged(pm.View(), pm.own);
      if call.PageAlloc? || call.PageMap? || call.PageUnmap? {
        r := PageCall(cur, call);
      } else if call.IpcTrySend? || call.IpcRecv? {
        r := IpcCall(cur, call);
      } else if call.Getenvid? || call.Yield? || call.Cgetc? || call.NoSuchCall? {
        SameEnvs(t, cur, call);
        Protection.QuietGuarded(t, cur, call, Now());
        CallHappened(t, cur, call, Now());
        return if call.Yield? then NoReturn
               else Returns(if call.Getenvid? then envs[cur].id else if call.Cgetc? then call.typed else -E_INVAL);
      } else {
        r := EnvCall(cur, call);
      }
    }

    // Between calls, the count of a page in use is the number of places live
    // environments map it plus the number of sys_page_alloc calls that took it.
    lemma CountsAreExact(p: nat)
      requires Valid() && p < pm.pages.Length && pm.own.kind[p].Data?
      ensures pm.pages[p].ref == |Mappings(envs[..], pm.View(), p)| + taken[p]
    {
      CountIsMappings(envs[..], pm.View(), pm.own, kern_pgdir, p);
    }
  }

  lemma Unchanged(s: State, o: Own)
    ensures S.SameContents(s, s, o)
  {
  }
}
