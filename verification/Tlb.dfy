/**
 The translation cache of one CPU against the page tables (`kern/pmap.c`,
 `kern/env.c`; section 4.10 of the Intel SDM, Volume 3A). The hardware may cache
 or drop any translation of the loaded directory between any two steps; the
 kernel has only invlpg and lcr3 to keep the cache right.
 */
module Tlb {
  import opened Paging
  import S = PmapSpec
  import Pmap
  import V = EnvVm
  import K = KernelSpec

  // The cached entries below UTOP by page number
  type Cache = map<nat, Word>

  // Every cached translation, but for that of page `but`, is what a walk of the
  // directory `cr3` finds now.
  ghost predicate Agrees(s: State, cr3: nat, tlb: Cache, but: Option<nat>) {
    cr3 < |s.frames| &&
    forall n :: n in tlb ==> n < K.USER_PAGES && (but == Some(n) || S.Translation(s, cr3, n * PGSIZE) == Some(tlb[n]))
  }

  // Entries come and go as the hardware likes.
  ghost predicate HardwareStep(s: State, cr3: nat, tlb: Cache, tlb': Cache) {
    cr3 < |s.frames| &&
    forall n :: n in tlb' ==>
      (n in tlb && tlb'[n] == tlb[n]) || (n < K.USER_PAGES && S.Translation(s, cr3, n * PGSIZE) == Some(tlb'[n]))
  }

  // kern_pgdir maps nothing below UTOP.
  ghost predicate KernDir(s: State, o: Own, d: nat) {
    d < |o.kind| && o.kind[d].Reserved? && V.DirEmptied(s, d, USER_PDES)
  }

  lemma KernMapsNothing(s: State, o: Own, d: nat, va: nat)
    requires KernDir(s, o, d) && va < UTOP
    ensures S.Translation(s, d, va) == None
  {
    UserPdx(va);
  }

  ghost predicate Loadable(s: State, o: Own, kern: nat, d: nat) {
    d == kern || S.UserDir(s, o, d)
  }

  // A change of the map at (d, va) leaves the cache right everywhere else, and
  // everywhere when another directory is loaded.
  lemma AfterPointUpdate(s: State, o: Own, s': State, o': Own, kern: nat, cr3: nat, tlb: Cache, d: nat, va: nat,
                         w: Option<Word>)
    requires KernDir(s, o, kern) && Loadable(s, o, kern, cr3) && Agrees(s, cr3, tlb, None)
    requires |s.frames| == |o.kind| && SameDirs(o, o') && S.SameContents(s, s', o)
    requires S.MapUpdated(s, s', o, d, va, w) && va < UTOP && d != kern
    ensures KernDir(s', o', kern) && Loadable(s', o', kern, cr3)
    ensures Agrees(s', cr3, tlb, if cr3 == d then Some(va / PGSIZE) else None)
    ensures cr3 == d && S.Translation(s, d, va) == None ==> va / PGSIZE !in tlb
  {
    forall n | n in tlb && !(cr3 == d && n == va / PGSIZE) ensures S.Translation(s', cr3, n * PGSIZE) == Some(tlb[n]) {
      K.PageIndices(n);
      K.SamePageSameSlot(va, n * PGSIZE);
      if cr3 == kern { KernMapsNothing(s, o, kern, n * PGSIZE); }
    }
    if va / PGSIZE in tlb {
      K.PageIndices(va / PGSIZE);
      K.SamePageSameSlot(va, va / PGSIZE * PGSIZE);
    }
  }

  lemma AfterSameMappings(s: State, o: Own, s': State, o': Own, kern: nat, cr3: nat, tlb: Cache)
    requires KernDir(s, o, kern) && Loadable(s, o, kern, cr3) && Agrees(s, cr3, tlb, None)
    requires |s.frames| == |o.kind| && SameDirs(o, o') && S.SameContents(s, s', o) && S.SameMappings(s, s', o)
    ensures KernDir(s', o', kern) && Loadable(s', o', kern, cr3) && Agrees(s', cr3, tlb, None)
  {
    forall n | n in tlb ensures S.Translation(s', cr3, n * PGSIZE) == Some(tlb[n]) {
      K.PageIndices(n);
      if cr3 == kern { KernMapsNothing(s, o, kern, n * PGSIZE); }
    }
  }

  // While the cache agrees, it names no free page.
  lemma NoFreePageCached(s: State, o: Own, kern: nat, cr3: nat, tlb: Cache, n: nat)
    requires Inv(s, o) && KernDir(s, o, kern) && Loadable(s, o, kern, cr3) && Agrees(s, cr3, tlb, None) && n in tlb
    ensures tlb[n].pn < |o.kind| && o.kind[tlb[n].pn] == Data && tlb[n].pn !in o.free
  {
    K.PageIndices(n);
    UserPdx(n * PGSIZE);
    KernMapsNothing(s, o, kern, n * PGSIZE);
  }

  /**
   tlb_invalidate's test is the right one: after an entry of `d` is cleared, the
   cache is right whatever it held exactly when the entry was flushed or `d` is
   not the directory in cr3.
   */
  lemma FlushNeededExactly(s: State, s': State, o: Own, kern: nat, cr3: nat, d: nat, va: nat, flushed: bool)
    requires KernDir(s, o, kern) && Loadable(s, o, kern, cr3) && |s.frames| == |o.kind|
    requires S.UserDir(s, o, d) && d != kern && va < UTOP && S.Translation(s, d, va).Some?
    requires S.MapUpdated(s, s', o, d, va, None) && S.SameContents(s, s', o)
    ensures (forall tlb :: Agrees(s, cr3, tlb, None) ==>
               Agrees(s', cr3, if flushed then tlb - {va / PGSIZE} else tlb, None)) <==> flushed || cr3 != d
  {
    var n := va / PGSIZE;
    K.PageIndices(n);
    K.SamePageSameSlot(va, n * PGSIZE);
    if flushed || cr3 != d {
      forall tlb | Agrees(s, cr3, tlb, None)
        ensures Agrees(s', cr3, if flushed then tlb - {va / PGSIZE} else tlb, None)
      {
        AfterPointUpdate(s, o, s', o, kern, cr3, tlb, d, va, None);
      }
    } else {
      var tlb := map[n := S.Translation(s, d, va).value];
      assert S.SameSlot(d, va, d, n * PGSIZE);
      assert Agrees(s, cr3, tlb, None) && n in tlb && !Agrees(s', cr3, tlb, None);
    }
  }

  class Mmu {
    const pm: Pmap.PhysMem
    const kern_pgdir: nat
    // the directory of curenv, if there is one
    var curenv: Option<nat>
    var cr3: nat
    ghost var tlb: Cache

    constructor (mem: Pmap.PhysMem, kern: nat)
      requires mem.Valid() && KernDir(mem.View(), mem.own, kern)
      ensures pm == mem && kern_pgdir == kern && Coherent() && curenv == None
    {
      pm, kern_pgdir := mem, kern;
      curenv, cr3, tlb := None, kern, map[];
    }

    ghost predicate Ready()
      reads this, pm, pm.pages, pm.frames
    {
      && cr3 < pm.frames.Length && pm.Valid() && KernDir(pm.View(), pm.own, kern_pgdir)
         && Loadable(pm.View(), pm.own, kern_pgdir, cr3)
      && cr3 == (if curenv.Some? then curenv.value else kern_pgdir)
    }

    ghost predicate Coherent()
      reads this, pm, pm.pages, pm.frames
    {
      Ready() && Agrees(pm.View(), cr3, tlb, None)
    }

    // Any number of fills and evictions
    ghost method Hardware(but: Option<nat>)
      requires cr3 < pm.frames.Length && Agrees(pm.View(), cr3, tlb, but)
      modifies this`tlb
      ensures HardwareStep(pm.View(), cr3, old(tlb), tlb) && Agrees(pm.View(), cr3, tlb, but)
    {
      assert HardwareStep(pm.View(), cr3, tlb, tlb);
      var next: Cache :| HardwareStep(pm.View(), cr3, tlb, next);
      tlb := next;
    }

    // lcr3: the old directory's translations go.
    method Lcr3(dir: nat)
      requires pm.Valid() && KernDir(pm.View(), pm.own, kern_pgdir) && Loadable(pm.View(), pm.own, kern_pgdir, dir)
      modifies this`cr3, this`tlb
      ensures cr3 == dir && Agrees(pm.View(), cr3, tlb, None)
    {
      cr3, tlb := dir, map[];
      Hardware(None);
    }

    method TlbInvalidate(pgdir: nat, va: nat)
      modifies this`tlb
      ensures tlb == if curenv.None? || curenv == Some(pgdir) then old(tlb) - {va / PGSIZE} else old(tlb)
    {
      if curenv.None? || curenv.value == pgdir {
        tlb := tlb - {va / PGSIZE};   // invlpg
      }
    }

    method PageRemove(pgdir: nat, va: nat)
      requires Coherent() && S.UserDir(pm.View(), pm.own, pgdir) && va < UTOP
      modifies this`tlb, pm, pm.pages, pm.frames
      ensures Coherent() && S.RemoveReady(old(pm.View()), pgdir, va)
      ensures pm.View() == S.PageRemove(old(pm.View()), pgdir, va)
      ensures S.Removed(old(pm.View()), old(pm.own), pm.View(), pm.own, pgdir, va)
    {
      hide Inv, S.MapUpdated, V.DirEmptied, S.Removed, S.PageRemove;
      Hardware(None);
      ghost var s, o := pm.View(), pm.own;
      S.InvReady(s, o, pgdir, va);
      assert pgdir != kern_pgdir;
      var pg := pm.PageLookup(pgdir, va);
      pm.PageRemove(pgdir, va);
      K.RemovedContents(s, o, pm.View(), pm.own, pgdir, va);
      AfterPointUpdate(s, o, pm.View(), pm.own, kern_pgdir, cr3, tlb, pgdir, va, None);
      ghost var but := if cr3 == pgdir && pg.Some? then Some(va / PGSIZE) else None;
      Hardware(but);
      if pg.Some? {
        TlbInvalidate(pgdir, va);
      }
      Hardware(None);
    }

    // The middle of page_insert: the old mapping at `va`, if any, goes first.
    method Displace(pgdir: nat, pt: nat, va: nat)
      requires Coherent() && S.UserDir(pm.View(), pm.own, pgdir) && va < UTOP && pt < pm.frames.Length
      requires pm.frames[pgdir][Pdx(va)].Present() && pm.frames[pgdir][Pdx(va)].pn == pt
      modifies this`tlb, pm, pm.pages, pm.frames
      ensures Coherent() && S.MapUpdated(old(pm.View()), pm.View(), old(pm.own), pgdir, va, None)
      ensures S.RemoveReady(old(pm.View()), pgdir, va)
      ensures pm.View() == if old(pm.frames[pt])[Ptx(va)].Present() then S.PageRemove(old(pm.View()), pgdir, va)
                             else old(pm.View())
    {
      S.InvReady(pm.View(), pm.own, pgdir, va);
      if pm.frames[pt][Ptx(va)].Present() {
        PageRemove(pgdir, va);
      } else {
        S.NothingThere(pm.View(), pm.own, pgdir, va);
      }
    }

    // The beginning of page_insert: the page table and the new count
    method WalkAndTake(pgdir: nat, pp: nat, va: nat) returns (pt: Option<nat>)
      requires Coherent() && S.UserDir(pm.View(), pm.own, pgdir) && va < UTOP && S.HasRoom(pm.View())
      requires pp < pm.pages.Length && (pm.own.kind[pp].Held? || pm.own.kind[pp].Data?)
      modifies this`tlb, pm, pm.pages, pm.frames
      ensures Coherent() && S.WalkReady(old(pm.View()), pgdir, va)
      ensures pt == S.PgdirWalk(old(pm.View()), pgdir, va, true).1
      ensures pt.None? ==> pm.View() == S.PgdirWalk(old(pm.View()), pgdir, va, true).0
      ensures pt.Some? ==>
                && S.Midway(old(pm.View()), old(pm.own), pm.View(), pm.own, pgdir, va, pt.value)
                && pp < |S.PgdirWalk(old(pm.View()), pgdir, va, true).0.pages|
                && pm.View() == S.IncRefState(S.PgdirWalk(old(pm.View()), pgdir, va, true).0, pp)
    {
      hide Inv, Agrees, KernDir, Loadable;
      ghost var s, o := pm.View(), pm.own;
      ghost var o2 := S.InsertMidway(s, o, pgdir, pp, va);
      Hardware(None);
      pt := pm.PgdirWalk(pgdir, va, true);
      if pt.Some? {
        pm.TakeRef(pp);
        pm.own := o2;
        AfterMidway(s, o, pm.View(), o2, kern_pgdir, cr3, tlb, pgdir, va, pt.value);
      }
      Hardware(None);
    }

    method PageInsert(pgdir: nat, pp: nat, va: nat, perm: Perm) returns (r: int)
      requires Coherent() && S.UserDir(pm.View(), pm.own, pgdir) && va < UTOP && S.HasRoom(pm.View())
      requires pp < pm.pages.Length && (pm.own.kind[pp].Held? || pm.own.kind[pp].Data?)
      modifies this`tlb, pm, pm.pages, pm.frames
      ensures S.InsertReady(old(pm.View()), pgdir, pp, va) && Agrees(pm.View(), cr3, tlb, None)
      ensures Coherent() <==> r != 0 || Clean(pp, perm)
      ensures (pm.View(), r) == S.PageInsert(old(pm.View()), pgdir, pp, va, perm)
      ensures r == 0 ==> S.Inserted(old(pm.View()), old(pm.own), pm.View(), pm.own, pgdir, pp, va, perm)
    {
      hide Inv, S.Inserted, S.MapUpdated, S.AccessUpdated, S.SameMappings, S.SameContents, SameDirs, Agrees, KernDir,
        Loadable;
      ghost var s, o := pm.View(), pm.own;
      ghost var o' := S.InsertCorrect(s, o, pgdir, pp, va, perm);
      var pt := WalkAndTake(pgdir, pp, va);
      if pt.None? { return -S.E_NO_MEM; }
      ghost var s2, o2 := pm.View(), pm.own;
      Displace(pgdir, pt.value, va);
      Hardware(None);
      ghost var s3 := pm.View();
      if cr3 == kern_pgdir { KernCachesNothing(s3, pm.own, kern_pgdir, tlb); }
      pm.Store(pt.value, Ptx(va), Stored(pp, perm));
      pm.own := o';
      assert pm.View() == S.PageInsert(s, pgdir, pp, va, perm).0;
      AfterInsert(s, o, s2, o2, s3, pm.View(), o', kern_pgdir, cr3, tlb, pgdir, pp, va, perm, pt.value);
      WhenInsertedInv(s, o, pm.View(), o', pgdir, pp, va, perm);
      Hardware(None);
      return 0;
    }

    method PageAlloc(zero: bool) returns (pp: Option<nat>)
      requires Coherent()
      modifies this`tlb, pm, pm.frames
      ensures Coherent() && S.Ready(old(pm.View())) && (pm.View(), pp) == S.PageAlloc(old(pm.View()), zero)
    {
      Hardware(None);
      ghost var s, o := pm.View(), pm.own;
      pp := pm.PageAlloc(zero);
      AfterAlloc(s, o, pm.View(), pm.own, kern_pgdir, cr3, tlb, pp);
      Hardware(None);
    }

    // page_free of a page that page_alloc handed out and nothing references
    method PageFree(pp: nat)
      requires Coherent() && pp < pm.pages.Length && pm.own.kind[pp].Held?
      modifies this`tlb, pm, pm.pages
      ensures Coherent() && pm.View() == PushFree(old(pm.View()), pp)
    {
      hide Chain, FreeOk, TreeOk, CountOk, V.DirEmptied;
      Hardware(None);
      ghost var s, o := pm.View(), pm.own;
      PushUnreferenced(s, o, pp);
      pm.PageFree(pp);
      pm.own := PushFreeOwn(o, pp);
      AfterSameMappings(s, o, pm.View(), pm.own, kern_pgdir, cr3, tlb);
      Hardware(None);
    }

    // env_setup_vm
    method EnvSetupVm() returns (r: int, pgdir: nat)
      requires Coherent() && S.HasRoom(pm.View())
      modifies this`tlb, pm, pm.pages, pm.frames
      ensures Coherent() && (r == 0 || r == -S.E_NO_MEM)
      ensures if r == 0 then V.SetUp(old(pm.View()), old(pm.own), pm.View(), pm.own, pgdir)
              else pm.View() == old(pm.View())
    {
      Hardware(None);
      ghost var s, o := pm.View(), pm.own;
      r, pgdir := V.EnvSetupVm(pm, kern_pgdir);
      if r == 0 { AfterSetup(s, o, pm.View(), pm.own, kern_pgdir, cr3, tlb, pgdir); }
      Hardware(None);
    }

    // env_run: a switch to another environment loads its directory.
    method EnvRun(pgdir: nat)
      requires Coherent() && S.UserDir(pm.View(), pm.own, pgdir)
      modifies this`curenv, this`cr3, this`tlb
      ensures Coherent() && curenv == Some(pgdir)
    {
      if curenv != Some(pgdir) {
        curenv := Some(pgdir);
        Lcr3(pgdir);
      }
    }

    // sched_halt
    method Halt()
      requires Coherent()
      modifies this`curenv, this`cr3, this`tlb
      ensures Coherent() && curenv == None
    {
      curenv := None;
      Lcr3(kern_pgdir);
    }

    // env_free, and curenv = NULL after it where curenv was the one freed
    method EnvFree(pgdir: nat)
      requires Coherent() && S.UserDir(pm.View(), pm.own, pgdir)
      modifies this, pm, pm.pages, pm.frames
      ensures Coherent() && curenv == (if old(curenv) == Some(pgdir) then None else old(curenv))
      ensures V.Freed(old(pm.View()), old(pm.own), pm.View(), pm.own, pgdir)
    {
      var current := curenv == Some(pgdir);
      if current {
        Lcr3(kern_pgdir);
      }
      Hardware(None);
      ghost var s, o := pm.View(), pm.own;
      V.EnvFree(pm, pgdir);
      AfterFree(s, o, pm.View(), pm.own, kern_pgdir, cr3, tlb, pgdir);
      Hardware(None);
      if current { curenv := None; }
    }
  }

  // A page off the free list is nobody's directory or table.
  lemma AfterAlloc(s: State, o: Own, s': State, o': Own, kern: nat, cr3: nat, tlb: Cache, pp: Option<nat>)
    requires Inv(s, o) && Inv(s', o') && KernDir(s, o, kern) && Loadable(s, o, kern, cr3) && Agrees(s, cr3, tlb, None)
    requires pp == s.head && (pp.None? ==> s' == s && o' == o)
    requires pp.Some? ==> o.free != [] && o.free[0] == pp.value < |o.kind| && o' == TakeFreeOwn(o)
    requires |s'.frames| == |s.frames|
    requires forall f :: 0 <= f < |s.frames| && pp != Some(f) ==> s'.frames[f] == s.frames[f]
    ensures KernDir(s', o', kern) && Loadable(s', o', kern, cr3) && Agrees(s', cr3, tlb, None)
  {
    hide Chain, CountOk;
    if pp.Some? { assert pp.value in o.free; }
    forall n | n in tlb ensures S.Translation(s', cr3, n * PGSIZE) == Some(tlb[n]) {
      K.PageIndices(n);
      UserPdx(n * PGSIZE);
      if cr3 == kern { KernMapsNothing(s, o, kern, n * PGSIZE); }
    }
  }

  lemma AfterSetup(s: State, o: Own, s': State, o': Own, kern: nat, cr3: nat, tlb: Cache, d: nat)
    requires Inv(s, o) && KernDir(s, o, kern) && Loadable(s, o, kern, cr3) && Agrees(s, cr3, tlb, None)
    requires V.SetUp(s, o, s', o', d)
    ensures KernDir(s', o', kern) && Loadable(s', o', kern, cr3) && Agrees(s', cr3, tlb, None)
  {
    hide Inv;
    forall n | n in tlb ensures S.Translation(s', cr3, n * PGSIZE) == Some(tlb[n]) {
      K.PageIndices(n);
      if cr3 == kern { KernMapsNothing(s, o, kern, n * PGSIZE); }
    }
  }

  lemma WhenInsertedInv(s: State, o: Own, s': State, o': Own, d: nat, p: nat, va: nat, perm: Perm)
    requires Inv(s, o) && d < |s.frames| && S.Inserted(s, o, s', o', d, p, va, perm)
    ensures Inv(s', o') <==> Clean(p, perm)
  {
    assert SameDirs(o', o');
  }

  lemma AfterFree(s: State, o: Own, s': State, o': Own, kern: nat, cr3: nat, tlb: Cache, d: nat)
    requires Inv(s, o) && Sized(s', o') && KernDir(s, o, kern) && Loadable(s, o, kern, cr3) && Agrees(s, cr3, tlb, None)
    requires V.Freed(s, o, s', o', d) && cr3 != d && S.UserDir(s, o, d)
    ensures KernDir(s', o', kern) && Loadable(s', o', kern, cr3) && Agrees(s', cr3, tlb, None)
  {
    forall n | n in tlb ensures S.Translation(s', cr3, n * PGSIZE) == Some(tlb[n]) {
      K.PageIndices(n);
      if cr3 == kern { KernMapsNothing(s, o, kern, n * PGSIZE); }
    }
  }

  lemma AfterMidway(s: State, o: Own, s2: State, o2: Own, kern: nat, cr3: nat, tlb: Cache, d: nat, va: nat, t: nat)
    requires Inv(s, o) && KernDir(s, o, kern) && Loadable(s, o, kern, cr3) && Agrees(s, cr3, tlb, None)
    requires S.Midway(s, o, s2, o2, d, va, t)
    ensures KernDir(s2, o2, kern) && Loadable(s2, o2, kern, cr3) && Agrees(s2, cr3, tlb, None)
  {
    AfterSameMappings(s, o, s2, o2, kern, cr3, tlb);
  }

  // Once the old mapping is out of table and cache, the new entry can be written.
  lemma AfterInsert(s: State, o: Own, s2: State, o2: Own, s3: State, s': State, o': Own, kern: nat, cr3: nat,
                    tlb: Cache,
                    d: nat, p: nat, va: nat, perm: Perm, t: nat)
    requires Inv(s, o) && KernDir(s, o, kern) && Loadable(s, o, kern, cr3) && S.UserDir(s, o, d) && va < UTOP
    requires S.Midway(s, o, s2, o2, d, va, t) && S.MapUpdated(s2, s3, o2, d, va, None) && Agrees(s3, cr3, tlb, None)
    requires cr3 == kern ==> tlb == map[]
    requires S.Inserted(s, o, s', o', d, p, va, perm)
    ensures KernDir(s', o', kern) && Loadable(s', o', kern, cr3) && Agrees(s', cr3, tlb, None)
  {
    hide TreeOk, FreeOk, Chain, CountOk, V.DirEmptied;
    S.AfterWalk(s, s2, s3, o, o2, d, va, None);
    forall n | n in tlb ensures S.Translation(s, cr3, n * PGSIZE) == Some(tlb[n]) && !(cr3 == d && n == va / PGSIZE) {
      K.PageIndices(n);
      K.SamePageSameSlot(va, n * PGSIZE);
    }
    AfterPointUpdate(s, o, s', o', kern, cr3, tlb, d, va, Some(Stored(p, perm)));
  }

  // Nothing below UTOP is cached while kern_pgdir is loaded.
  lemma KernCachesNothing(s: State, o: Own, kern: nat, tlb: Cache)
    requires KernDir(s, o, kern) && Agrees(s, kern, tlb, None)
    ensures tlb == map[]
  {
    forall n | n in tlb ensures false {
      K.PageIndices(n);
      KernMapsNothing(s, o, kern, n * PGSIZE);
    }
  }
}
