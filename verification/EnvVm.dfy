/**
 The address-space half of `kern/env.c`: env_setup_vm builds a page directory,
 env_free takes an address space apart page by page.
 */
module EnvVm {
  import opened Paging
  import S = PmapSpec
  import Pmap

  // `f` is directory `d` or one of its page tables.
  ghost predicate Belongs(kind: seq<Kind>, d: nat, f: nat) {
    f == d || (f < |kind| && kind[f].Table? && kind[f].dir == d)
  }

  ghost predicate OwnedBy(kind: seq<Kind>, d: nat, r: Slot) {
    match r
    case Root(x) => x == d
    case Entry(f, _) => Belongs(kind, d, f)
  }

  // What has happened to kinds and frames while directory `d` of (s0, o0) is
  // taken apart: nothing outside it, and only pages without surplus were freed.
  ghost predicate Progress(s0: State, o0: Own, s: State, o: Own, d: nat) {
    && Sized(s0, o0) && Sized(s, o) && |o.kind| == |o0.kind|
    && (forall f :: 0 <= f < |o.kind| && !Belongs(o0.kind, d, f) && (o0.kind[f].Dir? || o0.kind[f].Table?) ==>
          o.kind[f] == o0.kind[f] && s.frames[f] == s0.frames[f])
    && (forall f :: 0 <= f < |o.kind| && (o.kind[f].Dir? || o.kind[f].Table?) ==> o.kind[f] == o0.kind[f])
    && (forall f :: 0 <= f < |o.kind| && (o0.kind[f].Held? || o0.kind[f].Reserved? || o0.kind[f].Free?) ==>
          o.kind[f] == o0.kind[f])
    && (forall f :: 0 <= f < |o.kind| && (o.kind[f].Held? || o.kind[f].Reserved?) ==> o.kind[f] == o0.kind[f])
    && S.SameContents(s0, s, o0)
    && (forall f :: 0 <= f < |o.kind| && o.kind[f].Free? && !o0.kind[f].Free? ==> o0.surplus[f] == 0)
  }

  ghost predicate Freeing(s0: State, o0: Own, s: State, o: Own, d: nat) {
    Inv(s, o) && o.surplus == o0.surplus && Progress(s0, o0, s, o, d)
  }

  // The last count on a mapped page carries no surplus.
  lemma LastCountIsData(s: State, o: Own, d: nat, va: nat, q: nat)
    requires Inv(s, o) && S.UserDir(s, o, d) && va < UTOP && q < |s.pages|
    requires S.LastCount(s, S.Translation(s, d, va), q)
    ensures o.kind[q] == Data && o.surplus[q] == 0
  {
    UserPdx(va);
    assert CountOk(s, o, q);
    assert Entry(s.frames[d][Pdx(va)].pn, Ptx(va)) in Refs(s.frames, o.kind, q);
  }

  lemma StepRemove(s0: State, o0: Own, s: State, o: Own, s': State, o': Own, d: nat, va: nat)
    requires Freeing(s0, o0, s, o, d) && S.UserDir(s, o, d) && va < UTOP
    requires S.Removed(s, o, s', o', d, va)
    ensures Freeing(s0, o0, s', o', d)
  {
    forall q | 0 <= q < |o.kind| && S.LastCount(s, S.Translation(s, d, va), q)
      ensures o.kind[q] == Data && o.surplus[q] == 0
    {
      LastCountIsData(s, o, d, va, q);
    }
  }

  // page_decref of a table or directory page that was just unlinked
  lemma StepDecRef(s0: State, o0: Own, s: State, o: Own, d: nat, p: nat)
    requires Inv(s, o) && Progress(s0, o0, s, o, d)
    requires p < |o.kind| && o.kind[p].Data? && Belongs(o0.kind, d, p) && (o0.kind[p].Dir? || o0.kind[p].Table?)
    requires o.surplus == o0.surplus[p := o0.surplus[p] + 1]
    ensures Freeing(s0, o0, DecRefState(s, p), DecRefOwn(s, o, p), d)
  {
    assert CountOk(s, o, p);
    assert Inv(DecRefState(s, p), DecRefOwn(s, o, p)) by { DecRef(s, o, p); }
    ProgressDecRef(s0, o0, s, o, d, p);
    assert DecRefOwn(s, o, p).surplus == o0.surplus;
  }

  lemma ProgressDecRef(s0: State, o0: Own, s: State, o: Own, d: nat, p: nat)
    requires Progress(s0, o0, s, o, d) && p < |o.kind| && p < |s.pages| && p < |o.surplus| && o.surplus[p] > 0
    requires o.kind[p].Data? && Belongs(o0.kind, d, p) && (o0.kind[p].Dir? || o0.kind[p].Table?)
    requires o0.surplus[p] + 1 <= s.pages[p].ref
    ensures Progress(s0, o0, DecRefState(s, p), DecRefOwn(s, o, p), d)
  {
  }

  // e->env_pgdir[i] = 0 and page_decref of an emptied page table
  lemma StepUnlink(s0: State, o0: Own, s: State, o: Own, d: nat, i: nat)
    requires Freeing(s0, o0, s, o, d) && S.UserDir(s, o, d) && i < USER_PDES && s.frames[d][i].Present()
    requires s.frames[d][i].pn < |s.frames|
    requires forall j :: 0 <= j < ENTRIES ==> !s.frames[s.frames[d][i].pn][j].Present()
    ensures var t, s1 := s.frames[d][i].pn, SetWord(s, d, i, ZERO_WORD);
            t < |o.surplus| && Freeing(s0, o0, DecRefState(s1, t), DecRefOwn(s1, UnlinkTableOwn(o, t), t), d)
  {
    var t := s.frames[d][i].pn;
    UnlinkTable(s, o, d, i);
    var s1, o1 := SetWord(s, d, i, ZERO_WORD), UnlinkTableOwn(o, t);
    StepDecRef(s0, o0, s1, o1, d, t);
  }

  // e->env_pgdir = 0 and page_decref of the emptied directory
  lemma StepRoot(s0: State, o0: Own, s: State, o: Own, d: nat)
    requires Freeing(s0, o0, s, o, d) && S.UserDir(s, o, d)
    requires forall i :: 0 <= i < USER_PDES ==> !s.frames[d][i].Present()
    ensures Freeing(s0, o0, DecRefState(s, d), DecRefOwn(s, DropRootOwn(o, d), d), d)
  {
    DropRoot(s, o, d);
    StepDecRef(s0, o0, s, DropRootOwn(o, d), d, d);
  }

  ghost function Kept(s: State, o: Own, d: nat, q: nat): set<Slot> {
    set r | r in Refs(s.frames, o.kind, q) && !OwnedBy(o.kind, d, r)
  }

  // The address space of `d` is gone and nothing else has changed hands.
  ghost predicate Freed(s0: State, o0: Own, s: State, o: Own, d: nat)
    requires Sized(s0, o0) && Sized(s, o)
  {
    && Inv(s, o) && |o.kind| == |o0.kind| && !S.UserDir(s, o, d)
    && o.surplus == o0.surplus && S.SameContents(s0, s, o0)
    // every other environment keeps its directory and every one of its mappings
    && (forall d' :: S.UserDir(s0, o0, d') && d' != d ==> S.UserDir(s, o, d'))
    && (forall d', va :: S.UserDir(s0, o0, d') && d' != d && 0 <= va < UTOP ==>
          S.Translation(s, d', va) == S.Translation(s0, d', va))
    // the references that remain are exactly those outside the address space
    && (forall q :: 0 <= q < |o.kind| ==> Refs(s.frames, o.kind, q) == Kept(s0, o0, d, q))
    // a page is returned to the free list exactly when all its references were inside
    && (forall q :: 0 <= q < |o.kind| ==>
          (o.kind[q] == Free <==>
           o0.kind[q] == Free || (Refs(s0.frames, o0.kind, q) != {} && Kept(s0, o0, d, q) == {} && o0.surplus[q] == 0)))
    && (forall q :: 0 <= q < |o.kind| && (o0.kind[q].Held? || o0.kind[q].Reserved?) ==> o.kind[q] == o0.kind[q])
    && (forall q :: 0 <= q < |o.kind| && !o.kind[q].Data? && !o.kind[q].Free? ==> o.kind[q] == o0.kind[q])
  }

  // With the root gone, what is left of the references is what was outside.
  lemma RefsLeft(s0: State, o0: Own, s: State, o: Own, d: nat, q: nat)
    requires Inv(s0, o0) && S.UserDir(s0, o0, d)
    requires Freeing(s0, o0, s, o, d) && !o.kind[d].Dir?
    ensures Refs(s.frames, o.kind, q) == Kept(s0, o0, d, q)
  {
    forall f | 0 <= f < |o.kind| && o.kind[f].Table? ensures o.kind[f].dir != d {
      assert TableNamed(s.frames, o.kind, f);
    }
    forall r ensures r in Refs(s.frames, o.kind, q) <==> r in Kept(s0, o0, d, q) {
      match r
      case Root(x) =>
      case Entry(f, k) =>
    }
  }

  lemma FreeOrNot(s0: State, o0: Own, s: State, o: Own, d: nat, q: nat)
    requires Inv(s0, o0) && Freeing(s0, o0, s, o, d) && q < |o.kind|
    requires Refs(s.frames, o.kind, q) == Kept(s0, o0, d, q)
    ensures o.kind[q] == Free <==>
            o0.kind[q] == Free || (Refs(s0.frames, o0.kind, q) != {} && Kept(s0, o0, d, q) == {} && o0.surplus[q] == 0)
  {
    assert CountOk(s, o, q) && CountOk(s0, o0, q);
    if o.kind[q].Free? || o.kind[q].Held? { Unreferenced(s, o, q); }
    if r :| r in Refs(s0.frames, o0.kind, q) { NamedInUse(s0, o0, r, q); }
  }

  lemma FreedExactly(s0: State, o0: Own, s: State, o: Own, d: nat)
    requires Inv(s0, o0) && S.UserDir(s0, o0, d)
    requires Freeing(s0, o0, s, o, d) && !o.kind[d].Dir?
    ensures Freed(s0, o0, s, o, d)
  {
    forall q | 0 <= q < |o.kind|
      ensures Refs(s.frames, o.kind, q) == Kept(s0, o0, d, q)
      ensures o.kind[q] == Free <==>
              o0.kind[q] == Free
                || (Refs(s0.frames, o0.kind, q) != {} && Kept(s0, o0, d, q) == {} && o0.surplus[q] == 0)
    {
      RefsLeft(s0, o0, s, o, d, q);
      FreeOrNot(s0, o0, s, o, d, q);
    }
    forall d', va | S.UserDir(s0, o0, d') && d' != d && 0 <= va < UTOP
      ensures S.Translation(s, d', va) == S.Translation(s0, d', va)
    {
      UserPdx(va);
    }
  }

  lemma AddressOf(i: nat, j: nat)
    requires i < USER_PDES && j < ENTRIES
    ensures i * PTSIZE + j * PGSIZE < UTOP
    ensures Pdx(i * PTSIZE + j * PGSIZE) == i && Ptx(i * PTSIZE + j * PGSIZE) == j
  {
  }

  // The page table of entry `i` has lost its first `n` mappings.
  ghost predicate TableEmptied(s: State, o: Own, d: nat, i: nat, t: nat, n: nat) {
    && S.UserDir(s, o, d) && i < USER_PDES && t < |s.frames| && t < |o.kind|
    && s.frames[d][i].Present() && s.frames[d][i].pn == t && o.kind[t] == Table(d, i)
    && forall j :: 0 <= j < n && j < ENTRIES ==> !s.frames[t][j].Present()
  }

  ghost predicate DirEmptied(s: State, d: nat, n: nat) {
    d < |s.frames| && forall i :: 0 <= i < n && i < USER_PDES ==> !s.frames[d][i].Present()
  }

  // One round of the inner loop of env_free
  lemma InnerStep(s: State, o: Own, s': State, o': Own, d: nat, i: nat, t: nat, j: nat)
    requires Inv(s, o) && j < ENTRIES && TableEmptied(s, o, d, i, t, j) && DirEmptied(s, d, i)
    requires S.RemoveReady(s, d, i * PTSIZE + j * PGSIZE) && s' == S.PageRemove(s, d, i * PTSIZE + j * PGSIZE)
    requires S.Removed(s, o, s', o', d, i * PTSIZE + j * PGSIZE) && i * PTSIZE + j * PGSIZE < UTOP
    ensures TableEmptied(s', o', d, i, t, j + 1) && DirEmptied(s', d, i)
  {
    var va := i * PTSIZE + j * PGSIZE;
    AddressOf(i, j);
    forall q | 0 <= q < |o.kind| && S.LastCount(s, S.Translation(s, d, va), q) ensures o.kind[q] == Data {
      LastCountIsData(s, o, d, va, q);
    }
  }

  // Frees the address space rooted at `pgdir`.
  method EnvFree(pm: Pmap.PhysMem, pgdir: nat)
    requires pm.Valid() && S.UserDir(pm.View(), pm.own, pgdir)
    modifies pm, pm.pages, pm.frames
    ensures Sized(old(pm.View()), old(pm.own)) && Sized(pm.View(), pm.own)
    ensures Freed(old(pm.View()), old(pm.own), pm.View(), pm.own, pgdir)
  {
    ghost var s0, o0 := pm.View(), pm.own;
    var pdeno := 0;
    while pdeno < USER_PDES
      invariant pdeno <= USER_PDES
      invariant Freeing(s0, o0, pm.View(), pm.own, pgdir) && S.UserDir(pm.View(), pm.own, pgdir)
      invariant DirEmptied(pm.View(), pgdir, pdeno)
    {
      if pm.frames[pgdir][pdeno].Present() {
        var pt := pm.frames[pgdir][pdeno].pn;
        assert TableEmptied(pm.View(), pm.own, pgdir, pdeno, pt, 0);
        EmptyPageTable(pm, pgdir, pdeno, pt, s0, o0);
        ReleasePageTable(pm, pgdir, pdeno, pt, s0, o0);
      }
      pdeno := pdeno + 1;
    }
    ghost var s, o := pm.View(), pm.own;
    StepRoot(s0, o0, s, o, pgdir);
    pm.PageDecref(pgdir);
    pm.own := DecRefOwn(s, DropRootOwn(o, pgdir), pgdir);
    FreedExactly(s0, o0, pm.View(), pm.own, pgdir);
  }

  // Unmaps every PTE of one page table.
  method EmptyPageTable(pm: Pmap.PhysMem, pgdir: nat, pdeno: nat, pt: nat, ghost s0: State, ghost o0: Own)
    requires Freeing(s0, o0, pm.View(), pm.own, pgdir)
    requires TableEmptied(pm.View(), pm.own, pgdir, pdeno, pt, 0) && DirEmptied(pm.View(), pgdir, pdeno)
    modifies pm, pm.pages, pm.frames
    ensures Freeing(s0, o0, pm.View(), pm.own, pgdir)
    ensures TableEmptied(pm.View(), pm.own, pgdir, pdeno, pt, ENTRIES) && DirEmptied(pm.View(), pgdir, pdeno)
  {
    hide S.Removed, Progress, S.MapUpdated;
    var pteno := 0;
    while pteno < ENTRIES
      invariant pteno <= ENTRIES
      invariant Freeing(s0, o0, pm.View(), pm.own, pgdir)
      invariant TableEmptied(pm.View(), pm.own, pgdir, pdeno, pt, pteno) && DirEmptied(pm.View(), pgdir, pdeno)
    {
      if pm.frames[pt][pteno].Present() {
        ghost var s, o := pm.View(), pm.own;
        AddressOf(pdeno, pteno);
        pm.PageRemove(pgdir, pdeno * PTSIZE + pteno * PGSIZE);
        StepRemove(s0, o0, s, o, pm.View(), pm.own, pgdir, pdeno * PTSIZE + pteno * PGSIZE);
        InnerStep(s, o, pm.View(), pm.own, pgdir, pdeno, pt, pteno);
      }
      pteno := pteno + 1;
    }
  }

  // Clears the PDE and gives the page table back.
  method ReleasePageTable(pm: Pmap.PhysMem, pgdir: nat, pdeno: nat, pt: nat, ghost s0: State, ghost o0: Own)
    requires Freeing(s0, o0, pm.View(), pm.own, pgdir)
    requires TableEmptied(pm.View(), pm.own, pgdir, pdeno, pt, ENTRIES) && DirEmptied(pm.View(), pgdir, pdeno)
    modifies pm, pm.pages, pm.frames
    ensures Freeing(s0, o0, pm.View(), pm.own, pgdir) && S.UserDir(pm.View(), pm.own, pgdir)
    ensures DirEmptied(pm.View(), pgdir, pdeno + 1)
  {
    ghost var s, o := pm.View(), pm.own;
    StepUnlink(s0, o0, s, o, pgdir, pdeno);
    pm.Store(pgdir, pdeno, ZERO_WORD);
    pm.PageDecref(pt);
    pm.own := DecRefOwn(SetWord(s, pgdir, pdeno, ZERO_WORD), UnlinkTableOwn(o, pt), pt);
  }

  const UVPT: nat := 0xEF400000

  // What the new directory holds: nothing below UTOP, the kernel's entries above,
  // itself at UVPT.
  function FreshDir(kern: Frame, pgdir: nat): Frame {
    kern[Pdx(UVPT) := Word(pgdir, {P, U})]
  }

  function SetupVm(s: State, kern: nat): State
    requires S.Ready(s) && s.head.Some? && kern < |s.frames|
  {
    var s1 := S.IncRefState(S.PageAlloc(s, true).0, s.head.value);
    S.SetFrame(s1, s.head.value, FreshDir(s1.frames[kern], s.head.value))
  }

  // Holds of the state after env_setup_vm succeeds.
  ghost predicate SetUp(s: State, o: Own, s': State, o': Own, d: nat) {
    && Inv(s', o') && s.head == Some(d) && d < |o.kind| && o.kind[d] == Free
    && o'.kind == o.kind[d := Dir] && o'.surplus == o.surplus
    && S.SameMappings(s, s', o) && S.SameContents(s, s', o)
    && (forall va :: 0 <= va < UTOP ==> S.Translation(s', d, va) == None)
  }

  lemma SetupCorrect(s: State, o: Own, kern: nat) returns (o': Own)
    requires Inv(s, o) && S.HasRoom(s) && s.head.Some?
    requires kern < |s.frames| && o.kind[kern].Reserved? && DirEmptied(s, kern, USER_PDES)
    ensures S.Ready(s) && SetUp(s, o, SetupVm(s, kern), o', s.head.value)
  {
    var d := s.head.value;
    var o1 := S.FreshPage(s, o);
    var s1 := S.IncRefState(S.PageAlloc(s, true).0, d);
    var top := FreshDir(s.frames[kern], d);
    assert s1.frames[kern] == s.frames[kern];
    WriteUntracked(s1, o1, d, top);
    AddRoot(SetupVm(s, kern), o1, d);
    o' := AddRootOwn(o1, d);
    assert o1.kind[d := Dir] == o.kind[d := Dir] && o'.surplus == o.surplus;
    SetupKeepsMappings(s, SetupVm(s, kern), o, d, top);
  }

  lemma SetupKeepsMappings(s: State, s': State, o: Own, d: nat, top: Frame)
    requires Inv(s, o) && d < |s.frames| && o.kind[d].Free?
    requires s'.frames == s.frames[d := ZeroFrame()][d := top]
    requires forall i :: 0 <= i < USER_PDES ==> !top[i].Present()
    ensures S.SameMappings(s, s', o)
    ensures forall va :: 0 <= va < UTOP ==> S.Translation(s', d, va) == None
  {
    forall d', va | S.UserDir(s, o, d') && 0 <= va < UTOP
      ensures S.Translation(s', d', va) == S.Translation(s, d', va)
    {
      UserPdx(va);
    }
    forall va | 0 <= va < UTOP ensures S.Translation(s', d, va) == None {
      UserPdx(va);
    }
  }

  // A directory for a new environment: empty below UTOP, the kernel's above.
  method EnvSetupVm(pm: Pmap.PhysMem, kernPgdir: nat) returns (r: int, pgdir: nat)
    requires pm.Valid() && S.HasRoom(pm.View())
    requires kernPgdir < pm.frames.Length && pm.own.kind[kernPgdir].Reserved?
             && DirEmptied(pm.View(), kernPgdir, USER_PDES)
    modifies pm, pm.pages, pm.frames
    ensures pm.Valid()
    ensures r == (if old(pm.page_free_list).None? then -S.E_NO_MEM else 0)
    ensures r != 0 ==> pm.View() == old(pm.View()) && pm.own == old(pm.own)
    ensures r == 0 ==> SetUp(old(pm.View()), old(pm.own), pm.View(), pm.own, pgdir)
    ensures r == 0 ==> forall i :: USER_PDES <= i < ENTRIES ==>
              pm.frames[pgdir][i] ==
              if i == Pdx(UVPT) then Word(pgdir, {P, U}) else old(pm.frames[kernPgdir][i])
  {
    ghost var s, o := pm.View(), pm.own;
    var p := pm.PageAlloc(true);
    if p.None? { return -S.E_NO_MEM, 0; }
    ghost var o' := SetupCorrect(s, o, kernPgdir);
    pgdir := p.value;
    r := 0;
    pm.TakeRef(pgdir);
    pm.frames[pgdir] := pm.frames[kernPgdir][Pdx(UVPT) := Word(pgdir, {P, U})];
    pm.own := o';
    assert pm.View() == SetupVm(s, kernPgdir);
  }
}
