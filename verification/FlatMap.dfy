/**
 Between the kernel and the fork library: the two-level tables of all environments
 are one map from (environment, page) to entry, and what the system calls of
 `Kernel` promise of the tables is what the steps of the machine of `CowFork` do to
 its map.
 */
module FlatMap {
  import opened Paging
  import opened Envs
  import opened EnvIds
  import opened KernelSpec
  import Cow = CowFork

  type Flat = map<Cow.Key, Word>

  ghost predicate Entry(envs: seq<Env>, s: State, k: Cow.Key, w: Word) {
    k.env < |envs| && Live(envs[k.env]) && k.vpn < USER_PAGES && MapOf(envs, s, k.env, k.vpn * PGSIZE) == Some(w)
  }

  ghost predicate Has(f: Flat, k: Cow.Key, w: Word) {
    k in f && f[k] == w
  }

  // Every entry below UTOP of every live environment
  ghost function FlatOf(envs: seq<Env>, s: State): (f: Flat)
    ensures forall k, w :: Has(f, k, w) <==> Entry(envs, s, k, w)
  {
    map i, n | 0 <= i < |envs| && 0 <= n < USER_PAGES && Live(envs[i]) && MapOf(envs, s, i, n * PGSIZE).Some? ::
      Cow.Key(i, n) := MapOf(envs, s, i, n * PGSIZE).value
  }

  lemma SameFlat(f: Flat, g: Flat)
    requires forall k, w :: Has(f, k, w) <==> Has(g, k, w)
    ensures f == g
  {
    forall k ensures k in f <==> k in g {
      assert k in f ==> Has(f, k, f[k]);
      assert k in g ==> Has(g, k, g[k]);
    }
    forall k | k in f ensures f[k] == g[k] {
      assert Has(f, k, f[k]);
    }
  }

  // sys_page_map and sys_page_alloc write one entry of the map.
  lemma MapIsUpdate(envs: seq<Env>, s: State, s': State, j: nat, va: nat, w: Word)
    requires j < |envs| && Live(envs[j]) && va < UTOP && MapsChangedAt(envs, s, s', j, va, Some(w))
    ensures FlatOf(envs, s') == FlatOf(envs, s)[Cow.Key(j, va / PGSIZE) := w]
  {
    hide MapsChangedAt, MapOf;
    var f, k0 := FlatOf(envs, s), Cow.Key(j, va / PGSIZE);
    forall k, x ensures Has(FlatOf(envs, s'), k, x) <==> Has(f[k0 := w], k, x) {
      EntryAfter(envs, s, s', j, va, Some(w), k, x);
      assert Has(f, k, x) <==> Entry(envs, s, k, x);
    }
    SameFlat(FlatOf(envs, s'), f[k0 := w]);
  }

  // sys_page_unmap takes one entry away.
  lemma UnmapIsRemoval(envs: seq<Env>, s: State, s': State, j: nat, va: nat)
    requires j < |envs| && Live(envs[j]) && va < UTOP && MapsChangedAt(envs, s, s', j, va, None)
    ensures FlatOf(envs, s') == FlatOf(envs, s) - {Cow.Key(j, va / PGSIZE)}
  {
    hide MapsChangedAt, MapOf;
    var f, k0 := FlatOf(envs, s), Cow.Key(j, va / PGSIZE);
    forall k, x ensures Has(FlatOf(envs, s'), k, x) <==> Has(f - {k0}, k, x) {
      EntryAfter(envs, s, s', j, va, None, k, x);
      assert Has(f, k, x) <==> Entry(envs, s, k, x);
    }
    SameFlat(FlatOf(envs, s'), f - {k0});
  }

  lemma EntryAfter(envs: seq<Env>, s: State, s': State, j: nat, va: nat, w: Option<Word>, k: Cow.Key, x: Word)
    requires j < |envs| && Live(envs[j]) && va < UTOP && MapsChangedAt(envs, s, s', j, va, w)
    ensures Entry(envs, s', k, x) <==> if k == Cow.Key(j, va / PGSIZE) then w == Some(x) else Entry(envs, s, k, x)
  {
    PageIndices(va / PGSIZE);
    if k.vpn < USER_PAGES { PageIndices(k.vpn); }
  }

  // The page sys_page_alloc maps is one that no entry named.
  lemma AllocIsFresh(envs: seq<Env>, s: State, o: Own, kern: nat, s': State, o': Own, j: nat, va: nat, perm: set<Flag>)
    requires Spaces(envs, s, o, kern) && j < |envs| && Live(envs[j]) && va < UTOP
    requires MappedFresh(envs, s, o, s', o', j, va, Low(perm))
    ensures FlatOf(envs, s') == FlatOf(envs, s)[Cow.Key(j, va / PGSIZE) := Word(o.free[0], perm + {P})]
    ensures Cow.FreshPage(Cow.Sys(FlatOf(envs, s), map[], map[]), o.free[0])
  {
    LowIsClean(o.free[0], perm);
    MapIsUpdate(envs, s, s', j, va, Word(o.free[0], perm + {P}));
    var f := FlatOf(envs, s);
    forall k | k in f ensures f[k].pn != o.free[0] {
      assert Has(f, k, f[k]) && Entry(envs, s, k, f[k]);
      PageIndices(k.vpn);
      MappedIsNotFree(envs, s, o, kern, k.env, k.vpn * PGSIZE);
    }
  }

  // A new environment has no entries.
  lemma ExoforkAddsNothing(envs: seq<Env>, s: State, envs': seq<Env>, s': State, i: nat)
    requires |envs'| == |envs| && i < |envs| && !Live(envs[i])
    requires forall k :: 0 <= k < |envs| && k != i ==> envs'[k] == envs[k]
    requires OthersSame(envs, s, s', i) && NothingMapped(envs', s', i)
    ensures FlatOf(envs', s') == FlatOf(envs, s)
  {
    forall k, x ensures Entry(envs', s', k, x) <==> Entry(envs, s, k, x) {
      if k.vpn < USER_PAGES { PageIndices(k.vpn); }
    }
    SameFlat(FlatOf(envs', s'), FlatOf(envs, s));
  }

  // An environment that goes takes its own entries and no others.
  lemma ExitDropsItsOwn(envs: seq<Env>, s: State, envs': seq<Env>, s': State, i: nat)
    requires |envs'| == |envs| && i < |envs| && !Live(envs'[i])
    requires forall k :: 0 <= k < |envs| && k != i ==> envs'[k] == envs[k]
    requires OthersSame(envs, s, s', i)
    ensures FlatOf(envs', s') == map k | k in FlatOf(envs, s) && k.env != i :: FlatOf(envs, s)[k]
  {
    var f := FlatOf(envs, s);
    var g: Flat := map k | k in f && k.env != i :: f[k];
    forall k, x ensures Has(FlatOf(envs', s'), k, x) <==> Has(g, k, x) {
      assert Has(f, k, x) <==> Entry(envs, s, k, x);
      if k.vpn < USER_PAGES { PageIndices(k.vpn); }
    }
    SameFlat(FlatOf(envs', s'), g);
  }

  // ----- the machine's steps as system calls -----

  lemma PageAddress(n: nat)
    requires n < USER_PAGES
    ensures n * PGSIZE < UTOP && n * PGSIZE / PGSIZE == n
  {
  }

  // Page `u` of environment `i` is now also page `v` of environment `j`: what
  // sys_page_map, and sys_ipc_try_send with a page, promise.
  ghost predicate Mapped(envs: seq<Env>, s: State, s': State, i: nat, u: nat, j: nat, v: nat, perm: set<Flag>) {
    && j < |envs| && Live(envs[j]) && v < USER_PAGES
    && MapOf(envs, s, i, u * PGSIZE).Some?
    && MapsChangedAt(envs, s, s', j, v * PGSIZE, Some(Stored(MapOf(envs, s, i, u * PGSIZE).value.pn, Low(perm))))
  }

  // What sys_page_alloc promises
  ghost predicate Alloced(envs: seq<Env>, s: State, o: Own, s': State, o': Own, j: nat, v: nat, p: nat) {
    && j < |envs| && Live(envs[j]) && v < USER_PAGES
    && MappedFresh(envs, s, o, s', o', j, v * PGSIZE, Low(Cow.RW)) && p == o.free[0]
  }

  // What sys_page_unmap promises
  ghost predicate Unmapped(envs: seq<Env>, s: State, s': State, j: nat, v: nat) {
    j < |envs| && Live(envs[j]) && v < USER_PAGES && MapsChangedAt(envs, s, s', j, v * PGSIZE, None)
  }

  ghost predicate OnlySlot(envs: seq<Env>, envs': seq<Env>, i: nat) {
    |envs'| == |envs| && i < |envs| && forall k :: 0 <= k < |envs| && k != i ==> envs'[k] == envs[k]
  }

  /**
   The system call with which the library takes a step has returned: the tables
   (envs, s, o) have become (envs', s', o'), as the contract of that call says. The
   other steps make no call that touches the tables.
   */
  ghost predicate AsPromised(m: Cow.Sys, step: Cow.Step, envs: seq<Env>, s: State, o: Own, envs': seq<Env>, s': State,
                             o': Own)
    requires Cow.Enabled(m, step)
  {
    var e := step.env;
    var prog, fault := m.threads[e].prog, m.threads[e].fault;
    match step
    case DupChild(_) => envs' == envs && Mapped(envs, s, s', e, prog.vpn, prog.child, prog.vpn, Cow.SHARED)
    case DupSelf(_) => envs' == envs && Mapped(envs, s, s', e, prog.vpn, e, prog.vpn, Cow.SHARED)
    case DupReadOnly(_) => envs' == envs && Mapped(envs, s, s', e, prog.vpn, prog.child, prog.vpn, Cow.READ_ONLY)
    case FaultMap(_) => envs' == envs && Mapped(envs, s, s', e, Cow.PFTEMP, e, fault.vpn, Cow.RW)
    case Receive(_, v, x, u, perm) => SameRoots(envs, envs') && Mapped(envs, s, s', x, u, e, v, perm)
    case FaultAlloc(_, p) => envs' == envs && Alloced(envs, s, o, s', o', e, Cow.PFTEMP, p)
    case StackAlloc(_, p) => envs' == envs && Alloced(envs, s, o, s', o', prog.child, Cow.UXSTACK, p)
    case UserAlloc(_, v, p) => envs' == envs && Alloced(envs, s, o, s', o', e, v, p)
    case FaultUnmap(_) => envs' == envs && Unmapped(envs, s, s', e, Cow.PFTEMP)
    case UserUnmap(_, v) => envs' == envs && Unmapped(envs, s, s', e, v)
    case Exofork(_, c) =>
      OnlySlot(envs, envs', c) && !Live(envs[c]) && OthersSame(envs, s, s', c) && NothingMapped(envs', s', c)
    case Exit(_) => OnlySlot(envs, envs', e) && !Live(envs'[e]) && OthersSame(envs, s, s', e)
    case SetRunnable(_) => SameRoots(envs, envs') && s' == s
    case _ => envs' == envs && s' == s
  }

  lemma SameRootsSameFlat(envs: seq<Env>, envs': seq<Env>, s: State)
    requires SameRoots(envs, envs')
    ensures FlatOf(envs', s) == FlatOf(envs, s)
  {
    forall k, w ensures Entry(envs', s, k, w) <==> Entry(envs, s, k, w) {
    }
    SameFlat(FlatOf(envs', s), FlatOf(envs, s));
  }

  lemma MappedIsStep(envs: seq<Env>, s: State, s': State, i: nat, u: nat, j: nat, v: nat, perm: set<Flag>)
    requires Mapped(envs, s, s', i, u, j, v, perm) && P in perm && Cow.Key(i, u) in FlatOf(envs, s)
    ensures FlatOf(envs, s') == FlatOf(envs, s)[Cow.Key(j, v) := Word(FlatOf(envs, s)[Cow.Key(i, u)].pn, perm)]
  {
    hide MapsChangedAt, MapOf;
    PageAddress(v);
    assert perm + {P} == perm;
    LowIsClean(MapOf(envs, s, i, u * PGSIZE).value.pn, perm);
    var w := MapOf(envs, s, i, u * PGSIZE).value;
    assert Has(FlatOf(envs, s), Cow.Key(i, u), FlatOf(envs, s)[Cow.Key(i, u)]);
    MapIsUpdate(envs, s, s', j, v * PGSIZE, Word(w.pn, perm));
  }

  lemma AllocedIsStep(envs: seq<Env>, s: State, o: Own, kern: nat, s': State, o': Own, m: Cow.Sys, j: nat, v: nat,
                      p: nat)
    requires Spaces(envs, s, o, kern) && Alloced(envs, s, o, s', o', j, v, p) && m.pt == FlatOf(envs, s)
    ensures FlatOf(envs, s') == m.pt[Cow.Key(j, v) := Word(p, Cow.RW)] && Cow.FreshPage(m, p)
  {
    hide MapsChangedAt, MapOf, Mappings, FreedAt, Spaces;
    PageAddress(v);
    assert Cow.RW + {P} == Cow.RW;
    AllocIsFresh(envs, s, o, kern, s', o', j, v * PGSIZE, Cow.RW);
    assert Cow.FreshPage(Cow.Sys(m.pt, map[], map[]), p);
  }

  /**
   Whatever system call the library makes for a step of the machine, the kernel's
   tables end up as the machine's map does.
   */
  lemma CallIsStep(m: Cow.Sys, step: Cow.Step, envs: seq<Env>, s: State, o: Own, kern: nat,
                   envs': seq<Env>, s': State, o': Own)
    requires Spaces(envs, s, o, kern) && m.pt == FlatOf(envs, s)
    requires Cow.Enabled(m, step) && AsPromised(m, step, envs, s, o, envs', s', o')
    ensures FlatOf(envs', s') == Cow.Apply(m, step).pt
  {
    hide Mapped, Alloced, Unmapped, Spaces, OthersSame, NothingMapped, OnlySlot, SameRoots;
    var e := step.env;
    var prog, fault := m.threads[e].prog, m.threads[e].fault;
    match step
    case DupChild(_) => MappedIsStep(envs, s, s', e, prog.vpn, prog.child, prog.vpn, Cow.SHARED);
    case DupSelf(_) => MappedIsStep(envs, s, s', e, prog.vpn, e, prog.vpn, Cow.SHARED);
    case DupReadOnly(_) => MappedIsStep(envs, s, s', e, prog.vpn, prog.child, prog.vpn, Cow.READ_ONLY);
    case FaultMap(_) => MappedIsStep(envs, s, s', e, Cow.PFTEMP, e, fault.vpn, Cow.RW);
    case Receive(_, v, x, u, perm) =>
      SameRootsSameFlat(envs, envs', s');
      MappedIsStep(envs, s, s', x, u, e, v, perm);
    case FaultAlloc(_, p) => AllocedIsStep(envs, s, o, kern, s', o', m, e, Cow.PFTEMP, p);
    case StackAlloc(_, p) => AllocedIsStep(envs, s, o, kern, s', o', m, prog.child, Cow.UXSTACK, p);
    case UserAlloc(_, v, p) => AllocedIsStep(envs, s, o, kern, s', o', m, e, v, p);
    case FaultUnmap(_) => UnmappedIsStep(envs, s, s', e, Cow.PFTEMP);
    case UserUnmap(_, v) => UnmappedIsStep(envs, s, s', e, v);
    case Exofork(_, c) => ExoforkIsStep(envs, s, envs', s', c);
    case Exit(_) => ExitIsStep(envs, s, envs', s', e);
    case SetRunnable(_) => SameRootsSameFlat(envs, envs', s);
    case _ =>
  }

  lemma UnmappedIsStep(envs: seq<Env>, s: State, s': State, j: nat, v: nat)
    requires Unmapped(envs, s, s', j, v)
    ensures FlatOf(envs, s') == FlatOf(envs, s) - {Cow.Key(j, v)}
  {
    hide MapsChangedAt, MapOf;
    PageAddress(v);
    UnmapIsRemoval(envs, s, s', j, v * PGSIZE);
  }

  lemma ExoforkIsStep(envs: seq<Env>, s: State, envs': seq<Env>, s': State, c: nat)
    requires OnlySlot(envs, envs', c) && !Live(envs[c]) && OthersSame(envs, s, s', c) && NothingMapped(envs', s', c)
    ensures FlatOf(envs', s') == FlatOf(envs, s)
  {
    ExoforkAddsNothing(envs, s, envs', s', c);
  }

  lemma ExitIsStep(envs: seq<Env>, s: State, envs': seq<Env>, s': State, e: nat)
    requires OnlySlot(envs, envs', e) && !Live(envs'[e]) && OthersSame(envs, s, s', e)
    ensures FlatOf(envs', s') == map k | k in FlatOf(envs, s) && k.env != e :: FlatOf(envs, s)[k]
  {
    ExitDropsItsOwn(envs, s, envs', s', e);
  }
}
