/**
 What the system calls of `kern/syscall.c` keep: the address spaces of the live
 environments as one flat map from (environment, page) to entries, and the
 bookkeeping of ids, IPC and page counts behind it.
 */
module KernelSpec {
  import opened Paging
  import opened Envs
  import opened EnvIds
  import S = PmapSpec
  import V = EnvVm

  const E_BAD_ENV: int := 2
  const E_INVAL: int := 3
  const E_NO_FREE_ENV: int := 5
  const E_IPC_NOT_RECV: int := 7

  // What happened to a slot of `envs`: allocations ever made, receives begun and
  // messages accepted by its present environment.
  datatype Log = Log(allocs: nat, recvs: nat, sent: seq<(int, int)>)

  predicate Live(e: Env) {
    e.status != FREE
  }

  // envid2env
  function Resolve(envs: seq<Env>, cur: nat, envid: int, checkperm: bool): (r: Option<nat>)
    requires |envs| == NENV && cur < NENV
    ensures r.Some? ==> r.value < NENV && (r.value == cur || Live(envs[r.value]))
    // where permission is asked for: the caller itself, or a child of its own
    ensures r.Some? && checkperm && r.value != cur ==> envs[r.value].parent == envs[cur].id
    ensures r.Some? && envid != 0 ==> envs[r.value].id == envid
  {
    if envid == 0 then Some(cur)
    else
      var i := EnvX(envid);
      if envs[i].status == FREE || envs[i].id != envid then None
      else if checkperm && i != cur && envs[i].parent != envs[cur].id then None
      else Some(i)
  }

  ghost predicate EnvOk(i: nat, e: Env, l: Log) {
    && i < NENV && e.id == IdAfter(i, l.allocs)
    && (Live(e) ==> l.allocs > 0 && IpcOk(e, l))
  }

  // Every receive begun has been answered by one accepted send, but for the one
  // still waiting; the mailbox holds the last message accepted.
  ghost predicate IpcOk(e: Env, l: Log) {
    && |l.sent| + (if e.recving then 1 else 0) == l.recvs
    && (l.sent != [] ==> (e.from, e.value) == l.sent[|l.sent| - 1])
    && (e.recving ==> e.status == NOT_RUNNABLE)
  }

  ghost predicate EnvsOk(envs: seq<Env>, logs: seq<Log>) {
    |envs| == |logs| == NENV && forall i :: 0 <= i < NENV ==> EnvOk(i, envs[i], logs[i])
  }

  // An id handed out earlier resolves only while its own environment lives, or
  // after a whole number of id periods.
  lemma StaleIdsRejected(envs: seq<Env>, logs: seq<Log>, cur: nat, i: nat, m: nat, checkperm: bool)
    requires EnvsOk(envs, logs) && cur < NENV && i < NENV && 0 < m <= logs[i].allocs
    ensures Resolve(envs, cur, IdAfter(i, m), checkperm).Some? ==>
              && Resolve(envs, cur, IdAfter(i, m), checkperm) == Some(i)
              && Live(envs[i]) && (logs[i].allocs - m) % PERIOD == 0
    ensures Live(envs[i]) && m == logs[i].allocs ==>
              Resolve(envs, cur, IdAfter(i, m), false) == Some(i)
  {
    hide IdAfter, NextId, Wrap32, IpcOk, EnvX;
    assert EnvOk(i, envs[i], logs[i]);
    IdWellFormed(i, m);
    IdRepeats(i, m, logs[i].allocs);
  }

  // The caller's own, or one of its children
  predicate InHand(envs: seq<Env>, cur: nat, i: nat) {
    i < |envs| && cur < |envs| && (i == cur || envs[i].parent == envs[cur].id)
  }

  // What an id stands for: 0 the caller, any other the live environment that has it;
  // where permission is asked for, only if that one is in the caller's hand.
  ghost predicate StandsFor(envs: seq<Env>, cur: nat, envid: int, checkperm: bool, i: nat) {
    i < |envs| &&
    if envid == 0 then i == cur else Live(envs[i]) && envs[i].id == envid && (checkperm ==> InHand(envs, cur, i))
  }

  lemma SlotOfId(envs: seq<Env>, logs: seq<Log>, i: nat)
    requires EnvsOk(envs, logs) && i < NENV && Live(envs[i])
    ensures envs[i].id > 0 && EnvX(envs[i].id) == i
  {
    hide IdAfter, EnvX, IpcOk;
    assert EnvOk(i, envs[i], logs[i]);
    IdWellFormed(i, logs[i].allocs);
  }

  // envid2env finds all that an id stands for, and nothing else.
  lemma ResolveFinds(envs: seq<Env>, logs: seq<Log>, cur: nat, envid: int, checkperm: bool, i: nat)
    requires EnvsOk(envs, logs) && cur < NENV
    ensures Resolve(envs, cur, envid, checkperm) == Some(i) <==> StandsFor(envs, cur, envid, checkperm, i)
  {
    hide EnvX, EnvOk;
    if i < NENV && Live(envs[i]) { SlotOfId(envs, logs, i); }
  }

  // A live environment is found by its own id, by itself and by its parent, and by
  // everyone where no permission is asked for; id 0 finds the caller.
  lemma OwnIdFound(envs: seq<Env>, logs: seq<Log>, cur: nat, i: nat, checkperm: bool)
    requires EnvsOk(envs, logs) && cur < NENV && i < NENV && Live(envs[i])
    ensures i == cur || envs[i].parent == envs[cur].id || !checkperm ==>
              Resolve(envs, cur, envs[i].id, checkperm) == Some(i)
    ensures i != cur && envs[i].parent != envs[cur].id && checkperm ==>
              Resolve(envs, cur, envs[i].id, checkperm) == None
    ensures Resolve(envs, cur, 0, checkperm) == Some(cur)
  {
    SlotOfId(envs, logs, i);
  }

  // ----- address spaces -----

  ghost predicate Rooted(envs: seq<Env>, i: nat, d: nat) {
    i < |envs| && Live(envs[i]) && envs[i].pgdir == Some(d)
  }

  ghost predicate SpaceOk(s: State, o: Own, e: Env) {
    Live(e) ==> e.pgdir.Some? && S.UserDir(s, o, e.pgdir.value)
  }

  ghost predicate Spaces(envs: seq<Env>, s: State, o: Own, kern: nat) {
    && Inv(s, o) && |envs| == NENV
    && (forall i :: 0 <= i < NENV ==> SpaceOk(s, o, envs[i]))
    && (forall i, j, d :: Rooted(envs, i, d) && Rooted(envs, j, d) ==> i == j)
    && (forall d :: 0 <= d < |o.kind| && o.kind[d].Dir? ==> exists i :: Rooted(envs, i, d))
    && kern < |o.kind| && o.kind[kern].Reserved? && V.DirEmptied(s, kern, USER_PDES)
  }

  // Between system calls no page is in a caller's hands.
  ghost predicate HeldOnly(o: Own, p: Option<nat>) {
    forall q :: 0 <= q < |o.kind| && o.kind[q].Held? ==> p == Some(q)
  }

  // The entry `va` has in the address space of environment `i`
  ghost function MapOf(envs: seq<Env>, s: State, i: nat, va: nat): Option<Word> {
    if i < |envs| && envs[i].pgdir.Some? && envs[i].pgdir.value < |s.frames|
    then S.Translation(s, envs[i].pgdir.value, va) else None
  }

  ghost predicate NothingMapped(envs: seq<Env>, s: State, i: nat) {
    forall va {:trigger MapOf(envs, s, i, va)} :: 0 <= va < UTOP ==> MapOf(envs, s, i, va) == None
  }

  // The same environments live, with the same directories.
  ghost predicate SameRoots(envs: seq<Env>, envs': seq<Env>) {
    |envs'| == |envs| &&
    forall i :: 0 <= i < |envs| ==> (Live(envs'[i]) <==> Live(envs[i])) && envs'[i].pgdir == envs[i].pgdir
  }

  predicate SamePage(va: nat, va': nat) {
    va / PGSIZE == va' / PGSIZE
  }

  // The address spaces differ at most at (j, va), which now has entry `w`.
  ghost predicate MapsChangedAt(envs: seq<Env>, s: State, s': State, j: nat, va: nat, w: Option<Word>) {
    forall i, va' :: 0 <= i < |envs| && Live(envs[i]) && 0 <= va' < UTOP ==>
      MapOf(envs, s', i, va') == if i == j && SamePage(va, va') then w else MapOf(envs, s, i, va')
  }

  ghost predicate MapsSame(envs: seq<Env>, s: State, s': State) {
    forall i, va ::
      0 <= i < |envs| && Live(envs[i]) && 0 <= va < UTOP ==> MapOf(envs, s', i, va) == MapOf(envs, s, i, va)
  }

  lemma SamePageSameSlot(va: nat, va': nat)
    requires va < UTOP && va' < UTOP
    ensures SamePage(va, va') <==> Pdx(va) == Pdx(va') && Ptx(va) == Ptx(va')
  {
    PageOfIndices(va);
    PageOfIndices(va');
  }

  lemma PageOfIndices(va: nat)
    requires va < UTOP
    ensures va / PGSIZE == Pdx(va) * ENTRIES + Ptx(va)
  {
    assert va / PTSIZE == (va / PGSIZE) / ENTRIES;
  }

  lemma MapsChanged(envs: seq<Env>, s: State, o: Own, kern: nat, s': State, j: nat, va: nat, w: Option<Word>)
    requires Spaces(envs, s, o, kern) && j < NENV && Live(envs[j]) && va < UTOP
    requires S.MapUpdated(s, s', o, envs[j].pgdir.value, va, w)
    ensures MapsChangedAt(envs, s, s', j, va, w)
  {
    forall i, va' | 0 <= i < |envs| && Live(envs[i]) && 0 <= va' < UTOP
      ensures MapOf(envs, s', i, va') == if i == j && SamePage(va, va') then w else MapOf(envs, s, i, va')
    {
      assert SpaceOk(s, o, envs[i]) && Rooted(envs, i, envs[i].pgdir.value);
      assert Rooted(envs, j, envs[j].pgdir.value);
      SamePageSameSlot(va, va');
    }
  }

  lemma SpacesKept(envs: seq<Env>, s: State, o: Own, kern: nat, s': State, o': Own)
    requires Spaces(envs, s, o, kern) && Inv(s', o') && SameDirs(o, o') && S.SameContents(s, s', o)
    ensures Spaces(envs, s', o', kern)
  {
    forall i | 0 <= i < NENV ensures SpaceOk(s', o', envs[i]) {
      assert SpaceOk(s, o, envs[i]);
    }
    forall d | 0 <= d < |o'.kind| && o'.kind[d].Dir? ensures exists i :: Rooted(envs, i, d) {
      assert o.kind[d].Dir?;
    }
  }

  // Following env_link from `head` visits exactly `slots` and then stops.
  ghost predicate SlotChain(envs: seq<Env>, head: Option<nat>, slots: seq<nat>)
    decreases |slots|
  {
    if slots == [] then head == None
    else head == Some(slots[0]) && slots[0] < |envs| && SlotChain(envs, envs[slots[0]].link, slots[1..])
  }

  // The free list holds every free slot once.
  ghost predicate SlotsOk(envs: seq<Env>, head: Option<nat>, slots: seq<nat>) {
    && SlotChain(envs, head, slots)
    && (forall i, j :: 0 <= i < j < |slots| ==> slots[i] != slots[j])
    && (forall i: nat :: i in slots <==> i < |envs| && !Live(envs[i]))
  }

  lemma {:induction false} SlotChainFrame(envs: seq<Env>, head: Option<nat>, slots: seq<nat>, i: nat, e: Env)
    requires SlotChain(envs, head, slots) && i < |envs| && i !in slots
    ensures SlotChain(envs[i := e], head, slots)
    decreases |slots|
  {
    if slots != [] {
      assert slots[0] in slots;
      SlotChainFrame(envs, envs[slots[0]].link, slots[1..], i, e);
    }
  }

  // ----- what pp_ref counts -----

  const USER_PAGES: nat := USER_PDES * ENTRIES   // UTOP / PGSIZE

  ghost predicate MapsPage(envs: seq<Env>, s: State, i: nat, n: nat, p: nat) {
    && i < |envs| && Live(envs[i]) && n < USER_PAGES
    && MapOf(envs, s, i, n * PGSIZE).Some? && MapOf(envs, s, i, n * PGSIZE).value.pn == p
  }

  // The (environment, virtual page) pairs that map page `p`
  ghost function Mappings(envs: seq<Env>, s: State, p: nat): (ms: set<(nat, nat)>)
    ensures forall i: nat, n: nat :: (i, n) in ms <==> MapsPage(envs, s, i, n, p)
  {
    set i, n | 0 <= i < |envs| && 0 <= n < USER_PAGES && MapsPage(envs, s, i, n, p) :: (i, n)
  }

  ghost function PteOf(envs: seq<Env>, s: State, m: (nat, nat)): Slot {
    if m.0 < |envs| && envs[m.0].pgdir.Some? && envs[m.0].pgdir.value < |s.frames|
    then Entry(s.frames[envs[m.0].pgdir.value][Pdx(m.1 * PGSIZE)].pn, Ptx(m.1 * PGSIZE))
    else Root(0)
  }

  // A function that matches up two finite sets shows they have the same size.
  lemma {:induction false} SameSize<X, Y>(xs: set<X>, ys: set<Y>, f: X -> Y)
    requires forall x :: x in xs ==> f(x) in ys
    requires forall x, x' :: x in xs && x' in xs && f(x) == f(x') ==> x == x'
    requires forall y :: y in ys ==> exists x :: x in xs && f(x) == y
    ensures |xs| == |ys|
  {
    if xs == {} {
      assert ys == {};
    } else {
      var x :| x in xs;
      forall y | y in ys - {f(x)} ensures exists x' :: x' in xs - {x} && f(x') == y {
        var x' :| x' in xs && f(x') == y;
      }
      SameSize(xs - {x}, ys - {f(x)}, f);
    }
  }

  lemma PageIndices(n: nat)
    requires n < USER_PAGES
    ensures n * PGSIZE < UTOP && Pdx(n * PGSIZE) == n / ENTRIES < USER_PDES && Ptx(n * PGSIZE) == n % ENTRIES
  {
    PageOfIndices(n * PGSIZE);
    UserPdx(n * PGSIZE);
  }

  // A mapping of `p` sits in a PTE that names `p`, and in no other mapping's PTE.
  lemma MappingHasPte(envs: seq<Env>, s: State, o: Own, kern: nat, i: nat, n: nat, p: nat)
    requires Spaces(envs, s, o, kern) && MapsPage(envs, s, i, n, p)
    ensures PteOf(envs, s, (i, n)) in Refs(s.frames, o.kind, p)
    ensures var t := PteOf(envs, s, (i, n));
            t.Entry? && t.frame < |o.kind| && o.kind[t.frame] == Table(envs[i].pgdir.value, n / ENTRIES)
              && t.index == n % ENTRIES
  {
    PageIndices(n);
    assert SpaceOk(s, o, envs[i]);
  }

  lemma OneMappingPerPte(envs: seq<Env>, s: State, o: Own, kern: nat, m: (nat, nat), m': (nat, nat), p: nat)
    requires Spaces(envs, s, o, kern) && MapsPage(envs, s, m.0, m.1, p) && MapsPage(envs, s, m'.0, m'.1, p)
    requires PteOf(envs, s, m) == PteOf(envs, s, m')
    ensures m == m'
  {
    MappingHasPte(envs, s, o, kern, m.0, m.1, p);
    MappingHasPte(envs, s, o, kern, m'.0, m'.1, p);
    assert Rooted(envs, m.0, envs[m.0].pgdir.value) && Rooted(envs, m'.0, envs[m'.0].pgdir.value);
  }

  // A PTE that names `p` is some live environment's mapping of `p`.
  lemma PteHasMapping(envs: seq<Env>, s: State, o: Own, kern: nat, r: Slot, p: nat) returns (i: nat, n: nat)
    requires Spaces(envs, s, o, kern) && p < |o.kind| && o.kind[p].Data? && r in Refs(s.frames, o.kind, p)
    ensures MapsPage(envs, s, i, n, p) && PteOf(envs, s, (i, n)) == r
  {
    assert Names(s.frames, o.kind, r, p);
    var t, k := r.frame, r.index;
    assert TableNamed(s.frames, o.kind, t);
    var d, x := o.kind[t].dir, o.kind[t].index;
    assert o.kind[d].Dir?;
    i :| Rooted(envs, i, d);
    n := x * ENTRIES + k;
    PageIndices(n);
  }

  /**
   The count of a data page is the number of places live environments map it, plus
   the number of sys_page_alloc calls that took it.
   */
  lemma CountIsMappings(envs: seq<Env>, s: State, o: Own, kern: nat, p: nat)
    requires Spaces(envs, s, o, kern) && p < |s.pages| && o.kind[p].Data?
    ensures s.pages[p].ref == |Mappings(envs, s, p)| + o.surplus[p]
  {
    assert CountOk(s, o, p);
    var ms, rs, f := Mappings(envs, s, p), Refs(s.frames, o.kind, p), (m: (nat, nat)) => PteOf(envs, s, m);
    forall m | m in ms ensures f(m) in rs {
      MappingHasPte(envs, s, o, kern, m.0, m.1, p);
    }
    forall m, m' | m in ms && m' in ms && f(m) == f(m') ensures m == m' {
      OneMappingPerPte(envs, s, o, kern, m, m', p);
    }
    forall r | r in rs ensures exists m :: m in ms && f(m) == r {
      var i, n := PteHasMapping(envs, s, o, kern, r, p);
      assert (i, n) in ms && f((i, n)) == r;
    }
    SameSize(ms, rs, f);
  }

  // A page some live environment maps is never on the free list.
  lemma MappedIsNotFree(envs: seq<Env>, s: State, o: Own, kern: nat, i: nat, va: nat)
    requires Spaces(envs, s, o, kern) && i < NENV && Live(envs[i]) && va < UTOP && MapOf(envs, s, i, va).Some?
    ensures var p := MapOf(envs, s, i, va).value.pn;
            p < |s.pages| && o.kind[p] == Data && p !in o.free && s.pages[p].ref > o.surplus[p]
  {
    UserPdx(va);
    assert SpaceOk(s, o, envs[i]);
    var p := MapOf(envs, s, i, va).value.pn;
    assert CountOk(s, o, p);
    assert Entry(s.frames[envs[i].pgdir.value][Pdx(va)].pn, Ptx(va)) in Refs(s.frames, o.kind, p);
  }

  // ----- what the page system calls do to the address spaces -----

  // (j, va) is the only mapping of `q`, and no sys_page_alloc ever took it.
  ghost predicate OnlyMapping(envs: seq<Env>, s: State, o: Own, j: nat, va: nat, q: nat) {
    Mappings(envs, s, q) == {(j, va / PGSIZE)} && q < |o.surplus| && o.surplus[q] == 0
  }

  // Other than `keep`, the pages given back are those (j, va) alone still mapped.
  ghost predicate FreedAt(envs: seq<Env>, s: State, o: Own, o': Own, j: nat, va: nat, keep: Option<nat>) {
    forall q :: 0 <= q < |o.kind| && q !in o.free && keep != Some(q) ==>
      (q in o'.free <==> OnlyMapping(envs, s, o, j, va, q))
  }

  lemma LastCountIsOnlyMapping(envs: seq<Env>, s: State, o: Own, kern: nat, j: nat, va: nat, q: nat)
    requires Spaces(envs, s, o, kern) && j < NENV && Live(envs[j]) && va < UTOP && q < |o.kind|
    ensures S.LastCount(s, MapOf(envs, s, j, va), q) <==> OnlyMapping(envs, s, o, j, va, q)
  {
    var n := va / PGSIZE;
    PageIndices(n);
    SamePageSameSlot(va, n * PGSIZE);
    assert MapOf(envs, s, j, n * PGSIZE) == MapOf(envs, s, j, va);
    var ms := Mappings(envs, s, q);
    if (j, n) in ms {
      MappedIsNotFree(envs, s, o, kern, j, va);
      CountIsMappings(envs, s, o, kern, q);
      assert |ms - {(j, n)}| == |ms| - 1;
      assert ms == {(j, n)} <==> ms - {(j, n)} == {};
    }
  }

  lemma Unexplained(envs: seq<Env>, s: State, o: Own, kern: nat)
    requires !Explained(s, o)
    ensures !Spaces(envs, s, o, kern)
  {
    assert SameDirs(o, o);
  }

  lemma AfterInsert(envs: seq<Env>, s: State, o: Own, kern: nat, s': State, o': Own, j: nat, p: nat, va: nat,
                    perm: Perm)
    requires Spaces(envs, s, o, kern) && HeldOnly(o, Some(p)) && j < NENV && Live(envs[j]) && va < UTOP
    requires S.UserDir(s, o, envs[j].pgdir.value) && p < |o.kind| && !o.kind[p].Free?
    requires S.Inserted(s, o, s', o', envs[j].pgdir.value, p, va, perm)
    ensures if Clean(p, perm) then Spaces(envs, s', o', kern) else !Explained(s', o') && !Spaces(envs, s', o', kern)
    ensures MapsChangedAt(envs, s, s', j, va, Some(Stored(p, perm))) && HeldOnly(o', None)
    ensures FreedAt(envs, s, o, o', j, va, Some(p)) && p !in o'.free && S.SameContents(s, s', o)
  {
    if Clean(p, perm) { SpacesKept(envs, s, o, kern, s', o'); } else { Unexplained(envs, s', o', kern); }
    MapsChanged(envs, s, o, kern, s', j, va, Some(Stored(p, perm)));
    forall q | 0 <= q < |o.kind| && q !in o.free && q != p
      ensures q in o'.free <==> OnlyMapping(envs, s, o, j, va, q)
    {
      LastCountIsOnlyMapping(envs, s, o, kern, j, va, q);
    }
  }

  lemma AfterRemove(envs: seq<Env>, s: State, o: Own, kern: nat, s': State, o': Own, j: nat, va: nat)
    requires Spaces(envs, s, o, kern) && HeldOnly(o, None) && j < NENV && Live(envs[j]) && va < UTOP
    requires S.UserDir(s, o, envs[j].pgdir.value)
    requires S.Removed(s, o, s', o', envs[j].pgdir.value, va)
    ensures Spaces(envs, s', o', kern) && HeldOnly(o', None)
    ensures MapsChangedAt(envs, s, s', j, va, None)
    ensures FreedAt(envs, s, o, o', j, va, None) && S.SameContents(s, s', o)
  {
    RemovedContents(s, o, s', o', envs[j].pgdir.value, va);
    SpacesKept(envs, s, o, kern, s', o');
    MapsChanged(envs, s, o, kern, s', j, va, None);
    forall q | 0 <= q < |o.kind| && q !in o.free
      ensures q in o'.free <==> OnlyMapping(envs, s, o, j, va, q)
    {
      LastCountIsOnlyMapping(envs, s, o, kern, j, va, q);
    }
  }

  lemma RemovedContents(s: State, o: Own, s': State, o': Own, d: nat, va: nat)
    requires Inv(s, o) && d < |s.frames| && S.Removed(s, o, s', o', d, va)
    ensures Sized(s, o) && S.SameContents(s, s', o)
  {
  }

  // No count is about to leave the sixteen bits of pp_ref.
  ghost predicate Room(s: State) {
    forall p :: 0 <= p < |s.pages| ==> s.pages[p].ref < REF_MOD - 2
  }

  lemma RoomIsRoom(s: State)
    requires Room(s)
    ensures S.HasRoom(s)
  {
  }

  lemma RoomLeft(s: State, p: nat)
    requires S.Ready(s) && Room(s) && s.head == Some(p)
    ensures S.HasRoom(s) && S.HasRoom(S.IncRefState(S.PageAlloc(s, true).0, p))
  {
  }

  // What page_alloc(ALLOC_ZERO) and pp_ref++ leave: `p` is ours, zeroed and mapped
  // nowhere, and every address space is as before.
  ghost predicate Taken(envs: seq<Env>, s: State, o: Own, s1: State, o1: Own, p: nat) {
    && HeldOnly(o1, Some(p)) && MapsSame(envs, s, s1) && p < |o.kind| == |o1.kind| && p < |s1.frames|
    && o.free == [p] + o1.free && o1.kind == o.kind[p := Held] && |o.surplus| == |o.kind|
    && o1.surplus == o.surplus[p := o.surplus[p] + 1]
    && s1.frames[p] == ZeroFrame() && |s1.frames| == |s.frames|
    && (forall f :: 0 <= f < |s.frames| && f != p ==> s1.frames[f] == s.frames[f])
  }

  lemma TakePage(envs: seq<Env>, s: State, o: Own, kern: nat)
    requires Spaces(envs, s, o, kern) && HeldOnly(o, None) && s.head.Some? && S.HasRoom(s)
    ensures S.Ready(s) && s.head.value < |o.kind| && o.free != [] && o.free[0] == s.head.value
    ensures var p, o1 := s.head.value, AddSurplus(TakeFreeOwn(o), s.head.value);
            var s1 := S.IncRefState(S.PageAlloc(s, true).0, p);
            Spaces(envs, s1, o1, kern) && Taken(envs, s, o, s1, o1, p)
  {
    TakeHead(s, o);
    var p := s.head.value;
    var s0, o0 := TakeFree(s), TakeFreeOwn(o);
    WriteUntracked(s0, o0, p, ZeroFrame());
    IncRef(S.SetFrame(s0, p, ZeroFrame()), o0, p);
    var s1, o1 := S.IncRefState(S.PageAlloc(s, true).0, p), AddSurplus(o0, p);
    SpacesKept(envs, s, o, kern, s1, o1);
    forall i, va | 0 <= i < |envs| && Live(envs[i]) && 0 <= va < UTOP
      ensures MapOf(envs, s1, i, va) == MapOf(envs, s, i, va)
    {
      assert SpaceOk(s, o, envs[i]);
      UserPdx(va);
    }
  }

  // page_free of a page taken and not used
  lemma GiveBack(envs: seq<Env>, s: State, o: Own, kern: nat, p: nat)
    requires Spaces(envs, s, o, kern) && HeldOnly(o, Some(p)) && p < |o.kind| && o.kind[p].Held?
    ensures Spaces(envs, PushFree(s, p), PushFreeOwn(o, p), kern) && HeldOnly(PushFreeOwn(o, p), None)
  {
    PushUnreferenced(s, o, p);
    SpacesKept(envs, s, o, kern, PushFree(s, p), PushFreeOwn(o, p));
  }

  // The first free page, zeroed, is now the entry at (j, va), and mapped just there.
  ghost predicate MappedFresh(envs: seq<Env>, s: State, o: Own, s': State, o': Own, j: nat, va: nat, perm: Perm) {
    && o.free != [] && o.free[0] < |s'.frames| && s'.frames[o.free[0]] == ZeroFrame()
    && MapsChangedAt(envs, s, s', j, va, Some(Stored(o.free[0], perm)))
    && (Clean(o.free[0], perm) ==> Mappings(envs, s', o.free[0]) == {(j, va / PGSIZE)})
    && FreedAt(envs, s, o, o', j, va, Some(o.free[0]))
  }

  // A page taken from the allocator and mapped once is mapped just there.
  lemma TakenThenMapped(envs: seq<Env>, s: State, o: Own, kern: nat, s1: State, o1: Own, s2: State, o2: Own,
                        j: nat, p: nat, va: nat, perm: Perm)
    requires Spaces(envs, s, o, kern) && Taken(envs, s, o, s1, o1, p) && j < NENV && Live(envs[j]) && va < UTOP
    requires MapsChangedAt(envs, s1, s2, j, va, Some(Stored(p, perm))) && FreedAt(envs, s1, o1, o2, j, va, Some(p))
    requires p < |s2.frames| && s2.frames[p] == s1.frames[p] && S.SameContents(s1, s2, o1)
    ensures MappedFresh(envs, s, o, s2, o2, j, va, perm) && S.SameContents(s, s2, o)
  {
    ContentsAfterTaking(envs, s, o, s1, o1, kern, p, s2);
    forall q | 0 <= q < |o.kind| && q !in o.free && q != p
      ensures q in o2.free <==> OnlyMapping(envs, s, o, j, va, q)
    {
      SameMappingsOf(envs, s, s1, q);
    }
    forall i: nat, n: nat | Clean(p, perm)
      ensures (i, n) in Mappings(envs, s2, p) <==> (i, n) == (j, va / PGSIZE)
    {
      FreshMapping(envs, s, o, kern, s2, j, p, va, Stored(p, perm), i, n);
    }
  }

  // What sys_page_alloc's doubled pp_ref++ adds to the count of the page it takes
  ghost function OneMoreTaken(taken: seq<nat>, free: seq<nat>): seq<nat> {
    if free != [] && free[0] < |taken| then taken[free[0] := taken[free[0]] + 1] else taken
  }

  // The page taken was free, so no contents in use are lost with it.
  lemma ContentsAfterTaking(envs: seq<Env>, s: State, o: Own, s1: State, o1: Own, kern: nat, p: nat, s2: State)
    requires Spaces(envs, s, o, kern) && Taken(envs, s, o, s1, o1, p) && S.SameContents(s1, s2, o1)
    ensures S.SameContents(s, s2, o)
  {
    assert p in o.free;
  }

  lemma FreshMapping(envs: seq<Env>, s: State, o: Own, kern: nat, s2: State,
                     j: nat, p: nat, va: nat, w: Word, i: nat, n: nat)
    requires Spaces(envs, s, o, kern) && p in o.free && j < NENV && Live(envs[j]) && va < UTOP
    requires MapsChangedAt(envs, s, s2, j, va, Some(w)) && w.pn == p
    ensures MapsPage(envs, s2, i, n, p) <==> (i, n) == (j, va / PGSIZE)
  {
    if n < USER_PAGES { PageIndices(n); }
    if MapsPage(envs, s, i, n, p) { MappedIsNotFree(envs, s, o, kern, i, n * PGSIZE); }
  }

  lemma SameMappingsOf(envs: seq<Env>, s: State, s1: State, q: nat)
    requires MapsSame(envs, s, s1)
    ensures Mappings(envs, s, q) == Mappings(envs, s1, q)
  {
    forall i: nat, n: nat ensures (i, n) in Mappings(envs, s, q) <==> (i, n) in Mappings(envs, s1, q) {
      if n < USER_PAGES { PageIndices(n); }
    }
  }

  // ----- results -----

  // Page tables that mapping `va` in the space rooted at `d` has to allocate
  ghost function TablesNeeded(s: State, d: nat, va: nat): nat
    requires d < |s.frames|
  {
    if s.frames[d][Pdx(va)].Present() then 0 else 1
  }

  ghost function TablesNeededBy(s: State, e: Env, va: nat): nat {
    if e.pgdir.Some? && e.pgdir.value < |s.frames| then TablesNeeded(s, e.pgdir.value, va) else 0
  }

  // page_insert's result at (e, va)
  ghost function InsertResult(s: State, o: Own, e: Env, va: nat): int {
    if |o.free| < TablesNeededBy(s, e, va) then -S.E_NO_MEM else 0
  }

  ghost function MapFreshResult(s: State, o: Own, e: Env, va: nat): int {
    if |o.free| < 1 + TablesNeededBy(s, e, va) then -S.E_NO_MEM else 0
  }

  ghost function PageAllocResult(envs: seq<Env>, s: State, o: Own, cur: nat, envid: int, va: nat, perm: Perm): int
    requires |envs| == NENV && cur < NENV
  {
    var e := Resolve(envs, cur, envid, true);
    if e.None? then -E_BAD_ENV
    else if va >= UTOP || !({P, U} <= perm.flags) then -E_INVAL
    else MapFreshResult(s, o, envs[e.value], va)
  }

  ghost function PageMapResult(envs: seq<Env>, s: State, o: Own, cur: nat,
                               src: int, srcva: nat, dst: int, dstva: nat, perm: Perm): int
    requires |envs| == NENV && cur < NENV
  {
    var se, de := Resolve(envs, cur, src, true), Resolve(envs, cur, dst, true);
    if se.None? || de.None? then -E_BAD_ENV
    else if srcva >= UTOP || dstva >= UTOP || srcva % PGSIZE != 0 || dstva % PGSIZE != 0 then -E_INVAL
    else if MapOf(envs, s, se.value, srcva).None? || !({P, U} <= perm.flags) then -E_INVAL
    else if W in perm.flags && W !in MapOf(envs, s, se.value, srcva).value.flags then -E_INVAL
    else InsertResult(s, o, envs[de.value], dstva)
  }

  ghost function PageUnmapResult(envs: seq<Env>, cur: nat, envid: int, va: nat): int
    requires |envs| == NENV && cur < NENV
  {
    if va >= UTOP || va % PGSIZE != 0 then -E_INVAL
    else if Resolve(envs, cur, envid, true).None? then -E_BAD_ENV
    else 0
  }

  // Past their checks the page calls fail for want of memory alone; and a page its
  // holder cannot write is not made writable.
  lemma PageCallsCheck(envs: seq<Env>, s: State, o: Own, cur: nat, src: int, srcva: nat, dst: int, dstva: nat,
                       perm: Perm)
    requires |envs| == NENV && cur < NENV
    ensures PageAllocResult(envs, s, o, cur, dst, dstva, perm) in {0, -S.E_NO_MEM} <==>
              Resolve(envs, cur, dst, true).Some? && dstva < UTOP && P in perm.flags && U in perm.flags
    ensures PageMapResult(envs, s, o, cur, src, srcva, dst, dstva, perm) in {0, -S.E_NO_MEM} <==>
              && Resolve(envs, cur, src, true).Some? && Resolve(envs, cur, dst, true).Some?
              && srcva < UTOP && dstva < UTOP && srcva % PGSIZE == 0 && dstva % PGSIZE == 0
              && P in perm.flags && U in perm.flags
              && var w := MapOf(envs, s, Resolve(envs, cur, src, true).value, srcva);
                 w.Some? && (W in perm.flags ==> W in w.value.flags)
    ensures PageUnmapResult(envs, cur, dst, dstva) == 0 <==>
              Resolve(envs, cur, dst, true).Some? && dstva < UTOP && dstva % PGSIZE == 0
  {
  }

  // Whether page_insert still finds a page for the page table it needs
  lemma ResultAfterTaking(envs: seq<Env>, s: State, o: Own, s1: State, o1: Own, kern: nat, p: nat, j: nat, va: nat)
    requires Spaces(envs, s, o, kern) && Taken(envs, s, o, s1, o1, p) && j < NENV && Live(envs[j])
    ensures InsertResult(s1, o1, envs[j], va) == MapFreshResult(s, o, envs[j], va)
  {
    assert SpaceOk(s, o, envs[j]);
    assert p in o.free;
  }

  // ----- IPC -----

  // A page goes along when the sender offers one and the receiver asked for one.
  predicate SendsPage(e: Env, srcva: nat) {
    srcva < UTOP && e.dstva < UTOP
  }

  ghost function TransferResult(envs: seq<Env>, s: State, o: Own, cur: nat, e: nat, srcva: nat, perm: Perm): int
    requires e < |envs|
  {
    if srcva >= UTOP then 0
    else
      var w := MapOf(envs, s, cur, srcva);
      if w.None? || !Covers(w.value, perm) || srcva % PGSIZE != 0 then -E_INVAL
      else if envs[e].dstva < UTOP then InsertResult(s, o, envs[e], envs[e].dstva)
      else 0
  }

  // The receiver maps the sender's page where it asked for it.
  ghost predicate Transferred(envs: seq<Env>, s: State, s': State, cur: nat, e: nat, srcva: nat, perm: Perm)
    requires e < |envs|
  {
    if SendsPage(envs[e], srcva) then
      var w := MapOf(envs, s, cur, srcva);
      w.Some? && MapsChangedAt(envs, s, s', e, envs[e].dstva, Some(Stored(w.value.pn, perm)))
    else s' == s
  }

  ghost function SendResult(envs: seq<Env>, s: State, o: Own, cur: nat, envid: int, srcva: nat, perm: Perm): int
    requires |envs| == NENV && cur < NENV
  {
    var e := Resolve(envs, cur, envid, false);
    if e.None? then -E_BAD_ENV
    else if !envs[e.value].recving then -E_IPC_NOT_RECV
    else TransferResult(envs, s, o, cur, e.value, srcva, perm)
  }

  // A send gets past its checks exactly when the target is waiting and the page, if one
  // is offered, is mapped and aligned and has all of `perm`.
  lemma SendChecks(envs: seq<Env>, s: State, o: Own, cur: nat, envid: int, srcva: nat, perm: Perm)
    requires |envs| == NENV && cur < NENV
    ensures SendResult(envs, s, o, cur, envid, srcva, perm) in {0, -S.E_NO_MEM} <==>
              && Resolve(envs, cur, envid, false).Some? && envs[Resolve(envs, cur, envid, false).value].recving
              && (srcva < UTOP ==>
                    var w := MapOf(envs, s, cur, srcva);
                    w.Some? && perm.flags <= w.value.flags && Clean(w.value.pn, perm) && srcva % PGSIZE == 0)
  {
  }

  // The receiver once the message is in
  function Delivered(e: Env, from: int, value: int, srcva: nat, perm: Perm): Env {
    e.(recving := false, from := from, value := value, status := RUNNABLE, tf := e.tf.(eax := 0),
       perm := if SendsPage(e, srcva) then perm else e.perm)
  }

  // The receiver has the message and goes on, with a zero result of its sys_ipc_recv.
  ghost predicate Received(was: Env, e: Env, from: int, value: int) {
    && !e.recving && e.status == RUNNABLE && e.from == from && e.value == value && e.tf.eax == 0
    && SameButEax(e.tf, was.tf) && e.id == was.id && e.parent == was.parent && e.pgdir == was.pgdir
    && e.upcall == was.upcall && e.dstva == was.dstva && e.pr == was.pr && e.runs == was.runs
  }

  predicate SameButEax(a: Trapframe, b: Trapframe) {
    && a.regs == b.regs && a.eip == b.eip && a.eflags == b.eflags && a.esp == b.esp
    && a.cs == b.cs && a.ds == b.ds && a.es == b.es && a.ss == b.ss
  }

  function LogSent(l: Log, from: int, value: int): Log {
    l.(sent := l.sent + [(from, value)])
  }

  // ----- changes to one slot -----

  // A change to a live environment's other fields disturbs no address space and no
  // free list.
  lemma UpdateLive(envs: seq<Env>, logs: seq<Log>, s: State, o: Own, kern: nat, head: Option<nat>, slots: seq<nat>,
                   i: nat, e: Env, l: Log)
    requires Spaces(envs, s, o, kern) && |logs| == NENV && SlotsOk(envs, head, slots)
    requires i < NENV && Live(envs[i]) && Live(e) && e.pgdir == envs[i].pgdir
    ensures Spaces(envs[i := e], s, o, kern) && SlotsOk(envs[i := e], head, slots)
    ensures EnvsOk(envs, logs) ==> (EnvsOk(envs[i := e], logs[i := l]) <==> EnvOk(i, e, l))
    ensures NothingMapped(envs, s, i) ==> NothingMapped(envs[i := e], s, i)
  {
    var envs' := envs[i := e];
    assert forall va: nat :: MapOf(envs', s, i, va) == MapOf(envs, s, i, va);
    SlotChainFrame(envs, head, slots, i, e);
    forall k | 0 <= k < NENV ensures SpaceOk(s, o, envs'[k]) {
      assert SpaceOk(s, o, envs[k]);
    }
    forall k: nat, d ensures Rooted(envs', k, d) <==> Rooted(envs, k, d) {
    }
    if EnvsOk(envs', logs[i := l]) {
      assert EnvOk(i, envs'[i], logs[i := l][i]);
    }
  }

  // ----- environments coming and going -----

  // The environment env_alloc leaves in slot `i`
  function NewEnv(i: nat, was: Env, parent: int, pgdir: nat): Env
    requires i < NENV
  {
    was.(id := NextId(was.id, i), parent := parent, status := RUNNABLE, pgdir := Some(pgdir),
         tf := FRESH_TF, upcall := 0, recving := false, ty := ENV_TYPE_USER, runs := 0)
  }

  // ... and sys_exofork: the caller's registers, but a zero result
  function ForkedEnv(i: nat, was: Env, caller: Env, pgdir: nat): Env
    requires i < NENV
  {
    NewEnv(i, was, caller.id, pgdir).(status := NOT_RUNNABLE, tf := caller.tf.(eax := 0))
  }

  // Both have this parent, no fault handler, no message to wait for and never ran.
  predicate AsNew(e: Env, parent: int) {
    e.parent == parent && e.upcall == 0 && !e.recving && e.runs == 0 && e.ty == ENV_TYPE_USER
  }

  function NewLog(was: Log): Log {
    Log(was.allocs + 1, 0, [])
  }

  // What env_free leaves of it
  function GoneEnv(was: Env, head: Option<nat>): Env {
    was.(status := FREE, pgdir := None, link := head)
  }

  // The address spaces of all live environments but `but` are as before.
  ghost predicate OthersSame(envs: seq<Env>, s: State, s': State, but: nat) {
    forall i, va :: 0 <= i < |envs| && Live(envs[i]) && i != but && 0 <= va < UTOP ==>
      MapOf(envs, s', i, va) == MapOf(envs, s, i, va)
  }

  lemma NewSpace(envs: seq<Env>, s: State, o: Own, kern: nat, s': State, o': Own, i: nat, e: Env, d: nat)
    requires Spaces(envs, s, o, kern) && HeldOnly(o, None) && V.SetUp(s, o, s', o', d)
    requires i < NENV && !Live(envs[i]) && Live(e) && e.pgdir == Some(d)
    ensures Spaces(envs[i := e], s', o', kern) && HeldOnly(o', None)
    ensures OthersSame(envs, s, s', i) && S.SameContents(s, s', o)
    ensures NothingMapped(envs[i := e], s', i)
  {
    var envs' := envs[i := e];
    forall k | 0 <= k < NENV ensures SpaceOk(s', o', envs'[k]) {
      assert SpaceOk(s, o, envs[k]);
    }
    forall k: nat, x ensures Rooted(envs', k, x) <==> (if k == i then x == d else Rooted(envs, k, x)) {
    }
    forall k: nat ensures !Rooted(envs, k, d) {
      if k < NENV { assert SpaceOk(s, o, envs[k]); }
    }
    forall x | 0 <= x < |o'.kind| && o'.kind[x].Dir? ensures exists k :: Rooted(envs', k, x) {
      if x == d { assert Rooted(envs', i, d); }
      else { var k :| Rooted(envs, k, x); assert Rooted(envs', k, x); }
    }
    forall k, va | 0 <= k < |envs| && Live(envs[k]) && k != i && 0 <= va < UTOP
      ensures MapOf(envs, s', k, va) == MapOf(envs, s, k, va)
    {
      assert SpaceOk(s, o, envs[k]);
    }
  }

  lemma NewEnvOk(envs: seq<Env>, logs: seq<Log>, i: nat, parent: int, d: nat)
    requires EnvsOk(envs, logs) && i < NENV
    ensures EnvsOk(envs[i := NewEnv(i, envs[i], parent, d)], logs[i := NewLog(logs[i])])
  {
    assert EnvOk(i, envs[i], logs[i]);
    assert EnvOk(i, NewEnv(i, envs[i], parent, d), NewLog(logs[i]));
  }

  lemma GoneEnvOk(envs: seq<Env>, logs: seq<Log>, i: nat, head: Option<nat>)
    requires EnvsOk(envs, logs) && i < NENV
    ensures EnvsOk(envs[i := GoneEnv(envs[i], head)], logs)
  {
    assert EnvOk(i, envs[i], logs[i]);
  }

  // The pieces of Spaces that the paging layer asks for
  lemma SpacesParts(envs: seq<Env>, s: State, o: Own, kern: nat)
    requires Spaces(envs, s, o, kern)
    ensures Inv(s, o) && |envs| == NENV && (o.free == [] <==> s.head.None?)
            && (o.free != [] ==> s.head == Some(o.free[0]))
    ensures kern < |o.kind| && o.kind[kern].Reserved? && V.DirEmptied(s, kern, USER_PDES)
    ensures forall i :: 0 <= i < NENV && Live(envs[i]) ==>
              Rooted(envs, i, envs[i].pgdir.value) && S.UserDir(s, o, envs[i].pgdir.value)
  {
    forall i | 0 <= i < NENV && Live(envs[i])
      ensures Rooted(envs, i, envs[i].pgdir.value) && S.UserDir(s, o, envs[i].pgdir.value)
    {
      assert SpaceOk(s, o, envs[i]);
    }
  }

  lemma SpaceGone(envs: seq<Env>, s: State, o: Own, kern: nat, s': State, o': Own, i: nat, e: Env, d: nat)
    requires Spaces(envs, s, o, kern) && HeldOnly(o, None) && Sized(s', o') && V.Freed(s, o, s', o', d)
    requires i < NENV && Rooted(envs, i, d) && !Live(e)
    ensures Spaces(envs[i := e], s', o', kern) && HeldOnly(o', None)
    ensures OthersSame(envs, s, s', i)
    ensures ReturnedAtExit(envs[i := e], s', o, o') && S.SameContents(s, s', o)
  {
    var envs' := envs[i := e];
    SpaceGoneKept(envs, s, o, kern, s', o', i, e, d);
    forall q | 0 <= q < |o.kind| && o.kind[q].Data?
      ensures q in o'.free <==> Mappings(envs', s', q) == {} && o'.surplus[q] == 0
    {
      UnmappedAndUncounted(envs', s', o', kern, q);
    }
  }

  // A page in use stays in use exactly as long as someone maps it, or a
  // sys_page_alloc took it.
  ghost predicate ReturnedAtExit(envs: seq<Env>, s': State, o: Own, o': Own) {
    forall q :: 0 <= q < |o.kind| && o.kind[q].Data? ==>
      q < |o'.surplus| && (q in o'.free <==> Mappings(envs, s', q) == {} && o'.surplus[q] == 0)
  }

  lemma UnmappedAndUncounted(envs: seq<Env>, s: State, o: Own, kern: nat, q: nat)
    requires Spaces(envs, s, o, kern) && q < |o.kind| && (o.kind[q].Data? || (o.kind[q].Free? && o.surplus[q] == 0))
    ensures q in o.free <==> Mappings(envs, s, q) == {} && o.surplus[q] == 0
  {
    if o.kind[q].Data? {
      assert CountOk(s, o, q);
      CountIsMappings(envs, s, o, kern, q);
    } else {
      forall i: nat, n: nat ensures !MapsPage(envs, s, i, n, q) {
        if MapsPage(envs, s, i, n, q) {
          PageIndices(n);
          MappedIsNotFree(envs, s, o, kern, i, n * PGSIZE);
        }
      }
      assert Mappings(envs, s, q) == {};
    }
  }

  lemma SpaceGoneKept(envs: seq<Env>, s: State, o: Own, kern: nat, s': State, o': Own, i: nat, e: Env, d: nat)
    requires Spaces(envs, s, o, kern) && HeldOnly(o, None) && Sized(s', o') && V.Freed(s, o, s', o', d)
    requires i < NENV && Rooted(envs, i, d) && !Live(e)
    ensures Spaces(envs[i := e], s', o', kern) && HeldOnly(o', None)
    ensures OthersSame(envs, s, s', i)
  {
    var envs' := envs[i := e];
    forall k | 0 <= k < NENV ensures SpaceOk(s', o', envs'[k]) {
      assert SpaceOk(s, o, envs[k]);
      if k != i && Live(envs[k]) { assert Rooted(envs, k, envs[k].pgdir.value); }
    }
    forall k: nat, x ensures Rooted(envs', k, x) <==> k != i && Rooted(envs, k, x) {
    }
    forall x | 0 <= x < |o'.kind| && o'.kind[x].Dir? ensures exists k :: Rooted(envs', k, x) {
      var k :| Rooted(envs, k, x);
      assert x != d;
      assert Rooted(envs', k, x);
    }
    forall k, va | 0 <= k < |envs| && Live(envs[k]) && k != i && 0 <= va < UTOP
      ensures MapOf(envs, s', k, va) == MapOf(envs, s, k, va)
    {
      assert SpaceOk(s, o, envs[k]) && Rooted(envs, k, envs[k].pgdir.value);
    }
  }

  lemma SlotsParts(envs: seq<Env>, head: Option<nat>, slots: seq<nat>)
    requires SlotsOk(envs, head, slots)
    ensures slots == [] <==> head.None?
    ensures slots != [] ==> head == Some(slots[0]) && slots[0] < |envs|
  {
  }

  lemma PopSlot(envs: seq<Env>, head: Option<nat>, slots: seq<nat>, e: Env)
    requires SlotsOk(envs, head, slots) && head.Some? && Live(e)
    ensures slots != [] && head.value == slots[0] < |envs| && !Live(envs[slots[0]])
    ensures SlotsOk(envs[slots[0] := e], envs[slots[0]].link, slots[1..])
  {
    var i, rest := slots[0], slots[1..];
    assert i in slots && slots == [i] + rest;
    assert forall k :: 0 <= k < |rest| ==> rest[k] == slots[k + 1];
    SlotChainFrame(envs, envs[i].link, rest, i, e);
    forall k: nat ensures k in rest <==> k < |envs| && !Live(envs[i := e][k]) {
      assert k in slots <==> k == i || k in rest;
    }
  }

  lemma PushSlot(envs: seq<Env>, head: Option<nat>, slots: seq<nat>, i: nat, e: Env)
    requires SlotsOk(envs, head, slots) && i < |envs| && Live(envs[i]) && !Live(e) && e.link == head
    ensures SlotsOk(envs[i := e], Some(i), [i] + slots)
  {
    SlotChainFrame(envs, head, slots, i, e);
    assert ([i] + slots)[1..] == slots;
  }

  // ----- the system calls -----

  datatype Call =
    | Getenvid
    | Yield
    | Cgetc(typed: int)      // what the console has
    | EnvDestroy(envid: int)
    | Exofork
    | PageAlloc(envid: int, va: nat, perm: Perm)
    | PageMap(src: int, srcva: nat, dst: int, dstva: nat, perm: Perm)
    | PageUnmap(envid: int, va: nat)
    | EnvSetStatus(envid: int, status: Status)
    | EnvSetPgfaultUpcall(envid: int, func: int)
    | IpcTrySend(envid: int, value: int, srcva: nat, perm: Perm)
    | IpcRecv(dstva: nat)
    | ChangePr(pr: int)
    | NoSuchCall

  // What syscall() hands back; some calls end in sched_yield and never return.
  datatype Outcome = Returns(value: int) | NoReturn

  ghost function ExoforkResult(envs: seq<Env>, slots: seq<nat>, o: Own): int {
    if slots == [] then -E_NO_FREE_ENV
    else if o.free == [] then -S.E_NO_MEM
    else if slots[0] < |envs| && slots[0] < NENV then NextId(envs[slots[0]].id, slots[0])
    else 0
  }

  function SetStatusResult(envs: seq<Env>, cur: nat, envid: int, status: Status): int
    requires |envs| == NENV && cur < NENV
  {
    if status != RUNNABLE && status != NOT_RUNNABLE then -E_INVAL
    else if Resolve(envs, cur, envid, true).None? then -E_BAD_ENV
    else 0
  }

  // The result of each call, from the tables before it
  ghost function CallResult(envs: seq<Env>, slots: seq<nat>, s: State, o: Own, cur: nat, call: Call): Outcome
    requires |envs| == NENV && cur < NENV
  {
    match call
    case Getenvid => Returns(envs[cur].id)
    case Yield => NoReturn
    case Cgetc(typed) => Returns(typed)
    case EnvDestroy(envid) => if Resolve(envs, cur, envid, true) == Some(cur) then NoReturn else Returns(0)
    case Exofork => Returns(ExoforkResult(envs, slots, o))
    case PageAlloc(envid, va, perm) => Returns(PageAllocResult(envs, s, o, cur, envid, va, perm))
    case PageMap(src, srcva, dst, dstva, perm) => Returns(PageMapResult(envs, s, o, cur, src, srcva, dst, dstva, perm))
    case PageUnmap(envid, va) => Returns(PageUnmapResult(envs, cur, envid, va))
    case EnvSetStatus(envid, status) => Returns(SetStatusResult(envs, cur, envid, status))
    case EnvSetPgfaultUpcall(envid, _) => Returns(if Resolve(envs, cur, envid, true).None? then -E_BAD_ENV else 0)
    case IpcTrySend(envid, _, srcva, perm) => Returns(SendResult(envs, s, o, cur, envid, srcva, perm))
    case IpcRecv(dstva) => Returns(if dstva < UTOP && dstva % PGSIZE != 0 then -E_INVAL else 0)
    case ChangePr(_) => Returns(0)
    case NoSuchCall => Returns(-E_INVAL)
  }

  // One way to break the tables: starting an environment that is still
  // waiting for a message.
  predicate StartsReceiver(envs: seq<Env>, cur: nat, call: Call)
    requires |envs| == NENV && cur < NENV
  {
    && call.EnvSetStatus? && call.status == RUNNABLE
    && Resolve(envs, cur, call.envid, true).Some? && envs[Resolve(envs, cur, call.envid, true).value].recving
  }

  // ... and the other: sys_page_alloc or sys_page_map with a bit in `perm`, above the
  // flags, that the number of the page to be mapped has not. The new entry then names
  // another page, which nobody counted.
  ghost predicate NamesAnother(envs: seq<Env>, s: State, o: Own, cur: nat, call: Call)
    requires |envs| == NENV && cur < NENV
  {
    match call
    case PageAlloc(envid, va, perm) =>
      PageAllocResult(envs, s, o, cur, envid, va, perm) == 0 && o.free != [] && !Clean(o.free[0], perm)
    case PageMap(src, srcva, dst, dstva, perm) =>
      PageMapResult(envs, s, o, cur, src, srcva, dst, dstva, perm) == 0
      && !Clean(MapOf(envs, s, Resolve(envs, cur, src, true).value, srcva).value.pn, perm)
    case _ => false
  }

  // The calls that take a page from the allocator: sys_page_alloc past its checks
  predicate TakesPage(envs: seq<Env>, cur: nat, call: Call)
    requires |envs| == NENV && cur < NENV
  {
    call.PageAlloc? && Resolve(envs, cur, call.envid, true).Some? && call.va < UTOP && {P, U} <= call.perm.flags
  }

  // ----- the tables as a whole -----

  // `kern` is kern_pgdir; `slots`, `logs`, `o` and `taken` are bookkeeping.
  datatype Tables = Tables(envs: seq<Env>, head: Option<nat>, slots: seq<nat>, logs: seq<Log>,
                           s: State, o: Own, taken: seq<nat>, kern: nat)

  ghost predicate InOrder(t: Tables) {
    && Spaces(t.envs, t.s, t.o, t.kern) && HeldOnly(t.o, None) && t.o.surplus == t.taken
    && EnvsOk(t.envs, t.logs) && SlotsOk(t.envs, t.head, t.slots)
  }

  // What changes the tables: a system call of environment `cur`; env_run on a CPU whose
  // curenv is `was`; env_free of an environment that faulted or was marked to die.
  datatype Event = Called(cur: nat, call: Call) | Ran(was: Option<nat>, next: nat) | Died(dead: nat)

  // When it can: an environment that waits for a message makes no call, and env_run is
  // given one that is runnable or the CPU's own.
  ghost predicate CanHappen(t: Tables, ev: Event) {
    |t.envs| == NENV &&
    match ev
    case Called(cur, _) => cur < NENV && Live(t.envs[cur]) && !t.envs[cur].recving && Room(t.s)
    case Ran(was, next) =>
      && (was.Some? ==> was.value < NENV) && next < NENV && Live(t.envs[next])
      && (t.envs[next].status == RUNNABLE || was == Some(next))
    case Died(dead) => dead < NENV && Live(t.envs[dead])
  }

  // Only these two kinds of call break the tables.
  ghost predicate Breaks(t: Tables, ev: Event)
    requires CanHappen(t, ev)
  {
    ev.Called? && (StartsReceiver(t.envs, ev.cur, ev.call) || NamesAnother(t.envs, t.s, t.o, ev.cur, ev.call))
  }

  // env_runs is a 32-bit counter.
  function StartRun(e: Env): Env {
    e.(status := RUNNING, runs := (e.runs + 1) % 0x1_0000_0000)
  }

  // env_run's stores to the environments
  function AfterRun(envs: seq<Env>, cur: Option<nat>, next: nat): seq<Env>
    requires next < |envs| && (cur.Some? ==> cur.value < |envs|)
  {
    if cur == Some(next) then envs
    else
      var was := if cur.Some? && envs[cur.value].status == RUNNING
                 then envs[cur.value := envs[cur.value].(status := RUNNABLE)] else envs;
      was[next := StartRun(was[next])]
  }

  // The environments after a system call
  ghost predicate EnvsAfter(t: Tables, cur: nat, call: Call, envs': seq<Env>)
    requires |t.envs| == NENV && cur < NENV
  {
    match call
    case EnvDestroy(envid) =>
      var e := Resolve(t.envs, cur, envid, true);
      if e.None? then envs' == t.envs
      else if t.envs[e.value].status == RUNNING && e.value != cur then
        envs' == t.envs[e.value := t.envs[e.value].(status := DYING)]
      else envs' == t.envs[e.value := GoneEnv(t.envs[e.value], t.head)]
    case Exofork =>
      if ExoforkResult(t.envs, t.slots, t.o) < 0 then envs' == t.envs
      else
        && t.slots != [] && t.slots[0] < NENV && |envs'| == NENV && envs'[t.slots[0]].pgdir.Some?
        && var i := t.slots[0];
           envs' == t.envs[i := ForkedEnv(i, t.envs[i], t.envs[cur], envs'[i].pgdir.value)]
    case EnvSetStatus(envid, status) =>
      var e := Resolve(t.envs, cur, envid, true);
      if SetStatusResult(t.envs, cur, envid, status) != 0 then envs' == t.envs
      else envs' == t.envs[e.value := t.envs[e.value].(status := status)]
    case EnvSetPgfaultUpcall(envid, func) =>
      var e := Resolve(t.envs, cur, envid, true);
      if e.None? then envs' == t.envs
      else envs' == t.envs[e.value := t.envs[e.value].(upcall := func)]
    case IpcTrySend(envid, value, srcva, perm) =>
      var e := Resolve(t.envs, cur, envid, false);
      if SendResult(t.envs, t.s, t.o, cur, envid, srcva, perm) != 0 then envs' == t.envs
      else envs' == t.envs[e.value := Delivered(t.envs[e.value], t.envs[cur].id, value, srcva, perm)]
    case IpcRecv(dstva) =>
      if dstva < UTOP && dstva % PGSIZE != 0 then envs' == t.envs
      else envs' == t.envs[cur := t.envs[cur].(recving := true, status := NOT_RUNNABLE, dstva := dstva)]
    case ChangePr(pr) => envs' == t.envs[cur := t.envs[cur].(pr := pr)]
    case _ => envs' == t.envs
  }

  // No slot forgets an allocation.
  ghost predicate AllocsKept(logs: seq<Log>, logs': seq<Log>) {
    |logs'| == |logs| && forall i :: 0 <= i < |logs| ==> logs[i].allocs <= logs'[i].allocs
  }

  // Where an event may change what an environment maps: a call, in the address spaces in
  // the caller's hand and where a waiting receiver asked for a page; a death, in its own.
  ghost predicate MayRemap(t: Tables, ev: Event, i: nat, va: nat) {
    match ev
    case Called(cur, call) =>
      InHand(t.envs, cur, i)
      || (call.IpcTrySend? && i < |t.envs| && t.envs[i].recving && SamePage(t.envs[i].dstva, va))
    case Ran(_, _) => false
    case Died(dead) => i == dead
  }

  ghost predicate RemapsAllowed(t: Tables, ev: Event, t': Tables) {
    forall i: nat, va: nat :: i < |t.envs| && Live(t.envs[i]) && va < UTOP && !MayRemap(t, ev, i, va) ==>
      MapOf(t'.envs, t'.s, i, va) == MapOf(t.envs, t.s, i, va)
  }

  // Environment `i` can write page `p` at `va`.
  ghost predicate Writes(envs: seq<Env>, s: State, i: nat, va: nat, p: nat) {
    && i < |envs| && Live(envs[i]) && va < UTOP && MapOf(envs, s, i, va).Some?
    && MapOf(envs, s, i, va).value.pn == p && W in MapOf(envs, s, i, va).value.flags
  }

  ghost predicate Writable(envs: seq<Env>, s: State, p: nat) {
    exists i, va :: Writes(envs, s, i, va, p)
  }

  // A page that nobody can write gets its first writer only by leaving the free list.
  ghost predicate WritersFound(t: Tables, t': Tables) {
    forall i, va, p :: Writes(t'.envs, t'.s, i, va, p) ==> p in t.o.free || Writable(t.envs, t.s, p)
  }

  // What any event leaves alone
  ghost predicate Guarded(t: Tables, ev: Event, t': Tables)
    requires CanHappen(t, ev)
  {
    RemapsAllowed(t, ev, t') && (!Breaks(t, ev) ==> WritersFound(t, t'))
  }

  ghost predicate Happened(t: Tables, ev: Event, t': Tables)
    requires CanHappen(t, ev)
  {
    && (InOrder(t') <==> !Breaks(t, ev)) && t'.kern == t.kern && t'.o.surplus == t'.taken
    && S.SameContents(t.s, t'.s, t.o) && AllocsKept(t.logs, t'.logs) && Guarded(t, ev, t')
    && match ev
       case Called(cur, call) =>
         && EnvsAfter(t, cur, call, t'.envs)
         && t'.taken == if TakesPage(t.envs, cur, call) then OneMoreTaken(t.taken, t.o.free) else t.taken
       case Ran(was, next) => t'.envs == AfterRun(t.envs, was, next) && t'.taken == t.taken
       case Died(dead) => t'.envs == t.envs[dead := GoneEnv(t.envs[dead], t.head)] && t'.taken == t.taken
  }

  // The pieces, one kind of call at a time
  lemma CallHappened(t: Tables, cur: nat, call: Call, t': Tables)
    requires CanHappen(t, Called(cur, call)) && (InOrder(t') <==> !Breaks(t, Called(cur, call)))
    requires t'.kern == t.kern && (InOrder(t') || t'.o.surplus == t'.taken) && S.SameContents(t.s, t'.s, t.o)
    requires AllocsKept(t.logs, t'.logs) && EnvsAfter(t, cur, call, t'.envs) && Guarded(t, Called(cur, call), t')
    requires t'.taken == if TakesPage(t.envs, cur, call) then OneMoreTaken(t.taken, t.o.free) else t.taken
    ensures Happened(t, Called(cur, call), t')
  {
  }

  lemma TablesSized(t: Tables)
    requires InOrder(t)
    ensures |t.envs| == NENV == |t.logs| && t.o.surplus == t.taken
  {
  }

  lemma SameEnvs(t: Tables, cur: nat, call: Call)
    requires |t.envs| == NENV && cur < NENV
    requires call.PageAlloc? || call.PageMap? || call.PageUnmap? || call.Getenvid? || call.Yield? || call.Cgetc?
             || call.NoSuchCall?
    ensures EnvsAfter(t, cur, call, t.envs)
  {
  }

  lemma AfterChangePr(t: Tables, cur: nat, pr: int, envs': seq<Env>)
    requires |t.envs| == NENV && cur < NENV && envs' == t.envs[cur := t.envs[cur].(pr := pr)]
    ensures EnvsAfter(t, cur, ChangePr(pr), envs')
  {
  }

  lemma AllocTakes(envs: seq<Env>, s: State, o: Own, cur: nat, envid: int, va: nat, perm: Perm)
    requires |envs| == NENV && cur < NENV
    ensures var r := PageAllocResult(envs, s, o, cur, envid, va, perm);
            TakesPage(envs, cur, PageAlloc(envid, va, perm)) <==> r != -E_BAD_ENV && r != -E_INVAL
  {
  }

  lemma AfterDestroy(t: Tables, cur: nat, envid: int, envs': seq<Env>)
    requires |t.envs| == NENV && cur < NENV
    requires var e := Resolve(t.envs, cur, envid, true);
             if e.None? then envs' == t.envs
             else if t.envs[e.value].status == RUNNING && e.value != cur then
               envs' == t.envs[e.value := t.envs[e.value].(status := DYING)]
             else envs' == t.envs[e.value := GoneEnv(t.envs[e.value], t.head)]
    ensures EnvsAfter(t, cur, EnvDestroy(envid), envs')
  {
  }

  lemma AfterExofork(t: Tables, cur: nat, i: nat, d: nat, envs': seq<Env>)
    requires |t.envs| == NENV && cur < NENV
    requires ExoforkResult(t.envs, t.slots, t.o) < 0 ==> envs' == t.envs
    requires ExoforkResult(t.envs, t.slots, t.o) >= 0 ==>
               t.slots != [] && t.slots[0] == i < NENV && envs' == t.envs[i := ForkedEnv(i, t.envs[i], t.envs[cur], d)]
    ensures EnvsAfter(t, cur, Exofork, envs')
  {
  }

  lemma AfterSetStatus(t: Tables, cur: nat, envid: int, status: Status, envs': seq<Env>)
    requires |t.envs| == NENV && cur < NENV
    requires var e := Resolve(t.envs, cur, envid, true);
             if SetStatusResult(t.envs, cur, envid, status) != 0 then envs' == t.envs
             else envs' == t.envs[e.value := t.envs[e.value].(status := status)]
    ensures EnvsAfter(t, cur, EnvSetStatus(envid, status), envs')
  {
  }

  lemma AfterUpcall(t: Tables, cur: nat, envid: int, func: int, envs': seq<Env>)
    requires |t.envs| == NENV && cur < NENV
    requires var e := Resolve(t.envs, cur, envid, true);
             if e.None? then envs' == t.envs
             else envs' == t.envs[e.value := t.envs[e.value].(upcall := func)]
    ensures EnvsAfter(t, cur, EnvSetPgfaultUpcall(envid, func), envs')
  {
  }

  lemma AfterSend(t: Tables, cur: nat, envid: int, value: int, srcva: nat, perm: Perm, envs': seq<Env>)
    requires |t.envs| == NENV && cur < NENV
    requires var e := Resolve(t.envs, cur, envid, false);
             if SendResult(t.envs, t.s, t.o, cur, envid, srcva, perm) != 0 then envs' == t.envs
             else envs' == t.envs[e.value := Delivered(t.envs[e.value], t.envs[cur].id, value, srcva, perm)]
    ensures EnvsAfter(t, cur, IpcTrySend(envid, value, srcva, perm), envs')
  {
  }

  lemma AfterRecv(t: Tables, cur: nat, dstva: nat, envs': seq<Env>)
    requires |t.envs| == NENV && cur < NENV
    requires if dstva < UTOP && dstva % PGSIZE != 0 then envs' == t.envs
             else envs' == t.envs[cur := t.envs[cur].(recving := true, status := NOT_RUNNABLE, dstva := dstva)]
    ensures EnvsAfter(t, cur, IpcRecv(dstva), envs')
  {
  }
}
