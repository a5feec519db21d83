/**
 What the functions of `kern/pmap.c` do to a paging state, and what follows from
 it: the ownership invariant is kept, and a page directory behaves as a flat map
 from pages of the address space to entries.
 */
module PmapSpec {
  import opened Paging

  const E_NO_MEM: int := 4

  // What the state must satisfy for the C code not to run off `pages`.
  ghost predicate Ready(s: State) {
    |s.frames| == |s.pages| && (s.head.Some? ==> s.head.value < |s.pages|)
  }

  ghost predicate WalkReady(s: State, d: nat, va: nat) {
    && Ready(s) && d < |s.frames|
    && (s.frames[d][Pdx(va)].Present() ==> s.frames[d][Pdx(va)].pn < |s.frames|)
  }

  // A PTE as it counts under this PDE: what the PDE does not allow, it does not.
  ghost function Under(pde: Word, pte: Word): Word {
    if OpenPde(pde) then pte else pte.(flags := pte.flags - ({U, W} - pde.flags))
  }

  // The entry the hardware goes by for `va`, on the page check_va2pa finds
  ghost function Translation(s: State, d: nat, va: nat): Option<Word>
    requires d < |s.frames|
  {
    var pde := s.frames[d][Pdx(va)];
    if pde.Present() && pde.pn < |s.frames| && s.frames[pde.pn][Ptx(va)].Present()
    then Some(Under(pde, s.frames[pde.pn][Ptx(va)]))
    else None
  }

  function SetFrame(s: State, p: nat, c: Frame): State
    requires p < |s.frames|
  {
    State(s.pages, s.frames[p := c], s.head)
  }

  function PageAlloc(s: State, zero: bool): (State, Option<nat>)
    requires Ready(s)
  {
    if s.head.None? then (s, None)
    else if zero then (SetFrame(TakeFree(s), s.head.value, ZeroFrame()), s.head)
    else (TakeFree(s), s.head)
  }

  function IncRefState(s: State, p: nat): State
    requires p < |s.pages|
  {
    SetRef(s, p, (s.pages[p].ref + 1) % REF_MOD)
  }

  // The page-table page that holds the PTE of `va`
  function PgdirWalk(s: State, d: nat, va: nat, create: bool): (State, Option<nat>)
    requires WalkReady(s, d, va)
  {
    if s.frames[d][Pdx(va)].Present() then (s, Some(s.frames[d][Pdx(va)].pn))
    else if !create then (s, None)
    else
      var (s1, pg) := PageAlloc(s, true);
      if pg.None? then (s1, None)
      else (SetWord(IncRefState(s1, pg.value), d, Pdx(va), Word(pg.value, {P, U, W})), pg)
  }

  // The page mapped at `va` and the page table that maps it
  function PageLookup(s: State, d: nat, va: nat): Option<(nat, nat)>
    requires WalkReady(s, d, va)
  {
    var t := PgdirWalk(s, d, va, false).1;
    if t.None? || !s.frames[t.value][Ptx(va)].Present() then None
    else Some((s.frames[t.value][Ptx(va)].pn, t.value))
  }

  ghost predicate RemoveReady(s: State, d: nat, va: nat) {
    WalkReady(s, d, va) && (PageLookup(s, d, va).Some? ==> PageLookup(s, d, va).value.0 < |s.pages|)
  }

  function PageRemove(s: State, d: nat, va: nat): State
    requires RemoveReady(s, d, va)
  {
    match PageLookup(s, d, va)
    case None => s
    case Some((pg, t)) => SetWord(DecRefState(s, pg), t, Ptx(va), ZERO_WORD)
  }

  ghost predicate InsertReady(s: State, d: nat, p: nat, va: nat) {
    && WalkReady(s, d, va) && p < |s.pages|
    && |PgdirWalk(s, d, va, true).0.pages| == |s.pages|
    && RemoveReady(IncRefState(PgdirWalk(s, d, va, true).0, p), d, va)
  }

  function PageInsert(s: State, d: nat, p: nat, va: nat, perm: Perm): (State, int)
    requires InsertReady(s, d, p, va)
  {
    var (s1, t) := PgdirWalk(s, d, va, true);
    if t.None? then (s1, -E_NO_MEM)
    else
      var s2 := IncRefState(s1, p);
      var s3 := if s2.frames[t.value][Ptx(va)].Present() then PageRemove(s2, d, va) else s2;
      (SetWord(s3, t.value, Ptx(va), Stored(p, perm)), 0)
  }

  // ----- what the operations keep and change -----

  ghost predicate UserDir(s: State, o: Own, d: nat) {
    d < |s.frames| && d < |o.kind| && o.kind[d].Dir?
  }

  ghost predicate HasRoom(s: State) {
    forall p :: 0 <= p < |s.pages| ==> s.pages[p].ref < REF_MOD - 1
  }

  // Every mapping of every user directory is as before.
  ghost predicate SameMappings(s: State, s': State, o: Own) {
    |s.frames| == |s'.frames| &&
    forall d, va :: UserDir(s, o, d) && 0 <= va < UTOP ==> Translation(s', d, va) == Translation(s, d, va)
  }

  // Only page tables and directories are written: the contents of every other
  // page that is in use stay as they are.
  ghost predicate SameContents(s: State, s': State, o: Own) {
    |s.frames| == |s'.frames| &&
    forall f :: 0 <= f < |o.kind| && f < |s.frames| && (o.kind[f].Reserved? || o.kind[f].Held? || o.kind[f].Data?) ==>
      s'.frames[f] == s.frames[f]
  }

  lemma InvReady(s: State, o: Own, d: nat, va: nat)
    requires Inv(s, o) && UserDir(s, o, d) && va < UTOP
    ensures RemoveReady(s, d, va)
    ensures Translation(s, d, va) ==
            (match PageLookup(s, d, va)
             case None => None
             case Some((pg, t)) => Some(s.frames[t][Ptx(va)]))
  {
    UserPdx(va);
    if s.head.Some? { TakeHead(s, o); }
  }

  ghost predicate SameSlot(d: nat, va: nat, d': nat, va': nat) {
    d == d' && Pdx(va) == Pdx(va') && Ptx(va) == Ptx(va')
  }

  // The flat map changes at (d, va) to `w` and nowhere else.
  ghost predicate MapUpdated(s: State, s': State, o: Own, d: nat, va: nat, w: Option<Word>) {
    |s.frames| == |s'.frames| &&
    forall d', va' :: UserDir(s, o, d') && 0 <= va' < UTOP ==>
      Translation(s', d', va') == if SameSlot(d, va, d', va') then w else Translation(s, d', va')
  }

  // What the hardware grants at `va`: the rights that PDE and PTE both have
  ghost function Access(s: State, d: nat, va: nat): set<Flag>
    requires d < |s.frames|
  {
    var pde := s.frames[d][Pdx(va)];
    if pde.Present() && pde.pn < |s.frames| && s.frames[pde.pn][Ptx(va)].Present()
    then pde.flags * s.frames[pde.pn][Ptx(va)].flags * {P, U, W}
    else {}
  }

  // The rights change at (d, va) to `a` and nowhere else.
  ghost predicate AccessUpdated(s: State, s': State, o: Own, d: nat, va: nat, a: set<Flag>) {
    |s.frames| == |s'.frames| &&
    forall d', va' :: UserDir(s, o, d') && 0 <= va' < UTOP ==>
      Access(s', d', va') == if SameSlot(d, va, d', va') then a else Access(s, d', va')
  }

  lemma AccessOfEntry(s: State, d: nat, va: nat)
    requires d < |s.frames|
    ensures Access(s, d, va) ==
            if Translation(s, d, va).None? then {} else Translation(s, d, va).value.flags * {P, U, W}
  {
  }

  // The flat map is a map of rights, too.
  lemma AccessFollowsMap(s: State, s': State, o: Own, d: nat, va: nat, w: Option<Word>)
    requires MapUpdated(s, s', o, d, va, w)
    ensures AccessUpdated(s, s', o, d, va, if w.None? then {} else w.value.flags * {P, U, W})
  {
    forall d', va' | UserDir(s, o, d') && 0 <= va' < UTOP
      ensures Access(s', d', va') ==
              if SameSlot(d, va, d', va') then (if w.None? then {} else w.value.flags * {P, U, W})
              else Access(s, d', va')
    {
      AccessOfEntry(s, d', va');
      AccessOfEntry(s', d', va');
    }
  }

  // Writing the PTE of (d, va) touches no other translation.
  lemma PointWrite(s: State, o: Own, d: nat, va: nat, t: nat, w: Word)
    requires Inv(s, o) && UserDir(s, o, d) && va < UTOP
    requires s.frames[d][Pdx(va)].Present() && s.frames[d][Pdx(va)].pn == t < |s.frames|
    ensures MapUpdated(s, SetWord(s, t, Ptx(va), w), o, d, va, if w.Present() then Some(w) else None)
  {
    var s' := SetWord(s, t, Ptx(va), w);
    UserPdx(va);
    forall d', va' | UserDir(s, o, d') && 0 <= va' < UTOP
      ensures Translation(s', d', va') ==
              if SameSlot(d, va, d', va') then (if w.Present() then Some(w) else None) else Translation(s, d', va')
    {
      UserPdx(va');
    }
  }

  // Hanging an all-absent page table under a directory changes no translation.
  lemma EmptyTable(s: State, s': State, o: Own, d: nat, i: nat, t: nat)
    requires Inv(s, o) && UserDir(s, o, d) && i < USER_PDES && !s.frames[d][i].Present()
    requires t < |s.frames| && (o.kind[t].Free? || o.kind[t].Held?)
    requires s'.frames == s.frames[t := ZeroFrame()][d := s.frames[d][i := Word(t, {P, U, W})]]
    ensures SameMappings(s, s', o)
  {
    forall d', va' | UserDir(s, o, d') && 0 <= va' < UTOP
      ensures Translation(s', d', va') == Translation(s, d', va')
    {
      EmptyTableAt(s, s', o, d, i, t, d', va');
    }
  }

  lemma EmptyTableAt(s: State, s': State, o: Own, d: nat, i: nat, t: nat, d': nat, va': nat)
    requires Inv(s, o) && UserDir(s, o, d) && i < USER_PDES && !s.frames[d][i].Present()
    requires t < |s.frames| && (o.kind[t].Free? || o.kind[t].Held?)
    requires s'.frames == s.frames[t := ZeroFrame()][d := s.frames[d][i := Word(t, {P, U, W})]]
    requires UserDir(s, o, d') && va' < UTOP
    ensures Translation(s', d', va') == Translation(s, d', va')
  {
    UserPdx(va');
    var pde := s.frames[d'][Pdx(va')];
    if d' == d && Pdx(va') == i {
      assert s'.frames[t] == ZeroFrame();
    } else {
      assert s'.frames[d'][Pdx(va')] == pde;
      if pde.Present() {
        assert o.kind[pde.pn] == Table(d', Pdx(va'));
        assert s'.frames[pde.pn] == s.frames[pde.pn];
      }
    }
  }

  // page_alloc(ALLOC_ZERO) and then pp_ref++
  lemma FreshPage(s: State, o: Own) returns (o': Own)
    requires Inv(s, o) && s.head.Some? && HasRoom(s)
    ensures Ready(s) && s.head.value < |o.kind| && o.kind[s.head.value] == Free
    ensures var p, s' := s.head.value, IncRefState(PageAlloc(s, true).0, s.head.value);
            && Inv(s', o') && s'.frames == s.frames[p := ZeroFrame()]
            && o'.surplus == o.surplus[p := o.surplus[p] + 1] && o'.kind == o.kind[p := Held]
  {
    TakeHead(s, o);
    var p := s.head.value;
    var s1, o1 := TakeFree(s), TakeFreeOwn(o);
    WriteUntracked(s1, o1, p, ZeroFrame());
    IncRef(SetFrame(s1, p, ZeroFrame()), o1, p);
    o' := AddSurplus(o1, p);
  }

  // Holds of pgdir_walk's result: no mapping changes, and at most one page, `t`,
  // changes its use.
  ghost predicate Walked(s: State, o: Own, s': State, o': Own, d: nat, va: nat, t: Option<nat>)
    requires Sized(s, o) && d < |s.frames|
  {
    && Inv(s', o') && SameMappings(s, s', o) && SameDirs(o, o') && SameContents(s, s', o)
    && o'.surplus == o.surplus && |s'.pages| == |s.pages|
    && (t.None? <==> !s.frames[d][Pdx(va)].Present() && s.head.None?)
    && (t.None? ==> s' == s && o' == o)
    && (t.Some? ==> t.value < |o'.kind| && o'.kind[t.value] == Table(d, Pdx(va))
                    && s'.frames[d][Pdx(va)].Present() && s'.frames[d][Pdx(va)].pn == t.value
                    && {U, W} <= s'.frames[d][Pdx(va)].flags
                    && (if s.frames[d][Pdx(va)].Present() then s.frames[d][Pdx(va)].pn == t.value
                        else o.kind[t.value].Free?))
    && (forall q :: 0 <= q < |o.kind| && t != Some(q) ==> o'.kind[q] == o.kind[q] && s'.pages[q] == s.pages[q])
    && (t.Some? && o.kind[t.value].Table? ==> s' == s && o' == o)
  }

  lemma WalkCorrect(s: State, o: Own, d: nat, va: nat) returns (o': Own)
    requires Inv(s, o) && UserDir(s, o, d) && va < UTOP && HasRoom(s)
    ensures WalkReady(s, d, va)
    ensures Walked(s, o, PgdirWalk(s, d, va, true).0, o', d, va, PgdirWalk(s, d, va, true).1)
  {
    InvReady(s, o, d, va);
    UserPdx(va);
    o' := o;
    if !s.frames[d][Pdx(va)].Present() && s.head.Some? {
      var t := s.head.value;
      var o1 := FreshPage(s, o);
      var s1 := IncRefState(PageAlloc(s, true).0, t);
      LinkTable(s1, o1, d, Pdx(va), Word(t, {P, U, W}));
      o' := LinkTableOwn(o1, d, Pdx(va), t);
      EmptyTable(s, PgdirWalk(s, d, va, true).0, o, d, Pdx(va), t);
    }
  }

  lemma NothingThere(s: State, o: Own, d: nat, va: nat)
    requires UserDir(s, o, d) && Translation(s, d, va).None?
    ensures MapUpdated(s, s, o, d, va, None)
  {
  }

  ghost predicate LastCount(s: State, w: Option<Word>, q: nat)
    requires q < |s.pages|
  {
    w.Some? && w.value.pn == q && s.pages[q].ref == 1
  }

  // Clearing a PTE and dropping the count it stood for, in either order
  lemma ClearAndDrop(s: State, o: Own, t: nat, j: nat) returns (o': Own)
    requires Inv(s, o) && t < |o.kind| && o.kind[t].Table? && j < ENTRIES && s.frames[t][j].Present()
    ensures s.frames[t][j].pn < |s.pages|
    ensures var w := s.frames[t][j];
            && Inv(SetWord(DecRefState(s, w.pn), t, j, ZERO_WORD), o')
            && o'.surplus == o.surplus
            && (forall q :: 0 <= q < |o.kind| ==> o'.kind[q] == if LastCount(s, Some(w), q) then Free else o.kind[q])
  {
    var pg := s.frames[t][j].pn;
    UnlinkData(s, o, t, j);
    var s1, o1 := SetWord(s, t, j, ZERO_WORD), AddSurplus(o, pg);
    DecRef(s1, o1, pg);
    o' := DecRefOwn(s1, o1, pg);
    assert DecRefState(s1, pg) == SetWord(DecRefState(s, pg), t, j, ZERO_WORD);
  }

  // Holds of the state after page_remove.
  ghost predicate Removed(s: State, o: Own, s': State, o': Own, d: nat, va: nat)
    requires Sized(s, o) && d < |s.frames|
  {
    var w := Translation(s, d, va);
    && Inv(s', o') && o'.surplus == o.surplus && SameDirs(o, o')
    && |o'.kind| == |o.kind| && |s'.pages| == |s.pages|
    && MapUpdated(s, s', o, d, va, None)
    && (w.None? ==> s' == s && o' == o)
    && (forall q :: 0 <= q < |o.kind| ==> o'.kind[q] == if LastCount(s, w, q) then Free else o.kind[q])
    && (forall f :: 0 <= f < |o.kind| && o.kind[f] != Table(d, Pdx(va)) ==> s'.frames[f] == s.frames[f])
  }

  // Unmapping is a point removal from the flat map; the page goes back to the
  // free list exactly when this was the last count on it.
  lemma RemoveCorrect(s: State, o: Own, d: nat, va: nat) returns (o': Own)
    requires Inv(s, o) && UserDir(s, o, d) && va < UTOP
    ensures RemoveReady(s, d, va)
    ensures Removed(s, o, PageRemove(s, d, va), o', d, va)
  {
    InvReady(s, o, d, va);
    UserPdx(va);
    o' := o;
    if PageLookup(s, d, va).Some? {
      var t := PageLookup(s, d, va).value.1;
      o' := ClearAndDrop(s, o, t, Ptx(va));
      PointWrite(s, o, d, va, t, ZERO_WORD);
      assert PageRemove(s, d, va).frames == SetWord(s, t, Ptx(va), ZERO_WORD).frames;
    } else {
      NothingThere(s, o, d, va);
    }
  }

  // The books are right exactly when the new entry names the page it is for; the page
  // named by mistake lacks a count.
  ghost predicate Booked(s': State, o': Own, p: nat, perm: Perm)
    requires Sized(s', o')
  {
    if Clean(p, perm) then Inv(s', o') else !Explained(s', o') && Undercounted(s', o', Stored(p, perm).pn)
  }

  // Holds of page_insert's result when it returns 0.
  ghost predicate Inserted(s: State, o: Own, s': State, o': Own, d: nat, p: nat, va: nat, perm: Perm)
    requires Sized(s, o) && d < |s.frames|
  {
    var w := Translation(s, d, va);
    && Sized(s', o') && Booked(s', o', p, perm) && FreeOk(o'.free, o'.kind) && o'.surplus == o.surplus
    && SameDirs(o, o') && SameContents(s, s', o) && MapUpdated(s, s', o, d, va, Some(Stored(p, perm)))
    // re-inserting the page already there leaves every count and the free list alone
    && (w.Some? && w.value.pn == p ==> s'.pages == s.pages && s'.head == s.head)
    // a page joins the free list exactly when the last count on it was this mapping
    && (forall q :: 0 <= q < |o.kind| && o.kind[q] != Free ==>
          o'.kind[q] == if q == p then Data else if LastCount(s, w, q) then Free else o.kind[q])
    && (forall q :: 0 <= q < |o.kind| && o.kind[q] == Free ==> o'.kind[q].Free? || o'.kind[q].Table?)
  }

  lemma IncDec(s: State, p: nat)
    requires p < |s.pages| && 0 < s.pages[p].ref < REF_MOD - 1
    ensures DecRefState(IncRefState(s, p), p) == s
  {
  }

  lemma StoreTwice(s: State, t: nat, j: nat, w: Word, x: Word)
    requires t < |s.frames| && j < ENTRIES
    ensures SetWord(SetWord(s, t, j, w), t, j, x) == SetWord(s, t, j, x)
  {
    assert s.frames[t][j := w][j := x] == s.frames[t][j := x];
    assert SetWord(SetWord(s, t, j, w), t, j, x).frames == SetWord(s, t, j, x).frames;
  }

  // The store of page_insert
  lemma StoreLinks(s: State, o: Own, t: nat, j: nat, p: nat, perm: Perm)
    requires Inv(s, o) && t < |o.kind| && o.kind[t].Table? && j < ENTRIES && !s.frames[t][j].Present()
    requires p < |s.pages| && o.surplus[p] > 0 && (o.kind[p].Held? || o.kind[p].Data?)
    ensures var s', o' := SetWord(s, t, j, Stored(p, perm)), SetKind(UseSurplus(o, p), p, Data);
            FreeOk(o'.free, o'.kind) && Booked(s', o', p, perm)
  {
    var w, x := Word(p, perm.flags + {P}), Stored(p, perm);
    assert o.kind[t] == SetKind(UseSurplus(o, p), p, Data).kind[t];
    LinkData(s, o, t, j, w);
    hide Inv, Explained, Undercounted;
    RenamedExactly(SetWord(s, t, j, w), SetKind(UseSurplus(o, p), p, Data), t, j, x);
    if !Clean(p, perm) { RenamedUndercounts(SetWord(s, t, j, w), SetKind(UseSurplus(o, p), p, Data), t, j, x); }
    StoreTwice(s, t, j, w, x);
  }

  // page_insert when the page table is already there
  lemma InsertAt(s: State, o: Own, d: nat, p: nat, va: nat, perm: Perm) returns (o': Own)
    requires Inv(s, o) && UserDir(s, o, d) && va < UTOP
    requires p < |s.pages| && (o.kind[p].Held? || o.kind[p].Data?) && s.pages[p].ref < REF_MOD - 1
    requires s.frames[d][Pdx(va)].Present()
    ensures InsertReady(s, d, p, va)
    ensures PageInsert(s, d, p, va, perm).1 == 0
    ensures Inserted(s, o, PageInsert(s, d, p, va, perm).0, o', d, p, va, perm)
  {
    InvReady(s, o, d, va);
    UserPdx(va);
    var t, w := s.frames[d][Pdx(va)].pn, Stored(p, perm);
    IncRef(s, o, p);
    var s2, o2 := IncRefState(s, p), AddSurplus(o, p);
    var o3 := RemoveCorrect(s2, o2, d, va);
    var s3 := PageRemove(s2, d, va);
    assert Translation(s2, d, va) == Translation(s, d, va);
    assert Translation(s3, d, va) == None by { assert UserDir(s2, o2, d) && SameSlot(d, va, d, va); }
    InsertBooks(s, o, s3, o3, d, p, va, w);
    assert s3.frames[d] == s.frames[d] && o3.kind[t] == Table(d, Pdx(va));
    o' := SetKind(UseSurplus(o3, p), p, Data);
    StoreLinks(s3, o3, t, Ptx(va), p, perm);
    PointWrite(s3, o3, d, va, t, w);
    if Translation(s, d, va).Some? && Translation(s, d, va).value.pn == p {
      assert CountOk(s, o, p);
      IncDec(s, p);
    }
    InsertedMap(s, s2, s3, SetWord(s3, t, Ptx(va), w), o, o2, o3, d, va, w);
  }

  // A page counted once more is not freed by its removal.
  lemma CountedTwice(s: State, o: Own, d: nat, p: nat, va: nat)
    requires Inv(s, o) && UserDir(s, o, d) && va < UTOP
    requires p < |s.pages| && (o.kind[p].Held? || o.kind[p].Data?) && s.pages[p].ref < REF_MOD - 1
    ensures !LastCount(IncRefState(s, p), Translation(s, d, va), p)
  {
    hide Chain, FreeOk;
    UserPdx(va);
    assert CountOk(s, o, p);
    if Translation(s, d, va).Some? && Translation(s, d, va).value.pn == p {
      assert Entry(s.frames[d][Pdx(va)].pn, Ptx(va)) in Refs(s.frames, o.kind, p);
    }
  }

  // Kinds, surpluses and contents through page_insert
  lemma InsertBooks(s: State, o: Own, s3: State, o3: Own, d: nat, p: nat, va: nat, w: Word)
    requires Inv(s, o) && UserDir(s, o, d) && va < UTOP
    requires p < |s.pages| && (o.kind[p].Held? || o.kind[p].Data?) && s.pages[p].ref < REF_MOD - 1
    requires s.frames[d][Pdx(va)].Present() && s.frames[d][Pdx(va)].pn < |s.frames|
    requires Removed(IncRefState(s, p), AddSurplus(o, p), s3, o3, d, va)
    ensures o3.surplus[p] > 0
    ensures o3.kind[p] == o.kind[p]
    ensures var o4, s4 := SetKind(UseSurplus(o3, p), p, Data), SetWord(s3, s.frames[d][Pdx(va)].pn, Ptx(va), w);
            && o4.surplus == o.surplus && SameDirs(o, o3) && SameDirs(o, o4) && SameContents(s, s4, o)
            && (forall q :: 0 <= q < |o.kind| && o.kind[q] != Free ==>
                  o4.kind[q] == if q == p then Data
                                else if LastCount(s, Translation(s, d, va), q) then Free
                                else o.kind[q])
            && (forall q :: 0 <= q < |o.kind| && o.kind[q] == Free ==> o4.kind[q].Free?)
  {
    hide Chain, FreeOk, CountOk, MapUpdated;
    UserPdx(va);
    assert Translation(IncRefState(s, p), d, va) == Translation(s, d, va);
    CountedTwice(s, o, d, p, va);
    assert CountOk(s, o, p);
  }

  lemma InsertedMap(s: State, s2: State, s3: State, s4: State, o: Own, o2: Own, o3: Own, d: nat, va: nat, w: Word)
    requires |o.kind| == |s.frames| && s2.frames == s.frames && o2.kind == o.kind
    requires |o3.kind| == |o.kind| && SameDirs(o, o3)
    requires MapUpdated(s2, s3, o2, d, va, None) && MapUpdated(s3, s4, o3, d, va, Some(w))
    ensures MapUpdated(s, s4, o, d, va, Some(w))
  {
    forall d', va' | UserDir(s, o, d') && 0 <= va' < UTOP
      ensures Translation(s4, d', va') == if SameSlot(d, va, d', va') then Some(w) else Translation(s, d', va')
    {
      assert UserDir(s2, o2, d') && UserDir(s3, o3, d');
      assert Translation(s2, d', va') == Translation(s, d', va');
    }
  }

  lemma AfterWalk(s: State, s1: State, s': State, o: Own, o1: Own, d: nat, va: nat, w: Option<Word>)
    requires |o.kind| == |s.frames| && SameMappings(s, s1, o) && SameDirs(o, o1)
    requires MapUpdated(s1, s', o1, d, va, w)
    ensures MapUpdated(s, s', o, d, va, w)
  {
    forall d', va' | UserDir(s, o, d') && 0 <= va' < UTOP
      ensures Translation(s', d', va') == if SameSlot(d, va, d', va') then w else Translation(s, d', va')
    {
      assert UserDir(s1, o1, d');
    }
  }

  lemma WalkThenInsert(s: State, o: Own, s1: State, o1: Own, s': State, o': Own, d: nat, p: nat, va: nat, t: nat,
                       perm: Perm)
    requires Inv(s, o) && UserDir(s, o, d) && va < UTOP && Walked(s, o, s1, o1, d, va, Some(t))
    requires p < |o.kind| && (o.kind[p].Held? || o.kind[p].Data?)
    requires Sized(s1, o1) && d < |s1.frames| && Inserted(s1, o1, s', o', d, p, va, perm)
    ensures Inserted(s, o, s', o', d, p, va, perm)
  {
    hide Inv;
    assert Translation(s1, d, va) == Translation(s, d, va);
    if s.frames[d][Pdx(va)].Present() {
      assert o.kind[t].Table? by { PresentIsTable(s, o, d, va); }
    } else {
      AfterWalk(s, s1, s', o, o1, d, va, Some(Stored(p, perm)));
    }
  }

  lemma PresentIsTable(s: State, o: Own, d: nat, va: nat)
    requires Inv(s, o) && UserDir(s, o, d) && va < UTOP && s.frames[d][Pdx(va)].Present()
    ensures s.frames[d][Pdx(va)].pn < |o.kind| && o.kind[s.frames[d][Pdx(va)].pn].Table?
  {
    UserPdx(va);
  }

  // The caller of page_insert gets the rights it asked for, no more and no fewer.
  lemma InsertGrants(s: State, o: Own, s': State, o': Own, d: nat, p: nat, va: nat, perm: Perm)
    requires Sized(s, o) && d < |s.frames| && Inserted(s, o, s', o', d, p, va, perm)
    ensures AccessUpdated(s, s', o, d, va, {P} + perm.flags * {U, W})
  {
    hide Booked, FreeOk, SameContents, MapUpdated, AccessUpdated;
    AccessFollowsMap(s, s', o, d, va, Some(Stored(p, perm)));
    assert Stored(p, perm).flags * {P, U, W} == {P} + perm.flags * {U, W};
  }

  // page_insert is a point update of the flat map, or changes nothing at all.
  lemma InsertCorrect(s: State, o: Own, d: nat, p: nat, va: nat, perm: Perm) returns (o': Own)
    requires Inv(s, o) && UserDir(s, o, d) && va < UTOP && HasRoom(s)
    requires p < |s.pages| && (o.kind[p].Held? || o.kind[p].Data?)
    ensures InsertReady(s, d, p, va)
    ensures var s', r := PageInsert(s, d, p, va, perm).0, PageInsert(s, d, p, va, perm).1;
            && (r == 0 || r == -E_NO_MEM)
            && (r == -E_NO_MEM <==> !s.frames[d][Pdx(va)].Present() && s.head.None?)
            && (r == -E_NO_MEM ==> s' == s && o' == o)
            && (r == 0 ==> Inserted(s, o, s', o', d, p, va, perm))
            && (r == 0 ==> AccessUpdated(s, s', o, d, va, {P} + perm.flags * {U, W}))
  {
    hide Inserted, SameMappings, SameContents, MapUpdated, AccessUpdated, TreeOk;
    var o1 := WalkCorrect(s, o, d, va);
    var s1, t := PgdirWalk(s, d, va, true).0, PgdirWalk(s, d, va, true).1;
    o' := o1;
    if t.Some? {
      if s.frames[d][Pdx(va)].Present() { PresentIsTable(s, o, d, va); }
      o' := InsertAt(s1, o1, d, p, va, perm);
      assert PageInsert(s, d, p, va, perm) == PageInsert(s1, d, p, va, perm);
      WalkThenInsert(s, o, s1, o1, PageInsert(s, d, p, va, perm).0, o', d, p, va, t.value, perm);
      InsertGrants(s, o, PageInsert(s, d, p, va, perm).0, o', d, p, va, perm);
    }
  }

  // The state page_insert passes through between taking the new count and
  // removing the old mapping is itself a good one.
  lemma InsertMidway(s: State, o: Own, d: nat, p: nat, va: nat) returns (o2: Own)
    requires Inv(s, o) && UserDir(s, o, d) && va < UTOP && HasRoom(s)
    requires p < |s.pages| && (o.kind[p].Held? || o.kind[p].Data?)
    ensures WalkReady(s, d, va)
    ensures var s1, t := PgdirWalk(s, d, va, true).0, PgdirWalk(s, d, va, true).1;
            t.Some? ==> |s1.pages| == |s.pages| && Midway(s, o, IncRefState(s1, p), o2, d, va, t.value)
  {
    hide TreeOk, FreeOk, Chain;
    var o1 := WalkCorrect(s, o, d, va);
    o2 := o1;
    if PgdirWalk(s, d, va, true).1.Some? {
      if s.frames[d][Pdx(va)].Present() { PresentIsTable(s, o, d, va); }
      IncRef(PgdirWalk(s, d, va, true).0, o1, p);
      o2 := AddSurplus(o1, p);
    }
  }

  ghost predicate Midway(s: State, o: Own, s2: State, o2: Own, d: nat, va: nat, t: nat) {
    && Inv(s2, o2) && UserDir(s2, o2, d) && SameMappings(s, s2, o) && SameDirs(o, o2) && SameContents(s, s2, o)
    && t < |s2.frames| && s2.frames[d][Pdx(va)].Present() && s2.frames[d][Pdx(va)].pn == t
  }
}
