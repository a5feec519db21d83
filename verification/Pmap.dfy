/**
 `kern/pmap.c`: the page allocator and the page-table operations, changing
 `pages`, `page_free_list` and physical memory in place.
 */
module Pmap {
  import opened Paging
  import S = PmapSpec

  const MPENTRY: nat := 7   // MPENTRY_PADDR / PGSIZE

  predicate Available(p: nat, med: nat) {
    1 <= p < MPENTRY || med <= p
  }

  // The free list holds just the available pages below `n`, each once.
  ghost predicate Listed(pages: seq<PageInfo>, head: Option<nat>, free: seq<nat>, med: nat, n: nat) {
    && Chain(pages, head, free) && (forall i, j :: 0 <= i < j < |free| ==> free[i] != free[j])
    && (forall p: nat :: p in free <==> p < n && Available(p, med))
    && (forall p :: p in free ==> p < |pages| && pages[p].ref == 0)
  }

  lemma ListOneMore(pages: seq<PageInfo>, head: Option<nat>, free: seq<nat>, med: nat, n: nat, i: nat)
    requires Listed(pages, head, free, med, n) && n <= i < |pages| && Available(i, med)
    requires forall p :: n <= p < i ==> !Available(p, med)
    ensures Listed(pages[i := PageInfo(head, 0)], Some(i), [i] + free, med, i + 1)
  {
    ChainFrame(pages, head, free, i, PageInfo(head, 0));
    assert ([i] + free)[1..] == free;
  }

  // page_init; `med` is the first page behind the kernel and its tables.
  method PageInit(pages: array<PageInfo>, med: nat) returns (head: Option<nat>, ghost free: seq<nat>)
    requires MPENTRY <= med && MPENTRY <= pages.Length
    modifies pages
    ensures Listed(pages[..], head, free, med, pages.Length)
    // all pages but page 0 and those from the boot code of the other CPUs up to `med`
    ensures forall p: nat :: p in free <==> (1 <= p < 7 || med <= p) && p < pages.Length
  {
    head, free := None, [];
    for i := 1 to MPENTRY
      invariant Listed(pages[..], head, free, med, i)
    {
      ghost var was := pages[..];
      ListOneMore(was, head, free, med, i, i);
      pages[i] := PageInfo(head, 0);
      assert pages[..] == was[i := PageInfo(head, 0)];
      head, free := Some(i), [i] + free;
    }
    ghost var n: nat := MPENTRY;
    var i := med;
    while i < pages.Length
      invariant Listed(pages[..], head, free, med, n)
      invariant med <= i && n <= i && (if i == med then n == MPENTRY else n == i <= pages.Length)
    {
      ghost var was := pages[..];
      ListOneMore(was, head, free, med, n, i);
      pages[i] := PageInfo(head, 0);
      assert pages[..] == was[i := PageInfo(head, 0)];
      head, free := Some(i), [i] + free;
      i := i + 1;
      n := i;
    }
    assert forall p: nat :: n <= p < pages.Length ==> !Available(p, med);
  }

  lemma NothingReferenced(s: State, o: Own, p: nat)
    requires forall q :: 0 <= q < |o.kind| ==> o.kind[q].Free? || o.kind[q].Reserved?
    ensures Refs(s.frames, o.kind, p) == {}
  {
  }

  class PhysMem {
    const pages: array<PageInfo>
    const frames: array<Frame>
    var page_free_list: Option<nat>
    ghost var own: Own

    // Memory as page_init leaves it: unreferenced, free where it says so.
    constructor (npages: nat, med: nat)
      requires MPENTRY <= med && MPENTRY <= npages
      ensures Valid() && fresh(pages) && fresh(frames) && pages.Length == npages
      ensures forall p :: 0 <= p < npages ==>
                own.surplus[p] == 0 && own.kind[p] == if Available(p, med) then Free else Reserved
    {
      pages := new PageInfo[npages](_ => PageInfo(None, 0));
      frames := new Frame[npages](_ => ZeroFrame());
      page_free_list := None;
      own := Own([], [], []);
      new;
      ghost var free;
      page_free_list, free := PageInit(pages, med);
      own := Own(free, seq(npages, p requires 0 <= p => if Available(p, med) then Free else Reserved),
        seq(npages, _ => 0));
      forall p | 0 <= p < npages ensures CountOk(View(), own, p) {
        NothingReferenced(View(), own, p);
      }
    }

    ghost function View(): State
      reads this, pages, frames
    {
      State(pages[..], frames[..], page_free_list)
    }

    ghost predicate Valid()
      reads this, pages, frames
    {
      Inv(View(), own)
    }

    method PageAlloc(zero: bool) returns (pp: Option<nat>)
      requires Valid()
      modifies this, frames
      ensures Valid()
      ensures S.Ready(old(View())) && (View(), pp) == S.PageAlloc(old(View()), zero)
      ensures pp == old(page_free_list)
      ensures frames[..] == if pp.Some? && zero && pp.value < frames.Length
                            then old(frames[..])[pp.value := ZeroFrame()]
                            else old(frames[..])
      ensures pp.Some? ==> pp.value < pages.Length && own == TakeFreeOwn(old(own))
      ensures pp.None? ==> own == old(own)
    {
      ghost var s, o := View(), own;
      if page_free_list.Some? {
        TakeHead(s, o);
        var ret := page_free_list.value;
        page_free_list := pages[ret].link;
        own := TakeFreeOwn(own);
        if zero {
          WriteUntracked(View(), own, ret, ZeroFrame());
          frames[ret] := ZeroFrame();
        }
        assert View() == S.PageAlloc(s, zero).0;
        return Some(ret);
      }
      return None;
    }

    // The caller passes a page that nothing references.
    method PageFree(pp: nat)
      requires pp < pages.Length
      modifies this, pages
      ensures View() == PushFree(old(View()), pp)
      ensures own == old(own)
    {
      pages[pp] := pages[pp].(link := page_free_list);
      page_free_list := Some(pp);
    }

    method PageDecref(pp: nat)
      requires pp < pages.Length
      modifies this, pages
      ensures View() == DecRefState(old(View()), pp)
      ensures own == old(own)
    {
      pages[pp] := pages[pp].(ref := (pages[pp].ref + REF_MOD - 1) % REF_MOD);
      if pages[pp].ref == 0 {
        PageFree(pp);
      }
    }

    // pp->pp_ref++
    method TakeRef(pp: nat)
      requires pp < pages.Length
      modifies pages
      ensures View() == S.IncRefState(old(View()), pp)
    {
      pages[pp] := pages[pp].(ref := (pages[pp].ref + 1) % REF_MOD);
    }

    // *entry = w
    method Store(frame: nat, index: nat, w: Word)
      requires frame < frames.Length && index < ENTRIES
      modifies frames
      ensures View() == SetWord(old(View()), frame, index, w)
    {
      frames[frame] := frames[frame][index := w];
    }

    method PgdirWalk(pgdir: nat, va: nat, create: bool) returns (pt: Option<nat>)
      requires Valid() && S.UserDir(View(), own, pgdir) && va < UTOP
      requires create ==> S.HasRoom(View())
      modifies this, pages, frames
      ensures Valid()
      ensures S.WalkReady(old(View()), pgdir, va)
      ensures (View(), pt) == S.PgdirWalk(old(View()), pgdir, va, create)
      ensures pt.None? ==> own == old(own)
    {
      ghost var s, o := View(), own;
      S.InvReady(s, o, pgdir, va);
      UserPdx(va);
      var dindex := Pdx(va);
      if !frames[pgdir][dindex].Present() {
        if !create { return None; }
        ghost var o' := S.WalkCorrect(s, o, pgdir, va);
        var pg := PageAlloc(true);
        if pg.None? { return None; }
        TakeRef(pg.value);
        Store(pgdir, dindex, Word(pg.value, {P, U, W}));
        own := o';
        assert View() == S.PgdirWalk(s, pgdir, va, create).0;
      }
      return Some(frames[pgdir][dindex].pn);
    }

    method PageLookup(pgdir: nat, va: nat) returns (r: Option<(nat, nat)>)
      requires Valid() && S.UserDir(View(), own, pgdir) && va < UTOP
      ensures S.WalkReady(View(), pgdir, va)
      ensures r == S.PageLookup(View(), pgdir, va)
      ensures r.Some? ==> r.value.0 < pages.Length && r.value.1 < pages.Length
    {
      S.InvReady(View(), own, pgdir, va);
      UserPdx(va);
      if !frames[pgdir][Pdx(va)].Present() { return None; }
      var pt := frames[pgdir][Pdx(va)].pn;
      if !frames[pt][Ptx(va)].Present() { return None; }
      return Some((frames[pt][Ptx(va)].pn, pt));
    }

    method PageRemove(pgdir: nat, va: nat)
      requires Valid() && S.UserDir(View(), own, pgdir) && va < UTOP
      modifies this, pages, frames
      ensures S.RemoveReady(old(View()), pgdir, va)
      ensures View() == S.PageRemove(old(View()), pgdir, va)
      ensures S.Removed(old(View()), old(own), View(), own, pgdir, va)
    {
      ghost var s, o := View(), own;
      ghost var o' := S.RemoveCorrect(s, o, pgdir, va);
      var pg := PageLookup(pgdir, va);
      if pg.Some? {
        PageDecref(pg.value.0);
        Store(pg.value.1, Ptx(va), ZERO_WORD);
      }
      own := o';
      assert View() == S.PageRemove(s, pgdir, va);
    }

    method PageInsert(pgdir: nat, pp: nat, va: nat, perm: Perm) returns (r: int)
      requires Valid() && S.UserDir(View(), own, pgdir) && va < UTOP && S.HasRoom(View())
      requires pp < pages.Length && (own.kind[pp].Held? || own.kind[pp].Data?)
      modifies this, pages, frames
      // the store names another page when `perm` has a bit above the flags that the
      // page number has not; then no account of the counts is right
      ensures Valid() <==> r != 0 || Clean(pp, perm)
      ensures S.InsertReady(old(View()), pgdir, pp, va)
      ensures (View(), r) == S.PageInsert(old(View()), pgdir, pp, va, perm)
      ensures r == 0 || r == -S.E_NO_MEM
      ensures r != 0 <==> !old(frames[pgdir])[Pdx(va)].Present() && old(page_free_list).None?
      ensures r == 0 ==> S.Inserted(old(View()), old(own), View(), own, pgdir, pp, va, perm)
      // user mode can then do there what `perm` says, and elsewhere what it could
      ensures r == 0 ==> S.AccessUpdated(old(View()), View(), old(own), pgdir, va, {P} + perm.flags * {U, W})
      ensures r != 0 ==> View() == old(View()) && own == old(own)
    {
      hide Inv, S.Removed, S.MapUpdated, S.AccessUpdated;
      ghost var s, o := View(), own;
      ghost var o' := S.InsertCorrect(s, o, pgdir, pp, va, perm);
      ghost var o2 := S.InsertMidway(s, o, pgdir, pp, va);
      var pt := PgdirWalk(pgdir, va, true);
      if pt.None? { return -S.E_NO_MEM; }
      TakeRef(pp);
      own := o2;
      ghost var s2 := S.IncRefState(S.PgdirWalk(s, pgdir, va, true).0, pp);
      assert View() == s2;
      if frames[pt.value][Ptx(va)].Present() {
        PageRemove(pgdir, va);
      }
      Store(pt.value, Ptx(va), Stored(pp, perm));
      own := o';
      assert View() == S.PageInsert(s, pgdir, pp, va, perm).0;
      return 0;
    }
  }
}
