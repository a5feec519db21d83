/**
 Physical pages, the linked free list and two-level page tables as values:
 what `kern/pmap.c` keeps in `pages`, `page_free_list` and physical memory.

 `Own` is the bookkeeping the C code leaves implicit: what each page is used for.
 `Inv` is the page ownership invariant; the lemmas say how each elementary
 change to the state moves it.
 */
module Paging {
  import opened Bits

  datatype Option<+T> = None | Some(value: T)

  const ENTRIES: nat := 1024
  const PGSIZE: nat := 4096
  const PTSIZE: nat := 0x400000
  const UTOP: nat := 0xEEC00000
  const USER_PDES: nat := 955
  const REF_MOD: nat := 0x10000

  // One constructor per bit of the low twelve bits of an entry.
  datatype Flag = P | W | U | PWT | PCD | A | D | PS | G | AVL0 | AVL1 | COW

  // A 32-bit entry: page number in the upper twenty bits, flags below.
  datatype Word = Word(pn: nat, flags: set<Flag>) {
    predicate Present() {
      P in flags
    }
  }

  // The 32-bit `perm` argument of page_insert: the flags, and what is above them
  datatype Perm = Perm(high: nat, flags: set<Flag>)

  // page2pa(pp) | perm | PTE_P for page number `p`
  function Stored(p: nat, perm: Perm): Word {
    Word(Or(p, perm.high), perm.flags + {P})
  }

  // The new entry names the page it is meant for.
  predicate Clean(p: nat, perm: Perm) {
    Or(p, perm.high) == p
  }

  // Flags alone
  function Low(flags: set<Flag>): Perm {
    Perm(0, flags)
  }

  lemma LowIsClean(p: nat, flags: set<Flag>)
    ensures Clean(p, Low(flags)) && Stored(p, Low(flags)) == Word(p, flags + {P})
  {
  }

  // (entry & perm) == perm
  predicate Covers(w: Word, perm: Perm) {
    perm.flags <= w.flags && Clean(w.pn, perm)
  }

  const ZERO_WORD: Word := Word(0, {})

  type Frame = f: seq<Word> | |f| == ENTRIES witness seq(ENTRIES, _ => ZERO_WORD)

  function ZeroFrame(): (f: Frame)
    ensures forall j :: 0 <= j < ENTRIES ==> f[j] == ZERO_WORD
  {
    seq(ENTRIES, _ => ZERO_WORD)
  }

  function Pdx(va: nat): nat {
    va / PTSIZE % ENTRIES
  }

  function Ptx(va: nat): (i: nat)
    ensures i < ENTRIES
  {
    va / PGSIZE % ENTRIES
  }

  lemma UserPdx(va: nat)
    requires va < UTOP
    ensures Pdx(va) < USER_PDES
  {
  }

  type uint16 = x: nat | x < REF_MOD

  // struct PageInfo
  datatype PageInfo = PageInfo(link: Option<nat>, ref: uint16)

  datatype State = State(pages: seq<PageInfo>, frames: seq<Frame>, head: Option<nat>)

  /**
   What a page is used for. `Held`: allocated, a caller has the pointer, nothing
   references it yet. `Reserved`: never handed out by `page_init`. `Table(d, i)`:
   the page table that entry `i` of directory `d` names. `Data`: everything a PTE
   below UTOP may name.
   */
  datatype Kind = Free | Held | Reserved | Dir | Table(dir: nat, index: nat) | Data

  // `free`: the free list in order. `surplus[p]`: by how much `pp_ref` exceeds
  // the number of references to `p`.
  datatype Own = Own(free: seq<nat>, kind: seq<Kind>, surplus: seq<nat>)

  // Where a counted reference to a page sits: an env_pgdir field, or an entry.
  datatype Slot = Root(dir: nat) | Entry(frame: nat, index: nat)

  function Limit(kind: seq<Kind>, f: nat): nat {
    if f < |kind| then
      match kind[f]
      case Dir => USER_PDES
      case Table(_, _) => ENTRIES
      case _ => 0
    else 0
  }

  ghost predicate Names(frames: seq<Frame>, kind: seq<Kind>, r: Slot, p: nat) {
    match r
    case Root(d) => d < |kind| && kind[d] == Dir && d == p
    case Entry(f, k) =>
      k < Limit(kind, f) && f < |frames| && frames[f][k].Present() && frames[f][k].pn == p
  }

  ghost function Slots(n: nat): set<Slot> {
    (set d | 0 <= d < n :: Root(d)) + (set f, k | 0 <= f < n && 0 <= k < ENTRIES :: Entry(f, k))
  }

  // The PTEs and PDEs below UTOP naming `p`, and the directory root if `p` is one.
  ghost function Refs(frames: seq<Frame>, kind: seq<Kind>, p: nat): (refs: set<Slot>)
    ensures forall r :: r in refs <==> Names(frames, kind, r, p)
  {
    set r | r in Slots(|kind|) && Names(frames, kind, r, p)
  }

  // Following pp_link from `head` visits exactly `free` and then stops.
  ghost predicate Chain(pages: seq<PageInfo>, head: Option<nat>, free: seq<nat>)
    decreases |free|
  {
    if free == [] then head == None
    else head == Some(free[0]) && free[0] < |pages| && Chain(pages, pages[free[0]].link, free[1..])
  }

  ghost predicate FreeOk(free: seq<nat>, kind: seq<Kind>) {
    && (forall i, j :: 0 <= i < j < |free| ==> free[i] != free[j])
    && (forall p :: p in free ==> p < |kind| && kind[p] == Free)
    && (forall p :: 0 <= p < |kind| && kind[p] == Free ==> p in free)
  }

  ghost predicate TableNamed(frames: seq<Frame>, kind: seq<Kind>, t: nat)
    requires t < |kind| && kind[t].Table?
  {
    var d, i := kind[t].dir, kind[t].index;
    && d < |kind| && d < |frames| && kind[d] == Dir && i < USER_PDES
    && frames[d][i].Present() && frames[d][i].pn == t
  }

  // The hardware lets user mode read and write through a PDE only if the PDE has
  // PTE_U and PTE_W, whatever the PTE says.
  predicate OpenPde(pde: Word) {
    U in pde.flags && W in pde.flags && PS !in pde.flags
  }

  // Every user PDE names its own page table and leaves access to the PTEs, every
  // table has its PDE, every user PTE names a data page.
  ghost predicate TreeOk(frames: seq<Frame>, kind: seq<Kind>)
    requires |frames| == |kind|
  {
    && (forall d, i :: 0 <= d < |kind| && kind[d] == Dir && 0 <= i < USER_PDES && frames[d][i].Present() ==>
          OpenPde(frames[d][i]) && frames[d][i].pn < |kind| && kind[frames[d][i].pn] == Table(d, i))
    && (forall t :: 0 <= t < |kind| && kind[t].Table? ==> TableNamed(frames, kind, t))
    && (forall t, j :: 0 <= t < |kind| && kind[t].Table? && 0 <= j < ENTRIES && frames[t][j].Present() ==>
          frames[t][j].pn < |kind| && kind[frames[t][j].pn] == Data)
  }

  // pp_ref is the number of references plus the surplus, and a page in use has
  // a non-zero count.
  ghost predicate CountOk(s: State, o: Own, p: nat)
    requires p < |s.pages| && p < |o.surplus| && p < |o.kind|
  {
    && (o.kind[p] != Reserved ==> s.pages[p].ref == |Refs(s.frames, o.kind, p)| + o.surplus[p])
    && (o.kind[p] == Data || o.kind[p] == Dir || o.kind[p].Table? ==> s.pages[p].ref > 0)
  }

  ghost predicate Sized(s: State, o: Own) {
    |s.frames| == |s.pages| == |o.surplus| == |o.kind|
  }

  ghost predicate Inv(s: State, o: Own) {
    && Sized(s, o)
    && Chain(s.pages, s.head, o.free)
    && FreeOk(o.free, o.kind)
    && TreeOk(s.frames, o.kind)
    && (forall p :: 0 <= p < |s.pages| ==> CountOk(s, o, p))
  }

  // ----- elementary changes -----

  function SetWord(s: State, f: nat, k: nat, w: Word): State
    requires f < |s.frames| && k < ENTRIES
  {
    s.(frames := s.frames[f := s.frames[f][k := w]])
  }

  function SetRef(s: State, p: nat, n: uint16): State
    requires p < |s.pages|
  {
    s.(pages := s.pages[p := s.pages[p].(ref := n)])
  }

  ghost function SetKind(o: Own, p: nat, k: Kind): Own
    requires p < |o.kind|
  {
    o.(kind := o.kind[p := k])
  }

  ghost function AddSurplus(o: Own, p: nat): Own
    requires p < |o.surplus|
  {
    o.(surplus := o.surplus[p := o.surplus[p] + 1])
  }

  ghost function UseSurplus(o: Own, p: nat): Own
    requires p < |o.surplus| && o.surplus[p] > 0
  {
    o.(surplus := o.surplus[p := o.surplus[p] - 1])
  }

  // The chain survives any change to a page that is not on it.
  lemma {:induction false} ChainFrame(pages: seq<PageInfo>, head: Option<nat>, free: seq<nat>, p: nat, info: PageInfo)
    requires Chain(pages, head, free) && p < |pages| && p !in free
    ensures Chain(pages[p := info], head, free)
    decreases |free|
  {
    if free != [] {
      assert free[0] in free;
      ChainFrame(pages, pages[free[0]].link, free[1..], p, info);
    }
  }

  // Slots that agree on `p` give `p` the same references.
  lemma SameRefs(f: seq<Frame>, k: seq<Kind>, f': seq<Frame>, k': seq<Kind>, p: nat)
    requires forall r :: Names(f, k, r, p) <==> Names(f', k', r, p)
    ensures Refs(f, k, p) == Refs(f', k', p)
  {
  }

  // Changing the kind of a page none of whose words count, to another such
  // kind, changes no reference.
  lemma SameRefsKind(f: seq<Frame>, k: seq<Kind>, x: nat, new_: Kind, p: nat)
    requires x < |k| && (k[x].Free? || k[x].Held? || k[x].Data?) && (new_.Free? || new_.Held? || new_.Data?)
    ensures Refs(f, k, p) == Refs(f, k[x := new_], p)
  {
    SameRefs(f, k, f, k[x := new_], p);
  }

  // A counted slot names a directory, a table or a data page.
  lemma NamedInUse(s: State, o: Own, r: Slot, p: nat)
    requires Inv(s, o) && Names(s.frames, o.kind, r, p)
    ensures p < |o.kind| && (o.kind[p] == Data || o.kind[p] == Dir || o.kind[p].Table?)
  {
  }

  // Free and held pages are unreferenced.
  lemma Unreferenced(s: State, o: Own, p: nat)
    requires Inv(s, o) && p < |s.pages| && (o.kind[p].Free? || o.kind[p].Held?)
    ensures Refs(s.frames, o.kind, p) == {}
  {
    forall r ensures !Names(s.frames, o.kind, r, p) {
      if Names(s.frames, o.kind, r, p) { NamedInUse(s, o, r, p); }
    }
  }

  // A directory has its root reference, a page table its PDE.
  lemma Referenced(s: State, o: Own, p: nat)
    requires Inv(s, o) && p < |s.pages| && (o.kind[p].Dir? || o.kind[p].Table?)
    ensures Refs(s.frames, o.kind, p) != {}
  {
    var r := if o.kind[p].Dir? then Root(p) else Entry(o.kind[p].dir, o.kind[p].index);
    if o.kind[p].Table? { assert TableNamed(s.frames, o.kind, p); }
    assert r in Refs(s.frames, o.kind, p);
  }

  // pp->pp_ref++ on a page that is not free
  lemma IncRef(s: State, o: Own, p: nat)
    requires Inv(s, o) && p < |s.pages| && !o.kind[p].Free? && s.pages[p].ref < REF_MOD - 1
    ensures Inv(SetRef(s, p, s.pages[p].ref + 1), AddSurplus(o, p))
  {
    var s', o' := SetRef(s, p, s.pages[p].ref + 1), AddSurplus(o, p);
    ChainFrame(s.pages, s.head, o.free, p, s'.pages[p]);
    forall q | 0 <= q < |s'.pages| ensures CountOk(s', o', q) {
      assert CountOk(s, o, q);
    }
  }

  function PushFree(s: State, p: nat): State
    requires p < |s.pages|
  {
    s.(pages := s.pages[p := s.pages[p].(link := s.head)], head := Some(p))
  }

  ghost function PushFreeOwn(o: Own, p: nat): Own
    requires p < |o.kind|
  {
    SetKind(o, p, Free).(free := [p] + o.free)
  }

  // The tables do not care which of the two an unmapped page is.
  lemma TreeAfterKind(f: seq<Frame>, k: seq<Kind>, p: nat, kind: Kind)
    requires |f| == |k| && TreeOk(f, k) && p < |k| && (k[p].Free? || k[p].Held?) && (kind.Free? || kind.Held?)
    ensures TreeOk(f, k[p := kind])
  {
    var k' := k[p := kind];
    forall t | 0 <= t < |k'| && k'[t].Table? ensures TableNamed(f, k', t) {
      assert TableNamed(f, k, t);
    }
  }

  // page_free of a page that nothing references
  lemma PushUnreferenced(s: State, o: Own, p: nat)
    requires Inv(s, o) && p < |s.pages| && o.kind[p].Held?
    ensures Inv(PushFree(s, p), PushFreeOwn(o, p))
  {
    hide TreeOk, Refs;
    var s', o' := PushFree(s, p), PushFreeOwn(o, p);
    TreeAfterKind(s.frames, o.kind, p, Free);
    ChainFrame(s.pages, s.head, o.free, p, s'.pages[p]);
    assert o'.free[1..] == o.free;
    forall q | 0 <= q < |s'.pages| ensures CountOk(s', o', q) {
      assert CountOk(s, o, q);
      SameRefsKind(s.frames, o.kind, p, Free, q);
    }
  }

  // A page whose count has dropped to zero is in nobody's tables.
  lemma Retire(s: State, o: Own, p: nat)
    requires Inv(s, o) && p < |s.pages| && !o.kind[p].Free? && !o.kind[p].Reserved?
    requires s.pages[p].ref == 1 && o.surplus[p] > 0
    ensures Inv(SetRef(s, p, 0), SetKind(UseSurplus(o, p), p, Held))
  {
    var s', o' := SetRef(s, p, 0), SetKind(UseSurplus(o, p), p, Held);
    assert CountOk(s, o, p);
    assert Refs(s.frames, o.kind, p) == {};
    if o.kind[p].Dir? || o.kind[p].Table? { Referenced(s, o, p); }
    forall t, j | 0 <= t < |o.kind| && o.kind[t].Table? && 0 <= j < ENTRIES && s.frames[t][j].Present()
      ensures s.frames[t][j].pn != p
    {
      assert Entry(t, j) !in Refs(s.frames, o.kind, p);
    }
    forall x | 0 <= x < |o'.kind| && o'.kind[x].Table? ensures TableNamed(s.frames, o'.kind, x) {
      assert TableNamed(s.frames, o.kind, x);
    }
    ChainFrame(s.pages, s.head, o.free, p, s'.pages[p]);
    forall q | 0 <= q < |s'.pages| ensures CountOk(s', o', q) {
      assert CountOk(s, o, q);
      SameRefsKind(s.frames, o.kind, p, Held, q);
    }
  }

  function DecRefState(s: State, p: nat): State
    requires p < |s.pages|
  {
    var s1 := SetRef(s, p, (s.pages[p].ref + REF_MOD - 1) % REF_MOD);
    if s1.pages[p].ref == 0 then PushFree(s1, p) else s1
  }

  ghost function DecRefOwn(s: State, o: Own, p: nat): Own
    requires p < |s.pages| && p < |o.surplus| && o.surplus[p] > 0 && p < |o.kind|
  {
    if s.pages[p].ref == 1 then PushFreeOwn(UseSurplus(o, p), p) else UseSurplus(o, p)
  }

  // page_decref takes back one reference nothing names any more, and frees the
  // page exactly when that was the last one.
  lemma DecRef(s: State, o: Own, p: nat)
    requires Inv(s, o) && p < |s.pages| && !o.kind[p].Free? && !o.kind[p].Reserved?
    requires o.surplus[p] > 0
    ensures Inv(DecRefState(s, p), DecRefOwn(s, o, p))
  {
    assert CountOk(s, o, p);
    if s.pages[p].ref == 1 {
      Retire(s, o, p);
      var s1, o1 := SetRef(s, p, 0), SetKind(UseSurplus(o, p), p, Held);
      PushUnreferenced(s1, o1, p);
      assert PushFreeOwn(o1, p) == DecRefOwn(s, o, p);
    } else {
      DropOne(s, o, p);
    }
  }

  // A count taken back while others remain
  lemma DropOne(s: State, o: Own, p: nat)
    requires Inv(s, o) && p < |s.pages| && !o.kind[p].Free? && !o.kind[p].Reserved?
    requires o.surplus[p] > 0 && s.pages[p].ref > 1
    ensures Inv(SetRef(s, p, s.pages[p].ref - 1), UseSurplus(o, p))
  {
    var s', o' := SetRef(s, p, s.pages[p].ref - 1), UseSurplus(o, p);
    ChainFrame(s.pages, s.head, o.free, p, s'.pages[p]);
    forall q | 0 <= q < |s'.pages| ensures CountOk(s', o', q) {
      assert CountOk(s, o, q);
    }
  }

  function TakeFree(s: State): State
    requires s.head.Some? && s.head.value < |s.pages|
  {
    s.(head := s.pages[s.head.value].link)
  }

  ghost function TakeFreeOwn(o: Own): Own
    requires o.free != [] && o.free[0] < |o.kind|
  {
    SetKind(o, o.free[0], Held).(free := o.free[1..])
  }

  // page_alloc moves the first free page into the caller's hands.
  lemma TakeHead(s: State, o: Own)
    requires Inv(s, o) && s.head.Some?
    ensures o.free != [] && o.free[0] == s.head.value < |s.pages| && o.kind[o.free[0]] == Free
    ensures Inv(TakeFree(s), TakeFreeOwn(o))
  {
    hide TreeOk, Refs;
    assert o.free[0] in o.free;
    var p := s.head.value;
    var s', o' := TakeFree(s), TakeFreeOwn(o);
    TreeAfterKind(s.frames, o.kind, p, Held);
    assert o.free == [p] + o'.free;
    assert forall i :: 0 <= i < |o'.free| ==> o'.free[i] == o.free[i + 1];
    assert forall x :: x in o'.free ==> x in o.free && x != p;
    forall q | 0 <= q < |s'.pages| ensures CountOk(s', o', q) {
      assert CountOk(s, o, q);
      SameRefsKind(s.frames, o.kind, p, Held, q);
    }
  }

  // Contents of a page that is neither directory nor table carry no references.
  lemma WriteUntracked(s: State, o: Own, f: nat, c: Frame)
    requires Inv(s, o) && f < |s.frames| && !o.kind[f].Dir? && !o.kind[f].Table?
    ensures Inv(s.(frames := s.frames[f := c]), o)
  {
    var s' := s.(frames := s.frames[f := c]);
    forall x | 0 <= x < |o.kind| && o.kind[x].Table? ensures TableNamed(s'.frames, o.kind, x) {
      assert TableNamed(s.frames, o.kind, x);
    }
    forall q | 0 <= q < |s'.pages| ensures CountOk(s', o, q) {
      assert CountOk(s, o, q);
      SameRefs(s.frames, o.kind, s'.frames, o.kind, q);
    }
  }

  // How the references move when one word of a tracked frame and one kind change.
  lemma RefsAfterWrite(f: seq<Frame>, k: seq<Kind>, t: nat, j: nat, w: Word, q: nat)
    requires |f| == |k| && t < |k| && j < Limit(k, t)
    ensures var r' := Refs(f[t := f[t][j := w]], k, q);
            var r := Refs(f, k, q) - {Entry(t, j)};
            r' == if w.Present() && w.pn == q then r + {Entry(t, j)} else r
  {
  }

  // One reference more, where there was none
  lemma CountAfterLink(f: seq<Frame>, k: seq<Kind>, t: nat, j: nat, w: Word, q: nat)
    requires |f| == |k| && t < |k| && j < Limit(k, t) && !f[t][j].Present() && w.Present()
    ensures |Refs(f[t := f[t][j := w]], k, q)| == |Refs(f, k, q)| + if w.pn == q then 1 else 0
  {
    RefsAfterWrite(f, k, t, j, w, q);
    assert Entry(t, j) !in Refs(f, k, q);
    assert Refs(f, k, q) - {Entry(t, j)} == Refs(f, k, q);
  }

  // An empty page in hand can become a table.
  lemma TreeAfterTable(f: seq<Frame>, k: seq<Kind>, d: nat, i: nat, w: Word)
    requires |f| == |k| && TreeOk(f, k) && d < |k| && k[d].Dir? && i < USER_PDES && !f[d][i].Present()
    requires w.Present() && OpenPde(w) && w.pn < |k| && k[w.pn].Held?
    requires forall j :: 0 <= j < ENTRIES ==> !f[w.pn][j].Present()
    ensures TreeOk(f[d := f[d][i := w]], k[w.pn := Table(d, i)])
  {
    var f', k' := f[d := f[d][i := w]], k[w.pn := Table(d, i)];
    forall x | 0 <= x < |k'| && k'[x].Table? ensures TableNamed(f', k', x) {
      assert x != w.pn ==> TableNamed(f, k, x);
    }
  }

  // A page in hand or in use can go into a table.
  lemma TreeAfterLink(f: seq<Frame>, k: seq<Kind>, t: nat, j: nat, w: Word)
    requires |f| == |k| && TreeOk(f, k) && t < |k| && k[t].Table? && j < ENTRIES
    requires w.Present() && w.pn < |k| && (k[w.pn].Held? || k[w.pn].Data?)
    ensures TreeOk(f[t := f[t][j := w]], k[w.pn := Data])
  {
    var f', k' := f[t := f[t][j := w]], k[w.pn := Data];
    forall x | 0 <= x < |k'| && k'[x].Table? ensures TableNamed(f', k', x) {
      assert TableNamed(f, k, x);
    }
  }

  // Writing a PTE for a page whose reference was counted in advance
  lemma LinkData(s: State, o: Own, t: nat, j: nat, w: Word)
    requires Inv(s, o) && t < |o.kind| && o.kind[t].Table? && j < ENTRIES && !s.frames[t][j].Present()
    requires w.Present() && w.pn < |s.pages| && o.surplus[w.pn] > 0
    requires o.kind[w.pn].Held? || o.kind[w.pn].Data?
    ensures Inv(SetWord(s, t, j, w), SetKind(UseSurplus(o, w.pn), w.pn, Data))
  {
    hide Refs, Chain, TreeOk;
    var s', o' := SetWord(s, t, j, w), SetKind(UseSurplus(o, w.pn), w.pn, Data);
    TreeAfterLink(s.frames, o.kind, t, j, w);
    forall q | 0 <= q < |s'.pages| ensures CountOk(s', o', q) {
      assert CountOk(s, o, q);
      SameRefsKind(s.frames, o.kind, w.pn, Data, q);
      CountAfterLink(s.frames, o'.kind, t, j, w, q);
    }
  }

  // The bookkeeping agrees on directories and reserved pages.
  ghost predicate SameDirs(o: Own, o': Own) {
    |o.kind| == |o'.kind| &&
    forall x :: 0 <= x < |o.kind| ==>
      (o.kind[x].Dir? <==> o'.kind[x].Dir?) && (o.kind[x].Reserved? <==> o'.kind[x].Reserved?)
  }

  // Some account of what pages are for, with the same directories and surpluses,
  // explains the state.
  ghost predicate Explained(s: State, o: Own) {
    exists b :: SameDirs(o, b) && b.surplus == o.surplus && Inv(s, b)
  }

  // The directories decide what the page tables are.
  lemma SameTables(s: State, o: Own, s': State, b: Own, x: nat)
    requires Inv(s, o) && Inv(s', b) && SameDirs(o, b) && x < |o.kind|
    requires forall d, i ::
               0 <= d < |o.kind| && o.kind[d].Dir? && 0 <= i < USER_PDES ==> s'.frames[d][i] == s.frames[d][i]
    ensures o.kind[x].Table? || b.kind[x].Table? ==> b.kind[x] == o.kind[x]
  {
    hide Chain, FreeOk, CountOk;
    if o.kind[x].Table? { assert TableNamed(s.frames, o.kind, x); }
    if b.kind[x].Table? { assert TableNamed(s'.frames, b.kind, x); }
  }

  // A PTE made to name another page than the one counted for it: one reference more
  // to that page, and one less to the old one.
  lemma RefsAfterRename(f: seq<Frame>, k: seq<Kind>, t: nat, j: nat, w: Word, q: nat)
    requires |f| == |k| && t < |k| && k[t].Table? && j < ENTRIES && f[t][j].Present() && w.Present()
    requires w.pn != f[t][j].pn
    ensures |Refs(f[t := f[t][j := w]], k, q)| ==
            |Refs(f, k, q)| + (if q == w.pn then 1 else 0) - (if q == f[t][j].pn then 1 else 0)
  {
    var r := Refs(f, k, q);
    RefsAfterWrite(f, k, t, j, w, q);
    assert Entry(t, j) in r <==> q == f[t][j].pn;
    if q != f[t][j].pn { assert r - {Entry(t, j)} == r; }
  }

  // What a PTE names is not decided by what is counted for it: naming another page
  // leaves a state that no account explains.
  lemma RenamedUnexplained(s: State, o: Own, t: nat, j: nat, w: Word, b: Own)
    requires Inv(s, o) && t < |o.kind| && o.kind[t].Table? && j < ENTRIES && s.frames[t][j].Present()
    requires w.Present() && w.pn != s.frames[t][j].pn && SameDirs(o, b) && b.surplus == o.surplus
    ensures !Inv(SetWord(s, t, j, w), b)
  {
    var s', q := SetWord(s, t, j, w), w.pn;
    if Inv(s', b) {
      hide Chain, FreeOk;
      forall x | 0 <= x < |o.kind| ensures o.kind[x].Table? || b.kind[x].Table? ==> b.kind[x] == o.kind[x] {
        SameTables(s, o, s', b, x);
      }
      assert b.kind[t].Table? && s'.frames[t][j] == w;
      assert q < |b.kind| && b.kind[q] == Data;
      assert CountOk(s, o, q) && CountOk(s', b, q);
      SameRefs(s'.frames, o.kind, s'.frames, b.kind, q);
      RefsAfterRename(s.frames, o.kind, t, j, w, q);
    }
  }

  // So the books are right after a store into a PTE exactly when it names the same page.
  lemma RenamedExactly(s: State, o: Own, t: nat, j: nat, w: Word)
    requires Inv(s, o) && t < |o.kind| && o.kind[t].Table? && j < ENTRIES && s.frames[t][j].Present()
    requires w.Present()
    ensures Inv(SetWord(s, t, j, w), o) <==> w.pn == s.frames[t][j].pn
    ensures Explained(SetWord(s, t, j, w), o) <==> w.pn == s.frames[t][j].pn
  {
    if w.pn == s.frames[t][j].pn {
      NewFlags(s, o, t, j, w);
    } else {
      forall b | SameDirs(o, b) && b.surplus == o.surplus ensures !Inv(SetWord(s, t, j, w), b) {
        RenamedUnexplained(s, o, t, j, w, b);
      }
    }
  }

  lemma NewFlags(s: State, o: Own, t: nat, j: nat, w: Word)
    requires Inv(s, o) && t < |o.kind| && o.kind[t].Table? && j < ENTRIES && s.frames[t][j].Present()
    requires w.Present() && w.pn == s.frames[t][j].pn
    ensures Inv(SetWord(s, t, j, w), o)
  {
    hide Chain, FreeOk;
    var s' := SetWord(s, t, j, w);
    forall x | 0 <= x < |o.kind| && o.kind[x].Table? ensures TableNamed(s'.frames, o.kind, x) {
      assert TableNamed(s.frames, o.kind, x);
    }
    forall q | 0 <= q < |s'.pages| ensures CountOk(s', o, q) {
      assert CountOk(s, o, q);
      SameRefs(s.frames, o.kind, s'.frames, o.kind, q);
    }
  }

  // The count of the page it names by mistake is then one too low.
  ghost predicate Undercounted(s: State, o: Own, q: nat)
    requires Sized(s, o)
  {
    q < |o.kind| && !o.kind[q].Reserved? ==> s.pages[q].ref + 1 == |Refs(s.frames, o.kind, q)| + o.surplus[q]
  }

  lemma RenamedUndercounts(s: State, o: Own, t: nat, j: nat, w: Word)
    requires Inv(s, o) && t < |o.kind| && o.kind[t].Table? && j < ENTRIES && s.frames[t][j].Present()
    requires w.Present() && w.pn != s.frames[t][j].pn
    ensures Undercounted(SetWord(s, t, j, w), o, w.pn)
  {
    hide Chain, FreeOk, TreeOk;
    if w.pn < |s.pages| { assert CountOk(s, o, w.pn); }
    RefsAfterRename(s.frames, o.kind, t, j, w, w.pn);
  }

  // Clearing a PTE leaves its page one count ahead of its references.
  lemma UnlinkData(s: State, o: Own, t: nat, j: nat)
    requires Inv(s, o) && t < |o.kind| && o.kind[t].Table? && j < ENTRIES && s.frames[t][j].Present()
    ensures s.frames[t][j].pn < |o.surplus|
    ensures Inv(SetWord(s, t, j, ZERO_WORD), AddSurplus(o, s.frames[t][j].pn))
  {
    var p := s.frames[t][j].pn;
    var s', o' := SetWord(s, t, j, ZERO_WORD), AddSurplus(o, p);
    forall x | 0 <= x < |o.kind| && o.kind[x].Table? ensures TableNamed(s'.frames, o.kind, x) {
      assert TableNamed(s.frames, o.kind, x);
    }
    forall q | 0 <= q < |s'.pages| ensures CountOk(s', o', q) {
      assert CountOk(s, o, q);
      RefsAfterWrite(s.frames, o.kind, t, j, ZERO_WORD, q);
      assert Entry(t, j) in Refs(s.frames, o.kind, q) <==> q == p;
    }
  }

  // Promoting a page with no present word below its limit changes no reference
  // except a directory's own root.
  lemma RefsAfterPromotion(f: seq<Frame>, k: seq<Kind>, x: nat, new_: Kind, q: nat)
    requires |f| == |k| && x < |k|
    requires !k[x].Dir? && !new_.Dir?
    requires forall j :: 0 <= j < Limit(k, x) || 0 <= j < Limit(k[x := new_], x) ==> !f[x][j].Present()
    ensures Refs(f, k[x := new_], q) == Refs(f, k, q)
  {
    SameRefs(f, k, f, k[x := new_], q);
  }

  ghost function LinkTableOwn(o: Own, d: nat, i: nat, t: nat): Own
    requires t < |o.surplus| && o.surplus[t] > 0 && t < |o.kind|
  {
    SetKind(UseSurplus(o, t), t, Table(d, i))
  }

  // Hanging a zeroed page table under a directory
  lemma LinkTable(s: State, o: Own, d: nat, i: nat, w: Word)
    requires Inv(s, o) && d < |o.kind| && o.kind[d].Dir? && i < USER_PDES && !s.frames[d][i].Present()
    requires w.Present() && OpenPde(w) && w.pn < |o.kind| && o.kind[w.pn].Held? && o.surplus[w.pn] > 0
    requires forall j :: 0 <= j < ENTRIES ==> !s.frames[w.pn][j].Present()
    ensures Inv(SetWord(s, d, i, w), LinkTableOwn(o, d, i, w.pn))
  {
    hide Chain, TreeOk, Refs;
    var t := w.pn;
    var s', o' := SetWord(s, d, i, w), LinkTableOwn(o, d, i, t);
    TreeAfterTable(s.frames, o.kind, d, i, w);
    forall q | 0 <= q < |s'.pages| ensures CountOk(s', o', q) {
      assert CountOk(s, o, q);
      RefsAfterPromotion(s.frames, o.kind, t, Table(d, i), q);
      CountAfterLink(s.frames, o'.kind, d, i, w, q);
    }
  }

  ghost function UnlinkTableOwn(o: Own, t: nat): Own
    requires t < |o.surplus| && t < |o.kind|
  {
    SetKind(AddSurplus(o, t), t, Data)
  }

  // Clearing the PDE of a page table that holds no mapping any more
  lemma UnlinkTable(s: State, o: Own, d: nat, i: nat)
    requires Inv(s, o) && d < |o.kind| && o.kind[d].Dir? && i < USER_PDES && s.frames[d][i].Present()
    requires var t := s.frames[d][i].pn; t < |s.frames| ==> forall j :: 0 <= j < ENTRIES ==> !s.frames[t][j].Present()
    ensures s.frames[d][i].pn < |o.surplus|
    ensures Inv(SetWord(s, d, i, ZERO_WORD), UnlinkTableOwn(o, s.frames[d][i].pn))
  {
    var t := s.frames[d][i].pn;
    var s', o' := SetWord(s, d, i, ZERO_WORD), UnlinkTableOwn(o, t);
    forall x | 0 <= x < |o'.kind| && o'.kind[x].Table? ensures TableNamed(s'.frames, o'.kind, x) {
      assert TableNamed(s.frames, o.kind, x);
    }
    forall q | 0 <= q < |s'.pages| ensures CountOk(s', o', q) {
      assert CountOk(s, o, q);
      RefsAfterPromotion(s.frames, o.kind, t, Data, q);
      RefsAfterWrite(s.frames, o'.kind, d, i, ZERO_WORD, q);
      assert Entry(d, i) in Refs(s.frames, o.kind, q) <==> q == t;
    }
  }

  // Making a page with nothing mapped below UTOP a directory adds its root, and
  // taking a directory away drops it.
  lemma RefsAfterRoot(f: seq<Frame>, k: seq<Kind>, d: nat, old_: Kind, q: nat)
    requires |f| == |k| && d < |k| && k[d] == Dir && (old_.Held? || old_.Data?)
    requires forall i :: 0 <= i < USER_PDES ==> !f[d][i].Present()
    ensures Refs(f, k[d := old_], q) == Refs(f, k, q) - {Root(d)}
    ensures Root(d) in Refs(f, k, q) <==> q == d
  {
  }

  ghost function AddRootOwn(o: Own, d: nat): Own
    requires d < |o.surplus| && o.surplus[d] > 0 && d < |o.kind|
  {
    SetKind(UseSurplus(o, d), d, Dir)
  }

  // e->env_pgdir = p for a page with nothing mapped below UTOP
  lemma AddRoot(s: State, o: Own, d: nat)
    requires Inv(s, o) && d < |o.kind| && o.kind[d].Held? && o.surplus[d] > 0
    requires forall i :: 0 <= i < USER_PDES ==> !s.frames[d][i].Present()
    ensures Inv(s, AddRootOwn(o, d))
  {
    var o' := AddRootOwn(o, d);
    assert o.kind == o'.kind[d := Held];
    forall x | 0 <= x < |o'.kind| && o'.kind[x].Table? ensures TableNamed(s.frames, o'.kind, x) {
      assert TableNamed(s.frames, o.kind, x);
    }
    forall q | 0 <= q < |s.pages| ensures CountOk(s, o', q) {
      assert CountOk(s, o, q);
      RefsAfterRoot(s.frames, o'.kind, d, Held, q);
    }
  }

  ghost function DropRootOwn(o: Own, d: nat): Own
    requires d < |o.surplus| && d < |o.kind|
  {
    SetKind(AddSurplus(o, d), d, Data)
  }

  // e->env_pgdir = 0 once the directory maps nothing below UTOP
  lemma DropRoot(s: State, o: Own, d: nat)
    requires Inv(s, o) && d < |o.kind| && o.kind[d].Dir?
    requires forall i :: 0 <= i < USER_PDES ==> !s.frames[d][i].Present()
    ensures Inv(s, DropRootOwn(o, d))
  {
    var o' := DropRootOwn(o, d);
    forall x | 0 <= x < |o'.kind| && o'.kind[x].Table? ensures TableNamed(s.frames, o'.kind, x) {
      assert TableNamed(s.frames, o.kind, x);
    }
    forall q | 0 <= q < |s.pages| ensures CountOk(s, o', q) {
      assert CountOk(s, o, q);
      RefsAfterRoot(s.frames, o.kind, d, Data, q);
    }
  }
}
