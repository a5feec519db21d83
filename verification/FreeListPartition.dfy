/**
 The relinking at the head of check_page_free_list (`kern/pmap.c`): low-address
 pages are moved to the front of the free list, in place, with one tail pointer
 for each of the two classes.
 */
module FreeListPartition {
  import opened Paging

  const PDX_LIMIT: nat := 1

  // 0: a page entry_pgdir maps, 1: one it does not
  function PageType(pp: nat): (t: nat)
    ensures t < 2
  {
    if Pdx(pp * PGSIZE) >= PDX_LIMIT then 1 else 0
  }

  // The pages of one class, in the order they have in `ps`
  function Only(ps: seq<nat>, t: nat): seq<nat> {
    if ps == [] then []
    else
      var last := ps[|ps| - 1];
      if PageType(last) == t then Only(ps[..|ps| - 1], t) + [last] else Only(ps[..|ps| - 1], t)
  }

  function Partitioned(ps: seq<nat>): seq<nat> {
    Only(ps, 0) + Only(ps, 1)
  }

  // The same pages, each as often as before
  lemma {:induction false} PartitionPermutes(ps: seq<nat>)
    ensures multiset(Partitioned(ps)) == multiset(ps)
  {
    if ps != [] {
      PartitionPermutes(ps[..|ps| - 1]);
      assert ps == ps[..|ps| - 1] + [ps[|ps| - 1]];
    }
  }

  lemma {:induction false} OnlyMembers(ps: seq<nat>, t: nat)
    ensures forall x :: x in Only(ps, t) <==> x in ps && PageType(x) == t
  {
    if ps != [] {
      OnlyMembers(ps[..|ps| - 1], t);
      assert ps == ps[..|ps| - 1] + [ps[|ps| - 1]];
    }
  }

  ghost predicate Distinct(ps: seq<nat>) {
    forall i, j :: 0 <= i < j < |ps| ==> ps[i] != ps[j]
  }

  lemma {:induction false} OnlyDistinct(ps: seq<nat>, t: nat)
    requires Distinct(ps)
    ensures Distinct(Only(ps, t))
  {
    if ps != [] {
      OnlyDistinct(ps[..|ps| - 1], t);
      OnlyMembers(ps[..|ps| - 1], t);
    }
  }

  // Stability: two pages of one class that `ps` has in some order are in the same
  // order afterwards.
  lemma {:induction false} OnlyKeepsOrder(ps: seq<nat>, i: nat, j: nat) returns (i': nat, j': nat)
    requires i < j < |ps| && PageType(ps[i]) == PageType(ps[j])
    ensures var s := Only(ps, PageType(ps[i])); i' < j' < |s| && s[i'] == ps[i] && s[j'] == ps[j]
  {
    var front, t := ps[..|ps| - 1], PageType(ps[i]);
    if j < |ps| - 1 {
      i', j' := OnlyKeepsOrder(front, i, j);
    } else {
      OnlyMembers(front, t);
      assert front[i] in Only(front, t);
      i' :| 0 <= i' < |Only(front, t)| && Only(front, t)[i'] == ps[i];
      j' := |Only(front, t)|;
    }
  }

  // ----- what the relinking is for -----

  const PAGES: nat := 0x100000   // of a physical address space of 32 bits

  ghost predicate Before(s: seq<nat>, a: nat, b: nat) {
    exists i, j :: 0 <= i < j < |s| && s[i] == a && s[j] == b
  }

  predicate Below(p: nat, limit: nat) {
    p * PGSIZE < limit
  }

  // `s` is `ps` with the pages below PTSIZE, those that the first page directory of
  // the boot maps, moved to the front: no page from PTSIZE on stands before one
  // below it, and two pages on the same side stand as they did.
  ghost predicate LowPagesFirst(ps: seq<nat>, s: seq<nat>) {
    && multiset(s) == multiset(ps)
    && (forall i, j :: 0 <= i < j < |s| && Below(s[j], PTSIZE) ==> Below(s[i], PTSIZE))
    && (forall i, j :: 0 <= i < j < |ps| && Below(ps[i], PTSIZE) == Below(ps[j], PTSIZE) ==> Before(s, ps[i], ps[j]))
  }

  lemma TypeIsSide(p: nat)
    requires p < PAGES
    ensures PageType(p) == if Below(p, PTSIZE) then 0 else 1
  {
    var q := p * PGSIZE / PTSIZE;
    assert q < ENTRIES;
    assert Pdx(p * PGSIZE) == q;
  }

  lemma PartitionedIsLowPagesFirst(ps: seq<nat>)
    requires forall p :: p in ps ==> p < PAGES
    ensures LowPagesFirst(ps, Partitioned(ps))
  {
    var lo, hi := Only(ps, 0), Only(ps, 1);
    PartitionPermutes(ps);
    OnlyMembers(ps, 0);
    OnlyMembers(ps, 1);
    forall i, j | 0 <= i < j < |lo + hi| && Below((lo + hi)[j], PTSIZE) ensures Below((lo + hi)[i], PTSIZE) {
      assert (lo + hi)[i] in (if i < |lo| then lo else hi) && (lo + hi)[j] in (if j < |lo| then lo else hi);
      TypeIsSide((lo + hi)[j]);
      TypeIsSide((lo + hi)[i]);
    }
    forall i, j | 0 <= i < j < |ps| && Below(ps[i], PTSIZE) == Below(ps[j], PTSIZE)
      ensures Before(lo + hi, ps[i], ps[j])
    {
      assert ps[i] in ps && ps[j] in ps;
      TypeIsSide(ps[i]);
      TypeIsSide(ps[j]);
      var i', j' := OnlyKeepsOrder(ps, i, j);
      var shift := if PageType(ps[i]) == 0 then 0 else |lo|;
      assert (lo + hi)[i' + shift] == ps[i] && (lo + hi)[j' + shift] == ps[j];
    }
  }

  // ----- links -----

  // Each element links to the next; the last one's link is not looked at.
  ghost predicate Linked(pages: seq<PageInfo>, s: seq<nat>) {
    && (forall i :: 0 <= i < |s| ==> s[i] < |pages|)
    && (forall i :: 0 <= i < |s| - 1 ==> pages[s[i]].link == Some(s[i + 1]))
  }

  function First(s: seq<nat>): Option<nat> {
    if s == [] then None else Some(s[0])
  }

  function Last(s: seq<nat>): Option<nat> {
    if s == [] then None else Some(s[|s| - 1])
  }

  lemma {:induction false} ChainIsLinked(pages: seq<PageInfo>, head: Option<nat>, s: seq<nat>)
    ensures Chain(pages, head, s) <==>
              head == First(s) && Linked(pages, s) && (s != [] ==> pages[s[|s| - 1]].link == None)
    decreases |s|
  {
    if s != [] && s[0] < |pages| {
      ChainIsLinked(pages, pages[s[0]].link, s[1..]);
      if Linked(pages, s[1..]) && pages[s[0]].link == First(s[1..]) {
        assert forall i :: 1 <= i < |s| ==> s[i] == s[1..][i - 1];
      }
      if Linked(pages, s) {
        assert forall i :: 0 <= i < |s[1..]| ==> s[1..][i] == s[i + 1];
      }
    }
  }

  // The list of one class: its first page, and the tail pointer at its last
  ghost predicate ClassOk(pages: seq<PageInfo>, s: seq<nat>, first: Option<nat>, tail: Option<nat>) {
    Linked(pages, s) && tail == Last(s) && (s != [] ==> first == First(s))
  }

  // *tp[t] = x: a store into the link of the tail page, or into pp1 or pp2
  function PutLink(pages: seq<PageInfo>, tail: Option<nat>, x: Option<nat>): seq<PageInfo> {
    if tail.Some? && tail.value < |pages| then pages[tail.value := pages[tail.value].(link := x)] else pages
  }

  function PutFirst(first: Option<nat>, tail: Option<nat>, x: Option<nat>): Option<nat> {
    if tail.None? then x else first
  }

  lemma ClassGrows(pages: seq<PageInfo>, s: seq<nat>, first: Option<nat>, tail: Option<nat>, x: nat)
    requires ClassOk(pages, s, first, tail) && Distinct(s) && x !in s && x < |pages|
    ensures ClassOk(PutLink(pages, tail, Some(x)), s + [x], PutFirst(first, tail, Some(x)), Some(x))
  {
    var pages', s' := PutLink(pages, tail, Some(x)), s + [x];
    forall i | 0 <= i < |s'| - 1 ensures pages'[s'[i]].link == Some(s'[i + 1]) {
      assert s'[i] == s[i];
    }
  }

  lemma ClassFrame(pages: seq<PageInfo>, s: seq<nat>, first: Option<nat>, tail: Option<nat>, q: Option<nat>,
                   x: Option<nat>)
    requires ClassOk(pages, s, first, tail) && (q.Some? ==> q.value !in s)
    ensures ClassOk(PutLink(pages, q, x), s, first, tail)
  {
  }

  // What the first pages `done` of the list have become
  ghost predicate Sorted(pages: seq<PageInfo>, was: seq<PageInfo>, done: seq<nat>, first: seq<Option<nat>>,
                         tail: seq<Option<nat>>) {
    && |first| == 2 && |tail| == 2 && |pages| == |was|
    && ClassOk(pages, Only(done, 0), first[0], tail[0]) && ClassOk(pages, Only(done, 1), first[1], tail[1])
    && Untouched(pages, was, done)
  }

  ghost predicate Untouched(pages: seq<PageInfo>, was: seq<PageInfo>, done: seq<nat>) {
    && |pages| == |was|
    && forall q :: 0 <= q < |pages| ==> pages[q].ref == was[q].ref && (q !in done ==> pages[q] == was[q])
  }

  lemma OnlySnoc(done: seq<nat>, x: nat)
    ensures Only(done + [x], PageType(x)) == Only(done, PageType(x)) + [x]
    ensures Only(done + [x], 1 - PageType(x)) == Only(done, 1 - PageType(x))
  {
    assert (done + [x])[..|done|] == done;
  }

  lemma SortedStep(pages: seq<PageInfo>, was: seq<PageInfo>, done: seq<nat>, x: nat, first: seq<Option<nat>>,
                   tail: seq<Option<nat>>)
    requires Sorted(pages, was, done, first, tail) && Distinct(done) && x !in done && x < |pages|
    ensures var t := PageType(x);
            && tail[t] != Some(x) && (tail[t].Some? ==> tail[t].value < |pages|)
            && Sorted(PutLink(pages, tail[t], Some(x)), was, done + [x],
                      first[t := PutFirst(first[t], tail[t], Some(x))], tail[t := Some(x)])
  {
    var t := PageType(x);
    var u := 1 - t;
    OnlySnoc(done, x);
    OnlyMembers(done, t);
    OnlyMembers(done, u);
    OnlyDistinct(done, t);
    ClassGrows(pages, Only(done, t), first[t], tail[t], x);
    ClassFrame(pages, Only(done, u), first[u], tail[u], tail[t], Some(x));
  }

  // The last two stores: end the second class, and hang it behind the first.
  lemma Joined(pages: seq<PageInfo>, was: seq<PageInfo>, ps: seq<nat>, first: seq<Option<nat>>, tail: seq<Option<nat>>)
    requires Sorted(pages, was, ps, first, tail) && Distinct(ps)
    ensures tail[0].Some? ==> tail[0].value < |pages|
    ensures tail[1].Some? ==> tail[1].value < |pages|
    ensures var pages1, pp2 := PutLink(pages, tail[1], None), PutFirst(first[1], tail[1], None);
            var pages2, pp1 := PutLink(pages1, tail[0], pp2), PutFirst(first[0], tail[0], pp2);
            Chain(pages2, pp1, Partitioned(ps)) && Untouched(pages2, was, ps)
  {
    var lo, hi := Only(ps, 0), Only(ps, 1);
    OnlyMembers(ps, 0);
    OnlyMembers(ps, 1);
    OnlyDistinct(ps, 0);
    OnlyDistinct(ps, 1);
    var pages1, pp2 := PutLink(pages, tail[1], None), PutFirst(first[1], tail[1], None);
    ClassFrame(pages, lo, first[0], tail[0], tail[1], None);
    EndClass(pages, hi, first[1], tail[1]);
    ChainIsLinked(pages1, pp2, hi);
    var pages2, pp1 := PutLink(pages1, tail[0], pp2), PutFirst(first[0], tail[0], pp2);
    JoinChains(pages1, lo, hi, first[0], pp2);
  }

  lemma EndClass(pages: seq<PageInfo>, s: seq<nat>, first: Option<nat>, tail: Option<nat>)
    requires ClassOk(pages, s, first, tail) && Distinct(s)
    ensures var pages' := PutLink(pages, tail, None);
            Linked(pages', s) && PutFirst(first, tail, None) == First(s)
              && (s != [] ==> pages'[s[|s| - 1]].link == None)
  {
  }

  lemma JoinChains(pages: seq<PageInfo>, lo: seq<nat>, hi: seq<nat>, first: Option<nat>, pp2: Option<nat>)
    requires ClassOk(pages, lo, first, Last(lo)) && Chain(pages, pp2, hi) && Distinct(lo)
    requires forall x :: x in lo ==> x !in hi
    ensures Chain(PutLink(pages, Last(lo), pp2), PutFirst(first, Last(lo), pp2), lo + hi)
  {
    hide Chain;
    var pages' := PutLink(pages, Last(lo), pp2);
    ChainIsLinked(pages, pp2, hi);
    if lo == [] {
      assert lo + hi == hi;
    } else {
      JoinedLinks(pages, lo, hi, pp2);
      if hi != [] { assert hi[|hi| - 1] in hi; }
      ChainIsLinked(pages', first, lo + hi);
    }
  }

  // With the last low page linked to the first high one, all links are in place.
  lemma JoinedLinks(pages: seq<PageInfo>, lo: seq<nat>, hi: seq<nat>, pp2: Option<nat>)
    requires Linked(pages, lo) && Linked(pages, hi) && Distinct(lo) && lo != [] && pp2 == First(hi)
    requires forall x :: x in lo ==> x !in hi
    ensures Linked(PutLink(pages, Last(lo), pp2), lo + hi)
  {
    var pages', all := PutLink(pages, Last(lo), pp2), lo + hi;
    forall i | 0 <= i < |all| - 1 ensures pages'[all[i]].link == Some(all[i + 1]) {
      if i < |lo| - 1 {
        assert all[i] == lo[i] && all[i + 1] == lo[i + 1] && lo[i] != lo[|lo| - 1];
      } else if i == |lo| - 1 {
        assert all[i] == lo[i] && all[i + 1] == hi[0];
      } else {
        assert all[i] == hi[i - |lo|] && all[i + 1] == hi[i + 1 - |lo|] && lo[|lo| - 1] in lo;
      }
    }
  }

  // The list's next page has not been moved.
  lemma NotYet(ps: seq<nat>, done: seq<nat>)
    requires done <= ps && |done| < |ps| && Distinct(ps)
    ensures ps[|done|] !in done && Distinct(done) && done + [ps[|done|]] <= ps
  {
  }

  // ... and its link still names the one after it.
  lemma NextInList(pages: seq<PageInfo>, was: seq<PageInfo>, ps: seq<nat>, done: seq<nat>)
    requires Linked(was, ps) && Untouched(pages, was, done) && done <= ps && |done| < |ps| && ps[|done|] !in done
    requires ps[|done|] < |was|
    requires was[ps[|ps| - 1]].link == None
    ensures pages[ps[|done|]].link == if |done| + 1 < |ps| then Some(ps[|done| + 1]) else None
  {
  }

  lemma NothingSorted(was: seq<PageInfo>)
    ensures Sorted(was, was, [], [None, None], [None, None])
  {
  }

  // Moves the low pages of the list `ps` to its front, keeping the order within
  // each class.
  method Relink(pages: array<PageInfo>, head: Option<nat>, ghost ps: seq<nat>) returns (newHead: Option<nat>)
    requires Chain(pages[..], head, ps) && Distinct(ps)
    modifies pages
    ensures Chain(pages[..], newHead, Partitioned(ps))
    ensures pages.Length <= PAGES ==> LowPagesFirst(ps, Partitioned(ps))
    ensures Untouched(pages[..], old(pages[..]), ps)
  {
    hide Chain, Partitioned, Untouched, Only, LowPagesFirst;
    ghost var was := pages[..];
    ChainIsLinked(was, head, ps);
    if pages.Length <= PAGES { PartitionedIsLowPagesFirst(ps); }
    var first: seq<Option<nat>>, tail: seq<Option<nat>> := [None, None], [None, None];   // pp1 and pp2, tp
    var pp := head;
    ghost var done: seq<nat> := [];
    NothingSorted(was);
    while pp.Some?
      invariant done <= ps && Sorted(pages[..], was, done, first, tail)
      invariant pp == if |done| < |ps| then Some(ps[|done|]) else None
      decreases |ps| - |done|
    {
      hide ClassOk, Distinct;
      var t := PageType(pp.value);
      NotYet(ps, done);
      NextInList(pages[..], was, ps, done);
      SortedStep(pages[..], was, done, pp.value, first, tail);
      ghost var pages' := PutLink(pages[..], tail[t], pp);
      if tail[t].None? {
        first := first[t := pp];
      } else {
        pages[tail[t].value] := pages[tail[t].value].(link := pp);
      }
      assert pages[..] == pages';
      tail := tail[t := pp];
      done := done + [pp.value];
      pp := pages[pp.value].link;
    }
    assert done == ps;
    Joined(pages[..], was, ps, first, tail);
    newHead := Join(pages, first, tail);
  }

  // *tp[1] = 0; *tp[0] = pp2
  method Join(pages: array<PageInfo>, pp: seq<Option<nat>>, tail: seq<Option<nat>>) returns (head: Option<nat>)
    requires |pp| == 2 && |tail| == 2
    requires (tail[0].Some? ==> tail[0].value < pages.Length) && (tail[1].Some? ==> tail[1].value < pages.Length)
    modifies pages
    ensures var pp2 := PutFirst(pp[1], tail[1], None);
            && pages[..] == PutLink(PutLink(old(pages[..]), tail[1], None), tail[0], pp2)
            && head == PutFirst(pp[0], tail[0], pp2)
  {
    var first := pp;
    if tail[1].None? {
      first := first[1 := None];
    } else {
      pages[tail[1].value] := pages[tail[1].value].(link := None);
    }
    assert pages[..] == PutLink(old(pages[..]), tail[1], None);
    if tail[0].None? {
      first := first[0 := first[1]];
    } else {
      pages[tail[0].value] := pages[tail[0].value].(link := first[1]);
    }
    return first[0];
  }

  lemma PartitionDistinct(ps: seq<nat>)
    requires Distinct(ps)
    ensures Distinct(Partitioned(ps)) && forall x :: x in Partitioned(ps) <==> x in ps
  {
    OnlyMembers(ps, 0);
    OnlyMembers(ps, 1);
    OnlyDistinct(ps, 0);
    OnlyDistinct(ps, 1);
    var lo, hi := Only(ps, 0), Only(ps, 1);
    forall i, j | 0 <= i < j < |lo + hi| ensures (lo + hi)[i] != (lo + hi)[j] {
      if i < |lo| <= j { assert (lo + hi)[i] in lo && (lo + hi)[j] in hi; }
    }
  }

  // The ownership invariant holds of the reordered list.
  lemma RelinkKeepsInv(s: State, o: Own, pages: seq<PageInfo>, head: Option<nat>)
    requires Inv(s, o) && Chain(pages, head, Partitioned(o.free)) && Untouched(pages, s.pages, o.free)
    ensures Inv(State(pages, s.frames, head), o.(free := Partitioned(o.free)))
  {
    PartitionDistinct(o.free);
    forall q | 0 <= q < |pages| ensures CountOk(State(pages, s.frames, head), o.(free := Partitioned(o.free)), q) {
      assert CountOk(s, o, q);
    }
  }
}
