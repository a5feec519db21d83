/**
 The allocator of the earlier lab (`OSLab5-Mitjoslab2/kern/pmap.c`), which clears
 pp_link when it hands a page out and asserts in page_free that count and link
 are zero: what those two assertions catch, and what they let through.
 */
module StrictAllocator {
  import opened Paging

  const IO_HOLE: nat := 96

  // The pages page_init keeps out of the allocator
  predicate Taken(p: nat, basemem: nat, kernel: nat) {
    p == 0 || basemem <= p < basemem + IO_HOLE + kernel
  }

  ghost predicate Distinct(free: seq<nat>) {
    forall i, j :: 0 <= i < j < |free| ==> free[i] != free[j]
  }

  // A page is on the list with count zero, or off it with a null link.
  ghost predicate Tidy(pages: seq<PageInfo>, head: Option<nat>, free: seq<nat>) {
    && Chain(pages, head, free) && Distinct(free)
    && (forall p :: p in free ==> p < |pages| && pages[p].ref == 0)
    && (forall p: nat :: p < |pages| && p !in free ==> pages[p].link == None)
  }

  // Following the links from `head` reaches no end.
  ghost predicate Endless(pages: seq<PageInfo>, head: Option<nat>) {
    forall f :: !Chain(pages, head, f)
  }

  // page_free's two assertions
  predicate AssertionsHold(info: PageInfo) {
    info.ref == 0 && info.link == None
  }

  lemma {:induction false} LinkOnChain(pages: seq<PageInfo>, head: Option<nat>, free: seq<nat>, i: nat)
    requires Chain(pages, head, free) && i < |free|
    ensures free[i] < |pages| && pages[free[i]].link == (if i + 1 < |free| then Some(free[i + 1]) else None)
    decreases |free|
  {
    if i > 0 { LinkOnChain(pages, pages[free[0]].link, free[1..], i - 1); }
  }

  // A page passes the assertions exactly when it is allocated and unreferenced, or
  // is free already and the last of the list.
  lemma AssertionsExactly(pages: seq<PageInfo>, head: Option<nat>, free: seq<nat>, p: nat)
    requires Tidy(pages, head, free) && p < |pages|
    ensures AssertionsHold(pages[p]) <==> (p !in free && pages[p].ref == 0) || (free != [] && p == free[|free| - 1])
  {
    if p in free {
      var i :| 0 <= i < |free| && free[i] == p;
      LinkOnChain(pages, head, free, i);
    }
  }

  // Following the links from `p` comes back to `p`.
  lemma {:induction false} CycleNeverEnds(pages: seq<PageInfo>, free: seq<nat>, f: seq<nat>)
    requires free != [] && Distinct(free) && forall i :: 0 <= i < |free| ==> free[i] < |pages|
    requires forall i :: 0 <= i < |free| ==> pages[free[i]].link == Some(free[if i + 1 < |free| then i + 1 else 0])
    requires Chain(pages, Some(free[0]), f)
    ensures false
    decreases |f|
  {
    Unroll(pages, free, f, |free|);
    CycleNeverEnds(pages, free, f[|free|..]);
  }

  lemma {:induction false} Unroll(pages: seq<PageInfo>, free: seq<nat>, f: seq<nat>, n: nat)
    requires free != [] && n <= |free| && forall i :: 0 <= i < |free| ==> free[i] < |pages|
    requires forall i :: 0 <= i < |free| ==> pages[free[i]].link == Some(free[if i + 1 < |free| then i + 1 else 0])
    requires Chain(pages, Some(free[0]), f)
    ensures n <= |f| && Chain(pages, Some(free[if n < |free| then n else 0]), f[n..])
  {
    if n == 0 {
      assert f[0..] == f;
    } else {
      Unroll(pages, free, f, n - 1);
      assert f[n - 1..][1..] == f[n..];
    }
  }

  class Allocator {
    const pages: array<PageInfo>
    const frames: array<Frame>
    var page_free_list: Option<nat>
    ghost var free: seq<nat>

    ghost predicate Valid()
      reads this, pages
    {
      frames.Length == pages.Length && Tidy(pages[..], page_free_list, free)
    }

    // page_init
    constructor (npages: nat, basemem: nat, kernel: nat)
      ensures Valid() && fresh(pages) && fresh(frames) && pages.Length == npages
      ensures forall p: nat :: p in free <==> p < npages && !Taken(p, basemem, kernel)
      ensures forall p :: 0 <= p < npages ==> pages[p].ref == if Taken(p, basemem, kernel) then 1 else 0
    {
      pages := new PageInfo[npages](_ => PageInfo(None, 0));
      frames := new Frame[npages](_ => ZeroFrame());
      page_free_list := None;
      free := [];
      new;
      page_free_list, free := PageInit(pages, basemem, kernel);
    }

    method PageAlloc(zero: bool) returns (pp: Option<nat>)
      requires Valid()
      modifies this, pages, frames
      ensures Valid() && (pp.None? <==> old(free) == [])
      ensures pp.None? ==> free == []
      ensures pp.Some? ==> old(free) == [pp.value] + free && pp.value < pages.Length && AssertionsHold(pages[pp.value])
      ensures forall p :: 0 <= p < pages.Length && pp != Some(p) ==> pages[p] == old(pages[p])
      ensures frames[..] == if pp.Some? && zero then old(frames[..])[pp.value := ZeroFrame()] else old(frames[..])
    {
      if page_free_list.None? { return None; }
      var result := page_free_list.value;
      ghost var was := pages[..];
      assert free == [result] + free[1..];
      page_free_list := pages[result].link;
      pages[result] := pages[result].(link := None);
      assert pages[..] == was[result := pages[result]];
      assert result !in free[1..] && forall x :: x in free[1..] ==> x in free;
      ChainFrame(was, page_free_list, free[1..], result, pages[result]);
      free := free[1..];
      if zero { frames[result] := ZeroFrame(); }
      return Some(result);
    }

    // `ok` is false where an assertion fails. A page that is not free and has count
    // zero goes back; of the free pages only the last one slips through, and then
    // the list never ends again.
    method PageFree(pp: nat) returns (ok: bool)
      requires Valid() && pp < pages.Length
      modifies this, pages
      ensures ok <==>
              (pp !in old(free) && old(pages[pp].ref) == 0) || (old(free) != [] && pp == old(free)[|old(free)| - 1])
      ensures !ok ==> Valid() && free == old(free) && pages[..] == old(pages[..])
      ensures ok && pp !in old(free) ==> Valid() && free == [pp] + old(free)
      ensures ok && pp in old(free) ==> Endless(pages[..], page_free_list)
    {
      AssertionsExactly(pages[..], page_free_list, free, pp);
      if !(pages[pp].ref == 0 && pages[pp].link == None) { return false; }
      ghost var was, head := pages[..], page_free_list;
      pages[pp] := pages[pp].(link := page_free_list);
      page_free_list := Some(pp);
      assert pages[..] == was[pp := pages[pp]];
      if pp !in free {
        ChainFrame(was, head, free, pp, pages[pp]);
        free := [pp] + free;
        assert free[1..] == old(free);
      } else {
        DoubleFree(was, head, free, pages[..]);
      }
      return true;
    }
  }

  lemma DoubleFree(was: seq<PageInfo>, head: Option<nat>, free: seq<nat>, pages: seq<PageInfo>)
    requires Tidy(was, head, free) && free != []
    requires var p := free[|free| - 1]; p < |was| && pages == was[p := was[p].(link := head)]
    ensures Endless(pages, Some(free[|free| - 1]))
  {
    var n := |free|;
    var p := free[n - 1];
    var ring := [p] + free[..n - 1];
    forall i | 0 <= i < n
      ensures ring[i] < |pages| && pages[ring[i]].link == Some(ring[if i + 1 < n then i + 1 else 0])
    {
      LinkOnChain(was, head, free, if i == 0 then 0 else i - 1);
      if i > 0 { assert ring[i] == free[i - 1] != p; }
    }
    forall f | Chain(pages, Some(p), f) ensures false {
      CycleNeverEnds(pages, ring, f);
    }
  }

  method PageInit(pages: array<PageInfo>, basemem: nat, kernel: nat) returns (head: Option<nat>, ghost free: seq<nat>)
    requires forall p :: 0 <= p < pages.Length ==> pages[p].link == None
    modifies pages
    ensures Tidy(pages[..], head, free)
    // page 0, the 384K hole above the base memory and the kernel behind it are kept out
    ensures forall p: nat :: p in free <==>
              p < pages.Length && p != 0 && (p < basemem || p >= basemem + 96 + kernel)
    ensures forall p :: 0 <= p < pages.Length ==> pages[p].ref == if Taken(p, basemem, kernel) then 1 else 0
  {
    head, free := None, [];
    for i := 0 to pages.Length
      invariant Chain(pages[..], head, free) && Distinct(free)
      invariant forall p: nat :: p in free <==> p < i && !Taken(p, basemem, kernel)
      invariant forall p :: 0 <= p < i ==> pages[p].ref == if Taken(p, basemem, kernel) then 1 else 0
      invariant forall p: nat :: p < pages.Length && p !in free ==> pages[p].link == None
    {
      ghost var was := pages[..];
      if i == 0 {
        pages[i] := pages[i].(ref := 1);
      } else if i >= basemem && i < basemem + IO_HOLE + kernel {
        pages[i] := pages[i].(ref := 1);
      } else {
        pages[i] := PageInfo(head, 0);
      }
      assert pages[..] == was[i := pages[i]];
      ChainFrame(was, head, free, i, pages[i]);
      if !Taken(i, basemem, kernel) {
        head, free := Some(i), [i] + free;
      }
    }
  }
}
