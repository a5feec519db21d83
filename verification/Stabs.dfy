/**
 `kern/kdebug.c`: stab_binsearch, a binary search over one type of debugging
 entry among many, which narrows a region from both sides.
 */
module Stabs {
  const MAX_ADDR: nat := 0xFFFF_FFFF

  type Address = a: nat | a <= MAX_ADDR

  datatype Stab = Stab(n_type: int, n_value: Address)

  predicate Match(stabs: seq<Stab>, ty: int, i: int) {
    0 <= i < |stabs| && stabs[i].n_type == ty
  }

  // Entries of the type are sorted by address between `lo` and `hi`.
  ghost predicate Ordered(stabs: seq<Stab>, ty: int, lo: int, hi: int) {
    forall i, j :: lo <= i <= j <= hi && Match(stabs, ty, i) && Match(stabs, ty, j)
             ==> stabs[i].n_value <= stabs[j].n_value
  }

  ghost predicate NoneIn(stabs: seq<Stab>, ty: int, lo: int, hi: int) {
    forall i :: lo <= i <= hi ==> !Match(stabs, ty, i)
  }

  // The region is [left, right]: `left` the last entry of the type at or below
  // `addr`, `right` just before the next one, or the old right end.
  ghost predicate Located(stabs: seq<Stab>, ty: int, hi: int, addr: nat, left: int, right: int) {
    && Match(stabs, ty, left) && stabs[left].n_value <= addr
    && left <= right <= hi && NoneIn(stabs, ty, left + 1, right)
    && (right < hi ==> Match(stabs, ty, right + 1))
    && (forall i :: left < i <= hi && Match(stabs, ty, i) ==> stabs[i].n_value > addr)
  }

  // The last entry of the type in [l, m], or l - 1
  function LastMatch(stabs: seq<Stab>, ty: int, l: int, m: int): (k: int)
    requires 0 <= l <= m + 1 && m < |stabs|
    ensures l - 1 <= k <= m && NoneIn(stabs, ty, k + 1, m) && (k >= l ==> Match(stabs, ty, k))
    decreases m - l + 1
  {
    if m < l || stabs[m].n_type == ty then m else LastMatch(stabs, ty, l, m - 1)
  }

  // When the search comes upon `addr` itself, an entry for addr + 1 is still in
  // the range.
  ghost predicate StepsPast(stabs: seq<Stab>, ty: int, l: int, r: int, addr: nat)
    requires 0 <= l && r < |stabs|
    decreases r - l + 1
  {
    l <= r &&
    var mid := (l + r) / 2;
    var m := LastMatch(stabs, ty, l, mid);
    if m < l || stabs[m].n_value < addr then StepsPast(stabs, ty, mid + 1, r, addr)
    else if stabs[m].n_value > addr then StepsPast(stabs, ty, l, m - 1, addr)
    else HasEntry(stabs, ty, m, r, addr + 1)
  }

  ghost predicate HasEntry(stabs: seq<Stab>, ty: int, lo: int, hi: int, addr: nat) {
    exists i :: lo <= i <= hi && Match(stabs, ty, i) && stabs[i].n_value == addr
  }

  // What the two ends satisfy while the range is used up: entries before `l` are
  // below `cur`, entries after `r` above `addr`; `found`: the left end has been set.
  ghost predicate Narrowed(stabs: seq<Stab>, ty: int, lo: int, hi: int, addr: nat, cur: nat,
                           l: int, r: int, left: int, found: bool) {
    && lo <= l <= r + 1 <= hi + 1
    && (r < hi ==> Match(stabs, ty, r + 1) && stabs[r + 1].n_value > addr)
    && (forall i :: lo <= i < l && Match(stabs, ty, i) ==> stabs[i].n_value < cur)
    && lo <= left <= l && NoneIn(stabs, ty, left + 1, l - 1)
    && (if found then Match(stabs, ty, left) && stabs[left].n_value < cur && left <= r
        else left == lo && NoneIn(stabs, ty, lo, l - 1))
  }

  // `past` is settled once the search has come upon `addr` twice, or not at all.
  ghost predicate Settling(stabs: seq<Stab>, ty: int, lo: int, hi: int, addr: nat, cur: nat,
                           l: int, r: int, left: int, past: bool) {
    && 0 <= l && r < |stabs| && addr <= cur
    && (cur > addr ==> HasEntry(stabs, ty, lo, hi, addr))
    && (cur == addr ==> past == StepsPast(stabs, ty, l, r, addr))
    && (cur == addr + 1 ==> past == HasEntry(stabs, ty, l, r, addr + 1))
    && (cur > addr + 1 ==> past && Match(stabs, ty, left) && stabs[left].n_value > addr)
  }

  ghost predicate Searching(stabs: seq<Stab>, ty: int, lo: int, hi: int, addr: nat, cur: nat,
                            l: int, r: int, left: int, found: bool, past: bool) {
    && Settling(stabs, ty, lo, hi, addr, cur, l, r, left, past)
    && (if lo <= hi then Narrowed(stabs, ty, lo, hi, addr, cur, l, r, left, found)
        else l == left == lo && r == hi && !found && cur == addr)
  }

  // No entry of the type in the lower half
  lemma Skip(stabs: seq<Stab>, ty: int, lo: int, hi: int, addr: nat, cur: nat, l: int, r: int, left: int, found: bool,
             past: bool)
    requires Searching(stabs, ty, lo, hi, addr, cur, l, r, left, found, past) && l <= r
    requires LastMatch(stabs, ty, l, (l + r) / 2) < l
    ensures Searching(stabs, ty, lo, hi, addr, cur, (l + r) / 2 + 1, r, left, found, past)
  {
  }

  lemma Below(stabs: seq<Stab>, ty: int, lo: int, hi: int, addr: nat, cur: nat, l: int, r: int, left: int, found: bool,
              past: bool)
    requires Searching(stabs, ty, lo, hi, addr, cur, l, r, left, found, past) && l <= r && Ordered(stabs, ty, lo, hi)
    requires var m := LastMatch(stabs, ty, l, (l + r) / 2); m >= l && stabs[m].n_value < cur
    ensures Searching(stabs, ty, lo, hi, addr, cur, (l + r) / 2 + 1, r, LastMatch(stabs, ty, l, (l + r) / 2), true,
              past)
  {
    var mid, m := (l + r) / 2, LastMatch(stabs, ty, l, (l + r) / 2);
    forall i | lo <= i <= mid && Match(stabs, ty, i) ensures stabs[i].n_value <= stabs[m].n_value {
      assert i <= m;
    }
    if found { assert stabs[left].n_value <= stabs[m].n_value; }
  }

  lemma Above(stabs: seq<Stab>, ty: int, lo: int, hi: int, addr: nat, cur: nat, l: int, r: int, left: int, found: bool,
              past: bool)
    requires Searching(stabs, ty, lo, hi, addr, cur, l, r, left, found, past) && l <= r && Ordered(stabs, ty, lo, hi)
    requires var m := LastMatch(stabs, ty, l, (l + r) / 2); m >= l && stabs[m].n_value > cur
    ensures Searching(stabs, ty, lo, hi, addr, cur, l, LastMatch(stabs, ty, l, (l + r) / 2) - 1, left, found, past)
  {
    var m := LastMatch(stabs, ty, l, (l + r) / 2);
    forall i | m <= i <= hi && Match(stabs, ty, i) ensures stabs[i].n_value >= stabs[m].n_value {
    }
  }

  lemma Exact(stabs: seq<Stab>, ty: int, lo: int, hi: int, addr: nat, cur: nat, l: int, r: int, left: int, found: bool,
              past: bool)
    requires Searching(stabs, ty, lo, hi, addr, cur, l, r, left, found, past) && l <= r && Ordered(stabs, ty, lo, hi)
    requires var m := LastMatch(stabs, ty, l, (l + r) / 2); m >= l && stabs[m].n_value == cur
    ensures var m := LastMatch(stabs, ty, l, (l + r) / 2);
            Searching(stabs, ty, lo, hi, addr, cur + 1, m, r, m, true, past)
  {
    var m := LastMatch(stabs, ty, l, (l + r) / 2);
    assert lo <= m <= hi && Match(stabs, ty, m);
  }

  // The range is used up: all but the walk back to the last entry is done.
  lemma AtTheEnd(stabs: seq<Stab>, ty: int, lo: int, hi: int, addr: nat, cur: nat, l: int, r: int, left: int,
                 found: bool, past: bool)
    requires 0 <= lo && hi < |stabs| && Ordered(stabs, ty, lo, hi)
    requires Searching(stabs, ty, lo, hi, addr, cur, l, r, left, found, past) && l > r
    ensures found ==> HasUpTo(stabs, ty, lo, hi, addr) && NoneIn(stabs, ty, left + 1, r) && left <= r
    ensures found ==> (Located(stabs, ty, hi, addr, left, r) <==> !past)
    ensures past ==> found && Match(stabs, ty, left) && stabs[left].n_value > addr
    ensures !found ==> !HasUpTo(stabs, ty, lo, hi, addr) && NoneIn(stabs, ty, lo, r) && left == lo
    ensures !found && r < hi ==> Match(stabs, ty, r + 1)
    ensures found || r < hi <==> !NoneIn(stabs, ty, lo, hi)
  {
    if r < hi {
      forall i | r < i <= hi && Match(stabs, ty, i) ensures stabs[i].n_value > addr {
        assert stabs[r + 1].n_value <= stabs[i].n_value;
      }
    }
  }

  // Some entry of the type lies at or below `addr`.
  ghost predicate HasUpTo(stabs: seq<Stab>, ty: int, lo: int, hi: int, addr: nat) {
    exists i :: lo <= i <= hi && Match(stabs, ty, i) && stabs[i].n_value <= addr
  }

  // The inner loop: the last entry of the type in [l, from], or l - 1
  method ScanDown(stabs: seq<Stab>, ty: int, l: int, from: int) returns (m: int)
    requires 0 <= l <= from < |stabs|
    ensures m == LastMatch(stabs, ty, l, from)
  {
    m := from;
    while m >= l && stabs[m].n_type != ty
      invariant l - 1 <= m <= from
      invariant LastMatch(stabs, ty, l, m) == LastMatch(stabs, ty, l, from)
    {
      m := m - 1;
    }
  }

  lemma EntryInPart(stabs: seq<Stab>, ty: int, l: int, r: int, l': int, r': int, addr: nat)
    requires l <= l' && r' <= r && HasEntry(stabs, ty, l', r', addr)
    ensures HasEntry(stabs, ty, l, r, addr)
  {
  }

  // The search steps past only where there are entries at `addr` and at addr + 1.
  lemma {:induction false} NotPast(stabs: seq<Stab>, ty: int, l: int, r: int, addr: nat)
    requires 0 <= l && r < |stabs|
    ensures StepsPast(stabs, ty, l, r, addr) ==>
              HasEntry(stabs, ty, l, r, addr) && HasEntry(stabs, ty, l, r, addr + 1)
    decreases r - l + 1
  {
    hide HasEntry;
    if StepsPast(stabs, ty, l, r, addr) {
      var mid := (l + r) / 2;
      var m := LastMatch(stabs, ty, l, mid);
      if m < l || stabs[m].n_value < addr {
        NotPast(stabs, ty, mid + 1, r, addr);
        EntryInPart(stabs, ty, l, r, mid + 1, r, addr);
        EntryInPart(stabs, ty, l, r, mid + 1, r, addr + 1);
      } else if stabs[m].n_value > addr {
        NotPast(stabs, ty, l, m - 1, addr);
        EntryInPart(stabs, ty, l, r, l, m - 1, addr);
        EntryInPart(stabs, ty, l, r, l, m - 1, addr + 1);
      } else {
        EntryHere(stabs, ty, l, r, m);
        EntryInPart(stabs, ty, l, r, m, r, addr + 1);
      }
    }
  }

  lemma EntryHere(stabs: seq<Stab>, ty: int, l: int, r: int, m: int)
    requires l <= m <= r && Match(stabs, ty, m)
    ensures HasEntry(stabs, ty, l, r, stabs[m].n_value)
  {
  }

  // The last entry of the type in (left, right], or `left`, or `right` if that is less
  ghost function LastIn(stabs: seq<Stab>, ty: int, left: int, right: int): int
    requires -1 <= left && right < |stabs|
  {
    if left >= right then right
    else if LastMatch(stabs, ty, left + 1, right) > left then LastMatch(stabs, ty, left + 1, right)
    else left
  }

  // What the search returns for the region [lo, hi]
  ghost predicate Answer(stabs: seq<Stab>, ty: int, lo: int, hi: int, addr: nat, left: int, right: int)
    requires 0 <= lo && hi < |stabs|
  {
    && (HasUpTo(stabs, ty, lo, hi, addr) ==>
          (Located(stabs, ty, hi, addr, left, right) <==> !StepsPast(stabs, ty, lo, hi, addr)))
    // where it does step past, it names an entry above `addr`
    && (StepsPast(stabs, ty, lo, hi, addr) ==> Match(stabs, ty, left) && stabs[left].n_value > addr)
    // every entry is above `addr`: the region ends before the first of them
    && (!NoneIn(stabs, ty, lo, hi) && !HasUpTo(stabs, ty, lo, hi, addr) ==>
          && Match(stabs, ty, right + 1) && NoneIn(stabs, ty, lo, right)
          && left == (if right < lo then right else lo))
    && (NoneIn(stabs, ty, lo, hi) ==> left == lo && right == lo - 1)
  }

  // Once the range is used up, the last two steps give the answer.
  lemma Closing(stabs: seq<Stab>, ty: int, lo: int, hi: int, addr: nat, cur: nat, l: int, r: int, left: int,
                found: bool)
    requires 0 <= lo && hi < |stabs| && Ordered(stabs, ty, lo, hi) && l > r
    requires Searching(stabs, ty, lo, hi, addr, cur, l, r, left, found, StepsPast(stabs, ty, lo, hi, addr))
    ensures -1 <= left && r < |stabs|
    ensures if found || r < hi then Answer(stabs, ty, lo, hi, addr, LastIn(stabs, ty, left, r), r)
            else Answer(stabs, ty, lo, hi, addr, left, left - 1)
  {
    AtTheEnd(stabs, ty, lo, hi, addr, cur, l, r, left, found, StepsPast(stabs, ty, lo, hi, addr));
    hide Searching, Ordered, StepsPast, Located, HasUpTo;
  }

  // The search comes upon an entry at the last address, after which the address it
  // looks for is 0.
  ghost predicate Wraps(stabs: seq<Stab>, ty: int, l: int, r: int, cur: Address)
    requires 0 <= l && r < |stabs|
    decreases r - l + 1, if Match(stabs, ty, l) && stabs[l].n_value >= cur then 1 else 0
  {
    l <= r &&
    var mid := (l + r) / 2;
    var m := LastMatch(stabs, ty, l, mid);
    if m < l || stabs[m].n_value < cur then Wraps(stabs, ty, mid + 1, r, cur)
    else if stabs[m].n_value > cur then Wraps(stabs, ty, l, m - 1, cur)
    else cur == MAX_ADDR || Wraps(stabs, ty, m, r, cur + 1)
  }

  lemma WrapsStep(stabs: seq<Stab>, ty: int, l: int, r: int, cur: Address)
    requires 0 <= l && r < |stabs|
    ensures l > r ==> !Wraps(stabs, ty, l, r, cur)
    ensures l <= r ==>
              var mid := (l + r) / 2;
              var m := LastMatch(stabs, ty, l, mid);
              Wraps(stabs, ty, l, r, cur) <==>
                if m < l || stabs[m].n_value < cur then Wraps(stabs, ty, mid + 1, r, cur)
                else if stabs[m].n_value > cur then Wraps(stabs, ty, l, m - 1, cur)
                else cur == MAX_ADDR || Wraps(stabs, ty, m, r, cur + 1)
  {
  }

  // It does so only where every address from `cur` up has an entry.
  lemma {:induction false} WrapsOverAll(stabs: seq<Stab>, ty: int, l: int, r: int, cur: Address, a: Address)
    requires 0 <= l && r < |stabs| && Wraps(stabs, ty, l, r, cur) && cur <= a
    ensures HasEntry(stabs, ty, l, r, a)
    decreases r - l + 1, if Match(stabs, ty, l) && stabs[l].n_value >= cur then 1 else 0
  {
    hide HasEntry, NoneIn;
    var mid := (l + r) / 2;
    var m := LastMatch(stabs, ty, l, mid);
    if m < l || stabs[m].n_value < cur {
      WrapsOverAll(stabs, ty, mid + 1, r, cur, a);
      EntryInPart(stabs, ty, l, r, mid + 1, r, a);
    } else if stabs[m].n_value > cur {
      WrapsOverAll(stabs, ty, l, m - 1, cur, a);
      EntryInPart(stabs, ty, l, r, l, m - 1, a);
    } else if a == cur {
      EntryHere(stabs, ty, l, r, m);
    } else {
      WrapsOverAll(stabs, ty, m, r, cur + 1, a);
      EntryInPart(stabs, ty, l, r, m, r, a);
    }
  }

  // After the wrap only entries at the last address are left, and the search walks
  // back over them.
  ghost predicate Wrapped(stabs: seq<Stab>, ty: int, hi: int, l: int, r: int) {
    && l <= r + 1 <= hi + 1 && Match(stabs, ty, l) && stabs[l].n_value == MAX_ADDR
    && forall i :: l <= i <= r && Match(stabs, ty, i) ==> stabs[i].n_value == MAX_ADDR
  }

  lemma WrapStarts(stabs: seq<Stab>, ty: int, lo: int, hi: int, l: int, r: int, m: int)
    requires Ordered(stabs, ty, lo, hi) && lo <= l <= m <= r <= hi
    requires Match(stabs, ty, m) && stabs[m].n_value == MAX_ADDR
    ensures Wrapped(stabs, ty, hi, m, r)
  {
  }

  lemma WrapGoesOn(stabs: seq<Stab>, ty: int, hi: int, l: int, r: int)
    requires Wrapped(stabs, ty, hi, l, r) && 0 <= l <= r < |stabs|
    ensures var m := LastMatch(stabs, ty, l, (l + r) / 2);
            m >= l && stabs[m].n_value == MAX_ADDR && Wrapped(stabs, ty, hi, l, m - 1)
  {
    var m := LastMatch(stabs, ty, l, (l + r) / 2);
    assert m < l ==> !Match(stabs, ty, l);
  }

  lemma WrapEnds(stabs: seq<Stab>, ty: int, hi: int, l: int, r: int)
    requires Wrapped(stabs, ty, hi, l, r) && l > r && 0 <= l && r < |stabs|
    ensures r == l - 1 && LastIn(stabs, ty, l, r) == r && Match(stabs, ty, l) && stabs[l].n_value == MAX_ADDR
  {
  }

  lemma NoWrap(stabs: seq<Stab>, ty: int, lo: int, hi: int, addr: Address)
    requires 0 <= lo && hi < |stabs| && Wraps(stabs, ty, lo, hi, addr)
    ensures HasEntry(stabs, ty, lo, hi, addr)
    ensures addr < MAX_ADDR ==> HasEntry(stabs, ty, lo, hi, addr + 1)
  {
    WrapsOverAll(stabs, ty, lo, hi, addr, addr);
    if addr < MAX_ADDR { WrapsOverAll(stabs, ty, lo, hi, addr, addr + 1); }
  }

  // Brackets `address` exactly when the search does not step past it; where it comes
  // upon an entry at the last address there is, it ends just before that entry.
  method StabBinsearch(stabs: seq<Stab>, region_left: int, region_right: int, ty: int, address: Address)
    returns (left: int, right: int)
    requires 0 <= region_left && region_right < |stabs|
    requires Ordered(stabs, ty, region_left, region_right)
    ensures if Wraps(stabs, ty, region_left, region_right, address)
            then left == right && Match(stabs, ty, right + 1) && stabs[right + 1].n_value == MAX_ADDR
            else Answer(stabs, ty, region_left, region_right, address, left, right)
    // so it brackets `address` wherever no entry is right behind one at `address`
    ensures HasUpTo(stabs, ty, region_left, region_right, address)
            && !(HasEntry(stabs, ty, region_left, region_right, address)
                 && (address == MAX_ADDR || HasEntry(stabs, ty, region_left, region_right, address + 1))) ==>
              Located(stabs, ty, region_right, address, left, right)
  {
    hide Searching, Ordered, StepsPast, Located, HasUpTo, HasEntry, NoneIn, LastMatch, LastIn, Wrapped, Wraps;
    NotPast(stabs, ty, region_left, region_right, address);
    if Wraps(stabs, ty, region_left, region_right, address) {
      NoWrap(stabs, ty, region_left, region_right, address);
    }
    left, right := region_left, region_right;
    var addr: Address := address;
    var l, r, any_matches := left, right, false;
    ghost var found, wrapped := false, false;
    ghost var past := StepsPast(stabs, ty, region_left, region_right, address);
    ghost var wraps := Wraps(stabs, ty, region_left, region_right, address);
    AtTheStart(stabs, ty, l, r, address);
    while l <= r
      invariant region_left <= l && r < |stabs| && r <= region_right && right == r
      invariant wrapped ==> wraps && addr == 0 && any_matches && left == l && Wrapped(stabs, ty, region_right, l, r)
      invariant !wrapped ==>
                  && Searching(stabs, ty, region_left, region_right, address, addr, l, r, left, found, past)
                  && wraps == Wraps(stabs, ty, l, r, addr) && any_matches == (found || r < region_right)
      decreases r - l + 1, if !wrapped && Match(stabs, ty, l) && stabs[l].n_value >= addr then 1 else 0
    {
      var true_m := (l + r) / 2;
      var m := ScanDown(stabs, ty, l, true_m);
      if wrapped { WrapGoesOn(stabs, ty, region_right, l, r); } else { WrapsStep(stabs, ty, l, r, addr); }
      if m < l {
        Skip(stabs, ty, region_left, region_right, address, addr, l, r, left, found, past);
        l := true_m + 1;
        continue;
      }
      any_matches := true;
      if stabs[m].n_value < addr {
        Below(stabs, ty, region_left, region_right, address, addr, l, r, left, found, past);
        left, found := m, true;
        l := true_m + 1;
      } else if stabs[m].n_value > addr {
        if !wrapped { Above(stabs, ty, region_left, region_right, address, addr, l, r, left, found, past); }
        right := m - 1;
        r := m - 1;
      } else {
        Exact(stabs, ty, region_left, region_right, address, addr, l, r, left, found, past);
        if addr == MAX_ADDR {
          WrapStarts(stabs, ty, region_left, region_right, l, r, m);
          wrapped := true;
        }
        left, found := m, true;
        l := m;
        addr := (addr + 1) % (MAX_ADDR + 1);
      }
    }
    if wrapped {
      WrapEnds(stabs, ty, region_right, l, r);
    } else {
      WrapsStep(stabs, ty, l, r, addr);
      Closing(stabs, ty, region_left, region_right, address, addr, l, r, left, found);
    }
    if !any_matches {
      right := left - 1;
    } else {
      left := WalkBack(stabs, left, right, ty);
    }
  }

  // The last entry of the type in (left, right], or `left`
  method WalkBack(stabs: seq<Stab>, left: int, right: int, ty: int) returns (l: int)
    requires -1 <= left && right < |stabs|
    ensures l == LastIn(stabs, ty, left, right)
  {
    l := right;
    while l > left && stabs[l].n_type != ty
      invariant l <= right
      invariant left < right ==>
                  left <= l && LastMatch(stabs, ty, left + 1, l) == LastMatch(stabs, ty, left + 1, right)
      invariant left >= right ==> l == right
    {
      l := l - 1;
    }
  }

  lemma AtTheStart(stabs: seq<Stab>, ty: int, lo: int, hi: int, addr: nat)
    requires 0 <= lo && hi < |stabs|
    ensures Searching(stabs, ty, lo, hi, addr, addr, lo, hi, lo, false, StepsPast(stabs, ty, lo, hi, addr))
  {
  }

  // Two functions one byte apart: looking up the first finds the second.
  lemma StepsPastHappens()
    ensures StepsPast([Stab(36, 16), Stab(36, 17)], 36, 0, 1, 16)
  {
    var stabs := [Stab(36, 16), Stab(36, 17)];
    assert LastMatch(stabs, 36, 0, 0) == 0;
    assert Match(stabs, 36, 1) && stabs[1].n_value == 17;
  }
}
