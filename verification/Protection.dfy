/**
 What one environment can do to another: the system calls change address spaces only
 where `KernelSpec.MayRemap` says, and make no page writable that nobody could write.
 */
module Protection {
  import opened Paging
  import opened Envs
  import opened EnvIds
  import opened KernelSpec

  lemma SameRootsSameMap(envs: seq<Env>, envs': seq<Env>, s: State, i: nat, va: nat)
    requires SameRoots(envs, envs')
    ensures MapOf(envs', s, i, va) == MapOf(envs, s, i, va)
  {
  }

  // No address space changes.
  lemma GuardedSame(t: Tables, ev: Event, t': Tables)
    requires CanHappen(t, ev) && SameRoots(t.envs, t'.envs) && MapsSame(t.envs, t.s, t'.s)
    ensures Guarded(t, ev, t')
  {
    hide CanHappen, Breaks;
    forall i: nat, va: nat | i < |t.envs| && Live(t.envs[i]) && va < UTOP
      ensures MapOf(t'.envs, t'.s, i, va) == MapOf(t.envs, t.s, i, va)
    {
      SameRootsSameMap(t.envs, t'.envs, t'.s, i, va);
    }
    forall i, va, p | Writes(t'.envs, t'.s, i, va, p) ensures Writable(t.envs, t.s, p) {
      assert Writes(t.envs, t.s, i, va, p);
    }
  }

  // One page of one address space changes, and is writable only if it was free or
  // somebody could write it.
  lemma GuardedPoint(t: Tables, ev: Event, t': Tables, j: nat, va: nat, w: Option<Word>)
    requires CanHappen(t, ev) && SameRoots(t.envs, t'.envs) && MapsChangedAt(t.envs, t.s, t'.s, j, va, w)
    requires forall va': nat :: SamePage(va, va') ==> MayRemap(t, ev, j, va')
    requires w.Some? && W in w.value.flags && !Breaks(t, ev) ==>
               w.value.pn in t.o.free || Writable(t.envs, t.s, w.value.pn)
    ensures Guarded(t, ev, t')
  {
    hide CanHappen, Breaks, MayRemap;
    forall i: nat, va': nat | i < |t.envs| && Live(t.envs[i]) && va' < UTOP
      ensures MapOf(t'.envs, t'.s, i, va') == if i == j && SamePage(va, va') then w else MapOf(t.envs, t.s, i, va')
    {
      SameRootsSameMap(t.envs, t'.envs, t'.s, i, va');
    }
    forall i, va', p | !Breaks(t, ev) && Writes(t'.envs, t'.s, i, va', p)
      ensures p in t.o.free || Writable(t.envs, t.s, p)
    {
      if !(i == j && SamePage(va, va')) { assert Writes(t.envs, t.s, i, va', p); }
    }
  }

  // One environment comes, with nothing mapped, or goes.
  lemma GuardedOne(t: Tables, ev: Event, t': Tables, e: nat, x: Env)
    requires CanHappen(t, ev) && e < |t.envs| && t'.envs == t.envs[e := x] && OthersSame(t.envs, t.s, t'.s, e)
    requires Live(x) ==> NothingMapped(t'.envs, t'.s, e)
    requires Live(t.envs[e]) ==> forall va: nat :: MayRemap(t, ev, e, va)
    ensures Guarded(t, ev, t')
  {
    hide CanHappen, Breaks, MayRemap;
    forall i: nat, va: nat | i < |t.envs| && Live(t.envs[i]) && i != e && va < UTOP
      ensures MapOf(t'.envs, t'.s, i, va) == MapOf(t.envs, t.s, i, va)
    {
      assert MapOf(t'.envs, t'.s, i, va) == MapOf(t.envs, t'.s, i, va);
    }
    forall i, va, p | Writes(t'.envs, t'.s, i, va, p) ensures Writable(t.envs, t.s, p) {
      assert i != e;
      assert Writes(t.envs, t.s, i, va, p);
    }
  }

  // Where permission is asked for, what an id finds is in the caller's hand.
  lemma FoundInHand(envs: seq<Env>, cur: nat, envid: int)
    requires |envs| == NENV && cur < NENV && Resolve(envs, cur, envid, true).Some?
    ensures InHand(envs, cur, Resolve(envs, cur, envid, true).value)
  {
  }

  // ----- call by call -----

  lemma AllocGuarded(t: Tables, cur: nat, envid: int, va: nat, perm: Perm, t': Tables)
    requires CanHappen(t, Called(cur, PageAlloc(envid, va, perm))) && t'.envs == t.envs
    requires var r := PageAllocResult(t.envs, t.s, t.o, cur, envid, va, perm);
             && (r != 0 ==> MapsSame(t.envs, t.s, t'.s))
             && (r == 0 ==>
                   MappedFresh(t.envs, t.s, t.o, t'.s, t'.o, Resolve(t.envs, cur, envid, true).value, va, perm))
    ensures Guarded(t, Called(cur, PageAlloc(envid, va, perm)), t')
  {
    hide MapsChangedAt, MapsSame, FreedAt, Resolve, Guarded;
    var ev := Called(cur, PageAlloc(envid, va, perm));
    if PageAllocResult(t.envs, t.s, t.o, cur, envid, va, perm) != 0 {
      GuardedSame(t, ev, t');
    } else {
      FoundInHand(t.envs, cur, envid);
      assert !Breaks(t, ev) ==> Clean(t.o.free[0], perm);
      GuardedPoint(t, ev, t', Resolve(t.envs, cur, envid, true).value, va, Some(Stored(t.o.free[0], perm)));
    }
  }

  lemma MapGuarded(t: Tables, cur: nat, src: int, srcva: nat, dst: int, dstva: nat, perm: Perm, t': Tables)
    requires CanHappen(t, Called(cur, PageMap(src, srcva, dst, dstva, perm))) && t'.envs == t.envs
    requires var r := PageMapResult(t.envs, t.s, t.o, cur, src, srcva, dst, dstva, perm);
             && (r != 0 ==> t'.s == t.s)
             && (r == 0 ==>
                   var se, de := Resolve(t.envs, cur, src, true).value, Resolve(t.envs, cur, dst, true).value;
                   var w := MapOf(t.envs, t.s, se, srcva).value;
                   MapsChangedAt(t.envs, t.s, t'.s, de, dstva, Some(Stored(w.pn, perm))))
    ensures Guarded(t, Called(cur, PageMap(src, srcva, dst, dstva, perm)), t')
  {
    hide MapsChangedAt, Resolve, Guarded, InsertResult;
    var ev := Called(cur, PageMap(src, srcva, dst, dstva, perm));
    if PageMapResult(t.envs, t.s, t.o, cur, src, srcva, dst, dstva, perm) != 0 {
      GuardedSame(t, ev, t');
    } else {
      FoundInHand(t.envs, cur, dst);
      var se, de := Resolve(t.envs, cur, src, true).value, Resolve(t.envs, cur, dst, true).value;
      var w := MapOf(t.envs, t.s, se, srcva).value;
      assert !Breaks(t, ev) ==> Clean(w.pn, perm);
      assert W in perm.flags ==> Writes(t.envs, t.s, se, srcva, w.pn);
      GuardedPoint(t, ev, t', de, dstva, Some(Stored(w.pn, perm)));
    }
  }

  lemma UnmapGuarded(t: Tables, cur: nat, envid: int, va: nat, t': Tables)
    requires CanHappen(t, Called(cur, PageUnmap(envid, va))) && t'.envs == t.envs
    requires var r := PageUnmapResult(t.envs, cur, envid, va);
             && (r != 0 ==> t'.s == t.s)
             && (r == 0 ==> MapsChangedAt(t.envs, t.s, t'.s, Resolve(t.envs, cur, envid, true).value, va, None))
    ensures Guarded(t, Called(cur, PageUnmap(envid, va)), t')
  {
    hide MapsChangedAt, Resolve, Guarded;
    var ev := Called(cur, PageUnmap(envid, va));
    if PageUnmapResult(t.envs, cur, envid, va) != 0 {
      GuardedSame(t, ev, t');
    } else {
      FoundInHand(t.envs, cur, envid);
      GuardedPoint(t, ev, t', Resolve(t.envs, cur, envid, true).value, va, None);
    }
  }

  // A message brings no more rights to its page than the sender has.
  lemma SendGuarded(t: Tables, cur: nat, envid: int, value: int, srcva: nat, perm: Perm, t': Tables)
    requires CanHappen(t, Called(cur, IpcTrySend(envid, value, srcva, perm)))
    requires EnvsAfter(t, cur, IpcTrySend(envid, value, srcva, perm), t'.envs)
    requires var r := SendResult(t.envs, t.s, t.o, cur, envid, srcva, perm);
             && (r != 0 ==> t'.s == t.s)
             && (r == 0 ==> Transferred(t.envs, t.s, t'.s, cur, Resolve(t.envs, cur, envid, false).value, srcva, perm))
    ensures Guarded(t, Called(cur, IpcTrySend(envid, value, srcva, perm)), t')
  {
    hide MapsChangedAt, Guarded, InsertResult;
    var ev := Called(cur, IpcTrySend(envid, value, srcva, perm));
    assert SameRoots(t.envs, t'.envs);
    if SendResult(t.envs, t.s, t.o, cur, envid, srcva, perm) != 0 {
      GuardedSame(t, ev, t');
    } else {
      var e := Resolve(t.envs, cur, envid, false).value;
      if SendsPage(t.envs[e], srcva) {
        var w := MapOf(t.envs, t.s, cur, srcva).value;
        assert W in perm.flags ==> Writes(t.envs, t.s, cur, srcva, w.pn);
        GuardedPoint(t, ev, t', e, t.envs[e].dstva, Some(Stored(w.pn, perm)));
      } else {
        GuardedSame(t, ev, t');
      }
    }
  }

  lemma DestroyGuarded(t: Tables, cur: nat, envid: int, t': Tables)
    requires CanHappen(t, Called(cur, EnvDestroy(envid))) && EnvsAfter(t, cur, EnvDestroy(envid), t'.envs)
    requires var e := Resolve(t.envs, cur, envid, true);
             if e.None? || (t.envs[e.value].status == RUNNING && e.value != cur) then t'.s == t.s
             else OthersSame(t.envs, t.s, t'.s, e.value)
    ensures Guarded(t, Called(cur, EnvDestroy(envid)), t')
  {
    hide OthersSame, Resolve, Guarded;
    var ev, e := Called(cur, EnvDestroy(envid)), Resolve(t.envs, cur, envid, true);
    if e.None? || (t.envs[e.value].status == RUNNING && e.value != cur) {
      GuardedSame(t, ev, t');
    } else {
      FoundInHand(t.envs, cur, envid);
      GuardedOne(t, ev, t', e.value, GoneEnv(t.envs[e.value], t.head));
    }
  }

  lemma ExoforkGuarded(t: Tables, cur: nat, e: nat, x: Env, t': Tables)
    requires CanHappen(t, Called(cur, Exofork)) && e < |t.envs| && !Live(t.envs[e])
    requires t'.envs == t.envs[e := x] && OthersSame(t.envs, t.s, t'.s, e) && NothingMapped(t'.envs, t'.s, e)
    ensures Guarded(t, Called(cur, Exofork), t')
  {
    hide OthersSame, NothingMapped, Guarded;
    GuardedOne(t, Called(cur, Exofork), t', e, x);
  }

  // The calls that leave the address spaces alone
  lemma QuietGuarded(t: Tables, cur: nat, call: Call, t': Tables)
    requires CanHappen(t, Called(cur, call)) && EnvsAfter(t, cur, call, t'.envs) && t'.s == t.s
    requires !call.PageAlloc? && !call.PageMap? && !call.PageUnmap? && !call.IpcTrySend? && !call.EnvDestroy?
    requires call.Exofork? ==> t'.envs == t.envs
    ensures Guarded(t, Called(cur, call), t')
  {
    hide Resolve, Guarded;
    assert SameRoots(t.envs, t'.envs);
    GuardedSame(t, Called(cur, call), t');
  }

  lemma RunGuarded(t: Tables, was: Option<nat>, next: nat, t': Tables)
    requires CanHappen(t, Ran(was, next)) && t'.envs == AfterRun(t.envs, was, next) && t'.s == t.s
    ensures Guarded(t, Ran(was, next), t')
  {
    hide Guarded;
    assert SameRoots(t.envs, t'.envs);
    GuardedSame(t, Ran(was, next), t');
  }

  lemma DeathGuarded(t: Tables, dead: nat, x: Env, t': Tables)
    requires CanHappen(t, Died(dead)) && t'.envs == t.envs[dead := x] && !Live(x)
    requires OthersSame(t.envs, t.s, t'.s, dead)
    ensures Guarded(t, Died(dead), t')
  {
    hide OthersSame, Guarded;
    GuardedOne(t, Died(dead), t', dead, x);
  }
}
