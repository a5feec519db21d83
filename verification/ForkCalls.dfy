/**
 The bodies of `lib/fork.c` and `user/dumbfork.c`: sequences of system calls and
 byte loops that change the page tables and pages in place. Every step fork and
 pgfault take is recorded as a step of the machine of `CowFork`. Between any two
 steps of fork the other environments take whatever steps they can.
 */
module ForkCalls {
  import opened Paging
  import opened CowFork

  const UTEMP: nat := 0x400        // page numbers of UTEMP
  const UTEXT: nat := 0x800        // and UTEXT

  // Some page is not among the given ones.
  lemma {:induction false} FreshExists(used: set<nat>) returns (p: nat)
    ensures p !in used && forall x :: x in used ==> x < p
  {
    if used == {} {
      p := 0;
    } else {
      var x :| x in used;
      var q := FreshExists(used - {x});
      p := if x < q then q else x + 1;
      assert forall y :: y in used ==> y == x || y in used - {x};
    }
  }

  lemma {:induction false} RunSnoc(s: Sys, steps: seq<Step>, step: Step)
    requires CanRun(s, steps) && Enabled(Run(s, steps), step)
    ensures CanRun(s, steps + [step]) && Run(s, steps + [step]) == Apply(Run(s, steps), step)
    decreases |steps|
  {
    if steps == [] {
      assert [step][1..] == [];
    } else {
      assert (steps + [step])[1..] == steps[1..] + [step];
      RunSnoc(Apply(s, steps[0]), steps[1..], step);
    }
  }

  // What the steps of pgfault and fork make of the state
  function With(t: Thread, f: Fault): Thread {
    t.(fault := f)
  }

  lemma TakeFaultIs(s: Sys, e: nat, v: nat)
    requires Enabled(s, TakeFault(e, v))
    ensures Apply(s, TakeFault(e, v)) == Sys(s.pt, s.frames, s.threads[e := With(s.threads[e], Entered(v))])
  {
  }

  lemma FaultAllocIs(s: Sys, e: nat, v: nat, p: nat)
    requires e in s.threads && s.threads[e].fault == Entered(v) && FreshPage(s, p)
    ensures Enabled(s, FaultAlloc(e, p))
    ensures Apply(s, FaultAlloc(e, p)) ==
            Sys(s.pt[Key(e, PFTEMP) := Word(p, RW)], s.frames[p := Zeros()],
                s.threads[e := With(s.threads[e], Copying(v, 0))])
  {
  }

  lemma FaultCopyIs(s: Sys, e: nat, v: nat, i: nat)
    requires e in s.threads && s.threads[e].fault == Copying(v, i) && i < PGSIZE
    requires Key(e, PFTEMP) in s.pt && s.pt[Key(e, PFTEMP)].pn in s.frames
    requires Key(e, v) in s.pt && s.pt[Key(e, v)].pn in s.frames
    ensures Enabled(s, FaultCopy(e))
    ensures var q, p := s.pt[Key(e, PFTEMP)].pn, s.pt[Key(e, v)].pn;
            Apply(s, FaultCopy(e)) ==
            Sys(s.pt, s.frames[q := s.frames[q][i := s.frames[p][i]]],
                s.threads[e := With(s.threads[e], Copying(v, i + 1))])
  {
  }

  lemma FaultEndIs(s: Sys, e: nat, v: nat)
    requires e in s.threads && s.threads[e].fault == Copying(v, PGSIZE) && Key(e, PFTEMP) in s.pt
    ensures Enabled(s, FaultMap(e))
    ensures var s' := Apply(s, FaultMap(e));
            && s' == Sys(s.pt[Key(e, v) := Word(s.pt[Key(e, PFTEMP)].pn, RW)], s.frames,
                          s.threads[e := With(s.threads[e], Mapped(v))])
            && Enabled(s', FaultUnmap(e))
            && Apply(s', FaultUnmap(e))
               == Sys(s'.pt - {Key(e, PFTEMP)}, s'.frames, s'.threads[e := With(s'.threads[e], NoFault)])
  {
  }

  lemma ExoforkIs(s: Sys, e: nat, c: nat)
    requires Active(s, e) && s.threads[e].prog.User? && c !in s.threads
    ensures Enabled(s, Exofork(e, c))
    ensures Apply(s, Exofork(e, c)) ==
            Sys(s.pt, s.frames, s.threads[e := Thread(Check(c, 0), NoFault)][c := Thread(Embryo(e), NoFault)])
  {
  }

  // fork's test of one page, up to the calls of duppage
  lemma CheckPageIs(s: Sys, e: nat, c: nat, v: nat)
    requires e in s.threads && s.threads[e] == Thread(Check(c, v), NoFault)
    ensures Enabled(s, CheckPage(e))
    ensures var k := Key(e, v);
            Apply(s, CheckPage(e)) ==
            Sys(s.pt, s.frames, s.threads[e := Thread(
              if v >= USTACKTOP then GiveStack(c)
              else if k !in s.pt || U !in s.pt[k].flags then Check(c, v + 1)
              else if Shareable(s.pt[k]) then MapChild(c, v) else MapReadOnly(c, v), NoFault)])
  {
  }

  lemma DupChildIs(s: Sys, e: nat, c: nat, v: nat)
    requires e in s.threads && Key(e, v) in s.pt && s.threads[e] == Thread(MapChild(c, v), NoFault)
    ensures Enabled(s, DupChild(e))
    ensures Apply(s, DupChild(e)) ==
            Sys(s.pt[Key(c, v) := Word(s.pt[Key(e, v)].pn, SHARED)], s.frames,
                s.threads[e := Thread(MapSelf(c, v), NoFault)])
  {
  }

  lemma DupSelfIs(s: Sys, e: nat, c: nat, v: nat)
    requires e in s.threads && Key(e, v) in s.pt && s.threads[e] == Thread(MapSelf(c, v), NoFault)
    ensures Enabled(s, DupSelf(e))
    ensures Apply(s, DupSelf(e)) ==
            Sys(s.pt[Key(e, v) := Word(s.pt[Key(e, v)].pn, SHARED)], s.frames,
                s.threads[e := Thread(Check(c, v + 1), NoFault)])
  {
  }

  lemma DupReadOnlyIs(s: Sys, e: nat, c: nat, v: nat)
    requires e in s.threads && Key(e, v) in s.pt && s.threads[e] == Thread(MapReadOnly(c, v), NoFault)
    ensures Enabled(s, DupReadOnly(e))
    ensures Apply(s, DupReadOnly(e)) ==
            Sys(s.pt[Key(c, v) := Word(s.pt[Key(e, v)].pn, READ_ONLY)], s.frames,
                s.threads[e := Thread(Check(c, v + 1), NoFault)])
  {
  }

  lemma StackIs(s: Sys, e: nat, c: nat, p: nat)
    requires e in s.threads && s.threads[e] == Thread(GiveStack(c), NoFault) && FreshPage(s, p)
    ensures Enabled(s, StackAlloc(e, p))
    ensures Apply(s, StackAlloc(e, p)) ==
            Sys(s.pt[Key(c, UXSTACK) := Word(p, RW)], s.frames[p := Zeros()],
                s.threads[e := Thread(Launch(c), NoFault)])
  {
  }

  lemma LaunchIs(s: Sys, e: nat, c: nat)
    requires e in s.threads && s.threads[e] == Thread(Launch(c), NoFault) && c != e
    ensures Enabled(s, SetRunnable(e))
    ensures Apply(s, SetRunnable(e)) ==
            Sys(s.pt, s.frames, s.threads[e := Thread(User, NoFault)][c := Thread(User, NoFault)])
  {
  }

  // ----- what the others leave alone -----

  // `e` is forking, and `c` is its child.
  ghost predicate Parent(s: Sys, e: nat, c: nat) {
    && e in s.threads && c in s.threads && e != c && s.threads[e].prog.Forking() && s.threads[e].prog.child == c
    && s.threads[e].fault.NoFault?
  }

  ghost predicate SameEntries(s: Sys, s': Sys, x: nat) {
    forall v :: SameEntry(s, s', Key(x, v))
  }

  ghost predicate SameEntry(s: Sys, s': Sys, k: Key) {
    (k in s'.pt <==> k in s.pt) && (k in s.pt ==> s'.pt[k] == s.pt[k])
  }

  ghost predicate SameReads(s: Sys, s': Sys, e: nat) {
    forall v :: v != PFTEMP ==> Sees(s', Key(e, v)) == Sees(s, Key(e, v))
  }

  // Between two steps of the parent nothing of it or its child has changed.
  ghost predicate Undisturbed(s: Sys, s': Sys, e: nat, c: nat) {
    && Parent(s, e, c) && Parent(s', e, c) && s'.threads[e] == s.threads[e] && s'.threads[c] == s.threads[c]
    && SameEntries(s, s', e) && SameEntries(s, s', c) && SameReads(s, s', e)
  }

  lemma OneStepUndisturbed(s: Sys, step: Step, e: nat, c: nat)
    requires CowFork.Inv(s) && Enabled(s, step) && step.env != e && Parent(s, e, c)
    ensures Undisturbed(s, Apply(s, step), e, c)
  {
    assert Apply(s, step).threads[e] == s.threads[e] && Apply(s, step).threads[c] == s.threads[c]
           && SameEntries(s, Apply(s, step), e) && SameEntries(s, Apply(s, step), c) by {
      EntriesUndisturbed(s, step, e, c);
    }
    hide CowFork.Inv, Enabled, Apply;
    forall v | v != PFTEMP ensures Sees(Apply(s, step), Key(e, v)) == Sees(s, Key(e, v)) {
      assert [step][1..] == [];
      NobodyElseWrites(s, [step], e, v);
    }
  }

  lemma EntriesUndisturbed(s: Sys, step: Step, e: nat, c: nat)
    requires CowFork.Inv(s) && Enabled(s, step) && step.env != e && Parent(s, e, c)
    ensures e in Apply(s, step).threads && Apply(s, step).threads[e] == s.threads[e]
    ensures c in Apply(s, step).threads && Apply(s, step).threads[c] == s.threads[c]
    ensures SameEntries(s, Apply(s, step), e) && SameEntries(s, Apply(s, step), c)
  {
    hide Exclusive, EntriesOk, FaultOk;
    assert ThreadOk(s, e) && ThreadOk(s, step.env);
  }

  lemma UndisturbedTwice(s: Sys, s1: Sys, s2: Sys, e: nat, c: nat)
    requires Parent(s, e, c) && Undisturbed(s, s1, e, c) && Undisturbed(s1, s2, e, c)
    ensures Undisturbed(s, s2, e, c)
  {
    forall v ensures SameEntry(s, s2, Key(e, v)) && SameEntry(s, s2, Key(c, v)) {
      assert SameEntry(s, s1, Key(e, v)) && SameEntry(s1, s2, Key(e, v));
      assert SameEntry(s, s1, Key(c, v)) && SameEntry(s1, s2, Key(c, v));
    }
  }

  // ----- how far fork has got -----

  // A page that the parent could write, at once or after a fault, both can write after
  // a fault and neither at once; any other page both can only read.
  predicate SharedOut(was: set<Flag>, child: set<Flag>, parent: set<Flag>) {
    if W in was || COW in was then child == parent == {P, U, COW} else child == {P, U} && parent == was
  }

  // The child has the parent's pages below `n`, with these rights on either side, and
  // the parent reads what it did at the beginning.
  ghost predicate Copied(s0: Sys, s: Sys, e: nat, c: nat, n: nat) {
    forall v :: CopiedPage(s0, s, e, c, n, v)
  }

  ghost predicate CopiedPage(s0: Sys, s: Sys, e: nat, c: nat, n: nat, v: nat) {
    && (Key(e, v) in s.pt <==> Key(e, v) in s0.pt) && (Key(e, v) in s.pt ==> s.pt[Key(e, v)].pn == s0.pt[Key(e, v)].pn)
    && (v != PFTEMP ==> Sees(s, Key(e, v)) == Sees(s0, Key(e, v)))
    && (Key(c, v) in s.pt <==> v < n && Key(e, v) in s0.pt)
    && (Key(e, v) in s.pt && v >= n ==> s.pt[Key(e, v)] == s0.pt[Key(e, v)])
    && (Key(c, v) in s.pt ==>
          s.pt[Key(c, v)].pn == s0.pt[Key(e, v)].pn
          && SharedOut(s0.pt[Key(e, v)].flags, s.pt[Key(c, v)].flags, s.pt[Key(e, v)].flags))
  }

  // Nobody but `e` and `c` is affected, and no bytes.
  ghost predicate OthersAsBefore(s: Sys, s': Sys, e: nat, c: nat) {
    && s'.frames == s.frames
    && (forall k: Key :: k.env != e && k.env != c ==> SameEntry(s, s', k))
  }

  lemma CopiedNothing(s0: Sys, s: Sys, e: nat, c: nat)
    requires CowFork.Inv(s0) && c !in s0.threads && s.pt == s0.pt && s.frames == s0.frames
    ensures Copied(s0, s, e, c, 0)
  {
    forall v ensures CopiedPage(s0, s, e, c, 0, v) {
      assert Key(c, v) in s0.pt ==> EntryOk(s0, Key(c, v));
    }
  }

  // What duppage(c, v), or skipping page `v`, has done
  ghost predicate Duped(s: Sys, s': Sys, e: nat, c: nat, v: nat) {
    && (forall u :: u != v ==> SameEntry(s, s', Key(e, u)) && SameEntry(s, s', Key(c, u)))
    && SameReads(s, s', e)
    && (if Key(e, v) !in s.pt then SameEntry(s, s', Key(e, v)) && SameEntry(s, s', Key(c, v))
        else DupedEntry(s.pt[Key(e, v)], s', e, c, v))
  }

  ghost predicate DupedEntry(w: Word, s': Sys, e: nat, c: nat, v: nat) {
    && Key(e, v) in s'.pt && Key(c, v) in s'.pt
    && s'.pt[Key(e, v)].pn == s'.pt[Key(c, v)].pn == w.pn
    && SharedOut(w.flags, s'.pt[Key(c, v)].flags, s'.pt[Key(e, v)].flags)
  }

  lemma CopiedOneMore(s0: Sys, s: Sys, s': Sys, e: nat, c: nat, v: nat)
    requires Copied(s0, s, e, c, v) && e != c && Duped(s, s', e, c, v)
    ensures Copied(s0, s', e, c, v + 1)
  {
    assert CopiedPage(s0, s, e, c, v, v);
    var n := v + 1;
    forall u ensures CopiedPage(s0, s', e, c, n, u) {
      assert CopiedPage(s0, s, e, c, v, u);
      assert u != v ==> SameEntry(s, s', Key(e, u)) && SameEntry(s, s', Key(c, u));
    }
  }

  // The parent and its child are as they were, but for what their threads do next.
  ghost predicate Kept(s: Sys, s': Sys, e: nat, c: nat) {
    SameEntries(s, s', e) && SameEntries(s, s', c) && SameReads(s, s', e)
  }

  // ... but for the entry of page `v` of `x`, which names the parent's page there.
  ghost predicate Wrote(s: Sys, s': Sys, e: nat, c: nat, v: nat, x: nat, w: Word) {
    && Key(x, v) in s'.pt && s'.pt[Key(x, v)] == w && SameReads(s, s', e)
    && SameEntry(s, s', Key(if x == e then c else e, v))
    && (forall u :: u != v ==> SameEntry(s, s', Key(e, u)) && SameEntry(s, s', Key(c, u)))
  }

  lemma WriteThenOthers(s: Sys, s1: Sys, s2: Sys, e: nat, c: nat, v: nat, x: nat, w: Word)
    requires s1.pt == s.pt[Key(x, v) := w] && s1.frames == s.frames && (x == e || x == c) && e != c
    requires Key(e, v) in s.pt && w.pn == s.pt[Key(e, v)].pn && Undisturbed(s1, s2, e, c)
    ensures Wrote(s, s2, e, c, v, x, w)
  {
    assert SameEntry(s1, s2, Key(e, v)) && SameEntry(s1, s2, Key(c, v));
    forall u | u != v ensures SameEntry(s, s2, Key(e, u)) && SameEntry(s, s2, Key(c, u)) {
      assert SameEntry(s1, s2, Key(e, u)) && SameEntry(s1, s2, Key(c, u));
    }
    forall u | u != PFTEMP ensures Sees(s2, Key(e, u)) == Sees(s, Key(e, u)) {
      assert Sees(s1, Key(e, u)) == Sees(s, Key(e, u));
    }
  }

  lemma KeptThenOthers(s: Sys, s1: Sys, s2: Sys, e: nat, c: nat)
    requires s1.pt == s.pt && s1.frames == s.frames && Undisturbed(s1, s2, e, c)
    ensures Kept(s, s2, e, c)
  {
    forall u ensures SameEntry(s, s2, Key(e, u)) && SameEntry(s, s2, Key(c, u)) {
      assert SameEntry(s1, s2, Key(e, u)) && SameEntry(s1, s2, Key(c, u));
    }
    forall u | u != PFTEMP ensures Sees(s2, Key(e, u)) == Sees(s, Key(e, u)) {
      assert Sees(s1, Key(e, u)) == Sees(s, Key(e, u));
    }
  }

  lemma DupedNothing(s: Sys, s1: Sys, e: nat, c: nat, v: nat)
    requires Kept(s, s1, e, c) && Key(e, v) !in s.pt
    ensures Duped(s, s1, e, c, v)
  {
  }

  lemma DupedReadOnly(s: Sys, s1: Sys, s2: Sys, e: nat, c: nat, v: nat)
    requires Kept(s, s1, e, c) && e != c && Key(e, v) in s.pt && !Shareable(s.pt[Key(e, v)])
    requires Wrote(s1, s2, e, c, v, c, Word(s.pt[Key(e, v)].pn, READ_ONLY))
    ensures Duped(s, s2, e, c, v)
  {
    assert SameEntry(s, s1, Key(e, v));
    forall u | u != v ensures SameEntry(s, s2, Key(e, u)) && SameEntry(s, s2, Key(c, u)) {
      assert SameEntry(s, s1, Key(e, u)) && SameEntry(s, s1, Key(c, u));
    }
  }

  lemma DupedShared(s: Sys, s1: Sys, s2: Sys, s3: Sys, e: nat, c: nat, v: nat)
    requires Kept(s, s1, e, c) && e != c && Key(e, v) in s.pt && Shareable(s.pt[Key(e, v)])
    requires Wrote(s1, s2, e, c, v, c, Word(s.pt[Key(e, v)].pn, SHARED))
    requires Wrote(s2, s3, e, c, v, e, Word(s.pt[Key(e, v)].pn, SHARED))
    ensures Duped(s, s3, e, c, v)
  {
    forall u | u != v ensures SameEntry(s, s3, Key(e, u)) && SameEntry(s, s3, Key(c, u)) {
      assert SameEntry(s, s1, Key(e, u)) && SameEntry(s, s1, Key(c, u));
      assert SameEntry(s1, s2, Key(e, u)) && SameEntry(s1, s2, Key(c, u));
    }
  }

  // The child has an exception stack, page `p`; else nothing has changed.
  ghost predicate Stacked(s: Sys, s': Sys, e: nat, c: nat, p: nat) {
    && SameEntries(s, s', e) && SameReads(s, s', e)
    && Key(c, UXSTACK) in s'.pt && s'.pt[Key(c, UXSTACK)] == Word(p, RW)
    && (forall u :: u != UXSTACK ==> SameEntry(s, s', Key(c, u)))
  }

  lemma StackThenOthers(s: Sys, s1: Sys, s2: Sys, s3: Sys, e: nat, c: nat, p: nat)
    requires CowFork.Inv(s1) && e != c && p !in s1.frames && Kept(s, s1, e, c)
    requires s2.pt == s1.pt[Key(c, UXSTACK) := Word(p, RW)] && s2.frames == s1.frames[p := Zeros()]
    requires Undisturbed(s2, s3, e, c)
    ensures Stacked(s, s3, e, c, p)
  {
    forall u ensures SameEntry(s, s3, Key(e, u)) && (u != UXSTACK ==> SameEntry(s, s3, Key(c, u))) {
      assert SameEntry(s, s1, Key(e, u)) && SameEntry(s2, s3, Key(e, u));
      assert SameEntry(s, s1, Key(c, u)) && SameEntry(s2, s3, Key(c, u));
    }
    forall u | u != PFTEMP ensures Sees(s3, Key(e, u)) == Sees(s, Key(e, u)) {
      if Key(e, u) in s1.pt { assert EntryOk(s1, Key(e, u)); }
      assert Sees(s2, Key(e, u)) == Sees(s1, Key(e, u));
    }
    assert SameEntry(s2, s3, Key(c, UXSTACK));
  }

  lemma UndisturbedSelf(s: Sys, e: nat, c: nat)
    requires Parent(s, e, c)
    ensures Undisturbed(s, s, e, c)
  {
  }

  lemma StillParent(s: Sys, s': Sys, e: nat, c: nat)
    requires Undisturbed(s, s', e, c)
    ensures Parent(s', e, c) && s'.threads[e] == s.threads[e] && s'.threads[c] == s.threads[c]
  {
  }

  lemma TempGone(m: map<Key, Word>, temp: Key, k: Key, w: Word, w': Word)
    requires temp !in m && temp != k
    ensures m[temp := w][k := w'] - {temp} == m[k := w']
  {
  }

  // The child has a copy of the parent's pages from UTEXT to `n`; nothing else has
  // changed.
  ghost predicate EagerSoFar(was: Memory, m: Memory, e: nat, c: nat, n: nat) {
    && (forall v: nat :: Key(c, v) in m <==> UTEXT <= v < n)
    && (forall v: nat :: Key(c, v) in m ==> Key(e, v) in was && m[Key(c, v)] == was[Key(e, v)])
    && (forall k: Key :: k.env != c && k != Key(e, UTEMP) ==> (k in m <==> k in was) && (k in m ==> m[k] == was[k]))
  }

  ghost function ViewOf(pt: map<Key, Word>, frames: map<nat, Content>): Memory {
    map k | k in pt && pt[k].pn in frames :: frames[pt[k].pn]
  }

  lemma ViewKeys(pt: map<Key, Word>, frames: map<nat, Content>)
    requires forall k :: k in pt ==> pt[k].pn in frames
    ensures ViewOf(pt, frames).Keys == pt.Keys
  {
  }

  lemma EagerNothing(was: Memory, e: nat, c: nat)
    requires forall k: Key :: k.env == c ==> k !in was
    ensures EagerSoFar(was, was, e, c, UTEXT)
  {
  }

  lemma EagerOneMore(was: Memory, m: Memory, e: nat, c: nat, v: nat)
    requires EagerSoFar(was, m, e, c, v) && Key(e, v) in was && e != c && v >= UTEXT
    ensures Key(e, v) in m && EagerSoFar(was, EagerStep(m, Copy(Key(e, v), Key(c, v))) - {Key(e, UTEMP)}, e, c, v + 1)
  {
  }

  // The child has copies of the parent's pages from 0x800000, UTEXT, to `end` and of its
  // page `stack`; nothing else has changed, but for a page the parent may have had at UTEMP.
  ghost predicate DumbForked(was: Memory, m: Memory, e: nat, c: nat, end: nat, stack: nat) {
    && (forall v: nat :: Key(c, v) in m <==> 0x800 <= v < end || v == stack)
    && (forall v: nat :: Key(c, v) in m ==> Key(e, v) in was && m[Key(c, v)] == was[Key(e, v)])
    && (forall k: Key :: k.env != c && k != Key(e, UTEMP) ==> (k in m <==> k in was) && (k in m ==> m[k] == was[k]))
  }

  lemma EagerLast(was: Memory, m: Memory, e: nat, c: nat, n: nat, end: nat, v: nat)
    requires EagerSoFar(was, m, e, c, n) && Key(e, v) in was && e != c && v != UTEMP
    requires n == end || end <= n == UTEXT
    ensures Key(e, v) in m
    ensures DumbForked(was, EagerStep(m, Copy(Key(e, v), Key(c, v))) - {Key(e, UTEMP)}, e, c, end, v)
  {
  }

  // A fresh page at `k` adds its bytes to the view, and an entry less takes its own.
  lemma ViewAfter(pt: map<Key, Word>, frames: map<nat, Content>, k: Key, p: nat, bytes: Content, gone: Key)
    requires p !in frames && forall x :: x in pt ==> pt[x].pn in frames
    ensures ViewOf(pt[k := Word(p, RW)] - {gone}, frames[p := bytes]) == ViewOf(pt, frames)[k := bytes] - {gone}
  {
  }

  lemma EntryKnown(s: Sys, k: Key)
    requires CowFork.Inv(s) && k in s.pt
    ensures s.pt[k].pn in s.frames && READ_ONLY <= s.pt[k].flags
  {
    assert EntryOk(s, k);
  }

  class Space {
    var pt: map<Key, Word>
    var frames: map<nat, Content>
    var threads: map<nat, Thread>
    // the environments with a page fault upcall (and so with an exception stack)
    var upcalls: set<nat>
    // what the other environments will try, gap by gap, between the steps of fork
    var oracle: seq<seq<Step>>
    // the run of the machine so far
    ghost var start: Sys
    ghost var trace: seq<Step>

    function Now(): Sys
      reads this
    {
      Sys(pt, frames, threads)
    }

    ghost predicate Valid()
      reads this
    {
      CanRun(start, trace) && Run(start, trace) == Now() && CowFork.Inv(Now())
    }

    // The state is what `step` makes of `before`.
    ghost method Took(before: Sys, step: Step)
      requires CanRun(start, trace) && Run(start, trace) == before && CowFork.Inv(before)
      requires Enabled(before, step) && Now() == Apply(before, step)
      modifies this`trace
      ensures Valid() && trace == old(trace) + [step]
    {
      RunSnoc(start, trace, step);
      StepKeepsInv(before, step);
      trace := trace + [step];
    }

    // Every mapped page exists.
    ghost predicate PagesOk()
      reads this
    {
      forall k :: k in pt ==> pt[k].pn in frames
    }

    // What every environment reads
    ghost function View(): Memory
      reads this
    {
      ViewOf(pt, frames)
    }

    lemma PagesExist()
      requires Valid()
      ensures PagesOk()
    {
      forall k | k in pt ensures pt[k].pn in frames { assert EntryOk(Now(), k); }
    }

    // page_alloc's page, one that nothing maps
    method AnyFreePage() returns (p: nat)
      requires PagesOk()
      ensures p !in frames && FreshPage(Now(), p)
    {
      ghost var q := FreshExists(frames.Keys);
      assert q !in frames.Keys;
      p :| p !in frames.Keys;
    }

    method SysPageAlloc(k: Key, p: nat)
      modifies this`pt, this`frames
      ensures pt == old(pt)[k := Word(p, RW)] && frames == old(frames)[p := Zeros()]
    {
      frames := frames[p := Zeros()];
      pt := pt[k := Word(p, RW)];
    }

    method SysPageMap(src: Key, dst: Key, perm: set<Flag>)
      requires src in pt
      modifies this`pt
      ensures pt == old(pt)[dst := Word(old(pt)[src].pn, perm)]
    {
      pt := pt[dst := Word(pt[src].pn, perm)];
    }

    method SysPageUnmap(k: Key)
      modifies this`pt
      ensures pt == old(pt) - {k}
    {
      pt := pt - {k};
    }

    // Entry to pgfault, and sys_page_alloc at PFTEMP
    method MapTemp(e: nat, v: nat)
      requires Valid() && Enabled(Now(), TakeFault(e, v))
      modifies this`pt, this`frames, this`threads, this`trace
      ensures Valid() && threads == old(threads)[e := With(old(threads)[e], Copying(v, 0))]
      ensures Key(e, PFTEMP) in pt && Key(e, PFTEMP) !in old(pt) && pt[Key(e, PFTEMP)].pn !in old(frames)
      ensures Key(e, v) in old(pt) && old(pt)[Key(e, v)].pn in old(frames) && v != PFTEMP
      ensures pt == old(pt)[Key(e, PFTEMP) := pt[Key(e, PFTEMP)]]
              && frames == old(frames)[pt[Key(e, PFTEMP)].pn := Zeros()]
    {
      ghost var s := Now();
      EntryKnown(s, Key(e, v));
      assert Key(e, PFTEMP) !in pt by { assert ThreadOk(s, e); }
      TakeFaultIs(s, e, v);
      hide CowFork.Inv, Enabled, Apply;
      threads := threads[e := With(threads[e], Entered(v))];
      Took(s, TakeFault(e, v));
      PagesExist();
      var p := AnyFreePage();
      ghost var s1 := Now();
      FaultAllocIs(s1, e, v, p);
      SysPageAlloc(Key(e, PFTEMP), p);
      threads := threads[e := With(threads[e], Copying(v, 0))];
      Took(s1, FaultAlloc(e, p));
    }

    lemma CopyIsApart(e: nat, v: nat)
      requires Valid() && e in threads && threads[e].fault == Copying(v, 0)
      ensures Key(e, PFTEMP) in pt && Key(e, v) in pt
      ensures pt[Key(e, PFTEMP)].pn in frames && pt[Key(e, v)].pn in frames
      ensures pt[Key(e, PFTEMP)].pn != pt[Key(e, v)].pn
    {
      assert ThreadOk(Now(), e) && Apart(Now(), Key(e, PFTEMP), Key(e, v));
    }

    // memcpy(PFTEMP, addr, PGSIZE) in pgfault
    method Memcpy(e: nat, v: nat)
      requires Valid() && e in threads && threads[e].fault == Copying(v, 0)
      modifies this`frames, this`threads, this`trace
      ensures Valid() && Key(e, PFTEMP) in pt && Key(e, v) in pt && pt[Key(e, v)].pn in old(frames)
      ensures threads == old(threads)[e := old(threads)[e].(fault := Copying(v, PGSIZE))]
      ensures frames == old(frames)[pt[Key(e, PFTEMP)].pn := old(frames)[pt[Key(e, v)].pn]]
    {
      hide CowFork.Inv, Enabled, Apply;
      CopyIsApart(e, v);
      var src, dst := pt[Key(e, v)].pn, pt[Key(e, PFTEMP)].pn;
      var i := 0;
      while i < PGSIZE
        invariant i <= PGSIZE && Valid()
        invariant threads == old(threads)[e := old(threads)[e].(fault := Copying(v, i))]
        invariant dst in frames && frames == old(frames)[dst := frames[dst]]
        invariant frames[dst][..i] == old(frames)[src][..i]
      {
        ghost var s := Now();
        FaultCopyIs(s, e, v, i);
        frames := frames[dst := frames[dst][i := frames[src][i]]];
        threads := threads[e := threads[e].(fault := Copying(v, i + 1))];
        Took(s, FaultCopy(e));
        i := i + 1;
      }
      assert frames[dst] == old(frames)[src];
    }

    // sys_page_map from PFTEMP to the faulting page, and sys_page_unmap of PFTEMP
    method Install(e: nat, v: nat)
      requires Valid() && e in threads && threads[e].fault == Copying(v, PGSIZE) && Key(e, PFTEMP) in pt && v != PFTEMP
      modifies this`pt, this`threads, this`trace
      ensures Valid() && threads == old(threads)[e := With(old(threads)[e], NoFault)]
      ensures pt == old(pt)[Key(e, v) := Word(old(pt)[Key(e, PFTEMP)].pn, RW)] - {Key(e, PFTEMP)}
    {
      hide CowFork.Inv, Enabled, Apply;
      ghost var s := Now();
      FaultEndIs(s, e, v);
      SysPageMap(Key(e, PFTEMP), Key(e, v), RW);
      threads := threads[e := With(threads[e], Mapped(v))];
      ghost var s1 := Now();
      Took(s, FaultMap(e));
      SysPageUnmap(Key(e, PFTEMP));
      threads := threads[e := With(threads[e], NoFault)];
      Took(s1, FaultUnmap(e));
    }

    // The handler for a faulting access to page `v`. It takes only writes to
    // copy-on-write pages, and afterwards such a page is the environment's own, with
    // the same bytes, and nothing else has changed; any other access is refused.
    method Pgfault(e: nat, v: nat, write: bool) returns (ok: bool)
      requires Valid() && Active(Now(), e) && v != PFTEMP
      requires Key(e, v) in pt && write ==> W !in pt[Key(e, v)].flags
      modifies this`pt, this`frames, this`threads, this`trace
      ensures Valid() && threads == old(threads)
      ensures ok <==> write && Key(e, v) in old(pt) && COW in old(pt)[Key(e, v)].flags
      ensures !ok ==> pt == old(pt) && frames == old(frames)
      ensures ok ==>
                && Key(e, v) in pt && pt[Key(e, v)].flags == {P, U, W} && pt[Key(e, v)].pn !in old(frames)
                && pt == old(pt)[Key(e, v) := pt[Key(e, v)]]
                && frames == old(frames)[pt[Key(e, v)].pn := Sees(old(Now()), Key(e, v))]
    {
      if !(write && Key(e, v) in pt && COW in pt[Key(e, v)].flags) { return false; }
      assert threads[e].fault == NoFault && Enabled(Now(), TakeFault(e, v));
      hide CowFork.Inv, Enabled, Apply, CanRun, Run;
      ghost var k, was := Key(e, PFTEMP), pt;
      MapTemp(e, v);
      ghost var w := pt[k];
      Memcpy(e, v);
      Install(e, v);
      TempGone(was, k, Key(e, v), w, Word(w.pn, RW));
      assert threads == old(threads);
      return true;
    }

    // The next gap: the others take those of their steps that are possible.
    method Others(e: nat, ghost c: nat)
      requires Valid() && Parent(Now(), e, c)
      modifies this`pt, this`frames, this`threads, this`oracle, this`trace
      ensures Valid() && Undisturbed(old(Now()), Now(), e, c)
      ensures old(oracle) == [] ==> oracle == [] && Now() == old(Now())
    {
      hide Undisturbed, CowFork.Inv, Enabled, Apply, CanRun, Run;
      ghost var s0 := Now();
      UndisturbedSelf(s0, e, c);
      if oracle == [] { return; }
      var attempts := oracle[0];
      oracle := oracle[1..];
      for i := 0 to |attempts|
        invariant Valid() && Undisturbed(s0, Now(), e, c) && Parent(Now(), e, c)
      {
        var s, step := Now(), attempts[i];
        if step.env != e && Enabled(s, step) {
          OneStepUndisturbed(s, step, e, c);
          UndisturbedTwice(s0, s, Apply(s, step), e, c);
          StillParent(s, Apply(s, step), e, c);
          var next := Apply(s, step);
          pt, frames, threads := next.pt, next.frames, next.threads;
          Took(s, step);
        }
      }
    }

    // A step of fork that changes nothing but where the parent stands
    method CheckStep(e: nat, c: nat, after: Prog)
      requires Valid() && Parent(Now(), e, c) && after.Forking() && after.child == c
      requires Enabled(Now(), CheckPage(e))
      requires Apply(Now(), CheckPage(e)) == Sys(pt, frames, threads[e := Thread(after, NoFault)])
      modifies this`pt, this`frames, this`threads, this`oracle, this`trace
      ensures Valid() && Parent(Now(), e, c) && threads[e] == Thread(after, NoFault) && threads[c] == old(threads)[c]
      ensures Kept(old(Now()), Now(), e, c)
      ensures old(oracle) == [] ==>
                oracle == [] && Now() == Sys(old(pt), old(frames), old(threads)[e := Thread(after, NoFault)])
    {
      hide Undisturbed, Kept, CowFork.Inv, Enabled, Apply, CanRun, Run;
      ghost var s := Now();
      threads := threads[e := Thread(after, NoFault)];
      ghost var s1 := Now();
      Took(s, CheckPage(e));
      Others(e, c);
      StillParent(s1, Now(), e, c);
      KeptThenOthers(s, s1, Now(), e, c);
    }

    // A sys_page_map of the parent's page `v`
    method MapStep(e: nat, c: nat, v: nat, x: nat, perm: set<Flag>, after: Prog, ghost step: Step)
      requires Valid() && Parent(Now(), e, c) && after.Forking() && after.child == c
      requires Key(e, v) in pt && (x == e || x == c) && Enabled(Now(), step)
      requires Apply(Now(), step) ==
               Sys(pt[Key(x, v) := Word(pt[Key(e, v)].pn, perm)], frames, threads[e := Thread(after, NoFault)])
      modifies this`pt, this`frames, this`threads, this`oracle, this`trace
      ensures Valid() && Parent(Now(), e, c) && threads[e] == Thread(after, NoFault) && threads[c] == old(threads)[c]
      ensures Wrote(old(Now()), Now(), e, c, v, x, Word(old(pt)[Key(e, v)].pn, perm))
      ensures old(oracle) == [] ==> oracle == [] && Now() == Apply(old(Now()), step)
    {
      hide Undisturbed, Wrote, CowFork.Inv, Enabled, Apply, CanRun, Run;
      ghost var s := Now();
      SysPageMap(Key(e, v), Key(x, v), perm);
      threads := threads[e := Thread(after, NoFault)];
      ghost var s1 := Now();
      Took(s, step);
      Others(e, c);
      StillParent(s1, Now(), e, c);
      WriteThenOthers(s, s1, Now(), e, c, v, x, Word(s.pt[Key(e, v)].pn, perm));
    }

    // duppage, for a page that is there
    method Duppage(e: nat, c: nat, v: nat)
      requires Valid() && Parent(Now(), e, c) && threads[e].prog == Check(c, v) && v < USTACKTOP
      requires Key(e, v) in pt && U in pt[Key(e, v)].flags
      modifies this`pt, this`frames, this`threads, this`oracle, this`trace
      ensures Valid() && Parent(Now(), e, c) && threads[e].prog == Check(c, v + 1) && threads[c] == old(threads)[c]
      ensures Duped(old(Now()), Now(), e, c, v)
      ensures old(oracle) == [] ==>
                && oracle == [] && threads == old(threads)[e := Thread(Check(c, v + 1), NoFault)]
                && OthersAsBefore(old(Now()), Now(), e, c)
    {
      hide CowFork.Inv, Enabled, Apply, CanRun, Run, Duped;
      ghost var s, w := Now(), pt[Key(e, v)];
      CheckPageIs(s, e, c, v);
      if W in pt[Key(e, v)].flags || COW in pt[Key(e, v)].flags {
        CheckStep(e, c, MapChild(c, v));
        ghost var s1 := Now();
        assert SameEntry(s, s1, Key(e, v));
        DupChildIs(s1, e, c, v);
        MapStep(e, c, v, c, SHARED, MapSelf(c, v), DupChild(e));
        ghost var s2 := Now();
        assert SameEntry(s1, s2, Key(e, v));
        DupSelfIs(s2, e, c, v);
        MapStep(e, c, v, e, SHARED, Check(c, v + 1), DupSelf(e));
        DupedShared(s, s1, s2, Now(), e, c, v);
      } else {
        CheckStep(e, c, MapReadOnly(c, v));
        ghost var s1 := Now();
        assert SameEntry(s, s1, Key(e, v));
        DupReadOnlyIs(s1, e, c, v);
        MapStep(e, c, v, c, READ_ONLY, Check(c, v + 1), DupReadOnly(e));
        DupedReadOnly(s, s1, Now(), e, c, v);
      }
    }

    // The child's exception stack and upcall
    method GiveStackTo(e: nat, c: nat) returns (p: nat)
      requires Valid() && Parent(Now(), e, c) && threads[e].prog == Check(c, USTACKTOP)
      modifies this`pt, this`frames, this`threads, this`upcalls, this`oracle, this`trace
      ensures Valid() && Parent(Now(), e, c) && threads[e] == Thread(Launch(c), NoFault)
      ensures threads[c] == old(threads)[c] && upcalls == old(upcalls) + {c}
      ensures Stacked(old(Now()), Now(), e, c, p)
      ensures old(oracle) == [] ==>
                && oracle == [] && threads == old(threads)[e := Thread(Launch(c), NoFault)]
                && pt == old(pt)[Key(c, UXSTACK) := Word(p, RW)]
                && frames == old(frames)[p := Zeros()] && p !in old(frames)
    {
      hide CowFork.Inv, Enabled, Apply, CanRun, Run, Undisturbed, Stacked, Kept;
      ghost var s := Now();
      CheckPageIs(s, e, c, USTACKTOP);
      CheckStep(e, c, GiveStack(c));
      PagesExist();
      p := AnyFreePage();
      ghost var s1 := Now();
      StackIs(s1, e, c, p);
      SysPageAlloc(Key(c, UXSTACK), p);
      threads := threads[e := Thread(Launch(c), NoFault)];
      ghost var s2 := Now();
      Took(s1, StackAlloc(e, p));
      upcalls := upcalls + {c};
      Others(e, c);
      StillParent(s2, Now(), e, c);
      StackThenOthers(s, s1, s2, Now(), e, c, p);
    }

    // ... and sys_env_set_status
    method StartChild(e: nat, c: nat) returns (p: nat)
      requires Valid() && Parent(Now(), e, c) && threads[e].prog == Check(c, USTACKTOP)
      modifies this`pt, this`frames, this`threads, this`upcalls, this`oracle, this`trace
      ensures Valid() && e in threads && threads[e] == Thread(User, NoFault)
      ensures c in threads && threads[c] == Thread(User, NoFault) && upcalls == old(upcalls) + {c}
      ensures Stacked(old(Now()), Now(), e, c, p)
      ensures old(oracle) == [] ==>
                && threads == old(threads)[e := Thread(User, NoFault)][c := Thread(User, NoFault)]
                && pt == old(pt)[Key(c, UXSTACK) := Word(p, RW)]
                && frames == old(frames)[p := Zeros()] && p !in old(frames)
    {
      hide CowFork.Inv, Enabled, Apply, CanRun, Run, Stacked, Kept;
      ghost var s := Now();
      p := GiveStackTo(e, c);
      ghost var s1 := Now();
      LaunchIs(s1, e, c);
      threads := threads[e := Thread(User, NoFault)][c := Thread(User, NoFault)];
      StackedStill(s, s1, Now(), e, c, p);
      Took(s1, SetRunnable(e));
    }

    // The body of fork's loop: duppage for a page that is there for the user
    method DupIfThere(e: nat, c: nat, pn: nat)
      requires Valid() && Parent(Now(), e, c) && threads[e].prog == Check(c, pn) && pn < USTACKTOP
      modifies this`pt, this`frames, this`threads, this`oracle, this`trace
      ensures Valid() && Parent(Now(), e, c) && threads[e].prog == Check(c, pn + 1) && threads[c] == old(threads)[c]
      ensures Duped(old(Now()), Now(), e, c, pn)
      ensures old(oracle) == [] ==>
                && oracle == [] && threads == old(threads)[e := Thread(Check(c, pn + 1), NoFault)]
                && OthersAsBefore(old(Now()), Now(), e, c)
    {
      hide CowFork.Inv, Enabled, Apply, CanRun, Run, Duped, Kept;
      ghost var s := Now();
      if Key(e, pn) in pt && U in pt[Key(e, pn)].flags {
        Duppage(e, c, pn);
      } else {
        if Key(e, pn) in pt { EntryKnown(s, Key(e, pn)); }
        CheckPageIs(s, e, c, pn);
        CheckStep(e, c, Check(c, pn + 1));
        DupedNothing(s, Now(), e, c, pn);
      }
    }

    // lib/pgfault.c: the first handler comes with an exception stack.
    method SetPgfaultHandler(e: nat)
      requires Valid() && Active(Now(), e) && threads[e].prog.User?
      modifies this`pt, this`frames, this`upcalls, this`trace
      ensures Valid() && upcalls == old(upcalls) + {e}
      ensures if e in old(upcalls) then Now() == old(Now())
              else
                && Key(e, UXSTACK) in pt && pt[Key(e, UXSTACK)].pn !in old(frames)
                && pt == old(pt)[Key(e, UXSTACK) := Word(pt[Key(e, UXSTACK)].pn, RW)]
                && frames == old(frames)[pt[Key(e, UXSTACK)].pn := Zeros()]
    {
      if e !in upcalls {
        PagesExist();
        var p := AnyFreePage();
        ghost var s := Now();
        SysPageAlloc(Key(e, UXSTACK), p);
        Took(s, UserAlloc(e, UXSTACK, p));
      }
      upcalls := upcalls + {e};
    }

    // sys_exofork
    method SysExofork(e: nat, c: nat)
      requires Valid() && Active(Now(), e) && threads[e].prog.User? && c !in threads
      modifies this`threads, this`trace
      ensures Valid() && Parent(Now(), e, c) && Copied(old(Now()), Now(), e, c, 0)
      ensures threads == old(threads)[e := Thread(Check(c, 0), NoFault)][c := Thread(Embryo(e), NoFault)]
    {
      hide CowFork.Inv, Enabled, Apply, CanRun, Run, Copied;
      ghost var s0 := Now();
      ExoforkIs(s0, e, c);
      threads := threads[e := Thread(Check(c, 0), NoFault)][c := Thread(Embryo(e), NoFault)];
      CopiedNothing(s0, Now(), e, c);
      Took(s0, Exofork(e, c));
    }

    // fork's loop over the pages below USTACKTOP
    method CopyPages(e: nat, c: nat, ghost s0: Sys)
      requires Valid() && Parent(Now(), e, c) && threads[e].prog == Check(c, 0)
      requires Copied(s0, Now(), e, c, 0) && OthersAsBefore(s0, Now(), e, c)
      modifies this`pt, this`frames, this`threads, this`oracle, this`trace
      ensures Valid() && Parent(Now(), e, c) && threads[e].prog == Check(c, USTACKTOP)
      ensures Copied(s0, Now(), e, c, USTACKTOP)
      ensures old(oracle) == [] ==>
                && oracle == [] && OthersAsBefore(s0, Now(), e, c)
                && threads == old(threads)[e := Thread(Check(c, USTACKTOP), NoFault)]
    {
      hide CowFork.Inv, Enabled, Apply, CanRun, Run, Copied, Duped, OthersAsBefore;
      var pn := 0;
      while pn < USTACKTOP
        invariant pn <= USTACKTOP && Valid() && Copied(s0, Now(), e, c, pn)
        invariant Parent(Now(), e, c) && threads[e].prog == Check(c, pn)
        invariant old(oracle) == [] ==>
                    && oracle == [] && OthersAsBefore(s0, Now(), e, c)
                    && threads == old(threads)[e := Thread(Check(c, pn), NoFault)]
      {
        ghost var s := Now();
        DupIfThere(e, c, pn);
        CopiedOneMore(s0, s, Now(), e, c, pn);
        if old(oracle) == [] { AsBeforeTwice(s0, s, Now(), e, c); }
        pn := pn + 1;
      }
    }

    // fork, once the handler is set
    method Duplicate(e: nat, c: nat)
      requires Valid() && Active(Now(), e) && threads[e].prog.User? && c !in threads
      modifies this`pt, this`frames, this`threads, this`upcalls, this`oracle, this`trace
      ensures Valid() && e in threads && threads[e] == Thread(User, NoFault)
      ensures c in threads && threads[c] == Thread(User, NoFault) && upcalls == old(upcalls) + {c}
      ensures Key(c, UXSTACK) in pt && forall v :: 0 <= v < USTACKTOP ==> ForkedPage(old(Now()), Now(), e, c, v)
      ensures old(oracle) == [] ==>
                threads == old(threads)[c := Thread(User, NoFault)] && Alone(old(Now()), Now(), e, c)
    {
      ghost var s0 := Now();
      assert Key(e, PFTEMP) !in pt && threads[e] == Thread(User, NoFault) by { assert ThreadOk(s0, e); }
      hide CowFork.Inv, Enabled, Apply, CanRun, Run, Copied, ForkedPage, Stacked, Alone, OthersAsBefore;
      SysExofork(e, c);
      AsBeforeSelf(s0, Now(), e, c);
      CopyPages(e, c, s0);
      ghost var s := Now();
      var p := StartChild(e, c);
      ForkIsDone(s0, s, Now(), e, c, p);
      if old(oracle) == [] { AloneAtTheEnd(s0, s, Now(), e, c, p); }
    }

    // fork by environment `e`; `c` is the child sys_exofork made. Whatever the other
    // environments do meanwhile, both have and read, page by page, what the parent
    // did at the call; neither can write what they share, and both can come to write,
    // through pgfault, what the parent could. With nobody else about, nobody else is
    // affected.
    method Fork(e: nat, c: nat)
      requires Valid() && Active(Now(), e) && threads[e].prog.User? && c !in threads
      modifies this`pt, this`frames, this`threads, this`upcalls, this`oracle, this`trace
      ensures Valid() && e in threads && threads[e] == Thread(User, NoFault)
      ensures c in threads && threads[c] == Thread(User, NoFault) && upcalls == old(upcalls) + {e, c}
      // every page below 0xEEBFE000, and an exception stack at 0xEEBFF000
      ensures Key(c, 0xEEBFF) in pt && forall v :: 0 <= v < 0xEEBFE ==> ForkedPage(old(Now()), Now(), e, c, v)
      ensures old(oracle) == [] ==>
                threads == old(threads)[c := Thread(User, NoFault)] && Alone(old(Now()), Now(), e, c)
    {
      ghost var s0 := Now();
      assert EntriesOk(s0);
      hide CowFork.Inv, Enabled, Apply, CanRun, Run, ForkedPage, Alone, EntriesOk;
      SetPgfaultHandler(e);
      ghost var s1 := Now();
      Duplicate(e, c);
      BeforeTheHandler(s0, s1, Now(), e, c);
    }

    // user/dumbfork.c: duppage. The parent `e` gives the child `c` a page of its own
    // with the bytes of its page `v`, which is one Copy of the eager machine. What it
    // had at UTEMP is gone, so a page there would be copied as zeros.
    method EagerDuppage(e: nat, c: nat, v: nat)
      requires PagesOk() && c != e && Key(e, v) in pt
      modifies this`pt, this`frames
      ensures PagesOk() && pt.Keys == old(pt.Keys) + {Key(c, v)} - {Key(e, UTEMP)}
      ensures View() == EagerStep(old(View()), if v == UTEMP then Zero(Key(c, v)) else Copy(Key(e, v), Key(c, v)))
                        - {Key(e, UTEMP)}
      // the copy is the child's to write; no other entry is touched
      ensures Key(c, v) in pt && pt[Key(c, v)].flags == {P, U, W}
      ensures forall k :: k in pt && k != Key(c, v) ==> k in old(pt) && pt[k] == old(pt)[k]
    {
      ghost var pt0, frames0 := pt, frames;
      var p := AnyFreePage();
      SysPageAlloc(Key(c, v), p);
      SysPageMap(Key(c, v), Key(e, UTEMP), RW);
      Memmove(Key(e, v), Key(e, UTEMP));
      SysPageUnmap(Key(e, UTEMP));
      assert pt == pt0[Key(c, v) := Word(p, RW)] - {Key(e, UTEMP)};
      ghost var bytes := if v == UTEMP then Zeros() else frames0[pt0[Key(e, v)].pn];
      assert frames == frames0[p := bytes];
      ViewAfter(pt0, frames0, Key(c, v), p, bytes, Key(e, UTEMP));
    }

    // memmove(UTEMP, addr, PGSIZE)
    method Memmove(src: Key, dst: Key)
      requires src in pt && dst in pt && pt[src].pn in frames && pt[dst].pn in frames
      modifies this`frames
      ensures frames == old(frames)[pt[dst].pn := old(frames)[pt[src].pn]]
    {
      var p, q := pt[src].pn, pt[dst].pn;
      var i := 0;
      while i < PGSIZE
        invariant i <= PGSIZE && q in frames && frames == old(frames)[q := frames[q]]
        invariant frames[q][..i] == old(frames)[p][..i] && frames[q][i..] == old(frames)[q][i..]
      {
        frames := frames[q := frames[q][i := frames[p][i]]];
        i := i + 1;
      }
      assert frames[q] == old(frames)[p];
    }

    // dumbfork's loop over the program's pages, from UTEXT to `end`
    method CopyProgram(e: nat, c: nat, end: nat) returns (addr: nat)
      requires PagesOk() && c != e && forall k :: k in pt ==> k.env != c
      requires forall v :: UTEXT <= v < end ==> Key(e, v) in pt
      modifies this`pt, this`frames
      ensures PagesOk() && AllWritable(pt, c) && (addr == end || end <= addr == UTEXT)
      ensures EagerSoFar(old(View()), View(), e, c, addr)
    {
      hide ViewOf, EagerSoFar, EagerStep, AllWritable;
      ViewKeys(pt, frames);
      ghost var was := View();
      addr := UTEXT;
      EagerNothing(was, e, c);
      NoneYet(pt, c);
      while addr < end
        invariant UTEXT <= addr && (addr <= end || addr == UTEXT)
        invariant PagesOk() && EagerSoFar(was, View(), e, c, addr) && AllWritable(pt, c)
      {
        ViewKeys(pt, frames);
        EagerOneMore(was, View(), e, c, addr);
        ghost var pt0 := pt;
        EagerDuppage(e, c, addr);
        WritableStill(pt0, pt, c, Key(c, addr));
        addr := addr + 1;
      }
    }

    // dumbfork: sys_exofork, the program's pages, the stack page, and
    // sys_env_set_status
    method Dumbfork(e: nat, c: nat, end: nat, stack: nat)
      requires PagesOk() && e in threads && c !in threads && forall k :: k in pt ==> k.env in threads
      requires (forall v :: UTEXT <= v < end ==> Key(e, v) in pt) && Key(e, stack) in pt && stack != UTEMP
      modifies this`pt, this`frames, this`threads
      ensures PagesOk() && threads == old(threads)[c := Thread(User, NoFault)]
      ensures DumbForked(old(View()), View(), e, c, end, stack)
      ensures AllWritable(pt, c) && Key(e, UTEMP) !in pt
    {
      hide ViewOf, EagerSoFar, EagerStep, AllWritable, DumbForked;
      threads := threads[c := Thread(Embryo(e), NoFault)];
      ViewKeys(pt, frames);
      ghost var was := View();
      var addr := CopyProgram(e, c, end);
      ViewKeys(pt, frames);
      EagerLast(was, View(), e, c, addr, end, stack);
      ghost var pt1 := pt;
      EagerDuppage(e, c, stack);
      WritableStill(pt1, pt, c, Key(c, stack));
      threads := threads[c := Thread(User, NoFault)];
      assert threads == old(threads)[c := Thread(User, NoFault)];
    }
  }

  ghost predicate AllWritable(pt: map<Key, Word>, c: nat) {
    forall k :: k in pt && k.env == c ==> pt[k].flags == {P, U, W}
  }

  lemma NoneYet(pt: map<Key, Word>, c: nat)
    requires forall k :: k in pt ==> k.env != c
    ensures AllWritable(pt, c)
  {
  }

  lemma WritableStill(pt: map<Key, Word>, pt': map<Key, Word>, c: nat, k: Key)
    requires AllWritable(pt, c) && k in pt' && pt'[k].flags == {P, U, W}
    requires forall x :: x in pt' && x != k ==> x in pt && pt'[x] == pt[x]
    ensures AllWritable(pt', c)
  {
  }

  // What fork leaves of page `v`
  ghost predicate ForkedPage(s0: Sys, s: Sys, e: nat, c: nat, v: nat) {
    && (Key(c, v) in s.pt <==> Key(e, v) in s0.pt) && (Key(e, v) in s.pt <==> Key(e, v) in s0.pt)
    && Sees(s, Key(c, v)) == Sees(s0, Key(e, v)) && Sees(s, Key(e, v)) == Sees(s0, Key(e, v))
    && (Key(c, v) in s.pt ==>
          s.pt[Key(c, v)].pn == s.pt[Key(e, v)].pn == s0.pt[Key(e, v)].pn
          && SharedOut(s0.pt[Key(e, v)].flags, s.pt[Key(c, v)].flags, s.pt[Key(e, v)].flags))
  }

  // Everybody else's entries, and all bytes that were there, are as they were.
  ghost predicate Alone(s0: Sys, s: Sys, e: nat, c: nat) {
    && (forall k: Key :: k.env != c && k.env != e ==> SameEntry(s0, s, k))
    && (forall f :: f in s0.frames ==> f in s.frames && s.frames[f] == s0.frames[f])
  }

  // The exception stack is not among the pages fork copies.
  lemma BeforeTheHandler(s0: Sys, s1: Sys, s: Sys, e: nat, c: nat)
    requires EntriesOk(s0) && forall v :: 0 <= v < USTACKTOP ==> ForkedPage(s1, s, e, c, v)
    requires s1 == s0 || (Key(e, UXSTACK) in s1.pt
                          && s1.pt == s0.pt[Key(e, UXSTACK) := s1.pt[Key(e, UXSTACK)]]
                          && s1.pt[Key(e, UXSTACK)].pn !in s0.frames
                          && s1.frames == s0.frames[s1.pt[Key(e, UXSTACK)].pn := Zeros()]
                          && s1.threads == s0.threads)
    ensures forall v :: 0 <= v < USTACKTOP ==> ForkedPage(s0, s, e, c, v)
    ensures Alone(s1, s, e, c) ==> Alone(s0, s, e, c)
  {
    forall v | 0 <= v < USTACKTOP ensures ForkedPage(s0, s, e, c, v) {
      assert ForkedPage(s1, s, e, c, v);
      if Key(e, v) in s0.pt { assert EntryOk(s0, Key(e, v)); }
    }
    if Alone(s1, s, e, c) {
      forall k: Key | k.env != e && k.env != c ensures SameEntry(s0, s, k) {
        assert SameEntry(s1, s, k);
      }
    }
  }

  lemma AsBeforeSelf(s0: Sys, s: Sys, e: nat, c: nat)
    requires s.pt == s0.pt && s.frames == s0.frames
    ensures OthersAsBefore(s0, s, e, c)
  {
  }

  lemma AsBeforeTwice(s0: Sys, s: Sys, s': Sys, e: nat, c: nat)
    requires OthersAsBefore(s0, s, e, c) && OthersAsBefore(s, s', e, c)
    ensures OthersAsBefore(s0, s', e, c)
  {
    forall k: Key | k.env != e && k.env != c ensures SameEntry(s0, s', k) {
      assert SameEntry(s0, s, k) && SameEntry(s, s', k);
    }
  }

  lemma AloneAtTheEnd(s0: Sys, s: Sys, s': Sys, e: nat, c: nat, p: nat)
    requires OthersAsBefore(s0, s, e, c) && p !in s.frames
    requires s'.pt == s.pt[Key(c, UXSTACK) := Word(p, RW)] && s'.frames == s.frames[p := Zeros()]
    ensures Alone(s0, s', e, c)
  {
    forall k: Key | k.env != e && k.env != c ensures SameEntry(s0, s', k) {
      assert SameEntry(s0, s, k);
    }
  }

  lemma ForkIsDone(s0: Sys, s: Sys, s': Sys, e: nat, c: nat, p: nat)
    requires Copied(s0, s, e, c, USTACKTOP) && Stacked(s, s', e, c, p) && Key(e, PFTEMP) !in s0.pt
    ensures Key(c, UXSTACK) in s'.pt
    ensures forall v :: 0 <= v < USTACKTOP ==> ForkedPage(s0, s', e, c, v)
  {
    forall v | 0 <= v < USTACKTOP ensures ForkedPage(s0, s', e, c, v) {
      assert CopiedPage(s0, s, e, c, USTACKTOP, v);
      assert SameEntry(s, s', Key(e, v)) && SameEntry(s, s', Key(c, v));
      if v != PFTEMP { assert Sees(s', Key(e, v)) == Sees(s, Key(e, v)); }
    }
  }

  lemma StackedStill(s: Sys, s3: Sys, s4: Sys, e: nat, c: nat, p: nat)
    requires Stacked(s, s3, e, c, p) && s4.pt == s3.pt && s4.frames == s3.frames
    ensures Stacked(s, s4, e, c, p)
  {
    forall u ensures SameEntry(s, s4, Key(e, u)) && (u != UXSTACK ==> SameEntry(s, s4, Key(c, u))) {
      assert SameEntry(s, s3, Key(e, u)) && (u != UXSTACK ==> SameEntry(s, s3, Key(c, u)));
    }
    forall u | u != PFTEMP ensures Sees(s4, Key(e, u)) == Sees(s, Key(e, u)) {
      assert Sees(s3, Key(e, u)) == Sees(s, Key(e, u));
    }
  }
}
