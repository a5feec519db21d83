/**
 A whole fork as the child sees it: whatever happens between the calls of fork, and
 the parent's own stores and faults are among it, each page of the child is the
 parent's page as it was at some moment of the call.
 */
module ForkMoments {
  import opened CowFork

  // Environment `e` is inside fork, for child `c`.
  predicate InFork(s: Sys, e: nat, c: nat) {
    e in s.threads && s.threads[e].prog.Forking() && s.threads[e].prog.child == c
  }

  // After `i` steps of the run, page `v` of `e` is there and reads `b`.
  ghost predicate SawAt(s: Sys, steps: seq<Step>, i: nat, e: nat, v: nat, b: Content)
    requires i <= |steps|
  {
    CanRun(s, steps[..i]) && Key(e, v) in Run(s, steps[..i]).pt && Sees(Run(s, steps[..i]), Key(e, v)) == b
  }

  lemma {:induction false} Prefix(s: Sys, steps: seq<Step>, i: nat)
    requires CanRun(s, steps) && i < |steps|
    ensures CanRun(s, steps[..i]) && CanRun(s, steps[..i + 1]) && Enabled(Run(s, steps[..i]), steps[i])
    ensures Run(s, steps[..i + 1]) == Apply(Run(s, steps[..i]), steps[i])
    decreases i
  {
    if i == 0 {
      assert steps[..0] == [] && steps[..1][1..] == [];
    } else {
      assert steps[..i][1..] == steps[1..][..i - 1] && steps[..i + 1][1..] == steps[1..][..i];
      Prefix(Apply(s, steps[0]), steps[1..], i - 1);
    }
  }

  // Only one memory matches a state.
  lemma MemoryStep(s: Sys, step: Step)
    requires Inv(s) && Enabled(s, step)
    ensures Inv(Apply(s, step)) && EntriesOk(s) && EntriesOk(Apply(s, step))
    ensures MemoryOf(Apply(s, step)) == EagerStep(MemoryOf(s), Meanwhile(s, step))
  {
    StepKeepsInv(s, step);
    MemoryRefines(s);
    StepRefines(s, MemoryOf(s), step);
    MemoryRefines(Apply(s, step));
    SameMemory(Apply(s, step), MemoryOf(Apply(s, step)), EagerStep(MemoryOf(s), Meanwhile(s, step)));
  }

  lemma SameMemory(s: Sys, m: Memory, m': Memory)
    requires Refines(s, m) && Refines(s, m')
    ensures m == m'
  {
    hide Pending;
    assert m.Keys == m'.Keys;
  }

  // A child that has not started gets pages from its parent only.
  lemma EmbryoGets(s: Sys, m: Memory, step: Step, e: nat, c: nat, v: nat)
    requires Inv(s) && Enabled(s, step) && InFork(s, e, c) && step != SetRunnable(e) && v != UXSTACK
    ensures InFork(Apply(s, step), e, c)
    ensures var m', k := EagerStep(m, Meanwhile(s, step)), Key(c, v);
            k in m' ==> (k in m && m'[k] == m[k]) || (Key(e, v) in m && m'[k] == m[Key(e, v)])
  {
    hide Exclusive, EntriesOk, CopiedAt, FaultOk, FreshPage;
    assert ThreadOk(s, step.env) && ThreadOk(s, e) && ThreadOk(s, c);
  }

  ghost predicate WasTheParents(s: Sys, steps: seq<Step>, n: nat, e: nat, v: nat, b: Content)
    requires n <= |steps|
  {
    exists i :: 0 <= i <= n && SawAt(s, steps, i, e, v, b)
  }

  lemma MemoryShows(s: Sys, k: Key)
    requires Inv(s) && k in MemoryOf(s)
    ensures k in s.pt && Sees(s, k) == MemoryOf(s)[k]
  {
    MemoryRefines(s);
  }

  // After every step of the call
  lemma {:induction false} EveryPageWasTheParents(s: Sys, steps: seq<Step>, n: nat, e: nat, c: nat, v: nat)
    requires Inv(s) && CanRun(s, steps) && 0 < n <= |steps| && v != UXSTACK && v != PFTEMP
    requires steps[0] == Exofork(e, c) && forall j :: 0 <= j < n ==> steps[j] != SetRunnable(e)
    ensures CanRun(s, steps[..n]) && Inv(Run(s, steps[..n])) && InFork(Run(s, steps[..n]), e, c)
    ensures var m := MemoryOf(Run(s, steps[..n]));
            Key(c, v) in m ==> WasTheParents(s, steps, n, e, v, m[Key(c, v)])
  {
    hide Inv, Apply, Enabled, Meanwhile, MemoryOf, CanRun, Run, Sees;
    Prefix(s, steps, n - 1);
    var s0, step := Run(s, steps[..n - 1]), steps[n - 1];
    if n == 1 {
      NothingYet(s, steps, e, c, v);
    } else {
      EveryPageWasTheParents(s, steps, n - 1, e, c, v);
      MemoryStep(s0, step);
      EmbryoGets(s0, MemoryOf(s0), step, e, c, v);
      var m0, m1 := MemoryOf(s0), MemoryOf(Apply(s0, step));
      if Key(c, v) in m1 {
        if Key(c, v) in m0 && m1[Key(c, v)] == m0[Key(c, v)] {
          Later(s, steps, n - 1, n, e, v, m0[Key(c, v)]);
        } else {
          MemoryShows(s0, Key(e, v));
          assert SawAt(s, steps, n - 1, e, v, m1[Key(c, v)]);
        }
      }
    }
  }

  lemma Later(s: Sys, steps: seq<Step>, n: nat, n': nat, e: nat, v: nat, b: Content)
    requires n <= n' <= |steps| && WasTheParents(s, steps, n, e, v, b)
    ensures WasTheParents(s, steps, n', e, v, b)
  {
    hide SawAt;
  }

  // sys_exofork leaves the child with nothing.
  lemma NothingYet(s: Sys, steps: seq<Step>, e: nat, c: nat, v: nat)
    requires Inv(s) && CanRun(s, steps) && steps != [] && steps[0] == Exofork(e, c)
    ensures CanRun(s, steps[..1]) && Inv(Run(s, steps[..1])) && InFork(Run(s, steps[..1]), e, c)
    ensures Key(c, v) !in MemoryOf(Run(s, steps[..1]))
  {
    Prefix(s, steps, 0);
    assert steps[..0] == [];
    StepKeepsInv(s, Exofork(e, c));
    assert Key(c, v) in s.pt ==> EntryOk(s, Key(c, v));
  }

  lemma AtLaunch(s: Sys, e: nat, c: nat, v: nat)
    requires Inv(s) && InFork(s, e, c) && s.threads[e].prog.Launch? && v < USTACKTOP && v != PFTEMP
    ensures Key(c, v) in s.pt <==> Key(e, v) in s.pt
    ensures Key(c, v) in s.pt ==> Key(c, v) in MemoryOf(s) && Sees(s, Key(c, v)) == MemoryOf(s)[Key(c, v)]
  {
    assert ThreadOk(s, e) && CopiedAt(s, e, c, USTACKTOP, v);
    if Key(c, v) in s.pt {
      assert EntryOk(s, Key(c, v)) && s.threads[c].prog == Embryo(e);
      MemoryShows(s, Key(c, v));
    }
  }

  /**
   From sys_exofork to the point where the child is about to be made runnable, with
   any steps of any environment in between: the child has just the pages below
   USTACKTOP that the parent has, and each reads as the parent's page did at some
   moment of the call.
   */
  lemma ForkCopiesMoments(s: Sys, steps: seq<Step>, e: nat, c: nat, v: nat)
    requires Inv(s) && CanRun(s, steps) && steps != [] && steps[0] == Exofork(e, c)
    requires forall j :: 0 <= j < |steps| ==> steps[j] != SetRunnable(e)
    requires e in Run(s, steps).threads && Run(s, steps).threads[e].prog.Launch?
    requires v < USTACKTOP && v != PFTEMP
    ensures var s' := Run(s, steps);
            && (Key(c, v) in s'.pt <==> Key(e, v) in s'.pt)
            && (Key(c, v) in s'.pt ==> exists i :: 0 <= i <= |steps| && SawAt(s, steps, i, e, v, Sees(s', Key(c, v))))
  {
    hide Inv, Apply, Enabled, MemoryOf, CanRun, Run, Sees, SawAt;
    EveryPageWasTheParents(s, steps, |steps|, e, c, v);
    assert steps[..|steps|] == steps;
    AtLaunch(Run(s, steps), e, c, v);
  }
}
