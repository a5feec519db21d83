/**
 What copy-on-write fork leaves an environment able to do: the pages it can store
 into are those it could store into if fork had copied every page with its rights,
 and one fresh page is enough to make any such store.
 */
module CowRights {
  import Paging
  import opened CowFork

  // A store succeeds, at once or after pgfault.
  predicate MayStore(w: Paging.Word) {
    Paging.W in w.flags || Paging.COW in w.flags
  }

  type Rights = set<Key>

  // The eager machine with rights in place of contents: a copy gets the rights of what
  // it is a copy of, a new page all, and a received one what came with it.
  ghost function RightsAfter(s: Sys, r: Rights, step: Step): Rights
    requires Enabled(s, step)
  {
    if step.Receive? then
      if Paging.COW in step.perm then r + {Key(step.env, step.vpn)} else r - {Key(step.env, step.vpn)}
    else
      match Meanwhile(s, step)
      case Stutter => r
      case Store(_, _, _) => r
      case Copy(src, dst) => if src in r then r + {dst} else r - {dst}
      case Zero(k) => r + {k}
      case Drop(k) => r - {k}
      case DropAll(e) => set k | k in r && k.env != e
  }

  // Seen from the page tables, `r` is right about page `k`; of a page not yet copied
  // it says nothing.
  ghost predicate RightAt(s: Sys, r: Rights, k: Key) {
    k.vpn != PFTEMP && !Pending(s, k) ==> (k in r <==> k in s.pt && MayStore(s.pt[k]))
  }

  ghost predicate Agrees(s: Sys, r: Rights) {
    forall k :: RightAt(s, r, k)
  }

  // While duppage shares a page copy-on-write, both sides keep their right to it.
  ghost predicate DupOk(s: Sys, e: nat) {
    e in s.threads ==>
      var prog := s.threads[e].prog;
      && (prog.MapChild? || prog.MapSelf? ==> Key(e, prog.vpn) in s.pt && MayStore(s.pt[Key(e, prog.vpn)]))
      && (prog.MapSelf? ==> Key(prog.child, prog.vpn) in s.pt && MayStore(s.pt[Key(prog.child, prog.vpn)]))
  }

  ghost predicate DupsOk(s: Sys) {
    forall e :: DupOk(s, e)
  }

  lemma ForkStepKeepsDup(s: Sys, step: Step, x: nat)
    requires Inv(s) && DupsOk(s) && Enabled(s, step) && (IsForkStep(step) || IsDupStep(step))
    ensures DupOk(Apply(s, step), x)
  {
    hide Exclusive, FaultOk, CopiedAt;
    assert DupOk(s, x) && DupOk(s, step.env) && ThreadOk(s, step.env) && ThreadOk(s, x);
  }

  lemma OtherStepKeepsDup(s: Sys, step: Step, x: nat)
    requires Inv(s) && DupsOk(s) && Enabled(s, step) && !IsForkStep(step) && !IsDupStep(step)
    ensures DupOk(Apply(s, step), x)
  {
    hide Exclusive, CopiedAt;
    assert DupOk(s, x) && ThreadOk(s, step.env) && ThreadOk(s, x);
  }

  lemma StepKeepsDups(s: Sys, step: Step)
    requires Inv(s) && DupsOk(s) && Enabled(s, step)
    ensures DupsOk(Apply(s, step))
  {
    forall x ensures DupOk(Apply(s, step), x) {
      if IsForkStep(step) || IsDupStep(step) { ForkStepKeepsDup(s, step, x); } else { OtherStepKeepsDup(s, step, x); }
    }
  }

  lemma ForkStepKeepsRight(s: Sys, r: Rights, step: Step, k: Key)
    requires Inv(s) && DupsOk(s) && Agrees(s, r) && Enabled(s, step) && IsForkStep(step)
    ensures RightAt(Apply(s, step), RightsAfter(s, r, step), k)
  {
    hide Exclusive, FaultOk, CopiedAt;
    assert RightAt(s, r, k) && ThreadOk(s, step.env) && ThreadOk(s, k.env);
  }

  lemma DupKeepsRight(s: Sys, r: Rights, step: Step, k: Key)
    requires Inv(s) && DupsOk(s) && Agrees(s, r) && Enabled(s, step) && IsDupStep(step)
    ensures RightAt(Apply(s, step), RightsAfter(s, r, step), k)
  {
    hide Exclusive, FaultOk, CopiedAt;
    var e := step.env;
    assert DupOk(s, e) && ThreadOk(s, e) && ThreadOk(s, k.env);
    assert RightAt(s, r, k) && RightAt(s, r, Key(e, s.threads[e].prog.vpn));
  }

  lemma OtherStepKeepsRight(s: Sys, r: Rights, step: Step, k: Key)
    requires Inv(s) && DupsOk(s) && Agrees(s, r) && Enabled(s, step) && !IsForkStep(step) && !IsDupStep(step)
    ensures RightAt(Apply(s, step), RightsAfter(s, r, step), k)
  {
    hide Exclusive, CopiedAt;
    assert RightAt(s, r, k) && ThreadOk(s, step.env) && ThreadOk(s, k.env);
  }

  lemma StepKeepsRights(s: Sys, r: Rights, step: Step)
    requires Inv(s) && DupsOk(s) && Agrees(s, r) && Enabled(s, step)
    ensures Agrees(Apply(s, step), RightsAfter(s, r, step))
  {
    forall k ensures RightAt(Apply(s, step), RightsAfter(s, r, step), k) {
      if IsForkStep(step) { ForkStepKeepsRight(s, r, step, k); }
      else if IsDupStep(step) { DupKeepsRight(s, r, step, k); }
      else { OtherStepKeepsRight(s, r, step, k); }
    }
  }

  // ----- whole runs -----

  ghost function RightsRun(s: Sys, r: Rights, steps: seq<Step>): Rights
    requires CanRun(s, steps)
    decreases |steps|
  {
    if steps == [] then r else RightsRun(Apply(s, steps[0]), RightsAfter(s, r, steps[0]), steps[1..])
  }

  ghost function RightsOf(s: Sys): Rights {
    set k | k in s.pt && MayStore(s.pt[k])
  }

  lemma {:induction false} RunKeepsRights(s: Sys, r: Rights, steps: seq<Step>)
    requires Inv(s) && DupsOk(s) && Agrees(s, r) && CanRun(s, steps)
    ensures Inv(Run(s, steps)) && DupsOk(Run(s, steps)) && Agrees(Run(s, steps), RightsRun(s, r, steps))
    decreases |steps|
  {
    if steps != [] {
      StepKeepsInv(s, steps[0]);
      StepKeepsDups(s, steps[0]);
      StepKeepsRights(s, r, steps[0]);
      RunKeepsRights(Apply(s, steps[0]), RightsAfter(s, r, steps[0]), steps[1..]);
    }
  }

  // After any run a started environment can store, at once or through pgfault, into
  // just the pages it could store into if fork had copied each page with its rights.
  lemma CowForkKeepsRights(s: Sys, steps: seq<Step>, e: nat, v: nat)
    requires Init(s) && CanRun(s, steps) && v != PFTEMP && Started(Run(s, steps), e)
    ensures Key(e, v) in RightsRun(s, RightsOf(s), steps) <==>
              Key(e, v) in Run(s, steps).pt && MayStore(Run(s, steps).pt[Key(e, v)])
  {
    assert Inv(s);
    RunKeepsRights(s, RightsOf(s), steps);
    assert RightAt(Run(s, steps), RightsRun(s, RightsOf(s), steps), Key(e, v));
  }

  // ----- a right once had lasts -----

  // The environment gives page `v` up itself.
  predicate GivesUp(step: Step, e: nat, v: nat) {
    step.env == e && (step.Exit? || ((step.UserUnmap? || step.Receive?) && step.vpn == v))
  }

  ghost predicate HasRight(s: Sys, e: nat, v: nat) {
    Started(s, e) && Key(e, v) in s.pt && MayStore(s.pt[Key(e, v)])
  }

  lemma StepLeavesRight(s: Sys, step: Step, e: nat, v: nat)
    requires Inv(s) && Enabled(s, step) && HasRight(s, e, v) && v != PFTEMP && !GivesUp(step, e, v)
    ensures HasRight(Apply(s, step), e, v)
  {
    hide Exclusive, EntriesOk, CopiedAt;
    assert ThreadOk(s, step.env) && ThreadOk(s, e);
  }

  // A page that a started environment could once write it can write ever after, through
  // forks, faults and messages of anyone, until it unmaps the page, receives another in
  // its place or exits.
  lemma {:induction false} RightLasts(s: Sys, steps: seq<Step>, e: nat, v: nat)
    requires Inv(s) && CanRun(s, steps) && HasRight(s, e, v) && v != PFTEMP
    requires forall i :: 0 <= i < |steps| ==> !GivesUp(steps[i], e, v)
    ensures HasRight(Run(s, steps), e, v)
    decreases |steps|
  {
    if steps != [] {
      StepKeepsInv(s, steps[0]);
      StepLeavesRight(s, steps[0], e, v);
      RightLasts(Apply(s, steps[0]), steps[1..], e, v);
    }
  }

  // ----- a right can be used -----

  lemma Cons(s: Sys, step: Step, rest: seq<Step>)
    requires Enabled(s, step) && CanRun(Apply(s, step), rest)
    ensures CanRun(s, [step] + rest) && Run(s, [step] + rest) == Run(Apply(s, step), rest)
    ensures forall m ::
              EagerRun(s, m, [step] + rest) == EagerRun(Apply(s, step), EagerStep(m, Meanwhile(s, step)), rest)
  {
    assert ([step] + rest)[1..] == rest;
  }

  // The steps of one store of environment `e`: pgfault's and the store itself
  predicate OwnStore(steps: seq<Step>, e: nat) {
    forall i :: 0 <= i < |steps| ==> steps[i].env == e && IsFaultStep(steps[i])
  }

  // From here the steps make the store, and that is all the eager machine sees of them.
  ghost predicate Makes(s: Sys, steps: seq<Step>, e: nat, v: nat, off: nat, b: Byte) {
    && CanRun(s, steps) && OwnStore(steps, e)
    && forall m :: EagerRun(s, m, steps) == EagerStep(m, Store(Key(e, v), off, b))
  }

  lemma MakesOneMore(s: Sys, step: Step, rest: seq<Step>, e: nat, v: nat, off: nat, b: Byte)
    requires Enabled(s, step) && step.env == e && IsFaultStep(step) && !step.Write?
    requires Makes(Apply(s, step), rest, e, v, off, b)
    ensures Makes(s, [step] + rest, e, v, off, b)
  {
    Cons(s, step, rest);
  }

  lemma WriteMakes(s: Sys, e: nat, v: nat, off: nat, b: Byte)
    requires Enabled(s, Write(e, v, off, b))
    ensures Makes(s, [Write(e, v, off, b)], e, v, off, b)
  {
    Cons(s, Write(e, v, off, b), []);
  }

  // The copy is made and mapped: unmap PFTEMP and store.
  lemma FinishStore(s: Sys, e: nat, v: nat, off: nat, b: Byte) returns (steps: seq<Step>)
    requires Inv(s) && Started(s, e) && s.threads[e].fault == Mapped(v) && off < Paging.PGSIZE
    ensures Makes(s, steps, e, v, off, b)
  {
    assert ThreadOk(s, e) && EntryOk(s, Key(e, v));
    var s1 := Apply(s, FaultUnmap(e));
    WriteMakes(s1, e, v, off, b);
    MakesOneMore(s, FaultUnmap(e), [Write(e, v, off, b)], e, v, off, b);
    steps := [FaultUnmap(e)] + [Write(e, v, off, b)];
  }

  lemma {:induction false} CopyAndStore(s: Sys, e: nat, v: nat, off: nat, b: Byte) returns (steps: seq<Step>)
    requires Inv(s) && Started(s, e) && off < Paging.PGSIZE
    requires s.threads[e].fault.Copying? && s.threads[e].fault.vpn == v && s.threads[e].fault.done <= Paging.PGSIZE
    ensures Makes(s, steps, e, v, off, b)
    decreases Paging.PGSIZE - s.threads[e].fault.done
  {
    hide Makes;
    assert ThreadOk(s, e);
    var step := if s.threads[e].fault.done < Paging.PGSIZE then FaultCopy(e) else FaultMap(e);
    StepKeepsInv(s, step);
    var rest;
    if step.FaultCopy? { rest := CopyAndStore(Apply(s, step), e, v, off, b); }
    else { rest := FinishStore(Apply(s, step), e, v, off, b); }
    MakesOneMore(s, step, rest, e, v, off, b);
    steps := [step] + rest;
  }

  // An environment that may store into a page can do so, and a fresh page is all that
  // pgfault needs: whatever stores the eager machine can make, this one can.
  lemma StoreCanBeMade(s: Sys, e: nat, v: nat, off: nat, b: Byte, p: nat) returns (steps: seq<Step>)
    requires Inv(s) && Active(s, e) && HasRight(s, e, v) && v != PFTEMP && off < Paging.PGSIZE && FreshPage(s, p)
    ensures CanRun(s, steps) && OwnStore(steps, e)
    ensures forall m :: EagerRun(s, m, steps) == EagerStep(m, Store(Key(e, v), off, b))
    ensures Sees(Run(s, steps), Key(e, v)) == Sees(s, Key(e, v))[off := b]
  {
    assert EntryOk(s, Key(e, v));
    if Paging.W in s.pt[Key(e, v)].flags {
      WriteMakes(s, e, v, off, b);
      steps := [Write(e, v, off, b)];
    } else {
      StepKeepsInv(s, TakeFault(e, v));
      var s1 := Apply(s, TakeFault(e, v));
      StepKeepsInv(s1, FaultAlloc(e, p));
      var s2 := Apply(s1, FaultAlloc(e, p));
      var rest := CopyAndStore(s2, e, v, off, b);
      MakesOneMore(s1, FaultAlloc(e, p), rest, e, v, off, b);
      MakesOneMore(s, TakeFault(e, v), [FaultAlloc(e, p)] + rest, e, v, off, b);
      steps := [TakeFault(e, v)] + ([FaultAlloc(e, p)] + rest);
    }
    StoreIsSeen(s, steps, e, v, off, b);
  }

  lemma StoreIsSeen(s: Sys, steps: seq<Step>, e: nat, v: nat, off: nat, b: Byte)
    requires Inv(s) && Active(s, e) && HasRight(s, e, v) && v != PFTEMP && off < Paging.PGSIZE
    requires Makes(s, steps, e, v, off, b)
    ensures Sees(Run(s, steps), Key(e, v)) == Sees(s, Key(e, v))[off := b]
  {
    RightLasts(s, steps, e, v);
    MemoryRefines(s);
    RunRefines(s, MemoryOf(s), steps);
    var m := EagerStep(MemoryOf(s), Store(Key(e, v), off, b));
    assert EagerRun(s, MemoryOf(s), steps) == m;
    assert Key(e, v) in m;
  }
}
