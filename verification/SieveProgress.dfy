/**
 The prime sieve never comes to a stop: whatever state a run has led to, the
 processes can go on until every prime up to the largest int has been printed.
 */
module SieveProgress {
  import opened Sieve

  ghost predicate Leads(s: Sys, steps: seq<Step>, s': Sys) {
    CanRun(s, steps) && Run(s, steps) == s'
  }

  lemma {:induction false} Onwards(s: Sys, a: seq<Step>, s1: Sys, b: seq<Step>, s2: Sys)
    requires Leads(s, a, s1) && Leads(s1, b, s2)
    ensures Leads(s, a + b, s2)
    decreases |a|
  {
    if a == [] {
      assert a + b == b;
    } else {
      assert (a + b)[0] == a[0] && (a + b)[1..] == a[1..] + b;
      Onwards(Apply(s, a[0]), a[1..], s1, b, s2);
    }
  }

  // One step more; the invariant goes along.
  lemma Step1(s: Sys, steps: seq<Step>, s1: Sys, step: Step) returns (steps': seq<Step>, s2: Sys)
    requires Leads(s, steps, s1) && Inv(s1) && Enabled(s1, step)
    ensures s2 == Apply(s1, step) && Leads(s, steps', s2) && Inv(s2)
  {
    s2 := Apply(s1, step);
    assert [step][1..] == [];
    assert Leads(s2, [], s2) && Leads(s1, [step], s2);
    Onwards(s, steps, s1, [step], s2);
    steps' := steps + [step];
    StepKeepsInv(s1, step);
  }

  // From process `k` on, everybody waits for a number.
  predicate QuietFrom(s: Sys, k: nat) {
    forall j :: k <= j < |s.stages| ==> Waiting(s, j)
  }

  // The generator and the processes before number `k` are where they were.
  predicate SameBefore(s: Sys, s': Sys, k: nat) {
    s'.i == s.i && k <= |s.stages| <= |s'.stages| && forall j :: 0 <= j < k ==> s'.stages[j] == s.stages[j]
  }

  function Rank(pc: Pc): nat {
    match pc
    case Test(_) => 2
    case Print(_) => 2
    case _ => 1
  }

  lemma Divides(s: Sys, k: nat)
    requires Inv(s) && k < |s.stages| && s.stages[k].pc.Test?
    ensures Enabled(s, Process(k))
  {
    assert StageOk(s, k) && FlowOk(s, k);
  }

  lemma RightIsNext(s: Sys, k: nat)
    requires Inv(s) && k < |s.stages|
    ensures s.stages[k].pc.Send? ==> s.stages[k].id == k + 1 < |s.stages|
    ensures s.stages[k].pc.Start? || s.stages[k].pc.Print? || s.stages[k].pc.Fork? ==> k == |s.stages| - 1
  {
    assert StageOk(s, k);
  }

  lemma Nowhere(s: Sys)
    ensures Leads(s, [], s)
  {
  }

  lemma QuietStays(s: Sys, s': Sys, k: nat)
    requires QuietFrom(s, k) && |s'.stages| == |s.stages|
    requires forall j :: k <= j < |s.stages| ==> s'.stages[j] == s.stages[j]
    ensures QuietFrom(s', k)
  {
    forall j | k <= j < |s'.stages| ensures Waiting(s', j) { assert Waiting(s, j); }
  }

  // A new process is born, and the parent and it go and wait.
  lemma Forks(s: Sys, k: nat) returns (steps: seq<Step>, s': Sys)
    requires Inv(s) && k < |s.stages| && s.stages[k].pc.Fork?
    ensures Leads(s, steps, s') && Inv(s') && QuietFrom(s', k) && SameBefore(s, s', k)
  {
    hide Inv, CanRun, Run;
    RightIsNext(s, k);
    Nowhere(s);
    steps, s' := Step1(s, [], s, Process(k));
    steps, s' := Step1(s, steps, s', Process(k));
    steps, s' := Step1(s, steps, s', Process(k + 1));
  }

  // What process `k` has in hand can always go to the right, all the way, once those
  // to the right wait.
  lemma {:induction false} Push(s: Sys, k: nat) returns (steps: seq<Step>, s': Sys)
    requires Inv(s) && k < |s.stages| && QuietFrom(s, k + 1)
    ensures Leads(s, steps, s') && Inv(s') && QuietFrom(s', k) && SameBefore(s, s', k)
    decreases |s.stages| - k, Rank(s.stages[k].pc)
  {
    hide Inv, CanRun, Run;
    RightIsNext(s, k);
    if Waiting(s, k) {
      steps, s' := [], s;
      Nowhere(s);
    } else if s.stages[k].pc.Fork? {
      steps, s' := Forks(s, k);
    } else if s.stages[k].pc.Send? {
      steps, s' := PushSend(s, k);
    } else {
      if s.stages[k].pc.Test? { Divides(s, k); }
      Nowhere(s);
      var a, s1 := Step1(s, [], s, Process(k));
      QuietStays(s, s1, k + 1);
      if s1.stages[k].pc.StartWait? || s1.stages[k].pc.LoopWait? {
        steps, s' := a, s1;
      } else {
        var b;
        b, s' := Push(s1, k);
        Onwards(s, a, s1, b, s');
        steps := a + b;
      }
    }
  }

  lemma PushSend(s: Sys, k: nat) returns (steps: seq<Step>, s': Sys)
    requires Inv(s) && k < |s.stages| && QuietFrom(s, k + 1) && s.stages[k].pc.Send?
    ensures Leads(s, steps, s') && Inv(s') && QuietFrom(s', k) && SameBefore(s, s', k)
    decreases |s.stages| - k, 0
  {
    hide Inv, CanRun, Run;
    RightIsNext(s, k);
    Nowhere(s);
    assert Waiting(s, k + 1);
    var a, s1 := Step1(s, [], s, Process(k));
    QuietStays(s, s1, k + 2);
    var b, s2 := Push(s1, k + 1);
    Onwards(s, a, s1, b, s2);
    assert s2.stages[k] == s1.stages[k];
    steps, s' := Step1(s, a + b, s2, Process(k));
    QuietStays(s2, s', k + 1);
  }

  // So everybody from number `k` on can be brought to wait.
  lemma {:induction false} Quieten(s: Sys, k: nat) returns (steps: seq<Step>, s': Sys)
    requires Inv(s) && k <= |s.stages|
    ensures Leads(s, steps, s') && Inv(s') && QuietFrom(s', k) && SameBefore(s, s', k)
    decreases |s.stages| - k
  {
    hide Inv, CanRun, Run;
    if k == |s.stages| {
      steps, s' := [], s;
      Nowhere(s);
    } else {
      var a, s1 := Quieten(s, k + 1);
      var b;
      b, s' := Push(s1, k);
      Onwards(s, a, s1, b, s');
      steps := a + b;
    }
  }

  // The generator gets rid of its number.
  lemma SendNext(s: Sys) returns (steps: seq<Step>, s': Sys)
    requires Inv(s) && s.i < INT_MAX
    ensures Leads(s, steps, s') && Inv(s') && s'.i == s.i + 1
  {
    hide Inv, CanRun, Run;
    Nowhere(s);
    var a, s1 := [], s;
    if s.stages == [] { a, s1 := Step1(s, [], s, Generator); }
    var b, s2 := Quieten(s1, 0);
    Onwards(s, a, s1, b, s2);
    assert Waiting(s2, 0);
    steps, s' := Step1(s, a + b, s2, Generator);
  }

  lemma {:induction false} CountUp(s: Sys, b: int) returns (steps: seq<Step>, s': Sys)
    requires Inv(s) && s.i <= b <= INT_MAX
    ensures Leads(s, steps, s') && Inv(s') && s'.i == b && QuietFrom(s', 0)
    decreases b - s.i
  {
    hide Inv, CanRun, Run;
    if s.i == b {
      steps, s' := Quieten(s, 0);
    } else {
      var a, s1 := SendNext(s);
      var c;
      c, s' := CountUp(s1, b);
      Onwards(s, a, s1, c, s');
      steps := a + c;
    }
  }

  // ----- when everybody waits, nothing is on its way -----

  lemma {:induction false} ReceivedAll(s: Sys, k: nat)
    requires Inv(s) && QuietFrom(s, 0) && k < |s.stages|
    ensures s.stages[k].got == Survivors(PrimesOf(s, k), s.i)
  {
    hide Survivor, Filter;
    if k > 0 {
      ReceivedAll(s, k - 1);
      assert FlowOk(s, k - 1) && StageOk(s, k - 1) && Waiting(s, k - 1);
      FilterSurvivors(PrimesOf(s, k - 1), s.i, s.stages[k - 1].p);
    }
  }

  lemma NoneLeft(b: int, c: int)
    requires 2 <= b <= c && Survivors(PrimesBelow(b), c) == []
    ensures PrimesBelow(c) == PrimesBelow(b)
  {
    hide IsPrime, Survivors, Survivor;
    var ps := PrimesBelow(b);
    PrimesBelowMember(b);
    SurvivorsMember(ps, c);
    forall q | b <= q < c ensures !IsPrime(q) {
      assert q !in Survivors(ps, c);
      if IsPrime(q) { PrimeSurvives(ps, b, q); }
    }
    NoPrimesBetween(b, c);
  }

  lemma LastHasNothing(s: Sys)
    requires Inv(s) && QuietFrom(s, 0) && s.stages != []
    ensures s.stages[|s.stages| - 1].got == [] && |s.printed| == |s.stages| - 1
    ensures forall j :: 0 <= j < |s.stages| - 1 ==> Printing(s, j)
  {
    var n := |s.stages| - 1;
    assert StageOk(s, n) && Waiting(s, n);
    forall j | 0 <= j < n ensures Printing(s, j) {
      assert StageOk(s, j) && Waiting(s, j);
    }
    assert !Printing(s, n) && (n > 0 ==> Printing(s, n - 1));
  }

  lemma PrintedBelow(s: Sys, k: nat)
    requires Inv(s) && k < |s.stages| && Printing(s, k)
    ensures s.stages[k].p < s.i
  {
    hide Survivor, FlowOk, PrimesOf;
    ReceivedSoFar(s, k);
    SurvivorsMember(PrimesOf(s, k), s.i);
    assert StageOk(s, k);
    assert s.stages[k].got[0] in Survivors(PrimesOf(s, k), s.i);
  }

  lemma AllPrinted(s: Sys)
    requires Inv(s) && QuietFrom(s, 0)
    ensures s.printed == PrimesBelow(s.i)
  {
    hide Survivor, IsPrime, FlowOk, Survivors, PrimesOf, StageOk;
    if s.stages == [] {
      NoneBelowTwo();
    } else {
      var n := |s.stages| - 1;
      LastHasNothing(s);
      var b := ChainHoldsPrimes(s, n);
      PrintedArePrimesOf(s, n);
      assert s.printed[..n] == s.printed;
      ReceivedAll(s, n);
      if n > 0 { PrintedBelow(s, n - 1); }
      NoneLeft(b, s.i);
    }
  }

  /**
   Whatever has happened, the run can be continued until exactly the primes below
   `b` have been printed, for every `b` the generator has not passed: no send or
   receive is ever stuck.
   */
  lemma EveryPrimeCanCome(steps: seq<Step>, b: int) returns (more: seq<Step>)
    requires CanRun(INIT, steps) && Run(INIT, steps).i <= b <= INT_MAX
    ensures CanRun(INIT, steps + more) && Run(INIT, steps + more).printed == PrimesBelow(b)
  {
    hide Inv;
    InitOk();
    RunKeepsInv(INIT, steps);
    var s := Run(INIT, steps);
    var s';
    more, s' := CountUp(s, b);
    Onwards(INIT, steps, s, more, s');
    AllPrinted(s');
  }
}
