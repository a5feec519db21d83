/**
 The concurrent prime sieve (`user/primes.c`) over the IPC rendezvous
 (`lib/ipc.c`): a generator and a growing chain of filtering processes, one step
 of one process at a time. fork is assumed to succeed.
 */
module Sieve {
  const INT_MAX: int := 0x7FFF_FFFF

  datatype Pc =
    | Start            // top: before ipc_recv of its prime
    | StartWait        // blocked in it
    | Print(v: int)    // it returned v
    | Fork             // before fork
    | Loop             // before ipc_recv of the next number
    | LoopWait         // blocked in it
    | Test(i: int)     // it returned i
    | Send(i: int)     // in ipc_send to the right neighbour

  // `id` is the right neighbour; `got` all values received so far, in order.
  datatype Stage = Stage(pc: Pc, p: int, id: nat, got: seq<int>)

  // `i` is the number the generator is sending, once it has forked.
  datatype Sys = Sys(i: int, stages: seq<Stage>, printed: seq<int>)

  datatype Step = Generator | Process(k: nat)

  predicate Waiting(s: Sys, k: nat) {
    k < |s.stages| && (s.stages[k].pc.StartWait? || s.stages[k].pc.LoopWait?)
  }

  // A process that is not blocked can go on; the generator until int overflows.
  predicate Enabled(s: Sys, step: Step) {
    match step
    case Generator => s.i < INT_MAX
    case Process(k) => k < |s.stages| && !Waiting(s, k) && (s.stages[k].pc.Test? ==> s.stages[k].p != 0)
  }

  // sys_ipc_try_send to a process blocked in sys_ipc_recv
  function Deliver(s: Sys, k: nat, v: int): Sys
    requires Waiting(s, k)
  {
    var st := s.stages[k];
    s.(stages := s.stages[k := st.(pc := if st.pc.StartWait? then Print(v) else Test(v), got := st.got + [v])])
  }

  function SetPc(s: Sys, k: nat, pc: Pc): Sys
    requires k < |s.stages|
  {
    s.(stages := s.stages[k := s.stages[k].(pc := pc)])
  }

  const NEWBORN: Stage := Stage(Start, 0, 0, [])

  function Apply(s: Sys, step: Step): Sys
    requires Enabled(s, step)
  {
    match step
    case Generator =>
      if s.stages == [] then s.(stages := [NEWBORN])
      else if Waiting(s, 0) then Deliver(s, 0, s.i).(i := s.i + 1)
      else s
    case Process(k) =>
      var st := s.stages[k];
      match st.pc
      case Start => SetPc(s, k, StartWait)
      case Print(v) => s.(stages := s.stages[k := st.(pc := Fork, p := v)], printed := s.printed + [v])
      case Fork => s.(stages := s.stages[k := st.(pc := Loop, id := |s.stages|)] + [NEWBORN])
      case Loop => SetPc(s, k, LoopWait)
      case Test(i) => SetPc(s, k, if i % st.p != 0 then Send(i) else Loop)
      case Send(i) => if Waiting(s, st.id) then SetPc(Deliver(s, st.id, i), k, Loop) else s
      case _ => s
  }

  const INIT: Sys := Sys(2, [], [])

  predicate CanRun(s: Sys, steps: seq<Step>)
    decreases |steps|
  {
    steps == [] || (Enabled(s, steps[0]) && CanRun(Apply(s, steps[0]), steps[1..]))
  }

  function Run(s: Sys, steps: seq<Step>): Sys
    requires CanRun(s, steps)
    decreases |steps|
  {
    if steps == [] then s else Run(Apply(s, steps[0]), steps[1..])
  }

  // ----- what flows down the chain -----

  // The members of `xs` that `p` does not divide
  function Filter(xs: seq<int>, p: int): seq<int>
    requires p != 0
  {
    if xs == [] then []
    else
      var x := xs[|xs| - 1];
      Filter(xs[..|xs| - 1], p) + if x % p != 0 then [x] else []
  }

  predicate Survivor(ps: seq<int>, n: int) {
    n >= 2 && forall p :: p in ps && p >= 2 ==> n % p != 0
  }

  // The integers from 2 up to `b` (exclusive) that no member of `ps` divides
  function Survivors(ps: seq<int>, b: int): seq<int> {
    if b <= 2 then [] else Survivors(ps, b - 1) + if Survivor(ps, b - 1) then [b - 1] else []
  }

  // Received and still on its way to the right neighbour
  function Pending(st: Stage): seq<int> {
    match st.pc
    case Test(i) => if st.p != 0 && i % st.p != 0 then [i] else []
    case Send(i) => [i]
    case _ => []
  }

  predicate IsLast(s: Sys, k: nat) {
    k == |s.stages| - 1
  }

  predicate StageOk(s: Sys, k: nat)
    requires k < |s.stages|
  {
    var st := s.stages[k];
    && (forall j :: 0 <= j < |st.got| ==> st.got[j] >= 2)
    && match st.pc
       case Start => IsLast(s, k) && st.got == []
       case StartWait => IsLast(s, k) && st.got == []
       case Print(v) => IsLast(s, k) && st.got == [v]
       case Fork => IsLast(s, k) && st.got == [st.p]
       case Test(i) => Forked(s, k) && i >= 2
       case Send(i) => Forked(s, k) && i >= 2
       case _ => Forked(s, k)
  }

  predicate Forked(s: Sys, k: nat)
    requires k < |s.stages|
  {
    var st := s.stages[k];
    st.id == k + 1 < |s.stages| && st.got != [] && st.got[0] == st.p
  }

  // What a process has received after its prime, filtered, is what its right
  // neighbour has received, but for what is on its way.
  predicate FlowOk(s: Sys, k: nat)
    requires k + 1 < |s.stages|
  {
    var st := s.stages[k];
    st.got != [] && st.p != 0 && Filter(st.got[1..], st.p) == s.stages[k + 1].got + Pending(st)
  }

  predicate Printing(s: Sys, k: nat)
    requires k < |s.stages|
  {
    !s.stages[k].pc.Start? && !s.stages[k].pc.StartWait? && !s.stages[k].pc.Print?
  }

  predicate PrintedOk(s: Sys) {
    && |s.printed| <= |s.stages|
    && forall k :: 0 <= k < |s.stages| ==>
         (Printing(s, k) <==> k < |s.printed|) && (k < |s.printed| ==> s.printed[k] == s.stages[k].p)
  }

  predicate Inv(s: Sys) {
    && s.i >= 2
    && (forall k :: 0 <= k < |s.stages| ==> StageOk(s, k))
    && (if s.stages == [] then s.i == 2 else s.stages[0].got == Survivors([], s.i))
    && (forall k :: 0 <= k < |s.stages| - 1 ==> FlowOk(s, k))
    && PrintedOk(s)
  }

  // ----- every step keeps it -----

  lemma FilterSnoc(got: seq<int>, v: int, p: int)
    requires got != [] && p != 0
    ensures Filter((got + [v])[1..], p) == Filter(got[1..], p) + if v % p != 0 then [v] else []
  {
    assert (got + [v])[1..] == got[1..] + [v];
    assert (got[1..] + [v])[..|got| - 1] == got[1..];
  }

  // Delivery of `v` to process `k`
  lemma DeliverKeeps(s: Sys, k: nat, v: int)
    requires Waiting(s, k) && v >= 2 && (forall j :: 0 <= j < |s.stages| ==> StageOk(s, j))
    ensures var s' := Deliver(s, k, v);
            && (forall j :: 0 <= j < |s.stages| ==> StageOk(s', j))
            && (PrintedOk(s) ==> PrintedOk(s'))
  {
    var s' := Deliver(s, k, v);
    forall j | 0 <= j < |s.stages| ensures StageOk(s', j) {
      assert StageOk(s, j) && StageOk(s, k);
    }
  }

  // ... which only the flow into it feels
  lemma DeliverFlow(s: Sys, k: nat, v: int, j: nat)
    requires Waiting(s, k) && v >= 2 && StageOk(s, k) && j + 1 < |s.stages| && j + 1 != k && FlowOk(s, j)
    ensures FlowOk(Deliver(s, k, v), j)
  {
    hide Filter;
    if j == k { FilterSnoc(s.stages[k].got, v, s.stages[k].p); }
  }

  lemma SurvivorsOfNone(b: int)
    requires b >= 2
    ensures Survivors([], b + 1) == Survivors([], b) + [b]
  {
  }

  // Only the bound on what the first process received speaks of the generator.
  lemma BumpKeepsInv(s: Sys, i: int)
    requires i >= 2 && s.stages != [] && s.stages[0].got == Survivors([], i) && PrintedOk(s)
    requires forall k :: 0 <= k < |s.stages| ==> StageOk(s, k)
    requires forall k :: 0 <= k < |s.stages| - 1 ==> FlowOk(s, k)
    ensures Inv(s.(i := i))
  {
    hide Filter, Survivors;
    var s' := s.(i := i);
    forall k | 0 <= k < |s'.stages| ensures StageOk(s', k) { assert StageOk(s, k); }
    forall k | 0 <= k < |s'.stages| - 1 ensures FlowOk(s', k) { assert FlowOk(s, k); }
  }

  lemma FirstForkKeepsInv(s: Sys)
    requires Inv(s) && s.stages == []
    ensures Inv(s.(stages := [NEWBORN]))
  {
    hide Filter, Survivor;
    assert Survivors([], s.i) == [];
  }

  lemma FirstSendKeepsInv(s: Sys)
    requires Inv(s) && Waiting(s, 0)
    ensures Inv(Deliver(s, 0, s.i).(i := s.i + 1))
  {
    SurvivorsOfNone(s.i);
    DeliverKeeps(s, 0, s.i);
    hide Survivors, Filter, StageOk, FlowOk, PrintedOk;
    var s1 := Deliver(s, 0, s.i);
    forall k | 0 <= k < |s1.stages| - 1 ensures FlowOk(s1, k) {
      DeliverFlow(s, 0, s.i, k);
    }
    BumpKeepsInv(s1, s.i + 1);
  }

  lemma GeneratorKeepsInv(s: Sys)
    requires Inv(s) && Enabled(s, Generator)
    ensures Inv(Apply(s, Generator))
  {
    hide Inv;
    if s.stages == [] { FirstForkKeepsInv(s); }
    else if Waiting(s, 0) { FirstSendKeepsInv(s); }
  }

  // The sender lets go of the number as its neighbour gets it.
  lemma SendFlow(s: Sys, k: nat, j: nat)
    requires Waiting(s, k + 1) && s.stages[k].pc.Send? && s.stages[k].pc.i >= 2 && StageOk(s, k + 1)
    requires j + 1 < |s.stages| && FlowOk(s, j)
    ensures FlowOk(SetPc(Deliver(s, k + 1, s.stages[k].pc.i), k, Loop), j)
  {
    hide Filter;
    if j != k { DeliverFlow(s, k + 1, s.stages[k].pc.i, j); }
  }

  lemma SendKeepsInv(s: Sys, k: nat)
    requires Inv(s) && Enabled(s, Process(k)) && s.stages[k].pc.Send?
    ensures Inv(Apply(s, Process(k)))
  {
    hide Filter, Survivors;
    var st, s' := s.stages[k], Apply(s, Process(k));
    assert StageOk(s, k) && FlowOk(s, k);
    if Waiting(s, k + 1) {
      var s1 := Deliver(s, k + 1, st.pc.i);
      DeliverKeeps(s, k + 1, st.pc.i);
      forall j | 0 <= j < |s'.stages| ensures StageOk(s', j) { assert StageOk(s1, j); }
      forall j | 0 <= j < |s'.stages| - 1 ensures FlowOk(s', j) {
        assert FlowOk(s, j);
        SendFlow(s, k, j);
      }
    }
  }

  lemma OwnStepKeepsInv(s: Sys, k: nat)
    requires Inv(s) && Enabled(s, Process(k)) && !s.stages[k].pc.Send? && !s.stages[k].pc.Fork?
    ensures Inv(Apply(s, Process(k)))
  {
    var s' := Apply(s, Process(k));
    assert StageOk(s, k);
    assert s.stages[k].pc.Print? ==> |s.printed| == k by {
      if k > 0 { assert StageOk(s, k - 1) && Printing(s, k - 1); }
      if s.stages[k].pc.Print? { assert !Printing(s, k); }
    }
    forall j | 0 <= j < |s'.stages| ensures StageOk(s', j) { assert StageOk(s, j); }
    forall j | 0 <= j < |s'.stages| - 1 ensures FlowOk(s', j) { assert FlowOk(s, j); }
  }

  lemma ForkKeepsInv(s: Sys, k: nat)
    requires Inv(s) && Enabled(s, Process(k)) && s.stages[k].pc.Fork?
    ensures Inv(Apply(s, Process(k)))
  {
    hide Survivors;
    var s' := Apply(s, Process(k));
    assert StageOk(s, k);
    forall j | 0 <= j < |s'.stages| ensures StageOk(s', j) { if j < |s.stages| { assert StageOk(s, j); } }
    forall j | 0 <= j < |s'.stages| - 1 ensures FlowOk(s', j) {
      if j < k {
        assert FlowOk(s, j);
      } else {
        assert s'.stages[j].got == s.stages[k].got && s'.stages[j + 1] == NEWBORN;
        assert s.stages[k].got[0] >= 2;
        assert s'.stages[j].got[1..] == [] && Filter([], s.stages[k].p) == [];
      }
    }
  }

  lemma StepKeepsInv(s: Sys, step: Step)
    requires Inv(s) && Enabled(s, step)
    ensures Inv(Apply(s, step))
  {
    match step
    case Generator => GeneratorKeepsInv(s);
    case Process(k) =>
      if s.stages[k].pc.Send? { SendKeepsInv(s, k); }
      else if s.stages[k].pc.Fork? { ForkKeepsInv(s, k); }
      else { OwnStepKeepsInv(s, k); }
  }

  lemma {:induction false} RunKeepsInv(s: Sys, steps: seq<Step>)
    requires Inv(s) && CanRun(s, steps)
    ensures Inv(Run(s, steps))
    decreases |steps|
  {
    if steps != [] {
      StepKeepsInv(s, steps[0]);
      RunKeepsInv(Apply(s, steps[0]), steps[1..]);
    }
  }

  // ----- prefixes of the survivors -----

  lemma {:induction false} SurvivorsMember(ps: seq<int>, b: int)
    ensures forall n :: n in Survivors(ps, b) <==> 2 <= n < b && Survivor(ps, n)
    decreases b
  {
    hide Survivor;
    if b > 2 {
      SurvivorsMember(ps, b - 1);
    }
  }

  lemma {:induction false} SurvivorsSorted(ps: seq<int>, b: int)
    ensures forall i, j :: 0 <= i < j < |Survivors(ps, b)| ==> Survivors(ps, b)[i] < Survivors(ps, b)[j]
    decreases b
  {
    hide Survivor;
    if b > 2 {
      SurvivorsSorted(ps, b - 1);
      SurvivorsMember(ps, b - 1);
      var front := Survivors(ps, b - 1);
      assert forall i :: 0 <= i < |front| ==> front[i] in front;
    }
  }

  lemma SurvivorPlus(ps: seq<int>, h: int, n: int)
    requires h >= 2
    ensures Survivor(ps + [h], n) <==> Survivor(ps, n) && n % h != 0
  {
    if Survivor(ps + [h], n) {
      assert h in ps + [h];
      forall p | p in ps && p >= 2 ensures n % p != 0 { assert p in ps + [h]; }
    }
  }

  lemma FilterStep(ps: seq<int>, b: int, h: int)
    requires b > 2 && h >= 2 && Survivors(ps, b - 1) != []
    requires Filter(Survivors(ps, b - 1)[1..], h) == Survivors(ps + [h], b - 1)
    ensures Filter(Survivors(ps, b)[1..], h) == Survivors(ps + [h], b)
  {
    hide Survivor, Filter;
    var front := Survivors(ps, b - 1);
    SurvivorPlus(ps, h, b - 1);
    if Survivor(ps, b - 1) {
      FilterSnoc(front, b - 1, h);
      assert Survivors(ps, b) == front + [b - 1];
    } else {
      assert Survivors(ps, b) == front && Survivors(ps + [h], b) == Survivors(ps + [h], b - 1);
    }
  }

  // Filtering the survivors by the first of them leaves those of one prime more.
  lemma {:induction false} FilterSurvivors(ps: seq<int>, b: int, h: int)
    requires Survivors(ps, b) != [] && Survivors(ps, b)[0] == h
    ensures h >= 2 && Filter(Survivors(ps, b)[1..], h) == Survivors(ps + [h], b)
    decreases b
  {
    hide Survivor;
    if Survivors(ps, b - 1) == [] {
      assert b - 1 == h;
      NothingBelow(ps, h, b - 1);
      SurvivorPlus(ps, h, h);
      assert Survivors(ps, b)[1..] == [];
    } else {
      FilterSurvivors(ps, b - 1, h);
      FilterStep(ps, b, h);
    }
  }

  lemma {:induction false} NothingBelow(ps: seq<int>, h: int, b: int)
    requires Survivors(ps, b) == []
    ensures Survivors(ps + [h], b) == []
  {
    if b > 2 {
      assert Survivors(ps, b - 1) == [];
      NothingBelow(ps, h, b - 1);
      assert Survivor(ps + [h], b - 1) ==> Survivor(ps, b - 1) by {
        assert forall p :: p in ps ==> p in ps + [h];
      }
    }
  }

  lemma {:induction false} FilterPrefix(xs: seq<int>, ys: seq<int>, p: int)
    requires xs <= ys && p != 0
    ensures Filter(xs, p) <= Filter(ys, p)
    decreases |ys|
  {
    if xs == ys {
    } else {
      assert xs <= ys[..|ys| - 1];
      FilterPrefix(xs, ys[..|ys| - 1], p);
    }
  }

  // The primes of the processes before number `k`
  function PrimesOf(s: Sys, k: nat): seq<int>
    requires k <= |s.stages|
  {
    if k == 0 then [] else PrimesOf(s, k - 1) + [s.stages[k - 1].p]
  }

  // What process `k` has received is a prefix of the integers from 2 up that none
  // of the primes before it divides.
  lemma {:induction false} ReceivedSoFar(s: Sys, k: nat)
    requires Inv(s) && k < |s.stages|
    ensures s.stages[k].got <= Survivors(PrimesOf(s, k), s.i)
    decreases k
  {
    if k == 0 {
    } else {
      ReceivedSoFar(s, k - 1);
      var st, ps := s.stages[k - 1], PrimesOf(s, k - 1);
      assert FlowOk(s, k - 1) && StageOk(s, k - 1);
      var all := Survivors(ps, s.i);
      FilterPrefix(st.got[1..], all[1..], st.p);
      FilterSurvivors(ps, s.i, st.p);
    }
  }

  // ----- ... are the primes in order -----

  predicate IsPrime(n: int) {
    n >= 2 && forall d :: 2 <= d < n ==> n % d != 0
  }

  function PrimesBelow(b: int): seq<int> {
    if b <= 2 then [] else PrimesBelow(b - 1) + if IsPrime(b - 1) then [b - 1] else []
  }

  lemma {:induction false} PrimesBelowMember(b: int)
    ensures forall n :: n in PrimesBelow(b) <==> n < b && IsPrime(n)
  {
    if b > 2 { PrimesBelowMember(b - 1); }
  }

  lemma DivisorOfDivisor(n: int, d: int, e: int)
    requires d > 0 && e > 0 && n % d == 0 && d % e == 0
    ensures n % e == 0
  {
    var q, r := n / d, d / e;
    assert n == q * (r * e) == (q * r) * e;
    MultipleMod(q * r, e);
  }

  lemma MultipleMod(q: int, e: int)
    requires e > 0
    ensures (q * e) % e == 0
  {
    var m := q * e;
    var k, r := q - m / e, m % e;
    assert e * k == r;
    Multiples(e, k);
  }

  lemma Multiples(e: int, k: int)
    requires e > 0
    ensures k >= 1 ==> e * k >= e
    ensures k <= -1 ==> e * k <= -e
  {
  }

  lemma LeastDivisorIsPrime(n: int, d: int)
    requires 2 <= d <= n && n % d == 0 && forall e :: 2 <= e < d ==> n % e != 0
    ensures IsPrime(d)
  {
    forall e | 2 <= e < d ensures d % e != 0 {
      if d % e == 0 { DivisorOfDivisor(n, d, e); }
    }
  }

  // The least divisor of `n` from `d` up is prime when none below `d` divides it.
  lemma {:induction false} PrimeDivisor(n: int, d: int) returns (p: int)
    requires 2 <= d <= n && forall e :: 2 <= e < d ==> n % e != 0
    ensures IsPrime(p) && d <= p <= n && n % p == 0
    decreases n - d
  {
    hide IsPrime;
    if n % d == 0 {
      p := d;
      LeastDivisorIsPrime(n, d);
    } else {
      p := PrimeDivisor(n, d + 1);
    }
  }

  // Past the primes below `b`, the numbers none of them divides begin with the
  // next prime.
  lemma FirstSurvivorIsNextPrime(b: int, c: int)
    requires b >= 2 && Survivors(PrimesBelow(b), c) != []
    ensures var h := Survivors(PrimesBelow(b), c)[0]; IsPrime(h) && h >= b && PrimesBelow(h + 1) == PrimesBelow(b) + [h]
  {
    hide IsPrime, Survivors;
    var ps := PrimesBelow(b);
    PrimesBelowMember(b);
    SurvivorsMember(ps, c);
    SurvivorsSorted(ps, c);
    var h := Survivors(ps, c)[0];
    assert h in Survivors(ps, c);
    var p := PrimeDivisor(h, 2);
    assert p !in ps && p >= 2 by { SurvivorAvoids(ps, h, p); }
    PrimeSurvives(ps, b, p);
    assert p in Survivors(ps, c);
    assert p == h;
    forall q | b <= q < h ensures !IsPrime(q) {
      if IsPrime(q) { PrimeSurvives(ps, b, q); }
    }
    NoPrimesBetween(b, h);
  }

  lemma SurvivorAvoids(ps: seq<int>, h: int, p: int)
    requires Survivor(ps, h) && IsPrime(p) && h % p == 0
    ensures p !in ps && p >= 2
  {
  }

  lemma PrimeSurvives(ps: seq<int>, b: int, q: int)
    requires (forall n :: n in ps <==> n < b && IsPrime(n)) && IsPrime(q) && q >= b
    ensures Survivor(ps, q)
  {
  }

  lemma {:induction false} NoPrimesBetween(b: int, h: int)
    requires 2 <= b <= h && forall q :: b <= q < h ==> !IsPrime(q)
    ensures PrimesBelow(h) == PrimesBelow(b)
    decreases h
  {
    if b < h { NoPrimesBetween(b, h - 1); }
  }

  lemma NoneBelowTwo()
    ensures PrimesBelow(2) == []
  {
  }

  // The primes the first `k` processes hold are all the primes up to the last one.
  lemma {:induction false} ChainHoldsPrimes(s: Sys, k: nat) returns (b: int)
    requires Inv(s) && k <= |s.stages| && (forall j :: 0 <= j < k ==> Printing(s, j))
    ensures b == (if k == 0 then 2 else s.stages[k - 1].p + 1) && b >= 2 && PrimesOf(s, k) == PrimesBelow(b)
  {
    hide Survivor, IsPrime, FlowOk, PrimesBelow;
    if k == 0 {
      b := 2;
      assert PrimesBelow(2) == [] by { NoneBelowTwo(); }
    } else {
      var c := ChainHoldsPrimes(s, k - 1);
      ReceivedSoFar(s, k - 1);
      assert StageOk(s, k - 1) && Printing(s, k - 1);
      FirstSurvivorIsNextPrime(c, s.i);
      b := s.stages[k - 1].p + 1;
    }
  }

  lemma {:induction false} PrintedArePrimesOf(s: Sys, k: nat)
    requires Inv(s) && k <= |s.printed|
    ensures k <= |s.stages| && s.printed[..k] == PrimesOf(s, k)
  {
    if k > 0 {
      PrintedArePrimesOf(s, k - 1);
      assert s.printed[..k] == s.printed[..k - 1] + [s.printed[k - 1]];
    }
  }

  lemma InitOk()
    ensures Inv(INIT)
  {
  }

  // What process `k` has received, in terms of what was printed before it
  predicate ReceivedOk(s: Sys, k: nat)
    requires k < |s.stages|
  {
    && k <= |s.printed| && s.stages[k].got <= Survivors(s.printed[..k], s.i)
    && (s.stages[k].pc.Test? ==> s.stages[k].p != 0)
  }

  lemma ReceivedIsOk(s: Sys, k: nat)
    requires Inv(s) && k < |s.stages|
    ensures ReceivedOk(s, k)
  {
    hide Survivor, FlowOk, PrimesOf, Survivors;
    assert StageOk(s, k);
    if k > 0 { assert StageOk(s, k - 1) && Printing(s, k - 1); }
    PrintedArePrimesOf(s, k);
    ReceivedSoFar(s, k);
  }

  /**
   However the processes are interleaved, what has been printed is the primes in
   order, each once; process number k has received a prefix of the integers from 2
   up that the first k primes do not divide; and no process divides by zero.
   */
  lemma SievePrintsPrimes(steps: seq<Step>)
    requires CanRun(INIT, steps)
    ensures var s := Run(INIT, steps);
            && (exists b :: s.printed == PrimesBelow(b))
            && (forall k :: 0 <= k < |s.stages| ==> ReceivedOk(s, k))
  {
    InitOk();
    RunKeepsInv(INIT, steps);
    var s := Run(INIT, steps);
    forall k | 0 <= k < |s.stages| ensures ReceivedOk(s, k) { ReceivedIsOk(s, k); }
    PrintedIsPrimes(s);
  }

  lemma PrintedIsPrimes(s: Sys)
    requires Inv(s)
    ensures exists b :: s.printed == PrimesBelow(b)
  {
    var n := |s.printed|;
    var b := ChainHoldsPrimes(s, n);
    PrintedArePrimesOf(s, n);
    assert s.printed[..n] == s.printed;
  }
}
