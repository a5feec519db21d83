/**
 `OSLab2-PThread/main.c`: one producer and one customer around a counter, with a
 mutex and two condition variables, waited on under `if` rather than `while`.
 */
module BoundedBuffer {
  datatype Pc =
    | Outside      // before pthread_mutex_lock
    | Locked       // about to change goods
    | Check        // about to test for the full or the empty buffer
    | Waiting      // in pthread_cond_wait, mutex released
    | Woken        // wake-up received, waiting for the mutex
    | Signal       // about to test whether the other must be woken
    | Unlock       // before pthread_mutex_unlock

  datatype Who = Producer | Customer

  datatype Sys = Sys(total: int, goods: int, producer: Pc, customer: Pc)

  // A thread takes its next step, or returns from pthread_cond_wait on its own.
  datatype Step = Go(who: Who) | Spurious(who: Who)

  predicate HasMutex(pc: Pc) {
    pc.Locked? || pc.Check? || pc.Signal? || pc.Unlock?
  }

  function PcOf(s: Sys, w: Who): Pc {
    if w.Producer? then s.producer else s.customer
  }

  function SetPc(s: Sys, w: Who, pc: Pc): Sys {
    if w.Producer? then s.(producer := pc) else s.(customer := pc)
  }

  function Other(w: Who): Who {
    if w.Producer? then Customer else Producer
  }

  predicate MutexFree(s: Sys) {
    !HasMutex(s.producer) && !HasMutex(s.customer)
  }

  predicate Enabled(s: Sys, step: Step) {
    var pc := PcOf(s, step.who);
    match step
    case Go(_) => !pc.Waiting? && (pc.Outside? || pc.Woken? ==> MutexFree(s))
    case Spurious(_) => pc.Waiting?
  }

  // The producer waits at TOTAL and wakes the customer at 1; the customer waits at
  // 0 and wakes the producer at TOTAL - 1.
  function WaitAt(s: Sys, w: Who): int {
    if w.Producer? then s.total else 0
  }

  function WakeAt(s: Sys, w: Who): int {
    if w.Producer? then 1 else s.total - 1
  }

  function Apply(s: Sys, step: Step): Sys
    requires Enabled(s, step)
  {
    var w := step.who;
    if step.Spurious? then SetPc(s, w, Woken)
    else
      match PcOf(s, w)
      case Outside => SetPc(s, w, Locked)
      case Locked => SetPc(s, w, Check).(goods := s.goods + if w.Producer? then 1 else -1)
      case Check => SetPc(s, w, if s.goods == WaitAt(s, w) then Waiting else Signal)
      case Woken => SetPc(s, w, Signal)
      case Signal =>
        var s1 := SetPc(s, w, Unlock);
        if s.goods == WakeAt(s, w) && PcOf(s, Other(w)).Waiting? then SetPc(s1, Other(w), Woken) else s1
      case Unlock => SetPc(s, w, Outside)
      case Waiting => s
  }

  function Init(total: int): Sys {
    Sys(total, 2, Outside, Outside)
  }

  predicate CanRun(s: Sys, steps: seq<Step>)
    decreases |steps|
  {
    steps == [] || (Enabled(s, steps[0]) && CanRun(Apply(s, steps[0]), steps[1..]))
  }

  function Run(s: Sys, steps: seq<Step>): Sys
    requires CanRun(s, steps)
    decreases |steps|
  {
    if steps == [] then s else Run(Apply(s, steps[0]), steps[1..])
  }

  // No spurious wake-ups
  predicate Strict(steps: seq<Step>) {
    forall i :: 0 <= i < |steps| ==> steps[i].Go?
  }

  predicate InBounds(s: Sys) {
    0 <= s.goods <= s.total
  }

  // A thread that waits, waits at its limit, unless the other has just moved away
  // from it and is on the way to wake it; nobody else is at a limit.
  predicate Inv(s: Sys) {
    && s.total >= 3 && InBounds(s)
    && !(HasMutex(s.producer) && HasMutex(s.customer))
    && (s.goods == s.total ==> s.producer.Check? || s.producer.Waiting?)
    && (s.goods == 0 ==> s.customer.Check? || s.customer.Waiting?)
    && (s.producer.Waiting? ==>
          s.goods == s.total || (s.goods == s.total - 1 && (s.customer.Check? || s.customer.Signal?)))
    && (s.customer.Waiting? ==>
          s.goods == 0 || (s.goods == 1 && (s.producer.Check? || s.producer.Signal?)))
  }

  lemma StepKeepsInv(s: Sys, step: Step)
    requires Inv(s) && Enabled(s, step) && step.Go?
    ensures Inv(Apply(s, step))
  {
  }

  lemma {:induction false} RunKeepsInv(s: Sys, steps: seq<Step>)
    requires Inv(s) && CanRun(s, steps) && Strict(steps)
    ensures Inv(Run(s, steps))
    decreases |steps|
  {
    if steps != [] {
      StepKeepsInv(s, steps[0]);
      RunKeepsInv(Apply(s, steps[0]), steps[1..]);
    }
  }

  // How often the thread has changed `goods`: its own steps with the mutex just taken
  function Moves(s: Sys, steps: seq<Step>, w: Who): nat
    requires CanRun(s, steps)
    decreases |steps|
  {
    if steps == [] then 0
    else
      (if steps[0] == Go(w) && PcOf(s, w).Locked? then 1 else 0) + Moves(Apply(s, steps[0]), steps[1..], w)
  }

  // What is in the buffer is what was there, and what was made, less what was taken;
  // spurious wake-ups or not.
  lemma {:induction false} GoodsAreCounted(s: Sys, steps: seq<Step>)
    requires CanRun(s, steps)
    ensures Run(s, steps).goods == s.goods + Moves(s, steps, Producer) - Moves(s, steps, Customer)
    decreases |steps|
  {
    if steps != [] { GoodsAreCounted(Apply(s, steps[0]), steps[1..]); }
  }

  // Over every run without spurious wake-ups the counter stays within bounds and
  // counts what was made and not taken, the threads are never both waiting for a
  // signal, and some thread can go on.
  lemma BufferIsSafe(total: int, steps: seq<Step>)
    requires total >= 3 && CanRun(Init(total), steps) && Strict(steps)
    ensures var s := Run(Init(total), steps);
            && 0 <= s.goods <= total
            && s.goods == 2 + Moves(Init(total), steps, Producer) - Moves(Init(total), steps, Customer)
            && !(HasMutex(s.producer) && HasMutex(s.customer)) && !(s.producer.Waiting? && s.customer.Waiting?)
            && exists w :: Enabled(s, Go(w))
  {
    RunKeepsInv(Init(total), steps);
    var s := Run(Init(total), steps);
    RunKeepsTotal(Init(total), steps);
    GoodsAreCounted(Init(total), steps);
    assert Enabled(s, Go(Producer)) || Enabled(s, Go(Customer));
  }

  lemma {:induction false} RunKeepsTotal(s: Sys, steps: seq<Step>)
    requires CanRun(s, steps)
    ensures Run(s, steps).total == s.total
    decreases |steps|
  {
    if steps != [] { RunKeepsTotal(Apply(s, steps[0]), steps[1..]); }
  }

  lemma Cons(s: Sys, step: Step, rest: seq<Step>)
    requires Enabled(s, step) && CanRun(Apply(s, step), rest)
    ensures CanRun(s, [step] + rest) && Run(s, [step] + rest) == Run(Apply(s, step), rest)
  {
    assert ([step] + rest)[1..] == rest;
  }

  // ... and for no smaller TOTAL: the buffer starts with two goods, and the first
  // one made is already too many.
  lemma SafeExactlyFromThree(total: int)
    ensures (forall steps :: CanRun(Init(total), steps) && Strict(steps) ==> InBounds(Run(Init(total), steps)))
            <==> total >= 3
  {
    if total >= 3 {
      forall steps | CanRun(Init(total), steps) && Strict(steps) ensures InBounds(Run(Init(total), steps)) {
        BufferIsSafe(total, steps);
        RunKeepsTotal(Init(total), steps);
      }
    } else {
      var g, s1 := Go(Producer), Apply(Init(total), Go(Producer));
      Cons(s1, g, []);
      Cons(Init(total), g, [g]);
      assert Strict([g, g]) && !InBounds(Run(Init(total), [g, g]));
    }
  }

  lemma {:induction false} RunThen(s: Sys, a: seq<Step>, b: seq<Step>)
    requires CanRun(s, a) && CanRun(Run(s, a), b)
    ensures CanRun(s, a + b) && Run(s, a + b) == Run(Run(s, a), b)
    decreases |a|
  {
    if a == [] {
      assert a + b == b;
    } else {
      RunThen(Apply(s, a[0]), a[1..], b);
      assert (a + b)[1..] == a[1..] + b;
    }
  }

  // ----- both threads get on -----

  // Where the thread has to wait: the producer at a full buffer, the customer at an
  // empty one.
  predicate WaitsAtLimit(s: Sys, w: Who) {
    PcOf(s, w).Waiting? && s.goods == if w.Producer? then s.total else 0
  }

  function Distance(s: Sys, w: Who): int {
    if w.Producer? then s.total - s.goods else s.goods
  }

  // How far a thread is from its next change of `goods`, and from its next wait
  function OwnWay(pc: Pc): nat {
    match pc
    case Check => 7
    case Waiting => 6
    case Woken => 5
    case Signal => 4
    case Unlock => 3
    case Outside => 2
    case Locked => 1
  }

  // How much the other thread can still do before it gives the mutex back
  function OthersWay(pc: Pc): nat {
    match pc
    case Locked => 20
    case Check => 3
    case Signal => 2
    case Unlock => 1
    case _ => 0
  }

  // `w` goes whenever it can; the other only gives the mutex back, or wakes it.
  lemma {:induction false} RunUntilWait(s: Sys, w: Who) returns (steps: seq<Step>)
    requires Inv(s)
    ensures CanRun(s, steps) && Strict(steps) && WaitsAtLimit(Run(s, steps), w) && Inv(Run(s, steps))
    decreases 10 * Distance(s, w) + OwnWay(PcOf(s, w)) + OthersWay(PcOf(s, Other(w)))
  {
    steps := [];
    if !WaitsAtLimit(s, w) {
      var step := if Enabled(s, Go(w)) then Go(w) else Go(Other(w));
      StepKeepsInv(s, step);
      var rest := RunUntilWait(Apply(s, step), w);
      Cons(s, step, rest);
      steps := [step] + rest;
    }
  }

  function ToSignal(s: Sys, w: Who): nat {
    match PcOf(s, w)
    case Woken => 7
    case Signal => if WaitsAtLimit(s, Other(w)) then 6 else 1
    case Unlock => 5
    case Outside => 4
    case Locked => 3
    case Check => if WaitsAtLimit(s, Other(w)) then 7 else 2
    case Waiting => 0
  }

  // Just moved away from the limit
  predicate OneAway(s: Sys, w: Who) {
    s.goods == if w.Producer? then s.total - 1 else 1
  }

  // The other changes the counter once and wakes `w`.
  lemma {:induction false} RunUntilWoken(s: Sys, w: Who) returns (steps: seq<Step>)
    requires Inv(s)
    requires WaitsAtLimit(s, w)
             || (PcOf(s, w).Waiting? && OneAway(s, w) && (PcOf(s, Other(w)).Check? || PcOf(s, Other(w)).Signal?))
    ensures CanRun(s, steps) && Strict(steps)
    ensures PcOf(Run(s, steps), w).Woken? && OneAway(Run(s, steps), w)
    decreases ToSignal(s, Other(w))
  {
    var step := Go(Other(w));
    var s1 := Apply(s, step);
    StepKeepsInv(s, step);
    var rest: seq<Step> := [];
    if PcOf(s1, w).Waiting? { rest := RunUntilWoken(s1, w); }
    Cons(s, step, rest);
    steps := [step] + rest;
  }

  // Whatever has happened so far, without spurious wake-ups, either thread can come
  // to wait at its limit, and be woken again when the other has moved away from it.
  lemma WaitsAndIsWoken(total: int, steps: seq<Step>, w: Who) returns (wait: seq<Step>, wake: seq<Step>)
    requires total >= 3 && CanRun(Init(total), steps) && Strict(steps)
    ensures Strict(wait) && CanRun(Init(total), steps + wait)
    ensures var s1 := Run(Init(total), steps + wait);
            PcOf(s1, w).Waiting? && s1.goods == if w.Producer? then total else 0
    ensures Strict(wake) && CanRun(Init(total), steps + wait + wake)
    ensures var s2 := Run(Init(total), steps + wait + wake);
            PcOf(s2, w).Woken? && s2.goods == if w.Producer? then total - 1 else 1
  {
    RunKeepsInv(Init(total), steps);
    var s := Run(Init(total), steps);
    wait := RunUntilWait(s, w);
    RunThen(Init(total), steps, wait);
    wake := RunUntilWoken(Run(s, wait), w);
    RunThen(Init(total), steps + wait, wake);
    RunKeepsTotal(Init(total), steps + wait);
    RunKeepsTotal(Init(total), steps + wait + wake);
  }

  // ----- why the hypothesis on wake-ups is needed -----

  // The producer alone, round after round
  lemma {:induction false} ProduceUpTo(s: Sys) returns (steps: seq<Step>)
    requires s.producer.Outside? && s.customer.Outside? && 2 <= s.goods < s.total
    ensures CanRun(s, steps) && Strict(steps) && Run(s, steps) == s.(producer := Waiting, goods := s.total)
    decreases s.total - s.goods
  {
    var g := Go(Producer);
    var s1 := Apply(s, g);
    var s2 := Apply(s1, g);
    var s3 := Apply(s2, g);
    if s2.goods == s.total {
      steps := [];
    } else {
      var s4 := Apply(s3, g);
      var s5 := Apply(s4, g);
      assert s5 == s.(goods := s.goods + 1);
      steps := ProduceUpTo(s5);
      Cons(s4, g, steps);
      Cons(s3, g, [g] + steps);
      steps := [g] + ([g] + steps);
    }
    Cons(s2, g, steps);
    Cons(s1, g, [g] + steps);
    Cons(s, g, [g] + ([g] + steps));
    steps := [g] + ([g] + ([g] + steps));
  }

  // One spurious return from pthread_cond_wait and the buffer overflows, whatever
  // its size.
  lemma SpuriousOverflow(total: int) returns (steps: seq<Step>)
    requires total >= 3
    ensures CanRun(Init(total), steps) && Run(Init(total), steps).goods == total + 1
    ensures exists i :: 0 <= i < |steps| && steps == steps[..i] + [Spurious(Producer)] + steps[i + 1..]
                        && Strict(steps[..i]) && Strict(steps[i + 1..])
  {
    var fill := ProduceUpTo(Init(total));
    var s := Run(Init(total), fill);
    var over := [Spurious(Producer), Go(Producer), Go(Producer), Go(Producer), Go(Producer), Go(Producer)];
    Overflow(s);
    RunThen(Init(total), fill, over);
    steps := fill + over;
    assert steps[..|fill|] == fill && steps[|fill| + 1..] == over[1..];
    assert steps == steps[..|fill|] + [Spurious(Producer)] + steps[|fill| + 1..];
  }

  lemma Overflow(s: Sys)
    requires s.producer.Waiting? && s.customer.Outside? && s.goods == s.total >= 3
    ensures var over := [Spurious(Producer), Go(Producer), Go(Producer), Go(Producer), Go(Producer), Go(Producer)];
            CanRun(s, over) && Run(s, over).goods == s.total + 1
  {
    var g := Go(Producer);
    var s1 := Apply(s, Spurious(Producer));
    var s2 := Apply(s1, g);
    var s3 := Apply(s2, g);
    var s4 := Apply(s3, g);
    var s5 := Apply(s4, g);
    Cons(s5, g, []);
    Cons(s4, g, [g]);
    Cons(s3, g, [g, g]);
    Cons(s2, g, [g, g, g]);
    Cons(s1, g, [g, g, g, g]);
    Cons(s, Spurious(Producer), [g, g, g, g, g]);
    assert [Spurious(Producer)] + [g, g, g, g, g] == [Spurious(Producer), g, g, g, g, g];
  }
}
