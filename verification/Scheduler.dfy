/**
 `kern/sched.c`: sched_yield's choice. The smallest `pr` wins; among equals the
 first runnable environment in circular order; the running one only if strictly
 better.
 */
module Scheduler {
  import opened Paging
  import opened Envs

  // How many places after `cur` slot `x` comes up in the scan
  function Dist(n: nat, cur: nat, x: nat): (d: nat)
    requires cur < n && x < n
  {
    if x >= cur then x - cur else x + n - cur
  }

  predicate Runnable(envs: seq<Env>, x: nat) {
    x < |envs| && envs[x].status == RUNNABLE
  }

  // `x` comes before `y` for a scan that starts at `cur`.
  predicate Before(envs: seq<Env>, cur: nat, x: nat, y: nat)
    requires cur < |envs| && x < |envs| && y < |envs|
  {
    envs[x].pr < envs[y].pr || (envs[x].pr == envs[y].pr && Dist(|envs|, cur, x) <= Dist(|envs|, cur, y))
  }

  // The best of the first `i` slots scanned
  ghost predicate BestOf(envs: seq<Env>, cur: nat, i: nat, r: Option<nat>)
    requires cur < |envs|
  {
    match r
    case None => forall y: nat :: Runnable(envs, y) ==> Dist(|envs|, cur, y) >= i
    case Some(x) =>
      Runnable(envs, x) && Dist(|envs|, cur, x) < i &&
      forall y: nat :: Runnable(envs, y) && Dist(|envs|, cur, y) < i ==> Before(envs, cur, x, y)
  }

  // The environment sched_yield runs next, if any
  ghost predicate Chosen(envs: seq<Env>, curenv: Option<nat>, r: Option<nat>)
    requires |envs| > 0 && (curenv.Some? ==> curenv.value < |envs|)
  {
    var cur := if curenv.Some? then curenv.value else 0;
    exists best: Option<nat> :: BestOf(envs, cur, |envs|, best) &&
      r == if curenv.Some? && envs[cur].status == RUNNING && (best.None? || envs[cur].pr < envs[best.value].pr)
           then curenv else best
  }

  lemma BestUnique(envs: seq<Env>, cur: nat, a: Option<nat>, b: Option<nat>)
    requires cur < |envs| && BestOf(envs, cur, |envs|, a) && BestOf(envs, cur, |envs|, b)
    ensures a == b
  {
    if a.Some? && b.Some? {
      assert Before(envs, cur, a.value, b.value) && Before(envs, cur, b.value, a.value);
      DistInjective(|envs|, cur, a.value, b.value);
    }
  }

  lemma DistInjective(n: nat, cur: nat, x: nat, y: nat)
    requires cur < n && x < n && y < n && Dist(n, cur, x) == Dist(n, cur, y)
    ensures x == y
  {
  }

  // From slot `from` on to the last and then from slot 0: `x` is met no later than `y`.
  predicate MetFirst(from: nat, x: nat, y: nat) {
    (x >= from && y < from) || ((x >= from <==> y >= from) && x <= y)
  }

  // In plain words: nobody runs only if nobody can; the running one stays if its pr
  // is below every runnable one's; and otherwise the runnable one of the least pr is
  // taken that is met first, from the running one's slot on or else from slot 0.
  lemma ChosenInPlainWords(envs: seq<Env>, curenv: Option<nat>, r: Option<nat>)
    requires |envs| > 0 && (curenv.Some? ==> curenv.value < |envs|) && Chosen(envs, curenv, r)
    ensures r.None? ==>
              && (forall y :: 0 <= y < |envs| ==> envs[y].status != RUNNABLE)
              && (curenv.Some? ==> envs[curenv.value].status != RUNNING)
    ensures r.Some? ==> r.value < |envs|
    ensures r.Some? && envs[r.value].status != RUNNABLE ==>
              && r == curenv && envs[r.value].status == RUNNING
              && forall y :: 0 <= y < |envs| && envs[y].status == RUNNABLE ==> envs[r.value].pr < envs[y].pr
    ensures r.Some? && envs[r.value].status == RUNNABLE ==>
              && (curenv.Some? && envs[curenv.value].status == RUNNING ==> envs[r.value].pr <= envs[curenv.value].pr)
              && forall y :: 0 <= y < |envs| && envs[y].status == RUNNABLE ==>
                   envs[r.value].pr < envs[y].pr
                   || (envs[r.value].pr == envs[y].pr
                       && MetFirst(if curenv.Some? then curenv.value else 0, r.value, y))
  {
    assert forall y :: 0 <= y < |envs| && envs[y].status == RUNNABLE ==> Runnable(envs, y);
  }

  // ... so without a running one, no lower slot with a pr as small is passed over.
  lemma LowestSlotWithoutCurenv(envs: seq<Env>, x: nat, y: nat)
    requires |envs| > 0 && Chosen(envs, None, Some(x)) && y < x && y < |envs| && envs[y].status == RUNNABLE
    ensures x < |envs| && envs[x].status == RUNNABLE && envs[x].pr < envs[y].pr
  {
    ChosenInPlainWords(envs, None, Some(x));
  }

  // The scan loop of sched_yield
  method SchedYield(envs: seq<Env>, curenv: Option<nat>) returns (next: Option<nat>)
    requires |envs| > 0 && (curenv.Some? ==> curenv.value < |envs|)
    ensures Chosen(envs, curenv, next)
  {
    var cur := if curenv.Some? then curenv.value else 0;
    var runenv: Option<nat> := None;
    var i := 0;
    while i < |envs|
      invariant i <= |envs|
      invariant BestOf(envs, cur, i, runenv)
    {
      var j := (cur + i) % |envs|;
      OnlyAt(|envs|, cur, i, j);
      if envs[j].status == RUNNABLE {
        if runenv.None? || envs[j].pr < envs[runenv.value].pr { runenv := Some(j); }
      }
      i := i + 1;
    }
    if curenv.Some? && envs[cur].status == RUNNING && (runenv.None? || envs[cur].pr < envs[runenv.value].pr) {
      return curenv;
    }
    return runenv;
  }

  lemma OnlyAt(n: nat, cur: nat, i: nat, j: nat)
    requires cur < n && i < n && j == (cur + i) % n
    ensures j < n && Dist(n, cur, j) == i
    ensures forall y: nat :: y < n && Dist(n, cur, y) == i ==> y == j
  {
    assert j == if cur + i < n then cur + i else cur + i - n;
  }

  // The scan always comes to a choice.
  lemma {:induction false} BestExists(envs: seq<Env>, cur: nat, i: nat) returns (r: Option<nat>)
    requires cur < |envs| && i <= |envs|
    ensures BestOf(envs, cur, i, r)
  {
    r := None;
    if i > 0 {
      r := BestExists(envs, cur, i - 1);
      var j := (cur + i - 1) % |envs|;
      OnlyAt(|envs|, cur, i - 1, j);
      if envs[j].status == RUNNABLE && (r.None? || envs[j].pr < envs[r.value].pr) { r := Some(j); }
    }
  }

  lemma ChoiceExists(envs: seq<Env>, curenv: Option<nat>) returns (r: Option<nat>)
    requires |envs| > 0 && (curenv.Some? ==> curenv.value < |envs|)
    ensures Chosen(envs, curenv, r) && (r.Some? ==> r.value < |envs|)
  {
    var cur := if curenv.Some? then curenv.value else 0;
    var best := BestExists(envs, cur, |envs|);
    r := if curenv.Some? && envs[cur].status == RUNNING && (best.None? || envs[cur].pr < envs[best.value].pr)
         then curenv else best;
  }

  // ----- bounded waiting on one CPU -----

  // As Dist, but a slot is a full circle after itself.
  function Next(n: nat, cur: nat, x: nat): (d: nat)
    requires cur < n && x < n
    ensures 1 <= d <= n
  {
    if x == cur then n else Dist(n, cur, x)
  }

  // `cur` is the one running environment.
  ghost predicate OneCpu(envs: seq<Env>, cur: nat) {
    cur < |envs| && forall x :: 0 <= x < |envs| ==> (envs[x].status == RUNNING <==> x == cur)
  }

  // The statuses env_run(x) leaves when `cur` was running
  function Switch(envs: seq<Env>, cur: nat, x: nat): seq<Env>
    requires cur < |envs| && x < |envs|
  {
    envs[cur := envs[cur].(status := RUNNABLE)][x := envs[x].(status := RUNNING)]
  }

  // cs[0] runs, yields, cs[1] runs, yields, ...
  ghost predicate YieldRun(envs: seq<Env>, cs: seq<nat>)
    decreases |cs|
  {
    && cs != [] && OneCpu(envs, cs[0])
    && (|cs| > 1 ==>
          Chosen(envs, Some(cs[0]), Some(cs[1])) && cs[1] < |envs| && YieldRun(Switch(envs, cs[0], cs[1]), cs[1..]))
  }

  predicate Ready(envs: seq<Env>, x: nat) {
    x < |envs| && (envs[x].status == RUNNABLE || envs[x].status == RUNNING)
  }

  // The environments of the smallest priority value among those that could run
  ghost predicate InClass(envs: seq<Env>, x: nat) {
    Ready(envs, x) && forall y: nat :: Ready(envs, y) ==> envs[x].pr <= envs[y].pr
  }

  ghost function Class(envs: seq<Env>): set<nat> {
    set x | 0 <= x < |envs| && InClass(envs, x)
  }

  // The class members that come up after `cur`, up to and including `t`
  ghost function Ahead(envs: seq<Env>, cur: nat, t: nat): set<nat>
    requires cur < |envs| && t < |envs|
  {
    set x | x in Class(envs) && x < |envs| && Next(|envs|, cur, x) <= Next(|envs|, cur, t)
  }

  // A yield moves to the next member of the class.
  lemma YieldPicksNext(envs: seq<Env>, cur: nat, x: nat, t: nat)
    requires OneCpu(envs, cur) && Chosen(envs, Some(cur), Some(x)) && x < |envs| && InClass(envs, t)
    ensures InClass(envs, x)
    ensures forall y: nat :: y in Class(envs) ==> Next(|envs|, cur, x) <= Next(|envs|, cur, y)
  {
    var best: Option<nat> :| BestOf(envs, cur, |envs|, best) &&
      Some(x) == if best.None? || envs[cur].pr < envs[best.value].pr then Some(cur) else best;
    forall y: nat | Ready(envs, y) ensures envs[x].pr <= envs[y].pr {
      if y != cur { assert Runnable(envs, y); }
    }
    forall y: nat | y in Class(envs) ensures Next(|envs|, cur, x) <= Next(|envs|, cur, y) {
      if y != cur { assert Runnable(envs, y) && Dist(|envs|, cur, y) < |envs|; }
    }
  }

  lemma SwitchKeepsClass(envs: seq<Env>, cur: nat, x: nat)
    requires OneCpu(envs, cur) && Ready(envs, x)
    ensures OneCpu(Switch(envs, cur, x), x) && Class(Switch(envs, cur, x)) == Class(envs)
  {
    var envs' := Switch(envs, cur, x);
    assert forall y: nat :: Ready(envs, y) <==> Ready(envs', y);
    assert forall y: nat :: InClass(envs, y) <==> InClass(envs', y);
  }

  lemma AheadShrinks(envs: seq<Env>, cur: nat, x: nat, t: nat)
    requires OneCpu(envs, cur) && Chosen(envs, Some(cur), Some(x)) && x < |envs| && InClass(envs, t) && x != t
    ensures x in Ahead(envs, cur, t)
    ensures Ahead(Switch(envs, cur, x), x, t) == Ahead(envs, cur, t) - {x}
  {
    YieldPicksNext(envs, cur, x, t);
    SwitchKeepsClass(envs, cur, x);
    assert x in Class(envs) && t in Class(envs);
  }

  // Every member of the class is dispatched within as many yields as the class
  // has members; more precisely, within the number still ahead of it.
  lemma {:induction false} BoundedWaiting(envs: seq<Env>, cs: seq<nat>, t: nat) returns (k: nat)
    requires YieldRun(envs, cs) && InClass(envs, t) && |cs| > |Ahead(envs, cs[0], t)|
    ensures 1 <= k <= |Ahead(envs, cs[0], t)| <= |Class(envs)| && k < |cs| && cs[k] == t
    decreases |cs|
  {
    hide Chosen;
    var cur := cs[0];
    assert t in Ahead(envs, cur, t);
    Subset(Ahead(envs, cur, t), Class(envs));
    if cs[1] == t {
      k := 1;
    } else {
      var x := cs[1];
      AheadShrinks(envs, cur, x, t);
      YieldPicksNext(envs, cur, x, t);
      SwitchKeepsClass(envs, cur, x);
      assert t in Class(Switch(envs, cur, x));
      k := BoundedWaiting(Switch(envs, cur, x), cs[1..], t);
      k := k + 1;
    }
  }

  lemma Subset(a: set<nat>, b: set<nat>)
    requires a <= b
    ensures |a| <= |b|
  {
    if a != {} {
      var x :| x in a;
      Subset(a - {x}, b - {x});
    }
  }
}
