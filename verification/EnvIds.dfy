/**
 Environment ids (`kern/env.c`, env_alloc): a slot index in the low ten bits and a
 generation above it, in 32-bit two's complement arithmetic.
 */
module EnvIds {
  const NENV: nat := 1024
  const GEN: nat := 4096            // 1 << ENVGENSHIFT
  const PERIOD: nat := 524287       // 2^19 - 1 generations before the sign bit

  // The value of a 32-bit signed addition's result
  function Wrap32(x: int): (r: int)
    ensures -0x8000_0000 <= r < 0x8000_0000
    ensures -0x8000_0000 <= x < 0x8000_0000 ==> r == x
  {
    (x + 0x8000_0000) % 0x1_0000_0000 - 0x8000_0000
  }

  // ENVX(id): id & (NENV - 1)
  function EnvX(id: int): (slot: nat)
    ensures slot < NENV
  {
    id % NENV
  }

  // The id env_alloc gives slot `slot` whose previous id was `id`; clearing and
  // setting the low ten bits is subtracting and adding them.
  function NextId(id: int, slot: nat): int
    requires slot < NENV
  {
    var sum := Wrap32(id + GEN);
    var generation := sum - EnvX(sum);
    if generation <= 0 then GEN + slot else generation + slot
  }

  // The id of `slot` after `n` allocations; 0 before the first.
  function IdAfter(slot: nat, n: nat): int
    requires slot < NENV
  {
    if n == 0 then 0 else NextId(IdAfter(slot, n - 1), slot)
  }

  lemma SlotOf(k: int, slot: nat)
    requires slot < NENV
    ensures EnvX(GEN * k + slot) == slot
  {
    assert GEN * k + slot == NENV * (4 * k) + slot;
  }

  // One allocation moves to the next generation, and from the last to the first.
  lemma NextGeneration(slot: nat, g: nat)
    requires slot < NENV && 1 <= g <= PERIOD
    ensures NextId(GEN * g + slot, slot) == GEN * (if g == PERIOD then 1 else g + 1) + slot
  {
    if g == PERIOD {
      assert Wrap32(GEN * PERIOD + slot + GEN) == GEN * -0x8_0000 + slot;
      SlotOf(-0x8_0000, slot);
    } else {
      assert Wrap32(GEN * g + slot + GEN) == GEN * (g + 1) + slot;
      SlotOf(g + 1, slot);
    }
  }

  lemma NextResidue(n: nat)
    ensures (n + 1) % PERIOD == if n % PERIOD + 1 == PERIOD then 0 else n % PERIOD + 1
  {
    var q, r := n / PERIOD, n % PERIOD;
    assert n + 1 == PERIOD * q + (r + 1);
    if r + 1 == PERIOD { assert n + 1 == PERIOD * (q + 1); }
  }

  // The n-th id of a slot, in closed form.
  lemma {:induction false} IdClosedForm(slot: nat, n: nat)
    requires slot < NENV && n > 0
    ensures IdAfter(slot, n) == GEN * ((n - 1) % PERIOD + 1) + slot
  {
    if n == 1 {
      assert IdAfter(slot, 0) == 0;
    } else {
      hide NextId;
      IdClosedForm(slot, n - 1);
      NextGeneration(slot, (n - 2) % PERIOD + 1);
      NextResidue(n - 2);
    }
  }

  // Every id is positive and carries its slot.
  lemma IdWellFormed(slot: nat, n: nat)
    requires slot < NENV && n > 0
    ensures 0 < IdAfter(slot, n) < 0x8000_0000 && EnvX(IdAfter(slot, n)) == slot
  {
    hide IdAfter, NextId, EnvX;
    IdClosedForm(slot, n);
    SlotOf((n - 1) % PERIOD + 1, slot);
  }

  // Two allocations of a slot share an id exactly when a whole number of periods
  // lies between them.
  lemma IdRepeats(slot: nat, m: nat, n: nat)
    requires slot < NENV && 0 < m <= n
    ensures IdAfter(slot, m) == IdAfter(slot, n) <==> (n - m) % PERIOD == 0
  {
    IdClosedForm(slot, m);
    IdClosedForm(slot, n);
    SameResidue(m - 1, n - 1);
  }

  lemma SameResidue(a: nat, b: nat)
    requires a <= b
    ensures a % PERIOD == b % PERIOD <==> (b - a) % PERIOD == 0
  {
    var qa, ra, qb, rb, q, r := a / PERIOD, a % PERIOD, b / PERIOD, b % PERIOD, (b - a) / PERIOD, (b - a) % PERIOD;
    assert a == PERIOD * qa + ra && b == PERIOD * qb + rb && b - a == PERIOD * q + r;
    assert PERIOD * (qb - qa - q) == ra - rb + r;
  }

  // Ids of different slots never coincide.
  lemma IdsOfSlotsDiffer(a: nat, m: nat, b: nat, n: nat)
    requires a < NENV && b < NENV && m > 0 && n > 0 && a != b
    ensures IdAfter(a, m) != IdAfter(b, n)
  {
    IdWellFormed(a, m);
    IdWellFormed(b, n);
  }
}
