/**
 The C operators | and & on unsigned numbers, bit by bit from the lowest.
 */
module Bits {
  function Or(x: nat, y: nat): nat {
    if x == 0 then y
    else if y == 0 then x
    else 2 * Or(x / 2, y / 2) + if x % 2 == 1 || y % 2 == 1 then 1 else 0
  }

  function And(x: nat, y: nat): nat {
    if x == 0 || y == 0 then 0
    else 2 * And(x / 2, y / 2) + if x % 2 == 1 && y % 2 == 1 then 1 else 0
  }

  // Bit number `i`
  predicate Bit(x: nat, i: nat) {
    if i == 0 then x % 2 == 1 else Bit(x / 2, i - 1)
  }

  // x >> k
  function Shift(x: nat, k: nat): nat {
    if k == 0 then x else Shift(x / 2, k - 1)
  }

  lemma OrHalves(x: nat, y: nat)
    ensures Or(x, y) / 2 == Or(x / 2, y / 2)
    ensures Or(x, y) % 2 == if x % 2 == 1 || y % 2 == 1 then 1 else 0
  {
  }

  lemma AndHalves(x: nat, y: nat)
    ensures And(x, y) / 2 == And(x / 2, y / 2)
    ensures And(x, y) % 2 == if x % 2 == 1 && y % 2 == 1 then 1 else 0
  {
  }

  lemma {:induction false} NoBits(i: nat)
    ensures !Bit(0, i)
  {
    if i > 0 { NoBits(i - 1); }
  }

  lemma {:induction false} OrBit(x: nat, y: nat, i: nat)
    ensures Bit(Or(x, y), i) <==> Bit(x, i) || Bit(y, i)
    decreases i
  {
    OrHalves(x, y);
    if i > 0 { OrBit(x / 2, y / 2, i - 1); }
  }

  lemma {:induction false} AndBit(x: nat, y: nat, i: nat)
    ensures Bit(And(x, y), i) <==> Bit(x, i) && Bit(y, i)
    decreases i
  {
    AndHalves(x, y);
    if i > 0 { AndBit(x / 2, y / 2, i - 1); }
  }

  lemma {:induction false} OrShift(x: nat, y: nat, k: nat)
    ensures Shift(Or(x, y), k) == Or(Shift(x, k), Shift(y, k))
    decreases k
  {
    if k > 0 {
      OrHalves(x, y);
      OrShift(x / 2, y / 2, k - 1);
    }
  }

  lemma {:induction false} AndShift(x: nat, y: nat, k: nat)
    ensures Shift(And(x, y), k) == And(Shift(x, k), Shift(y, k))
    decreases k
  {
    if k > 0 {
      AndHalves(x, y);
      AndShift(x / 2, y / 2, k - 1);
    }
  }

  lemma {:induction false} ShiftBit(x: nat, k: nat, i: nat)
    ensures Bit(Shift(x, k), i) <==> Bit(x, k + i)
    decreases k
  {
    if k > 0 { ShiftBit(x / 2, k - 1, i); }
  }

  // Numbers with the same bits are the same.
  lemma {:induction false} SameBits(x: nat, y: nat)
    requires forall i: nat :: Bit(x, i) <==> Bit(y, i)
    ensures x == y
    decreases x + y
  {
    if x != 0 || y != 0 {
      assert Bit(x, 0) <==> Bit(y, 0);
      forall i: nat ensures Bit(x / 2, i) <==> Bit(y / 2, i) {
        assert Bit(x, i + 1) <==> Bit(y, i + 1);
      }
      SameBits(x / 2, y / 2);
    }
  }

  // Every bit of `y` is one of `x`.
  ghost predicate Among(y: nat, x: nat) {
    forall i: nat :: Bit(y, i) ==> Bit(x, i)
  }

  // That is when or-ing `y` into `x` adds nothing ...
  lemma OrAddsNothing(x: nat, y: nat)
    ensures Or(x, y) == x <==> Among(y, x)
  {
    hide Bit, Or;
    forall i: nat ensures Bit(Or(x, y), i) <==> Bit(x, i) || Bit(y, i) { OrBit(x, y, i); }
    if Among(y, x) { SameBits(Or(x, y), x); }
  }

  // ... and when masking `y` with `x` takes nothing away.
  lemma AndTakesNothing(x: nat, y: nat)
    ensures And(x, y) == y <==> Among(y, x)
  {
    hide Bit, And;
    forall i: nat ensures Bit(And(x, y), i) <==> Bit(x, i) && Bit(y, i) { AndBit(x, y, i); }
    if Among(y, x) { SameBits(And(x, y), y); }
  }

  // 1 << n
  function Power(n: nat): nat {
    if n == 0 then 1 else 2 * Power(n - 1)
  }
}
