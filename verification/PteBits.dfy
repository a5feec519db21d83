/**
 The 32-bit numbers behind entries and `perm` arguments: the bit operations of the
 C code on them are what the other modules do with page numbers and sets of flags.
 No system call checks the upper bits of `perm`, so they reach the page number.
 */
module PteBits {
  import opened Bits
  import opened Paging

  const PTE_P: nat := 0x1
  const PTE_U: nat := 0x4

  function Index(f: Flag): (i: nat)
    ensures i < 12
  {
    match f
    case P => 0
    case W => 1
    case U => 2
    case PWT => 3
    case PCD => 4
    case A => 5
    case D => 6
    case PS => 7
    case G => 8
    case AVL0 => 9
    case AVL1 => 10
    case COW => 11
  }

  function FlagSet(n: nat): set<Flag> {
    set f: Flag | Bit(n, Index(f))
  }

  // An entry, and a `perm` argument, of 32 bits
  function WordOf(entry: nat): Word {
    Word(Shift(entry, 12), FlagSet(entry))
  }

  function PermOf(perm: nat): Perm {
    Perm(Shift(perm, 12), FlagSet(perm))
  }

  // page2pa(pp) | perm | PTE_P
  function Entry(pn: nat, perm: nat): nat {
    Or(Or(4096 * pn, perm), PTE_P)
  }

  lemma {:induction false} LowBitsClear(pn: nat, k: nat, i: nat)
    requires i < k
    ensures !Bit(Power(k) * pn, i)
    decreases k
  {
    assert Power(k) * pn == 2 * (Power(k - 1) * pn);
    if i > 0 { LowBitsClear(pn, k - 1, i - 1); }
  }

  lemma {:induction false} ShiftBack(pn: nat, k: nat)
    ensures Shift(Power(k) * pn, k) == pn
    decreases k
  {
    if k > 0 {
      assert Power(k) * pn == 2 * (Power(k - 1) * pn);
      ShiftBack(pn, k - 1);
    }
  }

  lemma PageSize()
    ensures Power(12) == 4096
  {
    assert Power(6) == 64;
  }

  lemma OneBit(i: nat)
    ensures Bit(1, i) <==> i == 0
    ensures Shift(1, 12) == 0
  {
    if i > 0 { NoBits(i - 1); }
    ShiftZero(11);
  }

  lemma {:induction false} ShiftZero(k: nat)
    ensures Shift(0, k) == 0
  {
    if k > 0 { ShiftZero(k - 1); }
  }

  // What page_insert stores is the entry of the other modules.
  lemma EntryIsStored(pn: nat, perm: nat)
    ensures WordOf(Entry(pn, perm)) == Stored(pn, PermOf(perm))
  {
    hide Bit, Or, Shift;
    PageSize();
    ShiftBack(pn, 12);
    OneBit(0);
    OrShift(Or(4096 * pn, perm), 1, 12);
    OrShift(4096 * pn, perm, 12);
    OrZero(Or(pn, Shift(perm, 12)));
    forall f: Flag ensures f in FlagSet(Entry(pn, perm)) <==> f in FlagSet(perm) + {P} {
      OrBit(Or(4096 * pn, perm), 1, Index(f));
      OrBit(4096 * pn, perm, Index(f));
      LowBitsClear(pn, 12, Index(f));
      OneBit(Index(f));
    }
    assert FlagSet(Entry(pn, perm)) == FlagSet(perm) + {P};
  }

  lemma OrZero(x: nat)
    ensures Or(x, 0) == x
  {
  }

  // It names the page it is for exactly when every upper bit of `perm` is a bit of the
  // page number.
  lemma NamesItsPageExactly(pn: nat, perm: nat)
    ensures WordOf(Entry(pn, perm)).pn == pn <==> Among(Shift(perm, 12), pn)
    ensures Clean(pn, PermOf(perm)) <==> Among(Shift(perm, 12), pn)
  {
    hide Or, Shift, Among;
    EntryIsStored(pn, perm);
    OrAddsNothing(pn, Shift(perm, 12));
  }

  // (perm & (PTE_U | PTE_P)) == (PTE_U | PTE_P)
  lemma AcceptedExactly(perm: nat)
    ensures And(perm, Or(PTE_U, PTE_P)) == Or(PTE_U, PTE_P) <==> {P, U} <= PermOf(perm).flags
  {
    hide Bit;
    assert Or(PTE_U, PTE_P) == 5;
    AndTakesNothing(perm, 5);
    forall i: nat ensures Bit(5, i) <==> i == 0 || i == 2 { FiveBits(i); }
    assert Index(P) == 0 && Index(U) == 2;
    assert P in FlagSet(perm) <==> Bit(perm, 0);
    assert U in FlagSet(perm) <==> Bit(perm, 2);
  }

  lemma FiveBits(i: nat)
    ensures Bit(5, i) <==> i == 0 || i == 2
  {
    if i > 2 {
      NoBits(i - 3);
      assert Bit(5, i) == Bit(2, i - 1) == Bit(1, i - 2) == Bit(0, i - 3);
    }
  }

  // sys_ipc_try_send's test (pte & perm) == perm
  lemma SentExactly(pte: nat, perm: nat)
    ensures And(pte, perm) == perm <==> Covers(WordOf(pte), PermOf(perm))
  {
    hide Bit, And, Or, Shift;
    AndTakesNothing(pte, perm);
    OrAddsNothing(Shift(pte, 12), Shift(perm, 12));
    forall i: nat
      ensures Bit(Shift(perm, 12), i) <==> Bit(perm, 12 + i)
      ensures Bit(Shift(pte, 12), i) <==> Bit(pte, 12 + i)
    {
      ShiftBit(perm, 12, i);
      ShiftBit(pte, 12, i);
    }
    if Covers(WordOf(pte), PermOf(perm)) {
      forall i: nat | Bit(perm, i) ensures Bit(pte, i) {
        if i < 12 {
          var f := FlagAt(i);
          assert f in FlagSet(perm);
        } else {
          var j: nat := i - 12;
          assert Bit(Shift(perm, 12), j) && Bit(Shift(pte, 12), j);
        }
      }
    }
  }

  lemma FlagAt(i: nat) returns (f: Flag)
    requires i < 12
    ensures Index(f) == i
  {
    f := if i == 0 then P else if i == 1 then W else if i == 2 then U else if i == 3 then PWT
         else if i == 4 then PCD else if i == 5 then A else if i == 6 then D else if i == 7 then PS
         else if i == 8 then G else if i == 9 then AVL0 else if i == 10 then AVL1 else COW;
  }

  // What it lets through names the sender's page.
  lemma SentPermIsHarmless(pte: nat, perm: nat)
    requires And(pte, perm) == perm
    ensures WordOf(Entry(WordOf(pte).pn, perm)).pn == WordOf(pte).pn
  {
    hide Or, And, Shift;
    SentExactly(pte, perm);
    EntryIsStored(WordOf(pte).pn, perm);
  }

  // Adding a power of two that is not among its bits sets just that bit.
  lemma {:induction false} AddBit(n: nat, k: nat, i: nat)
    requires !Bit(n, k)
    ensures Bit(n + Power(k), i) <==> i == k || Bit(n, i)
    decreases k
  {
    if k > 0 {
      assert (n + Power(k)) / 2 == n / 2 + Power(k - 1) && (n + Power(k)) % 2 == n % 2;
      if i > 0 { AddBit(n / 2, k - 1, i - 1); }
    }
  }

  lemma {:induction false} ShiftSmall(n: nat, k: nat)
    requires n < Power(k)
    ensures Shift(n, k) == 0
    decreases k
  {
    if k > 0 { ShiftSmall(n / 2, k - 1); }
  }

  lemma FlagsOfFive()
    ensures FlagSet(5) == {P, U}
  {
    hide Bit;
    forall f: Flag ensures f in FlagSet(5) <==> f in {P, U} {
      FiveBits(Index(f));
    }
  }

  // A flag more, where the number has not got it
  lemma FlagMore(n: nat, g: Flag)
    requires g !in FlagSet(n)
    ensures FlagSet(n + Power(Index(g))) == FlagSet(n) + {g}
  {
    hide Bit;
    forall f: Flag ensures f in FlagSet(n + Power(Index(g))) <==> f in FlagSet(n) + {g} {
      AddBit(n, Index(g), Index(f));
      assert Index(f) == Index(g) ==> f == g;
    }
  }

  // The perm arguments of fork, PTE_COW | PTE_U | PTE_P and PTE_W | PTE_U | PTE_P and
  // PTE_U | PTE_P as numbers, are these sets of flags.
  lemma ForkPerms()
    ensures PermOf(0x805) == Low({P, U, COW}) && PermOf(0x7) == Low({P, U, W}) && PermOf(0x5) == Low({P, U})
  {
    hide Bit, Shift;
    PageSize();
    FlagsOfFive();
    assert Power(1) == 2;
    assert Power(11) == 2048 by { assert Power(5) == 32; }
    FlagMore(5, COW);
    FlagMore(5, W);
    ShiftSmall(0x805, 12);
    ShiftSmall(0x7, 12);
    ShiftSmall(0x5, 12);
  }

  // sys_page_alloc accepts a perm that maps page 3 where page 2 was allocated.
  lemma AcceptedPermNamesAnother()
    ensures And(0x1007, Or(PTE_U, PTE_P)) == Or(PTE_U, PTE_P) && WordOf(Entry(2, 0x1007)).pn == 3
  {
    AcceptedExactly(0x1007);
    EntryIsStored(2, 0x1007);
    ShiftTwice(0x1007, 6, 6);
    assert Shift(0x1007, 6) == 0x40;
    assert Or(2, 1) == 3;
  }

  lemma {:induction false} ShiftTwice(x: nat, a: nat, b: nat)
    ensures Shift(x, a + b) == Shift(Shift(x, a), b)
    decreases a
  {
    if a > 0 { ShiftTwice(x / 2, a - 1, b); }
  }
}
