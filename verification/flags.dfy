/**
 The flags of the `s` forms and of the comparisons, against those of the ARM architecture (sections
 A2.2.1 and A8 of DDI 0406C), and exactly when they agree.
 */
module Flags {
  import opened BitFacts
  import opened Words
  import opened Machine
  import opened Asm
  import opened Effects
  import opened Departures

  datatype Four = Four(n: bool, z: bool, c: bool, v: bool)

  function WithFour(cpsr: bv32, f: Four): bv32 {
    SetFlags(cpsr, f.n, f.z, f.c, f.v)
  }

  function FourOf(cpsr: bv32): Four {
    Four(FlagN(cpsr), FlagZ(cpsr), FlagC(cpsr), FlagV(cpsr))
  }

  /** The flags of x + y + c, with c the carry in. */
  function AddWithCarry(x: Word, y: Word, c: Word): Four {
    var d := Wrap(x + y + c);
    var e := Signed(x) + Signed(y) + c;
    Four(Signed(d) < 0, d == 0, x + y + c >= TWO32, !(-TWO31 <= e < TWO31))
  }

  /** A logical result: V is kept and C comes out of the shifter. */
  function Logical(cpsr: bv32, d: Word, carry: bool): Four {
    Four(Signed(d) < 0, d == 0, carry, FlagV(cpsr))
  }

  /** The architecture's flags; `carry` is the shifter's carry out, the old C when nothing is shifted. */
  function ArmFlags(op: Op, cpsr: bv32, x: Word, y: Word, carry: bool): Four {
    match op
    case AND | TST => Logical(cpsr, And(x, y), carry)
    case EOR | TEQ => Logical(cpsr, Xor(x, y), carry)
    case ORR => Logical(cpsr, Or(x, y), carry)
    case MOV => Logical(cpsr, y, carry)
    case BIC => Logical(cpsr, And(x, Not(y)), carry)
    case MVN => Logical(cpsr, Not(y), carry)
    case ADD | CMN => AddWithCarry(x, y, 0)
    case SUB | CMP => AddWithCarry(x, Not(y), 1)
    case RSB => AddWithCarry(Not(x), y, 1)
    case ADC => AddWithCarry(x, y, Carry(cpsr))
    case SBC => AddWithCarry(x, Not(y), Carry(cpsr))
    case RSC => AddWithCarry(Not(x), y, Carry(cpsr))
  }

  /** The operations whose `s` form sets nothing. */
  predicate Silent(op: Op) {
    op == ADC || op == SBC || op == RSC || op == ORR || op == MOV || op == BIC || op == MVN
  }

  /**
   When the flags come out right: the silent operations need the old flags to be the new ones, the
   logical ones a clear carry and a clear old V, sums the sign condition; differences are always right.
   */
  predicate FlagsRight(op: Op, cpsr: bv32, x: Word, y: Word, carry: bool) {
    if Silent(op) then FourOf(cpsr) == ArmFlags(op, cpsr, x, y, carry)
    else if op == AND || op == EOR || op == TST || op == TEQ then !carry && !FlagV(cpsr)
    else if op == ADD || op == CMN then SumFlagRight(x, y)
    else true
  }

  // ---------------------------------------------------------------------------
  // Four flags
  // ---------------------------------------------------------------------------

  function Kept(cpsr: bv32, mask: bv32): bv32 {
    cpsr & mask
  }

  lemma WithOrWithout(cpsr: bv32, flag: bv32)
    ensures WithFlag(cpsr, true, flag) == Join(cpsr, flag) && WithFlag(cpsr, false, flag) == cpsr
  {
  }

  lemma JoinN(cpsr: bv32)
    ensures FlagN(cpsr) ==> Join(Kept(cpsr, 0x0fff_ffff), CPSR_N) == Kept(cpsr, 0x8fff_ffff)
    ensures !FlagN(cpsr) ==> Kept(cpsr, 0x0fff_ffff) == Kept(cpsr, 0x8fff_ffff)
  {
  }

  lemma JoinZ(cpsr: bv32)
    ensures FlagZ(cpsr) ==> Join(Kept(cpsr, 0x8fff_ffff), CPSR_Z) == Kept(cpsr, 0xcfff_ffff)
    ensures !FlagZ(cpsr) ==> Kept(cpsr, 0x8fff_ffff) == Kept(cpsr, 0xcfff_ffff)
  {
  }

  lemma JoinC(cpsr: bv32)
    ensures FlagC(cpsr) ==> Join(Kept(cpsr, 0xcfff_ffff), CPSR_C) == Kept(cpsr, 0xefff_ffff)
    ensures !FlagC(cpsr) ==> Kept(cpsr, 0xcfff_ffff) == Kept(cpsr, 0xefff_ffff)
  {
  }

  lemma JoinV(cpsr: bv32)
    ensures FlagV(cpsr) ==> Join(Kept(cpsr, 0xefff_ffff), CPSR_V) == Kept(cpsr, 0xffff_ffff)
    ensures !FlagV(cpsr) ==> Kept(cpsr, 0xefff_ffff) == Kept(cpsr, 0xffff_ffff)
  {
  }

  lemma KeptAll(cpsr: bv32)
    ensures Kept(cpsr, 0xffff_ffff) == cpsr && Kept(cpsr, 0x0fff_ffff) == ClearFlags(cpsr)
  {
  }

  lemma OwnFlags(cpsr: bv32)
    ensures WithFour(cpsr, FourOf(cpsr)) == cpsr
  {
    hide WithFlag, ClearFlags, Kept, Join, FlagN, FlagZ, FlagC, FlagV;
    KeptAll(cpsr);
    WithOrWithout(Kept(cpsr, 0x0fff_ffff), CPSR_N);
    WithOrWithout(Kept(cpsr, 0x8fff_ffff), CPSR_Z);
    WithOrWithout(Kept(cpsr, 0xcfff_ffff), CPSR_C);
    WithOrWithout(Kept(cpsr, 0xefff_ffff), CPSR_V);
    JoinN(cpsr);
    JoinZ(cpsr);
    JoinC(cpsr);
    JoinV(cpsr);
  }

  lemma FourSet(cpsr: bv32, f: Four)
    ensures FourOf(WithFour(cpsr, f)) == f
  {
    hide SetFlags, FlagN, FlagZ, FlagC, FlagV;
    FlagsSet(cpsr, f.n, f.z, f.c, f.v);
  }

  lemma FourEqual(cpsr: bv32, f: Four, g: Four)
    ensures WithFour(cpsr, f) == WithFour(cpsr, g) <==> f == g
    ensures cpsr == WithFour(cpsr, g) <==> FourOf(cpsr) == g
  {
    hide WithFour, FourOf;
    FourSet(cpsr, f);
    FourSet(cpsr, g);
    OwnFlags(cpsr);
  }

  // ---------------------------------------------------------------------------
  // The interpreter's flags
  // ---------------------------------------------------------------------------

  function SumFour(x: Word, y: Word): Four {
    var d := Wrap(x + y);
    Four(Signed(d) < 0, d == 0, x + y >= TWO32,
         (Signed(x) < 0) != (Signed(y) < 0) && (Signed(d) < 0) != (Signed(x) < 0))
  }

  lemma SumFlags(x: Word, y: Word)
    ensures SumFour(x, y) == AddWithCarry(x, y, 0) <==> SumFlagRight(x, y)
  {
  }

  lemma DifferenceFlags(x: Word, y: Word)
    ensures var e := Signed(x) - Signed(y);
      AddWithCarry(x, Not(y), 1) == Four(Signed(Wrap(x - y)) < 0, x == y, x >= y, !(-TWO31 <= e < TWO31))
    ensures AddWithCarry(Not(y), x, 1) == AddWithCarry(x, Not(y), 1)
  {
    assert Signed(Not(y)) == -1 - Signed(y);
    assert x + Not(y) + 1 == x - y + TWO32;
    assert Wrap(x - y + TWO32) == Wrap(x - y);
  }

  lemma LogicFour(cpsr: bv32, d: Word, carry: bool)
    ensures LogicStatus(cpsr, d) == WithFour(cpsr, Logical(cpsr, d, carry)) <==> !carry && !FlagV(cpsr)
  {
    hide SetFlags, FlagV, FourOf, WithFour;
    LogicIs(cpsr, d);
    FourEqual(cpsr, Four(Signed(d) < 0, d == 0, false, false), Logical(cpsr, d, carry));
  }

  lemma LogicIs(cpsr: bv32, d: Word)
    ensures LogicStatus(cpsr, d) == WithFour(cpsr, Four(Signed(d) < 0, d == 0, false, false))
  {
    hide SetFlags;
  }

  lemma SumIs(cpsr: bv32, x: Word, y: Word)
    ensures SumStatus(cpsr, x, y) == WithFour(cpsr, SumFour(x, y))
  {
    hide SetFlags;
  }

  lemma DifferenceIs(cpsr: bv32, x: Word, y: Word)
    ensures DifferenceStatus(cpsr, x, y) == WithFour(cpsr, AddWithCarry(x, Not(y), 1))
  {
    hide SetFlags, AddWithCarry;
    DifferenceFlags(x, y);
  }

  // ---------------------------------------------------------------------------
  // The departures
  // ---------------------------------------------------------------------------

  /** The flags of an `s` form or of a comparison are the architecture's exactly when `FlagsRight` holds. */
  lemma FlagsDepart(op: Op, cpsr: bv32, x: Word, y: Word, carry: bool)
    ensures DataMeaning(op, true, cpsr, x, y).cpsr == WithFour(cpsr, ArmFlags(op, cpsr, x, y, carry))
      <==> FlagsRight(op, cpsr, x, y, carry)
  {
    hide DataMeaning, ArmFlags, FlagsRight;
    if Silent(op) {
      SilentDeparts(op, cpsr, x, y, carry);
    } else if op == AND || op == EOR || op == TST || op == TEQ {
      LogicDeparts(op, cpsr, x, y, carry);
    } else {
      SumDeparts(op, cpsr, x, y, carry);
    }
  }

  lemma SilentDeparts(op: Op, cpsr: bv32, x: Word, y: Word, carry: bool)
    requires Silent(op)
    ensures DataMeaning(op, true, cpsr, x, y).cpsr == WithFour(cpsr, ArmFlags(op, cpsr, x, y, carry))
      <==> FlagsRight(op, cpsr, x, y, carry)
  {
    hide WithFour, FourOf, ArmFlags;
    SilentKeeps(op, cpsr, x, y);
    hide DataMeaning;
    FourEqual(cpsr, FourOf(cpsr), ArmFlags(op, cpsr, x, y, carry));
  }

  lemma SilentKeeps(op: Op, cpsr: bv32, x: Word, y: Word)
    requires Silent(op)
    ensures DataMeaning(op, true, cpsr, x, y).cpsr == cpsr
  {
  }

  lemma LogicDeparts(op: Op, cpsr: bv32, x: Word, y: Word, carry: bool)
    requires op == AND || op == EOR || op == TST || op == TEQ
    ensures DataMeaning(op, true, cpsr, x, y).cpsr == WithFour(cpsr, ArmFlags(op, cpsr, x, y, carry))
      <==> FlagsRight(op, cpsr, x, y, carry)
  {
    hide LogicStatus, WithFour, Logical, And, Xor, FlagV;
    LogicFour(cpsr, And(x, y), carry);
    LogicFour(cpsr, Xor(x, y), carry);
  }

  lemma SumDeparts(op: Op, cpsr: bv32, x: Word, y: Word, carry: bool)
    requires op == ADD || op == CMN || op == SUB || op == CMP || op == RSB
    ensures DataMeaning(op, true, cpsr, x, y).cpsr == WithFour(cpsr, ArmFlags(op, cpsr, x, y, carry))
      <==> FlagsRight(op, cpsr, x, y, carry)
  {
    hide SumStatus, DifferenceStatus, WithFour, AddWithCarry, SumFour, SumFlagRight, Not;
    FourEqual(cpsr, SumFour(x, y), AddWithCarry(x, y, 0));
    SumIs(cpsr, x, y);
    SumFlags(x, y);
    DifferenceIs(cpsr, x, y);
    DifferenceIs(cpsr, y, x);
    DifferenceFlags(y, x);
    DifferenceFlags(x, y);
  }

  /** MULS sets C and V from the operands, where the architecture keeps both. */
  lemma MultiplyFlagsDepart(cpsr: bv32, d: Word, x: Word, y: Word)
    ensures MultiplyFlags(cpsr, d, x, y) == WithFour(cpsr, Four(Signed(d) < 0, d == 0, FlagC(cpsr), FlagV(cpsr)))
      <==> FlagC(cpsr) == (d < x || d < y) && FlagV(cpsr) == (SignsDiffer(x, y) && SignsDiffer(d, x))
  {
    hide SetFlags, FlagC, FlagV, FourOf, WithFour;
    MultiplyIs(cpsr, d, x, y);
    FourEqual(cpsr, Four(Signed(d) < 0, d == 0, d < x || d < y, SignsDiffer(x, y) && SignsDiffer(d, x)),
              Four(Signed(d) < 0, d == 0, FlagC(cpsr), FlagV(cpsr)));
  }

  lemma MultiplyIs(cpsr: bv32, d: Word, x: Word, y: Word)
    ensures MultiplyFlags(cpsr, d, x, y) ==
      WithFour(cpsr, Four(Signed(d) < 0, d == 0, d < x || d < y, SignsDiffer(x, y) && SignsDiffer(d, x)))
  {
    hide SetFlags;
  }

  /** MOVS of 0 leaves Z clear; TST after a carry clears it. */
  lemma FlagsExample(x: Word)
    ensures DataMeaning(MOV, true, 0, x, 0).cpsr == 0 && ArmFlags(MOV, 0, x, 0, false).z && !FlagZ(0)
    ensures FlagC(CPSR_C) && ArmFlags(TST, CPSR_C, x, 0, FlagC(CPSR_C)).c
    ensures !FlagC(DataMeaning(TST, false, CPSR_C, x, 0).cpsr)
  {
    hide And;
    FlagsSet(CPSR_C, Signed(And(x, 0)) < 0, And(x, 0) == 0, false, false);
  }
}
