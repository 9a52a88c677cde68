/**
 Data processing written with two operands, `op rd, op2`: the first source is not rd but the register
 that op2 names, r0 for a constant. This says exactly when that shows.
 */
module TwoOperandForms {
  import opened BitFacts
  import opened Options
  import opened Words
  import opened Machine
  import opened Asm
  import opened Encoder
  import opened Decode
  import opened Agreement
  import opened Effects
  import Arithmetic
  import Departures

  // ---------------------------------------------------------------------------
  // Words
  // ---------------------------------------------------------------------------

  /** `op rd, op2` for an operation that takes three operands. */
  function TwoOperandWord(cond: bv4, op: Op, setFlags: bool, rd: Reg, op2: Operand2): bv32 {
    AssembleData(cond, setFlags, Opcode(op), rd, Parsed(op2), None)
  }

  /** Written with two operands, the first source register is the one in op2, r0 for a constant. */
  lemma TwoOperands(cond: bv4, op: Op, setFlags: bool, rd: Reg, op2: Operand2)
    requires !IsCompare(op) && !IsMove(op) && OperandEncodable(op2)
    ensures TwoOperandWord(cond, op, setFlags, rd, op2) == Encode(Instr.Data(cond, op, setFlags, rd, Parsed(op2).reg0, op2))
    ensures TwoOperandWord(cond, op, setFlags, rd, op2) == Encode(Instr.Data(cond, op, setFlags, rd, rd, op2))
      <==> Parsed(op2).reg0 == rd
  {
    TwoOperandForm(cond, op, setFlags, rd, op2);
    hide TwoOperandWord, DataWord, Write12BitOperand, Opcode, Encode, Parsed;
    var low := Write12BitOperand(Parsed(op2), true);
    var reg0 := Parsed(op2).reg0;
    EncodeData(cond, op, setFlags, rd, reg0, op2);
    EncodeData(cond, op, setFlags, rd, rd, op2);
    OperandLow(op2, low);
    CompareCodes(op);
    DataRegs(cond, setFlags, Opcode(op), rd, reg0, low, DataWord(cond, setFlags, Opcode(op), rd, reg0, low));
    DataRegs(cond, setFlags, Opcode(op), rd, rd, low, DataWord(cond, setFlags, Opcode(op), rd, rd, low));
  }

  lemma TwoOperandForm(cond: bv4, op: Op, setFlags: bool, rd: Reg, op2: Operand2)
    ensures TwoOperandWord(cond, op, setFlags, rd, op2)
      == DataWord(cond, setFlags, Opcode(op), rd, Parsed(op2).reg0, Write12BitOperand(Parsed(op2), true))
  {
    hide DataWord, Write12BitOperand, Opcode;
  }

  // ---------------------------------------------------------------------------
  // Bitwise operations with constants
  // ---------------------------------------------------------------------------

  const ONES: Word := 0xffff_ffff

  lemma ConstantBits()
    ensures ToBits(0) == 0 && ToBits(0xffff_ffff) == 0xffff_ffff
  {
    hide Nat;
    Masks32();
    ToBitsToInt(0xffff_ffff);
  }

  function Differ(a: bv32, b: bv32): bv32 { a ^ b }

  lemma BitsWithZero(b: bv32)
    ensures Meet(0, b) == 0 && Meet(b, 0) == 0 && Join(0, b) == b && Join(b, 0) == b
    ensures Differ(0, b) == b && Differ(b, 0) == b
  {
  }

  lemma BitsWithOnes(b: bv32)
    ensures Meet(0xffff_ffff, b) == b && Meet(b, 0xffff_ffff) == b && Join(0xffff_ffff, b) == 0xffff_ffff
  {
  }

  lemma BitsAndRest(b: bv32)
    ensures Meet(b, Differ(0xffff_ffff, b)) == 0
  {
  }

  lemma BitsOrRest(b: bv32)
    ensures Join(b, Differ(0xffff_ffff, b)) == 0xffff_ffff
  {
  }

  lemma Bitwise(x: Word, y: Word)
    ensures And(x, y) == Nat(Meet(ToBits(x), ToBits(y)))
    ensures Or(x, y) == Nat(Join(ToBits(x), ToBits(y)))
    ensures Xor(x, y) == Nat(Differ(ToBits(x), ToBits(y)))
  {
    hide Nat, ToBits, And, Or, Meet, Join;
    Arithmetic.OrAndNames(x, y);
  }

  lemma ZeroLaws(y: Word)
    ensures And(0, y) == 0 && And(y, 0) == 0 && Or(y, 0) == y && Or(0, y) == y && Xor(y, 0) == y && Xor(0, y) == y
  {
    hide *;
    Bitwise(0, y);
    Bitwise(y, 0);
    ConstantBits();
    BitsWithZero(ToBits(y));
    ToIntToBits(y);
    NatOfZero();
  }

  lemma OnesLaws(y: Word)
    ensures And(0xffff_ffff, y) == y && And(y, 0xffff_ffff) == y
    ensures Or(0xffff_ffff, y) == 0xffff_ffff && Xor(0xffff_ffff, y) == Not(y)
  {
    hide *;
    Bitwise(0xffff_ffff, y);
    Bitwise(y, 0xffff_ffff);
    ConstantBits();
    BitsWithOnes(ToBits(y));
    BitsAndRest(ToBits(y));
    BitsOrRest(ToBits(y));
    ToIntToBits(y);
    Masks32();
    JoinAdd(ToBits(y), Differ(0xffff_ffff, ToBits(y)));
    NotIs(y);
  }

  lemma NotIs(y: Word)
    ensures Not(y) == 0xffff_ffff - y
  {
  }

  /** 0xffffffff is no even rotation of an 8-bit value. */
  lemma {:induction false} OnesNeverFit(k: nat)
    requires k <= 16
    ensures PackFrom(Packing(0xffff_ffff, k)).value == 0xffff_ffff
    decreases 16 - k
  {
    if k < 16 {
      OnesNeverFit(k + 1);
    }
  }

  lemma PackableNotOnes(v: bv32)
    requires Packable(v)
    ensures ToInt(v) != ONES
  {
    hide Nat, ToBits;
    OnesNeverFit(0);
    Masks32();
    ToBitsToInt(v);
    ToBitsToInt(0xffff_ffff);
  }

  // ---------------------------------------------------------------------------
  // Meanings
  // ---------------------------------------------------------------------------

  /** A register shift by less than 32, as C demands. */
  predicate OperandDefined(r: Regs, op2: Operand2) {
    op2.ByReg? ==> Get(r, op2.rs) < 32
  }

  /** A state in which an instruction executes: r15 stands two words past it, the location one. */
  predicate Fetched(s: State) {
    Get(s.r, PC) == Wrap(s.loc + 4)
  }

  /** States that no later step tells apart, since r15 is set afresh. */
  predicate Alike(s: State, t: State) {
    s.(r := Put(s.r, PC, 0)) == t.(r := Put(t.r, PC, 0))
  }

  /** The instruction as assembled and the one that was meant do the same in this state. */
  predicate SameMeaning(cond: bv4, op: Op, setFlags: bool, rd: Reg, op2: Operand2, s: State, host: Host) {
    Alike(Exec(Instr.Data(cond, op, setFlags, rd, Parsed(op2).reg0, op2), 0, s, host),
          Exec(Instr.Data(cond, op, setFlags, rd, rd, op2), 0, s, host))
  }

  /** The operations written with three operands whose `s` form sets flags. */
  predicate SetsFlags(op: Op) {
    op == AND || op == EOR || op == SUB || op == RSB || op == ADD
  }

  /** Operands that are zero in every state: the constant 0, and a register shifted right by itself. */
  predicate ZeroOperand(op2: Operand2) {
    match op2
    case Imm(magnitude, _) => magnitude == 0
    case ByReg(rm, kind, rs) => rm == rs && kind != LSL
    case _ => false
  }

  lemma SameIs(cond: bv4, op: Op, setFlags: bool, rd: Reg, op2: Operand2, s: State, host: Host)
    ensures var y := OperandValue(s.r, op2);
      SameMeaning(cond, op, setFlags, rd, op2, s, host) <==>
      Alike(ExecData(op, setFlags, rd, Get(s.r, Parsed(op2).reg0), y, s), ExecData(op, setFlags, rd, Get(s.r, rd), y, s))
  {
    hide ExecData, OperandValue, Get, Parsed, Alike;
  }

  /** The two results differ, and so do the flags where they are set. */
  predicate Differs(op: Op, setFlags: bool, cpsr: bv32, x: Word, x': Word, y: Word) {
    var m, m' := DataMeaning(op, setFlags, cpsr, x, y), DataMeaning(op, setFlags, cpsr, x', y);
    m.value != m'.value && (setFlags && SetsFlags(op) ==> m.cpsr != m'.cpsr)
  }

  lemma DifferenceShows(op: Op, setFlags: bool, rd: Reg, x: Word, x': Word, y: Word, s: State)
    requires !IsCompare(op) && Differs(op, setFlags, s.cpsr, x, x', y)
    requires rd == PC ==> setFlags && SetsFlags(op)
    ensures !Alike(ExecData(op, setFlags, rd, x, y, s), ExecData(op, setFlags, rd, x', y, s))
  {
    hide DataMeaning, Get, Put;
    DataWrites(op, setFlags, s.cpsr, x, y);
    DataWrites(op, setFlags, s.cpsr, x', y);
    var v, v' := DataMeaning(op, setFlags, s.cpsr, x, y).value, DataMeaning(op, setFlags, s.cpsr, x', y).value;
    PutGet(s.r, rd, v, rd);
    PutGet(s.r, rd, v', rd);
    PutGet(Put(s.r, rd, v), PC, 0, rd);
    PutGet(Put(s.r, rd, v'), PC, 0, rd);
  }

  /** Without flags, an operation whose destination is r15 does nothing that shows. */
  lemma QuietPc(op: Op, setFlags: bool, x: Word, x': Word, y: Word, s: State)
    requires !IsCompare(op) && !IsMove(op) && !(setFlags && SetsFlags(op))
    ensures Alike(ExecData(op, setFlags, PC, x, y, s), ExecData(op, setFlags, PC, x', y, s))
  {
    QuietFlags(op, setFlags, s.cpsr, x, y);
    QuietFlags(op, setFlags, s.cpsr, x', y);
    PutOver(s.r, DataMeaning(op, setFlags, s.cpsr, x, y).value);
    PutOver(s.r, DataMeaning(op, setFlags, s.cpsr, x', y).value);
    hide DataMeaning, Put;
  }

  lemma PutOver(r: Regs, v: Word)
    ensures Put(Put(r, PC, v), PC, 0) == Put(r, PC, 0)
  {
  }

  lemma QuietFlags(op: Op, setFlags: bool, cpsr: bv32, x: Word, y: Word)
    requires !IsCompare(op) && !IsMove(op) && !(setFlags && SetsFlags(op))
    ensures DataMeaning(op, setFlags, cpsr, x, y).writes && DataMeaning(op, setFlags, cpsr, x, y).cpsr == cpsr
  {
  }

  lemma DataWrites(op: Op, setFlags: bool, cpsr: bv32, x: Word, y: Word)
    requires !IsCompare(op)
    ensures DataMeaning(op, setFlags, cpsr, x, y).writes
  {
  }

  lemma WrapDiffers(a: int, b: int)
    requires -TWO32 < a - b < TWO32 && a != b
    ensures Wrap(a) != Wrap(b)
  {
  }

  predicate IsBitwise(op: Op) {
    op == AND || op == EOR || op == ORR || op == BIC
  }

  /** An operation that adds or subtracts tells any two first operands apart. */
  lemma SumShows(op: Op, setFlags: bool, cpsr: bv32, x: Word, x': Word, y: Word)
    requires !IsCompare(op) && !IsMove(op) && !IsBitwise(op) && x != x'
    ensures DataMeaning(op, setFlags, cpsr, x, y).value != DataMeaning(op, setFlags, cpsr, x', y).value
  {
    hide And, Or, Xor, Carry, LogicStatus, SumStatus, DifferenceStatus, Wrap;
    WrapDiffers(x - y, x' - y);
    WrapDiffers(y - x, y - x');
    WrapDiffers(x + y, x' + y);
    WrapDiffers(x + y + Carry(cpsr), x' + y + Carry(cpsr));
    WrapDiffers(x - y + Carry(cpsr), x' - y + Carry(cpsr));
  }

  lemma BitwiseValue(op: Op, setFlags: bool, cpsr: bv32, x: Word, y: Word)
    requires IsBitwise(op)
    ensures DataMeaning(op, setFlags, cpsr, x, y).value ==
      if op == AND then And(x, y) else if op == EOR then Xor(x, y) else if op == ORR then Or(x, y) else And(x, Not(y))
  {
    hide And, Or, Xor, Not, LogicStatus;
  }

  lemma LogicFlag(cpsr: bv32, d: Word)
    ensures FlagZ(LogicStatus(cpsr, d)) == (d == 0) && FlagN(LogicStatus(cpsr, d)) == (Signed(d) < 0)
  {
    hide SetFlags, FlagN, FlagZ, FlagC, FlagV;
    FlagsSet(cpsr, Signed(d) < 0, d == 0, false, false);
  }

  lemma SumFlag(cpsr: bv32, x: Word, y: Word)
    ensures FlagZ(SumStatus(cpsr, x, y)) == (Wrap(x + y) == 0) && FlagC(SumStatus(cpsr, x, y)) == (x + y >= TWO32)
  {
    hide SetFlags, FlagN, FlagZ, FlagC, FlagV;
    var d := Wrap(x + y);
    FlagsSet(cpsr, Signed(d) < 0, d == 0, x + y >= TWO32,
             (Signed(x) < 0) != (Signed(y) < 0) && (Signed(d) < 0) != (Signed(x) < 0));
  }

  lemma DifferenceFlag(cpsr: bv32, x: Word, y: Word)
    ensures FlagZ(DifferenceStatus(cpsr, x, y)) == (x == y) && FlagC(DifferenceStatus(cpsr, x, y)) == (x >= y)
  {
    hide SetFlags, FlagN, FlagZ, FlagC, FlagV;
    var e := Signed(x) - Signed(y);
    FlagsSet(cpsr, Signed(Wrap(x - y)) < 0, x == y, x >= y, !(-TWO31 <= e < TWO31));
  }

  /** The flags an operation sets. */
  lemma StatusOf(op: Op, cpsr: bv32, x: Word, y: Word)
    requires SetsFlags(op)
    ensures DataMeaning(op, true, cpsr, x, y).cpsr ==
      if op == AND then LogicStatus(cpsr, And(x, y)) else if op == EOR then LogicStatus(cpsr, Xor(x, y))
      else if op == SUB then DifferenceStatus(cpsr, x, y) else if op == RSB then DifferenceStatus(cpsr, y, x)
      else SumStatus(cpsr, x, y)
  {
    hide And, Xor, LogicStatus, SumStatus, DifferenceStatus;
  }

  /** Z, N or C tell the two apart. */
  lemma FlagsTell(op: Op, cpsr: bv32, x: Word, x': Word, y: Word)
    requires SetsFlags(op)
    requires op == AND ==> (And(x, y) == 0) != (And(x', y) == 0)
    requires op == EOR ==> (Xor(x, y) == 0) != (Xor(x', y) == 0) || (Signed(Xor(x, y)) < 0) != (Signed(Xor(x', y)) < 0)
    requires op == SUB ==> (x == y) != (x' == y) || (x >= y) != (x' >= y)
    requires op == RSB ==> (x == y) != (x' == y) || (y >= x) != (y >= x')
    requires op == ADD ==> (Wrap(x + y) == 0) != (Wrap(x' + y) == 0) || (x + y >= TWO32) != (x' + y >= TWO32)
    ensures DataMeaning(op, true, cpsr, x, y).cpsr != DataMeaning(op, true, cpsr, x', y).cpsr
  {
    hide DataMeaning, And, Xor, LogicStatus, SumStatus, DifferenceStatus, FlagN, FlagZ, FlagC, Wrap;
    StatusOf(op, cpsr, x, y);
    StatusOf(op, cpsr, x', y);
    LogicFlag(cpsr, And(x, y));
    LogicFlag(cpsr, And(x', y));
    LogicFlag(cpsr, Xor(x, y));
    LogicFlag(cpsr, Xor(x', y));
    SumFlag(cpsr, x, y);
    SumFlag(cpsr, x', y);
    DifferenceFlag(cpsr, x, y);
    DifferenceFlag(cpsr, x', y);
    DifferenceFlag(cpsr, y, x);
    DifferenceFlag(cpsr, y, x');
  }

  lemma DiffersFrom(op: Op, setFlags: bool, cpsr: bv32, x: Word, x': Word, y: Word)
    requires DataMeaning(op, setFlags, cpsr, x, y).value != DataMeaning(op, setFlags, cpsr, x', y).value
    requires SetsFlags(op) ==> DataMeaning(op, true, cpsr, x, y).cpsr != DataMeaning(op, true, cpsr, x', y).cpsr
    ensures Differs(op, setFlags, cpsr, x, x', y)
  {
    hide DataMeaning;
  }

  /** With a second operand that is neither 0 nor all ones, 0 and all ones give different results. */
  lemma ConstantShows(op: Op, setFlags: bool, cpsr: bv32, y: Word)
    requires !IsCompare(op) && !IsMove(op) && y != ONES && (op == AND ==> y != 0)
    ensures Differs(op, setFlags, cpsr, 0, ONES, y)
  {
    hide DataMeaning, And, Or, Xor;
    ZeroLaws(y);
    OnesLaws(y);
    if IsBitwise(op) {
      BitwiseValue(op, setFlags, cpsr, 0, y);
      BitwiseValue(op, setFlags, cpsr, ONES, y);
      ZeroLaws(Not(y));
      OnesLaws(Not(y));
    } else {
      SumShows(op, setFlags, cpsr, 0, ONES, y);
    }
    if SetsFlags(op) {
      FlagsTell(op, cpsr, 0, ONES, y);
    }
    DiffersFrom(op, setFlags, cpsr, 0, ONES, y);
  }

  /** With a second operand of 0, every operation but AND tells 0 from 1. */
  lemma ZeroShows(op: Op, setFlags: bool, cpsr: bv32)
    requires !IsCompare(op) && !IsMove(op) && op != AND
    ensures Differs(op, setFlags, cpsr, 0, 1, 0)
  {
    hide DataMeaning, And, Or, Xor;
    ZeroLaws(0);
    ZeroLaws(1);
    if IsBitwise(op) {
      BitwiseValue(op, setFlags, cpsr, 0, 0);
      BitwiseValue(op, setFlags, cpsr, 1, 0);
      OnesLaws(0);
      OnesLaws(1);
    } else {
      SumShows(op, setFlags, cpsr, 0, 1, 0);
    }
    if SetsFlags(op) {
      FlagsTell(op, cpsr, 0, 1, 0);
    }
    DiffersFrom(op, setFlags, cpsr, 0, 1, 0);
  }

  lemma AndShows(setFlags: bool, cpsr: bv32, x: Word, x': Word, y: Word)
    requires (And(x, y) == 0) != (And(x', y) == 0)
    ensures Differs(AND, setFlags, cpsr, x, x', y)
  {
    hide DataMeaning, And;
    BitwiseValue(AND, setFlags, cpsr, x, y);
    BitwiseValue(AND, setFlags, cpsr, x', y);
    FlagsTell(AND, cpsr, x, x', y);
    DiffersFrom(AND, setFlags, cpsr, x, x', y);
  }

  lemma {:induction false} PowAbove(x: nat)
    ensures x < Pow2(x)
    decreases x
  {
    if x > 0 {
      PowAbove(x - 1);
    }
  }

  lemma SelfShift(kind: Shift, x: Word)
    requires x < 32 && kind != LSL
    ensures Shifted(ShiftCode(kind), x, x) == 0
  {
    hide Pow2;
    PowAbove(x);
    DivModUnique(x, Pow2(x), 0, x);
    ShiftedRight(kind, x, x);
  }

  /** For a value below 2^31 every right shift is a division. */
  lemma ShiftedRight(kind: Shift, x: Word, amount: nat)
    requires x < TWO31 && kind != LSL
    ensures Shifted(ShiftCode(kind), x, amount) == x / Pow2(amount)
  {
    hide Pow2;
    DivLe(x, Pow2(amount));
    WrapWord(x / Pow2(amount));
  }

  lemma ZeroValue(r: Regs, op2: Operand2)
    requires ZeroOperand(op2) && OperandDefined(r, op2)
    ensures OperandValue(r, op2) == 0
  {
    hide Shifted;
    match op2
    case Imm(magnitude, negative) => ZeroMagnitude(negative);
    case ByReg(rm, kind, rs) => SelfShift(kind, Get(r, rm));
  }

  lemma ZeroMagnitude(negative: bool)
    ensures ToInt(ImmValue(0, negative)) == 0
  {
  }

  lemma ShiftedZero(kind: Shift, amount: nat)
    ensures Shifted(ShiftCode(kind), 0, amount) == 0
  {
    assert 0 / Pow2(amount) == 0 && 0 * Pow2(amount) == 0;
    hide Pow2;
  }

  lemma OnesTimes(p: nat)
    requires 0 < p < TWO32
    ensures Wrap(ONES * p) == TWO32 - p
  {
    assert ONES * p == (p - 1) * TWO32 + (TWO32 - p);
  }

  lemma OnesDivided(p: nat)
    requires 0 < p < TWO32
    ensures ONES / p != 0
  {
    assert ONES == p * (ONES / p) + ONES % p;
  }

  lemma MinusOneDivided(p: nat)
    requires 0 < p
    ensures -1 / p == -1
  {
  }

  lemma ShiftedOnes(kind: Shift, amount: nat)
    requires amount < 32
    ensures Shifted(ShiftCode(kind), ONES, amount) != 0
  {
    hide Pow2, Wrap;
    PowBelow(amount);
    OnesTimes(Pow2(amount));
    OnesDivided(Pow2(amount));
    MinusOneDivided(Pow2(amount));
    WrapMinusOne();
  }

  lemma WrapMinusOne()
    ensures Wrap(-1) == ONES && Signed(ONES) == -1
  {
  }

  lemma {:induction false} PowBelow(k: nat)
    requires k < 32
    ensures Pow2(k) < 0x1_0000_0000
    decreases k
  {
    hide Nat;
    Masks32();
    PowMono(k, 31);
  }

  lemma {:induction false} PowMono(j: nat, k: nat)
    requires j <= k
    ensures Pow2(j) <= Pow2(k)
    decreases k
  {
    if j < k {
      PowMono(j, k - 1);
    }
  }

  // ---------------------------------------------------------------------------
  // States that tell the two apart
  // ---------------------------------------------------------------------------

  function AllZero(): Regs {
    seq(16, _ => 0)
  }

  lemma PutGet(r: Regs, x: Reg, v: Word, z: Reg)
    ensures Get(Put(r, x, v), z) == if z == x then v else Get(r, z)
  {
  }

  /** A fetched state in which register x holds a, register y holds b, the others 0. */
  function Two(x: Reg, a: Word, y: Reg, b: Word): State
    requires x != y
  {
    var r := Put(Put(AllZero(), x, a), y, b);
    State(r, [], Wrap(Get(r, PC) - 4), 0)
  }

  lemma TwoFetched(x: Reg, a: Word, y: Reg, b: Word)
    requires x != y
    ensures Fetched(Two(x, a, y, b))
  {
    hide Get, Put;
    var w: int := Get(Put(Put(AllZero(), x, a), y, b), PC);
    WrapAdd(w - 4, 4);
    WrapWord(w);
  }

  lemma TwoHolds(x: Reg, a: Word, y: Reg, b: Word, z: Reg)
    requires x != y
    ensures Get(Two(x, a, y, b).r, z) == if z == x then a else if z == y then b else 0
  {
    hide Put;
    PutGet(AllZero(), x, a, z);
    PutGet(Put(AllZero(), x, a), y, b, z);
  }

  function Telling(op: Op, rd: Reg, op2: Operand2): State
    requires Parsed(op2).reg0 != rd
  {
    var reg0 := Parsed(op2).reg0;
    if op2.Imm? then Two(reg0, 0, rd, ONES)
    else if op != AND then Two(reg0, 0, rd, 1)
    else if op2.ByReg? && op2.rm == op2.rs then Two(reg0, 1, rd, 2)
    else Two(reg0, ONES, rd, 0)
  }

  lemma AndTwo()
    ensures And(1, 2) == 0 && And(2, 2) == 2
  {
    assert ToBits(1) == 1 && ToBits(2) == 2 && Nat(2) == 2;
  }

  lemma ImmTold(op: Op, setFlags: bool, rd: Reg, op2: Operand2)
    requires !IsCompare(op) && !IsMove(op) && OperandEncodable(op2) && op2.Imm? && Parsed(op2).reg0 != rd
    requires !(op == AND && ZeroOperand(op2))
    ensures Told(op, setFlags, rd, op2, Telling(op, rd, op2))
  {
    var v := ImmValue(op2.magnitude, op2.negative);
    TwoHolds(0, 0, rd, ONES, 0);
    TwoHolds(0, 0, rd, ONES, rd);
    PackableNotOnes(v);
    if op2.magnitude != 0 {
      MagnitudeShows(op2.magnitude, op2.negative);
      NatPos(v);
    }
    hide Differs, Packable, Nat, ImmValue, Two;
    ConstantShows(op, setFlags, 0, ToInt(v));
  }

  lemma MagnitudeShows(magnitude: bv32, negative: bool)
    requires magnitude != 0
    ensures ImmValue(magnitude, negative) != 0
  {
  }

  predicate Told(op: Op, setFlags: bool, rd: Reg, op2: Operand2, s: State) {
    Differs(op, setFlags, s.cpsr, Get(s.r, Parsed(op2).reg0), Get(s.r, rd), OperandValue(s.r, op2))
  }

  /** A register operand in a state where its register holds 0. */
  lemma RegZero(r: Regs, op2: RegOperand)
    requires Get(r, Parsed(op2).reg0) == 0
    ensures OperandValue(r, op2) == 0
  {
    hide Shifted, Get;
    match op2
    case Plain(rm) =>
    case ByConst(rm, kind, amount) => ShiftedZero(kind, ToInt(Wide5(amount)));
    case ByReg(rm, kind, rs) => ShiftedZero(kind, Get(r, rs));
  }

  lemma RegTold(op: Op, setFlags: bool, rd: Reg, op2: RegOperand)
    requires !IsCompare(op) && !IsMove(op) && op != AND && Parsed(op2).reg0 != rd
    ensures Told(op, setFlags, rd, op2, Telling(op, rd, op2)) && OperandDefined(Telling(op, rd, op2).r, op2)
  {
    hide Differs, Two, Get, OperandValue;
    var reg0 := Parsed(op2).reg0;
    TwoHolds(reg0, 0, rd, 1, reg0);
    TwoHolds(reg0, 0, rd, 1, rd);
    if op2.ByReg? {
      TwoHolds(reg0, 0, rd, 1, op2.rs);
    }
    RegZero(Telling(op, rd, op2).r, op2);
    ZeroShows(op, setFlags, Telling(op, rd, op2).cpsr);
  }

  lemma SmallAmount(amount: bv5)
    ensures ToInt(Wide5(amount)) < 32
  {
    hide Nat;
    Masks8();
    FiveBits(amount);
    MaskMod(Wide5(amount), 0x1f, 5);
  }

  lemma FiveBits(amount: bv5)
    ensures Wide5(amount) & 0x1f == Wide5(amount)
  {
  }

  /** A register operand, not shifted by itself, in a state where its register is all ones and the rest 0. */
  lemma RegOnes(r: Regs, op2: RegOperand)
    requires Get(r, Parsed(op2).reg0) == ONES && (op2.ByReg? ==> Get(r, op2.rs) == 0)
    ensures OperandValue(r, op2) != 0
  {
    hide Shifted, Get, ToInt;
    match op2
    case Plain(rm) =>
    case ByConst(rm, kind, amount) =>
      SmallAmount(amount);
      ShiftedOnes(kind, ToInt(Wide5(amount)));
    case ByReg(rm, kind, rs) => ShiftedOnes(kind, 0);
  }

  lemma AndTold(setFlags: bool, rd: Reg, op2: RegOperand)
    requires Parsed(op2).reg0 != rd && !ZeroOperand(op2)
    ensures Told(AND, setFlags, rd, op2, Telling(AND, rd, op2)) && OperandDefined(Telling(AND, rd, op2).r, op2)
  {
    hide Differs, Two, Get, OperandValue, And;
    var reg0, s := Parsed(op2).reg0, Telling(AND, rd, op2);
    if op2.ByReg? && op2.rm == op2.rs {
      TwoHolds(reg0, 1, rd, 2, reg0);
      TwoHolds(reg0, 1, rd, 2, rd);
      OneByOne(s.r, op2);
      AndTwo();
    } else {
      TwoHolds(reg0, ONES, rd, 0, reg0);
      TwoHolds(reg0, ONES, rd, 0, rd);
      if op2.ByReg? {
        TwoHolds(reg0, ONES, rd, 0, op2.rs);
      }
      RegOnes(s.r, op2);
      OnesLaws(OperandValue(s.r, op2));
      ZeroLaws(OperandValue(s.r, op2));
    }
    AndShows(setFlags, s.cpsr, Get(s.r, reg0), Get(s.r, rd), OperandValue(s.r, op2));
  }

  lemma OneByOne(r: Regs, op2: RegOperand)
    requires op2.ByReg? && op2.kind == LSL && Get(r, op2.rm) == 1 && Get(r, op2.rs) == 1
    ensures OperandValue(r, op2) == 2
  {
    assert Pow2(1) == 2;
  }

  // ---------------------------------------------------------------------------
  // The condition
  // ---------------------------------------------------------------------------

  lemma ToldApart(op: Op, setFlags: bool, rd: Reg, op2: Operand2)
    requires !IsCompare(op) && !IsMove(op) && OperandEncodable(op2) && Parsed(op2).reg0 != rd
    requires !(op == AND && ZeroOperand(op2))
    ensures var s := Telling(op, rd, op2);
      Told(op, setFlags, rd, op2, s) && OperandDefined(s.r, op2) && Fetched(s)
  {
    hide Told, OperandValue, Get, OperandEncodable, ZeroOperand, Parsed, Fetched, Two;
    var reg0 := Parsed(op2).reg0;
    TwoFetched(reg0, 0, rd, ONES);
    TwoFetched(reg0, 0, rd, 1);
    TwoFetched(reg0, 1, rd, 2);
    TwoFetched(reg0, ONES, rd, 0);
    if op2.Imm? {
      ImmTold(op, setFlags, rd, op2);
    } else if op == AND {
      AndTold(setFlags, rd, op2);
    } else {
      RegTold(op, setFlags, rd, op2);
    }
  }

  /**
   `op rd, op2` does what `op rd, rd, op2` does, in every state and as far as any later step can see,
   exactly when op2 names rd, or the operation is AND and op2 is zero in every state, or rd is r15 and no
   flags are set.
   */
  lemma TwoOperandsMean(cond: bv4, op: Op, setFlags: bool, rd: Reg, op2: Operand2, host: Host)
    requires !IsCompare(op) && !IsMove(op) && OperandEncodable(op2)
    ensures (forall s: State :: Fetched(s) && OperandDefined(s.r, op2) ==> SameMeaning(cond, op, setFlags, rd, op2, s, host))
      <==> Parsed(op2).reg0 == rd || (op == AND && ZeroOperand(op2)) || (rd == PC && !(setFlags && SetsFlags(op)))
  {
    hide Differs, Telling, OperandValue, Get, OperandEncodable, ZeroOperand, Parsed, ExecData, OperandDefined;
    hide SameMeaning, SetsFlags, Fetched, Alike;
    var reg0 := Parsed(op2).reg0;
    if reg0 == rd || (op == AND && ZeroOperand(op2)) || (rd == PC && !(setFlags && SetsFlags(op))) {
      forall s: State | Fetched(s) && OperandDefined(s.r, op2)
        ensures SameMeaning(cond, op, setFlags, rd, op2, s, host)
      {
        SameIs(cond, op, setFlags, rd, op2, s, host);
        AlikeSelf(ExecData(op, setFlags, rd, Get(s.r, rd), OperandValue(s.r, op2), s));
        if reg0 == rd {
        } else if op == AND && ZeroOperand(op2) {
          ZeroValue(s.r, op2);
          AndZeroSame(setFlags, rd, Get(s.r, reg0), Get(s.r, rd), s);
        } else {
          QuietPc(op, setFlags, Get(s.r, reg0), Get(s.r, rd), OperandValue(s.r, op2), s);
        }
      }
    } else {
      var s := Telling(op, rd, op2);
      ToldApart(op, setFlags, rd, op2);
      SameIs(cond, op, setFlags, rd, op2, s, host);
      DifferenceShows(op, setFlags, rd, Get(s.r, reg0), Get(s.r, rd), OperandValue(s.r, op2), s);
    }
  }

  /** Alike states take the same next step. */
  lemma AlikeUnseen(s: State, t: State, host: Host)
    requires Alike(s, t)
    ensures Step(s, host) == Step(t, host)
  {
    hide Step, Put;
    Departures.PcRefreshed(s, 0, host);
    Departures.PcRefreshed(t, 0, host);
  }

  lemma AlikeSelf(s: State)
    ensures Alike(s, s)
  {
  }

  lemma AndZeroSame(setFlags: bool, rd: Reg, x: Word, x': Word, s: State)
    ensures ExecData(AND, setFlags, rd, x, 0, s) == ExecData(AND, setFlags, rd, x', 0, s)
  {
    hide And, LogicStatus, Put;
    ZeroLaws(x);
    ZeroLaws(x');
  }
}
