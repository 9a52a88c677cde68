/**
 Decoding undoes encoding: the word assembled for an instruction is claimed by the mask meant for it
 and by no earlier one, every field comes back, and executing it is the instruction's meaning.

 The facts about bits are one-line lemmas; the lemmas that combine them hide the definitions of the
 bit-level functions.
 */
module Decode {
  import opened Words
  import opened Machine
  import opened Asm
  import opened Encoder
  import PackingProof

  function Low12(i: bv32): bv32 { i & 0xfff }
  function ShiftField(i: bv32): bv32 { (i >> 7) & 0x1f }
  predicate Within12(w: bv32) { w & 0xfff == w }

  // ---------------------------------------------------------------------------
  // Operand fields
  // ---------------------------------------------------------------------------

  lemma PlainFields(rm: Reg, i: bv32)
    requires Low12(i) == RegBits(rm)
    ensures Reg0(i) == rm && ShiftType(i) == 0 && !Bit4(i) && ShiftField(i) == 0
  {
  }

  lemma ConstShiftFields(rm: Reg, kind: bv2, amount: bv5, i: bv32)
    requires Low12(i) == ConstShiftBits(rm, kind, Wide5(amount))
    ensures Reg0(i) == rm && ShiftType(i) == kind && !Bit4(i) && ShiftField(i) == Wide5(amount)
  {
  }

  lemma RegShiftFields(rm: Reg, kind: bv2, rs: Reg, i: bv32)
    requires Low12(i) == RegShiftBits(rm, kind, rs)
    ensures Reg0(i) == rm && ShiftType(i) == kind && Bit4(i) && Reg8(i) == rs
  {
  }

  lemma ShiftByZero(x: Word)
    ensures Shifted(0, x, 0) == x
  {
    assert Pow2(0) == 1;
  }

  lemma CalcShiftIs(r: Regs, i: bv32)
    ensures CalcShift(r, i) ==
      Shifted(ShiftType(i), Get(r, Reg0(i)), if Bit4(i) then Get(r, Reg8(i)) else ToInt(ShiftField(i)))
  {
    hide Shifted, ShiftType, Reg0, Reg8, Bit4, ToInt, Nat;
  }

  lemma ToIntZero()
    ensures ToInt(0) == 0
  {
  }

  /** A register operand is read back from the low twelve bits, whatever the others are. */
  lemma RegOperandRead(r: Regs, op: RegOperand, o: Operand, pack: bool, i: bv32)
    requires o == Parsed(op).(negate := o.negate) && Low12(i) == Write12BitOperand(o, pack)
    ensures CalcShift(r, i) == RegValue(r, op)
  {
    hide CalcShift, Shifted, ShiftType, Reg0, Reg8, Bit4, ToInt, Nat, ShiftField, Low12, RegBits, ConstShiftBits;
    hide RegShiftBits, ShiftCode, Wide5;
    CalcShiftIs(r, i);
    match op
    case Plain(rm) =>
      PlainFields(rm, i);
      ToIntZero();
      ShiftByZero(Get(r, rm));
    case ByConst(rm, kind, amount) =>
      ConstShiftFields(rm, ShiftCode(kind), amount, i);
    case ByReg(rm, kind, rs) =>
      RegShiftFields(rm, ShiftCode(kind), rs, i);
  }

  /** Register operands use twelve bits and never look like a multiply or halfword transfer. */
  predicate PlainLow(w: bv32) {
    w & 0xfff == w && w & 0x90 != 0x90
  }

  lemma PlainNarrow(rm: Reg)
    ensures PlainLow(RegBits(rm))
  {
  }

  lemma ConstShiftNarrow(rm: Reg, kind: bv2, amount: bv32)
    ensures PlainLow(ConstShiftBits(rm, kind, amount))
  {
  }

  lemma RegShiftNarrow(rm: Reg, kind: bv2, rs: Reg)
    ensures PlainLow(RegShiftBits(rm, kind, rs))
  {
  }

  lemma RegOperandNarrow(op: RegOperand, o: Operand, pack: bool)
    requires o == Parsed(op).(negate := o.negate)
    ensures PlainLow(Write12BitOperand(o, pack))
  {
    hide PlainLow, RegBits, ConstShiftBits, RegShiftBits, ShiftCode, Wide5;
    match op
    case Plain(rm) => PlainNarrow(rm);
    case ByConst(rm, kind, amount) => ConstShiftNarrow(rm, ShiftCode(kind), Wide5(amount));
    case ByReg(rm, kind, rs) => RegShiftNarrow(rm, ShiftCode(kind), rs);
  }

  // ---------------------------------------------------------------------------
  // Data processing
  // ---------------------------------------------------------------------------

  predicate OperandEncodable(op2: Operand2) {
    op2.Imm? ==> Packable(ImmValue(op2.magnitude, op2.negative))
  }

  /** The shape of the low part of a data-processing word: bit 25 is the immediate flag. */
  predicate DataLow(low: bv32) {
    low & 0x0200_0fff == low && low & 0x0200_0090 != 0x90
  }

  predicate ImmediateFlag(low: bv32) {
    low & 0x0200_0000 != 0
  }

  lemma ImmediateLow(w: bv32)
    requires Within12(w)
    ensures DataLow(ImmediateBits(w)) && ImmediateFlag(ImmediateBits(w))
  {
  }

  lemma ImmediateLow12(w: bv32)
    requires Within12(w)
    ensures Low12(ImmediateBits(w)) == w
  {
  }

  lemma PlainIsDataLow(w: bv32)
    requires PlainLow(w)
    ensures DataLow(w) && !ImmediateFlag(w) && Low12(w) == w
  {
  }

  lemma OperandLow(op2: Operand2, low: bv32)
    requires OperandEncodable(op2) && low == Write12BitOperand(Parsed(op2), true)
    ensures DataLow(low) && (ImmediateFlag(low) <==> op2.Imm?)
  {
    hide PackImmediate, CalcImmediate, Packable, ImmValue, DataLow, ImmediateFlag, PlainLow, ImmediateBits, RegBits;
    hide ConstShiftBits, RegShiftBits, ShiftCode;
    if op2.Imm? {
      PackingProof.PackRoundTrip(op2.magnitude, op2.negative);
      ImmediateLow(PackImmediate(op2.magnitude, op2.negative));
    } else {
      RegOperandNarrow(op2, Parsed(op2), true);
      PlainIsDataLow(low);
    }
  }

  lemma ImmediateFields(w: bv32, i: bv32)
    requires Within12(w) && Low12(i) == w
    ensures i & 0xff == w & 0xff && Reg8(i) == Reg8(w)
  {
  }

  lemma ImmediateRead(r: Regs, magnitude: bv32, negative: bool, w: bv32, i: bv32)
    requires Packable(ImmValue(magnitude, negative)) && w == PackImmediate(magnitude, negative)
    requires Low12(i) == w && Bit25(i)
    ensures SecondOperand(r, i) == ToInt(ImmValue(magnitude, negative))
  {
    hide PackImmediate, Packable, ImmValue, Low12, Reg8, RotateRight2, Bit25, Nat, CalcShift;
    PackingProof.PackRoundTrip(magnitude, negative);
    ImmediateFields(w, i);
  }

  lemma OperandRead(r: Regs, op2: Operand2, low: bv32, i: bv32)
    requires OperandEncodable(op2) && low == Write12BitOperand(Parsed(op2), true)
    requires Low12(i) == Low12(low) && (Bit25(i) <==> op2.Imm?)
    ensures SecondOperand(r, i) == OperandValue(r, op2)
  {
    hide PackImmediate, CalcImmediate, Packable, ImmValue, PlainLow, ImmediateBits, RegBits, ConstShiftBits;
    hide RegShiftBits, ShiftCode, Low12, Bit25, CalcShift, RegValue, ToInt, Nat;
    if op2.Imm? {
      var w := PackImmediate(op2.magnitude, op2.negative);
      PackingProof.PackRoundTrip(op2.magnitude, op2.negative);
      ImmediateLow12(w);
      ImmediateRead(r, op2.magnitude, op2.negative, w, i);
    } else {
      RegOperandNarrow(op2, Parsed(op2), true);
      PlainIsDataLow(low);
      RegOperandRead(r, op2, Parsed(op2), true, i);
    }
  }

  lemma DataHead(cond: bv4, s: bool, opcode: bv4, rd: Reg, rn: Reg, low: bv32, i: bv32)
    requires DataLow(low) && i == DataWord(cond, s, opcode, rd, rn, low)
    ensures CondOf(i) == cond && OpOf(i) == opcode && (Bit20(i) <==> s)
  {
  }

  lemma DataTail(cond: bv4, s: bool, opcode: bv4, rd: Reg, rn: Reg, low: bv32, i: bv32)
    requires DataLow(low) && i == DataWord(cond, s, opcode, rd, rn, low)
    ensures (Bit25(i) <==> ImmediateFlag(low)) && Low12(i) == Low12(low)
  {
  }

  lemma DataRegs(cond: bv4, s: bool, opcode: bv4, rd: Reg, rn: Reg, low: bv32, i: bv32)
    requires DataLow(low) && i == DataWord(cond, s, opcode, rd, rn, low)
    ensures Reg12(i) == (if IsCompareCode(opcode) then 0 else rd)
    ensures Reg16(i) == (if IsCompareCode(opcode) then rd else rn)
  {
    hide IsCompareCode;
  }

  /** No mask that is tested before the type field claims a data-processing word. */
  lemma DataClass(cond: bv4, s: bool, opcode: bv4, rd: Reg, rn: Reg, low: bv32, i: bv32)
    requires DataLow(low) && i == DataWord(cond, s, opcode, rd, rn, low)
    ensures Classify(i) == Class.Data
  {
  }

  /** The interpreter's flag tests are the integer comparisons of the reference meaning. */
  lemma FlagsMean(cpsr: bv32, x: Word, y: Word)
    ensures AddFlags(cpsr, x, y) == SumStatus(cpsr, x, y)
    ensures SubFlags(cpsr, x, y) == DifferenceStatus(cpsr, x, y)
    ensures LogicFlags(cpsr, x) == LogicStatus(cpsr, x)
  {
    hide SetFlags;
  }

  lemma LowOpMeans(op: Op, setFlags: bool, r0: Word, cpsr: bv32, x: Word, y: Word)
    requires op.AND? || op.EOR? || op.SUB? || op.RSB? || op.ADD? || op.ADC? || op.SBC? || op.RSC?
    ensures DataOp(Opcode(op), setFlags, r0, cpsr, x, y) == AluOf(DataMeaning(op, setFlags, cpsr, x, y), r0)
  {
    hide AddFlags, SubFlags, LogicFlags, SumStatus, DifferenceStatus, LogicStatus, And, Xor, Or, Not, Wrap, Carry;
    FlagsMean(cpsr, x, y);
    FlagsMean(cpsr, y, x);
    FlagsMean(cpsr, And(x, y), 0);
    FlagsMean(cpsr, Xor(x, y), 0);
  }

  lemma HighOpMeans(op: Op, setFlags: bool, r0: Word, cpsr: bv32, x: Word, y: Word)
    requires op.TST? || op.TEQ? || op.CMP? || op.CMN? || op.ORR? || op.MOV? || op.BIC? || op.MVN?
    ensures DataOp(Opcode(op), setFlags, r0, cpsr, x, y) == AluOf(DataMeaning(op, setFlags, cpsr, x, y), r0)
  {
    hide AddFlags, SubFlags, LogicFlags, SumStatus, DifferenceStatus, LogicStatus, And, Xor, Or, Not, Wrap, Carry;
    FlagsMean(cpsr, x, y);
    FlagsMean(cpsr, And(x, y), 0);
    FlagsMean(cpsr, Xor(x, y), 0);
  }

  /** An operation that writes nothing returns r0, which its word names as destination. */
  function AluOf(m: Meaning, r0: Word): Alu {
    Alu(if m.writes then m.value else r0, m.cpsr)
  }

  /** Every entry of the dispatch tables computes the meaning of its operation. */
  lemma DataOpMeans(op: Op, setFlags: bool, r0: Word, cpsr: bv32, x: Word, y: Word)
    ensures DataOp(Opcode(op), setFlags, r0, cpsr, x, y) == AluOf(DataMeaning(op, setFlags, cpsr, x, y), r0)
  {
    hide *;
    if op.AND? || op.EOR? || op.SUB? || op.RSB? || op.ADD? || op.ADC? || op.SBC? || op.RSC? {
      LowOpMeans(op, setFlags, r0, cpsr, x, y);
    } else {
      HighOpMeans(op, setFlags, r0, cpsr, x, y);
    }
  }

  /** A compare's word names r0 as destination; writing r0 back to it changes nothing. */
  lemma DataRun(op: Op, setFlags: bool, rd: Reg, rn: Reg, y: Word, s: State, i: bv32)
    requires OpOf(i) == Opcode(op) && (Bit20(i) <==> setFlags) && SecondOperand(s.r, i) == y
    requires Reg12(i) == (if IsCompare(op) then 0 else rd)
    requires !IsMove(op) ==> Reg16(i) == rn
    ensures DataProcessing(s, i) == ExecData(op, setFlags, rd, Get(s.r, rn), y, s)
  {
    hide OpOf, Opcode, Bit20, SecondOperand, Reg12, Reg16, DataOp, DataMeaning;
    var x := Get(s.r, Reg16(i));
    DataOpMeans(op, setFlags, s.r[0], s.cpsr, x, y);
    MoveIgnoresFirst(op, setFlags, s.cpsr, x, Get(s.r, rn), y);
    CompareWrites(op, setFlags, s.cpsr, x, y);
    assert Put(s.r, 0, s.r[0]) == s.r;
  }

  lemma MoveIgnoresFirst(op: Op, setFlags: bool, cpsr: bv32, x: Word, x': Word, y: Word)
    ensures IsMove(op) ==> DataMeaning(op, setFlags, cpsr, x, y) == DataMeaning(op, setFlags, cpsr, x', y)
  {
    hide SumStatus, DifferenceStatus, LogicStatus, And, Xor, Or, Not, Wrap, Carry;
  }

  lemma CompareWrites(op: Op, setFlags: bool, cpsr: bv32, x: Word, y: Word)
    ensures DataMeaning(op, setFlags, cpsr, x, y).writes <==> !IsCompare(op)
  {
    hide SumStatus, DifferenceStatus, LogicStatus, And, Xor, Or, Not, Wrap, Carry;
  }

  lemma CompareCodes(op: Op)
    ensures IsCompareCode(Opcode(op)) <==> IsCompare(op)
  {
  }

  /** `first` is the register the word names as Rn, which a move ignores. */
  lemma DataAgrees(cond: bv4, op: Op, setFlags: bool, rd: Reg, rn: Reg, op2: Operand2, first: Reg, low: bv32, s: State, i: bv32)
    requires OperandEncodable(op2) && low == Write12BitOperand(Parsed(op2), true)
    requires i == DataWord(cond, setFlags, Opcode(op), if IsCompare(op) then rn else rd, first, low)
    requires IsMove(op) || IsCompare(op) || first == rn
    ensures CondOf(i) == cond && Classify(i) == Class.Data
    ensures DataProcessing(s, i) == ExecData(op, setFlags, rd, Get(s.r, rn), OperandValue(s.r, op2), s)
  {
    hide *;
    CompareCodes(op);
    CompareIsNoMove(op);
    OperandLow(op2, low);
    var named := if IsCompare(op) then rn else rd;
    DataHead(cond, setFlags, Opcode(op), named, first, low, i);
    DataTail(cond, setFlags, Opcode(op), named, first, low, i);
    DataRegs(cond, setFlags, Opcode(op), named, first, low, i);
    DataClass(cond, setFlags, Opcode(op), named, first, low, i);
    OperandRead(s.r, op2, low, i);
    DataRun(op, setFlags, rd, rn, OperandValue(s.r, op2), s, i);
  }

  lemma CompareIsNoMove(op: Op)
    ensures !(IsCompare(op) && IsMove(op))
  {
  }
}
