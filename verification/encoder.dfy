/**
 The instruction encoder: from parsed operands to 32-bit words.

 `Operand` is the operand record the line reader fills in; the Assemble functions OR the fields of a
 word together in the order the encoder does. `Encode` is the encoder applied to the operands that a
 line spelling out a given instruction parses to.
 */
module Encoder {
  import opened Options
  import opened Words
  import opened Machine
  import opened Asm

  /** The operand record: a register, a shifted register or a number, possibly negated. */
  datatype Operand = Operand(
    isShift: bool, isImmediate: bool, immediate: bv32, reg0: Reg, reg1: Reg, negate: bool, shift: bv2)

  const NO_OPERAND := Operand(false, false, 0, 0, 0, false, 0)

  // ---------------------------------------------------------------------------
  // Immediates
  // ---------------------------------------------------------------------------

  function RotateLeft2(v: bv32): bv32 {
    (v << 2) | (v >> 30)
  }

  datatype Packing = Packing(value: bv32, count: nat)

  /** The state of the packing loop when it stops. */
  function PackFrom(p: Packing): (q: Packing)
    requires p.count <= 16
    ensures p.count <= q.count <= 16
    decreases 16 - p.count
  {
    if !FitsByte(p.value) && p.count < 16 then PackFrom(Packing(RotateLeft2(p.value), p.count + 1)) else p
  }

  function PackBits(value: bv32, count: bv32): bv32 {
    (count << 8) | (value & 0xff)
  }

  function PackWord(p: Packing): bv32 {
    PackBits(p.value, ToBits(p.count))
  }

  function PackImmediate(immediate: bv32, negate: bool): bv32 {
    PackWord(PackFrom(Packing(ImmValue(immediate, negate), 0)))
  }

  predicate FitsByte(v: bv32) {
    v <= 0xff
  }

  lemma PackUnfold(p: Packing)
    requires p.count <= 16
    ensures FitsByte(p.value) || p.count == 16 ==> PackFrom(p) == p
    ensures !FitsByte(p.value) && p.count < 16 ==> PackFrom(p) == PackFrom(Packing(RotateLeft2(p.value), p.count + 1))
  {
  }

  method PackImmediateLoop(immediate: bv32, negate: bool) returns (word: bv32, inRange: bool)
    ensures word == PackImmediate(immediate, negate)
    ensures inRange <==> FitsByte(PackFrom(Packing(ImmValue(immediate, negate), 0)).value)
  {
    hide PackFrom, RotateLeft2, FitsByte, PackBits, ToBits, ImmValue;
    var value := ImmValue(immediate, negate);
    var shiftCount := 0;
    while !FitsByte(value) && shiftCount < 16
      invariant 0 <= shiftCount <= 16
      invariant PackFrom(Packing(value, shiftCount)) == PackFrom(Packing(ImmValue(immediate, negate), 0))
      decreases 16 - shiftCount
    {
      PackUnfold(Packing(value, shiftCount));
      value := RotateLeft2(value);
      shiftCount := shiftCount + 1;
    }
    PackUnfold(Packing(value, shiftCount));
    inRange := FitsByte(value);
    word := PackBits(value, ToBits(shiftCount));
  }

  // ---------------------------------------------------------------------------
  // Operand fields
  // ---------------------------------------------------------------------------

  function RegBits(rm: Reg): bv32 {
    rm as bv32
  }

  function ConstShiftBits(rm: Reg, kind: bv2, amount: bv32): bv32 {
    (rm as bv32) | ((kind as bv32) << 5) | ((amount & 0x1f) << 7)
  }

  function RegShiftBits(rm: Reg, kind: bv2, rs: Reg): bv32 {
    (rm as bv32) | ((kind as bv32) << 5) | 0x10 | ((rs as bv32) << 8)
  }

  function ImmediateBits(w: bv32): bv32 {
    0x0200_0000 | w
  }

  function Write12BitOperand(op: Operand, pack: bool): bv32 {
    if op.isShift then
      if op.isImmediate then ConstShiftBits(op.reg0, op.shift, op.immediate)
      else RegShiftBits(op.reg0, op.shift, op.reg1)
    else if op.isImmediate then
      ImmediateBits(if pack then PackImmediate(op.immediate, op.negate) else op.immediate)
    else RegBits(op.reg0)
  }

  function SdtConstBits(sh: bv32, n: bv32): bv32 {
    0x90 | (sh << 5) | 0x0040_0000 | (n & 0x0f) | ((n & 0xf0) << 4)
  }

  function SdtRegBits(sh: bv32, rm: Reg): bv32 {
    0x90 | (sh << 5) | (rm as bv32)
  }

  function WriteSdtOperand(op: Operand, sh: bv32): bv32 {
    if op.isImmediate then SdtConstBits(sh, op.immediate) else SdtRegBits(sh, op.reg0)
  }

  // ---------------------------------------------------------------------------
  // Instruction words
  // ---------------------------------------------------------------------------

  function B1(b: bool): bv32 {
    if b then 1 else 0
  }

  function IsCompareCode(opcode: bv4): bool {
    8 <= opcode <= 11
  }

  function DataWord(cond: bv4, setFlags: bool, opcode: bv4, rd: Reg, rn: Reg, low: bv32): bv32 {
    ((opcode as bv32) << 21) | (B1(setFlags) << 20) | ((cond as bv32) << 28)
    | (if IsCompareCode(opcode) then (rd as bv32) << 16
       else ((rd as bv32) << 12) | ((rn as bv32) << 16))
    | low
  }

  /** A data-processing line: `rd, first` or `rd, first, second`. */
  function AssembleData(cond: bv4, setFlags: bool, opcode: bv4, rd: Reg, first: Operand, second: Option<Operand>): bv32 {
    var flagged := first.isShift || first.isImmediate;
    var op := if flagged || second.None? then first else second.value;
    DataWord(cond, setFlags, opcode, rd, first.reg0, Write12BitOperand(op, true))
  }

  function AssembleMultiply(cond: bv4, accumulate: bool, setFlags: bool, rd: Reg, rm: Reg, rs: Reg, rn: Reg): bv32 {
    (B1(accumulate) << 21) | ((cond as bv32) << 28) | (B1(setFlags) << 20)
    | ((rd as bv32) << 16) | ((rn as bv32) << 12) | ((rs as bv32) << 8) | (rm as bv32) | 0x90
  }

  function AssembleLongMultiply(cond: bv4, isSigned: bool, accumulate: bool, rdLo: Reg, rdHi: Reg, rm: Reg, rs: Reg): bv32 {
    0x0080_0000 | (B1(isSigned) << 22) | (B1(accumulate) << 21) | ((cond as bv32) << 28)
    | ((rdHi as bv32) << 16) | ((rdLo as bv32) << 12) | ((rs as bv32) << 8) | (rm as bv32) | 0x90
  }

  /** The head of a transfer line, up to and including Rd; the offset sign bit starts as "up". */
  function TransferHead(cond: bv4, load: bool, byte: bool, rd: Reg): bv32 {
    0x0400_0000 | (B1(load) << 20) | 0x0080_0000 | (B1(byte) << 22) | ((cond as bv32) << 28) | ((rd as bv32) << 12)
  }

  function Bracketed(head: bv32, rn: Reg, index: Indexing): bv32 {
    head | ((rn as bv32) << 16) | (if index.Pre? then 0x0100_0000 | (B1(index.writeback) << 21) else 0)
  }

  function WordTail(head: bv32, negate: bool, low: bv32): bv32 {
    ((head ^ (B1(negate) << 23)) | low) ^ 0x0200_0000
  }

  function SdtTail(head: bv32, negate: bool, low: bv32): bv32 {
    ((head ^ (B1(negate) << 23)) & 0xf1ff_ffff) | low
  }

  /** `[rn, op]`, `[rn, op]!` or `[rn], op`; `sh` is 0 for word and byte transfers. */
  function AssembleTransfer(cond: bv4, load: bool, byte: bool, sh: bv32, rd: Reg, rn: Reg, op: Operand, index: Indexing): bv32 {
    var head := Bracketed(TransferHead(cond, load, byte, rd), rn, index);
    if sh != 0 then SdtTail(head, op.negate, WriteSdtOperand(op, sh))
    else WordTail(head, op.negate, Write12BitOperand(op, false))
  }

  function MarkZero(head: bv32, flag: bv32): bv32 {
    head | flag
  }

  /** `[rn]` alone: an immediate offset of zero. */
  function AssembleTransferBare(cond: bv4, load: bool, byte: bool, sh: bv32, rd: Reg, rn: Reg): bv32 {
    var head := Bracketed(TransferHead(cond, load, byte, rd), rn, Pre(false));
    if sh != 0 then SdtTail(MarkZero(head, 0x0040_0000), false, WriteSdtOperand(NO_OPERAND, sh))
    else WordTail(MarkZero(head, 0x0200_0000), false, Write12BitOperand(NO_OPERAND, false))
  }

  /** A transfer from a label: the halfword and signed kinds have been read but leave no trace. */
  function AssembleLiteral(cond: bv4, load: bool, byte: bool, sh: bv32, rd: Reg): bv32 {
    TransferHead(cond, load, byte, rd) | 0x000f_0000 | 0x0100_0000
  }

  function ModeCode(mode: BlockMode): bv32 {
    match mode
    case DA => 0
    case IA => 1
    case DB => 2
    case IB => 3
  }

  function BlockWord(cond: bv4, load: bool, mode: BlockMode, writeback: bool, rn: Reg): bv32 {
    0x0800_0000 | (B1(load) << 20) | ((cond as bv32) << 28) | (ModeCode(mode) << 23)
    | (B1(writeback) << 21) | ((rn as bv32) << 16)
  }

  /** The listed registers are ORed in one by one; `list` is the result. */
  function AssembleBlock(cond: bv4, load: bool, mode: BlockMode, writeback: bool, rn: Reg, list: bv16): bv32 {
    BlockWord(cond, load, mode, writeback, rn) | Wide16(list)
  }

  function AssembleBx(cond: bv4, rn: Reg): bv32 {
    OP_BX | ((cond as bv32) << 28) | (rn as bv32)
  }

  function AssembleTrap(cond: bv4): bv32 {
    ((cond as bv32) << 28) | 0x0f00_0000
  }

  function AssembleBranch(cond: bv4, link: bool): bv32 {
    ((if link then 0xb else 0xa as bv32) << 24) | ((cond as bv32) << 28)
  }

  /** A branch to a registered host function; the condition read before the name is not used. */
  function AssembleExternal(link: bool, index: bv16): bv32 {
    OP_BEXT | Wide16(index) | ((AL as bv32) << 28) | (B1(link) << 19)
  }

  // ---------------------------------------------------------------------------
  // From instructions to words
  // ---------------------------------------------------------------------------

  function Opcode(op: Op): bv4 {
    match op
    case AND => 0
    case EOR => 1
    case SUB => 2
    case RSB => 3
    case ADD => 4
    case ADC => 5
    case SBC => 6
    case RSC => 7
    case TST => 8
    case TEQ => 9
    case CMP => 10
    case CMN => 11
    case ORR => 12
    case MOV => 13
    case BIC => 14
    case MVN => 15
  }

  function Parsed(op: Operand2): Operand {
    match op
    case Imm(magnitude, negative) => Operand(false, true, magnitude, 0, 0, negative, 0)
    case Plain(rm) => Operand(false, false, 0, rm, 0, false, 0)
    case ByConst(rm, kind, amount) => Operand(true, true, Wide5(amount), rm, 0, false, ShiftCode(kind))
    case ByReg(rm, kind, rs) => Operand(true, false, 0, rm, rs, false, ShiftCode(kind))
  }

  function ParsedReg(rm: Reg): Operand {
    Operand(false, false, 0, rm, 0, false, 0)
  }

  function ParsedWordOffset(o: WordOffset, negative: bool): Operand {
    match o
    case Const12(n) => Operand(false, true, Wide12(n), 0, 0, negative, 0)
    case Index(op) => Parsed(op).(negate := negative)
  }

  function ParsedHalfOffset(o: HalfOffset, negative: bool): Operand {
    match o
    case Const8(n) => Operand(false, true, Wide8(n), 0, 0, negative, 0)
    case IndexReg(rm) => ParsedReg(rm).(negate := negative)
  }

  function KindCode(kind: HalfKind): bv32 {
    match kind
    case H => 1
    case SB => 2
    case SH => 3
  }

  /**
   Compares and moves are written with two operands (`cmp rn, op2`, `mov rd, op2`), the others with
   three. The word of a symbolic instruction is what is written before linking.
   */
  function Encode(i: Instr): bv32 {
    match i
    case Data(cond, op, setFlags, rd, rn, op2) =>
      if IsCompare(op) then AssembleData(cond, setFlags, Opcode(op), rn, Parsed(op2), None)
      else if IsMove(op) then AssembleData(cond, setFlags, Opcode(op), rd, Parsed(op2), None)
      else AssembleData(cond, setFlags, Opcode(op), rd, ParsedReg(rn), Some(Parsed(op2)))
    case Mul(cond, accumulate, setFlags, rd, rm, rs, rn) =>
      AssembleMultiply(cond, accumulate, setFlags, rd, rm, rs, rn)
    case LongMul(cond, isSigned, accumulate, rdLo, rdHi, rm, rs) =>
      AssembleLongMultiply(cond, isSigned, accumulate, rdLo, rdHi, rm, rs)
    case Transfer(cond, load, byte, rd, rn, offset, negative, index) =>
      AssembleTransfer(cond, load, byte, 0, rd, rn, ParsedWordOffset(offset, negative), index)
    case HalfMove(cond, load, kind, rd, rn, off8, negative, index) =>
      AssembleTransfer(cond, load, false, KindCode(kind), rd, rn, ParsedHalfOffset(off8, negative), index)
    case BlockMove(cond, load, mode, writeback, rn, list) =>
      AssembleBlock(cond, load, mode, writeback, rn, list)
    case Bx(cond, rm) => AssembleBx(cond, rm)
    case TrapIns(cond) => AssembleTrap(cond)
    case Call(link, proc) => AssembleExternal(link, proc)
    case Jump(cond, link, _) => AssembleBranch(cond, link)
    case Literal(cond, load, byte, rd, _) => AssembleLiteral(cond, load, byte, 0, rd)
    case Address(cond, rd, _) =>
      AssembleData(cond, false, Opcode(ADD), rd, ParsedReg(PC), Some(Parsed(Imm(0, false))))
  }

  /** A constant operand is encodable when packing it succeeds; everything else always is. */
  predicate Packable(v: bv32) {
    FitsByte(PackFrom(Packing(v, 0)).value)
  }

  predicate Encodable(i: Instr) {
    i.Data? && i.op2.Imm? ==> Packable(ImmValue(i.op2.magnitude, i.op2.negative))
  }

  // ---------------------------------------------------------------------------
  // Relocation
  // ---------------------------------------------------------------------------

  function WithField(word: bv32, field: bv32, mask: bv32): bv32 {
    word | (field & mask)
  }

  function WithBits(word: bv32, field: Word, mask: bv32): bv32 {
    WithField(word, ToBits(field), mask)
  }

  function ToggleUp(word: bv32): bv32 {
    word ^ 0x0080_0000
  }

  function MakeSubtract(word: bv32): bv32 {
    (word & 0xfe1f_ffff) | 0x0040_0000
  }

  /** The pc bias of a literal or address: two words past the instruction. */
  const SKIP_PC: int := 8

  function SetPosBranch(word: bv32, at: Word, target: Word): bv32 {
    var p := Wrap(target - 4);
    if p < at then WithBits(word, Wrap(Not(at - p) + 1), 0x00ff_ffff)
    else WithBits(word, p - at, 0x00ff_ffff)
  }

  /** What the assertion in the data-transfer relocation demands: the distance fits twelve bits. */
  predicate LiteralReach(at: Word, target: Word) {
    var p := Wrap(target - SKIP_PC);
    (if p < at then at - p else p - at) < 0x1000
  }

  function SetPosTransfer(word: bv32, at: Word, target: Word): bv32
    requires LiteralReach(at, target)
  {
    var p := Wrap(target - SKIP_PC);
    if p < at then ToggleUp(WithBits(word, at - p, 0xfff))
    else WithBits(word, p - at, 0xfff)
  }

  function SetPosAddress(word: bv32, at: Word, target: Word): bv32 {
    var p := Wrap(target - SKIP_PC);
    if p < at then MakeSubtract(WithBits(word, at - p, 0xff))
    else WithBits(word, p - at, 0xff)
  }
}
