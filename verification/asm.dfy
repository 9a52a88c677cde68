/**
 Assembly instructions and their reference meaning.

 The meaning is given on the operands a programmer writes, with no instruction word in sight: integer
 results, integer comparisons for the flags, single bytes for the byte transfers, one contiguous block
 for the multiple transfers, and a target address for everything that names a label. Where the
 interpreter departs from the ARM architecture the meaning follows the interpreter, and says so.
 */
module Asm {
  import opened Words
  import opened Machine

  datatype Shift = LSL | LSR | ASR | ROR

  datatype Op =
    | AND | EOR | SUB | RSB | ADD | ADC | SBC | RSC
    | TST | TEQ | CMP | CMN | ORR | MOV | BIC | MVN

  datatype Operand2 =
    | Imm(magnitude: bv32, negative: bool)
    | Plain(rm: Reg)
    | ByConst(rm: Reg, kind: Shift, amount: bv5)
    | ByReg(rm: Reg, kind: Shift, rs: Reg)

  /** An offset register: everything an operand can be except a constant. */
  type RegOperand = o: Operand2 | !o.Imm? witness Plain(0)

  datatype WordOffset = Const12(n: bv12) | Index(op: RegOperand)
  datatype HalfOffset = Const8(n: bv8) | IndexReg(rm: Reg)
  datatype Indexing = Pre(writeback: bool) | Post
  datatype HalfKind = H | SB | SH
  datatype BlockMode = DA | IA | DB | IB

  /** `sym` is the text of the label or expression an instruction refers to. */
  datatype Instr =
    | Data(cond: bv4, op: Op, setFlags: bool, rd: Reg, rn: Reg, op2: Operand2)
    | Mul(cond: bv4, accumulate: bool, setFlags: bool, rd: Reg, rm: Reg, rs: Reg, rn: Reg)
    | LongMul(cond: bv4, isSigned: bool, accumulate: bool, rdLo: Reg, rdHi: Reg, rm: Reg, rs: Reg)
    | Transfer(cond: bv4, load: bool, byte: bool, rd: Reg, rn: Reg, offset: WordOffset, negative: bool, index: Indexing)
    | HalfMove(cond: bv4, load: bool, kind: HalfKind, rd: Reg, rn: Reg, off8: HalfOffset, negative: bool, index: Indexing)
    | BlockMove(cond: bv4, load: bool, mode: BlockMode, writeback: bool, rn: Reg, list: bv16)
    | Bx(cond: bv4, rm: Reg)
    | TrapIns(cond: bv4)
    | Call(link: bool, proc: bv16)
    | Jump(cond: bv4, link: bool, sym: string)
    | Literal(cond: bv4, load: bool, byte: bool, rd: Reg, sym: string)
    | Address(cond: bv4, rd: Reg, sym: string)

  const AL: bv4 := 14

  function Wide5(x: bv5): bv32 { x as bv32 }
  function Wide8(x: bv8): bv32 { x as bv32 }
  function Wide12(x: bv12): bv32 { x as bv32 }
  function Wide16(x: bv16): bv32 { x as bv32 }

  function ConditionOf(i: Instr): bv4 {
    if i.Call? then AL else i.cond
  }

  predicate Symbolic(i: Instr) {
    i.Jump? || i.Literal? || i.Address?
  }

  predicate IsCompare(op: Op) {
    op == TST || op == TEQ || op == CMP || op == CMN
  }

  predicate IsMove(op: Op) {
    op == MOV || op == MVN
  }

  // ---------------------------------------------------------------------------
  // Data processing
  // ---------------------------------------------------------------------------

  function ShiftCode(k: Shift): bv2 {
    match k
    case LSL => 0
    case LSR => 1
    case ASR => 2
    case ROR => 3
  }

  function ImmValue(magnitude: bv32, negative: bool): bv32 {
    if negative then 0 - magnitude else magnitude
  }

  function RegValue(r: Regs, op: RegOperand): Word {
    match op
    case Plain(rm) => Get(r, rm)
    case ByConst(rm, kind, amount) => Shifted(ShiftCode(kind), Get(r, rm), ToInt(Wide5(amount)))
    case ByReg(rm, kind, rs) => Shifted(ShiftCode(kind), Get(r, rm), Get(r, rs))
  }

  function OperandValue(r: Regs, op: Operand2): Word {
    if op.Imm? then ToInt(ImmValue(op.magnitude, op.negative)) else RegValue(r, op)
  }

  /** C and V follow the interpreter, which clears them. */
  function LogicStatus(cpsr: bv32, d: Word): bv32 {
    SetFlags(cpsr, Signed(d) < 0, d == 0, false, false)
  }

  /** C is the unsigned carry; V follows the interpreter, which uses the sign test of a subtraction. */
  function SumStatus(cpsr: bv32, x: Word, y: Word): bv32 {
    var d := Wrap(x + y);
    SetFlags(cpsr, Signed(d) < 0, d == 0, x + y >= TWO32,
             (Signed(x) < 0) != (Signed(y) < 0) && (Signed(d) < 0) != (Signed(x) < 0))
  }

  /** C is "no borrow"; V is "the signed difference does not fit in 32 bits". */
  function DifferenceStatus(cpsr: bv32, x: Word, y: Word): bv32 {
    var e := Signed(x) - Signed(y);
    SetFlags(cpsr, Signed(Wrap(x - y)) < 0, x == y, x >= y, !(-TWO31 <= e < TWO31))
  }

  datatype Meaning = Meaning(writes: bool, value: Word, cpsr: bv32)

  /**
   The interpreter's data operations. ADC, SBC, RSC, ORR, MOV, BIC and MVN never set flags, and SBC
   and RSC are both x - y + C.
   */
  function DataMeaning(op: Op, setFlags: bool, cpsr: bv32, x: Word, y: Word): Meaning {
    match op
    case AND => Meaning(true, And(x, y), if setFlags then LogicStatus(cpsr, And(x, y)) else cpsr)
    case EOR => Meaning(true, Xor(x, y), if setFlags then LogicStatus(cpsr, Xor(x, y)) else cpsr)
    case SUB => Meaning(true, Wrap(x - y), if setFlags then DifferenceStatus(cpsr, x, y) else cpsr)
    case RSB => Meaning(true, Wrap(y - x), if setFlags then DifferenceStatus(cpsr, y, x) else cpsr)
    case ADD => Meaning(true, Wrap(x + y), if setFlags then SumStatus(cpsr, x, y) else cpsr)
    case ADC => Meaning(true, Wrap(x + y + Carry(cpsr)), cpsr)
    case SBC => Meaning(true, Wrap(x - y + Carry(cpsr)), cpsr)
    case RSC => Meaning(true, Wrap(x - y + Carry(cpsr)), cpsr)
    case TST => Meaning(false, 0, LogicStatus(cpsr, And(x, y)))
    case TEQ => Meaning(false, 0, LogicStatus(cpsr, Xor(x, y)))
    case CMP => Meaning(false, 0, DifferenceStatus(cpsr, x, y))
    case CMN => Meaning(false, 0, SumStatus(cpsr, x, y))
    case ORR => Meaning(true, Or(x, y), cpsr)
    case MOV => Meaning(true, y, cpsr)
    case BIC => Meaning(true, And(x, Not(y)), cpsr)
    case MVN => Meaning(true, Not(y), cpsr)
  }

  function ExecData(op: Op, setFlags: bool, rd: Reg, x: Word, y: Word, s: State): State {
    var m := DataMeaning(op, setFlags, s.cpsr, x, y);
    s.(r := if m.writes then Put(s.r, rd, m.value) else s.r, cpsr := m.cpsr)
  }

  // ---------------------------------------------------------------------------
  // Transfers
  // ---------------------------------------------------------------------------

  function LoadByte(mem: seq<Byte>, a: int): Word {
    if InMem(mem, a) then mem[a] else 0
  }

  function LoadHalf(mem: seq<Byte>, a: int): Word {
    if InMem(mem, a) then WordOf(mem[a], mem[a + 1], 0, 0) else 0
  }

  /** The DWORD whose signed value is that of the low byte or halfword. */
  function SignExtend(v: Word, sign: Word): Word
    requires v < 2 * sign
  {
    Wrap(if v < sign then v else v - 2 * sign)
  }

  function StoreByte(mem: seq<Byte>, a: int, v: Word): seq<Byte> {
    if InMem(mem, a) then mem[a := v % 0x100] else mem
  }

  function StoreHalf(mem: seq<Byte>, a: int, v: Word): seq<Byte> {
    if InMem(mem, a) then mem[a := v % 0x100][a + 1 := v / 0x100 % 0x100] else mem
  }

  function WordOffsetValue(r: Regs, o: WordOffset): Word {
    match o
    case Const12(n) => ToInt(Wide12(n))
    case Index(op) => RegValue(r, op)
  }

  function HalfOffsetValue(r: Regs, o: HalfOffset): Word {
    match o
    case Const8(n) => ToInt(Wide8(n))
    case IndexReg(rm) => Get(r, rm)
  }

  function WriteBase(s: State, rn: Reg, pointer: Word, index: Indexing): State {
    if index.Post? || index.writeback then s.(r := Put(s.r, rn, pointer)) else s
  }

  function ExecTransfer(load: bool, byte: bool, rd: Reg, rn: Reg, offset: Word, negative: bool, index: Indexing, s: State): State {
    var base := Get(s.r, rn);
    var pointer := if negative then Wrap(base - offset) else Wrap(base + offset);
    var a := if index.Pre? then pointer else base;
    var s' :=
      if load then s.(r := Put(s.r, rd, if byte then LoadByte(s.mem, a) else LoadWord(s.mem, a)))
      else s.(mem := if byte then StoreByte(s.mem, a, Get(s.r, rd)) else StoreWord(s.mem, a, Get(s.r, rd)));
    WriteBase(s', rn, pointer, index)
  }

  function HalfLoaded(kind: HalfKind, mem: seq<Byte>, a: int): Word {
    match kind
    case H => LoadHalf(mem, a)
    case SB => SignExtend(LoadByte(mem, a), 0x80)
    case SH => SignExtend(LoadHalf(mem, a), 0x8000)
  }

  function ExecHalf(load: bool, kind: HalfKind, rd: Reg, rn: Reg, offset: Word, negative: bool, index: Indexing, s: State): State {
    var base := Get(s.r, rn);
    var pointer := if negative then Wrap(base - offset) else Wrap(base + offset);
    var a := if index.Pre? then pointer else base;
    var s' :=
      if load then s.(r := Put(s.r, rd, HalfLoaded(kind, s.mem, a)))
      else s.(mem := if kind == SB then StoreByte(s.mem, a, Get(s.r, rd)) else StoreHalf(s.mem, a, Get(s.r, rd)));
    WriteBase(s', rn, pointer, index)
  }

  /** The number of registers below j in a register list. */
  function Rank(list: bv32, j: nat): (n: nat)
    ensures n <= j
  {
    if j == 0 then 0 else Rank(list, j - 1) + if BitAt(list, j - 1) then 1 else 0
  }

  /** The lowest address of the block a multiple transfer touches. */
  function BlockStart(mode: BlockMode, base: Word, count: nat): int {
    match mode
    case IA => base
    case IB => base + 4
    case DA => base - 4 * count + 4
    case DB => base - 4 * count
  }

  function BlockEnd(mode: BlockMode, base: Word, count: nat): Word {
    if mode == IA || mode == IB then Wrap(base + 4 * count) else Wrap(base - 4 * count)
  }

  function Slot(list: bv32, start: int, j: nat): Word {
    Wrap(start + 4 * Rank(list, j))
  }

  /** Every listed register takes the word of its slot. */
  function LoadList(r: Regs, mem: seq<Byte>, list: bv32, start: int): Regs {
    seq(16, j requires 0 <= j < 16 => if BitAt(list, j) then LoadWord(mem, Slot(list, start, j)) else r[j])
  }

  /** The listed registers below j, stored from the lowest slot up. */
  function StoreList(mem: seq<Byte>, r: Regs, list: bv32, start: int, j: nat): (m: seq<Byte>)
    requires j <= 16
    ensures |m| == |mem|
  {
    if j == 0 then mem
    else
      var m := StoreList(mem, r, list, start, j - 1);
      if BitAt(list, j - 1) then StoreWord(m, Slot(list, start, j - 1), r[j - 1]) else m
  }

  function ExecBlock(load: bool, mode: BlockMode, writeback: bool, rn: Reg, list: bv32, s: State): State {
    var base := Get(s.r, rn);
    var count := Rank(list, 16);
    var start := BlockStart(mode, base, count);
    var s' :=
      if load then
        var r := LoadList(s.r, s.mem, list, start);
        s.(r := r, loc := if BitAt(list, 15) then r[15] else s.loc)
      else s.(mem := StoreList(s.mem, s.r, list, start, 16));
    if writeback then s'.(r := Put(s'.r, rn, BlockEnd(mode, base, count))) else s'
  }

  // ---------------------------------------------------------------------------
  // Instructions
  // ---------------------------------------------------------------------------

  /** The upper and lower words of the 64-bit result of a long multiply. */
  function LongLow(accumulate: bool, x: Word, y: Word, low: Word): Word {
    if accumulate then Or(Wrap(x * y), low) else Wrap(x * y)
  }

  function LongHigh(accumulate: bool, x: Word, y: Word, high: Word): Word {
    if accumulate then Wrap(HighHalf(x, y) + high) else HighHalf(x, y)
  }

  /** What instruction i does in a state whose location is already past it. */
  function Exec(i: Instr, target: Word, s: State, host: Host): State {
    match i
    case Data(_, op, setFlags, rd, rn, op2) =>
      ExecData(op, setFlags, rd, Get(s.r, rn), OperandValue(s.r, op2), s)
    case Mul(_, accumulate, setFlags, rd, rm, rs, rn) =>
      var x, y := Get(s.r, rm), Get(s.r, rs);
      var d := Wrap(x * y + if accumulate then Get(s.r, rn) else 0);
      s.(r := Put(s.r, rd, d), cpsr := if setFlags then MultiplyFlags(s.cpsr, d, x, y) else s.cpsr)
    case LongMul(_, _, accumulate, rdLo, rdHi, rm, rs) =>
      var x, y := Get(s.r, rm), Get(s.r, rs);
      var high := LongHigh(accumulate, x, y, Get(s.r, rdHi));
      var low := LongLow(accumulate, x, y, Get(s.r, rdLo));
      s.(r := Put(Put(s.r, rdHi, high), rdLo, low))
    case Transfer(_, load, byte, rd, rn, offset, negative, index) =>
      ExecTransfer(load, byte, rd, rn, WordOffsetValue(s.r, offset), negative, index, s)
    case HalfMove(_, load, kind, rd, rn, off8, negative, index) =>
      ExecHalf(load, kind, rd, rn, HalfOffsetValue(s.r, off8), negative, index, s)
    case BlockMove(_, load, mode, writeback, rn, list) =>
      ExecBlock(load, mode, writeback, rn, Wide16(list), s)
    case Bx(_, rm) => s.(loc := Get(s.r, rm))
    case TrapIns(_) => s
    case Call(_, proc) => s.(r := s.r[0 := host(s.r, s.mem, ToInt(Wide16(proc)))])
    case Jump(_, link, _) => s.(r := if link then Put(s.r, LR, s.loc) else s.r, loc := target)
    case Literal(_, load, byte, rd, _) =>
      if load then s.(r := Put(s.r, rd, if byte then LoadByte(s.mem, target) else LoadWord(s.mem, target)))
      else s.(mem := if byte then StoreByte(s.mem, target, Get(s.r, rd)) else StoreWord(s.mem, target, Get(s.r, rd)))
    case Address(_, rd, _) => s.(r := Put(s.r, rd, target))
  }

  /** One step of an instruction at the current location, condition included. */
  function Perform(i: Instr, target: Word, s: State, host: Host): State {
    var a := Advance(s);
    if Condition(a.cpsr, ConditionOf(i)) then Exec(i, target, a, host) else a
  }
}
