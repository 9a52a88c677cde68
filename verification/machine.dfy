/**
 What one instruction word does to the virtual machine.

 The functions here say, field by field and mask by mask, what the interpreter computes from a 32-bit
 word; the methods of class `Vm.VM` are proved against them, and the reference meaning of assembly
 instructions (module `Asm`) is proved equal to them.

 Guest addresses are not checked by the interpreter and a shift by 32 or more is undefined in C. The
 functions are total (an access outside memory reads 0 or writes nothing), so that they can be
 composed freely; the methods of the VM class demand `Defined`, which rules those cases out.
 */
module Machine {
  import opened BitFacts
  import opened Words

  type Reg = bv4
  type Regs = r: seq<Word> | |r| == 16
    witness [0, 0, 0, 0, 0, 0, 0, 0, 0, 0, 0, 0, 0, 0, 0, 0]

  datatype State = State(r: Regs, mem: seq<Byte>, loc: Word, cpsr: bv32)

  /** The host side of an external call: the new r0, from the registers, the memory and the index. */
  type Host = (Regs, seq<Byte>, Word) -> Word

  const SP: Reg := 13
  const LR: Reg := 14
  const PC: Reg := 15

  function Get(r: Regs, x: Reg): Word {
    r[x as int]
  }

  function Put(r: Regs, x: Reg, v: Word): Regs {
    r[x as int := v]
  }

  // ---------------------------------------------------------------------------
  // Little-endian memory
  // ---------------------------------------------------------------------------

  predicate InMem(mem: seq<Byte>, a: int) {
    0 <= a && a + 4 <= |mem|
  }

  function WordOf(b0: Byte, b1: Byte, b2: Byte, b3: Byte): Word {
    b0 + 0x100 * b1 + 0x1_0000 * b2 + 0x100_0000 * b3
  }

  /** The bytes of a little-endian word come back from it. */
  lemma BytesOfWord(b0: Byte, b1: Byte, b2: Byte, b3: Byte)
    ensures var w := WordOf(b0, b1, b2, b3);
      && w % 0x100 == b0 && w / 0x100 % 0x100 == b1
      && w / 0x1_0000 % 0x100 == b2 && w / 0x100_0000 == b3
  {
    var w := WordOf(b0, b1, b2, b3);
    assert w / 0x100 == b1 + 0x100 * b2 + 0x1_0000 * b3;
    assert w / 0x1_0000 == b2 + 0x100 * b3;
  }

  lemma WordOfBytes(v: Word)
    ensures WordOf(v % 0x100, v / 0x100 % 0x100, v / 0x1_0000 % 0x100, v / 0x100_0000) == v
  {
    var h := v / 0x100;
    assert v / 0x1_0000 == h / 0x100 && v / 0x100_0000 == h / 0x100 / 0x100;
  }

  function Bytes(v: Word): (b: seq<Byte>)
    ensures |b| == 4
  {
    [v % 0x100, v / 0x100 % 0x100, v / 0x1_0000 % 0x100, v / 0x100_0000]
  }

  function LoadWord(mem: seq<Byte>, a: int): Word {
    if InMem(mem, a) then WordOf(mem[a], mem[a + 1], mem[a + 2], mem[a + 3]) else 0
  }

  function StoreWord(mem: seq<Byte>, a: int, v: Word): (m: seq<Byte>)
    ensures |m| == |mem|
  {
    if InMem(mem, a) then
      mem[a := v % 0x100][a + 1 := v / 0x100 % 0x100][a + 2 := v / 0x1_0000 % 0x100][a + 3 := v / 0x100_0000]
    else mem
  }

  // ---------------------------------------------------------------------------
  // Fields of an instruction word
  // ---------------------------------------------------------------------------

  function Reg0(i: bv32): Reg { (i & 0xf) as bv4 }
  function Reg8(i: bv32): Reg { ((i >> 8) & 0xf) as bv4 }
  function Reg12(i: bv32): Reg { ((i >> 12) & 0xf) as bv4 }
  function Reg16(i: bv32): Reg { ((i >> 16) & 0xf) as bv4 }
  function CondOf(i: bv32): bv4 { ((i >> 28) & 0xf) as bv4 }
  function OpOf(i: bv32): bv4 { ((i >> 21) & 0xf) as bv4 }

  predicate Bit4(i: bv32) { (i >> 4) & 1 == 1 }
  predicate Bit5(i: bv32) { (i >> 5) & 1 == 1 }
  predicate Bit6(i: bv32) { (i >> 6) & 1 == 1 }
  predicate Bit20(i: bv32) { (i >> 20) & 1 == 1 }
  predicate Bit21(i: bv32) { (i >> 21) & 1 == 1 }
  predicate Bit22(i: bv32) { (i >> 22) & 1 == 1 }
  predicate Bit23(i: bv32) { (i >> 23) & 1 == 1 }
  predicate Bit24(i: bv32) { (i >> 24) & 1 == 1 }
  predicate Bit25(i: bv32) { (i >> 25) & 1 == 1 }

  /** Bit j of x, for a position that is not a constant. */
  predicate BitAt(x: bv32, j: nat)
    decreases j
  {
    if j == 0 then Odd(x) else BitAt(Down(x), j - 1)
  }

  // ---------------------------------------------------------------------------
  // Status register
  // ---------------------------------------------------------------------------

  const CPSR_N: bv32 := 0x8000_0000
  const CPSR_Z: bv32 := 0x4000_0000
  const CPSR_C: bv32 := 0x2000_0000
  const CPSR_V: bv32 := 0x1000_0000

  function ClearFlags(cpsr: bv32): bv32 {
    cpsr & 0x0fff_ffff
  }

  function WithFlag(cpsr: bv32, b: bool, flag: bv32): bv32 {
    if b then cpsr | flag else cpsr
  }

  /** The four flags replaced; the rest of the register is kept. */
  function SetFlags(cpsr: bv32, n: bool, z: bool, c: bool, v: bool): bv32 {
    WithFlag(WithFlag(WithFlag(WithFlag(ClearFlags(cpsr), n, CPSR_N), z, CPSR_Z), c, CPSR_C), v, CPSR_V)
  }

  predicate FlagN(cpsr: bv32) { cpsr & CPSR_N != 0 }
  predicate FlagZ(cpsr: bv32) { cpsr & CPSR_Z != 0 }
  predicate FlagC(cpsr: bv32) { cpsr & CPSR_C != 0 }
  predicate FlagV(cpsr: bv32) { cpsr & CPSR_V != 0 }

  predicate Condition(cpsr: bv32, cond: bv4) {
    var n, z, c, v := FlagN(cpsr), FlagZ(cpsr), FlagC(cpsr), FlagV(cpsr);
    if cond == 0 then z
    else if cond == 1 then !z
    else if cond == 2 then c
    else if cond == 3 then !c
    else if cond == 4 then n
    else if cond == 5 then !n
    else if cond == 6 then v
    else if cond == 7 then !v
    else if cond == 8 then c && !z
    else if cond == 9 then !c || z
    else if cond == 10 then n == v
    else if cond == 11 then n != v
    else if cond == 12 then !z && n == v
    else if cond == 13 then z || n != v
    else true
  }

  // ---------------------------------------------------------------------------
  // Data processing
  // ---------------------------------------------------------------------------

  function And(x: Word, y: Word): Word { ToInt(ToBits(x) & ToBits(y)) }
  function Or(x: Word, y: Word): Word { ToInt(ToBits(x) | ToBits(y)) }
  function Xor(x: Word, y: Word): Word { ToInt(ToBits(x) ^ ToBits(y)) }
  function Not(x: Word): Word { 0xffff_ffff - x }

  predicate Msb(x: Word) { x >= TWO31 }

  /** `((x ^ y) & MSB)`: the sign bits of x and y differ. */
  predicate SignsDiffer(x: Word, y: Word) { Msb(x) != Msb(y) }

  function AddFlags(cpsr: bv32, x: Word, y: Word): bv32 {
    var d := Wrap(x + y);
    SetFlags(cpsr, Msb(d), d == 0, d < x || d < y, SignsDiffer(x, y) && SignsDiffer(d, x))
  }

  function SubFlags(cpsr: bv32, x: Word, y: Word): bv32 {
    var d := Wrap(x - y);
    SetFlags(cpsr, Msb(d), d == 0, x >= y, SignsDiffer(x, y) && SignsDiffer(d, x))
  }

  function LogicFlags(cpsr: bv32, d: Word): bv32 {
    SetFlags(cpsr, Msb(d), d == 0, false, false)
  }

  function Carry(cpsr: bv32): Word {
    if FlagC(cpsr) then 1 else 0
  }

  datatype Alu = Alu(value: Word, cpsr: bv32)

  /** One entry of the two dispatch tables: `setFlags` selects the flag-setting one. */
  function DataOp(op: bv4, setFlags: bool, r0: Word, cpsr: bv32, x: Word, y: Word): Alu {
    if op == 0 then Alu(And(x, y), if setFlags then LogicFlags(cpsr, And(x, y)) else cpsr)
    else if op == 1 then Alu(Xor(x, y), if setFlags then LogicFlags(cpsr, Xor(x, y)) else cpsr)
    else if op == 2 then Alu(Wrap(x - y), if setFlags then SubFlags(cpsr, x, y) else cpsr)
    else if op == 3 then Alu(Wrap(y - x), if setFlags then SubFlags(cpsr, y, x) else cpsr)
    else if op == 4 then Alu(Wrap(x + y), if setFlags then AddFlags(cpsr, x, y) else cpsr)
    else if op == 5 then Alu(Wrap(x + y + Carry(cpsr)), cpsr)
    else if op == 6 then Alu(Wrap(x - y + Carry(cpsr)), cpsr)
    else if op == 7 then Alu(Wrap(x - y + Carry(cpsr)), cpsr)
    else if op == 8 then Alu(r0, LogicFlags(cpsr, And(x, y)))
    else if op == 9 then Alu(r0, LogicFlags(cpsr, Xor(x, y)))
    else if op == 10 then Alu(r0, SubFlags(cpsr, x, y))
    else if op == 11 then Alu(r0, AddFlags(cpsr, x, y))
    else if op == 12 then Alu(Or(x, y), cpsr)
    else if op == 13 then Alu(y, cpsr)
    else if op == 14 then Alu(And(x, Not(y)), cpsr)
    else Alu(Not(y), cpsr)
  }

  function ShiftType(i: bv32): bv2 { ((i >> 5) & 3) as bv2 }

  /** Types 0 to 3 are LSL, LSR, ASR and ROR; the last is carried out as a logical shift. */
  function Shifted(kind: bv2, x: Word, amount: nat): Word {
    if kind == 0 then Wrap(x * Pow2(amount))
    else if kind == 2 then Wrap(Signed(x) / Pow2(amount))
    else ShiftRight(x, amount)
  }

  function ShiftRight(x: Word, amount: nat): (w: Word)
    ensures w <= x
  {
    DivLe(x, Pow2(amount));
    x / Pow2(amount)
  }

  lemma DivLe(x: nat, d: nat)
    requires d > 0
    ensures 0 <= x / d <= x
  {
    MulMono(x / d, 1, d);
    assert d * (x / d) + x % d == x;
  }

  function ShiftAmount(r: Regs, i: bv32): Word {
    if Bit4(i) then Get(r, Reg8(i)) else ToInt((i >> 7) & 0x1f)
  }

  function CalcShift(r: Regs, i: bv32): Word {
    Shifted(ShiftType(i), Get(r, Reg0(i)), ShiftAmount(r, i))
  }

  function RotateOnce(x: bv32): bv32 {
    (x >> 2) | (x << 30)
  }

  /** x rotated right by 2k positions. */
  function RotateRight2(x: bv32, k: nat): bv32
    decreases k
  {
    if k == 0 then x else RotateRight2(RotateOnce(x), k - 1)
  }

  /** The value of an 8-bit immediate; `Vm.VM.CalcImmediate` computes it with two shifts. */
  function CalcImmediate(i: bv32): bv32 {
    RotateRight2(i & 0xff, Reg8(i) as int)
  }

  function SecondOperand(r: Regs, i: bv32): Word {
    if Bit25(i) then ToInt(CalcImmediate(i)) else CalcShift(r, i)
  }

  function DataProcessing(s: State, i: bv32): State {
    var a := DataOp(OpOf(i), Bit20(i), s.r[0], s.cpsr, Get(s.r, Reg16(i)), SecondOperand(s.r, i));
    s.(r := Put(s.r, Reg12(i), a.value), cpsr := a.cpsr)
  }

  // ---------------------------------------------------------------------------
  // Single and block transfers
  // ---------------------------------------------------------------------------

  /** `Val | (Existing & ~Mask)`, the whole-word write that replaces the masked part. */
  function Merge(existing: Word, v: Word, mask: bv32): Word {
    ToInt((ToBits(v) & mask) | (ToBits(existing) & !mask))
  }

  function Masked(v: Word, mask: bv32): Word {
    ToInt(ToBits(v) & mask)
  }

  function Offset(base: Word, offset: Word, up: bool): Word {
    if up then Wrap(base + offset) else Wrap(base - offset)
  }

  function TransferOffset(r: Regs, i: bv32): Word {
    if !Bit25(i) then ToInt(i & 0xfff) else CalcShift(r, i)
  }

  function DataTransfer(s: State, i: bv32): State {
    var pre := Bit24(i);
    var base := Get(s.r, Reg16(i));
    var pointer := Offset(base, TransferOffset(s.r, i), Bit23(i));
    var mask: bv32 := if Bit22(i) then 0xff else 0xffff_ffff;
    var address := if pre then pointer else base;
    var existing := LoadWord(s.mem, address);
    var s' := if Bit20(i)
              then s.(r := Put(s.r, Reg12(i), Masked(existing, mask)))
              else s.(mem := StoreWord(s.mem, address, Merge(existing, Get(s.r, Reg12(i)), mask)));
    if Bit21(i) || !pre then s'.(r := Put(s'.r, Reg16(i), pointer)) else s'
  }

  function HalfImmediate(i: bv32): bv32 {
    ((i & 0xf00) >> 4) | (i & 0xf)
  }

  function Fill(e: bv32, mask: bv32, sign: bv32): bv32 {
    if Meet(e, sign) != 0 then !mask else 0
  }

  /** `(Signed ? empty : 0) | (Existing & Mask)`. */
  function Extended(e: bv32, isSigned: bool, mask: bv32, sign: bv32): Word {
    ToInt(Join(if isSigned then Fill(e, mask, sign) else 0, Meet(e, mask)))
  }

  /** The halfword and signed transfers; `rm` is the offset of the register form. */
  function HalfTransfer(s: State, i: bv32, rm: Word): State {
    var pre := Bit24(i);
    var base := Get(s.r, Reg16(i));
    var offset := if Bit22(i) then ToInt(HalfImmediate(i)) else rm;
    var pointer := Offset(base, offset, Bit23(i));
    var mask: bv32 := if Bit5(i) then 0xffff else 0xff;
    var sign: bv32 := if Bit5(i) then 0x8000 else 0x80;
    var address := if pre then pointer else base;
    var existing := LoadWord(s.mem, address);
    var s' := if Bit20(i)
              then s.(r := Put(s.r, Reg12(i), Extended(ToBits(existing), Bit6(i), mask, sign)))
              else s.(mem := StoreWord(s.mem, address, Merge(existing, Get(s.r, Reg12(i)), mask)));
    if Bit21(i) || !pre then s'.(r := Put(s'.r, Reg16(i), pointer)) else s'
  }

  datatype Cursor = Cursor(s: State, rn: Word)

  /** One iteration of the block-transfer loop, for register j. */
  function BlockVisit(c: Cursor, i: bv32, j: nat): Cursor
    requires j < 16
  {
    if !BitAt(i, j) then c else
      var next := if Bit23(i) then Wrap(c.rn + 4) else Wrap(c.rn - 4);
      var address := if Bit24(i) then next else c.rn;
      if Bit20(i) then
        var v := LoadWord(c.s.mem, address);
        Cursor(c.s.(r := c.s.r[j := v], loc := if j == 15 then v else c.s.loc), next)
      else
        Cursor(c.s.(mem := StoreWord(c.s.mem, address, c.s.r[j])), next)
  }

  /** Iterations n and up of the loop; the visiting order follows the direction bit. */
  function BlockLoop(c: Cursor, i: bv32, n: nat): Cursor
    decreases 16 - n
  {
    if n >= 16 then c else BlockLoop(BlockVisit(c, i, if Bit23(i) then n else 15 - n), i, n + 1)
  }

  function BlockTransfer(s: State, i: bv32): State {
    var c := BlockLoop(Cursor(s, Get(s.r, Reg16(i))), i, 0);
    if Bit21(i) then c.s.(r := Put(c.s.r, Reg16(i), c.rn)) else c.s
  }

  // ---------------------------------------------------------------------------
  // Branches, multiplies, external calls
  // ---------------------------------------------------------------------------

  function BranchWithLink(s: State, i: bv32): State {
    var offset := ToInt(i & 0x00ff_ffff);
    var r := if Bit24(i) then Put(s.r, LR, s.loc) else s.r;
    var loc := if Bit23(i)
               then Wrap(s.loc - (0xffff_ffff - Wrap(offset - 1)) % 0x100_0000)
               else Wrap(s.loc + offset);
    s.(r := r, loc := loc)
  }

  function BranchExchange(s: State, i: bv32): State {
    s.(loc := Get(s.r, Reg0(i)))
  }

  function MultiplyFlags(cpsr: bv32, d: Word, x: Word, y: Word): bv32 {
    SetFlags(cpsr, Msb(d), d == 0, d < x || d < y, SignsDiffer(x, y) && SignsDiffer(d, x))
  }

  function Multiply(s: State, i: bv32): State {
    var x, y := Get(s.r, Reg0(i)), Get(s.r, Reg8(i));
    var d := if Bit21(i) then Wrap(x * y + Get(s.r, Reg12(i))) else Wrap(x * y);
    s.(r := Put(s.r, Reg16(i), d), cpsr := if Bit20(i) then MultiplyFlags(s.cpsr, d, x, y) else s.cpsr)
  }

  /**
   The long multiplies. Operands are unsigned DWORDs even in the signed forms, and the 64-bit result
   is the same in both; the accumulating forms add RdHi to the upper half and OR RdLo into the lower.
   */
  function LongMultiply(s: State, i: bv32): State {
    var x, y := Get(s.r, Reg0(i)), Get(s.r, Reg8(i));
    var low := Wrap(x * y);
    var high := HighHalf(x, y);
    var low' := if Bit21(i) then Or(low, Get(s.r, Reg12(i))) else low;
    var high' := if Bit21(i) then Wrap(high + Get(s.r, Reg16(i))) else high;
    s.(r := Put(Put(s.r, Reg16(i), high'), Reg12(i), low'))
  }

  function HighHalf(x: Word, y: Word): (h: Word)
    ensures x * y == 0x1_0000_0000 * h + Wrap(x * y)
  {
    MulMono(x, y, 0xffff_ffff);
    assert x * y <= 0xffff_ffff * 0x1_0000_0000;
    x * y / 0x1_0000_0000
  }

  function ProcField(i: bv32): bv32 {
    i & 0xffff
  }

  function ExternalCall(s: State, i: bv32, host: Host): State {
    s.(r := s.r[0 := host(s.r, s.mem, ToInt(ProcField(i)))])
  }

  // ---------------------------------------------------------------------------
  // Dispatch
  // ---------------------------------------------------------------------------

  const MASK_BX: bv32 := 0x0fff_fff0
  const OP_BX: bv32 := 0x012f_ff10
  const MASK_MUL: bv32 := 0x0fc0_00f0
  const OP_MUL: bv32 := 0x0000_0090
  const MASK_UMUL: bv32 := 0x0f80_00f0
  const OP_UMUL: bv32 := 0x0080_0090
  const MASK_LDRSB: bv32 := 0x0e00_0090
  const OP_LDRSB: bv32 := 0x0000_0090
  const MASK_LDRSBI: bv32 := 0x0e40_0090
  const OP_LDRSBI: bv32 := 0x0040_0090
  const MASK_BEXT: bv32 := 0x0ff0_0000
  const OP_BEXT: bv32 := 0x0ff0_0000
  const MASK_TRAP: bv32 := 0x0f00_0000
  const OP_TRAP: bv32 := 0x0f00_0000

  datatype Class =
    | Exchange | MultiplyClass | LongClass | Half | HalfImm | External | Trap
    | Data | Single | Block | Branch | Unknown

  /** The first mask of the dispatch chain that claims the word. */
  function Classify(i: bv32): Class {
    if i & MASK_BX == OP_BX then Exchange
    else if i & MASK_MUL == OP_MUL then MultiplyClass
    else if i & MASK_UMUL == OP_UMUL then LongClass
    else if i & MASK_LDRSB == OP_LDRSB then Half
    else if i & MASK_LDRSBI == OP_LDRSBI then HalfImm
    else if i & MASK_BEXT == OP_BEXT then External
    else if i & MASK_TRAP == OP_TRAP then Trap
    else if (i >> 25) & 7 <= 1 then Data
    else if (i >> 25) & 7 <= 3 then Single
    else if (i >> 25) & 7 == 4 then Block
    else if (i >> 25) & 7 == 5 then Branch
    else Unknown
  }

  function HalfImmediateOperand(i: bv32): Word {
    ToInt((i & 0xff) | ((i >> 4) & 0xff00))
  }

  function Dispatch(s: State, i: bv32, host: Host): State {
    match Classify(i)
    case Exchange => BranchExchange(s, i)
    case MultiplyClass => Multiply(s, i)
    case LongClass => LongMultiply(s, i)
    case Half => HalfTransfer(s, i, Get(s.r, Reg0(i)))
    case HalfImm => HalfTransfer(s, i, HalfImmediateOperand(i))
    case External => ExternalCall(s, i, host)
    case Trap => s
    case Data => DataProcessing(s, i)
    case Single => DataTransfer(s, i)
    case Block => BlockTransfer(s, i)
    case Branch => BranchWithLink(s, i)
    case Unknown => s
  }

  function Fetch(s: State): bv32 {
    ToBits(LoadWord(s.mem, s.loc))
  }

  /** The state in which a fetched instruction executes: location past it, r15 two words past it. */
  function Advance(s: State): State {
    s.(loc := Wrap(s.loc + 4), r := Put(s.r, PC, Wrap(s.loc + 8)))
  }

  function Step(s: State, host: Host): State {
    var i := Fetch(s);
    var a := Advance(s);
    if Condition(a.cpsr, CondOf(i)) then Dispatch(a, i, host) else a
  }

  function Run(s: State, host: Host, n: nat): State
    decreases n
  {
    if n == 0 then s else Run(Step(s, host), host, n - 1)
  }

  // ---------------------------------------------------------------------------
  // When the C code is defined
  // ---------------------------------------------------------------------------

  predicate ShiftDefined(r: Regs, i: bv32) {
    ShiftAmount(r, i) < 32
  }

  predicate BlockDefined(c: Cursor, i: bv32, n: nat)
    decreases 16 - n
  {
    n >= 16 ||
    var j := if Bit23(i) then n else 15 - n;
    && (BitAt(i, j) ==>
          var next := if Bit23(i) then Wrap(c.rn + 4) else Wrap(c.rn - 4);
          InMem(c.s.mem, if Bit24(i) then next else c.rn))
    && BlockDefined(BlockVisit(c, i, j), i, n + 1)
  }

  predicate Defined(s: State, i: bv32) {
    match Classify(i)
    case Data => Bit25(i) || ShiftDefined(s.r, i)
    case Single =>
      && (Bit25(i) ==> ShiftDefined(s.r, i))
      && var base := Get(s.r, Reg16(i));
         InMem(s.mem, if Bit24(i) then Offset(base, TransferOffset(s.r, i), Bit23(i)) else base)
    case Half => HalfDefined(s, i, Get(s.r, Reg0(i)))
    case HalfImm => HalfDefined(s, i, HalfImmediateOperand(i))
    case Block => BlockDefined(Cursor(s, Get(s.r, Reg16(i))), i, 0)
    case LongClass => !Bit20(i)
    case _ => true
  }

  predicate HalfDefined(s: State, i: bv32, rm: Word) {
    var base := Get(s.r, Reg16(i));
    var offset := if Bit22(i) then ToInt(HalfImmediate(i)) else rm;
    InMem(s.mem, if Bit24(i) then Offset(base, offset, Bit23(i)) else base)
  }

  predicate StepDefined(s: State) {
    && InMem(s.mem, s.loc)
    && (Condition(Advance(s).cpsr, CondOf(Fetch(s))) ==> Defined(Advance(s), Fetch(s)))
  }
}
