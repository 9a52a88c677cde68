/**
 The virtual machine as the interpreter keeps it: registers, memory, location and status register
 updated in place by one method per handler. Every handler is proved to compute the function of module
 `Machine` with the same name, and so to mean what the instructions say whose encoding it is given.
 */
module Vm {
  import opened Words
  import opened Machine
  import opened Handlers
  import Asm
  import Decode
  import Effects
  import Encoder
  import PackingProof

  // ---------------------------------------------------------------------------
  // The rotated immediate
  // ---------------------------------------------------------------------------

  /** Two shifts; `rotate` is the rotation count in bits. */
  function TwoShifts(imm: bv32, rotate: bv32): bv32
    requires rotate <= 30
  {
    if rotate == 0 then imm else (imm >> rotate) | (imm << (32 - rotate))
  }

  lemma TwoShiftsNone(imm: bv32)
    ensures TwoShifts(imm, 0) == imm
  {
  }

  lemma TwoShiftsStep(imm: bv32, rotate: bv32)
    requires rotate <= 28
    ensures RotateOnce(TwoShifts(imm, rotate)) == TwoShifts(imm, rotate + 2)
  {
  }

  function Twice(q: bv4): (rotate: bv32)
    ensures rotate <= 30
  {
    (q as bv32) << 1
  }

  lemma TwiceStep(q: bv4)
    requires q != 0
    ensures Twice(q - 1) <= 28 && Twice(q - 1) + 2 == Twice(q) && Twice(0) == 0
  {
  }

  /** Rotating by two q times is the two shifts by 2q. */
  lemma {:induction false} TwoShiftsRotate(imm: bv32, q: bv4)
    ensures RotateRight2(imm, q as int) == TwoShifts(imm, Twice(q))
    decreases q as int
  {
    hide RotateOnce, TwoShifts, Twice;
    if q == 0 {
      assert Twice(0) == 0 by {
        TwiceStep(1);
      }
      TwoShiftsNone(imm);
    } else {
      TwiceStep(q);
      TwoShiftsRotate(imm, q - 1);
      assert (q - 1) as int == q as int - 1;
      PackingProof.RotateLast(imm, q as int);
      TwoShiftsStep(imm, Twice(q - 1));
    }
  }

  // ---------------------------------------------------------------------------
  // Runs
  // ---------------------------------------------------------------------------

  /** The state in which execution starts at pc. */
  function Start(s: State, pc: Word, size: Word): State {
    var r := seq(13, _ => 0xffff_ffff) + s.r[13..];
    s.(r := Put(r, LR, size), loc := pc)
  }

  /** The registers and location from which a call runs: nothing is left of r0 to r12, lr leads out. */
  predicate Started(before: State, s: State, pc: Word, size: Word) {
    && (forall j :: 0 <= j < 13 ==> s.r[j] == 0xffff_ffff)
    && s.r[13] == before.r[13] && s.r[14] == size && s.r[15] == before.r[15]
    && s.loc == pc && s.mem == before.mem && s.cpsr == before.cpsr
  }

  lemma StartIs(s: State, pc: Word, size: Word)
    ensures Started(s, Start(s, pc, size), pc, size)
  {
  }

  /** The run leaves the program, for the first time, after exactly n steps, all of them defined. */
  predicate Halts(s: State, host: Host, size: Word, n: nat)
    decreases n
  {
    if n == 0 then s.loc >= size
    else
      && s.loc < size && StepDefined(s)
      && Step(s, host).loc != 0xffff_ffff
      && Halts(Step(s, host), host, size, n - 1)
  }

  lemma Always(cpsr: bv32)
    ensures Condition(cpsr, 14)
  {
  }

  /** The result of a table entry is that of the operation with this opcode; the comparisons return r0. */
  ghost predicate OperationMeans(op: bv4, setFlags: bool, r0: Word, cpsr: bv32, x: Word, y: Word, a: Alu) {
    forall o: Asm.Op :: Encoder.Opcode(o) == op ==>
      var m := Asm.DataMeaning(o, setFlags, cpsr, x, y);
      a == Alu(if m.writes then m.value else r0, m.cpsr)
  }

  lemma MeaningOf(op: bv4, setFlags: bool, r0: Word, cpsr: bv32, x: Word, y: Word)
    ensures OperationMeans(op, setFlags, r0, cpsr, x, y, DataOp(op, setFlags, r0, cpsr, x, y))
  {
    hide DataOp, Asm.DataMeaning, Encoder.Opcode;
    forall o: Asm.Op | Encoder.Opcode(o) == op
      ensures var m := Asm.DataMeaning(o, setFlags, cpsr, x, y);
        DataOp(op, setFlags, r0, cpsr, x, y) == Alu(if m.writes then m.value else r0, m.cpsr)
    {
      Decode.DataOpMeans(o, setFlags, r0, cpsr, x, y);
    }
  }

  class VM {
    const r: array<Word>
    const memory: array<Byte>
    const syscall: Host
    const progsize: Word
    var location: Word
    var cpsr: bv32

    predicate Valid()
      reads this
    {
      r.Length == 16 && (r as object) != (memory as object)
    }

    function Value(): State
      reads this, r, memory
      requires Valid()
    {
      State(r[..], memory[..], location, cpsr)
    }

    constructor (regs: array<Word>, bytes: array<Byte>, syscall: Host, progsize: Word)
      requires regs.Length == 16 && (regs as object) != (bytes as object)
      ensures Valid() && r == regs && memory == bytes && this.syscall == syscall && this.progsize == progsize
      ensures Value() == State(regs[..], bytes[..], 0, 0)
    {
      r := regs;
      memory := bytes;
      this.syscall := syscall;
      this.progsize := progsize;
      location := 0;
      cpsr := 0;
    }

    // ---------------------------------------------------------------------------
    // Memory and registers
    // ---------------------------------------------------------------------------

    method LoadPtr(address: Word) returns (v: Word)
      requires InMem(memory[..], address)
      ensures v == LoadWord(memory[..], address)
    {
      v := WordOf(memory[address], memory[address + 1], memory[address + 2], memory[address + 3]);
    }

    method StorePtr(address: Word, v: Word)
      requires InMem(memory[..], address)
      modifies memory
      ensures memory[..] == StoreWord(old(memory[..]), address, v)
    {
      memory[address] := v % 0x100;
      memory[address + 1] := v / 0x100 % 0x100;
      memory[address + 2] := v / 0x1_0000 % 0x100;
      memory[address + 3] := v / 0x100_0000;
    }

    method SetReg(x: Reg, v: Word)
      requires Valid()
      modifies r
      ensures Value() == old(Value()).(r := Put(old(Value()).r, x, v))
    {
      r[x as int] := v;
    }

    // ---------------------------------------------------------------------------
    // Arithmetic and flags
    // ---------------------------------------------------------------------------

    method SetStatus(n: bool, z: bool, c: bool, v: bool)
      modifies this`cpsr
      ensures cpsr == SetFlags(old(cpsr), n, z, c, v)
    {
      hide ClearFlags, WithFlag;
      cpsr := ClearFlags(cpsr);
      cpsr := WithFlag(cpsr, n, CPSR_N);
      cpsr := WithFlag(cpsr, z, CPSR_Z);
      cpsr := WithFlag(cpsr, c, CPSR_C);
      cpsr := WithFlag(cpsr, v, CPSR_V);
    }

    /** The exact sum is in the result and the carry. */
    method Adds(x: Word, y: Word) returns (d: Word)
      modifies this`cpsr
      ensures d == Wrap(x + y) && cpsr == AddFlags(old(cpsr), x, y)
      ensures Carry(cpsr) * TWO32 + d == x + y
    {
      hide SetFlags, FlagC, FlagN, FlagZ, FlagV;
      Effects.FlagsSet(cpsr, Msb(Wrap(x + y)), Wrap(x + y) == 0, Wrap(x + y) < x || Wrap(x + y) < y,
                       SignsDiffer(x, y) && SignsDiffer(Wrap(x + y), x));
      d := Wrap(x + y);
      SetStatus(Msb(d), d == 0, d < x || d < y, SignsDiffer(x, y) && SignsDiffer(d, x));
    }

    /** The exact difference is in the result and the borrow, and every condition compares x with y. */
    method Subs(x: Word, y: Word) returns (d: Word)
      modifies this`cpsr
      ensures d == Wrap(x - y) && cpsr == SubFlags(old(cpsr), x, y) && Effects.Compares(cpsr, x, y)
      ensures d - (1 - Carry(cpsr)) * TWO32 == x - y
    {
      hide SetFlags, FlagC, FlagN, FlagZ, FlagV, Effects.Compares;
      Effects.FlagsSet(cpsr, Msb(Wrap(x - y)), Wrap(x - y) == 0, x >= y, SignsDiffer(x, y) && SignsDiffer(Wrap(x - y), x));
      Effects.ComparisonConditions(cpsr, x, y);
      Decode.FlagsMean(cpsr, x, y);
      d := Wrap(x - y);
      SetStatus(Msb(d), d == 0, x >= y, SignsDiffer(x, y) && SignsDiffer(d, x));
    }

    method Ands(x: Word, y: Word) returns (d: Word)
      modifies this`cpsr
      ensures d == And(x, y) && cpsr == LogicFlags(old(cpsr), And(x, y))
    {
      d := And(x, y);
      SetStatus(Msb(d), d == 0, false, false);
    }

    method Eors(x: Word, y: Word) returns (d: Word)
      modifies this`cpsr
      ensures d == Xor(x, y) && cpsr == LogicFlags(old(cpsr), Xor(x, y))
    {
      d := Xor(x, y);
      SetStatus(Msb(d), d == 0, false, false);
    }

    /**
     One entry of the dispatch tables applied: the operation's reference meaning, where the comparisons
     return r0.
     */
    method Operate(op: bv4, setFlags: bool, x: Word, y: Word) returns (d: Word)
      requires Valid()
      modifies this`cpsr
      ensures Alu(d, cpsr) == DataOp(op, setFlags, r[0], old(cpsr), x, y)
      ensures OperationMeans(op, setFlags, r[0], old(cpsr), x, y, Alu(d, cpsr))
    {
      hide AddFlags, SubFlags, LogicFlags, And, Or, Xor, FlagC, OperationMeans;
      hide Effects.Compares, Wrap, Not, Carry;
      MeaningOf(op, setFlags, r[0], cpsr, x, y);
      match op
      case 0 => if setFlags { d := Ands(x, y); } else { d := And(x, y); }
      case 1 => if setFlags { d := Eors(x, y); } else { d := Xor(x, y); }
      case 2 => if setFlags { d := Subs(x, y); } else { d := Wrap(x - y); }
      case 3 => if setFlags { d := Subs(y, x); } else { d := Wrap(y - x); }
      case 4 => if setFlags { d := Adds(x, y); } else { d := Wrap(x + y); }
      case 5 => d := Wrap(x + y + Carry(cpsr));
      case 6 => d := Wrap(x - y + Carry(cpsr));
      case 7 => d := Wrap(x - y + Carry(cpsr));
      case 8 => d := Ands(x, y); d := r[0];
      case 9 => d := Eors(x, y); d := r[0];
      case 10 => d := Subs(x, y); d := r[0];
      case 11 => d := Adds(x, y); d := r[0];
      case 12 => d := Or(x, y);
      case 13 => d := y;
      case 14 => d := And(x, Not(y));
      case 15 => d := Not(y);
    }

    // ---------------------------------------------------------------------------
    // Handlers
    // ---------------------------------------------------------------------------

    method CalcImmediate(i: bv32) returns (v: bv32)
      ensures v == Machine.CalcImmediate(i)
    {
      TwoShiftsRotate(i & 0xff, Reg8(i));
      v := TwoShifts(i & 0xff, Twice(Reg8(i)));
    }

    method ExecDataProcessing(i: bv32)
      requires Valid() && (Bit25(i) || ShiftDefined(r[..], i))
      modifies this`cpsr, r
      ensures Value() == DataProcessing(old(Value()), i)
      ensures Classify(i) == Class.Data ==> Means(i, old(Value()), Value(), syscall)
    {
      hide Classify, Means;
      hide DataOp, CalcShift, Machine.CalcImmediate, ShiftDefined, Bit25, Bit20, OpOf, Reg16, Reg12;
      DataMeans(i, Value(), syscall);
      var operand: Word;
      if Bit25(i) {
        var immediate := CalcImmediate(i);
        operand := ToInt(immediate);
      } else {
        operand := CalcShift(r[..], i);
      }
      var x := Get(r[..], Reg16(i));
      var d := Operate(OpOf(i), Bit20(i), x, operand);
      SetReg(Reg12(i), d);
    }

    method ExecDataTransfer(i: bv32)
      requires Valid() && (Bit25(i) ==> ShiftDefined(r[..], i))
      requires var base := Get(r[..], Reg16(i));
        InMem(memory[..], if Bit24(i) then Offset(base, TransferOffset(r[..], i), Bit23(i)) else base)
      modifies r, memory
      ensures Value() == DataTransfer(old(Value()), i)
      ensures Classify(i) == Class.Single ==> Means(i, old(Value()), Value(), syscall)
    {
      hide Classify, Means;
      hide TransferOffset, CalcShift, ShiftDefined, Merge, Masked, LoadWord, StoreWord, Offset;
      hide Bit20, Bit21, Bit22, Bit23, Bit24, Bit25, Reg16, Reg12;
      TransferMeans(i, Value(), syscall);
      var pre := Bit24(i);
      var base := Get(r[..], Reg16(i));
      var pointer := Offset(base, TransferOffset(r[..], i), Bit23(i));
      var mask: bv32 := if Bit22(i) then 0xff else 0xffff_ffff;
      var address := if pre then pointer else base;
      var existing := LoadPtr(address);
      if Bit20(i) {
        SetReg(Reg12(i), Masked(existing, mask));
      } else {
        StorePtr(address, Merge(existing, Get(r[..], Reg12(i)), mask));
      }
      if Bit21(i) || !pre {
        SetReg(Reg16(i), pointer);
      }
    }

    method ExecHalf(i: bv32, rm: Word)
      requires Valid() && HalfDefined(Value(), i, rm)
      modifies r, memory
      ensures Value() == HalfTransfer(old(Value()), i, rm)
      ensures Classify(i) == Class.Half && rm == old(Get(r[..], Reg0(i))) ==> Means(i, old(Value()), Value(), syscall)
    {
      hide Classify, Means, Reg0;
      hide Merge, Extended, LoadWord, StoreWord, Offset, HalfImmediate, ToInt, ToBits, Get;
      hide Bit5, Bit6, Bit20, Bit21, Bit22, Bit23, Bit24, Reg16, Reg12;
      HalfMeans(i, Value(), syscall);
      var pre := Bit24(i);
      var base := Get(r[..], Reg16(i));
      var offset := if Bit22(i) then ToInt(HalfImmediate(i)) else rm;
      var pointer := Offset(base, offset, Bit23(i));
      var mask: bv32 := if Bit5(i) then 0xffff else 0xff;
      var sign: bv32 := if Bit5(i) then 0x8000 else 0x80;
      var address := if pre then pointer else base;
      var existing := LoadPtr(address);
      if Bit20(i) {
        SetReg(Reg12(i), Extended(ToBits(existing), Bit6(i), mask, sign));
      } else {
        StorePtr(address, Merge(existing, Get(r[..], Reg12(i)), mask));
      }
      if Bit21(i) || !pre {
        SetReg(Reg16(i), pointer);
      }
    }

    /** One pass through the block-transfer loop. */
    method Visit(i: bv32, j: nat, rn: Word) returns (next: Word)
      requires Valid() && j < 16
      requires BitAt(i, j) ==> InMem(memory[..], if Bit24(i) then (if Bit23(i) then Wrap(rn + 4) else Wrap(rn - 4)) else rn)
      modifies this`location, r, memory
      ensures Cursor(Value(), next) == BlockVisit(Cursor(old(Value()), rn), i, j)
    {
      next := rn;
      if BitAt(i, j) {
        next := if Bit23(i) then Wrap(rn + 4) else Wrap(rn - 4);
        var address := if Bit24(i) then next else rn;
        if Bit20(i) {
          var v := LoadPtr(address);
          r[j] := v;
          if j == 15 {
            location := r[15];
          }
        } else {
          StorePtr(address, r[j]);
        }
      }
    }

    method ExecBlockDataTransfer(i: bv32)
      requires Valid() && BlockDefined(Cursor(Value(), Get(r[..], Reg16(i))), i, 0)
      modifies this`location, r, memory
      ensures Value() == BlockTransfer(old(Value()), i)
      ensures Classify(i) == Class.Block ==> Means(i, old(Value()), Value(), syscall)
    {
      hide Classify, Means;
      hide BitAt, LoadWord, StoreWord, InMem, BlockVisit, Wrap, Get;
      hide Bit20, Bit21, Bit23, Bit24, Reg16;
      BlockMeans(i, Value(), syscall);
      var rn: Word := Get(r[..], Reg16(i));
      var n: nat := 0;
      while n < 16
        invariant n <= 16 && Valid()
        invariant BlockDefined(Cursor(Value(), rn), i, n)
        invariant BlockLoop(Cursor(Value(), rn), i, n) == old(BlockLoop(Cursor(Value(), Get(r[..], Reg16(i))), i, 0))
      {
        rn := Visit(i, if Bit23(i) then n else 15 - n, rn);
        n := n + 1;
      }
      if Bit21(i) {
        SetReg(Reg16(i), rn);
      }
    }

    method ExecBranchWithLink(i: bv32)
      requires Valid()
      modifies this`location, r
      ensures Value() == BranchWithLink(old(Value()), i)
      ensures BranchMeans(i, old(Value()), Value(), syscall)
    {
      hide BranchMeans;
      hide Bit24, Bit23, ToInt, Nat;
      BranchHandlerMeans(i, Value(), syscall);
      var offset: Word := ToInt(i & 0x00ff_ffff);
      if Bit24(i) {
        SetReg(LR, location);
      }
      if Bit23(i) {
        location := Wrap(location - (0xffff_ffff - Wrap(offset - 1)) % 0x100_0000);
      } else {
        location := Wrap(location + offset);
      }
    }

    method ExecMul(i: bv32)
      requires Valid()
      modifies this`cpsr, r
      ensures Value() == Multiply(old(Value()), i)
      ensures Classify(i) == Class.MultiplyClass ==> Means(i, old(Value()), Value(), syscall)
    {
      hide Classify, Means;
      hide Bit20, Bit21, Reg0, Reg8, Reg12, Reg16, SetFlags, Wrap, Msb, SignsDiffer, Get;
      MultiplyMeans(i, Value(), syscall);
      var x: Word, y: Word, n: Word := Get(r[..], Reg0(i)), Get(r[..], Reg8(i)), Get(r[..], Reg12(i));
      var d: Word := if Bit21(i) then Wrap(x * y + n) else Wrap(x * y);
      SetReg(Reg16(i), d);
      if Bit20(i) {
        SetStatus(Msb(d), d == 0, d < x || d < y, SignsDiffer(x, y) && SignsDiffer(d, x));
      }
    }

    method ExecUmul(i: bv32)
      requires Valid() && !Bit20(i)
      modifies r
      ensures Value() == LongMultiply(old(Value()), i)
      ensures Classify(i) == Class.LongClass ==> Means(i, old(Value()), Value(), syscall)
    {
      hide Classify, Means;
      hide Bit20, Bit21, Reg0, Reg8, Reg12, Reg16, HighHalf, Or;
      LongMeans(i, Value(), syscall);
      var x: Word, y: Word := Get(r[..], Reg0(i)), Get(r[..], Reg8(i));
      var low: Word, high: Word := Wrap(x * y), HighHalf(x, y);
      if Bit21(i) {
        var rdLo, rdHi := Get(r[..], Reg12(i)), Get(r[..], Reg16(i));
        low := Or(low, rdLo);
        high := Wrap(high + rdHi);
      }
      SetReg(Reg16(i), high);
      SetReg(Reg12(i), low);
    }

    // ---------------------------------------------------------------------------
    // Fetch, dispatch, run
    // ---------------------------------------------------------------------------

    /** The word at the location; the location moves past it and r15 two words past it. */
    method Fetch() returns (i: bv32)
      requires Valid() && InMem(memory[..], location)
      modifies this`location, r
      ensures i == Machine.Fetch(old(Value())) && Value() == Advance(old(Value()))
    {
      hide LoadWord, ToBits;
      var word := LoadPtr(location);
      i := ToBits(word);
      location := Wrap(location + 4);
      SetReg(PC, Wrap(location + 4));
    }

    /** One instruction: fetched, its condition checked, and claimed by the first mask that fits. */
    method ExecInstruction()
      requires Valid() && StepDefined(Value())
      modifies this`location, this`cpsr, r, memory
      ensures Value() == Step(old(Value()), syscall) && StepMeans(old(Value()), Value(), syscall)
    {
      hide Dispatch, Defined, Condition, CondOf, Advance, Machine.Fetch, Means, StepMeans;
      StepIsMeant(Value(), syscall);
      var i := Fetch();
      var cond := CondOf(i);
      Always(cpsr);
      if cond != 14 && !Condition(cpsr, cond) {
        return;
      }
      Exec(i);
    }

    method Exec(i: bv32)
      requires Valid() && Defined(Value(), i)
      modifies this`location, this`cpsr, r, memory
      ensures Value() == Dispatch(old(Value()), i, syscall) && Means(i, old(Value()), Value(), syscall)
    {
      hide Means;
      hide Multiply, LongMultiply, HalfTransfer, DataProcessing, DataTransfer, BlockTransfer, BranchWithLink;
      hide ShiftDefined, BlockDefined, HalfDefined, TransferOffset, Offset, InMem, Get;
      DispatchMeans(i, Value(), syscall);
      if i & MASK_BX == OP_BX {
        location := Get(r[..], Reg0(i));
      } else if i & MASK_MUL == OP_MUL {
        ExecMul(i);
      } else if i & MASK_UMUL == OP_UMUL {
        ExecUmul(i);
      } else if i & MASK_LDRSB == OP_LDRSB {
        ExecHalf(i, Get(r[..], Reg0(i)));
      } else if i & MASK_LDRSBI == OP_LDRSBI {
        // Never reached: the mask before this one claims the same words.
        assert false;
      } else if i & MASK_BEXT == OP_BEXT {
        SetReg(0, syscall(r[..], memory[..], ToInt(ProcField(i))));
      } else if i & MASK_TRAP == OP_TRAP {
      } else if (i >> 25) & 7 <= 1 {
        ExecDataProcessing(i);
      } else if (i >> 25) & 7 <= 3 {
        ExecDataTransfer(i);
      } else if (i >> 25) & 7 == 4 {
        ExecBlockDataTransfer(i);
      } else if (i >> 25) & 7 == 5 {
        ExecBranchWithLink(i);
      }
    }

    method Reset(pc: Word)
      requires Valid()
      modifies this`location, r
      ensures Value() == Start(old(Value()), pc, progsize) && Started(old(Value()), Value(), pc, progsize)
    {
      StartIs(Value(), pc, progsize);
      var k := 0;
      while k < 13
        invariant 0 <= k <= 13
        invariant forall j :: 0 <= j < 16 ==> r[j] == if j < k then 0xffff_ffff else old(r[j])
      {
        r[k] := 0xffff_ffff;
        k := k + 1;
      }
      r[14] := progsize;
      location := pc;
      assert r[..] == Start(old(Value()), pc, progsize).r;
    }

    /** Runs from pc until the location leaves the program; n is the number of steps that takes. */
    method Execute(pc: Word, ghost n: nat)
      requires Valid() && Halts(Start(Value(), pc, progsize), syscall, progsize, n)
      modifies this`location, this`cpsr, r, memory
      ensures Value() == Run(Start(old(Value()), pc, progsize), syscall, n)
      ensures location >= progsize
    {
      hide Start, Step, StepDefined;
      Reset(pc);
      ghost var start := Value();
      ghost var left: nat := n;
      while location < progsize
        invariant Valid() && Halts(Value(), syscall, progsize, left)
        invariant Run(Value(), syscall, left) == Run(start, syscall, n)
        decreases left
      {
        ExecInstruction();
        left := left - 1;
      }
    }
  }
}
