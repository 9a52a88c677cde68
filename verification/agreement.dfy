/** One interpreter step on an assembled word is one step of the instruction it was assembled from. */
module Agreement {
  import opened Words
  import opened Machine
  import opened Asm
  import opened Encoder
  import opened Decode
  import DecodeTransfer
  import DecodeHalf
  import DecodeMisc
  import opened Relocate

  // ---------------------------------------------------------------------------
  // Instructions without a label
  // ---------------------------------------------------------------------------

  function NamedReg(op: Op, rd: Reg, rn: Reg): Reg {
    if IsCompare(op) then rn else rd
  }

  function FirstReg(op: Op, rn: Reg, op2: Operand2): Reg {
    if IsCompare(op) || IsMove(op) then Parsed(op2).reg0 else rn
  }

  lemma EncodeData(cond: bv4, op: Op, setFlags: bool, rd: Reg, rn: Reg, op2: Operand2)
    ensures Encode(Instr.Data(cond, op, setFlags, rd, rn, op2))
      == DataWord(cond, setFlags, Opcode(op), NamedReg(op, rd, rn), FirstReg(op, rn, op2), Write12BitOperand(Parsed(op2), true))
  {
    hide DataWord, Write12BitOperand, Opcode, IsCompareCode, ShiftCode;
  }

  lemma DataDispatch(i: Instr, s: State, host: Host, target: Word, w: bv32)
    requires i.Data? && Encodable(i) && w == Encode(i)
    ensures CondOf(w) == i.cond && Dispatch(s, w, host) == Exec(i, target, s, host)
  {
    hide Encode, DataWord, Write12BitOperand, Parsed, Opcode, CondOf, Classify, DataProcessing, ExecData;
    hide OperandValue, Packable, ImmValue;
    EncodeData(i.cond, i.op, i.setFlags, i.rd, i.rn, i.op2);
    DataAgrees(i.cond, i.op, i.setFlags, i.rd, i.rn, i.op2, FirstReg(i.op, i.rn, i.op2),
               Write12BitOperand(Parsed(i.op2), true), s, w);
  }

  lemma TransferDispatch(i: Instr, s: State, host: Host, target: Word, w: bv32)
    requires (i.Transfer? || i.HalfMove?) && w == Encode(i)
    ensures CondOf(w) == i.cond && Dispatch(s, w, host) == Exec(i, target, s, host)
  {
    hide AssembleTransfer, ParsedWordOffset, ParsedHalfOffset, KindCode, CondOf, Classify, Reg0, Get, DataTransfer;
    hide HalfTransfer, ExecTransfer, ExecHalf, WordOffsetValue, HalfOffsetValue, Wide12, Wide8;
    if i.Transfer? {
      DecodeTransfer.TransferAgrees(i.cond, i.load, i.byte, i.rd, i.rn, i.offset, i.negative, i.index, s, w);
    } else {
      DecodeHalf.HalfAgrees(i.cond, i.load, i.kind, i.rd, i.rn, i.off8, i.negative, i.index, s, w);
    }
  }

  lemma MultiplyDispatch(i: Instr, s: State, host: Host, target: Word, w: bv32)
    requires (i.Mul? || i.LongMul?) && w == Encode(i)
    ensures CondOf(w) == i.cond && Dispatch(s, w, host) == Exec(i, target, s, host)
  {
    hide AssembleMultiply, AssembleLongMultiply, CondOf, Classify, Multiply, LongMultiply, Wrap, Get, Put;
    hide MultiplyFlags, LongHigh, LongLow;
    if i.Mul? {
      DecodeMisc.MultiplyAgrees(i.cond, i.accumulate, i.setFlags, i.rd, i.rm, i.rs, i.rn, s, host, w);
    } else {
      DecodeMisc.LongAgrees(i.cond, i.isSigned, i.accumulate, i.rdLo, i.rdHi, i.rm, i.rs, s, host, w);
    }
  }

  lemma BlockDispatch(i: Instr, s: State, host: Host, target: Word, w: bv32)
    requires i.BlockMove? && w == Encode(i)
    ensures CondOf(w) == i.cond && Dispatch(s, w, host) == Exec(i, target, s, host)
  {
    hide AssembleBlock, CondOf, Classify, BlockTransfer, ExecBlock, Wide16;
    DecodeMisc.BlockAgrees(i.cond, i.load, i.mode, i.writeback, i.rn, i.list, s, w);
  }

  lemma BxDispatch(i: Instr, s: State, host: Host, target: Word, w: bv32)
    requires i.Bx? && w == Encode(i)
    ensures CondOf(w) == ConditionOf(i) && Dispatch(s, w, host) == Exec(i, target, s, host)
  {
    hide AssembleBx, CondOf, Classify, Reg0, Get;
    DecodeMisc.BxWord(i.cond, i.rm, w);
  }

  lemma TrapDispatch(i: Instr, s: State, host: Host, target: Word, w: bv32)
    requires i.TrapIns? && w == Encode(i)
    ensures CondOf(w) == ConditionOf(i) && Dispatch(s, w, host) == Exec(i, target, s, host)
  {
    hide AssembleTrap, CondOf, Classify;
    DecodeMisc.TrapWord(i.cond, w);
  }

  lemma CallDispatch(i: Instr, s: State, host: Host, target: Word, w: bv32)
    requires i.Call? && w == Encode(i)
    ensures CondOf(w) == ConditionOf(i) && Dispatch(s, w, host) == Exec(i, target, s, host)
  {
    hide AssembleExternal, CondOf, Classify, ProcField, Nat, Wide16;
    DecodeMisc.ExternalWord(i.link, i.proc, w);
    DecodeMisc.ExternalClass(i.link, i.proc, w);
  }

  /** Encode then execute is the instruction's meaning, for every encodable instruction without a label. */
  lemma EncodeThenExecute(i: Instr, s: State, host: Host, target: Word)
    requires !Symbolic(i) && Encodable(i)
    ensures CondOf(Encode(i)) == ConditionOf(i)
    ensures Dispatch(s, Encode(i), host) == Exec(i, target, s, host)
  {
    hide Encode, CondOf, Dispatch, Exec, Encodable;
    match i
    case Data(_, _, _, _, _, _) => DataDispatch(i, s, host, target, Encode(i));
    case Mul(_, _, _, _, _, _, _) => MultiplyDispatch(i, s, host, target, Encode(i));
    case LongMul(_, _, _, _, _, _, _) => MultiplyDispatch(i, s, host, target, Encode(i));
    case Transfer(_, _, _, _, _, _, _, _) => TransferDispatch(i, s, host, target, Encode(i));
    case HalfMove(_, _, _, _, _, _, _, _) => TransferDispatch(i, s, host, target, Encode(i));
    case BlockMove(_, _, _, _, _, _) => BlockDispatch(i, s, host, target, Encode(i));
    case Bx(_, _) => BxDispatch(i, s, host, target, Encode(i));
    case TrapIns(_) => TrapDispatch(i, s, host, target, Encode(i));
    case Call(_, _) => CallDispatch(i, s, host, target, Encode(i));
  }

  // ---------------------------------------------------------------------------
  // Instructions with a label
  // ---------------------------------------------------------------------------

  /** The word of instruction i at position `at` once its label is known to stand for `target`. */
  predicate InReach(i: Instr, at: Word, target: Word) {
    match i
    case Jump(_, _, _) => BranchReach(at, target)
    case Literal(_, _, _, _, _) => LiteralReach(at, target)
    case Address(_, _, _) => AddressReach(at, target)
    case _ => true
  }

  /** The assertion the relocation makes; only literals have one. */
  predicate PatchDefined(i: Instr, at: Word, target: Word) {
    i.Literal? ==> LiteralReach(at, target)
  }

  function Patch(i: Instr, word: bv32, at: Word, target: Word): bv32
    requires PatchDefined(i, at, target)
  {
    match i
    case Jump(_, _, _) => SetPosBranch(word, at, target)
    case Literal(_, _, _, _, _) => SetPosTransfer(word, at, target)
    case Address(_, _, _) => SetPosAddress(word, at, target)
    case _ => word
  }

  lemma JumpExecutes(i: Instr, at: Word, target: Word, s: State, host: Host, w: bv32)
    requires i.Jump? && BranchReach(at, target) && w == SetPosBranch(AssembleBranch(i.cond, i.link), at, target)
    requires s.loc == Wrap(at + 4)
    ensures CondOf(w) == i.cond && Dispatch(s, w, host) == Exec(i, target, s, host)
  {
    hide AssembleBranch, SetPosBranch, BranchReach, Wrap, CondOf, Classify, BranchWithLink;
    BranchRuns(i.cond, i.link, at, target, s, w);
    BranchAgrees(i.cond, i.link, at, target, s, w);
  }

  lemma LiteralExecutes(i: Instr, at: Word, target: Word, s: State, host: Host, w: bv32)
    requires i.Literal? && LiteralReach(at, target) && w == SetPosTransfer(AssembleLiteral(i.cond, i.load, i.byte, 0, i.rd), at, target)
    requires Get(s.r, PC) == Wrap(at + 8)
    ensures CondOf(w) == i.cond && Dispatch(s, w, host) == Exec(i, target, s, host)
  {
    hide AssembleLiteral, SetPosTransfer, LiteralReach, Wrap, CondOf, Classify, DataTransfer, LoadByte, LoadWord;
    hide StoreByte, StoreWord, Get;
    LiteralAgrees(i.cond, i.load, i.byte, i.rd, at, target, s, w);
  }

  lemma AddressExecutes(i: Instr, at: Word, target: Word, s: State, host: Host, w: bv32)
    requires i.Address? && AddressReach(at, target) && w == SetPosAddress(AddressWord(i.cond, i.rd), at, target)
    requires Get(s.r, PC) == Wrap(at + 8)
    ensures CondOf(w) == i.cond && Dispatch(s, w, host) == Exec(i, target, s, host)
  {
    hide AddressWord, SetPosAddress, AddressReach, Wrap, CondOf, Classify, DataProcessing, Get;
    AddressAgrees(i.cond, i.rd, at, target, s, w);
  }

  lemma PatchCases(i: Instr, at: Word, target: Word)
    requires Symbolic(i) && InReach(i, at, target)
    ensures i.Jump? ==>
      BranchReach(at, target) && Patch(i, Encode(i), at, target) == SetPosBranch(AssembleBranch(i.cond, i.link), at, target)
    ensures i.Literal? ==>
      && LiteralReach(at, target)
      && Patch(i, Encode(i), at, target) ==
         SetPosTransfer(AssembleLiteral(i.cond, i.load, i.byte, 0, i.rd), at, target)
    ensures i.Address? ==>
      AddressReach(at, target) && Patch(i, Encode(i), at, target) == SetPosAddress(AddressWord(i.cond, i.rd), at, target)
  {
    hide AssembleBranch, AssembleLiteral, AssembleData, SetPosBranch, SetPosTransfer, SetPosAddress, BranchReach;
    hide LiteralReach, AddressReach;
  }

  /** A patched word does what its instruction says about its target. */
  lemma PatchedExecutes(i: Instr, at: Word, target: Word, s: State, host: Host, w: bv32)
    requires Symbolic(i) && InReach(i, at, target) && w == Patch(i, Encode(i), at, target)
    requires s.loc == Wrap(at + 4) && Get(s.r, PC) == Wrap(at + 8)
    ensures CondOf(w) == ConditionOf(i)
    ensures Dispatch(s, w, host) == Exec(i, target, s, host)
  {
    hide Encode, Patch, AssembleBranch, AssembleLiteral, AddressWord, SetPosBranch, SetPosTransfer, SetPosAddress;
    hide CondOf, Dispatch, Exec, Wrap, Get, BranchReach, LiteralReach, AddressReach;
    PatchCases(i, at, target);
    match i
    case Jump(_, _, _) => JumpExecutes(i, at, target, s, host, w);
    case Literal(_, _, _, _, _) => LiteralExecutes(i, at, target, s, host, w);
    case Address(_, _, _) => AddressExecutes(i, at, target, s, host, w);
  }

  // ---------------------------------------------------------------------------
  // Steps
  // ---------------------------------------------------------------------------

  lemma AdvanceIs(s: State)
    ensures Advance(s).loc == Wrap(s.loc + 4) && Get(Advance(s).r, PC) == Wrap(s.loc + 8)
    ensures Advance(s).cpsr == s.cpsr && Advance(s).mem == s.mem
  {
    hide Wrap;
  }

  lemma FetchIs(s: State, w: bv32)
    requires LoadWord(s.mem, s.loc) == ToInt(w)
    ensures Fetch(s) == w
  {
    hide Nat, ToBits, LoadWord;
    ToBitsToInt(w);
  }

  lemma StepFrom(i: Instr, target: Word, s: State, host: Host, w: bv32)
    requires Fetch(s) == w && CondOf(w) == ConditionOf(i)
    requires Dispatch(Advance(s), w, host) == Exec(i, target, Advance(s), host)
    ensures Step(s, host) == Perform(i, target, s, host)
  {
    hide Fetch, CondOf, ConditionOf, Dispatch, Exec, Advance, Condition;
  }

  lemma PlainPatch(i: Instr, word: bv32, at: Word, target: Word)
    requires !Symbolic(i)
    ensures PatchDefined(i, at, target) && Patch(i, word, at, target) == word
  {
  }

  lemma ReachDefines(i: Instr, at: Word, target: Word)
    requires InReach(i, at, target)
    ensures PatchDefined(i, at, target)
  {
    hide BranchReach, LiteralReach, AddressReach;
  }

  /** Central step: wherever the patched word of an instruction is found, the interpreter performs it. */
  lemma StepPerforms(i: Instr, target: Word, s: State, host: Host)
    requires Encodable(i) && InReach(i, s.loc, target) && PatchDefined(i, s.loc, target)
    requires LoadWord(s.mem, s.loc) == ToInt(Patch(i, Encode(i), s.loc, target))
    ensures Step(s, host) == Perform(i, target, s, host)
  {
    hide *;
    var w := Patch(i, Encode(i), s.loc, target);
    FetchIs(s, w);
    AdvanceIs(s);
    if Symbolic(i) {
      PatchedExecutes(i, s.loc, target, Advance(s), host, w);
    } else {
      PlainPatch(i, Encode(i), s.loc, target);
      EncodeThenExecute(i, Advance(s), host, target);
    }
    StepFrom(i, target, s, host, w);
  }
}
