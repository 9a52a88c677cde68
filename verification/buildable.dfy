/** Which sources assemble: the one word the assembler cannot write, and the programs that always build. */
module Buildable {
  import opened Words
  import opened Machine
  import opened Asm
  import opened Encoder
  import opened Decode
  import opened Agreement
  import opened Symbols
  import opened Nesting
  import opened Assembler
  import opened Program
  import opened SumArray

  /**
   The encoder reports failure by the word 0, which is also the encoding of `andeq r0, r0, r0`, spelled
   with or without an explicit shift by nothing.
   */
  predicate Unwritable(i: Instr) {
    && i.Data? && i.cond == 0 && i.op == AND && !i.setFlags && i.rd == 0 && i.rn == 0
    && (i.op2 == Plain(0) || i.op2 == ByConst(0, LSL, 0))
  }

  // ---------------------------------------------------------------------------
  // Words that are not zero
  // ---------------------------------------------------------------------------

  lemma DataZero(cond: bv4, s: bool, opcode: bv4, rd: Reg, rn: Reg, low: bv32)
    requires !IsCompareCode(opcode) && PlainLow(low)
    ensures DataWord(cond, s, opcode, rd, rn, low) == 0
      <==> cond == 0 && !s && opcode == 0 && rd == 0 && rn == 0 && low == 0
  {
  }

  lemma CompareNonzero(cond: bv4, s: bool, opcode: bv4, rd: Reg, rn: Reg, low: bv32)
    requires IsCompareCode(opcode)
    ensures DataWord(cond, s, opcode, rd, rn, low) != 0
  {
  }

  lemma ImmediateNonzero(cond: bv4, s: bool, opcode: bv4, rd: Reg, rn: Reg, w: bv32)
    ensures DataWord(cond, s, opcode, rd, rn, ImmediateBits(w)) != 0
  {
  }

  lemma PlainZero(rm: Reg)
    ensures RegBits(rm) == 0 <==> rm == 0
  {
  }

  lemma ConstShiftZero(rm: Reg, kind: bv2, amount: bv5)
    ensures ConstShiftBits(rm, kind, Wide5(amount)) == 0 <==> rm == 0 && kind == 0 && amount == 0
  {
  }

  lemma RegShiftNonzero(rm: Reg, kind: bv2, rs: Reg)
    ensures RegShiftBits(rm, kind, rs) != 0
  {
  }

  lemma OperandZero(op: RegOperand)
    ensures Write12BitOperand(Parsed(op), true) == 0 <==> op == Plain(0) || op == ByConst(0, LSL, 0)
    ensures PlainLow(Write12BitOperand(Parsed(op), true))
  {
    hide RegBits, ConstShiftBits, RegShiftBits, PlainLow, PackImmediate;
    RegOperandNarrow(op, Parsed(op), true);
    match op
    case Plain(rm) => PlainZero(rm);
    case ByConst(rm, kind, amount) => ConstShiftZero(rm, ShiftCode(kind), amount);
    case ByReg(rm, kind, rs) => RegShiftNonzero(rm, ShiftCode(kind), rs);
  }

  lemma OpcodeZero(op: Op)
    ensures Opcode(op) == 0 <==> op == AND
    ensures IsCompareCode(Opcode(op)) <==> IsCompare(op)
  {
  }

  lemma DataWritten(i: Instr)
    requires i.Data?
    ensures Encode(i) == 0 <==> Unwritable(i)
  {
    hide DataWord, Write12BitOperand, Opcode, Encode, IsCompareCode, ImmediateBits, Parsed, PlainLow, PackImmediate;
    var low, first, named := Write12BitOperand(Parsed(i.op2), true), FirstReg(i.op, i.rn, i.op2), NamedReg(i.op, i.rd, i.rn);
    EncodeData(i.cond, i.op, i.setFlags, i.rd, i.rn, i.op2);
    OpcodeZero(i.op);
    if IsCompare(i.op) {
      CompareNonzero(i.cond, i.setFlags, Opcode(i.op), named, first, low);
    } else if i.op2.Imm? {
      ImmediateOperand(i.op2);
      ImmediateNonzero(i.cond, i.setFlags, Opcode(i.op), named, first, PackImmediate(i.op2.magnitude, i.op2.negative));
    } else {
      OperandZero(i.op2);
      DataZero(i.cond, i.setFlags, Opcode(i.op), named, first, low);
    }
  }

  lemma ImmediateOperand(op2: Operand2)
    requires op2.Imm?
    ensures Write12BitOperand(Parsed(op2), true) == ImmediateBits(PackImmediate(op2.magnitude, op2.negative))
  {
    hide ImmediateBits, PackImmediate;
  }

  lemma MultiplyNonzero(cond: bv4, accumulate: bool, b: bool, rd: Reg, rm: Reg, rs: Reg, rn: Reg)
    ensures AssembleMultiply(cond, accumulate, b, rd, rm, rs, rn) != 0
    ensures AssembleLongMultiply(cond, b, accumulate, rd, rm, rs, rn) != 0
  {
  }

  lemma WordTransferNonzero(cond: bv4, load: bool, byte: bool, rd: Reg, rn: Reg, index: Indexing, negate: bool, low: bv32)
    ensures WordTail(Bracketed(TransferHead(cond, load, byte, rd), rn, index), negate, low) != 0
  {
    TailNonzero(Bracketed(TransferHead(cond, load, byte, rd), rn, index), negate, low);
  }

  /** Bit 26 marks a word or byte transfer. */
  lemma TailNonzero(head: bv32, negate: bool, low: bv32)
    requires head & 0x0400_0000 != 0
    ensures WordTail(head, negate, low) != 0
  {
  }

  lemma SdtNonzero(head: bv32, negate: bool, op: Operand, sh: bv32)
    ensures SdtTail(head, negate, WriteSdtOperand(op, sh)) != 0
  {
  }

  lemma TransferNonzero(cond: bv4, load: bool, byte: bool, sh: bv32, rd: Reg, rn: Reg, op: Operand, index: Indexing)
    ensures AssembleTransfer(cond, load, byte, sh, rd, rn, op, index) != 0
  {
    hide WordTail, SdtTail, WriteSdtOperand, Write12BitOperand, Bracketed, TransferHead;
    var head := Bracketed(TransferHead(cond, load, byte, rd), rn, index);
    SdtNonzero(head, op.negate, op, sh);
    WordTransferNonzero(cond, load, byte, rd, rn, index, op.negate, Write12BitOperand(op, false));
  }

  lemma OthersNonzero(cond: bv4, a: bool, b: bool, mode: BlockMode, rn: Reg, list: bv16)
    ensures AssembleBlock(cond, a, mode, b, rn, list) != 0
    ensures AssembleBx(cond, rn) != 0 && AssembleTrap(cond) != 0
    ensures AssembleBranch(cond, a) != 0
    ensures AssembleLiteral(cond, a, b, 0, rn) != 0
  {
  }

  lemma CallNonzero(link: bool, proc: bv16)
    ensures AssembleExternal(link, proc) != 0
  {
  }

  /** Exactly one instruction cannot be written, in its two spellings. */
  lemma OnlyZeroFails(i: Instr)
    ensures Placeholder(i) == 0 <==> Unwritable(i)
  {
    hide AssembleMultiply, AssembleLongMultiply, AssembleTransfer, AssembleBlock, AssembleBx, AssembleTrap;
    hide AssembleBranch, AssembleLiteral, AssembleExternal, AssembleData, ParsedWordOffset, ParsedHalfOffset;
    hide KindCode;
    match i
    case Data(_, _, _, _, _, _) =>
      DataWritten(i);
    case Mul(cond, accumulate, setFlags, rd, rm, rs, rn) =>
      MultiplyNonzero(cond, accumulate, setFlags, rd, rm, rs, rn);
    case LongMul(cond, isSigned, accumulate, rdLo, rdHi, rm, rs) =>
      MultiplyNonzero(cond, accumulate, isSigned, rdLo, rdHi, rm, rs);
    case Transfer(cond, load, byte, rd, rn, offset, negative, index) =>
      TransferNonzero(cond, load, byte, 0, rd, rn, ParsedWordOffset(offset, negative), index);
    case HalfMove(cond, load, kind, rd, rn, off8, negative, index) =>
      TransferNonzero(cond, load, false, KindCode(kind), rd, rn, ParsedHalfOffset(off8, negative), index);
    case BlockMove(cond, load, mode, writeback, rn, list) =>
      OthersNonzero(cond, load, writeback, mode, rn, list);
    case Bx(cond, rm) => OthersNonzero(cond, false, false, DA, rm, 0);
    case TrapIns(cond) => OthersNonzero(cond, false, false, DA, 0, 0);
    case Call(link, proc) => CallNonzero(link, proc);
    case Jump(cond, link, _) => OthersNonzero(cond, link, false, DA, 0, 0);
    case Literal(cond, load, byte, rd, _) => OthersNonzero(cond, load, byte, DA, rd, 0);
    case Address(_, _, _) =>
  }

  // ---------------------------------------------------------------------------
  // Sources
  // ---------------------------------------------------------------------------

  predicate FailsAt(p: Source, k: nat) {
    IsInstr(p, k) && Unwritable(InstrOf(p, k))
  }

  lemma EmitFails(p: Source, u: Unit, k: nat)
    requires k < |p.items|
    ensures Emit(u, p.items[k], p.host, p.stale).None? <==> FailsAt(p, k)
  {
    hide Placeholder, Unwritable, Effective, AddLabel, Bytes, ToInt, Padding, Encode;
    if IsInstr(p, k) {
      OnlyZeroFails(InstrOf(p, k));
    }
  }

  /** Pass 1 fails exactly on a source with an instruction that cannot be written. */
  lemma {:induction false} Pass1Fails(p: Source, n: nat)
    requires n <= |p.items|
    ensures Pass1(p, n).None? <==> exists k :: 0 <= k < n && FailsAt(p, k)
    decreases n
  {
    hide Emit, FailsAt;
    if n > 0 {
      Pass1Fails(p, n - 1);
      if Pass1(p, n - 1).Some? {
        EmitFails(p, Pass1(p, n - 1).value, n - 1);
      }
    }
  }

  /** An item of code alone: no data, and no transfer from a label. */
  predicate CodeItem(p: Source, k: nat)
    requires k < |p.items|
  {
    match p.items[k]
    case LabelItem(_) => true
    case GloblItem(_) => true
    case SetItem(_, _) => true
    case InsItem(i) => !Effective(i, p.host).Literal?
    case _ => false
  }

  ghost predicate NoLiterals(pending: seq<Pending>) {
    forall q :: q in pending ==> q.reloc != RTransfer
  }

  lemma EmitCode(p: Source, u: Unit, k: nat)
    requires k < |p.items| && CodeItem(p, k) && NoLiterals(u.pending)
    requires Emit(u, p.items[k], p.host, p.stale).Some?
    ensures var v := Emit(u, p.items[k], p.host, p.stale).value;
      NoLiterals(v.pending) && |v.out| <= |u.out| + 4
  {
    hide Placeholder, Effective, Find, Updated, ToInt, Encode;
  }

  lemma {:induction false} CodePass(p: Source, n: nat)
    requires n <= |p.items| && (forall k :: 0 <= k < n ==> CodeItem(p, k)) && Pass1(p, n).Some?
    ensures NoLiterals(Pass1(p, n).value.pending) && |Pass1(p, n).value.out| <= 4 * n
    decreases n
  {
    hide Emit, CodeItem, NoLiterals;
    if n > 0 {
      CodePass(p, n - 1);
      EmitCode(p, Pass1(p, n - 1).value, n - 1);
    } else {
      NothingPending();
    }
  }

  lemma NothingPending()
    ensures NoLiterals(EMPTY.pending)
  {
  }

  lemma NoLiteralsLink(t: Tables, pending: seq<Pending>)
    requires NoLiterals(pending)
    ensures AllLinkable(t, pending)
  {
    hide Lookup;
  }

  /**
   Code of less than 2^29 lines builds exactly when every instruction can be written and no reference
   reaches a cycle of definitions.
   */
  lemma CodeBuilds(p: Source)
    requires |p.items| <= 0x2000_0000
    requires forall k :: 0 <= k < |p.items| ==> CodeItem(p, k)
    ensures Builds(p) <==>
      && (forall k :: 0 <= k < |p.items| ==> !FailsAt(p, k))
      && Pass1(p, |p.items|).Some?
      && var u := Pass1(p, |p.items|).value;
         forall q :: q in u.pending ==> !TextReachesCycle(u.tables, q.text)
  {
    hide CodeItem, FailsAt, EmitAll, AllLinkable, AllReturn, NoLiterals, TextReachesCycle;
    Pass1Fails(p, |p.items|);
    if Pass1(p, |p.items|).Some? {
      CodePass(p, |p.items|);
      var u := Pass1(p, |p.items|).value;
      NoLiteralsLink(u.tables, u.pending);
      AllReturnExactly(u.tables, u.pending);
    }
  }

  lemma {:induction false} NoSets(p: Source, n: nat)
    requires n <= |p.items| && (forall k :: 0 <= k < n ==> !p.items[k].SetItem?) && Pass1(p, n).Some?
    ensures Pass1(p, n).value.tables.sets == []
    decreases n
  {
    hide Emit;
    if n > 0 {
      NoSets(p, n - 1);
      KeepsSets(Pass1(p, n - 1).value, p.items[n - 1], p.host, p.stale);
    }
  }

  lemma KeepsSets(u: Unit, item: Item, host: seq<string>, stale: Stale)
    requires !item.SetItem? && Emit(u, item, host, stale).Some?
    ensures Emit(u, item, host, stale).value.tables.sets == u.tables.sets
  {
    hide Placeholder, Effective, Find, Updated, ToInt, Encode, Padding;
  }

  lemma SumContained(p: Source)
    requires p.items == ITEMS && "sum_loop" !in p.host && "sum_done" !in p.host
    ensures Contains(p, 0)
  {
    assert p.items[0..14] == ITEMS;
  }

  lemma SumHasNoSets()
    ensures forall k :: 0 <= k < |ITEMS| ==> !ITEMS[k].SetItem?
  {
  }

  /** `_sum_array` alone, with any host functions but its own inner labels, builds and contains itself. */
  lemma SumArrayAlone(host: seq<string>, stale: Stale)
    requires "sum_loop" !in host && "sum_done" !in host
    ensures var p := Source(ITEMS, host, stale);
      Builds(p) && Contains(p, 0)
  {
    hide CodeItem, FailsAt, EmitAll, AllReturn, AllLinkable, Contains, TextReachesCycle;
    var p := Source(ITEMS, host, stale);
    forall k | 0 <= k < |p.items|
      ensures CodeItem(p, k) && !FailsAt(p, k)
    {
      ItemOfSum(p, k);
    }
    SumSize();
    Pass1Fails(p, |p.items|);
    var u := Pass1(p, |p.items|).value;
    SumHasNoSets();
    NoSets(p, |p.items|);
    NoDefinitions(u.tables, u.pending);
    AllReturnExactly(u.tables, u.pending);
    CodeBuilds(p);
    SumContained(p);
  }

  lemma SumSize()
    ensures |ITEMS| == 14
  {
  }

  lemma ItemOfSum(p: Source, k: nat)
    requires p.items == ITEMS && "sum_loop" !in p.host && "sum_done" !in p.host && k < 14
    ensures CodeItem(p, k) && !FailsAt(p, k)
  {
    if p.items[k].InsItem? {
      InnerNames();
      EffectiveCode(p.items[k].i, p.host);
    }
    hide Effective;
  }
}
