/** Block transfers, multiplies, branches to registers, traps and external calls. */
module DecodeMisc {
  import opened BitFacts
  import opened Words
  import opened Machine
  import opened Asm
  import opened Encoder
  import opened BlockProof

  // ---------------------------------------------------------------------------
  // Block transfers
  // ---------------------------------------------------------------------------

  lemma BlockHead(cond: bv4, load: bool, mode: BlockMode, writeback: bool, rn: Reg, list: bv16, i: bv32)
    requires i == AssembleBlock(cond, load, mode, writeback, rn, list)
    ensures ((i >> 28) & 0xf) as bv4 == cond && (Bit20(i) <==> load) && (Bit21(i) <==> writeback)
    ensures Reg16(i) == rn
  {
  }

  lemma BlockModeBits(cond: bv4, load: bool, mode: BlockMode, writeback: bool, rn: Reg, list: bv16, i: bv32)
    requires i == AssembleBlock(cond, load, mode, writeback, rn, list)
    ensures (Bit23(i) <==> mode == IA || mode == IB) && (Bit24(i) <==> mode == DB || mode == IB)
  {
  }

  lemma BlockWordLow(cond: bv4, load: bool, mode: BlockMode, writeback: bool, rn: Reg)
    ensures Meet(BlockWord(cond, load, mode, writeback, rn), 0xffff) == 0
  {
  }

  lemma LowHalfOnly(head: bv32, list: bv16)
    requires Meet(head, 0xffff) == 0
    ensures Meet(head | Wide16(list), 0xffff) == Meet(Wide16(list), 0xffff)
  {
  }

  lemma BlockListBits(cond: bv4, load: bool, mode: BlockMode, writeback: bool, rn: Reg, list: bv16, i: bv32)
    requires i == AssembleBlock(cond, load, mode, writeback, rn, list)
    ensures Meet(i, 0xffff) == Meet(Wide16(list), 0xffff)
  {
    hide BlockWord, Meet;
    BlockWordLow(cond, load, mode, writeback, rn);
    LowHalfOnly(BlockWord(cond, load, mode, writeback, rn), list);
  }

  lemma BlockClass(cond: bv4, load: bool, mode: BlockMode, writeback: bool, rn: Reg, list: bv16, i: bv32)
    requires i == AssembleBlock(cond, load, mode, writeback, rn, list)
    ensures Classify(i) == Class.Block
  {
  }

  /** Words that agree on the k low bits have the same bits there. */
  lemma {:induction false} LowBitsAgree(x: bv32, y: bv32, m: bv32, j: nat, k: nat)
    requires Nat(m) + 1 == Pow2(k) && j < k && Meet(x, m) == Meet(y, m)
    ensures BitAt(x, j) <==> BitAt(y, j)
    decreases j
  {
    hide Meet, Odd, Down, Nat, Pow2;
    MaskHalf(m, k);
    OddMeet(x, m);
    OddMeet(y, m);
    DownMeet(x, m);
    DownMeet(y, m);
    if j > 0 {
      LowBitsAgree(Down(x), Down(y), Down(m), j - 1, k - 1);
    }
  }

  lemma BlockAgrees(cond: bv4, load: bool, mode: BlockMode, writeback: bool, rn: Reg, list: bv16, s: State, i: bv32)
    requires i == AssembleBlock(cond, load, mode, writeback, rn, list)
    ensures CondOf(i) == cond && Classify(i) == Class.Block
    ensures BlockTransfer(s, i) == ExecBlock(load, mode, writeback, rn, Wide16(list), s)
  {
    hide AssembleBlock, Bit20, Bit21, Bit23, Bit24, Reg16, Classify, BlockTransfer, ExecBlock, BitAt, Meet, Nat;
    hide Pow2, Wide16;
    BlockHead(cond, load, mode, writeback, rn, list, i);
    BlockModeBits(cond, load, mode, writeback, rn, list, i);
    BlockListBits(cond, load, mode, writeback, rn, list, i);
    BlockClass(cond, load, mode, writeback, rn, list, i);
    Masks16();
    forall j: nat | j < 16
      ensures BitAt(i, j) <==> BitAt(Wide16(list), j)
    {
      LowBitsAgree(i, Wide16(list), 0xffff, j, 16);
    }
    BlockIsContiguous(s, i, mode, Wide16(list));
  }

  // ---------------------------------------------------------------------------
  // Multiplies
  // ---------------------------------------------------------------------------

  lemma MultiplyFields(cond: bv4, accumulate: bool, s: bool, rd: Reg, rm: Reg, rs: Reg, rn: Reg, i: bv32)
    requires i == AssembleMultiply(cond, accumulate, s, rd, rm, rs, rn)
    ensures CondOf(i) == cond && (Bit21(i) <==> accumulate) && (Bit20(i) <==> s)
    ensures Reg0(i) == rm && Reg8(i) == rs && Reg12(i) == rn && Reg16(i) == rd
  {
  }

  lemma MultiplyWordClass(cond: bv4, accumulate: bool, s: bool, rd: Reg, rm: Reg, rs: Reg, rn: Reg, i: bv32)
    requires i == AssembleMultiply(cond, accumulate, s, rd, rm, rs, rn)
    ensures Classify(i) == Class.MultiplyClass
  {
  }

  lemma LongFields(cond: bv4, isSigned: bool, accumulate: bool, rdLo: Reg, rdHi: Reg, rm: Reg, rs: Reg, i: bv32)
    requires i == AssembleLongMultiply(cond, isSigned, accumulate, rdLo, rdHi, rm, rs)
    ensures CondOf(i) == cond && (Bit21(i) <==> accumulate)
    ensures Reg0(i) == rm && Reg8(i) == rs && Reg12(i) == rdLo && Reg16(i) == rdHi
  {
  }

  lemma LongWordClass(cond: bv4, isSigned: bool, accumulate: bool, rdLo: Reg, rdHi: Reg, rm: Reg, rs: Reg, i: bv32)
    requires i == AssembleLongMultiply(cond, isSigned, accumulate, rdLo, rdHi, rm, rs)
    ensures Classify(i) == Class.LongClass && !Bit20(i)
  {
  }

  lemma MultiplyAgrees(cond: bv4, accumulate: bool, setFlags: bool, rd: Reg, rm: Reg, rs: Reg, rn: Reg, s: State, host: Host, i: bv32)
    requires i == AssembleMultiply(cond, accumulate, setFlags, rd, rm, rs, rn)
    ensures CondOf(i) == cond && Classify(i) == Class.MultiplyClass
    ensures Multiply(s, i) == Exec(Mul(cond, accumulate, setFlags, rd, rm, rs, rn), 0, s, host)
  {
    hide AssembleMultiply, Bit20, Bit21, Reg0, Reg8, Reg12, Reg16, Classify, CondOf, MultiplyFlags, Wrap;
    MultiplyFields(cond, accumulate, setFlags, rd, rm, rs, rn, i);
    MultiplyWordClass(cond, accumulate, setFlags, rd, rm, rs, rn, i);
  }

  lemma LongAgrees(cond: bv4, isSigned: bool, accumulate: bool, rdLo: Reg, rdHi: Reg, rm: Reg, rs: Reg, s: State, host: Host, i: bv32)
    requires i == AssembleLongMultiply(cond, isSigned, accumulate, rdLo, rdHi, rm, rs)
    ensures CondOf(i) == cond && Classify(i) == Class.LongClass
    ensures LongMultiply(s, i) == Exec(LongMul(cond, isSigned, accumulate, rdLo, rdHi, rm, rs), 0, s, host)
  {
    hide AssembleLongMultiply, Bit20, Bit21, Reg0, Reg8, Reg12, Reg16, Classify, CondOf, Or, HighHalf, Wrap;
    LongFields(cond, isSigned, accumulate, rdLo, rdHi, rm, rs, i);
    LongWordClass(cond, isSigned, accumulate, rdLo, rdHi, rm, rs, i);
  }

  // ---------------------------------------------------------------------------
  // Branch to register, trap, external call
  // ---------------------------------------------------------------------------

  lemma BxWord(cond: bv4, rm: Reg, i: bv32)
    requires i == AssembleBx(cond, rm)
    ensures CondOf(i) == cond && Reg0(i) == rm && Classify(i) == Class.Exchange
  {
  }

  lemma TrapWord(cond: bv4, i: bv32)
    requires i == AssembleTrap(cond)
    ensures CondOf(i) == cond && Classify(i) == Class.Trap
  {
  }

  lemma ExternalWord(link: bool, proc: bv16, i: bv32)
    requires i == AssembleExternal(link, proc)
    ensures CondOf(i) == AL && ProcField(i) == Wide16(proc)
  {
  }

  lemma ExternalClass(link: bool, proc: bv16, i: bv32)
    requires i == AssembleExternal(link, proc)
    ensures Classify(i) == Class.External
  {
  }

  // ---------------------------------------------------------------------------
  // Transfers without an offset
  // ---------------------------------------------------------------------------

  lemma BareWord(head: bv32)
    ensures WordTail(MarkZero(head, 0x0200_0000), false, RegBits(0)) == WordTail(head, false, ImmediateBits(0))
  {
  }

  lemma SdtZero(sh: bv32)
    ensures SdtConstBits(sh, 0) == MarkZero(SdtRegBits(sh, 0), 0x0040_0000)
  {
  }

  lemma SdtMarked(head: bv32, low: bv32)
    ensures SdtTail(MarkZero(head, 0x0040_0000), false, low) == SdtTail(head, false, MarkZero(low, 0x0040_0000))
  {
  }

  /** `[rn]` alone is `[rn, #0]`, in spite of the operand record that would spell r0. */
  lemma BareIsZeroOffset(cond: bv4, load: bool, byte: bool, sh: bv32, rd: Reg, rn: Reg)
    ensures AssembleTransferBare(cond, load, byte, sh, rd, rn)
      == AssembleTransfer(cond, load, byte, sh, rd, rn, Operand(false, true, 0, 0, 0, false, 0), Pre(false))
  {
    hide MarkZero, WordTail, SdtTail, RegBits, ImmediateBits, SdtRegBits, SdtConstBits, Bracketed, TransferHead;
    var head := Bracketed(TransferHead(cond, load, byte, rd), rn, Pre(false));
    BareWord(head);
    SdtZero(sh);
    SdtMarked(head, SdtRegBits(sh, 0));
  }
}
