/** The words of some instructions, written out: every field, mask and code number of the encoding. */
module Encodings {
  import opened Words
  import opened Machine
  import opened Asm
  import opened Encoder

  /** A negated constant is the negative number. */
  lemma ConstantSign(magnitude: bv32)
    ensures ImmValue(magnitude, true) + magnitude == 0 && ImmValue(magnitude, false) == magnitude
  {
  }

  /** `add r0, r1, r2`, `adds r0, r1, r2`. */
  lemma SumWords()
    ensures Encode(Instr.Data(AL, ADD, false, 0, 1, Plain(2))) == 0xe081_0002
    ensures Encode(Instr.Data(AL, ADD, true, 0, 1, Plain(2))) == 0xe091_0002
  {
  }

  /** `cmp r4, r1`. */
  lemma CompareWord()
    ensures Encode(Instr.Data(AL, CMP, false, 0, 4, Plain(1))) == 0xe144_0001
  {
  }

  lemma ShiftFields()
    ensures Write12BitOperand(Parsed(ByConst(1, ASR, 1)), true) == 0x0c1
    ensures Write12BitOperand(Parsed(ByReg(1, LSL, 2)), true) == 0x211
  {
  }

  /** `mov r0, r1, asr #1`. */
  lemma ShiftWord()
    ensures Encode(Instr.Data(AL, MOV, false, 0, 1, ByConst(1, ASR, 1))) == 0xe1a1_00c1
  {
    hide Write12BitOperand;
    ShiftFields();
  }

  /** `mvneq r0, r1, lsl r2`. */
  lemma ShiftByRegisterWord()
    ensures Encode(Instr.Data(0, MVN, false, 0, 1, ByReg(1, LSL, 2))) == 0x01e1_0211
  {
    hide Write12BitOperand;
    ShiftFields();
  }

  /** The code numbers of the operations and of the shifts. */
  lemma CodeNumbers()
    ensures Opcode(AND) == 0 && Opcode(EOR) == 1 && Opcode(SUB) == 2 && Opcode(RSB) == 3
    ensures Opcode(ADD) == 4 && Opcode(ADC) == 5 && Opcode(SBC) == 6 && Opcode(RSC) == 7
    ensures Opcode(TST) == 8 && Opcode(TEQ) == 9 && Opcode(CMP) == 10 && Opcode(CMN) == 11
    ensures Opcode(ORR) == 12 && Opcode(MOV) == 13 && Opcode(BIC) == 14 && Opcode(MVN) == 15
    ensures ShiftCode(LSL) == 0 && ShiftCode(LSR) == 1 && ShiftCode(ASR) == 2 && ShiftCode(ROR) == 3
  {
  }

  /** `mov r0, #1`. */
  lemma ConstantWord()
    ensures Encode(Instr.Data(AL, MOV, false, 0, 0, Imm(1, false))) == 0xe3a0_0001
  {
    assert ImmValue(1, false) == 1 && PackFrom(Packing(1, 0)) == Packing(1, 0);
    assert PackImmediate(1, false) == 1;
  }

  /** `ldr r2, [r0, r4, lsl #2]`, `str r0, [sp, #-4]!`, `ldrb r1, [r2], #3`. */
  lemma TransferWords()
    ensures Encode(Transfer(AL, true, false, 2, 0, Index(ByConst(4, LSL, 2)), false, Pre(false))) == 0xe790_2104
    ensures Encode(Transfer(AL, false, false, 0, SP, Const12(4), true, Pre(true))) == 0xe52d_0004
    ensures Encode(Transfer(AL, true, true, 1, 2, Const12(3), false, Post)) == 0xe4d2_1003
  {
  }

  /** `ldrh r0, [r1, #0x12]`, `ldrsb r0, [r1, r2]`. */
  lemma HalfWords()
    ensures Encode(HalfMove(AL, true, H, 0, 1, Const8(0x12), false, Pre(false))) == 0xe1d1_01b2
    ensures Encode(HalfMove(AL, true, SB, 0, 1, IndexReg(2), false, Pre(false))) == 0xe191_00d2
  {
  }

  /** `push {r4, r5, lr}`, `pop {r4, r5, pc}`, `mul r0, r1, r2`, `mla r0, r1, r2, r3`, `umull r0, r1, r2, r3`. */
  lemma BlockAndProductWords()
    ensures Encode(BlockMove(AL, false, DB, true, SP, 0x4030)) == 0xe92d_4030
    ensures Encode(BlockMove(AL, true, IA, true, SP, 0x8030)) == 0xe8bd_8030
    ensures Encode(Mul(AL, false, false, 0, 1, 2, 0)) == 0xe000_0291
    ensures Encode(Mul(AL, true, false, 0, 1, 2, 3)) == 0xe020_3291
    ensures Encode(LongMul(AL, false, false, 0, 1, 2, 3)) == 0xe081_0392
    ensures Encode(LongMul(AL, true, true, 0, 1, 2, 3)) == 0xe0e1_0392
  {
  }

  /** `stmda`, `stmia`, `stmdb` and `stmib r1, {r0}`. */
  lemma ModeWords()
    ensures Encode(BlockMove(AL, false, DA, false, 1, 1)) == 0xe801_0001
    ensures Encode(BlockMove(AL, false, IA, false, 1, 1)) == 0xe881_0001
    ensures Encode(BlockMove(AL, false, DB, false, 1, 1)) == 0xe901_0001
    ensures Encode(BlockMove(AL, false, IB, false, 1, 1)) == 0xe981_0001
  {
  }

  /** `bx lr`, `trap`. */
  lemma ExchangeAndTrapWords()
    ensures Encode(Bx(AL, LR)) == 0xe12f_ff1e
    ensures Encode(TrapIns(AL)) == 0xef00_0000
  {
  }

  /** Host function 5, called by `bl`. */
  lemma HostCallWord()
    ensures Encode(Call(true, 5)) == 0xeff8_0005
  {
  }

  /** `beq` and `bl` before linking. */
  lemma BranchWords(sym: string)
    ensures Encode(Jump(0, false, sym)) == 0x0a00_0000
    ensures Encode(Jump(AL, true, sym)) == 0xeb00_0000
  {
  }

  /** `ldr r0, L` before linking. */
  lemma LiteralWord(sym: string)
    ensures Encode(Literal(AL, true, false, 0, sym)) == 0xe59f_0000
  {
  }
}
