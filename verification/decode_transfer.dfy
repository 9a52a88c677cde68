/** The single, byte, halfword and signed transfers: their words decode to their meaning. */
module DecodeTransfer {
  import opened BitFacts
  import opened Words
  import opened Machine
  import opened Asm
  import opened Encoder
  import opened Decode

  // ---------------------------------------------------------------------------
  // Parts of words
  // ---------------------------------------------------------------------------

  function Rest(x: bv32, m: bv32): bv32 {
    x & !m
  }

  lemma SplitAt(x: bv32, m: bv32)
    ensures Join(Meet(x, m), Rest(x, m)) == x
  {
  }

  lemma PartsDisjoint(x: bv32, y: bv32, m: bv32)
    ensures Meet(Meet(x, m), Rest(y, m)) == 0
  {
  }

  predicate LowMask(m: bv32, k: nat) {
    Nat(m) + 1 == Pow2(k)
  }

  lemma MaskedIsMod(v: Word, m: bv32, k: nat)
    requires LowMask(m, k)
    ensures Masked(v, m) == v % Pow2(k)
  {
    hide Nat, ToBits, Pow2;
    MaskMod(ToBits(v), m, k);
    ToIntToBits(v);
  }

  lemma RestIsDifference(v: Word, m: bv32, k: nat)
    requires LowMask(m, k)
    ensures Nat(Rest(ToBits(v), m)) == v - v % Pow2(k)
  {
    hide Nat, ToBits, Rest, Meet, Join, Pow2;
    var x := ToBits(v);
    SplitAt(x, m);
    PartsDisjoint(x, x, m);
    JoinAdd(Meet(x, m), Rest(x, m));
    MeetMod(x, m, k);
    ToIntToBits(v);
  }

  lemma MergeParts(existing: Word, v: Word, m: bv32)
    ensures Merge(existing, v, m) == ToInt(Join(Meet(ToBits(v), m), Rest(ToBits(existing), m)))
  {
    hide Nat, ToBits;
  }

  /** A whole-word read-modify-write replaces the masked part and keeps the rest. */
  lemma MergeIsReplace(existing: Word, v: Word, m: bv32, k: nat)
    requires LowMask(m, k)
    ensures Merge(existing, v, m) == v % Pow2(k) + (existing - existing % Pow2(k))
  {
    hide Nat, ToBits, Rest, Meet, Join, Merge, Pow2;
    MergeParts(existing, v, m);
    PartsDisjoint(ToBits(v), ToBits(existing), m);
    JoinAdd(Meet(ToBits(v), m), Rest(ToBits(existing), m));
    MeetMod(ToBits(v), m, k);
    RestIsDifference(existing, m, k);
    ToIntToBits(v);
  }

  lemma MaskValues()
    ensures LowMask(0xff, 8) && Pow2(8) == 0x100
    ensures LowMask(0xffff, 16) && Pow2(16) == 0x1_0000
    ensures LowMask(0xffff_ffff, 32) && Pow2(32) == 0x1_0000_0000
    ensures LowMask(0x7f, 7) && Pow2(7) == 0x80
    ensures LowMask(0x7fff, 15) && Pow2(15) == 0x8000
  {
    hide Nat, Pow2;
    Masks8();
    Masks16();
    Masks24();
    Masks32();
    MaskBelow(0xff, 0x7f, 8);
    MaskBelow(0xffff, 0x7fff, 16);
    assert Down(0xff) == 0x7f;
    assert Down(0xffff) == 0x7fff;
  }

  lemma MaskBelow(m: bv32, m': bv32, k: nat)
    requires LowMask(m, k) && k > 0 && m' == m >> 1
    ensures LowMask(m', k - 1) && Pow2(k) == 2 * Pow2(k - 1)
  {
    hide Nat;
    MaskHalf(m, k);
  }

  // ---------------------------------------------------------------------------
  // Bytes in memory
  // ---------------------------------------------------------------------------

  lemma ByteLoaded(mem: seq<Byte>, a: int)
    ensures Masked(LoadWord(mem, a), 0xff) == LoadByte(mem, a)
  {
    hide Masked, Pow2, LowMask;
    MaskValues();
    MaskedIsMod(LoadWord(mem, a), 0xff, 8);
  }

  lemma WordLoaded(v: Word)
    ensures Masked(v, 0xffff_ffff) == v
  {
    hide Masked, Pow2, LowMask;
    MaskValues();
    MaskedIsMod(v, 0xffff_ffff, 32);
  }

  lemma LowParts(b0: Byte, b1: Byte, b2: Byte, b3: Byte)
    ensures WordOf(b0, b1, b2, b3) % 0x100 == b0
    ensures WordOf(b0, b1, b2, b3) % 0x1_0000 == b0 + 0x100 * b1
  {
    DivModUnique(WordOf(b0, b1, b2, b3), 0x100, b1 + 0x100 * b2 + 0x1_0000 * b3, b0);
    DivModUnique(WordOf(b0, b1, b2, b3), 0x1_0000, b2 + 0x100 * b3, b0 + 0x100 * b1);
  }

  lemma LowHalf(v: Word)
    ensures v % 0x1_0000 == v % 0x100 + 0x100 * (v / 0x100 % 0x100)
  {
    WordOfBytes(v);
    LowParts(v % 0x100, v / 0x100 % 0x100, v / 0x1_0000 % 0x100, v / 0x100_0000);
  }

  lemma ByteStored(mem: seq<Byte>, a: int, v: Word)
    ensures StoreWord(mem, a, Merge(LoadWord(mem, a), v, 0xff)) == StoreByte(mem, a, v)
  {
    hide Merge, Pow2, LowMask;
    MaskValues();
    MergeIsReplace(LoadWord(mem, a), v, 0xff, 8);
    if InMem(mem, a) {
      LowParts(mem[a], mem[a + 1], mem[a + 2], mem[a + 3]);
      StoredBytes(mem, a, v % 0x100, mem[a + 1], mem[a + 2], mem[a + 3], Merge(LoadWord(mem, a), v, 0xff));
    }
  }

  lemma HalfStored(mem: seq<Byte>, a: int, v: Word)
    ensures StoreWord(mem, a, Merge(LoadWord(mem, a), v, 0xffff)) == StoreHalf(mem, a, v)
  {
    hide Merge, Pow2, LowMask;
    MaskValues();
    MergeIsReplace(LoadWord(mem, a), v, 0xffff, 16);
    if InMem(mem, a) {
      LowParts(mem[a], mem[a + 1], mem[a + 2], mem[a + 3]);
      LowHalf(v);
      StoredBytes(mem, a, v % 0x100, v / 0x100 % 0x100, mem[a + 2], mem[a + 3], Merge(LoadWord(mem, a), v, 0xffff));
    }
  }

  lemma StoredBytes(mem: seq<Byte>, a: int, b0: Byte, b1: Byte, b2: Byte, b3: Byte, w: Word)
    requires InMem(mem, a) && w == WordOf(b0, b1, b2, b3)
    ensures StoreWord(mem, a, w) == mem[a := b0][a + 1 := b1][a + 2 := b2][a + 3 := b3]
  {
    hide WordOf;
    BytesOfWord(b0, b1, b2, b3);
  }

  lemma WordStored(existing: Word, v: Word)
    ensures Merge(existing, v, 0xffff_ffff) == v
  {
    hide Merge, Pow2, LowMask;
    MaskValues();
    MergeIsReplace(existing, v, 0xffff_ffff, 32);
  }

  // ---------------------------------------------------------------------------
  // Word and byte transfers
  // ---------------------------------------------------------------------------

  /** Bit 25 may be set, as an immediate flag that the assembler then inverts. */
  predicate TransferLow(low: bv32) {
    low & 0x0200_0fff == low
  }

  function TransferWord(cond: bv4, load: bool, byte: bool, rd: Reg, rn: Reg, index: Indexing, negative: bool, low: bv32): bv32 {
    WordTail(Bracketed(TransferHead(cond, load, byte, rd), rn, index), negative, low)
  }

  lemma TransferHeadFields(cond: bv4, load: bool, byte: bool, rd: Reg, rn: Reg, index: Indexing, negative: bool, low: bv32, i: bv32)
    requires TransferLow(low) && i == TransferWord(cond, load, byte, rd, rn, index, negative, low)
    ensures CondOf(i) == cond && (Bit20(i) <==> load) && (Bit22(i) <==> byte)
  {
  }

  lemma TransferModeFields(cond: bv4, load: bool, byte: bool, rd: Reg, rn: Reg, index: Indexing, negative: bool, low: bv32, i: bv32)
    requires TransferLow(low) && i == TransferWord(cond, load, byte, rd, rn, index, negative, low)
    ensures (Bit23(i) <==> !negative) && (Bit24(i) <==> index.Pre?) && (Bit21(i) <==> index.Pre? && index.writeback)
  {
  }

  lemma TransferRegs(cond: bv4, load: bool, byte: bool, rd: Reg, rn: Reg, index: Indexing, negative: bool, low: bv32, i: bv32)
    requires TransferLow(low) && i == TransferWord(cond, load, byte, rd, rn, index, negative, low)
    ensures Reg12(i) == rd && Reg16(i) == rn
  {
  }

  lemma TransferTail(cond: bv4, load: bool, byte: bool, rd: Reg, rn: Reg, index: Indexing, negative: bool, low: bv32, i: bv32)
    requires TransferLow(low) && i == TransferWord(cond, load, byte, rd, rn, index, negative, low)
    ensures (Bit25(i) <==> !ImmediateFlag(low)) && Low12(i) == Low12(low)
  {
  }

  lemma TransferClass(cond: bv4, load: bool, byte: bool, rd: Reg, rn: Reg, index: Indexing, negative: bool, low: bv32, i: bv32)
    requires TransferLow(low) && i == TransferWord(cond, load, byte, rd, rn, index, negative, low)
    ensures Classify(i) == Class.Single
  {
  }

  lemma Const12Low(n: bv12)
    ensures TransferLow(ImmediateBits(Wide12(n))) && ImmediateFlag(ImmediateBits(Wide12(n)))
  {
  }

  lemma Const12Value(n: bv12)
    ensures Low12(ImmediateBits(Wide12(n))) == Wide12(n)
  {
  }

  lemma PlainIsTransferLow(w: bv32)
    requires PlainLow(w)
    ensures TransferLow(w)
  {
  }

  lemma OffsetLow(o: WordOffset, negative: bool, low: bv32)
    requires low == Write12BitOperand(ParsedWordOffset(o, negative), false)
    ensures TransferLow(low) && (ImmediateFlag(low) <==> o.Const12?)
  {
    hide TransferLow, ImmediateFlag, PlainLow, ImmediateBits, RegBits, ConstShiftBits, RegShiftBits, ShiftCode;
    hide DataLow, Wide12;
    match o
    case Const12(n) => Const12Low(n);
    case Index(op) =>
      RegOperandNarrow(op, ParsedWordOffset(o, negative), false);
      PlainIsTransferLow(low);
      PlainIsDataLow(low);
  }

  lemma OffsetRead(r: Regs, o: WordOffset, negative: bool, low: bv32, i: bv32)
    requires low == Write12BitOperand(ParsedWordOffset(o, negative), false)
    requires Low12(i) == Low12(low) && (Bit25(i) <==> !o.Const12?)
    ensures TransferOffset(r, i) == WordOffsetValue(r, o)
  {
    hide TransferLow, PlainLow, ImmediateBits, RegBits, ConstShiftBits, RegShiftBits, ShiftCode, Bit25, Low12;
    hide ToInt, Nat, CalcShift, RegValue, DataLow, ImmediateFlag, Wide12;
    match o
    case Const12(n) =>
      Const12Value(n);
      ImmediateOffset(r, i);
    case Index(op) =>
      RegOperandNarrow(op, ParsedWordOffset(o, negative), false);
      PlainIsDataLow(low);
      RegOperandRead(r, op, ParsedWordOffset(o, negative), false, i);
  }

  lemma ImmediateOffset(r: Regs, i: bv32)
    ensures !Bit25(i) ==> TransferOffset(r, i) == ToInt(Low12(i))
  {
    hide Bit25, Nat, ToInt, CalcShift;
  }

  /** The transfer the decoded fields describe. */
  lemma TransferRun(load: bool, byte: bool, rd: Reg, rn: Reg, offset: Word, negative: bool, index: Indexing, s: State, i: bv32)
    requires (Bit20(i) <==> load) && (Bit22(i) <==> byte) && (Bit23(i) <==> !negative)
    requires (Bit24(i) <==> index.Pre?) && (Bit21(i) <==> index.Pre? && index.writeback)
    requires Reg12(i) == rd && Reg16(i) == rn && TransferOffset(s.r, i) == offset
    ensures DataTransfer(s, i) == ExecTransfer(load, byte, rd, rn, offset, negative, index, s)
  {
    hide Bit20, Bit21, Bit22, Bit23, Bit24, Reg12, Reg16, TransferOffset, Masked, Merge, LoadWord, StoreWord;
    hide LoadByte, StoreByte, Wrap;
    var base := Get(s.r, rn);
    var pointer := if negative then Wrap(base - offset) else Wrap(base + offset);
    var a := if index.Pre? then pointer else base;
    ByteLoaded(s.mem, a);
    WordLoaded(LoadWord(s.mem, a));
    ByteStored(s.mem, a, Get(s.r, rd));
    WordStored(LoadWord(s.mem, a), Get(s.r, rd));
  }

  lemma TransferAgrees(cond: bv4, load: bool, byte: bool, rd: Reg, rn: Reg, o: WordOffset, negative: bool,
                      index: Indexing, s: State, i: bv32)
    requires i == AssembleTransfer(cond, load, byte, 0, rd, rn, ParsedWordOffset(o, negative), index)
    ensures CondOf(i) == cond && Classify(i) == Class.Single
    ensures DataTransfer(s, i) == ExecTransfer(load, byte, rd, rn, WordOffsetValue(s.r, o), negative, index, s)
  {
    var low := Write12BitOperand(ParsedWordOffset(o, negative), false);
    assert i == TransferWord(cond, load, byte, rd, rn, index, negative, low) by {
      hide Write12BitOperand, WordTail, Bracketed, TransferHead;
    }
    hide *;
    OffsetLow(o, negative, low);
    TransferHeadFields(cond, load, byte, rd, rn, index, negative, low, i);
    TransferModeFields(cond, load, byte, rd, rn, index, negative, low, i);
    TransferRegs(cond, load, byte, rd, rn, index, negative, low, i);
    TransferTail(cond, load, byte, rd, rn, index, negative, low, i);
    TransferClass(cond, load, byte, rd, rn, index, negative, low, i);
    OffsetRead(s.r, o, negative, low, i);
    TransferRun(load, byte, rd, rn, WordOffsetValue(s.r, o), negative, index, s, i);
  }
}
