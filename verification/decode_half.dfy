/** The halfword and signed transfers. */
module DecodeHalf {
  import opened BitFacts
  import opened Words
  import opened Machine
  import opened Asm
  import opened Encoder
  import opened Decode
  import opened DecodeTransfer

  predicate SdtCode(sh: bv32) {
    sh == 1 || sh == 2 || sh == 3
  }

  /** The low part: bits 4 and 7 set, the kind in bits 5 and 6, bit 22 the immediate flag. */
  predicate SdtLow(sh: bv32, low: bv32) {
    low & 0x0040_0fff == low && low & 0xf0 == 0x90 | (sh << 5)
  }

  predicate SdtFlag(low: bv32) {
    low & 0x0040_0000 != 0
  }

  function SdtWord(cond: bv4, load: bool, rd: Reg, rn: Reg, index: Indexing, negative: bool, low: bv32): bv32 {
    SdtTail(Bracketed(TransferHead(cond, load, false, rd), rn, index), negative, low)
  }

  lemma SdtHeadFields(cond: bv4, load: bool, rd: Reg, rn: Reg, index: Indexing, negative: bool, sh: bv32, low: bv32, i: bv32)
    requires SdtCode(sh) && SdtLow(sh, low) && i == SdtWord(cond, load, rd, rn, index, negative, low)
    ensures CondOf(i) == cond && (Bit20(i) <==> load) && (Bit22(i) <==> SdtFlag(low))
  {
  }

  lemma SdtModeFields(cond: bv4, load: bool, rd: Reg, rn: Reg, index: Indexing, negative: bool, sh: bv32, low: bv32, i: bv32)
    requires SdtCode(sh) && SdtLow(sh, low) && i == SdtWord(cond, load, rd, rn, index, negative, low)
    ensures (Bit23(i) <==> !negative) && (Bit24(i) <==> index.Pre?) && (Bit21(i) <==> index.Pre? && index.writeback)
  {
  }

  lemma SdtRegs(cond: bv4, load: bool, rd: Reg, rn: Reg, index: Indexing, negative: bool, sh: bv32, low: bv32, i: bv32)
    requires SdtCode(sh) && SdtLow(sh, low) && i == SdtWord(cond, load, rd, rn, index, negative, low)
    ensures Reg12(i) == rd && Reg16(i) == rn && Low12(i) == Low12(low)
  {
  }

  lemma SdtKind(cond: bv4, load: bool, rd: Reg, rn: Reg, index: Indexing, negative: bool, sh: bv32, low: bv32, i: bv32)
    requires SdtCode(sh) && SdtLow(sh, low) && i == SdtWord(cond, load, rd, rn, index, negative, low)
    ensures (Bit5(i) <==> sh != 2) && (Bit6(i) <==> sh != 1)
  {
  }

  /** The kind bits keep these words apart from the multiplies, whose masks are tested first. */
  lemma SdtClass(cond: bv4, load: bool, rd: Reg, rn: Reg, index: Indexing, negative: bool, sh: bv32, low: bv32, i: bv32)
    requires SdtCode(sh) && SdtLow(sh, low) && i == SdtWord(cond, load, rd, rn, index, negative, low)
    ensures Classify(i) == Class.Half
  {
  }

  lemma Const8Low(sh: bv32, n: bv8)
    requires SdtCode(sh)
    ensures SdtLow(sh, SdtConstBits(sh, Wide8(n))) && SdtFlag(SdtConstBits(sh, Wide8(n)))
  {
  }

  lemma RegLow(sh: bv32, rm: Reg)
    requires SdtCode(sh)
    ensures SdtLow(sh, SdtRegBits(sh, rm)) && !SdtFlag(SdtRegBits(sh, rm))
  {
  }

  lemma Const8Value(sh: bv32, n: bv8, i: bv32)
    requires SdtCode(sh) && Low12(i) == Low12(SdtConstBits(sh, Wide8(n)))
    ensures HalfImmediate(i) == Wide8(n)
  {
  }

  lemma RegValueRead(sh: bv32, rm: Reg, i: bv32)
    requires SdtCode(sh) && Low12(i) == Low12(SdtRegBits(sh, rm))
    ensures Reg0(i) == rm
  {
  }

  lemma HalfOffsetLow(sh: bv32, o: HalfOffset, negative: bool, low: bv32)
    requires SdtCode(sh) && low == WriteSdtOperand(ParsedHalfOffset(o, negative), sh)
    ensures SdtLow(sh, low) && (SdtFlag(low) <==> o.Const8?)
  {
    hide SdtCode, SdtLow, SdtFlag, SdtConstBits, SdtRegBits, Wide8;
    match o
    case Const8(n) => Const8Low(sh, n);
    case IndexReg(rm) => RegLow(sh, rm);
  }

  function HalfOffsetOf(r: Regs, i: bv32): Word {
    if Bit22(i) then ToInt(HalfImmediate(i)) else Get(r, Reg0(i))
  }

  lemma HalfOffsetRead(r: Regs, sh: bv32, o: HalfOffset, negative: bool, low: bv32, i: bv32)
    requires SdtCode(sh) && low == WriteSdtOperand(ParsedHalfOffset(o, negative), sh)
    requires Low12(i) == Low12(low) && (Bit22(i) <==> o.Const8?)
    ensures HalfOffsetOf(r, i) == HalfOffsetValue(r, o)
  {
    hide SdtCode, SdtConstBits, SdtRegBits, Low12, Bit22, ToInt, Nat, HalfImmediate, Reg0, Get, Wide8;
    match o
    case Const8(n) =>
      Const8Value(sh, n, i);
      assert HalfOffsetOf(r, i) == ToInt(Wide8(n));
    case IndexReg(rm) =>
      RegValueRead(sh, rm, i);
      assert HalfOffsetOf(r, i) == Get(r, rm);
  }

  // ---------------------------------------------------------------------------
  // Sign extension
  // ---------------------------------------------------------------------------

  lemma SplitSign(x: bv32, m: bv32, m': bv32, sign: bv32)
    requires m == m' | sign && m' & sign == 0
    ensures Meet(x, m) == Join(Meet(x, m'), Meet(x, sign)) && Meet(Meet(x, m'), Meet(x, sign)) == 0
  {
  }

  lemma SignPart(x: bv32)
    ensures Meet(x, 0x80) == 0 || Meet(x, 0x80) == 0x80
    ensures Meet(x, 0x8000) == 0 || Meet(x, 0x8000) == 0x8000
  {
  }

  predicate SignMasks(m: bv32, m': bv32, sign: bv32, k: nat) {
    && LowMask(m, k + 1) && LowMask(m', k) && Nat(sign) == Pow2(k)
    && m == m' | sign && m' & sign == 0
  }

  lemma SignMaskOf(m: bv32, m': bv32, sign: bv32, k: nat)
    requires LowMask(m, k + 1) && LowMask(m', k) && m == Join(m', sign) && Meet(m', sign) == 0
    ensures Nat(sign) == Pow2(k)
  {
    hide Nat, Meet, Join;
    JoinAdd(m', sign);
    PowDouble(k + 1);
  }

  lemma SignParts()
    ensures (0xff as bv32) == Join(0x7f, 0x80) && Meet(0x7f, 0x80) == 0
    ensures (0xffff as bv32) == Join(0x7fff, 0x8000) && Meet(0x7fff, 0x8000) == 0
  {
  }

  lemma SignMaskValues()
    ensures SignMasks(0xff, 0x7f, 0x80, 7) && SignMasks(0xffff, 0x7fff, 0x8000, 15)
  {
    hide Nat, Pow2, LowMask, Meet, Join;
    MaskValues();
    SignParts();
    SignMaskOf(0xff, 0x7f, 0x80, 7);
    SignMaskOf(0xffff, 0x7fff, 0x8000, 15);
  }

  /** The sign test of the interpreter is the comparison with half the range. */
  lemma SignTest(x: bv32, m: bv32, m': bv32, sign: bv32, k: nat)
    requires SignMasks(m, m', sign, k)
    requires Meet(x, sign) == 0 || Meet(x, sign) == sign
    ensures Meet(x, sign) != 0 <==> Nat(x) % Pow2(k + 1) >= Pow2(k)
  {
    SplitSign(x, m, m', sign);
    hide Nat, Pow2, Meet, Join;
    JoinAdd(Meet(x, m'), Meet(x, sign));
    MeetMod(x, m, k + 1);
    MeetMod(x, m', k);
    NatOfZero();
  }

  lemma FillDisjoint(x: bv32, m: bv32)
    ensures Meet(Rest(0xffff_ffff, m), Meet(x, m)) == 0
  {
  }

  lemma RestIsNot(m: bv32)
    ensures Rest(0xffff_ffff, m) == !m
  {
  }

  lemma AllOnesBits()
    ensures ToBits(0xffff_ffff) == 0xffff_ffff
  {
    hide Nat, ToBits;
    Masks32();
    ToBitsToInt(0xffff_ffff);
  }

  /** Filling the upper bits with ones subtracts the range. */
  lemma FillIsExtend(v: Word, m: bv32, k: nat)
    requires LowMask(m, k) && k <= 16
    ensures Nat(Join(!m, Meet(ToBits(v), m))) == 0xffff_ffff - 0xffff_ffff % Pow2(k) + v % Pow2(k)
  {
    RestIsNot(m);
    hide Nat, ToBits, Meet, Join, Rest, Pow2;
    FillDisjoint(ToBits(v), m);
    JoinAdd(Rest(0xffff_ffff, m), Meet(ToBits(v), m));
    MeetMod(ToBits(v), m, k);
    RestIsDifference(0xffff_ffff, m, k);
    AllOnesBits();
    ToIntToBits(v);
  }

  lemma FillCases(e: bv32, mask: bv32, sign: bv32)
    ensures Fill(e, mask, sign) == if Meet(e, sign) != 0 then !mask else 0
  {
  }

  lemma ExtendedCases(e: bv32, isSigned: bool, mask: bv32, sign: bv32)
    ensures Extended(e, isSigned, mask, sign) ==
      if isSigned && Meet(e, sign) != 0 then ToInt(Join(!mask, Meet(e, mask))) else ToInt(Meet(e, mask))
  {
    hide Nat, Meet, Join, Fill;
    FillCases(e, mask, sign);
    JoinZero(Meet(e, mask));
  }

  lemma FilledWord(v: Word, mask: bv32, k: nat, p: int)
    requires LowMask(mask, k) && k <= 16 && Pow2(k) == p && (p == 0x100 || p == 0x1_0000) && v % p >= p / 2
    ensures Nat(Join(!mask, Meet(ToBits(v), mask))) == SignExtend(v % p, p / 2)
  {
    hide Nat, ToBits, Meet, Join, Pow2, LowMask;
    FillIsExtend(v, mask, k);
  }

  lemma ExtendedMeans(v: Word, mask: bv32, m': bv32, sign: bv32, k: nat, p: int)
    requires SignMasks(mask, m', sign, k) && k < 16
    requires Meet(ToBits(v), sign) == 0 || Meet(ToBits(v), sign) == sign
    requires Pow2(k + 1) == p && Pow2(k) == p / 2 && (p == 0x100 || p == 0x1_0000)
    ensures Extended(ToBits(v), false, mask, sign) == v % p
    ensures Extended(ToBits(v), true, mask, sign) == SignExtend(v % p, p / 2)
  {
    assert LowMask(mask, k + 1);
    hide Nat, ToBits, Meet, Join, Pow2, Extended, LowMask, SignMasks, Wrap;
    ExtendedCases(ToBits(v), false, mask, sign);
    ExtendedCases(ToBits(v), true, mask, sign);
    SignTest(ToBits(v), mask, m', sign, k);
    MeetMod(ToBits(v), mask, k + 1);
    ToIntToBits(v);
    if v % p >= p / 2 {
      FilledWord(v, mask, k + 1, p);
    } else {
      SmallWord(v % p);
    }
  }

  lemma SmallWord(v: Word)
    ensures Wrap(v) == v
  {
  }

  function KindMask(kind: HalfKind): bv32 {
    if kind == SB then 0xff else 0xffff
  }

  function KindSign(kind: HalfKind): bv32 {
    if kind == SB then 0x80 else 0x8000
  }

  lemma HalfLoadMeans(kind: HalfKind, mem: seq<Byte>, a: int)
    ensures Extended(ToBits(LoadWord(mem, a)), kind != H, KindMask(kind), KindSign(kind)) == HalfLoaded(kind, mem, a)
  {
    hide Nat, ToBits, Meet, Pow2, LowMask, SignMasks, Extended;
    var v := LoadWord(mem, a);
    MaskValues();
    SignMaskValues();
    SignPart(ToBits(v));
    ExtendedMeans(v, KindMask(kind), if kind == SB then 0x7f else 0x7fff, KindSign(kind),
                  if kind == SB then 7 else 15, if kind == SB then 0x100 else 0x1_0000);
    LoadedParts(mem, a);
  }

  lemma LoadedParts(mem: seq<Byte>, a: int)
    ensures LoadWord(mem, a) % 0x100 == LoadByte(mem, a)
    ensures LoadWord(mem, a) % 0x1_0000 == LoadHalf(mem, a)
  {
    if InMem(mem, a) {
      LowParts(mem[a], mem[a + 1], mem[a + 2], mem[a + 3]);
    }
  }

  // ---------------------------------------------------------------------------
  // The transfer
  // ---------------------------------------------------------------------------

  lemma HalfRun(load: bool, kind: HalfKind, rd: Reg, rn: Reg, offset: Word, negative: bool, index: Indexing, s: State, i: bv32)
    requires (Bit20(i) <==> load) && (Bit5(i) <==> kind != SB) && (Bit6(i) <==> kind != H) && (Bit23(i) <==> !negative)
    requires (Bit24(i) <==> index.Pre?) && (Bit21(i) <==> index.Pre? && index.writeback)
    requires Reg12(i) == rd && Reg16(i) == rn && HalfOffsetOf(s.r, i) == offset
    ensures HalfTransfer(s, i, Get(s.r, Reg0(i))) == ExecHalf(load, kind, rd, rn, offset, negative, index, s)
  {
    hide Bit20, Bit21, Bit22, Bit23, Bit24, Bit5, Bit6, Reg0, Reg12, Reg16, HalfImmediate, ToInt, Nat, ToBits;
    hide Extended, Merge, LoadWord, StoreWord, StoreByte, StoreHalf, Wrap, HalfLoaded;
    var base := Get(s.r, rn);
    var pointer := if negative then Wrap(base - offset) else Wrap(base + offset);
    var a := if index.Pre? then pointer else base;
    HalfLoadMeans(kind, s.mem, a);
    ByteStored(s.mem, a, Get(s.r, rd));
    HalfStored(s.mem, a, Get(s.r, rd));
  }

  lemma KindCodes(kind: HalfKind)
    ensures SdtCode(KindCode(kind)) && KindCode(kind) != 0
    ensures (KindCode(kind) != 2 <==> kind != SB) && (KindCode(kind) != 1 <==> kind != H)
  {
  }

  lemma HalfAgrees(cond: bv4, load: bool, kind: HalfKind, rd: Reg, rn: Reg, o: HalfOffset, negative: bool,
                  index: Indexing, s: State, i: bv32)
    requires i == AssembleTransfer(cond, load, false, KindCode(kind), rd, rn, ParsedHalfOffset(o, negative), index)
    ensures CondOf(i) == cond && Classify(i) == Class.Half
    ensures HalfTransfer(s, i, Get(s.r, Reg0(i))) == ExecHalf(load, kind, rd, rn, HalfOffsetValue(s.r, o), negative, index, s)
  {
    var sh := KindCode(kind);
    var low := WriteSdtOperand(ParsedHalfOffset(o, negative), sh);
    KindCodes(kind);
    assert i == SdtWord(cond, load, rd, rn, index, negative, low) by {
      hide WriteSdtOperand, SdtTail, Bracketed, TransferHead, KindCode;
    }
    hide *;
    HalfOffsetLow(sh, o, negative, low);
    SdtHeadFields(cond, load, rd, rn, index, negative, sh, low, i);
    SdtModeFields(cond, load, rd, rn, index, negative, sh, low, i);
    SdtRegs(cond, load, rd, rn, index, negative, sh, low, i);
    SdtKind(cond, load, rd, rn, index, negative, sh, low, i);
    SdtClass(cond, load, rd, rn, index, negative, sh, low, i);
    HalfOffsetRead(s.r, sh, o, negative, low, i);
    HalfRun(load, kind, rd, rn, HalfOffsetValue(s.r, o), negative, index, s, i);
  }
}
