/** Relocation and execution are inverse: a patched word transfers to, loads from or computes its target. */
module Relocate {
  import opened BitFacts
  import opened Words
  import opened Machine
  import opened Asm
  import opened Encoder
  import opened Decode
  import opened DecodeTransfer
  import opened DecodeHalf

  // ---------------------------------------------------------------------------
  // Branches
  // ---------------------------------------------------------------------------

  /** The targets a branch at P can reach: T - 4 - P within 24 bits, signed, modulo 2^32. */
  predicate BranchReach(at: Word, target: Word) {
    var d := Wrap(target - 4 - at);
    d < 0x80_0000 || d >= 0x1_0000_0000 - 0x80_0000
  }

  lemma BranchBackward(at: Word, p: Word)
    requires p < at
    ensures Wrap(Not(at - p) + 1) == Wrap(p - at)
  {
    assert Not(at - p) + 1 == 0x1_0000_0000 + (p - at);
  }

  lemma BranchField(word: bv32, at: Word, target: Word)
    ensures SetPosBranch(word, at, target) == WithBits(word, Wrap(target - 4 - at), 0x00ff_ffff)
  {
    hide WithBits, Wrap, Not;
    var p := Wrap(target - 4);
    var back: int := at;
    WrapAdd(target - 4, -back);
    if p < at {
      BranchBackward(at, p);
    } else {
      WrapWord(p - at);
    }
  }

  lemma BranchWordFields(cond: bv4, link: bool, f: bv32, i: bv32)
    requires i == WithField(AssembleBranch(cond, link), f, 0x00ff_ffff)
    ensures CondOf(i) == cond && (Bit24(i) <==> link) && (Bit23(i) <==> Meet(f, 0x0080_0000) != 0)
    ensures Classify(i) == Class.Branch
  {
  }

  lemma BranchWordEmpty(cond: bv4, link: bool)
    ensures Meet(AssembleBranch(cond, link), 0x00ff_ffff) == 0
  {
  }

  lemma FieldOnly(word: bv32, f: bv32, m: bv32)
    requires Meet(word, m) == 0
    ensures WithField(word, f, m) & m == Meet(f, m)
  {
  }

  lemma BranchWordOffset(cond: bv4, link: bool, f: bv32, i: bv32)
    requires i == WithField(AssembleBranch(cond, link), f, 0x00ff_ffff)
    ensures i & 0x00ff_ffff == Meet(f, 0x00ff_ffff)
  {
    hide AssembleBranch, WithField, Meet;
    BranchWordEmpty(cond, link);
    FieldOnly(AssembleBranch(cond, link), f, 0x00ff_ffff);
  }

  lemma SignPart24(x: bv32)
    ensures Meet(x, 0x0080_0000) == 0 || Meet(x, 0x0080_0000) == 0x0080_0000
  {
  }

  lemma Parts24()
    ensures (0xff_ffff as bv32) == Join(0x7f_ffff, 0x80_0000) && Meet(0x7f_ffff, 0x80_0000) == 0
    ensures Down(0xff_ffff) == 0x7f_ffff
  {
  }

  lemma SignMask24()
    ensures SignMasks(0xff_ffff, 0x7f_ffff, 0x80_0000, 23)
    ensures Pow2(24) == 0x100_0000 && Pow2(23) == 0x80_0000
  {
    hide Nat, Pow2, Meet, Join;
    Masks24();
    Parts24();
    MaskBelow(0xff_ffff, 0x7f_ffff, 24);
    SignMaskOf(0xff_ffff, 0x7f_ffff, 0x80_0000, 23);
  }

  /** The offset field and its sign, as integers. */
  lemma OffsetField(d: Word)
    ensures Nat(Meet(ToBits(d), 0xff_ffff)) == d % 0x100_0000
    ensures Meet(ToBits(d), 0x80_0000) != 0 <==> d % 0x100_0000 >= 0x80_0000
  {
    hide Nat, ToBits, Pow2, Meet, SignMasks;
    SignMask24();
    SignPart24(ToBits(d));
    SignTest(ToBits(d), 0xff_ffff, 0x7f_ffff, 0x80_0000, 23);
    Masks24();
    MeetMod(ToBits(d), 0xff_ffff, 24);
    ToIntToBits(d);
  }

  /** Where a branch with offset field d lands, as the interpreter computes it. */
  function Landing(loc: Word, d: Word): Word {
    var offset := d % 0x100_0000;
    if offset >= 0x80_0000
    then Wrap(loc - (0xffff_ffff - Wrap(offset - 1)) % 0x100_0000)
    else Wrap(loc + offset)
  }

  lemma LandingIs(loc: Word, d: Word)
    ensures var o := d % 0x100_0000;
      Landing(loc, d) == Wrap(loc + if o >= 0x80_0000 then o - 0x100_0000 else o)
  {
  }

  lemma Sign24(d: Word)
    ensures var o := d % 0x100_0000;
      Wrap(if o >= 0x80_0000 then o - 0x100_0000 else o) == d <==> (d < 0x80_0000 || d >= 0x1_0000_0000 - 0x80_0000)
  {
    var o, q := d % 0x100_0000, d / 0x100_0000;
    assert d == 0x100_0000 * q + o;
  }

  /** A branch lands on its target exactly when the target is within reach. */
  lemma LandsOnTarget(at: Word, target: Word)
    ensures Landing(Wrap(at + 4), Wrap(target - 4 - at)) == target <==> BranchReach(at, target)
  {
    var d := Wrap(target - 4 - at);
    LandingIs(Wrap(at + 4), d);
    var o := d % 0x100_0000;
    var e: int := if o >= 0x80_0000 then (o as int) - 0x100_0000 else o;
    Sign24(d);
    TargetFrom(at, target, d);
    hide *;
    WrapAdd(at + 4, e);
    WrapCancel(at + 4, e, d);
    WrapWord(d);
  }

  lemma TargetFrom(at: Word, target: Word, d: Word)
    requires d == Wrap(target - 4 - at)
    ensures Wrap(at + 4 + d) == target
  {
  }

  lemma WrapCancel(a: int, e: int, d: int)
    ensures Wrap(a + e) == Wrap(a + d) <==> Wrap(e) == Wrap(d)
  {
  }

  /** A patched branch, executed anywhere, lands where its offset field says. */
  lemma BranchRuns(cond: bv4, link: bool, at: Word, target: Word, s: State, i: bv32)
    requires i == SetPosBranch(AssembleBranch(cond, link), at, target)
    ensures CondOf(i) == cond && Classify(i) == Class.Branch
    ensures BranchWithLink(s, i) ==
      s.(r := if link then Put(s.r, LR, s.loc) else s.r, loc := Landing(s.loc, Wrap(target - 4 - at)))
  {
    var d := Wrap(target - 4 - at);
    BranchField(AssembleBranch(cond, link), at, target);
    hide AssembleBranch, SetPosBranch, WithField, CondOf, Classify, Bit23, Bit24, Nat, ToBits, Meet, Wrap;
    assert ToInt(i & 0x00ff_ffff) == Nat(i & 0x00ff_ffff);
    BranchWordFields(cond, link, ToBits(d), i);
    BranchWordOffset(cond, link, ToBits(d), i);
    OffsetField(d);
  }

  lemma BranchAgrees(cond: bv4, link: bool, at: Word, target: Word, s: State, i: bv32)
    requires i == SetPosBranch(AssembleBranch(cond, link), at, target) && s.loc == Wrap(at + 4)
    ensures BranchWithLink(s, i).loc == target <==> BranchReach(at, target)
    ensures BranchReach(at, target) ==>
      BranchWithLink(s, i) == s.(r := if link then Put(s.r, LR, s.loc) else s.r, loc := target)
  {
    hide *;
    BranchRuns(cond, link, at, target, s, i);
    LandsOnTarget(at, target);
  }

  // ---------------------------------------------------------------------------
  // Literals
  // ---------------------------------------------------------------------------

  predicate IsField12(n: bv12, f: bv32) {
    Wide12(n) == f & 0xfff
  }

  /** A literal transfer is the pre-indexed transfer from pc with a 12-bit offset. */
  lemma LiteralWord(cond: bv4, load: bool, byte: bool, rd: Reg, f: bv32, n: bv12)
    requires IsField12(n, f)
    ensures WithField(AssembleLiteral(cond, load, byte, 0, rd), f, 0xfff)
      == TransferWord(cond, load, byte, rd, PC, Pre(false), false, ImmediateBits(Wide12(n)))
  {
  }

  lemma ToggledWord(cond: bv4, load: bool, byte: bool, rd: Reg, n: bv12)
    ensures ToggleUp(TransferWord(cond, load, byte, rd, PC, Pre(false), false, ImmediateBits(Wide12(n))))
      == TransferWord(cond, load, byte, rd, PC, Pre(false), true, ImmediateBits(Wide12(n)))
  {
  }

  lemma ConstTransferWord(cond: bv4, load: bool, byte: bool, rd: Reg, n: bv12, negative: bool)
    ensures AssembleTransfer(cond, load, byte, 0, rd, PC, ParsedWordOffset(Const12(n), negative), Pre(false))
      == TransferWord(cond, load, byte, rd, PC, Pre(false), negative, ImmediateBits(Wide12(n)))
  {
    hide WordTail, Bracketed, TransferHead, ImmediateBits, Wide12;
  }

  function Field12(d: Word): bv12 {
    (ToBits(d) & 0xfff) as bv12
  }

  lemma FieldBits(d: Word)
    ensures IsField12(Field12(d), ToBits(d))
  {
    hide ToBits;
  }

  lemma FieldValue(d: Word)
    requires d < 0x1000
    ensures ToInt(Wide12(Field12(d))) == d
  {
    hide Nat, ToBits, Pow2, Field12;
    FieldBits(d);
    Masks16();
    MaskMod(ToBits(d), 0xfff, 12);
    ToIntToBits(d);
  }

  function ExecLiteral(load: bool, byte: bool, rd: Reg, target: Word, s: State): State {
    if load then s.(r := Put(s.r, rd, if byte then LoadByte(s.mem, target) else LoadWord(s.mem, target)))
    else s.(mem := if byte then StoreByte(s.mem, target, Get(s.r, rd)) else StoreWord(s.mem, target, Get(s.r, rd)))
  }

  lemma LiteralTarget(at: Word, target: Word)
    requires LiteralReach(at, target)
    ensures var p := Wrap(target - SKIP_PC);
      (if p < at then Wrap(Wrap(at + 8) - (at - p)) else Wrap(Wrap(at + 8) + (p - at))) == target
  {
  }

  lemma LiteralPatch(word: bv32, at: Word, target: Word)
    requires LiteralReach(at, target)
    ensures var p := Wrap(target - SKIP_PC);
      && (p < at ==> at - p < 0x1000 && SetPosTransfer(word, at, target) == ToggleUp(WithField(word, ToBits(at - p), 0xfff)))
      && (p >= at ==> p - at < 0x1000 && SetPosTransfer(word, at, target) == WithField(word, ToBits(p - at), 0xfff))
  {
    hide ToggleUp, WithField, ToBits;
  }

  /** The patched word is the transfer from pc whose offset is the distance to the target. */
  lemma PatchedLiteral(cond: bv4, load: bool, byte: bool, rd: Reg, at: Word, target: Word, d: Word, negative: bool, i: bv32)
    requires LiteralReach(at, target) && i == SetPosTransfer(AssembleLiteral(cond, load, byte, 0, rd), at, target)
    requires var p := Wrap(target - SKIP_PC); negative == (p < at) && d == (if p < at then at - p else p - at)
    ensures d < 0x1000
    ensures i == AssembleTransfer(cond, load, byte, 0, rd, PC, ParsedWordOffset(Const12(Field12(d)), negative), Pre(false))
  {
    hide IsField12, WithField, AssembleLiteral, TransferWord, ImmediateBits, ToggleUp, AssembleTransfer;
    hide ParsedWordOffset, SetPosTransfer, Field12, ToBits, Wide12;
    LiteralPatch(AssembleLiteral(cond, load, byte, 0, rd), at, target);
    FieldBits(d);
    LiteralWord(cond, load, byte, rd, ToBits(d), Field12(d));
    ToggledWord(cond, load, byte, rd, Field12(d));
    ConstTransferWord(cond, load, byte, rd, Field12(d), negative);
  }

  /** In the middle of the address space, the assertion allows a distance of less than 4096 either way. */
  lemma LiteralReachIs(at: Word, target: Word)
    requires target >= 8
    ensures LiteralReach(at, target) <==> -4096 < target - (at + 8) < 4096
  {
  }

  /** A patched literal transfer reads or writes the memory at its target. */
  lemma LiteralAgrees(cond: bv4, load: bool, byte: bool, rd: Reg, at: Word, target: Word, s: State, i: bv32)
    requires LiteralReach(at, target) && Get(s.r, PC) == Wrap(at + 8)
    requires i == SetPosTransfer(AssembleLiteral(cond, load, byte, 0, rd), at, target)
    ensures CondOf(i) == cond && Classify(i) == Class.Single
    ensures DataTransfer(s, i) == ExecLiteral(load, byte, rd, target, s)
  {
    hide AssembleLiteral, AssembleTransfer, ParsedWordOffset, SetPosTransfer, Field12, ToBits, ToInt, Nat, CondOf;
    hide Classify, DataTransfer, Wrap, Get, LoadByte, LoadWord, StoreByte, StoreWord, Wide12;
    var p := Wrap(target - SKIP_PC);
    var negative := p < at;
    var d := if negative then at - p else p - at;
    PatchedLiteral(cond, load, byte, rd, at, target, d, negative, i);
    TransferAgrees(cond, load, byte, rd, PC, Const12(Field12(d)), negative, Pre(false), s, i);
    FieldValue(d);
    LiteralTarget(at, target);
  }

  // ---------------------------------------------------------------------------
  // Addresses
  // ---------------------------------------------------------------------------

  /** An address instruction has eight bits of distance. */
  predicate AddressReach(at: Word, target: Word) {
    var p := Wrap(target - SKIP_PC);
    (if p < at then at - p else p - at) < 0x100
  }

  function LowByte(f: bv32): bv32 {
    f & 0xff
  }

  function AddressWord(cond: bv4, rd: Reg): bv32 {
    Encode(Address(cond, rd, ""))
  }

  lemma ZeroPacks()
    ensures PackImmediate(0, false) == 0
  {
  }

  lemma AddressWordIs(cond: bv4, rd: Reg)
    ensures AddressWord(cond, rd) == DataWord(cond, false, 4, rd, PC, ImmediateBits(0))
  {
    hide DataWord, ImmediateBits, PackImmediate;
    ZeroPacks();
  }

  lemma AddressUp(cond: bv4, rd: Reg, f: bv32)
    ensures WithField(DataWord(cond, false, 4, rd, PC, ImmediateBits(0)), f, 0xff)
      == DataWord(cond, false, 4, rd, PC, ImmediateBits(LowByte(f)))
  {
  }

  lemma AddressDown(cond: bv4, rd: Reg, f: bv32)
    ensures MakeSubtract(WithField(DataWord(cond, false, 4, rd, PC, ImmediateBits(0)), f, 0xff))
      == DataWord(cond, false, 2, rd, PC, ImmediateBits(LowByte(f)))
  {
  }

  lemma BytePacks(v: bv32)
    requires FitsByte(v)
    ensures Packable(ImmValue(v, false)) && PackImmediate(v, false) == PackBits(v, 0)
  {
  }

  lemma PackBitsZero(v: bv32)
    requires FitsByte(v)
    ensures PackBits(v, 0) == v
  {
  }

  lemma LowByteFits(f: bv32)
    ensures FitsByte(LowByte(f))
  {
  }

  lemma ByteField(d: Word)
    ensures ToInt(LowByte(ToBits(d))) == d % 0x100
  {
    hide Nat, ToBits, Pow2;
    Masks8();
    MaskMod(ToBits(d), 0xff, 8);
    ToIntToBits(d);
  }

  lemma AddressPatch(word: bv32, at: Word, target: Word)
    ensures var p := Wrap(target - SKIP_PC);
      && (p < at ==> SetPosAddress(word, at, target) == MakeSubtract(WithField(word, ToBits(at - p), 0xff)))
      && (p >= at ==> SetPosAddress(word, at, target) == WithField(word, ToBits(p - at), 0xff))
  {
    hide MakeSubtract, WithField, ToBits;
  }

  /** The patched word adds or subtracts the low byte of the distance. */
  lemma PatchedAddress(cond: bv4, rd: Reg, at: Word, target: Word, d: Word, op: Op, i: bv32)
    requires i == SetPosAddress(AddressWord(cond, rd), at, target)
    requires var p := Wrap(target - SKIP_PC); op == (if p < at then SUB else ADD) && d == (if p < at then at - p else p - at)
    ensures i == DataWord(cond, false, Opcode(op), rd, PC, ImmediateBits(LowByte(ToBits(d))))
  {
    hide LowByte, AddressWord, MakeSubtract, WithField, DataWord, ImmediateBits, ToBits, SetPosAddress;
    AddressPatch(AddressWord(cond, rd), at, target);
    AddressWordIs(cond, rd);
    AddressUp(cond, rd, ToBits(d));
    AddressDown(cond, rd, ToBits(d));
  }

  lemma ByteOperand(v: bv32)
    requires FitsByte(v)
    ensures OperandEncodable(Imm(v, false)) && Write12BitOperand(Parsed(Imm(v, false)), true) == ImmediateBits(v)
    ensures ImmValue(v, false) == v
  {
    hide Packable, PackImmediate, PackBits, FitsByte, ImmediateBits;
    BytePacks(v);
    PackBitsZero(v);
  }

  function Distance(at: Word, target: Word): Word {
    var p := Wrap(target - SKIP_PC);
    if p < at then at - p else p - at
  }

  lemma AddressBelow(at: Word, target: Word, d: Word)
    requires d == Distance(at, target) && Wrap(target - SKIP_PC) < at
    ensures Wrap(Wrap(at + 8) - d % 0x100) == target <==> d < 0x100
  {
    WrapAdd(at + 8, -(d % 0x100));
    LowByteOf(d);
    assert Wrap(at + 8 - d) == target;
  }

  lemma AddressAbove(at: Word, target: Word, d: Word)
    requires d == Distance(at, target) && Wrap(target - SKIP_PC) >= at
    ensures Wrap(Wrap(at + 8) + d % 0x100) == target <==> d < 0x100
  {
    WrapAdd(at + 8, d % 0x100);
    LowByteOf(d);
    assert Wrap(at + 8 + d) == target;
  }

  lemma LowByteOf(d: Word)
    ensures 0 <= d % 0x100 <= d && (d % 0x100 == d <==> d < 0x100)
  {
  }

  /** A patched address instruction computes its target exactly when the distance fits eight bits. */
  lemma AddressAgrees(cond: bv4, rd: Reg, at: Word, target: Word, s: State, i: bv32)
    requires Get(s.r, PC) == Wrap(at + 8)
    requires i == SetPosAddress(AddressWord(cond, rd), at, target)
    ensures CondOf(i) == cond && Classify(i) == Class.Data
    ensures DataProcessing(s, i) == s.(r := Put(s.r, rd, target)) <==> AddressReach(at, target)
  {
    var p := Wrap(target - SKIP_PC);
    var d := Distance(at, target);
    var op := if p < at then SUB else ADD;
    var v := LowByte(ToBits(d));
    hide LowByte, AddressWord, SetPosAddress, DataWord, ImmediateBits, ToBits, ToInt, Nat, CondOf, Classify;
    hide DataProcessing, Wrap, FitsByte, ImmValue, OperandEncodable, Write12BitOperand, Parsed, SumStatus;
    hide DifferenceStatus, Opcode;
    PatchedAddress(cond, rd, at, target, d, op, i);
    LowByteFits(ToBits(d));
    ByteOperand(v);
    DataAgrees(cond, op, false, rd, PC, Imm(v, false), PC, ImmediateBits(v), s, i);
    ByteField(d);
    if p < at {
      AddressBelow(at, target, d);
    } else {
      AddressAbove(at, target, d);
    }
    PutSame(s.r, rd, Wrap(if op == SUB then Wrap(at + 8) - d % 0x100 else Wrap(at + 8) + d % 0x100), target);
  }

  lemma PutSame(r: Regs, x: Reg, v: Word, w: Word)
    ensures Put(r, x, v) == Put(r, x, w) <==> v == w
  {
    assert Get(Put(r, x, v), x) == v && Get(Put(r, x, w), x) == w;
  }
}
