/** Arithmetic on pairs of registers, and where the interpreter's arithmetic departs from the ARM. */
module Arithmetic {
  import opened BitFacts
  import opened Words
  import opened Machine
  import opened Asm
  import opened Effects

  const TWO64: int := 0x1_0000_0000_0000_0000

  /** The 64-bit value of a pair of words. */
  function Pair(high: Word, low: Word): (v: int)
    ensures 0 <= v < TWO64
  {
    high * TWO32 + low
  }

  // ---------------------------------------------------------------------------
  // 64-bit addition
  // ---------------------------------------------------------------------------

  lemma CarryOfSum(cpsr: bv32, x: Word, y: Word)
    ensures Carry(SumStatus(cpsr, x, y)) == if x + y >= TWO32 then 1 else 0
  {
    hide SetFlags, FlagC, FlagN, FlagZ, FlagV, Wrap;
    var d := Wrap(x + y);
    FlagsSet(cpsr, Signed(d) < 0, d == 0, x + y >= TWO32,
             (Signed(x) < 0) != (Signed(y) < 0) && (Signed(d) < 0) != (Signed(x) < 0));
  }

  lemma PairSum(xh: Word, xl: Word, yh: Word, yl: Word)
    ensures var c := if xl + yl >= TWO32 then 1 else 0;
      Pair(Wrap(xh + yh + c), Wrap(xl + yl)) == (Pair(xh, xl) + Pair(yh, yl)) % TWO64
  {
    var c := if xl + yl >= TWO32 then 1 else 0;
    var e := if xh + yh + c >= TWO32 then 1 else 0;
    assert Wrap(xl + yl) == xl + yl - c * TWO32;
    assert Wrap(xh + yh + c) == xh + yh + c - e * TWO32;
    assert Pair(xh, xl) + Pair(yh, yl) == Pair(Wrap(xh + yh + c), Wrap(xl + yl)) + e * TWO64;
  }

  predicate General(x: Reg) {
    x != PC
  }

  lemma AddsEffect(lo: Reg, a: Reg, b: Reg, s: State, env: Host)
    requires General(lo) && General(a) && General(b)
    ensures var t := Perform(Instr.Data(AL, ADD, true, lo, a, Plain(b)), 0, s, env);
      && t.mem == s.mem && t.cpsr == SumStatus(s.cpsr, Get(s.r, a), Get(s.r, b))
      && SameBut(s.r, t.r, lo as int) && Get(t.r, lo) == Wrap(Get(s.r, a) + Get(s.r, b))
  {
    hide Condition, SumStatus, Wrap;
    PerformAlways(Instr.Data(AL, ADD, true, lo, a, Plain(b)), 0, s, env);
    assert Get(Advance(s).r, a) == Get(s.r, a) && Get(Advance(s).r, b) == Get(s.r, b);
  }

  lemma AdcEffect(hi: Reg, c: Reg, d: Reg, s: State, env: Host)
    requires General(hi) && General(c) && General(d)
    ensures var t := Perform(Instr.Data(AL, ADC, false, hi, c, Plain(d)), 0, s, env);
      && t.mem == s.mem
      && SameBut(s.r, t.r, hi as int) && Get(t.r, hi) == Wrap(Get(s.r, c) + Get(s.r, d) + Carry(s.cpsr))
  {
    hide Condition, Carry, Wrap;
    PerformAlways(Instr.Data(AL, ADC, false, hi, c, Plain(d)), 0, s, env);
    assert Get(Advance(s).r, c) == Get(s.r, c) && Get(Advance(s).r, d) == Get(s.r, d);
  }

  lemma Kept(r: Regs, r': Regs, x: Reg, j: Reg)
    requires SameBut(r, r', x as int) && j != x && General(j)
    ensures Get(r', j) == Get(r, j)
  {
  }

  /**
   ADDS on the low words and ADC on the high words add 64-bit values modulo 2^64, when the first
   instruction leaves the second one's inputs alone.
   */
  lemma AddsThenAdc(lo: Reg, a: Reg, b: Reg, hi: Reg, c: Reg, d: Reg, s: State, env: Host)
    requires General(lo) && General(a) && General(b) && General(hi) && General(c) && General(d)
    requires lo != hi && lo != c && lo != d
    ensures var t := Perform(Instr.Data(AL, ADD, true, lo, a, Plain(b)), 0, s, env);
      var u := Perform(Instr.Data(AL, ADC, false, hi, c, Plain(d)), 0, t, env);
      && Pair(Get(u.r, hi), Get(u.r, lo)) ==
         (Pair(Get(s.r, c), Get(s.r, a)) + Pair(Get(s.r, d), Get(s.r, b))) % TWO64
      && u.mem == s.mem
      && forall j: nat :: j < 15 && j != lo as int && j != hi as int ==> u.r[j] == s.r[j]
  {
    var t := Perform(Instr.Data(AL, ADD, true, lo, a, Plain(b)), 0, s, env);
    var u := Perform(Instr.Data(AL, ADC, false, hi, c, Plain(d)), 0, t, env);
    AddsEffect(lo, a, b, s, env);
    AdcEffect(hi, c, d, t, env);
    hide Perform, SumStatus, Carry, Wrap, Pair, Get, General;
    Kept(s.r, t.r, lo, c);
    Kept(s.r, t.r, lo, d);
    Kept(t.r, u.r, hi, lo);
    CarryOfSum(s.cpsr, Get(s.r, a), Get(s.r, b));
    PairSum(Get(s.r, c), Get(s.r, a), Get(s.r, d), Get(s.r, b));
  }

  // ---------------------------------------------------------------------------
  // 64-bit products
  // ---------------------------------------------------------------------------

  lemma ProductPair(x: Word, y: Word)
    ensures Pair(LongHigh(false, x, y, 0), LongLow(false, x, y, 0)) == x * y
  {
    assert x * y == TWO32 * HighHalf(x, y) + Wrap(x * y);
    hide HighHalf, Wrap;
  }

  lemma ExecLong(i: Instr, a: State, env: Host)
    requires i.LongMul? && !i.accumulate
    ensures var x, y := Get(a.r, i.rm), Get(a.r, i.rs);
      Exec(i, 0, a, env).r ==
        Put(Put(a.r, i.rdHi, LongHigh(false, x, y, Get(a.r, i.rdHi))), i.rdLo, LongLow(false, x, y, Get(a.r, i.rdLo)))
  {
    hide Get, Put, LongHigh, LongLow, ExecData, ExecTransfer, ExecHalf, ExecBlock, OperandValue, Wrap, LoadByte;
    hide LoadWord, StoreByte, StoreWord, MultiplyFlags, ToInt, WordOffsetValue, HalfOffsetValue;
  }

  lemma PutTwo(r: Regs, hi: Reg, lo: Reg, h: Word, l: Word)
    requires lo != hi
    ensures Get(Put(Put(r, hi, h), lo, l), hi) == h && Get(Put(Put(r, hi, h), lo, l), lo) == l
  {
  }

  lemma LongEffect(isSigned: bool, lo: Reg, hi: Reg, rm: Reg, rs: Reg, s: State, env: Host)
    requires lo != hi
    ensures var x, y := Get(Advance(s).r, rm), Get(Advance(s).r, rs);
      var t := Perform(LongMul(AL, isSigned, false, lo, hi, rm, rs), 0, s, env);
      Get(t.r, hi) == LongHigh(false, x, y, 0) && Get(t.r, lo) == LongLow(false, x, y, 0)
  {
    hide Exec, Condition, Advance, LongHigh, LongLow, Get, Put;
    var i := LongMul(AL, isSigned, false, lo, hi, rm, rs);
    var a := Advance(s);
    var x, y := Get(a.r, rm), Get(a.r, rs);
    PerformAlways(i, 0, s, env);
    ExecLong(i, a, env);
    LongIgnores(x, y, Get(a.r, hi), Get(a.r, lo));
    PutTwo(a.r, hi, lo, LongHigh(false, x, y, 0), LongLow(false, x, y, 0));
  }

  lemma LongIgnores(x: Word, y: Word, high: Word, low: Word)
    ensures LongHigh(false, x, y, high) == LongHigh(false, x, y, 0)
    ensures LongLow(false, x, y, low) == LongLow(false, x, y, 0)
  {
    hide HighHalf, Wrap;
  }

  /** UMULL leaves the exact 64-bit product in its two destinations. */
  lemma LongProduct(isSigned: bool, lo: Reg, hi: Reg, rm: Reg, rs: Reg, s: State, env: Host)
    requires lo != hi
    ensures var x, y := Get(Advance(s).r, rm), Get(Advance(s).r, rs);
      var t := Perform(LongMul(AL, isSigned, false, lo, hi, rm, rs), 0, s, env);
      Pair(Get(t.r, hi), Get(t.r, lo)) == x * y
  {
    hide Perform, Advance, LongHigh, LongLow, Get, Pair;
    var x, y := Get(Advance(s).r, rm), Get(Advance(s).r, rs);
    LongEffect(isSigned, lo, hi, rm, rs, s, env);
    ProductPair(x, y);
  }

  /** SMULL computes the same product, which is the signed one modulo 2^64 only for these operands. */
  predicate SignedProductRight(x: Word, y: Word) {
    (x < TWO31 && y < TWO31) || x == 0 || y == 0 || (x == TWO31 && y == TWO31)
  }

  /** What the product of the unsigned values exceeds that of the signed values by, in units of 2^32. */
  function SignExcess(x: Word, y: Word): (h: int)
    ensures 0 <= h < 2 * TWO32
    ensures SignedProductRight(x, y) <==> h == 0 || h == TWO32
  {
    (if x < TWO31 then 0 else y) + (if y < TWO31 then 0 else x)
  }

  lemma MinusTwo32(x: int, y: int)
    ensures (x - TWO32) * y == x * y - TWO32 * y
  {
  }

  lemma SignedExpand(x: Word, y: Word)
    ensures var k := if x < TWO31 || y < TWO31 then 0 else 1;
      Signed(x) * Signed(y) == x * y - TWO32 * SignExcess(x, y) + k * TWO64
  {
    MinusTwo32(x, y);
    MinusTwo32(y, x);
    MinusTwo32(x, y - TWO32);
    assert x * (y - TWO32) == (y - TWO32) * x && y * x == x * y;
    assert x >= TWO31 && y >= TWO31 ==> TWO32 * (y - TWO32) == TWO32 * y - TWO64;
  }

  lemma SignedLongProduct(x: Word, y: Word)
    ensures x * y == Signed(x) * Signed(y) % TWO64 <==> SignedProductRight(x, y)
  {
    hide SignExcess, Signed, SignedProductRight;
    SignedExpand(x, y);
    assert 0 <= x * y < TWO64 by {
      ProductPair(x, y);
    }
    Congruent(x * y, SignExcess(x, y), if x < TWO31 || y < TWO31 then 0 else 1);
  }

  lemma Congruent(p: int, h: int, k: int)
    requires 0 <= p < TWO64 && 0 <= h < 2 * TWO32
    ensures p == (p - TWO32 * h + k * TWO64) % TWO64 <==> h == 0 || h == TWO32
  {
  }

  // ---------------------------------------------------------------------------
  // Accumulating products
  // ---------------------------------------------------------------------------

  /** Joining loses exactly the common bits of a sum. */
  lemma {:induction false} JoinPlusMeet(x: bv32, y: bv32)
    ensures Nat(Join(x, y)) + Nat(Meet(x, y)) == Nat(x) + Nat(y)
    decreases Nat(x)
  {
    hide *;
    NatOfZero();
    if x == 0 {
      JoinZero(y);
      ZeroMeet(y);
    } else {
      NatPos(x);
      NatUnfold(x);
      JoinPlusMeet(Down(x), Down(y));
      NatUnfold(y);
      NatUnfold(Join(x, y));
      NatUnfold(Meet(x, y));
      DownJoin(x, y);
      DownMeet(x, y);
      OddJoin(x, y);
      OddMeet(x, y);
    }
  }

  lemma ZeroMeet(y: bv32)
    ensures Meet(0, y) == 0
  {
  }

  lemma OrPlusAnd(x: Word, y: Word)
    ensures Or(x, y) + And(x, y) == x + y
  {
    OrAndNames(x, y);
    hide *;
    JoinPlusMeet(ToBits(x), ToBits(y));
    ToIntToBits(x);
    ToIntToBits(y);
  }

  lemma OrAndNames(x: Word, y: Word)
    ensures Or(x, y) == Nat(Join(ToBits(x), ToBits(y))) && And(x, y) == Nat(Meet(ToBits(x), ToBits(y)))
  {
    hide Nat, ToBits;
  }

  lemma PairAccumulates(p: int, q: int, low: Word, high: Word, rdLo: Word, rdHi: Word, joined: Word, common: Word)
    requires p == Pair(high, low) && q == Pair(rdHi, rdLo) && joined + common == low + rdLo
    ensures Pair(Wrap(high + rdHi), joined) == (p + q) % TWO64 <==> common == 0
  {
    var e := if high + rdHi >= TWO32 then 1 else 0;
    assert Wrap(high + rdHi) == high + rdHi - e * TWO32;
    assert p + q == Pair(Wrap(high + rdHi), joined) + common + e * TWO64;
  }

  /**
   The accumulating forms OR the old low word in instead of adding it: UMLAL is right exactly when the
   low word of the product and the old low word have no bit in common.
   */
  lemma LongAccumulates(x: Word, y: Word, rdHi: Word, rdLo: Word)
    ensures Pair(LongHigh(true, x, y, rdHi), LongLow(true, x, y, rdLo)) == (x * y + Pair(rdHi, rdLo)) % TWO64
      <==> And(Wrap(x * y), rdLo) == 0
  {
    hide Or, And, Wrap, HighHalf, Pair;
    ProductPair(x, y);
    OrPlusAnd(Wrap(x * y), rdLo);
    PairAccumulates(x * y, Pair(rdHi, rdLo), Wrap(x * y), HighHalf(x, y), rdLo, rdHi, Or(Wrap(x * y), rdLo), And(Wrap(x * y), rdLo));
  }

  lemma CongruentCommon(coded: int, sum: int, h: int, common: int, e: int, k: int)
    requires 0 <= coded < TWO64 && coded == sum - common - e * TWO64
    requires 0 <= h < 2 * TWO32 && 0 <= common < TWO32
    ensures coded == (sum - TWO32 * h + k * TWO64) % TWO64 <==> common == 0 && (h == 0 || h == TWO32)
  {
    var d := TWO32 * h - common;
    assert sum - TWO32 * h + k * TWO64 == coded - d + (e + k) * TWO64;
    DistinctResidue(coded, d, e + k);
  }

  lemma DistinctResidue(c: int, d: int, m: int)
    requires 0 <= c < TWO64 && -TWO32 < d < 2 * TWO64
    ensures c == (c - d + m * TWO64) % TWO64 <==> d == 0 || d == TWO64
  {
    var r := (c - d + m * TWO64) % TWO64;
    var q := (c - d + m * TWO64) / TWO64;
    assert c - d + m * TWO64 == q * TWO64 + r;
    if c == r {
      assert d == (m - q) * TWO64;
    }
  }

  /** SMLAL is right exactly when, besides, the signed product is right. */
  lemma SignedLongAccumulates(x: Word, y: Word, rdHi: Word, rdLo: Word)
    ensures Pair(LongHigh(true, x, y, rdHi), LongLow(true, x, y, rdLo))
        == (Signed(x) * Signed(y) + Pair(rdHi, rdLo)) % TWO64
      <==> And(Wrap(x * y), rdLo) == 0 && SignedProductRight(x, y)
  {
    hide Or, And, HighHalf, SignExcess, Signed, SignedProductRight;
    var low, high := Wrap(x * y), HighHalf(x, y);
    ProductPair(x, y);
    OrPlusAnd(low, rdLo);
    SignedExpand(x, y);
    var e := if high + rdHi >= TWO32 then 1 else 0;
    var k := if x < TWO31 || y < TWO31 then 0 else 1;
    Accumulated(high, low, rdHi, rdLo, Or(low, rdLo), And(low, rdLo));
    CongruentCommon(Pair(Wrap(high + rdHi), Or(low, rdLo)), x * y + Pair(rdHi, rdLo), SignExcess(x, y), And(low, rdLo), e, k);
  }

  lemma Accumulated(high: Word, low: Word, rdHi: Word, rdLo: Word, joined: Word, common: Word)
    requires joined + common == low + rdLo
    ensures var e := if high + rdHi >= TWO32 then 1 else 0;
      Pair(Wrap(high + rdHi), joined) == Pair(high, low) + Pair(rdHi, rdLo) - common - e * TWO64
  {
  }

  // ---------------------------------------------------------------------------
  // Concrete operands
  // ---------------------------------------------------------------------------

  /** -1 times 1 is computed as 0xffffffff, and so is -1 times 1 accumulated onto 0. */
  lemma SignedProductExample()
    ensures Signed(0xffff_ffff) == -1 && !SignedProductRight(0xffff_ffff, 1)
    ensures 0xffff_ffff != Signed(0xffff_ffff) * Signed(1) % TWO64
    ensures Pair(LongHigh(true, 0xffff_ffff, 1, 0), LongLow(true, 0xffff_ffff, 1, 0))
      != (Signed(0xffff_ffff) * Signed(1) + Pair(0, 0)) % TWO64
  {
    hide LongHigh, LongLow, Pair, And;
    SignedLongAccumulates(0xffff_ffff, 1, 0, 0);
  }

  /** 1 times 1 accumulated onto 1 leaves 1. */
  lemma AccumulateExample()
    ensures Pair(LongHigh(true, 1, 1, 0), LongLow(true, 1, 1, 1)) != (1 * 1 + Pair(0, 1)) % TWO64
  {
    hide LongHigh, LongLow, And, Pair;
    LongAccumulates(1, 1, 0, 1);
    BitsOfOne();
  }

  lemma BitsOfOne()
    ensures And(1, 1) == 1
  {
    assert ToBits(1) == 1 && Nat(1) == 1;
  }
}
