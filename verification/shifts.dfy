/**
 The shifted operands and the bitwise operations, on the operands as written: quotients, remainders and
 binary digits, without the functions that compute them.
 */
module Shifts {
  import opened BitFacts
  import opened Words
  import opened Machine
  import opened Asm
  import opened Encoder
  import opened Arithmetic
  import TwoOperandForms

  // ---------------------------------------------------------------------------
  // Fields of an instruction are its numbers
  // ---------------------------------------------------------------------------

  lemma WideExact(a: bv5, b: bv8, c: bv12, d: bv16)
    ensures Wide5(a) < 0x20 && Wide5(a) as bv5 == a
    ensures Wide8(b) < 0x100 && Wide8(b) as bv8 == b
    ensures Wide12(c) < 0x1000 && Wide12(c) as bv12 == c
    ensures Wide16(d) < 0x1_0000 && Wide16(d) as bv16 == d
  {
  }

  // ---------------------------------------------------------------------------
  // Shifts
  // ---------------------------------------------------------------------------

  /** w is x multiplied by 2^k, the bits above the word lost. */
  predicate IsLeft(x: Word, k: nat, w: Word) {
    (x * Pow2(k) - w) % TWO32 == 0
  }

  /** w is the quotient of x by 2^k, rounded down. */
  predicate IsRight(x: int, k: nat, w: int) {
    0 <= x - w * Pow2(k) < Pow2(k)
  }

  /** What each kind of shift by k makes of x; ROR is carried out as LSR. */
  predicate IsShifted(kind: Shift, x: Word, k: nat, w: Word) {
    match kind
    case LSL => IsLeft(x, k, w)
    case LSR => IsRight(x, k, w)
    case ASR => IsRight(Signed(x), k, Signed(w))
    case ROR => IsRight(x, k, w)
  }

  lemma WrapRest(x: int)
    ensures (x - Wrap(x)) % TWO32 == 0
  {
  }

  lemma Quotient(x: int, d: nat)
    requires d > 0
    ensures 0 <= x - x / d * d < d
  {
    assert x == d * (x / d) + x % d;
    assert x / d * d == d * (x / d);
  }

  lemma SignedQuotient(x: Word, d: nat)
    requires d > 0
    ensures Signed(Wrap(Signed(x) / d)) == Signed(x) / d
  {
    var q := Signed(x) / d;
    Quotient(Signed(x), d);
    QuotientRange(Signed(x), d, q);
    SignedWrap(q);
  }

  lemma QuotientRange(x: int, d: nat, q: int)
    requires d > 0 && -TWO31 <= x < TWO31 && 0 <= x - q * d < d
    ensures -TWO31 <= q < TWO31
  {
    if q >= TWO31 {
      MulMono(q, 1, d);
    }
    if q < -TWO31 {
      assert (-q - 1) * d == -q * d - d;
      MulMono(-q - 1, 1, d);
    }
  }

  lemma SignedWrap(q: int)
    requires -TWO31 <= q < TWO31
    ensures Signed(Wrap(q)) == q
  {
  }

  lemma ShiftedIs(kind: Shift, x: Word, k: nat)
    ensures IsShifted(kind, x, k, Shifted(ShiftCode(kind), x, k))
  {
    hide Pow2, Wrap, Signed;
    WrapRest(x * Pow2(k));
    Quotient(x, Pow2(k));
    Quotient(Signed(x), Pow2(k));
    SignedQuotient(x, Pow2(k));
  }

  /** The value of a register operand is determined by the quotient or product it must be. */
  lemma {:induction false} ShiftUnique(kind: Shift, x: Word, k: nat, v: Word, w: Word)
    requires IsShifted(kind, x, k, v) && IsShifted(kind, x, k, w)
    ensures v == w
  {
    hide Pow2;
    match kind
    case LSL => LeftUnique(x * Pow2(k), v, w);
    case LSR => RightUnique(x, Pow2(k), v, w);
    case ASR =>
      RightUnique(Signed(x), Pow2(k), Signed(v), Signed(w));
    case ROR => RightUnique(x, Pow2(k), v, w);
  }

  lemma LeftUnique(p: int, v: Word, w: Word)
    requires (p - v) % TWO32 == 0 && (p - w) % TWO32 == 0
    ensures v == w
  {
  }

  lemma RightUnique(x: int, d: nat, v: int, w: int)
    requires d > 0 && 0 <= x - v * d < d && 0 <= x - w * d < d
    ensures v == w
  {
    if v < w {
      assert (w - v) * d == w * d - v * d;
      MulMono(d, 1, w - v);
    } else if w < v {
      assert (v - w) * d == v * d - w * d;
      MulMono(d, 1, v - w);
    }
  }

  /** Register operands: the register itself, shifted by a constant, or by the value of a register. */
  lemma OperandIsShifted(r: Regs, op: RegOperand)
    ensures match op
      case Plain(rm) => RegValue(r, op) == Get(r, rm)
      case ByConst(rm, kind, amount) => IsShifted(kind, Get(r, rm), ToInt(Wide5(amount)), RegValue(r, op))
      case ByReg(rm, kind, rs) => IsShifted(kind, Get(r, rm), Get(r, rs), RegValue(r, op))
  {
    hide Shifted, IsShifted, ShiftCode, Get, ToInt;
    match op
    case Plain(_) =>
    case ByConst(rm, kind, amount) => ShiftedIs(kind, Get(r, rm), ToInt(Wide5(amount)));
    case ByReg(rm, kind, rs) => ShiftedIs(kind, Get(r, rm), Get(r, rs));
  }

  /** -2 shifted right by 1 is -1 when the sign is kept, and 2^31 - 1 when it is not. */
  lemma ShiftExample(r: Regs)
    requires r[1] == 0xffff_fffe
    ensures RegValue(r, ByConst(1, ASR, 1)) == 0xffff_ffff && RegValue(r, ByConst(1, LSR, 1)) == 0x7fff_ffff
    ensures RegValue(r, ByConst(1, LSL, 1)) == 0xffff_fffc
  {
    AmountOne();
    assert Pow2(1) == 2;
  }

  lemma AmountOne()
    ensures ToInt(Wide5(1)) == 1
  {
  }

  // ---------------------------------------------------------------------------
  // Binary digits
  // ---------------------------------------------------------------------------

  /** The binary digit of x with value 2^j. */
  predicate Digit(x: nat, j: nat)
    decreases j
  {
    if j == 0 then x % 2 == 1 else Digit(x / 2, j - 1)
  }

  lemma {:induction false} DigitOfBits(x: bv32, j: nat)
    ensures Digit(Nat(x), j) <==> BitAt(x, j)
    decreases j
  {
    hide Down, Odd, Nat;
    NatUnfold(x);
    if j > 0 {
      DigitOfBits(Down(x), j - 1);
    }
  }

  lemma {:induction false} BitsApart(x: bv32, y: bv32, j: nat)
    ensures BitAt(Meet(x, y), j) <==> BitAt(x, j) && BitAt(y, j)
    ensures BitAt(Join(x, y), j) <==> BitAt(x, j) || BitAt(y, j)
    ensures BitAt(TwoOperandForms.Differ(x, y), j) <==> BitAt(x, j) != BitAt(y, j)
    decreases j
  {
    hide Down, Odd, Meet, Join, TwoOperandForms.Differ;
    OddMeet(x, y);
    OddJoin(x, y);
    OddDiffer(x, y);
    DownMeet(x, y);
    DownJoin(x, y);
    DownDiffer(x, y);
    if j > 0 {
      BitsApart(Down(x), Down(y), j - 1);
    }
  }

  lemma OddDiffer(x: bv32, y: bv32)
    ensures Odd(TwoOperandForms.Differ(x, y)) <==> Odd(x) != Odd(y)
  {
  }

  lemma DownDiffer(x: bv32, y: bv32)
    ensures Down(TwoOperandForms.Differ(x, y)) == TwoOperandForms.Differ(Down(x), Down(y))
  {
  }

  /** The bitwise functions act on every digit alone. */
  lemma BitwiseDigits(x: Word, y: Word, j: nat)
    ensures Digit(And(x, y), j) <==> Digit(x, j) && Digit(y, j)
    ensures Digit(Or(x, y), j) <==> Digit(x, j) || Digit(y, j)
    ensures Digit(Xor(x, y), j) <==> Digit(x, j) != Digit(y, j)
  {
    hide *;
    var a, b := ToBits(x), ToBits(y);
    ToIntToBits(x);
    ToIntToBits(y);
    TwoOperandForms.Bitwise(x, y);
    BitsApart(a, b, j);
    DigitOfBits(a, j);
    DigitOfBits(b, j);
    DigitOfBits(Meet(a, b), j);
    DigitOfBits(Join(a, b), j);
    DigitOfBits(TwoOperandForms.Differ(a, b), j);
  }

  lemma {:induction false} ComplementDigits(x: nat, n: nat, j: nat)
    requires x < Pow2(n) && j < n
    ensures Digit(Pow2(n) - 1 - x, j) <==> !Digit(x, j)
    decreases n
  {
    assert Pow2(n) == 2 * Pow2(n - 1);
    var c := Pow2(n) - 1 - x;
    assert c / 2 == Pow2(n - 1) - 1 - x / 2 && c % 2 == 1 - x % 2;
    if j > 0 {
      ComplementDigits(x / 2, n - 1, j - 1);
    }
  }

  lemma NotDigits(x: Word, j: nat)
    requires j < 32
    ensures Digit(Not(x), j) <==> !Digit(x, j)
  {
    hide Digit, Pow2, Nat;
    Masks32();
    ComplementDigits(x, 32, j);
  }

  // ---------------------------------------------------------------------------
  // The sixteen operations
  // ---------------------------------------------------------------------------

  predicate Congruent(a: int, b: int) {
    (a - b) % TWO32 == 0
  }

  /** The result v of an operation on x and y with carry c, digit by digit or modulo 2^32. */
  ghost predicate IsResult(op: Op, x: Word, y: Word, c: int, v: Word) {
    match op
    case AND => forall j: nat :: j < 32 ==> (Digit(v, j) <==> Digit(x, j) && Digit(y, j))
    case EOR => forall j: nat :: j < 32 ==> (Digit(v, j) <==> Digit(x, j) != Digit(y, j))
    case ORR => forall j: nat :: j < 32 ==> (Digit(v, j) <==> Digit(x, j) || Digit(y, j))
    case BIC => forall j: nat :: j < 32 ==> (Digit(v, j) <==> Digit(x, j) && !Digit(y, j))
    case MVN => forall j: nat :: j < 32 ==> (Digit(v, j) <==> !Digit(y, j))
    case MOV => v == y
    case ADD => Congruent(v, x + y)
    case SUB => Congruent(v + y, x)
    case RSB => Congruent(v + x, y)
    case ADC => Congruent(v, x + y + c)
    case SBC => Congruent(v + y, x + c)
    case RSC => Congruent(v + y, x + c)
    case _ => true
  }

  lemma WrapCongruent(a: int)
    ensures Congruent(Wrap(a), a)
  {
  }

  lemma WrapCongruentPlus(a: int, d: int)
    ensures Congruent(Wrap(a) + d, a + d)
  {
  }

  lemma ResultIs(op: Op, setFlags: bool, cpsr: bv32, x: Word, y: Word)
    ensures IsResult(op, x, y, if FlagC(cpsr) then 1 else 0, DataMeaning(op, setFlags, cpsr, x, y).value)
  {
    hide And, Or, Xor, Not, Wrap, FlagC, Congruent, Digit, LogicStatus, SumStatus, DifferenceStatus;
    var c := Carry(cpsr);
    forall j: nat | j < 32
      ensures Digit(And(x, y), j) <==> Digit(x, j) && Digit(y, j)
      ensures Digit(Or(x, y), j) <==> Digit(x, j) || Digit(y, j)
      ensures Digit(Xor(x, y), j) <==> Digit(x, j) != Digit(y, j)
      ensures Digit(And(x, Not(y)), j) <==> Digit(x, j) && !Digit(y, j)
      ensures Digit(Not(y), j) <==> !Digit(y, j)
    {
      BitwiseDigits(x, y, j);
      BitwiseDigits(x, Not(y), j);
      NotDigits(y, j);
    }
    WrapCongruent(x + y);
    WrapCongruent(x + y + c);
    WrapCongruentPlus(x - y, y);
    WrapCongruentPlus(y - x, x);
    WrapCongruentPlus(x - y + c, y);
  }

  /** MUL and MLA: the product, with the addend of MLA, modulo 2^32. */
  lemma ProductIs(accumulate: bool, setFlags: bool, rd: Reg, rm: Reg, rs: Reg, rn: Reg, s: State, env: Host)
    ensures Congruent(Get(Exec(Mul(AL, accumulate, setFlags, rd, rm, rs, rn), 0, s, env).r, rd),
                      Get(s.r, rm) * Get(s.r, rs) + if accumulate then Get(s.r, rn) else 0)
  {
    hide Wrap, Congruent, MultiplyFlags;
    WrapCongruent(Get(s.r, rm) * Get(s.r, rs) + if accumulate then Get(s.r, rn) else 0);
  }
}
