/** What single instructions change, stated per register, for reasoning about guest programs. */
module Effects {
  import opened Words
  import opened Machine
  import opened Asm
  import opened Encoder

  /** Every register below the pc other than x keeps its value. */
  ghost predicate SameBut(r: Regs, r': Regs, x: nat) {
    forall j: nat :: j < 15 && j != x ==> r'[j] == r[j]
  }

  lemma ConditionAlways(cpsr: bv32)
    ensures Condition(cpsr, AL)
  {
  }

  lemma PerformAlways(i: Instr, target: Word, s: State, env: Host)
    requires ConditionOf(i) == AL
    ensures Perform(i, target, s, env) == Exec(i, target, Advance(s), env)
  {
    hide Exec, Condition;
    ConditionAlways(s.cpsr);
  }

  /** A data operation that writes a general register. */
  lemma DataEffect(op: Op, rd: Reg, rn: Reg, op2: Operand2, target: Word, s: State, env: Host, x: Word, y: Word)
    requires !IsCompare(op) && rd != PC && rn != PC
    requires x == Get(s.r, rn) && y == OperandValue(Advance(s).r, op2)
    ensures var t := Perform(Instr.Data(AL, op, false, rd, rn, op2), target, s, env);
      && t.loc == Wrap(s.loc + 4) && t.mem == s.mem
      && SameBut(s.r, t.r, rd as int) && Get(t.r, rd) == DataMeaning(op, false, s.cpsr, x, y).value
  {
    hide Condition, OperandValue, And, Or, Xor, Not, Wrap, Carry, LogicStatus, SumStatus, DifferenceStatus;
    PerformAlways(Instr.Data(AL, op, false, rd, rn, op2), target, s, env);
    assert Get(Advance(s).r, rn) == Get(s.r, rn);
  }

  /** A comparison changes the flags only. */
  lemma CompareEffect(rn: Reg, rm: Reg, target: Word, s: State, env: Host)
    requires rn != PC && rm != PC
    ensures var t := Perform(Instr.Data(AL, CMP, false, 0, rn, Plain(rm)), target, s, env);
      && t.loc == Wrap(s.loc + 4) && t.mem == s.mem && SameBut(s.r, t.r, 15)
      && t.cpsr == DifferenceStatus(s.cpsr, Get(s.r, rn), Get(s.r, rm))
  {
    hide Condition, Wrap, DifferenceStatus;
    PerformAlways(Instr.Data(AL, CMP, false, 0, rn, Plain(rm)), target, s, env);
    assert Get(Advance(s).r, rn) == Get(s.r, rn) && Get(Advance(s).r, rm) == Get(s.r, rm);
  }

  /** A branch goes to its target when its condition holds and falls through otherwise. */
  lemma JumpEffect(cond: bv4, sym: string, target: Word, s: State, env: Host)
    ensures var t := Perform(Jump(cond, false, sym), target, s, env);
      && t.loc == (if Condition(s.cpsr, cond) then target else Wrap(s.loc + 4))
      && t.mem == s.mem && SameBut(s.r, t.r, 15)
  {
    hide Condition, Wrap;
  }

  lemma LoadEffect(rd: Reg, rn: Reg, op: RegOperand, target: Word, s: State, env: Host, a: Word)
    requires rd != PC && rn != PC && rd != rn
    requires a == Wrap(Get(s.r, rn) + RegValue(Advance(s).r, op))
    ensures var t := Perform(Transfer(AL, true, false, rd, rn, Index(op), false, Pre(false)), target, s, env);
      && t.loc == Wrap(s.loc + 4) && t.mem == s.mem
      && SameBut(s.r, t.r, rd as int) && Get(t.r, rd) == LoadWord(s.mem, a)
  {
    hide Condition, RegValue, Wrap, LoadWord;
    PerformAlways(Transfer(AL, true, false, rd, rn, Index(op), false, Pre(false)), target, s, env);
    assert Get(Advance(s).r, rn) == Get(s.r, rn);
  }

  // ---------------------------------------------------------------------------
  // Comparisons and conditions
  // ---------------------------------------------------------------------------

  lemma FlagsSet(cpsr: bv32, n: bool, z: bool, c: bool, v: bool)
    ensures var f := SetFlags(cpsr, n, z, c, v);
      (FlagN(f) <==> n) && (FlagZ(f) <==> z) && (FlagC(f) <==> c) && (FlagV(f) <==> v)
  {
  }

  /** The flags stand in the top four bits. */
  lemma FlagPlaces()
    ensures SetFlags(0, true, false, false, false) == 0x8000_0000 && SetFlags(0, false, true, false, false) == 0x4000_0000
    ensures SetFlags(0, false, false, true, false) == 0x2000_0000 && SetFlags(0, false, false, false, true) == 0x1000_0000
  {
  }

  /** The bits below the flags are kept. */
  lemma FlagsKeep(cpsr: bv32, n: bool, z: bool, c: bool, v: bool)
    ensures SetFlags(cpsr, n, z, c, v) & 0x0fff_ffff == cpsr & 0x0fff_ffff
  {
  }

  /** A trap is left to whoever watches the machine: nothing but the location and r15 move. */
  lemma TrapPasses(cond: bv4, target: Word, s: State, env: Host)
    ensures var t := Perform(TrapIns(cond), target, s, env);
      t == State(s.r[15 := Wrap(s.loc + 8)], s.mem, Wrap(s.loc + 4), s.cpsr)
  {
    hide Condition, Wrap;
  }

  /** What each condition code asks of the four flags. */
  lemma CodesMean(cpsr: bv32, n: bool, z: bool, c: bool, v: bool)
    ensures var f := SetFlags(cpsr, n, z, c, v);
      && (Condition(f, 0) <==> z) && (Condition(f, 1) <==> !z)
      && (Condition(f, 2) <==> c) && (Condition(f, 3) <==> !c)
      && (Condition(f, 4) <==> n) && (Condition(f, 5) <==> !n)
      && (Condition(f, 6) <==> v) && (Condition(f, 7) <==> !v)
      && (Condition(f, 8) <==> c && !z) && (Condition(f, 9) <==> !c || z)
      && (Condition(f, 10) <==> n == v) && (Condition(f, 11) <==> n != v)
      && (Condition(f, 12) <==> !z && n == v) && (Condition(f, 13) <==> z || n != v)
      && Condition(f, 14) && Condition(f, 15)
  {
    hide SetFlags, FlagN, FlagZ, FlagC, FlagV;
    FlagsSet(cpsr, n, z, c, v);
  }

  /** N differs from V exactly when the signed difference is negative. */
  lemma SignedLess(x: Word, y: Word)
    ensures var e := Signed(x) - Signed(y);
      (Signed(Wrap(x - y)) < 0) != !(-TWO31 <= e < TWO31) <==> Signed(x) < Signed(y)
  {
  }

  /**
   Every comparison condition is the integer comparison of x with y, unsigned or signed; MI and PL give
   the sign of the difference as a word, VS and VC whether the signed difference fits one.
   */
  predicate Compares(f: bv32, x: Word, y: Word) {
    && (Condition(f, 0) <==> x == y) && (Condition(f, 1) <==> x != y)
    && (Condition(f, 2) <==> x >= y) && (Condition(f, 3) <==> x < y)
    && (Condition(f, 4) <==> Signed(Wrap(x - y)) < 0) && (Condition(f, 5) <==> Signed(Wrap(x - y)) >= 0)
    && (Condition(f, 6) <==> !(-TWO31 <= Signed(x) - Signed(y) < TWO31))
    && (Condition(f, 7) <==> -TWO31 <= Signed(x) - Signed(y) < TWO31)
    && (Condition(f, 8) <==> x > y) && (Condition(f, 9) <==> x <= y)
    && (Condition(f, 10) <==> Signed(x) >= Signed(y)) && (Condition(f, 11) <==> Signed(x) < Signed(y))
    && (Condition(f, 12) <==> Signed(x) > Signed(y)) && (Condition(f, 13) <==> Signed(x) <= Signed(y))
  }

  /** So it is after a flag-setting subtraction x - y. */
  lemma ComparisonConditions(cpsr: bv32, x: Word, y: Word)
    ensures Compares(DifferenceStatus(cpsr, x, y), x, y)
  {
    hide SetFlags, Condition, Wrap;
    var e := Signed(x) - Signed(y);
    CodesMean(cpsr, Signed(Wrap(x - y)) < 0, x == y, x >= y, !(-TWO31 <= e < TWO31));
    SignedLess(x, y);
  }

  // ---------------------------------------------------------------------------
  // Words in memory
  // ---------------------------------------------------------------------------

  lemma LoadStored(mem: seq<Byte>, a: int, v: Word)
    requires InMem(mem, a)
    ensures LoadWord(StoreWord(mem, a, v), a) == v
  {
    WordOfBytes(v);
  }

  lemma LoadElsewhere(mem: seq<Byte>, a: int, v: Word, b: int)
    requires a + 4 <= b || b + 4 <= a
    ensures LoadWord(StoreWord(mem, a, v), b) == LoadWord(mem, b)
  {
  }

  lemma SmallConstant(n: bv32)
    requires n == 0 || n == 1
    ensures Packable(ImmValue(n, false)) && ToInt(ImmValue(n, false)) == (if n == 0 then 0 else 1)
  {
    assert ImmValue(n, false) == n && FitsByte(n);
    assert Nat(1) == 1;
  }
}
