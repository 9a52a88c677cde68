/** The run of `_sum_array`: its result, its length and its footprint. */
module SumRun {
  import opened BitFacts
  import opened Words
  import opened Machine
  import opened Asm
  import opened Program
  import opened Effects
  import opened Stack
  import opened SumArray

  function Base(s: State): Word { Get(s.r, 0) }
  function StackTop(s: State): Word { Get(s.r, SP) }

  /** The number of elements: the signed count, or none when it is negative. */
  function Elements(s: State): nat {
    var n := Signed(Get(s.r, 1));
    if n < 0 then 0 else n
  }

  /** The sum of the first n words at a, modulo 2^32. */
  function SumWords(mem: seq<Byte>, a: int, n: nat): Word {
    if n == 0 then 0 else Wrap(SumWords(mem, a, n - 1) + LoadWord(mem, a + 4 * (n - 1)))
  }

  /** Called with the program loaded, room for three words above it, and an array apart from that room. */
  ghost predicate Callable(image: seq<Byte>, base: Word, s: State) {
    && Holds(image, s.mem) && s.loc == base && |s.mem| <= TWO31
    && |image| + 12 <= StackTop(s) <= |s.mem|
    && (Elements(s) > 0 ==>
          && Base(s) + 4 * Elements(s) <= |s.mem|
          && (Base(s) + 4 * Elements(s) <= StackTop(s) - 12 || StackTop(s) <= Base(s)))
  }

  /** The three words below the old stack pointer hold r4, r5 and lr; every other byte is unchanged. */
  ghost predicate Saved(s: State, mem: seq<Byte>)
    requires 12 <= StackTop(s) <= |s.mem|
  {
    var sp := StackTop(s);
    && |mem| == |s.mem|
    && LoadWord(mem, sp - 12) == s.r[4] && LoadWord(mem, sp - 8) == s.r[5] && LoadWord(mem, sp - 4) == s.r[14]
    && OnlyStackChanged(s.mem, mem, sp)
  }

  ghost predicate OnlyStackChanged(mem: seq<Byte>, mem': seq<Byte>, sp: int) {
    |mem'| == |mem| && forall k :: 0 <= k < |mem| && !(sp - 12 <= k < sp) ==> mem'[k] == mem[k]
  }

  /** Inside the function: i elements have been added. */
  ghost predicate Inside(s: State, r: Regs, i: Word, total: Word) {
    && (forall j: nat :: j < 15 && j != 2 && j != 4 && j != 5 && j != 13 ==> r[j] == s.r[j])
    && r[13] == StackTop(s) - 12 && r[4] == i && r[5] == total
  }

  ghost predicate AtLoop(image: seq<Byte>, base: Word, s: State, t: State, i: nat)
    requires Callable(image, base, s)
  {
    && i <= Elements(s) && t.loc == base + 12
    && Saved(s, t.mem) && Inside(s, t.r, i, SumWords(s.mem, Base(s), i))
  }

  lemma StaysLoaded(image: seq<Byte>, base: Word, s: State, mem: seq<Byte>)
    requires Callable(image, base, s) && OnlyStackChanged(s.mem, mem, StackTop(s))
    ensures Holds(image, mem)
  {
    assert mem[..|image|] == s.mem[..|image|];
  }

  // ---------------------------------------------------------------------------
  // The saved registers
  // ---------------------------------------------------------------------------

  /** The bits of a list from those of its upper part. */
  lemma BitsAbove(x: bv32, y: bv32, b: bool)
    requires x == Up(y, b) && Meet(y, 0x8000_0000) == 0
    ensures BitAt(x, 0) <==> b
    ensures forall j: nat :: j > 0 ==> (BitAt(x, j) <==> BitAt(y, j - 1))
  {
    hide Up, Down, Odd, Meet;
    OddUp(y, b);
    DownUp(y, b);
  }

  lemma {:induction false} NoBits(j: nat)
    ensures !BitAt(0, j)
    decreases j
  {
    hide Down, Odd;
    DownZero();
    if j > 0 {
      NoBits(j - 1);
    }
  }

  lemma WideLists()
    ensures Wide16(LIST_SAVED) == 0x4030 && Wide16(LIST_RESTORED) == 0x8030
  {
  }

  lemma SavedPattern(j: nat)
    requires j < 16
    ensures BitAt(0x4030, j) <==> j == 4 || j == 5 || j == 14
  {
    hide BitAt;
    BitsAbove(0x4030, 0x2018, false);
    BitsAbove(0x2018, 0x100c, false);
    BitsAbove(0x100c, 0x806, false);
    BitsAbove(0x806, 0x403, false);
    BitsAbove(0x403, 0x201, true);
    BitsAbove(0x201, 0x100, true);
    BitsAbove(0x100, 0x80, false);
    BitsAbove(0x80, 0x40, false);
    BitsAbove(0x40, 0x20, false);
    BitsAbove(0x20, 0x10, false);
    BitsAbove(0x10, 0x8, false);
    BitsAbove(0x8, 0x4, false);
    BitsAbove(0x4, 0x2, false);
    BitsAbove(0x2, 0x1, false);
    BitsAbove(0x1, 0x0, true);
    if j > 14 {
      NoBits(j - 15);
    }
  }

  lemma RestoredPattern(j: nat)
    requires j < 16
    ensures BitAt(0x8030, j) <==> j == 4 || j == 5 || j == 15
  {
    hide BitAt;
    BitsAbove(0x8030, 0x4018, false);
    BitsAbove(0x4018, 0x200c, false);
    BitsAbove(0x200c, 0x1006, false);
    BitsAbove(0x1006, 0x803, false);
    BitsAbove(0x803, 0x401, true);
    BitsAbove(0x401, 0x200, true);
    BitsAbove(0x200, 0x100, false);
    BitsAbove(0x100, 0x80, false);
    BitsAbove(0x80, 0x40, false);
    BitsAbove(0x40, 0x20, false);
    BitsAbove(0x20, 0x10, false);
    BitsAbove(0x10, 0x8, false);
    BitsAbove(0x8, 0x4, false);
    BitsAbove(0x4, 0x2, false);
    BitsAbove(0x2, 0x1, false);
    BitsAbove(0x1, 0x0, true);
  }

  lemma SavedBits(j: nat)
    requires j < 16
    ensures BitAt(Wide16(LIST_SAVED), j) <==> j == 4 || j == 5 || j == 14
  {
    hide BitAt;
    WideLists();
    SavedPattern(j);
  }

  lemma RestoredBits(j: nat)
    requires j < 16
    ensures BitAt(Wide16(LIST_RESTORED), j) <==> j == 4 || j == 5 || j == 15
  {
    hide BitAt;
    WideLists();
    RestoredPattern(j);
  }

  /** The ranks in a list of two adjacent registers and one later one. */
  lemma {:induction false} RankOfThree(list: bv32, last: nat, j: nat)
    requires 6 <= last < 16 && j <= 16
    requires forall k: nat :: k < 16 ==> (BitAt(list, k) <==> k == 4 || k == 5 || k == last)
    ensures Rank(list, j) == (if j <= 4 then 0 else if j == 5 then 1 else if j <= last then 2 else 3)
    decreases j
  {
    hide BitAt;
    if j > 0 {
      RankOfThree(list, last, j - 1);
      assert BitAt(list, j - 1) <==> j - 1 == 4 || j - 1 == 5 || j - 1 == last;
    }
  }

  lemma SavedRanks()
    ensures var list := Wide16(LIST_SAVED);
      Rank(list, 4) == 0 && Rank(list, 5) == 1 && Rank(list, 14) == 2 && Rank(list, 16) == 3
  {
    hide BitAt, Rank, Wide16;
    forall k: nat | k < 16
      ensures BitAt(Wide16(LIST_SAVED), k) <==> k == 4 || k == 5 || k == 14
    {
      SavedBits(k);
    }
    RankOfThree(Wide16(LIST_SAVED), 14, 4);
    RankOfThree(Wide16(LIST_SAVED), 14, 5);
    RankOfThree(Wide16(LIST_SAVED), 14, 14);
    RankOfThree(Wide16(LIST_SAVED), 14, 16);
  }

  lemma RestoredRanks()
    ensures var list := Wide16(LIST_RESTORED);
      Rank(list, 4) == 0 && Rank(list, 5) == 1 && Rank(list, 15) == 2 && Rank(list, 16) == 3
  {
    hide BitAt, Rank, Wide16;
    forall k: nat | k < 16
      ensures BitAt(Wide16(LIST_RESTORED), k) <==> k == 4 || k == 5 || k == 15
    {
      RestoredBits(k);
    }
    RankOfThree(Wide16(LIST_RESTORED), 15, 4);
    RankOfThree(Wide16(LIST_RESTORED), 15, 5);
    RankOfThree(Wide16(LIST_RESTORED), 15, 15);
    RankOfThree(Wide16(LIST_RESTORED), 15, 16);
  }

  lemma StoredThree(mem: seq<Byte>, r: Regs, start: int)
    requires 0 <= start && start + 12 <= |mem| <= TWO31
    ensures var m := StoreList(mem, r, Wide16(LIST_SAVED), start, 16);
      && LoadWord(m, start) == r[4] && LoadWord(m, start + 4) == r[5] && LoadWord(m, start + 8) == r[14]
      && OnlyStackChanged(mem, m, start + 12)
  {
    hide BitAt, Rank, Wide16, LoadWord, StoreList;
    var list := Wide16(LIST_SAVED);
    SavedRanks();
    SavedBits(4);
    SavedBits(5);
    SavedBits(14);
    StoredSlot(mem, r, list, start, 4, 16);
    StoredSlot(mem, r, list, start, 5, 16);
    StoredSlot(mem, r, list, start, 14, 16);
    var m := StoreList(mem, r, list, start, 16);
    forall k | 0 <= k < |mem| && !(start <= k < start + 12)
      ensures m[k] == mem[k]
    {
      forall j: nat | j < 16 && BitAt(list, j)
        ensures k < Slot(list, start, j) || Slot(list, start, j) + 4 <= k
      {
        SavedBits(j);
      }
      StoreListFrame(mem, r, list, start, 16, k);
    }
  }

  /** `push { r4, r5, lr }`. */
  lemma PushEffect(s: State, env: Host, target: Word)
    requires 12 <= StackTop(s) <= |s.mem| <= TWO31
    ensures var t := Perform(PUSH, target, s, env);
      t.loc == Wrap(s.loc + 4) && Saved(s, t.mem) && SameBut(s.r, t.r, 13) && t.r[13] == StackTop(s) - 12
  {
    hide Condition, Wide16, StoreList, LoadWord, BitAt, Rank;
    PerformAlways(PUSH, target, s, env);
    SavedRanks();
    StoredThree(s.mem, Advance(s).r, StackTop(s) - 12);
  }

  lemma RestoredSlots(start: int)
    requires 0 <= start && start + 12 <= TWO31
    ensures var list := Wide16(LIST_RESTORED);
      Slot(list, start, 4) == start && Slot(list, start, 5) == start + 4 && Slot(list, start, 15) == start + 8
  {
    hide Rank, Wide16;
    RestoredRanks();
  }

  lemma LoadedThree(r: Regs, mem: seq<Byte>, start: int)
    requires 0 <= start && start + 12 <= TWO31
    ensures var u := LoadList(r, mem, Wide16(LIST_RESTORED), start);
      && u[4] == LoadWord(mem, start) && u[5] == LoadWord(mem, start + 4) && u[15] == LoadWord(mem, start + 8)
      && (forall j: nat :: j < 15 && j != 4 && j != 5 ==> u[j] == r[j])
  {
    hide BitAt, Rank, Wide16, LoadWord, Slot;
    RestoredSlots(start);
    forall k: nat | k < 16
      ensures BitAt(Wide16(LIST_RESTORED), k) <==> k == 4 || k == 5 || k == 15
    {
      RestoredBits(k);
    }
  }

  /** `pop { r4, r5, pc }`. */
  lemma PopEffect(s: State, env: Host, target: Word)
    requires StackTop(s) + 12 <= |s.mem| <= TWO31
    ensures var t := Perform(POP, target, s, env);
      && t.loc == LoadWord(s.mem, StackTop(s) + 8) && t.mem == s.mem
      && t.r[4] == LoadWord(s.mem, StackTop(s)) && t.r[5] == LoadWord(s.mem, StackTop(s) + 4)
      && t.r[13] == StackTop(s) + 12
      && (forall j: nat :: j < 15 && j != 4 && j != 5 && j != 13 ==> t.r[j] == s.r[j])
  {
    hide Condition, Wide16, LoadWord, BitAt, Rank, LoadList;
    PerformAlways(POP, target, s, env);
    RestoredRanks();
    RestoredBits(15);
    LoadedThree(Advance(s).r, s.mem, StackTop(s));
  }

  // ---------------------------------------------------------------------------
  // The loop
  // ---------------------------------------------------------------------------

  lemma RunSplit(s: State, env: Host, m: nat, n: nat)
    ensures Run(s, env, m + n) == Run(Run(s, env, m), env, n)
    decreases m
  {
    hide Step;
    if m > 0 {
      RunSplit(Step(s, env), env, m - 1, n);
    }
  }

  /** The words of the array are still there behind the saved registers. */
  lemma ArrayKept(mem: seq<Byte>, mem': seq<Byte>, sp: int, a: int)
    requires OnlyStackChanged(mem, mem', sp) && (a + 4 <= sp - 12 || sp <= a)
    ensures LoadWord(mem', a) == LoadWord(mem, a)
  {
  }

  /** The state between instructions of the loop body: location, saved words, registers. */
  ghost predicate Body(image: seq<Byte>, base: Word, s: State, t: State, offset: nat, i: Word, total: Word)
    requires Callable(image, base, s)
  {
    t.loc == base + offset && Saved(s, t.mem) && Inside(s, t.r, i, total)
  }

  lemma ResidentStep(image: seq<Byte>, base: Word, k: nat, t: State, env: Host)
    requires Resident(image, base, env) && k < 11 && Holds(image, t.mem) && t.loc == base + 4 * k
    ensures Step(t, env) == Perform(Code(k), DestAt(base, k), t, env) && base + 44 <= TWO31
  {
    hide Step, Perform, Code, DestAt, Holds;
    assert Performs(t, env, base, k);
  }

  lemma NextLoc(base: Word, d: nat)
    requires base + 44 <= TWO31 && d <= 40
    ensures base + d + 4 <= TWO31 && Wrap(base + d + 4) == base + d + 4
  {
  }

  lemma BodyLoaded(image: seq<Byte>, base: Word, s: State, t: State)
    requires Callable(image, base, s) && Saved(s, t.mem)
    ensures Holds(image, t.mem)
  {
    hide Holds, LoadWord;
    StaysLoaded(image, base, s, t.mem);
  }

  // Each instruction in isolation: what it does wherever the program is loaded.

  lemma CompareAlone(image: seq<Byte>, base: Word, t: State, env: Host)
    requires Resident(image, base, env) && Holds(image, t.mem) && t.loc == base + 12
    ensures var u := Step(t, env);
      && u.loc == base + 16 && u.mem == t.mem && SameBut(t.r, u.r, 15)
      && u.cpsr == DifferenceStatus(t.cpsr, Get(t.r, 4), Get(t.r, 1))
  {
    hide Holds, Code, Step, Perform, DestAt, DifferenceStatus, Condition, RegValue, LoadWord, OperandValue;
    hide DataMeaning, Wrap, SameBut;
    ResidentStep(image, base, 3, t, env);
    CodeIs();
    CompareEffect(4, 1, DestAt(base, 3), t, env);
    NextLoc(base, 12);
  }

  lemma CodeIs()
    ensures Code(0) == PUSH && Code(1) == CLEAR_I && Code(2) == CLEAR_TOTAL && Code(3) == COMPARE
    ensures Code(4) == EXIT && Code(5) == LOAD && Code(6) == ADD_ITEM && Code(7) == NEXT
    ensures Code(8) == LOOP && Code(9) == RESULT && Code(10) == POP
  {
  }

  lemma DestIs(base: Word)
    requires base + 44 <= TWO31
    ensures DestAt(base, 4) == base + 36 && DestAt(base, 8) == base + 12
  {
    NextLoc(base, 8);
    NextLoc(base, 32);
  }

  lemma ExitAlone(image: seq<Byte>, base: Word, t: State, env: Host)
    requires Resident(image, base, env) && Holds(image, t.mem) && t.loc == base + 16
    ensures var u := Step(t, env);
      && u.loc == base + (if Condition(t.cpsr, GE) then 36 else 20) && u.mem == t.mem && SameBut(t.r, u.r, 15)
  {
    hide Holds, Code, Step, Perform, DestAt, DifferenceStatus, Condition, RegValue, LoadWord, OperandValue;
    hide DataMeaning, Wrap, SameBut;
    ResidentStep(image, base, 4, t, env);
    CodeIs();
    JumpEffect(GE, "_sum_done", DestAt(base, 4), t, env);
    DestIs(base);
    NextLoc(base, 16);
  }

  lemma LoadAlone(image: seq<Byte>, base: Word, t: State, env: Host, a: Word)
    requires Resident(image, base, env) && Holds(image, t.mem) && t.loc == base + 20
    requires a == Wrap(Get(t.r, 0) + RegValue(Advance(t).r, ByConst(4, LSL, 2)))
    ensures var u := Step(t, env);
      u.loc == base + 24 && u.mem == t.mem && SameBut(t.r, u.r, 2) && Get(u.r, 2) == LoadWord(t.mem, a)
  {
    assert Code(5) == Transfer(AL, true, false, 2, 0, Index(ByConst(4, LSL, 2)), false, Pre(false));
    assert (2 as Reg) != PC && (0 as Reg) != PC && (2 as Reg) as int == 2;
    hide *;
    ResidentStep(image, base, 5, t, env);
    LoadEffect(2, 0, ByConst(4, LSL, 2), DestAt(base, 5), t, env, a);
    NextLoc(base, 20);
  }

  lemma DataAlone(image: seq<Byte>, base: Word, k: nat, t: State, env: Host, op: Op, rd: Reg, rn: Reg, op2: Operand2, y: Word)
    requires Resident(image, base, env) && Holds(image, t.mem) && k < 10 && t.loc == base + 4 * k
    requires Code(k) == Instr.Data(AL, op, false, rd, rn, op2) && !IsCompare(op) && rd != PC && rn != PC
    requires y == OperandValue(Advance(t).r, op2)
    ensures var u := Step(t, env);
      && u.loc == base + 4 * k + 4 && u.mem == t.mem && SameBut(t.r, u.r, rd as int)
      && Get(u.r, rd) == DataMeaning(op, false, t.cpsr, Get(t.r, rn), y).value
  {
    hide *;
    ResidentStep(image, base, k, t, env);
    DataEffect(op, rd, rn, op2, DestAt(base, k), t, env, Get(t.r, rn), y);
    NextLoc(base, 4 * k);
  }

  lemma LoopAlone(image: seq<Byte>, base: Word, t: State, env: Host)
    requires Resident(image, base, env) && Holds(image, t.mem) && t.loc == base + 32
    ensures var u := Step(t, env);
      u.loc == base + 12 && u.mem == t.mem && SameBut(t.r, u.r, 15)
  {
    hide Holds, Code, Step, Perform, DestAt, DifferenceStatus, Condition, RegValue, LoadWord, OperandValue;
    hide DataMeaning, Wrap, SameBut;
    ResidentStep(image, base, 8, t, env);
    CodeIs();
    JumpEffect(AL, "_sum_loop", DestAt(base, 8), t, env);
    ConditionAlways(t.cpsr);
    DestIs(base);
  }

  // The same steps, keeping the invariant of the loop body.

  lemma CompareStep(image: seq<Byte>, base: Word, s: State, t: State, env: Host, i: Word, total: Word)
    requires Resident(image, base, env) && Callable(image, base, s) && Body(image, base, s, t, 12, i, total)
    ensures var u := Step(t, env);
      Body(image, base, s, u, 16, i, total) && u.cpsr == DifferenceStatus(t.cpsr, i, Get(s.r, 1))
  {
    hide Callable, Saved, Step, DifferenceStatus, Holds;
    BodyLoaded(image, base, s, t);
    CompareAlone(image, base, t, env);
  }

  lemma ExitStep(image: seq<Byte>, base: Word, s: State, t: State, env: Host, i: Word, total: Word, cpsr: bv32)
    requires Resident(image, base, env) && Callable(image, base, s) && Body(image, base, s, t, 16, i, total)
    requires t.cpsr == DifferenceStatus(cpsr, i, Get(s.r, 1))
    ensures Body(image, base, s, Step(t, env), if Signed(i) >= Signed(Get(s.r, 1)) then 36 else 20, i, total)
  {
    hide Callable, Saved, Step, DifferenceStatus, Holds, Condition;
    BodyLoaded(image, base, s, t);
    ExitAlone(image, base, t, env);
    ComparisonConditions(cpsr, i, Get(s.r, 1));
  }

  lemma ElementAddress(r: Regs, a: Word, i: Word)
    requires r[4] == i && a + 4 * i < TWO32
    ensures Wrap(a + RegValue(r, ByConst(4, LSL, 2))) == a + 4 * i
  {
    assert Wide5(2) == 2;
    assert Nat(1) == 1 && Nat(2) == 2;
    assert Pow2(2) == 4;
  }

  lemma ElementKept(image: seq<Byte>, base: Word, s: State, mem: seq<Byte>, i: Word)
    requires Callable(image, base, s) && Saved(s, mem) && i < Elements(s)
    ensures Base(s) + 4 * i < TWO32 && LoadWord(mem, Base(s) + 4 * i) == LoadWord(s.mem, Base(s) + 4 * i)
  {
    hide Holds, LoadWord, Elements;
    ArrayKept(s.mem, mem, StackTop(s), Base(s) + 4 * i);
  }

  lemma LoadStep(image: seq<Byte>, base: Word, s: State, t: State, env: Host, i: Word, total: Word)
    requires Resident(image, base, env) && Callable(image, base, s) && Body(image, base, s, t, 20, i, total)
    requires i < Elements(s)
    ensures var u := Step(t, env);
      Body(image, base, s, u, 24, i, total) && u.r[2] == LoadWord(s.mem, Base(s) + 4 * i)
  {
    hide Callable, Saved, Step, Wrap, Holds, RegValue, LoadWord, Elements;
    BodyLoaded(image, base, s, t);
    ElementKept(image, base, s, t.mem, i);
    ElementAddress(Advance(t).r, Base(s), i);
    LoadAlone(image, base, t, env, Base(s) + 4 * i);
  }

  lemma PlainOperand(t: State)
    ensures OperandValue(Advance(t).r, Plain(2)) == t.r[2] && OperandValue(Advance(t).r, Plain(5)) == t.r[5]
  {
    hide Wrap;
  }

  lemma AddStep(image: seq<Byte>, base: Word, s: State, t: State, env: Host, i: Word, total: Word)
    requires Resident(image, base, env) && Callable(image, base, s) && Body(image, base, s, t, 24, i, total)
    ensures Body(image, base, s, Step(t, env), 28, i, Wrap(total + t.r[2]))
  {
    hide Callable, Saved, Step, Wrap, Holds, OperandValue, Advance;
    BodyLoaded(image, base, s, t);
    PlainOperand(t);
    DataAlone(image, base, 6, t, env, ADD, 5, 5, Plain(2), t.r[2]);
  }

  lemma OneOperand(r: Regs)
    ensures OperandValue(r, Imm(1, false)) == 1
  {
    hide ToInt, ImmValue;
    SmallConstant(1);
  }

  lemma ZeroOperand(r: Regs)
    ensures OperandValue(r, Imm(0, false)) == 0
  {
    hide ToInt, ImmValue;
    SmallConstant(0);
  }

  lemma NextStep(image: seq<Byte>, base: Word, s: State, t: State, env: Host, i: Word, total: Word)
    requires Resident(image, base, env) && Callable(image, base, s) && Body(image, base, s, t, 28, i, total)
    requires i < TWO31
    ensures Body(image, base, s, Step(t, env), 32, i + 1, total)
  {
    hide Callable, Saved, Step, Holds, OperandValue, Advance, Inside, Resident, Code, SameBut, DataMeaning;
    BodyLoaded(image, base, s, t);
    OneOperand(Advance(t).r);
    NextCode();
    DataAlone(image, base, 7, t, env, ADD, 4, 4, Imm(1, false), 1);
    Counted(image, base, s, t, Step(t, env), i, total);
  }

  lemma NextCode()
    ensures Code(7) == Instr.Data(AL, ADD, false, 4, 4, Imm(1, false))
  {
  }

  lemma Counted(image: seq<Byte>, base: Word, s: State, t: State, u: State, i: Word, total: Word)
    requires Callable(image, base, s) && Body(image, base, s, t, 28, i, total) && i < TWO31
    requires u.loc == base + 28 + 4 && u.mem == t.mem && SameBut(t.r, u.r, 4)
    requires Get(u.r, 4) == DataMeaning(ADD, false, t.cpsr, Get(t.r, 4), 1).value
    ensures Body(image, base, s, u, 32, i + 1, total)
  {
    hide Callable, Saved;
  }

  lemma LoopStep(image: seq<Byte>, base: Word, s: State, t: State, env: Host, i: Word, total: Word)
    requires Resident(image, base, env) && Callable(image, base, s) && Body(image, base, s, t, 32, i, total)
    ensures Body(image, base, s, Step(t, env), 12, i, total)
  {
    hide Callable, Saved, Step, Holds;
    BodyLoaded(image, base, s, t);
    LoopAlone(image, base, t, env);
  }

  lemma Run6(s: State, env: Host)
    ensures Run(s, env, 6) == Step(Step(Step(Step(Step(Step(s, env), env), env), env), env), env)
  {
    hide Step;
    var s2 := Step(Step(s, env), env);
    RunSplit(s, env, 2, 4);
    RunSplit(s2, env, 2, 2);
    assert Run(s, env, 2) == s2;
    assert Run(s2, env, 2) == Step(Step(s2, env), env);
  }

  /** One iteration adds one element in six steps. */
  lemma Iteration(image: seq<Byte>, base: Word, s: State, t: State, env: Host, i: nat)
    requires Resident(image, base, env) && Callable(image, base, s) && AtLoop(image, base, s, t, i) && i < Elements(s)
    ensures AtLoop(image, base, s, Run(t, env, 6), i + 1)
  {
    hide Callable, Saved, Step, Wrap, Inside, LoadWord;
    var total := SumWords(s.mem, Base(s), i);
    CompareStep(image, base, s, t, env, i, total);
    var t1 := Step(t, env);
    ExitStep(image, base, s, t1, env, i, total, t.cpsr);
    var t2 := Step(t1, env);
    LoadStep(image, base, s, t2, env, i, total);
    var t3 := Step(t2, env);
    AddStep(image, base, s, t3, env, i, total);
    var t4 := Step(t3, env);
    NextStep(image, base, s, t4, env, i, SumWords(s.mem, Base(s), i + 1));
    var t5 := Step(t4, env);
    LoopStep(image, base, s, t5, env, i + 1, SumWords(s.mem, Base(s), i + 1));
    Run6(t, env);
  }

  lemma {:induction false} Iterations(image: seq<Byte>, base: Word, s: State, t: State, env: Host, i: nat, n: nat)
    requires Resident(image, base, env) && Callable(image, base, s) && AtLoop(image, base, s, t, i) && i + n <= Elements(s)
    ensures AtLoop(image, base, s, Run(t, env, 6 * n), i + n)
    decreases n
  {
    hide Callable, AtLoop, Step, Run;
    if n == 0 {
      RunNone(t, env);
    } else {
      Iteration(image, base, s, t, env, i);
      Iterations(image, base, s, Run(t, env, 6), env, i + 1, n - 1);
      RunSplit(t, env, 6, 6 * (n - 1));
    }
  }

  lemma RunNone(t: State, env: Host)
    ensures Run(t, env, 0) == t
  {
  }

  // ---------------------------------------------------------------------------
  // Entry and exit
  // ---------------------------------------------------------------------------

  lemma CalledFacts(image: seq<Byte>, base: Word, s: State)
    requires Callable(image, base, s)
    ensures s.loc == base + 4 * 0 && Holds(image, s.mem) && 12 <= StackTop(s) <= |s.mem| <= TWO31 && Code(0) == PUSH
  {
  }

  lemma PushAlone(image: seq<Byte>, base: Word, s: State, env: Host)
    requires Resident(image, base, env) && Callable(image, base, s)
    ensures var t := Step(s, env);
      t.loc == base + 4 && Saved(s, t.mem) && SameBut(s.r, t.r, 13) && t.r[13] == StackTop(s) - 12
  {
    hide *;
    CalledFacts(image, base, s);
    ResidentStep(image, base, 0, s, env);
    PushEffect(s, env, DestAt(base, 0));
    NextLoc(base, 0);
  }

  lemma ClearStep(image: seq<Byte>, base: Word, s: State, t: State, env: Host, k: nat, rd: Reg)
    requires Resident(image, base, env) && Callable(image, base, s) && Saved(s, t.mem)
    requires (k == 1 && rd == 4) || (k == 2 && rd == 5)
    requires t.loc == base + 4 * k
    ensures var u := Step(t, env);
      u.loc == base + 4 * k + 4 && u.mem == t.mem && SameBut(t.r, u.r, rd as int) && Get(u.r, rd) == 0
  {
    assert Code(k) == Instr.Data(AL, MOV, false, rd, 0, Imm(0, false));
    hide Callable, Saved, Step, Holds, OperandValue, Advance, Code, SameBut;
    BodyLoaded(image, base, s, t);
    ZeroOperand(Advance(t).r);
    DataAlone(image, base, k, t, env, MOV, rd, 0, Imm(0, false), 0);
  }

  /** Three steps lead into the loop with nothing added. */
  lemma Prologue(image: seq<Byte>, base: Word, s: State, env: Host)
    requires Resident(image, base, env) && Callable(image, base, s)
    ensures AtLoop(image, base, s, Run(s, env, 3), 0)
  {
    hide Callable, Saved, Step;
    PushAlone(image, base, s, env);
    var t1 := Step(s, env);
    ClearStep(image, base, s, t1, env, 1, 4);
    var t2 := Step(t1, env);
    ClearStep(image, base, s, t2, env, 2, 5);
    Run3(s, env);
  }

  lemma Run3(s: State, env: Host)
    ensures Run(s, env, 3) == Step(Step(Step(s, env), env), env)
    ensures Run(s, env, 4) == Step(Step(Step(Step(s, env), env), env), env)
  {
    hide Step;
    RunSplit(s, env, 2, 2);
    RunSplit(s, env, 2, 1);
    assert Run(s, env, 2) == Step(Step(s, env), env);
  }

  lemma ResultStep(image: seq<Byte>, base: Word, s: State, t: State, env: Host, i: Word, total: Word)
    requires Resident(image, base, env) && Callable(image, base, s) && Body(image, base, s, t, 36, i, total)
    ensures var u := Step(t, env);
      && u.loc == base + 40 && u.mem == t.mem && SameBut(t.r, u.r, 0) && u.r[0] == total
  {
    hide Callable, Saved, Step, Wrap, Holds, OperandValue, Advance;
    BodyLoaded(image, base, s, t);
    PlainOperand(t);
    DataAlone(image, base, 9, t, env, MOV, 0, 0, Plain(5), total);
  }

  lemma PopAlone(image: seq<Byte>, base: Word, t: State, env: Host)
    requires Resident(image, base, env) && Holds(image, t.mem) && t.loc == base + 40
    requires StackTop(t) + 12 <= |t.mem| <= TWO31
    ensures var u := Step(t, env);
      && u.loc == LoadWord(t.mem, StackTop(t) + 8) && u.mem == t.mem
      && u.r[4] == LoadWord(t.mem, StackTop(t)) && u.r[5] == LoadWord(t.mem, StackTop(t) + 4)
      && u.r[13] == StackTop(t) + 12
      && (forall j: nat :: j < 15 && j != 4 && j != 5 && j != 13 ==> u.r[j] == t.r[j])
  {
    assert Code(10) == POP;
    hide *;
    ResidentStep(image, base, 10, t, env);
    PopEffect(t, env, DestAt(base, 10));
  }

  /** The state in which the caller finds itself again. */
  ghost predicate Returned(s: State, t: State)
    requires 12 <= StackTop(s) <= |s.mem|
  {
    && t.r[0] == SumWords(s.mem, Base(s), Elements(s))
    && t.loc == s.r[14]
    && (forall j: nat :: 3 <= j < 15 ==> t.r[j] == s.r[j]) && t.r[1] == s.r[1]
    && OnlyStackChanged(s.mem, t.mem, StackTop(s))
  }

  lemma PopStep(image: seq<Byte>, base: Word, s: State, t: State, env: Host, i: Word, total: Word)
    requires Resident(image, base, env) && Callable(image, base, s) && Saved(s, t.mem) && t.loc == base + 40
    requires t.r[0] == total == SumWords(s.mem, Base(s), Elements(s)) && t.r[13] == StackTop(s) - 12
    requires forall j: nat :: j < 15 && j != 0 && j != 2 && j != 4 && j != 5 && j != 13 ==> t.r[j] == s.r[j]
    ensures Returned(s, Step(t, env))
  {
    BodyLoaded(image, base, s, t);
    hide Step, Holds, LoadWord, SumWords, Elements;
    PopAlone(image, base, t, env);
  }

  /** When every element has been added, four steps return to the caller. */
  lemma Epilogue(image: seq<Byte>, base: Word, s: State, t: State, env: Host)
    requires Resident(image, base, env) && Callable(image, base, s) && AtLoop(image, base, s, t, Elements(s))
    ensures Returned(s, Run(t, env, 4))
  {
    var n := Elements(s);
    assert Signed(n) >= Signed(Get(s.r, 1));
    hide Callable, Saved, Step, Elements, SumWords, Returned;
    var total := SumWords(s.mem, Base(s), n);
    CompareStep(image, base, s, t, env, n, total);
    var t1 := Step(t, env);
    ExitStep(image, base, s, t1, env, n, total, t.cpsr);
    var t2 := Step(t1, env);
    ResultStep(image, base, s, t2, env, n, total);
    var t3 := Step(t2, env);
    PopStep(image, base, s, t3, env, n, total);
    Run3(t, env);
  }

  /** From the first instruction, wherever the function is resident, 7 + 6n steps return the sum. */
  lemma ResidentRuns(image: seq<Byte>, base: Word, s: State, env: Host)
    requires Resident(image, base, env) && Callable(image, base, s)
    ensures Returned(s, Run(s, env, 7 + 6 * Elements(s)))
  {
    var n := Elements(s);
    hide Callable, Step, Run, Elements, AtLoop, Returned;
    Prologue(image, base, s, env);
    var t := Run(s, env, 3);
    LoopStarts(image, base, s, t);
    Iterations(image, base, s, t, env, 0, n);
    Epilogue(image, base, s, Run(t, env, 6 * n), env);
    RunSplit(t, env, 6 * n, 4);
    RunSplit(s, env, 3, 6 * n + 4);
  }

  lemma LoopStarts(image: seq<Byte>, base: Word, s: State, t: State)
    requires Callable(image, base, s) && AtLoop(image, base, s, t, 0)
    ensures 12 <= StackTop(s) <= |s.mem|
  {
  }

  /**
   `_sum_array`, in any program and at any position: 7 + 6n steps of the interpreter leave the sum of
   the n elements modulo 2^32 in r0, return to lr with r1 and r3 to r14 as they were, and change no
   memory but the twelve bytes below the stack pointer.
   */
  lemma SumArrayRuns(p: Source, b: nat, s: State, env: Host)
    requires Builds(p) && Contains(p, b) && Callable(Image(p), At(p, b), s)
    ensures 12 <= StackTop(s) <= |s.mem|
    ensures Returned(s, Run(s, env, 7 + 6 * Elements(s)))
  {
    assert 12 <= StackTop(s) <= |s.mem|;
    hide Builds, At, Image, Callable, Returned, Resident, Run, Elements;
    FunctionResident(p, b, env);
    ResidentRuns(Image(p), At(p, b), s, env);
  }
}
