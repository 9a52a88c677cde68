/**
 Where the program departs from the ARM architecture or from its own intent, and exactly when each
 departure shows.
 */
module Departures {
  import opened Options
  import opened Words
  import opened Machine
  import opened Asm
  import opened Encoder
  import opened Assembler
  import opened Contents
  import opened Effects

  // ---------------------------------------------------------------------------
  // Arithmetic
  // ---------------------------------------------------------------------------

  predicate SumOverflows(x: Word, y: Word) {
    !(-TWO31 <= Signed(x) + Signed(y) < TWO31)
  }

  /** The V flag of an addition is right: same signs and no overflow, or the sum has the sign of x. */
  predicate SumFlagRight(x: Word, y: Word) {
    if (Signed(x) < 0) == (Signed(y) < 0) then !SumOverflows(x, y)
    else (Signed(x) + Signed(y) < 0) == (Signed(x) < 0)
  }

  /** ADDS and CMN use the overflow test of a subtraction. */
  lemma SumOverflowFlag(cpsr: bv32, x: Word, y: Word)
    ensures FlagV(SumStatus(cpsr, x, y)) == SumOverflows(x, y) <==> SumFlagRight(x, y)
    ensures SumOverflows(x, y) ==> !FlagV(SumStatus(cpsr, x, y))
  {
    hide SetFlags, FlagC, FlagN, FlagZ, FlagV;
    var d := Wrap(x + y);
    FlagsSet(cpsr, Signed(d) < 0, d == 0, x + y >= TWO32,
             (Signed(x) < 0) != (Signed(y) < 0) && (Signed(d) < 0) != (Signed(x) < 0));
  }

  /** SBC and RSC never compute difference minus borrow: SBC is always one too much. */
  lemma BorrowLost(setFlags: bool, cpsr: bv32, x: Word, y: Word)
    ensures var right := Wrap(x - y + Carry(cpsr) - 1);
      DataMeaning(SBC, setFlags, cpsr, x, y).value == Wrap(right + 1) != right
    ensures DataMeaning(RSC, setFlags, cpsr, x, y).value != Wrap(y - x + Carry(cpsr) - 1)
  {
    hide Carry;
    WrapAdd(x - y + Carry(cpsr) - 1, 1);
    NeverOdd(x - y + Carry(cpsr), y - x + Carry(cpsr) - 1, x - y);
  }

  lemma NeverOdd(p: int, q: int, h: int)
    requires p - q == 2 * h + 1
    ensures Wrap(p) != Wrap(q) && Wrap(p) != Wrap(p - 1)
  {
  }

  lemma {:induction false} PowProduct(j: nat, k: nat)
    ensures Pow2(j) * Pow2(k) == Pow2(j + k)
    decreases j
  {
    if j > 0 {
      PowProduct(j - 1, k);
    }
  }

  lemma RotatedBound(x: nat, p: nat, q: nat, total: nat)
    requires p > 0 && p * q == total && x < total
    ensures x / p < q && x / p + x % p * q < total
  {
    var h, l := x / p, x % p;
    assert x == p * h + l;
    if h >= q {
      MulMono(p, q, h);
    }
    MulMono(q, l, p - 1);
    Distribute(q, p);
    assert l * q == q * l;
  }

  lemma Distribute(q: int, p: int)
    ensures q * (p - 1) == p * q - q
  {
  }

  lemma PowRest(k: nat)
    requires 0 < k < 32
    ensures Pow2(k) * Pow2(32 - k) == 0x1_0000_0000
  {
    hide *;
    PowProduct(k, 32 - k);
    Masks32();
  }

  /** x rotated right by k. */
  function Rotated(x: Word, k: nat): Word
    requires 0 < k < 32
  {
    PowRest(k);
    RotatedBound(x, Pow2(k), Pow2(32 - k), 0x1_0000_0000);
    x / Pow2(k) + x % Pow2(k) * Pow2(32 - k)
  }

  /** ROR shifts instead of rotating, which is right when the bits shifted out are zero. */
  lemma RotateDeparts(x: Word, k: nat)
    requires 0 < k < 32
    ensures Shifted(3, x, k) == Rotated(x, k) <==> x % Pow2(k) == 0
  {
    assert Pow2(32 - k) > 0;
    var l, q := x % Pow2(k), Pow2(32 - k);
    hide Pow2;
    if l > 0 {
      MulMono(q, 1, l);
      assert l * q == q * l;
    }
  }

  /**
   The pc is set afresh before every instruction, so a value that data processing or a load leaves in
   r15 is never seen.
   */
  lemma PcRefreshed(s: State, v: Word, host: Host)
    ensures Step(s.(r := Put(s.r, PC, v)), host) == Step(s, host)
  {
    hide Dispatch, Condition, CondOf, LoadWord, ToBits, Wrap;
    assert Put(Put(s.r, PC, v), PC, Wrap(s.loc + 8)) == Put(s.r, PC, Wrap(s.loc + 8));
  }

  /** 0x7fffffff + 1 overflows without the flag, and -1 + 1 sets it without overflowing. */
  lemma SumFlagExample(cpsr: bv32)
    ensures SumOverflows(0x7fff_ffff, 1) && !FlagV(SumStatus(cpsr, 0x7fff_ffff, 1))
    ensures !SumOverflows(0xffff_ffff, 1) && FlagV(SumStatus(cpsr, 0xffff_ffff, 1))
  {
    hide SumStatus, FlagV;
    SumOverflowFlag(cpsr, 0x7fff_ffff, 1);
    SumOverflowFlag(cpsr, 0xffff_ffff, 1);
  }

  /** 1 rotated right by 1 is 2^31; ROR leaves 0. */
  lemma RotateExample()
    ensures Shifted(3, 1, 1) == 0 && Rotated(1, 1) == TWO31
  {
    PowRest(1);
    assert Pow2(1) == 2;
  }

  /** 5 - 3 with no borrow is computed as 3. */
  lemma BorrowExample(cpsr: bv32)
    requires FlagC(cpsr)
    ensures DataMeaning(SBC, false, cpsr, 5, 3).value == 3
  {
    hide FlagC;
  }

  // ---------------------------------------------------------------------------
  // Halfwords and labels
  // ---------------------------------------------------------------------------

  /** A word whose value is already that of its low byte or halfword. */
  predicate Narrow(kind: HalfKind, w: Word) {
    match kind
    case H => w < 0x1_0000
    case SB => w < 0x80 || w >= TWO32 - 0x80
    case SH => w < 0x8000 || w >= TWO32 - 0x8000
  }

  /** A halfword or signed load from a label is assembled as a word load; it is right on narrow words. */
  lemma LiteralKindLost(cond: bv4, kind: HalfKind, rd: Reg, mem: seq<Byte>, a: int)
    requires InMem(mem, a)
    ensures AssembleLiteral(cond, true, false, KindCode(kind), rd) == AssembleLiteral(cond, true, false, 0, rd)
    ensures LoadWord(mem, a) == HalfLoaded(kind, mem, a) <==> Narrow(kind, LoadWord(mem, a))
  {
    hide TransferHead, KindCode;
    NarrowLoads(kind, mem, a);
    hide LoadWord, HalfLoaded, Narrow;
  }

  /**
   A halfword store to a label is assembled as a word store: it is right exactly when the upper half of
   the register already stands in memory.
   */
  lemma LiteralStoreKindLost(cond: bv4, rd: Reg, mem: seq<Byte>, a: int, v: Word)
    requires InMem(mem, a)
    ensures AssembleLiteral(cond, false, false, KindCode(H), rd) == AssembleLiteral(cond, false, false, 0, rd)
    ensures StoreWord(mem, a, v) == StoreHalf(mem, a, v) <==> LoadWord(mem, a) / 0x1_0000 == v / 0x1_0000
  {
    hide TransferHead, KindCode;
    UpperHalves(mem, a, v);
  }

  lemma UpperHalves(mem: seq<Byte>, a: int, v: Word)
    requires InMem(mem, a)
    ensures StoreWord(mem, a, v) == StoreHalf(mem, a, v) <==> LoadWord(mem, a) / 0x1_0000 == v / 0x1_0000
  {
    var w, h := StoreWord(mem, a, v), StoreHalf(mem, a, v);
    BytesOfWord(mem[a], mem[a + 1], mem[a + 2], mem[a + 3]);
    UpperParts(v);
    UpperParts(LoadWord(mem, a));
    assert w == h[a + 2 := v / 0x1_0000 % 0x100][a + 3 := v / 0x100_0000];
    assert h[a + 2] == mem[a + 2] && h[a + 3] == mem[a + 3];
    assert w[a + 2] == v / 0x1_0000 % 0x100 && w[a + 3] == v / 0x100_0000;
    if w[a + 2] == h[a + 2] && w[a + 3] == h[a + 3] {
      assert w == h;
    }
  }

  lemma UpperParts(v: Word)
    ensures v / 0x1_0000 == v / 0x1_0000 % 0x100 + 0x100 * (v / 0x100_0000)
  {
    assert v / 0x100_0000 == v / 0x1_0000 / 0x100;
  }

  lemma NarrowLoads(kind: HalfKind, mem: seq<Byte>, a: int)
    requires InMem(mem, a)
    ensures LoadWord(mem, a) == HalfLoaded(kind, mem, a) <==> Narrow(kind, LoadWord(mem, a))
  {
    hide Wrap;
    var v := if kind == SB then LoadByte(mem, a) else LoadHalf(mem, a);
    WrapSmall(v);
  }

  lemma WrapSmall(v: Word)
    requires v < 0x1_0000
    ensures Wrap(v) == v
    ensures Wrap(v - 0x100) == if v < 0x100 then v - 0x100 + TWO32 else v - 0x100
    ensures Wrap(v - 0x1_0000) == v - 0x1_0000 + TWO32
  {
  }

  // ---------------------------------------------------------------------------
  // Branches to host functions
  // ---------------------------------------------------------------------------

  /** The state after a call of host function k from s. */
  function Called(k: Word, s: State, env: Host): State {
    var a := Advance(s);
    a.(r := a.r[0 := env(a.r, a.mem, k)])
  }

  /**
   A branch to a host function is a call of that function, whatever its condition; its number reaches
   the host unchanged, as long as it fits the sixteen bits the word has for it.
   */
  lemma BranchCalls(cond: bv4, link: bool, sym: string, host: seq<string>, k: nat, target: Word, s: State, env: Host)
    requires NamesSlot(host, sym, k) && k < TWO32
    ensures Perform(Effective(Jump(cond, link, sym), host), target, s, env) == Called(k % 0x1_0000, s, env)
  {
    hide HostIndex, ProcIndex, ToInt, Condition, Advance;
    FirstSlot(host, sym[1..], k);
    ProcIndexExact(k);
    ConditionAlways(Advance(s).cpsr);
  }

  /** Whether the branch does what a conditional call would. */
  predicate CallsRightly(cond: bv4, link: bool, sym: string, host: seq<string>, k: Word, target: Word, s: State, env: Host) {
    Perform(Effective(Jump(cond, link, sym), host), target, s, env) ==
    if Condition(s.cpsr, cond) then Called(k % 0x1_0000, s, env) else Advance(s)
  }

  /** The condition is lost: the branch is right for every host exactly when its condition holds. */
  lemma ConditionLost(cond: bv4, link: bool, sym: string, host: seq<string>, k: Word, target: Word, s: State)
    requires NamesSlot(host, sym, k)
    ensures (forall env: Host :: CallsRightly(cond, link, sym, host, k, target, s, env)) <==> Condition(s.cpsr, cond)
  {
    hide Effective, Condition, Perform, Advance, NamesSlot;
    forall env: Host
      ensures Perform(Effective(Jump(cond, link, sym), host), target, s, env) == Called(k % 0x1_0000, s, env)
    {
      BranchCalls(cond, link, sym, host, k, target, s, env);
    }
    if !Condition(s.cpsr, cond) {
      var w: Word := if Advance(s).r[0] == 0 then 1 else 0;
      var env: Host := (r: Regs, mem: seq<Byte>, i: Word) => w;
      assert Called(k % 0x1_0000, s, env).r[0] == w;
      assert !CallsRightly(cond, link, sym, host, k, target, s, env);
    }
  }

  /** A branch stays a branch exactly when its name without the first character is no host entry. */
  lemma OneCharacterLabel(cond: bv4, link: bool, c: char, host: seq<string>)
    ensures Effective(Jump(cond, link, [c]), host).Jump? <==> "" !in host
  {
    assert [c][1..] == "";
  }
}
