/** A block store with writeback is undone by the block load in the reverse mode; push and pop are one pair. */
module Stack {
  import opened Words
  import opened Machine
  import opened Asm
  import opened BlockProof
  import opened Effects

  function Reverse(mode: BlockMode): BlockMode {
    match mode
    case DA => IB
    case IA => DB
    case DB => IA
    case IB => DA
  }

  /** Every listed register has its slot inside memory. */
  ghost predicate SlotsInMem(mem: seq<Byte>, list: bv32, start: int) {
    forall j: nat :: j < 16 && BitAt(list, j) ==> InMem(mem, Slot(list, start, j))
  }

  /** The listed slots hold the same words in both memories. */
  ghost predicate SlotsKept(mem: seq<Byte>, mem': seq<Byte>, list: bv32, start: int) {
    forall j: nat :: j < 16 && BitAt(list, j) ==> LoadWord(mem', Slot(list, start, j)) == LoadWord(mem, Slot(list, start, j))
  }

  /** The slots of a stored block hold the listed registers. */
  lemma {:induction false} StoredSlot(mem: seq<Byte>, r: Regs, list: bv32, start: int, j: nat, n: nat)
    requires j < n <= 16 && BitAt(list, j) && InMem(mem, Slot(list, start, j))
    ensures LoadWord(StoreList(mem, r, list, start, n), Slot(list, start, j)) == r[j]
    decreases n
  {
    hide BitAt, Slot, LoadWord, StoreWord;
    var m := StoreList(mem, r, list, start, n - 1);
    if j == n - 1 {
      LoadStored(m, Slot(list, start, j), r[j]);
    } else {
      StoredSlot(mem, r, list, start, j, n - 1);
      if BitAt(list, n - 1) {
        SlotsApart(list, start, j, n - 1);
        LoadElsewhere(m, Slot(list, start, n - 1), r[n - 1], Slot(list, start, j));
      }
    }
  }

  /** A byte in no slot keeps its value. */
  lemma {:induction false} StoreListFrame(mem: seq<Byte>, r: Regs, list: bv32, start: int, n: nat, k: nat)
    requires n <= 16 && k < |mem|
    requires forall j: nat :: j < n && BitAt(list, j) ==> k < Slot(list, start, j) || Slot(list, start, j) + 4 <= k
    ensures StoreList(mem, r, list, start, n)[k] == mem[k]
    decreases n
  {
    hide BitAt, Slot;
    if n > 0 {
      StoreListFrame(mem, r, list, start, n - 1, k);
    }
  }

  lemma WrapCongruent(x: int, y: int, k: int)
    requires Wrap(x) == Wrap(y)
    ensures Wrap(x + k) == Wrap(y + k)
  {
  }

  /** The reverse mode, started where the store ended, uses the same slots and ends where it began. */
  lemma ReverseSlots(mode: BlockMode, base: Word, list: bv32, j: nat)
    ensures var n := Rank(list, 16);
      var end := BlockEnd(mode, base, n);
      && Slot(list, BlockStart(Reverse(mode), end, n), j) == Slot(list, BlockStart(mode, base, n), j)
      && BlockEnd(Reverse(mode), end, n) == base
  {
    hide Rank, Wrap, BlockStart, BlockEnd;
    var n := Rank(list, 16);
    var end := BlockEnd(mode, base, n);
    ReverseStart(mode, base, n, end);
    WrapCongruent(BlockStart(Reverse(mode), end, n), BlockStart(mode, base, n), 4 * Rank(list, j));
  }

  lemma ReverseStart(mode: BlockMode, base: Word, n: nat, end: Word)
    requires end == BlockEnd(mode, base, n)
    ensures Wrap(BlockStart(Reverse(mode), end, n)) == Wrap(BlockStart(mode, base, n))
    ensures BlockEnd(Reverse(mode), end, n) == base
  {
    hide Wrap;
    WrapWord(base);
    var down, up := base - 4 * n, base + 4 * n;
    match mode
    case DA =>
      WrapAdd(down, 4);
      WrapAdd(down, 4 * n);
    case IA =>
      WrapAdd(up, -4 * n);
    case DB =>
      WrapAdd(down, 0);
      WrapAdd(down, 4 * n);
    case IB =>
      WrapAdd(up, -4 * n + 4);
      WrapAdd(up, -4 * n);
  }

  /**
   Store, do anything that keeps the block and the base register, load in the reverse mode: the listed
   registers and the base are back, the others are untouched, and a listed pc is the next location.
   */
  lemma StoreThenLoad(mode: BlockMode, rn: Reg, list: bv32, s: State, t: State)
    requires SlotsInMem(s.mem, list, BlockStart(mode, Get(s.r, rn), Rank(list, 16)))
    requires var stored := ExecBlock(false, mode, true, rn, list, s);
      Get(t.r, rn) == Get(stored.r, rn) && SlotsKept(stored.mem, t.mem, list, BlockStart(mode, Get(s.r, rn), Rank(list, 16)))
    ensures var u := ExecBlock(true, Reverse(mode), true, rn, list, t);
      && Get(u.r, rn) == Get(s.r, rn)
      && (forall j: nat :: j < 16 && j != rn as int ==> u.r[j] == if BitAt(list, j) then s.r[j] else t.r[j])
      && u.loc == (if BitAt(list, 15) then s.r[15] else t.loc)
      && u.mem == t.mem
  {
    hide BitAt, Rank, Slot, LoadWord, StoreList, BlockStart, BlockEnd, Reverse;
    var base := Get(s.r, rn);
    var n := Rank(list, 16);
    var start := BlockStart(mode, base, n);
    ReverseSlots(mode, base, list, 0);
    forall j: nat | j < 16 && BitAt(list, j)
      ensures LoadWord(t.mem, Slot(list, BlockStart(Reverse(mode), BlockEnd(mode, base, n), n), j)) == s.r[j]
    {
      ReverseSlots(mode, base, list, j);
      StoredSlot(s.mem, s.r, list, start, j, 16);
    }
  }

  // ---------------------------------------------------------------------------
  // Call and return
  // ---------------------------------------------------------------------------

  lemma NextWord(loc: Word)
    ensures (Wrap(loc + 4) - loc - 4) % TWO32 == 0
  {
  }

  /** `bl f` goes to f, and `bx lr` there comes back to the instruction after the call. */
  lemma CallThenReturn(sym: string, target: Word, s: State, env: Host)
    ensures var t := Perform(Jump(AL, true, sym), target, s, env);
      var u := Perform(Bx(AL, LR), 0, t, env);
      && t.loc == target && t.mem == s.mem && t.cpsr == s.cpsr
      && (u.loc - s.loc - 4) % TWO32 == 0 && u.mem == s.mem && u.cpsr == s.cpsr
      && forall j: nat :: j < 14 ==> u.r[j] == s.r[j]
  {
    hide Condition, Wrap;
    PerformAlways(Jump(AL, true, sym), target, s, env);
    PerformAlways(Bx(AL, LR), 0, Perform(Jump(AL, true, sym), target, s, env), env);
    NextWord(s.loc);
  }

  // ---------------------------------------------------------------------------
  // Push and pop
  // ---------------------------------------------------------------------------

  lemma {:induction false} RankSame(a: bv32, b: bv32, n: nat)
    requires forall j: nat :: j < n ==> (BitAt(a, j) <==> BitAt(b, j))
    ensures Rank(a, n) == Rank(b, n)
    decreases n
  {
    hide BitAt;
    if n > 0 {
      RankSame(a, b, n - 1);
    }
  }

  /** The list of a pop that returns: the same general registers, and pc where the push has lr. */
  ghost predicate Returns(saved: bv32, restored: bv32) {
    && (forall j: nat :: j < 13 ==> (BitAt(saved, j) <==> BitAt(restored, j)))
    && !BitAt(saved, 13) && BitAt(saved, 14) && !BitAt(saved, 15)
    && !BitAt(restored, 13) && !BitAt(restored, 14) && BitAt(restored, 15)
  }

  lemma ReturnRanks(saved: bv32, restored: bv32)
    requires Returns(saved, restored)
    ensures Rank(restored, 16) == Rank(saved, 16) && Rank(restored, 15) == Rank(saved, 14)
    ensures forall j: nat :: j < 13 ==> Rank(restored, j) == Rank(saved, j)
  {
    hide BitAt;
    forall j: nat | j <= 13
      ensures Rank(restored, j) == Rank(saved, j)
    {
      RankSame(restored, saved, j);
    }
    assert Rank(saved, 14) == Rank(saved, 13) && Rank(saved, 16) == Rank(saved, 14) + 1;
    assert Rank(restored, 15) == Rank(restored, 13);
  }

  /**
   `push {..., lr}`, anything that keeps sp and the pushed words, `pop {..., pc}`: the listed general
   registers and sp are back, and the run goes on where lr pointed.
   */
  lemma PushThenPop(saved: bv32, restored: bv32, s: State, t: State)
    requires Returns(saved, restored)
    requires SlotsInMem(s.mem, saved, BlockStart(DB, Get(s.r, SP), Rank(saved, 16)))
    requires var pushed := ExecBlock(false, DB, true, SP, saved, s);
      && Get(t.r, SP) == Get(pushed.r, SP)
      && SlotsKept(pushed.mem, t.mem, saved, BlockStart(DB, Get(s.r, SP), Rank(saved, 16)))
    ensures var u := ExecBlock(true, IA, true, SP, restored, t);
      && Get(u.r, SP) == Get(s.r, SP) && u.loc == s.r[14] && u.mem == t.mem
      && forall j: nat :: j < 13 ==> u.r[j] == if BitAt(saved, j) then s.r[j] else t.r[j]
  {
    hide BitAt, Rank, LoadWord, StoreList, BlockStart, BlockEnd;
    var base := Get(s.r, SP);
    var n := Rank(saved, 16);
    var start := BlockStart(DB, base, n);
    ReturnRanks(saved, restored);
    ReverseStart(DB, base, n, BlockEnd(DB, base, n));
    forall j: nat, k: nat | BitAt(saved, j) && j < 15 && k < 16 && Rank(restored, k) == Rank(saved, j)
      ensures LoadWord(t.mem, Slot(restored, BlockStart(IA, BlockEnd(DB, base, n), n), k)) == s.r[j]
    {
      WrapCongruent(BlockStart(IA, BlockEnd(DB, base, n), n), start, 4 * Rank(saved, j));
      StoredSlot(s.mem, s.r, saved, start, j, 16);
    }
  }
}
