/**
 The block-transfer loop in closed form.

 The interpreter visits sixteen registers upwards or downwards and moves a cursor as it goes. In every
 addressing mode the result is the same as placing the listed registers, in ascending order, in one
 contiguous ascending block of words.
 */
module BlockProof {
  import opened Words
  import opened Machine
  import opened Asm

  /** The bits of the word that hold the list, and the direction bits, describe this transfer. */
  ghost predicate Describes(i: bv32, mode: BlockMode, list: bv32) {
    && (Bit23(i) <==> mode == IA || mode == IB)
    && (Bit24(i) <==> mode == DB || mode == IB)
    && (forall j: nat :: j < 16 ==> (BitAt(i, j) <==> BitAt(list, j)))
  }

  function IsUp(mode: BlockMode): bool {
    mode == IA || mode == IB
  }

  function Start(mode: BlockMode, base: Word, list: bv32): int {
    BlockStart(mode, base, Rank(list, 16))
  }

  // ---------------------------------------------------------------------------
  // Ranks and slots
  // ---------------------------------------------------------------------------

  lemma RankStep(list: bv32, j: nat)
    ensures Rank(list, j + 1) == Rank(list, j) + if BitAt(list, j) then 1 else 0
  {
    hide BitAt;
  }

  lemma {:induction false} RankMono(list: bv32, j: nat, k: nat)
    requires j <= k
    ensures Rank(list, j) <= Rank(list, k)
    decreases k
  {
    hide BitAt;
    if j < k {
      RankMono(list, j, k - 1);
    }
  }

  /** Two listed registers never share a byte. */
  lemma SlotsApart(list: bv32, start: int, j: nat, k: nat)
    requires j < k <= 15 && BitAt(list, j) && BitAt(list, k)
    ensures var a, b := Slot(list, start, j), Slot(list, start, k); a + 4 <= b || b + 4 <= a
  {
    hide BitAt, Rank;
    RankStep(list, j);
    RankMono(list, j + 1, k);
    WrapApart(start + 4 * Rank(list, j), Rank(list, k) - Rank(list, j));
  }

  lemma WrapApart(x: int, d: int)
    requires 1 <= d <= 16
    ensures var a, b := Wrap(x), Wrap(x + 4 * d); a + 4 <= b || b + 4 <= a
  {
  }

  /** The cursor before register j of an upward or downward sweep. */
  function CursorAt(mode: BlockMode, base: Word, list: bv32, j: nat): Word {
    if IsUp(mode) then Wrap(base + 4 * Rank(list, j))
    else Wrap(base - 4 * (Rank(list, 16) - Rank(list, j)))
  }

  /** Visiting a listed register uses its slot and moves the cursor by one word. */
  lemma VisitAddressUp(mode: BlockMode, base: Word, list: bv32, j: nat)
    requires j < 16 && BitAt(list, j) && IsUp(mode)
    ensures var rn := CursorAt(mode, base, list, j);
      && Wrap(rn + 4) == CursorAt(mode, base, list, j + 1)
      && (if mode == IB then Wrap(rn + 4) else rn) == Slot(list, Start(mode, base, list), j)
  {
    hide BitAt, Rank, Wrap;
    RankStep(list, j);
    WrapAdd(base + 4 * Rank(list, j), 4);
  }

  lemma VisitAddressDown(mode: BlockMode, base: Word, list: bv32, j: nat)
    requires j < 16 && BitAt(list, j) && !IsUp(mode)
    ensures var rn := CursorAt(mode, base, list, j + 1);
      && Wrap(rn - 4) == CursorAt(mode, base, list, j)
      && (if mode == DB then Wrap(rn - 4) else rn) == Slot(list, Start(mode, base, list), j)
  {
    hide BitAt, Rank, Wrap;
    RankStep(list, j);
    WrapAdd(base - 4 * (Rank(list, 16) - Rank(list, j + 1)), -4);
  }

  // ---------------------------------------------------------------------------
  // Loads
  // ---------------------------------------------------------------------------

  /** The registers after those in [lo, hi) have been loaded. */
  function Loaded(r: Regs, mem: seq<Byte>, list: bv32, start: int, lo: nat, hi: nat): Regs {
    seq(16, j requires 0 <= j < 16 =>
      if lo <= j < hi && BitAt(list, j) then LoadWord(mem, Slot(list, start, j)) else r[j])
  }

  function LoadedState(s: State, list: bv32, start: int, lo: nat, hi: nat): State {
    var r := Loaded(s.r, s.mem, list, start, lo, hi);
    s.(r := r, loc := if lo <= 15 < hi && BitAt(list, 15) then r[15] else s.loc)
  }

  lemma LoadVisit(s: State, i: bv32, mode: BlockMode, list: bv32, base: Word, j: nat, lo: nat, hi: nat)
    requires Describes(i, mode, list) && Bit20(i) && j < 16
    requires if IsUp(mode) then lo == 0 && hi == j else lo == j + 1 && hi == 16
    ensures var start := Start(mode, base, list);
      var (from, to) := if IsUp(mode) then (j, j + 1) else (j + 1, j);
      var lo', hi' := if IsUp(mode) then 0 else j, if IsUp(mode) then j + 1 else 16;
      BlockVisit(Cursor(LoadedState(s, list, start, lo, hi), CursorAt(mode, base, list, from)), i, j)
        == Cursor(LoadedState(s, list, start, lo', hi'), CursorAt(mode, base, list, to))
  {
    hide BitAt, Rank, Bit20, Bit23, Bit24, LoadWord, Slot, CursorAt, Start;
    assert BitAt(i, j) <==> BitAt(list, j);
    var start := Start(mode, base, list);
    var lo', hi' := if IsUp(mode) then 0 else j, if IsUp(mode) then j + 1 else 16;
    var before, after := Loaded(s.r, s.mem, list, start, lo, hi), Loaded(s.r, s.mem, list, start, lo', hi');
    if BitAt(list, j) {
      if IsUp(mode) {
        VisitAddressUp(mode, base, list, j);
      } else {
        VisitAddressDown(mode, base, list, j);
      }
      assert after == before[j := LoadWord(s.mem, Slot(list, start, j))];
    } else {
      CursorStays(mode, base, list, j);
      assert after == before;
    }
  }

  lemma CursorStays(mode: BlockMode, base: Word, list: bv32, j: nat)
    requires !BitAt(list, j)
    ensures CursorAt(mode, base, list, j + 1) == CursorAt(mode, base, list, j)
  {
    hide BitAt, Rank;
    RankStep(list, j);
  }

  lemma {:induction false} LoadUp(s: State, i: bv32, mode: BlockMode, list: bv32, base: Word, n: nat)
    requires Describes(i, mode, list) && Bit20(i) && IsUp(mode) && n <= 16
    ensures var start := Start(mode, base, list);
      BlockLoop(Cursor(LoadedState(s, list, start, 0, n), CursorAt(mode, base, list, n)), i, n)
        == Cursor(LoadedState(s, list, start, 0, 16), CursorAt(mode, base, list, 16))
    decreases 16 - n
  {
    hide BitAt, Rank, Bit20, Bit23, Bit24, LoadedState, Slot, CursorAt, Start, BlockVisit;
    if n < 16 {
      LoadVisit(s, i, mode, list, base, n, 0, n);
      LoadUp(s, i, mode, list, base, n + 1);
    }
  }

  lemma {:induction false} LoadDown(s: State, i: bv32, mode: BlockMode, list: bv32, base: Word, n: nat)
    requires Describes(i, mode, list) && Bit20(i) && !IsUp(mode) && n <= 16
    ensures var start := Start(mode, base, list);
      BlockLoop(Cursor(LoadedState(s, list, start, 16 - n, 16), CursorAt(mode, base, list, 16 - n)), i, n)
        == Cursor(LoadedState(s, list, start, 0, 16), CursorAt(mode, base, list, 0))
    decreases 16 - n
  {
    hide BitAt, Rank, Bit20, Bit23, Bit24, LoadedState, Slot, CursorAt, Start, BlockVisit;
    if n < 16 {
      LoadVisit(s, i, mode, list, base, 15 - n, 16 - n, 16);
      LoadDown(s, i, mode, list, base, n + 1);
    }
  }

  // ---------------------------------------------------------------------------
  // Stores
  // ---------------------------------------------------------------------------

  lemma StoresCommute(mem: seq<Byte>, a: int, b: int, v: Word, w: Word)
    requires a + 4 <= b || b + 4 <= a
    ensures StoreWord(StoreWord(mem, a, v), b, w) == StoreWord(StoreWord(mem, b, w), a, v)
  {
  }

  function StoreAt(mem: seq<Byte>, r: Regs, list: bv32, start: int, j: nat): (m: seq<Byte>)
    requires j < 16
    ensures |m| == |mem|
  {
    if BitAt(list, j) then StoreWord(mem, Slot(list, start, j), r[j]) else mem
  }

  /** The listed registers from 15 down to n, stored in that order. */
  function StoreDown(mem: seq<Byte>, r: Regs, list: bv32, start: int, n: nat): (m: seq<Byte>)
    requires n <= 16
    ensures |m| == |mem|
    decreases 16 - n
  {
    if n == 16 then mem else StoreAt(StoreDown(mem, r, list, start, n + 1), r, list, start, n)
  }

  lemma StoreListStep(mem: seq<Byte>, r: Regs, list: bv32, start: int, j: nat)
    requires j < 16
    ensures StoreList(mem, r, list, start, j + 1) == StoreAt(StoreList(mem, r, list, start, j), r, list, start, j)
  {
    hide BitAt, Slot, StoreWord;
  }

  lemma StoreAtCommute(mem: seq<Byte>, r: Regs, list: bv32, start: int, j: nat, k: nat)
    requires j < k < 16
    ensures StoreAt(StoreAt(mem, r, list, start, j), r, list, start, k)
         == StoreAt(StoreAt(mem, r, list, start, k), r, list, start, j)
  {
    hide BitAt, Slot, StoreWord;
    if BitAt(list, j) && BitAt(list, k) {
      SlotsApart(list, start, j, k);
      StoresCommute(mem, Slot(list, start, j), Slot(list, start, k), r[j], r[k]);
    }
  }

  lemma {:induction false} StorePastList(mem: seq<Byte>, r: Regs, list: bv32, start: int, j: nat, k: nat)
    requires j <= k < 16
    ensures StoreAt(StoreList(mem, r, list, start, j), r, list, start, k)
         == StoreList(StoreAt(mem, r, list, start, k), r, list, start, j)
    decreases j
  {
    hide BitAt, Slot, StoreWord, StoreAt;
    if j > 0 {
      StoreListStep(mem, r, list, start, j - 1);
      StoreListStep(StoreAt(mem, r, list, start, k), r, list, start, j - 1);
      StoreAtCommute(StoreList(mem, r, list, start, j - 1), r, list, start, j - 1, k);
      StorePastList(mem, r, list, start, j - 1, k);
    }
  }

  /** Storing downwards leaves the same memory as storing upwards. */
  lemma {:induction false} DownIsUp(mem: seq<Byte>, r: Regs, list: bv32, start: int, n: nat)
    requires n <= 16
    ensures StoreList(StoreDown(mem, r, list, start, n), r, list, start, n) == StoreList(mem, r, list, start, 16)
    decreases 16 - n
  {
    hide BitAt, Slot, StoreWord, StoreAt, StoreList;
    if n < 16 {
      var m := StoreDown(mem, r, list, start, n + 1);
      DownIsUp(mem, r, list, start, n + 1);
      StoreListStep(m, r, list, start, n);
      StorePastList(m, r, list, start, n, n);
    }
  }

  lemma StoreVisit(s: State, mem: seq<Byte>, i: bv32, mode: BlockMode, list: bv32, base: Word, j: nat)
    requires Describes(i, mode, list) && !Bit20(i) && j < 16
    ensures var (from, to) := if IsUp(mode) then (j, j + 1) else (j + 1, j);
      BlockVisit(Cursor(s.(mem := mem), CursorAt(mode, base, list, from)), i, j)
        == Cursor(s.(mem := StoreAt(mem, s.r, list, Start(mode, base, list), j)), CursorAt(mode, base, list, to))
  {
    hide BitAt, Rank, Bit20, Bit23, Bit24, StoreWord, Slot, CursorAt, Start;
    assert BitAt(i, j) <==> BitAt(list, j);
    if BitAt(list, j) {
      if IsUp(mode) {
        VisitAddressUp(mode, base, list, j);
      } else {
        VisitAddressDown(mode, base, list, j);
      }
    } else {
      CursorStays(mode, base, list, j);
    }
  }

  lemma {:induction false} StoreUp(s: State, i: bv32, mode: BlockMode, list: bv32, base: Word, n: nat)
    requires Describes(i, mode, list) && !Bit20(i) && IsUp(mode) && n <= 16
    ensures var start := Start(mode, base, list);
      BlockLoop(Cursor(s.(mem := StoreList(s.mem, s.r, list, start, n)), CursorAt(mode, base, list, n)), i, n)
        == Cursor(s.(mem := StoreList(s.mem, s.r, list, start, 16)), CursorAt(mode, base, list, 16))
    decreases 16 - n
  {
    hide BitAt, Rank, Bit20, Bit23, Bit24, StoreList, StoreAt, Slot, CursorAt, Start, BlockVisit;
    if n < 16 {
      var start := Start(mode, base, list);
      StoreVisit(s, StoreList(s.mem, s.r, list, start, n), i, mode, list, base, n);
      StoreListStep(s.mem, s.r, list, start, n);
      StoreUp(s, i, mode, list, base, n + 1);
    }
  }

  lemma {:induction false} StoreDownLoop(s: State, i: bv32, mode: BlockMode, list: bv32, base: Word, n: nat)
    requires Describes(i, mode, list) && !Bit20(i) && !IsUp(mode) && n <= 16
    ensures var start := Start(mode, base, list);
      BlockLoop(Cursor(s.(mem := StoreDown(s.mem, s.r, list, start, 16 - n)), CursorAt(mode, base, list, 16 - n)), i, n)
        == Cursor(s.(mem := StoreDown(s.mem, s.r, list, start, 0)), CursorAt(mode, base, list, 0))
    decreases 16 - n
  {
    hide BitAt, Rank, Bit20, Bit23, Bit24, StoreAt, Slot, CursorAt, Start, BlockVisit;
    if n < 16 {
      var start := Start(mode, base, list);
      StoreVisit(s, StoreDown(s.mem, s.r, list, start, 16 - n), i, mode, list, base, 15 - n);
      StoreDownLoop(s, i, mode, list, base, n + 1);
    }
  }

  // ---------------------------------------------------------------------------
  // The closed form
  // ---------------------------------------------------------------------------

  lemma CursorEnds(mode: BlockMode, base: Word, list: bv32)
    ensures CursorAt(mode, base, list, if IsUp(mode) then 0 else 16) == base
    ensures CursorAt(mode, base, list, if IsUp(mode) then 16 else 0) == BlockEnd(mode, base, Rank(list, 16))
  {
    hide BitAt;
    assert Rank(list, 0) == 0;
    hide Rank;
  }

  lemma NothingLoaded(s: State, list: bv32, start: int, lo: nat)
    requires lo == 0 || lo == 16
    ensures LoadedState(s, list, start, lo, lo) == s
  {
    hide BitAt, Slot, LoadWord;
    assert Loaded(s.r, s.mem, list, start, lo, lo) == s.r;
  }

  lemma AllLoaded(s: State, list: bv32, start: int)
    ensures LoadedState(s, list, start, 0, 16).r == LoadList(s.r, s.mem, list, start)
  {
    hide BitAt, Slot, LoadWord;
    assert Loaded(s.r, s.mem, list, start, 0, 16) == LoadList(s.r, s.mem, list, start);
  }

  /** The sixteen-step loop, in all four addressing modes, is the contiguous block transfer. */
  lemma BlockIsContiguous(s: State, i: bv32, mode: BlockMode, list: bv32)
    requires Describes(i, mode, list)
    ensures BlockTransfer(s, i) == ExecBlock(Bit20(i), mode, Bit21(i), Reg16(i), list, s)
  {
    hide BitAt, Rank, Bit20, Bit21, Bit23, Bit24, Reg16, StoreList, StoreAt, StoreDown, Slot, CursorAt, BlockStart;
    hide BlockEnd, BlockLoop, LoadedState, LoadList;
    var base := Get(s.r, Reg16(i));
    var start := Start(mode, base, list);
    CursorEnds(mode, base, list);
    if Bit20(i) {
      NothingLoaded(s, list, start, 0);
      NothingLoaded(s, list, start, 16);
      AllLoaded(s, list, start);
      LoadedLoc(s, list, start);
      if IsUp(mode) {
        LoadUp(s, i, mode, list, base, 0);
      } else {
        LoadDown(s, i, mode, list, base, 0);
      }
    } else {
      assert s.(mem := s.mem) == s;
      StoreEnds(s, list, start);
      if IsUp(mode) {
        StoreUp(s, i, mode, list, base, 0);
      } else {
        StoreDownLoop(s, i, mode, list, base, 0);
      }
    }
  }

  lemma LoadedLoc(s: State, list: bv32, start: int)
    ensures LoadedState(s, list, start, 0, 16)
      == s.(r := LoadList(s.r, s.mem, list, start), loc := if BitAt(list, 15) then LoadList(s.r, s.mem, list, start)[15] else s.loc)
  {
    hide BitAt, Slot, LoadWord;
    assert Loaded(s.r, s.mem, list, start, 0, 16) == LoadList(s.r, s.mem, list, start);
  }

  lemma StoreEnds(s: State, list: bv32, start: int)
    ensures StoreList(s.mem, s.r, list, start, 0) == s.mem
    ensures StoreDown(s.mem, s.r, list, start, 16) == s.mem
    ensures StoreDown(s.mem, s.r, list, start, 0) == StoreList(s.mem, s.r, list, start, 16)
  {
    hide BitAt, Slot, StoreWord, StoreAt;
    DownIsUp(s.mem, s.r, list, start, 0);
  }
}
