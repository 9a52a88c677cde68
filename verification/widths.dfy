/** Bytes and halfwords stored and loaded again. */
module Widths {
  import opened Words
  import opened Machine
  import opened Asm

  /** The address a transfer touches, and the value its base gets when it is written back. */
  function Pointer(base: Word, offset: Word, negative: bool): Word {
    if negative then Wrap(base - offset) else Wrap(base + offset)
  }

  function Touched(base: Word, offset: Word, negative: bool, index: Indexing): Word {
    if index.Pre? then Pointer(base, offset, negative) else base
  }

  predicate WritesBase(index: Indexing) {
    index.Post? || index.writeback
  }

  predicate SameOutside(mem: seq<Byte>, mem': seq<Byte>, a: int, width: nat) {
    |mem'| == |mem| && forall k :: 0 <= k < |mem| && !(a <= k < a + width) ==> mem'[k] == mem[k]
  }

  // ---------------------------------------------------------------------------
  // Memory
  // ---------------------------------------------------------------------------

  lemma ByteKept(mem: seq<Byte>, a: int, v: Word)
    requires InMem(mem, a)
    ensures LoadByte(StoreByte(mem, a, v), a) == v % 0x100
    ensures SameOutside(mem, StoreByte(mem, a, v), a, 1)
  {
  }

  lemma HalfKept(mem: seq<Byte>, a: int, v: Word)
    requires InMem(mem, a)
    ensures LoadHalf(StoreHalf(mem, a, v), a) == v % 0x1_0000
    ensures SameOutside(mem, StoreHalf(mem, a, v), a, 2)
  {
    HalfDigits(v);
  }

  lemma HalfDigits(v: Word)
    ensures v % 0x100 + 0x100 * (v / 0x100 % 0x100) == v % 0x1_0000
  {
    var h := v / 0x100;
    DivModUnique(v, 0x1_0000, h / 0x100, 0x100 * (h % 0x100) + v % 0x100);
  }

  /** The low w bits of v read as a signed number, as a DWORD. */
  function LowSigned(v: Word, size: Word): Word
    requires size > 0
  {
    Wrap(if v % size < size / 2 then v % size else v % size - size)
  }

  // ---------------------------------------------------------------------------
  // Instructions
  // ---------------------------------------------------------------------------

  /** A store, by its registers and operand: what it touches and where it leaves its base. */
  datatype Access = Access(rd: Reg, rn: Reg, offset: Word, negative: bool, index: Indexing)

  function Where(a: Access, s: State): Word {
    Touched(Get(s.r, a.rn), a.offset, a.negative, a.index)
  }

  predicate BaseMoved(a: Access, s: State, t: State) {
    Get(t.r, a.rn) == if WritesBase(a.index) then Pointer(Get(s.r, a.rn), a.offset, a.negative) else Get(s.r, a.rn)
  }

  function Bytewise(load: bool, a: Access, s: State): State {
    ExecTransfer(load, true, a.rd, a.rn, a.offset, a.negative, a.index, s)
  }

  function Halfwise(load: bool, kind: HalfKind, a: Access, s: State): State {
    ExecHalf(load, kind, a.rd, a.rn, a.offset, a.negative, a.index, s)
  }

  lemma PutBase(r: Regs, rd: Reg, rn: Reg, v: Word, p: Word)
    requires rd != rn
    ensures Get(Put(Put(r, rd, v), rn, p), rd) == v && Get(Put(Put(r, rd, v), rn, p), rn) == p
    ensures Get(Put(r, rd, v), rd) == v && Get(Put(r, rd, v), rn) == Get(r, rn) && Get(Put(r, rn, p), rn) == p
  {
  }

  lemma PutSelf(r: Regs, rd: Reg, v: Word)
    ensures Get(Put(r, rd, v), rd) == v
  {
  }

  lemma StoreEffect(a: Access, s: State)
    ensures Bytewise(false, a, s).mem == StoreByte(s.mem, Where(a, s), Get(s.r, a.rd))
    ensures Halfwise(false, H, a, s).mem == StoreHalf(s.mem, Where(a, s), Get(s.r, a.rd))
    ensures BaseMoved(a, s, Bytewise(false, a, s)) && BaseMoved(a, s, Halfwise(false, H, a, s))
  {
    hide StoreByte, StoreHalf, Wrap, Get, Put;
    PutBase(s.r, a.rn + 1, a.rn, 0, Pointer(Get(s.r, a.rn), a.offset, a.negative));
  }

  lemma LoadByteEffect(a: Access, s: State)
    requires WritesBase(a.index) ==> a.rd != a.rn
    ensures var u := Bytewise(true, a, s);
      Get(u.r, a.rd) == LoadByte(s.mem, Where(a, s)) && (a.rd != a.rn ==> BaseMoved(a, s, u))
  {
    hide LoadByte, Wrap, Get, Put;
    PutSelf(s.r, a.rd, LoadByte(s.mem, Where(a, s)));
    if a.rd != a.rn {
      PutBase(s.r, a.rd, a.rn, LoadByte(s.mem, Where(a, s)), Pointer(Get(s.r, a.rn), a.offset, a.negative));
    }
  }

  lemma LoadHalfEffect(kind: HalfKind, a: Access, s: State)
    requires WritesBase(a.index) ==> a.rd != a.rn
    ensures var u := Halfwise(true, kind, a, s);
      Get(u.r, a.rd) == HalfLoaded(kind, s.mem, Where(a, s)) && (a.rd != a.rn ==> BaseMoved(a, s, u))
  {
    hide HalfLoaded, Wrap, Get, Put;
    PutSelf(s.r, a.rd, HalfLoaded(kind, s.mem, Where(a, s)));
    if a.rd != a.rn {
      PutBase(s.r, a.rd, a.rn, HalfLoaded(kind, s.mem, Where(a, s)), Pointer(Get(s.r, a.rn), a.offset, a.negative));
    }
  }

  /** STRB changes one byte and moves its base; LDRB and LDRSB from that address return the byte, extended. */
  lemma ByteRoundTrip(store: Access, load: Access, s: State)
    requires InMem(s.mem, Where(store, s)) && (WritesBase(load.index) ==> load.rd != load.rn)
    requires Where(load, Bytewise(false, store, s)) == Where(store, s)
    ensures var t := Bytewise(false, store, s);
      && SameOutside(s.mem, t.mem, Where(store, s), 1) && BaseMoved(store, s, t)
      && Get(Bytewise(true, load, t).r, load.rd) == Get(s.r, store.rd) % 0x100
      && Get(Halfwise(true, SB, load, t).r, load.rd) == LowSigned(Get(s.r, store.rd), 0x100)
      && (load.rd != load.rn ==>
            BaseMoved(load, t, Bytewise(true, load, t)) && BaseMoved(load, t, Halfwise(true, SB, load, t)))
  {
    hide LoadByte, StoreByte, SameOutside, Wrap, InMem, Bytewise, Halfwise, BaseMoved, Where;
    var t := Bytewise(false, store, s);
    ByteKept(s.mem, Where(store, s), Get(s.r, store.rd));
    StoreEffect(store, s);
    LoadByteEffect(load, t);
    LoadHalfEffect(SB, load, t);
  }

  /** STRH changes two bytes and moves its base; LDRH and LDRSH from that address return them, extended. */
  lemma HalfRoundTrip(store: Access, load: Access, s: State)
    requires InMem(s.mem, Where(store, s)) && (WritesBase(load.index) ==> load.rd != load.rn)
    requires Where(load, Halfwise(false, H, store, s)) == Where(store, s)
    ensures var t := Halfwise(false, H, store, s);
      && SameOutside(s.mem, t.mem, Where(store, s), 2) && BaseMoved(store, s, t)
      && Get(Halfwise(true, H, load, t).r, load.rd) == Get(s.r, store.rd) % 0x1_0000
      && Get(Halfwise(true, SH, load, t).r, load.rd) == LowSigned(Get(s.r, store.rd), 0x1_0000)
      && (load.rd != load.rn ==>
            BaseMoved(load, t, Halfwise(true, H, load, t)) && BaseMoved(load, t, Halfwise(true, SH, load, t)))
  {
    hide LoadHalf, StoreHalf, SameOutside, Wrap, InMem, Bytewise, Halfwise, BaseMoved, Where;
    var t := Halfwise(false, H, store, s);
    HalfKept(s.mem, Where(store, s), Get(s.r, store.rd));
    StoreEffect(store, s);
    LoadHalfEffect(H, load, t);
    LoadHalfEffect(SH, load, t);
  }

  function Wordwise(load: bool, a: Access, s: State): State {
    ExecTransfer(load, false, a.rd, a.rn, a.offset, a.negative, a.index, s)
  }

  lemma WordEffect(a: Access, s: State)
    ensures Wordwise(false, a, s).mem == StoreWord(s.mem, Where(a, s), Get(s.r, a.rd))
    ensures BaseMoved(a, s, Wordwise(false, a, s))
    ensures a.rd != a.rn ==> BaseMoved(a, s, Wordwise(true, a, s))
    ensures (WritesBase(a.index) ==> a.rd != a.rn) ==> Get(Wordwise(true, a, s).r, a.rd) == LoadWord(s.mem, Where(a, s))
  {
    hide LoadWord, StoreWord, Wrap, Get, Put;
    var p := Pointer(Get(s.r, a.rn), a.offset, a.negative);
    PutSelf(s.r, a.rd, LoadWord(s.mem, Where(a, s)));
    PutBase(s.r, a.rn + 1, a.rn, 0, p);
    if a.rd != a.rn {
      PutBase(s.r, a.rd, a.rn, LoadWord(s.mem, Where(a, s)), p);
    }
  }

  lemma WordKept(mem: seq<Byte>, a: int, v: Word)
    requires InMem(mem, a)
    ensures LoadWord(StoreWord(mem, a, v), a) == v
    ensures SameOutside(mem, StoreWord(mem, a, v), a, 4)
  {
    WordOfBytes(v);
  }

  /** STR changes four bytes and moves its base; LDR from that address returns the word. */
  lemma WordRoundTrip(store: Access, load: Access, s: State)
    requires InMem(s.mem, Where(store, s)) && (WritesBase(load.index) ==> load.rd != load.rn)
    requires Where(load, Wordwise(false, store, s)) == Where(store, s)
    ensures var t := Wordwise(false, store, s);
      && SameOutside(s.mem, t.mem, Where(store, s), 4) && BaseMoved(store, s, t)
      && Get(Wordwise(true, load, t).r, load.rd) == Get(s.r, store.rd)
      && (load.rd != load.rn ==> BaseMoved(load, t, Wordwise(true, load, t)))
  {
    hide LoadWord, StoreWord, SameOutside, Wrap, InMem, Wordwise, BaseMoved, Where;
    WordKept(s.mem, Where(store, s), Get(s.r, store.rd));
    WordEffect(store, s);
    WordEffect(load, Wordwise(false, store, s));
  }

  /** A load into its own base that writes the base back leaves the pointer there, not the data. */
  lemma WritebackWins(a: Access, kind: HalfKind, mode: BlockMode, list: bv32, s: State)
    requires a.rd == a.rn && WritesBase(a.index)
    ensures var p := Pointer(Get(s.r, a.rn), a.offset, a.negative);
      && Get(Bytewise(true, a, s).r, a.rn) == p && Get(Wordwise(true, a, s).r, a.rn) == p
      && Get(Halfwise(true, kind, a, s).r, a.rn) == p
    ensures Get(ExecBlock(true, mode, true, a.rn, list, s).r, a.rn) ==
      Pointer(Get(s.r, a.rn), 4 * Rank(list, 16), mode.DA? || mode.DB?)
  {
    hide LoadWord, LoadByte, HalfLoaded, Wrap, Rank, BitAt, Slot, BlockStart, LoadList;
  }
}
