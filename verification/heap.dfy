/**
 The heap allocator: a doubly linked list of blocks inside one buffer, first fit, split on allocation
 and merged on release.

 `Malloc` and `Release` say what allocation and release mean for the sequence of blocks; `Release`
 merges forward as intended, the lower block absorbing the upper. Module `HeapStore` holds the headers
 as the C code updates them, with the forward merge as it is written.
 */
module Heap {
  import opened Options

  /** The size of a block header on a machine with 64-bit pointers. */
  const HEADER: nat := 32

  datatype Block = Block(at: nat, size: nat, used: bool)

  function Payload(b: Block): nat { b.at + HEADER }
  function End(b: Block): nat { b.at + HEADER + b.size }

  /** Where the room after block k ends: at the next block, or at the end of the heap. */
  function Limit(bs: seq<Block>, k: nat, hi: nat): nat
    requires k < |bs|
  {
    if k + 1 < |bs| then bs[k + 1].at else hi
  }

  predicate Fits(bs: seq<Block>, k: nat, hi: nat)
    requires k < |bs|
  {
    End(bs[k]) <= Limit(bs, k, hi)
  }

  /** Blocks in address order from lo, none reaching into the next or past hi. */
  ghost predicate Ordered(bs: seq<Block>, lo: nat, hi: nat) {
    && bs != [] && bs[0].at == lo
    && forall k :: 0 <= k < |bs| ==> Fits(bs, k, hi)
  }

  /** No two neighbours are both free. */
  ghost predicate Coalesced(bs: seq<Block>) {
    forall k :: 0 <= k < |bs| - 1 ==> bs[k].used || bs[k + 1].used
  }

  function Used(bs: seq<Block>): set<Block> {
    set b | b in bs && b.used
  }

  function Unused(bs: seq<Block>): set<Block> {
    set b | b in bs && !b.used
  }

  predicate Apart(b: Block, c: Block) {
    End(b) <= c.at || End(c) <= b.at
  }

  predicate Within(b: Block, lo: nat, hi: nat) {
    lo <= b.at && End(b) <= hi
  }

  /** The payload of b and the header of c have no byte in common. */
  predicate Clear(b: Block, c: Block) {
    c.at + HEADER <= Payload(b) || End(b) <= c.at
  }

  lemma {:induction false} Ascending(bs: seq<Block>, lo: nat, hi: nat, i: nat, j: nat)
    requires Ordered(bs, lo, hi) && i < j < |bs|
    ensures End(bs[i]) <= bs[j].at
    decreases j
  {
    assert Fits(bs, j - 1, hi);
    if i < j - 1 {
      Ascending(bs, lo, hi, i, j - 1);
    }
  }

  lemma {:induction false} AfterStart(bs: seq<Block>, lo: nat, hi: nat, k: nat)
    requires Ordered(bs, lo, hi) && k < |bs|
    ensures lo <= bs[k].at
  {
    if k > 0 {
      Ascending(bs, lo, hi, 0, k);
    }
  }

  lemma BeforeEnd(bs: seq<Block>, lo: nat, hi: nat, k: nat)
    requires Ordered(bs, lo, hi) && k < |bs|
    ensures End(bs[k]) <= hi
  {
    assert Fits(bs, |bs| - 1, hi);
    if k < |bs| - 1 {
      Ascending(bs, lo, hi, k, |bs| - 1);
    }
  }

  /**
   Different live blocks have disjoint ranges, headers included, inside the heap, and no payload covers
   a byte of any header, so that writing inside live blocks leaves the list alone.
   */
  lemma LiveDisjoint(bs: seq<Block>, lo: nat, hi: nat)
    requires Ordered(bs, lo, hi)
    ensures forall b, c :: b in Used(bs) && c in bs ==> Clear(b, c)
    ensures forall b, c :: b in Used(bs) && c in Used(bs) && b != c ==> Apart(b, c)
    ensures forall b :: b in Used(bs) ==> Within(b, lo, hi)
  {
    forall b, c | b in Used(bs) && c in Used(bs) && b != c
      ensures Apart(b, c)
    {
      var i :| 0 <= i < |bs| && bs[i] == b;
      var j :| 0 <= j < |bs| && bs[j] == c;
      if i < j {
        Ascending(bs, lo, hi, i, j);
      } else {
        Ascending(bs, lo, hi, j, i);
      }
    }
    forall b, c | b in Used(bs) && c in bs
      ensures Clear(b, c)
    {
      var i :| 0 <= i < |bs| && bs[i] == b;
      var j :| 0 <= j < |bs| && bs[j] == c;
      if i < j {
        Ascending(bs, lo, hi, i, j);
      } else if j < i {
        Ascending(bs, lo, hi, j, i);
      }
    }
    forall b | b in Used(bs)
      ensures Within(b, lo, hi)
    {
      var i :| 0 <= i < |bs| && bs[i] == b;
      AfterStart(bs, lo, hi, i);
      BeforeEnd(bs, lo, hi, i);
    }
  }

  /** The bytes the blocks account for, headers included. */
  function Total(bs: seq<Block>): nat {
    if bs == [] then 0 else HEADER + bs[0].size + Total(bs[1..])
  }

  lemma {:induction false} TotalAppend(bs: seq<Block>, cs: seq<Block>)
    ensures Total(bs + cs) == Total(bs) + Total(cs)
    decreases |bs|
  {
    if bs == [] {
      assert bs + cs == cs;
    } else {
      assert (bs + cs)[1..] == bs[1..] + cs;
      TotalAppend(bs[1..], cs);
    }
  }

  lemma TotalSplice(bs: seq<Block>, i: nat, j: nat, mid: seq<Block>)
    requires i <= j <= |bs|
    ensures Total(bs[..i] + mid + bs[j..]) == Total(bs) - Total(bs[i..j]) + Total(mid)
  {
    assert bs == bs[..i] + (bs[i..j] + bs[j..]);
    TotalAppend(bs[..i], bs[i..j] + bs[j..]);
    TotalAppend(bs[i..j], bs[j..]);
    assert bs[..i] + mid + bs[j..] == bs[..i] + (mid + bs[j..]);
    TotalAppend(bs[..i], mid + bs[j..]);
    TotalAppend(mid, bs[j..]);
  }

  lemma TotalOne(b: Block)
    ensures Total([b]) == HEADER + b.size
  {
    assert [b][1..] == [];
  }

  lemma TotalTwo(b: Block, c: Block)
    ensures Total([b, c]) == 2 * HEADER + b.size + c.size
  {
    assert [b, c][1..] == [c];
    TotalOne(c);
  }

  // ---------------------------------------------------------------------------
  // Allocation
  // ---------------------------------------------------------------------------

  predicate Suits(b: Block, size: nat) {
    !b.used && b.size >= size
  }

  /** The first block from k on that is free and large enough. */
  function FirstFit(bs: seq<Block>, size: nat, k: nat): (r: Option<nat>)
    requires k <= |bs|
    ensures r.Some? ==> k <= r.value < |bs| && Suits(bs[r.value], size)
    ensures r.Some? ==> forall j :: k <= j < r.value ==> !Suits(bs[j], size)
    ensures r.None? ==> forall j :: k <= j < |bs| ==> !Suits(bs[j], size)
    decreases |bs| - k
  {
    if k == |bs| then None
    else if Suits(bs[k], size) then Some(k)
    else FirstFit(bs, size, k + 1)
  }

  predicate Splits(b: Block, size: nat) {
    b.size > size + HEADER
  }

  function Rest(b: Block, size: nat): Block
    requires Splits(b, size)
  {
    Block(b.at + HEADER + size, b.size - size - HEADER, false)
  }

  /** Block k allocated; what is left over becomes a block only when it has more than a header's room. */
  function Take(bs: seq<Block>, k: nat, size: nat): seq<Block>
    requires k < |bs|
  {
    var taken := Block(bs[k].at, size, true);
    var rest := if Splits(bs[k], size) then [Rest(bs[k], size)] else [];
    bs[..k] + ([taken] + rest) + bs[k + 1..]
  }

  datatype Allocation = Allocation(ptr: nat, blocks: seq<Block>)

  function Malloc(bs: seq<Block>, size: nat): Allocation {
    match FirstFit(bs, size, 0)
    case None => Allocation(0, bs)
    case Some(k) => Allocation(Payload(bs[k]), Take(bs, k, size))
  }

  lemma TakeOrdered(bs: seq<Block>, k: nat, size: nat, lo: nat, hi: nat)
    requires Ordered(bs, lo, hi) && k < |bs| && Suits(bs[k], size)
    ensures Ordered(Take(bs, k, size), lo, hi)
  {
    var cs := Take(bs, k, size);
    var shift := if Splits(bs[k], size) then 1 else 0;
    forall j | 0 <= j < |cs|
      ensures Fits(cs, j, hi)
    {
      if j < k {
        assert Fits(bs, j, hi);
      } else if j <= k + shift {
        assert Fits(bs, k, hi);
      } else {
        assert Fits(bs, j - shift, hi);
      }
    }
  }

  lemma TakeCoalesced(bs: seq<Block>, k: nat, size: nat)
    requires Coalesced(bs) && k < |bs| && Suits(bs[k], size)
    ensures Coalesced(Take(bs, k, size))
  {
    var cs := Take(bs, k, size);
    var shift := if Splits(bs[k], size) then 1 else 0;
    forall j | 0 <= j < |cs| - 1
      ensures cs[j].used || cs[j + 1].used
    {
      if j < k {
        assert bs[j].used || bs[j + 1].used;
      } else if j > k {
        assert bs[j - shift].used || bs[j - shift + 1].used;
      }
    }
  }

  /** Every other block keeps its range and its mark. */
  lemma TakeUsed(bs: seq<Block>, k: nat, size: nat)
    requires k < |bs| && Suits(bs[k], size)
    ensures Used(Take(bs, k, size)) == Used(bs) + {Block(bs[k].at, size, true)}
  {
    var cs := Take(bs, k, size);
    forall b | b in Used(bs)
      ensures b in cs
    {
      var i :| 0 <= i < |bs| && bs[i] == b;
      assert b in bs[..k] || b in bs[k + 1..] by {
        assert i < k ==> bs[..k][i] == b;
        assert i > k ==> bs[k + 1..][i - k - 1] == b;
      }
    }
    assert cs[k] == Block(bs[k].at, size, true);
  }

  /** Every other free block keeps its range. */
  lemma TakeUnused(bs: seq<Block>, k: nat, size: nat, lo: nat, hi: nat)
    requires Ordered(bs, lo, hi) && k < |bs| && Suits(bs[k], size)
    ensures Unused(Take(bs, k, size)) ==
      Unused(bs) - {bs[k]} + if Splits(bs[k], size) then {Rest(bs[k], size)} else {}
  {
    var cs := Take(bs, k, size);
    var shift := if Splits(bs[k], size) then 1 else 0;
    forall b | b in Unused(bs) - {bs[k]}
      ensures b in cs
    {
      var i :| 0 <= i < |bs| && bs[i] == b;
      assert cs[if i < k then i else i + shift] == b;
    }
    forall b | b in Unused(cs)
      ensures b in Unused(bs) - {bs[k]} || (shift == 1 && b == Rest(bs[k], size))
    {
      var i :| 0 <= i < |cs| && cs[i] == b;
      if i < k {
        Ascending(bs, lo, hi, i, k);
      } else if i > k + shift {
        Ascending(bs, lo, hi, k, i - shift);
      }
    }
    assert shift == 1 ==> cs[k + 1] == Rest(bs[k], size);
  }

  /** The allocation takes block k, the first that fits, and leaves the other free blocks alone. */
  ghost predicate TakesFirst(bs: seq<Block>, size: nat, m: Allocation, k: nat) {
    && k < |bs| && !bs[k].used && bs[k].size >= size
    && (forall j :: 0 <= j < k ==> bs[j].used || bs[j].size < size)
    && m.ptr == bs[k].at + 32
    && Unused(m.blocks) == Unused(bs) - {bs[k]} +
       if bs[k].size > size + 32 then {Block(bs[k].at + 32 + size, bs[k].size - size - 32, false)} else {}
  }

  lemma TakeTotal(bs: seq<Block>, k: nat, size: nat)
    requires k < |bs| && Suits(bs[k], size)
    ensures Total(Take(bs, k, size)) == Total(bs) - if Splits(bs[k], size) then 0 else bs[k].size - size
  {
    var taken := Block(bs[k].at, size, true);
    assert bs[k..k + 1] == [bs[k]];
    TotalOne(bs[k]);
    if Splits(bs[k], size) {
      TotalTwo(taken, Rest(bs[k], size));
      assert [taken] + [Rest(bs[k], size)] == [taken, Rest(bs[k], size)];
      TotalSplice(bs, k, k + 1, [taken] + [Rest(bs[k], size)]);
    } else {
      TotalOne(taken);
      assert [taken] + [] == [taken];
      TotalSplice(bs, k, k + 1, [taken] + []);
    }
  }

  lemma MallocTakes(bs: seq<Block>, size: nat, k: nat, lo: nat, hi: nat)
    requires Ordered(bs, lo, hi) && FirstFit(bs, size, 0) == Some(k)
    ensures TakesFirst(bs, size, Malloc(bs, size), k)
  {
    hide Take, Unused, Ordered;
    TakeUnused(bs, k, size, lo, hi);
  }

  /**
   Allocation on any well-formed heap. It fails exactly when no free block is large enough, changing
   nothing. Otherwise the first block that fits is taken and exactly one live block is added, of the
   requested size, inside the heap and apart from every live block. The other free blocks and the order
   are kept, and at most one header's size goes out of account.
   */
  lemma MallocSound(bs: seq<Block>, size: nat, lo: nat, hi: nat)
    requires Ordered(bs, lo, hi)
    ensures var m := Malloc(bs, size);
      && Ordered(m.blocks, lo, hi)
      && (Coalesced(bs) ==> Coalesced(m.blocks))
      && (m.ptr == 0 <==> forall b :: b in bs ==> b.used || b.size < size)
      && (m.ptr == 0 ==> m.blocks == bs)
      && (m.ptr != 0 ==>
            var b := Block(m.ptr - HEADER, size, true);
            && Used(m.blocks) == Used(bs) + {b} && Within(b, lo, hi)
            && (forall c :: c in Used(bs) ==> Apart(b, c))
            && exists k :: TakesFirst(bs, size, m, k))
      && Total(bs) - HEADER <= Total(m.blocks) <= Total(bs)
  {
    hide TakesFirst;
    match FirstFit(bs, size, 0)
    case None =>
    case Some(k) =>
      TakeOrdered(bs, k, size, lo, hi);
      if Coalesced(bs) {
        TakeCoalesced(bs, k, size);
      }
      TakeUsed(bs, k, size);
      TakeTotal(bs, k, size);
      MallocTakes(bs, size, k, lo, hi);
      assert bs[k] in bs;
      NewIsApart(bs, k, size, lo, hi);
  }

  lemma NewIsApart(bs: seq<Block>, k: nat, size: nat, lo: nat, hi: nat)
    requires Ordered(bs, lo, hi) && k < |bs| && Suits(bs[k], size)
    ensures var b := Block(bs[k].at, size, true);
      Within(b, lo, hi) && forall c :: c in Used(bs) ==> Apart(b, c)
  {
    AfterStart(bs, lo, hi, k);
    BeforeEnd(bs, lo, hi, k);
    var b := Block(bs[k].at, size, true);
    forall c | c in Used(bs)
      ensures Apart(b, c)
    {
      var i :| 0 <= i < |bs| && bs[i] == c;
      if i < k {
        Ascending(bs, lo, hi, i, k);
      } else {
        Ascending(bs, lo, hi, k, i);
      }
    }
  }

  // ---------------------------------------------------------------------------
  // Release
  // ---------------------------------------------------------------------------

  function Cleared(bs: seq<Block>, k: nat): seq<Block>
    requires k < |bs|
  {
    bs[k := bs[k].(used := false)]
  }

  /** Block k absorbs its upper neighbour. */
  function Absorb(bs: seq<Block>, k: nat): seq<Block>
    requires k + 1 < |bs|
  {
    bs[..k] + [bs[k].(size := bs[k].size + bs[k + 1].size + HEADER)] + bs[k + 2..]
  }

  predicate FreeBefore(bs: seq<Block>, k: nat) {
    0 < k <= |bs| && !bs[k - 1].used
  }

  predicate FreeAfter(bs: seq<Block>, k: nat) {
    k + 1 < |bs| && !bs[k + 1].used
  }

  /** The blocks after the backward merge, and the index of the block just freed. */
  function Backed(bs: seq<Block>, k: nat): seq<Block>
    requires k < |bs|
  {
    if FreeBefore(bs, k) then Absorb(Cleared(bs, k), k - 1) else Cleared(bs, k)
  }

  function BackedIndex(bs: seq<Block>, k: nat): (j: nat)
    requires k < |bs|
    ensures j < |Backed(bs, k)| && j <= k
  {
    if FreeBefore(bs, k) then k - 1 else k
  }

  /** Release of block k: merged with a free lower and a free upper neighbour. */
  function Release(bs: seq<Block>, k: nat): seq<Block>
    requires k < |bs|
  {
    var cs, j := Backed(bs, k), BackedIndex(bs, k);
    if FreeAfter(cs, j) then Absorb(cs, j) else cs
  }

  lemma AbsorbOrdered(bs: seq<Block>, k: nat, lo: nat, hi: nat)
    requires Ordered(bs, lo, hi) && k + 1 < |bs|
    ensures Ordered(Absorb(bs, k), lo, hi)
  {
    var cs := Absorb(bs, k);
    forall j | 0 <= j < |cs|
      ensures Fits(cs, j, hi)
    {
      if j < k {
        assert Fits(bs, j, hi);
      } else if j == k {
        assert Fits(bs, k, hi) && Fits(bs, k + 1, hi);
      } else {
        assert Fits(bs, j + 1, hi);
      }
    }
  }

  lemma AbsorbTotal(bs: seq<Block>, k: nat)
    requires k + 1 < |bs|
    ensures Total(Absorb(bs, k)) == Total(bs)
  {
    var b := bs[k].(size := bs[k].size + bs[k + 1].size + HEADER);
    assert bs[k..k + 2] == [bs[k], bs[k + 1]];
    TotalTwo(bs[k], bs[k + 1]);
    TotalOne(b);
    TotalSplice(bs, k, k + 2, [b]);
  }

  lemma AbsorbUsed(bs: seq<Block>, k: nat)
    requires k + 1 < |bs| && !bs[k].used && !bs[k + 1].used
    ensures Used(Absorb(bs, k)) == Used(bs)
  {
    var cs := Absorb(bs, k);
    forall b | b in Used(bs)
      ensures b in cs
    {
      var i :| 0 <= i < |bs| && bs[i] == b;
      assert i < k ==> cs[i] == b;
      assert i > k + 1 ==> cs[i - 1] == b;
    }
  }

  lemma ClearedOrdered(bs: seq<Block>, k: nat, lo: nat, hi: nat)
    requires Ordered(bs, lo, hi) && k < |bs|
    ensures Ordered(Cleared(bs, k), lo, hi)
  {
    forall j | 0 <= j < |bs|
      ensures Fits(Cleared(bs, k), j, hi)
    {
      assert Fits(bs, j, hi);
    }
  }

  lemma ClearedTotal(bs: seq<Block>, k: nat)
    requires k < |bs|
    ensures Total(Cleared(bs, k)) == Total(bs)
  {
    var b := bs[k].(used := false);
    assert bs[k..k + 1] == [bs[k]];
    TotalOne(bs[k]);
    TotalOne(b);
    TotalSplice(bs, k, k + 1, [b]);
    assert Cleared(bs, k) == bs[..k] + [b] + bs[k + 1..];
  }

  lemma ClearedUsed(bs: seq<Block>, k: nat, lo: nat, hi: nat)
    requires Ordered(bs, lo, hi) && k < |bs|
    ensures Used(Cleared(bs, k)) == Used(bs) - {bs[k]}
  {
    var cs := Cleared(bs, k);
    forall b | b in Used(bs) - {bs[k]}
      ensures b in cs
    {
      var i :| 0 <= i < |bs| && bs[i] == b;
      assert cs[i] == b;
    }
    forall b | b in Used(cs)
      ensures b in bs && b != bs[k]
    {
      var i :| 0 <= i < |cs| && cs[i] == b;
      assert bs[i] == b;
      if i < k {
        Ascending(bs, lo, hi, i, k);
      } else {
        Ascending(bs, lo, hi, k, i);
      }
    }
  }

  lemma BackedSound(bs: seq<Block>, k: nat, lo: nat, hi: nat)
    requires Ordered(bs, lo, hi) && k < |bs|
    ensures var cs := Backed(bs, k);
      Ordered(cs, lo, hi) && Used(cs) == Used(bs) - {bs[k]} && Total(cs) == Total(bs) && !cs[BackedIndex(bs, k)].used
  {
    ClearedOrdered(bs, k, lo, hi);
    ClearedTotal(bs, k);
    ClearedUsed(bs, k, lo, hi);
    if FreeBefore(bs, k) {
      AbsorbOrdered(Cleared(bs, k), k - 1, lo, hi);
      AbsorbTotal(Cleared(bs, k), k - 1);
      AbsorbUsed(Cleared(bs, k), k - 1);
    }
  }

  /** After the backward merge only the freed block may have a free neighbour, and only above it. */
  lemma BackedNearlyCoalesced(bs: seq<Block>, k: nat)
    requires Coalesced(bs) && k < |bs| && bs[k].used
    ensures var cs := Backed(bs, k);
      forall j :: 0 <= j < |cs| - 1 && j != BackedIndex(bs, k) ==> cs[j].used || cs[j + 1].used
  {
    var cs := Backed(bs, k);
    forall j | 0 <= j < |cs| - 1 && j != BackedIndex(bs, k)
      ensures cs[j].used || cs[j + 1].used
    {
      assert bs[j].used || bs[j + 1].used;
      if FreeBefore(bs, k) {
        if j >= k {
          assert cs[j] == bs[j + 1] && cs[j + 1] == bs[j + 2];
          assert bs[j + 1].used || bs[j + 2].used;
        }
      }
    }
  }

  lemma AbsorbCoalesces(cs: seq<Block>, i: nat)
    requires i + 1 < |cs| && !cs[i].used && !cs[i + 1].used
    requires forall j :: 0 <= j < |cs| - 1 && j != i ==> cs[j].used || cs[j + 1].used
    ensures Coalesced(Absorb(cs, i))
  {
    var ds := Absorb(cs, i);
    forall j | 0 <= j < |ds| - 1
      ensures ds[j].used || ds[j + 1].used
    {
      if j < i {
        assert cs[j].used || cs[j + 1].used;
      } else {
        assert cs[j + 1].used || cs[j + 2].used;
      }
    }
  }

  /**
   Release of a live block: exactly that block stops being live, the order and the account of bytes
   are kept, and no two neighbours are left free.
   */
  lemma ReleaseSound(bs: seq<Block>, k: nat, lo: nat, hi: nat)
    requires Ordered(bs, lo, hi) && Coalesced(bs) && k < |bs| && bs[k].used
    ensures var cs := Release(bs, k);
      Ordered(cs, lo, hi) && Coalesced(cs) && Used(cs) == Used(bs) - {bs[k]} && Total(cs) == Total(bs)
  {
    hide Absorb;
    BackedSound(bs, k, lo, hi);
    BackedNearlyCoalesced(bs, k);
    var cs, j := Backed(bs, k), BackedIndex(bs, k);
    if FreeAfter(cs, j) {
      AbsorbOrdered(cs, j, lo, hi);
      AbsorbTotal(cs, j);
      AbsorbUsed(cs, j);
      AbsorbCoalesces(cs, j);
    }
  }

  // ---------------------------------------------------------------------------
  // Every sequence of allocations and releases
  // ---------------------------------------------------------------------------

  datatype Op = Allocate(size: nat) | Free(ptr: nat)

  predicate IsLive(bs: seq<Block>, ptr: nat, k: nat) {
    k < |bs| && bs[k].used && Payload(bs[k]) == ptr
  }

  /** The index of the live block with this payload address. */
  function LiveIndex(bs: seq<Block>, ptr: nat, k: nat): (r: Option<nat>)
    requires k <= |bs|
    ensures r.Some? ==> IsLive(bs, ptr, r.value)
    ensures r.None? ==> forall j :: k <= j < |bs| ==> !IsLive(bs, ptr, j)
    decreases |bs| - k
  {
    if k == |bs| then None
    else if IsLive(bs, ptr, k) then Some(k)
    else LiveIndex(bs, ptr, k + 1)
  }

  /** A release is of a live pointer, or of NULL, which is ignored. */
  predicate Legal(bs: seq<Block>, op: Op) {
    op.Free? && op.ptr != 0 ==> LiveIndex(bs, op.ptr, 0).Some?
  }

  /** Every allocation is legal, and exactly the releases of NULL and of live payload addresses. */
  lemma LegalExactly(bs: seq<Block>, size: nat, ptr: nat)
    ensures Legal(bs, Allocate(size))
    ensures Legal(bs, Free(ptr)) <==> ptr == 0 || exists b :: b in Used(bs) && b.at + 32 == ptr
  {
    match LiveIndex(bs, ptr, 0)
    case Some(k) => assert bs[k] in Used(bs);
    case None =>
      forall b | b in Used(bs)
        ensures b.at + 32 != ptr
      {
        var j :| 0 <= j < |bs| && bs[j] == b;
        assert !IsLive(bs, ptr, j);
      }
  }

  function Apply(bs: seq<Block>, op: Op): seq<Block>
    requires Legal(bs, op)
  {
    match op
    case Allocate(size) => Malloc(bs, size).blocks
    case Free(ptr) => if ptr == 0 then bs else Release(bs, LiveIndex(bs, ptr, 0).value)
  }

  predicate AllLegal(bs: seq<Block>, ops: seq<Op>)
    decreases |ops|
  {
    ops == [] || (Legal(bs, ops[0]) && AllLegal(Apply(bs, ops[0]), ops[1..]))
  }

  function ApplyAll(bs: seq<Block>, ops: seq<Op>): seq<Block>
    requires AllLegal(bs, ops)
    decreases |ops|
  {
    if ops == [] then bs else ApplyAll(Apply(bs, ops[0]), ops[1..])
  }

  function Fresh(lo: nat, hi: nat): seq<Block>
    requires lo + HEADER <= hi
  {
    [Block(lo, hi - lo - HEADER, false)]
  }

  /** A fresh heap serves exactly the requests that leave room for one header, at the first payload. */
  lemma FreshServes(lo: nat, hi: nat, size: nat)
    requires 32 <= hi - lo
    ensures Malloc(Fresh(lo, hi), size).ptr == if size <= hi - lo - 32 then lo + 32 else 0
  {
    assert FirstFit(Fresh(lo, hi), size, 1) == None;
  }

  function Allocations(ops: seq<Op>): nat {
    if ops == [] then 0 else (if ops[0].Allocate? then 1 else 0) + Allocations(ops[1..])
  }

  lemma ApplySound(bs: seq<Block>, op: Op, lo: nat, hi: nat)
    requires Ordered(bs, lo, hi) && Coalesced(bs) && Legal(bs, op)
    ensures var cs := Apply(bs, op);
      && Ordered(cs, lo, hi) && Coalesced(cs)
      && Total(bs) - (if op.Allocate? then HEADER else 0) <= Total(cs) <= Total(bs)
  {
    hide Malloc, Release, Ordered, Coalesced, LiveIndex, Total;
    if op.Allocate? {
      MallocSound(bs, op.size, lo, hi);
    } else if op.ptr != 0 {
      ReleaseSound(bs, LiveIndex(bs, op.ptr, 0).value, lo, hi);
    }
  }

  lemma {:induction false} ApplyAllSound(bs: seq<Block>, ops: seq<Op>, lo: nat, hi: nat)
    requires Ordered(bs, lo, hi) && Coalesced(bs) && AllLegal(bs, ops)
    ensures var cs := ApplyAll(bs, ops);
      && Ordered(cs, lo, hi) && Coalesced(cs)
      && Total(bs) - HEADER * Allocations(ops) <= Total(cs) <= Total(bs)
    decreases |ops|
  {
    hide Apply, Ordered, Coalesced, Total, Legal;
    if ops != [] {
      ApplySound(bs, ops[0], lo, hi);
      ApplyAllSound(Apply(bs, ops[0]), ops[1..], lo, hi);
    }
  }

  lemma TwoBlocksLive(bs: seq<Block>)
    requires Coalesced(bs) && |bs| > 1
    ensures Used(bs) != {}
  {
    var k := if bs[0].used then 0 else 1;
    assert bs[0].used || bs[1].used;
    assert bs[k] in Used(bs);
  }

  /** In a coalesced heap with nothing live there is a single block. */
  lemma NothingLive(bs: seq<Block>, lo: nat, hi: nat)
    requires Ordered(bs, lo, hi) && Coalesced(bs) && Used(bs) == {}
    ensures |bs| == 1 && !bs[0].used
  {
    assert forall k :: 0 <= k < |bs| && bs[k].used ==> bs[k] in Used(bs);
    if |bs| > 1 {
      TwoBlocksLive(bs);
    }
  }

  /** The same from a fresh heap, for the blocks alone. */
  lemma FreshRun(ops: seq<Op>, lo: nat, hi: nat)
    requires lo + HEADER <= hi && AllLegal(Fresh(lo, hi), ops)
    ensures var cs := ApplyAll(Fresh(lo, hi), ops);
      && Ordered(cs, lo, hi) && Coalesced(cs)
      && (Used(cs) == {} ==>
            |cs| == 1 && hi - lo - HEADER * (Allocations(ops) + 1) <= cs[0].size <= hi - lo - HEADER)
  {
    var bs := Fresh(lo, hi);
    assert Fits(bs, 0, hi);
    TotalOne(bs[0]);
    ApplyAllSound(bs, ops, lo, hi);
    var cs := ApplyAll(bs, ops);
    if Used(cs) == {} {
      NothingLive(cs, lo, hi);
      assert cs == [cs[0]];
      TotalOne(cs[0]);
    }
  }
}
