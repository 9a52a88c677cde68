/**
 Runs of the allocator on the headers themselves: every sequence of allocations and releases, with the
 release as intended and with the release as written.
 */
module HeapRun {
  import opened Finite
  import opened Heap
  import opened HeapStore

  // ---------------------------------------------------------------------------
  // Allocation on the headers
  // ---------------------------------------------------------------------------

  /** The traversal: the first header from `current` on that is free and large enough, or NULL. */
  function Search(st: Store, current: nat, size: nat, steps: nat): nat
    decreases steps
  {
    if current == NULL || steps == 0 then NULL
    else if !Node(st, current).used && Node(st, current).size >= size then current
    else Search(st, Node(st, current).next, size, steps - 1)
  }

  function MallocWritten(st: Store, size: nat): Store {
    var node := Search(st, st.head, size, |st.nodes|);
    if node == NULL then st else TakeWritten(st, node, size)
  }

  lemma {:induction false} SearchFinds(st: Store, bs: seq<Block>, size: nat, k: nat, steps: nat)
    requires Linked(st, bs) && k <= |bs| && |bs| - k <= steps
    ensures Search(st, AddressOf(bs, k), size, steps) ==
      match FirstFit(bs, size, k) case None => NULL case Some(j) => bs[j].at
    decreases |bs| - k
  {
    hide Linked;
    if k < |bs| {
      NodeIs(st, bs, k);
      SearchFinds(st, bs, size, k + 1, steps - 1);
    }
  }

  function Addresses(bs: seq<Block>): (s: set<nat>)
    ensures forall k :: 0 <= k < |bs| ==> bs[k].at in s
    ensures forall a :: a in s ==> exists k :: 0 <= k < |bs| && bs[k].at == a
  {
    if bs == [] then {} else {bs[0].at} + Addresses(bs[1..])
  }

  lemma {:induction false} AddressCount(bs: seq<Block>)
    requires Distinct(bs)
    ensures |Addresses(bs)| == |bs|
    decreases |bs|
  {
    if bs != [] {
      AddressCount(bs[1..]);
      assert bs[0].at !in Addresses(bs[1..]);
    }
  }

  /** The store has a header for every block, so the traversal sees them all. */
  lemma ChainFits(st: Store, bs: seq<Block>)
    requires Linked(st, bs) && Distinct(bs)
    ensures |bs| <= |st.nodes|
  {
    AddressCount(bs);
    forall a | a in Addresses(bs)
      ensures a in st.nodes.Keys
    {
      var k :| 0 <= k < |bs| && bs[k].at == a;
      assert Placed(st, bs, k);
    }
    SubsetCard(Addresses(bs), st.nodes.Keys);
  }

  lemma MallocLinked(st: Store, bs: seq<Block>, size: nat, lo: nat, hi: nat)
    requires Linked(st, bs) && Ordered(bs, lo, hi)
    ensures Linked(MallocWritten(st, size), Malloc(bs, size).blocks)
  {
    hide Linked, Ordered, TakeWritten, Take, Search;
    OrderedDistinct(bs, lo, hi);
    ChainFits(st, bs);
    SearchFinds(st, bs, size, 0, |st.nodes|);
    HeadIs(st, bs);
    match FirstFit(bs, size, 0)
    case None =>
    case Some(k) =>
      NodeIs(st, bs, k);
      TakeLinked(st, bs, k, size, lo, hi);
  }

  // ---------------------------------------------------------------------------
  // The intended release
  // ---------------------------------------------------------------------------

  function FreshStore(lo: nat, hi: nat): Store
    requires lo + HEADER <= hi
  {
    Store(lo, map[lo := Header(hi - lo - HEADER, false, NULL, NULL)])
  }

  lemma FreshLinked(lo: nat, hi: nat)
    requires 0 < lo && lo + HEADER <= hi
    ensures Linked(FreshStore(lo, hi), Fresh(lo, hi)) && Ordered(Fresh(lo, hi), lo, hi)
  {
  }

  function ApplyIntended(st: Store, op: Op): Store {
    match op
    case Allocate(size) => MallocWritten(st, size)
    case Free(ptr) => if ptr != NULL && ptr < HEADER then st else FreeIntended(st, ptr)
  }

  function RunIntended(st: Store, ops: seq<Op>): Store
    decreases |ops|
  {
    if ops == [] then st else RunIntended(ApplyIntended(st, ops[0]), ops[1..])
  }

  lemma ApplyLinked(st: Store, bs: seq<Block>, op: Op, lo: nat, hi: nat)
    requires Linked(st, bs) && Ordered(bs, lo, hi) && Legal(bs, op)
    ensures Linked(ApplyIntended(st, op), Apply(bs, op))
  {
    hide Linked, Ordered, Release, Malloc, MallocWritten, FreeIntended, LiveIndex;
    match op
    case Allocate(size) => MallocLinked(st, bs, size, lo, hi);
    case Free(ptr) =>
      if ptr != NULL {
        OrderedDistinct(bs, lo, hi);
        FreeIntendedLinked(st, bs, LiveIndex(bs, ptr, 0).value);
      } else {
        FreeNull(st);
      }
  }

  lemma FreeNull(st: Store)
    ensures FreeIntended(st, NULL) == st && FreeWritten(st, NULL) == st
  {
  }

  lemma {:induction false} RunLinked(st: Store, bs: seq<Block>, ops: seq<Op>, lo: nat, hi: nat)
    requires Linked(st, bs) && Ordered(bs, lo, hi) && Coalesced(bs) && AllLegal(bs, ops)
    ensures Linked(RunIntended(st, ops), ApplyAll(bs, ops))
    decreases |ops|
  {
    hide Linked, Ordered, Coalesced, Apply, ApplyIntended, Legal;
    if ops != [] {
      ApplyLinked(st, bs, ops[0], lo, hi);
      ApplySound(bs, ops[0], lo, hi);
      RunLinked(ApplyIntended(st, ops[0]), Apply(bs, ops[0]), ops[1..], lo, hi);
    }
  }

  /**
   Over every sequence of allocations and releases of live pointers from a fresh heap, with the
   intended merge: the headers stay linked both ways in address order, live blocks stay disjoint and
   inside the heap, free neighbours never meet, and once everything is released one free block remains,
   short of the original size by at most a header's size for each allocation made.
   */
  lemma HeapSafe(ops: seq<Op>, lo: nat, hi: nat)
    requires 0 < lo && lo + HEADER <= hi && AllLegal(Fresh(lo, hi), ops)
    ensures var cs := ApplyAll(Fresh(lo, hi), ops);
      && Linked(RunIntended(FreshStore(lo, hi), ops), cs)
      && Ordered(cs, lo, hi) && Coalesced(cs)
      && (forall b, c :: b in Used(cs) && c in Used(cs) && b != c ==> Apart(b, c))
      && (forall b :: b in Used(cs) ==> Within(b, lo, hi))
      && (forall b, c :: b in Used(cs) && c in cs ==> Clear(b, c))
      && (Used(cs) == {} ==>
            |cs| == 1 && hi - lo - HEADER * (Allocations(ops) + 1) <= cs[0].size <= hi - lo - HEADER)
  {
    hide Linked, Ordered, Coalesced, ApplyAll, AllLegal;
    FreshLinked(lo, hi);
    FreshCoalesced(lo, hi);
    RunLinked(FreshStore(lo, hi), Fresh(lo, hi), ops, lo, hi);
    FreshRun(ops, lo, hi);
    LiveDisjoint(ApplyAll(Fresh(lo, hi), ops), lo, hi);
  }

  lemma FreshCoalesced(lo: nat, hi: nat)
    requires lo + HEADER <= hi
    ensures Coalesced(Fresh(lo, hi))
  {
  }

  // ---------------------------------------------------------------------------
  // The release as written
  // ---------------------------------------------------------------------------

  /** Every release is of NULL, or of a live pointer whose release as written keeps the heap. */
  predicate Careful(bs: seq<Block>, op: Op, hi: nat) {
    Legal(bs, op) && (op.Free? && op.ptr != NULL ==> FreeKeeps(bs, LiveIndex(bs, op.ptr, 0).value, hi))
  }

  function ApplyFreed(bs: seq<Block>, op: Op): seq<Block>
    requires Legal(bs, op)
  {
    match op
    case Allocate(size) => Malloc(bs, size).blocks
    case Free(ptr) => if ptr == NULL then bs else Freed(bs, LiveIndex(bs, ptr, 0).value)
  }

  predicate AllCareful(bs: seq<Block>, ops: seq<Op>, hi: nat)
    decreases |ops|
  {
    ops == [] || (Careful(bs, ops[0], hi) && AllCareful(ApplyFreed(bs, ops[0]), ops[1..], hi))
  }

  function FreedAll(bs: seq<Block>, ops: seq<Op>, hi: nat): seq<Block>
    requires AllCareful(bs, ops, hi)
    decreases |ops|
  {
    if ops == [] then bs else FreedAll(ApplyFreed(bs, ops[0]), ops[1..], hi)
  }

  function ApplyWritten(st: Store, op: Op): Store {
    match op
    case Allocate(size) => MallocWritten(st, size)
    case Free(ptr) => if ptr != NULL && ptr < HEADER then st else FreeWritten(st, ptr)
  }

  function RunWritten(st: Store, ops: seq<Op>): Store
    decreases |ops|
  {
    if ops == [] then st else RunWritten(ApplyWritten(st, ops[0]), ops[1..])
  }

  lemma WrittenStep(st: Store, bs: seq<Block>, op: Op, lo: nat, hi: nat)
    requires Linked(st, bs) && Ordered(bs, lo, hi) && Coalesced(bs) && Careful(bs, op, hi)
    ensures var cs := ApplyFreed(bs, op);
      Linked(ApplyWritten(st, op), cs) && Ordered(cs, lo, hi) && Coalesced(cs)
  {
    hide Linked, Ordered, Coalesced, Freed, Malloc, MallocWritten, FreeWritten, LiveIndex, FreeKeeps;
    match op
    case Allocate(size) =>
      MallocLinked(st, bs, size, lo, hi);
      MallocSound(bs, size, lo, hi);
    case Free(ptr) =>
      if ptr != NULL {
        FreeWrittenSound(st, bs, LiveIndex(bs, ptr, 0).value, lo, hi);
      } else {
        FreeNull(st);
      }
  }

  lemma {:induction false} WrittenRun(st: Store, bs: seq<Block>, ops: seq<Op>, lo: nat, hi: nat)
    requires Linked(st, bs) && Ordered(bs, lo, hi) && Coalesced(bs) && AllCareful(bs, ops, hi)
    ensures var cs := FreedAll(bs, ops, hi);
      Linked(RunWritten(st, ops), cs) && Ordered(cs, lo, hi) && Coalesced(cs)
    decreases |ops|
  {
    hide Linked, Ordered, Coalesced, ApplyFreed, ApplyWritten, Legal, FreeKeeps;
    if ops != [] {
      WrittenStep(st, bs, ops[0], lo, hi);
      WrittenRun(ApplyWritten(st, ops[0]), ApplyFreed(bs, ops[0]), ops[1..], lo, hi);
    }
  }

  /**
   The allocator as written, over every sequence whose releases keep the heap: links, order, disjoint
   live blocks and no free neighbours; and the next release of a live block keeps all that exactly when
   its condition holds.
   */
  lemma CarefulSafe(ops: seq<Op>, lo: nat, hi: nat)
    requires 0 < lo && lo + HEADER <= hi && AllCareful(Fresh(lo, hi), ops, hi)
    ensures var st, cs := RunWritten(FreshStore(lo, hi), ops), FreedAll(Fresh(lo, hi), ops, hi);
      && Linked(st, cs) && Ordered(cs, lo, hi) && Coalesced(cs)
      && (forall b, c :: b in Used(cs) && c in Used(cs) && b != c ==> Apart(b, c))
      && (forall b :: b in Used(cs) ==> Within(b, lo, hi))
      && (forall b, c :: b in Used(cs) && c in cs ==> Clear(b, c))
      && (forall k :: 0 <= k < |cs| && cs[k].used ==>
            (Sound(FreeWritten(st, Payload(cs[k])), lo, hi) <==> FreeKeeps(cs, k, hi)))
  {
    hide Linked, Ordered, Coalesced, FreedAll, RunWritten, AllCareful, FreeWritten, FreeKeeps, Sound;
    FreshLinked(lo, hi);
    FreshCoalesced(lo, hi);
    WrittenRun(FreshStore(lo, hi), Fresh(lo, hi), ops, lo, hi);
    var st, cs := RunWritten(FreshStore(lo, hi), ops), FreedAll(Fresh(lo, hi), ops, hi);
    LiveDisjoint(cs, lo, hi);
    forall k | 0 <= k < |cs| && cs[k].used
      ensures Sound(FreeWritten(st, Payload(cs[k])), lo, hi) <==> FreeKeeps(cs, k, hi)
    {
      FreeWrittenSound(st, cs, k, lo, hi);
    }
  }
}
