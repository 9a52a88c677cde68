/**
 The allocator's headers, as the C code reads and writes them.

 Blocks are held in a table of headers keyed by address. Allocation follows module `Heap`. Release is
 as written: its forward merge adds the lower block to the upper one and leaves `head` where it is,
 and it is shown exactly when that keeps the heap well formed.
 */
module HeapStore {
  import opened Heap
  import opened Options

  datatype Header = Header(size: nat, used: bool, next: nat, prev: nat)
  datatype Store = Store(head: nat, nodes: map<nat, Header>)

  const NULL: nat := 0

  function AddressOf(bs: seq<Block>, k: int): nat {
    if 0 <= k < |bs| then bs[k].at else NULL
  }

  function HeaderOf(bs: seq<Block>, k: nat): Header
    requires k < |bs|
  {
    Header(bs[k].size, bs[k].used, AddressOf(bs, k + 1), AddressOf(bs, k - 1))
  }

  predicate Placed(st: Store, bs: seq<Block>, k: nat)
    requires k < |bs|
  {
    bs[k].at != NULL && bs[k].at in st.nodes && st.nodes[bs[k].at] == HeaderOf(bs, k)
  }

  /** The chain from `head` consists of exactly these blocks, linked both ways. */
  ghost predicate Linked(st: Store, bs: seq<Block>) {
    st.head == AddressOf(bs, 0) && forall k :: 0 <= k < |bs| ==> Placed(st, bs, k)
  }

  /** The store holds some well-formed heap between lo and hi. */
  ghost predicate Sound(st: Store, lo: nat, hi: nat) {
    exists bs :: Linked(st, bs) && Ordered(bs, lo, hi)
  }

  ghost predicate Distinct(bs: seq<Block>) {
    forall i, j :: 0 <= i < j < |bs| ==> bs[i].at != bs[j].at
  }

  lemma OrderedDistinct(bs: seq<Block>, lo: nat, hi: nat)
    requires Ordered(bs, lo, hi)
    ensures Distinct(bs)
  {
    forall i, j | 0 <= i < j < |bs|
      ensures bs[i].at != bs[j].at
    {
      Ascending(bs, lo, hi, i, j);
    }
  }

  lemma {:induction false} SamePrefix(st: Store, bs: seq<Block>, cs: seq<Block>, n: nat)
    requires Linked(st, bs) && Linked(st, cs) && n <= |bs|
    ensures n <= |cs| && bs[..n] == cs[..n]
    decreases n
  {
    if n > 0 {
      SamePrefix(st, bs, cs, n - 1);
      assert Placed(st, bs, n - 1);
      if n > 1 {
        assert Placed(st, bs, n - 2) && Placed(st, cs, n - 2);
        assert bs[n - 2] == bs[..n - 1][n - 2] == cs[..n - 1][n - 2];
      }
      assert AddressOf(cs, n - 1) == bs[n - 1].at;
      assert Placed(st, cs, n - 1);
      assert bs[..n] == bs[..n - 1] + [bs[n - 1]];
      assert cs[..n] == cs[..n - 1] + [cs[n - 1]];
    }
  }

  /** A store determines its chain. */
  lemma ChainUnique(st: Store, bs: seq<Block>, cs: seq<Block>)
    requires Linked(st, bs) && Linked(st, cs)
    ensures bs == cs
  {
    SamePrefix(st, bs, cs, |bs|);
    SamePrefix(st, cs, bs, |cs|);
    assert bs == bs[..|bs|] && cs == cs[..|cs|];
  }

  // ---------------------------------------------------------------------------
  // Release as written
  // ---------------------------------------------------------------------------

  function Node(st: Store, a: nat): Header {
    if a in st.nodes then st.nodes[a] else Header(0, true, NULL, NULL)
  }

  function Write(st: Store, a: nat, h: Header): Store {
    st.(nodes := st.nodes[a := h])
  }

  function SetUsed(st: Store, a: nat, used: bool): Store { Write(st, a, Node(st, a).(used := used)) }
  function SetSize(st: Store, a: nat, size: nat): Store { Write(st, a, Node(st, a).(size := size)) }
  function SetNext(st: Store, a: nat, next: nat): Store { Write(st, a, Node(st, a).(next := next)) }
  function SetPrev(st: Store, a: nat, prev: nat): Store { Write(st, a, Node(st, a).(prev := prev)) }

  function IsFree(st: Store, a: nat): bool {
    a != NULL && !Node(st, a).used
  }

  /** The lower neighbour takes over the node's successor and size. */
  function MergeBack(st: Store, node: nat): Store {
    var prev, next := Node(st, node).prev, Node(st, node).next;
    var s1 := SetNext(st, prev, next);
    var s2 := if next != NULL then SetPrev(s1, next, prev) else s1;
    SetSize(s2, prev, Node(s2, prev).size + Node(s2, node).size + HEADER)
  }

  /** The forward merge as written: the upper neighbour takes over the node's predecessor and size. */
  function MergeForward(st: Store, node: nat): Store {
    var prev, next := Node(st, node).prev, Node(st, node).next;
    var s1 := SetPrev(st, next, prev);
    var s2 := if prev != NULL then SetNext(s1, prev, next) else s1;
    SetSize(s2, next, Node(s2, next).size + Node(s2, node).size + HEADER)
  }

  function FreeWritten(st: Store, ptr: nat): Store
    requires ptr == NULL || HEADER <= ptr
  {
    if ptr == NULL then st
    else
      var node := ptr - HEADER;
      var s1 := SetUsed(st, node, false);
      var back := IsFree(s1, Node(s1, node).prev);
      var s2 := if back then MergeBack(s1, node) else s1;
      var node' := if back then Node(s1, node).prev else node;
      if IsFree(s2, Node(s2, node').next) then MergeForward(s2, node') else s2
  }

  /**
   Release with the forward merge as intended: the same writes as the backward merge, made for the
   upper neighbour, so that the lower block absorbs it.
   */
  function FreeIntended(st: Store, ptr: nat): Store
    requires ptr == NULL || HEADER <= ptr
  {
    if ptr == NULL then st
    else
      var node := ptr - HEADER;
      var s1 := SetUsed(st, node, false);
      var back := IsFree(s1, Node(s1, node).prev);
      var s2 := if back then MergeBack(s1, node) else s1;
      var next := Node(s2, if back then Node(s1, node).prev else node).next;
      if IsFree(s2, next) then MergeBack(s2, next) else s2
  }

  // ---------------------------------------------------------------------------
  // What each write does to the chain
  // ---------------------------------------------------------------------------

  lemma NodeIs(st: Store, bs: seq<Block>, k: nat)
    requires Linked(st, bs) && k < |bs|
    ensures bs[k].at != NULL && Node(st, bs[k].at) == HeaderOf(bs, k)
  {
    assert Placed(st, bs, k);
  }

  lemma ClearedLinked(st: Store, bs: seq<Block>, k: nat)
    requires Linked(st, bs) && Distinct(bs) && k < |bs|
    ensures Linked(SetUsed(st, bs[k].at, false), Cleared(bs, k)) && Distinct(Cleared(bs, k))
  {
    var st', cs := SetUsed(st, bs[k].at, false), Cleared(bs, k);
    NodeIs(st, bs, k);
    forall j | 0 <= j < |cs|
      ensures Placed(st', cs, j)
    {
      assert Placed(st, bs, j);
    }
  }

  lemma MergeBackLinked(st: Store, bs: seq<Block>, k: nat)
    requires Linked(st, bs) && Distinct(bs) && 0 < k < |bs|
    ensures Linked(MergeBack(st, bs[k].at), Absorb(bs, k - 1)) && Distinct(Absorb(bs, k - 1))
  {
    var st', cs := MergeBack(st, bs[k].at), Absorb(bs, k - 1);
    NodeIs(st, bs, k);
    NodeIs(st, bs, k - 1);
    if k + 1 < |bs| {
      NodeIs(st, bs, k + 1);
    }
    forall j | 0 <= j < |cs|
      ensures Placed(st', cs, j)
    {
      assert Placed(st, bs, if j < k then j else j + 1);
    }
  }

  /** Block k absorbed by its upper neighbour, which stays where it is. */
  function AbsorbUp(bs: seq<Block>, k: nat): seq<Block>
    requires k + 1 < |bs|
  {
    bs[..k] + [bs[k + 1].(size := bs[k + 1].size + bs[k].size + HEADER)] + bs[k + 2..]
  }

  lemma MergeForwardLinked(st: Store, bs: seq<Block>, k: nat)
    requires Linked(st, bs) && Distinct(bs) && 0 < k < |bs| - 1
    ensures Linked(MergeForward(st, bs[k].at), AbsorbUp(bs, k))
  {
    var st', cs := MergeForward(st, bs[k].at), AbsorbUp(bs, k);
    NodeIs(st, bs, k);
    NodeIs(st, bs, k - 1);
    NodeIs(st, bs, k + 1);
    forall j | 0 <= j < |cs|
      ensures Placed(st', cs, j)
    {
      assert Placed(st, bs, if j < k then j else j + 1);
    }
  }

  /** Merging the first block forward leaves no chain at all: its successor no longer points back. */
  lemma MergeForwardFirst(st: Store, bs: seq<Block>, cs: seq<Block>)
    requires Linked(st, bs) && Distinct(bs) && |bs| > 1
    ensures !Linked(MergeForward(st, bs[0].at), cs)
  {
    var st' := MergeForward(st, bs[0].at);
    NodeIs(st, bs, 0);
    NodeIs(st, bs, 1);
    if Linked(st', cs) {
      assert AddressOf(cs, 0) == bs[0].at;
      NodeIs(st', cs, 0);
      assert AddressOf(cs, 1) == bs[1].at;
      NodeIs(st', cs, 1);
      assert false;
    }
  }

  /** The upper neighbour has room above it for what the forward merge adds to it. */
  predicate Room(bs: seq<Block>, k: nat, hi: nat)
    requires k + 1 < |bs|
  {
    End(bs[k + 1]) + HEADER + bs[k].size <= Limit(bs, k + 1, hi)
  }

  lemma AbsorbUpOrdered(bs: seq<Block>, k: nat, lo: nat, hi: nat)
    requires Ordered(bs, lo, hi) && 0 < k < |bs| - 1
    ensures Ordered(AbsorbUp(bs, k), lo, hi) <==> Room(bs, k, hi)
  {
    var cs := AbsorbUp(bs, k);
    forall j | 0 <= j < |cs| && j != k
      ensures Fits(cs, j, hi)
    {
      assert Fits(bs, k, hi);
      assert Fits(bs, if j < k then j else j + 1, hi);
    }
    assert Fits(cs, k, hi) <==> Room(bs, k, hi);
  }

  /**
   Exactly when releasing block k as written keeps the heap: the block above it is not free, or the
   forward merge has a block below to link from and the upper block has room to grow.
   */
  predicate FreeKeeps(bs: seq<Block>, k: nat, hi: nat)
    requires k < |bs|
  {
    !FreeAfter(bs, k) || (BackedIndex(bs, k) > 0 && Room(Backed(bs, k), BackedIndex(bs, k), hi))
  }

  /** The blocks after a release as written that keeps the heap. */
  function Freed(bs: seq<Block>, k: nat): seq<Block>
    requires k < |bs|
  {
    if FreeAfter(bs, k) then AbsorbUp(Backed(bs, k), BackedIndex(bs, k)) else Release(bs, k)
  }

  lemma FreeAfterBacked(bs: seq<Block>, k: nat)
    requires k < |bs|
    ensures FreeAfter(Backed(bs, k), BackedIndex(bs, k)) <==> FreeAfter(bs, k)
  {
  }

  lemma IsFreeIs(st: Store, bs: seq<Block>, k: int)
    requires Linked(st, bs) && -1 <= k <= |bs|
    ensures IsFree(st, AddressOf(bs, k)) <==> 0 <= k < |bs| && !bs[k].used
  {
    if 0 <= k < |bs| {
      NodeIs(st, bs, k);
    }
  }

  /** The store between the two merges. */
  function HalfFreed(st: Store, node: nat): Store {
    var s1 := SetUsed(st, node, false);
    if IsFree(s1, Node(s1, node).prev) then MergeBack(s1, node) else s1
  }

  lemma HalfFreedLinked(st: Store, bs: seq<Block>, k: nat)
    requires Linked(st, bs) && Distinct(bs) && k < |bs|
    ensures Linked(HalfFreed(st, bs[k].at), Backed(bs, k)) && Distinct(Backed(bs, k))
  {
    hide SetUsed, MergeBack, IsFree, Linked, Distinct, Absorb;
    var s1, cs := SetUsed(st, bs[k].at, false), Cleared(bs, k);
    ClearedLinked(st, bs, k);
    NodeIs(s1, cs, k);
    IsFreeIs(s1, cs, k - 1);
    if FreeBefore(bs, k) {
      MergeBackLinked(s1, cs, k);
    }
  }

  lemma FreeWrittenIs(st: Store, bs: seq<Block>, k: nat)
    requires Linked(st, bs) && Distinct(bs) && k < |bs|
    ensures var s2, a := HalfFreed(st, bs[k].at), Backed(bs, k)[BackedIndex(bs, k)].at;
      FreeWritten(st, Payload(bs[k])) == if FreeAfter(bs, k) then MergeForward(s2, a) else s2
  {
    hide SetUsed, MergeBack, MergeForward, IsFree, Linked, Distinct;
    var s1, cs := SetUsed(st, bs[k].at, false), Cleared(bs, k);
    ClearedLinked(st, bs, k);
    NodeIs(s1, cs, k);
    IsFreeIs(s1, cs, k - 1);
    HalfFreedLinked(st, bs, k);
    var s2, ds, j := HalfFreed(st, bs[k].at), Backed(bs, k), BackedIndex(bs, k);
    NodeIs(s2, ds, j);
    IsFreeIs(s2, ds, j + 1);
    FreeAfterBacked(bs, k);
  }

  /** The intended release relinks the chain both ways to the released blocks. */
  lemma FreeIntendedLinked(st: Store, bs: seq<Block>, k: nat)
    requires Linked(st, bs) && Distinct(bs) && k < |bs|
    ensures Linked(FreeIntended(st, Payload(bs[k])), Release(bs, k))
  {
    hide SetUsed, MergeBack, IsFree, Linked, Distinct, Absorb;
    var s1, cs := SetUsed(st, bs[k].at, false), Cleared(bs, k);
    ClearedLinked(st, bs, k);
    NodeIs(s1, cs, k);
    IsFreeIs(s1, cs, k - 1);
    HalfFreedLinked(st, bs, k);
    var s2, ds, j := HalfFreed(st, bs[k].at), Backed(bs, k), BackedIndex(bs, k);
    BackedPlace(st, bs, k);
    NodeIs(s2, ds, j);
    IsFreeIs(s2, ds, j + 1);
    if FreeAfter(ds, j) {
      MergeBackLinked(s2, ds, j + 1);
    }
  }

  lemma AbsorbUpKeeps(bs: seq<Block>, k: nat)
    requires k + 1 < |bs| && !bs[k].used && !bs[k + 1].used
    requires forall j :: 0 <= j < |bs| - 1 && j != k ==> bs[j].used || bs[j + 1].used
    ensures Used(AbsorbUp(bs, k)) == Used(bs) && Coalesced(AbsorbUp(bs, k))
  {
    var cs := AbsorbUp(bs, k);
    forall b | b in Used(bs)
      ensures b in cs
    {
      var i :| 0 <= i < |bs| && bs[i] == b;
      assert i < k ==> cs[i] == b;
      assert i > k + 1 ==> cs[i - 1] == b;
    }
    forall j | 0 <= j < |cs| - 1
      ensures cs[j].used || cs[j + 1].used
    {
      assert j < k ==> bs[j].used || bs[j + 1].used;
      assert j >= k ==> bs[j + 1].used || bs[j + 2].used;
    }
  }

  /** A release as written that keeps the heap ends the life of exactly the block released. */
  lemma FreedKeeps(bs: seq<Block>, k: nat, lo: nat, hi: nat)
    requires Ordered(bs, lo, hi) && Coalesced(bs) && k < |bs| && bs[k].used
    ensures Used(Freed(bs, k)) == Used(bs) - {bs[k]} && Coalesced(Freed(bs, k))
  {
    hide AbsorbUp, Backed, Release, Ordered, Coalesced;
    FreeAfterBacked(bs, k);
    if FreeAfter(bs, k) {
      BackedSound(bs, k, lo, hi);
      BackedNearlyCoalesced(bs, k);
      AbsorbUpKeeps(Backed(bs, k), BackedIndex(bs, k));
    } else {
      ReleaseSound(bs, k, lo, hi);
    }
  }

  /** Release as written leaves a well-formed heap exactly when `FreeKeeps` holds beforehand. */
  lemma FreeWrittenSound(st: Store, bs: seq<Block>, k: nat, lo: nat, hi: nat)
    requires Linked(st, bs) && Ordered(bs, lo, hi) && k < |bs| && bs[k].used
    ensures Sound(FreeWritten(st, Payload(bs[k])), lo, hi) <==> FreeKeeps(bs, k, hi)
    ensures FreeKeeps(bs, k, hi) ==>
      Linked(FreeWritten(st, Payload(bs[k])), Freed(bs, k)) && Ordered(Freed(bs, k), lo, hi)
    ensures Coalesced(bs) ==> Used(Freed(bs, k)) == Used(bs) - {bs[k]} && Coalesced(Freed(bs, k))
  {
    hide FreeWritten, Linked, Distinct, Ordered, Backed, HalfFreed, MergeForward, AbsorbUp, Room, Coalesced;
    if Coalesced(bs) {
      FreedKeeps(bs, k, lo, hi);
    }
    OrderedDistinct(bs, lo, hi);
    FreeWrittenIs(st, bs, k);
    HalfFreedLinked(st, bs, k);
    BackedSound(bs, k, lo, hi);
    FreeAfterBacked(bs, k);
    var st' := FreeWritten(st, Payload(bs[k]));
    var s2, ds, j := HalfFreed(st, bs[k].at), Backed(bs, k), BackedIndex(bs, k);
    if !FreeAfter(bs, k) {
      assert Linked(st', ds) && Ordered(ds, lo, hi);
    } else if j == 0 {
      forall cs | Linked(st', cs)
        ensures false
      {
        MergeForwardFirst(s2, ds, cs);
      }
    } else {
      MergeForwardLinked(s2, ds, j);
      AbsorbUpOrdered(ds, j, lo, hi);
      forall cs | Linked(st', cs)
        ensures cs == AbsorbUp(ds, j)
      {
        ChainUnique(st', cs, AbsorbUp(ds, j));
      }
    }
  }

  // ---------------------------------------------------------------------------
  // Allocation
  // ---------------------------------------------------------------------------

  /** A new header for what is left over, linked in above the node. */
  function SplitOff(st: Store, node: nat, size: nat): Store {
    var n := Node(st, node);
    var rest := node + HEADER + size;
    var left := if n.size > size + HEADER then n.size - size - HEADER else 0;
    var s1 := Write(st, rest, Header(left, false, n.next, node));
    var s2 := if n.next != NULL then SetPrev(s1, n.next, rest) else s1;
    SetNext(s2, node, rest)
  }

  function TakeWritten(st: Store, node: nat, size: nat): Store {
    var s1 := if Node(st, node).size > size + HEADER then SplitOff(st, node, size) else st;
    SetUsed(SetSize(s1, node, size), node, true)
  }

  lemma RestIsNew(bs: seq<Block>, k: nat, size: nat, lo: nat, hi: nat)
    requires Ordered(bs, lo, hi) && k < |bs| && Splits(bs[k], size)
    ensures forall j :: 0 <= j < |bs| ==> bs[j].at != Rest(bs[k], size).at
  {
    forall j | 0 <= j < |bs|
      ensures bs[j].at != Rest(bs[k], size).at
    {
      if j < k {
        Ascending(bs, lo, hi, j, k);
      } else if j > k {
        Ascending(bs, lo, hi, k, j);
      }
    }
  }

  /** Block k with a new free block above it, before its own size is cut down. */
  function WithRest(bs: seq<Block>, k: nat, size: nat): seq<Block>
    requires k < |bs| && Splits(bs[k], size)
  {
    bs[..k + 1] + [Rest(bs[k], size)] + bs[k + 1..]
  }

  lemma WithRestDistinct(bs: seq<Block>, k: nat, size: nat)
    requires Distinct(bs) && k < |bs| && Splits(bs[k], size)
    requires forall j :: 0 <= j < |bs| ==> bs[j].at != Rest(bs[k], size).at
    ensures Distinct(WithRest(bs, k, size))
  {
  }

  lemma SplitLinked(st: Store, bs: seq<Block>, k: nat, size: nat)
    requires Linked(st, bs) && Distinct(bs) && k < |bs| && Splits(bs[k], size)
    requires forall j :: 0 <= j < |bs| ==> bs[j].at != Rest(bs[k], size).at
    ensures Linked(SplitOff(st, bs[k].at, size), WithRest(bs, k, size))
  {
    var st', cs := SplitOff(st, bs[k].at, size), WithRest(bs, k, size);
    assert cs[k + 1] == Rest(bs[k], size);
    NodeIs(st, bs, k);
    if k + 1 < |bs| {
      NodeIs(st, bs, k + 1);
    }
    forall j | 0 <= j < |cs|
      ensures Placed(st', cs, j)
    {
      if j != k + 1 {
        assert Placed(st, bs, if j <= k then j else j - 1);
      }
    }
  }

  lemma MarkLinked(st: Store, bs: seq<Block>, k: nat, size: nat)
    requires Linked(st, bs) && Distinct(bs) && k < |bs|
    ensures Linked(SetUsed(SetSize(st, bs[k].at, size), bs[k].at, true), bs[k := Block(bs[k].at, size, true)])
  {
    var st', cs := SetUsed(SetSize(st, bs[k].at, size), bs[k].at, true), bs[k := Block(bs[k].at, size, true)];
    NodeIs(st, bs, k);
    forall j | 0 <= j < |cs|
      ensures Placed(st', cs, j)
    {
      assert Placed(st, bs, j);
    }
  }

  lemma TakeLinked(st: Store, bs: seq<Block>, k: nat, size: nat, lo: nat, hi: nat)
    requires Linked(st, bs) && Ordered(bs, lo, hi) && k < |bs| && Suits(bs[k], size)
    ensures Linked(TakeWritten(st, bs[k].at, size), Take(bs, k, size))
  {
    OrderedDistinct(bs, lo, hi);
    NodeIs(st, bs, k);
    var taken := Block(bs[k].at, size, true);
    hide Linked, Ordered, Distinct, SetUsed, SetSize, SplitOff;
    if Splits(bs[k], size) {
      RestIsNew(bs, k, size, lo, hi);
      SplitLinked(st, bs, k, size);
      WithRestDistinct(bs, k, size);
      MarkLinked(SplitOff(st, bs[k].at, size), WithRest(bs, k, size), k, size);
      assert WithRest(bs, k, size)[k := taken] == Take(bs, k, size);
    } else {
      MarkLinked(st, bs, k, size);
      assert bs[k := taken] == Take(bs, k, size);
    }
  }

  lemma FirstFitIs(bs: seq<Block>, size: nat, k: nat)
    requires k < |bs| && Suits(bs[k], size) && forall j :: 0 <= j < k ==> !Suits(bs[j], size)
    ensures FirstFit(bs, size, 0) == Some(k)
  {
  }

  predicate Closed(st: Store, a: nat) {
    && a in st.nodes
    && (st.nodes[a].next != NULL ==> st.nodes[a].next in st.nodes)
    && (st.nodes[a].prev != NULL ==> st.nodes[a].prev in st.nodes)
  }

  /** A linked block and its neighbours have headers. */
  lemma Neighbours(st: Store, bs: seq<Block>, k: nat)
    requires Linked(st, bs) && k < |bs|
    ensures Closed(st, bs[k].at)
  {
    assert Placed(st, bs, k);
    assert k > 0 ==> Placed(st, bs, k - 1);
    assert k + 1 < |bs| ==> Placed(st, bs, k + 1);
  }

  lemma HalfNeighbours(st: Store, bs: seq<Block>, k: nat, lo: nat, hi: nat)
    requires Linked(st, bs) && Ordered(bs, lo, hi) && k < |bs|
    ensures Closed(HalfFreed(st, bs[k].at), Backed(bs, k)[BackedIndex(bs, k)].at)
    ensures var s1, node := SetUsed(st, bs[k].at, false), bs[k].at;
      (if IsFree(s1, Node(s1, node).prev) then Node(s1, node).prev else node) == Backed(bs, k)[BackedIndex(bs, k)].at
  {
    hide HalfFreed, SetUsed, Linked, Backed;
    OrderedDistinct(bs, lo, hi);
    HalfFreedLinked(st, bs, k);
    Neighbours(HalfFreed(st, bs[k].at), Backed(bs, k), BackedIndex(bs, k));
    BackedPlace(st, bs, k);
  }

  lemma BackedPlace(st: Store, bs: seq<Block>, k: nat)
    requires Linked(st, bs) && Distinct(bs) && k < |bs|
    ensures var s1, node := SetUsed(st, bs[k].at, false), bs[k].at;
      (if IsFree(s1, Node(s1, node).prev) then Node(s1, node).prev else node) == Backed(bs, k)[BackedIndex(bs, k)].at
  {
    hide SetUsed, IsFree, Linked, Distinct;
    var s1, cs := SetUsed(st, bs[k].at, false), Cleared(bs, k);
    ClearedLinked(st, bs, k);
    NodeIs(s1, cs, k);
    IsFreeIs(s1, cs, k - 1);
  }

  // ---------------------------------------------------------------------------
  // A run that leaves the heap
  // ---------------------------------------------------------------------------

  /**
   The first allocation of a fresh heap, when it splits the heap, is lost by its own release: the
   store is no longer well formed, and the head of the list is followed by a free block as large as
   the whole heap that starts size + 32 bytes into it.
   */
  lemma FirstFreeBreaks(lo: nat, hi: nat, size: nat, st: Store)
    requires 0 < lo && lo + 2 * HEADER + size < hi
    requires Linked(st, Malloc(Fresh(lo, hi), size).blocks)
    ensures Malloc(Fresh(lo, hi), size).ptr == lo + HEADER
    ensures var st' := FreeWritten(st, lo + HEADER);
      && !Sound(st', lo, hi)
      && st'.head == lo && Node(st', lo) == Header(size, false, lo + HEADER + size, NULL)
      && Node(st', lo + HEADER + size) == Header(hi - lo - HEADER, false, NULL, NULL)
  {
    hide Malloc, FreeWritten, Linked, Ordered, HalfFreed, FreeKeeps;
    var cs := FirstBlocks(lo, hi, size);
    FirstMalloc(lo, hi, size);
    OrderedDistinct(cs, lo, hi);
    FreeWrittenSound(st, cs, 0, lo, hi);
    assert !FreeKeeps(cs, 0, hi) by {
      FirstFreeUnsafe(lo, hi, size);
    }
    FreeWrittenIs(st, cs, 0);
    HalfFreedLinked(st, cs, 0);
    var s2, ds := HalfFreed(st, lo), Cleared(cs, 0);
    NodeIs(s2, ds, 0);
    NodeIs(s2, ds, 1);
    assert s2.head == lo by {
      HeadIs(s2, ds);
    }
  }

  lemma HeadIs(st: Store, bs: seq<Block>)
    requires Linked(st, bs)
    ensures st.head == AddressOf(bs, 0)
  {
  }

  /** A fresh heap after an allocation that splits it. */
  function FirstBlocks(lo: nat, hi: nat, size: nat): seq<Block>
    requires lo + 2 * HEADER + size < hi
  {
    [Block(lo, size, true), Block(lo + HEADER + size, hi - lo - 2 * HEADER - size, false)]
  }

  lemma FirstMalloc(lo: nat, hi: nat, size: nat)
    requires 0 < lo && lo + 2 * HEADER + size < hi
    ensures Malloc(Fresh(lo, hi), size) == Allocation(lo + HEADER, FirstBlocks(lo, hi, size))
    ensures Ordered(FirstBlocks(lo, hi, size), lo, hi)
  {
    var bs := Fresh(lo, hi);
    assert FirstFit(bs, size, 0) == Some(0);
    assert Take(bs, 0, size) == FirstBlocks(lo, hi, size);
  }

  lemma FirstFreeUnsafe(lo: nat, hi: nat, size: nat)
    requires lo + 2 * HEADER + size < hi
    ensures !FreeKeeps(FirstBlocks(lo, hi, size), 0, hi)
  {
  }

  // ---------------------------------------------------------------------------
  // The allocator
  // ---------------------------------------------------------------------------

  /** The heap inside its buffer; `blocks` is the chain it represents. */
  class Manager {
    const lo: nat
    const hi: nat
    var head: nat
    var nodes: map<nat, Header>
    ghost var blocks: seq<Block>

    function State(): Store
      reads this
    {
      Store(head, nodes)
    }

    ghost predicate Valid()
      reads this
    {
      lo > 0 && Linked(State(), blocks) && Ordered(blocks, lo, hi)
    }

    constructor (buffer: nat, size: nat)
      requires buffer > 0 && size >= HEADER
      ensures Valid() && lo == buffer && hi == buffer + size && blocks == Fresh(lo, hi)
    {
      lo := buffer;
      hi := buffer + size;
      head := buffer;
      nodes := map[buffer := Header(size - HEADER, false, NULL, NULL)];
      blocks := Fresh(buffer, buffer + size);
    }

    /** First fit; NULL when no block is large enough. */
    method Malloc(size: nat) returns (ptr: nat)
      requires Valid()
      modifies this
      ensures Valid()
      ensures Heap.Allocation(ptr, blocks) == Heap.Malloc(old(blocks), size)
    {
      var current := head;
      ghost var k: nat := 0;
      while current != NULL
        invariant k <= |blocks| && current == AddressOf(blocks, k)
        invariant Valid() && blocks == old(blocks) && State() == old(State())
        invariant forall j :: 0 <= j < k ==> !Suits(blocks[j], size)
        decreases |blocks| - k
      {
        assert Placed(State(), blocks, k);
        if !nodes[current].used && nodes[current].size >= size {
          FirstFitIs(blocks, size, k);
          Neighbours(State(), blocks, k);
          TakeOrdered(blocks, k, size, lo, hi);
          TakeLinked(State(), blocks, k, size, lo, hi);
          blocks := Take(blocks, k, size);
          Allocate(current, size);
          return current + HEADER;
        }
        current := nodes[current].next;
        k := k + 1;
      }
      assert k < |blocks| ==> Placed(State(), blocks, k);
      return NULL;
    }

    /** The block at `current` marked used, what is left over split off. */
    method Allocate(current: nat, size: nat)
      requires current in nodes && nodes[current].size >= size
      requires nodes[current].next != NULL ==> nodes[current].next in nodes
      modifies this`nodes
      ensures State() == TakeWritten(old(State()), current, size)
    {
      if nodes[current].size > size + HEADER {
        var rest := current + HEADER + size;
        var next := nodes[current].next;
        nodes := nodes[rest := Header(nodes[current].size - size - HEADER, false, next, current)];
        if next != NULL {
          nodes := nodes[next := nodes[next].(prev := rest)];
        }
        nodes := nodes[current := nodes[current].(next := rest)];
      }
      nodes := nodes[current := nodes[current].(size := size)];
      nodes := nodes[current := nodes[current].(used := true)];
    }

    /**
     Release as written. It is safe exactly when `FreeKeeps` holds of the block released; module `Heap`
     says what the release was meant to do, which is what it does when the block above is in use.
     */
    method Free(ptr: nat)
      requires Valid() && (ptr != NULL ==> LiveIndex(blocks, ptr, 0).Some?)
      modifies this
      ensures ptr == NULL ==> Valid() && blocks == old(blocks)
      ensures (ptr == NULL || HEADER <= ptr) && State() == FreeWritten(old(State()), ptr)
      ensures ptr != NULL ==>
        var k := LiveIndex(old(blocks), ptr, 0).value;
        && (Sound(State(), lo, hi) <==> FreeKeeps(old(blocks), k, hi))
        && (FreeKeeps(old(blocks), k, hi) ==> Valid() && blocks == Freed(old(blocks), k))
    {
      if ptr == NULL {
        return;
      }
      ghost var k := LiveIndex(blocks, ptr, 0).value;
      var node := ptr - HEADER;
      FreeWrittenSound(State(), blocks, k, lo, hi);
      Neighbours(State(), blocks, k);
      HalfNeighbours(State(), blocks, k, lo, hi);
      hide FreeKeeps, Freed, LiveIndex, Linked, Ordered, MergeBack, MergeForward;
      nodes := nodes[node := nodes[node].(used := false)];
      var prev := nodes[node].prev;
      if prev != NULL && !nodes[prev].used {
        MergeDown(node);
        node := prev;
      }
      var next := nodes[node].next;
      if next != NULL && !nodes[next].used {
        MergeUp(node);
      }
      blocks := Freed(blocks, k);
    }

    method MergeDown(node: nat)
      requires Closed(State(), node) && nodes[node].prev != NULL
      modifies this`nodes
      ensures State() == MergeBack(old(State()), node)
    {
      var prev, next := nodes[node].prev, nodes[node].next;
      nodes := nodes[prev := nodes[prev].(next := next)];
      if next != NULL {
        nodes := nodes[next := nodes[next].(prev := prev)];
      }
      nodes := nodes[prev := nodes[prev].(size := nodes[prev].size + nodes[node].size + HEADER)];
    }

    method MergeUp(node: nat)
      requires Closed(State(), node) && nodes[node].next != NULL
      modifies this`nodes
      ensures State() == MergeForward(old(State()), node)
    {
      var prev, next := nodes[node].prev, nodes[node].next;
      nodes := nodes[next := nodes[next].(prev := prev)];
      if prev != NULL {
        nodes := nodes[prev := nodes[prev].(next := next)];
      }
      nodes := nodes[next := nodes[next].(size := nodes[next].size + nodes[node].size + HEADER)];
    }
  }
}
