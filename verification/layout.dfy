/** Where pass 1 puts things, and exactly what pass 2 changes. */
module Layout {
  import opened Words
  import opened Machine
  import opened Asm
  import opened Encoder
  import opened Symbols
  import opened Assembler

  // ---------------------------------------------------------------------------
  // Pass 1 keeps references in order
  // ---------------------------------------------------------------------------

  predicate Inside(p: Pending, size: nat) {
    p.at + 4 <= size
  }

  /** References lie inside the program, in strictly increasing order, at least a word apart. */
  ghost predicate Placed(u: Unit) {
    && (forall m :: 0 <= m < |u.pending| ==> Inside(u.pending[m], |u.out|))
    && (forall m, n :: 0 <= m < n < |u.pending| ==> Inside(u.pending[m], u.pending[n].at))
  }

  /** v continues u: program and references only grow, new references point past the old end. */
  ghost predicate Extends(u: Unit, v: Unit) {
    && u.out <= v.out
    && u.pending <= v.pending
    && (forall m :: |u.pending| <= m < |v.pending| ==> |u.out| <= v.pending[m].at)
  }

  lemma ExtendsTransitive(u: Unit, v: Unit, w: Unit)
    requires Extends(u, v) && Extends(v, w)
    ensures Extends(u, w)
  {
    forall m | |u.pending| <= m < |w.pending|
      ensures |u.out| <= w.pending[m].at
    {
      if m < |v.pending| {
        assert w.pending[m] == v.pending[m];
      }
    }
  }

  /** Appending a chunk and at most one reference to it. */
  lemma AppendPlaced(u: Unit, v: Unit, chunk: seq<Byte>, refs: seq<Pending>)
    requires Placed(u) && |v.out| <= TWO32
    requires v.out == u.out + chunk && v.pending == u.pending + refs
    requires refs == [] || (|refs| == 1 && refs[0].at == Position(u) && |chunk| == 4)
    ensures Placed(v) && Extends(u, v)
  {
    forall m | 0 <= m < |v.pending|
      ensures Inside(v.pending[m], |v.out|)
      ensures forall n :: m < n < |v.pending| ==> Inside(v.pending[m], v.pending[n].at)
    {
      if m < |u.pending| {
        assert Inside(u.pending[m], |u.out|);
      }
    }
  }

  lemma EmitPlaced(u: Unit, item: Item, host: seq<string>, stale: Stale)
    requires Placed(u) && Emit(u, item, host, stale).Some?
    requires |Emit(u, item, host, stale).value.out| <= TWO32
    ensures Placed(Emit(u, item, host, stale).value) && Extends(u, Emit(u, item, host, stale).value)
  {
    hide Encode, Find, Updated, Bytes, Padding, Placed, Extends, Effective, ToInt, Nat, RelocOf;
    var v := Emit(u, item, host, stale).value;
    match item
    case LabelItem(name) => AppendPlaced(u, v, [], []);
    case GloblItem(name) => AppendPlaced(u, v, [], []);
    case SetItem(name, code) => AppendPlaced(u, v, [], []);
    case InsItem(i) =>
      var e := Effective(i, host);
      if Symbolic(e) {
        AppendPlaced(u, v, Bytes(ToInt(Placeholder(e))), [Pending(e.sym, Position(u), Encode(e), RelocOf(e))]);
      } else {
        AppendPlaced(u, v, Bytes(ToInt(Placeholder(e))), []);
      }
    case BytesItem(bytes) => AppendPlaced(u, v, bytes, []);
    case LongItem(text) => AppendPlaced(u, v, Bytes(0xffff_ffff), [Pending(text, Position(u), 0, RLabel)]);
    case AlignItem(p2) => AppendPlaced(u, v, Zeros(Padding(|u.out|, p2)), []);
  }

  lemma {:induction false} EmitAllShorter(items: seq<Item>, k: nat, n: nat, host: seq<string>, stale: Stale)
    requires k <= n <= |items| && EmitAll(items, n, host, stale).Some?
    ensures EmitAll(items, k, host, stale).Some?
    decreases n
  {
    hide Emit;
    if k < n {
      EmitAllShorter(items, k, n - 1, host, stale);
    }
  }

  lemma EmitGrows(u: Unit, item: Item, host: seq<string>, stale: Stale)
    requires Emit(u, item, host, stale).Some?
    ensures u.out <= Emit(u, item, host, stale).value.out
  {
    hide Encode, Find, Updated, Bytes, Padding, Effective, ToInt, Nat, RelocOf;
  }

  /** Every prefix of the source is laid out as a prefix of the whole program. */
  lemma {:induction false} EmitAllExtends(items: seq<Item>, k: nat, n: nat, host: seq<string>, stale: Stale)
    requires k <= n <= |items| && EmitAll(items, n, host, stale).Some?
    requires |EmitAll(items, n, host, stale).value.out| <= TWO32
    ensures EmitAll(items, k, host, stale).Some?
    ensures var u, v := EmitAll(items, k, host, stale).value, EmitAll(items, n, host, stale).value;
      Placed(u) && Placed(v) && Extends(u, v)
    decreases n
  {
    hide Emit;
    EmitAllShorter(items, k, n, host, stale);
    if n > 0 {
      var w := EmitAll(items, n - 1, host, stale).value;
      EmitGrows(w, items[n - 1], host, stale);
      if k < n {
        EmitAllExtends(items, k, n - 1, host, stale);
        EmitPlaced(w, items[n - 1], host, stale);
        ExtendsTransitive(EmitAll(items, k, host, stale).value, w, EmitAll(items, n, host, stale).value);
      } else {
        EmitAllExtends(items, n - 1, n - 1, host, stale);
        EmitPlaced(w, items[n - 1], host, stale);
      }
    }
  }

  // ---------------------------------------------------------------------------
  // Words in byte sequences
  // ---------------------------------------------------------------------------

  lemma StoredByte(out: seq<Byte>, a: nat, v: Word, k: nat)
    requires k < |out|
    ensures StoreWord(out, a, v)[k] == if a <= k < a + 4 && InMem(out, a) then Bytes(v)[k - a] else out[k]
  {
  }

  lemma LoadOfBytes(mem: seq<Byte>, a: nat, v: Word)
    requires InMem(mem, a) && mem[a..a + 4] == Bytes(v)
    ensures LoadWord(mem, a) == v
  {
    WordOfBytes(v);
    assert mem[a] == mem[a..a + 4][0] && mem[a + 1] == mem[a..a + 4][1];
    assert mem[a + 2] == mem[a..a + 4][2] && mem[a + 3] == mem[a..a + 4][3];
  }

  // ---------------------------------------------------------------------------
  // Pass 2, byte by byte
  // ---------------------------------------------------------------------------

  predicate Covers(p: Pending, k: int) {
    p.at <= k < p.at + 4
  }

  predicate Resolves(t: Tables, p: Pending) {
    Lookup(t, p.text).Some?
  }

  ghost predicate Apart(pending: seq<Pending>) {
    forall m, n :: 0 <= m < n < |pending| ==> Disjoint(pending[m], pending[n])
  }

  predicate Disjoint(p: Pending, q: Pending) {
    p.at + 4 <= q.at || q.at + 4 <= p.at
  }

  lemma PlacedApart(u: Unit)
    requires Placed(u)
    ensures Apart(u.pending)
  {
  }

  function PatchedWord(t: Tables, p: Pending): Word
    requires Linkable(t, p) && Resolves(t, p)
  {
    SetPos(p, Lookup(t, p.text).value)
  }

  lemma PatchOneByte(out: seq<Byte>, t: Tables, p: Pending, k: nat)
    requires Linkable(t, p) && k < |out| && p.at + 4 <= |out|
    ensures PatchOne(out, t, p)[k] ==
      if Covers(p, k) && Resolves(t, p) then Bytes(PatchedWord(t, p))[k - p.at] else out[k]
  {
    hide Lookup, SetPos, PatchOk, Bytes, StoreWord;
    if Resolves(t, p) {
      StoredByte(out, p.at, PatchedWord(t, p), k);
    }
  }

  /** A byte that no resolved reference covers is not changed by linking. */
  lemma {:induction false} LinkKeeps(out: seq<Byte>, t: Tables, pending: seq<Pending>, n: nat, k: nat)
    requires n <= |pending| && AllLinkable(t, pending) && k < |out|
    requires forall m :: 0 <= m < n ==> Inside(pending[m], |out|)
    requires forall m :: 0 <= m < n ==> !(Covers(pending[m], k) && Resolves(t, pending[m]))
    ensures PatchAll(out, t, pending, n)[k] == out[k]
  {
    hide Linkable, PatchOne, Resolves, Covers;
    if n > 0 {
      LinkKeeps(out, t, pending, n - 1, k);
      assert Linkable(t, pending[n - 1]);
      assert Inside(pending[n - 1], |out|);
      PatchOneByte(PatchAll(out, t, pending, n - 1), t, pending[n - 1], k);
    }
  }

  /** A byte that a resolved reference covers becomes that byte of the reference's word. */
  lemma {:induction false} LinkPatches(out: seq<Byte>, t: Tables, pending: seq<Pending>, n: nat, m: nat, k: nat)
    requires m < n <= |pending| && AllLinkable(t, pending) && k < |out| && Apart(pending)
    requires forall j :: 0 <= j < n ==> Inside(pending[j], |out|)
    requires Covers(pending[m], k) && Resolves(t, pending[m]) && Linkable(t, pending[m])
    ensures PatchAll(out, t, pending, n)[k] == Bytes(PatchedWord(t, pending[m]))[k - pending[m].at]
    decreases n
  {
    hide Linkable, PatchOne, Resolves, Bytes, PatchedWord;
    var last := pending[n - 1];
    assert Linkable(t, last) && Inside(last, |out|);
    PatchOneByte(PatchAll(out, t, pending, n - 1), t, last, k);
    if m < n - 1 {
      LinkPatches(out, t, pending, n - 1, m, k);
      assert Disjoint(pending[m], last);
    }
  }

  /** A word that resolved references do not touch reads the same after linking. */
  lemma LinkedElsewhere(u: Unit, a: nat)
    requires Placed(u) && AllLinkable(u.tables, u.pending) && a + 4 <= |u.out|
    requires forall m :: 0 <= m < |u.pending| ==> u.pending[m].at + 4 <= a || a + 4 <= u.pending[m].at || !Resolves(u.tables, u.pending[m])
    ensures Link(u)[a..a + 4] == u.out[a..a + 4]
  {
    hide Resolves, AllLinkable, PatchAll;
    forall k | a <= k < a + 4
      ensures Link(u)[k] == u.out[k]
    {
      LinkKeeps(u.out, u.tables, u.pending, |u.pending|, k);
    }
  }

  /** Every resolved reference holds its relocated word after linking. */
  lemma LinkedWord(u: Unit, m: nat)
    requires Placed(u) && AllLinkable(u.tables, u.pending) && m < |u.pending|
    requires Resolves(u.tables, u.pending[m])
    ensures Linkable(u.tables, u.pending[m])
    ensures LoadWord(Link(u), u.pending[m].at) == PatchedWord(u.tables, u.pending[m])
  {
    assert u.pending[m] in u.pending;
    hide Resolves, PatchAll, Linkable, PatchedWord, Bytes, LoadWord;
    var p := u.pending[m];
    var v := PatchedWord(u.tables, p);
    PlacedApart(u);
    assert Inside(p, |u.out|);
    forall k | p.at <= k < p.at + 4
      ensures Link(u)[k] == Bytes(v)[k - p.at]
    {
      LinkPatches(u.out, u.tables, u.pending, |u.pending|, m, k);
    }
    assert Link(u)[p.at..p.at + 4] == Bytes(v);
    LoadOfBytes(Link(u), p.at, v);
  }

  /**
   The order in which references are patched does not matter: any arrangement of the same references
   gives the same program.
   */
  lemma LinkOrderIrrelevant(out: seq<Byte>, t: Tables, p: seq<Pending>, q: seq<Pending>)
    requires Apart(p) && Apart(q) && AllLinkable(t, p) && AllLinkable(t, q)
    requires forall x :: x in p <==> x in q
    requires forall m :: 0 <= m < |p| ==> Inside(p[m], |out|)
    ensures PatchAll(out, t, p, |p|) == PatchAll(out, t, q, |q|)
  {
    hide Linkable, PatchAll, Resolves, Bytes, Lookup, SetPos;
    forall n | 0 <= n < |q|
      ensures Inside(q[n], |out|)
    {
      assert q[n] in p;
    }
    forall k | 0 <= k < |out|
      ensures PatchAll(out, t, p, |p|)[k] == PatchAll(out, t, q, |q|)[k]
    {
      if m :| 0 <= m < |p| && Covers(p[m], k) && Resolves(t, p[m]) {
        assert p[m] in p && p[m] in q;
        var n :| 0 <= n < |q| && q[n] == p[m];
        LinkPatches(out, t, p, |p|, m, k);
        LinkPatches(out, t, q, |q|, n, k);
      } else {
        forall n | 0 <= n < |q|
          ensures !(Covers(q[n], k) && Resolves(t, q[n]))
        {
          assert q[n] in p;
        }
        LinkKeeps(out, t, p, |p|, k);
        LinkKeeps(out, t, q, |q|, k);
      }
    }
  }

  /** Linking a linked program again with the same tables changes nothing. */
  lemma LinkIdempotent(u: Unit)
    requires Placed(u) && AllLinkable(u.tables, u.pending)
    ensures Link(u.(out := Link(u))) == Link(u)
  {
    hide Linkable, PatchAll, Resolves, Bytes, Lookup, SetPos, Covers;
    var out, t, p := u.out, u.tables, u.pending;
    PlacedApart(u);
    forall k | 0 <= k < |out|
      ensures PatchAll(Link(u), t, p, |p|)[k] == Link(u)[k]
    {
      if m :| 0 <= m < |p| && Covers(p[m], k) && Resolves(t, p[m]) {
        assert p[m] in p;
        LinkPatches(out, t, p, |p|, m, k);
        LinkPatches(Link(u), t, p, |p|, m, k);
      } else {
        LinkKeeps(out, t, p, |p|, k);
        LinkKeeps(Link(u), t, p, |p|, k);
      }
    }
  }
}
