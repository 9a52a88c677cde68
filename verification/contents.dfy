/**
 What a finished program contains, item by item: data and padding as written, definitions with the
 values of their texts, and the entry point.
 */
module Contents {
  import opened BitFacts
  import opened Options
  import opened Words
  import opened Machine
  import opened Asm
  import opened Encoder
  import opened Symbols
  import opened Nesting
  import opened Assembler
  import opened Layout
  import opened Program
  import opened Idiom
  import Expr

  // ---------------------------------------------------------------------------
  // Data
  // ---------------------------------------------------------------------------

  /** Bytes that pass 1 appends without a reference stand in the finished program. */
  lemma ChunkStands(p: Source, k: nat, chunk: seq<Byte>)
    requires Builds(p) && k < |p.items| && Pass1(p, k).Some? && Pass1(p, k + 1).Some?
    requires var u, v := Pass1(p, k).value, Pass1(p, k + 1).value;
      v.out == u.out + chunk && v.pending == u.pending
    ensures At(p, k + 1) == At(p, k) + |chunk| && At(p, k) + |chunk| <= |Image(p)|
    ensures Image(p)[At(p, k)..At(p, k) + |chunk|] == chunk
  {
    hide EmitAll, AllLinkable, AllReturn, PatchAll, Resolves, Link;
    Prefix(p, k);
    Prefix(p, k + 1);
    var u, v, w := Pass1(p, k).value, Pass1(p, k + 1).value, Compiled(p);
    var a := |u.out|;
    forall i | a <= i < a + |chunk|
      ensures Image(p)[i] == chunk[i - a]
    {
      forall m | 0 <= m < |w.pending|
        ensures !Covers(w.pending[m], i) && Inside(w.pending[m], |w.out|)
      {
        if m < |u.pending| {
          assert w.pending[m] == u.pending[m];
          assert Inside(u.pending[m], |u.out|);
        } else {
          assert |v.out| <= w.pending[m].at;
        }
      }
      LinkKeeps(w.out, w.tables, w.pending, |w.pending|, i);
      LinkIs(w);
      assert w.out[i] == v.out[i];
    }
    SliceIs(Image(p), a, chunk);
  }

  lemma LinkIs(u: Unit)
    requires AllLinkable(u.tables, u.pending)
    ensures Link(u) == PatchAll(u.out, u.tables, u.pending, |u.pending|)
  {
    hide PatchAll, AllLinkable;
  }

  lemma SliceIs(mem: seq<Byte>, a: nat, chunk: seq<Byte>)
    requires a + |chunk| <= |mem| && forall i :: a <= i < a + |chunk| ==> mem[i] == chunk[i - a]
    ensures mem[a..a + |chunk|] == chunk
  {
  }

  lemma ItemEmitted(p: Source, k: nat)
    requires Builds(p) && k < |p.items|
    ensures Pass1(p, k).Some? && Pass1(p, k + 1).Some?
    ensures Emit(Pass1(p, k).value, p.items[k], p.host, p.stale) == Pass1(p, k + 1)
  {
    hide EmitAll, AllLinkable, AllReturn, Emit;
    Prefix(p, k);
    Prefix(p, k + 1);
    OneMore(p, k);
  }

  /** Data bytes stand where they are written. */
  lemma DataStands(p: Source, k: nat, bytes: seq<Byte>)
    requires Builds(p) && k < |p.items| && p.items[k] == BytesItem(bytes)
    ensures At(p, k + 1) == At(p, k) + |bytes| && At(p, k) + |bytes| <= |Image(p)|
    ensures Image(p)[At(p, k)..At(p, k) + |bytes|] == bytes
  {
    hide EmitAll, AllLinkable, AllReturn, Link;
    ItemEmitted(p, k);
    ChunkStands(p, k, bytes);
  }

  // ---------------------------------------------------------------------------
  // References that stay open
  // ---------------------------------------------------------------------------

  /** A word that pass 1 appends with a reference that does not resolve stays as it is. */
  lemma OpenWord(p: Source, k: nat, v: Word, q: Pending)
    requires Builds(p) && k < |p.items| && Pass1(p, k).Some? && Pass1(p, k + 1).Some?
    requires var u, w := Pass1(p, k).value, Pass1(p, k + 1).value;
      w.out == u.out + Bytes(v) && w.pending == u.pending + [q]
    requires !Resolves(Compiled(p).tables, q)
    ensures At(p, k) + 4 <= |Image(p)| && LoadWord(Image(p), At(p, k)) == v
  {
    hide EmitAll, AllLinkable, AllReturn, Link, Resolves, Bytes, LoadWord;
    Prefix(p, k);
    Prefix(p, k + 1);
    var u, w, c := Pass1(p, k).value, Pass1(p, k + 1).value, Compiled(p);
    var a := |u.out|;
    forall m | 0 <= m < |c.pending|
      ensures c.pending[m].at + 4 <= a || a + 4 <= c.pending[m].at || !Resolves(c.tables, c.pending[m])
    {
      if m < |u.pending| {
        assert c.pending[m] == u.pending[m];
        assert Inside(u.pending[m], |u.out|);
      } else if m == |u.pending| {
        assert c.pending[m] == w.pending[m] == q;
      } else {
        assert |w.out| <= c.pending[m].at;
      }
    }
    LinkedElsewhere(c, a);
    assert c.out[a..a + 4] == w.out[a..a + 4] == Bytes(v);
    LoadOfBytes(Image(p), a, v);
  }

  /** A `.long` whose text does not resolve holds all ones. */
  lemma OpenLong(p: Source, k: nat)
    requires Builds(p) && k < |p.items| && p.items[k].LongItem?
    requires Lookup(Compiled(p).tables, p.items[k].text).None?
    ensures At(p, k) + 4 <= |Image(p)| && LoadWord(Image(p), At(p, k)) == 0xffff_ffff
  {
    hide EmitAll, AllLinkable, AllReturn, Link, Lookup, LoadWord, Bytes;
    ItemEmitted(p, k);
    OpenWord(p, k, 0xffff_ffff, Pending(p.items[k].text, Position(Pass1(p, k).value), 0, RLabel));
  }

  /** An instruction whose symbol does not resolve keeps its unpatched word, 1 for an address. */
  lemma OpenInstruction(p: Source, k: nat)
    requires Builds(p) && IsInstr(p, k) && Symbolic(InstrOf(p, k))
    requires Lookup(Compiled(p).tables, InstrOf(p, k).sym).None?
    ensures At(p, k) + 4 <= |Image(p)|
    ensures LoadWord(Image(p), At(p, k)) == if InstrOf(p, k).Address? then 1 else ToInt(Encode(InstrOf(p, k)))
  {
    hide EmitAll, AllLinkable, AllReturn, Link, Lookup, LoadWord, Bytes, Encode, ToInt, EmitInstr, Effective, RelocOf;
    var i := InstrOf(p, k);
    InstrPlace(p, k);
    InstrEmitted(Pass1(p, k).value, i);
    OpenWord(p, k, ToInt(Placeholder(i)), Pending(i.sym, Position(Pass1(p, k).value), Encode(i), RelocOf(i)));
    ToIntOne();
  }

  lemma ToIntOne()
    ensures ToInt(1) == 1
  {
    assert Nat(1) == 1;
  }

  // ---------------------------------------------------------------------------
  // Alignment
  // ---------------------------------------------------------------------------

  /** q is the least multiple of d that is at least pos. */
  predicate LeastMultiple(pos: nat, d: nat, q: nat)
    requires d > 0
  {
    pos <= q < pos + d && q % d == 0
  }

  lemma PaddingAligns(pos: nat, p2: nat)
    ensures LeastMultiple(pos, Pow2(p2), pos + Padding(pos, p2))
  {
    var d := Pow2(p2);
    hide Pow2;
    var fill := pos % d;
    if fill != 0 {
      assert pos + (d - fill) == d * (pos / d + 1);
      DivModUnique(pos + (d - fill), d, pos / d + 1, 0);
    }
  }

  /** An alignment moves to the least multiple not behind it, over zeros. */
  lemma AlignmentStands(p: Source, k: nat, p2: nat)
    requires Builds(p) && k < |p.items| && p.items[k] == AlignItem(p2)
    ensures LeastMultiple(At(p, k), Pow2(p2), At(p, k + 1)) && At(p, k + 1) <= |Image(p)|
    ensures forall i :: At(p, k) <= i < At(p, k + 1) ==> Image(p)[i] == 0
  {
    hide EmitAll, AllLinkable, AllReturn, Link, Padding, LeastMultiple;
    ItemEmitted(p, k);
    var u := Pass1(p, k).value;
    var chunk := Zeros(Padding(|u.out|, p2));
    Prefix(p, k);
    PaddingAligns(|u.out|, p2);
    ChunkStands(p, k, chunk);
    var a := At(p, k);
    forall i | a <= i < At(p, k + 1)
      ensures Image(p)[i] == 0
    {
      assert Image(p)[i] == Image(p)[a..a + |chunk|][i - a];
    }
  }

  // ---------------------------------------------------------------------------
  // The entry point
  // ---------------------------------------------------------------------------

  /** Item k is the last line among the first n that defines `_main`. */
  predicate LastMain(items: seq<Item>, k: nat, n: nat) {
    && k < n <= |items| && items[k] == LabelItem("_main")
    && forall j :: k < j < n ==> items[j] != LabelItem("_main")
  }

  predicate NoMain(items: seq<Item>, n: nat)
    requires n <= |items|
  {
    forall j :: 0 <= j < n ==> items[j] != LabelItem("_main")
  }

  lemma EmitMain(u: Unit, item: Item, host: seq<string>, stale: Stale)
    requires Emit(u, item, host, stale).Some?
    ensures Emit(u, item, host, stale).value.main == if item == LabelItem("_main") then Position(u) else u.main
  {
    hide Find, Updated, Encode, Effective, Bytes, ToInt, Nat, Padding, RelocOf, Position;
  }

  lemma {:induction false} MainAfter(p: Source, k: nat, n: nat)
    requires n <= |p.items| && Pass1(p, n).Some?
    ensures NoMain(p.items, n) ==> Pass1(p, n).value.main == 0
    ensures LastMain(p.items, k, n) ==> Pass1(p, k).Some? && Pass1(p, n).value.main == Position(Pass1(p, k).value)
    decreases n
  {
    hide Emit, Position;
    if n > 0 {
      EmitAllShorter(p.items, n - 1, n, p.host, p.stale);
      MainAfter(p, k, n - 1);
      EmitMain(Pass1(p, n - 1).value, p.items[n - 1], p.host, p.stale);
    }
  }

  /** The entry point is where `_main` was last defined, and 0 when it is not. */
  ghost predicate IsEntry(p: Source, main: Word)
    requires Builds(p)
  {
    && (NoMain(p.items, |p.items|) ==> main == 0)
    && (forall k :: 0 <= k < |p.items| && LastMain(p.items, k, |p.items|) ==> main == At(p, k))
  }

  lemma EntryPoint(p: Source)
    requires Builds(p)
    ensures IsEntry(p, Compiled(p).main)
  {
    hide EmitAll, AllLinkable, AllReturn, Position, NoMain, LastMain;
    MainAfter(p, 0, |p.items|);
    forall k | 0 <= k < |p.items| && LastMain(p.items, k, |p.items|)
      ensures Compiled(p).main == At(p, k)
    {
      MainAfter(p, k, |p.items|);
    }
  }

  // ---------------------------------------------------------------------------
  // Definitions
  // ---------------------------------------------------------------------------

  /** Item k is the first line among the first n that defines this name by `.set`. */
  predicate FirstSet(items: seq<Item>, name: string, code: string, k: nat, n: nat) {
    && k < n <= |items| && items[k] == SetItem(name, code)
    && forall j :: 0 <= j < k ==> !(items[j].SetItem? && items[j].name == name)
  }

  predicate NoSet(items: seq<Item>, name: string, n: nat)
    requires n <= |items|
  {
    forall j :: 0 <= j < n ==> !(items[j].SetItem? && items[j].name == name)
  }

  lemma {:induction false} FindDefAppend(sets: seq<Def>, d: Def, name: string)
    ensures FindDef(sets + [d], name) ==
      if FindDef(sets, name).Some? then FindDef(sets, name) else if d.name == name then Some(|sets|) else None
    decreases |sets|
  {
    if sets == [] {
      assert sets + [d] == [d];
      assert FindDef([d][1..], name) == None;
    } else {
      assert (sets + [d])[1..] == sets[1..] + [d];
      FindDefAppend(sets[1..], d, name);
    }
  }

  lemma EmitSets(u: Unit, item: Item, host: seq<string>, stale: Stale)
    requires Emit(u, item, host, stale).Some?
    ensures Emit(u, item, host, stale).value.tables.sets ==
      u.tables.sets + if item.SetItem? then [Def(item.name, item.code)] else []
  {
    hide Find, Updated, Encode, Effective, Bytes, ToInt, Nat, Padding, RelocOf;
    assert !item.SetItem? ==> u.tables.sets + [] == u.tables.sets;
  }

  /** The first definition of a name is the one in the table, with its text. */
  lemma {:induction false} SetAfter(p: Source, name: string, code: string, k: nat, n: nat)
    requires n <= |p.items| && Pass1(p, n).Some?
    ensures var sets := Pass1(p, n).value.tables.sets;
      && (NoSet(p.items, name, n) ==> FindDef(sets, name) == None)
      && (FirstSet(p.items, name, code, k, n) ==> FindDef(sets, name).Some? && sets[FindDef(sets, name).value].code == code)
    decreases n
  {
    hide Emit, FindDef;
    if n == 0 {
      NoDefs(name);
    } else {
      EmitAllShorter(p.items, n - 1, n, p.host, p.stale);
      SetAfter(p, name, code, k, n - 1);
      var u := Pass1(p, n - 1).value;
      EmitSets(u, p.items[n - 1], p.host, p.stale);
      assert FirstSet(p.items, name, code, k, n) && k == n - 1 ==> NoSet(p.items, name, n - 1);
      assert FirstSet(p.items, name, code, k, n) && k < n - 1 ==> FirstSet(p.items, name, code, k, n - 1);
      assert u.tables.sets + [] == u.tables.sets;
      if p.items[n - 1].SetItem? {
        FindDefAppend(u.tables.sets, Def(p.items[n - 1].name, p.items[n - 1].code), name);
      }
    }
  }

  lemma NoDefs(name: string)
    ensures FindDef(EMPTY.tables.sets, name) == None
  {
  }

  /**
   A name that is neither a label nor exported has the value of the text of its first `.set`, when its
   lookup returns.
   */
  lemma DefinitionMeans(p: Source, name: string, code: string, k: nat)
    requires Builds(p) && IsName(name) && FirstSet(p.items, name, code, k, |p.items|)
    requires FindPlaced(Compiled(p).tables, name).None? && !ReachesCycle(Compiled(p).tables, name)
    ensures Lookup(Compiled(p).tables, name) == Lookup(Compiled(p).tables, code)
  {
    hide EmitAll, AllLinkable, AllReturn, FirstSet, NoSet, FindPlaced, IsName, ReachesCycle, TextReturns, Substitute;
    var t := Compiled(p).tables;
    SetAfter(p, name, code, k, |p.items|);
    NameStandsForPosition(t, name, |t.sets|);
    ReturnsIffAcyclic(t, name);
    TextStable(t, code, 0, |t.sets| - 1, |t.sets|);
  }

  // ---------------------------------------------------------------------------
  // Host functions
  // ---------------------------------------------------------------------------

  /** Slot k is the first host function whose name is this symbol without its first character. */
  predicate NamesSlot(host: seq<string>, sym: string, k: nat) {
    sym != [] && k < |host| && host[k] == sym[1..] && forall j :: 0 <= j < k ==> host[j] != sym[1..]
  }

  lemma {:induction false} FirstSlot(host: seq<string>, name: string, k: nat)
    requires k < |host| && host[k] == name && forall j :: 0 <= j < k ==> host[j] != name
    ensures HostIndex(host, name) == Some(k)
    decreases k
  {
    if k > 0 {
      assert host[0] != name;
      FirstSlot(host[1..], name, k - 1);
    }
  }

  lemma LowHalf(x: bv32)
    ensures Wide16((x & 0xffff) as bv16) == Meet(x, 0xffff)
  {
  }

  lemma ProcIndexBits(k: nat)
    ensures Wide16(ProcIndex(k)) == Meet(ToBits(k), 0xffff)
  {
    hide ToBits, Wide16, Meet;
    LowHalf(ToBits(k));
  }

  /** The index of a host function reaches the host unchanged below 65536, the number of slots. */
  lemma ProcIndexExact(k: nat)
    requires k < TWO32
    ensures ToInt(Wide16(ProcIndex(k))) == k % 0x1_0000
  {
    hide Nat, ToBits, Wide16, ProcIndex, Meet, Pow2;
    ProcIndexBits(k);
    Masks16();
    MeetMod(ToBits(k), 0xffff, 16);
    ToIntToBits(k);
  }
}
