/**
 Assembling preserves meaning.

 A source program is a list of items. Its own machine finds the instruction item at the current
 location and performs it, with labels standing for the positions of the items they name. The virtual
 machine, started on the assembled and linked bytes, makes exactly the same steps.
 */
module Program {
  import opened Options
  import opened Words
  import opened Machine
  import opened Asm
  import opened Encoder
  import opened Agreement
  import opened Symbols
  import opened Nesting
  import opened Assembler
  import opened Layout

  datatype Source = Source(items: seq<Item>, host: seq<string>, stale: Stale)

  function Pass1(p: Source, k: nat): Option<Unit>
    requires k <= |p.items|
  {
    EmitAll(p.items, k, p.host, p.stale)
  }

  /**
   Assembly succeeds, the program fits in the address space, the lookup of every reference returns and
   every relocation assertion holds.
   */
  predicate Builds(p: Source) {
    var u := Pass1(p, |p.items|);
    && u.Some? && |u.value.out| <= TWO31
    && AllReturn(u.value.tables, u.value.pending) && AllLinkable(u.value.tables, u.value.pending)
  }

  /** Loading a source returns exactly when none of its references reaches a cycle of definitions. */
  lemma BuildsExactly(p: Source)
    requires Pass1(p, |p.items|).Some?
    ensures var u := Pass1(p, |p.items|).value;
      Builds(p) <==>
        && |u.out| <= TWO31 && AllLinkable(u.tables, u.pending)
        && forall q :: q in u.pending ==> !TextReachesCycle(u.tables, q.text)
  {
    hide EmitAll, AllLinkable, AllReturn, TextReachesCycle;
    var u := Pass1(p, |p.items|).value;
    AllReturnExactly(u.tables, u.pending);
  }

  function Compiled(p: Source): Unit
    requires Builds(p)
  {
    Pass1(p, |p.items|).value
  }

  function Image(p: Source): (r: seq<Byte>)
    requires Builds(p)
    ensures |r| == |Compiled(p).out|
  {
    Link(Compiled(p))
  }

  lemma Prefix(p: Source, k: nat)
    requires Builds(p) && k <= |p.items|
    ensures Pass1(p, k).Some? && Placed(Pass1(p, k).value) && Placed(Compiled(p)) && Extends(Pass1(p, k).value, Compiled(p))
  {
    hide EmitAll, Placed, Extends, AllLinkable, AllReturn;
    EmitAllExtends(p.items, k, |p.items|, p.host, p.stale);
  }

  /** The position of item k. */
  function At(p: Source, k: nat): Word
    requires Builds(p) && k <= |p.items|
  {
    Prefix(p, k);
    Position(Pass1(p, k).value)
  }

  predicate IsInstr(p: Source, k: nat) {
    k < |p.items| && p.items[k].InsItem?
  }

  function InstrOf(p: Source, k: nat): Instr
    requires IsInstr(p, k)
  {
    Effective(p.items[k].i, p.host)
  }

  function TargetOf(p: Source, i: Instr): Option<Word>
    requires Builds(p)
  {
    if Symbolic(i) then Lookup(Compiled(p).tables, i.sym) else Some(0)
  }

  /** What the encoder needs of item k: an encodable constant and a known target within reach. */
  predicate Sound(p: Source, k: nat)
    requires Builds(p) && IsInstr(p, k)
  {
    var i := InstrOf(p, k);
    && Encodable(i)
    && TargetOf(p, i).Some?
    && InReach(i, At(p, k), TargetOf(p, i).value)
  }

  // ---------------------------------------------------------------------------
  // Instruction items occupy their own words
  // ---------------------------------------------------------------------------

  lemma InstrEmitted(u: Unit, i: Instr)
    requires EmitInstr(u, i).Some?
    ensures var v := EmitInstr(u, i).value;
      && v.out == u.out + Bytes(ToInt(Placeholder(i)))
      && (Symbolic(i) ==> v.pending == u.pending + [Pending(i.sym, Position(u), Encode(i), RelocOf(i))])
      && (!Symbolic(i) ==> v.pending == u.pending && Placeholder(i) == Encode(i))
  {
    hide Encode, Bytes, ToInt, Nat;
  }

  /** The unit before and after instruction item k, and how the finished program continues them. */
  lemma InstrPlace(p: Source, k: nat)
    requires Builds(p) && IsInstr(p, k)
    ensures Pass1(p, k).Some? && Pass1(p, k + 1).Some?
    ensures EmitInstr(Pass1(p, k).value, InstrOf(p, k)) == Pass1(p, k + 1)
    ensures At(p, k) == |Pass1(p, k).value.out|
    ensures At(p, k) + 4 == |Pass1(p, k + 1).value.out| <= |Image(p)|
  {
    hide Placed, EmitInstr, Effective, Link, AllLinkable, AllReturn, Encode;
    Prefix(p, k);
    Prefix(p, k + 1);
    var u, v := Pass1(p, k).value, Pass1(p, k + 1).value;
    assert Pass1(p, k + 1) == Emit(u, p.items[k], p.host, p.stale);
    InstrEmitted(u, InstrOf(p, k));
  }

  lemma LabelKeepsPosition(p: Source, k: nat)
    requires Builds(p) && k < |p.items| && p.items[k].LabelItem?
    ensures At(p, k + 1) == At(p, k)
  {
    hide AllLinkable, AllReturn, Find, Updated, Placed, Extends, Link;
    Prefix(p, k);
    Prefix(p, k + 1);
    assert Pass1(p, k + 1) == Emit(Pass1(p, k).value, p.items[k], p.host, p.stale);
  }

  lemma InstrTakesWord(p: Source, k: nat)
    requires Builds(p) && IsInstr(p, k)
    ensures At(p, k + 1) == At(p, k) + 4 && At(p, k) + 4 <= |Image(p)| <= TWO31
  {
    hide EmitAll, AllLinkable, AllReturn, Link, EmitInstr, Effective;
    InstrPlace(p, k);
    Prefix(p, k + 1);
  }

  lemma SymbolicPending(p: Source, k: nat) returns (m: nat)
    requires Builds(p) && IsInstr(p, k) && Symbolic(InstrOf(p, k))
    ensures m < |Compiled(p).pending|
    ensures var i := InstrOf(p, k);
      Compiled(p).pending[m] == Pending(i.sym, At(p, k), Encode(i), RelocOf(i))
  {
    hide Placed, EmitInstr, Effective, Link, AllLinkable, AllReturn, Encode, EmitAll, Bytes, ToInt, Nat;
    InstrPlace(p, k);
    Prefix(p, k);
    Prefix(p, k + 1);
    InstrEmitted(Pass1(p, k).value, InstrOf(p, k));
    m := |Pass1(p, k).value.pending|;
  }

  lemma RelocatedWord(i: Instr, at: Word, target: Word)
    requires Symbolic(i) && PatchDefined(i, at, target)
    ensures var q := Pending(i.sym, at, Encode(i), RelocOf(i));
      PatchOk(q, target) && SetPos(q, target) == ToInt(Patch(i, Encode(i), at, target))
  {
    hide Encode, SetPosBranch, SetPosTransfer, SetPosAddress, ToInt, Nat, LiteralReach;
  }

  lemma SymbolicWord(p: Source, k: nat)
    requires Builds(p) && IsInstr(p, k) && Sound(p, k) && Symbolic(InstrOf(p, k))
    ensures var i := InstrOf(p, k);
      var target := TargetOf(p, i).value;
      PatchDefined(i, At(p, k), target) && LoadWord(Image(p), At(p, k)) == ToInt(Patch(i, Encode(i), At(p, k), target))
  {
    hide Placed, Effective, Link, AllLinkable, AllReturn, Encode, EmitAll, ToInt, Nat, LoadWord, Patch, SetPos, InReach;
    hide PatchDefined, Lookup, PatchOk;
    var i := InstrOf(p, k);
    var target := TargetOf(p, i).value;
    var m := SymbolicPending(p, k);
    Prefix(p, k);
    ReachDefines(i, At(p, k), target);
    RelocatedWord(i, At(p, k), target);
    LinkedWord(Compiled(p), m);
  }

  lemma PlainWord(p: Source, k: nat)
    requires Builds(p) && IsInstr(p, k) && !Symbolic(InstrOf(p, k))
    ensures LoadWord(Image(p), At(p, k)) == ToInt(Encode(InstrOf(p, k)))
  {
    hide EmitInstr, Effective, Link, AllLinkable, AllReturn, Encode, EmitAll, ToInt, Nat, LoadWord, Lookup, Bytes, Resolves;
    var i := InstrOf(p, k);
    InstrPlace(p, k);
    Prefix(p, k);
    Prefix(p, k + 1);
    var u, v, w := Pass1(p, k).value, Pass1(p, k + 1).value, Compiled(p);
    InstrEmitted(u, i);
    var a := At(p, k);
    forall m | 0 <= m < |w.pending|
      ensures w.pending[m].at + 4 <= a || a + 4 <= w.pending[m].at
    {
      if m < |u.pending| {
        assert w.pending[m] == u.pending[m];
        assert Inside(u.pending[m], |u.out|);
      } else {
        assert |v.out| <= w.pending[m].at;
      }
    }
    LinkedElsewhere(w, a);
    assert w.out[a..a + 4] == v.out[a..a + 4] == Bytes(ToInt(Encode(i)));
    LoadOfBytes(Image(p), a, ToInt(Encode(i)));
  }

  /** The word found at an instruction item's position is its encoding, relocated to its target. */
  lemma CodeWord(p: Source, k: nat)
    requires Builds(p) && IsInstr(p, k) && Sound(p, k)
    ensures var i := InstrOf(p, k);
      var target := TargetOf(p, i).value;
      PatchDefined(i, At(p, k), target) && LoadWord(Image(p), At(p, k)) == ToInt(Patch(i, Encode(i), At(p, k), target))
  {
    hide Effective, Link, AllLinkable, AllReturn, Encode, EmitAll, ToInt, Nat, LoadWord, Patch, InReach, PatchDefined, Lookup;
    var i := InstrOf(p, k);
    if Symbolic(i) {
      SymbolicWord(p, k);
    } else {
      PlainWord(p, k);
      PlainPatch(i, Encode(i), At(p, k), TargetOf(p, i).value);
    }
  }

  // ---------------------------------------------------------------------------
  // The source machine
  // ---------------------------------------------------------------------------

  ghost predicate AtInstr(p: Source, loc: Word)
    requires Builds(p)
  {
    exists k :: IsInstr(p, k) && At(p, k) == loc
  }

  /** Two instruction items never share a position. */
  lemma InstrUnique(p: Source, j: nat, k: nat)
    requires Builds(p) && IsInstr(p, j) && IsInstr(p, k) && At(p, j) == At(p, k)
    ensures j == k
  {
    if j < k {
      InstrBefore(p, j, k);
    } else if k < j {
      InstrBefore(p, k, j);
    }
  }

  lemma InstrBefore(p: Source, j: nat, k: nat)
    requires Builds(p) && IsInstr(p, j) && j < k <= |p.items|
    ensures At(p, j) + 4 <= At(p, k)
  {
    hide Placed, EmitInstr, Effective, Link, AllLinkable, AllReturn, Encode, EmitAll;
    InstrPlace(p, j);
    Prefix(p, k);
    EmitAllExtends(p.items, j + 1, k, p.host, p.stale);
  }

  ghost function InstrAt(p: Source, loc: Word): (k: nat)
    requires Builds(p) && AtInstr(p, loc)
    ensures IsInstr(p, k) && At(p, k) == loc
  {
    var k :| IsInstr(p, k) && At(p, k) == loc;
    k
  }

  /** The program stands at an instruction that the encoder can spell out. */
  ghost predicate AtSound(p: Source, loc: Word)
    requires Builds(p)
  {
    AtInstr(p, loc) && Sound(p, InstrAt(p, loc))
  }

  /** One step of the source program. */
  ghost function SourceStep(p: Source, s: State, env: Host): State
    requires Builds(p) && AtSound(p, s.loc)
  {
    var i := InstrOf(p, InstrAt(p, s.loc));
    Perform(i, TargetOf(p, i).value, s, env)
  }

  /** The memory starts with these bytes. */
  predicate Holds(image: seq<Byte>, mem: seq<Byte>) {
    |image| <= |mem| && mem[..|image|] == image
  }

  /** The program's bytes are at the bottom of memory. */
  predicate Loaded(p: Source, mem: seq<Byte>)
    requires Builds(p)
  {
    Holds(Image(p), mem)
  }

  /** Every instruction of the program stands in memory; its data may have changed. */
  ghost predicate CodeStands(p: Source, mem: seq<Byte>)
    requires Builds(p)
  {
    forall k: nat :: IsInstr(p, k) ==> Stands(p, k, mem)
  }

  predicate Stands(p: Source, k: nat, mem: seq<Byte>)
    requires Builds(p) && IsInstr(p, k)
  {
    LoadWord(mem, At(p, k)) == LoadWord(Image(p), At(p, k))
  }

  lemma LoadFromPrefix(image: seq<Byte>, mem: seq<Byte>, a: nat)
    requires |image| <= |mem| && mem[..|image|] == image && a + 4 <= |image|
    ensures LoadWord(mem, a) == LoadWord(image, a)
  {
    assert mem[a] == mem[..|image|][a] && mem[a + 1] == mem[..|image|][a + 1];
    assert mem[a + 2] == mem[..|image|][a + 2] && mem[a + 3] == mem[..|image|][a + 3];
  }

  lemma LoadedStands(p: Source, mem: seq<Byte>, k: nat)
    requires Builds(p) && Loaded(p, mem) && IsInstr(p, k)
    ensures Stands(p, k, mem)
  {
    hide Builds, At, Image, LoadWord, InstrOf;
    InstrPlace(p, k);
    LoadFromPrefix(Image(p), mem, At(p, k));
  }

  lemma LoadedCode(p: Source, mem: seq<Byte>)
    requires Builds(p) && Loaded(p, mem)
    ensures CodeStands(p, mem)
  {
    hide Builds, Loaded, Stands;
    forall k: nat | IsInstr(p, k)
      ensures Stands(p, k, mem)
    {
      LoadedStands(p, mem, k);
    }
  }

  /** At an instruction item that stands in memory, the interpreter performs it on its target. */
  lemma StepAtItem(p: Source, k: nat, s: State, env: Host)
    requires Builds(p) && IsInstr(p, k) && Sound(p, k) && Stands(p, k, s.mem) && s.loc == At(p, k)
    ensures Step(s, env) == Perform(InstrOf(p, k), TargetOf(p, InstrOf(p, k)).value, s, env)
  {
    hide Builds, At, Image, InstrOf, TargetOf, Encodable, InReach, PatchDefined, Patch, Encode, Step, Perform;
    hide LoadWord, ToInt, Nat;
    CodeWord(p, k);
    StepPerforms(InstrOf(p, k), TargetOf(p, InstrOf(p, k)).value, s, env);
  }

  /** One interpreter step on the standing code is one step of the source program. */
  lemma StepSimulates(p: Source, s: State, env: Host)
    requires Builds(p) && CodeStands(p, s.mem) && AtSound(p, s.loc)
    ensures Step(s, env) == SourceStep(p, s, env)
  {
    hide Builds, At, Image, InstrOf, TargetOf, Sound, Stands, Step, Perform;
    StepAtItem(p, InstrAt(p, s.loc), s, env);
  }

  // ---------------------------------------------------------------------------
  // Runs
  // ---------------------------------------------------------------------------

  /** For n steps the source program stands at sound instructions and overwrites none of its instructions. */
  ghost predicate Steady(p: Source, s: State, env: Host, n: nat)
    requires Builds(p)
    decreases n
  {
    n == 0 ||
    (AtSound(p, s.loc) &&
     var t := SourceStep(p, s, env);
     CodeStands(p, t.mem) && Steady(p, t, env, n - 1))
  }

  ghost function SourceRun(p: Source, s: State, env: Host, n: nat): State
    requires Builds(p) && Steady(p, s, env, n)
    decreases n
  {
    if n == 0 then s else SourceRun(p, SourceStep(p, s, env), env, n - 1)
  }

  /** Assembling preserves meaning over every run that does not overwrite instructions. */
  lemma {:induction false} RunSimulates(p: Source, s: State, env: Host, n: nat)
    requires Builds(p) && CodeStands(p, s.mem) && Steady(p, s, env, n)
    ensures Run(s, env, n) == SourceRun(p, s, env, n)
    decreases n
  {
    hide Builds, CodeStands, SourceStep, Step, AtSound;
    if n > 0 {
      StepSimulates(p, s, env);
      RunSimulates(p, SourceStep(p, s, env), env, n - 1);
    }
  }

  // ---------------------------------------------------------------------------
  // Labels
  // ---------------------------------------------------------------------------

  lemma FindAppend(labels: seq<Label>, l: Label, name: string)
    ensures Find(labels + [l], name) ==
      if Find(labels, name).Some? then Find(labels, name) else if l.name == name then Some(l.pos) else None
    decreases |labels|
  {
    if labels == [] {
      assert labels + [l] == [l];
    } else {
      assert (labels + [l])[1..] == labels[1..] + [l];
      FindAppend(labels[1..], l, name);
    }
  }

  lemma {:induction false} FindUpdated(labels: seq<Label>, changed: string, pos: Word, name: string)
    ensures Find(Updated(labels, changed, pos), name) ==
      if name == changed && Find(labels, name).Some? then Some(pos) else Find(labels, name)
    decreases |labels|
  {
    if labels != [] {
      FindUpdated(labels[1..], changed, pos, name);
      if labels[0].name == changed {
        assert Updated(labels, changed, pos)[1..] == labels[1..];
      } else {
        assert Updated(labels, changed, pos)[1..] == Updated(labels[1..], changed, pos);
      }
    }
  }

  /** No label item among the first n, except possibly item k, defines this name. */
  predicate OnlyAt(items: seq<Item>, name: string, k: nat, n: nat)
    requires n <= |items|
  {
    forall j :: 0 <= j < n && j != k ==> items[j] != LabelItem(name)
  }

  predicate Undefined(t: Tables, name: string) {
    Find(t.labels, name).None?
  }

  /** The name has a settled position: among the labels, or among the globals and not the labels. */
  predicate Settled(t: Tables, name: string, pos: Word) {
    Find(t.labels, name) == Some(pos) || (Find(t.labels, name).None? && Find(t.globals, name) == Some(pos))
  }

  lemma EmitOther(u: Unit, item: Item, host: seq<string>, stale: Stale, name: string, pos: Word)
    requires item != LabelItem(name) && Emit(u, item, host, stale).Some?
    ensures var v := Emit(u, item, host, stale).value;
      && (Undefined(u.tables, name) ==> Undefined(v.tables, name))
      && (Settled(u.tables, name, pos) ==> Settled(v.tables, name, pos))
  {
    hide Find, Updated, Encode, Effective, Bytes, ToInt, Nat, Padding, RelocOf;
    match item
    case LabelItem(other) =>
      FindUpdated(u.tables.globals, other, Position(u), name);
      FindAppend(u.tables.labels, Label(other, Position(u)), name);
    case GloblItem(other) =>
      FindAppend(u.tables.globals, Label(other, stale(|u.tables.globals|)), name);
    case _ =>
  }

  lemma {:induction false} StaysUndefined(items: seq<Item>, host: seq<string>, stale: Stale, name: string, k: nat, n: nat)
    requires n <= k && n <= |items| && OnlyAt(items, name, k, n) && EmitAll(items, n, host, stale).Some?
    ensures Undefined(EmitAll(items, n, host, stale).value.tables, name)
    decreases n
  {
    hide Emit, Undefined;
    if n == 0 {
      EmptyUndefined(name);
    } else {
      StaysUndefined(items, host, stale, name, k, n - 1);
      EmitOther(EmitAll(items, n - 1, host, stale).value, items[n - 1], host, stale, name, 0);
    }
  }

  lemma EmptyUndefined(name: string)
    ensures Undefined(EMPTY.tables, name)
  {
  }

  lemma LabelSettles(u: Unit, name: string)
    requires Undefined(u.tables, name)
    ensures Settled(AddLabel(u, name).tables, name, Position(u))
  {
    hide Find, Updated;
    FindUpdated(u.tables.globals, name, Position(u), name);
    FindAppend(u.tables.labels, Label(name, Position(u)), name);
  }

  lemma EmitLabel(u: Unit, name: string, host: seq<string>, stale: Stale)
    ensures Emit(u, LabelItem(name), host, stale) == Some(AddLabel(u, name))
  {
    hide AddLabel;
  }

  lemma {:induction false} LabelStays(items: seq<Item>, host: seq<string>, stale: Stale, name: string, k: nat, n: nat)
    requires k < n <= |items| && items[k] == LabelItem(name) && OnlyAt(items, name, k, n)
    requires EmitAll(items, n, host, stale).Some?
    ensures EmitAll(items, k, host, stale).Some?
    ensures Settled(EmitAll(items, n, host, stale).value.tables, name, Position(EmitAll(items, k, host, stale).value))
    decreases n
  {
    hide Undefined, Settled, Position, AddLabel, Emit;
    EmitAllShorter(items, k, n, host, stale);
    var w := EmitAll(items, n - 1, host, stale).value;
    if n == k + 1 {
      StaysUndefined(items, host, stale, name, k, k);
      LabelSettles(w, name);
      EmitLabel(w, name, host, stale);
    } else {
      LabelStays(items, host, stale, name, k, n - 1);
      EmitOther(w, items[n - 1], host, stale, name, Position(EmitAll(items, k, host, stale).value));
    }
  }

  lemma SettledFound(t: Tables, name: string, pos: Word, fuel: nat)
    requires Settled(t, name, pos)
    ensures FindLabel(t, name, fuel) == Some(pos)
  {
    hide Find;
  }

  /** A label defined once, local or global, stands for the position of its item. */
  lemma LabelMeansPosition(p: Source, name: string, k: nat)
    requires Builds(p) && k < |p.items| && p.items[k] == LabelItem(name)
    requires OnlyAt(p.items, name, k, |p.items|) && IsName(name)
    ensures Lookup(Compiled(p).tables, name) == Some(At(p, k))
  {
    hide EmitAll, AllLinkable, AllReturn, OnlyAt, Settled, FindLabel, GetPos, Position;
    var t := Compiled(p).tables;
    LabelStays(p.items, p.host, p.stale, name, k, |p.items|);
    SettledFound(t, name, At(p, k), |t.sets|);
    NameStandsForPosition(t, name, |t.sets|);
  }
}
