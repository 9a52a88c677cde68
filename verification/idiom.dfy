/** Data words that hold positions, and the position-independent way of reading them. */
module Idiom {
  import opened Options
  import opened Words
  import opened Machine
  import opened Asm
  import opened Encoder
  import opened Symbols
  import opened Nesting
  import opened Assembler
  import opened Layout
  import opened Program
  import opened Effects
  import Expr

  // ---------------------------------------------------------------------------
  // Data words
  // ---------------------------------------------------------------------------

  predicate IsLong(p: Source, k: nat) {
    k < |p.items| && p.items[k].LongItem?
  }

  lemma LongPlace(p: Source, k: nat)
    requires Builds(p) && IsLong(p, k)
    ensures At(p, k + 1) == At(p, k) + 4 && At(p, k) + 4 <= |Image(p)|
    ensures Pass1(p, k).Some?
    ensures var m := |Pass1(p, k).value.pending|;
      m < |Compiled(p).pending| && Compiled(p).pending[m] == Pending(p.items[k].text, At(p, k), 0, RLabel)
  {
    hide Placed, Link, AllLinkable, AllReturn, EmitAll, Bytes;
    Prefix(p, k);
    Prefix(p, k + 1);
    var u, v := Pass1(p, k).value, Pass1(p, k + 1).value;
    assert Pass1(p, k + 1) == Emit(u, p.items[k], p.host, p.stale) by {
      OneMore(p, k);
    }
    assert v.pending == u.pending + [Pending(p.items[k].text, Position(u), 0, RLabel)];
  }

  lemma OneMore(p: Source, k: nat)
    requires k < |p.items| && Pass1(p, k).Some?
    ensures Pass1(p, k + 1) == Emit(Pass1(p, k).value, p.items[k], p.host, p.stale)
  {
    hide Emit;
  }

  /** A data word whose text resolves holds the value of the text in the linked program. */
  lemma LongWord(p: Source, k: nat, v: Word)
    requires Builds(p) && IsLong(p, k) && Lookup(Compiled(p).tables, p.items[k].text) == Some(v)
    ensures At(p, k) + 4 <= |Image(p)| && LoadWord(Image(p), At(p, k)) == v
  {
    hide Placed, Link, AllLinkable, AllReturn, EmitAll, LoadWord, Lookup;
    var u := Compiled(p);
    Prefix(p, k);
    LongPlace(p, k);
    var m := |Pass1(p, k).value.pending|;
    LinkedWord(u, m);
  }

  // ---------------------------------------------------------------------------
  // S-(P+8)
  // ---------------------------------------------------------------------------

  function Distance(sym: string, from: string): PosExp {
    Difference(Name(sym), Group(Sum(Name(from), One(Number(8)))))
  }

  lemma DistanceText(sym: string, from: string)
    ensures Written(Distance(sym, from)) == sym + "-(" + from + "+8)"
  {
    assert Expr.DecimalNat(8) == "8";
    assert Written(One(Number(8))) == "8";
    assert Written(Sum(Name(from), One(Number(8)))) == from + "+" + "8";
    assert Written(Group(Sum(Name(from), One(Number(8))))) == "(" + (from + "+" + "8") + ")";
    assert sym + "-" + ("(" + (from + "+" + "8") + ")") == sym + "-(" + from + "+8)";
  }

  lemma DistanceValue(t: Tables, sym: string, from: string, x: Word, y: Word, fuel: nat)
    requires IsName(sym) && IsName(from)
    requires FindLabel(t, sym, fuel) == Some(x) && FindLabel(t, from, fuel) == Some(y)
    ensures GetPos(t, sym + "-(" + from + "+8)", fuel) == Some(Wrap(x - (y + 8)))
  {
    hide FindLabel, GetPos, IsName;
    var e := Distance(sym, from);
    DistanceText(sym, from);
    assert PosExpOk(One(Number(8)));
    assert PosExpOk(Sum(Name(from), One(Number(8))));
    assert PosExpOk(Group(Sum(Name(from), One(Number(8)))));
    PositionDenotes(t, e, fuel);
    var eight := Expr.Constant(8);
    assert Resolved(t, One(Number(8)), fuel) == Some(Expr.Leaf(eight));
    var inner := Expr.Plus(Expr.Position(y), Expr.Leaf(eight));
    assert Resolved(t, Sum(Name(from), One(Number(8))), fuel) == Some(inner);
    assert Resolved(t, Group(Sum(Name(from), One(Number(8)))), fuel) == Some(Expr.Paren(inner));
    assert Resolved(t, e, fuel) == Some(Expr.Minus(Expr.Position(x), Expr.Paren(inner)));
    assert Expr.Denote(Expr.Leaf(eight)) == 8;
    assert Expr.Denote(Expr.Paren(inner)) == Expr.Denote(inner) == Wrap(y + 8);
    Expr.WrapNegate(x, y + 8);
  }

  // ---------------------------------------------------------------------------
  // Loading a position
  // ---------------------------------------------------------------------------

  lemma LiteralEffect(rd: Reg, sym: string, target: Word, s: State, env: Host)
    requires rd != PC
    ensures var t := Perform(Literal(AL, true, false, rd, sym), target, s, env);
      t.loc == Wrap(s.loc + 4) && t.mem == s.mem && Get(t.r, rd) == LoadWord(s.mem, target) && SameBut(s.r, t.r, rd as int)
  {
    hide Condition, Wrap, LoadWord;
    PerformAlways(Literal(AL, true, false, rd, sym), target, s, env);
  }

  lemma AddPcEffect(rd: Reg, s: State, env: Host)
    requires rd != PC
    ensures var t := Perform(Instr.Data(AL, ADD, false, rd, PC, Plain(rd)), 0, s, env);
      && t.loc == Wrap(s.loc + 4) && t.mem == s.mem
      && Get(t.r, rd) == Wrap(Wrap(s.loc + 8) + Get(s.r, rd)) && SameBut(s.r, t.r, rd as int)
  {
    hide Condition, Wrap;
    PerformAlways(Instr.Data(AL, ADD, false, rd, PC, Plain(rd)), 0, s, env);
  }

  /** The items `ldr rd, name` / `from:` / `add rd, pc, rd` at b, `name:` / `.long sym-(from+8)` at m, `sym:` at n. */
  ghost predicate Spelled(p: Source, b: nat, m: nat, n: nat, rd: Reg, name: string, from: string, sym: string) {
    && b + 2 < |p.items| && m + 1 < |p.items| && n < |p.items|
    && p.items[b] == InsItem(Literal(AL, true, false, rd, name))
    && p.items[b + 1] == LabelItem(from)
    && p.items[b + 2] == InsItem(Instr.Data(AL, ADD, false, rd, PC, Plain(rd)))
    && p.items[m] == LabelItem(name)
    && p.items[m + 1] == LongItem(sym + "-(" + from + "+8)")
    && p.items[n] == LabelItem(sym)
    && IsName(name) && IsName(from) && IsName(sym)
    && OnlyAt(p.items, name, m, |p.items|)
    && OnlyAt(p.items, from, b + 1, |p.items|)
    && OnlyAt(p.items, sym, n, |p.items|)
  }

  lemma NamePosition(p: Source, name: string, k: nat)
    requires Builds(p) && k < |p.items| && p.items[k] == LabelItem(name) && OnlyAt(p.items, name, k, |p.items|) && IsName(name)
    ensures Lookup(Compiled(p).tables, name) == Some(At(p, k))
    ensures FindLabel(Compiled(p).tables, name, |Compiled(p).tables.sets|) == Some(At(p, k))
  {
    hide EmitAll, AllLinkable, AllReturn, OnlyAt, FindLabel, GetPos, IsName;
    var t := Compiled(p).tables;
    LabelMeansPosition(p, name, k);
    NameStandsForPosition(t, name, |t.sets|);
  }

  lemma SpelledItems(p: Source, b: nat, m: nat, n: nat, rd: Reg, name: string, from: string, sym: string)
    requires Spelled(p, b, m, n, rd, name, from, sym)
    ensures b + 2 < |p.items| && m < |p.items| && n < |p.items|
    ensures IsInstr(p, b) && InstrOf(p, b) == Literal(AL, true, false, rd, name)
    ensures IsInstr(p, b + 2) && InstrOf(p, b + 2) == Instr.Data(AL, ADD, false, rd, PC, Plain(rd))
    ensures p.items[m] == LabelItem(name) && OnlyAt(p.items, name, m, |p.items|) && IsName(name)
  {
    hide OnlyAt, IsName;
  }

  lemma LiteralSound(p: Source, b: nat, m: nat, rd: Reg, name: string)
    requires Builds(p) && IsInstr(p, b) && InstrOf(p, b) == Literal(AL, true, false, rd, name)
    requires m < |p.items| && p.items[m] == LabelItem(name) && OnlyAt(p.items, name, m, |p.items|) && IsName(name)
    requires LiteralReach(At(p, b), At(p, m))
    ensures Sound(p, b) && TargetOf(p, InstrOf(p, b)) == Some(At(p, m))
  {
    hide Builds, At, Lookup, FindLabel, LiteralReach, OnlyAt, IsName, InstrOf;
    NamePosition(p, name, m);
  }

  lemma AddSound(p: Source, k: nat, rd: Reg)
    requires Builds(p) && IsInstr(p, k) && InstrOf(p, k) == Instr.Data(AL, ADD, false, rd, PC, Plain(rd))
    ensures Sound(p, k) && TargetOf(p, InstrOf(p, k)) == Some(0)
  {
    hide Builds, At, Lookup, InstrOf;
  }

  lemma SpelledPositions(p: Source, b: nat, m: nat, n: nat, rd: Reg, name: string, from: string, sym: string)
    requires Builds(p) && Spelled(p, b, m, n, rd, name, from, sym)
    ensures At(p, b + 2) == At(p, b + 1) == At(p, b) + 4 && At(p, b) + 8 <= TWO31
    ensures At(p, m + 1) == At(p, m) && At(p, m) + 4 <= |Image(p)|
  {
    hide Builds, At, OnlyAt, IsName, Image;
    InstrTakesWord(p, b);
    LabelKeepsPosition(p, b + 1);
    InstrTakesWord(p, b + 2);
    LabelKeepsPosition(p, m);
    LongPlace(p, m + 1);
  }

  lemma SpelledWord(p: Source, b: nat, m: nat, n: nat, rd: Reg, name: string, from: string, sym: string)
    requires Builds(p) && Spelled(p, b, m, n, rd, name, from, sym)
    ensures LoadWord(Image(p), At(p, m)) == Wrap(At(p, n) - (At(p, b + 1) + 8))
  {
    hide Builds, At, Image, Lookup, FindLabel, OnlyAt, IsName, LoadWord, Wrap;
    SpelledPositions(p, b, m, n, rd, name, from, sym);
    NamePosition(p, from, b + 1);
    NamePosition(p, sym, n);
    var t := Compiled(p).tables;
    DistanceValue(t, sym, from, At(p, n), At(p, b + 1), |t.sets|);
    DistanceLookup(t, sym + "-(" + from + "+8)");
    LongWord(p, m + 1, Wrap(At(p, n) - (At(p, b + 1) + 8)));
  }

  lemma DistanceLookup(t: Tables, text: string)
    ensures Lookup(t, text) == GetPos(t, text, |t.sets|)
  {
    hide GetPos;
  }

  lemma WrapBack(x: Word, y: int)
    ensures Wrap(Wrap(y) + Wrap(x - y)) == x
  {
  }

  lemma FirstStep(p: Source, b: nat, m: nat, n: nat, rd: Reg, name: string, from: string, sym: string, s: State, env: Host)
    requires Builds(p) && Spelled(p, b, m, n, rd, name, from, sym) && LiteralReach(At(p, b), At(p, m))
    requires Loaded(p, s.mem) && s.loc == At(p, b)
    ensures Step(s, env) == Perform(Literal(AL, true, false, rd, name), At(p, m), s, env)
  {
    hide *;
    SpelledItems(p, b, m, n, rd, name, from, sym);
    LiteralSound(p, b, m, rd, name);
    LoadedStands(p, s.mem, b);
    StepAtItem(p, b, s, env);
  }

  lemma SecondStep(p: Source, b: nat, m: nat, n: nat, rd: Reg, name: string, from: string, sym: string, s: State, env: Host)
    requires Builds(p) && Spelled(p, b, m, n, rd, name, from, sym) && LiteralReach(At(p, b), At(p, m))
    requires Loaded(p, s.mem) && s.loc == At(p, b + 2)
    ensures Step(s, env) == Perform(Instr.Data(AL, ADD, false, rd, PC, Plain(rd)), 0, s, env)
  {
    hide *;
    SpelledItems(p, b, m, n, rd, name, from, sym);
    AddSound(p, b + 2, rd);
    LoadedStands(p, s.mem, b + 2);
    StepAtItem(p, b + 2, s, env);
  }

  lemma DistanceLoaded(p: Source, b: nat, m: nat, n: nat, rd: Reg, name: string, from: string, sym: string, s: State, env: Host)
    requires Builds(p) && Spelled(p, b, m, n, rd, name, from, sym) && rd != PC
    requires LiteralReach(At(p, b), At(p, m))
    requires Loaded(p, s.mem) && s.loc == At(p, b)
    ensures var t := Step(s, env);
      && Get(t.r, rd) == Wrap(At(p, n) - (At(p, b + 1) + 8)) && t.loc == At(p, b) + 4
      && t.mem == s.mem && SameBut(s.r, t.r, rd as int)
  {
    hide *;
    SpelledItems(p, b, m, n, rd, name, from, sym);
    FirstStep(p, b, m, n, rd, name, from, sym, s, env);
    SpelledPositions(p, b, m, n, rd, name, from, sym);
    SpelledWord(p, b, m, n, rd, name, from, sym);
    LoadedWord(p, s.mem, At(p, m));
    LiteralEffect(rd, name, At(p, m), s, env);
    LocAfter(At(p, b));
  }

  lemma LocAfter(a: Word)
    ensures a + 8 <= TWO31 ==> Wrap(a + 4) == a + 4 && Wrap(a + 8) == a + 8 && Wrap(a + 4 + 4) == a + 8
  {
  }

  lemma LoadedWord(p: Source, mem: seq<Byte>, a: nat)
    requires Builds(p) && Loaded(p, mem) && a + 4 <= |Image(p)|
    ensures LoadWord(mem, a) == LoadWord(Image(p), a)
  {
    hide Builds, Image, LoadWord;
    LoadFromPrefix(Image(p), mem, a);
  }

  lemma DistanceAdded(p: Source, b: nat, m: nat, n: nat, rd: Reg, name: string, from: string, sym: string, t: State, env: Host)
    requires Builds(p) && Spelled(p, b, m, n, rd, name, from, sym) && rd != PC
    requires LiteralReach(At(p, b), At(p, m))
    requires Loaded(p, t.mem) && t.loc == At(p, b) + 4 && Get(t.r, rd) == Wrap(At(p, n) - (At(p, b + 1) + 8))
    ensures var u := Step(t, env);
      && Get(u.r, rd) == At(p, n) && u.loc == At(p, b) + 8
      && u.mem == t.mem && SameBut(t.r, u.r, rd as int)
  {
    hide *;
    SpelledItems(p, b, m, n, rd, name, from, sym);
    SpelledPositions(p, b, m, n, rd, name, from, sym);
    SecondStep(p, b, m, n, rd, name, from, sym, t, env);
    AddPcEffect(rd, t, env);
    LocAfter(At(p, b));
    WrapBack(At(p, n), At(p, b) + 12);
    LocWrapped(At(p, b));
  }

  lemma LocWrapped(a: Word)
    ensures Wrap(a + 4 + 8) == Wrap(a + 12)
  {
  }

  lemma SameTwice(r: Regs, r': Regs, r'': Regs, x: nat)
    requires SameBut(r, r', x) && SameBut(r', r'', x)
    ensures SameBut(r, r'', x)
  {
  }

  /**
   The two instructions always leave the position of `sym` in rd, wherever the linker puts the three
   labels, as long as the literal is within reach of the load.
   */
  lemma PositionLoaded(p: Source, b: nat, m: nat, n: nat, rd: Reg, name: string, from: string, sym: string, s: State, env: Host)
    requires Builds(p) && Spelled(p, b, m, n, rd, name, from, sym) && rd != PC
    requires LiteralReach(At(p, b), At(p, m))
    requires Loaded(p, s.mem) && s.loc == At(p, b)
    ensures var t := Run(s, env, 2);
      && Get(t.r, rd) == At(p, n) && t.loc == At(p, b) + 8
      && t.mem == s.mem && SameBut(s.r, t.r, rd as int)
  {
    hide *;
    DistanceLoaded(p, b, m, n, rd, name, from, sym, s, env);
    DistanceAdded(p, b, m, n, rd, name, from, sym, Step(s, env), env);
    SameTwice(s.r, Step(s, env).r, Step(Step(s, env), env).r, rd as int);
    RunTwo(s, env);
  }

  lemma RunTwo(s: State, env: Host)
    ensures Run(s, env, 2) == Step(Step(s, env), env)
  {
    hide Step;
    assert Run(Step(s, env), env, 1) == Step(Step(s, env), env);
  }
}
