/**
 A guest program on the virtual machine: `_sum_array` of the example application.

 The function is placed anywhere in any program that assembles; what it computes, how many steps it
 takes and which bytes it touches is stated for the interpreter running the assembled bytes.
 */
module SumArray {
  import opened Options
  import opened Words
  import opened Machine
  import opened Asm
  import opened Encoder
  import opened Relocate
  import opened Agreement
  import opened Symbols
  import opened Assembler
  import opened Program
  import opened Effects
  import Expr

  const GE: bv4 := 10
  const LIST_SAVED: bv16 := 0x4030
  const LIST_RESTORED: bv16 := 0x8030

  const PUSH := BlockMove(AL, false, DB, true, SP, LIST_SAVED)
  const CLEAR_I := Instr.Data(AL, MOV, false, 4, 0, Imm(0, false))
  const CLEAR_TOTAL := Instr.Data(AL, MOV, false, 5, 0, Imm(0, false))
  const COMPARE := Instr.Data(AL, CMP, false, 0, 4, Plain(1))
  const EXIT := Jump(GE, false, "_sum_done")
  const LOAD := Transfer(AL, true, false, 2, 0, Index(ByConst(4, LSL, 2)), false, Pre(false))
  const ADD_ITEM := Instr.Data(AL, ADD, false, 5, 5, Plain(2))
  const NEXT := Instr.Data(AL, ADD, false, 4, 4, Imm(1, false))
  const LOOP := Jump(AL, false, "_sum_loop")
  const RESULT := Instr.Data(AL, MOV, false, 0, 0, Plain(5))
  const POP := BlockMove(AL, true, IA, true, SP, LIST_RESTORED)

  const ITEMS: seq<Item> := [
    LabelItem("_sum_array"),
    InsItem(PUSH), InsItem(CLEAR_I), InsItem(CLEAR_TOTAL),
    LabelItem("_sum_loop"),
    InsItem(COMPARE), InsItem(EXIT), InsItem(LOAD), InsItem(ADD_ITEM), InsItem(NEXT), InsItem(LOOP),
    LabelItem("_sum_done"),
    InsItem(RESULT), InsItem(POP)
  ]

  /** The function's lines stand at item b, and its inner labels mean what they say. */
  ghost predicate Contains(p: Source, b: nat) {
    && b + 14 <= |p.items| && p.items[b..b + 14] == ITEMS
    && OnlyAt(p.items, "_sum_loop", b + 4, |p.items|)
    && OnlyAt(p.items, "_sum_done", b + 11, |p.items|)
    && "sum_loop" !in p.host && "sum_done" !in p.host
  }

  // ---------------------------------------------------------------------------
  // Layout
  // ---------------------------------------------------------------------------

  function InstrIndex(k: nat): nat
    requires k < 11
  {
    if k < 3 then k + 1 else if k < 9 then k + 2 else k + 3
  }

  function Code(k: nat): Instr
    requires k < 11
  {
    [PUSH, CLEAR_I, CLEAR_TOTAL, COMPARE, EXIT, LOAD, ADD_ITEM, NEXT, LOOP, RESULT, POP][k]
  }

  lemma ItemAt(p: Source, b: nat, j: nat)
    requires Contains(p, b) && j < 14
    ensures p.items[b + j] == ITEMS[j]
  {
    assert p.items[b + j] == p.items[b..b + 14][j];
  }

  lemma Labels(p: Source, b: nat)
    requires Contains(p, b)
    ensures b + 14 <= |p.items| && p.items[b].LabelItem?
    ensures p.items[b + 4] == LabelItem("_sum_loop") && OnlyAt(p.items, "_sum_loop", b + 4, |p.items|)
    ensures p.items[b + 11] == LabelItem("_sum_done") && OnlyAt(p.items, "_sum_done", b + 11, |p.items|)
  {
    hide OnlyAt;
    ItemAt(p, b, 0);
    ItemAt(p, b, 4);
    ItemAt(p, b, 11);
  }

  lemma InnerNames()
    ensures "_sum_loop"[1..] == "sum_loop" && "_sum_done"[1..] == "sum_done"
  {
  }

  lemma EffectiveCode(i: Instr, host: seq<string>)
    requires !i.Jump? || (i.sym != [] && i.sym[1..] !in host)
    ensures Effective(i, host) == i
  {
  }

  lemma CodeAt(p: Source, b: nat, k: nat)
    requires Contains(p, b) && k < 11
    ensures IsInstr(p, b + InstrIndex(k)) && InstrOf(p, b + InstrIndex(k)) == Code(k)
  {
    hide Effective;
    ItemAt(p, b, InstrIndex(k));
    InnerNames();
    EffectiveCode(Code(k), p.host);
  }

  lemma NextPosition(p: Source, b: nat, k: nat)
    requires Builds(p) && Contains(p, b) && k < 10
    ensures At(p, b + InstrIndex(k + 1)) == At(p, b + InstrIndex(k)) + 4
  {
    hide At, Image, Builds, InstrOf, Contains, Code, IsInstr, OnlyAt;
    var j := b + InstrIndex(k);
    CodeAt(p, b, k);
    InstrTakesWord(p, j);
    Labels(p, b);
    if k == 2 {
      LabelKeepsPosition(p, j + 1);
    } else if k == 8 {
      LabelKeepsPosition(p, j + 1);
    }
  }

  /** The instructions stand one word after another. */
  lemma {:induction false} Positions(p: Source, b: nat, k: nat)
    requires Builds(p) && Contains(p, b) && k < 11
    ensures IsInstr(p, b + InstrIndex(k)) && InstrOf(p, b + InstrIndex(k)) == Code(k)
    ensures At(p, b + InstrIndex(k)) == At(p, b) + 4 * k && At(p, b) + 4 * k + 4 <= |Image(p)| <= TWO31
    decreases k
  {
    hide At, Image, Builds, InstrOf, Contains, IsInstr, Code;
    CodeAt(p, b, k);
    InstrTakesWord(p, b + InstrIndex(k));
    if k > 0 {
      Positions(p, b, k - 1);
      NextPosition(p, b, k - 1);
    } else {
      FirstPosition(p, b);
    }
  }

  lemma FirstPosition(p: Source, b: nat)
    requires Builds(p) && Contains(p, b)
    ensures At(p, b + 1) == At(p, b)
  {
    hide At, Builds, Contains;
    Labels(p, b);
    LabelKeepsPosition(p, b);
  }

  lemma LabelTarget(p: Source, name: string, k: nat)
    requires Builds(p) && k < |p.items| && p.items[k] == LabelItem(name)
    requires OnlyAt(p.items, name, k, |p.items|) && IsName(name)
    ensures Lookup(Compiled(p).tables, name) == Some(At(p, k + 1))
  {
    hide At, Builds, Lookup, OnlyAt, IsName;
    LabelKeepsPosition(p, k);
    LabelMeansPosition(p, name, k);
  }

  lemma NamesOk()
    ensures IsName("_sum_loop") && IsName("_sum_done")
  {
    assert !Expr.IsDigit("_sum_loop"[0]) && !Expr.IsDigit("_sum_done"[0]);
  }

  lemma InnerLabels(p: Source, b: nat)
    requires Builds(p) && Contains(p, b)
    ensures At(p, b) + 44 <= |Image(p)| <= TWO31
    ensures Lookup(Compiled(p).tables, "_sum_loop") == Some(At(p, b) + 12)
    ensures Lookup(Compiled(p).tables, "_sum_done") == Some(At(p, b) + 36)
  {
    hide *;
    Labels(p, b);
    Positions(p, b, 3);
    Positions(p, b, 9);
    Positions(p, b, 10);
    InnerIndex();
    NamesOk();
    LabelTarget(p, "_sum_loop", b + 4);
    LabelTarget(p, "_sum_done", b + 11);
  }

  lemma InnerIndex()
    ensures InstrIndex(3) == 5 && InstrIndex(9) == 12
  {
  }

  /** Where instruction k jumps; 0 for the others. */
  function DestAt(base: Word, k: nat): Word {
    if k == 4 then Wrap(base + 36) else if k == 8 then Wrap(base + 12) else 0
  }

  lemma CodeEncodable(k: nat)
    requires k < 11
    ensures Encodable(Code(k))
  {
    hide Packable, ImmValue;
    SmallConstant(0);
    SmallConstant(1);
  }

  lemma ShortReach(at: Word, d: int)
    requires -64 <= d <= 64 && 0 <= at + d < TWO31
    ensures BranchReach(at, at + d)
  {
  }

  lemma CodeTarget(p: Source, b: nat, k: nat)
    requires Builds(p) && Contains(p, b) && k < 11
    ensures TargetOf(p, Code(k)) == Some(DestAt(At(p, b), k))
  {
    hide At, Builds, Image, Lookup, Contains, Code;
    InnerLabels(p, b);
    CodeKinds(k);
  }

  lemma SoundFrom(p: Source, k: nat, target: Word)
    requires Builds(p) && IsInstr(p, k) && Encodable(InstrOf(p, k))
    requires TargetOf(p, InstrOf(p, k)) == Some(target) && InReach(InstrOf(p, k), At(p, k), target)
    ensures Sound(p, k)
  {
    hide At, Builds, TargetOf, InstrOf, Encodable, InReach;
  }

  lemma CodeSound(p: Source, b: nat, k: nat)
    requires Builds(p) && Contains(p, b) && k < 11
    ensures IsInstr(p, b + InstrIndex(k)) && Sound(p, b + InstrIndex(k))
    ensures TargetOf(p, InstrOf(p, b + InstrIndex(k))) == Some(DestAt(At(p, b), k))
  {
    hide *;
    Labels(p, b);
    Positions(p, b, k);
    InnerLabels(p, b);
    CodeTarget(p, b, k);
    CodeEncodable(k);
    CodeReach(k, At(p, b));
    SoundFrom(p, b + InstrIndex(k), DestAt(At(p, b), k));
  }

  lemma CodeKinds(k: nat)
    requires k < 11
    ensures !Code(k).Literal? && !Code(k).Address?
    ensures Symbolic(Code(k)) <==> k == 4 || k == 8
    ensures k == 4 ==> Code(k).sym == "_sum_done"
    ensures k == 8 ==> Code(k).sym == "_sum_loop"
  {
  }

  lemma CodeReach(k: nat, base: Word)
    requires k < 11 && base + 44 <= TWO31
    ensures InReach(Code(k), base + 4 * k, DestAt(base, k))
  {
    hide BranchReach;
    ShortReach(base + 16, 20);
    ShortReach(base + 32, -20);
  }

  /** Executing at instruction k of the function performs that instruction. */
  lemma CodeStep(p: Source, b: nat, k: nat, s: State, env: Host)
    requires Builds(p) && Contains(p, b) && k < 11 && Loaded(p, s.mem) && s.loc == At(p, b) + 4 * k
    ensures Step(s, env) == Perform(Code(k), DestAt(At(p, b), k), s, env)
  {
    hide *;
    Positions(p, b, k);
    CodeSound(p, b, k);
    LoadedStands(p, s.mem, b + InstrIndex(k));
    StepAtItem(p, b + InstrIndex(k), s, env);
  }

  // ---------------------------------------------------------------------------
  // The function in memory
  // ---------------------------------------------------------------------------

  ghost predicate Performs(t: State, env: Host, base: Word, k: nat)
    requires k < 11
  {
    Step(t, env) == Perform(Code(k), DestAt(base, k), t, env)
  }

  /** Wherever these bytes are loaded, the function's instructions are performed at base and up. */
  ghost predicate Resident(image: seq<Byte>, base: Word, env: Host) {
    && base + 44 <= |image| <= TWO31
    && forall t: State, k: nat :: k < 11 && Holds(image, t.mem) && t.loc == base + 4 * k ==> Performs(t, env, base, k)
  }

  lemma FunctionResident(p: Source, b: nat, env: Host)
    requires Builds(p) && Contains(p, b)
    ensures Resident(Image(p), At(p, b), env)
  {
    assert b <= |p.items|;
    hide Builds, At, Contains, Image, Step, Perform, Code;
    Positions(p, b, 10);
    forall t: State, k: nat | k < 11 && Holds(Image(p), t.mem) && t.loc == At(p, b) + 4 * k
      ensures Performs(t, env, At(p, b), k)
    {
      CodeStep(p, b, k, t, env);
    }
  }
}
