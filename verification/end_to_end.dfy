/**
 From source to final state: a source compiled by the compiler class, loaded at the bottom of a fresh
 memory and called on the VM class.
 */
module EndToEnd {
  import opened Words
  import opened Machine
  import opened Asm
  import opened Encoder
  import opened Agreement
  import opened Nesting
  import opened Assembler
  import opened Program
  import opened Contents
  import opened Vm
  import Compiler
  import DecodeMisc
  import Effects
  import SumArray
  import SumRun

  /**
   The source program stands at sound instructions whose accesses are defined for n steps, overwrites
   none of its instructions, and then for the first time leaves the program.
   */
  ghost predicate Finishes(p: Source, s: State, env: Host, n: nat)
    requires Builds(p)
    decreases n
  {
    if n == 0 then s.loc >= |Image(p)|
    else
      && AtSound(p, s.loc) && StepDefined(s)
      && var t := SourceStep(p, s, env);
         CodeStands(p, t.mem) && t.loc != 0xffff_ffff && Finishes(p, t, env, n - 1)
  }

  lemma AtInside(p: Source, loc: Word)
    requires Builds(p) && AtInstr(p, loc)
    ensures loc < |Image(p)|
  {
    hide Builds, At, Image;
    InstrTakesWord(p, InstrAt(p, loc));
  }

  lemma ImageFits(p: Source)
    requires Builds(p)
    ensures |Image(p)| <= TWO31
  {
    hide EmitAll, Link, AllLinkable, AllReturn;
  }

  /** The interpreter leaves the program after the same number of steps, in the source's final state. */
  lemma {:induction false} FinishHalts(p: Source, s: State, env: Host, n: nat)
    requires Builds(p) && CodeStands(p, s.mem) && Finishes(p, s, env, n)
    ensures |Image(p)| <= TWO31 && Steady(p, s, env, n)
    ensures Halts(s, env, |Image(p)|, n) && Run(s, env, n) == SourceRun(p, s, env, n)
    decreases n
  {
    hide Builds, Image, CodeStands, AtInstr, Sound, SourceStep, Step, StepDefined;
    ImageFits(p);
    if n > 0 {
      AtInside(p, s.loc);
      StepSimulates(p, s, env);
      FinishHalts(p, SourceStep(p, s, env), env, n - 1);
    }
  }

  /**
   The state in which a loaded program is called: `rest` is what the new memory holds above it, and the
   registers and status are what earlier calls left.
   */
  ghost function Entry(p: Source, r: Regs, status: bv32, rest: seq<Byte>, stack: Word): State
    requires Builds(p)
  {
    ImageFits(p);
    var loaded := State(Put(r, SP, Wrap(stack + |Image(p)|)), Image(p) + rest, 0, status);
    Start(loaded, Compiled(p).main, |Image(p)|)
  }

  /**
   A call starts at the last definition of `_main`, with r0 to r12 all ones, the stack pointer at the
   end of the stack, lr past the program, and everything else as it was.
   */
  ghost predicate Enters(p: Source, s: State, r: Regs, status: bv32, rest: seq<Byte>, stack: Word)
    requires Builds(p)
  {
    && IsEntry(p, s.loc)
    && (forall j :: 0 <= j < 13 ==> s.r[j] == 0xffff_ffff)
    && (s.r[13] - |Image(p)| - stack) % TWO32 == 0 && s.r[14] == |Image(p)| && s.r[15] == r[15]
    && s.mem == Image(p) + rest && s.cpsr == status
  }

  lemma EntryEnters(p: Source, r: Regs, status: bv32, rest: seq<Byte>, stack: Word)
    requires Builds(p)
    ensures Enters(p, Entry(p, r, status, rest, stack), r, status, rest, stack)
  {
    hide Builds, Image, Compiled, IsEntry;
    EntryPoint(p);
    ImageFits(p);
    var loaded := State(Put(r, SP, Wrap(stack + |Image(p)|)), Image(p) + rest, 0, status);
    StartIs(loaded, Compiled(p).main, |Image(p)|);
  }

  lemma EntryLoaded(p: Source, r: Regs, status: bv32, rest: seq<Byte>, stack: Word)
    requires Builds(p)
    ensures CodeStands(p, Entry(p, r, status, rest, stack).mem)
  {
    hide Builds, Image, Compiled, CodeStands;
    assert (Image(p) + rest)[..|Image(p)|] == Image(p);
    LoadedCode(p, Image(p) + rest);
  }

  /**
   Compile, load, call: when the source program finishes after n steps, so does the machine, in the
   state in which the source program finishes.
   */
  method LoadAndCall(c: Compiler.Compiler, items: seq<Item>, rest: seq<Byte>,
                     regs: array<Word>, status: bv32, stack: Word, syscall: Host, ghost n: nat)
    returns (ok: bool, vm: VM?)
    requires c.labels != c.globals && regs.Length == 16
    requires |items| <= c.labels.Length && |items| <= c.globals.Length
    requires |items| <= c.sets.Length && |items| <= c.symbols.Length
    requires var p := Source(items, c.host, Compiler.Leftover(c.globals[..]));
      Pass1(p, |items|).Some? ==> Builds(p) && Finishes(p, Entry(p, regs[..], status, rest, stack), syscall, n)
    modifies c, c.labels, c.globals, c.sets, c.symbols, regs
    ensures var p := Source(items, c.host, Compiler.Leftover(old(c.globals[..])));
      && ok == Pass1(p, |items|).Some?
      && (ok ==>
            && Builds(p) && Steady(p, Entry(p, old(regs[..]), status, rest, stack), syscall, n)
            && Enters(p, Entry(p, old(regs[..]), status, rest, stack), old(regs[..]), status, rest, stack)
            && vm != null && vm.Valid() && vm.r == regs
            && vm.Value() == SourceRun(p, Entry(p, old(regs[..]), status, rest, stack), syscall, n))
  {
    hide Builds, Image, Compiled, Pass1, Finishes, Steady, SourceRun, Halts, Start, Enters, IsEntry;
    ghost var p := Source(items, c.host, Compiler.Leftover(c.globals[..]));
    ghost var r := regs[..];
    vm := null;
    ok := c.LoadBuffer(items);
    if ok {
      ImageFits(p);
      ghost var entry := Entry(p, r, status, rest, stack);
      var bytes := c.file + rest;
      var memory := new Byte[|bytes|](k requires 0 <= k < |bytes| => bytes[k]);
      assert memory[..] == Image(p) + rest;
      regs[13] := Wrap(stack + |c.file|);
      assert regs[..] == Put(r, SP, Wrap(stack + |Image(p)|));
      vm := new VM(regs, memory, syscall, |c.file|);
      vm.cpsr := status;
      EntryLoaded(p, r, status, rest, stack);
      EntryEnters(p, r, status, rest, stack);
      FinishHalts(p, entry, syscall, n);
      vm.Execute(c.mainLabel, n);
    }
  }

  // ---------------------------------------------------------------------------
  // Programs that return
  // ---------------------------------------------------------------------------

  lemma BxPerforms(s: State, target: Word, env: Host)
    ensures var t := Perform(Bx(AL, LR), target, s, env);
      t.loc == s.r[14] && t.mem == s.mem
  {
    hide Condition;
    Effects.PerformAlways(Bx(AL, LR), target, s, env);
  }

  /** A program whose entry is `bx lr` leaves itself after one step, at its very end. */
  lemma ReturnsAtOnce(p: Source, k: nat, r: Regs, status: bv32, rest: seq<Byte>, stack: Word, env: Host)
    requires Builds(p) && IsInstr(p, k) && InstrOf(p, k) == Bx(AL, LR) && Compiled(p).main == At(p, k)
    ensures var s := Entry(p, r, status, rest, stack);
      Finishes(p, s, env, 1) && Halts(s, env, |Image(p)|, 1) && Run(s, env, 1).loc == |Image(p)|
  {
    hide *;
    var s := Entry(p, r, status, rest, stack);
    ReturnEntry(p, k, r, status, rest, stack);
    ImageFits(p);
    BxSound(p, k);
    BxDefined(p, k, s);
    BxStep(p, k, s, env);
    StandsAt(p, k, s);
    StepSimulates(p, s, env);
    FinishesOnce(p, s, env);
    FinishHalts(p, s, env, 1);
    OneStep(s, env);
  }

  lemma ReturnEntry(p: Source, k: nat, r: Regs, status: bv32, rest: seq<Byte>, stack: Word)
    requires Builds(p) && IsInstr(p, k) && Compiled(p).main == At(p, k)
    ensures var s := Entry(p, r, status, rest, stack);
      && s.loc == At(p, k) && s.r[14] == |Image(p)| && |Image(p)| <= |s.mem|
      && CodeStands(p, s.mem) && Stands(p, k, s.mem)
  {
    hide Builds, At, Image, Compiled, Stands;
    EntryEnters(p, r, status, rest, stack);
    EntryLoaded(p, r, status, rest, stack);
    EntryFits(p, r, status, rest, stack);
  }

  lemma BxStep(p: Source, k: nat, s: State, env: Host)
    requires Builds(p) && IsInstr(p, k) && InstrOf(p, k) == Bx(AL, LR)
    requires s.loc == At(p, k) && Stands(p, k, s.mem)
    ensures Step(s, env).loc == s.r[14] && Step(s, env).mem == s.mem
  {
    hide *;
    BxSound(p, k);
    StepAtItem(p, k, s, env);
    BxPerforms(s, TargetOf(p, InstrOf(p, k)).value, env);
  }

  lemma StandsAt(p: Source, k: nat, s: State)
    requires Builds(p) && IsInstr(p, k) && Sound(p, k) && s.loc == At(p, k)
    ensures AtSound(p, s.loc)
  {
    hide Builds, At, Sound;
    InstrUnique(p, k, InstrAt(p, s.loc));
  }

  lemma FinishesOnce(p: Source, s: State, env: Host)
    requires Builds(p) && AtSound(p, s.loc) && StepDefined(s)
    requires var t := SourceStep(p, s, env);
      CodeStands(p, t.mem) && t.loc == |Image(p)| && |Image(p)| <= TWO31
    ensures Finishes(p, s, env, 1)
  {
    hide Builds, Image, CodeStands, AtSound, SourceStep, StepDefined;
    assert Finishes(p, SourceStep(p, s, env), env, 0);
  }

  lemma EntryFits(p: Source, r: Regs, status: bv32, rest: seq<Byte>, stack: Word)
    requires Builds(p)
    ensures |Image(p)| <= |Entry(p, r, status, rest, stack).mem|
  {
    hide Builds, Image, Compiled;
  }

  lemma BxDefined(p: Source, k: nat, s: State)
    requires Builds(p) && IsInstr(p, k) && InstrOf(p, k) == Bx(AL, LR)
    requires s.loc == At(p, k) && Stands(p, k, s.mem) && |Image(p)| <= |s.mem|
    ensures StepDefined(s)
  {
    hide Builds, At, Image, InstrOf, TargetOf, Patch, Encode, LoadWord, ToInt, Fetch, Classify, Condition;
    BxSound(p, k);
    CodeWord(p, k);
    InstrPlace(p, k);
    PlainPatch(InstrOf(p, k), Encode(InstrOf(p, k)), At(p, k), TargetOf(p, InstrOf(p, k)).value);
    FetchIs(s, Encode(Bx(AL, LR)));
    BxClass();
  }

  lemma BxClass()
    ensures Classify(Encode(Bx(AL, LR))) == Exchange
  {
    hide Classify;
    DecodeMisc.BxWord(AL, LR, AssembleBx(AL, LR));
  }

  lemma BxSound(p: Source, k: nat)
    requires Builds(p) && IsInstr(p, k) && InstrOf(p, k) == Bx(AL, LR)
    ensures Sound(p, k) && TargetOf(p, InstrOf(p, k)).Some?
  {
    hide Builds, At, InstrOf, Lookup;
  }

  lemma OneStep(s: State, env: Host)
    ensures Run(s, env, 1) == Step(s, env)
  {
    hide Step;
  }

  /**
   A program whose entry is `_sum_array` counts -1 elements, so that it sums nothing and leaves itself
   after seven steps, at its very end and with the stack as it found it.
   */
  lemma SumReturns(p: Source, b: nat, r: Regs, status: bv32, rest: seq<Byte>, stack: Word, env: Host)
    requires Builds(p) && SumArray.Contains(p, b) && Compiled(p).main == At(p, b)
    requires 12 <= stack <= |rest| && |Image(p)| + |rest| <= TWO31
    ensures var t := Run(Entry(p, r, status, rest, stack), env, 7);
      t.loc == |Image(p)| && t.r[0] == 0 && t.r[13] == stack + |Image(p)|
  {
    hide Builds, At, Image, Compiled, SumArray.Contains, Run;
    var s := Entry(p, r, status, rest, stack);
    EntryEnters(p, r, status, rest, stack);
    EntryHolds(p, r, status, rest, stack);
    assert SumRun.Elements(s) == 0;
    SumRun.SumArrayRuns(p, b, s, env);
  }

  lemma EntryHolds(p: Source, r: Regs, status: bv32, rest: seq<Byte>, stack: Word)
    requires Builds(p) && 12 <= stack <= |rest| && |Image(p)| + |rest| <= TWO31
    ensures var s := Entry(p, r, status, rest, stack);
      && s.loc == Compiled(p).main && s.r[13] == stack + |Image(p)| && Holds(Image(p), s.mem)
  {
    hide Builds, Image, Compiled;
    EntryEnters(p, r, status, rest, stack);
    assert (Image(p) + rest)[..|Image(p)|] == Image(p);
  }
}
