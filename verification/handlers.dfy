/** What an executed word means, in terms of the instructions that assemble to it. */
module Handlers {
  import opened Words
  import opened Machine
  import opened Asm
  import opened Encoder
  import opened Relocate
  import opened Agreement

  /** The word is the encoding of this instruction, which names no label. */
  predicate Spells(i: bv32, ins: Instr) {
    !Symbolic(ins) && Encodable(ins) && Encode(ins) == i
  }

  /** From s to t the word has done what every instruction it spells says. */
  ghost predicate Means(i: bv32, s: State, t: State, host: Host) {
    forall ins: Instr :: Spells(i, ins) ==> t == Asm.Exec(ins, 0, s, host)
  }

  lemma DispatchMeans(i: bv32, s: State, host: Host)
    ensures Means(i, s, Dispatch(s, i, host), host)
  {
    hide Dispatch, Asm.Exec, Encode, Encodable;
    forall ins: Instr | Spells(i, ins)
      ensures Dispatch(s, i, host) == Asm.Exec(ins, 0, s, host)
    {
      EncodeThenExecute(ins, s, host, 0);
    }
  }

  // A word that its class hands to one handler means what that handler does.

  lemma DataMeans(i: bv32, s: State, host: Host)
    ensures Classify(i) == Class.Data ==> Means(i, s, DataProcessing(s, i), host)
  {
    hide Means, Classify, DataProcessing;
    DispatchMeans(i, s, host);
  }

  lemma TransferMeans(i: bv32, s: State, host: Host)
    ensures Classify(i) == Class.Single ==> Means(i, s, DataTransfer(s, i), host)
  {
    hide Means, Classify, DataTransfer;
    DispatchMeans(i, s, host);
  }

  lemma HalfMeans(i: bv32, s: State, host: Host)
    ensures Classify(i) == Class.Half ==> Means(i, s, HalfTransfer(s, i, Get(s.r, Reg0(i))), host)
  {
    hide Means, Classify, HalfTransfer, Get, Reg0;
    DispatchMeans(i, s, host);
  }

  lemma BlockMeans(i: bv32, s: State, host: Host)
    ensures Classify(i) == Class.Block ==> Means(i, s, BlockTransfer(s, i), host)
  {
    hide Means, Classify, BlockTransfer;
    DispatchMeans(i, s, host);
  }

  lemma MultiplyMeans(i: bv32, s: State, host: Host)
    ensures Classify(i) == Class.MultiplyClass ==> Means(i, s, Multiply(s, i), host)
  {
    hide Means, Classify, Multiply;
    DispatchMeans(i, s, host);
  }

  lemma LongMeans(i: bv32, s: State, host: Host)
    ensures Classify(i) == Class.LongClass ==> Means(i, s, LongMultiply(s, i), host)
  {
    hide Means, Classify, LongMultiply;
    DispatchMeans(i, s, host);
  }

  /** The word is a branch instruction patched at `at` for a target within reach. */
  predicate Branches(i: bv32, ins: Instr, at: Word, target: Word) {
    ins.Jump? && BranchReach(at, target) && i == SetPosBranch(Encode(ins), at, target)
  }

  ghost predicate BranchMeans(i: bv32, s: State, t: State, host: Host) {
    forall ins: Instr, at: Word, target: Word ::
      Branches(i, ins, at, target) && s.loc == Wrap(at + 4) ==> t == Asm.Exec(ins, target, s, host)
  }

  lemma BranchHandlerMeans(i: bv32, s: State, host: Host)
    ensures BranchMeans(i, s, BranchWithLink(s, i), host)
  {
    hide BranchWithLink, SetPosBranch, BranchReach, Wrap, AssembleBranch;
    forall ins: Instr, at: Word, target: Word | Branches(i, ins, at, target) && s.loc == Wrap(at + 4)
      ensures BranchWithLink(s, i) == Asm.Exec(ins, target, s, host)
    {
      BranchAgrees(ins.cond, ins.link, at, target, s, i);
    }
  }

  /** The word at the location is this instruction, relocated to a target within its reach. */
  predicate Found(s: State, ins: Instr, target: Word) {
    && Encodable(ins) && InReach(ins, s.loc, target) && PatchDefined(ins, s.loc, target)
    && LoadWord(s.mem, s.loc) == ToInt(Patch(ins, Encode(ins), s.loc, target))
  }

  ghost predicate StepMeans(s: State, t: State, host: Host) {
    forall ins: Instr, target: Word :: Found(s, ins, target) ==> t == Perform(ins, target, s, host)
  }

  lemma StepIsMeant(s: State, host: Host)
    ensures StepMeans(s, Step(s, host), host)
  {
    hide Step, Perform, Encodable, InReach, PatchDefined, LoadWord, ToInt, Patch, Encode;
    forall ins: Instr, target: Word | Found(s, ins, target)
      ensures Step(s, host) == Perform(ins, target, s, host)
    {
      StepPerforms(ins, target, s, host);
    }
  }
}
