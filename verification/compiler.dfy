/**
 The compiler as its source keeps it: fixed tables with counters, an output file that grows and is
 patched in place, and slots that keep what an earlier compilation left in them.

 The methods are proved to compute the functions of module `Assembler`.
 */
module Compiler {
  import opened Options
  import opened Words
  import opened Machine
  import opened Asm
  import opened Encoder
  import opened Symbols
  import opened Nesting
  import opened Assembler
  import opened Layout
  import opened Program
  import opened Contents
  import opened Reload
  import Expr

  /** A reference as it stands in the table; `filled` once it has been patched. */
  datatype Symbol = Symbol(ref: Pending, filled: bool)

  function Refs(s: seq<Symbol>): (r: seq<Pending>)
    ensures |r| == |s|
  {
    seq(|s|, k requires 0 <= k < |s| => s[k].ref)
  }

  /** The references from i to n that are still to be patched. */
  function Open(s: seq<Symbol>, i: nat, n: nat): seq<Pending>
    requires i <= n <= |s|
  {
    if n == i then []
    else if s[n - 1].filled then Open(s, i, n - 1)
    else Open(s, i, n - 1) + [s[n - 1].ref]
  }

  // ---------------------------------------------------------------------------
  // Linear search
  // ---------------------------------------------------------------------------

  predicate FirstAt(labels: seq<Label>, name: string, i: nat) {
    i < |labels| && labels[i].name == name && forall j :: 0 <= j < i ==> labels[j].name != name
  }

  lemma {:induction false} FindFirst(labels: seq<Label>, name: string, i: nat)
    requires FirstAt(labels, name, i)
    ensures Find(labels, name) == Some(labels[i].pos)
    decreases i
  {
    if i > 0 {
      assert FirstAt(labels[1..], name, i - 1);
      FindFirst(labels[1..], name, i - 1);
      assert labels[0].name != name;
    }
  }

  lemma {:induction false} UpdateFirst(labels: seq<Label>, name: string, i: nat, pos: Word)
    requires FirstAt(labels, name, i)
    ensures Updated(labels, name, pos) == labels[i := Label(name, pos)]
    decreases i
  {
    if i > 0 {
      assert FirstAt(labels[1..], name, i - 1);
      UpdateFirst(labels[1..], name, i - 1, pos);
      assert labels[0].name != name;
      assert [labels[0]] + labels[1..][i - 1 := Label(name, pos)] == labels[i := Label(name, pos)];
    }
  }

  lemma {:induction false} FindNone(labels: seq<Label>, name: string, pos: Word)
    requires forall j :: 0 <= j < |labels| ==> labels[j].name != name
    ensures Find(labels, name) == None && Updated(labels, name, pos) == labels
    decreases |labels|
  {
    if labels != [] {
      FindNone(labels[1..], name, pos);
    }
  }

  lemma {:induction false} FindDefFirst(sets: seq<Def>, name: string, i: nat)
    requires i < |sets| && sets[i].name == name && forall j :: 0 <= j < i ==> sets[j].name != name
    ensures FindDef(sets, name) == Some(i)
  {
    if i > 0 {
      FindDefFirst(sets[1..], name, i - 1);
      assert sets[0].name != name;
    }
  }

  // ---------------------------------------------------------------------------
  // Patching references one after another
  // ---------------------------------------------------------------------------

  lemma {:induction false} PatchPrefix(out: seq<Byte>, t: Tables, p: seq<Pending>, q: Pending, n: nat)
    requires n <= |p| && AllLinkable(t, p + [q]) && AllLinkable(t, p)
    ensures PatchAll(out, t, p + [q], n) == PatchAll(out, t, p, n)
    decreases n
  {
    hide PatchOne, Linkable;
    if n > 0 {
      PatchPrefix(out, t, p, q, n - 1);
      assert (p + [q])[n - 1] == p[n - 1];
    }
  }

  lemma PatchAppend(out: seq<Byte>, t: Tables, p: seq<Pending>, q: Pending)
    requires AllLinkable(t, p) && Linkable(t, q)
    ensures AllLinkable(t, p + [q])
    ensures PatchAll(out, t, p + [q], |p| + 1) == PatchOne(PatchAll(out, t, p, |p|), t, q)
  {
    hide PatchOne, Linkable;
    PatchPrefix(out, t, p, q, |p|);
    assert (p + [q])[|p|] == q;
  }

  lemma {:induction false} OpenLinkable(t: Tables, s: seq<Symbol>, i: nat, n: nat)
    requires i <= n <= |s| && forall k :: i <= k < n ==> s[k].filled || Linkable(t, s[k].ref)
    ensures AllLinkable(t, Open(s, i, n))
    decreases n
  {
    hide Linkable;
    if n > i {
      OpenLinkable(t, s, i, n - 1);
    }
  }

  function Marked(t: Tables, s: Symbol): Symbol {
    s.(filled := s.filled || Resolves(t, s.ref))
  }

  /** The table after the references from `start` to i have been visited. */
  function Visited(t: Tables, s: seq<Symbol>, start: nat, i: nat): (r: seq<Symbol>)
    requires start <= i <= |s|
    ensures |r| == |s|
    ensures forall k :: 0 <= k < |s| ==> r[k] == if start <= k < i then Marked(t, s[k]) else s[k]
  {
    if i == start then s else Visited(t, s, start, i - 1)[i - 1 := Marked(t, s[i - 1])]
  }

  lemma OpenNone(s: seq<Symbol>, i: nat)
    requires i <= |s|
    ensures Open(s, i, i) == []
  {
  }

  /** One more reference: patched after the others unless it is filled. */
  lemma OpenStep(out: seq<Byte>, t: Tables, s: seq<Symbol>, start: nat, i: nat)
    requires start <= i < |s| && AllLinkable(t, Open(s, start, i)) && (s[i].filled || Linkable(t, s[i].ref))
    ensures var before, after := Open(s, start, i), Open(s, start, i + 1);
      && AllLinkable(t, after)
      && PatchAll(out, t, after, |after|) ==
         if s[i].filled then PatchAll(out, t, before, |before|)
         else PatchOne(PatchAll(out, t, before, |before|), t, s[i].ref)
  {
    hide Linkable, PatchOne, PatchAll;
    if !s[i].filled {
      PatchAppend(out, t, Open(s, start, i), s[i].ref);
    }
  }

  /** A table with nothing filled is open from end to end. */
  lemma {:induction false} AllOpen(s: seq<Symbol>, n: nat)
    requires n <= |s| && forall k :: 0 <= k < n ==> !s[k].filled
    ensures Open(s, 0, n) == Refs(s[..n])
    decreases n
  {
    if n > 0 {
      AllOpen(s, n - 1);
      assert s[..n] == s[..n - 1] + [s[n - 1]];
    }
  }

  lemma {:induction false} PatchNothing(out: seq<Byte>, t: Tables, p: seq<Pending>, n: nat)
    requires n <= |p| && AllLinkable(t, p) && forall k :: 0 <= k < |p| ==> !Resolves(t, p[k])
    ensures PatchAll(out, t, p, n) == out
    decreases n
  {
    if n > 0 {
      PatchNothing(out, t, p, n - 1);
      assert !Resolves(t, p[n - 1]);
    }
  }

  lemma {:induction false} VisitedOpen(t: Tables, s: seq<Symbol>, start: nat, n: nat, m: nat)
    requires start <= n <= m <= |s|
    ensures forall k :: 0 <= k < |Open(Visited(t, s, start, m), start, n)| ==>
      !Resolves(t, Open(Visited(t, s, start, m), start, n)[k])
    decreases n
  {
    hide Resolves;
    if n > start {
      VisitedOpen(t, s, start, n - 1, m);
    }
  }

  /** A table that has been linked once has nothing left to patch under the same names. */
  lemma SecondPass(out: seq<Byte>, t: Tables, s: seq<Symbol>, start: nat, n: nat)
    requires start <= n <= |s| && AllLinkable(t, Open(Visited(t, s, start, n), start, n))
    ensures var open := Open(Visited(t, s, start, n), start, n);
      PatchAll(out, t, open, |open|) == out
  {
    hide Resolves, PatchAll, AllLinkable;
    var open := Open(Visited(t, s, start, n), start, n);
    VisitedOpen(t, s, start, n, n);
    PatchNothing(out, t, open, |open|);
  }

  /** After pass 1 every reference can be patched, and all of them are open. */
  lemma Ready(u: Unit, s: seq<Symbol>, n: nat)
    requires n <= |s| && u.pending == Refs(s[..n]) && forall k :: 0 <= k < n ==> !s[k].filled
    requires Placed(u) && AllLinkable(u.tables, u.pending) && AllReturn(u.tables, u.pending)
    ensures forall k :: 0 <= k < n ==>
      Linkable(u.tables, s[k].ref) && Returns(u.tables, s[k].ref.text) && Inside(s[k].ref, |u.out|)
    ensures Open(s, 0, n) == u.pending
  {
    hide Linkable, Inside, Returns;
    AllOpen(s, n);
    forall k | 0 <= k < n
      ensures Linkable(u.tables, s[k].ref) && Returns(u.tables, s[k].ref.text) && Inside(s[k].ref, |u.out|)
    {
      assert u.pending[k] == s[k].ref && u.pending[k] in u.pending;
    }
  }

  lemma NeverBuilt(p: Source, k: nat)
    requires k <= |p.items| && Pass1(p, k).None?
    ensures Pass1(p, |p.items|).None?
  {
    hide EmitAll;
    if Pass1(p, |p.items|).Some? {
      EmitAllShorter(p.items, k, |p.items|, p.host, p.stale);
      assert false;
    }
  }

  // ---------------------------------------------------------------------------
  // Expression text
  // ---------------------------------------------------------------------------

  /** Text already written before the rest of a substitution. */
  function Prefixed(buf: string, rest: Option<string>): Option<string> {
    match rest
    case None => None
    case Some(tail) => Some(buf + tail)
  }

  lemma PrefixedNothing(rest: Option<string>)
    ensures Prefixed("", rest) == rest
  {
    match rest
    case None =>
    case Some(tail) => assert "" + tail == tail;
  }

  lemma SubstituteNext(t: Tables, text: string, a: nat, e: nat, fuel: nat, buf: string)
    requires a <= e <= |text| && (forall k :: a <= k < e ==> IsNameChar(text[k]))
    requires e < |text| ==> !IsNameChar(text[e])
    ensures TokenText(t, text[a..e], fuel) == None ==> Substitute(t, text, a, fuel) == None
    ensures TokenText(t, text[a..e], fuel).Some? ==>
      var head := TokenText(t, text[a..e], fuel).value;
      Prefixed(buf, Substitute(t, text, a, fuel)) ==
        if e == |text| then Some(buf + head)
        else Prefixed(buf + head + SeparatorText(text[e]), Substitute(t, text, e + 1, fuel))
  {
    hide TokenText, IsNameChar, SeparatorText;
    TokenEndOfName(text, a, e);
    if TokenText(t, text[a..e], fuel).Some? && e < |text| && Substitute(t, text, e + 1, fuel).Some? {
      var head, tail := TokenText(t, text[a..e], fuel).value, Substitute(t, text, e + 1, fuel).value;
      assert buf + (head + SeparatorText(text[e]) + tail) == (buf + head + SeparatorText(text[e])) + tail;
    }
  }

  lemma ReturnsNext(t: Tables, text: string, a: nat, e: nat, fuel: nat)
    requires a <= e <= |text| && (forall k :: a <= k < e ==> IsNameChar(text[k]))
    requires e < |text| ==> !IsNameChar(text[e])
    requires TextReturns(t, text, a, fuel)
    ensures IsNumber(text[a..e]) || LabelReturns(t, text[a..e], fuel)
    ensures TokenText(t, text[a..e], fuel).Some? && e < |text| ==> TextReturns(t, text, e + 1, fuel)
  {
    hide TokenText, IsNameChar, LabelReturns;
    TokenEndOfName(text, a, e);
  }

  /** The positions a table of globals holds, used or not. */
  function Leftover(g: seq<Label>): Stale {
    (k: nat) => if k < |g| then g[k].pos else 0
  }

  class Compiler {
    const host: seq<string>
    const labels: array<Label>
    const globals: array<Label>
    const sets: array<Def>
    const symbols: array<Symbol>
    var numLabels: nat
    var numGlobals: nat
    var numSets: nat
    var numSymbols: nat
    var mainLabel: Word
    var file: seq<Byte>
    /** What earlier compilations left in the positions of the unused global slots. */
    ghost var stale: Stale

    ghost predicate Valid()
      reads this, globals
    {
      && labels != globals
      && numLabels <= labels.Length && numGlobals <= globals.Length
      && numSets <= sets.Length && numSymbols <= symbols.Length
      && forall k :: numGlobals <= k < globals.Length ==> globals[k].pos == stale(k)
    }

    function Names(): Tables
      reads this, labels, globals, sets
      requires numLabels <= labels.Length && numGlobals <= globals.Length && numSets <= sets.Length
    {
      Tables(labels[..numLabels], globals[..numGlobals], sets[..numSets])
    }

    ghost function Value(): Unit
      reads this, labels, globals, sets, symbols
      requires Valid()
    {
      Unit(file, Refs(symbols[..numSymbols]), Names(), mainLabel)
    }

    // ---------------------------------------------------------------------------
    // Lookup
    // ---------------------------------------------------------------------------

    method FindPosition(table: array<Label>, n: nat, name: string) returns (r: Option<Word>)
      requires n <= table.Length
      ensures r == Find(table[..n], name)
    {
      var i := 0;
      while i < n
        invariant i <= n && forall j :: 0 <= j < i ==> table[j].name != name
      {
        if table[i].name == name {
          FindFirst(table[..n], name, i);
          return Some(table[i].pos);
        }
        i := i + 1;
      }
      FindNone(table[..n], name, 0);
      return None;
    }

    /** Labels before globals before definitions, whose lookups return for some depth. */
    method FindLabel(name: string, ghost fuel: nat) returns (r: Option<Word>)
      requires Valid() && LabelReturns(Names(), name, fuel)
      ensures r == Symbols.FindLabel(Names(), name, fuel)
      decreases fuel, 0
    {
      hide Find, Symbols.GetPos, TextReturns;
      r := FindPosition(labels, numLabels, name);
      if r.Some? {
        return;
      }
      r := FindPosition(globals, numGlobals, name);
      if r.Some? {
        return;
      }
      var i := 0;
      while i < numSets
        invariant i <= numSets && forall j :: 0 <= j < i ==> sets[j].name != name
      {
        if sets[i].name == name {
          FindDefFirst(sets[..numSets], name, i);
          r := GetPos(sets[i].code, fuel - 1);
          return;
        }
        i := i + 1;
      }
      return None;
    }

    /** The text with positions for names, evaluated; its lookups return for some depth. */
    method GetPos(text: string, ghost fuel: nat) returns (r: Option<Word>)
      requires Valid() && TextReturns(Names(), text, 0, fuel)
      ensures r == Symbols.GetPos(Names(), text, fuel)
      decreases fuel, 1
    {
      hide Symbols.FindLabel, Substitute, IsNameChar, TextReturns, LabelReturns;
      var t := Names();
      var buf, a, s := "", 0, 0;
      PrefixedNothing(Substitute(t, text, 0, fuel));
      while true
        invariant a <= s <= |text| && (forall k :: a <= k < s ==> IsNameChar(text[k]))
        invariant Substitute(t, text, 0, fuel) == Prefixed(buf, Substitute(t, text, a, fuel))
        invariant TextReturns(t, text, a, fuel)
        decreases |text| - s
      {
        if s < |text| && IsNameChar(text[s]) {
          s := s + 1;
          continue;
        }
        SubstituteNext(t, text, a, s, fuel, buf);
        ReturnsNext(t, text, a, s, fuel);
        if s != a {
          var token := text[a..s];
          if IsNumber(token) {
            buf := buf + token;
          } else {
            var p := FindLabel(token, fuel);
            if p.None? {
              return None;
            }
            buf := buf + Expr.Decimal(p.value);
          }
        } else {
          assert text[a..s] == [] && buf + [] == buf;
        }
        if s == |text| {
          break;
        }
        if !Expr.IsSpace(text[s]) {
          buf := buf + [text[s]];
        } else {
          assert buf + "" == buf;
        }
        s := s + 1;
        a := s;
      }
      var cursor := new Expr.TextCursor(buf);
      var value := cursor.EvaluateHere();
      return Some(value);
    }

    // ---------------------------------------------------------------------------
    // Pass 1
    // ---------------------------------------------------------------------------

    /** A name exported; its slot keeps the position it had. */
    method AddGlobal(name: string)
      requires Valid() && numGlobals < globals.Length
      modifies this`numGlobals, globals
      ensures Valid() && numGlobals == old(numGlobals) + 1
      ensures Value() == Emit(old(Value()), GloblItem(name), host, stale).value
    {
      globals[numGlobals] := globals[numGlobals].(name := name);
      numGlobals := numGlobals + 1;
    }

    method AddLabel(name: string)
      requires Valid() && numLabels < labels.Length
      modifies this`numLabels, this`mainLabel, labels, globals
      ensures Valid() && old(numLabels) <= numLabels <= old(numLabels) + 1
      ensures Value() == Assembler.AddLabel(old(Value()), name)
      ensures mainLabel == if name == "_main" then Wrap(|file|) else old(mainLabel)
    {
      hide Find, Updated;
      var position := Wrap(|file|);
      if name == "_main" {
        mainLabel := position;
      }
      var i := 0;
      while i < numGlobals
        invariant i <= numGlobals && forall j :: 0 <= j < i ==> globals[j].name != name
      {
        if globals[i].name == name {
          FindFirst(globals[..numGlobals], name, i);
          UpdateFirst(globals[..numGlobals], name, i, position);
          globals[i] := globals[i].(pos := position);
          assert globals[..numGlobals] == old(globals[..numGlobals])[i := Label(name, position)];
          return;
        }
        i := i + 1;
      }
      FindNone(globals[..numGlobals], name, position);
      labels[numLabels] := Label(name, position);
      numLabels := numLabels + 1;
    }

    /** A reference to patch later, at the end of the file so far. */
    method AddReference(text: string, word: bv32, reloc: Reloc)
      requires Valid() && numSymbols < symbols.Length
      modifies this`numSymbols, symbols
      ensures Valid() && numSymbols == old(numSymbols) + 1
      ensures forall k :: 0 <= k < old(numSymbols) ==> symbols[k] == old(symbols[k])
      ensures !symbols[old(numSymbols)].filled
      ensures Value() == old(Value()).(pending := old(Value()).pending + [Pending(text, Wrap(|file|), word, reloc)])
    {
      symbols[numSymbols] := Symbol(Pending(text, Wrap(|file|), word, reloc), false);
      numSymbols := numSymbols + 1;
      assert symbols[..numSymbols] == old(symbols[..numSymbols]) + [symbols[numSymbols - 1]];
    }

    method Write(bytes: seq<Byte>)
      modifies this`file
      ensures file == old(file) + bytes
    {
      file := file + bytes;
    }

    method DoAlign(p2: nat)
      modifies this`file
      ensures file == old(file) + Zeros(Padding(|old(file)|, p2))
      ensures LeastMultiple(|old(file)|, Pow2(p2), |file|)
    {
      PaddingAligns(|file|, p2);
      var align := Pow2(p2);
      var fill := |file| % align;
      if fill == 0 {
        return;
      }
      ghost var first := fill;
      while fill < align
        invariant first <= fill <= align
        invariant file == old(file) + Zeros(fill - first)
      {
        file := file + [0];
        fill := fill + 1;
      }
    }

    method FindHost(name: string) returns (r: Option<nat>)
      ensures r == HostIndex(host, name)
    {
      var i := 0;
      while i < |host|
        invariant i <= |host| && forall j :: 0 <= j < i ==> host[j] != name
      {
        if host[i] == name {
          FirstSlot(host, name, i);
          return Some(i);
        }
        i := i + 1;
      }
      return None;
    }

    /** A branch to a host function becomes an external call. */
    method Resolve(i: Instr) returns (e: Instr)
      ensures e == Effective(i, host)
    {
      e := i;
      if i.Jump? && i.sym != [] {
        var index := FindHost(i.sym[1..]);
        if index.Some? {
          e := Call(i.link, ProcIndex(index.value));
        }
      }
    }

    method AddSet(name: string, code: string)
      requires Valid() && numSets < sets.Length
      modifies this`numSets, sets
      ensures Valid() && numSets == old(numSets) + 1
      ensures Value() == Emit(old(Value()), SetItem(name, code), host, stale).value
    {
      sets[numSets] := Def(name, code);
      numSets := numSets + 1;
      assert sets[..numSets] == old(sets[..numSets]) + [Def(name, code)];
    }

    /** A data word to be filled in by linking. */
    method AddLong(text: string)
      requires Valid() && NoneFilled() && numSymbols < symbols.Length
      modifies this`file, this`numSymbols, symbols
      ensures Valid() && NoneFilled() && numSymbols == old(numSymbols) + 1
      ensures Value() == Emit(old(Value()), LongItem(text), host, stale).value
    {
      hide Bytes;
      AddReference(text, 0, RLabel);
      Write(Bytes(0xffff_ffff));
    }

    ghost predicate Spare(n: nat)
      reads this
    {
      && numLabels + n <= labels.Length && numGlobals + n <= globals.Length
      && numSets + n <= sets.Length && numSymbols + n <= symbols.Length
    }

    ghost predicate NoneFilled()
      reads this, symbols
    {
      numSymbols <= symbols.Length && forall k :: 0 <= k < numSymbols ==> !symbols[k].filled
    }

    method AssembleInstr(i: Instr) returns (ok: bool)
      requires Valid() && NoneFilled() && numSymbols < symbols.Length
      modifies this`file, this`numSymbols, symbols
      ensures Valid() && NoneFilled() && old(numSymbols) <= numSymbols <= old(numSymbols) + 1
      ensures ok == EmitInstr(old(Value()), i).Some?
      ensures ok ==> Value() == EmitInstr(old(Value()), i).value
    {
      hide Encode, ToInt, Nat, Bytes;
      if Symbolic(i) {
        AddReference(i.sym, Encode(i), RelocOf(i));
      }
      var code := Placeholder(i);
      if code == 0 {
        return false;
      }
      Write(Bytes(ToInt(code)));
      return true;
    }

    /** One line of the source. */
    method Process(item: Item) returns (ok: bool)
      requires Valid() && NoneFilled() && Spare(1)
      modifies this`numLabels, this`numGlobals, this`numSets, this`numSymbols, this`mainLabel, this`file
      modifies labels, globals, sets, symbols
      ensures Valid() && NoneFilled()
      ensures forall n: nat :: old(Spare(n + 1)) ==> Spare(n)
      ensures ok == Emit(old(Value()), item, host, stale).Some?
      ensures ok ==> Value() == Emit(old(Value()), item, host, stale).value
      ensures item.BytesItem? ==> file == old(file) + item.bytes
    {
      hide Encode, ToInt, Nat, Bytes, EmitInstr, Assembler.AddLabel, Padding, Effective;
      match item
      case LabelItem(name) =>
        AddLabel(name);
        ok := true;
      case GloblItem(name) =>
        AddGlobal(name);
        ok := true;
      case SetItem(name, code) =>
        AddSet(name, code);
        ok := true;
      case InsItem(i) =>
        var e := Resolve(i);
        ok := AssembleInstr(e);
      case BytesItem(bytes) =>
        Write(bytes);
        ok := true;
      case LongItem(text) =>
        AddLong(text);
        ok := true;
      case AlignItem(p2) =>
        DoAlign(p2);
        ok := true;
    }

    // ---------------------------------------------------------------------------
    // Pass 2
    // ---------------------------------------------------------------------------

    method PatchAt(at: nat, v: Word)
      requires at + 4 <= |file|
      modifies this`file
      ensures file == StoreWord(old(file), at, v)
    {
      file := file[..at] + Bytes(v) + file[at + 4..];
    }

    /** One reference patched, unless it is filled or does not resolve. */
    method PatchSymbol(i: nat)
      requires Valid() && i < numSymbols && Inside(symbols[i].ref, |file|)
      requires symbols[i].filled || (Linkable(Names(), symbols[i].ref) && Returns(Names(), symbols[i].ref.text))
      modifies this`file, symbols
      ensures Valid() && Names() == old(Names())
      ensures file == if old(symbols[i].filled) then old(file) else PatchOne(old(file), old(Names()), old(symbols[i].ref))
      ensures symbols[..] == old(symbols[..])[i := Marked(old(Names()), old(symbols[i]))]
    {
      hide SetPos, Symbols.GetPos, PatchOk;
      var sym := symbols[i];
      if sym.filled {
        return;
      }
      var target := GetPos(sym.ref.text, numSets);
      if target.Some? {
        symbols[i] := sym.(filled := true);
        PatchAt(sym.ref.at, SetPos(sym.ref, target.value));
      }
    }

    /** Patches every reference from `start` on that is not filled yet and whose text resolves. */
    method LinkProgram(start: nat)
      requires Valid() && start <= numSymbols
      requires forall k :: start <= k < numSymbols ==>
        symbols[k].filled || (Linkable(Names(), symbols[k].ref) && Returns(Names(), symbols[k].ref.text))
      requires forall k :: start <= k < numSymbols ==> Inside(symbols[k].ref, |file|)
      modifies this`file, symbols
      ensures Valid() && Names() == old(Names())
      ensures AllLinkable(Names(), Open(old(symbols[..]), start, numSymbols))
      ensures var open := Open(old(symbols[..]), start, numSymbols);
        file == PatchAll(old(file), Names(), open, |open|)
      ensures symbols[..] == Visited(Names(), old(symbols[..]), start, numSymbols)
    {
      ghost var t, table, before := Names(), symbols[..], file;
      hide Linkable, Returns, Resolves, PatchOne, PatchAll, Inside, AllLinkable, Open;
      OpenLinkable(t, table, start, numSymbols);
      OpenNone(table, start);
      var i := start;
      while i < numSymbols
        invariant start <= i <= numSymbols && Valid() && Names() == t && |file| == |before|
        invariant symbols[..] == Visited(t, table, start, i)
        invariant AllLinkable(t, Open(table, start, i))
        invariant var open := Open(table, start, i);
          file == PatchAll(before, t, open, |open|)
      {
        OpenStep(before, t, table, start, i);
        assert symbols[i] == symbols[..][i] == table[i];
        PatchSymbol(i);
        i := i + 1;
      }
    }

    // ---------------------------------------------------------------------------
    // A whole source
    // ---------------------------------------------------------------------------

    method CompileBuffer(items: seq<Item>) returns (ok: bool)
      requires Valid() && Value() == EMPTY && numSymbols == 0 && Spare(|items|)
      requires var p := Source(items, host, stale);
        Pass1(p, |items|).Some? ==> Builds(p)
      modifies this`numLabels, this`numGlobals, this`numSets, this`numSymbols, this`mainLabel, this`file
      modifies labels, globals, sets, symbols
      ensures Valid()
      ensures var p := Source(items, host, stale);
        && ok == Pass1(p, |items|).Some?
        && (ok ==> Builds(p) && file == Image(p) && mainLabel == Compiled(p).main && IsEntry(p, mainLabel))
    {
      hide IsEntry, Emit, AllLinkable, AllReturn, PatchAll, Placed, Linkable, Inside, Open;
      ghost var p := Source(items, host, stale);
      var k := 0;
      while k < |items|
        invariant k <= |items| && Valid() && NoneFilled() && Spare(|items| - k)
        invariant Pass1(p, k) == Some(Value())
      {
        var fine := Process(items[k]);
        if !fine {
          assert Pass1(p, k + 1).None?;
          NeverBuilt(p, k + 1);
          return false;
        }
        k := k + 1;
      }
      Prefix(p, |items|);
      ghost var u := Value();
      Ready(u, symbols[..], numSymbols);
      LinkProgram(0);
      assert file == PatchAll(u.out, u.tables, u.pending, |u.pending|);
      EntryPoint(p);
      numLabels := 0;
      numSets := 0;
      return true;
    }

    /** Loads a source into a fresh file, whatever earlier compilations left behind. */
    method LoadBuffer(items: seq<Item>) returns (ok: bool)
      requires labels != globals
      requires |items| <= labels.Length && |items| <= globals.Length && |items| <= sets.Length && |items| <= symbols.Length
      requires var p := Source(items, host, Leftover(globals[..]));
        Pass1(p, |items|).Some? ==> Builds(p)
      modifies this, labels, globals, sets, symbols
      ensures var p := Source(items, host, Leftover(old(globals[..])));
        && ok == Pass1(p, |items|).Some?
        && (ok ==> Builds(p) && file == Image(p) && mainLabel == Compiled(p).main && IsEntry(p, mainLabel))
      ensures ok && GlobalsDefined(items, host) ==>
        var clean := Source(items, host, Leftover([]));
        Builds(clean) && file == Image(clean) && mainLabel == Compiled(clean).main
    {
      numSymbols := 0;
      numGlobals := 0;
      numLabels := 0;
      numSets := 0;
      mainLabel := 0;
      file := [];
      stale := Leftover(globals[..]);
      hide EmitAll, Link, AllLinkable, AllReturn, IsEntry;
      ok := CompileBuffer(items);
      ghost var p := Source(items, host, stale);
      if ok && GlobalsDefined(items, host) {
        ReloadIndependent(p, Leftover([]));
      }
    }
  }
}
