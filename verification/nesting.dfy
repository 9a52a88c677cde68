/**
 Nested `.set` definitions: exactly when the C functions return.

 `FindLabel` and `GetPos` take a bound on the nesting, and give up with the result for an unknown name
 when it is used up. `LabelReturns` and `TextReturns` tell the two apart: they hold when the bound is
 never used up, which for some bound is the return of the C functions, since those recurse in the same
 way without one.
 */
module Nesting {
  import opened Finite
  import opened Options
  import opened Symbols
  import opened Assembler
  import Expr

  /** The lookup of this name nests at most `fuel` definitions deep. */
  predicate LabelReturns(t: Tables, name: string, fuel: nat)
    decreases fuel, 0, 0
  {
    FindPlaced(t, name).Some? ||
    match FindDef(t.sets, name)
    case None => true
    case Some(k) => fuel > 0 && TextReturns(t, t.sets[k].code, 0, fuel - 1)
  }

  /** The same for the text from a on, which is read up to its first unknown name. */
  predicate TextReturns(t: Tables, text: string, a: nat, fuel: nat)
    requires a <= |text|
    decreases fuel, 1, |text| - a
  {
    var e := TokenEnd(text, a);
    var token := text[a..e];
    && (IsNumber(token) || LabelReturns(t, token, fuel))
    && (TokenText(t, token, fuel).None? || e == |text| || TextReturns(t, text, e + 1, fuel))
  }

  // ---------------------------------------------------------------------------
  // More fuel changes nothing
  // ---------------------------------------------------------------------------

  lemma {:induction false} LabelStable(t: Tables, name: string, f: nat, g: nat)
    requires LabelReturns(t, name, f) && f <= g
    ensures LabelReturns(t, name, g) && FindLabel(t, name, f) == FindLabel(t, name, g)
    decreases f, 0, 0
  {
    hide FindPlaced;
    if FindPlaced(t, name).None? {
      match FindDef(t.sets, name)
      case None =>
      case Some(k) => TextStable(t, t.sets[k].code, 0, f - 1, g - 1);
    }
  }

  lemma {:induction false} TextStable(t: Tables, text: string, a: nat, f: nat, g: nat)
    requires a <= |text| && TextReturns(t, text, a, f) && f <= g
    ensures TextReturns(t, text, a, g) && Substitute(t, text, a, f) == Substitute(t, text, a, g)
    decreases f, 1, |text| - a
  {
    hide FindLabel, LabelReturns, IsNumber, IsNameChar, SeparatorText, Expr.Decimal;
    var e := TokenEnd(text, a);
    var token := text[a..e];
    if !IsNumber(token) {
      LabelStable(t, token, f, g);
    }
    if TokenText(t, token, f).Some? && e < |text| {
      TextStable(t, text, e + 1, f, g);
    }
  }

  /** A position once found is found with any more fuel. */
  lemma {:induction false} LabelMonotone(t: Tables, name: string, f: nat, g: nat)
    requires FindLabel(t, name, f).Some? && f <= g
    ensures FindLabel(t, name, g) == FindLabel(t, name, f)
    decreases f, 0, 0
  {
    hide FindPlaced;
    if FindPlaced(t, name).None? {
      match FindDef(t.sets, name)
      case None =>
      case Some(k) => TextMonotone(t, t.sets[k].code, 0, f - 1, g - 1);
    }
  }

  lemma {:induction false} TextMonotone(t: Tables, text: string, a: nat, f: nat, g: nat)
    requires a <= |text| && Substitute(t, text, a, f).Some? && f <= g
    ensures Substitute(t, text, a, g) == Substitute(t, text, a, f)
    decreases f, 1, |text| - a
  {
    hide FindLabel, IsNumber, IsNameChar, SeparatorText, Expr.Decimal;
    var e := TokenEnd(text, a);
    var token := text[a..e];
    if !IsNumber(token) {
      LabelMonotone(t, token, f, g);
    }
    if e < |text| {
      TextMonotone(t, text, e + 1, f, g);
    }
  }

  // ---------------------------------------------------------------------------
  // The lookups a lookup makes
  // ---------------------------------------------------------------------------

  ghost predicate HasPosition(t: Tables, name: string) {
    exists f: nat :: FindLabel(t, name, f).Some?
  }

  lemma ReturnResolves(t: Tables, name: string, f: nat)
    requires LabelReturns(t, name, f)
    ensures HasPosition(t, name) <==> FindLabel(t, name, f).Some?
  {
    hide FindLabel, LabelReturns;
    if HasPosition(t, name) {
      var g: nat :| FindLabel(t, name, g).Some?;
      if g <= f {
        LabelMonotone(t, name, g, f);
      } else {
        LabelStable(t, name, f, g);
      }
    }
  }

  /** Reading the text from a on comes to this name: every token before it has a value. */
  ghost predicate Visits(t: Tables, text: string, a: nat, name: string)
    requires a <= |text|
    decreases |text| - a
  {
    var e := TokenEnd(text, a);
    var token := text[a..e];
    || (!IsNumber(token) && token == name)
    || ((IsNumber(token) || HasPosition(t, token)) && e < |text| && Visits(t, text, e + 1, name))
  }

  lemma {:induction false} VisitReturns(t: Tables, text: string, a: nat, name: string, f: nat)
    requires a <= |text| && Visits(t, text, a, name) && TextReturns(t, text, a, f)
    ensures LabelReturns(t, name, f)
    decreases |text| - a
  {
    hide FindLabel, LabelReturns, HasPosition, IsNumber, IsNameChar, Expr.Decimal;
    var e := TokenEnd(text, a);
    var token := text[a..e];
    if !IsNumber(token) {
      ReturnResolves(t, token, f);
    }
    if IsNumber(token) || token != name {
      VisitReturns(t, text, e + 1, name, f);
    }
  }

  /** A text that does not return comes to a name that does not. */
  lemma {:induction false} StuckVisit(t: Tables, text: string, a: nat, f: nat) returns (name: string)
    requires a <= |text| && !TextReturns(t, text, a, f)
    ensures Visits(t, text, a, name) && !LabelReturns(t, name, f)
    decreases |text| - a
  {
    hide FindLabel, LabelReturns, HasPosition, IsNumber, IsNameChar, Expr.Decimal;
    var e := TokenEnd(text, a);
    name := text[a..e];
    if IsNumber(name) || LabelReturns(t, name, f) {
      if !IsNumber(name) {
        ReturnResolves(t, name, f);
      }
      name := StuckVisit(t, text, e + 1, f);
    }
  }

  /** The definitions ks are looked up one inside the other, starting from this name. */
  ghost predicate Path(t: Tables, name: string, ks: seq<nat>)
    decreases |ks|
  {
    && ks != [] && FindPlaced(t, name).None? && FindDef(t.sets, name) == Some(ks[0])
    && (|ks| == 1 || exists next :: Visits(t, t.sets[ks[0]].code, 0, next) && Path(t, next, ks[1..]))
  }

  lemma {:induction false} PathBlocks(t: Tables, name: string, ks: seq<nat>, f: nat)
    requires Path(t, name, ks) && f < |ks|
    ensures !LabelReturns(t, name, f)
    decreases f
  {
    hide FindPlaced, TextReturns, Visits;
    if f > 0 {
      var code := t.sets[ks[0]].code;
      var next :| Visits(t, code, 0, next) && Path(t, next, ks[1..]);
      PathBlocks(t, next, ks[1..], f - 1);
      if TextReturns(t, code, 0, f - 1) {
        VisitReturns(t, code, 0, next, f - 1);
      }
    }
  }

  lemma {:induction false} StuckPath(t: Tables, name: string, f: nat) returns (ks: seq<nat>)
    requires !LabelReturns(t, name, f)
    ensures Path(t, name, ks) && |ks| == f + 1
    decreases f
  {
    hide FindPlaced, TextReturns, Visits;
    var k := FindDef(t.sets, name).value;
    if f == 0 {
      ks := [k];
    } else {
      var next := StuckVisit(t, t.sets[k].code, 0, f - 1);
      var rest := StuckPath(t, next, f - 1);
      ks := [k] + rest;
      assert ks[1..] == rest;
    }
  }

  /** A lookup nests at most f deep exactly when no chain of nested lookups is longer than f. */
  lemma ReturnsExactly(t: Tables, name: string, f: nat)
    ensures LabelReturns(t, name, f) <==> forall ks :: Path(t, name, ks) ==> |ks| <= f
  {
    hide LabelReturns, Path;
    forall ks | LabelReturns(t, name, f) && Path(t, name, ks)
      ensures |ks| <= f
    {
      if |ks| > f {
        PathBlocks(t, name, ks, f);
      }
    }
    if !LabelReturns(t, name, f) {
      var ks := StuckPath(t, name, f);
    }
  }

  // ---------------------------------------------------------------------------
  // Cycles
  // ---------------------------------------------------------------------------

  lemma {:induction false} PathIn(t: Tables, name: string, ks: seq<nat>)
    requires Path(t, name, ks)
    ensures forall i :: 0 <= i < |ks| ==> ks[i] < |t.sets|
    decreases |ks|
  {
    hide FindPlaced, Visits;
    if |ks| > 1 {
      var next :| Visits(t, t.sets[ks[0]].code, 0, next) && Path(t, next, ks[1..]);
      PathIn(t, next, ks[1..]);
      assert forall i :: 1 <= i < |ks| ==> ks[i] == ks[1..][i - 1];
    }
  }

  /** From any definition on, a path is a path from the name of that definition. */
  lemma {:induction false} PathFrom(t: Tables, name: string, ks: seq<nat>, i: nat)
    requires Path(t, name, ks) && i < |ks|
    ensures ks[i] < |t.sets| && Path(t, t.sets[ks[i]].name, ks[i..])
    decreases i
  {
    hide FindPlaced, Visits;
    if i == 0 {
      assert ks[0..] == ks;
    } else {
      var next :| Visits(t, t.sets[ks[0]].code, 0, next) && Path(t, next, ks[1..]);
      PathFrom(t, next, ks[1..], i - 1);
      assert ks[1..][i - 1..] == ks[i..];
    }
  }

  /** The rest of a path may be replaced by any path from the same definition. */
  lemma {:induction false} PathSplice(t: Tables, name: string, ks: seq<nat>, i: nat, tail: seq<nat>)
    requires Path(t, name, ks) && i < |ks| && ks[i] < |t.sets|
    requires Path(t, t.sets[ks[i]].name, tail)
    ensures Path(t, name, ks[..i] + tail)
    decreases i
  {
    hide FindPlaced, Visits;
    if i == 0 {
      assert ks[..0] + tail == tail;
    } else {
      var next :| Visits(t, t.sets[ks[0]].code, 0, next) && Path(t, next, ks[1..]);
      PathSplice(t, next, ks[1..], i - 1, tail);
      assert (ks[..i] + tail)[1..] == ks[1..][..i - 1] + tail;
    }
  }

  ghost predicate Repeats(ks: seq<nat>, i: nat, j: nat) {
    i < j < |ks| && ks[i] == ks[j]
  }

  /** Nested lookups starting from this name come back to a definition they are already in. */
  ghost predicate ReachesCycle(t: Tables, name: string) {
    exists ks, i, j :: Path(t, name, ks) && Repeats(ks, i, j)
  }

  /** A path that comes back goes round as often as one likes. */
  lemma {:induction false} LongPath(t: Tables, name: string, ks: seq<nat>, i: nat, j: nat, n: nat) returns (long: seq<nat>)
    requires Path(t, name, ks) && Repeats(ks, i, j)
    ensures Path(t, name, long) && |long| > n
    decreases n + 1 - |ks|
  {
    hide Path;
    if |ks| > n {
      return ks;
    }
    PathFrom(t, name, ks, i);
    PathSplice(t, name, ks, j, ks[i..]);
    long := LongPath(t, name, ks[..j] + ks[i..], i, j, n);
  }

  /** A lookup that reaches a cycle never returns, whatever the bound. */
  lemma CycleNeverReturns(t: Tables, name: string, f: nat)
    requires ReachesCycle(t, name)
    ensures !LabelReturns(t, name, f)
  {
    hide Path, LabelReturns;
    var ks, i, j :| Path(t, name, ks) && Repeats(ks, i, j);
    var long := LongPath(t, name, ks, i, j, f);
    PathBlocks(t, name, long, f);
  }

  /**
   The lookup of a name returns exactly when it reaches no cycle of definitions, and then it nests at
   most as deep as there are definitions.
   */
  lemma ReturnsIffAcyclic(t: Tables, name: string)
    ensures (exists f: nat :: LabelReturns(t, name, f)) <==> !ReachesCycle(t, name)
    ensures LabelReturns(t, name, |t.sets|) <==> !ReachesCycle(t, name)
  {
    hide Path, LabelReturns, ReachesCycle;
    if ReachesCycle(t, name) {
      forall f: nat
        ensures !LabelReturns(t, name, f)
      {
        CycleNeverReturns(t, name, f);
      }
    } else {
      if !LabelReturns(t, name, |t.sets|) {
        StuckReaches(t, name);
      }
      assert LabelReturns(t, name, |t.sets|);
    }
  }

  lemma StuckReaches(t: Tables, name: string)
    requires !LabelReturns(t, name, |t.sets|)
    ensures ReachesCycle(t, name)
  {
    hide Path, LabelReturns;
    var ks := StuckPath(t, name, |t.sets|);
    PathIn(t, name, ks);
    Pigeonhole(ks, |t.sets|);
    var i, j :| 0 <= i < j < |ks| && ks[i] == ks[j];
    assert Repeats(ks, i, j);
  }

  // ---------------------------------------------------------------------------
  // Texts
  // ---------------------------------------------------------------------------

  ghost predicate TextReachesCycle(t: Tables, text: string) {
    exists name :: Visits(t, text, 0, name) && ReachesCycle(t, name)
  }

  /**
   The position of a text is computed exactly when reading it reaches no cycle; the bound used by the
   model then gives what any larger bound gives.
   */
  lemma LookupComplete(t: Tables, text: string, fuel: nat)
    ensures (exists f: nat :: TextReturns(t, text, 0, f)) <==> !TextReachesCycle(t, text)
    ensures TextReturns(t, text, 0, |t.sets|) <==> !TextReachesCycle(t, text)
    ensures !TextReachesCycle(t, text) && fuel >= |t.sets| ==> GetPos(t, text, fuel) == Lookup(t, text)
  {
    hide Visits, ReachesCycle, LabelReturns, TextReturns, Substitute;
    if TextReachesCycle(t, text) {
      var name :| Visits(t, text, 0, name) && ReachesCycle(t, name);
      forall f: nat
        ensures !TextReturns(t, text, 0, f)
      {
        CycleNeverReturns(t, name, f);
        if TextReturns(t, text, 0, f) {
          VisitReturns(t, text, 0, name, f);
        }
      }
    } else {
      if !TextReturns(t, text, 0, |t.sets|) {
        var name := StuckVisit(t, text, 0, |t.sets|);
        ReturnsIffAcyclic(t, name);
      }
      if fuel >= |t.sets| {
        TextStable(t, text, 0, |t.sets|, fuel);
      }
    }
  }

  /** The lookups that a text makes return. */
  predicate Returns(t: Tables, text: string) {
    TextReturns(t, text, 0, |t.sets|)
  }

  /** Linking returns: every reference is looked up without reaching a cycle. */
  predicate AllReturn(t: Tables, pending: seq<Pending>) {
    forall q :: q in pending ==> Returns(t, q.text)
  }

  /** The bound is never used up exactly when the C functions return for every reference. */
  lemma AllReturnExactly(t: Tables, pending: seq<Pending>)
    ensures AllReturn(t, pending) <==> forall q :: q in pending ==> !TextReachesCycle(t, q.text)
  {
    hide TextReturns, TextReachesCycle;
    forall q | q in pending
      ensures Returns(t, q.text) <==> !TextReachesCycle(t, q.text)
    {
      LookupComplete(t, q.text, 0);
    }
  }

  /** Without definitions every lookup returns. */
  lemma NoDefinitions(t: Tables, pending: seq<Pending>)
    requires t.sets == []
    ensures AllReturn(t, pending)
  {
    hide TextReturns, LabelReturns;
    forall q | q in pending
      ensures Returns(t, q.text)
    {
      if !TextReturns(t, q.text, 0, 0) {
        var name := StuckVisit(t, q.text, 0, 0);
        NoDefinition(t, name);
      }
    }
  }

  lemma NoDefinition(t: Tables, name: string)
    requires t.sets == []
    ensures LabelReturns(t, name, 0)
  {
  }

  // ---------------------------------------------------------------------------
  // Ranked definitions
  // ---------------------------------------------------------------------------

  /** The names an expression text mentions, from position a on. */
  function Names(text: string, a: nat): seq<string>
    requires a <= |text|
    decreases |text| - a
  {
    var e := TokenEnd(text, a);
    var here := if IsNumber(text[a..e]) then [] else [text[a..e]];
    if e == |text| then here else here + Names(text, e + 1)
  }

  /** The names mentioned from a on: the token there, if it is a name, and those after it. */
  lemma NamesStep(text: string, a: nat)
    requires a <= |text|
    ensures var e := TokenEnd(text, a);
      && (!IsNumber(text[a..e]) ==> text[a..e] in Names(text, a))
      && (e < |text| ==> forall n :: n in Names(text, e + 1) ==> n in Names(text, a))
  {
    hide IsNumber;
  }

  /** `.set` definitions refer only to definitions of lower rank. */
  ghost predicate Ranked(t: Tables, rank: seq<nat>) {
    && |rank| == |t.sets|
    && forall k, name :: 0 <= k < |t.sets| && name in Names(t.sets[k].code, 0) ==> Level(t, rank, name) <= rank[k]
  }

  /** How deeply looking up a name can nest. */
  function Level(t: Tables, rank: seq<nat>, name: string): nat
    requires |rank| == |t.sets|
  {
    if FindPlaced(t, name).Some? then 0
    else
      match FindDef(t.sets, name)
      case None => 0
      case Some(k) => rank[k] + 1
  }

  /** When definitions refer only to lower ones, every lookup nests no deeper than its level. */
  lemma {:induction false} RankedReturns(t: Tables, rank: seq<nat>, name: string, f: nat)
    requires Ranked(t, rank) && Level(t, rank, name) <= f
    ensures LabelReturns(t, name, f)
    decreases f, 0, 0
  {
    hide FindPlaced, Names, TextReturns;
    if FindPlaced(t, name).None? {
      match FindDef(t.sets, name)
      case None =>
      case Some(k) =>
        var code := t.sets[k].code;
        assert forall n :: n in Names(code, 0) ==> Level(t, rank, n) <= rank[k];
        RankedText(t, rank, code, 0, f - 1);
    }
  }

  lemma {:induction false} RankedText(t: Tables, rank: seq<nat>, text: string, a: nat, f: nat)
    requires Ranked(t, rank) && a <= |text|
    requires forall n :: n in Names(text, a) ==> Level(t, rank, n) <= f
    ensures TextReturns(t, text, a, f)
    decreases f, 1, |text| - a
  {
    hide FindLabel, Level, Ranked, Names, LabelReturns, TokenText, IsNumber;
    var e := TokenEnd(text, a);
    var token := text[a..e];
    NamesStep(text, a);
    if !IsNumber(token) {
      RankedReturns(t, rank, token, f);
    }
    if e < |text| {
      RankedText(t, rank, text, e + 1, f);
    }
  }

  /** So no lookup in a ranked table reaches a cycle. */
  lemma RankedAcyclic(t: Tables, rank: seq<nat>, name: string)
    requires Ranked(t, rank)
    ensures !ReachesCycle(t, name)
  {
    hide LabelReturns, ReachesCycle;
    RankedReturns(t, rank, name, Level(t, rank, name));
    ReturnsIffAcyclic(t, name);
  }
}
