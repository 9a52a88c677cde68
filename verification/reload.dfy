/**
 Compiling again in the same process: the tables are not cleared, so a `.globl` slot starts with the
 position an earlier compilation left there. When every exported name that the source refers to is
 defined, nothing of that is seen; a data word that holds an undefined one is that old position.
 */
module Reload {
  import opened Options
  import opened Words
  import opened Machine
  import opened Asm
  import opened Encoder
  import opened Symbols
  import opened Nesting
  import opened Assembler
  import opened Layout
  import opened Program
  import opened Idiom
  import Expr

  // ---------------------------------------------------------------------------
  // Lookup sees only first entries of the names it meets
  // ---------------------------------------------------------------------------

  /** Tables in which these names have the same positions, and whose definitions mention only these names. */
  ghost predicate Alike(t: Tables, t': Tables, ns: iset<string>) {
    && t.sets == t'.sets
    && (forall name :: name in ns ==> FindPlaced(t, name) == FindPlaced(t', name))
    && (forall k :: 0 <= k < |t.sets| ==> AllIn(t.sets[k].code, 0, ns))
  }

  ghost predicate AllIn(text: string, a: nat, ns: iset<string>)
    requires a <= |text|
  {
    forall n :: n in Names(text, a) ==> n in ns
  }

  lemma {:induction false} FindLabelAlike(t: Tables, t': Tables, ns: iset<string>, name: string, fuel: nat)
    requires Alike(t, t', ns) && name in ns
    ensures FindLabel(t, name, fuel) == FindLabel(t', name, fuel)
    decreases fuel, 0, 0
  {
    hide FindPlaced, GetPos, AllIn;
    if FindPlaced(t, name).None? && fuel > 0 {
      match FindDef(t.sets, name)
      case None =>
      case Some(k) => GetPosAlike(t, t', ns, t.sets[k].code, fuel - 1);
    }
  }

  lemma {:induction false} SubstituteAlike(t: Tables, t': Tables, ns: iset<string>, text: string, a: nat, fuel: nat)
    requires Alike(t, t', ns) && a <= |text| && AllIn(text, a, ns)
    ensures Substitute(t, text, a, fuel) == Substitute(t', text, a, fuel)
    decreases fuel, 1, |text| - a
  {
    hide FindLabel, Alike, SeparatorText, IsNameChar, IsNumber, Names, Expr.Decimal;
    var e := TokenEnd(text, a);
    NamesStep(text, a);
    if !IsNumber(text[a..e]) {
      FindLabelAlike(t, t', ns, text[a..e], fuel);
    }
    if e < |text| {
      SubstituteAlike(t, t', ns, text, e + 1, fuel);
    }
  }

  lemma {:induction false} GetPosAlike(t: Tables, t': Tables, ns: iset<string>, text: string, fuel: nat)
    requires Alike(t, t', ns) && AllIn(text, 0, ns)
    ensures GetPos(t, text, fuel) == GetPos(t', text, fuel)
    decreases fuel, 2, 0
  {
    hide Substitute, Alike, AllIn;
    SubstituteAlike(t, t', ns, text, 0, fuel);
  }

  ghost predicate AllRefsIn(pending: seq<Pending>, ns: iset<string>) {
    forall q :: q in pending ==> AllIn(q.text, 0, ns)
  }

  lemma LookupAlike(t: Tables, t': Tables, ns: iset<string>, text: string)
    requires Alike(t, t', ns) && AllIn(text, 0, ns)
    ensures Lookup(t, text) == Lookup(t', text)
  {
    hide AllIn, GetPos;
    GetPosAlike(t, t', ns, text, |t.sets|);
  }

  lemma {:induction false} PatchAllAlike(out: seq<Byte>, t: Tables, t': Tables, ns: iset<string>, pending: seq<Pending>, n: nat)
    requires Alike(t, t', ns) && AllRefsIn(pending, ns)
    requires n <= |pending| && AllLinkable(t, pending) && AllLinkable(t', pending)
    ensures PatchAll(out, t, pending, n) == PatchAll(out, t', pending, n)
    decreases n
  {
    hide Lookup, Alike, AllIn, SetPos, StoreWord, PatchOk;
    if n > 0 {
      PatchAllAlike(out, t, t', ns, pending, n - 1);
      assert pending[n - 1] in pending;
      LookupAlike(t, t', ns, pending[n - 1].text);
    }
  }

  lemma LinkableAlike(t: Tables, t': Tables, ns: iset<string>, pending: seq<Pending>)
    requires Alike(t, t', ns) && AllRefsIn(pending, ns) && AllLinkable(t, pending)
    ensures AllLinkable(t', pending)
  {
    hide Lookup, Alike, AllIn, PatchOk;
    forall p | p in pending
      ensures Linkable(t', p)
    {
      LookupAlike(t, t', ns, p.text);
      assert Linkable(t, p);
    }
  }

  lemma {:induction false} LabelReturnsAlike(t: Tables, t': Tables, ns: iset<string>, name: string, fuel: nat)
    requires Alike(t, t', ns) && name in ns
    ensures LabelReturns(t, name, fuel) == LabelReturns(t', name, fuel)
    decreases fuel, 0, 0
  {
    hide FindPlaced, TextReturns, AllIn;
    if FindPlaced(t, name).None? && fuel > 0 {
      match FindDef(t.sets, name)
      case None =>
      case Some(k) => TextReturnsAlike(t, t', ns, t.sets[k].code, 0, fuel - 1);
    }
  }

  lemma {:induction false} TextReturnsAlike(t: Tables, t': Tables, ns: iset<string>, text: string, a: nat, fuel: nat)
    requires Alike(t, t', ns) && a <= |text| && AllIn(text, a, ns)
    ensures TextReturns(t, text, a, fuel) == TextReturns(t', text, a, fuel)
    decreases fuel, 1, |text| - a
  {
    hide FindLabel, LabelReturns, Alike, IsNameChar, IsNumber, Names, Expr.Decimal;
    var e := TokenEnd(text, a);
    NamesStep(text, a);
    if !IsNumber(text[a..e]) {
      FindLabelAlike(t, t', ns, text[a..e], fuel);
      LabelReturnsAlike(t, t', ns, text[a..e], fuel);
    }
    if e < |text| {
      TextReturnsAlike(t, t', ns, text, e + 1, fuel);
    }
  }

  lemma AllReturnAlike(t: Tables, t': Tables, ns: iset<string>, pending: seq<Pending>)
    requires Alike(t, t', ns) && AllRefsIn(pending, ns) && AllReturn(t, pending)
    ensures AllReturn(t', pending)
  {
    hide TextReturns, AllIn;
    forall q | q in pending
      ensures Returns(t', q.text)
    {
      assert Returns(t, q.text);
      TextReturnsAlike(t, t', ns, q.text, 0, |t.sets|);
    }
  }

  // ---------------------------------------------------------------------------
  // Pass 1 with two histories
  // ---------------------------------------------------------------------------

  ghost predicate SameNames(g: seq<Label>, g': seq<Label>) {
    |g| == |g'| && forall k :: 0 <= k < |g| ==> g[k].name == g'[k].name
  }

  /** The units differ at most in the positions of globals. */
  ghost predicate SameButPositions(u: Unit, v: Unit) {
    && u.out == v.out && u.pending == v.pending && u.main == v.main
    && u.tables.labels == v.tables.labels && u.tables.sets == v.tables.sets
    && SameNames(u.tables.globals, v.tables.globals)
  }

  /** The name has one and the same position in both units. */
  predicate Agreed(u: Unit, v: Unit, name: string) {
    FindPlaced(u.tables, name).Some? && FindPlaced(u.tables, name) == FindPlaced(v.tables, name)
  }

  lemma {:induction false} FindSameNames(g: seq<Label>, g': seq<Label>, name: string)
    requires SameNames(g, g')
    ensures Find(g, name).Some? <==> Find(g', name).Some?
    ensures Find(g, name).Some? <==> exists k :: 0 <= k < |g| && g[k].name == name
    decreases |g|
  {
    if g != [] {
      assert SameNames(g[1..], g'[1..]);
      FindSameNames(g[1..], g'[1..], name);
      if Find(g[1..], name).Some? {
        var k :| 0 <= k < |g[1..]| && g[1..][k].name == name;
        assert g[k + 1].name == name;
      }
      if k :| 0 <= k < |g| && g[k].name == name && k > 0 {
        assert g[1..][k - 1].name == name;
      }
    }
  }

  lemma {:induction false} UpdatedNames(g: seq<Label>, name: string, pos: Word)
    ensures SameNames(g, Updated(g, name, pos))
    decreases |g|
  {
    if g != [] {
      UpdatedNames(g[1..], name, pos);
    }
  }

  lemma SameNamesJoin(g: seq<Label>, g': seq<Label>, name: string, pos: Word)
    requires SameNames(g, g')
    ensures SameNames(Updated(g, name, pos), Updated(g', name, pos))
  {
    hide Updated;
    UpdatedNames(g, name, pos);
    UpdatedNames(g', name, pos);
  }

  lemma AddLabelAgrees(u: Unit, v: Unit, name: string)
    requires SameButPositions(u, v)
    ensures SameButPositions(AddLabel(u, name), AddLabel(v, name))
    ensures Agreed(AddLabel(u, name), AddLabel(v, name), name)
    ensures forall n :: Agreed(u, v, n) ==> Agreed(AddLabel(u, name), AddLabel(v, name), n)
  {
    hide Updated, SameNames, Find;
    SameNamesJoin(u.tables.globals, v.tables.globals, name, Position(u));
    FindSameNames(u.tables.globals, v.tables.globals, name);
    FindUpdated(u.tables.globals, name, Position(u), name);
    FindUpdated(v.tables.globals, name, Position(u), name);
    FindAppend(u.tables.labels, Label(name, Position(u)), name);
    forall n | Agreed(u, v, n)
      ensures Agreed(AddLabel(u, name), AddLabel(v, name), n)
    {
      FindUpdated(u.tables.globals, name, Position(u), n);
      FindUpdated(v.tables.globals, name, Position(u), n);
      FindAppend(u.tables.labels, Label(name, Position(u)), n);
      FindSameNames(u.tables.globals, v.tables.globals, n);
    }
  }

  lemma GloblAgrees(u: Unit, v: Unit, name: string, p: Word, q: Word)
    requires SameButPositions(u, v)
    ensures var u', v' := u.(tables := u.tables.(globals := u.tables.globals + [Label(name, p)])),
                          v.(tables := v.tables.(globals := v.tables.globals + [Label(name, q)]));
      SameButPositions(u', v') && forall n :: Agreed(u, v, n) ==> Agreed(u', v', n)
  {
    hide Find;
    var u', v' := u.(tables := u.tables.(globals := u.tables.globals + [Label(name, p)])),
                  v.(tables := v.tables.(globals := v.tables.globals + [Label(name, q)]));
    forall n | Agreed(u, v, n)
      ensures Agreed(u', v', n)
    {
      FindAppend(u.tables.globals, Label(name, p), n);
      FindAppend(v.tables.globals, Label(name, q), n);
    }
  }

  lemma EmitAgrees(u: Unit, v: Unit, item: Item, host: seq<string>, s: Stale, s': Stale)
    requires SameButPositions(u, v)
    ensures Emit(u, item, host, s).Some? == Emit(v, item, host, s').Some?
    ensures Emit(u, item, host, s).Some? ==>
      var u', v' := Emit(u, item, host, s).value, Emit(v, item, host, s').value;
      && SameButPositions(u', v')
      && (forall n :: Agreed(u, v, n) ==> Agreed(u', v', n))
      && (item.LabelItem? ==> Agreed(u', v', item.name))
  {
    hide AddLabel, Agreed, SameNames, Bytes, Encode, ToInt, Nat, Padding, Effective, Placeholder, Find;
    match item
    case LabelItem(name) => AddLabelAgrees(u, v, name);
    case GloblItem(name) => GloblAgrees(u, v, name, s(|u.tables.globals|), s'(|v.tables.globals|));
    case _ => AgreedTables(u, v);
  }

  predicate SameTables(u: Unit, v: Unit) {
    v.tables.labels == u.tables.labels && v.tables.globals == u.tables.globals
  }

  /** Agreement depends only on the tables. */
  lemma AgreedTables(u: Unit, v: Unit)
    ensures forall u': Unit, v': Unit, n ::
      SameTables(u, u') && SameTables(v, v') && Agreed(u, v, n) ==> Agreed(u', v', n)
  {
  }

  /** Every global comes from a `.globl` among the first n items. */
  ghost predicate GlobalsListed(u: Unit, items: seq<Item>, n: nat)
    requires n <= |items|
  {
    forall j :: 0 <= j < |u.tables.globals| ==> exists k :: 0 <= k < n && items[k] == GloblItem(u.tables.globals[j].name)
  }

  lemma {:induction false} EmitAllAgrees(items: seq<Item>, n: nat, host: seq<string>, s: Stale, s': Stale)
    requires n <= |items|
    ensures EmitAll(items, n, host, s).Some? == EmitAll(items, n, host, s').Some?
    ensures EmitAll(items, n, host, s).Some? ==>
      var u, v := EmitAll(items, n, host, s).value, EmitAll(items, n, host, s').value;
      && SameButPositions(u, v)
      && (forall k :: 0 <= k < n && items[k].LabelItem? ==> Agreed(u, v, items[k].name))
      && GlobalsListed(u, items, n)
    decreases n
  {
    hide Emit, Agreed, SameButPositions;
    if n == 0 {
      assert SameButPositions(EMPTY, EMPTY) by {
        EmptyAgrees();
      }
    } else {
      EmitAllAgrees(items, n - 1, host, s, s');
      if EmitAll(items, n - 1, host, s).Some? {
        var u, v := EmitAll(items, n - 1, host, s).value, EmitAll(items, n - 1, host, s').value;
        EmitAgrees(u, v, items[n - 1], host, s, s');
        if Emit(u, items[n - 1], host, s).Some? {
          GlobalsFrom(u, items, n, host, s);
        }
      }
    }
  }

  lemma EmptyAgrees()
    ensures SameButPositions(EMPTY, EMPTY)
  {
  }

  lemma GlobalsFrom(u: Unit, items: seq<Item>, n: nat, host: seq<string>, s: Stale)
    requires 0 < n <= |items| && Emit(u, items[n - 1], host, s).Some?
    requires GlobalsListed(u, items, n - 1)
    ensures GlobalsListed(Emit(u, items[n - 1], host, s).value, items, n)
  {
    hide Updated, Find, Bytes, Encode, ToInt, Nat, Padding, Effective, Placeholder;
    var u' := Emit(u, items[n - 1], host, s).value;
    if items[n - 1].LabelItem? {
      UpdatedNames(u.tables.globals, items[n - 1].name, Position(u));
    }
    forall j | 0 <= j < |u'.tables.globals|
      ensures exists k :: 0 <= k < n && items[k] == GloblItem(u'.tables.globals[j].name)
    {
      if j < |u.tables.globals| {
        assert u'.tables.globals[j].name == u.tables.globals[j].name;
        var k :| 0 <= k < n - 1 && items[k] == GloblItem(u.tables.globals[j].name);
      } else {
        assert items[n - 1] == GloblItem(u'.tables.globals[j].name);
      }
    }
  }

  // ---------------------------------------------------------------------------
  // The names a source refers to
  // ---------------------------------------------------------------------------

  /** The text an item leaves to be looked up: of its reference, or of its definition. */
  function TextOf(item: Item, host: seq<string>): Option<string> {
    match item
    case InsItem(i) => if Symbolic(Effective(i, host)) then Some(Effective(i, host).sym) else None
    case LongItem(text) => Some(text)
    case SetItem(_, code) => Some(code)
    case _ => None
  }

  ghost predicate Mentions(items: seq<Item>, host: seq<string>, name: string) {
    exists k :: 0 <= k < |items| && TextOf(items[k], host).Some? && name in Names(TextOf(items[k], host).value, 0)
  }

  ghost function Mentioned(items: seq<Item>, host: seq<string>): iset<string> {
    iset name: string | Mentions(items, host, name)
  }

  ghost predicate Listed(items: seq<Item>, host: seq<string>, n: nat, text: string)
    requires n <= |items|
  {
    exists k :: 0 <= k < n && TextOf(items[k], host) == Some(text)
  }

  ghost predicate TextsListed(u: Unit, items: seq<Item>, host: seq<string>, n: nat)
    requires n <= |items|
  {
    && (forall q :: q in u.pending ==> Listed(items, host, n, q.text))
    && (forall d :: d in u.tables.sets ==> Listed(items, host, n, d.code))
  }

  lemma TextsFrom(u: Unit, items: seq<Item>, n: nat, host: seq<string>, s: Stale)
    requires 0 < n <= |items| && Emit(u, items[n - 1], host, s).Some? && TextsListed(u, items, host, n - 1)
    ensures TextsListed(Emit(u, items[n - 1], host, s).value, items, host, n)
  {
    hide Updated, Find, Bytes, Encode, ToInt, Nat, Padding, Effective, Placeholder;
    var u' := Emit(u, items[n - 1], host, s).value;
    forall text | Listed(items, host, n - 1, text)
      ensures Listed(items, host, n, text)
    {
    }
    forall q | q in u'.pending
      ensures Listed(items, host, n, q.text)
    {
      if q !in u.pending {
        assert TextOf(items[n - 1], host) == Some(q.text);
      }
    }
    forall d | d in u'.tables.sets
      ensures Listed(items, host, n, d.code)
    {
      if d !in u.tables.sets {
        assert TextOf(items[n - 1], host) == Some(d.code);
      }
    }
  }

  lemma {:induction false} AllTextsListed(items: seq<Item>, n: nat, host: seq<string>, s: Stale)
    requires n <= |items| && EmitAll(items, n, host, s).Some?
    ensures TextsListed(EmitAll(items, n, host, s).value, items, host, n)
    decreases n
  {
    hide Emit, TextsListed;
    if n == 0 {
      NoTexts(items, host);
    } else {
      EmitAllShorter(items, n - 1, n, host, s);
      AllTextsListed(items, n - 1, host, s);
      TextsFrom(EmitAll(items, n - 1, host, s).value, items, n, host, s);
    }
  }

  lemma NoTexts(items: seq<Item>, host: seq<string>)
    ensures TextsListed(EMPTY, items, host, 0)
  {
  }

  lemma ListedIn(items: seq<Item>, host: seq<string>, text: string)
    requires Listed(items, host, |items|, text)
    ensures AllIn(text, 0, Mentioned(items, host))
  {
    hide Names;
    var k :| 0 <= k < |items| && TextOf(items[k], host) == Some(text);
    forall n | n in Names(text, 0)
      ensures n in Mentioned(items, host)
    {
      assert TextOf(items[k], host).Some? && n in Names(TextOf(items[k], host).value, 0);
    }
  }

  lemma RefsMentioned(items: seq<Item>, host: seq<string>, u: Unit)
    requires TextsListed(u, items, host, |items|)
    ensures AllRefsIn(u.pending, Mentioned(items, host))
    ensures forall k :: 0 <= k < |u.tables.sets| ==> AllIn(u.tables.sets[k].code, 0, Mentioned(items, host))
  {
    hide AllIn, Mentioned, Listed;
    forall q | q in u.pending
      ensures AllIn(q.text, 0, Mentioned(items, host))
    {
      ListedIn(items, host, q.text);
    }
    forall k | 0 <= k < |u.tables.sets|
      ensures AllIn(u.tables.sets[k].code, 0, Mentioned(items, host))
    {
      assert u.tables.sets[k] in u.tables.sets;
      ListedIn(items, host, u.tables.sets[k].code);
    }
  }

  // ---------------------------------------------------------------------------
  // Independence
  // ---------------------------------------------------------------------------

  /** Every exported name that the source refers to is defined somewhere. */
  ghost predicate GlobalsDefined(items: seq<Item>, host: seq<string>) {
    forall j :: 0 <= j < |items| && items[j].GloblItem? && items[j].name in Mentioned(items, host) ==>
      Defined(items, items[j].name)
  }

  ghost predicate Defined(items: seq<Item>, name: string) {
    exists k :: 0 <= k < |items| && items[k] == LabelItem(name)
  }

  lemma TablesAlike(items: seq<Item>, host: seq<string>, u: Unit, v: Unit)
    requires SameButPositions(u, v) && GlobalsDefined(items, host)
    requires forall k :: 0 <= k < |items| && items[k].LabelItem? ==> Agreed(u, v, items[k].name)
    requires GlobalsListed(u, items, |items|) && TextsListed(u, items, host, |items|)
    ensures Alike(u.tables, v.tables, Mentioned(items, host)) && AllRefsIn(u.pending, Mentioned(items, host))
  {
    hide Find, Agreed, Mentioned, TextsListed, AllIn;
    var ns := Mentioned(items, host);
    RefsMentioned(items, host, u);
    forall name | name in ns
      ensures FindPlaced(u.tables, name) == FindPlaced(v.tables, name)
    {
      FindSameNames(u.tables.globals, v.tables.globals, name);
      if Find(u.tables.globals, name).Some? {
        var j :| 0 <= j < |u.tables.globals| && u.tables.globals[j].name == name;
        var k :| 0 <= k < |items| && items[k] == GloblItem(name);
        assert Defined(items, name);
        var m :| 0 <= m < |items| && items[m] == LabelItem(name);
        assert Agreed(u, v, items[m].name);
        AgreedSame(u, v, name);
      }
    }
  }

  lemma AgreedSame(u: Unit, v: Unit, name: string)
    requires Agreed(u, v, name)
    ensures FindPlaced(u.tables, name) == FindPlaced(v.tables, name)
  {
  }

  /** The bytes and the entry point depend on the source and the host functions alone. */
  lemma ReloadIndependent(p: Source, stale: Stale)
    requires Builds(p) && GlobalsDefined(p.items, p.host)
    ensures var q := p.(stale := stale);
      Builds(q) && Image(q) == Image(p) && Compiled(q).main == Compiled(p).main
  {
    hide EmitAll, Agreed, AllLinkable, AllReturn, PatchAll, Alike, GlobalsDefined, GlobalsListed, SameNames, TextsListed, Mentioned;
    hide AllRefsIn;
    var q := p.(stale := stale);
    EmitAllAgrees(p.items, |p.items|, p.host, p.stale, stale);
    AllTextsListed(p.items, |p.items|, p.host, p.stale);
    var u, v, ns := Compiled(p), Pass1(q, |q.items|).value, Mentioned(p.items, p.host);
    TablesAlike(p.items, p.host, u, v);
    LinkableAlike(u.tables, v.tables, ns, u.pending);
    AllReturnAlike(u.tables, v.tables, ns, u.pending);
    PatchAllAlike(u.out, u.tables, v.tables, ns, u.pending, |u.pending|);
  }

  // ---------------------------------------------------------------------------
  // Undefined exported names
  // ---------------------------------------------------------------------------

  /** The number of `.globl` lines among the first n, each of which takes one slot. */
  function Slots(items: seq<Item>, n: nat): nat
    requires n <= |items|
  {
    if n == 0 then 0 else Slots(items, n - 1) + if items[n - 1].GloblItem? then 1 else 0
  }

  /** Line j is the first to export this name. */
  predicate FirstExport(items: seq<Item>, name: string, j: nat) {
    j < |items| && items[j] == GloblItem(name) && forall i :: 0 <= i < j ==> items[i] != GloblItem(name)
  }

  lemma EmitSlot(u: Unit, item: Item, host: seq<string>, s: Stale, name: string)
    requires item != LabelItem(name) && Emit(u, item, host, s).Some?
    ensures var v := Emit(u, item, host, s).value;
      && |v.tables.globals| == |u.tables.globals| + (if item.GloblItem? then 1 else 0)
      && Find(v.tables.globals, name) ==
         if Find(u.tables.globals, name).Some? then Find(u.tables.globals, name)
         else if item == GloblItem(name) then Some(s(|u.tables.globals|))
         else None
  {
    hide Find, Updated, Encode, Effective, Bytes, ToInt, Nat, Padding, RelocOf;
    match item
    case LabelItem(other) => FindUpdated(u.tables.globals, other, Position(u), name);
    case GloblItem(other) => FindAppend(u.tables.globals, Label(other, s(|u.tables.globals|)), name);
    case _ =>
  }

  lemma {:induction false} ExportedSlot(items: seq<Item>, host: seq<string>, s: Stale, name: string, j: nat, n: nat)
    requires n <= |items| && FirstExport(items, name, j) && !Defined(items, name)
    requires EmitAll(items, n, host, s).Some?
    ensures var t := EmitAll(items, n, host, s).value.tables;
      && |t.globals| == Slots(items, n)
      && Find(t.globals, name) == if j < n then Some(s(Slots(items, j))) else None
    decreases n
  {
    hide Emit, Find;
    if n == 0 {
      EmptyGlobals(name);
    } else {
      EmitAllShorter(items, n - 1, n, host, s);
      ExportedSlot(items, host, s, name, j, n - 1);
      EmitSlot(EmitAll(items, n - 1, host, s).value, items[n - 1], host, s, name);
    }
  }

  lemma EmptyGlobals(name: string)
    ensures Find(EMPTY.tables.globals, name) == None
  {
  }

  /** An exported name that is never defined resolves to what its slot held before. */
  lemma UndefinedGlobalStale(p: Source, name: string, j: nat)
    requires Builds(p) && IsName(name) && FirstExport(p.items, name, j) && !Defined(p.items, name)
    ensures Lookup(Compiled(p).tables, name) == Some(p.stale(Slots(p.items, j)))
  {
    hide Find, EmitAll, AllLinkable, AllReturn, GetPos, FindLabel, IsName, FirstExport;
    var t, n := Compiled(p).tables, |p.items|;
    NowhereDefined(p, name);
    StaysUndefined(p.items, p.host, p.stale, name, n, n);
    ExportedSlot(p.items, p.host, p.stale, name, j, n);
    ExportIsIn(p.items, name, j);
    GlobalFound(t, name, p.stale(Slots(p.items, j)));
    NameStandsForPosition(t, name, |t.sets|);
  }

  lemma ExportIsIn(items: seq<Item>, name: string, j: nat)
    requires FirstExport(items, name, j)
    ensures j < |items|
  {
  }

  lemma NowhereDefined(p: Source, name: string)
    requires !Defined(p.items, name)
    ensures OnlyAt(p.items, name, |p.items|, |p.items|)
  {
  }

  lemma GlobalFound(t: Tables, name: string, pos: Word)
    requires Undefined(t, name) && Find(t.globals, name) == Some(pos)
    ensures FindLabel(t, name, |t.sets|) == Some(pos)
  {
    hide Find;
  }

  /**
   Every data word that names an undefined exported name is the old position, so that another history
   of the same source gives another file.
   */
  lemma UndefinedGlobalShows(p: Source, k: nat, name: string, j: nat, stale: Stale)
    requires Builds(p) && IsName(name) && FirstExport(p.items, name, j) && !Defined(p.items, name)
    requires k < |p.items| && p.items[k] == LongItem(name)
    ensures At(p, k) + 4 <= |Image(p)| && LoadWord(Image(p), At(p, k)) == p.stale(Slots(p.items, j))
    ensures var q := p.(stale := stale);
      Builds(q) && stale(Slots(p.items, j)) != p.stale(Slots(p.items, j)) ==> Image(q) != Image(p)
  {
    hide Builds, At, Image, Lookup, IsName, FirstExport, Defined, Slots, LoadWord;
    ExportIsIn(p.items, name, j);
    UndefinedGlobalStale(p, name, j);
    LongWord(p, k, p.stale(Slots(p.items, j)));
    var q := p.(stale := stale);
    if Builds(q) {
      UndefinedGlobalStale(q, name, j);
      LongWord(q, k, stale(Slots(p.items, j)));
      SameAt(p, q, k);
    }
  }

  /** Positions do not depend on the history. */
  lemma SameAt(p: Source, q: Source, k: nat)
    requires Builds(p) && Builds(q) && q.items == p.items && q.host == p.host && k <= |p.items|
    ensures At(p, k) == At(q, k)
  {
    hide EmitAll, Agreed, AllLinkable, AllReturn, GlobalsListed, SameNames, Placed, Extends;
    EmitAllAgrees(p.items, k, p.host, p.stale, q.stale);
    Prefix(p, k);
    Prefix(q, k);
  }
}
