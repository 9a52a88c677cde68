/**
 Symbol lookup and position expressions.

 A name is looked up among the local labels, then the globals, then the `.set` definitions, whose text
 is evaluated in turn. The C functions recurse without bound; `fuel` bounds the nesting of `.set`
 definitions. Module `Nesting` says exactly when the C functions return, and that the bound then does
 not show.
 */
module Symbols {
  import opened Options
  import opened Words
  import Expr

  datatype Label = Label(name: string, pos: Word)
  datatype Def = Def(name: string, code: string)
  datatype Tables = Tables(labels: seq<Label>, globals: seq<Label>, sets: seq<Def>)

  /** Characters of a name: letters, digits, `_`, `.` and `$`. */
  predicate IsNameChar(c: char) {
    'a' <= c <= 'z' || 'A' <= c <= 'Z' || '0' <= c <= '9' || c == '_' || c == '.' || c == '$'
  }

  predicate IsNumber(token: string) {
    forall k :: 0 <= k < |token| ==> Expr.IsDigit(token[k])
  }

  /** The end of the run of name characters that starts at a. */
  function TokenEnd(text: string, a: nat): (e: nat)
    requires a <= |text|
    ensures a <= e <= |text|
    ensures e < |text| ==> !IsNameChar(text[e])
    ensures forall k :: a <= k < e ==> IsNameChar(text[k])
    decreases |text| - a
  {
    if a < |text| && IsNameChar(text[a]) then TokenEnd(text, a + 1) else a
  }

  /** The first entry with this name. */
  function Find(labels: seq<Label>, name: string): (r: Option<Word>)
  {
    if labels == [] then None
    else if labels[0].name == name then Some(labels[0].pos)
    else Find(labels[1..], name)
  }

  function FindDef(sets: seq<Def>, name: string): (r: Option<nat>)
    ensures r.Some? ==> r.value < |sets| && sets[r.value].name == name
    ensures r.None? ==> forall k :: 0 <= k < |sets| ==> sets[k].name != name
    decreases |sets|
  {
    if sets == [] then None
    else if sets[0].name == name then Some(0)
    else
      match FindDef(sets[1..], name)
      case None => None
      case Some(k) => Some(k + 1)
  }

  function FindPlaced(t: Tables, name: string): Option<Word> {
    match Find(t.labels, name)
    case Some(p) => Some(p)
    case None => Find(t.globals, name)
  }

  function FindLabel(t: Tables, name: string, fuel: nat): Option<Word>
    decreases fuel, 0, 0
  {
    match FindPlaced(t, name)
    case Some(p) => Some(p)
    case None =>
      match FindDef(t.sets, name)
      case None => None
      case Some(k) => if fuel == 0 then None else GetPos(t, t.sets[k].code, fuel - 1)
  }

  /** What one token of an expression becomes: a number stays, a name becomes its position. */
  function TokenText(t: Tables, token: string, fuel: nat): Option<string>
    decreases fuel, 1, 0
  {
    if IsNumber(token) then Some(token)
    else
      match FindLabel(t, token, fuel)
      case None => None
      case Some(p) => Some(Expr.Decimal(p))
  }

  /** The separator after a token: white space is dropped. */
  function SeparatorText(c: char): string {
    if Expr.IsSpace(c) then "" else [c]
  }

  /** The expression text from position a on, with positions substituted for names. */
  function Substitute(t: Tables, text: string, a: nat, fuel: nat): Option<string>
    requires a <= |text|
    decreases fuel, 2, |text| - a
  {
    var e := TokenEnd(text, a);
    match TokenText(t, text[a..e], fuel)
    case None => None
    case Some(head) =>
      if e == |text| then Some(head)
      else
        match Substitute(t, text, e + 1, fuel)
        case None => None
        case Some(tail) => Some(head + SeparatorText(text[e]) + tail)
  }

  function GetPos(t: Tables, text: string, fuel: nat): Option<Word>
    decreases fuel, 3, 0
  {
    match Substitute(t, text, 0, fuel)
    case None => None
    case Some(s) => Some(Expr.Evaluate(s, 0).value)
  }

  // ---------------------------------------------------------------------------
  // Names and expressions
  // ---------------------------------------------------------------------------

  predicate IsName(name: string) {
    && !IsNumber(name)
    && forall k :: 0 <= k < |name| ==> IsNameChar(name[k])
  }

  lemma {:induction false} TokenEndOfName(text: string, a: nat, e: nat)
    requires a <= e <= |text| && (forall k :: a <= k < e ==> IsNameChar(text[k]))
    requires e < |text| ==> !IsNameChar(text[e])
    ensures TokenEnd(text, a) == e
    decreases e - a
  {
    if a < e {
      TokenEndOfName(text, a + 1, e);
    }
  }

  /** A reference that is just a name stands for the position of that name. */
  lemma NameStandsForPosition(t: Tables, name: string, fuel: nat)
    requires IsName(name)
    ensures GetPos(t, name, fuel) == FindLabel(t, name, fuel)
  {
    hide FindLabel;
    TokenEndOfName(name, 0, |name|);
    assert name[0..|name|] == name;
    assert TokenText(t, name, fuel) ==
      (match FindLabel(t, name, fuel) case None => None case Some(p) => Some(Expr.Decimal(p)));
    match FindLabel(t, name, fuel)
    case None =>
    case Some(p) =>
      var e := Expr.Leaf(Expr.Position(p));
      assert "" + Expr.Text(e) + "" == Expr.Decimal(p);
      Expr.EvaluateDenotes("", e, "", Expr.Decimal(p));
  }

  /** A position expression as written: names and numbers where the tree has values. */
  datatype Atom = Name(name: string) | Number(n: nat)
  datatype PosExp =
    | One(a: Atom)
    | Sum(a: Atom, rest: PosExp)
    | Difference(a: Atom, rest: PosExp)
    | Group(inner: PosExp)

  predicate AtomOk(a: Atom) {
    match a
    case Name(name) => IsName(name)
    case Number(_) => true
  }

  predicate PosExpOk(e: PosExp) {
    match e
    case One(a) => AtomOk(a)
    case Sum(a, rest) => AtomOk(a) && PosExpOk(rest)
    case Difference(a, rest) => AtomOk(a) && PosExpOk(rest)
    case Group(inner) => PosExpOk(inner)
  }

  function AtomWritten(a: Atom): string {
    match a
    case Name(name) => name
    case Number(n) => Expr.DecimalNat(n)
  }

  function Written(e: PosExp): string {
    match e
    case One(a) => AtomWritten(a)
    case Sum(a, rest) => AtomWritten(a) + "+" + Written(rest)
    case Difference(a, rest) => AtomWritten(a) + "-" + Written(rest)
    case Group(inner) => "(" + Written(inner) + ")"
  }

  function AtomTerm(t: Tables, a: Atom, fuel: nat): Option<Expr.Term> {
    match a
    case Name(name) =>
      (match FindLabel(t, name, fuel)
       case None => None
       case Some(p) => Some(Expr.Position(p)))
    case Number(n) => Some(Expr.Constant(n))
  }

  /** The tree with positions for names, if every name is known. */
  function Resolved(t: Tables, e: PosExp, fuel: nat): Option<Expr.Exp> {
    match e
    case One(a) =>
      (match AtomTerm(t, a, fuel)
       case None => None
       case Some(w) => Some(Expr.Leaf(w)))
    case Sum(a, rest) =>
      (match (AtomTerm(t, a, fuel), Resolved(t, rest, fuel))
       case (Some(w), Some(r)) => Some(Expr.Plus(w, r))
       case _ => None)
    case Difference(a, rest) =>
      (match (AtomTerm(t, a, fuel), Resolved(t, rest, fuel))
       case (Some(w), Some(r)) => Some(Expr.Minus(w, r))
       case _ => None)
    case Group(inner) =>
      (match Resolved(t, inner, fuel)
       case None => None
       case Some(r) => Some(Expr.Paren(r)))
  }

  lemma AtomIsToken(a: Atom)
    requires AtomOk(a)
    ensures AtomWritten(a) != [] && forall k :: 0 <= k < |AtomWritten(a)| ==> IsNameChar(AtomWritten(a)[k])
    ensures IsNumber(AtomWritten(a)) <==> a.Number?
  {
    hide Expr.DecimalNat;
  }

  lemma AtomText(t: Tables, a: Atom, fuel: nat)
    requires AtomOk(a)
    ensures TokenText(t, AtomWritten(a), fuel) ==
      (match AtomTerm(t, a, fuel) case None => None case Some(w) => Some(Expr.TermText(w)))
  {
    hide FindLabel, Expr.DecimalNat;
    AtomIsToken(a);
  }

  /** One token followed by a separator or by the end. */
  lemma SubstituteToken(t: Tables, pre: string, a: Atom, post: string, text: string, fuel: nat)
    requires AtomOk(a) && text == pre + AtomWritten(a) + post
    requires post == [] || !IsNameChar(post[0])
    ensures var e := |pre| + |AtomWritten(a)|;
      Substitute(t, text, |pre|, fuel) ==
        match AtomTerm(t, a, fuel)
        case None => None
        case Some(w) =>
          if post == [] then Some(Expr.TermText(w))
          else
            match Substitute(t, text, e + 1, fuel)
            case None => None
            case Some(tail) => Some(Expr.TermText(w) + SeparatorText(post[0]) + tail)
  {
    hide FindLabel, Expr.DecimalNat, Expr.TermText, SeparatorText, IsNameChar, TokenText, AtomWritten, AtomTerm;
    var e := |pre| + |AtomWritten(a)|;
    AtomIsToken(a);
    forall k | |pre| <= k < e
      ensures IsNameChar(text[k])
    {
      assert text[k] == AtomWritten(a)[k - |pre|];
    }
    TokenEndOfName(text, |pre|, e);
    assert text[|pre|..e] == AtomWritten(a);
    AtomText(t, a, fuel);
  }

  predicate AllClosers(post: string) {
    forall k :: 0 <= k < |post| ==> post[k] == ')'
  }

  /** Separators with nothing between them are copied. */
  lemma SubstituteEmpty(t: Tables, text: string, a: nat, fuel: nat)
    requires a < |text| && !IsNameChar(text[a])
    ensures Substitute(t, text, a, fuel) ==
      match Substitute(t, text, a + 1, fuel)
      case None => None
      case Some(tail) => Some(SeparatorText(text[a]) + tail)
  {
    hide FindLabel, SeparatorText, IsNameChar;
    TokenEndOfName(text, a, a);
    assert text[a..a] == [];
    assert TokenText(t, [], fuel) == Some([]);
    match Substitute(t, text, a + 1, fuel)
    case None =>
    case Some(tail) => assert [] + SeparatorText(text[a]) + tail == SeparatorText(text[a]) + tail;
  }

  lemma SubstituteEnd(t: Tables, text: string, fuel: nat)
    ensures Substitute(t, text, |text|, fuel) == Some([])
  {
    assert text[|text|..|text|] == [];
    assert TokenText(t, [], fuel) == Some([]);
  }

  lemma CloserFacts()
    ensures !IsNameChar(')') && SeparatorText(')') == ")"
    ensures !IsNameChar('(') && SeparatorText('(') == "("
    ensures !IsNameChar('+') && SeparatorText('+') == "+"
    ensures !IsNameChar('-') && SeparatorText('-') == "-"
  {
  }

  lemma {:induction false} SubstituteClosers(t: Tables, pre: string, post: string, text: string, fuel: nat)
    requires AllClosers(post) && text == pre + post
    ensures Substitute(t, text, |pre|, fuel) == Some(post)
    decreases |post|
  {
    hide IsNameChar, SeparatorText, Substitute;
    CloserFacts();
    if post == [] {
      assert text == pre;
      SubstituteEnd(t, text, fuel);
    } else {
      assert text[|pre|] == ')';
      assert text == (pre + ")") + post[1..];
      SubstituteClosers(t, pre + ")", post[1..], text, fuel);
      SubstituteEmpty(t, text, |pre|, fuel);
      assert ")" + post[1..] == post;
    }
  }

  lemma SubstituteLast(t: Tables, pre: string, a: Atom, post: string, text: string, fuel: nat)
    requires AtomOk(a) && AllClosers(post) && text == pre + AtomWritten(a) + post
    ensures Substitute(t, text, |pre|, fuel) ==
      match AtomTerm(t, a, fuel)
      case None => None
      case Some(w) => Some(Expr.TermText(w) + post)
  {
    hide FindLabel, AtomOk, AtomWritten, AtomTerm, IsNameChar, SeparatorText, Substitute, Expr.TermText;
    CloserFacts();
    SubstituteToken(t, pre, a, post, text, fuel);
    if AtomTerm(t, a, fuel).Some? {
      var d := Expr.TermText(AtomTerm(t, a, fuel).value);
      if post == [] {
        assert d + post == d;
      } else {
        assert text == (pre + AtomWritten(a) + ")") + post[1..];
        SubstituteClosers(t, pre + AtomWritten(a) + ")", post[1..], text, fuel);
        assert d + ")" + post[1..] == d + post;
      }
    }
  }

  lemma SubstituteFirst(t: Tables, pre: string, a: Atom, op: char, rest: string, text: string, fuel: nat)
    requires AtomOk(a) && (op == '+' || op == '-') && text == pre + AtomWritten(a) + ([op] + rest)
    ensures var next := |pre| + |AtomWritten(a)| + 1;
      && next <= |text|
      && Substitute(t, text, |pre|, fuel) ==
        match (AtomTerm(t, a, fuel), Substitute(t, text, next, fuel))
        case (Some(w), Some(tail)) => Some(Expr.TermText(w) + [op] + tail)
        case _ => None
  {
    hide FindLabel, AtomOk, AtomWritten, AtomTerm, IsNameChar, SeparatorText, Substitute, Expr.TermText;
    CloserFacts();
    SubstituteToken(t, pre, a, [op] + rest, text, fuel);
  }

  /** Substituting positions into a written expression prints the resolved one. */
  lemma {:induction false} SubstituteWritten(t: Tables, pre: string, e: PosExp, post: string, text: string, fuel: nat)
    requires PosExpOk(e) && AllClosers(post) && text == pre + Written(e) + post
    ensures Substitute(t, text, |pre|, fuel) ==
      match Resolved(t, e, fuel)
      case None => None
      case Some(r) => Some(Expr.Text(r) + post)
    decreases e, 0
  {
    hide FindLabel, AtomOk, AtomWritten, AtomTerm, IsNameChar, SeparatorText, Substitute, Expr.TermText;
    match e
    case One(a) =>
      SubstituteLast(t, pre, a, post, text, fuel);
    case Sum(a, rest) =>
      SubstituteOperator(t, pre, a, '+', rest, post, text, fuel);
    case Difference(a, rest) =>
      SubstituteOperator(t, pre, a, '-', rest, post, text, fuel);
    case Group(inner) =>
      CloserFacts();
      assert text[|pre|] == '(';
      assert text == (pre + "(") + Written(inner) + (")" + post);
      SubstituteEmpty(t, text, |pre|, fuel);
      SubstituteWritten(t, pre + "(", inner, ")" + post, text, fuel);
      if Resolved(t, inner, fuel).Some? {
        var x := Expr.Text(Resolved(t, inner, fuel).value);
        assert "(" + (x + (")" + post)) == ("(" + x + ")") + post;
      }
  }

  lemma SubstituteOperator(t: Tables, pre: string, a: Atom, op: char, rest: PosExp, post: string, text: string, fuel: nat)
    requires AtomOk(a) && PosExpOk(rest) && AllClosers(post) && (op == '+' || op == '-')
    requires text == pre + (AtomWritten(a) + [op] + Written(rest)) + post
    ensures Substitute(t, text, |pre|, fuel) ==
      match (AtomTerm(t, a, fuel), Resolved(t, rest, fuel))
      case (Some(w), Some(r)) => Some((Expr.TermText(w) + [op] + Expr.Text(r)) + post)
      case _ => None
    decreases rest, 1
  {
    hide FindLabel, AtomOk, AtomWritten, AtomTerm, IsNameChar, SeparatorText, Substitute, Expr.TermText;
    assert text == pre + AtomWritten(a) + ([op] + (Written(rest) + post));
    SubstituteFirst(t, pre, a, op, Written(rest) + post, text, fuel);
    assert text == (pre + AtomWritten(a) + [op]) + Written(rest) + post;
    SubstituteWritten(t, pre + AtomWritten(a) + [op], rest, post, text, fuel);
    if AtomTerm(t, a, fuel).Some? && Resolved(t, rest, fuel).Some? {
      var d, x := Expr.TermText(AtomTerm(t, a, fuel).value), Expr.Text(Resolved(t, rest, fuel).value);
      assert d + [op] + (x + post) == (d + [op] + x) + post;
    }
  }

  /** A position expression has the value it denotes, and is unresolved exactly when some name is. */
  lemma PositionDenotes(t: Tables, e: PosExp, fuel: nat)
    requires PosExpOk(e)
    ensures GetPos(t, Written(e), fuel) ==
      match Resolved(t, e, fuel)
      case None => None
      case Some(r) => Some(Expr.Denote(r))
  {
    hide Substitute, Resolved, PosExpOk, Expr.Evaluate, Expr.Denote;
    assert "" + Written(e) + "" == Written(e);
    SubstituteWritten(t, "", e, "", Written(e), fuel);
    match Resolved(t, e, fuel)
    case None =>
    case Some(r) =>
      assert Expr.Text(r) + "" == Expr.Text(r);
      assert "" + Expr.Text(r) + "" == Expr.Text(r);
      Expr.EvaluateDenotes("", r, "", Expr.Text(r));
  }

  // ---------------------------------------------------------------------------
  // Names
  // ---------------------------------------------------------------------------

  /** The characters of names are letters, digits and three signs; none of these is a blank or an operator. */
  lemma NameCharacters(c: char)
    ensures var a := c as int;
      IsNameChar(c) <==> 48 <= a < 58 || 65 <= a < 91 || 97 <= a < 123 || a == 95 || a == 46 || a == 36
    ensures IsNameChar(c) ==> !Expr.IsSpace(c) && c !in "+-()"
  {
  }

  /** A blank after a name changes nothing. */
  lemma BlankAfter(t: Tables, name: string, c: char, fuel: nat)
    requires IsName(name) && name != [] && Expr.IsSpace(c)
    ensures Substitute(t, name + [c], 0, fuel) == Substitute(t, name, 0, fuel)
  {
    hide FindLabel, IsNameChar, SeparatorText, Expr.IsSpace, Expr.TermText;
    SpaceSeparates(c);
    SubstituteToken(t, "", Name(name), [c], name + [c], fuel);
    SubstituteToken(t, "", Name(name), "", name, fuel);
    assert "" + AtomWritten(Name(name)) + [c] == name + [c] && "" + AtomWritten(Name(name)) + "" == name;
    SubstituteEnd(t, name + [c], fuel);
    if AtomTerm(t, Name(name), fuel).Some? {
      var d := Expr.TermText(AtomTerm(t, Name(name), fuel).value);
      assert d + "" + "" == d;
    }
  }

  lemma SpaceSeparates(c: char)
    requires Expr.IsSpace(c)
    ensures !IsNameChar(c) && SeparatorText(c) == ""
  {
  }
}
