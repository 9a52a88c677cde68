/**
 The expression evaluator.

 `Evaluate` follows the evaluator's one shared cursor over the text. `Denote` is the value of an
 expression tree whose operators group to the right and whose parentheses close at the end, which is
 the class of expressions the evaluator reads as written.
 */
module Expr {
  import opened Words

  /** The text ends with a NUL character that is not part of the sequence. */
  function CharAt(text: string, i: nat): char {
    if i < |text| then text[i] else '\0'
  }

  predicate IsDigit(c: char) {
    '0' <= c <= '9'
  }

  predicate IsSpace(c: char) {
    c == ' ' || '\t' <= c <= '\r'
  }

  function DigitValue(c: char): nat
    requires IsDigit(c)
  {
    c as int - '0' as int
  }

  // ---------------------------------------------------------------------------
  // Reading a number
  // ---------------------------------------------------------------------------

  datatype Scan = Scan(value: int, end: nat)

  function ScanDigits(text: string, i: nat, acc: nat): (s: Scan)
    requires i <= |text|
    ensures i <= s.end <= |text| && s.value >= 0
    decreases |text| - i
  {
    if i < |text| && IsDigit(text[i]) then ScanDigits(text, i + 1, 10 * acc + DigitValue(text[i]))
    else Scan(acc, i)
  }

  const LONG_MAX: int := 0x7fff_ffff_ffff_ffff

  function Clamp(v: int): int {
    if v > LONG_MAX then LONG_MAX else if v < -LONG_MAX - 1 then -LONG_MAX - 1 else v
  }

  function SkipSpace(text: string, i: nat): (j: nat)
    requires i <= |text|
    ensures i <= j <= |text|
    decreases |text| - i
  {
    if i < |text| && IsSpace(text[i]) then SkipSpace(text, i + 1) else i
  }

  /** `strtol` in base 10; with no digits it reads nothing. */
  function Strtol(text: string, i: nat): (s: Scan)
    requires i <= |text|
    ensures i <= s.end <= |text|
  {
    var j := SkipSpace(text, i);
    var signed := j < |text| && (text[j] == '-' || text[j] == '+');
    var k := if signed then j + 1 else j;
    if k < |text| && IsDigit(text[k]) then
      var d := ScanDigits(text, k, 0);
      Scan(Clamp(if signed && text[j] == '-' then -d.value else d.value), d.end)
    else Scan(0, i)
  }

  // ---------------------------------------------------------------------------
  // The evaluator
  // ---------------------------------------------------------------------------

  datatype Evaluation = Evaluation(value: Word, cursor: nat)

  function Evaluate(text: string, i: nat): (r: Evaluation)
    requires i <= |text|
    ensures i < r.cursor <= |text| + 1
    decreases |text| - i
  {
    if CharAt(text, i) == '(' && i < |text| then Evaluate(text, i + 1)
    else
      var n := Strtol(text, i);
      var op := CharAt(text, n.end);
      var next := n.end + 1;
      if n.end >= |text| || op == '\0' || op == ')' then Evaluation(Wrap(n.value), next)
      else if op == '+' then
        var r := Evaluate(text, next);
        Evaluation(Wrap(n.value + r.value), r.cursor)
      else if op == '-' then
        var r := Evaluate(text, next);
        Evaluation(Wrap(n.value - r.value), r.cursor)
      else Evaluation(0, next)
  }

  /** The shared `char **` of the evaluator: a text and a position that every call moves. */
  class TextCursor {
    const text: string
    var at: nat

    constructor (text: string)
      ensures this.text == text && at == 0
    {
      this.text := text;
      at := 0;
    }

    method EvaluateHere() returns (value: Word)
      requires at <= |text|
      modifies this
      ensures Evaluation(value, at) == Evaluate(text, old(at))
      decreases |text| - at
    {
      if CharAt(text, at) == '(' && at < |text| {
        at := at + 1;
        value := EvaluateHere();
        return;
      }
      var n := Strtol(text, at);
      at := n.end;
      var op := CharAt(text, at);
      var ended := at >= |text|;
      at := at + 1;
      if ended || op == '\0' || op == ')' {
        value := Wrap(n.value);
      } else if op == '+' {
        var r := EvaluateHere();
        value := Wrap(n.value + r);
      } else if op == '-' {
        var r := EvaluateHere();
        value := Wrap(n.value - r);
      } else {
        value := 0;
      }
    }
  }

  // ---------------------------------------------------------------------------
  // Printing
  // ---------------------------------------------------------------------------

  function DigitChar(d: nat): char
    requires d < 10
  {
    ('0' as int + d) as char
  }

  function DecimalNat(n: nat): (s: string)
    ensures |s| > 0 && forall k :: 0 <= k < |s| ==> IsDigit(s[k])
  {
    if n < 10 then [DigitChar(n)] else DecimalNat(n / 10) + [DigitChar(n % 10)]
  }

  /** `%d` of a DWORD. */
  function Decimal(w: Word): string {
    if Signed(w) < 0 then "-" + DecimalNat(-Signed(w)) else DecimalNat(w)
  }

  // ---------------------------------------------------------------------------
  // Expressions
  // ---------------------------------------------------------------------------

  /** A term is a position put in for a name, or a constant as written. */
  datatype Term = Position(w: Word) | Constant(n: nat)

  datatype Exp =
    | Leaf(a: Term)
    | Plus(a: Term, rest: Exp)
    | Minus(a: Term, rest: Exp)
    | Paren(inner: Exp)

  function TermText(a: Term): string {
    match a
    case Position(w) => Decimal(w)
    case Constant(n) => DecimalNat(n)
  }

  /** The number `strtol` reads from a term, before the conversion to int. */
  function Number(a: Term): int {
    match a
    case Position(w) => Signed(w)
    case Constant(n) => Clamp(n)
  }

  function TermValue(a: Term): Word {
    match a
    case Position(w) => w
    case Constant(n) => Wrap(Clamp(n))
  }

  function Denote(e: Exp): Word {
    match e
    case Leaf(a) => TermValue(a)
    case Plus(a, rest) => Wrap(TermValue(a) + Denote(rest))
    case Minus(a, rest) => Wrap(TermValue(a) - Denote(rest))
    case Paren(inner) => Denote(inner)
  }

  function Text(e: Exp): string {
    match e
    case Leaf(a) => TermText(a)
    case Plus(a, rest) => TermText(a) + "+" + Text(rest)
    case Minus(a, rest) => TermText(a) + "-" + Text(rest)
    case Paren(inner) => "(" + Text(inner) + ")"
  }

  // ---------------------------------------------------------------------------
  // Reading back what was printed
  // ---------------------------------------------------------------------------

  function Digits(s: string, acc: nat): nat
    requires forall k :: 0 <= k < |s| ==> IsDigit(s[k])
  {
    if s == [] then acc else Digits(s[1..], 10 * acc + DigitValue(s[0]))
  }

  /** The scanner reads exactly a run of digits that a non-digit or the end follows. */
  lemma {:induction false} ScanRun(pre: string, s: string, post: string, acc: nat)
    requires forall k :: 0 <= k < |s| ==> IsDigit(s[k])
    requires post == [] || !IsDigit(post[0])
    ensures ScanDigits(pre + s + post, |pre|, acc) == Scan(Digits(s, acc), |pre| + |s|)
    decreases |s|
  {
    var text := pre + s + post;
    if s == [] {
      assert |pre| < |text| ==> text[|pre|] == post[0];
    } else {
      var pre', s' := pre + [s[0]], s[1..];
      assert text[|pre|] == s[0];
      assert pre' + s' + post == text;
      ScanRun(pre', s', post, 10 * acc + DigitValue(s[0]));
    }
  }

  lemma {:induction false} DigitsAppend(s: string, c: char, acc: nat)
    requires (forall k :: 0 <= k < |s| ==> IsDigit(s[k])) && IsDigit(c)
    ensures forall k :: 0 <= k < |s + [c]| ==> IsDigit((s + [c])[k])
    ensures Digits(s + [c], acc) == 10 * Digits(s, acc) + DigitValue(c)
    decreases |s|
  {
    if s == [] {
      assert s + [c] == [c];
      assert [c][1..] == [];
    } else {
      assert (s + [c])[1..] == s[1..] + [c];
      DigitsAppend(s[1..], c, 10 * acc + DigitValue(s[0]));
    }
  }

  lemma {:induction false} DecimalDigits(n: nat)
    ensures Digits(DecimalNat(n), 0) == n
    decreases n
  {
    if n >= 10 {
      DecimalDigits(n / 10);
      DigitsAppend(DecimalNat(n / 10), DigitChar(n % 10), 0);
    }
  }

  lemma ScanDecimal(pre: string, n: nat, post: string)
    requires post == [] || !IsDigit(post[0])
    ensures ScanDigits(pre + DecimalNat(n) + post, |pre|, 0) == Scan(n, |pre| + |DecimalNat(n)|)
  {
    ScanRun(pre, DecimalNat(n), post, 0);
    DecimalDigits(n);
  }

  lemma StrtolDigits(pre: string, n: nat, post: string)
    requires post == [] || !IsDigit(post[0])
    ensures Strtol(pre + DecimalNat(n) + post, |pre|) == Scan(Clamp(n), |pre| + |DecimalNat(n)|)
  {
    hide DecimalNat, ScanDigits, Clamp;
    var text := pre + DecimalNat(n) + post;
    assert text[|pre|] == DecimalNat(n)[0];
    ScanDecimal(pre, n, post);
  }

  lemma StrtolNegative(pre: string, n: int, post: string)
    requires (post == [] || !IsDigit(post[0])) && 0 < n <= TWO31
    ensures Strtol(pre + ("-" + DecimalNat(n)) + post, |pre|) == Scan(0 - n, |pre| + 1 + |DecimalNat(n)|)
  {
    hide DecimalNat, ScanDigits;
    var text := pre + ("-" + DecimalNat(n)) + post;
    assert text[|pre|] == '-';
    assert (pre + "-") + DecimalNat(n) + post == text;
    assert text[|pre| + 1] == DecimalNat(n)[0];
    ScanDecimal(pre + "-", n, post);
  }

  /** `strtol` reads back a printed DWORD, up to the conversion to int. */
  lemma StrtolDecimal(pre: string, w: Word, post: string)
    requires post == [] || !IsDigit(post[0])
    ensures Strtol(pre + Decimal(w) + post, |pre|) == Scan(Signed(w), |pre| + |Decimal(w)|)
  {
    hide DecimalNat, Strtol;
    if Signed(w) < 0 {
      StrtolNegative(pre, -Signed(w), post);
    } else {
      StrtolDigits(pre, w, post);
    }
  }

  lemma StrtolTerm(pre: string, a: Term, post: string)
    requires post == [] || !IsDigit(post[0])
    ensures Strtol(pre + TermText(a) + post, |pre|) == Scan(Number(a), |pre| + |TermText(a)|)
  {
    hide Decimal, DecimalNat, Strtol, Clamp;
    match a
    case Position(w) => StrtolDecimal(pre, w, post);
    case Constant(n) => StrtolDigits(pre, n, post);
  }

  /** A printed term starts with a digit or sign. */
  lemma TermHead(a: Term)
    ensures TermText(a) != [] && TermText(a)[0] != '('
  {
    if a.Constant? {
      assert IsDigit(DecimalNat(a.n)[0]);
    }
  }

  lemma WrapNumber(a: Term, x: int)
    ensures Wrap(Number(a)) == TermValue(a)
    ensures Wrap(Number(a) + x) == Wrap(TermValue(a) + x) && Wrap(Number(a) - x) == Wrap(TermValue(a) - x)
  {
    hide Clamp;
    WrapShift(Number(a), TermValue(a), x);
  }

  lemma WrapShift(p: int, q: Word, x: int)
    requires Wrap(p) == q
    ensures Wrap(p + x) == Wrap(q + x) && Wrap(p - x) == Wrap(q - x)
  {
  }

  lemma EvaluateAtom(pre: string, a: Term, post: string, text: string)
    requires post == [] || !IsDigit(post[0])
    requires text == pre + TermText(a) + post
    ensures CharAt(text, |pre|) != '('
    ensures Strtol(text, |pre|) == Scan(Number(a), |pre| + |TermText(a)|)
    ensures |text| == |pre| + |TermText(a)| + |post|
    ensures post != [] ==> CharAt(text, |pre| + |TermText(a)|) == post[0]
  {
    hide TermText, Number, Strtol;
    TermHead(a);
    StrtolTerm(pre, a, post);
    assert text[|pre|] == TermText(a)[0];
  }

  lemma EvaluateLeaf(pre: string, a: Term, post: string, text: string)
    requires post == [] || post[0] == ')'
    requires text == pre + TermText(a) + post
    ensures Evaluate(text, |pre|).value == TermValue(a)
  {
    hide TermText, TermValue, Number, Strtol, Wrap;
    EvaluateAtom(pre, a, post, text);
    WrapNumber(a, 0);
  }

  predicate IsSign(op: char) {
    op == '+' || op == '-'
  }

  function Combine(op: char, x: int, y: int): Word {
    if op == '+' then Wrap(x + y) else Wrap(x - y)
  }

  lemma CombineNumber(op: char, a: Term, y: int)
    ensures Combine(op, Number(a), y) == Combine(op, TermValue(a), y)
  {
    hide Number, TermValue, Wrap;
    WrapNumber(a, y);
  }

  lemma SignIsNoDigit(op: char)
    requires IsSign(op)
    ensures !IsDigit(op)
  {
  }

  lemma EvaluateStep(text: string, i: nat, n: Scan, op: char)
    requires i <= |text| && CharAt(text, i) != '(' && Strtol(text, i) == n && n.end < |text| && CharAt(text, n.end) == op
    requires IsSign(op)
    ensures Evaluate(text, i).value == Combine(op, n.value, Evaluate(text, n.end + 1).value)
  {
    hide Strtol, Wrap, CharAt;
  }

  lemma EvaluateSum(pre: string, a: Term, op: char, post: string, text: string, at: nat)
    requires text == pre + TermText(a) + post && post != [] && post[0] == op && IsSign(op)
    requires at == |pre| + |TermText(a)|
    ensures at < |text|
    ensures Evaluate(text, |pre|).value == Combine(op, TermValue(a), Evaluate(text, at + 1).value)
  {
    hide *;
    SignIsNoDigit(op);
    EvaluateAtom(pre, a, post, text);
    EvaluateStep(text, |pre|, Scan(Number(a), at), op);
    CombineNumber(op, a, Evaluate(text, at + 1).value);
  }

  lemma EvaluateParen(pre: string, rest: string, text: string)
    requires text == pre + "(" + rest
    ensures Evaluate(text, |pre|) == Evaluate(text, |pre| + 1)
  {
    assert text[|pre|] == '(';
  }

  /** Whether an expression ends with a closing parenthesis, after which nothing is read. */
  predicate EndsClosed(e: Exp) {
    match e
    case Leaf(_) => false
    case Plus(_, rest) => EndsClosed(rest)
    case Minus(_, rest) => EndsClosed(rest)
    case Paren(_) => true
  }

  /**
   The evaluator computes the denotation of every right-nested expression, wherever it stands in the
   text, and whatever follows when the expression ends with a parenthesis.
   */
  lemma {:induction false} EvaluateDenotes(pre: string, e: Exp, post: string, text: string)
    requires EndsClosed(e) || post == [] || post[0] == ')'
    requires text == pre + Text(e) + post
    ensures Evaluate(text, |pre|).value == Denote(e)
    decreases e
  {
    hide TermText, TermValue, Evaluate, Wrap;
    match e
    case Leaf(a) =>
      EvaluateLeaf(pre, a, post, text);
    case Plus(a, rest) =>
      EvaluateOperator(pre, a, '+', Text(rest), post, text);
      EvaluateDenotes(pre + TermText(a) + "+", rest, post, text);
    case Minus(a, rest) =>
      EvaluateOperator(pre, a, '-', Text(rest), post, text);
      EvaluateDenotes(pre + TermText(a) + "-", rest, post, text);
    case Paren(inner) =>
      assert text == pre + "(" + (Text(inner) + ")" + post);
      EvaluateParen(pre, Text(inner) + ")" + post, text);
      assert text == (pre + "(") + Text(inner) + (")" + post);
      EvaluateDenotes(pre + "(", inner, ")" + post, text);
  }

  lemma EvaluateOperator(pre: string, a: Term, op: char, rest: string, post: string, text: string)
    requires text == pre + (TermText(a) + [op] + rest) + post && IsSign(op)
    ensures text == (pre + TermText(a) + [op]) + rest + post
    ensures var next := |pre + TermText(a) + [op]|;
      next <= |text| && Evaluate(text, |pre|).value == Combine(op, TermValue(a), Evaluate(text, next).value)
  {
    hide TermText, TermValue, Evaluate, Combine, IsSign;
    assert text == pre + TermText(a) + ([op] + (rest + post));
    EvaluateSum(pre, a, op, [op] + (rest + post), text, |pre| + |TermText(a)|);
  }

  // ---------------------------------------------------------------------------
  // The usual reading
  // ---------------------------------------------------------------------------

  function Signs(minus: bool, x: int): int {
    if minus then -x else x
  }

  /** What an accumulated value becomes when e follows it, operators applied from left to right. */
  function Onward(acc: int, minus: bool, e: Exp): int
    decreases e
  {
    match e
    case Leaf(a) => acc + Signs(minus, TermValue(a))
    case Plus(a, rest) => Onward(acc + Signs(minus, TermValue(a)), false, rest)
    case Minus(a, rest) => Onward(acc + Signs(minus, TermValue(a)), true, rest)
    case Paren(inner) => acc + Signs(minus, Onward(0, false, inner))
  }

  /** The value with operators grouped to the left, as they usually are. */
  function Usual(e: Exp): int {
    Onward(0, false, e)
  }

  /** The value of the first operand. */
  function First(e: Exp): int {
    match e
    case Leaf(a) => TermValue(a)
    case Plus(a, _) => TermValue(a)
    case Minus(a, _) => TermValue(a)
    case Paren(inner) => Usual(inner)
  }

  /** Half of what grouping to the right takes off the usual value. */
  function Misread(e: Exp): int {
    match e
    case Leaf(_) => 0
    case Plus(_, rest) => Misread(rest)
    case Minus(_, rest) => Usual(rest) - First(rest) - Misread(rest)
    case Paren(inner) => Misread(inner)
  }

  lemma {:induction false} OnwardFrom(acc: int, minus: bool, e: Exp)
    ensures Onward(acc, minus, e) == acc + Usual(e) - if minus then 2 * First(e) else 0
    decreases e
  {
    hide TermValue;
    match e
    case Leaf(a) =>
    case Plus(a, rest) =>
      OnwardFrom(acc + Signs(minus, TermValue(a)), false, rest);
      OnwardFrom(TermValue(a), false, rest);
    case Minus(a, rest) =>
      OnwardFrom(acc + Signs(minus, TermValue(a)), true, rest);
      OnwardFrom(TermValue(a), true, rest);
    case Paren(inner) =>
  }

  lemma {:induction false} DenoteMisreads(e: Exp)
    ensures Denote(e) == Wrap(Usual(e) - 2 * Misread(e))
    decreases e
  {
    hide TermValue, Wrap;
    match e
    case Leaf(a) => WrapWord(TermValue(a));
    case Plus(a, rest) =>
      DenoteMisreads(rest);
      OnwardFrom(TermValue(a), false, rest);
      WrapPlus(TermValue(a), Usual(rest) - 2 * Misread(rest));
    case Minus(a, rest) =>
      DenoteMisreads(rest);
      OnwardFrom(TermValue(a), true, rest);
      WrapNegate(TermValue(a), Usual(rest) - 2 * Misread(rest));
    case Paren(inner) => DenoteMisreads(inner);
  }

  lemma WrapPlus(a: int, y: int)
    ensures Wrap(a + Wrap(y)) == Wrap(a + y)
  {
  }

  lemma WrapNegate(a: int, y: int)
    ensures Wrap(a - Wrap(y)) == Wrap(a - y)
  {
  }

  lemma WrapTwice(x: int, m: int)
    ensures Wrap(x - 2 * m) == Wrap(x) <==> m % TWO31 == 0
  {
  }

  /**
   Operators group to the right, which is the usual value of an expression exactly when what is misread
   is a multiple of 2^31.
   */
  lemma GroupsToTheRight(e: Exp)
    ensures Evaluate(Text(e), 0).value == Wrap(Usual(e) - 2 * Misread(e))
    ensures Evaluate(Text(e), 0).value == Wrap(Usual(e)) <==> Misread(e) % TWO31 == 0
  {
    hide Text, Evaluate, Denote, Usual, Misread, Wrap;
    assert Text(e) == "" + Text(e) + "";
    EvaluateDenotes("", e, "", Text(e));
    DenoteMisreads(e);
    WrapTwice(Usual(e), Misread(e));
  }

  /** `a-b+c` is read as a-(b+c), which is (a-b)+c only when 2c is 0 modulo 2^32. */
  lemma DifferenceAndSum(a: Term, b: Term, c: Term)
    ensures var e := Minus(a, Plus(b, Leaf(c)));
      && Text(e) == TermText(a) + "-" + (TermText(b) + "+" + TermText(c))
      && Usual(e) == TermValue(a) - TermValue(b) + TermValue(c)
      && (Evaluate(Text(e), 0).value == Wrap(Usual(e)) <==> TermValue(c) == 0 || TermValue(c) == TWO31)
  {
    hide TermText, TermValue, Evaluate, Wrap;
    var rest := Plus(b, Leaf(c));
    assert Text(rest) == TermText(b) + "+" + TermText(c);
    assert Onward(TermValue(b), false, Leaf(c)) == TermValue(b) + TermValue(c);
    assert Misread(Leaf(c)) == 0;
    assert Usual(rest) == TermValue(b) + TermValue(c) && Misread(rest) == 0;
    assert Onward(TermValue(a) - TermValue(b), false, Leaf(c)) == TermValue(a) - TermValue(b) + TermValue(c);
    assert Onward(TermValue(a), true, rest) == TermValue(a) - TermValue(b) + TermValue(c);
    GroupsToTheRight(Minus(a, rest));
  }

  /**
   Text after a closing parenthesis is not read: with an operator and an expression following, the
   value is the usual one exactly when those add nothing that the misreading inside does not take off.
   */
  lemma TextAfterParenthesis(e: Exp, minus: bool, rest: Exp)
    ensures var text := "(" + Text(e) + ")" + (if minus then "-" else "+") + Text(rest);
      && Evaluate(text, 0).value == Denote(e)
      && (Evaluate(text, 0).value == Wrap(Onward(Usual(e), minus, rest))
          <==> (Onward(0, minus, rest) + 2 * Misread(e)) % TWO32 == 0)
  {
    hide Text, Evaluate, Denote, Usual, First, Misread, Onward, Wrap;
    var post := (if minus then "-" else "+") + Text(rest);
    var text := "(" + Text(e) + ")" + (if minus then "-" else "+") + Text(rest);
    ParenText(e);
    assert text == "" + Text(Paren(e)) + post;
    EvaluateDenotes("", Paren(e), post, text);
    DenoteMisreads(e);
    OnwardFrom(Usual(e), minus, rest);
    OnwardFrom(0, minus, rest);
    WrapApart(Usual(e), 2 * Misread(e), Onward(0, minus, rest));
  }

  lemma ParenText(e: Exp)
    ensures Text(Paren(e)) == "(" + Text(e) + ")" && Denote(Paren(e)) == Denote(e)
  {
  }

  lemma WrapApart(x: int, m: int, d: int)
    ensures Wrap(x - m) == Wrap(x + d) <==> (d + m) % TWO32 == 0
  {
  }

  /** So `(a)+c` is right exactly when c is 0. */
  lemma TermAfterParenthesis(a: Term, c: Term)
    ensures Evaluate("(" + TermText(a) + ")" + "+" + TermText(c), 0).value == Wrap(TermValue(a) + TermValue(c))
      <==> TermValue(c) == 0
  {
    hide TermText, TermValue, Evaluate, Wrap;
    TextAfterParenthesis(Leaf(a), false, Leaf(c));
  }

  // ---------------------------------------------------------------------------
  // Numbers and blanks
  // ---------------------------------------------------------------------------

  /** A constant is its value modulo 2^32, up to the largest number that can be read, which stands for -1. */
  lemma ConstantValue(n: nat)
    ensures n < 0x8000_0000_0000_0000 ==> (TermValue(Constant(n)) - n) % TWO32 == 0
    ensures n >= 0x7fff_ffff_ffff_ffff ==> TermValue(Constant(n)) == 0xffff_ffff
  {
  }

  lemma DecimalExamples()
    ensures DecimalNat(4096) == "4096" && Decimal(0xffff_fff6) == "-10"
  {
    assert DecimalNat(40) == "40" && DecimalNat(409) == "409";
    assert DecimalNat(10) == "10" && Signed(0xffff_fff6) == -10;
  }

  /** A character after a number that is no operator, parenthesis or end makes the whole text 0. */
  lemma OtherOperator(pre: string, a: Term, c: char, post: string)
    requires !IsDigit(c) && c !in "+-)\0"
    ensures Evaluate(pre + TermText(a) + ([c] + post), |pre|).value == 0
  {
    hide TermText, Number, Strtol;
    EvaluateAtom(pre, a, [c] + post, pre + TermText(a) + ([c] + post));
  }

  /** The six blanks. */
  lemma Blanks(c: char)
    ensures IsSpace(c) <==> c in " \t\n\r" || c == 11 as char || c == 12 as char
  {
  }
}
