/**
 The two passes of the assembler as functions: what each source item appends to the program and to the
 tables, and what linking patches. The class `Compiler.Compiler` is proved against these functions.
 */
module Assembler {
  import opened Options
  import opened Words
  import opened Machine
  import opened Asm
  import opened Encoder
  import opened Symbols

  /** A parsed source line. `Bytes` stands for every directive that only writes data. */
  datatype Item =
    | LabelItem(name: string)
    | GloblItem(name: string)
    | SetItem(name: string, code: string)
    | InsItem(i: Instr)
    | BytesItem(bytes: seq<Byte>)
    | LongItem(text: string)
    | AlignItem(p2: nat)

  /** How a pending reference is patched. */
  datatype Reloc = RLabel | RBranch | RTransfer | RAddress

  /** A pending reference: its text, the position to patch and the word as emitted. */
  datatype Pending = Pending(text: string, at: Word, word: bv32, reloc: Reloc)

  /** The program so far, the pending references and the tables. */
  datatype Unit = Unit(out: seq<Byte>, pending: seq<Pending>, tables: Tables, main: Word)

  const EMPTY := Unit([], [], Tables([], [], []), 0)

  // ---------------------------------------------------------------------------
  // Host functions
  // ---------------------------------------------------------------------------

  /** The host symbol table; its unused slots hold the empty string. */
  function HostIndex(host: seq<string>, name: string): (r: Option<nat>)
    ensures r.Some? ==> r.value < |host| && host[r.value] == name
    ensures r.None? ==> name !in host
  {
    if host == [] then None
    else if host[0] == name then Some(0)
    else
      match HostIndex(host[1..], name)
      case None => None
      case Some(k) => Some(k + 1)
  }

  function ProcIndex(k: nat): bv16 {
    (ToBits(k) & 0xffff) as bv16
  }

  /** A branch to a name that, without its first character, is a host function is an external call. */
  function Effective(i: Instr, host: seq<string>): Instr {
    if i.Jump? && i.sym != [] then
      match HostIndex(host, i.sym[1..])
      case None => i
      case Some(k) => Call(i.link, ProcIndex(k))
    else i
  }

  // ---------------------------------------------------------------------------
  // Pass 1
  // ---------------------------------------------------------------------------

  function Position(u: Unit): Word {
    Wrap(|u.out|)
  }

  function AddLabel(u: Unit, name: string): Unit {
    var main := if name == "_main" then Position(u) else u.main;
    var globals := Updated(u.tables.globals, name, Position(u));
    if Find(u.tables.globals, name).Some? then
      u.(main := main, tables := u.tables.(globals := globals))
    else
      u.(main := main, tables := u.tables.(labels := u.tables.labels + [Label(name, Position(u))]))
  }

  /** The first entry with this name moved to a new position. */
  function Updated(labels: seq<Label>, name: string, pos: Word): (r: seq<Label>)
    ensures |r| == |labels|
  {
    if labels == [] then []
    else if labels[0].name == name then [Label(name, pos)] + labels[1..]
    else [labels[0]] + Updated(labels[1..], name, pos)
  }

  function RelocOf(i: Instr): Reloc
    requires Symbolic(i)
  {
    match i
    case Jump(_, _, _) => RBranch
    case Literal(_, _, _, _, _) => RTransfer
    case Address(_, _, _) => RAddress
  }

  /** The word written in pass 1; an address instruction writes 1 until it is patched. */
  function Placeholder(i: Instr): bv32 {
    if i.Address? then 1 else Encode(i)
  }

  function EmitInstr(u: Unit, i: Instr): Option<Unit> {
    if Placeholder(i) == 0 then None
    else
      Some(u.(out := u.out + Bytes(ToInt(Placeholder(i))),
              pending := if Symbolic(i) then u.pending + [Pending(i.sym, Position(u), Encode(i), RelocOf(i))]
                         else u.pending))
  }

  function Zeros(n: nat): (z: seq<Byte>)
    ensures |z| == n
  {
    seq(n, _ => 0)
  }

  function Padding(pos: nat, p2: nat): nat {
    var fill := pos % Pow2(p2);
    if fill == 0 then 0 else Pow2(p2) - fill
  }

  /** `stale(k)` is the position left in slot k of the globals table by an earlier compilation. */
  type Stale = nat -> Word

  function Emit(u: Unit, item: Item, host: seq<string>, stale: Stale): Option<Unit> {
    match item
    case LabelItem(name) => Some(AddLabel(u, name))
    case GloblItem(name) =>
      var slot := Label(name, stale(|u.tables.globals|));
      Some(u.(tables := u.tables.(globals := u.tables.globals + [slot])))
    case SetItem(name, code) => Some(u.(tables := u.tables.(sets := u.tables.sets + [Def(name, code)])))
    case InsItem(i) => EmitInstr(u, Effective(i, host))
    case BytesItem(bytes) => Some(u.(out := u.out + bytes))
    case LongItem(text) =>
      Some(u.(out := u.out + Bytes(0xffff_ffff), pending := u.pending + [Pending(text, Position(u), 0, RLabel)]))
    case AlignItem(p2) => Some(u.(out := u.out + Zeros(Padding(|u.out|, p2))))
  }

  /** Pass 1 over the first n items. */
  function EmitAll(items: seq<Item>, n: nat, host: seq<string>, stale: Stale): Option<Unit>
    requires n <= |items|
  {
    if n == 0 then Some(EMPTY)
    else
      match EmitAll(items, n - 1, host, stale)
      case None => None
      case Some(u) => Emit(u, items[n - 1], host, stale)
  }

  // ---------------------------------------------------------------------------
  // Pass 2
  // ---------------------------------------------------------------------------

  function Lookup(t: Tables, text: string): Option<Word> {
    GetPos(t, text, |t.sets|)
  }

  /** The assertion in the data-transfer relocation. */
  predicate PatchOk(p: Pending, target: Word) {
    p.reloc == RTransfer ==> LiteralReach(p.at, target)
  }

  function SetPos(p: Pending, target: Word): Word
    requires PatchOk(p, target)
  {
    match p.reloc
    case RLabel => target
    case RBranch => ToInt(SetPosBranch(p.word, p.at, target))
    case RTransfer => ToInt(SetPosTransfer(p.word, p.at, target))
    case RAddress => ToInt(SetPosAddress(p.word, p.at, target))
  }

  predicate Linkable(t: Tables, p: Pending) {
    var r := Lookup(t, p.text);
    r.Some? ==> PatchOk(p, r.value)
  }

  predicate AllLinkable(t: Tables, pending: seq<Pending>) {
    forall p :: p in pending ==> Linkable(t, p)
  }

  function PatchOne(out: seq<Byte>, t: Tables, p: Pending): (r: seq<Byte>)
    requires Linkable(t, p)
    ensures |r| == |out|
  {
    match Lookup(t, p.text)
    case None => out
    case Some(target) => StoreWord(out, p.at, SetPos(p, target))
  }

  /** The first n pending references patched, in order. */
  function PatchAll(out: seq<Byte>, t: Tables, pending: seq<Pending>, n: nat): (r: seq<Byte>)
    requires n <= |pending| && AllLinkable(t, pending)
    ensures |r| == |out|
  {
    if n == 0 then out else PatchOne(PatchAll(out, t, pending, n - 1), t, pending[n - 1])
  }

  function Link(u: Unit): (r: seq<Byte>)
    requires AllLinkable(u.tables, u.pending)
    ensures |r| == |u.out|
  {
    PatchAll(u.out, u.tables, u.pending, |u.pending|)
  }
}
