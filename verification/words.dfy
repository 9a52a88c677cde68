/** Bit-vector operations behind names, with the few facts about them that proofs about integers need. */
module BitFacts {

  function Down(x: bv32): bv32 { x >> 1 }
  predicate Odd(x: bv32) { x & 1 == 1 }
  function Up(x: bv32, b: bool): bv32 { (x << 1) | (if b then 1 else 0) }
  function Meet(x: bv32, y: bv32): bv32 { x & y }
  function Join(x: bv32, y: bv32): bv32 { x | y }

  lemma DownMeet(x: bv32, y: bv32)
    ensures Down(Meet(x, y)) == Meet(Down(x), Down(y))
  {
  }

  lemma OddMeet(x: bv32, y: bv32)
    ensures Odd(Meet(x, y)) <==> Odd(x) && Odd(y)
  {
  }

  lemma DownJoin(x: bv32, y: bv32)
    ensures Down(Join(x, y)) == Join(Down(x), Down(y))
  {
  }

  lemma OddJoin(x: bv32, y: bv32)
    ensures Odd(Join(x, y)) <==> Odd(x) || Odd(y)
  {
  }

  lemma MeetZero(x: bv32)
    ensures Meet(x, 0) == 0
  {
  }

  lemma JoinZero(y: bv32)
    ensures Join(0, y) == y
  {
  }

  lemma UpDown(x: bv32)
    ensures Up(Down(x), Odd(x)) == x
  {
  }

  lemma OddUp(x: bv32, b: bool)
    ensures Odd(Up(x, b)) == b
  {
  }

  lemma DownUp(x: bv32, b: bool)
    requires Meet(x, 0x8000_0000) == 0
    ensures Down(Up(x, b)) == x
  {
  }

  lemma DownZero()
    ensures Down(0) == 0 && !Odd(0)
  {
  }

  lemma One(x: bv32)
    requires Down(x) == 0 && x != 0
    ensures Odd(x)
  {
  }

  lemma SplitTop(x: bv32)
    ensures Join(Meet(x, 0x7fff_ffff), Meet(x, 0x8000_0000)) == x
  {
  }

  lemma TopDisjoint(x: bv32)
    ensures Meet(Meet(x, 0x7fff_ffff), Meet(x, 0x8000_0000)) == 0
  {
  }

  lemma TopIs(x: bv32)
    ensures Meet(x, 0x8000_0000) == 0 || Meet(x, 0x8000_0000) == 0x8000_0000
  {
  }

  lemma TopOnes()
    ensures Meet(0x8000_0000, 0x7fff_ffff) == 0 && Join(0x8000_0000, 0x7fff_ffff) == 0xffff_ffff
  {
  }

  lemma AllOnes(x: bv32)
    ensures Meet(x, 0xffff_ffff) == x
  {
  }
}

/**
 The 32-bit words of the virtual machine.

 Registers, addresses and file positions are integers in [0, 2^32); instruction words and masks are
 bit-vectors. Arithmetic is reasoned about on the integers, field extraction on the bit-vectors, and
 the two are joined by the bijection Nat/ToBits, which is proved here bit by bit.
 */
module Words {
  import opened BitFacts

  const TWO32: int := 0x1_0000_0000
  const TWO31: int := 0x8000_0000

  type Word = x: int | 0 <= x < 0x1_0000_0000
  type Byte = x: int | 0 <= x < 256

  /** A C DWORD computation: the exact value reduced modulo 2^32. */
  function Wrap(x: int): Word {
    x % 0x1_0000_0000
  }

  /** Reducing an intermediate result changes nothing. */
  lemma WrapAdd(x: int, k: int)
    ensures Wrap(Wrap(x) + k) == Wrap(x + k)
  {
  }

  lemma WrapWord(x: Word)
    ensures Wrap(x) == x
  {
  }

  /** The value a DWORD has when it is read as a C int. */
  function Signed(x: Word): int {
    if x < TWO31 then x else x - TWO32
  }

  function Pow2(k: nat): (p: nat)
    ensures p > 0
  {
    if k == 0 then 1 else 2 * Pow2(k - 1)
  }

  // ---------------------------------------------------------------------------
  // Arithmetic
  // ---------------------------------------------------------------------------

  /** Quotient and remainder are determined by the division equation. */
  lemma DivModUnique(a: nat, d: nat, q: nat, r: nat)
    requires a == d * q + r && r < d
    ensures a / d == q && a % d == r
  {
    var q', r' := a / d, a % d;
    assert d * q' + r' == d * q + r;
    if q' > q {
      MulMono(d, q + 1, q');
    } else if q' < q {
      MulMono(d, q' + 1, q);
    }
  }

  lemma MulMono(d: nat, x: nat, y: nat)
    requires x <= y
    ensures d * x <= d * y
  {
  }

  lemma ModDouble(a: nat, p: nat)
    requires p > 0
    ensures a % (2 * p) == 2 * (a / 2 % p) + a % 2
  {
    var q, r := a / 2 / p, a / 2 % p;
    assert a == 2 * (p * q + r) + a % 2;
    assert a == (2 * p) * q + (2 * r + a % 2);
    DivModUnique(a, 2 * p, q, 2 * r + a % 2);
  }

  // ---------------------------------------------------------------------------
  // Bits and integers
  // ---------------------------------------------------------------------------

  function Nat(x: bv32): nat {
    if x == 0 then 0 else 2 * Nat(Down(x)) + if Odd(x) then 1 else 0
  }

  function ToBits(n: nat): bv32 {
    if n == 0 then 0 else Up(ToBits(n / 2), n % 2 == 1)
  }

  function ToInt(x: bv32): (w: Word)
    ensures w == Nat(x)
  {
    NatBound(x);
    Nat(x)
  }

  lemma NatUnfold(x: bv32)
    ensures Nat(x) == 2 * Nat(Down(x)) + if Odd(x) then 1 else 0
  {
    DownZero();
  }

  lemma {:induction false} NatZero(x: bv32)
    requires Nat(x) == 0
    ensures x == 0
  {
    if x != 0 {
      if Down(x) == 0 {
        One(x);
      } else {
        NatZero(Down(x));
      }
    }
  }

  lemma NatPos(x: bv32)
    requires x != 0
    ensures Nat(x) > 0
  {
    hide *;
    if Nat(x) == 0 {
      NatZero(x);
    }
  }

  lemma NatOfZero()
    ensures Nat(0) == 0 && ToBits(0) == 0
  {
  }

  /** Masking with k low ones is reduction modulo 2^k. */
  lemma {:induction false} MeetMod(x: bv32, m: bv32, k: nat)
    requires Nat(m) + 1 == Pow2(k)
    ensures Nat(Meet(x, m)) == Nat(x) % Pow2(k)
    decreases k
  {
    if k == 0 {
      MeetModZero(x, m);
    } else {
      hide *;
      MaskHalf(m, k);
      MeetMod(Down(x), Down(m), k - 1);
      MaskStep(x, m, Pow2(k - 1));
      assert Pow2(k) == 2 * Pow2(k - 1) by {
        PowDouble(k);
      }
    }
  }

  lemma PowDouble(k: nat)
    requires k > 0
    ensures Pow2(k) == 2 * Pow2(k - 1)
  {
  }

  lemma MeetModZero(x: bv32, m: bv32)
    requires Nat(m) == 0
    ensures Nat(Meet(x, m)) == 0
  {
    hide *;
    NatZero(m);
    MeetZero(x);
  }

  lemma MaskHalf(m: bv32, k: nat)
    requires k > 0 && Nat(m) + 1 == Pow2(k)
    ensures Odd(m) && Nat(Down(m)) + 1 == Pow2(k - 1)
  {
    hide *;
    NatUnfold(m);
    PowDouble(k);
  }

  lemma MaskStep(x: bv32, m: bv32, p: nat)
    requires p > 0 && Odd(m) && Nat(Meet(Down(x), Down(m))) == Nat(Down(x)) % p
    ensures Nat(Meet(x, m)) == Nat(x) % (2 * p)
  {
    hide *;
    NatUnfold(x);
    NatUnfold(Meet(x, m));
    DownMeet(x, m);
    OddMeet(x, m);
    ModDouble(Nat(x), p);
  }

  /** Disjoint bit patterns add. */
  lemma {:induction false} JoinAdd(x: bv32, y: bv32)
    requires Meet(x, y) == 0
    ensures Nat(Join(x, y)) == Nat(x) + Nat(y)
    decreases Nat(x)
  {
    hide *;
    NatOfZero();
    if x == 0 {
      JoinZero(y);
    } else {
      NatPos(x);
      NatUnfold(x);
      DownMeet(x, y);
      DownZero();
      JoinAdd(Down(x), Down(y));
      JoinStep(x, y);
    }
  }

  lemma JoinStep(x: bv32, y: bv32)
    requires Meet(x, y) == 0
    requires Nat(Join(Down(x), Down(y))) == Nat(Down(x)) + Nat(Down(y))
    ensures Nat(Join(x, y)) == Nat(x) + Nat(y)
  {
    hide *;
    NatUnfold(x);
    NatUnfold(y);
    NatUnfold(Join(x, y));
    DownJoin(x, y);
    OddJoin(x, y);
    OddMeet(x, y);
    DownZero();
  }

  lemma WidenMask(m: bv32, m': bv32, k: nat)
    requires Nat(m) + 1 == Pow2(k) && Down(m') == m && Odd(m')
    ensures Nat(m') + 1 == Pow2(k + 1)
  {
    hide *;
    NatUnfold(m');
    PowDouble(k + 1);
  }

  lemma Masks8()
    ensures Nat(0xf) == 0xf && Pow2(4) == 0x10
    ensures Nat(0x1f) == 0x1f && Pow2(5) == 0x20
    ensures Nat(0xff) == 0xff && Pow2(8) == 0x100
  {
    WidenMask(0, 0x1, 0);
    WidenMask(0x1, 0x3, 1);
    WidenMask(0x3, 0x7, 2);
    WidenMask(0x7, 0xf, 3);
    WidenMask(0xf, 0x1f, 4);
    WidenMask(0x1f, 0x3f, 5);
    WidenMask(0x3f, 0x7f, 6);
    WidenMask(0x7f, 0xff, 7);
  }

  lemma Masks16()
    ensures Nat(0xfff) == 0xfff && Pow2(12) == 0x1000
    ensures Nat(0xffff) == 0xffff && Pow2(16) == 0x1_0000
  {
    Masks8();
    WidenMask(0xff, 0x1ff, 8);
    WidenMask(0x1ff, 0x3ff, 9);
    WidenMask(0x3ff, 0x7ff, 10);
    WidenMask(0x7ff, 0xfff, 11);
    WidenMask(0xfff, 0x1fff, 12);
    WidenMask(0x1fff, 0x3fff, 13);
    WidenMask(0x3fff, 0x7fff, 14);
    WidenMask(0x7fff, 0xffff, 15);
  }

  lemma Masks24()
    ensures Nat(0xff_ffff) == 0xff_ffff && Pow2(24) == 0x100_0000
  {
    Masks16();
    WidenMask(0xffff, 0x1_ffff, 16);
    WidenMask(0x1_ffff, 0x3_ffff, 17);
    WidenMask(0x3_ffff, 0x7_ffff, 18);
    WidenMask(0x7_ffff, 0xf_ffff, 19);
    WidenMask(0xf_ffff, 0x1f_ffff, 20);
    WidenMask(0x1f_ffff, 0x3f_ffff, 21);
    WidenMask(0x3f_ffff, 0x7f_ffff, 22);
    WidenMask(0x7f_ffff, 0xff_ffff, 23);
  }

  lemma Masks32()
    ensures Nat(0x7fff_ffff) == 0x7fff_ffff && Pow2(31) == 0x8000_0000
    ensures Nat(0xffff_ffff) == 0xffff_ffff && Pow2(32) == 0x1_0000_0000
  {
    Masks24();
    WidenMask(0xff_ffff, 0x1ff_ffff, 24);
    WidenMask(0x1ff_ffff, 0x3ff_ffff, 25);
    WidenMask(0x3ff_ffff, 0x7ff_ffff, 26);
    WidenMask(0x7ff_ffff, 0xfff_ffff, 27);
    WidenMask(0xfff_ffff, 0x1fff_ffff, 28);
    WidenMask(0x1fff_ffff, 0x3fff_ffff, 29);
    WidenMask(0x3fff_ffff, 0x7fff_ffff, 30);
    WidenMask(0x7fff_ffff, 0xffff_ffff, 31);
  }

  lemma NatBound(x: bv32)
    ensures Nat(x) < 0x1_0000_0000
  {
    hide *;
    Masks32();
    MeetMod(x, 0xffff_ffff, 32);
    AllOnes(x);
  }

  lemma NatTop()
    ensures Nat(0x8000_0000) == 0x8000_0000
  {
    hide *;
    TopOnes();
    JoinAdd(0x8000_0000, 0x7fff_ffff);
    Masks32();
  }

  lemma LowPart(x: bv32)
    ensures Nat(Meet(x, 0x7fff_ffff)) < 0x8000_0000
  {
    hide *;
    Masks32();
    MeetMod(x, 0x7fff_ffff, 31);
  }

  /** The top bit is worth 2^31. */
  lemma TopBit(x: bv32)
    ensures Meet(x, 0x8000_0000) == 0 <==> Nat(x) < 0x8000_0000
  {
    hide *;
    SplitTop(x);
    TopDisjoint(x);
    JoinAdd(Meet(x, 0x7fff_ffff), Meet(x, 0x8000_0000));
    LowPart(x);
    TopIs(x);
    NatTop();
    NatOfZero();
  }

  lemma ToBitsUnfold(n: nat)
    requires n > 0
    ensures ToBits(n) == Up(ToBits(n / 2), n % 2 == 1)
  {
  }

  /** Reading a word as an integer and writing it back is the identity. */
  lemma {:induction false} ToBitsToInt(x: bv32)
    ensures ToBits(Nat(x)) == x
    decreases Nat(x)
  {
    hide *;
    NatOfZero();
    if x != 0 {
      NatPos(x);
      NatUnfold(x);
      UpDown(x);
      ToBitsUnfold(Nat(x));
      ToBitsToInt(Down(x));
    }
  }

  /** Writing an integer below 2^32 as bits and reading it back is the identity. */
  lemma {:induction false} ToIntToBits(n: nat)
    requires n < 0x1_0000_0000
    ensures Nat(ToBits(n)) == n
  {
    hide *;
    NatOfZero();
    if n != 0 {
      var x := ToBits(n / 2);
      ToBitsUnfold(n);
      ToIntToBits(n / 2);
      TopBit(x);
      DownUp(x, n % 2 == 1);
      OddUp(x, n % 2 == 1);
      NatUnfold(ToBits(n));
    }
  }

  // The same fact on the operator itself.

  lemma MaskMod(x: bv32, m: bv32, k: nat)
    requires Nat(m) + 1 == Pow2(k)
    ensures Nat(x & m) == Nat(x) % Pow2(k)
  {
    MeetMod(x, m, k);
  }
}
