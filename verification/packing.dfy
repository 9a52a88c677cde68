/** The packing of a constant into an 8-bit value and a rotation, and its inverse in the decoder. */
module PackingProof {
  import opened Words
  import opened Machine
  import opened Asm
  import opened Encoder

  /** v after k rounds of the packing loop. */
  function RotL(v: bv32, k: nat): bv32
    decreases k
  {
    if k == 0 then v else RotL(RotateLeft2(v), k - 1)
  }

  lemma {:induction false} RotLLast(v: bv32, k: nat)
    requires k > 0
    ensures RotL(v, k) == RotateLeft2(RotL(v, k - 1))
    decreases k
  {
    hide RotateLeft2, RotateOnce, FitsByte;
    if k > 1 {
      RotLLast(RotateLeft2(v), k - 1);
    }
  }

  lemma {:induction false} RotateLast(v: bv32, k: nat)
    requires k > 0
    ensures RotateRight2(v, k) == RotateOnce(RotateRight2(v, k - 1))
    decreases k
  {
    hide RotateLeft2, RotateOnce, FitsByte;
    if k > 1 {
      RotateLast(RotateOnce(v), k - 1);
    }
  }

  lemma RotationsCancel(v: bv32)
    ensures RotateLeft2(RotateOnce(v)) == v && RotateOnce(RotateLeft2(v)) == v
  {
  }

  /** Rotating right undoes the rounds of the loop. */
  lemma {:induction false} RotLInverse(v: bv32, k: nat)
    ensures RotateRight2(RotL(v, k), k) == v
    decreases k
  {
    hide RotateLeft2, RotateOnce, FitsByte;
    if k > 0 {
      RotLLast(v, k);
      RotationsCancel(RotL(v, k - 1));
      RotLInverse(v, k - 1);
    }
  }

  /** The rounds of the loop undo a rotation to the right. */
  lemma {:induction false} RotLUndoes(b: bv32, k: nat)
    ensures RotL(RotateRight2(b, k), k) == b
    decreases k
  {
    hide RotateLeft2, RotateOnce, FitsByte;
    if k > 0 {
      RotateLast(b, k);
      RotationsCancel(RotateRight2(b, k - 1));
      RotLUndoes(b, k - 1);
    }
  }

  lemma Rotate8(v: bv32)
    ensures RotL(v, 4) == Swing(v)
  {
    hide RotateLeft2, Swing;
    var v1 := RotateLeft2(v);
    var v2 := RotateLeft2(v1);
    var v3 := RotateLeft2(v2);
    assert RotL(v, 4) == RotL(v1, 3) == RotL(v2, 2) == RotL(v3, 1);
    Compose4(v);
  }

  function Swing(v: bv32): bv32 {
    (v << 8) | (v >> 24)
  }

  lemma Compose4(v: bv32)
    ensures RotateLeft2(RotateLeft2(RotateLeft2(RotateLeft2(v)))) == Swing(v)
  {
  }

  lemma {:induction false} RotLAdd(v: bv32, j: nat, k: nat)
    ensures RotL(v, j + k) == RotL(RotL(v, j), k)
    decreases j
  {
    hide RotateLeft2;
    if j > 0 {
      RotLAdd(RotateLeft2(v), j - 1, k);
    }
  }

  lemma SwingRound(v: bv32)
    ensures Swing(Swing(Swing(Swing(v)))) == v
  {
  }

  lemma FullTurn(v: bv32)
    ensures RotL(v, 16) == v
  {
    hide *;
    RotLAdd(v, 4, 12);
    Rotate8(v);
    RotLAdd(Swing(v), 4, 8);
    Rotate8(Swing(v));
    RotLAdd(Swing(Swing(v)), 4, 4);
    Rotate8(Swing(Swing(v)));
    Rotate8(Swing(Swing(Swing(v))));
    SwingRound(v);
  }

  /** The loop stops after the least number of rounds that leaves at most eight bits, or after 16. */
  lemma {:induction false} PackFromIsLeast(v: bv32, c: nat)
    requires c <= 16
    ensures var q := PackFrom(Packing(v, c));
      && q.value == RotL(v, q.count - c)
      && (FitsByte(q.value) || q.count == 16)
      && (forall j :: 0 <= j < q.count - c ==> !FitsByte(RotL(v, j)))
    decreases 16 - c
  {
    hide RotateLeft2, RotateOnce, FitsByte;
    if !FitsByte(v) && c < 16 {
      PackFromIsLeast(RotateLeft2(v), c + 1);
      var q := PackFrom(Packing(v, c));
      forall j | 0 <= j < q.count - c
        ensures !FitsByte(RotL(v, j))
      {
        if j > 0 {
          assert RotL(v, j) == RotL(RotateLeft2(v), j - 1);
        }
      }
    }
  }

  lemma PackedIsRotated(v: bv32, q: Packing)
    requires q == PackFrom(Packing(v, 0))
    ensures FitsByte(q.value) ==> q.count < 16 && RotateRight2(q.value, q.count) == v
    ensures !FitsByte(q.value) ==> q.count == 16 && q.value == v
    ensures forall j :: 0 <= j < q.count ==> !FitsByte(RotL(v, j))
  {
    hide RotateLeft2, RotateOnce, FitsByte;
    PackFromIsLeast(v, 0);
    if q.count == 16 {
      FullTurn(v);
      assert RotL(v, 0) == v;
    } else {
      RotLInverse(v, q.count);
    }
  }

  /** v is an 8-bit value rotated right by an even amount. */
  ghost predicate IsRotatedByte(v: bv32) {
    exists b: bv32, k: nat :: FitsByte(b) && k < 16 && v == RotateRight2(b, k)
  }

  /**
   Packing succeeds exactly on the rotations of an 8-bit value by an even amount. It then uses the
   least rotation count; when it fails, the value has been rotated all the way round.
   */
  lemma PackingIsExact(v: bv32)
    ensures Packable(v) <==> IsRotatedByte(v)
    ensures var q := PackFrom(Packing(v, 0));
      && (Packable(v) ==> q.count < 16 && RotateRight2(q.value, q.count) == v)
      && (!Packable(v) ==> q.count == 16 && q.value == v)
      && (forall j :: 0 <= j < q.count ==> !FitsByte(RotL(v, j)))
  {
    hide RotateLeft2, RotateOnce, FitsByte;
    var q := PackFrom(Packing(v, 0));
    PackedIsRotated(v, q);
    if IsRotatedByte(v) {
      var b: bv32, k: nat :| FitsByte(b) && k < 16 && v == RotateRight2(b, k);
      RotLUndoes(b, k);
      assert q.count <= k;
    }
  }

  lemma SmallBits(k: nat)
    requires k < 16
    ensures ToBits(k) == (if k < 8 then Low3(k) else 8 | Low3(k - 8))
  {
    if k < 8 {
      Bits3(k);
    } else {
      Bits4(k);
    }
  }

  lemma Bits3(k: nat)
    requires k < 8
    ensures ToBits(k) == Low3(k)
  {
    assert ToBits(1) == 1;
    assert ToBits(2) == 2 && ToBits(3) == 3;
    assert ToBits(4) == 4 && ToBits(5) == 5 && ToBits(6) == 6 && ToBits(7) == 7;
  }

  lemma Bits4(k: nat)
    requires 8 <= k < 16
    ensures ToBits(k) == 8 | Low3(k - 8)
  {
    Bits3(k / 2);
    ToBitsUnfold(k);
    hide ToBits;
  }

  function Low3(k: nat): bv32 {
    if k == 0 then 0 else if k == 1 then 1 else if k == 2 then 2 else if k == 3 then 3
    else if k == 4 then 4 else if k == 5 then 5 else if k == 6 then 6 else 7
  }

  function CountField(w: bv32): int {
    (w & 0xf) as bv4 as int
  }

  predicate Within4(w: bv32) {
    w & 0xf == w
  }

  lemma SmallCount(k: nat)
    requires k < 16
    ensures Within4(ToBits(k)) && CountField(ToBits(k)) == k
  {
    hide ToBits;
    SmallBits(k);
  }

  lemma PackedNarrow(value: bv32, count: bv32)
    requires FitsByte(value) && Within4(count)
    ensures PackBits(value, count) & 0xfff == PackBits(value, count)
  {
  }

  lemma PackedValue(value: bv32, count: bv32)
    requires FitsByte(value) && Within4(count)
    ensures PackBits(value, count) & 0xff == value
  {
  }

  lemma PackedCount(value: bv32, count: bv32)
    requires FitsByte(value) && Within4(count)
    ensures Reg8(PackBits(value, count)) as int == CountField(count)
  {
  }

  lemma PackedDecodes(value: bv32, count: bv32)
    requires FitsByte(value) && Within4(count)
    ensures CalcImmediate(PackBits(value, count)) == RotateRight2(value, CountField(count))
  {
    hide RotateRight2, PackBits, CountField, Reg8, FitsByte;
    PackedValue(value, count);
    PackedCount(value, count);
  }

  /** A packed constant occupies the low twelve bits, and the decoder reads back its value. */
  lemma PackRoundTrip(magnitude: bv32, negative: bool)
    requires Packable(ImmValue(magnitude, negative))
    ensures var w := PackImmediate(magnitude, negative);
      w & 0xfff == w && CalcImmediate(w) == ImmValue(magnitude, negative)
  {
    hide PackFrom, PackBits, RotateRight2, FitsByte, CountField, ToBits, CalcImmediate, ImmValue;
    var v := ImmValue(magnitude, negative);
    var q := PackFrom(Packing(v, 0));
    PackedIsRotated(v, q);
    SmallCount(q.count);
    PackedNarrow(q.value, ToBits(q.count));
    PackedDecodes(q.value, ToBits(q.count));
  }
}
