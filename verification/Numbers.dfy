/** Bit-vectors as numbers: the value of a 64-bit word by its binary digits, and what shifting, masking and joining do to
    it. Nothing here refers to an encoding. */
module Numbers {

  predicate IsOdd(v: bv64) { v & 1 == 1 }

  function Shr1(v: bv64): bv64 { v >> 1 }

  function Shl1(v: bv64): bv64 { v << 1 }

  function And(a: bv64, b: bv64): bv64 { a & b }

  function Or(a: bv64, b: bv64): bv64 { a | b }

  predicate IsZero(v: bv64) { v == 0 }

  /** The highest bit is clear, so that shifting left loses nothing. */
  predicate TopClear(v: bv64) { v & 0x8000_0000_0000_0000 == 0 }

  lemma Shrinks(v: bv64)
    requires v != 0
    ensures Shr1(v) < v
  {
  }

  function Bit0(v: bv64): nat { if IsOdd(v) then 1 else 0 }

  /** The unsigned number v stands for: twice that of the upper bits plus the lowest one. */
  function Num(v: bv64): nat
    decreases v
  {
    if v == 0 then 0 else Shrinks(v); Bit0(v) + 2 * Num(Shr1(v))
  }

  /** The number of bits up to the highest one. */
  function Bits(v: bv64): nat
    decreases v
  {
    if v == 0 then 0 else Shrinks(v); 1 + Bits(Shr1(v))
  }

  lemma OfZero()
    ensures !IsOdd(0) && Shr1(0) == 0 && Num(0) == 0 && Bits(0) == 0
  {
  }

  lemma NumStep(v: bv64)
    ensures Num(v) == Bit0(v) + 2 * Num(Shr1(v))
  {
    OfZero();
  }

  // ---- joining ----

  lemma OddOr(a: bv64, b: bv64)
    ensures IsOdd(Or(a, b)) <==> IsOdd(a) || IsOdd(b)
  {
  }

  lemma OddAnd(a: bv64, b: bv64)
    ensures IsOdd(And(a, b)) <==> IsOdd(a) && IsOdd(b)
  {
  }

  lemma ShrOr(a: bv64, b: bv64)
    ensures Shr1(Or(a, b)) == Or(Shr1(a), Shr1(b))
  {
  }

  lemma ShrAnd(a: bv64, b: bv64)
    ensures Shr1(And(a, b)) == And(Shr1(a), Shr1(b))
  {
  }

  lemma ShrApart(a: bv64, b: bv64)
    requires And(a, b) == 0
    ensures And(Shr1(a), Shr1(b)) == 0
  {
    hide And, Shr1;
    ShrAnd(a, b);
    OfZero();
  }

  lemma BothZero(a: bv64, b: bv64)
    requires IsZero(Or(a, b))
    ensures Num(Or(a, b)) == Num(a) + Num(b)
  {
    assert a == 0 && b == 0;
  }

  lemma OrShrinks(a: bv64, b: bv64)
    requires !IsZero(Or(a, b))
    ensures Bits(Or(Shr1(a), Shr1(b))) < Bits(Or(a, b))
  {
    hide Or, Shr1;
    ShrOr(a, b);
  }

  lemma AddStep(a: bv64, b: bv64)
    requires And(a, b) == 0 && Num(Or(Shr1(a), Shr1(b))) == Num(Shr1(a)) + Num(Shr1(b))
    ensures Num(Or(a, b)) == Num(a) + Num(b)
  {
    hide IsOdd, Shr1, And, Or, Num;
    NumStep(a);
    NumStep(b);
    NumStep(Or(a, b));
    OddOr(a, b);
    OddAnd(a, b);
    ShrOr(a, b);
    OfZero();
  }

  /** Words without a common bit are joined by adding their numbers. */
  lemma {:induction false} NumAdd(a: bv64, b: bv64)
    requires And(a, b) == 0
    ensures Num(Or(a, b)) == Num(a) + Num(b)
    decreases Bits(Or(a, b))
  {
    hide Shr1, And, Or, Num, Bits, IsZero;
    if IsZero(Or(a, b)) {
      BothZero(a, b);
    } else {
      OrShrinks(a, b);
      ShrApart(a, b);
      NumAdd(Shr1(a), Shr1(b));
      AddStep(a, b);
    }
  }

  // ---- shifting ----

  lemma ShlShr(v: bv64)
    requires TopClear(v)
    ensures Shr1(Shl1(v)) == v && !IsOdd(Shl1(v))
  {
  }

  lemma NumDouble(v: bv64)
    requires TopClear(v)
    ensures Num(Shl1(v)) == 2 * Num(v)
  {
    hide Shl1, Shr1, IsOdd, TopClear, Num;
    ShlShr(v);
    NumStep(Shl1(v));
  }

  function Shl7(v: bv64): bv64 { v << 7 }

  function Shl8(v: bv64): bv64 { v << 8 }

  lemma SevenShifts(v: bv64)
    requires v < 0x200_0000_0000_0000
    ensures var v1 := Shl1(v); var v2 := Shl1(v1); var v3 := Shl1(v2); var v4 := Shl1(v3); var v5 := Shl1(v4); var v6 := Shl1(v5);
            && TopClear(v) && TopClear(v1) && TopClear(v2) && TopClear(v3) && TopClear(v4) && TopClear(v5) && TopClear(v6)
            && Shl1(v6) == Shl7(v)
  {
  }

  lemma NumShl7(v: bv64)
    requires v < 0x200_0000_0000_0000
    ensures Num(Shl7(v)) == 128 * Num(v)
  {
    SevenShifts(v);
    hide Shl1, Shl7, TopClear, Num;
    var v1 := Shl1(v); var v2 := Shl1(v1); var v3 := Shl1(v2); var v4 := Shl1(v3); var v5 := Shl1(v4); var v6 := Shl1(v5);
    NumDouble(v); NumDouble(v1); NumDouble(v2); NumDouble(v3); NumDouble(v4); NumDouble(v5); NumDouble(v6);
  }

  lemma EightShifts(v: bv64)
    requires v < 0x100_0000_0000_0000
    ensures Shl1(Shl7(v)) == Shl8(v) && TopClear(Shl7(v)) && v < 0x200_0000_0000_0000 && And(Shl8(v), 0xff) == 0
  {
  }

  lemma NumShl8(v: bv64)
    requires v < 0x100_0000_0000_0000
    ensures Num(Shl8(v)) == 256 * Num(v)
  {
    EightShifts(v);
    hide Shl1, Shl7, Shl8, TopClear, Num, And;
    NumShl7(v);
    NumDouble(Shl7(v));
  }

  lemma NumOne()
    ensures Num(1) == 1
  {
    OfZero();
  }

  // ---- words of ones ----

  lemma NumByte()
    ensures Num(0xff) == 255
  {
    NumStep(0xff); NumStep(0x7f); NumStep(0x3f); NumStep(0x1f); NumStep(0xf); NumStep(0x7); NumStep(0x3); NumStep(0x1);
    OfZero();
  }

  lemma OnesNext(v: bv64)
    requires v < 0x100_0000_0000_0000
    ensures Num(Or(Shl8(v), 0xff)) == 256 * Num(v) + 255
  {
    EightShifts(v);
    hide Shl8, Or, And, Num, Shl1, Shl7, TopClear;
    NumAdd(Shl8(v), 0xff);
    NumShl8(v);
    NumByte();
  }

  lemma OnesJoin()
    ensures Or(Shl8(0xff), 0xff) == 0xffff && Or(Shl8(0xffff), 0xff) == 0xff_ffff && Or(Shl8(0xff_ffff), 0xff) == 0xffff_ffff
    ensures Or(Shl8(0xffff_ffff), 0xff) == 0xff_ffff_ffff && Or(Shl8(0xff_ffff_ffff), 0xff) == 0xffff_ffff_ffff
    ensures Or(Shl8(0xffff_ffff_ffff), 0xff) == 0xff_ffff_ffff_ffff
    ensures Or(Shl8(0xff_ffff_ffff_ffff), 0xff) == 0xffff_ffff_ffff_ffff
  {
  }

  lemma NumOnes32()
    ensures Num(0xffff_ffff) == 0xffff_ffff
  {
    hide Num, Or, Shl8;
    OnesJoin();
    NumByte();
    OnesNext(0xff); OnesNext(0xffff); OnesNext(0xff_ffff);
  }

  lemma NumOnes64()
    ensures Num(0xffff_ffff_ffff_ffff) == 0xffff_ffff_ffff_ffff
  {
    hide Num, Or, Shl8;
    OnesJoin();
    NumOnes32();
    OnesNext(0xffff_ffff); OnesNext(0xff_ffff_ffff); OnesNext(0xffff_ffff_ffff); OnesNext(0xff_ffff_ffff_ffff);
  }

  // ---- size ----

  function Pow2(k: nat): nat { if k == 0 then 1 else 2 * Pow2(k - 1) }

  lemma {:induction false} NumBound(v: bv64, k: nat)
    requires Bits(v) <= k
    ensures Num(v) < Pow2(k)
    decreases k
  {
    hide Shr1, IsOdd;
    if k > 0 && v != 0 {
      NumBound(Shr1(v), k - 1);
    } else {
      OneAtLeast(k);
    }
  }

  lemma {:induction false} OneAtLeast(k: nat)
    ensures Pow2(k) >= 1
  {
    if k > 0 { OneAtLeast(k - 1); }
  }

  lemma {:induction false} NumIsZero(v: bv64)
    ensures Num(v) == 0 <==> v == 0
    decreases Bits(v)
  {
    hide Shr1, IsOdd;
    if v != 0 {
      NumIsZero(Shr1(v));
      EvenNotZero(v);
    }
  }

  lemma EvenNotZero(v: bv64)
    requires v != 0
    ensures IsOdd(v) || Shr1(v) != 0
  {
  }
}
