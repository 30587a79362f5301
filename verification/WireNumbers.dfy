/** What the encodings of module Codec mean as numbers: zigzag codes of signed integers, the digits of varints and their
    length. Numbers are those of module Numbers, so that nothing here is stated through an encoder or a decoder. */
module WireNumbers {
  import opened FlatMemory
  import opened Numbers
  import opened Codec
  import opened TypedBytes

  // ---- signed integers ----

  /** The two's-complement value of a 32-bit and of a 64-bit word. */
  function Signed32(v: bv32): int
  {
    if v & 0x8000_0000 != 0 then Num(Wide(v)) - 0x1_0000_0000 else Num(Wide(v))
  }

  function Signed64(v: bv64): int
  {
    if v & 0x8000_0000_0000_0000 != 0 then Num(v) - 0x1_0000_0000_0000_0000 else Num(v)
  }

  /** 0, -1, 1, -2, ... are numbered 0, 1, 2, 3, ... */
  function ZigzagCode(n: int): nat { if n >= 0 then 2 * n else -2 * n - 1 }

  function Not32(v: bv32): bv64 { Wide(Flip(v)) }

  function Not64(v: bv64): bv64 { !v }

  lemma Positive32(v: bv32)
    requires v & 0x8000_0000 == 0
    ensures Wide(Zigzag32(v)) == Shl1(Wide(v)) && TopClear(Wide(v))
  {
  }

  lemma Negated32(v: bv32)
    requires v & 0x8000_0000 != 0
    ensures Wide(Zigzag32(v)) == Or(Shl1(Not32(v)), 1) && TopClear(Not32(v))
  {
    hide Zigzag32, Wide, Or, Shl1, TopClear, OddOf;
    NegatedIsOdd(v);
    WideOdd(Flip(v));
  }

  function Flip(v: bv32): bv32 { !v }

  function OddOf(u: bv32): bv32 { (u << 1) | 1 }

  lemma NegatedIsOdd(v: bv32)
    requires v & 0x8000_0000 != 0
    ensures Zigzag32(v) == OddOf(Flip(v)) && Flip(v) & 0x8000_0000 == 0
  {
  }

  lemma WideOdd(u: bv32)
    requires u & 0x8000_0000 == 0
    ensures Wide(OddOf(u)) == Or(Shl1(Wide(u)), 1) && TopClear(Wide(u))
  {
  }

  lemma Complement32(v: bv32)
    ensures Or(Wide(v), Not32(v)) == 0xffff_ffff && And(Wide(v), Not32(v)) == 0
  {
  }

  lemma EvenApart(v: bv64)
    ensures And(Shl1(v), 1) == 0
  {
  }

  /** An odd number from half of it. */
  lemma NumOdd(v: bv64)
    requires TopClear(v)
    ensures Num(Or(Shl1(v), 1)) == 2 * Num(v) + 1
  {
    hide Num, Or, And, Shl1, TopClear;
    EvenApart(v);
    NumAdd(Shl1(v), 1);
    NumDouble(v);
    NumOne();
  }

  /** EncodeZigzag32 gives the code of the signed value, whatever it is. */
  lemma {:induction false} Zigzag32Number(v: bv32)
    ensures Num(Wide(Zigzag32(v))) == ZigzagCode(Signed32(v))
  {
    hide Num, Or, And, Shl1, TopClear, Zigzag32, Wide, Not32;
    if v & 0x8000_0000 == 0 {
      Positive32(v);
      NumDouble(Wide(v));
    } else {
      Negated32(v);
      NumOdd(Not32(v));
      Complement32(v);
      NumAdd(Wide(v), Not32(v));
      NumOnes32();
    }
  }

  lemma Positive64(v: bv64)
    requires v & 0x8000_0000_0000_0000 == 0
    ensures Zigzag64(v) == Shl1(v) && TopClear(v)
  {
  }

  lemma Negated64(v: bv64)
    requires v & 0x8000_0000_0000_0000 != 0
    ensures Zigzag64(v) == Or(Shl1(Not64(v)), 1) && TopClear(Not64(v))
  {
  }

  lemma Complement64(v: bv64)
    ensures Or(v, Not64(v)) == 0xffff_ffff_ffff_ffff && And(v, Not64(v)) == 0
  {
  }

  lemma {:induction false} Zigzag64Number(v: bv64)
    ensures Num(Zigzag64(v)) == ZigzagCode(Signed64(v))
  {
    hide Num, Or, And, Shl1, TopClear, Zigzag64, Not64;
    if v & 0x8000_0000_0000_0000 == 0 {
      Positive64(v);
      NumDouble(v);
    } else {
      Negated64(v);
      NumOdd(Not64(v));
      Complement64(v);
      NumAdd(v, Not64(v));
      NumOnes64();
    }
  }

  /** The decoders take every code back to its signed value. */
  lemma {:induction false} UnzigzagNumber(u: bv32, w: bv64)
    ensures ZigzagCode(Signed32(Unzigzag32(u))) == Num(Wide(u))
    ensures ZigzagCode(Signed64(Unzigzag64(w))) == Num(w)
  {
    hide Num, Zigzag32, Zigzag64, Unzigzag32, Unzigzag64, Wide, Signed32, Signed64, ZigzagCode;
    Zigzag32Bijective(u);
    Zigzag64Bijective(w);
    Zigzag32Number(Unzigzag32(u));
    Zigzag64Number(Unzigzag64(w));
  }

  // ---- varints ----

  /** The base-128 digit of a byte, and whether another byte follows it. */
  function Group(b: Byte): nat { Num((b & 0x7f) as bv64) }

  predicate Continues(b: Byte) { b & 0x80 != 0 }

  /** The number whose base-128 digits, the lowest first, are those of the bytes. */
  function DigitSum(s: seq<Byte>): nat { if s == [] then 0 else Group(s[0]) + 128 * DigitSum(s[1..]) }

  /** Every byte but the last announces another one. */
  predicate Framed(s: seq<Byte>)
  {
    s != [] && if |s| == 1 then !Continues(s[0]) else Continues(s[0]) && Framed(s[1..])
  }

  lemma LowerGroup(v: bv64)
    ensures v == Or(Low7(v), Shl7(Shr7(v))) && And(Low7(v), Shl7(Shr7(v))) == 0 && Shr7(v) < 0x200_0000_0000_0000
  {
  }

  /** A number is its lowest group plus 128 times the rest. */
  lemma NumGroups(v: bv64)
    ensures Num(v) == Num(Low7(v)) + 128 * Num(Shr7(v))
  {
    hide Num, Or, And, Low7, Shl7, Shr7;
    LowerGroup(v);
    NumAdd(Low7(v), Shl7(Shr7(v)));
    NumShl7(Shr7(v));
  }

  lemma MoreByteMeans(v: bv64)
    ensures (MoreByte(v) & 0x7f) as bv64 == Low7(v) && MoreByte(v) & 0x80 != 0
  {
  }

  lemma LastByteMeans(v: bv64)
    requires v < 0x80
    ensures (LastByte(v) & 0x7f) as bv64 == v && LastByte(v) & 0x80 == 0
  {
  }

  /** A varint has the base-128 digits of its value, and only its last byte lacks the mark that more follow. */
  lemma {:induction false} VarintDigits(v: bv64)
    ensures DigitSum(Varint(v)) == Num(v) && Framed(Varint(v))
    decreases |Varint(v)|
  {
    hide Num, MoreByte, LastByte, Shr7, Low7;
    if v < 0x80 {
      LastByteMeans(v);
    } else {
      MoreByteMeans(v);
      NumGroups(v);
      VarintDigits(Shr7(v));
      var s := Varint(v);
      assert s[1..] == Varint(Shr7(v));
    }
  }

  lemma SevenBits(v: bv64)
    ensures Shr1(Shr1(Shr1(Shr1(Shr1(Shr1(Shr1(Low7(v)))))))) == 0
  {
  }

  lemma GroupBits(v: bv64)
    ensures Bits(Low7(v)) <= 7
  {
    SevenBits(v);
    hide Shr1, Low7;
    OfZero();
    var a := Low7(v); var b := Shr1(a); var c := Shr1(b); var d := Shr1(c); var e := Shr1(d); var f := Shr1(e); var g := Shr1(f);
    BitsStep(a); BitsStep(b); BitsStep(c); BitsStep(d); BitsStep(e); BitsStep(f); BitsStep(g);
  }

  lemma BitsStep(v: bv64)
    ensures Bits(v) <= 1 + Bits(Shr1(v))
  {
  }

  /** 128 to the power k. */
  function Pow128(k: nat): nat { if k == 0 then 1 else 128 * Pow128(k - 1) }

  lemma GroupBound(v: bv64)
    ensures Num(Low7(v)) < 128
  {
    hide Num, Low7, Bits;
    GroupBits(v);
    NumBound(Low7(v), 7);
    assert Pow2(7) == 128;
  }

  /** v fits in k groups exactly when its number has at most k base-128 digits. */
  lemma {:induction false} FitsNumber(v: bv64, k: nat)
    ensures Fits(v, k) <==> Num(v) < Pow128(k)
    decreases k
  {
    hide Num, Shr7, Low7;
    if k == 0 {
      NumIsZero(v);
    } else {
      FitsNumber(Shr7(v), k - 1);
      NumGroups(v);
      GroupBound(v);
    }
  }

  /** The length of a varint, from its number. */
  lemma {:induction false} VarintNumberLength(v: bv64, k: nat)
    requires k >= 1
    ensures |Varint(v)| <= k <==> Num(v) < Pow128(k)
  {
    hide Varint, Fits, Num;
    VarintLength(v, k);
    FitsNumber(v, k);
  }

  /** The zigzag varint of a signed number n has at most k bytes exactly when -2^(7k-1) <= n < 2^(7k-1), which is half of
      128^k on either side. */
  lemma {:induction false} SignedLength(v: bv32, w: bv64, k: nat)
    requires k >= 1
    ensures |Varint(Wide(Zigzag32(v)))| <= k <==> -64 * Pow128(k - 1) <= Signed32(v) < 64 * Pow128(k - 1)
    ensures |Varint(Zigzag64(w))| <= k <==> -64 * Pow128(k - 1) <= Signed64(w) < 64 * Pow128(k - 1)
  {
    hide Varint, Num, Zigzag32, Zigzag64, Wide, Signed32, Signed64;
    VarintNumberLength(Wide(Zigzag32(v)), k);
    VarintNumberLength(Zigzag64(w), k);
    Zigzag32Number(v);
    Zigzag64Number(w);
  }

  // ---- what the readers make of any bytes ----

  lemma ContinuesMeans(b: Byte)
    ensures Continues(b) <==> b >= 0x80
  {
  }

  /** The reader stops at the first byte that announces no other, or after n groups, and fails exactly when the bytes run
      out before that. */
  lemma {:induction false} ReadFraming(d: seq<Byte>, p: nat, g: nat, n: nat, acc: bv64)
    requires g < n <= 10 && p <= |d|
    ensures var r := ReadVarint(d, p, g, n, acc);
            && (r.None? <==> |d| - p < n - g && forall j :: p <= j < |d| ==> Continues(d[j]))
            && (r.Some? ==> var q := r.value.1;
                  && p < q <= |d| && q - p <= n - g && (forall j :: p <= j < q - 1 ==> Continues(d[j]))
                  && (!Continues(d[q - 1]) || q - p == n - g))
    decreases n - g
  {
    hide OrGroup, Continues;
    if p < |d| {
      ContinuesMeans(d[p]);
      if d[p] >= 0x80 && g + 1 < n { ReadFraming(d, p + 1, g + 1, n, OrGroup(acc, d[p], g)); }
    }
  }

  lemma Apart0(acc: bv64, x: bv64)
    requires acc < 0x1 && x < 0x80
    ensures And(acc, x) == 0
  {
  }

  lemma Apart1(acc: bv64, x: bv64)
    requires acc < 0x80 && x < 0x80
    ensures And(acc, x << 7) == 0
  {
  }

  lemma Apart2(acc: bv64, x: bv64)
    requires acc < 0x4000 && x < 0x80
    ensures And(acc, x << 14) == 0
  {
  }

  lemma Apart3(acc: bv64, x: bv64)
    requires acc < 0x200000 && x < 0x80
    ensures And(acc, x << 21) == 0
  {
  }

  lemma Apart4(acc: bv64, x: bv64)
    requires acc < 0x10000000 && x < 0x80
    ensures And(acc, x << 28) == 0
  {
  }

  lemma Apart5(acc: bv64, x: bv64)
    requires acc < 0x800000000 && x < 0x80
    ensures And(acc, x << 35) == 0
  {
  }

  lemma Apart6(acc: bv64, x: bv64)
    requires acc < 0x40000000000 && x < 0x80
    ensures And(acc, x << 42) == 0
  {
  }

  lemma Apart7(acc: bv64, x: bv64)
    requires acc < 0x2000000000000 && x < 0x80
    ensures And(acc, x << 49) == 0
  {
  }

  lemma Apart8(acc: bv64, x: bv64)
    requires acc < 0x100000000000000 && x < 0x80
    ensures And(acc, x << 56) == 0
  {
  }

  /** Group g does not touch what fits in g groups. */
  lemma PlaceApart(acc: bv64, x: bv64, g: nat)
    requires g <= 8 && Below(acc, g) && x < 0x80
    ensures And(acc, Place(x, g)) == 0
  {
    hide And;
    if g == 0 { Apart0(acc, x); }
    else if g == 1 { Apart1(acc, x); }
    else if g == 2 { Apart2(acc, x); }
    else if g == 3 { Apart3(acc, x); }
    else if g == 4 { Apart4(acc, x); }
    else if g == 5 { Apart5(acc, x); }
    else if g == 6 { Apart6(acc, x); }
    else if g == 7 { Apart7(acc, x); }
    else { Apart8(acc, x); }
  }

  lemma Next0(x: bv64)
    requires x < 0x80
    ensures x << 7 == Shl7(x) && x < 0x200_0000_0000_0000
  {
  }

  lemma Next1(x: bv64)
    requires x < 0x80
    ensures x << 14 == Shl7(x << 7) && x << 7 < 0x200_0000_0000_0000
  {
  }

  lemma Next2(x: bv64)
    requires x < 0x80
    ensures x << 21 == Shl7(x << 14) && x << 14 < 0x200_0000_0000_0000
  {
  }

  lemma Next3(x: bv64)
    requires x < 0x80
    ensures x << 28 == Shl7(x << 21) && x << 21 < 0x200_0000_0000_0000
  {
  }

  lemma Next4(x: bv64)
    requires x < 0x80
    ensures x << 35 == Shl7(x << 28) && x << 28 < 0x200_0000_0000_0000
  {
  }

  lemma Next5(x: bv64)
    requires x < 0x80
    ensures x << 42 == Shl7(x << 35) && x << 35 < 0x200_0000_0000_0000
  {
  }

  lemma Next6(x: bv64)
    requires x < 0x80
    ensures x << 49 == Shl7(x << 42) && x << 42 < 0x200_0000_0000_0000
  {
  }

  lemma Next7(x: bv64)
    requires x < 0x80
    ensures x << 56 == Shl7(x << 49) && x << 49 < 0x200_0000_0000_0000
  {
  }

  lemma PlaceNext(x: bv64, g: nat)
    requires g <= 7 && x < 0x80
    ensures Place(x, g + 1) == Shl7(Place(x, g)) && Place(x, g) < 0x200_0000_0000_0000
  {
    hide Shl7;
    if g == 0 { Next0(x); }
    else if g == 1 { Next1(x); }
    else if g == 2 { Next2(x); }
    else if g == 3 { Next3(x); }
    else if g == 4 { Next4(x); }
    else if g == 5 { Next5(x); }
    else if g == 6 { Next6(x); }
    else { Next7(x); }
  }

  lemma PlaceFirst(x: bv64)
    ensures Place(x, 0) == x
  {
  }

  lemma {:induction false} NumPlace(x: bv64, g: nat)
    requires g <= 8 && x < 0x80
    ensures Num(Place(x, g)) == Pow128(g) * Num(x)
    decreases g
  {
    hide Num, Place, Shl7;
    if g == 0 {
      PlaceFirst(x);
    } else {
      NumPlace(x, g - 1);
      PlaceNext(x, g - 1);
      NumShl7(Place(x, g - 1));
      Reassociate(128, Pow128(g - 1), Num(x));
    }
  }

  lemma Reassociate(a: nat, b: nat, c: nat)
    ensures a * (b * c) == a * b * c
  {
  }

  /** One more group adds its digit at its place. */
  lemma NumOrGroup(acc: bv64, b: Byte, g: nat)
    requires g <= 8 && Fits(acc, g)
    ensures Num(OrGroup(acc, b, g)) == Num(acc) + Pow128(g) * Group(b)
  {
    hide Num, Or, And, Place, Fits, Below;
    FitsIsBelow(acc, g);
    PayloadSmall(b);
    PlaceApart(acc, Payload(b), g);
    NumAdd(acc, Place(Payload(b), g));
    NumPlace(Payload(b), g);
  }

  lemma Distribute(p: nat, a: nat, b: nat)
    ensures p * (a + 128 * b) == p * a + 128 * p * b
  {
  }

  /** Up to nine bytes, whatever they are, the reader's value is the number with their base-128 digits. */
  lemma {:induction false} ReadNumber(d: seq<Byte>, p: nat, g: nat, n: nat, acc: bv64)
    requires g < n <= 10 && p <= |d| && Fits(acc, g) && ReadVarint(d, p, g, n, acc).Some?
    requires g + (ReadVarint(d, p, g, n, acc).value.1 - p) <= 9
    ensures var (v, q) := ReadVarint(d, p, g, n, acc).value; q <= |d| && Num(v) == Num(acc) + Pow128(g) * DigitSum(d[p..q])
    decreases n - g
  {
    hide Num, OrGroup, Group, Fits;
    ReadFraming(d, p, g, n, acc);
    var (v, q) := ReadVarint(d, p, g, n, acc).value;
    var next := OrGroup(acc, d[p], g);
    NumOrGroup(acc, d[p], g);
    FitsOr(acc, d[p], g);
    assert d[p..q][0] == d[p] && d[p..q][1..] == d[p + 1..q];
    Distribute(Pow128(g), Group(d[p]), DigitSum(d[p + 1..q]));
    if d[p] >= 0x80 {
      if g + 1 == n {
        assert d[p + 1..q] == [];
      } else {
        ReadNumber(d, p + 1, g + 1, n, next);
      }
    } else {
      assert d[p + 1..q] == [];
    }
  }

  lemma Halves64(v: bv64)
    ensures var h := Wide(High32(v)); var l := Wide(Low32(v)); var u := Shl8(Shl8(Shl8(Shl8(h))));
            && v == Or(l, u) && And(l, u) == 0
            && h < 0x100_0000_0000_0000 && Shl8(h) < 0x100_0000_0000_0000 && Shl8(Shl8(h)) < 0x100_0000_0000_0000
            && Shl8(Shl8(Shl8(h))) < 0x100_0000_0000_0000
  {
  }

  /** The lower half of a word is its number modulo 2^32. */
  lemma Low32Number(v: bv64)
    ensures Num(Wide(Low32(v))) == Num(v) % 0x1_0000_0000
  {
    Halves64(v);
    hide Num, Or, And, Shl8, Wide, Low32, High32;
    var h, l := Wide(High32(v)), Wide(Low32(v));
    NumShl8(h);
    NumShl8(Shl8(h));
    NumShl8(Shl8(Shl8(h)));
    NumShl8(Shl8(Shl8(Shl8(h))));
    NumAdd(l, Shl8(Shl8(Shl8(Shl8(h)))));
    Below32(Low32(v));
    Remainder(Num(v), Num(l), Num(h));
  }

  lemma Below32(v: bv32)
    ensures Num(Wide(v)) < 0x1_0000_0000
  {
    hide Num, Or, And, Wide, Not32;
    Complement32(v);
    NumAdd(Wide(v), Not32(v));
    NumOnes32();
  }

  lemma Remainder(n: nat, l: nat, h: nat)
    requires n == l + 0x1_0000_0000 * h && l < 0x1_0000_0000
    ensures n % 0x1_0000_0000 == l
  {
  }

  /** The bytes from p to q are one varint of at most n bytes. */
  predicate OneVarint(d: seq<Byte>, p: nat, q: nat, n: nat)
  {
    && p < q <= |d| && q - p <= n && (forall j :: p <= j < q - 1 ==> Continues(d[j]))
    && (!Continues(d[q - 1]) || q - p == n)
  }

  /** readUint32 on any bytes: it takes one varint of at most five bytes, modulo 2^32, and throws exactly when the bytes
      run out in the middle of one. */
  lemma ReadUint32Exact(d: seq<Byte>, p: nat)
    requires p <= |d|
    ensures var r := DecodeVar32(d, p);
            && (r.None? <==> |d| - p < 5 && forall j :: p <= j < |d| ==> Continues(d[j]))
            && (r.Some? ==> var (v, q) := r.value; OneVarint(d, p, q, 5) && Num(Wide(v)) == DigitSum(d[p..q]) % 0x1_0000_0000)
  {
    hide Num, ReadVarint, Low32, Wide, Fits, DigitSum;
    ReadFraming(d, p, 0, 5, 0);
    ZeroFits();
    var r := ReadVarint(d, p, 0, 5, 0);
    if r.Some? {
      ReadNumber(d, p, 0, 5, 0);
      Low32Number(r.value.0);
      OfZero();
    }
  }

  lemma ZeroFits()
    ensures Fits(0, 0)
  {
  }

  /** readUint64 on any bytes: one varint of at most ten bytes; up to nine its digits are the value. */
  lemma ReadUint64Exact(d: seq<Byte>, p: nat)
    requires p <= |d|
    ensures var r := DecodeVar64(d, p);
            && (r.None? <==> |d| - p < 10 && forall j :: p <= j < |d| ==> Continues(d[j]))
            && (r.Some? ==> var (v, q) := r.value; OneVarint(d, p, q, 10) && (q - p <= 9 ==> Num(v) == DigitSum(d[p..q])))
  {
    hide Num, ReadVarint, Fits, DigitSum;
    ReadFraming(d, p, 0, 10, 0);
    ZeroFits();
    var r := ReadVarint(d, p, 0, 10, 0);
    if r.Some? && r.value.1 - p <= 9 {
      ReadNumber(d, p, 0, 10, 0);
      OfZero();
    }
  }

  // ---- typed values ----

  /** What the typed writers put on the wire, as numbers: the varints of unsigned values and of zigzag codes. */
  lemma {:induction false} ItemDigits(u: bv32, v: bv64)
    ensures DigitSum(Encode(VarU32(u))) == Num(Wide(u)) && DigitSum(Encode(VarU64(v))) == Num(v)
    ensures DigitSum(Encode(VarS32(u))) == ZigzagCode(Signed32(u)) && DigitSum(Encode(VarS64(v))) == ZigzagCode(Signed64(v))
    ensures Framed(Encode(VarU32(u))) && Framed(Encode(VarU64(v))) && Framed(Encode(VarS32(u))) && Framed(Encode(VarS64(v)))
  {
    hide Varint, Num, Zigzag32, Zigzag64, Wide, Signed32, Signed64, ZigzagCode, DigitSum, Framed, Fixed16, Fixed32, Fixed64, Length16;
    VarintDigits(Wide(u));
    VarintDigits(v);
    VarintDigits(Wide(Zigzag32(u)));
    VarintDigits(Zigzag64(v));
    Zigzag32Number(u);
    Zigzag64Number(v);
  }

  function WideByte(b: Byte): bv64 { b as bv64 }

  lemma BitsOfByte(b: Byte)
    ensures var x0 := WideByte(b); var x1 := Shr1(x0); var x2 := Shr1(x1); var x3 := Shr1(x2);
            var x4 := Shr1(x3); var x5 := Shr1(x4); var x6 := Shr1(x5); var x7 := Shr1(x6);
            && Shr1(x7) == 0
            && (IsOdd(x0) <==> b & 0x01 != 0) && (IsOdd(x1) <==> b & 0x02 != 0) && (IsOdd(x2) <==> b & 0x04 != 0)
            && (IsOdd(x3) <==> b & 0x08 != 0) && (IsOdd(x4) <==> b & 0x10 != 0) && (IsOdd(x5) <==> b & 0x20 != 0)
            && (IsOdd(x6) <==> b & 0x40 != 0) && (IsOdd(x7) <==> b & 0x80 != 0)
  {
  }

  lemma ByteNumber(b: Byte)
    ensures ValueOf(b) == Num(WideByte(b))
  {
    BitsOfByte(b);
    hide Shr1, IsOdd, WideByte, Num;
    var x0 := WideByte(b); var x1 := Shr1(x0); var x2 := Shr1(x1); var x3 := Shr1(x2);
    var x4 := Shr1(x3); var x5 := Shr1(x4); var x6 := Shr1(x5); var x7 := Shr1(x6);
    NumStep(x0); NumStep(x1); NumStep(x2); NumStep(x3); NumStep(x4); NumStep(x5); NumStep(x6); NumStep(x7);
    OfZero();
  }

  /** A text travels after its length modulo 65536, as two bytes with the higher one first. */
  lemma TextOnWire(t: seq<Byte>)
    ensures var s := Encode(Text(t));
            && |s| == 2 + |t| && s[2..] == t
            && Num(WideByte(s[0])) * 256 + Num(WideByte(s[1])) == |t| % 65536
  {
    hide Num, Fixed16, Fixed32, Fixed64, Varint, Zigzag32, Zigzag64, WideByte, ValueOf, Length16;
    var f := Fixed16(Length16(|t|));
    LengthBytes(|t|);
    ByteNumber(f[0]);
    ByteNumber(f[1]);
    assert (f + t)[2..] == t;
  }

  lemma LengthBytes(n: nat)
    ensures var f := Fixed16(Length16(n)); |f| == 2 && ValueOf(f[0]) * 256 + ValueOf(f[1]) == n % 65536
  {
    hide ValueOf, ByteOf, Fixed16, Join16;
    JoinedBytes(ByteOf(n / 256 % 256), ByteOf(n % 256));
    ByteOfInverse(n / 256 % 256);
    ByteOfInverse(n % 256);
    Digits256(n);
  }

  lemma JoinedBytes(hi: Byte, lo: Byte)
    ensures Fixed16(Join16(hi, lo)) == [hi, lo]
  {
  }

  /** Fixed-width values travel as their bytes, the most significant first, and frames as their type and varints. */
  lemma FixedOnWire(a: bv8, b: bv16, c: bv32, d: bv64, n: bv32)
    ensures Encode(Int8(a)) == [a]
    ensures var s := Encode(Int16(b)); |s| == 2 && BigEndian16(s) == b
    ensures var s := Encode(Int32(c)); |s| == 4 && BigEndian32(s) == c
    ensures var s := Encode(Int64(d)); |s| == 8 && BigEndian32(s[..4]) == (d >> 32) as bv32
                                       && BigEndian32(s[4..]) == (d & 0xffff_ffff) as bv32
    ensures Encode(Request(c, n)) == [1] + Encode(VarU32(c)) + Encode(VarU32(n)) && Encode(Notify(n)) == [3] + Encode(VarU32(n))
  {
    hide Fixed16, Fixed32, Fixed64, Varint, Wide, BigEndian16, BigEndian32, Zigzag32, Zigzag64, Length16;
    FixedIsBigEndian(b, c, d);
  }
}
