/** The value encodings of bobliew/bytearray.cc as functions on byte strings: big-endian fixed-width
    integers, base-128 varints, zigzag. Integers are bit-vectors, so wrap-around is explicit. */
module Codec {
  import opened FlatMemory
  import opened Numbers

  datatype Option<+T> = None | Some(value: T)

  // ---- fixed width: byteswap, then the little-endian store of the host ----

  function Swap16(v: bv16): bv16 { (v << 8) | (v >> 8) }

  function Swap32(v: bv32): bv32
  {
    ((v & 0xff) << 24) | ((v & 0xff00) << 8) | ((v >> 8) & 0xff00) | (v >> 24)
  }

  function Low32(v: bv64): bv32 { (v & 0xffff_ffff) as bv32 }

  function Wide(v: bv32): bv64 { v as bv64 }

  function High32(v: bv64): bv32 { (v >> 32) as bv32 }

  function Join64(hi: bv32, lo: bv32): bv64 { ((hi as bv64) << 32) | (lo as bv64) }

  lemma Halves(hi: bv32, lo: bv32)
    ensures Low32(Join64(hi, lo)) == lo && High32(Join64(hi, lo)) == hi
  {
  }

  lemma Whole(v: bv64)
    ensures Join64(High32(v), Low32(v)) == v
  {
  }

  function Swap64(v: bv64): bv64 { Join64(Swap32(Low32(v)), Swap32(High32(v))) }

  function Low8(v: bv64): Byte { (v & 0xff) as Byte }

  function StoreLe16(v: bv16): seq<Byte> { [Low8(v as bv64), Low8((v as bv64) >> 8)] }

  function StoreLe32(v: bv32): seq<Byte>
  {
    [Low8(v as bv64), Low8((v as bv64) >> 8), Low8((v as bv64) >> 16), Low8((v as bv64) >> 24)]
  }

  function StoreLe64(v: bv64): seq<Byte> { StoreLe32(Low32(v)) + StoreLe32(High32(v)) }

  function LoadLe16(s: seq<Byte>): bv16
    requires |s| == 2
  {
    (s[0] as bv16) | ((s[1] as bv16) << 8)
  }

  function LoadLe32(s: seq<Byte>): bv32
    requires |s| == 4
  {
    (s[0] as bv32) | ((s[1] as bv32) << 8) | ((s[2] as bv32) << 16) | ((s[3] as bv32) << 24)
  }

  function LoadLe64(s: seq<Byte>): bv64
    requires |s| == 8
  {
    Join64(LoadLe32(s[4..]), LoadLe32(s[..4]))
  }

  /** What writeFuint16/32/64 put into the buffer, and what the readers make of those bytes. */
  function Fixed16(v: bv16): seq<Byte> { StoreLe16(Swap16(v)) }
  function Fixed32(v: bv32): seq<Byte> { StoreLe32(Swap32(v)) }
  function Fixed64(v: bv64): seq<Byte> { StoreLe64(Swap64(v)) }
  function Unfixed16(s: seq<Byte>): bv16 requires |s| == 2 { Swap16(LoadLe16(s)) }
  function Unfixed32(s: seq<Byte>): bv32 requires |s| == 4 { Swap32(LoadLe32(s)) }
  function Unfixed64(s: seq<Byte>): bv64 requires |s| == 8 { Swap64(LoadLe64(s)) }

  lemma Fixed16Inverse(v: bv16)
    ensures |Fixed16(v)| == 2 && Unfixed16(Fixed16(v)) == v
  {
  }

  lemma Fixed32Inverse(v: bv32)
    ensures |Fixed32(v)| == 4 && Unfixed32(Fixed32(v)) == v
  {
  }

  lemma Fixed64Halves(v: bv64)
    ensures Fixed64(v) == Fixed32(High32(v)) + Fixed32(Low32(v))
  {
    hide StoreLe32, Swap32, Low32, High32, Join64;
    Halves(Swap32(Low32(v)), Swap32(High32(v)));
  }

  lemma Unfixed64Halves(s: seq<Byte>)
    requires |s| == 8
    ensures Unfixed64(s) == Join64(Unfixed32(s[..4]), Unfixed32(s[4..]))
  {
    hide LoadLe32, Swap32, Low32, High32, Join64;
    Halves(LoadLe32(s[4..]), LoadLe32(s[..4]));
  }

  lemma Fixed64Inverse(v: bv64)
    ensures |Fixed64(v)| == 8 && Unfixed64(Fixed64(v)) == v
  {
    hide Fixed32, Unfixed32, Fixed64, Unfixed64, Low32, High32, Join64;
    Fixed64Halves(v);
    Fixed32Inverse(High32(v));
    Fixed32Inverse(Low32(v));
    var s := Fixed64(v);
    assert s[..4] == Fixed32(High32(v)) && s[4..] == Fixed32(Low32(v));
    Unfixed64Halves(s);
    Whole(v);
  }

  /** The word made of bytes with the most significant one first. */
  function BigEndian16(s: seq<Byte>): bv16
    requires |s| == 2
  {
    ((s[0] as bv16) << 8) | (s[1] as bv16)
  }

  function BigEndian32(s: seq<Byte>): bv32
    requires |s| == 4
  {
    ((s[0] as bv32) << 24) | ((s[1] as bv32) << 16) | ((s[2] as bv32) << 8) | (s[3] as bv32)
  }

  /** Fixed-width integers travel most significant byte first; a 64-bit one is its upper half, then its lower half. */
  lemma FixedIsBigEndian(v: bv16, w: bv32, x: bv64)
    ensures |Fixed16(v)| == 2 && BigEndian16(Fixed16(v)) == v
    ensures |Fixed32(w)| == 4 && BigEndian32(Fixed32(w)) == w
    ensures |Fixed64(x)| == 8 && BigEndian32(Fixed64(x)[..4]) == (x >> 32) as bv32
            && BigEndian32(Fixed64(x)[4..]) == (x & 0xffff_ffff) as bv32
  {
    hide Fixed16, Fixed32, Fixed64, BigEndian16, BigEndian32;
    Fixed16Bytes(v);
    Fixed32Bytes(w);
    Fixed32Bytes(High32(x));
    Fixed32Bytes(Low32(x));
    Fixed64Halves(x);
    var a, b := Fixed32(High32(x)), Fixed32(Low32(x));
    assert (a + b)[..4] == a && (a + b)[4..] == b;
  }

  lemma Fixed16Bytes(v: bv16)
    ensures |Fixed16(v)| == 2 && BigEndian16(Fixed16(v)) == v
  {
  }

  lemma Fixed32Bytes(v: bv32)
    ensures |Fixed32(v)| == 4 && BigEndian32(Fixed32(v)) == v
  {
  }

  // ---- zigzag ----

  function Negative32(v: bv32): bool { v & 0x8000_0000 != 0 }
  function Negative64(v: bv64): bool { v & 0x8000_0000_0000_0000 != 0 }
  function Zigzag32(v: bv32): bv32 { if Negative32(v) then (0 - v) * 2 - 1 else v * 2 }
  function Zigzag64(v: bv64): bv64 { if Negative64(v) then (0 - v) * 2 - 1 else v * 2 }
  function Unzigzag32(u: bv32): bv32 { (u >> 1) ^ (0 - (u & 1)) }
  function Unzigzag64(u: bv64): bv64 { (u >> 1) ^ (0 - (u & 1)) }

  /** Both widths: the shift/xor decoder and the wrapping encoder are inverse to each other. */
  lemma {:induction false} Zigzag32Bijective(v: bv32)
    ensures Unzigzag32(Zigzag32(v)) == v
    ensures Zigzag32(Unzigzag32(v)) == v
  {
    if Negative32(v) { Zigzag32OfNegative(v); } else { Zigzag32OfPositive(v); }
    if v & 1 == 0 { Unzigzag32OfEven(v); } else { Unzigzag32OfOdd(v); }
  }

  lemma {:induction false} Zigzag32OfNegative(v: bv32)
    requires Negative32(v)
    ensures Unzigzag32(Zigzag32(v)) == v
  {
  }

  lemma {:induction false} Zigzag32OfPositive(v: bv32)
    requires !Negative32(v)
    ensures Unzigzag32(Zigzag32(v)) == v
  {
  }

  lemma {:induction false} Unzigzag32OfEven(u: bv32)
    requires u & 1 == 0
    ensures Zigzag32(Unzigzag32(u)) == u
  {
  }

  lemma {:induction false} Unzigzag32OfOdd(u: bv32)
    requires u & 1 != 0
    ensures Zigzag32(Unzigzag32(u)) == u
  {
  }

  lemma {:induction false} Zigzag64Bijective(v: bv64)
    ensures Unzigzag64(Zigzag64(v)) == v
    ensures Zigzag64(Unzigzag64(v)) == v
  {
    if Negative64(v) { Zigzag64OfNegative(v); } else { Zigzag64OfPositive(v); }
    if v & 1 == 0 { Unzigzag64OfEven(v); } else { Unzigzag64OfOdd(v); }
  }

  lemma {:induction false} Zigzag64OfNegative(v: bv64)
    requires Negative64(v)
    ensures Unzigzag64(Zigzag64(v)) == v
  {
  }

  lemma {:induction false} Zigzag64OfPositive(v: bv64)
    requires !Negative64(v)
    ensures Unzigzag64(Zigzag64(v)) == v
  {
  }

  lemma {:induction false} Unzigzag64OfEven(u: bv64)
    requires u & 1 == 0
    ensures Zigzag64(Unzigzag64(u)) == u
  {
  }

  lemma {:induction false} Unzigzag64OfOdd(u: bv64)
    requires u & 1 != 0
    ensures Zigzag64(Unzigzag64(u)) == u
  {
  }

  // ---- varints ----

  function Shr7(v: bv64): bv64 { v >> 7 }

  /** The byte for the lowest group of v when more groups follow. */
  function MoreByte(v: bv64): Byte { ((v & 0x7f) | 0x80) as Byte }

  function LastByte(v: bv64): Byte
    requires v < 0x80
  {
    v as Byte
  }

  /** Seven bits per byte, least significant group first, top bit set on all bytes but the last. */
  function Varint(v: bv64): (s: seq<Byte>)
    ensures |s| >= 1
  {
    if v < 0x80 then [LastByte(v)] else [MoreByte(v)] + Varint(Shr7(v))
  }

  /** The seven value bits of a byte. */
  function Payload(b: Byte): bv64 { (b & 0x7f) as bv64 }

  function Low7(v: bv64): bv64 { v & 0x7f }

  /** x moved up to group g, that is x << 7 * g. */
  function Place(x: bv64, g: nat): bv64
    requires g < 10
  {
    if g == 0 then x else if g == 1 then x << 7 else if g == 2 then x << 14 else if g == 3 then x << 21
    else if g == 4 then x << 28 else if g == 5 then x << 35 else if g == 6 then x << 42
    else if g == 7 then x << 49 else if g == 8 then x << 56 else x << 63
  }

  /** The accumulator with the group carried by byte b or'ed in as group g. */
  function OrGroup(acc: bv64, b: Byte, g: nat): bv64
    requires g < 10
  {
    Or(acc, Place(Payload(b), g))
  }

  /** The reader's loop from group g on, over the bytes d[p..]: at most n groups; None when the bytes run out.
      Returns the value and the position after the last byte used. */
  function ReadVarint(d: seq<Byte>, p: nat, g: nat, n: nat, acc: bv64): (r: Option<(bv64, nat)>)
    requires g <= n <= 10
    ensures r.Some? ==> p <= r.value.1 <= p + n - g && (p <= |d| ==> r.value.1 <= |d|)
    decreases n - g
  {
    if g == n then Some((acc, p))
    else if p >= |d| then None
    else if d[p] < 0x80 then Some((OrGroup(acc, d[p], g), p + 1))
    else ReadVarint(d, p + 1, g + 1, n, OrGroup(acc, d[p], g))
  }

  lemma {:induction false} LastByteBits(v: bv64)
    requires v < 0x80
    ensures LastByte(v) < 0x80 && Payload(LastByte(v)) == v
  {
  }

  lemma {:induction false} MoreByteBits(v: bv64)
    ensures MoreByte(v) >= 0x80 && Payload(MoreByte(v)) == Low7(v)
  {
  }

  lemma {:induction false} OrAssociates(a: bv64, b: bv64, c: bv64)
    ensures Or(Or(a, b), c) == Or(a, Or(b, c))
  {
  }

  /** Group g of v and the groups above it make up v. */
  lemma {:induction false} Regroup(v: bv64, g: nat)
    requires g < 9
    ensures Or(Place(Low7(v), g), Place(Shr7(v), g + 1)) == Place(v, g)
  {
    hide Or, Place, Low7, Shr7;
    if g == 0 { Regroup0(v); }
    else if g == 1 { Regroup1(v); }
    else if g == 2 { Regroup2(v); }
    else if g == 3 { Regroup3(v); }
    else if g == 4 { Regroup4(v); }
    else if g == 5 { Regroup5(v); }
    else if g == 6 { Regroup6(v); }
    else if g == 7 { Regroup7(v); }
    else if g == 8 { Regroup8(v); }
  }

  lemma {:induction false} Regroup0(v: bv64)
    ensures Or(Place(Low7(v), 0), Place(Shr7(v), 1)) == Place(v, 0)
  {
  }

  lemma {:induction false} Regroup1(v: bv64)
    ensures Or(Place(Low7(v), 1), Place(Shr7(v), 2)) == Place(v, 1)
  {
  }

  lemma {:induction false} Regroup2(v: bv64)
    ensures Or(Place(Low7(v), 2), Place(Shr7(v), 3)) == Place(v, 2)
  {
  }

  lemma {:induction false} Regroup3(v: bv64)
    ensures Or(Place(Low7(v), 3), Place(Shr7(v), 4)) == Place(v, 3)
  {
  }

  lemma {:induction false} Regroup4(v: bv64)
    ensures Or(Place(Low7(v), 4), Place(Shr7(v), 5)) == Place(v, 4)
  {
  }

  lemma {:induction false} Regroup5(v: bv64)
    ensures Or(Place(Low7(v), 5), Place(Shr7(v), 6)) == Place(v, 5)
  {
  }

  lemma {:induction false} Regroup6(v: bv64)
    ensures Or(Place(Low7(v), 6), Place(Shr7(v), 7)) == Place(v, 6)
  {
  }

  lemma {:induction false} Regroup7(v: bv64)
    ensures Or(Place(Low7(v), 7), Place(Shr7(v), 8)) == Place(v, 7)
  {
  }

  lemma {:induction false} Regroup8(v: bv64)
    ensures Or(Place(Low7(v), 8), Place(Shr7(v), 9)) == Place(v, 8)
  {
  }

  /** The bytes of Varint(v), wherever they stand, are read back as v and consumed exactly. */
  lemma {:induction false} VarintInverse(d: seq<Byte>, p: nat, v: bv64, g: nat, n: nat, acc: bv64)
    requires g < n <= 10 && |Varint(v)| <= n - g
    requires p + |Varint(v)| <= |d| && d[p..p + |Varint(v)|] == Varint(v)
    ensures ReadVarint(d, p, g, n, acc) == Some((Or(acc, Place(v, g)), p + |Varint(v)|))
    decreases n - g
  {
    assert d[p] == Varint(v)[0];
    if v < 0x80 {
      LastByteBits(v);
    } else {
      MoreByteBits(v);
      var rest := Varint(Shr7(v));
      assert d[p + 1..p + 1 + |rest|] == rest by {
        assert Varint(v)[1..] == rest;
      }
      VarintInverse(d, p + 1, Shr7(v), g + 1, n, OrGroup(acc, MoreByte(v), g));
      Regroup(v, g);
      OrAssociates(acc, Place(Low7(v), g), Place(Shr7(v), g + 1));
    }
  }

  lemma {:induction false} PlaceZero(v: bv64)
    ensures Or(0, Place(v, 0)) == v
  {
  }

  /** No varint is a proper prefix of another, and the encoding is injective. */
  lemma {:induction false} VarintPrefixFree(a: bv64, b: bv64)
    requires Varint(a) <= Varint(b)
    ensures a == b
  {
    var d := Varint(b);
    VarintBounds(a);
    VarintBounds(b);
    VarintInverse(d, 0, a, 0, 10, 0);
    VarintInverse(d, 0, b, 0, 10, 0);
    PlaceZero(a);
    PlaceZero(b);
  }

  // ---- varint lengths ----

  /** v is below 2 to the power 7 * k. */
  predicate Below(v: bv64, k: nat)
  {
    if k == 0 then v < 0x1
    else if k == 1 then v < 0x80
    else if k == 2 then v < 0x4000
    else if k == 3 then v < 0x200000
    else if k == 4 then v < 0x10000000
    else if k == 5 then v < 0x800000000
    else if k == 6 then v < 0x40000000000
    else if k == 7 then v < 0x2000000000000
    else if k == 8 then v < 0x100000000000000
    else if k == 9 then v < 0x8000000000000000
    else true
  }

  /** v needs at most k groups of seven bits. */
  predicate Fits(v: bv64, k: nat) { if k == 0 then v == 0 else Fits(Shr7(v), k - 1) }

  lemma {:induction false} FitsIsBelow(v: bv64, k: nat)
    ensures Fits(v, k) <==> Below(v, k)
  {
    if k == 0 {
      BelowOne(v);
    } else {
      BelowShift(v, k);
      FitsIsBelow(Shr7(v), k - 1);
    }
  }

  lemma {:induction false} BelowOne(v: bv64)
    ensures Below(v, 0) <==> v == 0
  {
  }

  lemma {:induction false} BelowShift(v: bv64, k: nat)
    requires 1 <= k
    ensures Below(v, k) <==> Below(Shr7(v), k - 1)
  {
    if k == 1 { FitsShift1(v); }
    else if k == 2 { FitsShift2(v); }
    else if k == 3 { FitsShift3(v); }
    else if k == 4 { FitsShift4(v); }
    else if k == 5 { FitsShift5(v); }
    else if k == 6 { FitsShift6(v); }
    else if k == 7 { FitsShift7(v); }
    else if k == 8 { FitsShift8(v); }
    else if k == 9 { FitsShift9(v); }
    else if k == 10 { FitsShift10(v); }
  }

  lemma {:induction false} FitsShift1(v: bv64)
    ensures v < 0x80 <==> v >> 7 < 0x1
  {
  }

  lemma {:induction false} FitsShift2(v: bv64)
    ensures v < 0x4000 <==> v >> 7 < 0x80
  {
  }

  lemma {:induction false} FitsShift3(v: bv64)
    ensures v < 0x200000 <==> v >> 7 < 0x4000
  {
  }

  lemma {:induction false} FitsShift4(v: bv64)
    ensures v < 0x10000000 <==> v >> 7 < 0x200000
  {
  }

  lemma {:induction false} FitsShift5(v: bv64)
    ensures v < 0x800000000 <==> v >> 7 < 0x10000000
  {
  }

  lemma {:induction false} FitsShift6(v: bv64)
    ensures v < 0x40000000000 <==> v >> 7 < 0x800000000
  {
  }

  lemma {:induction false} FitsShift7(v: bv64)
    ensures v < 0x2000000000000 <==> v >> 7 < 0x40000000000
  {
  }

  lemma {:induction false} FitsShift8(v: bv64)
    ensures v < 0x100000000000000 <==> v >> 7 < 0x2000000000000
  {
  }

  lemma {:induction false} FitsShift9(v: bv64)
    ensures v < 0x8000000000000000 <==> v >> 7 < 0x100000000000000
  {
  }

  lemma {:induction false} FitsShift10(v: bv64)
    ensures v >> 7 < 0x8000000000000000
  {
  }

  /** The length of a varint is the number of 7-bit groups up to the highest one bit. */
  lemma {:induction false} VarintLength(v: bv64, k: nat)
    requires k >= 1
    ensures |Varint(v)| <= k <==> Fits(v, k)
    decreases k
  {
    FitsIsBelow(v, 1);
    if v < 0x80 {
      FitsOne(v, k);
    } else if k > 1 {
      VarintLength(Shr7(v), k - 1);
    }
  }

  lemma {:induction false} FitsOne(v: bv64, k: nat)
    requires v < 0x80 && k >= 1
    ensures Fits(v, k)
  {
    FitsIsBelow(v, k);
  }

  /** At most ten bytes for a 64-bit value, five for a 32-bit one. */
  lemma {:induction false} VarintBounds(v: bv64)
    ensures |Varint(v)| <= 10
    ensures v <= 0xffff_ffff ==> |Varint(v)| <= 5
  {
    VarintLength(v, 5);
    VarintLength(v, 10);
    FitsIsBelow(v, 5);
    FitsIsBelow(v, 10);
  }

  lemma {:induction false} FitsOr(acc: bv64, b: Byte, g: nat)
    requires g < 10 && Fits(acc, g)
    ensures Fits(OrGroup(acc, b, g), g + 1)
  {
    FitsIsBelow(acc, g);
    BelowOr(acc, b, g);
    FitsIsBelow(OrGroup(acc, b, g), g + 1);
  }

  lemma {:induction false} BelowOr(acc: bv64, b: Byte, g: nat)
    requires g < 10 && Below(acc, g)
    ensures Below(OrGroup(acc, b, g), g + 1)
  {
    PayloadSmall(b);
    if g == 0 { FitsOr0(acc, Payload(b)); }
    else if g == 1 { FitsOr1(acc, Payload(b)); }
    else if g == 2 { FitsOr2(acc, Payload(b)); }
    else if g == 3 { FitsOr3(acc, Payload(b)); }
    else if g == 4 { FitsOr4(acc, Payload(b)); }
    else if g == 5 { FitsOr5(acc, Payload(b)); }
    else if g == 6 { FitsOr6(acc, Payload(b)); }
    else if g == 7 { FitsOr7(acc, Payload(b)); }
    else if g == 8 { FitsOr8(acc, Payload(b)); }
  }

  lemma {:induction false} FitsOr0(acc: bv64, x: bv64)
    requires acc < 0x1 && x < 0x80
    ensures acc | x < 0x80
  {
  }

  lemma {:induction false} FitsOr1(acc: bv64, x: bv64)
    requires acc < 0x80 && x < 0x80
    ensures acc | (x << 7) < 0x4000
  {
  }

  lemma {:induction false} FitsOr2(acc: bv64, x: bv64)
    requires acc < 0x4000 && x < 0x80
    ensures acc | (x << 14) < 0x200000
  {
  }

  lemma {:induction false} FitsOr3(acc: bv64, x: bv64)
    requires acc < 0x200000 && x < 0x80
    ensures acc | (x << 21) < 0x10000000
  {
  }

  lemma {:induction false} FitsOr4(acc: bv64, x: bv64)
    requires acc < 0x10000000 && x < 0x80
    ensures acc | (x << 28) < 0x800000000
  {
  }

  lemma {:induction false} FitsOr5(acc: bv64, x: bv64)
    requires acc < 0x800000000 && x < 0x80
    ensures acc | (x << 35) < 0x40000000000
  {
  }

  lemma {:induction false} FitsOr6(acc: bv64, x: bv64)
    requires acc < 0x40000000000 && x < 0x80
    ensures acc | (x << 42) < 0x2000000000000
  {
  }

  lemma {:induction false} FitsOr7(acc: bv64, x: bv64)
    requires acc < 0x2000000000000 && x < 0x80
    ensures acc | (x << 49) < 0x100000000000000
  {
  }

  lemma {:induction false} FitsOr8(acc: bv64, x: bv64)
    requires acc < 0x100000000000000 && x < 0x80
    ensures acc | (x << 56) < 0x8000000000000000
  {
  }

  lemma {:induction false} PayloadSmall(b: Byte)
    ensures Payload(b) < 0x80
  {
  }

  /** What m bytes can say fits in m groups. */
  lemma {:induction false} ReadFits(d: seq<Byte>, p: nat, g: nat, n: nat, acc: bv64)
    requires g <= n <= 10 && Fits(acc, g)
    ensures var r := ReadVarint(d, p, g, n, acc);
            r.Some? ==> Fits(r.value.0, g + (r.value.1 - p))
    decreases n - g
  {
    hide Fits, OrGroup;
    if g < n && p < |d| {
      FitsOr(acc, d[p], g);
      if d[p] >= 0x80 {
        ReadFits(d, p + 1, g + 1, n, OrGroup(acc, d[p], g));
      }
    }
  }

  /** The writer's encoding is the shortest one the reader maps to the value. */
  lemma {:induction false} VarintMinimal(d: seq<Byte>, n: nat)
    requires 1 <= n <= 10
    ensures var r := ReadVarint(d, 0, 0, n, 0); r.Some? ==> |Varint(r.value.0)| <= r.value.1
  {
    var r := ReadVarint(d, 0, 0, n, 0);
    ReadFits(d, 0, 0, n, 0);
    if r.Some? {
      VarintLength(r.value.0, r.value.1);
    }
  }
}
