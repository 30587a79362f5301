/** The typed writers and readers of bobliew/bytearray.cc and the frames of bobliew/protocol.cc,
    refined to the functions of module Codec. */
module TypedBytes {
  import opened FlatMemory
  import opened ByteArrays
  import opened Codec

  // ---- 16-bit lengths ----

  /** n halved k times, and the binary digit at place k. */
  function Halved(n: nat, k: nat): nat { if k == 0 then n else Halved(n, k - 1) / 2 }

  function Digit(n: nat, k: nat): (d: nat)
    ensures d <= 1
  {
    Halved(n, k) % 2
  }

  /** The low eight bits of n. */
  function ByteOf(n: nat): Byte
  {
    Pack(Digit(n, 0), Digit(n, 1), Digit(n, 2), Digit(n, 3), Digit(n, 4), Digit(n, 5), Digit(n, 6), Digit(n, 7))
  }

  function Pack(a: nat, b: nat, c: nat, d: nat, e: nat, f: nat, g: nat, h: nat): Byte
  {
    Put1(a, 0x01) | Put1(b, 0x02) | Put1(c, 0x04) | Put1(d, 0x08) | Put1(e, 0x10) | Put1(f, 0x20) | Put1(g, 0x40) | Put1(h, 0x80)
  }

  function Put1(digit: nat, mask: Byte): Byte { if digit == 1 then mask else 0 }

  function Get1(v: Byte, mask: Byte): nat { if v & mask != 0 then 1 else 0 }

  /** The number a byte stands for. */
  function ValueOf(v: Byte): nat
  {
    Get1(v, 0x01) + 2 * Get1(v, 0x02) + 4 * Get1(v, 0x04) + 8 * Get1(v, 0x08)
    + 16 * Get1(v, 0x10) + 32 * Get1(v, 0x20) + 64 * Get1(v, 0x40) + 128 * Get1(v, 0x80)
  }

  lemma LowPacked(a: nat, b: nat, c: nat, d: nat, e: nat, f: nat, g: nat, h: nat)
    requires a <= 1 && b <= 1 && c <= 1 && d <= 1
    ensures var v := Pack(a, b, c, d, e, f, g, h);
            Get1(v, 0x01) == a && Get1(v, 0x02) == b && Get1(v, 0x04) == c && Get1(v, 0x08) == d
  {
  }

  lemma HighPacked(a: nat, b: nat, c: nat, d: nat, e: nat, f: nat, g: nat, h: nat)
    requires e <= 1 && f <= 1 && g <= 1 && h <= 1
    ensures var v := Pack(a, b, c, d, e, f, g, h);
            Get1(v, 0x10) == e && Get1(v, 0x20) == f && Get1(v, 0x40) == g && Get1(v, 0x80) == h
  {
  }

  lemma PackValue(a: nat, b: nat, c: nat, d: nat, e: nat, f: nat, g: nat, h: nat)
    requires a <= 1 && b <= 1 && c <= 1 && d <= 1 && e <= 1 && f <= 1 && g <= 1 && h <= 1
    ensures ValueOf(Pack(a, b, c, d, e, f, g, h)) == a + 2 * b + 4 * c + 8 * d + 16 * e + 32 * f + 64 * g + 128 * h
  {
    hide Pack, Get1;
    LowPacked(a, b, c, d, e, f, g, h);
    HighPacked(a, b, c, d, e, f, g, h);
  }

  lemma HalfStep(n: nat, k: nat)
    ensures Halved(n, k) == 2 * Halved(n, k + 1) + Digit(n, k)
  {
  }

  lemma Sum8(n: nat, h1: nat, h2: nat, h3: nat, h4: nat, h5: nat, h6: nat, h7: nat, h8: nat,
             b0: nat, b1: nat, b2: nat, b3: nat, b4: nat, b5: nat, b6: nat, b7: nat)
    requires n < 256 && n == 2 * h1 + b0 && h1 == 2 * h2 + b1 && h2 == 2 * h3 + b2 && h3 == 2 * h4 + b3
    requires h4 == 2 * h5 + b4 && h5 == 2 * h6 + b5 && h6 == 2 * h7 + b6 && h7 == 2 * h8 + b7
    ensures n == b0 + 2 * b1 + 4 * b2 + 8 * b3 + 16 * b4 + 32 * b5 + 64 * b6 + 128 * b7
  {
    assert n == b0 + 2 * b1 + 4 * b2 + 8 * b3 + 16 * h4;
    assert h4 == b4 + 2 * b5 + 4 * b6 + 8 * b7 + 16 * h8;
  }

  lemma ByteOfSum(n: nat)
    ensures ValueOf(ByteOf(n)) == Digit(n, 0) + 2 * Digit(n, 1) + 4 * Digit(n, 2) + 8 * Digit(n, 3)
                                  + 16 * Digit(n, 4) + 32 * Digit(n, 5) + 64 * Digit(n, 6) + 128 * Digit(n, 7)
  {
    hide Pack, ValueOf, Digit;
    PackValue(Digit(n, 0), Digit(n, 1), Digit(n, 2), Digit(n, 3), Digit(n, 4), Digit(n, 5), Digit(n, 6), Digit(n, 7));
  }

  lemma ByteOfInverse(n: nat)
    requires n < 256
    ensures ValueOf(ByteOf(n)) == n
  {
    hide ByteOf, ValueOf, Halved, Digit;
    ByteOfSum(n);
    HalvedNone(n);
    HalfStep(n, 0); HalfStep(n, 1); HalfStep(n, 2); HalfStep(n, 3);
    HalfStep(n, 4); HalfStep(n, 5); HalfStep(n, 6); HalfStep(n, 7);
    Sum8(n, Halved(n, 1), Halved(n, 2), Halved(n, 3), Halved(n, 4), Halved(n, 5), Halved(n, 6), Halved(n, 7), Halved(n, 8),
         Digit(n, 0), Digit(n, 1), Digit(n, 2), Digit(n, 3), Digit(n, 4), Digit(n, 5), Digit(n, 6), Digit(n, 7));
  }

  lemma HalvedNone(n: nat)
    ensures Halved(n, 0) == n
  {
  }

  /** (uint16_t)n. */
  function Length16(n: nat): bv16 { Join16(ByteOf(n / 256 % 256), ByteOf(n % 256)) }

  function Join16(hi: Byte, lo: Byte): bv16 { ((hi as bv16) << 8) | (lo as bv16) }

  /** (size_t)v. */
  function Size16(v: bv16): nat { ValueOf(High16(v)) * 256 + ValueOf(Low16(v)) }

  function High16(v: bv16): Byte { (v >> 8) as Byte }

  function Low16(v: bv16): Byte { (v & 0xff) as Byte }

  lemma SplitJoin16(hi: Byte, lo: Byte)
    ensures High16(Join16(hi, lo)) == hi && Low16(Join16(hi, lo)) == lo
  {
  }

  lemma Length16Inverse(n: nat)
    ensures Size16(Length16(n)) == Cut16(n)
  {
    hide ByteOf, ValueOf, Join16, High16, Low16;
    SplitJoin16(ByteOf(n / 256 % 256), ByteOf(n % 256));
    ByteOfInverse(n / 256 % 256);
    ByteOfInverse(n % 256);
    Digits256(n);
  }

  lemma Digits256(n: nat)
    ensures n / 256 % 256 * 256 + n % 256 == n % 65536
  {
  }

  // ---- values and their encodings ----

  datatype Item =
    | Int8(v8: bv8)
    | Int16(v16: bv16)
    | Int32(v32: bv32)
    | Int64(v64: bv64)
    | VarU32(u32: bv32)
    | VarU64(u64: bv64)
    | VarS32(s32: bv32)
    | VarS64(s64: bv64)
    | Text(text: seq<Byte>)
    | Request(sn: bv32, cmd: bv32)
    | Notify(notify: bv32)

  datatype Kind = KInt8 | KInt16 | KInt32 | KInt64 | KVarU32 | KVarU64 | KVarS32 | KVarS64 | KText | KRequest | KNotify

  const REQUEST: Byte := 1
  const NOTIFY: Byte := 3

  function KindOf(x: Item): Kind
  {
    match x
    case Int8(_) => KInt8 case Int16(_) => KInt16 case Int32(_) => KInt32 case Int64(_) => KInt64
    case VarU32(_) => KVarU32 case VarU64(_) => KVarU64 case VarS32(_) => KVarS32 case VarS64(_) => KVarS64
    case Text(_) => KText case Request(_, _) => KRequest case Notify(_) => KNotify
  }

  function Encode(x: Item): (s: seq<Byte>)
    ensures |s| >= 1
  {
    match x
    case Int8(v) => [v]
    case Int16(v) => Fixed16(v)
    case Int32(v) => Fixed32(v)
    case Int64(v) => Fixed64(v)
    case VarU32(v) => Varint(Wide(v))
    case VarU64(v) => Varint(v)
    case VarS32(v) => Varint(Wide(Zigzag32(v)))
    case VarS64(v) => Varint(Zigzag64(v))
    case Text(t) => Fixed16(Length16(|t|)) + t
    case Request(sn, cmd) => [REQUEST] + Varint(Wide(sn)) + Varint(Wide(cmd))
    case Notify(n) => [NOTIFY] + Varint(Wide(n))
  }

  function DecodeVar32(d: seq<Byte>, p: nat): (r: Option<(bv32, nat)>)
    ensures r.Some? ==> p <= r.value.1 && (p <= |d| ==> r.value.1 <= |d|)
  {
    match ReadVarint(d, p, 0, 5, 0)
    case None => None
    case Some((v, q)) => Some((Low32(v), q))
  }

  function DecodeVar64(d: seq<Byte>, p: nat): (r: Option<(bv64, nat)>)
    ensures r.Some? ==> p <= r.value.1 && (p <= |d| ==> r.value.1 <= |d|)
  {
    ReadVarint(d, p, 0, 10, 0)
  }

  /** Request::parserFromByteArray. */
  function DecodeRequest(d: seq<Byte>, p: nat): (r: Option<(Item, nat)>)
    ensures r.Some? && p <= |d| ==> p <= r.value.1 <= |d|
    ensures r.Some? ==> r.value.0.Request?
  {
    match DecodeVar32(d, p)
    case None => None
    case Some((sn, q)) =>
      match DecodeVar32(d, q)
      case None => None
      case Some((cmd, q')) => Some((Request(sn, cmd), q'))
  }

  /** Reads one value of kind k from d at p: the value and the next position, or None when bytes are missing
      (or, for a frame, when the type byte is another one). */
  function Decode(k: Kind, d: seq<Byte>, p: nat): (r: Option<(Item, nat)>)
    ensures r.Some? && p <= |d| ==> p < r.value.1 <= |d|
  {
    match k
    case KInt8 => if p + 1 <= |d| then Some((Int8(d[p]), p + 1)) else None
    case KInt16 => if p + 2 <= |d| then Some((Int16(Unfixed16(d[p..p + 2])), p + 2)) else None
    case KInt32 => if p + 4 <= |d| then Some((Int32(Unfixed32(d[p..p + 4])), p + 4)) else None
    case KInt64 => if p + 8 <= |d| then Some((Int64(Unfixed64(d[p..p + 8])), p + 8)) else None
    case KVarU32 => (match DecodeVar32(d, p) case None => None case Some((v, q)) => Some((VarU32(v), q)))
    case KVarU64 => (match DecodeVar64(d, p) case None => None case Some((v, q)) => Some((VarU64(v), q)))
    case KVarS32 => (match DecodeVar32(d, p) case None => None case Some((v, q)) => Some((VarS32(Unzigzag32(v)), q)))
    case KVarS64 => (match DecodeVar64(d, p) case None => None case Some((v, q)) => Some((VarS64(Unzigzag64(v)), q)))
    case KText =>
      if p + 2 > |d| then None
      else
        var n := Size16(Unfixed16(d[p..p + 2]));
        if p + 2 + n <= |d| then Some((Text(d[p + 2..p + 2 + n]), p + 2 + n)) else None
    case KRequest => if p + 1 > |d| || d[p] != REQUEST then None else DecodeRequest(d, p + 1)
    case KNotify =>
      if p + 1 > |d| || d[p] != NOTIFY then None
      else (match DecodeVar32(d, p + 1) case None => None case Some((n, q)) => Some((Notify(n), q)))
  }

  // ---- round trips on byte strings ----

  ghost predicate At(d: seq<Byte>, p: nat, s: seq<Byte>)
  {
    p + |s| <= |d| && d[p..p + |s|] == s
  }

  lemma AtParts(d: seq<Byte>, p: nat, a: seq<Byte>, b: seq<Byte>)
    requires At(d, p, a + b)
    ensures At(d, p, a) && At(d, p + |a|, b)
  {
    assert d[p..p + |a|] == (a + b)[..|a|];
    assert d[p + |a|..p + |a| + |b|] == (a + b)[|a|..];
  }

  lemma AtHead(d: seq<Byte>, p: nat, b: Byte)
    requires At(d, p, [b])
    ensures p < |d| && d[p] == b
  {
    assert d[p] == d[p..p + 1][0];
  }

  lemma {:induction false} Low32Inverse(v: bv32)
    ensures Wide(v) <= 0xffff_ffff && Low32(Wide(v)) == v
  {
  }

  lemma Var32Inverse(d: seq<Byte>, p: nat, v: bv32)
    requires At(d, p, Varint(Wide(v)))
    ensures DecodeVar32(d, p) == Some((v, p + |Varint(Wide(v))|))
  {
    var w := Wide(v);
    Low32Inverse(v);
    VarintBounds(w);
    VarintInverse(d, p, w, 0, 5, 0);
    PlaceZero(w);
  }

  lemma Var64Inverse(d: seq<Byte>, p: nat, v: bv64)
    requires At(d, p, Varint(v))
    ensures DecodeVar64(d, p) == Some((v, p + |Varint(v)|))
  {
    VarintBounds(v);
    VarintInverse(d, p, v, 0, 10, 0);
    PlaceZero(v);
  }

  /** What is left of a length in 16 bits. */
  function Cut16(n: nat): (m: nat)
    ensures m <= n && m < 65536 && (n < 65536 ==> m == n)
  {
    n % 65536
  }

  /** writeStringF16 keeps 16 bits of the length, so the reader returns the text cut to length modulo 65536. */
  lemma TextInverse(d: seq<Byte>, p: nat, t: seq<Byte>)
    requires At(d, p, Encode(Text(t)))
    ensures Decode(KText, d, p) == Some((Text(t[..Cut16(|t|)]), p + 2 + Cut16(|t|)))
  {
    hide Fixed16, Unfixed16, Length16, Size16;
    var len := Length16(|t|);
    Fixed16Inverse(len);
    Length16Inverse(|t|);
    AtParts(d, p, Fixed16(len), t);
    var n := Cut16(|t|);
    assert d[p + 2..p + 2 + |t|][..n] == d[p + 2..p + 2 + n];
  }

  /** A text survives the F16 pair exactly when it is shorter than 65536 bytes. */
  lemma TextExact(d: seq<Byte>, p: nat, t: seq<Byte>)
    requires At(d, p, Encode(Text(t)))
    ensures Decode(KText, d, p) == Some((Text(t), p + |Encode(Text(t))|)) <==> |t| < 65536
  {
    hide Fixed16, Length16, Decode;
    TextInverse(d, p, t);
    Fixed16Inverse(Length16(|t|));
    if |t| >= 65536 {
      assert |t[..Cut16(|t|)]| < |t|;
    } else {
      assert t[..Cut16(|t|)] == t;
    }
  }

  /** (uint32_t)n. */
  function Length32(n: nat): bv32 { ((Length16(n / 65536) as bv32) << 16) | (Length16(n) as bv32) }

  /** The bytes of writeStringF32. */
  function TextF32(t: seq<Byte>): seq<Byte> { Fixed32(Length32(|t|)) + t }

  lemma {:induction false} Fixed32Halves(hi: bv16, lo: bv16)
    ensures Fixed32(((hi as bv32) << 16) | (lo as bv32)) == Fixed16(hi) + Fixed16(lo)
  {
  }

  /** readStringF32 takes a 16-bit length, so it sees the upper half of the 32-bit one: it never consumes what
      writeStringF32 wrote, and it returns the written text exactly when that text is empty. */
  lemma TextF32Mismatch(d: seq<Byte>, p: nat, t: seq<Byte>)
    requires At(d, p, TextF32(t))
    ensures var r := Decode(KText, d, p);
            r.Some? && r.value.0.Text? && r.value.1 != p + |TextF32(t)| && (r.value.0.text == t <==> t == [])
  {
    hide Fixed16, Unfixed16, Fixed32, Length16, Size16, At, DecodeVar32, DecodeVar64, DecodeRequest;
    hide Unfixed32, Unfixed64, Unzigzag32, Unzigzag64;
    var hi, lo := Length16(|t| / 65536), Length16(|t|);
    Fixed32Halves(hi, lo);
    Fixed16Inverse(hi);
    Fixed16Inverse(lo);
    assert TextF32(t) == Fixed16(hi) + (Fixed16(lo) + t);
    AtParts(d, p, Fixed16(hi), Fixed16(lo) + t);
    AtBytes(d, p, Fixed16(hi));
    AtBytes(d, p + 2, Fixed16(lo) + t);
    Length16Inverse(|t| / 65536);
  }

  lemma AtBytes(d: seq<Byte>, p: nat, s: seq<Byte>)
    requires At(d, p, s)
    ensures p + |s| <= |d| && d[p..p + |s|] == s
  {
  }

  ghost predicate Sendable(x: Item) { x.Text? ==> |x.text| < 65536 }

  /** Every value is read back from its encoding, consuming exactly its bytes. */
  lemma ItemInverse(d: seq<Byte>, p: nat, x: Item)
    requires At(d, p, Encode(x)) && Sendable(x)
    ensures Decode(KindOf(x), d, p) == Some((x, p + |Encode(x)|))
  {
    hide Encode, Decode;
    match x
    case Text(t) => TextExact(d, p, t);
    case Request(sn, cmd) => RequestInverse(d, p, sn, cmd);
    case Notify(n) => NotifyInverse(d, p, n);
    case _ =>
      if x.Int8? || x.Int16? || x.Int32? || x.Int64? { FixedItemInverse(d, p, x); } else { VarItemInverse(d, p, x); }
  }

  lemma FixedItemInverse(d: seq<Byte>, p: nat, x: Item)
    requires At(d, p, Encode(x)) && (x.Int8? || x.Int16? || x.Int32? || x.Int64?)
    ensures Decode(KindOf(x), d, p) == Some((x, p + |Encode(x)|))
  {
    hide Fixed16, Unfixed16, Fixed32, Unfixed32, Fixed64, Unfixed64, Varint, Wide, DecodeVar32, DecodeVar64, DecodeRequest;
    hide Zigzag32, Zigzag64, Unzigzag32, Unzigzag64, Length16, Size16;
    match x
    case Int8(v) =>
    case Int16(v) => Fixed16Inverse(v);
    case Int32(v) => Fixed32Inverse(v);
    case Int64(v) => Fixed64Inverse(v);
  }

  lemma VarU32Inverse(d: seq<Byte>, p: nat, v: bv32)
    requires At(d, p, Varint(Wide(v)))
    ensures Decode(KVarU32, d, p) == Some((VarU32(v), p + |Varint(Wide(v))|))
  {
    hide Varint, Wide, DecodeVar32, DecodeVar64, At, DecodeRequest, Size16, Unfixed16, Unfixed32, Unfixed64, Unzigzag32, Unzigzag64;
    Var32Inverse(d, p, v);
  }

  lemma VarU64Inverse(d: seq<Byte>, p: nat, v: bv64)
    requires At(d, p, Varint(v))
    ensures Decode(KVarU64, d, p) == Some((VarU64(v), p + |Varint(v)|))
  {
    hide Varint, Wide, DecodeVar32, DecodeVar64, At, DecodeRequest, Size16, Unfixed16, Unfixed32, Unfixed64, Unzigzag32, Unzigzag64;
    Var64Inverse(d, p, v);
  }

  lemma VarS32Inverse(d: seq<Byte>, p: nat, v: bv32)
    requires At(d, p, Varint(Wide(Zigzag32(v))))
    ensures Decode(KVarS32, d, p) == Some((VarS32(v), p + |Varint(Wide(Zigzag32(v)))|))
  {
    hide Varint, Wide, DecodeVar32, DecodeVar64, At, DecodeRequest, Size16, Unfixed16, Unfixed32, Unfixed64, Zigzag32, Unzigzag32, Unzigzag64;
    Var32Inverse(d, p, Zigzag32(v));
    Zigzag32Bijective(v);
  }

  lemma VarS64Inverse(d: seq<Byte>, p: nat, v: bv64)
    requires At(d, p, Varint(Zigzag64(v)))
    ensures Decode(KVarS64, d, p) == Some((VarS64(v), p + |Varint(Zigzag64(v))|))
  {
    hide Varint, Wide, DecodeVar32, DecodeVar64, At, DecodeRequest, Size16, Unfixed16, Unfixed32, Unfixed64, Zigzag64, Unzigzag32, Unzigzag64;
    Var64Inverse(d, p, Zigzag64(v));
    Zigzag64Bijective(v);
  }

  lemma VarItemInverse(d: seq<Byte>, p: nat, x: Item)
    requires At(d, p, Encode(x)) && (x.VarU32? || x.VarU64? || x.VarS32? || x.VarS64?)
    ensures Decode(KindOf(x), d, p) == Some((x, p + |Encode(x)|))
  {
    hide Decode, At, Varint, Wide, Fixed16, Fixed32, Fixed64, Length16, Zigzag32, Zigzag64;
    match x
    case VarU32(v) => VarU32Inverse(d, p, v);
    case VarU64(v) => VarU64Inverse(d, p, v);
    case VarS32(v) => VarS32Inverse(d, p, v);
    case VarS64(v) => VarS64Inverse(d, p, v);
  }

  lemma NotifyInverse(d: seq<Byte>, p: nat, n: bv32)
    requires At(d, p, Encode(Notify(n)))
    ensures Decode(KNotify, d, p) == Some((Notify(n), p + |Encode(Notify(n))|))
  {
    hide Varint, Wide, DecodeRequest, DecodeVar32, DecodeVar64, At;
    hide Unfixed16, Unfixed32, Unfixed64, Fixed16, Fixed32, Fixed64, Length16, Size16, Zigzag32, Zigzag64, Unzigzag32, Unzigzag64;
    AtParts(d, p, [NOTIFY], Varint(Wide(n)));
    AtHead(d, p, NOTIFY);
    Var32Inverse(d, p + 1, n);
  }

  lemma EncodeRequest(sn: bv32, cmd: bv32)
    ensures Encode(Request(sn, cmd)) == [REQUEST] + (Varint(Wide(sn)) + Varint(Wide(cmd)))
  {
    hide Varint, Wide, Fixed16, Fixed32, Fixed64, Length16, Zigzag32, Zigzag64;
    Regroup([REQUEST], Varint(Wide(sn)), Varint(Wide(cmd)));
  }

  lemma Regroup(a: seq<Byte>, b: seq<Byte>, c: seq<Byte>)
    ensures a + b + c == a + (b + c)
  {
  }

  lemma DecodeFrame(d: seq<Byte>, p: nat)
    requires p < |d| && d[p] == REQUEST
    ensures Decode(KRequest, d, p) == DecodeRequest(d, p + 1)
  {
    hide DecodeRequest;
  }

  lemma RequestInverse(d: seq<Byte>, p: nat, sn: bv32, cmd: bv32)
    requires At(d, p, Encode(Request(sn, cmd)))
    ensures Decode(KRequest, d, p) == Some((Request(sn, cmd), p + |Encode(Request(sn, cmd))|))
  {
    hide Varint, Wide, Encode, Decode, DecodeRequest, At;
    EncodeRequest(sn, cmd);
    AtParts(d, p, [REQUEST], Varint(Wide(sn)) + Varint(Wide(cmd)));
    AtHead(d, p, REQUEST);
    DecodeFrame(d, p);
    RequestBodyInverse(d, p + 1, sn, cmd);
  }

  lemma RequestBodyInverse(d: seq<Byte>, p: nat, sn: bv32, cmd: bv32)
    requires At(d, p, Varint(Wide(sn)) + Varint(Wide(cmd)))
    ensures DecodeRequest(d, p) == Some((Request(sn, cmd), p + |Varint(Wide(sn))| + |Varint(Wide(cmd))|))
  {
    hide Varint, Wide, DecodeVar32, At;
    var a, b := Varint(Wide(sn)), Varint(Wide(cmd));
    AtParts(d, p, a, b);
    Var32Inverse(d, p, sn);
    Var32Inverse(d, p + |a|, cmd);
  }

  function EncodeAll(xs: seq<Item>): seq<Byte>
  {
    if xs == [] then [] else Encode(xs[0]) + EncodeAll(xs[1..])
  }

  function KindsOf(xs: seq<Item>): (ks: seq<Kind>)
    ensures |ks| == |xs|
  {
    if xs == [] then [] else [KindOf(xs[0])] + KindsOf(xs[1..])
  }

  function DecodeAll(ks: seq<Kind>, d: seq<Byte>, p: nat): Option<(seq<Item>, nat)>
  {
    if ks == [] then Some(([], p))
    else
      match Decode(ks[0], d, p)
      case None => None
      case Some((x, q)) =>
        match DecodeAll(ks[1..], d, q)
        case None => None
        case Some((xs, q')) => Some(([x] + xs, q'))
  }

  /** Any list of values is read back from its concatenated encodings. */
  lemma {:induction false} AllInverse(xs: seq<Item>, d: seq<Byte>, p: nat)
    requires At(d, p, EncodeAll(xs)) && forall x :: x in xs ==> Sendable(x)
    ensures DecodeAll(KindsOf(xs), d, p) == Some((xs, p + |EncodeAll(xs)|))
  {
    hide Encode, Decode, At, KindOf;
    if xs != [] {
      AtParts(d, p, Encode(xs[0]), EncodeAll(xs[1..]));
      ItemInverse(d, p, xs[0]);
      AllInverse(xs[1..], d, p + |Encode(xs[0])|);
      assert KindsOf(xs)[0] == KindOf(xs[0]) && KindsOf(xs)[1..] == KindsOf(xs[1..]);
      assert [xs[0]] + xs[1..] == xs;
    }
  }
}
