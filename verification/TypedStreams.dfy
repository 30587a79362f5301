/** The typed members of ByteArray as methods over the heap buffer, each tied to its byte-string meaning. */
module TypedStreams {
  import opened FlatMemory
  import opened ByteArrays
  import opened Codec
  import opened TypedBytes

  /** `t` was written after `s`, which was written at position p of data d. */
  lemma Chain(d: seq<Byte>, p: nat, s: seq<Byte>, t: seq<Byte>)
    requires p <= |d|
    ensures Overwrite(Overwrite(d, p, s), p + |s|, t) == Overwrite(d, p, s + t)
  {
    OverwriteTwice(d, p, s, t);
  }

  // ---- writers ----

  method WriteFuint16(ba: ByteArray, value: bv16)
    requires ba.Valid()
    modifies ba, ba.nodes, ba.home.Keys
    ensures ba.Valid() && ba.Wrote(Fixed16(value))
  {
    var swapped := Swap16(value);
    ba.Write(StoreLe16(swapped));
  }

  method WriteFuint32(ba: ByteArray, value: bv32)
    requires ba.Valid()
    modifies ba, ba.nodes, ba.home.Keys
    ensures ba.Valid() && ba.Wrote(Fixed32(value))
  {
    var swapped := Swap32(value);
    ba.Write(StoreLe32(swapped));
  }

  method WriteFuint64(ba: ByteArray, value: bv64)
    requires ba.Valid()
    modifies ba, ba.nodes, ba.home.Keys
    ensures ba.Valid() && ba.Wrote(Fixed64(value))
  {
    var swapped := Swap64(value);
    ba.Write(StoreLe64(swapped));
  }

  function More32(v: bv32): Byte { ((v & 0x7f) | 0x80) as Byte }

  function Last32(v: bv32): Byte { (v & 0xff) as Byte }

  function Shr32(v: bv32): bv32 { v >> 7 }

  lemma {:induction false} Widen32(v: bv32)
    ensures More32(v) == MoreByte(Wide(v)) && Wide(Shr32(v)) == Shr7(Wide(v))
    ensures v < 0x80 <==> Wide(v) < 0x80
    ensures v < 0x80 ==> Last32(v) == LastByte(Wide(v))
  {
  }

  lemma {:induction false} VarintStep32(v: bv32)
    ensures v >= 0x80 ==> Varint(Wide(v)) == [More32(v)] + Varint(Wide(Shr32(v)))
    ensures v < 0x80 ==> Varint(Wide(v)) == [Last32(v)]
  {
    hide MoreByte, LastByte, Shr7, More32, Last32, Shr32, Wide;
    Widen32(v);
  }

  lemma {:induction false} VarintBound32(v: bv32)
    ensures |Varint(Wide(v))| <= 5
  {
    hide Varint;
    Low32Inverse(v);
    VarintBounds(Wide(v));
  }

  /** The loop of writeUint32; the local buffer of five bytes is never overrun. */
  method VarintBytes32(value: bv32) returns (tmp: seq<Byte>)
    ensures tmp == Varint(Wide(value)) && |tmp| <= 5
  {
    hide Varint, More32, Last32, Shr32, Wide;
    tmp := [];
    var v := value;
    VarintBound32(value);
    while v >= 0x80
      invariant Varint(Wide(value)) == tmp + Varint(Wide(v))
      decreases |Varint(Wide(v))|
    {
      VarintStep32(v);
      assert |tmp| < 5;
      tmp := tmp + [More32(v)];
      v := Shr32(v);
    }
    VarintStep32(v);
    tmp := tmp + [Last32(v)];
  }

  method VarintBytes64(value: bv64) returns (tmp: seq<Byte>)
    ensures tmp == Varint(value) && |tmp| <= 10
  {
    tmp := [];
    var v := value;
    VarintBounds(value);
    while v >= 0x80
      invariant Varint(value) == tmp + Varint(v)
      decreases |Varint(v)|
    {
      assert |tmp| < 10;
      tmp := tmp + [((v & 0x7f) | 0x80) as Byte];
      v := v >> 7;
    }
    tmp := tmp + [v as Byte];
  }

  method WriteUint32(ba: ByteArray, value: bv32)
    requires ba.Valid()
    modifies ba, ba.nodes, ba.home.Keys
    ensures ba.Valid() && ba.Wrote(Varint(Wide(value)))
  {
    var tmp := VarintBytes32(value);
    ba.Write(tmp);
  }

  method WriteUint64(ba: ByteArray, value: bv64)
    requires ba.Valid()
    modifies ba, ba.nodes, ba.home.Keys
    ensures ba.Valid() && ba.Wrote(Varint(value))
  {
    var tmp := VarintBytes64(value);
    ba.Write(tmp);
  }

  method WriteStringF16(ba: ByteArray, value: seq<Byte>)
    requires ba.Valid()
    modifies ba, ba.nodes, ba.home.Keys
    ensures ba.Valid() && ba.Wrote(Fixed16(Length16(|value|)) + value)
  {
    hide Fixed16, Length16, Overwrite, ByteArray.Shape, ByteArray.Data, ByteArray.CursorAt;
    var len := Length16(|value|);
    WriteFuint16(ba, len);
    Chain(old(ba.Data()), old(ba.position), Fixed16(len), value);
    ba.Write(value);
  }

  method WriteTagged(ba: ByteArray, tag: Byte, value: bv32)
    requires ba.Valid()
    modifies ba, ba.nodes, ba.home.Keys
    ensures ba.Valid() && ba.Wrote([tag] + Varint(Wide(value)))
  {
    hide Varint, Overwrite, ByteArray.Shape, ByteArray.Data, ByteArray.CursorAt;
    Chain(ba.Data(), ba.position, [tag], Varint(Wide(value)));
    ba.Write([tag]);
    WriteUint32(ba, value);
  }

  /** Request::serializeToByteArray. */
  method SerializeRequest(ba: ByteArray, sn: bv32, cmd: bv32)
    requires ba.Valid()
    modifies ba, ba.nodes, ba.home.Keys
    ensures ba.Valid() && ba.Wrote([REQUEST] + Varint(Wide(sn)) + Varint(Wide(cmd)))
  {
    hide Varint, Overwrite, ByteArray.Shape, ByteArray.Data, ByteArray.CursorAt;
    var head := [REQUEST] + Varint(Wide(sn));
    Chain(ba.Data(), ba.position, head, Varint(Wide(cmd)));
    WriteTagged(ba, REQUEST, sn);
    WriteUint32(ba, cmd);
  }

  /** Notify::serializeToByteArray. */
  method SerializeNotify(ba: ByteArray, notify: bv32)
    requires ba.Valid()
    modifies ba, ba.nodes, ba.home.Keys
    ensures ba.Valid() && ba.Wrote([NOTIFY] + Varint(Wide(notify)))
  {
    WriteTagged(ba, NOTIFY, notify);
  }

  method WriteItem(ba: ByteArray, x: Item)
    requires ba.Valid()
    modifies ba, ba.nodes, ba.home.Keys
    ensures ba.Valid() && ba.Wrote(Encode(x))
  {
    hide Varint, Wide, Overwrite, Fixed16, Fixed32, Fixed64, Zigzag32, Zigzag64, Length16, ByteArray.Valid, ByteArray.Shape;
    match x
    case Text(t) => WriteStringF16(ba, t);
    case Request(sn, cmd) => SerializeRequest(ba, sn, cmd);
    case Notify(n) => SerializeNotify(ba, n);
    case _ => WriteNumber(ba, x);
  }

  method WriteNumber(ba: ByteArray, x: Item)
    requires ba.Valid() && !x.Text? && !x.Request? && !x.Notify?
    modifies ba, ba.nodes, ba.home.Keys
    ensures ba.Valid() && ba.Wrote(Encode(x))
  {
    hide Varint, Wide, Overwrite, Fixed16, Fixed32, Fixed64, Zigzag32, Zigzag64, Length16, ByteArray.Valid, ByteArray.Shape;
    match x
    case Int8(v) => ba.Write([v]);
    case Int16(v) => WriteFuint16(ba, v);
    case Int32(v) => WriteFuint32(ba, v);
    case Int64(v) => WriteFuint64(ba, v);
    case VarU32(v) => WriteUint32(ba, v);
    case VarU64(v) => WriteUint64(ba, v);
    case VarS32(v) => WriteUint32(ba, Zigzag32(v));
    case VarS64(v) => WriteUint64(ba, Zigzag64(v));
  }

  method WriteAll(ba: ByteArray, xs: seq<Item>)
    requires ba.Valid()
    modifies ba, ba.nodes, ba.home.Keys
    ensures ba.Valid() && ba.Wrote(EncodeAll(xs))
  {
    hide Encode, Overwrite, ByteArray.Shape, ByteArray.Data, ByteArray.CursorAt;
    ghost var d, p := ba.Data(), ba.position;
    OverwriteNothing(d, p);
    var i := 0;
    assert xs[..0] == [];
    while i < |xs|
      invariant 0 <= i <= |xs|
      invariant ba.Valid() && ba.Grown()
      invariant ba.position == p + |EncodeAll(xs[..i])|
      invariant ba.Data() == Overwrite(d, p, EncodeAll(xs[..i]))
    {
      EncodeAllSnoc(xs, i);
      Chain(d, p, EncodeAll(xs[..i]), Encode(xs[i]));
      WriteItem(ba, xs[i]);
      i := i + 1;
    }
    assert xs[..i] == xs;
  }

  lemma OverwriteNothing(d: seq<Byte>, p: nat)
    requires p <= |d|
    ensures Overwrite(d, p, []) == d
  {
  }

  lemma {:induction false} EncodeAllSnoc(xs: seq<Item>, i: nat)
    requires i < |xs|
    ensures EncodeAll(xs[..i + 1]) == EncodeAll(xs[..i]) + Encode(xs[i])
    decreases i
  {
    hide Encode;
    var ys := xs[..i + 1];
    if i == 0 {
      assert ys == [xs[0]];
    } else {
      EncodeAllSnoc(xs[1..], i - 1);
      assert ys[1..] == xs[1..][..i] && xs[..i][1..] == xs[1..][..i - 1];
    }
  }

  // ---- readers ----

  method ReadFuint8(ba: ByteArray) returns (r: Result<Byte>)
    requires ba.Valid()
    modifies ba`position, ba`curr
    ensures ba.Valid()
    ensures r.Ok? <==> old(ba.position) < ba.size
    ensures r.Ok? ==> r.value == ba.Data()[old(ba.position)] && ba.position == old(ba.position) + 1
    ensures r.OutOfRange? ==> ba.position == old(ba.position)
  {
    var b := ba.Read(1);
    r := if b.Ok? then Ok(b.value[0]) else OutOfRange;
  }

  method ReadFuint16(ba: ByteArray) returns (r: Result<bv16>)
    requires ba.Valid()
    modifies ba`position, ba`curr
    ensures ba.Valid()
    ensures r.Ok? <==> old(ba.position) + 2 <= ba.size
    ensures r.Ok? ==> r.value == Unfixed16(ba.Data()[old(ba.position)..old(ba.position) + 2])
    ensures ba.position == if r.Ok? then old(ba.position) + 2 else old(ba.position)
  {
    var b := ba.Read(2);
    r := if b.Ok? then Ok(Swap16(LoadLe16(b.value))) else OutOfRange;
  }

  method ReadFuint32(ba: ByteArray) returns (r: Result<bv32>)
    requires ba.Valid()
    modifies ba`position, ba`curr
    ensures ba.Valid()
    ensures r.Ok? <==> old(ba.position) + 4 <= ba.size
    ensures r.Ok? ==> r.value == Unfixed32(ba.Data()[old(ba.position)..old(ba.position) + 4])
    ensures ba.position == if r.Ok? then old(ba.position) + 4 else old(ba.position)
  {
    var b := ba.Read(4);
    r := if b.Ok? then Ok(Swap32(LoadLe32(b.value))) else OutOfRange;
  }

  method ReadFuint64(ba: ByteArray) returns (r: Result<bv64>)
    requires ba.Valid()
    modifies ba`position, ba`curr
    ensures ba.Valid()
    ensures r.Ok? <==> old(ba.position) + 8 <= ba.size
    ensures r.Ok? ==> r.value == Unfixed64(ba.Data()[old(ba.position)..old(ba.position) + 8])
    ensures ba.position == if r.Ok? then old(ba.position) + 8 else old(ba.position)
  {
    var b := ba.Read(8);
    r := if b.Ok? then Ok(Swap64(LoadLe64(b.value))) else OutOfRange;
  }

  /** One `result |= (uint32_t)(b & 0x7f) << 7 * g` of the 32-bit reader, which drops what does not fit the word. */
  function OrGroup32(result: bv32, b: Byte, g: nat): bv32
    requires g < 5
  {
    result | Place32((b & 0x7f) as bv32, g)
  }

  function Place32(x: bv32, g: nat): bv32
    requires g < 5
  {
    if g == 0 then x else if g == 1 then x << 7 else if g == 2 then x << 14 else if g == 3 then x << 21 else x << 28
  }

  lemma {:induction false} Narrow32(acc: bv64, b: Byte, g: nat)
    requires g < 5
    ensures Low32(OrGroup(acc, b, g)) == OrGroup32(Low32(acc), b, g)
  {
    hide Low32, OrGroup, OrGroup32;
    if g == 0 { Narrow32At0(acc, b); } else if g == 1 { Narrow32At1(acc, b); } else if g == 2 { Narrow32At2(acc, b); }
    else if g == 3 { Narrow32At3(acc, b); } else { Narrow32At4(acc, b); }
  }

  lemma {:induction false} Narrow32At0(acc: bv64, b: Byte)
    ensures Low32(OrGroup(acc, b, 0)) == OrGroup32(Low32(acc), b, 0)
  {
  }

  lemma {:induction false} Narrow32At1(acc: bv64, b: Byte)
    ensures Low32(OrGroup(acc, b, 1)) == OrGroup32(Low32(acc), b, 1)
  {
  }

  lemma {:induction false} Narrow32At2(acc: bv64, b: Byte)
    ensures Low32(OrGroup(acc, b, 2)) == OrGroup32(Low32(acc), b, 2)
  {
  }

  lemma {:induction false} Narrow32At3(acc: bv64, b: Byte)
    ensures Low32(OrGroup(acc, b, 3)) == OrGroup32(Low32(acc), b, 3)
  {
  }

  lemma {:induction false} Narrow32At4(acc: bv64, b: Byte)
    ensures Low32(OrGroup(acc, b, 4)) == OrGroup32(Low32(acc), b, 4)
  {
  }

  lemma {:induction false} Low32Zero()
    ensures Low32(0) == 0
  {
  }

  /** readUint32: the varint at the position; on std::out_of_range all remaining bytes are consumed. */
  method ReadUint32(ba: ByteArray) returns (r: Result<bv32>)
    requires ba.Valid()
    modifies ba`position, ba`curr
    ensures ba.Valid()
    ensures var v := DecodeVar32(ba.Data(), old(ba.position));
            if v.Some? then r == Ok(v.value.0) && ba.position == v.value.1
            else r == OutOfRange && ba.position == ba.size
  {
    hide OrGroup, OrGroup32, Low32, ByteArray.Shape, ByteArray.CursorAt;
    ghost var d, p, acc: bv64 := ba.Data(), ba.position, 0;
    var result: bv32 := 0;
    Low32Zero();
    for g := 0 to 5
      invariant ba.Valid() && ba.Data() == d && result == Low32(acc)
      invariant ReadVarint(d, p, 0, 5, 0) == ReadVarint(d, ba.position, g, 5, acc)
    {
      var b := ReadFuint8(ba);
      if b.OutOfRange? {
        return OutOfRange;
      }
      Narrow32(acc, b.value, g);
      result := OrGroup32(result, b.value, g);
      acc := OrGroup(acc, b.value, g);
      if b.value < 0x80 {
        return Ok(result);
      }
    }
    r := Ok(result);
  }

  /** readUint64. */
  method ReadUint64(ba: ByteArray) returns (r: Result<bv64>)
    requires ba.Valid()
    modifies ba`position, ba`curr
    ensures ba.Valid()
    ensures var v := DecodeVar64(ba.Data(), old(ba.position));
            if v.Some? then r == Ok(v.value.0) && ba.position == v.value.1
            else r == OutOfRange && ba.position == ba.size
  {
    hide OrGroup, ByteArray.Shape, ByteArray.CursorAt;
    ghost var d, p := ba.Data(), ba.position;
    var result: bv64 := 0;
    for g := 0 to 10
      invariant ba.Valid() && ba.Data() == d
      invariant ReadVarint(d, p, 0, 10, 0) == ReadVarint(d, ba.position, g, 10, result)
    {
      var b := ReadFuint8(ba);
      if b.OutOfRange? {
        return OutOfRange;
      }
      result := OrGroup(result, b.value, g);
      if b.value < 0x80 {
        return Ok(result);
      }
    }
    r := Ok(result);
  }

  /** readStringF16. A zero-length read at the very end of the chain is what the code must not meet. */
  method ReadStringF16(ba: ByteArray) returns (r: Result<seq<Byte>>)
    requires ba.Valid() && TextSafe(ba.Data(), ba.position, ba.capacity)
    modifies ba`position, ba`curr
    ensures ba.Valid()
    ensures var v := Decode(KText, ba.Data(), old(ba.position));
            if v.Some? then r == Ok(v.value.0.text) && ba.position == v.value.1 else r == OutOfRange
  {
    hide Unfixed16, Size16, ByteArray.Shape, ByteArray.CursorAt;
    var len := ReadFuint16(ba);
    if len.OutOfRange? {
      return OutOfRange;
    }
    r := ba.Read(Size16(len.value));
  }

  ghost predicate TextSafe(d: seq<Byte>, p: nat, capacity: nat)
  {
    p + 2 <= |d| && Size16(Unfixed16(d[p..p + 2])) == 0 ==> p + 2 < capacity
  }

  /** Request::parserFromByteArray. */
  method ParseRequest(ba: ByteArray) returns (r: Result<(bv32, bv32)>)
    requires ba.Valid()
    modifies ba`position, ba`curr
    ensures ba.Valid()
    ensures var v := DecodeRequest(ba.Data(), old(ba.position));
            if v.Some? then r == Ok((v.value.0.sn, v.value.0.cmd)) && ba.position == v.value.1 else r == OutOfRange
  {
    hide DecodeVar32, ByteArray.Shape, ByteArray.CursorAt;
    var sn := ReadUint32(ba);
    if sn.OutOfRange? {
      return OutOfRange;
    }
    var cmd := ReadUint32(ba);
    if cmd.OutOfRange? {
      return OutOfRange;
    }
    r := Ok((sn.value, cmd.value));
  }

  /** Reads one value of the given kind. */
  method ReadItem(ba: ByteArray, k: Kind) returns (r: Option<Item>)
    requires ba.Valid() && (k.KText? ==> TextSafe(ba.Data(), ba.position, ba.capacity))
    modifies ba`position, ba`curr
    ensures ba.Valid()
    ensures var v := Decode(k, ba.Data(), old(ba.position));
            if v.Some? then r == Some(v.value.0) && ba.position == v.value.1 else r == None
  {
    if k.KText? {
      var t := ReadStringF16(ba);
      r := if t.Ok? then Some(Text(t.value)) else None;
    } else if k.KRequest? || k.KNotify? {
      r := ReadFrame(ba, k);
    } else {
      r := ReadNumber(ba, k);
    }
  }

  /** The type byte, then the parser of that message type. */
  method ReadFrame(ba: ByteArray, k: Kind) returns (r: Option<Item>)
    requires ba.Valid() && (k.KRequest? || k.KNotify?)
    modifies ba`position, ba`curr
    ensures ba.Valid()
    ensures var v := Decode(k, ba.Data(), old(ba.position));
            if v.Some? then r == Some(v.value.0) && ba.position == v.value.1 else r == None
  {
    hide DecodeVar32, DecodeVar64, DecodeRequest, ByteArray.Shape, ByteArray.CursorAt;
    hide Unfixed16, Unfixed32, Unfixed64, Size16, Unzigzag32, Unzigzag64;
    var tag := ReadFuint8(ba);
    if tag.OutOfRange? || tag.value != (if k.KRequest? then REQUEST else NOTIFY) {
      return None;
    }
    if k.KRequest? {
      var q := ParseRequest(ba);
      r := if q.Ok? then Some(Request(q.value.0, q.value.1)) else None;
    } else {
      var n := ReadUint32(ba);
      r := if n.Ok? then Some(Notify(n.value)) else None;
    }
  }

  method ReadNumber(ba: ByteArray, k: Kind) returns (r: Option<Item>)
    requires ba.Valid() && !k.KText? && !k.KRequest? && !k.KNotify?
    modifies ba`position, ba`curr
    ensures ba.Valid()
    ensures var v := Decode(k, ba.Data(), old(ba.position));
            if v.Some? then r == Some(v.value.0) && ba.position == v.value.1 else r == None
  {
    hide DecodeVar32, DecodeVar64, DecodeRequest, ByteArray.Shape, ByteArray.CursorAt;
    hide Unfixed16, Unfixed32, Unfixed64, Size16, Unzigzag32, Unzigzag64;
    match k
    case KInt8 => var v := ReadFuint8(ba); r := if v.Ok? then Some(Int8(v.value)) else None;
    case KInt16 => var v := ReadFuint16(ba); r := if v.Ok? then Some(Int16(v.value)) else None;
    case KInt32 => var v := ReadFuint32(ba); r := if v.Ok? then Some(Int32(v.value)) else None;
    case KInt64 => var v := ReadFuint64(ba); r := if v.Ok? then Some(Int64(v.value)) else None;
    case KVarU32 => var v := ReadUint32(ba); r := if v.Ok? then Some(VarU32(v.value)) else None;
    case KVarU64 => var v := ReadUint64(ba); r := if v.Ok? then Some(VarU64(v.value)) else None;
    case KVarS32 => var v := ReadUint32(ba); r := if v.Ok? then Some(VarS32(Unzigzag32(v.value))) else None;
    case KVarS64 => var v := ReadUint64(ba); r := if v.Ok? then Some(VarS64(Unzigzag64(v.value))) else None;
  }

  /** Writes the values at the position, goes back, and reads them with the mirrored readers: the same values
      come back, the readers stop where the writers did, and on a buffer written at its end nothing is left. */
  method RoundTrip(ba: ByteArray, xs: seq<Item>) returns (ys: seq<Item>)
    requires ba.Valid()
    requires forall x :: x in xs ==> Sendable(x) && (x.Text? ==> x.text != [])
    modifies ba, ba.nodes, ba.home.Keys
    ensures ba.Valid() && ys == xs
    ensures ba.position == old(ba.position) + |EncodeAll(xs)|
    ensures ba.Data() == Overwrite(old(ba.Data()), old(ba.position), EncodeAll(xs))
    ensures old(ba.position) == old(ba.size) ==> ba.position == ba.size
  {
    hide Encode, Decode, Overwrite, ByteArray.Shape, ByteArray.CursorAt;
    ghost var p := ba.position;
    var start := ba.position;
    WriteAll(ba, xs);
    OverwriteSlice(old(ba.Data()), p, EncodeAll(xs));
    var at := ba.SetPosition(start);
    ys := ReadAll(ba, xs);
  }

  /** The mirrored reads. */
  method ReadAll(ba: ByteArray, xs: seq<Item>) returns (ys: seq<Item>)
    requires ba.Valid() && At(ba.Data(), ba.position, EncodeAll(xs))
    requires forall x :: x in xs ==> Sendable(x) && (x.Text? ==> x.text != [])
    modifies ba`position, ba`curr
    ensures ba.Valid() && ys == xs
    ensures ba.position == old(ba.position) + |EncodeAll(xs)|
  {
    hide Encode, Decode, TextSafe, KindOf, ByteArray.Shape, ByteArray.CursorAt;
    ghost var d, p := ba.Data(), ba.position;
    ys := [];
    var i := 0;
    assert EncodeAll(xs[..0]) == [];
    while i < |xs|
      invariant 0 <= i <= |xs| && ba.Valid() && ba.Data() == d
      invariant ys == xs[..i] && ba.position == p + |EncodeAll(xs[..i])|
    {
      EncodeAllAt(xs, i, d, p);
      NonEmptyTextSafe(d, ba.position, xs[i], ba.capacity);
      ItemInverse(d, ba.position, xs[i]);
      var y := ReadItem(ba, KindOf(xs[i]));
      EncodeAllSnoc(xs, i);
      ys := ys + [y.value];
      i := i + 1;
    }
    assert xs[..i] == xs;
  }

  lemma EncodeAllAt(xs: seq<Item>, i: nat, d: seq<Byte>, p: nat)
    requires i < |xs| && At(d, p, EncodeAll(xs))
    ensures At(d, p + |EncodeAll(xs[..i])|, Encode(xs[i]))
  {
    hide Encode;
    EncodeAllSplit(xs, i + 1);
    AtParts(d, p, EncodeAll(xs[..i + 1]), EncodeAll(xs[i + 1..]));
    EncodeAllSnoc(xs, i);
    AtParts(d, p, EncodeAll(xs[..i]), Encode(xs[i]));
  }

  lemma {:induction false} EncodeAllSplit(xs: seq<Item>, i: nat)
    requires i <= |xs|
    ensures EncodeAll(xs) == EncodeAll(xs[..i]) + EncodeAll(xs[i..])
    decreases i
  {
    hide Encode;
    if i == 0 {
      assert xs[0..] == xs;
    } else {
      EncodeAllSplit(xs[1..], i - 1);
      assert xs[..i][1..] == xs[1..][..i - 1] && xs[i..] == xs[1..][i - 1..];
    }
  }

  lemma NonEmptyTextSafe(d: seq<Byte>, p: nat, x: Item, capacity: nat)
    requires At(d, p, Encode(x)) && Sendable(x) && (x.Text? ==> x.text != [])
    ensures KindOf(x).KText? ==> TextSafe(d, p, capacity)
  {
    hide Fixed16, Unfixed16, Length16, Size16, Encode, At;
    if x.Text? {
      TextSafeAt(d, p, x.text, capacity);
    }
  }

  lemma TextSafeAt(d: seq<Byte>, p: nat, t: seq<Byte>, capacity: nat)
    requires At(d, p, Encode(Text(t))) && |t| < 65536 && t != []
    ensures TextSafe(d, p, capacity)
  {
    hide Fixed16, Unfixed16, Length16, Size16, Fixed32, Fixed64, Varint, Zigzag32, Zigzag64;
    Fixed16Inverse(Length16(|t|));
    Length16Inverse(|t|);
    AtParts(d, p, Fixed16(Length16(|t|)), t);
  }
}
