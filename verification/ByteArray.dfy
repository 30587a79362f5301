/** The chained byte buffer of bobliew/bytearray.cc: equal-size nodes, a cached cursor node and
    three counters, specified as one flat memory. */
module ByteArrays {
  import opened FlatMemory

  /** A C++ call that either returns a value or throws std::out_of_range. */
  datatype Result<+T> = Ok(value: T) | OutOfRange

  class Node {
    const data: array<Byte>
    const size: nat
    var next: Node?

    constructor (s: nat)
      ensures data.Length == s && size == s && next == null
      ensures fresh(data)
    {
      data := new Byte[s];
      size := s;
      next := null;
    }
  }

  /** One piece of a scatter/gather list (struct iovec). */
  datatype Iovec = Iovec(base: array<Byte>, off: nat, len: nat)

  ghost function Lengths(iovs: seq<Iovec>): nat
  {
    if iovs == [] then 0 else iovs[0].len + Lengths(iovs[1..])
  }

  lemma {:induction false} LengthsSnoc(iovs: seq<Iovec>, x: Iovec)
    ensures Lengths(iovs + [x]) == Lengths(iovs) + x.len
  {
    if iovs == [] {
      assert iovs + [x] == [x];
    } else {
      assert (iovs + [x])[1..] == iovs[1..] + [x];
      LengthsSnoc(iovs[1..], x);
    }
  }

  ghost function Chunks(ns: seq<Node>, home: map<array<Byte>, nat>): seq<seq<Byte>>
    requires forall i :: 0 <= i < |ns| ==> ns[i].data in home
    reads home.Keys
  {
    seq(|ns|, i reads home.Keys requires 0 <= i < |ns| && ns[i].data in home => ns[i].data[..])
  }

  method Memcpy(dst: array<Byte>, o: nat, src: seq<Byte>)
    requires o + |src| <= dst.Length
    modifies dst
    ensures dst[..] == Put(old(dst[..]), o, src)
  {
    forall i | 0 <= i < |src| {
      dst[o + i] := src[i];
    }
  }

  /** Equal-size nodes linked in a row. `home` maps each node's buffer to the node's place in the row,
      so that no two nodes share a buffer. */
  ghost predicate Linked(ns: seq<Node>, b: nat, home: map<array<Byte>, nat>)
    reads ns
  {
    forall i :: 0 <= i < |ns| ==>
      && ns[i].size == b && ns[i].data.Length == b
      && ns[i].data in home && home[ns[i].data] == i
      && (i + 1 < |ns| ==> ns[i].next == ns[i + 1])
      && (i + 1 == |ns| ==> ns[i].next == null)
  }

  class ByteArray {
    var position: nat
    const baseSize: nat
    var size: nat
    var capacity: nat
    const root: Node
    var curr: Node?
    ghost var nodes: seq<Node>
    ghost var home: map<array<Byte>, nat>

    /** n equal nodes in a row, capacity n * baseSize. */
    ghost predicate Shape()
      reads this`nodes, this`home, this`capacity, nodes
    {
      && baseSize > 0
      && |nodes| > 0 && nodes[0] == root
      && Linked(nodes, baseSize, home)
      && capacity == Span(|nodes|, baseSize)
    }

    /** The cursor is the node of `position`, and null exactly at capacity. */
    ghost predicate Valid()
      reads this, nodes
    {
      && Shape()
      && position <= size <= capacity
      && CursorAt(position, curr)
    }

    ghost predicate CursorAt(p: nat, c: Node?)
      reads this`nodes, this`capacity
    {
      if p == capacity then c == null
      else baseSize > 0 && NodeOf(p, baseSize) < |nodes| && c == nodes[NodeOf(p, baseSize)]
    }

    /** All bytes of the chain, in order. */
    ghost function Memory(): (m: seq<Byte>)
      reads this`nodes, this`home, this`capacity, nodes, home.Keys
      requires Shape()
      ensures |m| == capacity
    {
      FlatLength(Chunks(nodes, home), baseSize);
      Flat(Chunks(nodes, home))
    }

    /** The bytes below `size`: what a reader at position 0 can see. */
    ghost function Data(): (d: seq<Byte>)
      reads this`nodes, this`home, this`capacity, this`size, nodes, home.Keys
      requires Shape() && size <= capacity
      ensures |d| == size
    {
      Memory()[..size]
    }

    constructor (base: nat)
      requires base > 0
      ensures Valid() && fresh(root) && fresh(home.Keys) && nodes == [root]
      ensures baseSize == base && position == 0 && size == 0 && capacity == base
    {
      position := 0;
      baseSize := base;
      size := 0;
      capacity := base;
      var r := new Node(base);
      root := r;
      curr := r;
      nodes := [r];
      home := map[r.data := 0];
    }

    /** Address k * baseSize + o, with the cursor the code keeps there. */
    lemma CursorInNode(k: nat, o: nat)
      requires Shape() && k < |nodes| && o < baseSize
      ensures Span(k, baseSize) + o < capacity
      ensures CursorAt(Span(k, baseSize) + o, nodes[k])
      ensures (Span(k, baseSize) + o) % baseSize == o
    {
      SpanGap(k, |nodes|, baseSize);
      Address(k, o, baseSize);
    }

    lemma CursorPastNode(k: nat)
      requires Shape() && k < |nodes|
      ensures Span(k + 1, baseSize) <= capacity
      ensures CursorAt(Span(k + 1, baseSize), nodes[k].next)
    {
      if k + 1 < |nodes| {
        CursorInNode(k + 1, 0);
      }
    }

    method Clear()
      requires Valid()
      modifies this, nodes, home.Keys
      ensures Valid() && home.Keys <= old(home.Keys)
      ensures position == 0 && size == 0 && capacity == baseSize && nodes == [root]
      ensures Memory() == old(Memory())[..baseSize]
    {
      ghost var cs := Chunks(nodes, home);
      FlatSplit(cs, baseSize, 0);
      assert Flat(cs)[..baseSize] == cs[0] + [] by {
        assert cs[..0] == [];
      }
      position, size := 0, 0;
      capacity := baseSize;
      curr := root;
      root.next := null;
      nodes := [root];
      home := map[root.data := 0];
      assert Chunks(nodes, home) == [cs[0]];
    }

    /** The walk to the end of the chain. */
    method LastNode() returns (tmp: Node)
      requires Shape()
      ensures nodes != [] && tmp == nodes[|nodes| - 1]
    {
      tmp := root;
      ghost var t := 0;
      while tmp.next != null
        invariant 0 <= t < |nodes| && tmp == nodes[t]
        invariant t + 1 < |nodes| ==> tmp.next == nodes[t + 1]
        decreases |nodes| - t
      {
        tmp := tmp.next;
        t := t + 1;
      }
    }

    /** Links one fresh node after the last one. */
    method AppendNode(tail: Node) returns (added: Node)
      requires Shape() && tail == nodes[|nodes| - 1]
      modifies this`capacity, this`nodes, this`home, tail`next
      ensures Shape() && fresh(added) && fresh(added.data)
      ensures nodes == old(nodes) + [added] && home == old(home)[added.data := |old(nodes)|]
      ensures capacity == old(capacity) + baseSize
      ensures old(Memory()) <= Memory()
    {
      hide ByteArray.Memory;
      added := Link(tail);
      MemoryGrows(added);
    }

    method Link(tail: Node) returns (added: Node)
      requires Shape() && tail == nodes[|nodes| - 1]
      modifies this`capacity, this`nodes, this`home, tail`next
      ensures Shape() && fresh(added) && fresh(added.data)
      ensures nodes == old(nodes) + [added] && home == old(home)[added.data := |old(nodes)|]
      ensures capacity == old(capacity) + baseSize
    {
      added := new Node(baseSize);
      tail.next := added;
      capacity := capacity + baseSize;
      home := home[added.data := |nodes|];
      nodes := nodes + [added];
    }

    /** The bytes of the old chain are the first bytes of the longer one. */
    twostate lemma MemoryGrows(new added: Node)
      requires old(Shape()) && Shape() && nodes == old(nodes) + [added] && home == old(home)[added.data := |old(nodes)|]
      requires forall a :: a in old(home) ==> old(allocated(a)) && unchanged(a)
      requires fresh(added.data)
      ensures old(Memory()) <= Memory()
    {
      hide Flat;
      ghost var cs := old(Chunks(nodes, home));
      ghost var now := Chunks(nodes, home);
      forall i | 0 <= i < |cs| ensures now[i] == cs[i] {
        assert nodes[i] == old(nodes)[i] && nodes[i].data in old(home);
        assert now[i] == nodes[i].data[..] && unchanged(nodes[i].data);
      }
      assert now == cs + [added.data[..]];
      FlatAppend(cs, [added.data[..]]);
    }

    /** Links `count` fresh nodes at the end; `first` is the first of them. */
    method Extend(count: nat) returns (first: Node)
      requires Shape() && count > 0
      modifies this`capacity, this`nodes, this`home, nodes
      ensures Shape() && old(nodes) <= nodes && |nodes| == |old(nodes)| + count
      ensures first == nodes[|old(nodes)|]
      ensures forall k :: |old(nodes)| <= k < |nodes| ==> fresh(nodes[k])
      ensures fresh(home.Keys - old(home.Keys)) && old(home.Keys) <= home.Keys
      ensures capacity == old(capacity) + Span(count, baseSize)
      ensures old(Memory()) <= Memory()
    {
      hide ByteArray.Shape, ByteArray.Memory;
      var tail := LastNode();
      tail := AppendNode(tail);
      first := tail;
      ghost var added := [tail];
      var i := 1;
      while i < count
        invariant 1 <= i <= count && |added| == i
        invariant Shape() && nodes == old(nodes) + added
        invariant tail == added[i - 1] && first == added[0]
        invariant forall k :: 0 <= k < i ==> fresh(added[k])
        invariant fresh(home.Keys - old(home.Keys)) && old(home.Keys) <= home.Keys
        invariant capacity == old(capacity) + Span(i, baseSize) && old(Memory()) <= Memory()
      {
        tail := AppendNode(tail);
        added := added + [tail];
        i := i + 1;
      }
      assert forall k :: |old(nodes)| <= k < |nodes| ==> nodes[k] == added[k - |old(nodes)|];
    }

    method AddCapacity(n: nat)
      requires Valid()
      modifies this`capacity, this`curr, this`nodes, this`home, nodes
      ensures Valid()
      ensures old(nodes) <= nodes
      ensures forall k :: |old(nodes)| <= k < |nodes| ==> fresh(nodes[k])
      ensures fresh(home.Keys - old(home.Keys)) && old(home.Keys) <= home.Keys
      ensures if n <= old(capacity) - position then capacity == old(capacity)
              else position + n <= capacity < position + n + baseSize
      ensures old(Memory()) <= Memory()
    {
      hide ByteArray.Shape, ByteArray.Memory;
      ShapeFacts();
      if n == 0 {
        return;
      }
      var avail := capacity - position;
      if avail >= n {
        return;
      }
      var count := (n - avail + baseSize - 1) / baseSize;
      CeilingBounds(n - avail, baseSize);
      var first := Extend(count);
      if avail == 0 {
        curr := first;
      }
      GrownCursor(old(nodes), old(capacity), avail);
    }

    lemma ShapeFacts()
      requires Shape()
      ensures baseSize > 0 && |nodes| > 0 && capacity == Span(|nodes|, baseSize)
    {
    }

    static lemma CeilingBounds(n: nat, b: nat)
      requires n > 0 && b > 0
      ensures (n + b - 1) / b > 0
      ensures n <= Span((n + b - 1) / b, b) < n + b
    {
      SpanIsProduct((n + b - 1) / b, b);
      var q := (n + b - 1) / b;
      assert n + b - 1 == q * b + (n + b - 1) % b;
    }

    lemma GrownCursor(was: seq<Node>, oldCap: nat, avail: nat)
      requires Shape() && position <= oldCap && was < nodes && oldCap == Span(|was|, baseSize) && avail == oldCap - position
      ensures position < capacity
      ensures NodeOf(position, baseSize) < |nodes|
      ensures avail == 0 ==> NodeOf(position, baseSize) == |was|
      ensures avail > 0 ==> NodeOf(position, baseSize) < |was|
    {
      SpanGap(|was|, |nodes|, baseSize);
      NodeInRange(position, |nodes|, baseSize);
      if avail == 0 {
        Address(|was|, 0, baseSize);
      } else {
        NodeInRange(position, |was|, baseSize);
      }
    }

    // ---- plain reading and writing ----

    /** memcpy into one node's buffer. */
    method StoreAt(ghost k: nat, a: array<Byte>, o: nat, piece: seq<Byte>)
      requires Shape() && k < |nodes| && a == nodes[k].data && o + |piece| <= baseSize
      modifies a
      ensures Span(k, baseSize) + o + |piece| <= capacity
      ensures Memory() == Put(old(Memory()), Span(k, baseSize) + o, piece)
    {
      ghost var cs := Chunks(nodes, home);
      assert |Memory()| == capacity;
      FlatPut(cs, baseSize, k, o, piece);
      Memcpy(a, o, piece);
      assert Chunks(nodes, home) == cs[k := a[..]];
    }

    /** The next `len` bytes of buf go to offset o of node k; bpos of them are stored from address p on already. */
    method StoreNext(ghost k: nat, a: array<Byte>, o: nat, buf: seq<Byte>, bpos: nat, len: nat,
                     ghost m: seq<Byte>, ghost p: nat)
      requires Shape() && k < |nodes| && a == nodes[k].data && o + len <= baseSize
      requires bpos + len <= |buf| && p + |buf| <= |m| && Span(k, baseSize) + o == p + bpos
      requires Memory() == Put(m, p, buf[..bpos])
      modifies a
      ensures Memory() == Put(m, p, buf[..bpos + len])
    {
      PutTwice(m, p, buf, bpos, bpos + len);
      StoreAt(k, a, o, buf[bpos..bpos + len]);
    }

    /** memcpy out of one node, appended to what was copied from address p on before. */
    method Load(ghost k: nat, n: Node, o: nat, len: nat, buf: seq<Byte>, ghost p: nat) returns (more: seq<Byte>)
      requires Shape() && k < |nodes| && n == nodes[k] && o + len <= baseSize
      requires p <= Span(k, baseSize) + o <= capacity && buf == Memory()[p..Span(k, baseSize) + o]
      ensures Span(k, baseSize) + o + len <= capacity
      ensures more == Memory()[p..Span(k, baseSize) + o + len]
    {
      assert |Memory()| == capacity;
      FlatSlice(Chunks(nodes, home), baseSize, k, o, len);
      assert Chunks(nodes, home)[k] == n.data[..];
      more := buf + n.data[o..o + len];
    }

    /** A cursor walk stands at address p: offset o of node k, or past the last node. */
    ghost predicate Walking(k: nat, c: Node?, o: nat, p: nat)
      reads this`nodes, this`capacity
    {
      && k <= |nodes| && o < baseSize
      && p == Span(k, baseSize) + o && p <= capacity
      && c == if k < |nodes| then nodes[k] else null
    }

    lemma WalkStart()
      requires Valid() && position < capacity
      ensures var k := NodeOf(position, baseSize);
              k < |nodes| && Walking(k, curr, position % baseSize, position)
      ensures curr != null && curr.size == baseSize
    {
      Locate(position, baseSize);
      NodeInRange(position, |nodes|, baseSize);
    }

    lemma WalkCursor(k: nat, c: Node?, o: nat, p: nat)
      requires Shape() && Walking(k, c, o, p)
      ensures CursorAt(p, c)
    {
      if k < |nodes| {
        CursorInNode(k, o);
      }
    }

    /** A piece of `len` bytes at offset o of node k moves the walk on, into node k + 1 when node k is used up. */
    lemma WalkStep(k: nat, c: Node, o: nat, p: nat, len: nat)
      requires Shape() && Walking(k, c, o, p) && k < |nodes| && o + len <= baseSize
      ensures c.size == baseSize
      ensures if o + len == baseSize then Walking(k + 1, c.next, 0, p + len)
              else Walking(k, c, o + len, p + len)
      ensures o + len == baseSize && p + len < capacity ==> c.next != null && c.next.size == baseSize
    {
      SpanGap(k, |nodes|, baseSize);
      assert k + 1 < |nodes| ==> nodes[k].next == nodes[k + 1];
    }

    /** The bookkeeping after a memcpy of `len` bytes at offset o of the cursor node. */
    method Advance(o: nat, len: nat)
      requires curr != null
      modifies this`position, this`curr
      ensures position == old(position) + len
      ensures curr == if old(curr).size == o + len then old(curr).next else old(curr)
    {
      if curr.size == o + len {
        curr := curr.next;
      }
      position := position + len;
    }

    /** One memcpy of the write loop with the update of position and cursor that follows it. */
    method WritePiece(ghost k: nat, o: nat, buf: seq<Byte>, bpos: nat, len: nat, ghost m: seq<Byte>, ghost p: nat)
      requires Shape() && k < |nodes| && Walking(k, curr, o, position) && o + len <= baseSize
      requires bpos + len <= |buf| && p + |buf| <= |m| && position == p + bpos
      requires Memory() == Put(m, p, buf[..bpos])
      modifies this`position, this`curr, home.Keys
      ensures position == p + bpos + len
      ensures if o + len == baseSize then Walking(k + 1, curr, 0, position) else Walking(k, curr, o + len, position)
      ensures o + len == baseSize && position < capacity ==> curr != null && curr.size == baseSize
      ensures Memory() == Put(m, p, buf[..bpos + len])
    {
      WalkStep(k, curr, o, position, len);
      StoreNext(k, curr.data, o, buf, bpos, len, m, p);
      Advance(o, len);
    }

    /** The copy loop of write, once there is room for all of `buf`. */
    method WriteLoop(buf: seq<Byte>)
      requires Valid() && 0 < |buf| <= capacity - position
      modifies this`position, this`curr, home.Keys
      ensures position == old(position) + |buf| && CursorAt(position, curr)
      ensures Memory() == Put(old(Memory()), old(position), buf)
    {
      ghost var m, p, k: nat := Memory(), position, NodeOf(position, baseSize);
      WalkStart();
      var npos: nat := position % baseSize;
      var ncap: nat := curr.size - npos;
      var bpos: nat, left: nat := 0, |buf|;
      ghost var o: nat := npos;
      assert Put(m, p, buf[..0]) == m;
      while left > 0
        invariant left + bpos == |buf| && position == p + bpos
        invariant Walking(k, curr, o, position)
        invariant left > 0 ==> k < |nodes| && npos == o && ncap == baseSize - o
        invariant Memory() == Put(m, p, buf[..bpos])
      {
        var len := if ncap >= left then left else ncap;
        WritePiece(k, npos, buf, bpos, len, m, p);
        k, o := if o + len == baseSize then k + 1 else k, if o + len == baseSize then 0 else o + len;
        bpos := bpos + len;
        left := left - len;
        if left > 0 {
          ncap := curr.size;
          npos := 0;
        }
      }
      WalkCursor(k, curr, o, position);
      assert buf[..bpos] == buf;
    }

    /** The chain only grew, by fresh nodes. */
    twostate predicate Grown()
      reads this
    {
      && old(nodes) <= nodes
      && (forall k :: |old(nodes)| <= k < |nodes| ==> fresh(nodes[k]))
      && fresh(home.Keys - old(home.Keys)) && old(home.Keys) <= home.Keys
    }

    /** `buf` was written at the old position. */
    twostate predicate Wrote(buf: seq<Byte>)
      requires old(Valid()) && Valid()
      reads this, nodes, home.Keys
    {
      && Grown()
      && position == old(position) + |buf|
      && Data() == Overwrite(old(Data()), old(position), buf)
    }

    /** write: the data becomes the old data overwritten (and possibly extended) at the old position;
        bytes beyond the written range keep their value, and the chain grows no further than needed. */
    method Write(buf: seq<Byte>)
      requires Valid()
      modifies this, nodes, home.Keys
      ensures Valid() && Wrote(buf)
      ensures old(capacity) <= capacity
      ensures forall i :: position <= i < old(capacity) ==> Memory()[i] == old(Memory())[i]
      ensures if |buf| <= old(capacity) - old(position) then capacity == old(capacity)
              else position <= capacity < position + baseSize
    {
      if |buf| == 0 {
        return;
      }
      hide Memory, Shape, CursorAt, Overwrite, Put;
      AddCapacity(|buf|);
      PutIsOverwrite(old(Memory()), Memory(), size, position, buf);
      WriteHere(buf);
    }

    /** write without the growth step. */
    method WriteHere(buf: seq<Byte>)
      requires Valid() && 0 < |buf| <= capacity - position
      modifies this`position, this`curr, this`size, home.Keys
      ensures Valid() && position == old(position) + |buf|
      ensures size == if position > old(size) then position else old(size)
      ensures Memory() == Put(old(Memory()), old(position), buf)
    {
      WriteLoop(buf);
      if position > size {
        size := position;
      }
    }

    /** read: the next bytes, or std::out_of_range and no change. */
    method Read(n: nat) returns (r: Result<seq<Byte>>)
      requires Valid() && (n > 0 || position < capacity)
      modifies this`position, this`curr
      ensures Valid()
      ensures r.Ok? <==> n <= size - old(position)
      ensures r.Ok? ==> r.value == Data()[old(position)..old(position) + n] && position == old(position) + n
      ensures r.OutOfRange? ==> position == old(position) && curr == old(curr)
    {
      hide Memory, Shape, CursorAt;
      if n > size - position {
        return OutOfRange;
      }
      DataIsPrefix(n);
      var buf := ReadLoop(n);
      r := Ok(buf);
    }

    lemma DataIsPrefix(n: nat)
      requires Valid() && n <= size - position
      ensures |Memory()| == capacity && Memory()[position..position + n] == Data()[position..position + n]
    {
    }

    /** The copy loop of read, once `n` bytes are known to be there. */
    method ReadLoop(n: nat) returns (buf: seq<Byte>)
      requires Valid() && n <= capacity - position && position < capacity
      modifies this`position, this`curr
      ensures position == old(position) + n && CursorAt(position, curr)
      ensures buf == Memory()[old(position)..position]
    {
      ghost var p, k: nat := position, NodeOf(position, baseSize);
      WalkStart();
      var npos: nat := position % baseSize;
      var ncap: nat := curr.size - npos;
      var left: nat := n;
      buf := [];
      ghost var o: nat := npos;
      while left > 0
        invariant left + |buf| == n && position == p + |buf|
        invariant Walking(k, curr, o, position)
        invariant left > 0 ==> k < |nodes| && npos == o && ncap == baseSize - o
        invariant buf == Memory()[p..position]
      {
        var len := if ncap >= left then left else ncap;
        buf := ReadPiece(k, npos, len, buf, p);
        k, o := if o + len == baseSize then k + 1 else k, if o + len == baseSize then 0 else o + len;
        left := left - len;
        if left > 0 {
          ncap := curr.size;
          npos := 0;
        }
      }
      WalkCursor(k, curr, o, position);
    }

    /** One memcpy of the read loop with the update of position and cursor that follows it. */
    method ReadPiece(ghost k: nat, o: nat, len: nat, buf: seq<Byte>, ghost p: nat) returns (more: seq<Byte>)
      requires Shape() && k < |nodes| && Walking(k, curr, o, position) && o + len <= baseSize
      requires p <= position && buf == Memory()[p..position]
      modifies this`position, this`curr
      ensures position == old(position) + len
      ensures if o + len == baseSize then Walking(k + 1, curr, 0, position) else Walking(k, curr, o + len, position)
      ensures o + len == baseSize && position < capacity ==> curr != null && curr.size == baseSize
      ensures more == Memory()[p..position]
    {
      WalkStep(k, curr, o, position, len);
      more := Load(k, curr, o, len, buf, p);
      Advance(o, len);
    }

    /** setPosition: any position up to the capacity; the size grows to it. */
    method SetPosition(v: nat) returns (r: Result<()>)
      requires Valid()
      modifies this`position, this`size, this`curr
      ensures Valid()
      ensures r.Ok? <==> v <= capacity
      ensures r.Ok? ==> position == v && size == if v > old(size) then v else old(size)
      ensures r.OutOfRange? ==> position == old(position) && size == old(size) && curr == old(curr)
    {
      if v > capacity {
        return OutOfRange;
      }
      position := v;
      if position > size {
        size := position;
      }
      Seek(v);
      r := Ok(());
    }

    /** The walk of setPosition from the root to the node of `v`. */
    method Seek(v: nat)
      requires Shape() && v <= capacity
      modifies this`curr
      ensures CursorAt(v, curr)
    {
      curr := root;
      var rest: nat := v;
      ghost var k: nat := 0;
      while rest > curr.size
        invariant k < |nodes| && curr == nodes[k] && v == Span(k, baseSize) + rest
        decreases rest
      {
        assert k + 1 < |nodes| ==> curr.next == nodes[k + 1];
        rest := rest - curr.size;
        curr := curr.next;
        k := k + 1;
      }
      if rest == curr.size {
        CursorPastNode(k);
        curr := curr.next;
      } else {
        CursorInNode(k, rest);
      }
    }

    // ---- positional reading ----

    /** The address at which the positional read really starts: it takes the offset of `at`, but in the
        cursor node instead of the node of `at`. */
    ghost function ReadAtStart(at: nat): nat
      reads this`position
      requires baseSize > 0
    {
      Span(NodeOf(position, baseSize), baseSize) + at % baseSize
    }

    /** The positional read starts where it should exactly when `at` lies in the cursor node. */
    lemma ReadAtStartExact(at: nat)
      requires baseSize > 0
      ensures ReadAtStart(at) == at <==> at / baseSize == position / baseSize
    {
      Locate(at, baseSize);
      Locate(position, baseSize);
      Address(NodeOf(position, baseSize), at % baseSize, baseSize);
    }

    /** m_size - position in size_t: past the size the difference wraps. */
    function LeftFrom(at: nat): nat
      reads this`size
    {
      if at <= size then size - at else (size - at) % 0x1_0000_0000_0000_0000
    }

    /** read(buf, n, at): const, so only the result matters. A position past the size wraps and passes the test. */
    method ReadAt(n: nat, at: nat) returns (r: Result<seq<Byte>>)
      requires Valid() && position < capacity
      requires n <= LeftFrom(at) ==> ReadAtStart(at) + n <= capacity
      ensures r.Ok? <==> n <= LeftFrom(at)
      ensures r.Ok? ==> r.value == Memory()[ReadAtStart(at)..ReadAtStart(at) + n]
    {
      if n > LeftFrom(at) {
        return OutOfRange;
      }
      WalkStart();
      ghost var k: nat := NodeOf(position, baseSize);
      CursorInNode(k, at % baseSize);
      var buf := PeekLoop(k, curr, at % baseSize, n);
      r := Ok(buf);
    }

    /** The copy loop of the positional read, walking a local cursor. */
    method PeekLoop(ghost k0: nat, start: Node, offset: nat, n: nat) returns (buf: seq<Byte>)
      requires Shape() && k0 < |nodes| && start == nodes[k0] && offset < baseSize
      requires Span(k0, baseSize) + offset + n <= capacity
      ensures buf == Memory()[Span(k0, baseSize) + offset..Span(k0, baseSize) + offset + n]
    {
      ghost var p, k: nat := Span(k0, baseSize) + offset, k0;
      var npos: nat, ncap: nat := offset, start.size - offset;
      var cur: Node, left: nat := start, n;
      buf := [];
      while left > 0
        invariant left + |buf| == n && buf == Memory()[p..p + |buf|]
        invariant left > 0 ==> k < |nodes| && Walking(k, cur, npos, p + |buf|) && ncap == baseSize - npos
      {
        var len := if ncap >= left then left else ncap;
        WalkStep(k, cur, npos, p + |buf|, len);
        buf := Load(k, cur, npos, len, buf, p);
        left := left - len;
        if left > 0 {
          cur := cur.next;
          ncap := cur.size;
          npos := 0;
          k := k + 1;
        }
      }
    }

    /** toString: everything from the position to the size, without moving. */
    method ToString() returns (s: seq<Byte>)
      requires Valid()
      ensures s == Data()[position..]
    {
      if size - position == 0 {
        return [];
      }
      Locate(position, baseSize);
      var r := ReadAt(size - position, position);
      s := r.value;
    }

    // ---- scatter/gather lists ----

    /** The pieces of `iovs` name consecutive bytes of the memory from address p on. */
    ghost predicate Covers(iovs: seq<Iovec>, p: nat)
      reads this`nodes, this`home
    {
      iovs == [] ||
      var v := iovs[0];
      && v.base in home && home[v.base] < |nodes| && nodes[home[v.base]].data == v.base
      && v.off + v.len <= baseSize && p == Span(home[v.base], baseSize) + v.off
      && Covers(iovs[1..], p + v.len)
    }

    lemma {:induction false} CoversSnoc(iovs: seq<Iovec>, p: nat, v: Iovec)
      requires Covers(iovs, p) && Covers([v], p + Lengths(iovs))
      ensures Covers(iovs + [v], p)
    {
      if iovs == [] {
        assert iovs + [v] == [v];
      } else {
        assert (iovs + [v])[1..] == iovs[1..] + [v];
        CoversSnoc(iovs[1..], p + iovs[0].len, v);
      }
    }

    /** The loop shared by getReadBuffers and getWriteBuffers. */
    method CollectPieces(ghost k0: nat, start: Node, offset: nat, n: nat) returns (iovs: seq<Iovec>)
      requires Shape() && k0 < |nodes| && start == nodes[k0] && offset < baseSize
      requires Span(k0, baseSize) + offset + n <= capacity
      ensures Covers(iovs, Span(k0, baseSize) + offset) && Lengths(iovs) == n
    {
      hide ByteArray.Covers, Lengths;
      CoversNothing(Span(k0, baseSize) + offset);
      ghost var p, k: nat := Span(k0, baseSize) + offset, k0;
      var npos: nat, ncap: nat := offset, start.size - offset;
      var cur: Node, left: nat := start, n;
      iovs := [];
      while left > 0
        invariant left + Lengths(iovs) == n && Covers(iovs, p)
        invariant left > 0 ==> k < |nodes| && Walking(k, cur, npos, p + Lengths(iovs)) && ncap == baseSize - npos
      {
        var len := if ncap >= left then left else ncap;
        var v := Iovec(cur.data, npos, len);
        WalkStep(k, cur, npos, p + Lengths(iovs), len);
        CoversOne(k, v, p + Lengths(iovs));
        CoversSnoc(iovs, p, v);
        LengthsSnoc(iovs, v);
        iovs := iovs + [v];
        left := left - len;
        if left > 0 {
          cur := cur.next;
          ncap := cur.size;
          npos := 0;
          k := k + 1;
        }
      }
    }

    lemma CoversOne(k: nat, v: Iovec, p: nat)
      requires Shape() && k < |nodes| && v.base == nodes[k].data && v.off + v.len <= baseSize && p == Span(k, baseSize) + v.off
      ensures Covers([v], p)
    {
    }

    lemma CoversNothing(p: nat)
      ensures Covers([], p) && Lengths([]) == 0
    {
    }

    /** getReadBuffers: pieces for the next `r` readable bytes, r being `len` cut to what is left to read. */
    method GetReadBuffers(len: nat) returns (iovs: seq<Iovec>, r: nat)
      requires Valid()
      ensures r == (if len > size - position then size - position else len)
      ensures Covers(iovs, position) && Lengths(iovs) == r
      ensures Gather(iovs) == Data()[position..position + r]
    {
      hide Memory, Shape, CursorAt, Covers;
      r := if len > size - position then size - position else len;
      CoversNothing(position);
      if r == 0 {
        return [], 0;
      }
      WalkStart();
      iovs := CollectPieces(NodeOf(position, baseSize), curr, position % baseSize, r);
      GatherCovers(iovs, position);
      DataIsPrefix(r);
    }

    /** The positional overload: pieces from `at`, but cut by what is left after `position`. */
    method GetReadBuffersAt(len: nat, at: nat) returns (iovs: seq<Iovec>, r: nat)
      requires Valid()
      requires var r := if len > size - position then size - position else len; r > 0 ==> at + r <= capacity
      ensures r == (if len > size - position then size - position else len)
      ensures r > 0 ==> Covers(iovs, at) && Gather(iovs) == Memory()[at..at + r]
      ensures Lengths(iovs) == r
    {
      r := if len > size - position then size - position else len;
      if r == 0 {
        return [], 0;
      }
      Locate(at, baseSize);
      NodeInRange(at, |nodes|, baseSize);
      var npos, count := at % baseSize, at / baseSize;
      var cur := root;
      ghost var k: nat := 0;
      while count > 0
        invariant 0 <= count && k + count == NodeOf(at, baseSize) && cur == nodes[k]
      {
        assert cur.next == nodes[k + 1];
        cur := cur.next;
        count := count - 1;
        k := k + 1;
      }
      iovs := CollectPieces(k, cur, npos, r);
      GatherCovers(iovs, at);
    }

    /** The positional overload returns everything readable from `at`, up to `len`, exactly when the cut
        by `position` makes no difference; past the position it can reach beyond the size. */
    static lemma ReadBuffersAtExact(size: nat, position: nat, at: nat, len: nat)
      requires position <= size && at <= size
      ensures var r := if len > size - position then size - position else len;
              && (r == (if len > size - at then size - at else len)
                  <==> at == position || (len <= size - position && len <= size - at))
              && (at <= position ==> at + r <= size)
    {
    }

    /** getWriteBuffers: room for `len` bytes at the position, as pieces; no byte changes. */
    method GetWriteBuffers(len: nat) returns (iovs: seq<Iovec>)
      requires Valid()
      modifies this`capacity, this`curr, this`nodes, this`home, nodes
      ensures Valid()
      ensures old(nodes) <= nodes
      ensures forall k :: |old(nodes)| <= k < |nodes| ==> fresh(nodes[k])
      ensures fresh(home.Keys - old(home.Keys)) && old(home.Keys) <= home.Keys
      ensures old(Memory()) <= Memory()
      ensures position + len <= capacity
      ensures Covers(iovs, position) && Lengths(iovs) == len
    {
      hide Memory, Shape, CursorAt, Covers;
      CoversNothing(position);
      if len == 0 {
        return [];
      }
      AddCapacity(len);
      WalkStart();
      iovs := CollectPieces(NodeOf(position, baseSize), curr, position % baseSize, len);
    }

    /** The bytes a gathering send takes from the pieces. */
    ghost function Gather(iovs: seq<Iovec>): seq<Byte>
      reads set v | v in iovs :: v.base
    {
      if iovs == [] then []
      else (if iovs[0].off + iovs[0].len <= iovs[0].base.Length
            then iovs[0].base[iovs[0].off..iovs[0].off + iovs[0].len] else []) + Gather(iovs[1..])
    }

    lemma PieceInMemory(k: nat, v: Iovec)
      requires Shape() && k < |nodes| && nodes[k].data == v.base && v.off + v.len <= baseSize
      ensures Span(k, baseSize) + v.off + v.len <= capacity
      ensures v.base[v.off..v.off + v.len] == Memory()[Span(k, baseSize) + v.off..Span(k, baseSize) + v.off + v.len]
    {
      assert |Memory()| == capacity;
      FlatSlice(Chunks(nodes, home), baseSize, k, v.off, v.len);
      assert Chunks(nodes, home)[k] == v.base[..];
    }

    lemma {:induction false} GatherCovers(iovs: seq<Iovec>, p: nat)
      requires Shape() && Covers(iovs, p) && p <= capacity
      ensures p + Lengths(iovs) <= capacity
      ensures Gather(iovs) == Memory()[p..p + Lengths(iovs)]
    {
      if iovs != [] {
        PieceInMemory(home[iovs[0].base], iovs[0]);
        GatherCovers(iovs[1..], p + iovs[0].len);
      }
    }

    /** The first piece not used yet, and those after it. */
    lemma NextPiece(iovs: seq<Iovec>, i: nat, q: nat)
      requires i <= |iovs| && Covers(iovs[i..], q) && Lengths(iovs[i..]) > 0
      ensures i < |iovs| && var v := iovs[i];
              && v.base in home && home[v.base] < |nodes| && nodes[home[v.base]].data == v.base
              && v.off + v.len <= baseSize && q == Span(home[v.base], baseSize) + v.off
              && Covers(iovs[i + 1..], q + v.len) && Lengths(iovs[i..]) == v.len + Lengths(iovs[i + 1..])
    {
      assert i < |iovs| ==> iovs[i..][0] == iovs[i] && iovs[i..][1..] == iovs[i + 1..];
    }

    /** A scattering receive: `bytes` fill the pieces in order. */
    method Scatter(iovs: seq<Iovec>, bytes: seq<Byte>, ghost p: nat)
      requires Shape() && Covers(iovs, p) && |bytes| <= Lengths(iovs) && p + |bytes| <= capacity
      modifies home.Keys
      ensures Memory() == Put(old(Memory()), p, bytes)
    {
      hide Memory, Shape, Covers, Put, Lengths;
      ghost var m := Memory();
      PutNothing(m, p);
      assert bytes[..0] == [] && iovs[0..] == iovs;
      var done: nat, i: nat := 0, 0;
      while done < |bytes|
        invariant done <= |bytes| && i <= |iovs| && |m| == capacity
        invariant done < |bytes| ==> Covers(iovs[i..], p + done) && |bytes| - done <= Lengths(iovs[i..])
        invariant Memory() == Put(m, p, bytes[..done])
        decreases |iovs| - i
      {
        NextPiece(iovs, i, p + done);
        var v := iovs[i];
        var len := if v.len < |bytes| - done then v.len else |bytes| - done;
        StoreNext(home[v.base], v.base, v.off, bytes, done, len, m, p);
        done := done + len;
        i := i + 1;
      }
      assert bytes[..done] == bytes;
    }

    /** Zero-copy writing: getWriteBuffers, a receive of n <= len bytes through the pieces, setPosition.
        Contents, size and position end up as plain write leaves them. */
    method ReceiveInto(len: nat, bytes: seq<Byte>)
      requires Valid() && |bytes| <= len
      modifies this, nodes, home.Keys
      ensures Valid() && position == old(position) + |bytes|
      ensures Data() == Overwrite(old(Data()), old(position), bytes)
      ensures old(capacity) <= capacity
      ensures forall i :: position <= i < old(capacity) ==> Memory()[i] == old(Memory())[i]
    {
      hide Memory, Shape, CursorAt, Covers, Overwrite, Put;
      var iovs := GetWriteBuffers(len);
      PutIsOverwrite(old(Memory()), Memory(), size, position, bytes);
      Scatter(iovs, bytes, position);
      var r := SetPosition(position + |bytes|);
    }
  }
}
