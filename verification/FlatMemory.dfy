/** Byte-sequence algebra used to describe a chain of equal-size nodes as one flat memory. */
module FlatMemory {

  type Byte = bv8

  /** Memory `m` with the bytes `b` stored at offset `p`. */
  function Put(m: seq<Byte>, p: nat, b: seq<Byte>): (r: seq<Byte>)
    requires p + |b| <= |m|
    ensures |r| == |m|
  {
    m[..p] + b + m[p + |b|..]
  }

  /** A growable buffer `d` after writing `b` at offset `p`: it is extended when `b` runs past its end. */
  function Overwrite(d: seq<Byte>, p: nat, b: seq<Byte>): (r: seq<Byte>)
    requires p <= |d|
    ensures |r| == if p + |b| <= |d| then |d| else p + |b|
  {
    d[..p] + b + (if p + |b| <= |d| then d[p + |b|..] else [])
  }

  // ---- n nodes of b bytes ----

  /** The number of bytes in n nodes of b bytes each. */
  ghost function Span(n: nat, b: nat): nat
  {
    if n == 0 then 0 else Span(n - 1, b) + b
  }

  lemma {:induction false} SpanIsProduct(n: nat, b: nat)
    ensures Span(n, b) == n * b
  {
    if n > 0 {
      SpanIsProduct(n - 1, b);
      assert n * b == (n - 1) * b + b;
    }
  }

  lemma {:induction false} SpanGap(x: nat, y: nat, b: nat)
    requires x < y
    ensures Span(x, b) + b <= Span(y, b)
  {
    if x + 1 < y {
      SpanGap(x, y - 1, b);
    }
  }

  /** The index of the node that holds byte p. */
  ghost function NodeOf(p: nat, b: nat): nat
    requires b > 0
    decreases p
  {
    if p < b then 0 else 1 + NodeOf(p - b, b)
  }

  /** A node index and an in-node offset determine the byte address, and conversely. */
  lemma {:induction false} Address(k: nat, o: nat, b: nat)
    requires o < b
    ensures NodeOf(Span(k, b) + o, b) == k
    ensures (Span(k, b) + o) % b == o && (Span(k, b) + o) / b == k
  {
    SpanIsProduct(k, b);
    DivUnique(Span(k, b) + o, b, k, o);
    if k > 0 {
      Address(k - 1, o, b);
    }
  }

  lemma DivUnique(a: nat, b: nat, k: nat, o: nat)
    requires o < b && a == k * b + o
    ensures a / b == k && a % b == o
  {
    var q, r := a / b, a % b;
    assert q * b + r == k * b + o;
    SpanIsProduct(q, b);
    SpanIsProduct(k, b);
    if q < k {
      SpanGap(q, k, b);
    } else if k < q {
      SpanGap(k, q, b);
    }
  }

  lemma {:induction false} Locate(p: nat, b: nat)
    requires b > 0
    ensures p == Span(NodeOf(p, b), b) + p % b
    ensures NodeOf(p, b) == p / b
    decreases p
  {
    if p >= b {
      Locate(p - b, b);
      Address(NodeOf(p, b), (p - b) % b, b);
    }
  }

  /** An address below the span of n nodes lies in one of them. */
  lemma NodeInRange(p: nat, n: nat, b: nat)
    requires b > 0 && p < Span(n, b)
    ensures NodeOf(p, b) < n
  {
    Locate(p, b);
    if n < NodeOf(p, b) {
      SpanGap(n, NodeOf(p, b), b);
    }
  }

  // ---- concatenated chunks ----

  /** The concatenation of a list of chunks. */
  ghost function Flat(cs: seq<seq<Byte>>): seq<Byte>
  {
    if cs == [] then [] else cs[0] + Flat(cs[1..])
  }

  ghost predicate Even(cs: seq<seq<Byte>>, b: nat)
  {
    forall i :: 0 <= i < |cs| ==> |cs[i]| == b
  }

  lemma {:induction false} FlatLength(cs: seq<seq<Byte>>, b: nat)
    requires Even(cs, b)
    ensures |Flat(cs)| == Span(|cs|, b)
  {
    if cs != [] {
      FlatLength(cs[1..], b);
    }
  }

  lemma {:induction false} FlatAppend(xs: seq<seq<Byte>>, ys: seq<seq<Byte>>)
    ensures Flat(xs + ys) == Flat(xs) + Flat(ys)
  {
    if xs == [] {
      assert xs + ys == ys;
    } else {
      assert (xs + ys)[1..] == xs[1..] + ys;
      FlatAppend(xs[1..], ys);
    }
  }

  /** The chain seen around one node. */
  lemma FlatSplit(cs: seq<seq<Byte>>, b: nat, k: nat)
    requires Even(cs, b) && k < |cs|
    ensures |Flat(cs[..k])| == Span(k, b)
    ensures Flat(cs) == Flat(cs[..k]) + cs[k] + Flat(cs[k + 1..])
  {
    FlatLength(cs[..k], b);
    assert cs == cs[..k] + cs[k..];
    FlatAppend(cs[..k], cs[k..]);
  }

  /** Reading inside one node reads the flat memory. */
  lemma FlatSlice(cs: seq<seq<Byte>>, b: nat, k: nat, o: nat, len: nat)
    requires Even(cs, b) && k < |cs| && o + len <= b
    ensures Span(k, b) + o + len <= |Flat(cs)|
    ensures Flat(cs)[Span(k, b) + o..Span(k, b) + o + len] == cs[k][o..o + len]
  {
    FlatSplit(cs, b, k);
  }

  /** Writing inside one node writes the flat memory and nothing else. */
  lemma FlatPut(cs: seq<seq<Byte>>, b: nat, k: nat, o: nat, piece: seq<Byte>)
    requires Even(cs, b) && k < |cs| && o + |piece| <= b
    ensures Span(k, b) + o + |piece| <= |Flat(cs)|
    ensures Flat(cs[k := Put(cs[k], o, piece)]) == Put(Flat(cs), Span(k, b) + o, piece)
  {
    hide Flat, Span;
    var pre, c, post := Flat(cs[..k]), Put(cs[k], o, piece), Flat(cs[k + 1..]);
    assert |pre| == Span(k, b) && Flat(cs) == pre + cs[k] + post by {
      FlatSplit(cs, b, k);
    }
    assert Flat(cs[k := c]) == pre + c + post by {
      FlatReplace(cs, b, k, c);
    }
    PutMiddle(pre, cs[k], post, o, piece);
  }

  lemma FlatReplace(cs: seq<seq<Byte>>, b: nat, k: nat, c: seq<Byte>)
    requires Even(cs, b) && k < |cs| && |c| == b
    ensures Flat(cs[k := c]) == Flat(cs[..k]) + c + Flat(cs[k + 1..])
  {
    var ds := cs[k := c];
    FlatSplit(ds, b, k);
    assert ds[..k] == cs[..k] && ds[k + 1..] == cs[k + 1..];
  }

  lemma PutMiddle(pre: seq<Byte>, c: seq<Byte>, post: seq<Byte>, o: nat, piece: seq<Byte>)
    requires o + |piece| <= |c|
    ensures pre + Put(c, o, piece) + post == Put(pre + c + post, |pre| + o, piece)
  {
  }

  lemma PutNothing(m: seq<Byte>, p: nat)
    requires p <= |m|
    ensures Put(m, p, []) == m
  {
  }

  /** Storing a prefix and then the following piece is storing the longer prefix. */
  lemma PutTwice(m: seq<Byte>, p: nat, b: seq<Byte>, i: nat, j: nat)
    requires i <= j <= |b| && p + j <= |m|
    ensures Put(Put(m, p, b[..i]), p + i, b[i..j]) == Put(m, p, b[..j])
  {
  }

  /** On the first `size` bytes of a memory that may have grown, storing is overwriting. */
  lemma PutIsOverwrite(was: seq<Byte>, m: seq<Byte>, size: nat, p: nat, b: seq<Byte>)
    requires p <= size <= |was| && was <= m && p + |b| <= |m|
    ensures Put(m, p, b)[..if p + |b| > size then p + |b| else size] == Overwrite(was[..size], p, b)
    ensures forall i :: p + |b| <= i < |was| ==> Put(m, p, b)[i] == was[i]
  {
  }

  lemma OverwriteTwice(d: seq<Byte>, p: nat, a: seq<Byte>, b: seq<Byte>)
    requires p <= |d|
    ensures Overwrite(Overwrite(d, p, a), p + |a|, b) == Overwrite(d, p, a + b)
  {
  }

  lemma OverwriteSlice(d: seq<Byte>, p: nat, b: seq<Byte>)
    requires p <= |d|
    ensures Overwrite(d, p, b)[p..p + |b|] == b
  {
  }
}
