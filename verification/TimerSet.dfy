/** The comparator of bobliew/timer.cc and the std::set operations it drives, on sequences of keys in set order. */
module TimerSet {

  /** What the comparator sees of a timer: its deadline and its address. */
  datatype Key = Key(next: nat, addr: nat)

  /** Timer::Comparator::operator(). */
  predicate Less(lhs: Key, rhs: Key)
  {
    if lhs.next == 0 && rhs.next == 0 then false
    else if lhs.next == 0 then true
    else if rhs.next == 0 then false
    else if lhs.next < rhs.next then true
    else if rhs.next < lhs.next then false
    else lhs.addr < rhs.addr
  }

  predicate Equivalent(x: Key, y: Key) { !Less(x, y) && !Less(y, x) }

  /** A strict weak order; two different timers are equivalent exactly when both deadlines are zero. */
  lemma LessIsOrder(x: Key, y: Key, z: Key)
    ensures !Less(x, x)
    ensures Less(x, y) && Less(y, z) ==> Less(x, z)
    ensures Equivalent(x, y) && Equivalent(y, z) ==> Equivalent(x, z)
    ensures Equivalent(x, y) <==> x == y || (x.next == 0 && y.next == 0)
  {
  }

  predicate Sorted(ks: seq<Key>) { forall i, j :: 0 <= i < j < |ks| ==> Less(ks[i], ks[j]) }

  /** set::lower_bound: the first key not less than k. */
  function LowerBound(ks: seq<Key>, k: Key): (i: nat)
    ensures i <= |ks|
    ensures forall j :: 0 <= j < i ==> Less(ks[j], k)
    ensures i < |ks| ==> !Less(ks[i], k)
  {
    if ks == [] || !Less(ks[0], k) then 0 else 1 + LowerBound(ks[1..], k)
  }

  lemma LowerBoundSplits(ks: seq<Key>, k: Key, j: nat)
    requires Sorted(ks) && j < |ks|
    ensures Less(ks[j], k) <==> j < LowerBound(ks, k)
  {
    var i := LowerBound(ks, k);
    if i < j {
      LessIsOrder(ks[i], ks[j], k);
    }
  }

  /** set::find: the index of an equivalent key, |ks| standing for end(). */
  function Find(ks: seq<Key>, k: Key): nat
  {
    var i := LowerBound(ks, k);
    if i < |ks| && !Less(k, ks[i]) then i else |ks|
  }

  /** In a sorted set find never misses a member. */
  lemma FindHits(ks: seq<Key>, j: nat)
    requires Sorted(ks) && j < |ks|
    ensures Find(ks, ks[j]) == j
  {
    assert forall i :: 0 <= i < j ==> Less(ks[i], ks[j]);
    LowerBoundSplits(ks, ks[j], j);
    LessIsOrder(ks[j], ks[j], ks[j]);
  }

  /** Some member is equivalent to k, so that inserting k does nothing. */
  predicate Clash(ks: seq<Key>, k: Key) { Find(ks, k) < |ks| }

  lemma ClashMeaning(ks: seq<Key>, k: Key)
    requires Sorted(ks)
    ensures Clash(ks, k) <==> exists j :: 0 <= j < |ks| && Equivalent(ks[j], k)
  {
    if j :| 0 <= j < |ks| && Equivalent(ks[j], k) {
      var i := LowerBound(ks, k);
      LowerBoundSplits(ks, k, j);
      if i < j {
        LessIsOrder(k, ks[i], ks[j]);
      }
    }
  }

  /** A set sorted by key stays sorted when k goes to its lower bound, unless it clashes. */
  lemma InsertSorted(ks: seq<Key>, k: Key)
    requires Sorted(ks) && !Clash(ks, k)
    ensures var i := LowerBound(ks, k); Sorted(ks[..i] + [k] + ks[i..])
  {
    var i := LowerBound(ks, k);
    forall j | i <= j < |ks| ensures Less(k, ks[j]) {
      if i < j {
        LessIsOrder(k, ks[i], ks[j]);
      }
    }
  }

  lemma RemoveSorted(ks: seq<Key>, i: nat)
    requires Sorted(ks) && i < |ks|
    ensures Sorted(ks[..i] + ks[i + 1..])
  {
  }

  /** The loop after lower_bound in listExpireCb: past the keys due exactly now. */
  function SkipEqual(ks: seq<Key>, i: nat, now: nat): (r: nat)
    requires i <= |ks|
    ensures i <= r <= |ks|
    ensures forall j :: i <= j < r ==> ks[j].next == now
    ensures r < |ks| ==> ks[r].next != now
    decreases |ks| - i
  {
    if i < |ks| && ks[i].next == now then SkipEqual(ks, i + 1, now) else i
  }

  /** lower_bound of a probe key with any address, then the skip, separates the due keys from the others. */
  lemma DuePrefix(ks: seq<Key>, now: nat, probe: nat)
    requires Sorted(ks)
    ensures var d := SkipEqual(ks, LowerBound(ks, Key(now, probe)), now);
            forall j :: 0 <= j < |ks| ==> (ks[j].next <= now <==> j < d)
  {
    var k := Key(now, probe);
    var i := LowerBound(ks, k);
    var d := SkipEqual(ks, i, now);
    forall j | 0 <= j < |ks| ensures ks[j].next <= now <==> j < d {
      if d <= j {
        LowerBoundSplits(ks, k, d);
        if d < j {
          assert Less(ks[d], ks[j]);
        }
      }
    }
  }
}
