/** The query-parameter loop of bobliew/http/http.cc (form encoding, section 17.13.4 of HTML 4.01) and the
    case-insensitive parameter map it fills. */
module Query {
  import opened Url

  type Str = seq<Octet>

  // ---- CaseInsensitiveLess ----

  function Lower(c: Octet): Octet { if 'A' <= c <= 'Z' then (c as int + 32) as char else c }

  const NUL: Octet := '\0'

  /** What strcasecmp looks at: lower-cased bytes up to the first NUL. */
  function Fold(s: Str): Str
  {
    if s == [] || s[0] == NUL then [] else [Lower(s[0])] + Fold(s[1..])
  }

  /** For keys without NUL bytes this is the whole key in lower case. */
  lemma {:induction false} FoldIsLower(s: Str)
    requires NUL !in s
    ensures |Fold(s)| == |s| && forall i :: 0 <= i < |s| ==> Fold(s)[i] == Lower(s[i])
  {
    if s != [] {
      FoldIsLower(s[1..]);
    }
  }

  /** strcasecmp(a, b) < 0, comparing the C strings byte by byte as unsigned characters. */
  predicate Less(a: Str, b: Str)
  {
    var endA, endB := a == [] || a[0] == NUL, b == [] || b[0] == NUL;
    if endB then false
    else if endA then true
    else if Lower(a[0]) != Lower(b[0]) then Lower(a[0]) < Lower(b[0])
    else Less(a[1..], b[1..])
  }

  /** The comparator of the map is a strict weak order, and its equivalence is equality of folded keys. */
  lemma {:induction false} LessTotal(a: Str, b: Str)
    ensures !(Less(a, b) && Less(b, a))
    ensures !Less(a, b) && !Less(b, a) <==> Fold(a) == Fold(b)
  {
    if a != [] && b != [] && a[0] != NUL && b[0] != NUL {
      LessTotal(a[1..], b[1..]);
      if Lower(a[0]) == Lower(b[0]) {
        assert Fold(a)[1..] == Fold(a[1..]) && Fold(b)[1..] == Fold(b[1..]);
      } else {
        assert Fold(a)[0] != Fold(b)[0];
      }
    }
  }

  lemma {:induction false} LessTransitive(a: Str, b: Str, c: Str)
    requires Less(a, b) && Less(b, c)
    ensures Less(a, c)
  {
    if a != [] && a[0] != NUL && Lower(a[0]) == Lower(b[0]) == Lower(c[0]) {
      LessTransitive(a[1..], b[1..], c[1..]);
    }
  }

  // ---- what equivalence and order of keys mean ----

  /** Equal bytes, or the two cases of one ASCII letter. */
  predicate SameLetter(a: Octet, b: Octet)
  {
    || a == b
    || ('A' <= a <= 'Z' && b as int == a as int + 32)
    || ('A' <= b <= 'Z' && a as int == b as int + 32)
  }

  predicate SameKey(a: Str, b: Str) { |a| == |b| && forall i :: 0 <= i < |a| ==> SameLetter(a[i], b[i]) }

  lemma LowerMeans(a: Octet, b: Octet)
    ensures Lower(a) == Lower(b) <==> SameLetter(a, b)
  {
  }

  lemma FoldExactPlain(a: Str, b: Str)
    requires NUL !in a && NUL !in b
    ensures Fold(a) == Fold(b) <==> SameKey(a, b)
  {
    hide Fold, SameLetter, Lower;
    FoldIsLower(a);
    FoldIsLower(b);
    forall i | 0 <= i < |a| && i < |b| ensures Lower(a[i]) == Lower(b[i]) <==> SameLetter(a[i], b[i]) {
      LowerMeans(a[i], b[i]);
    }
    if SameKey(a, b) {
      forall i | 0 <= i < |a| ensures Fold(a)[i] == Fold(b)[i] {}
    } else if |a| == |b| && Fold(a) == Fold(b) {
      forall i | 0 <= i < |a| ensures SameLetter(a[i], b[i]) {
        assert Fold(a)[i] == Fold(b)[i];
      }
    }
  }

  /** The part of a key before its first NUL, which is all that strcasecmp sees. */
  function CString(s: Str): (r: Str)
    ensures NUL !in r && r <= s && (|r| < |s| ==> s[|r|] == NUL)
  {
    if s == [] || s[0] == NUL then [] else [s[0]] + CString(s[1..])
  }

  lemma {:induction false} FoldOfCString(s: Str)
    ensures Fold(s) == Fold(CString(s))
  {
    if s != [] && s[0] != NUL {
      FoldOfCString(s[1..]);
      assert CString(s)[1..] == CString(s[1..]);
    }
  }

  /** Two keys are the same for the map exactly when, up to their first NUL, they have the same length and letter by letter
      are equal or differ only in case. */
  lemma KeysAlike(a: Str, b: Str)
    ensures Fold(a) == Fold(b) <==> SameKey(CString(a), CString(b))
    ensures !Less(a, b) && !Less(b, a) <==> SameKey(CString(a), CString(b))
  {
    hide Fold, Less, SameKey, CString;
    FoldOfCString(a);
    FoldOfCString(b);
    FoldExactPlain(CString(a), CString(b));
    LessTotal(a, b);
  }

  /** The place of a byte in the order that strcasecmp uses: upper-case letters count as lower-case ones. */
  function Rank(c: Octet): int { if 65 <= c as int <= 90 then c as int + 32 else c as int }

  /** The keys agree before i, and at i the first one ends or has the smaller letter. */
  predicate SmallerAt(a: Str, b: Str, i: int)
  {
    && 0 <= i <= |a| && i < |b| && (forall j :: 0 <= j < i ==> SameLetter(a[j], b[j]))
    && (i == |a| || Rank(a[i]) < Rank(b[i]))
  }

  /** The order of keys is decided at the first letter that differs. */
  lemma {:induction false} LessExact(a: Str, b: Str)
    requires NUL !in a && NUL !in b
    ensures Less(a, b) <==> exists i :: SmallerAt(a, b, i)
  {
    if b == [] {
    } else if a == [] {
      assert SmallerAt(a, b, 0);
    } else {
      LowerMeans(a[0], b[0]);
      LessExact(a[1..], b[1..]);
      if SameLetter(a[0], b[0]) {
        if Less(a, b) {
          var i :| SmallerAt(a[1..], b[1..], i);
          assert forall j :: 0 < j < i + 1 ==> a[j] == a[1..][j - 1] && b[j] == b[1..][j - 1];
          assert SmallerAt(a, b, i + 1);
        }
        if i :| SmallerAt(a, b, i) {
          assert i > 0;
          assert SmallerAt(a[1..], b[1..], i - 1);
        }
      } else if Less(a, b) {
        assert SmallerAt(a, b, 0);
      }
    }
  }

  // ---- the parameter map: at most one entry per folded key ----

  type Params = map<Str, (Str, Str)>

  /** std::map::insert keeps an existing equivalent key. */
  function Insert(m: Params, key: Str, value: Str): Params
  {
    if Fold(key) in m then m else m[Fold(key) := (key, value)]
  }

  function InsertAll(m: Params, ps: seq<(Str, Str)>): Params
    decreases |ps|
  {
    if ps == [] then m else InsertAll(Insert(m, ps[0].0, ps[0].1), ps[1..])
  }

  /** i is the first pair whose key is equivalent to the folded key k. */
  predicate FirstFor(ps: seq<(Str, Str)>, k: Str, i: int)
  {
    0 <= i < |ps| && Fold(ps[i].0) == k && forall j :: 0 <= j < i ==> Fold(ps[j].0) != k
  }

  /** Inserting a list binds each case-insensitive key to the value it had already or else to its first value
      in the list, and binds nothing else. */
  lemma {:induction false} InsertAllFirst(m: Params, ps: seq<(Str, Str)>, k: Str)
    ensures k in m ==> k in InsertAll(m, ps) && InsertAll(m, ps)[k] == m[k]
    ensures k !in m && k in InsertAll(m, ps) ==> exists i :: FirstFor(ps, k, i) && InsertAll(m, ps)[k] == ps[i]
    ensures k !in m ==> forall i :: FirstFor(ps, k, i) ==> k in InsertAll(m, ps) && InsertAll(m, ps)[k] == ps[i]
    decreases |ps|
  {
    hide Fold;
    if ps != [] {
      var m' := Insert(m, ps[0].0, ps[0].1);
      InsertAllFirst(m', ps[1..], k);
      if k !in m {
        if Fold(ps[0].0) == k {
          assert FirstFor(ps, k, 0);
        } else {
          assert forall i :: FirstFor(ps, k, i) ==> i > 0 && FirstFor(ps[1..], k, i - 1);
          if k in InsertAll(m, ps) {
            var i :| FirstFor(ps[1..], k, i) && InsertAll(m, ps)[k] == ps[1..][i];
            assert FirstFor(ps, k, i + 1);
          }
        }
      }
    }
  }

  // ---- the loop ----

  /** std::string::find(c, from): the first index at or after `from`, |s| standing for npos. */
  method Find(s: Str, c: Octet, from: nat) returns (i: nat)
    requires from <= |s|
    ensures i == IndexFrom(s, c, from)
  {
    i := from;
    while i < |s| && s[i] != c
      invariant from <= i <= |s| && IndexFrom(s, c, from) == IndexFrom(s, c, i)
    {
      i := i + 1;
    }
  }

  function IndexFrom(s: Str, c: Octet, from: nat): (i: nat)
    requires from <= |s|
    ensures from <= i <= |s| && (i < |s| ==> s[i] == c) && (forall j :: from <= j < i ==> s[j] != c)
    decreases |s| - from
  {
    if from == |s| || s[from] == c then from else IndexFrom(s, c, from + 1)
  }

  /** The pairs the loop finds from position `pos` on. */
  function Pairs(s: Str, pos: nat): seq<(Str, Str)>
    requires pos <= |s|
    decreases |s| - pos
  {
    var key := IndexFrom(s, '=', pos);
    if key == |s| then []
    else
      var end := IndexFrom(s, '&', key);
      var pair := (s[pos..key], Decode(s[key + 1..end], true));
      if end == |s| then [pair] else [pair] + Pairs(s, end + 1)
  }

  lemma PairsStep(s: Str, pos: nat)
    requires pos <= |s|
    ensures var key := IndexFrom(s, '=', pos);
            if key == |s| then Pairs(s, pos) == []
            else
              var end := IndexFrom(s, '&', key);
              && Pairs(s, pos) != []
              && Pairs(s, pos)[0] == (s[pos..key], Decode(s[key + 1..end], true))
              && Pairs(s, pos)[1..] == if end == |s| then [] else Pairs(s, end + 1)
  {
  }

  lemma InsertAllStep(m: Params, ps: seq<(Str, Str)>)
    ensures InsertAll(m, []) == m
    ensures ps != [] ==> InsertAll(m, ps) == InsertAll(Insert(m, ps[0].0, ps[0].1), ps[1..])
  {
  }

  /** PARSE_PARAM(str, m, '&',). */
  method ParseParam(str: Str, m: Params) returns (r: Params)
    ensures r == InsertAll(m, Pairs(str, 0))
  {
    hide Pairs, InsertAll, Insert, Decode, IndexFrom;
    r := m;
    var pos: nat := 0;
    while true
      invariant pos <= |str|
      invariant InsertAll(r, Pairs(str, pos)) == InsertAll(m, Pairs(str, 0))
      decreases |str| - pos
    {
      PairsStep(str, pos);
      InsertAllStep(r, Pairs(str, pos));
      var last := pos;
      pos := Find(str, '=', pos);
      if pos == |str| {
        return;
      }
      var key := pos;
      pos := Find(str, '&', pos);
      var value := UrlDecode(str[key + 1..pos], true);
      r := Insert(r, str[last..key], value);
      if pos == |str| {
        InsertAllStep(r, []);
        return;
      }
      pos := pos + 1;
    }
  }

  class HttpRequest {
    var query: Str
    var params: Params
    var parserParamFlag: bv8

    constructor (query: Str)
      ensures this.query == query && params == map[] && parserParamFlag == 0
    {
      this.query := query;
      params := map[];
      parserParamFlag := 0;
    }

    /** initQueryParam: the pairs of the query are inserted once, however often it is called. */
    method InitQueryParam()
      modifies this`params, this`parserParamFlag
      ensures parserParamFlag == old(parserParamFlag) | 1
      ensures params == if old(parserParamFlag) & 1 != 0 then old(params) else InsertAll(old(params), Pairs(query, 0))
    {
      hide Pairs, InsertAll;
      if parserParamFlag & 1 != 0 {
        FlagSet(parserParamFlag);
        return;
      }
      params := ParseParam(query, params);
      parserParamFlag := parserParamFlag | 1;
    }
  }

  lemma FlagSet(f: bv8)
    requires f & 1 != 0
    ensures f == f | 1
  {
  }

  // ---- parsing what was joined ----

  /** key=UrlEncode(value). */
  function Field(p: (Str, Str), f: bool): Str { p.0 + ['='] + Encode(p.1, f) }

  /** The fields joined by '&'. */
  function Join(ps: seq<(Str, Str)>, f: bool): Str
  {
    if ps == [] then [] else if |ps| == 1 then Field(ps[0], f) else Field(ps[0], f) + ['&'] + Join(ps[1..], f)
  }

  lemma {:induction false} IndexOf(s: Str, c: Octet, from: nat, at: nat)
    requires from <= at <= |s| && (at < |s| ==> s[at] == c) && forall j :: from <= j < at ==> s[j] != c
    ensures IndexFrom(s, c, from) == at
  {
  }

  /** Whatever precedes it, a joined list is parsed back into its pairs. */
  lemma {:induction false} PairsOfJoin(pre: Str, ps: seq<(Str, Str)>, f: bool)
    requires forall i :: 0 <= i < |ps| ==> '=' !in ps[i].0
    ensures Pairs(pre + Join(ps, f), |pre|) == ps
    decreases |ps|
  {
    hide Decode, Encode, IndexFrom, Pairs;
    var s := pre + Join(ps, f);
    if ps == [] {
      PairsStep(s, |pre|);
      IndexOf(s, '=', |pre|, |s|);
    } else {
      var field := ps[0].0 + ['='] + Encode(ps[0].1, f);
      var tail := if |ps| == 1 then [] else ['&'] + Join(ps[1..], f);
      assert s == pre + field + tail;
      FirstPair(pre, ps[0].0, ps[0].1, tail, f);
      if |ps| > 1 {
        assert s == pre + field + ['&'] + Join(ps[1..], f);
        PairsOfJoin(pre + field + ['&'], ps[1..], f);
      }
      SameHeadAndTail(Pairs(s, |pre|), ps);
    }
  }

  /** The pair parsed from a field that follows `pre`, and where parsing goes on. */
  lemma FirstPair(pre: Str, k: Str, v: Str, tail: Str, f: bool)
    requires '=' !in k && (tail == [] || tail[0] == '&')
    ensures var field := k + ['='] + Encode(v, f);
            var s := pre + field + tail;
            && |pre + field| <= |s|
            && Pairs(s, |pre|) != []
            && Pairs(s, |pre|)[0] == (k, v)
            && Pairs(s, |pre|)[1..] == if tail == [] then [] else Pairs(s, |pre + field| + 1)
  {
    hide Decode, Encode, IndexFrom, Pairs;
    var s := pre + (k + ['='] + Encode(v, f)) + tail;
    PairsStep(s, |pre|);
    FieldParsed(pre, k, v, tail, f);
    DecodeEncode(v, f, true);
  }

  lemma SameHeadAndTail(a: seq<(Str, Str)>, b: seq<(Str, Str)>)
    requires a != [] && b != [] && a[0].0 == b[0].0 && a[0].1 == b[0].1 && a[1..] == b[1..]
    ensures a == b
  {
    assert a == [a[0]] + a[1..];
    assert b == [b[0]] + b[1..];
  }

  lemma Middle(a: Str, b: Str, c: Str)
    ensures (a + b + c)[|a|..|a| + |b|] == b
  {
  }

  /** A search from the start of a part without c finds the c right after it, or the end. */
  lemma IndexAfter(a: Str, b: Str, rest: Str, c: Octet)
    requires c !in b && (rest == [] || rest[0] == c)
    ensures IndexFrom(a + b + rest, c, |a|) == |a| + |b|
  {
    hide IndexFrom;
    var s := a + b + rest;
    forall j | |a| <= j < |a| + |b| ensures s[j] != c { assert s[j] == b[j - |a|]; }
    IndexOf(s, c, |a|, |a| + |b|);
  }

  lemma FieldParsed(pre: Str, k: Str, v: Str, tail: Str, f: bool)
    requires '=' !in k && (tail == [] || tail[0] == '&')
    ensures var e := Encode(v, f);
            var s := pre + (k + ['='] + e) + tail;
            var end := |pre| + |k| + 1 + |e|;
            && IndexFrom(s, '=', |pre|) == |pre| + |k|
            && IndexFrom(s, '&', |pre| + |k|) == end
            && s[|pre|..|pre| + |k|] == k && s[|pre| + |k| + 1..end] == e
            && (end == |s| <==> tail == [])
  {
    hide Encode, IndexFrom;
    var e := Encode(v, f);
    EncodeAlphabet(v, f);
    EncodedHasNo(e, f, '&');
    Regrouped(pre, k, e, tail);
    IndexAfter(pre, k, ['='] + e + tail, '=');
    IndexAfter(pre + k, ['='] + e, tail, '&');
    Middle(pre, k, ['='] + e + tail);
    Middle(pre + k + ['='], e, tail);
  }

  lemma Regrouped(pre: Str, k: Str, e: Str, tail: Str)
    ensures var s := pre + (k + ['='] + e) + tail;
            s == pre + k + (['='] + e + tail) && s == (pre + k) + (['='] + e) + tail && s == (pre + k + ['=']) + e + tail
  {
  }

  /** Parsing the join of a list of fields into an empty map binds each folded key to its first value and nothing else. */
  lemma JoinedBindings(ps: seq<(Str, Str)>, f: bool, k: Str)
    requires forall i :: 0 <= i < |ps| ==> '=' !in ps[i].0
    ensures var m := InsertAll(map[], Pairs(Join(ps, f), 0));
            && (k in m <==> exists i :: FirstFor(ps, k, i))
            && (forall i :: FirstFor(ps, k, i) ==> 0 <= i < |ps| && k in m && m[k] == ps[i])
  {
    hide Pairs, Join, InsertAll, Fold;
    PairsOfJoin([], ps, f);
    assert [] + Join(ps, f) == Join(ps, f);
    InsertAllFirst(map[], ps, k);
  }

  /** m_params.find(k): the stored key and its value. */
  function Lookup(m: Params, k: Str): seq<(Str, Str)> { if Fold(k) in m then [m[Fold(k)]] else [] }

  /** i is the first pair whose key is k, case aside. */
  ghost predicate FirstAlike(ps: seq<(Str, Str)>, k: Str, i: int)
  {
    && 0 <= i < |ps| && SameKey(CString(ps[i].0), CString(k))
    && forall j :: 0 <= j < i ==> !SameKey(CString(ps[j].0), CString(k))
  }

  lemma FirstForMeans(ps: seq<(Str, Str)>, k: Str, i: int)
    ensures FirstFor(ps, Fold(k), i) <==> FirstAlike(ps, k, i)
  {
    hide Fold, SameKey, CString;
    forall j | 0 <= j < |ps| ensures Fold(ps[j].0) == Fold(k) <==> SameKey(CString(ps[j].0), CString(k)) {
      KeysAlike(ps[j].0, k);
    }
  }

  /** The central law: after parsing the join of a list of fields, looking up a key finds the first pair whose key is the
      same case aside, with its own spelling and value, and finds nothing when there is none. */
  lemma JoinedQuery(ps: seq<(Str, Str)>, f: bool, k: Str)
    requires forall i :: 0 <= i < |ps| ==> '=' !in ps[i].0
    ensures var r := Lookup(InsertAll(map[], Pairs(Join(ps, f), 0)), k);
            && (r == [] <==> forall i :: 0 <= i < |ps| ==> !SameKey(CString(ps[i].0), CString(k)))
            && (forall i :: FirstAlike(ps, k, i) ==> 0 <= i < |ps| && r == [ps[i]])
  {
    hide Pairs, Join, InsertAll, Fold, SameKey, CString;
    JoinedBindings(ps, f, Fold(k));
    forall i ensures FirstFor(ps, Fold(k), i) <==> FirstAlike(ps, k, i) { FirstForMeans(ps, k, i); }
    if j :| 0 <= j < |ps| && SameKey(CString(ps[j].0), CString(k)) {
      var i := FirstIndex(ps, k, j);
      assert FirstFor(ps, Fold(k), i);
    }
  }

  lemma {:induction false} FirstIndex(ps: seq<(Str, Str)>, k: Str, j: nat) returns (i: nat)
    requires j < |ps| && SameKey(CString(ps[j].0), CString(k))
    ensures i <= j && FirstAlike(ps, k, i)
  {
    hide SameKey, CString;
    i := 0;
    while !SameKey(CString(ps[i].0), CString(k))
      invariant i <= j && forall l :: 0 <= l < i ==> !SameKey(CString(ps[l].0), CString(k))
      decreases j - i
    {
      i := i + 1;
    }
  }

  /** What the loop takes from an arbitrary query: nothing when no '=' is left; else the key up to the first '=' and the
      decoded text from there to the next '&' or the end, and then what follows that '&'. */
  lemma PairsExact(s: Str, pos: nat)
    requires pos <= |s|
    ensures Pairs(s, pos) == [] <==> '=' !in s[pos..]
    ensures forall k: nat, e: nat :: pos <= k < e <= |s| && s[k] == '=' && '=' !in s[pos..k] && '&' !in s[k..e] && (e < |s| ==> s[e] == '&') ==>
              Pairs(s, pos) == [(s[pos..k], Decode(s[k + 1..e], true))] + if e == |s| then [] else Pairs(s, e + 1)
  {
    hide Decode, IndexFrom, Pairs;
    PairsStep(s, pos);
    var key := IndexFrom(s, '=', pos);
    if key == |s| {
      assert forall j :: 0 <= j < |s[pos..]| ==> s[pos..][j] == s[pos + j];
    } else {
      assert s[pos..][key - pos] == '=';
    }
    forall k: nat, e: nat | pos <= k < e <= |s| && s[k] == '=' && '=' !in s[pos..k] && '&' !in s[k..e] && (e < |s| ==> s[e] == '&')
      ensures Pairs(s, pos) == [(s[pos..k], Decode(s[k + 1..e], true))] + if e == |s| then [] else Pairs(s, e + 1)
    {
      PairAt(s, pos, k, e);
    }
  }

  lemma PairAt(s: Str, pos: nat, k: nat, e: nat)
    requires pos <= k < e <= |s| && s[k] == '=' && '=' !in s[pos..k] && '&' !in s[k..e] && (e < |s| ==> s[e] == '&')
    ensures Pairs(s, pos) == [(s[pos..k], Decode(s[k + 1..e], true))] + if e == |s| then [] else Pairs(s, e + 1)
  {
    hide Decode, IndexFrom, Pairs;
    PairsStep(s, pos);
    forall j | pos <= j < k ensures s[j] != '=' { assert s[pos..k][j - pos] == s[j]; }
    forall j | k <= j < e ensures s[j] != '&' { assert s[k..e][j - k] == s[j]; }
    IndexOf(s, '=', pos, k);
    IndexOf(s, '&', k, e);
    var ps := Pairs(s, pos);
    assert ps == [ps[0]] + ps[1..];
  }
}
