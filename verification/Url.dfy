/** StringUtil::UrlEncode and UrlDecode of bobliew/util.cc: percent-encoding in the sense of section 2.1 of
    RFC 3986, with the unreserved set of section 2.3 plus '='. */
module Url {

  /** One byte of a std::string. */
  type Octet = c: char | c as int < 256 witness ' '

  /** CHAR_IS_UNRESERVED: the entries of uri_chars that are 1. */
  predicate Unreserved(c: Octet)
  {
    '0' <= c <= '9' || 'A' <= c <= 'Z' || 'a' <= c <= 'z' || c in {'-', '.', '=', '_', '~'}
  }

  /** hexdigits[n]. */
  function HexDigit(n: nat): (c: Octet)
    requires n < 16
  {
    if n < 10 then ('0' as int + n) as char else ('A' as int + n - 10) as char
  }

  /** isxdigit. */
  predicate IsXDigit(c: Octet) { '0' <= c <= '9' || 'A' <= c <= 'F' || 'a' <= c <= 'f' }

  /** The entry of xdigit_chars. */
  function XDigit(c: Octet): (n: nat)
    ensures n < 16
  {
    if '0' <= c <= '9' then c as int - '0' as int
    else if 'A' <= c <= 'F' then c as int - 'A' as int + 10
    else if 'a' <= c <= 'f' then c as int - 'a' as int + 10
    else 0
  }

  // ---- what the two functions compute ----

  function EncodeOctet(c: Octet, spaceAsPlus: bool): (r: seq<Octet>)
  {
    if Unreserved(c) then [c]
    else if c == ' ' && spaceAsPlus then ['+']
    else ['%', HexDigit(c as int / 16), HexDigit(c as int % 16)]
  }

  /** The plain per-byte map. */
  function Encode(s: seq<Octet>, spaceAsPlus: bool): seq<Octet>
  {
    if s == [] then [] else EncodeOctet(s[0], spaceAsPlus) + Encode(s[1..], spaceAsPlus)
  }

  predicate Escape(s: seq<Octet>) { |s| >= 3 && s[0] == '%' && IsXDigit(s[1]) && IsXDigit(s[2]) }

  function Decode(s: seq<Octet>, spaceAsPlus: bool): seq<Octet>
  {
    if s == [] then []
    else if s[0] == '+' && spaceAsPlus then [' '] + Decode(s[1..], spaceAsPlus)
    else if Escape(s) then [(XDigit(s[1]) * 16 + XDigit(s[2])) as char] + Decode(s[3..], spaceAsPlus)
    else [s[0]] + Decode(s[1..], spaceAsPlus)
  }

  // ---- round trip and alphabet ----

  lemma HexInverse(n: nat)
    requires n < 16
    ensures IsXDigit(HexDigit(n)) && XDigit(HexDigit(n)) == n
  {
  }

  /** Decoding an encoded byte in front of anything gives the byte back. */
  lemma DecodeOctet(c: Octet, f: bool, g: bool, rest: seq<Octet>)
    requires f ==> g
    ensures Decode(EncodeOctet(c, f) + rest, g) == [c] + Decode(rest, g)
  {
    var e := EncodeOctet(c, f);
    if Unreserved(c) || (c == ' ' && f) {
      assert (e + rest)[1..] == rest;
    } else {
      HexInverse(c as int / 16);
      HexInverse(c as int % 16);
      assert (e + rest)[3..] == rest;
    }
  }

  /** UrlDecode undoes UrlEncode for every byte string; a decoder that knows '+' also reads what an encoder
      without '+' produced. */
  lemma {:induction false} DecodeEncode(s: seq<Octet>, f: bool, g: bool)
    requires f ==> g
    ensures Decode(Encode(s, f), g) == s
  {
    if s != [] {
      DecodeOctet(s[0], f, g, Encode(s[1..], f));
      DecodeEncode(s[1..], f, g);
    }
  }

  /** A byte outside the two cases above would not survive: with '+' only understood by the encoder, a space
      comes back as '+'. */
  lemma {:induction false} PlusOnlyEncoded(s: seq<Octet>)
    ensures Decode(Encode(s, true), false) == s <==> ' ' !in s
  {
    PlusOnlyEncodedIs(s);
    if ' ' in s {
      var i :| 0 <= i < |s| && s[i] == ' ';
      assert PlusForSpace(s)[i] == '+';
    } else {
      assert PlusForSpace(s) == s;
    }
  }

  function PlusForSpace(s: seq<Octet>): (r: seq<Octet>)
    ensures |r| == |s| && forall i :: 0 <= i < |s| ==> r[i] == if s[i] == ' ' then '+' else s[i]
  {
    if s == [] then [] else [if s[0] == ' ' then '+' else s[0]] + PlusForSpace(s[1..])
  }

  lemma {:induction false} PlusOnlyEncodedIs(s: seq<Octet>)
    ensures Decode(Encode(s, true), false) == PlusForSpace(s)
  {
    if s != [] {
      var rest := Encode(s[1..], true);
      if s[0] == ' ' {
        assert (['+'] + rest)[1..] == rest;
      } else {
        assert EncodeOctet(s[0], true) == EncodeOctet(s[0], false);
        DecodeOctet(s[0], false, false, rest);
      }
      PlusOnlyEncodedIs(s[1..]);
    }
  }

  /** Encoded text: table characters, '%' followed by two upper-case hex digits, and '+' when asked for. */
  predicate Encoded(t: seq<Octet>, spaceAsPlus: bool)
  {
    t == [] ||
    (if t[0] == '%' then |t| >= 3 && UpperHex(t[1]) && UpperHex(t[2]) && Encoded(t[3..], spaceAsPlus)
     else (Unreserved(t[0]) || (t[0] == '+' && spaceAsPlus)) && Encoded(t[1..], spaceAsPlus))
  }

  predicate UpperHex(c: Octet) { '0' <= c <= '9' || 'A' <= c <= 'F' }

  lemma {:induction false} EncodeAlphabet(s: seq<Octet>, f: bool)
    ensures Encoded(Encode(s, f), f)
  {
    if s != [] {
      EncodeAlphabet(s[1..], f);
      var e, rest := EncodeOctet(s[0], f), Encode(s[1..], f);
      assert (e + rest)[|e|..] == rest;
    }
  }

  lemma {:induction false} EncodedHasNo(t: seq<Octet>, f: bool, c: Octet)
    requires Encoded(t, f) && !Unreserved(c) && c != '%' && c != '+'
    ensures c !in t
  {
    if t != [] {
      if t[0] == '%' {
        EncodedHasNo(t[3..], f, c);
        assert t == t[..3] + t[3..];
      } else {
        EncodedHasNo(t[1..], f, c);
      }
    }
  }

  // ---- the loops with their lazily created output ----

  datatype Lazy = Unchanged | Built(text: seq<Octet>)

  /** What the output would be now: the input so far while no string was created. */
  function Output(ss: Lazy, s: seq<Octet>, i: nat): seq<Octet>
    requires i <= |s|
  {
    match ss case Unchanged => s[..i] case Built(t) => t
  }

  // ---- the tables, spelled out ----

  const UPPER: seq<Octet> := ['0', '1', '2', '3', '4', '5', '6', '7', '8', '9', 'A', 'B', 'C', 'D', 'E', 'F']
  const LOWER: seq<Octet> := ['0', '1', '2', '3', '4', '5', '6', '7', '8', '9', 'a', 'b', 'c', 'd', 'e', 'f']

  /** Hexadecimal digits are written in upper case and read in either case. */
  lemma HexTables(n: nat, c: Octet)
    requires n < 16
    ensures HexDigit(n) == UPPER[n] && XDigit(UPPER[n]) == n && XDigit(LOWER[n]) == n && IsXDigit(UPPER[n]) && IsXDigit(LOWER[n])
    ensures IsXDigit(c) <==> XDigit(c) < 16 && (c == UPPER[XDigit(c)] || c == LOWER[XDigit(c)])
  {
  }

  /** The indices at which the table uri_chars holds a one. */
  lemma UnreservedTable(c: Octet)
    ensures var n := c as int;
            Unreserved(c) <==> n == 45 || n == 46 || 48 <= n <= 57 || n == 61 || 65 <= n <= 90 || n == 95 || 97 <= n <= 122 || n == 126
  {
  }

  /** What UrlEncode makes of one byte. */
  lemma EncodeExact(c: Octet, f: bool)
    ensures Encode([c], f) == if Unreserved(c) then [c] else if c == ' ' && f then ['+'] else ['%', UPPER[c as int / 16], UPPER[c as int % 16]]
  {
    HexTables(c as int / 16, c);
    HexTables(c as int % 16, c);
    assert [c][1..] == [] && Encode([], f) == [];
    assert EncodeOctet(c, f) + [] == EncodeOctet(c, f);
  }

  lemma {:induction false} EncodeGrows(s: seq<Octet>, f: bool)
    ensures |Encode(s, f)| >= |s|
  {
    if s != [] { EncodeGrows(s[1..], f); }
  }

  /** Encoding changes nothing exactly when every byte is unreserved. */
  lemma {:induction false} EncodeIdentity(s: seq<Octet>, f: bool)
    ensures Encode(s, f) == s <==> forall i :: 0 <= i < |s| ==> Unreserved(s[i])
  {
    if s != [] {
      var rest := Encode(s[1..], f);
      EncodeIdentity(s[1..], f);
      EncodeGrows(s[1..], f);
      if Unreserved(s[0]) {
        assert Encode(s, f)[1..] == rest;
        assert forall i :: 0 < i < |s| ==> s[i] == s[1..][i - 1];
        assert s == [s[0]] + s[1..];
        assert (forall i :: 0 <= i < |s| ==> Unreserved(s[i])) <==> forall i :: 0 <= i < |s[1..]| ==> Unreserved(s[1..][i]);
      } else {
        assert s[0] == ' ' && f ==> Encode(s, f)[0] == '+';
        assert !(s[0] == ' ' && f) ==> |Encode(s, f)| == 3 + |rest|;
      }
    }
  }

  /** What UrlDecode makes of the first byte: an escape with two hexadecimal digits, in either case, is the byte with that
      number; a percent sign without them stays; a plus is a space when asked for; everything else stays. */
  lemma DecodeExact(s: seq<Octet>, g: bool)
    requires s != []
    ensures forall h: nat, l: nat :: h < 16 && l < 16 && |s| >= 3 && s[0] == '%' && s[1] in [UPPER[h], LOWER[h]] && s[2] in [UPPER[l], LOWER[l]] ==>
              Decode(s, g) == [(16 * h + l) as char] + Decode(s[3..], g)
    ensures s[0] == '%' && !(|s| >= 3 && s[1] in UPPER + LOWER && s[2] in UPPER + LOWER) ==> Decode(s, g) == ['%'] + Decode(s[1..], g)
    ensures s[0] == '+' ==> Decode(s, g) == [if g then ' ' else '+'] + Decode(s[1..], g)
    ensures s[0] != '%' && s[0] != '+' ==> Decode(s, g) == [s[0]] + Decode(s[1..], g)
  {
    hide Decode, HexDigit, XDigit;
    forall h: nat, l: nat | h < 16 && l < 16 && |s| >= 3 && s[0] == '%' && s[1] in [UPPER[h], LOWER[h]] && s[2] in [UPPER[l], LOWER[l]]
      ensures Decode(s, g) == [(16 * h + l) as char] + Decode(s[3..], g)
    {
      DecodeEscaped(s, g, h, l);
    }
    if s[0] == '%' {
      DecodePercent(s, g);
    } else {
      DecodePlain(s, g);
    }
  }

  lemma DecodeEscaped(s: seq<Octet>, g: bool, h: nat, l: nat)
    requires h < 16 && l < 16 && |s| >= 3 && s[0] == '%' && s[1] in [UPPER[h], LOWER[h]] && s[2] in [UPPER[l], LOWER[l]]
    ensures Decode(s, g) == [(16 * h + l) as char] + Decode(s[3..], g)
  {
    hide IsXDigit, XDigit, HexDigit;
    HexTables(h, s[1]);
    HexTables(l, s[2]);
  }

  lemma DecodePercent(s: seq<Octet>, g: bool)
    requires s != [] && s[0] == '%'
    ensures !(|s| >= 3 && s[1] in UPPER + LOWER && s[2] in UPPER + LOWER) ==> Decode(s, g) == ['%'] + Decode(s[1..], g)
  {
    hide IsXDigit, XDigit;
    if |s| >= 3 {
      InTables(s[1]);
      InTables(s[2]);
    }
  }

  lemma DecodePlain(s: seq<Octet>, g: bool)
    requires s != [] && s[0] != '%'
    ensures Decode(s, g) == [if s[0] == '+' && g then ' ' else s[0]] + Decode(s[1..], g)
  {
  }

  lemma InTables(c: Octet)
    ensures IsXDigit(c) <==> c in UPPER + LOWER
  {
    HexTables(0, c);
    if IsXDigit(c) {
      assert UPPER[XDigit(c)] in UPPER && LOWER[XDigit(c)] in LOWER;
    } else {
      forall n | 0 <= n < 16 ensures UPPER[n] != c && LOWER[n] != c { HexTables(n, c); }
    }
  }

  lemma {:induction false} EncodeSnoc(s: seq<Octet>, i: nat, f: bool)
    requires i < |s|
    ensures Encode(s[..i + 1], f) == Encode(s[..i], f) + EncodeOctet(s[i], f)
    decreases i
  {
    var t := s[..i + 1];
    if i == 0 {
      assert t == [s[0]];
    } else {
      EncodeSnoc(s[1..], i - 1, f);
      assert t[1..] == s[1..][..i] && s[..i][1..] == s[1..][..i - 1];
    }
  }

  method UrlEncode(str: seq<Octet>, spaceAsPlus: bool) returns (r: seq<Octet>)
    ensures r == Encode(str, spaceAsPlus)
  {
    hide EncodeOctet;
    var ss := Unchanged;
    var i := 0;
    while i < |str|
      invariant 0 <= i <= |str|
      invariant Output(ss, str, i) == Encode(str[..i], spaceAsPlus)
    {
      EncodeSnoc(str, i, spaceAsPlus);
      ss := EncodeOne(str, spaceAsPlus, ss, i);
      i := i + 1;
    }
    assert str[..i] == str;
    r := if ss.Unchanged? then str else ss.text;
  }

  /** The body of the encoder's loop. */
  method EncodeOne(str: seq<Octet>, spaceAsPlus: bool, ss: Lazy, i: nat) returns (ss': Lazy)
    requires i < |str|
    ensures Output(ss', str, i + 1) == Output(ss, str, i) + EncodeOctet(str[i], spaceAsPlus)
  {
    var c := str[i];
    ss' := ss;
    if !Unreserved(c) {
      var t := if ss.Unchanged? then str[..i] else ss.text;
      if c == ' ' && spaceAsPlus {
        t := t + ['+'];
      } else {
        t := t + ['%'];
        t := t + [HexDigit(c as int / 16)];
        t := t + [HexDigit(c as int % 16)];
      }
      ss' := Built(t);
    } else if ss.Built? {
      ss' := Built(ss.text + [c]);
    }
  }

  /** One iteration of the decoder: how many bytes it takes and what it appends. */
  function Step(s: seq<Octet>, i: nat, f: bool): (r: (seq<Octet>, nat))
    requires i < |s|
    ensures i < r.1 <= |s|
  {
    if s[i] == '+' && f then ([' '], i + 1)
    else if Escape(s[i..]) then ([(XDigit(s[i + 1]) * 16 + XDigit(s[i + 2])) as char], i + 3)
    else ([s[i]], i + 1)
  }

  lemma DecodeStep(s: seq<Octet>, i: nat, f: bool)
    requires i < |s|
    ensures Decode(s[i..], f) == Step(s, i, f).0 + Decode(s[Step(s, i, f).1..], f)
  {
    var rest := s[i..];
    assert rest[1..] == s[i + 1..];
    if Escape(rest) {
      assert rest[3..] == s[i + 3..];
    }
  }

  lemma Assoc(a: seq<Octet>, b: seq<Octet>, c: seq<Octet>)
    ensures a + (b + c) == a + b + c
  {
  }

  method UrlDecode(str: seq<Octet>, spaceAsPlus: bool) returns (r: seq<Octet>)
    ensures r == Decode(str, spaceAsPlus)
  {
    hide Decode;
    var ss := Unchanged;
    var i := 0;
    assert str[0..] == str;
    while i < |str|
      invariant 0 <= i <= |str|
      invariant Output(ss, str, i) + Decode(str[i..], spaceAsPlus) == Decode(str, spaceAsPlus)
      decreases |str| - i
    {
      DecodeStep(str, i, spaceAsPlus);
      ghost var step := Step(str, i, spaceAsPlus);
      Assoc(Output(ss, str, i), step.0, Decode(str[step.1..], spaceAsPlus));
      ss, i := DecodeOne(str, spaceAsPlus, ss, i);
    }
    DecodeNothing(spaceAsPlus);
    assert str[i..] == [];
    r := if ss.Unchanged? then str else ss.text;
  }

  lemma DecodeNothing(f: bool)
    ensures Decode([], f) == []
  {
  }

  /** The body of the decoder's loop. */
  method DecodeOne(str: seq<Octet>, spaceAsPlus: bool, ss: Lazy, i: nat) returns (ss': Lazy, next: nat)
    requires i < |str|
    ensures next == Step(str, i, spaceAsPlus).1
    ensures Output(ss', str, next) == Output(ss, str, i) + Step(str, i, spaceAsPlus).0
  {
    var c := str[i];
    ss', next := ss, i;
    if c == '+' && spaceAsPlus {
      var t := if ss.Unchanged? then str[..i] else ss.text;
      ss' := Built(t + [' ']);
    } else if c == '%' && i + 2 < |str| && IsXDigit(str[i + 1]) && IsXDigit(str[i + 2]) {
      var t := if ss.Unchanged? then str[..i] else ss.text;
      ss' := Built(t + [(XDigit(str[i + 1]) * 16 + XDigit(str[i + 2])) as char]);
      next := i + 2;
    } else if ss.Built? {
      ss' := Built(ss.text + [c]);
    }
    next := next + 1;
  }
}
