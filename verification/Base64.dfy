/** `base64Encode` of src/common/utils.cpp and `AuthService::base64UrlEncode` of src/auth.cpp, with
decoders written from sections 4 and 5 of RFC 4648. Masks and shifts on bytes are written
as division and remainder. */
module Base64 {
  import opened Common

  type Sextet = v: nat | v < 64

  // ----- bits: three bytes are four sextets -----

  function S0(a: Byte): Sextet { a as nat / 4 }
  function S1(a: Byte, b: Byte): Sextet { a as nat % 4 * 16 + b as nat / 16 }
  function S2(b: Byte, c: Byte): Sextet { b as nat % 16 * 4 + c as nat / 64 }
  function S3(c: Byte): Sextet { c as nat % 64 }

  function B0(v0: Sextet, v1: Sextet): Byte { (v0 * 4 + v1 / 16) as char }
  function B1(v1: Sextet, v2: Sextet): Byte { (v1 % 16 * 16 + v2 / 4) as char }
  function B2(v2: Sextet, v3: Sextet): Byte { (v2 % 4 * 64 + v3) as char }

  const ZERO: Byte := 0 as char

  /** The sextets of a byte string; a short last group is filled with zero bits. */
  function Sextets(b: Bytes): seq<Sextet> {
    if |b| == 0 then []
    else if |b| == 1 then [S0(b[0]), S1(b[0], ZERO)]
    else if |b| == 2 then [S0(b[0]), S1(b[0], b[1]), S2(b[1], ZERO)]
    else [S0(b[0]), S1(b[0], b[1]), S2(b[1], b[2]), S3(b[2])] + Sextets(b[3..])
  }

  /** The bytes of a sextet string; the fill bits of a short last group must be zero. */
  function Unsextets(v: seq<Sextet>): Option<Bytes> {
    if |v| == 0 then Some([])
    else if |v| == 1 then None
    else if |v| == 2 then (if v[1] % 16 == 0 then Some([B0(v[0], v[1])]) else None)
    else if |v| == 3 then (if v[2] % 4 == 0 then Some([B0(v[0], v[1]), B1(v[1], v[2])]) else None)
    else match Unsextets(v[4..])
      case Some(rest) => Some([B0(v[0], v[1]), B1(v[1], v[2]), B2(v[2], v[3])] + rest)
      case None => None
  }

  lemma BytesOfSextets(a: Byte, b: Byte, c: Byte)
    ensures B0(S0(a), S1(a, b)) == a
    ensures B1(S1(a, b), S2(b, c)) == b
    ensures B2(S2(b, c), S3(c)) == c
    ensures S1(a, ZERO) % 16 == 0 && S2(b, ZERO) % 4 == 0
  {
  }

  lemma SextetsOfBytes(v0: Sextet, v1: Sextet, v2: Sextet, v3: Sextet)
    ensures S0(B0(v0, v1)) == v0
    ensures S1(B0(v0, v1), B1(v1, v2)) == v1
    ensures S2(B1(v1, v2), B2(v2, v3)) == v2
    ensures S3(B2(v2, v3)) == v3
    ensures v1 % 16 == 0 ==> S1(B0(v0, v1), ZERO) == v1
    ensures v2 % 4 == 0 ==> S2(B1(v1, v2), ZERO) == v2
  {
  }

  lemma {:induction false} BitsForth(b: Bytes)
    ensures Unsextets(Sextets(b)) == Some(b)
  {
    if |b| == 1 {
      BytesOfSextets(b[0], ZERO, ZERO);
      assert b == [b[0]];
    } else if |b| == 2 {
      BytesOfSextets(b[0], b[1], ZERO);
      assert b == [b[0], b[1]];
    } else if |b| >= 3 {
      BytesOfSextets(b[0], b[1], b[2]);
      BitsForth(b[3..]);
      assert Sextets(b)[4..] == Sextets(b[3..]);
      assert b == [b[0], b[1], b[2]] + b[3..];
    }
  }

  lemma {:induction false} BitsBack(v: seq<Sextet>, b: Bytes)
    requires Unsextets(v) == Some(b)
    ensures Sextets(b) == v
  {
    if |v| == 2 {
      SextetsOfBytes(v[0], v[1], 0, 0);
    } else if |v| == 3 {
      SextetsOfBytes(v[0], v[1], v[2], 0);
    } else if |v| >= 4 {
      SextetsOfBytes(v[0], v[1], v[2], v[3]);
      BitsBack(v[4..], b[3..]);
    }
  }

  lemma {:induction false} SextetsLength(b: Bytes)
    ensures |Sextets(b)| == (4 * |b| + 2) / 3
  {
    if |b| >= 3 { SextetsLength(b[3..]); }
  }

  lemma {:induction false} SextetsJoin(x: Bytes, y: Bytes)
    requires |x| % 3 == 0
    ensures Sextets(x + y) == Sextets(x) + Sextets(y)
  {
    if x == [] {
      assert x + y == y;
    } else {
      assert (x + y)[3..] == x[3..] + y;
      SextetsJoin(x[3..], y);
    }
  }

  // ----- the alphabet -----

  /** The encoding table of both functions. */
  function Code(v: Sextet): Byte {
    if v < 26 then 'A' + v as char
    else if v < 52 then 'a' + (v - 26) as char
    else if v < 62 then '0' + (v - 52) as char
    else if v == 62 then '+' else '/'
  }

  /** Table 1 of RFC 4648, read backwards. */
  function Value(c: Byte): Option<Sextet> {
    if 'A' <= c <= 'Z' then Some((c - 'A') as nat)
    else if 'a' <= c <= 'z' then Some((c - 'a') as nat + 26)
    else if '0' <= c <= '9' then Some((c - '0') as nat + 52)
    else if c == '+' then Some(62)
    else if c == '/' then Some(63)
    else None
  }

  lemma TablesInverse(c: Byte, v: Sextet)
    ensures Value(c) == Some(v) <==> c == Code(v)
  {
  }

  function Codes(v: seq<Sextet>): (r: Bytes)
    ensures |r| == |v|
  {
    seq(|v|, i requires 0 <= i < |v| => Code(v[i]))
  }

  function Values(s: Bytes): Option<seq<Sextet>> {
    if s == [] then Some([])
    else match (Value(s[0]), Values(s[1..]))
      case (Some(v), Some(rest)) => Some([v] + rest)
      case _ => None
  }

  lemma {:induction false} AlphabetForth(v: seq<Sextet>)
    ensures Values(Codes(v)) == Some(v)
  {
    if v != [] {
      assert Codes(v)[1..] == Codes(v[1..]);
      AlphabetForth(v[1..]);
      TablesInverse(Code(v[0]), v[0]);
      assert v == [v[0]] + v[1..];
    }
  }

  lemma {:induction false} AlphabetBack(s: Bytes, v: seq<Sextet>)
    requires Values(s) == Some(v)
    ensures Codes(v) == s
  {
    if s != [] {
      AlphabetBack(s[1..], v[1..]);
      TablesInverse(s[0], v[0]);
      assert Codes(v)[1..] == Codes(v[1..]);
    }
  }

  // ----- padding -----

  function Padding(n: nat): Bytes {
    if n % 4 == 2 then ['=', '='] else if n % 4 == 3 then ['='] else []
  }

  function Padded(s: Bytes): Bytes { s + Padding(|s|) }

  /** A padded text without its padding: at most two trailing '='. */
  function Unpadded(s: Bytes): Bytes {
    var n := |s|;
    if n >= 2 && s[n - 2] == '=' && s[n - 1] == '=' then s[..n - 2]
    else if n >= 1 && s[n - 1] == '=' then s[..n - 1]
    else s
  }

  lemma PaddingForth(s: Bytes)
    requires '=' !in s
    ensures Unpadded(Padded(s)) == s
  {
  }

  // ----- the encoding and its decoder -----

  function Encode(b: Bytes): Bytes { Padded(Codes(Sextets(b))) }

  /** Section 4 of RFC 4648: whole groups of four, padding only at the end, only alphabet
      characters otherwise, zero fill bits. */
  function Decode(s: Bytes): Option<Bytes> {
    var core := Unpadded(s);
    if s != Padded(core) then None
    else match Values(core)
      case Some(v) => Unsextets(v)
      case None => None
  }

  lemma NoPadInCodes(v: seq<Sextet>)
    ensures '=' !in Codes(v)
  {
  }

  /** For every byte string and every text: the decoder yields exactly the bytes whose
      encoding the text is. */
  lemma RoundTrip(b: Bytes, s: Bytes)
    ensures Decode(s) == Some(b) <==> Encode(b) == s
  {
    if Encode(b) == s {
      NoPadInCodes(Sextets(b));
      PaddingForth(Codes(Sextets(b)));
      AlphabetForth(Sextets(b));
      BitsForth(b);
    }
    if Decode(s) == Some(b) {
      var core := Unpadded(s);
      AlphabetBack(core, Values(core).value);
      BitsBack(Values(core).value, b);
    }
  }

  /** Four characters for every three bytes, rounded up. */
  lemma EncodeLength(b: Bytes)
    ensures |Encode(b)| == (|b| + 2) / 3 * 4
  {
    SextetsLength(b);
    PaddedLength(|b|);
  }

  lemma PaddedLength(n: nat)
    ensures var m := (4 * n + 2) / 3; m + |Padding(m)| == (n + 2) / 3 * 4
  {
    var k, m := n / 3, (4 * n + 2) / 3;
    if n % 3 == 0 {
      assert m == 4 * k && m % 4 == 0;
    } else if n % 3 == 1 {
      assert m == 4 * k + 2 && m % 4 == 2;
    } else {
      assert m == 4 * k + 3 && m % 4 == 3;
    }
  }

  /** The streaming encoder: a three-byte buffer that is flushed when full, and a padded
      final flush. */
  method Base64Encode(input: Bytes) returns (result: Bytes)
    ensures result == Encode(input)
  {
    result := [];
    var i := 0;
    var three := new Byte[3](_ => ZERO);
    ghost var done := 0;
    for k := 0 to |input|
      invariant 0 <= i < 3 && k == done + i && done % 3 == 0
      invariant three[..i] == input[done..k]
      invariant result == Codes(Sextets(input[..done]))
    {
      BufferGrows(three[..], i, input, done);
      three[i] := input[k];
      i := i + 1;
      if i == 3 {
        var four := FullGroup(three, input, done);
        result := result + four;
        i, done := 0, done + 3;
      }
    }
    assert input[done..|input|] == input[done..];
    if i != 0 {
      var last := FinalFlush(three, i, input);
      result := result + last;
    } else {
      NoFlush(input);
    }
  }

  lemma NoFlush(input: Bytes)
    requires |input| % 3 == 0
    ensures Codes(Sextets(input[..|input|])) == Encode(input)
  {
    assert input[..|input|] == input;
    SextetsLength(input);
  }

  lemma BufferGrows(three: Bytes, i: nat, input: Bytes, done: nat)
    requires i < |three| && done + i < |input| && three[..i] == input[done..done + i]
    ensures three[i := input[done + i]][..i + 1] == input[done..done + i + 1]
  {
    assert three[i := input[done + i]][..i + 1] == three[..i] + [input[done + i]];
    assert input[done..done + i + 1] == input[done..done + i] + [input[done + i]];
  }

  /** The four characters of a full buffer. */
  method FullGroup(three: array<Byte>, ghost input: Bytes, ghost k: nat) returns (four: Bytes)
    requires three.Length == 3 && k + 3 <= |input| && k % 3 == 0 && three[..3] == input[k..k + 3]
    ensures Codes(Sextets(input[..k + 3])) == Codes(Sextets(input[..k])) + four
  {
    var sextets := [S0(three[0]), S1(three[0], three[1]), S2(three[1], three[2]), S3(three[2])];
    Flushed(input, k, three[..3], sextets);
    four := Codes(sextets);
  }

  /** The zero fill, the last characters and the padding. */
  method FinalFlush(three: array<Byte>, i: nat, ghost input: Bytes) returns (last: Bytes)
    requires three.Length == 3 && 1 <= i <= 2 && i <= |input| && (|input| - i) % 3 == 0
    requires three[..i] == input[|input| - i..]
    modifies three
    ensures Encode(input) == Codes(Sextets(input[..|input| - i])) + last
  {
    for j := i to 3
      invariant three[..i] == input[|input| - i..]
      invariant forall p :: i <= p < j ==> three[p] == ZERO
    {
      three[j] := ZERO;
    }
    var four := [S0(three[0]), S1(three[0], three[1]), S2(three[1], three[2])];
    FlushedShort(input, i, three[..], four);
    last := Codes(four[..i + 1]);
    for j := i to 3
      invariant last == Codes(four[..i + 1]) + Equals(j - i)
    {
      last := last + ['='];
    }
    assert last == Codes(four[..i + 1]) + if i == 1 then ['=', '='] else ['='];
  }

  function Equals(n: nat): (r: Bytes)
    ensures |r| == n && forall i :: 0 <= i < n ==> r[i] == '='
  {
    seq(n, _ => '=')
  }

  lemma CodesJoin(v: seq<Sextet>, w: seq<Sextet>)
    ensures Codes(v + w) == Codes(v) + Codes(w)
  {
  }

  /** A full buffer adds one group of four. */
  lemma Flushed(input: Bytes, k: nat, three: Bytes, four: seq<Sextet>)
    requires k + 3 <= |input| && k % 3 == 0 && three == input[k..k + 3]
    requires four == [S0(three[0]), S1(three[0], three[1]), S2(three[1], three[2]), S3(three[2])]
    ensures Codes(Sextets(input[..k + 3])) == Codes(Sextets(input[..k])) + Codes(four)
  {
    assert input[..k] + three == input[..k + 3];
    SextetsJoin(input[..k], three);
    assert Sextets(three) == four + Sextets(three[3..]) == four;
    CodesJoin(Sextets(input[..k]), four);
  }

  lemma ShortSextets(tail: Bytes, three: Bytes, four: seq<Sextet>)
    requires 1 <= |tail| <= 2 && |three| == 3 && three[..|tail|] == tail
    requires three[2] == ZERO && (|tail| == 1 ==> three[1] == ZERO)
    requires four == [S0(three[0]), S1(three[0], three[1]), S2(three[1], three[2])]
    ensures Sextets(tail) == four[..|tail| + 1]
  {
  }

  /** The last one or two bytes add two or three characters and the padding. */
  lemma FlushedShort(input: Bytes, i: nat, three: Bytes, four: seq<Sextet>)
    requires 1 <= i <= 2 && i <= |input| && (|input| - i) % 3 == 0
    requires |three| == 3 && three[..i] == input[|input| - i..] && three[2] == ZERO && (i == 1 ==> three[1] == ZERO)
    requires four == [S0(three[0]), S1(three[0], three[1]), S2(three[1], three[2])]
    ensures Encode(input) == Codes(Sextets(input[..|input| - i])) + Codes(four[..i + 1]) + (if i == 1 then ['=', '='] else ['='])
  {
    var n := |input| - i;
    var tail := input[n..];
    assert input[..n] + tail == input;
    SextetsJoin(input[..n], tail);
    ShortSextets(tail, three, four);
    CodesJoin(Sextets(input[..n]), four[..i + 1]);
    SextetsLength(input[..n]);
    ShortPadding(n, i);
  }

  lemma ShortPadding(n: nat, i: nat)
    requires n % 3 == 0 && 1 <= i <= 2
    ensures Padding((4 * n + 2) / 3 + i + 1) == if i == 1 then ['=', '='] else ['=']
  {
    var k := n / 3;
    assert (4 * n + 2) / 3 == 4 * k;
    assert (4 * k + i + 1) % 4 == i + 1;
  }

  // ----- the url form -----

  function Replace(s: Bytes, x: Byte, y: Byte): (r: Bytes)
    ensures |r| == |s| && forall i :: 0 <= i < |s| ==> r[i] == if s[i] == x then y else s[i]
  {
    seq(|s|, i requires 0 <= i < |s| => if s[i] == x then y else s[i])
  }

  function Remove(s: Bytes, x: Byte): Bytes {
    if s == [] then [] else (if s[0] == x then [] else [s[0]]) + Remove(s[1..], x)
  }

  function UrlSafe(s: Bytes): Bytes { Replace(Replace(s, '+', '-'), '/', '_') }

  function Plain(s: Bytes): Bytes { Replace(Replace(s, '-', '+'), '_', '/') }

  function UrlForm(b: Bytes): Bytes { Remove(UrlSafe(Encode(b)), '=') }

  method Base64UrlEncode(input: Bytes) returns (result: Bytes)
    ensures result == UrlForm(input)
  {
    result := Base64Encode(input);
    result := Replace(result, '+', '-');
    result := Replace(result, '/', '_');
    result := Remove(result, '=');
  }

  /** Section 5 of RFC 4648, unpadded: restore the alphabet and the padding, then decode. */
  function UrlDecode(s: Bytes): Option<Bytes> { Decode(Padded(Plain(s))) }

  predicate UrlChar(c: Byte) {
    'A' <= c <= 'Z' || 'a' <= c <= 'z' || '0' <= c <= '9' || c == '-' || c == '_'
  }

  lemma {:induction false} RemoveJoin(s: Bytes, t: Bytes, x: Byte)
    ensures Remove(s + t, x) == Remove(s, x) + Remove(t, x)
  {
    if s == [] {
      assert s + t == t;
    } else {
      assert (s + t)[1..] == s[1..] + t;
      RemoveJoin(s[1..], t, x);
    }
  }

  lemma {:induction false} RemoveNothing(s: Bytes, x: Byte)
    requires x !in s
    ensures Remove(s, x) == s
  {
    if s != [] { RemoveNothing(s[1..], x); }
  }

  lemma {:induction false} NothingButPadding(s: Bytes)
    requires forall i :: 0 <= i < |s| ==> s[i] == '='
    ensures Remove(s, '=') == []
  {
    if s != [] { NothingButPadding(s[1..]); }
  }

  lemma SafeCodes(v: seq<Sextet>)
    ensures forall i :: 0 <= i < |v| ==> UrlChar(UrlSafe(Codes(v))[i])
    ensures Plain(UrlSafe(Codes(v))) == Codes(v)
  {
  }

  lemma UrlFormIsCore(b: Bytes)
    ensures UrlForm(b) == UrlSafe(Codes(Sextets(b)))
  {
    var core := Codes(Sextets(b));
    var pad := Padding(|core|);
    assert UrlSafe(core + pad) == UrlSafe(core) + pad;
    RemoveJoin(UrlSafe(core), pad, '=');
    SafeCodes(Sextets(b));
    RemoveNothing(UrlSafe(core), '=');
    NothingButPadding(pad);
  }

  /** The url form is the padded form with two characters swapped and the padding gone: its
      length, its alphabet, and an RFC decoder that inverts it. */
  lemma UrlRoundTrip(b: Bytes)
    ensures |UrlForm(b)| == (4 * |b| + 2) / 3
    ensures forall i :: 0 <= i < |UrlForm(b)| ==> UrlChar(UrlForm(b)[i])
    ensures UrlDecode(UrlForm(b)) == Some(b)
  {
    UrlFormIsCore(b);
    SextetsLength(b);
    SafeCodes(Sextets(b));
    RoundTrip(b, Encode(b));
  }

  lemma UrlInjective(b: Bytes, c: Bytes)
    requires UrlForm(b) == UrlForm(c)
    ensures b == c
  {
    UrlRoundTrip(b);
    UrlRoundTrip(c);
  }
}
