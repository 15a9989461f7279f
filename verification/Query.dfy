/** `utils::urlEncode` of include/tradier/common/utils.hpp, with a decoder written from sections 2.1
and 2.3 of RFC 3986. */
module Percent {
  import opened Common

  predicate Unreserved(c: Byte) {
    'A' <= c <= 'Z' || 'a' <= c <= 'z' || '0' <= c <= '9' || c == '-' || c == '_' || c == '.' || c == '~'
  }

  function Hex(d: nat): Byte
    requires d < 16
  {
    if d < 10 then '0' + d as char else 'a' + (d - 10) as char
  }

  /** Section 2.1 of RFC 3986: both letter cases are equivalent. */
  function HexValue(c: Byte): (r: Option<nat>)
    ensures r.Some? ==> r.value < 16
  {
    if '0' <= c <= '9' then Some((c - '0') as nat)
    else if 'a' <= c <= 'f' then Some((c - 'a') as nat + 10)
    else if 'A' <= c <= 'F' then Some((c - 'A') as nat + 10)
    else None
  }

  function One(c: Byte): Bytes {
    if Unreserved(c) then [c] else ['%', Hex(c as nat / 16), Hex(c as nat % 16)]
  }

  function Encode(v: Bytes): Bytes { if v == [] then [] else One(v[0]) + Encode(v[1..]) }

  function Decode(s: Bytes): Option<Bytes> {
    if s == [] then Some([])
    else if s[0] != '%' then
      match Decode(s[1..])
      case Some(t) => Some([s[0]] + t)
      case None => None
    else if |s| < 3 then None
    else
      match (HexValue(s[1]), HexValue(s[2]), Decode(s[3..]))
      case (Some(hi), Some(lo), Some(t)) => Some([(hi * 16 + lo) as char] + t)
      case _ => None
  }

  lemma DecodeOne(c: Byte, t: Bytes)
    ensures Decode(One(c) + t) == match Decode(t) case Some(r) => Some([c] + r) case None => None
  {
    var s := One(c) + t;
    if Unreserved(c) {
      assert s[1..] == t;
    } else {
      HexDigits(c);
      assert s[3..] == t;
    }
  }

  lemma HexDigits(c: Byte)
    ensures HexValue(Hex(c as nat / 16)) == Some(c as nat / 16)
    ensures HexValue(Hex(c as nat % 16)) == Some(c as nat % 16)
    ensures (c as nat / 16 * 16 + c as nat % 16) as char == c
  {
  }

  /** Decoding inverts encoding on every byte string. */
  lemma {:induction false} RoundTrip(v: Bytes)
    ensures Decode(Encode(v)) == Some(v)
  {
    if v != [] {
      RoundTrip(v[1..]);
      DecodeOne(v[0], Encode(v[1..]));
      assert v == [v[0]] + v[1..];
    }
  }

  const UPPER: Bytes := "ABCDEFGHIJKLMNOPQRSTUVWXYZ"
  const LOWER: Bytes := "abcdefghijklmnopqrstuvwxyz"
  const DIGITS: Bytes := "0123456789"
  const MARKS: Bytes := "-._~"
  const HEX: Bytes := "0123456789abcdef"

  /** The unreserved characters as section 2.3 of RFC 3986 lists them. */
  predicate Listed(c: Byte) { c in UPPER || c in LOWER || c in DIGITS || c in MARKS }

  lemma UpperIs(c: Byte)
    ensures 'A' <= c <= 'Z' <==> c in UPPER
  {
    assert 'A' <= c <= 'Z' ==> UPPER[(c - 'A') as nat] == c;
  }

  lemma LowerIs(c: Byte)
    ensures 'a' <= c <= 'z' <==> c in LOWER
  {
    assert 'a' <= c <= 'z' ==> LOWER[(c - 'a') as nat] == c;
  }

  lemma DigitIs(c: Byte)
    ensures '0' <= c <= '9' <==> c in DIGITS
  {
    assert '0' <= c <= '9' ==> DIGITS[(c - '0') as nat] == c;
  }

  lemma UnreservedIff(c: Byte)
    ensures Unreserved(c) <==> Listed(c)
  {
    UpperIs(c);
    LowerIs(c);
    DigitIs(c);
  }

  lemma HexIs(d: nat)
    requires d < 16
    ensures Hex(d) == HEX[d]
  {
  }

  /** One byte is copied if it is unreserved, and otherwise becomes '%' and two lower-case
      hexadecimal digits; ... */
  lemma OneByte(c: Byte)
    ensures Encode([c]) == if Listed(c) then [c] else ['%', HEX[c as nat / 16], HEX[c as nat % 16]]
  {
    UnreservedIff(c);
    HexIs(c as nat / 16);
    HexIs(c as nat % 16);
    assert Encode([c]) == One(c) + Encode([]);
  }

  /** ... and texts are encoded piece by piece. */
  lemma {:induction false} EncodeJoin(v: Bytes, w: Bytes)
    ensures Encode(v + w) == Encode(v) + Encode(w)
  {
    if v == [] {
      assert v + w == w;
    } else {
      assert (v + w)[1..] == v[1..] + w;
      EncodeJoin(v[1..], w);
    }
  }

  /** No delimiter survives encoding. */
  lemma {:induction false} Alphabet(v: Bytes)
    ensures forall i :: 0 <= i < |Encode(v)| ==> Unreserved(Encode(v)[i]) || Encode(v)[i] == '%'
  {
    if v != [] { Alphabet(v[1..]); }
  }

  lemma {:induction false} FixedPointForth(v: Bytes)
    requires forall i :: 0 <= i < |v| ==> Unreserved(v[i])
    ensures Encode(v) == v
  {
    if v != [] { FixedPointForth(v[1..]); }
  }

  lemma {:induction false} NeverShorter(v: Bytes)
    ensures |Encode(v)| >= |v|
    ensures |Encode(v)| == |v| ==> forall i :: 0 <= i < |v| ==> Unreserved(v[i])
  {
    if v != [] {
      NeverShorter(v[1..]);
      if |Encode(v)| == |v| {
        forall i | 0 <= i < |v| ensures Unreserved(v[i]) { if i > 0 { assert v[i] == v[1..][i - 1]; } }
      }
    }
  }

  /** A text is left alone exactly when it has only unreserved characters. */
  lemma FixedPoint(v: Bytes)
    ensures Encode(v) == v <==> forall i :: 0 <= i < |v| ==> Unreserved(v[i])
  {
    NeverShorter(v);
    if forall i :: 0 <= i < |v| ==> Unreserved(v[i]) { FixedPointForth(v); }
  }

  lemma {:induction false} EncodeSnoc(v: Bytes, c: Byte)
    ensures Encode(v + [c]) == Encode(v) + One(c)
  {
    if v == [] {
      assert v + [c] == [c];
    } else {
      assert (v + [c])[1..] == v[1..] + [c];
      EncodeSnoc(v[1..], c);
    }
  }

  method UrlEncode(value: Bytes) returns (encoded: Bytes)
    ensures encoded == Encode(value)
  {
    encoded := [];
    for k := 0 to |value|
      invariant encoded == Encode(value[..k])
    {
      var c := value[k];
      EncodeSnoc(value[..k], c);
      assert value[..k + 1] == value[..k] + [c];
      if Unreserved(c) {
        encoded := encoded + [c];
      } else {
        encoded := encoded + ['%'] + [Hex(c as nat / 16)] + [Hex(c as nat % 16)];
      }
    }
    assert value[..|value|] == value;
  }
}

/** The GET/DELETE query of `performRequest` in src/common/http_client.cpp. */
module Query {
  import opened Common
  import Percent

  type Pair = (Bytes, Bytes)

  function PairText(p: Pair): Bytes { Percent.Encode(p.0) + ['='] + Percent.Encode(p.1) }

  function Text(ps: seq<Pair>): Bytes {
    if ps == [] then []
    else if |ps| == 1 then PairText(ps[0])
    else PairText(ps[0]) + ['&'] + Text(ps[1..])
  }

  // ----- reading a query back -----

  function IndexOf(s: Bytes, c: Byte): (i: nat)
    ensures i <= |s| && c !in s[..i] && (i < |s| ==> s[i] == c)
  {
    if s == [] || s[0] == c then 0 else 1 + IndexOf(s[1..], c)
  }

  function ParsePair(s: Bytes): Option<Pair> {
    var k := IndexOf(s, '=');
    if k == |s| then None
    else match (Percent.Decode(s[..k]), Percent.Decode(s[k + 1..]))
      case (Some(key), Some(value)) => Some((key, value))
      case _ => None
  }

  function ParsePieces(s: Bytes): Option<seq<Pair>>
    decreases |s|
  {
    var k := IndexOf(s, '&');
    match ParsePair(s[..k])
    case None => None
    case Some(p) =>
      if k == |s| then Some([p])
      else match ParsePieces(s[k + 1..])
        case Some(rest) => Some([p] + rest)
        case None => None
  }

  function Parse(s: Bytes): Option<seq<Pair>> { if s == [] then Some([]) else ParsePieces(s) }

  lemma {:induction false} IndexOfJoin(s: Bytes, c: Byte, t: Bytes)
    requires c !in s
    ensures IndexOf(s + [c] + t, c) == |s| && IndexOf(s, c) == |s|
  {
    if s != [] {
      assert (s + [c] + t)[1..] == s[1..] + [c] + t;
      IndexOfJoin(s[1..], c, t);
    }
  }

  lemma PairOf(k: Bytes, v: Bytes, p: Pair)
    requires '=' !in k && Percent.Decode(k) == Some(p.0) && Percent.Decode(v) == Some(p.1)
    ensures ParsePair(k + ['='] + v) == Some(p)
  {
    IndexOfJoin(k, '=', v);
    var s := k + ['='] + v;
    assert s[..|k|] == k && s[|k| + 1..] == v;
  }

  lemma NoneOf(c: Byte, v: Bytes)
    requires !Percent.Unreserved(c) && c != '%'
    ensures c !in Percent.Encode(v)
  {
    Percent.Alphabet(v);
  }

  lemma PairBack(p: Pair)
    ensures ParsePair(PairText(p)) == Some(p)
    ensures '&' !in PairText(p)
  {
    Percent.RoundTrip(p.0);
    Percent.RoundTrip(p.1);
    NoneOf('=', p.0);
    PairOf(Percent.Encode(p.0), Percent.Encode(p.1), p);
    NoneOf('&', p.0);
    NoneOf('&', p.1);
  }

  lemma LastPiece(head: Bytes, p: Pair)
    requires '&' !in head && ParsePair(head) == Some(p)
    ensures ParsePieces(head) == Some([p])
  {
    IndexOfJoin(head, '&', []);
    assert head[..|head|] == head;
  }

  lemma FirstPiece(head: Bytes, p: Pair, rest: Bytes, ps: seq<Pair>)
    requires '&' !in head && ParsePair(head) == Some(p) && ParsePieces(rest) == Some(ps)
    ensures ParsePieces(head + ['&'] + rest) == Some([p] + ps)
  {
    IndexOfJoin(head, '&', rest);
    var s := head + ['&'] + rest;
    assert s[..|head|] == head && s[|head| + 1..] == rest;
  }

  lemma JoinedBack(head: Bytes, p: Pair, rest: Bytes, ps: seq<Pair>, text: Bytes, all: seq<Pair>)
    requires '&' !in head && ParsePair(head) == Some(p) && ParsePieces(rest) == Some(ps)
    requires text == head + ['&'] + rest && |all| > 0 && all[0] == p && all[1..] == ps
    ensures ParsePieces(text) == Some(all)
  {
    FirstPiece(head, p, rest, ps);
    assert all == [p] + ps;
  }

  /** The text of a list with a first pair is read back if the rest is. */
  lemma PiecesStep(ps: seq<Pair>)
    requires |ps| > 1 && ParsePieces(Text(ps[1..])) == Some(ps[1..])
    ensures ParsePieces(Text(ps)) == Some(ps)
  {
    PairBack(ps[0]);
    JoinedBack(PairText(ps[0]), ps[0], Text(ps[1..]), ps[1..], Text(ps), ps);
  }

  lemma PiecesOne(p: Pair)
    ensures ParsePieces(Text([p])) == Some([p])
  {
    PairBack(p);
    LastPiece(PairText(p), p);
  }

  lemma {:induction false} PiecesBack(ps: seq<Pair>)
    requires ps != []
    ensures ParsePieces(Text(ps)) == Some(ps)
  {
    if |ps| == 1 {
      PiecesOne(ps[0]);
      assert ps == [ps[0]];
    } else {
      PiecesBack(ps[1..]);
      PiecesStep(ps);
    }
  }

  /** Splitting on '&' and the first '=' and percent-decoding gives back every parameter,
      in order. */
  lemma QueryRoundTrip(ps: seq<Pair>)
    ensures Parse(Text(ps)) == Some(ps)
  {
    if ps != [] { PiecesBack(ps); }
  }

  // ----- std::map -----

  /** The order of `std::string`. */
  predicate Less(a: Bytes, b: Bytes) {
    b != [] && (a == [] || a[0] < b[0] || (a[0] == b[0] && Less(a[1..], b[1..])))
  }

  /** The first difference decides, and a proper prefix comes first. */
  lemma {:induction false} LessIff(a: Bytes, b: Bytes)
    ensures Less(a, b) <==>
      exists k :: 0 <= k <= |a| && k < |b| && a[..k] == b[..k] && (k == |a| || a[k] < b[k])
  {
    assert forall k :: 0 < k <= |a| && k <= |b| ==> a[..k][0] == a[0] && b[..k][0] == b[0];
    if a != [] && b != [] && a[0] == b[0] {
      LessIff(a[1..], b[1..]);
      if k :| 0 <= k <= |a[1..]| && k < |b[1..]| && a[1..][..k] == b[1..][..k] && (k == |a[1..]| || a[1..][k] < b[1..][k]) {
        assert a[..k + 1] == [a[0]] + a[1..][..k] && b[..k + 1] == [b[0]] + b[1..][..k];
      }
      if k :| 0 <= k <= |a| && k < |b| && a[..k] == b[..k] && (k == |a| || a[k] < b[k]) {
        assert a[1..][..k - 1] == a[..k][1..] && b[1..][..k - 1] == b[..k][1..];
      }
    } else if b != [] && (a == [] || a[0] < b[0]) {
      assert a[..0] == b[..0];
    }
  }

  lemma {:induction false} LessTotal(a: Bytes, b: Bytes)
    ensures a == b || Less(a, b) || Less(b, a)
    ensures !(Less(a, b) && Less(b, a)) && !Less(a, a)
  {
    if a != [] && b != [] {
      LessTotal(a[1..], b[1..]);
      if a[0] == b[0] && a[1..] == b[1..] { assert a == [a[0]] + a[1..] == b; }
    }
    if a != [] { LessTotal(a[1..], a[1..]); }
  }

  lemma {:induction false} LessTransitive(a: Bytes, b: Bytes, c: Bytes)
    requires Less(a, b) && Less(b, c)
    ensures Less(a, c)
  {
    if a != [] && a[0] == b[0] == c[0] { LessTransitive(a[1..], b[1..], c[1..]); }
  }

  ghost predicate IsLeast(k: Bytes, keys: set<Bytes>) {
    k in keys && forall j :: j in keys ==> j == k || Less(k, j)
  }

  lemma {:induction false} LeastExists(keys: set<Bytes>)
    requires keys != {}
    ensures exists k :: IsLeast(k, keys)
    decreases |keys|
  {
    var x :| x in keys;
    if keys == {x} {
      assert IsLeast(x, keys);
    } else {
      var rest := keys - {x};
      assert rest != {};
      LeastExists(rest);
      var y :| IsLeast(y, rest);
      LessTotal(x, y);
      forall j | j in keys ensures j == (if Less(x, y) then x else y) || Less(if Less(x, y) then x else y, j) {
        if Less(x, y) && j in rest && j != y { LessTransitive(x, y, j); }
      }
      assert IsLeast(if Less(x, y) then x else y, keys);
    }
  }

  /** The iteration order of a `std::map`. */
  ghost function Entries(m: map<Bytes, Bytes>): seq<Pair>
    decreases |m|
  {
    if m == map[] then []
    else
      LeastExists(m.Keys);
      var k :| IsLeast(k, m.Keys);
      Shrinks(m, k);
      [(k, m[k])] + Entries(m - {k})
  }

  lemma Shrinks(m: map<Bytes, Bytes>, k: Bytes)
    requires k in m
    ensures |m - {k}| < |m|
  {
  }

  ghost function ToMap(ps: seq<Pair>): map<Bytes, Bytes> {
    if ps == [] then map[] else ToMap(ps[1..])[ps[0].0 := ps[0].1]
  }

  ghost predicate Sorted(ps: seq<Pair>) {
    forall i, j :: 0 <= i < j < |ps| ==> Less(ps[i].0, ps[j].0)
  }

  lemma {:induction false} EntriesAreTheMap(m: map<Bytes, Bytes>)
    ensures ToMap(Entries(m)) == m
    ensures Sorted(Entries(m))
    ensures forall i :: 0 <= i < |Entries(m)| ==> Entries(m)[i].0 in m
    decreases |m|
  {
    if m != map[] {
      var es := Entries(m);
      var k := es[0].0;
      assert IsLeast(k, m.Keys);
      Shrinks(m, k);
      EntriesAreTheMap(m - {k});
      assert es[1..] == Entries(m - {k});
      forall i | 0 <= i < |es| ensures es[i].0 in m && (i > 0 ==> Less(k, es[i].0)) {
        if i > 0 { assert es[i] == es[1..][i - 1]; }
      }
      forall i, j | 0 <= i < j < |es| ensures Less(es[i].0, es[j].0) {
        if i > 0 { assert es[i] == es[1..][i - 1] && es[j] == es[1..][j - 1]; }
      }
    }
  }

  /** For every parameter map, the built query gives that map back, in key order; so
      different maps never give the same query. */
  lemma MapRoundTrip(m: map<Bytes, Bytes>)
    ensures Parse(Text(Entries(m))) == Some(Entries(m))
    ensures ToMap(Parse(Text(Entries(m))).value) == m && Sorted(Entries(m))
  {
    QueryRoundTrip(Entries(m));
    EntriesAreTheMap(m);
  }

  lemma MapInjective(m: map<Bytes, Bytes>, n: map<Bytes, Bytes>)
    requires Text(Entries(m)) == Text(Entries(n))
    ensures m == n
  {
    MapRoundTrip(m);
    MapRoundTrip(n);
  }

  lemma {:induction false} TextSnoc(ps: seq<Pair>, p: Pair)
    ensures Text(ps + [p]) == if ps == [] then PairText(p) else Text(ps) + ['&'] + PairText(p)
  {
    if |ps| == 1 {
      assert (ps + [p])[1..] == [p];
    } else if |ps| > 1 {
      assert (ps + [p])[1..] == ps[1..] + [p];
      TextSnoc(ps[1..], p);
    }
  }

  lemma NothingBefore(s: Bytes)
    ensures [] + [] + s == s
  {
  }

  lemma TextStep(ps: seq<Pair>, k: nat)
    requires k < |ps|
    ensures Text(ps[..k + 1]) == Text(ps[..k]) + (if k == 0 then [] else ['&']) + PairText(ps[k])
  {
    assert ps[..k + 1] == ps[..k] + [ps[k]];
    TextSnoc(ps[..k], ps[k]);
    if k == 0 { NothingBefore(PairText(ps[k])); }
  }

  lemma Regroup(a: Bytes, b: Bytes, c: Bytes, d: Bytes)
    ensures a + (b + c + d) == a + b + c + d
  {
  }

  method EncodePair(p: Pair) returns (text: Bytes)
    ensures text == PairText(p)
  {
    var key := Percent.UrlEncode(p.0);
    var value := Percent.UrlEncode(p.1);
    text := key + ['='] + value;
  }

  /** One round of the loop; `url` is a fixed `start` and the query written so far. */
  method AppendPair(url: Bytes, first: bool, p: Pair, ghost start: Bytes, ghost query: Bytes) returns (longer: Bytes)
    requires url == start + query
    ensures longer == start + (query + (if first then [] else ['&']) + PairText(p))
  {
    longer := url;
    if !first {
      longer := longer + ['&'];
    }
    var pair := EncodePair(p);
    longer := longer + pair;
    Regroup(start, query, if first then [] else ['&'], pair);
  }

  /** The loop that appends the parameters, given in iteration order, to the URL. */
  method BuildUrl(base: Bytes, params: seq<Pair>) returns (url: Bytes)
    ensures url == base + if params == [] then [] else ['?'] + Text(params)
  {
    url := base;
    if params != [] {
      url := url + ['?'];
      var first := true;
      ghost var query: Bytes := [];
      for k := 0 to |params|
        invariant first <==> k == 0
        invariant url == base + ['?'] + query && query == Text(params[..k])
      {
        TextStep(params, k);
        url := AppendPair(url, first, params[k], base + ['?'], query);
        query := Text(params[..k + 1]);
        first := false;
      }
      assert params[..|params|] == params;
    }
  }
}
