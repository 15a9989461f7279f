/** Building the authorization URL and reading the state out of a URL, from src/auth.cpp. */
module AuthUrl {
  import opened Common
  import Percent
  import Query

  const MARK: Bytes := "state="

  predicate Delimiter(c: Byte) { c == '?' || c == '&' }

  predicate AllUnreserved(s: Bytes) { forall i :: 0 <= i < |s| ==> Percent.Unreserved(s[i]) }

  predicate NoDelimiter(s: Bytes) { forall i :: 0 <= i < |s| ==> !Delimiter(s[i]) }

  /** The leftmost match of the regular expression [?&]state=([^&]+), or "". */
  function Extract(s: Bytes): Bytes {
    if s == [] then []
    else if Delimiter(s[0]) && MARK <= s[1..] && |UpToAmp(s[7..])| > 0 then UpToAmp(s[7..])
    else Extract(s[1..])
  }

  function UpToAmp(s: Bytes): Bytes { s[..Query.IndexOf(s, '&')] }

  /** The expression matches at i with v captured: a delimiter, "state=", and a non-empty run
      up to the next '&' or the end. */
  predicate MatchesAt(s: Bytes, i: nat, v: Bytes) {
    && i + 7 + |v| <= |s| && (s[i] == '?' || s[i] == '&') && s[i + 1..i + 7] == "state="
    && v != [] && s[i + 7..i + 7 + |v|] == v && '&' !in v
    && (i + 7 + |v| == |s| || s[i + 7 + |v|] == '&')
  }

  lemma UpToAmpIs(s: Bytes, v: Bytes)
    ensures UpToAmp(s) == v <==> v <= s && '&' !in v && (|v| == |s| || s[|v|] == '&')
  {
    if v <= s && '&' !in v && (|v| == |s| || s[|v|] == '&') {
      assert s == v + s[|v|..];
      UpToAmpStops(v, s[|v|..]);
    }
  }

  lemma MatchHere(s: Bytes, v: Bytes)
    requires s != []
    ensures MatchesAt(s, 0, v) <==> Delimiter(s[0]) && MARK <= s[1..] && v != [] && UpToAmp(s[7..]) == v
  {
    if |s| >= 7 {
      UpToAmpIs(s[7..], v);
      assert s[1..][..6] == s[1..7];
      assert |v| <= |s| - 7 ==> s[7..7 + |v|] == s[7..][..|v|];
    }
  }

  lemma MatchLater(s: Bytes, i: nat, v: Bytes)
    requires s != []
    ensures MatchesAt(s, i + 1, v) <==> MatchesAt(s[1..], i, v)
  {
    if i + 8 + |v| <= |s| {
      assert s[1..][i + 1..i + 7] == s[i + 2..i + 8];
      assert s[1..][i + 7..i + 7 + |v|] == s[i + 8..i + 8 + |v|];
    }
  }

  ghost predicate LeftmostAt(s: Bytes, i: nat, v: Bytes) {
    MatchesAt(s, i, v) && forall j: nat, w :: j < i ==> !MatchesAt(s, j, w)
  }

  lemma ExtractHere(s: Bytes, v: Bytes)
    requires MatchesAt(s, 0, v)
    ensures Extract(s) == v && forall w :: MatchesAt(s, 0, w) ==> w == v
  {
    forall w { MatchHere(s, w); }
  }

  lemma ExtractLater(s: Bytes)
    requires s != [] && forall w :: !MatchesAt(s, 0, w)
    ensures Extract(s) == Extract(s[1..])
  {
    if Delimiter(s[0]) && MARK <= s[1..] {
      MatchHere(s, UpToAmp(s[7..]));
    }
  }

  lemma LeftmostLater(s: Bytes, v: Bytes)
    requires s != [] && forall w :: !MatchesAt(s, 0, w)
    ensures (exists i :: LeftmostAt(s, i, v)) <==> (exists i :: LeftmostAt(s[1..], i, v))
  {
    forall i: nat, w { MatchLater(s, i, w); }
    if i: nat :| LeftmostAt(s[1..], i, v) {
      forall j: nat, w | j < i + 1 ensures !MatchesAt(s, j, w) { if j > 0 { MatchLater(s, j - 1, w); } }
      assert LeftmostAt(s, i + 1, v);
    }
    if i: nat :| LeftmostAt(s, i, v) {
      assert i > 0;
      MatchLater(s, i - 1, v);
      assert LeftmostAt(s[1..], i - 1, v);
    }
  }

  /** `Extract` yields v exactly when v is captured by the leftmost match. */
  lemma {:induction false} ExtractIsLeftmost(s: Bytes, v: Bytes)
    requires v != []
    ensures Extract(s) == v <==> exists i :: LeftmostAt(s, i, v)
  {
    if w :| MatchesAt(s, 0, w) {
      ExtractHere(s, w);
      assert LeftmostAt(s, 0, w);
      assert forall i: nat :: LeftmostAt(s, i, v) ==> i == 0;
    } else if s != [] {
      ExtractLater(s);
      LeftmostLater(s, v);
      ExtractIsLeftmost(s[1..], v);
    }
  }

  // parameter names and fixed values
  const RESPONSE_TYPE: Bytes := "response_type"
  const CODE: Bytes := "code"
  const CLIENT_ID: Bytes := "client_id"
  const REDIRECT_URI: Bytes := "redirect_uri"
  const SCOPE: Bytes := "scope"
  const STATE: Bytes := "state"
  const CHALLENGE: Bytes := "code_challenge"
  const METHOD: Bytes := "code_challenge_method"
  const S256: Bytes := "S256"

  datatype Request = Request(
    endpoint: Bytes, clientId: Bytes, redirectUri: Bytes, scope: Bytes, state: Bytes, challenge: Option<Bytes>)

  /** One parameter as it is written, without its delimiter. */
  function Plain(name: Bytes, value: Bytes): Bytes { name + ['='] + value }

  /** A parameter with an encoded value and its leading '&'. */
  function Parameter(name: Bytes, value: Bytes): Bytes { ['&'] + Plain(name, Percent.Encode(value)) }

  // the URL from each parameter on
  function FromChallenge(q: Request): Bytes {
    if q.challenge.None? then [] else Parameter(CHALLENGE, q.challenge.value) + (['&'] + Plain(METHOD, S256))
  }
  function FromState(q: Request): Bytes { Parameter(STATE, q.state) + FromChallenge(q) }
  function FromScope(q: Request): Bytes { Parameter(SCOPE, q.scope) + FromState(q) }
  function FromRedirect(q: Request): Bytes { Parameter(REDIRECT_URI, q.redirectUri) + FromScope(q) }
  function FromClient(q: Request): Bytes { Parameter(CLIENT_ID, q.clientId) + FromRedirect(q) }
  function FromType(q: Request): Bytes { ['?'] + Plain(RESPONSE_TYPE, CODE) + FromClient(q) }
  function Url(q: Request): Bytes { q.endpoint + FromType(q) }

  lemma {:induction false} SkipPlain(p: Bytes, t: Bytes)
    requires NoDelimiter(p)
    ensures Extract(p + t) == Extract(t)
  {
    if p == [] {
      assert p + t == t;
    } else {
      assert (p + t)[1..] == p[1..] + t;
      SkipPlain(p[1..], t);
    }
  }

  /** A parameter whose name differs from "state=" at position j is passed over. */
  lemma SkipParameter(d: Byte, body: Bytes, j: nat, t: Bytes)
    requires NoDelimiter(body) && j < 6 && j < |body| && body[j] != MARK[j]
    ensures Extract([d] + body + t) == Extract(t)
  {
    var s := [d] + body + t;
    assert s[1..] == body + t;
    assert s[1..][j] == body[j];
    assert !(MARK <= s[1..]);
    SkipPlain(body, t);
  }

  lemma UpToAmpStops(state: Bytes, t: Bytes)
    requires '&' !in state && (t == [] || t[0] == '&')
    ensures UpToAmp(state + t) == state
  {
    if t == [] {
      Query.IndexOfJoin(state, '&', []);
      assert state + t == state;
    } else {
      Query.IndexOfJoin(state, '&', t[1..]);
      assert state + t == state + ['&'] + t[1..];
    }
  }

  lemma FindState(state: Bytes, t: Bytes)
    requires state != [] && '&' !in state && (t == [] || t[0] == '&')
    ensures Extract(['&'] + Plain(STATE, state) + t) == state
  {
    var s := ['&'] + Plain(STATE, state) + t;
    assert STATE + ['='] == MARK;
    assert s[1..] == MARK + (state + t);
    assert s[7..] == state + t;
    UpToAmpStops(state, t);
  }

  lemma EncodedIsPlain(name: Bytes, v: Bytes)
    requires NoDelimiter(name)
    ensures NoDelimiter(Plain(name, Percent.Encode(v)))
  {
    Percent.Alphabet(v);
  }

  lemma SkipNamed(name: Bytes, v: Bytes, j: nat, t: Bytes)
    requires NoDelimiter(name) && j < 6 && j < |name| && name[j] != MARK[j]
    ensures Extract(Parameter(name, v) + t) == Extract(t)
  {
    EncodedIsPlain(name, v);
    SkipParameter('&', Plain(name, Percent.Encode(v)), j, t);
  }

  lemma NamesDiffer()
    ensures NoDelimiter(SCOPE) && SCOPE[1] != MARK[1]
    ensures NoDelimiter(REDIRECT_URI) && REDIRECT_URI[0] != MARK[0]
    ensures NoDelimiter(CLIENT_ID) && CLIENT_ID[0] != MARK[0]
  {
  }

  lemma TypeDiffers()
    ensures NoDelimiter(Plain(RESPONSE_TYPE, CODE)) && Plain(RESPONSE_TYPE, CODE)[0] != MARK[0]
  {
  }

  /** For every client id, redirect URI, scope and challenge, a state of unreserved
      characters is read back unchanged: no earlier parameter can imitate its marker. */
  lemma StateComesBack(q: Request)
    requires NoDelimiter(q.endpoint)
    requires q.state != [] && AllUnreserved(q.state)
    ensures Extract(Url(q)) == q.state
  {
    Percent.FixedPoint(q.state);
    NamesDiffer();
    TypeDiffers();
    FindState(q.state, FromChallenge(q));
    SkipNamed(SCOPE, q.scope, 1, FromState(q));
    SkipNamed(REDIRECT_URI, q.redirectUri, 0, FromScope(q));
    SkipNamed(CLIENT_ID, q.clientId, 0, FromRedirect(q));
    SkipParameter('?', Plain(RESPONSE_TYPE, CODE), 0, FromClient(q));
    SkipPlain(q.endpoint, FromType(q));
  }

  // ----- the URL read as a query -----

  /** The parameters of the authorization request, in order. */
  function Parameters(q: Request): seq<Query.Pair> {
    [(RESPONSE_TYPE, CODE)] + ([(CLIENT_ID, q.clientId)] + ([(REDIRECT_URI, q.redirectUri)]
    + ([(SCOPE, q.scope)] + ([(STATE, q.state)] + PkceParameters(q)))))
  }

  function PkceParameters(q: Request): seq<Query.Pair> {
    if q.challenge.None? then [] else [(CHALLENGE, q.challenge.value)] + [(METHOD, S256)]
  }

  /** `tail` is what follows in the URL when `rest` are the parameters to come. */
  predicate Follows(tail: Bytes, rest: seq<Query.Pair>) {
    tail == if rest == [] then [] else ['&'] + Query.Text(rest)
  }

  lemma Regroup(p: Bytes, t: Bytes)
    ensures ['&'] + p + [] == ['&'] + p
    ensures ['&'] + p + (['&'] + t) == ['&'] + (p + ['&'] + t)
  {
  }

  lemma Prepend(p: Query.Pair, tail: Bytes, rest: seq<Query.Pair>)
    requires Follows(tail, rest)
    ensures Follows(['&'] + Query.PairText(p) + tail, [p] + rest)
  {
    var ps := [p] + rest;
    assert ps[1..] == rest && ps[0] == p;
    Regroup(Query.PairText(p), Query.Text(rest));
  }

  lemma PrependNamed(name: Bytes, value: Bytes, tail: Bytes, rest: seq<Query.Pair>)
    requires AllUnreserved(name) && Follows(tail, rest)
    ensures Follows(Parameter(name, value) + tail, [(name, value)] + rest)
  {
    Percent.FixedPoint(name);
    Prepend((name, value), tail, rest);
  }

  lemma PlainIsPair(name: Bytes, value: Bytes)
    requires AllUnreserved(name) && AllUnreserved(value)
    ensures Plain(name, value) == Query.PairText((name, value))
  {
    Percent.FixedPoint(name);
    Percent.FixedPoint(value);
  }

  lemma NamesUnreserved()
    ensures AllUnreserved(RESPONSE_TYPE) && AllUnreserved(CODE) && AllUnreserved(CLIENT_ID)
    ensures AllUnreserved(REDIRECT_URI) && AllUnreserved(SCOPE) && AllUnreserved(STATE)
  {
  }

  lemma PkceNamesUnreserved()
    ensures AllUnreserved(CHALLENGE) && AllUnreserved(METHOD) && AllUnreserved(S256)
  {
  }

  lemma TwoParameters(n1: Bytes, v1: Bytes, n2: Bytes, v2: Bytes)
    requires AllUnreserved(n1) && AllUnreserved(n2) && AllUnreserved(v2)
    ensures Follows(Parameter(n1, v1) + (['&'] + Plain(n2, v2)), [(n1, v1)] + [(n2, v2)])
  {
    PlainIsPair(n2, v2);
    PrependNamed(n1, v1, ['&'] + Plain(n2, v2), [(n2, v2)]);
  }

  lemma ChallengeFollows(q: Request)
    ensures Follows(FromChallenge(q), PkceParameters(q))
  {
    if q.challenge.Some? {
      PkceNamesUnreserved();
      TwoParameters(CHALLENGE, q.challenge.value, METHOD, S256);
    }
  }

  /** Splitting and percent-decoding the authorization URL's query yields every parameter
      of the request, in order. */
  lemma QueryComesBack(q: Request)
    ensures Url(q) == q.endpoint + (['?'] + Query.Text(Parameters(q)))
    ensures Query.Parse(Query.Text(Parameters(q))) == Some(Parameters(q))
  {
    NamesUnreserved();
    ChallengeFollows(q);
    var p4 := [(STATE, q.state)] + PkceParameters(q);
    PrependNamed(STATE, q.state, FromChallenge(q), PkceParameters(q));
    var p3 := [(SCOPE, q.scope)] + p4;
    PrependNamed(SCOPE, q.scope, FromState(q), p4);
    var p2 := [(REDIRECT_URI, q.redirectUri)] + p3;
    PrependNamed(REDIRECT_URI, q.redirectUri, FromScope(q), p3);
    var p1 := [(CLIENT_ID, q.clientId)] + p2;
    PrependNamed(CLIENT_ID, q.clientId, FromRedirect(q), p2);
    PlainIsPair(RESPONSE_TYPE, CODE);
    Prepend((RESPONSE_TYPE, CODE), FromClient(q), p1);
    SameAfterDelimiter(Plain(RESPONSE_TYPE, CODE), FromClient(q), Query.Text(Parameters(q)));
    Query.QueryRoundTrip(Parameters(q));
  }

  /** The authorization request, name by name. */
  function Wanted(clientId: Bytes, redirectUri: Bytes, scope: Bytes, state: Bytes, challenge: Option<Bytes>): seq<Query.Pair> {
    [("response_type", "code"), ("client_id", clientId), ("redirect_uri", redirectUri), ("scope", scope), ("state", state)]
    + if challenge.None? then [] else [("code_challenge", challenge.value), ("code_challenge_method", "S256")]
  }

  lemma ParametersAreWanted(q: Request)
    ensures Parameters(q) == Wanted(q.clientId, q.redirectUri, q.scope, q.state, q.challenge)
  {
  }

  lemma SameAfterDelimiter(a: Bytes, b: Bytes, t: Bytes)
    requires ['&'] + a + b == ['&'] + t
    ensures ['?'] + a + b == ['?'] + t
  {
    assert (['&'] + a + b)[1..] == a + b && (['&'] + t)[1..] == t;
  }

  const PATH: Bytes := ".tradier.com/oauth/authorize"
  const PRODUCTION: Bytes := "https://api" + PATH
  const SANDBOX: Bytes := "https://sandbox" + PATH

  lemma PathIsPlain()
    ensures NoDelimiter(PATH)
  {
  }

  lemma HostsArePlain()
    ensures NoDelimiter("https://api") && NoDelimiter("https://sandbox")
  {
  }

  lemma PlainJoin(a: Bytes, b: Bytes)
    requires NoDelimiter(a) && NoDelimiter(b)
    ensures NoDelimiter(a + b)
  {
  }

  /** The two endpoints the service uses have no delimiter of their own. */
  lemma EndpointsArePlain()
    ensures NoDelimiter(PRODUCTION) && NoDelimiter(SANDBOX)
  {
    PathIsPlain();
    HostsArePlain();
    PlainJoin("https://api", PATH);
    PlainJoin("https://sandbox", PATH);
  }

  // ----- random strings -----

  /** The 66 characters of the generator. */
  function CharsetAt(i: nat): Byte
    requires i < 66
  {
    if i < 26 then 'A' + i as char
    else if i < 52 then 'a' + (i - 26) as char
    else if i < 62 then '0' + (i - 52) as char
    else if i == 62 then '-' else if i == 63 then '.' else if i == 64 then '_' else '~'
  }

  /** The generator's table: all unreserved characters, each once. */
  lemma CharsetIs(i: nat)
    requires i < 66
    ensures CharsetAt(i) == if i < 26 then Percent.UPPER[i] else if i < 52 then Percent.LOWER[i - 26]
                            else if i < 62 then Percent.DIGITS[i - 52] else Percent.MARKS[i - 62]
  {
    CharsetLetters(i);
  }

  lemma CharsetLetters(i: nat)
    requires i < 66
    ensures i < 26 ==> CharsetAt(i) == Percent.UPPER[i]
    ensures 26 <= i < 52 ==> CharsetAt(i) == Percent.LOWER[i - 26]
  {
  }

  lemma CharsetOnce(i: nat, j: nat)
    requires i < 66 && j < 66 && CharsetAt(i) == CharsetAt(j)
    ensures i == j
  {
  }

  /** One character per random byte, chosen by its remainder modulo 66. */
  ghost predicate DrawnFrom(s: Bytes, random: Bytes) {
    |s| == |random| && forall i :: 0 <= i < |s| ==> s[i] == CharsetAt(random[i] as nat % 66)
  }

  /** Different remainders give different strings. */
  lemma DrawsDiffer(s: Bytes, random: Bytes, t: Bytes, other: Bytes, i: nat)
    requires DrawnFrom(s, random) && DrawnFrom(t, other) && i < |s| && i < |t|
    requires random[i] as nat % 66 != other[i] as nat % 66
    ensures s[i] != t[i]
  {
    if s[i] == t[i] { CharsetOnce(random[i] as nat % 66, other[i] as nat % 66); }
  }

  /** `generateRandomString` on the bytes drawn. */
  method RandomString(random: Bytes) returns (s: Bytes)
    ensures DrawnFrom(s, random) && AllUnreserved(s)
    ensures Percent.Encode(s) == s
  {
    s := [];
    for k := 0 to |random|
      invariant |s| == k && AllUnreserved(s)
      invariant forall i :: 0 <= i < k ==> s[i] == CharsetAt(random[i] as nat % 66)
    {
      s := s + [CharsetAt(random[k] as nat % 66)];
    }
    Percent.FixedPoint(s);
  }
}

/** The OAuth state cache and the PKCE pair of `AuthService`. */
module AuthState {
  import opened Common
  import AuthUrl
  import Base64
  import Query

  /** What has happened to the service, nothing forgotten. */
  datatype Event =
    | Issued(state: Bytes, at: int)
    | PairDrawn(verifier: Bytes, digested: bool)   // a new verifier, and whether SHA-256 succeeded
    | Checked(state: Bytes, at: int, accepted: bool)
    | Cleared

  /** What event e makes of an outstanding issue of s. */
  function Updated(before: Option<int>, e: Event, s: Bytes): Option<int> {
    match e
    case Issued(t, at) => if t == s then Some(at) else before
    case PairDrawn(_, _) => before
    case Checked(t, _, accepted) => if t == s && accepted then None else before
    case Cleared => None
  }

  /** When the latest issue of s took place, unless it was accepted or cleared since. */
  function Outstanding(h: seq<Event>, s: Bytes): Option<int> {
    if h == [] then None else Updated(Outstanding(h[..|h| - 1], s), h[|h| - 1], s)
  }

  predicate Accepts(h: seq<Event>, s: Bytes, now: int, expiration: int) {
    Outstanding(h, s).Some? && now <= Outstanding(h, s).value + expiration
  }

  /** Event e neither re-issues s, nor accepts it, nor clears everything. */
  predicate Leaves(e: Event, s: Bytes) {
    match e
    case Issued(t, _) => t != s
    case PairDrawn(_, _) => true
    case Checked(t, _, accepted) => t != s || !accepted
    case Cleared => false
  }

  ghost predicate LatestIssue(h: seq<Event>, s: Bytes, i: nat, at: int) {
    i < |h| && h[i] == Issued(s, at) && forall j :: i < j < |h| ==> Leaves(h[j], s)
  }

  /** `Outstanding` in terms of the whole history. */
  lemma {:induction false} OutstandingIff(h: seq<Event>, s: Bytes, at: int)
    ensures Outstanding(h, s) == Some(at) <==> exists i :: LatestIssue(h, s, i, at)
  {
    if h != [] {
      var front, last := h[..|h| - 1], h[|h| - 1];
      OutstandingIff(front, s, at);
      if Outstanding(h, s) == Some(at) {
        if last == Issued(s, at) {
          assert LatestIssue(h, s, |h| - 1, at);
        } else {
          var i :| LatestIssue(front, s, i, at);
          assert LatestIssue(h, s, i, at);
        }
      }
      if i: nat :| LatestIssue(h, s, i, at) {
        if i < |front| { assert LatestIssue(front, s, i, at); }
      }
    }
  }

  /** Every check in the history went as the unpruned record says. */
  ghost predicate Legal(h: seq<Event>, expiration: int) {
    forall i :: 0 <= i < |h| && h[i].Checked? ==>
      h[i].accepted == Accepts(h[..i], h[i].state, h[i].at, expiration)
  }

  function Issues(h: seq<Event>, s: Bytes): nat {
    if h == [] then 0
    else Issues(h[..|h| - 1], s) + match h[|h| - 1] case Issued(t, _) => if t == s then 1 else 0 case _ => 0
  }

  function Acceptances(h: seq<Event>, s: Bytes): nat {
    if h == [] then 0
    else
      Acceptances(h[..|h| - 1], s)
      + match h[|h| - 1] case Checked(t, _, accepted) => if t == s && accepted then 1 else 0 case _ => 0
  }

  /** A state is accepted at most once per issue. */
  lemma {:induction false} AcceptedOncePerIssue(h: seq<Event>, s: Bytes, expiration: int)
    requires Legal(h, expiration)
    ensures Acceptances(h, s) + (if Outstanding(h, s).Some? then 1 else 0) <= Issues(h, s)
  {
    if h != [] {
      var front := h[..|h| - 1];
      assert forall i :: 0 <= i < |front| ==> front[i] == h[i] && front[..i] == h[..i];
      AcceptedOncePerIssue(front, s, expiration);
    }
  }

  // ----- the PKCE pair over a history -----

  /** The verifier held, and the verifier whose digest is the challenge held. */
  datatype Pair = Pair(verifier: Bytes, digested: Option<Bytes>)

  function PairAfter(p: Pair, e: Event): Pair {
    match e
    case PairDrawn(v, ok) => Pair(v, if ok then Some(v) else p.digested)
    case Cleared => Pair([], None)
    case _ => p
  }

  function PairOf(h: seq<Event>): Pair {
    if h == [] then Pair([], None) else PairAfter(PairOf(h[..|h| - 1]), h[|h| - 1])
  }

  function ChallengeOf(p: Pair, sha256: Bytes -> Bytes): Bytes {
    if p.digested.None? then [] else Base64.UrlForm(sha256(p.digested.value))
  }

  /** Sections 4.1 and 4.2 of RFC 7636; before the first draw both are empty. */
  predicate Matched(verifier: Bytes, challenge: Bytes, sha256: Bytes -> Bytes) {
    (verifier == [] && challenge == []) || challenge == Base64.UrlForm(sha256(verifier))
  }

  /** The latest draw since the last clearing had its digest fail. */
  predicate Torn(h: seq<Event>) {
    h != [] && match h[|h| - 1]
      case PairDrawn(_, digested) => !digested
      case Cleared => false
      case _ => Torn(h[..|h| - 1])
  }

  /** Two verifiers with one digest. */
  predicate Collides(p: Pair, sha256: Bytes -> Bytes) {
    p.digested.Some? && sha256(p.digested.value) == sha256(p.verifier)
  }

  predicate VerifiersDrawn(h: seq<Event>) { forall i :: 0 <= i < |h| && h[i].PairDrawn? ==> h[i].verifier != [] }

  /** Untorn, the pair is empty or its challenge comes from its verifier. */
  lemma {:induction false} PairShape(h: seq<Event>)
    requires VerifiersDrawn(h)
    ensures !Torn(h) ==> PairOf(h) == Pair([], None) || PairOf(h).digested == Some(PairOf(h).verifier)
    ensures Torn(h) ==> PairOf(h).verifier != []
  {
    if h != [] { PairShape(h[..|h| - 1]); }
  }

  lemma ChallengeMatchesIff(p: Pair, sha256: Bytes -> Bytes)
    requires |sha256(p.verifier)| == 32 && p.verifier != []
    ensures Matched(p.verifier, ChallengeOf(p, sha256), sha256) <==> Collides(p, sha256)
  {
    Base64.UrlRoundTrip(sha256(p.verifier));
    if p.digested.Some? {
      Base64.UrlRoundTrip(sha256(p.digested.value));
    }
  }

  /** Over every history and for every digest of 32 bytes, the pair matches exactly when
      it is not torn, or the failed digest would have been the one already held. */
  lemma PairMatchesIff(h: seq<Event>, sha256: Bytes -> Bytes)
    requires VerifiersDrawn(h) && forall v :: |sha256(v)| == 32
    ensures Matched(PairOf(h).verifier, ChallengeOf(PairOf(h), sha256), sha256)
      <==> !Torn(h) || Collides(PairOf(h), sha256)
  {
    PairShape(h);
    if Torn(h) { ChallengeMatchesIff(PairOf(h), sha256); }
  }

  // ----- the pruned cache against the history -----

  ghost predicate CacheAgrees(cache: map<Bytes, int>, h: seq<Event>, now: int, expiration: int) {
    && Legal(h, expiration)
    && (forall s :: s in cache ==> Outstanding(h, s) == Some(cache[s]))
    && (forall s :: Accepts(h, s, now, expiration) ==> s in cache)
  }

  /** Looking s up in the pruned cache decides as the whole history does, and erasing it
      records the decision. */
  lemma LookupDecides(cache: map<Bytes, int>, h: seq<Event>, now: int, expiration: int, s: Bytes, at: int, accepted: bool)
    requires CacheAgrees(cache, h, now, expiration) && now <= at
    requires accepted <==> s in cache && at <= cache[s] + expiration
    ensures accepted == Accepts(h, s, at, expiration)
    ensures CacheAgrees(cache - {s}, h + [Checked(s, at, accepted)], at, expiration)
  {
    Extended(h, Checked(s, at, accepted), expiration);
  }

  datatype Config = Config(clientId: Bytes, redirectUri: Bytes, expiration: int, usePKCE: bool)

  /** Randomness, digest and clock as the environment supplies them to one call; None and
      `digestFails` are the exceptions that OpenSSL failures raise. */
  datatype Draw = Draw(state: Option<Bytes>, verifier: Option<Bytes>, digestFails: bool)

  class AuthService {
    const config: Config
    const endpoint: Bytes
    const sha256: Bytes -> Bytes
    var stateCache: map<Bytes, int>
    var currentState: Bytes
    var codeVerifier: Bytes
    var codeChallenge: Bytes
    ghost var history: seq<Event>
    ghost var now: int

    /** The pruned cache and the pair against the history that forgets nothing. */
    ghost predicate Valid()
      reads this
    {
      && AuthUrl.NoDelimiter(endpoint)
      && CacheAgrees(stateCache, history, now, config.expiration)
      && ValidPair()
    }

    /** Verifier and challenge are those of the history, and match unless it is torn. */
    ghost predicate ValidPair()
      reads this
    {
      && codeVerifier == PairOf(history).verifier
      && codeChallenge == ChallengeOf(PairOf(history), sha256)
      && VerifiersDrawn(history)
      && (!Torn(history) ==> PairMatches())
      && (codeVerifier == [] || (|codeVerifier| == 128 && AuthUrl.AllUnreserved(codeVerifier)))
    }

    predicate PairMatches()
      reads this
    {
      Matched(codeVerifier, codeChallenge, sha256)
    }

    constructor (config: Config, sandbox: bool, sha256: Bytes -> Bytes, ghost now: int)
      ensures Valid() && history == [] && this.now == now
      ensures stateCache == map[] && currentState == [] && codeVerifier == [] && codeChallenge == []
      ensures this.config == config && this.sha256 == sha256
      ensures endpoint == (if sandbox then "https://sandbox" else "https://api") + ".tradier.com/oauth/authorize"
    {
      AuthUrl.EndpointsArePlain();
      this.config, this.sha256 := config, sha256;
      endpoint := if sandbox then AuthUrl.SANDBOX else AuthUrl.PRODUCTION;
      stateCache, currentState, codeVerifier, codeChallenge := map[], [], [], [];
      history := [];
      this.now := now;
    }

    /** When the pair matches, for whatever calls have been made on this object. */
    lemma PairMatchesNowIff()
      requires Valid() && forall v :: |sha256(v)| == 32
      ensures PairMatches() <==> !Torn(history) || Collides(PairOf(history), sha256)
    {
      PairMatchesIff(history, sha256);
    }

    /** The request the URL is built from. */
    function CurrentRequest(scope: Bytes): AuthUrl.Request
      reads this
    {
      AuthUrl.Request(endpoint, config.clientId, config.redirectUri, scope, currentState,
                      if config.usePKCE then Some(codeChallenge) else None)
    }

    /** The erase loop of `cleanupExpiredStates`. */
    method CleanupExpiredStates(at: int)
      requires Valid() && now <= at
      modifies this`stateCache, this`now
      ensures Valid() && now == at
      ensures stateCache == map s | s in old(stateCache) && at <= old(stateCache)[s] + config.expiration :: old(stateCache)[s]
    {
      ghost var before := stateCache;
      var todo := stateCache.Keys;
      while todo != {}
        invariant todo <= stateCache.Keys <= before.Keys
        invariant forall s :: s in stateCache ==> stateCache[s] == before[s]
        invariant forall s :: s in before && s !in todo ==> (s in stateCache <==> at <= before[s] + config.expiration)
        decreases |todo|
      {
        var s :| s in todo;
        todo := todo - {s};
        if at > stateCache[s] + config.expiration {
          stateCache := stateCache - {s};
        }
      }
      now := at;
    }

    /** `getAuthorizationUrl`: `pruned` and `issued` are its two clock readings. */
    method GetAuthorizationUrl(scope: Bytes, draw: Draw, pruned: int, issued: int) returns (url: Option<Bytes>)
      requires Valid() && now <= pruned <= issued
      requires draw.state.Some? ==> |draw.state.value| == 32
      requires draw.verifier.Some? ==> |draw.verifier.value| == 128
      modifies this
      ensures Valid() && (draw.state.Some? ==> now == issued)
      ensures draw.state.Some? ==>
        && AuthUrl.DrawnFrom(currentState, draw.state.value)
        && history == old(history) + [Issued(currentState, issued)]
                      + (if Draws(draw) then [PairDrawn(codeVerifier, !draw.digestFails)] else [])
      ensures draw.state.None? ==> history == old(history) && currentState == old(currentState)
      // success exactly when nothing failed; the state can be read back from the URL
      ensures url.Some? <==> draw.state.Some? && (config.usePKCE ==> draw.verifier.Some? && !draw.digestFails)
      ensures url.Some? ==> url.value == AuthUrl.Url(CurrentRequest(scope))
      ensures url.Some? ==> Carries(url.value, scope) && AuthUrl.Extract(url.value) == currentState
      // the PKCE pair
      ensures !Draws(draw) ==> codeVerifier == old(codeVerifier) && codeChallenge == old(codeChallenge)
      ensures url.Some? && config.usePKCE ==> Base64.UrlDecode(codeChallenge) == Some(sha256(codeVerifier))
      ensures Draws(draw) ==>
        && AuthUrl.DrawnFrom(codeVerifier, draw.verifier.value)
        && codeChallenge == if draw.digestFails then old(codeChallenge) else Base64.UrlForm(sha256(codeVerifier))
      ensures PairMatches() <==>
        if Draws(draw) then !draw.digestFails || old(codeChallenge) == Base64.UrlForm(sha256(codeVerifier))
        else old(PairMatches())
    {
      CleanupExpiredStates(pruned);
      var ready := Prepare(draw, issued);
      if !ready {
        return None;
      }
      var text := CurrentUrl(scope);
      return Some(text);
    }

    /** A new state and, with PKCE, a new pair; false is an exception on the way. */
    method Prepare(draw: Draw, issued: int) returns (ready: bool)
      requires Valid() && now <= issued
      requires draw.state.Some? ==> |draw.state.value| == 32
      requires draw.verifier.Some? ==> |draw.verifier.value| == 128
      modifies this
      ensures Valid() && (draw.state.Some? ==> now == issued)
      ensures draw.state.Some? ==>
        && AuthUrl.DrawnFrom(currentState, draw.state.value) && AuthUrl.AllUnreserved(currentState)
        && history == old(history) + [Issued(currentState, issued)]
                      + (if Draws(draw) then [PairDrawn(codeVerifier, !draw.digestFails)] else [])
      ensures draw.state.None? ==> history == old(history) && currentState == old(currentState)
      ensures ready <==> draw.state.Some? && (config.usePKCE ==> draw.verifier.Some? && !draw.digestFails)
      ensures !Draws(draw) ==> codeVerifier == old(codeVerifier) && codeChallenge == old(codeChallenge)
      ensures ready && config.usePKCE ==> Base64.UrlDecode(codeChallenge) == Some(sha256(codeVerifier))
      ensures Draws(draw) ==>
        && AuthUrl.DrawnFrom(codeVerifier, draw.verifier.value)
        && codeChallenge == if draw.digestFails then old(codeChallenge) else Base64.UrlForm(sha256(codeVerifier))
      ensures PairMatches() <==>
        if Draws(draw) then !draw.digestFails || old(codeChallenge) == Base64.UrlForm(sha256(codeVerifier))
        else old(PairMatches())
    {
      if draw.state.None? {
        return false;
      }
      IssueState(draw.state.value, issued);
      if config.usePKCE {
        if draw.verifier.None? {
          return false;
        }
        DrawPair(draw.verifier.value, draw.digestFails);
        if draw.digestFails {
          return false;
        }
      }
      return true;
    }

    /** The URL of the current request, from which the current state can be read back. */
    method CurrentUrl(scope: Bytes) returns (url: Bytes)
      requires AuthUrl.NoDelimiter(endpoint) && currentState != [] && AuthUrl.AllUnreserved(currentState)
      ensures url == AuthUrl.Url(CurrentRequest(scope))
      ensures AuthUrl.Extract(url) == currentState && Carries(url, scope)
    {
      var q := CurrentRequest(scope);
      AuthUrl.StateComesBack(q);
      AuthUrl.QueryComesBack(q);
      AuthUrl.ParametersAreWanted(q);
      url := AuthUrl.Url(q);
      ghost var query := Query.Text(AuthUrl.Parameters(q));
      assert url == endpoint + (['?'] + query);
    }

    /** The URL is the endpoint and a query that parses to the authorization request, with
        the challenge exactly when PKCE is on. */
    ghost predicate Carries(url: Bytes, scope: Bytes)
      reads this
    {
      exists query: Bytes ::
        && url == endpoint + (['?'] + query)
        && Query.Parse(query) == Some(AuthUrl.Wanted(config.clientId, config.redirectUri, scope, currentState,
                                                     if config.usePKCE then Some(codeChallenge) else None))
    }

    /** The call gets as far as replacing the verifier. */
    predicate Draws(draw: Draw) { config.usePKCE && draw.state.Some? && draw.verifier.Some? }

    /** A new current state, entered in the cache. */
    method IssueState(random: Bytes, at: int)
      requires Valid() && now <= at && |random| == 32
      modifies this`currentState, this`stateCache, this`history, this`now
      ensures Valid() && now == at && history == old(history) + [Issued(currentState, at)]
      ensures AuthUrl.DrawnFrom(currentState, random) && AuthUrl.AllUnreserved(currentState)
      ensures stateCache == old(stateCache)[currentState := at]
    {
      currentState := AuthUrl.RandomString(random);
      RecordIssue(currentState, at);
    }

    method RecordIssue(s: Bytes, at: int)
      requires Valid() && now <= at
      modifies this`stateCache, this`history, this`now
      ensures Valid() && now == at && history == old(history) + [Issued(s, at)]
      ensures stateCache == old(stateCache)[s := at]
    {
      stateCache := stateCache[s := at];
      Extended(history, Issued(s, at), config.expiration);
      ExtendedPair(history, Issued(s, at));
      history := history + [Issued(s, at)];
      now := at;
    }

    /** A new verifier, and its challenge unless the digest throws in between. */
    method DrawPair(random: Bytes, digestFails: bool)
      requires Valid() && |random| == 128
      modifies this`codeVerifier, this`codeChallenge, this`history
      ensures Valid() && AuthUrl.DrawnFrom(codeVerifier, random)
      ensures history == old(history) + [PairDrawn(codeVerifier, !digestFails)]
      ensures !digestFails ==> Base64.UrlDecode(codeChallenge) == Some(sha256(codeVerifier))
      ensures codeChallenge == if digestFails then old(codeChallenge) else Base64.UrlForm(sha256(codeVerifier))
      ensures PairMatches() <==> !digestFails || old(codeChallenge) == Base64.UrlForm(sha256(codeVerifier))
    {
      codeVerifier := AuthUrl.RandomString(random);
      Extended(history, PairDrawn(codeVerifier, !digestFails), config.expiration);
      ExtendedPair(history, PairDrawn(codeVerifier, !digestFails));
      history := history + [PairDrawn(codeVerifier, !digestFails)];
      if digestFails {
        return;
      }
      codeChallenge := Base64.Base64UrlEncode(sha256(codeVerifier));
      Base64.UrlRoundTrip(sha256(codeVerifier));
    }

    /** `validateState`: true exactly when the latest issue of s is neither accepted, nor
        cleared, nor expired, whatever the cache has forgotten. */
    method ValidateState(s: Bytes, pruned: int, at: int) returns (accepted: bool)
      requires Valid() && now <= pruned <= at
      modifies this`stateCache, this`history, this`now
      ensures Valid() && now == at && history == old(history) + [Checked(s, at, accepted)]
      ensures accepted == Accepts(old(history), s, at, config.expiration)
    {
      CleanupExpiredStates(pruned);
      accepted := Consume(s, at);
    }

    /** Look the state up and erase it, expired or not. */
    method Consume(s: Bytes, at: int) returns (accepted: bool)
      requires Valid() && now <= at
      modifies this`stateCache, this`history, this`now
      ensures Valid() && now == at && history == old(history) + [Checked(s, at, accepted)]
      ensures accepted == Accepts(old(history), s, at, config.expiration)
      ensures stateCache == old(stateCache) - {s}
    {
      ghost var cache := stateCache;
      accepted := false;
      if s in stateCache {
        accepted := at <= stateCache[s] + config.expiration;
        stateCache := stateCache - {s};
      }
      assert stateCache == cache - {s};
      LookupDecides(cache, history, now, config.expiration, s, at, accepted);
      ExtendedPair(history, Checked(s, at, accepted));
      history := history + [Checked(s, at, accepted)];
      now := at;
    }

    method ClearState()
      requires Valid()
      modifies this
      ensures Valid() && PairMatches() && history == old(history) + [Cleared] && now == old(now)
      ensures stateCache == map[] && currentState == [] && codeVerifier == [] && codeChallenge == []
    {
      stateCache, currentState, codeVerifier, codeChallenge := map[], [], [], [];
      Extended(history, Cleared, config.expiration);
      ExtendedPair(history, Cleared);
      history := history + [Cleared];
    }
  }

  /** A first call whose digest fails leaves a verifier without its challenge. */
  method DigestFailureTearsThePair(config: Config, sandbox: bool, sha256: Bytes -> Bytes, scope: Bytes, draw: Draw, now: int)
    returns (service: AuthService)
    requires config.usePKCE && forall v :: |sha256(v)| == 32
    requires draw.state.Some? && |draw.state.value| == 32
    requires draw.verifier.Some? && |draw.verifier.value| == 128 && draw.digestFails
    ensures service.Valid() && Torn(service.history)
    ensures service.codeVerifier != [] && service.codeChallenge == [] && !service.PairMatches()
  {
    service := new AuthService(config, sandbox, sha256, now);
    var _ := service.GetAuthorizationUrl(scope, draw, now, now);
    Base64.UrlRoundTrip(sha256(service.codeVerifier));
  }

  /** What one more event does to the pair. */
  lemma ExtendedPair(h: seq<Event>, e: Event)
    ensures PairOf(h + [e]) == PairAfter(PairOf(h), e)
    ensures Torn(h + [e]) == if e.PairDrawn? then !e.digested else !e.Cleared? && Torn(h)
    ensures VerifiersDrawn(h + [e]) == (VerifiersDrawn(h) && (e.PairDrawn? ==> e.verifier != []))
  {
    assert (h + [e])[..|h|] == h && (h + [e])[|h|] == e;
    assert forall i :: 0 <= i < |h| ==> (h + [e])[i] == h[i];
  }

  /** ... and to `Outstanding` and `Legal`. */
  lemma Extended(h: seq<Event>, e: Event, expiration: int)
    requires Legal(h, expiration)
    ensures forall s :: Outstanding(h + [e], s) == Updated(Outstanding(h, s), e, s)
    ensures (e.Checked? ==> e.accepted == Accepts(h, e.state, e.at, expiration)) ==> Legal(h + [e], expiration)
  {
    assert (h + [e])[..|h|] == h && (h + [e])[|h|] == e;
    assert forall i :: 0 <= i < |h| ==> (h + [e])[i] == h[i] && (h + [e])[..i] == h[..i];
  }

  lemma AcceptsIff(h: seq<Event>, s: Bytes, now: int, expiration: int)
    ensures Accepts(h, s, now, expiration) <==> exists i, t :: LatestIssue(h, s, i, t) && now <= t + expiration
  {
    if Accepts(h, s, now, expiration) {
      var t := Outstanding(h, s).value;
      OutstandingIff(h, s, t);
      var i :| LatestIssue(h, s, i, t);
    }
    if i, t :| LatestIssue(h, s, i, t) && now <= t + expiration {
      OutstandingIff(h, s, t);
    }
  }
}
