/** `bulk_process_events` of src/simd/streaming_simd.cpp: the AVX2 path, which handles blocks of
eight events trades first, against the scalar path, which handles events in order. */
module BulkEvents {
  import opened Common

  const CHUNK: nat := 8

  datatype Field = Null | Num(num: real) | Str(text: string) | Other

  /** A JSON object; any other JSON value has no keys as far as this code is concerned. */
  type Json = map<string, Field>

  datatype TradeEvent = TradeEvent(
    symbol: string, exchange: string, price: real, size: real, cvol: real, last: real, date: string)

  datatype QuoteEvent = QuoteEvent(
    symbol: string, bid: real, ask: real, bidSize: real, askSize: real,
    bidExchange: string, bidDate: string, askExchange: string, askDate: string)

  /** A handler sees its own earlier calls and one event; false is a `std::exception`. */
  type Handler<!E> = (seq<E>, E) -> bool

  datatype Env = Env(
    events: seq<Json>,
    tradeHandler: Option<Handler<TradeEvent>>,
    quoteHandler: Option<Handler<QuoteEvent>>,
    stod: string -> Option<real>)

  // ----- reading fields -----

  /** `json.value(key, "")`: None is the type error it throws on a non-string. */
  function TextField(j: Json, key: string): Option<string> {
    if key !in j then Some("") else if j[key].Str? then Some(j[key].text) else None
  }

  /** `parseNumericField` with default 0.0. */
  function NumericField(j: Json, key: string, stod: string -> Option<real>): real {
    if key !in j then 0.0
    else match j[key]
      case Num(x) => x
      case Str(s) => if s == "" || stod(s).None? then 0.0 else stod(s).value
      case _ => 0.0
  }

  function BuildTrade(j: Json, symbol: Option<string>, stod: string -> Option<real>): Option<TradeEvent> {
    var exch, date := TextField(j, "exch"), TextField(j, "date");
    if symbol.None? || exch.None? || date.None? then None
    else Some(TradeEvent(symbol.value, exch.value, NumericField(j, "price", stod), NumericField(j, "size", stod),
                         NumericField(j, "cvol", stod), NumericField(j, "last", stod), date.value))
  }

  function BuildQuote(j: Json, symbol: Option<string>, stod: string -> Option<real>): Option<QuoteEvent> {
    var bx, bd := TextField(j, "bidexch"), TextField(j, "biddate");
    var ax, ad := TextField(j, "askexch"), TextField(j, "askdate");
    if symbol.None? || bx.None? || bd.None? || ax.None? || ad.None? then None
    else Some(QuoteEvent(symbol.value, NumericField(j, "bid", stod), NumericField(j, "ask", stod),
                         NumericField(j, "bidsz", stod), NumericField(j, "asksz", stod),
                         bx.value, bd.value, ax.value, ad.value))
  }

  predicate HasType(j: Json, name: string) { "type" in j && j["type"] == Str(name) }

  /** The type is absent or a string. */
  predicate TypeOk(j: Json) { "type" !in j || j["type"].Str? }

  predicate TypesOk(events: seq<Json>) { forall i :: 0 <= i < |events| ==> TypeOk(events[i]) }

  /** ... and an event that has a type has a symbol that is absent or a string. */
  predicate Typed(j: Json) { TypeOk(j) && ("type" in j ==> TextField(j, "symbol").Some?) }

  predicate WellTyped(events: seq<Json>) { forall i :: 0 <= i < |events| ==> Typed(events[i]) }

  /** The trade event that index i hands to the trade handler, if any. */
  function TradeAt(env: Env, i: nat): Option<TradeEvent> {
    if i < |env.events| && HasType(env.events[i], "trade") && env.tradeHandler.Some?
    then BuildTrade(env.events[i], TextField(env.events[i], "symbol"), env.stod) else None
  }

  function QuoteAt(env: Env, i: nat): Option<QuoteEvent> {
    if i < |env.events| && HasType(env.events[i], "quote") && env.quoteHandler.Some?
    then BuildQuote(env.events[i], TextField(env.events[i], "symbol"), env.stod) else None
  }

  // ----- what the handlers see -----

  /** One handler's calls, and how many of them returned normally. */
  datatype Side<E> = Side(calls: seq<E>, returned: nat)

  function Feed<E>(d: Side<E>, h: Handler<E>, e: E): Side<E> {
    Side(d.calls + [e], d.returned + if h(d.calls, e) then 1 else 0)
  }

  /** Both handlers' views, and the order in which event indices were handed out. */
  datatype Sink = Sink(trade: Side<TradeEvent>, quote: Side<QuoteEvent>, order: seq<nat>) {
    function Processed(): nat { trade.returned + quote.returned }
  }

  const EMPTY := Sink(Side([], 0), Side([], 0), [])

  function GiveTrade(env: Env, s: Sink, i: nat): Sink {
    if TradeAt(env, i).None? then s
    else s.(trade := Feed(s.trade, env.tradeHandler.value, TradeAt(env, i).value), order := s.order + [i])
  }

  function GiveQuote(env: Env, s: Sink, i: nat): Sink {
    if QuoteAt(env, i).None? then s
    else s.(quote := Feed(s.quote, env.quoteHandler.value, QuoteAt(env, i).value), order := s.order + [i])
  }

  /** Trades only, over [lo, hi). */
  function Trades(env: Env, s: Sink, lo: nat, hi: nat): Sink
    requires lo <= hi
  {
    if lo == hi then s else GiveTrade(env, Trades(env, s, lo, hi - 1), hi - 1)
  }

  function Quotes(env: Env, s: Sink, lo: nat, hi: nat): Sink
    requires lo <= hi
  {
    if lo == hi then s else GiveQuote(env, Quotes(env, s, lo, hi - 1), hi - 1)
  }

  /** In event order, over [lo, hi). */
  function InOrder(env: Env, s: Sink, lo: nat, hi: nat): Sink
    requires lo <= hi
  {
    if lo == hi then s else GiveQuote(env, GiveTrade(env, InOrder(env, s, lo, hi - 1), hi - 1), hi - 1)
  }

  /** The first k blocks, trades before quotes within each. */
  function Blocks(env: Env, k: nat): Sink {
    if k == 0 then EMPTY
    else
      var (lo, hi) := (CHUNK * (k - 1), CHUNK * k);
      Quotes(env, Trades(env, Blocks(env, k - 1), lo, hi), lo, hi)
  }

  function Scalar(env: Env): Sink { InOrder(env, EMPTY, 0, |env.events|) }

  /** What the blocked path has handed out when it comes to classify or handle index k:
      inside a whole block, only the blocks before it. */
  function Avx2UpTo(env: Env, k: nat): Sink {
    var whole := |env.events| / CHUNK;
    if k < CHUNK * whole then Blocks(env, k / CHUNK) else InOrder(env, Blocks(env, whole), CHUNK * whole, k)
  }

  function Avx2(env: Env): Sink { Avx2UpTo(env, |env.events|) }

  // ----- the two orders compared -----

  /** Each side depends only on its own earlier calls. */
  lemma {:induction false} SidesAlone(env: Env, s: Sink, lo: nat, hi: nat)
    requires lo <= hi
    ensures InOrder(env, s, lo, hi).trade == Trades(env, s, lo, hi).trade
    ensures InOrder(env, s, lo, hi).quote == Quotes(env, s, lo, hi).quote
    ensures Trades(env, s, lo, hi).quote == s.quote
    ensures Quotes(env, s, lo, hi).trade == s.trade
  {
    if lo < hi { SidesAlone(env, s, lo, hi - 1); }
  }

  lemma {:induction false} SameSide(env: Env, s: Sink, t: Sink, lo: nat, hi: nat)
    requires lo <= hi
    ensures s.trade == t.trade ==> Trades(env, s, lo, hi).trade == Trades(env, t, lo, hi).trade
    ensures s.quote == t.quote ==> Quotes(env, s, lo, hi).quote == Quotes(env, t, lo, hi).quote
  {
    if lo < hi { SameSide(env, s, t, lo, hi - 1); }
  }

  /** Index i is handed to a handler, as a trade or as a quote. */
  predicate Called(env: Env, i: nat, trades: bool, quotes: bool) {
    (trades && TradeAt(env, i).Some?) || (quotes && QuoteAt(env, i).Some?)
  }

  function Kind(env: Env, trades: bool, quotes: bool): nat -> bool { (i: nat) => Called(env, i, trades, quotes) }

  /** The indices in [lo, hi) that have property f, in order. */
  function Select(f: nat -> bool, lo: nat, hi: nat): (r: seq<nat>)
    requires lo <= hi
    ensures forall p :: 0 <= p < |r| ==> lo <= r[p] < hi
  {
    if lo == hi then [] else if f(hi - 1) then Select(f, lo, hi - 1) + [hi - 1] else Select(f, lo, hi - 1)
  }

  function Calls(env: Env, lo: nat, hi: nat, trades: bool, quotes: bool): seq<nat>
    requires lo <= hi
  {
    Select(Kind(env, trades, quotes), lo, hi)
  }

  lemma {:induction false} OrderIsCalls(env: Env, s: Sink, lo: nat, hi: nat)
    requires lo <= hi
    ensures InOrder(env, s, lo, hi).order == s.order + Calls(env, lo, hi, true, true)
    ensures Trades(env, s, lo, hi).order == s.order + Calls(env, lo, hi, true, false)
    ensures Quotes(env, s, lo, hi).order == s.order + Calls(env, lo, hi, false, true)
  {
    if lo < hi {
      OrderIsCalls(env, s, lo, hi - 1);
    }
  }

  /** No event is both a trade and a quote. */
  lemma OneKind(env: Env, i: nat)
    ensures TradeAt(env, i).None? || QuoteAt(env, i).None?
  {
  }

  function Times(s: seq<nat>, e: nat): nat { multiset(s)[e] }

  /** Two properties that exclude each other together select what either selects. */
  lemma {:induction false} SelectSplit(f: nat -> bool, g: nat -> bool, either: nat -> bool, lo: nat, hi: nat, e: nat)
    requires lo <= hi
    requires forall i :: !(f(i) && g(i)) && (either(i) <==> f(i) || g(i))
    ensures |Select(either, lo, hi)| == |Select(f, lo, hi)| + |Select(g, lo, hi)|
    ensures Times(Select(either, lo, hi), e) == Times(Select(f, lo, hi), e) + Times(Select(g, lo, hi), e)
  {
    if lo < hi {
      SelectSplit(f, g, either, lo, hi - 1, e);
    }
  }

  lemma SameTimes(all: seq<nat>, x: seq<nat>, y: seq<nat>)
    requires forall e :: Times(all, e) == Times(x, e) + Times(y, e)
    ensures multiset(all) == multiset(x + y)
  {
    forall e: nat ensures multiset(all)[e] == multiset(x + y)[e] {
      assert Times(all, e) == Times(x, e) + Times(y, e);
    }
  }

  lemma KindsSplit(env: Env)
    ensures var f, g := Kind(env, true, false), Kind(env, false, true);
      forall i :: !(f(i) && g(i)) && (Kind(env, true, true)(i) <==> f(i) || g(i))
  {
    forall i { OneKind(env, i); }
  }

  lemma CallsRearranged(env: Env, lo: nat, hi: nat)
    requires lo <= hi
    ensures multiset(Calls(env, lo, hi, true, true))
         == multiset(Calls(env, lo, hi, true, false) + Calls(env, lo, hi, false, true))
    ensures |Calls(env, lo, hi, true, true)|
         == |Calls(env, lo, hi, true, false) + Calls(env, lo, hi, false, true)|
  {
    var all, x, y := Calls(env, lo, hi, true, true), Calls(env, lo, hi, true, false), Calls(env, lo, hi, false, true);
    KindsSplit(env);
    forall e: nat ensures |all| == |x| + |y| && Times(all, e) == Times(x, e) + Times(y, e) {
      SelectSplit(Kind(env, true, false), Kind(env, false, true), Kind(env, true, true), lo, hi, e);
    }
    assert Times(all, 0) == Times(x, 0) + Times(y, 0);
    SameTimes(all, x, y);
  }

  lemma {:induction false} InOrderJoin(env: Env, s: Sink, lo: nat, mid: nat, hi: nat)
    requires lo <= mid <= hi
    ensures InOrder(env, s, lo, hi) == InOrder(env, InOrder(env, s, lo, mid), mid, hi)
  {
    if mid < hi { InOrderJoin(env, s, lo, mid, hi - 1); }
  }

  /** A rearrangement that moves nothing out of its block of eight. */
  ghost predicate WithinBlocks(a: seq<nat>, b: seq<nat>) {
    && |a| == |b|
    && multiset(a) == multiset(b)
    && forall p :: 0 <= p < |a| ==> a[p] / 8 == b[p] / 8
  }

  lemma OneBlock(a: seq<nat>, b: seq<nat>, x: seq<nat>, y: seq<nat>, k: nat)
    requires WithinBlocks(a, b)
    requires |x| == |y| && multiset(x) == multiset(y)
    requires forall p :: 0 <= p < |x| ==> CHUNK * k <= x[p] < CHUNK * (k + 1)
    requires forall p :: 0 <= p < |y| ==> CHUNK * k <= y[p] < CHUNK * (k + 1)
    ensures WithinBlocks(a + x, b + y)
  {
  }

  /** What AVX2 gives and what scalar gives agree in everything but the order of calls
      inside a block. */
  ghost predicate Matches(s: Sink, t: Sink) {
    s.trade == t.trade && s.quote == t.quote && WithinBlocks(s.order, t.order)
  }

  lemma BlockSides(env: Env, b: Sink, s: Sink, lo: nat, hi: nat)
    requires lo <= hi && b.trade == s.trade && b.quote == s.quote
    ensures var b', s' := Quotes(env, Trades(env, b, lo, hi), lo, hi), InOrder(env, s, lo, hi);
      b'.trade == s'.trade && b'.quote == s'.quote
  {
    var bt := Trades(env, b, lo, hi);
    SidesAlone(env, s, lo, hi);
    SidesAlone(env, b, lo, hi);
    SidesAlone(env, bt, lo, hi);
    SameSide(env, b, s, lo, hi);
    SameSide(env, bt, s, lo, hi);
  }

  lemma BlockOrder(env: Env, b: Sink, s: Sink, k: nat)
    requires WithinBlocks(b.order, s.order)
    ensures var lo, hi := CHUNK * k, CHUNK * (k + 1);
      WithinBlocks(Quotes(env, Trades(env, b, lo, hi), lo, hi).order, InOrder(env, s, lo, hi).order)
  {
    var lo, hi := CHUNK * k, CHUNK * (k + 1);
    OrderIsCalls(env, s, lo, hi);
    OrderIsCalls(env, b, lo, hi);
    OrderIsCalls(env, Trades(env, b, lo, hi), lo, hi);
    CallsRearranged(env, lo, hi);
    var x, y := Calls(env, lo, hi, true, false), Calls(env, lo, hi, false, true);
    assert b.order + x + y == b.order + (x + y);
    OneBlock(b.order, s.order, x + y, Calls(env, lo, hi, true, true), k);
  }

  lemma {:induction false} BlocksMatch(env: Env, k: nat)
    ensures Matches(Blocks(env, k), InOrder(env, EMPTY, 0, CHUNK * k))
  {
    if k > 0 {
      BlocksMatch(env, k - 1);
      var lo, hi := CHUNK * (k - 1), CHUNK * k;
      var b, s := Blocks(env, k - 1), InOrder(env, EMPTY, 0, lo);
      InOrderJoin(env, EMPTY, 0, lo, hi);
      BlockSides(env, b, s, lo, hi);
      BlockOrder(env, b, s, k - 1);
    }
  }

  lemma TailMatches(env: Env, s: Sink, t: Sink, lo: nat, hi: nat)
    requires lo <= hi && Matches(s, t)
    ensures Matches(InOrder(env, s, lo, hi), InOrder(env, t, lo, hi))
  {
    SidesAlone(env, s, lo, hi);
    SidesAlone(env, t, lo, hi);
    SameSide(env, s, t, lo, hi);
    OrderIsCalls(env, s, lo, hi);
    OrderIsCalls(env, t, lo, hi);
  }

  /** For every event array and every pair of handlers, each handler gets the same call
      sequence from both paths, the counts agree, and no event leaves its block of eight. */
  lemma Avx2MatchesScalar(env: Env)
    ensures Matches(Avx2(env), Scalar(env))
    ensures Avx2(env).Processed() == Scalar(env).Processed()
  {
    var n := |env.events|;
    var k := n / CHUNK;
    BlocksMatch(env, k);
    InOrderJoin(env, EMPTY, 0, CHUNK * k, n);
    TailMatches(env, Blocks(env, k), InOrder(env, EMPTY, 0, CHUNK * k), CHUNK * k, n);
  }

  // ----- what an event says, key by key -----

  predicate SaysText(j: Json, key: string, s: string) { (key in j && j[key] == Str(s)) || (key !in j && s == "") }

  /** The number, a text that parses to it, or zero for anything else. */
  predicate SaysNumber(j: Json, key: string, x: real, stod: string -> Option<real>) {
    || (key in j && j[key] == Num(x))
    || (key in j && j[key].Str? && j[key].text != "" && stod(j[key].text) == Some(x))
    || (x == 0.0 && (key in j ==> j[key].Null? || j[key].Other? || j[key] == Str("")
                                  || (j[key].Str? && stod(j[key].text).None?)))
  }

  predicate SaysTrade(j: Json, e: TradeEvent, stod: string -> Option<real>) {
    && "type" in j && j["type"] == Str("trade")
    && SaysText(j, "symbol", e.symbol) && SaysText(j, "exch", e.exchange) && SaysText(j, "date", e.date)
    && SaysNumber(j, "price", e.price, stod) && SaysNumber(j, "size", e.size, stod)
    && SaysNumber(j, "cvol", e.cvol, stod) && SaysNumber(j, "last", e.last, stod)
  }

  predicate SaysQuote(j: Json, e: QuoteEvent, stod: string -> Option<real>) {
    && "type" in j && j["type"] == Str("quote")
    && SaysText(j, "symbol", e.symbol)
    && SaysNumber(j, "bid", e.bid, stod) && SaysNumber(j, "ask", e.ask, stod)
    && SaysNumber(j, "bidsz", e.bidSize, stod) && SaysNumber(j, "asksz", e.askSize, stod)
    && SaysText(j, "bidexch", e.bidExchange) && SaysText(j, "biddate", e.bidDate)
    && SaysText(j, "askexch", e.askExchange) && SaysText(j, "askdate", e.askDate)
  }

  /** What a consumer of one JSON value should get. */
  datatype Item = Trade(trade: TradeEvent) | Quote(quote: QuoteEvent) | Neither

  ghost predicate Says(j: Json, item: Item, stod: string -> Option<real>) {
    match item
    case Trade(e) => SaysTrade(j, e, stod)
    case Quote(e) => SaysQuote(j, e, stod)
    case Neither => (forall e :: !SaysTrade(j, e, stod)) && (forall e :: !SaysQuote(j, e, stod))
  }

  function TradesOf(items: seq<Item>): seq<TradeEvent> {
    if items == [] then []
    else
      var front, last := TradesOf(items[..|items| - 1]), items[|items| - 1];
      if last.Trade? then front + [last.trade] else front
  }

  function QuotesOf(items: seq<Item>): seq<QuoteEvent> {
    if items == [] then []
    else
      var front, last := QuotesOf(items[..|items| - 1]), items[|items| - 1];
      if last.Quote? then front + [last.quote] else front
  }

  lemma TextRead(j: Json, key: string, s: string)
    ensures TextField(j, key) == Some(s) <==> SaysText(j, key, s)
  {
  }

  lemma NumberRead(j: Json, key: string, x: real, stod: string -> Option<real>)
    ensures NumericField(j, key, stod) == x <==> SaysNumber(j, key, x, stod)
  {
  }

  /** The trade built from a JSON value is e exactly when the value says e. */
  lemma TradeReadIff(j: Json, e: TradeEvent, stod: string -> Option<real>)
    ensures HasType(j, "trade") && BuildTrade(j, TextField(j, "symbol"), stod) == Some(e) <==> SaysTrade(j, e, stod)
  {
    TextRead(j, "symbol", e.symbol);
    TextRead(j, "exch", e.exchange);
    TextRead(j, "date", e.date);
    NumberRead(j, "price", e.price, stod);
    NumberRead(j, "size", e.size, stod);
    NumberRead(j, "cvol", e.cvol, stod);
    NumberRead(j, "last", e.last, stod);
  }

  lemma QuoteReadIff(j: Json, e: QuoteEvent, stod: string -> Option<real>)
    ensures HasType(j, "quote") && BuildQuote(j, TextField(j, "symbol"), stod) == Some(e) <==> SaysQuote(j, e, stod)
  {
    TextRead(j, "symbol", e.symbol);
    NumberRead(j, "bid", e.bid, stod);
    NumberRead(j, "ask", e.ask, stod);
    NumberRead(j, "bidsz", e.bidSize, stod);
    NumberRead(j, "asksz", e.askSize, stod);
    TextRead(j, "bidexch", e.bidExchange);
    TextRead(j, "biddate", e.bidDate);
    TextRead(j, "askexch", e.askExchange);
    TextRead(j, "askdate", e.askDate);
  }

  /** Every JSON value says something, possibly that there is nothing to hand out. */
  lemma SomethingSaid(j: Json, stod: string -> Option<real>) returns (item: Item)
    ensures Says(j, item, stod)
  {
    var t, q := BuildTrade(j, TextField(j, "symbol"), stod), BuildQuote(j, TextField(j, "symbol"), stod);
    if HasType(j, "trade") && t.Some? {
      item := Trade(t.value);
      TradeReadIff(j, t.value, stod);
    } else if HasType(j, "quote") && q.Some? {
      item := Quote(q.value);
      QuoteReadIff(j, q.value, stod);
    } else {
      item := Neither;
      forall e { TradeReadIff(j, e, stod); }
      forall e { QuoteReadIff(j, e, stod); }
    }
  }

  lemma ItemAt(env: Env, i: nat, item: Item)
    requires i < |env.events| && Says(env.events[i], item, env.stod)
    ensures TradeAt(env, i) == if env.tradeHandler.Some? && item.Trade? then Some(item.trade) else None
    ensures QuoteAt(env, i) == if env.quoteHandler.Some? && item.Quote? then Some(item.quote) else None
  {
    var j := env.events[i];
    forall e { TradeReadIff(j, e, env.stod); }
    forall e { QuoteReadIff(j, e, env.stod); }
  }

  /** How many of the calls return normally. */
  function Succeeded<E>(h: Handler<E>, calls: seq<E>): nat {
    if calls == [] then 0
    else
      var front := calls[..|calls| - 1];
      Succeeded(h, front) + if h(front, calls[|calls| - 1]) then 1 else 0
  }

  /** What one handler should have seen: its events in order, counted where it returned. */
  ghost predicate Saw<E>(side: Side<E>, handler: Option<Handler<E>>, events: seq<E>) {
    side == if handler.None? then Side([], 0) else Side(events, Succeeded(handler.value, events))
  }

  lemma FeedSaw<E>(side: Side<E>, h: Handler<E>, events: seq<E>, e: E)
    requires Saw(side, Some(h), events)
    ensures Saw(Feed(side, h, e), Some(h), events + [e])
  {
    assert (events + [e])[..|events|] == events;
  }

  lemma {:induction false} InOrderSaw(env: Env, items: seq<Item>, n: nat)
    requires n <= |items| == |env.events|
    requires forall i :: 0 <= i < |items| ==> Says(env.events[i], items[i], env.stod)
    ensures Saw(InOrder(env, EMPTY, 0, n).trade, env.tradeHandler, TradesOf(items[..n]))
    ensures Saw(InOrder(env, EMPTY, 0, n).quote, env.quoteHandler, QuotesOf(items[..n]))
  {
    if n > 0 {
      var s, item := InOrder(env, EMPTY, 0, n - 1), items[n - 1];
      InOrderSaw(env, items, n - 1);
      ItemAt(env, n - 1, item);
      assert items[..n][..n - 1] == items[..n - 1];
      if item.Trade? && env.tradeHandler.Some? {
        FeedSaw(s.trade, env.tradeHandler.value, TradesOf(items[..n - 1]), item.trade);
      }
      if item.Quote? && env.quoteHandler.Some? {
        FeedSaw(s.quote, env.quoteHandler.value, QuotesOf(items[..n - 1]), item.quote);
      }
    }
  }

  /** Whatever way a list of events is written down, each handler gets exactly its events,
      in order and with every field as written, from the scalar and from the blocked path. */
  lemma EventsArrive(env: Env, items: seq<Item>)
    requires |items| == |env.events|
    requires forall i :: 0 <= i < |items| ==> Says(env.events[i], items[i], env.stod)
    ensures Saw(Scalar(env).trade, env.tradeHandler, TradesOf(items))
    ensures Saw(Scalar(env).quote, env.quoteHandler, QuotesOf(items))
    ensures Saw(Avx2(env).trade, env.tradeHandler, TradesOf(items))
    ensures Saw(Avx2(env).quote, env.quoteHandler, QuotesOf(items))
  {
    InOrderSaw(env, items, |items|);
    assert items[..|items|] == items;
    Avx2MatchesScalar(env);
  }

  /** The plain way to write a trade and a quote. */
  function TradeJson(e: TradeEvent): Json {
    map["type" := Str("trade"), "symbol" := Str(e.symbol), "exch" := Str(e.exchange), "price" := Num(e.price),
        "size" := Num(e.size), "cvol" := Num(e.cvol), "last" := Num(e.last), "date" := Str(e.date)]
  }

  function QuoteJson(e: QuoteEvent): Json {
    map["type" := Str("quote"), "symbol" := Str(e.symbol), "bid" := Num(e.bid), "ask" := Num(e.ask),
        "bidsz" := Num(e.bidSize), "asksz" := Num(e.askSize), "bidexch" := Str(e.bidExchange),
        "biddate" := Str(e.bidDate), "askexch" := Str(e.askExchange), "askdate" := Str(e.askDate)]
  }

  lemma PlainTrade(e: TradeEvent, stod: string -> Option<real>)
    ensures Says(TradeJson(e), Trade(e), stod)
  {
  }

  lemma PlainQuote(e: QuoteEvent, stod: string -> Option<real>)
    ensures Says(QuoteJson(e), Quote(e), stod)
  {
  }

  /** The round trip: lists of trades and quotes written plainly arrive as they were. */
  lemma PlainEventsArrive(env: Env, items: seq<Item>)
    requires |items| == |env.events| && env.tradeHandler.Some? && env.quoteHandler.Some?
    requires forall i :: 0 <= i < |items| ==>
      !items[i].Neither? && env.events[i] == if items[i].Trade? then TradeJson(items[i].trade) else QuoteJson(items[i].quote)
    ensures Scalar(env).trade.calls == Avx2(env).trade.calls == TradesOf(items)
    ensures Scalar(env).quote.calls == Avx2(env).quote.calls == QuotesOf(items)
  {
    forall i | 0 <= i < |items| ensures Says(env.events[i], items[i], env.stod) {
      if items[i].Trade? { PlainTrade(items[i].trade, env.stod); } else { PlainQuote(items[i].quote, env.stod); }
    }
    EventsArrive(env, items);
  }

  // ----- where a type error leaves the two paths -----

  predicate FirstIllTyped(events: seq<Json>, k: nat) {
    k < |events| && !Typed(events[k]) && WellTyped(events[..k])
  }

  predicate FirstBadType(events: seq<Json>, k: nat) {
    k < |events| && !TypeOk(events[k]) && TypesOk(events[..k])
  }

  /** Stopped at index k, AVX2 agrees with scalar exactly when no earlier event of a whole
      block around k had been handed out; scalar is ahead by precisely those. */
  lemma StoppedAgreeIff(env: Env, k: nat)
    ensures var lo := 8 * (k / 8);
      && (k < 8 * (|env.events| / 8) ==>
            && Matches(Avx2UpTo(env, k), InOrder(env, EMPTY, 0, lo))
            && InOrder(env, EMPTY, 0, k).order == InOrder(env, EMPTY, 0, lo).order + Calls(env, lo, k, true, true))
      && (Matches(Avx2UpTo(env, k), InOrder(env, EMPTY, 0, k))
          <==> k >= 8 * (|env.events| / 8) || Calls(env, lo, k, true, true) == [])
  {
    var whole, lo := |env.events| / CHUNK, CHUNK * (k / CHUNK);
    if k < CHUNK * whole {
      var b, s := Blocks(env, k / CHUNK), InOrder(env, EMPTY, 0, lo);
      BlocksMatch(env, k / CHUNK);
      InOrderJoin(env, EMPTY, 0, lo, k);
      OrderIsCalls(env, s, lo, k);
      if Calls(env, lo, k, true, true) == [] {
        NothingGiven(env, s, lo, k);
      } else {
        assert |b.order| == |s.order| < |InOrder(env, EMPTY, 0, k).order|;
      }
    } else {
      BlocksMatch(env, whole);
      InOrderJoin(env, EMPTY, 0, CHUNK * whole, k);
      TailMatches(env, Blocks(env, whole), InOrder(env, EMPTY, 0, CHUNK * whole), CHUNK * whole, k);
    }
  }

  lemma {:induction false} NothingGiven(env: Env, s: Sink, lo: nat, hi: nat)
    requires lo <= hi && Calls(env, lo, hi, true, true) == []
    ensures InOrder(env, s, lo, hi) == s
  {
    if lo < hi { NothingGiven(env, s, lo, hi - 1); }
  }

  /** A trade before a bad type in the same block: scalar hands it out, AVX2 does not. */
  lemma StoppedApart(env: Env)
    requires env.tradeHandler.Some?
    ensures var e := env.(events := [map["type" := Str("trade")]] + seq(7, _ => map["type" := Null]));
      FirstBadType(e.events, 1) && InOrder(e, EMPTY, 0, 1).order == [0] && Avx2UpTo(e, 1).order == []
  {
    var trade: Json := map["type" := Str("trade")];
    var e := env.(events := [trade] + seq(7, _ => map["type" := Null]));
    assert e.events[0] == trade && e.events[1] == map["type" := Null];
    assert TradeAt(e, 0).Some? && QuoteAt(e, 0).None?;
    assert InOrder(e, EMPTY, 0, 0) == EMPTY;
  }

  // ----- the two paths as they are written -----

  /** `Escaped` is the type error that leaves the function. */
  datatype Result = Returned(sink: Sink) | Escaped(sink: Sink)

  /** The scalar path. It reads `symbol` outside the `try`. */
  method ProcessScalar(env: Env) returns (r: Result)
    ensures r.Returned? <==> WellTyped(env.events)
    ensures r.Returned? ==> r.sink == Scalar(env)
    ensures r.Escaped? ==> exists k: nat :: FirstIllTyped(env.events, k) && r.sink == InOrder(env, EMPTY, 0, k)
  {
    var s := EMPTY;
    for i := 0 to |env.events|
      invariant s == InOrder(env, EMPTY, 0, i)
      invariant forall j :: 0 <= j < i ==> Typed(env.events[j])
    {
      var json := env.events[i];
      if "type" !in json {
        continue;
      }
      if !json["type"].Str? {
        assert FirstIllTyped(env.events, i);
        return Escaped(s);
      }
      var symbol := TextField(json, "symbol");
      if symbol.None? {
        assert FirstIllTyped(env.events, i);
        return Escaped(s);
      }
      s := Dispatch(env, s, i, symbol);
    }
    r := Returned(s);
  }

  /** The body of the `try`: build the event of one kind and call its handler. */
  method Dispatch(env: Env, s: Sink, i: nat, symbol: Option<string>) returns (s': Sink)
    requires i < |env.events| && "type" in env.events[i] && env.events[i]["type"].Str?
    requires symbol == TextField(env.events[i], "symbol")
    ensures s' == GiveQuote(env, GiveTrade(env, s, i), i)
  {
    var json := env.events[i];
    var name := json["type"].text;
    s' := s;
    if name == "trade" && env.tradeHandler.Some? {
      var event := BuildTrade(json, symbol, env.stod);
      if event.Some? {
        s' := s.(trade := Feed(s.trade, env.tradeHandler.value, event.value), order := s.order + [i]);
      }
    } else if name == "quote" && env.quoteHandler.Some? {
      var event := BuildQuote(json, symbol, env.stod);
      if event.Some? {
        s' := s.(quote := Feed(s.quote, env.quoteHandler.value, event.value), order := s.order + [i]);
      }
    }
  }

  /** The classification loop of one block; it stops at a type that is not a string. */
  method Classify(env: Env, start: nat)
    returns (ok: bool, isTrade: array<bool>, isQuote: array<bool>, ghost stopped: nat)
    requires start + CHUNK <= |env.events|
    ensures fresh(isTrade) && fresh(isQuote) && isTrade.Length == isQuote.Length == CHUNK
    ensures ok <==> forall i :: start <= i < start + CHUNK ==> TypeOk(env.events[i])
    ensures !ok ==> start <= stopped < start + CHUNK && !TypeOk(env.events[stopped])
    ensures !ok ==> forall i :: start <= i < stopped ==> TypeOk(env.events[i])
    ensures ok ==> forall i :: 0 <= i < CHUNK ==> isTrade[i] == HasType(env.events[start + i], "trade")
    ensures ok ==> forall i :: 0 <= i < CHUNK ==> isQuote[i] == HasType(env.events[start + i], "quote")
  {
    isTrade := new bool[CHUNK](_ => false);
    isQuote := new bool[CHUNK](_ => false);
    for i := 0 to CHUNK
      invariant forall j :: start <= j < start + i ==> TypeOk(env.events[j])
      invariant forall j :: 0 <= j < i ==> isTrade[j] == HasType(env.events[start + j], "trade")
      invariant forall j :: 0 <= j < i ==> isQuote[j] == HasType(env.events[start + j], "quote")
      invariant forall j :: i <= j < CHUNK ==> !isTrade[j] && !isQuote[j]
    {
      var json := env.events[start + i];
      if "type" in json {
        if !json["type"].Str? {
          return false, isTrade, isQuote, start + i;
        }
        isTrade[i] := json["type"].text == "trade";
        isQuote[i] := json["type"].text == "quote";
      }
    }
    ok, stopped := true, start + CHUNK;
  }

  method TradePass(env: Env, s: Sink, start: nat, isTrade: array<bool>) returns (s': Sink)
    requires start + CHUNK <= |env.events| && isTrade.Length == CHUNK
    requires forall i :: 0 <= i < CHUNK ==> isTrade[i] == HasType(env.events[start + i], "trade")
    ensures s' == Trades(env, s, start, start + CHUNK)
  {
    s' := s;
    if env.tradeHandler.Some? {
      for i := 0 to CHUNK
        invariant s' == Trades(env, s, start, start + i)
      {
        if isTrade[i] {
          var json := env.events[start + i];
          var event := BuildTrade(json, TextField(json, "symbol"), env.stod);
          if event.Some? {
            s' := s'.(trade := Feed(s'.trade, env.tradeHandler.value, event.value), order := s'.order + [start + i]);
          }
        }
      }
    } else {
      NoTrades(env, s, start, start + CHUNK);
    }
  }

  lemma {:induction false} NoTrades(env: Env, s: Sink, lo: nat, hi: nat)
    requires lo <= hi && env.tradeHandler.None?
    ensures Trades(env, s, lo, hi) == s
  {
    if lo < hi { NoTrades(env, s, lo, hi - 1); }
  }

  method QuotePass(env: Env, s: Sink, start: nat, isQuote: array<bool>) returns (s': Sink)
    requires start + CHUNK <= |env.events| && isQuote.Length == CHUNK
    requires forall i :: 0 <= i < CHUNK ==> isQuote[i] == HasType(env.events[start + i], "quote")
    ensures s' == Quotes(env, s, start, start + CHUNK)
  {
    s' := s;
    if env.quoteHandler.Some? {
      for i := 0 to CHUNK
        invariant s' == Quotes(env, s, start, start + i)
      {
        if isQuote[i] {
          var json := env.events[start + i];
          var event := BuildQuote(json, TextField(json, "symbol"), env.stod);
          if event.Some? {
            s' := s'.(quote := Feed(s'.quote, env.quoteHandler.value, event.value), order := s'.order + [start + i]);
          }
        }
      }
    } else {
      NoQuotes(env, s, start, start + CHUNK);
    }
  }

  lemma {:induction false} NoQuotes(env: Env, s: Sink, lo: nat, hi: nat)
    requires lo <= hi && env.quoteHandler.None?
    ensures Quotes(env, s, lo, hi) == s
  {
    if lo < hi { NoQuotes(env, s, lo, hi - 1); }
  }

  /** The AVX2 path. Wherever the scalar path returns, this one returns too, with the same
      count and the same calls per handler. */
  method ProcessAvx2(env: Env) returns (r: Result)
    ensures r.Returned? <==> TypesOk(env.events)
    ensures r.Returned? ==> r.sink == Avx2(env)
    ensures r.Escaped? ==> exists k: nat :: FirstBadType(env.events, k) && r.sink == Avx2UpTo(env, k)
    ensures r.Returned? ==> Matches(r.sink, Scalar(env)) && r.sink.Processed() == Scalar(env).Processed()
  {
    var n := |env.events|;
    var chunks := n / CHUNK;
    var s := EMPTY;
    for chunk := 0 to chunks
      invariant s == Blocks(env, chunk)
      invariant forall j :: 0 <= j < CHUNK * chunk ==> TypeOk(env.events[j])
    {
      var start := chunk * CHUNK;
      var ok, isTrade, isQuote, stopped := Classify(env, start);
      if !ok {
        assert FirstBadType(env.events, stopped) && stopped / CHUNK == chunk;
        return Escaped(s);
      }
      s := TradePass(env, s, start, isTrade);
      s := QuotePass(env, s, start, isQuote);
    }
    for i := chunks * CHUNK to n
      invariant s == InOrder(env, Blocks(env, chunks), CHUNK * chunks, i)
      invariant forall j :: 0 <= j < i ==> TypeOk(env.events[j])
    {
      var json := env.events[i];
      if "type" !in json {
        continue;
      }
      if !json["type"].Str? {
        assert FirstBadType(env.events, i);
        return Escaped(s);
      }
      s := Dispatch(env, s, i, TextField(json, "symbol"));
    }
    r := Returned(s);
    Avx2MatchesScalar(env);
  }

  /** The paths do differ on a symbol that is not a string: scalar lets the type error
      escape, AVX2 skips the event. */
  lemma SymbolMatters(env: Env)
    ensures WellTyped(env.events) ==> TypesOk(env.events)
    ensures var bad := map["type" := Str("trade"), "symbol" := Null];
      TypesOk([bad]) && !WellTyped([bad]) && Avx2(env.(events := [bad])).order == []
  {
    var bad: Json := map["type" := Str("trade"), "symbol" := Null];
    var e := env.(events := [bad]);
    assert TextField(bad, "symbol").None?;
    assert !Typed([bad][0]);
    assert TradeAt(e, 0).None? && QuoteAt(e, 0).None?;
    assert InOrder(e, EMPTY, 0, 1) == EMPTY;
  }
}
