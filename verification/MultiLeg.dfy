/** The form parameters of `TradingService::placeMultiLegOrder` in src/trading.cpp. */
module MultiLeg {
  import opened Common
  import Query

  // ----- decimal printing -----

  predicate Digit(c: Byte) { '0' <= c <= '9' }

  /** `std::to_string` of an index. */
  function Decimal(n: nat): (s: Bytes)
    ensures s != [] && forall i :: 0 <= i < |s| ==> Digit(s[i])
  {
    if n < 10 then ['0' + n as char] else Decimal(n / 10) + ['0' + (n % 10) as char]
  }

  function Undecimal(s: Bytes): nat
    requires forall i :: 0 <= i < |s| ==> Digit(s[i])
  {
    if s == [] then 0
    else
      assert Digit(s[|s| - 1]);
      Undecimal(s[..|s| - 1]) * 10 + (s[|s| - 1] - '0') as nat
  }

  lemma {:induction false} DecimalBack(n: nat)
    ensures Undecimal(Decimal(n)) == n
    ensures n > 0 ==> Decimal(n)[0] != '0'
    ensures n < 10 ==> |Decimal(n)| == 1
  {
    if n >= 10 {
      DecimalBack(n / 10);
      assert Decimal(n)[..|Decimal(n)| - 1] == Decimal(n / 10);
    }
  }

  // ----- keys -----

  datatype Field = Symbol | Side | Quantity

  const OPTION: Bytes := "option["

  function Suffix(f: Field): Bytes {
    match f
    case Symbol => "[option_symbol]"
    case Side => "[side]"
    case Quantity => "[quantity]"
  }

  function LegKey(i: nat, f: Field): Bytes { OPTION + (Decimal(i) + [']'] + Suffix(f)) }

  lemma DecimalInjective(i: nat, j: nat)
    requires Decimal(i) == Decimal(j)
    ensures i == j
  {
    DecimalBack(i);
    DecimalBack(j);
  }

  lemma SameSplit(a: Bytes, x: Bytes, b: Bytes, y: Bytes)
    requires ']' !in a && ']' !in b && a + [']'] + x == b + [']'] + y
    ensures a == b && x == y
  {
    Query.IndexOfJoin(a, ']', x);
    Query.IndexOfJoin(b, ']', y);
    var s, t := a + [']'] + x, b + [']'] + y;
    assert s[..|a|] == a && t[..|b|] == b;
    assert s[|a| + 1..] == x && t[|b| + 1..] == y;
  }

  lemma SameTail(a: Bytes, b: Bytes)
    requires OPTION + a == OPTION + b
    ensures a == b
  {
    assert (OPTION + a)[|OPTION|..] == a && (OPTION + b)[|OPTION|..] == b;
  }

  /** Keys of different legs or fields never collide. */
  lemma LegKeyInjective(i: nat, f: Field, j: nat, g: Field)
    requires LegKey(i, f) == LegKey(j, g)
    ensures i == j && f == g
  {
    SameTail(Decimal(i) + [']'] + Suffix(f), Decimal(j) + [']'] + Suffix(g));
    SameSplit(Decimal(i), Suffix(f), Decimal(j), Suffix(g));
    DecimalInjective(i, j);
    SuffixInjective(f, g);
  }

  lemma SuffixInjective(f: Field, g: Field)
    requires Suffix(f) == Suffix(g)
    ensures f == g
  {
  }

  const CLASS: Bytes := "class"
  const TYPE: Bytes := "type"
  const DURATION: Bytes := "duration"
  const PRICE: Bytes := "price"
  const TAG: Bytes := "tag"
  const MULTILEG: Bytes := "multileg"

  lemma HeaderKeyDiffers(i: nat, f: Field)
    ensures LegKey(i, f) !in {CLASS, TYPE, DURATION, PRICE, TAG}
  {
  }

  // ----- the order -----

  datatype OptionAction = BuyToOpen | BuyToClose | SellToOpen | SellToClose

  /** Line 319 casts the action to `OrderSide`, whose first four values are these. */
  function SideText(a: OptionAction): Bytes {
    match a
    case BuyToOpen => "buy"
    case BuyToClose => "sell"
    case SellToOpen => "buy_to_open"
    case SellToClose => "buy_to_close"
  }

  /** What `toString(OptionAction)` prints. */
  function ActionText(a: OptionAction): Bytes {
    match a
    case BuyToOpen => "buy_to_open"
    case BuyToClose => "buy_to_close"
    case SellToOpen => "sell_to_open"
    case SellToClose => "sell_to_close"
  }

  /** The printed side is never the name of the leg's action, although it tells actions apart. */
  lemma SideIsNotTheAction(a: OptionAction, b: OptionAction)
    ensures SideText(a) != ActionText(a)
    ensures SideText(a) == SideText(b) ==> a == b
  {
  }

  datatype Leg = Leg(symbol: Bytes, action: OptionAction, quantity: real)

  /** Type and duration are given by their printed names. */
  datatype Order = Order(
    legs: seq<Leg>, kind: Bytes, duration: Bytes, netDebit: Option<real>, netCredit: Option<real>, tag: Option<Bytes>)

  type Params = map<Bytes, Bytes>

  function LegValue(leg: Leg, f: Field, format: real -> Bytes): Bytes {
    match f
    case Symbol => leg.symbol
    case Side => SideText(leg.action)
    case Quantity => format(leg.quantity)
  }

  function Header(o: Order, format: real -> Bytes): Params {
    var base := map[CLASS := MULTILEG, TYPE := o.kind, DURATION := o.duration];
    var debit := if o.netDebit.Some? then base[PRICE := format(o.netDebit.value)] else base;
    if o.netCredit.Some? then debit[PRICE := format(o.netCredit.value)] else debit
  }

  /** The header with the entries of the first n legs. */
  function WithLegs(o: Order, n: nat, format: real -> Bytes): Params
    requires n <= |o.legs|
  {
    if n == 0 then Header(o, format)
    else AddLeg(WithLegs(o, n - 1, format), n - 1, o.legs[n - 1], format)
  }

  function AddLeg(p: Params, i: nat, leg: Leg, format: real -> Bytes): Params {
    p[LegKey(i, Symbol) := LegValue(leg, Symbol, format)]
     [LegKey(i, Side) := LegValue(leg, Side, format)]
     [LegKey(i, Quantity) := LegValue(leg, Quantity, format)]
  }

  function ParamsOf(o: Order, format: real -> Bytes): Params {
    var p := WithLegs(o, |o.legs|, format);
    if o.tag.Some? then p[TAG := o.tag.value] else p
  }

  /** Adding leg i writes its three keys and no key of another leg. */
  lemma AddLegLookup(p: Params, i: nat, leg: Leg, format: real -> Bytes, j: nat, f: Field)
    ensures var q := AddLeg(p, i, leg, format);
      if i == j then LegKey(j, f) in q && q[LegKey(j, f)] == LegValue(leg, f, format)
      else (LegKey(j, f) in q <==> LegKey(j, f) in p) && (LegKey(j, f) in p ==> q[LegKey(j, f)] == p[LegKey(j, f)])
  {
    forall g | LegKey(j, f) == LegKey(i, g) ensures i == j && f == g { LegKeyInjective(j, f, i, g); }
    forall g, h | LegKey(i, g) == LegKey(i, h) ensures g == h { LegKeyInjective(i, g, i, h); }
  }

  lemma {:induction false} LegLookup(o: Order, n: nat, format: real -> Bytes, j: nat, f: Field)
    requires n <= |o.legs|
    ensures LegKey(j, f) in WithLegs(o, n, format) <==> j < n
    ensures j < n ==> WithLegs(o, n, format)[LegKey(j, f)] == LegValue(o.legs[j], f, format)
  {
    HeaderKeyDiffers(j, f);
    if n > 0 {
      LegLookup(o, n - 1, format, j, f);
      AddLegLookup(WithLegs(o, n - 1, format), n - 1, o.legs[n - 1], format, j, f);
    }
  }

  /** Every leg's symbol, side and quantity text can be read back by index, and there is
      no key for an index beyond the last leg. */
  lemma ReadBack(o: Order, format: real -> Bytes, j: nat, f: Field)
    ensures LegKey(j, f) in ParamsOf(o, format) <==> j < |o.legs|
    ensures j < |o.legs| ==> ParamsOf(o, format)[LegKey(j, f)] == LegValue(o.legs[j], f, format)
  {
    HeaderKeyDiffers(j, f);
    LegLookup(o, |o.legs|, format, j, f);
  }

  lemma LegKeyIs(i: nat)
    ensures LegKey(i, Symbol) == "option[" + Decimal(i) + "][option_symbol]"
    ensures LegKey(i, Side) == "option[" + Decimal(i) + "][side]"
    ensures LegKey(i, Quantity) == "option[" + Decimal(i) + "][quantity]"
  {
    KeyText(Decimal(i), Suffix(Symbol));
    KeyText(Decimal(i), Suffix(Side));
    KeyText(Decimal(i), Suffix(Quantity));
  }

  lemma KeyText(d: Bytes, suffix: Bytes)
    ensures OPTION + (d + [']'] + suffix) == "option[" + d + ([']'] + suffix)
  {
  }

  /** Leg j of the order in the form, key by key. */
  lemma LegEntries(o: Order, format: real -> Bytes, j: nat)
    requires j < |o.legs|
    ensures var p, leg, key := ParamsOf(o, format), o.legs[j], "option[" + Decimal(j);
      && key + "][option_symbol]" in p && p[key + "][option_symbol]"] == leg.symbol
      && key + "][quantity]" in p && p[key + "][quantity]"] == format(leg.quantity)
      && key + "][side]" in p
      && p[key + "][side]"] == match leg.action
           case BuyToOpen => "buy"
           case BuyToClose => "sell"
           case SellToOpen => "buy_to_open"
           case SellToClose => "buy_to_close"
  {
    LegKeyIs(j);
    ReadBack(o, format, j, Symbol);
    ReadBack(o, format, j, Side);
    ReadBack(o, format, j, Quantity);
  }

  /** Orders with the same form have the same legs, up to how quantities print. */
  lemma LegsDetermined(o: Order, r: Order, format: real -> Bytes)
    requires ParamsOf(o, format) == ParamsOf(r, format)
    ensures |o.legs| == |r.legs|
    ensures forall j :: 0 <= j < |o.legs| ==>
      && o.legs[j].symbol == r.legs[j].symbol
      && o.legs[j].action == r.legs[j].action
      && format(o.legs[j].quantity) == format(r.legs[j].quantity)
  {
    ReadBack(o, format, |r.legs|, Symbol);
    ReadBack(r, format, |r.legs|, Symbol);
    ReadBack(o, format, |o.legs|, Symbol);
    ReadBack(r, format, |o.legs|, Symbol);
    forall j | 0 <= j < |o.legs|
      ensures o.legs[j].symbol == r.legs[j].symbol && o.legs[j].action == r.legs[j].action
           && format(o.legs[j].quantity) == format(r.legs[j].quantity)
    {
      forall f ensures LegValue(o.legs[j], f, format) == LegValue(r.legs[j], f, format) {
        ReadBack(o, format, j, f);
        ReadBack(r, format, j, f);
      }
      var a, b := o.legs[j], r.legs[j];
      assert LegValue(a, Symbol, format) == LegValue(b, Symbol, format);
      assert LegValue(a, Side, format) == LegValue(b, Side, format);
      assert LegValue(a, Quantity, format) == LegValue(b, Quantity, format);
      SideIsNotTheAction(a.action, b.action);
    }
  }

  lemma InsertNew(p: Params, k: Bytes, v: Bytes)
    requires k !in p
    ensures |p[k := v]| == |p| + 1
  {
  }

  lemma AddLegCount(p: Params, i: nat, leg: Leg, format: real -> Bytes)
    requires forall f :: LegKey(i, f) !in p
    ensures |AddLeg(p, i, leg, format)| == |p| + 3
  {
  }

  /** Exactly three entries per leg, on top of the header's. */
  lemma {:induction false} EntryCount(o: Order, n: nat, format: real -> Bytes)
    requires n <= |o.legs|
    ensures |WithLegs(o, n, format)| == |Header(o, format)| + 3 * n
  {
    if n > 0 {
      var i := n - 1;
      EntryCount(o, i, format);
      forall f ensures LegKey(i, f) !in WithLegs(o, i, format) { LegLookup(o, i, format, i, f); }
      AddLegCount(WithLegs(o, i, format), i, o.legs[i], format);
    }
  }

  /** A key that belongs to no leg keeps its header value. */
  lemma {:induction false} HeaderLookup(o: Order, n: nat, format: real -> Bytes, k: Bytes)
    requires n <= |o.legs| && k in {CLASS, TYPE, DURATION, PRICE, TAG}
    ensures k in WithLegs(o, n, format) <==> k in Header(o, format)
    ensures k in Header(o, format) ==> WithLegs(o, n, format)[k] == Header(o, format)[k]
  {
    if n > 0 {
      HeaderLookup(o, n - 1, format, k);
      HeaderKeyDiffers(n - 1, Symbol);
      HeaderKeyDiffers(n - 1, Side);
      HeaderKeyDiffers(n - 1, Quantity);
    }
  }

  lemma HeaderKeysDistinct()
    ensures |CLASS| == 5 && |TYPE| == 4 && |DURATION| == 8 && |PRICE| == 5 && |TAG| == 3
    ensures CLASS[0] != PRICE[0]
  {
  }

  function Price(o: Order): Option<real> { if o.netCredit.Some? then o.netCredit else o.netDebit }

  /** The header entries survive the legs, a net credit wins over a net debit, and the
      form has no entry besides these and three per leg. */
  lemma HeaderReadBack(o: Order, format: real -> Bytes)
    ensures var p := ParamsOf(o, format);
      && CLASS in p && TYPE in p && DURATION in p
      && p[CLASS] == MULTILEG && p[TYPE] == o.kind && p[DURATION] == o.duration
      && (PRICE in p <==> Price(o).Some?) && (Price(o).Some? ==> p[PRICE] == format(Price(o).value))
      && (TAG in p <==> o.tag.Some?) && (o.tag.Some? ==> p[TAG] == o.tag.value)
      && |p| == 3 + (if Price(o).Some? then 1 else 0) + (if o.tag.Some? then 1 else 0) + 3 * |o.legs|
  {
    HeaderKeysDistinct();
    var n := |o.legs|;
    HeaderLookup(o, n, format, CLASS);
    HeaderLookup(o, n, format, TYPE);
    HeaderLookup(o, n, format, DURATION);
    HeaderLookup(o, n, format, PRICE);
    FormCount(o, format);
  }

  lemma FormCount(o: Order, format: real -> Bytes)
    ensures TAG in ParamsOf(o, format) <==> o.tag.Some?
    ensures |ParamsOf(o, format)| == 3 + (if Price(o).Some? then 1 else 0) + (if o.tag.Some? then 1 else 0) + 3 * |o.legs|
  {
    var n := |o.legs|;
    HeaderLookup(o, n, format, TAG);
    EntryCount(o, n, format);
    HeaderCount(o, format);
    if o.tag.Some? { InsertNew(WithLegs(o, n, format), TAG, o.tag.value); }
  }

  /** The header of the form, key by key. */
  lemma HeaderEntries(o: Order, format: real -> Bytes)
    ensures var p := ParamsOf(o, format);
      && "class" in p && p["class"] == "multileg"
      && "type" in p && p["type"] == o.kind
      && "duration" in p && p["duration"] == o.duration
      && ("price" in p <==> o.netDebit.Some? || o.netCredit.Some?)
      && (o.netCredit.Some? ==> p["price"] == format(o.netCredit.value))
      && (o.netCredit.None? && o.netDebit.Some? ==> p["price"] == format(o.netDebit.value))
      && ("tag" in p <==> o.tag.Some?) && (o.tag.Some? ==> p["tag"] == o.tag.value)
  {
    HeaderReadBack(o, format);
  }

  lemma HeaderCount(o: Order, format: real -> Bytes)
    ensures |Header(o, format)| == 3 + if Price(o).Some? then 1 else 0
    ensures TAG !in Header(o, format)
  {
  }

  datatype Outcome = Rejected | Form(params: Params)

  /** The parameter-building part of the operation. */
  method BuildParams(o: Order, format: real -> Bytes) returns (r: Outcome)
    ensures r == if o.legs == [] then Rejected else Form(ParamsOf(o, format))
  {
    if o.legs == [] {
      return Rejected;
    }
    var params: Params := map[CLASS := MULTILEG];
    params := params[TYPE := o.kind];
    params := params[DURATION := o.duration];
    if o.netDebit.Some? {
      params := params[PRICE := format(o.netDebit.value)];
    }
    if o.netCredit.Some? {
      params := params[PRICE := format(o.netCredit.value)];
    }
    for i := 0 to |o.legs|
      invariant params == WithLegs(o, i, format)
    {
      var leg := o.legs[i];
      params := params[LegKey(i, Symbol) := leg.symbol];
      params := params[LegKey(i, Side) := SideText(leg.action)];
      params := params[LegKey(i, Quantity) := format(leg.quantity)];
    }
    if o.tag.Some? {
      params := params[TAG := o.tag.value];
    }
    r := Form(params);
  }
}
