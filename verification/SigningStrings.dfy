/**
 The strings traders sign. Each payload has its own fixed encoding of bar-separated fields, the market
 name first and unescaped; a string still determines the payload it encodes.
 */
module SigningStrings {
  import opened Primitives

  datatype Side = Buy | Sell

  datatype TimeInForce = GoodTilCancel | GoodTilTime(expiry: nat) | ImmediateOrCancel | FillOrKill

  datatype Payload =
    | Order(market: string, side: Side, tick: nat, qty: nat, tif: TimeInForce, postOnly: bool, nonce: nat,
            leverage: nat)
    | PortfolioKeyRequest(nonce: nat)
    | Offer(market: string, side: Side, tick: nat, maxSize: nat, expiry: Option<nat>, group: Option<nat>,
            reduceOnly: bool, nonce: nat)
    | Cancel(market: string, orderId: nat, nonce: nat)

  // ---- Text of single fields ----

  function Digit(d: nat): char
    requires d < 10
  {
    "0123456789"[d]
  }

  function DigitValue(c: char): nat {
    if '0' <= c <= '9' then c as int - '0' as int else 0
  }

  function Decimal(n: nat): (s: string)
    ensures s != []
  {
    if n < 10 then [Digit(n)] else Decimal(n / 10) + [Digit(n % 10)]
  }

  function DecimalValue(s: string): nat {
    if s == [] then 0 else 10 * DecimalValue(s[..|s| - 1]) + DigitValue(s[|s| - 1])
  }

  lemma {:induction false} DecimalRoundTrip(n: nat)
    ensures DecimalValue(Decimal(n)) == n
    ensures forall i :: 0 <= i < |Decimal(n)| ==> '0' <= Decimal(n)[i] <= '9'
  {
    var s := Decimal(n);
    if n < 10 {
      assert s[..|s| - 1] == [];
    } else {
      DecimalRoundTrip(n / 10);
      assert s[..|s| - 1] == Decimal(n / 10);
    }
  }

  /** No number but zero is written with a leading zero. */
  lemma {:induction false} NoLeadingZero(n: nat)
    ensures Decimal(n)[0] == '0' <==> n == 0
  {
    if n >= 10 {
      NoLeadingZero(n / 10);
    }
  }

  function SideTag(s: Side): string {
    match s
    case Buy => "Buy"
    case Sell => "Sell"
  }

  function TifTag(t: TimeInForce): string {
    match t
    case GoodTilCancel => "GTC"
    case GoodTilTime(e) => "GTT" + Decimal(e)
    case ImmediateOrCancel => "IOC"
    case FillOrKill => "FOK"
  }

  function OptionTag(o: Option<nat>): string {
    match o
    case None => "none"
    case Some(n) => Decimal(n)
  }

  function BoolTag(b: bool): string {
    if b then "true" else "false"
  }

  // ---- Whole strings ----

  function Bars(fields: seq<string>): string {
    if fields == [] then "" else Bars(fields[..|fields| - 1]) + "|" + fields[|fields| - 1]
  }

  function Tag(p: Payload): string {
    match p
    case Order(_, _, _, _, _, _, _, _) => "order|"
    case PortfolioKeyRequest(_) => "portfolio_key_request"
    case Offer(_, _, _, _, _, _, _, _) => "offer|"
    case Cancel(_, _, _) => "cancel|"
  }

  function Market(p: Payload): string {
    if p.PortfolioKeyRequest? then "" else p.market
  }

  /** Everything after the market, in the order it is written. */
  function Fields(p: Payload): seq<string> {
    match p
    case Order(_, side, tick, qty, tif, postOnly, nonce, leverage) =>
      [SideTag(side), Decimal(tick), Decimal(qty), TifTag(tif), BoolTag(postOnly), Decimal(nonce), Decimal(leverage)]
    case PortfolioKeyRequest(nonce) => [Decimal(nonce)]
    case Offer(_, side, tick, maxSize, expiry, group, reduceOnly, nonce) =>
      [SideTag(side), Decimal(tick), Decimal(maxSize), OptionTag(expiry), OptionTag(group), BoolTag(reduceOnly),
       Decimal(nonce)]
    case Cancel(_, orderId, nonce) => [Decimal(orderId), Decimal(nonce)]
  }

  function SigningString(p: Payload): string {
    Tag(p) + Market(p) + Bars(Fields(p))
  }

  // ---- A string determines its payload ----

  predicate BarFree(s: string) {
    '|' !in s
  }

  lemma NoBarAfter(x: string, a: string)
    requires BarFree(a)
    ensures var s := x + "|" + a;
      s[|x|] == '|' && forall i :: |x| < i < |s| ==> s[i] != '|'
  {}

  /** The last bar splits a string in one way only. */
  lemma LastBar(x: string, a: string, y: string, b: string)
    requires BarFree(a) && BarFree(b) && x + "|" + a == y + "|" + b
    ensures x == y && a == b
  {
    var s, t := x + "|" + a, y + "|" + b;
    NoBarAfter(x, a);
    NoBarAfter(y, b);
    assert |x| == |y|;
    assert s[..|x|] == x && t[..|y|] == y && s[|x| + 1..] == a && t[|y| + 1..] == b;
  }

  /** Reading a fixed number of bar-free fields from the right leaves the market, whatever bars it contains. */
  lemma {:induction false} FieldsFromTheRight(x: string, fs: seq<string>, y: string, gs: seq<string>)
    requires |fs| == |gs| && x + Bars(fs) == y + Bars(gs)
    requires forall i :: 0 <= i < |fs| ==> BarFree(fs[i]) && BarFree(gs[i])
    ensures x == y && fs == gs
  {
    var n := |fs| - 1;
    if fs == [] {
      assert x + "" == x && y + "" == y;
    } else {
      assert x + Bars(fs) == (x + Bars(fs[..n])) + "|" + fs[n];
      assert y + Bars(gs) == (y + Bars(gs[..n])) + "|" + gs[n];
      LastBar(x + Bars(fs[..n]), fs[n], y + Bars(gs[..n]), gs[n]);
      FieldsFromTheRight(x, fs[..n], y, gs[..n]);
      assert fs == fs[..n] + [fs[n]] && gs == gs[..n] + [gs[n]];
    }
  }

  lemma FieldsAreBarFree(p: Payload, i: nat)
    requires i < |Fields(p)|
    ensures BarFree(Fields(p)[i])
  {
    forall n: nat ensures BarFree(Decimal(n)) {
      DecimalRoundTrip(n);
    }
    hide Decimal;
  }

  lemma DecimalInjective(a: nat, b: nat)
    requires Decimal(a) == Decimal(b)
    ensures a == b
  {
    DecimalRoundTrip(a);
    DecimalRoundTrip(b);
  }

  lemma OptionTagInjective(a: Option<nat>, b: Option<nat>)
    requires OptionTag(a) == OptionTag(b)
    ensures a == b
  {
    if a.Some? { DecimalRoundTrip(a.value); }
    if b.Some? { DecimalRoundTrip(b.value); }
    assert OptionTag(a)[0] == 'n' <==> a.None?;
    assert OptionTag(b)[0] == 'n' <==> b.None?;
  }

  lemma TifTagInjective(a: TimeInForce, b: TimeInForce)
    requires TifTag(a) == TifTag(b)
    ensures a == b
  {
    hide Decimal;
    var s := TifTag(a);
    assert |s| > 3 <==> a.GoodTilTime?;
    assert |s| > 3 <==> b.GoodTilTime?;
    if a.GoodTilTime? {
      assert s[3..] == Decimal(a.expiry) && s[3..] == Decimal(b.expiry);
      DecimalInjective(a.expiry, b.expiry);
    } else {
      assert a.GoodTilCancel? <==> s[0] == 'G';
      assert a.ImmediateOrCancel? <==> s[0] == 'I';
    }
  }

  lemma TagsInjective(p: Side, q: Side, a: bool, b: bool)
    ensures SideTag(p) == SideTag(q) ==> p == q
    ensures BoolTag(a) == BoolTag(b) ==> a == b
  {
    assert SideTag(p)[0] == 'B' <==> p.Buy?;
    assert BoolTag(a)[0] == 't' <==> a;
  }

  lemma SameOrder(p: Payload, q: Payload)
    requires p.Order? && q.Order? && p.market == q.market && Fields(p) == Fields(q)
    ensures p == q
  {
    hide Decimal, SideTag, TifTag, BoolTag;
    var f, g := Fields(p), Fields(q);
    assert f[0] == g[0] && f[1] == g[1] && f[2] == g[2] && f[3] == g[3] && f[4] == g[4] && f[5] == g[5] && f[6] == g[6];
    TagsInjective(p.side, q.side, p.postOnly, q.postOnly);
    DecimalInjective(p.tick, q.tick);
    DecimalInjective(p.qty, q.qty);
    TifTagInjective(p.tif, q.tif);
    DecimalInjective(p.nonce, q.nonce);
    DecimalInjective(p.leverage, q.leverage);
  }

  lemma SameOffer(p: Payload, q: Payload)
    requires p.Offer? && q.Offer? && p.market == q.market && Fields(p) == Fields(q)
    ensures p == q
  {
    hide Decimal, SideTag, OptionTag, BoolTag;
    var f, g := Fields(p), Fields(q);
    assert f[0] == g[0] && f[1] == g[1] && f[2] == g[2] && f[3] == g[3] && f[4] == g[4] && f[5] == g[5] && f[6] == g[6];
    TagsInjective(p.side, q.side, p.reduceOnly, q.reduceOnly);
    DecimalInjective(p.tick, q.tick);
    DecimalInjective(p.maxSize, q.maxSize);
    OptionTagInjective(p.expiry, q.expiry);
    OptionTagInjective(p.group, q.group);
    DecimalInjective(p.nonce, q.nonce);
  }

  lemma SameRest(p: Payload, q: Payload)
    requires (p.Cancel? && q.Cancel? && p.market == q.market) || (p.PortfolioKeyRequest? && q.PortfolioKeyRequest?)
    requires Fields(p) == Fields(q)
    ensures p == q
  {
    hide Decimal;
    var f, g := Fields(p), Fields(q);
    if p.Cancel? {
      assert f[0] == g[0] && f[1] == g[1];
      DecimalInjective(p.orderId, q.orderId);
    } else {
      assert f[0] == g[0];
    }
    DecimalInjective(p.nonce, q.nonce);
  }

  /** The second character alone tells the four kinds of payload apart. */
  lemma KindIsVisible(p: Payload)
    ensures var s := SigningString(p);
      && |s| > 1
      && (p.Order? <==> s[1] == 'r') && (p.Offer? <==> s[1] == 'f') && (p.Cancel? <==> s[1] == 'a')
      && (p.PortfolioKeyRequest? <==> s[1] == 'o')
  {
    hide Decimal, Bars, Fields;
    assert SigningString(p)[1] == Tag(p)[1];
  }

  /** No two different payloads, of the same or of different kinds, share a signing string. */
  lemma SigningStringIsInjective(p: Payload, q: Payload)
    requires SigningString(p) == SigningString(q)
    ensures p == q
  {
    KindIsVisible(p);
    KindIsVisible(q);
    hide Decimal, SideTag, TifTag, OptionTag, BoolTag, Bars, BarFree;
    assert Tag(p) == Tag(q);
    forall i | 0 <= i < |Fields(p)| ensures BarFree(Fields(p)[i]) && BarFree(Fields(q)[i]) {
      FieldsAreBarFree(p, i);
      FieldsAreBarFree(q, i);
    }
    FieldsFromTheRight(Tag(p) + Market(p), Fields(p), Tag(q) + Market(q), Fields(q));
    assert (Tag(p) + Market(p))[|Tag(p)|..] == Market(p) && (Tag(q) + Market(q))[|Tag(q)|..] == Market(q);
    if p.Order? {
      SameOrder(p, q);
    } else if p.Offer? {
      SameOffer(p, q);
    } else {
      SameRest(p, q);
    }
  }

  // ---- The strings, written out ----

  lemma BarsOfOne(a: string)
    ensures Bars([a]) == "|" + a
  {
    assert [a][..0] == [];
    assert "" + "|" + a == "|" + a;
  }

  lemma BarsOfTwo(a: string, b: string)
    ensures Bars([a, b]) == "|" + a + "|" + b
  {
    BarsOfOne(a);
    assert [a, b][..1] == [a];
  }

  lemma BarsOfThree(a: string, b: string, c: string)
    ensures Bars([a, b, c]) == "|" + a + "|" + b + "|" + c
  {
    BarsOfTwo(a, b);
    assert [a, b, c][..2] == [a, b];
  }

  lemma BarsOfFour(f: seq<string>)
    requires |f| == 4
    ensures Bars(f) == "|" + f[0] + "|" + f[1] + "|" + f[2] + "|" + f[3]
  {
    BarsOfThree(f[0], f[1], f[2]);
    assert f[..3] == [f[0], f[1], f[2]];
  }

  lemma BarsOfSeven(f: seq<string>)
    requires |f| == 7
    ensures Bars(f) == "|" + f[0] + "|" + f[1] + "|" + f[2] + "|" + f[3] + "|" + f[4] + "|" + f[5] + "|" + f[6]
  {
    BarsOfFour(f[..4]);
    assert f[..6][..5] == f[..5] && f[..5][..4] == f[..4];
    assert Bars(f[..5]) == Bars(f[..4]) + "|" + f[4];
    assert Bars(f[..6]) == Bars(f[..5]) + "|" + f[5];
  }

  /** Every kind of payload, part by part in the order it is written. */
  lemma SigningStringIs(p: Payload)
    ensures var s := SigningString(p);
      match p
      case Order(m, side, tick, qty, tif, postOnly, nonce, leverage) =>
        s == "order|" + m + ("|" + (if side == Buy then "Buy" else "Sell") + "|" + Decimal(tick) + "|" + Decimal(qty)
               + "|" + TifTag(tif) + "|" + (if postOnly then "true" else "false") + "|" + Decimal(nonce)
               + "|" + Decimal(leverage))
      case PortfolioKeyRequest(nonce) => s == "portfolio_key_request|" + Decimal(nonce)
      case Offer(m, side, tick, maxSize, expiry, group, reduceOnly, nonce) =>
        s == "offer|" + m + ("|" + (if side == Buy then "Buy" else "Sell") + "|" + Decimal(tick)
               + "|" + Decimal(maxSize) + "|" + (if expiry.Some? then Decimal(expiry.value) else "none")
               + "|" + (if group.Some? then Decimal(group.value) else "none")
               + "|" + (if reduceOnly then "true" else "false") + "|" + Decimal(nonce))
      case Cancel(m, orderId, nonce) => s == "cancel|" + m + ("|" + Decimal(orderId) + "|" + Decimal(nonce))
  {
    hide Decimal, Bars, TifTag;
    match p
    case Order(_, _, _, _, _, _, _, _) => BarsOfSeven(Fields(p));
    case PortfolioKeyRequest(nonce) =>
      BarsOfOne(Decimal(nonce));
      assert Tag(p) + "" == Tag(p);
      assert "portfolio_key_request" + ("|" + Decimal(nonce)) == "portfolio_key_request|" + Decimal(nonce);
    case Offer(_, _, _, _, _, _, _, _) => BarsOfSeven(Fields(p));
    case Cancel(_, orderId, nonce) => BarsOfTwo(Decimal(orderId), Decimal(nonce));
  }

  // ---- The browser builds the same order string ----

  /** Joining with a separator, as the browser does. */
  function Join(parts: seq<string>): string {
    if parts == [] then "" else if |parts| == 1 then parts[0] else parts[0] + "|" + Join(parts[1..])
  }

  /** A time in force as the browser holds it: one of three names, or an expiry. */
  datatype ClientTif = Named(name: string) | Expiring(goodTilTime: nat)

  /** An order as the browser's caller passes it; sides and names are the words of the wire format. */
  datatype SubmitOrderArgs = SubmitOrderArgs(
    marketId: string, side: string, tick: nat, qty: nat, tif: ClientTif, postOnly: bool, leverage: nat)

  /** The words the argument types admit. */
  predicate WellTyped(args: SubmitOrderArgs) {
    && args.side in ["Buy", "Sell"]
    && (args.tif.Named? ==> args.tif.name in ["GoodTilCancel", "ImmediateOrCancel", "FillOrKill"])
  }

  function ClientTifTag(tif: ClientTif): string {
    match tif
    case Named(name) =>
      if name == "GoodTilCancel" then "GTC" else if name == "ImmediateOrCancel" then "IOC" else "FOK"
    case Expiring(t) => "GTT" + Decimal(t)
  }

  /** The nine parts, in the browser's own order. */
  function ClientParts(args: SubmitOrderArgs, nonce: nat): seq<string> {
    ["order", args.marketId, args.side, Decimal(args.tick), Decimal(args.qty), ClientTifTag(args.tif),
     if args.postOnly then "true" else "false", Decimal(nonce), Decimal(args.leverage)]
  }

  function ClientOrderString(args: SubmitOrderArgs, nonce: nat): string {
    Join(ClientParts(args, nonce))
  }

  /** The order the server reads from the request that carries the same arguments. */
  function Received(args: SubmitOrderArgs, nonce: nat): Payload {
    Order(args.marketId,
          if args.side == "Buy" then Buy else Sell,
          args.tick, args.qty,
          match args.tif
          case Named(name) =>
            (if name == "GoodTilCancel" then GoodTilCancel
             else if name == "ImmediateOrCancel" then ImmediateOrCancel
             else FillOrKill)
          case Expiring(t) => GoodTilTime(t),
          args.postOnly, nonce, args.leverage)
  }

  lemma {:induction false} JoinIsBars(head: string, fields: seq<string>)
    ensures Join([head] + fields) == head + Bars(fields)
    decreases |fields|
  {
    var parts := [head] + fields;
    if fields != [] {
      assert parts[1..] == [fields[0]] + fields[1..];
      JoinIsBars(fields[0], fields[1..]);
      BarsFromTheLeft(fields);
      assert head + "|" + (fields[0] + Bars(fields[1..])) == head + ("|" + fields[0] + Bars(fields[1..]));
    } else {
      assert head + "" == head;
    }
  }

  lemma {:induction false} BarsFromTheLeft(fields: seq<string>)
    requires fields != []
    ensures Bars(fields) == "|" + fields[0] + Bars(fields[1..])
  {
    var n := |fields| - 1;
    if n == 0 {
      assert Bars(fields[..0]) == "" && "" + "|" + fields[0] == "|" + fields[0] + "";
    } else {
      BarsFromTheLeft(fields[..n]);
      assert fields[..n][1..] == fields[1..][..n - 1];
      assert ("|" + fields[0] + Bars(fields[1..][..n - 1])) + "|" + fields[n]
          == "|" + fields[0] + (Bars(fields[1..][..n - 1]) + "|" + fields[n]);
    }
  }

  /** Part by part, what the browser joins is the server's tag, market and fields. */
  lemma PartsAreFields(args: SubmitOrderArgs, nonce: nat)
    requires WellTyped(args)
    ensures var p := Received(args, nonce);
      Tag(p) == "order|" && ClientParts(args, nonce) == ["order"] + ([Market(p)] + Fields(p))
  {
    hide Decimal;
  }

  /** The string the browser signs is the one the server rebuilds from the order it receives. */
  lemma ClientStringIsServerString(args: SubmitOrderArgs, nonce: nat)
    requires WellTyped(args)
    ensures ClientOrderString(args, nonce) == SigningString(Received(args, nonce))
  {
    hide Decimal, Bars, Join, Fields, ClientParts;
    var p := Received(args, nonce);
    var fields := [Market(p)] + Fields(p);
    PartsAreFields(args, nonce);
    JoinIsBars("order", fields);
    BarsFromTheLeft(fields);
    assert fields[1..] == Fields(p);
    assert "order" + ("|" + Market(p) + Bars(Fields(p))) == "order|" + Market(p) + Bars(Fields(p));
  }

  /** So two orders the browser signs alike are the same order, whatever bars their market names contain. */
  lemma ClientStringIsInjective(a: SubmitOrderArgs, n: nat, b: SubmitOrderArgs, m: nat)
    requires WellTyped(a) && WellTyped(b) && ClientOrderString(a, n) == ClientOrderString(b, m)
    ensures a == b && n == m
  {
    ClientStringIsServerString(a, n);
    ClientStringIsServerString(b, m);
    SigningStringIsInjective(Received(a, n), Received(b, m));
    hide ClientOrderString, SigningString;
  }
}
