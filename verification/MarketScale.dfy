/**
 Conversion of the matcher's raw tick-scale money into dollars with eighteen decimals.
 Both price scales divide 10^18, which is what makes the conversion exact and additive.
 */
module MarketScale {
  import opened Arithmetic
  import opened Primitives

  const USD_SCALE: int := 1_000_000_000_000_000_000
  const U128_MAX: int := 0xffff_ffff_ffff_ffff_ffff_ffff_ffff_ffff
  const I128_MAX: int := 0x7fff_ffff_ffff_ffff_ffff_ffff_ffff_ffff
  const I128_MIN: int := -I128_MAX - 1

  function PriceScale(market: string): (scale: nat)
    ensures scale == 100_000 || scale == 100
  {
    if market in {"EURC/USDC", "GBP/USD", "AUD/USD", "USD/JPY"} then 100_000 else 100
  }

  /** Dollars (10^-18) per raw unit. */
  function UsdPerUnit(market: string): (u: nat)
    ensures u * PriceScale(market) == USD_SCALE
    ensures u > 0
  {
    if PriceScale(market) == 100_000 then 10_000_000_000_000 else 10_000_000_000_000_000
  }

  function SaturatingU128(x: nat): nat {
    Min(x, U128_MAX)
  }

  /** An unsigned amount, as the collateral gate converts it: saturating product, then division. */
  function MarginToUsd(raw: nat, market: string): nat {
    SaturatingU128(raw * USD_SCALE) / PriceScale(market)
  }

  predicate MarginFitsUsd(raw: nat) {
    raw * USD_SCALE <= U128_MAX
  }

  /** The conversion is an exact multiplication if and only if the scaled amount fits 128 bits. */
  lemma MarginToUsdExactIff(raw: nat, market: string)
    ensures MarginToUsd(raw, market) == raw * UsdPerUnit(market) <==> MarginFitsUsd(raw)
  {
    var u, s := UsdPerUnit(market), PriceScale(market);
    assert raw * USD_SCALE == (raw * u) * s;
    if MarginFitsUsd(raw) {
      QuotientIs(raw * USD_SCALE, s, raw * u);
    } else {
      DivBounds(U128_MAX, s);
    }
  }

  lemma MarginToUsdMonotone(a: nat, b: nat, market: string)
    requires a <= b
    ensures MarginToUsd(a, market) <= MarginToUsd(b, market)
  {
    MulLe(a, b, USD_SCALE);
    DivMonotone(SaturatingU128(a * USD_SCALE), SaturatingU128(b * USD_SCALE), PriceScale(market));
  }

  function SaturatingI128(x: int): int {
    Max(I128_MIN, Min(x, I128_MAX))
  }

  /** A signed amount: saturating 128-bit product, then division toward zero. */
  function RealizedDeltaToUsd(delta: int, market: string): int {
    TruncDiv(SaturatingI128(SaturatingI128(delta) * USD_SCALE), PriceScale(market))
  }

  predicate FitsUsd(delta: int) {
    I128_MIN <= delta * USD_SCALE <= I128_MAX
  }

  /** The conversion is an exact multiplication if and only if the scaled amount fits 128 bits. */
  lemma RealizedDeltaToUsdExactIff(delta: int, market: string)
    ensures RealizedDeltaToUsd(delta, market) == delta * UsdPerUnit(market) <==> FitsUsd(delta)
  {
    var u, s := UsdPerUnit(market), PriceScale(market);
    var exact := delta * u;
    assert exact * s == delta * USD_SCALE;
    if FitsUsd(delta) {
      assert SaturatingI128(delta) == delta;
      TruncExact(exact, s);
    } else {
      var clipped := SaturatingI128(SaturatingI128(delta) * USD_SCALE);
      assert clipped == if delta > 0 then I128_MAX else I128_MIN;
      assert exact * s > clipped >= TruncDiv(clipped, s) * s || exact * s < clipped <= TruncDiv(clipped, s) * s;
    }
  }

  /** Beyond that it is the largest amount of its sign, converted. */
  lemma RealizedDeltaSaturates(delta: int, market: string)
    requires !FitsUsd(delta)
    ensures delta > 0 ==> RealizedDeltaToUsd(delta, market) == I128_MAX / PriceScale(market)
    ensures delta < 0 ==> RealizedDeltaToUsd(delta, market) == -(-I128_MIN / PriceScale(market))
  {
    var clipped := SaturatingI128(SaturatingI128(delta) * USD_SCALE);
    assert clipped == if delta > 0 then I128_MAX else I128_MIN;
  }

  lemma MarginSaturates(raw: nat, market: string)
    requires !MarginFitsUsd(raw)
    ensures MarginToUsd(raw, market) == U128_MAX / PriceScale(market)
  {}

  // ---- The browser's own table ----

  /** Decimal places of a market's prices in the browser, from its own list of currency pairs. */
  function BrowserDecimals(market: string): nat {
    match market
    case "EURC/USDC" => 5
    case "GBP/USD" => 5
    case "AUD/USD" => 5
    case "USD/JPY" => 5
    case _ => 2
  }

  function PowerOfTen(n: nat): nat {
    if n == 0 then 1 else 10 * PowerOfTen(n - 1)
  }

  /** Server and browser mean the same price by a tick: its last digit is the market's last decimal place. */
  lemma TicksAgree(market: string)
    ensures PriceScale(market) == PowerOfTen(BrowserDecimals(market))
    ensures UsdPerUnit(market) == PowerOfTen(18 - BrowserDecimals(market))
  {
    assert PowerOfTen(5) == 100_000 && PowerOfTen(2) == 100;
    assert PowerOfTen(13) == 100_000 * (100_000 * 1000);
    assert PowerOfTen(16) == 1000 * PowerOfTen(13);
  }

  /** What a trader sees: closing `units` after the price moved by whole dollars in the market's own decimals. */
  lemma DollarMovesPayDollars(market: string, units: nat, dollars: int)
    requires FitsUsd(units * (dollars * PowerOfTen(BrowserDecimals(market))))
    ensures RealizedDeltaToUsd(units * (dollars * PowerOfTen(BrowserDecimals(market))), market)
         == units * dollars * USD_SCALE
  {
    hide RealizedDeltaToUsd, PriceScale, UsdPerUnit, PowerOfTen, BrowserDecimals, FitsUsd;
    var scale, u := PowerOfTen(BrowserDecimals(market)), UsdPerUnit(market);
    TicksAgree(market);
    RealizedDeltaToUsdExactIff(units * (dollars * scale), market);
    assert u * scale == USD_SCALE;
    assert units * (dollars * scale) * u == units * dollars * (u * scale);
  }
}
