/**
 Partial-close-first liquidation: one fraction of every leg is closed, sized so that the margin
 requirement of what remains fits the collateral, plus a safety buffer.
 */
module Liquidation {
  import opened Arithmetic
  import opened PositionFolding
  import opened PositionCaching
  import opened Primitives

  const MMR_BPS: nat := 300
  const RISK_SCALE: nat := 1_000_000_000_000_000_000
  const SAFETY_BUFFER_BPS: nat := 1_000

  datatype Held = Held(key: Key, position: Position)

  /** Point-in-time snapshots; a market missing from one falls back to the position's own entry stamp. */
  datatype Marks = Marks(prices: map<Key, u64>, fundings: map<Key, int>) {
    function Price(h: Held): u64 {
      if h.key in prices then prices[h.key] else h.position.entryPrice
    }
    function Funding(h: Held): int {
      if h.key in fundings then fundings[h.key] else h.position.entryFunding
    }
  }

  // ---- Margin ----

  /** The risk monitor's formula for one position whose size is scaled by 10^18. */
  function RiskRequirement(scaledSize: nat, price: u64): nat {
    scaledSize * price * MMR_BPS / (RISK_SCALE * BPS_DENOMINATOR)
  }

  function LegRequirement(h: Held, marks: Marks): nat {
    RiskRequirement(Abs(h.position.signedSize) * RISK_SCALE, marks.Price(h))
  }

  function Requirement(hs: seq<Held>, marks: Marks): nat {
    if hs == [] then 0 else LegRequirement(hs[0], marks) + Requirement(hs[1..], marks)
  }

  function EffectiveCollateral(hs: seq<Held>): nat {
    if hs == [] then 0 else Max(0, hs[0].position.collateral) + EffectiveCollateral(hs[1..])
  }

  /** Pre-scaling the size cancels the monitor's own scale exactly. */
  lemma ScaleCancels(size: nat, price: u64)
    ensures RiskRequirement(size * RISK_SCALE, price) == size * price * MMR_BPS / BPS_DENOMINATOR
  {
    var x := size * price * MMR_BPS;
    assert size * RISK_SCALE * price * MMR_BPS == x * RISK_SCALE;
    var q := x / BPS_DENOMINATOR;
    DivBounds(x, BPS_DENOMINATOR);
    QuotientIs(x * RISK_SCALE, RISK_SCALE * BPS_DENOMINATOR, q);
  }

  // ---- Sizing ----

  function CeilDiv(a: nat, b: nat): nat
    requires b > 0
  {
    if a % b == 0 then a / b else a / b + 1
  }

  function MinimumBps(requirement: nat, collateral: nat): nat {
    if requirement == 0 then 10_000 else CeilDiv(Max(requirement - collateral, 0) * 10_000, requirement)
  }

  function CloseBps(requirement: nat, collateral: nat): nat {
    Min(MinimumBps(requirement, collateral) + SAFETY_BUFFER_BPS, 10_000)
  }

  /** The size to close: the fraction, or everything when the fraction leaves nothing meaningful on either side. */
  function CloseSize(size: nat, closeBps: nat): (c: nat)
    ensures c <= size
  {
    var part := size * closeBps / 10_000;
    if closeBps >= 10_000 || part == 0 || part >= size then size else part
  }

  function LegAfter(h: Held, closeBps: nat, marks: Marks): Position {
    Closed(h.position, CloseSize(Abs(h.position.signedSize), closeBps), marks.Price(h), marks.Funding(h))
  }

  function LegDelta(h: Held, closeBps: nat, marks: Marks): int {
    Pnl(h.position, CloseSize(Abs(h.position.signedSize), closeBps), marks.Price(h), marks.Funding(h))
  }

  /** Submitted with each leg: its collateral delta and the parameters of what stays open, if anything. */
  datatype LegSettlement = LegSettlement(key: Key, delta: int, params: Option<SealedParams>)

  function SizedLeg(h: Held, closeBps: nat, marks: Marks): LegSettlement {
    var after := LegAfter(h, closeBps, marks);
    LegSettlement(h.key, LegDelta(h, closeBps, marks),
                  if after.signedSize == 0 then None else Some(ParamsOf(after)))
  }

  function SizedLegs(hs: seq<Held>, closeBps: nat, marks: Marks): seq<LegSettlement> {
    if hs == [] then [] else SizedLegs(hs[..|hs| - 1], closeBps, marks) + [SizedLeg(hs[|hs| - 1], closeBps, marks)]
  }

  function CacheAfterLegs(cache: Cache, hs: seq<Held>, closeBps: nat, marks: Marks): Cache {
    if hs == [] then cache else
    var h := hs[|hs| - 1];
    Put(CacheAfterLegs(cache, hs[..|hs| - 1], closeBps, marks), h.key, LegAfter(h, closeBps, marks))
  }

  // ---- What the figures are, in terms of the snapshots ----

  /** A live mark is used wherever there is one, for the requirement and for what a close realizes. */
  lemma LiveMarksAreUsed(h: Held, closeBps: nat, marks: Marks)
    ensures var p := h.position;
      var price := if h.key in marks.prices then marks.prices[h.key] else p.entryPrice;
      var funding := if h.key in marks.fundings then marks.fundings[h.key] else p.entryFunding;
      var closed := Directed(p.signedSize >= 0, CloseSize(Abs(p.signedSize), closeBps));
      && LegRequirement(h, marks) == Abs(p.signedSize) * price * 300 / 10_000
      && LegDelta(h, closeBps, marks) == closed * (price - p.entryPrice) + closed * (funding - p.entryFunding)
      && LegAfter(h, closeBps, marks)
         == p.(signedSize := p.signedSize - closed, collateral := p.collateral + LegDelta(h, closeBps, marks))
  {
    hide CloseSize;
    var p := h.position;
    ScaleCancels(Abs(p.signedSize), if h.key in marks.prices then marks.prices[h.key] else p.entryPrice);
    hide RiskRequirement;
  }

  /** Requirement and collateral of a portfolio are those of its parts, each position with its own. */
  lemma {:induction false} PortfolioAddsUp(a: seq<Held>, h: Held, marks: Marks)
    ensures Requirement(a + [h], marks) == Requirement(a, marks) + LegRequirement(h, marks)
    ensures EffectiveCollateral(a + [h])
         == EffectiveCollateral(a) + (if h.position.collateral > 0 then h.position.collateral else 0)
  {
    hide LegRequirement;
    if a == [] {
      assert (a + [h])[1..] == [];
    } else {
      assert (a + [h])[1..] == a[1..] + [h];
      PortfolioAddsUp(a[1..], h, marks);
    }
  }

  /** So a single position is breached exactly when three percent of its marked notional exceed its collateral. */
  lemma SingleBreachIff(h: Held, marks: Marks)
    ensures var p := h.position;
      var price := if h.key in marks.prices then marks.prices[h.key] else p.entryPrice;
      Requirement([h], marks) > EffectiveCollateral([h]) <==>
        Abs(p.signedSize) * price * 300 / 10_000 > if p.collateral > 0 then p.collateral else 0
  {
    hide LegRequirement;
    LiveMarksAreUsed(h, 0, marks);
    PortfolioAddsUp([], h, marks);
    assert [] + [h] == [h];
  }

  /**
   The part is the fraction rounded down, unless it rounds to nothing or the fraction is whole: then all is closed.
   */
  lemma CloseSizeIs(size: nat, closeBps: nat)
    ensures var c := CloseSize(size, closeBps);
      if closeBps >= 10_000 || size * closeBps < 10_000 then c == size
      else 0 < c < size && 0 <= size * closeBps - c * 10_000 < 10_000
  {
    if closeBps < 10_000 {
      MulLe(closeBps, 9_999, size);
      PartIs(size * closeBps, size);
    }
  }

  lemma PartIs(x: nat, size: nat)
    requires x <= 9_999 * size
    ensures var part := x / 10_000;
      if x < 10_000 then part == 0 else 0 < part < size && 0 <= x - part * 10_000 < 10_000
  {}

  // ---- A liquidated leg is an ordinary reducing fill ----

  function ReducingFill(h: Held, closeBps: nat, marks: Marks): Fill
    requires 0 < Abs(h.position.signedSize) < 0x1_0000_0000_0000_0000
  {
    NonemptyClose(Abs(h.position.signedSize), closeBps);
    Fill(h.position.signedSize < 0, marks.Price(h), CloseSize(Abs(h.position.signedSize), closeBps), marks.Funding(h))
  }

  lemma NonemptyClose(size: nat, closeBps: nat)
    ensures size > 0 ==> CloseSize(size, closeBps) > 0
  {}

  /** Cache, delta and everything kept on the position are those of folding the opposite fill without a fee. */
  lemma LegIsReducingFill(cache: Cache, chain: Chain, h: Held, closeBps: nat, marks: Marks, leverage: u64)
    requires 0 < Abs(h.position.signedSize) < 0x1_0000_0000_0000_0000
    requires Read(cache, chain, h.key) == Some(h.position)
    ensures var r := LoadAndFold(cache, chain, h.key, Leg(ReducingFill(h, closeBps, marks), leverage, 0));
      && r.cache == Put(cache, h.key, LegAfter(h, closeBps, marks))
      && r.delta == r.realized == LegDelta(h, closeBps, marks)
      && SizedLeg(h, closeBps, marks).params == CachedParams(r.cache, h.key)
  {
    hide Pnl, CloseSize;
  }

  // ---- Health after a partial liquidation ----

  /** The chosen fraction is the least whole number of basis points that mathematically suffices. */
  lemma MinimumBpsIsLeast(requirement: nat, collateral: nat, f: nat)
    requires requirement > 0
    ensures requirement * (10_000 - f) <= 10_000 * collateral <==> f >= MinimumBps(requirement, collateral)
  {
    var target := Max(requirement - collateral, 0) * 10_000;
    var least := MinimumBps(requirement, collateral);
    assert requirement * (10_000 - f) == requirement * 10_000 - f * requirement;
    assert requirement * 10_000 - 10_000 * collateral == (requirement - collateral) * 10_000;
    DivBounds(target, requirement);
    assert (least - 1) * requirement < target <= least * requirement || (least == 0 && target == 0) by {
      assert target == (target / requirement) * requirement + target % requirement;
    }
    if f >= least {
      MulLe(least, f, requirement);
    } else {
      MulLe(f, least - 1, requirement);
    }
  }

  /** With at least ten units, the buffer absorbs the rounding of the closed size; a single unit is closed whole. */
  lemma RemainingFraction(size: nat, f: nat)
    requires SplitsWell(size) && f + SAFETY_BUFFER_BPS < 10_000
    ensures (size - CloseSize(size, f + SAFETY_BUFFER_BPS)) * 10_000 <= size * (10_000 - f)
  {
    var bps := f + SAFETY_BUFFER_BPS;
    if size >= 10 {
      FractionBounds(size, f, size * bps / 10_000);
      assert size * bps == size * f + 1_000 * size;
      DivBounds(size * bps, 10_000);
    }
  }

  lemma FractionBounds(size: nat, f: nat, part: int)
    requires size >= 10 && f + 1_000 < 10_000
    ensures 0 <= size * f + 1_000 * size - part * 10_000 < 10_000
      ==> 0 < part < size && (size - part) * 10_000 <= size * (10_000 - f)
  {
    MulLe(f, 8_999, size);
    assert size * (10_000 - f) == 10_000 * size - size * f;
  }

  function Losses(hs: seq<Held>, closeBps: nat, marks: Marks): nat {
    if hs == [] then 0 else Max(0, -LegDelta(hs[0], closeBps, marks)) + Losses(hs[1..], closeBps, marks)
  }

  function AllAfter(hs: seq<Held>, closeBps: nat, marks: Marks): (after: seq<Held>)
    ensures |after| == |hs|
  {
    if hs == [] then []
    else [Held(hs[0].key, LegAfter(hs[0], closeBps, marks))] + AllAfter(hs[1..], closeBps, marks)
  }

  /** The sizes for which the buffer absorbs the rounding of the closed part: one unit is simply closed whole. */
  predicate SplitsWell(size: nat) {
    size <= 1 || size >= 10
  }

  predicate Splittable(hs: seq<Held>) {
    forall i :: 0 <= i < |hs| ==> SplitsWell(Abs(hs[i].position.signedSize))
  }

  /** One leg's remaining requirement against its old one, in units of 10^-8. */
  lemma LegShrinks(h: Held, f: nat, marks: Marks)
    requires SplitsWell(Abs(h.position.signedSize)) && f + SAFETY_BUFFER_BPS < 10_000
    ensures var after := Held(h.key, LegAfter(h, f + SAFETY_BUFFER_BPS, marks));
      100_000_000 * LegRequirement(after, marks) <= (10_000 * LegRequirement(h, marks) + 9_999) * (10_000 - f)
  {
    var size, price := Abs(h.position.signedSize), marks.Price(h);
    var left := size - CloseSize(size, f + SAFETY_BUFFER_BPS);
    RemainingFraction(size, f);
    ScaleCancels(size, price);
    ScaleCancels(left, price);
    Shrinks(size, left, price, f);
    hide RiskRequirement, CloseSize, Pnl;
  }

  lemma Shrinks(size: nat, left: nat, price: nat, f: nat)
    requires f <= 10_000 && left * 10_000 <= size * (10_000 - f)
    ensures 100_000_000 * (left * price * MMR_BPS / BPS_DENOMINATOR)
            <= (10_000 * (size * price * MMR_BPS / BPS_DENOMINATOR) + 9_999) * (10_000 - f)
  {
    var x, y, g := size * price * MMR_BPS, left * price * MMR_BPS, 10_000 - f;
    MulLe(left * 10_000, size * g, price * MMR_BPS);
    assert left * 10_000 * (price * MMR_BPS) == y * 10_000;
    assert size * g * (price * MMR_BPS) == x * g;
    DivBounds(x, BPS_DENOMINATOR);
    DivBounds(y, BPS_DENOMINATOR);
    MulLe(x, 10_000 * (x / BPS_DENOMINATOR) + 9_999, g);
  }

  lemma {:induction false} RequirementShrinks(hs: seq<Held>, f: nat, marks: Marks)
    requires Splittable(hs) && f + SAFETY_BUFFER_BPS < 10_000
    ensures 100_000_000 * Requirement(AllAfter(hs, f + SAFETY_BUFFER_BPS, marks), marks)
            <= (10_000 * Requirement(hs, marks) + 9_999 * |hs|) * (10_000 - f)
  {
    hide LegRequirement, LegAfter;
    if hs != [] {
      LegShrinks(hs[0], f, marks);
      RequirementShrinks(hs[1..], f, marks);
      var a, b, g := LegRequirement(hs[0], marks), Requirement(hs[1..], marks), 10_000 - f;
      assert (10_000 * (a + b) + 9_999 * |hs|) * g
          == (10_000 * a + 9_999) * g + (10_000 * b + 9_999 * |hs[1..]|) * g;
    }
  }

  lemma {:induction false} CollateralAfter(hs: seq<Held>, closeBps: nat, marks: Marks)
    ensures EffectiveCollateral(hs) <= EffectiveCollateral(AllAfter(hs, closeBps, marks)) + Losses(hs, closeBps, marks)
  {
    hide CloseSize, Pnl;
    if hs != [] {
      CollateralAfter(hs[1..], closeBps, marks);
    }
  }

  /**
   Whatever the marks: a partial liquidation leaves a requirement of at most the remaining collateral,
   plus what the closes lost, plus one unit of rounding for every leg but one.
   */
  lemma LiquidationRestoresHealth(hs: seq<Held>, marks: Marks)
    requires hs != [] && Splittable(hs)
    requires CloseBps(Requirement(hs, marks), EffectiveCollateral(hs)) < 10_000
    ensures var bps := CloseBps(Requirement(hs, marks), EffectiveCollateral(hs));
      var after := AllAfter(hs, bps, marks);
      Requirement(after, marks) <= EffectiveCollateral(after) + Losses(hs, bps, marks) + |hs| - 1
  {
    var m, c, n := Requirement(hs, marks), EffectiveCollateral(hs), |hs|;
    var f := MinimumBps(m, c);
    RequirementShrinks(hs, f, marks);
    CollateralAfter(hs, f + SAFETY_BUFFER_BPS, marks);
    MinimumBpsIsLeast(m, c, f);
    Rounding(Requirement(AllAfter(hs, f + SAFETY_BUFFER_BPS, marks), marks), m, c, n, f);
    hide Requirement, EffectiveCollateral, MinimumBps, AllAfter, Losses;
  }

  lemma Rounding(after: nat, m: nat, c: nat, n: nat, f: nat)
    requires n > 0 && f <= 10_000 && m * (10_000 - f) <= 10_000 * c
    requires 100_000_000 * after <= (10_000 * m + 9_999 * n) * (10_000 - f)
    ensures after <= c + n - 1
  {
    var g := 10_000 - f;
    assert (10_000 * m + 9_999 * n) * g == 10_000 * (m * g) + 9_999 * (n * g);
    MulLe(g, 10_000, n);
  }

  /** A partial liquidation of one leg that closes without a loss leaves it healthy. */
  ghost predicate Heals(h: Held, marks: Marks) {
    var bps := CloseBps(Requirement([h], marks), EffectiveCollateral([h]));
    bps < 10_000 && LegDelta(h, bps, marks) >= 0 ==>
      Requirement(AllAfter([h], bps, marks), marks) <= EffectiveCollateral(AllAfter([h], bps, marks))
  }

  lemma SingleLegIsHealed(h: Held, marks: Marks)
    requires SplitsWell(Abs(h.position.signedSize))
    ensures Heals(h, marks)
  {
    var bps := CloseBps(Requirement([h], marks), EffectiveCollateral([h]));
    if bps < 10_000 {
      LiquidationRestoresHealth([h], marks);
      OneLeg(h, bps, marks);
    }
    hide Requirement, EffectiveCollateral, CloseBps, AllAfter, LegDelta;
  }

  /** A full close owes nothing at all. */
  lemma {:induction false} FullCloseOwesNothing(hs: seq<Held>, marks: Marks)
    ensures Requirement(AllAfter(hs, 10_000, marks), marks) == 0
  {
    hide Pnl;
    if hs != [] {
      FullCloseOwesNothing(hs[1..], marks);
    }
  }

  lemma TwoLegs(a: Held, b: Held, closeBps: nat, marks: Marks)
    ensures Requirement([a, b], marks) == LegRequirement(a, marks) + LegRequirement(b, marks)
    ensures EffectiveCollateral([a, b]) == Max(0, a.position.collateral) + Max(0, b.position.collateral)
    ensures AllAfter([a, b], closeBps, marks)
         == [Held(a.key, LegAfter(a, closeBps, marks)), Held(b.key, LegAfter(b, closeBps, marks))]
    ensures Losses([a, b], closeBps, marks)
         == Max(0, -LegDelta(a, closeBps, marks)) + Max(0, -LegDelta(b, closeBps, marks))
  {
    hide LegRequirement, LegAfter, LegDelta;
    var both, last := [a, b], [b];
    assert both[1..] == last && last[1..] == [];
    assert Requirement(last, marks) == LegRequirement(b, marks) + Requirement(last[1..], marks);
    assert EffectiveCollateral(last) == Max(0, b.position.collateral) + EffectiveCollateral(last[1..]);
    assert AllAfter(last, closeBps, marks)
        == [Held(b.key, LegAfter(b, closeBps, marks))] + AllAfter(last[1..], closeBps, marks);
    assert Losses(last, closeBps, marks) == Max(0, -LegDelta(b, closeBps, marks)) + Losses(last[1..], closeBps, marks);
  }

  lemma ClosedAtEntry(h: Held, closeBps: nat)
    ensures LegDelta(h, closeBps, Marks(map[], map[])) == 0
    ensures LegAfter(h, closeBps, Marks(map[], map[])).collateral == h.position.collateral
  {
    hide CloseSize;
  }

  /**
   The unit per extra leg is real: two legs of eleven and fourteen units, closed at their entry price
   and so without any loss, are left one unit short of healthy.
   */
  lemma TwoLegsCanStayShort()
    ensures exists hs, marks :: |hs| == 2 && Splittable(hs) && LeftShort(hs, marks)
  {
    hide Pnl, RiskRequirement, Requirement, EffectiveCollateral, AllAfter, Losses, LegDelta;
    var a := Held(0, Position(11, 15, 0, 3, 20, None, None));
    var b := Held(1, Position(14, 14, 0, 5, 20, None, None));
    var marks := Marks(map[], map[]);
    ScaleCancels(11, 15);
    ScaleCancels(14, 14);
    ScaleCancels(9, 15);
    ScaleCancels(12, 14);
    TwoLegs(a, b, 2_112, marks);
    assert CloseSize(11, 2_112) == 2 && CloseSize(14, 2_112) == 2;
    ClosedAtEntry(a, 2_112);
    ClosedAtEntry(b, 2_112);
    TwoLegs(Held(0, LegAfter(a, 2_112, marks)), Held(1, LegAfter(b, 2_112, marks)), 2_112, marks);
    assert CloseBps(9, 8) == 2_112;
    assert LeftShort([a, b], marks);
  }

  lemma OneLeg(h: Held, closeBps: nat, marks: Marks)
    ensures Requirement([h], marks) == LegRequirement(h, marks)
    ensures EffectiveCollateral([h]) == Max(0, h.position.collateral)
    ensures AllAfter([h], closeBps, marks) == [Held(h.key, LegAfter(h, closeBps, marks))]
    ensures Losses([h], closeBps, marks) == Max(0, -LegDelta(h, closeBps, marks))
  {
    hide LegRequirement, LegAfter, LegDelta;
    assert [h][1..] == [];
  }

  /** The fraction at which a leg of two to nine units closes one unit where more than one is needed. */
  function ShortFraction(size: nat): nat
    requires 2 <= size <= 9
  {
    15_000 / size - 500
  }

  function ShortCollateral(size: nat): (c: nat)
    requires 2 <= size <= 9
    ensures c == 3 * (size * (10_000 - ShortFraction(size)))
  {
    assert size in {2, 3, 4, 5, 6, 7, 8, 9};
    3 * size * (10_000 - ShortFraction(size))
  }

  /** A leg of `size` units entered at a million, with the collateral that makes exactly that fraction the minimum. */
  function ShortLeg(size: nat): Held
    requires 2 <= size <= 9
  {
    Held(0, Position(size, 1_000_000, 0, ShortCollateral(size), 20, None, None))
  }

  lemma ShortFractionCloses(size: nat)
    requires 2 <= size <= 9
    ensures var f := ShortFraction(size);
      && 0 < f && f + SAFETY_BUFFER_BPS < 10_000
      && CloseSize(size, f + SAFETY_BUFFER_BPS) == 1
      && 10_000 * (size - 1) > size * (10_000 - f)
  {
    assert size in {2, 3, 4, 5, 6, 7, 8, 9};
  }

  /** The requirement and collateral of a short leg give that fraction exactly. */
  lemma ShortLegBps(size: nat)
    requires 2 <= size <= 9
    ensures var f := ShortFraction(size);
      CloseBps(30_000 * size, ShortCollateral(size)) == f + SAFETY_BUFFER_BPS
  {
    ShortFractionCloses(size);
    var f := ShortFraction(size);
    hide ShortFraction, CloseSize;
    var requirement := 30_000 * size;
    var target := (requirement - ShortCollateral(size)) * 10_000;
    assert target == f * requirement;
    QuotientIs(target, requirement, f);
    assert target % requirement == target - (target / requirement) * requirement;
  }

  /** At its own entry price a unit of a short leg asks 30,000. */
  lemma ShortRequirement(h: Held)
    requires h.position.signedSize >= 0 && h.position.entryPrice == 1_000_000
    ensures LegRequirement(h, Marks(map[], map[])) == 30_000 * h.position.signedSize
  {
    hide RiskRequirement;
    var size := h.position.signedSize;
    ScaleCancels(size, 1_000_000);
    QuotientIs(size * 1_000_000 * MMR_BPS, BPS_DENOMINATOR, 30_000 * size);
  }

  lemma ShortLegBefore(size: nat)
    requires 2 <= size <= 9
    ensures var h, marks, f := ShortLeg(size), Marks(map[], map[]), ShortFraction(size);
      && Requirement([h], marks) == 30_000 * size
      && EffectiveCollateral([h]) == ShortCollateral(size)
      && CloseBps(Requirement([h], marks), EffectiveCollateral([h])) == f + SAFETY_BUFFER_BPS < 10_000
  {
    hide Requirement, EffectiveCollateral, CloseBps, ShortFraction, LegRequirement, ShortCollateral;
    var h := ShortLeg(size);
    ShortFractionCloses(size);
    ShortRequirement(h);
    OneLeg(h, 0, Marks(map[], map[]));
    ShortLegBps(size);
  }

  lemma ShortLegAfter(size: nat)
    requires 2 <= size <= 9
    ensures var h, marks, bps := ShortLeg(size), Marks(map[], map[]), ShortFraction(size) + SAFETY_BUFFER_BPS;
      && LegDelta(h, bps, marks) == 0
      && Requirement(AllAfter([h], bps, marks), marks) == 30_000 * (size - 1)
      && EffectiveCollateral(AllAfter([h], bps, marks)) == Max(0, h.position.collateral)
  {
    hide Requirement, EffectiveCollateral, AllAfter, ShortFraction, LegRequirement, Pnl, CloseSize, LegDelta;
    var h, marks, bps := ShortLeg(size), Marks(map[], map[]), ShortFraction(size) + SAFETY_BUFFER_BPS;
    ShortFractionCloses(size);
    ClosedAtEntry(h, bps);
    var after := Held(0, LegAfter(h, bps, marks));
    ShortRequirement(after);
    OneLeg(h, bps, marks);
    OneLeg(after, bps, marks);
  }

  lemma ShortLegIsLeftShort(size: nat)
    requires 2 <= size <= 9
    ensures !Heals(ShortLeg(size), Marks(map[], map[]))
  {
    hide Requirement, EffectiveCollateral, AllAfter, ShortFraction, LegDelta, CloseBps, CloseSize;
    var f := ShortFraction(size);
    ShortLegBefore(size);
    ShortLegAfter(size);
    ShortFractionCloses(size);
  }

  /**
   The exact threshold: every partial, loss-free liquidation of a single leg of `size` units ends healthy if and
   only if there is nothing to split or there are at least ten units.
   */
  lemma SingleLegHealsIff(size: nat)
    ensures (forall h: Held, marks: Marks | Abs(h.position.signedSize) == size :: Heals(h, marks)) <==> SplitsWell(size)
  {
    hide Heals;
    if SplitsWell(size) {
      forall h: Held, marks: Marks | Abs(h.position.signedSize) == size ensures Heals(h, marks) {
        SingleLegIsHealed(h, marks);
      }
    } else {
      ShortLegIsLeftShort(size);
      assert Abs(ShortLeg(size).position.signedSize) == size;
    }
  }

  ghost predicate LeftShort(hs: seq<Held>, marks: Marks) {
    var bps := CloseBps(Requirement(hs, marks), EffectiveCollateral(hs));
    && bps < 10_000 && Losses(hs, bps, marks) == 0
    && Requirement(AllAfter(hs, bps, marks), marks) > EffectiveCollateral(AllAfter(hs, bps, marks))
  }
}
