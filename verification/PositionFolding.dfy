/**
 The position kernel: folding fills into one trader's position in one market.

 The specification describes a fill as two acts, closing the part that trades against the existing
 side and then opening the rest. The class below follows the three branches of the program
 (add, close, flip) and is proved to compute the same position and the same two deltas.
 */
module PositionFolding {
  import opened Arithmetic
  import opened Primitives

  const BPS_DENOMINATOR: nat := 10_000
  const MAX_LEVERAGE: nat := 50

  /** A maker's quote carries no leverage, so its fresh positions open at this one. */
  const MAKER_LEVERAGE: u64 := 20

  /** One match as seen from one trader's side. A book never emits an empty match. */
  datatype RawFill = Fill(isBuy: bool, price: u64, qty: u64, funding: int) {
    function Signed(): int {
      Directed(isBuy, qty)
    }
  }
  type Fill = f: RawFill | f.qty > 0 witness Fill(true, 0, 1, 0)

  datatype Position = Position(
    signedSize: int,
    entryPrice: u64,
    entryFunding: int,
    collateral: int,
    leverage: u64,
    takeProfit: Option<u64>,
    stopLoss: Option<u64>)

  /** What one fill does: the new position, the collateral it locks or releases, and the realized part of that. */
  datatype Outcome = Outcome(position: Position, delta: int, realized: int)

  function Flat(leverage: u64): Position {
    Position(0, 0, 0, 0, leverage, None, None)
  }

  function Loaded(existing: Option<Position>, defaultLeverage: u64): Position {
    match existing
    case Some(p) => p
    case None => Flat(defaultLeverage)
  }

  function MarginRateBps(leverage: u64): (r: nat)
    ensures 200 <= r <= BPS_DENOMINATOR
  {
    BPS_DENOMINATOR / Max(1, Min(leverage, MAX_LEVERAGE))
  }

  function RequiredMargin(tick: u64, qty: nat, leverage: u64): nat {
    tick * qty * MarginRateBps(leverage) / BPS_DENOMINATOR
  }

  /** The leverage that counts: at least 1 and at most 50. */
  function Clamped(leverage: u64): (l: u64)
    ensures 1 <= l <= MAX_LEVERAGE
  {
    if leverage < 1 then 1 else if leverage > MAX_LEVERAGE then MAX_LEVERAGE else leverage
  }

  /**
   What the margin is for: at leverage `l` it never exceeds the notional over `l`, falls short of it only by the
   rounding of the rate and one unit, and is exactly that, rounded down, where `l` divides the rate's denominator.
   */
  lemma MarginIsNotionalOverLeverage(tick: u64, qty: nat, leverage: u64)
    ensures var l, m, notional := Clamped(leverage), RequiredMargin(tick, qty, leverage), tick * qty;
      && m * l <= notional
      && notional * (BPS_DENOMINATOR - l + 1) < (m + 1) * l * BPS_DENOMINATOR
      && (BPS_DENOMINATOR % l == 0 ==> m == notional / l)
  {
    var l, rate, notional := Clamped(leverage), MarginRateBps(leverage), tick * qty;
    var m := notional * rate / BPS_DENOMINATOR;
    hide MarginRateBps, Clamped;
    RateTimesLeverage(leverage);
    MulLe(0, tick, qty);
    MarginBounds(notional, rate, l, m);
  }

  lemma RateTimesLeverage(leverage: u64)
    ensures var l, rate := Clamped(leverage), MarginRateBps(leverage);
      && BPS_DENOMINATOR - l < rate * l <= BPS_DENOMINATOR
      && (BPS_DENOMINATOR % l == 0 ==> rate * l == BPS_DENOMINATOR)
  {
    var l := Clamped(leverage);
    assert l == Max(1, Min(leverage, MAX_LEVERAGE));
    DivBounds(BPS_DENOMINATOR, l);
    assert BPS_DENOMINATOR == (BPS_DENOMINATOR / l) * l + BPS_DENOMINATOR % l;
  }

  lemma MarginBounds(notional: nat, rate: nat, l: nat, m: nat)
    requires 1 <= l <= MAX_LEVERAGE && m == notional * rate / BPS_DENOMINATOR
    requires BPS_DENOMINATOR - l < rate * l <= BPS_DENOMINATOR
    ensures m * l <= notional
    ensures notional * (BPS_DENOMINATOR - l + 1) < (m + 1) * l * BPS_DENOMINATOR
    ensures rate * l == BPS_DENOMINATOR ==> m == notional / l
  {
    DivBounds(notional * rate, BPS_DENOMINATOR);
    MarginAtMost(notional, rate, l, m, BPS_DENOMINATOR);
    MarginAtLeast(notional, rate, l, m + 1, BPS_DENOMINATOR, BPS_DENOMINATOR - l + 1);
    if rate * l == BPS_DENOMINATOR {
      MarginAtLeast(notional, rate, l, m + 1, BPS_DENOMINATOR, BPS_DENOMINATOR);
      if notional >= (m + 1) * l {
        MulLe((m + 1) * l, notional, BPS_DENOMINATOR);
      }
      assert (m + 1) * l == m * l + l;
      QuotientIs(notional, l, m);
    }
  }

  lemma MarginAtMost(notional: nat, rate: nat, l: nat, m: nat, d: nat)
    requires d > 0 && m * d <= notional * rate && rate * l <= d
    ensures m * l <= notional
  {
    MulLe(m * d, notional * rate, l);
    MulLe(rate * l, d, notional);
    Reassociate(m, d, l);
    Reassociate(notional, rate, l);
    if m * l > notional {
      MulLe(notional + 1, m * l, d);
    }
  }

  lemma MarginAtLeast(notional: nat, rate: nat, l: nat, m: nat, d: nat, least: nat)
    requires l > 0 && notional * rate < m * d && least <= rate * l
    ensures notional * least < m * l * d
  {
    MulLe(notional * rate + 1, m * d, l);
    MulLe(least, rate * l, notional);
    Reassociate(m, d, l);
    Reassociate(notional, rate, l);
  }

  lemma Reassociate(a: int, b: int, c: int)
    ensures a * b * c == a * (b * c) == a * c * b
  {}

  /** A fresh maker position locks a twentieth of its notional. */
  lemma MakersLockATwentieth(tick: u64, qty: nat)
    ensures RequiredMargin(tick, qty, MAKER_LEVERAGE) == tick * qty / 20
  {
    hide RequiredMargin;
    MarginIsNotionalOverLeverage(tick, qty, MAKER_LEVERAGE);
  }

  // ---- The specification of one fill ----

  predicate Opposes(signedSize: int, isBuy: bool) {
    if isBuy then signedSize < 0 else signedSize > 0
  }

  /** The part of `qty` that unwinds the existing side. */
  function ClosingQty(signedSize: int, isBuy: bool, qty: nat): (c: nat)
    ensures c <= qty && c <= Abs(signedSize)
  {
    if Opposes(signedSize, isBuy) then Min(qty, Abs(signedSize)) else 0
  }

  function OpeningQty(signedSize: int, isBuy: bool, qty: nat): nat {
    qty - ClosingQty(signedSize, isBuy, qty)
  }

  /** Size-weighted average price of an old and a new part, rounded down. */
  function BlendPrice(oldAbs: nat, entry: u64, qty: nat, price: u64): (e: u64)
    requires oldAbs + qty > 0
    ensures Min(entry, price) <= e <= Max(entry, price)
    ensures oldAbs == 0 ==> e == price
    ensures 0 <= oldAbs * entry + qty * price - (oldAbs + qty) * e < oldAbs + qty
  {
    var total := oldAbs * entry + qty * price;
    BlendBetween(oldAbs, entry, qty, price);
    total / (oldAbs + qty)
  }

  lemma WeightedBetween(n: nat, x: int, m: nat, y: int, lo: int, hi: int)
    requires lo <= x <= hi && lo <= y <= hi
    ensures lo * (n + m) <= n * x + m * y <= hi * (n + m)
  {
    MulLe(lo, x, n);
    MulLe(lo, y, m);
    MulLe(x, hi, n);
    MulLe(y, hi, m);
    assert lo * (n + m) == lo * n + lo * m && hi * (n + m) == hi * n + hi * m;
  }

  lemma BlendBetween(oldAbs: nat, entry: u64, qty: nat, price: u64)
    requires oldAbs + qty > 0
    ensures var n, t := oldAbs + qty, oldAbs * entry + qty * price;
      && Min(entry, price) <= t / n <= Max(entry, price)
      && (oldAbs == 0 ==> t / n == price)
      && 0 <= t - n * (t / n) < n
  {
    var n, t := oldAbs + qty, oldAbs * entry + qty * price;
    var lo, hi := Min(entry, price), Max(entry, price);
    WeightedBetween(oldAbs, entry, qty, price, lo, hi);
    DivBounds(t, n);
    DivMonotone(lo * n, t, n);
    DivMonotone(t, hi * n, n);
    QuotientIs(lo * n, n, lo);
    QuotientIs(hi * n, n, hi);
    if oldAbs == 0 {
      QuotientIs(t, n, price);
    }
  }

  /** The same average of funding stamps, which may be negative, rounded toward zero. */
  function BlendFunding(oldAbs: nat, entry: int, qty: nat, funding: int): (g: int)
    requires oldAbs + qty > 0
    ensures oldAbs == 0 ==> g == funding
    ensures entry == funding ==> g == funding
    ensures Abs(entry * oldAbs + funding * qty - g * (oldAbs + qty)) < oldAbs + qty
  {
    TruncExact(funding, oldAbs + qty);
    assert entry == funding ==> entry * oldAbs + funding * qty == funding * (oldAbs + qty);
    TruncDiv(entry * oldAbs + funding * qty, oldAbs + qty)
  }

  /** Rounding goes toward zero on both sides of it, and so never past the exact average. */
  lemma BlendFundingTowardZero(oldAbs: nat, entry: int, qty: nat, funding: int)
    requires oldAbs + qty > 0
    ensures var n, total := oldAbs + qty, entry * oldAbs + funding * qty;
      var g := BlendFunding(oldAbs, entry, qty, funding);
      && (total >= 0 ==> 0 <= g * n <= total)
      && (total <= 0 ==> total <= g * n <= 0)
  {}

  function SpotPnl(p: Position, closed: nat, price: u64): int {
    Directed(p.signedSize >= 0, closed) * (price - p.entryPrice)
  }

  function FundingPnl(p: Position, closed: nat, funding: int): int {
    Directed(p.signedSize >= 0, closed) * (funding - p.entryFunding)
  }

  function Pnl(p: Position, closed: nat, price: u64, funding: int): int {
    SpotPnl(p, closed, price) + FundingPnl(p, closed, funding)
  }

  function Closed(p: Position, closed: nat, price: u64, funding: int): Position
    requires closed <= Abs(p.signedSize)
  {
    p.(signedSize := p.signedSize - Directed(p.signedSize >= 0, closed),
       collateral := p.collateral + Pnl(p, closed, price, funding))
  }

  function Opened(p: Position, isBuy: bool, qty: nat, price: u64, funding: int): Position
    requires qty > 0
  {
    p.(signedSize := p.signedSize + Directed(isBuy, qty),
       entryPrice := BlendPrice(Abs(p.signedSize), p.entryPrice, qty, price),
       entryFunding := BlendFunding(Abs(p.signedSize), p.entryFunding, qty, funding),
       collateral := p.collateral + RequiredMargin(price, qty, p.leverage))
  }

  /** Closing and opening: a fill that does both takes the old thresholds down with the old side. */
  function Applied(p: Position, f: Fill): (o: Outcome)
    ensures o.position.signedSize == p.signedSize + f.Signed()
    ensures o.position.collateral == p.collateral + o.delta
    ensures o.position.leverage == p.leverage
  {
    var closing := ClosingQty(p.signedSize, f.isBuy, f.qty);
    var opening := OpeningQty(p.signedSize, f.isBuy, f.qty);
    var realized := Pnl(p, closing, f.price, f.funding);
    var reduced := Closed(p, closing, f.price, f.funding);
    if opening == 0 then
      Outcome(reduced, realized, realized)
    else
      var cleared := if closing > 0 then reduced.(takeProfit := None, stopLoss := None) else reduced;
      Outcome(Opened(cleared, f.isBuy, opening, f.price, f.funding),
              realized + RequiredMargin(f.price, opening, p.leverage), realized)
  }

  /** Which entry stamps a fill leaves behind. */
  lemma AppliedEntry(p: Position, f: Fill)
    ensures var q, rest, o := Applied(p, f).position,
                              p.signedSize - Directed(p.signedSize >= 0, ClosingQty(p.signedSize, f.isBuy, f.qty)),
                              OpeningQty(p.signedSize, f.isBuy, f.qty);
      if o == 0 then q.entryPrice == p.entryPrice && q.entryFunding == p.entryFunding
      else && q.entryPrice == BlendPrice(Abs(rest), p.entryPrice, o, f.price)
           && q.entryFunding == BlendFunding(Abs(rest), p.entryFunding, o, f.funding)
  {
    hide RequiredMargin, Pnl, BlendPrice, BlendFunding;
  }

  // ---- The program's form ----

  /** Realized spot and funding PnL of closing at most the whole position. */
  function RealizedCloseDelta(signedSize: int, entryPrice: u64, entryFunding: int,
                              closeSize: nat, tick: u64, funding: int): int
  {
    if signedSize == 0 || closeSize == 0 then 0 else
    var close := Min(closeSize, Abs(signedSize));
    var signedClose := Directed(signedSize >= 0, close);
    signedClose * (tick - entryPrice) + signedClose * (funding - entryFunding)
  }

  class PositionFold {
    var signedSize: int
    var entryPrice: u64
    var entryFunding: int
    var collateral: int
    var leverage: u64
    var takeProfit: Option<u64>
    var stopLoss: Option<u64>

    function Value(): Position
      reads this
    {
      Position(signedSize, entryPrice, entryFunding, collateral, leverage, takeProfit, stopLoss)
    }

    constructor FromExisting(existing: Option<Position>, defaultLeverage: u64)
      ensures Value() == Loaded(existing, defaultLeverage)
    {
      match existing {
        case Some(m) =>
          signedSize, entryPrice, entryFunding := m.signedSize, m.entryPrice, m.entryFunding;
          collateral, leverage := m.collateral, m.leverage;
          takeProfit, stopLoss := m.takeProfit, m.stopLoss;
        case None =>
          signedSize, entryPrice, entryFunding := 0, 0, 0;
          collateral, leverage := 0, defaultLeverage;
          takeProfit, stopLoss := None, None;
      }
    }

    method ApplyFill(isBuy: bool, price: u64, qty: u64, funding: int) returns (delta: int, realized: int)
      requires qty > 0
      modifies this
      ensures Outcome(Value(), delta, realized) == Applied(old(Value()), Fill(isBuy, price, qty, funding))
    {
      hide RequiredMargin, BlendPrice, BlendFunding;
      var fillSigned := Directed(isBuy, qty);
      var sameDirection := signedSize == 0 || ((signedSize > 0) == (fillSigned > 0));
      if sameDirection {
        var oldAbs := Abs(signedSize);
        entryPrice := BlendPrice(oldAbs, entryPrice, qty, price);
        entryFunding := BlendFunding(oldAbs, entryFunding, qty, funding);
        signedSize := signedSize + fillSigned;
        delta, realized := RequiredMargin(price, qty, leverage), 0;
      } else {
        var existingAbs := Abs(signedSize);
        var closeSize: u64 := Min(qty, existingAbs);
        var closeDelta := RealizedCloseDelta(signedSize, entryPrice, entryFunding, closeSize, price, funding);
        signedSize := signedSize + Directed(signedSize < 0, closeSize);
        var flipQty := qty - closeSize;
        if flipQty == 0 {
          delta, realized := closeDelta, closeDelta;
        } else {
          signedSize := Directed(isBuy, flipQty);
          entryPrice := price;
          entryFunding := funding;
          takeProfit, stopLoss := None, None;
          delta, realized := closeDelta + RequiredMargin(price, flipQty, leverage), closeDelta;
        }
      }
      collateral := collateral + delta;
    }
  }

  // ---- Runs of fills ----

  function Run(p: Position, fills: seq<Fill>): (o: Outcome)
    ensures o.position.collateral == p.collateral + o.delta
    ensures o.position.leverage == p.leverage
    decreases |fills|
  {
    if fills == [] then Outcome(p, 0, 0) else
    var first := Applied(p, fills[0]);
    var rest := Run(first.position, fills[1..]);
    Outcome(rest.position, first.delta + rest.delta, first.realized + rest.realized)
  }

  function NetSigned(fills: seq<Fill>): int {
    if fills == [] then 0 else fills[0].Signed() + NetSigned(fills[1..])
  }

  lemma {:induction false} RunSize(p: Position, fills: seq<Fill>)
    ensures Run(p, fills).position.signedSize == p.signedSize + NetSigned(fills)
    decreases |fills|
  {
    if fills != [] {
      RunSize(Applied(p, fills[0]).position, fills[1..]);
    }
  }

  /** The prices the current side was opened or enlarged at, after one more fill. */
  function WithFill(p: Position, f: Fill, prices: set<u64>): set<u64> {
    var closing := ClosingQty(p.signedSize, f.isBuy, f.qty);
    var kept := if closing == Abs(p.signedSize) then {} else prices;
    if closing < f.qty then kept + {f.price} else kept
  }

  /** The same over a run: only openings since the position was last flat or flipped count. */
  function OpeningPrices(p: Position, fills: seq<Fill>, prices: set<u64>): set<u64>
    decreases |fills|
  {
    if fills == [] then prices
    else OpeningPrices(Applied(p, fills[0]).position, fills[1..], WithFill(p, fills[0], prices))
  }

  ghost predicate Within(p: Position, prices: set<u64>) {
    p.signedSize != 0 ==>
      (exists lo, hi :: lo in prices && hi in prices && lo <= p.entryPrice <= hi)
  }

  /** However a position was built, its entry price lies between two prices it was really opened at. */
  lemma {:induction false} EntryBetweenOpeningPrices(p: Position, fills: seq<Fill>, since: set<u64>)
    requires Within(p, since)
    ensures Within(Run(p, fills).position, OpeningPrices(p, fills, since))
    decreases |fills|
  {
    if fills != [] {
      var f := fills[0];
      var q := Applied(p, f).position;
      if q.signedSize != 0 && ClosingQty(p.signedSize, f.isBuy, f.qty) < f.qty {
        assert f.price in WithFill(p, f, since);
        if p.signedSize != 0 && !Opposes(p.signedSize, f.isBuy) {
          var lo, hi :| lo in since && hi in since && lo <= p.entryPrice <= hi;
          assert Min(lo, f.price) in WithFill(p, f, since) && Max(hi, f.price) in WithFill(p, f, since);
          assert Min(lo, f.price) <= q.entryPrice <= Max(hi, f.price);
        }
      }
      EntryBetweenOpeningPrices(q, fills[1..], WithFill(p, f, since));
    }
  }
}
