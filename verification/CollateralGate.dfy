/**
 The pre-trade gate: before an order reaches the book, the signer's deposit must cover the margin
 already locked plus the margin of the part of the order that opens new exposure. What the order then
 really locks is what a sweep of cache-first folds adds to the position's collateral.
 */
module CollateralGate {
  import opened Arithmetic
  import opened PositionFolding
  import opened PositionCaching
  import opened MarketScale
  import FillSplitting
  import opened Primitives

  /**
   One order's legs all trade on its side and carry its leverage; `cap` bounds their prices and `qty` their
   total size. Each may be charged a fee.
   */
  ghost predicate LegsOf(legs: seq<Leg>, isBuy: bool, cap: u64, qty: nat, leverage: u64) {
    && (forall i :: 0 <= i < |legs| ==>
          legs[i].fill.isBuy == isBuy && legs[i].fill.price <= cap && legs[i].leverage == leverage)
    && Traded(legs) <= qty
  }

  /** Margin locked by a sweep: the collateral it moved that was neither realized PnL nor a fee. */
  function Locked(cache: Cache, chain: Chain, k: Key, legs: seq<Leg>): int {
    var r := Sweep(cache, chain, k, legs); r.delta - r.realized - Fees(legs)
  }

  function MarginFor(p: Position, isBuy: bool, cap: u64, qty: nat): nat {
    RequiredMargin(cap, OpeningQty(p.signedSize, isBuy, qty), p.leverage)
  }

  /**
   The most an order can lock: everything in one fill, or, when it can close the position exactly first, the
   rest against whatever is reopened then.
   */
  function WorstLock(p: Position, reopened: Position, isBuy: bool, cap: u64, qty: nat): nat {
    var direct := MarginFor(p, isBuy, cap, qty);
    if Opposes(p.signedSize, isBuy)
    then Max(direct, MarginFor(reopened, isBuy, cap, OpeningQty(p.signedSize, isBuy, qty)))
    else direct
  }

  lemma MarginMonotone(tick: u64, cap: u64, qty: nat, more: nat, leverage: u64)
    requires tick <= cap && qty <= more
    ensures RequiredMargin(tick, qty, leverage) <= RequiredMargin(cap, more, leverage)
  {
    var rate := MarginRateBps(leverage);
    MulLe(tick, cap, qty);
    MulLe(qty, more, cap);
    MulLe(tick * qty, cap * more, rate);
    DivMonotone(tick * qty * rate, cap * more * rate, BPS_DENOMINATOR);
  }

  /** What one leg locks, and what the next one meets. */
  lemma OneLeg(cache: Cache, chain: Chain, k: Key, leg: Leg)
    ensures var p, r := Loaded(Read(cache, chain, k), leg.leverage), LoadAndFold(cache, chain, k, leg);
      var q := WithLeg(p, leg);
      && r.delta - r.realized - leg.extra == MarginFor(p, leg.fill.isBuy, leg.fill.price, leg.fill.qty)
      && q.signedSize == p.signedSize + leg.fill.Signed() && q.leverage == p.leverage
      && Read(r.cache, chain, k) == if q.signedSize == 0 then FromChain(ChainAt(chain, k)) else Some(q)
  {
    hide Applied, RequiredMargin, OpeningQty;
    FillSplitting.AppliedMoney(Loaded(Read(cache, chain, k), leg.leverage), leg.fill);
  }

  lemma FirstLocks(cache: Cache, chain: Chain, k: Key, legs: seq<Leg>)
    requires legs != []
    ensures var p, r := Loaded(Read(cache, chain, k), legs[0].leverage), LoadAndFold(cache, chain, k, legs[0]);
      Locked(cache, chain, k, legs)
      == MarginFor(p, legs[0].fill.isBuy, legs[0].fill.price, legs[0].fill.qty) + Locked(r.cache, chain, k, legs[1..])
  {
    hide LoadAndFold, MarginFor;
    OneLeg(cache, chain, k, legs[0]);
  }

  /** The worst case shrinks by at least what a leg locks, whatever the leg does to the position. */
  lemma WorstAfterLeg(p: Position, q: Position, reopened: Position, isBuy: bool, price: u64, cap: u64, qty: nat,
                      traded: u64)
    requires 0 < traded <= qty && price <= cap
    requires q.signedSize == p.signedSize + Directed(isBuy, traded) && q.leverage == p.leverage
    ensures var next := if q.signedSize == 0 then reopened else q;
      MarginFor(p, isBuy, price, traded) + WorstLock(next, reopened, isBuy, cap, qty - traded)
      <= WorstLock(p, reopened, isBuy, cap, qty)
  {
    hide RequiredMargin;
    var rest := qty - traded;
    var o1, o2 := OpeningQty(p.signedSize, isBuy, traded), OpeningQty(q.signedSize, isBuy, rest);
    FillSplitting.ClosingSplits(p.signedSize, isBuy, traded, rest);
    MarginMonotone(price, cap, o1, o1, p.leverage);
    FillSplitting.MarginSplits(cap, o1, o2, p.leverage);
    FillSplitting.MarginSplits(price, 0, 0, p.leverage);
    if q.signedSize == 0 {
      var again := OpeningQty(reopened.signedSize, isBuy, rest);
      MarginMonotone(cap, cap, OpeningQty(reopened.signedSize, isBuy, again), again, reopened.leverage);
    }
  }

  /**
   However the book splits an order, it locks at most the worst case; and when no leg before the last lands
   flat, at most the margin of its opening part at the position's own leverage.
   */
  lemma {:induction false} LockedIsBounded(cache: Cache, chain: Chain, k: Key, legs: seq<Leg>,
                                           isBuy: bool, cap: u64, qty: nat, leverage: u64)
    requires LegsOf(legs, isBuy, cap, qty, leverage)
    ensures var p := Loaded(Read(cache, chain, k), leverage);
      && 0 <= Locked(cache, chain, k, legs) <= WorstLock(p, Reopened(chain, k, leverage), isBuy, cap, qty)
      && (!LandsFlatEarly(p.signedSize, legs) ==> Locked(cache, chain, k, legs) <= MarginFor(p, isBuy, cap, qty))
    decreases |legs|
  {
    hide Sweep, Locked, LoadAndFold, MarginFor, WorstLock, Read;
    if legs == [] {
      NothingLocked(cache, chain, k);
    } else {
      var leg, p, reopened := legs[0], Loaded(Read(cache, chain, k), leverage), Reopened(chain, k, leverage);
      var q, after := WithLeg(p, leg), LoadAndFold(cache, chain, k, leg).cache;
      OneLeg(cache, chain, k, leg);
      FirstLocks(cache, chain, k, legs);
      WorstAfterLeg(p, q, reopened, isBuy, leg.fill.price, cap, qty, leg.fill.qty);
      DirectAfterLeg(p, q, isBuy, leg.fill.price, cap, qty, leg.fill.qty);
      LockedIsBounded(after, chain, k, legs[1..], isBuy, cap, qty - leg.fill.qty, leverage);
      if |legs| == 1 {
        NothingLocked(after, chain, k);
      }
    }
  }

  lemma NothingLocked(cache: Cache, chain: Chain, k: Key)
    ensures Locked(cache, chain, k, []) == 0
  {}

  lemma DirectAfterLeg(p: Position, q: Position, isBuy: bool, price: u64, cap: u64, qty: nat, traded: u64)
    requires 0 < traded <= qty && price <= cap
    requires q.signedSize == p.signedSize + Directed(isBuy, traded) && q.leverage == p.leverage
    ensures MarginFor(p, isBuy, price, traded) + MarginFor(q, isBuy, cap, qty - traded) <= MarginFor(p, isBuy, cap, qty)
    ensures MarginFor(q, isBuy, cap, qty - traded) >= 0
  {
    hide RequiredMargin;
    var o1, o2 := OpeningQty(p.signedSize, isBuy, traded), OpeningQty(q.signedSize, isBuy, qty - traded);
    FillSplitting.ClosingSplits(p.signedSize, isBuy, traded, qty - traded);
    MarginMonotone(price, cap, o1, o1, p.leverage);
    FillSplitting.MarginSplits(cap, o1, o2, p.leverage);
  }

  // ---- The worst case is reached ----

  /** One fill of everything at the cap, or one that lands flat followed by one of the rest. */
  function WorstLegs(p: Position, isBuy: bool, cap: u64, qty: u64, leverage: u64, flatFirst: bool): seq<Leg>
    requires qty > 0
    requires flatFirst ==> 0 < Abs(p.signedSize) < qty
  {
    if flatFirst then
      [Leg(Fill(isBuy, cap, Abs(p.signedSize), 0), leverage, 0),
       Leg(Fill(isBuy, cap, qty - Abs(p.signedSize), 0), leverage, 0)]
    else
      [Leg(Fill(isBuy, cap, qty, 0), leverage, 0)]
  }

  lemma OneLegLocks(cache: Cache, chain: Chain, k: Key, isBuy: bool, cap: u64, qty: u64, leverage: u64)
    requires qty > 0
    ensures var p := Loaded(Read(cache, chain, k), leverage);
      var legs := WorstLegs(p, isBuy, cap, qty, leverage, false);
      LegsOf(legs, isBuy, cap, qty, leverage) && Locked(cache, chain, k, legs) == MarginFor(p, isBuy, cap, qty)
  {
    hide LoadAndFold, MarginFor, Read, Locked;
    var p := Loaded(Read(cache, chain, k), leverage);
    var legs := WorstLegs(p, isBuy, cap, qty, leverage, false);
    assert legs[1..] == [];
    assert Traded(legs) == legs[0].fill.qty + Traded(legs[1..]);
    FirstLocks(cache, chain, k, legs);
    NothingLocked(LoadAndFold(cache, chain, k, legs[0]).cache, chain, k);
  }

  lemma FlatFirstLocks(cache: Cache, chain: Chain, k: Key, isBuy: bool, cap: u64, qty: u64, leverage: u64)
    requires var p := Loaded(Read(cache, chain, k), leverage);
      Opposes(p.signedSize, isBuy) && Abs(p.signedSize) < qty
    ensures var p := Loaded(Read(cache, chain, k), leverage);
      var legs := WorstLegs(p, isBuy, cap, qty, leverage, true);
      && LegsOf(legs, isBuy, cap, qty, leverage)
      && Locked(cache, chain, k, legs)
         == MarginFor(Reopened(chain, k, leverage), isBuy, cap, OpeningQty(p.signedSize, isBuy, qty))
  {
    hide LoadAndFold, RequiredMargin, Read, Locked;
    var p := Loaded(Read(cache, chain, k), leverage);
    var legs := WorstLegs(p, isBuy, cap, qty, leverage, true);
    var after := LoadAndFold(cache, chain, k, legs[0]).cache;
    assert legs[1..] == [legs[1]] && legs[1..][1..] == [];
    OneLeg(cache, chain, k, legs[0]);
    FirstLocks(cache, chain, k, legs);
    FirstLocks(after, chain, k, legs[1..]);
    NothingLocked(LoadAndFold(after, chain, k, legs[1]).cache, chain, k);
    FillSplitting.MarginSplits(cap, 0, 0, p.leverage);
    assert Traded(legs[1..]) == legs[1].fill.qty + Traded([]);
  }

  /** Some way of splitting the order locks exactly the worst case. */
  lemma WorstCaseIsReached(cache: Cache, chain: Chain, k: Key, isBuy: bool, cap: u64, qty: u64, leverage: u64)
    ensures exists legs ::
              && LegsOf(legs, isBuy, cap, qty, leverage)
              && Locked(cache, chain, k, legs)
                 == WorstLock(Loaded(Read(cache, chain, k), leverage), Reopened(chain, k, leverage), isBuy, cap, qty)
  {
    hide Locked, LegsOf, RequiredMargin, Read, Reopened;
    var p := Loaded(Read(cache, chain, k), leverage);
    var reopened := Reopened(chain, k, leverage);
    var o := OpeningQty(p.signedSize, isBuy, qty);
    FillSplitting.MarginSplits(cap, 0, 0, p.leverage);
    FillSplitting.MarginSplits(cap, 0, 0, reopened.leverage);
    if qty == 0 {
      NothingLocked(cache, chain, k);
      NothingIsLegs(isBuy, cap, leverage);
    } else {
      OneLegLocks(cache, chain, k, isBuy, cap, qty, leverage);
      assert LegsOf(WorstLegs(p, isBuy, cap, qty, leverage, false), isBuy, cap, qty, leverage);
      if Opposes(p.signedSize, isBuy) && MarginFor(reopened, isBuy, cap, o) > MarginFor(p, isBuy, cap, qty) {
        FlatFirstLocks(cache, chain, k, isBuy, cap, qty, leverage);
        assert LegsOf(WorstLegs(p, isBuy, cap, qty, leverage, true), isBuy, cap, qty, leverage);
      }
    }
  }

  lemma NothingIsLegs(isBuy: bool, cap: u64, leverage: u64)
    ensures LegsOf([], isBuy, cap, 0, leverage)
  {}

  /**
   A reserve is enough for every way the order may fill if and only if it covers the worst case: the opening
   part at the highest price, at the leverage the position really carries and, where the order can land flat
   first, at what the fill after that reopens.
   */
  lemma ReserveCoversIff(cache: Cache, chain: Chain, k: Key, isBuy: bool, cap: u64, qty: u64, leverage: u64,
                         reserve: nat)
    ensures (forall legs | LegsOf(legs, isBuy, cap, qty, leverage) :: Locked(cache, chain, k, legs) <= reserve)
      <==> WorstLock(Loaded(Read(cache, chain, k), leverage), Reopened(chain, k, leverage), isBuy, cap, qty) <= reserve
  {
    hide Locked, LegsOf, WorstLock, Read, Reopened;
    WorstCaseIsReached(cache, chain, k, isBuy, cap, qty, leverage);
    forall legs | LegsOf(legs, isBuy, cap, qty, leverage)
      ensures Locked(cache, chain, k, legs)
           <= WorstLock(Loaded(Read(cache, chain, k), leverage), Reopened(chain, k, leverage), isBuy, cap, qty)
    {
      LockedIsBounded(cache, chain, k, legs, isBuy, cap, qty, leverage);
    }
  }

  /**
   A buy that fills at or below its tick and carries the position's leverage is covered by the margin of its opening
   part at its tick, if no leg before the last lands flat or there is no chain position to fall back to. With nothing
   to open it locks nothing, whatever its leverage and the chain.
   */
  lemma BuyAtItsTickIsCovered(cache: Cache, chain: Chain, k: Key, legs: seq<Leg>, tick: u64, qty: u64, leverage: u64)
    requires LegsOf(legs, true, tick, qty, leverage)
    ensures var p := Loaded(Read(cache, chain, k), leverage);
      var opening := OpeningQty(p.signedSize, true, qty);
      && (p.leverage == leverage && (!LandsFlatEarly(p.signedSize, legs) || ChainAt(chain, k).params == None) ==>
            Locked(cache, chain, k, legs) <= RequiredMargin(tick, opening, leverage))
      && (opening == 0 ==> Locked(cache, chain, k, legs) == 0)
  {
    hide Locked, LegsOf, RequiredMargin, Read;
    LockedIsBounded(cache, chain, k, legs, true, tick, qty, leverage);
    var p, reopened := Loaded(Read(cache, chain, k), leverage), Reopened(chain, k, leverage);
    FillSplitting.MarginSplits(tick, 0, 0, p.leverage);
    FillSplitting.MarginSplits(tick, 0, 0, reopened.leverage);
  }

  // ---- The gate itself ----

  datatype Holding = Holding(market: string, position: Position)

  /** What the chain said about the deposit: unconfigured and unreachable both let the order through. */
  datatype Deposit = NotConfigured | Unreachable | Balance(usd: nat)

  datatype GateResult = Accepted | InsufficientCollateral(requiredUsd: nat, availableUsd: nat)

  function LockedUsd(holdings: seq<Holding>): nat {
    if holdings == [] then 0
    else MarginToUsd(Max(0, holdings[0].position.collateral), holdings[0].market) + LockedUsd(holdings[1..])
  }

  /** The dollars asked for so that `raw` more may be locked in a market. */
  function RequiredUsd(holdings: seq<Holding>, raw: nat, market: string): nat {
    SaturatingU128(LockedUsd(holdings) + MarginToUsd(raw, market))
  }

  function SizeIn(holdings: seq<Holding>, market: string): int {
    if holdings == [] then 0
    else if holdings[0].market == market then holdings[0].position.signedSize
    else SizeIn(holdings[1..], market)
  }

  function CheckDepositedCollateral(deposit: Deposit, holdings: seq<Holding>, market: string, isBuy: bool,
                                    tick: u64, qty: u64, leverage: u64): GateResult
  {
    var opening := OpeningQty(SizeIn(holdings, market), isBuy, qty);
    if deposit == NotConfigured || opening == 0 || deposit == Unreachable then Accepted else
    var required := RequiredUsd(holdings, RequiredMargin(tick, opening, leverage), market);
    var deposited := SaturatingU128(deposit.usd);
    if deposited < required then InsufficientCollateral(required, deposited) else Accepted
  }

  lemma RequiredUsdMonotone(holdings: seq<Holding>, a: nat, b: nat, market: string)
    requires a <= b
    ensures RequiredUsd(holdings, a, market) <= RequiredUsd(holdings, b, market)
  {
    MarginToUsdMonotone(a, b, market);
  }

  // ---- The position the gate saw and the one the fills meet ----

  /** What the gate asks for, by the position it read: nothing for an order that opens nothing. */
  function AskedUsd(holdings: seq<Holding>, market: string, isBuy: bool, tick: u64, qty: u64, leverage: u64): nat {
    var opening := OpeningQty(SizeIn(holdings, market), isBuy, qty);
    if opening == 0 then 0 else RequiredUsd(holdings, RequiredMargin(tick, opening, leverage), market)
  }

  /** What the order may need, by the position its fills meet: nothing if it can lock nothing. */
  function NeededUsd(holdings: seq<Holding>, market: string, met: Position, reopened: Position,
                     isBuy: bool, cap: u64, qty: u64): nat
  {
    var worst := WorstLock(met, reopened, isBuy, cap, qty);
    if worst == 0 then 0 else RequiredUsd(holdings, worst, market)
  }

  lemma AcceptedIff(holdings: seq<Holding>, market: string, isBuy: bool, tick: u64, qty: u64, leverage: u64, usd: nat)
    requires usd <= U128_MAX
    ensures CheckDepositedCollateral(Balance(usd), holdings, market, isBuy, tick, qty, leverage).Accepted?
      <==> AskedUsd(holdings, market, isBuy, tick, qty, leverage) <= usd
  {
    hide RequiredUsd, OpeningQty, RequiredMargin;
  }

  /** The order locks nothing, or the deposit covers everything locked before and by it, however the book splits it. */
  ghost predicate Covered(deposited: nat, holdings: seq<Holding>, market: string, cache: Cache, chain: Chain, k: Key,
                          isBuy: bool, cap: u64, qty: u64, leverage: u64)
  {
    forall legs | LegsOf(legs, isBuy, cap, qty, leverage) ::
      var locked := Locked(cache, chain, k, legs);
      locked <= 0 || RequiredUsd(holdings, locked, market) <= deposited
  }

  lemma CoveredIff(deposited: nat, holdings: seq<Holding>, market: string, cache: Cache, chain: Chain, k: Key,
                   isBuy: bool, cap: u64, qty: u64, leverage: u64)
    ensures Covered(deposited, holdings, market, cache, chain, k, isBuy, cap, qty, leverage) <==>
      var met := Loaded(Read(cache, chain, k), leverage);
      NeededUsd(holdings, market, met, Reopened(chain, k, leverage), isBuy, cap, qty) <= deposited
  {
    hide Locked, LegsOf, WorstLock, RequiredUsd, Read, Reopened;
    var worst := WorstLock(Loaded(Read(cache, chain, k), leverage), Reopened(chain, k, leverage), isBuy, cap, qty);
    WorstCaseIsReached(cache, chain, k, isBuy, cap, qty, leverage);
    forall legs | LegsOf(legs, isBuy, cap, qty, leverage)
      ensures 0 <= Locked(cache, chain, k, legs) <= worst
      ensures RequiredUsd(holdings, Max(0, Locked(cache, chain, k, legs)), market)
           <= RequiredUsd(holdings, worst, market)
    {
      LockedIsBounded(cache, chain, k, legs, isBuy, cap, qty, leverage);
      RequiredUsdMonotone(holdings, Locked(cache, chain, k, legs), worst, market);
    }
  }

  /** Accepting an order is safe for every deposit: whenever the gate lets it through, the deposit covers it. */
  ghost predicate GateIsSafe(holdings: seq<Holding>, market: string, cache: Cache, chain: Chain, k: Key,
                             isBuy: bool, tick: u64, cap: u64, qty: u64, leverage: u64)
  {
    forall usd: nat | usd <= U128_MAX ::
      CheckDepositedCollateral(Balance(usd), holdings, market, isBuy, tick, qty, leverage).Accepted?
      ==> Covered(usd, holdings, market, cache, chain, k, isBuy, cap, qty, leverage)
  }

  /** And refusing it is justified for every deposit. */
  ghost predicate GateIsExact(holdings: seq<Holding>, market: string, cache: Cache, chain: Chain, k: Key,
                              isBuy: bool, tick: u64, cap: u64, qty: u64, leverage: u64)
  {
    forall usd: nat | usd <= U128_MAX ::
      CheckDepositedCollateral(Balance(usd), holdings, market, isBuy, tick, qty, leverage).Accepted?
      <==> Covered(usd, holdings, market, cache, chain, k, isBuy, cap, qty, leverage)
  }

  /**
   For any order at any leverage, fills up to any cap, anything on the chain, and whatever other orders did to the
   position between the gate's read and the fills: the gate is safe if and only if what it asks for by the position it
   saw reaches what the order may need by the position it meets, and exact if and only if the two are the same.
   */
  lemma GateAcceptsIff(holdings: seq<Holding>, market: string, cache: Cache, chain: Chain, k: Key,
                       isBuy: bool, tick: u64, cap: u64, qty: u64, leverage: u64)
    ensures var met := Loaded(Read(cache, chain, k), leverage);
      var needed := NeededUsd(holdings, market, met, Reopened(chain, k, leverage), isBuy, cap, qty);
      var asked := AskedUsd(holdings, market, isBuy, tick, qty, leverage);
      && (GateIsSafe(holdings, market, cache, chain, k, isBuy, tick, cap, qty, leverage) <==> needed <= asked)
      && (GateIsExact(holdings, market, cache, chain, k, isBuy, tick, cap, qty, leverage) <==> needed == asked)
  {
    hide CheckDepositedCollateral, Covered, NeededUsd, AskedUsd, Read, Reopened;
    var met := Loaded(Read(cache, chain, k), leverage);
    var needed := NeededUsd(holdings, market, met, Reopened(chain, k, leverage), isBuy, cap, qty);
    var asked := AskedUsd(holdings, market, isBuy, tick, qty, leverage);
    AmountsAreU128(holdings, market, met, Reopened(chain, k, leverage), isBuy, tick, cap, qty, leverage);
    forall usd: nat | usd <= U128_MAX
      ensures asked <= usd <==>
                CheckDepositedCollateral(Balance(usd), holdings, market, isBuy, tick, qty, leverage).Accepted?
      ensures Covered(usd, holdings, market, cache, chain, k, isBuy, cap, qty, leverage) <==> needed <= usd
    {
      AcceptedIff(holdings, market, isBuy, tick, qty, leverage, usd);
      CoveredIff(usd, holdings, market, cache, chain, k, isBuy, cap, qty, leverage);
    }
    var a, b: nat := asked, needed;
    assert CheckDepositedCollateral(Balance(a), holdings, market, isBuy, tick, qty, leverage).Accepted?;
    assert CheckDepositedCollateral(Balance(b), holdings, market, isBuy, tick, qty, leverage).Accepted? <==> a <= b;
  }

  lemma AmountsAreU128(holdings: seq<Holding>, market: string, met: Position, reopened: Position,
                       isBuy: bool, tick: u64, cap: u64, qty: u64, leverage: u64)
    ensures AskedUsd(holdings, market, isBuy, tick, qty, leverage) <= U128_MAX
    ensures NeededUsd(holdings, market, met, reopened, isBuy, cap, qty) <= U128_MAX
  {
    hide LockedUsd, MarginToUsd, RequiredMargin, OpeningQty, WorstLock;
  }

  /**
   When the fills meet the size the gate saw, and short of saturation, an order that opens something is accepted
   safely if and only if the worst case stays within the margin asked for.
   */
  lemma UndisturbedGateIsSafeIff(holdings: seq<Holding>, market: string, cache: Cache, chain: Chain, k: Key,
                                 isBuy: bool, tick: u64, cap: u64, qty: u64, leverage: u64)
    requires var met := Loaded(Read(cache, chain, k), leverage);
      var asked := RequiredMargin(tick, OpeningQty(met.signedSize, isBuy, qty), leverage);
      && met.signedSize == SizeIn(holdings, market) && OpeningQty(met.signedSize, isBuy, qty) > 0
      && MarginFitsUsd(asked) && LockedUsd(holdings) + asked * UsdPerUnit(market) < U128_MAX
      && MarginFitsUsd(WorstLock(met, Reopened(chain, k, leverage), isBuy, cap, qty))
    ensures var met := Loaded(Read(cache, chain, k), leverage);
      GateIsSafe(holdings, market, cache, chain, k, isBuy, tick, cap, qty, leverage) <==>
        WorstLock(met, Reopened(chain, k, leverage), isBuy, cap, qty)
        <= RequiredMargin(tick, OpeningQty(met.signedSize, isBuy, qty), leverage)
  {
    hide GateIsSafe, WorstLock, RequiredMargin, LockedUsd, MarginToUsd, MarginFitsUsd, UsdPerUnit;
    hide Read, Reopened, OpeningQty;
    var met := Loaded(Read(cache, chain, k), leverage);
    var asked := RequiredMargin(tick, OpeningQty(met.signedSize, isBuy, qty), leverage);
    var worst := WorstLock(met, Reopened(chain, k, leverage), isBuy, cap, qty);
    GateAcceptsIff(holdings, market, cache, chain, k, isBuy, tick, cap, qty, leverage);
    RequiredUsdOrder(holdings, worst, asked, market);
    hide RequiredUsd;
  }

  /** Short of saturation, asking for fewer dollars is locking less. */
  lemma RequiredUsdOrder(holdings: seq<Holding>, a: nat, b: nat, market: string)
    requires MarginFitsUsd(a) && MarginFitsUsd(b) && LockedUsd(holdings) + b * UsdPerUnit(market) < U128_MAX
    ensures RequiredUsd(holdings, a, market) <= RequiredUsd(holdings, b, market) <==> a <= b
  {
    var u := UsdPerUnit(market);
    MarginToUsdExactIff(a, market);
    MarginToUsdExactIff(b, market);
    if a <= b {
      MulLe(a, b, u);
    } else {
      MulLe(b + 1, a, u);
    }
  }

  /**
   The gate reads without a lock: an order that only closes the position it saw is let through on no deposit at all,
   and is not safe if its fills then meet a key on which they can lock anything.
   */
  lemma StaleSizeIsUnsafe(holdings: seq<Holding>, market: string, cache: Cache, chain: Chain, k: Key,
                          isBuy: bool, tick: u64, cap: u64, qty: u64, leverage: u64)
    requires OpeningQty(SizeIn(holdings, market), isBuy, qty) == 0
    ensures CheckDepositedCollateral(Balance(0), holdings, market, isBuy, tick, qty, leverage).Accepted?
    ensures GateIsSafe(holdings, market, cache, chain, k, isBuy, tick, cap, qty, leverage) <==>
      WorstLock(Loaded(Read(cache, chain, k), leverage), Reopened(chain, k, leverage), isBuy, cap, qty) == 0
  {
    hide GateIsSafe, WorstLock, RequiredMargin, LockedUsd, Read, Reopened, OpeningQty, MarginToUsd;
    GateAcceptsIff(holdings, market, cache, chain, k, isBuy, tick, cap, qty, leverage);
    var worst := WorstLock(Loaded(Read(cache, chain, k), leverage), Reopened(chain, k, leverage), isBuy, cap, qty);
    if worst > 0 {
      MarginIsWorthSomething(worst, market);
    }
  }

  lemma MarginIsWorthSomething(raw: nat, market: string)
    requires raw > 0
    ensures MarginToUsd(raw, market) > 0
  {
    var s := PriceScale(market);
    MulLe(1, raw, USD_SCALE);
    DivMonotone(s, SaturatingU128(raw * USD_SCALE), s);
    QuotientIs(s, s, 1);
  }

  // ---- What the gate asks for ----

  /** It reads the size of the first holding in the order's market, and no size where there is none. */
  lemma {:induction false} SizeSeen(holdings: seq<Holding>, market: string, i: nat)
    requires i <= |holdings| && forall j :: 0 <= j < i ==> holdings[j].market != market
    ensures i < |holdings| && holdings[i].market == market ==>
      SizeIn(holdings, market) == holdings[i].position.signedSize
    ensures i == |holdings| ==> SizeIn(holdings, market) == 0
  {
    if i > 0 {
      SizeSeen(holdings[1..], market, i - 1);
    }
  }

  /** Unconfigured or unreachable, it lets every order through. */
  lemma GateFailsOpen(deposit: Deposit, holdings: seq<Holding>, market: string, isBuy: bool,
                      tick: u64, qty: u64, leverage: u64)
    requires deposit == NotConfigured || deposit == Unreachable
    ensures CheckDepositedCollateral(deposit, holdings, market, isBuy, tick, qty, leverage) == Accepted
  {}

  /** A refusal names the least deposit that would have been accepted, and the deposit there is. */
  lemma RefusalNamesTheLeastDeposit(usd: nat, less: nat, holdings: seq<Holding>, market: string, isBuy: bool,
                                    tick: u64, qty: u64, leverage: u64)
    requires less <= usd <= U128_MAX
    requires CheckDepositedCollateral(Balance(less), holdings, market, isBuy, tick, qty,
                                      leverage).InsufficientCollateral?
    ensures var refusal := CheckDepositedCollateral(Balance(less), holdings, market, isBuy, tick, qty, leverage);
      && refusal.availableUsd == less
      && (CheckDepositedCollateral(Balance(usd), holdings, market, isBuy, tick, qty, leverage).Accepted?
          <==> refusal.requiredUsd <= usd)
  {
    hide RequiredUsd, OpeningQty, RequiredMargin;
  }

  function Raised(holdings: seq<Holding>, i: nat, more: nat): seq<Holding>
    requires i < |holdings|
  {
    var h := holdings[i];
    holdings[i := h.(position := h.position.(collateral := h.position.collateral + more))]
  }

  lemma {:induction false} RaisedLocksMore(holdings: seq<Holding>, i: nat, more: nat)
    requires i < |holdings| && holdings[i].position.collateral >= 0
    requires MarginFitsUsd(holdings[i].position.collateral + more)
    ensures LockedUsd(Raised(holdings, i, more)) == LockedUsd(holdings) + more * UsdPerUnit(holdings[i].market)
  {
    hide MarginToUsd;
    var raised, h := Raised(holdings, i, more), holdings[i];
    if i == 0 {
      var c, u := h.position.collateral, UsdPerUnit(h.market);
      assert raised[1..] == holdings[1..];
      MarginToUsdExactIff(c, h.market);
      MarginToUsdExactIff(c + more, h.market);
      MulLe(c, c + more, USD_SCALE);
      assert (c + more) * u == c * u + more * u;
    } else {
      assert raised[1..] == Raised(holdings[1..], i - 1, more);
      RaisedLocksMore(holdings[1..], i - 1, more);
    }
  }

  lemma {:induction false} RaisedKeepsSizes(holdings: seq<Holding>, i: nat, more: nat, market: string)
    requires i < |holdings|
    ensures SizeIn(Raised(holdings, i, more), market) == SizeIn(holdings, market)
  {
    var raised := Raised(holdings, i, more);
    if i == 0 {
      assert raised[1..] == holdings[1..];
    } else {
      assert raised[1..] == Raised(holdings[1..], i - 1, more);
      RaisedKeepsSizes(holdings[1..], i - 1, more, market);
    }
  }

  /**
   Everything locked before counts: short of saturation, `more` collateral in any one holding, in any market, raises the
   deposit an opening order needs by exactly its dollars.
   */
  lemma EveryHoldingCounts(holdings: seq<Holding>, i: nat, more: nat, market: string, isBuy: bool,
                           tick: u64, qty: u64, leverage: u64, usd: nat)
    requires i < |holdings| && holdings[i].position.collateral >= 0
    requires MarginFitsUsd(holdings[i].position.collateral + more)
    requires var opening := OpeningQty(SizeIn(holdings, market), isBuy, qty);
      && opening > 0
      && LockedUsd(Raised(holdings, i, more)) + MarginToUsd(RequiredMargin(tick, opening, leverage), market) <= U128_MAX
    requires usd + more * UsdPerUnit(holdings[i].market) <= U128_MAX
    ensures var raised, extra := Raised(holdings, i, more), more * UsdPerUnit(holdings[i].market);
      CheckDepositedCollateral(Balance(usd), holdings, market, isBuy, tick, qty, leverage).Accepted?
      <==> CheckDepositedCollateral(Balance(usd + extra), raised, market, isBuy, tick, qty, leverage).Accepted?
  {
    hide LockedUsd, MarginToUsd, RequiredMargin, OpeningQty, UsdPerUnit, SizeIn, Raised, MarginFitsUsd;
    RaisedLocksMore(holdings, i, more);
    RaisedKeepsSizes(holdings, i, more, market);
    MulLe(0, more, UsdPerUnit(holdings[i].market));
  }

  lemma {:induction false} NothingLockedBefore(holdings: seq<Holding>)
    requires forall i :: 0 <= i < |holdings| ==> holdings[i].position.collateral <= 0
    ensures LockedUsd(holdings) == 0
  {
    if holdings != [] {
      NothingLockedBefore(holdings[1..]);
    }
  }

  /** And with no collateral locked anywhere an opening order needs exactly its own margin's dollars. */
  lemma FirstOrderNeedsItsMargin(holdings: seq<Holding>, market: string, isBuy: bool,
                                 tick: u64, qty: u64, leverage: u64, usd: nat)
    requires forall i :: 0 <= i < |holdings| ==> holdings[i].position.collateral <= 0
    requires var opening := OpeningQty(SizeIn(holdings, market), isBuy, qty);
      opening > 0 && MarginFitsUsd(RequiredMargin(tick, opening, leverage))
    requires usd <= U128_MAX
    ensures var margin := RequiredMargin(tick, OpeningQty(SizeIn(holdings, market), isBuy, qty), leverage);
      CheckDepositedCollateral(Balance(usd), holdings, market, isBuy, tick, qty, leverage).Accepted?
      <==> margin * UsdPerUnit(market) <= usd
  {
    var margin := RequiredMargin(tick, OpeningQty(SizeIn(holdings, market), isBuy, qty), leverage);
    hide LockedUsd, MarginToUsd, RequiredMargin, OpeningQty, SizeIn;
    NothingLockedBefore(holdings);
    MarginToUsdExactIff(margin, market);
    MulLe(UsdPerUnit(market), USD_SCALE, margin);
  }

  /** Where what is needed stays within what is asked, an accepted order is covered or locks nothing. */
  lemma AcceptedOrderStaysCovered(usd: nat, holdings: seq<Holding>, market: string, cache: Cache, chain: Chain, k: Key,
                                  legs: seq<Leg>, isBuy: bool, tick: u64, cap: u64, qty: u64, leverage: u64)
    requires usd <= U128_MAX && LegsOf(legs, isBuy, cap, qty, leverage)
    requires var met := Loaded(Read(cache, chain, k), leverage);
      NeededUsd(holdings, market, met, Reopened(chain, k, leverage), isBuy, cap, qty)
      <= AskedUsd(holdings, market, isBuy, tick, qty, leverage)
    requires CheckDepositedCollateral(Balance(usd), holdings, market, isBuy, tick, qty, leverage).Accepted?
    ensures var locked := Locked(cache, chain, k, legs);
      locked == 0 || (locked > 0 && RequiredUsd(holdings, locked, market) <= usd)
  {
    hide Locked, LegsOf, AskedUsd, NeededUsd, RequiredUsd, CheckDepositedCollateral, Read, Reopened;
    LockedIsBounded(cache, chain, k, legs, isBuy, cap, qty, leverage);
    AcceptedIff(holdings, market, isBuy, tick, qty, leverage, usd);
    CoveredIff(usd, holdings, market, cache, chain, k, isBuy, cap, qty, leverage);
  }

  /** An order that opens nothing on the position the gate saw always passes, and on the one it meets locks nothing. */
  lemma CloseIsNeverRefused(deposit: Deposit, holdings: seq<Holding>, market: string, cache: Cache, chain: Chain,
                            k: Key, legs: seq<Leg>, isBuy: bool, tick: u64, cap: u64, qty: u64, leverage: u64)
    requires LegsOf(legs, isBuy, cap, qty, leverage)
    ensures OpeningQty(SizeIn(holdings, market), isBuy, qty) == 0 ==>
              CheckDepositedCollateral(deposit, holdings, market, isBuy, tick, qty, leverage) == Accepted
    ensures OpeningQty(Loaded(Read(cache, chain, k), leverage).signedSize, isBuy, qty) == 0 ==>
              Locked(cache, chain, k, legs) == 0
  {
    hide Locked, LegsOf, RequiredMargin, Read, Reopened;
    LockedIsBounded(cache, chain, k, legs, isBuy, cap, qty, leverage);
    var p, reopened := Loaded(Read(cache, chain, k), leverage), Reopened(chain, k, leverage);
    FillSplitting.MarginSplits(cap, 0, 0, p.leverage);
    FillSplitting.MarginSplits(cap, 0, 0, reopened.leverage);
  }

  // ---- Orders the gate asks too little for ----

  /** A position whose size and leverage are all that matters here. */
  function Holds(size: int, leverage: u64): Position {
    Flat(leverage).(signedSize := size)
  }

  /** What a key holds in the cache and on the chain, beside nothing else. */
  function Cached(p: Position): Cache {
    map[0 := p]
  }

  function OnChain(p: Position): Chain {
    map[0 := ChainPosition(0, Some(ParamsOf(p)))]
  }

  /**
   A sell fills at or above its tick, so a bid of 11 locks more than a tick of 10 asks for. A buy of leverage 10
   onto a position of leverage 1 locks ten times what it is asked. And a sell of leverage 50 that first closes a
   cached long exactly, while an unsettled short of leverage 1 is still on the chain, is folded onto that short.
   */
  lemma ReservesThatDoNotCover()
    ensures exists legs ::
              LegsOf(legs, false, 11, 1, 1) && Locked(map[], map[], 0, legs) > RequiredMargin(10, 1, 1)
    ensures exists legs ::
              LegsOf(legs, true, 100, 1, 10) && Locked(Cached(Holds(1, 1)), map[], 0, legs) > RequiredMargin(100, 1, 10)
    ensures exists legs ::
              && LegsOf(legs, false, 100, 20, 50)
              && Locked(Cached(Holds(10, 50)), OnChain(Holds(-10, 1)), 0, legs) > RequiredMargin(100, 10, 50)
  {
    hide LegsOf, Locked, RequiredMargin, OpeningQty, Opposes, Holds, Cached, OnChain, Reopened, Read, Flat, WorstLock;
    MarginTable();
    OpeningOf(0, false, 1);
    OpeningOf(0, true, 1);
    OpeningOf(1, true, 1);
    OpeningOf(10, false, 20);
    OpeningOf(-10, false, 10);
    StatesOf(0, 1, 0, 1, 1);
    StatesOf(1, 1, 0, 1, 10);
    StatesOf(10, 50, -10, 1, 50);
    WorstIsAtLeast(Flat(1), Flat(1), false, 11, 1, 1, 1);
    TooSmallAReserve(map[], map[], Flat(1), Flat(1), false, 11, 1, 1, 10);
    WorstIsAtLeast(Holds(1, 1), Flat(10), true, 100, 1, 1, 1);
    TooSmallAReserve(Cached(Holds(1, 1)), map[], Holds(1, 1), Flat(10), true, 100, 1, 10, 10);
    WorstIsAtLeast(Holds(10, 50), Holds(-10, 1), false, 100, 20, 10, 10);
    TooSmallAReserve(Cached(Holds(10, 50)), OnChain(Holds(-10, 1)), Holds(10, 50), Holds(-10, 1),
                     false, 100, 20, 50, 20);
  }

  /**
   A fill after an early flat opens at the order's leverage, not the position's: a sell of leverage 1 through a
   long of leverage 50 can lock fifty times the margin that leverage 50 asks for its opening part.
   */
  lemma FlatReopensAtTheOrdersLeverage()
    ensures exists legs ::
              && LegsOf(legs, false, 100, 20, 1)
              && Locked(Cached(Holds(10, 50)), map[], 0, legs) > RequiredMargin(100, 10, 50)
  {
    hide LegsOf, Locked, RequiredMargin, OpeningQty, Opposes, Holds, Cached, Reopened, Read, Flat, WorstLock;
    MarginTable();
    OpeningOf(10, false, 20);
    OpeningOf(0, false, 10);
    StatesOf(10, 50, 0, 1, 1);
    WorstIsAtLeast(Holds(10, 50), Flat(1), false, 100, 20, 10, 10);
    TooSmallAReserve(Cached(Holds(10, 50)), map[], Holds(10, 50), Flat(1), false, 100, 20, 1, 20);
  }

  lemma WorstIsAtLeast(p: Position, reopened: Position, isBuy: bool, cap: u64, qty: u64, opening: nat, again: nat)
    requires opening == OpeningQty(p.signedSize, isBuy, qty) && again == OpeningQty(reopened.signedSize, isBuy, opening)
    ensures WorstLock(p, reopened, isBuy, cap, qty) >= RequiredMargin(cap, opening, p.leverage)
    ensures Opposes(p.signedSize, isBuy) ==>
              WorstLock(p, reopened, isBuy, cap, qty) >= RequiredMargin(cap, again, reopened.leverage)
  {
    hide RequiredMargin, OpeningQty;
  }

  lemma StatesOf(size: int, carried: u64, chainSize: int, chainLeverage: u64, leverage: u64)
    ensures Flat(leverage).signedSize == 0 && Flat(leverage).leverage == leverage
    ensures Holds(size, carried).signedSize == size && Holds(size, carried).leverage == carried
    ensures Holds(chainSize, chainLeverage).signedSize == chainSize
    ensures Holds(chainSize, chainLeverage).leverage == chainLeverage
    ensures Loaded(Read(map[], map[], 0), leverage) == Reopened(map[], 0, leverage) == Flat(leverage)
    ensures forall chain :: Loaded(Read(Cached(Holds(size, carried)), chain, 0), leverage) == Holds(size, carried)
    ensures Reopened(OnChain(Holds(chainSize, chainLeverage)), 0, leverage) == Holds(chainSize, chainLeverage)
  {}

  lemma OpeningOf(s: int, isBuy: bool, qty: nat)
    ensures Opposes(s, isBuy) <==> if isBuy then s < 0 else s > 0
    ensures !Opposes(s, isBuy) ==> OpeningQty(s, isBuy, qty) == qty
    ensures Opposes(s, isBuy) && qty >= Abs(s) ==> OpeningQty(s, isBuy, qty) == qty - Abs(s)
  {}

  lemma TooSmallAReserve(cache: Cache, chain: Chain, p: Position, reopened: Position,
                         isBuy: bool, cap: u64, qty: u64, leverage: u64, reserve: nat)
    requires qty > 0 && p == Loaded(Read(cache, chain, 0), leverage) && reopened == Reopened(chain, 0, leverage)
    requires WorstLock(p, reopened, isBuy, cap, qty) > reserve
    ensures exists legs :: LegsOf(legs, isBuy, cap, qty, leverage) && Locked(cache, chain, 0, legs) > reserve
  {
    hide LegsOf, Locked, WorstLock, Read, Reopened;
    WorstCaseIsReached(cache, chain, 0, isBuy, cap, qty, leverage);
  }

  lemma MarginTable()
    ensures RequiredMargin(10, 1, 1) == 10 && RequiredMargin(11, 1, 1) == 11
    ensures RequiredMargin(100, 1, 1) == 100 && RequiredMargin(100, 1, 10) == 10
    ensures RequiredMargin(100, 10, 50) == 20 && RequiredMargin(100, 10, 1) == 1_000
  {}
}
