/**
 Slicing one quantity into matches, on the program's own path: every slice is loaded cache-first, folded and
 written back, so a slice that lands on flat sends the next one to the chain. FillSplitting covers a position
 held in memory throughout; here its results meet the evictions.
 */
module SweepSlicing {
  import opened Arithmetic
  import opened PositionFolding
  import opened PositionCaching
  import opened FillSplitting
  import opened Primitives

  /** The legs trade the fill's quantity in slices of its side, price and index, at the order's leverage. */
  ghost predicate Slicing(legs: seq<Leg>, f: Fill, leverage: u64) {
    && legs != []
    && (forall i :: 0 <= i < |legs| ==>
          legs[i].fill == f.(qty := legs[i].fill.qty) && legs[i].leverage == leverage)
    && Traded(legs) == f.qty
  }

  /** The position a sweep leaves behind, with the collateral it moved except for fees. */
  function Result(cache: Cache, chain: Chain, k: Key, legs: seq<Leg>, leverage: u64): Outcome {
    var r := Sweep(cache, chain, k, legs);
    Outcome(Loaded(Entry(r.cache, k), leverage), r.delta - Fees(legs), r.realized)
  }

  function Whole(f: Fill, leverage: u64): seq<Leg> {
    [Leg(f, leverage, 0)]
  }

  lemma WholeIsSlicing(f: Fill, leverage: u64)
    ensures Slicing(Whole(f, leverage), f, leverage)
  {
    assert Traded(Whole(f, leverage)) == f.qty + Traded(Whole(f, leverage)[1..]);
  }

  // ---- Without an early flat a sweep is a run in memory ----

  function FillsOf(legs: seq<Leg>): (fills: seq<Fill>)
    ensures |fills| == |legs|
  {
    if legs == [] then [] else [legs[0].fill] + FillsOf(legs[1..])
  }

  function Quantities(legs: seq<Leg>): (qs: seq<Qty>)
    ensures |qs| == |legs|
    ensures Total(qs) == Traded(legs)
  {
    if legs == [] then [] else
    var rest := Quantities(legs[1..]);
    assert ([legs[0].fill.qty] + rest)[1..] == rest;
    [legs[0].fill.qty] + rest
  }

  lemma {:induction false} FillsAreSlices(legs: seq<Leg>, f: Fill)
    requires forall i :: 0 <= i < |legs| ==> legs[i].fill == f.(qty := legs[i].fill.qty)
    ensures FillsOf(legs) == Slices(f, Quantities(legs))
  {
    if legs != [] {
      FillsAreSlices(legs[1..], f);
      assert Quantities(legs)[1..] == Quantities(legs[1..]);
    }
  }

  lemma AppliedIgnoresCollateral(p: Position, c: int, f: Fill)
    ensures var o, r := Applied(p, f), Applied(p.(collateral := c), f);
      r == Outcome(o.position.(collateral := c + o.delta), o.delta, o.realized)
  {
    hide BlendPrice, BlendFunding, RequiredMargin;
  }

  lemma {:induction false} RunIgnoresCollateral(p: Position, c: int, fills: seq<Fill>)
    ensures var o, r := Run(p, fills), Run(p.(collateral := c), fills);
      r == Outcome(o.position.(collateral := c + o.delta), o.delta, o.realized)
    decreases |fills|
  {
    hide Applied;
    if fills != [] {
      var first := Applied(p, fills[0]);
      AppliedIgnoresCollateral(p, c, fills[0]);
      RunIgnoresCollateral(first.position, c + first.delta, fills[1..]);
    }
  }

  /** What a sweep leaves in the cache when it is a run in memory. */
  predicate SameAsRun(r: FoldResult, cache: Cache, k: Key, o: Outcome, fees: int) {
    && r.cache == Put(cache, k, o.position.(collateral := o.position.collateral + fees))
    && r.delta == o.delta + fees && r.realized == o.realized
  }

  lemma SweepFirst(cache: Cache, chain: Chain, k: Key, legs: seq<Leg>)
    requires legs != []
    ensures var first := LoadAndFold(cache, chain, k, legs[0]);
      var rest := Sweep(first.cache, chain, k, legs[1..]);
      Sweep(cache, chain, k, legs) == FoldResult(rest.cache, first.delta + rest.delta, first.realized + rest.realized)
  {}

  lemma RunFirst(p: Position, legs: seq<Leg>)
    requires legs != []
    ensures var first := Applied(p, legs[0].fill);
      var rest := Run(first.position, FillsOf(legs[1..]));
      Run(p, FillsOf(legs)) == Outcome(rest.position, first.delta + rest.delta, first.realized + rest.realized)
  {
    hide Applied;
    assert FillsOf(legs)[1..] == FillsOf(legs[1..]);
  }

  lemma {:induction false} SweepIsRun(cache: Cache, chain: Chain, k: Key, legs: seq<Leg>, leverage: u64)
    requires legs != [] && forall i :: 0 <= i < |legs| ==> legs[i].leverage == leverage
    requires !LandsFlatEarly(Loaded(Read(cache, chain, k), leverage).signedSize, legs)
    ensures SameAsRun(Sweep(cache, chain, k, legs), cache, k,
                      Run(Loaded(Read(cache, chain, k), leverage), FillsOf(legs)), Fees(legs))
    decreases |legs|
  {
    hide Applied, Sweep, Run;
    var p := Loaded(Read(cache, chain, k), leverage);
    var leg, q := legs[0], WithLeg(p, legs[0]);
    var first := LoadAndFold(cache, chain, k, leg);
    SweepFirst(cache, chain, k, legs);
    RunFirst(p, legs);
    if |legs| > 1 {
      SweepIsRun(first.cache, chain, k, legs[1..], leverage);
      RunIgnoresCollateral(Applied(p, leg.fill).position, q.collateral, FillsOf(legs[1..]));
    } else {
      assert legs[1..] == [] && FillsOf(legs[1..]) == [];
      NothingRun(first.cache, chain, k, Applied(p, leg.fill).position);
    }
  }

  lemma NothingRun(cache: Cache, chain: Chain, k: Key, p: Position)
    ensures Sweep(cache, chain, k, []) == FoldResult(cache, 0, 0) && Run(p, []) == Outcome(p, 0, 0)
  {}

  /** Two outcomes on their way through the cache: a flat position leaves nothing of its entry behind. */
  function Stored(o: Outcome, leverage: u64): Outcome {
    if o.position.signedSize == 0 then Outcome(Flat(leverage), o.delta, o.realized) else o
  }

  lemma StoredRefines(many: Outcome, one: Outcome, k: nat, leverage: u64)
    requires Refines(many, one, k)
    ensures Refines(Stored(many, leverage), Stored(one, leverage), k)
  {}

  lemma RunResult(cache: Cache, chain: Chain, k: Key, legs: seq<Leg>, leverage: u64)
    requires legs != [] && forall i :: 0 <= i < |legs| ==> legs[i].leverage == leverage
    requires !LandsFlatEarly(Loaded(Read(cache, chain, k), leverage).signedSize, legs)
    ensures var o := Stored(Run(Loaded(Read(cache, chain, k), leverage), FillsOf(legs)), leverage);
      var r := Result(cache, chain, k, legs, leverage);
      && r.delta == o.delta && r.realized == o.realized
      && r.position == o.position.(collateral := r.position.collateral)
  {
    hide Run, Sweep, Read;
    SweepIsRun(cache, chain, k, legs, leverage);
  }

  lemma WholeResult(cache: Cache, chain: Chain, k: Key, f: Fill, leverage: u64)
    ensures var o := Stored(Applied(Loaded(Read(cache, chain, k), leverage), f), leverage);
      var r := Result(cache, chain, k, Whole(f, leverage), leverage);
      && r.delta == o.delta && r.realized == o.realized
      && r.position == o.position.(collateral := r.position.collateral)
  {
    hide Applied, Result, Read;
    var p, fills := Loaded(Read(cache, chain, k), leverage), [f];
    assert FillsOf(Whole(f, leverage)) == fills by {
      assert FillsOf(Whole(f, leverage)[1..]) == [];
    }
    RunResult(cache, chain, k, Whole(f, leverage), leverage);
    assert Run(Applied(p, f).position, fills[1..]) == Outcome(Applied(p, f).position, 0, 0);
  }

  /** Comparison of results looks at no collateral. */
  lemma RefinesShape(many: Outcome, one: Outcome, many': Outcome, one': Outcome, k: nat)
    requires Refines(many, one, k)
    requires many'.delta == many.delta && many'.realized == many.realized
    requires many'.position == many.position.(collateral := many'.position.collateral)
    requires one'.delta == one.delta && one'.realized == one.realized
    requires one'.position == one.position.(collateral := one'.position.collateral)
    ensures Refines(many', one', k)
  {}

  lemma {:induction false} SlicesWithoutFlat(cache: Cache, chain: Chain, k: Key, legs: seq<Leg>, f: Fill, leverage: u64)
    requires Slicing(legs, f, leverage)
    requires !LandsFlatEarly(Loaded(Read(cache, chain, k), leverage).signedSize, legs)
    ensures Refines(Result(cache, chain, k, legs, leverage), Result(cache, chain, k, Whole(f, leverage), leverage),
                    |legs| - 1)
  {
    hide Applied, Run, Result, Refines, Read, Stored;
    var p := Loaded(Read(cache, chain, k), leverage);
    FillsAreSlices(legs, f);
    SlicingIsHarmless(p, f, Quantities(legs));
    StoredRefines(Run(p, FillsOf(legs)), Applied(p, f), |legs| - 1, leverage);
    RunResult(cache, chain, k, legs, leverage);
    WholeResult(cache, chain, k, f, leverage);
    RefinesShape(Stored(Run(p, FillsOf(legs)), leverage), Stored(Applied(p, f), leverage),
                 Result(cache, chain, k, legs, leverage),
                 Result(cache, chain, k, Whole(f, leverage), leverage), |legs| - 1);
  }

  // ---- With an early flat, and no chain position to fall back to ----

  /** Everything of `f` that opens, and at whose leverage, after the old side was closed exactly. */
  ghost predicate ReopensCleanly(many: Outcome, p: Position, reopened: Position, f: Fill, slack: int) {
    var o := OpeningQty(p.signedSize, f.isBuy, f.qty);
    var margin := RequiredMargin(f.price, o, reopened.leverage);
    && many.position.signedSize == p.signedSize + f.Signed()
    && many.realized == Pnl(p, Abs(p.signedSize), f.price, f.funding)
    && f.price - slack <= many.position.entryPrice <= f.price
    && Abs(many.position.entryFunding - f.funding) <= slack
    && margin - slack <= Margin(many) <= margin
  }

  lemma AddsNeverLandFlat(s: int, legs: seq<Leg>, f: Fill)
    requires !Opposes(s, f.isBuy)
    requires forall i :: 0 <= i < |legs| ==> legs[i].fill == f.(qty := legs[i].fill.qty)
    ensures !LandsFlatEarly(s, legs)
    decreases |legs|
  {
    if |legs| > 1 {
      AddsNeverLandFlat(s + legs[0].fill.Signed(), legs[1..], f);
    }
  }

  /** Slices onto a position of no size: all of it opens there. */
  lemma OpensFromNothing(cache: Cache, chain: Chain, k: Key, legs: seq<Leg>, f: Fill, leverage: u64)
    requires Slicing(legs, f, leverage) && Loaded(Read(cache, chain, k), leverage).signedSize == 0
    ensures ReopensCleanly(Result(cache, chain, k, legs, leverage), Loaded(Read(cache, chain, k), leverage),
                           Loaded(Read(cache, chain, k), leverage), f, |legs| - 1)
  {
    hide Applied, Result, RequiredMargin, Read, Stored, BlendPrice, BlendFunding;
    var p := Loaded(Read(cache, chain, k), leverage);
    AddsNeverLandFlat(p.signedSize, legs, f);
    SlicesWithoutFlat(cache, chain, k, legs, f, leverage);
    WholeResult(cache, chain, k, f, leverage);
    AppliedEntry(p, f);
    AppliedMoney(p, f);
    StoredIfOpen(Applied(p, f), leverage);
  }

  lemma StoredIfOpen(o: Outcome, leverage: u64)
    ensures o.position.signedSize != 0 ==> Stored(o, leverage) == o
  {}

  /** The first leg of a sweep, and the sweep of the others. */
  lemma FirstResult(cache: Cache, chain: Chain, k: Key, legs: seq<Leg>, leverage: u64)
    requires legs != [] && legs[0].leverage == leverage
    ensures var p, leg := Loaded(Read(cache, chain, k), leverage), legs[0];
      var first := LoadAndFold(cache, chain, k, leg);
      var rest, all := Result(first.cache, chain, k, legs[1..], leverage), Result(cache, chain, k, legs, leverage);
      && all.position == rest.position
      && all.realized == Applied(p, leg.fill).realized + rest.realized
      && Margin(all) == Margin(Applied(p, leg.fill)) + Margin(rest)
      && Read(first.cache, chain, k)
         == if p.signedSize + leg.fill.Signed() == 0 then FromChain(ChainAt(chain, k)) else Some(WithLeg(p, leg))
  {
    hide Applied, Fees, ChainAt, FromChain;
    assert Fees(legs) == legs[0].extra + Fees(legs[1..]) by {
      FeesOf(legs);
    }
  }

  lemma FeesOf(legs: seq<Leg>)
    requires legs != []
    ensures Fees(legs) == legs[0].extra + Fees(legs[1..])
  {}

  /** A slice that only closes: what it realizes, and what it leaves for the next. */
  lemma ClosingSlice(p: Position, leg: Leg, rest: nat)
    requires Opposes(p.signedSize, leg.fill.isBuy) && leg.fill.qty + rest == Abs(p.signedSize)
    ensures var f, q := leg.fill, WithLeg(p, leg);
      && Margin(Applied(p, f)) == 0
      && Applied(p, f).realized + Pnl(q, rest, f.price, f.funding) == Pnl(p, Abs(p.signedSize), f.price, f.funding)
      && Abs(q.signedSize) == rest && (rest > 0 ==> Opposes(q.signedSize, f.isBuy))
      && q.leverage == p.leverage
  {
    hide Applied, RequiredMargin, BlendPrice, BlendFunding, Pnl;
    var f, q := leg.fill, WithLeg(p, leg);
    AppliedMoney(p, f);
    AppliedEntry(p, f);
    MarginSplits(f.price, 0, 0, p.leverage);
    PnlSplits(p, f.qty, rest, f.price, f.funding);
    PnlOfRemainder(p, q, rest, f.price, f.funding);
    ClosedNothing(q, f.price, f.funding);
  }

  lemma ClosedNothing(p: Position, price: u64, funding: int)
    ensures Pnl(p, 0, price, funding) == 0
  {}

  lemma {:induction false} SlicesThroughFlat(cache: Cache, chain: Chain, k: Key, legs: seq<Leg>, f: Fill, leverage: u64)
    requires Slicing(legs, f, leverage) && Reopened(chain, k, leverage).signedSize == 0
    requires var s := Loaded(Read(cache, chain, k), leverage).signedSize;
      Opposes(s, f.isBuy) && LandsFlatEarly(s, legs)
    ensures |legs| >= 2
    ensures ReopensCleanly(Result(cache, chain, k, legs, leverage), Loaded(Read(cache, chain, k), leverage),
                           Reopened(chain, k, leverage), f, |legs| - 2)
    decreases |legs|
  {
    hide Applied, Result, RequiredMargin, Read, LoadAndFold, Pnl, FromChain, ChainAt;
    var p, leg := Loaded(Read(cache, chain, k), leverage), legs[0];
    var after, rest := LoadAndFold(cache, chain, k, leg).cache, legs[1..];
    var held := Abs(p.signedSize);
    FirstResult(cache, chain, k, legs, leverage);
    TradedOf(legs);
    if leg.fill.qty > held {
      AddsNeverLandFlat(p.signedSize + leg.fill.Signed(), rest, f);
      assert false;
    } else {
      ClosingSlice(p, leg, held - leg.fill.qty);
      var g := f.(qty := f.qty - leg.fill.qty);
      assert Slicing(rest, g, leverage);
      if leg.fill.qty == held {
        ClosedNothing(WithLeg(p, leg), f.price, f.funding);
        OpensFromNothing(after, chain, k, rest, g, leverage);
        ClosedNothing(Reopened(chain, k, leverage), f.price, f.funding);
      } else {
        SlicesThroughFlat(after, chain, k, rest, g, leverage);
      }
    }
  }

  lemma TradedOf(legs: seq<Leg>)
    requires legs != []
    ensures Traded(legs) == legs[0].fill.qty + Traded(legs[1..])
    ensures |legs| > 1 ==> Traded(legs[1..]) > 0
  {}

  // ---- When slicing is harmless ----

  /** No slicing can land flat early, or what it would reopen is of no size and asks the single fill's margin. */
  predicate SlicesSafely(p: Position, reopened: Position, f: Fill) {
    var o := OpeningQty(p.signedSize, f.isBuy, f.qty);
    || !Opposes(p.signedSize, f.isBuy)
    || o == 0
    || (&& reopened.signedSize == 0
        && RequiredMargin(f.price, o, p.leverage) - 1
           <= RequiredMargin(f.price, o, reopened.leverage)
           <= RequiredMargin(f.price, o, p.leverage))
  }

  ghost predicate Harmless(cache: Cache, chain: Chain, k: Key, legs: seq<Leg>, f: Fill, leverage: u64) {
    Slicing(legs, f, leverage) ==>
      Refines(Result(cache, chain, k, legs, leverage), Result(cache, chain, k, Whole(f, leverage), leverage),
              |legs| - 1)
  }

  lemma EarlyFlatNeedsOpening(s: int, legs: seq<Leg>, f: Fill)
    requires forall i :: 0 <= i < |legs| ==> legs[i].fill == f.(qty := legs[i].fill.qty)
    requires LandsFlatEarly(s, legs)
    ensures Opposes(s, f.isBuy) && OpeningQty(s, f.isBuy, Traded(legs)) > 0
    decreases |legs|
  {
    TradedOf(legs);
    if s + legs[0].fill.Signed() != 0 {
      EarlyFlatNeedsOpening(s + legs[0].fill.Signed(), legs[1..], f);
    }
  }

  /** A single fill through zero, as one outcome. */
  lemma WholeFlip(cache: Cache, chain: Chain, k: Key, f: Fill, leverage: u64)
    requires var s := Loaded(Read(cache, chain, k), leverage).signedSize;
      Opposes(s, f.isBuy) && OpeningQty(s, f.isBuy, f.qty) > 0
    ensures var p := Loaded(Read(cache, chain, k), leverage);
      var one := Result(cache, chain, k, Whole(f, leverage), leverage);
      && one.position.signedSize == p.signedSize + f.Signed() && one.position.entryPrice == f.price
      && one.position.entryFunding == f.funding
      && one.realized == Pnl(p, Abs(p.signedSize), f.price, f.funding)
      && Margin(one) == RequiredMargin(f.price, OpeningQty(p.signedSize, f.isBuy, f.qty), p.leverage)
  {
    hide Applied, Result, RequiredMargin, Read, Stored, BlendPrice, BlendFunding, Pnl;
    var p := Loaded(Read(cache, chain, k), leverage);
    WholeResult(cache, chain, k, f, leverage);
    AppliedEntry(p, f);
    AppliedMoney(p, f);
    StoredIfOpen(Applied(p, f), leverage);
  }

  lemma SafeSlicing(cache: Cache, chain: Chain, k: Key, legs: seq<Leg>, f: Fill, leverage: u64)
    requires Slicing(legs, f, leverage)
    requires SlicesSafely(Loaded(Read(cache, chain, k), leverage), Reopened(chain, k, leverage), f)
    ensures Harmless(cache, chain, k, legs, f, leverage)
  {
    hide Result, RequiredMargin, Read, Reopened, Pnl;
    var p := Loaded(Read(cache, chain, k), leverage);
    if !LandsFlatEarly(p.signedSize, legs) {
      SlicesWithoutFlat(cache, chain, k, legs, f, leverage);
    } else {
      EarlyFlatNeedsOpening(p.signedSize, legs, f);
      SlicesThroughFlat(cache, chain, k, legs, f, leverage);
      WholeFlip(cache, chain, k, f, leverage);
    }
  }

  /** The slicing that meets the chain: close exactly, then the rest. */
  function TwoLegs(p: Position, f: Fill, leverage: u64): seq<Leg>
    requires 0 < Abs(p.signedSize) < f.qty
  {
    [Leg(f.(qty := Abs(p.signedSize)), leverage, 0), Leg(f.(qty := f.qty - Abs(p.signedSize)), leverage, 0)]
  }

  lemma TwoLegsSlice(p: Position, f: Fill, leverage: u64)
    requires 0 < Abs(p.signedSize) < f.qty
    ensures Slicing(TwoLegs(p, f, leverage), f, leverage)
    ensures Opposes(p.signedSize, f.isBuy) ==> LandsFlatEarly(p.signedSize, TwoLegs(p, f, leverage))
  {
    var legs := TwoLegs(p, f, leverage);
    TradedOf(legs);
    TradedOf(legs[1..]);
    assert legs[1..][1..] == [];
  }

  lemma UnsafeSlicing(cache: Cache, chain: Chain, k: Key, f: Fill, leverage: u64)
    requires k in cache ==> cache[k].signedSize != 0
    requires !SlicesSafely(Loaded(Read(cache, chain, k), leverage), Reopened(chain, k, leverage), f)
    ensures exists legs :: Slicing(legs, f, leverage) && !Harmless(cache, chain, k, legs, f, leverage)
  {
    hide Result, RequiredMargin, Read, FromChain, ChainAt, Pnl;
    var p, reopened := Loaded(Read(cache, chain, k), leverage), Reopened(chain, k, leverage);
    var legs := TwoLegs(p, f, leverage);
    TwoLegsSlice(p, f, leverage);
    WholeFlip(cache, chain, k, f, leverage);
    if reopened.signedSize == 0 {
      SlicesThroughFlat(cache, chain, k, legs, f, leverage);
    } else {
      TwoLegsSize(cache, chain, k, f, leverage);
    }
    assert !Harmless(cache, chain, k, legs, f, leverage);
  }

  lemma TwoLegsSize(cache: Cache, chain: Chain, k: Key, f: Fill, leverage: u64)
    requires k in cache ==> cache[k].signedSize != 0
    requires var p := Loaded(Read(cache, chain, k), leverage);
      Opposes(p.signedSize, f.isBuy) && Abs(p.signedSize) < f.qty
    requires Reopened(chain, k, leverage).signedSize != 0
    ensures var p := Loaded(Read(cache, chain, k), leverage);
      Result(cache, chain, k, TwoLegs(p, f, leverage), leverage).position.signedSize != p.signedSize + f.Signed()
  {
    hide Sweep, Read, FromChain, ChainAt;
    var p := Loaded(Read(cache, chain, k), leverage);
    var legs := TwoLegs(p, f, leverage);
    TwoLegsSlice(p, f, leverage);
    SweepKeepsSizeIff(cache, chain, k, legs);
    NetOfTwo(p, f, leverage);
  }

  lemma NetOfTwo(p: Position, f: Fill, leverage: u64)
    requires 0 < Abs(p.signedSize) < f.qty
    ensures NetOf(TwoLegs(p, f, leverage)) == f.Signed()
  {
    var legs := TwoLegs(p, f, leverage);
    assert NetOf(legs) == legs[0].fill.Signed() + NetOf(legs[1..]);
    assert NetOf(legs[1..]) == legs[1].fill.Signed() + NetOf(legs[1..][1..]);
  }

  /**
   Slicing is harmless, whatever the slices and their fees, if and only if no slicing can land flat early, or
   what a fill after that meets is of no size and its leverage asks the single fill's margin or one unit less:
   same size, same realized PnL, entry and margin never above and at most one unit per extra slice below.
   */
  lemma SlicingIsHarmlessIff(cache: Cache, chain: Chain, k: Key, f: Fill, leverage: u64)
    requires k in cache ==> cache[k].signedSize != 0
    ensures (forall legs | Slicing(legs, f, leverage) :: Harmless(cache, chain, k, legs, f, leverage))
      <==> SlicesSafely(Loaded(Read(cache, chain, k), leverage), Reopened(chain, k, leverage), f)
  {
    hide Slicing, Harmless, SlicesSafely, Read, Reopened;
    if SlicesSafely(Loaded(Read(cache, chain, k), leverage), Reopened(chain, k, leverage), f) {
      forall legs | Slicing(legs, f, leverage) ensures Harmless(cache, chain, k, legs, f, leverage) {
        SafeSlicing(cache, chain, k, legs, f, leverage);
      }
    } else {
      UnsafeSlicing(cache, chain, k, f, leverage);
    }
  }

  // ---- Take-profit and stop-loss thresholds ----

  predicate EndsWithoutStops(cache: Cache, k: Key) {
    k in cache ==> NoStops(cache[k])
  }

  /**
   `rest` is still to be traded and `reopened` waits on the chain: either no thresholds can come back, or every way
   of coming back is closed exactly or flipped.
   */
  predicate Tidy(p: Position, reopened: Position, isBuy: bool, rest: nat) {
    if NoStops(reopened) then NoStops(p) || (Opposes(p.signedSize, isBuy) && rest > Abs(p.signedSize))
    else
      && Opposes(reopened.signedSize, isBuy)
      && (|| (NoStops(p) && !Opposes(p.signedSize, isBuy))
          || (&& Opposes(p.signedSize, isBuy) && rest >= Abs(p.signedSize)
              && (rest - Abs(p.signedSize)) % Abs(reopened.signedSize) == 0))
  }

  lemma MultipleIsAtLeast(n: nat, d: nat)
    requires d > 0 && n > 0 && n % d == 0
    ensures n >= d && (n - d) % d == 0
  {
    DivBounds(n, d);
    assert n == (n / d) * d;
    if n < d {
      QuotientIs(n, d, 0);
    } else {
      assert n - d == (n / d - 1) * d + 0;
      QuotientIs(n - d, d, n / d - 1);
    }
  }

  lemma TidyAfterLeg(p: Position, leg: Leg, reopened: Position, rest: nat)
    requires Tidy(p, reopened, leg.fill.isBuy, rest) && leg.fill.qty <= rest
    ensures var q, left := WithLeg(p, leg), rest - leg.fill.qty;
      if q.signedSize == 0 then left > 0 ==> Tidy(reopened, reopened, leg.fill.isBuy, left)
      else Tidy(q, reopened, leg.fill.isBuy, left) && (left == 0 ==> NoStops(q))
  {
    hide Applied;
    StopsAfter(p, leg.fill);
    var q, left := WithLeg(p, leg), rest - leg.fill.qty;
    if q.signedSize == 0 && left > 0 && !NoStops(reopened) {
      MultipleIsAtLeast(left, Abs(reopened.signedSize));
    }
  }

  lemma {:induction false} TidySweep(cache: Cache, chain: Chain, k: Key, legs: seq<Leg>, f: Fill, leverage: u64)
    requires Slicing(legs, f, leverage)
    requires Tidy(Loaded(Read(cache, chain, k), leverage), Reopened(chain, k, leverage), f.isBuy, f.qty)
    ensures EndsWithoutStops(Sweep(cache, chain, k, legs).cache, k)
    decreases |legs|
  {
    hide Tidy, Applied, ChainAt, FromChain;
    var p, leg, first := Loaded(Read(cache, chain, k), leverage), legs[0], LoadAndFold(cache, chain, k, legs[0]);
    var q := WithLeg(p, leg);
    TradedOf(legs);
    TidyAfterLeg(p, leg, Reopened(chain, k, leverage), f.qty);
    if |legs| == 1 {
      assert legs[1..] == [];
    } else {
      var g := f.(qty := f.qty - leg.fill.qty);
      assert Slicing(legs[1..], g, leverage);
      TidySweep(first.cache, chain, k, legs[1..], g, leverage);
    }
  }

  /** Slices of the chain position's own size, each landing flat on it again, and a last smaller one. */
  function Chunks(f: Fill, leverage: u64, size: nat, rest: nat): seq<Leg>
    requires size > 0 && 0 < rest <= f.qty && rest % size != 0
    decreases rest
  {
    if rest < size then [Leg(f.(qty := rest), leverage, 0)]
    else
      ChunkLeft(size, rest);
      [Leg(f.(qty := size), leverage, 0)] + Chunks(f, leverage, size, rest - size)
  }

  lemma ChunkLeft(size: nat, rest: nat)
    requires size > 0 && rest % size != 0 && rest >= size
    ensures rest > size && (rest - size) % size != 0
  {
    if rest == size || (rest - size) % size == 0 {
      DivBounds(rest - size, size);
      assert rest == ((rest - size) / size + 1) * size;
      QuotientIs(rest, size, (rest - size) / size + 1);
    }
  }

  lemma {:induction false} ChunksKeepStops(cache: Cache, chain: Chain, k: Key, f: Fill, leverage: u64, rest: nat)
    requires var c := Reopened(chain, k, leverage);
      && k !in cache && Opposes(c.signedSize, f.isBuy) && !NoStops(c)
      && 0 < rest <= f.qty && rest % Abs(c.signedSize) != 0
    ensures var legs := Chunks(f, leverage, Abs(Reopened(chain, k, leverage).signedSize), rest);
      Slicing(legs, f.(qty := rest), leverage) && !EndsWithoutStops(Sweep(cache, chain, k, legs).cache, k)
    decreases rest
  {
    hide Applied, ChainAt, FromChain;
    var c := Reopened(chain, k, leverage);
    var size := Abs(c.signedSize);
    var legs := Chunks(f, leverage, size, rest);
    StopsAfter(c, legs[0].fill);
    TradedOf(legs);
    if rest < size {
      assert legs[1..] == [];
      var after := LoadAndFold(cache, chain, k, legs[0]).cache;
      assert Sweep(after, chain, k, []).cache == after;
    } else {
      ChunkLeft(size, rest);
      assert legs[1..] == Chunks(f, leverage, size, rest - size);
      ChunksKeepStops(LoadAndFold(cache, chain, k, legs[0]).cache, chain, k, f, leverage, rest - size);
    }
  }

  /** The slicing that ends on the chain position's thresholds. */
  lemma UntidySlicing(cache: Cache, chain: Chain, k: Key, f: Fill, leverage: u64)
    requires var p, c := Loaded(Read(cache, chain, k), leverage), Reopened(chain, k, leverage);
      var o := OpeningQty(p.signedSize, f.isBuy, f.qty);
      && Opposes(p.signedSize, f.isBuy) && o > 0 && !NoStops(c)
      && (Opposes(c.signedSize, f.isBuy) ==> o % Abs(c.signedSize) != 0)
    ensures exists legs :: Slicing(legs, f, leverage) && !EndsWithoutStops(Sweep(cache, chain, k, legs).cache, k)
  {
    hide Applied, ChainAt, FromChain, Sweep, NoStops, EndsWithoutStops;
    var p, c := Loaded(Read(cache, chain, k), leverage), Reopened(chain, k, leverage);
    var held, o := Abs(p.signedSize), OpeningQty(p.signedSize, f.isBuy, f.qty);
    var close := Leg(f.(qty := held), leverage, 0);
    var after := LoadAndFold(cache, chain, k, close).cache;
    var rest := if Opposes(c.signedSize, f.isBuy) then Chunks(f, leverage, Abs(c.signedSize), o)
                else Whole(f.(qty := o), leverage);
    if Opposes(c.signedSize, f.isBuy) {
      ChunksKeepStops(after, chain, k, f, leverage, o);
    } else {
      WholeIsSlicing(f.(qty := o), leverage);
      OpensOntoStops(after, chain, k, f.(qty := o), leverage);
    }
    var legs := [close] + rest;
    assert legs[1..] == rest;
    TradedOf(legs);
    SweepFirst(cache, chain, k, legs);
    assert Slicing(legs, f, leverage);
  }

  lemma OpensOntoStops(cache: Cache, chain: Chain, k: Key, f: Fill, leverage: u64)
    requires var c := Reopened(chain, k, leverage); k !in cache && !Opposes(c.signedSize, f.isBuy) && !NoStops(c)
    ensures !EndsWithoutStops(Sweep(cache, chain, k, Whole(f, leverage)).cache, k)
  {
    hide Applied, ChainAt, FromChain;
    var legs := Whole(f, leverage);
    StopsAfter(Reopened(chain, k, leverage), f);
    assert legs[1..] == [];
    var after := LoadAndFold(cache, chain, k, legs[0]).cache;
    assert Sweep(after, chain, k, []).cache == after;
  }

  /**
   A fill through zero takes the old thresholds down. Slices of it do the same, however the quantity is sliced, if
   and only if the chain holds no thresholds for the key, or its position opposes the fill and divides what opens.
   The program itself never seals a threshold (Thresholds), so the failing half needs another writer's parameters.
   */
  lemma SlicingKeepsStopsCleared(cache: Cache, chain: Chain, k: Key, f: Fill, leverage: u64)
    requires var s := Loaded(Read(cache, chain, k), leverage).signedSize;
      Opposes(s, f.isBuy) && OpeningQty(s, f.isBuy, f.qty) > 0
    ensures EndsWithoutStops(Sweep(cache, chain, k, Whole(f, leverage)).cache, k)
    ensures var p, c := Loaded(Read(cache, chain, k), leverage), Reopened(chain, k, leverage);
      (forall legs | Slicing(legs, f, leverage) :: EndsWithoutStops(Sweep(cache, chain, k, legs).cache, k))
      <==> || NoStops(c)
           || (Opposes(c.signedSize, f.isBuy) && OpeningQty(p.signedSize, f.isBuy, f.qty) % Abs(c.signedSize) == 0)
  {
    hide Slicing, Sweep, EndsWithoutStops, NoStops, Read, Reopened;
    var p, c := Loaded(Read(cache, chain, k), leverage), Reopened(chain, k, leverage);
    var o := OpeningQty(p.signedSize, f.isBuy, f.qty);
    WholeClears(cache, chain, k, f, leverage);
    if NoStops(c) || (Opposes(c.signedSize, f.isBuy) && o % Abs(c.signedSize) == 0) {
      forall legs | Slicing(legs, f, leverage) ensures EndsWithoutStops(Sweep(cache, chain, k, legs).cache, k) {
        TidySweep(cache, chain, k, legs, f, leverage);
      }
    } else {
      UntidySlicing(cache, chain, k, f, leverage);
    }
  }

  lemma WholeClears(cache: Cache, chain: Chain, k: Key, f: Fill, leverage: u64)
    requires var s := Loaded(Read(cache, chain, k), leverage).signedSize;
      Opposes(s, f.isBuy) && OpeningQty(s, f.isBuy, f.qty) > 0
    ensures EndsWithoutStops(Sweep(cache, chain, k, Whole(f, leverage)).cache, k)
  {
    hide Applied, Read;
    var legs := Whole(f, leverage);
    assert legs[1..] == [];
    StopsAfter(Loaded(Read(cache, chain, k), leverage), f);
  }
}
