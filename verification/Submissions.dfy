/**
 What an order submits to the chain: one leg per maker fill and one for the taker, each with the parameters of the
 position it belongs to.
 */
module Submissions {
  import opened Arithmetic
  import opened PositionFolding
  import opened PositionCaching
  import opened FillSplitting
  import opened Liquidation
  import opened MarketScale
  import opened RealizedPnl
  import opened MatcherState
  import opened ChainAgreement
  import opened Primitives

  /** The sides of a match: the maker trades against the order and pays no fee, the taker with it and pays the fee. */
  lemma SidesOfMatch(o: Order, m: Match)
    ensures var made, taken := MakerLeg(o, m), TakerLeg(o, m);
      && made.fill.Signed() == Directed(!o.isBuy, m.qty) && taken.fill.Signed() == Directed(o.isBuy, m.qty)
      && made.extra == 0 && taken.extra == m.fee
  {}

  // ---- A maker leg seals its maker's position ----

  /** The maker's position before and after a match. */
  function MakerBefore(s: Progress, chain: Chain, owner: Owner): Position {
    Loaded(Read(s.cache, chain, owner.key), MAKER_LEVERAGE)
  }

  /** Where a fill leaves the entry stamps: as they were when it opens nothing, its own where it opens afresh. */
  lemma StampedByOpening(p: Position, f: Fill)
    ensures var q, opening := Applied(p, f).position, OpeningQty(p.signedSize, f.isBuy, f.qty);
      && (opening == 0 ==> q.entryPrice == p.entryPrice && q.entryFunding == p.entryFunding)
      && (p.signedSize == 0 || 0 < opening < f.qty ==> q.entryPrice == f.price && q.entryFunding == f.funding)
  {
    hide Applied;
    AppliedEntry(p, f);
  }

  lemma MakerLegIsFold(s: Progress, chain: Chain, configured: bool, o: Order, m: Match)
    requires m.maker.Some?
    ensures var p, legs := MakerBefore(s, chain, m.maker.value), AfterMatch(s, chain, configured, o, m).makerLegs;
      && |legs| == |s.makerLegs| + 1 && legs[..|s.makerLegs|] == s.makerLegs
      && legs[|s.makerLegs|] == LegSettlement(m.maker.value.key, WithLeg(p, MakerLeg(o, m)).collateral - p.collateral,
                                              SealedOf(WithLeg(p, MakerLeg(o, m))))
  {
    hide Applied, Queued, RealizedDeltaToUsd, Read, ParamsOf;
  }

  function SealedOf(p: Position): Option<SealedParams> {
    if p.signedSize == 0 then None else Some(ParamsOf(p))
  }

  lemma FoldReadsBack(p: Position, leg: Leg, collateral: int)
    ensures var sealed := FromChain(ChainPosition(collateral, SealedOf(WithLeg(p, leg))));
      var size, opening := p.signedSize + leg.fill.Signed(), OpeningQty(p.signedSize, leg.fill.isBuy, leg.fill.qty);
      && (sealed == None <==> size == 0)
      && (sealed.Some? ==>
            && sealed.value.signedSize == size && sealed.value.leverage == p.leverage
            && sealed.value.collateral == collateral
            && (opening == 0 ==> sealed.value.entryPrice == p.entryPrice)
            && (p.signedSize == 0 || 0 < opening < leg.fill.qty ==> sealed.value.entryPrice == leg.fill.price))
  {
    hide Applied, ParamsOf, OpeningQty;
    StampedByOpening(p, leg.fill);
    SealRoundTrip(WithLeg(p, leg), collateral);
  }

  /**
   Read back from the chain, a maker leg is the maker's own position after the match: its size before, less what a buy
   took or plus what a sell gave, at its own leverage, and at the fill's tick where it opened; and no position exactly
   when that size is nothing.
   */
  lemma MakerLegSealsItsMaker(s: Progress, chain: Chain, configured: bool, o: Order, m: Match, collateral: int)
    requires m.maker.Some?
    ensures var p, legs := MakerBefore(s, chain, m.maker.value), AfterMatch(s, chain, configured, o, m).makerLegs;
      && |legs| == |s.makerLegs| + 1 && legs[..|s.makerLegs|] == s.makerLegs
      && legs[|s.makerLegs|].key == m.maker.value.key
      && var sealed := FromChain(ChainPosition(collateral, legs[|s.makerLegs|].params));
         var size, opening := p.signedSize + Directed(!o.isBuy, m.qty), OpeningQty(p.signedSize, !o.isBuy, m.qty);
         && (sealed == None <==> size == 0)
         && (sealed.Some? ==>
               && sealed.value.signedSize == size && sealed.value.leverage == p.leverage
               && sealed.value.collateral == collateral
               && (opening == 0 ==> sealed.value.entryPrice == p.entryPrice)
               && (p.signedSize == 0 || 0 < opening < m.qty ==> sealed.value.entryPrice == m.tick))
  {
    hide AfterMatch, MakerBefore, WithLeg, FromChain, SealedOf, OpeningQty;
    MakerLegIsFold(s, chain, configured, o, m);
    FoldReadsBack(MakerBefore(s, chain, m.maker.value), MakerLeg(o, m), collateral);
  }

  // ---- The last leg on a key, and the taker's ----

  function LastAt(legs: seq<LegSettlement>, k: Key): Option<LegSettlement> {
    if legs == [] then None else
    var last := legs[|legs| - 1];
    if last.key == k then Some(last) else LastAt(legs[..|legs| - 1], k)
  }

  lemma ParamsByEntry(a: Cache, b: Cache, k: Key)
    requires Entry(a, k) == Entry(b, k)
    ensures CachedParams(a, k) == CachedParams(b, k)
  {}

  /** Through any matches, the last leg of a key other than the taker's carries what the cache holds for it. */
  lemma {:induction false} LastLegIsCached(s: Progress, chain: Chain, configured: bool, o: Order, ms: seq<Match>,
                                           k: Key)
    requires k != o.key && s.makerLegs == []
    ensures var r := AfterMatches(s, chain, configured, o, ms);
      var last := LastAt(r.makerLegs, k);
      && (last == None <==> LegsAt(o, ms, k) == [])
      && (last.Some? ==> last.value.key == k && last.value.params == CachedParams(r.cache, k))
  {
    hide LoadAndFold, Queued, RealizedDeltaToUsd, CachedParams;
    if ms != [] {
      var n, m := |ms| - 1, ms[|ms| - 1];
      var before := AfterMatches(s, chain, configured, o, ms[..n]);
      LastLegIsCached(s, chain, configured, o, ms[..n], k);
      if m.maker.Some? {
        var owner, r := m.maker.value, AfterMatch(before, chain, configured, o, m);
        var made := LoadAndFold(before.cache, chain, owner.key, MakerLeg(o, m)).cache;
        assert r.makerLegs[..|r.makerLegs| - 1] == before.makerLegs;
        FoldByEntry(before.cache, before.cache, chain, owner.key, MakerLeg(o, m), k);
        FoldByEntry(made, made, chain, o.key, TakerLeg(o, m), k);
        ParamsByEntry(r.cache, made, k);
        if owner.key != k {
          ParamsByEntry(made, before.cache, k);
        }
      } else {
        assert LegsAt(o, ms, k) == LegsAt(o, ms[..n], k) + [];
      }
    }
  }

  /** What is submitted last for a maker is what sweeping that maker's own legs alone leaves. */
  lemma MakerIsSealedLast(s: Progress, chain: Chain, configured: bool, o: Order, ms: seq<Match>, k: Key)
    requires k != o.key && s.makerLegs == []
    ensures var last := LastAt(AfterMatches(s, chain, configured, o, ms).makerLegs, k);
      last.Some? ==> last.value.params == CachedParams(Sweep(s.cache, chain, k, LegsAt(o, ms, k)).cache, k)
  {
    hide AfterMatches, Sweep, LegsAt, CachedParams;
    LastLegIsCached(s, chain, configured, o, ms, k);
    EachKeyIsSweptAlone(s, chain, configured, o, ms, k);
    ParamsByEntry(AfterMatches(s, chain, configured, o, ms).cache, Sweep(s.cache, chain, k, LegsAt(o, ms, k)).cache, k);
  }

  // ---- Submissions are the trades of the step system ----

  predicate OthersOnly(o: Order, ms: seq<Match>) {
    forall i :: 0 <= i < |ms| && ms[i].maker.Some? ==> ms[i].maker.value.key != o.key
  }

  lemma {:induction false} NoMakerDeltas(s: Progress, chain: Chain, configured: bool, o: Order, ms: seq<Match>)
    requires OthersOnly(o, ms) && s.makerLegs == []
    ensures DeltasAt(AfterMatches(s, chain, configured, o, ms).makerLegs, o.key) == 0
  {
    hide LoadAndFold, Queued, RealizedDeltaToUsd, CachedParams;
    if ms != [] {
      var n := |ms| - 1;
      var before := AfterMatches(s, chain, configured, o, ms[..n]);
      NoMakerDeltas(s, chain, configured, o, ms[..n]);
      if ms[n].maker.Some? {
        var r := AfterMatch(before, chain, configured, o, ms[n]);
        assert r.makerLegs[..|r.makerLegs| - 1] == before.makerLegs;
      }
    }
  }

  /** An order against other makers submits, for its taker, the settlement of one trade with all its fills. */
  lemma TakerIsOneTrade(y: System, configured: bool, o: Order, ms: seq<Match>, start: Progress)
    requires OthersOnly(o, ms) && LegsAt(o, ms, o.key) != []
    requires start.cache == y.cache && start.takerDelta == 0 && start.makerLegs == []
    ensures var r := AfterMatches(start, y.chain, configured, o, ms);
      var q := Queue(Step(y, Trade(o.key, LegsAt(o, ms, o.key))), o.key);
      && |q| > 0 && q[|q| - 1].delta == r.takerDelta && q[|q| - 1].params == CachedParams(r.cache, o.key)
  {
    hide AfterMatches, Sweep, LegsAt, CachedParams;
    EachKeyIsSweptAlone(start, y.chain, configured, o, ms, o.key);
    NoMakerDeltas(start, y.chain, configured, o, ms);
    ParamsByEntry(AfterMatches(start, y.chain, configured, o, ms).cache,
                  Sweep(y.cache, y.chain, o.key, LegsAt(o, ms, o.key)).cache, o.key);
  }

  /** And for each maker fill the settlement of one trade with that fill alone. */
  lemma MakerLegIsOneTrade(y: System, configured: bool, o: Order, m: Match, s: Progress)
    requires m.maker.Some? && s.cache == y.cache
    ensures var k, leg := m.maker.value.key, AfterMatch(s, y.chain, configured, o, m).makerLegs[|s.makerLegs|];
      var q := Queue(Step(y, Trade(k, [MakerLeg(o, m)])), k);
      && |q| > 0 && q[|q| - 1].delta == leg.delta && q[|q| - 1].params == leg.params
  {
    hide LoadAndFold, Queued, RealizedDeltaToUsd, CachedParams;
    var legs, k := [MakerLeg(o, m)], m.maker.value.key;
    assert legs[1..] == [];
    var first := LoadAndFold(y.cache, y.chain, k, legs[0]);
    assert Sweep(first.cache, y.chain, k, []) == FoldResult(first.cache, 0, 0);
  }

  // ---- Between strangers ----

  lemma SetsNoThreshold(leverage: u64, f: Fill)
    ensures var q := Applied(Flat(leverage), f).position; q.takeProfit == None && q.stopLoss == None
  {
    hide BlendPrice, BlendFunding, RequiredMargin, Pnl;
  }

  lemma OpensAfresh(leverage: u64, f: Fill)
    ensures var r := Applied(Flat(leverage), f);
      && r.position.entryPrice == f.price && r.position.entryFunding == f.funding
      && r.delta == RequiredMargin(f.price, f.qty, leverage)
  {
    hide Applied, RequiredMargin;
    StampedByOpening(Flat(leverage), f);
    AppliedMoney(Flat(leverage), f);
  }

  lemma FoldedAfresh(cache: Cache, chain: Chain, k: Key, leg: Leg)
    requires Read(cache, chain, k) == None
    ensures var r := LoadAndFold(cache, chain, k, leg);
      && r.delta == RequiredMargin(leg.fill.price, leg.fill.qty, leg.leverage) + leg.extra
      && Entry(r.cache, k) == Some(Position(leg.fill.Signed(), leg.fill.price, leg.fill.funding, r.delta, leg.leverage,
                                            None, None))
  {
    hide Applied, RequiredMargin, Read;
    OpensAfresh(leg.leverage, leg.fill);
    SetsNoThreshold(leg.leverage, leg.fill);
  }

  /** The first match of two traders nobody has seen: what each of them then holds, locks and pays. */
  lemma FirstMatch(o: Order, m: Match, configured: bool)
    requires m.maker.Some? && m.maker.value.key != o.key
    ensures var r := AfterMatch(Progress(map[], map[], 0, []), map[], configured, o, m);
      var locked, paid := RequiredMargin(m.tick, m.qty, 20), RequiredMargin(m.tick, m.qty, o.leverage) + m.fee;
      && Entry(r.cache, m.maker.value.key)
         == Some(Position(Directed(!o.isBuy, m.qty), m.tick, o.funding, locked, 20, None, None))
      && Entry(r.cache, o.key)
         == Some(Position(Directed(o.isBuy, m.qty), m.tick, o.funding, paid, o.leverage, None, None))
      && |r.makerLegs| == 1 && r.makerLegs[0].delta == locked && r.takerDelta == paid
  {
    hide Queued, RealizedDeltaToUsd, RequiredMargin, CachedParams;
    var k, made := m.maker.value.key, LoadAndFold(map[], map[], m.maker.value.key, MakerLeg(o, m));
    SidesOfMatch(o, m);
    FoldedAfresh(map[], map[], k, MakerLeg(o, m));
    assert Read(made.cache, map[], o.key) == None;
    FoldedAfresh(made.cache, map[], o.key, TakerLeg(o, m));
    hide LoadAndFold;
    FoldByEntry(made.cache, made.cache, map[], o.key, TakerLeg(o, m), k);
  }
}
