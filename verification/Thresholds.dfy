/**
 Take-profit and stop-loss thresholds. No order, fill or liquidation ever sets one: a matcher that starts with
 none in its cache and reads none from the chain never caches or seals any.
 */
module Thresholds {
  import opened PositionFolding
  import opened PositionCaching
  import opened FillSplitting
  import opened Liquidation
  import opened MatcherState
  import opened ChainAgreement
  import SweepSlicing
  import opened Primitives

  predicate CleanParams(params: Option<SealedParams>) {
    params.Some? ==> params.value.takeProfit == None && params.value.stopLoss == None
  }

  ghost predicate CleanCache(cache: Cache) {
    forall k :: k in cache ==> NoStops(cache[k])
  }

  ghost predicate CleanChain(chain: Chain) {
    forall k :: CleanParams(ChainAt(chain, k).params)
  }

  lemma CleanRead(cache: Cache, chain: Chain, k: Key, leverage: u64)
    requires CleanCache(cache) && CleanChain(chain)
    ensures NoStops(Loaded(Read(cache, chain, k), leverage)) && NoStops(Reopened(chain, k, leverage))
  {
    assert CleanParams(ChainAt(chain, k).params);
  }

  lemma FoldStaysClean(cache: Cache, chain: Chain, k: Key, leg: Leg)
    requires CleanCache(cache) && CleanChain(chain)
    ensures CleanCache(LoadAndFold(cache, chain, k, leg).cache)
  {
    hide Applied, Read;
    CleanRead(cache, chain, k, leg.leverage);
    StopsAfter(Loaded(Read(cache, chain, k), leg.leverage), leg.fill);
  }

  lemma {:induction false} SweepStaysClean(cache: Cache, chain: Chain, k: Key, legs: seq<Leg>)
    requires CleanCache(cache) && CleanChain(chain)
    ensures CleanCache(Sweep(cache, chain, k, legs).cache)
    ensures SweepSlicing.EndsWithoutStops(Sweep(cache, chain, k, legs).cache, k)
    decreases |legs|
  {
    hide LoadAndFold;
    if legs != [] {
      FoldStaysClean(cache, chain, k, legs[0]);
      SweepStaysClean(LoadAndFold(cache, chain, k, legs[0]).cache, chain, k, legs[1..]);
    }
  }

  /** Whatever an order's fills do to makers and taker. */
  lemma MatchesStayClean(s: Progress, chain: Chain, configured: bool, o: Order, ms: seq<Match>)
    requires CleanCache(s.cache) && CleanChain(chain)
    ensures CleanCache(AfterMatches(s, chain, configured, o, ms).cache)
  {
    hide AfterMatches, Sweep, CleanCache;
    var r := AfterMatches(s, chain, configured, o, ms);
    forall k | k in r.cache ensures NoStops(r.cache[k]) {
      EachKeyIsSweptAlone(s, chain, configured, o, ms, k);
      SweepStaysClean(s.cache, chain, k, LegsAt(o, ms, k));
    }
    CleanByKey(r.cache);
  }

  lemma CleanByKey(cache: Cache)
    requires forall k :: k in cache ==> NoStops(cache[k])
    ensures CleanCache(cache)
  {}

  ghost predicate CleanHeld(hs: seq<Held>) {
    forall i :: 0 <= i < |hs| ==> NoStops(hs[i].position)
  }

  /** A liquidation of positions without thresholds caches and seals none. */
  lemma {:induction false} LiquidationStaysClean(cache: Cache, hs: seq<Held>, closeBps: nat, marks: Marks)
    requires CleanCache(cache) && CleanHeld(hs)
    ensures CleanCache(CacheAfterLegs(cache, hs, closeBps, marks))
    ensures forall leg :: leg in SizedLegs(hs, closeBps, marks) ==> CleanParams(leg.params)
  {
    hide CloseSize, Pnl;
    if hs != [] {
      LiquidationStaysClean(cache, hs[..|hs| - 1], closeBps, marks);
    }
  }

  // ---- Every run of the whole system ----

  ghost predicate CleanQueue(q: seq<Settlement>) {
    forall i :: 0 <= i < |q| ==> CleanParams(q[i].params)
  }

  ghost predicate CleanSystem(s: System) {
    CleanCache(s.cache) && CleanChain(s.chain) && forall k :: CleanQueue(Queue(s, k))
  }

  predicate EnabledRun(s: System, events: seq<Event>)
    decreases |events|
  {
    events != [] ==> Enabled(s, events[0]) && EnabledRun(Step(s, events[0]), events[1..])
  }

  function AfterAny(s: System, events: seq<Event>): System
    requires EnabledRun(s, events)
    decreases |events|
  {
    if events == [] then s else AfterAny(Step(s, events[0]), events[1..])
  }

  lemma CleanTrade(s: System, e: Event)
    requires CleanSystem(s) && Enabled(s, e) && e.Trade?
    ensures CleanSystem(Step(s, e))
  {
    hide Sweep, CleanChain, NetOf;
    SweepStaysClean(s.cache, s.chain, e.key, e.legs);
    var r := Step(s, e);
    forall k ensures CleanQueue(Queue(r, k)) {
      assert CleanQueue(Queue(s, k));
    }
  }

  lemma CleanSettle(s: System, e: Event)
    requires CleanSystem(s) && Enabled(s, e) && !e.Trade?
    ensures CleanSystem(Step(s, e))
  {
    var r, q := Step(s, e), Queue(s, e.key);
    assert CleanQueue(q);
    forall k ensures CleanQueue(Queue(r, k)) {
      assert CleanQueue(Queue(s, k));
    }
    forall k ensures CleanParams(ChainAt(r.chain, k).params) {
      assert CleanParams(ChainAt(s.chain, k).params);
    }
  }

  /**
   On every run, disciplined or not, that starts without thresholds, none is ever cached, in flight or on the chain. So
   however a fill is sliced, the position it leaves has none.
   */
  lemma {:induction false} NoThresholdEver(s: System, events: seq<Event>)
    requires CleanSystem(s) && EnabledRun(s, events)
    ensures CleanSystem(AfterAny(s, events))
    decreases |events|
  {
    hide CleanSystem, Step;
    if events != [] {
      if events[0].Trade? {
        CleanTrade(s, events[0]);
      } else {
        CleanSettle(s, events[0]);
      }
      NoThresholdEver(Step(s, events[0]), events[1..]);
    }
  }
}
