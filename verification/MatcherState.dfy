/**
 The matcher's shared state and the operations that change it, each proved against the specification
 functions the other modules reason about. Each method runs on its own here; LockProtocol relates that to
 interleaved runs.
 */
module MatcherState {
  import opened Arithmetic
  import opened PositionFolding
  import opened PositionCaching
  import opened Liquidation
  import opened MarketScale
  import opened RealizedPnl
  import opened Nonces
  import LockProtocol
  import opened Primitives

  // ---- One order's fills ----

  datatype Owner = Owner(address: Address, key: Key)

  datatype Order = Order(trader: Address, key: Key, market: string, isBuy: bool, leverage: u64, funding: int)

  /** A fill of the order against a resting maker; an owner the matcher does not know has no address. */
  datatype RawMatch = Match(maker: Option<Owner>, tick: u64, qty: u64, fee: nat)
  type Match = m: RawMatch | m.qty > 0 witness Match(None, 0, 1, 0)

  /** Makers pay no fee. */
  function MakerLeg(o: Order, m: Match): Leg {
    Leg(Fill(!o.isBuy, m.tick, m.qty, o.funding), MAKER_LEVERAGE, 0)
  }

  function TakerLeg(o: Order, m: Match): Leg {
    Leg(Fill(o.isBuy, m.tick, m.qty, o.funding), o.leverage, m.fee)
  }

  /** The cache and queue after some fills, the taker's summed delta and one settlement leg per maker fill. */
  datatype Progress = Progress(cache: Cache, pending: Pending, takerDelta: int, makerLegs: seq<LegSettlement>)

  function AfterMatch(s: Progress, chain: Chain, configured: bool, o: Order, m: Match): Progress {
    match m.maker
    case None => s
    case Some(owner) =>
      var made := LoadAndFold(s.cache, chain, owner.key, MakerLeg(o, m));
      var taken := LoadAndFold(made.cache, chain, o.key, TakerLeg(o, m));
      var queued := Queued(s.pending, configured, owner.address, RealizedDeltaToUsd(made.realized, o.market));
      Progress(taken.cache,
               Queued(queued, configured, o.trader, RealizedDeltaToUsd(taken.realized, o.market)),
               s.takerDelta + taken.delta,
               s.makerLegs + [LegSettlement(owner.key, made.delta, CachedParams(made.cache, owner.key))])
  }

  function AfterMatches(s: Progress, chain: Chain, configured: bool, o: Order, ms: seq<Match>): Progress {
    if ms == [] then s
    else AfterMatch(AfterMatches(s, chain, configured, o, ms[..|ms| - 1]), chain, configured, o, ms[|ms| - 1])
  }

  // ---- Runs of orders ----

  /** An order with its matches, and what the chain held while they were folded. */
  datatype Placed = Placed(order: Order, matches: seq<Match>, chain: Chain)

  /** The shared state after an order; each order settles its own deltas. */
  function AfterPlaced(s: Progress, configured: bool, p: Placed): Progress {
    AfterMatches(Progress(s.cache, s.pending, 0, []), p.chain, configured, p.order, p.matches)
  }

  function AfterOrders(s: Progress, configured: bool, os: seq<Placed>): Progress {
    if os == [] then s else AfterPlaced(AfterOrders(s, configured, os[..|os| - 1]), configured, os[|os| - 1])
  }

  // ---- What the interleaved folds of a sweep do to one key ----

  /** The legs that fall on a key, in order: as a maker, as the taker, or as both. */
  function LegsAt(o: Order, ms: seq<Match>, k: Key): seq<Leg> {
    if ms == [] then [] else
    var m := ms[|ms| - 1];
    LegsAt(o, ms[..|ms| - 1], k)
    + (match m.maker
       case None => []
       case Some(owner) =>
         (if owner.key == k then [MakerLeg(o, m)] else []) + if o.key == k then [TakerLeg(o, m)] else [])
  }

  function DeltasAt(legs: seq<LegSettlement>, k: Key): int {
    if legs == [] then 0 else
    DeltasAt(legs[..|legs| - 1], k) + if legs[|legs| - 1].key == k then legs[|legs| - 1].delta else 0
  }

  /** Everything a sweep's settlement adds to a key's collateral. */
  function SettledAt(s: Progress, o: Order, k: Key): int {
    (if o.key == k then s.takerDelta else 0) + DeltasAt(s.makerLegs, k)
  }

  lemma {:induction false} SweepSnoc(cache: Cache, chain: Chain, k: Key, legs: seq<Leg>, leg: Leg)
    ensures var before := Sweep(cache, chain, k, legs);
      var last := LoadAndFold(before.cache, chain, k, leg);
      Sweep(cache, chain, k, legs + [leg])
      == FoldResult(last.cache, before.delta + last.delta, before.realized + last.realized)
    decreases |legs|
  {
    hide LoadAndFold;
    if legs == [] {
      assert ([] + [leg])[0] == leg && ([] + [leg])[1..] == [];
      var last := LoadAndFold(cache, chain, k, leg);
      assert Sweep(last.cache, chain, k, []) == FoldResult(last.cache, 0, 0);
    } else {
      assert (legs + [leg])[1..] == legs[1..] + [leg];
      SweepSnoc(LoadAndFold(cache, chain, k, legs[0]).cache, chain, k, legs[1..], leg);
    }
  }

  /** A fold depends on the cache only through its own key, and changes no other. */
  lemma FoldByEntry(a: Cache, b: Cache, chain: Chain, k: Key, leg: Leg, other: Key)
    requires Entry(a, k) == Entry(b, k)
    ensures var x, y := LoadAndFold(a, chain, k, leg), LoadAndFold(b, chain, k, leg);
      && Entry(x.cache, k) == Entry(y.cache, k) && x.delta == y.delta && x.realized == y.realized
      && (other != k ==> Entry(x.cache, other) == Entry(a, other))
  {
    hide Applied;
    ReadByEntry(a, b, chain, k);
  }

  /**
   However a sweep interleaves its makers' folds with the taker's, each key ends as if its own legs had been
   swept alone, and the settlement adds exactly that sweep's delta to it.
   */
  lemma {:induction false} EachKeyIsSweptAlone(s: Progress, chain: Chain, configured: bool, o: Order, ms: seq<Match>,
                                               k: Key)
    ensures var r, w := AfterMatches(s, chain, configured, o, ms), Sweep(s.cache, chain, k, LegsAt(o, ms, k));
      && Entry(r.cache, k) == Entry(w.cache, k)
      && SettledAt(r, o, k) == SettledAt(s, o, k) + w.delta
  {
    hide LoadAndFold, Sweep, Queued, RealizedDeltaToUsd, Entry;
    if ms == [] {
      assert LegsAt(o, ms, k) == [];
      SweepNothing(s.cache, chain, k);
    } else {
      var n, m := |ms| - 1, ms[|ms| - 1];
      var before, legs := AfterMatches(s, chain, configured, o, ms[..n]), LegsAt(o, ms[..n], k);
      EachKeyIsSweptAlone(s, chain, configured, o, ms[..n], k);
      if m.maker.Some? {
        StepOfKey(before, chain, configured, o, m, k, Sweep(s.cache, chain, k, legs).cache);
        SweepTail(s.cache, chain, k, legs, o, m);
      } else {
        assert legs + [] == legs;
      }
    }
  }

  lemma SweepNothing(cache: Cache, chain: Chain, k: Key)
    ensures Sweep(cache, chain, k, []) == FoldResult(cache, 0, 0)
  {}

  /** The one or two folds of a match that fall on a key. */
  function OwnFolds(cache: Cache, chain: Chain, o: Order, m: Match, k: Key): (r: (Cache, int))
    requires m.maker.Some?
  {
    var made := if m.maker.value.key == k then LoadAndFold(cache, chain, k, MakerLeg(o, m))
                else FoldResult(cache, 0, 0);
    var taken := if o.key == k then LoadAndFold(made.cache, chain, k, TakerLeg(o, m)) else FoldResult(made.cache, 0, 0);
    (taken.cache, made.delta + taken.delta)
  }

  lemma StepOfKey(s: Progress, chain: Chain, configured: bool, o: Order, m: Match, k: Key, alone: Cache)
    requires m.maker.Some? && Entry(s.cache, k) == Entry(alone, k)
    ensures var r, own := AfterMatch(s, chain, configured, o, m), OwnFolds(alone, chain, o, m, k);
      && Entry(r.cache, k) == Entry(own.0, k)
      && SettledAt(r, o, k) == SettledAt(s, o, k) + own.1
  {
    hide LoadAndFold, Queued, RealizedDeltaToUsd, Entry;
    var owner := m.maker.value;
    var made := LoadAndFold(s.cache, chain, owner.key, MakerLeg(o, m));
    var r := AfterMatch(s, chain, configured, o, m);
    assert r.makerLegs[..|r.makerLegs| - 1] == s.makerLegs;
    FoldByEntry(s.cache, if owner.key == k then alone else s.cache, chain, owner.key, MakerLeg(o, m), k);
    var alone' := if owner.key == k then LoadAndFold(alone, chain, k, MakerLeg(o, m)).cache else alone;
    FoldByEntry(made.cache, if o.key == k then alone' else made.cache, chain, o.key, TakerLeg(o, m), k);
  }

  lemma SweepTail(cache: Cache, chain: Chain, k: Key, legs: seq<Leg>, o: Order, m: Match)
    requires m.maker.Some?
    ensures var own := (if m.maker.value.key == k then [MakerLeg(o, m)] else [])
                       + if o.key == k then [TakerLeg(o, m)] else [];
      var before := Sweep(cache, chain, k, legs);
      var after, folds := Sweep(cache, chain, k, legs + own), OwnFolds(before.cache, chain, o, m, k);
      after.cache == folds.0 && after.delta == before.delta + folds.1
  {
    hide LoadAndFold, Sweep;
    var made := if m.maker.value.key == k then [MakerLeg(o, m)] else [];
    SweepSnoc(cache, chain, k, legs, MakerLeg(o, m));
    SweepSnoc(cache, chain, k, legs + made, TakerLeg(o, m));
    assert made == [] ==> legs + made == legs;
    if o.key == k {
      assert (legs + made) + [TakerLeg(o, m)] == legs + (made + [TakerLeg(o, m)]);
    } else {
      assert made + [] == made;
    }
  }

  // ---- The shared state ----

  /** What reading a key on the chain came back with; a failed call or a failed unsealing is no answer. */
  datatype ChainReply = Failed | Found(position: ChainPosition)

  type Replies = map<Key, ChainReply>

  /** A key without an answer reads like one the chain has never heard of. */
  function View(replies: Replies): Chain {
    map k | k in replies && replies[k].Found? :: replies[k].position
  }

  /** Sizes fit the `u64` that the sealed parameters store them in. */
  predicate SizesFit(hs: seq<Held>) {
    forall i :: 0 <= i < |hs| ==> Abs(hs[i].position.signedSize) < 0x1_0000_0000_0000_0000
  }

  class AppState {
    const settlementConfigured: bool
    var positionCache: Cache
    var pendingRealizedPnl: Pending
    var lastNonce: LastNonces

    constructor (configured: bool)
      ensures settlementConfigured == configured
      ensures positionCache == map[] && pendingRealizedPnl == map[] && lastNonce == map[]
    {
      settlementConfigured := configured;
      positionCache, pendingRealizedPnl, lastNonce := map[], map[], map[];
    }

    method LoadSingleMarketStateCached(replies: Replies, k: Key) returns (existing: Option<Position>)
      ensures existing == Read(positionCache, View(replies), k)
      ensures k !in positionCache && k in replies && replies[k].Failed? ==> existing == None
    {
      if k in positionCache {
        existing := Some(positionCache[k]);
      } else if k in replies && replies[k].Failed? {
        existing := None;
      } else {
        var onChain := if k in replies then replies[k].position else ChainPosition(0, None);
        match onChain.params {
          case None =>
            existing := None;
          case Some(p) =>
            var signedSize := if p.sideIsBuy then p.size else -(p.size as int);
            existing := Some(Position(signedSize, p.entryPrice, p.entryFunding, onChain.collateral,
                                      p.leverage, p.takeProfit, p.stopLoss));
        }
      }
    }

    method LoadAndFoldFill(replies: Replies, k: Key, leg: Leg) returns (delta: int, realized: int)
      modifies this`positionCache
      ensures FoldResult(positionCache, delta, realized) == LoadAndFold(old(positionCache), View(replies), k, leg)
    {
      hide Applied, Read;
      var existing := LoadSingleMarketStateCached(replies, k);
      var fold := new PositionFold.FromExisting(existing, leg.leverage);
      var f := leg.fill;
      var fillDelta: int;
      fillDelta, realized := fold.ApplyFill(f.isBuy, f.price, f.qty, f.funding);
      delta := fillDelta + leg.extra;
      fold.collateral := fold.collateral + leg.extra;
      if fold.signedSize == 0 {
        positionCache := positionCache - {k};
      } else {
        positionCache := positionCache[k := Position(
          fold.signedSize, fold.entryPrice, fold.entryFunding, fold.collateral,
          fold.leverage, fold.takeProfit, fold.stopLoss)];
      }
    }

    method InvalidatePosition(k: Key)
      modifies this`positionCache
      ensures positionCache == old(positionCache) - {k}
    {
      positionCache := positionCache - {k};
    }

    method CachedSealedParams(k: Key) returns (params: Option<SealedParams>)
      ensures params == CachedParams(positionCache, k)
    {
      if k in positionCache {
        var p := positionCache[k];
        params := Some(SealedParams(p.signedSize > 0, p.entryPrice, Abs(p.signedSize), p.leverage,
                                    p.takeProfit, p.stopLoss, p.entryFunding));
      } else {
        params := None;
      }
    }

    method QueueRealizedPnl(trader: Address, delta: int)
      modifies this`pendingRealizedPnl
      ensures pendingRealizedPnl == Queued(old(pendingRealizedPnl), settlementConfigured, trader, delta)
    {
      if delta == 0 || trader == BACKSTOP {
        return;
      }
      if !settlementConfigured {
        return;
      }
      if trader !in pendingRealizedPnl {
        pendingRealizedPnl := pendingRealizedPnl[trader := 0];
      }
      pendingRealizedPnl := pendingRealizedPnl[trader := pendingRealizedPnl[trader] + delta];
    }

    /** Map iteration order is unspecified, and so is the order of the batch. */
    method DrainRealizedPnl() returns (batch: seq<PendingEntry>)
      modifies this`pendingRealizedPnl
      ensures pendingRealizedPnl == map[]
      ensures Drains(batch, old(pendingRealizedPnl))
    {
      hide Drains;
      ghost var start := pendingRealizedPnl;
      batch := [];
      DrainsNothing(start);
      while pendingRealizedPnl != map[]
        invariant Drains(batch, start - pendingRealizedPnl.Keys)
        invariant forall t :: t in pendingRealizedPnl ==> t in start && pendingRealizedPnl[t] == start[t]
        decreases |pendingRealizedPnl|
      {
        var trader :| trader in pendingRealizedPnl;
        DrainsOneMore(batch, start, pendingRealizedPnl, trader);
        batch := batch + [PendingEntry(trader, pendingRealizedPnl[trader])];
        pendingRealizedPnl := pendingRealizedPnl - {trader};
      }
      assert start - pendingRealizedPnl.Keys == start;
    }

    /** The replay guard of every authenticated endpoint. */
    method CheckNonce(r: Request) returns (accepted: bool)
      modifies this`lastNonce
      ensures accepted == Accepts(old(lastNonce), r)
      ensures lastNonce == Noted(old(lastNonce), r)
    {
      if r.signer in lastNonce {
        if r.nonce <= lastNonce[r.signer] {
          return false;
        }
      }
      lastNonce := lastNonce[r.signer := r.nonce];
      return true;
    }

    /** The fill loop of an order: each match folds the maker's side first, then the taker's. */
    method SettleMatches(replies: Replies, o: Order, ms: seq<Match>)
      returns (takerDelta: int, takerParams: Option<SealedParams>, makerLegs: seq<LegSettlement>)
      modifies this`positionCache, this`pendingRealizedPnl
      ensures Progress(positionCache, pendingRealizedPnl, takerDelta, makerLegs)
           == AfterMatches(Progress(old(positionCache), old(pendingRealizedPnl), 0, []), View(replies),
                           settlementConfigured, o, ms)
      ensures takerParams == CachedParams(positionCache, o.key)
    {
      hide LoadAndFold, Queued, RealizedDeltaToUsd, CachedParams;
      takerDelta, makerLegs := 0, [];
      ghost var start := Progress(positionCache, pendingRealizedPnl, 0, []);
      var i := 0;
      while i < |ms|
        invariant 0 <= i <= |ms|
        invariant Progress(positionCache, pendingRealizedPnl, takerDelta, makerLegs)
               == AfterMatches(start, View(replies), settlementConfigured, o, ms[..i])
      {
        var m := ms[i];
        assert ms[..i + 1][..i] == ms[..i];
        i := i + 1;
        if m.maker == None {
          continue;
        }
        var owner := m.maker.value;
        var made, madeRealized := LoadAndFoldFill(replies, owner.key, MakerLeg(o, m));
        QueueRealizedPnl(owner.address, RealizedDeltaToUsd(madeRealized, o.market));
        var params := CachedSealedParams(owner.key);
        var taken, takenRealized := LoadAndFoldFill(replies, o.key, TakerLeg(o, m));
        takerDelta := takerDelta + taken;
        QueueRealizedPnl(o.trader, RealizedDeltaToUsd(takenRealized, o.market));
        makerLegs := makerLegs + [LegSettlement(owner.key, made, params)];
      }
      assert ms[..i] == ms;
      takerParams := CachedSealedParams(o.key);
    }

    /** Sizes, closes and caches every leg of a breached portfolio. */
    method SizeLiquidationLegs(hs: seq<Held>, requirement: nat, collateral: nat, marks: Marks)
      returns (legs: seq<LegSettlement>, closeBps: nat)
      requires SizesFit(hs)
      modifies this`positionCache
      ensures closeBps == CloseBps(requirement, collateral)
      ensures legs == SizedLegs(hs, closeBps, marks)
      ensures positionCache == CacheAfterLegs(old(positionCache), hs, closeBps, marks)
    {
      hide RealizedCloseDelta, Pnl, CloseSize, MinimumBps;
      closeBps := FractionToClose(requirement, collateral);
      legs := [];
      ghost var start := positionCache;
      var i := 0;
      while i < |hs|
        invariant 0 <= i <= |hs|
        invariant legs == SizedLegs(hs[..i], closeBps, marks)
        invariant positionCache == CacheAfterLegs(start, hs[..i], closeBps, marks)
      {
        assert hs[..i + 1][..i] == hs[..i];
        var leg := SizeOneLeg(hs[i], closeBps, marks);
        legs := legs + [leg];
        i := i + 1;
      }
      assert hs[..i] == hs;
    }

    /** The positions behind the keys, cache first; keys without one are skipped. */
    method HeldPositions(replies: Replies, keys: seq<Key>) returns (held: seq<Held>)
      ensures held == LockProtocol.HeldOf(keys, LockProtocol.ReadAll(positionCache, View(replies), keys))
    {
      hide Read;
      ghost var seen := LockProtocol.ReadAll(positionCache, View(replies), keys);
      held := [];
      var i := 0;
      while i < |keys|
        invariant 0 <= i <= |keys|
        invariant held == LockProtocol.HeldOf(keys[..i], seen[..i])
      {
        var existing := LoadSingleMarketStateCached(replies, keys[i]);
        LockProtocol.HeldOfLast(keys[..i + 1], seen[..i + 1]);
        assert keys[..i + 1][..i] == keys[..i] && seen[..i + 1][..i] == seen[..i];
        match existing {
          case None =>
          case Some(p) => held := held + [Held(keys[i], p)];
        }
        i := i + 1;
      }
      assert keys[..i] == keys && seen[..i] == seen;
    }

    /**
     With every key locked: re-reads them all, checks the margin and sizes the legs only of a breached portfolio.
     `landed` says which of the broadcasts went through; if one did not, every key is forgotten.
     */
    method Liquidate(replies: Replies, keys: seq<Key>, marks: Marks, landed: seq<bool>)
      returns (executed: bool, legs: seq<LegSettlement>)
      requires SizesFit(LockProtocol.HeldOf(keys, LockProtocol.ReadAll(positionCache, View(replies), keys)))
      modifies this`positionCache
      ensures var seen := LockProtocol.ReadAll(old(positionCache), View(replies), keys);
        var held := LockProtocol.HeldOf(keys, seen);
        var requirement, collateral := Requirement(held, marks), EffectiveCollateral(held);
        && executed == (requirement > collateral && true in landed)
        && legs == (if requirement > collateral then SizedLegs(held, CloseBps(requirement, collateral), marks) else [])
        && positionCache == LockProtocol.WriteAll(old(positionCache), keys,
                              LockProtocol.Effect(LockProtocol.LiquidateJob(keys, marks, false !in landed),
                                                  seen).writes)
    {
      hide Requirement, EffectiveCollateral, CloseBps, SizedLegs, CacheAfterLegs, SizesFit;
      hide LockProtocol.WriteAll, LockProtocol.Effect, LockProtocol.HeldOf, LockProtocol.ReadAll;
      ghost var start, seen := positionCache, LockProtocol.ReadAll(positionCache, View(replies), keys);
      LockProtocol.LiquidateJobIsSizing(positionCache, View(replies), keys, marks, false !in landed);
      executed, legs := false, [];
      var held := HeldPositions(replies, keys);
      var requirement, collateral := Requirement(held, marks), EffectiveCollateral(held);
      if requirement <= collateral {
        return;
      }
      var closeBps;
      legs, closeBps := SizeLiquidationLegs(held, requirement, collateral, marks);
      if false in landed {
        LockProtocol.HeldAreAmongKeys(keys, seen);
        LockProtocol.SizingStaysWithinKeys(start, held, closeBps, marks, LockProtocol.KeySet(keys));
        InvalidateAll(keys);
      }
      executed := true in landed;
    }

    method InvalidateAll(keys: seq<Key>)
      modifies this`positionCache
      ensures positionCache == old(positionCache) - LockProtocol.KeySet(keys)
    {
      var i := 0;
      while i < |keys|
        invariant 0 <= i <= |keys|
        invariant positionCache == old(positionCache) - LockProtocol.KeySet(keys[..i])
      {
        InvalidatePosition(keys[i]);
        LockProtocol.KeySetGrows(keys[..i], keys[i]);
        assert keys[..i + 1] == keys[..i] + [keys[i]];
        i := i + 1;
      }
      assert keys[..i] == keys;
    }

    method FractionToClose(requirement: nat, collateral: nat) returns (closeBps: nat)
      ensures closeBps == CloseBps(requirement, collateral)
    {
      var deficit: nat := if requirement >= collateral then requirement - collateral else 0;
      var least: nat := 10_000;
      if requirement != 0 {
        least := (deficit * 10_000) / requirement;
        if (deficit * 10_000) % requirement != 0 {
          least := least + 1;
        }
      }
      closeBps := Min(least + SAFETY_BUFFER_BPS, 10_000);
    }

    method SizeOneLeg(h: Held, closeBps: nat, marks: Marks) returns (leg: LegSettlement)
      requires Abs(h.position.signedSize) < 0x1_0000_0000_0000_0000
      modifies this`positionCache
      ensures leg == SizedLeg(h, closeBps, marks)
      ensures positionCache == Put(old(positionCache), h.key, LegAfter(h, closeBps, marks))
    {
      var p, size := h.position, Abs(h.position.signedSize);
      var tick, funding := marks.Price(h), marks.Funding(h);
      if closeBps >= 10_000 || size == 0 {
        var delta := RealizedCloseDelta(p.signedSize, p.entryPrice, p.entryFunding, size, tick, funding);
        positionCache := positionCache - {h.key};
        return LegSettlement(h.key, delta, None);
      }
      var closeSize := size * closeBps / 10_000;
      PartIsBelow(size, closeBps);
      var remaining := size - closeSize;
      if closeSize == 0 || remaining == 0 {
        var delta := RealizedCloseDelta(p.signedSize, p.entryPrice, p.entryFunding, size, tick, funding);
        positionCache := positionCache - {h.key};
        return LegSettlement(h.key, delta, None);
      }
      var delta := RealizedCloseDelta(p.signedSize, p.entryPrice, p.entryFunding, closeSize, tick, funding);
      var signedRemaining := Directed(p.signedSize >= 0, remaining);
      var params := SealedParams(p.signedSize > 0, p.entryPrice, remaining, p.leverage, p.takeProfit, p.stopLoss,
                                 p.entryFunding);
      positionCache := positionCache[h.key := Position(signedRemaining, p.entryPrice, p.entryFunding,
                                                       p.collateral + delta,
                                                       p.leverage, p.takeProfit, p.stopLoss)];
      return LegSettlement(h.key, delta, Some(params));
    }
  }

  lemma DrainsNothing(start: Pending)
    ensures Drains([], start - start.Keys)
  {}

  lemma DrainsOneMore(batch: seq<PendingEntry>, start: Pending, rest: Pending, t: Address)
    requires Drains(batch, start - rest.Keys) && t in rest && t in start && rest[t] == start[t]
    ensures |rest - {t}| < |rest|
    ensures Drains(batch + [PendingEntry(t, rest[t])], start - (rest - {t}).Keys)
  {
    var more, drained := batch + [PendingEntry(t, rest[t])], start - (rest - {t}).Keys;
    assert rest.Keys == (rest - {t}).Keys + {t};
    forall u | u in drained ensures exists i :: 0 <= i < |more| && more[i].trader == u {
      if u == t {
        assert more[|batch|].trader == u;
      } else {
        assert u in start - rest.Keys;
        var i :| 0 <= i < |batch| && batch[i].trader == u;
        assert more[i].trader == u;
      }
    }
  }

  lemma PartIsBelow(size: nat, closeBps: nat)
    requires closeBps < 10_000
    ensures 0 <= size * closeBps / 10_000 <= size
  {
    MulLe(closeBps, 10_000, size);
    DivMonotone(size * closeBps, size * 10_000, 10_000);
    QuotientIs(size * 10_000, 10_000, size);
  }
}
