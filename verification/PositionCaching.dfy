/**
 The write-through cache of positions in front of a slow chain: reading cache-first, folding one fill
 and writing the result back, and what a sweep of such folds on one key adds up to.
 */
module PositionCaching {
  import opened Arithmetic
  import opened PositionFolding
  import opened Primitives

  /** A (portfolio, market) pair, numbered in the order the program sorts them. */
  type Key = nat

  datatype SealedParams = SealedParams(
    sideIsBuy: bool, entryPrice: u64, size: nat, leverage: u64,
    takeProfit: Option<u64>, stopLoss: Option<u64>, entryFunding: int)

  /** What the settlement contract stores for a key: running collateral and the last sealed parameters. */
  datatype ChainPosition = ChainPosition(collateral: int, params: Option<SealedParams>)

  type Cache = map<Key, Position>
  type Chain = map<Key, ChainPosition>

  function ParamsOf(p: Position): SealedParams {
    SealedParams(p.signedSize > 0, p.entryPrice, Abs(p.signedSize), p.leverage,
                 p.takeProfit, p.stopLoss, p.entryFunding)
  }

  function ChainAt(chain: Chain, k: Key): ChainPosition {
    if k in chain then chain[k] else ChainPosition(0, None)
  }

  /** Empty parameters read as "no position", whatever collateral is left beside them. */
  function FromChain(c: ChainPosition): Option<Position> {
    match c.params
    case None => None
    case Some(s) => Some(Position(Directed(s.sideIsBuy, s.size), s.entryPrice, s.entryFunding, c.collateral,
                                  s.leverage, s.takeProfit, s.stopLoss))
  }

  function Read(cache: Cache, chain: Chain, k: Key): Option<Position> {
    if k in cache then Some(cache[k]) else FromChain(ChainAt(chain, k))
  }

  /** What the cache itself holds for a key. */
  function Entry(cache: Cache, k: Key): Option<Position> {
    if k in cache then Some(cache[k]) else None
  }

  lemma ReadByEntry(a: Cache, b: Cache, chain: Chain, k: Key)
    requires Entry(a, k) == Entry(b, k)
    ensures Read(a, chain, k) == Read(b, chain, k)
  {}

  /** A flat result evicts the key, anything else is stored. */
  function Put(cache: Cache, k: Key, p: Position): Cache {
    if p.signedSize == 0 then cache - {k} else cache[k := p]
  }

  function CachedParams(cache: Cache, k: Key): Option<SealedParams> {
    if k in cache then Some(ParamsOf(cache[k])) else None
  }

  /** Sealing a position and reading it back from the chain loses nothing but the collateral's own record. */
  lemma SealRoundTrip(p: Position, collateral: int)
    ensures FromChain(ChainPosition(collateral, Some(ParamsOf(p)))) == Some(p.(collateral := collateral))
  {
    assert Directed(p.signedSize > 0, Abs(p.signedSize)) == p.signedSize;
  }

  // ---- One fold, and a sweep of them ----

  /** A fill with the leverage a fresh position would open at and an extra collateral charge (the taker's fee). */
  datatype Leg = Leg(fill: Fill, leverage: u64, extra: int)

  datatype FoldResult = FoldResult(cache: Cache, delta: int, realized: int)

  function WithLeg(p: Position, leg: Leg): Position {
    var o := Applied(p, leg.fill);
    o.position.(collateral := o.position.collateral + leg.extra)
  }

  function LoadAndFold(cache: Cache, chain: Chain, k: Key, leg: Leg): FoldResult {
    var p := Loaded(Read(cache, chain, k), leg.leverage);
    var o := Applied(p, leg.fill);
    FoldResult(Put(cache, k, WithLeg(p, leg)), o.delta + leg.extra, o.realized)
  }

  function Sweep(cache: Cache, chain: Chain, k: Key, legs: seq<Leg>): FoldResult
    decreases |legs|
  {
    if legs == [] then FoldResult(cache, 0, 0) else
    var first := LoadAndFold(cache, chain, k, legs[0]);
    var rest := Sweep(first.cache, chain, k, legs[1..]);
    FoldResult(rest.cache, first.delta + rest.delta, first.realized + rest.realized)
  }

  /** The same legs folded into a position held in memory throughout. */
  function Folded(p: Position, legs: seq<Leg>): Position
    decreases |legs|
  {
    if legs == [] then p else Folded(WithLeg(p, legs[0]), legs[1..])
  }

  function NetOf(legs: seq<Leg>): int {
    if legs == [] then 0 else legs[0].fill.Signed() + NetOf(legs[1..])
  }

  function Traded(legs: seq<Leg>): nat {
    if legs == [] then 0 else legs[0].fill.qty + Traded(legs[1..])
  }

  function Fees(legs: seq<Leg>): int {
    if legs == [] then 0 else legs[0].extra + Fees(legs[1..])
  }

  /** What a fill meets after an earlier one landed flat: the chain's position, or none at the order's leverage. */
  function Reopened(chain: Chain, k: Key, leverage: u64): Position {
    Loaded(FromChain(ChainAt(chain, k)), leverage)
  }

  function SizeOf(p: Option<Position>): int {
    match p
    case None => 0
    case Some(q) => q.signedSize
  }

  function CachedSize(cache: Cache, k: Key): int {
    if k in cache then cache[k].signedSize else 0
  }

  /** Starting from size `s`, some leg before the last one lands exactly on flat. */
  predicate LandsFlatEarly(s: int, legs: seq<Leg>)
    decreases |legs|
  {
    |legs| > 1 && (s + legs[0].fill.Signed() == 0 || LandsFlatEarly(s + legs[0].fill.Signed(), legs[1..]))
  }

  function Start(cache: Cache, chain: Chain, k: Key, legs: seq<Leg>): Position
    requires legs != []
  {
    Loaded(Read(cache, chain, k), legs[0].leverage)
  }

  /**
   When no leg before the last lands flat, a sweep leaves the cache as if the position had stayed in
   memory, and its deltas telescope to final minus starting collateral.
   */
  lemma {:induction false} SweepTelescopes(cache: Cache, chain: Chain, k: Key, legs: seq<Leg>)
    requires legs != [] && !LandsFlatEarly(Start(cache, chain, k, legs).signedSize, legs)
    ensures var p, r := Start(cache, chain, k, legs), Sweep(cache, chain, k, legs);
      && r.cache == Put(cache, k, Folded(p, legs))
      && r.delta == Folded(p, legs).collateral - p.collateral
    decreases |legs|
  {
    hide Applied;
    var p := Start(cache, chain, k, legs);
    var first := LoadAndFold(cache, chain, k, legs[0]);
    if |legs| > 1 {
      SweepTelescopes(first.cache, chain, k, legs[1..]);
    }
  }

  lemma {:induction false} FoldedSize(p: Position, legs: seq<Leg>)
    ensures Folded(p, legs).signedSize == p.signedSize + NetOf(legs)
    decreases |legs|
  {
    hide Applied;
    if legs != [] {
      FoldedSize(WithLeg(p, legs[0]), legs[1..]);
    }
  }

  /** How often a sweep goes back to the chain after landing flat before its last leg. */
  function Rereads(s: int, chainSize: int, legs: seq<Leg>): nat
    decreases |legs|
  {
    if |legs| <= 1 then 0 else
    var next := s + legs[0].fill.Signed();
    if next == 0 then 1 + Rereads(chainSize, chainSize, legs[1..]) else Rereads(next, chainSize, legs[1..])
  }

  /** Every early flat brings the chain's own, unsettled size back into the result. */
  lemma {:induction false} SweepSize(cache: Cache, chain: Chain, k: Key, legs: seq<Leg>)
    requires legs != []
    requires k in cache ==> cache[k].signedSize != 0
    ensures var onChain, s := SizeOf(FromChain(ChainAt(chain, k))), SizeOf(Read(cache, chain, k));
      CachedSize(Sweep(cache, chain, k, legs).cache, k) == s + NetOf(legs) + onChain * Rereads(s, onChain, legs)
    decreases |legs|
  {
    hide Applied, ChainAt, FromChain, LoadAndFold, Read;
    var onChain, s := SizeOf(FromChain(ChainAt(chain, k))), SizeOf(Read(cache, chain, k));
    var first := LoadAndFold(cache, chain, k, legs[0]);
    FoldSize(cache, chain, k, legs[0]);
    if |legs| > 1 {
      SweepSize(first.cache, chain, k, legs[1..]);
      OneMoreTimes(onChain, Rereads(onChain, onChain, legs[1..]));
    } else {
      assert legs[1..] == [];
    }
  }

  /** The size one fold leaves, and what the next fill on the key meets. */
  lemma FoldSize(cache: Cache, chain: Chain, k: Key, leg: Leg)
    ensures var after := LoadAndFold(cache, chain, k, leg).cache;
      var size := SizeOf(Read(cache, chain, k)) + leg.fill.Signed();
      && CachedSize(after, k) == size && (k in after ==> after[k].signedSize != 0)
      && SizeOf(Read(after, chain, k)) == if size == 0 then SizeOf(FromChain(ChainAt(chain, k))) else size
  {
    hide Applied, ChainAt, FromChain;
  }

  lemma OneMoreTimes(a: int, n: nat)
    ensures a * (1 + n) == a + a * n
  {}

  lemma {:induction false} RereadsIffEarlyFlat(s: int, chainSize: int, legs: seq<Leg>)
    ensures Rereads(s, chainSize, legs) > 0 <==> LandsFlatEarly(s, legs)
    decreases |legs|
  {
    if |legs| > 1 && s + legs[0].fill.Signed() != 0 {
      RereadsIffEarlyFlat(s + legs[0].fill.Signed(), chainSize, legs[1..]);
    }
  }

  lemma ZeroProduct(a: int, n: int)
    ensures a * n == 0 <==> a == 0 || n == 0
  {}

  /**
   A sweep ends with the size its fills add up to if and only if no leg before the last lands flat,
   or the chain holds no position to fall back to.
   */
  lemma SweepKeepsSizeIff(cache: Cache, chain: Chain, k: Key, legs: seq<Leg>)
    requires legs != []
    requires k in cache ==> cache[k].signedSize != 0
    ensures var s, onChain := SizeOf(Read(cache, chain, k)), SizeOf(FromChain(ChainAt(chain, k)));
      CachedSize(Sweep(cache, chain, k, legs).cache, k) == s + NetOf(legs)
      <==> !LandsFlatEarly(s, legs) || onChain == 0
  {
    var s, onChain := SizeOf(Read(cache, chain, k)), SizeOf(FromChain(ChainAt(chain, k)));
    SweepSize(cache, chain, k, legs);
    RereadsIffEarlyFlat(s, onChain, legs);
    ZeroProduct(onChain, Rereads(s, onChain, legs));
    hide Sweep, Read, ChainAt, FromChain, NetOf, Rereads, LandsFlatEarly;
  }

  /** A sweep reads and writes its own key only. */
  lemma {:induction false} SweepFrame(cache: Cache, chain: Chain, k: Key, legs: seq<Leg>, other: Key)
    requires other != k
    ensures var after := Sweep(cache, chain, k, legs).cache;
      (other in after <==> other in cache) && (other in cache ==> after[other] == cache[other])
    decreases |legs|
  {
    hide Applied;
    if legs != [] {
      SweepFrame(LoadAndFold(cache, chain, k, legs[0]).cache, chain, k, legs[1..], other);
    }
  }
}
