/**
 All positions of all traders together, over whole runs of orders. Every match folds one fill into the
 maker's position and the opposite fill into the taker's, at the same price, quantity and funding index, so
 money and size can only move between positions, round, or come in from the chain.
 */
module ZeroSum {
  import opened Arithmetic
  import opened PositionFolding
  import opened PositionCaching
  import opened CashLedger
  import opened RealizedPnl
  import opened MatcherState
  import opened Primitives

  // ---- Sums over all cached positions ----

  function Book(p: Option<Position>): int {
    match p
    case None => 0
    case Some(q) => SpotBook(q) + FundingBook(q)
  }

  /** A value summed over the cache entries of all keys below `n`. */
  function SumTo(cache: Cache, n: nat, value: Option<Position> -> int): int {
    if n == 0 then 0 else SumTo(cache, n - 1, value) + value(Entry(cache, n - 1))
  }

  lemma {:induction false} SumUpdate(before: Cache, after: Cache, n: nat, k: Key, value: Option<Position> -> int)
    requires forall j :: j != k ==> Entry(after, j) == Entry(before, j)
    ensures SumTo(after, n, value)
         == SumTo(before, n, value) + if k < n then value(Entry(after, k)) - value(Entry(before, k)) else 0
  {
    if n > 0 {
      SumUpdate(before, after, n - 1, k, value);
    }
  }

  lemma {:induction false} SumOfNone(cache: Cache, n: nat, value: Option<Position> -> int)
    requires value(None) == 0 && forall k :: k < n ==> k !in cache
    ensures SumTo(cache, n, value) == 0
  {
    if n > 0 {
      SumOfNone(cache, n - 1, value);
    }
  }

  // ---- Totals of a run ----

  /** Realized PnL, the rounding budget of adds, and what cache misses brought in from the chain. */
  datatype Totals = Totals(realized: int, slack: nat, bookImported: int, sizeImported: int)

  const NOTHING: Totals := Totals(0, 0, 0, 0)

  /** What a fold on `k` finds on the chain, when it has to look there. */
  function Imported(cache: Cache, chain: Chain, k: Key): Option<Position> {
    if k in cache then None else FromChain(ChainAt(chain, k))
  }

  function AfterLeg(t: Totals, cache: Cache, chain: Chain, k: Key, leg: Leg): Totals {
    Totals(t.realized + LoadAndFold(cache, chain, k, leg).realized,
           t.slack + AddSlack(Loaded(Read(cache, chain, k), leg.leverage), leg.fill),
           t.bookImported + Book(Imported(cache, chain, k)),
           t.sizeImported + SizeOf(Imported(cache, chain, k)))
  }

  function MatchTotals(t: Totals, s: Progress, chain: Chain, o: Order, m: Match): Totals {
    match m.maker
    case None => t
    case Some(owner) =>
      var made := LoadAndFold(s.cache, chain, owner.key, MakerLeg(o, m));
      AfterLeg(AfterLeg(t, s.cache, chain, owner.key, MakerLeg(o, m)), made.cache, chain, o.key, TakerLeg(o, m))
  }

  function MatchesTotals(t: Totals, s: Progress, chain: Chain, configured: bool, o: Order, ms: seq<Match>): Totals {
    if ms == [] then t
    else
      var n := |ms| - 1;
      MatchTotals(MatchesTotals(t, s, chain, configured, o, ms[..n]), AfterMatches(s, chain, configured, o, ms[..n]),
                  chain, o, ms[n])
  }

  function OrdersTotals(t: Totals, s: Progress, configured: bool, os: seq<Placed>): Totals {
    if os == [] then t
    else
      var n := |os| - 1;
      var before, p := AfterOrders(s, configured, os[..n]), os[n];
      MatchesTotals(OrdersTotals(t, s, configured, os[..n]), Progress(before.cache, before.pending, 0, []),
                    p.chain, configured, p.order, p.matches)
  }

  predicate MatchBelow(o: Order, m: Match, n: nat) {
    o.key < n && (m.maker.Some? ==> m.maker.value.key < n)
  }

  predicate OrdersBelow(os: seq<Placed>, n: nat) {
    forall i, j :: 0 <= i < |os| && 0 <= j < |os[i].matches| ==> MatchBelow(os[i].order, os[i].matches[j], n)
  }

  // ---- Every step balances ----

  /** What all positions together have paid out: realized PnL less open book value, plus the book value brought in. */
  function PaidOut(t: Totals, cache: Cache, n: nat): int {
    t.realized - SumTo(cache, n, Book) + t.bookImported
  }

  function OpenInterest(t: Totals, cache: Cache, n: nat): int {
    SumTo(cache, n, SizeOf) - t.sizeImported
  }

  /** Money moves by the cash of the fills within the rounding of adds, size by their signed quantities exactly. */
  ghost predicate Balances(t: Totals, cache: Cache, t': Totals, cache': Cache, n: nat, cash: int, signed: int) {
    && t.slack <= t'.slack
    && Abs(PaidOut(t', cache', n) - PaidOut(t, cache, n) - cash) <= 2 * (t'.slack - t.slack)
    && OpenInterest(t', cache', n) == OpenInterest(t, cache, n) + signed
  }

  lemma BalancesTwice(t: Totals, a: Cache, t1: Totals, b: Cache, t2: Totals, c: Cache, n: nat, x: int, y: int, u: int,
                      v: int)
    requires Balances(t, a, t1, b, n, x, u) && Balances(t1, b, t2, c, n, y, v)
    ensures Balances(t, a, t2, c, n, x + y, u + v)
  {
    hide PaidOut, OpenInterest;
  }

  lemma BookOfEntry(cache: Cache, chain: Chain, k: Key, leverage: u64)
    ensures var p := Loaded(Read(cache, chain, k), leverage);
      && SpotBook(p) + FundingBook(p) == Book(Entry(cache, k)) + Book(Imported(cache, chain, k))
      && p.signedSize == SizeOf(Entry(cache, k)) + SizeOf(Imported(cache, chain, k))
  {}

  lemma BookAfterFold(cache: Cache, chain: Chain, k: Key, leg: Leg)
    ensures var q := Applied(Loaded(Read(cache, chain, k), leg.leverage), leg.fill).position;
      var after := LoadAndFold(cache, chain, k, leg).cache;
      && Book(Entry(after, k)) == SpotBook(q) + FundingBook(q) && SizeOf(Entry(after, k)) == q.signedSize
      && forall j :: j != k ==> Entry(after, j) == Entry(cache, j)
  {
    hide Applied, Read;
  }

  lemma LegBalances(t: Totals, cache: Cache, chain: Chain, k: Key, leg: Leg, n: nat)
    requires k < n
    ensures Balances(t, cache, AfterLeg(t, cache, chain, k, leg), LoadAndFold(cache, chain, k, leg).cache, n,
                     SpotCash(leg.fill) + FundingCash(leg.fill), leg.fill.Signed())
  {
    var p, after := Loaded(Read(cache, chain, k), leg.leverage), LoadAndFold(cache, chain, k, leg).cache;
    StepDrift(p, leg.fill);
    BookOfEntry(cache, chain, k, leg.leverage);
    BookAfterFold(cache, chain, k, leg);
    SumUpdate(cache, after, n, k, Book);
    SumUpdate(cache, after, n, k, SizeOf);
    hide Applied, Pnl, SpotCash, FundingCash, AddSlack, Read, SpotBook, FundingBook, Entry, Imported, SizeOf, Book;
    RealizedOfFold(cache, chain, k, leg);
  }

  lemma RealizedOfFold(cache: Cache, chain: Chain, k: Key, leg: Leg)
    ensures var p := Loaded(Read(cache, chain, k), leg.leverage);
      LoadAndFold(cache, chain, k, leg).realized == SpotRealized(p, leg.fill) + FundingRealized(p, leg.fill)
  {
    hide RequiredMargin, BlendPrice, BlendFunding, Read;
  }

  lemma OppositeCash(o: Order, m: Match)
    ensures var f, g := MakerLeg(o, m).fill, TakerLeg(o, m).fill;
      && (SpotCash(f) + FundingCash(f)) + (SpotCash(g) + FundingCash(g)) == 0
      && f.Signed() + g.Signed() == 0
  {}

  /** The cash of the two legs of a match cancels, and so do their sizes. */
  lemma MatchBalances(t: Totals, s: Progress, chain: Chain, configured: bool, o: Order, m: Match, n: nat)
    requires MatchBelow(o, m, n)
    ensures Balances(t, s.cache, MatchTotals(t, s, chain, o, m), AfterMatch(s, chain, configured, o, m).cache, n, 0, 0)
  {
    hide AfterLeg, LoadAndFold, Balances, SpotCash, FundingCash, Queued;
    match m.maker {
      case None =>
        NothingBalances(t, s.cache, n);
      case Some(owner) =>
        var f, g := MakerLeg(o, m), TakerLeg(o, m);
        var made, t1 := LoadAndFold(s.cache, chain, owner.key, f).cache, AfterLeg(t, s.cache, chain, owner.key, f);
        LegBalances(t, s.cache, chain, owner.key, f, n);
        LegBalances(t1, made, chain, o.key, g, n);
        OppositeCash(o, m);
        BalancesTwice(t, s.cache, t1, made, AfterLeg(t1, made, chain, o.key, g),
                      LoadAndFold(made, chain, o.key, g).cache, n,
                      SpotCash(f.fill) + FundingCash(f.fill), SpotCash(g.fill) + FundingCash(g.fill),
                      f.fill.Signed(), g.fill.Signed());
    }
  }

  lemma NothingBalances(t: Totals, cache: Cache, n: nat)
    ensures Balances(t, cache, t, cache, n, 0, 0)
  {}

  lemma {:induction false} MatchesBalance(t: Totals, s: Progress, chain: Chain, configured: bool, o: Order,
                                          ms: seq<Match>, n: nat)
    requires forall j :: 0 <= j < |ms| ==> MatchBelow(o, ms[j], n)
    ensures Balances(t, s.cache, MatchesTotals(t, s, chain, configured, o, ms),
                     AfterMatches(s, chain, configured, o, ms).cache, n, 0, 0)
  {
    hide MatchTotals, AfterMatch, Balances;
    if ms == [] {
      NothingBalances(t, s.cache, n);
    } else {
      var i := |ms| - 1;
      var t1, s1 := MatchesTotals(t, s, chain, configured, o, ms[..i]), AfterMatches(s, chain, configured, o, ms[..i]);
      MatchesBalance(t, s, chain, configured, o, ms[..i], n);
      MatchBalances(t1, s1, chain, configured, o, ms[i], n);
      BalancesTwice(t, s.cache, t1, s1.cache, MatchTotals(t1, s1, chain, o, ms[i]),
                    AfterMatch(s1, chain, configured, o, ms[i]).cache, n, 0, 0, 0, 0);
    }
  }

  /**
   At every point of every run of orders, whatever the chain held meanwhile: all positions together pay out nothing
   beyond the rounding of adds, and open interest moves by exactly what was brought in from the chain.
   */
  lemma {:induction false} MarketBalances(t: Totals, s: Progress, configured: bool, os: seq<Placed>, n: nat)
    requires OrdersBelow(os, n)
    ensures Balances(t, s.cache, OrdersTotals(t, s, configured, os), AfterOrders(s, configured, os).cache, n, 0, 0)
  {
    hide MatchesTotals, AfterMatches, Balances;
    if os == [] {
      NothingBalances(t, s.cache, n);
    } else {
      var i := |os| - 1;
      var t1, s1, p := OrdersTotals(t, s, configured, os[..i]), AfterOrders(s, configured, os[..i]), os[i];
      var idle := Progress(s1.cache, s1.pending, 0, []);
      MarketBalances(t, s, configured, os[..i], n);
      MatchesBalance(t1, idle, p.chain, configured, p.order, p.matches, n);
      BalancesTwice(t, s.cache, t1, s1.cache, MatchesTotals(t1, idle, p.chain, configured, p.order, p.matches),
                    AfterPlaced(s1, configured, p).cache, n, 0, 0, 0, 0);
    }
  }

  // ---- From an empty matcher ----

  function Boot(): Progress {
    Progress(map[], map[], 0, [])
  }

  /**
   Open interest is balanced after a run, longs holding exactly what shorts owe, if and only if the sizes that cache
   misses found on the chain add up to nothing.
   */
  lemma OpenInterestBalancesIff(configured: bool, os: seq<Placed>, n: nat)
    requires OrdersBelow(os, n)
    ensures var t, r := OrdersTotals(NOTHING, Boot(), configured, os), AfterOrders(Boot(), configured, os);
      && SumTo(r.cache, n, SizeOf) == t.sizeImported
      && (SumTo(r.cache, n, SizeOf) == 0 <==> t.sizeImported == 0)
  {
    MarketBalances(NOTHING, Boot(), configured, os, n);
    SumOfNone(map[], n, SizeOf);
  }

  /**
   Once every key is flat, all realized PnL of all traders is what cache misses brought in, with the sign turned,
   within twice the rounding of adds.
   */
  lemma RealizedSumsToImported(configured: bool, os: seq<Placed>, n: nat)
    requires OrdersBelow(os, n) && forall k :: k < n ==> k !in AfterOrders(Boot(), configured, os).cache
    ensures var t := OrdersTotals(NOTHING, Boot(), configured, os);
      Abs(t.realized + t.bookImported) <= 2 * t.slack
  {
    MarketBalances(NOTHING, Boot(), configured, os, n);
    SumOfNone(map[], n, Book);
    SumOfNone(AfterOrders(Boot(), configured, os).cache, n, Book);
  }

  // ---- When no miss finds a live position ----

  predicate NoPosition(chain: Chain, k: Key) {
    FromChain(ChainAt(chain, k)).None?
  }

  /** The hypothesis of a closed market: a key that is not cached has no position on the chain either. */
  predicate MatchFindsNone(s: Progress, chain: Chain, o: Order, m: Match) {
    match m.maker
    case None => true
    case Some(owner) =>
      && (owner.key !in s.cache ==> NoPosition(chain, owner.key))
      && (o.key !in LoadAndFold(s.cache, chain, owner.key, MakerLeg(o, m)).cache ==> NoPosition(chain, o.key))
  }

  predicate MatchesFindNone(s: Progress, chain: Chain, configured: bool, o: Order, ms: seq<Match>) {
    ms != [] ==>
      var n := |ms| - 1;
      && MatchesFindNone(s, chain, configured, o, ms[..n])
      && MatchFindsNone(AfterMatches(s, chain, configured, o, ms[..n]), chain, o, ms[n])
  }

  predicate OrdersFindNone(s: Progress, configured: bool, os: seq<Placed>) {
    os != [] ==>
      var n := |os| - 1;
      var before := AfterOrders(s, configured, os[..n]);
      && OrdersFindNone(s, configured, os[..n])
      && MatchesFindNone(Progress(before.cache, before.pending, 0, []), os[n].chain, configured, os[n].order,
                         os[n].matches)
  }

  predicate SameImports(t: Totals, t': Totals) {
    t'.bookImported == t.bookImported && t'.sizeImported == t.sizeImported
  }

  lemma {:induction false} MatchesImportNothing(t: Totals, s: Progress, chain: Chain, configured: bool, o: Order,
                                                ms: seq<Match>)
    requires MatchesFindNone(s, chain, configured, o, ms)
    ensures SameImports(t, MatchesTotals(t, s, chain, configured, o, ms))
  {
    hide LoadAndFold, AfterMatches, AddSlack, ChainAt, FromChain;
    if ms != [] {
      MatchesImportNothing(t, s, chain, configured, o, ms[..|ms| - 1]);
    }
  }

  lemma {:induction false} OrdersImportNothing(t: Totals, s: Progress, configured: bool, os: seq<Placed>)
    requires OrdersFindNone(s, configured, os)
    ensures SameImports(t, OrdersTotals(t, s, configured, os))
  {
    hide MatchesTotals, AfterMatches, MatchesFindNone;
    if os != [] {
      var n := |os| - 1;
      var before, p := AfterOrders(s, configured, os[..n]), os[n];
      OrdersImportNothing(t, s, configured, os[..n]);
      MatchesImportNothing(OrdersTotals(t, s, configured, os[..n]), Progress(before.cache, before.pending, 0, []),
                           p.chain, configured, p.order, p.matches);
    }
  }

  /** In a closed market open interest is balanced after every run. */
  lemma OpenInterestBalances(configured: bool, os: seq<Placed>, n: nat)
    requires OrdersBelow(os, n) && OrdersFindNone(Boot(), configured, os)
    ensures SumTo(AfterOrders(Boot(), configured, os).cache, n, SizeOf) == 0
  {
    hide SumTo, AfterOrders, OrdersTotals, OrdersFindNone;
    OpenInterestBalancesIff(configured, os, n);
    OrdersImportNothing(NOTHING, Boot(), configured, os);
  }

  /** And once everybody is flat, all realized PnL of all traders sums to zero within twice the adds' rounding. */
  lemma RealizedSumsToZero(configured: bool, os: seq<Placed>, n: nat)
    requires OrdersBelow(os, n) && OrdersFindNone(Boot(), configured, os)
    requires forall k :: k < n ==> k !in AfterOrders(Boot(), configured, os).cache
    ensures var t := OrdersTotals(NOTHING, Boot(), configured, os); Abs(t.realized) <= 2 * t.slack
  {
    hide SumTo, AfterOrders, OrdersTotals, OrdersFindNone;
    RealizedSumsToImported(configured, os, n);
    OrdersImportNothing(NOTHING, Boot(), configured, os);
  }

  // ---- The hypothesis is needed ----

  /**
   An order whose first match closes the taker's cached position flat while the chain still holds a position of size
   `c` for it, and that trades on against makers the chain knows nothing of: open interest is off by exactly `c`.
   */
  lemma StaleReadUnbalances(s: Progress, chain: Chain, configured: bool, o: Order, first: Match, second: Match, n: nat)
    requires MatchBelow(o, first, n) && MatchBelow(o, second, n) && first.maker.Some? && second.maker.Some?
    requires o.key in s.cache && s.cache[o.key].signedSize + TakerLeg(o, first).fill.Signed() == 0
    requires first.maker.value.key != o.key && NoPosition(chain, first.maker.value.key)
    requires second.maker.value.key != o.key && NoPosition(chain, second.maker.value.key)
    ensures SumTo(AfterMatches(s, chain, configured, o, [first, second]).cache, n, SizeOf)
         == SumTo(s.cache, n, SizeOf) + SizeOf(FromChain(ChainAt(chain, o.key)))
  {
    hide LoadAndFold, SumTo, AddSlack, ChainAt, FromChain, AfterMatch, SizeOf;
    var ms := [first, second];
    assert ms[..1] == [first];
    OneMatch(NOTHING, s, chain, configured, o, first);
    var s1 := AfterMatch(s, chain, configured, o, first);
    var t1 := MatchTotals(NOTHING, s, chain, o, first);
    ClosingMatch(s, chain, configured, o, first);
    ReopeningMatch(t1, s1, chain, o, second);
    MatchesBalance(NOTHING, s, chain, configured, o, ms, n);
  }

  lemma OneMatch(t: Totals, s: Progress, chain: Chain, configured: bool, o: Order, m: Match)
    ensures AfterMatches(s, chain, configured, o, [m]) == AfterMatch(s, chain, configured, o, m)
    ensures MatchesTotals(t, s, chain, configured, o, [m]) == MatchTotals(t, s, chain, o, m)
  {
    hide AfterMatch, MatchTotals;
    assert [m][..0] == [];
    assert AfterMatches(s, chain, configured, o, [m][..0]) == s;
    assert MatchesTotals(t, s, chain, configured, o, [m][..0]) == t;
  }

  lemma ClosingMatch(s: Progress, chain: Chain, configured: bool, o: Order, m: Match)
    requires m.maker.Some? && m.maker.value.key != o.key && NoPosition(chain, m.maker.value.key)
    requires o.key in s.cache && s.cache[o.key].signedSize + TakerLeg(o, m).fill.Signed() == 0
    ensures MatchTotals(NOTHING, s, chain, o, m).sizeImported == 0
    ensures o.key !in AfterMatch(s, chain, configured, o, m).cache
  {
    hide Applied, AddSlack, Queued, ChainAt, FromChain;
  }

  lemma ReopeningMatch(t: Totals, s: Progress, chain: Chain, o: Order, m: Match)
    requires m.maker.Some? && m.maker.value.key != o.key && NoPosition(chain, m.maker.value.key) && o.key !in s.cache
    ensures MatchTotals(t, s, chain, o, m).sizeImported == t.sizeImported + SizeOf(FromChain(ChainAt(chain, o.key)))
  {
    hide Applied, AddSlack, ChainAt, FromChain;
  }
}
