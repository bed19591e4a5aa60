/**
 All positions together, fold by fold: the two legs of a match may come at any time and in any order among the legs
 of other orders, liquidated legs and forgotten keys, as concurrent tasks interleave them.
 */
module MarketFlow {
  import opened Arithmetic
  import opened PositionFolding
  import opened PositionCaching
  import opened CashLedger
  import opened Liquidation
  import opened MatcherState
  import opened ZeroSum
  import opened Primitives

  /** A match of an order, by the known owner it met. */
  datatype Pair = Pair(order: Order, met: Match, owner: Owner)

  /** One atomic change of the cache, against what the chain holds at that moment. */
  datatype Move =
    | FoldMaker(pair: Pair, chain: Chain)
    | FoldTaker(pair: Pair, chain: Chain)
    | CloseLeg(key: Key, closeBps: nat, marks: Marks, chain: Chain)
    | Forget(key: Key)

  /** Totals of the folds, and what liquidations took out of the market. */
  datatype Flow = Flow(totals: Totals, sizeLiquidated: int, bookLiquidated: int)

  datatype Market = Market(cache: Cache, flow: Flow)

  function ClosedSize(p: Position, closeBps: nat): int {
    Directed(p.signedSize >= 0, CloseSize(Abs(p.signedSize), closeBps))
  }

  function WithLegOf(s: Market, k: Key, leg: Leg, chain: Chain): Market {
    Market(LoadAndFold(s.cache, chain, k, leg).cache,
           s.flow.(totals := AfterLeg(s.flow.totals, s.cache, chain, k, leg)))
  }

  /** What is read in from the chain and what is forgotten to it, as flows across the market's border. */
  function WithImport(t: Totals, p: Option<Position>, sign: int): Totals {
    t.(bookImported := t.bookImported + sign * Book(p), sizeImported := t.sizeImported + sign * SizeOf(p))
  }

  function After(s: Market, m: Move): Market {
    match m
    case FoldMaker(pair, chain) => WithLegOf(s, pair.owner.key, MakerLeg(pair.order, pair.met), chain)
    case FoldTaker(pair, chain) => WithLegOf(s, pair.order.key, TakerLeg(pair.order, pair.met), chain)
    case CloseLeg(k, closeBps, marks, chain) =>
      (match Read(s.cache, chain, k)
       case None => s
       case Some(p) =>
         var closed := ClosedSize(p, closeBps);
         Market(Put(s.cache, k, LegAfter(Held(k, p), closeBps, marks)),
                Flow(WithImport(s.flow.totals, Imported(s.cache, chain, k), 1),
                     s.flow.sizeLiquidated + closed,
                     s.flow.bookLiquidated + closed * p.entryPrice + closed * p.entryFunding)))
    case Forget(k) =>
      Market(s.cache - {k}, s.flow.(totals := WithImport(s.flow.totals, Entry(s.cache, k), -1)))
  }

  function AfterAll(s: Market, moves: seq<Move>): Market {
    if moves == [] then s else After(AfterAll(s, moves[..|moves| - 1]), moves[|moves| - 1])
  }

  predicate MoveBelow(m: Move, n: nat) {
    match m
    case FoldMaker(pair, _) => pair.owner.key < n
    case FoldTaker(pair, _) => pair.order.key < n
    case CloseLeg(k, _, _, _) => k < n
    case Forget(k) => k < n
  }

  // ---- Every move balances ----

  function Paid(s: Market, n: nat): int {
    PaidOut(s.flow.totals, s.cache, n) - s.flow.bookLiquidated
  }

  function Open(s: Market, n: nat): int {
    OpenInterest(s.flow.totals, s.cache, n) + s.flow.sizeLiquidated
  }

  ghost predicate Keeps(s: Market, r: Market, n: nat, cash: int, signed: int) {
    && s.flow.totals.slack <= r.flow.totals.slack
    && Abs(Paid(r, n) - Paid(s, n) - cash) <= 2 * (r.flow.totals.slack - s.flow.totals.slack)
    && Open(r, n) == Open(s, n) + signed
  }

  function CashOf(m: Move): int {
    match m
    case FoldMaker(pair, _) => PairCash(pair)
    case FoldTaker(pair, _) => -PairCash(pair)
    case CloseLeg(_, _, _, _) => 0
    case Forget(_) => 0
  }

  function SignedOf(m: Move): int {
    match m
    case FoldMaker(pair, _) => PairSigned(pair)
    case FoldTaker(pair, _) => -PairSigned(pair)
    case CloseLeg(_, _, _, _) => 0
    case Forget(_) => 0
  }

  function PairCash(pair: Pair): int {
    var f := MakerLeg(pair.order, pair.met).fill; SpotCash(f) + FundingCash(f)
  }

  function PairSigned(pair: Pair): int {
    MakerLeg(pair.order, pair.met).fill.Signed()
  }

  lemma LegKeeps(s: Market, k: Key, leg: Leg, chain: Chain, n: nat)
    requires k < n
    ensures Keeps(s, WithLegOf(s, k, leg, chain), n, SpotCash(leg.fill) + FundingCash(leg.fill), leg.fill.Signed())
  {
    LegBalances(s.flow.totals, s.cache, chain, k, leg, n);
    hide LoadAndFold, AfterLeg, PaidOut, OpenInterest, SpotCash, FundingCash;
  }

  /** A liquidated leg: what it takes out of the book is what its closed part was booked at. */
  lemma ClosedBook(p: Position, h: Held, closeBps: nat, marks: Marks)
    requires h.position == p
    ensures var q, closed := LegAfter(h, closeBps, marks), ClosedSize(p, closeBps);
      && q.signedSize == p.signedSize - closed
      && SpotBook(q) + FundingBook(q)
         == SpotBook(p) + FundingBook(p) - (closed * p.entryPrice + closed * p.entryFunding)
  {
    hide Pnl, CloseSize;
    var closed := ClosedSize(p, closeBps);
    Distribute(p.signedSize, closed, p.entryPrice);
    Distribute(p.signedSize, closed, p.entryFunding);
  }

  lemma CloseKeeps(s: Market, m: Move, n: nat)
    requires m.CloseLeg? && m.key < n
    ensures Keeps(s, After(s, m), n, 0, 0)
  {
    hide LegAfter, ClosedSize, SpotBook, FundingBook;
    var k := m.key;
    match Read(s.cache, m.chain, k) {
      case None =>
      case Some(p) =>
        var q, cache' := LegAfter(Held(k, p), m.closeBps, m.marks), After(s, m).cache;
        ClosedBook(p, Held(k, p), m.closeBps, m.marks);
        BookOfEntry(s.cache, m.chain, k, 1);
        BookOfPut(s.cache, k, q);
        SumUpdate(s.cache, cache', n, k, Book);
        SumUpdate(s.cache, cache', n, k, SizeOf);
        hide Book, SizeOf, Entry, Imported, Read;
    }
  }

  lemma BookOfPut(cache: Cache, k: Key, q: Position)
    ensures var after := Put(cache, k, q);
      && Book(Entry(after, k)) == SpotBook(q) + FundingBook(q) && SizeOf(Entry(after, k)) == q.signedSize
      && forall j :: j != k ==> Entry(after, j) == Entry(cache, j)
  {}

  lemma ForgetKeeps(s: Market, m: Move, n: nat)
    requires m.Forget? && m.key < n
    ensures Keeps(s, After(s, m), n, 0, 0)
  {
    hide Book;
    var k, cache' := m.key, After(s, m).cache;
    SumUpdate(s.cache, cache', n, k, Book);
    SumUpdate(s.cache, cache', n, k, SizeOf);
    NoneIsNothing();
  }

  lemma NoneIsNothing()
    ensures Book(None) == 0 && SizeOf(None) == 0
  {}

  lemma MoveKeeps(s: Market, m: Move, n: nat)
    requires MoveBelow(m, n)
    ensures Keeps(s, After(s, m), n, CashOf(m), SignedOf(m))
  {
    hide Keeps, WithLegOf, SpotCash, FundingCash;
    match m {
      case FoldMaker(pair, chain) =>
        LegKeeps(s, pair.owner.key, MakerLeg(pair.order, pair.met), chain, n);
      case FoldTaker(pair, chain) =>
        LegKeeps(s, pair.order.key, TakerLeg(pair.order, pair.met), chain, n);
        OppositeCash(pair.order, pair.met);
      case CloseLeg(_, _, _, _) =>
        CloseKeeps(s, m, n);
      case Forget(_) =>
        ForgetKeeps(s, m, n);
    }
  }

  function TotalCash(moves: seq<Move>): int {
    if moves == [] then 0 else TotalCash(moves[..|moves| - 1]) + CashOf(moves[|moves| - 1])
  }

  function TotalSigned(moves: seq<Move>): int {
    if moves == [] then 0 else TotalSigned(moves[..|moves| - 1]) + SignedOf(moves[|moves| - 1])
  }

  lemma {:induction false} MovesKeep(s: Market, moves: seq<Move>, n: nat)
    requires forall i :: 0 <= i < |moves| ==> MoveBelow(moves[i], n)
    ensures Keeps(s, AfterAll(s, moves), n, TotalCash(moves), TotalSigned(moves))
  {
    hide After, Paid, Open, CashOf, SignedOf;
    if moves != [] {
      var last := |moves| - 1;
      MovesKeep(s, moves[..last], n);
      MoveKeeps(AfterAll(s, moves[..last]), moves[last], n);
    }
  }

  // ---- Both legs of every match, in any order ----

  function Makers(moves: seq<Move>): seq<Pair> {
    if moves == [] then [] else
    var m := moves[|moves| - 1];
    Makers(moves[..|moves| - 1]) + if m.FoldMaker? then [m.pair] else []
  }

  function Takers(moves: seq<Move>): seq<Pair> {
    if moves == [] then [] else
    var m := moves[|moves| - 1];
    Takers(moves[..|moves| - 1]) + if m.FoldTaker? then [m.pair] else []
  }

  /** Every match was folded on both its sides, whenever that was. */
  predicate Complete(moves: seq<Move>) {
    multiset(Makers(moves)) == multiset(Takers(moves))
  }

  function SumOf(pairs: seq<Pair>, value: Pair -> int): int {
    if pairs == [] then 0 else SumOf(pairs[..|pairs| - 1], value) + value(pairs[|pairs| - 1])
  }

  lemma {:induction false} SumWithout(pairs: seq<Pair>, i: nat, value: Pair -> int)
    requires i < |pairs|
    ensures SumOf(pairs, value) == SumOf(pairs[..i] + pairs[i + 1..], value) + value(pairs[i])
  {
    var last := |pairs| - 1;
    var rest := pairs[..i] + pairs[i + 1..];
    if i == last {
      assert rest == pairs[..last];
    } else {
      SumWithout(pairs[..last], i, value);
      assert rest[..|rest| - 1] == pairs[..last][..i] + pairs[..last][i + 1..];
    }
  }

  lemma MultisetWithout(pairs: seq<Pair>, i: nat)
    requires i < |pairs|
    ensures multiset(pairs) == multiset(pairs[..i] + pairs[i + 1..]) + multiset{pairs[i]}
  {
    assert pairs == pairs[..i] + [pairs[i]] + pairs[i + 1..];
  }

  lemma {:induction false} SumOfSameMultiset(a: seq<Pair>, b: seq<Pair>, value: Pair -> int)
    requires multiset(a) == multiset(b)
    ensures SumOf(a, value) == SumOf(b, value)
    decreases |a|
  {
    if a == [] {
      assert |multiset(b)| == 0;
    } else {
      var last := |a| - 1;
      assert a == a[..last] + [a[last]];
      assert a[last] in multiset(b);
      var i :| 0 <= i < |b| && b[i] == a[last];
      SumWithout(b, i, value);
      MultisetWithout(b, i);
      var rest := b[..i] + b[i + 1..];
      assert multiset(a) == multiset(a[..last]) + multiset{a[last]};
      assert multiset(a[..last]) == multiset(a) - multiset{a[last]};
      assert multiset(rest) == multiset(b) - multiset{b[i]};
      SumOfSameMultiset(a[..last], rest, value);
    }
  }

  lemma {:induction false} TotalsOfPairs(moves: seq<Move>)
    ensures TotalCash(moves) == SumOf(Makers(moves), PairCash) - SumOf(Takers(moves), PairCash)
    ensures TotalSigned(moves) == SumOf(Makers(moves), PairSigned) - SumOf(Takers(moves), PairSigned)
  {
    hide PairCash, PairSigned;
    if moves != [] {
      var m, rest := moves[|moves| - 1], moves[..|moves| - 1];
      TotalsOfPairs(rest);
      if m.FoldMaker? {
        SumSnoc(Makers(rest), m.pair);
      } else if m.FoldTaker? {
        SumSnoc(Takers(rest), m.pair);
      }
      assert Makers(rest) + [] == Makers(rest) && Takers(rest) + [] == Takers(rest);
    }
  }

  lemma SumSnoc(pairs: seq<Pair>, pair: Pair)
    ensures SumOf(pairs + [pair], PairCash) == SumOf(pairs, PairCash) + PairCash(pair)
    ensures SumOf(pairs + [pair], PairSigned) == SumOf(pairs, PairSigned) + PairSigned(pair)
  {
    assert (pairs + [pair])[..|pairs|] == pairs;
  }

  /**
   However the folds of concurrent orders interleave with each other, with liquidated legs and with forgotten keys,
   once both legs of every match are folded: open interest has moved by exactly the size read in from the chain less
   what was forgotten and liquidated, and realized PnL by the change in book value with the same flows, within the
   rounding of adds.
   */
  lemma AnyInterleavingBalances(s: Market, moves: seq<Move>, n: nat)
    requires Complete(moves) && forall i :: 0 <= i < |moves| ==> MoveBelow(moves[i], n)
    ensures var r := AfterAll(s, moves);
      && Open(r, n) == Open(s, n)
      && Abs(Paid(r, n) - Paid(s, n)) <= 2 * (r.flow.totals.slack - s.flow.totals.slack)
  {
    hide AfterAll, Paid, Open, PairCash, PairSigned;
    MovesKeep(s, moves, n);
    TotalsOfPairs(moves);
    SumOfSameMultiset(Makers(moves), Takers(moves), PairCash);
    SumOfSameMultiset(Makers(moves), Takers(moves), PairSigned);
  }

  /** From an empty matcher: open interest is the size read in, net of what was forgotten, less the size liquidated. */
  lemma OpenInterestIsFlow(moves: seq<Move>, n: nat)
    requires Complete(moves) && forall i :: 0 <= i < |moves| ==> MoveBelow(moves[i], n)
    ensures var r := AfterAll(Market(map[], Flow(NOTHING, 0, 0)), moves);
      SumTo(r.cache, n, SizeOf) == r.flow.totals.sizeImported - r.flow.sizeLiquidated
  {
    hide AfterAll;
    AnyInterleavingBalances(Market(map[], Flow(NOTHING, 0, 0)), moves, n);
    SumOfNone(map[], n, SizeOf);
  }
}
