/**
 From fills to custody: what orders queue as they are folded, and what periodic drains pay out, over runs of both.
 Liquidations queue nothing; their deltas move sealed collateral only.
 */
module PnlFlow {
  import opened Arithmetic
  import opened PositionCaching
  import opened MarketScale
  import opened RealizedPnl
  import opened MatcherState
  import opened Primitives

  // ---- The queue events of one order ----

  function MatchEvents(s: Progress, chain: Chain, o: Order, m: Match): seq<Event> {
    match m.maker
    case None => []
    case Some(owner) =>
      var made := LoadAndFold(s.cache, chain, owner.key, MakerLeg(o, m));
      var taken := LoadAndFold(made.cache, chain, o.key, TakerLeg(o, m));
      [Realize(owner.address, o.market, made.realized), Realize(o.trader, o.market, taken.realized)]
  }

  function FoldEvents(s: Progress, chain: Chain, configured: bool, o: Order, ms: seq<Match>): seq<Event> {
    if ms == [] then []
    else
      var n := |ms| - 1;
      FoldEvents(s, chain, configured, o, ms[..n])
      + MatchEvents(AfterMatches(s, chain, configured, o, ms[..n]), chain, o, ms[n])
  }

  lemma {:induction false} AfterAppend(b: Books, xs: seq<Event>, ys: seq<Event>, configured: bool)
    requires AllowedRun(b, xs, configured)
    ensures After(b, xs + ys, configured) == After(After(b, xs, configured), ys, configured)
    ensures AllowedRun(After(b, xs, configured), ys, configured) ==> AllowedRun(b, xs + ys, configured)
    decreases |xs|
  {
    hide Apply, Drains;
    if xs == [] {
      assert xs + ys == ys;
    } else {
      assert (xs + ys)[1..] == xs[1..] + ys;
      AfterAppend(Apply(b, xs[0], configured), xs[1..], ys, configured);
    }
  }

  lemma MatchQueues(s: Progress, chain: Chain, configured: bool, o: Order, m: Match, paid: seq<PendingEntry>)
    ensures var events := MatchEvents(s, chain, o, m);
      && AllowedRun(Books(s.pending, paid), events, configured)
      && After(Books(s.pending, paid), events, configured)
         == Books(AfterMatch(s, chain, configured, o, m).pending, paid)
  {
    hide LoadAndFold, Queued, RealizedDeltaToUsd;
    var b, events := Books(s.pending, paid), MatchEvents(s, chain, o, m);
    if m.maker.Some? {
      assert events[1..] == [events[1]] && events[1..][1..] == [];
      var first := Apply(b, events[0], configured);
      var second := Apply(first, events[1], configured);
      assert AllowedRun(second, [], configured) && After(second, [], configured) == second;
      assert AllowedRun(first, events[1..], configured) && After(first, events[1..], configured) == second;
    }
  }

  /** The queue after an order is the queue its folds' realizations build up, one by one. */
  lemma {:induction false} MatchesQueue(s: Progress, chain: Chain, configured: bool, o: Order, ms: seq<Match>,
                                        paid: seq<PendingEntry>)
    ensures var events := FoldEvents(s, chain, configured, o, ms);
      && AllowedRun(Books(s.pending, paid), events, configured)
      && After(Books(s.pending, paid), events, configured)
         == Books(AfterMatches(s, chain, configured, o, ms).pending, paid)
  {
    hide MatchEvents, AfterMatch, Apply, Drains;
    if ms != [] {
      var n := |ms| - 1;
      var before := AfterMatches(s, chain, configured, o, ms[..n]);
      MatchesQueue(s, chain, configured, o, ms[..n], paid);
      MatchQueues(before, chain, configured, o, ms[n], paid);
      AfterAppend(Books(s.pending, paid), FoldEvents(s, chain, configured, o, ms[..n]),
                  MatchEvents(before, chain, o, ms[n]), configured);
    }
  }

  // ---- Orders and drains in any order ----

  datatype Act = Place(placed: Placed) | Flush(batch: seq<PendingEntry>)

  /** The matcher's state with everything paid out so far. */
  datatype Flow = Flow(state: Progress, paid: seq<PendingEntry>)

  function Idle(s: Progress): Progress {
    Progress(s.cache, s.pending, 0, [])
  }

  function Do(f: Flow, configured: bool, a: Act): Flow {
    match a
    case Place(p) => f.(state := AfterPlaced(f.state, configured, p))
    case Flush(batch) => Flow(f.state.(pending := map[]), f.paid + batch)
  }

  function DoAll(f: Flow, configured: bool, acts: seq<Act>): Flow
    decreases |acts|
  {
    if acts == [] then f else DoAll(Do(f, configured, acts[0]), configured, acts[1..])
  }

  ghost predicate ActsAllowed(f: Flow, configured: bool, acts: seq<Act>)
    decreases |acts|
  {
    acts != [] ==>
      && (acts[0].Flush? ==> Drains(acts[0].batch, f.state.pending))
      && ActsAllowed(Do(f, configured, acts[0]), configured, acts[1..])
  }

  function ActEvents(f: Flow, configured: bool, a: Act): seq<Event> {
    match a
    case Place(p) => FoldEvents(Idle(f.state), p.chain, configured, p.order, p.matches)
    case Flush(batch) => [Drain(batch)]
  }

  function AllEvents(f: Flow, configured: bool, acts: seq<Act>): seq<Event>
    decreases |acts|
  {
    if acts == [] then []
    else ActEvents(f, configured, acts[0]) + AllEvents(Do(f, configured, acts[0]), configured, acts[1..])
  }

  function BooksOf(f: Flow): Books {
    Books(f.state.pending, f.paid)
  }

  lemma ActQueues(f: Flow, configured: bool, a: Act)
    requires a.Flush? ==> Drains(a.batch, f.state.pending)
    ensures var events := ActEvents(f, configured, a);
      && AllowedRun(BooksOf(f), events, configured)
      && After(BooksOf(f), events, configured) == BooksOf(Do(f, configured, a))
  {
    hide FoldEvents, AfterMatches, Drains;
    match a {
      case Place(p) =>
        MatchesQueue(Idle(f.state), p.chain, configured, p.order, p.matches, f.paid);
      case Flush(batch) =>
        assert [Drain(batch)][1..] == [];
        assert After(Apply(BooksOf(f), Drain(batch), configured), [], configured)
            == Apply(BooksOf(f), Drain(batch), configured);
    }
  }

  lemma {:induction false} ActsAreEvents(f: Flow, configured: bool, acts: seq<Act>)
    requires ActsAllowed(f, configured, acts)
    ensures var events := AllEvents(f, configured, acts);
      && AllowedRun(BooksOf(f), events, configured)
      && After(BooksOf(f), events, configured) == BooksOf(DoAll(f, configured, acts))
    decreases |acts|
  {
    hide ActEvents, Do, Apply, Drains;
    if acts != [] {
      var next := Do(f, configured, acts[0]);
      ActQueues(f, configured, acts[0]);
      ActsAreEvents(next, configured, acts[1..]);
      AfterAppend(BooksOf(f), ActEvents(f, configured, acts[0]), AllEvents(next, configured, acts[1..]), configured);
    }
  }

  /**
   Over any run of orders and drains, what a real trader was paid and is still owed grows by exactly what its own
   folds realized, as taker and as maker, in dollars.
   */
  lemma EveryFoldIsPaid(f: Flow, acts: seq<Act>, trader: Address)
    requires ActsAllowed(f, true, acts) && NoSaturation(AllEvents(f, true, acts)) && trader != BACKSTOP
    ensures Total(BooksOf(DoAll(f, true, acts)), trader)
         == Total(BooksOf(f), trader) + RealizedUsd(AllEvents(f, true, acts), trader)
  {
    ActsAreEvents(f, true, acts);
    NothingIsLost(BooksOf(f), AllEvents(f, true, acts), trader);
  }
}
