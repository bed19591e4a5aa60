/**
 Realized PnL on its way to real custody: deltas are converted to dollars, netted per trader, and
 drained in batches. Nothing is lost or counted twice on the way.
 */
module RealizedPnl {
  import opened Arithmetic
  import opened MarketScale
  import opened Primitives

  /** The zero address is the synthetic backstop, which has no custody to settle. */
  const BACKSTOP: Address := ZERO_ADDRESS

  type Pending = map<Address, int>

  datatype PendingEntry = PendingEntry(trader: Address, delta: int)

  function PendingOf(p: Pending, trader: Address): int {
    if trader in p then p[trader] else 0
  }

  function Queued(p: Pending, configured: bool, trader: Address, delta: int): Pending {
    if delta == 0 || trader == BACKSTOP || !configured then p else p[trader := PendingOf(p, trader) + delta]
  }

  /** A drained batch: each pending trader exactly once, with its netted delta. */
  ghost predicate Drains(batch: seq<PendingEntry>, p: Pending) {
    && (forall i :: 0 <= i < |batch| ==> batch[i].trader in p && batch[i].delta == p[batch[i].trader])
    && (forall i, j :: 0 <= i < j < |batch| ==> batch[i].trader != batch[j].trader)
    && (forall t :: t in p ==> exists i :: 0 <= i < |batch| && batch[i].trader == t)
  }

  function PaidIn(batch: seq<PendingEntry>, trader: Address): int {
    if batch == [] then 0
    else (if batch[0].trader == trader then batch[0].delta else 0) + PaidIn(batch[1..], trader)
  }

  lemma {:induction false} PaidToNobody(batch: seq<PendingEntry>, trader: Address)
    requires forall i :: 0 <= i < |batch| ==> batch[i].trader != trader
    ensures PaidIn(batch, trader) == 0
  {
    if batch != [] {
      PaidToNobody(batch[1..], trader);
    }
  }

  lemma {:induction false} PaidOnce(batch: seq<PendingEntry>, i: nat)
    requires i < |batch|
    requires forall a, b :: 0 <= a < b < |batch| ==> batch[a].trader != batch[b].trader
    ensures PaidIn(batch, batch[i].trader) == batch[i].delta
  {
    if i == 0 {
      PaidToNobody(batch[1..], batch[0].trader);
    } else {
      PaidOnce(batch[1..], i - 1);
    }
  }

  /** A batch pays each trader exactly what was pending for it. */
  lemma DrainPaysPending(batch: seq<PendingEntry>, p: Pending, trader: Address)
    requires Drains(batch, p)
    ensures PaidIn(batch, trader) == PendingOf(p, trader)
  {
    if trader in p {
      var i :| 0 <= i < |batch| && batch[i].trader == trader;
      PaidOnce(batch, i);
    } else {
      PaidToNobody(batch, trader);
    }
  }

  // ---- Any interleaving of realized fills and drains ----

  datatype Event = Realize(trader: Address, market: string, delta: int) | Drain(batch: seq<PendingEntry>)

  /** What is pending, and what has been paid out in all batches so far. */
  datatype Books = Books(pending: Pending, paid: seq<PendingEntry>)

  ghost predicate Allowed(b: Books, e: Event) {
    e.Drain? ==> Drains(e.batch, b.pending)
  }

  function Apply(b: Books, e: Event, configured: bool): Books {
    match e
    case Realize(trader, market, delta) =>
      b.(pending := Queued(b.pending, configured, trader, RealizedDeltaToUsd(delta, market)))
    case Drain(batch) => Books(map[], b.paid + batch)
  }

  ghost predicate AllowedRun(b: Books, events: seq<Event>, configured: bool)
    decreases |events|
  {
    events != [] ==> Allowed(b, events[0]) && AllowedRun(Apply(b, events[0], configured), events[1..], configured)
  }

  function After(b: Books, events: seq<Event>, configured: bool): Books
    decreases |events|
  {
    if events == [] then b else After(Apply(b, events[0], configured), events[1..], configured)
  }

  /** A trader's realized PnL in exact dollars, fill by fill. */
  function RealizedUsd(events: seq<Event>, trader: Address): int {
    if events == [] then 0
    else (match events[0]
          case Realize(t, market, delta) => if t == trader then delta * UsdPerUnit(market) else 0
          case Drain(_) => 0) + RealizedUsd(events[1..], trader)
  }

  predicate NoSaturation(events: seq<Event>) {
    forall i :: 0 <= i < |events| && events[i].Realize? ==> FitsUsd(events[i].delta)
  }

  function Total(b: Books, trader: Address): int {
    PendingOf(b.pending, trader) + PaidIn(b.paid, trader)
  }

  lemma {:induction false} PaidAppend(a: seq<PendingEntry>, b: seq<PendingEntry>, trader: Address)
    ensures PaidIn(a + b, trader) == PaidIn(a, trader) + PaidIn(b, trader)
  {
    if a == [] {
      assert a + b == b;
    } else {
      assert (a + b)[1..] == a[1..] + b;
      PaidAppend(a[1..], b, trader);
    }
  }

  /** Everything drained plus everything pending is, for each real trader, its realized PnL in dollars, exactly. */
  lemma {:induction false} NothingIsLost(b: Books, events: seq<Event>, trader: Address)
    requires AllowedRun(b, events, true) && NoSaturation(events) && trader != BACKSTOP
    ensures Total(After(b, events, true), trader) == Total(b, trader) + RealizedUsd(events, trader)
    decreases |events|
  {
    hide RealizedDeltaToUsd;
    if events != [] {
      var e, next := events[0], Apply(b, events[0], true);
      match e {
        case Realize(_, market, delta) =>
          RealizedDeltaToUsdExactIff(delta, market);
        case Drain(batch) =>
          DrainPaysPending(batch, b.pending, trader);
          PaidAppend(b.paid, batch, trader);
      }
      NothingIsLost(next, events[1..], trader);
    }
  }

  /** The backstop is never paid, and nothing at all is queued while settlement is not configured. */
  lemma {:induction false} BackstopIsNeverPaid(b: Books, events: seq<Event>, configured: bool)
    requires AllowedRun(b, events, configured) && BACKSTOP !in b.pending && PaidIn(b.paid, BACKSTOP) == 0
    ensures BACKSTOP !in After(b, events, configured).pending
    ensures PaidIn(After(b, events, configured).paid, BACKSTOP) == 0
    ensures !configured && b.pending == map[] ==> After(b, events, configured).pending == map[]
    decreases |events|
  {
    hide RealizedDeltaToUsd;
    if events != [] {
      var next := Apply(b, events[0], configured);
      if events[0].Drain? {
        DrainPaysPending(events[0].batch, b.pending, BACKSTOP);
        PaidAppend(b.paid, events[0].batch, BACKSTOP);
      }
      BackstopIsNeverPaid(next, events[1..], configured);
    }
  }

  /** Netting before converting or after gives the same dollars, as long as both fit. */
  lemma ConversionIsAdditive(a: int, b: int, market: string)
    requires FitsUsd(a) && FitsUsd(b) && FitsUsd(a + b)
    ensures RealizedDeltaToUsd(a + b, market) == RealizedDeltaToUsd(a, market) + RealizedDeltaToUsd(b, market)
  {
    hide RealizedDeltaToUsd, UsdPerUnit, FitsUsd;
    RealizedDeltaToUsdExactIff(a, market);
    RealizedDeltaToUsdExactIff(b, market);
    RealizedDeltaToUsdExactIff(a + b, market);
    assert (a + b) * UsdPerUnit(market) == a * UsdPerUnit(market) + b * UsdPerUnit(market);
  }
}
