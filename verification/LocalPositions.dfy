/**
 The browser's own bookkeeping of positions from the fills it witnesses, and how it compares with the
 matcher's. Prices and profits of the browser are real numbers here; sizes are whole units.
 */
module LocalPositions {
  import opened Arithmetic
  import opened PositionFolding
  import opened CashLedger
  import opened Primitives

  const PENDING_WINDOW_MS: nat := 45_000

  datatype LocalPosition = LocalPosition(market: string, isLong: bool, size: nat, entryPrice: real,
                                         leverage: u64, openedAt: nat)

  /** The optimistic profit shown while settlement is on its way, and since when. */
  datatype PendingSettlement = PendingSettlement(since: nat, optimisticPnl: real)

  function IndexOf(ps: seq<LocalPosition>, market: string): (i: nat)
    ensures i <= |ps|
    ensures i < |ps| ==> ps[i].market == market
    ensures forall j :: 0 <= j < i ==> ps[j].market != market
  {
    if ps == [] || ps[0].market == market then 0 else 1 + IndexOf(ps[1..], market)
  }

  /** The size-weighted average of two prices, exact. */
  function Average(a: real, n: nat, b: real, m: nat): (r: real)
    requires n + m > 0
    ensures r * (n + m) as real == a * n as real + b * m as real
    ensures n == 0 ==> r == b
    ensures m == 0 ==> r == a
  {
    AverageExact(a * n as real + b * m as real, (n + m) as real, if n == 0 then b else a);
    (a * n as real + b * m as real) / (n + m) as real
  }

  lemma AverageExact(x: real, y: real, z: real)
    requires y != 0.0
    ensures x / y * y == x
    ensures z * y == x ==> x / y == z
  {}

  function RealizedPnlOf(existing: LocalPosition, closed: nat, exitPrice: real): real {
    (if existing.isLong then 1.0 else -1.0) * (exitPrice - existing.entryPrice) * closed as real
  }

  // ---- Specification: a signed holding per market ----

  /** One market seen as a signed size and an exact average entry price. */
  datatype Holding = Holding(size: int, entry: real)

  function HoldingIn(ps: seq<LocalPosition>, market: string): Holding {
    var i := IndexOf(ps, market);
    if i == |ps| then Holding(0, 0.0) else Holding(Directed(ps[i].isLong, ps[i].size), ps[i].entryPrice)
  }

  /** An exact, unrounded fold: close the opposing part, then average the rest in. */
  function Netted(h: Holding, f: Fill): Holding {
    var closing, opening := ClosingQty(h.size, f.isBuy, f.qty), OpeningQty(h.size, f.isBuy, f.qty);
    var rest := Abs(h.size) - closing;
    Holding(h.size + f.Signed(),
            if h.size + f.Signed() == 0 then 0.0 else Average(h.entry, rest, f.price as real, opening))
  }

  function NettedPnl(h: Holding, f: Fill): real {
    Directed(h.size >= 0, ClosingQty(h.size, f.isBuy, f.qty)) as real * (f.price as real - h.entry)
  }

  /** At most one entry per market, and never an empty one. */
  ghost predicate WellFormed(ps: seq<LocalPosition>) {
    && (forall i, j :: 0 <= i < j < |ps| ==> ps[i].market != ps[j].market)
    && (forall i :: 0 <= i < |ps| ==> ps[i].size > 0)
  }

  lemma IndexIsUnique(ps: seq<LocalPosition>, market: string, i: nat)
    requires WellFormed(ps) && i < |ps| && ps[i].market == market
    ensures IndexOf(ps, market) == i
  {}

  lemma AbsentIsLast(ps: seq<LocalPosition>, market: string)
    requires forall j :: 0 <= j < |ps| ==> ps[j].market != market
    ensures IndexOf(ps, market) == |ps|
  {}

  /** The list with one market's entry appended, replaced or removed; other markets are untouched. */
  function Recorded(ps: seq<LocalPosition>, market: string, f: Fill, leverage: u64, now: nat): seq<LocalPosition> {
    var i := IndexOf(ps, market);
    if i == |ps| then ps + [LocalPosition(market, f.isBuy, f.qty, f.price as real, leverage, now)] else
    var p := ps[i];
    if p.isLong == f.isBuy then
      ps[i := p.(size := p.size + f.qty, entryPrice := Average(p.entryPrice, p.size, f.price as real, f.qty),
                 leverage := leverage)]
    else if f.qty < p.size then ps[i := p.(size := p.size - f.qty)]
    else if f.qty > p.size then
      ps[i := LocalPosition(market, f.isBuy, f.qty - p.size, f.price as real, leverage, now)]
    else ps[..i] + ps[i + 1..]
  }

  function RecordedPnl(ps: seq<LocalPosition>, market: string, f: Fill): real {
    var i := IndexOf(ps, market);
    if i == |ps| || ps[i].isLong == f.isBuy then 0.0 else RealizedPnlOf(ps[i], Min(f.qty, ps[i].size), f.price as real)
  }

  function Window(pending: Option<PendingSettlement>, now: nat): Option<PendingSettlement> {
    match pending
    case None => None
    case Some(p) => if now - p.since >= PENDING_WINDOW_MS then None else pending
  }

  function Marked(pending: Option<PendingSettlement>, now: nat, pnl: real): PendingSettlement {
    PendingSettlement(now, (match Window(pending, now) case None => 0.0 case Some(p) => p.optimisticPnl) + pnl)
  }

  predicate Closes(ps: seq<LocalPosition>, market: string, f: Fill) {
    var i := IndexOf(ps, market);
    i < |ps| && ps[i].isLong != f.isBuy
  }

  /** The stored state, updated by the program fill by fill. */
  class Store {
    var positions: seq<LocalPosition>
    var pending: Option<PendingSettlement>

    constructor ()
      ensures positions == [] && pending == None
    {
      positions, pending := [], None;
    }

    method RecordFill(market: string, isLong: bool, size: u64, price: u64, leverage: u64, now: nat)
      requires size > 0
      modifies this
      ensures var f := Fill(isLong, price, size, 0);
        && positions == Recorded(old(positions), market, f, leverage, now)
        && pending == if Closes(old(positions), market, f)
                      then Some(Marked(old(pending), now, RecordedPnl(old(positions), market, f)))
                      else old(pending)
    {
      hide Average, RealizedPnlOf;
      var i := IndexOf(positions, market);
      if i == |positions| {
        positions := positions + [LocalPosition(market, isLong, size, price as real, leverage, now)];
      } else {
        var existing := positions[i];
        if existing.isLong == isLong {
          var newEntry := Average(existing.entryPrice, existing.size, price as real, size);
          positions := positions[i := existing.(size := existing.size + size, entryPrice := newEntry,
                                                leverage := leverage)];
        } else if size < existing.size {
          positions := positions[i := existing.(size := existing.size - size)];
          MarkSettlementPending(now, RealizedPnlOf(existing, size, price as real));
        } else if size > existing.size {
          positions := positions[i := LocalPosition(market, isLong, size - existing.size, price as real, leverage,
                                                    now)];
          MarkSettlementPending(now, RealizedPnlOf(existing, existing.size, price as real));
        } else {
          positions := positions[..i] + positions[i + 1..];
          MarkSettlementPending(now, RealizedPnlOf(existing, size, price as real));
        }
      }
    }

    method MarkSettlementPending(now: nat, pnl: real)
      modifies this`pending
      ensures pending == Some(Marked(old(pending), now, pnl))
    {
      var existing := Window(pending, now);
      pending := Some(PendingSettlement(now, (match existing case None => 0.0 case Some(p) => p.optimisticPnl) + pnl));
    }
  }

  // ---- What a fill shows in the browser ----

  /** A preview younger than 45 seconds is added to, an older one dropped; either way the window starts again. */
  lemma PreviewWindow(pending: Option<PendingSettlement>, now: nat, pnl: real)
    ensures var marked := Marked(pending, now, pnl);
      && marked.since == now
      && (pending == None ==> marked.optimisticPnl == pnl)
      && (pending.Some? && now - pending.value.since < 45_000 ==>
            marked.optimisticPnl == pending.value.optimisticPnl + pnl)
      && (pending.Some? && now - pending.value.since >= 45_000 ==> marked.optimisticPnl == pnl)
  {}

  /** A fill closes something exactly when the market is held on the other side, and only then realizes anything. */
  lemma ClosesIffOpposed(ps: seq<LocalPosition>, market: string, f: Fill)
    requires WellFormed(ps)
    ensures Closes(ps, market, f) <==> Opposes(HoldingIn(ps, market).size, f.isBuy)
    ensures !Closes(ps, market, f) ==> RecordedPnl(ps, market, f) == 0.0
  {}

  /**
   Opening and flipping stamp the entry with the fill's leverage and time, an add takes the fill's leverage and keeps
   the time, a partial close keeps both.
   */
  lemma RecordedStamps(ps: seq<LocalPosition>, market: string, f: Fill, leverage: u64, now: nat)
    requires WellFormed(ps)
    ensures var size, qs := HoldingIn(ps, market).size, Recorded(ps, market, f, leverage, now);
      var i, j := IndexOf(ps, market), IndexOf(qs, market);
      && (j == |qs| <==> size + f.Signed() == 0)
      && (j < |qs| && (size == 0 || (Opposes(size, f.isBuy) && f.qty > Abs(size))) ==>
            qs[j].leverage == leverage && qs[j].openedAt == now)
      && (j < |qs| && size != 0 && !Opposes(size, f.isBuy) ==>
            i < |ps| && qs[j].leverage == leverage && qs[j].openedAt == ps[i].openedAt)
      && (j < |qs| && Opposes(size, f.isBuy) && f.qty < Abs(size) ==>
            i < |ps| && qs[j].leverage == ps[i].leverage && qs[j].openedAt == ps[i].openedAt)
  {
    hide Average;
    RecordedIndex(ps, market, f, leverage, now);
    hide IndexOf;
  }

  // ---- The list realizes the signed holding ----

  lemma RecordedStaysWellFormed(ps: seq<LocalPosition>, market: string, f: Fill, leverage: u64, now: nat)
    requires WellFormed(ps)
    ensures WellFormed(Recorded(ps, market, f, leverage, now))
  {
    hide Average;
    var qs, i := Recorded(ps, market, f, leverage, now), IndexOf(ps, market);
    hide IndexOf;
    if |qs| < |ps| {
      assert forall j :: 0 <= j < |qs| ==> qs[j] == ps[if j < i then j else j + 1];
    } else {
      assert forall j :: 0 <= j < |qs| && j != i ==> j < |ps| && qs[j] == ps[j];
    }
  }

  /** Where the market's entry is afterwards, if it is anywhere. */
  lemma RecordedIndex(ps: seq<LocalPosition>, market: string, f: Fill, leverage: u64, now: nat)
    requires WellFormed(ps)
    ensures var qs, i := Recorded(ps, market, f, leverage, now), IndexOf(ps, market);
      IndexOf(qs, market) == if |qs| < |ps| then |qs| else i
  {
    hide Average;
    var qs, i := Recorded(ps, market, f, leverage, now), IndexOf(ps, market);
    RecordedStaysWellFormed(ps, market, f, leverage, now);
    if |qs| < |ps| {
      forall j | 0 <= j < |qs| ensures qs[j].market != market {
        assert qs[j] == ps[if j < i then j else j + 1];
      }
      AbsentIsLast(qs, market);
    } else {
      IndexIsUnique(qs, market, i);
    }
  }

  lemma RecordedIsNetted(ps: seq<LocalPosition>, market: string, f: Fill, leverage: u64, now: nat)
    requires WellFormed(ps)
    ensures HoldingIn(Recorded(ps, market, f, leverage, now), market) == Netted(HoldingIn(ps, market), f)
  {
    hide Average;
    RecordedIndex(ps, market, f, leverage, now);
    hide IndexOf, WellFormed;
  }

  lemma RecordedPnlIsNettedPnl(ps: seq<LocalPosition>, market: string, f: Fill)
    requires WellFormed(ps)
    ensures RecordedPnl(ps, market, f) == NettedPnl(HoldingIn(ps, market), f)
  {
    var i := IndexOf(ps, market);
    if i < |ps| {
      SignedProduct(ps[i].isLong, f.price as real - ps[i].entryPrice, Min(f.qty, ps[i].size));
    }
  }

  lemma SignedProduct(long: bool, x: real, n: nat)
    ensures (if long then 1.0 else -1.0) * x * n as real == Directed(long, n) as real * x
  {
    assert Directed(long, n) as real == (if long then 1.0 else -1.0) * n as real;
  }

  /** Where an entry of another market comes from, and where it goes. */
  lemma RecordedFrom(ps: seq<LocalPosition>, market: string, f: Fill, leverage: u64, now: nat, j: nat)
    requires WellFormed(ps)
    ensures var qs, i := Recorded(ps, market, f, leverage, now), IndexOf(ps, market);
      j < |qs| && qs[j].market != market ==>
        var j' := if |qs| < |ps| && j >= i then j + 1 else j; j' < |ps| && qs[j] == ps[j']
  {
    hide Average, WellFormed;
  }

  lemma RecordedTo(ps: seq<LocalPosition>, market: string, f: Fill, leverage: u64, now: nat, j: nat)
    requires WellFormed(ps)
    ensures var qs, i := Recorded(ps, market, f, leverage, now), IndexOf(ps, market);
      j < |ps| && ps[j].market != market ==>
        var j' := if |qs| < |ps| && j > i then j - 1 else j; j' < |qs| && qs[j'] == ps[j]
  {
    hide Average, WellFormed;
  }

  lemma OtherMarketPresent(ps: seq<LocalPosition>, market: string, f: Fill, leverage: u64, now: nat, other: string)
    requires WellFormed(ps) && other != market && IndexOf(ps, other) < |ps|
    ensures HoldingIn(Recorded(ps, market, f, leverage, now), other) == HoldingIn(ps, other)
  {
    var qs, i, o := Recorded(ps, market, f, leverage, now), IndexOf(ps, market), IndexOf(ps, other);
    RecordedStaysWellFormed(ps, market, f, leverage, now);
    RecordedTo(ps, market, f, leverage, now, o);
    hide Recorded, Average, WellFormed;
    IndexIsUnique(qs, other, if |qs| < |ps| && o > i then o - 1 else o);
  }

  lemma OtherMarketAbsent(ps: seq<LocalPosition>, market: string, f: Fill, leverage: u64, now: nat, other: string)
    requires WellFormed(ps) && other != market && IndexOf(ps, other) == |ps|
    ensures HoldingIn(Recorded(ps, market, f, leverage, now), other) == HoldingIn(ps, other)
  {
    var qs := Recorded(ps, market, f, leverage, now);
    hide Recorded, Average, WellFormed;
    forall j | 0 <= j < |qs| ensures qs[j].market != other {
      RecordedFrom(ps, market, f, leverage, now, j);
      if qs[j].market != market {
        assert qs[j] in ps;
      }
    }
    AbsentIsLast(qs, other);
  }

  /** No other market's holding changes. */
  lemma OtherMarketsUntouched(ps: seq<LocalPosition>, market: string, f: Fill, leverage: u64, now: nat, other: string)
    requires WellFormed(ps) && other != market
    ensures HoldingIn(Recorded(ps, market, f, leverage, now), other) == HoldingIn(ps, other)
  {
    hide Recorded, HoldingIn, WellFormed;
    if IndexOf(ps, other) < |ps| {
      OtherMarketPresent(ps, market, f, leverage, now, other);
    } else {
      OtherMarketAbsent(ps, market, f, leverage, now, other);
    }
  }

  // ---- Browser and matcher after the same fills ----

  datatype ClientOutcome = ClientOutcome(holding: Holding, pnl: real)

  function ClientRun(h: Holding, fills: seq<Fill>): ClientOutcome
    decreases |fills|
  {
    if fills == [] then ClientOutcome(h, 0.0) else
    var rest := ClientRun(Netted(h, fills[0]), fills[1..]);
    ClientOutcome(rest.holding, NettedPnl(h, fills[0]) + rest.pnl)
  }

  function Cost(h: Holding): real {
    h.size as real * h.entry
  }

  lemma DistributeReal(a: real, b: real, x: real)
    ensures (a + b) * x == a * x + b * x && (a - b) * x == a * x - b * x
    ensures x * (a - b) == x * a - x * b
  {}

  lemma SignedTimes(long: bool, n: nat, x: real)
    ensures Directed(long, n) as real * x == if long then n as real * x else -(n as real * x)
  {}

  lemma CostAfter(h: Holding, f: Fill, rest: int, added: int)
    requires rest == h.size - Directed(h.size >= 0, ClosingQty(h.size, f.isBuy, f.qty))
    requires added == Directed(f.isBuy, OpeningQty(h.size, f.isBuy, f.qty))
    ensures Cost(Netted(h, f)) == rest as real * h.entry + added as real * f.price as real
  {
    hide Average, Netted, ClosingQty, OpeningQty;
    SameSide(h.size, f.isBuy, f.qty);
    NettedEntry(h, f);
    if rest + added != 0 {
      SignedAverage(rest, added, h.entry, f.price as real, Netted(h, f).entry);
    } else {
      assert rest == 0 && added == 0;
    }
  }

  lemma NettedEntry(h: Holding, f: Fill)
    ensures var c, o := ClosingQty(h.size, f.isBuy, f.qty), OpeningQty(h.size, f.isBuy, f.qty);
      var n, r := Abs(h.size) - c, Netted(h, f);
      && r.size == h.size + f.Signed()
      && (r.size != 0 ==> r.entry * (n + o) as real == h.entry * n as real + f.price as real * o as real)
  {
    SameSide(h.size, f.isBuy, f.qty);
    hide Average, ClosingQty, OpeningQty;
  }

  /** What a fill leaves of the old side and what it opens never face each other. */
  lemma SameSide(size: int, isBuy: bool, qty: nat)
    ensures var c, o := ClosingQty(size, isBuy, qty), OpeningQty(size, isBuy, qty);
      var rest, added := size - Directed(size >= 0, c), Directed(isBuy, o);
      && ((rest >= 0 && added >= 0) || (rest <= 0 && added <= 0))
      && Abs(rest) == Abs(size) - c && Abs(added) == o && rest + added == size + Directed(isBuy, qty)
  {}

  lemma SignedAverage(rest: int, added: int, entry: real, price: real, average: real)
    requires (rest >= 0 && added >= 0) || (rest <= 0 && added <= 0)
    requires average * (Abs(rest) + Abs(added)) as real == entry * Abs(rest) as real + price * Abs(added) as real
    ensures (rest + added) as real * average == rest as real * entry + added as real * price
  {
    var long := rest >= 0 && added >= 0;
    SignedTimes(long, Abs(rest) + Abs(added), average);
    SignedTimes(long, Abs(rest), entry);
    SignedTimes(long, Abs(added), price);
  }

  /** The browser's books are exact: profit minus change in cost is the cash of the fill. */
  lemma NettedIsExact(h: Holding, f: Fill)
    ensures NettedPnl(h, f) - (Cost(Netted(h, f)) - Cost(h)) == SpotCash(f) as real
  {
    hide Netted, Average;
    var closed := Directed(h.size >= 0, ClosingQty(h.size, f.isBuy, f.qty));
    var added := Directed(f.isBuy, OpeningQty(h.size, f.isBuy, f.qty));
    CostAfter(h, f, h.size - closed, added);
    assert f.Signed() == added - closed;
    DistributeReal(added as real, closed as real, f.price as real);
    DistributeReal(h.size as real, closed as real, h.entry);
    DistributeReal(f.price as real, h.entry, closed as real);
  }

  lemma {:induction false} ClientIsExact(h: Holding, p: Position, fills: seq<Fill>)
    ensures var c := ClientRun(h, fills);
      c.pnl - (Cost(c.holding) - Cost(h)) == RunTally(p, fills).spotCash as real
    ensures ClientRun(h, fills).holding.size == h.size + NetSigned(fills)
    decreases |fills|
  {
    hide Netted, NettedPnl, SpotCash, Cost, Applied, SpotRealized, FundingRealized, FundingCash, AddSlack;
    if fills != [] {
      NettedIsExact(h, fills[0]);
      NettedSize(h, fills[0]);
      ClientIsExact(Netted(h, fills[0]), Applied(p, fills[0]).position, fills[1..]);
    }
  }

  lemma NettedSize(h: Holding, f: Fill)
    ensures Netted(h, f).size == h.size + f.Signed()
  {
    hide Average;
  }

  /** With a constant funding index no funding is ever realized. */
  lemma {:induction false} ConstantFundingRealizesNothing(p: Position, fills: seq<Fill>, funding: int)
    requires p.signedSize != 0 ==> p.entryFunding == funding
    requires forall i :: 0 <= i < |fills| ==> fills[i].funding == funding
    ensures RunTally(p, fills).fundingRealized == 0
    decreases |fills|
  {
    hide Applied, SpotRealized, SpotCash, FundingCash, AddSlack, BlendPrice, BlendFunding;
    if fills != [] {
      AppliedEntry(p, fills[0]);
      NoFunding(p, fills[0], funding);
      ConstantFundingRealizesNothing(Applied(p, fills[0]).position, fills[1..], funding);
    }
  }

  lemma NoFunding(p: Position, f: Fill, funding: int)
    requires p.signedSize != 0 ==> p.entryFunding == funding
    requires f.funding == funding
    ensures FundingRealized(p, f) == 0
  {}

  /**
   After the same fills browser and matcher hold the same side and size. Their profits, each measured
   against its own entry, differ by no more than the matcher's rounding; when both are flat the realized
   totals themselves do.
   */
  lemma BrowserAgreesWithMatcher(leverage: u64, fills: seq<Fill>, funding: int)
    requires forall i :: 0 <= i < |fills| ==> fills[i].funding == funding
    ensures var c, r := ClientRun(Holding(0, 0.0), fills), Run(Flat(leverage), fills);
      var slack := RunTally(Flat(leverage), fills).slack as real;
      && c.holding.size == r.position.signedSize
      && -slack <= (r.realized - SpotBook(r.position)) as real - (c.pnl - Cost(c.holding)) <= slack
      && (c.holding.size == 0 ==> -slack <= r.realized as real - c.pnl <= slack)
  {
    hide Run, RunTally, ClientRun, NetSigned, Cost, SpotBook, FundingBook;
    var p, h := Flat(leverage), Holding(0, 0.0);
    var c, r, t := ClientRun(h, fills), Run(p, fills), RunTally(p, fills);
    RunSize(p, fills);
    ClientIsExact(h, p, fills);
    ConstantFundingRealizesNothing(p, fills, funding);
    RealizedIsSpotPlusFunding(p, fills);
    CashIsConserved(p, fills);
    NoBook(p);
    NoCost(h);
    if c.holding.size == 0 {
      NoBook(r.position);
      NoCost(c.holding);
    }
  }

  lemma NoCost(h: Holding)
    requires h.size == 0
    ensures Cost(h) == 0.0
  {}

  // ---- Whole histories of the store ----

  datatype Record = Record(market: string, fill: Fill, leverage: u64, now: nat)

  function RecordAll(ps: seq<LocalPosition>, rs: seq<Record>): seq<LocalPosition>
    decreases |rs|
  {
    if rs == [] then ps
    else RecordAll(Recorded(ps, rs[0].market, rs[0].fill, rs[0].leverage, rs[0].now), rs[1..])
  }

  function PnlIn(ps: seq<LocalPosition>, rs: seq<Record>, market: string): real
    decreases |rs|
  {
    if rs == [] then 0.0
    else (if rs[0].market == market then RecordedPnl(ps, market, rs[0].fill) else 0.0)
         + PnlIn(Recorded(ps, rs[0].market, rs[0].fill, rs[0].leverage, rs[0].now), rs[1..], market)
  }

  function FillsIn(rs: seq<Record>, market: string): seq<Fill> {
    if rs == [] then []
    else (if rs[0].market == market then [rs[0].fill] else []) + FillsIn(rs[1..], market)
  }

  /**
   However fills of different markets interleave, the store keeps one non-empty entry per market at most,
   and each market's entry and profit are those of that market's fills netted on their own.
   */
  lemma {:induction false} StoreNetsEachMarket(ps: seq<LocalPosition>, rs: seq<Record>, market: string)
    requires WellFormed(ps)
    ensures WellFormed(RecordAll(ps, rs))
    ensures var c := ClientRun(HoldingIn(ps, market), FillsIn(rs, market));
      HoldingIn(RecordAll(ps, rs), market) == c.holding && PnlIn(ps, rs, market) == c.pnl
    decreases |rs|
  {
    hide WellFormed, HoldingIn, Recorded, RecordedPnl, Netted, NettedPnl;
    if rs != [] {
      var r := rs[0];
      var qs := Recorded(ps, r.market, r.fill, r.leverage, r.now);
      RecordedStaysWellFormed(ps, r.market, r.fill, r.leverage, r.now);
      StoreNetsEachMarket(qs, rs[1..], market);
      if r.market == market {
        RecordedIsNetted(ps, market, r.fill, r.leverage, r.now);
        RecordedPnlIsNettedPnl(ps, market, r.fill);
        assert FillsIn(rs, market)[1..] == FillsIn(rs[1..], market);
      } else {
        OtherMarketsUntouched(ps, r.market, r.fill, r.leverage, r.now, market);
        assert FillsIn(rs, market) == FillsIn(rs[1..], market);
      }
    }
  }

  // ---- The optimistic preview ----

  datatype Close = Close(now: nat, pnl: real)

  function MarkAll(pending: Option<PendingSettlement>, closes: seq<Close>): Option<PendingSettlement>
    decreases |closes|
  {
    if closes == [] then pending else MarkAll(Some(Marked(pending, closes[0].now, closes[0].pnl)), closes[1..])
  }

  function Sum(closes: seq<Close>): real {
    if closes == [] then 0.0 else closes[0].pnl + Sum(closes[1..])
  }

  /** No close comes a whole settlement window after the one before it. */
  predicate WithoutGap(since: nat, closes: seq<Close>)
    decreases |closes|
  {
    closes != [] ==> closes[0].now - since < PENDING_WINDOW_MS && WithoutGap(closes[0].now, closes[1..])
  }

  /** While closes keep coming within the window, the preview is the sum of all of them. */
  lemma {:induction false} PreviewAccumulates(p: PendingSettlement, closes: seq<Close>)
    requires WithoutGap(p.since, closes)
    ensures MarkAll(Some(p), closes).Some?
    ensures MarkAll(Some(p), closes).value.optimisticPnl == p.optimisticPnl + Sum(closes)
    decreases |closes|
  {
    if closes != [] {
      PreviewAccumulates(Marked(Some(p), closes[0].now, closes[0].pnl), closes[1..]);
    }
  }
}
